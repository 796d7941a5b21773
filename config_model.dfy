/**
 * The values the `config` command works on (src/actions/config.js) and its
 * pure steps: the menu, the delete filter, the duplicate-name lookup, the
 * credential record, and the outcome of a run of environment-editing
 * attempts.
 */
module ConfigModel {
  import opened Wrappers

  /** AWS credentials as the user typed them; either may be blank. */
  datatype Credentials = Credentials(accessKeyId: string, secretAccessKey: string)

  /** One downstream environment; its fields are only checked by the schema, never interpreted here. */
  datatype Environment = Environment(attributes: map<string, string>)

  /**
   * A stored profile. A freshly pushed profile is `{ name }` only, so the
   * two other fields may be absent until they are written.
   */
  datatype Profile = Profile(name: string, awsCredentials: Option<Credentials>, environments: Option<seq<Environment>>)

  /** The value of a menu entry: one of the three actions, or the index of a profile. */
  datatype Choice = CreateNew | DeleteOne | ExitCli | ConfigureProfile(index: nat)

  datatype MenuEntry = MenuEntry(title: string, value: Choice)

  /** An entry of the "Select a profile to delete" prompt, valued by a plain list index. */
  datatype DeleteEntry = DeleteEntry(title: string, index: nat)

  const CreateEntry := MenuEntry("Create new profile", CreateNew)
  const DeleteOneEntry := MenuEntry("Delete a profile", DeleteOne)
  const ExitEntry := MenuEntry("Exit this CLI", ExitCli)

  /** The message the name prompt shows for a name that is already taken. */
  const NameTakenMessage := "Profile already exists. Choose a different name"

  /** `getAwsConfig`: the credential record built from the two answers. */
  function AwsConfig(accessKeyId: string, secretAccessKey: string): (c: Credentials)
    ensures c.accessKeyId == accessKeyId && c.secretAccessKey == secretAccessKey
  {
    Credentials(accessKeyId, secretAccessKey)
  }

  /** One "Configure profile" entry per profile, in list order, valued by index. */
  function ConfigureEntries(profiles: seq<Profile>): (es: seq<MenuEntry>)
    ensures |es| == |profiles|
    ensures forall i :: 0 <= i < |es| ==>
              es[i] == MenuEntry("Configure profile: " + profiles[i].name, ConfigureProfile(i))
  {
    seq(|profiles|, i requires 0 <= i < |profiles| => MenuEntry("Configure profile: " + profiles[i].name, ConfigureProfile(i)))
  }

  /** The entries of the "Select a profile to delete" prompt: each profile's name, valued by index. */
  function DeleteEntries(profiles: seq<Profile>): (es: seq<DeleteEntry>)
    ensures |es| == |profiles|
    ensures forall i :: 0 <= i < |es| ==> es[i] == DeleteEntry(profiles[i].name, i)
  {
    seq(|profiles|, i requires 0 <= i < |profiles| => DeleteEntry(profiles[i].name, i))
  }

  /** The top-level menu: Create first, Exit last, and Delete plus one entry per profile only when there are profiles. */
  function Menu(profiles: seq<Profile>): (m: seq<MenuEntry>)
    ensures |m| == if profiles == [] then 2 else |profiles| + 3
    ensures m[0] == CreateEntry && m[|m| - 1] == ExitEntry
    ensures profiles != [] ==> m[1] == DeleteOneEntry && m[2..|m| - 1] == ConfigureEntries(profiles)
  {
    [CreateEntry] + (if profiles == [] then [] else [DeleteOneEntry] + ConfigureEntries(profiles)) + [ExitEntry]
  }

  /** The values a selection from `Menu(profiles)` can take. */
  predicate Offered(profiles: seq<Profile>, c: Choice) {
    match c
    case CreateNew => true
    case ExitCli => true
    case DeleteOne => profiles != []
    case ConfigureProfile(i) => i < |profiles|
  }

  /** `Offered` is exactly the set of values the menu carries. */
  lemma OfferedIffInMenu(profiles: seq<Profile>, c: Choice)
    ensures Offered(profiles, c) <==> exists k :: 0 <= k < |Menu(profiles)| && Menu(profiles)[k].value == c
  {
    var m := Menu(profiles);
    if Offered(profiles, c) {
      match c
      case CreateNew => assert m[0].value == c;
      case ExitCli => assert m[|m| - 1].value == c;
      case DeleteOne => assert m[1].value == c;
      case ConfigureProfile(i) =>
        assert m[2..|m| - 1][i] == m[i + 2];
        assert m[i + 2].value == c;
    } else {
      forall k | 0 <= k < |m| ensures m[k].value != c {
        if 2 <= k < |m| - 1 {
          assert m[k] == m[2..|m| - 1][k - 2];
        }
      }
    }
  }

  /**
   * `profiles.filter((el, i) => i !== toDelete)`: keeps every profile whose
   * position differs from `toDelete`, in order.
   */
  function Without(profiles: seq<Profile>, toDelete: int): (r: seq<Profile>)
    ensures 0 <= toDelete < |profiles| ==> r == profiles[..toDelete] + profiles[toDelete + 1..]
    ensures !(0 <= toDelete < |profiles|) ==> r == profiles
  {
    if profiles == [] then []
    else (if toDelete == 0 then [] else [profiles[0]]) + Without(profiles[1..], toDelete - 1)
  }

  /** `profiles.find((p) => p.name === name)`: the first profile with that exact name. */
  function FindByName(profiles: seq<Profile>, name: string): (r: Option<Profile>)
    ensures r.None? <==> forall i :: 0 <= i < |profiles| ==> profiles[i].name != name
    ensures r.Some? ==> r.value.name == name
    ensures r.Some? ==> exists i :: 0 <= i < |profiles| && profiles[i] == r.value &&
                                    forall j :: 0 <= j < i ==> profiles[j].name != name
  {
    if profiles == [] then None
    else if profiles[0].name == name then Some(profiles[0])
    else
      var r := FindByName(profiles[1..], name);
      assert forall i :: 1 <= i < |profiles| ==> profiles[i] == profiles[1..][i - 1];
      r
  }

  /** The name prompt's `validate`: `None` accepts the name, `Some(message)` rejects it. */
  function ValidateName(profiles: seq<Profile>, name: string): (r: Option<string>)
    ensures r.None? <==> forall i :: 0 <= i < |profiles| ==> profiles[i].name != name
    ensures r.Some? ==> r.value == NameTakenMessage
  {
    if FindByName(profiles, name).Some? then Some(NameTakenMessage) else None
  }

  /** No two profiles share a name (case-sensitive). */
  predicate UniqueNames(profiles: seq<Profile>) {
    forall i, j :: 0 <= i < j < |profiles| ==> profiles[i].name != profiles[j].name
  }

  /** Appending a profile whose name the prompt accepted keeps names unique. */
  lemma AppendAcceptedKeepsUnique(profiles: seq<Profile>, p: Profile)
    requires UniqueNames(profiles) && ValidateName(profiles, p.name).None?
    ensures UniqueNames(profiles + [p])
  {
  }

  /** Deleting by index keeps names unique. */
  lemma WithoutKeepsUnique(profiles: seq<Profile>, toDelete: int)
    requires UniqueNames(profiles)
    ensures UniqueNames(Without(profiles, toDelete))
  {
  }

  /** Rewriting one profile without changing its name keeps names unique. */
  lemma UpdateKeepsUnique(profiles: seq<Profile>, k: nat, p: Profile)
    requires UniqueNames(profiles) && k < |profiles| && p.name == profiles[k].name
    ensures UniqueNames(profiles[k := p])
  {
  }

  /** `Utils.lodashGet(profile, 'environments', [])`: the stored environments, or none. */
  function ExistingEnvironments(p: Profile): (envs: seq<Environment>)
    ensures p.environments.Some? ==> envs == p.environments.value
    ensures p.environments.None? ==> envs == []
  {
    p.environments.GetOr([])
  }

  /**
   * What reading the scratch file back produced on one editing round: the
   * error `JSON.parse` or `SchemaUtils.validate` threw (by its `name`), or
   * the parsed and validated environments.
   */
  datatype Attempt = Thrown(errorName: string, message: string) | Passed(environments: seq<Environment>)

  /** Only errors named SyntaxError or ValidationError send the user back to the editor. */
  predicate Retryable(a: Attempt)
    ensures Retryable(a) ==> a.Thrown?
  {
    a.Thrown? && (a.errorName == "SyntaxError" || a.errorName == "ValidationError")
  }

  /**
   * The result of `getEnvironments`: editing declined (`null`), environments
   * captured, an error propagated, or the user still correcting the file
   * when the given attempts run out.
   */
  datatype Capture = Declined | Captured(environments: seq<Environment>) | Propagated(error: Attempt) | StillEditing

  /** Where a run of attempts stops: the index of the first attempt that is not retryable, or its length. */
  function Decisive(attempts: seq<Attempt>): (k: nat)
    ensures k <= |attempts|
    ensures forall j :: 0 <= j < k ==> Retryable(attempts[j])
    ensures k < |attempts| ==> !Retryable(attempts[k])
  {
    if attempts == [] || !Retryable(attempts[0]) then 0
    else
      var k := Decisive(attempts[1..]);
      assert forall j :: 1 <= j < |attempts| ==> attempts[j] == attempts[1..][j - 1];
      k + 1
  }

  /** The retry loop of `getEnvironments` over a run of attempts, attempt by attempt. */
  function Settle(attempts: seq<Attempt>): (c: Capture)
    ensures c != Declined
    ensures c.Propagated? ==> c.error in attempts && c.error.Thrown? && !Retryable(c.error)
    ensures c.Captured? ==> Passed(c.environments) in attempts
  {
    if attempts == [] then StillEditing
    else if Retryable(attempts[0]) then Settle(attempts[1..])
    else if attempts[0].Passed? then Captured(attempts[0].environments)
    else Propagated(attempts[0])
  }

  /** The loop's outcome is decided by the first attempt that is not retried. */
  lemma {:induction false} SettleAtDecisive(attempts: seq<Attempt>)
    ensures var k := Decisive(attempts);
            Settle(attempts) ==
              if k == |attempts| then StillEditing
              else if attempts[k].Passed? then Captured(attempts[k].environments)
              else Propagated(attempts[k])
  {
    if attempts != [] && Retryable(attempts[0]) {
      SettleAtDecisive(attempts[1..]);
      assert Decisive(attempts) == Decisive(attempts[1..]) + 1;
    }
  }

  /** Environments are captured exactly when some attempt passes and every earlier one was retryable. */
  lemma {:induction false} SettleCapturedIff(attempts: seq<Attempt>, envs: seq<Environment>)
    ensures Settle(attempts) == Captured(envs) <==>
              exists k :: 0 <= k < |attempts| && attempts[k] == Passed(envs) &&
                          forall j :: 0 <= j < k ==> Retryable(attempts[j])
  {
    SettleAtDecisive(attempts);
    var d := Decisive(attempts);
    if exists k :: 0 <= k < |attempts| && attempts[k] == Passed(envs) && forall j :: 0 <= j < k ==> Retryable(attempts[j]) {
      var k :| 0 <= k < |attempts| && attempts[k] == Passed(envs) && forall j :: 0 <= j < k ==> Retryable(attempts[j]);
      assert !Retryable(attempts[k]);
      assert k == d;
    }
  }

  /** An error other than SyntaxError or ValidationError ends the loop: it is propagated, never retried. */
  lemma SettlePropagatesFatal(retried: seq<Attempt>, fatal: Attempt, rest: seq<Attempt>)
    requires forall j :: 0 <= j < |retried| ==> Retryable(retried[j])
    requires fatal.Thrown? && !Retryable(fatal)
    ensures Settle(retried + [fatal] + rest) == Propagated(fatal)
  {
    var a := retried + [fatal] + rest;
    SettleAtDecisive(a);
    assert a[|retried|] == fatal;
    assert forall j :: 0 <= j < |retried| ==> a[j] == retried[j];
  }

  /** Malformed or invalid files followed by a valid one: the loop does not fail and returns the valid environments. */
  lemma SettleRetriesUntilValid(retried: seq<Attempt>, envs: seq<Environment>, rest: seq<Attempt>)
    requires forall j :: 0 <= j < |retried| ==> Retryable(retried[j])
    ensures Settle(retried + [Passed(envs)] + rest) == Captured(envs)
  {
    var a := retried + [Passed(envs)] + rest;
    SettleAtDecisive(a);
    assert a[|retried|] == Passed(envs);
    assert forall j :: 0 <= j < |retried| ==> a[j] == retried[j];
  }

  /** `getEnvironments` as a whole: `null` when editing is declined, the loop's outcome otherwise. */
  function GetEnvironments(editNow: bool, attempts: seq<Attempt>): (c: Capture)
    ensures !editNow <==> c == Declined
  {
    if editNow then Settle(attempts) else Declined
  }

  /** `environments || []`: what is stored after a completed capture; a declined edit stores the empty list. */
  function StoredEnvironments(c: Capture): (envs: seq<Environment>)
    requires c.Declined? || c.Captured?
    ensures c.Captured? ==> envs == c.environments
    ensures c.Declined? ==> envs == []
  {
    if c.Captured? then c.environments else []
  }

  /**
   * A profile after one create-or-edit pass: the credentials are replaced,
   * and the environments are replaced by the capture when it completed
   * (the empty list when editing was declined). Its name never changes.
   */
  function Configured(p: Profile, creds: Credentials, c: Capture): (q: Profile)
    ensures q.name == p.name && q.awsCredentials == Some(creds)
    ensures c.Declined? || c.Captured? ==> q.environments == Some(StoredEnvironments(c))
    ensures !(c.Declined? || c.Captured?) ==> q.environments == p.environments
  {
    var withCredentials := p.(awsCredentials := Some(creds));
    if c.Declined? || c.Captured? then withCredentials.(environments := Some(StoredEnvironments(c)))
    else withCredentials
  }

  /**
   * The content of the scratch file: a document `{ environments: [...] }`
   * written by the command, or whatever the user left in it in the editor.
   */
  datatype ScratchFile = Document(environments: seq<Environment>) | UserEdited

  /**
   * The documents `getEnvironments` writes to the scratch file: none when
   * editing is declined; the existing environments first when accepted; and
   * the empty document afterwards only when the loop is left successfully.
   */
  function ScratchWrites(existing: seq<Environment>, editNow: bool, attempts: seq<Attempt>): (w: seq<seq<Environment>>)
    ensures !editNow ==> w == []
    ensures editNow ==> 1 <= |w| <= 2 && w[0] == existing
    ensures |w| == 2 <==> GetEnvironments(editNow, attempts).Captured?
    ensures |w| == 2 ==> w[1] == []
  {
    if !editNow then []
    else if Settle(attempts).Captured? then [existing, []]
    else [existing]
  }

  /**
   * The scratch file after `getEnvironments`, starting from `before`. A
   * propagated error leaves the user's edit in place: the reset is skipped.
   */
  function ScratchAfter(before: ScratchFile, existing: seq<Environment>, editNow: bool, attempts: seq<Attempt>): (s: ScratchFile)
    ensures !editNow ==> s == before
    ensures editNow && GetEnvironments(editNow, attempts).Captured? ==> s == Document([])
    ensures editNow && GetEnvironments(editNow, attempts).Propagated? ==> s == UserEdited
    ensures editNow && attempts == [] ==> s == Document(existing)
    ensures editNow && attempts != [] && !GetEnvironments(editNow, attempts).Captured? ==> s == UserEdited
  {
    if !editNow then before
    else if Settle(attempts).Captured? then Document([])
    else if attempts == [] then Document(existing)
    else UserEdited
  }

  /** Of the ways `getEnvironments` can end, only a successful edit leaves the scratch file holding the empty document it writes. */
  lemma ScratchResetOnlyOnSuccess(before: ScratchFile, existing: seq<Environment>, editNow: bool, attempts: seq<Attempt>)
    requires editNow && existing != []
    ensures ScratchAfter(before, existing, editNow, attempts) == Document([]) <==> Settle(attempts).Captured?
  {
  }

  /** Declining to edit environments stores the empty list, whatever the profile held before. */
  lemma DeclinedEditClearsEnvironments(p: Profile, creds: Credentials, attempts: seq<Attempt>)
    ensures Configured(p, creds, GetEnvironments(false, attempts)).environments == Some([])
  {
  }
}
