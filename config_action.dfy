/**
 * One pass of the `config` command (src/actions/config.js) as a state
 * transition over the in-memory configuration document.
 *
 * The document's profile list, the scratch file the user edits environments
 * in, and the saves of the encrypted store are the fields of a
 * `ConfigSession`. Every answer the user gives at a prompt and every outcome
 * of reading the scratch file back is a parameter.
 */
module ConfigAction {
  import opened Wrappers
  import opened ConfigModel

  /** Everything the user answers during one pass, in prompt order. */
  datatype Answers = Answers(
    toDelete: int,             // "Select a profile to delete": an index of DeleteEntries(profiles)
    hasConfirmed: bool,        // "Are you sure? This action is irreversible"
    profileName: string,       // "Enter the name for the new profile"
    accessKeyId: string,       // "Enter your AWS_ACCESS_KEY_ID"
    secretAccessKey: string,   // "Enter your AWS_SECRET_ACCESS_KEY"
    editNow: bool,             // "Edit / Set up AWS environment configuration?"
    attempts: seq<Attempt>)    // what each read-back of the scratch file produced

  /** How a pass of `config` ended. */
  datatype StepOutcome =
    | Exited                          // `process.exit(0)`
    | Deleted
    | DeleteCancelled
    | NameRejected(message: string)   // the name prompt shows the message and asks again
    | Created
    | Edited
    | Aborted(error: Attempt)         // an error that is not retried escaped `getEnvironments`
    | AwaitingEdit                    // the user is still correcting the scratch file

  class ConfigSession {
    /** `cliConfig.profiles`, in creation order. */
    var profiles: seq<Profile>
    /** The scratch file environments are edited in. */
    var scratch: ScratchFile
    /** Every snapshot of the profile list handed to `saveCliConfig`, oldest first. */
    ghost var saves: seq<seq<Profile>>
    /** Every document the command wrote to the scratch file, oldest first. */
    ghost var scratchWrites: seq<seq<Environment>>
    /**
     * The command is over: the process exited, an error escaped `config` (the
     * endless loop in `repeatAction` does not catch it), or the pass is still
     * blocked waiting for a valid scratch file. No further pass runs.
     */
    ghost var ended: bool

    /** The document loaded once by `loadCliConfig`, before the first pass. */
    constructor (loaded: seq<Profile>, scratchFile: ScratchFile)
      ensures profiles == loaded && scratch == scratchFile
      ensures saves == [] && scratchWrites == [] && !ended
    {
      ended := false;
      profiles := loaded;
      scratch := scratchFile;
      saves := [];
      scratchWrites := [];
    }

    /** `saveCliConfig`: persists the whole current list. Encryption and the file itself are not modelled. */
    method Save()
      modifies this`saves
      ensures saves == old(saves) + [profiles]
    {
      saves := saves + [profiles];
    }

    /** `fs.writeFileSync` of `{ environments: envs }` over the scratch file. */
    method WriteScratch(envs: seq<Environment>)
      modifies this`scratch, this`scratchWrites
      ensures scratch == Document(envs) && scratchWrites == old(scratchWrites) + [envs]
    {
      scratch := Document(envs);
      scratchWrites := scratchWrites + [envs];
    }

    /** Builds the top-level menu by pushing entries in order. */
    method BuildMenu() returns (choices: seq<MenuEntry>)
      ensures choices == Menu(profiles)
    {
      choices := [CreateEntry];
      if |profiles| > 0 {
        choices := choices + [DeleteOneEntry];
        choices := choices + ConfigureEntries(profiles);
      }
      choices := choices + [ExitEntry];
    }

    /**
     * `getEnvironments`. Declined: returns `null` and never touches the scratch
     * file. Accepted: seeds the file with the existing environments, then
     * lets the user edit it until an attempt passes; SyntaxError and
     * ValidationError send the user back to the editor, any other error
     * escapes at once. Only the successful exit resets the file to
     * `{ environments: [] }`; an escaping error skips that reset.
     */
    method GetEnvironments(existing: seq<Environment>, editNow: bool, attempts: seq<Attempt>) returns (c: Capture)
      modifies this`scratch, this`scratchWrites
      ensures c == ConfigModel.GetEnvironments(editNow, attempts)
      ensures scratch == ScratchAfter(old(scratch), existing, editNow, attempts)
      ensures scratchWrites == old(scratchWrites) + ScratchWrites(existing, editNow, attempts)
    {
      if !editNow {
        return Declined;
      }
      WriteScratch(existing);
      var result: Capture := StillEditing;
      var passing := false;
      var i := 0;
      while !passing && i < |attempts|
        invariant 0 <= i <= |attempts|
        invariant scratchWrites == old(scratchWrites) + [existing]
        invariant scratch == if i == 0 then Document(existing) else UserEdited
        invariant !passing ==> Settle(attempts) == Settle(attempts[i..])
        invariant passing ==> Settle(attempts) == result && result.Captured?
      {
        // the user edits the file and presses ENTER; the file is read back
        scratch := UserEdited;
        var attempt := attempts[i];
        assert attempts[i..][1..] == attempts[i + 1..];
        i := i + 1;
        if attempt.Passed? {
          passing := true;
          result := Captured(attempt.environments);
        } else if !Retryable(attempt) {
          return Propagated(attempt);
        }
      }
      if !passing {
        // the user has not produced a valid file yet: the loop is still running
        return StillEditing;
      }
      // cleanup for security
      WriteScratch([]);
      c := result;
    }

    /**
     * Confirmed delete: the list becomes the filtered list and is saved once.
     * Unconfirmed: nothing changes and nothing is saved.
     */
    method Delete(toDelete: int, hasConfirmed: bool) returns (o: StepOutcome)
      modifies this`profiles, this`saves
      ensures hasConfirmed ==> profiles == Without(old(profiles), toDelete) && saves == old(saves) + [profiles] && o == Deleted
      ensures !hasConfirmed ==> profiles == old(profiles) && saves == old(saves) && o == DeleteCancelled
    {
      if hasConfirmed {
        profiles := Without(profiles, toDelete);
        Save();
        return Deleted;
      }
      return DeleteCancelled;
    }

    /**
     * The part create and edit share: write the credentials into profile `k`,
     * capture its environments, store them (`[]` for a declined edit) and save
     * the whole list once. A capture that escapes or is unfinished leaves the
     * credentials written in memory and saves nothing.
     */
    method ConfigureAt(k: nat, creds: Credentials, editNow: bool, attempts: seq<Attempt>) returns (completed: bool, c: Capture)
      requires k < |profiles|
      modifies this`profiles, this`saves, this`scratch, this`scratchWrites
      ensures c == ConfigModel.GetEnvironments(editNow, attempts)
      ensures completed <==> c.Declined? || c.Captured?
      ensures profiles == old(profiles)[k := Configured(old(profiles)[k], creds, c)]
      ensures saves == if completed then old(saves) + [profiles] else old(saves)
      ensures scratch == ScratchAfter(old(scratch), ExistingEnvironments(old(profiles)[k]), editNow, attempts)
      ensures scratchWrites == old(scratchWrites) + ScratchWrites(ExistingEnvironments(old(profiles)[k]), editNow, attempts)
    {
      profiles := profiles[k := profiles[k].(awsCredentials := Some(creds))];
      c := GetEnvironments(ExistingEnvironments(profiles[k]), editNow, attempts);
      completed := c.Declined? || c.Captured?;
      if !completed {
        return;
      }
      profiles := profiles[k := profiles[k].(environments := Some(StoredEnvironments(c)))];
      Save();
    }

    /** The outcome of a create or edit whose capture ended as `c`. */
    static function Finish(c: Capture, done: StepOutcome): (o: StepOutcome)
      ensures c.Declined? || c.Captured? ==> o == done
      ensures c.Propagated? ==> o == Aborted(c.error)
      ensures c.StillEditing? ==> o == AwaitingEdit
    {
      match c
      case Propagated(e) => Aborted(e)
      case StillEditing => AwaitingEdit
      case _ => done
    }

    /**
     * Create: a name equal to an existing one is rejected by the prompt and
     * changes nothing; otherwise `{ name }` is appended and configured.
     */
    method Create(name: string, creds: Credentials, editNow: bool, attempts: seq<Attempt>) returns (o: StepOutcome)
      modifies this`profiles, this`saves, this`scratch, this`scratchWrites
      ensures ValidateName(old(profiles), name).Some? ==>
                o == NameRejected(NameTakenMessage) && profiles == old(profiles) && saves == old(saves) &&
                scratch == old(scratch) && scratchWrites == old(scratchWrites)
      ensures ValidateName(old(profiles), name).None? ==>
                var c := ConfigModel.GetEnvironments(editNow, attempts);
                && profiles == old(profiles) + [Configured(Profile(name, None, None), creds, c)]
                && o == Finish(c, Created)
                && saves == (if o == Created then old(saves) + [profiles] else old(saves))
                && scratch == ScratchAfter(old(scratch), [], editNow, attempts)
                && scratchWrites == old(scratchWrites) + ScratchWrites([], editNow, attempts)
      ensures UniqueNames(old(profiles)) ==> UniqueNames(profiles)
    {
      var rejected := ValidateName(profiles, name);
      if rejected.Some? {
        return NameRejected(rejected.value);
      }
      ghost var before := profiles;
      var pushed := Profile(name, None, None);
      profiles := profiles + [pushed];
      var completed, c := ConfigureAt(|profiles| - 1, creds, editNow, attempts);
      if UniqueNames(before) {
        AppendAcceptedKeepsUnique(before, pushed);
        UpdateKeepsUnique(before + [pushed], |before|, Configured(pushed, creds, c));
      }
      assert (before + [pushed])[|before| := Configured(pushed, creds, c)] == before + [Configured(pushed, creds, c)];
      o := Finish(c, Created);
    }

    /** Edit: the selected profile is configured in place; no other profile changes. */
    method Edit(index: nat, creds: Credentials, editNow: bool, attempts: seq<Attempt>) returns (o: StepOutcome)
      requires index < |profiles|
      modifies this`profiles, this`saves, this`scratch, this`scratchWrites
      ensures var c := ConfigModel.GetEnvironments(editNow, attempts);
              && profiles == old(profiles)[index := Configured(old(profiles)[index], creds, c)]
              && o == Finish(c, Edited)
              && saves == (if o == Edited then old(saves) + [profiles] else old(saves))
              && scratch == ScratchAfter(old(scratch), ExistingEnvironments(old(profiles)[index]), editNow, attempts)
              && scratchWrites == old(scratchWrites) + ScratchWrites(ExistingEnvironments(old(profiles)[index]), editNow, attempts)
      ensures UniqueNames(old(profiles)) ==> UniqueNames(profiles)
    {
      ghost var before := profiles;
      var completed, c := ConfigureAt(index, creds, editNow, attempts);
      if UniqueNames(before) {
        UpdateKeepsUnique(before, index, Configured(before[index], creds, c));
      }
      o := Finish(c, Edited);
    }

    /**
     * One pass of `config`: the user picks `selection` from the menu and
     * answers the prompts that follow. Exit changes nothing; every completed
     * mutation ends with exactly one save of the whole list; names stay unique.
     */
    method Step(selection: Choice, a: Answers) returns (o: StepOutcome)
      requires !ended
      requires Offered(profiles, selection)
      modifies this`profiles, this`saves, this`scratch, this`scratchWrites, this`ended
      ensures ended <==> o.Exited? || o.Aborted? || o.AwaitingEdit?
      ensures selection == ExitCli ==>
                o == Exited && profiles == old(profiles) && saves == old(saves) &&
                scratch == old(scratch) && scratchWrites == old(scratchWrites)
      ensures selection == DeleteOne ==>
                scratch == old(scratch) && scratchWrites == old(scratchWrites) &&
                if a.hasConfirmed then o == Deleted && profiles == Without(old(profiles), a.toDelete)
                else o == DeleteCancelled && profiles == old(profiles)
      ensures selection.ConfigureProfile? ==>
                var existing := ExistingEnvironments(old(profiles)[selection.index]);
                && profiles == old(profiles)[selection.index := Configured(old(profiles)[selection.index],
                     AwsConfig(a.accessKeyId, a.secretAccessKey), ConfigModel.GetEnvironments(a.editNow, a.attempts))]
                && o == Finish(ConfigModel.GetEnvironments(a.editNow, a.attempts), Edited)
                && scratch == ScratchAfter(old(scratch), existing, a.editNow, a.attempts)
                && scratchWrites == old(scratchWrites) + ScratchWrites(existing, a.editNow, a.attempts)
      ensures selection == CreateNew && ValidateName(old(profiles), a.profileName).None? ==>
                && profiles == old(profiles) + [Configured(Profile(a.profileName, None, None),
                     AwsConfig(a.accessKeyId, a.secretAccessKey), ConfigModel.GetEnvironments(a.editNow, a.attempts))]
                && o == Finish(ConfigModel.GetEnvironments(a.editNow, a.attempts), Created)
                && scratch == ScratchAfter(old(scratch), [], a.editNow, a.attempts)
                && scratchWrites == old(scratchWrites) + ScratchWrites([], a.editNow, a.attempts)
      ensures selection == CreateNew && ValidateName(old(profiles), a.profileName).Some? ==>
                o == NameRejected(NameTakenMessage) && profiles == old(profiles) &&
                scratch == old(scratch) && scratchWrites == old(scratchWrites)
      // at most one save, always of the whole list, and only when a mutation completed
      ensures saves == if o in {Deleted, Created, Edited} then old(saves) + [profiles] else old(saves)
      ensures UniqueNames(old(profiles)) ==> UniqueNames(profiles)
    {
      match selection {
      case ExitCli =>
        o := Exited;
      case DeleteOne =>
        o := Delete(a.toDelete, a.hasConfirmed);
        if UniqueNames(old(profiles)) {
          WithoutKeepsUnique(old(profiles), a.toDelete);
        }
      case CreateNew =>
        o := Create(a.profileName, AwsConfig(a.accessKeyId, a.secretAccessKey), a.editNow, a.attempts);
      case ConfigureProfile(i) =>
        o := Edit(i, AwsConfig(a.accessKeyId, a.secretAccessKey), a.editNow, a.attempts);
      }
      ended := o.Exited? || o.Aborted? || o.AwaitingEdit?;
    }

    /**
     * A whole pass as the user sees it: the menu is built, the user picks
     * entry `pick` of it, and the selected value is handled by `Step`.
     */
    method Pass(pick: nat, a: Answers) returns (selection: Choice, o: StepOutcome)
      requires !ended && pick < |Menu(profiles)|
      modifies this`profiles, this`saves, this`scratch, this`scratchWrites, this`ended
      ensures selection == Menu(old(profiles))[pick].value && Offered(old(profiles), selection)
      ensures selection == ExitCli ==>
                o == Exited && profiles == old(profiles) && saves == old(saves) &&
                scratch == old(scratch) && scratchWrites == old(scratchWrites)
      ensures selection == DeleteOne ==>
                scratch == old(scratch) && scratchWrites == old(scratchWrites) &&
                if a.hasConfirmed then o == Deleted && profiles == Without(old(profiles), a.toDelete)
                else o == DeleteCancelled && profiles == old(profiles)
      ensures selection.ConfigureProfile? ==>
                var existing := ExistingEnvironments(old(profiles)[selection.index]);
                && profiles == old(profiles)[selection.index := Configured(old(profiles)[selection.index],
                     AwsConfig(a.accessKeyId, a.secretAccessKey), ConfigModel.GetEnvironments(a.editNow, a.attempts))]
                && o == Finish(ConfigModel.GetEnvironments(a.editNow, a.attempts), Edited)
                && scratch == ScratchAfter(old(scratch), existing, a.editNow, a.attempts)
                && scratchWrites == old(scratchWrites) + ScratchWrites(existing, a.editNow, a.attempts)
      ensures selection == CreateNew && ValidateName(old(profiles), a.profileName).None? ==>
                && profiles == old(profiles) + [Configured(Profile(a.profileName, None, None),
                     AwsConfig(a.accessKeyId, a.secretAccessKey), ConfigModel.GetEnvironments(a.editNow, a.attempts))]
                && o == Finish(ConfigModel.GetEnvironments(a.editNow, a.attempts), Created)
                && scratch == ScratchAfter(old(scratch), [], a.editNow, a.attempts)
                && scratchWrites == old(scratchWrites) + ScratchWrites([], a.editNow, a.attempts)
      ensures selection == CreateNew && ValidateName(old(profiles), a.profileName).Some? ==>
                o == NameRejected(NameTakenMessage) && profiles == old(profiles) &&
                scratch == old(scratch) && scratchWrites == old(scratchWrites)
      ensures saves == if o in {Deleted, Created, Edited} then old(saves) + [profiles] else old(saves)
      ensures ended <==> o.Exited? || o.Aborted? || o.AwaitingEdit?
      ensures UniqueNames(old(profiles)) ==> UniqueNames(profiles)
    {
      var choices := BuildMenu();
      selection := choices[pick].value;
      OfferedIffInMenu(profiles, selection);
      o := Step(selection, a);
    }
  }

  /** A fresh store: create "default", decline editing environments, then try the same name again. */
  method ScenarioCreate() {
    var session := new ConfigSession([], Document([]));
    var declined := Answers(0, false, "default", "AKIA", "xyz", false, []);
    OfferedIffInMenu(session.profiles, CreateNew);
    var o := session.Step(CreateNew, declined);
    var created := Profile("default", Some(Credentials("AKIA", "xyz")), Some([]));
    assert o == Created && session.profiles == [created] && session.saves == [[created]];
    OfferedIffInMenu(session.profiles, CreateNew);
    o := session.Step(CreateNew, declined);
    assert o == NameRejected(NameTakenMessage) && session.saves == [[created]];
  }

  /** Profiles "a" and "b": an unconfirmed delete keeps both, a confirmed one of index 0 leaves "b". */
  method ScenarioDelete() {
    var a := Profile("a", None, None);
    var b := Profile("b", None, None);
    var session := new ConfigSession([a, b], Document([]));
    OfferedIffInMenu(session.profiles, DeleteOne);
    var o := session.Step(DeleteOne, Answers(0, false, "", "", "", false, []));
    assert session.profiles == [a, b] && session.saves == [];
    OfferedIffInMenu(session.profiles, DeleteOne);
    o := session.Step(DeleteOne, Answers(0, true, "", "", "", false, []));
    assert session.profiles == [b] && session.saves == [[b]];
  }

  /** Editing a profile: one syntax error, then a valid file; the scratch file ends empty. */
  method ScenarioEdit() {
    var b := Profile("b", None, None);
    var session := new ConfigSession([b], Document([]));
    var env := Environment(map["name" := "dev"]);
    var attempts := [Thrown("SyntaxError", "Unexpected token"), Passed([env])];
    SettleRetriesUntilValid([attempts[0]], [env], []);
    assert attempts == [attempts[0]] + [Passed([env])] + [];
    OfferedIffInMenu(session.profiles, ConfigureProfile(0));
    var o := session.Step(ConfigureProfile(0), Answers(0, false, "", "K", "S", true, attempts));
    assert o == Edited && session.scratch == Document([]);
    assert session.profiles == [Profile("b", Some(Credentials("K", "S")), Some([env]))];
  }

  /** An error that is not retried ends the command: nothing is saved and no further pass can run. */
  method ScenarioAbort() {
    var session := new ConfigSession([], Document([]));
    var fatal := Thrown("Error", "EACCES: permission denied");
    SettlePropagatesFatal([], fatal, []);
    assert [] + [fatal] + [] == [fatal];
    OfferedIffInMenu(session.profiles, CreateNew);
    var o := session.Step(CreateNew, Answers(0, false, "x", "K", "S", true, [fatal]));
    assert o == Aborted(fatal) && session.ended && session.saves == [];
    assert session.scratch == UserEdited;
  }

  /** Picking the second menu entry (Delete) for profiles "a" and "b" and confirming index 0 leaves "b". */
  method ScenarioPass() {
    var a := Profile("a", None, None);
    var b := Profile("b", None, None);
    var session := new ConfigSession([a, b], Document([]));
    var selection, o := session.Pass(1, Answers(0, true, "", "", "", false, []));
    assert selection == DeleteOne;
    assert session.profiles == [b] && session.saves == [[b]] && !session.ended;
  }
}
