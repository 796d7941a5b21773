# aws-auth: profile configuration and command dispatch

This project models two pieces of the aws-auth command-line tool in Dafny and proves properties about them.

- **The `config` command** (`src/actions/config.js`). Each pass shows a menu built from the ordered list of
  stored profiles. A profile has a name, AWS credentials and a list of downstream environments. The user then
  exits, deletes a profile after confirming, creates a profile under a name that is not yet taken, or
  reconfigures an existing profile. Every completed change ends with one save of the whole list.
  Environments are edited as JSON in a scratch file. The command seeds that file, lets the user retry after a
  syntax or schema error, and resets the file once a valid document is read back.
- **Command dispatch** (`src/index.js`). `main` turns the argument vector into one outcome: help, version, one
  of eight handlers, or an unknown-command exit. The `run` command receives the arguments that follow the
  first `--`. When there is no `--`, it receives all of them.

Files:

- `wrappers.dfy`: `Option`.
- `dispatch.dfy`: module `Dispatch`, the pure function `Main` and its helpers.
- `config_model.dfy`: module `ConfigModel`, the profile records and the pure steps of `config`. These are the
  menu, the delete filter, the duplicate-name lookup, the credential record and the outcome of the retry loop
  (`Settle`). It also holds the scratch-file effects as functions, plus the lemmas.
- `config_action.dfy`: module `ConfigAction`, the class `ConfigSession`. It holds the profile list and the
  scratch file as fields, and two ghost logs: the saved snapshots and the scratch-file writes. One method per
  step of a `config` pass models the code's in-place updates and its retry loop. Five client methods replay
  typical sessions using only the contracts.

User answers and the outcome of reading the scratch file back are parameters. Each outcome is an
`Attempt`: the `name` of the error thrown by `JSON.parse` or the schema validator, or the validated
environments. A run of attempts that holds no valid document and no fatal error ends as `StillEditing`. At
that point the source would still be waiting for the user.

### Behaviours of the code worth noting

- When the user declines to edit environments, `getEnvironments` returns `null` and the caller stores `[]`
  (`src/actions/config.js:164`). An existing profile's environments are therefore wiped
  (`DeclinedEditClearsEnvironments`).
- The scratch-file reset (`src/actions/config.js:84-85`) follows the loop and is not in a `finally` block. An
  error other than SyntaxError or ValidationError rethrown at line 79 skips it, and the user's edit stays in
  the file (`ScratchAfter`, `ScratchResetOnlyOnSuccess`).
- The "edit now?" question (lines 46-50) comes before any write. A declined edit never touches the scratch file.
- Delete removes an index by filtering (line 134). An index outside the list would leave the list as it was but
  still save it (`Without`). The delete prompt only offers valid indices.
- A new profile is pushed as `{ name }` alone (lines 155-156). Its credentials are written before environments
  are captured. A capture that fails leaves a profile with credentials and no environments in memory, unsaved.
  The escaping error ends the command, because `repeatAction`'s loop (lines 178-180) does not catch it.
- An empty-string command is falsy in JavaScript, so `src/index.js:60` treats it as no command.

## Model

| member | source | states |
|---|---|---|
| `Dispatch.CommandLine` | src/index.js:58 | the words considered are exactly `argv` from index 2 on, none when `argv` has at most two entries |
| `Dispatch.HandlerFor` | src/index.js:73-88 | each of config/login/web/unauth/sesh/crypto/reset/run selects its own handler, and no other word selects one |
| `Dispatch.IndexOf` | src/index.js:88 | `indexOf` gives -1 exactly when the element is absent; otherwise the index of its first occurrence |
| `Dispatch.RunArgs` | src/index.js:87-88 | `run` receives a suffix of its arguments: everything after the first `--`, or all of them when there is none |
| `Dispatch.Main` | src/index.js:57-94 | no command (absent or empty) gives help and exit 1; `help` and `version` exit 0; the eight handler names dispatch, with no args except `run`'s; anything else gives help plus "Unknown command" and exit 1; only help and version exit 0 |
| `Dispatch.MainIgnoresLauncher` | src/index.js:58 | two argument vectors that agree from index 2 on get the same outcome |
| `Dispatch.RunWithoutSeparator` | src/index.js:87-88 | `run` with no `--` passes every argument after the command |
| `Dispatch.RunAfterFirstSeparator` | src/index.js:87-88 | `run a -- b` passes exactly `b`, including any later `--` |
| `ConfigModel.AwsConfig` | src/actions/config.js:18-33 | the credential record is exactly the two answers given |
| `ConfigModel.ConfigureEntries` | src/actions/config.js:103 | one "Configure profile: name" entry per profile, valued by its index, in list order |
| `ConfigModel.DeleteEntries` | src/actions/config.js:122-127 | the delete prompt offers each profile's name valued by its plain list index, in list order |
| `ConfigModel.Menu` | src/actions/config.js:100-105 | the menu starts with Create and ends with Exit; with profiles it has Delete second and the per-profile entries after it, for the number of profiles plus 3 entries; otherwise exactly 2 |
| `ConfigModel.OfferedIffInMenu` | src/actions/config.js:100-111 | a selection is offered by the menu exactly when it is Create or Exit, Delete with a non-empty list, or an in-range profile index |
| `ConfigModel.Without` | src/actions/config.js:134 | the filter removes exactly the profile at an in-range index and keeps the others in order; an out-of-range index changes nothing |
| `ConfigModel.FindByName` | src/actions/config.js:152 | `find` finds nothing exactly when no profile has that name (case-sensitive); otherwise it finds the first profile in list order with that name |
| `ConfigModel.ValidateName` | src/actions/config.js:151-152 | the name prompt accepts a name exactly when it differs from every existing name, and otherwise shows the "already exists" message |
| `ConfigModel.AppendAcceptedKeepsUnique` | src/actions/config.js:151-156 | appending a profile whose name was accepted keeps names unique |
| `ConfigModel.WithoutKeepsUnique` | src/actions/config.js:133-135 | deleting keeps names unique |
| `ConfigModel.UpdateKeepsUnique` | src/actions/config.js:157-164 | rewriting one profile under the same name keeps names unique |
| `ConfigModel.ExistingEnvironments` | src/actions/config.js:44 | the existing environments are the stored list, or `[]` when the profile has none |
| `ConfigModel.Retryable` | src/actions/config.js:75 | only a thrown error whose name is exactly `SyntaxError` or `ValidationError` is retried; a passing attempt never is |
| `ConfigModel.Decisive` | src/actions/config.js:57-82 | the loop stops at the first attempt that is not SyntaxError or ValidationError; every attempt before it is retried |
| `ConfigModel.Settle` | src/actions/config.js:57-82 | the loop never yields "declined"; a propagated error is a non-retryable attempt from the run; captured environments come from a passing attempt |
| `ConfigModel.SettleAtDecisive` | src/actions/config.js:57-82 | the loop's outcome is decided by the first non-retried attempt: its environments if it passed, the error otherwise, still editing if there is none |
| `ConfigModel.SettleCapturedIff` | src/actions/config.js:69-73 | environments are captured exactly when an attempt passes and every earlier attempt was a SyntaxError or ValidationError |
| `ConfigModel.SettlePropagatesFatal` | src/actions/config.js:74-80 | any other error after retried ones propagates at once and is not retried |
| `ConfigModel.SettleRetriesUntilValid` | src/actions/config.js:74-78 | malformed or invalid files followed by a valid one end with the valid environments |
| `ConfigModel.GetEnvironments` | src/actions/config.js:42-88 | `getEnvironments` returns `null` exactly when editing is declined |
| `ConfigModel.StoredEnvironments` | src/actions/config.js:164 | a completed capture stores its environments; a declined edit stores `[]` |
| `ConfigModel.Configured` | src/actions/config.js:160-164 | after create or edit, the profile keeps its name and has exactly the entered credentials; its environments are replaced only when the capture completed |
| `ConfigModel.ScratchWrites` | src/actions/config.js:52-85 | a declined edit writes nothing; an accepted one first writes the existing environments, then `[]` only when the loop is left successfully |
| `ConfigModel.ScratchAfter` | src/actions/config.js:52-85 | a declined edit leaves the scratch file untouched; success leaves it empty; with no attempts it holds the seed; otherwise (a propagated error or an unfinished edit) the user's edit stays in place |
| `ConfigModel.ScratchResetOnlyOnSuccess` | src/actions/config.js:79-85 | after seeding with non-empty existing environments, the command's own reset document is in the file at the end exactly when environments were captured |
| `ConfigModel.DeclinedEditClearsEnvironments` | src/actions/config.js:163-164 | declining to edit stores `[]` whatever the profile held before |
| `ConfigAction.ConfigSession.constructor` | src/actions/config.js:175-176 | the session starts from the loaded list with no saves, no scratch writes, and the command not ended |
| `ConfigAction.ConfigSession.Save` | src/actions/config.js:166-167 | a save records a snapshot of the whole current list |
| `ConfigAction.ConfigSession.WriteScratch` | src/actions/config.js:55 | a scratch write replaces the file with `{ environments: envs }` |
| `ConfigAction.ConfigSession.BuildMenu` | src/actions/config.js:100-105 | the menu built by pushing entries equals `Menu` of the current list |
| `ConfigAction.ConfigSession.GetEnvironments` | src/actions/config.js:42-89 | the seed-and-retry loop returns the outcome of `Settle` (or `null` when declined) and leaves the scratch file and its write log as `ScratchAfter` and `ScratchWrites` say |
| `ConfigAction.ConfigSession.Delete` | src/actions/config.js:121-139 | a confirmed delete filters out the index and saves once; an unconfirmed one changes nothing and saves nothing |
| `ConfigAction.ConfigSession.ConfigureAt` | src/actions/config.js:160-167 | only the target profile changes, to `Configured`; one save of the full list exactly when the capture completed |
| `ConfigAction.ConfigSession.Create` | src/actions/config.js:145-167 | a taken name changes nothing; otherwise the new profile is appended at the end, configured, saved once on completion, and names stay unique |
| `ConfigAction.ConfigSession.Edit` | src/actions/config.js:157-167 | the selected profile is configured in place, no other profile changes, one save on completion, and names stay unique |
| `ConfigAction.ConfigSession.Pass` | src/actions/config.js:100-111 | the user picks an entry of the menu built from the current list; for that value the new profile list, outcome, scratch file and scratch-write log are exactly as for `Step`; at most one save, of the whole list; exit, an escaping error or a pending edit end the command |
| `ConfigAction.ConfigSession.Step` | src/actions/config.js:94-181 | a pass runs only while the command has not ended, on a selection the menu offers; Exit changes and saves nothing; delete, create and edit behave as above; a pass saves at most once, always the whole list, and only after a completed mutation; names stay unique; exit, an escaping error or a pending edit end the command |

## Left out

- Encrypted load and save (`ConfUtils.loadCliConfig`, `ConfUtils.saveCliConfig`): their code is not part of this model. A save is a snapshot appended to a ghost log.
- `JSON.parse` and `SchemaUtils.validate`: foreign calls. Their combined outcome on each read-back is an input `Attempt`.
- Prompts, opening the editor, the ENTER wait, file reads and writes, console output and colours: answers are parameters and the scratch file is a field. A prompt's `initial` value is the answer given when the user just presses ENTER: the old credentials on an edit (lines 23, 29) and the name "default" for a new profile (line 150). Every answer is a free parameter, so these defaults are among the answers modelled. The "Edit"/"Set up" wording is display only.
- `repeatAction`'s endless loop and `process.exit`: one pass is modelled; Exit is a terminal outcome.
- ConfigAction.ConfigSession.Step: requires a selection the menu offers (`Offered`, equal to membership in `Menu` by `OfferedIffInMenu`), because the select prompt cannot return anything else. It also requires that the command has not ended.
- ConfigAction.ConfigSession.Create: one name answer per pass; a taken name ends the pass as `NameRejected`. In the source, the prompt itself asks again.
- ConfigAction.ConfigSession.GetEnvironments: a finite run of attempts. When the run holds no passing attempt and no fatal error, the outcome is `StillEditing`, where the source would keep waiting for the user.
- Profiles are records held by value in the list. The source mutates the profile object that the list holds. Only the list refers to that object, so nothing observable differs.
- src/config.js: path and version constants only. The scratch-file path is not modelled.
- The help text and the handlers `main` dispatches to: string content and code that is not part of this model.
