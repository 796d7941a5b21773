/**
 * Command dispatch of the command-line entry point (`main` in src/index.js).
 *
 * `main` looks only at `process.argv` from index 2 on: the first of those
 * words is the command, the rest are its arguments. It prints help or the
 * version and exits, or hands control to one of eight handlers. Printing and
 * `process.exit` are folded into the `Exit` outcome; the handlers themselves
 * are not part of this model.
 */
module Dispatch {
  import opened Wrappers

  /** The eight command handlers `main` can hand control to. */
  datatype Handler = Config | Login | Web | Unauth | Sesh | Crypto | Reset | Run

  /** What is written to the console before the process exits. */
  datatype Message =
    | HelpMissingCommand            // help text, then "Expected to be invoked with a command but got none"
    | HelpText                      // help text only
    | VersionText                   // the CLI version
    | HelpUnknownCommand(command: string)  // help text, then "Unknown command '<command>'"

  /** The decision `main` takes for one command line. */
  datatype Outcome =
    | Exit(code: int, message: Message)
    | Invoke(handler: Handler, args: seq<string>)

  /** The marker after which `run` takes its arguments. */
  const Separator: string := "--"

  /** The words after the interpreter and the script path: `process.argv.slice(2)`. */
  function CommandLine(argv: seq<string>): (words: seq<string>)
    ensures |argv| <= 2 ==> words == []
    ensures |argv| > 2 ==> |words| == |argv| - 2 && forall i :: 0 <= i < |words| ==> words[i] == argv[i + 2]
  {
    if |argv| <= 2 then [] else argv[2..]
  }

  /** The handler a command name selects, if any (the `case` labels that return). */
  function HandlerFor(command: string): (h: Option<Handler>)
    ensures h == Some(Config) <==> command == "config"
    ensures h == Some(Login) <==> command == "login"
    ensures h == Some(Web) <==> command == "web"
    ensures h == Some(Unauth) <==> command == "unauth"
    ensures h == Some(Sesh) <==> command == "sesh"
    ensures h == Some(Crypto) <==> command == "crypto"
    ensures h == Some(Reset) <==> command == "reset"
    ensures h == Some(Run) <==> command == "run"
  {
    match command
    case "config" => Some(Config)
    case "login" => Some(Login)
    case "web" => Some(Web)
    case "unauth" => Some(Unauth)
    case "sesh" => Some(Sesh)
    case "crypto" => Some(Crypto)
    case "reset" => Some(Reset)
    case "run" => Some(Run)
    case _ => None
  }

  /** JavaScript's `Array.prototype.indexOf` with strict equality: the first index of `x`, or -1. */
  function IndexOf(s: seq<string>, x: string): (r: int)
    ensures -1 <= r < |s|
    ensures r == -1 <==> x !in s
    ensures 0 <= r ==> s[r] == x && x !in s[..r]
  {
    if s == [] then -1
    else if s[0] == x then 0
    else
      var k := IndexOf(s[1..], x);
      var m := if k < 0 then 0 else k;
      assert s[1..][..m] == s[1..1 + m];
      if k == -1 then -1 else k + 1
  }

  /**
   * The arguments `run` receives: `args.slice(args.indexOf('--') + 1, args.length)`.
   * They are everything after the FIRST separator; without a separator,
   * `indexOf` gives -1 and every argument is passed.
   */
  function RunArgs(args: seq<string>): (r: seq<string>)
    ensures |r| <= |args| && r == args[|args| - |r|..]
    ensures Separator !in args ==> r == args
    ensures Separator in args ==>
              |r| < |args| && args[|args| - |r| - 1] == Separator && Separator !in args[..|args| - |r| - 1]
  {
    args[IndexOf(args, Separator) + 1..]
  }

  /** `main`: a total decision from the process's argument vector to an outcome. */
  function Main(argv: seq<string>): (o: Outcome)
    // no command (absent, or the empty string, which JavaScript treats as false): help and exit 1
    ensures o == Exit(1, HelpMissingCommand) <==> |argv| <= 2 || argv[2] == ""
    ensures o == Exit(0, HelpText) <==> |argv| > 2 && argv[2] == "help"
    ensures o == Exit(0, VersionText) <==> |argv| > 2 && argv[2] == "version"
    // only help and version exit successfully
    ensures o.Exit? ==> (o.code == 0 <==> o.message == HelpText || o.message == VersionText)
    ensures o.Exit? ==> (o.code == 1 <==> o.message.HelpMissingCommand? || o.message.HelpUnknownCommand?)
    ensures o.Invoke? <==> |argv| > 2 && HandlerFor(argv[2]).Some?
    ensures o.Invoke? ==> o.handler == HandlerFor(argv[2]).value
    ensures o.Invoke? && o.handler != Run ==> o.args == []
    ensures o.Invoke? && o.handler == Run ==> o.args == RunArgs(argv[3..])
    ensures o.Exit? && o.message.HelpUnknownCommand? <==>
              |argv| > 2 && argv[2] !in {"", "help", "version"} && HandlerFor(argv[2]).None?
    ensures o.Exit? && o.message.HelpUnknownCommand? ==> o.message.command == argv[2]
  {
    var words := CommandLine(argv);
    if words == [] || words[0] == "" then Exit(1, HelpMissingCommand)
    else
      var command, args := words[0], words[1..];
      if command == "help" then Exit(0, HelpText)
      else if command == "version" then Exit(0, VersionText)
      else match HandlerFor(command)
        case Some(Run) => Invoke(Run, RunArgs(args))
        case Some(h) => Invoke(h, [])
        case None => Exit(1, HelpUnknownCommand(command))
  }

  /** Only the words from index 2 on decide the outcome; the interpreter and script path do not. */
  lemma MainIgnoresLauncher(argv: seq<string>, argv': seq<string>)
    requires CommandLine(argv) == CommandLine(argv')
    ensures Main(argv) == Main(argv')
  {
  }

  /** `run` without a separator receives every argument after the command, in order. */
  lemma RunWithoutSeparator(argv: seq<string>)
    requires |argv| > 2 && argv[2] == "run" && Separator !in argv[3..]
    ensures Main(argv) == Invoke(Run, argv[3..])
  {
  }

  /** `run` with separators receives what follows the first one, later separators included. */
  lemma RunAfterFirstSeparator(argv: seq<string>, before: seq<string>, after: seq<string>)
    requires |argv| > 2 && argv[2] == "run"
    requires argv[3..] == before + [Separator] + after && Separator !in before
    ensures Main(argv) == Invoke(Run, after)
  {
    var args := argv[3..];
    var k := IndexOf(args, Separator);
    assert args[|before|] == Separator;
    assert k <= |before| by {
      assert args[..|before| + 1][|before|] == Separator;
    }
    assert forall j :: 0 <= j < |before| ==> args[j] == before[j];
    assert k == |before|;
    assert args[k + 1..] == after;
  }
}
