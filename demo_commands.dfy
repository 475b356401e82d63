/**
 * The demo application's command handler: completion of a single word to one
 * of the system commands, and the dispatch of a command line. Running a
 * system command (a child process) and the "clock" command (an endless loop
 * printing the time) are outcomes here, not behaviour.
 */
module DemoCommands {
  import opened Wrappers
  import opened JavaStrings

  /** The systemCommands set {"ls", "sleep", "echo"} in the order a
      java.util.HashSet of 16 buckets iterates it (by String.hashCode:
      "sleep" in bucket 0, "ls" in 7, "echo" in 10). */
  const SYSTEM_COMMANDS: seq<string> := ["sleep", "ls", "echo"]

  /** validCommand completes cmd: it extends it and is not already it. */
  predicate Completes(validCommand: string, cmd: string) {
    StartsWith(validCommand, ToLower(cmd)) && validCommand != cmd
  }

  /** The loop over the commands: the first one, from index k on, that completes cmd. */
  function FirstCompletion(cmd: string, k: nat): (r: Option<string>)
    requires k <= |SYSTEM_COMMANDS|
    ensures r.Some? ==> exists j :: (k <= j < |SYSTEM_COMMANDS| && SYSTEM_COMMANDS[j] == r.value
      && Completes(r.value, cmd) && forall i :: k <= i < j ==> !Completes(SYSTEM_COMMANDS[i], cmd))
    ensures r.None? ==> forall i :: k <= i < |SYSTEM_COMMANDS| ==> !Completes(SYSTEM_COMMANDS[i], cmd)
    decreases |SYSTEM_COMMANDS| - k
  {
    if k == |SYSTEM_COMMANDS| then None
    else if Completes(SYSTEM_COMMANDS[k], cmd) then Some(SYSTEM_COMMANDS[k])
    else FirstCompletion(cmd, k + 1)
  }

  /** CommandHandler.suggest: a completion only for a single word, the first
      system command (in iteration order) that starts with the lower-cased
      word and differs from it. */
  function Suggest(argv: seq<string>): (r: Option<string>)
    ensures |argv| != 1 ==> r.None?
    ensures r.Some? ==>
      (r.value in SYSTEM_COMMANDS && StartsWith(r.value, ToLower(argv[0])) && r.value != ToLower(argv[0]))
    ensures |argv| == 1 && r.None? ==>
      forall v :: v in SYSTEM_COMMANDS ==> !StartsWith(v, ToLower(argv[0])) || v == ToLower(argv[0])
  {
    if |argv| != 1 then None
    else
      var cmd := ToLower(argv[0]);
      ToLowerIdempotent(argv[0]);
      FirstCompletion(cmd, 0)
  }

  /** The completion depends on the set's iteration order: an empty word is
      completed to "sleep", and "l" to "ls"; "ls" itself has no completion. */
  lemma SuggestExamples()
    ensures Suggest([""]) == Some("sleep")
    ensures Suggest(["L"]) == Some("ls")
    ensures Suggest(["ls"]) == None
  {
    assert ToLower("") == "";
    assert ToLower("L") == "l";
    assert ToLower("ls") == "ls";
    assert ToLower("l") == "l";
    assert "sleep"[..1][0] == 's' && "echo"[..2][0] == 'e';
  }

  /** What execute does with a command line. */
  datatype Execution =
    | Returned(newPs: Option<string>, err: seq<string>)
    | RunsSystemCommand(argv: seq<string>)
    | RunsClock

  /** CommandHandler.execute with the lines already printed to err. */
  function Execute(argv: seq<string>, err: seq<string>): (r: Execution)
    ensures argv == [] ==> r == Returned(None, err)
    ensures r.RunsSystemCommand? <==> argv != [] && ToLower(argv[0]) in SYSTEM_COMMANDS
    ensures r.RunsClock? <==> argv != [] && ToLower(argv[0]) !in SYSTEM_COMMANDS && argv[0] == "clock"
    ensures r.Returned? ==> r.newPs == None
    ensures r.Returned? && argv != [] ==> r.err == err + ["command not found: " + argv[0]]
  {
    if argv == [] then Returned(None, err)
    else
      var cmd := argv[0];
      if ToLower(cmd) in SYSTEM_COMMANDS then RunsSystemCommand(argv)
      else if cmd == "clock" then RunsClock
      else Returned(None, err + ["command not found: " + cmd])
  }

  /** A proposed completion, entered on its own, runs as a system command. */
  lemma SuggestionRuns(argv: seq<string>, err: seq<string>)
    requires Suggest(argv).Some?
    ensures Execute([Suggest(argv).value], err) == RunsSystemCommand([Suggest(argv).value])
  {
    var v := Suggest(argv).value;
    assert v == "sleep" || v == "ls" || v == "echo";
    assert ToLower(v) == v;
  }
}
