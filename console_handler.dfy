/**
 * The state DefaultConsoleHandler keeps across requests: the command history
 * with its browsing cursor, and the reference to the command in flight. The
 * executor, the futures and the flush timer that surround a command are not
 * part of this model; only whether a command is in flight, and whether it was
 * cancelled, is kept.
 */
module ConsoleHandler {
  import opened Wrappers
  import opened JavaStrings
  import InputParsing

  /** The runningCommand reference: null, or the future of the command in flight. */
  datatype RunningCommand = NoCommand | Running(cancelled: bool)

  class DefaultConsoleHandler {
    var history: seq<string>
    var historyIndex: int
    var runningCommand: RunningCommand

    /** The history cursor stays within [0, |history|]; |history| means "not browsing". */
    ghost predicate Valid()
      reads this
    {
      0 <= historyIndex <= |history|
    }

    constructor ()
      ensures Valid()
      ensures history == [] && historyIndex == 0 && runningCommand == NoCommand
    {
      history := [];
      historyIndex := 0;
      runningCommand := NoCommand;
    }

    method AddToHistory(input: string)
      requires Valid()
      modifies this`history, this`historyIndex
      ensures Valid()
      ensures history == old(history) + [input] && historyIndex == |history|
    {
      history := history + [input];
      historyIndex := |history|;
    }

    method ClearHistory()
      modifies this`history, this`historyIndex
      ensures Valid()
      ensures history == [] && historyIndex == 0
    {
      history := [];
      historyIndex := 0;
    }

    /** Moves the cursor forward; past the last entry it returns "" and parks at |history|. */
    method NextCommand() returns (command: string)
      requires Valid()
      modifies this`historyIndex
      ensures Valid()
      ensures old(historyIndex) + 1 >= |history| ==> command == "" && historyIndex == |history|
      ensures old(historyIndex) + 1 < |history| ==>
        historyIndex == old(historyIndex) + 1 && command == history[historyIndex]
    {
      historyIndex := historyIndex + 1;
      if historyIndex >= |history| {
        historyIndex := |history|;
        command := "";
      } else {
        command := history[historyIndex];
      }
    }

    /** Moves the cursor back; at the first entry it returns null and stays at 0. */
    method PreviousCommand() returns (command: Option<string>)
      requires Valid()
      modifies this`historyIndex
      ensures Valid()
      ensures old(historyIndex) == 0 ==> command == None && historyIndex == 0
      ensures old(historyIndex) > 0 ==>
        historyIndex == old(historyIndex) - 1 && command == Some(history[historyIndex])
    {
      historyIndex := historyIndex - 1;
      if historyIndex < 0 {
        historyIndex := 0;
        command := None;
      } else {
        command := Some(history[historyIndex]);
      }
    }

    /** The synchronous part of inputReceived: the line is trimmed and parsed,
        recorded in the history only when it has arguments, and a command is
        then in flight (even for an empty argument vector, which is still
        handed to the command handler). */
    method InputReceived(input: string) returns (argv: seq<string>)
      requires Valid()
      modifies this
      ensures Valid()
      ensures argv == InputParsing.Parse(input)
      ensures argv != [] ==> history == old(history) + [Trim(input)] && historyIndex == |history|
      ensures argv == [] ==> history == old(history) && historyIndex == old(historyIndex)
      ensures runningCommand == Running(false)
    {
      var trimmedInput := Trim(input);
      argv := InputParsing.ParseInput(trimmedInput);
      TrimIdempotent(input);
      if argv != [] {
        AddToHistory(trimmedInput);
      }
      runningCommand := Running(false);
    }

    method IsCommandRunning() returns (running: bool)
      ensures running <==> runningCommand != NoCommand
    {
      running := runningCommand != NoCommand;
    }

    /** Cancels the command in flight, if any, and says whether there was one. */
    method AbortCommand() returns (aborted: bool)
      modifies this`runningCommand
      ensures aborted <==> old(runningCommand) != NoCommand
      ensures runningCommand == if aborted then Running(true) else NoCommand
    {
      if runningCommand != NoCommand {
        runningCommand := Running(true);
        aborted := true;
      } else {
        aborted := false;
      }
    }

    /** Only the keys "Esc" and "Escape" abort the command in flight; modifiers are ignored. */
    method ControlCharReceived(key: string, modifiers: int)
      modifies this`runningCommand
      ensures key == "Esc" || key == "Escape" ==>
        runningCommand == if old(runningCommand) == NoCommand then NoCommand else Running(true)
      ensures key != "Esc" && key != "Escape" ==> runningCommand == old(runningCommand)
    {
      if key == "Esc" || key == "Escape" {
        var _ := AbortCommand();
      }
    }

    /** The end of a command, once its output is drained: the reference is
        cleared, and the result says whether "<aborted>" is printed. */
    method CommandFinished() returns (wasAborted: bool)
      requires runningCommand != NoCommand
      modifies this`runningCommand
      ensures wasAborted == old(runningCommand).cancelled
      ensures runningCommand == NoCommand
    {
      wasAborted := runningCommand.cancelled;
      runningCommand := NoCommand;
    }
  }

  /** Two commands entered, then the history browsed back and forth: previous
      twice gives y then x, next twice gives y then "" (past the end). */
  method HistoryWalk(x: string, y: string) returns (p1: Option<string>, p2: Option<string>, n1: string, n2: string)
    requires InputParsing.PlainWord(x) && InputParsing.PlainWord(y)
    ensures p1 == Some(y) && p2 == Some(x) && n1 == y && n2 == ""
  {
    var handler := new DefaultConsoleHandler();
    InputParsing.ParsePlainWord(x);
    InputParsing.ParsePlainWord(y);
    var argv := handler.InputReceived(x);
    assert handler.history == [x];
    argv := handler.InputReceived(y);
    assert handler.history == [x, y] && handler.historyIndex == 2;
    p1 := handler.PreviousCommand();
    p2 := handler.PreviousCommand();
    n1 := handler.NextCommand();
    n2 := handler.NextCommand();
  }
}
