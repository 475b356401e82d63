# Vaadin console add-on — a verified model of its core

This project models the core of the Vaadin console add-on (`org.vaadin8.console`) in Dafny. The add-on is a terminal-like component. The browser widget (`TextConsole`) turns key presses into actions. The server component (`Console`) completes the last word of the input on Tab. `DefaultConsoleHandler` does three things:

- it splits an input line into an argument vector;
- it keeps the command history;
- it streams a running command's output to the screen through a bounded queue of print tasks.

The modules follow the source files:

| module | file | what it models |
|---|---|---|
| `JavaStrings` | `java_strings.dfy` | The `java.lang.String` operations the core relies on: `trim`, `Character.isWhitespace`, `indexOf`, `lastIndexOf`, `startsWith`/`endsWith` and `toLowerCase`. |
| `InputParsing` | `input_parsing.dfy` | `parseInput`. It is a character-by-character lexer (`Step`, `Run`, `Finish`). `ParseInput` is the source's loop, proved equal to `Parse`. |
| `ConsoleHandler` | `console_handler.dfy` | The history cursor, the running-command flag, `inputReceived`, `abortCommand` and `controlCharReceived`. |
| `ConsoleOutput` | `console_output.dfy` | `ConsoleQueue` (at most 20 queued tasks, batches of 20) and `ConsoleWriter`. The writer cuts its buffer at `'\n'` and queues one `println` per line. |
| `ConsoleComponent` | `console_component.dfy` | `Console.handleSuggest` with its common-prefix loop, `parseCommandPrefix`, `count`, and the line-buffered print stream. |
| `CommandRegistry` | `command_registry.dfy` | `DefaultCommandProvider`, a map from names to commands. |
| `TextConsoleWidget` | `text_console.dfy` | The client widget: the key handler, modifier masks, scroll lock, tab expansion, font measurement and the click-versus-drag mouse handler. |
| `DemoCommands` | `demo_commands.dfy` | The demo application's command handler: completion among `ls`, `sleep` and `echo`, and command dispatch. |

How Java features are modelled:

- Java `null` is `Option.None`.
- A Java exception (`lastIndexOf` returning -1 and then used in `substring`, `charAt` past the end, `lastIndexOf` called on a null input at `Console.java:179`) is an explicit `thrown` or `None` result.
- 32-bit `int` arithmetic in the mouse handler is wrapped explicitly (`Wrap`).
- Bytes in the print stream are `b % 256`.

The model follows the code as written, including these behaviours that look unintended:

- **Tab completion.** The first Tab with several candidates rings the bell. Only a second Tab on the same input lists the candidates. (`FirstTabBells`, `RepeatTabLists`, `FirstTabBellsRepeatLists`).
- **Common-prefix loop.** It does not stop at the first column where the candidates disagree. It skips that column and keeps collecting later columns on which they agree. `CommonPrefix("a", ["abc", "axc"])` is `"ac"` (`CommonPrefixSkipsMismatch`).
- **`ConsoleWriter.flush()`.** It drops a buffered fragment that has no line break in it (`FlushDropsFragment`). `close()` prints that fragment as a line of its own.
- **Escapes.** An escape outside quotes adds a character to the buffer but does not start a token. So `\a` on its own parses to no arguments, while `\a b` parses to `ab` (`EscapeDoesNotOpenToken`).
- **Trailing backslash.** A backslash that ends the line is kept only when a word is open: `w\` parses to `w\` (`TrailingBackslash`). After whitespace it is dropped, so `w \` parses to `w` and a lone `\` to no arguments (`TrailingBackslashDropped`).
- **Flushing the queue.** `ConsoleQueue.flushQueue` polls an item before it checks the batch count. When more than 20 items are queued, the 21st is taken off the queue and never run (`BatchLosesOne`). When no task is queued during the flush, a queue of at most 20 drains completely (`BoundedQueueDrains`, `ConsoleQueue.Flush`). In the program, the worker thread blocked in `put` refills the queue during the flush, so the loss can occur.

## Model

| member | source | states |
|---|---|---|
| JavaStrings.TrimStart | console/src/main/java/org/vaadin8/console/DefaultConsoleHandler.java:51 | the leading part of `trim`: the result is a suffix of the input, everything removed is `<= ' '`, and the first kept character is not |
| JavaStrings.TrimEnd | console/src/main/java/org/vaadin8/console/DefaultConsoleHandler.java:51 | the trailing part of `trim`: the result is a prefix, everything removed is `<= ' '`, and the last kept character is not |
| JavaStrings.Trim | console/src/main/java/org/vaadin8/console/DefaultConsoleHandler.java:51 | `trim` leaves no control or space character at either end, maps an all-blank string to `""`, and keeps an already trimmed string unchanged |
| JavaStrings.TrimIdempotent | console/src/main/java/org/vaadin8/console/DefaultConsoleHandler.java:131-132 | trimming twice, as `inputReceived` and then `parseInput` do, gives the same result as trimming once |
| JavaStrings.TrimChars | console/src/main/java/org/vaadin8/console/DefaultConsoleHandler.java:51 | every character of the trimmed string comes from the input, so any property all input characters have is kept |
| JavaStrings.TrimAround | console/src/main/java/org/vaadin8/console/DefaultConsoleHandler.java:51 | trimming padding around a body that starts and ends with a visible character keeps the body and trims only the padding |
| JavaStrings.IndexOf | console/src/main/java/org/vaadin8/console/DefaultConsoleHandler.java:381 | `indexOf(c, from)` returns the first position at or after `from` holding `c`, or -1 exactly when there is none |
| JavaStrings.LastIndexOf | console/src/main/java/org/vaadin8/console/Console.java:179 | `lastIndexOf(t)` is the last position where `t` occurs, and -1 exactly when `t` occurs nowhere |
| JavaStrings.LastIndexOfSuffix | console/src/main/java/org/vaadin8/console/Console.java:179 | when the input ends with the prefix, `lastIndexOf` finds it at the very end |
| JavaStrings.ToLower | console-demo/src/main/java/org/vaadin8/console/demo/DemoUI.java:74 | `toLowerCase` keeps the length and lowers each ASCII capital |
| JavaStrings.ToLowerIdempotent | console-demo/src/main/java/org/vaadin8/console/demo/DemoUI.java:74-76 | lowering twice (line 76 lowers `cmd` again) is the same as lowering once |
| InputParsing.ParseInput | console/src/main/java/org/vaadin8/console/DefaultConsoleHandler.java:39-128 | the loop over the trimmed characters and its final escape/inArg handling compute exactly `Parse(input)` |
| InputParsing.Consume | console/src/main/java/org/vaadin8/console/DefaultConsoleHandler.java:52-116 | one loop iteration updates result, buffer, inArg, quote and escape exactly as one lexer `Step` |
| InputParsing.RunAppend | console/src/main/java/org/vaadin8/console/DefaultConsoleHandler.java:51-117 | lexing `a + b` is lexing `a` and then continuing with `b` from the state reached |
| InputParsing.RunIdleWhitespace | console/src/main/java/org/vaadin8/console/DefaultConsoleHandler.java:105-110 | whitespace outside quotes and outside a word changes nothing |
| InputParsing.RunInWordWhitespace | console/src/main/java/org/vaadin8/console/DefaultConsoleHandler.java:105-110 | whitespace after a word ends the word and adds it to the result |
| InputParsing.ParseBlank | console/src/main/java/org/vaadin8/console/DefaultConsoleHandler.java:51-127 | a blank line parses to no arguments |
| InputParsing.RunPlain | console/src/main/java/org/vaadin8/console/DefaultConsoleHandler.java:111-116 | plain characters outside quotes are appended to the buffer and open a word |
| InputParsing.RunJoined | console/src/main/java/org/vaadin8/console/DefaultConsoleHandler.java:103-116 | words separated by whitespace are collected one by one, leaving the last word open |
| InputParsing.ParseWords | console/src/main/java/org/vaadin8/console/DefaultConsoleHandler.java:39-128 | a line of plain words separated by whitespace, with any padding, parses back to exactly those words |
| InputParsing.ParsePlainWord | console/src/main/java/org/vaadin8/console/DefaultConsoleHandler.java:111-125 | a single plain word parses to itself |
| InputParsing.RunQuoted | console/src/main/java/org/vaadin8/console/DefaultConsoleHandler.java:103-104 | inside quotes every character other than the closing quote (and, in weak quotes, the backslash) is copied literally |
| InputParsing.QuotedRun | console/src/main/java/org/vaadin8/console/DefaultConsoleHandler.java:89-104 | a quoted section becomes one argument, joined to any pending text, and ends the word |
| InputParsing.ParseStrongQuoted | console/src/main/java/org/vaadin8/console/DefaultConsoleHandler.java:84-104 | `'b'` parses to `[b]`, and a backslash inside single quotes is literal |
| InputParsing.ParseUnterminated | console/src/main/java/org/vaadin8/console/DefaultConsoleHandler.java:84-125 | an unterminated single or double quote still yields its text as the last argument |
| InputParsing.WeakQuoteEscape | console/src/main/java/org/vaadin8/console/DefaultConsoleHandler.java:53-63 | in double quotes `\"` and `\\` give the character, and any other escape keeps its backslash |
| InputParsing.UnquotedEscape | console/src/main/java/org/vaadin8/console/DefaultConsoleHandler.java:64-78 | outside double quotes `\t`, `\r` and `\n` give control characters, and any other escaped character stands for itself |
| InputParsing.StrongQuoteBackslash | console/src/main/java/org/vaadin8/console/DefaultConsoleHandler.java:84 | a backslash in single quotes is not an escape |
| InputParsing.TrailingBackslash | console/src/main/java/org/vaadin8/console/DefaultConsoleHandler.java:84-125 | a backslash ending a plain word is kept: `w\` parses to the single argument `w\` |
| InputParsing.TrailingBackslashDropped | console/src/main/java/org/vaadin8/console/DefaultConsoleHandler.java:84-125 | a backslash after whitespace at the end of the line is dropped: `w \` parses to `w` and a lone `\` to no arguments |
| InputParsing.RunEscaped | console/src/main/java/org/vaadin8/console/DefaultConsoleHandler.java:53-63 | escaping `"` and `\` inside double quotes reproduces any text exactly |
| InputParsing.RunQuoteAll | console/src/main/java/org/vaadin8/console/DefaultConsoleHandler.java:39-117 | a line of double-quoted, escaped, space-separated arguments lexes to exactly those arguments |
| InputParsing.ParseQuoteAll | console/src/main/java/org/vaadin8/console/DefaultConsoleHandler.java:39-128 | round trip: quoting any argument list and parsing it gives the list back |
| InputParsing.EscapeDoesNotOpenToken | console/src/main/java/org/vaadin8/console/DefaultConsoleHandler.java:52-125 | an escape outside quotes does not open a word: `\a` parses to nothing and `\a b` to `ab` |
| ConsoleHandler.DefaultConsoleHandler.constructor | console/src/main/java/org/vaadin8/console/DefaultConsoleHandler.java:33-37 | a new handler has an empty history, cursor 0 and no running command |
| ConsoleHandler.DefaultConsoleHandler.AddToHistory | console/src/main/java/org/vaadin8/console/DefaultConsoleHandler.java:237-240 | the input is appended and the cursor moves past the end |
| ConsoleHandler.DefaultConsoleHandler.ClearHistory | console/src/main/java/org/vaadin8/console/DefaultConsoleHandler.java:243-246 | the history is emptied and the cursor reset to 0 |
| ConsoleHandler.DefaultConsoleHandler.NextCommand | console/src/main/java/org/vaadin8/console/DefaultConsoleHandler.java:249-257 | the cursor moves forward and returns that entry, or stops past the end and returns `""` |
| ConsoleHandler.DefaultConsoleHandler.PreviousCommand | console/src/main/java/org/vaadin8/console/DefaultConsoleHandler.java:260-268 | the cursor moves back and returns that entry, or stays at 0 and returns null |
| ConsoleHandler.DefaultConsoleHandler.InputReceived | console/src/main/java/org/vaadin8/console/DefaultConsoleHandler.java:130-184 | the argument vector is the parse of the input, and the trimmed line enters the history exactly when that vector is non-empty. A command is then marked running, not cancelled |
| ConsoleHandler.DefaultConsoleHandler.IsCommandRunning | console/src/main/java/org/vaadin8/console/DefaultConsoleHandler.java:223-225 | true exactly when a command future is set |
| ConsoleHandler.DefaultConsoleHandler.AbortCommand | console/src/main/java/org/vaadin8/console/DefaultConsoleHandler.java:227-235 | returns true and cancels exactly when a command is running |
| ConsoleHandler.DefaultConsoleHandler.ControlCharReceived | console/src/main/java/org/vaadin8/console/DefaultConsoleHandler.java:214-221 | `Esc` and `Escape` abort the running command, and every other key changes nothing |
| ConsoleHandler.DefaultConsoleHandler.CommandFinished | console/src/main/java/org/vaadin8/console/DefaultConsoleHandler.java:185-203 | completion reports whether the command was cancelled and clears the running command |
| ConsoleHandler.HistoryWalk | console/src/main/java/org/vaadin8/console/DefaultConsoleHandler.java:237-268 | after entering x then y, previous gives y then x, and next gives y then `""` |
| ConsoleOutput.RenderAppend | console/src/main/java/org/vaadin8/console/DefaultConsoleHandler.java:342-349 | running two task lists one after the other shows the concatenation of their outputs |
| ConsoleOutput.BatchLosesOne | console/src/main/java/org/vaadin8/console/DefaultConsoleHandler.java:345 | with more than 20 tasks queued, one flush runs the first 20, loses the 21st and keeps the rest |
| ConsoleOutput.BoundedQueueDrains | console/src/main/java/org/vaadin8/console/DefaultConsoleHandler.java:295-349 | a snapshot of at most 20 queued tasks, with nothing queued during the flush, is run completely in order by one flush and none is lost |
| ConsoleOutput.ConsoleQueue.constructor | console/src/main/java/org/vaadin8/console/DefaultConsoleHandler.java:302-305 | a new queue is empty |
| ConsoleOutput.ConsoleQueue.Queue | console/src/main/java/org/vaadin8/console/DefaultConsoleHandler.java:307-313 | a task is appended at the tail of a queue with room |
| ConsoleOutput.ConsoleQueue.Flush | console/src/main/java/org/vaadin8/console/DefaultConsoleHandler.java:315-321 | an empty queue does nothing; otherwise one batch is run and the leftover kept. The queue stays within 20 tasks, and with nothing queued meanwhile it is drained completely in order |
| ConsoleOutput.ConsoleQueue.FlushQueue | console/src/main/java/org/vaadin8/console/DefaultConsoleHandler.java:342-349 | runs `Batch` of the queue in order and leaves `Leftover` |
| ConsoleOutput.SplitLinesNoBreaks | console/src/main/java/org/vaadin8/console/DefaultConsoleHandler.java:380-385 | the lines cut from the buffer and the remainder contain no line break |
| ConsoleOutput.SplitLinesJoin | console/src/main/java/org/vaadin8/console/DefaultConsoleHandler.java:378-399 | the lines, each followed by `"\n"`, and then the remainder rebuild the buffer exactly |
| ConsoleOutput.JoinLinesSplit | console/src/main/java/org/vaadin8/console/DefaultConsoleHandler.java:378-399 | inverse: cutting break-free lines joined by `"\n"` gives the same lines and remainder back |
| ConsoleOutput.RenderPrintlns | console/src/main/java/org/vaadin8/console/DefaultConsoleHandler.java:404-406 | one `println` per line shows the lines joined by line breaks |
| ConsoleOutput.FlushDropsFragment | console/src/main/java/org/vaadin8/console/DefaultConsoleHandler.java:387-410 | `flush()` on a buffer with no line break queues nothing, and the buffer is still cleared |
| ConsoleOutput.FlushKeepsText | console/src/main/java/org/vaadin8/console/DefaultConsoleHandler.java:369-411 | once the buffer holds a line break, `flush()` queues tasks that show exactly the buffer |
| ConsoleOutput.CloseActions | console/src/main/java/org/vaadin8/console/DefaultConsoleHandler.java:373-416 | `close()` queues one `println` per line, the remainder included |
| ConsoleOutput.CloseKeepsText | console/src/main/java/org/vaadin8/console/DefaultConsoleHandler.java:373-416 | `close()` shows the whole buffer, followed by a line break if it did not end with one |
| ConsoleOutput.ConsoleWriter.constructor | console/src/main/java/org/vaadin8/console/DefaultConsoleHandler.java:357-361 | the writer keeps its queue and style, and starts with an empty buffer |
| ConsoleOutput.ConsoleWriter.Write | console/src/main/java/org/vaadin8/console/DefaultConsoleHandler.java:364-366 | the chosen slice of the array is appended to the buffer |
| ConsoleOutput.ConsoleWriter.FlushBuffer | console/src/main/java/org/vaadin8/console/DefaultConsoleHandler.java:373-411 | the buffer is cleared and exactly `FlushActions` of it is appended to the queue |
| ConsoleOutput.ConsoleWriter.EnqueueLines | console/src/main/java/org/vaadin8/console/DefaultConsoleHandler.java:403-410 | one `println` per line in order, then the tail as a `print` if there is one |
| ConsoleOutput.ConsoleWriter.Flush | console/src/main/java/org/vaadin8/console/DefaultConsoleHandler.java:369-371 | `flush()` is `flush(false)` |
| ConsoleOutput.ConsoleWriter.Close | console/src/main/java/org/vaadin8/console/DefaultConsoleHandler.java:414-416 | `close()` is `flush(true)` |
| ConsoleOutput.CutLines | console/src/main/java/org/vaadin8/console/DefaultConsoleHandler.java:378-389 | the `indexOf` loop computes exactly `SplitLines`: the lines and the start of the remainder |
| ConsoleOutput.WriteCloseDrain | console/src/main/java/org/vaadin8/console/DefaultConsoleHandler.java:342-416 | text written to a writer, closed and drained is shown exactly, with a final line break added when missing |
| ConsoleComponent.ParseCommandPrefix | console/src/main/java/org/vaadin8/console/Console.java:241-252 | null maps to null and only null does; an input ending in a space gives `""` |
| ConsoleComponent.PrefixOfWords | console/src/main/java/org/vaadin8/console/Console.java:241-252 | for a line of plain words the prefix is its last word |
| ConsoleComponent.PrefixOfQuoted | console/src/main/java/org/vaadin8/console/Console.java:241-252 | for a line of quoted arguments the prefix is the last argument, unquoted |
| ConsoleComponent.Count | console/src/main/java/org/vaadin8/console/Console.java:254-266 | -1 for null, else the number of occurrences of the character |
| ConsoleComponent.ScanFrom | console/src/main/java/org/vaadin8/console/Console.java:190-204 | once a column character is chosen, the inner loop reports whether every candidate has it in that column |
| ConsoleComponent.ColumnAgreement | console/src/main/java/org/vaadin8/console/Console.java:190-204 | the inner loop takes the first candidate's character and checks all the others agree |
| ConsoleComponent.ExtendPrefixAgreed | console/src/main/java/org/vaadin8/console/Console.java:189-208 | the outer loop appends exactly the agreed columns from its start up to the first candidate's length |
| ConsoleComponent.CommonPrefixIsAgreedColumns | console/src/main/java/org/vaadin8/console/Console.java:186-208 | the common prefix is the typed prefix followed by every later column on which all candidates agree |
| ConsoleComponent.CommonPrefixExtends | console/src/main/java/org/vaadin8/console/Console.java:186-208 | the result starts with the typed prefix and is no longer than the first candidate |
| ConsoleComponent.CommonPrefixSkipsMismatch | console/src/main/java/org/vaadin8/console/Console.java:189-207 | the loop skips a disagreeing column instead of stopping |
| ConsoleComponent.CommonPrefixNulThrows | console/src/main/java/org/vaadin8/console/Console.java:193-194 | a NUL in the first candidate makes the next candidate's `charAt` throw |
| ConsoleComponent.BuildCommonPrefix | console/src/main/java/org/vaadin8/console/Console.java:186-208 | the nested loops compute `CommonPrefix`, or report the exception |
| ConsoleComponent.ListSuggestions | console/src/main/java/org/vaadin8/console/Console.java:211-214 | the loop builds `"\n"` followed by `" " + m` for each candidate |
| ConsoleComponent.CandidatesJoined | console/src/main/java/org/vaadin8/console/Console.java:211-214 | the listing is a line break, a space and then the candidates separated by single spaces |
| ConsoleComponent.CandidatesParse | console/src/main/java/org/vaadin8/console/Console.java:211-214 | parsing the listing of plain candidates gives the candidates back |
| ConsoleComponent.NoMatchesBell | console/src/main/java/org/vaadin8/console/Console.java:167-175 | no matches: only a bell, with the input remembered |
| ConsoleComponent.SingleMatchCompletes | console/src/main/java/org/vaadin8/console/Console.java:178-222 | one match replaces the prefix at the end of the line with the match and a space |
| ConsoleComponent.SingleMatchReplacesLastWord | console/src/main/java/org/vaadin8/console/Console.java:178-222 | for a line of plain words the single match replaces the last word |
| ConsoleComponent.SuggestMany | console/src/main/java/org/vaadin8/console/Console.java:165-224 | several matches list the candidates only when nothing was added and the same input was seen before; otherwise they ring the bell and remember the new output |
| ConsoleComponent.NarrowingBells | console/src/main/java/org/vaadin8/console/Console.java:209-219 | when the common prefix adds characters the line is extended and the bell rings |
| ConsoleComponent.FirstTabBells | console/src/main/java/org/vaadin8/console/Console.java:167-219 | the first Tab on a new input with nothing to add only rings the bell |
| ConsoleComponent.RepeatTabLists | console/src/main/java/org/vaadin8/console/Console.java:167-215 | a repeated Tab on the same input prints the candidates |
| ConsoleComponent.FirstTabBellsRepeatLists | console/src/main/java/org/vaadin8/console/Console.java:165-224 | bell first, list second: the state the first Tab leaves makes the second Tab list |
| ConsoleComponent.Console.constructor | console/src/main/java/org/vaadin8/console/Console.java:47-53 | no input has been seen, and the only client call made is `reset()` |
| ConsoleComponent.Console.HandleSuggest | console/src/main/java/org/vaadin8/console/Console.java:165-224 | the remembered input, the client calls made and any exception are exactly those of `Suggest` |
| ConsoleComponent.ConsoleOutputStream.constructor | console/src/main/java/org/vaadin8/console/Console.java:482-484 | the stream starts with an empty buffer and nothing printed |
| ConsoleComponent.ConsoleOutputStream.Write | console/src/main/java/org/vaadin8/console/Console.java:487-494 | the low byte is buffered; byte 13 flushes the buffer, itself included, as one print |
| ConsoleComponent.ConsoleOutputStream.Flush | console/src/main/java/org/vaadin8/console/Console.java:496-502 | the buffer is printed as one chunk, even if empty, and reset |
| CommandRegistry.DefaultCommandProvider.constructor | console/src/main/java/org/vaadin8/console/DefaultCommandProvider.java:9 | no commands |
| CommandRegistry.DefaultCommandProvider.AddCommand | console/src/main/java/org/vaadin8/console/DefaultCommandProvider.java:17-19 | the name is bound to the command, replacing any earlier binding |
| CommandRegistry.DefaultCommandProvider.RemoveCommand | console/src/main/java/org/vaadin8/console/DefaultCommandProvider.java:28-30 | the name is unbound and nothing else changes |
| CommandRegistry.DefaultCommandProvider.GetAvailableCommands | console/src/main/java/org/vaadin8/console/DefaultCommandProvider.java:33-35 | exactly the bound names |
| CommandRegistry.DefaultCommandProvider.GetCommand | console/src/main/java/org/vaadin8/console/DefaultCommandProvider.java:38-40 | the bound command, or null exactly when the name is unbound |
| CommandRegistry.ReplaceThenRemove | console/src/main/java/org/vaadin8/console/DefaultCommandProvider.java:17-40 | adding twice keeps the second command, and removing unbinds only that name |
| TextConsoleWidget.Wrap | console/src/main/java/org/vaadin8/console/client/TextConsole.java:584-587 | 32-bit wrap-around: exact in range, and congruent modulo 2^32 always |
| TextConsoleWidget.ModifierMask | console/src/main/java/org/vaadin8/console/client/TextConsole.java:677-681 | the mask lies in 0..15 and has each modifier's bit exactly when that modifier is held |
| TextConsoleWidget.ModifierMaskInjective | console/src/main/java/org/vaadin8/console/client/TextConsoleHandler.java:4-7 | the four modifier bits are distinct, so the mask determines the modifiers |
| TextConsoleWidget.SpecialKeysApart | console/src/main/java/org/vaadin8/console/client/TextConsole.java:602-604 | no special key is a control shortcut or one of the named keys handled before the default case |
| TextConsoleWidget.BellKeys | console/src/main/java/org/vaadin8/console/client/TextConsole.java:627-671 | the bell rings exactly for Ctrl+h, Ctrl+? or Ctrl+g, or Backspace on an empty input |
| TextConsoleWidget.SubmitKeys | console/src/main/java/org/vaadin8/console/client/TextConsole.java:632-653 | the input is submitted exactly on Enter, Ctrl+m, Ctrl+j or Ctrl+k |
| TextConsoleWidget.HistoryKeys | console/src/main/java/org/vaadin8/console/client/TextConsole.java:654-663 | Up/ArrowUp and only they go back in history, and Down/ArrowDown and only they go forward |
| TextConsoleWidget.ControlCharKeys | console/src/main/java/org/vaadin8/console/client/TextConsole.java:643-682 | a control character is sent exactly for Ctrl+[ (as Escape, no modifiers) or a special key (with its modifier mask) |
| TextConsoleWidget.CtrlFallsThrough | console/src/main/java/org/vaadin8/console/client/TextConsole.java:617-649 | with Ctrl held, a key that is not a shortcut behaves as without Ctrl |
| TextConsoleWidget.IsSameClass | console/src/main/java/org/vaadin8/console/client/TextConsole.java:360-368 | null counts as the empty class name, and otherwise names are compared for equality |
| TextConsoleWidget.IsSameClassSymmetric | console/src/main/java/org/vaadin8/console/client/TextConsole.java:360-368 | the comparison does not depend on argument order |
| TextConsoleWidget.FontDimension | console/src/main/java/org/vaadin8/console/client/TextConsole.java:202-213 | the client size if in 1..100, else the offset size if in range, else 1 |
| TextConsoleWidget.ExpandTabs | console/src/main/java/org/vaadin8/console/client/TextConsole.java:342 | no tab remains, and each tab adds three characters |
| TextConsoleWidget.ExpandTabsNoTabs | console/src/main/java/org/vaadin8/console/client/TextConsole.java:342 | text without tabs is printed unchanged |
| TextConsoleWidget.TextConsole.constructor | console/src/main/java/org/vaadin8/console/client/TextConsole.java:33-98 | empty input, no scroll lock, scrolled to end, buffer size 0, measured font size |
| TextConsoleWidget.TextConsole.SetInput | console/src/main/java/org/vaadin8/console/client/TextConsole.java:128-134 | the given text, or `""` for null |
| TextConsoleWidget.TextConsole.Tab | console/src/main/java/org/vaadin8/console/client/TextConsole.java:136-138 | a tab character is appended to the input |
| TextConsoleWidget.TextConsole.SetScrollLock | console/src/main/java/org/vaadin8/console/client/TextConsole.java:514-517 | the flag is stored |
| TextConsoleWidget.TextConsole.SetMaxBufferSize | console/src/main/java/org/vaadin8/console/client/TextConsole.java:436-439 | a positive size is stored; anything else becomes 0 |
| TextConsoleWidget.TextConsole.UpdateFontDimensions | console/src/main/java/org/vaadin8/console/client/TextConsole.java:194-217 | both dimensions end in 1..100, chosen by `FontDimension` |
| TextConsoleWidget.TextConsole.ScrollToEnd | console/src/main/java/org/vaadin8/console/client/TextConsole.java:315-322 | scrolls unless scroll lock is on and the view was not at the end, and clears the checked flag |
| TextConsoleWidget.TextConsole.BeforeChangeTerminal | console/src/main/java/org/vaadin8/console/client/TextConsole.java:324-329 | the at-end state is sampled once, and only while unchecked |
| TextConsoleWidget.TextConsole.PrintWithClass | console/src/main/java/org/vaadin8/console/client/TextConsole.java:335-358 | null prints nothing and changes nothing; otherwise the tab-expanded text is appended and the scroll rule applies |
| TextConsoleWidget.TextConsole.NewLine | console/src/main/java/org/vaadin8/console/client/TextConsole.java:288-294 | samples the scroll state, then applies the scroll rule |
| TextConsoleWidget.TextConsole.KeyDown | console/src/main/java/org/vaadin8/console/client/TextConsole.java:606-685 | the reaction is `OnKeyDown` on the current input, and only Ctrl+i changes the input (a tab appended) |
| TextConsoleWidget.PrintTwiceWithScrollLock | console/src/main/java/org/vaadin8/console/client/TextConsole.java:315-358 | with scroll lock, two prints follow the at-end state sampled before each print |
| TextConsoleWidget.DistSquaredExact | console/src/main/java/org/vaadin8/console/client/TextConsole.java:584-588 | for moves under 32768 pixels per axis the 32-bit squared distance is exact |
| TextConsoleWidget.DistSquaredWraps | console/src/main/java/org/vaadin8/console/client/TextConsole.java:584-588 | a 65536-pixel move wraps to squared distance 0 |
| TextConsoleWidget.MouseClickHandler.constructor | console/src/main/java/org/vaadin8/console/client/TextConsole.java:538-543 | left button, threshold 9, not pressed |
| TextConsoleWidget.MouseClickHandler.OnClick | console/src/main/java/org/vaadin8/console/client/TextConsole.java:545-555 | a click is passed on exactly for the left button when not marked as a drag |
| TextConsoleWidget.MouseClickHandler.OnMouseDown | console/src/main/java/org/vaadin8/console/client/TextConsole.java:558-567 | a left press records the position and clears the drag mark; other buttons change nothing |
| TextConsoleWidget.MouseClickHandler.OnMouseUp | console/src/main/java/org/vaadin8/console/client/TextConsole.java:570-576 | a left release ends the press |
| TextConsoleWidget.MouseClickHandler.OnMouseMove | console/src/main/java/org/vaadin8/console/client/TextConsole.java:579-592 | while pressed, moving more than 3 pixels (squared distance above 9) marks a drag |
| TextConsoleWidget.MouseClickHandler.OnMouseOut | console/src/main/java/org/vaadin8/console/client/TextConsole.java:595-599 | leaving while pressed marks a drag |
| TextConsoleWidget.DragSuppressesClick | console/src/main/java/org/vaadin8/console/client/TextConsole.java:545-592 | press, move further than 3 pixels and release: the click is not passed on |
| TextConsoleWidget.JitterKeepsClick | console/src/main/java/org/vaadin8/console/client/TextConsole.java:545-592 | press, move at most 3 pixels and release: the click is passed on |
| DemoCommands.FirstCompletion | console-demo/src/main/java/org/vaadin8/console/demo/DemoUI.java:75-80 | the first system command, in iteration order, that completes the word, or none exactly when none does |
| DemoCommands.Suggest | console-demo/src/main/java/org/vaadin8/console/demo/DemoUI.java:69-81 | no suggestion unless there is exactly one argument; a suggestion is a system command that extends the lowered word |
| DemoCommands.SuggestExamples | console-demo/src/main/java/org/vaadin8/console/demo/DemoUI.java:66-81 | `""` completes to `sleep` (first in hash order), `L` to `ls`, and `ls` to nothing |
| DemoCommands.Execute | console-demo/src/main/java/org/vaadin8/console/demo/DemoUI.java:84-101 | no arguments do nothing; a system command runs case-insensitively; `clock` runs the clock; anything else reports `command not found` |
| DemoCommands.SuggestionRuns | console-demo/src/main/java/org/vaadin8/console/demo/DemoUI.java:68-101 | every suggested command is one that `execute` runs |

## Left out

- The executor, the `CompletableFuture` wiring, the 250 ms flush timer and thread interruption in `inputReceived` (`DefaultConsoleHandler.java:138-210`): concurrency and clocks. The model keeps only their effect on the running-command flag, in `InputReceived`, `AbortCommand` and `CommandFinished`.
- ConsoleHandler.DefaultConsoleHandler.AbortCommand: leaves the command marked running until a separate `CommandFinished`. In the program `future.cancel(true)` (`DefaultConsoleHandler.java:230`) runs the `whenComplete` callback (`185-194`) synchronously, and when the caller holds the session lock, as the Escape RPC does, `ConsoleQueue.run` runs it at once (`328-329`), so the running command is already cleared when `abortCommand` returns. The model keeps the two steps apart because whether the lock is held is not part of its state; an abort from the Escape key corresponds to `AbortCommand` followed by `CommandFinished`.
- `ConsoleQueue.run` (session locking and push, `DefaultConsoleHandler.java:323-340`): Vaadin session machinery. A flush is modelled as running its batch at once.
- ConsoleOutput.ConsoleQueue.Flush: a writer that queues tasks while a flush runs is not modelled. In the program the worker thread blocked in `put` (`DefaultConsoleHandler.java:309`) refills the queue while the timer-driven flush (`DefaultConsoleHandler.java:152-153`, `315-321`) polls it, so the 21st poll at line 345 can take a task and drop it even though the queue never holds more than 20. The model's drain guarantee holds only when nothing is queued during the flush.
- ConsoleOutput.ConsoleQueue.Queue: `put` blocks when the queue is full. The model requires room instead of modelling the wait or the `InterruptedIOException`.
- `DefaultConsoleHandler.suggest` (`DefaultConsoleHandler.java:271-292`): an asynchronous wrapper around the command handler's `suggest`. The demo's `suggest` is modelled in `DemoCommands.Suggest`.
- `executeSystemCommand` and the `clock` loop in the demo: process execution and wall-clock output. `Execute` says only which branch is taken.
- ConsoleComponent.Console.HandleSuggest: `getSuggestions` is an input (`matches`), and the iteration order of the match set is the order of the given sequence. The model does not require that sequence to be free of duplicates, although a Java `Set` has none.
- The RPC and shared-state wrappers of `Console` (prompt, print, `setPs`, sizes, focus): outgoing calls are recorded as `ClientCall` values, and other state is not modelled.
- `Console.print` with ANSI-to-CSS conversion switched on (`Console.java:268-275`): that branch sends an empty print and then styled fragments. The model records `Print(text)` as the plain branch does, which is the default (`isConvertANSIToCSS` starts false, `Console.java:69`).
- The GWT/DOM side of `TextConsole`: element creation, HTML escaping of the prompt, `checkBufferLimit`, `clearBuffer`, `resized`, `setWrap`, cursor positioning for Ctrl+a and Ctrl+e, and column and row computation. The DOM is not modelled. Scroll positions are method parameters.
- TextConsoleWidget.TextConsole.PrintWithClass: reusing the current span when its class matches is not modelled (`IsSameClass` is modelled on its own). The model returns the appended text instead of updating a DOM buffer.
- TextConsoleWidget.TextConsole.SetMaxBufferSize: the `checkBufferLimit` call that follows is not modelled.
- ConsoleComponent.ConsoleOutputStream.Flush: the `PrintStream` wrapper with autoflush and the platform charset decoding in `buffer.toString()` are not modelled. A print is the raw byte chunk.
- Characters are Dafny `char` values, not UTF-16 code units. `Character.isWhitespace` is modelled for the code points it lists.
- JavaStrings.ToLower: lowers only the ASCII capitals `A`-`Z`. Java's `toLowerCase` also lowers other Unicode capitals, for example U+212A KELVIN SIGN to `k`, so in the program `execute(["CLOC\u212A"])` runs `clock` while the model reports `command not found`. Full Unicode case mapping tables are not modelled.
- Null command names, values and key strings in `DefaultCommandProvider` and the key handler are not modelled.
