/**
 * The output path of a running command: the ConsoleWriter behind the out and
 * err PrintWriters cuts its character buffer into lines, and the ConsoleQueue
 * holds the resulting console actions until they are run against the console
 * in batches. An action is kept as a value (what it would print); running it
 * appends it to the queue's record of delivered actions.
 */
module ConsoleOutput {
  import opened Wrappers
  import opened JavaStrings

  const QUEUE_SIZE: nat := 20
  const BATCH_SIZE: nat := 20

  /** A queued console call: console.println(text, className) or console.print(text, className). */
  datatype Action = Println(text: string, className: Option<string>) | Print(text: string, className: Option<string>)

  /** What one action adds to the console text. */
  function Shown(a: Action): string {
    match a
    case Println(text, _) => text + "\n"
    case Print(text, _) => text
  }

  /** The console text a sequence of actions produces, in order. */
  function Render(actions: seq<Action>): string {
    if actions == [] then "" else Shown(actions[0]) + Render(actions[1..])
  }

  lemma {:induction false} RenderAppend(a: seq<Action>, b: seq<Action>)
    ensures Render(a + b) == Render(a) + Render(b)
    decreases |a|
  {
    if a == [] {
      assert a + b == b;
    } else {
      assert (a + b)[1..] == a[1..] + b;
      RenderAppend(a[1..], b);
    }
  }

  // ---------------------------------------------------------------------
  // ConsoleQueue

  /** The actions one flushQueue call runs: the first BATCH_SIZE queued ones. */
  function Batch(q: seq<Action>): seq<Action> {
    if |q| <= BATCH_SIZE then q else q[..BATCH_SIZE]
  }

  /** What flushQueue leaves queued. The poll that ends a full batch has
      already taken the next action out of the queue, so that action is lost. */
  function Leftover(q: seq<Action>): seq<Action> {
    if |q| <= BATCH_SIZE then [] else q[BATCH_SIZE + 1..]
  }

  /** A queue longer than a batch loses exactly the action after the batch. */
  lemma BatchLosesOne(q: seq<Action>)
    requires |q| > BATCH_SIZE
    ensures q == Batch(q) + [q[BATCH_SIZE]] + Leftover(q)
    ensures |Batch(q)| == BATCH_SIZE && |Leftover(q)| == |q| - BATCH_SIZE - 1
  {
  }

  /** A queue within its capacity is drained by one flushQueue call, in FIFO order. */
  lemma BoundedQueueDrains(q: seq<Action>)
    requires |q| <= QUEUE_SIZE
    ensures Batch(q) == q && Leftover(q) == []
  {
  }

  class ConsoleQueue {
    var workQueue: seq<Action>
    /** The actions already run against the console, oldest first. */
    var delivered: seq<Action>

    ghost predicate Valid()
      reads this
    {
      |workQueue| <= QUEUE_SIZE
    }

    constructor ()
      ensures Valid() && workQueue == [] && delivered == []
    {
      workQueue := [];
      delivered := [];
    }

    /** workQueue.put: the queue must have room (put would block otherwise). */
    method Queue(task: Action)
      requires |workQueue| < QUEUE_SIZE
      modifies this`workQueue
      ensures Valid()
      ensures workQueue == old(workQueue) + [task]
    {
      workQueue := workQueue + [task];
    }

    /** Runs one batch, unless the queue is empty. With no task queued
        meanwhile, a queue within its capacity is drained completely. */
    method Flush()
      requires Valid()
      modifies this
      ensures Valid()
      ensures old(workQueue) == [] ==> workQueue == [] && delivered == old(delivered)
      ensures delivered == old(delivered) + Batch(old(workQueue))
      ensures workQueue == Leftover(old(workQueue))
      ensures workQueue == [] && delivered == old(delivered) + old(workQueue)
    {
      if workQueue == [] {
        return;
      }
      FlushQueue();
      BoundedQueueDrains(old(workQueue));
    }

    /** Polls and runs actions until the queue is empty or BATCH_SIZE have run. */
    method FlushQueue()
      modifies this
      ensures delivered == old(delivered) + Batch(old(workQueue))
      ensures workQueue == Leftover(old(workQueue))
    {
      var itemsFlushed := 0;
      while true
        invariant 0 <= itemsFlushed <= BATCH_SIZE && itemsFlushed <= |old(workQueue)|
        invariant workQueue == old(workQueue)[itemsFlushed..]
        invariant delivered == old(delivered) + old(workQueue)[..itemsFlushed]
        decreases |workQueue|
      {
        if workQueue == [] {
          assert old(workQueue)[..itemsFlushed] == old(workQueue);
          break;
        }
        var consumer := workQueue[0];
        workQueue := workQueue[1..];
        if itemsFlushed >= BATCH_SIZE {
          break;
        }
        delivered := delivered + [consumer];
        itemsFlushed := itemsFlushed + 1;
        assert old(workQueue)[..itemsFlushed] == old(workQueue)[..itemsFlushed - 1] + [consumer];
      }
    }
  }

  // ---------------------------------------------------------------------
  // Cutting text into lines

  /** The complete lines of s (without their '\n') and the text after the last '\n'. */
  function SplitLines(s: string): (seq<string>, string)
    decreases |s|
  {
    var k := IndexOf(s, '\n', 0);
    if k == -1 then ([], s)
    else
      var rest := SplitLines(s[k + 1..]);
      ([s[..k]] + rest.0, rest.1)
  }

  /** Neither the lines nor the remainder contain a line break. */
  lemma {:induction false} SplitLinesNoBreaks(s: string)
    ensures forall i :: 0 <= i < |SplitLines(s).0| ==> '\n' !in SplitLines(s).0[i]
    ensures '\n' !in SplitLines(s).1
    decreases |s|
  {
    var k := IndexOf(s, '\n', 0);
    if k == -1 {
      SplitLinesNone(s);
    } else {
      SplitLinesAt(s, k);
      SplitLinesNoBreaks(s[k + 1..]);
      assert '\n' !in s[..k] by {
        forall i | 0 <= i < k ensures s[..k][i] != '\n' { }
      }
    }
  }

  /** Lines, each followed by '\n'. */
  function JoinLines(lines: seq<string>): string {
    if lines == [] then "" else lines[0] + "\n" + JoinLines(lines[1..])
  }

  lemma {:induction false} JoinLinesEnds(lines: seq<string>)
    requires lines != []
    ensures JoinLines(lines) != [] && JoinLines(lines)[|JoinLines(lines)| - 1] == '\n'
    decreases |lines|
  {
    if |lines| > 1 {
      JoinLinesEnds(lines[1..]);
    }
  }

  lemma JoinLinesCons(line: string, lines: seq<string>)
    ensures JoinLines([line] + lines) == line + "\n" + JoinLines(lines)
  {
    assert ([line] + lines)[1..] == lines;
  }

  /** One step of SplitLines: the first line break at k cuts off s[..k]. */
  lemma SplitLinesAt(s: string, k: int)
    requires k == IndexOf(s, '\n', 0) && k != -1
    ensures SplitLines(s) == ([s[..k]] + SplitLines(s[k + 1..]).0, SplitLines(s[k + 1..]).1)
  {
  }

  /** Without a line break SplitLines keeps the whole text as the remainder. */
  lemma SplitLinesNone(s: string)
    requires IndexOf(s, '\n', 0) == -1
    ensures SplitLines(s) == ([], s)
  {
  }

  lemma Regroup(line: string, joined: string, rest: string)
    ensures (line + "\n" + joined) + rest == line + "\n" + (joined + rest)
  {
  }

  /** The text around a line break at k. */
  lemma BreakAt(s: string, k: int)
    requires 0 <= k < |s| && s[k] == '\n'
    ensures s == s[..k] + "\n" + s[k + 1..]
  {
  }

  /** Splitting loses nothing: the lines and the remainder rebuild the text. */
  lemma {:induction false} SplitLinesJoin(s: string)
    ensures JoinLines(SplitLines(s).0) + SplitLines(s).1 == s
    decreases |s|
  {
    var k := IndexOf(s, '\n', 0);
    if k != -1 {
      var after := s[k + 1..];
      var rest := SplitLines(after);
      SplitLinesJoin(after);
      SplitLinesAt(s, k);
      JoinLinesCons(s[..k], rest.0);
      Regroup(s[..k], JoinLines(rest.0), rest.1);
      BreakAt(s, k);
    } else {
      SplitLinesNone(s);
      assert "" + s == s;
    }
  }

  /** Splitting recovers lines joined with '\n' (the inverse of SplitLinesJoin). */
  lemma {:induction false} JoinLinesSplit(lines: seq<string>, rest: string)
    requires forall i :: 0 <= i < |lines| ==> '\n' !in lines[i]
    requires '\n' !in rest
    ensures SplitLines(JoinLines(lines) + rest) == (lines, rest)
    decreases |lines|
  {
    var s := JoinLines(lines) + rest;
    if lines == [] {
      assert s == rest;
      assert IndexOf(s, '\n', 0) == -1;
    } else {
      var first := lines[0];
      var tail := JoinLines(lines[1..]) + rest;
      assert s == first + "\n" + tail;
      assert s[|first|] == '\n';
      assert forall i :: 0 <= i < |first| ==> s[i] == first[i];
      assert IndexOf(s, '\n', 0) == |first|;
      assert s[..|first|] == first && s[|first| + 1..] == tail;
      JoinLinesSplit(lines[1..], rest);
      assert [first] + lines[1..] == lines;
    }
  }

  /** println actions for lines, in order. */
  function Printlns(lines: seq<string>, className: Option<string>): (actions: seq<Action>)
    ensures |actions| == |lines|
  {
    seq(|lines|, i requires 0 <= i < |lines| => Println(lines[i], className))
  }

  lemma {:induction false} RenderPrintlns(lines: seq<string>, className: Option<string>)
    ensures Render(Printlns(lines, className)) == JoinLines(lines)
    decreases |lines|
  {
    if lines != [] {
      var actions := Printlns(lines, className);
      assert actions[0] == Println(lines[0], className);
      assert actions[1..] == Printlns(lines[1..], className);
      RenderPrintlns(lines[1..], className);
    }
  }

  // ---------------------------------------------------------------------
  // ConsoleWriter

  /** The actions ConsoleWriter.flush(flushRemaining) queues for a buffer:
      one println per complete line; the remainder becomes a last println when
      closing, and otherwise a print that is queued only behind at least one
      line (a lone fragment is discarded). */
  function FlushActions(buffer: string, flushRemaining: bool, className: Option<string>): seq<Action> {
    if buffer == [] then []
    else
      var (lines, rest) := SplitLines(buffer);
      var all := if rest != [] && flushRemaining then lines + [rest] else lines;
      if all == [] then []
      else Printlns(all, className) + (if rest != [] && !flushRemaining then [Print(rest, className)] else [])
  }

  /** flush() on a buffer without a line break queues nothing: the fragment is lost. */
  lemma FlushDropsFragment(buffer: string, className: Option<string>)
    requires '\n' !in buffer
    ensures FlushActions(buffer, false, className) == []
  {
    assert IndexOf(buffer, '\n', 0) == -1;
  }

  /** flush() on a buffer holding a line break puts the whole buffer on the
      console, in order. */
  lemma FlushKeepsText(buffer: string, className: Option<string>)
    requires '\n' in buffer
    ensures Render(FlushActions(buffer, false, className)) == buffer
  {
    var (lines, rest) := SplitLines(buffer);
    BreakGivesLine(buffer);
    FlushWithLines(buffer, className);
    SplitLinesJoin(buffer);
    RenderPrintlns(lines, className);
    if rest != [] {
      RenderAppend(Printlns(lines, className), [Print(rest, className)]);
      assert Render([Print(rest, className)]) == rest;
    } else {
      assert Printlns(lines, className) + [] == Printlns(lines, className);
    }
  }

  /** A buffer holding a line break yields at least one line. */
  lemma BreakGivesLine(buffer: string)
    requires '\n' in buffer
    ensures SplitLines(buffer).0 != []
  {
    var k :| 0 <= k < |buffer| && buffer[k] == '\n';
    var i := IndexOf(buffer, '\n', 0);
    assert i != -1;
    SplitLinesAt(buffer, i);
  }

  /** flush() with at least one line queues the lines, then any remainder as a print. */
  lemma FlushWithLines(buffer: string, className: Option<string>)
    requires SplitLines(buffer).0 != []
    ensures FlushActions(buffer, false, className)
      == Printlns(SplitLines(buffer).0, className)
        + (if SplitLines(buffer).1 != [] then [Print(SplitLines(buffer).1, className)] else [])
  {
    assert buffer != [] by {
      if buffer == [] {
        SplitLinesNone(buffer);
      }
    }
  }

  /** The remainder joins the lines when closing; everything is println. */
  lemma CloseActions(buffer: string, className: Option<string>)
    requires buffer != []
    ensures FlushActions(buffer, true, className) == Printlns(
      if SplitLines(buffer).1 != [] then SplitLines(buffer).0 + [SplitLines(buffer).1] else SplitLines(buffer).0,
      className)
  {
    var (lines, rest) := SplitLines(buffer);
    var all := if rest != [] then lines + [rest] else lines;
    assert Printlns(all, className) + [] == Printlns(all, className);
  }

  /** close() puts the whole buffer on the console, ending it with a line break
      if it lacks one. */
  lemma CloseKeepsText(buffer: string, className: Option<string>)
    ensures Render(FlushActions(buffer, true, className))
      == buffer + (if buffer != [] && buffer[|buffer| - 1] != '\n' then "\n" else "")
  {
    if buffer != [] {
      var (lines, rest) := SplitLines(buffer);
      SplitLinesJoin(buffer);
      SplitLinesNoBreaks(buffer);
      CloseActions(buffer, className);
      if rest != [] {
        RenderPrintlns(lines + [rest], className);
        JoinLinesSnoc(lines, rest);
        LastOfConcat(JoinLines(lines), rest);
        assert rest[|rest| - 1] != '\n';
      } else {
        assert lines != [];
        JoinLinesEnds(lines);
        RenderPrintlns(lines, className);
        assert JoinLines(lines) + [] == JoinLines(lines);
      }
    } else {
      assert FlushActions(buffer, true, className) == [];
    }
  }

  lemma {:induction false} JoinLinesSnoc(lines: seq<string>, last: string)
    ensures JoinLines(lines + [last]) == JoinLines(lines) + last + "\n"
    decreases |lines|
  {
    if lines == [] {
      assert JoinLines([last]) == last + "\n" + JoinLines([]);
    } else {
      assert (lines + [last])[1..] == lines[1..] + [last];
      JoinLinesSnoc(lines[1..], last);
    }
  }

  class ConsoleWriter {
    const consoleQueue: ConsoleQueue
    const className: Option<string>
    var buffer: string

    constructor (queue: ConsoleQueue, className: Option<string>)
      ensures consoleQueue == queue && this.className == className && buffer == []
    {
      consoleQueue := queue;
      this.className := className;
      buffer := [];
    }

    method Write(cbuf: seq<char>, off: nat, len: nat)
      requires off + len <= |cbuf|
      modifies this`buffer
      ensures buffer == old(buffer) + cbuf[off..off + len]
    {
      buffer := buffer + cbuf[off..off + len];
    }

    /** flush(flushRemaining): queues FlushActions of the buffer and empties it. */
    method FlushBuffer(flushRemaining: bool)
      requires |consoleQueue.workQueue| + |FlushActions(buffer, flushRemaining, className)| <= QUEUE_SIZE
      modifies this`buffer, consoleQueue`workQueue
      ensures buffer == []
      ensures consoleQueue.workQueue == old(consoleQueue.workQueue) + FlushActions(old(buffer), flushRemaining, className)
    {
      if |buffer| == 0 {
        return;
      }
      var lines, start := CutLines(buffer);
      var tail: Option<string>;
      if start < |buffer| {
        var remaining := buffer[start..];
        if flushRemaining {
          lines := lines + [remaining];
          tail := None;
        } else {
          tail := Some(remaining);
        }
      } else {
        tail := None;
      }
      buffer := [];
      if lines != [] {
        EnqueueLines(lines, tail);
      }
    }

    /** Queues a println per line, then the print of the tail, if any. */
    method EnqueueLines(lines: seq<string>, tail: Option<string>)
      requires |consoleQueue.workQueue| + |lines| + (if tail.Some? then 1 else 0) <= QUEUE_SIZE
      modifies consoleQueue`workQueue
      ensures consoleQueue.workQueue == old(consoleQueue.workQueue) + Printlns(lines, className)
        + (if tail.Some? then [Print(tail.value, className)] else [])
    {
      for i := 0 to |lines|
        invariant consoleQueue.workQueue == old(consoleQueue.workQueue) + Printlns(lines[..i], className)
      {
        assert lines[..i + 1] == lines[..i] + [lines[i]];
        assert Printlns(lines[..i + 1], className) == Printlns(lines[..i], className) + [Println(lines[i], className)];
        consoleQueue.Queue(Println(lines[i], className));
      }
      assert lines[..|lines|] == lines;
      if tail.Some? {
        consoleQueue.Queue(Print(tail.value, className));
      }
    }

    method Flush()
      requires |consoleQueue.workQueue| + |FlushActions(buffer, false, className)| <= QUEUE_SIZE
      modifies this`buffer, consoleQueue`workQueue
      ensures buffer == []
      ensures consoleQueue.workQueue == old(consoleQueue.workQueue) + FlushActions(old(buffer), false, className)
    {
      FlushBuffer(false);
    }

    method Close()
      requires |consoleQueue.workQueue| + |FlushActions(buffer, true, className)| <= QUEUE_SIZE
      modifies this`buffer, consoleQueue`workQueue
      ensures buffer == []
      ensures consoleQueue.workQueue == old(consoleQueue.workQueue) + FlushActions(old(buffer), true, className)
    {
      FlushBuffer(true);
    }
  }

  /** The loop of ConsoleWriter.flush: collects the complete lines of buffer
      and returns where the remainder starts. */
  method CutLines(buffer: string) returns (lines: seq<string>, start: nat)
    ensures start <= |buffer| && SplitLines(buffer) == (lines, buffer[start..])
  {
    start := 0;
    lines := [];
    assert buffer[start..] == buffer;
    assert lines + SplitLines(buffer).0 == SplitLines(buffer).0;
    while start < |buffer| && IndexOf(buffer, '\n', start) != -1
      invariant 0 <= start <= |buffer|
      invariant SplitLines(buffer) == (lines + SplitLines(buffer[start..]).0, SplitLines(buffer[start..]).1)
      decreases |buffer| - start
    {
      var end := IndexOf(buffer, '\n', start);
      CutStep(buffer, lines, start, end);
      lines := lines + [buffer[start..end]];
      start := end + 1;
    }
    if start < |buffer| {
      NoBreakFrom(buffer, start);
    } else {
      assert buffer[start..] == [];
      SplitLinesNone([]);
    }
    assert lines + [] == lines;
  }

  /** The loop step of ConsoleWriter.flush keeps the lines collected so far
      and the split of the rest together equal to the split of the buffer. */
  lemma CutStep(buffer: string, lines: seq<string>, start: nat, end: int)
    requires start <= |buffer| && end == IndexOf(buffer, '\n', start) && end != -1
    requires SplitLines(buffer) == (lines + SplitLines(buffer[start..]).0, SplitLines(buffer[start..]).1)
    ensures SplitLines(buffer) == ((lines + [buffer[start..end]]) + SplitLines(buffer[end + 1..]).0, SplitLines(buffer[end + 1..]).1)
  {
    var later := SplitLines(buffer[end + 1..]);
    SplitFrom(buffer, start, end);
    ConcatAssoc(lines, [buffer[start..end]], later.0);
  }

  /** IndexOf is the first occurrence at or after from, so any position with
      that property is the one it returns. */
  lemma IndexOfUnique(s: string, c: char, from: nat, k: int)
    requires (k == -1 && forall i :: from <= i < |s| ==> s[i] != c)
      || (from <= k < |s| && s[k] == c && forall i :: from <= i < k ==> s[i] != c)
    ensures IndexOf(s, c, from) == k
  {
  }

  /** A line break found at end >= start cuts off the line buffer[start..end]. */
  lemma SplitFrom(s: string, start: nat, end: int)
    requires start <= |s| && end == IndexOf(s, '\n', start) && end != -1
    ensures SplitLines(s[start..]) == ([s[start..end]] + SplitLines(s[end + 1..]).0, SplitLines(s[end + 1..]).1)
  {
    var t := s[start..];
    var e := end - start;
    assert IndexOf(t, '\n', 0) == e by {
      assert forall i :: 0 <= i < |t| ==> t[i] == s[start + i];
      IndexOfUnique(t, '\n', 0, e);
    }
    calc {
      SplitLines(t);
      == { SplitLinesAt(t, e); }
      ([t[..e]] + SplitLines(t[e + 1..]).0, SplitLines(t[e + 1..]).1);
      == { assert t[..e] == s[start..end]; assert t[e + 1..] == s[end + 1..]; }
      ([s[start..end]] + SplitLines(s[end + 1..]).0, SplitLines(s[end + 1..]).1);
    }
  }

  /** The loop exit of ConsoleWriter.flush: no line break at or after start. */
  lemma NoBreakFrom(s: string, start: nat)
    requires start < |s| && IndexOf(s, '\n', start) == -1
    ensures SplitLines(s[start..]) == ([], s[start..])
  {
    var t := s[start..];
    assert IndexOf(t, '\n', 0) == -1 by {
      assert forall i :: 0 <= i < |t| ==> t[i] == s[start + i];
      IndexOfUnique(t, '\n', 0, -1);
    }
    SplitLinesNone(t);
  }

  /** Text written to a fresh command's writer, closed, and the queue drained:
      the console shows the text, ended by a line break. */
  method WriteCloseDrain(text: string, className: Option<string>) returns (shown: string)
    requires |FlushActions(text, true, className)| <= QUEUE_SIZE
    ensures shown == text + (if text != [] && text[|text| - 1] != '\n' then "\n" else "")
  {
    var queue := new ConsoleQueue();
    var writer := new ConsoleWriter(queue, className);
    writer.Write(text, 0, |text|);
    assert writer.buffer == text;
    writer.Close();
    queue.FlushQueue();
    BoundedQueueDrains(FlushActions(text, true, className));
    assert [] + FlushActions(text, true, className) == FlushActions(text, true, className);
    CloseKeepsText(text, className);
    shown := Render(queue.delivered);
  }
}
