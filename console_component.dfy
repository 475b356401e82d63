/**
 * The server-side Console component: Tab completion (handleSuggest with its
 * one piece of state, lastSuggestInput), the helpers parseCommandPrefix and
 * count, and the line-buffering stream behind getPrintStream. Calls the
 * component makes on the client (bell, print, prompt, focus) are recorded in
 * order in a log.
 */
module ConsoleComponent {
  import opened Wrappers
  import opened JavaStrings
  import InputParsing

  /** A call forwarded to the client side. */
  datatype ClientCall = Reset | Bell | Print(text: string) | Prompt(initialInput: string) | Focus

  // ---------------------------------------------------------------------
  // parseCommandPrefix and count

  /** The word being completed: null for null input, "" after a trailing
      space, otherwise the last argument of the line (or "" if it has none). */
  function ParseCommandPrefix(input: Option<string>): (prefix: Option<string>)
    ensures prefix.None? <==> input.None?
    ensures input.Some? && EndsWith(input.value, " ") ==> prefix == Some("")
  {
    match input
    case None => None
    case Some(line) =>
      if !EndsWith(line, " ") then
        var argv := InputParsing.Parse(line);
        if argv != [] then Some(argv[|argv| - 1]) else Some("")
      else Some("")
  }

  /** For plain words after optional whitespace, the prefix is the last word. */
  lemma PrefixOfWords(lead: string, ws: seq<string>, seps: seq<string>)
    requires InputParsing.WordLayout(ws, seps) && InputParsing.AllWhitespace(lead)
    ensures ParseCommandPrefix(Some(lead + InputParsing.Joined(ws, seps))) == Some(ws[|ws| - 1])
  {
    var body := InputParsing.Joined(ws, seps);
    var line := lead + body;
    InputParsing.ParseWords(lead, ws, seps, "");
    assert line + "" == line;
    var last := ws[|ws| - 1];
    assert InputParsing.PlainChar(last[|last| - 1]);
    LastOfConcat(lead, body);
  }

  /** For a line of double-quoted arguments, the prefix is the last argument,
      unquoted and unescaped. */
  lemma PrefixOfQuoted(ts: seq<string>)
    requires ts != []
    ensures ParseCommandPrefix(Some(InputParsing.QuoteAll(ts))) == Some(ts[|ts| - 1])
  {
    InputParsing.ParseQuoteAll(ts);
  }

  /** count: -1 for null, otherwise the number of occurrences of lookFor. */
  method Count(sourceString: Option<string>, lookFor: char) returns (count: int)
    ensures sourceString.None? ==> count == -1
    ensures sourceString.Some? ==> count == multiset(sourceString.value)[lookFor]
    ensures sourceString.Some? ==> 0 <= count <= |sourceString.value|
  {
    if sourceString.None? {
      return -1;
    }
    var s := sourceString.value;
    count := 0;
    for i := 0 to |s|
      invariant count == multiset(s[..i])[lookFor]
      invariant 0 <= count <= i
    {
      assert s[..i + 1] == s[..i] + [s[i]];
      if s[i] == lookFor {
        count := count + 1;
      }
    }
    assert s[..|s|] == s;
  }

  // ---------------------------------------------------------------------
  // The common prefix of several matches

  /** The inner loop of the common-prefix computation at column i, continued
      over the matches ms with the character c taken so far ('\0' for none):
      the final character and whether every match agreed, or None where
      charAt(i) is out of range (a StringIndexOutOfBoundsException). */
  function ScanColumn(ms: seq<string>, i: nat, c: char): Option<(char, bool)>
    decreases |ms|
  {
    if ms == [] then Some((c, true))
    else if c == '\0' then
      if i < |ms[0]| then ScanColumn(ms[1..], i, ms[0][i]) else None
    else if i < |ms[0]| && ms[0][i] == c then ScanColumn(ms[1..], i, c)
    else Some((c, false))
  }

  /** The outer loop from column i to maxLen, with acc built so far. */
  function ExtendPrefix(ms: seq<string>, acc: string, i: nat, maxLen: nat): Option<string>
    decreases maxLen - i
  {
    if i >= maxLen then Some(acc)
    else match ScanColumn(ms, i, '\0')
      case None => None
      case Some((c, charMatch)) => ExtendPrefix(ms, if charMatch then acc + [c] else acc, i + 1, maxLen)
  }

  /** The commonPrefix built for prefix and the matches (in iteration order),
      scanning columns |prefix| to the first match's length; None where the
      scan throws. */
  function CommonPrefix(prefix: string, ms: seq<string>): Option<string>
    requires ms != []
  {
    ExtendPrefix(ms, prefix, |prefix|, |ms[0]|)
  }

  /** Every match has character ms[0][i] at column i. */
  predicate AllAgreeAt(ms: seq<string>, i: nat)
    requires ms != [] && i < |ms[0]|
  {
    forall k :: 0 <= k < |ms| ==> i < |ms[k]| && ms[k][i] == ms[0][i]
  }

  lemma {:induction false} ScanFrom(ms: seq<string>, i: nat, c: char)
    requires c != '\0'
    ensures ScanColumn(ms, i, c) == Some((c, forall k :: 0 <= k < |ms| ==> i < |ms[k]| && ms[k][i] == c))
    decreases |ms|
  {
    if ms != [] && i < |ms[0]| && ms[0][i] == c {
      ScanFrom(ms[1..], i, c);
      assert forall k :: 1 <= k < |ms| ==> ms[k] == ms[1..][k - 1];
    }
  }

  /** At a column the first match has (and where it holds no NUL), the scan
      takes that character and reports agreement exactly when every match has
      it at that column. */
  lemma ColumnAgreement(ms: seq<string>, i: nat)
    requires ms != [] && i < |ms[0]| && ms[0][i] != '\0'
    ensures ScanColumn(ms, i, '\0') == Some((ms[0][i], AllAgreeAt(ms, i)))
  {
    ScanFrom(ms[1..], i, ms[0][i]);
    assert forall k :: 1 <= k < |ms| ==> ms[k] == ms[1..][k - 1];
  }

  /** Reference definition: the characters of the first match, from column
      lo up to column hi, at which all matches agree. */
  function Agreed(ms: seq<string>, lo: nat, hi: nat): string
    requires ms != [] && lo <= hi <= |ms[0]|
    decreases hi - lo
  {
    if lo == hi then []
    else (if AllAgreeAt(ms, lo) then [ms[0][lo]] else []) + Agreed(ms, lo + 1, hi)
  }

  predicate NoNulFrom(s: string, from: nat) {
    forall i :: from <= i < |s| ==> s[i] != '\0'
  }

  lemma {:induction false} ExtendPrefixAgreed(ms: seq<string>, acc: string, i: nat)
    requires ms != [] && i <= |ms[0]| && NoNulFrom(ms[0], i)
    ensures ExtendPrefix(ms, acc, i, |ms[0]|) == Some(acc + Agreed(ms, i, |ms[0]|))
    decreases |ms[0]| - i
  {
    if i < |ms[0]| {
      ColumnAgreement(ms, i);
      var step := if AllAgreeAt(ms, i) then [ms[0][i]] else [];
      ExtendPrefixAgreed(ms, acc + step, i + 1);
      assert acc + step + Agreed(ms, i + 1, |ms[0]|) == acc + (step + Agreed(ms, i + 1, |ms[0]|));
    } else {
      assert acc + [] == acc;
    }
  }

  /** When the first match holds no NUL past the prefix, the common prefix is
      the prefix followed by every column at which all matches agree, whether
      or not an earlier column disagreed. */
  lemma CommonPrefixIsAgreedColumns(prefix: string, ms: seq<string>)
    requires ms != [] && NoNulFrom(ms[0], |prefix|)
    ensures |prefix| <= |ms[0]| ==> CommonPrefix(prefix, ms) == Some(prefix + Agreed(ms, |prefix|, |ms[0]|))
    ensures |prefix| > |ms[0]| ==> CommonPrefix(prefix, ms) == Some(prefix)
  {
    if |prefix| <= |ms[0]| {
      ExtendPrefixAgreed(ms, prefix, |prefix|);
    }
  }

  lemma {:induction false} ExtendPrefixGrows(ms: seq<string>, acc: string, i: nat, maxLen: nat)
    ensures var r := ExtendPrefix(ms, acc, i, maxLen);
      r.Some? ==> StartsWith(r.value, acc) && |r.value| <= |acc| + (if i < maxLen then maxLen - i else 0)
    decreases maxLen - i
  {
    if i < maxLen {
      match ScanColumn(ms, i, '\0')
      case None =>
      case Some((c, charMatch)) =>
        var acc' := if charMatch then acc + [c] else acc;
        ExtendPrefixGrows(ms, acc', i + 1, maxLen);
        var r := ExtendPrefix(ms, acc', i + 1, maxLen);
        if r.Some? {
          assert r.value[..|acc|] == r.value[..|acc'|][..|acc|];
        }
    }
  }

  /** The common prefix starts with the prefix and is never longer than the
      prefix or the first match. */
  lemma CommonPrefixExtends(prefix: string, ms: seq<string>)
    requires ms != []
    ensures var r := CommonPrefix(prefix, ms);
      r.Some? ==> StartsWith(r.value, prefix) && |r.value| <= if |prefix| < |ms[0]| then |ms[0]| else |prefix|
  {
    ExtendPrefixGrows(ms, prefix, |prefix|, |ms[0]|);
  }

  /** The column loop does not stop at a disagreeing column: with prefix "a"
      and the matches "abc" and "axc", the result is "ac". */
  lemma CommonPrefixSkipsMismatch()
    ensures CommonPrefix("a", ["abc", "axc"]) == Some("ac")
  {
    var ms := ["abc", "axc"];
    CommonPrefixIsAgreedColumns("a", ms);
    assert !AllAgreeAt(ms, 1) && AllAgreeAt(ms, 2);
    assert Agreed(ms, 3, 3) == [];
    assert Agreed(ms, 2, 3) == "c";
    assert Agreed(ms, 1, 3) == "c";
    assert "a" + "c" == "ac";
  }

  /** A NUL in the first match makes the next match's character be taken
      unchecked, and charAt throws if that match is too short. */
  lemma CommonPrefixNulThrows()
    ensures CommonPrefix("", ["\0", ""]) == None
  {
  }

  /** The nested loops of handleSuggest that build commonPrefix. */
  method BuildCommonPrefix(prefix: string, matches: seq<string>) returns (common: Option<string>)
    requires matches != []
    ensures common == CommonPrefix(prefix, matches)
  {
    var commonPrefix := prefix;
    var maxLen := |matches[0]|;
    var i := |prefix|;
    while i < maxLen
      invariant |prefix| <= i
      invariant ExtendPrefix(matches, commonPrefix, i, maxLen) == CommonPrefix(prefix, matches)
      decreases maxLen - i
    {
      var c := '\0';
      var charMatch := true;
      var j := 0;
      while j < |matches|
        invariant 0 <= j <= |matches|
        invariant charMatch
        invariant ScanColumn(matches, i, '\0') == ScanColumn(matches[j..], i, c)
        decreases |matches| - j
      {
        var m := matches[j];
        assert matches[j..][0] == m && matches[j..][1..] == matches[j + 1..];
        if c == '\0' {
          if i >= |m| {
            return None;
          }
          c := m[i];
        } else if i < |m| {
          charMatch := m[i] == c;
          if !charMatch {
            break;
          }
        } else {
          charMatch := false;
          break;
        }
        j := j + 1;
      }
      if charMatch {
        assert matches[j..] == [];
        commonPrefix := commonPrefix + [c];
      }
      i := i + 1;
    }
    common := Some(commonPrefix);
  }

  // ---------------------------------------------------------------------
  // The candidate list

  /** "\n" followed by " m" for every match, in iteration order. */
  function Candidates(ms: seq<string>): string {
    if ms == [] then "\n" else Candidates(ms[..|ms| - 1]) + " " + ms[|ms| - 1]
  }

  method ListSuggestions(matches: seq<string>) returns (suggestions: string)
    ensures suggestions == Candidates(matches)
  {
    suggestions := "\n";
    for k := 0 to |matches|
      invariant suggestions == Candidates(matches[..k])
    {
      assert matches[..k + 1][..k] == matches[..k];
      suggestions := suggestions + " " + matches[k];
    }
    assert matches[..|matches|] == matches;
  }

  function Spaces(n: nat): (r: seq<string>)
    ensures |r| == n && forall k :: 0 <= k < n ==> r[k] == " "
  {
    seq(n, k => " ")
  }

  lemma {:induction false} CandidatesJoined(ms: seq<string>)
    requires ms != []
    ensures Candidates(ms) == "\n " + InputParsing.Joined(ms, Spaces(|ms| - 1))
    decreases |ms|
  {
    var n := |ms|;
    if n == 1 {
      assert ms[..0] == [];
      assert "\n" + " " == "\n ";
    } else {
      var front := InputParsing.Joined(ms[..n - 1], Spaces(n - 2));
      CandidatesJoined(ms[..n - 1]);
      assert Candidates(ms[..n - 1]) == "\n " + front;
      assert Candidates(ms) == Candidates(ms[..n - 1]) + " " + ms[n - 1];
      InputParsing.JoinedSnoc(ms, Spaces(n - 1));
      SpacesPrefix(n - 1);
      assert InputParsing.Joined(ms, Spaces(n - 1)) == front + " " + ms[n - 1];
      SnocCandidate(front, ms[n - 1]);
    }
  }

  lemma SnocCandidate(front: string, w: string)
    ensures ("\n " + front) + " " + w == "\n " + (front + " " + w)
  {
    ConcatAssoc("\n ", front, " ");
    ConcatAssoc("\n ", front + " ", w);
  }

  lemma SpacesPrefix(n: nat)
    requires n > 0
    ensures Spaces(n)[..n - 1] == Spaces(n - 1)
  {
  }

  lemma SpacedLayout(ms: seq<string>)
    requires ms != [] && forall k :: 0 <= k < |ms| ==> InputParsing.PlainWord(ms[k])
    ensures InputParsing.WordLayout(ms, Spaces(|ms| - 1))
  {
    var seps := Spaces(|ms| - 1);
    forall k | 0 <= k < |seps| ensures seps[k] != [] && InputParsing.AllWhitespace(seps[k]) {
      assert seps[k] == " ";
    }
  }

  /** The printed candidate list, read back as a command line, gives the
      matches again when they are plain words. */
  lemma CandidatesParse(ms: seq<string>)
    requires ms != [] && forall k :: 0 <= k < |ms| ==> InputParsing.PlainWord(ms[k])
    ensures InputParsing.Parse(Candidates(ms)) == ms
  {
    CandidatesJoined(ms);
    SpacedLayout(ms);
    ParseAfterBreak(ms, Spaces(|ms| - 1));
  }

  lemma ParseAfterBreak(ms: seq<string>, seps: seq<string>)
    requires InputParsing.WordLayout(ms, seps)
    ensures InputParsing.Parse("\n " + InputParsing.Joined(ms, seps)) == ms
  {
    var lead := "\n ";
    assert InputParsing.AllWhitespace(lead) by {
      assert lead[0] == '\n' && lead[1] == ' ';
    }
    InputParsing.ParseWords(lead, ms, seps, "");
    assert lead + InputParsing.Joined(ms, seps) + "" == lead + InputParsing.Joined(ms, seps);
  }

  // ---------------------------------------------------------------------
  // handleSuggest

  /** What one handleSuggest call does: the new lastSuggestInput, the client
      calls made, and whether it ended in an exception. */
  datatype SuggestOutcome = SuggestOutcome(lastSuggestInput: Option<string>, calls: seq<ClientCall>, thrown: bool)

  /** handleSuggest for the given input and the handler's matches (in
      iteration order; None for a null set), after a previous suggest input. */
  function Suggest(last: Option<string>, input: Option<string>, matches: Option<seq<string>>): SuggestOutcome {
    var cancelIfNotASingleMatch := input.Some? && input != last;
    if matches.None? || matches.value == [] then SuggestOutcome(input, [Bell], false)
    else if input.None? then SuggestOutcome(input, [], true)
    else
      var line := input.value;
      var prefix := ParseCommandPrefix(input).value;
      var cut := LastIndexOf(line, prefix);
      if cut < 0 then SuggestOutcome(input, [], true)
      else
        var base := line[..cut];
        var ms := matches.value;
        if |ms| == 1 then SuggestOutcome(input, [Prompt(base + ms[0] + " "), Focus], false)
        else match CommonPrefix(prefix, ms)
          case None => SuggestOutcome(input, [], true)
          case Some(common) =>
            var output := base + common;
            if prefix == common && !cancelIfNotASingleMatch then
              SuggestOutcome(input, [Print(Candidates(ms)), Prompt(output), Focus], false)
            else
              SuggestOutcome(Some(output), [Bell, Prompt(output), Focus], false)
  }

  /** No matches: only the bell, and the input is remembered. */
  lemma NoMatchesBell(last: Option<string>, input: Option<string>, matches: Option<seq<string>>)
    requires matches.None? || matches.value == []
    ensures Suggest(last, input, matches) == SuggestOutcome(input, [Bell], false)
  {
  }

  /** One match whose line ends with the word being completed: that word is
      replaced by the match and a space. */
  lemma SingleMatchCompletes(last: Option<string>, line: string, m: string)
    requires EndsWith(line, ParseCommandPrefix(Some(line)).value)
    ensures var prefix := ParseCommandPrefix(Some(line)).value;
      Suggest(last, Some(line), Some([m]))
        == SuggestOutcome(Some(line), [Prompt(line[..|line| - |prefix|] + m + " "), Focus], false)
  {
    LastIndexOfSuffix(line, ParseCommandPrefix(Some(line)).value);
  }

  /** For plain words, a single match replaces the last word. */
  lemma SingleMatchReplacesLastWord(last: Option<string>, lead: string, ws: seq<string>, seps: seq<string>, m: string)
    requires InputParsing.WordLayout(ws, seps) && InputParsing.AllWhitespace(lead)
    ensures var line := lead + InputParsing.Joined(ws, seps);
      var w := ws[|ws| - 1];
      Suggest(last, Some(line), Some([m])).calls == [Prompt(line[..|line| - |w|] + m + " "), Focus]
  {
    var body := InputParsing.Joined(ws, seps);
    var line := lead + body;
    PrefixOfWords(lead, ws, seps);
    var w := ws[|ws| - 1];
    JoinedEndsWithLast(ws, seps);
    assert line[|line| - |w|..] == body[|body| - |w|..];
    SingleMatchCompletes(last, line, m);
  }

  lemma JoinedEndsWithLast(ws: seq<string>, seps: seq<string>)
    requires |ws| > 0 && |seps| == |ws| - 1
    ensures EndsWith(InputParsing.Joined(ws, seps), ws[|ws| - 1])
  {
    if |ws| > 1 {
      var front := InputParsing.Joined(ws[..|ws| - 1], seps[..|seps| - 1]) + seps[|seps| - 1];
      var w := ws[|ws| - 1];
      assert InputParsing.Joined(ws, seps) == front + w;
      assert (front + w)[|front|..] == w;
    }
  }

  /** handleSuggest with several matches, a prefix found in the line and a
      common prefix computed: the candidate list is printed only when nothing
      can be added and the line is the one last suggested for; otherwise the
      bell rings and the extended line is remembered. */
  lemma SuggestMany(last: Option<string>, line: string, ms: seq<string>)
    requires |ms| > 1
    requires var prefix := ParseCommandPrefix(Some(line)).value;
      LastIndexOf(line, prefix) >= 0 && CommonPrefix(prefix, ms).Some?
    ensures var prefix := ParseCommandPrefix(Some(line)).value;
      var common := CommonPrefix(prefix, ms).value;
      var output := line[..LastIndexOf(line, prefix)] + common;
      Suggest(last, Some(line), Some(ms))
        == if prefix == common && last == Some(line)
           then SuggestOutcome(Some(line), [Print(Candidates(ms)), Prompt(output), Focus], false)
           else SuggestOutcome(Some(output), [Bell, Prompt(output), Focus], false)
  {
  }

  /** Several matches that extend the word being completed: the bell rings,
      the longer common prefix is proposed and remembered. */
  lemma NarrowingBells(last: Option<string>, line: string, ms: seq<string>)
    requires |ms| > 1
    requires var prefix := ParseCommandPrefix(Some(line)).value;
      EndsWith(line, prefix) && CommonPrefix(prefix, ms).Some? && CommonPrefix(prefix, ms).value != prefix
    ensures var prefix := ParseCommandPrefix(Some(line)).value;
      var output := line[..|line| - |prefix|] + CommonPrefix(prefix, ms).value;
      Suggest(last, Some(line), Some(ms)) == SuggestOutcome(Some(output), [Bell, Prompt(output), Focus], false)
  {
    LastIndexOfSuffix(line, ParseCommandPrefix(Some(line)).value);
    SuggestMany(last, line, ms);
  }

  /** Several matches with nothing to add, on a line other than the last one
      suggested for: the bell rings and the line is proposed again and remembered. */
  lemma FirstTabBells(last: Option<string>, line: string, ms: seq<string>)
    requires |ms| > 1 && last != Some(line)
    requires var prefix := ParseCommandPrefix(Some(line)).value;
      EndsWith(line, prefix) && CommonPrefix(prefix, ms) == Some(prefix)
    ensures Suggest(last, Some(line), Some(ms)) == SuggestOutcome(Some(line), [Bell, Prompt(line), Focus], false)
  {
    var prefix := ParseCommandPrefix(Some(line)).value;
    LastIndexOfSuffix(line, prefix);
    SuffixSplit(line, prefix);
    SuggestMany(last, line, ms);
  }

  /** Several matches with nothing to add, on the line last suggested for:
      the candidate list is printed and the line proposed again. */
  lemma RepeatTabLists(line: string, ms: seq<string>)
    requires |ms| > 1
    requires var prefix := ParseCommandPrefix(Some(line)).value;
      EndsWith(line, prefix) && CommonPrefix(prefix, ms) == Some(prefix)
    ensures Suggest(Some(line), Some(line), Some(ms))
      == SuggestOutcome(Some(line), [Print(Candidates(ms)), Prompt(line), Focus], false)
  {
    var prefix := ParseCommandPrefix(Some(line)).value;
    LastIndexOfSuffix(line, prefix);
    SuffixSplit(line, prefix);
    SuggestMany(Some(line), line, ms);
  }

  /** The first Tab rings the bell and re-proposes the line; the same Tab
      again prints the candidate list. */
  lemma FirstTabBellsRepeatLists(last: Option<string>, line: string, ms: seq<string>)
    requires |ms| > 1 && last != Some(line)
    requires var prefix := ParseCommandPrefix(Some(line)).value;
      EndsWith(line, prefix) && CommonPrefix(prefix, ms) == Some(prefix)
    ensures var first := Suggest(last, Some(line), Some(ms));
      && first == SuggestOutcome(Some(line), [Bell, Prompt(line), Focus], false)
      && Suggest(first.lastSuggestInput, Some(line), Some(ms))
        == SuggestOutcome(Some(line), [Print(Candidates(ms)), Prompt(line), Focus], false)
  {
    FirstTabBells(last, line, ms);
    RepeatTabLists(line, ms);
  }

  class Console {
    var lastSuggestInput: Option<string>
    /** The calls made on the client so far, oldest first. */
    var calls: seq<ClientCall>

    /** A new console has seen no input and has asked the client to reset. */
    constructor ()
      ensures lastSuggestInput == None && calls == [Reset]
    {
      lastSuggestInput := None;
      calls := [Reset];
    }

    /** handleSuggest(input) with the matches the handler returned for it;
        thrown says that the call ended in an exception. */
    method HandleSuggest(input: Option<string>, matches: Option<seq<string>>) returns (thrown: bool)
      modifies this
      ensures var outcome := Suggest(old(lastSuggestInput), input, matches);
        && lastSuggestInput == outcome.lastSuggestInput
        && calls == old(calls) + outcome.calls
        && thrown == outcome.thrown
    {
      var cancelIfNotASingleMatch := input.Some? && input != lastSuggestInput;
      lastSuggestInput := input;
      if matches.None? || |matches.value| == 0 {
        calls := calls + [Bell];
        return false;
      }
      if input.None? {
        return true;
      }
      var line := input.value;
      var prefix := ParseCommandPrefix(input).value;
      var cut := LastIndexOf(line, prefix);
      if cut < 0 {
        return true;
      }
      var output := line[..cut];
      var ms := matches.value;
      if |ms| == 1 {
        output := output + ms[0] + " ";
      } else {
        var common := BuildCommonPrefix(prefix, ms);
        if common.None? {
          return true;
        }
        output := output + common.value;
        if prefix == common.value && !cancelIfNotASingleMatch {
          var suggestions := ListSuggestions(ms);
          calls := calls + [Print(suggestions)];
          AppendCalls(old(calls), Print(suggestions), Prompt(output), Focus);
        } else {
          calls := calls + [Bell];
          AppendCalls(old(calls), Bell, Prompt(output), Focus);
          lastSuggestInput := Some(output);
        }
      }
      calls := calls + [Prompt(output), Focus];
      thrown := false;
    }
  }

  lemma AppendCalls(log: seq<ClientCall>, a: ClientCall, b: ClientCall, c: ClientCall)
    ensures log + [a] + [b, c] == log + [a, b, c]
  {
  }

  // ---------------------------------------------------------------------
  // The stream behind getPrintStream

  newtype byte = x: int | 0 <= x < 256

  function Flatten(chunks: seq<seq<byte>>): seq<byte> {
    if chunks == [] then [] else Flatten(chunks[..|chunks| - 1]) + chunks[|chunks| - 1]
  }

  /** The anonymous OutputStream of getPrintStream: bytes are buffered and
      handed to print on flush; writing 13 (carriage return) flushes. */
  class ConsoleOutputStream {
    var buffer: seq<byte>
    /** The byte strings handed to Console.print, oldest first. */
    var printed: seq<seq<byte>>
    /** Every byte written so far. */
    ghost var written: seq<byte>

    /** Nothing written is lost or reordered: what was printed, followed by
        what is buffered, is exactly what was written. */
    ghost predicate Valid()
      reads this
    {
      Flatten(printed) + buffer == written
    }

    constructor ()
      ensures Valid() && buffer == [] && printed == [] && written == []
    {
      buffer := [];
      printed := [];
      written := [];
    }

    /** write(b): ByteArrayOutputStream keeps the low eight bits of b; the
        test for 13 is on b itself. */
    method Write(b: int)
      requires Valid()
      modifies this
      ensures Valid()
      ensures written == old(written) + [(b % 256) as byte]
      ensures b == 13 ==> buffer == [] && printed == old(printed) + [old(buffer) + [13]]
      ensures b != 13 ==> buffer == old(buffer) + [(b % 256) as byte] && printed == old(printed)
    {
      buffer := buffer + [(b % 256) as byte];
      written := written + [(b % 256) as byte];
      if b == 13 {
        Flush();
      }
    }

    /** flush(): prints the buffer, even when it is empty, and resets it. */
    method Flush()
      requires Valid()
      modifies this
      ensures Valid()
      ensures buffer == [] && printed == old(printed) + [old(buffer)] && written == old(written)
    {
      assert (printed + [buffer])[..|printed|] == printed;
      printed := printed + [buffer];
      buffer := [];
    }
  }
}
