/**
 * DefaultConsoleHandler.parseInput: the tokenizer that splits a command line
 * into its argument vector. The loop of the source is ParseInput; the state it
 * carries between characters is a Lexer, and Step is one turn of the loop, so
 * that Parse, the specification of ParseInput, can be reasoned about.
 */
module InputParsing {
  import opened JavaStrings

  const ESCAPE_CHAR: char := '\\'
  const STRONG_QUOTE_CHAR: char := '\''
  const WEAK_QUOTE_CHAR: char := '"'
  /** the value 0 of the source's `quote` variable: not inside quotes */
  const NO_QUOTE: char := '\0'

  /** The locals of the loop: tokens emitted so far, the pending token,
      whether a token is open, the open quote character, and a pending backslash. */
  datatype Lexer = Lexer(result: seq<string>, buffer: string, inArg: bool, quote: char, escape: bool)

  const Start: Lexer := Lexer([], "", false, NO_QUOTE, false)

  /** Between tokens, with tokens R emitted. */
  function Idle(R: seq<string>): Lexer {
    Lexer(R, "", false, NO_QUOTE, false)
  }

  /** Inside an unquoted token that has collected w. */
  function InWord(R: seq<string>, w: string): Lexer {
    Lexer(R, w, true, NO_QUOTE, false)
  }

  /** What a backslash followed by c adds inside double quotes. */
  function EscapedInWeakQuote(c: char): string {
    if c == '"' || c == '\\' then [c] else [ESCAPE_CHAR, c]
  }

  /** What a backslash followed by c adds outside double quotes. */
  function EscapedOutside(c: char): string {
    if c == 't' then "\t" else if c == 'r' then "\r" else if c == 'n' then "\n" else [c]
  }

  /** One turn of the loop on character c. */
  function Step(s: Lexer, c: char): Lexer {
    if s.escape then
      var added := if s.quote == WEAK_QUOTE_CHAR then EscapedInWeakQuote(c) else EscapedOutside(c);
      s.(buffer := s.buffer + added, escape := false)
    else if c == ESCAPE_CHAR && s.quote != STRONG_QUOTE_CHAR then
      s.(escape := true)
    else if (c == STRONG_QUOTE_CHAR || c == WEAK_QUOTE_CHAR) && c == s.quote then
      s.(quote := NO_QUOTE, inArg := false, result := s.result + [s.buffer], buffer := "")
    else if (c == STRONG_QUOTE_CHAR || c == WEAK_QUOTE_CHAR) && s.quote == NO_QUOTE then
      s.(quote := c, inArg := true)
    else if s.quote != NO_QUOTE then
      s.(buffer := s.buffer + [c])
    else if IsWhitespace(c) then
      if s.inArg then s.(inArg := false, result := s.result + [s.buffer], buffer := "") else s
    else
      s.(inArg := true, buffer := s.buffer + [c])
  }

  /** The loop run over cs, one character after the other. */
  function Run(s: Lexer, cs: string): Lexer
    decreases |cs|
  {
    if cs == [] then s else Step(Run(s, cs[..|cs| - 1]), cs[|cs| - 1])
  }

  /** After the loop: a pending backslash is kept literally, and an open token is emitted. */
  function Finish(s: Lexer): seq<string> {
    var buffer := if s.escape then s.buffer + [ESCAPE_CHAR] else s.buffer;
    if s.inArg then s.result + [buffer] else s.result
  }

  /** The argument vector parseInput returns. */
  function Parse(input: string): seq<string> {
    Finish(Run(Start, Trim(input)))
  }

  /** parseInput, the character loop of the source. */
  method ParseInput(input: string) returns (result: seq<string>)
    ensures result == Parse(input)
  {
    result := [];
    var buffer := "";
    var inArg := false;
    var quote := NO_QUOTE;
    var escape := false;
    var chars := Trim(input);
    for i := 0 to |chars|
      invariant Lexer(result, buffer, inArg, quote, escape) == Run(Start, chars[..i])
    {
      RunPrefix(Start, chars, i);
      result, buffer, inArg, quote, escape := Consume(result, buffer, inArg, quote, escape, chars[i]);
    }
    assert chars[..|chars|] == chars;
    if escape {
      buffer := buffer + [ESCAPE_CHAR];
    }
    if inArg {
      result := result + [buffer];
    }
  }

  /** The body of the loop of parseInput on character c; each `return` is a
      `continue` of the source. */
  method Consume(result0: seq<string>, buffer0: string, inArg0: bool, quote0: char, escape0: bool, c: char)
    returns (result: seq<string>, buffer: string, inArg: bool, quote: char, escape: bool)
    ensures Lexer(result, buffer, inArg, quote, escape) == Step(Lexer(result0, buffer0, inArg0, quote0, escape0), c)
  {
    result, buffer, inArg, quote, escape := result0, buffer0, inArg0, quote0, escape0;
    if escape {
      if quote == WEAK_QUOTE_CHAR {
        if c == '"' || c == '\\' {
          buffer := buffer + [c];
        } else {
          buffer := buffer + [ESCAPE_CHAR, c];
        }
      } else {
        if c == 't' {
          buffer := buffer + ['\t'];
        } else if c == 'r' {
          buffer := buffer + ['\r'];
        } else if c == 'n' {
          buffer := buffer + ['\n'];
        } else {
          buffer := buffer + [c];
        }
      }
      escape := false;
      return;
    }
    if c == ESCAPE_CHAR && quote != STRONG_QUOTE_CHAR {
      escape := true;
      return;
    }
    if c == STRONG_QUOTE_CHAR || c == WEAK_QUOTE_CHAR {
      if c == quote {
        quote := NO_QUOTE;
        inArg := false;
        result := result + [buffer];
        buffer := "";
        return;
      } else if quote == NO_QUOTE {
        quote := c;
        inArg := true;
        return;
      }
    }
    if quote != NO_QUOTE {
      buffer := buffer + [c];
    } else if IsWhitespace(c) {
      if inArg {
        inArg := false;
        result := result + [buffer];
        buffer := "";
      }
    } else {
      if !inArg {
        inArg := true;
      }
      buffer := buffer + [c];
    }
  }

  // ---------------------------------------------------------------------
  // Running the loop over concatenated text

  lemma RunSnoc(s: Lexer, cs: string, c: char)
    ensures Run(s, cs + [c]) == Step(Run(s, cs), c)
  {
    assert (cs + [c])[..|cs|] == cs;
  }

  /** One more turn of the loop over a prefix of cs. */
  lemma RunPrefix(s: Lexer, cs: string, i: nat)
    requires i < |cs|
    ensures Run(s, cs[..i + 1]) == Step(Run(s, cs[..i]), cs[i])
  {
    assert cs[..i + 1][..i] == cs[..i];
  }

  lemma {:induction false} RunAppend(s: Lexer, a: string, b: string)
    ensures Run(s, a + b) == Run(Run(s, a), b)
    decreases |b|
  {
    if b == [] {
      assert a + b == a;
    } else {
      var b' := b[..|b| - 1];
      assert (a + b)[..|a + b| - 1] == a + b';
      assert (a + b)[|a + b| - 1] == b[|b| - 1];
      RunAppend(s, a, b');
    }
  }

  /** Runs compose: a state reached over a and then over b is the state reached over a + b. */
  lemma RunCompose(s: Lexer, a: string, b: string, mid: Lexer, end: Lexer)
    requires Run(s, a) == mid && Run(mid, b) == end
    ensures Run(s, a + b) == end
  {
    RunAppend(s, a, b);
  }

  lemma RunOne(s: Lexer, c: char)
    ensures Run(s, [c]) == Step(s, c)
  {
    assert [c][..0] == [];
  }

  lemma RunTwo(s: Lexer, c: char, d: char)
    ensures Run(s, [c, d]) == Step(Step(s, c), d)
  {
    assert [c, d][..1] == [c];
    RunOne(s, c);
  }

  // ---------------------------------------------------------------------
  // Blank input

  predicate AllWhitespace(s: string) {
    forall i :: 0 <= i < |s| ==> IsWhitespace(s[i])
  }

  /** Whitespace between tokens is skipped. */
  lemma {:induction false} RunIdleWhitespace(R: seq<string>, w: string)
    requires AllWhitespace(w)
    ensures Run(Idle(R), w) == Idle(R)
    decreases |w|
  {
    if w != [] {
      RunIdleWhitespace(R, w[..|w| - 1]);
    }
  }

  /** Whitespace ends an open unquoted token. */
  lemma RunInWordWhitespace(R: seq<string>, t: string, w: string)
    requires AllWhitespace(w) && w != []
    ensures Run(InWord(R, t), w) == Idle(R + [t])
  {
    assert w == [w[0]] + w[1..];
    RunOne(InWord(R, t), w[0]);
    RunIdleWhitespace(R + [t], w[1..]);
    RunCompose(InWord(R, t), [w[0]], w[1..], Idle(R + [t]), Idle(R + [t]));
  }

  /** An empty line, one of blanks only, or one of whitespace only, has no arguments. */
  lemma ParseBlank(s: string)
    requires (forall i :: 0 <= i < |s| ==> TrimmedAway(s[i])) || AllWhitespace(s)
    ensures Parse(s) == []
  {
    if AllWhitespace(s) {
      TrimChars(s, IsWhitespace);
      RunIdleWhitespace([], Trim(s));
    }
  }

  // ---------------------------------------------------------------------
  // Plain words

  /** A character with no special meaning to the tokenizer or to trim. */
  predicate PlainChar(c: char) {
    !TrimmedAway(c) && !IsWhitespace(c) && c != ESCAPE_CHAR && c != STRONG_QUOTE_CHAR && c != WEAK_QUOTE_CHAR
  }

  predicate PlainWord(w: string) {
    w != [] && forall i :: 0 <= i < |w| ==> PlainChar(w[i])
  }

  lemma {:induction false} RunPlain(s: Lexer, w: string)
    requires s.quote == NO_QUOTE && !s.escape
    requires forall i :: 0 <= i < |w| ==> PlainChar(w[i])
    ensures Run(s, w) == s.(buffer := s.buffer + w, inArg := s.inArg || w != [])
    decreases |w|
  {
    if w == [] {
      assert s.buffer + w == s.buffer;
    } else {
      var w' := w[..|w| - 1];
      RunPlain(s, w');
      assert s.buffer + w' + [w[|w| - 1]] == s.buffer + w;
    }
  }

  /** Words w0, w1, ... with the separators between them: seps[i] stands
      between ws[i] and ws[i + 1]. */
  function Joined(ws: seq<string>, seps: seq<string>): (r: string)
    requires |ws| > 0 && |seps| == |ws| - 1
    ensures ws[0] != [] ==> r != [] && r[0] == ws[0][0]
    ensures ws[|ws| - 1] != [] ==> r != [] && r[|r| - 1] == ws[|ws| - 1][|ws[|ws| - 1]| - 1]
  {
    if |ws| == 1 then ws[0]
    else Joined(ws[..|ws| - 1], seps[..|seps| - 1]) + seps[|seps| - 1] + ws[|ws| - 1]
  }

  predicate WordLayout(ws: seq<string>, seps: seq<string>) {
    && |ws| > 0 && |seps| == |ws| - 1
    && (forall i :: 0 <= i < |ws| ==> PlainWord(ws[i]))
    && (forall i :: 0 <= i < |seps| ==> seps[i] != [] && AllWhitespace(seps[i]))
  }

  lemma {:induction false} RunJoined(R: seq<string>, ws: seq<string>, seps: seq<string>)
    requires WordLayout(ws, seps)
    ensures Run(Idle(R), Joined(ws, seps)) == InWord(R + ws[..|ws| - 1], ws[|ws| - 1])
    decreases |ws|
  {
    var n := |ws|;
    if n == 1 {
      RunPlain(Idle(R), ws[0]);
    } else {
      var ws', seps' := ws[..n - 1], seps[..n - 2];
      var sep, w := seps[n - 2], ws[n - 1];
      var front := Joined(ws', seps');
      JoinedSnoc(ws, seps);
      WordLayoutPrefix(ws, seps);
      RunJoined(R, ws', seps');
      RunWordAfter(Idle(R), front, sep, w, R + ws'[..n - 2], ws'[n - 2]);
      PrefixSnoc(R, ws, n - 1);
    }
  }

  /** After a token, whitespace emits it and the next plain word opens a new one. */
  lemma RunWordAfter(s: Lexer, front: string, sep: string, w: string, done: seq<string>, last: string)
    requires Run(s, front) == InWord(done, last)
    requires AllWhitespace(sep) && sep != [] && PlainWord(w)
    ensures Run(s, front + sep + w) == InWord(done + [last], w)
  {
    RunInWordWhitespace(done, last, sep);
    RunCompose(s, front, sep, InWord(done, last), Idle(done + [last]));
    RunPlain(Idle(done + [last]), w);
    assert "" + w == w;
    RunCompose(s, front + sep, w, Idle(done + [last]), InWord(done + [last], w));
  }

  lemma JoinedSnoc(ws: seq<string>, seps: seq<string>)
    requires |ws| > 1 && |seps| == |ws| - 1
    ensures Joined(ws, seps) == Joined(ws[..|ws| - 1], seps[..|seps| - 1]) + seps[|seps| - 1] + ws[|ws| - 1]
  {
  }

  lemma WordLayoutPrefix(ws: seq<string>, seps: seq<string>)
    requires WordLayout(ws, seps) && |ws| > 1
    ensures WordLayout(ws[..|ws| - 1], seps[..|seps| - 1])
  {
  }

  /** The first k items of ws, after R, followed by item k: the first k + 1 items. */
  lemma PrefixSnoc<T>(R: seq<T>, ws: seq<T>, k: nat)
    requires 0 < k <= |ws|
    ensures R + ws[..k][..k - 1] + [ws[..k][k - 1]] == R + ws[..k]
  {
    assert ws[..k][..k - 1] + [ws[..k][k - 1]] == ws[..k];
  }

  lemma RunLeadJoined(lead: string, ws: seq<string>, seps: seq<string>)
    requires WordLayout(ws, seps) && AllWhitespace(lead)
    ensures Run(Start, lead + Joined(ws, seps)) == InWord(ws[..|ws| - 1], ws[|ws| - 1])
  {
    var n := |ws|;
    RunIdleWhitespace([], lead);
    RunJoined([], ws, seps);
    assert [] + ws[..n - 1] == ws[..n - 1];
    RunCompose(Start, lead, Joined(ws, seps), Start, InWord(ws[..n - 1], ws[n - 1]));
  }

  lemma RunPadded(lead: string, ws: seq<string>, seps: seq<string>, trail: string)
    requires WordLayout(ws, seps) && AllWhitespace(lead) && AllWhitespace(trail)
    ensures Finish(Run(Start, lead + Joined(ws, seps) + trail)) == ws
  {
    var n := |ws|;
    var front := lead + Joined(ws, seps);
    var open := InWord(ws[..n - 1], ws[n - 1]);
    RunLeadJoined(lead, ws, seps);
    SnocLast(ws);
    if trail != [] {
      RunInWordWhitespace(ws[..n - 1], ws[n - 1], trail);
      RunCompose(Start, front, trail, open, Idle(ws));
    } else {
      assert front + trail == front;
    }
  }

  lemma TrimmedPadding(lead: string, trail: string)
    requires AllWhitespace(lead) && AllWhitespace(trail)
    ensures AllWhitespace(TrimStart(lead)) && AllWhitespace(TrimEnd(trail))
  {
    var lead', trail' := TrimStart(lead), TrimEnd(trail);
    forall i | 0 <= i < |lead'| ensures IsWhitespace(lead'[i]) {
      assert lead'[i] == lead[|lead| - |lead'| + i];
    }
    forall i | 0 <= i < |trail'| ensures IsWhitespace(trail'[i]) {
      assert trail'[i] == trail[i];
    }
  }

  /** Parse sees the trimmed line. */
  lemma ParseTrimmed(line: string, trimmed: string)
    requires Trim(line) == trimmed
    ensures Parse(line) == Finish(Run(Start, trimmed))
  {
  }

  /** Words with no quotes, backslashes or whitespace, separated by whitespace
      and surrounded by any whitespace, are returned exactly and in order. */
  lemma ParseWords(lead: string, ws: seq<string>, seps: seq<string>, trail: string)
    requires WordLayout(ws, seps) && AllWhitespace(lead) && AllWhitespace(trail)
    ensures Parse(lead + Joined(ws, seps) + trail) == ws
  {
    var body := Joined(ws, seps);
    assert PlainChar(ws[0][0]) && PlainChar(ws[|ws| - 1][|ws[|ws| - 1]| - 1]);
    TrimAround(lead, body, trail);
    var lead', trail' := TrimStart(lead), TrimEnd(trail);
    TrimmedPadding(lead, trail);
    RunPadded(lead', ws, seps, trail');
    ParseTrimmed(lead + body + trail, lead' + body + trail');
  }

  /** A single plain word parses to itself. */
  lemma ParsePlainWord(w: string)
    requires PlainWord(w)
    ensures Parse(w) == [w]
    ensures Trim(w) == w
  {
    assert !TrimmedAway(w[0]) && !TrimmedAway(w[|w| - 1]);
    ParseWords("", [w], [], "");
    assert "" + Joined([w], []) + "" == w;
  }

  // ---------------------------------------------------------------------
  // Quotes

  /** Inside quote q every character other than q is kept verbatim, as long as
      it is not a backslash that starts an escape (backslashes do not escape
      inside single quotes). */
  lemma {:induction false} RunQuoted(s: Lexer, b: string)
    requires s.quote != NO_QUOTE && !s.escape
    requires forall i :: 0 <= i < |b| ==> b[i] != s.quote
    requires s.quote != STRONG_QUOTE_CHAR ==> forall i :: 0 <= i < |b| ==> b[i] != ESCAPE_CHAR
    ensures Run(s, b) == s.(buffer := s.buffer + b)
    decreases |b|
  {
    if b == [] {
      assert s.buffer + b == s.buffer;
    } else {
      var b' := b[..|b| - 1];
      RunQuoted(s, b');
      assert s.buffer + b' + [b[|b| - 1]] == s.buffer + b;
    }
  }

  /** A quoted run: the opening quote joins the pending unquoted text, the
      content is kept verbatim, and the closing quote emits the token, even an
      empty one. */
  lemma QuotedRun(R: seq<string>, pending: string, inArg: bool, q: char, b: string)
    requires q == STRONG_QUOTE_CHAR || q == WEAK_QUOTE_CHAR
    requires forall i :: 0 <= i < |b| ==> b[i] != q
    requires q == WEAK_QUOTE_CHAR ==> forall i :: 0 <= i < |b| ==> b[i] != ESCAPE_CHAR
    ensures Run(Lexer(R, pending, inArg, NO_QUOTE, false), [q] + b + [q]) == Idle(R + [pending + b])
  {
    var s := Lexer(R, pending, inArg, NO_QUOTE, false);
    var open := s.(quote := q, inArg := true);
    var full := open.(buffer := pending + b);
    RunOne(s, q);
    RunQuoted(open, b);
    RunCompose(s, [q], b, open, full);
    RunOne(full, q);
    RunCompose(s, [q] + b, [q], full, Idle(R + [pending + b]));
  }

  /** '...' yields its content verbatim (backslashes and double quotes
      included); '' yields the empty argument. */
  lemma ParseStrongQuoted(b: string)
    requires forall i :: 0 <= i < |b| ==> b[i] != STRONG_QUOTE_CHAR
    ensures Parse([STRONG_QUOTE_CHAR] + b + [STRONG_QUOTE_CHAR]) == [b]
  {
    var line := [STRONG_QUOTE_CHAR] + b + [STRONG_QUOTE_CHAR];
    assert line[0] == STRONG_QUOTE_CHAR && line[|line| - 1] == STRONG_QUOTE_CHAR;
    QuotedRun([], "", false, STRONG_QUOTE_CHAR, b);
    assert "" + b == b;
    ParseTrimmed(line, line);
  }

  /** An unterminated quote still emits what it collected. */
  lemma ParseUnterminated(q: char, b: string)
    requires q == STRONG_QUOTE_CHAR || q == WEAK_QUOTE_CHAR
    requires forall i :: 0 <= i < |b| ==> b[i] != q
    requires q == WEAK_QUOTE_CHAR ==> forall i :: 0 <= i < |b| ==> b[i] != ESCAPE_CHAR
    requires b != [] ==> !TrimmedAway(b[|b| - 1])
    ensures Parse([q] + b) == [b]
  {
    var line := [q] + b;
    UnterminatedRun(q, b);
    assert line[0] == q;
    assert line[|line| - 1] == if b == [] then q else b[|b| - 1];
    ParseTrimmed(line, line);
  }

  lemma UnterminatedRun(q: char, b: string)
    requires q == STRONG_QUOTE_CHAR || q == WEAK_QUOTE_CHAR
    requires forall i :: 0 <= i < |b| ==> b[i] != q
    requires q == WEAK_QUOTE_CHAR ==> forall i :: 0 <= i < |b| ==> b[i] != ESCAPE_CHAR
    ensures Run(Start, [q] + b) == Lexer([], b, true, q, false)
  {
    var open := Lexer([], "", true, q, false);
    RunOne(Start, q);
    RunQuoted(open, b);
    assert "" + b == b;
    RunCompose(Start, [q], b, open, open.(buffer := b));
  }

  // ---------------------------------------------------------------------
  // Escapes

  /** Inside double quotes, \" and \\ yield " and \; any other \x keeps the backslash. */
  lemma WeakQuoteEscape(s: Lexer, x: char)
    requires s.quote == WEAK_QUOTE_CHAR && !s.escape
    ensures Run(s, [ESCAPE_CHAR, x]) == s.(buffer := s.buffer + EscapedInWeakQuote(x))
    ensures EscapedInWeakQuote(x) == if x == '"' || x == '\\' then [x] else ['\\', x]
  {
    RunTwo(s, ESCAPE_CHAR, x);
  }

  /** Outside quotes, \t, \r and \n become TAB, CR and LF, and any other \x
      yields x; the escaped character joins the pending text but does not by
      itself open a token. */
  lemma UnquotedEscape(s: Lexer, x: char)
    requires s.quote == NO_QUOTE && !s.escape
    ensures Run(s, [ESCAPE_CHAR, x]) == s.(buffer := s.buffer + EscapedOutside(x))
    ensures EscapedOutside(x) == if x == 't' then "\t" else if x == 'r' then "\r" else if x == 'n' then "\n" else [x]
  {
    RunTwo(s, ESCAPE_CHAR, x);
  }

  /** Inside single quotes a backslash is an ordinary character. */
  lemma StrongQuoteBackslash(s: Lexer)
    requires s.quote == STRONG_QUOTE_CHAR && !s.escape
    ensures Run(s, [ESCAPE_CHAR]) == s.(buffer := s.buffer + [ESCAPE_CHAR])
  {
    RunOne(s, ESCAPE_CHAR);
  }

  /** A backslash ending a word is kept in that word's argument. */
  lemma TrailingBackslash(w: string)
    requires PlainWord(w)
    ensures Parse(w + [ESCAPE_CHAR]) == [w + [ESCAPE_CHAR]]
  {
    var line := w + [ESCAPE_CHAR];
    var word := InWord([], w);
    RunPlain(Start, w);
    assert "" + w == w;
    RunOne(word, ESCAPE_CHAR);
    RunCompose(Start, w, [ESCAPE_CHAR], word, word.(escape := true));
    assert line[0] == w[0] && line[|line| - 1] == ESCAPE_CHAR;
    ParseTrimmed(line, line);
  }

  /** A backslash ending the line outside any word is dropped: escape is set
      but no word is open, so nothing is emitted. */
  lemma TrailingBackslashDropped(w: string)
    requires PlainWord(w)
    ensures Parse(w + [' ', ESCAPE_CHAR]) == [w]
    ensures Parse([ESCAPE_CHAR]) == []
  {
    var line := w + [' ', ESCAPE_CHAR];
    var word := InWord([], w);
    RunPlain(Start, w);
    assert "" + w == w;
    RunTwo(word, ' ', ESCAPE_CHAR);
    RunCompose(Start, w, [' ', ESCAPE_CHAR], word, Idle([w]).(escape := true));
    assert line[0] == w[0] && line[|line| - 1] == ESCAPE_CHAR;
    ParseTrimmed(line, line);
    RunOne(Start, ESCAPE_CHAR);
    ParseTrimmed([ESCAPE_CHAR], [ESCAPE_CHAR]);
  }

  // ---------------------------------------------------------------------
  // Quoting round trip: any argument survives double quoting

  function EscapeForWeakQuote(c: char): string {
    if c == WEAK_QUOTE_CHAR || c == ESCAPE_CHAR then [ESCAPE_CHAR, c] else [c]
  }

  /** The text between double quotes that reads back as t. */
  function EscapeAll(t: string): string
    decreases |t|
  {
    if t == [] then [] else EscapeAll(t[..|t| - 1]) + EscapeForWeakQuote(t[|t| - 1])
  }

  function Quote(t: string): string {
    [WEAK_QUOTE_CHAR] + EscapeAll(t) + [WEAK_QUOTE_CHAR]
  }

  /** A command line holding the arguments ts, each double quoted, separated by spaces. */
  function QuoteAll(ts: seq<string>): (line: string)
    ensures ts != [] ==> |line| >= 2 && line[0] == WEAK_QUOTE_CHAR && line[|line| - 1] == WEAK_QUOTE_CHAR
  {
    if ts == [] then ""
    else if |ts| == 1 then Quote(ts[0])
    else QuoteAll(ts[..|ts| - 1]) + " " + Quote(ts[|ts| - 1])
  }

  lemma {:induction false} RunEscaped(s: Lexer, t: string)
    requires s.quote == WEAK_QUOTE_CHAR && !s.escape
    ensures Run(s, EscapeAll(t)) == s.(buffer := s.buffer + t)
    decreases |t|
  {
    if t == [] {
      assert s.buffer + t == s.buffer;
    } else {
      var t', c := t[..|t| - 1], t[|t| - 1];
      var mid := s.(buffer := s.buffer + t');
      var end := s.(buffer := s.buffer + t);
      assert s.buffer + t' + [c] == s.buffer + t;
      RunEscaped(s, t');
      if c == WEAK_QUOTE_CHAR || c == ESCAPE_CHAR {
        RunTwo(mid, ESCAPE_CHAR, c);
      } else {
        RunOne(mid, c);
      }
      RunCompose(s, EscapeAll(t'), EscapeForWeakQuote(c), mid, end);
    }
  }

  lemma RunQuote(R: seq<string>, t: string)
    ensures Run(Idle(R), Quote(t)) == Idle(R + [t])
  {
    var s := Idle(R);
    var open := s.(quote := WEAK_QUOTE_CHAR, inArg := true);
    var full := open.(buffer := t);
    RunOne(s, WEAK_QUOTE_CHAR);
    RunEscaped(open, t);
    assert "" + t == t;
    RunCompose(s, [WEAK_QUOTE_CHAR], EscapeAll(t), open, full);
    RunOne(full, WEAK_QUOTE_CHAR);
    RunCompose(s, [WEAK_QUOTE_CHAR] + EscapeAll(t), [WEAK_QUOTE_CHAR], full, Idle(R + [t]));
  }

  lemma IdleSpace(R: seq<string>)
    ensures Run(Idle(R), " ") == Idle(R)
  {
    RunOne(Idle(R), ' ');
  }

  lemma {:induction false} RunQuoteAll(R: seq<string>, ts: seq<string>)
    ensures Run(Idle(R), QuoteAll(ts)) == Idle(R + ts)
    decreases |ts|
  {
    if ts == [] {
      assert R + ts == R;
    } else if |ts| == 1 {
      RunQuote(R, ts[0]);
      assert R + [ts[0]] == R + ts;
    } else {
      var ts', t := ts[..|ts| - 1], ts[|ts| - 1];
      var front, q := QuoteAll(ts'), Quote(t);
      QuoteAllSnoc(ts);
      RunQuoteAll(R, ts');
      IdleSpace(R + ts');
      RunCompose(Idle(R), front, " ", Idle(R + ts'), Idle(R + ts'));
      RunQuote(R + ts', t);
      RunCompose(Idle(R), front + " ", q, Idle(R + ts'), Idle(R + ts' + [t]));
      AppendLast(R, ts);
    }
  }

  lemma QuoteAllSnoc(ts: seq<string>)
    requires |ts| > 1
    ensures QuoteAll(ts) == QuoteAll(ts[..|ts| - 1]) + " " + Quote(ts[|ts| - 1])
  {
  }

  lemma SnocLast<T>(ts: seq<T>)
    requires ts != []
    ensures ts[..|ts| - 1] + [ts[|ts| - 1]] == ts
  {
  }

  lemma AppendLast<T>(R: seq<T>, ts: seq<T>)
    requires ts != []
    ensures R + ts[..|ts| - 1] + [ts[|ts| - 1]] == R + ts
  {
    SnocLast(ts);
  }

  /** Any argument vector, each argument double quoted with " and \ escaped,
      parses back to itself. */
  lemma ParseQuoteAll(ts: seq<string>)
    ensures Parse(QuoteAll(ts)) == ts
  {
    RunQuoteAll([], ts);
    assert [] + ts == ts;
    ParseTrimmed(QuoteAll(ts), QuoteAll(ts));
  }

  // ---------------------------------------------------------------------
  // Behaviour as written

  /** An escaped first character does not open a token: "\a" alone yields no
      argument, and "\a b" yields the single argument "ab". */
  lemma EscapeDoesNotOpenToken()
    ensures Parse("\\a") == []
    ensures Parse("\\a b") == ["ab"]
  {
    var pending := Start.(buffer := "a");
    RunTwo(Start, '\\', 'a');
    assert Run(Start, "\\a") == pending;
    ParseTrimmed("\\a", "\\a");
    RunTwo(pending, ' ', 'b');
    assert "\\a b" == "\\a" + " b";
    RunCompose(Start, "\\a", " b", pending, InWord([], "ab"));
    ParseTrimmed("\\a b", "\\a b");
  }
}
