/**
 * The client-side TextConsole widget: the key-to-action dispatch, the
 * modifier bitmask sent with control keys, the click-versus-drag filter for
 * mouse clicks, the scroll-lock sampling rule and a few clamps. DOM values the
 * widget reads (scroll offsets, measured sizes, mouse coordinates) are
 * parameters; what it does to the DOM is a result.
 */
module TextConsoleWidget {
  import opened Wrappers
  import opened JavaStrings

  // ---------------------------------------------------------------------
  // Java int arithmetic

  newtype int32 = x: int | -0x8000_0000 <= x < 0x8000_0000

  /** Two's-complement wrap-around of an int result. */
  function Wrap(v: int): (r: int32)
    ensures -0x8000_0000 <= v < 0x8000_0000 ==> r as int == v
    ensures (r as int - v) % 0x1_0000_0000 == 0
  {
    (((v + 0x8000_0000) % 0x1_0000_0000) - 0x8000_0000) as int32
  }

  // ---------------------------------------------------------------------
  // Key dispatch

  /** TextConsoleHandler's modifier bits. */
  const CTRL: bv8 := 1
  const SHIFT: bv8 := 2
  const ALT: bv8 := 4
  const META: bv8 := 8

  const SPECIAL_KEYS: set<string> := {
    "Esc", "Escape", "F1", "F2", "F3", "F4", "F5", "F6", "F7", "F8", "F9", "F10",
    "F11", "F12", "F13", "F14", "F15", "F16", "F17", "F18", "F19"
  }

  /** The keys with a meaning of their own while Ctrl is held. */
  const CTRL_KEYS: set<string> := {"a", "e", "h", "?", "g", "m", "j", "k", "l", "i", "["}

  /** What a key press makes the widget do. */
  datatype KeyAction =
    | MoveCursor(position: nat)
    | RingBell
    | Submit(line: string)
    | ClearBuffer
    | InsertTab
    | SendControlChar(key: string, modifiers: int)
    | HistoryBack
    | HistoryForward
    | RequestSuggestions(line: string)
    | NoAction

  datatype KeyReaction = KeyReaction(action: KeyAction, preventDefault: bool)

  /** The modifier mask built with |= from the held modifiers. */
  function ModifierMask(shift: bool, ctrl: bool, alt: bool, meta: bool): (mask: int)
    ensures 0 <= mask < 16
    ensures HasBit(mask, SHIFT) == shift && HasBit(mask, CTRL) == ctrl
    ensures HasBit(mask, ALT) == alt && HasBit(mask, META) == meta
  {
    var m0: bv8 := 0;
    var m1 := if shift then m0 | SHIFT else m0;
    var m2 := if ctrl then m1 | CTRL else m1;
    var m3 := if alt then m2 | ALT else m2;
    var m4 := if meta then m3 | META else m3;
    m4 as int
  }

  /** Bit b of mask, read arithmetically. */
  predicate HasBit(mask: int, b: bv8)
    requires b == CTRL || b == SHIFT || b == ALT || b == META
  {
    (mask / b as int) % 2 == 1
  }

  /** The masks for different modifier combinations differ. */
  lemma ModifierMaskInjective(s1: bool, c1: bool, a1: bool, m1: bool, s2: bool, c2: bool, a2: bool, m2: bool)
    requires ModifierMask(s1, c1, a1, m1) == ModifierMask(s2, c2, a2, m2)
    ensures s1 == s2 && c1 == c2 && a1 == a2 && m1 == m2
  {
  }

  /** The Ctrl-held keys of CTRL_KEYS. */
  function CtrlKeyDown(key: string, input: string): KeyReaction
    requires key in CTRL_KEYS
  {
    if key == "a" then KeyReaction(MoveCursor(0), true)
    else if key == "e" then KeyReaction(MoveCursor(|input|), true)
    else if key == "h" || key == "?" || key == "g" then KeyReaction(RingBell, false)
    else if key == "m" || key == "j" || key == "k" then KeyReaction(Submit(input), false)
    else if key == "l" then KeyReaction(ClearBuffer, false)
    else if key == "i" then KeyReaction(InsertTab, false)
    else KeyReaction(SendControlChar("Escape", 0), false)
  }

  /** The switch every key reaches unless Ctrl handled it. */
  function PlainKeyDown(key: string, modifiers: int, input: string): KeyReaction {
    if key == "Enter" then KeyReaction(Submit(input), true)
    else if key == "Up" || key == "ArrowUp" then KeyReaction(HistoryBack, true)
    else if key == "Down" || key == "ArrowDown" then KeyReaction(HistoryForward, true)
    else if key == "Tab" then KeyReaction(RequestSuggestions(input), true)
    else if key == "Backspace" then KeyReaction(if input == [] then RingBell else NoAction, false)
    else if key in SPECIAL_KEYS then KeyReaction(SendControlChar(key, modifiers), true)
    else KeyReaction(NoAction, false)
  }

  /** KeyHandler.onKeyDown, given the key, the modifiers and the current input. */
  function OnKeyDown(key: string, ctrl: bool, alt: bool, shift: bool, meta: bool, input: string): KeyReaction {
    if ctrl && key in CTRL_KEYS then CtrlKeyDown(key, input)
    else PlainKeyDown(key, ModifierMask(shift, ctrl, alt, meta), input)
  }

  /** The special keys are names of two or more characters starting with E
      or F, so none is a Ctrl key or one of the keys handled before them. */
  lemma SpecialKeysApart(key: string)
    requires key in SPECIAL_KEYS
    ensures key !in CTRL_KEYS
    ensures key != "Enter" && key != "Up" && key != "ArrowUp" && key != "Down"
    ensures key != "ArrowDown" && key != "Tab" && key != "Backspace"
  {
    assert |key| >= 2 && (key[0] == 'E' || key[0] == 'F');
    assert |key| == 2 ==> key[0] == 'F';
    assert |key| == 3 ==> key[1] != 'a';
  }

  /** The bell rings for Ctrl+H, Ctrl+? and Ctrl+G, and for Backspace on an empty input. */
  lemma BellKeys(key: string, ctrl: bool, alt: bool, shift: bool, meta: bool, input: string)
    ensures OnKeyDown(key, ctrl, alt, shift, meta, input).action == RingBell
      <==> (ctrl && (key == "h" || key == "?" || key == "g")) || (key == "Backspace" && input == [])
  {
    assert "Backspace" !in CTRL_KEYS;
  }

  /** The line is submitted by Enter and by Ctrl+M, Ctrl+J and Ctrl+K. */
  lemma SubmitKeys(key: string, ctrl: bool, alt: bool, shift: bool, meta: bool, input: string)
    ensures OnKeyDown(key, ctrl, alt, shift, meta, input).action == Submit(input)
      <==> key == "Enter" || (ctrl && (key == "m" || key == "j" || key == "k"))
  {
    assert "Enter" !in CTRL_KEYS;
  }

  /** Up/ArrowUp and Down/ArrowDown browse the history, whatever the modifiers. */
  lemma HistoryKeys(key: string, ctrl: bool, alt: bool, shift: bool, meta: bool, input: string)
    ensures OnKeyDown(key, ctrl, alt, shift, meta, input).action == HistoryBack <==> key == "Up" || key == "ArrowUp"
    ensures OnKeyDown(key, ctrl, alt, shift, meta, input).action == HistoryForward <==> key == "Down" || key == "ArrowDown"
  {
    if ctrl && key in CTRL_KEYS {
      assert |key| == 1;
    }
  }

  /** Control characters go to the server for the special keys, with the
      modifier mask, and for Ctrl+[ as "Escape" with no modifiers; the mask
      is always within 0..15. */
  lemma ControlCharKeys(key: string, ctrl: bool, alt: bool, shift: bool, meta: bool, input: string)
    ensures var r := OnKeyDown(key, ctrl, alt, shift, meta, input);
      && (r.action.SendControlChar? <==> (ctrl && key == "[") || key in SPECIAL_KEYS)
      && (r.action.SendControlChar? ==> 0 <= r.action.modifiers < 16)
      && (key in SPECIAL_KEYS ==> r == KeyReaction(SendControlChar(key, ModifierMask(shift, ctrl, alt, meta)), true))
      && (ctrl && key == "[" ==> r == KeyReaction(SendControlChar("Escape", 0), false))
  {
    if key in SPECIAL_KEYS {
      SpecialKeysApart(key);
    }
  }

  /** A Ctrl combination with no meaning of its own behaves like the plain key
      (only the modifier mask sent with a special key records the Ctrl). */
  lemma CtrlFallsThrough(key: string, alt: bool, shift: bool, meta: bool, input: string)
    requires key !in CTRL_KEYS && key !in SPECIAL_KEYS
    ensures OnKeyDown(key, true, alt, shift, meta, input) == OnKeyDown(key, false, alt, shift, meta, input)
  {
  }

  // ---------------------------------------------------------------------
  // Small clamps

  /** isSameClass: class names compared with null read as "". */
  function IsSameClass(class1: Option<string>, class2: Option<string>): (same: bool)
    ensures class1.None? && class2.None? ==> same
    ensures class1.None? && class2.Some? ==> (same <==> class2.value == "")
    ensures class1.Some? && class2.Some? ==> (same <==> class1.value == class2.value)
  {
    var c1 := if class1.Some? then class1.value else "";
    var c2 := if class2.Some? then class2.value else "";
    c1 == c2
  }

  lemma IsSameClassSymmetric(class1: Option<string>, class2: Option<string>)
    ensures IsSameClass(class1, class2) == IsSameClass(class2, class1)
  {
  }

  predicate FontInRange(v: int) {
    0 < v <= 100
  }

  /** A font dimension from the measured client and offset sizes: the client
      size if plausible, else the offset size if plausible, else 1. */
  function FontDimension(client: int, offset: int): (r: int)
    ensures 1 <= r <= 100
    ensures FontInRange(client) ==> r == client
    ensures !FontInRange(client) && FontInRange(offset) ==> r == offset
    ensures !FontInRange(client) && !FontInRange(offset) ==> r == 1
  {
    var v := client;
    var v := if v <= 0 || v > 100 then offset else v;
    if v <= 0 || v > 100 then 1 else v
  }

  /** printWithClass replaces every tab with DEFAULT_TABS (four spaces). */
  function ExpandTabs(s: string): (r: string)
    ensures '\t' !in r
    ensures |r| == |s| + 3 * multiset(s)['\t']
  {
    if s == [] then []
    else
      assert s == [s[0]] + s[1..];
      (if s[0] == '\t' then "    " else [s[0]]) + ExpandTabs(s[1..])
  }

  const DEFAULT_TABS: string := "    "

  /** Text without tabs is printed as it is. */
  lemma {:induction false} ExpandTabsNoTabs(s: string)
    requires '\t' !in s
    ensures ExpandTabs(s) == s
  {
    if s != [] {
      assert '\t' !in s[1..] by {
        assert forall k :: 0 <= k < |s[1..]| ==> s[1..][k] == s[k + 1];
      }
      ExpandTabsNoTabs(s[1..]);
    }
  }

  // ---------------------------------------------------------------------
  // The widget

  const BIG_NUMBER: int := 100000

  class TextConsole {
    var input: string
    var scrollLock: bool
    var scrolledToEnd: bool
    var isCheckedScrollState: bool
    var maxBufferSize: int
    var fontW: int
    var fontH: int
    /** How many times beforeChangeTerminal has read the scroll position
        since the last scrollToEnd. */
    ghost var samples: nat

    /** The scroll position is sampled at most once between two scrollToEnd
        calls, and exactly when isCheckedScrollState is set. */
    ghost predicate Valid()
      reads this
    {
      samples == if isCheckedScrollState then 1 else 0
    }

    /** A new widget, with the font measured once. */
    constructor (clientW: int, clientH: int, offsetW: int, offsetH: int)
      ensures Valid()
      ensures input == "" && !scrollLock && scrolledToEnd && !isCheckedScrollState && maxBufferSize == 0
      ensures fontW == FontDimension(clientW, offsetW) && fontH == FontDimension(clientH, offsetH)
    {
      input := "";
      scrollLock := false;
      scrolledToEnd := true;
      isCheckedScrollState := false;
      maxBufferSize := 0;
      samples := 0;
      fontW := FontDimension(clientW, offsetW);
      fontH := FontDimension(clientH, offsetH);
    }

    method SetInput(inputText: Option<string>)
      modifies this`input
      ensures input == if inputText.Some? then inputText.value else ""
    {
      if inputText.Some? {
        input := inputText.value;
      } else {
        input := "";
      }
    }

    /** tab(): appends exactly one tab character to the input. */
    method Tab()
      modifies this`input
      ensures input == old(input) + "\t"
    {
      SetInput(Some(input + "\t"));
    }

    method SetScrollLock(scrollLock: bool)
      modifies this`scrollLock
      ensures this.scrollLock == scrollLock
    {
      this.scrollLock := scrollLock;
    }

    /** Clamps negative sizes to 0 (the trimming of the buffer that follows
        depends on measured heights). */
    method SetMaxBufferSize(maxBuffer: int)
      modifies this`maxBufferSize
      ensures maxBufferSize >= 0
      ensures maxBuffer > 0 ==> maxBufferSize == maxBuffer
      ensures maxBuffer <= 0 ==> maxBufferSize == 0
    {
      maxBufferSize := if maxBuffer > 0 then maxBuffer else 0;
    }

    /** updateFontDimensions, given the test element's measured sizes. */
    method UpdateFontDimensions(clientW: int, clientH: int, offsetW: int, offsetH: int)
      modifies this`fontW, this`fontH
      ensures 1 <= fontW <= 100 && 1 <= fontH <= 100
      ensures fontW == FontDimension(clientW, offsetW) && fontH == FontDimension(clientH, offsetH)
    {
      fontW := clientW;
      fontH := clientH;
      if fontW <= 0 || fontW > 100 {
        fontW := offsetW;
      }
      if fontH <= 0 || fontH > 100 {
        fontH := offsetH;
      }
      if fontW <= 0 || fontW > 100 {
        fontW := 1;
      }
      if fontH <= 0 || fontH > 100 {
        fontH := 1;
      }
    }

    /** scrollToEnd: says whether the terminal is scrolled to BIG_NUMBER. */
    method ScrollToEnd() returns (scrolled: bool)
      requires Valid()
      modifies this`isCheckedScrollState, this`samples
      ensures Valid()
      ensures scrolled <==> !scrollLock || scrolledToEnd
      ensures !isCheckedScrollState
    {
      scrolled := !scrollLock || scrolledToEnd;
      isCheckedScrollState := false;
      samples := 0;
    }

    /** beforeChangeTerminal, given the terminal's scroll measurements: the
        position is read only if it was not read since the last scrollToEnd. */
    method BeforeChangeTerminal(scrollTop: int, scrollHeight: int, clientHeight: int)
      requires Valid()
      modifies this`scrolledToEnd, this`isCheckedScrollState, this`samples
      ensures Valid() && isCheckedScrollState
      ensures old(isCheckedScrollState) ==> scrolledToEnd == old(scrolledToEnd) && samples == old(samples)
      ensures !old(isCheckedScrollState) ==> scrolledToEnd == (scrollTop >= scrollHeight - clientHeight)
    {
      if !isCheckedScrollState {
        scrolledToEnd := scrollTop >= scrollHeight - clientHeight;
        isCheckedScrollState := true;
        samples := samples + 1;
      }
    }

    /** The scroll handling of printWithClass around appending the text
        (tabs expanded) to the buffer; null text changes nothing. */
    method PrintWithClass(text: Option<string>, scrollTop: int, scrollHeight: int, clientHeight: int)
      returns (appended: string, scrolled: bool)
      requires Valid()
      modifies this`scrolledToEnd, this`isCheckedScrollState, this`samples
      ensures Valid()
      ensures text.None? ==>
        (appended == [] && !scrolled && scrolledToEnd == old(scrolledToEnd) && isCheckedScrollState == old(isCheckedScrollState))
      ensures text.Some? ==> appended == ExpandTabs(text.value) && !isCheckedScrollState
      ensures text.Some? ==> (scrolled <==> !scrollLock || scrolledToEnd)
      ensures text.Some? && !old(isCheckedScrollState) ==> scrolledToEnd == (scrollTop >= scrollHeight - clientHeight)
    {
      if text.None? {
        return [], false;
      }
      BeforeChangeTerminal(scrollTop, scrollHeight, clientHeight);
      appended := ExpandTabs(text.value);
      scrolled := ScrollToEnd();
    }

    /** The scroll handling of newLine around appending a line break. */
    method NewLine(scrollTop: int, scrollHeight: int, clientHeight: int) returns (scrolled: bool)
      requires Valid()
      modifies this`scrolledToEnd, this`isCheckedScrollState, this`samples
      ensures Valid() && !isCheckedScrollState
      ensures scrolled <==> !scrollLock || scrolledToEnd
      ensures !old(isCheckedScrollState) ==> scrolledToEnd == (scrollTop >= scrollHeight - clientHeight)
    {
      BeforeChangeTerminal(scrollTop, scrollHeight, clientHeight);
      scrolled := ScrollToEnd();
    }

    /** KeyHandler.onKeyDown: the reaction, with Ctrl+I's tab applied to the input. */
    method KeyDown(key: string, ctrl: bool, alt: bool, shift: bool, meta: bool) returns (reaction: KeyReaction)
      modifies this`input
      ensures reaction == OnKeyDown(key, ctrl, alt, shift, meta, old(input))
      ensures input == if reaction.action == InsertTab then old(input) + "\t" else old(input)
    {
      reaction := OnKeyDown(key, ctrl, alt, shift, meta, input);
      if reaction.action == InsertTab {
        Tab();
      }
    }
  }

  /** Printing twice with scroll lock on: the second print follows the first
      one's sample, since scrollToEnd re-arms sampling in between. */
  method PrintTwiceWithScrollLock(top1: int, top2: int, scrollHeight: int, clientHeight: int)
    returns (scrolled1: bool, scrolled2: bool)
    ensures scrolled1 <==> top1 >= scrollHeight - clientHeight
    ensures scrolled2 <==> top2 >= scrollHeight - clientHeight
  {
    var console := new TextConsole(8, 16, 8, 16);
    console.SetScrollLock(true);
    var appended;
    appended, scrolled1 := console.PrintWithClass(Some("a"), top1, scrollHeight, clientHeight);
    appended, scrolled2 := console.PrintWithClass(Some("b"), top2, scrollHeight, clientHeight);
  }

  // ---------------------------------------------------------------------
  // Click versus drag

  /** GWT's NativeEvent.BUTTON_LEFT */
  const BUTTON_LEFT: int := 1

  /** The squared distance of a move from the press point, in Java int
      arithmetic (each subtraction, product and the sum wrap around). */
  function DistSquared(x: int32, y: int32, downX: int32, downY: int32): int32 {
    var dx := Wrap(x as int - downX as int);
    var dy := Wrap(y as int - downY as int);
    Wrap(Wrap(dx as int * dx as int) as int + Wrap(dy as int * dy as int) as int)
  }

  lemma SquareBound(d: int)
    requires -32767 <= d <= 32767
    ensures 0 <= d * d <= 32767 * 32767
  {
    var a := if d < 0 then -d else d;
    assert d * d == a * a;
    MulMonotone(a, a, 32767);
    MulMonotone(32767, a, 32767);
  }

  lemma MulMonotone(a: int, b: int, c: int)
    requires 0 <= a && 0 <= b <= c
    ensures 0 <= a * b <= a * c
  {
    assert a * c - a * b == a * (c - b);
  }

  /** For moves of at most 32767 pixels in each direction nothing wraps and
      the squared distance is the geometric one. */
  lemma DistSquaredExact(x: int32, y: int32, downX: int32, downY: int32)
    requires -32767 <= x as int - downX as int <= 32767 && -32767 <= y as int - downY as int <= 32767
    ensures DistSquared(x, y, downX, downY) as int
      == (x as int - downX as int) * (x as int - downX as int) + (y as int - downY as int) * (y as int - downY as int)
  {
    var dx := x as int - downX as int;
    var dy := y as int - downY as int;
    SquareBound(dx);
    SquareBound(dy);
  }

  /** A move of 65536 pixels squares to 2^32, which wraps to 0 and passes for
      no movement. */
  lemma DistSquaredWraps()
    ensures DistSquared(65536, 0, 0, 0) == 0
  {
    var dx := Wrap(65536 - 0);
    var dy := Wrap(0 - 0);
    assert dx == 65536 && dy == 0;
    assert dx as int * dx as int == 0x1_0000_0000;
    assert Wrap(0x1_0000_0000) == 0;
    assert Wrap(dy as int * dy as int) == 0;
    assert Wrap(0 + 0) == 0;
  }

  class MouseClickHandler {
    const mouseButton: int
    const distThreshold: int32
    var down: bool
    var ignoreClick: bool
    var downX: int32
    var downY: int32

    constructor ()
      ensures mouseButton == BUTTON_LEFT && distThreshold == 3 * 3
      ensures !down && !ignoreClick && downX == 0 && downY == 0
    {
      mouseButton := BUTTON_LEFT;
      distThreshold := 3 * 3;
      down := false;
      ignoreClick := false;
      downX := 0;
      downY := 0;
    }

    /** Says whether the click is passed on to the delegate. */
    method OnClick(button: int) returns (forward: bool)
      ensures forward <==> button == mouseButton && !ignoreClick
    {
      if button != mouseButton {
        return false;
      }
      if ignoreClick {
        return false;
      }
      forward := true;
    }

    method OnMouseDown(button: int, clientX: int32, clientY: int32)
      modifies this
      ensures button != mouseButton ==> down == old(down) && ignoreClick == old(ignoreClick) && downX == old(downX) && downY == old(downY)
      ensures button == mouseButton ==> down && !ignoreClick && downX == clientX && downY == clientY
    {
      if button != mouseButton {
        return;
      }
      down := true;
      ignoreClick := false;
      downX := clientX;
      downY := clientY;
    }

    method OnMouseUp(button: int)
      modifies this`down
      ensures down == (old(down) && button != mouseButton)
    {
      if button != mouseButton {
        return;
      }
      down := false;
    }

    method OnMouseMove(clientX: int32, clientY: int32)
      modifies this`ignoreClick
      ensures !down ==> ignoreClick == old(ignoreClick)
      ensures down ==> ignoreClick == (old(ignoreClick) || DistSquared(clientX, clientY, downX, downY) > distThreshold)
    {
      if !down {
        return;
      }
      var distSquared := DistSquared(clientX, clientY, downX, downY);
      if distSquared > distThreshold {
        ignoreClick := true;
      }
    }

    method OnMouseOut()
      modifies this`ignoreClick
      ensures ignoreClick == (old(ignoreClick) || down)
    {
      if down {
        ignoreClick := true;
      }
    }
  }

  /** Press, move beyond three pixels, release, click: the click is dropped
      (the user was selecting text). */
  method DragSuppressesClick(x0: int32, y0: int32, x1: int32, y1: int32) returns (forwarded: bool)
    requires -32767 <= x1 as int - x0 as int <= 32767 && -32767 <= y1 as int - y0 as int <= 32767
    requires (x1 as int - x0 as int) * (x1 as int - x0 as int) + (y1 as int - y0 as int) * (y1 as int - y0 as int) > 9
    ensures !forwarded
  {
    var handler := new MouseClickHandler();
    handler.OnMouseDown(BUTTON_LEFT, x0, y0);
    DistSquaredExact(x1, y1, x0, y0);
    handler.OnMouseMove(x1, y1);
    handler.OnMouseUp(BUTTON_LEFT);
    forwarded := handler.OnClick(BUTTON_LEFT);
  }

  /** Press, a small jitter, release, click: the click is passed on. */
  method JitterKeepsClick(x0: int32, y0: int32, x1: int32, y1: int32) returns (forwarded: bool)
    requires -3 <= x1 as int - x0 as int <= 3 && -3 <= y1 as int - y0 as int <= 3
    requires (x1 as int - x0 as int) * (x1 as int - x0 as int) + (y1 as int - y0 as int) * (y1 as int - y0 as int) <= 9
    ensures forwarded
  {
    var handler := new MouseClickHandler();
    handler.OnMouseDown(BUTTON_LEFT, x0, y0);
    DistSquaredExact(x1, y1, x0, y0);
    handler.OnMouseMove(x1, y1);
    handler.OnMouseUp(BUTTON_LEFT);
    forwarded := handler.OnClick(BUTTON_LEFT);
  }
}
