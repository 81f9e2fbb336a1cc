/** Greedy line breaking (creator/text_chunk.go). Widths are real numbers; a font is a function from runes to
    glyph widths, already multiplied by the font size. */
module TextWrap {
  import opened Bytes

  type Rune = nat
  type Text = seq<Rune>

  const LF: Rune := 0x0A
  const SPACE: Rune := 0x20

  /** unicode.IsSpace */
  predicate IsSpace(r: Rune) {
    || 0x09 <= r <= 0x0D || r == 0x20 || r == 0x85 || r == 0xA0 || r == 0x1680 || 0x2000 <= r <= 0x200A
    || r == 0x2028 || r == 0x2029 || r == 0x202F || r == 0x205F || r == 0x3000
  }

  /** strings.TrimRightFunc with unicode.IsSpace */
  function TrimRight(t: Text): (r: Text)
    ensures r <= t
  {
    if t != [] && IsSpace(t[|t| - 1]) then TrimRight(t[..|t| - 1]) else t
  }

  datatype Style = Style(glyph: Rune -> Option<real>, charSpacing: real)

  /** The width a rune takes in a line; spaces get no character spacing. */
  function CharWidth(style: Style, r: Rune): real {
    match style.glyph(r)
    case None => 0.0
    case Some(w) => if r == SPACE then w else w + style.charSpacing * 1000.0
  }

  function Width(style: Style, t: Text): real {
    if t == [] then 0.0 else Width(style, t[..|t| - 1]) + CharWidth(style, t[|t| - 1])
  }

  /** The index of the last blank, or -1. */
  function LastSpace(t: Text): (i: int)
    ensures -1 <= i < |t|
  {
    if t == [] then -1 else if t[|t| - 1] == SPACE then |t| - 1 else LastSpace(t[..|t| - 1])
  }

  // ---- Wrapping ----

  /** The finished lines and the one that is being filled. */
  datatype State = State(lines: seq<Text>, line: Text)

  function Step(style: Style, limit: real, st: State, r: Rune): Option<State> {
    if r == LF then Some(State(st.lines + [TrimRight(st.line) + [LF]], []))
    else match style.glyph(r)
      case None => None
      case Some(w) =>
        if Width(style, st.line) + w > limit then Some(Break(st, r)) else Some(State(st.lines, st.line + [r]))
  }

  /** The line is full: it ends at its last blank, if that is not its first rune, or here. */
  function Break(st: State, r: Rune): State {
    var idx := if r == SPACE then -1 else LastSpace(st.line);
    if idx > 0 then State(st.lines + [TrimRight(st.line[..idx + 1])], st.line[idx + 1..] + [r])
    else State(st.lines + [TrimRight(st.line)], if r == SPACE then [] else [r])
  }

  function Run(style: Style, limit: real, st: State, text: Text): Option<State>
    decreases |text|
  {
    if text == [] then Some(st)
    else match Step(style, limit, st, text[0])
      case None => None
      case Some(st') => Run(style, limit, st', text[1..])
  }

  function Finish(st: State): seq<Text> {
    if st.line == [] then st.lines else st.lines + [st.line]
  }

  function WrapText(style: Style, width: real, text: Text): Option<seq<Text>> {
    if width < 1.0 then Some([text])
    else match Run(style, width * 1000.0, State([], []), text)
      case None => None
      case Some(st) => Some(Finish(st))
  }

  function Widths(style: Style, t: Text): (ws: seq<real>)
    ensures |ws| == |t|
  {
    if t == [] then [] else Widths(style, t[..|t| - 1]) + [CharWidth(style, t[|t| - 1])]
  }

  function Sum(ws: seq<real>): real {
    if ws == [] then 0.0 else Sum(ws[..|ws| - 1]) + ws[|ws| - 1]
  }

  lemma {:induction false} SumIsWidth(style: Style, t: Text)
    ensures Sum(Widths(style, t)) == Width(style, t)
  {
    if t == [] {
    } else {
      SumIsWidth(style, t[..|t| - 1]);
      assert Widths(style, t)[..|t| - 1] == Widths(style, t[..|t| - 1]);
    }
  }

  lemma {:induction false} WidthsAppend(style: Style, t: Text, r: Rune)
    ensures Widths(style, t + [r]) == Widths(style, t) + [CharWidth(style, r)]
    ensures Width(style, t + [r]) == Width(style, t) + CharWidth(style, r)
  {
    assert (t + [r])[..|t|] == t;
  }

  lemma {:induction false} WidthsDrop(style: Style, t: Text, k: nat)
    requires k <= |t|
    ensures Widths(style, t)[k..] == Widths(style, t[k..])
    decreases |t|
  {
    if k < |t| {
      var n := |t| - 1;
      WidthsDrop(style, t[..n], k);
      assert t[k..][..|t| - k - 1] == t[..n][k..];
      var ws := Widths(style, t[..n]);
      assert (ws + [CharWidth(style, t[n])])[k..] == ws[k..] + [CharWidth(style, t[n])];
    } else {
      assert t[k..] == [] && Widths(style, t)[k..] == [];
    }
  }

  method SumLoop(ws: seq<real>) returns (s: real)
    ensures s == Sum(ws)
  {
    s := 0.0;
    for i := 0 to |ws|
      invariant s == Sum(ws[..i])
    {
      assert ws[..i + 1][..i] == ws[..i];
      s := s + ws[i];
    }
    WholeSlice(ws);
  }

  method FindLastSpace(line: Text) returns (idx: int)
    ensures idx == LastSpace(line)
  {
    idx := |line| - 1;
    WholeSlice(line);
    while idx >= 0
      invariant -1 <= idx < |line| && LastSpace(line[..idx + 1]) == LastSpace(line)
    {
      assert line[..idx + 1][..idx] == line[..idx];
      if line[idx] == SPACE { return; }
      idx := idx - 1;
    }
    assert line[..0] == [];
  }

  /** The line is full when c comes. */
  method BreakLine(style: Style, line: Text, widths: seq<real>, c: Rune, charWidth: real)
    returns (t: Text, line': Text, widths': seq<real>, lineWidth: real)
    requires widths == Widths(style, line) && charWidth == CharWidth(style, c)
    ensures forall lines {:trigger Break(State(lines, line), c)} :: Break(State(lines, line), c) == State(lines + [TrimRight(t)], line')
    ensures widths' == Widths(style, line') && lineWidth == Width(style, line')
  {
    var idx := -1;
    if c != SPACE { idx := FindLastSpace(line); }
    t := line;
    if idx > 0 {
      t := line[..idx + 1];
      WidthsDrop(style, line, idx + 1);
      WidthsAppend(style, line[idx + 1..], c);
      line' := line[idx + 1..] + [c];
      widths' := widths[idx + 1..] + [charWidth];
      SumIsWidth(style, line');
      lineWidth := SumLoop(widths');
    } else if c == SPACE {
      line', widths', lineWidth := [], [], 0.0;
    } else {
      WidthsAppend(style, [], c);
      line', widths', lineWidth := [c], [charWidth], charWidth;
    }
  }

  method Wrap(style: Style, width: real, text: Text) returns (r: Option<seq<Text>>)
    ensures r == WrapText(style, width, text)
  {
    if width < 1.0 { return Some([text]); }
    var lines: seq<Text>, line: Text, lineWidth, widths := [], [], 0.0, [];
    var unread := text;
    ghost var limit := width * 1000.0;
    ghost var want := Run(style, limit, State([], []), text);
    while unread != []
      invariant Run(style, limit, State(lines, line), unread) == want
      invariant widths == Widths(style, line) && lineWidth == Width(style, line)
      decreases |unread|
    {
      var c := unread[0];
      unread := unread[1..];
      if c == LF {
        lines := lines + [TrimRight(line) + [c]];
        line, lineWidth, widths := [], 0.0, [];
        continue;
      }
      var metrics := style.glyph(c);
      if metrics.None? { return None; }
      var w := metrics.value;
      var charWidth := if c == SPACE then w else w + style.charSpacing * 1000.0;
      if lineWidth + w > width * 1000.0 {
        var t;
        t, line, widths, lineWidth := BreakLine(style, line, widths, c, charWidth);
        lines := lines + [TrimRight(t)];
      } else {
        WidthsAppend(style, line, c);
        line := line + [c];
        lineWidth := lineWidth + charWidth;
        widths := widths + [charWidth];
      }
    }
    if |line| > 0 { lines := lines + [line]; }
    return Some(lines);
  }

  // ---- Nothing but blanks is lost ----

  /** What wrapping keeps: everything but white space, and line feeds. */
  predicate Keeps(r: Rune) {
    !IsSpace(r) || r == LF
  }

  /** White space other than the line feed, as listed for the property White_Space of Unicode. */
  lemma {:induction false} KeepsIff(r: Rune)
    ensures Keeps(r) <==>
              r !in {0x09, 0x0B, 0x0C, 0x0D, 0x20, 0x85, 0xA0, 0x1680, 0x2000, 0x2001, 0x2002, 0x2003, 0x2004, 0x2005,
                     0x2006, 0x2007, 0x2008, 0x2009, 0x200A, 0x2028, 0x2029, 0x202F, 0x205F, 0x3000}
  {
  }

  function Ink(t: Text): Text {
    if t == [] then [] else Ink(t[..|t| - 1]) + (if Keeps(t[|t| - 1]) then [t[|t| - 1]] else [])
  }

  function InkOfLines(lines: seq<Text>): Text {
    if lines == [] then [] else InkOfLines(lines[..|lines| - 1]) + Ink(lines[|lines| - 1])
  }

  function InkOf(st: State): Text {
    InkOfLines(st.lines) + Ink(st.line)
  }

  lemma {:induction false} InkAppend(a: Text, b: Text)
    ensures Ink(a + b) == Ink(a) + Ink(b)
    decreases |b|
  {
    if b == [] {
      AppendNothing(a);
      AppendNothing(Ink(a));
    } else {
      var n := |b| - 1;
      assert (a + b)[..|a| + n] == a + b[..n];
      InkAppend(a, b[..n]);
      Assoc(Ink(a), Ink(b[..n]), if Keeps(b[n]) then [b[n]] else []);
    }
  }

  lemma {:induction false} TrimInk(t: Text)
    requires LF !in t
    ensures Ink(TrimRight(t)) == Ink(t)
  {
    if t != [] && IsSpace(t[|t| - 1]) {
      TrimInk(t[..|t| - 1]);
      AppendNothing(Ink(t[..|t| - 1]));
    }
  }

  /** A line is finished with `t`, and `line` is next. */
  lemma {:induction false} InkMoves(st: State, t: Text, line: Text)
    ensures InkOf(State(st.lines + [t], line)) == InkOfLines(st.lines) + (Ink(t) + Ink(line))
  {
    assert (st.lines + [t])[..|st.lines|] == st.lines;
    Assoc(InkOfLines(st.lines), Ink(t), Ink(line));
  }

  lemma {:induction false} StepInk(style: Style, limit: real, st: State, r: Rune)
    requires LF !in st.line && Step(style, limit, st, r).Some?
    ensures var st' := Step(style, limit, st, r).value;
            LF !in st'.line && InkOf(st') == InkOf(st) + Ink([r])
  {
    var line := st.line;
    Assoc(InkOfLines(st.lines), Ink(line), Ink([r]));
    if r == LF {
      TrimInk(line);
      InkAppend(TrimRight(line), [LF]);
      InkMoves(st, TrimRight(line) + [LF], []);
      AppendNothing(Ink(line) + Ink([LF]));
    } else if Width(style, line) + style.glyph(r).value > limit {
      BreakInk(st, r);
      BreakNoLf(st, r);
    } else {
      InkAppend(line, [r]);
    }
  }

  lemma {:induction false} BreakNoLf(st: State, r: Rune)
    requires LF !in st.line && r != LF
    ensures LF !in Break(st, r).line
  {
    var line := st.line;
    forall x | x in Break(st, r).line ensures x == r || x in line { }
  }

  lemma {:induction false} BreakInk(st: State, r: Rune)
    requires LF !in st.line && r != LF
    ensures InkOf(Break(st, r)) == InkOfLines(st.lines) + (Ink(st.line) + Ink([r]))
  {
    var line := st.line;
    var idx := if r == SPACE then -1 else LastSpace(line);
    if idx > 0 {
      var a, b := line[..idx + 1], line[idx + 1..];
      assert Break(st, r) == State(st.lines + [TrimRight(a)], b + [r]);
      TakeDrop(line, idx + 1);
      BreakBackInk(st, a, b, r);
    } else {
      BreakHereInk(st, r);
    }
  }

  lemma {:induction false} BreakHereInk(st: State, r: Rune)
    requires LF !in st.line && r != LF
    ensures InkOf(State(st.lines + [TrimRight(st.line)], if r == SPACE then [] else [r]))
            == InkOfLines(st.lines) + (Ink(st.line) + Ink([r]))
  {
    TrimInk(st.line);
    InkMoves(st, TrimRight(st.line), if r == SPACE then [] else [r]);
    assert r == SPACE ==> Ink([r]) == [] by { assert [r][..0] == []; }
  }

  lemma {:induction false} BreakBackInk(st: State, a: Text, b: Text, r: Rune)
    requires st.line == a + b && LF !in st.line
    ensures InkOf(State(st.lines + [TrimRight(a)], b + [r])) == InkOfLines(st.lines) + (Ink(st.line) + Ink([r]))
  {
    forall x | x in a ensures x in st.line { }
    TrimInk(a);
    InkAppend(a, b);
    InkAppend(b, [r]);
    InkMoves(st, TrimRight(a), b + [r]);
    Assoc(Ink(a), Ink(b), Ink([r]));
  }

  lemma {:induction false} RunInk(style: Style, limit: real, st: State, text: Text)
    requires LF !in st.line && Run(style, limit, st, text).Some?
    ensures InkOf(Run(style, limit, st, text).value) == InkOf(st) + Ink(text)
    decreases |text|
  {
    if text == [] {
      AppendNothing(InkOf(st));
    } else {
      var st' := Step(style, limit, st, text[0]).value;
      StepInk(style, limit, st, text[0]);
      RunInk(style, limit, st', text[1..]);
      HeadTail(text);
      InkAppend([text[0]], text[1..]);
      Assoc(InkOf(st), Ink([text[0]]), Ink(text[1..]));
    }
  }

  /** No rune but white space is lost, doubled or moved, and every line feed stays. */
  lemma {:induction false} WrapKeepsInk(style: Style, width: real, text: Text)
    requires WrapText(style, width, text).Some?
    ensures InkOfLines(WrapText(style, width, text).value) == Ink(text)
  {
    if width < 1.0 {
      assert [text][..0] == [];
      AppendNothing(Ink(text));
    } else {
      var st := Run(style, width * 1000.0, State([], []), text).value;
      RunInk(style, width * 1000.0, State([], []), text);
      AppendNothing(Ink(text));
      if st.line != [] { assert (st.lines + [st.line])[..|st.lines|] == st.lines; } else { AppendNothing(InkOfLines(st.lines)); }
    }
  }

  // ---- Lines fit ----

  /** Neither the character spacing nor any glyph width is negative. */
  ghost predicate Plain(style: Style) {
    style.charSpacing >= 0.0 && forall r :: style.glyph(r).Some? ==> style.glyph(r).value >= 0.0
  }

  function GlyphWidth(style: Style, r: Rune): real {
    if style.glyph(r).Some? then style.glyph(r).value else 0.0
  }

  /** The width of a line as it is drawn: there is no character spacing behind its last rune. */
  function Drawn(style: Style, t: Text): real {
    if t == [] then 0.0 else Width(style, t[..|t| - 1]) + GlyphWidth(style, t[|t| - 1])
  }

  /** Without its last rune the line fits, and if it does not fit as a whole it has no blank to break at. */
  predicate Fits(style: Style, limit: real, t: Text) {
    && (t != [] ==> Drawn(style, t[..|t| - 1]) <= limit)
    && (Drawn(style, t) > limit ==> SPACE !in t)
  }

  lemma {:induction false} CharWidthPlain(style: Style, r: Rune)
    requires Plain(style)
    ensures 0.0 <= GlyphWidth(style, r) <= CharWidth(style, r)
  {
  }

  lemma {:induction false} WidthAppend(style: Style, a: Text, b: Text)
    ensures Width(style, a + b) == Width(style, a) + Width(style, b)
    decreases |b|
  {
    if b == [] {
      AppendNothing(a);
    } else {
      var n := |b| - 1;
      assert (a + b)[..|a| + n] == a + b[..n];
      WidthAppend(style, a, b[..n]);
    }
  }

  lemma {:induction false} WidthPlain(style: Style, t: Text)
    requires Plain(style)
    ensures 0.0 <= Drawn(style, t) <= Width(style, t)
  {
    if t == [] {
    } else {
      WidthPlain(style, t[..|t| - 1]);
      CharWidthPlain(style, t[|t| - 1]);
    }
  }

  /** A part of a line is not wider than the line. */
  lemma {:induction false} DrawnAppend(style: Style, a: Text, b: Text)
    requires Plain(style)
    ensures Drawn(style, a) <= Drawn(style, a + b) && Drawn(style, b) <= Drawn(style, a + b)
  {
    WidthPlain(style, a);
    if b == [] {
      AppendNothing(a);
    } else {
      var n := |b| - 1;
      assert (a + b)[..|a| + n] == a + b[..n];
      WidthAppend(style, a, b[..n]);
      WidthPlain(style, b[..n]);
      CharWidthPlain(style, b[n]);
    }
  }

  lemma {:induction false} FitsPrefix(style: Style, limit: real, t: Text, p: Text)
    requires Plain(style) && Fits(style, limit, t) && p <= t
    ensures Fits(style, limit, p)
  {
    if p != t {
      var n := |t| - 1;
      assert t[..n] == p + t[|p|..n];
      DrawnAppend(style, p, t[|p|..n]);
      assert Drawn(style, p) <= limit;
      if p != [] {
        TakeDrop(p, |p| - 1);
        DrawnAppend(style, p[..|p| - 1], p[|p| - 1..]);
      }
    }
  }

  lemma {:induction false} LastSpaceIs(t: Text)
    ensures LastSpace(t) >= 0 ==> t[LastSpace(t)] == SPACE
    ensures forall k :: LastSpace(t) < k < |t| ==> t[k] != SPACE
  {
    if t != [] && t[|t| - 1] != SPACE {
      var n := |t| - 1;
      LastSpaceIs(t[..n]);
      forall k | LastSpace(t) < k < |t| ensures t[k] != SPACE { if k < n { assert t[..n][k] == t[k]; } }
    }
  }

  /** The text of a line without its line feed. */
  function Body(line: Text): (b: Text)
    ensures b <= line
  {
    if line != [] && line[|line| - 1] == LF then line[..|line| - 1] else line
  }

  predicate AllFit(style: Style, limit: real, lines: seq<Text>) {
    forall i :: 0 <= i < |lines| ==> Fits(style, limit, Body(lines[i]))
  }

  lemma {:induction false} OneMoreFits(style: Style, limit: real, lines: seq<Text>, t: Text)
    requires AllFit(style, limit, lines) && Plain(style) && (Fits(style, limit, t) || Fits(style, limit, Body(t)))
    ensures AllFit(style, limit, lines + [t])
  {
    if Fits(style, limit, t) { FitsPrefix(style, limit, t, Body(t)); }
  }

  lemma {:induction false} BreakFits(style: Style, limit: real, st: State, r: Rune)
    requires Plain(style) && limit >= 0.0 && Fits(style, limit, st.line) && AllFit(style, limit, st.lines)
    ensures Fits(style, limit, Break(st, r).line) && AllFit(style, limit, Break(st, r).lines)
  {
    var line := st.line;
    var idx := if r == SPACE then -1 else LastSpace(line);
    if idx > 0 {
      var a, b := line[..idx + 1], line[idx + 1..];
      LastSpaceIs(line);
      assert SPACE in line;
      TakeDrop(line, idx + 1);
      DrawnAppend(style, a, b);
      assert (b + [r])[..|b|] == b;
      FitsPrefix(style, limit, line, TrimRight(a));
      OneMoreFits(style, limit, st.lines, TrimRight(a));
    } else {
      FitsPrefix(style, limit, line, TrimRight(line));
      OneMoreFits(style, limit, st.lines, TrimRight(line));
      assert [r][..0] == [];
    }
  }

  lemma {:induction false} StepFits(style: Style, limit: real, st: State, r: Rune)
    requires Plain(style) && limit >= 0.0 && Fits(style, limit, st.line) && AllFit(style, limit, st.lines)
    requires Step(style, limit, st, r).Some?
    ensures var st' := Step(style, limit, st, r).value;
            Fits(style, limit, st'.line) && AllFit(style, limit, st'.lines)
  {
    if r == LF {
      var t := TrimRight(st.line);
      FitsPrefix(style, limit, st.line, t);
      assert Body(t + [LF]) == t;
      OneMoreFits(style, limit, st.lines, t + [LF]);
    } else if Width(style, st.line) + style.glyph(r).value > limit {
      BreakFits(style, limit, st, r);
    } else {
      assert (st.line + [r])[..|st.line|] == st.line;
      WidthPlain(style, st.line);
      CharWidthPlain(style, r);
    }
  }

  lemma {:induction false} RunFits(style: Style, limit: real, st: State, text: Text)
    requires Plain(style) && limit >= 0.0 && Fits(style, limit, st.line) && AllFit(style, limit, st.lines)
    requires Run(style, limit, st, text).Some?
    ensures AllFit(style, limit, Finish(Run(style, limit, st, text).value))
    decreases |text|
  {
    if text == [] {
      OneMoreFits(style, limit, st.lines, st.line);
    } else {
      StepFits(style, limit, st, text[0]);
      RunFits(style, limit, Step(style, limit, st, text[0]).value, text[1..]);
    }
  }

  /** Every line as it is drawn fits up to its last rune, and only lines without a blank can be too wide. */
  lemma {:induction false} WrapFits(style: Style, width: real, text: Text)
    requires Plain(style) && width >= 1.0 && WrapText(style, width, text).Some?
    ensures AllFit(style, width * 1000.0, WrapText(style, width, text).value)
  {
    RunFits(style, width * 1000.0, State([], []), text);
  }

  // ---- Lines are broken late ----

  /** A line is ended by a line feed, or when the next rune does not fit behind it, and then only. */
  lemma {:induction false} EndsLineIff(style: Style, limit: real, st: State, text: Text, r: Rune)
    requires Run(style, limit, st, text).Some? && Run(style, limit, st, text + [r]).Some?
    ensures var a, b := Run(style, limit, st, text).value, Run(style, limit, st, text + [r]).value;
            && (b.lines != a.lines
                <==> r == LF || (style.glyph(r).Some? && Width(style, a.line) + style.glyph(r).value > limit))
            && (b.lines == a.lines ==> b.line == a.line + [r])
    decreases |text|
  {
    if text == [] {
      assert [r][1..] == [];
      var lines := Step(style, limit, st, r).value.lines;
      assert |lines| == |st.lines| + (if lines == st.lines then 0 else 1);
    } else {
      assert (text + [r])[0] == text[0] && (text + [r])[1..] == text[1..] + [r];
      EndsLineIff(style, limit, Step(style, limit, st, text[0]).value, text[1..], r);
    }
  }

  /** Each rune fits behind those before it. */
  predicate FitsBehind(style: Style, limit: real, t: Text) {
    forall k :: 0 <= k < |t| ==> style.glyph(t[k]).Some? && Width(style, t[..k]) + style.glyph(t[k]).value <= limit
  }

  lemma {:induction false} OneLine(style: Style, limit: real, text: Text)
    requires LF !in text && FitsBehind(style, limit, text)
    ensures Run(style, limit, State([], []), text) == Some(State([], text))
    decreases |text|
  {
    if text == [] {
    } else {
      var n := |text| - 1;
      var init := text[..n];
      forall k | 0 <= k < |init|
        ensures style.glyph(init[k]).Some? && Width(style, init[..k]) + style.glyph(init[k]).value <= limit
      {
        assert init[k] == text[k] && init[..k] == text[..k];
      }
      OneLine(style, limit, init);
      assert init + [text[n]] == text && text[n] in text;
      RunAppend(style, limit, State([], []), init, text[n]);
    }
  }

  lemma {:induction false} RunAppend(style: Style, limit: real, st: State, text: Text, r: Rune)
    requires Run(style, limit, st, text).Some?
    ensures Run(style, limit, st, text + [r]) == Step(style, limit, Run(style, limit, st, text).value, r)
    decreases |text|
  {
    if text == [] {
      assert [r][1..] == [];
    } else {
      assert (text + [r])[0] == text[0] && (text + [r])[1..] == text[1..] + [r];
      RunAppend(style, limit, Step(style, limit, st, text[0]).value, text[1..], r);
    }
  }

  /** Text without line feeds that fits is one line, as it is. */
  lemma {:induction false} FittingIsOneLine(style: Style, width: real, text: Text)
    requires LF !in text && text != [] && (width < 1.0 || FitsBehind(style, width * 1000.0, text))
    ensures WrapText(style, width, text) == Some([text])
  {
    if width >= 1.0 {
      OneLine(style, width * 1000.0, text);
      assert [] + [text] == [text];
    }
  }

  /** The width of a line: that of its glyphs, and the character spacing behind each that is no blank. */
  lemma {:induction false} WidthOfMore(style: Style, t: Text, r: Rune)
    requires style.glyph(r).Some?
    ensures Width(style, t + [r])
            == Width(style, t) + style.glyph(r).value + (if r == 0x20 then 0.0 else 1000.0 * style.charSpacing)
  {
    assert (t + [r])[..|t|] == t;
  }

  /** There is no empty line at the end: none for no text, and none behind a line feed. */
  lemma {:induction false} NoEmptyLastLine(style: Style, width: real, text: Text)
    requires width >= 1.0 && WrapText(style, width, text).Some?
    ensures WrapText(style, width, []) == Some([])
    ensures var lines := WrapText(style, width, text + [LF]);
            lines.Some? && lines.value != [] && LF in lines.value[|lines.value| - 1]
  {
    RunAppend(style, width * 1000.0, State([], []), text, LF);
  }
}
