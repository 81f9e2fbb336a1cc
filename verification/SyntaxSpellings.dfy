/** Other ways to write the same: literal strings with escapes, octal codes and nested parentheses,
    hexadecimal strings with white space, and names with escapes (sections 7.3.4 and 7.3.5 of
    ISO 32000-1:2008). Both readers read them all. */
module SyntaxSpellings {
  import opened Bytes
  import opened Objects
  import opened Syntax
  import opened SyntaxTokens

  // ---- Literal strings ----

  /** A part of a literal string: a byte, an escaped byte, an octal code, or a text in parentheses. */
  datatype Piece = Raw(b: byte) | Escaped(c: byte) | Octal(ds: Bytes) | Nested(ps: seq<Piece>)

  predicate AllOctal(ds: Bytes) {
    forall i :: 0 <= i < |ds| ==> IsOctalDigit(ds[i])
  }

  function PieceThen(p: Piece, after: Bytes): Bytes
    decreases p, 0
  {
    match p
    case Raw(b) => [b] + after
    case Escaped(c) => [BACKSLASH, c] + after
    case Octal(ds) => [BACKSLASH] + (ds + after)
    case Nested(ps) => [LPAREN] + PiecesThen(ps, [RPAREN] + after)
  }

  function PiecesThen(ps: seq<Piece>, after: Bytes): Bytes
    decreases ps, 1
  {
    if ps == [] then after else PieceThen(ps[0], PiecesThen(ps[1..], after))
  }

  /** A part that can stand in front of `after`: an octal code of fewer than three digits needs two more bytes,
      the first of which is no octal digit. */
  predicate Fits(p: Piece, after: Bytes)
    decreases p, 0
  {
    match p
    case Raw(b) => b != BACKSLASH && b != LPAREN && b != RPAREN
    case Escaped(c) => !IsOctalDigit(c)
    case Octal(ds) => 1 <= |ds| <= 3 && AllOctal(ds) && (|ds| == 3 || (|after| >= 2 && !IsOctalDigit(after[0])))
    case Nested(ps) => AllFit(ps, [RPAREN] + after)
  }

  predicate AllFit(ps: seq<Piece>, after: Bytes)
    decreases ps, 1
  {
    ps == [] || (Fits(ps[0], PiecesThen(ps[1..], after)) && AllFit(ps[1..], after))
  }

  /** Table 3 of ISO 32000-1: an escape that is not in it stands for nothing. */
  function EscapeMeans(c: byte): Bytes {
    match c as char
    case 'n' => [10]
    case 'r' => [13]
    case 't' => [9]
    case 'b' => [8]
    case 'f' => [12]
    case '(' => Ascii("(")
    case ')' => Ascii(")")
    case '\\' => Ascii("\\")
    case _ => []
  }

  function Digit(c: byte): int {
    c as int - 48
  }

  /** One to three digits in base 8; only the last eight bits count. */
  function OctalMeans(ds: Bytes): byte {
    if |ds| == 1 then Digit(ds[0]) % 256
    else if |ds| == 2 then (Digit(ds[0]) * 8 + Digit(ds[1])) % 256
    else if |ds| == 3 then (Digit(ds[0]) * 64 + Digit(ds[1]) * 8 + Digit(ds[2])) % 256
    else 0
  }

  lemma {:induction false} EscapeMeansIt(c: byte)
    ensures Unescaped(c) == EscapeMeans(c)
  {
    assert Ascii("(") == [LPAREN] && Ascii(")") == [RPAREN] && Ascii("\\") == [BACKSLASH];
  }

  lemma {:induction false} OctalStep(ds: Bytes, d: byte)
    requires IsOctalDigit(d)
    ensures OctalValue(ds + [d]) == 8 * OctalValue(ds) + Digit(d)
  {
    assert (ds + [d])[..|ds|] == ds;
  }

  lemma {:induction false} OctalMeansIt(ds: Bytes)
    requires 1 <= |ds| <= 3 && AllOctal(ds)
    ensures OctalValue(ds) % 256 == OctalMeans(ds)
  {
    assert [] + [ds[0]] == [ds[0]];
    OctalStep([], ds[0]);
    assert OctalValue([ds[0]]) == Digit(ds[0]);
    if |ds| == 1 {
      assert ds == [ds[0]];
    } else {
      OctalStep([ds[0]], ds[1]);
      assert [ds[0]] + [ds[1]] == [ds[0], ds[1]];
      if |ds| == 2 {
        assert ds == [ds[0], ds[1]];
      } else {
        OctalStep([ds[0], ds[1]], ds[2]);
        assert [ds[0], ds[1]] + [ds[2]] == ds;
      }
    }
  }

  /** The bytes a part stands for. */
  function Meaning(p: Piece): Bytes
    decreases p, 0
  {
    match p
    case Raw(b) => [b]
    case Escaped(c) => EscapeMeans(c)
    case Octal(ds) => [OctalMeans(ds)]
    case Nested(ps) => [LPAREN] + Meanings(ps) + [RPAREN]
  }

  function Meanings(ps: seq<Piece>): Bytes
    decreases ps, 1
  {
    if ps == [] then [] else Meaning(ps[0]) + Meanings(ps[1..])
  }

  lemma {:induction false} OctalIsRead(acc: Bytes, depth: nat, ds: Bytes, after: Bytes, s: Bytes)
    requires Fits(Octal(ds), after) && s == [BACKSLASH] + (ds + after)
    ensures StringBody(acc, depth, s) == StringBody(acc + [OctalMeans(ds)], depth, after)
  {
    OctalMeansIt(ds);
    assert s[0] == BACKSLASH && s[1] == ds[0] && |s| == 1 + |ds| + |after|;
    var n := |ds| - 1;
    assert s[2..4][0] == s[2] && s[2..4][1] == s[3];
    assert OctalRun(s[2..4]) == n by {
      if |ds| >= 2 { assert s[2] == ds[1]; } else { assert s[2] == after[0]; }
      if |ds| == 3 { assert s[3] == ds[2]; } else if |ds| == 2 { assert s[3] == after[0]; }
    }
    assert s[1..2 + n] == ds && s[2 + n..] == after;
  }

  /** The code of any byte, and of any number below 512, in three digits. */
  lemma {:induction false} ThreeDigits(acc: Bytes, depth: nat, x: nat, after: Bytes)
    requires x < 512
    ensures StringBody(acc, depth, [BACKSLASH, 48 + x / 64, 48 + x / 8 % 8, 48 + x % 8] + after)
            == StringBody(acc + [x % 256], depth, after)
  {
    var ds := [48 + x / 64, 48 + x / 8 % 8, 48 + x % 8];
    assert x == x / 64 * 64 + x / 8 % 8 * 8 + x % 8;
    OctalIsRead(acc, depth, ds, after, [BACKSLASH] + (ds + after));
    assert [BACKSLASH, 48 + x / 64, 48 + x / 8 % 8, 48 + x % 8] + after == [BACKSLASH] + (ds + after);
  }

  /** And of small numbers in two digits or one, in front of something else. */
  lemma {:induction false} TwoDigits(acc: Bytes, depth: nat, x: nat, after: Bytes)
    requires x < 64 && |after| >= 2 && !IsOctalDigit(after[0])
    ensures StringBody(acc, depth, [BACKSLASH, 48 + x / 8, 48 + x % 8] + after) == StringBody(acc + [x], depth, after)
  {
    var ds := [48 + x / 8, 48 + x % 8];
    OctalIsRead(acc, depth, ds, after, [BACKSLASH] + (ds + after));
    assert Digit(ds[0]) * 8 + Digit(ds[1]) == x;
    assert [BACKSLASH, 48 + x / 8, 48 + x % 8] + after == [BACKSLASH] + (ds + after);
  }

  lemma {:induction false} OneDigit(acc: Bytes, depth: nat, x: nat, after: Bytes)
    requires x < 8 && |after| >= 2 && !IsOctalDigit(after[0])
    ensures StringBody(acc, depth, [BACKSLASH, 48 + x] + after) == StringBody(acc + [x], depth, after)
  {
    OctalIsRead(acc, depth, [48 + x], after, [BACKSLASH] + ([48 + x] + after));
    assert [BACKSLASH, 48 + x] + after == [BACKSLASH] + ([48 + x] + after);
  }

  lemma {:induction false} PieceIsRead(acc: Bytes, depth: nat, p: Piece, after: Bytes)
    requires depth >= 1 && Fits(p, after)
    ensures StringBody(acc, depth, PieceThen(p, after)) == StringBody(acc + Meaning(p), depth, after)
    decreases p, 0
  {
    var s := PieceThen(p, after);
    match p
    case Raw(b) => assert s[0] == b && s[1..] == after;
    case Escaped(c) =>
      EscapeMeansIt(c);
      assert s[0] == BACKSLASH && s[1] == c && s[2..] == after;
    case Octal(ds) => OctalIsRead(acc, depth, ds, after, s);
    case Nested(ps) =>
      var close := [RPAREN] + after;
      assert s[0] == LPAREN && s[1..] == PiecesThen(ps, close);
      PiecesAreRead(acc + [LPAREN], depth + 1, ps, close);
      assert close[0] == RPAREN && close[1..] == after;
      Assoc(acc, [LPAREN], Meanings(ps));
      Assoc(acc, [LPAREN] + Meanings(ps), [RPAREN]);
  }

  lemma {:induction false} PiecesAreRead(acc: Bytes, depth: nat, ps: seq<Piece>, after: Bytes)
    requires depth >= 1 && AllFit(ps, after)
    ensures StringBody(acc, depth, PiecesThen(ps, after)) == StringBody(acc + Meanings(ps), depth, after)
    decreases ps, 1
  {
    if ps == [] {
      AppendNothing(acc);
    } else {
      PieceIsRead(acc, depth, ps[0], PiecesThen(ps[1..], after));
      PiecesAreRead(acc + Meaning(ps[0]), depth, ps[1..], after);
      Assoc(acc, Meaning(ps[0]), Meanings(ps[1..]));
    }
  }

  /** A literal string is read as what its parts stand for, and reading stops behind its parenthesis. */
  lemma {:induction false} LiteralIsRead(d: Dialect, ps: seq<Piece>, rest: Bytes)
    requires AllFit(ps, [RPAREN] + rest)
    ensures ParseAt(d, PieceThen(Nested(ps), rest)) == Ok(Token(Str(Meanings(ps), false), false), rest)
  {
    var close := [RPAREN] + rest;
    var s := PieceThen(Nested(ps), rest);
    assert s[0] == LPAREN && s[1..] == PiecesThen(ps, close);
    PiecesAreRead([], 1, ps, close);
    AppendNothing(Meanings(ps));
    assert close[0] == RPAREN && close[1..] == rest;
    assert |s| >= 2 by { PiecesLength(ps, close); }
  }

  lemma {:induction false} PieceLength(p: Piece, after: Bytes)
    ensures |PieceThen(p, after)| >= |after|
    decreases p, 0
  {
    if p.Nested? { PiecesLength(p.ps, [RPAREN] + after); }
  }

  lemma {:induction false} PiecesLength(ps: seq<Piece>, after: Bytes)
    ensures |PiecesThen(ps, after)| >= |after|
    decreases ps, 1
  {
    if ps == [] {
    } else {
      PieceLength(ps[0], PiecesThen(ps[1..], after));
      PiecesLength(ps[1..], after);
    }
  }

  // ---- Hexadecimal strings ----

  lemma {:induction false} HexTextIsRead(d: Dialect, acc: Bytes, t: Bytes, rest: Bytes)
    requires IsHexOrSpace(t)
    ensures HexBody(d, acc, t + ([GREATER] + rest)) == Ok(HexDecode(EvenHex(acc + Strip(t))), rest)
    decreases |t|
  {
    var s := t + ([GREATER] + rest);
    if t == [] {
      AppendNothing(acc);
      assert s[0] == GREATER && s[1..] == rest;
    } else {
      SplitAppend(t, [GREATER] + rest, 1);
      assert s[0] == t[0];
      if IsWhiteSpace(t[0]) {
        HexTextIsRead(d, acc, t[1..], rest);
      } else {
        HexTextIsRead(d, acc + [t[0]], t[1..], rest);
        Assoc(acc, [t[0]], Strip(t[1..]));
      }
    }
  }

  /** White space between the digits does not matter, and a missing last digit is 0. */
  lemma {:induction false} HexStringIsRead(d: Dialect, t: Bytes, rest: Bytes)
    requires IsHexOrSpace(t)
    ensures ParseAt(d, [LESS] + (t + ([GREATER] + rest)))
            == Ok(Token(Str(HexDecode(EvenHex(Strip(t))), true), false), rest)
  {
    var s := [LESS] + (t + ([GREATER] + rest));
    assert s[0] == LESS && s[1..] == t + ([GREATER] + rest);
    assert s[1] == (if t == [] then GREATER else t[0]) && s[1] != LESS;
    HexTextIsRead(d, [], t, rest);
    AppendNothing(Strip(t));
  }

  // ---- Names ----

  /** A byte of a name as it is, or as # and two hexadecimal digits of either case. */
  datatype NamePiece = Plainly(b: byte) | Coded(h: byte, l: byte)

  /** The content stream reader takes bytes from 128 on for code points. */
  predicate IsNamePiece(d: Dialect, p: NamePiece) {
    match p
    case Plainly(b) => !EndsName(b) && b != HASH && (d.Content? ==> b < 128)
    case Coded(h, l) => IsHexDigit(h) && IsHexDigit(l)
  }

  function NamePiecesThen(ps: seq<NamePiece>, rest: Bytes): Bytes {
    if ps == [] then rest
    else (match ps[0] case Plainly(b) => [b] case Coded(h, l) => [HASH, h, l]) + NamePiecesThen(ps[1..], rest)
  }

  function NameMeaning(d: Dialect, ps: seq<NamePiece>): Bytes
    requires forall p :: p in ps ==> IsNamePiece(d, p)
  {
    if ps == [] then []
    else
      assert IsNamePiece(d, ps[0]);
      (match ps[0] case Plainly(b) => [b] case Coded(h, l) => [16 * HexValue(h) + HexValue(l)]) + NameMeaning(d, ps[1..])
  }

  lemma {:induction false} CodeIsRead(d: Dialect, acc: Bytes, h: byte, l: byte, more: Bytes, s: Bytes)
    requires IsHexDigit(h) && IsHexDigit(l) && s == [HASH, h, l] + more
    ensures NameBody(d, acc, s) == NameBody(d, acc + [16 * HexValue(h) + HexValue(l)], more)
  {
    assert s[0] == HASH && s[1] == h && s[2] == l && s[3..] == more;
  }

  lemma {:induction false} NamePiecesAreRead(d: Dialect, acc: Bytes, ps: seq<NamePiece>, rest: Bytes)
    requires (forall p :: p in ps ==> IsNamePiece(d, p)) && (rest == [] || EndsName(rest[0]))
    ensures NameBody(d, acc, NamePiecesThen(ps, rest)) == Ok(acc + NameMeaning(d, ps), rest)
    decreases |ps|
  {
    var s := NamePiecesThen(ps, rest);
    if ps == [] {
      AppendNothing(acc);
    } else {
      assert IsNamePiece(d, ps[0]);
      var more := NamePiecesThen(ps[1..], rest);
      match ps[0]
      case Plainly(b) =>
        assert s[0] == b && s[1..] == more;
        NamePiecesAreRead(d, acc + [b], ps[1..], rest);
        Assoc(acc, [b], NameMeaning(d, ps[1..]));
      case Coded(h, l) =>
        var c := 16 * HexValue(h) + HexValue(l);
        CodeIsRead(d, acc, h, l, more, s);
        NamePiecesAreRead(d, acc + [c], ps[1..], rest);
        Assoc(acc, [c], NameMeaning(d, ps[1..]));
    }
  }

  /** A name is read as what its parts stand for, in front of anything that ends a name. */
  lemma {:induction false} NameIsRead(d: Dialect, ps: seq<NamePiece>, rest: Bytes)
    requires forall p :: p in ps ==> IsNamePiece(d, p)
    requires (rest == [] ==> d.File?) && (rest != [] ==> EndsName(rest[0]))
    ensures ParseAt(d, [SLASH] + NamePiecesThen(ps, rest)) == Ok(Token(Name(NameMeaning(d, ps)), false), rest)
  {
    var t := NamePiecesThen(ps, rest);
    var s := [SLASH] + t;
    assert s[0] == SLASH && s[1..] == t;
    NamePiecesAreRead(d, [], ps, rest);
    AppendNothing(NameMeaning(d, ps));
    assert rest != [] ==> t != [];
  }

  // ---- Integers ----

  /** The value of digits behind a sign, 0 if it needs more than 64 bits. */
  function SignedValue(negative: bool, ds: Bytes): int
    requires AllDigits(ds)
  {
    var magnitude: int := DecimalValue(ds);
    var v := if negative then -magnitude else magnitude;
    if MIN_INT64 <= v <= MAX_INT64 then v else 0
  }

  predicate IsSign(sign: Bytes) {
    sign == [] || sign == [PLUS] || sign == [MINUS]
  }

  lemma {:induction false} SignedText(sign: Bytes, ds: Bytes, t: Bytes)
    requires IsSign(sign) && ds != [] && AllDigits(ds) && t == sign + ds
    ensures IntegerValue(t) == SignedValue(sign == [MINUS], ds)
  {
    if sign == [] {
      AppendNothing(ds);
      assert IsDecimalDigit(t[0]);
    } else {
      assert t[0] == sign[0] && t[1..] == ds;
    }
  }

  lemma {:induction false} SignedScan(sign: Bytes, ds: Bytes, rest: Bytes, s: Bytes)
    requires IsSign(sign) && ds != [] && AllDigits(ds) && EndsNumber(rest) && s == sign + (ds + rest)
    ensures ScanNumber([], false, true, s) == Scan(sign + ds, false, rest)
  {
    if sign == [] {
      AppendNothing(ds + rest);
      DigitsScanned([], true, ds, rest);
    } else {
      assert s[0] == sign[0] && s[1..] == ds + rest && [] + [s[0]] == sign;
      DigitsScanned(sign, false, ds, rest);
    }
  }

  /** A sign and leading zeros are read; what does not fit is read as 0. */
  lemma {:induction false} SignedIsRead(sign: Bytes, ds: Bytes, rest: Bytes)
    requires IsSign(sign) && ds != [] && AllDigits(ds) && EndsNumber(rest)
    ensures ParseNumber(sign + (ds + rest)) == Ok(Int(SignedValue(sign == [MINUS], ds)), rest)
  {
    SignedScan(sign, ds, rest, sign + (ds + rest));
    SignedText(sign, ds, sign + ds);
  }

  // ---- White space and comments in front ----

  lemma {:induction false} SpacesAreSkipped(d: Dialect, w: Bytes, s: Bytes)
    requires forall i :: 0 <= i < |w| ==> IsWhiteSpace(w[i])
    ensures ParseObject(d, w + s) == ParseObject(d, s)
    decreases |w|
  {
    if w == [] {
      AppendNothing(s);
    } else {
      SplitAppend(w, s, 1);
      assert (w + s)[0] == w[0];
      SpacesAreSkipped(d, w[1..], s);
    }
  }

  lemma {:induction false} LineIsDropped(c: Bytes, s: Bytes)
    requires (forall i :: 0 <= i < |c| ==> c[i] != CR && c[i] != LF) && s != [] && (s[0] == CR || s[0] == LF)
    ensures DropLine(c + s) == s
    decreases |c|
  {
    if c == [] {
      AppendNothing(s);
    } else {
      SplitAppend(c, s, 1);
      assert (c + s)[0] == c[0];
      LineIsDropped(c[1..], s);
    }
  }

  /** What follows a comment and the end of its line is read as without them. */
  lemma {:induction false} CommentIsSkipped(d: Dialect, c: Bytes, eol: byte, s: Bytes)
    requires (forall i :: 0 <= i < |c| ==> c[i] != CR && c[i] != LF) && (eol == CR || eol == LF)
    ensures ParseObject(d, [PERCENT] + c + ([eol] + s)) == ParseObject(d, s)
  {
    var t, line := [PERCENT] + c, [eol] + s;
    assert (t + line)[0] == PERCENT && |t + line| >= 2;
    LineIsDropped(t, line);
    assert line[0] == eol && line[1..] == s;
    assert SkipSpaces(line) == SkipSpaces(s);
    if d.Content? {
      var s1 := SkipSpaces(s);
      assert ParseAt(d, t + line) == ParseAt(d, SkipComments(line));
      assert SkipSpaces(s1) == s1;
      assert SkipComments(line) == SkipComments(s1);
    }
  }
}
