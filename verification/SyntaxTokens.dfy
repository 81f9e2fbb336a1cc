/** Reading back single tokens: names, strings, numbers and references. */
module SyntaxTokens {
  import opened Bytes
  import opened Objects
  import opened Syntax

  // ---- Names ----

  lemma {:induction false} NameByteRead(d: Dialect, acc: Bytes, c: byte, rest: Bytes)
    ensures NameBody(d, acc, NameByte(c) + rest) == NameBody(d, acc + [c], rest)
  {
    var s := NameByte(c) + rest;
    if !IsPrintable(c) || c == HASH || IsDelimiter(c) {
      assert s[0] == HASH && s[1] == LowerHexDigit(c / 16) && s[2] == LowerHexDigit(c % 16) && s[3..] == rest;
    } else {
      assert s[0] == c && s[1..] == rest;
    }
  }

  lemma {:induction false} NameRead(d: Dialect, acc: Bytes, n: Bytes, rest: Bytes)
    requires rest == [] || EndsName(rest[0])
    ensures NameBody(d, acc, NameThen(n, rest)) == Ok(acc + n, rest)
    decreases |n|
  {
    if n == [] {
      AppendNothing(acc);
    } else {
      NameByteRead(d, acc, n[0], NameThen(n[1..], rest));
      NameRead(d, acc + [n[0]], n[1..], rest);
      Assoc(acc, [n[0]], n[1..]);
      HeadTail(n);
    }
  }

  // ---- Strings ----

  lemma {:induction false} EscapedByteRead(acc: Bytes, c: byte, rest: Bytes)
    ensures StringBody(acc, 1, EscapedByte(c) + rest) == StringBody(acc + [c], 1, rest)
  {
    var s := EscapedByte(c) + rest;
    if EscapeLetter(c).Some? {
      assert s[0] == BACKSLASH && s[1] == EscapeLetter(c).value && s[2..] == rest;
      assert Unescaped(s[1]) == [c];
    } else {
      assert s[0] == c && s[1..] == rest;
    }
  }

  lemma {:induction false} StringRead(acc: Bytes, v: Bytes, rest: Bytes)
    ensures StringBody(acc, 1, EscapedThen(v, [RPAREN] + rest)) == Ok(acc + v, rest)
    decreases |v|
  {
    if v == [] {
      AppendNothing(acc);
      assert ([RPAREN] + rest)[1..] == rest;
    } else {
      EscapedByteRead(acc, v[0], EscapedThen(v[1..], [RPAREN] + rest));
      StringRead(acc + [v[0]], v[1..], rest);
      Assoc(acc, [v[0]], v[1..]);
      HeadTail(v);
    }
  }

  lemma {:induction false} HexPairRead(d: Dialect, acc: Bytes, c: byte, rest: Bytes)
    ensures HexBody(d, acc, LowerHexPair(c) + rest) == HexBody(d, acc + LowerHexPair(c), rest)
  {
    var p := LowerHexPair(c);
    var s := p + rest;
    assert s[0] == p[0] && s[1..][0] == p[1] && s[1..][1..] == rest;
    assert acc + [p[0]] + [p[1]] == acc + p;
    assert HexBody(d, acc, s) == HexBody(d, acc + [p[0]], s[1..]);
  }

  lemma {:induction false} HexRead(d: Dialect, acc: Bytes, v: Bytes, rest: Bytes)
    ensures HexBody(d, acc, HexThen(v, [GREATER] + rest)) == Ok(HexDecode(EvenHex(acc + HexText(v))), rest)
    decreases |v|
  {
    if v == [] {
      AppendNothing(acc);
      assert ([GREATER] + rest)[1..] == rest;
    } else {
      HexPairRead(d, acc, v[0], HexThen(v[1..], [GREATER] + rest));
      HexRead(d, acc + LowerHexPair(v[0]), v[1..], rest);
      Assoc(acc, LowerHexPair(v[0]), HexText(v[1..]));
    }
  }

  lemma {:induction false} HexTextDecodes(v: Bytes)
    ensures |HexText(v)| == 2 * |v| && HexDecode(HexText(v)) == v
  {
    if v == [] {
    } else {
      var p, h := LowerHexPair(v[0]), HexText(v);
      assert h[..2] == p && h[2..] == HexText(v[1..]);
      assert h[0] == p[0] && h[1] == p[1];
      HexTextDecodes(v[1..]);
      HeadTail(v);
    }
  }

  lemma {:induction false} HexStringRead(d: Dialect, v: Bytes, rest: Bytes)
    ensures HexBody(d, [], HexThen(v, [GREATER] + rest)) == Ok(v, rest)
  {
    HexRead(d, [], v, rest);
    AppendNothing(HexText(v));
    HexTextDecodes(v);
  }

  // ---- Numbers ----

  /** A byte at which a number read without a sign ends. */
  predicate EndsNumber(rest: Bytes) {
    rest == [] || (!IsFloatDigit(rest[0]) && rest[0] != MINUS && rest[0] != PLUS && rest[0] != 0x65 && rest[0] != 0x45)
  }

  lemma {:induction false} DigitsScanned(acc: Bytes, allowSigns: bool, ds: Bytes, rest: Bytes)
    requires AllDigits(ds) && EndsNumber(rest)
    ensures ScanNumber(acc, false, allowSigns, ds + rest) == Scan(acc + ds, false, rest)
    decreases |ds|
  {
    if ds == [] {
      AppendNothing(acc);
      AppendNothing(rest);
    } else {
      SplitAppend(ds, rest, 1);
      assert (ds + rest)[0] == ds[0];
      DigitsScanned(acc + [ds[0]], allowSigns, ds[1..], rest);
      Assoc(acc, [ds[0]], ds[1..]);
      HeadTail(ds);
    }
  }

  predicate IsInt64(n: int) {
    MIN_INT64 <= n <= MAX_INT64
  }

  lemma {:induction false} IntegerScanned(n: int, rest: Bytes)
    requires EndsNumber(rest)
    ensures ScanNumber([], false, true, FormatInt(n) + rest) == Scan(FormatInt(n), false, rest)
  {
    if n < 0 {
      var ds := Digits(-n);
      var s := FormatInt(n) + rest;
      assert s[0] == MINUS && s[1..] == ds + rest;
      AppendNothing([MINUS]);
      DigitsScanned([MINUS], false, ds, rest);
    } else {
      AppendNothing(Digits(n));
      DigitsScanned([], true, Digits(n), rest);
    }
  }

  lemma {:induction false} IntegerValueOf(n: int)
    requires IsInt64(n)
    ensures IntegerValue(FormatInt(n)) == n
  {
    if n < 0 {
      DecimalValueOfDigits(-n);
      assert FormatInt(n)[1..] == Digits(-n);
    } else {
      DecimalValueOfDigits(n);
      assert IsDecimalDigit(FormatInt(n)[0]);
    }
  }

  lemma {:induction false} IntegerRead(n: int, rest: Bytes)
    requires IsInt64(n) && EndsNumber(rest)
    ensures ParseNumber(FormatInt(n) + rest) == Ok(Int(n), rest)
  {
    IntegerScanned(n, rest);
    IntegerValueOf(n);
  }

  /** The first byte of a written integer, and that it looks like a number fifteen bytes ahead. */
  lemma {:induction false} IntegerLook(n: int, rest: Bytes)
    ensures var s := FormatInt(n) + rest;
            && s != [] && (s[0] == MINUS || IsDecimalDigit(s[0]))
            && LooksNumeric(s[..Min(PEEK, |s|)])
            && (n < 0 ==> |s| > 1 && s[0] == MINUS && IsDecimalDigit(s[1]))
            && (n >= 0 ==> IsDecimalDigit(s[0]))
  {
    var s := FormatInt(n) + rest;
    var ahead := s[..Min(PEEK, |s|)];
    if n < 0 {
      assert s[1] == Digits(-n)[0];
      assert ahead[1..][0] == s[1];
    } else {
      assert s[0] == Digits(n)[0];
    }
  }

  // ---- References ----

  lemma {:induction false} DigitRunOf(ds: Bytes, rest: Bytes)
    requires AllDigits(ds) && (rest == [] || !IsDecimalDigit(rest[0]))
    ensures DigitRun(ds + rest) == |ds|
  {
    if ds == [] {
      AppendNothing(rest);
    } else {
      SplitAppend(ds, rest, 1);
      assert (ds + rest)[0] == ds[0];
      DigitRunOf(ds[1..], rest);
    }
  }

  lemma {:induction false} OneSpace(s: Bytes)
    requires s != [] && IsRegexpSpace(s[0]) && (|s| > 1 ==> !IsRegexpSpace(s[1]))
    ensures SpaceRun(s) == 1
  {
    assert SpaceRun(s[1..]) == 0;
  }

  /** Space, digits, space and R in front of anything. */
  lemma {:induction false} RefTailMatches(ds: Bytes, rest: Bytes)
    requires ds != [] && AllDigits(ds)
    ensures MatchRefTail([SPACE] + (ds + ([SPACE, LETTER_R] + rest))) == Some((ds, |ds| + 3))
  {
    var t := [SPACE, LETTER_R] + rest;
    var s := [SPACE] + (ds + t);
    assert s[1..] == ds + t && s[1] == ds[0];
    OneSpace(s);
    DigitRunOf(ds, t);
    SplitAppend(ds, t, |ds|);
    WholeSlice(ds);
    AppendNothing(t);
    assert t[0] == SPACE && t[1] == LETTER_R && t[1..][0] == LETTER_R;
    OneSpace(t);
  }

  lemma {:induction false} NoTailWithout(s: Bytes)
    requires s == [] || !IsRegexpSpace(s[0])
    ensures MatchRefTail(s) == None
  {
  }

  lemma {:induction false} MatchRefAfterDigits(ds: Bytes, t: Bytes)
    requires ds != [] && AllDigits(ds) && (t == [] || !IsDecimalDigit(t[0]))
    ensures DashRun(ds + t) == 0 && DigitRun(ds + t) == |ds|
    ensures (ds + t)[|ds|..] == t && (ds + t)[..|ds|] == ds
  {
    assert (ds + t)[0] == ds[0];
    DigitRunOf(ds, t);
    SplitAppend(ds, t, |ds|);
    WholeSlice(ds);
    AppendNothing(t);
  }

  lemma {:induction false} MatchRefFrom(s: Bytes, m: nat, ds: Bytes, t: Bytes)
    requires ds != [] && AllDigits(ds) && (t == [] || !IsDecimalDigit(t[0]))
    requires SpaceRun(s) == 0 && DashRun(s) == m && s[m..] == ds + t
    ensures MatchRef(s) == match MatchRefTail(t)
                           case None => None
                           case Some(tail) => Some(RefParts(ds, tail.0, m + |ds| + tail.1))
  {
    WholeSlice(s);
    MatchRefAfterDigits(ds, t);
  }

  lemma {:induction false} SignRuns(n: int, t: Bytes, s: Bytes, m: nat)
    requires s == FormatInt(n) + t && m == if n < 0 then 1 else 0
    ensures SpaceRun(s) == 0 && DashRun(s) == m
    ensures s[m..] == Digits(if n < 0 then -n else n) + t
  {
    if n < 0 {
      assert s[0] == MINUS && s[1] == Digits(-n)[0];
      assert s[1..] == Digits(-n) + t;
      assert DashRun(s[1..]) == 0;
    } else {
      assert s[0] == Digits(n)[0];
      WholeSlice(s);
    }
  }

  /** A written integer followed by t is a reference exactly when t completes one. */
  lemma {:induction false} MatchRefAfter(n: int, t: Bytes, s: Bytes)
    requires s == FormatInt(n) + t && (t == [] || !IsDecimalDigit(t[0]))
    ensures MatchRef(s)
            == match MatchRefTail(t)
               case None => None
               case Some(tail) => Some(RefParts(Digits(if n < 0 then -n else n), tail.0, |FormatInt(n)| + tail.1))
  {
    var m := if n < 0 then 1 else 0;
    SignRuns(n, t, s, m);
    MatchRefFrom(s, m, Digits(if n < 0 then -n else n), t);
  }

  // ---- Looking ahead at a prefix ----

  lemma {:induction false} SpaceRunPrefix(a: Bytes, b: Bytes)
    requires SpaceRun(a) < |a|
    ensures SpaceRun(a + b) == SpaceRun(a)
  {
    assert (a + b)[0] == a[0];
    if IsRegexpSpace(a[0]) {
      SplitAppend(a, b, 1);
      SpaceRunPrefix(a[1..], b);
    }
  }

  lemma {:induction false} DigitRunPrefix(a: Bytes, b: Bytes)
    requires DigitRun(a) < |a|
    ensures DigitRun(a + b) == DigitRun(a)
  {
    assert (a + b)[0] == a[0];
    if IsDecimalDigit(a[0]) {
      SplitAppend(a, b, 1);
      DigitRunPrefix(a[1..], b);
    }
  }

  lemma {:induction false} MatchRefTailPrefix(a: Bytes, b: Bytes, s: Bytes)
    requires s == a + b && MatchRefTail(a).Some?
    ensures MatchRefTail(s) == MatchRefTail(a)
  {
    var w := SpaceRun(a);
    var a1 := a[w..];
    var g := DigitRun(a1);
    var a2 := a1[g..];
    var w' := SpaceRun(a2);
    SpaceRunPrefix(a, b);
    SplitAppend(a, b, w);
    DigitRunPrefix(a1, b);
    SplitAppend(a1, b, g);
    SpaceRunPrefix(a2, b);
    SplitAppend(a2, b, w');
  }

  /** Fifteen bytes ahead of a written integer that fills them there is no reference. */
  lemma {:induction false} LongIntegerAhead(n: int, ahead: Bytes)
    requires |FormatInt(n)| >= PEEK && ahead == FormatInt(n)[..PEEK]
    ensures MatchRef(ahead) == None
  {
    var m := if n < 0 then 1 else 0;
    var ds := ahead[m..];
    AppendNothing(ds);
    if n < 0 {
      assert ahead[0] == MINUS && forall i :: 0 <= i < |ds| ==> ds[i] == Digits(-n)[i];
      assert ds[0] == ahead[1];
      assert DashRun(ahead[1..]) == 0;
    } else {
      assert forall i :: 0 <= i < |ds| ==> ds[i] == Digits(n)[i];
      assert ahead[0] == ds[0];
    }
    MatchRefFrom(ahead, m, ds, []);
  }

  /** Fifteen bytes ahead of a written integer there is no reference unless a short one follows. */
  lemma {:induction false} NoReferenceAhead(n: int, t: Bytes, s: Bytes)
    requires s == FormatInt(n) + t && (t == [] || !IsDecimalDigit(t[0]))
    requires MatchRefTail(t).None? || |FormatInt(n)| + MatchRefTail(t).value.1 > PEEK
    ensures MatchRef(s[..Min(PEEK, |s|)]) == None
  {
    var ahead := s[..Min(PEEK, |s|)];
    var f := |FormatInt(n)|;
    if f >= PEEK {
      SplitAppend(FormatInt(n), t, PEEK);
      LongIntegerAhead(n, ahead);
    } else {
      var k := |ahead| - f;
      var t' := t[..k];
      assert ahead == FormatInt(n) + t' && t == t' + t[k..];
      MatchRefAfter(n, t', ahead);
      if MatchRefTail(t').Some? {
        MatchRefTailPrefix(t', t[k..], t);
      }
    }
  }

  lemma {:induction false} RefTextSplits(num: int, gen: nat, rest: Bytes)
    ensures FormatInt(num) + RefTail(gen, rest) == (FormatInt(num) + RefTail(gen, [])) + rest
    ensures |RefTail(gen, [])| == |Digits(gen)| + 3
  {
    var f, g := FormatInt(num), Digits(gen);
    AppendNothing([SPACE, LETTER_R]);
    Assoc(f, RefTail(gen, []), rest);
    Assoc([SPACE], g + [SPACE, LETTER_R], rest);
    Assoc(g, [SPACE, LETTER_R], rest);
  }

  lemma {:induction false} TakePast<T>(a: seq<T>, b: seq<T>, k: nat)
    requires k <= |b|
    ensures (a + b)[..|a| + k] == a + b[..k] && (a + b)[|a| + k..] == b[k..]
  {}

  /** A written reference that ends within fifteen bytes is seen as one. */
  lemma {:induction false} ReferenceAhead(num: int, gen: nat, rest: Bytes, s: Bytes)
    requires s == FormatInt(num) + RefTail(gen, rest) && |FormatInt(num)| + |Digits(gen)| + 3 <= PEEK
    ensures MatchRef(s[..Min(PEEK, |s|)]).Some?
  {
    var ahead := s[..Min(PEEK, |s|)];
    RefTextSplits(num, gen, rest);
    var k := |ahead| - |FormatInt(num)| - |Digits(gen)| - 3;
    var t' := RefTail(gen, rest[..k]);
    TakePast(FormatInt(num) + RefTail(gen, []), rest, k);
    RefTextSplits(num, gen, rest[..k]);
    RefTailMatches(Digits(gen), rest[..k]);
    MatchRefAfter(num, t', ahead);
  }

  lemma {:induction false} ThroughROf(a: Bytes, rest: Bytes)
    requires forall i :: 0 <= i < |a| ==> a[i] != LETTER_R
    ensures ThroughR(a + ([LETTER_R] + rest)) == |a| + 1
  {
    var s := a + ([LETTER_R] + rest);
    if a == [] {
      assert s[0] == LETTER_R;
    } else {
      assert s[0] == a[0];
      SplitAppend(a, [LETTER_R] + rest, 1);
      ThroughROf(a[1..], rest);
    }
  }

  lemma {:induction false} NoRInFormat(n: int)
    ensures forall i :: 0 <= i < |FormatInt(n)| ==> FormatInt(n)[i] != LETTER_R
  {
    forall i | 0 <= i < |FormatInt(n)| ensures FormatInt(n)[i] != LETTER_R {
      if n < 0 && i > 0 {
        assert FormatInt(n)[i] == Digits(-n)[i - 1];
      }
    }
  }

  lemma {:induction false} ShortDigits(ds: Bytes)
    requires AllDigits(ds) && |ds| <= 18
    ensures DecimalValue(ds) <= MAX_INT64
  {
    DecimalBound(ds);
    TenToThe18();
    if |ds| < 18 { PowerGrows(|ds|, 18); }
  }

  function Pow10(k: nat): nat {
    if k == 0 then 1 else 10 * Pow10(k - 1)
  }

  lemma {:induction false} DecimalBound(ds: Bytes)
    requires AllDigits(ds)
    ensures DecimalValue(ds) < Pow10(|ds|)
  {
    if ds == [] {
    } else {
      DecimalBound(ds[..|ds| - 1]);
    }
  }

  lemma {:induction false} PowerGrows(a: nat, b: nat)
    requires a <= b
    ensures Pow10(a) <= Pow10(b)
    decreases b
  {
    if a >= b {
    } else {
      PowerGrows(a, b - 1);
    }
  }

  lemma {:induction false} TenToThe18()
    ensures Pow10(18) == 1_000_000_000_000_000_000
  {
    assert Pow10(6) == 1_000_000;
    assert Pow10(12) == 1_000_000_000_000;
  }

  lemma {:induction false} RefThroughR(num: int, gen: nat, rest: Bytes, s: Bytes)
    requires s == FormatInt(num) + RefTail(gen, rest)
    ensures ThroughR(s) == |FormatInt(num)| + |Digits(gen)| + 3
  {
    var f, g := FormatInt(num), Digits(gen);
    var a := f + ([SPACE] + (g + [SPACE]));
    NoRInFormat(num);
    ThroughROf(a, rest);
    assert [SPACE, LETTER_R] + rest == [SPACE] + ([LETTER_R] + rest);
    Assoc(g, [SPACE], [LETTER_R] + rest);
    Assoc([SPACE], g + [SPACE], [LETTER_R] + rest);
    Assoc(f, [SPACE] + (g + [SPACE]), [LETTER_R] + rest);
  }

  /** A written reference is read through its R. */
  lemma {:induction false} ReferenceRead(num: int, gen: nat, rest: Bytes, s: Bytes)
    requires s == FormatInt(num) + RefTail(gen, rest) && |FormatInt(num)| + |Digits(gen)| + 3 <= PEEK
    ensures ReadReference(s) == Ok(Ref(if num < 0 then -num else num, gen), rest)
  {
    var read := FormatInt(num) + RefTail(gen, []);
    RefTextSplits(num, gen, rest);
    RefThroughR(num, gen, rest, s);
    TakePast(read, rest, 0);
    AppendNothing(read);
    WholeSlice(rest);
    RefTailMatches(Digits(gen), []);
    MatchRefAfter(num, RefTail(gen, []), read);
    var ds := Digits(if num < 0 then -num else num);
    DecimalValueOfDigits(if num < 0 then -num else num);
    DecimalValueOfDigits(gen);
    ShortDigits(ds);
    ShortDigits(Digits(gen));
  }
}
