/** The written forms and the character classes of sections 7.2 and 7.3 of ISO 32000-1, character by character. */
module SyntaxForms {
  import opened Bytes
  import opened Objects
  import opened Syntax
  import opened SyntaxTokens
  import opened SyntaxSpellings

  // ---- Characters ----

  predicate IsOneOf(c: byte, chars: string) {
    exists i :: 0 <= i < |chars| && chars[i] as int == c
  }

  lemma {:induction false} Classes(c: byte)
    ensures IsWhiteSpace(c) <==> c == 0 || c == 9 || c == 10 || c == 12 || c == 13 || c == 32
    ensures IsDelimiter(c) <==> IsOneOf(c, "()<>[]{}/%")
    ensures EndsName(c) <==> IsWhiteSpace(c) || IsOneOf(c, "/[](<>")
    ensures IsRegexpSpace(c) <==> IsWhiteSpace(c) && c != 0
  {
    var d, e := "()<>[]{}/%", "/[](<>";
    assert d[0] == '(' && d[1] == ')' && d[2] == '<' && d[3] == '>' && d[4] == '[' && d[5] == ']';
    assert d[6] == '{' && d[7] == '}' && d[8] == '/' && d[9] == '%';
    assert e[0] == '/' && e[1] == '[' && e[2] == ']' && e[3] == '(' && e[4] == '<' && e[5] == '>';
  }

  lemma {:induction false} DigitClasses(c: byte)
    ensures IsDecimalDigit(c) <==> '0' as int <= c <= '9' as int
    ensures IsOctalDigit(c) <==> '0' as int <= c <= '7' as int
    ensures IsHexDigit(c) <==>
              IsDecimalDigit(c) || 'a' as int <= c <= 'f' as int || 'A' as int <= c <= 'F' as int
  {
  }

  lemma {:induction false} HexDigits(v: nat)
    requires v < 16
    ensures LowerHexDigit(v) == "0123456789abcdef"[v] as int && UpperHexDigit(v) == "0123456789ABCDEF"[v] as int
  {
  }

  lemma {:induction false} DecimalDigits(ds: Bytes, c: byte)
    requires AllDigits(ds) && IsDecimalDigit(c)
    ensures AllDigits(ds + [c]) && DecimalValue(ds + [c]) == 10 * DecimalValue(ds) + (c - '0' as int)
  {
    assert (ds + [c])[..|ds|] == ds;
  }

  // ---- What is written ----

  lemma {:induction false} WordsAre()
    ensures WriteString(Null) == Ascii("null") && WriteString(Bool(true)) == Ascii("true")
    ensures WriteString(Bool(false)) == Ascii("false")
  {
  }

  /** Strings, names, numbers and references. */
  lemma {:induction false} TokensAre(v: Bytes, n: int, g: int)
    ensures WriteString(Str(v, false)) == Ascii("(") + EscapedText(v) + Ascii(")")
    ensures WriteString(Str(v, true)) == Ascii("<") + HexText(v) + Ascii(">")
    ensures WriteString(Name(v)) == Ascii("/") + NameText(v)
    ensures n >= 0 ==> WriteString(Int(n)) == Digits(n)
    ensures n > 0 ==> WriteString(Int(-n)) == Ascii("-") + Digits(n)
    ensures WriteString(Ref(n, g)) == FormatInt(n) + Ascii(" ") + FormatInt(g) + Ascii(" R")
  {
    assert Ascii("(") == [LPAREN] && Ascii(")") == [RPAREN] && Ascii("<") == [LESS] && Ascii(">") == [GREATER];
    assert Ascii("/") == [SLASH] && Ascii("-") == [MINUS] && Ascii(" ") == [SPACE] && Ascii(" R") == [SPACE, LETTER_R];
  }

  /** The bytes of a literal string that are written as escapes. */
  lemma {:induction false} EscapesAre(c: byte)
    ensures EscapedByte(c)
            == match c as char
               case '\n' => Ascii("\\n")
               case '\r' => Ascii("\\r")
               case '\t' => Ascii("\\t")
               case '(' => Ascii("\\(")
               case ')' => Ascii("\\)")
               case '\\' => Ascii("\\\\")
               case _ => if c == 8 then Ascii("\\b") else if c == 12 then Ascii("\\f") else [c]
  {
    assert Ascii("\\n") == [0x5C, 0x6E] && Ascii("\\r") == [0x5C, 0x72] && Ascii("\\t") == [0x5C, 0x74];
    assert Ascii("\\(") == [0x5C, 0x28] && Ascii("\\)") == [0x5C, 0x29] && Ascii("\\\\") == [0x5C, 0x5C];
    assert Ascii("\\b") == [0x5C, 0x62] && Ascii("\\f") == [0x5C, 0x66];
  }

  /** The bytes of a name that are written as codes: all but the regular characters from ! to ~ other than #. */
  lemma {:induction false} NameBytesAre(c: byte)
    ensures NameByte(c)
            == if '!' as int <= c <= '~' as int && c != '#' as int && !IsDelimiter(c) then [c]
               else Ascii("#") + [LowerHexDigit(c / 16), LowerHexDigit(c % 16)]
  {
    assert Ascii("#") == [HASH];
  }

  /** Texts with a space between them. */
  function Joined(es: seq<Obj>): Bytes {
    if es == [] then []
    else if |es| == 1 then WriteString(es[0])
    else Joined(es[..|es| - 1]) + Ascii(" ") + WriteString(es[|es| - 1])
  }

  lemma {:induction false} JoinedFirst(es: seq<Obj>)
    requires |es| >= 2
    ensures Joined(es) == WriteString(es[0]) + Ascii(" ") + Joined(es[1..])
    decreases |es|
  {
    var n := |es| - 1;
    if n == 1 {
      assert es[..1] == [es[0]] && es[1..] == [es[1]];
    } else {
      JoinedFirst(es[..n]);
      assert es[..n][1..] == es[1..][..n - 1] && es[1..][n - 1] == es[n];
      var a, b, sp, z := WriteString(es[0]), Joined(es[1..][..n - 1]), Ascii(" "), WriteString(es[n]);
      assert ((a + sp) + b) + sp + z == (a + sp) + (b + sp + z);
    }
  }

  lemma {:induction false} ElemsAreJoined(es: seq<Obj>)
    ensures WriteElems(es) == Joined(es)
    decreases |es|
  {
    assert Ascii(" ") == [SPACE];
    if |es| >= 2 {
      ElemsAreJoined(es[1..]);
      JoinedFirst(es);
    }
  }

  /** The entries one behind the other, each as its name, a space and its value. */
  function Listed(es: seq<Entry>): Bytes {
    if es == [] then []
    else
      var e := es[|es| - 1];
      Listed(es[..|es| - 1]) + (Ascii("/") + NameText(e.key) + Ascii(" ") + WriteString(e.value))
  }

  function EntryText(e: Entry): Bytes {
    WriteName(e.key) + [SPACE] + WriteString(e.value)
  }

  lemma {:induction false} EntriesLast(es: seq<Entry>)
    requires es != []
    ensures WriteEntries(es) == WriteEntries(es[..|es| - 1]) + EntryText(es[|es| - 1])
    decreases |es|
  {
    var n := |es| - 1;
    if n == 0 {
      assert es[1..] == [];
      AppendNothing(EntryText(es[0]));
    } else {
      EntriesLast(es[1..]);
      assert es[1..][..n - 1] == es[..n][1..] && es[1..][n - 1] == es[n];
      Assoc(EntryText(es[0]), WriteEntries(es[..n][1..]), EntryText(es[n]));
    }
  }

  lemma {:induction false} EntriesAreListed(es: seq<Entry>)
    ensures WriteEntries(es) == Listed(es)
    decreases |es|
  {
    assert Ascii(" ") == [SPACE] && Ascii("/") == [SLASH];
    if es != [] {
      EntriesAreListed(es[..|es| - 1]);
      EntriesLast(es);
    }
  }

  /** Arrays and dictionaries. */
  lemma {:induction false} ContainersAre(elems: seq<Obj>, entries: seq<Entry>)
    ensures WriteString(Array(elems)) == Ascii("[") + Joined(elems) + Ascii("]")
    ensures WriteString(Dict(entries)) == Ascii("<<") + Listed(entries) + Ascii(">>")
  {
    assert Ascii("[") == [LBRACKET] && Ascii("]") == [RBRACKET];
    assert Ascii("<<") == [LESS, LESS] && Ascii(">>") == [GREATER, GREATER];
    ElemsAreJoined(elems);
    EntriesAreListed(entries);
  }

  // ---- What is read ----

  /** A byte of a name that is no code: the content stream reader turns it into UTF-8. */
  lemma {:induction false} NameByteIsRead(d: Dialect, acc: Bytes, c: byte, more: Bytes)
    requires !EndsName(c) && c != '#' as int
    ensures NameBody(d, acc, [c] + more)
            == NameBody(d, acc + (if d.File? || c < 128 then [c] else [192 + c / 64, 128 + c % 64]), more)
  {
    assert ([c] + more)[0] == c && ([c] + more)[1..] == more;
  }

  /** A # without two hexadecimal digits: the file reader keeps it, the other one refuses it. */
  lemma {:induction false} BareHashIsRead(d: Dialect, acc: Bytes, a: byte, b: byte, more: Bytes)
    requires !(IsHexDigit(a) && IsHexDigit(b))
    ensures NameBody(d, acc, Ascii("#") + [a, b] + more)
            == if d.File? then NameBody(d, acc + Ascii("#"), [a, b] + more) else Fail(Malformed)
  {
    var s := Ascii("#") + [a, b] + more;
    assert Ascii("#") == [HASH];
    assert s[0] == HASH && s[1] == a && s[2] == b && s[1..] == [a, b] + more;
  }

  /** Digits, points and exponents; a sign only in front, and behind an exponent. */
  predicate IsNumberText(t: Bytes, sign: bool) {
    t == [] ||
    if t[0] == '+' as int || t[0] == '-' as int then sign && IsNumberText(t[1..], false)
    else if t[0] == 'e' as int || t[0] == 'E' as int then IsNumberText(t[1..], true)
    else ('0' as int <= t[0] <= '9' as int || t[0] == '.' as int) && IsNumberText(t[1..], sign)
  }

  predicate IsFloatText(t: Bytes) {
    exists i :: 0 <= i < |t| && (t[i] == '.' as int || t[i] == 'e' as int || t[i] == 'E' as int)
  }

  lemma {:induction false} FloatTextFirst(t: Bytes)
    requires t != []
    ensures IsFloatText(t)
            <==> t[0] == '.' as int || t[0] == 'e' as int || t[0] == 'E' as int || IsFloatText(t[1..])
  {
    if IsFloatText(t[1..]) {
      var i :| 0 <= i < |t[1..]| && (t[1..][i] == '.' as int || t[1..][i] == 'e' as int || t[1..][i] == 'E' as int);
      assert t[i + 1] == t[1..][i];
    }
    if IsFloatText(t) {
      var i :| 0 <= i < |t| && (t[i] == '.' as int || t[i] == 'e' as int || t[i] == 'E' as int);
      if i > 0 { assert t[1..][i - 1] == t[i]; }
    }
  }

  lemma {:induction false} NumberScanned(acc: Bytes, isFloat: bool, sign: bool, t: Bytes, rest: Bytes)
    requires IsNumberText(t, sign) && EndsNumber(rest)
    ensures ScanNumber(acc, isFloat, sign, t + rest) == Scan(acc + t, isFloat || IsFloatText(t), rest)
    decreases |t|
  {
    if t == [] {
      AppendNothing(rest);
      AppendNothing(acc);
    } else {
      var s, c := t + rest, t[0];
      assert s[0] == c && s[1..] == t[1..] + rest;
      FloatTextFirst(t);
      assert acc + [c] + t[1..] == acc + t;
      var sign' := if c == '+' as int || c == '-' as int then false
                   else if c == 'e' as int || c == 'E' as int then true else sign;
      var float' := isFloat || c == '.' as int || c == 'e' as int || c == 'E' as int;
      NumberScanned(acc + [c], float', sign', t[1..], rest);
    }
  }

  /** A number with a point or an exponent is a float with its text, and reading stops behind it. */
  lemma {:induction false} FloatIsRead(t: Bytes, rest: Bytes)
    requires IsNumberText(t, true) && IsFloatText(t) && EndsNumber(rest)
    ensures ParseNumber(t + rest) == Ok(Float(t), rest)
  {
    NumberScanned([], false, true, t, rest);
    AppendNothing(t);
  }

  /** The digits that the reader keeps of a hexadecimal string: the file reader keeps all but white space. */
  function HexKept(d: Dialect, t: Bytes): Bytes {
    if t == [] then []
    else
      var keep := (d.File? && !IsWhiteSpace(t[0])) || (d.Content? && IsHexDigit(t[0]));
      (if keep then [t[0]] else []) + HexKept(d, t[1..])
  }

  lemma {:induction false} HexAnyIsRead(d: Dialect, acc: Bytes, t: Bytes, rest: Bytes)
    requires GREATER !in t
    ensures HexBody(d, acc, t + ([GREATER] + rest)) == Ok(HexDecode(EvenHex(acc + HexKept(d, t))), rest)
    decreases |t|
  {
    var s := t + ([GREATER] + rest);
    if t == [] {
      AppendNothing(acc);
      assert s[0] == GREATER && s[1..] == rest;
    } else {
      assert t[0] in t && s[0] == t[0] && s[1..] == t[1..] + ([GREATER] + rest);
      var kept := (d.File? && !IsWhiteSpace(t[0])) || (d.Content? && IsHexDigit(t[0]));
      HexAnyIsRead(d, if kept then acc + [t[0]] else acc, t[1..], rest);
      if kept { Assoc(acc, [t[0]], HexKept(d, t[1..])); } else { AppendNothing(HexKept(d, t[1..])); }
    }
  }

  /** Pairs of digits are bytes, up to a pair that is none; a digit that is left over counts as the higher one. */
  lemma {:induction false} HexPairs(h: byte, l: byte, more: Bytes)
    ensures IsHexDigit(h) && IsHexDigit(l) ==>
              HexDecode([h, l] + more) == [16 * HexValue(h) + HexValue(l)] + HexDecode(more)
    ensures !(IsHexDigit(h) && IsHexDigit(l)) ==> HexDecode([h, l] + more) == []
    ensures IsHexDigit(h) ==> HexDecode(EvenHex([h])) == [16 * HexValue(h)]
    ensures HexDecode([]) == [] && EvenHex([]) == []
  {
    var s := [h, l] + more;
    assert s[0] == h && s[1] == l && s[2..] == more;
    assert [h] + [0x30] == [h, 0x30] && [h, 0x30][2..] == [];
  }

  /** A dictionary that ends behind a key in ...null makes the reader index an empty look-ahead. */
  lemma {:induction false} NullKeyAtEnd(ps: seq<NamePiece>)
    requires (forall p :: p in ps ==> IsNamePiece(File, p)) && EndsInNull(NameMeaning(File, ps))
    ensures ParseAt(File, Ascii("<</") + NamePiecesThen(ps, [])) == Fail(Panic)
  {
    var t := NamePiecesThen(ps, []);
    var s, s1 := Ascii("<</") + t, [SLASH] + t;
    assert s[0] == LESS && s[1] == LESS && s[2..] == s1 && s1[0] == SLASH && s1[1..] == t;
    NamePiecesAreRead(File, [], ps, []);
    AppendNothing(NameMeaning(File, ps));
    assert SkipComments(SkipSpaces(s1)) == s1;
    PiecesAreThere(ps);
    assert ParseName(File, s1) == Ok(NameMeaning(File, ps), []);
    assert ParseEntries(File, [], s1) == Fail(Panic);
  }

  lemma {:induction false} PiecesAreThere(ps: seq<NamePiece>)
    requires (forall p :: p in ps ==> IsNamePiece(File, p)) && NameMeaning(File, ps) != []
    ensures NamePiecesThen(ps, []) != []
  {
  }

  lemma {:induction false} EndsInNullIff(key: Bytes)
    ensures EndsInNull(key) <==> exists k :: k != [] && key == k + Ascii("null")
  {
    assert Ascii("null") == NULL_WORD;
    if EndsInNull(key) { assert key == key[..|key| - 4] + Ascii("null"); }
    forall k | k != [] && key == k + Ascii("null") ensures EndsInNull(key) { assert key[|k|..] == NULL_WORD; }
  }

  /** Integers have 64 bits. */
  lemma {:induction false} Int64()
    ensures MAX_INT64 == 9223372036854775807 && MIN_INT64 == -9223372036854775808
  {
  }

  /** A comment in front of a key is passed over with its line. */
  lemma {:induction false} CommentBeforeKey(c: Bytes, eol: byte, s: Bytes)
    requires (forall i :: 0 <= i < |c| ==> c[i] != CR && c[i] != LF) && (eol == CR || eol == LF)
    requires SkipSpaces(s) != []
    ensures ParseName(File, [PERCENT] + c + ([eol] + s)) == ParseName(File, SkipSpaces(s))
  {
    var t, line := [PERCENT] + c, [eol] + s;
    LineIsDropped(t, line);
    assert line[0] == eol && line[1..] == s && (t + line)[0] == PERCENT;
    assert SkipSpaces(line) == SkipSpaces(s);
  }
}
