/** Reading back whole object trees. For every object tree and both readers, reading the written text
    returns the tree and stops where it ends exactly when the tree is Clean. */
module SyntaxRoundTrip {
  import opened Bytes
  import opened Objects
  import opened Syntax
  import opened SyntaxTokens

  /** Objects as the library holds them: 64-bit integers, one entry per key, and no floats. */
  predicate Valid(o: Obj) {
    match o
    case Int(n) => IsInt64(n)
    case Float(_) => false
    case Ref(num, gen) => IsInt64(num) && IsInt64(gen)
    case Array(elems) => forall e :: e in elems ==> Valid(e)
    case Dict(entries) => DistinctKeys(entries) && forall e :: e in entries ==> Valid(e.value)
    case _ => true
  }

  /** A key ending in null in front of a name is taken for a key with a null value. */
  predicate MistakenForNull(e: Entry) {
    EndsInNull(e.key) && e.value.Name?
  }

  /** What a caller can check before writing: references are not negative and have at most twelve
      digits (and do not occur in content streams), and no entry is mistaken for a null. */
  predicate Clean(d: Dialect, o: Obj) {
    match o
    case Ref(num, gen) => d.File? && num >= 0 && gen >= 0 && |Digits(num)| + |Digits(gen)| <= 12
    case Array(elems) => forall e :: e in elems ==> Clean(d, e)
    case Dict(entries) => forall e :: e in entries ==> !MistakenForNull(e) && Clean(d, e.value)
    case _ => true
  }

  /** What may follow an object: a delimiter, and in a file not the rest of a reference. */
  predicate Follows(d: Dialect, rest: Bytes) {
    && (rest == [] ==> d.File?)
    && (rest != [] ==> EndsName(rest[0]))
    && (d.File? ==> MatchRefTail(rest).None?)
  }

  lemma {:induction false} FollowsDelimiter(d: Dialect, rest: Bytes)
    requires rest != [] && EndsName(rest[0]) && !IsRegexpSpace(rest[0])
    ensures Follows(d, rest)
  {
    NoTailWithout(rest);
  }

  // ---- How a written object begins ----

  predicate StartsObject(c: byte) {
    !IsWhiteSpace(c) && c != PERCENT && c != RBRACKET && c != GREATER && c != LETTER_R
  }

  lemma {:induction false} TextStart(o: Obj, rest: Bytes, s: Bytes)
    requires Valid(o) && s == TextThen(o, rest)
    ensures s != [] && StartsObject(s[0]) && (s[0] == SLASH <==> o.Name?)
    ensures IsDecimalDigit(s[0]) ==> (o.Int? && o.n >= 0) || (o.Ref? && o.num >= 0)
    ensures |s| > |rest|
  {
    match o
    case Int(n) => IntegerLook(n, rest);
    case Ref(num, gen) => IntegerLook(num, RefTail(gen, rest));
    case Str(val, isHex) =>
      HexThenIs(val, [GREATER] + rest);
      EscapedThenIs(val, [RPAREN] + rest);
    case Name(name) => NameThenIs(name, rest);
    case Array(elems) => ElemsThenIs(elems, [RBRACKET] + rest);
    case Dict(entries) => EntriesThenIs(entries, [GREATER, GREATER] + rest);
    case _ =>
  }

  // ---- Leaves ----

  lemma {:induction false} AtWord(s: Bytes)
    requires s != [] && (IsDecimalDigit(s[0]) || s[0] == MINUS)
    ensures ParseAt(File, s) == Plain(FileWord(s))
  {
    assert s[0] != PERCENT && s[0] != SLASH && s[0] != LPAREN && s[0] != LBRACKET && s[0] != LESS;
  }

  lemma {:induction false} NotKeyword(s: Bytes)
    requires s != [] && (IsDecimalDigit(s[0]) || s[0] == MINUS)
    ensures Keyword(s) == None
  {
  }

  lemma {:induction false} AtReference(s: Bytes, ahead: Bytes)
    requires s != [] && Keyword(s) == None && ahead == s[..Min(PEEK, |s|)] && MatchRef(ahead).Some?
    ensures FileWord(s) == ReadReference(s)
  {
  }

  lemma {:induction false} AtNumber(s: Bytes, ahead: Bytes)
    requires s != [] && Keyword(s) == None && ahead == s[..Min(PEEK, |s|)]
    requires MatchRef(ahead).None? && LooksNumeric(ahead)
    ensures FileWord(s) == ParseNumber(s)
  {
  }

  lemma {:induction false} ReadNull(d: Dialect, rest: Bytes)
    ensures ParseAt(d, NULL_WORD + rest) == Ok(Token(Null, false), rest)
  {
    var s := NULL_WORD + rest;
    assert s[4..] == rest && s[0] == 0x6E;
  }

  lemma {:induction false} ReadBool(d: Dialect, b: bool, rest: Bytes)
    ensures ParseAt(d, (if b then TRUE_WORD else FALSE_WORD) + rest) == Ok(Token(Bool(b), false), rest)
  {
    var w := if b then TRUE_WORD else FALSE_WORD;
    var s := w + rest;
    assert s[|w|..] == rest && s[0] == w[0];
    assert w <= s;
  }

  lemma {:induction false} ReadStr(d: Dialect, v: Bytes, isHex: bool, rest: Bytes)
    ensures ParseAt(d, TextThen(Str(v, isHex), rest)) == Ok(Token(Str(v, isHex), false), rest)
  {
    var s := TextThen(Str(v, isHex), rest);
    if isHex {
      var t := HexThen(v, [GREATER] + rest);
      assert s[0] == LESS && s[1..] == t;
      HexStringRead(d, v, rest);
      if v == [] {
        assert s[1] == GREATER;
      } else {
        assert s[1] == LowerHexDigit(v[0] / 16);
      }
    } else {
      var t := EscapedThen(v, [RPAREN] + rest);
      assert s[0] == LPAREN && s[1..] == t;
      EscapedThenIs(v, [RPAREN] + rest);
      StringRead([], v, rest);
      AppendNothing(v);
    }
  }

  lemma {:induction false} ReadName(d: Dialect, n: Bytes, rest: Bytes)
    requires rest == [] ==> d.File?
    requires rest != [] ==> EndsName(rest[0])
    ensures ParseName(d, [SLASH] + NameThen(n, rest)) == Ok(n, rest)
    ensures ParseAt(d, [SLASH] + NameThen(n, rest)) == Ok(Token(Name(n), false), rest)
  {
    var s := [SLASH] + NameThen(n, rest);
    assert s[0] == SLASH && s[1..] == NameThen(n, rest);
    NameThenIs(n, rest);
    NameRead(d, [], n, rest);
    AppendNothing(n);
  }

  /** An integer in front of t is read as an integer, also where t was meant to make it a reference. */
  lemma {:induction false} ReadInteger(d: Dialect, n: int, t: Bytes, s: Bytes)
    requires IsInt64(n) && s == FormatInt(n) + t && EndsNumber(t) && (t == [] ==> d.File?)
    requires d.File? ==> MatchRef(s[..Min(PEEK, |s|)]) == None
    ensures ParseAt(d, s) == Ok(Token(Int(n), false), t)
  {
    IntegerLook(n, t);
    IntegerRead(n, t);
    if d.File? {
      AtWord(s);
      NotKeyword(s);
      AtNumber(s, s[..Min(PEEK, |s|)]);
    }
  }

  lemma {:induction false} ReadReferenceToken(num: int, gen: nat, rest: Bytes, s: Bytes)
    requires s == FormatInt(num) + RefTail(gen, rest) && |FormatInt(num)| + |Digits(gen)| + 3 <= PEEK
    ensures ParseAt(File, s) == Ok(Token(Ref(if num < 0 then -num else num, gen), false), rest)
  {
    IntegerLook(num, RefTail(gen, rest));
    ReferenceAhead(num, gen, rest, s);
    ReferenceRead(num, gen, rest, s);
    AtWord(s);
    NotKeyword(s);
    AtReference(s, s[..Min(PEEK, |s|)]);
  }

  // ---- Turns of the array loop ----

  lemma {:induction false} ElemsEnd(d: Dialect, acc: seq<Obj>, s: Bytes)
    requires s != [] && s[0] == RBRACKET
    ensures ParseElems(d, acc, s) == Ok(Array(acc), s[1..])
  {
  }

  lemma {:induction false} ElemsTurn(d: Dialect, acc: seq<Obj>, s: Bytes, t: Token, rest: Bytes)
    requires s != [] && (StartsObject(s[0]) || s[0] == LETTER_R)
    requires ParseAt(d, s) == Ok(t, rest) && |rest| < |s|
    ensures ParseElems(d, acc, s) == ParseElems(d, acc + [t.obj], rest)
  {
    assert !IsWhiteSpace(s[0]) && s[0] != RBRACKET;
  }

  lemma {:induction false} ElemsSpace(d: Dialect, acc: seq<Obj>, s: Bytes)
    requires s != [] && !IsWhiteSpace(s[0])
    ensures ParseElems(d, acc, [SPACE] + s) == ParseElems(d, acc, s)
  {
    assert ([SPACE] + s)[0] == SPACE && ([SPACE] + s)[1..] == s;
    assert SkipSpaces([SPACE] + s) == s == SkipSpaces(s);
  }

  lemma {:induction false} ElemsStart(es: seq<Obj>, rest: Bytes, s: Bytes)
    requires (forall e :: e in es ==> Valid(e)) && s == ElemsThen(es, [RBRACKET] + rest)
    ensures s != [] && !IsWhiteSpace(s[0]) && s[0] != LETTER_R && s[0] != PERCENT
  {
    if es != [] {
      TextStart(es[0], MoreThen(es[1..], [RBRACKET] + rest), s);
    }
  }

  lemma {:induction false} MoreIsElems(d: Dialect, acc: seq<Obj>, es: seq<Obj>, rest: Bytes)
    requires forall e :: e in es ==> Valid(e)
    ensures ParseElems(d, acc, MoreThen(es, [RBRACKET] + rest)) == ParseElems(d, acc, ElemsThen(es, [RBRACKET] + rest))
  {
    if es != [] {
      ElemsStart(es, rest, ElemsThen(es, [RBRACKET] + rest));
      ElemsSpace(d, acc, ElemsThen(es, [RBRACKET] + rest));
    }
  }

  /** No object is followed by something that would turn it into a reference. */
  lemma {:induction false} NoTailAfterSpace(t: Bytes, g: nat, s: Bytes)
    requires s == [SPACE] + t && t != [] && !IsRegexpSpace(t[0]) && g == DigitRun(t)
    requires g == 0 || SpaceRun(t[g..]) == 0 || (|t| > g + 1 && !IsRegexpSpace(t[g + 1]) && t[g + 1] != LETTER_R)
    ensures MatchRefTail(s) == None
  {
    assert s[1..] == t && s[1] == t[0];
    OneSpace(s);
    if g > 0 && SpaceRun(t[g..]) > 0 {
      OneSpace(t[g..]);
      assert t[g..][1..][0] == t[g + 1];
    }
  }

  lemma {:induction false} NoTailAtObject(o: Obj, rest: Bytes, t: Bytes, s: Bytes)
    requires Valid(o) && t == TextThen(o, rest) && s == [SPACE] + t
    requires rest != [] && !IsDecimalDigit(rest[0])
    requires SpaceRun(rest) == 0 || (|rest| > 1 && !IsRegexpSpace(rest[1]) && rest[1] != LETTER_R)
    ensures MatchRefTail(s) == None
  {
    TextStart(o, rest, t);
    if !IsDecimalDigit(t[0]) {
      NoTailAfterSpace(t, 0, s);
    } else if o.Int? {
      MatchRefAfterDigits(Digits(o.n), rest);
      NoTailAfterSpace(t, |Digits(o.n)|, s);
    } else {
      var tail := RefTail(o.gen, rest);
      IntegerLook(o.gen, [SPACE, LETTER_R] + rest);
      assert tail[1..] == FormatInt(o.gen) + ([SPACE, LETTER_R] + rest) && tail[1] == tail[1..][0];
      MatchRefAfterDigits(Digits(o.num), tail);
      var g := |Digits(o.num)|;
      assert t[g + 1] == t[g..][1];
      NoTailAfterSpace(t, g, s);
    }
  }

  lemma {:induction false} MoreFollows(d: Dialect, es: seq<Obj>, rest: Bytes, m: Bytes)
    requires (forall e :: e in es ==> Valid(e)) && m == MoreThen(es, [RBRACKET] + rest)
    ensures Follows(d, m) && m != [] && (IsDelimiter(m[0]) || IsWhiteSpace(m[0]))
  {
    if es == [] {
      FollowsDelimiter(d, m);
    } else {
      var m' := MoreThen(es[1..], [RBRACKET] + rest);
      if |es| > 1 {
        var t := ElemsThen(es[1..], [RBRACKET] + rest);
        ElemsStart(es[1..], rest, t);
        assert m' == [SPACE] + t && m'[1] == t[0];
      }
      NoTailAtObject(es[0], m', TextThen(es[0], m'), m);
    }
  }

  // ---- Turns of the dictionary loop ----

  lemma {:induction false} EntriesStart(es: seq<Entry>, rest: Bytes, s: Bytes)
    requires s == EntriesThen(es, [GREATER, GREATER] + rest)
    ensures |s| >= 2 && s[0] == (if es == [] then GREATER else SLASH) && EndsName(s[0])
  {
    if es != [] {
      var v := TextThen(es[0].value, EntriesThen(es[1..], [GREATER, GREATER] + rest));
      NameThenIs(es[0].key, [SPACE] + v);
    }
  }

  lemma {:induction false} NoSkip(d: Dialect, s: Bytes)
    requires s != [] && !IsWhiteSpace(s[0]) && s[0] != PERCENT
    ensures (if d.File? then SkipComments(SkipSpaces(s)) else SkipSpaces(s)) == s
  {
  }

  lemma {:induction false} EntriesEnd(d: Dialect, acc: seq<Entry>, rest: Bytes)
    ensures ParseEntries(d, acc, [GREATER, GREATER] + rest) == Ok(Dict(acc), rest)
  {
    var s := [GREATER, GREATER] + rest;
    NoSkip(d, s);
    assert s[2..] == rest;
  }

  /** A key in front of rest, up to the first byte of its value. */
  lemma {:induction false} KeyTurn(d: Dialect, acc: seq<Entry>, key: Bytes, rest: Bytes)
    requires rest != [] && EndsName(rest[0])
    ensures ParseEntries(d, acc, [SLASH] + NameThen(key, rest)) == ParseValue(d, acc, key, SkipSpaces(rest))
  {
    var s := [SLASH] + NameThen(key, rest);
    NameThenIs(key, rest);
    NoSkip(d, s);
    ReadName(d, key, rest);
  }

  lemma {:induction false} OneSpaceSkipped(s: Bytes)
    requires s != [] && !IsWhiteSpace(s[0])
    ensures SkipSpaces([SPACE] + s) == s
  {
    assert ([SPACE] + s)[0] == SPACE && ([SPACE] + s)[1..] == s;
  }

  lemma {:induction false} EntriesSpace(d: Dialect, acc: seq<Entry>, s: Bytes)
    requires s != [] && !IsWhiteSpace(s[0])
    ensures ParseEntries(d, acc, [SPACE] + s) == ParseEntries(d, acc, s)
  {
    OneSpaceSkipped(s);
    assert SkipSpaces(s) == s;
  }

  lemma {:induction false} ValueTurn(d: Dialect, acc: seq<Entry>, key: Bytes, s: Bytes, t: Token, rest: Bytes)
    requires s != [] && (EndsInNull(key) ==> s[0] != SLASH)
    requires ParseAt(d, s) == Ok(t, rest)
    ensures ParseValue(d, acc, key, s) == ParseEntries(d, Set(acc, key, t.obj), rest)
  {
  }

  // ---- Clean trees come back ----

  lemma {:induction false} ReadClean(d: Dialect, o: Obj, rest: Bytes)
    requires Valid(o) && Clean(d, o) && Follows(d, rest)
    ensures ParseAt(d, TextThen(o, rest)) == Ok(Token(o, false), rest)
    decreases o, 0
  {
    match o
    case Null => ReadNull(d, rest);
    case Bool(b) => ReadBool(d, b, rest);
    case Str(v, isHex) => ReadStr(d, v, isHex, rest);
    case Name(n) => ReadName(d, n, rest);
    case Int(n) => ReadInt(d, n, rest);
    case Ref(num, gen) => ReadReferenceToken(num, gen, rest, TextThen(o, rest));
    case Array(elems) =>
      ReadCleanElems(d, [], elems, rest);
      AppendNothing(elems);
      ElemsThenIs(elems, [RBRACKET] + rest);
      AtArray(d, ElemsThen(elems, [RBRACKET] + rest));
    case Dict(entries) =>
      AppendNothing(entries);
      ReadCleanEntries(d, [], entries, rest);
      AtDict(d, EntriesThen(entries, [GREATER, GREATER] + rest));
  }

  lemma {:induction false} ReadInt(d: Dialect, n: int, rest: Bytes)
    requires IsInt64(n) && Follows(d, rest)
    ensures ParseAt(d, FormatInt(n) + rest) == Ok(Token(Int(n), false), rest)
  {
    var s := FormatInt(n) + rest;
    if d.File? { NoReferenceAhead(n, rest, s); }
    ReadInteger(d, n, rest, s);
  }

  lemma {:induction false} AtArray(d: Dialect, t: Bytes)
    requires t != []
    ensures ParseAt(d, [LBRACKET] + t) == Plain(ParseElems(d, [], t))
  {
    var s := [LBRACKET] + t;
    assert s[0] == LBRACKET && s[1..] == t;
  }

  lemma {:induction false} AtDict(d: Dialect, t: Bytes)
    ensures ParseAt(d, [LESS, LESS] + t) == Plain(ParseEntries(d, [], t))
  {
    var s := [LESS, LESS] + t;
    assert s[0] == LESS && s[1] == LESS && s[2..] == t;
  }

  lemma {:induction false} ReadCleanElems(d: Dialect, acc: seq<Obj>, es: seq<Obj>, rest: Bytes)
    requires forall e :: e in es ==> Valid(e) && Clean(d, e)
    ensures ParseElems(d, acc, ElemsThen(es, [RBRACKET] + rest)) == Ok(Array(acc + es), rest)
    decreases es, 1
  {
    var s := ElemsThen(es, [RBRACKET] + rest);
    if es == [] {
      AppendNothing(acc);
      ElemsEnd(d, acc, s);
      assert s[1..] == rest;
    } else {
      var m := MoreThen(es[1..], [RBRACKET] + rest);
      MoreFollows(d, es[1..], rest, m);
      TextStart(es[0], m, s);
      ReadClean(d, es[0], m);
      ElemsTurn(d, acc, s, Token(es[0], false), m);
      MoreIsElems(d, acc + [es[0]], es[1..], rest);
      ReadCleanElems(d, acc + [es[0]], es[1..], rest);
      Assoc(acc, [es[0]], es[1..]);
      HeadTail(es);
    }
  }

  lemma {:induction false} ReadCleanEntries(d: Dialect, acc: seq<Entry>, es: seq<Entry>, rest: Bytes)
    requires forall e :: e in es ==> Valid(e.value) && Clean(d, e.value) && !MistakenForNull(e)
    requires DistinctKeys(acc + es)
    ensures ParseEntries(d, acc, EntriesThen(es, [GREATER, GREATER] + rest)) == Ok(Dict(acc + es), rest)
    decreases es, 1
  {
    if es == [] {
      AppendNothing(acc);
      EntriesEnd(d, acc, rest);
    } else {
      var e, more := es[0], EntriesThen(es[1..], [GREATER, GREATER] + rest);
      var t := TextThen(e.value, more);
      EntriesStart(es[1..], rest, more);
      FollowsDelimiter(d, more);
      TextStart(e.value, more, t);
      KeyTurn(d, acc, e.key, [SPACE] + t);
      OneSpaceSkipped(t);
      ReadClean(d, e.value, more);
      ValueTurn(d, acc, e.key, t, Token(e.value, false), more);
      NewKey(acc, es);
      Assoc(acc, [e], es[1..]);
      HeadTail(es);
      ReadCleanEntries(d, acc + [e], es[1..], rest);
    }
  }

  lemma {:induction false} NewKey(acc: seq<Entry>, es: seq<Entry>)
    requires es != [] && DistinctKeys(acc + es)
    ensures !HasKey(acc, es[0].key)
  {
    forall i | 0 <= i < |acc| ensures acc[i].key != es[0].key {
      assert (acc + es)[i].key != (acc + es)[|acc|].key;
    }
  }

  // ---- Nothing else comes back ----

  /** Reading stops at rest with a clean object, or fails; it never loops for ever. */
  predicate Harmless(d: Dialect, r: Parsed<Obj>, rest: Bytes) {
    !r.Hang? && (r.Ok? ==> r.rest == rest && Clean(d, r.value) && !r.value.Name?)
  }

  /** References that the reader does not take for one: it reads their number as an integer. */
  predicate Unseen(d: Dialect, o: Obj) {
    o.Ref? && (d.Content? || o.gen < 0 || |FormatInt(o.num)| + |Digits(o.gen)| + 3 > PEEK)
  }

  lemma {:induction false} RefTailEnds(gen: int, rest: Bytes, t: Bytes)
    requires t == RefTail(gen, rest)
    ensures t != [] && EndsNumber(t) && !IsDecimalDigit(t[0])
    ensures gen >= 0 ==> MatchRefTail(t) == Some((Digits(gen), |Digits(gen)| + 3))
    ensures gen < 0 ==> MatchRefTail(t) == None
  {
    var u := FormatInt(gen) + ([SPACE, LETTER_R] + rest);
    IntegerLook(gen, [SPACE, LETTER_R] + rest);
    if gen >= 0 {
      RefTailMatches(Digits(gen), rest);
    } else {
      NoTailAfterSpace(u, 0, t);
    }
  }

  lemma {:induction false} ReadUnseen(d: Dialect, o: Obj, rest: Bytes)
    requires Valid(o) && Unseen(d, o)
    ensures ParseAt(d, TextThen(o, rest)) == Ok(Token(Int(o.num), false), RefTail(o.gen, rest))
  {
    var t := RefTail(o.gen, rest);
    var s := FormatInt(o.num) + t;
    RefTailEnds(o.gen, rest, t);
    if d.File? { NoReferenceAhead(o.num, t, s); }
    ReadInteger(d, o.num, t, s);
  }

  /** The generation number of an unseen reference, read as an integer of its own. */
  lemma {:induction false} ReadGeneration(d: Dialect, gen: int, rest: Bytes)
    requires IsInt64(gen)
    ensures ParseAt(d, FormatInt(gen) + ([SPACE, LETTER_R] + rest))
            == Ok(Token(Int(gen), false), [SPACE] + ([LETTER_R] + rest))
  {
    var t := [SPACE, LETTER_R] + rest;
    var u := [LETTER_R] + rest;
    assert t == [SPACE] + u;
    NoTailAfterSpace(u, 0, t);
    NoReferenceAhead(gen, t, FormatInt(gen) + t);
    ReadInteger(d, gen, t, FormatInt(gen) + t);
  }

  lemma {:induction false} ReadR(d: Dialect, rest: Bytes)
    requires rest != [] && (IsDelimiter(rest[0]) || IsWhiteSpace(rest[0]))
    ensures ParseAt(d, [LETTER_R] + rest)
            == if d.File? then Fail(Malformed) else Ok(Token(Str([LETTER_R], false), true), rest)
  {
    var s := [LETTER_R] + rest;
    assert s[0] == LETTER_R && s[1..] == rest;
    assert Keyword(s) == None;
    if d.File? {
      var ahead := s[..Min(PEEK, |s|)];
      assert ahead[0] == LETTER_R;
      AtBareWord(s, ahead);
    } else {
      assert OperandBody([LETTER_R], rest) == Ok([LETTER_R], rest);
      assert OperandBody([], s) == Ok([LETTER_R], rest) by { AppendNothing([LETTER_R]); }
    }
  }

  lemma {:induction false} AtBareWord(s: Bytes, ahead: Bytes)
    requires s != [] && Keyword(s) == None && ahead == s[..Min(PEEK, |s|)]
    requires s[0] == LETTER_R || s[0] == GREATER
    ensures ParseAt(File, s) == Fail(Malformed)
  {
    assert s[0] != PERCENT && s[0] != SLASH && s[0] != LPAREN && s[0] != LBRACKET && s[0] != LESS;
    assert ahead[0] == s[0];
    assert !LooksNumeric(ahead);
    assert SpaceRun(ahead) == 0 && DashRun(ahead) == 0 && DigitRun(ahead) == 0;
    WholeSlice(ahead);
    assert MatchRef(ahead) == None;
    assert FileWord(s) == Fail(Malformed);
  }

  lemma {:induction false} AtGreater(d: Dialect, rest: Bytes)
    ensures ParseAt(d, [GREATER, GREATER] + rest).Fail?
  {
    var s := [GREATER, GREATER] + rest;
    assert Keyword(s) == None;
    if d.File? {
      AtBareWord(s, s[..Min(PEEK, |s|)]);
    } else {
      assert OperandBody([], s) == Ok([], s);
    }
  }

  /** What the array loop makes of the rest of an unseen reference. */
  lemma {:induction false} ElemsAfterUnseen(d: Dialect, acc: seq<Obj>, gen: int, m: Bytes)
    requires IsInt64(gen) && m != [] && (IsDelimiter(m[0]) || IsWhiteSpace(m[0]))
    ensures ParseElems(d, acc, RefTail(gen, m))
            == if d.File? then Fail(Malformed) else ParseElems(d, acc + [Int(gen), Str([LETTER_R], false)], m)
  {
    var u := FormatInt(gen) + ([SPACE, LETTER_R] + m);
    var r := [LETTER_R] + m;
    IntegerLook(gen, [SPACE, LETTER_R] + m);
    ElemsSpace(d, acc, u);
    ReadGeneration(d, gen, m);
    ElemsTurn(d, acc, u, Token(Int(gen), false), [SPACE] + r);
    ElemsSpace(d, acc + [Int(gen)], r);
    ReadR(d, m);
    if d.File? {
      ElemsFail(d, acc + [Int(gen)], r);
    } else {
      ElemsTurn(d, acc + [Int(gen)], r, Token(Str([LETTER_R], false), true), m);
      assert acc + [Int(gen)] + [Str([LETTER_R], false)] == acc + [Int(gen), Str([LETTER_R], false)];
    }
  }

  lemma {:induction false} ElemsUnseen(d: Dialect, acc: seq<Obj>, o: Obj, m: Bytes, s: Bytes)
    requires Valid(o) && Unseen(d, o) && s == TextThen(o, m)
    requires m != [] && (IsDelimiter(m[0]) || IsWhiteSpace(m[0]))
    ensures ParseElems(d, acc, s)
            == if d.File? then Fail(Malformed)
               else ParseElems(d, acc + [Int(o.num)] + [Int(o.gen), Str([LETTER_R], false)], m)
  {
    TextStart(o, m, s);
    ReadUnseen(d, o, m);
    ElemsTurn(d, acc, s, Token(Int(o.num), false), RefTail(o.gen, m));
    ElemsAfterUnseen(d, acc + [Int(o.num)], o.gen, m);
  }

  lemma {:induction false} ElemsFail(d: Dialect, acc: seq<Obj>, s: Bytes)
    requires s != [] && !IsWhiteSpace(s[0]) && s[0] != RBRACKET && ParseAt(d, s).Fail?
    ensures ParseElems(d, acc, s) == Fail(ParseAt(d, s).why)
  {
  }

  predicate AllClean(d: Dialect, es: seq<Obj>) {
    forall e :: e in es ==> Clean(d, e)
  }

  lemma {:induction false} AllCleanAppend(d: Dialect, a: seq<Obj>, b: seq<Obj>)
    requires AllClean(d, a) && AllClean(d, b)
    ensures AllClean(d, a + b)
  {
  }

  predicate EntriesClean(d: Dialect, es: seq<Entry>) {
    forall e :: e in es ==> !MistakenForNull(e) && Clean(d, e.value)
  }

  /** A reference with a negative number is read as one with the sign dropped. */
  lemma {:induction false} ReadNegative(num: int, gen: int, rest: Bytes)
    requires !Clean(File, Ref(num, gen)) && !Unseen(File, Ref(num, gen))
    ensures ParseAt(File, TextThen(Ref(num, gen), rest)) == Ok(Token(Ref(-num, gen), false), rest)
    ensures Clean(File, Ref(-num, gen))
  {
    ReadReferenceToken(num, gen, rest, TextThen(Ref(num, gen), rest));
  }

  lemma {:induction false} ReadAny(d: Dialect, o: Obj, rest: Bytes)
    requires Valid(o) && Follows(d, rest) && !Clean(d, o) && !Unseen(d, o)
    ensures var r := ParseAt(d, TextThen(o, rest));
            !r.Hang? && (r.Ok? ==> !r.value.isOperand && Harmless(d, Ok(r.value.obj, r.rest), rest))
    decreases o, 0
  {
    match o
    case Ref(num, gen) => ReadNegative(num, gen, rest);
    case Array(elems) =>
      ReadAnyElems(d, [], elems, rest);
      ElemsThenIs(elems, [RBRACKET] + rest);
      AtArray(d, ElemsThen(elems, [RBRACKET] + rest));
    case Dict(entries) =>
      ReadAnyEntries(d, [], entries, rest);
      AtDict(d, EntriesThen(entries, [GREATER, GREATER] + rest));
    case _ =>
  }

  lemma {:induction false} ReadAnyElems(d: Dialect, acc: seq<Obj>, es: seq<Obj>, rest: Bytes)
    requires AllClean(d, acc) && forall e :: e in es ==> Valid(e)
    ensures Harmless(d, ParseElems(d, acc, ElemsThen(es, [RBRACKET] + rest)), rest)
    decreases es, 1
  {
    var s := ElemsThen(es, [RBRACKET] + rest);
    if es == [] {
      ElemsEnd(d, acc, s);
      assert s[1..] == rest;
    } else {
      var m := MoreThen(es[1..], [RBRACKET] + rest);
      MoreFollows(d, es[1..], rest, m);
      TextStart(es[0], m, s);
      if Unseen(d, es[0]) {
        ElemsUnseen(d, acc, es[0], m, s);
        AllCleanAppend(d, acc, [Int(es[0].num)]);
        AllCleanAppend(d, acc + [Int(es[0].num)], [Int(es[0].gen), Str([LETTER_R], false)]);
        var acc' := acc + [Int(es[0].num)] + [Int(es[0].gen), Str([LETTER_R], false)];
        MoreIsElems(d, acc', es[1..], rest);
        ReadAnyElems(d, acc', es[1..], rest);
      } else {
        if Clean(d, es[0]) { ReadClean(d, es[0], m); } else { ReadAny(d, es[0], m); }
        var r := ParseAt(d, s);
        if r.Ok? {
          ElemsTurn(d, acc, s, r.value, m);
          AllCleanAppend(d, acc, [r.value.obj]);
          MoreIsElems(d, acc + [r.value.obj], es[1..], rest);
          ReadAnyElems(d, acc + [r.value.obj], es[1..], rest);
        } else {
          ElemsFail(d, acc, s);
        }
      }
    }
  }

  lemma {:induction false} EntriesFail(d: Dialect, acc: seq<Entry>, s: Bytes)
    requires s != [] && StartsObject(s[0]) && s[0] != SLASH
    ensures ParseEntries(d, acc, s).Fail?
  {
    NoSkip(d, s);
    assert ParseName(d, s) == Fail(Malformed);
  }

  lemma {:induction false} ValueFail(d: Dialect, acc: seq<Entry>, key: Bytes, s: Bytes)
    requires s != [] && (EndsInNull(key) ==> s[0] != SLASH) && ParseAt(d, s).Fail?
    ensures ParseValue(d, acc, key, s).Fail?
  {
  }

  lemma {:induction false} ValueNull(d: Dialect, acc: seq<Entry>, key: Bytes, s: Bytes)
    requires s != [] && EndsInNull(key) && s[0] == SLASH
    ensures ParseValue(d, acc, key, s) == ParseEntries(d, Set(acc, key[..|key| - 4], Null), s)
  {
  }

  lemma {:induction false} SetClean(d: Dialect, acc: seq<Entry>, key: Bytes, v: Obj)
    requires EntriesClean(d, acc) && Clean(d, v) && !MistakenForNull(Entry(key, v))
    ensures EntriesClean(d, Set(acc, key, v))
  {
  }

  /** The dictionary loop fails on the rest of an unseen reference. */
  lemma {:induction false} EntriesUnseen(d: Dialect, acc: seq<Entry>, key: Bytes, o: Obj, more: Bytes)
    requires Valid(o) && Unseen(d, o)
    ensures ParseValue(d, acc, key, TextThen(o, more)).Fail?
  {
    var t := TextThen(o, more);
    TextStart(o, more, t);
    ReadUnseen(d, o, more);
    ValueTurn(d, acc, key, t, Token(Int(o.num), false), RefTail(o.gen, more));
    var u := FormatInt(o.gen) + ([SPACE, LETTER_R] + more);
    IntegerLook(o.gen, [SPACE, LETTER_R] + more);
    EntriesSpace(d, Set(acc, key, Int(o.num)), u);
    EntriesFail(d, Set(acc, key, Int(o.num)), u);
  }

  lemma {:induction false} ReadAnyEntries(d: Dialect, acc: seq<Entry>, es: seq<Entry>, rest: Bytes)
    requires EntriesClean(d, acc) && forall e :: e in es ==> Valid(e.value)
    ensures Harmless(d, ParseEntries(d, acc, EntriesThen(es, [GREATER, GREATER] + rest)), rest)
    decreases es, 1
  {
    if es == [] {
      EntriesEnd(d, acc, rest);
    } else {
      var e, more := es[0], EntriesThen(es[1..], [GREATER, GREATER] + rest);
      var t := TextThen(e.value, more);
      EntriesStart(es[1..], rest, more);
      FollowsDelimiter(d, more);
      TextStart(e.value, more, t);
      KeyTurn(d, acc, e.key, [SPACE] + t);
      OneSpaceSkipped(t);
      if MistakenForNull(e) {
        ValueNull(d, acc, e.key, t);
        SetClean(d, acc, e.key[..|e.key| - 4], Null);
        ReadNameAsKey(d, Set(acc, e.key[..|e.key| - 4], Null), e.value.name, es[1..], rest);
      } else if Unseen(d, e.value) {
        EntriesUnseen(d, acc, e.key, e.value, more);
      } else {
        if Clean(d, e.value) { ReadClean(d, e.value, more); } else { ReadAny(d, e.value, more); }
        var r := ParseAt(d, t);
        if r.Ok? {
          ValueTurn(d, acc, e.key, t, r.value, more);
          SetClean(d, acc, e.key, r.value.obj);
          ReadAnyEntries(d, Set(acc, e.key, r.value.obj), es[1..], rest);
        } else {
          ValueFail(d, acc, e.key, t);
        }
      }
    }
  }

  /** A key read as the value of the name before it; the loop goes on at the value of that key. */
  lemma {:induction false} KeyAsValue(d: Dialect, acc: seq<Entry>, n: Bytes, e: Entry, more: Bytes, s: Bytes)
    requires Valid(e.value) && !EndsInNull(n)
    requires s == [SLASH] + NameThen(e.key, [SPACE] + TextThen(e.value, more))
    ensures var r := ParseValue(d, acc, n, s);
            if e.value.Name? then r == ParseEntries(d, Set(acc, n, Name(e.key)), [SLASH] + NameThen(e.value.name, more))
            else r.Fail?
  {
    var t := TextThen(e.value, more);
    TextStart(e.value, more, t);
    ReadName(d, e.key, [SPACE] + t);
    ValueTurn(d, acc, n, s, Token(Name(e.key), false), [SPACE] + t);
    EntriesSpace(d, Set(acc, n, Name(e.key)), t);
    if !e.value.Name? {
      EntriesFail(d, Set(acc, n, Name(e.key)), t);
    }
  }

  /** After an entry was mistaken for a null, its value is read as a key, and so on. */
  lemma {:induction false} ReadNameAsKey(d: Dialect, acc: seq<Entry>, n: Bytes, es: seq<Entry>, rest: Bytes)
    requires EntriesClean(d, acc) && forall e :: e in es ==> Valid(e.value)
    ensures Harmless(d, ParseEntries(d, acc, [SLASH] + NameThen(n, EntriesThen(es, [GREATER, GREATER] + rest))), rest)
    decreases es, 2
  {
    var s := EntriesThen(es, [GREATER, GREATER] + rest);
    EntriesStart(es, rest, s);
    KeyTurn(d, acc, n, s);
    if es == [] {
      AtGreater(d, rest);
      ValueFail(d, acc, n, s);
    } else if EndsInNull(n) {
      ValueNull(d, acc, n, s);
      SetClean(d, acc, n[..|n| - 4], Null);
      ReadAnyEntries(d, Set(acc, n[..|n| - 4], Null), es, rest);
    } else {
      var e, more := es[0], EntriesThen(es[1..], [GREATER, GREATER] + rest);
      KeyAsValue(d, acc, n, e, more, s);
      SetClean(d, acc, n, Name(e.key));
      if e.value.Name? {
        ReadNameAsKey(d, Set(acc, n, Name(e.key)), e.value.name, es[1..], rest);
      }
    }
  }

  // ---- Progress ----

  /** The file reader returns from an object without consuming anything exactly at a comma that the
      number pattern lets through; an array then never ends. */
  lemma {:induction false} ConsumesNothingIff(s: Bytes)
    requires s != [] && !IsWhiteSpace(s[0])
    ensures (ParseAt(File, s).Ok? && |ParseAt(File, s).rest| == |s|)
            <==> s[0] == 0x2C && LooksNumeric(s[..Min(PEEK, |s|)])
    ensures ParseAt(File, s).Ok? && |ParseAt(File, s).rest| == |s| ==> ParseAt(File, s).rest == s
  {
    var ahead := s[..Min(PEEK, |s|)];
    assert ahead[0] == s[0];
    if s[0] == 0x2C {
      assert s[0] != PERCENT && s[0] != SLASH && s[0] != LPAREN && s[0] != LBRACKET && s[0] != LESS;
      assert Keyword(s) == None;
      assert MatchRef(ahead) == None by { NoDigitsNoReference(ahead); }
      assert FileWord(s) == if LooksNumeric(ahead) then ParseNumber(s) else Fail(Malformed);
      assert ScanNumber([], false, true, s) == Scan([], false, s);
    } else if ParseAt(File, s).Ok? {
      OtherwiseProgress(s);
    }
  }

  lemma {:induction false} NoDigitsNoReference(s: Bytes)
    requires s != [] && s[0] == 0x2C
    ensures MatchRef(s) == None
  {
    assert SpaceRun(s) == 0 && DashRun(s) == 0 && DigitRun(s) == 0;
    WholeSlice(s);
  }

  lemma {:induction false} OtherwiseProgress(s: Bytes)
    requires s != [] && !IsWhiteSpace(s[0]) && s[0] != 0x2C && ParseAt(File, s).Ok?
    ensures |ParseAt(File, s).rest| < |s|
  {
    if s[0] != PERCENT && s[0] != SLASH && s[0] != LPAREN && s[0] != LBRACKET && s[0] != LESS {
      var ahead := s[..Min(PEEK, |s|)];
      assert ParseAt(File, s) == Plain(FileWord(s));
      if Keyword(s).None? && MatchRef(ahead).None? {
        assert FileWord(s) == ParseNumber(s) && LooksNumeric(ahead);
        assert ahead[0] == s[0];
        assert ScanNumber([], false, true, s).rest != s;
      }
    }
  }

  // ---- The theorem ----

  /** Every tree the library can hold comes back unchanged, and reading stops right after it, exactly
      when it is clean. */
  lemma {:induction false} RoundTripIff(d: Dialect, o: Obj, rest: Bytes)
    requires Valid(o) && Follows(d, rest)
    ensures ParseObject(d, WriteString(o) + rest) == Ok(Token(o, false), rest) <==> Clean(d, o)
    ensures !ParseObject(d, WriteString(o) + rest).Hang?
  {
    TextThenIs(o, rest);
    TextStart(o, rest, TextThen(o, rest));
    if Clean(d, o) {
      ReadClean(d, o, rest);
    } else if Unseen(d, o) {
      ReadUnseen(d, o, rest);
    } else {
      ReadAny(d, o, rest);
    }
  }
}
