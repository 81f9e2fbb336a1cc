/** How the readers go forward: what is left is always the end of the input, and the file reader goes round for
    ever exactly when it comes to an array element that starts with a comma taken for a number. */
module SyntaxProgress {
  import opened Bytes
  import opened Objects
  import opened Syntax
  import opened SyntaxRoundTrip

  // ---- What is left is the end of the input ----

  predicate IsSuffix(r: Bytes, s: Bytes) {
    |r| <= |s| && r == s[|s| - |r|..]
  }

  lemma {:induction false} SuffixTrans(a: Bytes, b: Bytes, c: Bytes)
    requires IsSuffix(a, b) && IsSuffix(b, c)
    ensures IsSuffix(a, c)
  {
    DropDrop(c, |c| - |b|, |b| - |a|);
  }

  lemma {:induction false} DropIsSuffix(s: Bytes, k: nat)
    requires k <= |s|
    ensures IsSuffix(s[k..], s)
  {
  }

  /** What is left after the first k bytes are read and the rest is a suffix of what follows them. */
  lemma {:induction false} SuffixAfter(r: Bytes, s: Bytes, k: nat)
    requires k <= |s| && IsSuffix(r, s[k..])
    ensures IsSuffix(r, s)
  {
    DropIsSuffix(s, k);
    SuffixTrans(r, s[k..], s);
  }

  lemma {:induction false} SpacesSuffix(s: Bytes)
    ensures IsSuffix(SkipSpaces(s), s)
  {
    if s == [] || !IsWhiteSpace(s[0]) {
      WholeSlice(s);
    } else {
      SpacesSuffix(s[1..]);
      SuffixAfter(SkipSpaces(s), s, 1);
    }
  }

  lemma {:induction false} LineSuffix(s: Bytes)
    ensures IsSuffix(DropLine(s), s)
  {
    if s == [] || s[0] == CR || s[0] == LF {
      WholeSlice(s);
    } else {
      LineSuffix(s[1..]);
      SuffixAfter(DropLine(s), s, 1);
    }
  }

  lemma {:induction false} NextLineSuffix(s: Bytes)
    ensures IsSuffix(SkipSpaces(DropLine(s)), s)
  {
    var line := DropLine(s);
    LineSuffix(s);
    SpacesSuffix(line);
    SuffixTrans(SkipSpaces(line), line, s);
  }

  lemma {:induction false} CommentsSuffix(s: Bytes)
    ensures IsSuffix(SkipComments(s), s)
    decreases |s|
  {
    var s1 := SkipSpaces(s);
    SpacesSuffix(s);
    if s1 != [] && s1[0] == PERCENT {
      var s2 := DropLine(s1);
      LineSuffix(s1);
      SuffixTrans(s2, s1, s);
      if s2 != [] {
        CommentsSuffix(s2);
        SuffixTrans(SkipComments(s2), s2, s);
      }
    }
  }

  lemma {:induction false} NameBodySuffix(d: Dialect, acc: Bytes, s: Bytes)
    ensures NameBody(d, acc, s).Ok? ==> IsSuffix(NameBody(d, acc, s).rest, s)
    decreases |s|
  {
    if s == [] || EndsName(s[0]) {
      WholeSlice(s);
    } else {
      var r := NameBody(d, acc, s);
      if s[0] == HASH && |s| >= 3 && IsHexDigit(s[1]) && IsHexDigit(s[2]) {
        NameBodySuffix(d, acc + [16 * HexValue(s[1]) + HexValue(s[2])], s[3..]);
        if r.Ok? { SuffixAfter(r.rest, s, 3); }
      } else if s[0] == HASH {
        NameBodySuffix(d, acc + [HASH], s[1..]);
        if r.Ok? { SuffixAfter(r.rest, s, 1); }
      } else {
        NameBodySuffix(d, acc + (if d.File? then [s[0]] else Utf8(s[0])), s[1..]);
        if r.Ok? { SuffixAfter(r.rest, s, 1); }
      }
    }
  }

  lemma {:induction false} NameSuffix(d: Dialect, s: Bytes)
    ensures ParseName(d, s).Ok? ==> IsSuffix(ParseName(d, s).rest, s)
    decreases |s|
  {
    if s == [] {
    } else if s[0] == SLASH {
      NameBodySuffix(d, [], s[1..]);
      if ParseName(d, s).Ok? { SuffixAfter(ParseName(d, s).rest, s, 1); }
    } else if s[0] == PERCENT && d.File? {
      var s1 := SkipSpaces(DropLine(s));
      NextLineSuffix(s);
      if s1 != [] {
        NameSuffix(d, s1);
        if ParseName(d, s1).Ok? { SuffixTrans(ParseName(d, s1).rest, s1, s); }
      }
    }
  }

  lemma {:induction false} StringSuffix(acc: Bytes, depth: nat, s: Bytes)
    ensures StringBody(acc, depth, s).Ok? ==> IsSuffix(StringBody(acc, depth, s).rest, s)
    decreases |s|
  {
    var r := StringBody(acc, depth, s);
    if s == [] || !r.Ok? {
    } else if s[0] == BACKSLASH && IsOctalDigit(s[1]) {
      var n := OctalRun(s[2..4]);
      StringSuffix(acc + [OctalValue(s[1..2 + n]) % 256], depth, s[2 + n..]);
      SuffixAfter(r.rest, s, 2 + n);
    } else if s[0] == BACKSLASH {
      StringSuffix(acc + Unescaped(s[1]), depth, s[2..]);
      SuffixAfter(r.rest, s, 2);
    } else if s[0] == RPAREN && depth <= 1 {
      DropIsSuffix(s, 1);
    } else {
      var depth' := if s[0] == LPAREN then depth + 1 else if s[0] == RPAREN then depth - 1 else depth;
      StringSuffix(acc + [s[0]], depth', s[1..]);
      SuffixAfter(r.rest, s, 1);
    }
  }

  lemma {:induction false} HexSuffix(d: Dialect, acc: Bytes, s: Bytes)
    ensures HexBody(d, acc, s).Ok? ==> IsSuffix(HexBody(d, acc, s).rest, s)
    decreases |s|
  {
    var r := HexBody(d, acc, s);
    if s == [] || !r.Ok? {
    } else if s[0] == GREATER {
      DropIsSuffix(s, 1);
    } else {
      var kept := if d.File? then !IsWhiteSpace(s[0]) else IsHexDigit(s[0]);
      HexSuffix(d, if kept then acc + [s[0]] else acc, s[1..]);
      SuffixAfter(r.rest, s, 1);
    }
  }

  lemma {:induction false} ScanSuffix(acc: Bytes, isFloat: bool, allowSigns: bool, s: Bytes)
    ensures IsSuffix(ScanNumber(acc, isFloat, allowSigns, s).rest, s)
    decreases |s|
  {
    if s == [] {
    } else if allowSigns && (s[0] == MINUS || s[0] == PLUS) {
      ScanSuffix(acc + [s[0]], isFloat, false, s[1..]);
      SuffixAfter(ScanNumber(acc, isFloat, allowSigns, s).rest, s, 1);
    } else if IsDecimalDigit(s[0]) {
      ScanSuffix(acc + [s[0]], isFloat, allowSigns, s[1..]);
      SuffixAfter(ScanNumber(acc, isFloat, allowSigns, s).rest, s, 1);
    } else if s[0] == DOT {
      ScanSuffix(acc + [s[0]], true, allowSigns, s[1..]);
      SuffixAfter(ScanNumber(acc, isFloat, allowSigns, s).rest, s, 1);
    } else if s[0] == 0x65 || s[0] == 0x45 {
      ScanSuffix(acc + [s[0]], true, true, s[1..]);
      SuffixAfter(ScanNumber(acc, isFloat, allowSigns, s).rest, s, 1);
    } else {
      WholeSlice(s);
    }
  }

  lemma {:induction false} NumberSuffix(s: Bytes)
    ensures IsSuffix(ParseNumber(s).rest, s)
  {
    ScanSuffix([], false, true, s);
  }

  lemma {:induction false} ReferenceSuffix(s: Bytes)
    ensures ReadReference(s).Ok? ==> IsSuffix(ReadReference(s).rest, s)
    ensures !ReadReference(s).Hang?
  {
    DropIsSuffix(s, ThroughR(s));
  }

  lemma {:induction false} FileWordSuffix(s: Bytes)
    requires s != []
    ensures FileWord(s).Ok? ==> IsSuffix(FileWord(s).rest, s)
    ensures !FileWord(s).Hang?
  {
    var k := Keyword(s);
    if k.Some? {
      DropIsSuffix(s, k.value.1);
    } else {
      var r := FileWord(s);
      assert r == ReadReference(s) || r == ParseNumber(s) || r == Fail(Malformed);
      NumberSuffix(s);
      ReferenceSuffix(s);
    }
  }

  lemma {:induction false} OperandSuffix(acc: Bytes, s: Bytes)
    ensures OperandBody(acc, s).Ok? ==> IsSuffix(OperandBody(acc, s).rest, s)
    decreases |s|
  {
    if s == [] {
    } else if IsDelimiter(s[0]) || IsWhiteSpace(s[0]) {
      WholeSlice(s);
    } else {
      OperandSuffix(acc + [s[0]], s[1..]);
      if OperandBody(acc, s).Ok? { SuffixAfter(OperandBody(acc, s).rest, s, 1); }
    }
  }

  lemma {:induction false} ContentWordSuffix(s: Bytes)
    requires |s| >= 2
    ensures ContentWord(s).Ok? ==> IsSuffix(ContentWord(s).rest, s)
  {
    var k := Keyword(s);
    NumberSuffix(s);
    OperandSuffix([], s);
    if k.Some? { DropIsSuffix(s, k.value.1); }
  }

  /** Names, strings, numbers, keywords, references and operators. */
  lemma {:induction false} AtomSuffix(d: Dialect, s: Bytes)
    requires |s| >= Needed(d)
    requires s[0] != PERCENT && s[0] != LBRACKET && !(s[0] == LESS && |s| >= 2 && s[1] == LESS)
    ensures ParseAt(d, s).Ok? ==> IsSuffix(ParseAt(d, s).rest, s)
  {
    var r := ParseAt(d, s);
    if !r.Ok? {
    } else if s[0] == SLASH {
      assert r == Plain(AsName(ParseName(d, s)));
      NameSuffix(d, s);
    } else if s[0] == LPAREN {
      assert r == Plain(AsStr(StringBody([], 1, s[1..]), false));
      StringSuffix([], 1, s[1..]);
      SuffixAfter(r.rest, s, 1);
    } else if s[0] == LESS {
      assert r == Plain(AsStr(HexBody(d, [], s[1..]), true));
      HexSuffix(d, [], s[1..]);
      SuffixAfter(r.rest, s, 1);
    } else if d.File? {
      FileWordSuffix(s);
      assert ParseAt(d, s) == Plain(FileWord(s));
    } else {
      ContentWordSuffix(s);
      assert ParseAt(d, s) == ContentWord(s);
    }
  }

  /** Whatever is read, what is left unread is the end of the input. */
  lemma {:induction false} RestIsSuffix(d: Dialect, s: Bytes)
    ensures ParseAt(d, s).Ok? ==> IsSuffix(ParseAt(d, s).rest, s)
    decreases |s|, 1
  {
    var r := ParseAt(d, s);
    if |s| < Needed(d) || !r.Ok? {
    } else if s[0] == PERCENT {
      CommentThenSuffix(d, s);
    } else if s[0] == LBRACKET || (s[0] == LESS && |s| >= 2 && s[1] == LESS) {
      ContainerSuffix(d, s);
    } else {
      AtomSuffix(d, s);
    }
  }

  lemma {:induction false} ContainerSuffix(d: Dialect, s: Bytes)
    requires |s| >= Needed(d) && ParseAt(d, s).Ok?
    requires s[0] == LBRACKET || (s[0] == LESS && |s| >= 2 && s[1] == LESS)
    ensures IsSuffix(ParseAt(d, s).rest, s)
    decreases |s|, 0
  {
    var r := ParseAt(d, s);
    if s[0] == LBRACKET {
      assert r == Plain(ParseElems(d, [], s[1..]));
      ElemsSuffix(d, [], s[1..]);
      SuffixAfter(r.rest, s, 1);
    } else {
      assert r == Plain(ParseEntries(d, [], s[2..]));
      EntriesSuffix(d, [], s[2..]);
      SuffixAfter(r.rest, s, 2);
    }
  }

  lemma {:induction false} CommentThenSuffix(d: Dialect, s: Bytes)
    requires |s| >= Needed(d) && s[0] == PERCENT && ParseAt(d, s).Ok?
    ensures IsSuffix(ParseAt(d, s).rest, s)
    decreases |s|, 0
  {
    if d.File? {
      var s1 := SkipSpaces(DropLine(s));
      NextLineSuffix(s);
      RestIsSuffix(d, s1);
      SuffixTrans(ParseAt(d, s).rest, s1, s);
    } else {
      var s1 := SkipComments(s);
      CommentsSuffix(s);
      RestIsSuffix(d, s1);
      SuffixTrans(ParseAt(d, s).rest, s1, s);
    }
  }

  lemma {:induction false} ElemsSuffix(d: Dialect, acc: seq<Obj>, s: Bytes)
    ensures ParseElems(d, acc, s).Ok? ==> IsSuffix(ParseElems(d, acc, s).rest, s)
    decreases |s|, 2
  {
    var s1, r := SkipSpaces(s), ParseElems(d, acc, s);
    SpacesSuffix(s);
    if !r.Ok? {
    } else if s1[0] == RBRACKET {
      DropIsSuffix(s1, 1);
      SuffixTrans(r.rest, s1, s);
    } else {
      var e := ParseAt(d, s1);
      RestIsSuffix(d, s1);
      ElemsSuffix(d, acc + [e.value.obj], e.rest);
      SuffixTrans(r.rest, e.rest, s1);
      SuffixTrans(r.rest, s1, s);
    }
  }

  lemma {:induction false} EntriesSuffix(d: Dialect, acc: seq<Entry>, s: Bytes)
    ensures ParseEntries(d, acc, s).Ok? ==> IsSuffix(ParseEntries(d, acc, s).rest, s)
    decreases |s|, 2
  {
    var s1, r := BeforeKey(d, s), ParseEntries(d, acc, s);
    BeforeKeySuffix(d, s);
    if !r.Ok? {
    } else if s1[0] == GREATER && s1[1] == GREATER {
      DropIsSuffix(s1, 2);
      SuffixTrans(r.rest, s1, s);
    } else {
      var k := ParseName(d, s1);
      var v := SkipSpaces(k.rest);
      NameSuffix(d, s1);
      SpacesSuffix(k.rest);
      SuffixTrans(v, k.rest, s1);
      ValueSuffix(d, acc, k.value, v);
      SuffixTrans(r.rest, v, s1);
      SuffixTrans(r.rest, s1, s);
    }
  }

  lemma {:induction false} ValueSuffix(d: Dialect, acc: seq<Entry>, key: Bytes, s: Bytes)
    ensures ParseValue(d, acc, key, s).Ok? ==> IsSuffix(ParseValue(d, acc, key, s).rest, s)
    decreases |s|, 3
  {
    var r := ParseValue(d, acc, key, s);
    if !r.Ok? {
    } else if EndsInNull(key) && s[0] == SLASH {
      EntriesSuffix(d, Set(acc, key[..|key| - 4], Null), s);
    } else {
      var v := ParseAt(d, s);
      RestIsSuffix(d, s);
      EntriesSuffix(d, Set(acc, key, v.value.obj), v.rest);
      SuffixTrans(r.rest, v.rest, s);
    }
  }

  function BeforeKey(d: Dialect, s: Bytes): Bytes {
    if d.File? then SkipComments(SkipSpaces(s)) else SkipSpaces(s)
  }

  lemma {:induction false} BeforeKeySuffix(d: Dialect, s: Bytes)
    ensures IsSuffix(BeforeKey(d, s), s)
  {
    SpacesSuffix(s);
    CommentsSuffix(SkipSpaces(s));
    if d.File? { SuffixTrans(BeforeKey(d, s), SkipSpaces(s), s); }
  }

  // ---- Where the file reader goes round for ever ----

  /** A place of the reader: at an object, or in the loop of an array or a dictionary. */
  datatype Place =
    | AtObject(s: Bytes)
    | AtElement(elems: seq<Obj>, s: Bytes)
    | AtEntry(entries: seq<Entry>, s: Bytes)
    | AtValue(entries: seq<Entry>, key: Bytes, s: Bytes)

  predicate Hangs(p: Place) {
    match p
    case AtObject(s) => ParseAt(File, s).Hang?
    case AtElement(acc, s) => ParseElems(File, acc, s).Hang?
    case AtEntry(acc, s) => ParseEntries(File, acc, s).Hang?
    case AtValue(acc, key, s) => ParseValue(File, acc, key, s).Hang?
  }

  /** An array element that starts with a comma which the number pattern lets through. */
  predicate Stuck(p: Place) {
    p.AtElement? &&
    var s1 := SkipSpaces(p.s);
    s1 != [] && s1[0] == 0x2C && LooksNumeric(s1[..Min(PEEK, |s1|)])
  }

  /** The reader comes from p to q: by reading a part, or by going on behind a part that it has read. */
  predicate Leads(p: Place, q: Place) {
    match p
    case AtObject(s) =>
      && s != []
      && (if s[0] == PERCENT then q == AtObject(SkipSpaces(DropLine(s)))
          else if s[0] == LBRACKET then q == AtElement([], s[1..])
          else |s| >= 2 && s[0] == LESS && s[1] == LESS && q == AtEntry([], s[2..]))
    case AtElement(acc, s) =>
      var s1 := SkipSpaces(s);
      var r := ParseAt(File, s1);
      && s1 != [] && s1[0] != RBRACKET
      && (q == AtObject(s1) || (r.Ok? && |r.rest| < |s1| && q == AtElement(acc + [r.value.obj], r.rest)))
    case AtEntry(acc, s) =>
      var s1 := BeforeKey(File, s);
      var k := ParseName(File, s1);
      && |s1| >= 2 && !(s1[0] == GREATER && s1[1] == GREATER) && k.Ok?
      && q == AtValue(acc, k.value, SkipSpaces(k.rest))
    case AtValue(acc, key, s) =>
      var r := ParseAt(File, s);
      if EndsInNull(key) && s == [] then false
      else if EndsInNull(key) && s[0] == SLASH then q == AtEntry(Set(acc, key[..|key| - 4], Null), s)
      else q == AtObject(s) || (r.Ok? && q == AtEntry(Set(acc, key, r.value.obj), r.rest))
  }

  lemma {:induction false} LeadsToHang(p: Place, q: Place)
    requires Leads(p, q) && Hangs(q)
    ensures Hangs(p)
  {
  }

  lemma {:induction false} StuckHangs(p: Place)
    requires Stuck(p)
    ensures Hangs(p)
  {
    ConsumesNothingIff(SkipSpaces(p.s));
    var s1 := SkipSpaces(p.s);
    assert ParseAt(File, s1).Ok? && |ParseAt(File, s1).rest| == |s1|;
  }

  function Rank(p: Place): nat {
    match p case AtObject(_) => 0 case AtElement(_, _) => 1 case AtEntry(_, _) => 1 case AtValue(_, _, _) => 2
  }

  /** A reader that hangs is stuck, or comes to a place nearer to where it is. */
  lemma {:induction false} HangStep(p: Place) returns (q: Place)
    requires Hangs(p) && !Stuck(p)
    ensures Leads(p, q) && Hangs(q) && (|q.s| < |p.s| || (|q.s| == |p.s| && Rank(q) < Rank(p)))
  {
    match p
    case AtObject(s) => q := ObjectHangStep(s);
    case AtElement(acc, s) => q := ElementHangStep(acc, s);
    case AtEntry(acc, s) =>
      var s1 := BeforeKey(File, s);
      var k := ParseName(File, s1);
      q := AtValue(acc, k.value, SkipSpaces(k.rest));
    case AtValue(acc, key, s) =>
      var r := ParseAt(File, s);
      if EndsInNull(key) && s[0] == SLASH {
        q := AtEntry(Set(acc, key[..|key| - 4], Null), s);
      } else if r.Hang? {
        q := AtObject(s);
      } else {
        RestIsSuffix(File, s);
        q := AtEntry(Set(acc, key, r.value.obj), r.rest);
      }
  }

  lemma {:induction false} ObjectHangStep(s: Bytes) returns (q: Place)
    requires ParseAt(File, s).Hang?
    ensures Leads(AtObject(s), q) && Hangs(q) && |q.s| < |s|
  {
    if s[0] == PERCENT {
      q := AtObject(SkipSpaces(DropLine(s)));
    } else if s[0] == LBRACKET {
      q := AtElement([], s[1..]);
    } else if |s| >= 2 && s[0] == LESS && s[1] == LESS {
      q := AtEntry([], s[2..]);
    } else {
      FileWordSuffix(s);
      assert false;
    }
  }

  lemma {:induction false} ElementHangStep(acc: seq<Obj>, s: Bytes) returns (q: Place)
    requires ParseElems(File, acc, s).Hang? && !Stuck(AtElement(acc, s))
    ensures Leads(AtElement(acc, s), q) && Hangs(q) && |q.s| <= |s| && (|q.s| == |s| ==> q.AtObject?)
  {
    var s1 := SkipSpaces(s);
    var r := ParseAt(File, s1);
    if r.Hang? {
      q := AtObject(s1);
    } else {
      ConsumesNothingIff(s1);
      q := AtElement(acc + [r.value.obj], r.rest);
    }
  }

  /** Places that the reader comes to one after the other. */
  predicate IsPath(path: seq<Place>) {
    path != [] && forall i :: 0 <= i < |path| - 1 ==> Leads(path[i], path[i + 1])
  }

  lemma {:induction false} HangPath(p: Place) returns (path: seq<Place>)
    requires Hangs(p)
    ensures IsPath(path) && path[0] == p && Stuck(path[|path| - 1])
    decreases |p.s|, Rank(p)
  {
    if Stuck(p) {
      path := [p];
    } else {
      var q := HangStep(p);
      var more := HangPath(q);
      path := [p] + more;
    }
  }

  lemma {:induction false} PathHangs(path: seq<Place>)
    requires IsPath(path) && Stuck(path[|path| - 1])
    ensures Hangs(path[0])
    decreases |path|
  {
    if |path| == 1 {
      StuckHangs(path[0]);
    } else {
      PathHangs(path[1..]);
      LeadsToHang(path[0], path[1]);
    }
  }

  /** The file reader goes round for ever exactly if it comes to an array element that starts with a comma
      which the number pattern lets through. */
  lemma {:induction false} HangsIff(s: Bytes)
    ensures ParseObject(File, s).Hang?
            <==> exists path :: IsPath(path) && path[0] == AtObject(SkipSpaces(s)) && Stuck(path[|path| - 1])
  {
    if ParseObject(File, s).Hang? {
      var path := HangPath(AtObject(SkipSpaces(s)));
    }
    forall path | IsPath(path) && path[0] == AtObject(SkipSpaces(s)) && Stuck(path[|path| - 1])
      ensures ParseObject(File, s).Hang?
    {
      PathHangs(path);
    }
  }

  // ---- Without a comma ----

  lemma {:induction false} LeadsForward(p: Place, q: Place)
    requires Leads(p, q)
    ensures IsSuffix(q.s, p.s)
  {
    var s := p.s;
    match p
    case AtObject(_) =>
      NextLineSuffix(s);
      if s[0] != PERCENT { DropIsSuffix(s, |s| - |q.s|); }
    case AtElement(_, _) =>
      SpacesSuffix(s);
      RestIsSuffix(File, SkipSpaces(s));
      WholeSlice(q.s);
      SuffixTrans(q.s, SkipSpaces(s), s);
    case AtEntry(_, _) =>
      var s1 := BeforeKey(File, s);
      var k := ParseName(File, s1);
      BeforeKeySuffix(File, s);
      NameSuffix(File, s1);
      SpacesSuffix(k.rest);
      SuffixTrans(q.s, k.rest, s1);
      SuffixTrans(q.s, s1, s);
    case AtValue(_, _, _) =>
      RestIsSuffix(File, s);
      WholeSlice(s);
  }

  lemma {:induction false} PathForward(path: seq<Place>)
    requires IsPath(path)
    ensures IsSuffix(path[|path| - 1].s, path[0].s)
    decreases |path|
  {
    if |path| == 1 {
      WholeSlice(path[0].s);
    } else {
      LeadsForward(path[0], path[1]);
      PathForward(path[1..]);
      SuffixTrans(path[|path| - 1].s, path[1].s, path[0].s);
    }
  }

  /** A comma that the number pattern lets through in the bytes that the reader looks ahead. */
  predicate IsNumericComma(s: Bytes, i: int) {
    0 <= i < |s| && s[i] == 0x2C && LooksNumeric(s[i..][..Min(PEEK, |s| - i)])
  }

  lemma {:induction false} CommaOfSuffix(r: Bytes, s: Bytes)
    requires IsSuffix(r, s) && IsNumericComma(r, 0)
    ensures IsNumericComma(s, |s| - |r|)
  {
    WholeSlice(r);
  }

  /** The file reader ends on all input without such a comma. */
  lemma {:induction false} HangNeedsComma(s: Bytes)
    requires ParseObject(File, s).Hang?
    ensures exists i :: IsNumericComma(s, i)
  {
    var path := HangPath(AtObject(SkipSpaces(s)));
    var last := path[|path| - 1].s;
    PathForward(path);
    SpacesSuffix(s);
    SuffixTrans(last, SkipSpaces(s), s);
    SpacesSuffix(last);
    SuffixTrans(SkipSpaces(last), last, s);
    WholeSlice(SkipSpaces(last));
    CommaOfSuffix(SkipSpaces(last), s);
  }

  lemma {:induction false} NoCommaNoHang(s: Bytes)
    ensures 0x2C !in s ==> !ParseObject(File, s).Hang?
  {
    if ParseObject(File, s).Hang? {
      HangNeedsComma(s);
      var i :| IsNumericComma(s, i);
    }
  }

  /** An array on which it does not: [,1] */
  lemma {:induction false} CommaHangs()
    ensures ParseObject(File, [LBRACKET, 0x2C, 0x31, RBRACKET]).Hang?
  {
    var s := [LBRACKET, 0x2C, 0x31, RBRACKET];
    var t := [0x2C, 0x31, RBRACKET];
    assert s[1..] == t && SkipSpaces(s) == s && SkipSpaces(t) == t;
    assert t[..3] == t && t[1..] == [0x31, RBRACKET];
    assert LooksNumeric(t[1..]);
    StuckHangs(AtElement([], t));
    LeadsToHang(AtObject(s), AtElement([], t));
  }
}
