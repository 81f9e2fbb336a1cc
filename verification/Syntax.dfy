/** What the two recursive-descent readers return, as functions of the unread bytes: the file reader
    of core/parser.go and the content stream reader of contentstream/parser.go. Both share
    ParseNumber (core/utils.go). */
module Syntax {
  import opened Bytes
  import opened Objects

  datatype Dialect = File | Content

  /** Panic is an index out of range in the source. */
  datatype Failure = Eof | Malformed | Panic

  /** A value and the bytes left, a returned error, or a loop that never ends. */
  datatype Parsed<+T> = Ok(value: T, rest: Bytes) | Fail(why: Failure) | Hang

  /** An object, or an operator of a content stream held in a string object. */
  datatype Token = Token(obj: Obj, isOperand: bool)

  const PERCENT: byte := 0x25
  const PLUS: byte := 0x2B
  const DOT: byte := 0x2E
  const CR: byte := 0x0D
  const LF: byte := 0x0A

  // ---- White space and comments ----

  function SkipSpaces(s: Bytes): (r: Bytes)
    ensures |r| <= |s|
    ensures r == [] || !IsWhiteSpace(r[0])
    ensures s == [] || !IsWhiteSpace(s[0]) ==> r == s
  {
    if s != [] && IsWhiteSpace(s[0]) then SkipSpaces(s[1..]) else s
  }

  function DropLine(s: Bytes): (r: Bytes)
    ensures |r| <= |s|
    ensures s != [] && s[0] != CR && s[0] != LF ==> |r| < |s|
  {
    if s == [] || s[0] == CR || s[0] == LF then s else DropLine(s[1..])
  }

  function SkipComments(s: Bytes): (r: Bytes)
    ensures |r| <= |s|
    ensures s != [] && s[0] == PERCENT ==> |r| < |s|
    ensures s != [] && !IsWhiteSpace(s[0]) && s[0] != PERCENT ==> r == s
    decreases |s|
  {
    var s1 := SkipSpaces(s);
    if s1 == [] || s1[0] != PERCENT then s1
    else var s2 := DropLine(s1); if s2 == [] then [] else SkipComments(s2)
  }

  // ---- Names ----

  predicate EndsName(c: byte) {
    IsWhiteSpace(c) || c == SLASH || c == LBRACKET || c == LPAREN || c == RBRACKET || c == LESS || c == GREATER
  }

  /** Go's string(b) for a byte b: the UTF-8 form of the code point. */
  function Utf8(c: byte): Bytes {
    if c < 128 then [c] else [0xC0 + c / 64, 0x80 + c % 64]
  }

  function NameBody(d: Dialect, acc: Bytes, s: Bytes): (r: Parsed<Bytes>)
    ensures r.Ok? ==> |r.rest| <= |s|
    ensures !r.Hang?
    decreases |s|
  {
    if s == [] then Ok(acc, s)
    else if EndsName(s[0]) then Ok(acc, s)
    else if s[0] == HASH then
      if |s| < 3 then Fail(Eof)
      else if IsHexDigit(s[1]) && IsHexDigit(s[2]) then
        NameBody(d, acc + [16 * HexValue(s[1]) + HexValue(s[2])], s[3..])
      else if d.File? then NameBody(d, acc + [HASH], s[1..])
      else Fail(Malformed)
    else NameBody(d, acc + (if d.File? then [s[0]] else Utf8(s[0])), s[1..])
  }

  function ParseName(d: Dialect, s: Bytes): (r: Parsed<Bytes>)
    ensures r.Ok? && s != [] ==> |r.rest| < |s|
    ensures !r.Hang?
    decreases |s|
  {
    if s == [] then Ok([], [])
    else if s[0] == SLASH then NameBody(d, [], s[1..])
    else if s[0] == PERCENT && d.File? then
      var s1 := SkipSpaces(DropLine(s));
      if s1 == [] then Ok([], []) else ParseName(d, s1)
    else Fail(Malformed)
  }

  // ---- Strings ----

  /** What an escaped byte stands for; an unknown escape stands for nothing. */
  function Unescaped(c: byte): Bytes {
    if c == 0x6E then [0x0A]
    else if c == 0x72 then [0x0D]
    else if c == 0x74 then [0x09]
    else if c == 0x62 then [0x08]
    else if c == 0x66 then [0x0C]
    else if c == LPAREN || c == RPAREN || c == BACKSLASH then [c]
    else []
  }

  /** How many of up to two bytes continue an octal escape. */
  function OctalRun(s: Bytes): (n: nat)
    requires |s| >= 2
    ensures n <= 2
  {
    if !IsOctalDigit(s[0]) then 0 else if !IsOctalDigit(s[1]) then 1 else 2
  }

  function OctalValue(s: Bytes): nat {
    if s == [] then 0 else 8 * OctalValue(s[..|s| - 1]) + (if s[|s| - 1] >= 0x30 then s[|s| - 1] - 0x30 else 0)
  }

  function StringBody(acc: Bytes, depth: nat, s: Bytes): (r: Parsed<Bytes>)
    ensures r.Ok? ==> |r.rest| < |s|
    ensures !r.Hang?
    decreases |s|
  {
    if s == [] then Fail(Eof)
    else if s[0] == BACKSLASH then
      if |s| < 2 then Fail(Eof)
      else if IsOctalDigit(s[1]) then
        if |s| < 4 then Fail(Eof)
        else
          var n := OctalRun(s[2..4]);
          StringBody(acc + [OctalValue(s[1..2 + n]) % 256], depth, s[2 + n..])
      else StringBody(acc + Unescaped(s[1]), depth, s[2..])
    else if s[0] == LPAREN then StringBody(acc + [s[0]], depth + 1, s[1..])
    else if s[0] == RPAREN && depth <= 1 then Ok(acc, s[1..])
    else if s[0] == RPAREN then StringBody(acc + [s[0]], depth - 1, s[1..])
    else StringBody(acc + [s[0]], depth, s[1..])
  }

  function HexBody(d: Dialect, acc: Bytes, s: Bytes): (r: Parsed<Bytes>)
    ensures r.Ok? ==> |r.rest| < |s|
    ensures !r.Hang?
    decreases |s|
  {
    if s == [] then Fail(Eof)
    else if s[0] == GREATER then Ok(HexDecode(EvenHex(acc)), s[1..])
    else if (if d.File? then !IsWhiteSpace(s[0]) else IsHexDigit(s[0])) then HexBody(d, acc + [s[0]], s[1..])
    else HexBody(d, acc, s[1..])
  }

  // ---- Numbers (core/utils.go) ----

  datatype Scan = Scan(text: Bytes, isFloat: bool, rest: Bytes)

  function ScanNumber(acc: Bytes, isFloat: bool, allowSigns: bool, s: Bytes): (r: Scan)
    ensures |r.rest| <= |s|
    ensures s != [] && IsFloatDigit(s[0]) ==> |r.rest| < |s|
    ensures s != [] && s[0] == MINUS && allowSigns ==> |r.rest| < |s|
    decreases |s|
  {
    if s == [] then Scan(acc, isFloat, s)
    else if allowSigns && (s[0] == MINUS || s[0] == PLUS) then ScanNumber(acc + [s[0]], isFloat, false, s[1..])
    else if IsDecimalDigit(s[0]) then ScanNumber(acc + [s[0]], isFloat, allowSigns, s[1..])
    else if s[0] == DOT then ScanNumber(acc + [s[0]], true, allowSigns, s[1..])
    else if s[0] == 0x65 || s[0] == 0x45 then ScanNumber(acc + [s[0]], true, true, s[1..])
    else Scan(acc, isFloat, s)
  }

  const MAX_INT64: int := 0x7FFF_FFFF_FFFF_FFFF
  const MIN_INT64: int := -0x8000_0000_0000_0000

  /** strconv.ParseInt in base 10; ParseNumber reads anything it refuses as 0. */
  function IntegerValue(t: Bytes): int {
    var signed := t != [] && (t[0] == MINUS || t[0] == PLUS);
    var ds := if signed then t[1..] else t;
    if ds == [] || !AllDigits(ds) then 0
    else
      var magnitude: int := DecimalValue(ds);
      var v := if t[0] == MINUS then -magnitude else magnitude;
      if MIN_INT64 <= v <= MAX_INT64 then v else 0
  }

  function ParseNumber(s: Bytes): (r: Parsed<Obj>)
    ensures r.Ok? && |r.rest| <= |s|
    ensures s != [] && (IsFloatDigit(s[0]) || s[0] == MINUS) ==> |r.rest| < |s|
  {
    var n := ScanNumber([], false, true, s);
    Ok(if n.isFloat then Float(n.text) else Int(IntegerValue(n.text)), n.rest)
  }

  /** reNumeric: any of + , - . and then a digit or a point. */
  predicate LooksNumeric(s: Bytes) {
    s != [] && (IsFloatDigit(s[0]) || (PLUS <= s[0] <= DOT && LooksNumeric(s[1..])))
  }

  // ---- References ----

  /** Go's \s, which unlike IsWhiteSpace leaves out the zero byte. */
  predicate IsRegexpSpace(c: byte) {
    c == 0x09 || c == 0x0A || c == 0x0C || c == 0x0D || c == 0x20
  }

  function DashRun(s: Bytes): (n: nat)
    ensures n <= |s|
  {
    if s != [] && s[0] == MINUS then 1 + DashRun(s[1..]) else 0
  }

  function SpaceRun(s: Bytes): (n: nat)
    ensures n <= |s|
  {
    if s != [] && IsRegexpSpace(s[0]) then 1 + SpaceRun(s[1..]) else 0
  }

  function DigitRun(s: Bytes): (n: nat)
    ensures n <= |s|
    ensures AllDigits(s[..n])
  {
    if s != [] && IsDecimalDigit(s[0]) then
      var n := DigitRun(s[1..]);
      assert s[..n + 1] == [s[0]] + s[1..][..n];
      1 + n
    else 0
  }

  /** The two digit groups of a reference, and how many bytes it takes. */
  datatype RefParts = RefParts(num: Bytes, gen: Bytes, length: nat)

  /** What follows the object number of a reference: spaces, digits, spaces, R. */
  function MatchRefTail(s: Bytes): (r: Option<(Bytes, nat)>)
    ensures r.Some? ==> r.value.0 != [] && AllDigits(r.value.0) && r.value.1 <= |s|
  {
    var w := SpaceRun(s);
    var s1 := s[w..];
    var g := DigitRun(s1);
    var s2 := s1[g..];
    var w' := SpaceRun(s2);
    var s3 := s2[w'..];
    if w > 0 && g > 0 && w' > 0 && s3 != [] && s3[0] == LETTER_R then Some((s1[..g], w + g + w' + 1)) else None
  }

  /** reReference, applied at the start of s. */
  function MatchRef(s: Bytes): (r: Option<RefParts>)
    ensures r.Some? ==> r.value.num != [] && AllDigits(r.value.num) && r.value.gen != [] && AllDigits(r.value.gen)
  {
    var w := SpaceRun(s);
    var s1 := s[w..];
    var m := DashRun(s1);
    var s2 := s1[m..];
    var n := DigitRun(s2);
    if n == 0 then None
    else match MatchRefTail(s2[n..])
      case None => None
      case Some(tail) => Some(RefParts(s2[..n], tail.0, w + m + n + tail.1))
  }

  /** Everything up to and including the first R (bufio's ReadBytes). */
  function ThroughR(s: Bytes): (n: nat)
    ensures n <= |s|
    ensures s != [] ==> n > 0
  {
    if s == [] then 0 else if s[0] == LETTER_R then 1 else 1 + ThroughR(s[1..])
  }

  /** strconv.Atoi with its error dropped: an overflow gives the largest integer. */
  function Atoi(ds: Bytes): int
    requires AllDigits(ds)
  {
    Min(DecimalValue(ds), MAX_INT64)
  }

  const PEEK: nat := 15

  function ReadReference(s: Bytes): (r: Parsed<Obj>)
    ensures r.Ok? && s != [] ==> |r.rest| < |s|
  {
    var n := ThroughR(s);
    match MatchRef(s[..n])
    case None => Fail(Malformed)
    case Some(p) => Ok(Ref(Atoi(p.num), Atoi(p.gen)), s[n..])
  }

  // ---- Objects ----

  function Plain(r: Parsed<Obj>): (t: Parsed<Token>)
    ensures r.Ok? ==> t == Ok(Token(r.value, false), r.rest)
  {
    match r
    case Ok(o, rest) => Ok(Token(o, false), rest)
    case Fail(why) => Fail(why)
    case Hang => Hang
  }

  function AsName(r: Parsed<Bytes>): Parsed<Obj> {
    match r
    case Ok(n, rest) => Ok(Name(n), rest)
    case Fail(why) => Fail(why)
    case Hang => Hang
  }

  function AsStr(r: Parsed<Bytes>, isHex: bool): Parsed<Obj> {
    match r
    case Ok(v, rest) => Ok(Str(v, isHex), rest)
    case Fail(why) => Fail(why)
    case Hang => Hang
  }

  /** The words true, false and null, in either reader. */
  function Keyword(s: Bytes): (r: Option<(Obj, nat)>)
    ensures r.Some? ==> 0 < r.value.1 <= |s|
  {
    if NULL_WORD <= s then Some((Null, 4))
    else if FALSE_WORD <= s then Some((Bool(false), 5))
    else if TRUE_WORD <= s then Some((Bool(true), 4))
    else None
  }

  /** The branch of the file reader that looks fifteen bytes ahead. */
  function FileWord(s: Bytes): (r: Parsed<Obj>)
    requires s != []
    ensures r.Ok? ==> |r.rest| <= |s|
  {
    match Keyword(s)
    case Some(k) => Ok(k.0, s[k.1..])
    case None =>
      var ahead := s[..Min(PEEK, |s|)];
      if MatchRef(ahead).Some? then ReadReference(s)
      else if LooksNumeric(ahead) then ParseNumber(s)
      else Fail(Malformed)
  }

  function OperandBody(acc: Bytes, s: Bytes): (r: Parsed<Bytes>)
    ensures r.Ok? ==> |r.rest| <= |s| && |r.value| == |acc| + |s| - |r.rest|
    ensures !r.Hang?
    decreases |s|
  {
    if s == [] then Fail(Eof)
    else if IsDelimiter(s[0]) || IsWhiteSpace(s[0]) then Ok(acc, s)
    else OperandBody(acc + [s[0]], s[1..])
  }

  /** The branches of the content stream reader for numbers, words and operators. */
  function ContentWord(s: Bytes): (r: Parsed<Token>)
    requires |s| >= 2
    ensures r.Ok? ==> |r.rest| < |s|
    ensures !r.Hang?
  {
    if IsFloatDigit(s[0]) || (s[0] == MINUS && IsFloatDigit(s[1])) then Plain(ParseNumber(s))
    else match Keyword(s)
      case Some(k) => Ok(Token(k.0, false), s[k.1..])
      case None =>
        match OperandBody([], s)
        case Fail(why) => Fail(why)
        case Hang => Hang
        case Ok(word, rest) => if word == [] then Fail(Malformed) else Ok(Token(Str(word, false), true), rest)
  }

  /** How many unread bytes the reader needs before it looks at an object. */
  function Needed(d: Dialect): nat {
    if d.File? then 1 else 2
  }

  /** A key that some writers produce by leaving out the space before a null value. */
  predicate EndsInNull(key: Bytes) {
    |key| > 4 && key[|key| - 4..] == NULL_WORD
  }

  /** parseObject once its leading white space is skipped. */
  function ParseAt(d: Dialect, s: Bytes): (r: Parsed<Token>)
    ensures r.Ok? ==> |r.rest| <= |s| && (d.Content? ==> |r.rest| < |s|)
    decreases |s|, 0
  {
    if |s| < Needed(d) then Fail(Eof)
    else if s[0] == PERCENT then ParseAt(d, if d.File? then SkipSpaces(DropLine(s)) else SkipComments(s))
    else if s[0] == SLASH then Plain(AsName(ParseName(d, s)))
    else if s[0] == LPAREN then Plain(AsStr(StringBody([], 1, s[1..]), false))
    else if s[0] == LBRACKET then Plain(ParseElems(d, [], s[1..]))
    else if s[0] == LESS && |s| >= 2 && s[1] == LESS then Plain(ParseEntries(d, [], s[2..]))
    else if s[0] == LESS then Plain(AsStr(HexBody(d, [], s[1..]), true))
    else if d.File? then Plain(FileWord(s))
    else ContentWord(s)
  }

  /** The loop of parseArray. An element that consumes nothing is met again for ever. */
  function ParseElems(d: Dialect, acc: seq<Obj>, s: Bytes): (r: Parsed<Obj>)
    ensures r.Ok? ==> |r.rest| < |s|
    decreases |s|, 1
  {
    var s1 := SkipSpaces(s);
    if s1 == [] then Fail(Eof)
    else if s1[0] == RBRACKET then Ok(Array(acc), s1[1..])
    else match ParseAt(d, s1)
      case Fail(why) => Fail(why)
      case Hang => Hang
      case Ok(t, rest) => if |rest| < |s1| then ParseElems(d, acc + [t.obj], rest) else Hang
  }

  /** The loop of ParseDict and parseDict. */
  function ParseEntries(d: Dialect, acc: seq<Entry>, s: Bytes): (r: Parsed<Obj>)
    ensures r.Ok? ==> |r.rest| < |s|
    decreases |s|, 1
  {
    var s1 := if d.File? then SkipComments(SkipSpaces(s)) else SkipSpaces(s);
    if |s1| < 2 then Fail(Eof)
    else if s1[0] == GREATER && s1[1] == GREATER then Ok(Dict(acc), s1[2..])
    else match ParseName(d, s1)
      case Fail(why) => Fail(why)
      case Hang => Hang
      case Ok(key, s2) => ParseValue(d, acc, key, SkipSpaces(s2))
  }

  /** The loop from the first byte after a key on. */
  function ParseValue(d: Dialect, acc: seq<Entry>, key: Bytes, s: Bytes): (r: Parsed<Obj>)
    ensures r.Ok? ==> |r.rest| < |s|
    decreases |s|, 2
  {
    if EndsInNull(key) && s == [] then Fail(Panic)
    else if EndsInNull(key) && s[0] == SLASH then ParseEntries(d, Set(acc, key[..|key| - 4], Null), s)
    else match ParseAt(d, s)
      case Fail(why) => Fail(why)
      case Hang => Hang
      case Ok(t, rest) => ParseEntries(d, Set(acc, key, t.obj), rest)
  }

  function ParseObject(d: Dialect, s: Bytes): Parsed<Token> {
    ParseAt(d, SkipSpaces(s))
  }
}
