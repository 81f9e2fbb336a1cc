/** PDF objects and how they are written (core/primitives.go; sections 7.3.2 to 7.3.10 of
    ISO 32000-1:2008). */
module Objects {
  import opened Bytes

  datatype Obj =
    | Null
    | Bool(value: bool)
    | Int(n: int)
    | Float(text: Bytes) // the literal that strconv converts; its value is not part of this model
    | Str(val: Bytes, isHex: bool)
    | Name(name: Bytes)
    | Ref(num: int, gen: int)
    | Array(elems: seq<Obj>)
    | Dict(entries: seq<Entry>) // in the order of the dictionary's key list

  datatype Entry = Entry(key: Bytes, value: Obj)

  // ---- Dictionaries ----

  predicate HasKey(es: seq<Entry>, key: Bytes) {
    exists i :: 0 <= i < |es| && es[i].key == key
  }

  predicate DistinctKeys(es: seq<Entry>) {
    forall i, j :: 0 <= i < j < |es| ==> es[i].key != es[j].key
  }

  /** A present key keeps its place, a new one goes last. */
  function Set(es: seq<Entry>, key: Bytes, val: Obj): (r: seq<Entry>)
    ensures !HasKey(es, key) ==> r == es + [Entry(key, val)]
    ensures forall e :: e in r ==> e in es || e == Entry(key, val)
  {
    if es == [] then [Entry(key, val)]
    else if es[0].key == key then [Entry(key, val)] + es[1..]
    else
      assert HasKey(es[1..], key) ==> HasKey(es, key) by {
        if HasKey(es[1..], key) {
          var i :| 0 <= i < |es| - 1 && es[1..][i].key == key;
          assert es[i + 1].key == key;
        }
      }
      [es[0]] + Set(es[1..], key, val)
  }

  // ---- Writing ----

  const NULL_WORD: Bytes := [0x6E, 0x75, 0x6C, 0x6C]
  const TRUE_WORD: Bytes := [0x74, 0x72, 0x75, 0x65]
  const FALSE_WORD: Bytes := [0x66, 0x61, 0x6C, 0x73, 0x65]

  const LPAREN: byte := 0x28
  const RPAREN: byte := 0x29
  const LESS: byte := 0x3C
  const GREATER: byte := 0x3E
  const LBRACKET: byte := 0x5B
  const RBRACKET: byte := 0x5D
  const SLASH: byte := 0x2F
  const HASH: byte := 0x23
  const BACKSLASH: byte := 0x5C
  const SPACE: byte := 0x20
  const MINUS: byte := 0x2D
  const LETTER_R: byte := 0x52

  function FormatInt(n: int): (s: Bytes)
    ensures s != []
  {
    if n < 0 then [MINUS] + Digits(-n) else Digits(n)
  }

  /** The letter after the backslash for the bytes that are written as escapes. */
  function EscapeLetter(c: byte): (r: Option<byte>)
    ensures c == LPAREN || c == RPAREN || c == BACKSLASH ==> r.Some?
  {
    if c == 0x0A then Some(0x6E)      // \n
    else if c == 0x0D then Some(0x72) // \r
    else if c == 0x09 then Some(0x74) // \t
    else if c == 0x08 then Some(0x62) // \b
    else if c == 0x0C then Some(0x66) // \f
    else if c == LPAREN || c == RPAREN || c == BACKSLASH then Some(c)
    else None
  }

  function EscapedByte(c: byte): Bytes {
    if EscapeLetter(c).Some? then [BACKSLASH, EscapeLetter(c).value] else [c]
  }

  function EscapedText(s: Bytes): Bytes {
    if s == [] then [] else EscapedByte(s[0]) + EscapedText(s[1..])
  }

  function LowerHexPair(c: byte): Bytes {
    [LowerHexDigit(c / 16), LowerHexDigit(c % 16)]
  }

  function HexText(s: Bytes): Bytes {
    if s == [] then [] else LowerHexPair(s[0]) + HexText(s[1..])
  }

  function NameByte(c: byte): Bytes {
    if !IsPrintable(c) || c == HASH || IsDelimiter(c) then [HASH] + LowerHexPair(c) else [c]
  }

  function NameText(s: Bytes): Bytes {
    if s == [] then [] else NameByte(s[0]) + NameText(s[1..])
  }

  function WriteName(s: Bytes): Bytes {
    [SLASH] + NameText(s)
  }

  function WriteString(o: Obj): Bytes
    decreases o, 0
  {
    match o
    case Null => NULL_WORD
    case Bool(b) => if b then TRUE_WORD else FALSE_WORD
    case Int(n) => FormatInt(n)
    case Float(text) => text
    case Str(val, isHex) => if isHex then [LESS] + HexText(val) + [GREATER] else [LPAREN] + EscapedText(val) + [RPAREN]
    case Name(name) => WriteName(name)
    case Ref(num, gen) => FormatInt(num) + [SPACE] + FormatInt(gen) + [SPACE, LETTER_R]
    case Array(elems) => [LBRACKET] + WriteElems(elems) + [RBRACKET]
    case Dict(entries) => [LESS, LESS] + WriteEntries(entries) + [GREATER, GREATER]
  }

  /** The elements, with a space between one and the next. */
  function WriteElems(es: seq<Obj>): Bytes
    decreases es, 1
  {
    if es == [] then []
    else if |es| == 1 then WriteString(es[0])
    else WriteString(es[0]) + [SPACE] + WriteElems(es[1..])
  }

  function WriteEntries(es: seq<Entry>): Bytes
    decreases es, 1
  {
    if es == [] then []
    else WriteName(es[0].key) + [SPACE] + WriteString(es[0].value) + WriteEntries(es[1..])
  }

  // ---- The same text in front of what follows it ----

  function EscapedThen(s: Bytes, rest: Bytes): Bytes {
    if s == [] then rest else EscapedByte(s[0]) + EscapedThen(s[1..], rest)
  }

  function HexThen(s: Bytes, rest: Bytes): Bytes {
    if s == [] then rest else LowerHexPair(s[0]) + HexThen(s[1..], rest)
  }

  function NameThen(s: Bytes, rest: Bytes): Bytes {
    if s == [] then rest else NameByte(s[0]) + NameThen(s[1..], rest)
  }

  function TextThen(o: Obj, rest: Bytes): Bytes
    decreases o, 0
  {
    match o
    case Null => NULL_WORD + rest
    case Bool(b) => if b then TRUE_WORD + rest else FALSE_WORD + rest
    case Int(n) => FormatInt(n) + rest
    case Float(text) => text + rest
    case Str(val, isHex) =>
      if isHex then [LESS] + HexThen(val, [GREATER] + rest) else [LPAREN] + EscapedThen(val, [RPAREN] + rest)
    case Name(name) => [SLASH] + NameThen(name, rest)
    case Ref(num, gen) => FormatInt(num) + RefTail(gen, rest)
    case Array(elems) => [LBRACKET] + ElemsThen(elems, [RBRACKET] + rest)
    case Dict(entries) => [LESS, LESS] + EntriesThen(entries, [GREATER, GREATER] + rest)
  }

  /** A reference after its object number. */
  function RefTail(gen: int, rest: Bytes): Bytes {
    [SPACE] + (FormatInt(gen) + ([SPACE, LETTER_R] + rest))
  }

  function ElemsThen(es: seq<Obj>, rest: Bytes): Bytes
    decreases es, 1
  {
    if es == [] then rest else TextThen(es[0], MoreThen(es[1..], rest))
  }

  /** Further elements, each after a space. */
  function MoreThen(es: seq<Obj>, rest: Bytes): Bytes
    decreases es, 2
  {
    if es == [] then rest else [SPACE] + ElemsThen(es, rest)
  }

  function EntriesThen(es: seq<Entry>, rest: Bytes): Bytes
    decreases es, 1
  {
    if es == [] then rest
    else [SLASH] + NameThen(es[0].key, [SPACE] + TextThen(es[0].value, EntriesThen(es[1..], rest)))
  }

  lemma {:induction false} EscapedThenIs(s: Bytes, rest: Bytes)
    ensures EscapedThen(s, rest) == EscapedText(s) + rest
  {
    if s == [] {
      AppendNothing(rest);
    } else {
      EscapedThenIs(s[1..], rest);
      Assoc(EscapedByte(s[0]), EscapedText(s[1..]), rest);
    }
  }

  lemma {:induction false} HexThenIs(s: Bytes, rest: Bytes)
    ensures HexThen(s, rest) == HexText(s) + rest
  {
    if s == [] {
      AppendNothing(rest);
    } else {
      HexThenIs(s[1..], rest);
      Assoc(LowerHexPair(s[0]), HexText(s[1..]), rest);
    }
  }

  lemma {:induction false} NameThenIs(s: Bytes, rest: Bytes)
    ensures NameThen(s, rest) == NameText(s) + rest
  {
    if s == [] {
      AppendNothing(rest);
    } else {
      NameThenIs(s[1..], rest);
      Assoc(NameByte(s[0]), NameText(s[1..]), rest);
    }
  }

  /** TextThen writes what WriteString writes. */
  lemma {:induction false} TextThenIs(o: Obj, rest: Bytes)
    ensures TextThen(o, rest) == WriteString(o) + rest
    decreases o, 0
  {
    match o
    case Str(val, isHex) =>
      if isHex {
        HexThenIs(val, [GREATER] + rest);
        Assoc4([LESS], HexText(val), [GREATER], rest);
      } else {
        EscapedThenIs(val, [RPAREN] + rest);
        Assoc4([LPAREN], EscapedText(val), [RPAREN], rest);
      }
    case Name(name) =>
      NameThenIs(name, rest);
      Assoc([SLASH], NameText(name), rest);
    case Ref(num, gen) =>
      Assoc5(FormatInt(num), [SPACE], FormatInt(gen), [SPACE, LETTER_R], rest);
    case Array(elems) =>
      ElemsThenIs(elems, [RBRACKET] + rest);
      Assoc4([LBRACKET], WriteElems(elems), [RBRACKET], rest);
    case Dict(entries) =>
      EntriesThenIs(entries, [GREATER, GREATER] + rest);
      Assoc4([LESS, LESS], WriteEntries(entries), [GREATER, GREATER], rest);
    case _ =>
  }

  lemma {:induction false} ElemsThenIs(es: seq<Obj>, rest: Bytes)
    ensures ElemsThen(es, rest) == WriteElems(es) + rest
    decreases es, 1
  {
    if es == [] {
      AppendNothing(rest);
    } else {
      TextThenIs(es[0], MoreThen(es[1..], rest));
      if |es| > 1 {
        ElemsThenIs(es[1..], rest);
        Assoc4(WriteString(es[0]), [SPACE], WriteElems(es[1..]), rest);
      }
    }
  }

  lemma {:induction false} EntriesThenIs(es: seq<Entry>, rest: Bytes)
    ensures EntriesThen(es, rest) == WriteEntries(es) + rest
    decreases es, 1
  {
    if es == [] {
      AppendNothing(rest);
    } else {
      var k, v, t := NameText(es[0].key), WriteString(es[0].value), WriteEntries(es[1..]);
      EntriesThenIs(es[1..], rest);
      TextThenIs(es[0].value, EntriesThen(es[1..], rest));
      NameThenIs(es[0].key, [SPACE] + TextThen(es[0].value, EntriesThen(es[1..], rest)));
      Assoc5([SLASH] + k, [SPACE], v, t, rest);
      Assoc([SLASH], k, [SPACE] + (v + (t + rest)));
    }
  }

  lemma {:induction false} Assoc4(a: Bytes, b: Bytes, c: Bytes, d: Bytes)
    ensures a + b + c + d == a + (b + (c + d))
  {
    Assoc(a + b, c, d);
    Assoc(a, b, c + d);
  }

  lemma {:induction false} Assoc5(a: Bytes, b: Bytes, c: Bytes, d: Bytes, e: Bytes)
    ensures a + b + c + d + e == a + (b + (c + (d + e)))
  {
    Assoc(a + b + c, d, e);
    Assoc4(a, b, c, d + e);
  }
}
