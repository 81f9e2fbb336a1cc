/** The ASCIIHex filter of core/encoding.go (section 7.4.2 of ISO 32000-1:2008). */
module AsciiHex {
  import opened Bytes

  const GREATER: byte := 0x3E
  const SPACE: byte := 0x20
  const ZERO: byte := 0x30

  // ---- Decoder ----

  /** The hex digits up to the first `>`; None for another character or when there is no `>`. */
  function CollectOnto(acc: Bytes, s: Bytes): Option<Bytes>
    decreases |s|
  {
    if s == [] then None
    else if s[0] == GREATER then Some(acc)
    else if IsWhiteSpace(s[0]) then CollectOnto(acc, s[1..])
    else if IsHexDigit(s[0]) then CollectOnto(acc + [s[0]], s[1..])
    else None
  }

  function Decode(s: Bytes): Option<Bytes> {
    match CollectOnto([], s)
    case None => None
    case Some(h) => Some(HexDecode(EvenHex(h)))
  }

  method DecodeBytes(encoded: Bytes) returns (r: Option<Bytes>)
    ensures r == Decode(encoded)
  {
    var unread := encoded;
    var inb: Bytes := [];
    while true
      invariant CollectOnto(inb, unread) == CollectOnto([], encoded)
      decreases |unread|
    {
      if unread == [] { return None; }
      var b := unread[0];
      if b == GREATER { break; }
      unread := unread[1..];
      if IsWhiteSpace(b) { continue; }
      if IsHexDigit(b) {
        inb := inb + [b];
      } else {
        return None;
      }
    }
    if |inb| % 2 == 1 {
      inb := inb + [ZERO];
    }
    return Some(HexDecode(inb));
  }

  // ---- Encoder ----

  function HexPair(b: byte): Bytes {
    [UpperHexDigit(b / 16), UpperHexDigit(b % 16)]
  }

  function EncodeOnto(acc: Bytes, data: Bytes): Bytes
    decreases |data|
  {
    if data == [] then acc + [GREATER] else EncodeOnto(acc + HexPair(data[0]) + [SPACE], data[1..])
  }

  function Encode(data: Bytes): Bytes {
    EncodeOnto([], data)
  }

  method EncodeBytes(data: Bytes) returns (encoded: Bytes)
    ensures encoded == Encode(data)
  {
    encoded := [];
    var unread := data;
    while unread != []
      invariant EncodeOnto(encoded, unread) == Encode(data)
      decreases |unread|
    {
      encoded := encoded + HexPair(unread[0]) + [SPACE];
      unread := unread[1..];
    }
    encoded := encoded + [GREATER];
  }

  // ---- Decoding what was encoded ----

  function HexText(data: Bytes): (h: Bytes)
    ensures |h| == 2 * |data|
  {
    if data == [] then [] else HexPair(data[0]) + HexText(data[1..])
  }

  lemma {:induction false} EncodeOntoPrefix(acc: Bytes, data: Bytes)
    ensures EncodeOnto(acc, data) == acc + EncodeOnto([], data)
    ensures EncodeOnto(acc, data) != [] && EncodeOnto(acc, data)[|EncodeOnto(acc, data)| - 1] == GREATER
    decreases |data|
  {
    if data == [] {
    } else {
      var e := HexPair(data[0]) + [SPACE];
      EncodeOntoPrefix(acc + HexPair(data[0]) + [SPACE], data[1..]);
      EncodeOntoPrefix([] + HexPair(data[0]) + [SPACE], data[1..]);
      assert [] + HexPair(data[0]) + [SPACE] == e;
      assert acc + HexPair(data[0]) + [SPACE] == acc + e;
      Assoc(acc, e, EncodeOnto([], data[1..]));
    }
  }

  lemma {:induction false} CollectPair(acc: Bytes, p: Bytes, tail: Bytes)
    requires |p| == 2 && IsHexDigit(p[0]) && IsHexDigit(p[1])
    ensures CollectOnto(acc, p + [SPACE] + tail) == CollectOnto(acc + p, tail)
  {
    var s := p + [SPACE] + tail;
    var s1, s2 := s[1..], s[2..];
    assert s[0] == p[0] && s1[0] == p[1] && s1[1..] == s2;
    assert s2[0] == SPACE && s2[1..] == tail;
    assert acc + [p[0]] + [p[1]] == acc + p;
    assert CollectOnto(acc, s) == CollectOnto(acc + [p[0]], s1);
    assert CollectOnto(acc + [p[0]], s1) == CollectOnto(acc + p, s2);
  }

  lemma {:induction false} CollectEncoded(acc: Bytes, data: Bytes)
    ensures CollectOnto(acc, EncodeOnto([], data)) == Some(acc + HexText(data))
    decreases |data|
  {
    if data == [] {
      AppendNothing(acc);
      AppendNothing([GREATER]);
    } else {
      var p := HexPair(data[0]);
      AppendNothing(p);
      EncodeOntoPrefix(p + [SPACE], data[1..]);
      CollectPair(acc, p, EncodeOnto([], data[1..]));
      CollectEncoded(acc + p, data[1..]);
      Assoc(acc, p, HexText(data[1..]));
    }
  }

  lemma {:induction false} HexDecodeOfText(data: Bytes)
    ensures HexDecode(HexText(data)) == data
  {
    if data == [] {
    } else {
      var p, h := HexPair(data[0]), HexText(data);
      assert h[..2] == p && h[2..] == HexText(data[1..]);
      assert h[0] == p[0] && h[1] == p[1];
      HexDecodeOfText(data[1..]);
      HeadTail(data);
    }
  }

  /** ASCIIHex loses nothing, and its output ends in the end-of-data mark. */
  lemma {:induction false} RoundTrip(data: Bytes)
    ensures Decode(Encode(data)) == Some(data)
    ensures Encode(data) != [] && Encode(data)[|Encode(data)| - 1] == GREATER
  {
    CollectEncoded([], data);
    AppendNothing(HexText(data));
    HexDecodeOfText(data);
    EncodeOntoPrefix([], data);
  }

  // ---- Any text ----

  lemma {:induction false} CollectText(acc: Bytes, t: Bytes, junk: Bytes)
    requires GREATER !in t
    ensures CollectOnto(acc, t + ([GREATER] + junk)) == if IsHexOrSpace(t) then Some(acc + Strip(t)) else None
    decreases |t|
  {
    var s := t + ([GREATER] + junk);
    if t == [] {
      AppendNothing(acc);
      assert s[0] == GREATER;
    } else {
      SplitAppend(t, [GREATER] + junk, 1);
      assert s[0] == t[0] && t[0] in t;
      OneMore(t);
      if IsWhiteSpace(t[0]) {
        CollectText(acc, t[1..], junk);
      } else if IsHexDigit(t[0]) {
        CollectText(acc + [t[0]], t[1..], junk);
        Assoc(acc, [t[0]], Strip(t[1..]));
      }
    }
  }

  lemma {:induction false} OneMore(t: Bytes)
    requires t != []
    ensures IsHexOrSpace(t) <==> (IsHexDigit(t[0]) || IsWhiteSpace(t[0])) && IsHexOrSpace(t[1..])
  {
    if IsHexOrSpace(t[1..]) {
      forall i | 1 <= i < |t| ensures IsHexDigit(t[i]) || IsWhiteSpace(t[i]) { assert t[i] == t[1..][i - 1]; }
    }
  }

  /** Digits of either case, with white space anywhere, are decoded in pairs; a missing last digit is 0, what
      follows `>` does not matter, and any other character is refused. */
  lemma {:induction false} DecodeText(t: Bytes, junk: Bytes)
    requires GREATER !in t
    ensures Decode(t + ([GREATER] + junk)) == if IsHexOrSpace(t) then Some(HexDecode(EvenHex(Strip(t)))) else None
  {
    CollectText([], t, junk);
    AppendNothing(Strip(t));
  }

  /** Every byte is written as two capital digits and a space, and > ends the data. */
  lemma {:induction false} EncodedForm(b: byte, data: Bytes)
    ensures Encode([]) == Ascii(">")
    ensures Encode([b] + data)
            == ["0123456789ABCDEF"[b / 16] as int, "0123456789ABCDEF"[b % 16] as int, ' ' as int] + Encode(data)
  {
    assert Ascii(">") == [GREATER];
    var s := [b] + data;
    assert s[0] == b && s[1..] == data;
    EncodeOntoPrefix([] + HexPair(b) + [SPACE], data);
    assert [] + HexPair(b) + [SPACE] == HexPair(b) + [SPACE];
  }
}
