/** The ASCII85 filter of core/encoding.go (section 7.4.3 of ISO 32000-1:2008). */
module Ascii85 {
  import opened Bytes

  const TILDE: byte := 0x7E
  const GREATER: byte := 0x3E
  const LOWER_Z: byte := 0x7A
  const FIRST_CODE: byte := 0x21 // !
  const LAST_CODE: byte := 0x75  // u

  const EOD: Bytes := [TILDE, GREATER]

  const TWO_TO_THE_32: nat := 0x1_0000_0000

  // ---- Base conversion ----

  function Pow85(k: nat): (p: nat)
    ensures p >= 1
  {
    if k == 0 then 1 else 85 * Pow85(k - 1)
  }

  lemma {:induction false} Powers()
    ensures Pow85(1) == 85 && Pow85(2) == 7225 && Pow85(3) == 614125 && Pow85(4) == 52200625
  {
    assert Pow85(1) == 85 * Pow85(0);
    assert Pow85(2) == 85 * Pow85(1);
    assert Pow85(3) == 85 * Pow85(2);
    assert Pow85(4) == 85 * Pow85(3);
  }

  /** What is left of v after its i most significant base-85 digits. */
  function Remainder(v: int, i: nat): int
    requires i <= 5
  {
    if i == 0 then v else Remainder(v, i - 1) % Pow85(5 - i)
  }

  /** The five base-85 digits of v, most significant first. */
  function Base85(v: int): (ds: seq<int>)
    ensures |ds| == 5
  {
    seq(5, i requires 0 <= i < 5 => Remainder(v, i) / Pow85(4 - i))
  }

  predicate Proper(ds: seq<int>) {
    forall i :: 0 <= i < |ds| ==> 0 <= ds[i] < 85
  }

  /** Any 32-bit value has five proper base-85 digits, and they give the value back. */
  lemma {:induction false} FiveDigits(v: nat)
    requires v < TWO_TO_THE_32
    ensures var d := Base85(v);
            Proper(d) && v == d[0] * 52200625 + d[1] * 614125 + d[2] * 7225 + d[3] * 85 + d[4]
  {
    Powers();
    var r1 := v % 52200625;
    var r2 := r1 % 614125;
    var r3 := r2 % 7225;
    var r4 := r3 % 85;
    assert Remainder(v, 1) == r1;
    assert Remainder(v, 2) == r2;
    assert Remainder(v, 3) == r3;
    assert Remainder(v, 4) == r4;
    assert Base85(v) == [v / 52200625, r1 / 614125, r2 / 7225, r3 / 85, r4];
  }

  method Base256ToBase85(base256val: nat) returns (base85: Bytes)
    requires base256val < TWO_TO_THE_32
    ensures base85 == Base85(base256val)
  {
    FiveDigits(base256val);
    base85 := [];
    var remainder: int := base256val;
    for i := 0 to 5
      invariant |base85| == i && remainder == Remainder(base256val, i)
      invariant base85 == Base85(base256val)[..i]
    {
      var divider := 1;
      for j := 0 to 4 - i
        invariant divider == Pow85(j)
      {
        divider := divider * 85;
      }
      var val := remainder / divider;
      assert val == Base85(base256val)[i];
      remainder := remainder % divider;
      base85 := base85 + [val];
    }
    WholeSlice(Base85(base256val));
  }

  // ---- Encoder ----

  /** The big-endian value of up to four bytes, missing ones read as zero. */
  function Word(b: Bytes): (v: nat)
    requires |b| <= 4
    ensures v < TWO_TO_THE_32
  {
    ByteAt(b, 0) * 0x100_0000 + ByteAt(b, 1) * 0x1_0000 + ByteAt(b, 2) * 0x100 + ByteAt(b, 3)
  }

  function ByteAt(b: Bytes, i: nat): (v: int)
    ensures 0 <= v < 256
  {
    if i < |b| then b[i] else 0
  }

  /** The codes written for the first k digits. */
  function Emitted(ds: seq<int>, k: nat): (b: Bytes)
    requires k <= |ds| && Proper(ds)
    ensures |b| == k
  {
    seq(k, i requires 0 <= i < k => ds[i] + FIRST_CODE)
  }

  function EncodeGroup(b: Bytes): Bytes
    requires 1 <= |b| <= 4
  {
    var v := Word(b);
    if v == 0 then [LOWER_Z]
    else
      FiveDigits(v);
      Emitted(Base85(v), |b| + 1)
  }

  function EncodeOnto(acc: Bytes, data: Bytes): Bytes
    decreases |data|
  {
    if data == [] then acc + EOD
    else var n := Min(4, |data|); EncodeOnto(acc + EncodeGroup(data[..n]), data[n..])
  }

  function Encode(data: Bytes): Bytes {
    EncodeOnto([], data)
  }

  method EncodeBytes(data: Bytes) returns (encoded: Bytes)
    ensures encoded == Encode(data)
  {
    encoded := [];
    var unread := data;
    while unread != []
      invariant EncodeOnto(encoded, unread) == Encode(data)
      decreases |unread|
    {
      var base256, n := GatherGroup(unread);
      if base256 == 0 {
        encoded := encoded + [LOWER_Z];
      } else {
        FiveDigits(base256);
        encoded := WriteCodes(encoded, base256, n);
      }
      unread := unread[n..];
    }
    encoded := encoded + EOD;
  }

  /** Collects up to four bytes, counting them, into a 32-bit number. */
  method GatherGroup(unread: Bytes) returns (base256: nat, n: nat)
    requires unread != []
    ensures n == Min(4, |unread|) && base256 == Word(unread[..n])
  {
    var b1 := unread[0];
    n := 1;
    var b2: byte := 0;
    if 1 < |unread| {
      b2 := unread[1];
      n := n + 1;
    }
    var b3: byte := 0;
    if 2 < |unread| {
      b3 := unread[2];
      n := n + 1;
    }
    var b4: byte := 0;
    if 3 < |unread| {
      b4 := unread[3];
      n := n + 1;
    }
    base256 := b1 as int * 0x100_0000 + b2 as int * 0x1_0000 + b3 as int * 0x100 + b4 as int;
  }

  method WriteCodes(before: Bytes, base256: nat, n: nat) returns (encoded: Bytes)
    requires base256 < TWO_TO_THE_32 && n <= 4
    requires Proper(Base85(base256))
    ensures encoded == before + Emitted(Base85(base256), n + 1)
  {
    var base85vals := Base256ToBase85(base256);
    encoded := before;
    for k := 0 to n + 1
      invariant encoded == before + Emitted(Base85(base256), k)
    {
      encoded := encoded + [base85vals[k] + FIRST_CODE];
      assert Emitted(Base85(base256), k + 1) == Emitted(Base85(base256), k) + [base85vals[k] + FIRST_CODE];
    }
  }

  // ---- Decoder ----

  /** One group: the codes read, how many bytes they stand for, whether EOD was met, what is left. */
  datatype Group = Invalid | Group(codes: Bytes, toWrite: nat, eod: bool, rest: Bytes)

  predicate IsCode(c: byte) {
    FIRST_CODE <= c <= LAST_CODE
  }

  function ReadGroup(codes: Bytes, s: Bytes): (g: Group)
    requires |codes| <= 5 && Proper(codes)
    ensures g.Group? ==> && |g.codes| <= 5 && g.toWrite <= 4 && Proper(g.codes)
                         && |g.rest| <= |s| && (|codes| < 5 && s != [] && !g.eod ==> |g.rest| < |s|)
    decreases |s|
  {
    if |codes| == 5 || s == [] then Group(codes, 4, false, s)
    else if IsWhiteSpace(s[0]) then ReadGroup(codes, s[1..])
    else if EOD <= s then Group(codes, if |codes| == 0 then 0 else |codes| - 1, true, s)
    else if IsCode(s[0]) then ReadGroup(codes + [s[0] - FIRST_CODE], s[1..])
    else if s[0] == LOWER_Z && codes == [] then Group([], 4, false, s[1..])
    else Invalid
  }

  /** The five codes the value is computed from: unread ones are 0, those past `toWrite` are 84. */
  function Padded(codes: Bytes, toWrite: nat): (p: Bytes)
    requires |codes| <= 5
    ensures |p| == 5
  {
    seq(5, m requires m >= 0 => if m > toWrite then 84 else if m < |codes| then codes[m] else 0)
  }

  /** The value the decoder computes in 32-bit arithmetic. */
  function GroupValue(p: Bytes): nat
    requires |p| == 5
  {
    Unwrapped(p) % TWO_TO_THE_32
  }

  function Unwrapped(p: Bytes): nat
    requires |p| == 5
  {
    p[0] as int * 52200625 + p[1] as int * 614125 + p[2] as int * 7225 + p[3] as int * 85 + p[4] as int
  }

  function FourBytes(v: nat): (b: Bytes)
    requires v < TWO_TO_THE_32
    ensures |b| == 4
  {
    [v / 0x100_0000, v / 0x1_0000 % 0x100, v / 0x100 % 0x100, v % 0x100]
  }

  function GroupBytes(codes: Bytes, toWrite: nat): Bytes
    requires |codes| <= 5 && toWrite <= 4
  {
    FourBytes(GroupValue(Padded(codes, toWrite)))[..toWrite]
  }

  function DecodeOnto(acc: Bytes, s: Bytes): Option<Bytes>
    decreases |s|
  {
    if s == [] then Some(acc)
    else match ReadGroup([], s)
      case Invalid => None
      case Group(codes, toWrite, eod, rest) =>
        var acc' := acc + GroupBytes(codes, toWrite);
        if eod then Some(acc') else DecodeOnto(acc', rest)
  }

  function Decode(s: Bytes): Option<Bytes> {
    DecodeOnto([], s)
  }

  method DecodeBytes(encoded: Bytes) returns (r: Option<Bytes>)
    ensures r == Decode(encoded)
  {
    var decoded: Bytes := [];
    var unread := encoded;
    var eod := false;
    while unread != [] && !eod
      invariant if eod then Decode(encoded) == Some(decoded) else DecodeOnto(decoded, unread) == Decode(encoded)
      decreases |unread|, !eod
    {
      ghost var g := ReadGroup([], unread);
      var codes, toWrite, ok;
      codes, toWrite, eod, unread, ok := ReadCodes(unread);
      if !ok { return None; }
      codes := PadCodes(codes, toWrite);
      assert codes == Padded(g.codes, toWrite);
      var decodedBytes := FourBytes(GroupValue(codes));
      decoded := decoded + decodedBytes[..toWrite];
    }
    return Some(decoded);
  }

  /** The inner loop of the decoder. */
  method ReadCodes(input: Bytes) returns (codes: Bytes, toWrite: nat, eod: bool, unread: Bytes, ok: bool)
    ensures var g := ReadGroup([], input);
            if !ok then g == Invalid
            else && g.Group? && g.toWrite == toWrite && g.eod == eod && g.rest == unread
                 && |codes| == 5 && codes == g.codes + Repeat(0, 5 - |g.codes|)
  {
    codes := Repeat(0, 5);
    var count := 0;
    unread, toWrite, eod, ok := input, 4, false, true;
    ghost var collected: Bytes := [];
    while count < 5
      invariant 0 <= count <= 5 && |codes| == 5 && |collected| == count && Proper(collected)
      invariant codes == collected + Repeat(0, 5 - count)
      invariant ReadGroup(collected, unread) == ReadGroup([], input)
      decreases |unread|
    {
      if unread == [] { break; }
      var code := unread[0];
      if IsWhiteSpace(code) {
        unread := unread[1..];
        continue;
      } else if code == TILDE && 1 < |unread| && unread[1] == GREATER {
        assert EOD <= unread;
        toWrite := if count == 0 then 0 else count - 1;
        eod := true;
        return;
      }
      assert !(EOD <= unread);
      if code >= FIRST_CODE && code <= LAST_CODE {
        code := code - FIRST_CODE;
      } else if code == LOWER_Z && count == 0 {
        unread := unread[1..];
        return;
      } else {
        ok := false;
        return;
      }
      assert codes[count := code] == collected + [code] + Repeat(0, 4 - count);
      codes := codes[count := code];
      collected := collected + [code];
      count := count + 1;
      unread := unread[1..];
    }
  }

  method PadCodes(codes: Bytes, toWrite: nat) returns (p: Bytes)
    requires |codes| == 5 && toWrite <= 4
    ensures |p| == 5 && forall k :: 0 <= k < 5 ==> p[k] == if k > toWrite then 84 else codes[k]
  {
    p := codes;
    for m := toWrite + 1 to 5
      invariant |p| == 5 && forall k :: 0 <= k < 5 ==> p[k] == if toWrite < k < m then 84 else codes[k]
    {
      p := p[m := 84];
    }
  }

  // ---- Decoding what was encoded ----

  /** Whether the data ends in a short group of zero bytes. */
  predicate ShortZeroTail(data: Bytes) {
    var q := |data| / 4 * 4;
    q < |data| && forall i :: q <= i < |data| ==> data[i] == 0
  }

  lemma {:induction false} WordZero(b: Bytes)
    requires |b| <= 4
    ensures Word(b) == 0 <==> forall i :: 0 <= i < |b| ==> b[i] == 0
  {
    assert forall i :: 0 <= i < 4 && i < |b| ==> ByteAt(b, i) == b[i];
    if Word(b) == 0 {
      forall i | 0 <= i < |b| ensures b[i] == 0 {
        assert ByteAt(b, i) == 0;
      }
    }
  }

  /** Reading back k emitted codes reaches the same point with those codes collected. */
  lemma {:induction false} ReadEmitted(codes: Bytes, ds: seq<int>, k: nat, tail: Bytes)
    requires Proper(codes) && Proper(ds)
    requires |codes| + k <= 5 && k <= |ds|
    ensures ReadGroup(codes, Emitted(ds, k) + tail) == ReadGroup(codes + AsBytes(ds, k), tail)
    decreases k
  {
    var e := Emitted(ds, k);
    if k == 0 {
      AppendNothing(tail);
      AppendNothing(codes);
    } else {
      var ds' := ds[1..];
      assert e[0] == ds[0] + FIRST_CODE && IsCode(e[0]);
      assert e[1..] == Emitted(ds', k - 1);
      CodeStep(codes, e, tail, e + tail);
      ReadEmitted(codes + [ds[0]], ds', k - 1, tail);
      assert AsBytes(ds, k) == [ds[0]] + AsBytes(ds', k - 1);
      Assoc(codes, [ds[0]], AsBytes(ds', k - 1));
    }
  }

  function AsBytes(ds: seq<int>, k: nat): (b: Bytes)
    requires k <= |ds| && Proper(ds)
    ensures |b| == k && Proper(b)
  {
    seq(k, i requires 0 <= i < k => ds[i])
  }

  /** The weight of the last digit kept for n bytes: 85 to the power 4 - n. */
  function TruncationWeight(n: nat): nat
    requires n <= 4
  {
    if n == 4 then 1 else if n == 3 then 85 else if n == 2 then 7225 else if n == 1 then 614125 else 52200625
  }

  /** Keeping n + 1 of the five digits and padding with 84 adds less than the weight dropped. */
  lemma {:induction false} PaddingIsSmall(b: Bytes)
    requires 1 <= |b| <= 4
    ensures Word(b) <= Unwrapped(Padded(Codes(b), |b|)) < Word(b) + TruncationWeight(|b|)
  {
    FiveDigits(Word(b));
    var d := Base85(Word(b));
    var p := Padded(Codes(b), |b|);
    assert forall i :: 0 <= i < 5 ==> p[i] == if i <= |b| then d[i] else 84;
  }

  /** Base-85 truncation keeps the leading bytes and stays inside 32 bits. */
  lemma {:induction false} TruncationKeepsBytes(b: Bytes)
    requires 1 <= |b| <= 4
    ensures Unwrapped(Padded(Codes(b), |b|)) < TWO_TO_THE_32
    ensures GroupBytes(Codes(b), |b|) == b
  {
    PaddingIsSmall(b);
    var w := Unwrapped(Padded(Codes(b), |b|));
    NearWord(b, w);
    NoWrap(Padded(Codes(b), |b|), w);
  }

  lemma {:induction false} NoWrap(p: Bytes, w: nat)
    requires |p| == 5 && Unwrapped(p) == w < TWO_TO_THE_32
    ensures GroupValue(p) == w
  {
  }

  lemma {:induction false} NearWord(b: Bytes, w: nat)
    requires 1 <= |b| <= 4 && Word(b) <= w < Word(b) + TruncationWeight(|b|)
    ensures w < TWO_TO_THE_32
    ensures FourBytes(w)[..|b|] == b
  {
    var b2: byte := if |b| > 1 then b[1] else 0;
    var b3: byte := if |b| > 2 then b[2] else 0;
    var b4: byte := if |b| > 3 then b[3] else 0;
    BytesOfWord(b[0], b2, b3, b4, w - Word(b));
    assert FourBytes(w)[..|b|] == b;
  }

  /** Adding less than the weight of the zero bytes at the end changes none of the bytes before. */
  lemma {:induction false} BytesOfWord(b1: byte, b2: byte, b3: byte, b4: byte, e: nat)
    requires e < 0x100_0000 && (e > 0 ==> b4 == 0) && (e >= 0x100 ==> b3 == 0) && (e >= 0x1_0000 ==> b2 == 0)
    ensures var w := b1 as int * 0x100_0000 + b2 as int * 0x1_0000 + b3 as int * 0x100 + b4 as int + e;
            && w < TWO_TO_THE_32
            && w / 0x100_0000 == b1
            && (e < 0x1_0000 ==> w / 0x1_0000 % 0x100 == b2)
            && (e < 0x100 ==> w / 0x100 % 0x100 == b3)
            && (e == 0 ==> w % 0x100 == b4)
  {
    var w := b1 as int * 0x100_0000 + b2 as int * 0x1_0000 + b3 as int * 0x100 + b4 as int + e;
    HighByte(b1, b2 as int * 0x1_0000 + b3 as int * 0x100 + b4 as int + e, w);
    if e < 0x1_0000 { SecondByte(b1, b2, b3 as int * 0x100 + b4 as int + e, w); }
    if e < 0x100 { ThirdByte(b1 as int * 0x100 + b2 as int, b3, b4 as int + e, w); }
  }

  lemma {:induction false} HighByte(b1: byte, low: nat, w: nat)
    requires low < 0x100_0000 && w == b1 as int * 0x100_0000 + low
    ensures w < TWO_TO_THE_32 && w / 0x100_0000 == b1
  {
  }

  lemma {:induction false} SecondByte(b1: byte, b2: byte, low: nat, w: nat)
    requires low < 0x1_0000 && w == b1 as int * 0x100_0000 + b2 as int * 0x1_0000 + low
    ensures w / 0x1_0000 % 0x100 == b2
  {
    var h := b1 as int * 0x100 + b2 as int;
    assert w / 0x1_0000 == h;
  }

  lemma {:induction false} ThirdByte(high: nat, b3: byte, low: nat, w: nat)
    requires low < 0x100 && w == high * 0x1_0000 + b3 as int * 0x100 + low
    ensures w / 0x100 % 0x100 == b3
  {
    var h := high * 0x100 + b3 as int;
    assert w / 0x100 == h;
  }

  /** One turn of the decoder's outer loop on s writes b and leaves rest. */
  predicate Turn(s: Bytes, b: Bytes, eod: bool, rest: Bytes) {
    var g := ReadGroup([], s);
    s != [] && g.Group? && g.eod == eod && g.rest == rest && GroupBytes(g.codes, g.toWrite) == b
  }

  lemma {:induction false} TakeTurn(acc: Bytes, s: Bytes, b: Bytes, eod: bool, rest: Bytes)
    requires Turn(s, b, eod, rest)
    ensures DecodeOnto(acc, s) == if eod then Some(acc + b) else DecodeOnto(acc + b, rest)
  {
  }

  lemma {:induction false} TurnOnZ(s: Bytes)
    requires s != [] && s[0] == LOWER_Z
    ensures Turn(s, Repeat(0, 4), false, s[1..])
  {
    assert Padded([], 4) == Repeat(0, 5);
    assert GroupBytes([], 4) == Repeat(0, 4);
  }

  lemma {:induction false} TurnOnEnd(s: Bytes)
    requires EOD <= s
    ensures Turn(s, [], true, s)
  {
  }

  lemma {:induction false} GroupEnds(codes: Bytes, tail: Bytes)
    requires Proper(codes) && 2 <= |codes| <= 5 && (|codes| < 5 ==> EOD <= tail)
    ensures ReadGroup(codes, tail) == Group(codes, |codes| - 1, |codes| < 5, tail)
  {
  }

  /** The codes kept for a group that is not all zero. */
  function Codes(b: Bytes): (codes: Bytes)
    requires |b| <= 4
    ensures |codes| == |b| + 1 && Proper(codes)
  {
    FiveDigits(Word(b));
    AsBytes(Base85(Word(b)), |b| + 1)
  }

  lemma {:induction false} CodesAreRead(b: Bytes, tail: Bytes)
    requires 1 <= |b| <= 4 && Word(b) != 0
    requires |b| < 4 ==> EOD <= tail
    ensures ReadGroup([], EncodeGroup(b) + tail) == Group(Codes(b), |b|, |b| < 4, tail)
  {
    FiveDigits(Word(b));
    var d := Base85(Word(b));
    assert EncodeGroup(b) == Emitted(d, |b| + 1);
    ReadEmitted([], d, |b| + 1, tail);
    AppendNothing(Codes(b));
    GroupEnds(Codes(b), tail);
  }

  lemma {:induction false} TurnOnCodes(b: Bytes, tail: Bytes)
    requires 1 <= |b| <= 4 && Word(b) != 0
    requires |b| < 4 ==> EOD <= tail
    ensures Turn(EncodeGroup(b) + tail, b, |b| < 4, tail)
  {
    CodesAreRead(b, tail);
    TruncationKeepsBytes(b);
  }

  lemma {:induction false} TurnOnFull(b: Bytes, tail: Bytes)
    requires |b| == 4
    ensures Turn(EncodeGroup(b) + tail, b, false, tail)
  {
    if Word(b) == 0 {
      WordZero(b);
      assert b == Repeat(0, 4);
      TurnOnZ(EncodeGroup(b) + tail);
    } else {
      TurnOnCodes(b, tail);
    }
  }

  lemma {:induction false} EncodeOntoPrefix(acc: Bytes, data: Bytes)
    ensures EncodeOnto(acc, data) == acc + EncodeOnto([], data)
    ensures EncodeOnto(acc, data) != [] && EncodeOnto(acc, data)[|EncodeOnto(acc, data)| - 1] == GREATER
    decreases |data|
  {
    if data == [] {
      AppendNothing(EOD);
    } else {
      var n := Min(4, |data|);
      var e := EncodeGroup(data[..n]);
      EncodeOntoPrefix(acc + e, data[n..]);
      EncodeOntoPrefix(e, data[n..]);
      AppendNothing(e);
      Assoc(acc, e, EncodeOnto([], data[n..]));
    }
  }

  lemma {:induction false} DecodeShort(acc: Bytes, data: Bytes)
    requires 1 <= |data| < 4
    ensures DecodeOnto(acc, EncodeGroup(data) + EOD)
            == Some(acc + if Word(data) == 0 then Repeat(0, 4) else data)
  {
    var s := EncodeGroup(data) + EOD;
    if Word(data) == 0 {
      TurnOnZ(s);
      TakeTurn(acc, s, Repeat(0, 4), false, EOD);
      DecodeEnd(acc + Repeat(0, 4));
    } else {
      TurnOnCodes(data, EOD);
      TakeTurn(acc, s, data, true, EOD);
    }
  }

  lemma {:induction false} DecodeEnd(acc: Bytes)
    ensures DecodeOnto(acc, EOD) == Some(acc)
  {
    TurnOnEnd(EOD);
    TakeTurn(acc, EOD, [], true, EOD);
    AppendNothing(acc);
  }

  /** What decoding an encoding returns, for every input. */
  function Returned(data: Bytes): Bytes {
    if ShortZeroTail(data) then data[..|data| / 4 * 4] + Repeat(0, 4) else data
  }

  lemma {:induction false} EncodedShort(acc: Bytes, data: Bytes)
    requires 1 <= |data| < 4
    ensures DecodeOnto(acc, EncodeOnto([], data)) == Some(acc + Returned(data))
  {
    WholeSlice(data);
    AppendNothing(EncodeGroup(data));
    assert EncodeOnto([], data) == EncodeGroup(data) + EOD;
    AppendNothing(Repeat(0 as byte, 4));
    WordZero(data);
    DecodeShort(acc, data);
  }

  lemma {:induction false} EncodedSplits(data: Bytes)
    requires |data| >= 4
    ensures EncodeOnto([], data) == EncodeGroup(data[..4]) + EncodeOnto([], data[4..])
  {
    AppendNothing(EncodeGroup(data[..4]));
    EncodeOntoPrefix(EncodeGroup(data[..4]), data[4..]);
  }

  lemma {:induction false} DecodeEncoded(acc: Bytes, data: Bytes)
    ensures DecodeOnto(acc, EncodeOnto([], data)) == Some(acc + Returned(data))
    decreases |data|
  {
    if data == [] {
      AppendNothing(EOD);
      AppendNothing(acc);
      DecodeEnd(acc);
    } else if |data| < 4 {
      EncodedShort(acc, data);
    } else {
      var b, rest := data[..4], data[4..];
      EncodedSplits(data);
      TurnOnFull(b, EncodeOnto([], rest));
      TakeTurn(acc, EncodeOnto([], data), b, false, EncodeOnto([], rest));
      DecodeEncoded(acc + b, rest);
      ReturnedSplits(data);
      Assoc(acc, b, Returned(rest));
    }
  }

  lemma {:induction false} ReturnedSplits(data: Bytes)
    requires |data| >= 4
    ensures Returned(data) == data[..4] + Returned(data[4..])
  {
    ShortZeroTailOfRest(data);
    var q := |data[4..]| / 4 * 4;
    assert data[..q + 4] == data[..4] + data[4..][..q];
    Assoc(data[..4], data[4..][..q], Repeat(0, 4));
  }

  lemma {:induction false} ShortZeroTailOfRest(data: Bytes)
    requires |data| >= 4
    ensures ShortZeroTail(data) <==> ShortZeroTail(data[4..])
    ensures |data| / 4 * 4 == |data[4..]| / 4 * 4 + 4
  {
    var rest := data[4..];
    var q := |rest| / 4 * 4;
    assert |data| / 4 * 4 == q + 4;
    if ShortZeroTail(rest) {
      forall i | q + 4 <= i < |data| ensures data[i] == 0 { assert data[i] == rest[i - 4]; }
    }
  }

  /** ASCII85 loses nothing except when the data ends in a short group of zero bytes. */
  lemma {:induction false} LosslessIff(data: Bytes)
    ensures Decode(Encode(data)) == Some(data) <==> !ShortZeroTail(data)
    ensures ShortZeroTail(data) ==> Decode(Encode(data)) == Some(data[..|data| / 4 * 4] + Repeat(0, 4))
  {
    DecodeEncoded([], data);
    AppendNothing(Returned(data));
  }

  lemma {:induction false} EndsInEod(data: Bytes)
    ensures Encode(data) != [] && Encode(data)[|Encode(data)| - 1] == GREATER
  {
    EncodeOntoPrefix([], data);
  }

  // ---- White space ----

  predicate NoTilde(s: Bytes) {
    forall i :: 0 <= i < |s| ==> s[i] != TILDE
  }

  lemma {:induction false} SpaceStep(codes: Bytes, t: Bytes, tail: Bytes, s: Bytes)
    requires |codes| < 5 && Proper(codes) && t != [] && IsWhiteSpace(t[0]) && s == t + tail
    ensures ReadGroup(codes, s) == ReadGroup(codes, t[1..] + tail)
  {
    assert s[0] == t[0];
    SplitAppend(t, tail, 1);
  }

  lemma {:induction false} CodeStep(codes: Bytes, t: Bytes, tail: Bytes, s: Bytes)
    requires |codes| < 5 && Proper(codes) && t != [] && IsCode(t[0]) && s == t + tail
    ensures ReadGroup(codes, s) == ReadGroup(codes + [t[0] - FIRST_CODE], t[1..] + tail)
  {
    assert s[0] == t[0] && !IsWhiteSpace(s[0]) && !(EOD <= s);
    SplitAppend(t, tail, 1);
  }

  lemma {:induction false} OtherStep(codes: Bytes, t: Bytes, tail: Bytes, s: Bytes)
    requires |codes| < 5 && Proper(codes) && t != [] && s == t + tail
    requires !IsCode(t[0]) && !IsWhiteSpace(t[0]) && t[0] != TILDE
    ensures ReadGroup(codes, s)
            == if t[0] == LOWER_Z && codes == [] then Group([], 4, false, t[1..] + tail) else Invalid
  {
    assert s[0] == t[0] && !(EOD <= s);
    SplitAppend(t, tail, 1);
  }

  /** Two groups are the same, and what is left of the texts differs in white space and behind EOD only. */
  predicate SameGroup(g: Group, h: Group, t: Bytes, tail: Bytes) {
    if g == Invalid then h == Invalid
    else && h.Group? && g.codes == h.codes && g.toWrite == h.toWrite && g.eod == h.eod
         && g.rest == t + tail && h.rest == Strip(t) + EOD
  }

  /** Where a group ends inside t, when EOD and arbitrary bytes follow it. */
  lemma {:induction false} GroupIgnoresSpaces(codes: Bytes, t: Bytes, tail: Bytes) returns (t': Bytes)
    requires |codes| <= 5 && Proper(codes) && NoTilde(t) && EOD <= tail
    ensures NoTilde(t') && |t'| <= |t|
    ensures SameGroup(ReadGroup(codes, t + tail), ReadGroup(codes, Strip(t) + EOD), t', tail)
    ensures |codes| < 5 && t' == t ==> ReadGroup(codes, t + tail).Group? ==> ReadGroup(codes, t + tail).eod
    decreases |t|
  {
    var s, u := t + tail, Strip(t) + EOD;
    t' := t;
    if |codes| == 5 {
    } else if t == [] {
      AppendNothing(tail);
      AppendNothing(EOD);
    } else if IsWhiteSpace(t[0]) {
      SpaceStep(codes, t, tail, s);
      t' := GroupIgnoresSpaces(codes, t[1..], tail);
    } else {
      var rest := Strip(t[1..]);
      assert ([t[0]] + rest)[1..] == rest;
      if IsCode(t[0]) {
        CodeStep(codes, t, tail, s);
        CodeStep(codes, Strip(t), EOD, u);
        t' := GroupIgnoresSpaces(codes + [t[0] - FIRST_CODE], t[1..], tail);
      } else {
        OtherStep(codes, t, tail, s);
        OtherStep(codes, Strip(t), EOD, u);
        t' := t[1..];
      }
    }
  }

  lemma {:induction false} DecodeIgnoresSpaces(acc: Bytes, t: Bytes, tail: Bytes)
    requires NoTilde(t) && EOD <= tail
    ensures DecodeOnto(acc, t + tail) == DecodeOnto(acc, Strip(t) + EOD)
    decreases |t|
  {
    var t' := GroupIgnoresSpaces([], t, tail);
    var g := ReadGroup([], t + tail);
    if g.Group? && !g.eod {
      DecodeIgnoresSpaces(acc + GroupBytes(g.codes, g.toWrite), t', tail);
    }
  }

  /** Where a group ends inside t, when a tilde without `>` follows it. */
  lemma {:induction false} GroupBeforeTilde(codes: Bytes, t: Bytes, v: Bytes) returns (t': Bytes)
    requires |codes| <= 5 && Proper(codes) && NoTilde(t) && v != [] && v[0] == TILDE && !(EOD <= v)
    ensures NoTilde(t') && |t'| <= |t|
    ensures var g := ReadGroup(codes, t + v);
            g.Invalid? || (!g.eod && g.rest == t' + v && (|codes| < 5 ==> |t'| < |t|))
    decreases |t|
  {
    var s := t + v;
    t' := t;
    if |codes| == 5 {
    } else if t == [] {
      AppendNothing(v);
    } else if IsWhiteSpace(t[0]) {
      SpaceStep(codes, t, v, s);
      t' := GroupBeforeTilde(codes, t[1..], v);
    } else if IsCode(t[0]) {
      CodeStep(codes, t, v, s);
      t' := GroupBeforeTilde(codes + [t[0] - FIRST_CODE], t[1..], v);
    } else {
      OtherStep(codes, t, v, s);
      t' := t[1..];
    }
  }

  lemma {:induction false} StrayTilde(acc: Bytes, t: Bytes, v: Bytes)
    requires NoTilde(t) && v != [] && v[0] == TILDE && !(EOD <= v)
    ensures DecodeOnto(acc, t + v) == None
    decreases |t|
  {
    var t' := GroupBeforeTilde([], t, v);
    var g := ReadGroup([], t + v);
    if g.Group? { StrayTilde(acc + GroupBytes(g.codes, g.toWrite), t', v); }
  }

  /** For every text with a tilde, the first of which begins v: if that is `~>`, white space before it and
      anything at all behind it never change the result, whether or not the text is well formed. Otherwise,
      even if only white space stands between the two, the text is refused. */
  lemma {:induction false} WhiteSpaceIsIgnored(t: Bytes, v: Bytes)
    requires NoTilde(t) && v != [] && v[0] == TILDE
    ensures Decode(t + v) == if EOD <= v then Decode(Strip(t) + EOD) else None
  {
    if EOD <= v { DecodeIgnoresSpaces([], t, v); } else { StrayTilde([], t, v); }
  }

  // ---- The alphabet ----

  lemma {:induction false} HighDigits(w: nat, d: seq<int>)
    requires |d| == 5 && Proper(d) && w == d[0] * 52200625 + d[1] * 614125 + d[2] * 7225 + d[3] * 85 + d[4]
    ensures d[0] == w / 52200625 && d[1] == w / 614125 % 85
  {
    assert 0 <= d[2] * 7225 + d[3] * 85 + d[4] < 614125;
    assert w / 614125 == d[0] * 85 + d[1];
  }

  lemma {:induction false} LowDigits(w: nat, d: seq<int>)
    requires |d| == 5 && Proper(d) && w == d[0] * 52200625 + d[1] * 614125 + d[2] * 7225 + d[3] * 85 + d[4]
    ensures d[2] == w / 7225 % 85 && d[3] == w / 85 % 85 && d[4] == w % 85
  {
    assert w / 7225 == (d[0] * 85 + d[1]) * 85 + d[2];
    assert w / 85 == ((d[0] * 85 + d[1]) * 85 + d[2]) * 85 + d[3];
  }

  lemma {:induction false} EmittedIs(d: seq<int>, k: nat)
    requires |d| == 5 && Proper(d) && k <= 5
    ensures Emitted(d, k) == [33 + d[0], 33 + d[1], 33 + d[2], 33 + d[3], 33 + d[4]][..k]
  {
  }

  /** The five digits of a number in base 85, from the code of ! on. */
  function FiveCodes(w: nat): (s: Bytes)
    requires w < TWO_TO_THE_32
    ensures |s| == 5
  {
    [33 + w / 52200625, 33 + w / 614125 % 85, 33 + w / 7225 % 85, 33 + w / 85 % 85, 33 + w % 85]
  }

  /** A group of one to four bytes is filled up with zeros. Its big-endian value is written in base 85, in one digit
      more than it has bytes; a value of 0 is written as z. */
  lemma {:induction false} GroupIsWritten(b: Bytes, b1: int, b2: int, b3: int, w: nat)
    requires 1 <= |b| <= 4 && b1 == (if |b| > 1 then b[1] else 0)
    requires b2 == (if |b| > 2 then b[2] else 0) && b3 == (if |b| > 3 then b[3] else 0)
    requires w == b[0] as int * 16777216 + b1 * 65536 + b2 * 256 + b3 < TWO_TO_THE_32
    ensures EncodeGroup(b) == if w == 0 then Ascii("z") else FiveCodes(w)[..|b| + 1]
  {
    assert w == Word(b);
    assert Ascii("z") == [LOWER_Z];
    FiveDigits(w);
    var d := Base85(w);
    CodesOfDigits(w, d);
    EmittedIs(d, |b| + 1);
  }

  lemma {:induction false} CodesOfDigits(w: nat, d: seq<int>)
    requires |d| == 5 && Proper(d) && w == d[0] * 52200625 + d[1] * 614125 + d[2] * 7225 + d[3] * 85 + d[4]
    requires w < TWO_TO_THE_32
    ensures FiveCodes(w) == [33 + d[0], 33 + d[1], 33 + d[2], 33 + d[3], 33 + d[4]]
  {
    HighDigits(w, d);
    LowDigits(w, d);
  }

  /** The end of data is marked by ~> and nothing else is added. */
  lemma {:induction false} TextIsGroups(data: Bytes)
    ensures Encode([]) == Ascii("~>")
    ensures |data| >= 4 ==> Encode(data) == EncodeGroup(data[..4]) + Encode(data[4..])
    ensures 0 < |data| < 4 ==> Encode(data) == EncodeGroup(data) + Ascii("~>")
  {
    assert Ascii("~>") == EOD;
    if 0 < |data| {
      var n := Min(4, |data|);
      EncodeOntoPrefix([] + EncodeGroup(data[..n]), data[n..]);
      AppendNothing(EncodeGroup(data[..n]));
      WholeSlice(data);
    }
  }

  /** What up to five codes are worth. */
  function Worth(ds: seq<int>): int {
    Code(ds, 0) * 52200625 + Code(ds, 1) * 614125 + Code(ds, 2) * 7225 + Code(ds, 3) * 85 + Code(ds, 4)
  }

  function Code(ds: seq<int>, i: nat): int {
    if i < |ds| then ds[i] else 0
  }

  /** A text that ends without a mark, in a group of fewer than five codes, still gives four bytes. */
  lemma {:induction false} WithoutMark(ds: seq<int>)
    requires 1 <= |ds| < 5 && Proper(ds)
    ensures Worth(ds) >= 0 && Decode(Emitted(ds, |ds|)) == Some(FourBytes(Worth(ds) % TWO_TO_THE_32))
  {
    var codes, s := AsBytes(ds, |ds|), Emitted(ds, |ds|);
    ReadEmitted([], ds, |ds|, []);
    AppendNothing(s);
    AppendNothing(codes);
    assert ReadGroup([], s) == Group(codes, 4, false, []);
    assert Unwrapped(Padded(codes, 4)) == Worth(ds);
    var b := FourBytes(Worth(ds) % TWO_TO_THE_32);
    WholeSlice(b);
    assert [] + b == b;
    assert DecodeOnto(b, []) == Some(b);
  }
}
