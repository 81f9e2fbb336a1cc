/** The RunLength filter of core/encoding.go (section 7.4.5 of ISO 32000-1:2008). */
module RunLength {
  import opened Bytes

  const EOD: byte := 128

  // ---- Decoder ----

  /** What the decoder returns when it has collected `acc` and `s` is left to read; None is a read
      past the end. */
  function DecodeOnto(acc: Bytes, s: Bytes): Option<Bytes>
    decreases |s|
  {
    if s == [] then None
    else if s[0] == EOD then Some(acc)
    else
      var used := PacketLength(s[0]);
      if |s| < used then None
      else DecodeOnto(acc + PacketData(s[..used]), s[used..])
  }

  function Decode(s: Bytes): Option<Bytes> {
    DecodeOnto([], s)
  }

  /** Bytes taken by the packet that a length byte introduces. */
  function PacketLength(b: byte): (n: nat)
    requires b != EOD
    ensures n >= 2
  {
    if b > 128 then 2 else b + 2
  }

  function PacketData(p: Bytes): Bytes
    requires |p| >= 2 && p[0] != EOD && |p| == PacketLength(p[0])
  {
    if p[0] > 128 then Repeat(p[1], 257 - p[0]) else p[1..]
  }

  method DecodeBytes(encoded: Bytes) returns (r: Option<Bytes>)
    ensures r == Decode(encoded)
  {
    var unread := encoded;
    var inb: Bytes := [];
    while true
      invariant DecodeOnto(inb, unread) == Decode(encoded)
      decreases |unread|
    {
      if unread == [] { return None; }
      var b := unread[0];
      if b > 128 {
        if |unread| == 1 { return None; }
        inb := AppendRun(inb, unread[1], 257 - b);
        unread := unread[2..];
      } else if b < 128 {
        var ok, rest;
        inb, rest, ok := AppendLiteral(inb, unread[1..], b + 1);
        if !ok { return None; }
        assert unread[1..][..b + 1] == unread[..b + 2][1..];
        assert unread[1..][b + 1..] == unread[b + 2..];
        unread := rest;
      } else {
        return Some(inb);
      }
    }
  }

  method AppendRun(inb: Bytes, v: byte, n: nat) returns (r: Bytes)
    ensures r == inb + Repeat(v, n)
  {
    r := inb;
    for i := 0 to n
      invariant r == inb + Repeat(v, i)
    {
      r := r + [v];
    }
  }

  method AppendLiteral(inb: Bytes, unread: Bytes, n: nat) returns (r: Bytes, rest: Bytes, ok: bool)
    ensures ok <==> n <= |unread|
    ensures ok ==> r == inb + unread[..n] && rest == unread[n..]
  {
    r, rest := inb, unread;
    for i := 0 to n
      invariant i <= |unread|
      invariant r == inb + unread[..i] && rest == unread[i..]
    {
      if rest == [] { return r, rest, false; }
      r, rest := r + [rest[0]], rest[1..];
    }
    return r, rest, true;
  }

  // ---- Encoder ----

  /** Output so far, the literal being collected, the length of the current run and the last byte. */
  datatype State = State(out: Bytes, literal: Bytes, runLen: nat, last: byte)

  /** Go's `byte(257-runLen)`: a run of one wraps to a length byte of 0. */
  function RunLengthByte(runLen: nat): byte
    requires 1 <= runLen <= 127
  {
    (257 - runLen) % 256
  }

  function FlushLiteral(out: Bytes, literal: Bytes): Bytes
    requires 1 <= |literal| <= 127
  {
    out + [|literal| - 1] + literal
  }

  function FlushRun(out: Bytes, runLen: nat, b: byte): Bytes
    requires 1 <= runLen <= 127
  {
    out + [RunLengthByte(runLen), b]
  }

  /** One turn of the encoder's loop. */
  function Step(st: State, b: byte): State
    requires Shape(st)
  {
    if b == st.last then
      var popped := st.literal != [];
      var lit := if popped then st.literal[..|st.literal| - 1] else [];
      var out := if lit != [] then FlushLiteral(st.out, lit) else st.out;
      var runLen := (if popped then 1 else st.runLen) + 1;
      if runLen >= 127 then State(FlushRun(out, runLen, b), [], 0, b)
      else State(out, [], runLen, b)
    else
      var out := if st.runLen >= 2 then FlushRun(st.out, st.runLen, st.last) else st.out;
      var lit := (if st.runLen == 1 then [st.last] else st.literal) + [b];
      if |lit| >= 127 then State(FlushLiteral(out, lit), [], 0, b)
      else State(out, lit, 0, b)
  }

  function Finish(st: State): Bytes
    requires Shape(st)
  {
    (if st.literal != [] then FlushLiteral(st.out, st.literal)
     else if st.runLen > 0 then FlushRun(st.out, st.runLen, st.last)
     else st.out) + [EOD]
  }

  /** A literal and a run are never pending together; a pending literal ends in the last byte. */
  predicate Shape(st: State) {
    && |st.literal| <= 126 && st.runLen <= 126
    && (st.literal != [] ==> st.runLen == 0 && st.literal[|st.literal| - 1] == st.last)
  }

  function Run(st: State, data: Bytes): State
    requires Shape(st)
    ensures Shape(Run(st, data))
    decreases |data|
  {
    if data == [] then st else Run(Step(st, data[0]), data[1..])
  }

  function Encode(data: Bytes): Bytes {
    if data == [] then [] else Finish(Run(State([], [], 1, data[0]), data[1..]))
  }

  method TakeByte(inb: Bytes, literal: Bytes, runLen: nat, b0: byte, b: byte)
    returns (inb': Bytes, literal': Bytes, runLen': nat)
    requires Shape(State(inb, literal, runLen, b0))
    ensures State(inb', literal', runLen', b) == Step(State(inb, literal, runLen, b0), b)
  {
    inb', literal', runLen' := inb, literal, runLen;
    if b == b0 {
      if |literal'| > 0 {
        literal' := literal'[..|literal'| - 1];
        if |literal'| > 0 {
          inb' := inb' + [|literal'| - 1];
          inb' := inb' + literal';
        }
        runLen' := 1;
        literal' := [];
      }
      runLen' := runLen' + 1;
      if runLen' >= 127 {
        inb' := inb' + [RunLengthByte(runLen'), b0];
        runLen' := 0;
      }
    } else {
      if runLen' > 0 {
        if runLen' == 1 {
          literal' := [b0];
        } else {
          inb' := inb' + [RunLengthByte(runLen'), b0];
        }
        runLen' := 0;
      }
      literal' := literal' + [b];
      if |literal'| >= 127 {
        inb' := inb' + [|literal'| - 1];
        inb' := inb' + literal';
        literal' := [];
      }
    }
  }

  method EncodeBytes(data: Bytes) returns (inb: Bytes)
    ensures inb == Encode(data)
    ensures data != [] ==> Decode(inb) == Some(data) && 3 * (|inb| - 1) <= 4 * |data| + 2
  {
    inb := [];
    var literal: Bytes := [];
    if data == [] { return; }
    var b0 := data[0];
    var runLen := 1;
    var unread := data[1..];
    ghost var final := Run(State([], [], 1, data[0]), data[1..]);
    while unread != []
      invariant runLen >= 0 && Shape(State(inb, literal, runLen, b0))
      invariant final == Run(State(inb, literal, runLen, b0), unread)
    {
      var b := unread[0];
      inb, literal, runLen := TakeByte(inb, literal, runLen, b0, b);
      b0 := b;
      unread := unread[1..];
    }
    if |literal| > 0 {
      inb := inb + [|literal| - 1];
      inb := inb + literal;
    } else if runLen > 0 {
      inb := inb + [RunLengthByte(runLen), b0];
    }
    inb := inb + [EOD];
    RoundTrip(data);
  }

  // ---- The encoder against the decoder ----

  /** The data carried by a sequence of whole packets with no EOD among them. */
  function Expand(s: Bytes): Option<Bytes> {
    if s == [] then Some([])
    else if s[0] == EOD then None
    else
      var used := PacketLength(s[0]);
      if |s| < used then None
      else match Expand(s[used..])
        case None => None
        case Some(d) => Some(PacketData(s[..used]) + d)
  }

  lemma {:induction false} ExpandAppend(a: Bytes, p: Bytes)
    requires Expand(a).Some?
    requires |p| >= 2 && p[0] != EOD && |p| == PacketLength(p[0])
    ensures Expand(a + p) == Some(Expand(a).value + PacketData(p))
  {
    AppendNothing(p);
    AppendNothing(PacketData(p));
    if a == [] {
      WholeSlice(p);
    } else {
      var used := PacketLength(a[0]);
      SplitAppend(a, p, used);
      ExpandAppend(a[used..], p);
      Assoc(PacketData(a[..used]), Expand(a[used..]).value, PacketData(p));
    }
  }

  lemma {:induction false} DecodeOfPackets(acc: Bytes, a: Bytes)
    requires Expand(a).Some?
    ensures DecodeOnto(acc, a + [EOD]) == Some(acc + Expand(a).value)
    decreases |a|
  {
    if a == [] {
      AppendNothing(acc);
    } else {
      var used := PacketLength(a[0]);
      SplitAppend(a, [EOD], used);
      DecodeOfPackets(acc + PacketData(a[..used]), a[used..]);
      Assoc(acc, PacketData(a[..used]), Expand(a[used..]).value);
    }
  }

  function Pending(st: State): Bytes {
    if st.literal != [] then st.literal else Repeat(st.last, st.runLen)
  }

  /** What holds between turns: the packets written and the pending bytes spell the input read so
      far, and a literal shorter than three bytes is only ever in debt to a run that follows it. */
  ghost predicate Invariant(st: State, read: Bytes) {
    && Shape(st)
    && Expand(st.out).Some?
    && Expand(st.out).value + Pending(st) == read
    && 3 * |st.out| <= 4 * |Expand(st.out).value| + (if st.literal == [] && st.runLen >= 2 then 2 else 0)
  }

  lemma {:induction false} FlushLiteralKeeps(out: Bytes, literal: Bytes)
    requires Expand(out).Some? && 1 <= |literal| <= 127
    ensures Expand(FlushLiteral(out, literal)) == Some(Expand(out).value + literal)
  {
    var n: byte := |literal| - 1;
    var p := [n] + literal;
    assert p[1..] == literal;
    ExpandAppend(out, p);
    Assoc(out, [n], literal);
  }

  lemma {:induction false} FlushRunKeeps(out: Bytes, runLen: nat, b: byte)
    requires Expand(out).Some? && 1 <= runLen <= 127
    ensures Expand(FlushRun(out, runLen, b)) == Some(Expand(out).value + Repeat(b, runLen))
  {
    var p := [RunLengthByte(runLen), b];
    assert PacketData(p) == Repeat(b, runLen);
    ExpandAppend(out, p);
  }

  lemma {:induction false} StepOnRepeat(st: State, b: byte, read: Bytes)
    requires Invariant(st, read) && b == st.last
    ensures Invariant(Step(st, b), read + [b])
  {
    var done := Expand(st.out).value;
    if st.literal != [] {
      var lit := st.literal[..|st.literal| - 1];
      assert st.literal == lit + [b];
      assert read + [b] == (done + lit) + Repeat(b, 2);
      if lit != [] {
        FlushLiteralKeeps(st.out, lit);
      } else {
        assert done + lit == done;
      }
    } else {
      assert read + [b] == done + Repeat(b, st.runLen + 1);
      if st.runLen + 1 >= 127 {
        FlushRunKeeps(st.out, st.runLen + 1, b);
      }
    }
  }

  lemma {:induction false} StepOnChange(st: State, b: byte, read: Bytes)
    requires Invariant(st, read) && b != st.last
    ensures Invariant(Step(st, b), read + [b])
  {
    var out := if st.runLen >= 2 then FlushRun(st.out, st.runLen, st.last) else st.out;
    var lit := (if st.runLen == 1 then [st.last] else st.literal) + [b];
    if st.runLen >= 2 {
      FlushRunKeeps(st.out, st.runLen, st.last);
    }
    assert read + [b] == Expand(out).value + lit;
    if |lit| >= 127 {
      FlushLiteralKeeps(out, lit);
    }
  }

  lemma {:induction false} RunKeepsInvariant(st: State, data: Bytes, read: Bytes)
    requires Invariant(st, read)
    ensures Invariant(Run(st, data), read + data)
    decreases |data|
  {
    if data == [] {
      AppendNothing(read);
    } else {
      var b := data[0];
      if b == st.last { StepOnRepeat(st, b, read); } else { StepOnChange(st, b, read); }
      RunKeepsInvariant(Step(st, b), data[1..], read + [b]);
      HeadTail(data);
      Assoc(read, [b], data[1..]);
    }
  }

  /** Decoding undoes encoding, and the output exceeds the input by at most a third and a constant. */
  lemma {:induction false} RoundTrip(data: Bytes)
    requires data != []
    ensures Decode(Encode(data)) == Some(data)
    ensures 3 * (|Encode(data)| - 1) <= 4 * |data| + 2
    ensures Encode(data)[|Encode(data)| - 1] == EOD
  {
    var st0 := State([], [], 1, data[0]);
    assert Expand([]).value + Pending(st0) == [data[0]];
    RunKeepsInvariant(st0, data[1..], [data[0]]);
    assert [data[0]] + data[1..] == data;
    var st := Run(st0, data[1..]);
    AppendNothing(Expand(st.out).value);
    if st.literal != [] {
      FlushLiteralKeeps(st.out, st.literal);
    } else if st.runLen > 0 {
      FlushRunKeeps(st.out, st.runLen, st.last);
    }
    var packets := Finish(st)[..|Finish(st)| - 1];
    assert Finish(st) == packets + [EOD];
    DecodeOfPackets([], packets);
    AppendNothing(data);
  }

  /** The empty input is the one exception: it encodes to no bytes, which do not decode. */
  lemma {:induction false} LosslessIff(data: Bytes)
    ensures Decode(Encode(data)) == Some(data) <==> data != []
  {
    if data != [] { RoundTrip(data); }
  }

  // ---- Any packets ----

  /** A packet as section 7.4.5 of ISO 32000-1:2008 has it: 1 to 128 bytes, or one byte 2 to 128 times. */
  datatype Packet = Copy(data: Bytes) | Times(b: byte, n: nat)

  predicate IsPacket(p: Packet) {
    match p
    case Copy(data) => 1 <= |data| <= 128
    case Times(_, n) => 2 <= n <= 128
  }

  function PacketText(p: Packet): Bytes
    requires IsPacket(p)
  {
    match p
    case Copy(data) => [|data| - 1] + data
    case Times(b, n) => [257 - n, b]
  }

  function PacketsText(ps: seq<Packet>): Bytes
    requires forall p :: p in ps ==> IsPacket(p)
  {
    if ps == [] then []
    else
      assert ps[0] in ps;
      PacketText(ps[0]) + PacketsText(ps[1..])
  }

  function PacketsData(ps: seq<Packet>): Bytes {
    if ps == [] then []
    else (match ps[0] case Copy(data) => data case Times(b, n) => Repeat(b, n)) + PacketsData(ps[1..])
  }

  lemma {:induction false} PacketDecoded(acc: Bytes, p: Packet, tail: Bytes)
    requires IsPacket(p)
    ensures DecodeOnto(acc, PacketText(p) + tail)
            == DecodeOnto(acc + (match p case Copy(data) => data case Times(b, n) => Repeat(b, n)), tail)
  {
    var t := PacketText(p);
    var s := t + tail;
    assert s[0] == t[0] && PacketLength(s[0]) == |t|;
    SplitAppend(t, tail, |t|);
    WholeSlice(t);
    AppendNothing(tail);
    assert s[..|t|] == t && s[|t|..] == tail;
    if p.Copy? { assert t[1..] == p.data; }
  }

  lemma {:induction false} PacketsDecodedOnto(acc: Bytes, ps: seq<Packet>, junk: Bytes)
    requires forall p :: p in ps ==> IsPacket(p)
    ensures DecodeOnto(acc, PacketsText(ps) + ([EOD] + junk)) == Some(acc + PacketsData(ps))
    decreases |ps|
  {
    var tail := [EOD] + junk;
    if ps == [] {
      AppendNothing(tail);
      AppendNothing(acc);
      assert tail[0] == EOD;
    } else {
      assert ps[0] in ps;
      var t, more := PacketText(ps[0]), PacketsText(ps[1..]);
      var data := match ps[0] case Copy(data) => data case Times(b, n) => Repeat(b, n);
      Assoc(t, more, tail);
      PacketDecoded(acc, ps[0], more + tail);
      PacketsDecodedOnto(acc + data, ps[1..], junk);
      Assoc(acc, data, PacketsData(ps[1..]));
    }
  }

  /** Every sequence of packets in front of the end-of-data mark is decoded to its data, whatever follows. */
  lemma {:induction false} PacketsDecoded(ps: seq<Packet>, junk: Bytes)
    requires forall p :: p in ps ==> IsPacket(p)
    ensures Decode(PacketsText(ps) + ([EOD] + junk)) == Some(PacketsData(ps))
  {
    PacketsDecodedOnto([], ps, junk);
    AppendNothing(PacketsData(ps));
  }

  // ---- What is written ----

  lemma {:induction false} RunGrows(b: byte, n: nat, k: nat)
    requires 1 <= n && n + k <= 126
    ensures Shape(State([], [], n, b)) && Run(State([], [], n, b), Repeat(b, k)) == State([], [], n + k, b)
    decreases k
  {
    if k > 0 {
      assert Repeat(b, k)[1..] == Repeat(b, k - 1) && Repeat(b, k)[0] == b;
      RunGrows(b, n + 1, k - 1);
    }
  }

  /** A run of equal bytes is written as its length and the byte, however long it is up to 126. */
  lemma {:induction false} RunIsPacked(b: byte, n: nat)
    requires 2 <= n <= 126
    ensures Encode(Repeat(b, n)) == [257 - n, b, 128]
  {
    assert Repeat(b, n)[0] == b && Repeat(b, n)[1..] == Repeat(b, n - 1);
    RunGrows(b, 1, n - 1);
  }

  predicate NoNeighbours(data: Bytes) {
    forall i :: 0 <= i < |data| - 1 ==> data[i] != data[i + 1]
  }

  lemma {:induction false} LiteralStep(lit: Bytes, last: byte, b: byte)
    requires lit != [] && lit[|lit| - 1] == last && last != b && |lit| <= 125
    ensures Shape(State([], lit, 0, last)) && Step(State([], lit, 0, last), b) == State([], lit + [b], 0, b)
  {
  }

  lemma {:induction false} LiteralGrows(lit: Bytes, last: byte, data: Bytes, all: Bytes)
    requires lit != [] && lit[|lit| - 1] == last && all == lit + data && |all| <= 126 && NoNeighbours(all)
    ensures Shape(State([], lit, 0, last)) && Run(State([], lit, 0, last), data) == State([], all, 0, all[|all| - 1])
    decreases |data|
  {
    if data == [] {
      AppendNothing(lit);
    } else {
      var n := |lit|;
      assert all[n - 1] == last && all[n - 1 + 1] == data[0];
      LiteralStep(lit, last, data[0]);
      HeadTail(data);
      Assoc(lit, [data[0]], data[1..]);
      LiteralGrows(lit + [data[0]], data[0], data[1..], all);
    }
  }

  lemma {:induction false} FirstLiteral(a: byte, b: byte)
    requires a != b
    ensures Shape(State([], [], 1, a)) && Step(State([], [], 1, a), b) == State([], [a, b], 0, b)
  {
    assert [a] + [b] == [a, b];
  }

  lemma {:induction false} LiteralRun(data: Bytes)
    requires 2 <= |data| <= 126 && NoNeighbours(data)
    ensures Run(State([], [], 1, data[0]), data[1..]) == State([], data, 0, data[|data| - 1])
  {
    var rest := data[1..];
    assert data[0] != data[0 + 1];
    FirstLiteral(data[0], data[1]);
    assert rest[0] == data[1] && rest[1..] == data[2..];
    assert data == [data[0], data[1]] + data[2..];
    LiteralGrows([data[0], data[1]], data[1], data[2..], data);
  }

  /** Data without equal neighbours is written as it is, behind its length less one. */
  lemma {:induction false} LiteralIsCopied(data: Bytes)
    requires 1 <= |data| <= 126 && NoNeighbours(data)
    ensures Encode(data) == [|data| - 1] + data + [128]
  {
    if |data| == 1 {
      assert data == [data[0]] && data[1..] == [];
    } else {
      LiteralRun(data);
    }
  }
}
