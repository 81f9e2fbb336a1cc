/** MultiEncoder of core/encoding.go: a chain of stream encoders. */
module MultiEncoder {
  import opened Bytes
  import AsciiHex
  import Ascii85
  import RunLength

  /** What MultiEncoder uses of the StreamEncoder interface; None is a returned error. */
  datatype Codec = Codec(encode: Bytes -> Option<Bytes>, decode: Bytes -> Option<Bytes>)

  predicate LosslessOn(c: Codec, data: Bytes) {
    && c.encode(data).Some?
    && c.decode(c.encode(data).value) == Some(data)
  }

  /** Encoding applies the last encoder first. */
  function EncodeAll(cs: seq<Codec>, data: Bytes): Option<Bytes> {
    if cs == [] then Some(data)
    else match EncodeAll(cs[1..], data)
      case None => None
      case Some(inner) => cs[0].encode(inner)
  }

  /** Decoding applies the first encoder first. */
  function DecodeAll(cs: seq<Codec>, encoded: Bytes): Option<Bytes> {
    if cs == [] then Some(encoded)
    else match cs[0].decode(encoded)
      case None => None
      case Some(inner) => DecodeAll(cs[1..], inner)
  }

  class MultiEncoder {
    var encoders: seq<Codec>

    constructor ()
      ensures encoders == []
    {
      encoders := [];
    }

    method AddEncoder(encoder: Codec)
      modifies this
      ensures encoders == old(encoders) + [encoder]
    {
      encoders := encoders + [encoder];
    }

    method DecodeBytes(encoded: Bytes) returns (r: Option<Bytes>)
      ensures r == DecodeAll(encoders, encoded)
    {
      var decoded := encoded;
      WholeSlice(encoders);
      for i := 0 to |encoders|
        invariant DecodeAll(encoders[i..], decoded) == DecodeAll(encoders, encoded)
      {
        var result := encoders[i].decode(decoded);
        DropDrop(encoders, i, 1);
        if result.None? { return None; }
        decoded := result.value;
      }
      return Some(decoded);
    }

    method EncodeBytes(data: Bytes) returns (r: Option<Bytes>)
      ensures r == EncodeAll(encoders, data)
    {
      var encoded := data;
      WholeSlice(encoders);
      var i := |encoders| - 1;
      while i >= 0
        invariant -1 <= i < |encoders|
        invariant EncodeAll(encoders[i + 1..], data) == Some(encoded)
      {
        DropDrop(encoders, i, 1);
        var result := encoders[i].encode(encoded);
        if result.None? {
          EncodeFails(encoders, i, data);
          return None;
        }
        encoded := result.value;
        i := i - 1;
      }
      return Some(encoded);
    }
  }

  lemma {:induction false} EncodeFails(cs: seq<Codec>, i: nat, data: Bytes)
    requires i < |cs| && EncodeAll(cs[i..], data) == None
    ensures EncodeAll(cs, data) == None
  {
    if i == 0 {
      WholeSlice(cs);
    } else {
      DropDrop(cs, 1, i - 1);
      EncodeFails(cs[1..], i - 1, data);
    }
  }

  /** Every encoder gives back what it is handed by the encoders applied before it. */
  predicate EveryStageLossless(cs: seq<Codec>, data: Bytes) {
    cs == []
    || (&& EveryStageLossless(cs[1..], data)
        && EncodeAll(cs[1..], data).Some?
        && LosslessOn(cs[0], EncodeAll(cs[1..], data).value))
  }

  lemma {:induction false} ChainRoundTrip(cs: seq<Codec>, data: Bytes)
    requires EveryStageLossless(cs, data)
    ensures EncodeAll(cs, data).Some?
    ensures DecodeAll(cs, EncodeAll(cs, data).value) == Some(data)
  {
    if cs == [] {
    } else {
      ChainRoundTrip(cs[1..], data);
    }
  }

  // ---- The three filters of this package that need no foreign library ----

  datatype Filter = Hex | Base85 | Runs

  function ToCodec(f: Filter): Codec {
    match f
    case Hex => Codec(d => Some(AsciiHex.Encode(d)), AsciiHex.Decode)
    case Base85 => Codec(d => Some(Ascii85.Encode(d)), Ascii85.Decode)
    case Runs => Codec(d => Some(RunLength.Encode(d)), RunLength.Decode)
  }

  function Chain(fs: seq<Filter>): (cs: seq<Codec>)
    ensures |cs| == |fs|
  {
    if fs == [] then [] else [ToCodec(fs[0])] + Chain(fs[1..])
  }

  /** newMultiEncoderFromStream for an array of these filters. It does not know RunLength. */
  method FromFilters(fs: seq<Filter>) returns (r: Option<MultiEncoder>)
    ensures r.None? <==> Runs in fs
    ensures r.Some? ==> fresh(r.value) && r.value.encoders == Chain(fs)
  {
    var enc := new MultiEncoder();
    for i := 0 to |fs|
      invariant fresh(enc) && enc.encoders == Chain(fs[..i]) && Runs !in fs[..i]
    {
      if fs[i] == Runs { return None; }
      assert fs[..i + 1] == fs[..i] + [fs[i]];
      ChainAppend(fs[..i], fs[i]);
      enc.AddEncoder(ToCodec(fs[i]));
    }
    WholeSlice(fs);
    return Some(enc);
  }

  lemma {:induction false} ChainAppend(fs: seq<Filter>, f: Filter)
    ensures Chain(fs + [f]) == Chain(fs) + [ToCodec(f)]
  {
    if fs == [] {
      assert [f][1..] == [];
    } else {
      ChainAppend(fs[1..], f);
      assert (fs + [f])[1..] == fs[1..] + [f];
    }
  }

  /** The inputs on which each filter is lossless. */
  predicate Keeps(f: Filter, data: Bytes) {
    match f
    case Hex => true
    case Base85 => !Ascii85.ShortZeroTail(data)
    case Runs => data != []
  }

  lemma {:induction false} KeepsIffLossless(f: Filter, data: Bytes)
    ensures Keeps(f, data) <==> LosslessOn(ToCodec(f), data)
  {
    AsciiHex.RoundTrip(data);
    Ascii85.LosslessIff(data);
    RunLength.LosslessIff(data);
  }

  /** An output that no filter has trouble with: not empty, and ending in a byte that is not zero. */
  predicate EndsInMark(d: Bytes) {
    d != [] && d[|d| - 1] != 0
  }

  lemma {:induction false} OutputEndsInMark(f: Filter, data: Bytes)
    requires f.Runs? ==> data != []
    ensures EndsInMark(ToCodec(f).encode(data).value)
  {
    match f
    case Hex => AsciiHex.RoundTrip(data);
    case Base85 => Ascii85.EndsInEod(data);
    case Runs => RunLength.RoundTrip(data);
  }

  lemma {:induction false} MarkedIsKept(f: Filter, data: Bytes)
    requires EndsInMark(data)
    ensures Keeps(f, data)
  {
    assert data[|data| - 1] != 0;
  }

  lemma {:induction false} ChainOutput(fs: seq<Filter>, data: Bytes)
    requires fs != []
    ensures EncodeAll(Chain(fs), data).Some?
    ensures var e := EncodeAll(Chain(fs), data).value; e == [] || EndsInMark(e)
  {
    assert Chain(fs)[1..] == Chain(fs[1..]);
    if |fs| == 1 {
      if data != [] || !fs[0].Runs? { OutputEndsInMark(fs[0], data); }
    } else {
      ChainOutput(fs[1..], data);
      var inner := EncodeAll(Chain(fs[1..]), data).value;
      if inner != [] || !fs[0].Runs? { OutputEndsInMark(fs[0], inner); }
    }
  }

  /** Outer filters never lose what an inner one hands them: what comes back is what the last
      filter alone would give back. */
  lemma {:induction false} LastFilterDecides(fs: seq<Filter>, data: Bytes)
    requires fs != []
    ensures EncodeAll(Chain(fs), data).Some?
    ensures var last := ToCodec(fs[|fs| - 1]);
            DecodeAll(Chain(fs), EncodeAll(Chain(fs), data).value) == last.decode(last.encode(data).value)
  {
    ChainOutput(fs, data);
    assert Chain(fs)[1..] == Chain(fs[1..]);
    if |fs| == 1 {
      assert Chain(fs[1..]) == [];
    } else {
      ChainOutput(fs[1..], data);
      LastFilterDecides(fs[1..], data);
      var inner := EncodeAll(Chain(fs[1..]), data).value;
      if inner == [] {
        EmptyMeansNoData(fs[1..], data);
      } else {
        MarkedIsKept(fs[0], inner);
      }
      KeepsIffLossless(fs[0], inner);
    }
  }

  /** Only RunLength on no data leaves nothing, and that does not decode. */
  lemma {:induction false} EmptyMeansNoData(fs: seq<Filter>, data: Bytes)
    requires fs != [] && EncodeAll(Chain(fs), data) == Some([])
    ensures fs[|fs| - 1].Runs? && data == []
  {
    assert Chain(fs)[1..] == Chain(fs[1..]);
    if |fs| == 1 {
      if data != [] || !fs[0].Runs? { OutputEndsInMark(fs[0], data); }
    } else {
      ChainOutput(fs[1..], data);
      var inner := EncodeAll(Chain(fs[1..]), data).value;
      if inner != [] || !fs[0].Runs? { OutputEndsInMark(fs[0], inner); }
      EmptyMeansNoData(fs[1..], data);
    }
  }

  /** A chain of any length gives the data back exactly when its last filter does. */
  lemma {:induction false} ChainLosslessIff(fs: seq<Filter>, data: Bytes)
    ensures EncodeAll(Chain(fs), data).Some?
    ensures DecodeAll(Chain(fs), EncodeAll(Chain(fs), data).value) == Some(data)
            <==> fs == [] || Keeps(fs[|fs| - 1], data)
  {
    if fs != [] {
      LastFilterDecides(fs, data);
      KeepsIffLossless(fs[|fs| - 1], data);
    }
  }
}
