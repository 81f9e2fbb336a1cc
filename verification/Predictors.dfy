/** The PNG and TIFF predictors of the Flate and LZW filters (core/encoding.go, core/paeth.go), against the
    filter functions of section 6 of RFC 2083. Components have 8 bits. */
module Predictors {
  import opened Bytes

  datatype Fault = RowLength | RangeCheck | FilterByte | Unsupported
  datatype Predicted = Data(bytes: Bytes) | Error(fault: Fault) | Panic

  const NONE: byte := 0
  const SUB: byte := 1
  const UP: byte := 2
  const AVERAGE: byte := 3
  const PAETH: byte := 4

  // ---- The Paeth predictor ----

  /** PaethPredictor of section 6.6 of RFC 2083. */
  function PaethPredictor(a: byte, b: byte, c: byte): byte {
    var p: int := a as int + b as int - c as int;
    var pa := Distance(p, a);
    var pb := Distance(p, b);
    var pc := Distance(p, c);
    if pa <= pb && pa <= pc then a else if pb <= pc then b else c
  }

  function Distance(x: int, y: int): nat {
    if x >= y then x - y else y - x
  }

  /** abs without a branch: the sign is spread over all bits, flips them, and is subtracted. */
  function Abs(x: int): int {
    var m := if x < 0 then -1 else 0;
    FlipIf(m, x) - m
  }

  /** x ^ m in two's complement, for a mask that is all zeros (0) or all ones (-1). */
  function FlipIf(m: int, x: int): int {
    if m == -1 then -x - 1 else x
  }

  /** The reordered arithmetic picks what the standard's picks. */
  method Paeth(a: byte, b: byte, c: byte) returns (r: byte)
    ensures r == PaethPredictor(a, b, c)
  {
    var pc: int := c as int;
    var pa: int := b as int - pc;
    var pb: int := a as int - pc;
    pc := Abs(pa + pb);
    pa := Abs(pa);
    pb := Abs(pb);
    if pa <= pb && pa <= pc {
      return a;
    } else if pb <= pc {
      return b;
    }
    return c;
  }

  // ---- One row ----

  function Zeros(n: nat): (z: Bytes)
    ensures |z| == n && forall i :: 0 <= i < n ==> z[i] == 0
  {
    seq(n, i => 0)
  }

  /** The byte one pixel before j, if there is one. */
  function Before(bpp: nat, row: Bytes, j: nat): byte
    requires j <= |row|
  {
    if 1 <= bpp <= j then row[j - bpp] else 0
  }

  /** The prediction for byte j of a row, from the bytes of that row before j and the row above. */
  function Predict(tag: byte, bpp: nat, row: Bytes, above: Bytes, j: nat): byte
    requires j <= |row| && j < |above|
  {
    if tag == SUB then Before(bpp, row, j)
    else if tag == UP then above[j]
    else if tag == AVERAGE then Half(Before(bpp, row, j), above[j])
    else if tag == PAETH then PaethPredictor(Before(bpp, row, j), above[j], Before(bpp, above, j))
    else 0
  }

  function Half(a: byte, b: byte): byte {
    (a as int + b as int) / 2
  }

  function Plus(x: byte, p: byte): byte {
    (x as int + p as int) % 256
  }

  function Minus(x: byte, p: byte): byte {
    (x as int - p as int) % 256
  }

  lemma {:induction false} Wraps(x: byte, p: byte)
    ensures Minus(Plus(x, p), p) == x && Plus(Minus(x, p), p) == x
  {
  }

  /** The filtered bytes of a raw row. */
  function Residues(tag: byte, bpp: nat, raw: Bytes, above: Bytes): (f: Bytes)
    requires |above| == |raw|
    ensures |f| == |raw|
  {
    seq(|raw|, j requires 0 <= j < |raw| => Minus(raw[j], Predict(tag, bpp, raw, above, j)))
  }

  /** The rest of a row, its first |out| bytes being recovered. */
  function UndoOnto(out: Bytes, tag: byte, bpp: nat, filtered: Bytes, above: Bytes): (r: Bytes)
    requires |out| <= |filtered| == |above|
    ensures |r| == |filtered| && out <= r
    decreases |filtered| - |out|
  {
    if |out| == |filtered| then out
    else UndoOnto(out + [Plus(filtered[|out|], Predict(tag, bpp, out, above, |out|))], tag, bpp, filtered, above)
  }

  function Undo(tag: byte, bpp: nat, filtered: Bytes, above: Bytes): (r: Bytes)
    requires |filtered| == |above|
    ensures |r| == |filtered|
  {
    UndoOnto([], tag, bpp, filtered, above)
  }

  /** A prediction looks back only. */
  lemma {:induction false} PredictPrefix(tag: byte, bpp: nat, out: Bytes, row: Bytes, above: Bytes)
    requires out <= row && |out| < |above|
    ensures Predict(tag, bpp, out, above, |out|) == Predict(tag, bpp, row, above, |out|)
  {
  }

  /** Undoing a row's filter gives the raw row back. */
  lemma {:induction false} UndoResidues(k: nat, tag: byte, bpp: nat, raw: Bytes, above: Bytes)
    requires |raw| == |above| && k <= |raw|
    ensures UndoOnto(raw[..k], tag, bpp, Residues(tag, bpp, raw, above), above) == raw
    decreases |raw| - k
  {
    if k == |raw| {
      WholeSlice(raw);
    } else {
      PredictPrefix(tag, bpp, raw[..k], raw, above);
      Wraps(raw[k], Predict(tag, bpp, raw, above, k));
      UndoResidues(k + 1, tag, bpp, raw, above);
      assert raw[..k + 1] == raw[..k] + [raw[k]];
    }
  }

  lemma {:induction false} UndoAt(out: Bytes, tag: byte, bpp: nat, filtered: Bytes, above: Bytes, j: nat)
    requires |out| <= j < |filtered| == |above|
    ensures var r := UndoOnto(out, tag, bpp, filtered, above);
            r[j] == Plus(filtered[j], Predict(tag, bpp, r, above, j))
    decreases |filtered| - |out|
  {
    var next := out + [Plus(filtered[|out|], Predict(tag, bpp, out, above, |out|))];
    if |out| < j {
      UndoAt(next, tag, bpp, filtered, above, j);
    } else {
      var r := UndoOnto(next, tag, bpp, filtered, above);
      assert next <= r && r[j] == next[j];
      PredictPrefix(tag, bpp, out, r, above);
    }
  }

  /** Filtering a recovered row gives the stored bytes back: no two stored rows stand for the same raw row. */
  lemma {:induction false} ResiduesOfUndo(tag: byte, bpp: nat, filtered: Bytes, above: Bytes)
    requires |filtered| == |above|
    ensures Residues(tag, bpp, Undo(tag, bpp, filtered, above), above) == filtered
  {
    var r := Undo(tag, bpp, filtered, above);
    forall j | 0 <= j < |r| ensures Minus(r[j], Predict(tag, bpp, r, above, j)) == filtered[j] {
      UndoAt([], tag, bpp, filtered, above, j);
      Wraps(filtered[j], Predict(tag, bpp, r, above, j));
    }
  }

  // ---- All rows ----

  /** The row loop of postDecodePredict; n is the number of data bytes of a row. */
  function UndoRows(bpp: nat, n: nat, out: Bytes, above: Bytes, s: Bytes): Predicted
    requires |above| == n
    decreases |s|
  {
    if |s| < n + 1 then Data(out)
    else if s[0] > PAETH then Error(FilterByte)
    else if s[0] == AVERAGE && bpp > n then Panic // the loop over the first pixel leaves the row
    else
      var row := Undo(s[0], bpp, s[1..n + 1], above);
      UndoRows(bpp, n, out + row, row, s[n + 1..])
  }

  function Png(columns: nat, colors: nat, s: Bytes): Predicted {
    var n := columns * colors;
    if |s| % (n + 1) != 0 then Error(RowLength)
    else if n + 1 > |s| then Error(RangeCheck)
    else UndoRows(colors, n, [], Zeros(n), s)
  }

  function UndoTiffRows(colors: nat, n: nat, out: Bytes, s: Bytes): Predicted
    requires n > 0
    decreases |s|
  {
    if |s| < n then Data(out)
    else UndoTiffRows(colors, n, out + Undo(SUB, colors, s[..n], Zeros(n)), s[n..])
  }

  function Tiff(columns: nat, colors: nat, s: Bytes): Predicted {
    var n := columns * colors;
    if n < 1 then Data([])
    else if |s| % n != 0 then Error(RowLength)
    else if n > |s| then Error(RangeCheck)
    else UndoTiffRows(colors, n, [], s)
  }

  function PostDecode(predictor: int, columns: nat, colors: nat, s: Bytes): Predicted {
    if predictor <= 1 then Data(s)
    else if predictor == 2 then Tiff(columns, colors, s)
    else if 10 <= predictor <= 15 then Png(columns, colors, s)
    else Error(Unsupported)
  }

  // ---- Images ----

  predicate IsImage(n: nat, rows: seq<Bytes>) {
    forall i :: 0 <= i < |rows| ==> |rows[i]| == n
  }

  predicate AreTags(tags: Bytes) {
    forall i :: 0 <= i < |tags| ==> tags[i] <= PAETH
  }

  function Concat(rows: seq<Bytes>): Bytes {
    if rows == [] then [] else rows[0] + Concat(rows[1..])
  }

  /** The filtered image: each row behind the tag of its filter. */
  function FilterRows(bpp: nat, tags: Bytes, above: Bytes, rows: seq<Bytes>): Bytes
    requires |tags| == |rows| && IsImage(|above|, rows)
    decreases |rows|
  {
    if rows == [] then []
    else [tags[0]] + Residues(tags[0], bpp, rows[0], above) + FilterRows(bpp, tags[1..], rows[0], rows[1..])
  }

  lemma {:induction false} UndoFilterRows(bpp: nat, n: nat, out: Bytes, tags: Bytes, above: Bytes, rows: seq<Bytes>)
    requires |tags| == |rows| && AreTags(tags) && |above| == n && IsImage(n, rows) && bpp <= n
    ensures UndoRows(bpp, n, out, above, FilterRows(bpp, tags, above, rows)) == Data(out + Concat(rows))
    decreases |rows|
  {
    if rows == [] {
      AppendNothing(out);
    } else {
      var f := Residues(tags[0], bpp, rows[0], above);
      var more := FilterRows(bpp, tags[1..], rows[0], rows[1..]);
      var s := [tags[0]] + f + more;
      assert s[0] == tags[0] && s[1..n + 1] == f && s[n + 1..] == more;
      UndoResidues(0, tags[0], bpp, rows[0], above);
      assert Undo(tags[0], bpp, f, above) == rows[0];
      UndoFilterRows(bpp, n, out + rows[0], tags[1..], rows[0], rows[1..]);
      Assoc(out, rows[0], Concat(rows[1..]));
    }
  }

  lemma {:induction false} FilteredLength(bpp: nat, tags: Bytes, above: Bytes, rows: seq<Bytes>)
    requires |tags| == |rows| && IsImage(|above|, rows)
    ensures |FilterRows(bpp, tags, above, rows)| == |rows| * (|above| + 1)
    decreases |rows|
  {
    if rows == [] {
    } else {
      var n := |above| + 1;
      FilteredLength(bpp, tags[1..], rows[0], rows[1..]);
      Distribute(|rows| - 1, 1, n);
      assert (|rows| - 1 + 1) * n == |rows| * n;
    }
  }

  lemma {:induction false} MulGap(a: int, n: nat)
    requires n > 0
    ensures a >= 1 ==> a * n >= n
    ensures a <= -1 ==> a * n + n <= 0
  {
    if a >= 1 {
      assert a * n == (a - 1) * n + n && (a - 1) * n >= 0;
    } else if a <= -1 {
      assert a * n == (a + 1) * n - n && (a + 1) * n <= 0;
    }
  }

  lemma {:induction false} Whole(k: nat, n: nat)
    requires n > 0
    ensures (k * n) % n == 0 && (k * n) / n == k
    ensures k > 0 ==> n <= k * n
  {
    var q := (k * n) / n;
    assert k * n == q * n + (k * n) % n;
    assert (k - q) * n == k * n - q * n;
    MulGap(k - q, n);
    MulGap(k, n);
  }

  /** Every image with a pixel in it comes back from its filtered form, whatever filter each row uses. */
  lemma {:induction false} PngRoundTrip(columns: nat, colors: nat, tags: Bytes, rows: seq<Bytes>)
    requires columns >= 1 && IsImage(columns * colors, rows)
    requires rows != [] && |tags| == |rows| && AreTags(tags)
    ensures Png(columns, colors, FilterRows(colors, tags, Zeros(columns * colors), rows)) == Data(Concat(rows))
  {
    var n := columns * colors;
    assert colors <= n by { assert n == (columns - 1) * colors + colors; }
    FilteredLength(colors, tags, Zeros(n), rows);
    Whole(|rows|, n + 1);
    UndoFilterRows(colors, n, [], tags, Zeros(n), rows);
    AppendNothing(Concat(rows));
  }


  // ---- The stored form is determined ----

  function TagsOf(n: nat, s: Bytes): Bytes {
    if |s| < n + 1 then [] else [s[0]] + TagsOf(n, s[n + 1..])
  }

  /** The rows that a filtered image stands for. */
  function RowsOf(bpp: nat, n: nat, above: Bytes, s: Bytes): (rows: seq<Bytes>)
    requires |above| == n
    ensures IsImage(n, rows)
    decreases |s|
  {
    if |s| < n + 1 then []
    else
      var row := Undo(s[0], bpp, s[1..n + 1], above);
      [row] + RowsOf(bpp, n, row, s[n + 1..])
  }

  /** A whole number of rows, each behind a known tag. */
  predicate Stored(n: nat, s: Bytes) {
    s != [] ==> |s| >= n + 1 && s[0] <= PAETH && Stored(n, s[n + 1..])
  }

  lemma {:induction false} DecodesIff(k: nat, bpp: nat, n: nat, out: Bytes, above: Bytes, s: Bytes)
    requires |above| == n && bpp <= n && |s| == k * (n + 1)
    ensures UndoRows(bpp, n, out, above, s).Data? <==> Stored(n, s)
    decreases k
  {
    if k == 0 {
    } else {
      assert k * (n + 1) == (k - 1) * (n + 1) + (n + 1);
      MulGap(k, n + 1);
      if s[0] <= PAETH {
        var row := Undo(s[0], bpp, s[1..n + 1], above);
        DecodesIff(k - 1, bpp, n, out + row, row, s[n + 1..]);
      }
    }
  }

  lemma {:induction false} FilterCons(bpp: nat, t: byte, tags: Bytes, above: Bytes, row: Bytes,
                                      rows: seq<Bytes>, s: Bytes)
    requires |tags| == |rows| && |row| == |above| && IsImage(|above|, rows)
    requires s == [t] + Residues(t, bpp, row, above) + FilterRows(bpp, tags, row, rows)
    ensures IsImage(|above|, [row] + rows) && FilterRows(bpp, [t] + tags, above, [row] + rows) == s
  {
    assert ([t] + tags)[1..] == tags && ([row] + rows)[1..] == rows;
  }

  lemma {:induction false} StoredTags(n: nat, s: Bytes)
    requires Stored(n, s)
    ensures AreTags(TagsOf(n, s))
    decreases |s|
  {
    if s == [] {
    } else {
      StoredTags(n, s[n + 1..]);
    }
  }

  lemma {:induction false} StoredIsFiltered(bpp: nat, n: nat, above: Bytes, s: Bytes)
    requires |above| == n && Stored(n, s)
    ensures |TagsOf(n, s)| == |RowsOf(bpp, n, above, s)|
    ensures FilterRows(bpp, TagsOf(n, s), above, RowsOf(bpp, n, above, s)) == s
    decreases |s|
  {
    if s == [] {
    } else {
      var f, more := s[1..n + 1], s[n + 1..];
      var row := Undo(s[0], bpp, f, above);
      ResiduesOfUndo(s[0], bpp, f, above);
      StoredIsFiltered(bpp, n, row, more);
      assert s == [s[0]] + f + more;
      FilterCons(bpp, s[0], TagsOf(n, more), above, row, RowsOf(bpp, n, row, more), s);
    }
  }

  /** The decoder accepts exactly the non-empty whole images with known tags, and what it accepts is the
      filtered form of what it returns. */
  lemma {:induction false} PngDecodesIff(columns: nat, colors: nat, s: Bytes)
    requires columns >= 1
    ensures var n := columns * colors;
            && (Png(columns, colors, s).Data? <==> s != [] && Stored(n, s))
            && (s != [] && Stored(n, s) ==>
                  var tags, rows := TagsOf(n, s), RowsOf(colors, n, Zeros(n), s);
                  && |tags| == |rows|
                  && s == FilterRows(colors, tags, Zeros(n), rows)
                  && Png(columns, colors, s) == Data(Concat(rows)))
  {
    var n := columns * colors;
    assert colors <= n by { assert n == (columns - 1) * colors + colors; }
    if s != [] && Stored(n, s) {
      StoredIsFiltered(colors, n, Zeros(n), s);
      StoredTags(n, s);
      PngRoundTrip(columns, colors, TagsOf(n, s), RowsOf(colors, n, Zeros(n), s));
    } else if |s| % (n + 1) == 0 {
      DecodesIff(|s| / (n + 1), colors, n, [], Zeros(n), s);
    }
  }

  // ---- The TIFF predictor ----

  function TiffRows(colors: nat, n: nat, rows: seq<Bytes>): Bytes
    requires IsImage(n, rows)
  {
    if rows == [] then [] else Residues(SUB, colors, rows[0], Zeros(n)) + TiffRows(colors, n, rows[1..])
  }

  lemma {:induction false} UndoAllTiff(colors: nat, n: nat, out: Bytes, rows: seq<Bytes>)
    requires n > 0 && IsImage(n, rows)
    ensures UndoTiffRows(colors, n, out, TiffRows(colors, n, rows)) == Data(out + Concat(rows))
    ensures |TiffRows(colors, n, rows)| == |rows| * n
    decreases |rows|
  {
    if rows == [] {
      AppendNothing(out);
    } else {
      var f, more := Residues(SUB, colors, rows[0], Zeros(n)), TiffRows(colors, n, rows[1..]);
      var s := f + more;
      assert s[..n] == f && s[n..] == more;
      UndoResidues(0, SUB, colors, rows[0], Zeros(n));
      UndoAllTiff(colors, n, out + rows[0], rows[1..]);
      Assoc(out, rows[0], Concat(rows[1..]));
      assert |rows| * n == (|rows| - 1) * n + n;
    }
  }

  /** Horizontal differencing with the distance of one pixel is undone for every image. */
  lemma {:induction false} TiffRoundTrip(columns: nat, colors: nat, rows: seq<Bytes>)
    requires columns * colors > 0 && rows != [] && IsImage(columns * colors, rows)
    ensures Tiff(columns, colors, TiffRows(colors, columns * colors, rows)) == Data(Concat(rows))
  {
    var n := columns * colors;
    UndoAllTiff(colors, n, [], rows);
    Whole(|rows|, n);
    AppendNothing(Concat(rows));
  }

  // ---- The encoder for predictor 11 ----

  function SplitRows(n: nat, data: Bytes): (rows: seq<Bytes>)
    requires n > 0
    ensures IsImage(n, rows)
    decreases |data|
  {
    if |data| < n then [] else [data[..n]] + SplitRows(n, data[n..])
  }

  /** What EncodeBytes compresses for predictor 11: rows of Columns bytes, whatever Colors is. */
  function EncodeSub(columns: nat, data: Bytes): Predicted {
    if columns == 0 then Panic // division by zero
    else if |data| % columns != 0 then Error(RowLength)
    else
      var rows := SplitRows(columns, data);
      Data(FilterRows(1, Repeat(SUB, |rows|), Zeros(columns), rows))
  }

  lemma {:induction false} SplitConcat(k: nat, n: nat, data: Bytes)
    requires n > 0 && |data| == k * n
    ensures |SplitRows(n, data)| == k && Concat(SplitRows(n, data)) == data
    decreases k
  {
    if k == 0 {
    } else {
      assert k * n == (k - 1) * n + n;
      MulGap(k, n);
      SplitConcat(k - 1, n, data[n..]);
      assert data == data[..n] + data[n..];
      assert SplitRows(n, data)[1..] == SplitRows(n, data[n..]);
    }
  }

  lemma {:induction false} ConcatLength(n: nat, rows: seq<Bytes>)
    requires IsImage(n, rows)
    ensures |Concat(rows)| == |rows| * n
    decreases |rows|
  {
    if rows == [] {
    } else {
      ConcatLength(n, rows[1..]);
      assert |rows| * n == (|rows| - 1) * n + n;
    }
  }

  /** A decoded image has lost exactly its tags. */
  lemma {:induction false} DecodedLength(columns: nat, colors: nat, s: Bytes)
    requires columns >= 1 && Png(columns, colors, s).Data?
    ensures |Png(columns, colors, s).bytes| * (columns * colors + 1) == |s| * (columns * colors)
  {
    var n := columns * colors;
    PngDecodesIff(columns, colors, s);
    var tags, rows := TagsOf(n, s), RowsOf(colors, n, Zeros(n), s);
    ConcatLength(n, rows);
    FilteredLength(colors, tags, Zeros(n), rows);
    MulSwap(|rows|, n, n + 1);
  }

  lemma {:induction false} MulSwap(a: int, b: int, c: int)
    ensures (a * b) * c == (a * c) * b
  {
  }

  /** k rows of c bytes filtered with their tags are k rows of other lengths only if the lengths agree. */
  lemma {:induction false} LengthTells(k: nat, c: nat, colors: nat)
    requires k > 0 && c > 0 && (k * c) * (c * colors + 1) == (k * (c + 1)) * (c * colors)
    ensures colors == 1
  {
    var n := c * colors;
    assert (k * c) * (n + 1) == (k * c) * n + k * c;
    assert (k * (c + 1)) * n == (k * c) * n + k * n by { assert k * (c + 1) == k * c + k; Distribute(k * c, k, n); }
    assert k * c == k * n;
    Cancel(k, c, n);
    Cancel(c, 1, colors);
  }

  lemma {:induction false} Distribute(a: int, b: int, c: int)
    ensures (a + b) * c == a * c + b * c
  {
  }

  lemma {:induction false} Cancel(k: nat, a: int, b: int)
    requires k > 0 && k * a == k * b
    ensures a == b
  {
    assert (a - b) * k == k * a - k * b;
    MulGap(a - b, k);
  }

  /** What the encoder writes for whole rows is read back exactly if there is data and Colors is 1. */
  lemma {:induction false} SubLosslessIff(columns: nat, colors: nat, data: Bytes)
    requires columns >= 1 && |data| % columns == 0
    ensures EncodeSub(columns, data).Data?
    ensures Png(columns, colors, EncodeSub(columns, data).bytes) == Data(data) <==> data != [] && colors == 1
  {
    var k := |data| / columns;
    assert |data| == k * columns;
    SplitConcat(k, columns, data);
    var rows := SplitRows(columns, data);
    var s := EncodeSub(columns, data).bytes;
    FilteredLength(1, Repeat(SUB, k), Zeros(columns), rows);
    if data == [] {
      assert k == 0;
    } else if colors == 1 {
      assert columns * colors == columns;
      PngRoundTrip(columns, 1, Repeat(SUB, k), rows);
    } else if Png(columns, colors, s) == Data(data) {
      DecodedLength(columns, colors, s);
      LengthTells(k, columns, colors);
    }
  }

  // ---- The row loop of the LZW filter ----

  /** Only three tags are known, and Sub looks one byte back whatever Colors is. */
  function LzwUndoRows(n: nat, out: Bytes, above: Bytes, s: Bytes): Predicted
    requires |above| == n
    decreases |s|
  {
    if |s| < n + 1 then Data(out)
    else if s[0] > UP then Error(FilterByte)
    else
      var row := Undo(s[0], 1, s[1..n + 1], above);
      LzwUndoRows(n, out + row, row, s[n + 1..])
  }

  function LzwPng(columns: nat, colors: nat, s: Bytes): Predicted {
    var n := columns * colors;
    if |s| % (n + 1) != 0 then Error(RowLength)
    else if n + 1 > |s| then Error(RangeCheck)
    else LzwUndoRows(n, [], Zeros(n), s)
  }

  lemma {:induction false} LzwRowsAgree(n: nat, out: Bytes, above: Bytes, s: Bytes)
    requires |above| == n && LzwUndoRows(n, out, above, s).Data?
    ensures UndoRows(1, n, out, above, s) == LzwUndoRows(n, out, above, s)
    decreases |s|
  {
    if |s| >= n + 1 {
      var row := Undo(s[0], 1, s[1..n + 1], above);
      LzwRowsAgree(n, out + row, row, s[n + 1..]);
    }
  }

  lemma {:induction false} OneSubRow(columns: nat, colors: nat, n: nat, f: Bytes)
    requires columns >= 1 && |f| == n == columns * colors
    ensures Png(columns, colors, [SUB] + f) == Data(Undo(SUB, colors, f, Zeros(n)))
    ensures LzwPng(columns, colors, [SUB] + f) == Data(Undo(SUB, 1, f, Zeros(n)))
  {
    var s := [SUB] + f;
    assert s[1..n + 1] == f && s[n + 1..] == [];
    var far, one := Undo(SUB, colors, f, Zeros(n)), Undo(SUB, 1, f, Zeros(n));
    AppendNothing(far);
    AppendNothing(one);
    assert UndoRows(colors, n, far, far, []) == Data(far);
    assert LzwUndoRows(n, one, one, []) == Data(one);
    assert UndoRows(colors, n, [], Zeros(n), s) == Data(far);
    assert LzwUndoRows(n, [], Zeros(n), s) == Data(one);
    Whole(1, n + 1);
    assert 1 * (n + 1) == |s|;
  }

  /** A Sub row that tells a distance of one byte from a longer one. */
  lemma {:induction false} DistanceMatters(colors: nat, f: Bytes)
    requires |f| >= 2 && f[0] == 1 && f[1] == 0 && colors >= 2
    ensures Undo(SUB, 1, f, Zeros(|f|)) != Undo(SUB, colors, f, Zeros(|f|))
  {
    UndoAt([], SUB, 1, f, Zeros(|f|), 0);
    UndoAt([], SUB, 1, f, Zeros(|f|), 1);
    UndoAt([], SUB, colors, f, Zeros(|f|), 1);
  }

  lemma {:induction false} LzwDiffers(columns: nat, colors: nat)
    requires columns >= 1 && colors >= 2
    ensures exists s :: LzwPng(columns, colors, s).Data? && LzwPng(columns, colors, s) != Png(columns, colors, s)
  {
    var n := columns * colors;
    assert n >= 2 by { assert n == (columns - 1) * colors + colors; }
    var f := [1] + Zeros(n - 1);
    OneSubRow(columns, colors, n, f);
    DistanceMatters(colors, f);
    var s := [SUB] + f;
    assert LzwPng(columns, colors, s).Data? && LzwPng(columns, colors, s) != Png(columns, colors, s);
  }

  /** What the LZW loop accepts is what the Flate loop makes of it exactly if Colors is 1. */
  lemma {:induction false} LzwAgreesIff(columns: nat, colors: nat)
    requires columns >= 1 && colors >= 1
    ensures (forall s :: LzwPng(columns, colors, s).Data? ==> LzwPng(columns, colors, s) == Png(columns, colors, s))
            <==> colors == 1
  {
    if colors == 1 {
      forall s | LzwPng(columns, colors, s).Data? ensures LzwPng(columns, colors, s) == Png(columns, colors, s) {
        LzwRowsAgree(columns * colors, [], Zeros(columns * colors), s);
      }
    } else {
      LzwDiffers(columns, colors);
    }
  }

  // ---- The loops, in place ----

  /** `s` was `was`; row `s[from..hi]` is recovered up to index k. */
  ghost predicate Doing(s: Bytes, was: Bytes, from: nat, k: nat, hi: nat, tag: byte, bpp: nat, above: Bytes)
    requires from <= k <= hi <= |s| == |was| && |above| == hi - from
  {
    && s[..from] == was[..from] && s[k..] == was[k..]
    && UndoOnto(s[from..k], tag, bpp, was[from..hi], above) == Undo(tag, bpp, was[from..hi], above)
  }

  ghost predicate Done(s: Bytes, was: Bytes, from: nat, hi: nat, tag: byte, bpp: nat, above: Bytes)
    requires from <= hi <= |s| == |was| && |above| == hi - from
  {
    && s[..from] == was[..from] && s[hi..] == was[hi..]
    && s[from..hi] == Undo(tag, bpp, was[from..hi], above)
  }

  lemma {:induction false} Start(s: Bytes, from: nat, hi: nat, tag: byte, bpp: nat, above: Bytes)
    requires from <= hi <= |s| && |above| == hi - from
    ensures Doing(s, s, from, from, hi, tag, bpp, above)
  {
    assert s[from..from] == [];
  }

  lemma {:induction false} Step(s: Bytes, was: Bytes, from: nat, k: nat, hi: nat, tag: byte, bpp: nat,
                                above: Bytes, s': Bytes)
    requires from <= k < hi <= |s| == |was| && |above| == hi - from
    requires Doing(s, was, from, k, hi, tag, bpp, above)
    requires s' == s[k := Plus(s[k], Predict(tag, bpp, s[from..k], above, k - from))]
    ensures Doing(s', was, from, k + 1, hi, tag, bpp, above)
  {
    var f, out := was[from..hi], s[from..k];
    assert s[k] == s[k..][0] == was[k..][0] == f[k - from];
    assert s'[from..k + 1] == out + [s'[k]];
    assert s'[k + 1..] == s[k + 1..] == s[k..][1..] == was[k + 1..];
    assert s'[..from] == s[..from];
  }

  lemma {:induction false} Finish(s: Bytes, was: Bytes, from: nat, hi: nat, tag: byte, bpp: nat, above: Bytes)
    requires from <= hi <= |s| == |was| && |above| == hi - from
    requires Doing(s, was, from, hi, hi, tag, bpp, above)
    ensures Done(s, was, from, hi, tag, bpp, above)
  {
  }

  /** The first bytes of a Sub row have nothing to their left. */
  lemma {:induction false} SubStart(s: Bytes, from: nat, k: nat, hi: nat, bpp: nat, above: Bytes)
    requires from <= k <= hi <= |s| && |above| == hi - from && k - from <= bpp
    ensures Doing(s, s, from, k, hi, SUB, bpp, above)
    decreases k
  {
    if k == from {
      Start(s, from, hi, SUB, bpp, above);
    } else {
      SubStart(s, from, k - 1, hi, bpp, above);
      assert s == s[k - 1 := s[k - 1]];
      Step(s, s, from, k - 1, hi, SUB, bpp, above, s);
    }
  }

  /** No filter: nothing to do. */
  lemma {:induction false} NoneStart(s: Bytes, from: nat, k: nat, hi: nat, bpp: nat, above: Bytes)
    requires from <= k <= hi <= |s| && |above| == hi - from
    ensures Doing(s, s, from, k, hi, NONE, bpp, above)
    decreases k
  {
    if k == from {
      Start(s, from, hi, NONE, bpp, above);
    } else {
      NoneStart(s, from, k - 1, hi, bpp, above);
      assert s == s[k - 1 := s[k - 1]];
      Step(s, s, from, k - 1, hi, NONE, bpp, above, s);
    }
  }

  /** rowData[j] += p */
  method AddAt(a: array<byte>, j: nat, p: byte, ghost was: Bytes, ghost from: nat, ghost hi: nat,
               ghost tag: byte, ghost bpp: nat, ghost above: Bytes)
    requires from <= j < hi <= a.Length == |was| && |above| == hi - from
    requires Doing(a[..], was, from, j, hi, tag, bpp, above)
    requires p == Predict(tag, bpp, a[..][from..j], above, j - from)
    modifies a
    ensures Doing(a[..], was, from, j + 1, hi, tag, bpp, above)
  {
    ghost var s := a[..];
    a[j] := Plus(a[j], p);
    Step(s, was, from, j, hi, tag, bpp, above, a[..]);
  }

  method UndoSub(a: array<byte>, from: nat, hi: nat, bpp: nat, ghost above: Bytes)
    requires from <= hi <= a.Length && |above| == hi - from && (bpp >= 1 || from == hi)
    modifies a
    ensures Done(a[..], old(a[..]), from, hi, SUB, bpp, above)
  {
    ghost var was := a[..];
    var j := from + bpp;
    SubStart(was, from, Min(j, hi), hi, bpp, above);
    while j < hi
      invariant from + bpp <= j && Doing(a[..], was, from, Min(j, hi), hi, SUB, bpp, above)
    {
      assert a[..][from..j][j - from - bpp] == a[j - bpp];
      AddAt(a, j, a[j - bpp], was, from, hi, SUB, bpp, above);
      j := j + 1;
    }
    Finish(a[..], was, from, hi, SUB, bpp, above);
  }

  method UndoUp(a: array<byte>, from: nat, hi: nat, bpp: nat, prev: array<byte>)
    requires from <= hi <= a.Length && prev.Length == hi - from + 1 && prev != a
    modifies a
    ensures Done(a[..], old(a[..]), from, hi, UP, bpp, prev[1..])
  {
    ghost var was, above := a[..], prev[1..];
    var j := from;
    Start(was, from, hi, UP, bpp, above);
    while j < hi
      invariant from <= j <= hi && prev[1..] == above && Doing(a[..], was, from, j, hi, UP, bpp, above)
    {
      assert above[j - from] == prev[1 + j - from];
      AddAt(a, j, prev[1 + j - from], was, from, hi, UP, bpp, above);
      j := j + 1;
    }
    Finish(a[..], was, from, hi, UP, bpp, above);
  }

  /** The first pixel has nothing to its left. */
  method AverageStart(a: array<byte>, from: nat, hi: nat, bpp: nat, prev: array<byte>)
    requires from <= hi <= a.Length && prev.Length == hi - from + 1 && prev != a && bpp <= hi - from
    modifies a
    ensures Doing(a[..], old(a[..]), from, from + bpp, hi, AVERAGE, bpp, prev[1..])
  {
    ghost var was, above := a[..], prev[1..];
    var j := from;
    Start(was, from, hi, AVERAGE, bpp, above);
    while j < from + bpp
      invariant from <= j <= from + bpp && prev[1..] == above && Doing(a[..], was, from, j, hi, AVERAGE, bpp, above)
    {
      assert above[j - from] == prev[1 + j - from] && Before(bpp, a[..][from..j], j - from) == 0;
      AddAt(a, j, prev[1 + j - from] / 2, was, from, hi, AVERAGE, bpp, above);
      j := j + 1;
    }
  }

  lemma {:induction false} SliceAt(s: Bytes, lo: nat, hi: nat, k: nat)
    requires lo <= hi <= |s| && k < hi - lo
    ensures s[lo..hi][k] == s[lo + k]
  {
  }

  method UndoAverage(a: array<byte>, from: nat, hi: nat, bpp: nat, prev: array<byte>)
    requires from <= hi <= a.Length && prev.Length == hi - from + 1 && prev != a && bpp <= hi - from
    requires bpp >= 1 || from == hi
    modifies a
    ensures Done(a[..], old(a[..]), from, hi, AVERAGE, bpp, prev[1..])
  {
    ghost var was, above := a[..], prev[1..];
    AverageStart(a, from, hi, bpp, prev);
    var j := from + bpp;
    while j < hi
      invariant from + bpp <= j <= hi && prev[1..] == above && Doing(a[..], was, from, j, hi, AVERAGE, bpp, above)
    {
      SliceAt(a[..], from, j, j - from - bpp);
      assert above[j - from] == prev[1 + j - from] && Before(bpp, a[..][from..j], j - from) == a[j - bpp];
      AddAt(a, j, Half(a[j - bpp], prev[1 + j - from]), was, from, hi, AVERAGE, bpp, above);
      j := j + 1;
    }
    Finish(a[..], was, from, hi, AVERAGE, bpp, above);
  }

  method UndoPaeth(a: array<byte>, from: nat, hi: nat, bpp: nat, prev: array<byte>)
    requires from <= hi <= a.Length && prev.Length == hi - from + 1 && prev != a && (bpp >= 1 || from == hi)
    modifies a
    ensures Done(a[..], old(a[..]), from, hi, PAETH, bpp, prev[1..])
  {
    ghost var was, up := a[..], prev[1..];
    var j := from;
    Start(was, from, hi, PAETH, bpp, up);
    while j < hi
      invariant from <= j <= hi && prev[1..] == up && Doing(a[..], was, from, j, hi, PAETH, bpp, up)
    {
      var left: byte, above: byte, corner: byte := 0, prev[1 + j - from], 0;
      assert up[j - from] == above;
      if j >= from + bpp {
        left, corner := a[j - bpp], prev[1 + j - from - bpp];
        SliceAt(a[..], from, j, j - from - bpp);
        assert up[j - from - bpp] == corner;
      }
      assert left == Before(bpp, a[..][from..j], j - from) && corner == Before(bpp, up, j - from);
      var p := Paeth(left, above, corner);
      AddAt(a, j, p, was, from, hi, PAETH, bpp, up);
      j := j + 1;
    }
    Finish(a[..], was, from, hi, PAETH, bpp, up);
  }

  /** The switch over the tag of row `a[base..hi]`. */
  method UndoRow(a: array<byte>, base: nat, hi: nat, bpp: nat, prev: array<byte>)
    requires base < hi <= a.Length && prev.Length == hi - base && prev != a && (bpp >= 1 || base + 1 == hi)
    requires a[base] <= PAETH && !(a[base] == AVERAGE && bpp >= hi - base)
    modifies a
    ensures Done(a[..], old(a[..]), base + 1, hi, old(a[base]), bpp, prev[1..])
  {
    var fb := a[base];
    if fb == NONE {
      NoneStart(a[..], base + 1, hi, hi, bpp, prev[1..]);
      Finish(a[..], a[..], base + 1, hi, NONE, bpp, prev[1..]);
    } else if fb == SUB {
      UndoSub(a, base + 1, hi, bpp, prev[1..]);
    } else if fb == UP {
      UndoUp(a, base + 1, hi, bpp, prev);
    } else if fb == AVERAGE {
      UndoAverage(a, base + 1, hi, bpp, prev);
    } else {
      UndoPaeth(a, base + 1, hi, bpp, prev);
    }
  }

  lemma {:induction false} RowTurn(s: Bytes, s': Bytes, base: nat, n: nat, bpp: nat, out: Bytes, above: Bytes)
    requires base + n + 1 <= |s| == |s'| && |above| == n
    requires s[base] <= PAETH && !(s[base] == AVERAGE && bpp > n)
    requires Done(s', s, base + 1, base + n + 1, s[base], bpp, above)
    ensures var row := s'[base + 1..base + n + 1];
            UndoRows(bpp, n, out, above, s[base..]) == UndoRows(bpp, n, out + row, row, s'[base + n + 1..])
  {
    DropDrop(s, base, n + 1);
    assert s[base..][0] == s[base] && s[base..][1..n + 1] == s[base + 1..base + n + 1];
  }

  /** One turn of the row loop: undo, keep a copy for the next row. */
  method NextRow(a: array<byte>, base: nat, n: nat, bpp: nat, prev: array<byte>, ghost out: Bytes)
    requires base + n + 1 <= a.Length && prev.Length == n + 1 && prev != a && (bpp >= 1 || n == 0)
    requires a[base] <= PAETH && !(a[base] == AVERAGE && bpp > n)
    modifies a, prev
    ensures UndoRows(bpp, n, out + prev[1..], prev[1..], a[..][base + n + 1..])
            == old(UndoRows(bpp, n, out, prev[1..], a[..][base..]))
  {
    ghost var s, above := a[..], prev[1..];
    UndoRow(a, base, base + n + 1, bpp, prev);
    RowTurn(s, a[..], base, n, bpp, out, above);
    ghost var s' := a[..];
    CopyRow(prev, a, base);
    assert prev[1..] == prev[..][1..] == s'[base + 1..base + n + 1];
  }

  /** copy(prevRowData, rowData) */
  method CopyRow(prev: array<byte>, a: array<byte>, base: nat)
    requires prev != a && base + prev.Length <= a.Length
    modifies prev
    ensures prev[..] == a[..][base..base + prev.Length]
  {
    forall k | 0 <= k < prev.Length { prev[k] := a[base + k]; }
  }

  method PngRows(bpp: nat, n: nat, a: array<byte>) returns (r: Predicted)
    requires bpp >= 1 || n == 0
    modifies a
    ensures r == UndoRows(bpp, n, [], Zeros(n), old(a[..]))
  {
    var rowLength := n + 1;
    var prev := new byte[rowLength](_ => 0);
    var out: Bytes := [];
    var base := 0;
    ghost var want := UndoRows(bpp, n, [], Zeros(n), a[..]);
    WholeSlice(a[..]);
    assert prev[1..] == Zeros(n);
    while a.Length - base >= rowLength
      invariant base <= a.Length && fresh(prev)
      invariant UndoRows(bpp, n, out, prev[1..], a[..][base..]) == want
    {
      assert a[..][base..][0] == a[base];
      if a[base] > PAETH { return Error(FilterByte); }
      if a[base] == AVERAGE && bpp > n { return Panic; }
      NextRow(a, base, n, bpp, prev, out);
      out := out + prev[1..];
      base := base + rowLength;
    }
    return Data(out);
  }

  method TiffInPlace(colors: nat, n: nat, a: array<byte>) returns (r: Predicted)
    requires colors >= 1 && n > 0
    modifies a
    ensures r == UndoTiffRows(colors, n, [], old(a[..]))
  {
    var out: Bytes := [];
    var base := 0;
    ghost var want := UndoTiffRows(colors, n, [], a[..]);
    WholeSlice(a[..]);
    while a.Length - base >= n
      invariant base <= a.Length
      invariant UndoTiffRows(colors, n, out, a[..][base..]) == want
    {
      ghost var s := a[..];
      UndoSub(a, base, base + n, colors, Zeros(n));
      TiffTurn(s, a[..], base, n, colors, out);
      out := out + a[base..base + n];
      base := base + n;
    }
    return Data(out);
  }

  lemma {:induction false} TiffTurn(s: Bytes, s': Bytes, base: nat, n: nat, colors: nat, out: Bytes)
    requires n > 0 && base + n <= |s| == |s'| && Done(s', s, base, base + n, SUB, colors, Zeros(n))
    ensures UndoTiffRows(colors, n, out, s[base..])
            == UndoTiffRows(colors, n, out + s'[base..base + n], s'[base + n..])
  {
    DropDrop(s, base, n);
  }

  /** postDecodePredict: the data is recovered in the buffer that holds it. */
  method PostDecodePredict(predictor: int, columns: nat, colors: nat, a: array<byte>) returns (r: Predicted)
    modifies a
    ensures r == PostDecode(predictor, columns, colors, old(a[..]))
  {
    if predictor <= 1 { return Data(a[..]); }
    if predictor == 2 {
      var rowLength := columns * colors;
      if rowLength < 1 { return Data([]); }
      if a.Length % rowLength != 0 { return Error(RowLength); }
      if rowLength > a.Length { return Error(RangeCheck); }
      r := TiffInPlace(colors, rowLength, a);
      return;
    }
    if 10 <= predictor <= 15 {
      var rowLength := columns * colors + 1;
      if a.Length % rowLength != 0 { return Error(RowLength); }
      if rowLength > a.Length { return Error(RangeCheck); }
      r := PngRows(colors, rowLength - 1, a);
      return;
    }
    return Error(Unsupported);
  }

  lemma {:induction false} LzwTurn(s: Bytes, s': Bytes, base: nat, n: nat, out: Bytes, above: Bytes)
    requires base + n + 1 <= |s| == |s'| && |above| == n && s[base] <= UP
    requires Done(s', s, base + 1, base + n + 1, s[base], 1, above)
    ensures var row := s'[base + 1..base + n + 1];
            LzwUndoRows(n, out, above, s[base..]) == LzwUndoRows(n, out + row, row, s'[base + n + 1..])
  {
    DropDrop(s, base, n + 1);
    assert s[base..][0] == s[base] && s[base..][1..n + 1] == s[base + 1..base + n + 1];
  }

  /** The row loop of the LZW filter's DecodeStream. */
  method LzwRows(n: nat, a: array<byte>) returns (r: Predicted)
    modifies a
    ensures r == LzwUndoRows(n, [], Zeros(n), old(a[..]))
  {
    var rowLength := n + 1;
    var prev := new byte[rowLength](_ => 0);
    var out: Bytes := [];
    var base := 0;
    ghost var want := LzwUndoRows(n, [], Zeros(n), a[..]);
    WholeSlice(a[..]);
    assert prev[1..] == Zeros(n);
    while a.Length - base >= rowLength
      invariant base <= a.Length && fresh(prev)
      invariant LzwUndoRows(n, out, prev[1..], a[..][base..]) == want
    {
      assert a[..][base..][0] == a[base];
      if a[base] > UP { return Error(FilterByte); }
      ghost var s, above := a[..], prev[1..];
      UndoRow(a, base, base + rowLength, 1, prev);
      ghost var s' := a[..];
      LzwTurn(s, s', base, n, out, above);
      CopyRow(prev, a, base);
      assert prev[1..] == prev[..][1..] == s'[base + 1..base + rowLength];
      out := out + prev[1..];
      base := base + rowLength;
    }
    return Data(out);
  }

  /** The row loop of EncodeBytes for predictor 11, with its reused buffer. */
  method EncodeSubRows(columns: nat, data: Bytes) returns (r: Predicted)
    ensures r == EncodeSub(columns, data)
  {
    if columns == 0 { return Panic; }
    if |data| % columns != 0 { return Error(RowLength); }
    var tmp := new byte[columns](_ => 0);
    var out: Bytes := [];
    var unread := data;
    ghost var above := Zeros(columns);
    ghost var want := SubRows(columns, above, data);
    AppendNothing(want);
    while |unread| >= columns
      invariant |above| == columns && out + SubRows(columns, above, unread) == want
      decreases |unread|
    {
      var row := unread[..columns];
      SubBuffer(row, tmp, above);
      SubRowsStep(columns, above, unread);
      Assoc(out, [SUB] + tmp[..], SubRows(columns, row, unread[columns..]));
      out := out + ([SUB] + tmp[..]);
      above := row;
      unread := unread[columns..];
    }
    AppendNothing(out);
    return Data(out);
  }

  ghost function SubRows(n: nat, above: Bytes, data: Bytes): Bytes
    requires n > 0 && |above| == n
  {
    var rows := SplitRows(n, data);
    FilterRows(1, Repeat(SUB, |rows|), above, rows)
  }

  lemma {:induction false} SubRowsStep(n: nat, above: Bytes, data: Bytes)
    requires n > 0 && |above| == n && |data| >= n
    ensures SubRows(n, above, data)
            == ([SUB] + Residues(SUB, 1, data[..n], above)) + SubRows(n, data[..n], data[n..])
  {
    var more := SplitRows(n, data[n..]);
    assert Repeat(SUB, |more| + 1) == [SUB] + Repeat(SUB, |more|);
    FilterCons(1, SUB, Repeat(SUB, |more|), above, data[..n], more,
               [SUB] + Residues(SUB, 1, data[..n], above) + FilterRows(1, Repeat(SUB, |more|), data[..n], more));
  }

  method SubBuffer(row: Bytes, tmp: array<byte>, ghost above: Bytes)
    requires |row| == tmp.Length == |above| >= 1
    modifies tmp
    ensures tmp[..] == Residues(SUB, 1, row, above)
  {
    ghost var want := Residues(SUB, 1, row, above);
    tmp[0] := row[0];
    SubResidue(row, above, 0);
    for j := 1 to |row|
      invariant forall k :: 0 <= k < j ==> tmp[k] == want[k]
    {
      SubResidue(row, above, j);
      tmp[j] := Minus(row[j], row[j - 1]);
    }
    assert tmp[..] == want;
  }

  lemma {:induction false} SubResidue(row: Bytes, above: Bytes, j: nat)
    requires j < |row| == |above|
    ensures Residues(SUB, 1, row, above)[j] == if j == 0 then row[0] else Minus(row[j], row[j - 1])
  {
  }

  // ---- The formulas of section 6 of RFC 2083 ----

  /** The byte bpp bytes before, or 0 at the left edge. */
  function Left(bpp: nat, s: Bytes, j: nat): int
    requires j < |s|
  {
    if j < bpp then 0 else s[j - bpp]
  }

  /** What is stored for byte j of a row of raw bytes under a row of raw bytes: None, Sub, Up, Average, Paeth. */
  lemma {:induction false} FilterFormulas(bpp: nat, raw: Bytes, above: Bytes, j: nat)
    requires bpp >= 1 && |above| == |raw| && j < |raw|
    ensures Residues(0, bpp, raw, above)[j] == raw[j]
    ensures Residues(1, bpp, raw, above)[j] == (raw[j] as int - Left(bpp, raw, j)) % 256
    ensures Residues(2, bpp, raw, above)[j] == (raw[j] as int - above[j] as int) % 256
    ensures Residues(3, bpp, raw, above)[j] == (raw[j] as int - (Left(bpp, raw, j) + above[j] as int) / 2) % 256
    ensures Residues(4, bpp, raw, above)[j]
            == (raw[j] as int - PaethPredictor(Left(bpp, raw, j), above[j], Left(bpp, above, j)) as int) % 256
  {
  }

  /** The Paeth predictor is the one of its three neighbours that is nearest to left + above - corner, the left one
      before the one above, and that before the corner. */
  lemma {:induction false} PaethIsNearest(a: byte, b: byte, c: byte, x: byte)
    requires x == a || x == b || x == c
    ensures var p, r: int := a as int + b as int - c as int, PaethPredictor(a, b, c);
            && (r == a || r == b || r == c)
            && Distance(p, r) <= Distance(p, x)
            && (Distance(p, x) == Distance(p, r) ==>
                  r == a || (r == b && Distance(p, a) > Distance(p, b)) || x == c || x == r)
  {
  }

  lemma {:induction false} DistanceIs(x: int, y: int)
    ensures Distance(x, y) >= 0 && (Distance(x, y) == x - y || Distance(x, y) == y - x)
  {
  }

  /** Which predictor is undone: none up to 1, TIFF for 2, PNG from 10 to 15 whatever number it is, and no other. */
  lemma {:induction false} PredictorNumbers(predictor: int, columns: nat, colors: nat, tags: Bytes,
                                            rows: seq<Bytes>, s: Bytes)
    requires columns * colors > 0 && rows != [] && IsImage(columns * colors, rows) && |tags| == |rows|
    requires forall i :: 0 <= i < |tags| ==> tags[i] <= 4
    ensures predictor < 2 ==> PostDecode(predictor, columns, colors, s) == Data(s)
    ensures PostDecode(2, columns, colors, TiffRows(colors, columns * colors, rows)) == Data(Concat(rows))
    ensures predictor in {10, 11, 12, 13, 14, 15} ==>
              PostDecode(predictor, columns, colors, FilterRows(colors, tags, Zeros(columns * colors), rows))
              == Data(Concat(rows))
    ensures 2 < predictor < 10 || predictor > 15 ==> PostDecode(predictor, columns, colors, s) == Error(Unsupported)
  {
    assert columns != 0;
    PngRoundTrip(columns, colors, tags, rows);
    TiffRoundTrip(columns, colors, rows);
  }

  /** Without columns: TIFF data is dropped, the encoder divides by zero, and an Average row leaves the buffer. */
  lemma {:induction false} NoColumns(colors: nat, s: Bytes)
    ensures PostDecode(2, 0, colors, s) == Data([]) && EncodeSub(0, s) == Panic
    ensures colors > 0 ==> PostDecode(13, 0, colors, [3] + s) == Panic
  {
    assert 0 * colors == 0;
    var t := [3] + s;
    assert t[0] == 3 && |t| % 1 == 0;
  }
}
