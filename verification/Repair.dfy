/** Rebuilding the cross-reference table from the object headers in a file (core/repairs.go). The scan keeps
    a window of the last 20 bytes, which misses a byte after every failed match. */
module Repair {
  import opened Bytes
  import opened Xref

  const WINDOW := 20
  const LETTER_O: byte := 0x6F
  const LETTER_B: byte := 0x62
  const LETTER_J: byte := 0x6A

  // ---- A window in front of a j ----

  /** The outcome of the tests on a window: no "obj", an "obj" without two numbers, or a header that begins
      behind index i, with the number up to a, white space up to b and the generation up to c. */
  datatype Look = Nothing | Miss | Hit(i: nat, a: nat, b: nat, c: nat)

  predicate InClass(digits: bool, x: byte) {
    if digits then IsDecimalDigit(x) else IsWhiteSpace(x)
  }

  /** Goes past digits or white space, towards the front. */
  function Back(digits: bool, w: Bytes, i: nat): (r: nat)
    requires i < |w|
    ensures r <= i
  {
    if i > 0 && InClass(digits, w[i]) then Back(digits, w, i - 1) else i
  }

  lemma {:induction false} BackRun(digits: bool, w: Bytes, i: nat)
    requires i < |w|
    ensures var r := Back(digits, w, i);
            (r > 0 ==> !InClass(digits, w[r])) && forall k :: r < k <= i ==> InClass(digits, w[k])
  {
    if i > 0 && InClass(digits, w[i]) { BackRun(digits, w, i - 1); }
  }

  predicate EndsInOb(w: Bytes)
    requires |w| == WINDOW
  {
    w[19] == LETTER_B && w[18] == LETTER_O && IsWhiteSpace(w[17])
  }

  function LookAt(w: Bytes): Look
    requires |w| == WINDOW
  {
    if EndsInOb(w) then Numbers(w) else Nothing
  }

  function Numbers(w: Bytes): Look
    requires |w| == WINDOW
  {
    var i1 := Back(false, w, 16);
    if i1 == 0 || !IsDecimalDigit(w[i1]) then Miss
    else
      var i2 := Back(true, w, i1);
      if i2 == 0 || !IsWhiteSpace(w[i2]) then Miss else Number(w, i1, i2)
  }

  function Number(w: Bytes, i1: nat, i2: nat): Look
    requires i2 < |w|
  {
    var i3 := Back(false, w, i2);
    if i3 == 0 || !IsDecimalDigit(w[i3]) then Miss
    else
      var i4 := Back(true, w, i3);
      if i4 == 0 then Miss else Hit(i4, i3 + 1, i2 + 1, i1 + 1)
  }

  method GoPast(digits: bool, w: Bytes, from: nat) returns (i: nat)
    requires from < |w|
    ensures i == Back(digits, w, from)
  {
    i := from;
    while InClass(digits, w[i]) && i > 0
      invariant i < |w| && Back(digits, w, i) == Back(digits, w, from)
    {
      i := i - 1;
    }
  }

  method LookBack(w: Bytes) returns (r: Look)
    requires |w| == WINDOW
    ensures r == LookAt(w)
  {
    if !EndsInOb(w) { return Nothing; }
    var i1 := GoPast(false, w, 16);
    if i1 == 0 || !IsDecimalDigit(w[i1]) { return Miss; }
    var i2 := GoPast(true, w, i1);
    if i2 == 0 || !IsWhiteSpace(w[i2]) { return Miss; }
    var i3 := GoPast(false, w, i2);
    if i3 == 0 || !IsDecimalDigit(w[i3]) { return Miss; }
    var i4 := GoPast(true, w, i3);
    if i4 == 0 { return Miss; }
    return Hit(i4, i3 + 1, i2 + 1, i1 + 1);
  }

  predicate All(digits: bool, s: Bytes) {
    s != [] && forall k :: 0 <= k < |s| ==> InClass(digits, s[k])
  }

  /** The window ends in a header: digits, white space, digits, white space and "ob", and in front of it a
      byte that is no digit. */
  predicate IsRegion(w: Bytes, i: nat, a: nat, b: nat, c: nat)
    requires |w| == WINDOW
  {
    && 1 <= i < a < b < c <= 17 && !IsDecimalDigit(w[i]) && w[18] == LETTER_O && w[19] == LETTER_B
    && All(true, w[i + 1..a]) && All(false, w[a..b]) && All(true, w[b..c]) && All(false, w[c..18])
  }

  lemma {:induction false} BackIs(digits: bool, w: Bytes, i: nat, r: nat)
    requires r <= i < |w| && r > 0 && !InClass(digits, w[r]) && forall k :: r < k <= i ==> InClass(digits, w[k])
    ensures Back(digits, w, i) == r
  {
    if r >= i {
    } else {
      BackIs(digits, w, i - 1, r);
    }
  }

  lemma {:induction false} RunAt(digits: bool, w: Bytes, lo: nat, hi: nat, k: nat)
    requires lo <= k < hi <= |w| && All(digits, w[lo..hi])
    ensures InClass(digits, w[k])
  {
    assert w[lo..hi][k - lo] == w[k];
  }

  lemma {:induction false} RegionHits(w: Bytes, i: nat, a: nat, b: nat, c: nat)
    requires |w| == WINDOW && IsRegion(w, i, a, b, c)
    ensures LookAt(w) == Hit(i, a, b, c)
  {
    RunAt(false, w, c, 18, 17);
    RunAt(true, w, b, c, c - 1);
    RunAt(false, w, a, b, b - 1);
    RunAt(true, w, i + 1, a, a - 1);
    forall k | c - 1 < k <= 16 ensures InClass(false, w[k]) { RunAt(false, w, c, 18, k); }
    BackIs(false, w, 16, c - 1);
    forall k | b - 1 < k <= c - 1 ensures InClass(true, w[k]) { RunAt(true, w, b, c, k); }
    BackIs(true, w, c - 1, b - 1);
    forall k | a - 1 < k <= b - 1 ensures InClass(false, w[k]) { RunAt(false, w, a, b, k); }
    BackIs(false, w, b - 1, a - 1);
    forall k | i < k <= a - 1 ensures InClass(true, w[k]) { RunAt(true, w, i + 1, a, k); }
    BackIs(true, w, a - 1, i);
  }

  lemma {:induction false} HitIsRegion(w: Bytes)
    requires |w| == WINDOW && LookAt(w).Hit?
    ensures var h := LookAt(w); IsRegion(w, h.i, h.a, h.b, h.c)
  {
    var h := LookAt(w);
    BackRun(false, w, 16);
    BackRun(true, w, h.c - 1);
    BackRun(false, w, h.b - 1);
    BackRun(true, w, h.a - 1);
    assert All(false, w[h.c..18]);
    assert All(true, w[h.b..h.c]);
    assert All(false, w[h.a..h.b]);
    assert All(true, w[h.i + 1..h.a]);
  }

  // ---- The scan ----

  /** A header with its position and numbers. The pattern that reads the numbers does not take NUL for white
      space. */
  datatype Found = NoHeader | Unreadable | Header(pos: int, num: nat, gen: nat)

  predicate Readable(w: Bytes, h: Look)
    requires |w| == WINDOW && h.Hit? && IsRegion(w, h.i, h.a, h.b, h.c)
  {
    0 !in w[h.a..h.b] && 0 !in w[h.c..18]
  }

  /** What is found at the j at position q behind window w. */
  function FoundIn(w: Bytes, q: nat): Found
    requires |w| == WINDOW
  {
    var h := LookAt(w);
    if !h.Hit? then NoHeader
    else
      HitIsRegion(w);
      if !Readable(w, h) then Unreadable
      else Header(q + 1 - (WINDOW - h.i), DecimalValue(w[h.i + 1..h.a]), DecimalValue(w[h.b..h.c]))
  }

  /** The 20 bytes before position q, zeros in front of the file. */
  function WindowAt(file: Bytes, q: nat): (w: Bytes)
    requires q <= |file|
    ensures |w| == WINDOW
  {
    (Zeros() + file)[q..q + WINDOW]
  }

  function Zeros(): (z: Bytes)
    ensures |z| == WINDOW && forall k :: 0 <= k < WINDOW ==> z[k] == 0
  {
    seq(WINDOW, i => 0)
  }

  function HeaderAt(file: Bytes, q: nat): Found
    requires q < |file|
  {
    if file[q] == LETTER_J then FoundIn(WindowAt(file, q), q) else NoHeader
  }

  /** What is found at each position from q on. */
  function AllFound(file: Bytes, q: nat): (fs: seq<Found>)
    requires q <= |file|
    ensures |fs| == |file| - q
    decreases |file| - q
  {
    if q == |file| then [] else [HeaderAt(file, q)] + AllFound(file, q + 1)
  }

  function ClaimOf(h: Found): Claim
    requires h.Header?
  {
    Claim(h.num, InFile(h.pos, h.gen))
  }

  /** The table of all headers found, or none if one cannot be read. */
  function Rebuild(fs: seq<Found>, t: Table): Option<Table>
    decreases |fs|
  {
    if fs == [] then Some(t)
    else match fs[0]
      case NoHeader => Rebuild(fs[1..], t)
      case Unreadable => None
      case Header(_, _, _) => Rebuild(fs[1..], Add(t, ClaimOf(fs[0])))
  }

  // ---- The window of the scan ----

  /** Neither a digit nor white space nor the o of "obj". */
  predicate IsStop(x: byte) {
    !IsDecimalDigit(x) && !IsWhiteSpace(x) && x != LETTER_O
  }

  /** The windows are equal behind index k, where both have a stop. */
  predicate AlikeBehind(w: Bytes, w': Bytes, k: nat)
    requires |w| == |w'| == WINDOW
  {
    k < 19 && IsStop(w[k]) && IsStop(w'[k]) && w[k + 1..] == w'[k + 1..]
  }

  lemma {:induction false} BackAlike(digits: bool, w: Bytes, w': Bytes, k: nat, i: nat)
    requires |w| == |w'| == WINDOW && AlikeBehind(w, w', k) && k <= i < WINDOW
    ensures Back(digits, w, i) == Back(digits, w', i) >= k
    decreases i
  {
    if i > k {
      assert w[i] == w[k + 1..][i - k - 1] == w'[k + 1..][i - k - 1] == w'[i];
      if i > 0 && InClass(digits, w[i]) { BackAlike(digits, w, w', k, i - 1); }
    }
  }

  lemma {:induction false} ByteAlike(w: Bytes, w': Bytes, k: nat, i: nat)
    requires |w| == |w'| == WINDOW && AlikeBehind(w, w', k) && k <= i < WINDOW
    ensures IsDecimalDigit(w[i]) == IsDecimalDigit(w'[i]) && IsWhiteSpace(w[i]) == IsWhiteSpace(w'[i])
    ensures (w[i] == LETTER_O) == (w'[i] == LETTER_O) && (i > k ==> w[i] == w'[i])
  {
    if i > k { assert w[i] == w[k + 1..][i - k - 1] == w'[k + 1..][i - k - 1] == w'[i]; }
  }

  lemma {:induction false} NumberAlike(w: Bytes, w': Bytes, k: nat, i1: nat, i2: nat)
    requires |w| == |w'| == WINDOW && AlikeBehind(w, w', k) && k <= i2 < WINDOW
    ensures Number(w, i1, i2) == Number(w', i1, i2)
    ensures Number(w, i1, i2).Hit? ==> Number(w, i1, i2).i >= k
  {
    var i3 := Back(false, w, i2);
    BackAlike(false, w, w', k, i2);
    ByteAlike(w, w', k, i3);
    BackAlike(true, w, w', k, i3);
  }

  lemma {:induction false} NumbersAlike(w: Bytes, w': Bytes, k: nat)
    requires |w| == |w'| == WINDOW && AlikeBehind(w, w', k) && k <= 16
    ensures Numbers(w) == Numbers(w')
    ensures Numbers(w).Hit? ==> Numbers(w).i >= k
  {
    var i1 := Back(false, w, 16);
    BackAlike(false, w, w', k, 16);
    ByteAlike(w, w', k, i1);
    var i2 := Back(true, w, i1);
    BackAlike(true, w, w', k, i1);
    ByteAlike(w, w', k, i2);
    NumberAlike(w, w', k, i1, i2);
  }

  /** The tests do not look past a stop. */
  lemma {:induction false} LookAlike(w: Bytes, w': Bytes, k: nat)
    requires |w| == |w'| == WINDOW && AlikeBehind(w, w', k)
    ensures LookAt(w) == LookAt(w')
    ensures LookAt(w).Hit? ==> LookAt(w).i >= k
  {
    ByteAlike(w, w', k, 19);
    ByteAlike(w, w', k, 18);
    if k <= 17 { ByteAlike(w, w', k, 17); }
    if k <= 16 { NumbersAlike(w, w', k); }
  }

  lemma {:induction false} FoundAlike(w: Bytes, w': Bytes, k: nat, q: nat)
    requires |w| == |w'| == WINDOW && AlikeBehind(w, w', k)
    ensures FoundIn(w, q) == FoundIn(w', q)
  {
    LookAlike(w, w', k);
    var h := LookAt(w);
    if h.Hit? {
      HitIsRegion(w);
      HitIsRegion(w');
      SliceAlike(w, w', k, h.i + 1, h.a);
      SliceAlike(w, w', k, h.a, h.b);
      SliceAlike(w, w', k, h.b, h.c);
      SliceAlike(w, w', k, h.c, 18);
    }
  }

  lemma {:induction false} SliceAlike(w: Bytes, w': Bytes, k: nat, lo: nat, hi: nat)
    requires |w| == |w'| == WINDOW && k < lo <= hi <= WINDOW && w[k + 1..] == w'[k + 1..]
    ensures w[lo..hi] == w'[lo..hi]
  {
    forall x | lo <= x < hi ensures w[x] == w'[x] {
      assert w[x] == w[k + 1..][x - k - 1] && w'[x] == w'[k + 1..][x - k - 1];
    }
  }

  /** How the window of the scan relates to the bytes before position q. Without a skipped byte it holds them.
      Otherwise t bytes have come in since the last skipped j; they are the last of the window, and in front
      of them it has the b that stood before that j. */
  predicate Tracks(file: Bytes, q: nat, last: Bytes, t: nat)
    requires q <= |file|
  {
    && |last| == WINDOW && t <= q
    && (last == WindowAt(file, q) ||
        (&& t <= 19 && last[19 - t] == LETTER_B && WindowAt(file, q)[19 - t] == LETTER_J
         && last[20 - t..] == WindowAt(file, q)[20 - t..]
         && (t == 0 ==> LookAt(last) == Miss)))
  }

  lemma {:induction false} WindowMoves(file: Bytes, q: nat)
    requires q < |file|
    ensures WindowAt(file, q + 1) == WindowAt(file, q)[1..] + [file[q]]
  {
    var z := Zeros() + file;
    assert z[q + 20] == file[q];
  }

  /** A byte comes in. */
  lemma {:induction false} TracksNext(file: Bytes, q: nat, last: Bytes, t: nat)
    requires q < |file| && Tracks(file, q, last, t)
    ensures Tracks(file, q + 1, last[1..] + [file[q]], t + 1)
  {
    var w := WindowAt(file, q);
    WindowMoves(file, q);
    if last != w {
      var last', w' := last[1..] + [file[q]], w[1..] + [file[q]];
      assert last'[19 - t..] == last[20 - t..] + [file[q]];
      assert w'[19 - t..] == w[20 - t..] + [file[q]];
      assert t < 19 ==> last'[18 - t] == last[19 - t] && w'[18 - t] == w[19 - t];
    }
  }

  /** A j is skipped. */
  lemma {:induction false} TracksSkip(file: Bytes, q: nat, last: Bytes, t: nat)
    requires q < |file| && Tracks(file, q, last, t) && file[q] == LETTER_J && LookAt(last) == Miss
    ensures Tracks(file, q + 1, last, 0)
  {
    WindowMoves(file, q);
  }

  /** Whatever has been skipped, the scan finds what the file has. */
  lemma {:induction false} TracksFinds(file: Bytes, q: nat, last: Bytes, t: nat)
    requires q < |file| && Tracks(file, q, last, t) && file[q] == LETTER_J
    ensures FoundIn(last, q) == HeaderAt(file, q)
  {
    var w := WindowAt(file, q);
    if last != w && t > 0 {
      assert last[19 - t + 1..] == w[19 - t + 1..];
      FoundAlike(last, w, 19 - t, q);
    }
  }

  /** The tests at a j, and the numbers of the header they accept. */
  method Consider(w: Bytes, q: nat) returns (found: Found, skip: bool)
    requires |w| == WINDOW
    ensures found == FoundIn(w, q) && skip == LookAt(w).Miss?
  {
    var h := LookBack(w);
    if !h.Hit? { return NoHeader, h.Miss?; }
    HitIsRegion(w);
    if !Readable(w, h) { return Unreadable, false; }
    var objOffset := q + 1 - (WINDOW - h.i);
    return Header(objOffset, DecimalValue(w[h.i + 1..h.a]), DecimalValue(w[h.b..h.c])), false;
  }

  /** The byte at q is read: the tests at a j, and the window after it. */
  method TakeByte(file: Bytes, q: nat, last: Bytes, ghost t: nat) returns (found: Found, last': Bytes, ghost t': nat)
    requires q < |file| && Tracks(file, q, last, t)
    ensures found == AllFound(file, 0)[q] && Tracks(file, q + 1, last', t')
  {
    FoundAt(file, 0, q);
    found := NoHeader;
    if file[q] == LETTER_J {
      var skip;
      TracksFinds(file, q, last, t);
      found, skip := Consider(last, q);
      if skip {
        TracksSkip(file, q, last, t);
        return found, last, 0;
      }
    }
    TracksNext(file, q, last, t);
    return found, last[1..] + [file[q]], t + 1;
  }

  class Parser {
    const file: Bytes
    var repairsAttempted: bool

    constructor (content: Bytes)
      ensures file == content && !repairsAttempted
    {
      file, repairsAttempted := content, false;
    }

    /** repairRebuildXrefsTopDown: once only. */
    method RebuildXrefsTopDown() returns (r: Option<Table>)
      modifies this
      ensures repairsAttempted
      ensures r == if old(repairsAttempted) then None else Rebuild(AllFound(file, 0), map[])
    {
      if repairsAttempted { return None; }
      repairsAttempted := true;
      var last := Zeros();
      var table: Table := map[];
      ghost var t, all := 0, AllFound(file, 0);
      assert last == WindowAt(file, 0);
      WholeSlice(all);
      for q := 0 to |file|
        invariant repairsAttempted && Tracks(file, q, last, t) && Rebuild(all[q..], table) == Rebuild(all, map[])
      {
        var h;
        h, last, t := TakeByte(file, q, last, t);
        DropDrop(all, q, 1);
        if h.Unreadable? { return None; }
        if h.Header? && (h.num !in table || Generation(table[h.num]) < h.gen) {
          table := table[h.num := InFile(h.pos, h.gen)];
        }
      }
      return Some(table);
    }
  }

  // ---- What is found ----

  /** A header stands at position p: its number up to a, white space up to b, its generation up to c, white
      space and "obj" up to the j at q. There is no digit in front of it, and it has at most 19 bytes. */
  predicate IsHeader(file: Bytes, p: nat, a: nat, b: nat, c: nat, q: nat) {
    && p < a < b < c < q - 2 && q < |file| && q - p <= 18
    && All(true, file[p..a]) && All(false, file[a..b]) && All(true, file[b..c]) && All(false, file[c..q - 2])
    && file[q - 2] == 'o' as int && file[q - 1] == 'b' as int && file[q] == 'j' as int
    && (p > 0 ==> !IsDecimalDigit(file[p - 1]))
  }

  /** A part of the window is a part of the file. */
  lemma {:induction false} WindowPart(file: Bytes, q: nat, x: nat, y: nat)
    requires x <= y <= q <= |file| && q - x <= WINDOW
    ensures WindowAt(file, q)[WINDOW - q + x..WINDOW - q + y] == file[x..y]
  {
    var part := WindowAt(file, q)[WINDOW - q + x..WINDOW - q + y];
    forall k | 0 <= k < y - x ensures part[k] == file[x..y][k] { WindowByte(file, q, WINDOW - q + x + k); }
  }

  lemma {:induction false} WindowByte(file: Bytes, q: nat, k: nat)
    requires k < WINDOW && q <= |file|
    ensures WindowAt(file, q)[k] == if q + k < WINDOW then 0 else file[q + k - WINDOW]
  {
  }

  lemma {:induction false} HeaderIsRegion(file: Bytes, p: nat, a: nat, b: nat, c: nat, q: nat)
    requires IsHeader(file, p, a, b, c, q)
    ensures var m := WINDOW - q; IsRegion(WindowAt(file, q), m + p - 1, m + a, m + b, m + c)
  {
    var m := WINDOW - q;
    WindowPart(file, q, p, a);
    WindowPart(file, q, a, b);
    WindowPart(file, q, b, c);
    WindowPart(file, q, c, q - 2);
    WindowByte(file, q, 18);
    WindowByte(file, q, 19);
    WindowByte(file, q, m + p - 1);
  }

  lemma {:induction false} RegionIsFound(w: Bytes, i: nat, a: nat, b: nat, c: nat, q: nat, p: int,
                                         num: Bytes, space: Bytes, gen: Bytes, space': Bytes)
    requires |w| == WINDOW && IsRegion(w, i, a, b, c) && p == q + 1 - (WINDOW - i)
    requires w[i + 1..a] == num && w[a..b] == space && w[b..c] == gen && w[c..18] == space'
    ensures All(true, num) && All(true, gen)
    ensures FoundIn(w, q) == if 0 in space || 0 in space' then Unreadable
                             else Header(p, DecimalValue(num), DecimalValue(gen))
  {
    RegionHits(w, i, a, b, c);
  }

  /** A header is found, at its first digit. */
  lemma {:induction false} HeaderIsFound(file: Bytes, p: nat, a: nat, b: nat, c: nat, q: nat)
    requires IsHeader(file, p, a, b, c, q)
    ensures HeaderAt(file, q)
            == if 0 in file[a..b] || 0 in file[c..q - 2] then Unreadable
               else Header(p, DecimalValue(file[p..a]), DecimalValue(file[b..c]))
  {
    var m, w := WINDOW - q, WindowAt(file, q);
    HeaderIsRegion(file, p, a, b, c, q);
    WindowPart(file, q, p, a);
    WindowPart(file, q, a, b);
    WindowPart(file, q, b, c);
    WindowPart(file, q, c, q - 2);
    RegionIsFound(w, m + p - 1, m + a, m + b, m + c, q, p, file[p..a], file[a..b], file[b..c], file[c..q - 2]);
  }

  lemma {:induction false} RegionIsHeader(file: Bytes, q: nat, i: nat, a: nat, b: nat, c: nat)
    requires q < |file| && file[q] == LETTER_J && IsRegion(WindowAt(file, q), i, a, b, c)
    ensures var m := q - WINDOW; m + i + 1 >= 0 && IsHeader(file, m + i + 1, m + a, m + b, m + c, q)
  {
    var m, w := q - WINDOW, WindowAt(file, q);
    RunAt(true, w, i + 1, a, i + 1);
    WindowByte(file, q, i + 1);
    assert m + i + 1 >= 0;
    WindowPart(file, q, m + i + 1, m + a);
    WindowPart(file, q, m + a, m + b);
    WindowPart(file, q, m + b, m + c);
    WindowPart(file, q, m + c, m + 18);
    WindowByte(file, q, 18);
    WindowByte(file, q, 19);
    WindowByte(file, q, i);
  }

  /** What is found is a header, and it stands where the entry says. */
  lemma {:induction false} FoundIff(file: Bytes, q: nat)
    requires q < |file|
    ensures HeaderAt(file, q) != NoHeader <==> exists p, a, b, c :: IsHeader(file, p, a, b, c, q)
  {
    if HeaderAt(file, q) != NoHeader {
      var w := WindowAt(file, q);
      var h := LookAt(w);
      HitIsRegion(w);
      RegionIsHeader(file, q, h.i, h.a, h.b, h.c);
    }
    forall p, a, b, c | IsHeader(file, p, a, b, c, q) ensures HeaderAt(file, q) != NoHeader {
      HeaderIsFound(file, p, a, b, c, q);
    }
  }

  // ---- The table ----

  lemma {:induction false} FoundAt(file: Bytes, q: nat, k: nat)
    requires q <= k < |file|
    ensures AllFound(file, q)[k - q] == HeaderAt(file, k)
    decreases k - q
  {
    if q >= k {
    } else {
      FoundAt(file, q + 1, k);
    }
  }

  lemma {:induction false} RebuildFails(fs: seq<Found>, t: Table)
    ensures Rebuild(fs, t).None? <==> Unreadable in fs
    decreases |fs|
  {
    if fs == [] {
    } else {
      HeadTail(fs);
      RebuildFails(fs[1..], if fs[0].Header? then Add(t, ClaimOf(fs[0])) else t);
    }
  }

  lemma {:induction false} RebuildAppend(fs: seq<Found>, h: Found, t: Table)
    requires Unreadable !in fs && h != Unreadable
    ensures Rebuild(fs, t).Some?
    ensures Rebuild(fs + [h], t)
            == Some(if h.Header? then Add(Rebuild(fs, t).value, ClaimOf(h)) else Rebuild(fs, t).value)
    decreases |fs|
  {
    if fs == [] {
      assert [h][1..] == [];
    } else {
      assert (fs + [h])[1..] == fs[1..] + [h];
      assert fs[0] != Unreadable;
      RebuildAppend(fs[1..], h, if fs[0].Header? then Add(t, ClaimOf(fs[0])) else t);
    }
  }

  predicate IsOf(h: Found, num: int) {
    h.Header? && h.num == num
  }

  /** The header found at q has the greatest generation for the number, and is the first to have it. */
  predicate IsFirstOfGreatest(fs: seq<Found>, num: int, q: int) {
    && 0 <= q < |fs| && IsOf(fs[q], num)
    && forall j :: 0 <= j < |fs| && IsOf(fs[j], num) ==> fs[j].gen <= fs[q].gen && (j < q ==> fs[j].gen < fs[q].gen)
  }

  lemma {:induction false} FindFirstOfGreatest(fs: seq<Found>, num: int) returns (q: int)
    requires Unreadable !in fs
    ensures var t := Rebuild(fs, map[]);
            && t.Some?
            && (q >= 0 ==> IsFirstOfGreatest(fs, num, q) && num in t.value && t.value[num] == ClaimOf(fs[q]).at)
            && (q < 0 ==> num !in t.value && forall j :: 0 <= j < |fs| ==> !IsOf(fs[j], num))
    decreases |fs|
  {
    if fs == [] {
      q := -1;
    } else {
      var n := |fs| - 1;
      assert fs == fs[..n] + [fs[n]];
      RebuildAppend(fs[..n], fs[n], map[]);
      q := FindFirstOfGreatest(fs[..n], num);
      if IsOf(fs[n], num) && (q < 0 || fs[n].gen > fs[q].gen) { q := n; }
    }
  }

  /** A header for the number, with its generation, stands at p and ends at q. */
  ghost predicate IsHeaderOf(file: Bytes, num: int, gen: nat, p: nat, q: nat) {
    exists a: nat, b: nat, c: nat ::
      IsHeader(file, p, a, b, c, q) && DecimalValue(file[p..a]) == num && DecimalValue(file[b..c]) == gen
  }

  lemma {:induction false} HeaderOfIff(file: Bytes, num: int, gen: nat, p: nat, q: nat)
    requires q < |file| && HeaderAt(file, q) != Unreadable
    ensures IsHeaderOf(file, num, gen, p, q)
            <==> IsOf(HeaderAt(file, q), num) && HeaderAt(file, q) == Header(p, num, gen)
  {
    forall a: nat, b: nat, c: nat | IsHeader(file, p, a, b, c, q)
      ensures HeaderAt(file, q) == Header(p, DecimalValue(file[p..a]), DecimalValue(file[b..c]))
    {
      HeaderIsFound(file, p, a, b, c, q);
    }
    if IsOf(HeaderAt(file, q), num) && HeaderAt(file, q) == Header(p, num, gen) {
      FoundIff(file, q);
      var p', a, b, c :| IsHeader(file, p', a, b, c, q);
      HeaderIsFound(file, p', a, b, c, q);
    }
  }

  /** White space of some header holds a NUL. */
  ghost predicate HasUnreadable(file: Bytes) {
    exists p: nat, a: nat, b: nat, c: nat, q: nat ::
      IsHeader(file, p, a, b, c, q) && (0 in file[a..b] || 0 in file[c..q - 2])
  }

  lemma {:induction false} UnreadableAt(file: Bytes, q: nat)
    requires q < |file| && HeaderAt(file, q) == Unreadable
    ensures HasUnreadable(file)
  {
    FoundIff(file, q);
    var p, a, b, c :| IsHeader(file, p, a, b, c, q);
    HeaderIsFound(file, p, a, b, c, q);
  }

  lemma {:induction false} UnreadableHeader(file: Bytes, p: nat, a: nat, b: nat, c: nat, q: nat)
    requires IsHeader(file, p, a, b, c, q) && (0 in file[a..b] || 0 in file[c..q - 2])
    ensures Unreadable in AllFound(file, 0)
  {
    HeaderIsFound(file, p, a, b, c, q);
    FoundAt(file, 0, q);
    assert AllFound(file, 0)[q] == Unreadable;
  }

  lemma {:induction false} FailsIff(file: Bytes)
    ensures Unreadable in AllFound(file, 0) <==> HasUnreadable(file)
  {
    var fs := AllFound(file, 0);
    if Unreadable in fs {
      var q :| 0 <= q < |fs| && fs[q] == Unreadable;
      FoundAt(file, 0, q);
      UnreadableAt(file, q);
    }
    if HasUnreadable(file) {
      var p: nat, a: nat, b: nat, c: nat, q: nat
        :| IsHeader(file, p, a, b, c, q) && (0 in file[a..b] || 0 in file[c..q - 2]);
      UnreadableHeader(file, p, a, b, c, q);
    }
  }

  /** The header at p that ends at q has the greatest generation of all headers of the file for the number,
      and those that end before it have smaller ones. */
  ghost predicate IsBinding(file: Bytes, num: int, gen: nat, p: nat, q: nat) {
    && IsHeaderOf(file, num, gen, p, q)
    && forall g: nat, p': nat, q': nat :: IsHeaderOf(file, num, g, p', q') ==> g <= gen && (q' < q ==> g < gen)
  }

  lemma {:induction false} PositionInFile(file: Bytes, q: nat)
    requires q < |file| && HeaderAt(file, q).Header?
    ensures HeaderAt(file, q).pos >= 0
  {
    FoundIff(file, q);
    var p, a, b, c :| IsHeader(file, p, a, b, c, q);
    HeaderIsFound(file, p, a, b, c, q);
  }

  lemma {:induction false} HeaderOfFound(file: Bytes, fs: seq<Found>, num: int, gen: nat, p: nat, q: nat)
    requires fs == AllFound(file, 0) && Unreadable !in fs
    ensures IsHeaderOf(file, num, gen, p, q) <==> q < |fs| && IsOf(fs[q], num) && fs[q] == Header(p, num, gen)
  {
    if q < |file| {
      FoundAt(file, 0, q);
      assert fs[q] != Unreadable;
      HeaderOfIff(file, num, gen, p, q);
    }
  }

  lemma {:induction false} BindingIsFirst(file: Bytes, fs: seq<Found>, num: int, gen: nat, p: nat, q: nat)
    requires fs == AllFound(file, 0) && Unreadable !in fs && IsBinding(file, num, gen, p, q)
    ensures IsFirstOfGreatest(fs, num, q) && fs[q] == Header(p, num, gen)
  {
    HeaderOfFound(file, fs, num, gen, p, q);
    forall j | 0 <= j < |fs| && IsOf(fs[j], num)
      ensures fs[j].gen <= gen && (j < q ==> fs[j].gen < gen)
    {
      FoundAt(file, 0, j);
      PositionInFile(file, j);
      HeaderOfFound(file, fs, num, fs[j].gen, fs[j].pos, j);
    }
  }

  lemma {:induction false} FirstIsBinding(file: Bytes, fs: seq<Found>, num: int, gen: nat, p: nat, q: nat)
    requires fs == AllFound(file, 0) && Unreadable !in fs
    requires IsFirstOfGreatest(fs, num, q) && fs[q] == Header(p, num, gen)
    ensures IsBinding(file, num, gen, p, q)
  {
    HeaderOfFound(file, fs, num, gen, p, q);
    forall g: nat, p': nat, q': nat | IsHeaderOf(file, num, g, p', q')
      ensures g <= gen && (q' < q ==> g < gen)
    {
      HeaderOfFound(file, fs, num, g, p', q');
    }
  }

  lemma {:induction false} OneFirst(fs: seq<Found>, num: int, i: int, j: int)
    requires IsFirstOfGreatest(fs, num, i) && IsFirstOfGreatest(fs, num, j)
    ensures i == j
  {
  }

  /** A location is that of a header that wins. */
  ghost predicate IsBoundTo(file: Bytes, num: int, at: Location) {
    exists gen: nat, p: nat, q: nat :: IsBinding(file, num, gen, p, q) && at == InFile(p, gen)
  }

  lemma {:induction false} BoundToHeader(file: Bytes, num: int, at: Location)
    requires Unreadable !in AllFound(file, 0)
    ensures var r := Rebuild(AllFound(file, 0), map[]);
            r.Some? && (num in r.value && r.value[num] == at <==> IsBoundTo(file, num, at))
  {
    var fs := AllFound(file, 0);
    var w := FindFirstOfGreatest(fs, num);
    if IsBoundTo(file, num, at) {
      var gen: nat, p: nat, q: nat :| IsBinding(file, num, gen, p, q) && at == InFile(p, gen);
      BindingIsFirst(file, fs, num, gen, p, q);
      assert w >= 0;
      OneFirst(fs, num, q, w);
    }
    if w >= 0 {
      FoundAt(file, 0, w);
      PositionInFile(file, w);
      FirstIsBinding(file, fs, num, fs[w].gen, fs[w].pos, w);
    }
  }

  /** The repair fails exactly if there is a header with a NUL in its white space. Otherwise an object number
      is bound to a location exactly if the earliest header of the greatest generation for it stands there. */
  lemma {:induction false} RepairedIff(file: Bytes, num: int, at: Location)
    ensures var r := Rebuild(AllFound(file, 0), map[]);
            && (r.None? <==> HasUnreadable(file))
            && (r.Some? ==> (num in r.value && r.value[num] == at <==> IsBoundTo(file, num, at)))
  {
    FailsIff(file);
    RebuildFails(AllFound(file, 0), map[]);
    if Unreadable !in AllFound(file, 0) { BoundToHeader(file, num, at); }
  }
}
