/** The length of a union of intervals, and the test for horizontal borders that uses it
    (extractor/markdown.go). */
module Intervals {
  import opened Bytes

  datatype Interval = Interval(lo: real, hi: real)

  // ---- The sweep ----

  predicate SortedByLo(ivs: seq<Interval>) {
    forall i, j :: 0 <= i < j < |ivs| ==> ivs[i].lo <= ivs[j].lo
  }

  /** The loop over intervals in order of their lower ends, [lo, hi] being the stretch met last. */
  function Sweep(ivs: seq<Interval>, lo: real, hi: real, total: real): real
    decreases |ivs|
  {
    if ivs == [] then total + hi - lo
    else if ivs[0].lo <= hi then Sweep(ivs[1..], lo, if ivs[0].hi > hi then ivs[0].hi else hi, total)
    else Sweep(ivs[1..], ivs[0].lo, ivs[0].hi, total + (hi - lo))
  }

  function UnionOf(sorted: seq<Interval>): real {
    if sorted == [] then 0.0 else Sweep(sorted[1..], sorted[0].lo, sorted[0].hi, 0.0)
  }

  function Insert(iv: Interval, s: seq<Interval>): seq<Interval> {
    if s == [] || iv.lo < s[0].lo then [iv] + s else [s[0]] + Insert(iv, s[1..])
  }

  /** Orders by lower end. Which of several orders is taken does not matter below. */
  function Sort(ivs: seq<Interval>): seq<Interval> {
    if ivs == [] then [] else Insert(ivs[|ivs| - 1], Sort(ivs[..|ivs| - 1]))
  }

  function UnionLen(ivs: seq<Interval>): real {
    UnionOf(Sort(ivs))
  }

  method UnionLenLoop(intervals: seq<Interval>) returns (len: real)
    ensures len == UnionLen(intervals)
  {
    if |intervals| == 0 { return 0.0; }
    var s: seq<Interval> := [];
    for i := 0 to |intervals|
      invariant s == Sort(intervals[..i])
    {
      assert intervals[..i + 1][..i] == intervals[..i];
      s := Insert(intervals[i], s);
    }
    WholeSlice(intervals);
    if s == [] { return 0.0; }
    var total, curLo, curHi := 0.0, s[0].lo, s[0].hi;
    var unread := s[1..];
    while unread != []
      invariant Sweep(unread, curLo, curHi, total) == UnionOf(s)
      decreases |unread|
    {
      var iv := unread[0];
      if iv.lo <= curHi {
        if iv.hi > curHi { curHi := iv.hi; }
      } else {
        total := total + (curHi - curLo);
        curLo, curHi := iv.lo, iv.hi;
      }
      unread := unread[1..];
    }
    return total + curHi - curLo;
  }

  // ---- The length of what is covered ----

  ghost predicate Covers(ivs: seq<Interval>, x: real) {
    exists iv :: iv in ivs && iv.lo <= x < iv.hi
  }

  predicate Increasing(grid: seq<real>) {
    forall i, j :: 0 <= i < j < |grid| ==> grid[i] < grid[j]
  }

  predicate Proper(ivs: seq<Interval>) {
    forall iv :: iv in ivs ==> iv.lo <= iv.hi
  }

  /** The grid has all ends of the intervals. */
  predicate Within(ivs: seq<Interval>, grid: seq<real>) {
    forall iv :: iv in ivs ==> iv.lo in grid && iv.hi in grid
  }

  /** The total length of the grid cells that are covered. */
  ghost function Measure(ivs: seq<Interval>, grid: seq<real>): real {
    if |grid| < 2 then 0.0
    else (if Covers(ivs, grid[0]) then grid[1] - grid[0] else 0.0) + Measure(ivs, grid[1..])
  }

  /** The total length of the cells from u on that end by v. */
  function Span(grid: seq<real>, u: real, v: real): real {
    if |grid| < 2 then 0.0
    else (if u <= grid[0] < v then grid[1] - grid[0] else 0.0) + Span(grid[1..], u, v)
  }

  lemma {:induction false} SpanIs(grid: seq<real>, u: real, v: real)
    requires Increasing(grid) && u <= v && u in grid && v in grid
    ensures Span(grid, u, v) == v - u
    decreases |grid|
  {
    if |grid| < 2 {
    } else {
      var rest := grid[1..];
      if u == grid[0] {
        if v == grid[0] {
          SpanNone(rest, u, v);
        } else {
          assert grid[1] == rest[0] <= v;
          SpanFrom(rest, u, rest[0], v);
          SpanIs(rest, rest[0], v);
        }
      } else {
        SpanIs(rest, u, v);
      }
    }
  }

  lemma {:induction false} SpanNone(grid: seq<real>, u: real, v: real)
    requires forall x :: x in grid ==> x >= v
    ensures Span(grid, u, v) == 0.0
    decreases |grid|
  {
    if |grid| < 2 {
    } else {
      assert grid[0] in grid;
      forall x | x in grid[1..] ensures x in grid { }
      SpanNone(grid[1..], u, v);
    }
  }

  lemma {:induction false} SpanFrom(grid: seq<real>, u: real, u': real, v: real)
    requires u <= u' && forall x :: x in grid ==> x >= u'
    ensures Span(grid, u, v) == Span(grid, u', v)
    decreases |grid|
  {
    if |grid| < 2 {
    } else {
      assert grid[0] in grid;
      forall x | x in grid[1..] ensures x in grid { }
      SpanFrom(grid[1..], u, u', v);
    }
  }

  /** Covering [u, v) in addition to other points adds its cells. */
  lemma {:induction false} MeasureGrows(ivs: seq<Interval>, ivs': seq<Interval>, grid: seq<real>, u: real, v: real)
    requires forall x :: x in grid ==> (Covers(ivs', x) <==> Covers(ivs, x) || u <= x < v)
    requires forall x :: x in grid && u <= x < v ==> !Covers(ivs, x)
    ensures Measure(ivs', grid) == Measure(ivs, grid) + Span(grid, u, v)
    decreases |grid|
  {
    if |grid| < 2 {
    } else {
      assert grid[0] in grid;
      MeasureGrows(ivs, ivs', grid[1..], u, v);
    }
  }

  lemma {:induction false} MeasureSame(ivs: seq<Interval>, ivs': seq<Interval>, grid: seq<real>)
    requires forall x :: x in grid ==> (Covers(ivs', x) <==> Covers(ivs, x))
    ensures Measure(ivs', grid) == Measure(ivs, grid)
    decreases |grid|
  {
    if |grid| < 2 {
    } else {
      assert grid[0] in grid;
      MeasureSame(ivs, ivs', grid[1..]);
    }
  }

  lemma {:induction false} CoversOneMore(ivs: seq<Interval>, iv: Interval, x: real)
    ensures Covers(ivs + [iv], x) <==> Covers(ivs, x) || iv.lo <= x < iv.hi
  {
    assert iv in ivs + [iv];
    forall i | i in ivs ensures i in ivs + [iv] { }
  }

  /** The stretch from lo to hi is covered by `done` without a gap, and nothing in `done` goes beyond. */
  ghost predicate Swept(done: seq<Interval>, lo: real, hi: real) {
    && lo <= hi && (forall x :: lo <= x < hi ==> Covers(done, x))
    && forall iv :: iv in done ==> iv.hi <= hi
  }

  lemma {:induction false} NotBeyond(done: seq<Interval>, lo: real, hi: real, x: real)
    requires Swept(done, lo, hi) && x >= hi
    ensures !Covers(done, x)
  {
  }

  /** An interval that touches the stretch makes it longer by what it has beyond. */
  lemma {:induction false} Extend(done: seq<Interval>, iv: Interval, lo: real, hi: real, grid: seq<real>)
    requires Swept(done, lo, hi) && lo <= iv.lo <= hi && Increasing(grid) && hi in grid && iv.hi in grid
    ensures var hi' := if iv.hi > hi then iv.hi else hi;
            Swept(done + [iv], lo, hi') && Measure(done + [iv], grid) == Measure(done, grid) + (hi' - hi)
  {
    var hi' := if iv.hi > hi then iv.hi else hi;
    forall x ensures Covers(done + [iv], x) <==> Covers(done, x) || iv.lo <= x < iv.hi { CoversOneMore(done, iv, x); }
    forall x | hi <= x ensures !Covers(done, x) { NotBeyond(done, lo, hi, x); }
    MeasureGrows(done, done + [iv], grid, hi, hi');
    SpanIs(grid, hi, hi');
  }

  /** An interval behind the stretch begins a new one. */
  lemma {:induction false} StartNew(done: seq<Interval>, iv: Interval, lo: real, hi: real, grid: seq<real>)
    requires Swept(done, lo, hi) && hi < iv.lo <= iv.hi && Increasing(grid) && iv.lo in grid && iv.hi in grid
    ensures Swept(done + [iv], iv.lo, iv.hi) && Measure(done + [iv], grid) == Measure(done, grid) + (iv.hi - iv.lo)
  {
    forall x ensures Covers(done + [iv], x) <==> Covers(done, x) || iv.lo <= x < iv.hi { CoversOneMore(done, iv, x); }
    forall x | hi <= x ensures !Covers(done, x) { NotBeyond(done, lo, hi, x); }
    MeasureGrows(done, done + [iv], grid, iv.lo, iv.hi);
    SpanIs(grid, iv.lo, iv.hi);
  }

  /** Intervals that the sweep can take from lo on. */
  predicate Ready(ivs: seq<Interval>, lo: real, grid: seq<real>) {
    Proper(ivs) && Within(ivs, grid) && SortedByLo(ivs) && forall iv :: iv in ivs ==> iv.lo >= lo
  }

  lemma {:induction false} ReadyRest(ivs: seq<Interval>, lo: real, grid: seq<real>)
    requires Ready(ivs, lo, grid) && ivs != []
    ensures ivs[0] in ivs && Ready(ivs[1..], lo, grid) && Ready(ivs[1..], ivs[0].lo, grid)
  {
    forall iv | iv in ivs[1..] ensures iv in ivs && iv.lo >= ivs[0].lo { }
  }

  lemma {:induction false} SweepMeasures(done: seq<Interval>, ivs: seq<Interval>, all: seq<Interval>,
                                         lo: real, hi: real, total: real, grid: seq<real>)
    requires Swept(done, lo, hi) && total + (hi - lo) == Measure(done, grid) && hi in grid && all == done + ivs
    requires Increasing(grid) && Ready(ivs, lo, grid)
    ensures Sweep(ivs, lo, hi, total) == Measure(all, grid)
    decreases |ivs|
  {
    if ivs == [] {
      AppendNothing(done);
    } else {
      var iv, rest := ivs[0], ivs[1..];
      ReadyRest(ivs, lo, grid);
      assert all == (done + [iv]) + rest;
      if iv.lo <= hi {
        var hi' := if iv.hi > hi then iv.hi else hi;
        Extend(done, iv, lo, hi, grid);
        assert Sweep(ivs, lo, hi, total) == Sweep(rest, lo, hi', total);
        SweepMeasures(done + [iv], rest, all, lo, hi', total, grid);
      } else {
        StartNew(done, iv, lo, hi, grid);
        assert Sweep(ivs, lo, hi, total) == Sweep(rest, iv.lo, iv.hi, total + (hi - lo));
        SweepMeasures(done + [iv], rest, all, iv.lo, iv.hi, total + (hi - lo), grid);
      }
    }
  }

  lemma {:induction false} MeasureNothing(grid: seq<real>)
    ensures Measure([], grid) == 0.0
    decreases |grid|
  {
    if |grid| < 2 {
    } else {
      MeasureNothing(grid[1..]);
    }
  }

  /** Whatever order by lower ends the sort produced, the sweep measures what is covered. */
  lemma {:induction false} UnionMeasures(sorted: seq<Interval>, grid: seq<real>)
    requires SortedByLo(sorted) && Proper(sorted) && Within(sorted, grid) && Increasing(grid)
    ensures UnionOf(sorted) == Measure(sorted, grid)
  {
    if sorted == [] {
      MeasureNothing(grid);
    } else {
      var iv := sorted[0];
      assert iv in sorted;
      assert Swept([], iv.lo - 1.0, iv.lo - 1.0);
      StartNew([], iv, iv.lo - 1.0, iv.lo - 1.0, grid);
      MeasureNothing(grid);
      AppendNothing([iv]);
      assert Ready(sorted, iv.lo, grid);
      ReadyRest(sorted, iv.lo, grid);
      HeadTail(sorted);
      SweepMeasures([iv], sorted[1..], sorted, iv.lo, iv.hi, 0.0, grid);
    }
  }

  // ---- Sorting ----

  lemma {:induction false} InsertSorts(iv: Interval, s: seq<Interval>)
    requires SortedByLo(s)
    ensures SortedByLo(Insert(iv, s)) && forall i :: i in Insert(iv, s) <==> i == iv || i in s
  {
    if s != [] && iv.lo >= s[0].lo {
      InsertSorts(iv, s[1..]);
      HeadTail(s);
      var r := Insert(iv, s[1..]);
      forall i | i in r ensures i.lo >= s[0].lo { }
      assert ([s[0]] + r)[1..] == r;
    }
  }

  lemma {:induction false} SortSorts(ivs: seq<Interval>)
    ensures SortedByLo(Sort(ivs)) && forall i :: i in Sort(ivs) <==> i in ivs
  {
    if ivs == [] {
    } else {
      var n := |ivs| - 1;
      SortSorts(ivs[..n]);
      InsertSorts(ivs[n], Sort(ivs[..n]));
      assert ivs == ivs[..n] + [ivs[n]];
    }
  }

  lemma {:induction false} SameCover(ivs: seq<Interval>, ivs': seq<Interval>, x: real)
    requires forall i :: i in ivs <==> i in ivs'
    ensures Covers(ivs, x) <==> Covers(ivs', x)
  {
  }

  /** The computed length is the length of what is covered, on every grid with the intervals' ends. */
  lemma {:induction false} UnionLenMeasures(ivs: seq<Interval>, grid: seq<real>)
    requires Proper(ivs) && Within(ivs, grid) && Increasing(grid)
    ensures UnionLen(ivs) == Measure(ivs, grid)
  {
    SortSorts(ivs);
    UnionMeasures(Sort(ivs), grid);
    forall x ensures Covers(Sort(ivs), x) <==> Covers(ivs, x) { SameCover(Sort(ivs), ivs, x); }
    MeasureSame(ivs, Sort(ivs), grid);
  }

  // ---- A grid for any points ----

  function InsertPoint(x: real, grid: seq<real>): seq<real> {
    if grid == [] || x < grid[0] then [x] + grid
    else if x == grid[0] then grid
    else [grid[0]] + InsertPoint(x, grid[1..])
  }

  lemma {:induction false} ConsIncreasing(x: real, r: seq<real>)
    requires Increasing(r) && forall y :: y in r ==> y > x
    ensures Increasing([x] + r)
  {
    var g := [x] + r;
    forall i, j | 0 <= i < j < |g| ensures g[i] < g[j] {
      assert g[j] == r[j - 1] && r[j - 1] in r;
      if i > 0 { assert g[i] == r[i - 1]; }
    }
  }

  lemma {:induction false} InsertPointIs(x: real, grid: seq<real>)
    requires Increasing(grid)
    ensures Increasing(InsertPoint(x, grid)) && forall y :: y in InsertPoint(x, grid) <==> y == x || y in grid
  {
    if grid != [] && x > grid[0] {
      InsertPointIs(x, grid[1..]);
      HeadTail(grid);
      var r := InsertPoint(x, grid[1..]);
      forall y | y in r ensures y > grid[0] { }
      ConsIncreasing(grid[0], r);
    }
  }

  function GridOf(ivs: seq<Interval>, grid: seq<real>): seq<real> {
    if ivs == [] then grid else GridOf(ivs[1..], InsertPoint(ivs[0].hi, InsertPoint(ivs[0].lo, grid)))
  }

  lemma {:induction false} GridHasEnds(ivs: seq<Interval>, grid: seq<real>)
    requires Increasing(grid)
    ensures Increasing(GridOf(ivs, grid)) && Within(ivs, GridOf(ivs, grid))
    ensures forall x :: x in grid ==> x in GridOf(ivs, grid)
    decreases |ivs|
  {
    if ivs == [] {
    } else {
      var g := InsertPoint(ivs[0].lo, grid);
      InsertPointIs(ivs[0].lo, grid);
      InsertPointIs(ivs[0].hi, g);
      GridHasEnds(ivs[1..], InsertPoint(ivs[0].hi, g));
      HeadTail(ivs);
    }
  }

  /** The length depends on the points covered only: intervals may be reordered, repeated or split. */
  lemma {:induction false} SamePointsSameLength(ivs: seq<Interval>, ivs': seq<Interval>)
    requires Proper(ivs) && Proper(ivs') && forall x :: Covers(ivs, x) <==> Covers(ivs', x)
    ensures UnionLen(ivs) == UnionLen(ivs')
  {
    var g := GridOf(ivs, []);
    GridHasEnds(ivs, []);
    GridHasEnds(ivs', g);
    var grid := GridOf(ivs', g);
    UnionLenMeasures(ivs, grid);
    UnionLenMeasures(ivs', grid);
    MeasureSame(ivs, ivs', grid);
  }

  /** Cutting an interval at a point between its ends covers the same points. */
  lemma {:induction false} SplitCovers(a: seq<Interval>, iv: Interval, m: real, b: seq<Interval>, x: real)
    requires iv.lo <= m <= iv.hi
    ensures Covers(a + [iv] + b, x) <==> Covers(a + [Interval(iv.lo, m), Interval(m, iv.hi)] + b, x)
  {
    var p, q := Interval(iv.lo, m), Interval(m, iv.hi);
    assert iv in a + [iv] + b && p in a + [p, q] + b && q in a + [p, q] + b;
    forall i | i in a || i in b ensures i in a + [iv] + b && i in a + [p, q] + b { }
  }

  // ---- Horizontal borders ----

  datatype HSeg = HSeg(x0: real, x1: real, y: real)

  function Max(a: real, b: real): real {
    if a > b then a else b
  }

  function Min(a: real, b: real): real {
    if a < b then a else b
  }

  predicate Near(h: HSeg, y: real) {
    -3.0 <= h.y - y <= 3.0
  }

  function Clip(hsegs: seq<HSeg>, y: real, x0: real, x1: real): seq<Interval> {
    if hsegs == [] then []
    else
      var h := hsegs[0];
      var lo, hi := Max(h.x0, x0), Min(h.x1, x1);
      (if Near(h, y) && hi > lo then [Interval(lo, hi)] else []) + Clip(hsegs[1..], y, x0, x1)
  }

  /** mdHasHBorder: enough of the stretch from x0 to x1 is ruled. */
  predicate HasHBorder(hsegs: seq<HSeg>, y: real, x0: real, x1: real) {
    UnionLen(Clip(hsegs, y, x0, x1)) > (x1 - x0) * 0.6
  }

  method HasHBorderLoop(hsegs: seq<HSeg>, y: real, x0: real, x1: real) returns (r: bool)
    ensures r == HasHBorder(hsegs, y, x0, x1)
  {
    var intervals: seq<Interval> := [];
    var unread := hsegs;
    AppendNothing(Clip(hsegs, y, x0, x1));
    while unread != []
      invariant intervals + Clip(unread, y, x0, x1) == Clip(hsegs, y, x0, x1)
      decreases |unread|
    {
      var h := unread[0];
      ghost var more := Clip(unread[1..], y, x0, x1);
      if Near(h, y) {
        var lo, hi := Max(h.x0, x0), Min(h.x1, x1);
        if hi > lo {
          Assoc(intervals, [Interval(lo, hi)], more);
          intervals := intervals + [Interval(lo, hi)];
        }
      }
      AppendNothing(more);
      unread := unread[1..];
    }
    AppendNothing(intervals);
    var len := UnionLenLoop(intervals);
    return len > (x1 - x0) * 0.6;
  }

  /** Some ruling line near y has the point x. */
  ghost predicate Ruled(hsegs: seq<HSeg>, y: real, x: real) {
    exists h :: h in hsegs && Near(h, y) && h.x0 <= x < h.x1
  }

  lemma {:induction false} ClipCovers(hsegs: seq<HSeg>, y: real, x0: real, x1: real, x: real)
    ensures Proper(Clip(hsegs, y, x0, x1))
    ensures Covers(Clip(hsegs, y, x0, x1), x) <==> x0 <= x < x1 && Ruled(hsegs, y, x)
    decreases |hsegs|
  {
    if hsegs == [] {
    } else {
      ClipCovers(hsegs[1..], y, x0, x1, x);
      HeadTail(hsegs);
      var h := hsegs[0];
      var iv := Interval(Max(h.x0, x0), Min(h.x1, x1));
      assert Near(h, y) && iv.hi > iv.lo ==> iv in Clip(hsegs, y, x0, x1);
    }
  }

  /** The border test depends on the points that are ruled only. */
  lemma {:induction false} SameRulesSameBorder(hsegs: seq<HSeg>, hsegs': seq<HSeg>, y: real, x0: real, x1: real)
    requires forall x :: Ruled(hsegs, y, x) <==> Ruled(hsegs', y, x)
    ensures HasHBorder(hsegs, y, x0, x1) == HasHBorder(hsegs', y, x0, x1)
  {
    var a, b := Clip(hsegs, y, x0, x1), Clip(hsegs', y, x0, x1);
    forall x ensures Covers(a, x) <==> Covers(b, x) {
      ClipCovers(hsegs, y, x0, x1, x);
      ClipCovers(hsegs', y, x0, x1, x);
    }
    ClipCovers(hsegs, y, x0, x1, 0.0);
    ClipCovers(hsegs', y, x0, x1, 0.0);
    SamePointsSameLength(a, b);
  }

  /** Drawing a ruling line in two abutting pieces makes no difference. */
  lemma {:induction false} CutSameBorder(a: seq<HSeg>, h: HSeg, m: real, b: seq<HSeg>, y: real, x0: real, x1: real)
    requires h.x0 <= m <= h.x1
    ensures HasHBorder(a + [h] + b, y, x0, x1)
            == HasHBorder(a + [HSeg(h.x0, m, h.y), HSeg(m, h.x1, h.y)] + b, y, x0, x1)
  {
    var p, q := HSeg(h.x0, m, h.y), HSeg(m, h.x1, h.y);
    var whole, cut := a + [h] + b, a + [p, q] + b;
    forall x ensures Ruled(whole, y, x) <==> Ruled(cut, y, x) {
      assert h in whole && p in cut && q in cut;
      forall i | i in a || i in b ensures i in whole && i in cut { }
    }
    SameRulesSameBorder(whole, cut, y, x0, x1);
  }

  /** Nor does the order of the ruling lines, or drawing one again. */
  lemma {:induction false} SameLinesSameBorder(hsegs: seq<HSeg>, hsegs': seq<HSeg>, y: real, x0: real, x1: real)
    requires forall h :: h in hsegs <==> h in hsegs'
    ensures HasHBorder(hsegs, y, x0, x1) == HasHBorder(hsegs', y, x0, x1)
  {
    SameRulesSameBorder(hsegs, hsegs', y, x0, x1);
  }

  /** The total length of the grid cells from x0 to x1 above which a line within 3 units of y is ruled. */
  ghost function RuledLength(hsegs: seq<HSeg>, y: real, x0: real, x1: real, grid: seq<real>): real {
    if |grid| < 2 then 0.0
    else (if x0 <= grid[0] < x1 && IsRuledAt(hsegs, y, grid[0]) then grid[1] - grid[0] else 0.0)
         + RuledLength(hsegs, y, x0, x1, grid[1..])
  }

  ghost predicate IsRuledAt(hsegs: seq<HSeg>, y: real, x: real) {
    exists h :: h in hsegs && y - 3.0 <= h.y <= y + 3.0 && h.x0 <= x < h.x1
  }

  lemma {:induction false} RuledLengthIs(hsegs: seq<HSeg>, y: real, x0: real, x1: real, grid: seq<real>)
    ensures RuledLength(hsegs, y, x0, x1, grid) == Measure(Clip(hsegs, y, x0, x1), grid)
    decreases |grid|
  {
    if |grid| < 2 {
    } else {
      RuledLengthIs(hsegs, y, x0, x1, grid[1..]);
      ClipCovers(hsegs, y, x0, x1, grid[0]);
      assert Ruled(hsegs, y, grid[0]) <==> IsRuledAt(hsegs, y, grid[0]);
    }
  }

  /** A border is there exactly if more than six tenths of the stretch are ruled, whatever grid with the ends of the
      lines and of the stretch they are measured on. */
  lemma {:induction false} HasHBorderIff(hsegs: seq<HSeg>, y: real, x0: real, x1: real, grid: seq<real>)
    requires Increasing(grid) && x0 in grid && x1 in grid && forall h :: h in hsegs ==> h.x0 in grid && h.x1 in grid
    ensures HasHBorder(hsegs, y, x0, x1) <==> 10.0 * RuledLength(hsegs, y, x0, x1, grid) > 6.0 * (x1 - x0)
  {
    var ivs := Clip(hsegs, y, x0, x1);
    ClipWithin(hsegs, y, x0, x1, grid);
    ClipCovers(hsegs, y, x0, x1, 0.0);
    UnionLenMeasures(ivs, grid);
    RuledLengthIs(hsegs, y, x0, x1, grid);
  }

  lemma {:induction false} ClipWithin(hsegs: seq<HSeg>, y: real, x0: real, x1: real, grid: seq<real>)
    requires x0 in grid && x1 in grid && forall h :: h in hsegs ==> h.x0 in grid && h.x1 in grid
    ensures Within(Clip(hsegs, y, x0, x1), grid)
    decreases |hsegs|
  {
    if hsegs == [] {
    } else {
      assert hsegs[0] in hsegs;
      ClipWithin(hsegs[1..], y, x0, x1, grid);
    }
  }
}
