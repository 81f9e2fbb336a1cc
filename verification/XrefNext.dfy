/** The next object offset in a file (core/parser.go), found by binary search in a list that is sorted when it
    is first needed and kept from then on. */
module XrefNext {
  import opened Bytes
  import opened Xref

  predicate Ascending(s: seq<int>) {
    forall i, j :: 0 <= i < j < |s| ==> s[i] <= s[j]
  }

  function OffsetOf(x: Location): int {
    if x.InFile? then x.offset else 0
  }

  /** The positive offsets of a table; compressed objects have none. */
  function Offsets(t: Table): set<int> {
    set e | e in t.Items && OffsetOf(e.1) > 0 :: OffsetOf(e.1)
  }

  /** r is the least of the offsets from `from` on, or 0 if there is none. */
  predicate IsNext(offsets: set<int>, from: int, r: int) {
    if r == 0 then forall o :: o in offsets ==> o < from
    else r in offsets && r >= from && forall o :: o in offsets && o >= from ==> r <= o
  }

  /** Only one number is next. */
  lemma {:induction false} NextIsUnique(t: Table, from: int, r: int, r': int)
    requires IsNext(Offsets(t), from, r) && IsNext(Offsets(t), from, r')
    ensures r == r'
  {
    forall o | o in Offsets(t) ensures o > 0 { }
  }

  function Insert(x: int, s: seq<int>): seq<int> {
    if s == [] || x <= s[0] then [x] + s else [s[0]] + Insert(x, s[1..])
  }

  lemma {:induction false} InsertSorts(x: int, s: seq<int>)
    requires Ascending(s)
    ensures Ascending(Insert(x, s)) && forall y :: y in Insert(x, s) <==> y == x || y in s
  {
    if s != [] && x > s[0] {
      InsertSorts(x, s[1..]);
      HeadTail(s);
      var r := Insert(x, s[1..]);
      forall y | y in r ensures y >= s[0] { }
      forall i, j | 0 <= i < j < |r| + 1 ensures ([s[0]] + r)[i] <= ([s[0]] + r)[j] {
        assert r[j - 1] in r;
        if i > 0 { assert ([s[0]] + r)[i] == r[i - 1]; }
      }
    }
  }

  class Finder {
    var objectMap: Table
    var sortedOffsets: seq<int>
    ghost var built: Table // the table when the list was made

    constructor (t: Table)
      ensures objectMap == t && sortedOffsets == [] && Valid()
    {
      objectMap, sortedOffsets, built := t, [], t;
    }

    ghost predicate Valid()
      reads this
    {
      && Ascending(sortedOffsets)
      && (sortedOffsets != [] ==> forall o :: o in sortedOffsets <==> o in Offsets(built))
    }

    /** The list of the positive offsets in ascending order. */
    method SortOffsets() returns (s: seq<int>)
      ensures Ascending(s) && forall o :: o in s <==> o in Offsets(objectMap)
    {
      s := [];
      var left := objectMap.Items;
      while left != {}
        invariant left <= objectMap.Items && Ascending(s)
        invariant forall o :: o in s <==> exists e :: e in objectMap.Items && e !in left && OffsetOf(e.1) > 0 && OffsetOf(e.1) == o
        decreases |left|
      {
        var e :| e in left;
        left := left - {e};
        var x := e.1;
        if OffsetOf(x) > 0 {
          InsertSorts(OffsetOf(x), s);
          s := Insert(OffsetOf(x), s);
        }
      }
    }

    /** xrefNextObjectOffset: as long as the table is the one the list was made from, the least offset of the
        table from `offset` on. */
    method NextObjectOffset(offset: int) returns (r: int)
      requires Valid()
      modifies this`sortedOffsets, this`built
      ensures Valid() && built == (if objectMap != map[] && old(sortedOffsets) == [] then objectMap else old(built))
      ensures IsNext(Offsets(if objectMap == map[] then map[] else built), offset, r)
      ensures old(sortedOffsets) == [] || old(built) == objectMap ==> IsNext(Offsets(objectMap), offset, r)
    {
      if |objectMap| == 0 { return 0; }
      if |sortedOffsets| == 0 {
        sortedOffsets := SortOffsets();
        built := objectMap;
        if |sortedOffsets| == 0 { return 0; }
      }
      var i := Search(sortedOffsets, offset);
      SearchFinds(sortedOffsets, Offsets(built), offset, i);
      return if i < |sortedOffsets| then sortedOffsets[i] else 0;
    }
  }

  lemma {:induction false} SearchFinds(s: seq<int>, offsets: set<int>, x: int, i: nat)
    requires Ascending(s) && (forall o :: o in s <==> o in offsets) && (forall o :: o in offsets ==> o > 0)
    requires i <= |s| && (forall k :: 0 <= k < i ==> s[k] < x) && (forall k :: i <= k < |s| ==> s[k] >= x)
    ensures IsNext(offsets, x, if i < |s| then s[i] else 0)
  {
    if i < |s| { assert s[i] in s; }
    forall o | o in offsets && o >= x ensures i < |s| && s[i] <= o {
      var k :| 0 <= k < |s| && s[k] == o;
    }
  }

  /** sort.Search for the first element that is not less. */
  method Search(s: seq<int>, x: int) returns (i: nat)
    requires Ascending(s)
    ensures i <= |s| && (forall k :: 0 <= k < i ==> s[k] < x) && (forall k :: i <= k < |s| ==> s[k] >= x)
  {
    var lo, hi := 0, |s|;
    while lo < hi
      invariant 0 <= lo <= hi <= |s|
      invariant (forall k :: 0 <= k < lo ==> s[k] < x) && (forall k :: hi <= k < |s| ==> s[k] >= x)
    {
      var h := (lo + hi) / 2;
      if s[h] < x { lo := h + 1; } else { hi := h; }
    }
    return lo;
  }

  /** The offsets are those in the file of the objects in the table, where they are positive. */
  lemma {:induction false} OffsetsAre(t: Table, o: int)
    ensures o in Offsets(t) <==> o > 0 && exists num, gen :: num in t && t[num] == InFile(o, gen)
  {
    if o in Offsets(t) {
      var e :| e in t.Items && OffsetOf(e.1) > 0 && OffsetOf(e.1) == o;
      assert t[e.0] == InFile(o, e.1.generation);
    }
    if o > 0 && exists num, gen :: num in t && t[num] == InFile(o, gen) {
      var num, gen :| num in t && t[num] == InFile(o, gen);
      assert (num, t[num]) in t.Items;
    }
  }
}
