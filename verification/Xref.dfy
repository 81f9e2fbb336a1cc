/** Loading the cross-reference sections of a file along its Prev links (core/parser.go; sections 7.5.4,
    7.5.6 and 7.5.8 of ISO 32000-1:2008). The sections that can be read at each offset of the file are
    given; generation numbers are not negative. */
module Xref {
  import opened Bytes

  /** XrefObject: where an object is. */
  datatype Location = InFile(offset: int, generation: nat) | InStream(stream: int, index: int)

  function Generation(x: Location): nat {
    if x.InFile? then x.generation else 0
  }

  /** A line of an xref table, or a row of an xref stream with the object number that Index gives it. */
  datatype Row =
    | Line(num: int, offset: int, gen: nat, inUse: bool)
    | Fields(num: int, kind: int, n2: int, n3: nat)

  /** The value of a link in a trailer. */
  datatype Link = Absent | NotInteger | At(offset: int)

  /** What reading a section does: its rows are loaded, and there is a trailer or an error. `self` is the
      object number of an xref stream. */
  datatype Section = Section(rows: seq<Row>, self: int, prev: Link, stream: Link) | Broken(rows: seq<Row>, self: int)

  /** The sections of a file, and the xref streams that XRefStm may point to. */
  datatype File = File(sections: map<int, Section>, streams: map<int, Section>)

  type Table = map<int, Location>

  function SectionAt(sections: map<int, Section>, off: int): Section {
    if off in sections then sections[off] else Broken([], 0)
  }

  // ---- One section ----

  datatype Claim = Claim(num: int, at: Location)

  /** What a row of the section at offset `off` claims. */
  function Claimed(row: Row, off: int, self: int): Option<Claim> {
    match row
    case Line(num, offset, gen, inUse) => if inUse && offset > 1 then Some(Claim(num, InFile(offset, gen))) else None
    case Fields(num, kind, n2, n3) =>
      if kind == 1 then Some(Claim(if n2 == off then self else num, InFile(n2, n3)))
      else if kind == 2 then Some(Claim(num, InStream(n2, n3)))
      else None
  }

  function Claims(rows: seq<Row>, off: int, self: int): seq<Claim> {
    if rows == [] then []
    else (match Claimed(rows[0], off, self) case None => [] case Some(c) => [c]) + Claims(rows[1..], off, self)
  }

  function SectionClaims(s: Section, off: int): seq<Claim> {
    Claims(s.rows, off, s.self)
  }

  /** A claim counts if there is no other or its generation is greater. */
  function Add(t: Table, c: Claim): Table {
    if c.num !in t || Generation(c.at) > Generation(t[c.num]) then t[c.num := c.at] else t
  }

  function Load(t: Table, cs: seq<Claim>): Table
    decreases |cs|
  {
    if cs == [] then t else Load(Add(t, cs[0]), cs[1..])
  }

  // ---- The chain ----

  datatype Outcome = Loaded(table: Table) | Error(table: Table) | Panic(table: Table)

  /** The loop over Prev: off is to be read, the offsets in `listed` have been listed. A later Prev that is
      not an integer fails a type assertion. */
  function PrevLoop(file: File, t: Table, off: int, listed: set<int>): Outcome
    decreases |file.sections.Keys - listed|, if off in file.sections then 1 else 0
  {
    var s := SectionAt(file.sections, off);
    var t' := Load(t, SectionClaims(s, off));
    if s.Broken? then Loaded(t')
    else match s.prev
      case Absent => Loaded(t')
      case NotInteger => Panic(t')
      case At(next) =>
        if next in listed then Loaded(t')
        else
          Fewer(file.sections.Keys, listed, next);
          PrevLoop(file, t', next, listed + {next})
  }

  lemma {:induction false} Fewer(keys: set<int>, listed: set<int>, x: int)
    requires x !in listed
    ensures x in keys ==> |keys - (listed + {x})| < |keys - listed|
    ensures x !in keys ==> keys - (listed + {x}) == keys - listed
  {
    if x in keys {
      assert keys - listed == (keys - (listed + {x})) + {x};
    }
  }

  function LoadXrefs(file: File, start: int): Outcome {
    var s := SectionAt(file.sections, start);
    var t := Load(map[], SectionClaims(s, start));
    if s.Broken? then Error(t)
    else match s.stream
      case Absent => FollowPrev(file, t, s.prev)
      case NotInteger => Error(t)
      case At(off) =>
        var x := SectionAt(file.streams, off);
        var t' := Load(t, SectionClaims(x, off));
        if x.Broken? then Error(t') else FollowPrev(file, t', s.prev)
  }

  /** The first Prev may be anything; only an integer is followed. */
  function FollowPrev(file: File, t: Table, prev: Link): Outcome {
    if prev.At? then PrevLoop(file, t, prev.offset, {}) else Loaded(t)
  }

  class Parser {
    var objectMap: Table

    constructor ()
      ensures objectMap == map[]
    {
      objectMap := map[];
    }

    /** The loops of parseXrefTable and parseXrefStream over their rows. */
    method ParseRows(rows: seq<Row>, off: int, self: int)
      modifies this
      ensures objectMap == Load(old(objectMap), Claims(rows, off, self))
    {
      var unread := rows;
      ghost var want := Load(objectMap, Claims(rows, off, self));
      while unread != []
        invariant Load(objectMap, Claims(unread, off, self)) == want
        decreases |unread|
      {
        var row := unread[0];
        ghost var more := Claims(unread[1..], off, self);
        ghost var c := Claimed(row, off, self);
        if c.Some? { assert ([c.value] + more)[1..] == more; } else { AppendNothing(more); }
        unread := unread[1..];
        match row
        case Line(num, offset, gen, inUse) =>
          if inUse && offset > 1 {
            if num !in objectMap || gen > Generation(objectMap[num]) {
              objectMap := objectMap[num := InFile(offset, gen)];
            }
          }
        case Fields(n, kind, n2, n3) =>
          var num := n;
          if kind == 1 {
            if n2 == off { num := self; }
            if num !in objectMap || n3 > Generation(objectMap[num]) {
              objectMap := objectMap[num := InFile(n2, n3)];
            }
          } else if kind == 2 {
            if num !in objectMap { objectMap := objectMap[num := InStream(n2, n3)]; }
          }
      }
    }

    method LoadAll(file: File, start: int) returns (r: Outcome)
      modifies this
      ensures r == LoadXrefs(file, start) && r.table == objectMap
    {
      objectMap := map[];
      var s := SectionAt(file.sections, start);
      ParseRows(s.rows, start, s.self);
      if s.Broken? { return Error(objectMap); }
      if s.stream.NotInteger? { return Error(objectMap); }
      if s.stream.At? {
        var x := SectionAt(file.streams, s.stream.offset);
        ParseRows(x.rows, s.stream.offset, x.self);
        if x.Broken? { return Error(objectMap); }
      }
      if !s.prev.At? { return Loaded(objectMap); }
      var off := s.prev.offset;
      var prevList: set<int> := {};
      ghost var want := PrevLoop(file, objectMap, off, {});
      while true
        invariant PrevLoop(file, objectMap, off, prevList) == want
        decreases |file.sections.Keys - prevList|, if off in file.sections then 1 else 0
      {
        var p := SectionAt(file.sections, off);
        ParseRows(p.rows, off, p.self);
        if p.Broken? { return Loaded(objectMap); }
        if p.prev.Absent? { return Loaded(objectMap); }
        if p.prev.NotInteger? { return Panic(objectMap); }
        if p.prev.offset in prevList { return Loaded(objectMap); }
        Fewer(file.sections.Keys, prevList, p.prev.offset);
        off := p.prev.offset;
        prevList := prevList + {off};
      }
    }
  }

  // ---- Which claim wins ----

  /** Claim i is the first of the greatest generation for its number. */
  predicate Wins(cs: seq<Claim>, i: nat)
    requires i < |cs|
  {
    forall j :: 0 <= j < |cs| && cs[j].num == cs[i].num ==>
      Generation(cs[j].at) <= Generation(cs[i].at) && (j < i ==> Generation(cs[j].at) < Generation(cs[i].at))
  }

  lemma {:induction false} LoadAppend(t: Table, a: seq<Claim>, b: seq<Claim>)
    ensures Load(t, a + b) == Load(Load(t, a), b)
    decreases |a|
  {
    if a == [] {
      AppendNothing(b);
    } else {
      SplitAppend(a, b, 1);
      assert (a + b)[0] == a[0];
      LoadAppend(Add(t, a[0]), a[1..], b);
    }
  }

  predicate IsWinner(cs: seq<Claim>, num: int, i: int) {
    0 <= i < |cs| && cs[i].num == num && Wins(cs, i)
  }

  lemma {:induction false} FindWinner(cs: seq<Claim>, num: int) returns (i: int)
    ensures i >= 0 ==> IsWinner(cs, num, i) && num in Load(map[], cs) && Load(map[], cs)[num] == cs[i].at
    ensures i < 0 ==> num !in Load(map[], cs) && forall j :: 0 <= j < |cs| ==> cs[j].num != num
    decreases |cs|
  {
    if cs == [] { return -1; }
    var n := |cs| - 1;
    assert cs == cs[..n] + [cs[n]];
    LoadAppend(map[], cs[..n], [cs[n]]);
    assert Load(map[], cs) == Add(Load(map[], cs[..n]), cs[n]);
    i := FindWinner(cs[..n], num);
    if cs[n].num == num && (i < 0 || Generation(cs[n].at) > Generation(cs[i].at)) { i := n; }
  }

  lemma {:induction false} OneWinner(cs: seq<Claim>, num: int, i: int, j: int)
    requires IsWinner(cs, num, i) && IsWinner(cs, num, j)
    ensures i == j
  {
  }

  /** A number is bound to a location exactly if that is the earliest claim of the greatest generation. */
  lemma {:induction false} BoundIff(cs: seq<Claim>, num: int, at: Location)
    ensures num in Load(map[], cs) && Load(map[], cs)[num] == at
            <==> exists i :: IsWinner(cs, num, i) && cs[i].at == at
  {
    var w := FindWinner(cs, num);
    forall i | IsWinner(cs, num, i) ensures w >= 0 && i == w { if w >= 0 { OneWinner(cs, num, i, w); } }
  }

  // ---- Loading again changes nothing ----

  /** Every claim has been considered. */
  predicate Settled(t: Table, cs: seq<Claim>) {
    forall c :: c in cs ==> c.num in t && Generation(c.at) <= Generation(t[c.num])
  }

  lemma {:induction false} SettledStays(t: Table, cs: seq<Claim>, more: seq<Claim>)
    requires Settled(t, cs)
    ensures Settled(Load(t, more), cs)
    decreases |more|
  {
    if more == [] {
    } else {
      SettledStays(Add(t, more[0]), cs, more[1..]);
    }
  }

  lemma {:induction false} LoadSettles(t: Table, cs: seq<Claim>)
    ensures Settled(Load(t, cs), cs)
    decreases |cs|
  {
    if cs == [] {
    } else {
      LoadSettles(Add(t, cs[0]), cs[1..]);
      SettledStays(Add(t, cs[0]), [cs[0]], cs[1..]);
      assert cs[0] in [cs[0]];
      forall c | c in cs ensures c == cs[0] || c in cs[1..] { }
    }
  }

  lemma {:induction false} LoadSettled(t: Table, cs: seq<Claim>)
    requires Settled(t, cs)
    ensures Load(t, cs) == t
    decreases |cs|
  {
    if cs == [] {
    } else {
      assert cs[0] in cs;
      LoadSettled(t, cs[1..]);
    }
  }

  // ---- Each section once ----

  /** Reads each section once: stops at an offset in `read`. */
  function Once(file: File, t: Table, off: int, read: set<int>): Outcome
    decreases |file.sections.Keys - read|
  {
    if off in read then Loaded(t)
    else
      var s := SectionAt(file.sections, off);
      var t' := Load(t, SectionClaims(s, off));
      if s.Broken? then Loaded(t')
      else match s.prev
        case Absent => Loaded(t')
        case NotInteger => Panic(t')
        case At(next) =>
          Fewer(file.sections.Keys, read, off);
          Once(file, t', next, read + {off})
  }

  /** Section `off` has been read and leads on. */
  ghost predicate Passed(file: File, t: Table, off: int) {
    && off in file.sections && file.sections[off].Section? && file.sections[off].prev.At?
    && Settled(t, SectionClaims(file.sections[off], off))
  }

  /** All of `read` has been passed, and from there the links lead into it or to `off`. */
  ghost predicate Trail(file: File, t: Table, off: int, read: set<int>) {
    forall x :: x in read ==> Passed(file, t, x) && (file.sections[x].prev.offset in read || file.sections[x].prev.offset == off)
  }

  lemma {:induction false} GoingRound(file: File, t: Table, off: int, read: set<int>, listed: set<int>)
    requires Trail(file, t, off, read) && off in read
    ensures PrevLoop(file, t, off, listed) == Loaded(t)
    decreases |file.sections.Keys - listed|
  {
    assert Passed(file, t, off);
    var s := file.sections[off];
    LoadSettled(t, SectionClaims(s, off));
    if s.prev.offset !in listed {
      assert s.prev.offset in read;
      assert Passed(file, t, s.prev.offset);
      Fewer(file.sections.Keys, listed, s.prev.offset);
      GoingRound(file, t, s.prev.offset, read, listed + {s.prev.offset});
    }
  }

  lemma {:induction false} TrailGrows(file: File, t: Table, off: int, read: set<int>)
    requires Trail(file, t, off, read) && off in file.sections
    requires file.sections[off].Section? && file.sections[off].prev.At?
    ensures Trail(file, Load(t, SectionClaims(file.sections[off], off)), file.sections[off].prev.offset, read + {off})
  {
    var cs := SectionClaims(file.sections[off], off);
    LoadSettles(t, cs);
    forall x | x in read ensures Passed(file, Load(t, cs), x) {
      assert Passed(file, t, x);
      SettledStays(t, SectionClaims(file.sections[x], x), cs);
    }
  }

  /** The list that stops the loop misses the first offsets, but all it reads twice is settled. */
  lemma {:induction false} SameAsOnce(file: File, t: Table, off: int, listed: set<int>, read: set<int>)
    requires Trail(file, t, off, read) && listed <= read + {off}
    ensures PrevLoop(file, t, off, listed) == Once(file, t, off, read)
    decreases |file.sections.Keys - read|
  {
    if off in read {
      GoingRound(file, t, off, read, listed);
    } else {
      var s := SectionAt(file.sections, off);
      var t' := Load(t, SectionClaims(s, off));
      if s.Section? && s.prev.At? {
        var next := s.prev.offset;
        TrailGrows(file, t, off, read);
        if next !in listed {
          Fewer(file.sections.Keys, read, off);
          SameAsOnce(file, t', next, listed + {next}, read + {off});
        } else {
          assert next in read + {off};
        }
      }
    }
  }

  // ---- The theorem ----

  /** The claims met when each section behind `off` is read once. */
  function OnceClaims(file: File, off: int, read: set<int>): seq<Claim>
    decreases |file.sections.Keys - read|
  {
    if off in read then []
    else
      var s := SectionAt(file.sections, off);
      if s.Section? && s.prev.At? then
        Fewer(file.sections.Keys, read, off);
        SectionClaims(s, off) + OnceClaims(file, s.prev.offset, read + {off})
      else SectionClaims(s, off)
  }

  lemma {:induction false} OnceLoads(file: File, t: Table, off: int, read: set<int>)
    ensures Once(file, t, off, read).table == Load(t, OnceClaims(file, off, read))
    decreases |file.sections.Keys - read|
  {
    if off !in read {
      var s := SectionAt(file.sections, off);
      if s.Section? && s.prev.At? {
        Fewer(file.sections.Keys, read, off);
        OnceLoads(file, Load(t, SectionClaims(s, off)), s.prev.offset, read + {off});
        LoadAppend(t, SectionClaims(s, off), OnceClaims(file, s.prev.offset, read + {off}));
      }
    }
  }

  /** The claims of a file in their order of precedence: the main section, its xref stream, then every other
      section along the Prev links, each one once. */
  function AllClaims(file: File, start: int): seq<Claim> {
    var s := SectionAt(file.sections, start);
    SectionClaims(s, start) + (if s.Broken? then [] else StreamClaims(file, s) + PrevClaims(file, start, s))
  }

  function StreamClaims(file: File, s: Section): seq<Claim>
    requires s.Section?
  {
    if s.stream.At? then SectionClaims(SectionAt(file.streams, s.stream.offset), s.stream.offset) else []
  }

  function PrevClaims(file: File, start: int, s: Section): seq<Claim>
    requires s.Section?
  {
    if s.stream.NotInteger? || (s.stream.At? && SectionAt(file.streams, s.stream.offset).Broken?) || !s.prev.At? then []
    else OnceClaims(file, s.prev.offset, {start})
  }

  lemma {:induction false} PrevLoads(file: File, start: int, t: Table)
    requires start in file.sections && file.sections[start].Section?
    requires Settled(t, SectionClaims(file.sections[start], start)) && file.sections[start].prev.At?
    ensures var off := file.sections[start].prev.offset;
            PrevLoop(file, t, off, {}).table == Load(t, OnceClaims(file, off, {start}))
  {
    var off := file.sections[start].prev.offset;
    SameAsOnce(file, t, off, {}, {start});
    OnceLoads(file, t, off, {start});
  }

  lemma {:induction false} AllLoaded(file: File, start: int)
    ensures LoadXrefs(file, start).table == Load(map[], AllClaims(file, start))
  {
    var s := SectionAt(file.sections, start);
    var a := SectionClaims(s, start);
    if s.Broken? {
      AppendNothing(a);
    } else {
      var t := Load(map[], a);
      var b, c := StreamClaims(file, s), PrevClaims(file, start, s);
      LoadAppend(map[], a, b + c);
      LoadAppend(t, b, c);
      LoadSettles(map[], a);
      SettledStays(t, a, b);
      if s.prev.At? { PrevLoads(file, start, Load(t, b)); }
    }
  }

  /** For every file, whatever its Prev links (cycles included): loading ends, and an object number is bound
      to a location exactly if that is the earliest claim of the greatest generation for it. */
  lemma {:induction false} EarliestOfGreatest(file: File, start: int, num: int, at: Location)
    ensures num in LoadXrefs(file, start).table && LoadXrefs(file, start).table[num] == at
            <==> exists i :: IsWinner(AllClaims(file, start), num, i) && AllClaims(file, start)[i].at == at
  {
    AllLoaded(file, start);
    BoundIff(AllClaims(file, start), num, at);
  }
}
