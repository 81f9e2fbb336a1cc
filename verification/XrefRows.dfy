/** What loading the cross-reference sections binds, told by the lines and rows of the sections. */
module XrefRows {
  import opened Bytes
  import opened Xref

  /** A line or row, the offset of its section, and the object number of that if it is an xref stream. */
  datatype Entry = Entry(row: Row, off: int, self: int)

  /** A line in use, or a row of kind 1, says where in the file its object is; a row of kind 2 says in which object
      stream, and with which index. The row of an xref stream for the stream itself has the number of the stream,
      whatever Index says. Lines that are free or have an offset up to 1, and other kinds, say nothing. */
  predicate Says(e: Entry, num: int, at: Location) {
    match e.row
    case Line(n, offset, gen, inUse) => inUse && offset > 1 && num == n && at == InFile(offset, gen)
    case Fields(n, kind, n2, n3) =>
      || (kind == 1 && n2 != e.off && num == n && at == InFile(n2, n3))
      || (kind == 1 && n2 == e.off && num == e.self && at == InFile(e.off, n3))
      || (kind == 2 && num == n && at == InStream(n2, n3))
  }

  lemma {:induction false} ClaimedSays(e: Entry, num: int, at: Location)
    ensures Claimed(e.row, e.off, e.self) == Some(Claim(num, at)) <==> Says(e, num, at)
  {
  }

  function ClaimsOf(es: seq<Entry>): seq<Claim> {
    if es == [] then []
    else (match Claimed(es[0].row, es[0].off, es[0].self) case None => [] case Some(c) => [c]) + ClaimsOf(es[1..])
  }

  function Entries(rows: seq<Row>, off: int, self: int): (es: seq<Entry>)
    ensures |es| == |rows|
  {
    seq(|rows|, i requires 0 <= i < |rows| => Entry(rows[i], off, self))
  }

  lemma {:induction false} ClaimsOfEntries(rows: seq<Row>, off: int, self: int)
    ensures ClaimsOf(Entries(rows, off, self)) == Claims(rows, off, self)
    decreases |rows|
  {
    if rows == [] {
    } else {
      ClaimsOfEntries(rows[1..], off, self);
      assert Entries(rows, off, self)[1..] == Entries(rows[1..], off, self);
    }
  }

  lemma {:induction false} ClaimsOfAppend(a: seq<Entry>, b: seq<Entry>)
    ensures ClaimsOf(a + b) == ClaimsOf(a) + ClaimsOf(b)
    decreases |a|
  {
    if a == [] {
      AppendNothing(b);
      AppendNothing(ClaimsOf(b));
    } else {
      ClaimsOfAppend(a[1..], b);
      assert (a + b)[1..] == a[1..] + b;
      var first := match Claimed(a[0].row, a[0].off, a[0].self) case None => [] case Some(c) => [c];
      Assoc(first, ClaimsOf(a[1..]), ClaimsOf(b));
    }
  }

  // ---- All entries of a file ----

  function SectionEntries(s: Section, off: int): seq<Entry> {
    Entries(s.rows, off, s.self)
  }

  /** The entries of the sections along the Prev links from `off` on, each section once. */
  function PrevEntries(file: File, off: int, read: set<int>): seq<Entry>
    decreases |file.sections.Keys - read|
  {
    if off in read then []
    else
      var s := SectionAt(file.sections, off);
      if s.Section? && s.prev.At? then
        Fewer(file.sections.Keys, read, off);
        SectionEntries(s, off) + PrevEntries(file, s.prev.offset, read + {off})
      else SectionEntries(s, off)
  }

  /** The entries of the main section, then those of its xref stream, then those of the sections behind it. */
  function AllEntries(file: File, start: int): seq<Entry> {
    var s := SectionAt(file.sections, start);
    SectionEntries(s, start) + (if s.Broken? then [] else StreamEntries(file, s) + BehindEntries(file, start, s))
  }

  function StreamEntries(file: File, s: Section): seq<Entry>
    requires s.Section?
  {
    if s.stream.At? then SectionEntries(SectionAt(file.streams, s.stream.offset), s.stream.offset) else []
  }

  /** Prev is not followed if the xref stream cannot be read. */
  predicate GoesBehind(file: File, s: Section)
    requires s.Section?
  {
    && s.prev.At?
    && (s.stream.Absent? || (s.stream.At? && SectionAt(file.streams, s.stream.offset).Section?))
  }

  function BehindEntries(file: File, start: int, s: Section): seq<Entry>
    requires s.Section?
  {
    if GoesBehind(file, s) then PrevEntries(file, s.prev.offset, {start}) else []
  }

  lemma {:induction false} PrevClaimsAre(file: File, off: int, read: set<int>)
    ensures ClaimsOf(PrevEntries(file, off, read)) == OnceClaims(file, off, read)
    decreases |file.sections.Keys - read|
  {
    if off !in read {
      var s := SectionAt(file.sections, off);
      ClaimsOfEntries(s.rows, off, s.self);
      if s.Section? && s.prev.At? {
        Fewer(file.sections.Keys, read, off);
        PrevClaimsAre(file, s.prev.offset, read + {off});
        ClaimsOfAppend(SectionEntries(s, off), PrevEntries(file, s.prev.offset, read + {off}));
      }
    }
  }

  lemma {:induction false} AllClaimsAre(file: File, start: int)
    ensures ClaimsOf(AllEntries(file, start)) == AllClaims(file, start)
  {
    var s := SectionAt(file.sections, start);
    ClaimsOfEntries(s.rows, start, s.self);
    if s.Broken? {
      ClaimsOfAppend(SectionEntries(s, start), []);
    } else {
      var b, c := StreamEntries(file, s), BehindEntries(file, start, s);
      ClaimsOfAppend(SectionEntries(s, start), b + c);
      ClaimsOfAppend(b, c);
      if s.stream.At? {
        var x := SectionAt(file.streams, s.stream.offset);
        ClaimsOfEntries(x.rows, s.stream.offset, x.self);
      }
      if s.prev.At? { PrevClaimsAre(file, s.prev.offset, {start}); }
    }
  }

  // ---- Which entry wins ----

  /** Entry k binds the number: it is the first of those with the greatest generation. */
  ghost predicate Binds(es: seq<Entry>, num: int, at: Location, k: int) {
    && 0 <= k < |es| && Says(es[k], num, at)
    && forall j, at' :: 0 <= j < |es| && Says(es[j], num, at') ==>
         Generation(at') <= Generation(at) && (j < k ==> Generation(at') < Generation(at))
  }

  lemma {:induction false} LastClaim(es: seq<Entry>, e: Entry)
    ensures var t, c := Load(map[], ClaimsOf(es)), Claimed(e.row, e.off, e.self);
            Load(map[], ClaimsOf(es + [e])) == if c.Some? then Add(t, c.value) else t
  {
    ClaimsOfAppend(es, [e]);
    assert [e][1..] == [];
    LoadAppend(map[], ClaimsOf(es), ClaimsOf([e]));
    var c := Claimed(e.row, e.off, e.self);
    if c.Some? { assert ClaimsOf([e]) == [c.value] && [c.value][1..] == []; } else { assert ClaimsOf([e]) == []; }
  }

  /** The entry that binds a number in what is loaded, or none if no entry speaks of it. */
  lemma {:induction false} FindEntry(es: seq<Entry>, num: int) returns (k: int)
    ensures var t := Load(map[], ClaimsOf(es));
            && (k >= 0 ==> num in t && Binds(es, num, t[num], k))
            && (k < 0 ==> num !in t && forall j, at :: 0 <= j < |es| ==> !Says(es[j], num, at))
    decreases |es|
  {
    if es == [] {
      k := -1;
    } else {
      var n := |es| - 1;
      var init, e := es[..n], es[n];
      assert es == init + [e];
      k := FindEntry(init, num);
      LastClaim(init, e);
      var t := Load(map[], ClaimsOf(init));
      var c := Claimed(e.row, e.off, e.self);
      forall at ensures c == Some(Claim(num, at)) <==> Says(e, num, at) { ClaimedSays(e, num, at); }
      if c.Some? && c.value.num == num && (k < 0 || Generation(c.value.at) > Generation(t[num])) {
        assert Says(es[n], num, c.value.at);
        k := n;
      }
    }
  }

  lemma {:induction false} OneBinds(es: seq<Entry>, num: int, at: Location, k: int, at': Location, k': int)
    requires Binds(es, num, at, k) && Binds(es, num, at', k')
    ensures k == k' && at == at'
  {
    assert Says(es[k], num, at) && Says(es[k'], num, at');
    assert k < k' ==> Generation(at) < Generation(at');
    assert k' < k ==> Generation(at') < Generation(at);
    assert Generation(at) <= Generation(at') && Generation(at') <= Generation(at);
  }

  /** For every file, whatever its Prev links: a number is bound to a location exactly if an entry of a section says
      so, no entry speaks of the number with a greater generation, and those before it do with smaller ones. */
  lemma {:induction false} BoundByEntry(file: File, start: int, num: int, at: Location)
    ensures var t, es := LoadXrefs(file, start).table, AllEntries(file, start);
            num in t && t[num] == at <==> exists k :: Binds(es, num, at, k)
  {
    var t, es := LoadXrefs(file, start).table, AllEntries(file, start);
    AllLoaded(file, start);
    AllClaimsAre(file, start);
    var w := FindEntry(es, num);
    forall k | Binds(es, num, at, k) ensures num in t && t[num] == at {
      assert Says(es[k], num, at);
      OneBinds(es, num, at, k, t[num], w);
    }
  }

  // ---- Which sections are read ----

  /** Offsets that the Prev links of readable sections lead along. */
  ghost predicate IsChain(file: File, offs: seq<int>) {
    && offs != []
    && forall i :: 0 <= i < |offs| - 1 ==>
         && SectionAt(file.sections, offs[i]).Section?
         && SectionAt(file.sections, offs[i]).prev == At(offs[i + 1])
  }

  /** A section that is read: the main one, its xref stream, or one along the Prev links behind it. */
  ghost predicate IsRead(file: File, start: int, s: Section, off: int) {
    var main := SectionAt(file.sections, start);
    || (off == start && s == main)
    || (main.Section? && main.stream == At(off) && s == SectionAt(file.streams, off))
    || (main.Section? && GoesBehind(file, main) && IsBehind(file, main.prev.offset, off)
        && s == SectionAt(file.sections, off))
  }

  /** A line or row of a section that is read. */
  ghost predicate IsEntry(file: File, start: int, e: Entry) {
    exists s :: IsRead(file, start, s, e.off) && e in SectionEntries(s, e.off)
  }

  ghost predicate IsBehind(file: File, from: int, off: int) {
    exists offs :: IsChain(file, offs) && offs[0] == from && offs[|offs| - 1] == off
  }

  lemma {:induction false} ChainGrows(file: File, from: int, off: int)
    requires SectionAt(file.sections, from).Section? && SectionAt(file.sections, from).prev.At?
    requires IsBehind(file, SectionAt(file.sections, from).prev.offset, off)
    ensures IsBehind(file, from, off)
  {
    var next := SectionAt(file.sections, from).prev.offset;
    var offs :| IsChain(file, offs) && offs[0] == next && offs[|offs| - 1] == off;
    var more := [from] + offs;
    forall i | 0 <= i < |more| - 1
      ensures SectionAt(file.sections, more[i]).Section? && SectionAt(file.sections, more[i]).prev == At(more[i + 1])
    {
      if i > 0 { assert more[i] == offs[i - 1] && more[i + 1] == offs[i - 1 + 1]; }
    }
    assert IsChain(file, more) && more[0] == from && more[|more| - 1] == off;
  }

  lemma {:induction false} ChainTail(file: File, offs: seq<int>)
    requires IsChain(file, offs) && |offs| > 1
    ensures IsChain(file, offs[1..])
  {
    var rest := offs[1..];
    forall i | 0 <= i < |rest| - 1
      ensures SectionAt(file.sections, rest[i]).Section? && SectionAt(file.sections, rest[i]).prev == At(rest[i + 1])
    {
      assert rest[i] == offs[i + 1] && rest[i + 1] == offs[i + 1 + 1];
    }
  }

  /** Every entry met behind `off` is one of a section along the links. */
  lemma {:induction false} PrevEntriesAreRead(file: File, off: int, read: set<int>, e: Entry)
    requires e in PrevEntries(file, off, read)
    ensures IsBehind(file, off, e.off) && e in SectionEntries(SectionAt(file.sections, e.off), e.off)
    decreases |file.sections.Keys - read|
  {
    var s := SectionAt(file.sections, off);
    if e in SectionEntries(s, off) {
      assert IsChain(file, [off]) && [off][0] == off && [off][|[off]| - 1] == off;
    } else {
      Fewer(file.sections.Keys, read, off);
      PrevEntriesAreRead(file, s.prev.offset, read + {off}, e);
      ChainGrows(file, off, e.off);
    }
  }

  /** Every entry of a section along the links is met, if the sections read before lead into those that are. */
  lemma {:induction false} ReadArePrevEntries(file: File, offs: seq<int>, read: set<int>, e: Entry)
    requires IsChain(file, offs) && (forall i :: 0 <= i < |offs| ==> offs[i] !in read)
    requires forall i, j :: 0 <= i < j < |offs| ==> offs[i] != offs[j]
    requires e in SectionEntries(SectionAt(file.sections, offs[|offs| - 1]), offs[|offs| - 1])
    ensures e in PrevEntries(file, offs[0], read)
    decreases |offs|
  {
    if |offs| == 1 {
    } else {
      var rest := offs[1..];
      assert SectionAt(file.sections, offs[0]).prev == At(offs[0 + 1]);
      assert rest[|rest| - 1] == offs[|offs| - 1];
      ChainTail(file, offs);
      Fewer(file.sections.Keys, read, offs[0]);
      ReadArePrevEntries(file, rest, read + {offs[0]}, e);
    }
  }

  /** A chain that comes back to an offset can be cut short. */
  lemma {:induction false} ShortChain(file: File, offs: seq<int>) returns (short: seq<int>)
    requires IsChain(file, offs)
    ensures IsChain(file, short) && short[0] == offs[0] && short[|short| - 1] == offs[|offs| - 1]
    ensures forall i, j :: 0 <= i < j < |short| ==> short[i] != short[j]
    decreases |offs|
  {
    if i, j :| 0 <= i < j < |offs| && offs[i] == offs[j] {
      var cut := offs[..i] + offs[j..];
      assert cut[|cut| - 1] == offs[|offs| - 1];
      forall k | 0 <= k < |cut| - 1
        ensures SectionAt(file.sections, cut[k]).Section? && SectionAt(file.sections, cut[k]).prev == At(cut[k + 1])
      {
        if k < i {
          assert cut[k] == offs[k] && cut[k + 1] == offs[k + 1];
        } else {
          assert cut[k] == offs[k - i + j] && cut[k + 1] == offs[k - i + j + 1];
        }
      }
      short := ShortChain(file, cut);
    } else {
      short := offs;
    }
  }

  /** The entries are those of the sections that are read, and all of them. */
  lemma {:induction false} EntriesAreRead(file: File, start: int, e: Entry)
    requires e in AllEntries(file, start)
    ensures IsEntry(file, start, e)
  {
    var main := SectionAt(file.sections, start);
    if e in SectionEntries(main, start) {
      assert IsRead(file, start, main, e.off);
    } else if e in StreamEntries(file, main) {
      assert IsRead(file, start, SectionAt(file.streams, e.off), e.off);
    } else {
      PrevEntriesAreRead(file, main.prev.offset, {start}, e);
      assert IsRead(file, start, SectionAt(file.sections, e.off), e.off);
    }
  }

  /** A chain from the main section on: what follows the first step is met behind it. */
  lemma {:induction false} ChainIsMet(file: File, start: int, short: seq<int>, e: Entry)
    requires IsChain(file, short) && short[0] == start && |short| > 1
    requires forall i, j :: 0 <= i < j < |short| ==> short[i] != short[j]
    requires e in SectionEntries(SectionAt(file.sections, short[|short| - 1]), short[|short| - 1])
    ensures SectionAt(file.sections, start).Section? && SectionAt(file.sections, start).prev.At?
    ensures e in PrevEntries(file, SectionAt(file.sections, start).prev.offset, {start})
  {
    var rest := short[1..];
    assert SectionAt(file.sections, short[0]).prev == At(short[0 + 1]);
    assert rest[|rest| - 1] == short[|short| - 1];
    ChainTail(file, short);
    ReadArePrevEntries(file, rest, {start}, e);
  }

  lemma {:induction false} ReadAreEntries(file: File, start: int, s: Section, off: int, e: Entry)
    requires IsRead(file, start, s, off) && e in SectionEntries(s, off)
    ensures e in AllEntries(file, start)
  {
    var main := SectionAt(file.sections, start);
    if off == start && s == main {
    } else if main.Section? && main.stream == At(off) && s == SectionAt(file.streams, off) {
      assert e in StreamEntries(file, main);
    } else {
      assert IsChain(file, [start]) && [start][0] == start;
      ChainGrows(file, start, off);
      var offs :| IsChain(file, offs) && offs[0] == start && offs[|offs| - 1] == off;
      var short := ShortChain(file, offs);
      if |short| > 1 {
        ChainIsMet(file, start, short, e);
        assert e in BehindEntries(file, start, main);
      }
    }
  }

  /** A location is bound only if a section that is read says so, and what such a section says of a number leaves it
      bound, with at least that generation. */
  lemma {:induction false} BoundIsRead(file: File, start: int, num: int)
    ensures var t := LoadXrefs(file, start).table;
            && (num in t ==> exists e :: Says(e, num, t[num]) && IsEntry(file, start, e))
            && forall e, at :: IsEntry(file, start, e) && Says(e, num, at) ==>
                 num in t && Generation(at) <= Generation(t[num])
  {
    var t, es := LoadXrefs(file, start).table, AllEntries(file, start);
    AllLoaded(file, start);
    AllClaimsAre(file, start);
    var w := FindEntry(es, num);
    if w >= 0 {
      assert Says(es[w], num, t[num]) && es[w] in es;
      EntriesAreRead(file, start, es[w]);
      assert IsEntry(file, start, es[w]);
    }
    forall e, at | IsEntry(file, start, e) && Says(e, num, at)
      ensures num in t && Generation(at) <= Generation(t[num])
    {
      var s :| IsRead(file, start, s, e.off) && e in SectionEntries(s, e.off);
      ReadAreEntries(file, start, s, e.off, e);
      var j :| 0 <= j < |es| && es[j] == e;
      assert Says(es[j], num, at);
    }
  }

  // ---- How loading ends ----

  /** An object in an object stream has generation 0. */
  lemma {:induction false} GenerationIs(offset: int, gen: nat, stream: int, index: int)
    ensures Generation(InFile(offset, gen)) == gen && Generation(InStream(stream, index)) == 0
  {
  }

  /** A readable section whose Prev is not an integer. */
  predicate IsBad(file: File, off: int) {
    SectionAt(file.sections, off).Section? && SectionAt(file.sections, off).prev.NotInteger?
  }

  lemma {:induction false} PanicIsBehind(file: File, t: Table, off: int, read: set<int>) returns (bad: int)
    requires Once(file, t, off, read).Panic?
    ensures IsBehind(file, off, bad) && IsBad(file, bad)
    decreases |file.sections.Keys - read|
  {
    var s := SectionAt(file.sections, off);
    if s.prev.NotInteger? {
      bad := off;
      assert IsChain(file, [off]) && [off][0] == off && [off][|[off]| - 1] == off;
    } else {
      Fewer(file.sections.Keys, read, off);
      bad := PanicIsBehind(file, Load(t, SectionClaims(s, off)), s.prev.offset, read + {off});
      ChainGrows(file, off, bad);
    }
  }

  lemma {:induction false} ChainPanics(file: File, t: Table, offs: seq<int>, read: set<int>)
    requires IsChain(file, offs) && (forall i :: 0 <= i < |offs| ==> offs[i] !in read)
    requires forall i, j :: 0 <= i < j < |offs| ==> offs[i] != offs[j]
    requires IsBad(file, offs[|offs| - 1])
    ensures Once(file, t, offs[0], read).Panic?
    decreases |offs|
  {
    if |offs| == 1 {
    } else {
      var rest, s := offs[1..], SectionAt(file.sections, offs[0]);
      assert s.prev == At(offs[0 + 1]) && rest[|rest| - 1] == offs[|offs| - 1];
      ChainTail(file, offs);
      Fewer(file.sections.Keys, read, offs[0]);
      ChainPanics(file, Load(t, SectionClaims(s, offs[0])), rest, read + {offs[0]});
    }
  }

  /** Loading is an error if the main section or its xref stream cannot be read, and panics if the links come to a
      section whose Prev is not an integer. */
  lemma {:induction false} EndsIff(file: File, start: int)
    ensures var r, main := LoadXrefs(file, start), SectionAt(file.sections, start);
            && (r.Error? <==> main.Broken? || main.stream.NotInteger?
                              || (main.stream.At? && SectionAt(file.streams, main.stream.offset).Broken?))
            && (r.Panic? <==> main.Section? && GoesBehind(file, main)
                              && exists bad :: IsBehind(file, main.prev.offset, bad) && IsBad(file, bad))
  {
    var main := SectionAt(file.sections, start);
    if main.Section? && GoesBehind(file, main) {
      var more := if main.stream.At? then
                    SectionClaims(SectionAt(file.streams, main.stream.offset), main.stream.offset) else [];
      var t, off := Load(Load(map[], SectionClaims(main, start)), more), main.prev.offset;
      assert LoadXrefs(file, start) == PrevLoop(file, t, off, {});
      MainIsSettled(file, start, more);
      OnceIsNoError(file, t, off, {start});
      SameAsOnce(file, t, off, {}, {start});
      if Once(file, t, off, {start}).Panic? { var bad := PanicIsBehind(file, t, off, {start}); }
      forall bad | IsBehind(file, off, bad) && IsBad(file, bad) ensures Once(file, t, off, {start}).Panic? {
        BadPanics(file, start, t, bad);
      }
    }
  }

  lemma {:induction false} MainIsSettled(file: File, start: int, more: seq<Claim>)
    requires SectionAt(file.sections, start).Section? && SectionAt(file.sections, start).prev.At?
    ensures var main := SectionAt(file.sections, start);
            Trail(file, Load(Load(map[], SectionClaims(main, start)), more), main.prev.offset, {start})
  {
    var cs := SectionClaims(SectionAt(file.sections, start), start);
    LoadSettles(map[], cs);
    SettledStays(Load(map[], cs), cs, more);
  }

  lemma {:induction false} OnceIsNoError(file: File, t: Table, off: int, read: set<int>)
    ensures !Once(file, t, off, read).Error?
    decreases |file.sections.Keys - read|
  {
    var s := SectionAt(file.sections, off);
    if off !in read && s.Section? && s.prev.At? {
      Fewer(file.sections.Keys, read, off);
      OnceIsNoError(file, Load(t, SectionClaims(s, off)), s.prev.offset, read + {off});
    }
  }

  lemma {:induction false} BadPanics(file: File, start: int, t: Table, bad: int)
    requires SectionAt(file.sections, start).Section? && SectionAt(file.sections, start).prev.At?
    requires IsBehind(file, SectionAt(file.sections, start).prev.offset, bad) && IsBad(file, bad)
    ensures Once(file, t, SectionAt(file.sections, start).prev.offset, {start}).Panic?
  {
    ChainGrows(file, start, bad);
    var offs :| IsChain(file, offs) && offs[0] == start && offs[|offs| - 1] == bad;
    var short := ShortChain(file, offs);
    assert |short| > 1;
    ChainTail(file, short);
    assert SectionAt(file.sections, short[0]).prev == At(short[0 + 1]);
    ChainPanics(file, t, short[1..], {start});
  }
}
