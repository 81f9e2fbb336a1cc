/** When mergeContents (creator/block.go) panics. An operation that draws an XObject which the added resources do
    not have leaves a nil stream under the empty name, and the next lookup of that name reads it. */
module MergePanics {
  import opened Bytes
  import Objects
  import opened ContentStream
  import opened Merge

  predicate IsBound(source: Table, op: Operation) {
    Used(op).Some? ==> Lookup(source, Used(op).value).Some?
  }

  predicate Uses(ops: seq<Operation>, key: Key) {
    exists i :: 0 <= i < |ops| && Used(ops[i]) == Some(key)
  }

  lemma {:induction false} UsesTail(ops: seq<Operation>, key: Key)
    requires ops != [] && Uses(ops[1..], key)
    ensures Uses(ops, key)
  {
    var i :| 0 <= i < |ops[1..]| && Used(ops[1..][i]) == Some(key);
    assert Used(ops[i + 1]) == Some(key);
  }

  lemma {:induction false} UsesAppend(before: seq<Operation>, op: Operation, key: Key)
    ensures Uses(before + [op], key) <==> Uses(before, key) || Used(op) == Some(key)
  {
    var all := before + [op];
    if Uses(before, key) {
      var i :| 0 <= i < |before| && Used(before[i]) == Some(key);
      assert all[i] == before[i];
    }
    assert all[|before|] == op;
  }

  lemma {:induction false} FirstUse(ops: seq<Operation>, key: Key) returns (f: nat)
    requires Uses(ops, key)
    ensures f < |ops| && Used(ops[f]) == Some(key) && !Uses(ops[..f], key)
  {
    f := 0;
    while f < |ops| && Used(ops[f]) != Some(key)
      invariant f <= |ops| && forall j :: 0 <= j < f ==> Used(ops[j]) != Some(key)
    {
      f := f + 1;
    }
  }

  // ---- Names that have been met ----

  /** Only names that were met have new names. */
  lemma {:induction false} NamesAreUsed(source: Table, st: State, ops: seq<Operation>, key: Key)
    requires key in MergeState(source, st, ops).names && key !in st.names
    ensures Uses(ops, key)
    decreases |ops|
  {
    if ops == [] {
    } else {
      var st1 := Meet(source, st, ops[0]);
      if key in st1.names {
        assert Used(ops[0]) == Some(key);
      } else {
        NamesAreUsed(source, st1, ops[1..], key);
        UsesTail(ops, key);
      }
    }
  }

  predicate IsNewUnbound(source: Table, kind: Kind, before: seq<Operation>, op: Operation) {
    !IsBound(source, op) && Used(op).value.kind == kind && !Uses(before, Used(op).value)
  }

  /** Some operation has a name of the kind that is not bound, and that the operations before did not have. */
  predicate MeetsUnbound(source: Table, kind: Kind, before: seq<Operation>, ops: seq<Operation>) {
    exists i :: 0 <= i < |ops| && IsNewUnbound(source, kind, before, ops[i])
  }

  /** All names of the kind that the operations have got a new name, and no others. */
  ghost predicate Registered(st: State, kind: Kind, before: seq<Operation>) {
    forall key: Key :: key.kind == kind ==> (key in st.names <==> Uses(before, key))
  }

  lemma {:induction false} MeetRegisters(source: Table, st: State, kind: Kind, before: seq<Operation>, op: Operation)
    requires (kind.XObject? || kind.GState?) && Registered(st, kind, before)
    ensures Registered(Meet(source, st, op), kind, before + [op])
  {
    forall key: Key | key.kind == kind
      ensures key in Meet(source, st, op).names <==> Uses(before + [op], key)
    {
      UsesAppend(before, op, key);
    }
  }

  /** Every XObject and every graphics state that was met has a new name. */
  lemma {:induction false} AllRegistered(source: Table, table: Table, kind: Kind, ops: seq<Operation>, n: nat)
    requires (kind.XObject? || kind.GState?) && n <= |ops|
    ensures Registered(MergeState(source, State(table, map[]), ops[..n]), kind, ops[..n])
  {
    if n == 0 {
      assert ops[..0] == [];
    } else {
      var st0 := State(table, map[]);
      AllRegistered(source, table, kind, ops, n - 1);
      MergeStep(source, st0, ops, n - 1);
      MeetRegisters(source, MergeState(source, st0, ops[..n - 1]), kind, ops[..n - 1], ops[n - 1]);
      assert ops[..n - 1] + [ops[n - 1]] == ops[..n];
    }
  }

  // ---- Where the nil streams are ----

  const NO_NAME: Key := Key(XObject, [])

  lemma {:induction false} OneMoreUnbound(source: Table, kind: Kind, ops: seq<Operation>, n: nat)
    requires n < |ops|
    ensures MeetsUnbound(source, kind, [], ops[..n + 1])
            <==> MeetsUnbound(source, kind, [], ops[..n]) || IsNewUnbound(source, kind, [], ops[n])
  {
    var a, b := ops[..n], ops[..n + 1];
    if MeetsUnbound(source, kind, [], a) {
      var i :| 0 <= i < |a| && IsNewUnbound(source, kind, [], a[i]);
      assert IsNewUnbound(source, kind, [], b[i]);
    }
    if IsNewUnbound(source, kind, [], ops[n]) { assert IsNewUnbound(source, kind, [], b[n]); }
    if MeetsUnbound(source, kind, [], b) {
      var i :| 0 <= i < |b| && IsNewUnbound(source, kind, [], b[i]);
      if i < n { assert IsNewUnbound(source, kind, [], a[i]); }
    }
  }

  lemma {:induction false} UnboundBefore(source: Table, kind: Kind, ops: seq<Operation>, op: Operation)
    requires IsNewUnbound(source, kind, [], op) && Uses(ops, Used(op).value)
    ensures MeetsUnbound(source, kind, [], ops)
  {
    var i :| 0 <= i < |ops| && Used(ops[i]) == Used(op);
    assert IsNewUnbound(source, kind, [], ops[i]);
  }

  /** A turn that does not panic adds a nil stream under the empty name, or none. */
  lemma {:induction false} NilStep(source: Table, st: State, op: Operation, key: Key)
    requires key.kind.XObject? && !MeetPanics(source, st, op)
    ensures LookupPanics(Meet(source, st, op).table, key)
            <==> LookupPanics(st.table, key)
                 || (key == NO_NAME && IsNewUnbound(source, XObject, [], op) && Used(op).value !in st.names)
  {
  }

  /** The nil streams of the page are those it had, and one under the empty name once an unbound name is met. */
  lemma {:induction false} NilAfter(source: Table, table: Table, ops: seq<Operation>, n: nat, key: Key)
    requires key.kind.XObject? && n <= |Merged(source, table, ops).ops|
    ensures n <= |ops|
    ensures LookupPanics(MergeState(source, State(table, map[]), ops[..n]).table, key)
            <==> LookupPanics(table, key) || (key == NO_NAME && MeetsUnbound(source, XObject, [], ops[..n]))
    decreases n
  {
    if n == 0 {
      assert ops[..0] == [];
    } else {
      var st0, m := State(table, map[]), n - 1;
      NilAfter(source, table, ops, m, key);
      NoPanicBefore(source, st0, ops, m);
      MergeStep(source, st0, ops, m);
      var st := MergeState(source, st0, ops[..m]);
      NilStep(source, st, ops[m], key);
      AllRegistered(source, table, XObject, ops, m);
      OneMoreUnbound(source, XObject, ops, m);
      if IsNewUnbound(source, XObject, [], ops[m]) && Used(ops[m]).value in st.names {
        UnboundBefore(source, XObject, ops[..m], ops[m]);
      }
    }
  }

  // ---- When a merge panics ----

  /** The name stands for a nil stream when the operations before have been added. */
  predicate IsNilBefore(source: Table, table: Table, before: seq<Operation>, name: Bytes) {
    LookupPanics(table, Key(XObject, name)) || (name == [] && MeetsUnbound(source, XObject, [], before))
  }

  /** Operation i has an XObject name that was not met before, and either the added resources have a nil stream
      under it, or the first of the names tried for it that is not taken stands for a nil stream. */
  ghost predicate HitsNil(source: Table, table: Table, ops: seq<Operation>, i: int) {
    && 0 <= i < |ops| && Used(ops[i]).Some? && Used(ops[i]).value.kind.XObject?
    && !Uses(ops[..i], Used(ops[i]).value)
    && var key := Used(ops[i]).value;
       || LookupPanics(source, key)
       || (Lookup(source, key).Some? &&
           exists j: nat ::
             IsNilBefore(source, table, ops[..i], Candidate(key, j)) && IsFirstFree(source, table, ops, i, j))
  }

  /** All names tried before the one with index j are taken when operation i is met. */
  ghost predicate IsFirstFree(source: Table, table: Table, ops: seq<Operation>, i: nat, j: nat)
    requires i < |ops| && Used(ops[i]).Some? && Lookup(source, Used(ops[i]).value).Some?
  {
    var key, t := Used(ops[i]).value, MergeState(source, State(table, map[]), ops[..i]).table;
    forall m: nat :: m < j ==> !Stops(t, key, Lookup(source, key).value, m)
  }

  lemma {:induction false} HitPanics(source: Table, table: Table, ops: seq<Operation>, i: nat)
    requires HitsNil(source, table, ops, i) && i <= |Merged(source, table, ops).ops|
    ensures MeetPanics(source, MergeState(source, State(table, map[]), ops[..i]), ops[i])
  {
    var key, st := Used(ops[i]).value, MergeState(source, State(table, map[]), ops[..i]);
    AllRegistered(source, table, XObject, ops, i);
    assert key !in st.names;
    if !LookupPanics(source, key) {
      var obj := Lookup(source, key).value;
      var j: nat :| IsNilBefore(source, table, ops[..i], Candidate(key, j)) && IsFirstFree(source, table, ops, i, j);
      NilAfter(source, table, ops, i, Key(XObject, Candidate(key, j)));
      assert Stops(st.table, key, obj, j);
      assert Choice(st.table, key, obj) == j;
    }
  }

  lemma {:induction false} PanicHits(source: Table, table: Table, ops: seq<Operation>)
    requires Merged(source, table, ops).panicked
    ensures HitsNil(source, table, ops, |Merged(source, table, ops).ops|)
  {
    var st0, n := State(table, map[]), |Merged(source, table, ops).ops|;
    OutcomeIs(source, st0, ops);
    var key, st := Used(ops[n]).value, MergeState(source, st0, ops[..n]);
    assert key.kind.XObject?;
    AllRegistered(source, table, XObject, ops, n);
    if !LookupPanics(source, key) {
      var c := Choice(st.table, key, Lookup(source, key).value);
      NilAfter(source, table, ops, n, Key(XObject, Candidate(key, c)));
      assert IsNilBefore(source, table, ops[..n], Candidate(key, c)) && IsFirstFree(source, table, ops, n, c);
    }
  }

  /** For all resources and operations: the merge panics exactly if some operation hits a nil stream. */
  lemma {:induction false} HitsNilIff(source: Table, table: Table, ops: seq<Operation>)
    ensures Merged(source, table, ops).panicked <==> exists i :: HitsNil(source, table, ops, i)
  {
    var st0, n := State(table, map[]), |Merged(source, table, ops).ops|;
    OutcomeIs(source, st0, ops);
    if Merged(source, table, ops).panicked { PanicHits(source, table, ops); }
    forall i | HitsNil(source, table, ops, i) ensures Merged(source, table, ops).panicked {
      if i <= n { HitPanics(source, table, ops, i); }
      if i < n { NoPanicBefore(source, st0, ops, i); }
    }
  }

  // ---- Without knowing the names that are taken ----

  /** Nil streams stand under the empty name only, as in every page that merging has left. */
  ghost predicate OnlyNoName(table: Table) {
    forall key :: LookupPanics(table, key) ==> key == NO_NAME
  }

  lemma {:induction false} OnlyNoNameStays(source: Table, table: Table, ops: seq<Operation>)
    requires OnlyNoName(table)
    ensures OnlyNoName(Merged(source, table, ops).table)
  {
    var r := Merged(source, table, ops);
    OutcomeIs(source, State(table, map[]), ops);
    forall key | LookupPanics(r.table, key) ensures key == NO_NAME { NilAfter(source, table, ops, |r.ops|, key); }
  }

  /** A used name has a nil stream in the added resources. */
  predicate UsesNil(source: Table, ops: seq<Operation>) {
    exists i :: 0 <= i < |ops| && Used(ops[i]).Some? && LookupPanics(source, Used(ops[i]).value)
  }

  /** The empty name is bound in the added resources, and when it is first used, at f, it stands for a nil stream
      in the page: it did before, or an unbound name was met. */
  predicate UsesNoName(source: Table, table: Table, ops: seq<Operation>) {
    && Lookup(source, NO_NAME).Some?
    && exists f :: && 0 <= f < |ops| && Used(ops[f]) == Some(NO_NAME) && !Uses(ops[..f], NO_NAME)
                   && IsNilBefore(source, table, ops[..f], [])
  }

  lemma {:induction false} UsesNilHits(source: Table, table: Table, ops: seq<Operation>)
    requires UsesNil(source, ops)
    ensures exists i :: HitsNil(source, table, ops, i)
  {
    var i :| 0 <= i < |ops| && Used(ops[i]).Some? && LookupPanics(source, Used(ops[i]).value);
    var f := FirstUse(ops, Used(ops[i]).value);
    assert HitsNil(source, table, ops, f);
  }

  lemma {:induction false} UsesNoNameHits(source: Table, table: Table, ops: seq<Operation>)
    requires UsesNoName(source, table, ops)
    ensures exists i :: HitsNil(source, table, ops, i)
  {
    var f :| && 0 <= f < |ops| && Used(ops[f]) == Some(NO_NAME) && !Uses(ops[..f], NO_NAME)
             && IsNilBefore(source, table, ops[..f], []);
    assert Candidate(NO_NAME, 0) == [];
    assert IsFirstFree(source, table, ops, f, 0);
    assert HitsNil(source, table, ops, f);
  }

  lemma {:induction false} HitIsNoName(source: Table, table: Table, ops: seq<Operation>, i: nat)
    requires OnlyNoName(table) && HitsNil(source, table, ops, i)
    ensures UsesNil(source, ops) || UsesNoName(source, table, ops)
  {
    var key := Used(ops[i]).value;
    if !LookupPanics(source, key) {
      var j: nat :| IsNilBefore(source, table, ops[..i], Candidate(key, j)) && IsFirstFree(source, table, ops, i, j);
      assert Candidate(key, j) == [];
      assert key == NO_NAME;
    }
  }

  /** The exact condition on the resources and operations, for every page that merging may leave. */
  lemma {:induction false} PanicsIff(source: Table, table: Table, ops: seq<Operation>)
    requires OnlyNoName(table)
    ensures Merged(source, table, ops).panicked <==> UsesNil(source, ops) || UsesNoName(source, table, ops)
  {
    HitsNilIff(source, table, ops);
    if UsesNil(source, ops) { UsesNilHits(source, table, ops); }
    if UsesNoName(source, table, ops) { UsesNoNameHits(source, table, ops); }
    forall i | HitsNil(source, table, ops, i) ensures UsesNil(source, ops) || UsesNoName(source, table, ops) {
      HitIsNoName(source, table, ops, i);
    }
  }

  ghost predicate HasNil(table: Table) {
    exists key :: LookupPanics(table, key)
  }

  /** Without nil streams at the start: exactly if the empty name is bound, and an unbound name is met before it. */
  lemma {:induction false} PanicsWithoutNilIff(source: Table, table: Table, ops: seq<Operation>)
    requires !HasNil(source) && !HasNil(table)
    ensures Merged(source, table, ops).panicked
            <==> Lookup(source, NO_NAME).Some? &&
                 exists f :: && 0 <= f < |ops| && Used(ops[f]) == Some(NO_NAME) && !Uses(ops[..f], NO_NAME)
                             && MeetsUnbound(source, XObject, [], ops[..f])
  {
    PanicsIff(source, table, ops);
  }

  // ---- Inputs that panic ----

  function Do(name: Bytes): Operation {
    Operation([Objects.Name(name)], [0x44, 0x6F])
  }

  /** An image that is not there, and then the one with the empty name. */
  lemma {:induction false} MissingThenNoName(name: Bytes)
    requires name != []
    ensures Merged(map[NO_NAME := Object(7, true)], map[], [Do(name), Do([])]).panicked
  {
    var source: Table := map[NO_NAME := Object(7, true)];
    var ops := [Do(name), Do([])];
    assert Used(Do([])) == Some(NO_NAME) && Used(Do(name)) == Some(Key(XObject, name));
    assert ops[..1] == [Do(name)];
    assert IsNewUnbound(source, XObject, [], ops[..1][0]);
    PanicsWithoutNilIff(source, map[], ops);
    assert Used(ops[1]) == Some(NO_NAME) && !Uses(ops[..1], NO_NAME);
  }

  /** On a page with a nil stream, every use of the empty name panics, although it is bound. */
  lemma {:induction false} NilPagePanics(source: Table, table: Table, ops: seq<Operation>)
    requires LookupPanics(table, NO_NAME) && Lookup(source, NO_NAME).Some? && Uses(ops, NO_NAME)
    ensures Merged(source, table, ops).panicked
  {
    var f := FirstUse(ops, NO_NAME);
    assert IsNilBefore(source, table, ops[..f], []);
    UsesNoNameHits(source, table, ops);
    HitsNilIff(source, table, ops);
  }

  /** What merging leaves of an operation whose name is not bound. */
  lemma {:induction false} UnboundBecomes(source: Table, table: Table, ops: seq<Operation>, i: nat)
    requires i < |Merged(source, table, ops).ops| && i < |ops| && IsNewUnbound(source, XObject, [], ops[i])
    ensures Used(Merged(source, table, ops).ops[i]) == Some(NO_NAME)
  {
    var st0, n := State(table, map[]), |Merged(source, table, ops).ops|;
    OutcomeIs(source, st0, ops);
    MergeOpsAt(source, st0, ops[..n], i);
    assert ops[..n][..i + 1] == ops[..i + 1] && ops[..n][i] == ops[i];
    AllRegistered(source, table, XObject, ops, i + 1);
    assert ops[..i + 1][i] == ops[i];
    UnboundName(source, st0, ops[..i + 1], Used(ops[i]).value);
    RenameKeepsUse(ops[i], []);
  }

  lemma {:induction false} RenameKeepsUse(op: Operation, name: Bytes)
    requires Used(op).Some?
    ensures Used(Renamed(op, name)) == Some(Key(Used(op).value.kind, name))
  {
  }

  lemma {:induction false} UnboundName(source: Table, st: State, ops: seq<Operation>, key: Key)
    requires key.kind.XObject? && Lookup(source, key).None?
    requires key in st.names ==> st.names[key] == []
    ensures var st' := MergeState(source, st, ops);
            key in st'.names ==> st'.names[key] == []
    decreases |ops|
  {
    if ops == [] {
    } else {
      UnboundName(source, Meet(source, st, ops[0]), ops[1..], key);
    }
  }

  /** After a merge that met an unbound XObject, merging its operations with its resources into anything panics. */
  lemma {:induction false} MergeAgainPanics(source: Table, table: Table, ops: seq<Operation>,
                                            table': Table, ops': seq<Operation>)
    requires !Merged(source, table, ops).panicked && MeetsUnbound(source, XObject, [], ops)
    requires forall op :: op in Merged(source, table, ops).ops ==> op in ops'
    ensures Merged(Merged(source, table, ops).table, table', ops').panicked
  {
    var r := Merged(source, table, ops);
    OutcomeIs(source, State(table, map[]), ops);
    WholeSlice(ops);
    NilAfter(source, table, ops, |ops|, NO_NAME);
    var i :| 0 <= i < |ops| && IsNewUnbound(source, XObject, [], ops[i]);
    UnboundBecomes(source, table, ops, i);
    assert r.ops[i] in ops';
    UsesNilHits(r.table, table', ops');
    HitsNilIff(r.table, table', ops');
  }
}
