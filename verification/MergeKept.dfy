/** What mergeContents (creator/block.go) keeps: the bindings of the page, and the meaning of the operations that
    are added to it. */
module MergeKept {
  import opened Bytes
  import Objects
  import opened ContentStream
  import opened Merge
  import opened MergePanics

  /** Nothing that could be looked up is lost or changed. */
  ghost predicate Kept(t: Table, t': Table) {
    forall key :: Lookup(t, key).Some? ==> Lookup(t', key) == Lookup(t, key)
  }

  // ---- What the page keeps ----

  /** The binding that registering a name without a resource overwrites with nil. */
  function Overwritten(key: Key): Option<Key> {
    if key.kind.XObject? || key.kind.GState? then Some(Key(key.kind, []))
    else if key.kind.Font? then Some(key)
    else None
  }

  lemma {:induction false} KeptTrans(a: Table, b: Table, c: Table)
    requires Kept(a, b) && Kept(b, c)
    ensures Kept(a, c)
  {
  }

  /** A bound name is registered without touching what the page has. */
  lemma {:induction false} RegisterKeeps(source: Table, st: State, key: Key)
    requires Lookup(source, key).Some?
    ensures var st' := Register(source, st, key);
            && Kept(st.table, st'.table) && key in st'.names
            && Lookup(st'.table, Key(key.kind, st'.names[key])) == Lookup(source, key)
  {
    var obj := Lookup(source, key).value;
    var c := Choice(st.table, key, obj);
    assert Stops(st.table, key, obj, c);
    var k := Key(key.kind, Candidate(key, c));
    assert Lookup(st.table, k).Some? ==> Lookup(st.table, k).value == obj;
  }

  /** An operation that costs the page no binding: its name is bound in the added resources, or what would be
      overwritten is not bound in the page. */
  predicate IsHarmless(source: Table, table: Table, op: Operation) {
    Used(op).Some? ==>
      var key := Used(op).value;
      Lookup(source, key).Some? || Overwritten(key).None? || Lookup(table, Overwritten(key).value).None?
  }

  predicate AllHarmless(source: Table, table: Table, ops: seq<Operation>) {
    forall op :: op in ops ==> IsHarmless(source, table, op)
  }

  lemma {:induction false} MeetKeeps(source: Table, table: Table, st: State, op: Operation)
    requires IsHarmless(source, table, op) && Kept(table, st.table)
    ensures Kept(table, Meet(source, st, op).table)
  {
    if Used(op).Some? && Used(op).value !in st.names {
      var key, st' := Used(op).value, Meet(source, st, op);
      if Lookup(source, key).Some? {
        RegisterKeeps(source, st, key);
        KeptTrans(table, st.table, st'.table);
      } else if Overwritten(key).Some? {
        assert st'.table == st.table[Overwritten(key).value := Nil];
      }
    }
  }

  lemma {:induction false} KeepsFrom(source: Table, table: Table, st: State, ops: seq<Operation>)
    requires Kept(table, st.table) && AllHarmless(source, table, ops)
    ensures Kept(table, MergeState(source, st, ops).table)
    decreases |ops|
  {
    if ops == [] {
    } else {
      assert IsHarmless(source, table, ops[0]);
      MeetKeeps(source, table, st, ops[0]);
      KeepsFrom(source, table, Meet(source, st, ops[0]), ops[1..]);
    }
  }

  /** The operations that were added. */
  ghost function Added(source: Table, table: Table, ops: seq<Operation>): (added: seq<Operation>)
    ensures var r := Merged(source, table, ops);
            && |added| == |r.ops| <= |ops| && added == ops[..|added|] && (!r.panicked ==> added == ops)
            && r.table == MergeState(source, State(table, map[]), added).table
            && r.ops == MergeOps(source, State(table, map[]), added)
  {
    OutcomeIs(source, State(table, map[]), ops);
    WholeSlice(ops);
    ops[..|Merged(source, table, ops).ops|]
  }

  /** Harmless operations leave all the page's names bound as they were. */
  lemma {:induction false} MergeKeeps(source: Table, table: Table, ops: seq<Operation>)
    requires AllHarmless(source, table, Added(source, table, ops))
    ensures Kept(table, Merged(source, table, ops).table)
  {
    KeepsFrom(source, table, State(table, map[]), Added(source, table, ops));
  }

  lemma {:induction false} HarmlessUse(source: Table, table: Table, ops: seq<Operation>, op: Operation)
    requires Used(op).Some? && Uses(ops, Used(op).value) && AllHarmless(source, table, ops)
    ensures IsHarmless(source, table, op)
  {
    var j :| 0 <= j < |ops| && Used(ops[j]) == Used(op);
    assert IsHarmless(source, table, ops[j]);
  }

  lemma {:induction false} HarmAt(source: Table, table: Table, ops: seq<Operation>, i: nat)
    requires i < |ops| && !IsHarmless(source, table, ops[i]) && AllHarmless(source, table, ops[..i])
    ensures var lost := Overwritten(Used(ops[i]).value).value;
            && Lookup(table, lost).Some?
            && Lookup(MergeState(source, State(table, map[]), ops[..i + 1]).table, lost).None?
  {
    var st, key := MergeState(source, State(table, map[]), ops[..i]), Used(ops[i]).value;
    if key in st.names {
      NamesAreUsed(source, State(table, map[]), ops[..i], key);
      HarmlessUse(source, table, ops[..i], ops[i]);
      assert false;
    }
    MergeStep(source, State(table, map[]), ops, i);
    assert Meet(source, st, ops[i]).table == st.table[Overwritten(key).value := Nil];
  }

  lemma {:induction false} SomeFirstHarm(source: Table, table: Table, ops: seq<Operation>) returns (i: nat)
    requires !AllHarmless(source, table, ops)
    ensures i < |ops| && !IsHarmless(source, table, ops[i]) && AllHarmless(source, table, ops[..i])
  {
    i := 0;
    while i < |ops| && IsHarmless(source, table, ops[i])
      invariant i <= |ops| && forall j :: 0 <= j < i ==> IsHarmless(source, table, ops[j])
    {
      i := i + 1;
    }
  }

  /** A shorter list is merged as the longer one is up to its end. */
  lemma {:induction false} MergedPrefix(source: Table, st: State, ops: seq<Operation>, n: nat)
    requires n <= |ops|
    ensures var r, m := MergeFrom(source, st, ops), MergeFrom(source, st, ops[..n]);
            m.ops == r.ops[..Min(n, |r.ops|)] && (|r.ops| <= n ==> m.table == r.table)
    decreases n
  {
    if n == 0 || MeetPanics(source, st, ops[0]) {
    } else {
      var st', rest := Meet(source, st, ops[0]), ops[1..];
      MergedPrefix(source, st', rest, n - 1);
      assert ops[..n][0] == ops[0] && ops[..n][1..] == rest[..n - 1];
    }
  }

  /** The first operation that is added and is not harmless takes a binding from the page. */
  lemma {:induction false} FirstHarm(source: Table, table: Table, ops: seq<Operation>, i: nat)
    requires i < |Added(source, table, ops)| && !IsHarmless(source, table, ops[i])
    requires AllHarmless(source, table, ops[..i])
    ensures var lost := Overwritten(Used(ops[i]).value).value;
            Lookup(table, lost).Some? && Lookup(Merged(source, table, ops[..i + 1]).table, lost).None?
  {
    HarmAt(source, table, ops, i);
    MergedPrefix(source, State(table, map[]), ops, i + 1);
    assert ops[..i + 1] == Added(source, table, ops[..i + 1]);
  }

  /** The page's names are bound as they were after each operation that is added, exactly if all that are added
      are harmless. */
  lemma {:induction false} KeptThroughoutIff(source: Table, table: Table, ops: seq<Operation>)
    ensures (forall n :: 0 <= n <= |ops| ==> Kept(table, Merged(source, table, ops[..n]).table))
            <==> AllHarmless(source, table, Added(source, table, ops))
  {
    var st0, added := State(table, map[]), Added(source, table, ops);
    if AllHarmless(source, table, added) {
      forall n | 0 <= n <= |ops| ensures Kept(table, Merged(source, table, ops[..n]).table) {
        MergedPrefix(source, st0, ops, n);
        assert Added(source, table, ops[..n]) == added[..Min(n, |added|)];
        MergeKeeps(source, table, ops[..n]);
      }
    } else {
      var i := SomeFirstHarm(source, table, added);
      assert added[..i] == ops[..i];
      FirstHarm(source, table, ops, i);
      assert !Kept(table, Merged(source, table, ops[..i + 1]).table);
    }
  }

  /** None of the page's objects is among the added resources of its kind. */
  ghost predicate Separate(source: Table, table: Table) {
    forall a, b :: Lookup(source, a).Some? && Lookup(table, b).Some? && a.kind == b.kind ==>
      Lookup(source, a) != Lookup(table, b)
  }

  lemma {:induction false} StaysLost(source: Table, table: Table, st: State, ops: seq<Operation>, lost: Key)
    requires Separate(source, table) && Lookup(table, lost).Some? && Lookup(st.table, lost) != Lookup(table, lost)
    ensures Lookup(MergeState(source, st, ops).table, lost) != Lookup(table, lost)
    decreases |ops|
  {
    if ops == [] {
    } else {
      var st1 := Meet(source, st, ops[0]);
      assert Lookup(st1.table, lost) != Lookup(table, lost);
      StaysLost(source, table, st1, ops[1..], lost);
    }
  }

  /** Where the page and the added resources share no objects, the page keeps its bindings exactly if all
      operations that are added are harmless. */
  lemma {:induction false} MergeKeepsIff(source: Table, table: Table, ops: seq<Operation>)
    requires Separate(source, table)
    ensures Kept(table, Merged(source, table, ops).table) <==> AllHarmless(source, table, Added(source, table, ops))
  {
    var st, added := State(table, map[]), Added(source, table, ops);
    if AllHarmless(source, table, added) {
      MergeKeeps(source, table, ops);
    } else {
      var i := SomeFirstHarm(source, table, added);
      var lost := Overwritten(Used(added[i]).value).value;
      HarmAt(source, table, added, i);
      StaysLost(source, table, MergeState(source, st, added[..i + 1]), added[i + 1..], lost);
      MergeSplit(source, st, added, i + 1);
    }
  }

  function Tf(name: Bytes): Operation {
    Operation([Objects.Name(name), Objects.Int(12)], [0x54, 0x66])
  }

  /** A turn that does not panic. */
  lemma {:induction false} MergedFirst(source: Table, st: State, op: Operation, ops: seq<Operation>)
    requires !MeetPanics(source, st, op)
    ensures var st' := Meet(source, st, op);
            var r := MergeFrom(source, st', ops);
            MergeFrom(source, st, [op] + ops) == Outcome(r.table, [Rename(st', op)] + r.ops, r.panicked)
  {
    assert ([op] + ops)[1..] == ops;
  }

  /** A font of the page that is lost: both use the name, and the added resources do not bind it. */
  lemma {:induction false} PageLosesFont(name: Bytes)
    ensures var table: Table := map[Key(Font, name) := Object(1, true)];
            var r := Merged(map[], table, [Tf(name)]);
            !r.panicked && Lookup(r.table, Key(Font, name)).None?
  {
    var table: Table := map[Key(Font, name) := Object(1, true)];
    assert Used(Tf(name)) == Some(Key(Font, name));
    MergedFirst(map[], State(table, map[]), Tf(name), []);
    assert [Tf(name)] + [] == [Tf(name)];
    assert Meet(map[], State(table, map[]), Tf(name)).table == table[Key(Font, name) := Nil];
  }

  /** Where objects are shared, a binding that was lost may come back: here /F1 is overwritten with nil, and
      is then the first free name for the object that it stood for. */
  lemma {:induction false} FontBoundAgain()
    ensures var f, f1 := [0x46], [0x46, 0x31];
            var source: Table := map[Key(Font, f) := Object(1, true)];
            var table: Table := map[Key(Font, f) := Object(2, true), Key(Font, f1) := Object(1, true)];
            var r := Merged(source, table, [Tf(f1), Tf(f)]);
            !IsHarmless(source, table, Tf(f1)) && !r.panicked && Kept(table, r.table)
  {
    var f, f1 := [0x46], [0x46, 0x31];
    var k, k1 := Key(Font, f), Key(Font, f1);
    var source: Table := map[k := Object(1, true)];
    var table: Table := map[k := Object(2, true), k1 := Object(1, true)];
    var st := State(table[k1 := Nil], map[k1 := f1]);
    assert Used(Tf(f1)) == Some(k1) && Used(Tf(f)) == Some(k);
    assert Meet(source, State(table, map[]), Tf(f1)) == st;
    assert Digits(1) == [0x31] && FontPrefix(f) == f;
    assert Candidate(k, 0) == f && Candidate(k, 1) == f1;
    assert !Stops(st.table, k, 1, 0) && Stops(st.table, k, 1, 1);
    assert Choice(st.table, k, 1) == 1;
    assert Meet(source, st, Tf(f)).table == table[k1 := Nil][k1 := Object(1, true)];
    MergedFirst(source, st, Tf(f), []);
    MergedFirst(source, State(table, map[]), Tf(f1), [Tf(f)]);
    assert [Tf(f)] + [] == [Tf(f)] && [Tf(f1)] + [Tf(f)] == [Tf(f1), Tf(f)];
  }

  // ---- What the added operations keep ----

  /** Operation op' does in the page what op does with its own resources. */
  predicate SameMeaning(source: Table, table: Table, op: Operation, op': Operation) {
    match Used(op)
    case None => op' == op
    case Some(key) =>
      && op' == Renamed(op, if Used(op').Some? then Used(op').value.name else [])
      && Used(op').Some? && Used(op').value.kind == key.kind
      && Lookup(source, key).Some? && Lookup(table, Used(op').value) == Lookup(source, key)
  }

  ghost predicate NamesStay(st: State, st': State) {
    forall k :: k in st.names ==> k in st'.names && st'.names[k] == st.names[k]
  }

  lemma {:induction false} NamesStayFrom(source: Table, st: State, ops: seq<Operation>)
    ensures NamesStay(st, MergeState(source, st, ops))
    decreases |ops|
  {
    if ops == [] {
    } else {
      NamesStayFrom(source, Meet(source, st, ops[0]), ops[1..]);
    }
  }

  /** The new name of a name met at f is that of all its later uses. */
  lemma {:induction false} NameOfUse(source: Table, st: State, ops: seq<Operation>, f: nat, i: nat, key: Key)
    requires f <= i < |ops| && Used(ops[f]) == Some(key) && Used(ops[i]) == Some(key)
    requires Lookup(source, key).Some?
    ensures var st1, st' := MergeState(source, st, ops[..f + 1]), MergeState(source, st, ops);
            && key in st1.names && |MergeOps(source, st, ops)| == |ops|
            && (SameMeaning(source, st'.table, ops[i], MergeOps(source, st, ops)[i])
                <==> Lookup(st'.table, Key(key.kind, st1.names[key])) == Lookup(source, key))
  {
    var st1, st2 := MergeState(source, st, ops[..f + 1]), MergeState(source, st, ops[..i + 1]);
    MergeStep(source, st, ops, f);
    MergeSplit(source, st, ops[..i + 1], f + 1);
    assert ops[..i + 1][..f + 1] == ops[..f + 1];
    NamesStayFrom(source, st1, ops[..i + 1][f + 1..]);
    MergeOpsAt(source, st, ops, i);
    RenameKeepsUse(ops[i], st1.names[key]);
  }

  // ---- The life of a new name ----

  /** Operation i, the first with its name, has no resource, and leaves nil under `name`. */
  ghost predicate TakesAway(source: Table, ops: seq<Operation>, name: Key, i: int) {
    && 0 <= i < |ops| && !IsBound(source, ops[i]) && !Uses(ops[..i], Used(ops[i]).value)
    && Overwritten(Used(ops[i]).value) == Some(name)
  }

  /** The name that operation i gets if it is the first with its own. */
  ghost function NewName(source: Table, table: Table, ops: seq<Operation>, i: nat): Key
    requires i < |ops| && Used(ops[i]).Some? && IsBound(source, ops[i])
  {
    var key := Used(ops[i]).value;
    var t := MergeState(source, State(table, map[]), ops[..i]).table;
    Key(key.kind, Candidate(key, Choice(t, key, Lookup(source, key).value)))
  }

  /** Operation i, the first with its name, has object `obj`, and gets `name` for it. */
  ghost predicate GivesAgain(source: Table, table: Table, ops: seq<Operation>, name: Key, obj: int, i: int) {
    && 0 <= i < |ops| && Used(ops[i]).Some? && Lookup(source, Used(ops[i]).value) == Some(obj)
    && !Uses(ops[..i], Used(ops[i]).value) && NewName(source, table, ops, i) == name
  }

  /** Operation g takes the name away, and none behind it and before n gives it again to the same object. */
  ghost predicate IsTakenAt(source: Table, table: Table, ops: seq<Operation>, name: Key, obj: int, g: int, n: int) {
    TakesAway(source, ops, name, g) && forall h :: g < h < n ==> !GivesAgain(source, table, ops, name, obj, h)
  }

  ghost predicate IsTaken(source: Table, table: Table, ops: seq<Operation>, name: Key, obj: int, f: int, n: int) {
    exists g :: f < g < n && IsTakenAt(source, table, ops, name, obj, g, n)
  }

  /** Names that have been met, and have been given a new one. */
  lemma {:induction false} UsedAreNamed(source: Table, st: State, ops: seq<Operation>, key: Key)
    requires Uses(ops, key) || key in st.names
    requires Lookup(source, key).Some? || Overwritten(key).Some?
    ensures key in MergeState(source, st, ops).names
    decreases |ops|
  {
    if ops == [] {
    } else {
      var st1 := Meet(source, st, ops[0]);
      if Used(ops[0]) != Some(key) && key !in st.names {
        var i :| 0 <= i < |ops| && Used(ops[i]) == Some(key);
        assert Used(ops[1..][i - 1]) == Some(key);
      }
      UsedAreNamed(source, st1, ops[1..], key);
    }
  }

  /** One operation: its name is registered exactly if it is the first with it. */
  lemma {:induction false} TurnAt(source: Table, table: Table, ops: seq<Operation>, i: nat, name: Key, obj: int)
    requires i < |ops|
    ensures var st0 := State(table, map[]);
            var t, t' := MergeState(source, st0, ops[..i]).table, MergeState(source, st0, ops[..i + 1]).table;
            && (TakesAway(source, ops, name, i) ==> Lookup(t', name).None?)
            && (GivesAgain(source, table, ops, name, obj, i) ==> Lookup(t', name) == Some(obj))
            && (!TakesAway(source, ops, name, i) && !GivesAgain(source, table, ops, name, obj, i) ==>
                  (Lookup(t', name) == Some(obj) <==> Lookup(t, name) == Some(obj)))
  {
    var st0 := State(table, map[]);
    var st, op := MergeState(source, st0, ops[..i]), ops[i];
    MergeStep(source, st0, ops, i);
    if Used(op).Some? {
      var key := Used(op).value;
      if Lookup(source, key).Some? || Overwritten(key).Some? {
        if Uses(ops[..i], key) {
          UsedAreNamed(source, st0, ops[..i], key);
        } else if key in st.names {
          NamesAreUsed(source, st0, ops[..i], key);
        }
        assert key in st.names <==> Uses(ops[..i], key);
        if key !in st.names { RegisteredAt(source, st, key, name, obj); }
      }
    }
  }

  lemma {:induction false} RegisteredAt(source: Table, st: State, key: Key, name: Key, obj: int)
    requires Lookup(source, key).Some? || Overwritten(key).Some?
    ensures var t, t' := st.table, Register(source, st, key).table;
            match Lookup(source, key)
            case None =>
              if Overwritten(key) == Some(name) then Lookup(t', name).None? else Lookup(t', name) == Lookup(t, name)
            case Some(o) =>
              if o == obj && Key(key.kind, Candidate(key, Choice(t, key, o))) == name
              then Lookup(t', name) == Some(obj)
              else Lookup(t', name) == Some(obj) <==> Lookup(t, name) == Some(obj)
  {
    if Lookup(source, key).Some? { RegisterKeeps(source, st, key); }
  }

  /** The object stays under the name up to n, unless the name is taken away and not given again. */
  lemma {:induction false} StaysUnlessTaken(source: Table, table: Table, ops: seq<Operation>, name: Key, obj: int,
                                            f: nat, n: nat)
    requires f < n <= |ops|
    requires Lookup(MergeState(source, State(table, map[]), ops[..f + 1]).table, name) == Some(obj)
    ensures Lookup(MergeState(source, State(table, map[]), ops[..n]).table, name) == Some(obj)
            <==> !IsTaken(source, table, ops, name, obj, f, n)
    decreases n
  {
    if n == f + 1 {
    } else {
      var m := n - 1;
      StaysUnlessTaken(source, table, ops, name, obj, f, m);
      TurnAt(source, table, ops, m, name, obj);
      TakenStep(source, table, ops, name, obj, f, m);
    }
  }

  lemma {:induction false} TakenStep(source: Table, table: Table, ops: seq<Operation>, name: Key, obj: int,
                                     f: nat, m: nat)
    requires f < m
    ensures IsTaken(source, table, ops, name, obj, f, m + 1)
            <==> TakesAway(source, ops, name, m)
                 || (IsTaken(source, table, ops, name, obj, f, m) && !GivesAgain(source, table, ops, name, obj, m))
  {
    if TakesAway(source, ops, name, m) {
      assert IsTakenAt(source, table, ops, name, obj, m, m + 1);
    } else {
      if IsTaken(source, table, ops, name, obj, f, m + 1) {
        var g :| f < g < m + 1 && IsTakenAt(source, table, ops, name, obj, g, m + 1);
        assert g < m;
        TakenStepAt(source, table, ops, name, obj, g, m);
      }
      if IsTaken(source, table, ops, name, obj, f, m) && !GivesAgain(source, table, ops, name, obj, m) {
        var g :| f < g < m && IsTakenAt(source, table, ops, name, obj, g, m);
        TakenStepAt(source, table, ops, name, obj, g, m);
      }
    }
  }

  lemma {:induction false} TakenStepAt(source: Table, table: Table, ops: seq<Operation>, name: Key, obj: int,
                                       g: nat, m: nat)
    requires g < m
    ensures IsTakenAt(source, table, ops, name, obj, g, m + 1)
            <==> IsTakenAt(source, table, ops, name, obj, g, m) && !GivesAgain(source, table, ops, name, obj, m)
  {
  }

  /** An operation that was added finds in the page what it found in its own resources, unless the name that it
      was given at its first use, at f, was taken away behind f and not given again. */
  lemma {:induction false} SurvivesIff(source: Table, table: Table, ops: seq<Operation>, f: nat, i: nat)
    requires f <= i < |Added(source, table, ops)| && Used(ops[f]).Some? && Used(ops[i]) == Used(ops[f])
    requires IsBound(source, ops[f]) && !Uses(ops[..f], Used(ops[f]).value)
    ensures var r, added := Merged(source, table, ops), Added(source, table, ops);
            var obj := Lookup(source, Used(ops[f]).value).value;
            SameMeaning(source, r.table, ops[i], r.ops[i])
            <==> !IsTaken(source, table, added, NewName(source, table, added, f), obj, f, |added|)
  {
    var st0, added, key := State(table, map[]), Added(source, table, ops), Used(ops[f]).value;
    var name, obj := NewName(source, table, added, f), Lookup(source, key).value;
    var st, st1 := MergeState(source, st0, added[..f]), MergeState(source, st0, added[..f + 1]);
    NameOfUse(source, st0, added, f, i, key);
    MergeStep(source, st0, added, f);
    assert added[..f] == ops[..f];
    if key in st.names { NamesAreUsed(source, st0, added[..f], key); }
    RegisterKeeps(source, st, key);
    StaysUnlessTaken(source, table, added, name, obj, f, |added|);
    WholeSlice(added);
  }

  // ---- Without knowing the names that are given ----

  /** Registering u, which the added resources do not bind, may take away a name tried for key. */
  ghost predicate Threatens(u: Key, key: Key) {
    Overwritten(u).Some? && exists i: nat :: Overwritten(u).value == Key(key.kind, Candidate(key, i))
  }

  ghost predicate IsSafe(source: Table, ops: seq<Operation>, key: Key) {
    && Lookup(source, key).Some?
    && forall op :: op in ops && !IsBound(source, op) ==> !Threatens(Used(op).value, key)
  }

  lemma {:induction false} TakingThreatens(source: Table, table: Table, ops: seq<Operation>, f: nat, g: int)
    requires f < |ops| && Used(ops[f]).Some? && IsBound(source, ops[f])
    requires TakesAway(source, ops, NewName(source, table, ops, f), g)
    ensures ops[g] in ops && !IsBound(source, ops[g]) && Threatens(Used(ops[g]).value, Used(ops[f]).value)
  {
  }

  /** An operation finds in the page what it found in its own resources, whatever other operations do, if its
      name is bound and no unbound name threatens it. */
  lemma {:induction false} BoundSurvives(source: Table, table: Table, ops: seq<Operation>, i: nat)
    requires i < |Merged(source, table, ops).ops| && i < |ops|
    requires Used(ops[i]).Some? ==> IsSafe(source, ops, Used(ops[i]).value)
    ensures SameMeaning(source, Merged(source, table, ops).table, ops[i], Merged(source, table, ops).ops[i])
  {
    var st0, added := State(table, map[]), Added(source, table, ops);
    if Used(ops[i]).Some? {
      var key := Used(ops[i]).value;
      assert Used(ops[..i + 1][i]) == Some(key);
      var f := FirstUse(ops[..i + 1], key);
      assert ops[..i + 1][..f] == ops[..f] && ops[..i + 1][f] == ops[f];
      SurvivesIff(source, table, ops, f, i);
      assert IsSafe(source, added, key);
      forall g ensures !TakesAway(source, added, NewName(source, table, added, f), g) {
        if TakesAway(source, added, NewName(source, table, added, f), g) {
          TakingThreatens(source, table, added, f, g);
          assert false;
        }
      }
    } else {
      MergeOpsAt(source, st0, added, i);
    }
  }

  /** When every used name is bound in the added resources, merging leaves all the page's names bound as they were,
      and every operation that is added finds in the page what it found before. On the pages that merging leaves it
      panics exactly if the empty name is used and stands for a nil stream in the page. */
  lemma {:induction false} MergeLinks(source: Table, table: Table, ops: seq<Operation>)
    requires forall op :: op in ops ==> IsBound(source, op)
    ensures var r := Merged(source, table, ops);
            && Kept(table, r.table) && |r.ops| <= |ops| && (!r.panicked ==> |r.ops| == |ops|)
            && (forall i :: 0 <= i < |r.ops| ==> SameMeaning(source, r.table, ops[i], r.ops[i]))
            && (OnlyNoName(table) ==> (r.panicked <==> LookupPanics(table, NO_NAME) && Uses(ops, NO_NAME)))
  {
    var r, added := Merged(source, table, ops), Added(source, table, ops);
    forall op | op in added ensures IsHarmless(source, table, op) { assert IsBound(source, op); }
    MergeKeeps(source, table, ops);
    forall i | 0 <= i < |r.ops| ensures SameMeaning(source, r.table, ops[i], r.ops[i]) {
      assert IsBound(source, ops[i]);
      BoundSurvives(source, table, ops, i);
    }
    if OnlyNoName(table) { BoundPanicsIff(source, table, ops); }
  }

  lemma {:induction false} BoundPanicsIff(source: Table, table: Table, ops: seq<Operation>)
    requires OnlyNoName(table) && forall op :: op in ops ==> IsBound(source, op)
    ensures Merged(source, table, ops).panicked <==> LookupPanics(table, NO_NAME) && Uses(ops, NO_NAME)
  {
    PanicsIff(source, table, ops);
    forall i | 0 <= i < |ops| ensures IsBound(source, ops[i]) { assert ops[i] in ops; }
    assert !UsesNil(source, ops);
    if LookupPanics(table, NO_NAME) && Uses(ops, NO_NAME) {
      var f := FirstUse(ops, NO_NAME);
      assert IsBound(source, ops[f]);
      NilPagePanics(source, table, ops);
    }
    if UsesNoName(source, table, ops) {
      var f :| && 0 <= f < |ops| && Used(ops[f]) == Some(NO_NAME) && !Uses(ops[..f], NO_NAME)
               && IsNilBefore(source, table, ops[..f], []);
      forall j | 0 <= j < |ops[..f]| ensures !IsNewUnbound(source, XObject, [], ops[..f][j]) {
        assert ops[..f][j] == ops[j];
      }
    }
  }

  /** A font that is lost: the page has another under its name, so it is given the next one, which a later
      operation uses without having a font for it. */
  lemma {:induction false} FontTaken()
    ensures var f, f1 := [0x46], [0x46, 0x31];
            var source: Table := map[Key(Font, f) := Object(1, true)];
            var r := Merged(source, map[Key(Font, f) := Object(2, true)], [Tf(f), Tf(f1)]);
            !r.panicked && |r.ops| == 2 && !SameMeaning(source, r.table, Tf(f), r.ops[0])
  {
    var f, f1 := [0x46], [0x46, 0x31];
    var k, k1 := Key(Font, f), Key(Font, f1);
    var source: Table := map[k := Object(1, true)];
    var table: Table := map[k := Object(2, true)];
    assert Used(Tf(f1)) == Some(k1) && Used(Tf(f)) == Some(k);
    assert Digits(1) == [0x31] && FontPrefix(f) == f;
    assert Candidate(k, 0) == f && Candidate(k, 1) == f1;
    assert !Stops(table, k, 1, 0) && Stops(table, k, 1, 1);
    assert Choice(table, k, 1) == 1;
    var st := State(table[k1 := Object(1, true)], map[k := f1]);
    assert Meet(source, State(table, map[]), Tf(f)) == st;
    assert Meet(source, st, Tf(f1)).table == st.table[k1 := Nil];
    MergedFirst(source, st, Tf(f1), []);
    MergedFirst(source, State(table, map[]), Tf(f), [Tf(f1)]);
    assert [Tf(f1)] + [] == [Tf(f1)] && [Tf(f)] + [Tf(f1)] == [Tf(f), Tf(f1)];
    RenameKeepsUse(Tf(f), f1);
  }

  // ---- The empty name ----

  lemma {:induction false} MeetsUnboundFirst(source: Table, kind: Kind, before: seq<Operation>, ops: seq<Operation>)
    requires ops != []
    ensures MeetsUnbound(source, kind, before, ops)
            <==> IsNewUnbound(source, kind, before, ops[0])
                 || MeetsUnbound(source, kind, before + [ops[0]], ops[1..])
  {
    var op, rest := ops[0], ops[1..];
    if MeetsUnbound(source, kind, before, ops) {
      var i :| 0 <= i < |ops| && IsNewUnbound(source, kind, before, ops[i]);
      UsesAppend(before, op, Used(ops[i]).value);
      if i > 0 && !IsNewUnbound(source, kind, before, op) {
        assert IsNewUnbound(source, kind, before + [op], rest[i - 1]);
      }
    }
    if MeetsUnbound(source, kind, before + [op], rest) {
      var i :| 0 <= i < |rest| && IsNewUnbound(source, kind, before + [op], rest[i]);
      UsesAppend(before, op, Used(rest[i]).value);
      assert IsNewUnbound(source, kind, before, ops[i + 1]);
    }
  }

  lemma {:induction false} EmptyNameMet(source: Table, st: State, kind: Kind, before: seq<Operation>, op: Operation)
    requires (kind.XObject? || kind.GState?) && Registered(st, kind, before)
    requires Uses(before, Key(kind, [])) || Used(op) != Some(Key(kind, []))
    ensures Lookup(Meet(source, st, op).table, Key(kind, []))
            == if IsNewUnbound(source, kind, before, op) then None else Lookup(st.table, Key(kind, []))
  {
    if Used(op).Some? && Used(op).value.kind == kind && Used(op).value !in st.names && IsBound(source, op) {
      var key := Used(op).value;
      var c := Choice(st.table, key, Lookup(source, key).value);
      assert Candidate(key, c) != [];
    }
  }

  /** The empty name is not bound after an unbound name is met, and stays as it was otherwise. */
  lemma {:induction false} EmptyNameAfter(source: Table, st: State, kind: Kind, before: seq<Operation>,
                                          ops: seq<Operation>)
    requires (kind.XObject? || kind.GState?) && Registered(st, kind, before)
    requires Uses(before, Key(kind, [])) || !Uses(ops, Key(kind, []))
    ensures Lookup(MergeState(source, st, ops).table, Key(kind, []))
            == if MeetsUnbound(source, kind, before, ops) then None else Lookup(st.table, Key(kind, []))
    decreases |ops|
  {
    if ops == [] {
    } else {
      var op, rest, st1, e := ops[0], ops[1..], Meet(source, st, ops[0]), Key(kind, []);
      MeetRegisters(source, st, kind, before, op);
      EmptyNameMet(source, st, kind, before, op);
      MeetsUnboundFirst(source, kind, before, ops);
      UsesAppend(before, op, e);
      if Uses(rest, e) { UsesTail(ops, e); }
      EmptyNameAfter(source, st1, kind, before + [op], rest);
    }
  }

  lemma {:induction false} OtherNameStays(source: Table, st: State, ops: seq<Operation>, key: Key)
    requires (key.kind.XObject? || key.kind.GState?) && key.name != [] && Lookup(st.table, key).Some?
    ensures Lookup(MergeState(source, st, ops).table, key) == Lookup(st.table, key)
    decreases |ops|
  {
    if ops == [] {
    } else {
      var st1 := Meet(source, st, ops[0]);
      if Used(ops[0]).Some? && Used(ops[0]).value !in st.names && IsBound(source, ops[0]) {
        RegisterKeeps(source, st, Used(ops[0]).value);
      }
      assert Lookup(st1.table, key) == Lookup(st.table, key);
      OtherNameStays(source, st1, ops[1..], key);
    }
  }

  lemma {:induction false} FirstName(source: Table, st: State, e: Key)
    requires (e.kind.XObject? || e.kind.GState?) && e.name == [] && Lookup(source, e).Some?
    ensures e in Register(source, st, e).names
    ensures Register(source, st, e).names[e] == []
            <==> Lookup(st.table, e).None? || Lookup(st.table, e) == Lookup(source, e)
  {
    var obj := Lookup(source, e).value;
    var c := Choice(st.table, e, obj);
    assert Stops(st.table, e, obj, 0) <==> Lookup(st.table, e).None? || Lookup(st.table, e).value == obj;
    assert c == 0 <==> Stops(st.table, e, obj, 0);
    assert Candidate(e, c) == [] <==> c == 0;
  }

  /** The empty name is given to the resource itself at its first use. */
  predicate IsEmptyNameFree(source: Table, table: Table, kind: Kind, before: seq<Operation>) {
    || (kind.GState? && MeetsUnbound(source, kind, [], before))
    || Lookup(table, Key(kind, [])).None?
    || Lookup(table, Key(kind, [])) == Lookup(source, Key(kind, []))
  }

  /** No unbound XObject is met before the empty name is, or the merge would have ended there. */
  lemma {:induction false} NoneUnboundBefore(source: Table, table: Table, ops: seq<Operation>, f: nat)
    requires f < |Merged(source, table, ops).ops| && f < |ops| && Lookup(source, NO_NAME).Some?
    requires Used(ops[f]) == Some(NO_NAME) && !Uses(ops[..f], NO_NAME)
    ensures !MeetsUnbound(source, XObject, [], ops[..f])
  {
    NoPanicBefore(source, State(table, map[]), ops, f);
    if MeetsUnbound(source, XObject, [], ops[..f]) {
      assert Candidate(NO_NAME, 0) == [];
      assert IsNilBefore(source, table, ops[..f], []) && IsFirstFree(source, table, ops, f, 0);
      HitPanics(source, table, ops, f);
    }
  }

  /** What stands under the empty name when it is first used, at f. */
  lemma {:induction false} EmptyNameAt(source: Table, table: Table, kind: Kind, ops: seq<Operation>, f: nat)
    requires (kind.XObject? || kind.GState?) && f < |Merged(source, table, ops).ops| && f < |ops|
    requires Lookup(source, Key(kind, [])).Some? && Used(ops[f]) == Some(Key(kind, []))
    requires !Uses(ops[..f], Key(kind, []))
    ensures var t, e := MergeState(source, State(table, map[]), ops[..f]).table, Key(kind, []);
            Lookup(t, e).None? || Lookup(t, e) == Lookup(source, e) <==> IsEmptyNameFree(source, table, kind, ops[..f])
  {
    assert Registered(State(table, map[]), kind, []);
    EmptyNameAfter(source, State(table, map[]), kind, [], ops[..f]);
    if kind.XObject? { NoneUnboundBefore(source, table, ops, f); }
  }

  /** An XObject or graphics state with the empty name, used first at f, is lost to the operations that are added
      exactly if it keeps its name and an unbound name is met behind f. */
  lemma {:induction false} EmptyNameSurvivesIff(source: Table, table: Table, kind: Kind, ops: seq<Operation>,
                                                f: nat, i: nat)
    requires kind.XObject? || kind.GState?
    requires Lookup(source, Key(kind, [])).Some? && f <= i < |Added(source, table, ops)|
    requires Used(ops[f]) == Some(Key(kind, [])) && Used(ops[i]) == Some(Key(kind, []))
    requires !Uses(ops[..f], Key(kind, []))
    ensures var r, added := Merged(source, table, ops), Added(source, table, ops);
            SameMeaning(source, r.table, ops[i], r.ops[i])
            <==> !(IsEmptyNameFree(source, table, kind, ops[..f])
                   && MeetsUnbound(source, kind, ops[..f + 1], added[f + 1..]))
  {
    var e, st0, added := Key(kind, []), State(table, map[]), Added(source, table, ops);
    var before, after := added[..f], added[f + 1..];
    assert before == ops[..f] && before + [ops[f]] == ops[..f + 1] == added[..f + 1];
    var st, st1 := MergeState(source, st0, before), MergeState(source, st0, added[..f + 1]);
    EmptyNameAt(source, table, kind, ops, f);
    AllRegistered(source, table, kind, added, f);
    AllRegistered(source, table, kind, added, f + 1);
    MergeStep(source, st0, added, f);
    UsesAppend(before, ops[f], e);
    EmptyNameAfter(source, st1, kind, added[..f + 1], after);
    MergeSplit(source, st0, added, f + 1);
    NameOfUse(source, st0, added, f, i, e);
    FirstName(source, st, e);
    RegisterKeeps(source, st, e);
    if st1.names[e] != [] { OtherNameStays(source, st1, after, Key(kind, st1.names[e])); }
  }

  /** An added image that is lost to a later operation whose name is not bound. */
  lemma {:induction false} UnboundTakesImage(name: Bytes)
    requires name != []
    ensures var source: Table := map[NO_NAME := Object(7, true)];
            var r := Merged(source, map[], [Do([]), Do(name)]);
            !r.panicked && |r.ops| == 2 && !SameMeaning(source, r.table, Do([]), r.ops[0])
  {
    var source: Table := map[NO_NAME := Object(7, true)];
    var ops := [Do([]), Do(name)];
    assert Used(Do([])) == Some(NO_NAME) && Used(Do(name)) == Some(Key(XObject, name));
    assert ops[..0] == [] && ops[..1] == [Do([])] && ops[1..] == [Do(name)];
    PanicsWithoutNilIff(source, map[], ops);
    assert Used(ops[0]) == Some(NO_NAME);
    EmptyNameSurvivesIff(source, map[], XObject, ops, 0, 0);
    assert IsNewUnbound(source, XObject, ops[..1], ops[1..][0]);
  }
}
