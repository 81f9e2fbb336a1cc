/** mergeContents (creator/block.go): operations are added to a page together with the resources they use,
    which get new names where the page uses theirs for something else. */
module Merge {
  import opened Bytes
  import Objects
  import opened ContentStream

  // ---- Resources (model/resources.go) ----

  datatype Kind = XObject | Font | ColorSpace | Pattern | Shading | GState

  /** A name of one of the resource dictionaries. */
  datatype Key = Key(kind: Kind, name: Bytes)

  /** What a name is bound to: nothing after Set with nil, or an object, which may fail to load as a
      resource of its kind. */
  datatype Binding = Nil | Object(id: int, loads: bool)

  type Table = map<Key, Binding>

  /** Fonts, colour spaces and graphics states are returned as they are found. */
  predicate IsLoaded(kind: Kind) {
    kind.XObject? || kind.Pattern? || kind.Shading?
  }

  /** GetXObjectByName, GetFontByName and the others. */
  function Lookup(t: Table, key: Key): Option<int> {
    if key in t && t[key].Object? && (IsLoaded(key.kind) ==> t[key].loads) then Some(t[key].id) else None
  }

  /** Set with nil leaves a nil stream in the XObject dictionary, which a lookup takes for a stream and reads. */
  predicate LookupPanics(t: Table, key: Key) {
    key.kind.XObject? && key in t && t[key].Nil?
  }

  class PageResources {
    var table: Table

    constructor (t: Table)
      ensures table == t
    {
      table := t;
    }

    method Set(key: Key, b: Binding)
      modifies this
      ensures table == old(table)[key := b]
    {
      table := table[key := b];
    }
  }

  // ---- New names ----

  const ZERO: byte := 0x30
  const FONT: Bytes := [0x46, 0x6F, 0x6E, 0x74]
  const GS: Bytes := [0x47, 0x53]

  function TrimLeft(s: Bytes): Bytes {
    if s != [] && IsWhiteSpace(s[0]) then TrimLeft(s[1..]) else s
  }

  function TrimRight(s: Bytes): Bytes {
    if s != [] && IsWhiteSpace(s[|s| - 1]) then TrimRight(s[..|s| - 1]) else s
  }

  function TrimDigits(s: Bytes): Bytes {
    if s != [] && IsDecimalDigit(s[|s| - 1]) then TrimDigits(s[..|s| - 1]) else s
  }

  function FontPrefix(name: Bytes): Bytes {
    var p := TrimDigits(TrimRight(TrimLeft(name)));
    if p == [] then FONT else p
  }

  /** The names tried for a resource, in order. */
  function Candidate(key: Key, i: nat): Bytes {
    if i == 0 then key.name
    else if key.kind.Font? then FontPrefix(key.name) + Digits(i)
    else if key.kind.GState? then GS + Digits(i)
    else key.name + Repeat(ZERO, i)
  }

  /** A loop over names ends at a name that is free, or bound to the object itself. Patterns and shadings
      are loaded anew by every lookup, so that no two are ever the same. */
  predicate Stops(t: Table, key: Key, obj: int, i: nat) {
    match Lookup(t, Key(key.kind, Candidate(key, i)))
    case None => true
    case Some(o) => o == obj && !key.kind.Pattern? && !key.kind.Shading?
  }

  ghost predicate IsChoice(t: Table, key: Key, obj: int, i: nat) {
    Stops(t, key, obj, i) && forall j :: 0 <= j < i ==> !Stops(t, key, obj, j)
  }

  lemma {:induction false} CandidatesDiffer(key: Key, i: nat, j: nat)
    requires 1 <= i < j
    ensures Candidate(key, i) != Candidate(key, j)
  {
    if key.kind.Font? || key.kind.GState? {
      var p := if key.kind.Font? then FontPrefix(key.name) else GS;
      DecimalValueOfDigits(i);
      DecimalValueOfDigits(j);
      assert (p + Digits(i))[|p|..] == Digits(i) && (p + Digits(j))[|p|..] == Digits(j);
    }
  }

  /** A finite table cannot bind all candidates. */
  lemma {:induction false} SomeStops(t: Table, keys: set<Key>, key: Key, obj: int, i: nat) returns (k: nat)
    requires i >= 1
    requires forall j :: j >= i && !Stops(t, key, obj, j) ==> Key(key.kind, Candidate(key, j)) in keys
    ensures k >= i && Stops(t, key, obj, k)
    decreases |keys|
  {
    if Stops(t, key, obj, i) {
      k := i;
    } else {
      var used := Key(key.kind, Candidate(key, i));
      forall j | j >= i + 1 && !Stops(t, key, obj, j) ensures Key(key.kind, Candidate(key, j)) in keys - {used} {
        CandidatesDiffer(key, i, j);
      }
      k := SomeStops(t, keys - {used}, key, obj, i + 1);
    }
  }

  lemma {:induction false} FirstStop(t: Table, key: Key, obj: int, i: nat, k: nat) returns (c: nat)
    requires i <= k && Stops(t, key, obj, k) && forall j :: 0 <= j < i ==> !Stops(t, key, obj, j)
    ensures IsChoice(t, key, obj, c)
    decreases k - i
  {
    if Stops(t, key, obj, i) { c := i; } else { c := FirstStop(t, key, obj, i + 1, k); }
  }

  lemma {:induction false} ChoiceExists(t: Table, key: Key, obj: int)
    ensures exists i :: IsChoice(t, key, obj, i)
  {
    var k := SomeStops(t, t.Keys, key, obj, 1);
    var c := FirstStop(t, key, obj, 0, k);
  }

  /** The number of names tried in vain. */
  ghost function Choice(t: Table, key: Key, obj: int): (i: nat)
    ensures IsChoice(t, key, obj, i)
  {
    ChoiceExists(t, key, obj);
    var i: nat :| IsChoice(t, key, obj, i);
    i
  }

  /** The first name that is not taken stands for a nil stream. */
  ghost predicate ChoicePanics(t: Table, key: Key, obj: int) {
    LookupPanics(t, Key(key.kind, Candidate(key, Choice(t, key, obj))))
  }

  /** The loops over names. They end for every table, or panic. */
  method ChooseName(t: Table, key: Key, obj: int) returns (useName: Bytes, panicked: bool)
    ensures panicked == ChoicePanics(t, key, obj)
    ensures !panicked ==> useName == Candidate(key, Choice(t, key, obj))
  {
    var i := 0;
    useName := key.name;
    ghost var c := Choice(t, key, obj);
    while true
      invariant i <= c && useName == Candidate(key, i)
      decreases c - i
    {
      if LookupPanics(t, Key(key.kind, useName)) {
        assert Stops(t, key, obj, i);
        return useName, true;
      }
      if Stops(t, key, obj, i) { return useName, false; }
      i := i + 1;
      useName := if key.kind.Font? then FontPrefix(key.name) + Digits(i)
                 else if key.kind.GState? then GS + Digits(i)
                 else useName + [ZERO];
    }
  }

  // ---- Operations that use resources ----

  /** The kind of resource an operator names with its first parameter, if it has that many parameters. */
  function UsedKind(op: Operation): Option<Kind> {
    var w, n := op.operand, |op.params|;
    if w == [0x44, 0x6F] && n == 1 then Some(XObject) // Do
    else if w == [0x54, 0x66] && n == 2 then Some(Font) // Tf
    else if (w == [0x43, 0x53] || w == [0x63, 0x73]) && n == 1 then Some(ColorSpace) // CS, cs
    else if (w == [0x53, 0x43, 0x4E] || w == [0x73, 0x63, 0x6E]) && n == 1 then Some(Pattern) // SCN, scn
    else if w == [0x73, 0x68] && n == 1 then Some(Shading) // sh
    else if w == [0x67, 0x73] && n == 1 then Some(GState) // gs
    else None
  }

  function Used(op: Operation): (key: Option<Key>)
    ensures key.Some? ==> op.params != []
  {
    match UsedKind(op)
    case None => None
    case Some(kind) => if op.params[0].Name? then Some(Key(kind, op.params[0].name)) else None
  }

  function Renamed(op: Operation, name: Bytes): Operation
    requires op.params != []
  {
    op.(params := op.params[0 := Objects.Name(name)])
  }

  // ---- Merging ----

  /** The page's resources and the names given so far. */
  datatype State = State(table: Table, names: map<Key, Bytes>)

  /** A name that is met for the first time. */
  ghost function Register(source: Table, st: State, key: Key): State {
    match Lookup(source, key)
    case Some(obj) =>
      var name := Candidate(key, Choice(st.table, key, obj));
      State(st.table[Key(key.kind, name) := Object(obj, true)], st.names[key := name])
    case None =>
      if key.kind.XObject? || key.kind.GState? then
        State(st.table[Key(key.kind, []) := Nil], st.names[key := []])
      else if key.kind.Font? then
        State(st.table[key := Nil], st.names[key := key.name])
      else st
  }

  ghost function Meet(source: Table, st: State, op: Operation): State {
    match Used(op)
    case None => st
    case Some(key) => if key in st.names then st else Register(source, st, key)
  }

  function Rename(st: State, op: Operation): Operation {
    match Used(op)
    case None => op
    case Some(key) => if key in st.names then Renamed(op, st.names[key]) else op
  }

  /** A lookup for an operation comes to a nil stream, in the added resources or among the names tried. */
  ghost predicate MeetPanics(source: Table, st: State, op: Operation) {
    Used(op).Some? &&
    var key := Used(op).value;
    && key !in st.names
    && (LookupPanics(source, key)
        || (Lookup(source, key).Some? && ChoicePanics(st.table, key, Lookup(source, key).value)))
  }

  /** The page's resources and the operations as they are added, up to the one that panics if one does. */
  datatype Outcome = Outcome(table: Table, ops: seq<Operation>, panicked: bool)

  ghost function MergeFrom(source: Table, st: State, ops: seq<Operation>): (r: Outcome)
    ensures |r.ops| <= |ops|
    decreases |ops|
  {
    if ops == [] then Outcome(st.table, [], false)
    else if MeetPanics(source, st, ops[0]) then Outcome(st.table, [], true)
    else
      var st' := Meet(source, st, ops[0]);
      var r := MergeFrom(source, st', ops[1..]);
      Outcome(r.table, [Rename(st', ops[0])] + r.ops, r.panicked)
  }

  ghost function Merged(source: Table, table: Table, ops: seq<Operation>): Outcome {
    MergeFrom(source, State(table, map[]), ops)
  }

  method RegisterName(resources: PageResources, toAdd: PageResources, names: map<Key, Bytes>, key: Key)
    returns (names': map<Key, Bytes>, panicked: bool)
    requires resources != toAdd
    modifies resources
    ensures var st, obj := State(old(resources.table), names), Lookup(toAdd.table, key);
            && panicked == (LookupPanics(toAdd.table, key) || (obj.Some? && ChoicePanics(st.table, key, obj.value)))
            && State(resources.table, names') == if panicked then st else Register(toAdd.table, st, key)
  {
    if LookupPanics(toAdd.table, key) { return names, true; }
    var obj := Lookup(toAdd.table, key);
    if obj.Some? {
      var useName;
      useName, panicked := ChooseName(resources.table, key, obj.value);
      if panicked { return names, true; }
      resources.Set(Key(key.kind, useName), Object(obj.value, true));
      return names[key := useName], false;
    }
    if key.kind.XObject? || key.kind.GState? {
      resources.Set(Key(key.kind, []), Nil);
      return names[key := []], false;
    }
    if key.kind.Font? {
      resources.Set(key, Nil);
      return names[key := key.name], false;
    }
    return names, false;
  }

  /** An operation object, whose parameters are overwritten. */
  class OperationObject {
    var params: seq<Objects.Obj>
    const operand: Bytes

    constructor (op: Operation)
      ensures Value() == op
    {
      params, operand := op.params, op.operand;
    }

    function Value(): Operation
      reads this
    {
      Operation(params, operand)
    }
  }

  class Contents {
    var ops: seq<OperationObject>

    constructor (operations: seq<OperationObject>)
      ensures ops == operations
    {
      ops := operations;
    }
  }

  type Objs = seq<OperationObject>

  /** The operation objects as they are added. One that stands in the list twice is met again as it was left. */
  datatype Run = Run(table: Table, values: map<OperationObject, Operation>, done: nat, panicked: bool)

  ghost function MergeObjects(source: Table, st: State, objs: Objs, i: nat,
                              values: map<OperationObject, Operation>): (r: Run)
    requires i <= |objs| && forall o :: o in objs ==> o in values
    ensures i <= r.done <= |objs|
    decreases |objs| - i
  {
    if i == |objs| then Run(st.table, values, i, false)
    else
      var op := values[objs[i]];
      if MeetPanics(source, st, op) then Run(st.table, values, i, true)
      else
        var st' := Meet(source, st, op);
        MergeObjects(source, st', objs, i + 1, values[objs[i] := Rename(st', op)])
  }

  ghost function Values(objs: Objs): map<OperationObject, Operation>
    reads objs
  {
    map o | o in objs :: o.Value()
  }

  /** One added operation: its name is registered, and its parameter overwritten. */
  method MergeOne(op: OperationObject, resources: PageResources, toAdd: PageResources, names: map<Key, Bytes>)
    returns (names': map<Key, Bytes>, panicked: bool)
    requires resources != toAdd
    modifies op, resources
    ensures var st := State(old(resources.table), names);
            var st' := Meet(toAdd.table, st, old(op.Value()));
            && panicked == MeetPanics(toAdd.table, st, old(op.Value()))
            && (panicked ==> resources.table == st.table && op.Value() == old(op.Value()))
            && (!panicked ==> State(resources.table, names') == st' && op.Value() == Rename(st', old(op.Value())))
  {
    names', panicked := names, false;
    var key := Used(op.Value());
    if key.Some? {
      if key.value !in names {
        names', panicked := RegisterName(resources, toAdd, names, key.value);
        if panicked { return; }
      }
      if key.value in names' { op.params := op.params[0 := Objects.Name(names'[key.value])]; }
    }
  }

  /** One turn of the loop, in the list that the operation stands in. */
  method MergeAt(objs: Objs, i: nat, resources: PageResources, toAdd: PageResources, names: map<Key, Bytes>)
    returns (names': map<Key, Bytes>, panicked: bool)
    requires resources != toAdd && i < |objs|
    modifies objs, resources
    ensures objs[i] in old(Values(objs))
    ensures var st, op := State(old(resources.table), names), old(Values(objs))[objs[i]];
            var st' := Meet(toAdd.table, st, op);
            && panicked == MeetPanics(toAdd.table, st, op)
            && (panicked ==> resources.table == st.table && Values(objs) == old(Values(objs)))
            && (!panicked ==> && State(resources.table, names') == st'
                              && Values(objs) == old(Values(objs))[objs[i] := Rename(st', op)])
  {
    names', panicked := MergeOne(objs[i], resources, toAdd, names);
  }

  /** The added operations are renamed in place, and the same objects go behind the page's. */
  method MergeContents(contents: Contents, resources: PageResources, contentsToAdd: Objs,
                       resourcesToAdd: PageResources)
    returns (panicked: bool)
    requires resources != resourcesToAdd
    modifies contents, resources, contentsToAdd
    ensures var st, values := State(old(resources.table), map[]), old(Values(contentsToAdd));
            var r := MergeObjects(resourcesToAdd.table, st, contentsToAdd, 0, values);
            && resources.table == r.table && Values(contentsToAdd) == r.values && panicked == r.panicked
            && contents.ops == old(contents.ops) + contentsToAdd[..r.done]
  {
    var names: map<Key, Bytes> := map[];
    ghost var source := resourcesToAdd.table;
    ghost var r := MergeObjects(source, State(resources.table, names), contentsToAdd, 0, Values(contentsToAdd));
    for i := 0 to |contentsToAdd|
      invariant resourcesToAdd.table == source && contents.ops == old(contents.ops) + contentsToAdd[..i]
      invariant MergeObjects(source, State(resources.table, names), contentsToAdd, i, Values(contentsToAdd)) == r
    {
      names, panicked := MergeAt(contentsToAdd, i, resources, resourcesToAdd, names);
      if panicked { return; }
      contents.ops := contents.ops + [contentsToAdd[i]];
      assert contentsToAdd[..i + 1] == contentsToAdd[..i] + [contentsToAdd[i]];
    }
    return false;
  }

  lemma {:induction false} OthersStay(source: Table, st: State, objs: Objs, i: nat,
                                      values: map<OperationObject, Operation>, o: OperationObject)
    requires i <= |objs| && (forall p :: p in objs ==> p in values) && o in values && o !in objs[i..]
    ensures var r := MergeObjects(source, st, objs, i, values);
            o in r.values && r.values[o] == values[o]
    decreases |objs| - i
  {
    if i == |objs| || MeetPanics(source, st, values[objs[i]]) {
    } else {
      var st' := Meet(source, st, values[objs[i]]);
      assert objs[i] in objs[i..] && objs[i + 1..] == objs[i..][1..];
      OthersStay(source, st', objs, i + 1, values[objs[i] := Rename(st', values[objs[i]])], o);
    }
  }

  predicate Distinct(objs: Objs) {
    forall i, j :: 0 <= i < j < |objs| ==> objs[i] != objs[j]
  }

  /** The objects from the i-th on hold the operations. */
  ghost predicate Hold(objs: Objs, i: nat, values: map<OperationObject, Operation>, ops: seq<Operation>) {
    && i <= |objs| && |ops| == |objs| - i && (forall o :: o in objs ==> o in values)
    && forall j :: i <= j < |objs| ==> values[objs[j]] == ops[j - i]
  }

  lemma {:induction false} HoldNext(objs: Objs, i: nat, values: map<OperationObject, Operation>, ops: seq<Operation>,
                                    op: Operation)
    requires Distinct(objs) && Hold(objs, i, values, ops) && i < |objs|
    ensures Hold(objs, i + 1, values[objs[i] := op], ops[1..]) && objs[i] !in objs[i + 1..]
  {
  }

  lemma {:induction false} DistinctOutcome(source: Table, st: State, objs: Objs, i: nat,
                                           values: map<OperationObject, Operation>, ops: seq<Operation>)
    requires Distinct(objs) && Hold(objs, i, values, ops)
    ensures var run, r := MergeObjects(source, st, objs, i, values), MergeFrom(source, st, ops);
            run.table == r.table && run.panicked == r.panicked && run.done == i + |r.ops|
    decreases |ops|
  {
    if ops == [] || MeetPanics(source, st, ops[0]) {
    } else {
      var st' := Meet(source, st, ops[0]);
      HoldNext(objs, i, values, ops, Rename(st', ops[0]));
      DistinctOutcome(source, st', objs, i + 1, values[objs[i] := Rename(st', ops[0])], ops[1..]);
    }
  }

  lemma {:induction false} DistinctValue(source: Table, st: State, objs: Objs, i: nat,
                                         values: map<OperationObject, Operation>, ops: seq<Operation>, j: nat)
    requires Distinct(objs) && Hold(objs, i, values, ops) && i <= j < |objs|
    ensures var run, r := MergeObjects(source, st, objs, i, values), MergeFrom(source, st, ops);
            && objs[j] in run.values
            && run.values[objs[j]] == if j - i < |r.ops| then r.ops[j - i] else ops[j - i]
    decreases |ops|
  {
    if MeetPanics(source, st, ops[0]) {
    } else {
      var st' := Meet(source, st, ops[0]);
      var values' := values[objs[i] := Rename(st', ops[0])];
      HoldNext(objs, i, values, ops, Rename(st', ops[0]));
      if j == i {
        OthersStay(source, st', objs, i + 1, values', objs[i]);
      } else {
        DistinctValue(source, st', objs, i + 1, values', ops[1..], j);
      }
    }
  }

  /** Distinct objects are merged as the operations that they hold. */
  lemma {:induction false} DistinctObjects(source: Table, table: Table, objs: Objs,
                                           values: map<OperationObject, Operation>, ops: seq<Operation>)
    requires Distinct(objs) && Hold(objs, 0, values, ops)
    ensures var run, r := MergeObjects(source, State(table, map[]), objs, 0, values), Merged(source, table, ops);
            && run.table == r.table && run.panicked == r.panicked && run.done == |r.ops|
            && forall j :: 0 <= j < |objs| ==>
                 objs[j] in run.values && run.values[objs[j]] == if j < |r.ops| then r.ops[j] else ops[j]
  {
    var run, r := MergeObjects(source, State(table, map[]), objs, 0, values), Merged(source, table, ops);
    DistinctOutcome(source, State(table, map[]), objs, 0, values, ops);
    forall j | 0 <= j < |objs|
      ensures objs[j] in run.values && run.values[objs[j]] == if j < |r.ops| then r.ops[j] else ops[j]
    {
      DistinctValue(source, State(table, map[]), objs, 0, values, ops, j);
    }
  }

  // ---- The states of a run ----

  /** The state behind operations none of which panics. */
  ghost function MergeState(source: Table, st: State, ops: seq<Operation>): State
    decreases |ops|
  {
    if ops == [] then st else MergeState(source, Meet(source, st, ops[0]), ops[1..])
  }

  ghost function MergeOps(source: Table, st: State, ops: seq<Operation>): seq<Operation>
    decreases |ops|
  {
    if ops == [] then []
    else
      var st' := Meet(source, st, ops[0]);
      [Rename(st', ops[0])] + MergeOps(source, st', ops[1..])
  }

  /** What operation i becomes: it is renamed once its own name is registered. */
  ghost function MergedAt(source: Table, st: State, ops: seq<Operation>, i: nat): Operation
    requires i < |ops|
  {
    Rename(MergeState(source, st, ops[..i + 1]), ops[i])
  }

  lemma {:induction false} MergeStep(source: Table, st: State, ops: seq<Operation>, i: nat)
    requires i < |ops|
    ensures MergeState(source, st, ops[..i + 1]) == Meet(source, MergeState(source, st, ops[..i]), ops[i])
    decreases |ops|
  {
    if i > 0 {
      MergeStep(source, Meet(source, st, ops[0]), ops[1..], i - 1);
      assert ops[..i + 1][1..] == ops[1..][..i] && ops[..i][1..] == ops[1..][..i - 1];
    } else {
      assert ops[..1][1..] == [];
    }
  }

  lemma {:induction false} MergeOpsAt(source: Table, st: State, ops: seq<Operation>, i: nat)
    requires i < |ops|
    ensures |MergeOps(source, st, ops)| == |ops| && MergeOps(source, st, ops)[i] == MergedAt(source, st, ops, i)
    decreases |ops|
  {
    var st', rest, first := Meet(source, st, ops[0]), ops[1..], ops[..i + 1];
    assert first[0] == ops[0] && first[1..] == rest[..i];
    assert MergeState(source, st, first) == MergeState(source, st', rest[..i]);
    if rest == [] {
    } else if i == 0 {
      MergeOpsAt(source, st', rest, 0);
    } else {
      MergeOpsAt(source, st', rest, i - 1);
    }
  }

  lemma {:induction false} MergeSplit(source: Table, st: State, ops: seq<Operation>, n: nat)
    requires n <= |ops|
    ensures MergeState(source, st, ops) == MergeState(source, MergeState(source, st, ops[..n]), ops[n..])
    decreases |ops|
  {
    if n == 0 {
      assert ops[0..] == ops;
    } else {
      var st1, rest := Meet(source, st, ops[0]), ops[1..];
      MergeSplit(source, st1, rest, n - 1);
      assert ops[..n][0] == ops[0] && ops[..n][1..] == rest[..n - 1] && rest[n - 1..] == ops[n..];
    }
  }

  /** An outcome is that of the operations in front of the first that panics. */
  lemma {:induction false} OutcomeIs(source: Table, st: State, ops: seq<Operation>)
    ensures var r := MergeFrom(source, st, ops);
            var n := |r.ops|;
            && n <= |ops| && (r.panicked <==> n < |ops|)
            && r.table == MergeState(source, st, ops[..n]).table && r.ops == MergeOps(source, st, ops[..n])
            && (n < |ops| ==> MeetPanics(source, MergeState(source, st, ops[..n]), ops[n]))
    decreases |ops|
  {
    if ops == [] || MeetPanics(source, st, ops[0]) {
    } else {
      var st', rest := Meet(source, st, ops[0]), ops[1..];
      OutcomeIs(source, st', rest);
      var n := |MergeFrom(source, st', rest).ops|;
      var first := ops[..1 + n];
      assert first[0] == ops[0] && first[1..] == rest[..n];
    }
  }

  lemma {:induction false} NoPanicBefore(source: Table, st: State, ops: seq<Operation>, i: nat)
    requires i < |MergeFrom(source, st, ops).ops|
    ensures i < |ops| && !MeetPanics(source, MergeState(source, st, ops[..i]), ops[i])
    decreases |ops|
  {
    if ops == [] || MeetPanics(source, st, ops[0]) {
    } else if i == 0 {
      assert ops[..0] == [];
    } else {
      NoPanicBefore(source, Meet(source, st, ops[0]), ops[1..], i - 1);
      assert ops[..i][0] == ops[0] && ops[..i][1..] == ops[1..][..i - 1];
    }
  }
}
