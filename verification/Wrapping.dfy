/** What bracketing content by q and Q keeps (contentstream/contentstream.go, creator/block.go). */
module Wrapping {
  import opened Bytes
  import opened ContentStream
  import opened GraphicsState

  // ---- Wrapping protects ----

  lemma {:induction false} InsideProtected(d: nat, ops: seq<Operation>)
    requires AllInside(d, ops) && NoUnderflow(d, ops) && d + Depth(ops) == 0
    ensures Protected(d, ops)
    decreases |ops|
  {
    if ops == [] {
    } else {
      InsideProtected(d + Delta(ops[0]), ops[1..]);
    }
  }

  lemma {:induction false} PopsProtected(k: nat)
    ensures Protected(k, Pops(k)) && NoUnderflow(k, Pops(k))
  {
    if k == 0 {
    } else {
      PopsProtected(k - 1);
      assert Pops(k)[1..] == Pops(k - 1);
    }
  }

  lemma {:induction false} NeverNegative(d: nat, ops: seq<Operation>)
    requires NoUnderflow(d, ops)
    ensures d + Depth(ops) >= 0
    decreases |ops|
  {
    if ops == [] {
    } else {
      NeverNegative(d + Delta(ops[0]), ops[1..]);
    }
  }

  lemma {:induction false} UnderflowAppend(d: nat, a: seq<Operation>, b: seq<Operation>)
    ensures NoUnderflow(d, a + b) <==> NoUnderflow(d, a) && d + Depth(a) >= 0 && NoUnderflow(d + Depth(a), b)
    decreases |a|
  {
    if a == [] {
      AppendNothing(b);
    } else {
      SplitAppend(a, b, 1);
      assert (a + b)[0] == a[0];
      if d + Delta(a[0]) >= 0 { UnderflowAppend(d + Delta(a[0]), a[1..], b); }
    }
  }

  /** What is protected ends with nothing saved. */
  lemma {:induction false} ProtectedEnd(d: nat, ops: seq<Operation>)
    requires Protected(d, ops)
    ensures d + Depth(ops) + Skipped(d, ops) == 0
    decreases |ops|
  {
    if ops == [] {
    } else if d + Delta(ops[0]) < 0 {
      ProtectedEnd(0, ops[1..]);
    } else {
      ProtectedEnd(d + Delta(ops[0]), ops[1..]);
    }
  }

  lemma {:induction false} ProtectedInside(d: nat, ops: seq<Operation>)
    requires Protected(d, ops) && NoUnderflow(d, ops)
    ensures AllInside(d, ops)
    decreases |ops|
  {
    if ops == [] {
    } else {
      ProtectedInside(d + Delta(ops[0]), ops[1..]);
    }
  }

  /** Without a Q too many, protected is inside and closed. */
  lemma {:induction false} ClosedProtectedIff(d: nat, ops: seq<Operation>)
    requires d + Depth(ops) == 0
    ensures Protected(d, ops) <==> NoUnderflow(d, ops) && AllInside(d, ops)
  {
    NoneSkipped(d, ops);
    if Protected(d, ops) {
      ProtectedEnd(d, ops);
      ProtectedInside(d, ops);
    } else if NoUnderflow(d, ops) && AllInside(d, ops) {
      InsideProtected(d, ops);
    }
  }

  /** What wrapping adds, and what stays of the list behind the q. */
  lemma {:induction false} WrapUnfolds(ops: seq<Operation>)
    requires ops != [] && !IsWrapped(ops)
    ensures var rest := ops + Pops(1 + Depth(ops));
            && Wrap(ops) == [Push()] + rest && Wrap(ops)[1..] == rest
            && Depth(rest) == (if Depth(ops) >= -1 then -1 else Depth(ops))
            && (AllInside(1, rest) <==> AllInside(1, ops))
            && (NoUnderflow(1, rest) <==> NoUnderflow(1, ops))
  {
    var k := 1 + Depth(ops);
    var rest := ops + Pops(k);
    Assoc([Push()], ops, Pops(k));
    assert ([Push()] + rest)[1..] == rest;
    DepthAppend(ops, Pops(k));
    InsideAppend(1, ops, Pops(k));
    PopsInside(k, k);
    ClosingNoUnderflow(ops, k);
  }

  lemma {:induction false} ClosingNoUnderflow(ops: seq<Operation>, k: int)
    requires k == 1 + Depth(ops)
    ensures NoUnderflow(1, ops + Pops(k)) <==> NoUnderflow(1, ops)
  {
    UnderflowAppend(1, ops, Pops(k));
    if NoUnderflow(1, ops) {
      NeverNegative(1, ops);
      PopsProtected(k);
    }
  }

  /** The lists that WrapIfNeeded makes restore the graphics state: wrapped lists without a Q too many; other
      lists with at most one Q too many in any prefix and no operator behind it; and lists that end with more
      Q too many than that, if they are protected behind one q. */
  predicate Restorable(ops: seq<Operation>) {
    || ops == []
    || (if IsWrapped(ops) then NoUnderflow(0, ops)
        else if Depth(ops) >= -1 then NoUnderflow(1, ops) && AllInside(1, ops)
        else Protected(1, ops))
  }

  lemma {:induction false} WrapProtectsIff(ops: seq<Operation>)
    ensures Protected(0, Wrap(ops)) <==> Restorable(ops)
  {
    if ops == [] {
    } else if IsWrapped(ops) {
      ClosedProtectedIff(0, ops);
    } else {
      var rest := ops + Pops(1 + Depth(ops));
      WrapUnfolds(ops);
      assert Protected(0, Wrap(ops)) <==> Protected(1, rest);
      if Depth(ops) >= -1 {
        ClosedProtectedIff(1, rest);
      } else {
        AppendNothing(ops);
      }
    }
  }

  /** Wrapped content restores the graphics state, whatever its operators do, exactly under a condition on the
      list that is to be wrapped. */
  lemma {:induction false} WrapRestoresIff(ops: seq<Operation>)
    ensures Restores(Wrap(ops)) <==> Restorable(ops)
  {
    RestoresIff(Wrap(ops));
    WrapProtectsIff(ops);
  }

  /** A list that wrapping does not help: the added q is taken by the Q, and cm changes the state for good. */
  lemma {:induction false} NotRestored()
    ensures var cm := Operation([], [0x63, 0x6D]);
            && Wrap([Pop(), cm]) == [Push(), Pop(), cm] && !Restorable([Pop(), cm])
            && Run(Count, 0, [], Wrap([Pop(), cm])).gs == 1
  {
    var cm := Operation([], [0x63, 0x6D]);
    var ops := [Pop(), cm];
    assert ops[1..] == [cm] && [cm][1..] == [];
    assert Delta(cm) == 0 && Depth([cm]) == 0 && Depth(ops) == -1;
    assert Wrap(ops) == [Push(), Pop(), cm];
    var w := [Push(), Pop(), cm];
    assert w[1..] == ops;
    assert Run(Count, 1, [], []).gs == 1;
    assert Run(Count, 0, [], [cm]).gs == 1;
    assert [0][..0] == [] && [] + [0] == [0];
    assert Run(Count, 0, [0], ops).gs == 1;
  }

  // ---- On top of other saved states ----

  /** As Restores, on top of any saved states. */
  ghost predicate RestoresAnywhere(ops: seq<Operation>) {
    forall effect: Effect<int>, gs: int, stack: seq<int> ::
      var r := Run(effect, gs, stack, ops);
      !r.failed ==> r.gs == gs && r.stack == stack
  }

  predicate RestorableAnywhere(ops: seq<Operation>) {
    || ops == []
    || (if IsWrapped(ops) then NoUnderflow(0, ops)
        else Depth(ops) >= -1 && NoUnderflow(1, ops) && AllInside(1, ops))
  }

  lemma {:induction false} NoUnderflowRestorable(ops: seq<Operation>)
    requires NoUnderflow(0, ops)
    ensures RestorableAnywhere(ops)
  {
    NeverNegative(0, ops);
    NoUnderflowInside(0, ops);
    NoneSkipped(0, ops);
    NoneSkippedDeeper(0, ops);
    NoneSkipped(1, ops);
  }

  /** Wrapped content gives the graphics state and the stack back as it got them. */
  lemma {:induction false} WrapRestores<GS>(effect: Effect<GS>, gs: GS, stack: seq<GS>, ops: seq<Operation>)
    requires RestorableAnywhere(ops) && !Run(effect, gs, stack, Wrap(ops)).failed
    ensures var r := Run(effect, gs, stack, Wrap(ops));
            r.gs == gs && r.stack == stack
  {
    WrapProtectsIff(ops);
    if ops != [] && !IsWrapped(ops) { WrapUnfolds(ops); }
    assert NoUnderflow(0, Wrap(ops));
    AppendNothing(stack);
    Frame(effect, gs, stack, [], Wrap(ops));
    ProtectedRestores(effect, gs, [], Wrap(ops));
  }

  lemma {:induction false} EnoughSaved(d: nat, ops: seq<Operation>)
    requires d >= |ops|
    ensures NoUnderflow(d, ops)
    decreases |ops|
  {
    if ops == [] {
    } else {
      EnoughSaved(d + Delta(ops[0]), ops[1..]);
    }
  }

  /** On top of any saved states, exactly the lists that do not end with more than one Q too many. */
  lemma {:induction false} WrapRestoresAnywhereIff(ops: seq<Operation>)
    ensures RestoresAnywhere(Wrap(ops)) <==> RestorableAnywhere(ops)
  {
    if RestorableAnywhere(ops) {
      forall effect: Effect<int>, gs: int, stack: seq<int> | !Run(effect, gs, stack, Wrap(ops)).failed
        ensures Run(effect, gs, stack, Wrap(ops)).gs == gs && Run(effect, gs, stack, Wrap(ops)).stack == stack
      {
        WrapRestores(effect, gs, stack, ops);
      }
    } else if RestoresAnywhere(Wrap(ops)) {
      assert Restores(Wrap(ops));
      WrapRestoresIff(ops);
      WrapUnfolds(ops);
      var stack := Repeat(0, |Wrap(ops)|);
      NeverBelow(0, stack, Wrap(ops));
      SeenCount(Count, 0, stack, Wrap(ops));
      EnoughSaved(|stack|, Wrap(ops));
      NoneSkipped(|stack|, Wrap(ops));
    }
  }

  // ---- Added contents ----

  /** Content added behind `there` runs, and ends, as it would alone. */
  ghost predicate RunsAlone<GS>(effect: Effect<GS>, gs: GS, there: seq<Operation>, added: seq<Operation>) {
    !Run(effect, gs, [], Wrap(there)).failed ==>
      Run(effect, gs, [], Wrap(there) + Wrap(added))
      == After(Run(effect, gs, [], Wrap(there)).seen, Run(effect, gs, [], Wrap(added)))
  }

  lemma {:induction false} AddedRunsAlone<GS>(effect: Effect<GS>, gs: GS, there: seq<Operation>, added: seq<Operation>)
    requires Restorable(there)
    ensures RunsAlone(effect, gs, there, added)
  {
    if !Run(effect, gs, [], Wrap(there)).failed {
      WrapProtectsIff(there);
      ProtectedRestores(effect, gs, [], Wrap(there));
      RunAppend(effect, gs, [], Wrap(there), Wrap(added));
    }
  }

  /** Any content added behind `there` is independent of it exactly under that condition. */
  lemma {:induction false} AddedRunsAloneIff(there: seq<Operation>)
    ensures (forall effect: Effect<int>, gs: int, added: seq<Operation> :: RunsAlone(effect, gs, there, added))
            <==> Restorable(there)
  {
    if Restorable(there) {
      forall effect: Effect<int>, gs: int, added: seq<Operation> ensures RunsAlone(effect, gs, there, added) {
        AddedRunsAlone(effect, gs, there, added);
      }
    } else {
      WrapRestoresIff(there);
      var effect: Effect<int>, gs: int :| !Run(effect, gs, [], Wrap(there)).failed
        && !(Run(effect, gs, [], Wrap(there)).gs == gs && Run(effect, gs, [], Wrap(there)).stack == []);
      AppendNothing(Wrap(there));
      assert !RunsAlone(effect, gs, there, []);
    }
  }

  // ---- What the wrapped operations see ----

  /** How many Qs are skipped. */
  function Skipped(d: nat, ops: seq<Operation>): nat
    decreases |ops|
  {
    if ops == [] then 0
    else if d + Delta(ops[0]) < 0 then 1 + Skipped(0, ops[1..])
    else Skipped(d + Delta(ops[0]), ops[1..])
  }

  lemma {:induction false} NoneSkipped(d: nat, ops: seq<Operation>)
    ensures NoUnderflow(d, ops) <==> Skipped(d, ops) == 0
    decreases |ops|
  {
    if ops != [] && d + Delta(ops[0]) >= 0 { NoneSkipped(d + Delta(ops[0]), ops[1..]); }
  }

  lemma {:induction false} OneLessSkipped(d: nat, ops: seq<Operation>)
    requires Skipped(d, ops) > 0
    ensures Skipped(d + 1, ops) == Skipped(d, ops) - 1
    decreases |ops|
  {
    if d + Delta(ops[0]) >= 0 { OneLessSkipped(d + Delta(ops[0]), ops[1..]); }
  }

  lemma {:induction false} SeenCount<GS>(effect: Effect<GS>, gs: GS, stack: seq<GS>, ops: seq<Operation>)
    requires !Run(effect, gs, stack, ops).failed
    ensures var r := Run(effect, gs, stack, ops);
            && |r.seen| == |ops| - Skipped(|stack|, ops)
            && |r.stack| == |stack| + Depth(ops) + Skipped(|stack|, ops)
    decreases |ops|
  {
    if ops == [] {
    } else {
      var t := Step(effect, gs, stack, ops[0]);
      SeenCount(effect, t.gs, t.stack, ops[1..]);
    }
  }

  lemma {:induction false} PopsSeen(d: nat, k: int)
    requires k <= d
    ensures Skipped(d, Pops(k)) == 0 && |Pops(k)| == if k < 0 then 0 else k
  {
    if k <= 0 {
    } else {
      assert Pops(k)[1..] == Pops(k - 1);
      PopsSeen(d - 1, k - 1);
    }
  }

  /** The wrapped run calls the handlers for the opening q, then exactly as the plain run, then for each of
      the closing Qs. */
  predicate SameView<GS(==)>(effect: Effect<GS>, gs: GS, ops: seq<Operation>) {
    var plain, wrapped := Run(effect, gs, [], ops).seen, Run(effect, gs, [], Wrap(ops)).seen;
    && |wrapped| == 1 + |plain| + |Pops(1 + Depth(ops))|
    && wrapped[..1 + |plain|] == [(Push(), gs)] + plain
  }

  function BodyRun<GS>(effect: Effect<GS>, gs: GS, ops: seq<Operation>): Outcome<GS> {
    Run(effect, gs, [gs], ops)
  }

  function ClosingRun<GS>(effect: Effect<GS>, gs: GS, ops: seq<Operation>): Outcome<GS> {
    var body := BodyRun(effect, gs, ops);
    Run(effect, body.gs, body.stack, Pops(1 + Depth(ops)))
  }

  /** The wrapped run in its three parts. */
  lemma {:induction false} WrappedRun<GS>(effect: Effect<GS>, gs: GS, ops: seq<Operation>)
    requires ops != [] && !IsWrapped(ops) && !Run(effect, gs, [], Wrap(ops)).failed
    ensures !BodyRun(effect, gs, ops).failed && !ClosingRun(effect, gs, ops).failed
    ensures Run(effect, gs, [], Wrap(ops)).seen
            == [(Push(), gs)] + (BodyRun(effect, gs, ops).seen + ClosingRun(effect, gs, ops).seen)
  {
    var pops := Pops(1 + Depth(ops));
    Assoc([Push()], ops, pops);
    assert ([Push()] + (ops + pops))[1..] == ops + pops;
    assert [] + [gs] == [gs];
    assert Run(effect, gs, [], Wrap(ops)) == After([(Push(), gs)], Run(effect, gs, [gs], ops + pops));
    if Run(effect, gs, [gs], ops).failed { FailAppend(effect, gs, [gs], ops, pops); }
    RunAppend(effect, gs, [gs], ops, pops);
  }

  lemma {:induction false} WrappedCount<GS>(effect: Effect<GS>, gs: GS, ops: seq<Operation>)
    requires ops != [] && !IsWrapped(ops) && !Run(effect, gs, [], Wrap(ops)).failed
    ensures |Run(effect, gs, [], Wrap(ops)).seen| == 1 + |ops| - Skipped(1, ops) + |Pops(1 + Depth(ops))|
  {
    var body := BodyRun(effect, gs, ops);
    WrappedRun(effect, gs, ops);
    SeenCount(effect, gs, [gs], ops);
    SeenCount(effect, body.gs, body.stack, Pops(1 + Depth(ops)));
    PopsSeen(|body.stack|, 1 + Depth(ops));
  }

  lemma {:induction false} WrappedPrefix<GS>(effect: Effect<GS>, gs: GS, ops: seq<Operation>)
    requires ops != [] && !IsWrapped(ops) && !Run(effect, gs, [], Wrap(ops)).failed && NoUnderflow(0, ops)
    ensures [(Push(), gs)] + Run(effect, gs, [], ops).seen <= Run(effect, gs, [], Wrap(ops)).seen
  {
    WrappedRun(effect, gs, ops);
    Frame(effect, gs, [gs], [], ops);
    AppendNothing([gs]);
    Assoc([(Push(), gs)], BodyRun(effect, gs, ops).seen, ClosingRun(effect, gs, ops).seen);
  }

  /** The operations of newly wrapped content see what they saw unwrapped exactly if no prefix has more Q
      than q. */
  lemma {:induction false} SameViewIff<GS>(effect: Effect<GS>, gs: GS, ops: seq<Operation>)
    requires ops != [] && !IsWrapped(ops)
    requires !Run(effect, gs, [], ops).failed && !Run(effect, gs, [], Wrap(ops)).failed
    ensures SameView(effect, gs, ops) <==> NoUnderflow(0, ops)
  {
    WrappedCount(effect, gs, ops);
    SeenCount(effect, gs, [], ops);
    NoneSkipped(0, ops);
    if NoUnderflow(0, ops) {
      WrappedPrefix(effect, gs, ops);
      NoneSkippedDeeper(0, ops);
    } else {
      OneLessSkipped(0, ops);
    }
  }

  lemma {:induction false} NoneSkippedDeeper(d: nat, ops: seq<Operation>)
    requires Skipped(d, ops) == 0
    ensures Skipped(d + 1, ops) == 0
    decreases |ops|
  {
    if ops == [] {
    } else {
      NoneSkippedDeeper(d + Delta(ops[0]), ops[1..]);
    }
  }

  // ---- Wrapping twice ----

  lemma {:induction false} DepthAppend(a: seq<Operation>, b: seq<Operation>)
    ensures Depth(a + b) == Depth(a) + Depth(b)
    decreases |a|
  {
    if a == [] {
      AppendNothing(b);
    } else {
      SplitAppend(a, b, 1);
      assert (a + b)[0] == a[0];
      DepthAppend(a[1..], b);
    }
  }

  lemma {:induction false} InsideAppend(d: int, a: seq<Operation>, b: seq<Operation>)
    ensures AllInside(d, a + b) <==> AllInside(d, a) && AllInside(d + Depth(a), b)
    decreases |a|
  {
    if a == [] {
      AppendNothing(b);
    } else {
      SplitAppend(a, b, 1);
      assert (a + b)[0] == a[0];
      InsideAppend(d + Delta(a[0]), a[1..], b);
    }
  }

  lemma {:induction false} PopsInside(d: int, k: int)
    ensures AllInside(d, Pops(k)) && Depth(Pops(k)) == if k < 0 then 0 else -k
    decreases k
  {
    if k <= 0 {
    } else {
      assert Pops(k)[1..] == Pops(k - 1);
      PopsInside(d - 1, k - 1);
    }
  }

  /** Wrapping again changes nothing exactly if there is nothing, the content was wrapped, or it has at most
      one Q too many and no other operator behind a Q without a q. */
  lemma {:induction false} IdempotentIff(ops: seq<Operation>)
    ensures Wrap(Wrap(ops)) == Wrap(ops)
            <==> ops == [] || IsWrapped(ops) || (Depth(ops) >= -1 && AllInside(1, ops))
  {
    if ops != [] && !IsWrapped(ops) {
      var k := 1 + Depth(ops);
      var rest := ops + Pops(k);
      Assoc([Push()], ops, Pops(k));
      var w := [Push()] + rest;
      assert w[1..] == rest;
      DepthAppend(ops, Pops(k));
      InsideAppend(1, ops, Pops(k));
      PopsInside(k, k);
      assert IsWrapped(w) <==> Depth(ops) >= -1 && AllInside(1, ops);
      assert !IsWrapped(w) ==> |Wrap(w)| > |w|;
    }
  }

  lemma {:induction false} NoUnderflowInside(d: nat, ops: seq<Operation>)
    requires NoUnderflow(d, ops)
    ensures AllInside(d + 1, ops)
    decreases |ops|
  {
    if ops == [] {
    } else {
      NoUnderflowInside(d + Delta(ops[0]), ops[1..]);
    }
  }

  /** In particular wherever no prefix has more Q than q. */
  lemma {:induction false} Idempotent(ops: seq<Operation>)
    requires NoUnderflow(0, ops)
    ensures Wrap(Wrap(ops)) == Wrap(ops)
  {
    IdempotentIff(ops);
    NeverNegative(0, ops);
    NoUnderflowInside(0, ops);
  }
}
