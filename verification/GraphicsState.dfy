/** The graphics state machine (contentstream/processor.go), the bracketing of content by q and Q
    (contentstream/contentstream.go) and the joining of contents (creator/block.go). What the operators
    other than q and Q do to the graphics state is a function given from outside. */
module GraphicsState {
  import opened Bytes
  import opened ContentStream

  const PUSH: Bytes := [0x71] // q
  const POP: Bytes := [0x51] // Q

  function Push(): Operation {
    Operation([], PUSH)
  }

  function Pop(): Operation {
    Operation([], POP)
  }

  // ---- Process ----

  /** Sets the colours and the matrix, or reports an error. */
  type Effect<!GS> = (Operation, GS) -> Option<GS>

  /** What a handler is called with. */
  type Event<+GS> = (Operation, GS)

  datatype Outcome<+GS> = Outcome(gs: GS, stack: seq<GS>, seen: seq<Event<GS>>, failed: bool)

  /** One turn of the loop of Process: the new state and the handler calls, or an error. The top of the
      stack is its last element. A Q without a q is skipped, and no handler is called for it. */
  datatype Turn<+GS> = Turn(gs: GS, stack: seq<GS>, saw: seq<Event<GS>>) | Stop

  function Step<GS>(effect: Effect<GS>, gs: GS, stack: seq<GS>, op: Operation): Turn<GS> {
    if op.operand == PUSH then Turn(gs, stack + [gs], [(op, gs)])
    else if op.operand == POP then
      if stack == [] then Turn(gs, stack, [])
      else Turn(stack[|stack| - 1], stack[..|stack| - 1], [(op, stack[|stack| - 1])])
    else match effect(op, gs)
      case None => Stop
      case Some(g) => Turn(g, stack, [(op, g)])
  }

  /** What happened, and before it what was seen. */
  function After<GS>(saw: seq<Event<GS>>, r: Outcome<GS>): Outcome<GS> {
    r.(seen := saw + r.seen)
  }

  /** The loop of Process. */
  function Run<GS>(effect: Effect<GS>, gs: GS, stack: seq<GS>, ops: seq<Operation>): Outcome<GS>
    decreases |ops|
  {
    if ops == [] then Outcome(gs, stack, [], false)
    else match Step(effect, gs, stack, ops[0])
      case Stop => Outcome(gs, stack, [], true)
      case Turn(gs', stack', saw) => After(saw, Run(effect, gs', stack', ops[1..]))
  }

  /** Whether the handlers go on after these calls, or the last one reported an error. */
  type Handler<!GS> = seq<Event<GS>> -> bool

  /** The loop of Process with handlers that have been called with `history`. */
  function RunUntil<GS>(effect: Effect<GS>, handler: Handler<GS>, history: seq<Event<GS>>,
                        gs: GS, stack: seq<GS>, ops: seq<Operation>): Outcome<GS>
    decreases |ops|
  {
    if ops == [] then Outcome(gs, stack, [], false)
    else match Step(effect, gs, stack, ops[0])
      case Stop => Outcome(gs, stack, [], true)
      case Turn(gs', stack', saw) =>
        if saw != [] && !handler(history + saw) then Outcome(gs', stack', saw, true)
        else After(saw, RunUntil(effect, handler, history + saw, gs', stack', ops[1..]))
  }

  /** How many calls are made: up to the first that reports an error. */
  function Calls<GS>(handler: Handler<GS>, history: seq<Event<GS>>, events: seq<Event<GS>>): (n: nat)
    ensures n <= |events|
    decreases |events|
  {
    if events == [] then 0
    else if !handler(history + [events[0]]) then 1
    else 1 + Calls(handler, history + [events[0]], events[1..])
  }

  predicate GoesOn<GS>(handler: Handler<GS>, history: seq<Event<GS>>, events: seq<Event<GS>>)
    decreases |events|
  {
    events == [] || (handler(history + [events[0]]) && GoesOn(handler, history + [events[0]], events[1..]))
  }

  class ContentStreamProcessor<GS> {
    var graphicsStack: seq<GS>
    var graphicsState: GS
    var seen: seq<Event<GS>>
    const operations: seq<Operation>

    constructor (ops: seq<Operation>, gs: GS)
      ensures operations == ops && graphicsStack == [] && graphicsState == gs && seen == []
    {
      operations, graphicsStack, graphicsState, seen := ops, [], gs, [];
    }

    /** Process, with one handler for all operators that notes what it is called with. */
    method Process(effect: Effect<GS>, handler: Handler<GS>, initial: GS) returns (err: bool)
      modifies this
      ensures var r := RunUntil(effect, handler, old(seen), initial, old(graphicsStack), operations);
              && graphicsState == r.gs && graphicsStack == r.stack && err == r.failed
              && seen == old(seen) + r.seen
    {
      graphicsState := initial;
      ghost var want := After(seen, RunUntil(effect, handler, seen, initial, graphicsStack, operations));
      var unread := operations;
      while unread != []
        invariant After(seen, RunUntil(effect, handler, seen, graphicsState, graphicsStack, unread)) == want
        decreases |unread|
      {
        var op := unread[0];
        unread := unread[1..];
        if op.operand == PUSH {
          graphicsStack := graphicsStack + [graphicsState];
        } else if op.operand == POP {
          if |graphicsStack| == 0 {
            AppendNothing(seen);
            AppendNothing(RunUntil(effect, handler, seen, graphicsState, graphicsStack, unread).seen);
            continue;
          }
          graphicsState := graphicsStack[|graphicsStack| - 1];
          graphicsStack := graphicsStack[..|graphicsStack| - 1];
        } else {
          var g := effect(op, graphicsState);
          if g.None? { AppendNothing(seen); return true; }
          graphicsState := g.value;
        }
        ghost var call := [(op, graphicsState)];
        Assoc(seen, call, RunUntil(effect, handler, seen + call, graphicsState, graphicsStack, unread).seen);
        seen := seen + [(op, graphicsState)];
        if !handler(seen) { return true; }
      }
      AppendNothing(seen);
      return false;
    }
  }

  /** Handlers that report no error see the whole run; others see it up to the call that reports one. */
  lemma {:induction false} RunUntilIs<GS>(effect: Effect<GS>, handler: Handler<GS>, history: seq<Event<GS>>,
                                          gs: GS, stack: seq<GS>, ops: seq<Operation>)
    ensures var r, u := Run(effect, gs, stack, ops), RunUntil(effect, handler, history, gs, stack, ops);
            if GoesOn(handler, history, r.seen) then u == r
            else u.failed && u.seen == r.seen[..Calls(handler, history, r.seen)]
    decreases |ops|
  {
    if ops == [] {
    } else {
      var t := Step(effect, gs, stack, ops[0]);
      if t.Turn? {
        var more := Run(effect, t.gs, t.stack, ops[1..]).seen;
        RunUntilIs(effect, handler, history + t.saw, t.gs, t.stack, ops[1..]);
        if t.saw == [] {
          AppendNothing(history);
          AppendNothing(more);
          AppendNothing(more[..Calls(handler, history, more)]);
        } else {
          var e := t.saw[0];
          assert t.saw == [e] && (t.saw + more)[0] == e && (t.saw + more)[1..] == more;
          var n := Calls(handler, history + [e], more);
          assert (t.saw + more)[..1 + n] == t.saw + more[..n] && (t.saw + more)[..1] == t.saw;
        }
      }
    }
  }

  // ---- Depth ----

  function Delta(op: Operation): int {
    if op.operand == PUSH then 1 else if op.operand == POP then -1 else 0
  }

  /** How many more q than Q there are. */
  function Depth(ops: seq<Operation>): int {
    if ops == [] then 0 else Delta(ops[0]) + Depth(ops[1..])
  }

  /** Starting d deep, no operator but q and Q at a depth below 1. */
  predicate AllInside(d: int, ops: seq<Operation>)
    decreases |ops|
  {
    ops == [] || ((Delta(ops[0]) == 0 ==> d >= 1) && AllInside(d + Delta(ops[0]), ops[1..]))
  }

  /** Starting d deep, no prefix with more Q than that. */
  predicate NoUnderflow(d: nat, ops: seq<Operation>)
    decreases |ops|
  {
    ops == [] || (d + Delta(ops[0]) >= 0 && NoUnderflow(d + Delta(ops[0]), ops[1..]))
  }

  predicate IsWrapped(ops: seq<Operation>) {
    |ops| >= 2 && AllInside(0, ops) && Depth(ops) == 0
  }

  function Pops(k: int): seq<Operation> {
    if k <= 0 then [] else [Pop()] + Pops(k - 1)
  }

  function Wrap(ops: seq<Operation>): seq<Operation> {
    if ops == [] || IsWrapped(ops) then ops else [Push()] + ops + Pops(1 + Depth(ops))
  }

  class ContentStreamOperations {
    var ops: seq<Operation>

    constructor (operations: seq<Operation>)
      ensures ops == operations
    {
      ops := operations;
    }

    method IsWrappedLoop() returns (r: bool)
      ensures r == IsWrapped(ops)
    {
      if |ops| < 2 { return false; }
      var depth := 0;
      var unread := ops;
      while unread != []
        invariant AllInside(depth, unread) == AllInside(0, ops) && depth + Depth(unread) == Depth(ops)
        decreases |unread|
      {
        if unread[0].operand == PUSH {
          depth := depth + 1;
        } else if unread[0].operand == POP {
          depth := depth - 1;
        } else if depth < 1 {
          return false;
        }
        unread := unread[1..];
      }
      return depth == 0;
    }

    method WrapIfNeeded()
      modifies this
      ensures ops == Wrap(old(ops))
    {
      if |ops| == 0 { return; }
      var wrapped := IsWrappedLoop();
      if wrapped { return; }
      ghost var inner := ops;
      ops := [Push()] + ops;
      var depth := 0;
      var unread := ops;
      assert ops[1..] == inner;
      while unread != []
        invariant depth + Depth(unread) == 1 + Depth(inner)
        decreases |unread|
      {
        if unread[0].operand == PUSH {
          depth := depth + 1;
        } else if unread[0].operand == POP {
          depth := depth - 1;
        }
        unread := unread[1..];
      }
      ghost var all := [Push()] + inner;
      while depth > 0
        invariant ops + Pops(depth) == all + Pops(1 + Depth(inner))
      {
        Assoc(ops, [Pop()], Pops(depth - 1));
        ops := ops + [Pop()];
        depth := depth - 1;
      }
      AppendNothing(ops);
    }
  }

  /** addContents: both contents are wrapped where they stand, then joined. */
  method AddContents(blk: ContentStreamOperations, operations: ContentStreamOperations)
    requires blk != operations
    modifies blk, operations
    ensures blk.ops == Wrap(old(blk.ops)) + Wrap(old(operations.ops)) && operations.ops == Wrap(old(operations.ops))
  {
    blk.WrapIfNeeded();
    operations.WrapIfNeeded();
    blk.ops := blk.ops + operations.ops;
  }

  // ---- Runs ----

  lemma {:induction false} RunAppend<GS>(effect: Effect<GS>, gs: GS, stack: seq<GS>, a: seq<Operation>,
                                         b: seq<Operation>)
    requires !Run(effect, gs, stack, a).failed
    ensures var r := Run(effect, gs, stack, a);
            Run(effect, gs, stack, a + b) == After(r.seen, Run(effect, r.gs, r.stack, b))
    decreases |a|
  {
    if a == [] {
      AppendNothing(b);
      AppendNothing(Run(effect, gs, stack, b).seen);
    } else {
      SplitAppend(a, b, 1);
      assert (a + b)[0] == a[0];
      var t := Step(effect, gs, stack, a[0]);
      RunAppend(effect, t.gs, t.stack, a[1..], b);
      var r := Run(effect, t.gs, t.stack, a[1..]);
      Assoc(t.saw, r.seen, Run(effect, r.gs, r.stack, b).seen);
    }
  }

  lemma {:induction false} FailAppend<GS>(effect: Effect<GS>, gs: GS, stack: seq<GS>, a: seq<Operation>,
                                          b: seq<Operation>)
    requires Run(effect, gs, stack, a).failed
    ensures Run(effect, gs, stack, a + b) == Run(effect, gs, stack, a)
    decreases |a|
  {
    SplitAppend(a, b, 1);
    assert (a + b)[0] == a[0];
    var t := Step(effect, gs, stack, a[0]);
    if t.Turn? { FailAppend(effect, t.gs, t.stack, a[1..], b); }
  }

  /** What one more operation does, and what the handlers are called with: q saves the state, Q gives back the one
      saved last, and any other operator is seen with the state that it has made. A Q with nothing saved is not
      seen, and neither is an operator that fails. */
  lemma {:induction false} OneMore<GS>(effect: Effect<GS>, gs: GS, stack: seq<GS>, a: seq<Operation>, op: Operation)
    requires !Run(effect, gs, stack, a).failed
    ensures var r, r' := Run(effect, gs, stack, a), Run(effect, gs, stack, a + [op]);
            if op.operand == Ascii("q") then r' == Outcome(r.gs, r.stack + [r.gs], r.seen + [(op, r.gs)], false)
            else if op.operand == Ascii("Q") then
              if r.stack == [] then r' == r
              else
                var n := |r.stack| - 1;
                r' == Outcome(r.stack[n], r.stack[..n], r.seen + [(op, r.stack[n])], false)
            else match effect(op, r.gs)
              case None => r' == r.(failed := true)
              case Some(g) => r' == Outcome(g, r.stack, r.seen + [(op, g)], false)
  {
    var r := Run(effect, gs, stack, a);
    assert Ascii("q") == PUSH && Ascii("Q") == POP;
    RunAppend(effect, gs, stack, a, [op]);
    assert [op][1..] == [];
    AppendNothing(r.seen);
    var s := Step(effect, r.gs, r.stack, op);
    if s.Turn? { AppendNothing(s.saw); }
  }

  /** A Q is seen with the state in which its q was, and leaves that state and what was saved before it. */
  lemma {:induction false} MatchingQ<GS>(effect: Effect<GS>, gs: GS, stack: seq<GS>, a: seq<Operation>, q: Operation,
                                         b: seq<Operation>, q': Operation)
    requires q.operand == Ascii("q") && q'.operand == Ascii("Q") && NoUnderflow(0, b) && Depth(b) == 0
    requires !Run(effect, gs, stack, a).failed && !Run(effect, gs, stack, a + [q] + b).failed
    ensures var r, r' := Run(effect, gs, stack, a), Run(effect, gs, stack, a + [q] + b + [q']);
            && !r'.failed && r'.gs == r.gs && r'.stack == r.stack
            && r'.seen == Run(effect, gs, stack, a + [q] + b).seen + [(q', r.gs)]
  {
    var r := Run(effect, gs, stack, a);
    var saved := r.stack + [r.gs];
    assert Ascii("q") == PUSH && Ascii("Q") == POP;
    OneMore(effect, gs, stack, a, q);
    RunAppend(effect, gs, stack, a + [q], b);
    AppendNothing(saved);
    Frame(effect, r.gs, saved, [], b);
    var inner := Run(effect, r.gs, [], b);
    AppendNothing(saved);
    assert Run(effect, gs, stack, a + [q] + b).stack == saved;
    OneMore(effect, gs, stack, a + [q] + b, q');
    assert saved[..|saved| - 1] == r.stack;
  }

  /** What is saved below does not matter to operations that never reach it. */
  lemma {:induction false} Frame<GS>(effect: Effect<GS>, gs: GS, base: seq<GS>, stack: seq<GS>, ops: seq<Operation>)
    requires NoUnderflow(|stack|, ops)
    ensures var r := Run(effect, gs, stack, ops);
            Run(effect, gs, base + stack, ops) == r.(stack := base + r.stack)
    ensures !Run(effect, gs, stack, ops).failed ==> |Run(effect, gs, stack, ops).stack| == |stack| + Depth(ops)
    decreases |ops|
  {
    if ops == [] {
    } else {
      var t := Step(effect, gs, stack, ops[0]);
      FrameStep(effect, gs, base, stack, ops[0]);
      if t.Turn? { Frame(effect, t.gs, base, t.stack, ops[1..]); }
    }
  }

  lemma {:induction false} FrameStep<GS>(effect: Effect<GS>, gs: GS, base: seq<GS>, stack: seq<GS>, op: Operation)
    requires |stack| + Delta(op) >= 0
    ensures var t := Step(effect, gs, stack, op);
            && Step(effect, gs, base + stack, op) == (if t.Stop? then t else t.(stack := base + t.stack))
            && (t.Turn? ==> |t.stack| == |stack| + Delta(op))
  {
    if op.operand == PUSH {
      Assoc(base, stack, [gs]);
    } else if op.operand == POP {
      var all, n := base + stack, |base| + |stack|;
      assert all[..n - 1] == base + stack[..|stack| - 1];
    }
  }

  // ---- Lists that leave the graphics state as it was ----

  /** Starting with d saved states, every other operator comes when a state is saved, and none is saved at
      the end. A Q too many changes nothing. */
  predicate Protected(d: nat, ops: seq<Operation>)
    decreases |ops|
  {
    if ops == [] then d == 0
    else if Delta(ops[0]) == 0 then d > 0 && Protected(d, ops[1..])
    else Protected(if d + Delta(ops[0]) < 0 then 0 else d + Delta(ops[0]), ops[1..])
  }

  /** The state that is current once everything saved is given back. */
  function Bottom<GS>(gs: GS, stack: seq<GS>): GS {
    if stack == [] then gs else stack[0]
  }

  lemma {:induction false} ProtectedRestores<GS>(effect: Effect<GS>, gs: GS, stack: seq<GS>, ops: seq<Operation>)
    requires Protected(|stack|, ops) && !Run(effect, gs, stack, ops).failed
    ensures var r := Run(effect, gs, stack, ops);
            r.stack == [] && r.gs == Bottom(gs, stack)
    decreases |ops|
  {
    if ops == [] {
    } else {
      var t := Step(effect, gs, stack, ops[0]);
      ProtectedRestores(effect, t.gs, t.stack, ops[1..]);
    }
  }

  /** An effect that can be seen: every operator counts. */
  function Count(op: Operation, n: int): Option<int> {
    Some(n + 1)
  }

  lemma {:induction false} NeverBelow(n: int, stack: seq<int>, ops: seq<Operation>)
    ensures var r := Run(Count, n, stack, ops);
            !r.failed && (r.stack == [] ==> r.gs >= Bottom(n, stack))
    decreases |ops|
  {
    if ops == [] {
    } else {
      var t := Step(Count, n, stack, ops[0]);
      NeverBelow(t.gs, t.stack, ops[1..]);
    }
  }

  lemma {:induction false} UnprotectedDisturbs(n: int, stack: seq<int>, ops: seq<Operation>)
    requires !Protected(|stack|, ops)
    ensures var r := Run(Count, n, stack, ops);
            r.stack == [] ==> r.gs > Bottom(n, stack)
    decreases |ops|
  {
    if ops == [] {
    } else {
      var t := Step(Count, n, stack, ops[0]);
      if Protected(|t.stack|, ops[1..]) {
        NeverBelow(t.gs, t.stack, ops[1..]);
      } else {
        UnprotectedDisturbs(t.gs, t.stack, ops[1..]);
      }
    }
  }

  /** Whatever the operators do and whatever the graphics state is, it is given back, and nothing stays
      saved. */
  ghost predicate Restores(ops: seq<Operation>) {
    forall effect: Effect<int>, gs: int ::
      var r := Run(effect, gs, [], ops);
      !r.failed ==> r.gs == gs && r.stack == []
  }

  /** Exactly the protected lists restore the graphics state. */
  lemma {:induction false} RestoresIff(ops: seq<Operation>)
    ensures Restores(ops) <==> Protected(0, ops)
  {
    if Protected(0, ops) {
      forall effect: Effect<int>, gs: int | !Run(effect, gs, [], ops).failed
        ensures Run(effect, gs, [], ops).gs == gs && Run(effect, gs, [], ops).stack == []
      {
        ProtectedRestores(effect, gs, [], ops);
      }
    } else {
      NeverBelow(0, [], ops);
      UnprotectedDisturbs(0, [], ops);
      assert !Run(Count, 0, [], ops).failed;
    }
  }
}
