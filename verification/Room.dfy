/** How large the stacks of a thread must be: a value stack with room for the
    highest frame at every depth of calls is never exhausted, and a call stack
    with room for as many calls as evaluation nests is not either. */
module Room {
  import opened Wasm
  import opened Machine
  import opened Steps
  import opened Simulation
  import opened Correctness
  import opened Flow
  import opened CodeFlow
  import opened Semantics
  import M = Machine
  import C = Compile

  /** The greatest height at a position before p. */
  function HighestBefore(m: Module, start: nat, p: nat): nat
    requires ModuleOk(m)
  {
    if p == 0 then 0
    else
      var high := HighestBefore(m, start, p - 1);
      match HeightAt(m, start, p - 1)
      case None => high
      case Some(pl) => if pl.height > high then pl.height else high
  }

  /** The greatest height in the code of a module. */
  function Highest(m: Module, start: nat): nat
    requires ModuleOk(m)
  {
    HighestBefore(m, start, C.EntryOf(m, |m.funcs|, start))
  }

  /** How many calls can be active. */
  function Depth(env: Env): nat { if env.callLimit > env.returnDepth then env.callLimit - env.returnDepth else 0 }

  ghost predicate Bounded(at: Places, high: nat) { forall p: nat :: BelowAt(at, p, high) }

  ghost predicate BelowAt(at: Places, p: nat, high: nat) { at(p).Some? ==> at(p).value.height <= high }

  lemma {:induction false} HighestIs(m: Module, start: nat, p: nat, n: nat)
    requires ModuleOk(m) && p < n && HeightAt(m, start, p).Some?
    ensures HeightAt(m, start, p).value.height <= HighestBefore(m, start, n)
    decreases n
  {
    hide HeightAt;
    if p < n - 1 { HighestIs(m, start, p, n - 1); }
  }

  /** No position is higher. */
  lemma ModuleBounded(env: Env, start: nat)
    requires Loaded(env, start)
    ensures ModuleOk(env.m) && Bounded(PlacesOf(env.m, start), Highest(env.m, start))
  {
    hide HeightAt, C.EntryOf, Loaded;
    LoadedModule(env, start);
    forall p: nat ensures BelowAt(PlacesOf(env.m, start), p, Highest(env.m, start)) {
      if HeightAt(env.m, start, p).Some? {
        PlaceInside(env, start, p);
        EntriesAscend(env.m, HeightAt(env.m, start, p).value.func + 1, |env.m.funcs|, start);
        HighestIs(env.m, start, p, C.EntryOf(env.m, |env.m.funcs|, start));
      }
    }
  }

  /** Every active call takes at most one frame of the greatest height. */
  lemma {:induction false} BaseBounded(at: Places, m: Module, base: int, rets: seq<nat>, f: nat, high: nat)
    requires Flow.Chain(at, m, rets, f) && Bounded(at, high)
    ensures BaseOf(at, m, base, rets, f) <= base + |rets| * high
    decreases |rets|
  {
    var n := |rets|;
    if n > 0 {
      var pl := at(rets[n - 1]).value;
      BaseBounded(at, m, base, rets[..n - 1], pl.func, high);
      assert BelowAt(at, rets[n - 1], high);
      assert n * high == (n - 1) * high + high;
    }
  }

  /** The value stack is below the frames of all calls that may be active. */
  lemma TopBounded(env: Env, at: Places, base: nat, mc: Machine, high: nat)
    requires Level(env, at, base, mc) && Bounded(at, high) && |mc.calls| <= env.returnDepth + Depth(env)
    ensures at(mc.pc).Some? && mc.top <= base + Depth(env) * high + at(mc.pc).value.height <= base + (Depth(env) + 1) * high
  {
    var rets, pl := mc.calls[env.returnDepth..], at(mc.pc).value;
    BaseBounded(at, env.m, base, rets, pl.func, high);
    assert BelowAt(at, mc.pc, high);
    Product(|rets|, Depth(env), high);
    assert (Depth(env) + 1) * high == Depth(env) * high + high;
  }

  lemma Product(a: nat, b: nat, c: nat)
    requires a <= b
    ensures a * c <= b * c
  {}

  /** The parameters of a function are a height, too. */
  lemma ParamsBounded(env: Env, start: nat, f: nat)
    requires Loaded(env, start) && f < |env.entries|
    ensures ModuleOk(env.m) && Params(env.m, f) <= Highest(env.m, start)
  {
    hide HeightAt, C.EntryOf, Loaded, Flows, Highest, PlaceOk;
    LoadedFlows(env, start);
    ModuleBounded(env, start);
    assert Goes(PlacesOf(env.m, start), env.entries[f], f, Params(env.m, f));
    assert BelowAt(PlacesOf(env.m, start), env.entries[f], Highest(env.m, start));
  }

  // ----- one step -----

  lemma MoveStops(env: Env, op: u8, at: nat, mc: Machine)
    requires at + ImmediateSize(op) <= |env.istream| && M.ExecMove(env, op, at, mc) == Stopped(ValueStackExhausted)
    ensures mc.top >= |mc.cells| || (op == ALLOCA && mc.top + Assembly.WordAt(env.istream, at) >= |mc.cells|)
  {
    hide Assembly.WordAt, Overwrite;
  }

  /** An operator pops before it pushes. */
  lemma OperatorGoesOn(env: Env, op: u8, at: nat, mc: Machine)
    requires at + ImmediateSize(op) <= |env.istream|
    ensures M.ExecOperator(env, op, at, mc) != Stopped(ValueStackExhausted)
  {
    hide Assembly.WordAt, Overwrite, UnarySig, BinarySig, LoadSig, StoreSig;
  }

  lemma FlowGoesOn(env: Env, op: u8, at: nat, mc: Machine)
    requires at + ImmediateSize(op) <= |env.istream|
    ensures M.ExecFlow(env, op, at, mc) != Stopped(ValueStackExhausted)
  {
    hide Assembly.WordAt;
  }

  lemma StepHasRoom(env: Env, at: Places, base: nat, mc: Machine, high: nat)
    requires Level(env, at, base, mc) && AllFlow(env, at) && Bounded(at, high) && |mc.calls| <= env.returnDepth + Depth(env)
    requires |mc.cells| > base + (Depth(env) + 1) * high
    ensures M.Step(env, mc) != Stopped(ValueStackExhausted)
  {
    hide Level, AllFlow, Flows, M.ExecFlow, M.ExecMove, M.ExecOperator, Assembly.WordAt, Bounded, Depth;
    TopBounded(env, at, base, mc, high);
    FrameHeight(env, at, base, mc);
    Known(env, at, mc.pc, at(mc.pc).value);
    var op, next := env.istream[mc.pc], mc.pc + 1 + ImmediateSize(env.istream[mc.pc]);
    var mc' := mc.(pc := next);
    assert (Depth(env) + 1) * high == Depth(env) * high + high;
    if M.Step(env, mc) == Stopped(ValueStackExhausted) {
      if IsFlow(op) {
        FlowGoesOn(env, op, mc.pc + 1, mc');
      } else if IsMove(op) {
        NextBelow(at, next, high);
        MoveStops(env, op, mc.pc + 1, mc');
      } else {
        OperatorGoesOn(env, op, mc.pc + 1, mc');
      }
    }
  }

  lemma NextBelow(at: Places, p: nat, high: nat)
    requires Bounded(at, high)
    ensures BelowAt(at, p, high)
  {}

  /** The arrays do not grow, and calls stop at their limit. */
  lemma StepShape(env: Env, mc: Machine)
    requires M.Step(env, mc).Running?
    ensures var r := M.Step(env, mc).machine;
      |r.cells| == |mc.cells| && (|r.calls| <= |mc.calls| || |r.calls| <= env.callLimit)
  {
    hide Assembly.WordAt, Overwrite, UnarySig, BinarySig, LoadSig, StoreSig, Replicate;
  }

  /** Whole runs. */
  lemma {:induction false} RunHasRoom(env: Env, at: Places, base: nat, mc: Machine, n: nat, high: nat)
    requires Level(env, at, base, mc) && AllFlow(env, at) && Bounded(at, high) && |mc.calls| <= env.returnDepth + Depth(env)
    requires |mc.cells| > base + (Depth(env) + 1) * high
    ensures M.Run(env, mc, n) != Stopped(ValueStackExhausted)
    decreases n
  {
    hide Level, AllFlow, Bounded, M.Step;
    if n > 0 {
      StepHasRoom(env, at, base, mc, high);
      if M.Step(env, mc).Running? {
        StepLevel(env, at, base, mc);
        StepShape(env, mc);
        RunHasRoom(env, at, base, M.Step(env, mc).machine, n - 1, high);
      }
    }
  }

  // ----- enough room -----

  /** The stacks have room for all frames and all calls that may be active. */
  ghost predicate CellsFit(env: Env, start: nat, mc: Machine, fr: Frame)
    requires ModuleOk(env.m)
  {
    |mc.cells| > fr.base + (Depth(env) + 1) * Highest(env.m, start)
  }

  /** A value stack that is as large as the heights of the code say is never
      exhausted, whatever the program computes. */
  lemma NeverExhausted(env: Env, start: nat, f: nat, n: nat, args: seq<Value>, store: Semantics.Store, mc: Machine, fr: Frame)
    requires Starts(env, start, f, args, store, mc, fr) && CellsFit(env, start, mc, fr)
    ensures Run(env, mc, n) != Stopped(ValueStackExhausted)
  {
    hide Run, Loaded, AllFlow, Level, PlacesOf, Highest, Bounded;
    LoadedFlows(env, start);
    ModuleBounded(env, start);
    AtEntry(env, start, f, args, store, mc, fr);
    RunHasRoom(env, PlacesOf(env.m, start), fr.base, mc, n, Highest(env.m, start));
  }

  /** With enough room, running is evaluating, without exception. */
  lemma RunIsEvaluation(env: Env, start: nat, f: nat, fuel: nat, args: seq<Value>, store: Semantics.Store, mc: Machine, fr: Frame)
    returns (n: nat)
    requires Starts(env, start, f, args, store, mc, fr) && CellsFit(env, start, mc, fr) && |fr.calls| + fuel <= env.callLimit
    ensures var r := EvalFunc(env.num, env.m, f, fuel, args, store);
      && (!r.CallOutOfFuel? ==> Matches(fr, Run(env, mc, n), r))
      && (r.CallOutOfFuel? ==> Run(env, mc, n).Running? && n >= fuel)
  {
    hide Run, Starts, Stays, EvalFunc, CellsFit, Matches;
    n := RunOfEvaluation(env, start, f, fuel, args, store, mc, fr);
    NeverExhausted(env, start, f, n, args, store, mc, fr);
  }
}
