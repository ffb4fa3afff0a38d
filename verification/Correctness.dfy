/** The theorem about the whole compiler: running the bytes the generator emits
    is evaluating the trees, in both directions, unless a stack is exhausted. */
module Correctness {
  import opened Wasm
  import opened Assembly
  import opened Semantics
  import opened Machine
  import opened Steps
  import opened Safety
  import opened Simulation
  import C = Compile

  /** The machine stands at the entry of function f with its arguments on top,
      and returning from f leaves the interpreter. */
  ghost predicate Starts(env: Env, start: nat, f: nat, args: seq<Value>, store: Semantics.Store, mc: Machine, fr: Frame) {
    Entered(env, start, f, args, store, mc, fr) && |fr.calls| == env.returnDepth
  }

  /** What a finished run has to do with the result of evaluation. On success the
      results lie where the arguments were, and the cells below and the return
      addresses are those of the start. */
  ghost predicate Matches(fr: Frame, c: Conf, r: CallResult) {
    match r
    case Returned(vals, store) => c.Exited? && At(c.machine, c.machine.pc, fr, vals, store)
    case CallTrapped(trap) => c == Stopped(trap)
    case CallOutOfFuel => false
    case CallWrong => false
  }

  /** Unless a stack has no room. */
  ghost predicate Agrees(env: Env, fr: Frame, c: Conf, r: CallResult, fuel: nat) {
    Full(env, fr, c, fuel) || Matches(fr, c, r)
  }

  /** Evaluation that ends has a run that ends in the same way; evaluation that
      runs out of fuel has a run at least as long. */
  lemma RunOfEvaluation(env: Env, start: nat, f: nat, fuel: nat, args: seq<Value>, store: Semantics.Store, mc: Machine, fr: Frame)
    returns (n: nat)
    requires Starts(env, start, f, args, store, mc, fr)
    ensures var r := EvalFunc(env.num, env.m, f, fuel, args, store);
      && (!r.CallOutOfFuel? ==> Agrees(env, fr, Run(env, mc, n), r, fuel))
      && (r.CallOutOfFuel? ==> Full(env, fr, Run(env, mc, n), fuel) || (Run(env, mc, n).Running? && n >= fuel))
      && Stays(env, mc, n, fr)
  {
    hide At, Keeps, Stays, Run, Step, EvalFunc, Loaded;
    n := SimFunc(env, start, f, fuel, args, store, mc, fr);
    var r, c := EvalFunc(env.num, env.m, f, fuel, args, store), Run(env, mc, n);
    if r.Returned? && !Full(env, fr, c, fuel) {
      StepExit(env, c.machine, c.machine.pc, fr, r.vals, r.store);
      AtKeeps(c.machine, c.machine.pc, fr, r.vals, r.store);
      StaysOne(env, c.machine, fr);
      StaysAdd(env, mc, n, 1, fr);
      PcOf(Step(env, c.machine).machine, c.machine.pc + 1, fr, r.vals, r.store);
      n := n + 1;
    }
  }

  /** Compiler correctness, from the run to the evaluation: a run that ends,
      ends as evaluation with enough fuel does. In particular no assertion of
      the interpreter fails and no read leaves its stacks. */
  lemma EvaluationOfRun(env: Env, start: nat, f: nat, n: nat, fuel: nat, args: seq<Value>, store: Semantics.Store, mc: Machine, fr: Frame)
    requires Starts(env, start, f, args, store, mc, fr)
    requires !Run(env, mc, n).Running? && (fuel > n || !EvalFunc(env.num, env.m, f, fuel, args, store).CallOutOfFuel?)
    ensures Agrees(env, fr, Run(env, mc, n), EvalFunc(env.num, env.m, f, fuel, args, store), fuel)
  {
    hide At, Run, Step, EvalFunc, Starts;
    var k := RunOfEvaluation(env, start, f, fuel, args, store, mc, fr);
    if Run(env, mc, k).Running? {
      RunAdd(env, mc, n, k - n);
      assert false;
    } else {
      RunEnds(env, mc, n, k);
    }
  }

  /** A call stack with room for as many return addresses as evaluation needs
      fuel is never exhausted. */
  lemma CallsFit(env: Env, start: nat, f: nat, n: nat, fuel: nat, args: seq<Value>, store: Semantics.Store, mc: Machine, fr: Frame)
    requires Starts(env, start, f, args, store, mc, fr)
    requires !EvalFunc(env.num, env.m, f, fuel, args, store).CallOutOfFuel? && |fr.calls| + fuel <= env.callLimit
    ensures Run(env, mc, n) != Stopped(CallStackExhausted)
  {
    hide At, Run, Step, EvalFunc, Sound, HaveTypes, StoreTyped, C.CompFuncs, C.EntryOf, Encode;
    if Run(env, mc, n) == Stopped(CallStackExhausted) {
      EvaluationOfRun(env, start, f, n, fuel, args, store, mc, fr);
      SafeFunc(env.num, env.m, f, fuel, args, store);
    }
  }

  /** No step is undefined. */
  lemma NeverUndefined(env: Env, start: nat, f: nat, n: nat, args: seq<Value>, store: Semantics.Store, mc: Machine, fr: Frame)
    requires Starts(env, start, f, args, store, mc, fr)
    ensures Run(env, mc, n) != Undefined
  {
    hide At, Run, Step, EvalFunc, Starts;
    if Run(env, mc, n) == Undefined {
      EvaluationOfRun(env, start, f, n, n + 1, args, store, mc, fr);
    }
  }

  /** At no time during a call, however deep the calls it makes, is a cell below
      its arguments or a return address of its callers touched. */
  lemma FramesUntouched(env: Env, start: nat, f: nat, n: nat, args: seq<Value>, store: Semantics.Store, mc: Machine, fr: Frame)
    requires Starts(env, start, f, args, store, mc, fr) && Run(env, mc, n).Running?
    ensures Keeps(Run(env, mc, n).machine, fr)
  {
    hide At, Keeps, Run, Step, EvalFunc, Starts;
    var k := RunOfEvaluation(env, start, f, n, args, store, mc, fr);
    if k < n { RunAdd(env, mc, k, n - k); }
  }

  /** The bytes of a generated module are loaded as the simulation needs them. */
  lemma GeneratedIsLoaded(env: Env, prefix: seq<Item>)
    requires Sound(env.m) && |env.entries| == |env.m.funcs|
    requires forall f :: 0 <= f < |env.m.funcs| ==> |Expand(env.m.funcs[f].decls)| < 0x1_0000_0000
    requires forall f :: 0 <= f < |env.entries| ==> env.entries[f] == C.EntryOf(env.m, f, Size(prefix))
    requires C.EntryOf(env.m, |env.m.funcs|, Size(prefix)) < INVALID
    requires env.istream == Encode(prefix
      + C.CompFuncs(env.m, C.Known(env.m, |env.m.funcs|, Size(prefix)), |env.m.funcs|, Size(prefix)))
    ensures Loaded(env, Size(prefix))
  {
    hide Size, Encode, C.CompFuncs, Expand, SoundFunc;
    var start, n := Size(prefix), |env.m.funcs|;
    var code := C.CompFuncs(env.m, C.Known(env.m, n, start), n, start);
    C.KnownSize(env.m, n, n, start);
    SizeAppend(prefix, code);
    assert ItemsAt(env.istream, 0, prefix + code) by { assert env.istream[0..|env.istream|] == env.istream; }
    SplitAt(env.istream, 0, prefix, code);
  }
}
