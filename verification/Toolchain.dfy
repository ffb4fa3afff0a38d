/** Two tools in one: a module is validated as wast2wasm does before it writes one
    (src/tools/wast2wasm.c:245-247), and its code is generated and one of its
    functions run as wasm-interp does with an export
    (src/tools/wasm-interp.c:286-370), which does not validate what it reads. */
module Toolchain {
  import opened Wasm
  import opened Assembly
  import opened Semantics
  import opened Machine
  import opened Steps
  import opened Safety
  import opened Simulation
  import opened Correctness
  import opened Interpreter
  import Typing
  import Validator
  import Room
  import CodeFlow
  import G = Generator
  import M = Machine
  import C = Compile

  datatype Report =
    | Invalid                    // the validator found an error
    | Unsupported                // the code generator did
    | Mismatched                 // the arguments are not those of the function
    | Unfinished                 // the instructions allowed were not enough
    | Finished(results: seq<Bits>)
    | Aborted(trap: Trap)

  /** Limits the binary format and the options of a thread impose. */
  ghost predicate Fits(m: Module) {
    && ModuleOk(m) && C.EntryOf(m, |m.funcs|, 0) < INVALID
    && forall f :: 0 <= f < |m.funcs| ==> Typing.Representable(m.funcs[f].body) && |Expand(m.funcs[f].decls)| < 0x1_0000_0000
  }

  /** The report is what evaluating the function says it should be. */
  ghost predicate Faithful(m: Module, r: Report, e: CallResult) {
    match r
    case Invalid => exists f :: 0 <= f < |m.funcs| && m.funcs[f].sigIndex < |m.sigs| && !Typing.FuncOk(m, f)
    case Unsupported => exists f :: 0 <= f < |m.funcs| && m.funcs[f].sigIndex < |m.sigs| && !Typing.GenerableFunc(m, f)
    case Mismatched => true
    case Unfinished => true
    case Finished(results) => e.Returned? && Holds(results, 0, e.vals) && |results| == |e.vals|
    case Aborted(trap) => OutOfStack(trap) || e == CallTrapped(trap)
  }

  datatype Pushed = Pushed | WrongTypes | NoRoom

  /** The first argument that is not of the type of its parameter. */
  function FirstWrong(params: seq<Type>, args: seq<Value>): (i: nat)
    requires |params| == |args|
    ensures i <= |args| && (forall k :: 0 <= k < i ==> args[k].ty == params[k]) && (i < |args| ==> args[i].ty != params[i])
  {
    var n := |args| - 1;
    if n < 0 then 0
    else
      var i := FirstWrong(params[..n], args[..n]);
      if i < n || args[n].ty != params[n] then i else n + 1
  }

  /** The number and the types of the arguments are checked, the types as they are
      pushed; on a full stack the values go. */
  method PushArgs(t: Thread, params: seq<Type>, args: seq<Value>) returns (r: Pushed)
    requires t.Valid() && t.valueStackTop == 0 && forall k :: 0 <= k < |args| ==> HasType(args[k], args[k].ty)
    modifies t`valueStackTop, t.valueStack
    ensures r ==
      if |args| != |params| then WrongTypes
      else if FirstWrong(params, args) > t.valueStack.Length then NoRoom
      else if FirstWrong(params, args) < |args| then WrongTypes
      else Pushed
    ensures r.Pushed? ==> t.Valid() && t.valueStackTop == |args| && Holds(t.valueStack[..], 0, args)
    ensures r.NoRoom? ==> t.valueStackTop == 0
    ensures t.callStackTop == old(t.callStackTop)
  {
    if |args| != |params| { return WrongTypes; }
    ghost var wrong := FirstWrong(params, args);
    var i := 0;
    while i < |args|
      invariant 0 <= i <= wrong && i <= t.valueStack.Length
      invariant t.Valid() && t.valueStackTop == i && t.callStackTop == old(t.callStackTop)
      invariant forall k :: 0 <= k < i ==> Shows(t.valueStack[k], args[k])
    {
      if args[i].ty != params[i] { return WrongTypes; }
      ghost var before := t.State();
      var s := t.Push(args[i].bits);
      if s != Ok {
        t.valueStackTop := 0;
        return NoRoom;
      }
      assert t.State().cells == before.cells[i := args[i].bits];
      assert forall k :: 0 <= k < i ==> t.valueStack[k] == t.State().cells[k] == before.cells[k];
      assert t.valueStack[i] == t.State().cells[i];
      i := i + 1;
    }
    r := Pushed;
  }

  /** The code of a module, with the entries of its functions, unless a check
      fails. */
  method CompileModule(m: Module) returns (r: Report, istream: seq<u8>, entries: seq<nat>)
    requires Fits(m)
    ensures r.Invalid? || r.Unsupported? || r.Unfinished?
    ensures forall e :: Faithful(m, r, e)
    ensures r.Unfinished? ==> Sound(m) && |entries| == |m.funcs|
    ensures r.Unfinished? ==> forall env: Env :: env.m == m && env.istream == istream && env.entries == entries ==> Loaded(env, 0)
  {
    hide Typing.FuncOk, Typing.Representable, Typing.GenerableFunc, Expand, C.CompFuncs, Encode, Size;
    istream, entries := [], [];
    assert Size([]) == 0 by { NoItems(); }
    var valid := Validator.CheckModule(m);
    if !valid { return Invalid, [], []; }
    NothingUsed();
    var g := new G.Generator(m, []);
    var ok := g.GenerateModule([]);
    if !ok { return Unsupported, [], []; }
    r, istream, entries := Unfinished, g.istream, g.funcOffsets;
    forall env: Env | env.m == m && env.istream == istream && env.entries == entries ensures Loaded(env, 0) {
      GeneratedIsLoaded(env, []);
    }
  }

  lemma NothingUsed()
    ensures forall r :: Offsets([], r) == []
  {}

  lemma Larger(a: nat, b: nat, k: nat)
    requires a <= b
    ensures a <= (k + 1) * b
  {}

  /** A thread that was set up to call f is still at work after so many instructions. */
  ghost predicate StillRunning(env: Env, f: nat, args: seq<Value>, store: Semantics.Store, mc: Machine, steps: nat) {
    Starts(env, 0, f, args, store, mc, Frame(0, [], |mc.cells|, [])) && M.Run(env, mc, steps).Running?
  }

  /** What is reported of a run. */
  function ReportOf(c: Conf): Report {
    match c
    case Running(_) => Unfinished
    case Exited(mc) => Finished(if mc.top <= |mc.cells| then mc.cells[..mc.top] else [])
    case Stopped(trap) => Aborted(trap)
    case Undefined => Unfinished
  }

  /** It is the truth, and a stack that was exhausted was too small. */
  ghost predicate Truthful(num: Numerics, m: Module, f: nat, args: seq<Value>, store: Semantics.Store, cells: nat, calls: nat, fuel: nat, r: Report)
    requires ModuleOk(m) && f < |m.funcs|
  {
    && Faithful(m, r, EvalFunc(num, m, f, fuel, args, store))
    && (r.Finished? ==> |r.results| == |SigOf(m, f).results|)
    && (r == Aborted(ValueStackExhausted) ==> cells <= (calls + 1) * Room.Highest(m, 0))
    && (r == Aborted(CallStackExhausted) ==> forall k: nat :: EvalFunc(num, m, f, k, args, store).CallOutOfFuel? || k > calls)
  }

  lemma Reported(env: Env, f: nat, n: nat, args: seq<Value>, store: Semantics.Store, mc: Machine)
    requires Starts(env, 0, f, args, store, mc, Frame(0, [], |mc.cells|, [])) && env.returnDepth == 0
    ensures ModuleOk(env.m) && M.Run(env, mc, n) != Undefined
    ensures Truthful(env.num, env.m, f, args, store, |mc.cells|, env.callLimit, n + 1, ReportOf(M.Run(env, mc, n)))
  {
    hide EvalFunc, M.Run, Room.Highest, StoreTyped, Loaded, Starts, Sound;
    var fr, c := Frame(0, [], |mc.cells|, []), M.Run(env, mc, n);
    Begun(env, f, args, store, mc, fr);
    NeverUndefined(env, 0, f, n, args, store, mc, fr);
    if !c.Running? {
      EvaluationOfRun(env, 0, f, n, n + 1, args, store, mc, fr);
      SafeFunc(env.num, env.m, f, n + 1, args, store);
      Ended(env, fr, c, args, EvalFunc(env.num, env.m, f, n + 1, args, store), n + 1);
    }
    ValueLimit(env, f, n, args, store, mc, fr);
    CallLimit(env, f, n, args, store, mc, fr);
  }

  lemma Begun(env: Env, f: nat, args: seq<Value>, store: Semantics.Store, mc: Machine, fr: Frame)
    requires Starts(env, 0, f, args, store, mc, fr)
    ensures ModuleOk(env.m) && Sound(env.m) && f < |env.m.funcs| && HaveTypes(args, SigOf(env.m, f).params) && StoreTyped(env.m, store)
  {
    hide HaveTypes, StoreTyped, At;
  }

  lemma Ended(env: Env, fr: Frame, c: Conf, args: seq<Value>, e: CallResult, fuel: nat)
    requires Agrees(env, fr, c, e, fuel) && fr.base == 0 && !c.Running?
    ensures Faithful(env.m, ReportOf(c), e) && (c.Exited? ==> ReportOf(c).Finished? && |ReportOf(c).results| == |e.vals|)
  {}

  lemma ValueLimit(env: Env, f: nat, n: nat, args: seq<Value>, store: Semantics.Store, mc: Machine, fr: Frame)
    requires Starts(env, 0, f, args, store, mc, fr) && fr.base == 0 && env.returnDepth == 0
    ensures ModuleOk(env.m)
    ensures M.Run(env, mc, n) == Stopped(ValueStackExhausted) ==> |mc.cells| <= (env.callLimit + 1) * Room.Highest(env.m, 0)
  {
    hide M.Run, Room.Highest, Starts;
    Begun(env, f, args, store, mc, fr);
    if M.Run(env, mc, n) == Stopped(ValueStackExhausted) && |mc.cells| > (env.callLimit + 1) * Room.Highest(env.m, 0) {
      Room.NeverExhausted(env, 0, f, n, args, store, mc, fr);
    }
  }

  lemma CallLimit(env: Env, f: nat, n: nat, args: seq<Value>, store: Semantics.Store, mc: Machine, fr: Frame)
    requires Starts(env, 0, f, args, store, mc, fr) && |fr.calls| == 0
    ensures M.Run(env, mc, n) == Stopped(CallStackExhausted) ==>
      forall fuel: nat :: EvalFunc(env.num, env.m, f, fuel, args, store).CallOutOfFuel? || fuel > env.callLimit
  {
    hide EvalFunc, M.Run, Starts;
    Begun(env, f, args, store, mc, fr);
    if M.Run(env, mc, n) == Stopped(CallStackExhausted) {
      forall fuel: nat ensures EvalFunc(env.num, env.m, f, fuel, args, store).CallOutOfFuel? || fuel > env.callLimit {
        if !EvalFunc(env.num, env.m, f, fuel, args, store).CallOutOfFuel? && fuel <= env.callLimit {
          CallsFit(env, 0, f, n, fuel, args, store, mc, fr);
        }
      }
    }
  }

  /** A fresh thread with the arguments on its stack. */
  lemma Begins(env: Env, f: nat, args: seq<Value>, globals: seq<Value>, mem: Memory, mc: Machine)
    requires Loaded(env, 0) && f < |env.m.funcs| && env.m.funcs[f].sigIndex < |env.m.sigs| && env.returnDepth == 0
    requires HaveTypes(args, SigOf(env.m, f).params) && StoreTyped(env.m, Semantics.Store(globals, mem))
    requires |env.entries| == |env.m.funcs| && mc.pc == env.entries[f] && mc.top == |args| && mc.calls == [] && |mc.cells| <= INVALID
    requires Holds(mc.cells, 0, args) && mc.mem == mem && |mc.globals| == |globals|
    requires forall i :: 0 <= i < |globals| ==> mc.globals[i] == globals[i].bits
    ensures Starts(env, 0, f, args, Semantics.Store(globals, mem), mc, Frame(0, [], |mc.cells|, []))
  {
    hide Loaded;
    forall i | 0 <= i < |globals| ensures Shows(mc.globals[i], globals[i]) {
      assert HasType(globals[i], env.m.globals[i].ty);
    }
  }

  /** run_function on a fresh thread, for at most `steps` instructions. */
  method RunFunction(env: Env, f: nat, args: seq<Value>, globals: seq<Value>, mem: Memory, valueStackSize: u32, steps: nat)
    returns (r: Report)
    requires Loaded(env, 0) && f < |env.m.funcs| && env.returnDepth == 0 && StoreTyped(env.m, Semantics.Store(globals, mem))
    requires forall k :: 0 <= k < |args| ==> HasType(args[k], args[k].ty)
    ensures ModuleOk(env.m)
    ensures Truthful(env.num, env.m, f, args, Semantics.Store(globals, mem), valueStackSize, env.callLimit, steps + 1, r)
    ensures r.Mismatched? ==> !HaveTypes(args, SigOf(env.m, f).params)
    ensures r.Finished? || r.Unfinished? ==> HaveTypes(args, SigOf(env.m, f).params)
    ensures r.Unfinished? ==>
      exists mc: Machine :: |mc.cells| == valueStackSize && StillRunning(env, f, args, Semantics.Store(globals, mem), mc, steps)
    ensures !r.Invalid? && !r.Unsupported?
  {
    hide EvalFunc, Loaded, M.Run, M.Step, Room.Highest, Starts, StoreTyped, Sound, C.EntryOf;
    CodeFlow.LoadedModule(env, 0);
    SizesAgree(env);
    var params := SigOf(env.m, f).params;
    var cells := seq(|globals|, i requires 0 <= i < |globals| => globals[i].bits);
    var t := new Thread(env, valueStackSize, env.entries[f], cells, mem);
    var pushed := PushArgs(t, params, args);
    Room.ParamsBounded(env, 0, f);
    Larger(|params|, Room.Highest(env.m, 0), env.callLimit);
    if pushed.WrongTypes? { return Mismatched; }
    if pushed.NoRoom? { return Aborted(ValueStackExhausted); }
    ghost var mc, store := t.State(), Semantics.Store(globals, mem);
    Begins(env, f, args, globals, mem, mc);
    Reported(env, f, steps, args, store, mc);
    var s := t.Run(steps);
    assert s.Ok? ==> StillRunning(env, f, args, store, mc, steps);
    r := match s
      case Ok => Unfinished
      case Left => Finished(t.valueStack[..t.valueStackTop])
      case Trap(trap) => Aborted(trap);
    assert r == ReportOf(M.Run(env, mc, steps));
  }

  lemma SizesAgree(env: Env)
    requires Loaded(env, 0)
    ensures |env.entries| == |env.m.funcs|
  {}

  /** Validating, compiling and running. */
  method CompileAndRun(num: Numerics, m: Module, f: nat, args: seq<Value>, globals: seq<Value>, mem: Memory,
      valueStackSize: u32, callStackSize: nat, steps: nat) returns (r: Report)
    requires Fits(m) && f < |m.funcs| && StoreTyped(m, Semantics.Store(globals, mem))
    requires forall k :: 0 <= k < |args| ==> HasType(args[k], args[k].ty)
    ensures Truthful(num, m, f, args, Semantics.Store(globals, mem), valueStackSize, callStackSize, steps + 1, r)
    ensures r.Mismatched? ==> !HaveTypes(args, SigOf(m, f).params)
    ensures r.Finished? || r.Unfinished? ==> HaveTypes(args, SigOf(m, f).params)
    ensures r.Unfinished? ==>
      exists istream, entries, mc: Machine :: |mc.cells| == valueStackSize
        && StillRunning(Env(num, m, istream, entries, callStackSize, 0), f, args, Semantics.Store(globals, mem), mc, steps)
  {
    hide EvalFunc, Loaded, Room.Highest, StoreTyped, StillRunning, Typing.FuncOk, Typing.GenerableFunc, Typing.Representable, Expand, C.EntryOf;
    var istream, entries;
    r, istream, entries := CompileModule(m);
    if r.Unfinished? {
      r := RunFunction(Env(num, m, istream, entries, callStackSize, 0), f, args, globals, mem, valueStackSize, steps);
    }
  }
}
