/** The three passes over a module: generating names, applying them to its
    variables and resolving them again (src/generate-names.c:124-206,
    src/apply-names.c:281-371, src/resolve-names.c:266-342). */
module NamePasses {
  import opened Wasm
  import opened NameTables
  import opened NameVars
  import opened NameVisitor

  datatype ExportKind = FuncExport | TableExport | MemoryExport | GlobalExport

  datatype Export = Export(kind: ExportKind, v: Var)

  /** The variables of an offset expression refer to globals. */
  datatype Elem = Elem(table: Var, offset: seq<Var>, funcs: seq<Var>)

  datatype Data = Data(memory: Var, offset: seq<Var>)

  /** `labels` and `vars` hold the names of the blocks and the variables of the
      body, in the order of the visit; `typeVar` is missing in a function whose
      signature is written out. */
  datatype Function = Function(typeVar: Option<Var>, params: Space, locals: Space, body: Code, labels: seq<string>, vars: seq<Var>)

  datatype Spaces = Spaces(funcs: Space, types: Space, globals: Space, tables: Space, memories: Space)

  datatype Program = Program(
    spaces: Spaces, exportBindings: seq<Binding>, funcs: seq<Function>, exports: seq<Export>, inits: seq<Var>,
    elems: seq<Elem>, datas: seq<Data>, start: Option<Var>)

  // ----- what the passes compute -----

  function FuncGenerated(f: Function): Function
    requires Shaped(f)
  {
    f.(params := SpaceAfter(f.params, "$p"), locals := SpaceAfter(f.locals, "$l"), labels := LabelsAfter(f.labels, Prefixes(f.body)))
  }

  predicate Shaped(f: Function) { |f.labels| == |Prefixes(f.body)| && |f.vars| == |Sites(f.body, 0, [])| }

  predicate AllShaped(p: Program) { forall i :: 0 <= i < |p.funcs| ==> Shaped(p.funcs[i]) }

  function FuncsGenerated(funcs: seq<Function>): (r: seq<Function>)
    requires forall i :: 0 <= i < |funcs| ==> Shaped(funcs[i])
    ensures |r| == |funcs| && forall i :: 0 <= i < |funcs| ==> r[i] == FuncGenerated(funcs[i])
  {
    seq(|funcs|, i requires 0 <= i < |funcs| => FuncGenerated(funcs[i]))
  }

  function SpacesGenerated(s: Spaces): Spaces {
    Spaces(SpaceAfter(s.funcs, "$f"), SpaceAfter(s.types, "$t"), SpaceAfter(s.globals, "$g"),
      SpaceAfter(s.tables, "$T"), SpaceAfter(s.memories, "$M"))
  }

  function ProgramGenerated(p: Program): Program
    requires AllShaped(p)
  {
    p.(spaces := SpacesGenerated(p.spaces), funcs := FuncsGenerated(p.funcs))
  }

  function StepIn(pass: Pass, s: Space, v: Var): Outcome { if pass.Apply? then ApplyIn(s, v) else ResolveIn(s, v) }

  function VarsAfter(pass: Pass, s: Space, vars: seq<Var>): (r: seq<Var>)
    ensures |r| == |vars| && forall i :: 0 <= i < |vars| ==> r[i] == StepIn(pass, s, vars[i]).v
  {
    seq(|vars|, i requires 0 <= i < |vars| => StepIn(pass, s, vars[i]).v)
  }

  predicate VarsFound(pass: Pass, s: Space, vars: seq<Var>) { forall i :: 0 <= i < |vars| ==> StepIn(pass, s, vars[i]).ok }

  function EnvOf(s: Spaces, f: Function): Env { Env(s.funcs, s.types, s.globals, f.params, f.locals) }

  ghost predicate BodyFits(f: Function) { Shaped(f) && AllInScope(Sites(f.body, 0, []), f.labels) }

  ghost predicate AllFit(p: Program) { forall i :: 0 <= i < |p.funcs| ==> BodyFits(p.funcs[i]) }

  ghost function BodyAfter(pass: Pass, s: Spaces, f: Function): (r: seq<Var>)
    requires BodyFits(f)
    ensures Passed(pass, EnvOf(s, f), f.labels, Sites(f.body, 0, []), f.vars, r)
  {
    var sites := Sites(f.body, 0, []);
    seq(|sites|, k requires 0 <= k < |sites| => Step(pass, EnvOf(s, f), f.labels, sites[k], f.vars[k]).v)
  }

  function TypeVarAfter(pass: Pass, s: Spaces, v: Option<Var>): Option<Var> {
    if v.Some? then Some(StepIn(pass, s.types, v.value).v) else None
  }

  ghost function FuncAfter(pass: Pass, s: Spaces, f: Function): Function
    requires BodyFits(f)
  {
    f.(typeVar := TypeVarAfter(pass, s, f.typeVar), vars := BodyAfter(pass, s, f))
  }

  /** Resolving reports a name bound twice, too. */
  ghost predicate FuncFound(pass: Pass, s: Spaces, f: Function)
    requires BodyFits(f)
  {
    && (f.typeVar.Some? ==> StepIn(pass, s.types, f.typeVar.value).ok)
    && Found(pass, EnvOf(s, f), f.labels, Sites(f.body, 0, []), f.vars)
    && (pass.Resolve? ==> NoDuplicates(f.params.bindings) && NoDuplicates(f.locals.bindings))
  }

  ghost function FuncsAfter(pass: Pass, p: Program): (r: seq<Function>)
    requires AllFit(p)
    ensures |r| == |p.funcs| && forall i :: 0 <= i < |p.funcs| ==> r[i] == FuncAfter(pass, p.spaces, p.funcs[i])
  {
    seq(|p.funcs|, i requires 0 <= i < |p.funcs| => FuncAfter(pass, p.spaces, p.funcs[i]))
  }

  ghost predicate FuncsFound(pass: Pass, p: Program)
    requires AllFit(p)
  {
    forall i :: 0 <= i < |p.funcs| ==> FuncFound(pass, p.spaces, p.funcs[i])
  }

  /** Applying looks every export up as a function, and does not mind if there is
      none; resolving looks at its kind. */
  function ExportSpace(pass: Pass, s: Spaces, kind: ExportKind): Space {
    if pass.Apply? || kind.FuncExport? then s.funcs
    else if kind.TableExport? then s.tables else if kind.MemoryExport? then s.memories else s.globals
  }

  function ExportAfter(pass: Pass, s: Spaces, e: Export): Export { e.(v := StepIn(pass, ExportSpace(pass, s, e.kind), e.v).v) }

  predicate ExportFound(pass: Pass, s: Spaces, e: Export) { pass.Resolve? ==> StepIn(pass, ExportSpace(pass, s, e.kind), e.v).ok }

  /** Applying leaves offset expressions alone. */
  function ElemAfter(pass: Pass, s: Spaces, e: Elem): Elem {
    Elem(StepIn(pass, s.tables, e.table).v, if pass.Apply? then e.offset else VarsAfter(pass, s.globals, e.offset), VarsAfter(pass, s.funcs, e.funcs))
  }

  predicate ElemFound(pass: Pass, s: Spaces, e: Elem) {
    StepIn(pass, s.tables, e.table).ok && (pass.Resolve? ==> VarsFound(pass, s.globals, e.offset)) && VarsFound(pass, s.funcs, e.funcs)
  }

  function DataAfter(pass: Pass, s: Spaces, d: Data): Data {
    Data(StepIn(pass, s.memories, d.memory).v, if pass.Apply? then d.offset else VarsAfter(pass, s.globals, d.offset))
  }

  predicate DataFound(pass: Pass, s: Spaces, d: Data) {
    StepIn(pass, s.memories, d.memory).ok && (pass.Resolve? ==> VarsFound(pass, s.globals, d.offset))
  }

  function ExportsAfter(pass: Pass, s: Spaces, xs: seq<Export>): (r: seq<Export>)
    ensures |r| == |xs| && forall i :: 0 <= i < |xs| ==> r[i] == ExportAfter(pass, s, xs[i])
  {
    seq(|xs|, i requires 0 <= i < |xs| => ExportAfter(pass, s, xs[i]))
  }

  function ElemsAfter(pass: Pass, s: Spaces, xs: seq<Elem>): (r: seq<Elem>)
    ensures |r| == |xs| && forall i :: 0 <= i < |xs| ==> r[i] == ElemAfter(pass, s, xs[i])
  {
    seq(|xs|, i requires 0 <= i < |xs| => ElemAfter(pass, s, xs[i]))
  }

  function DatasAfter(pass: Pass, s: Spaces, xs: seq<Data>): (r: seq<Data>)
    ensures |r| == |xs| && forall i :: 0 <= i < |xs| ==> r[i] == DataAfter(pass, s, xs[i])
  {
    seq(|xs|, i requires 0 <= i < |xs| => DataAfter(pass, s, xs[i]))
  }

  /** Only resolving visits the initializers of globals and the start function. */
  ghost function ProgramAfter(pass: Pass, p: Program): Program
    requires AllFit(p)
  {
    var s := p.spaces;
    p.(funcs := FuncsAfter(pass, p), exports := ExportsAfter(pass, s, p.exports),
       inits := if pass.Apply? then p.inits else VarsAfter(pass, s.globals, p.inits),
       elems := ElemsAfter(pass, s, p.elems), datas := DatasAfter(pass, s, p.datas),
       start := if pass.Resolve? && p.start.Some? then Some(StepIn(pass, s.funcs, p.start.value).v) else p.start)
  }

  predicate BindingsApart(s: Spaces) {
    NoDuplicates(s.funcs.bindings) && NoDuplicates(s.types.bindings) && NoDuplicates(s.globals.bindings)
    && NoDuplicates(s.tables.bindings) && NoDuplicates(s.memories.bindings)
  }

  predicate ExportsFound(pass: Pass, s: Spaces, xs: seq<Export>) { forall i :: 0 <= i < |xs| ==> ExportFound(pass, s, xs[i]) }

  predicate ElemsFound(pass: Pass, s: Spaces, xs: seq<Elem>) { forall i :: 0 <= i < |xs| ==> ElemFound(pass, s, xs[i]) }

  predicate DatasFound(pass: Pass, s: Spaces, xs: seq<Data>) { forall i :: 0 <= i < |xs| ==> DataFound(pass, s, xs[i]) }

  ghost predicate ProgramFound(pass: Pass, p: Program)
    requires AllFit(p)
  {
    && FuncsFound(pass, p) && ExportsFound(pass, p.spaces, p.exports) && ElemsFound(pass, p.spaces, p.elems)
    && DatasFound(pass, p.spaces, p.datas)
    && (pass.Resolve? ==>
          && BindingsApart(p.spaces) && NoDuplicates(p.exportBindings) && VarsFound(pass, p.spaces.globals, p.inits)
          && (p.start.Some? ==> StepIn(pass, p.spaces.funcs, p.start.value).ok))
  }

  // ----- the theorem -----

  predicate VarIn(s: Space, v: Var) { v.Index? && 0 <= v.index < |s.names| }

  predicate VarsIn(s: Space, vars: seq<Var>) { forall i :: 0 <= i < |vars| ==> VarIn(s, vars[i]) }

  predicate SmallSpaces(s: Spaces) {
    |s.funcs.names| < 0x8000_0000 && |s.types.names| < 0x8000_0000 && |s.globals.names| < 0x8000_0000
    && |s.tables.names| < 0x8000_0000 && |s.memories.names| < 0x8000_0000
  }

  predicate UnnamedSpaces(s: Spaces) {
    Unnamed(s.funcs) && Unnamed(s.types) && Unnamed(s.globals) && Unnamed(s.tables) && Unnamed(s.memories)
  }

  /** A function as the reader of binaries makes it. */
  predicate DecodedFunc(s: Spaces, f: Function) {
    && Shaped(f) && Unnamed(f.params) && Unnamed(f.locals) && NoLabels(f.labels) && |f.labels| <= 0x1_0000_0000
    && |f.params.names| + |f.locals.names| < 0x8000_0000
    && f.vars == Decoded(Sites(f.body, 0, [])) && (f.typeVar.Some? ==> VarIn(s.types, f.typeVar.value))
    && forall k :: 0 <= k < |f.vars| ==> InRange(EnvOf(s, f), Sites(f.body, 0, [])[k].kind, Sites(f.body, 0, [])[k].index)
  }

  predicate AnyIndex(vars: seq<Var>) { forall i :: 0 <= i < |vars| ==> vars[i].Index? }

  predicate DecodedElem(s: Spaces, e: Elem) { VarIn(s.tables, e.table) && AnyIndex(e.offset) && VarsIn(s.funcs, e.funcs) }

  predicate DecodedData(s: Spaces, d: Data) { VarIn(s.memories, d.memory) && AnyIndex(d.offset) }

  /** A module as the reader of binaries makes it, without names, and with indices
      in range; but with functions as the only exports. */
  predicate DecodedProgram(p: Program) {
    && UnnamedSpaces(p.spaces) && SmallSpaces(p.spaces) && p.exportBindings == []
    && (forall i :: 0 <= i < |p.funcs| ==> DecodedFunc(p.spaces, p.funcs[i]))
    && (forall i :: 0 <= i < |p.exports| ==> p.exports[i].kind.FuncExport? && VarIn(p.spaces.funcs, p.exports[i].v))
    && (forall i :: 0 <= i < |p.elems| ==> DecodedElem(p.spaces, p.elems[i]))
    && (forall i :: 0 <= i < |p.datas| ==> DecodedData(p.spaces, p.datas[i]))
    && AnyIndex(p.inits) && (p.start.Some? ==> p.start.value.Index?)
  }

  ghost predicate OrderlySpaces(s: Spaces) {
    Orderly(s.funcs) && Orderly(s.types) && Orderly(s.globals) && Orderly(s.tables) && Orderly(s.memories)
  }

  lemma SpacesAreOrderly(s: Spaces)
    requires UnnamedSpaces(s) && SmallSpaces(s)
    ensures OrderlySpaces(SpacesGenerated(s)) && SmallSpaces(SpacesGenerated(s)) && BindingsApart(SpacesGenerated(s))
  {
    hide Unnamed, NamesAfter, NewBindings, Consistent, NoDuplicates;
    UnnamedGenerated(s.funcs, "$f");
    UnnamedGenerated(s.types, "$t");
    UnnamedGenerated(s.globals, "$g");
    UnnamedGenerated(s.tables, "$T");
    UnnamedGenerated(s.memories, "$M");
  }

  lemma VarBack(s: Space, v: Var)
    requires Orderly(s) && |s.names| < 0x8000_0000 && VarIn(s, v)
    ensures StepIn(Apply, s, v).ok && StepIn(Resolve, s, StepIn(Apply, s, v).v) == Outcome(v, true)
  {
    ThereAndBackIn(s, v.index);
  }

  lemma VarsBack(s: Space, vars: seq<Var>)
    requires Orderly(s) && |s.names| < 0x8000_0000 && VarsIn(s, vars)
    ensures VarsFound(Apply, s, vars) && VarsFound(Resolve, s, VarsAfter(Apply, s, vars))
    ensures VarsAfter(Resolve, s, VarsAfter(Apply, s, vars)) == vars
  {
    hide StepIn, Consistent, NoDuplicates;
    forall i | 0 <= i < |vars|
      ensures StepIn(Apply, s, vars[i]).ok && StepIn(Resolve, s, StepIn(Apply, s, vars[i]).v) == Outcome(vars[i], true)
    {
      VarBack(s, vars[i]);
    }
  }

  lemma IndicesStay(s: Space, vars: seq<Var>)
    requires AnyIndex(vars)
    ensures VarsAfter(Resolve, s, vars) == vars && VarsFound(Resolve, s, vars)
  {}

  /** Parameters and locals get different names. */
  lemma EnvIsOrderly(s: Spaces, f: Function)
    requires OrderlySpaces(s) && SmallSpaces(s) && Unnamed(f.params) && Unnamed(f.locals)
    requires |f.params.names| + |f.locals.names| < 0x8000_0000
    ensures var params, locals := SpaceAfter(f.params, "$p"), SpaceAfter(f.locals, "$l");
      var env := Env(s.funcs, s.types, s.globals, params, locals); OrderlyEnv(env) && Small(env)
  {
    hide Unnamed, NewBindings, Consistent, NoDuplicates, Generated, NamesAfter;
    UnnamedGenerated(f.params, "$p");
    UnnamedGenerated(f.locals, "$l");
    var params, locals := SpaceAfter(f.params, "$p"), SpaceAfter(f.locals, "$l");
    forall i, j | 0 <= i < |params.names| && 0 <= j < |locals.names| ensures params.names[i] != locals.names[j] {
      PrefixesDiffer("$p", "$l", i, j);
    }
  }

  lemma SameRange(s: Spaces, s': Spaces, f: Function, f': Function, sites: seq<Site>)
    requires |s'.funcs.names| == |s.funcs.names| && |s'.types.names| == |s.types.names| && |s'.globals.names| == |s.globals.names|
    requires |f'.params.names| == |f.params.names| && |f'.locals.names| == |f.locals.names|
    requires forall k :: 0 <= k < |sites| ==> InRange(EnvOf(s, f), sites[k].kind, sites[k].index)
    ensures forall k :: 0 <= k < |sites| ==> InRange(EnvOf(s', f'), sites[k].kind, sites[k].index)
  {
    forall k | 0 <= k < |sites| ensures InRange(EnvOf(s', f'), sites[k].kind, sites[k].index) {
      assert InRange(EnvOf(s, f), sites[k].kind, sites[k].index);
    }
  }

  lemma FuncBack(s: Spaces, f: Function)
    requires UnnamedSpaces(s) && SmallSpaces(s) && DecodedFunc(s, f)
    ensures var s', g := SpacesGenerated(s), FuncGenerated(f);
      && BodyFits(g) && FuncFound(Apply, s', g)
      && BodyFits(FuncAfter(Apply, s', g)) && FuncFound(Resolve, s', FuncAfter(Apply, s', g))
      && FuncAfter(Resolve, s', FuncAfter(Apply, s', g)) == g
  {
    var s', g, sites := SpacesGenerated(s), FuncGenerated(f), Sites(f.body, 0, []);
    SpacesAreOrderly(s);
    EnvIsOrderly(s', f);
    SameRange(s, s', f, g, sites);
    hide Sites, Prefixes, InRange, OrderlyEnv, Small, Step, StepIn, LabelsAfter, SpacesGenerated, Consistent, NoDuplicates, Unnamed, SpaceAfter;
    BodyThereAndBack(EnvOf(s', g), f.body, f.labels, [], []);
    var a := FuncAfter(Apply, s', g);
    assert EnvOf(s', a) == EnvOf(s', g);
    BodyThereAndBack(EnvOf(s', g), f.body, f.labels, a.vars, []);
    assert BodyFits(a);
    var r := FuncAfter(Resolve, s', a);
    BodyThereAndBack(EnvOf(s', g), f.body, f.labels, a.vars, r.vars);
    if f.typeVar.Some? { TypeBack(s, f.typeVar.value); }
    ParamsApart(f);
  }

  lemma ParamsApart(f: Function)
    requires Unnamed(f.params) && Unnamed(f.locals) && |f.params.names| + |f.locals.names| < 0x8000_0000
    ensures NoDuplicates(SpaceAfter(f.params, "$p").bindings) && NoDuplicates(SpaceAfter(f.locals, "$l").bindings)
  {
    UnnamedGenerated(f.params, "$p");
    UnnamedGenerated(f.locals, "$l");
  }

  lemma TypeBack(s: Spaces, v: Var)
    requires UnnamedSpaces(s) && SmallSpaces(s) && VarIn(s.types, v)
    ensures var t := SpacesGenerated(s).types; StepIn(Apply, t, v).ok && StepIn(Resolve, t, StepIn(Apply, t, v).v) == Outcome(v, true)
  {
    SpacesAreOrderly(s);
    VarBack(SpacesGenerated(s).types, v);
  }

  lemma ElemBack(s: Spaces, e: Elem)
    requires OrderlySpaces(s) && SmallSpaces(s) && DecodedElem(s, e)
    ensures ElemFound(Apply, s, e) && ElemFound(Resolve, s, ElemAfter(Apply, s, e)) && ElemAfter(Resolve, s, ElemAfter(Apply, s, e)) == e
  {
    hide StepIn, Consistent, NoDuplicates;
    VarBack(s.tables, e.table);
    VarsBack(s.funcs, e.funcs);
    IndicesStay(s.globals, e.offset);
  }

  lemma DataBack(s: Spaces, d: Data)
    requires OrderlySpaces(s) && SmallSpaces(s) && DecodedData(s, d)
    ensures DataFound(Apply, s, d) && DataFound(Resolve, s, DataAfter(Apply, s, d)) && DataAfter(Resolve, s, DataAfter(Apply, s, d)) == d
  {
    hide StepIn, Consistent, NoDuplicates;
    VarBack(s.memories, d.memory);
    IndicesStay(s.globals, d.offset);
  }

  /** An export comes back exactly if it is of a function, or if no function has
      its index. */
  lemma ExportBack(s: Spaces, e: Export)
    requires UnnamedSpaces(s) && SmallSpaces(s) && e.v.Index? && 0 <= e.v.index < 0x1_0000_0000
    ensures var s' := SpacesGenerated(s); var a := ExportAfter(Apply, s', e);
      (ExportFound(Resolve, s', a) && ExportAfter(Resolve, s', a) == e <==> e.kind.FuncExport? || e.v.index >= |s.funcs.names|)
  {
    hide SpacesGenerated, Unnamed, Find, Consistent, NoDuplicates;
    SpacesAreOrderly(s);
    SameSizes(s);
    if e.v.index >= |s.funcs.names| { OutOfRange(SpacesGenerated(s).funcs, e.v); }
    else if e.kind.FuncExport? { VarBack(SpacesGenerated(s).funcs, e.v); }
    else { WrongKind(s, e); }
  }

  lemma OutOfRange(s: Space, v: Var)
    requires v.Index? && |s.names| <= v.index < 0x1_0000_0000
    ensures StepIn(Apply, s, v).v == v
  {}

  /** The export of a table takes the name of a function, which is no table's. */
  lemma WrongKind(s: Spaces, e: Export)
    requires UnnamedSpaces(s) && SmallSpaces(s) && VarIn(s.funcs, e.v) && !e.kind.FuncExport?
    ensures var s' := SpacesGenerated(s); !ExportFound(Resolve, s', ExportAfter(Apply, s', e))
  {
    hide Find, NamesAfter, NewBindings, Generated, Unnamed;
    UnnamedGenerated(s.funcs, "$f");
    GeneratedNotEmpty("$f", e.v.index);
    NotBound(s.tables, "$T", e.v.index);
    NotBound(s.memories, "$M", e.v.index);
    NotBound(s.globals, "$g", e.v.index);
  }

  lemma NotBound(s: Space, prefix: string, i: nat)
    requires Unnamed(s) && |s.names| < 0x8000_0000 && prefix != "$f" && |prefix| == 2
    ensures Find(SpaceAfter(s, prefix).bindings, Generated("$f", i)) == -1
  {
    hide Generated, NamesAfter, NewBindings, Find;
    UnnamedGenerated(s, prefix);
    var name := Generated("$f", i);
    FindIsBound(SpaceAfter(s, prefix), name);
    var r := Find(SpaceAfter(s, prefix).bindings, name);
    if r != -1 { PrefixesDiffer(prefix, "$f", r, i); }
  }

  /** Generating names, applying and resolving them gives back every index. */
  lemma ProgramThereAndBack(p: Program)
    requires DecodedProgram(p)
    ensures AllShaped(p)
    ensures var g := ProgramGenerated(p);
      && AllFit(g) && ProgramFound(Apply, g)
      && AllFit(ProgramAfter(Apply, g)) && ProgramFound(Resolve, ProgramAfter(Apply, g))
      && ProgramAfter(Resolve, ProgramAfter(Apply, g)) == g
  {
    hide DecodedFunc, Shaped, FuncGenerated, FuncAfter, FuncFound, BodyFits, ElemAfter, ElemFound, DataAfter, DataFound,
      StepIn, NoDuplicates, Consistent, Unnamed, VarsAfter, SpaceAfter;
    forall i | 0 <= i < |p.funcs| ensures Shaped(p.funcs[i]) { ShapedWhenDecoded(p.spaces, p.funcs[i]); }
    var g := ProgramGenerated(p);
    SpacesAreOrderly(p.spaces);
    forall i | 0 <= i < |p.funcs|
      ensures BodyFits(g.funcs[i]) && FuncFound(Apply, g.spaces, g.funcs[i])
      ensures BodyFits(FuncAfter(Apply, g.spaces, g.funcs[i])) && FuncFound(Resolve, g.spaces, FuncAfter(Apply, g.spaces, g.funcs[i]))
      ensures FuncAfter(Resolve, g.spaces, FuncAfter(Apply, g.spaces, g.funcs[i])) == g.funcs[i]
    {
      FuncBack(p.spaces, p.funcs[i]);
    }
    var a := ProgramAfter(Apply, g);
    RestBack(p);
    NoneTwice();
  }

  lemma NoneTwice()
    ensures NoDuplicates([])
  {}

  lemma ShapedWhenDecoded(s: Spaces, f: Function)
    requires DecodedFunc(s, f)
    ensures Shaped(f)
  {}

  lemma RestBack(p: Program)
    requires DecodedProgram(p)
    ensures var s := SpacesGenerated(p.spaces);
      && ExportsFound(Apply, s, p.exports) && ExportsFound(Resolve, s, ExportsAfter(Apply, s, p.exports))
      && ExportsAfter(Resolve, s, ExportsAfter(Apply, s, p.exports)) == p.exports
      && ElemsFound(Apply, s, p.elems) && ElemsFound(Resolve, s, ElemsAfter(Apply, s, p.elems))
      && ElemsAfter(Resolve, s, ElemsAfter(Apply, s, p.elems)) == p.elems
      && DatasFound(Apply, s, p.datas) && DatasFound(Resolve, s, DatasAfter(Apply, s, p.datas))
      && DatasAfter(Resolve, s, DatasAfter(Apply, s, p.datas)) == p.datas
      && VarsFound(Resolve, s.globals, p.inits) && VarsAfter(Resolve, s.globals, p.inits) == p.inits
      && (p.start.Some? ==> StepIn(Resolve, s.funcs, p.start.value) == Outcome(p.start.value, true))
  {
    hide DecodedFunc, ExportAfter, ExportFound, ElemAfter, ElemFound, DataAfter, DataFound, NoDuplicates, Consistent, Unnamed, VarsAfter,
      SpaceAfter, Find, ApplyIn, DecodedElem, DecodedData;
    var s := SpacesGenerated(p.spaces);
    SpacesAreOrderly(p.spaces);
    SameSizes(p.spaces);
    forall i | 0 <= i < |p.exports|
      ensures ExportFound(Resolve, s, ExportAfter(Apply, s, p.exports[i])) && ExportAfter(Resolve, s, ExportAfter(Apply, s, p.exports[i])) == p.exports[i]
      ensures ExportFound(Apply, s, p.exports[i])
    {
      ExportBack(p.spaces, p.exports[i]);
      ApplyKeepsExports(s, p.exports[i]);
    }
    forall i | 0 <= i < |p.elems|
      ensures ElemFound(Apply, s, p.elems[i]) && ElemFound(Resolve, s, ElemAfter(Apply, s, p.elems[i]))
      ensures ElemAfter(Resolve, s, ElemAfter(Apply, s, p.elems[i])) == p.elems[i]
    {
      ElemStill(p.spaces, p.elems[i]);
      ElemBack(s, p.elems[i]);
    }
    forall i | 0 <= i < |p.datas|
      ensures DataFound(Apply, s, p.datas[i]) && DataFound(Resolve, s, DataAfter(Apply, s, p.datas[i]))
      ensures DataAfter(Resolve, s, DataAfter(Apply, s, p.datas[i])) == p.datas[i]
    {
      DataStill(p.spaces, p.datas[i]);
      DataBack(s, p.datas[i]);
    }
    IndicesStay(s.globals, p.inits);
  }

  lemma ApplyKeepsExports(s: Spaces, e: Export)
    ensures ExportFound(Apply, s, e)
  {}

  lemma SameSizes(s: Spaces)
    ensures var s' := SpacesGenerated(s);
      && |s'.funcs.names| == |s.funcs.names| && |s'.types.names| == |s.types.names| && |s'.globals.names| == |s.globals.names|
      && |s'.tables.names| == |s.tables.names| && |s'.memories.names| == |s.memories.names|
  {}

  lemma ElemStill(s: Spaces, e: Elem)
    requires DecodedElem(s, e)
    ensures DecodedElem(SpacesGenerated(s), e)
  {
    SameSizes(s);
    hide SpacesGenerated;
    forall i | 0 <= i < |e.funcs| ensures VarIn(SpacesGenerated(s).funcs, e.funcs[i]) { assert VarIn(s.funcs, e.funcs[i]); }
  }

  lemma DataStill(s: Spaces, d: Data)
    requires DecodedData(s, d)
    ensures DecodedData(SpacesGenerated(s), d)
  {
    SameSizes(s);
  }

  // ----- the passes -----

  /** A list of variables of one kind. Applying stops at the first that is not
      found, resolving goes on. */
  method PassVars(pass: Pass, s: Space, vars: seq<Var>) returns (r: seq<Var>, ok: bool)
    ensures ok <==> VarsFound(pass, s, vars)
    ensures ok || pass.Resolve? ==> r == VarsAfter(pass, s, vars)
  {
    hide StepIn;
    r, ok := vars, true;
    var i := 0;
    while i < |vars|
      invariant 0 <= i <= |vars| == |r|
      invariant forall k :: 0 <= k < |vars| ==> r[k] == if k < i then StepIn(pass, s, vars[k]).v else vars[k]
      invariant ok <==> forall k :: 0 <= k < i ==> StepIn(pass, s, vars[k]).ok
      invariant pass.Apply? ==> ok
    {
      var o := StepIn(pass, s, vars[i]);
      ok := ok && o.ok;
      if pass.Apply? && !ok { return; }
      r := r[i := o.v];
      i := i + 1;
    }
  }

  method PassExports(pass: Pass, s: Spaces, exports: seq<Export>) returns (r: seq<Export>, ok: bool)
    ensures r == ExportsAfter(pass, s, exports) && (ok <==> ExportsFound(pass, s, exports))
  {
    r, ok := [], true;
    var i := 0;
    while i < |exports|
      invariant 0 <= i <= |exports| && r == ExportsAfter(pass, s, exports)[..i]
      invariant ok <==> forall k :: 0 <= k < i ==> ExportFound(pass, s, exports[k])
    {
      var e := exports[i];
      var o := StepIn(pass, ExportSpace(pass, s, e.kind), e.v);
      if pass.Resolve? && !o.ok { ok := false; }
      r := r + [e.(v := o.v)];
      i := i + 1;
    }
  }

  method PassElem(pass: Pass, s: Spaces, e: Elem) returns (r: Elem, ok: bool)
    ensures ok <==> ElemFound(pass, s, e)
    ensures ok || pass.Resolve? ==> r == ElemAfter(pass, s, e)
  {
    hide StepIn;
    r := e;
    var o, found := StepIn(pass, s.tables, e.table), true;
    ok := o.ok;
    if pass.Apply? && !ok { return; }
    var offset := e.offset;
    if pass.Resolve? { offset, found := PassVars(pass, s.globals, offset); }
    var funcs, all := PassVars(pass, s.funcs, e.funcs);
    ok := ok && found && all;
    r := Elem(o.v, offset, funcs);
  }

  method PassElems(pass: Pass, s: Spaces, elems: seq<Elem>) returns (r: seq<Elem>, ok: bool)
    ensures ok <==> ElemsFound(pass, s, elems)
    ensures ok || pass.Resolve? ==> r == ElemsAfter(pass, s, elems)
  {
    hide ElemFound, ElemAfter;
    r, ok := [], true;
    var i := 0;
    while i < |elems|
      invariant 0 <= i <= |elems| && r == ElemsAfter(pass, s, elems)[..i]
      invariant ok <==> forall k :: 0 <= k < i ==> ElemFound(pass, s, elems[k])
      invariant pass.Apply? ==> ok
    {
      var e, found := PassElem(pass, s, elems[i]);
      ok := ok && found;
      if pass.Apply? && !ok { return; }
      r := r + [e];
      i := i + 1;
    }
  }

  method PassDatas(pass: Pass, s: Spaces, datas: seq<Data>) returns (r: seq<Data>, ok: bool)
    ensures ok <==> DatasFound(pass, s, datas)
    ensures ok || pass.Resolve? ==> r == DatasAfter(pass, s, datas)
  {
    hide StepIn;
    r, ok := [], true;
    var i := 0;
    while i < |datas|
      invariant 0 <= i <= |datas| && r == DatasAfter(pass, s, datas)[..i]
      invariant ok <==> forall k :: 0 <= k < i ==> DataFound(pass, s, datas[k])
      invariant pass.Apply? ==> ok
    {
      var d := datas[i];
      var o, offset, found := StepIn(pass, s.memories, d.memory), d.offset, true;
      if pass.Resolve? { offset, found := PassVars(pass, s.globals, offset); }
      ok := ok && o.ok && found;
      if pass.Apply? && !ok { return; }
      r := r + [Data(o.v, offset)];
      i := i + 1;
    }
  }

  /** visit_func of applying and of resolving. */
  method PassFunc(pass: Pass, s: Spaces, f: Function) returns (r: Function, ok: bool)
    requires BodyFits(f)
    ensures ok <==> FuncFound(pass, s, f)
    ensures ok || pass.Resolve? ==> r == FuncAfter(pass, s, f)
  {
    hide StepIn, Step, Sites, Prefixes, InScope, NoDuplicates;
    r, ok := f, true;
    var typeVar := f.typeVar;
    if typeVar.Some? {
      var o := StepIn(pass, s.types, typeVar.value);
      ok, typeVar := o.ok, Some(o.v);
      if pass.Apply? && !ok { return; }
    }
    if pass.Resolve? { ok := ok && NoDuplicates(f.params.bindings) && NoDuplicates(f.locals.bindings); }
    var visitor := new Visitor(pass, EnvOf(s, f), f.labels, f.vars);
    var found, more := visitor.VisitExprList(f.body, 0, 0);
    ghost var sites := Sites(f.body, 0, []);
    WholeBody(pass, EnvOf(s, f), f.labels, sites, f.vars, visitor.vars, found, more);
    ok := ok && found && !visitor.errors;
    r := f.(typeVar := typeVar, vars := visitor.vars);
    if found { assert visitor.vars == BodyAfter(pass, s, f); }
  }

  lemma WholeBody(pass: Pass, env: Env, labels: seq<string>, sites: seq<Site>, before: seq<Var>, after: seq<Var>, ok: bool, more: bool)
    requires Visited(pass, env, labels, sites, 0, before, after, ok, more) && |sites| == |before|
    ensures (ok && !more) <==> Found(pass, env, labels, sites, before)
    ensures ok ==> Passed(pass, env, labels, sites, before, after)
  {
    hide Step;
    forall k | 0 <= k < |sites| ensures before[0 + k] == before[k] && after[0 + k] == after[k] {}
  }

  /** visit_func of generating. */
  method GenerateFunc(f: Function) returns (r: Function)
    requires Shaped(f)
    ensures r == FuncGenerated(f)
  {
    hide Generated, Prefixes, Sites;
    var params := GenerateAndBind(f.params, "$p");
    var locals := GenerateAndBind(f.locals, "$l");
    var namer := new BlockNamer(f.labels);
    namer.VisitExprList(f.body);
    assert namer.labelNames == LabelsAfter(f.labels, Prefixes(f.body));
    r := f.(params := params, locals := locals, labels := namer.labelNames);
  }

  class Module {
    var spaces: Spaces
    var exportBindings: seq<Binding>
    var funcs: seq<Function>
    var exports: seq<Export>
    var inits: seq<Var>
    var elems: seq<Elem>
    var datas: seq<Data>
    var start: Option<Var>

    function Value(): Program
      reads this
    {
      Program(spaces, exportBindings, funcs, exports, inits, elems, datas, start)
    }

    constructor (p: Program)
      ensures Value() == p
    {
      spaces, exportBindings, funcs, exports := p.spaces, p.exportBindings, p.funcs, p.exports;
      inits, elems, datas, start := p.inits, p.elems, p.datas, p.start;
    }

    /** wasm_generate_names */
    method GenerateNames()
      requires AllShaped(Value())
      modifies this
      ensures Value() == ProgramGenerated(old(Value()))
    {
      hide Shaped, FuncGenerated, SpaceAfter;
      var globals := GenerateAndBind(spaces.globals, "$g");
      var types := GenerateAndBind(spaces.types, "$t");
      var names := GenerateAndBind(spaces.funcs, "$f");
      GenerateFuncs();
      var tables := GenerateAndBind(spaces.tables, "$T");
      var memories := GenerateAndBind(spaces.memories, "$M");
      spaces := Spaces(names, types, globals, tables, memories);
    }

    method GenerateFuncs()
      requires forall i :: 0 <= i < |funcs| ==> Shaped(funcs[i])
      modifies this`funcs
      ensures |funcs| == |old(funcs)| && (forall i :: 0 <= i < |funcs| ==> Shaped(old(funcs)[i])) && funcs == FuncsGenerated(old(funcs))
    {
      hide Shaped, FuncGenerated;
      ghost var before := funcs;
      var i := 0;
      while i < |funcs|
        invariant 0 <= i <= |funcs| == |before|
        invariant forall k :: 0 <= k < |before| ==> funcs[k] == if k < i then FuncGenerated(before[k]) else before[k]
      {
        var f := GenerateFunc(funcs[i]);
        funcs := funcs[i := f];
        i := i + 1;
      }
    }

    /** The functions, for applying and for resolving. */
    method PassFuncs(pass: Pass) returns (ok: bool)
      requires AllFit(Value())
      modifies this`funcs
      ensures ok <==> FuncsFound(pass, old(Value()))
      ensures ok || pass.Resolve? ==> funcs == FuncsAfter(pass, old(Value()))
    {
      hide BodyFits, FuncFound, FuncAfter;
      ghost var before, p := funcs, Value();
      assert forall k :: 0 <= k < |before| ==> BodyFits(before[k]) by {
        forall k | 0 <= k < |before| ensures BodyFits(before[k]) { assert BodyFits(p.funcs[k]); }
      }
      ok := true;
      var i := 0;
      while i < |funcs|
        invariant 0 <= i <= |funcs| == |before|
        invariant forall k :: i <= k < |before| ==> funcs[k] == before[k]
        invariant forall k :: 0 <= k < i ==> funcs[k] == FuncAfter(pass, spaces, before[k])
        invariant ok <==> forall k :: 0 <= k < i ==> FuncFound(pass, spaces, before[k])
        invariant pass.Apply? ==> ok
      {
        var f, found := PassFunc(pass, spaces, funcs[i]);
        ok := ok && found;
        if pass.Apply? && !ok { return; }
        funcs := funcs[i := f];
        i := i + 1;
      }
    }

    /** wasm_apply_names: what has been renamed when it fails stays renamed. */
    method ApplyNames() returns (ok: bool)
      requires AllFit(Value())
      modifies this`funcs, this`exports, this`elems, this`datas
      ensures ok <==> ProgramFound(Apply, old(Value()))
      ensures ok ==> Value() == ProgramAfter(Apply, old(Value()))
    {
      hide BodyFits, FuncFound, FuncAfter, ExportAfter, ExportFound, ElemAfter, ElemFound, DataAfter, DataFound;
      ghost var p := Value();
      NoExportMissing(p.spaces, p.exports);
      ok := PassFuncs(Apply);
      if !ok { return; }
      var renamed, _ := PassExports(Apply, spaces, exports);
      exports := renamed;
      elems, ok := PassElems(Apply, spaces, elems);
      if !ok { return; }
      datas, ok := PassDatas(Apply, spaces, datas);
    }

    /** wasm_resolve_names_module */
    method ResolveNames() returns (ok: bool)
      requires AllFit(Value())
      modifies this`funcs, this`exports, this`inits, this`elems, this`datas, this`start
      ensures Value() == ProgramAfter(Resolve, old(Value())) && (ok <==> ProgramFound(Resolve, old(Value())))
    {
      hide BodyFits, FuncFound, FuncAfter, ExportAfter, ExportFound, ElemAfter, ElemFound, DataAfter, DataFound, NoDuplicates, StepIn;
      ok := BindingsApart(spaces) && NoDuplicates(exportBindings);
      var found := PassFuncs(Resolve);
      ok := ok && found;
      exports, found := PassExports(Resolve, spaces, exports);
      ok := ok && found;
      inits, found := PassVars(Resolve, spaces.globals, inits);
      ok := ok && found;
      elems, found := PassElems(Resolve, spaces, elems);
      ok := ok && found;
      datas, found := PassDatas(Resolve, spaces, datas);
      ok := ok && found;
      if start.Some? {
        var o := StepIn(Resolve, spaces.funcs, start.value);
        ok, start := ok && o.ok, Some(o.v);
      }
    }

    /** The three passes in a row, on a decoded module: every index comes back. */
    method NameAndResolve() returns (ok: bool)
      requires DecodedProgram(Value())
      modifies this
      ensures ok && AllShaped(old(Value())) && Value() == ProgramGenerated(old(Value()))
    {
      hide DecodedProgram, ProgramGenerated, ProgramAfter, ProgramFound, AllFit;
      ProgramThereAndBack(Value());
      GenerateNames();
      var applied := ApplyNames();
      var resolved := ResolveNames();
      ok := applied && resolved;
    }
  }

  lemma NoExportMissing(s: Spaces, exports: seq<Export>)
    ensures ExportsFound(Apply, s, exports)
  {}
}
