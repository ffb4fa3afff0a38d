/** What the passes over names do to one variable, and which variables a function
    body has: applying names turns an index into a name, resolving turns a name
    into an index (src/apply-names.c:54-165, src/resolve-names.c:89-161). */
module NameVars {
  import opened Wasm
  import opened NameTables

  /** `index` is a signed 64-bit number. */
  datatype Var = Index(index: int) | Name(name: string)

  datatype Kind = OfLabel | OfLocal | OfGlobal | OfFunc | OfType

  /** A place in a function body that holds a variable: what it refers to, the
      index the binary gave, and the blocks around it, outermost first. A block
      is its number in the order of the visit. */
  datatype Site = Site(kind: Kind, index: u32, stack: seq<nat>)

  // ----- the variables of a body, in the order of the visit -----

  function LabelSites(depths: seq<u32>, stack: seq<nat>): (r: seq<Site>)
    ensures |r| == |depths|
  {
    seq(|depths|, i requires 0 <= i < |depths| => Site(OfLabel, depths[i], stack))
  }

  function LeafSites(e: Instr, stack: seq<nat>): seq<Site>
    requires !IsNested(e)
  {
    match e
    case Br(d) => LabelSites([d], stack)
    case BrIf(d) => LabelSites([d], stack)
    case BrTable(ts, d) => LabelSites(ts + [d], stack)
    case Call(f) => [Site(OfFunc, f, stack)]
    case CallIndirect(t) => [Site(OfType, t, stack)]
    case GetLocal(x) => [Site(OfLocal, x, stack)]
    case SetLocal(x) => [Site(OfLocal, x, stack)]
    case TeeLocal(x) => [Site(OfLocal, x, stack)]
    case GetGlobal(x) => [Site(OfGlobal, x, stack)]
    case SetGlobal(x) => [Site(OfGlobal, x, stack)]
    case _ => []
  }

  function SitesIn(e: Instr, lab: nat, stack: seq<nat>): seq<Site>
    decreases e, 0
  {
    match e
    case Block(_, body) => Sites(body, lab + 1, stack + [lab])
    case Loop(_, body) => Sites(body, lab + 1, stack + [lab])
    case If(_, thn, hasElse, els) =>
      Sites(thn, lab + 1, stack + [lab]) + if hasElse then Sites(els, lab + 1 + |Prefixes(thn)|, stack + [lab]) else []
    case _ => LeafSites(e, stack)
  }

  /** The sites of a list of expressions: its first block has number lab. */
  function Sites(code: Code, lab: nat, stack: seq<nat>): seq<Site>
    decreases code, 1
  {
    match code
    case Nil => []
    case Cons(e, rest) => SitesIn(e, lab, stack) + Sites(rest, lab + |PrefixesIn(e)|, stack)
  }

  /** The prefixes of the names that blocks get, in the order of the visit. */
  function PrefixesIn(e: Instr): seq<string>
    decreases e, 0
  {
    match e
    case Block(_, body) => ["$B"] + Prefixes(body)
    case Loop(_, body) => ["$L"] + Prefixes(body)
    case If(_, thn, hasElse, els) => ["$L"] + Prefixes(thn) + if hasElse then Prefixes(els) else []
    case _ => []
  }

  function Prefixes(code: Code): seq<string>
    decreases code, 1
  {
    match code
    case Nil => []
    case Cons(e, rest) => PrefixesIn(e) + Prefixes(rest)
  }

  // ----- looking up -----

  datatype Env = Env(funcs: Space, types: Space, globals: Space, params: Space, locals: Space)

  /** The cast of a 64-bit index to int. */
  function ToInt(i: int): int {
    var w := i % 0x1_0000_0000;
    if w < 0x8000_0000 then w else w - 0x1_0000_0000
  }

  /** wasm_get_index_from_var */
  function IndexOf(s: Space, v: Var): int {
    if v.Name? then Find(s.bindings, v.name) else ToInt(v.index)
  }

  /** wasm_get_local_index_by_var: locals are numbered after the parameters. */
  function LocalIndex(params: Space, locals: Space, v: Var): int {
    if v.Index? then ToInt(v.index)
    else
      var p, l := Find(params.bindings, v.name), Find(locals.bindings, v.name);
      if p != -1 then p else if l == -1 then -1 else |params.names| + l
  }

  predicate InScope(labels: seq<string>, stack: seq<nat>) { forall k :: 0 <= k < |stack| ==> stack[k] < |labels| }

  /** The innermost block with this name, as a position in the stack; -1 if none. */
  function Innermost(labels: seq<string>, stack: seq<nat>, name: string): (p: int)
    requires InScope(labels, stack)
    ensures -1 <= p < |stack| && (p >= 0 ==> labels[stack[p]] == name)
    ensures forall q :: p < q < |stack| ==> labels[stack[q]] != name
  {
    var n := |stack|;
    if n == 0 then -1
    else if labels[stack[n - 1]] == name then n - 1
    else Innermost(labels, stack[..n - 1], name)
  }

  /** find_label_by_var, likewise. */
  function FindLabel(labels: seq<string>, stack: seq<nat>, v: Var): (p: int)
    requires InScope(labels, stack)
    ensures -1 <= p < |stack|
  {
    if v.Name? then Innermost(labels, stack, v.name)
    else if 0 <= v.index < |stack| then |stack| - 1 - v.index
    else -1
  }

  // ----- the two passes on one variable -----

  datatype Pass = Apply | Resolve

  datatype Outcome = Outcome(v: Var, ok: bool)

  function UseName(name: string, v: Var): Var { if name != "" then Name(name) else v }

  function ApplyIn(s: Space, v: Var): Outcome {
    var i := IndexOf(s, v);
    if 0 <= i < |s.names| then Outcome(UseName(s.names[i], v), true) else Outcome(v, false)
  }

  function ResolveIn(s: Space, v: Var): Outcome {
    if v.Index? then Outcome(v, true)
    else
      var i := Find(s.bindings, v.name);
      if i == -1 then Outcome(v, false) else Outcome(Index(i), true)
  }

  function ApplyLocal(params: Space, locals: Space, v: Var): Outcome {
    var i := LocalIndex(params, locals, v);
    if i < 0 || i >= |params.names| + |locals.names| then Outcome(v, false)
    else if v.Name? then Outcome(v, true)
    else Outcome(UseName((params.names + locals.names)[i], v), true)
  }

  function ResolveLocal(params: Space, locals: Space, v: Var): Outcome {
    if v.Index? then Outcome(v, true)
    else
      var i := LocalIndex(params, locals, v);
      if i == -1 then Outcome(v, false) else Outcome(Index(i), true)
  }

  /** A branch to a block without a name, or out of all blocks, stays as it is. */
  function ApplyLabel(labels: seq<string>, stack: seq<nat>, v: Var): Outcome
    requires InScope(labels, stack)
  {
    var p := FindLabel(labels, stack, v);
    Outcome(if p >= 0 then UseName(labels[stack[p]], v) else v, true)
  }

  function ResolveLabel(labels: seq<string>, stack: seq<nat>, v: Var): Outcome
    requires InScope(labels, stack)
  {
    if v.Index? then Outcome(v, true)
    else
      var p := Innermost(labels, stack, v.name);
      if p >= 0 then Outcome(Index(|stack| - p - 1), true) else Outcome(v, false)
  }

  function SpaceOf(env: Env, kind: Kind): Space
    requires kind.OfGlobal? || kind.OfFunc? || kind.OfType?
  {
    if kind.OfGlobal? then env.globals else if kind.OfFunc? then env.funcs else env.types
  }

  function Step(pass: Pass, env: Env, labels: seq<string>, site: Site, v: Var): Outcome
    requires InScope(labels, site.stack)
  {
    match site.kind
    case OfLabel => if pass.Apply? then ApplyLabel(labels, site.stack, v) else ResolveLabel(labels, site.stack, v)
    case OfLocal => if pass.Apply? then ApplyLocal(env.params, env.locals, v) else ResolveLocal(env.params, env.locals, v)
    case _ => if pass.Apply? then ApplyIn(SpaceOf(env, site.kind), v) else ResolveIn(SpaceOf(env, site.kind), v)
  }

  // ----- applying and then resolving -----

  ghost predicate Orderly(s: Space) { Consistent(s) && NoDuplicates(s.bindings) }

  ghost predicate OrderlyEnv(env: Env) {
    && Orderly(env.funcs) && Orderly(env.types) && Orderly(env.globals) && Orderly(env.params) && Orderly(env.locals)
    && forall i, j :: 0 <= i < |env.params.names| && 0 <= j < |env.locals.names| && env.locals.names[j] != ""
         ==> env.params.names[i] != env.locals.names[j]
  }

  /** What the reader of binaries has checked, except for branches, which may
      also lead out of the function. */
  predicate InRange(env: Env, kind: Kind, x: u32) {
    match kind
    case OfLabel => true
    case OfLocal => x < |env.params.names| + |env.locals.names|
    case _ => x < |SpaceOf(env, kind).names|
  }

  predicate Small(env: Env) {
    |env.funcs.names| < 0x8000_0000 && |env.types.names| < 0x8000_0000 && |env.globals.names| < 0x8000_0000
    && |env.params.names| + |env.locals.names| < 0x8000_0000
  }

  lemma ThereAndBackIn(s: Space, x: u32)
    requires Orderly(s) && |s.names| < 0x8000_0000
    ensures ApplyIn(s, Index(x)).ok <==> x < |s.names|
    ensures x < |s.names| ==> ResolveIn(s, ApplyIn(s, Index(x)).v) == Outcome(Index(x), true)
  {
    if x < |s.names| && s.names[x] != "" { FindIsInverse(s, x); }
  }

  lemma ThereAndBackLocal(params: Space, locals: Space, x: u32)
    requires Orderly(params) && Orderly(locals) && |params.names| + |locals.names| < 0x8000_0000
    requires forall i, j :: 0 <= i < |params.names| && 0 <= j < |locals.names| && locals.names[j] != "" ==> params.names[i] != locals.names[j]
    ensures ApplyLocal(params, locals, Index(x)).ok <==> x < |params.names| + |locals.names|
    ensures x < |params.names| + |locals.names| ==> ResolveLocal(params, locals, ApplyLocal(params, locals, Index(x)).v) == Outcome(Index(x), true)
  {
    hide Find, Consistent, NoDuplicates;
    var n := |params.names|;
    if x < n {
      if params.names[x] != "" { FindIsInverse(params, x); }
    } else if x < n + |locals.names| && locals.names[x - n] != "" {
      assert (params.names + locals.names)[x] == locals.names[x - n];
      FindIsInverse(locals, x - n);
      FindIsBound(params, locals.names[x - n]);
    }
  }

  /** No block between the branch and its target has the name of the target. */
  predicate Unshadowed(labels: seq<string>, stack: seq<nat>, depth: nat)
    requires InScope(labels, stack)
  {
    depth < |stack| ==>
      var target := labels[stack[|stack| - 1 - depth]];
      target == "" || forall q :: |stack| - 1 - depth < q < |stack| ==> labels[stack[q]] != target
  }

  /** A branch comes back to its target exactly if the name of the target is not
      shadowed; nothing in the passes checks that. */
  lemma ThereAndBackLabel(labels: seq<string>, stack: seq<nat>, depth: nat)
    requires InScope(labels, stack)
    ensures ResolveLabel(labels, stack, ApplyLabel(labels, stack, Index(depth)).v) == Outcome(Index(depth), true)
      <==> Unshadowed(labels, stack, depth)
  {
    if depth < |stack| {
      var t := |stack| - 1 - depth;
      var target := labels[stack[t]];
      var p := Innermost(labels, stack, target);
      assert p >= t;
    }
  }

  /** Two nested blocks named alike: a branch to the outer becomes one to the inner. */
  lemma ShadowedBranch()
    ensures ResolveLabel(["$a", "$a"], [0, 1], ApplyLabel(["$a", "$a"], [0, 1], Index(1)).v) == Outcome(Index(0), true)
  {
    assert Innermost(["$a", "$a"], [0, 1], "$a") == 1;
  }

  lemma ThereAndBack(env: Env, labels: seq<string>, site: Site)
    requires OrderlyEnv(env) && Small(env) && InScope(labels, site.stack) && Unshadowed(labels, site.stack, site.index)
    ensures var applied := Step(Apply, env, labels, site, Index(site.index));
      && (applied.ok <==> InRange(env, site.kind, site.index))
      && (applied.ok ==> Step(Resolve, env, labels, site, applied.v) == Outcome(Index(site.index), true))
  {
    hide Innermost, Find, Consistent, NoDuplicates, ApplyIn, ResolveIn, ApplyLocal, ResolveLocal, ResolveLabel, Unshadowed;
    match site.kind
    case OfLabel => ThereAndBackLabel(labels, site.stack, site.index);
    case OfLocal => ThereAndBackLocal(env.params, env.locals, site.index);
    case OfGlobal => ThereAndBackIn(env.globals, site.index);
    case OfFunc => ThereAndBackIn(env.funcs, site.index);
    case OfType => ThereAndBackIn(env.types, site.index);
  }

  // ----- generated labels -----

  /** The names of the blocks after generation: `label_count` counts them all. */
  function LabelsAfter(labels: seq<string>, prefixes: seq<string>): (r: seq<string>)
    requires |labels| == |prefixes|
    ensures |r| == |labels|
  {
    seq(|labels|, i requires 0 <= i < |labels| => if labels[i] != "" then labels[i] else Generated(prefixes[i], i))
  }

  predicate LabelPrefix(p: string) { p == "$B" || p == "$L" }

  lemma {:induction false} PrefixesInKnown(e: Instr)
    ensures forall p :: p in PrefixesIn(e) ==> LabelPrefix(p)
    decreases e, 0
  {
    match e
    case Block(_, body) => PrefixesKnown(body);
    case Loop(_, body) => PrefixesKnown(body);
    case If(_, thn, hasElse, els) => PrefixesKnown(thn); PrefixesKnown(els);
    case _ =>
  }

  lemma {:induction false} PrefixesKnown(code: Code)
    ensures forall p :: p in Prefixes(code) ==> LabelPrefix(p)
    decreases code, 1
  {
    if code.Cons? {
      PrefixesInKnown(code.head);
      PrefixesKnown(code.tail);
    }
  }

  lemma LabelsDiffer(code: Code, i: nat, j: nat)
    requires i < j < |Prefixes(code)| <= 0x1_0000_0000
    ensures Generated(Prefixes(code)[i], i) != Generated(Prefixes(code)[j], j)
  {
    hide Prefixes, Generated;
    PrefixesKnown(code);
    var p, q := Prefixes(code)[i], Prefixes(code)[j];
    assert p in Prefixes(code) && q in Prefixes(code);
    if p == q { GeneratedDiffer(p, i, j); } else { PrefixesDiffer(p, q, i, j); }
  }

  /** The blocks around a site are numbered outside in. */
  predicate Nested(stack: seq<nat>, limit: nat) {
    (forall k :: 0 <= k < |stack| ==> stack[k] < limit) && (forall j, k :: 0 <= j < k < |stack| ==> stack[j] < stack[k])
  }

  ghost predicate AllNested(sites: seq<Site>, limit: nat) { forall k :: 0 <= k < |sites| ==> Nested(sites[k].stack, limit) }

  lemma MoreNested(sites: seq<Site>, limit: nat, limit': nat)
    requires AllNested(sites, limit) && limit <= limit'
    ensures AllNested(sites, limit')
  {}

  lemma {:induction false} SitesInNested(e: Instr, lab: nat, stack: seq<nat>)
    requires Nested(stack, lab)
    ensures AllNested(SitesIn(e, lab, stack), lab + |PrefixesIn(e)|)
    decreases e, 0
  {
    if IsNested(e) {
      assert Nested(stack + [lab], lab + 1);
      if e.If? {
        var thn, mid := Sites(e.thn, lab + 1, stack + [lab]), lab + 1 + |Prefixes(e.thn)|;
        SitesNested(e.thn, lab + 1, stack + [lab]);
        assert Nested(stack + [lab], mid);
        MoreNested(thn, mid, lab + |PrefixesIn(e)|);
        if e.hasElse {
          SitesNested(e.els, mid, stack + [lab]);
          assert SitesIn(e, lab, stack) == thn + Sites(e.els, mid, stack + [lab]);
        }
      } else {
        SitesNested(e.body, lab + 1, stack + [lab]);
      }
    } else {
      LeafNested(e, stack, lab);
    }
  }

  lemma LeafNested(e: Instr, stack: seq<nat>, lab: nat)
    requires !IsNested(e) && Nested(stack, lab)
    ensures AllNested(LeafSites(e, stack), lab)
  {
    hide Nested;
  }

  lemma {:induction false} SitesNested(code: Code, lab: nat, stack: seq<nat>)
    requires Nested(stack, lab)
    ensures AllNested(Sites(code, lab, stack), lab + |Prefixes(code)|)
    decreases code, 1
  {
    if code.Cons? {
      var here, rest := SitesIn(code.head, lab, stack), Sites(code.tail, lab + |PrefixesIn(code.head)|, stack);
      SitesInNested(code.head, lab, stack);
      assert Nested(stack, lab + |PrefixesIn(code.head)|);
      SitesNested(code.tail, lab + |PrefixesIn(code.head)|, stack);
      MoreNested(here, lab + |PrefixesIn(code.head)|, lab + |Prefixes(code)|);
      assert Sites(code, lab, stack) == here + rest;
    }
  }

  predicate NoLabels(labels: seq<string>) { forall i :: 0 <= i < |labels| ==> labels[i] == "" }

  /** In a decoded body no generated label is shadowed. */
  lemma GeneratedUnshadowed(code: Code, labels: seq<string>, k: nat)
    requires |labels| == |Prefixes(code)| <= 0x1_0000_0000 && NoLabels(labels) && k < |Sites(code, 0, [])|
    ensures var site := Sites(code, 0, [])[k];
      InScope(LabelsAfter(labels, Prefixes(code)), site.stack) && Unshadowed(LabelsAfter(labels, Prefixes(code)), site.stack, site.index)
  {
    hide Prefixes, Sites, Generated;
    var site, after := Sites(code, 0, [])[k], LabelsAfter(labels, Prefixes(code));
    SitesNested(code, 0, []);
    assert Nested(site.stack, |labels|);
    if site.index < |site.stack| {
      var t := |site.stack| - 1 - site.index;
      forall q | t < q < |site.stack| ensures after[site.stack[q]] != after[site.stack[t]] {
        LabelsDiffer(code, site.stack[t], site.stack[q]);
      }
    }
  }

  // ----- a whole body -----

  /** The variables of a body as the reader of binaries makes them. */
  function Decoded(sites: seq<Site>): (vars: seq<Var>)
    ensures |vars| == |sites| && forall k :: 0 <= k < |sites| ==> vars[k] == Index(sites[k].index)
  {
    seq(|sites|, k requires 0 <= k < |sites| => Index(sites[k].index))
  }

  ghost predicate AllInScope(sites: seq<Site>, labels: seq<string>) { forall k :: 0 <= k < |sites| ==> InScope(labels, sites[k].stack) }

  /** The variables after a pass, and whether it found all of them. */
  ghost predicate Passed(pass: Pass, env: Env, labels: seq<string>, sites: seq<Site>, vars: seq<Var>, vars': seq<Var>)
    requires AllInScope(sites, labels)
  {
    && |vars| == |vars'| == |sites|
    && forall k :: 0 <= k < |sites| ==> vars'[k] == Step(pass, env, labels, sites[k], vars[k]).v
  }

  ghost predicate Found(pass: Pass, env: Env, labels: seq<string>, sites: seq<Site>, vars: seq<Var>)
    requires AllInScope(sites, labels) && |vars| == |sites|
  {
    forall k :: 0 <= k < |sites| ==> Step(pass, env, labels, sites[k], vars[k]).ok
  }

  /** Generating labels, applying names and resolving them gives back the indices
      of a decoded body; applying fails exactly if one is out of range. */
  lemma BodyThereAndBack(env: Env, code: Code, labels: seq<string>, applied: seq<Var>, resolved: seq<Var>)
    requires OrderlyEnv(env) && Small(env) && |labels| == |Prefixes(code)| <= 0x1_0000_0000 && NoLabels(labels)
    ensures AllInScope(Sites(code, 0, []), LabelsAfter(labels, Prefixes(code)))
    ensures var sites, after := Sites(code, 0, []), LabelsAfter(labels, Prefixes(code));
      && (Found(Apply, env, after, sites, Decoded(sites)) <==> forall k :: 0 <= k < |sites| ==> InRange(env, sites[k].kind, sites[k].index))
      && (Found(Apply, env, after, sites, Decoded(sites)) && Passed(Apply, env, after, sites, Decoded(sites), applied) ==>
            && Found(Resolve, env, after, sites, applied)
            && (Passed(Resolve, env, after, sites, applied, resolved) ==> resolved == Decoded(sites)))
  {
    hide Sites, Prefixes, LabelsAfter, Step, InRange, OrderlyEnv, Unshadowed;
    var sites, after := Sites(code, 0, []), LabelsAfter(labels, Prefixes(code));
    forall k | 0 <= k < |sites|
      ensures InScope(after, sites[k].stack)
      ensures var a := Step(Apply, env, after, sites[k], Index(sites[k].index));
        && (a.ok <==> InRange(env, sites[k].kind, sites[k].index))
        && (a.ok ==> Step(Resolve, env, after, sites[k], a.v) == Outcome(Index(sites[k].index), true))
    {
      GeneratedUnshadowed(code, labels, k);
      ThereAndBack(env, after, sites[k]);
    }
  }
}
