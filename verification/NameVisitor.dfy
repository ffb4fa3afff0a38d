/** The walk over a function body that the passes over names share, with the
    callbacks of applying and resolving (src/ast.c:603-735, src/apply-names.c:45-279,
    src/resolve-names.c:50-264), and the one that names the blocks
    (src/generate-names.c:102-121). */
module NameVisitor {
  import opened Wasm
  import opened NameTables
  import opened NameVars

  // ----- what a walk over some sites has done -----

  ghost predicate SitesFit(sites: seq<Site>, labels: seq<string>, at: nat, vars: seq<Var>) {
    AllInScope(sites, labels) && at + |sites| <= |vars|
  }

  ghost predicate FoundFrom(pass: Pass, env: Env, labels: seq<string>, sites: seq<Site>, at: nat, vars: seq<Var>)
    requires SitesFit(sites, labels, at, vars)
  {
    forall k :: 0 <= k < |sites| ==> Step(pass, env, labels, sites[k], vars[at + k]).ok
  }

  /** `ok` is false when applying met a variable it could not find, and stopped;
      resolving goes on, and `errors` tells. */
  ghost predicate Visited(pass: Pass, env: Env, labels: seq<string>, sites: seq<Site>, at: nat, before: seq<Var>, after: seq<Var>,
      ok: bool, errors: bool)
  {
    && SitesFit(sites, labels, at, before) && |before| == |after|
    && (forall k :: 0 <= k < |before| && !(at <= k < at + |sites|) ==> after[k] == before[k])
    && (ok <==> pass.Resolve? || FoundFrom(pass, env, labels, sites, at, before))
    && (errors <==> pass.Resolve? && !FoundFrom(pass, env, labels, sites, at, before))
    && (ok ==> forall k :: 0 <= k < |sites| ==> after[at + k] == Step(pass, env, labels, sites[k], before[at + k]).v)
  }

  lemma VisitedNone(pass: Pass, env: Env, labels: seq<string>, at: nat, vars: seq<Var>)
    requires at <= |vars|
    ensures Visited(pass, env, labels, [], at, vars, vars, true, false)
  {}

  /** Two walks in a row. */
  lemma VisitedBoth(pass: Pass, env: Env, labels: seq<string>, s: seq<Site>, t: seq<Site>, at: nat, before: seq<Var>, mid: seq<Var>,
      after: seq<Var>, ok: bool, errors: bool, more: bool)
    requires Visited(pass, env, labels, s, at, before, mid, true, errors)
    requires Visited(pass, env, labels, t, at + |s|, mid, after, ok, more)
    ensures Visited(pass, env, labels, s + t, at, before, after, ok, errors || more)
  {
    hide Step;
    var both := s + t;
    forall k | 0 <= k < |both| ensures InScope(labels, both[k].stack) {
      if k < |s| { assert both[k] == s[k]; } else { assert both[k] == t[k - |s|]; }
    }
    FoundBoth(pass, env, labels, s, t, at, before, mid);
    if ok {
      forall k | 0 <= k < |both| ensures after[at + k] == Step(pass, env, labels, both[k], before[at + k]).v {
        if k < |s| { assert both[k] == s[k]; } else { assert both[k] == t[k - |s|] && after[(at + |s|) + (k - |s|)] == after[at + k]; }
      }
    }
  }

  lemma FoundBoth(pass: Pass, env: Env, labels: seq<string>, s: seq<Site>, t: seq<Site>, at: nat, before: seq<Var>, mid: seq<Var>)
    requires SitesFit(s, labels, at, before) && SitesFit(t, labels, at + |s|, mid) && SitesFit(s + t, labels, at, before)
    requires |mid| == |before| && forall k :: at + |s| <= k < |before| ==> mid[k] == before[k]
    ensures FoundFrom(pass, env, labels, s + t, at, before)
      <==> FoundFrom(pass, env, labels, s, at, before) && FoundFrom(pass, env, labels, t, at + |s|, mid)
  {
    hide Step;
    var both := s + t;
    if FoundFrom(pass, env, labels, both, at, before) {
      forall k | 0 <= k < |s| ensures Step(pass, env, labels, s[k], before[at + k]).ok { assert both[k] == s[k]; }
      forall k | 0 <= k < |t| ensures Step(pass, env, labels, t[k], mid[at + |s| + k]).ok {
        assert both[|s| + k] == t[k] && Step(pass, env, labels, both[|s| + k], before[at + (|s| + k)]).ok;
      }
    }
    if FoundFrom(pass, env, labels, s, at, before) && FoundFrom(pass, env, labels, t, at + |s|, mid) {
      forall k | 0 <= k < |both| ensures Step(pass, env, labels, both[k], before[at + k]).ok {
        if k < |s| { assert both[k] == s[k]; } else {
          assert both[k] == t[k - |s|] && Step(pass, env, labels, t[k - |s|], mid[at + |s| + (k - |s|)]).ok;
        }
      }
    }
  }

  /** A walk that stopped, as a part of a longer one. */
  lemma VisitedPart(pass: Pass, env: Env, labels: seq<string>, s: seq<Site>, t: seq<Site>, at: nat, before: seq<Var>, after: seq<Var>, errors: bool)
    requires Visited(pass, env, labels, s, at, before, after, false, errors) && SitesFit(s + t, labels, at, before)
    ensures Visited(pass, env, labels, s + t, at, before, after, false, false)
  {
    hide Step;
    var k :| 0 <= k < |s| && !Step(pass, env, labels, s[k], before[at + k]).ok;
    assert (s + t)[k] == s[k];
  }

  lemma FitsParts(s: seq<Site>, t: seq<Site>, labels: seq<string>, at: nat, vars: seq<Var>)
    requires SitesFit(s + t, labels, at, vars)
    ensures SitesFit(s, labels, at, vars) && SitesFit(t, labels, at + |s|, vars)
  {
    hide InScope;
    forall k | 0 <= k < |s| ensures InScope(labels, s[k].stack) { assert (s + t)[k] == s[k]; }
    forall k | 0 <= k < |t| ensures InScope(labels, t[k].stack) { assert (s + t)[|s| + k] == t[k]; }
  }

  class Visitor {
    const pass: Pass
    const env: Env
    const labelNames: seq<string>  // of all blocks
    var labels: seq<nat>           // the blocks around the current expression
    var vars: seq<Var>             // the variables of the body, in the order of the visit
    var errors: bool               // of resolving

    constructor (pass: Pass, env: Env, labelNames: seq<string>, vars: seq<Var>)
      ensures this.pass == pass && this.env == env && this.labelNames == labelNames && this.vars == vars && labels == [] && !errors
    {
      this.pass, this.env, this.labelNames, this.vars, labels, errors := pass, env, labelNames, vars, [], false;
    }

    /** From the innermost block outwards. */
    method FindLabelByVar(v: Var) returns (p: int)
      requires InScope(labelNames, labels)
      ensures p == FindLabel(labelNames, labels, v)
    {
      if v.Name? {
        p := |labels| - 1;
        while p >= 0 && labelNames[labels[p]] != v.name
          invariant -1 <= p < |labels|
          invariant Innermost(labelNames, labels, v.name) == Innermost(labelNames, labels[..p + 1], v.name)
        {
          assert labels[..p + 1][..p] == labels[..p];
          p := p - 1;
        }
      } else if 0 <= v.index < |labels| {
        p := |labels| - 1 - v.index;
      } else {
        p := -1;
      }
    }

    /** on_br_expr and the like, for one variable. */
    method OnLabelVar(at: nat)
      requires InScope(labelNames, labels) && at < |vars|
      modifies this`vars, this`errors
      ensures var o := if pass.Apply? then ApplyLabel(labelNames, labels, old(vars)[at]) else ResolveLabel(labelNames, labels, old(vars)[at]);
        vars == old(vars)[at := o.v] && errors == (old(errors) || !o.ok)
    {
      var v := vars[at];
      if pass.Apply? || v.Name? {
        var p := FindLabelByVar(v);
        if pass.Apply? {
          if p >= 0 && labelNames[labels[p]] != "" { vars := vars[at := Name(labelNames[labels[p]])]; }
        } else if p >= 0 {
          vars := vars[at := Index(|labels| - p - 1)];
        } else {
          errors := true;
        }
      }
    }

    /** One callback. */
    method OnVar(at: nat, site: Site) returns (ok: bool)
      requires InScope(labelNames, labels) && at < |vars| && site.stack == labels
      modifies this`vars, this`errors
      ensures var o := Step(pass, env, labelNames, site, old(vars)[at]);
        && vars == old(vars)[at := o.v] && (ok <==> pass.Resolve? || o.ok)
        && errors == (old(errors) || (pass.Resolve? && !o.ok))
    {
      ok := true;
      if site.kind.OfLabel? {
        OnLabelVar(at);
      } else {
        var o := Step(pass, env, labelNames, site, vars[at]);
        vars := vars[at := o.v];
        if pass.Apply? { ok := o.ok; } else if !o.ok { errors := true; }
      }
    }

    method VisitLeaf(e: Instr, at: nat) returns (ok: bool, ghost more: bool)
      requires !IsNested(e) && SitesFit(LeafSites(e, labels), labelNames, at, vars)
      modifies this`vars, this`errors
      ensures Visited(pass, env, labelNames, LeafSites(e, labels), at, old(vars), vars, ok, more) && errors == (old(errors) || more)
    {
      hide Step, InScope, SitesFit, Visited;
      var sites := LeafSites(e, labels);
      ghost var before, was := vars, errors;
      more := false;
      LeafStacks(e, labels);
      VisitedStart(pass, env, labelNames, sites, at, vars);
      ok := true;
      var i := 0;
      while i < |sites|
        invariant 0 <= i <= |sites| && |vars| == |before| && SitesFit(sites, labelNames, at, before)
        invariant Visited(pass, env, labelNames, sites[..i], at, before, vars, true, more) && errors == (was || more)
      {
        ghost var mid := vars;
        FitsAt(sites, labelNames, at, before, i);
        ok := OnVar(at + i, sites[i]);
        ghost var bad := !Step(pass, env, labelNames, sites[i], mid[at + i]).ok && pass.Resolve?;
        VisitedOne(pass, env, labelNames, sites[i], at + i, mid, vars, ok);
        assert sites[..i + 1] == sites[..i] + [sites[i]];
        VisitedBoth(pass, env, labelNames, sites[..i], [sites[i]], at, before, mid, vars, ok, more, bad);
        more := more || bad;
        if !ok {
          assert sites[..i + 1] + sites[i + 1..] == sites;
          VisitedPart(pass, env, labelNames, sites[..i + 1], sites[i + 1..], at, before, vars, more);
          ApplyHasNoErrors(pass, env, labelNames, sites[..i + 1], at, before, vars, more);
          more := false;
          return;
        }
        i := i + 1;
      }
      assert sites[..|sites|] == sites;
    }

    method VisitExpr(e: Instr, at: nat, lab: nat) returns (ok: bool, ghost more: bool)
      requires SitesFit(SitesIn(e, lab, labels), labelNames, at, vars)
      modifies this`vars, this`errors, this`labels
      ensures labels == old(labels)
      ensures Visited(pass, env, labelNames, SitesIn(e, lab, old(labels)), at, old(vars), vars, ok, more) && errors == (old(errors) || more)
      decreases e, 0
    {
      hide Step, InScope, SitesFit, Visited, Prefixes, Sites;
      if !IsNested(e) {
        ok, more := VisitLeaf(e, at);
      } else {
        ghost var before, was, stack := vars, errors, labels;
        labels := labels + [lab];
        if e.If? {
          ghost var s, t := Sites(e.thn, lab + 1, labels), if e.hasElse then Sites(e.els, lab + 1 + |Prefixes(e.thn)|, labels) else [];
          FitsParts(s, t, labelNames, at, vars);
          ok, more := VisitExprList(e.thn, at, lab + 1);
          if !ok {
            VisitedPart(pass, env, labelNames, s, t, at, before, vars, more);
            ApplyHasNoErrors(pass, env, labelNames, s, at, before, vars, more);
            more := false;
          } else if e.hasElse {
            ghost var mid := vars;
            FitsStill(t, labelNames, at + |s|, before, mid, pass, env, s, at, more);
            ghost var more2;
            ok, more2 := VisitExprList(e.els, at + |Sites(e.thn, lab + 1, labels)|, lab + 1 + |Prefixes(e.thn)|);
            VisitedBoth(pass, env, labelNames, s, t, at, before, mid, vars, ok, more, more2);
            more := more || more2;
          } else {
            assert s + t == s;
          }
        } else {
          ok, more := VisitExprList(e.body, at, lab + 1);
        }
        labels := labels[..|labels| - 1];
        assert labels == stack;
      }
    }

    method VisitExprList(code: Code, at: nat, lab: nat) returns (ok: bool, ghost more: bool)
      requires SitesFit(Sites(code, lab, labels), labelNames, at, vars)
      modifies this`vars, this`errors, this`labels
      ensures labels == old(labels)
      ensures Visited(pass, env, labelNames, Sites(code, lab, old(labels)), at, old(vars), vars, ok, more) && errors == (old(errors) || more)
      decreases code, 1
    {
      hide Step, InScope, SitesFit, Visited, Prefixes, PrefixesIn, SitesIn;
      ghost var all, before, was := Sites(code, lab, labels), vars, errors;
      more := false;
      ghost var done: seq<Site> := [];
      VisitedStart(pass, env, labelNames, all, at, vars);
      ok := true;
      var expr := code;
      var i: nat, l: nat := at, lab;
      while expr.Cons?
        invariant labels == old(labels) && (expr == code || expr < code)
        invariant all == done + Sites(expr, l, labels) && i == at + |done| && SitesFit(all, labelNames, at, before)
        invariant Visited(pass, env, labelNames, done, at, before, vars, true, more) && errors == (was || more)
        decreases expr
      {
        ghost var s, t := SitesIn(expr.head, l, labels), Sites(expr.tail, l + |PrefixesIn(expr.head)|, labels);
        ghost var mid := vars;
        assert all == done + (s + t) && done + (s + t) == (done + s) + t;
        FitsParts(done, s + t, labelNames, at, before);
        FitsParts(s, t, labelNames, i, before);
        FitsStill(s, labelNames, i, before, mid, pass, env, done, at, more);
        ghost var bad;
        ok, bad := VisitExpr(expr.head, i, l);
        VisitedBoth(pass, env, labelNames, done, s, at, before, mid, vars, ok, more, bad);
        more := more || bad;
        if !ok {
          VisitedPart(pass, env, labelNames, done + s, t, at, before, vars, more);
          ApplyHasNoErrors(pass, env, labelNames, done + s, at, before, vars, more);
          more := false;
          return;
        }
        i := i + |SitesIn(expr.head, l, labels)|;
        l := l + |PrefixesIn(expr.head)|;
        done := done + s;
        expr := expr.tail;
      }
      assert all == done;
    }
  }

  lemma VisitedStart(pass: Pass, env: Env, labels: seq<string>, sites: seq<Site>, at: nat, vars: seq<Var>)
    requires SitesFit(sites, labels, at, vars)
    ensures sites[..0] == [] && Visited(pass, env, labels, [], at, vars, vars, true, false)
  {
    VisitedNone(pass, env, labels, at, vars);
  }

  lemma VisitedOne(pass: Pass, env: Env, labels: seq<string>, site: Site, at: nat, before: seq<Var>, after: seq<Var>, ok: bool)
    requires InScope(labels, site.stack) && at < |before|
    requires var o := Step(pass, env, labels, site, before[at]); after == before[at := o.v] && (ok <==> pass.Resolve? || o.ok)
    ensures Visited(pass, env, labels, [site], at, before, after, ok, pass.Resolve? && !Step(pass, env, labels, site, before[at]).ok)
  {
    hide Step, InScope;
    assert FoundFrom(pass, env, labels, [site], at, before) <==> Step(pass, env, labels, [site][0], before[at + 0]).ok;
  }

  lemma FitsAt(sites: seq<Site>, labels: seq<string>, at: nat, vars: seq<Var>, i: nat)
    requires SitesFit(sites, labels, at, vars) && i < |sites|
    ensures InScope(labels, sites[i].stack) && at + i < |vars|
  {}

  lemma FitsStill(t: seq<Site>, labels: seq<string>, to: nat, before: seq<Var>, mid: seq<Var>, pass: Pass, env: Env, s: seq<Site>, at: nat, more: bool)
    requires SitesFit(t, labels, to, before) && Visited(pass, env, labels, s, at, before, mid, true, more)
    ensures SitesFit(t, labels, to, mid)
  {}

  lemma ApplyHasNoErrors(pass: Pass, env: Env, labels: seq<string>, sites: seq<Site>, at: nat, before: seq<Var>, after: seq<Var>, more: bool)
    requires Visited(pass, env, labels, sites, at, before, after, false, more)
    ensures !more
  {}

  lemma LeafStacks(e: Instr, stack: seq<nat>)
    requires !IsNested(e)
    ensures forall k :: 0 <= k < |LeafSites(e, stack)| ==> LeafSites(e, stack)[k].stack == stack
  {}

  // ----- naming the blocks -----

  ghost predicate BlocksNamed(prefixes: seq<string>, from: nat, before: seq<string>, after: seq<string>) {
    && from + |prefixes| <= |before| == |after|
    && forall k :: 0 <= k < |before| ==>
         after[k] == (if from <= k < from + |prefixes| && before[k] == "" then Generated(prefixes[k - from], k) else before[k])
  }

  lemma NamedBoth(p: seq<string>, q: seq<string>, from: nat, before: seq<string>, mid: seq<string>, after: seq<string>)
    requires BlocksNamed(p, from, before, mid) && BlocksNamed(q, from + |p|, mid, after)
    ensures BlocksNamed(p + q, from, before, after)
  {
    hide Generated;
    var both := p + q;
    assert forall j :: 0 <= j < |both| ==> both[j] == if j < |p| then p[j] else q[j - |p|];
  }

  class BlockNamer {
    var labelNames: seq<string>  // of the blocks, in the order of the visit
    var labelCount: nat

    constructor (labelNames: seq<string>)
      ensures this.labelNames == labelNames && labelCount == 0
    {
      this.labelNames, labelCount := labelNames, 0;
    }

    /** maybe_generate_name */
    method BeginBlock(prefix: string)
      requires labelCount < |labelNames|
      modifies this
      ensures labelCount == old(labelCount) + 1 && BlocksNamed([prefix], old(labelCount), old(labelNames), labelNames)
    {
      if labelNames[labelCount] == "" {
        labelNames := labelNames[labelCount := Generated(prefix, labelCount)];
      }
      labelCount := labelCount + 1;
    }

    method VisitExpr(e: Instr)
      requires labelCount + |PrefixesIn(e)| <= |labelNames|
      modifies this
      ensures labelCount == old(labelCount) + |PrefixesIn(e)| && BlocksNamed(PrefixesIn(e), old(labelCount), old(labelNames), labelNames)
      decreases e, 0
    {
      hide Prefixes, BlocksNamed, Generated;
      ghost var before, from := labelNames, labelCount;
      if IsNested(e) {
        ghost var head := [if e.Block? then "$B" else "$L"];
        BeginBlock(if e.Block? then "$B" else "$L");
        NamesFit(head, from, before, labelNames);
        ghost var mid := labelNames;
        VisitExprList(if e.If? then e.thn else e.body);
        ghost var first := Prefixes(if e.If? then e.thn else e.body);
        NamesFit(first, from + 1, mid, labelNames);
        NamedBoth(head, first, from, before, mid, labelNames);
        if e.If? && e.hasElse {
          ghost var then_ := labelNames;
          VisitExprList(e.els);
          NamedBoth(head + first, Prefixes(e.els), from, before, then_, labelNames);
          assert PrefixesIn(e) == head + first + Prefixes(e.els);
        } else {
          assert PrefixesIn(e) == head + first;
        }
      } else {
        NoneNamed(from, labelNames);
      }
    }

    method VisitExprList(code: Code)
      requires labelCount + |Prefixes(code)| <= |labelNames|
      modifies this
      ensures labelCount == old(labelCount) + |Prefixes(code)| && BlocksNamed(Prefixes(code), old(labelCount), old(labelNames), labelNames)
      decreases code, 1
    {
      hide PrefixesIn, BlocksNamed, Generated;
      ghost var all, before, from := Prefixes(code), labelNames, labelCount;
      ghost var done: seq<string> := [];
      var expr := code;
      NoneNamed(from, labelNames);
      while expr.Cons?
        invariant (expr == code || expr < code) && all == done + Prefixes(expr) && labelCount == from + |done|
        invariant |labelNames| == |before| && BlocksNamed(done, from, before, labelNames)
        decreases expr
      {
        ghost var mid, p := labelNames, PrefixesIn(expr.head);
        assert all == (done + p) + Prefixes(expr.tail);
        VisitExpr(expr.head);
        NamedBoth(done, p, from, before, mid, labelNames);
        NamesFit(done + p, from, before, labelNames);
        done := done + p;
        expr := expr.tail;
      }
      assert all == done;
    }
  }

  lemma NamesFit(p: seq<string>, from: nat, before: seq<string>, after: seq<string>)
    requires BlocksNamed(p, from, before, after)
    ensures |before| == |after|
  {}

  lemma NoneNamed(from: nat, names: seq<string>)
    requires from <= |names|
    ensures BlocksNamed([], from, names, names)
  {}
}
