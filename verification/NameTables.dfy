/** Names of the entities of a module: generated names, the index spaces they
    are bound in, and the variables that refer to them by index or by name
    (src/generate-names.c, src/ast.c:24-117). */
module NameTables {
  import opened Wasm
  import BindingHash
  type Binding = BindingHash.Binding

  // ----- generated names -----

  /** %u */
  function Digits(n: nat): (s: string)
    ensures s != []
  {
    var d := ["0123456789"[n % 10]];
    if n < 10 then d else Digits(n / 10) + d
  }

  lemma {:induction false} DigitsDiffer(m: nat, n: nat)
    requires m != n
    ensures Digits(m) != Digits(n)
  {
    var x, y := Digits(m), Digits(n);
    if x == y {
      assert x[|x| - 1] == "0123456789"[m % 10] && y[|y| - 1] == "0123456789"[n % 10];
      assert x[..|x| - 1] == (if m < 10 then [] else Digits(m / 10));
      assert y[..|y| - 1] == (if n < 10 then [] else Digits(n / 10));
      SameDigit(m % 10, n % 10);
      DigitsDiffer(m / 10, n / 10);
    }
  }

  lemma SameDigit(c: nat, d: nat)
    requires c < 10 && d < 10 && "0123456789"[c] == "0123456789"[d]
    ensures c == d
  {}

  /** generate_name: the index is an unsigned 32-bit number. */
  function Generated(prefix: string, index: nat): (s: string)
    ensures |s| > |prefix| && s[..|prefix|] == prefix
  {
    prefix + Digits(index % 0x1_0000_0000)
  }

  lemma GeneratedDiffer(prefix: string, i: nat, j: nat)
    requires i != j && i < 0x1_0000_0000 && j < 0x1_0000_0000
    ensures Generated(prefix, i) != Generated(prefix, j)
  {
    hide Digits;
    DigitsDiffer(i, j);
    SmallIndex(i);
    SmallIndex(j);
    Behind(prefix, Digits(i));
    Behind(prefix, Digits(j));
  }

  lemma SmallIndex(i: nat)
    requires i < 0x1_0000_0000
    ensures i % 0x1_0000_0000 == i
  {}

  lemma Behind(p: string, s: string)
    ensures (p + s)[|p|..] == s
  {}

  /** Two prefixes of one length give no name in common. */
  lemma PrefixesDiffer(p: string, q: string, i: nat, j: nat)
    requires p != q && |p| == |q|
    ensures Generated(p, i) != Generated(q, j)
  {
    var x, y := Generated(p, i), Generated(q, j);
    assert x[..|p|] == p && y[..|p|] == q;
  }

  // ----- index spaces -----

  /** The entities of one kind: their names, "" for none, and the hash of the
      bindings as the list of the insertions. */
  datatype Space = Space(names: seq<string>, bindings: seq<Binding>)

  ghost predicate Named(bindings: seq<Binding>, name: string) {
    exists k :: 0 <= k < |bindings| && bindings[k].name == name
  }

  /** wasm_find_binding_index_by_name; which of several equal names is found is
      not specified by the hash, the model takes the oldest. */
  function Find(bindings: seq<Binding>, name: string): (r: int)
    ensures Named(bindings, name) ==> exists k :: 0 <= k < |bindings| && bindings[k] == BindingHash.Binding(name, r)
    ensures !Named(bindings, name) ==> r == -1
  {
    if bindings == [] then -1
    else if bindings[0].name == name then (assert bindings[0] == BindingHash.Binding(name, bindings[0].index); bindings[0].index)
    else
      var rest := bindings[1..];
      assert Named(bindings, name) ==> Named(rest, name) by {
        if Named(bindings, name) {
          var k :| 0 <= k < |bindings| && bindings[k].name == name;
          assert rest[k - 1].name == name;
        }
      }
      assert Named(rest, name) ==> Named(bindings, name);
      assert forall k {:trigger rest[k]} :: 0 <= k < |rest| ==> rest[k] == bindings[k + 1];
      Find(rest, name)
  }

  predicate NoDuplicates(bindings: seq<Binding>) {
    forall i, j :: 0 <= i < j < |bindings| ==> bindings[i].name != bindings[j].name
  }

  /** The names and the bindings of a space say the same. */
  ghost predicate Consistent(s: Space) {
    && (forall k :: 0 <= k < |s.bindings| ==> BoundTo(s, k))
    && (forall i :: 0 <= i < |s.names| && s.names[i] != "" ==> BindingHash.Binding(s.names[i], i) in s.bindings)
  }

  predicate BoundTo(s: Space, k: nat)
    requires k < |s.bindings|
  {
    var b := s.bindings[k];
    0 <= b.index < |s.names| && b.name != "" && s.names[b.index] == b.name
  }

  /** Looking up the name of an entity finds the entity. */
  lemma FindIsInverse(s: Space, i: nat)
    requires Consistent(s) && NoDuplicates(s.bindings) && i < |s.names| && s.names[i] != ""
    ensures Find(s.bindings, s.names[i]) == i
  {
    var b := BindingHash.Binding(s.names[i], i);
    var k :| 0 <= k < |s.bindings| && s.bindings[k] == b;
    assert Named(s.bindings, s.names[i]);
    var r := Find(s.bindings, s.names[i]);
    var k' :| 0 <= k' < |s.bindings| && s.bindings[k'] == BindingHash.Binding(s.names[i], r);
    if k < k' {} else if k' < k {}
  }

  lemma FindIsBound(s: Space, name: string)
    requires Consistent(s)
    ensures var r := Find(s.bindings, name); r == -1 || (0 <= r < |s.names| && s.names[r] == name && name != "")
  {
    var r := Find(s.bindings, name);
    if Named(s.bindings, name) {
      var k :| 0 <= k < |s.bindings| && s.bindings[k] == BindingHash.Binding(name, r);
      assert BoundTo(s, k);
    }
  }

  /** The hash finds what the model finds, if no name was inserted twice. */
  method FindInHash(h: BindingHash.Hash, ghost bindings: seq<Binding>, name: string) returns (index: int)
    requires h.Valid() && NoDuplicates(bindings)
    requires forall b :: BindingHash.Bound(h.entries, b) > 0 <==> b in bindings
    ensures index == Find(bindings, name)
  {
    index := h.FindBindingIndexByName(name);
    ghost var r := Find(bindings, name);
    if Named(bindings, name) {
      ghost var k :| 0 <= k < |bindings| && bindings[k] == BindingHash.Binding(name, r);
      assert bindings[k] in bindings;
      NamedInHash(h, bindings[k]);
      var b := BindingHash.Binding(name, index);
      assert b in bindings;
      ghost var j :| 0 <= j < |bindings| && bindings[j] == b;
      if j < k {} else if k < j {}
    } else {
      NotInHash(h, bindings, name);
    }
  }

  lemma NotInHash(h: BindingHash.Hash, bindings: seq<Binding>, name: string)
    requires h.Valid() && !Named(bindings, name)
    requires forall b :: BindingHash.Bound(h.entries, b) > 0 <==> b in bindings
    ensures !h.Named(name)
  {
    forall i | 0 <= i < |h.entries| && h.entries[i].binding.Some? ensures h.entries[i].binding.value.name != name {
      var b := h.entries[i].binding.value;
      BindingHash.BoundIs(h.entries, b);
      assert b in bindings;
    }
  }

  lemma NamedInHash(h: BindingHash.Hash, b: Binding)
    requires h.Valid() && BindingHash.Bound(h.entries, b) > 0
    ensures h.Named(b.name)
  {
    BindingHash.BoundIs(h.entries, b);
  }

  // ----- generating and binding names -----

  function NamesAfter(names: seq<string>, prefix: string): (r: seq<string>)
    ensures |r| == |names|
  {
    seq(|names|, i requires 0 <= i < |names| => if names[i] != "" then names[i] else Generated(prefix, i))
  }

  /** The bindings that generation inserts for the first n entities. */
  function NewBindings(names: seq<string>, prefix: string, n: nat): (r: seq<Binding>)
    requires n <= |names|
    ensures |r| <= n
  {
    if n == 0 then []
    else NewBindings(names, prefix, n - 1) + (if names[n - 1] != "" then [] else [BindingHash.Binding(Generated(prefix, n - 1), n - 1)])
  }

  function SpaceAfter(s: Space, prefix: string): Space {
    Space(NamesAfter(s.names, prefix), s.bindings + NewBindings(s.names, prefix, |s.names|))
  }

  /** generate_and_bind_local_names, and the loops over the entities of a module. */
  method GenerateAndBind(s: Space, prefix: string) returns (r: Space)
    ensures r == SpaceAfter(s, prefix)
  {
    hide Generated, NamesAfter, NewBindings;
    var names, bindings := s.names, s.bindings;
    var i := 0;
    assert NamesAfter(s.names, prefix)[..0] + s.names[0..] == s.names;
    NewBindingsSnoc(s.names, prefix, 0);
    while i < |names|
      invariant 0 <= i <= |names| == |s.names| && bindings == s.bindings + NewBindings(s.names, prefix, i)
      invariant names == NamesAfter(s.names, prefix)[..i] + s.names[i..]
    {
      NewBindingsSnoc(s.names, prefix, i + 1);
      NameAfterAt(s.names, prefix, i);
      OneMore(NamesAfter(s.names, prefix), s.names, i);
      if names[i] == "" {
        var name := Generated(prefix, i);
        bindings := bindings + [BindingHash.Binding(name, i)];
        names := names[i := name];
      }
      i := i + 1;
    }
    r := Space(names, bindings);
  }

  lemma NameAfterAt(names: seq<string>, prefix: string, i: nat)
    requires i < |names|
    ensures NamesAfter(names, prefix)[i] == if names[i] != "" then names[i] else Generated(prefix, i)
  {}

  lemma NewBindingsSnoc(names: seq<string>, prefix: string, n: nat)
    requires n <= |names|
    ensures n == 0 ==> NewBindings(names, prefix, n) == []
    ensures n > 0 ==>
      NewBindings(names, prefix, n)
        == NewBindings(names, prefix, n - 1) + (if names[n - 1] != "" then [] else [BindingHash.Binding(Generated(prefix, n - 1), n - 1)])
  {}

  lemma OneMore(done: seq<string>, rest: seq<string>, i: nat)
    requires |done| == |rest| && i < |done|
    ensures |done[..i] + rest[i..]| == |done| && (done[..i] + rest[i..])[i] == rest[i]
    ensures done[..i + 1] + rest[i + 1..] == (done[..i] + rest[i..])[i := done[i]]
  {}

  lemma {:induction false} NewBindingOf(names: seq<string>, prefix: string, n: nat, i: nat)
    requires i < n <= |names| && names[i] == ""
    ensures BindingHash.Binding(Generated(prefix, i), i) in NewBindings(names, prefix, n)
  {
    hide Generated;
    if i < n - 1 { NewBindingOf(names, prefix, n - 1, i); }
  }

  predicate NewBindingAt(names: seq<string>, prefix: string, n: nat, b: Binding) {
    0 <= b.index < n && n <= |names| && names[b.index] == "" && b.name == Generated(prefix, b.index)
  }

  lemma {:induction false} NewBindingsAre(names: seq<string>, prefix: string, n: nat)
    requires n <= |names|
    ensures forall k :: 0 <= k < |NewBindings(names, prefix, n)| ==> NewBindingAt(names, prefix, n, NewBindings(names, prefix, n)[k])
  {
    hide Generated;
    if n > 0 {
      NewBindingsAre(names, prefix, n - 1);
      var before, all := NewBindings(names, prefix, n - 1), NewBindings(names, prefix, n);
      forall k | 0 <= k < |all| ensures NewBindingAt(names, prefix, n, all[k]) {
        if k < |before| { assert all[k] == before[k] && NewBindingAt(names, prefix, n - 1, before[k]); }
      }
    }
  }

  lemma {:induction false} NewBindingsApart(names: seq<string>, prefix: string, n: nat)
    requires n <= |names| <= 0x1_0000_0000
    ensures NoDuplicates(NewBindings(names, prefix, n))
  {
    hide Generated;
    if n > 0 {
      NewBindingsApart(names, prefix, n - 1);
      NewBindingsAre(names, prefix, n - 1);
      var before, all := NewBindings(names, prefix, n - 1), NewBindings(names, prefix, n);
      forall j, k | 0 <= j < k < |all| ensures all[j].name != all[k].name {
        assert all[j] == before[j] && NewBindingAt(names, prefix, n - 1, before[j]);
        if k == |before| { GeneratedDiffer(prefix, before[j].index, n - 1); }
      }
    }
  }

  lemma GeneratedConsistent(s: Space, prefix: string)
    requires Consistent(s)
    ensures Consistent(SpaceAfter(s, prefix))
    ensures forall i :: 0 <= i < |s.names| ==> SpaceAfter(s, prefix).names[i] != ""
  {
    hide Generated;
    var r, added := SpaceAfter(s, prefix), NewBindings(s.names, prefix, |s.names|);
    NewBindingsAre(s.names, prefix, |s.names|);
    forall i | 0 <= i < |s.names| ensures r.names[i] != "" { GeneratedNotEmpty(prefix, i); }
    forall k | 0 <= k < |r.bindings| ensures BoundTo(r, k) {
      if k < |s.bindings| { assert BoundTo(s, k); } else {
        assert r.bindings[k] == added[k - |s.bindings|] && NewBindingAt(s.names, prefix, |s.names|, r.bindings[k]);
      }
    }
    forall i | 0 <= i < |r.names| && r.names[i] != "" ensures BindingHash.Binding(r.names[i], i) in r.bindings {
      if s.names[i] != "" { assert BindingHash.Binding(s.names[i], i) in s.bindings; } else { NewBindingOf(s.names, prefix, |s.names|, i); }
    }
  }

  lemma GeneratedNotEmpty(prefix: string, i: nat)
    ensures Generated(prefix, i) != ""
  {}

  /** No unnamed entity gets a name that another one has. */
  ghost predicate NoneTaken(names: seq<string>, prefix: string) {
    forall i, j :: 0 <= i < |names| && 0 <= j < |names| && names[i] == "" && names[j] != "" ==> names[j] != Generated(prefix, i)
  }

  /** Generation keeps names apart exactly if no name that was there before is
      one of those it makes up. */
  lemma GeneratedApart(s: Space, prefix: string)
    requires Consistent(s) && NoDuplicates(s.bindings) && |s.names| <= 0x1_0000_0000
    ensures NoDuplicates(SpaceAfter(s, prefix).bindings) <==> NoneTaken(s.names, prefix)
  {
    hide Generated;
    if NoDuplicates(SpaceAfter(s, prefix).bindings) { ApartThenNoneTaken(s, prefix); }
    if NoneTaken(s.names, prefix) { NoneTakenThenApart(s, prefix); }
  }

  lemma ApartThenNoneTaken(s: Space, prefix: string)
    requires Consistent(s) && NoDuplicates(SpaceAfter(s, prefix).bindings)
    ensures NoneTaken(s.names, prefix)
  {
    hide Generated, NewBindings, NamesAfter;
    var r, added := SpaceAfter(s, prefix), NewBindings(s.names, prefix, |s.names|);
    forall i, j | 0 <= i < |s.names| && 0 <= j < |s.names| && s.names[i] == "" && s.names[j] != ""
      ensures s.names[j] != Generated(prefix, i)
    {
      NewBindingOf(s.names, prefix, |s.names|, i);
      var x :| 0 <= x < |s.bindings| && s.bindings[x] == BindingHash.Binding(s.names[j], j);
      var y :| 0 <= y < |added| && added[y] == BindingHash.Binding(Generated(prefix, i), i);
      assert r.bindings[x].name != r.bindings[|s.bindings| + y].name;
    }
  }

  lemma NoneTakenThenApart(s: Space, prefix: string)
    requires Consistent(s) && NoDuplicates(s.bindings) && |s.names| <= 0x1_0000_0000 && NoneTaken(s.names, prefix)
    ensures NoDuplicates(SpaceAfter(s, prefix).bindings)
  {
    hide Generated, NewBindings, NamesAfter;
    var all, added, n := SpaceAfter(s, prefix).bindings, NewBindings(s.names, prefix, |s.names|), |s.bindings|;
    NewBindingsApart(s.names, prefix, |s.names|);
    NewBindingsAre(s.names, prefix, |s.names|);
    forall x, y | 0 <= x < y < |all| ensures all[x].name != all[y].name {
      if y >= n {
        assert all[y] == added[y - n] && NewBindingAt(s.names, prefix, |s.names|, added[y - n]);
        if x < n { assert BoundTo(s, x); } else { assert all[x] == added[x - n]; }
      }
    }
  }

  /** No entity of the space has a name. */
  predicate Unnamed(s: Space) { s.bindings == [] && forall i :: 0 <= i < |s.names| ==> s.names[i] == "" }

  lemma UnnamedGenerated(s: Space, prefix: string)
    requires Unnamed(s) && |s.names| <= 0x1_0000_0000
    ensures Consistent(SpaceAfter(s, prefix)) && NoDuplicates(SpaceAfter(s, prefix).bindings)
    ensures forall i :: 0 <= i < |s.names| ==> SpaceAfter(s, prefix).names[i] == Generated(prefix, i)
  {
    GeneratedConsistent(s, prefix);
    GeneratedApart(s, prefix);
  }
}
