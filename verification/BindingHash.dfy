/** The hash table of names (src/binding-hash.c): collisions are chained through
    the slots of one array, an entry that sits where another belongs is moved
    away, and the unused slots form a doubly linked list. Pointers are slot
    numbers. It behaves as a multiset of bindings, for any hash function. */
module BindingHash {
  import opened Wasm

  datatype Binding = Binding(name: string, index: int)

  /** A slot; `prev` means something only while the slot is unused. */
  datatype Entry = Entry(binding: Option<Binding>, next: Option<nat>, prev: Option<nat>)

  const INITIAL_CAPACITY := 8

  // ----- lists of slots -----

  function At(s: seq<nat>, k: int): Option<nat> { if 0 <= k < |s| then Some(s[k]) else None }

  function Put(s: seq<nat>, k: nat, f: nat): (r: seq<nat>)
    requires k < |s|
  {
    s[k := f]
  }

  ghost predicate Distinct(s: seq<nat>) { forall i, j :: 0 <= i < j < |s| ==> s[i] != s[j] }

  /** The list starting at `head` links exactly the unused slots, in this order. */
  ghost predicate FreeList(entries: seq<Entry>, head: Option<nat>, free: seq<nat>) {
    && head == At(free, 0) && FreeLinks(entries, free)
    && (forall i :: 0 <= i < |entries| && entries[i].binding.None? ==> i in free)
  }

  ghost predicate FreeLinks(entries: seq<Entry>, free: seq<nat>) {
    Distinct(free) && forall k :: 0 <= k < |free| ==> FreeSlot(entries, free, k)
  }

  predicate FreeSlot(entries: seq<Entry>, free: seq<nat>, k: nat)
    requires k < |free|
  {
    && free[k] < |entries|
    && entries[free[k]] == Entry(None, At(free, k + 1), At(free, k - 1))
  }

  function Main(h: string -> nat, n: nat, name: string): (m: nat)
    requires n > 0
    ensures m < n
  {
    h(name) % n
  }

  predicate ChainSlot(entries: seq<Entry>, h: string -> nat, m: nat, c: seq<nat>, k: nat)
    requires k < |c|
  {
    && c[k] < |entries| && entries[c[k]].binding.Some?
    && Main(h, |entries|, entries[c[k]].binding.value.name) == m
    && entries[c[k]].next == At(c, k + 1)
  }

  /** The entries whose main slot is m, linked from that slot. */
  ghost predicate Chain(entries: seq<Entry>, h: string -> nat, m: nat, c: seq<nat>) {
    && (c != [] ==> c[0] == m) && Distinct(c)
    && forall k :: 0 <= k < |c| ==> ChainSlot(entries, h, m, c, k)
  }

  /** Every used slot is on the chain of its main slot. */
  ghost predicate Chains(entries: seq<Entry>, h: string -> nat, chains: seq<seq<nat>>) {
    && |chains| == |entries|
    && (forall m :: 0 <= m < |entries| ==> Chain(entries, h, m, chains[m]))
    && (forall i :: 0 <= i < |entries| && entries[i].binding.Some? ==>
          i in chains[Main(h, |entries|, entries[i].binding.value.name)])
  }

  /** In a used slot `prev` is null. */
  ghost predicate NoPrev(entries: seq<Entry>) {
    forall i :: 0 <= i < |entries| && entries[i].binding.Some? ==> entries[i].prev == None
  }

  // ----- what the table holds -----

  function Bindings(entries: seq<Entry>): (bs: seq<Option<Binding>>)
    ensures |bs| == |entries| && forall i :: 0 <= i < |entries| ==> bs[i] == entries[i].binding
  {
    seq(|entries|, i requires 0 <= i < |entries| => entries[i].binding)
  }

  /** How often a binding is in the table. */
  function Bound(entries: seq<Entry>, b: Binding): nat { multiset(Bindings(entries))[Some(b)] }

  lemma BoundSet(entries: seq<Entry>, i: nat, e: Entry, b: Binding)
    requires i < |entries|
    ensures Bound(entries[i := e], b)
      == Bound(entries, b) - (if entries[i].binding == Some(b) then 1 else 0) + (if e.binding == Some(b) then 1 else 0)
  {
    assert Bindings(entries[i := e]) == Bindings(entries)[i := e.binding];
  }

  lemma BoundIs(entries: seq<Entry>, b: Binding)
    ensures Bound(entries, b) > 0 <==> exists i :: 0 <= i < |entries| && entries[i].binding == Some(b)
  {
    if Bound(entries, b) > 0 {
      assert Some(b) in Bindings(entries);
    }
    if i :| 0 <= i < |entries| && entries[i].binding == Some(b) {
      assert Bindings(entries)[i] == Some(b);
    }
  }

  // ----- unlinking a slot from the free list -----

  /** The slots after element p of the free list is unlinked. */
  function Unlinked(entries: seq<Entry>, free: seq<nat>, p: nat): seq<Entry>
    requires p < |free| && (p + 1 < |free| ==> free[p + 1] < |entries|) && (p > 0 ==> free[p - 1] < |entries|)
  {
    var e1 := if p + 1 < |free| then entries[free[p + 1] := entries[free[p + 1]].(prev := At(free, p - 1))] else entries;
    if p > 0 then e1[free[p - 1] := e1[free[p - 1]].(next := At(free, p + 1))] else e1
  }

  lemma FreeInside(entries: seq<Entry>, free: seq<nat>, k: nat)
    requires FreeLinks(entries, free) && k < |free|
    ensures free[k] < |entries| && entries[free[k]] == Entry(None, At(free, k + 1), At(free, k - 1))
  {
    assert FreeSlot(entries, free, k);
  }

  lemma UnlinkedSlots(entries: seq<Entry>, free: seq<nat>, p: nat)
    requires FreeLinks(entries, free) && p < |free|
    ensures (p + 1 < |free| ==> free[p + 1] < |entries|) && (p > 0 ==> free[p - 1] < |entries|)
    ensures var e', free' := Unlinked(entries, free, p), free[..p] + free[p + 1..];
      && |e'| == |entries| && FreeLinks(e', free') && free[p] !in free'
      && (forall i :: 0 <= i < |entries| && entries[i].binding.Some? ==> e'[i] == entries[i])
      && (forall i :: 0 <= i < |entries| ==> e'[i].binding == entries[i].binding)
  {
    if p + 1 < |free| { FreeInside(entries, free, p + 1); }
    if p > 0 { FreeInside(entries, free, p - 1); }
    var e', free' := Unlinked(entries, free, p), free[..p] + free[p + 1..];
    assert forall k :: 0 <= k < |free'| ==> free'[k] == if k < p then free[k] else free[k + 1];
    forall k | 0 <= k < |free'| ensures FreeSlot(e', free', k) {
      UnlinkedSlot(entries, free, p, k);
    }
  }

  lemma UnlinkedSlot(entries: seq<Entry>, free: seq<nat>, p: nat, k: nat)
    requires FreeLinks(entries, free) && p < |free| && k < |free| - 1
    requires (p + 1 < |free| ==> free[p + 1] < |entries|) && (p > 0 ==> free[p - 1] < |entries|)
    ensures FreeSlot(Unlinked(entries, free, p), free[..p] + free[p + 1..], k)
  {
    var free', j := free[..p] + free[p + 1..], if k < p then k else k + 1;
    FreeInside(entries, free, j);
    assert free'[k] == free[j];
    assert At(free', k + 1) == if k + 1 == p then At(free, p + 1) else At(free, j + 1);
    assert At(free', k - 1) == if k == p then At(free, p - 1) else At(free, j - 1);
    if p + 1 < |free| && j != p + 1 { assert free[j] != free[p + 1]; }
    if p > 0 && j != p - 1 { assert free[j] != free[p - 1]; }
  }

  /** Every unused slot but the unlinked one is still listed. */
  lemma UnlinkedIn(free: seq<nat>, p: nat, i: nat)
    requires p < |free| && i in free && i != free[p]
    ensures i in free[..p] + free[p + 1..]
  {
    var k :| 0 <= k < |free| && free[k] == i;
    assert (free[..p] + free[p + 1..])[if k < p then k else k - 1] == i;
  }

  /** Filling a slot that is on no free list keeps the rest of the list. */
  lemma FreeKept(entries: seq<Entry>, entries': seq<Entry>, free: seq<nat>)
    requires FreeLinks(entries, free) && |entries'| == |entries|
    requires forall i :: 0 <= i < |entries| && i in free ==> entries'[i] == entries[i]
    ensures FreeLinks(entries', free)
  {
    forall k | 0 <= k < |free| ensures FreeSlot(entries', free, k) {
      assert FreeSlot(entries, free, k) && free[k] in free;
    }
  }

  // ----- chains -----

  lemma ChainInside(entries: seq<Entry>, h: string -> nat, m: nat, c: seq<nat>, k: nat)
    requires Chain(entries, h, m, c) && k < |c|
    ensures ChainSlot(entries, h, m, c, k)
  {}

  /** A chain does not notice changes of slots it does not contain. */
  lemma ChainKept(entries: seq<Entry>, entries': seq<Entry>, h: string -> nat, m: nat, c: seq<nat>)
    requires Chain(entries, h, m, c) && |entries'| == |entries|
    requires forall i :: 0 <= i < |entries| && i in c ==> entries'[i] == entries[i]
    ensures Chain(entries', h, m, c)
  {
    forall k | 0 <= k < |c| ensures ChainSlot(entries', h, m, c, k) {
      ChainInside(entries, h, m, c, k);
      assert c[k] in c;
    }
  }

  class Hash {
    const hashName: string -> nat
    var entries: seq<Entry>  // its length is the capacity
    var freeHead: Option<nat>
    var size: nat
    ghost var free: seq<nat>
    ghost var chains: seq<seq<nat>>

    ghost predicate Valid()
      reads this
    {
      && FreeList(entries, freeHead, free)
      && Chains(entries, hashName, chains)
      && NoPrev(entries)
      && (size == 0 <==> entries == [])
    }

    /** Valid, whatever `size` is. */
    ghost predicate Linked()
      reads this
    {
      FreeList(entries, freeHead, free) && Chains(entries, hashName, chains) && NoPrev(entries)
    }

    constructor (hashName: string -> nat)
      ensures Valid() && this.hashName == hashName && entries == []
    {
      this.hashName := hashName;
      entries, freeHead, size, free, chains := [], None, 0, [], [];
    }

    /** All but slot i: it is neither used nor on the free list. */
    ghost predicate Without(i: nat)
      reads this
    {
      && i < |entries| && entries[i].binding.None? && i !in free
      && freeHead == At(free, 0) && FreeLinks(entries, free)
      && (forall j :: 0 <= j < |entries| && entries[j].binding.None? && j != i ==> j in free)
      && Chains(entries, hashName, chains) && NoPrev(entries)
    }

    /** Take an unused slot from wherever it is in the free list. */
    method Take(i: nat)
      requires Linked() && i < |entries| && entries[i].binding.None?
      modifies this`entries, this`freeHead, this`free
      ensures Without(i) && |entries| == |old(entries)| && Bindings(entries) == Bindings(old(entries))
      ensures |free| + 1 == |old(free)|
    {
      hide FreeLinks, Chains;
      ghost var p :| 0 <= p < |free| && free[p] == i;
      FreeInside(entries, free, p);
      UnlinkedSlots(entries, free, p);
      SameChains(entries, Unlinked(entries, free, p), hashName, chains);
      forall j | 0 <= j < |entries| && entries[j].binding.None? && j != i ensures j in free[..p] + free[p + 1..] {
        UnlinkedIn(free, p, j);
      }
      var entry := entries[i];
      if entry.next.Some? {
        entries := entries[entry.next.value := entries[entry.next.value].(prev := entry.prev)];
      }
      if entry.prev.Some? {
        entries := entries[entry.prev.value := entries[entry.prev.value].(next := entry.next)];
      } else {
        freeHead := entry.next;
      }
      free := free[..p] + free[p + 1..];
    }

    /** Take the first unused slot. */
    method PopFree() returns (i: nat)
      requires Linked() && freeHead.Some?
      modifies this`entries, this`freeHead, this`free
      ensures Without(i) && |entries| == |old(entries)| && Bindings(entries) == Bindings(old(entries))
      ensures |free| + 1 == |old(free)|
    {
      hide FreeLinks, Chains;
      i := freeHead.value;
      FreeInside(entries, free, 0);
      UnlinkedSlots(entries, free, 0);
      SameChains(entries, Unlinked(entries, free, 0), hashName, chains);
      forall j | 0 <= j < |entries| && entries[j].binding.None? && j != i ensures j in free[..0] + free[1..] {
        UnlinkedIn(free, 0, j);
      }
      freeHead := entries[i].next;
      if entries[i].next.Some? {
        var next := entries[i].next.value;
        entries := entries[next := entries[next].(prev := None)];
      }
      free := free[..0] + free[1..];
    }

    /** What it means that one binding has been added. */
    twostate predicate Added(b: Binding)
      reads this
    {
      && |entries| == |old(entries)| && |free| + 1 == |old(free)|
      && forall x :: Bound(entries, x) == Bound(old(entries), x) + if x == b then 1 else 0
    }

    /** The main slot was unused: the entry starts its chain. */
    method StartChain(i: nat, b: Binding)
      requires Without(i) && Main(hashName, |entries|, b.name) == i
      modifies this`entries, this`chains
      ensures Linked() && entries == old(entries)[i := Entry(Some(b), None, None)]
      ensures forall x :: Bound(entries, x) == Bound(old(entries), x) + if x == b then 1 else 0
    {
      hide FreeLinks, Chains;
      ghost var entries' := entries[i := Entry(Some(b), None, None)];
      Started(entries, hashName, chains, i, b);
      FreeKept(entries, entries', free);
      forall x ensures Bound(entries', x) == Bound(entries, x) + if x == b then 1 else 0 {
        BoundSet(entries, i, Entry(Some(b), None, None), x);
      }
      entries := entries[i := Entry(Some(b), None, None)];
      chains := chains[i := [i]];
    }

    /** The main slot holds an entry of the same chain: the new one comes second. */
    method AddSecond(m: nat, f: nat, b: Binding)
      requires Without(f) && m < |entries| && entries[m].binding.Some? && Main(hashName, |entries|, b.name) == m
      requires Main(hashName, |entries|, entries[m].binding.value.name) == m
      modifies this`entries, this`chains
      ensures Linked() && |entries| == |old(entries)| && entries[f].binding == Some(b)
      ensures forall x :: Bound(entries, x) == Bound(old(entries), x) + if x == b then 1 else 0
    {
      hide FreeLinks, Chains;
      ghost var before := entries;
      Seconded(entries, hashName, chains, m, f, b);
      UsedNotFree(entries, free, m);
      FreeKept(entries, SecondedEntries(entries, m, f, b), free);
      chains := chains[m := [m, f] + chains[m][1..]];
      entries := entries[f := Entry(Some(b), entries[m].next, None)];
      forall x ensures Bound(entries, x) == Bound(before, x) + if x == b then 1 else 0 {
        BoundSet(before, f, Entry(Some(b), before[m].next, None), x);
      }
      forall x ensures Bound(entries[m := entries[m].(next := Some(f))], x) == Bound(entries, x) {
        BoundSet(entries, m, entries[m].(next := Some(f)), x);
      }
      entries := entries[m := entries[m].(next := Some(f))];
    }

    /** The slot whose `next` is m, found by walking the chain m is on. */
    method FindBefore(m: nat) returns (other: nat, ghost k: nat)
      requires Chains(entries, hashName, chains) && m < |entries| && entries[m].binding.Some?
      requires Main(hashName, |entries|, entries[m].binding.value.name) != m
      ensures var o := Main(hashName, |entries|, entries[m].binding.value.name);
        && o < |chains| && 0 < k < |chains[o]| && chains[o][k] == m && other == chains[o][k - 1] && other < |entries|
    {
      hide Chains, Chain;
      ghost var o := Main(hashName, |entries|, entries[m].binding.value.name);
      other := Main(hashName, |entries|, entries[m].binding.value.name);
      k := PlaceOf(entries, hashName, chains, m);
      ghost var j := 0;
      ChainLinked(entries, hashName, chains, o, 0);
      while entries[other].next != Some(m)
        invariant j < k && other == chains[o][j] && other < |entries|
        decreases k - j
      {
        ChainLinked(entries, hashName, chains, o, j);
        ChainLinked(entries, hashName, chains, o, j + 1);
        other := entries[other].next.value;
        j := j + 1;
        assert j != k by { NotLast(entries, hashName, chains, o, j - 1, k, m); }
      }
      Predecessor(entries, hashName, chains, o, j, k);
    }

    /** The main slot holds an entry of another chain: that one moves away. */
    method MoveAway(m: nat, f: nat, b: Binding)
      requires Without(f) && m < |entries| && entries[m].binding.Some? && Main(hashName, |entries|, b.name) == m
      requires Main(hashName, |entries|, entries[m].binding.value.name) != m
      modifies this`entries, this`chains
      ensures Linked() && |entries| == |old(entries)| && entries[m].binding == Some(b)
      ensures forall x :: Bound(entries, x) == Bound(old(entries), x) + if x == b then 1 else 0
    {
      hide FreeLinks, Chains, Chain, Bound, Main;
      ghost var k, before;
      var other;
      before := entries;
      other, k := FindBefore(m);
      MovedAll(m, f, other, k, b);
      ghost var o := Main(hashName, |entries|, entries[m].binding.value.name);
      chains := chains[o := Put(chains[o], k, f)][m := [m]];
      entries := entries[other := entries[other].(next := Some(f))];
      entries := entries[f := entries[m]];
      entries := entries[m := Entry(Some(b), None, None)];
      assert entries == MovedEntries(before, m, f, other, b);
    }

    /** The state in which the entry has moved. */
    lemma MovedAll(m: nat, f: nat, other: nat, k: nat, b: Binding)
      requires Without(f) && m < |entries| && entries[m].binding.Some? && Main(hashName, |entries|, b.name) == m
      requires var o := Main(hashName, |entries|, entries[m].binding.value.name);
        && o != m && o < |chains| && 0 < k < |chains[o]| && chains[o][k] == m && other == chains[o][k - 1] && other < |entries|
      ensures var o, e' := Main(hashName, |entries|, entries[m].binding.value.name), MovedEntries(entries, m, f, other, b);
        && m < |chains| && FreeList(e', freeHead, free) && Chains(e', hashName, chains[o := Put(chains[o], k, f)][m := [m]])
        && other != m && other != f
        && forall x :: Bound(e', x) == Bound(entries, x) + if x == b then 1 else 0
    {
      hide FreeLinks, Chains, Chain, Bound;
      var o := Main(hashName, |entries|, entries[m].binding.value.name);
      Moved(entries, hashName, chains, m, f, o, k, b);
      assert |chains| == |entries| by { ChainCount(entries, hashName, chains); }
      UsedNotFree(entries, free, m);
      UsedNotFree(entries, free, other);
      FreeKept(entries, MovedEntries(entries, m, f, other, b), free);
      MovedBound(entries, m, f, other, b);
    }

    /** hash_new_entry: a slot for the name, with index 0. */
    method HashNewEntry(name: string) returns (entry: nat)
      requires Linked() && free != []
      modifies this`entries, this`freeHead, this`free, this`chains
      ensures Linked() && Added(Binding(name, 0)) && entry < |entries| && entries[entry].binding == Some(Binding(name, 0))
    {
      hide FreeLinks, Chains, Bound;
      FreeInside(entries, free, 0);
      entry := Main(hashName, |entries|, name);
      if entries[entry].binding.Some? {
        ghost var before := entries;
        var other := Main(hashName, |entries|, entries[entry].binding.value.name);
        var f := PopFree();
        SameBindings(before, entries);
        if other == entry {
          AddSecond(entry, f, Binding(name, 0));
          entry := f;
        } else {
          MoveAway(entry, f, Binding(name, 0));
        }
      } else {
        ghost var before := entries;
        Take(entry);
        SameBindings(before, entries);
        StartChain(entry, Binding(name, 0));
      }
    }

    /** Give the binding in a slot its index. */
    method SetIndex(entry: nat, index: int)
      requires Linked() && entry < |entries| && entries[entry].binding.Some?
      modifies this`entries
      ensures Linked() && entries == IndexSet(old(entries), entry, index)
      ensures forall x :: (Bound(entries, x) == Bound(old(entries), x)
        - (if old(entries)[entry].binding == Some(x) then 1 else 0)
        + (if old(entries)[entry].binding.value.(index := index) == x then 1 else 0))
    {
      hide FreeLinks, Chains, Bound;
      ghost var before := entries;
      IndexKeeps(entries, freeHead, free, hashName, chains, entry, index);
      forall x ensures Bound(IndexSet(before, entry, index), x) == Bound(before, x)
        - (if before[entry].binding == Some(x) then 1 else 0) + (if before[entry].binding.value.(index := index) == x then 1 else 0)
      {
        BoundSet(before, entry, IndexSet(before, entry, index)[entry], x);
      }
      entries := IndexSet(entries, entry, index);
    }

    /** Link the slots of fresh memory, whatever it contains, into a free list. */
    method LinkFree(memory: seq<Entry>)
      modifies this
      ensures Linked() && |entries| == |memory| == |free| && size == 0
      ensures forall x :: Bound(entries, x) == 0
    {
      entries, freeHead, size := memory, None, 0;
      var i := 0;
      while i < |entries|
        invariant 0 <= i <= |entries| == |memory|
        invariant freeHead == if i > 0 then Some(i - 1) else None
        invariant forall j :: 0 <= j < i ==> entries[j].binding.None? && entries[j].next == (if j > 0 then Some(j - 1) else None)
        invariant forall j :: 0 <= j < i - 1 ==> entries[j].prev == Some(j + 1)
        invariant size == 0
      {
        if freeHead.Some? {
          entries := entries[freeHead.value := entries[freeHead.value].(prev := Some(i))];
        }
        entries := entries[i := entries[i].(binding := None)];
        entries := entries[i := entries[i].(next := freeHead)];
        freeHead := Some(i);
        i := i + 1;
      }
      if freeHead.Some? {
        entries := entries[freeHead.value := entries[freeHead.value].(prev := None)];
      }
      free := Down(|entries|);
      chains := seq(|entries|, _ => []);
      AllFree(entries, freeHead, hashName);
    }

    /** Move every binding to a table with more slots. `memory` is what the
        allocator returns for it. */
    method HashResize(memory: seq<Entry>)
      requires Linked() && |memory| > |entries|
      modifies this
      ensures Linked() && |entries| == |memory| && free != [] && size == 0
      ensures forall x :: Bound(entries, x) == Bound(old(entries), x)
    {
      hide FreeLinks, Chains, Bound, Main, FreeList;
      var newHash := new Hash(hashName);
      newHash.LinkFree(memory);
      var i := 0;
      NoneBound(entries);
      while i < |entries|
        invariant 0 <= i <= |entries| && entries == old(entries)
        invariant fresh(newHash) && newHash.hashName == hashName && newHash.Linked() && |newHash.entries| == |memory| && newHash.size == 0
        invariant |newHash.free| + i >= |memory|
        invariant forall x :: Bound(newHash.entries, x) == Bound(entries[..i], x)
      {
        BoundPrefix(entries, i);
        if entries[i].binding.Some? {
          newHash.Copy(entries[i].binding.value);
        }
        i := i + 1;
      }
      assert entries[..i] == entries;
      entries, freeHead, size, free, chains := newHash.entries, newHash.freeHead, newHash.size, newHash.free, newHash.chains;
    }

    method Copy(b: Binding)
      requires Linked() && free != []
      modifies this`entries, this`freeHead, this`free, this`chains
      ensures Linked() && Added(b)
    {
      hide FreeLinks, Chains, Bound, Main, FreeList, Linked;
      var entry := HashNewEntry(b.name);
      SetIndex(entry, b.index);
    }

    /** wasm_insert_binding: a slot for the name, to which the caller gives an
        index. The two memories are what the allocator would return. */
    method InsertBinding(name: string, memory: seq<Entry>, more: seq<Entry>) returns (entry: nat)
      requires Valid() && |memory| == INITIAL_CAPACITY
      requires |more| == 2 * |entries|
      modifies this
      ensures Valid() && entry < |entries| && entries[entry].binding == Some(Binding(name, 0))
      ensures forall x :: Bound(entries, x) == Bound(old(entries), x) + if x == Binding(name, 0) then 1 else 0
    {
      hide FreeLinks, Chains, Bound, Main;
      if size == 0 {
        HashResize(memory);
      }
      if freeHead.None? {
        HashResize(more);
      }
      entry := HashNewEntry(name);
      size := size + 1;
    }

    /** Some slot holds the name. */
    ghost predicate Named(name: string)
      reads this`entries
    {
      exists i :: 0 <= i < |entries| && entries[i].binding.Some? && entries[i].binding.value.name == name
    }

    /** wasm_find_binding_index_by_name: -1 if no slot holds the name, else the
        index of a binding that does. The walk ends, although it may start on the
        chain of another slot. */
    method FindBindingIndexByName(name: string) returns (index: int)
      requires Valid()
      ensures Named(name) ==> Bound(entries, Binding(name, index)) > 0
      ensures !Named(name) ==> index == -1
    {
      hide FreeLinks, Chains, Bound, Main;
      if entries == [] { return -1; }
      var entry := Main(hashName, |entries|, name);
      if entries[entry].binding.None? {
        // the next slot, if there is one, is unused as well
        NotHere(name);
        return -1;
      }
      ghost var o := Main(hashName, |entries|, entries[entry].binding.value.name);
      ghost var j := PlaceOf(entries, hashName, chains, entry);
      ghost var start := j;
      var more := true;
      while more
        invariant more ==> entry < |entries| && j < |chains[o]| && entry == chains[o][j] && entries[entry].binding.Some?
        invariant start <= j && o < |chains|
        invariant forall i :: start <= i < (if more then j else |chains[o]|) ==> DiffersAt(entries, chains[o], i, name)
        decreases if more then |chains[o]| - j else 0, more
      {
        if entries[entry].binding.value.name == name {
          index := entries[entry].binding.value.index;
          BoundAt(entries, entry);
          return;
        }
        ChainLinked(entries, hashName, chains, o, j);
        ChainLinked(entries, hashName, chains, o, j + 1);
        var next := entries[entry].next;
        more := next.Some? && entries[next.value].binding.Some?;
        if more { entry := next.value; }
        j := j + 1;
      }
      NotFound(name, o, start);
      index := -1;
    }

    /** A name whose main slot is unused is nowhere. */
    lemma NotHere(name: string)
      requires Valid() && entries != [] && entries[Main(hashName, |entries|, name)].binding.None?
      ensures !Named(name)
    {
      forall i | 0 <= i < |entries| && entries[i].binding.Some? ensures entries[i].binding.value.name != name {
        OwnStart(entries, hashName, chains, Main(hashName, |entries|, name), i);
      }
    }

    /** A name that is not on the chain the walk followed is nowhere. */
    lemma NotFound(name: string, o: nat, start: nat)
      requires Valid() && entries != [] && o < |chains|
      requires var m := Main(hashName, |entries|, name);
        && entries[m].binding.Some? && o == Main(hashName, |entries|, entries[m].binding.value.name)
        && start < |chains[o]| && chains[o][start] == m && chains[o][0] == o
      requires forall i :: start <= i < |chains[o]| ==> DiffersAt(entries, chains[o], i, name)
      ensures !Named(name)
    {
      var m := Main(hashName, |entries|, name);
      forall i | 0 <= i < |entries| && entries[i].binding.Some? ensures entries[i].binding.value.name != name {
        if o != m {
          OwnStart(entries, hashName, chains, m, i);
        } else if Main(hashName, |entries|, entries[i].binding.value.name) == m {
          DistinctAt(chains[o], 0, start);
          var k :| 0 <= k < |chains[m]| && chains[m][k] == i;
          assert DiffersAt(entries, chains[o], k, name);
        }
      }
    }

    // ----- walking whole chains -----

    /** Whether an entry further along the chain has the name of slot a. */
    method EqualBehind(a: nat, ghost o: nat, ghost j: nat) returns (found: bool)
      requires Valid() && o < |chains| && j < |chains[o]| && chains[o][j] == a && a < |entries| && entries[a].binding.Some?
      ensures found <==> exists q :: j < q < |chains[o]| && SameName(entries, chains[o], j, q)
    {
      hide FreeLinks, Chains, Main;
      found := false;
      var b := entries[a].next;
      ghost var q := j + 1;
      ChainLinked(entries, hashName, chains, o, j);
      while b.Some?
        invariant j < q <= |chains[o]| && b == At(chains[o], q)
        invariant found <==> exists r :: j < r < q && SameName(entries, chains[o], j, r)
        decreases |chains[o]| - q
      {
        ChainLinked(entries, hashName, chains, o, q);
        if entries[a].binding.value.name == entries[b.value].binding.value.name {
          assert SameName(entries, chains[o], j, q);
          found := true;
        }
        b := entries[b.value].next;
        q := q + 1;
      }
    }

    /** Whether two entries from slot `start` on have the same name. */
    method EqualFrom(start: nat, ghost o: nat, ghost p: nat) returns (found: bool)
      requires Valid() && o < |chains| && p < |chains[o]| && chains[o][p] == start && start < |entries| && entries[start].binding.Some?
      ensures found <==> exists j, q :: p <= j < q < |chains[o]| && SameName(entries, chains[o], j, q)
    {
      hide FreeLinks, Chains, Main, SameName;
      found := false;
      var a := Some(start);
      ghost var j := p;
      while a.Some?
        invariant p <= j <= |chains[o]| && a == At(chains[o], j)
        invariant found <==> exists i, q :: p <= i < j && i < q < |chains[o]| && SameName(entries, chains[o], i, q)
        decreases |chains[o]| - j
      {
        ChainLinked(entries, hashName, chains, o, j);
        var more := EqualBehind(a.value, o, j);
        found := found || more;
        a := entries[a.value].next;
        j := j + 1;
      }
    }

    /** check_duplicate_bindings: an error exactly when two slots hold the same
        name. */
    method CheckDuplicateBindings() returns (error: bool)
      requires Valid()
      ensures error <==> exists i, j :: 0 <= i < j < |entries| && Duplicate(entries, i, j)
    {
      hide FreeLinks, Chains, Main, Duplicate, FreeList;
      error := false;
      var i := 0;
      while i < |entries|
        invariant 0 <= i <= |entries|
        invariant error ==> exists x, y :: 0 <= x < y < |entries| && Duplicate(entries, x, y)
        invariant !error ==> forall x :: 0 <= x < i ==> NoneBehind(entries, hashName, chains, x)
      {
        if entries[i].binding.Some? && entries[i].prev.None? {
          ghost var o := Main(hashName, |entries|, entries[i].binding.value.name);
          ghost var p := PlaceOf(entries, hashName, chains, i);
          var found := EqualFrom(i, o, p);
          if found {
            ghost var j, q :| p <= j < q < |chains[o]| && SameName(entries, chains[o], j, q);
            PairFound(entries, hashName, chains, o, j, q);
          } else {
            NothingBehind(entries, hashName, chains, o, p, i);
          }
          error := error || found;
        }
        i := i + 1;
      }
      if !error { NoPair(entries, hashName, chains); }
    }

    /** wasm_make_type_binding_reverse_mapping: from index to name. */
    method MakeReverseMapping(numNames: nat) returns (mapping: seq<string>)
      requires forall i :: 0 <= i < |entries| && entries[i].binding.Some? ==> 0 <= entries[i].binding.value.index < numNames
      ensures |mapping| == numNames
      ensures DistinctIndices(entries) ==> forall b: Binding :: Bound(entries, b) > 0 ==> 0 <= b.index < numNames && mapping[b.index] == b.name
      ensures forall k :: 0 <= k < numNames && mapping[k] != "" ==> Bound(entries, Binding(mapping[k], k)) > 0
    {
      hide Bound;
      mapping := Replicate(numNames, "");
      var i := 0;
      while i < |entries|
        invariant 0 <= i <= |entries| && |mapping| == numNames
        invariant DistinctIndices(entries) ==> forall j :: 0 <= j < i && entries[j].binding.Some? ==>
          mapping[entries[j].binding.value.index] == entries[j].binding.value.name
        invariant forall k :: 0 <= k < numNames && mapping[k] != "" ==> Bound(entries, Binding(mapping[k], k)) > 0
      {
        if entries[i].binding.Some? {
          var b := entries[i].binding.value;
          mapping := mapping[b.index := b.name];
          BoundAt(entries, i);
        }
        i := i + 1;
      }
      forall b: Binding | Bound(entries, b) > 0 && DistinctIndices(entries)
        ensures 0 <= b.index < numNames && mapping[b.index] == b.name
      {
        BoundIs(entries, b);
      }
    }
  }

  predicate SameName(entries: seq<Entry>, c: seq<nat>, j: nat, q: nat)
    requires j < |c| && q < |c|
  {
    && c[j] < |entries| && c[q] < |entries| && entries[c[j]].binding.Some? && entries[c[q]].binding.Some?
    && entries[c[j]].binding.value.name == entries[c[q]].binding.value.name
  }

  predicate Duplicate(entries: seq<Entry>, i: nat, j: nat)
    requires i < |entries| && j < |entries|
  {
    entries[i].binding.Some? && entries[j].binding.Some? && entries[i].binding.value.name == entries[j].binding.value.name
  }

  /** Behind slot i on its chain there is no other entry of its name. */
  ghost predicate NoneBehind(entries: seq<Entry>, h: string -> nat, chains: seq<seq<nat>>, i: nat)
    requires i < |entries|
  {
    entries[i].binding.Some? ==>
      var o := Main(h, |entries|, entries[i].binding.value.name);
      o < |chains| && forall p, q :: 0 <= p < q < |chains[o]| && chains[o][p] == i ==> !SameName(entries, chains[o], p, q)
  }

  lemma NothingBehind(entries: seq<Entry>, h: string -> nat, chains: seq<seq<nat>>, o: nat, p: nat, i: nat)
    requires Chains(entries, h, chains) && i < |entries| && entries[i].binding.Some?
    requires o == Main(h, |entries|, entries[i].binding.value.name) && o < |chains| && p < |chains[o]| && chains[o][p] == i
    requires forall j, q :: p <= j < q < |chains[o]| ==> !SameName(entries, chains[o], j, q)
    ensures NoneBehind(entries, h, chains, i)
  {
    assert Chain(entries, h, o, chains[o]);
    forall p', q | 0 <= p' < q < |chains[o]| && chains[o][p'] == i ensures !SameName(entries, chains[o], p', q) {
      DistinctAt(chains[o], p, p');
    }
  }

  lemma PairFound(entries: seq<Entry>, h: string -> nat, chains: seq<seq<nat>>, o: nat, j: nat, q: nat)
    requires Chains(entries, h, chains) && o < |chains| && j < q < |chains[o]| && SameName(entries, chains[o], j, q)
    ensures exists x, y :: 0 <= x < y < |entries| && Duplicate(entries, x, y)
  {
    assert Chain(entries, h, o, chains[o]);
    var x, y := chains[o][j], chains[o][q];
    assert x != y;
    if x < y { assert Duplicate(entries, x, y); } else { assert Duplicate(entries, y, x); }
  }

  /** Two slots with the same name would be on one chain, one behind the other. */
  lemma NoPair(entries: seq<Entry>, h: string -> nat, chains: seq<seq<nat>>)
    requires Chains(entries, h, chains) && forall x :: 0 <= x < |entries| ==> NoneBehind(entries, h, chains, x)
    ensures !exists i, j :: 0 <= i < j < |entries| && Duplicate(entries, i, j)
  {
    forall i, j | 0 <= i < j < |entries| ensures !Duplicate(entries, i, j) {
      if Duplicate(entries, i, j) { OneBehind(entries, h, chains, i, j); }
    }
  }

  lemma OneBehind(entries: seq<Entry>, h: string -> nat, chains: seq<seq<nat>>, i: nat, j: nat)
    requires Chains(entries, h, chains) && i < j < |entries| && Duplicate(entries, i, j)
    ensures !NoneBehind(entries, h, chains, i) || !NoneBehind(entries, h, chains, j)
  {
    var o := Main(h, |entries|, entries[i].binding.value.name);
    assert i in chains[o] && j in chains[o];
    var p :| 0 <= p < |chains[o]| && chains[o][p] == i;
    var q :| 0 <= q < |chains[o]| && chains[o][q] == j;
    if p < q { assert SameName(entries, chains[o], p, q); } else { assert SameName(entries, chains[o], q, p); }
  }

  ghost predicate DistinctIndices(entries: seq<Entry>) {
    forall i, j :: 0 <= i < j < |entries| && entries[i].binding.Some? && entries[j].binding.Some? ==>
      entries[i].binding.value.index != entries[j].binding.value.index
  }

  /** With distinct names, what is found for a name is what the reverse mapping
      maps to it. */
  lemma ReverseOfFind(entries: seq<Entry>, b: Binding, index: int)
    requires Bound(entries, b) > 0 && Bound(entries, Binding(b.name, index)) > 0
    requires !exists i, j :: 0 <= i < j < |entries| && Duplicate(entries, i, j)
    ensures index == b.index
  {
    BoundIs(entries, b);
    BoundIs(entries, Binding(b.name, index));
    var i :| 0 <= i < |entries| && entries[i].binding == Some(b);
    var j :| 0 <= j < |entries| && entries[j].binding == Some(Binding(b.name, index));
    var before, after := i < j && Duplicate(entries, i, j), j < i && Duplicate(entries, j, i);
  }

  predicate DiffersAt(entries: seq<Entry>, c: seq<nat>, i: nat, name: string)
    requires i < |c|
  {
    c[i] < |entries| && entries[c[i]].binding.Some? && entries[c[i]].binding.value.name != name
  }

  lemma BoundAt(entries: seq<Entry>, i: nat)
    requires i < |entries| && entries[i].binding.Some?
    ensures Bound(entries, entries[i].binding.value) > 0
  {
    BoundIs(entries, entries[i].binding.value);
  }

  function IndexSet(entries: seq<Entry>, entry: nat, index: int): seq<Entry>
    requires entry < |entries| && entries[entry].binding.Some?
  {
    entries[entry := entries[entry].(binding := Some(entries[entry].binding.value.(index := index)))]
  }

  /** Nothing depends on the index of a binding. */
  lemma IndexKeeps(entries: seq<Entry>, head: Option<nat>, free: seq<nat>, h: string -> nat, chains: seq<seq<nat>>, entry: nat, index: int)
    requires FreeList(entries, head, free) && Chains(entries, h, chains) && entry < |entries| && entries[entry].binding.Some?
    ensures FreeList(IndexSet(entries, entry, index), head, free) && Chains(IndexSet(entries, entry, index), h, chains)
  {
    var entries' := IndexSet(entries, entry, index);
    UsedNotFree(entries, free, entry);
    FreeKept(entries, entries', free);
    forall m | 0 <= m < |entries| ensures Chain(entries', h, m, chains[m]) {
      assert Chain(entries, h, m, chains[m]);
      forall k | 0 <= k < |chains[m]| ensures ChainSlot(entries', h, m, chains[m], k) {
        ChainInside(entries, h, m, chains[m], k);
      }
    }
  }

  /** The slots in the order in which a fresh table links them. */
  function Down(n: nat): (s: seq<nat>)
    ensures |s| == n && forall k :: 0 <= k < n ==> s[k] == n - 1 - k
  {
    seq(n, k requires 0 <= k < n => n - 1 - k)
  }

  lemma AllFree(entries: seq<Entry>, head: Option<nat>, h: string -> nat)
    requires forall j :: 0 <= j < |entries| ==>
      entries[j] == Entry(None, if j > 0 then Some(j - 1) else None, if j + 1 < |entries| then Some(j + 1) else None)
    requires head == if |entries| > 0 then Some(|entries| - 1) else None
    ensures FreeList(entries, head, Down(|entries|)) && Chains(entries, h, seq(|entries|, _ => []))
    ensures forall x :: Bound(entries, x) == 0
  {
    var n, free := |entries|, Down(|entries|);
    forall k | 0 <= k < n ensures FreeSlot(entries, free, k) {}
    forall i | 0 <= i < n ensures i in free { assert free[n - 1 - i] == i; }
    forall x ensures Bound(entries, x) == 0 { BoundIs(entries, x); }
  }

  lemma NoneBound(entries: seq<Entry>)
    ensures forall x :: Bound(entries[..0], x) == 0
  {
    forall x ensures Bound(entries[..0], x) == 0 { BoundIs(entries[..0], x); }
  }

  lemma BoundPrefix(entries: seq<Entry>, i: nat)
    requires i < |entries|
    ensures forall x :: Bound(entries[..i + 1], x) == Bound(entries[..i], x) + if entries[i].binding == Some(x) then 1 else 0
  {
    forall x ensures Bound(entries[..i + 1], x) == Bound(entries[..i], x) + if entries[i].binding == Some(x) then 1 else 0 {
      assert Bindings(entries[..i + 1]) == Bindings(entries[..i]) + [entries[i].binding];
    }
  }

  lemma SameBindings(entries: seq<Entry>, entries': seq<Entry>)
    requires Bindings(entries) == Bindings(entries')
    ensures |entries| == |entries'| && forall i :: 0 <= i < |entries| ==> entries[i].binding == entries'[i].binding
    ensures forall x :: Bound(entries', x) == Bound(entries, x)
  {
    forall i | 0 <= i < |entries| ensures entries[i].binding == entries'[i].binding {
      assert Bindings(entries)[i] == Bindings(entries')[i];
    }
  }

  lemma ChainCount(entries: seq<Entry>, h: string -> nat, chains: seq<seq<nat>>)
    requires Chains(entries, h, chains)
    ensures |chains| == |entries|
  {}

  lemma UsedNotFree(entries: seq<Entry>, free: seq<nat>, i: nat)
    requires FreeLinks(entries, free) && i < |entries| && entries[i].binding.Some?
    ensures i !in free
  {
    if i in free {
      var k :| 0 <= k < |free| && free[k] == i;
      FreeInside(entries, free, k);
    }
  }

  lemma NotOnChain(entries: seq<Entry>, h: string -> nat, m: nat, c: seq<nat>, i: nat)
    requires Chain(entries, h, m, c) && i < |entries|
    requires entries[i].binding.None? || Main(h, |entries|, entries[i].binding.value.name) != m
    ensures i !in c
  {
    if i in c {
      var k :| 0 <= k < |c| && c[k] == i;
      ChainInside(entries, h, m, c, k);
    }
  }

  lemma Started(entries: seq<Entry>, h: string -> nat, chains: seq<seq<nat>>, i: nat, b: Binding)
    requires Chains(entries, h, chains) && i < |entries| && entries[i].binding.None? && Main(h, |entries|, b.name) == i
    ensures i < |chains| && Chains(entries[i := Entry(Some(b), None, None)], h, chains[i := [i]])
  {
    var entries', chains' := entries[i := Entry(Some(b), None, None)], chains[i := [i]];
    forall m | 0 <= m < |entries| ensures Chain(entries', h, m, chains'[m]) {
      assert Chain(entries, h, m, chains[m]);
      NotOnChain(entries, h, m, chains[m], i);
      if m != i { ChainKept(entries, entries', h, m, chains[m]); }
    }
    forall j | 0 <= j < |entries| && entries'[j].binding.Some? ensures j in chains'[Main(h, |entries|, entries'[j].binding.value.name)] {
      if j != i { OwnStart(entries, h, chains, i, j); }
    }
  }

  /** No entry belongs to the chain of an unused slot. */
  lemma OwnStart(entries: seq<Entry>, h: string -> nat, chains: seq<seq<nat>>, i: nat, j: nat)
    requires Chains(entries, h, chains) && i < |entries| && j < |entries| && entries[j].binding.Some?
    requires entries[i].binding.None? || Main(h, |entries|, entries[i].binding.value.name) != i
    ensures Main(h, |entries|, entries[j].binding.value.name) != i
  {
    var m := Main(h, |entries|, entries[j].binding.value.name);
    assert Chain(entries, h, m, chains[m]) && j in chains[m];
    assert chains[m][0] in chains[m];
    if m == i { NotOnChain(entries, h, m, chains[m], i); }
  }

  function SecondedEntries(entries: seq<Entry>, m: nat, f: nat, b: Binding): seq<Entry>
    requires m < |entries| && f < |entries|
  {
    entries[f := Entry(Some(b), entries[m].next, None)][m := entries[m].(next := Some(f))]
  }

  lemma Seconded(entries: seq<Entry>, h: string -> nat, chains: seq<seq<nat>>, m: nat, f: nat, b: Binding)
    requires Chains(entries, h, chains) && m < |entries| && f < |entries| && entries[f].binding.None? && entries[m].binding.Some?
    requires Main(h, |entries|, b.name) == m == Main(h, |entries|, entries[m].binding.value.name)
    ensures m < |chains| && chains[m] != []
    ensures Chains(SecondedEntries(entries, m, f, b), h, chains[m := [m, f] + chains[m][1..]])
  {
    var entries' := SecondedEntries(entries, m, f, b);
    assert Chain(entries, h, m, chains[m]) && m in chains[m];
    var c := [m, f] + chains[m][1..];
    var chains' := chains[m := c];
    forall m' | 0 <= m' < |entries| ensures Chain(entries', h, m', chains'[m']) {
      assert Chain(entries, h, m', chains[m']);
      NotOnChain(entries, h, m', chains[m'], f);
      if m' != m {
        NotOnChain(entries, h, m', chains[m'], m);
        ChainKept(entries, entries', h, m', chains[m']);
      } else {
        SecondedChain(entries, h, m, chains[m], f, b);
      }
    }
    forall j | 0 <= j < |entries| && entries'[j].binding.Some?
      ensures j in chains'[Main(h, |entries|, entries'[j].binding.value.name)]
    {
      if j == f { assert c[1] == f; } else { StillIn(chains[m], f, j); }
    }
  }

  lemma StillIn(c: seq<nat>, f: nat, j: nat)
    ensures c != [] && j in c ==> j in [c[0], f] + c[1..]
  {
    if c != [] && j in c {
      var k :| 0 <= k < |c| && c[k] == j;
      assert ([c[0], f] + c[1..])[if k == 0 then 0 else k + 1] == j;
    }
  }

  lemma SecondedChain(entries: seq<Entry>, h: string -> nat, m: nat, c: seq<nat>, f: nat, b: Binding)
    requires Chain(entries, h, m, c) && c != [] && f < |entries| && m < |entries| && f !in c && entries[f].binding.None?
    requires Main(h, |entries|, b.name) == m
    ensures Chain(SecondedEntries(entries, m, f, b), h, m, [m, f] + c[1..])
  {
    var entries', c' := SecondedEntries(entries, m, f, b), [m, f] + c[1..];
    assert forall k :: 0 <= k < |c'| ==> c'[k] == if k == 0 then m else if k == 1 then f else c[k - 1];
    ChainInside(entries, h, m, c, 0);
    forall i, j | 0 <= i < j < |c'| ensures c'[i] != c'[j] {
      if i == 1 { assert c[j - 1] in c; } else if j == 1 { assert m in c; } else { assert c[if i == 0 then 0 else i - 1] != c[j - 1]; }
    }
    forall k | 0 <= k < |c'| ensures ChainSlot(entries', h, m, c', k) {
      if k >= 2 {
        ChainInside(entries, h, m, c, k - 1);
        assert c[0] != c[k - 1] && c[k - 1] in c;
      }
    }
  }

  /** Where a used slot is on its chain; not first, if it is not its main slot. */
  ghost method PlaceOf(entries: seq<Entry>, h: string -> nat, chains: seq<seq<nat>>, i: nat) returns (k: nat)
    requires Chains(entries, h, chains) && i < |entries| && entries[i].binding.Some?
    ensures var o := Main(h, |entries|, entries[i].binding.value.name);
      && o < |chains| && k < |chains[o]| && chains[o][k] == i && chains[o][0] == o && (i != o ==> k > 0)
  {
    var o := Main(h, |entries|, entries[i].binding.value.name);
    assert i in chains[o] && Chain(entries, h, o, chains[o]);
    k :| 0 <= k < |chains[o]| && chains[o][k] == i;
  }

  lemma ChainLinked(entries: seq<Entry>, h: string -> nat, chains: seq<seq<nat>>, o: nat, j: nat)
    requires Chains(entries, h, chains) && o < |chains|
    ensures j < |chains[o]| ==> ChainSlot(entries, h, o, chains[o], j)
  {
    assert Chain(entries, h, o, chains[o]);
  }

  lemma DistinctAt(c: seq<nat>, i: nat, j: nat)
    requires Distinct(c) && i < |c| && j < |c| && c[i] == c[j]
    ensures i == j
  {}

  lemma NotLast(entries: seq<Entry>, h: string -> nat, chains: seq<seq<nat>>, o: nat, j: nat, k: nat, m: nat)
    requires Chains(entries, h, chains) && o < |chains| && j < k < |chains[o]| && chains[o][k] == m
    requires chains[o][j] < |entries| && entries[chains[o][j]].next != Some(m)
    ensures j + 1 != k
  {
    ChainLinked(entries, h, chains, o, j);
  }

  lemma Predecessor(entries: seq<Entry>, h: string -> nat, chains: seq<seq<nat>>, o: nat, j: nat, k: nat)
    requires Chains(entries, h, chains) && o < |chains| && j < k < |chains[o]|
    requires chains[o][j] < |entries| && entries[chains[o][j]].next == Some(chains[o][k])
    ensures j + 1 == k
  {
    assert Chain(entries, h, o, chains[o]);
    ChainInside(entries, h, o, chains[o], j);
    DistinctAt(chains[o], j + 1, k);
  }

  function MovedEntries(entries: seq<Entry>, m: nat, f: nat, other: nat, b: Binding): seq<Entry>
    requires m < |entries| && f < |entries| && other < |entries|
  {
    entries[other := entries[other].(next := Some(f))][f := entries[m]][m := Entry(Some(b), None, None)]
  }

  lemma Moved(entries: seq<Entry>, h: string -> nat, chains: seq<seq<nat>>, m: nat, f: nat, o: nat, k: nat, b: Binding)
    requires Chains(entries, h, chains) && m < |entries| && f < |entries| && entries[f].binding.None? && entries[m].binding.Some?
    requires Main(h, |entries|, b.name) == m != o == Main(h, |entries|, entries[m].binding.value.name)
    requires o < |chains| && 0 < k < |chains[o]| && chains[o][k] == m
    ensures var other := chains[o][k - 1];
      other < |entries| && other != m && entries[other].binding.Some?
      && Chains(MovedEntries(entries, m, f, other, b), h, chains[o := Put(chains[o], k, f)][m := [m]])
  {
    assert Chain(entries, h, o, chains[o]);
    ChainInside(entries, h, o, chains[o], k - 1);
    assert chains[o][k - 1] != chains[o][k];
    var other := chains[o][k - 1];
    var entries', chains' := MovedEntries(entries, m, f, other, b), chains[o := Put(chains[o], k, f)][m := [m]];
    forall m' | 0 <= m' < |entries| ensures Chain(entries', h, m', chains'[m']) {
      assert Chain(entries, h, m', chains[m']);
      NotOnChain(entries, h, m', chains[m'], f);
      if m' != m && m' != o {
        NotOnChain(entries, h, m', chains[m'], m);
        NotOnChain(entries, h, m', chains[m'], other);
        ChainKept(entries, entries', h, m', chains[m']);
      } else if m' == o {
        MovedChain(entries, h, o, chains[o], m, f, k, b);
      }
    }
    forall j | 0 <= j < |entries| && entries'[j].binding.Some? ensures j in chains'[Main(h, |entries|, entries'[j].binding.value.name)] {
      if j == f {
        assert Put(chains[o], k, f)[k] == f;
      } else if j != m {
        assert entries'[j].binding == entries[j].binding;
        OwnStart(entries, h, chains, m, j);
        Replaced(chains[o], k, f, j);
      }
    }
  }

  lemma Replaced(c: seq<nat>, k: nat, f: nat, j: nat)
    requires k < |c| && j != c[k]
    ensures j in c ==> j in Put(c, k, f)
  {
    if j in c {
      var i :| 0 <= i < |c| && c[i] == j;
      assert Put(c, k, f)[i] == j;
    }
  }

  lemma MovedChain(entries: seq<Entry>, h: string -> nat, o: nat, c: seq<nat>, m: nat, f: nat, k: nat, b: Binding)
    requires Chain(entries, h, o, c) && 0 < k < |c| && c[k] == m < |entries| && f < |entries| && f !in c && c[k - 1] < |entries|
    ensures Chain(MovedEntries(entries, m, f, c[k - 1], b), h, o, Put(c, k, f))
  {
    var other, c' := c[k - 1], Put(c, k, f);
    var entries' := MovedEntries(entries, m, f, other, b);
    ChainInside(entries, h, o, c, k);
    forall i, j | 0 <= i < j < |c'| ensures c'[i] != c'[j] {
      assert c[i] != c[j] && c[i] in c && c[j] in c;
    }
    forall j | 0 <= j < |c'| ensures ChainSlot(entries', h, o, c', j) {
      ChainInside(entries, h, o, c, j);
      assert c[j] in c;
      if j < k { assert c[j] != c[k]; } else if j > k { assert c[k] != c[j]; }
      if j < k - 1 { assert c[j] != c[k - 1]; } else if j > k - 1 { assert c[k - 1] != c[j]; }
    }
  }

  lemma MovedBound(entries: seq<Entry>, m: nat, f: nat, other: nat, b: Binding)
    requires m < |entries| && f < |entries| && other < |entries| && m != f && other != m && other != f
    requires entries[f].binding.None? && entries[m].binding.Some?
    ensures forall x :: Bound(MovedEntries(entries, m, f, other, b), x) == Bound(entries, x) + if x == b then 1 else 0
  {
    forall x ensures Bound(MovedEntries(entries, m, f, other, b), x) == Bound(entries, x) + if x == b then 1 else 0 {
      var e1 := entries[other := entries[other].(next := Some(f))];
      BoundSet(entries, other, entries[other].(next := Some(f)), x);
      BoundSet(e1, f, entries[m], x);
      BoundSet(e1[f := entries[m]], m, Entry(Some(b), None, None), x);
    }
  }

  /** Chains depend on the used slots only. */
  lemma SameChains(entries: seq<Entry>, entries': seq<Entry>, h: string -> nat, chains: seq<seq<nat>>)
    requires Chains(entries, h, chains) && |entries'| == |entries|
    requires forall i :: 0 <= i < |entries| && entries[i].binding.Some? ==> entries'[i] == entries[i]
    requires forall i :: 0 <= i < |entries| ==> entries'[i].binding == entries[i].binding
    ensures Chains(entries', h, chains) && Bindings(entries') == Bindings(entries)
  {
    forall m | 0 <= m < |entries| ensures Chain(entries', h, m, chains[m]) {
      assert Chain(entries, h, m, chains[m]);
      forall k | 0 <= k < |chains[m]| ensures ChainSlot(entries', h, m, chains[m], k) {
        assert ChainSlot(entries, h, m, chains[m], k);
      }
    }
  }
}
