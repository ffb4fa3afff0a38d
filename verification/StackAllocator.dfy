/** The chunked stack allocator with marks (src/stack-allocator.c:60-277). A
    chunk is a record of addresses; a pointer to a chunk is its number, in the
    order in which the fallback allocator supplied them. */
module StackAllocator {
  import opened Wasm
  import opened Powers

  const HEADER := 32  // sizeof(WasmStackAllocatorChunk)
  const CHUNK_SIZE := 0x10_0000
  const MAX_AVAIL := CHUNK_SIZE - HEADER
  const MARK_SIZE := 24

  /** `link` is `prev` in a used chunk and `next_free` in a free one: the source
      keeps them in a union. */
  datatype Chunk = Chunk(start: nat, current: nat, end: nat, link: Option<nat>)

  /** A live block. `place` is its chunk's place among the chunks of ordinary
      size, -1 if it has a chunk of its own; `time` orders allocations. */
  datatype Block = Region(addr: nat, size: nat, chunk: nat, place: int, time: nat)

  /** What the program stores for a mark. */
  datatype Mark = Mark(chunk: nat, current: nat, lastAllocation: Option<nat>)

  /** The same with the last chunk's place and the time, for proofs. */
  datatype Snapshot = Snapshot(chunk: nat, current: nat, lastAllocation: Option<nat>, place: nat, time: nat)
  {
    function Stored(): Mark { Mark(chunk, current, lastAllocation) }
  }

  ghost predicate PowerOf2(x: nat) { exists k: nat :: x == Pow2(k) }

  function AlignUp(p: nat, align: nat): (r: nat)
    requires align > 0
    ensures p <= r < p + align && r % align == 0
  {
    var q := (p + align - 1) / align;
    assert q * align + (p + align - 1) % align == p + align - 1;
    RoundDown(q, align);
    q * align
  }

  lemma RoundDown(q: nat, m: nat)
    requires m > 0
    ensures (q * m) % m == 0
  {
    Divide(q * m, q, 0, m);
  }

  // ----- the invariants -----

  function At(s: seq<nat>, k: int): Option<nat> { if 0 <= k < |s| then Some(s[k]) else None }

  predicate Apart(c: Chunk, d: Chunk) { c.end + HEADER <= d.start || d.end + HEADER <= c.start }

  /** The position of a chunk that was given up may lie beyond its end, by rounding. */
  predicate ChunkOk(c: Chunk, limit: nat) { HEADER < c.start <= c.current && c.start < c.end <= limit && c.start % 8 == 0 }

  ghost predicate HeapOk(chunks: seq<Chunk>, limit: nat) {
    && (forall i :: 0 <= i < |chunks| ==> ChunkOk(chunks[i], limit))
    && (forall i, j :: 0 <= i < j < |chunks| ==> Apart(chunks[i], chunks[j]))
  }

  ghost predicate Distinct(s: seq<nat>) { forall i, j :: 0 <= i < j < |s| ==> s[i] != s[j] }

  /** Every chunk is in the chain of used chunks or in the free list, once. */
  ghost predicate Partition(n: nat, used: seq<nat>, free: seq<nat>) {
    && Distinct(used + free) && |used + free| == n
    && forall k :: 0 <= k < |used + free| ==> (used + free)[k] < n
  }

  predicate UsedLink(chunks: seq<Chunk>, used: seq<nat>, k: nat)
    requires k < |used|
  {
    used[k] < |chunks| && chunks[used[k]].link == At(used, k - 1)
  }

  predicate FreeLink(chunks: seq<Chunk>, free: seq<nat>, k: nat)
    requires k < |free|
  {
    && free[k] < |chunks| && chunks[free[k]].link == At(free, k + 1)
    && chunks[free[k]].current == chunks[free[k]].start && chunks[free[k]].end == chunks[free[k]].start + MAX_AVAIL
  }

  /** The chain: chunks of one large block in front, then the others. */
  ghost predicate ListsOk(chunks: seq<Chunk>, big: seq<nat>, small: seq<nat>, free: seq<nat>) {
    && Partition(|chunks|, big + small, free) && small != []
    && (forall k :: 0 <= k < |big + small| ==> UsedLink(chunks, big + small, k))
    && (forall k :: 0 <= k < |free| ==> FreeLink(chunks, free, k))
    && (forall k :: 0 <= k < |small| ==> OrdinarySize(chunks, small, k))
  }

  predicate OrdinarySize(chunks: seq<Chunk>, small: seq<nat>, k: nat)
    requires k < |small|
  {
    small[k] < |chunks| && chunks[small[k]].end == chunks[small[k]].start + MAX_AVAIL
  }

  predicate BlockOk(chunks: seq<Chunk>, big: seq<nat>, small: seq<nat>, b: Block, clock: nat) {
    && b.chunk < |chunks| && b.time < clock && -1 <= b.place < |small|
    && (if b.place >= 0 then small[b.place] == b.chunk else b.chunk in big)
    && chunks[b.chunk].start <= b.addr && b.addr + b.size <= chunks[b.chunk].current
    && b.addr + b.size <= chunks[b.chunk].end && b.addr < chunks[b.chunk].end
  }

  predicate Disjoint(b: Block, c: Block) { b.addr + b.size <= c.addr || c.addr + c.size <= b.addr }

  ghost predicate BlocksOk(chunks: seq<Chunk>, big: seq<nat>, small: seq<nat>, live: set<Block>, clock: nat) {
    && (forall b :: b in live ==> BlockOk(chunks, big, small, b, clock))
    && (forall b, c :: b in live && c in live && b != c ==> Disjoint(b, c))
  }

  /** At the time of the snapshot the blocks then live lay below its position, and
      its last allocation lay above them. */
  ghost predicate SnapOk(chunks: seq<Chunk>, small: seq<nat>, live: set<Block>, s: Snapshot) {
    && s.place < |small| && small[s.place] == s.chunk && s.chunk < |chunks|
    && chunks[s.chunk].start <= s.current <= chunks[s.chunk].end
    && (s.lastAllocation.Some? ==> chunks[s.chunk].start <= s.lastAllocation.value <= s.current)
    && forall b :: b in live && b.time < s.time ==> OlderOk(s, b)
  }

  ghost function Before(live: set<Block>, time: nat): set<Block> { set b | b in live && b.time < time }

  predicate OlderOk(s: Snapshot, b: Block) {
    && b.place <= s.place
    && (b.place == s.place ==>
          && b.addr + b.size <= s.current
          && (s.lastAllocation.Some? ==> b.addr + b.size <= s.lastAllocation.value || b.addr == s.lastAllocation.value))
  }

  /** Of two snapshots the later one is not below the earlier. */
  predicate InOrder(s: Snapshot, t: Snapshot) {
    && s.time <= t.time && s.place <= t.place
    && (s.place == t.place ==> s.current <= t.current && t.lastAllocation.Some? && s.current <= t.lastAllocation.value)
  }

  ghost predicate Timeline(chunks: seq<Chunk>, small: seq<nat>, live: set<Block>, marks: seq<Snapshot>) {
    && (forall k :: 0 <= k < |marks| ==> SnapOk(chunks, small, live, marks[k]))
    && (forall k :: 0 <= k < |marks| - 1 ==> InOrder(marks[k], marks[k + 1]))
  }

  /** Where the fallback allocator may put a new chunk. */
  ghost predicate Fresh(chunks: seq<Chunk>, limit: nat, base: nat, avail: nat) {
    && base > 0 && base % 8 == 0 && base + HEADER + avail <= limit && avail > 0
    && forall i :: 0 <= i < |chunks| ==> chunks[i].end <= base || base + HEADER + avail + HEADER <= chunks[i].start
  }

  // ----- changing one chunk -----

  /** Moving the position of a chunk inside it. */
  lemma HeapMoved(chunks: seq<Chunk>, limit: nat, i: nat, c: Chunk)
    requires HeapOk(chunks, limit) && i < |chunks| && c.start == chunks[i].start && c.end == chunks[i].end
    requires c.start <= c.current
    ensures HeapOk(chunks[i := c], limit)
  {
    var chunks' := chunks[i := c];
    forall j | 0 <= j < |chunks'| ensures ChunkOk(chunks'[j], limit) {
      assert ChunkOk(chunks[j], limit);
    }
    forall j, k | 0 <= j < k < |chunks'| ensures Apart(chunks'[j], chunks'[k]) {
      assert Apart(chunks[j], chunks[k]);
    }
  }

  lemma HeapAdded(chunks: seq<Chunk>, limit: nat, base: nat, avail: nat)
    requires HeapOk(chunks, limit) && Fresh(chunks, limit, base, avail)
    ensures HeapOk(chunks + [Chunk(base + HEADER, base + HEADER, base + HEADER + avail, None)], limit)
  {
    var c := Chunk(base + HEADER, base + HEADER, base + HEADER + avail, None);
    var chunks' := chunks + [c];
    forall j | 0 <= j < |chunks'| ensures ChunkOk(chunks'[j], limit) {
      if j < |chunks| { assert ChunkOk(chunks[j], limit); }
    }
    forall j, k | 0 <= j < k < |chunks'| ensures Apart(chunks'[j], chunks'[k]) {
      if k < |chunks| { assert Apart(chunks[j], chunks[k]); } else { assert ChunkOk(chunks[j], limit); }
    }
  }

  lemma FreshKept(chunks: seq<Chunk>, chunks': seq<Chunk>, limit: nat, base: nat, avail: nat)
    requires Fresh(chunks, limit, base, avail) && |chunks'| == |chunks|
    requires forall i :: 0 <= i < |chunks| ==> chunks'[i].start == chunks[i].start && chunks'[i].end == chunks[i].end
    ensures Fresh(chunks', limit, base, avail)
  {}

  lemma Inside(chunks: seq<Chunk>, limit: nat, i: nat)
    requires HeapOk(chunks, limit) && i < |chunks|
    ensures ChunkOk(chunks[i], limit)
  {}

  /** Blocks of different chunks do not meet. */
  lemma ChunksApart(chunks: seq<Chunk>, limit: nat, i: nat, j: nat)
    requires HeapOk(chunks, limit) && i < |chunks| && j < |chunks| && i != j
    ensures Apart(chunks[i], chunks[j])
  {
    if i < j { assert Apart(chunks[i], chunks[j]); } else { assert Apart(chunks[j], chunks[i]); }
  }

  // ----- the lists -----

  lemma LastUsed(chunks: seq<Chunk>, big: seq<nat>, small: seq<nat>, free: seq<nat>)
    requires ListsOk(chunks, big, small, free)
    ensures small[|small| - 1] < |chunks| && OrdinarySize(chunks, small, |small| - 1)
  {
    assert OrdinarySize(chunks, small, |small| - 1);
  }

  /** A position moves in a used chunk. */
  lemma ListsMoved(chunks: seq<Chunk>, big: seq<nat>, small: seq<nat>, free: seq<nat>, i: nat, current: nat)
    requires ListsOk(chunks, big, small, free) && i < |chunks| && i !in free
    ensures ListsOk(chunks[i := chunks[i].(current := current)], big, small, free)
  {
    var chunks', used := chunks[i := chunks[i].(current := current)], big + small;
    forall k | 0 <= k < |used| ensures UsedLink(chunks', used, k) { assert UsedLink(chunks, used, k); }
    forall k | 0 <= k < |free| ensures FreeLink(chunks', free, k) { assert FreeLink(chunks, free, k) && free[k] in free; }
    forall k | 0 <= k < |small| ensures OrdinarySize(chunks', small, k) { assert OrdinarySize(chunks, small, k); }
  }

  lemma NotBoth(used: seq<nat>, free: seq<nat>, k: nat, j: nat)
    requires Distinct(used + free) && k < |used| && j < |free|
    ensures used[k] != free[j]
  {
    assert (used + free)[k] == used[k] && (used + free)[|used| + j] == free[j];
  }

  lemma UsedNotFree(n: nat, big: seq<nat>, small: seq<nat>, free: seq<nat>, i: nat)
    requires Partition(n, big + small, free) && (i in small || i in big)
    ensures i !in free && i < n
  {
    var k := IndexIn(big + small + free, big, small, free, i);
    assert (big + small)[k] == i;
    forall j | 0 <= j < |free| ensures free[j] != i { NotBoth(big + small, free, k, j); }
  }

  lemma IndexIn(all: seq<nat>, big: seq<nat>, small: seq<nat>, free: seq<nat>, i: nat) returns (k: nat)
    requires all == big + small + free && (i in small || i in big)
    ensures k < |big| + |small| && all[k] == i
  {
    if i in big { k :| 0 <= k < |big| && big[k] == i; } else {
      var j :| 0 <= j < |small| && small[j] == i;
      k := |big| + j;
    }
  }

  /** A chunk from the free list becomes the last used one. */
  lemma Recycled(chunks: seq<Chunk>, big: seq<nat>, small: seq<nat>, free: seq<nat>)
    requires ListsOk(chunks, big, small, free) && free != []
    ensures free[0] < |chunks| && free[0] !in big && free[0] !in small
    ensures ListsOk(chunks[free[0] := chunks[free[0]].(link := Some(small[|small| - 1]))], big, small + [free[0]], free[1..])
  {
    var c := free[0];
    assert FreeLink(chunks, free, 0);
    var chunks' := chunks[c := chunks[c].(link := Some(small[|small| - 1]))];
    if c in big || c in small { UsedNotFree(|chunks|, big, small, free, c); }
    assert big + (small + [c]) + free[1..] == big + small + free;
    var used' := big + (small + [c]);
    forall k | 0 <= k < |used'| ensures UsedLink(chunks', used', k) {
      if k < |big + small| {
        assert UsedLink(chunks, big + small, k) && (big + small)[k] != c by { UsedIsNot(big, small, k, c); }
      }
    }
    forall k | 0 <= k < |free[1..]| ensures FreeLink(chunks', free[1..], k) {
      assert FreeLink(chunks, free, k + 1);
      assert (big + small + free)[|big + small|] == c && (big + small + free)[|big + small| + k + 1] == free[k + 1];
    }
    forall k | 0 <= k < |small + [c]| ensures OrdinarySize(chunks', small + [c], k) {
      if k < |small| { assert OrdinarySize(chunks, small, k); }
    }
  }

  lemma UsedIsNot(big: seq<nat>, small: seq<nat>, k: nat, c: nat)
    requires k < |big + small| && c !in big && c !in small
    ensures (big + small)[k] != c
  {}

  /** A new chunk becomes the last used one. */
  lemma Appended(chunks: seq<Chunk>, big: seq<nat>, small: seq<nat>, free: seq<nat>, c: Chunk)
    requires ListsOk(chunks, big, small, free) && c.link == Some(small[|small| - 1]) && c.end == c.start + MAX_AVAIL
    ensures ListsOk(chunks + [c], big, small + [|chunks|], free)
  {
    var n, chunks', small' := |chunks|, chunks + [c], small + [|chunks|];
    Inserted(n, big + small, free);
    assert big + small' == big + small + [n];
    forall k | 0 <= k < |big + small'| ensures UsedLink(chunks', big + small', k) {
      if k < |big + small| { assert UsedLink(chunks, big + small, k); }
    }
    forall k | 0 <= k < |free| ensures FreeLink(chunks', free, k) { assert FreeLink(chunks, free, k); }
    forall k | 0 <= k < |small'| ensures OrdinarySize(chunks', small', k) {
      if k < |small| { assert OrdinarySize(chunks, small, k); }
    }
  }

  lemma Inserted(n: nat, used: seq<nat>, free: seq<nat>)
    requires Partition(n, used, free)
    ensures Partition(n + 1, used + [n], free)
  {
    var all, all' := used + free, used + [n] + free;
    forall i, j | 0 <= i < j < |all'| ensures all'[i] != all'[j] {
      var i', j' := if i < |used| then i else i - 1, if j < |used| then j else j - 1;
      if i != |used| { assert all'[i] == all[i']; }
      if j != |used| { assert all'[j] == all[j']; }
    }
    forall k | 0 <= k < |all'| ensures all'[k] < n + 1 {
      if k < |used| { assert all'[k] == all[k]; } else if k > |used| { assert all'[k] == all[k - 1]; }
    }
  }

  /** A new chunk is threaded in front of the first one. */
  lemma Prepended(chunks: seq<Chunk>, big: seq<nat>, small: seq<nat>, free: seq<nat>, c: Chunk)
    requires ListsOk(chunks, big, small, free) && c.link == None
    ensures (big + small)[0] < |chunks|
    ensures var f := (big + small)[0];
      ListsOk(chunks[f := chunks[f].(link := Some(|chunks|))] + [c], [|chunks|] + big, small, free)
  {
    var n, used, f := |chunks|, big + small, (big + small)[0];
    assert UsedLink(chunks, used, 0);
    var chunks', used' := chunks[f := chunks[f].(link := Some(n))] + [c], [n] + big + small;
    assert used' == [n] + used;
    InsertedFront(n, used, free);
    assert f !in free by { FirstNotFree(n, used, free); }
    forall k | 0 <= k < |used'| ensures UsedLink(chunks', used', k) {
      if k > 0 {
        assert UsedLink(chunks, used, k - 1) && used'[k] == used[k - 1];
        if k > 1 { assert (used + free)[0] == f && (used + free)[k - 1] == used[k - 1]; }
      }
    }
    forall k | 0 <= k < |free| ensures FreeLink(chunks', free, k) { assert FreeLink(chunks, free, k) && free[k] in free; }
    forall k | 0 <= k < |small| ensures OrdinarySize(chunks', small, k) { assert OrdinarySize(chunks, small, k); }
  }

  /** The only free chunk is threaded in front of the first one. */
  lemma Reused(chunks: seq<Chunk>, big: seq<nat>, small: seq<nat>, free: seq<nat>)
    requires ListsOk(chunks, big, small, free) && |free| == 1
    ensures free[0] < |chunks| && (big + small)[0] < |chunks| && free[0] != (big + small)[0]
    ensures var f := (big + small)[0];
      ListsOk(chunks[f := chunks[f].(link := Some(free[0]))], free + big, small, [])
  {
    var used, f, c := big + small, (big + small)[0], free[0];
    assert UsedLink(chunks, used, 0) && FreeLink(chunks, free, 0);
    NotBoth(used, free, 0, 0);
    var chunks', used' := chunks[f := chunks[f].(link := Some(c))], free + big + small;
    assert used' == [c] + used;
    assert free == [c];
    Rotated(|chunks|, used, c);
    forall k | 0 <= k < |used'| ensures UsedLink(chunks', used', k) {
      if k > 0 {
        assert UsedLink(chunks, used, k - 1) && used'[k] == used[k - 1];
        if k > 1 { assert (used + free)[0] == f && (used + free)[k - 1] == used[k - 1]; }
      }
    }
    forall k | 0 <= k < |small| ensures OrdinarySize(chunks', small, k) { assert OrdinarySize(chunks, small, k); }
  }

  lemma Rotated(n: nat, used: seq<nat>, c: nat)
    requires Partition(n, used, [c])
    ensures Partition(n, [c] + used, [])
  {
    var all, all' := used + [c], [c] + used + [];
    assert all[|used|] == c;
    forall i, j | 0 <= i < j < |all'| ensures all'[i] != all'[j] {
      assert all'[j] == all[j - 1];
      if i > 0 { assert all'[i] == all[i - 1]; }
    }
    forall k | 0 <= k < |all'| ensures all'[k] < n {
      if k > 0 { assert all'[k] == all[k - 1]; }
    }
  }

  lemma OnlyFree(chunks: seq<Chunk>, big: seq<nat>, small: seq<nat>, free: seq<nat>)
    requires ListsOk(chunks, big, small, free) && free != [] && free[0] < |chunks| && chunks[free[0]].link == None
    ensures |free| == 1
  {
    assert FreeLink(chunks, free, 0);
  }

  /** The lists that the four list heads of the program can be read as. */
  ghost predicate Listed(chunks: seq<Chunk>, first: nat, last: nat, nextFree: Option<nat>) {
    exists big, small, free :: ListsOk(chunks, big, small, free) && first == (big + small)[0] && last == small[|small| - 1] && nextFree == At(free, 0)
  }

  /** What a request for exactly MAX_AVAIL does to the lists when there are free
      chunks: the chain of used chunks runs on into the free list, unless the
      recycled chunk was the only one there. */
  lemma ExactRequest(chunks: seq<Chunk>, big: seq<nat>, small: seq<nat>, free: seq<nat>)
    requires ListsOk(chunks, big, small, free) && free != []
    ensures free[0] < |chunks| && (big + small)[0] < |chunks|
    ensures var f, c := (big + small)[0], free[0];
      Listed(chunks[f := chunks[f].(link := Some(c))], c, small[|small| - 1], At(free, 1)) <==> |free| == 1
  {
    var used, f, c := big + small, (big + small)[0], free[0];
    FirstIn(chunks, big, small, free);
    assert FreeLink(chunks, free, 0);
    var chunks' := chunks[f := chunks[f].(link := Some(c))];
    NotBoth(used, free, 0, 0);
    if |free| == 1 {
      Reused(chunks, big, small, free);
      assert free + big + small == [c] + used;
    } else if Listed(chunks', c, small[|small| - 1], At(free, 1)) {
      var big', small', free' :| ListsOk(chunks', big', small', free') && c == (big' + small')[0];
      FirstIn(chunks', big', small', free');
    }
  }

  lemma FirstNotFree(n: nat, used: seq<nat>, free: seq<nat>)
    requires Partition(n, used, free) && used != []
    ensures used[0] !in free
  {
    forall j | 0 <= j < |free| ensures free[j] != used[0] { NotBoth(used, free, 0, j); }
  }

  lemma InsertedFront(n: nat, used: seq<nat>, free: seq<nat>)
    requires Partition(n, used, free)
    ensures Partition(n + 1, [n] + used, free)
  {
    var all, all' := used + free, [n] + used + free;
    assert forall k :: 0 < k < |all'| ==> all'[k] == all[k - 1];
  }

  /** The last used chunk goes to the free list. */
  lemma Retired(chunks: seq<Chunk>, big: seq<nat>, small: seq<nat>, free: seq<nat>)
    requires ListsOk(chunks, big, small, free) && |small| > 1
    ensures var c := small[|small| - 1];
      && c < |chunks| && chunks[c].link == Some(small[|small| - 2])
      && ListsOk(chunks[c := chunks[c].(current := chunks[c].start, link := At(free, 0))], big, small[..|small| - 1], [c] + free)
  {
    var n, c := |small|, small[|small| - 1];
    var used := big + small;
    assert UsedLink(chunks, used, |used| - 1) && used[|used| - 1] == c;
    var chunks', small', free' := chunks[c := chunks[c].(current := chunks[c].start, link := At(free, 0))], small[..n - 1], [c] + free;
    assert big + small' + free' == used + free;
    forall k | 0 <= k < |big + small'| ensures UsedLink(chunks', big + small', k) {
      assert UsedLink(chunks, used, k) && (used + free)[k] != (used + free)[|used| - 1];
    }
    forall k | 0 <= k < |free'| ensures FreeLink(chunks', free', k) {
      if k == 0 { assert OrdinarySize(chunks, small, n - 1); } else {
        assert FreeLink(chunks, free, k - 1) && (used + free)[|used| + k - 1] == free[k - 1] && (used + free)[|used| - 1] == c;
      }
    }
    forall k | 0 <= k < |small'| ensures OrdinarySize(chunks', small', k) { assert OrdinarySize(chunks, small, k); }
  }

  // ----- blocks and snapshots -----

  /** A new block above the position of its chunk meets no other. */
  lemma BlockAdded(chunks: seq<Chunk>, limit: nat, big: seq<nat>, small: seq<nat>, live: set<Block>, clock: nat, b: Block, current: nat)
    requires HeapOk(chunks, limit) && BlocksOk(chunks, big, small, live, clock) && b.chunk < |chunks| && b.time == clock
    requires chunks[b.chunk].current <= b.addr && b.addr + b.size <= current <= chunks[b.chunk].end && b.addr < chunks[b.chunk].end
    requires -1 <= b.place < |small| && (if b.place >= 0 then small[b.place] == b.chunk else b.chunk in big)
    ensures BlocksOk(chunks[b.chunk := chunks[b.chunk].(current := current)], big, small, live + {b}, clock + 1)
  {
    var chunks' := chunks[b.chunk := chunks[b.chunk].(current := current)];
    Inside(chunks, limit, b.chunk);
    forall c | c in live + {b} ensures BlockOk(chunks', big, small, c, clock + 1) {
      if c in live { assert BlockOk(chunks, big, small, c, clock); }
    }
    forall c | c in live ensures Disjoint(b, c) && Disjoint(c, b) {
      assert BlockOk(chunks, big, small, c, clock);
      if c.chunk != b.chunk {
        ChunksApart(chunks, limit, b.chunk, c.chunk);
        Inside(chunks, limit, c.chunk);
      }
    }
  }

  /** More chunks at either end change no block. */
  lemma BlocksKept(chunks: seq<Chunk>, chunks': seq<Chunk>, big: seq<nat>, big': seq<nat>, small: seq<nat>, small': seq<nat>,
      live: set<Block>, clock: nat)
    requires BlocksOk(chunks, big, small, live, clock) && |chunks| <= |chunks'| && small <= small'
    requires forall i :: i in big ==> i in big'
    requires forall i :: 0 <= i < |chunks| ==> chunks'[i].start == chunks[i].start && chunks'[i].end == chunks[i].end
    requires forall i :: 0 <= i < |chunks| ==> chunks'[i].current >= chunks[i].current
    ensures BlocksOk(chunks', big', small', live, clock)
  {
    forall b | b in live ensures BlockOk(chunks', big', small', b, clock) {
      assert BlockOk(chunks, big, small, b, clock);
    }
  }

  lemma SnapKept(chunks: seq<Chunk>, chunks': seq<Chunk>, small: seq<nat>, small': seq<nat>, live: set<Block>, live': set<Block>, s: Snapshot)
    requires SnapOk(chunks, small, live, s) && |chunks| <= |chunks'| && small <= small'
    requires forall i :: 0 <= i < |chunks| ==> chunks'[i].start == chunks[i].start && chunks'[i].end == chunks[i].end
    requires forall b :: b in live' && b.time < s.time ==> b in live
    ensures SnapOk(chunks', small', live', s)
  {
    forall b | b in live' && b.time < s.time ensures OlderOk(s, b) {}
  }

  /** The outstanding marks, after a change that adds or removes recent blocks. */
  lemma MarksKept(chunks: seq<Chunk>, chunks': seq<Chunk>, small: seq<nat>, small': seq<nat>, live: set<Block>, live': set<Block>,
      marks: seq<Snapshot>, now: Snapshot, now': Snapshot)
    requires Timeline(chunks, small, live, marks + [now]) && |chunks| <= |chunks'| && small <= small'
    requires forall i :: 0 <= i < |chunks| ==> chunks'[i].start == chunks[i].start && chunks'[i].end == chunks[i].end
    requires forall b :: b in live' && b.time < now.time ==> b in live
    requires SnapOk(chunks', small', live', now') && now.time <= now'.time && now.place <= now'.place
    requires now'.place == now.place ==>
      (now'.current >= now.current && now'.lastAllocation.Some? && now'.lastAllocation.value >= now.current)
        || (now'.lastAllocation == now.lastAllocation && now'.lastAllocation.Some? && now'.current >= now'.lastAllocation.value)
        || (now'.lastAllocation == now.lastAllocation && now'.current == now.current)
    ensures Timeline(chunks', small', live', marks + [now'])
  {
    var all, all' := marks + [now], marks + [now'];
    forall k | 0 <= k < |all'| ensures SnapOk(chunks', small', live', all'[k]) {
      if k < |marks| {
        assert SnapOk(chunks, small, live, all[k]);
        TimeOrder(chunks, small, live, all, k);
        SnapKept(chunks, chunks', small, small', live, live', marks[k]);
      }
    }
    forall k | 0 <= k < |all'| - 1 ensures InOrder(all'[k], all'[k + 1]) {
      assert InOrder(all[k], all[k + 1]);
    }
  }

  lemma {:induction false} TimeOrder(chunks: seq<Chunk>, small: seq<nat>, live: set<Block>, all: seq<Snapshot>, k: nat)
    requires Timeline(chunks, small, live, all) && k < |all|
    ensures all[k].time <= all[|all| - 1].time
    decreases |all| - k
  {
    if k < |all| - 1 {
      assert InOrder(all[k], all[k + 1]);
      TimeOrder(chunks, small, live, all, k + 1);
    }
  }

  /** A block allocated in the last chunk, seen from then on. */
  lemma SnapAdded(chunks: seq<Chunk>, small: seq<nat>, live: set<Block>, now: Snapshot, b: Block, current: nat)
    requires SnapOk(chunks, small, live, now) && (forall c :: c in live ==> c.time < now.time)
    requires b.time == now.time && b.place == now.place && b.chunk == now.chunk
    requires now.current <= b.addr && b.addr + b.size <= current <= chunks[now.chunk].end
    ensures SnapOk(chunks[now.chunk := chunks[now.chunk].(current := current)], small, live + {b},
      Snapshot(now.chunk, current, Some(b.addr), now.place, now.time + 1))
  {
    var s := Snapshot(now.chunk, current, Some(b.addr), now.place, now.time + 1);
    forall c | c in live + {b} && c.time < s.time ensures OlderOk(s, c) {
      if c in live { assert OlderOk(now, c); }
    }
  }

  /** A block allocated in a new last chunk. */
  lemma SnapMoved(chunks: seq<Chunk>, big: seq<nat>, small: seq<nat>, live: set<Block>, clock: nat, c: nat, b: Block, current: nat)
    requires small != [] && BlocksOk(chunks, big, small[..|small| - 1], live, clock) && small[|small| - 1] == c && c < |chunks|
    requires b.time == clock && b.place == |small| - 1 && b.chunk == c
    requires chunks[c].start <= b.addr && b.addr + b.size <= current <= chunks[c].end
    ensures SnapOk(chunks[c := chunks[c].(current := current)], small, live + {b}, Snapshot(c, current, Some(b.addr), |small| - 1, clock + 1))
  {
    var s := Snapshot(c, current, Some(b.addr), |small| - 1, clock + 1);
    forall x | x in live + {b} && x.time < s.time ensures OlderOk(s, x) {
      if x in live { assert BlockOk(chunks, big, small[..|small| - 1], x, clock); }
    }
  }

  class Allocator {
    var chunks: seq<Chunk>
    var first: nat
    var last: nat
    var nextFree: Option<nat>
    var lastAllocation: Option<nat>
    var memory: seq<u8>        // the address space
    ghost var big: seq<nat>
    ghost var small: seq<nat>
    ghost var free: seq<nat>
    ghost var live: set<Block>
    ghost var marks: seq<Snapshot>  // outstanding, oldest first
    ghost var clock: nat

    ghost function Now(): Snapshot
      requires last < |chunks|
      reads this
    {
      Snapshot(last, chunks[last].current, lastAllocation, if small == [] then 0 else |small| - 1, clock)
    }

    ghost predicate Valid()
      reads this
    {
      && HeapOk(chunks, |memory|) && ListsOk(chunks, big, small, free)
      && last == small[|small| - 1] < |chunks| && first == (big + small)[0] && nextFree == At(free, 0)
      && BlocksOk(chunks, big, small, live, clock)
      && Timeline(chunks, small, live, marks + [Now()])
    }

    /** One chunk, in which nothing is allocated. */
    constructor (memory: seq<u8>, base: nat)
      requires Fresh([], |memory|, base, MAX_AVAIL)
      ensures Valid() && live == {} && marks == [] && this.memory == memory
      ensures |chunks| == |small| == 1 && big == [] && chunks[0].end == base + CHUNK_SIZE
    {
      var c := Chunk(base + HEADER, base + HEADER, base + CHUNK_SIZE, None);
      chunks, first, last, nextFree, lastAllocation := [c], 0, 0, None, None;
      this.memory := memory;
      big, small, free, live, marks, clock := [], [0], [], {}, [], 0;
    }

    /** allocate_chunk: a chunk of ordinary size may come from the free list, with
        its old link. `base` is what the fallback allocator returns. */
    method AllocateChunk(maxAvail: nat, base: nat) returns (chunk: nat)
      modifies this`chunks, this`nextFree
      ensures var recycled := maxAvail + HEADER == CHUNK_SIZE && old(nextFree).Some? && old(nextFree).value < |old(chunks)|;
        && chunk == (if recycled then old(nextFree).value else |old(chunks)|)
        && nextFree == (if recycled then old(chunks)[chunk].link else old(nextFree))
        && chunks == (if recycled then old(chunks)
             else old(chunks) + [Chunk(base + HEADER, base + HEADER, base + HEADER + maxAvail, None)])
    {
      if maxAvail + HEADER == CHUNK_SIZE && nextFree.Some? && nextFree.value < |chunks| {
        chunk := nextFree.value;
        nextFree := chunks[chunk].link;
      } else {
        chunk := |chunks|;
        chunks := chunks + [Chunk(base + HEADER, base + HEADER, base + HEADER + maxAvail, None)];
      }
    }

    /** What an allocation promises. */
    twostate predicate Allocated(b: Block, size: nat, align: nat)
      requires align > 0
      reads this
    {
      && Valid() && live == old(live) + {b} && b !in old(live) && b.size == size && b.addr % align == 0
      && b.time == old(clock) && marks == old(marks) && clock == old(clock) + 1 && memory == old(memory) && Grown()
    }

    /** Chunks have been added, none has moved. */
    twostate predicate Grown()
      reads this
    {
      && |old(chunks)| <= |chunks| && old(small) <= small
      && forall i :: 0 <= i < |old(chunks)| ==> chunks[i].start == old(chunks)[i].start && chunks[i].end == old(chunks)[i].end
    }

    /** At most one chunk of ordinary size has been added, and there. */
    twostate predicate OneMore(base: nat)
      reads this
    {
      && |old(chunks)| <= |chunks| <= |old(chunks)| + 1 && memory == old(memory)
      && forall i :: |old(chunks)| <= i < |chunks| ==> chunks[i].end == base + CHUNK_SIZE
    }

    /** A request that fits into what the last chunk has left. */
    method AllocHere(size: nat, align: nat) returns (result: nat, ghost b: Block)
      requires Valid() && align > 0 && AlignUp(chunks[last].current, align) + size < chunks[last].end
      modifies this
      ensures Allocated(b, size, align) && b.addr == result && b.place == |small| - 1 >= 0
      ensures lastAllocation == Some(result) && old(chunks[last].current) <= result
      ensures small == old(small) && big == old(big) && |chunks| == |old(chunks)| && chunks[last].current == result + size
      ensures chunks[last].start <= result
    {
      hide HeapOk, ListsOk, BlocksOk, Timeline;
      result := AlignUp(chunks[last].current, align);
      var current := result + size;
      ghost var now := Now();
      b := Region(result, size, last, |small| - 1, clock);
      LastIn(chunks, big, small, free);
      BlockAdded(chunks, |memory|, big, small, live, clock, b, current);
      Inside(chunks, |memory|, last);
      HeapMoved(chunks, |memory|, last, chunks[last].(current := current));
      ListsMoved(chunks, big, small, free, last, current);
      NowOk(chunks, small, live, marks, now);
      Younger(chunks, big, small, live, clock);
      SnapAdded(chunks, small, live, now, b, current);
      ghost var chunks' := chunks[last := chunks[last].(current := current)];
      MarksKept(chunks, chunks', small, small, live, live + {b}, marks, now, Snapshot(last, current, Some(result), |small| - 1, clock + 1));
      assert b !in live;
      chunks := chunks[last := chunks[last].(current := current)];
      lastAllocation := Some(result);
      live, clock := live + {b}, clock + 1;
    }

    method Rounded(align: nat)
      requires Valid() && align > 0
      modifies this`chunks
      ensures |chunks| == |old(chunks)| && last < |chunks|
      ensures forall i :: 0 <= i < |chunks| ==> chunks[i].start == old(chunks)[i].start && chunks[i].end == old(chunks)[i].end
      ensures HeapOk(chunks, |memory|) && ListsOk(chunks, big, small, free) && BlocksOk(chunks, big, small, live, clock)
    {
      hide HeapOk, ListsOk, BlocksOk, Timeline;
      ghost var before := chunks;
      LastIn(chunks, big, small, free);
      Inside(chunks, |memory|, last);
      var current := AlignUp(chunks[last].current, align);
      HeapMoved(chunks, |memory|, last, chunks[last].(current := current));
      ListsMoved(chunks, big, small, free, last, current);
      chunks := chunks[last := chunks[last].(current := current)];
      BlocksKept(before, chunks, big, big, small, small, live, clock);
    }

    /** Round the position of the last chunk up and make another one of ordinary
        size the last. */
    method LinkNewChunk(align: nat, base: nat)
      requires Valid() && align > 0 && Fresh(chunks, |memory|, base, MAX_AVAIL)
      modifies this`chunks, this`nextFree, this`last, this`small, this`free
      ensures HeapOk(chunks, |memory|) && ListsOk(chunks, big, small, free) && last < |chunks| && nextFree == At(free, 0)
      ensures small == old(small) + [last] && first == (big + small)[0]
      ensures BlocksOk(chunks, big, old(small), live, clock)
      ensures chunks[last].current == chunks[last].start && chunks[last].end == chunks[last].start + MAX_AVAIL
      ensures |old(chunks)| <= |chunks| && OneMore(base)
      ensures forall i :: 0 <= i < |old(chunks)| ==> chunks[i].start == old(chunks)[i].start && chunks[i].end == old(chunks)[i].end
    {
      hide HeapOk, ListsOk, BlocksOk, Timeline, Fresh;
      ghost var start := chunks;
      LastIn(chunks, big, small, free);
      Rounded(align);
      FreshKept(start, chunks, |memory|, base, MAX_AVAIL);
      AddLast(base);
    }

    method AddLast(base: nat)
      requires HeapOk(chunks, |memory|) && ListsOk(chunks, big, small, free) && BlocksOk(chunks, big, small, live, clock)
      requires small != [] && last == small[|small| - 1] < |chunks| && first == (big + small)[0] && nextFree == At(free, 0)
      requires Fresh(chunks, |memory|, base, MAX_AVAIL)
      modifies this`chunks, this`nextFree, this`last, this`small, this`free
      ensures HeapOk(chunks, |memory|) && ListsOk(chunks, big, small, free) && last < |chunks| && nextFree == At(free, 0)
      ensures small == old(small) + [last] && first == (big + small)[0]
      ensures BlocksOk(chunks, big, old(small), live, clock)
      ensures chunks[last].current == chunks[last].start && chunks[last].end == chunks[last].start + MAX_AVAIL
      ensures |old(chunks)| <= |chunks| && OneMore(base)
      ensures forall i :: 0 <= i < |old(chunks)| ==> chunks[i].start == old(chunks)[i].start && chunks[i].end == old(chunks)[i].end
    {
      hide HeapOk, ListsOk, BlocksOk, Fresh;
      ghost var before, oldLast := chunks, last;
      FreeInside(chunks, big, small, free);
      var chunk := AllocateChunk(MAX_AVAIL, base);
      if chunk < |before| {
        Inside(before, |memory|, chunk);
        Recycled(before, big, small, free);
        HeapMoved(before, |memory|, chunk, before[chunk].(link := Some(oldLast)));
        free := free[1..];
      } else {
        HeapAdded(before, |memory|, base, MAX_AVAIL);
        HeapMoved(chunks, |memory|, chunk, chunks[chunk].(link := Some(oldLast)));
        Appended(before, big, small, free, chunks[chunk].(link := Some(oldLast)));
        assert before + [chunks[chunk].(link := Some(oldLast))] == chunks[chunk := chunks[chunk].(link := Some(oldLast))];
      }
      chunks := chunks[chunk := chunks[chunk].(link := Some(last))];
      last := chunk;
      BlocksKept(before, chunks, big, big, small, small, live, clock);
      small := small + [chunk];
    }

    /** A request for which the last chunk has no room. */
    method AllocNewChunk(size: nat, align: nat, base: nat) returns (result: nat, ghost b: Block)
      requires Valid() && align > 0 && size + align - 1 < MAX_AVAIL && Fresh(chunks, |memory|, base, MAX_AVAIL)
      modifies this
      ensures Allocated(b, size, align) && b.addr == result && b.place == |small| - 1 >= 0
      ensures lastAllocation == Some(result) && |small| == |old(small)| + 1 && big == old(big) && OneMore(base)
      ensures last < |chunks| && chunks[last].current == result + size && chunks[last].start <= result
    {
      hide HeapOk, ListsOk, BlocksOk, Timeline, Fresh;
      ghost var before, small0, now := chunks, small, Now();
      Younger(chunks, big, small, live, clock);
      LastIn(chunks, big, small, free);
      LinkNewChunk(align, base);
      result := AlignUp(chunks[last].current, align);
      var current := result + size;
      b := Region(result, size, last, |small| - 1, clock);
      LastIn(chunks, big, small, free);
      BlocksKept(chunks, chunks, big, big, small0, small, live, clock);
      BlockAdded(chunks, |memory|, big, small, live, clock, b, current);
      Inside(chunks, |memory|, last);
      HeapMoved(chunks, |memory|, last, chunks[last].(current := current));
      ListsMoved(chunks, big, small, free, last, current);
      assert small[..|small| - 1] == small0;
      SnapMoved(chunks, big, small, live, clock, last, b, current);
      ghost var chunks' := chunks[last := chunks[last].(current := current)];
      MarksKept(before, chunks', small0, small, live, live + {b}, marks, now, Snapshot(last, current, Some(result), |small| - 1, clock + 1));
      assert b !in live;
      chunks := chunks[last := chunks[last].(current := current)];
      lastAllocation := Some(result);
      live, clock := live + {b}, clock + 1;
    }

    /** A chunk for one block, threaded in front of the others. */
    method LinkBigChunk(avail: nat, base: nat) returns (chunk: nat)
      requires Valid() && Servable(avail) && Fresh(chunks, |memory|, base, avail)
      modifies this`chunks, this`nextFree, this`first, this`big, this`free
      ensures HeapOk(chunks, |memory|) && ListsOk(chunks, big, small, free) && last < |chunks| && nextFree == At(free, 0)
      ensures first == (big + small)[0] && chunk < |chunks| && |old(chunks)| <= |chunks| && chunk in big
      ensures BlocksOk(chunks, big, small, live, clock) && chunks[chunk].current == chunks[chunk].start
      ensures chunks[chunk].end == chunks[chunk].start + avail && chunk != last
      ensures forall i :: 0 <= i < |old(chunks)| ==> chunks[i].start == old(chunks)[i].start && chunks[i].end == old(chunks)[i].end
      ensures chunks[last].current == old(chunks)[last].current
    {
      hide HeapOk, ListsOk, BlocksOk, Timeline, Fresh;
      ghost var before := chunks;
      FirstIn(before, big, small, free);
      FreeInside(chunks, big, small, free);
      chunk := AllocateChunk(avail, base);
      if chunk < |before| {
        OnlyFree(before, big, small, free);
        Inside(before, |memory|, chunk);
        Reused(before, big, small, free);
        assert free == [chunk];
        free := [];
      } else {
        HeapAdded(before, |memory|, base, avail);
        Prepended(before, big, small, free, chunks[chunk]);
        assert before[first := before[first].(link := Some(chunk))] + [chunks[chunk]] == chunks[first := chunks[first].(link := Some(chunk))];
      }
      Inside(chunks, |memory|, first);
      HeapMoved(chunks, |memory|, first, chunks[first].(link := Some(chunk)));
      chunks := chunks[first := chunks[first].(link := Some(chunk))];
      BlocksKept(before, chunks, big, [chunk] + big, small, small, live, clock);
      first := chunk;
      big := [chunk] + big;
      LastOnce(chunks, big, small, free);
    }

    /** A request that gets a chunk of its own. */
    method AllocBig(size: nat, align: nat, base: nat) returns (result: nat, ghost b: Block)
      requires Valid() && PowerOf2(align) && align > 0 && size + align - 1 >= MAX_AVAIL && Servable(size + align - 1)
      requires Fresh(chunks, |memory|, base, size + align - 1)
      modifies this
      ensures Allocated(b, size, align) && b.addr == result && b.place == -1
    {
      hide HeapOk, ListsOk, BlocksOk, Timeline, Fresh, PowerOf2, AlignUp;
      ghost var before, now := chunks, Now();
      Younger(chunks, big, small, live, clock);
      LastIn(chunks, big, small, free);
      NowOk(chunks, small, live, marks, now);
      var chunk := LinkBigChunk(size + align - 1, base);
      Inside(chunks, |memory|, chunk);
      result := AlignUp(chunks[chunk].current, align);
      AlignedInside(chunks[chunk].start, size, align);
      b := Region(result, size, chunk, -1, clock);
      BlockAdded(chunks, |memory|, big, small, live, clock, b, chunks[chunk].end);
      HeapMoved(chunks, |memory|, chunk, chunks[chunk].(current := chunks[chunk].end));
      ListNotFree(chunks, big, small, free, chunk);
      ListsMoved(chunks, big, small, free, chunk, chunks[chunk].end);
      ghost var done := chunks[chunk := chunks[chunk].(current := chunks[chunk].end)];
      SnapAside(before, done, small, live, now, b);
      MarksKept(before, done, small, small, live, live + {b}, marks, now, now.(time := clock + 1));
      assert b !in live;
      chunks := chunks[chunk := chunks[chunk].(current := chunks[chunk].end)];
      live, clock := live + {b}, clock + 1;
    }

    /** A request for exactly MAX_AVAIL takes a chunk from the free list without
        clearing its link, so that list must not go on (see ExactRequest). */
    predicate Servable(allocSize: nat)
      reads this
    {
      allocSize == MAX_AVAIL ==> nextFree.None? || (nextFree.value < |chunks| && chunks[nextFree.value].link.None?)
    }

    /** stack_alloc. */
    method StackAlloc(size: nat, align: nat, base: nat) returns (result: nat, ghost b: Block)
      requires Valid() && PowerOf2(align) && align > 0 && Servable(size + align - 1)
      requires Fresh(chunks, |memory|, base, if size + align - 1 > MAX_AVAIL then size + align - 1 else MAX_AVAIL)
      modifies this
      ensures Allocated(b, size, align) && b.addr == result
      ensures size + align - 1 < MAX_AVAIL ==> lastAllocation == Some(result) && b.place == |small| - 1
      ensures size + align - 1 < MAX_AVAIL && |small| == |old(small)| ==> old(chunks[last].current) <= result
      ensures size + align - 1 < MAX_AVAIL ==>
        && |small| == |old(small)| + (if AlignUp(old(chunks[last].current), align) + size < old(chunks[last].end) then 0 else 1)
        && big == old(big) && chunks[last].current == result + size && chunks[last].start <= result && OneMore(base)
    {
      hide HeapOk, ListsOk, BlocksOk, Timeline, Fresh, PowerOf2;
      if size + align - 1 >= MAX_AVAIL {
        result, b := AllocBig(size, align, base);
      } else if AlignUp(chunks[last].current, align) + size < chunks[last].end {
        result, b := AllocHere(size, align);
      } else {
        result, b := AllocNewChunk(size, align, base);
      }
    }

    /** stack_free: only the last allocation gives its space back. Two live blocks
        can have one address, if one of them is empty; all is well exactly if the
        space given back is not that of the other. */
    method StackFree(p: nat, ghost b: Block)
      requires Valid() && b in live && b.addr == p
      modifies this`chunks, this`live
      ensures live == old(live) - {b}
      ensures Valid() <==> (lastAllocation == Some(p) ==> Alone(old(live), b))
      ensures lastAllocation != Some(p) ==> chunks == old(chunks)
      ensures lastAllocation == Some(p) ==> chunks == old(chunks)[last := old(chunks)[last].(current := p)]
    {
      hide HeapOk, ListsOk, BlocksOk, Timeline, Alone;
      ghost var before := chunks;
      ghost var now := Now();
      var top := lastAllocation == Some(p);
      LastIn(chunks, big, small, free);
      NowOk(chunks, small, live, marks, now);
      if top {
        chunks := chunks[last := chunks[last].(current := p)];
      }
      if !top || Alone(live, b) {
        Freed(before, chunks, big, small, free, live, clock, now, b, top, |memory|, marks);
      } else {
        NotFreed(before, chunks, big, small, live, clock, now, b, |memory|);
      }
      live := live - {b};
    }

    /** stack_mark: the state before the mark is allocated itself. */
    method StackMark(base: nat) returns (mark: Mark, ghost snapshot: Snapshot)
      requires Valid() && Fresh(chunks, |memory|, base, MAX_AVAIL)
      modifies this
      ensures Valid() && marks == old(marks) + [snapshot] && snapshot.Stored() == mark && memory == old(memory)
      ensures snapshot == old(Now()) && forall b :: b in old(live) ==> b in live && b.time < snapshot.time
      ensures forall b :: b in live && b !in old(live) ==> b.time >= snapshot.time
      ensures old(small) <= small && big == old(big) && OneMore(base) && Grown()
    {
      hide HeapOk, ListsOk, BlocksOk, Timeline, Fresh, SnapOk, PowerOf2;
      ghost var before, small0, live0 := chunks, small, live;
      snapshot := Now();
      Younger(chunks, big, small, live, clock);
      NowOk(chunks, small, live, marks, snapshot);
      Eight();
      mark := Mark(last, chunks[last].current, lastAllocation);
      ghost var b;
      var result;
      result, b := StackAlloc(MARK_SIZE, 8, base);
      SnapKept(before, chunks, small0, small, live0, live, snapshot);
      TopOf(chunks, big, small, live, clock, b);
      LastIn(chunks, big, small, free);
      assert InOrder(snapshot, Now());
      MarkPushed(chunks, small, live, marks, snapshot, Now(), before, small0, live0);
      marks := marks + [snapshot];
    }

    /** The walk back to the chunk of the mark; `older` are the blocks that stay. */
    method RetireChunks(chunk: nat, ghost snapshot: Snapshot, ghost older: set<Block>)
      requires HeapOk(chunks, |memory|) && ListsOk(chunks, big, small, free) && BlocksOk(chunks, big, small, older, clock)
      requires small != [] && last == small[|small| - 1] < |chunks| && first == (big + small)[0] && nextFree == At(free, 0)
      requires snapshot.place < |small| && small[snapshot.place] == chunk == snapshot.chunk && forall b :: b in older ==> OlderOk(snapshot, b)
      modifies this`chunks, this`last, this`nextFree, this`small, this`free
      ensures HeapOk(chunks, |memory|) && ListsOk(chunks, big, small, free) && BlocksOk(chunks, big, small, older, clock)
      ensures small == old(small)[..snapshot.place + 1] && last == chunk < |chunks|
      ensures first == (big + small)[0] && nextFree == At(free, 0) && |chunks| == |old(chunks)|
      ensures forall i :: 0 <= i < |chunks| ==> chunks[i].start == old(chunks)[i].start && chunks[i].end == old(chunks)[i].end
    {
      hide HeapOk, ListsOk, BlocksOk;
      ghost var before, small0 := chunks, small;
      while last != chunk
        invariant HeapOk(chunks, |memory|) && ListsOk(chunks, big, small, free)
        invariant small != [] && last == small[|small| - 1] < |chunks| && first == (big + small)[0] && nextFree == At(free, 0)
        invariant snapshot.place < |small| <= |small0| && small == small0[..|small|]
        invariant BlocksOk(chunks, big, small, older, clock)
        invariant |chunks| == |before|
        invariant forall i :: 0 <= i < |chunks| ==> chunks[i].start == before[i].start && chunks[i].end == before[i].end
        decreases |small|
      {
        var c := last;
        var prev := chunks[c].link;
        ghost var big', small' := big, small;
        Retired(chunks, big, small, free);
        Inside(chunks, |memory|, c);
        var reset := chunks[c].(current := chunks[c].start, link := nextFree);
        HeapMoved(chunks, |memory|, c, reset);
        LastOnce(chunks, big, small, free);
        BlocksRetired(chunks, big, small, older, clock, snapshot, reset);
        chunks := chunks[c := reset];
        nextFree := Some(c);
        last := prev.value;
        small, free := small[..|small| - 1], [c] + free;
        LastIn(chunks, big, small, free);
        assert (big' + small')[0] == (big + small)[0];
      }
      LastPlace(chunks, big, small, free, snapshot);
    }

    /** stack_reset_to_mark: chunks newer than the mark go to the free list;
        blocks older than the mark are as they were, the others are gone. */
    method StackResetToMark(mark: Mark, ghost snapshot: Snapshot)
      requires Valid() && snapshot in marks && snapshot.Stored() == mark
      modifies this`chunks, this`last, this`nextFree, this`lastAllocation, this`small, this`free, this`live, this`marks
      ensures Valid() && live == Before(old(live), snapshot.time)
      ensures exists k :: 0 <= k < |old(marks)| && old(marks)[k] == snapshot && marks == old(marks)[..k]
      ensures |small| == snapshot.place + 1 && |chunks| == |old(chunks)|
    {
      hide HeapOk, ListsOk, BlocksOk, Timeline, SnapOk;
      ghost var k :| 0 <= k < |marks| && marks[k] == snapshot;
      ghost var before, small0, now, older := chunks, small, Now(), Before(live, snapshot.time);
      MarkAt(chunks, small, live, marks, now, k);
      OlderBlocks(chunks, big, small, live, older, clock);
      RetireChunks(mark.chunk, snapshot, older);
      LastIn(chunks, big, small, free);
      LastOnce(chunks, big, small, free);
      ghost var chunks' := chunks[last := chunks[last].(current := mark.current)];
      SnapWithin(before, small0, live, snapshot);
      HeapMoved(chunks, |memory|, last, chunks[last].(current := mark.current));
      ListsMoved(chunks, big, small, free, last, mark.current);
      BlocksReset(chunks, big, small, older, clock, snapshot);
      TimelineReset(before, chunks', small0, small, live, older, marks, now, k, clock);
      chunks := chunks[last := chunks[last].(current := mark.current)];
      lastAllocation := mark.lastAllocation;
      live, marks := older, marks[..k];
    }

    /** The walk along the chain, from the last chunk, to the one that holds p. */
    method FindChunk(p: nat, ghost b: Block) returns (chunk: nat)
      requires Valid() && b in live && b.addr == p
      ensures chunk == b.chunk < |chunks|
    {
      hide HeapOk, ListsOk, BlocksOk, Timeline;
      ghost var used := big + small;
      ghost var k := |used| - 1;
      LastIn(chunks, big, small, free);
      BlockUsed(chunks, big, small, live, clock, b);
      ghost var place :| 0 <= place < |used| && used[place] == b.chunk;
      assert InChunk(chunks[b.chunk], p);
      chunk := last;
      while !InChunk(chunks[chunk], p)
        invariant place <= k < |used| && used[k] == chunk < |chunks|
        decreases k
      {
        UsedPrev(chunks, big, small, free, k);
        chunk := chunks[chunk].link.value;
        k := k - 1;
      }
      if chunk != b.chunk { ChunksApart(chunks, |memory|, chunk, b.chunk); assert false; }
    }

    /** stack_realloc. The old block, of which the size is not known, is copied up
        to the end of its chunk; it stays live. */
    method StackRealloc(p: nat, size: nat, align: nat, base: nat, ghost prior: Block) returns (result: nat, ghost b: Block)
      requires Valid() && PowerOf2(align) && align > 0 && Servable(size + align - 1)
      requires Fresh(chunks, |memory|, base, if size + align - 1 > MAX_AVAIL then size + align - 1 else MAX_AVAIL)
      requires p != 0 ==> prior in live && prior.addr == p
      modifies this
      ensures Valid() && live == old(live) + {b} && b !in old(live) && b.addr == result && b.size == size && result % align == 0
      ensures marks == old(marks) && b.time == old(clock)
      ensures p != 0 ==> Bytes(memory, result, Least(prior.size, size)) == Bytes(old(memory), p, Least(prior.size, size))
      ensures |memory| == |old(memory)| && forall c :: c in old(live) ==> Bytes(memory, c.addr, c.size) == Bytes(old(memory), c.addr, c.size)
    {
      hide HeapOk, ListsOk, BlocksOk, Timeline, Fresh, PowerOf2, Bytes;
      if p == 0 {
        result, b := StackAlloc(size, align, base);
      } else {
        var chunk := FindChunk(p, prior);
        result, b := StackAlloc(size, align, base);
        BlockWithin(chunks, |memory|, big, small, live, clock, prior);
        BlockWithin(chunks, |memory|, big, small, live, clock, b);
        var room := chunks[chunk].end - p;
        var count := if size > room then room else size;
        ghost var before := memory;
        Moved(before, p, result, count, Least(prior.size, size));
        forall c | c in old(live)
          ensures Bytes(Move(before, p, result, count), c.addr, c.size) == Bytes(before, c.addr, c.size)
        {
          BlockWithin(chunks, |memory|, big, small, live, clock, c);
          TwoApart(chunks, big, small, live, clock, b, c);
          MovedElsewhere(before, p, result, count, c.addr, c.size);
        }
        memory := Move(memory, p, result, count);
      }
    }

    /** stack_destroy: the chunks in the order in which they go back to the
        fallback allocator. */
    method StackDestroy() returns (released: seq<nat>)
      requires Valid()
      ensures Distinct(released) && forall i :: i in released <==> 0 <= i < |chunks|
    {
      hide HeapOk, ListsOk, BlocksOk, Timeline, Distinct;
      released := ReleaseFree();
      ghost var used := big + small;
      ghost var k := |used|;
      LastIn(chunks, big, small, free);
      var chunk := Some(last);
      while chunk.Some?
        invariant 0 <= k <= |used| && chunk == At(used, k - 1)
        invariant released == free + Backwards(used[k..])
        decreases k
      {
        UsedTail(chunks, big, small, free, k - 1);
        assert used[k - 1..] == [used[k - 1]] + used[k..];
        released := released + [chunk.value];
        chunk := chunks[chunk.value].link;
        k := k - 1;
      }
      assert used[0..] == used;
      EachOnce(chunks, big, small, free);
    }

    method ReleaseFree() returns (released: seq<nat>)
      requires Valid()
      ensures released == free
    {
      hide HeapOk, BlocksOk, Timeline;
      ghost var k := 0;
      var chunk := nextFree;
      released := [];
      while chunk.Some?
        invariant k <= |free| && chunk == At(free, k) && released == free[..k]
        decreases |free| - k
      {
        assert FreeLink(chunks, free, k);
        released := released + [chunk.value];
        chunk := chunks[chunk.value].link;
        k := k + 1;
      }
    }
  }

  // ----- reallocation -----

  /** allocation_in_chunk: the header counts as part of the chunk. */
  predicate InChunk(c: Chunk, p: nat) { c.start <= p + HEADER && p < c.end }

  function Least(a: nat, b: nat): nat { if a < b then a else b }

  function Bytes(memory: seq<u8>, at: nat, n: nat): seq<u8> {
    if at + n <= |memory| then memory[at..at + n] else []
  }

  /** memmove inside the address space. */
  function Move(memory: seq<u8>, from: nat, to: nat, n: nat): seq<u8>
    requires from + n <= |memory| && to + n <= |memory|
  {
    memory[..to] + memory[from..from + n] + memory[to + n..]
  }

  lemma Moved(memory: seq<u8>, from: nat, to: nat, n: nat, m: nat)
    requires from + n <= |memory| && to + n <= |memory| && m <= n
    ensures |Move(memory, from, to, n)| == |memory| && Bytes(Move(memory, from, to, n), to, m) == Bytes(memory, from, m)
  {
    var moved := Move(memory, from, to, n);
    var there, here := moved[to..to + m], memory[from..from + m];
    forall i | 0 <= i < m ensures there[i] == here[i] {
      assert moved[to + i] == memory[from..from + n][i];
    }
  }

  lemma MovedElsewhere(memory: seq<u8>, from: nat, to: nat, n: nat, at: nat, m: nat)
    requires from + n <= |memory| && to + n <= |memory| && at + m <= |memory| && (at + m <= to || to + n <= at)
    ensures Bytes(Move(memory, from, to, n), at, m) == Bytes(memory, at, m)
  {
    var moved := Move(memory, from, to, n);
    assert |moved| == |memory|;
    var there, here := moved[at..at + m], memory[at..at + m];
    forall i | 0 <= i < m ensures there[i] == here[i] {
      assert moved[at + i] == memory[at + i];
    }
  }

  lemma BlockWithin(chunks: seq<Chunk>, limit: nat, big: seq<nat>, small: seq<nat>, live: set<Block>, clock: nat, b: Block)
    requires HeapOk(chunks, limit) && BlocksOk(chunks, big, small, live, clock) && b in live
    ensures b.chunk < |chunks| && chunks[b.chunk].start <= b.addr < chunks[b.chunk].end <= limit
    ensures b.addr + b.size <= chunks[b.chunk].end
  {
    assert BlockOk(chunks, big, small, b, clock);
    Inside(chunks, limit, b.chunk);
  }

  lemma TwoApart(chunks: seq<Chunk>, big: seq<nat>, small: seq<nat>, live: set<Block>, clock: nat, b: Block, c: Block)
    requires BlocksOk(chunks, big, small, live, clock) && b in live && c in live && b != c
    ensures Disjoint(b, c)
  {}

  /** The chunk of a live block is in the chain. */
  lemma BlockUsed(chunks: seq<Chunk>, big: seq<nat>, small: seq<nat>, live: set<Block>, clock: nat, b: Block)
    requires BlocksOk(chunks, big, small, live, clock) && b in live
    ensures b.chunk < |chunks| && b.chunk in big + small && InChunk(chunks[b.chunk], b.addr)
  {
    assert BlockOk(chunks, big, small, b, clock);
  }

  lemma UsedPrev(chunks: seq<Chunk>, big: seq<nat>, small: seq<nat>, free: seq<nat>, k: nat)
    requires ListsOk(chunks, big, small, free) && 0 < k < |big + small|
    ensures var used := big + small;
      used[k] < |chunks| && chunks[used[k]].link == Some(used[k - 1]) && used[k - 1] < |chunks|
  {
    assert UsedLink(chunks, big + small, k) && UsedLink(chunks, big + small, k - 1);
  }

  // ----- every chunk once -----

  function Backwards(s: seq<nat>): (r: seq<nat>)
    ensures |r| == |s|
  {
    if s == [] then [] else Backwards(s[1..]) + [s[0]]
  }

  lemma {:induction false} BackwardsAt(s: seq<nat>, k: nat)
    requires k < |s|
    ensures Backwards(s)[k] == s[|s| - 1 - k]
  {
    if k < |s| - 1 { BackwardsAt(s[1..], k); }
  }

  lemma UsedTail(chunks: seq<Chunk>, big: seq<nat>, small: seq<nat>, free: seq<nat>, k: nat)
    requires ListsOk(chunks, big, small, free) && k < |big + small|
    ensures var used := big + small;
      used[k] < |chunks| && chunks[used[k]].link == At(used, k - 1)
      && Backwards([used[k]] + used[k + 1..]) == Backwards(used[k + 1..]) + [used[k]]
  {
    var used := big + small;
    assert UsedLink(chunks, used, k);
    assert ([used[k]] + used[k + 1..])[1..] == used[k + 1..];
  }

  lemma EachOnce(chunks: seq<Chunk>, big: seq<nat>, small: seq<nat>, free: seq<nat>)
    requires ListsOk(chunks, big, small, free)
    ensures var all := free + Backwards(big + small); Distinct(all) && forall i :: i in all <==> 0 <= i < |chunks|
  {
    var n, used, all := |chunks|, big + small, free + Backwards(big + small);
    assert Partition(n, used, free);
    var at := k => if k < |free| then |used| + k else |all| - 1 - k;
    forall k | 0 <= k < |all| ensures 0 <= at(k) < n && all[k] == (used + free)[at(k)] {
      if k >= |free| { BackwardsAt(used, k - |free|); }
    }
    Everywhere(n, all);
  }

  /** n different numbers below n are all of them. */
  lemma Everywhere(n: nat, s: seq<nat>)
    requires |s| == n && Distinct(s) && forall k :: 0 <= k < n ==> s[k] < n
    ensures forall i :: i in s <==> 0 <= i < n
  {
    forall i: nat | i < n ensures i in s {
      if i !in s {
        var missing := Range(n) - {i};
        DistinctSize(s, missing);
        assert false;
      }
    }
  }

  ghost function Range(n: nat): (r: set<nat>)
    ensures |r| == n && forall i :: i in r <==> 0 <= i < n
  {
    if n == 0 then {} else Range(n - 1) + {n - 1}
  }

  lemma {:induction false} DistinctSize(s: seq<nat>, all: set<nat>)
    requires Distinct(s) && forall k :: 0 <= k < |s| ==> s[k] in all
    ensures |s| <= |all|
  {
    if s != [] {
      var rest := s[..|s| - 1];
      DistinctSize(rest, all - {s[|s| - 1]});
    }
  }

  lemma SnapWithin(chunks: seq<Chunk>, small: seq<nat>, live: set<Block>, s: Snapshot)
    requires SnapOk(chunks, small, live, s)
    ensures s.chunk < |chunks| && chunks[s.chunk].start <= s.current <= chunks[s.chunk].end
  {}

  /** The new block is the highest in the last chunk. */
  lemma TopOf(chunks: seq<Chunk>, big: seq<nat>, small: seq<nat>, live: set<Block>, clock: nat, b: Block)
    requires BlocksOk(chunks, big, small, live, clock) && b in live && b.place == |small| - 1 >= 0
    ensures small[|small| - 1] < |chunks| && b.addr <= chunks[small[|small| - 1]].current
  {
    assert BlockOk(chunks, big, small, b, clock);
  }

  lemma MarkPushed(chunks: seq<Chunk>, small: seq<nat>, live: set<Block>, marks: seq<Snapshot>, mark: Snapshot, now: Snapshot,
      before: seq<Chunk>, small0: seq<nat>, live0: set<Block>)
    requires Timeline(chunks, small, live, marks + [now]) && SnapOk(chunks, small, live, mark) && InOrder(mark, now)
    requires Timeline(before, small0, live0, marks + [mark])
    ensures Timeline(chunks, small, live, marks + [mark] + [now])
  {
    var all, prior, all' := marks + [now], marks + [mark], marks + [mark] + [now];
    forall k | 0 <= k < |all'| ensures SnapOk(chunks, small, live, all'[k]) {
      if k < |marks| { assert SnapOk(chunks, small, live, all[k]); }
      if k == |marks| + 1 { assert SnapOk(chunks, small, live, all[k - 1]); }
    }
    forall k | 0 <= k < |all'| - 1 ensures InOrder(all'[k], all'[k + 1]) {
      if k < |marks| { assert InOrder(prior[k], prior[k + 1]); }
    }
  }

  lemma MarkAt(chunks: seq<Chunk>, small: seq<nat>, live: set<Block>, marks: seq<Snapshot>, now: Snapshot, k: nat)
    requires Timeline(chunks, small, live, marks + [now]) && k < |marks|
    ensures SnapOk(chunks, small, live, marks[k]) && marks[k].place < |small| && small[marks[k].place] == marks[k].chunk
    ensures marks[k].time <= now.time && forall b :: b in live && b.time < marks[k].time ==> OlderOk(marks[k], b)
  {
    assert (marks + [now])[k] == marks[k];
    TimeOrder(chunks, small, live, marks + [now], k);
  }

  lemma OlderBlocks(chunks: seq<Chunk>, big: seq<nat>, small: seq<nat>, live: set<Block>, older: set<Block>, clock: nat)
    requires BlocksOk(chunks, big, small, live, clock) && older <= live
    ensures BlocksOk(chunks, big, small, older, clock)
  {
    forall b | b in older ensures BlockOk(chunks, big, small, b, clock) { assert BlockOk(chunks, big, small, b, clock); }
  }

  /** No older block is in a chunk newer than the mark. */
  lemma BlocksRetired(chunks: seq<Chunk>, big: seq<nat>, small: seq<nat>, older: set<Block>, clock: nat, mark: Snapshot, c: Chunk)
    requires BlocksOk(chunks, big, small, older, clock) && |small| > 1 && mark.place < |small| - 1
    requires var i := small[|small| - 1];
      i < |chunks| && i !in big && (forall k :: 0 <= k < |small| - 1 ==> small[k] != i)
      && c.start == chunks[i].start && c.end == chunks[i].end
    requires forall b :: b in older ==> OlderOk(mark, b)
    ensures BlocksOk(chunks[small[|small| - 1] := c], big, small[..|small| - 1], older, clock)
  {
    var i := small[|small| - 1];
    forall b | b in older ensures BlockOk(chunks[i := c], big, small[..|small| - 1], b, clock) {
      assert BlockOk(chunks, big, small, b, clock) && OlderOk(mark, b);
    }
  }

  lemma LastPlace(chunks: seq<Chunk>, big: seq<nat>, small: seq<nat>, free: seq<nat>, mark: Snapshot)
    requires ListsOk(chunks, big, small, free) && mark.place < |small| && small[mark.place] == mark.chunk == small[|small| - 1]
    ensures mark.place == |small| - 1
  {
    LastOnce(chunks, big, small, free);
  }

  lemma BlocksReset(chunks: seq<Chunk>, big: seq<nat>, small: seq<nat>, older: set<Block>, clock: nat, mark: Snapshot)
    requires BlocksOk(chunks, big, small, older, clock) && small != [] && mark.place == |small| - 1
    requires small[mark.place] == mark.chunk < |chunks| && mark.chunk !in big
    requires forall k :: 0 <= k < |small| - 1 ==> small[k] != mark.chunk
    requires forall b :: b in older ==> OlderOk(mark, b)
    ensures BlocksOk(chunks[mark.chunk := chunks[mark.chunk].(current := mark.current)], big, small, older, clock)
  {
    var chunks' := chunks[mark.chunk := chunks[mark.chunk].(current := mark.current)];
    forall b | b in older ensures BlockOk(chunks', big, small, b, clock) {
      assert BlockOk(chunks, big, small, b, clock) && OlderOk(mark, b);
    }
  }

  lemma TimelineReset(chunks: seq<Chunk>, chunks': seq<Chunk>, small: seq<nat>, small': seq<nat>, live: set<Block>, older: set<Block>,
      marks: seq<Snapshot>, now: Snapshot, k: nat, clock: nat)
    requires Timeline(chunks, small, live, marks + [now]) && k < |marks| && older == Before(live, marks[k].time)
    requires |chunks'| == |chunks| && now.time == clock
    requires forall i :: 0 <= i < |chunks| ==> chunks'[i].start == chunks[i].start && chunks'[i].end == chunks[i].end
    requires |small'| == marks[k].place + 1 <= |small| && small' == small[..|small'|]
    ensures Timeline(chunks', small', older, marks[..k] + [marks[k].(time := clock)])
  {
    var all, all', m := marks + [now], marks[..k] + [marks[k].(time := clock)], marks[k];
    TimeOrder(chunks, small, live, all, k);
    forall i | 0 <= i < |all'| ensures SnapOk(chunks', small', older, all'[i]) {
      assert SnapOk(chunks, small, live, all[i]);
      PlaceOrder(chunks, small, live, all, i, k);
      forall b | b in older && b.time < all'[i].time ensures OlderOk(all'[i], b) {
        assert OlderOk(all[i], b);
      }
    }
    forall i | 0 <= i < |all'| - 1 ensures InOrder(all'[i], all'[i + 1]) {
      assert InOrder(all[i], all[i + 1]);
    }
  }

  lemma {:induction false} PlaceOrder(chunks: seq<Chunk>, small: seq<nat>, live: set<Block>, all: seq<Snapshot>, i: nat, k: nat)
    requires Timeline(chunks, small, live, all) && i <= k < |all|
    ensures all[i].place <= all[k].place
    decreases k - i
  {
    if i < k {
      assert InOrder(all[i], all[i + 1]);
      PlaceOrder(chunks, small, live, all, i + 1, k);
    }
  }

  /** The last chunk is listed once. */
  lemma LastOnce(chunks: seq<Chunk>, big: seq<nat>, small: seq<nat>, free: seq<nat>)
    requires ListsOk(chunks, big, small, free)
    ensures var c := small[|small| - 1];
      c !in big && forall k :: 0 <= k < |small| - 1 ==> small[k] != c
  {
    var used, top := big + small, |big + small| - 1;
    assert used[top] == small[|small| - 1];
    assert Distinct(used + free);
    forall k | 0 <= k < top ensures used[k] != used[top] {
      assert (used + free)[k] == used[k] && (used + free)[top] == used[top];
    }
    forall k | 0 <= k < |big| ensures big[k] != used[top] { assert used[k] == big[k]; }
    forall k | 0 <= k < |small| - 1 ensures small[k] != used[top] { assert used[|big| + k] == small[k]; }
  }

  lemma FreeInside(chunks: seq<Chunk>, big: seq<nat>, small: seq<nat>, free: seq<nat>)
    requires ListsOk(chunks, big, small, free)
    ensures free != [] ==> free[0] < |chunks| && chunks[free[0]].link == At(free[1..], 0)
    ensures free != [] ==> chunks[free[0]].current == chunks[free[0]].start && chunks[free[0]].end == chunks[free[0]].start + MAX_AVAIL
  {
    if free != [] { assert FreeLink(chunks, free, 0); }
  }

  lemma FirstIn(chunks: seq<Chunk>, big: seq<nat>, small: seq<nat>, free: seq<nat>)
    requires ListsOk(chunks, big, small, free)
    ensures (big + small)[0] < |chunks| && chunks[(big + small)[0]].link == None
  {
    assert UsedLink(chunks, big + small, 0);
  }

  lemma ListNotFree(chunks: seq<Chunk>, big: seq<nat>, small: seq<nat>, free: seq<nat>, i: nat)
    requires ListsOk(chunks, big, small, free) && i in big
    ensures i !in free
  {
    UsedNotFree(|chunks|, big, small, free, i);
  }

  /** Even an empty block lies before the end of a chunk of its own. */
  lemma AlignedInside(start: nat, size: nat, align: nat)
    requires PowerOf2(align) && align > 0 && start % 8 == 0 && size + align - 1 >= MAX_AVAIL
    ensures AlignUp(start, align) + size <= start + (size + align - 1) && AlignUp(start, align) < start + (size + align - 1)
  {
    hide PowerOf2;
    var r := AlignUp(start, align);
    hide AlignUp;
    if size == 0 {
      var m := LargePower(align);
      MultipleOfEight(r, align, m);
      assert (start + 8 * m - 1) % 8 == 7;
    }
  }

  lemma LargePower(align: nat) returns (m: nat)
    requires PowerOf2(align) && align > MAX_AVAIL
    ensures align == 8 * m && m > 0
  {
    var k: nat :| align == Pow2(k);
    Eight();
    if k < 3 { PowMore(k, 3); }
    PowAdd(3, k - 3);
    m := Pow2(k - 3);
  }

  lemma Eight()
    ensures Pow2(3) == 8 && PowerOf2(8)
  {
    assert Pow2(2) == 4;
  }

  lemma MultipleOfEight(r: nat, align: nat, m: nat)
    requires align == 8 * m && m > 0 && r % align == 0
    ensures r % 8 == 0
  {
    var q := r / align;
    assert r == q * align + r % align;
    assert q * (8 * m) == 8 * (q * m);
  }

  /** A block with a chunk of its own does not concern the last chunk. */
  lemma SnapAside(chunks: seq<Chunk>, chunks': seq<Chunk>, small: seq<nat>, live: set<Block>, now: Snapshot, b: Block)
    requires SnapOk(chunks, small, live, now) && b.place == -1 && |chunks| <= |chunks'| && forall c :: c in live ==> c.time < now.time
    requires forall i :: 0 <= i < |chunks| ==> chunks'[i].start == chunks[i].start && chunks'[i].end == chunks[i].end
    requires b.time == now.time
    ensures SnapOk(chunks', small, live + {b}, now.(time := now.time + 1))
  {
    var s := now.(time := now.time + 1);
    forall c | c in live + {b} && c.time < s.time ensures OlderOk(s, c) {
      if c in live { assert OlderOk(now, c); }
    }
  }

  /** No other live block has space at the address of this one. */
  ghost predicate Alone(live: set<Block>, b: Block) {
    forall c :: c in live && c != b && c.addr == b.addr ==> c.size == 0
  }

  lemma Freed(chunks: seq<Chunk>, chunks': seq<Chunk>, big: seq<nat>, small: seq<nat>, free: seq<nat>, live: set<Block>, clock: nat,
      now: Snapshot, b: Block, top: bool, limit: nat, marks: seq<Snapshot>)
    requires HeapOk(chunks, limit) && ListsOk(chunks, big, small, free) && BlocksOk(chunks, big, small, live, clock)
    requires Timeline(chunks, small, live, marks + [now]) && b in live && (top ==> Alone(live, b)) && now.time == clock
    requires top == (now.lastAllocation == Some(b.addr)) && now.place == |small| - 1 >= 0 && now.chunk == small[|small| - 1] < |chunks|
    requires now.current == chunks[now.chunk].current && now.chunk !in free
    requires chunks' == if top then chunks[now.chunk := chunks[now.chunk].(current := b.addr)] else chunks
    ensures HeapOk(chunks', limit) && ListsOk(chunks', big, small, free) && BlocksOk(chunks', big, small, live - {b}, clock)
    ensures Timeline(chunks', small, live - {b}, marks + [now.(current := chunks'[now.chunk].current)])
  {
    hide HeapOk, ListsOk, BlocksOk, Timeline, Alone;
    NowOk(chunks, small, live, marks, now);
    LastOnce(chunks, big, small, free);
    BlocksFreed(chunks, big, small, live, clock, now, b, top);
    if top {
      Inside(chunks, limit, now.chunk);
      HeapMoved(chunks, limit, now.chunk, chunks[now.chunk].(current := b.addr));
      ListsMoved(chunks, big, small, free, now.chunk, b.addr);
    }
    SnapFreed(chunks, chunks', small, live, now, b);
    MarksKept(chunks, chunks', small, small, live, live - {b}, marks, now, now.(current := chunks'[now.chunk].current));
  }

  /** The space of another live block is given back. */
  lemma NotFreed(chunks: seq<Chunk>, chunks': seq<Chunk>, big: seq<nat>, small: seq<nat>, live: set<Block>, clock: nat, now: Snapshot,
      b: Block, limit: nat)
    requires HeapOk(chunks, limit) && BlocksOk(chunks, big, small, live, clock) && SnapOk(chunks, small, live, now)
    requires b in live && !Alone(live, b) && now.lastAllocation == Some(b.addr) && now.chunk < |chunks|
    requires chunks' == chunks[now.chunk := chunks[now.chunk].(current := b.addr)]
    ensures !BlocksOk(chunks', big, small, live - {b}, clock)
  {
    var c :| c in live && c != b && c.addr == b.addr && c.size != 0;
    assert BlockOk(chunks, big, small, c, clock);
    Inside(chunks, limit, c.chunk);
    if c.chunk != now.chunk { ChunksApart(chunks, limit, c.chunk, now.chunk); }
    assert c in live - {b} && !BlockOk(chunks', big, small, c, clock);
  }

  lemma SnapFreed(chunks: seq<Chunk>, chunks': seq<Chunk>, small: seq<nat>, live: set<Block>, now: Snapshot, b: Block)
    requires SnapOk(chunks, small, live, now) && b in live && (now.lastAllocation == Some(b.addr) ==> Alone(live, b))
    requires chunks' == if now.lastAllocation == Some(b.addr) then chunks[now.chunk := chunks[now.chunk].(current := b.addr)] else chunks
    requires now.chunk < |chunks| && now.current == chunks[now.chunk].current
    ensures SnapOk(chunks', small, live - {b}, now.(current := chunks'[now.chunk].current))
  {
    var s := now.(current := chunks'[now.chunk].current);
    forall c | c in live - {b} && c.time < s.time ensures OlderOk(s, c) {
      assert OlderOk(now, c);
    }
  }

  /** Every live block but the freed one is still below the position of its chunk. */
  lemma BlocksFreed(chunks: seq<Chunk>, big: seq<nat>, small: seq<nat>, live: set<Block>, clock: nat, now: Snapshot, b: Block, top: bool)
    requires BlocksOk(chunks, big, small, live, clock) && SnapOk(chunks, small, live, now) && now.time == clock
    requires b in live && (top ==> Alone(live, b) && now.lastAllocation == Some(b.addr))
    requires now.chunk < |chunks| && now.place == |small| - 1 && forall k :: 0 <= k < |small| - 1 ==> small[k] != now.chunk
    requires now.chunk !in big
    ensures BlocksOk(if top then chunks[now.chunk := chunks[now.chunk].(current := b.addr)] else chunks, big, small, live - {b}, clock)
  {
    var chunks' := if top then chunks[now.chunk := chunks[now.chunk].(current := b.addr)] else chunks;
    forall c | c in live - {b} ensures BlockOk(chunks', big, small, c, clock) {
      assert BlockOk(chunks, big, small, c, clock) && OlderOk(now, c);
    }
  }

  lemma LastIn(chunks: seq<Chunk>, big: seq<nat>, small: seq<nat>, free: seq<nat>)
    requires ListsOk(chunks, big, small, free)
    ensures small != [] && small[|small| - 1] < |chunks| && small[|small| - 1] !in free
  {
    LastUsed(chunks, big, small, free);
    assert small[|small| - 1] in small;
    UsedNotFree(|chunks|, big, small, free, small[|small| - 1]);
  }

  lemma NowOk(chunks: seq<Chunk>, small: seq<nat>, live: set<Block>, marks: seq<Snapshot>, now: Snapshot)
    requires Timeline(chunks, small, live, marks + [now])
    ensures SnapOk(chunks, small, live, now)
  {
    assert SnapOk(chunks, small, live, (marks + [now])[|marks|]);
  }

  lemma Younger(chunks: seq<Chunk>, big: seq<nat>, small: seq<nat>, live: set<Block>, clock: nat)
    requires BlocksOk(chunks, big, small, live, clock)
    ensures forall c :: c in live ==> c.time < clock
  {
    forall c | c in live ensures c.time < clock { assert BlockOk(chunks, big, small, c, clock); }
  }

  // ----- a free list of two chunks -----

  ghost predicate EndsBelow(chunks: seq<Chunk>, limit: nat) { forall i :: 0 <= i < |chunks| ==> chunks[i].end <= limit }

  lemma FreshAbove(chunks: seq<Chunk>, limit: nat, base: nat)
    requires EndsBelow(chunks, base) && base > 0 && base % 8 == 0 && base + CHUNK_SIZE <= limit
    ensures Fresh(chunks, limit, base, MAX_AVAIL)
  {}

  const LARGE := MAX_AVAIL - 8

  /** A request that leaves no room for another one of its size. */
  method AllocLarge(a: Allocator, base: nat)
    requires a.Valid() && EndsBelow(a.chunks, base) && base > 0 && base % 8 == 0 && base + CHUNK_SIZE <= |a.memory|
    modifies a
    ensures a.Valid() && EndsBelow(a.chunks, base + CHUNK_SIZE) && a.memory == old(a.memory) && a.marks == old(a.marks) && a.big == old(a.big)
    ensures a.chunks[a.last].current >= a.chunks[a.last].start + LARGE
    ensures |a.small| >= |old(a.small)|
    ensures old(a.chunks[a.last].current >= a.chunks[a.last].start + LARGE) ==> |a.small| == |old(a.small)| + 1
  {
    hide HeapOk, ListsOk, BlocksOk, Timeline, PowerOf2;
    FreshAbove(a.chunks, |a.memory|, base);
    LastUsed(a.chunks, a.big, a.small, a.free);
    One();
    ghost var b;
    var result;
    result, b := a.StackAlloc(LARGE, 1, base);
  }

  lemma One()
    ensures PowerOf2(1)
  {
    assert Pow2(0) == 1;
  }

  lemma Counted(chunks: seq<Chunk>, big: seq<nat>, small: seq<nat>, free: seq<nat>)
    requires ListsOk(chunks, big, small, free)
    ensures |chunks| == |big| + |small| + |free|
    ensures free != [] ==> free[0] < |chunks| && chunks[free[0]].link == At(free, 1)
  {
    if free != [] { assert FreeLink(chunks, free, 0); }
  }

  /** A mark, requests that need chunks of their own, and a reset: afterwards the
      free list goes on, and a request for exactly MAX_AVAIL cannot be served
      (see ExactRequest). */
  method TwoFree(memory: seq<u8>) returns (a: Allocator)
    requires |memory| >= 6 * CHUNK_SIZE
    ensures fresh(a) && a.Valid() && |a.free| >= 2 && !a.Servable(MAX_AVAIL)
  {
    hide HeapOk, ListsOk, BlocksOk, Timeline;
    FreshAbove([], |memory|, 8);
    a := new Allocator(memory, 8);
    FreshAbove(a.chunks, |memory|, 8 + CHUNK_SIZE);
    ghost var snapshot;
    var mark;
    mark, snapshot := a.StackMark(8 + CHUNK_SIZE);
    AllocLarge(a, 8 + 2 * CHUNK_SIZE);
    AllocLarge(a, 8 + 3 * CHUNK_SIZE);
    AllocLarge(a, 8 + 4 * CHUNK_SIZE);
    Counted(a.chunks, a.big, a.small, a.free);
    a.StackResetToMark(mark, snapshot);
    Counted(a.chunks, a.big, a.small, a.free);
  }
}
