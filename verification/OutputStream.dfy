/** The growing byte buffer the binary writer writes to (src/writer.c:88-139,
    src/stream.c:49-93): writes may overwrite, moves may overlap. */
module OutputStream {
  import opened Wasm

  /** What a write of `src` at `at` makes of the contents. */
  function Spliced(s: seq<u8>, at: nat, src: seq<u8>): (r: seq<u8>)
    requires at <= |s|
    ensures |r| == if at + |src| > |s| then at + |src| else |s|
  {
    s[..at] + src + if at + |src| < |s| then s[at + |src|..] else []
  }

  class Stream {
    var start: array<u8>  // its length is the capacity
    var size: nat
    var offset: nat       // where the next write goes

    ghost predicate Valid()
      reads this
    {
      size <= start.Length && start.Length > 0
    }

    ghost function Contents(): seq<u8>
      requires Valid()
      reads this, start
    {
      start[..size]
    }

    /** The contents are `s`, and writing goes on at their end. */
    ghost predicate Holds(s: seq<u8>)
      reads this, start
    {
      Valid() && Contents() == s && offset == |s|
    }

    constructor (initialCapacity: nat)
      requires initialCapacity > 0
      ensures Holds([]) && fresh(start)
    {
      start := new u8[initialCapacity];
      size, offset := 0, 0;
    }

    /** Double the capacity until it suffices. */
    method EnsureCapacity(capacity: nat)
      requires Valid()
      modifies this`start
      ensures Valid() && start.Length >= capacity && size == old(size) && start[..size] == old(start[..size])
      ensures start == old(start) || fresh(start)
    {
      if capacity > start.Length {
        var newCapacity := start.Length * 2;
        while newCapacity < capacity
          invariant newCapacity > start.Length
          decreases capacity - newCapacity
        {
          newCapacity := newCapacity * 2;
        }
        var grown := new u8[newCapacity];
        forall i | 0 <= i < size { grown[i] := start[i]; }
        assert grown[..size] == start[..size];
        start := grown;
      }
    }

    method WriteDataAt(at: nat, src: seq<u8>)
      requires Valid() && at <= size
      modifies this`start, this`size, start
      ensures Valid() && Contents() == Spliced(old(Contents()), at, src) && (start == old(start) || fresh(start))
    {
      var end := at + |src|;
      ghost var before := Contents();
      EnsureCapacity(end);
      forall i | 0 <= i < |src| { start[at + i] := src[i]; }
      if end > size { size := end; }
      assert Contents() == Spliced(before, at, src);
    }

    /** Move a part of the contents; the two ranges may overlap. */
    method MoveData(dst: nat, src: nat, n: nat)
      requires Valid() && src + n <= size && dst <= size
      modifies this`start, this`size, start
      ensures Valid() && (start == old(start) || fresh(start))
      ensures Contents() == Spliced(old(Contents()), dst, old(Contents())[src..src + n])
    {
      var end := if src + n > dst + n then src + n else dst + n;
      ghost var before := Contents();
      EnsureCapacity(end);
      assert start[..size] == before;
      ghost var all := start[..];
      Memmove(dst, src, n);
      if end > size { size := end; }
      assert before[src..src + n] == all[src..src + n];
      MovedAt(all, before, start[..], dst, src, n);
    }

    /** memmove: every byte is read before any is written. */
    method Memmove(dst: nat, src: nat, n: nat)
      requires src + n <= start.Length && dst + n <= start.Length
      modifies start
      ensures start[..] == Spliced(old(start[..]), dst, old(start[src..src + n]))
    {
      forall i | 0 <= i < n { start[dst + i] := start[src + i]; }
    }

    /** Append, and advance. */
    method WriteData(src: seq<u8>, ghost s: seq<u8>)
      requires Holds(s)
      modifies this, start
      ensures Holds(s + src) && (start == old(start) || fresh(start))
    {
      WriteDataAt(offset, src);
      offset := offset + |src|;
    }
  }

  /** Splicing the whole buffer splices its used part. */
  lemma MovedAt(all: seq<u8>, used: seq<u8>, all': seq<u8>, dst: nat, src: nat, n: nat)
    requires |used| <= |all| && used == all[..|used|] && src + n <= |used| && dst <= |used| && dst + n <= |all|
    requires all' == Spliced(all, dst, used[src..src + n])
    ensures all'[..if dst + n > |used| then dst + n else |used|] == Spliced(used, dst, used[src..src + n])
  {}
}
