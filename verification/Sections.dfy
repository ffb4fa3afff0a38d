/** The sections of a binary module: the loop that reads them one after another
    (src/binary-reader.c:1986-2081), and what it says of the bytes. */
module Sections {
  import opened Wasm
  import opened Assembly
  import opened Leb128
  import opened BinaryWriter

  const MAGIC: seq<u8> := [0x00, 0x61, 0x73, 0x6d]
  const VERSION: seq<u8> := [0x0d, 0x00, 0x00, 0x00]

  const CUSTOM := 0
  const NUM_SECTIONS := 12

  /** A section of the file: where its code stands, where its contents start and
      where they end. */
  datatype Section = Section(start: nat, code: u32, body: nat, end: nat)

  /** The reader of the contents of one section, which depends on the sections
      before it: where it stops, or None if it reports an error. */
  type Contents = (seq<Section>, Section) -> Option<nat>

  // ----- what a file of sections is -----

  predicate HeaderAt(s: seq<u8>, sec: Section) {
    sec.start <= |s| &&
    var code := ReadU32(s, sec.start, |s|);
    code.Got? && code.value == sec.code &&
    var size := ReadU32(s, sec.start + code.length, |s|);
    size.Got? && sec.body == sec.start + code.length + size.length && sec.end == sec.body + size.value <= |s|
  }

  /** The sections lie back to back from one offset to another. */
  predicate Tiled(s: seq<u8>, from: nat, secs: seq<Section>, to: nat) {
    && (forall k :: 0 <= k < |secs| ==> HeaderAt(s, secs[k]) && secs[k].start == StartOf(from, secs, k))
    && to == StartOf(from, secs, |secs|)
  }

  function StartOf(from: nat, secs: seq<Section>, k: nat): nat
    requires k <= |secs|
  {
    if k == 0 then from else secs[k - 1].end
  }

  /** Codes are known; those other than the custom one strictly increase. */
  predicate Ordered(secs: seq<Section>) {
    && (forall k :: 0 <= k < |secs| ==> secs[k].code < NUM_SECTIONS)
    && (forall j, k :: 0 <= j < k < |secs| && secs[j].code != CUSTOM && secs[k].code != CUSTOM ==> secs[j].code < secs[k].code)
  }

  /** Every section is read to its end, and no further. */
  predicate Finished(contents: Contents, secs: seq<Section>) {
    forall k :: 0 <= k < |secs| ==> contents(secs[..k], secs[k]) == Some(secs[k].end)
  }

  predicate Readable(s: seq<u8>, from: nat, contents: Contents, secs: seq<Section>, to: nat) {
    Tiled(s, from, secs, to) && Ordered(secs) && Finished(contents, secs)
  }

  // ----- one section -----

  /** last_known_section_code; NUM_SECTIONS before the first. */
  function LastKnown(secs: seq<Section>): (code: u32)
    ensures code != CUSTOM
  {
    var n := |secs|;
    if n == 0 then NUM_SECTIONS
    else if secs[n - 1].code != CUSTOM then secs[n - 1].code
    else LastKnown(secs[..n - 1])
  }

  lemma {:induction false} LastKnownIs(secs: seq<Section>)
    requires Ordered(secs)
    ensures forall k :: 0 <= k < |secs| && secs[k].code != CUSTOM ==> secs[k].code <= LastKnown(secs) < NUM_SECTIONS
    ensures LastKnown(secs) != NUM_SECTIONS ==> exists k :: 0 <= k < |secs| && secs[k].code == LastKnown(secs)
  {
    var n := |secs|;
    if n > 0 && secs[n - 1].code == CUSTOM {
      var rest := secs[..n - 1];
      LastKnownIs(rest);
      if LastKnown(rest) != NUM_SECTIONS {
        var k :| 0 <= k < |rest| && rest[k].code == LastKnown(rest);
        assert secs[k].code == LastKnown(secs);
      }
      forall k | 0 <= k < n && secs[k].code != CUSTOM ensures secs[k].code <= LastKnown(secs) < NUM_SECTIONS { assert secs[k] == rest[k]; }
    }
  }

  predicate InOrder(secs: seq<Section>, code: u32) {
    code < NUM_SECTIONS && (LastKnown(secs) != NUM_SECTIONS && code != CUSTOM ==> code > LastKnown(secs))
  }

  lemma OrderedSnoc(secs: seq<Section>, sec: Section)
    requires Ordered(secs)
    ensures Ordered(secs + [sec]) <==> InOrder(secs, sec.code)
  {
    LastKnownIs(secs);
    var all := secs + [sec];
    if Ordered(all) {
      assert all[|secs|] == sec;
      if LastKnown(secs) != NUM_SECTIONS {
        var k :| 0 <= k < |secs| && secs[k].code == LastKnown(secs);
        assert all[k].code == LastKnown(secs);
      }
    }
    if InOrder(secs, sec.code) {
      forall j, k | 0 <= j < k < |all| && all[j].code != CUSTOM && all[k].code != CUSTOM ensures all[j].code < all[k].code {
        assert all[j] == secs[j];
      }
    }
  }

  lemma FinishedSnoc(contents: Contents, secs: seq<Section>, sec: Section)
    requires Finished(contents, secs)
    ensures Finished(contents, secs + [sec]) <==> contents(secs, sec) == Some(sec.end)
  {
    var all := secs + [sec];
    assert all[..|secs|] == secs && all[|secs|] == sec;
    forall k | 0 <= k < |secs| ensures contents(all[..k], all[k]) == Some(all[k].end) { assert all[..k] == secs[..k]; }
  }

  lemma TiledSnoc(s: seq<u8>, from: nat, secs: seq<Section>, at: nat, sec: Section)
    requires Tiled(s, from, secs, at) && HeaderAt(s, sec) && sec.start == at
    ensures Tiled(s, from, secs + [sec], sec.end)
  {
    hide HeaderAt;
    var all := secs + [sec];
    forall k | 0 <= k < |all| ensures HeaderAt(s, all[k]) && all[k].start == StartOf(from, all, k) {
      if k < |secs| { assert all[k] == secs[k] && StartOf(from, all, k) == StartOf(from, secs, k); }
    }
  }

  lemma TiledPrefix(s: seq<u8>, from: nat, secs: seq<Section>, to: nat, k: nat)
    requires Tiled(s, from, secs, to) && k <= |secs|
    ensures Tiled(s, from, secs[..k], StartOf(from, secs, k))
  {
    hide HeaderAt;
    var part := secs[..k];
    forall i | 0 <= i < k ensures HeaderAt(s, part[i]) && part[i].start == StartOf(from, part, i) {
      assert part[i] == secs[i] && StartOf(from, part, i) == StartOf(from, secs, i);
    }
  }

  lemma NextInOrder(secs: seq<Section>, k: nat)
    requires Ordered(secs) && k < |secs|
    ensures InOrder(secs[..k], secs[k].code)
  {
    hide Ordered, InOrder;
    OrderedPrefix(secs, k + 1);
    OrderedPrefix(secs, k);
    assert secs[..k + 1] == secs[..k] + [secs[k]];
    OrderedSnoc(secs[..k], secs[k]);
  }

  lemma OrderedPrefix(secs: seq<Section>, k: nat)
    requires Ordered(secs) && k <= |secs|
    ensures Ordered(secs[..k])
  {}

  lemma OneHeader(s: seq<u8>, a: Section, b: Section)
    requires HeaderAt(s, a) && HeaderAt(s, b) && a.start == b.start
    ensures a == b
  {}

  /** A file has one division into sections: reading goes on from what has been
      read so far. */
  lemma {:induction false} SamePrefix(s: seq<u8>, from: nat, done: seq<Section>, at: nat, secs: seq<Section>, to: nat)
    requires Tiled(s, from, done, at) && Tiled(s, from, secs, to) && |s| == to
    ensures done <= secs && StartOf(from, secs, |done|) == at
  {
    hide HeaderAt, Tiled;
    if done == [] {
      EmptyTiling(s, from, at);
    } else {
      var n := |done| - 1;
      TiledPrefix(s, from, done, at, n);
      TileAt(s, from, done, at, n);
      SamePrefix(s, from, done[..n], StartOf(from, done, n), secs, to);
      HeaderShorter(s, done[n]);
      TiledEnd(s, from, secs, to);
      TileAt(s, from, secs, to, n);
      OneHeader(s, done[n], secs[n]);
      assert done == done[..n] + [done[n]];
      TiledEnd(s, from, done, at);
    }
  }

  lemma EmptyTiling(s: seq<u8>, from: nat, to: nat)
    requires Tiled(s, from, [], to)
    ensures from == to
  {}

  lemma TileAt(s: seq<u8>, from: nat, secs: seq<Section>, to: nat, k: nat)
    requires Tiled(s, from, secs, to) && k < |secs|
    ensures HeaderAt(s, secs[k]) && secs[k].start == StartOf(from, secs, k)
  {}

  lemma TiledEnd(s: seq<u8>, from: nat, secs: seq<Section>, to: nat)
    requires Tiled(s, from, secs, to)
    ensures to == StartOf(from, secs, |secs|)
  {}

  lemma OnlyHeader(s: seq<u8>, sec: Section)
    requires HeaderAt(s, sec)
    ensures forall other :: HeaderAt(s, other) && other.start == sec.start ==> other == sec
  {
    hide HeaderAt;
    forall other | HeaderAt(s, other) && other.start == sec.start ensures other == sec { OneHeader(s, other, sec); }
  }

  lemma HeaderShorter(s: seq<u8>, sec: Section)
    requires HeaderAt(s, sec)
    ensures sec.start < sec.body <= sec.end <= |s|
  {}

  class Reader {
    const data: seq<u8>
    const contents: Contents
    var offset: nat
    var readEnd: nat
    var lastKnownSectionCode: u32
    var sections: seq<Section>  // that have been read

    constructor (data: seq<u8>, contents: Contents)
      ensures this.data == data && this.contents == contents
      ensures offset == 0 && readEnd == |data| && lastKnownSectionCode == NUM_SECTIONS && sections == []
    {
      this.data, this.contents, offset, readEnd, lastKnownSectionCode, sections := data, contents, 0, |data|, NUM_SECTIONS, [];
    }

    method InU32Leb128() returns (r: Option<u32>)
      requires offset <= readEnd <= |data|
      modifies this`offset
      ensures match ReadU32(data, old(offset), readEnd)
        case Got(v, n) => r == Some(v) && offset == old(offset) + n
        case Failed => r == None && offset == old(offset)
    {
      match ReadU32(data, offset, readEnd)
      case Got(v, n) => offset := offset + n; r := Some(v);
      case Failed => r := None;
    }

    /** The code and the size of the next section. */
    method ReadHeader() returns (sec: Option<Section>)
      requires offset < |data|
      modifies this`offset, this`readEnd
      ensures sec.Some? ==> HeaderAt(data, sec.value) && sec.value.start == old(offset)
      ensures sec.Some? ==> offset == sec.value.body && readEnd == sec.value.end
      ensures sec.None? ==> forall other :: HeaderAt(data, other) ==> other.start != old(offset)
    {
      hide ReadU32;
      var at := offset;
      readEnd := |data|;
      var code := InU32Leb128();
      if code.None? { return None; }
      var size := InU32Leb128();
      if size.None? { return None; }
      readEnd := offset + size.value;
      if readEnd > |data| { return None; }
      return Some(Section(at, code.value, offset, readEnd));
    }

    /** One turn of the loop. */
    method ReadSection() returns (ok: bool)
      requires offset < |data| && Readable(data, 8, contents, sections, offset) && lastKnownSectionCode == LastKnown(sections)
      modifies this
      ensures ok ==> old(offset) < offset <= |data| && |sections| == |old(sections)| + 1
      ensures ok ==> Readable(data, 8, contents, sections, offset) && lastKnownSectionCode == LastKnown(sections)
      ensures !ok ==> forall sec :: HeaderAt(data, sec) && sec.start == old(offset) ==>
        !InOrder(old(sections), sec.code) || contents(old(sections), sec) != Some(sec.end)
    {
      hide Tiled, Ordered, Finished, LastKnown, HeaderAt;
      ghost var before, at := sections, offset;
      var header := ReadHeader();
      if header.None? { return false; }
      var sec := header.value;
      OnlyHeader(data, sec);
      HeaderShorter(data, sec);
      if lastKnownSectionCode != NUM_SECTIONS && sec.code != CUSTOM && sec.code <= lastKnownSectionCode { return false; }
      if sec.code >= NUM_SECTIONS { return false; }
      var stop := contents(sections, sec);
      if stop.None? { return false; }
      offset := stop.value;
      if offset != readEnd { return false; }
      OrderedSnoc(sections, sec);
      FinishedSnoc(contents, sections, sec);
      TiledSnoc(data, 8, sections, at, sec);
      LastKnownSnoc(sections, sec);
      sections := sections + [sec];
      if sec.code != CUSTOM { lastKnownSectionCode := sec.code; }
      return true;
    }

    /** read_sections: accepted exactly if the bytes after the header can be
        divided into sections in order, each read to its end; and then these are
        the sections. */
    method ReadSections() returns (ok: bool)
      requires offset == 8 <= |data| && sections == [] && lastKnownSectionCode == NUM_SECTIONS
      modifies this
      ensures ok ==> Readable(data, 8, contents, sections, |data|)
      ensures forall secs :: Readable(data, 8, contents, secs, |data|) ==> ok && secs == sections
    {
      hide Readable, InOrder, HeaderAt;
      NoSections(data, contents);
      ok := true;
      while ok && offset < |data|
        invariant ok ==> offset <= |data|
        invariant ok ==> Readable(data, 8, contents, sections, offset) && lastKnownSectionCode == LastKnown(sections)
        invariant !ok ==> forall secs :: !Readable(data, 8, contents, secs, |data|)
        decreases ok, |data| - offset
      {
        ghost var before, at := sections, offset;
        ok := ReadSection();
        if !ok {
          forall secs ensures !Readable(data, 8, contents, secs, |data|) {
            if Readable(data, 8, contents, secs, |data|) { NextOf(data, contents, before, at, secs); }
          }
        }
      }
      if ok {
        forall secs | Readable(data, 8, contents, secs, |data|) ensures secs == sections { OneDivision(data, contents, sections, secs); }
      }
    }

    /** wasm_read_binary */
    method ReadBinary() returns (ok: bool)
      requires offset == 0 && sections == [] && lastKnownSectionCode == NUM_SECTIONS
      modifies this
      ensures ok ==> MAGIC + VERSION <= data && Readable(data, 8, contents, sections, |data|)
      ensures forall secs :: MAGIC + VERSION <= data && Readable(data, 8, contents, secs, |data|) ==> ok && secs == sections
    {
      hide Readable;
      if |data| < 4 || data[..4] != MAGIC { return false; }
      if |data| < 8 || data[4..8] != VERSION { return false; }
      assert data[..8] == MAGIC + VERSION;
      offset := 8;
      ok := ReadSections();
    }
  }

  lemma LastKnownSnoc(secs: seq<Section>, sec: Section)
    ensures LastKnown(secs + [sec]) == if sec.code != CUSTOM then sec.code else LastKnown(secs)
  {
    assert (secs + [sec])[..|secs|] == secs;
  }

  lemma NoSections(s: seq<u8>, contents: Contents)
    ensures Readable(s, 8, contents, [], 8) && LastKnown([]) == NUM_SECTIONS
  {}

  lemma NextOf(s: seq<u8>, contents: Contents, done: seq<Section>, at: nat, secs: seq<Section>)
    requires Readable(s, 8, contents, done, at) && at < |s| && Readable(s, 8, contents, secs, |s|)
    ensures exists sec :: HeaderAt(s, sec) && sec.start == at && InOrder(done, sec.code) && contents(done, sec) == Some(sec.end)
  {
    hide HeaderAt, InOrder, Ordered, Tiled;
    var k := |done|;
    SamePrefix(s, 8, done, at, secs, |s|);
    TiledEnd(s, 8, secs, |s|);
    TileAt(s, 8, secs, |s|, k);
    NextInOrder(secs, k);
    assert secs[..k] == done;
    assert contents(secs[..k], secs[k]) == Some(secs[k].end);
  }

  lemma OneDivision(s: seq<u8>, contents: Contents, a: seq<Section>, b: seq<Section>)
    requires Readable(s, 8, contents, a, |s|) && Readable(s, 8, contents, b, |s|)
    ensures a == b
  {
    OneTiling(s, a, b);
  }

  // ----- what the writer makes of sections -----

  datatype Part = Part(code: u8, payload: seq<u8>)

  predicate PartOk(p: Part) { p.code < 0x80 && |p.payload| < 0x1_0000_0000 }

  /** begin_known_section, the contents, end_section; one after the other. */
  function PartsBytes(canonicalize: bool, parts: seq<Part>): seq<u8> {
    var n := |parts|;
    if n == 0 then [] else PartsBytes(canonicalize, parts[..n - 1]) + ([parts[n - 1].code] + Sized(canonicalize, parts[n - 1].payload))
  }

  function PartsSections(canonicalize: bool, from: nat, parts: seq<Part>): (secs: seq<Section>)
    ensures |secs| == |parts|
  {
    var n := |parts|;
    if n == 0 then []
    else
      var at := from + |PartsBytes(canonicalize, parts[..n - 1])|;
      var body := at + 1 + |SizeBytes(canonicalize, |parts[n - 1].payload|)|;
      PartsSections(canonicalize, from, parts[..n - 1]) + [Section(at, parts[n - 1].code, body, body + |parts[n - 1].payload|)]
  }

  lemma OneWritten(s: seq<u8>, at: nat, canonicalize: bool, p: Part)
    requires BytesAt(s, at, [p.code] + Sized(canonicalize, p.payload)) && PartOk(p)
    ensures var body := at + 1 + |SizeBytes(canonicalize, |p.payload|)|;
      && HeaderAt(s, Section(at, p.code, body, body + |p.payload|))
      && s[body..body + |p.payload|] == p.payload
  {
    hide ReadU32, SizeBytes, BytesAt;
    var size := SizeBytes(canonicalize, |p.payload|);
    BothAt(s, at, [p.code], size + p.payload);
    BothAt(s, at + 1, size, p.payload);
    CodeRead(s, at, p.code);
    SizeRead(s, at + 1, canonicalize, |p.payload|);
    AtIs(s, at + 1 + |size|, p.payload);
  }

  lemma AtIs(s: seq<u8>, at: nat, bytes: seq<u8>)
    requires BytesAt(s, at, bytes)
    ensures at + |bytes| <= |s| && s[at..at + |bytes|] == bytes
  {}

  lemma CodeRead(s: seq<u8>, at: nat, code: u8)
    requires BytesAt(s, at, [code]) && code < 0x80
    ensures ReadU32(s, at, |s|) == Got(code, 1)
  {
    hide ReadU32;
    U32RoundTrip(s, at, |s|, code);
  }

  lemma SizeRead(s: seq<u8>, at: nat, canonicalize: bool, n: u32)
    requires BytesAt(s, at, SizeBytes(canonicalize, n))
    ensures ReadU32(s, at, |s|) == Got(n, |SizeBytes(canonicalize, n)|)
  {
    hide ReadU32;
    if canonicalize { U32RoundTrip(s, at, |s|, n); } else { FixedRoundTrip(s, at, |s|, n); }
  }

  /** The reader divides what the writer wrote into the sections the writer
      wrote, with either size mode. */
  lemma {:induction false} WrittenTiled(s: seq<u8>, from: nat, canonicalize: bool, parts: seq<Part>)
    requires from + |PartsBytes(canonicalize, parts)| <= |s| && BytesAt(s, from, PartsBytes(canonicalize, parts))
    requires forall k :: 0 <= k < |parts| ==> PartOk(parts[k])
    ensures var secs := PartsSections(canonicalize, from, parts);
      && Tiled(s, from, secs, from + |PartsBytes(canonicalize, parts)|)
      && forall k :: 0 <= k < |parts| ==>
        secs[k].code == parts[k].code && secs[k].body <= secs[k].end <= |s| && s[secs[k].body..secs[k].end] == parts[k].payload
  {
    hide SizeBytes, HeaderAt, Tiled, BytesAt, PartsBytes, PartsSections, Sized;
    var n := |parts|;
    if n == 0 {
      NoParts(canonicalize, from);
      NothingTiled(s, from);
    } else {
      var rest, last := parts[..n - 1], parts[n - 1];
      var before, secs := PartsBytes(canonicalize, rest), PartsSections(canonicalize, from, rest);
      PartsSnoc(canonicalize, from, parts);
      SizedLength(canonicalize, last);
      BothAt(s, from, before, [last.code] + Sized(canonicalize, last.payload));
      WrittenTiled(s, from, canonicalize, rest);
      OneWritten(s, from + |before|, canonicalize, last);
      var all := PartsSections(canonicalize, from, parts);
      var sec := all[n - 1];
      HeaderShorter(s, sec);
      TiledSnoc(s, from, secs, from + |before|, sec);
      forall k | 0 <= k < n
        ensures all[k].code == parts[k].code && all[k].body <= all[k].end <= |s| && s[all[k].body..all[k].end] == parts[k].payload
      {
        if k < n - 1 { assert all[k] == secs[k] && parts[k] == rest[k]; }
      }
    }
  }

  lemma NoParts(canonicalize: bool, from: nat)
    ensures PartsBytes(canonicalize, []) == [] && PartsSections(canonicalize, from, []) == []
  {}

  lemma PartsSnoc(canonicalize: bool, from: nat, parts: seq<Part>)
    requires parts != []
    ensures var n := |parts| - 1;
      var at := from + |PartsBytes(canonicalize, parts[..n])|;
      var body := at + 1 + |SizeBytes(canonicalize, |parts[n].payload|)|;
      && PartsBytes(canonicalize, parts) == PartsBytes(canonicalize, parts[..n]) + ([parts[n].code] + Sized(canonicalize, parts[n].payload))
      && PartsSections(canonicalize, from, parts)
         == PartsSections(canonicalize, from, parts[..n]) + [Section(at, parts[n].code, body, body + |parts[n].payload|)]
  {
    hide Sized, SizeBytes;
  }

  lemma NothingTiled(s: seq<u8>, from: nat)
    ensures Tiled(s, from, [], from)
  {}

  lemma SizedLength(canonicalize: bool, p: Part)
    ensures |[p.code] + Sized(canonicalize, p.payload)| == 1 + |SizeBytes(canonicalize, |p.payload|)| + |p.payload|
  {}

  lemma BothAt(s: seq<u8>, from: nat, a: seq<u8>, b: seq<u8>)
    requires BytesAt(s, from, a + b)
    ensures BytesAt(s, from, a) && BytesAt(s, from + |a|, b)
  {
    var all := s[from..from + |a + b|];
    assert s[from..from + |a|] == all[..|a|] && s[from + |a|..from + |a| + |b|] == all[|a|..];
  }

  /** So a written module reads exactly if its sections are in order and their
      contents are read to the end. */
  lemma WrittenReadable(canonicalize: bool, parts: seq<Part>, contents: Contents)
    requires forall k :: 0 <= k < |parts| ==> PartOk(parts[k])
    ensures var s := MAGIC + VERSION + PartsBytes(canonicalize, parts); var written := PartsSections(canonicalize, 8, parts);
      forall secs :: Readable(s, 8, contents, secs, |s|) <==> secs == written && Ordered(written) && Finished(contents, written)
  {
    hide PartsBytes, PartsSections, Ordered, Finished;
    var s := MAGIC + VERSION + PartsBytes(canonicalize, parts);
    var written := PartsSections(canonicalize, 8, parts);
    assert s[8..8 + |PartsBytes(canonicalize, parts)|] == PartsBytes(canonicalize, parts);
    WrittenTiled(s, 8, canonicalize, parts);
    hide Tiled;
    forall secs ensures Readable(s, 8, contents, secs, |s|) <==> secs == written && Ordered(written) && Finished(contents, written) {
      if Readable(s, 8, contents, secs, |s|) { OneTiling(s, secs, written); }
    }
  }

  lemma OneTiling(s: seq<u8>, a: seq<Section>, b: seq<Section>)
    requires Tiled(s, 8, a, |s|) && Tiled(s, 8, b, |s|)
    ensures a == b
  {
    SamePrefix(s, 8, a, |s|, b, |s|);
    SamePrefix(s, 8, b, |s|, a, |s|);
  }
}
