// Writing a core dump: headers, then the memory of the process through a bounded buffer, to an output
// that accepts any part of each write (src/core_dumper.rs).
module CoreDump {
  import opened Options
  import opened Alignment
  import opened Bytes
  import opened CoreFormat

  // ---- What was read ---------------------------------------------------------------------------

  // One read of process memory and its outcome.
  datatype ReadEvent = ReadEvent(addr: nat, len: nat, result: Option<seq<byte>>)

  predicate ValidRead(e: ReadEvent) {
    e.result.Some? ==> |e.result.value| == e.len
  }

  // What the dumper stores for a read: zeros if it failed.
  function Stored(e: ReadEvent): (s: seq<byte>)
    requires ValidRead(e)
    ensures |s| == e.len
  {
    if e.result.Some? then e.result.value else Zeros(e.len)
  }

  predicate ValidReads(log: seq<ReadEvent>) {
    forall i :: 0 <= i < |log| ==> ValidRead(log[i])
  }

  function Span(addr: nat, len: nat): (s: seq<nat>)
    ensures |s| == len && forall i :: 0 <= i < len ==> s[i] == addr + i
  {
    seq(len, i => addr + i)
  }

  function Data(log: seq<ReadEvent>): seq<byte>
    requires ValidReads(log)
  {
    if log == [] then [] else Data(log[..|log| - 1]) + Stored(log[|log| - 1])
  }

  // The address each stored byte was read from.
  function Addresses(log: seq<ReadEvent>): seq<nat> {
    if log == [] then []
    else Addresses(log[..|log| - 1]) + Span(log[|log| - 1].addr, log[|log| - 1].len)
  }

  // The addresses of the dumped parts of the ranges, in file order.
  function RangeAddresses(ranges: seq<RangeToDump>): (s: seq<nat>)
    ensures |s| == TotalSize(ranges)
  {
    if ranges == [] then []
    else RangeAddresses(ranges[..|ranges| - 1]) + Span(ranges[|ranges| - 1].start, ranges[|ranges| - 1].fileSize)
  }

  lemma AppendRead(log: seq<ReadEvent>, e: ReadEvent)
    requires ValidReads(log) && ValidRead(e)
    ensures ValidReads(log + [e])
    ensures Data(log + [e]) == Data(log) + Stored(e)
    ensures Addresses(log + [e]) == Addresses(log) + Span(e.addr, e.len)
  {
  }

  lemma {:induction false} SameLength(log: seq<ReadEvent>)
    requires ValidReads(log)
    ensures |Data(log)| == |Addresses(log)|
  {
    if log != [] {
      SameLength(log[..|log| - 1]);
    }
  }

  // A stored byte is byte m of the outcome of read j.
  ghost predicate ComesFrom(log: seq<ReadEvent>, j: nat, m: nat, addr: nat, b: byte)
    requires ValidReads(log)
  {
    j < |log| && m < log[j].len && log[j].addr + m == addr && Stored(log[j])[m] == b
  }

  // Every stored byte comes from a read of its address.
  lemma {:induction false} ByteComesFrom(log: seq<ReadEvent>, i: nat) returns (j: nat, m: nat)
    requires ValidReads(log) && i < |Data(log)| && i < |Addresses(log)|
    ensures ComesFrom(log, j, m, Addresses(log)[i], Data(log)[i])
  {
    var last := |log| - 1;
    SameLength(log[..last]);
    var before := |Data(log[..last])|;
    if i < before {
      j, m := ByteComesFrom(log[..last], i);
    } else {
      j, m := last, i - before;
    }
  }

  // Byte k of range i sits where the layout says.
  lemma {:induction false} AddressAt(ranges: seq<RangeToDump>, i: nat, k: nat)
    requires i < |ranges| && k < ranges[i].fileSize
    ensures TotalSize(ranges[..i]) + k < TotalSize(ranges)
    ensures RangeAddresses(ranges)[TotalSize(ranges[..i]) + k] == ranges[i].start + k
  {
    var last := |ranges| - 1;
    if i < last {
      AddressAt(ranges[..last], i, k);
      assert ranges[..last][..i] == ranges[..i];
    }
  }

  // ---- The image -------------------------------------------------------------------------------

  // The whole output of a successful dump.
  ghost predicate Image(file: seq<byte>, maps: seq<MemMap>, notes: seq<byte>, pageSize: nat, ranges: seq<RangeToDump>,
                        log: seq<ReadEvent>)
    requires pageSize > 0
  {
    && LaidOut(maps, pageSize, DumpOffset(|maps|, |notes|, pageSize), ranges)
    && ValidReads(log)
    && Addresses(log) == RangeAddresses(ranges)
    && file == HeaderBytes(ranges, notes, pageSize) + Data(log)
  }

  // For each program header of a dumped range, the file holds at p_offset + k exactly what reading
  // address p_vaddr + k gave.
  lemma ImageIsExact(file: seq<byte>, maps: seq<MemMap>, notes: seq<byte>, pageSize: nat, ranges: seq<RangeToDump>,
                     log: seq<ReadEvent>, i: nat, k: nat) returns (j: nat, m: nat)
    requires pageSize > 0 && Image(file, maps, notes, pageSize, ranges, log)
    requires i < |ranges| && k < ranges[i].fileSize
    ensures ranges[i].fileOffset + k < |file|
    ensures ComesFrom(log, j, m, ranges[i].start + k, file[ranges[i].fileOffset + k])
  {
    var offset := DumpOffset(|maps|, |notes|, pageSize);
    AddressAt(ranges, i, k);
    SameLength(log);
    assert PlacedAt(maps, pageSize, offset, ranges, i);
    var at := TotalSize(ranges[..i]) + k;
    assert ranges[i].fileOffset + k == offset + at;
    assert file[offset + at] == Data(log)[at];
    j, m := ByteComesFrom(log, at);
  }

  lemma ReadByte(memory: map<nat, byte>, e: ReadEvent, m: nat)
    requires ValidRead(e) && e.result.Some? && ReadFrom(memory, e) && m < e.len
    ensures e.addr + m in memory && Stored(e)[m] == memory[e.addr + m]
  {
    assert Stored(e)[m] == e.result.value[m];
  }

  // All sizes and addresses fit in the 64-bit fields.
  ghost predicate Addressable(file: seq<byte>, maps: seq<MemMap>, pageSize: nat) {
    && Fits(|file|, 8) && Fits(pageSize, 8)
    && forall i :: 0 <= i < |maps| ==> Fits(maps[i].start + maps[i].len + pageSize, 8)
  }

  // Mappings that can be read are dumped, apart from files of more than 20 MiB; names in brackets are not files.
  predicate Wanted(m: MemMap) {
    m.read &&
    match m.path
    case None => true
    case Some(path) =>
      if |path| > 0 && path[0] == '[' then path != "[vvar]" && path != "[vvar_vclock]" && path != "[vsyscall]"
      else m.len <= 20_971_520
  }

  // A segment as a reader sees it, for a mapping: it covers the mapping, whole pages are in the file or nothing is, and
  // the flags say what may be done with the memory (System V ABI, chapter 5, "Program Header").
  predicate Describes(p: Phdr, m: MemMap, pageSize: nat)
    requires pageSize > 0
  {
    && p.kind == 1 && p.vaddr <= m.start && m.start + m.len <= p.vaddr + p.memsz
    && m.start < p.vaddr + pageSize && p.vaddr + p.memsz < m.start + m.len + pageSize
    && p.vaddr % pageSize == 0 && p.memsz % pageSize == 0 && p.offset % pageSize == 0 && p.alignment == pageSize
    && p.filesz == (if Wanted(m) then p.memsz else 0)
    && (m.read <==> p.flags % 8 >= 4) && (m.write <==> p.flags % 4 >= 2) && (m.execute <==> p.flags % 2 == 1)
    && p.flags < 8
  }

  lemma WantedIs(m: MemMap)
    ensures Wanted(m) <==> !Skipped(m)
  {
    if m.path.Some? && |m.path.value| > 0 {
      var path := m.path.value;
      assert "[" <= path <==> path[0] == '[';
    }
  }

  lemma RangeDescribes(maps: seq<MemMap>, pageSize: nat, start: nat, ranges: seq<RangeToDump>, i: nat)
    requires pageSize > 0 && LaidOut(maps, pageSize, start, ranges) && Aligned(start, pageSize) && i < |ranges|
    requires Fits(start + TotalSize(ranges), 8) && Fits(pageSize, 8)
    requires Fits(maps[i].start + maps[i].len + pageSize, 8)
    ensures Describes(LoadPhdr(ranges[i], pageSize), maps[i], pageSize)
    ensures ValidPhdr(LoadPhdr(ranges[i], pageSize))
    ensures ranges[i].fileOffset + ranges[i].fileSize <= start + TotalSize(ranges)
  {
    LayoutIsSound(maps, pageSize, start, ranges, i);
    assert PlacedAt(maps, pageSize, start, ranges, i);
    WantedIs(maps[i]);
    RoundsLittle(maps[i], pageSize);
  }

  lemma RoundsLittle(m: MemMap, pageSize: nat)
    requires pageSize > 0
    ensures var r := RangeOf(m, pageSize, 0);
            m.start < r.start + pageSize && r.start + r.len < m.start + m.len + pageSize
  {
  }

  function AllPhdrs(maps: nat, notesSize: nat, ranges: seq<RangeToDump>, pageSize: nat): (phdrs: seq<Phdr>)
    ensures |phdrs| == |ranges| + 1
  {
    [NotePhdr(maps, notesSize)] + LoadPhdrs(ranges, pageSize)
  }

  lemma RangesValid(file: seq<byte>, maps: seq<MemMap>, notes: seq<byte>, pageSize: nat, ranges: seq<RangeToDump>,
                    log: seq<ReadEvent>)
    requires pageSize > 0 && Image(file, maps, notes, pageSize, ranges, log) && Addressable(file, maps, pageSize)
    ensures |ranges| == |maps|
    ensures forall i :: 0 <= i < |maps| ==> Describes(LoadPhdr(ranges[i], pageSize), maps[i], pageSize)
    ensures forall p <- AllPhdrs(|maps|, |notes|, ranges, pageSize) :: ValidPhdr(p)
  {
    hide Describes, ValidPhdr;
    var start := DumpOffset(|maps|, |notes|, pageSize);
    ImageSize(file, maps, notes, pageSize, ranges, log);
    forall i | 0 <= i < |maps|
      ensures Describes(LoadPhdr(ranges[i], pageSize), maps[i], pageSize) && ValidPhdr(LoadPhdr(ranges[i], pageSize))
    {
      hide LaidOut, LoadPhdr, HeaderBytes;
      RangeDescribes(maps, pageSize, start, ranges, i);
    }
    NoteFits(|maps|, |notes|, |file|);
  }

  lemma NoteFits(maps: nat, notesSize: nat, size: nat)
    requires Fits(size, 8) && NotesOffset(maps) + notesSize <= size
    ensures ValidPhdr(NotePhdr(maps, notesSize))
  {
    Thousands();
  }

  lemma Thousands()
    ensures Pow256(4) == 0x1_0000_0000 && Pow256(8) == 0x1_0000_0000_0000_0000
  {
    assert Pow256(1) == 256 && Pow256(2) == 65536 && Pow256(3) == 0x1_00_0000;
    assert Pow256(5) == 0x100_0000_0000 && Pow256(6) == 0x1_0000_0000_0000 && Pow256(7) == 0x100_0000_0000_0000;
  }

  lemma ImageSize(file: seq<byte>, maps: seq<MemMap>, notes: seq<byte>, pageSize: nat, ranges: seq<RangeToDump>,
                  log: seq<ReadEvent>)
    requires pageSize > 0 && Image(file, maps, notes, pageSize, ranges, log)
    ensures |ranges| == |maps|
    ensures |file| == DumpOffset(|maps|, |notes|, pageSize) + TotalSize(ranges)
    ensures NotesOffset(|maps|) + |notes| <= |file|
  {
    SameLength(log);
  }

  // A reader finds the headers that were written, or fewer if there are too many to be counted.
  lemma HeadersFound(file: seq<byte>, maps: seq<MemMap>, notes: seq<byte>, pageSize: nat, ranges: seq<RangeToDump>,
                     log: seq<ReadEvent>)
    requires pageSize > 0 && Image(file, maps, notes, pageSize, ranges, log) && Addressable(file, maps, pageSize)
    ensures |ranges| == |maps|
    ensures var phdrs := AllPhdrs(|maps|, |notes|, ranges, pageSize);
            ReadPhdrs(file) == Some(phdrs[..|phdrs| % 65536])
    ensures NotesOffset(|maps|) + |notes| <= |file| && file[NotesOffset(|maps|)..NotesOffset(|maps|) + |notes|] == notes
  {
    RangesValid(file, maps, notes, pageSize, ranges, log);
    hide *;
    var phdrs := AllPhdrs(|maps|, |notes|, ranges, pageSize);
    var rest := ImageParts(file, maps, notes, pageSize, ranges, log);
    HeadersRead(phdrs, notes + rest);
    Third(EncodeEhdr(|phdrs|), EncodePhdrs(phdrs), notes, rest);
    assert NotesOffset(|maps|) == |EncodeEhdr(|phdrs|)| + |EncodePhdrs(phdrs)| by { PhdrsSize(maps, phdrs); }
  }

  lemma PhdrsSize(maps: seq<MemMap>, phdrs: seq<Phdr>)
    requires |phdrs| == |maps| + 1
    ensures NotesOffset(|maps|) == |EncodeEhdr(|phdrs|)| + |EncodePhdrs(phdrs)|
  {
  }

  lemma ImageParts(file: seq<byte>, maps: seq<MemMap>, notes: seq<byte>, pageSize: nat, ranges: seq<RangeToDump>,
                   log: seq<ReadEvent>) returns (rest: seq<byte>)
    requires pageSize > 0 && Image(file, maps, notes, pageSize, ranges, log)
    ensures |ranges| == |maps|
    ensures var phdrs := AllPhdrs(|maps|, |notes|, ranges, pageSize);
            file == EncodeEhdr(|phdrs|) + (EncodePhdrs(phdrs) + (notes + rest))
  {
    hide EncodeEhdr, EncodePhdrs, LoadPhdrs, Data, Addresses, RangeAddresses, Aligned, RoundUp;
    var padding := Zeros(DumpOffset(|ranges|, |notes|, pageSize) - NotesOffset(|ranges|) - |notes|);
    rest := padding + Data(log);
    var phdrs := AllPhdrs(|maps|, |notes|, ranges, pageSize);
    Regrouped(EncodeEhdr(|phdrs|), EncodePhdrs(phdrs), notes, padding, Data(log));
  }

  lemma Regrouped(a: seq<byte>, b: seq<byte>, c: seq<byte>, d: seq<byte>, e: seq<byte>)
    ensures (a + (b + (c + d))) + e == a + (b + (c + (d + e)))
  {
  }

  lemma Third(a: seq<byte>, b: seq<byte>, c: seq<byte>, d: seq<byte>)
    ensures var s := a + (b + (c + d));
            |a| + |b| + |c| <= |s| && s[|a| + |b|..|a| + |b| + |c|] == c
  {
  }

  // A reader of the file finds a header for each mapping and one for the notes, if and only if the header can count
  // them; the notes then are those that were added.
  lemma ImageReadsBackIff(file: seq<byte>, maps: seq<MemMap>, added: seq<Note>, pageSize: nat,
                          ranges: seq<RangeToDump>, log: seq<ReadEvent>)
    requires pageSize > 0 && Image(file, maps, EncodeNotes(added), pageSize, ranges, log)
    requires Addressable(file, maps, pageSize) && forall i :: 0 <= i < |added| ==> ValidNote(added[i])
    ensures ReadPhdrs(file).Some?
    ensures var ps := ReadPhdrs(file).value;
            && (|ps| == |maps| + 1 <==> |maps| + 1 < 65536)
            && (|maps| + 1 < 65536 ==>
                  && ps[0].kind == 4 && ps[0].offset + ps[0].filesz <= |file|
                  && DecodeNotes(file[ps[0].offset..ps[0].offset + ps[0].filesz]) == Some(added))
  {
    hide ReadPhdrs, Image, Addressable, DecodeNotes, EncodeNotes, LoadPhdrs;
    HeadersFound(file, maps, EncodeNotes(added), pageSize, ranges, log);
    NotesReadBack(added);
  }

  // What a reader makes of the file: it finds one segment for each mapping, in order, that describes it, and each byte
  // that the segment says is in the file is what reading the process at that address gave.
  lemma SegmentsMapMemory(file: seq<byte>, maps: seq<MemMap>, notes: seq<byte>, pageSize: nat, ranges: seq<RangeToDump>,
                          log: seq<ReadEvent>, ps: seq<Phdr>, i: nat, k: nat) returns (j: nat, m: nat)
    requires pageSize > 0 && Image(file, maps, notes, pageSize, ranges, log)
    requires Addressable(file, maps, pageSize) && |maps| < 65535 && ReadPhdrs(file) == Some(ps)
    requires i < |maps|
    ensures |ps| == |maps| + 1 && Describes(ps[i + 1], maps[i], pageSize)
    ensures k < ps[i + 1].filesz ==>
              ps[i + 1].offset + k < |file| &&
              ComesFrom(log, j, m, ps[i + 1].vaddr + k, file[ps[i + 1].offset + k])
  {
    HeadersFound(file, maps, notes, pageSize, ranges, log);
    RangesValid(file, maps, notes, pageSize, ranges, log);
    hide *;
    assert |ps| == |maps| + 1 && ps[i + 1] == LoadPhdr(ranges[i], pageSize) by {
      AllFound(|maps|, |notes|, ranges, pageSize, ps, i);
    }
    j, m := 0, 0;
    if k < ranges[i].fileSize {
      j, m := ImageIsExact(file, maps, notes, pageSize, ranges, log, i, k);
    }
    LoadPhdrFields(ranges[i], pageSize);
  }

  // A process that stands still while it is dumped, and whose reads all succeed, is copied exactly: a reader finds its
  // memory in the segments.
  lemma StillProcessIsCopied(file: seq<byte>, maps: seq<MemMap>, notes: seq<byte>, pageSize: nat,
                             ranges: seq<RangeToDump>, log: seq<ReadEvent>, memory: map<nat, byte>, ps: seq<Phdr>,
                             i: nat, k: nat)
    requires pageSize > 0 && Image(file, maps, notes, pageSize, ranges, log)
    requires forall j :: 0 <= j < |log| ==> log[j].result.Some? && ReadFrom(memory, log[j])
    requires Addressable(file, maps, pageSize) && |maps| < 65535 && ReadPhdrs(file) == Some(ps)
    requires i < |maps|
    ensures |ps| == |maps| + 1
    ensures k < ps[i + 1].filesz ==>
              && ps[i + 1].offset + k < |file| && ps[i + 1].vaddr + k in memory
              && file[ps[i + 1].offset + k] == memory[ps[i + 1].vaddr + k]
  {
    hide LaidOut, HeaderBytes, Data, Addresses, RangeAddresses, Addressable, Describes, ReadPhdrs, Stored, ReadFrom;
    var j, m := SegmentsMapMemory(file, maps, notes, pageSize, ranges, log, ps, i, k);
    if k < ps[i + 1].filesz {
      ReadByte(memory, log[j], m);
    }
  }

  lemma LoadPhdrFields(r: RangeToDump, pageSize: nat)
    ensures var p := LoadPhdr(r, pageSize);
            p.offset == r.fileOffset && p.filesz == r.fileSize && p.vaddr == r.start
  {
  }

  lemma AllFound(maps: nat, notesSize: nat, ranges: seq<RangeToDump>, pageSize: nat, ps: seq<Phdr>, i: nat)
    requires |ranges| < 65535 && i < |ranges|
    requires var phdrs := AllPhdrs(maps, notesSize, ranges, pageSize); ps == phdrs[..|phdrs| % 65536]
    ensures |ps| == |ranges| + 1 && ps[i + 1] == LoadPhdr(ranges[i], pageSize)
  {
  }

  lemma Sizes(maps: seq<MemMap>, pageSize: nat, start: nat, ranges: seq<RangeToDump>)
    requires pageSize > 0 && LaidOut(maps, pageSize, start, ranges)
    ensures |ranges| == |maps|
  {
  }

  ghost predicate ReadFrom(memory: map<nat, byte>, e: ReadEvent) {
    e.result.Some? ==>
      |e.result.value| == e.len
      && forall k :: 0 <= k < e.len ==> e.addr + k in memory && e.result.value[k] == memory[e.addr + k]
  }

  lemma LayOutNext(maps: seq<MemMap>, i: nat, pageSize: nat, start: nat, ranges: seq<RangeToDump>, range: RangeToDump)
    requires pageSize > 0 && i < |maps| && LaidOut(maps[..i], pageSize, start, ranges)
    requires range == RangeOf(maps[i], pageSize, start + TotalSize(ranges))
    ensures LaidOut(maps[..i + 1], pageSize, start, ranges + [range])
    ensures TotalSize(ranges + [range]) == TotalSize(ranges) + range.fileSize
  {
    var next, longer := ranges + [range], maps[..i + 1];
    assert next[..i] == ranges;
    forall j | 0 <= j <= i ensures PlacedAt(longer, pageSize, start, next, j) {
      hide RangeOf, TotalSize;
      if j < i {
        assert PlacedAt(maps[..i], pageSize, start, ranges, j);
        assert next[..j] == ranges[..j];
      }
    }
  }

  lemma NoteInPieces(before: seq<byte>, note: Note)
    ensures before + Le(|note.name| + 1, 4) + Le(|note.desc|, 4) + Le(note.kind, 4) + note.name
            + NamePadding(note) + note.desc + DescPadding(note) == before + EncodeNote(note)
  {
  }

  lemma NothingLaidOut(maps: seq<MemMap>, pageSize: nat, start: nat)
    requires pageSize > 0
    ensures LaidOut(maps[..0], pageSize, start, [])
  {
  }

  lemma FirstPhdr(phdrs: seq<Phdr>)
    requires phdrs != []
    ensures EncodePhdrs(phdrs[..1]) == EncodePhdr(phdrs[0])
  {
  }

  function Min(a: nat, b: nat): nat { if a < b then a else b }

  // The dump so far: the first i ranges and `pos` bytes of the next one.
  ghost predicate Dumped(ranges: seq<RangeToDump>, i: nat, pos: nat, log: seq<ReadEvent>)
    requires i <= |ranges|
  {
    && ValidReads(log)
    && (if i < |ranges| then Addresses(log) == RangeAddresses(ranges[..i]) + Span(ranges[i].start, pos)
        else Addresses(log) == RangeAddresses(ranges))
  }

  lemma NothingDumped(ranges: seq<RangeToDump>)
    ensures Dumped(ranges, 0, 0, []) && Data([]) == []
  {
  }

  lemma RangeDumped(ranges: seq<RangeToDump>, i: nat, log: seq<ReadEvent>)
    requires i < |ranges| && Dumped(ranges, i, ranges[i].fileSize, log)
    ensures Dumped(ranges, i + 1, 0, log)
    ensures TotalSize(ranges[..i + 1]) == TotalSize(ranges[..i]) + ranges[i].fileSize
  {
    var longer := ranges[..i + 1];
    assert longer[..i] == ranges[..i] && longer[i] == ranges[i];
    assert RangeAddresses(longer) == RangeAddresses(ranges[..i]) + Span(ranges[i].start, ranges[i].fileSize);
    assert i + 1 == |ranges| ==> longer == ranges;
  }

  lemma SpanAppend(before: seq<nat>, addr: nat, m: nat, n: nat)
    ensures (before + Span(addr, m)) + Span(addr + m, n) == before + Span(addr, m + n)
  {
  }

  lemma ChunkDumped(ranges: seq<RangeToDump>, i: nat, pos: nat, log: seq<ReadEvent>, e: ReadEvent)
    requires i < |ranges| && Dumped(ranges, i, pos, log) && ValidRead(e) && e.addr == ranges[i].start + pos
    ensures Dumped(ranges, i, pos + e.len, log + [e])
    ensures Data(log + [e]) == Data(log) + Stored(e)
  {
    hide Addresses, RangeAddresses, Data, Span;
    AppendRead(log, e);
    SpanAppend(RangeAddresses(ranges[..i]), ranges[i].start, pos, e.len);
  }

  // ---- The environment -------------------------------------------------------------------------

  predicate Readable(memory: map<nat, byte>, addr: nat, n: nat) {
    forall a :: addr <= a < addr + n ==> a in memory
  }

  function BytesAt(memory: map<nat, byte>, addr: nat, n: nat): seq<byte>
    requires Readable(memory, addr, n)
  {
    seq(n, k requires 0 <= k < n => memory[addr + k])
  }

  // A process being dumped. In live mode it runs meanwhile, so its memory may change between reads.
  class Process {
    var memory: map<nat, byte>
    ghost var log: seq<ReadEvent>

    constructor ()
      ensures log == []
    {
      memory := *;
      log := [];
    }

    method Read(addr: nat, n: nat) returns (r: Option<seq<byte>>)
      modifies this
      ensures log == old(log) + [ReadEvent(addr, n, r)]
      ensures ReadFrom(memory, ReadEvent(addr, n, r))
    {
      memory := *;
      r := if Readable(memory, addr, n) then Some(BytesAt(memory, addr, n)) else None;
      log := log + [ReadEvent(addr, n, r)];
    }
  }

  // Standard output. A write may take any part of the data, be interrupted, or fail; it makes no
  // progress only finitely often.
  datatype WriteResult = Wrote(n: nat) | Interrupted | WriteFailed

  class Output {
    var written: seq<byte>
    var patience: nat
    ghost var broken: bool

    constructor (p: nat)
      ensures written == [] && !broken
    {
      written := [];
      patience := p;
      broken := false;
    }

    method Write(data: seq<byte>) returns (r: WriteResult)
      requires data != []
      modifies this
      ensures r.Wrote? ==> r.n <= |data| && written == old(written) + data[..r.n]
      ensures !r.Wrote? ==> written == old(written)
      ensures patience <= old(patience)
      ensures r == Wrote(0) || r.Interrupted? ==> patience < old(patience)
      ensures broken <==> old(broken) || r.WriteFailed?
    {
      var n: nat, fails: bool, interrupted: bool := *, *, *;
      if fails {
        broken := true;
        return WriteFailed;
      }
      if interrupted && patience > 0 {
        patience := patience - 1;
        return Interrupted;
      }
      if n == 0 && patience > 0 {
        patience := patience - 1;
        assert data[..0] == [];
        return Wrote(0);
      }
      n := if n == 0 || n > |data| then |data| else n;
      written := written + data[..n];
      return Wrote(n);
    }
  }

  // ---- The dumper ------------------------------------------------------------------------------

  const MAX_IO: nat := 0x800_0000

  // Vec<u8> used as a bounded buffer.
  class Buffer {
    var bytes: seq<byte>
    const capacity: nat

    constructor (capacity: nat)
      ensures bytes == [] && this.capacity == capacity
    {
      bytes := [];
      this.capacity := capacity;
    }
  }

  class CoreDumper {
    const process: Process
    const output: Output
    var notesBuf: seq<byte>
    ghost var notes: seq<Note>
    var bytesWritten: nat
    var bytesRead: nat
    var bytesTotal: nat

    ghost predicate Valid()
      reads this
    {
      notesBuf == EncodeNotes(notes)
    }

    constructor (process: Process, output: Output)
      ensures Valid() && notes == [] && this.process == process && this.output == output
    {
      this.process := process;
      this.output := output;
      notesBuf := [];
      notes := [];
      bytesWritten := 0;
      bytesRead := 0;
      bytesTotal := 0;
    }

    method AddNote(name: seq<byte>, desc: seq<byte>, kind: nat)
      requires Valid()
      modifies this`notesBuf, this`notes
      ensures Valid() && notes == old(notes) + [Note(name, desc, kind)]
    {
      hide Le, EncodeNotes, EncodeNote;
      ghost var note := Note(name, desc, kind);
      notesBuf := notesBuf + Le(|name| + 1, 4);
      notesBuf := notesBuf + Le(|desc|, 4);
      notesBuf := notesBuf + Le(kind, 4);
      var namePadding := 4 - |name| % 4;
      var descPadding := (-|desc|) % 4;
      notesBuf := notesBuf + name;
      notesBuf := notesBuf + Zeros(4)[..namePadding];
      notesBuf := notesBuf + desc;
      notesBuf := notesBuf + Zeros(3)[..descPadding];
      assert Zeros(4)[..namePadding] == NamePadding(note) && Zeros(3)[..descPadding] == DescPadding(note);
      assert notesBuf == old(notesBuf) + EncodeNote(note) by { NoteInPieces(old(notesBuf), note); }
      EncodeNotesAppend(notes, note);
      notes := notes + [note];
    }

    // flush_buf: everything is written, in order, exactly once, or the error is reported.
    method FlushBuf(buf: Buffer) returns (ok: bool)
      modifies this`bytesWritten, output, buf
      ensures ok ==> buf.bytes == [] && output.written == old(output.written) + old(buf.bytes)
      ensures ok ==> bytesWritten == old(bytesWritten) + |old(buf.bytes)|
      ensures !ok ==> exists k :: 0 <= k <= |old(buf.bytes)|
                        && output.written == old(output.written) + old(buf.bytes)[..k]
      ensures if ok then output.broken == old(output.broken) else output.broken
    {
      var pos := 0;
      assert output.written == old(output.written) + buf.bytes[..0];
      while pos < |buf.bytes|
        invariant 0 <= pos <= |buf.bytes| && buf.bytes == old(buf.bytes)
        invariant output.written == old(output.written) + buf.bytes[..pos]
        invariant bytesWritten == old(bytesWritten) + pos && output.broken == old(output.broken)
        decreases |buf.bytes| - pos, output.patience
      {
        var lim := if |buf.bytes| - pos < MAX_IO then |buf.bytes| - pos else MAX_IO;
        var r := output.Write(buf.bytes[pos..pos + lim]);
        match r {
          case Wrote(n) =>
            assert buf.bytes[..pos] + buf.bytes[pos..pos + lim][..n] == buf.bytes[..pos + n];
            pos := pos + n;
            bytesWritten := bytesWritten + n;
          case Interrupted =>
          case WriteFailed =>
            return false;
        }
      }
      assert buf.bytes[..pos] == buf.bytes;
      buf.bytes := [];
      ok := true;
    }

    // write_headers: the loop that lays out the ranges.
    static method LayOutRanges(maps: seq<MemMap>, pageSize: nat, memDumpOffset: nat) returns (ranges: seq<RangeToDump>)
      requires pageSize > 0
      ensures LaidOut(maps, pageSize, memDumpOffset, ranges) && |ranges| == |maps|
    {
      hide RangeOf, LaidOut;
      ranges := [];
      var fileOffset := memDumpOffset;
      assert LaidOut(maps[..0], pageSize, memDumpOffset, ranges) by { NothingLaidOut(maps, pageSize, memDumpOffset); }
      for i := 0 to |maps|
        invariant LaidOut(maps[..i], pageSize, memDumpOffset, ranges)
        invariant fileOffset == memDumpOffset + TotalSize(ranges)
      {
        var range := RangeOf(maps[i], pageSize, fileOffset);
        LayOutNext(maps, i, pageSize, memDumpOffset, ranges, range);
        ranges := ranges + [range];
        fileOffset := fileOffset + range.fileSize;
      }
      assert maps[..|maps|] == maps;
      Sizes(maps, pageSize, memDumpOffset, ranges);
    }

    // write_headers: the headers before the notes.
    static method FormatHeaders(ranges: seq<RangeToDump>, notesSize: nat, pageSize: nat) returns (buf: seq<byte>)
      ensures buf == EncodeEhdr(|ranges| + 1)
                     + EncodePhdrs([NotePhdr(|ranges|, notesSize)] + LoadPhdrs(ranges, pageSize))
    {
      hide EncodeEhdr, EncodePhdr, EncodePhdrs;
      ghost var phdrs := [NotePhdr(|ranges|, notesSize)] + LoadPhdrs(ranges, pageSize);
      buf := EncodeEhdr(|ranges| + 1);
      assert |buf| == EHDR_SIZE;
      buf := buf + EncodePhdr(NotePhdr(|ranges|, notesSize));
      FirstPhdr(phdrs);
      for i := 0 to |ranges|
        invariant buf == EncodeEhdr(|ranges| + 1) + EncodePhdrs(phdrs[..i + 1])
      {
        EncodePhdrsAppend(phdrs[..i + 1], phdrs[i + 1]);
        assert phdrs[..i + 1] + [phdrs[i + 1]] == phdrs[..i + 2];
        buf := buf + EncodePhdr(LoadPhdr(ranges[i], pageSize));
      }
      assert phdrs[..|ranges| + 1] == phdrs;
    }

    // write_headers
    method WriteHeaders(maps: seq<MemMap>, pageSize: nat) returns (r: Option<seq<RangeToDump>>)
      requires Valid() && pageSize > 0
      modifies this`bytesWritten, output
      ensures r.Some? ==>
        && LaidOut(maps, pageSize, DumpOffset(|maps|, |notesBuf|, pageSize), r.value)
        && output.written == old(output.written) + HeaderBytes(r.value, notesBuf, pageSize)
      ensures if r.Some? then output.broken == old(output.broken) else output.broken
    {
      hide RoundUp, Aligned, LaidOut, EncodeEhdr, EncodePhdrs, LoadPhdrs;
      var notesOffset := EHDR_SIZE + (|maps| + 1) * PHDR_SIZE;
      assert notesOffset % 4 == 0;
      var memDumpOffset := RoundUp(notesOffset + |notesBuf|, pageSize);
      var ranges := LayOutRanges(maps, pageSize, memDumpOffset);
      var buf := new Buffer(0);
      buf.bytes := FormatHeaders(ranges, |notesBuf|, pageSize);
      assert |buf.bytes| == notesOffset;
      buf.bytes := buf.bytes + notesBuf;
      assert |buf.bytes| <= memDumpOffset;
      buf.bytes := buf.bytes + Zeros(memDumpOffset - |buf.bytes|);
      assert buf.bytes == HeaderBytes(ranges, notesBuf, pageSize);
      var ok := FlushBuf(buf);
      r := if ok then Some(ranges) else None;
    }

    // One read into the spare part of the buffer; a failed read leaves zeros.
    method ReadChunk(addr: nat, n: nat, buf: Buffer)
      modifies process, buf
      ensures exists e: ReadEvent :: e.addr == addr && e.len == n && ValidRead(e)
                && process.log == old(process.log) + [e] && buf.bytes == old(buf.bytes) + Stored(e)
    {
      var r := process.Read(addr, n);
      ghost var e := ReadEvent(addr, n, r);
      match r {
        case Some(bytes) => buf.bytes := buf.bytes + bytes;
        case None => buf.bytes := buf.bytes + Zeros(n);
      }
      assert buf.bytes == old(buf.bytes) + Stored(e);
    }

    // dump_memory_ranges: fills the buffer, flushing it whenever it is full.
    method DumpMemoryRanges(ranges: seq<RangeToDump>, buf: Buffer) returns (ok: bool)
      requires buf.capacity > 0 || TotalSize(ranges) == 0
      requires |buf.bytes| <= buf.capacity
      requires process.log == []
      modifies this`bytesWritten, this`bytesRead, output, buf, process
      ensures ok ==>
        && Dumped(ranges, |ranges|, 0, process.log)
        && output.written + buf.bytes == old(output.written + buf.bytes) + Data(process.log)
        && bytesRead == old(bytesRead) + TotalSize(ranges)
        && bytesWritten + |buf.bytes| == old(bytesWritten + |buf.bytes|) + TotalSize(ranges)
      ensures if ok then output.broken == old(output.broken) else output.broken
    {
      hide Addresses, RangeAddresses, Data, Dumped;
      NothingDumped(ranges);
      assert ranges[..|ranges|] == ranges;
      for i := 0 to |ranges|
        invariant Dumped(ranges, i, 0, process.log) && ValidReads(process.log)
        invariant output.written + buf.bytes == old(output.written + buf.bytes) + Data(process.log)
        invariant |buf.bytes| <= buf.capacity
        invariant bytesRead == old(bytesRead) + TotalSize(ranges[..i])
        invariant bytesWritten + |buf.bytes| == old(bytesWritten + |buf.bytes|) + TotalSize(ranges[..i])
        invariant output.broken == old(output.broken)
      {
        if ranges[i].fileSize == 0 {
          RangeDumped(ranges, i, process.log);
          continue;
        }
        TotalGrows(ranges, i, |ranges|);
        ok := DumpRange(ranges, i, buf);
        if !ok {
          return;
        }
        RangeDumped(ranges, i, process.log);
      }
      ok := true;
    }

    // The inner loop of dump_memory_ranges.
    method DumpRange(ranges: seq<RangeToDump>, i: nat, buf: Buffer) returns (ok: bool)
      requires i < |ranges| && Dumped(ranges, i, 0, process.log)
      requires 0 < buf.capacity && |buf.bytes| <= buf.capacity
      modifies this`bytesWritten, this`bytesRead, output, buf, process
      ensures ok ==>
        && Dumped(ranges, i, ranges[i].fileSize, process.log) && ValidReads(old(process.log))
        && (exists more: seq<byte> ::
              && Data(process.log) == Data(old(process.log)) + more
              && output.written + buf.bytes == old(output.written + buf.bytes) + more)
        && |buf.bytes| <= buf.capacity
        && bytesRead == old(bytesRead) + ranges[i].fileSize
        && bytesWritten + |buf.bytes| == old(bytesWritten + |buf.bytes|) + ranges[i].fileSize
      ensures if ok then output.broken == old(output.broken) else output.broken
    {
      hide Addresses, RangeAddresses, Data;
      var range := ranges[i];
      var pos := 0;
      ghost var more: seq<byte> := [];
      while pos < range.fileSize
        invariant 0 <= pos <= range.fileSize
        invariant Dumped(ranges, i, pos, process.log)
        invariant Data(process.log) == Data(old(process.log)) + more
        invariant output.written + buf.bytes == old(output.written + buf.bytes) + more
        invariant |buf.bytes| <= buf.capacity
        invariant bytesRead == old(bytesRead) + pos
        invariant bytesWritten + |buf.bytes| == old(bytesWritten + |buf.bytes|) + pos
        invariant output.broken == old(output.broken)
        decreases range.fileSize - pos, |buf.bytes|
      {
        var spare := buf.capacity - |buf.bytes|;
        if spare == 0 {
          ok := FlushBuf(buf);
          if !ok {
            return;
          }
          continue;
        }
        var n := Min(Min(spare, range.fileSize - pos), MAX_IO);
        ghost var before, was := process.log, output.written + buf.bytes;
        ReadChunk(range.start + pos, n, buf);
        ghost var e := process.log[|before|];
        assert process.log == before + [e];
        assert output.written + buf.bytes == was + Stored(e);
        ChunkDumped(ranges, i, pos, before, e);
        more := more + Stored(e);
        pos := pos + n;
        bytesRead := bytesRead + n;
      }
      ok := true;
    }

    // The part of try_dump that writes the file, with the notes already prepared.
    method Dump(maps: seq<MemMap>, pageSize: nat, bufferSize: nat) returns (ok: bool, ghost ranges: seq<RangeToDump>)
      requires Valid() && pageSize > 0 && bufferSize > 0
      requires output.written == [] && !output.broken && process.log == [] && bytesRead == 0
      modifies this, output, process
      ensures Valid() && notes == old(notes)
      ensures ok ==> Image(output.written, maps, EncodeNotes(notes), pageSize, ranges, process.log)
      ensures ok ==> bytesRead == bytesWritten == bytesTotal == TotalSize(ranges)
      ensures ok <==> !output.broken
    {
      hide LaidOut, HeaderBytes, Addresses, RangeAddresses, Data;
      var headers := WriteHeaders(maps, pageSize);
      if headers.None? {
        return false, [];
      }
      ranges := headers.value;
      bytesWritten := 0;
      bytesTotal := TotalSize(headers.value);
      var buf := new Buffer(Min(bufferSize, bytesTotal));
      ghost var start := output.written;
      ok := DumpMemoryRanges(headers.value, buf);
      if !ok {
        return;
      }
      ghost var data := Data(process.log);
      assert output.written + buf.bytes == start + data;
      ok := FlushBuf(buf);
    }
  }
}
