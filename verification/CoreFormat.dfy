// The file format of a core dump: notes, ELF header, program headers, and the layout the core dumper
// gives them (src/core_dumper.rs), with the readers that define what they mean.
module CoreFormat {
  import opened Options
  import opened Alignment
  import opened Bytes

  function Zeros(n: nat): (s: seq<byte>)
    ensures |s| == n && forall i :: 0 <= i < n ==> s[i] == 0
  {
    seq(n, i => 0)
  }

  // ---- Little-endian numbers -------------------------------------------------------------------

  function Le(x: nat, n: nat): (s: seq<byte>)
    ensures |s| == n
  {
    if n == 0 then [] else [x % 256] + Le(x / 256, n - 1)
  }

  function FromLe(s: seq<byte>): nat {
    if s == [] then 0 else s[0] + 256 * FromLe(s[1..])
  }

  function Pow256(n: nat): nat {
    if n == 0 then 1 else 256 * Pow256(n - 1)
  }

  predicate Fits(x: nat, n: nat) { x < Pow256(n) }

  lemma {:induction false} LeRoundTrip(x: nat, n: nat)
    requires Fits(x, n)
    ensures FromLe(Le(x, n)) == x
  {
    if n > 0 {
      LeRoundTrip(x / 256, n - 1);
      assert Le(x, n)[1..] == Le(x / 256, n - 1);
    }
  }

  // Reading a number off the front of some bytes.
  lemma TakeLe(x: nat, n: nat, rest: seq<byte>)
    requires Fits(x, n)
    ensures (Le(x, n) + rest)[..n] == Le(x, n) && (Le(x, n) + rest)[n..] == rest
    ensures FromLe((Le(x, n) + rest)[..n]) == x
  {
  }

  // ---- Notes (System V ABI, chapter 5, "Note Section") -----------------------------------------

  datatype Note = Note(name: seq<byte>, desc: seq<byte>, kind: nat)

  predicate ValidNote(note: Note) {
    Fits(|note.name| + 1, 4) && Fits(|note.desc|, 4) && Fits(note.kind, 4)
  }

  // What add_note appends: sizes, type, the name with its terminator, the descriptor, padding.
  function EncodeNote(note: Note): seq<byte> {
    Le(|note.name| + 1, 4) + (Le(|note.desc|, 4) + (Le(note.kind, 4)
    + (note.name + (NamePadding(note) + (note.desc + DescPadding(note))))))
  }

  function EncodeNotes(notes: seq<Note>): seq<byte> {
    if notes == [] then [] else EncodeNote(notes[0]) + EncodeNotes(notes[1..])
  }

  // A reader of one note: the name is stored with a terminator and padded to four bytes, the descriptor
  // is padded to four bytes. Returns the note and where the next one starts.
  function DecodeNote(area: seq<byte>): (r: Option<(Note, nat)>)
    ensures r.Some? ==> 0 < r.value.1 <= |area|
  {
    if |area| < 12 then None
    else DecodeSized(area, FromLe(area[..4]), FromLe(area[4..][..4]), FromLe(area[8..12]))
  }

  function DecodeSized(area: seq<byte>, nameSize: nat, descSize: nat, kind: nat): (r: Option<(Note, nat)>)
    requires |area| >= 12
    ensures r.Some? ==> 0 < r.value.1 <= |area|
  {
    var descStart := 12 + RoundUp(nameSize, 4);
    var next := descStart + RoundUp(descSize, 4);
    if nameSize == 0 || next > |area| || area[12 + nameSize - 1] != 0 then None
    else Some((Note(area[12..12 + nameSize - 1], area[descStart..descStart + descSize], kind), next))
  }

  // A reader of the whole note area.
  function DecodeNotes(area: seq<byte>): Option<seq<Note>>
    decreases |area|
  {
    if area == [] then Some([])
    else
      match DecodeNote(area)
      case None => None
      case Some((note, next)) =>
        match DecodeNotes(area[next..])
        case None => None
        case Some(rest) => Some([note] + rest)
  }

  function NamePadding(note: Note): seq<byte> { Zeros(4 - |note.name| % 4) }

  function DescPadding(note: Note): seq<byte> { Zeros((-|note.desc|) % 4) }

  lemma PaddingRounds(note: Note)
    ensures RoundUp(|note.name| + 1, 4) == |note.name| + |NamePadding(note)|
    ensures RoundUp(|note.desc|, 4) == |note.desc| + |DescPadding(note)|
  {
    hide RoundUp;
    PaddingTo4(|note.name| + 1);
    PaddingTo4(|note.desc|);
    UpToNextMultiple(|note.name|);
  }

  lemma UpToNextMultiple(n: nat)
    ensures (-(n + 1)) % 4 == 3 - n % 4
  {
  }

  lemma PaddingTo4(n: int)
    requires n >= 0
    ensures RoundUp(n, 4) == n + (-n) % 4
  {
  }

  // Where the parts of a note lie.
  lemma NoteParts(note: Note, rest: seq<byte>)
    ensures
      var area := EncodeNote(note) + rest;
      var descStart := 12 + |note.name| + |NamePadding(note)|;
      var next := descStart + |note.desc| + |DescPadding(note)|;
      && |EncodeNote(note)| == next
      && area[..4] == Le(|note.name| + 1, 4) && area[4..][..4] == Le(|note.desc|, 4) && area[8..12] == Le(note.kind, 4)
      && area[12..12 + |note.name|] == note.name && area[12 + |note.name|] == 0
      && area[descStart..descStart + |note.desc|] == note.desc && area[next..] == rest
  {
    hide Le;
    var area := EncodeNote(note) + rest;
    assert area[..4] == Le(|note.name| + 1, 4);
    assert area[4..8] == area[4..][..4] == Le(|note.desc|, 4);
    assert area[8..12] == Le(note.kind, 4);
  }

  lemma SizedReadBack(note: Note, rest: seq<byte>)
    ensures |EncodeNote(note)| >= 12
    ensures DecodeSized(EncodeNote(note) + rest, |note.name| + 1, |note.desc|, note.kind)
            == Some((note, |EncodeNote(note)|))
    ensures (EncodeNote(note) + rest)[|EncodeNote(note)|..] == rest
  {
    NoteParts(note, rest);
    PaddingRounds(note);
    hide EncodeNote, NamePadding, DescPadding, Le, RoundUp, Aligned;
    var area := EncodeNote(note) + rest;
    assert area[12..12 + |note.name| + 1 - 1] == note.name;
  }

  lemma NoteReadBack(note: Note, rest: seq<byte>)
    requires ValidNote(note)
    ensures DecodeNote(EncodeNote(note) + rest) == Some((note, |EncodeNote(note)|))
    ensures (EncodeNote(note) + rest)[|EncodeNote(note)|..] == rest
  {
    NoteParts(note, rest);
    LeRoundTrip(|note.name| + 1, 4);
    LeRoundTrip(|note.desc|, 4);
    LeRoundTrip(note.kind, 4);
    SizedReadBack(note, rest);
    hide EncodeNote, NamePadding, DescPadding, Le, FromLe, DecodeSized, Fits;
  }

  // The note area reads back as exactly the notes that were added.
  lemma {:induction false} NotesReadBack(notes: seq<Note>)
    requires forall i :: 0 <= i < |notes| ==> ValidNote(notes[i])
    ensures DecodeNotes(EncodeNotes(notes)) == Some(notes)
  {
    if notes != [] {
      hide DecodeNote, EncodeNote;
      NotesReadBack(notes[1..]);
      NoteReadBack(notes[0], EncodeNotes(notes[1..]));
      assert notes == [notes[0]] + notes[1..];
    }
  }

  lemma {:induction false} EncodeNotesAppend(notes: seq<Note>, note: Note)
    ensures EncodeNotes(notes + [note]) == EncodeNotes(notes) + EncodeNote(note)
  {
    if notes == [] {
      assert notes + [note] == [note] && [note][1..] == [];
    } else {
      assert (notes + [note])[1..] == notes[1..] + [note];
      EncodeNotesAppend(notes[1..], note);
    }
  }

  // ---- ELF headers -----------------------------------------------------------------------------

  const EHDR_SIZE: nat := 64
  const PHDR_SIZE: nat := 56
  const PT_LOAD: nat := 1
  const PT_NOTE: nat := 4

  datatype Phdr = Phdr(kind: nat, flags: nat, offset: nat, vaddr: nat, filesz: nat, memsz: nat, alignment: nat)

  predicate ValidPhdr(p: Phdr) {
    Fits(p.kind, 4) && Fits(p.flags, 4) && Fits(p.offset, 8) && Fits(p.vaddr, 8) && Fits(p.filesz, 8)
    && Fits(p.memsz, 8) && Fits(p.alignment, 8)
  }

  function EncodePhdr(p: Phdr): (s: seq<byte>)
    ensures |s| == PHDR_SIZE
  {
    Le(p.kind, 4) + (Le(p.flags, 4) + (Le(p.offset, 8) + (Le(p.vaddr, 8) + (Le(0, 8) + (Le(p.filesz, 8)
    + (Le(p.memsz, 8) + (Le(p.alignment, 8) + [])))))))
  }

  function DecodePhdr(s: seq<byte>): Phdr
    requires |s| >= PHDR_SIZE
  {
    var s1 := s[4..];
    var s2 := s1[4..];
    var s3 := s2[8..];
    var s4 := s3[8..];
    var s5 := s4[8..];
    var s6 := s5[8..];
    var s7 := s6[8..];
    Phdr(FromLe(s[..4]), FromLe(s1[..4]), FromLe(s2[..8]), FromLe(s3[..8]),
         FromLe(s5[..8]), FromLe(s6[..8]), FromLe(s7[..8]))
  }

  lemma PhdrReadBack(p: Phdr)
    requires ValidPhdr(p)
    ensures DecodePhdr(EncodePhdr(p)) == p
  {
    hide Le, FromLe, Pow256;
    var t7 := Le(p.alignment, 8) + [];
    var t6 := Le(p.memsz, 8) + t7;
    var t5 := Le(p.filesz, 8) + t6;
    var t4 := Le(0, 8) + t5;
    var t3 := Le(p.vaddr, 8) + t4;
    var t2 := Le(p.offset, 8) + t3;
    var t1 := Le(p.flags, 4) + t2;
    TakeLe(p.kind, 4, t1);
    TakeLe(p.flags, 4, t2);
    TakeLe(p.offset, 8, t3);
    TakeLe(p.vaddr, 8, t4);
    ZeroFits();
    TakeLe(0, 8, t5);
    TakeLe(p.filesz, 8, t6);
    TakeLe(p.memsz, 8, t7);
    TakeLe(p.alignment, 8, []);
  }

  lemma ZeroFits()
    ensures Fits(0, 8)
  {
  }

  function EncodePhdrs(phdrs: seq<Phdr>): (s: seq<byte>)
    ensures |s| == PHDR_SIZE * |phdrs|
  {
    if phdrs == [] then [] else EncodePhdr(phdrs[0]) + EncodePhdrs(phdrs[1..])
  }

  lemma {:induction false} EncodePhdrsAppend(phdrs: seq<Phdr>, p: Phdr)
    ensures EncodePhdrs(phdrs + [p]) == EncodePhdrs(phdrs) + EncodePhdr(p)
  {
    if phdrs == [] {
      assert phdrs + [p] == [p] && [p][1..] == [];
    } else {
      assert (phdrs + [p])[1..] == phdrs[1..] + [p];
      EncodePhdrsAppend(phdrs[1..], p);
    }
  }

  function Ident(): (s: seq<byte>)
    ensures |s| == 16
  {
    [0x7f, 0x45, 0x4c, 0x46, 2, 1, 1, 0, 0, 0, 0, 0, 0, 0, 0, 0]
  }

  // The ELF header; the number of program headers is cut to sixteen bits.
  function EncodeEhdr(phdrCount: nat): (s: seq<byte>)
    ensures |s| == EHDR_SIZE
  {
    Ident() + Le(4, 2) + Le(62, 2) + Le(1, 4) + Le(0, 8) + (Le(EHDR_SIZE, 8) + (Le(0, 8) + Le(0, 4)
    + Le(EHDR_SIZE, 2) + Le(PHDR_SIZE, 2) + (Le(phdrCount % 65536, 2) + (Le(0, 2) + Le(0, 2) + Le(0, 2)))))
  }

  // A reader of the program headers: e_phoff at byte 32, e_phnum at byte 56.
  function ReadPhdrs(file: seq<byte>): Option<seq<Phdr>> {
    if |file| < EHDR_SIZE then None
    else
      var phoff, phnum := FromLe(file[32..40]), FromLe(file[56..58]);
      if phoff > |file| then None else DecodePhdrs(file[phoff..], phnum)
  }

  function DecodePhdrs(s: seq<byte>, count: nat): Option<seq<Phdr>> {
    if count == 0 then Some([])
    else if |s| < PHDR_SIZE then None
    else
      match DecodePhdrs(s[PHDR_SIZE..], count - 1)
      case None => None
      case Some(rest) => Some([DecodePhdr(s[..PHDR_SIZE])] + rest)
  }

  lemma EhdrFields(phdrCount: nat, rest: seq<byte>)
    ensures
      var file := EncodeEhdr(phdrCount) + rest;
      && FromLe(file[32..40]) == EHDR_SIZE && FromLe(file[56..58]) == phdrCount % 65536
      && file[EHDR_SIZE..] == rest
  {
    hide Le, FromLe;
    var file := EncodeEhdr(phdrCount) + rest;
    assert file[32..40] == Le(EHDR_SIZE, 8);
    assert file[56..58] == Le(phdrCount % 65536, 2);
    assert Fits(EHDR_SIZE, 8) && Fits(phdrCount % 65536, 2);
    LeRoundTrip(EHDR_SIZE, 8);
    LeRoundTrip(phdrCount % 65536, 2);
  }

  lemma {:induction false} DecodePhdrsPrefix(phdrs: seq<Phdr>, count: nat, rest: seq<byte>)
    requires count <= |phdrs| && forall i :: 0 <= i < |phdrs| ==> ValidPhdr(phdrs[i])
    ensures DecodePhdrs(EncodePhdrs(phdrs) + rest, count) == Some(phdrs[..count])
  {
    hide DecodePhdr, EncodePhdr, ValidPhdr;
    if count > 0 {
      var s := EncodePhdrs(phdrs) + rest;
      assert s[..PHDR_SIZE] == EncodePhdr(phdrs[0]);
      assert s[PHDR_SIZE..] == EncodePhdrs(phdrs[1..]) + rest;
      PhdrReadBack(phdrs[0]);
      DecodePhdrsPrefix(phdrs[1..], count - 1, rest);
      assert phdrs[..count] == [phdrs[0]] + phdrs[1..][..count - 1];
    }
  }

  // A reader finds as many of the program headers that were written as the header says.
  lemma {:induction false} HeadersRead(phdrs: seq<Phdr>, rest: seq<byte>)
    requires forall i :: 0 <= i < |phdrs| ==> ValidPhdr(phdrs[i])
    ensures ReadPhdrs(EncodeEhdr(|phdrs|) + (EncodePhdrs(phdrs) + rest)) == Some(phdrs[..|phdrs| % 65536])
  {
    hide Le, FromLe, EncodeEhdr, ValidPhdr;
    EhdrFields(|phdrs|, EncodePhdrs(phdrs) + rest);
    DecodePhdrsPrefix(phdrs, |phdrs| % 65536, rest);
  }

  // A reader finds exactly the program headers that were written, if and only if their number fits in
  // the sixteen bits the header has for it.
  lemma {:induction false} HeadersReadBackIff(phdrs: seq<Phdr>, rest: seq<byte>)
    requires forall i :: 0 <= i < |phdrs| ==> ValidPhdr(phdrs[i])
    ensures ReadPhdrs(EncodeEhdr(|phdrs|) + (EncodePhdrs(phdrs) + rest)) == Some(phdrs) <==> |phdrs| < 65536
  {
    hide EncodeEhdr, ValidPhdr, ReadPhdrs;
    HeadersRead(phdrs, rest);
    assert |phdrs| < 65536 ==> phdrs[..|phdrs| % 65536] == phdrs;
  }

  // With the headers of 65535 mappings and the one of the notes, a reader finds none.
  lemma TooManyHeaders(p: Phdr, rest: seq<byte>)
    requires ValidPhdr(p)
    ensures var phdrs := seq(65536, _ => p);
            ReadPhdrs(EncodeEhdr(65536) + (EncodePhdrs(phdrs) + rest)) == Some([])
  {
    hide Le, FromLe, EncodeEhdr, ValidPhdr;
    var phdrs := seq(65536, _ => p);
    EhdrFields(65536, EncodePhdrs(phdrs) + rest);
    DecodePhdrsPrefix(phdrs, 0, rest);
    assert phdrs[..0] == [];
  }

  // ---- Layout of the memory image --------------------------------------------------------------

  datatype MemMap = MemMap(start: nat, len: nat, read: bool, write: bool, execute: bool, path: Option<string>)

  datatype RangeToDump = RangeToDump(start: nat, len: nat, fileOffset: nat, fileSize: nat, flags: nat)

  const BIG_FILE_MAP: nat := 20 * 1024 * 1024

  predicate FileBacked(m: MemMap) {
    m.path.Some? && !("[" <= m.path.value)
  }

  predicate Unreadable(m: MemMap) {
    !m.read || (m.path.Some? && m.path.value in ["[vvar]", "[vvar_vclock]", "[vsyscall]"])
  }

  predicate Skipped(m: MemMap) {
    (FileBacked(m) && m.len > BIG_FILE_MAP) || Unreadable(m)
  }

  function Flags(m: MemMap): nat {
    (if m.read then 4 else 0) + (if m.write then 2 else 0) + (if m.execute then 1 else 0)
  }

  function RangeOf(m: MemMap, pageSize: nat, fileOffset: nat): RangeToDump
    requires pageSize > 0
  {
    var start := RoundDown(m.start, pageSize);
    var len := RoundUp(m.start + m.len - start, pageSize);
    RangeToDump(start, len, fileOffset, if Skipped(m) then 0 else len, Flags(m))
  }

  // Bytes of the ranges in the file.
  function TotalSize(ranges: seq<RangeToDump>): nat {
    if ranges == [] then 0 else TotalSize(ranges[..|ranges| - 1]) + ranges[|ranges| - 1].fileSize
  }

  predicate PlacedAt(maps: seq<MemMap>, pageSize: nat, start: nat, ranges: seq<RangeToDump>, i: nat)
    requires pageSize > 0 && i < |ranges| && i < |maps|
  {
    ranges[i] == RangeOf(maps[i], pageSize, start + TotalSize(ranges[..i]))
  }

  // The ranges laid out one after the other.
  ghost predicate LaidOut(maps: seq<MemMap>, pageSize: nat, start: nat, ranges: seq<RangeToDump>)
    requires pageSize > 0
  {
    |ranges| == |maps| && forall i :: 0 <= i < |maps| ==> PlacedAt(maps, pageSize, start, ranges, i)
  }

  lemma {:induction false} TotalGrows(ranges: seq<RangeToDump>, i: nat, j: nat)
    requires i < j <= |ranges|
    ensures TotalSize(ranges[..i]) + ranges[i].fileSize <= TotalSize(ranges[..j])
    decreases j
  {
    assert ranges[..j][..j - 1] == ranges[..j - 1];
    if i < j - 1 {
      TotalGrows(ranges, i, j - 1);
    }
  }

  lemma {:induction false} TotalAligned(maps: seq<MemMap>, pageSize: nat, start: nat, ranges: seq<RangeToDump>, i: nat)
    requires pageSize > 0 && LaidOut(maps, pageSize, start, ranges) && Aligned(start, pageSize) && i <= |ranges|
    ensures Aligned(start + TotalSize(ranges[..i]), pageSize)
  {
    hide Aligned, RoundUp, RoundDown;
    NothingAligned(pageSize);
    if i > 0 {
      TotalAligned(maps, pageSize, start, ranges, i - 1);
      assert ranges[..i][..i - 1] == ranges[..i - 1];
      assert PlacedAt(maps, pageSize, start, ranges, i - 1);
      AlignedSum(start + TotalSize(ranges[..i - 1]), ranges[i - 1].fileSize, pageSize);
    }
  }

  // Every dumped range is page aligned in memory and in the file, covers its whole mapping, and its
  // part of the file is disjoint from every other range's and inside the dump.
  lemma {:induction false} LayoutIsSound(maps: seq<MemMap>, pageSize: nat, start: nat, ranges: seq<RangeToDump>, i: nat)
    requires pageSize > 0 && LaidOut(maps, pageSize, start, ranges) && Aligned(start, pageSize) && i < |ranges|
    ensures
      var r := ranges[i];
      && Aligned(r.start, pageSize) && Aligned(r.fileOffset, pageSize)
      && Aligned(r.len, pageSize) && Aligned(r.fileSize, pageSize)
      && r.start <= maps[i].start && maps[i].start + maps[i].len <= r.start + r.len
      && (r.fileSize == r.len || (r.fileSize == 0 && Skipped(maps[i])))
      && start <= r.fileOffset && r.fileOffset + r.fileSize <= start + TotalSize(ranges)
    ensures forall j :: i < j < |ranges| ==> ranges[i].fileOffset + ranges[i].fileSize <= ranges[j].fileOffset
  {
    hide Aligned, RoundUp, RoundDown;
    NothingAligned(pageSize);
    TotalAligned(maps, pageSize, start, ranges, i);
    assert PlacedAt(maps, pageSize, start, ranges, i);
    assert ranges[..|ranges|] == ranges;
    TotalGrows(ranges, i, |ranges|);
    forall j | i < j < |ranges| ensures ranges[i].fileOffset + ranges[i].fileSize <= ranges[j].fileOffset {
      assert PlacedAt(maps, pageSize, start, ranges, j);
      TotalGrows(ranges, i, j);
    }
  }

  function LoadPhdr(r: RangeToDump, pageSize: nat): Phdr {
    Phdr(PT_LOAD, r.flags, r.fileOffset, r.start, r.fileSize, r.len, pageSize)
  }

  function NotesOffset(maps: nat): nat {
    EHDR_SIZE + (maps + 1) * PHDR_SIZE
  }

  function NotePhdr(maps: nat, notesSize: nat): Phdr {
    Phdr(PT_NOTE, 0, NotesOffset(maps), 0, notesSize, 0, 4)
  }

  function LoadPhdrs(ranges: seq<RangeToDump>, pageSize: nat): (phdrs: seq<Phdr>)
    ensures |phdrs| == |ranges|
    ensures forall i :: 0 <= i < |ranges| ==> phdrs[i] == LoadPhdr(ranges[i], pageSize)
  {
    seq(|ranges|, i requires 0 <= i < |ranges| => LoadPhdr(ranges[i], pageSize))
  }

  function DumpOffset(maps: nat, notesSize: nat, pageSize: nat): nat
    requires pageSize > 0
  {
    RoundUp(NotesOffset(maps) + notesSize, pageSize)
  }

  // Everything before the memory: headers, notes, padding to a page boundary.
  function HeaderBytes(ranges: seq<RangeToDump>, notes: seq<byte>, pageSize: nat): (s: seq<byte>)
    requires pageSize > 0
    ensures |s| == DumpOffset(|ranges|, |notes|, pageSize)
  {
    var phdrs := [NotePhdr(|ranges|, |notes|)] + LoadPhdrs(ranges, pageSize);
    EncodeEhdr(|phdrs|) + (EncodePhdrs(phdrs)
    + (notes + Zeros(DumpOffset(|ranges|, |notes|, pageSize) - NotesOffset(|ranges|) - |notes|)))
  }

  // What a reader takes the file for: an ELF core file, 64-bit and little-endian, of an x86-64, with headers of the
  // sizes expected and no sections.
  ghost predicate IsCoreFile(file: seq<byte>) {
    && |file| >= EHDR_SIZE && file[..4] == [0x7f, 'E' as byte, 'L' as byte, 'F' as byte]
    && file[4] == 2 && file[5] == 1 && file[6] == 1
    && FromLe(file[16..18]) == 4 && FromLe(file[18..20]) == 62 && FromLe(file[20..24]) == 1
    && FromLe(file[52..54]) == EHDR_SIZE && FromLe(file[54..56]) == PHDR_SIZE && FromLe(file[60..62]) == 0
  }

  lemma {:induction false} WrittenIsCoreFile(ranges: seq<RangeToDump>, notes: seq<byte>, pageSize: nat, rest: seq<byte>)
    requires pageSize > 0
    ensures IsCoreFile(HeaderBytes(ranges, notes, pageSize) + rest)
  {
    hide Le, FromLe;
    var file := HeaderBytes(ranges, notes, pageSize) + rest;
    assert file[..16] == Ident() && file[..4] == Ident()[..4];
    assert file[16..18] == Le(4, 2) && file[18..20] == Le(62, 2) && file[20..24] == Le(1, 4);
    assert file[52..54] == Le(EHDR_SIZE, 2) && file[54..56] == Le(PHDR_SIZE, 2) && file[60..62] == Le(0, 2);
    assert Fits(4, 2) && Fits(62, 2) && Fits(1, 4) && Fits(EHDR_SIZE, 2) && Fits(PHDR_SIZE, 2) && Fits(0, 2);
    LeRoundTrip(4, 2);
    LeRoundTrip(62, 2);
    LeRoundTrip(1, 4);
    LeRoundTrip(EHDR_SIZE, 2);
    LeRoundTrip(PHDR_SIZE, 2);
    LeRoundTrip(0, 2);
  }
}
