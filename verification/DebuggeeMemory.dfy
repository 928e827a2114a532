// The debuggee's memory as ptrace shows it: bytes that can be read one at a time, but written only as whole aligned
// little-endian 8-byte words.
module DebuggeeMemory {

  type Memory = map<nat, bv8>

  // The x86 breakpoint instruction.
  const INT3: bv8 := 0xcc

  function WordBase(addr: nat): nat {
    addr - addr % 8
  }

  predicate WordMapped(m: Memory, base: nat) {
    forall k {:trigger k in m} :: base <= k < base + 8 ==> k in m
  }

  // Bit offset of the i-th byte of a word.
  function BitIdx(i: nat): (s: bv7)
    requires i < 8
    ensures IsBitIdx(s)
  {
    match i
    case 0 => 0
    case 1 => 8
    case 2 => 16
    case 3 => 24
    case 4 => 32
    case 5 => 40
    case 6 => 48
    case 7 => 56
  }

  predicate IsBitIdx(s: bv7) {
    s == 0 || s == 8 || s == 16 || s == 24 || s == 32 || s == 40 || s == 48 || s == 56
  }

  function Extract(word: bv64, s: bv7): bv64
    requires IsBitIdx(s)
  {
    (word >> s) & 0xff
  }

  // Replaces eight bits of a word by masking and or-ing.
  function Splice(word: bv64, s: bv7, b: bv64): bv64
    requires IsBitIdx(s)
  {
    (word & !(0xff << s)) | (b << s)
  }

  function ByteOf(word: bv64, i: nat): bv8
    requires i < 8
  {
    Extract(word, BitIdx(i)) as bv8
  }

  // The first n bytes at base, as a little-endian number.
  function ReadBytes(m: Memory, base: nat, n: nat): bv64
    requires n <= 8 && WordMapped(m, base)
  {
    if n == 0 then 0 else Splice(ReadBytes(m, base, n - 1), BitIdx(n - 1), m[base + n - 1] as bv64)
  }

  // PTRACE_POKETEXT.
  function PokeWord(m: Memory, base: nat, word: bv64): Memory {
    map a: nat | a in m.Keys + {base, base+1, base+2, base+3, base+4, base+5, base+6, base+7}
      :: if base <= a < base + 8 then ByteOf(word, a - base) else m[a]
  }

  // The read-modify-write by which the debugger changes one byte of code.
  function PatchByte(m: Memory, addr: nat, b: bv8): Memory
    requires WordMapped(m, WordBase(addr))
  {
    PokeWord(m, WordBase(addr), Splice(ReadBytes(m, WordBase(addr), 8), BitIdx(addr % 8), b as bv64))
  }

  lemma ExtractSame(word: bv64, b: bv64, s: bv7)
    requires IsBitIdx(s) && b <= 0xff
    ensures Extract(Splice(word, s, b), s) == b
  {
  }

  lemma ExtractOther(word: bv64, b: bv64, s: bv7, t: bv7)
    requires IsBitIdx(s) && IsBitIdx(t) && s != t && b <= 0xff
    ensures Extract(Splice(word, s, b), t) == Extract(word, t)
  {
  }

  lemma BitIdxInjective(i: nat, j: nat)
    requires i < 8 && j < 8
    ensures BitIdx(i) == BitIdx(j) <==> i == j
  {
  }

  lemma SplicedByte(word: bv64, i: nat, b: bv8, j: nat)
    requires i < 8 && j < 8
    ensures ByteOf(Splice(word, BitIdx(i), b as bv64), j) == if i == j then b else ByteOf(word, j)
  {
    BitIdxInjective(i, j);
    if i == j {
      ExtractSame(word, b as bv64, BitIdx(i));
    } else {
      ExtractOther(word, b as bv64, BitIdx(i), BitIdx(j));
    }
  }

  lemma {:induction false} ReadBytesByte(m: Memory, base: nat, n: nat, j: nat)
    requires n <= 8 && WordMapped(m, base) && j < n
    ensures ByteOf(ReadBytes(m, base, n), j) == m[base + j]
  {
    SplicedByte(ReadBytes(m, base, n - 1), n - 1, m[base + n - 1], j);
    if j < n - 1 {
      ReadBytesByte(m, base, n - 1, j);
    }
  }

  lemma PokedSplice(m: Memory, base: nat, i: nat, b: bv8)
    requires WordMapped(m, base) && i < 8
    ensures PokeWord(m, base, Splice(ReadBytes(m, base, 8), BitIdx(i), b as bv64)) == m[base + i := b]
  {
    var spliced := Splice(ReadBytes(m, base, 8), BitIdx(i), b as bv64);
    forall j: nat | j < 8
      ensures ByteOf(spliced, j) == m[base + i := b][base + j]
    {
      SplicedByte(ReadBytes(m, base, 8), i, b, j);
      ReadBytesByte(m, base, 8, j);
    }
    PokedBytes(m, base, spliced, m[base + i := b]);
  }

  lemma PokedBytes(m: Memory, base: nat, word: bv64, m': Memory)
    requires WordMapped(m, base) && m'.Keys == m.Keys
    requires forall a :: a in m && !(base <= a < base + 8) ==> m'[a] == m[a]
    requires forall j: nat {:trigger ByteOf(word, j)} :: j < 8 ==> ByteOf(word, j) == m'[base + j]
    ensures PokeWord(m, base, word) == m'
  {
  }

  // Patching a byte through its word changes that byte and nothing else, so patches that share a word do not disturb
  // each other.
  lemma PatchByteIsUpdate(m: Memory, addr: nat, b: bv8)
    requires WordMapped(m, WordBase(addr))
    ensures PatchByte(m, addr, b) == m[addr := b]
  {
    PokedSplice(m, WordBase(addr), addr % 8, b);
  }
}
