// Branch-light ULEB128 decoders against the simple loop and the encoder (other_things/varint_benchmark.c;
// the encoding is section 7.6 of DWARF version 5).

// Bytes and groups of seven bits inside 64-bit words. The constructor, and hiding these functions, keep
// the solver from looking into the bits except where a lemma is about them.
module Words {
  datatype Word = Word(bits: bv64)

  const ZERO: Word := Word(0)

  function Or(a: Word, b: Word): Word { Word(a.bits | b.bits) }

  function Widen(b: bv8): Word { Word(b as bv64) }

  predicate More(b: Word) { b.bits & 0x80 != 0 }

  predicate IsByte(b: Word) { b.bits <= 0xff }

  // Bit position of the i-th group of seven bits.
  function Shift(i: nat): (s: bv7)
    requires i < 10
    ensures s <= 63
  {
    match i
    case 0 => 0 case 1 => 7 case 2 => 14 case 3 => 21 case 4 => 28
    case 5 => 35 case 6 => 42 case 7 => 49 case 8 => 56 case _ => 63
  }

  function Low(w: Word): Word { Word(w.bits & 0x7f) }

  function Raise(w: Word, i: nat): Word
    requires i < 10
  {
    Word(w.bits << Shift(i))
  }

  // The low seven bits of a byte, put in place as group i; bits beyond 64 are dropped.
  function Place(b: Word, i: nat): Word
    requires i < 10
  {
    Raise(Low(b), i)
  }

  function Join(b0: Word, b1: Word, b2: Word, b3: Word, b4: Word, b5: Word, b6: Word, b7: Word): Word {
    Word(b0.bits | (b1.bits << 8) | (b2.bits << 16) | (b3.bits << 24)
         | (b4.bits << 32) | (b5.bits << 40) | (b6.bits << 48) | (b7.bits << 56))
  }

  function ByteOf(w: Word, i: nat): Word
    requires i < 8
  {
    Word(match i
         case 0 => w.bits & 0xff case 1 => (w.bits >> 8) & 0xff
         case 2 => (w.bits >> 16) & 0xff case 3 => (w.bits >> 24) & 0xff
         case 4 => (w.bits >> 32) & 0xff case 5 => (w.bits >> 40) & 0xff
         case 6 => (w.bits >> 48) & 0xff case _ => (w.bits >> 56) & 0xff)
  }

  // Byte i of the sixteen bytes held in two words.
  function Byte(one: Word, two: Word, i: nat): Word
    requires i < 16
  {
    if i < 8 then ByteOf(one, i) else ByteOf(two, i - 8)
  }

  // The value of the first n groups.
  function Groups(one: Word, two: Word, n: nat): Word
    requires n <= 10
  {
    if n == 0 then ZERO else Or(Groups(one, two, n - 1), Place(Byte(one, two, n - 1), n - 1))
  }

  // Exactly the n-th byte lacks the continuation bit among the first n.
  ghost predicate Ends(one: Word, two: Word, n: nat) {
    0 < n <= 10 && !More(Byte(one, two, n - 1)) && forall i :: 0 <= i < n - 1 ==> More(Byte(one, two, i))
  }

  lemma WidenIsByte(b: bv8)
    ensures IsByte(Widen(b))
  {
  }

  lemma JoinBytes(b0: Word, b1: Word, b2: Word, b3: Word, b4: Word, b5: Word, b6: Word, b7: Word)
    requires IsByte(b0) && IsByte(b1) && IsByte(b2) && IsByte(b3) && IsByte(b4) && IsByte(b5) && IsByte(b6) &&
        IsByte(b7)
    ensures
      var w := Join(b0, b1, b2, b3, b4, b5, b6, b7);
      ByteOf(w, 0) == b0 && ByteOf(w, 1) == b1 && ByteOf(w, 2) == b2 && ByteOf(w, 3) == b3
      && ByteOf(w, 4) == b4 && ByteOf(w, 5) == b5 && ByteOf(w, 6) == b6 && ByteOf(w, 7) == b7
  {
  }
}

module Uleb128 {
  import opened Words

  const MAX_BYTES: nat := 10

  // The number whose groups of seven bits, lowest first, are given; bits beyond 64 are dropped.
  function Value(s: seq<bv8>): Word
    requires |s| <= MAX_BYTES
  {
    if s == [] then ZERO
    else Or(Value(s[..|s| - 1]), Place(Widen(s[|s| - 1]), |s| - 1))
  }

  // Exactly the last byte lacks the continuation bit.
  ghost predicate Terminated(s: seq<bv8>) {
    s != [] && !More(Widen(s[|s| - 1])) && forall i :: 0 <= i < |s| - 1 ==> More(Widen(s[i]))
  }

  // An encoding of n bytes starts at position p.
  ghost predicate EncodingAt(buf: seq<bv8>, p: nat, n: nat) {
    0 < n <= MAX_BYTES && p + n <= |buf| && Terminated(buf[p..p + n])
  }

  // An unaligned little-endian load.
  function Load(buf: seq<bv8>, p: nat): Word
    requires p + 8 <= |buf|
  {
    Join(Widen(buf[p]), Widen(buf[p + 1]), Widen(buf[p + 2]), Widen(buf[p + 3]),
         Widen(buf[p + 4]), Widen(buf[p + 5]), Widen(buf[p + 6]), Widen(buf[p + 7]))
  }

  lemma LoadedByte(buf: seq<bv8>, p: nat, i: nat)
    requires p + 8 <= |buf| && i < 8
    ensures ByteOf(Load(buf, p), i) == Widen(buf[p + i])
  {
    hide Join, ByteOf, Widen, IsByte;
    forall k | p <= k < p + 8 ensures IsByte(Widen(buf[k])) { WidenIsByte(buf[k]); }
    JoinBytes(Widen(buf[p]), Widen(buf[p + 1]), Widen(buf[p + 2]), Widen(buf[p + 3]),
              Widen(buf[p + 4]), Widen(buf[p + 5]), Widen(buf[p + 6]), Widen(buf[p + 7]));
  }

  lemma LoadedByteOfTwo(buf: seq<bv8>, p: nat, i: nat)
    requires p + 16 <= |buf| && i < 16
    ensures Byte(Load(buf, p), Load(buf, p + 8), i) == Widen(buf[p + i])
  {
    hide Load, ByteOf, Widen;
    if i < 8 { LoadedByte(buf, p, i); } else { LoadedByte(buf, p + 8, i - 8); }
  }

  // Two loads hold the encoding.
  lemma {:induction false} LoadedValue(buf: seq<bv8>, p: nat, n: nat)
    requires p + 16 <= |buf| && n <= MAX_BYTES
    ensures Groups(Load(buf, p), Load(buf, p + 8), n) == Value(buf[p..p + n])
  {
    hide Load, Byte, Place, Or, Widen;
    if n > 0 {
      LoadedValue(buf, p, n - 1);
      LoadedByteOfTwo(buf, p, n - 1);
      assert buf[p..p + n][..n - 1] == buf[p..p + n - 1];
    }
  }

  lemma LoadedEnds(buf: seq<bv8>, p: nat, n: nat)
    requires p + 16 <= |buf| && EncodingAt(buf, p, n)
    ensures Ends(Load(buf, p), Load(buf, p + 8), n)
  {
    hide Load, Byte, More, Widen;
    var one, two := Load(buf, p), Load(buf, p + 8);
    forall i | 0 <= i < n ensures Byte(one, two, i) == Widen(buf[p..p + n][i]) {
      LoadedByteOfTwo(buf, p, i);
    }
  }
}
