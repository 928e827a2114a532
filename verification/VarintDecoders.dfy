// The bit tricks of the fast decoders, on words (other_things/varint_benchmark.c). Facts about bits are
// stated one at a time, by literal length, so that each is decided by itself.
module VarintDecoders {
  import opened Words

  // ---- The first n groups, written out ---------------------------------------------------------

  function V1(one: bv64): bv64 { (one & 0x7f) }

  function V2(one: bv64): bv64 { (one & 0x7f) | (((one >> 8) & 0x7f) << 7) }

  function V3(one: bv64): bv64 { (one & 0x7f) | (((one >> 8) & 0x7f) << 7) | (((one >> 16) & 0x7f) << 14) }

  function V4(one: bv64): bv64 {
    (one & 0x7f) | (((one >> 8) & 0x7f) << 7) | (((one >> 16) & 0x7f) << 14) | (((one >> 24) & 0x7f) << 21)
  }

  function V5(one: bv64): bv64 {
    (one & 0x7f) | (((one >> 8) & 0x7f) << 7) | (((one >> 16) & 0x7f) << 14) | (((one >> 24) & 0x7f) << 21)
    | (((one >> 32) & 0x7f) << 28)
  }

  function V6(one: bv64): bv64 {
    (one & 0x7f) | (((one >> 8) & 0x7f) << 7) | (((one >> 16) & 0x7f) << 14) | (((one >> 24) & 0x7f) << 21)
    | (((one >> 32) & 0x7f) << 28) | (((one >> 40) & 0x7f) << 35)
  }

  function V7(one: bv64): bv64 {
    (one & 0x7f) | (((one >> 8) & 0x7f) << 7) | (((one >> 16) & 0x7f) << 14) | (((one >> 24) & 0x7f) << 21)
    | (((one >> 32) & 0x7f) << 28) | (((one >> 40) & 0x7f) << 35) | (((one >> 48) & 0x7f) << 42)
  }

  function V8(one: bv64): bv64 {
    (one & 0x7f) | (((one >> 8) & 0x7f) << 7) | (((one >> 16) & 0x7f) << 14) | (((one >> 24) & 0x7f) << 21)
    | (((one >> 32) & 0x7f) << 28) | (((one >> 40) & 0x7f) << 35) | (((one >> 48) & 0x7f) << 42)
    | (((one >> 56) & 0x7f) << 49)
  }

  function V9(one: bv64, two: bv64): bv64 {
    (one & 0x7f) | (((one >> 8) & 0x7f) << 7) | (((one >> 16) & 0x7f) << 14) | (((one >> 24) & 0x7f) << 21)
    | (((one >> 32) & 0x7f) << 28) | (((one >> 40) & 0x7f) << 35) | (((one >> 48) & 0x7f) << 42)
    | (((one >> 56) & 0x7f) << 49) | ((two & 0x7f) << 56)
  }

  function V10(one: bv64, two: bv64): bv64 {
    (one & 0x7f) | (((one >> 8) & 0x7f) << 7) | (((one >> 16) & 0x7f) << 14) | (((one >> 24) & 0x7f) << 21)
    | (((one >> 32) & 0x7f) << 28) | (((one >> 40) & 0x7f) << 35) | (((one >> 48) & 0x7f) << 42)
    | (((one >> 56) & 0x7f) << 49) | ((two & 0x7f) << 56) | (((two >> 8) & 0x7f) << 63)
  }

  // The ninth and tenth group, from the second word, added to what the first word gave.
  function Join9(c: bv64, two: bv64): bv64 { c | ((two & 0x7f) << 56) }

  function Join10(c: bv64, two: bv64): bv64 { (c | ((two & 0x7f) << 56)) | (((two >> 8) & 0x7f) << 63) }

  lemma Joined9(one: bv64, two: bv64) ensures Join9(V8(one), two) == V9(one, two) {}

  lemma Joined10(one: bv64, two: bv64) ensures Join10(V8(one), two) == V10(one, two) {}


  function Flat(one: bv64, two: bv64, n: nat): bv64
    requires 0 < n <= 10
  {
    match n
    case 1 => V1(one)
    case 2 => V2(one)
    case 3 => V3(one)
    case 4 => V4(one)
    case 5 => V5(one)
    case 6 => V6(one)
    case 7 => V7(one)
    case 8 => V8(one)
    case 9 => V9(one, two)
    case _ => V10(one, two)
  }

  lemma Group1(one: Word, two: Word) ensures Or(ZERO, Place(Byte(one, two, 0), 0)) == Word(V1(one.bits)) {}

  lemma Group2(one: Word, two: Word) ensures Or(Word(V1(one.bits)), Place(Byte(one, two, 1), 1)) ==
      Word(V2(one.bits)) {}

  lemma Group3(one: Word, two: Word) ensures Or(Word(V2(one.bits)), Place(Byte(one, two, 2), 2)) ==
      Word(V3(one.bits)) {}

  lemma Group4(one: Word, two: Word) ensures Or(Word(V3(one.bits)), Place(Byte(one, two, 3), 3)) ==
      Word(V4(one.bits)) {}

  lemma Group5(one: Word, two: Word) ensures Or(Word(V4(one.bits)), Place(Byte(one, two, 4), 4)) ==
      Word(V5(one.bits)) {}

  lemma Group6(one: Word, two: Word) ensures Or(Word(V5(one.bits)), Place(Byte(one, two, 5), 5)) ==
      Word(V6(one.bits)) {}

  lemma Group7(one: Word, two: Word) ensures Or(Word(V6(one.bits)), Place(Byte(one, two, 6), 6)) ==
      Word(V7(one.bits)) {}

  lemma Group8(one: Word, two: Word) ensures Or(Word(V7(one.bits)), Place(Byte(one, two, 7), 7)) ==
      Word(V8(one.bits)) {}

  lemma Group9(one: Word, two: Word) ensures Or(Word(V8(one.bits)), Place(Byte(one, two, 8), 8)) ==
      Word(V9(one.bits, two.bits)) {}

  lemma Group10(one: Word, two: Word) ensures Or(Word(V9(one.bits, two.bits)), Place(Byte(one, two, 9), 9)) ==
      Word(V10(one.bits, two.bits)) {}

  lemma {:induction false} FlatIsGroups(one: Word, two: Word, n: nat)
    requires 0 < n <= 10
    ensures Groups(one, two, n) == Word(Flat(one.bits, two.bits, n))
  {
    hide Or, Place, Byte;
    hide V1, V2, V3, V4, V5, V6, V7, V8, V9, V10;
    if n > 1 {
      FlatIsGroups(one, two, n - 1);
    }
    match n {
      case 1 => Group1(one, two);
      case 2 => Group2(one, two);
      case 3 => Group3(one, two);
      case 4 => Group4(one, two);
      case 5 => Group5(one, two);
      case 6 => Group6(one, two);
      case 7 => Group7(one, two);
      case 8 => Group8(one, two);
      case 9 => Group9(one, two);
      case _ => Group10(one, two);
    }
  }

  // ---- Packing the groups of one word ----------------------------------------------------------

  function CollectBits(w: bv64): bv64 {
    var x := ((w & 0x7f007f007f007f00) >> 1) | (w & 0x007f007f007f007f);
    var y := ((x & 0xffff0000ffff0000) >> 2) | (x & 0x0000ffff0000ffff);
    ((y & 0xffffffff00000000) >> 4) | (y & 0x00000000ffffffff)
  }

  function CollectBits2(w: bv64): bv64 {
    var x := ((w & 0x7f007f007f007f00) >> 1) | (w & 0x007f007f007f007f);
    ((x & 0xffff000000000000) >> 6) | ((x & 0x0000ffff00000000) >> 4)
    | ((x & 0x00000000ffff0000) >> 2) | (x & 0x000000000000ffff)
  }

  // Selecting the first n bytes.
  function Mask(n: nat): bv64
    requires 0 < n <= 8
  {
    match n
    case 1 => 0x000000000000007f
    case 2 => 0x0000000000007f7f
    case 3 => 0x00000000007f7f7f
    case 4 => 0x000000007f7f7f7f
    case 5 => 0x0000007f7f7f7f7f
    case 6 => 0x00007f7f7f7f7f7f
    case 7 => 0x007f7f7f7f7f7f7f
    case _ => 0x7f7f7f7f7f7f7f7f
  }

  function And(a: bv64, b: bv64): bv64 { a & b }

  lemma CollectBits2Is(w: bv64) ensures CollectBits2(w) == CollectBits(w) {}

  lemma CollectBitsIs(one: bv64) ensures CollectBits(one) == V8(one) {}

  lemma Masked1(one: bv64) ensures V8(And(one, 0x000000000000007f)) == V1(one) {}

  lemma Masked2(one: bv64) ensures V8(And(one, 0x0000000000007f7f)) == V2(one) {}

  lemma Masked3(one: bv64) ensures V8(And(one, 0x00000000007f7f7f)) == V3(one) {}

  lemma Masked4(one: bv64) ensures V8(And(one, 0x000000007f7f7f7f)) == V4(one) {}

  lemma Masked5(one: bv64) ensures V8(And(one, 0x0000007f7f7f7f7f)) == V5(one) {}

  lemma Masked6(one: bv64) ensures V8(And(one, 0x00007f7f7f7f7f7f)) == V6(one) {}

  lemma Masked7(one: bv64) ensures V8(And(one, 0x007f7f7f7f7f7f7f)) == V7(one) {}

  lemma Masked8(one: bv64) ensures V8(And(one, 0x7f7f7f7f7f7f7f7f)) == V8(one) {}

  lemma MaskedIs(one: bv64, two: bv64, n: nat)
    requires 0 < n <= 8
    ensures V8(And(one, Mask(n))) == Flat(one, two, n)
  {
    hide And, V1, V2, V3, V4, V5, V6, V7, V8;
    match n {
      case 1 => Masked1(one);
      case 2 => Masked2(one);
      case 3 => Masked3(one);
      case 4 => Masked4(one);
      case 5 => Masked5(one);
      case 6 => Masked6(one);
      case 7 => Masked7(one);
      case _ => Masked8(one);
    }
  }

  // CollectBits of the masked word gives the first n groups; so does the second version.
  lemma CollectMasked(one: bv64, two: bv64, n: nat)
    requires 0 < n <= 8
    ensures CollectBits(And(one, Mask(n))) == Flat(one, two, n) == CollectBits2(And(one, Mask(n)))
  {
    hide CollectBits, CollectBits2, And, Mask, V8, Flat;
    CollectBitsIs(And(one, Mask(n)));
    CollectBits2Is(And(one, Mask(n)));
    MaskedIs(one, two, n);
  }


  // ---- Counting --------------------------------------------------------------------------------

  // The processor takes shift counts modulo 64.
  function Shr(x: bv64, count: bv7): bv64 { x >> (count & 63) }

  // Trailing zero bits among the low `left` bits.
  function Trailing(x: bv64, left: nat): bv7 {
    if left == 0 || x & 1 == 1 then 0 else 1 + Trailing(x >> 1, left - 1)
  }

  function Tzcnt(x: bv64): bv7 { Trailing(x, 64) }

  // A small count as a pointer increment.
  function Count(b: bv7): nat {
    if b == 0 then 0 else if b == 1 then 1 else if b == 2 then 2 else if b == 3 then 3 else if b == 4 then 4
    else if b == 5 then 5 else if b == 6 then 6 else if b == 7 then 7 else if b == 8 then 8 else if b == 9 then 9
        else 10
  }

  lemma TrailingByte(x: bv64, left: nat)
    requires left >= 8 && x & 0x7f == 0
    ensures Trailing(x, left) == if x & 0x80 != 0 then 7 else 8 + Trailing(x >> 8, left - 8)
  {
    assert Trailing(x, left) == 1 + Trailing(x >> 1, left - 1);
    assert Trailing(x >> 1, left - 1) == 1 + Trailing(x >> 2, left - 2);
    assert Trailing(x >> 2, left - 2) == 1 + Trailing(x >> 3, left - 3);
    assert Trailing(x >> 3, left - 3) == 1 + Trailing(x >> 4, left - 4);
    assert Trailing(x >> 4, left - 4) == 1 + Trailing(x >> 5, left - 5);
    assert Trailing(x >> 5, left - 5) == 1 + Trailing(x >> 6, left - 6);
    assert Trailing(x >> 6, left - 6) == 1 + Trailing(x >> 7, left - 7);
  }

  // Where the encoding ends, as bits of the two words.
  predicate EndsAt(one: bv64, two: bv64, n: nat)
    requires n <= 10
  {
    n > 0
    && (n > 1 ==> one & 0x80 != 0) && (n == 1 ==> one & 0x80 == 0)
    && (n > 2 ==> one & 0x8000 != 0) && (n == 2 ==> one & 0x8000 == 0)
    && (n > 3 ==> one & 0x800000 != 0) && (n == 3 ==> one & 0x800000 == 0)
    && (n > 4 ==> one & 0x80000000 != 0) && (n == 4 ==> one & 0x80000000 == 0)
    && (n > 5 ==> one & 0x8000000000 != 0) && (n == 5 ==> one & 0x8000000000 == 0)
    && (n > 6 ==> one & 0x800000000000 != 0) && (n == 6 ==> one & 0x800000000000 == 0)
    && (n > 7 ==> one & 0x80000000000000 != 0) && (n == 7 ==> one & 0x80000000000000 == 0)
    && (n > 8 ==> one & 0x8000000000000000 != 0) && (n == 8 ==> one & 0x8000000000000000 == 0)
    && (n > 9 ==> two & 0x80 != 0) && (n == 9 ==> two & 0x80 == 0)
    && (n == 10 ==> two & 0x8000 == 0)
  }

  lemma EndsIsEndsAt(one: Word, two: Word, n: nat)
    requires Ends(one, two, n)
    ensures 0 < n <= 10 && EndsAt(one.bits, two.bits, n)
  {
    ByteEnds(one, two, n, 0);
    if n > 1 { ByteEnds(one, two, n, 1); }
    if n > 2 { ByteEnds(one, two, n, 2); }
    if n > 3 { ByteEnds(one, two, n, 3); }
    if n > 4 { ByteEnds(one, two, n, 4); }
    if n > 5 { ByteEnds(one, two, n, 5); }
    if n > 6 { ByteEnds(one, two, n, 6); }
    if n > 7 { ByteEnds(one, two, n, 7); }
    if n > 8 { ByteEnds(one, two, n, 8); }
    if n > 9 { ByteEnds(one, two, n, 9); }
  }

  lemma ByteEnds(one: Word, two: Word, n: nat, i: nat)
    requires Ends(one, two, n) && i < n
    ensures More(Byte(one, two, i)) <==> i < n - 1
  {
  }

  // Bytes of the first word before the one that ends the encoding, 8 if there is none.
  function Index(one: bv64): bv7 { Tzcnt(!one & 0x8080808080808080) >> 3 }

  function IndexOf(n: nat): bv7
    requires 0 < n <= 10
  {
    match n
    case 1 => 0
    case 2 => 1
    case 3 => 2
    case 4 => 3
    case 5 => 4
    case 6 => 5
    case 7 => 6
    case 8 => 7
    case _ => 8
  }

  lemma FirstEnd(one: bv64, two: bv64, n: nat)
    requires n <= 10 && EndsAt(one, two, n)
    ensures Index(one) == IndexOf(n)
  {
    var x := !one & 0x8080808080808080;
    TrailingByte(x, 64);
    TrailingByte(x >> 8, 56);
    TrailingByte(x >> 16, 48);
    TrailingByte(x >> 24, 40);
    TrailingByte(x >> 32, 32);
    TrailingByte(x >> 40, 24);
    TrailingByte(x >> 48, 16);
    TrailingByte(x >> 56, 8);
    hide Trailing;
  }

  lemma IndexCounts(n: nat)
    requires 0 < n <= 10
    ensures Count(IndexOf(n)) == if n <= 8 then n - 1 else 8
  {
  }

  // The continuation bit of the ninth byte.
  predicate More9(two: bv64) { two & 0x80 != 0 }

  lemma NinthByte(one: bv64, two: bv64, n: nat)
    requires 9 <= n <= 10 && EndsAt(one, two, n)
    ensures More9(two) <==> n == 10
  {
  }

  // ---- parse_hybrid ----------------------------------------------------------------------------

  function Hybrid(chunk: bv64, next: bv64): (bv64, nat) {
    if chunk & 0x80 == 0 then (chunk & 0x7f, 1)
    else if chunk & 0x0000008080808080 != 0x0000008080808080 then
      (HybridShort(chunk),
       2 + (if chunk & 0x8000 != 0 then 1 else 0) + (if chunk & 0x808000 == 0x808000 then 1 else 0)
       + (if chunk & 0x80808000 == 0x80808000 then 1 else 0))
    else if chunk & 0x8080808080808080 != 0x8080808080808080 then
      var bytes := Index(chunk);
      (HybridMiddle(CollectBits2(chunk), bytes), Count(bytes) + 1)
    else
      (HybridLong(CollectBits2(chunk), next), if ((next & 0xffff) >> 7) & 1 == 1 then 10 else 9)
  }

  function HybridShort(chunk: bv64): bv64 {
    var res2 := (chunk & 0x7f) | ((chunk & 0x7f00) >> 1);
    var res3 := if chunk & 0x8000 != 0 then res2 | ((chunk & 0x7f0000) >> 2) else res2;
    var res4 := if chunk & 0x808000 == 0x808000 then res3 | ((chunk & 0x7f000000) >> 3) else res3;
    if chunk & 0x80808000 == 0x80808000 then res4 | ((chunk & 0x7f00000000) >> 4) else res4
  }

  function HybridMiddle(res: bv64, bytes: bv7): bv64 {
    res & Shr(0xffff_ffff_ffff_ffff, 64 - 7 - bytes * 7)
  }

  function HybridLong(res: bv64, next: bv64): bv64 {
    (res | ((next & 0xffff) << 56)) & (((next & 0xffff) << 55) | 0x7fff_ffff_ffff_ffff)
  }

  // Which branch is taken, and the count.
  lemma HybridBranches(one: bv64, two: bv64, n: nat)
    requires n <= 10 && EndsAt(one, two, n)
    ensures n == 1 ==> Hybrid(one, two) == (V1(one), 1)
    ensures 2 <= n <= 5 ==> Hybrid(one, two) == (HybridShort(one), n)
    ensures 6 <= n <= 8 ==> Hybrid(one, two) == (HybridMiddle(CollectBits2(one), Index(one)), Count(Index(one)) + 1)
    ensures 9 <= n ==> Hybrid(one, two) == (HybridLong(CollectBits2(one), two), n)
  {
  }

  // The bits HybridShort looks at.
  predicate ShortEnds(one: bv64, n: nat) {
    match n
    case 2 => one & 0x8000 == 0
    case 3 => one & 0x8000 != 0 && one & 0x800000 == 0
    case 4 => one & 0x808000 == 0x808000 && one & 0x80000000 == 0
    case _ => one & 0x80808000 == 0x80808000
  }

  lemma ShortEndsAt(one: bv64, two: bv64, n: nat)
    requires 2 <= n <= 5 && EndsAt(one, two, n)
    ensures ShortEnds(one, n)
  {
  }

  lemma HybridShort2(one: bv64) requires ShortEnds(one, 2) ensures HybridShort(one) == V2(one) {}

  lemma HybridShort3(one: bv64) requires ShortEnds(one, 3) ensures HybridShort(one) == V3(one) {}

  lemma HybridShort4(one: bv64) requires ShortEnds(one, 4) ensures HybridShort(one) == V4(one) {}

  lemma HybridShort5(one: bv64) requires ShortEnds(one, 5) ensures HybridShort(one) == V5(one) {}

  lemma HybridMiddle6(one: bv64) ensures HybridMiddle(CollectBits2(one), 5) == V6(one) {}

  lemma HybridMiddle7(one: bv64) ensures HybridMiddle(CollectBits2(one), 6) == V7(one) {}

  lemma HybridMiddle8(one: bv64) ensures HybridMiddle(CollectBits2(one), 7) == V8(one) {}

  // The first eight groups fill 56 bits.
  lemma V8IsShort(one: bv64) ensures V8(one) & 0xff00_0000_0000_0000 == 0 {}

  lemma Narrowed(c: bv64)
    requires c & 0xff00_0000_0000_0000 == 0
    ensures c <= 0xff_ffff_ffff_ffff && (c as bv56) as bv64 == c
  {
  }

  lemma Low56(one: bv64) returns (c: bv56)
    ensures c as bv64 == V8(one)
  {
    V8IsShort(one);
    hide V8;
    Narrowed(V8(one));
    c := V8(one) as bv56;
  }

  lemma HybridLong9(c: bv56, two: bv64) requires !More9(two) ensures HybridLong(c as bv64, two) ==
      Join9(c as bv64, two) {}

  lemma HybridLong10(c: bv56, two: bv64) requires More9(two) ensures HybridLong(c as bv64, two) ==
      Join10(c as bv64, two) {}

  lemma HybridLongIs(one: bv64, two: bv64, n: nat)
    requires 9 <= n <= 10 && EndsAt(one, two, n)
    ensures HybridLong(V8(one), two) == Flat(one, two, n)
  {
    hide HybridLong, EndsAt, More9, V8, V9, V10, Join9, Join10;
    NinthByte(one, two, n);
    var c := Low56(one);
    if n == 9 {
      HybridLong9(c, two);
      Joined9(one, two);
    } else {
      HybridLong10(c, two);
      Joined10(one, two);
    }
  }

  lemma HybridFlat(one: bv64, two: bv64, n: nat)
    requires n <= 10 && EndsAt(one, two, n)
    ensures Hybrid(one, two) == (Flat(one, two, n), n)
  {
    hide Hybrid, HybridShort, HybridMiddle, HybridLong, Count, Index, CollectBits, CollectBits2, ShortEnds, More9;
    hide V1, V2, V3, V4, V5, V6, V7, V8, V9, V10;
    HybridBranches(one, two, n);
    match n {
      case 1 =>
      case 2 => ShortEndsAt(one, two, n); HybridShort2(one);
      case 3 => ShortEndsAt(one, two, n); HybridShort3(one);
      case 4 => ShortEndsAt(one, two, n); HybridShort4(one);
      case 5 => ShortEndsAt(one, two, n); HybridShort5(one);
      case 6 => FirstEnd(one, two, n); IndexCounts(n); HybridMiddle6(one);
      case 7 => FirstEnd(one, two, n); IndexCounts(n); HybridMiddle7(one);
      case 8 => FirstEnd(one, two, n); IndexCounts(n); HybridMiddle8(one);
      case 9 => HybridLongIs(one, two, n); CollectBitsIs(one); CollectBits2Is(one);
      case _ => HybridLongIs(one, two, n); CollectBitsIs(one); CollectBits2Is(one);
    }
  }

  // ---- parse_branchless ------------------------------------------------------------------------

  // pext: the bits of x selected by the mask, packed.
  function Pext(x: bv64, mask: bv64): bv64 { PextLow(x, mask, 64) }

  function PextLow(x: bv64, mask: bv64, left: nat): bv64 {
    if left == 0 || mask == 0 then 0
    else if mask & 1 == 1 then (x & 1) | (PextLow(x >> 1, mask >> 1, left - 1) << 1)
    else PextLow(x >> 1, mask >> 1, left - 1)
  }

  // The bytes of the first word up to byte `bytes`.
  function BytesMask(bytes: bv7, isLong: bv7): bv64 { Shr(0x7f7f7f7f7f7f7f7f, 8 * (7 + isLong - bytes)) }

  lemma BytesMaskIs(n: nat)
    requires 0 < n <= 10
    ensures BytesMask(IndexOf(n), if n <= 8 then 0 else 1) == Mask(if n <= 8 then n else 8)
  {
  }

  // One byte of the mask: seven bits taken, one skipped.
  function Horner(x: bv64, r: bv64): bv64 { (x & 0x7f) | (r << 7) }

  predicate StartsWithByte(mask: bv64) { mask & 0xff == 0x7f }

  lemma PextTo2(x: bv64, mask: bv64, left: nat)
    requires left >= 8 && StartsWithByte(mask)
    ensures PextLow(x, mask, left) == (x & 0x3) | (PextLow(x >> 2, mask >> 2, left - 2) << 2)
  {
  }

  lemma TakeBit2(x: bv64, r: bv64)
    ensures (x & 0x3) | ((((x >> 2) & 1) | (r << 1)) << 2) == (x & 0x7) | (r << 3)
  {
  }

  lemma PextTo3(x: bv64, mask: bv64, left: nat)
    requires left >= 8 && StartsWithByte(mask)
    ensures PextLow(x, mask, left) == (x & 0x7) | (PextLow(x >> 3, mask >> 3, left - 3) << 3)
  {
    PextStep2(x, mask, left);
    PextTo2(x, mask, left);
    TakeBit2(x, PextLow(x >> 3, mask >> 3, left - 3));
    hide PextLow, StartsWithByte;
  }

  lemma PextStep2(x: bv64, mask: bv64, left: nat)
    requires left >= 8 && StartsWithByte(mask)
    ensures PextLow(x >> 2, mask >> 2, left - 2) == ((x >> 2) & 1) | (PextLow(x >> 3, mask >> 3, left - 3) << 1)
  {
  }

  lemma TakeBit3(x: bv64, r: bv64)
    ensures (x & 0x7) | ((((x >> 3) & 1) | (r << 1)) << 3) == (x & 0xf) | (r << 4)
  {
  }

  lemma PextTo4(x: bv64, mask: bv64, left: nat)
    requires left >= 8 && StartsWithByte(mask)
    ensures PextLow(x, mask, left) == (x & 0xf) | (PextLow(x >> 4, mask >> 4, left - 4) << 4)
  {
    PextStep3(x, mask, left);
    PextTo3(x, mask, left);
    TakeBit3(x, PextLow(x >> 4, mask >> 4, left - 4));
    hide PextLow, StartsWithByte;
  }

  lemma PextStep3(x: bv64, mask: bv64, left: nat)
    requires left >= 8 && StartsWithByte(mask)
    ensures PextLow(x >> 3, mask >> 3, left - 3) == ((x >> 3) & 1) | (PextLow(x >> 4, mask >> 4, left - 4) << 1)
  {
  }

  lemma TakeBit4(x: bv64, r: bv64)
    ensures (x & 0xf) | ((((x >> 4) & 1) | (r << 1)) << 4) == (x & 0x1f) | (r << 5)
  {
  }

  lemma PextTo5(x: bv64, mask: bv64, left: nat)
    requires left >= 8 && StartsWithByte(mask)
    ensures PextLow(x, mask, left) == (x & 0x1f) | (PextLow(x >> 5, mask >> 5, left - 5) << 5)
  {
    PextStep4(x, mask, left);
    PextTo4(x, mask, left);
    TakeBit4(x, PextLow(x >> 5, mask >> 5, left - 5));
    hide PextLow, StartsWithByte;
  }

  lemma PextStep4(x: bv64, mask: bv64, left: nat)
    requires left >= 8 && StartsWithByte(mask)
    ensures PextLow(x >> 4, mask >> 4, left - 4) == ((x >> 4) & 1) | (PextLow(x >> 5, mask >> 5, left - 5) << 1)
  {
  }

  lemma TakeBit5(x: bv64, r: bv64)
    ensures (x & 0x1f) | ((((x >> 5) & 1) | (r << 1)) << 5) == (x & 0x3f) | (r << 6)
  {
  }

  lemma PextTo6(x: bv64, mask: bv64, left: nat)
    requires left >= 8 && StartsWithByte(mask)
    ensures PextLow(x, mask, left) == (x & 0x3f) | (PextLow(x >> 6, mask >> 6, left - 6) << 6)
  {
    PextStep5(x, mask, left);
    PextTo5(x, mask, left);
    TakeBit5(x, PextLow(x >> 6, mask >> 6, left - 6));
    hide PextLow, StartsWithByte;
  }

  lemma PextStep5(x: bv64, mask: bv64, left: nat)
    requires left >= 8 && StartsWithByte(mask)
    ensures PextLow(x >> 5, mask >> 5, left - 5) == ((x >> 5) & 1) | (PextLow(x >> 6, mask >> 6, left - 6) << 1)
  {
  }

  lemma TakeBit6(x: bv64, r: bv64)
    ensures (x & 0x3f) | ((((x >> 6) & 1) | (r << 1)) << 6) == (x & 0x7f) | (r << 7)
  {
  }

  lemma PextTo7(x: bv64, mask: bv64, left: nat)
    requires left >= 8 && StartsWithByte(mask)
    ensures PextLow(x, mask, left) == (x & 0x7f) | (PextLow(x >> 7, mask >> 7, left - 7) << 7)
  {
    PextStep6(x, mask, left);
    PextTo6(x, mask, left);
    TakeBit6(x, PextLow(x >> 7, mask >> 7, left - 7));
    hide PextLow, StartsWithByte;
  }

  lemma PextStep6(x: bv64, mask: bv64, left: nat)
    requires left >= 8 && StartsWithByte(mask)
    ensures PextLow(x >> 6, mask >> 6, left - 6) == ((x >> 6) & 1) | (PextLow(x >> 7, mask >> 7, left - 7) << 1)
  {
  }

  lemma PextByte(x: bv64, mask: bv64, left: nat)
    requires left >= 8 && StartsWithByte(mask)
    ensures PextLow(x, mask, left) == Horner(x, PextLow(x >> 8, mask >> 8, left - 8))
  {
    PextTo7(x, mask, left);
    PextSkip(x, mask, left);
    hide PextLow;
  }

  lemma PextSkip(x: bv64, mask: bv64, left: nat)
    requires left >= 8 && StartsWithByte(mask)
    ensures PextLow(x >> 7, mask >> 7, left - 7) == PextLow(x >> 8, mask >> 8, left - 8)
  {
  }

  lemma Horner1(one: bv64) ensures Horner(one, 0) == V1(one) {}

  lemma Horner2(one: bv64) ensures Horner(one, V1(one >> 8)) == V2(one) {}

  lemma Horner3(one: bv64) ensures Horner(one, V2(one >> 8)) == V3(one) {}

  lemma Horner4(one: bv64) ensures Horner(one, V3(one >> 8)) == V4(one) {}

  lemma Horner5(one: bv64) ensures Horner(one, V4(one >> 8)) == V5(one) {}

  lemma Horner6(one: bv64) ensures Horner(one, V5(one >> 8)) == V6(one) {}

  lemma Horner7(one: bv64) ensures Horner(one, V6(one >> 8)) == V7(one) {}

  lemma Horner8(one: bv64) ensures Horner(one, V7(one >> 8)) == V8(one) {}

  lemma MaskStep(n: nat)
    requires 0 < n <= 8
    ensures StartsWithByte(Mask(n)) && Mask(n) >> 8 == if n == 1 then 0 else Mask(n - 1)
  {
  }

  // pext with the mask of n bytes takes the first n groups.
  lemma {:induction false} PextFlat(x: bv64, two: bv64, n: nat, left: nat)
    requires 0 < n <= 8 && left >= 8 * n
    ensures PextLow(x, Mask(n), left) == Flat(x, two, n)
  {
    MaskStep(n);
    PextByte(x, Mask(n), left);
    if n > 1 {
      PextFlat(x >> 8, two, n - 1, left - 8);
    }
    hide PextLow, Horner, Mask, StartsWithByte;
    hide V1, V2, V3, V4, V5, V6, V7, V8, V9, V10;
    match n {
      case 1 => Horner1(x);
      case 2 => Horner2(x);
      case 3 => Horner3(x);
      case 4 => Horner4(x);
      case 5 => Horner5(x);
      case 6 => Horner6(x);
      case 7 => Horner7(x);
      case _ => Horner8(x);
    }
  }

  function Branchless(one: bv64, two: bv64): (bv64, nat) {
    var bytes := Index(one);
    if bytes < 8 then (Pext(one, BytesMask(bytes, 0)), Count(bytes) + 1)
    else (BranchlessLong(Pext(one, Mask(8)), two), Count(bytes) + (if (two >> 7) & 1 == 1 then 1 else 0) + 1)
  }

  function BranchlessLong(res: bv64, two: bv64): bv64 {
    (res | ((two & 0x7f) << 56)) | (((two >> 8) & ((two >> 7) & 1)) << 63)
  }

  lemma BranchlessBranches(one: bv64, two: bv64, n: nat)
    requires n <= 10 && EndsAt(one, two, n) && Index(one) == IndexOf(n)
    ensures n <= 8 ==> Branchless(one, two) == (Pext(one, BytesMask(IndexOf(n), 0)), Count(IndexOf(n)) + 1)
    ensures n >= 9 ==> Branchless(one, two) == (BranchlessLong(Pext(one, Mask(8)), two), Count(IndexOf(n)) + n - 8)
  {
  }

  lemma BranchlessLong9(c: bv56, two: bv64) requires !More9(two) ensures BranchlessLong(c as bv64, two) ==
      Join9(c as bv64, two) {}

  lemma BranchlessLong10(c: bv56, two: bv64) requires More9(two) ensures BranchlessLong(c as bv64, two) ==
      Join10(c as bv64, two) {}

  lemma BranchlessLongIs(one: bv64, two: bv64, n: nat)
    requires 9 <= n <= 10 && EndsAt(one, two, n)
    ensures BranchlessLong(V8(one), two) == Flat(one, two, n)
  {
    hide BranchlessLong, EndsAt, More9, V8, V9, V10, Join9, Join10;
    NinthByte(one, two, n);
    var c := Low56(one);
    if n == 9 {
      BranchlessLong9(c, two);
      Joined9(one, two);
    } else {
      BranchlessLong10(c, two);
      Joined10(one, two);
    }
  }

  lemma BranchlessFlat(one: bv64, two: bv64, n: nat)
    requires n <= 10 && EndsAt(one, two, n)
    ensures Branchless(one, two) == (Flat(one, two, n), n)
  {
    hide Branchless, BranchlessLong, BytesMask, Mask, Count, Index, IndexOf;
    hide V1, V2, V3, V4, V5, V6, V7, V8, V9, V10;
    FirstEnd(one, two, n);
    IndexCounts(n);
    BranchlessBranches(one, two, n);
    BytesMaskIs(n);
    if n <= 8 {
      PextFlat(one, two, n, 64);
    } else {
      PextFlat(one, two, 8, 64);
      BranchlessLongIs(one, two, n);
    }
  }

  // ---- parse_branchless2, 3 and 4 --------------------------------------------------------------

  datatype Packer = UsePext | UseCollectBits | UseCollectBits2

  // The three differ only in how they pack the groups of the first word.
  function Pack(packer: Packer, one: bv64, mask: bv64): bv64 {
    match packer
    case UsePext => Pext(one, mask)
    case UseCollectBits => CollectBits(And(one, mask))
    case UseCollectBits2 => CollectBits2(And(one, mask))
  }

  function Branchless2(packer: Packer, one: bv64, two: bv64): (bv64, nat) {
    var bytes1 := Index(one);
    var isLong := bytes1 >> 3;
    var res := Pack(packer, one, BytesMask(bytes1, isLong));
    (AddSecond(res, two, isLong), Count(bytes1) + 1 + SecondCount(two, isLong))
  }

  // The second word's two low bytes; -is_long as a byte selects them or not.
  function AddSecond(res: bv64, two: bv64, isLong: bv7): bv64 {
    res | (((two & ((two | 0xff) >> 1)) & ((0 - (isLong as bv64)) & 0xff)) << 56)
  }

  function SecondCount(two: bv64, isLong: bv7): nat {
    if (two >> 7) & (isLong as bv64) == 1 then 1 else 0
  }

  lemma IsLong(n: nat)
    requires 0 < n <= 10
    ensures IndexOf(n) >> 3 == if n <= 8 then 0 else 1
  {
  }

  lemma AddSecondNone(res: bv64, two: bv64) ensures AddSecond(res, two, 0) == res {}

  lemma AddSecond9(c: bv56, two: bv64) requires !More9(two) ensures AddSecond(c as bv64, two, 1) ==
      Join9(c as bv64, two) {}

  lemma AddSecond10(c: bv56, two: bv64) requires More9(two) ensures AddSecond(c as bv64, two, 1) ==
      Join10(c as bv64, two) {}

  lemma AddSecondIs(one: bv64, two: bv64, n: nat)
    requires 9 <= n <= 10 && EndsAt(one, two, n)
    ensures AddSecond(V8(one), two, 1) == Flat(one, two, n)
  {
    hide AddSecond, EndsAt, More9, V8, V9, V10, Join9, Join10;
    NinthByte(one, two, n);
    var c := Low56(one);
    if n == 9 {
      AddSecond9(c, two);
      Joined9(one, two);
    } else {
      AddSecond10(c, two);
      Joined10(one, two);
    }
  }

  lemma SecondCounts(one: bv64, two: bv64, n: nat)
    requires n <= 10 && EndsAt(one, two, n)
    ensures SecondCount(two, if n <= 8 then 0 else 1) == if n == 10 then 1 else 0
  {
  }

  lemma PackIs(packer: Packer, one: bv64, two: bv64, n: nat)
    requires 0 < n <= 8
    ensures Pack(packer, one, Mask(n)) == Flat(one, two, n)
  {
    hide PextLow, CollectBits, CollectBits2, And, Mask, Flat;
    match packer {
      case UsePext => PextFlat(one, two, n, 64);
      case _ => CollectMasked(one, two, n);
    }
  }

  lemma Branchless2Flat(packer: Packer, one: bv64, two: bv64, n: nat)
    requires n <= 10 && EndsAt(one, two, n)
    ensures Branchless2(packer, one, two) == (Flat(one, two, n), n)
  {
    hide Pack, AddSecond, SecondCount, BytesMask, Mask, Count, Index, IndexOf;
    hide V1, V2, V3, V4, V5, V6, V7, V8, V9, V10;
    FirstEnd(one, two, n);
    IndexCounts(n);
    IsLong(n);
    BytesMaskIs(n);
    SecondCounts(one, two, n);
    if n <= 8 {
      PackIs(packer, one, two, n);
      AddSecondNone(Flat(one, two, n), two);
    } else {
      PackIs(packer, one, two, 8);
      AddSecondIs(one, two, n);
    }
  }

  // ---- parse_simd ------------------------------------------------------------------------------

  // The continuation bits of the sixteen bytes.
  function Movemask(one: bv64, two: bv64): bv64 {
    (((one >> 7) & 1) << 0) | (((one >> 15) & 1) << 1) | (((one >> 23) & 1) << 2) | (((one >> 31) & 1) << 3)
    | (((one >> 39) & 1) << 4) | (((one >> 47) & 1) << 5) | (((one >> 55) & 1) << 6) | (((one >> 63) & 1) << 7)
    | (((two >> 7) & 1) << 8) | (((two >> 15) & 1) << 9) | (((two >> 23) & 1) << 10) | (((two >> 31) & 1) << 11)
    | (((two >> 39) & 1) << 12) | (((two >> 47) & 1) << 13) | (((two >> 55) & 1) << 14) | (((two >> 63) & 1) << 15)
  }

  function SimdBytes(one: bv64, two: bv64): bv7 { Trailing(!Movemask(one, two) & 0xffff_ffff, 32) + 1 }

  // Two collected halves; the shift by one byte puts the low byte of the upper half on top.
  function SimdJoin(lo: bv64, hi: bv64): bv64 {
    SimdTop(lo, hi << 56)
  }

  function SimdTop(lo: bv64, hi: bv64): bv64 { lo | (((lo >> 8) | hi) & 0xff00_0000_0000_0000) }

  // Bits to discard: 64 - bytes * 7, or 0 if that is negative.
  function DiscardBits(bytes: bv7): bv64 {
    var d: bv64 := 64 - (bytes as bv64) * 7;
    d & !(d >> 32)
  }

  function Keep(res: bv64, bytes: bv7): bv64 {
    res & (0xffff_ffff_ffff_ffff >> (DiscardBits(bytes) & 63))
  }

  function Simd(one: bv64, two: bv64): (bv64, nat) {
    var bytes := SimdBytes(one, two);
    (Keep(SimdJoin(CollectBits(one), CollectBits(two)), bytes), Count(bytes))
  }

  lemma SimdJoined(one: bv64, two: bv64)
    ensures SimdJoin(V8(one), V8(two)) == V10(one, two)
  {
  }

  lemma Keep1(one: bv64, two: bv64) ensures Keep(V10(one, two), 1) == V1(one) {}

  lemma Keep2(one: bv64, two: bv64) ensures Keep(V10(one, two), 2) == V2(one) {}

  lemma Keep3(one: bv64, two: bv64) ensures Keep(V10(one, two), 3) == V3(one) {}

  lemma Keep4(one: bv64, two: bv64) ensures Keep(V10(one, two), 4) == V4(one) {}

  lemma Keep5(one: bv64, two: bv64) ensures Keep(V10(one, two), 5) == V5(one) {}

  lemma Keep6(one: bv64, two: bv64) ensures Keep(V10(one, two), 6) == V6(one) {}

  lemma Keep7(one: bv64, two: bv64) ensures Keep(V10(one, two), 7) == V7(one) {}

  lemma Keep8(one: bv64, two: bv64) ensures Keep(V10(one, two), 8) == V8(one) {}

  lemma Keep9(one: bv64, two: bv64) ensures Keep(V10(one, two), 9) == V9(one, two) {}

  lemma Keep10(one: bv64, two: bv64) ensures Keep(V10(one, two), 10) == V10(one, two) {}


  // The first clear bit of the mask, within ten.
  predicate FirstClear(mask: bv64, n: nat) {
    n > 0
    && (n > 1 ==> (mask >> 0) & 1 == 1) && (n == 1 ==> (mask >> 0) & 1 == 0)
    && (n > 2 ==> (mask >> 1) & 1 == 1) && (n == 2 ==> (mask >> 1) & 1 == 0)
    && (n > 3 ==> (mask >> 2) & 1 == 1) && (n == 3 ==> (mask >> 2) & 1 == 0)
    && (n > 4 ==> (mask >> 3) & 1 == 1) && (n == 4 ==> (mask >> 3) & 1 == 0)
    && (n > 5 ==> (mask >> 4) & 1 == 1) && (n == 5 ==> (mask >> 4) & 1 == 0)
    && (n > 6 ==> (mask >> 5) & 1 == 1) && (n == 6 ==> (mask >> 5) & 1 == 0)
    && (n > 7 ==> (mask >> 6) & 1 == 1) && (n == 7 ==> (mask >> 6) & 1 == 0)
    && (n > 8 ==> (mask >> 7) & 1 == 1) && (n == 8 ==> (mask >> 7) & 1 == 0)
    && (n > 9 ==> (mask >> 8) & 1 == 1) && (n == 9 ==> (mask >> 8) & 1 == 0)
    && (n > 10 ==> (mask >> 9) & 1 == 1) && (n == 10 ==> (mask >> 9) & 1 == 0)
  }

  lemma MaskEnds(one: bv64, two: bv64, n: nat)
    requires n <= 10 && EndsAt(one, two, n)
    ensures FirstClear(Movemask(one, two), n)
  {
  }

  function LengthOf(n: nat): bv7
    requires 0 < n <= 10
  {
    match n
    case 1 => 1
    case 2 => 2
    case 3 => 3
    case 4 => 4
    case 5 => 5
    case 6 => 6
    case 7 => 7
    case 8 => 8
    case 9 => 9
    case _ => 10
  }

  lemma TrailingOnes(mask: bv64, n: nat)
    requires n <= 10 && FirstClear(mask, n)
    ensures Trailing(!mask & 0xffff_ffff, 32) + 1 == LengthOf(n)
  {
    var x := !mask & 0xffff_ffff;
    if n > 1 { assert Trailing(x, 32) == 1 + Trailing(x >> 1, 31); }
    if n > 2 { assert Trailing(x >> 1, 31) == 1 + Trailing(x >> 2, 30); }
    if n > 3 { assert Trailing(x >> 2, 30) == 1 + Trailing(x >> 3, 29); }
    if n > 4 { assert Trailing(x >> 3, 29) == 1 + Trailing(x >> 4, 28); }
    if n > 5 { assert Trailing(x >> 4, 28) == 1 + Trailing(x >> 5, 27); }
    if n > 6 { assert Trailing(x >> 5, 27) == 1 + Trailing(x >> 6, 26); }
    if n > 7 { assert Trailing(x >> 6, 26) == 1 + Trailing(x >> 7, 25); }
    if n > 8 { assert Trailing(x >> 7, 25) == 1 + Trailing(x >> 8, 24); }
    if n > 9 { assert Trailing(x >> 8, 24) == 1 + Trailing(x >> 9, 23); }
  }

  lemma LengthCounts(n: nat)
    requires 0 < n <= 10
    ensures Count(LengthOf(n)) == n
  {
  }

  lemma SimdBytesIs(one: bv64, two: bv64, n: nat)
    requires 0 < n <= 10 && EndsAt(one, two, n)
    ensures SimdBytes(one, two) == LengthOf(n)
  {
    hide Movemask, FirstClear, EndsAt, LengthOf;
    MaskEnds(one, two, n);
    TrailingOnes(Movemask(one, two), n);
  }

  lemma SimdFlat(one: bv64, two: bv64, n: nat)
    requires 0 < n <= 10 && EndsAt(one, two, n)
    ensures Simd(one, two) == (Flat(one, two, n), n)
  {
    hide CollectBits, SimdJoin, SimdBytes, Keep, Count, EndsAt;
    hide V1, V2, V3, V4, V5, V6, V7, V8, V9, V10;
    SimdBytesIs(one, two, n);
    LengthCounts(n);
    CollectBitsIs(one);
    CollectBitsIs(two);
    SimdJoined(one, two);
    match n {
      case 1 => Keep1(one, two);
      case 2 => Keep2(one, two);
      case 3 => Keep3(one, two);
      case 4 => Keep4(one, two);
      case 5 => Keep5(one, two);
      case 6 => Keep6(one, two);
      case 7 => Keep7(one, two);
      case 8 => Keep8(one, two);
      case 9 => Keep9(one, two);
      case _ => Keep10(one, two);
    }
  }


  // ---- All of them -----------------------------------------------------------------------------

  datatype Decoder =
    ParseHybrid | ParseBranchless | ParseBranchless2 | ParseBranchless3 | ParseBranchless4 | ParseSimd

  // The value and the number of bytes consumed.
  function Fast(decoder: Decoder, one: Word, two: Word): (Word, nat) {
    var r := match decoder
      case ParseHybrid => Hybrid(one.bits, two.bits)
      case ParseBranchless => Branchless(one.bits, two.bits)
      case ParseBranchless2 => Branchless2(UsePext, one.bits, two.bits)
      case ParseBranchless3 => Branchless2(UseCollectBits, one.bits, two.bits)
      case ParseBranchless4 => Branchless2(UseCollectBits2, one.bits, two.bits)
      case ParseSimd => Simd(one.bits, two.bits);
    (Word(r.0), r.1)
  }

  // Every fast decoder decodes every encoding of at most ten bytes, whatever follows it.
  lemma FastCorrect(decoder: Decoder, one: Word, two: Word, n: nat)
    requires Ends(one, two, n)
    ensures Fast(decoder, one, two) == (Groups(one, two, n), n)
  {
    hide Hybrid, Branchless, Branchless2, Simd, Flat, EndsAt, Groups;
    EndsIsEndsAt(one, two, n);
    FlatIsGroups(one, two, n);
    match decoder {
      case ParseHybrid => HybridFlat(one.bits, two.bits, n);
      case ParseBranchless => BranchlessFlat(one.bits, two.bits, n);
      case ParseBranchless2 => Branchless2Flat(UsePext, one.bits, two.bits, n);
      case ParseBranchless3 => Branchless2Flat(UseCollectBits, one.bits, two.bits, n);
      case ParseBranchless4 => Branchless2Flat(UseCollectBits2, one.bits, two.bits, n);
      case ParseSimd => SimdFlat(one.bits, two.bits, n);
    }
  }

}
