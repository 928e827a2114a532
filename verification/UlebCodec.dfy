// Encoding, decoding and streams of ULEB128 numbers (other_things/varint_benchmark.c).
module UlebCodec {
  import opened Words
  import opened Uleb128
  import opened VarintDecoders

  // ---- The encoder -----------------------------------------------------------------------------

  function LastByte(v: Word): bv8 { (v.bits & 0x7f) as bv8 }

  function MoreByte(v: Word): bv8 { ((v.bits & 0x7f) as bv8) | 0x80 }

  function Rest(v: Word): Word { Word(v.bits >> 7) }

  // The groups from the k-th on.
  function Drop(v: Word, k: nat): Word
    requires k < 10
  {
    Word(v.bits >> Shift(k))
  }

  // Groups of seven bits in a number; at least one.
  function Size(v: Word): (n: nat)
    ensures 0 < n <= 10
  {
    if v.bits < 0x80 then 1
    else if v.bits < 0x4000 then 2
    else if v.bits < 0x20_0000 then 3
    else if v.bits < 0x1000_0000 then 4
    else if v.bits < 0x8_0000_0000 then 5
    else if v.bits < 0x400_0000_0000 then 6
    else if v.bits < 0x2_0000_0000_0000 then 7
    else if v.bits < 0x100_0000_0000_0000 then 8
    else if v.bits < 0x8000_0000_0000_0000 then 9
    else 10
  }

  lemma RestIsShorter(v: Word)
    ensures Rest(v) != ZERO <==> Size(v) > 1
    ensures Size(v) > 1 ==> Size(Rest(v)) == Size(v) - 1
  {
  }

  function Encode(v: Word): (s: seq<bv8>)
    ensures |s| == Size(v)
    decreases Size(v)
  {
    RestIsShorter(v);
    if Rest(v) != ZERO then [MoreByte(v)] + Encode(Rest(v)) else [LastByte(v)]
  }

  lemma DropRest0(v: Word) ensures Drop(Rest(v), 0) == Drop(v, 1) {}

  lemma DropRest1(v: Word) ensures Drop(Rest(v), 1) == Drop(v, 2) {}

  lemma DropRest2(v: Word) ensures Drop(Rest(v), 2) == Drop(v, 3) {}

  lemma DropRest3(v: Word) ensures Drop(Rest(v), 3) == Drop(v, 4) {}

  lemma DropRest4(v: Word) ensures Drop(Rest(v), 4) == Drop(v, 5) {}

  lemma DropRest5(v: Word) ensures Drop(Rest(v), 5) == Drop(v, 6) {}

  lemma DropRest6(v: Word) ensures Drop(Rest(v), 6) == Drop(v, 7) {}

  lemma DropRest7(v: Word) ensures Drop(Rest(v), 7) == Drop(v, 8) {}

  lemma DropRest8(v: Word) ensures Drop(Rest(v), 8) == Drop(v, 9) {}

  lemma DropRest(v: Word, k: nat)
    requires k < 9
    ensures Drop(Rest(v), k) == Drop(v, k + 1)
  {
    hide Drop, Rest;
    match k {
      case 0 => DropRest0(v);
      case 1 => DropRest1(v);
      case 2 => DropRest2(v);
      case 3 => DropRest3(v);
      case 4 => DropRest4(v);
      case 5 => DropRest5(v);
      case 6 => DropRest6(v);
      case 7 => DropRest7(v);
      case _ => DropRest8(v);
    }
  }

  lemma DropNone(v: Word)
    ensures Drop(v, 0) == v
  {
  }

  lemma ByteBits(v: Word)
    ensures !More(Widen(LastByte(v))) && More(Widen(MoreByte(v)))
  {
  }

  // The first k groups.
  function Prefix(v: Word, k: nat): Word
    requires k <= 10
  {
    Word(match k
         case 0 => v.bits & 0x0
         case 1 => v.bits & 0x7f
         case 2 => v.bits & 0x3fff
         case 3 => v.bits & 0x1fffff
         case 4 => v.bits & 0xfffffff
         case 5 => v.bits & 0x7ffffffff
         case 6 => v.bits & 0x3ffffffffff
         case 7 => v.bits & 0x1ffffffffffff
         case 8 => v.bits & 0xffffffffffffff
         case 9 => v.bits & 0x7fffffffffffffff
         case _ => v.bits)
  }

  lemma LastLow(w: Word) ensures Low(Widen(LastByte(w))) == Low(w) {}

  lemma MoreLow(w: Word) ensures Low(Widen(MoreByte(w))) == Low(w) {}

  // Only the low seven bits of a byte are placed.
  lemma PlaceByLow(a: Word, b: Word, k: nat)
    requires k < 10 && Low(a) == Low(b)
    ensures Place(a, k) == Place(b, k)
  {
    hide Low, Raise;
  }

  // Group k, in place.
  function Group(v: Word, k: nat): Word
    requires k < 9
  {
    Word(match k
         case 0 => v.bits & 0x7f
         case 1 => v.bits & 0x3f80
         case 2 => v.bits & 0x1fc000
         case 3 => v.bits & 0xfe00000
         case 4 => v.bits & 0x7f0000000
         case 5 => v.bits & 0x3f800000000
         case 6 => v.bits & 0x1fc0000000000
         case 7 => v.bits & 0xfe000000000000
         case _ => v.bits & 0x7f00000000000000)
  }

  lemma Placed0(v: Word) ensures Place(Drop(v, 0), 0) == Group(v, 0) {}

  lemma Placed1(v: Word) ensures Place(Drop(v, 1), 1) == Group(v, 1) {}

  lemma Placed2(v: Word) ensures Place(Drop(v, 2), 2) == Group(v, 2) {}

  lemma Placed3(v: Word) ensures Place(Drop(v, 3), 3) == Group(v, 3) {}

  lemma Placed4(v: Word) ensures Place(Drop(v, 4), 4) == Group(v, 4) {}

  lemma Placed5(v: Word) ensures Place(Drop(v, 5), 5) == Group(v, 5) {}

  lemma Placed6(v: Word) ensures Place(Drop(v, 6), 6) == Group(v, 6) {}

  lemma Placed7(v: Word) ensures Place(Drop(v, 7), 7) == Group(v, 7) {}

  lemma Placed8(v: Word) ensures Place(Drop(v, 8), 8) == Group(v, 8) {}

  lemma PrefixPlus0(v: Word) ensures Or(Prefix(v, 0), Group(v, 0)) == Prefix(v, 1) {}

  lemma PrefixPlus1(v: Word) ensures Or(Prefix(v, 1), Group(v, 1)) == Prefix(v, 2) {}

  lemma PrefixPlus2(v: Word) ensures Or(Prefix(v, 2), Group(v, 2)) == Prefix(v, 3) {}

  lemma PrefixPlus3(v: Word) ensures Or(Prefix(v, 3), Group(v, 3)) == Prefix(v, 4) {}

  lemma PrefixPlus4(v: Word) ensures Or(Prefix(v, 4), Group(v, 4)) == Prefix(v, 5) {}

  lemma PrefixPlus5(v: Word) ensures Or(Prefix(v, 5), Group(v, 5)) == Prefix(v, 6) {}

  lemma PrefixPlus6(v: Word) ensures Or(Prefix(v, 6), Group(v, 6)) == Prefix(v, 7) {}

  lemma PrefixPlus7(v: Word) ensures Or(Prefix(v, 7), Group(v, 7)) == Prefix(v, 8) {}

  lemma PrefixPlus8(v: Word) ensures Or(Prefix(v, 8), Group(v, 8)) == Prefix(v, 9) {}

  function TopBit(v: Word): Word { Word(v.bits & 0x8000_0000_0000_0000) }

  lemma PlacedTop(v: Word) ensures Place(Drop(v, 9), 9) == TopBit(v) {}

  lemma PrefixTop(v: Word) ensures Or(Prefix(v, 9), TopBit(v)) == v {}

  // One more byte of the encoding of v, the last or not.
  lemma PrefixStep(v: Word, k: nat, b: bv8)
    requires k < 10
    requires b == LastByte(Drop(v, k)) || (b == MoreByte(Drop(v, k)) && k < 9)
    ensures Or(Prefix(v, k), Place(Widen(b), k)) == Prefix(v, k + 1)
  {
    hide Or, Place, Widen, LastByte, MoreByte, Drop, Prefix, Group, Low;
    LastLow(Drop(v, k));
    MoreLow(Drop(v, k));
    PlaceByLow(Widen(b), Drop(v, k), k);
    match k {
      case 0 => Placed0(v); PrefixPlus0(v);
      case 1 => Placed1(v); PrefixPlus1(v);
      case 2 => Placed2(v); PrefixPlus2(v);
      case 3 => Placed3(v); PrefixPlus3(v);
      case 4 => Placed4(v); PrefixPlus4(v);
      case 5 => Placed5(v); PrefixPlus5(v);
      case 6 => Placed6(v); PrefixPlus6(v);
      case 7 => Placed7(v); PrefixPlus7(v);
      case 8 => Placed8(v); PrefixPlus8(v);
      case _ => PlacedTop(v); PrefixTop(v); PrefixAll(v);
    }
  }

  lemma PrefixAll(v: Word) ensures Prefix(v, 10) == v {}

  // A number has no bits beyond its size.
  lemma PrefixFits1(v: Word) requires Size(v) == 1 ensures Prefix(v, 1) == v {}

  lemma PrefixFits2(v: Word) requires Size(v) == 2 ensures Prefix(v, 2) == v {}

  lemma PrefixFits3(v: Word) requires Size(v) == 3 ensures Prefix(v, 3) == v {}

  lemma PrefixFits4(v: Word) requires Size(v) == 4 ensures Prefix(v, 4) == v {}

  lemma PrefixFits5(v: Word) requires Size(v) == 5 ensures Prefix(v, 5) == v {}

  lemma PrefixFits6(v: Word) requires Size(v) == 6 ensures Prefix(v, 6) == v {}

  lemma PrefixFits7(v: Word) requires Size(v) == 7 ensures Prefix(v, 7) == v {}

  lemma PrefixFits8(v: Word) requires Size(v) == 8 ensures Prefix(v, 8) == v {}

  lemma PrefixFits9(v: Word) requires Size(v) == 9 ensures Prefix(v, 9) == v {}

  lemma PrefixFits(v: Word)
    ensures Prefix(v, Size(v)) == v
  {
    hide Prefix, Size;
    match Size(v) {
      case 1 => PrefixFits1(v);
      case 2 => PrefixFits2(v);
      case 3 => PrefixFits3(v);
      case 4 => PrefixFits4(v);
      case 5 => PrefixFits5(v);
      case 6 => PrefixFits6(v);
      case 7 => PrefixFits7(v);
      case 8 => PrefixFits8(v);
      case 9 => PrefixFits9(v);
      case _ => PrefixAll(v);
    }
  }

  // Byte i of the encoding.
  lemma {:induction false} EncodedByte(v: Word, i: nat)
    requires i < Size(v)
    ensures Encode(v)[i] == if i == Size(v) - 1 then LastByte(Drop(v, i)) else MoreByte(Drop(v, i))
    decreases i
  {
    hide Drop, Rest, LastByte, MoreByte, Size;
    RestIsShorter(v);
    DropNone(v);
    if i > 0 {
      EncodedByte(Rest(v), i - 1);
      DropRest(v, i - 1);
    }
  }

  lemma {:induction false} EncodedPrefix(v: Word, k: nat)
    requires k <= Size(v)
    ensures Value(Encode(v)[..k]) == Prefix(v, k)
  {
    hide Or, Place, Widen, LastByte, MoreByte, Drop, Size, Encode;
    if k == 0 {
      PrefixNone(v);
    } else {
      hide Prefix;
      EncodedPrefix(v, k - 1);
      EncodedByte(v, k - 1);
      PrefixStep(v, k - 1, Encode(v)[k - 1]);
      assert Encode(v)[..k][..k - 1] == Encode(v)[..k - 1];
    }
  }

  lemma PrefixNone(v: Word) ensures Prefix(v, 0) == ZERO {}

  // The encoding of a number is a terminated string of at most ten bytes with that value.
  lemma {:induction false} EncodeDecodes(v: Word)
    ensures Terminated(Encode(v)) && Value(Encode(v)) == v
  {
    hide More, Widen, LastByte, MoreByte, Drop, Size, Encode, Prefix, Value;
    forall i | 0 <= i < Size(v) ensures More(Widen(Encode(v)[i])) <==> i < Size(v) - 1 {
      EncodedByte(v, i);
      ByteBits(Drop(v, i));
    }
    EncodedPrefix(v, Size(v));
    PrefixFits(v);
    assert Encode(v)[..Size(v)] == Encode(v);
  }

  lemma EncodeUnfolds(v: Word)
    ensures Encode(v)[0] == if Rest(v) != ZERO then MoreByte(v) else LastByte(v)
    ensures Rest(v) != ZERO ==> Encode(v)[1..] == Encode(Rest(v)) && Size(Rest(v)) == Size(v) - 1
    ensures Rest(v) == ZERO ==> Size(v) == 1
  {
  }

  // encode_uleb128: writes the encoding at ptr and nothing else.
  method EncodeUleb128(value: Word, buf: array<bv8>, ptr: nat) returns (n: nat)
    requires ptr + Size(value) <= buf.Length
    modifies buf
    ensures n == Size(value) && buf[ptr..ptr + n] == Encode(value)
    ensures forall j :: 0 <= j < ptr || ptr + n <= j < buf.Length ==> buf[j] == old(buf[j])
  {
    hide LastByte, MoreByte, Rest, Size, Encode;
    var v := value;
    n := 0;
    ghost var all := Encode(value);
    var done := false;
    while !done
      invariant n <= |all| && ptr + |all| <= buf.Length
      invariant if done then n == |all| else all[n..] == Encode(v)
      invariant forall j :: ptr <= j < ptr + n ==> buf[j] == all[j - ptr]
      invariant forall j :: 0 <= j < ptr || ptr + n <= j < buf.Length ==> buf[j] == old(buf[j])
      decreases if done then 0 else Size(v)
    {
      EncodeUnfolds(v);
      var rest := Rest(v);
      var byte := if rest != ZERO then MoreByte(v) else LastByte(v);
      assert byte == all[n..][0] == all[n];
      buf[ptr + n] := byte;
      n := n + 1;
      assert all[n..] == all[n - 1..][1..];
      done := rest == ZERO;
      v := rest;
    }
  }

  // ---- The simple decoder ----------------------------------------------------------------------

  function Accumulate(result: Word, byte: bv8, shift: bv7): Word
    requires shift <= 63
  {
    Word(result.bits | (((byte & 0x7f) as bv64) << shift))
  }

  lemma AccumulateIs(result: Word, byte: bv8, i: nat)
    requires i < 10
    ensures Accumulate(result, byte, Shift(i)) == Or(result, Place(Widen(byte), i))
  {
  }

  lemma NextShift(i: nat)
    requires i < 9
    ensures Shift(i + 1) == Shift(i) + 7
  {
  }

  predicate Continues(byte: bv8) { byte & 0x80 != 0 }

  lemma ContinuesIsMore(byte: bv8) ensures Continues(byte) <==> More(Widen(byte)) {}

  lemma NoBytes(buf: seq<bv8>, p: nat)
    requires p <= |buf|
    ensures Value(buf[p..p]) == ZERO
  {
  }

  lemma ValueStep(buf: seq<bv8>, p: nat, i: nat)
    requires i < MAX_BYTES && p + i < |buf|
    ensures Value(buf[p..p + i + 1]) == Or(Value(buf[p..p + i]), Place(Widen(buf[p + i]), i))
  {
    hide Or, Place, Widen;
    assert buf[p..p + i + 1][..i] == buf[p..p + i];
  }

  lemma EndsWhere(buf: seq<bv8>, p: nat, n: nat, i: nat)
    requires EncodingAt(buf, p, n) && i < n
    ensures More(Widen(buf[p + i])) <==> i < n - 1
  {
  }

  // parse_simple
  method ParseSimple(buf: seq<bv8>, ptr: nat, ghost n: nat) returns (result: Word, next: nat)
    requires EncodingAt(buf, ptr, n)
    ensures next == ptr + n && result == Value(buf[ptr..ptr + n])
  {
    hide Accumulate, Or, Place, Widen, More, Continues, Shift, Value, Terminated;
    result := ZERO;
    assert Value(buf[ptr..ptr]) == ZERO by { NoBytes(buf, ptr); }
    var shift: bv7 := 0;
    next := ptr;
    var more := true;
    ghost var i := 0;
    assert shift == Shift(0) by { FirstShift(); }
    while more
      invariant next == ptr + i && i <= n
      invariant result == Value(buf[ptr..ptr + i])
      invariant more ==> i < n && shift == Shift(i)
      invariant !more ==> i == n
      decreases if more then n - i else 0, more
    {
      var byte := buf[next];
      AccumulateIs(result, byte, i);
      ContinuesIsMore(byte);
      ValueStep(buf, ptr, i);
      EndsWhere(buf, ptr, n, i);
      result := Accumulate(result, byte, shift);
      next := next + 1;
      more := Continues(byte);
      i := i + 1;
      if i < n {
        NextShift(i - 1);
      }
      shift := shift + 7;
    }
  }

  lemma FirstShift()
    ensures Shift(0) == 0
  {
  }

  // ---- The fast decoders -----------------------------------------------------------------------

  // How far a decoder reads from the start of an encoding of n bytes.
  function BytesRead(decoder: Decoder, n: nat): (r: nat)
    requires n <= MAX_BYTES
    ensures n <= r <= 16
  {
    match decoder
    case ParseHybrid => if n <= 8 then 8 else 10
    case ParseBranchless => if n <= 8 then 8 else 16
    case _ => 16
  }

  // A load of two bytes.
  function Load16(buf: seq<bv8>, p: nat): Word
    requires p + 2 <= |buf|
  {
    Word((buf[p] as bv64) | ((buf[p + 1] as bv64) << 8))
  }

  predicate AllContinue(one: Word) { one.bits & 0x8080_8080_8080_8080 == 0x8080_8080_8080_8080 }

  lemma AllContinueIs(one: bv64, two: bv64, n: nat)
    requires n <= 10 && EndsAt(one, two, n)
    ensures AllContinue(Word(one)) <==> n > 8
  {
  }

  lemma ContinueAndIndex(one: Word, two: Word, n: nat)
    requires Ends(one, two, n)
    ensures (AllContinue(one) <==> n > 8) && (Index(one.bits) < 8 <==> n <= 8)
  {
    hide EndsAt, Index, AllContinue;
    EndsIsEndsAt(one, two, n);
    AllContinueIs(one.bits, two.bits, n);
    FirstEnd(one.bits, two.bits, n);
  }

  lemma Load16Joins(b0: bv8, b1: bv8)
    ensures Word((b0 as bv64) | ((b1 as bv64) << 8)) == Join(Widen(b0), Widen(b1), ZERO, ZERO, ZERO, ZERO, ZERO, ZERO)
  {
  }

  lemma NothingJoins()
    ensures Join(ZERO, ZERO, ZERO, ZERO, ZERO, ZERO, ZERO, ZERO) == ZERO && Widen(0) == ZERO
  {
  }

  // What a decoder may read, followed by zeros.
  function Padded(buf: seq<bv8>, ptr: nat, k: nat): (r: seq<bv8>)
    requires k <= 16 && ptr + k <= |buf|
    ensures |r| == 16 && r[..k] == buf[ptr..ptr + k] && forall i :: k <= i < 16 ==> r[i] == 0
  {
    buf[ptr..ptr + k] + seq(16 - k, _ => 0)
  }

  lemma PaddedHolds(buf: seq<bv8>, ptr: nat, k: nat, n: nat)
    requires k <= 16 && ptr + k <= |buf| && n <= k && EncodingAt(buf, ptr, n)
    ensures var pad := Padded(buf, ptr, k);
            Ends(Load(pad, 0), Load(pad, 8), n) && Groups(Load(pad, 0), Load(pad, 8), n) == Value(buf[ptr..ptr + n])
  {
    hide Load, Value, Terminated, Ends, Groups;
    var pad := Padded(buf, ptr, k);
    assert pad[0..0 + n] == pad[..k][..n] == buf[ptr..ptr + n];
    LoadedEnds(pad, 0, n);
    LoadedValue(pad, 0, n);
  }

  lemma PaddedLoads(buf: seq<bv8>, ptr: nat, k: nat)
    requires (k == 8 || k == 10 || k == 16) && ptr + k <= |buf|
    ensures var pad := Padded(buf, ptr, k);
            && Load(pad, 0) == Load(buf, ptr)
            && Load(pad, 8) == if k == 8 then ZERO else if k == 10 then Load16(buf, ptr + 8) else Load(buf, ptr + 8)
  {
    hide Join, Widen;
    NothingJoins();
    var pad := Padded(buf, ptr, k);
    assert forall i :: 0 <= i < k ==> pad[i] == pad[..k][i] == buf[ptr + i];
    if k == 10 {
      Load16Joins(buf[ptr + 8], buf[ptr + 9]);
    }
  }

  // What the decoder loads, and no more.
  method LoadFor(decoder: Decoder, buf: seq<bv8>, ptr: nat, ghost n: nat) returns (one: Word, two: Word)
    requires EncodingAt(buf, ptr, n) && ptr + BytesRead(decoder, n) <= |buf|
    ensures Ends(one, two, n) && Groups(one, two, n) == Value(buf[ptr..ptr + n])
  {
    hide Load, Load16, Groups, Ends, Value, Terminated, Index, AllContinue, Padded;
    ghost var k := BytesRead(decoder, n);
    PaddedHolds(buf, ptr, k, n);
    PaddedLoads(buf, ptr, k);
    ContinueAndIndex(Load(Padded(buf, ptr, k), 0), Load(Padded(buf, ptr, k), 8), n);
    one := Load(buf, ptr);
    match decoder
    case ParseHybrid => two := if AllContinue(one) then Load16(buf, ptr + 8) else ZERO;
    case ParseBranchless => two := if Index(one.bits) < 8 then ZERO else Load(buf, ptr + 8);
    case _ => two := Load(buf, ptr + 8);
  }

  // What follows the encoding does not matter.
  method ParseFast(decoder: Decoder, buf: seq<bv8>, ptr: nat, ghost n: nat) returns (result: Word, next: nat)
    requires EncodingAt(buf, ptr, n) && ptr + BytesRead(decoder, n) <= |buf|
    ensures next == ptr + n && result == Value(buf[ptr..ptr + n])
  {
    hide Fast, Groups, Ends, Value, Terminated, BytesRead;
    var one, two := LoadFor(decoder, buf, ptr, n);
    FastCorrect(decoder, one, two, n);
    var r := Fast(decoder, one, two);
    result := r.0;
    next := ptr + r.1;
  }

  // ---- Streams ---------------------------------------------------------------------------------

  function EncodeAll(values: seq<Word>): seq<bv8> {
    if values == [] then [] else Encode(values[0]) + EncodeAll(values[1..])
  }

  // In a stream of encodings, the first value's encoding comes first.
  lemma StreamHead(buf: seq<bv8>, ptr: nat, values: seq<Word>)
    requires values != [] && ptr <= |buf| && EncodeAll(values) <= buf[ptr..]
    ensures
      var n := Size(values[0]);
      && EncodingAt(buf, ptr, n) && Value(buf[ptr..ptr + n]) == values[0]
      && EncodeAll(values[1..]) <= buf[ptr + n..]
  {
    hide Encode, Terminated, Value, Size;
    var n := Size(values[0]);
    EncodeDecodes(values[0]);
    var head, tail := Encode(values[0]), EncodeAll(values[1..]);
    assert buf[ptr..][..n] == head;
    assert buf[ptr..ptr + n] == buf[ptr..][..n];
    assert buf[ptr + n..] == buf[ptr..][n..];
    assert tail == EncodeAll(values)[n..];
  }

  lemma {:induction false} EncodedLength(values: seq<Word>)
    ensures values != [] ==> |EncodeAll(values)| > 0
  {
  }

  // How many bytes there must be after a stream.
  function Spare(decoder: Decoder): nat {
    if decoder.ParseHybrid? || decoder.ParseBranchless? then 7 else 15
  }

  // Decoding a stream of encodings with any fast decoder gives back the numbers. The buffer has spare bytes after the
  // stream, holding anything.
  method DecodeStream(decoder: Decoder, buf: seq<bv8>, end: nat, ghost values: seq<Word>) returns (decoded: seq<Word>)
    requires end + Spare(decoder) <= |buf| && buf[..end] == EncodeAll(values)
    ensures decoded == values
  {
    hide Encode, Size, Value, Terminated;
    var ptr := 0;
    decoded := [];
    ghost var k := 0;
    assert values[0..] == values;
    while ptr < end
      invariant ptr <= end && k <= |values|
      invariant decoded == values[..k]
      invariant buf[ptr..end] == EncodeAll(values[k..])
      decreases end - ptr
    {
      ghost var rest := values[k..];
      assert buf[ptr..][..end - ptr] == buf[ptr..end];
      StreamHead(buf, ptr, rest);
      ghost var n := Size(rest[0]);
      var value, next := ParseFast(decoder, buf, ptr, n);
      assert buf[next..end] == buf[ptr..end][n..];
      assert rest[1..] == values[k + 1..];
      decoded := decoded + [value];
      ptr := next;
      k := k + 1;
    }
    if k < |values| {
      EncodedLength(values[k..]);
    }
  }
}
