// Names made unique by suffixes that keep them sorted (DisambiguatingSuffixes in src/arena.rs).
module Names {
  import opened Bytes

  type Name = seq<byte>

  const HASH: byte := 35
  const ZERO: byte := 48

  // ---- The order of byte strings ---------------------------------------------------------------

  predicate Less(a: Name, b: Name) {
    b != [] && (a == [] || a[0] < b[0] || (a[0] == b[0] && Less(a[1..], b[1..])))
  }

  lemma {:induction false} LessTransitive(a: Name, b: Name, c: Name)
    requires Less(a, b) && Less(b, c)
    ensures Less(a, c)
  {
    if a != [] && a[0] == b[0] == c[0] {
      LessTransitive(a[1..], b[1..], c[1..]);
    }
  }

  lemma {:induction false} LessIrreflexive(a: Name)
    ensures !Less(a, a)
  {
    if a != [] {
      LessIrreflexive(a[1..]);
    }
  }

  lemma {:induction false} LessTotal(a: Name, b: Name)
    ensures a == b || Less(a, b) || Less(b, a)
  {
    if a != [] && b != [] && a[0] == b[0] {
      LessTotal(a[1..], b[1..]);
      assert a == [a[0]] + a[1..] && b == [b[0]] + b[1..];
    }
  }

  // A common prefix does not matter.
  lemma {:induction false} LessAfterPrefix(p: Name, a: Name, b: Name)
    ensures Less(p + a, p + b) <==> Less(a, b)
  {
    if p == [] {
      assert p + a == a && p + b == b;
    } else {
      assert (p + a)[1..] == p[1..] + a && (p + b)[1..] == p[1..] + b;
      LessAfterPrefix(p[1..], a, b);
    }
  }

  // Different strings of equal length are decided before anything that follows.
  lemma {:induction false} LessThenAnything(a: Name, b: Name, x: Name, y: Name)
    requires |a| == |b| && Less(a, b)
    ensures Less(a + x, b + y)
  {
    assert a[0] == b[0] ==> (a + x)[1..] == a[1..] + x && (b + y)[1..] == b[1..] + y;
    if a[0] == b[0] {
      LessThenAnything(a[1..], b[1..], x, y);
    }
  }

  // ---- Decimal suffixes ------------------------------------------------------------------------

  function Pow10(n: nat): nat { if n == 0 then 1 else 10 * Pow10(n - 1) }

  // Decimal digits of a number: what the base-10 logarithm of n + 1, rounded up, stands for.
  function DigitCount(n: nat): (d: nat)
    ensures d > 0
  {
    if n < 10 then 1 else 1 + DigitCount(n / 10)
  }

  lemma {:induction false} DigitCountFits(n: nat)
    ensures n < Pow10(DigitCount(n))
  {
    if n >= 10 {
      DigitCountFits(n / 10);
    }
  }

  lemma {:induction false} DigitCountMonotone(m: nat, n: nat)
    requires m <= n
    ensures DigitCount(m) <= DigitCount(n)
  {
    if m >= 10 {
      DigitCountMonotone(m / 10, n / 10);
    }
  }

  // The last `width` decimal digits.
  function Digits(n: nat, width: nat): (s: Name)
    ensures |s| == width
  {
    if width == 0 then [] else Digits(n / 10, width - 1) + [ZERO + n % 10]
  }

  // {:0>width}: padded with zeros on the left, never cut.
  function Padded(n: nat, width: nat): Name {
    var d := DigitCount(n);
    Digits(n, if width > d then width else d)
  }

  // Zero-padded numbers of one length are ordered like the numbers.
  lemma {:induction false} DigitsOrdered(m: nat, n: nat, width: nat)
    requires m < n < Pow10(width)
    ensures Less(Digits(m, width), Digits(n, width))
  {
    if width > 0 {
      var x, y := Digits(m / 10, width - 1), Digits(n / 10, width - 1);
      if m / 10 < n / 10 {
        DigitsOrdered(m / 10, n / 10, width - 1);
        LessThenAnything(x, y, [ZERO + m % 10], [ZERO + n % 10]);
      } else {
        assert x == y && m % 10 < n % 10;
        LessAfterPrefix(x, [ZERO + m % 10], [ZERO + n % 10]);
      }
    }
  }

  // The name of the idx-th of `count` equal names.
  function SuffixDigits(count: nat): nat {
    if count > 1 then DigitCount(count) else 0
  }

  function Suffix(idx: nat, count: nat): Name {
    if idx == 0 then [] else [HASH] + Padded(idx + 1, SuffixDigits(count))
  }

  function Suffixed(s: Name, idx: nat, count: nat): Name { s + Suffix(idx, count) }

  // Suffixes in a group have one length and are ordered like the indices.
  lemma SuffixesOrdered(i: nat, j: nat, count: nat)
    requires i < j < count
    ensures Less(Suffix(i, count), Suffix(j, count))
  {
    if i > 0 {
      var width := SuffixDigits(count);
      DigitCountMonotone(i + 1, count);
      DigitCountMonotone(j + 1, count);
      DigitCountFits(count);
      DigitsOrdered(i + 1, j + 1, width);
      LessAfterPrefix([HASH], Padded(i + 1, width), Padded(j + 1, width));
    }
  }

  // The number that decimal digits stand for.
  function Number(s: Name): int {
    if s == [] then 0 else 10 * Number(s[..|s| - 1]) + s[|s| - 1] - ZERO
  }

  lemma {:induction false} DigitsRead(n: nat, width: nat)
    requires n < Pow10(width)
    ensures Number(Digits(n, width)) == n && forall i :: 0 <= i < width ==> ZERO <= Digits(n, width)[i] <= ZERO + 9
  {
    if width > 0 {
      DigitsRead(n / 10, width - 1);
      assert Digits(n, width)[..width - 1] == Digits(n / 10, width - 1);
    }
  }

  // The first name of a group stays as it is; the others get a hash sign and their number, from 2 up, in as many digits
  // as the size of the group has.
  lemma SuffixReads(idx: nat, count: nat)
    requires idx < count
    ensures idx == 0 ==> Suffix(idx, count) == []
    ensures idx > 0 ==>
              var s := Suffix(idx, count);
              && |s| > 1 && s[0] == HASH && Number(s[1..]) == idx + 1
              && (forall i :: 1 <= i < |s| ==> ZERO <= s[i] <= ZERO + 9)
              && Pow10(|s| - 2) <= count < Pow10(|s| - 1)
  {
    if idx > 0 {
      var width := DigitCount(count);
      DigitCountMonotone(idx + 1, count);
      DigitCountFits(count);
      DigitCountLeast(count);
      DigitsRead(idx + 1, width);
      assert Suffix(idx, count)[1..] == Digits(idx + 1, width);
    }
  }

  lemma {:induction false} DigitCountLeast(n: nat)
    requires n > 0
    ensures Pow10(DigitCount(n) - 1) <= n
  {
    if n >= 10 {
      DigitCountLeast(n / 10);
    }
  }

  // ---- Lists of names --------------------------------------------------------------------------

  ghost predicate AboveHash(s: Name) { forall i :: 0 <= i < |s| ==> s[i] > HASH }

  // Appending x to the smaller of two names keeps the order unless that name is a prefix of the other.
  lemma {:induction false} OrderAfterSuffix(a: Name, b: Name, x: Name)
    requires Less(a, b)
    ensures Less(a + x, b) <==> (a <= b ==> Less(x, b[|a|..]))
  {
    if a == [] {
      assert a + x == x && b[|a|..] == b;
    } else if a[0] == b[0] {
      assert (a + x)[1..] == a[1..] + x;
      assert a <= b <==> a[1..] <= b[1..];
      OrderAfterSuffix(a[1..], b[1..], x);
      assert a <= b ==> b[|a|..] == b[1..][|a[1..]|..];
    }
  }

  ghost predicate SortedNames(names: seq<Name>) {
    forall i, j :: 0 <= i < j < |names| ==> names[i] == names[j] || Less(names[i], names[j])
  }

  ghost predicate StrictlySorted(names: seq<Name>) {
    forall i, j :: 0 <= i < j < |names| ==> Less(names[i], names[j])
  }

  // The group of equal names around position i.
  function First(names: seq<Name>, i: nat): (f: nat)
    requires i < |names|
    ensures f <= i && forall k :: f <= k <= i ==> names[k] == names[i]
  {
    if i > 0 && names[i - 1] == names[i] then First(names, i - 1) else i
  }

  function End(names: seq<Name>, i: nat): (e: nat)
    requires i < |names|
    ensures i < e <= |names| && forall k :: i <= k < e ==> names[k] == names[i]
    decreases |names| - i
  {
    if i + 1 < |names| && names[i + 1] == names[i] then End(names, i + 1) else i + 1
  }

  function FinalName(names: seq<Name>, i: nat): Name
    requires i < |names|
  {
    Suffixed(names[i], i - First(names, i), End(names, i) - First(names, i))
  }

  function Disambiguated(names: seq<Name>): (out: seq<Name>)
    ensures |out| == |names|
  {
    seq(|names|, i requires 0 <= i < |names| => FinalName(names, i))
  }

  // The last name of a group of two or more, with its suffix, is not less than the next group's name: that
  // name is the same text followed by something not greater than the suffix.
  predicate Clash(names: seq<Name>, i: nat) {
    i + 1 < |names| &&
    var count := End(names, i) - First(names, i);
    && names[i] != names[i + 1] && count > 1 && names[i] <= names[i + 1]
    && !Less(Suffix(count - 1, count), names[i + 1][|names[i]|..])
  }

  predicate NoClash(names: seq<Name>) {
    forall i :: 0 <= i < |names| ==> !Clash(names, i)
  }

  lemma NeighboursOrdered(names: seq<Name>, i: nat)
    requires SortedNames(names) && i + 1 < |names|
    ensures Less(FinalName(names, i), FinalName(names, i + 1)) <==> !Clash(names, i)
  {
    hide Less, Suffix;
    var first, end := First(names, i), End(names, i);
    if names[i] == names[i + 1] {
      SuffixesOrdered(i - first, i + 1 - first, end - first);
      LessAfterPrefix(names[i], Suffix(i - first, end - first), Suffix(i + 1 - first, end - first));
    } else {
      NoSuffix(end - first);
      NoSuffix(End(names, i + 1) - (i + 1));
      assert FinalName(names, i + 1) == names[i + 1];
      OrderAfterSuffix(names[i], names[i + 1], Suffix(i - first, end - first));
      if i == first && names[i] <= names[i + 1] {
        NothingIsLeast(names[i + 1][|names[i]|..]);
      }
    }
  }

  lemma NoSuffix(count: nat)
    ensures Suffix(0, count) == []
  {
  }

  lemma NothingIsLeast(s: Name)
    ensures s != [] ==> Less([], s)
  {
  }

  lemma {:induction false} LaterIsGreater(names: seq<Name>, i: nat, j: nat)
    requires SortedNames(names) && i < j < |names| && NoClash(names)
    ensures Less(FinalName(names, i), FinalName(names, j))
    decreases j
  {
    hide Less, FinalName, Clash;
    NeighboursOrdered(names, j - 1);
    if i < j - 1 {
      LaterIsGreater(names, i, j - 1);
      LessTransitive(FinalName(names, i), FinalName(names, j - 1), FinalName(names, j));
    }
  }

  lemma LastClashesNot(names: seq<Name>, i: nat)
    requires i + 1 >= |names|
    ensures !Clash(names, i)
  {
  }

  // A sorted list stays sorted, and has no duplicates left, if and only if no two neighbouring groups clash.
  lemma DisambiguatedSortedIff(names: seq<Name>)
    requires SortedNames(names)
    ensures StrictlySorted(Disambiguated(names)) <==> NoClash(names)
  {
    hide Less, FinalName, Clash;
    var final := Disambiguated(names);
    if NoClash(names) {
      forall i, j | 0 <= i < j < |names| ensures Less(final[i], final[j]) {
        LaterIsGreater(names, i, j);
      }
    }
    if StrictlySorted(final) {
      forall i | 0 <= i < |names| ensures !Clash(names, i) {
        if i + 1 < |names| {
          assert Less(final[i], final[i + 1]);
          NeighboursOrdered(names, i);
        } else {
          LastClashesNot(names, i);
        }
      }
    }
  }

  // Names that use only bytes greater than '#' never clash: what the comment in the source relies on.
  lemma AboveHashNoClash(names: seq<Name>)
    requires SortedNames(names) && forall i :: 0 <= i < |names| ==> AboveHash(names[i])
    ensures NoClash(names)
  {
    hide First, End;
    forall i | 0 <= i < |names| ensures !Clash(names, i) {
      if i + 1 < |names| && names[i] != names[i + 1] && names[i] <= names[i + 1] {
        assert names[i + 1][|names[i]|..][0] > HASH;
      }
    }
  }

  // With '#' in a name the promise fails: two results are equal.
  lemma HashInNameCollides()
    ensures
      var names: seq<Name> := [[97], [97], [97, HASH, 50]];
      SortedNames(names) && Disambiguated(names)[1] == Disambiguated(names)[2]
  {
  }

  // So does a space: "a#2" comes after "a b".
  lemma SpaceInNameUnsorts()
    ensures
      var names: seq<Name> := [[97], [97], [97, 32, 98]];
      SortedNames(names) && Less(Disambiguated(names)[2], Disambiguated(names)[1])
  {
    var names: seq<Name> := [[97], [97], [97, 32, 98]];
    assert Less([97], [97, 32, 98]) by { LessAfterPrefix([97], [], [32, 98]); }
    assert First(names, 0) == 0 && First(names, 1) == 0 && First(names, 2) == 2;
    assert End(names, 2) == 3 && End(names, 1) == 2;
    assert DigitCount(2) == 1 && Digits(2, 1) == Digits(0, 0) + [50] == [50];
    assert Suffixed([97], 1, 2) == [97] + [HASH, 50] == [97, HASH, 50];
    assert Suffixed([97, 32, 98], 0, 1) == [97, 32, 98];
    LessAfterPrefix([97], [32, 98], [HASH, 50]);
    assert [97] + [32, 98] == [97, 32, 98];
  }
}
