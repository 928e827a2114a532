// Rounding to multiples. The source masks with powers of two; this is what the masks compute.
module Alignment {
  predicate Aligned(x: nat, unit: nat)
    requires unit > 0
  {
    x % unit == 0
  }

  function RoundDown(x: nat, unit: nat): (r: nat)
    requires unit > 0
    ensures r <= x < r + unit && Aligned(r, unit)
  {
    var r := (x / unit) * unit;
    Multiple(x / unit, unit);
    r
  }

  function RoundUp(x: nat, unit: nat): (r: nat)
    requires unit > 0
    ensures x <= r < x + unit && Aligned(r, unit)
  {
    RoundDown(x + unit - 1, unit)
  }

  lemma Multiple(q: nat, unit: nat)
    requires unit > 0
    ensures Aligned(q * unit, unit)
  {
    var x := q * unit;
    var d, r := x / unit, x % unit;
    assert (q - d) * unit == r;
    if q > d {
      AtLeastOnce(q - d, unit);
    } else if q < d {
      AtLeastOnce(d - q, unit);
    }
  }

  lemma AtLeastOnce(k: nat, unit: nat)
    requires k > 0
    ensures k * unit >= unit
  {
  }

  lemma {:induction false} AlignedSum(x: nat, y: nat, unit: nat)
    requires unit > 0 && Aligned(x, unit) && Aligned(y, unit)
    ensures Aligned(x + y, unit)
  {
    var a, b := x / unit, y / unit;
    assert x + y == (a + b) * unit;
    Multiple(a + b, unit);
  }

  lemma NothingAligned(unit: nat)
    requires unit > 0
    ensures Aligned(0, unit)
  {
  }
}
