/** Small definitions that several modules share. */
module Basics {

  datatype Option<+T> = None | Some(value: T)

  function MinNat(a: nat, b: nat): nat { if a < b then a else b }

  function MaxNat(a: nat, b: nat): nat { if a > b then a else b }

  /** A position that stays inside one block, sector or other unit. */
  lemma SameUnit(position: nat, k: nat, unit: nat)
    requires unit > 0 && position % unit + k < unit
    ensures (position + k) / unit == position / unit && (position + k) % unit == position % unit + k
  {
    var q, r := position / unit, position % unit + k;
    assert position + k == q * unit + r;
    QuotientOf(q, r, unit);
  }

  lemma QuotientOf(q: nat, r: nat, unit: nat)
    requires r < unit
    ensures (q * unit + r) / unit == q && (q * unit + r) % unit == r
  {
    var n := q * unit + r;
    assert (n / unit - q) * unit == r - n % unit;
    MultipleAtLeast(n / unit - q, unit);
  }

  lemma MultipleAtLeast(k: int, unit: nat)
    ensures k >= 1 ==> k * unit >= unit
    ensures k <= -1 ==> k * unit <= 0 - unit
  {
  }
}
