/** Binary search over a predicate, as the standard library's `sort.Search` does it. */
module Search {

  /** Once the predicate holds it keeps holding. */
  ghost predicate Upward(n: nat, holds: nat -> bool) {
    forall i: nat, j: nat :: i <= j < n && holds(i) ==> holds(j)
  }

  /** The first index below `n` where an upward predicate holds, or `n`. */
  function FirstIndex(n: nat, holds: nat -> bool): (i: nat)
    requires Upward(n, holds)
    ensures i <= n
    ensures i < n ==> holds(i)
    ensures forall k: nat :: k < i ==> !holds(k)
  {
    Bisect(0, n, n, holds)
  }

  function Bisect(lo: nat, hi: nat, n: nat, holds: nat -> bool): (i: nat)
    requires lo <= hi <= n && Upward(n, holds)
    requires forall k: nat :: k < lo ==> !holds(k)
    requires hi < n ==> holds(hi)
    ensures lo <= i <= hi
    ensures i < n ==> holds(i)
    ensures forall k: nat :: k < i ==> !holds(k)
    decreases hi - lo
  {
    if lo == hi then lo
    else
      var middle := (lo + hi) / 2;
      if holds(middle) then Bisect(lo, middle, n, holds) else Bisect(middle + 1, hi, n, holds)
  }
}
