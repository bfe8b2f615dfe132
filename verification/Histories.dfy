/** Facts that start with one kind of event and end with another. */
module Histories {

  /** Event `i` starts it, and none after it and before `n` ends it. */
  ghost predicate LastsFrom(starts: int -> bool, ends: int -> bool, i: int, n: int) {
    starts(i) && forall j | i < j < n :: !ends(j)
  }

  ghost predicate Lasts(starts: int -> bool, ends: int -> bool, n: int) {
    exists i :: 0 <= i < n && LastsFrom(starts, ends, i, n)
  }

  lemma LastsNext(starts: int -> bool, ends: int -> bool, n: nat)
    ensures Lasts(starts, ends, n + 1) <==> starts(n) || (!ends(n) && Lasts(starts, ends, n))
  {
    if Lasts(starts, ends, n) && !ends(n) {
      var i :| 0 <= i < n && LastsFrom(starts, ends, i, n);
      assert LastsFrom(starts, ends, i, n + 1);
    }
    if starts(n) {
      assert LastsFrom(starts, ends, n, n + 1);
    }
    if Lasts(starts, ends, n + 1) && !starts(n) {
      var i :| 0 <= i < n + 1 && LastsFrom(starts, ends, i, n + 1);
      assert LastsFrom(starts, ends, i, n);
    }
  }

  /** Something that no event but these two kinds changes holds exactly if it has been started and not ended since. */
  lemma {:induction false} HoldsIffLasts(starts: int -> bool, ends: int -> bool, holds: int -> bool, n: nat)
    requires !holds(0)
    requires forall k | 0 <= k < n :: holds(k + 1) <==> starts(k) || (!ends(k) && holds(k))
    ensures holds(n) <==> Lasts(starts, ends, n)
  {
    if n > 0 {
      HoldsIffLasts(starts, ends, holds, n - 1);
      LastsNext(starts, ends, n - 1);
      assert holds((n - 1) + 1) <==> starts(n - 1) || (!ends(n - 1) && holds(n - 1));
    }
  }
}
