/** Removal from a slice of an array. */
module Slices {

  /** `append(a[:i], a[i+1:]...)` where the slice is the first `m` slots of the array. */
  method ShiftLeft<T>(a: array<T>, i: nat, m: nat)
    requires i < m <= a.Length
    modifies a
    ensures forall k | 0 <= k < a.Length :: a[k] == old(a[..])[if i <= k < m - 1 then k + 1 else k]
    ensures a[..m - 1] == old(a[..i]) + old(a[i + 1..m])
  {
    ghost var before := a[..];
    for j := i to m - 1
      invariant forall k | 0 <= k < a.Length :: a[k] == before[if i <= k < j then k + 1 else k]
    {
      a[j] := a[j + 1];
    }
    ShiftedPrefix(before, a[..], i, m);
  }

  lemma ShiftedPrefix<T>(before: seq<T>, after: seq<T>, i: nat, m: nat)
    requires i < m <= |before| == |after|
    requires forall k | 0 <= k < |after| :: after[k] == before[if i <= k < m - 1 then k + 1 else k]
    ensures after[..m - 1] == before[..i] + before[i + 1..m]
  {}
}
