/**
 Packet filtering around a tun device (iface/device_wrapper.go): `Read` compacts the caller's buffers in
 place, `Write` forwards the packets that pass.
 */
module Batch {
  import opened Wrappers
  import opened Bytes
  import opened Slices

  /** A buffer slot's content: which buffer it is, and the bytes in it. */
  datatype Buffer = Buffer(id: nat, bytes: seq<Byte>)

  type Filter = seq<Byte> -> bool

  /** A packet filter and the packets it has been asked about, in order. */
  class PacketFilter {
    const drops: Filter
    ghost var asked: seq<seq<Byte>>

    constructor (drops: Filter)
      ensures this.drops == drops && asked == []
    {
      this.drops := drops;
      asked := [];
    }

    /** `DropOutgoing` and `DropIncoming`. */
    method Drop(packet: seq<Byte>) returns (dropped: bool)
      modifies this`asked
      ensures dropped == drops(packet)
      ensures asked == old(asked) + [packet]
    {
      asked := asked + [packet];
      dropped := drops(packet);
    }
  }

  predicate InBounds(b: Buffer, offset: nat, size: int) {
    0 <= size && offset + size <= |b.bytes|
  }

  function PacketIn(b: Buffer, offset: nat, size: int): seq<Byte>
    requires InBounds(b, offset, size)
  {
    b.bytes[offset..offset + size]
  }

  /** The packets of a batch. */
  function Packets(bufs: seq<Buffer>, sizes: seq<int>, offset: nat, n: nat): (r: seq<seq<Byte>>)
    requires n <= |bufs| && n <= |sizes| && forall i | 0 <= i < n :: InBounds(bufs[i], offset, sizes[i])
    ensures |r| == n
    ensures forall i | 0 <= i < n :: InBounds(bufs[i], offset, sizes[i]) && r[i] == bufs[i].bytes[offset..offset + sizes[i]]
  {
    seq(n, i requires 0 <= i < n => PacketIn(bufs[i], offset, sizes[i]))
  }

  /** The elements whose packet is not dropped, in order. */
  function Kept<T>(xs: seq<T>, packets: seq<seq<Byte>>, drop: Filter): (r: seq<T>)
    requires |xs| == |packets|
    ensures |r| <= |xs|
  {
    if xs == [] then []
    else (if drop(packets[0]) then [] else [xs[0]]) + Kept(xs[1..], packets[1..], drop)
  }

  /** `at` lists the positions of the packets that are not dropped, in order, and `kept` the elements there. */
  ghost predicate KeptAt<T>(kept: seq<T>, at: seq<nat>, xs: seq<T>, packets: seq<seq<Byte>>, drop: Filter)
    requires |xs| == |packets|
  {
    && |at| == |kept|
    && (forall k | 0 <= k < |at| :: at[k] < |xs| && !drop(packets[at[k]]) && kept[k] == xs[at[k]])
    && (forall k, l | 0 <= k < l < |at| :: at[k] < at[l])
    && (forall i | 0 <= i < |xs| && !drop(packets[i]) :: i in at)
  }

  lemma KeptAtNext<T>(kept: seq<T>, at: seq<nat>, xs: seq<T>, packets: seq<seq<Byte>>, drop: Filter, x: T, p: seq<Byte>)
    requires |xs| == |packets| && KeptAt(kept, at, xs, packets, drop)
    ensures if drop(p) then KeptAt(kept, at, xs + [x], packets + [p], drop)
            else KeptAt(kept + [x], at + [|xs|], xs + [x], packets + [p], drop)
  {
    var n := |xs|;
    if !drop(p) {
      assert (at + [n])[|at|] == n;
      assert forall i | i in at :: i in at + [n];
    }
  }

  /** Kept are exactly the elements at the positions whose packet is not dropped, in their order. */
  lemma {:induction false} KeptPositions<T>(xs: seq<T>, packets: seq<seq<Byte>>, drop: Filter) returns (at: seq<nat>)
    requires |xs| == |packets|
    ensures KeptAt(Kept(xs, packets, drop), at, xs, packets, drop)
  {
    if xs == [] {
      at := [];
    } else {
      var n := |xs| - 1;
      var init, front, x, p := xs[..n], packets[..n], xs[n], packets[n];
      var before := KeptPositions(init, front, drop);
      KeptAtNext(Kept(init, front, drop), before, init, front, drop, x, p);
      KeptSnoc(init, x, front, p, drop);
      assert xs == init + [x] && packets == front + [p];
      at := if drop(p) then before else before + [n];
      assert Kept(init, front, drop) + [] == Kept(init, front, drop);
    }
  }

  lemma {:induction false} KeptSnoc<T>(xs: seq<T>, x: T, packets: seq<seq<Byte>>, p: seq<Byte>, drop: Filter)
    requires |xs| == |packets|
    ensures Kept(xs + [x], packets + [p], drop) == Kept(xs, packets, drop) + if drop(p) then [] else [x]
  {
    if xs != [] {
      assert (xs + [x])[1..] == xs[1..] + [x] && (packets + [p])[1..] == packets[1..] + [p];
      KeptSnoc(xs[1..], x, packets[1..], p, drop);
    }
  }

  /** Both lists keep the same positions. */
  lemma {:induction false} KeptSameSize<S, T>(xs: seq<S>, ys: seq<T>, packets: seq<seq<Byte>>, drop: Filter)
    requires |xs| == |ys| == |packets|
    ensures |Kept(xs, packets, drop)| == |Kept(ys, packets, drop)|
  {
    if xs != [] {
      KeptSameSize(xs[1..], ys[1..], packets[1..], drop);
    }
  }

  function Repeat<T>(x: T, n: nat): (r: seq<T>)
    ensures |r| == n && forall i | 0 <= i < n :: r[i] == x
  {
    seq(n, i => x)
  }

  /** An array after the slots before `examined` were compacted to `kept`: the rest has moved up, and the slots
      left over at the end all hold the last element. */
  ghost function Compacted<T>(orig: seq<T>, examined: nat, kept: seq<T>): seq<T>
    requires |kept| <= examined <= |orig|
  {
    kept + orig[examined..] + (if |kept| == examined then [] else Repeat(orig[|orig| - 1], examined - |kept|))
  }

  /** `now` is `orig` after its first `e` packets have been examined. */
  ghost predicate Progress<T>(now: seq<T>, orig: seq<T>, packets: seq<seq<Byte>>, drop: Filter, e: nat)
    requires e <= |packets| <= |orig|
  {
    now == Compacted(orig, e, Kept(orig[..e], packets[..e], drop))
  }

  /** The slots filled so far. */
  ghost function KeptSoFar(packets: seq<seq<Byte>>, drop: Filter, e: nat): nat
    requires e <= |packets|
  {
    |Kept(packets[..e], packets[..e], drop)|
  }

  lemma KeptNext<T>(orig: seq<T>, packets: seq<seq<Byte>>, drop: Filter, e: nat)
    requires e < |packets| <= |orig|
    ensures Kept(orig[..e + 1], packets[..e + 1], drop) ==
            Kept(orig[..e], packets[..e], drop) + if drop(packets[e]) then [] else [orig[e]]
  {
    assert orig[..e + 1] == orig[..e] + [orig[e]] && packets[..e + 1] == packets[..e] + [packets[e]];
    KeptSnoc(orig[..e], orig[e], packets[..e], packets[e], drop);
  }

  /** A packet that is kept is already in its slot. */
  lemma KeepStep<T>(now: seq<T>, orig: seq<T>, packets: seq<seq<Byte>>, drop: Filter, e: nat)
    requires e < |packets| <= |orig| && Progress(now, orig, packets, drop, e) && !drop(packets[e])
    ensures Progress(now, orig, packets, drop, e + 1)
  {
    KeptNext(orig, packets, drop, e);
    var kept := Kept(orig[..e], packets[..e], drop);
    assert kept + orig[e..] == (kept + [orig[e]]) + orig[e + 1..];
  }

  /** The slot of the next packet to examine holds it. */
  lemma NextSlot<T>(now: seq<T>, orig: seq<T>, packets: seq<seq<Byte>>, drop: Filter, e: nat)
    requires e < |packets| <= |orig| && Progress(now, orig, packets, drop, e)
    ensures |now| == |orig| && KeptSoFar(packets, drop, e) <= e && now[KeptSoFar(packets, drop, e)] == orig[e]
  {
    KeptSameSize(orig[..e], packets[..e], packets[..e], drop);
  }

  /** A drop shifts the rest of the slice. */
  method DropAt<T>(a: array<T>, ghost orig: seq<T>, ghost packets: seq<seq<Byte>>, ghost drop: Filter,
                   ghost e: nat, i: nat, m: nat)
    requires e < |packets| <= |orig| == a.Length && Progress(a[..], orig, packets, drop, e) && drop(packets[e])
    requires i == KeptSoFar(packets, drop, e) && m == a.Length - (e - i)
    modifies a
    ensures Progress(a[..], orig, packets, drop, e + 1)
  {
    ghost var before := a[..];
    ShiftLeft(a, i, m);
    DropStep(before, a[..], orig, packets, drop, e, i, m);
  }

  lemma DropStep<T>(before: seq<T>, after: seq<T>, orig: seq<T>, packets: seq<seq<Byte>>, drop: Filter, e: nat, i: nat, m: nat)
    requires e < |packets| <= |orig| == |before| == |after| && Progress(before, orig, packets, drop, e) && drop(packets[e])
    requires i == KeptSoFar(packets, drop, e) && m == |orig| - (e - i)
    requires forall k | 0 <= k < |after| :: after[k] == before[if i <= k < m - 1 then k + 1 else k]
    ensures Progress(after, orig, packets, drop, e + 1)
  {
    KeptNext(orig, packets, drop, e);
    KeptSameSize(orig[..e], packets[..e], packets[..e], drop);
    ShiftCompacted(before, after, orig, e, Kept(orig[..e], packets[..e], drop), m);
  }

  lemma ShiftCompacted<T>(before: seq<T>, after: seq<T>, orig: seq<T>, e: nat, kept: seq<T>, m: nat)
    requires |kept| <= e < |orig| == |before| == |after| && m == |orig| - (e - |kept|)
    requires before == Compacted(orig, e, kept)
    requires forall k | 0 <= k < |after| :: after[k] == before[if |kept| <= k < m - 1 then k + 1 else k]
    ensures after == Compacted(orig, e + 1, kept)
  {
    forall k: nat | k < |after|
      ensures after[k] == Compacted(orig, e + 1, kept)[k]
    {
      ShiftCompactedAt(before, after, orig, e, kept, m, k);
    }
  }

  lemma ShiftCompactedAt<T>(before: seq<T>, after: seq<T>, orig: seq<T>, e: nat, kept: seq<T>, m: nat, k: nat)
    requires |kept| <= e < |orig| == |before| == |after| && m == |orig| - (e - |kept|) && k < |orig|
    requires before == Compacted(orig, e, kept)
    requires forall k | 0 <= k < |after| :: after[k] == before[if |kept| <= k < m - 1 then k + 1 else k]
    ensures after[k] == Compacted(orig, e + 1, kept)[k]
  {
    CompactedAt(orig, e, kept, if |kept| <= k < m - 1 then k + 1 else k);
    CompactedAt(orig, e + 1, kept, k);
  }

  lemma CompactedAt<T>(orig: seq<T>, e: nat, kept: seq<T>, k: nat)
    requires |kept| <= e <= |orig| && k < |orig|
    ensures var c := Compacted(orig, e, kept);
            |c| == |orig| && c[k] == if k < |kept| then kept[k]
                                     else if k < |orig| - (e - |kept|) then orig[e + k - |kept|]
                                     else orig[|orig| - 1]
  {}

  /** `Read` after the device has filled the first `n` slots.  The filter has been asked about every packet once,
      the first `n'` slots hold exactly the kept packets in order, and the contents of all other slots are known. */
  method Read(bufs: array<Buffer>, sizes: array<int>, offset: nat, n: nat, filter: PacketFilter)
    returns (n': nat)
    requires n <= bufs.Length && n <= sizes.Length && bufs as object != sizes
    requires forall i | 0 <= i < n :: InBounds(bufs[i], offset, sizes[i])
    modifies bufs, sizes, filter`asked
    ensures var packets := Packets(old(bufs[..]), old(sizes[..]), offset, n);
            && filter.asked == old(filter.asked) + packets
            && bufs[..] == Compacted(old(bufs[..]), n, Kept(old(bufs[..n]), packets, filter.drops))
            && sizes[..] == Compacted(old(sizes[..]), n, Kept(old(sizes[..n]), packets, filter.drops))
            && n' <= n && bufs[..n'] == Kept(old(bufs[..n]), packets, filter.drops)
            && sizes[..n'] == Kept(old(sizes[..n]), packets, filter.drops)
  {
    ghost var bs, ss, e := bufs[..], sizes[..], 0;
    ghost var all := Packets(bs, ss, offset, n);
    ghost var drop := filter.drops;
    var i := 0;
    n' := n;
    BeginProgress(bs, all, drop);
    BeginProgress(ss, all, drop);
    while i < n'
      invariant i <= n' <= n && e == n - n' + i && i == KeptSoFar(all, drop, e)
      invariant filter.asked == old(filter.asked) + all[..e]
      invariant Progress(bufs[..], bs, all, drop, e)
      invariant Progress(sizes[..], ss, all, drop, e)
      decreases n' - i
    {
      var dropped := Examine(bufs, sizes, offset, filter, i, n - n', e, bs, ss, all);
      TakeNext(old(filter.asked), all, e);
      e := e + 1;
      if dropped {
        n' := n' - 1;
      } else {
        i := i + 1;
      }
    }
    assert all[..n] == all;
    EndProgress(bufs[..], bs, all, drop);
    EndProgress(sizes[..], ss, all, drop);
  }

  lemma TakeNext<T>(before: seq<T>, xs: seq<T>, e: nat)
    requires e < |xs|
    ensures before + xs[..e] + [xs[e]] == before + xs[..e + 1]
  {}

  lemma BeginProgress<T>(orig: seq<T>, packets: seq<seq<Byte>>, drop: Filter)
    requires |packets| <= |orig|
    ensures Progress(orig, orig, packets, drop, 0)
  {
    assert [] + orig[0..] + [] == orig;
  }

  lemma EndProgress<T>(now: seq<T>, orig: seq<T>, packets: seq<seq<Byte>>, drop: Filter)
    requires |packets| <= |orig| && Progress(now, orig, packets, drop, |packets|)
    ensures var kept := Kept(orig[..|packets|], packets, drop);
            && now == Compacted(orig, |packets|, kept) && |kept| == KeptSoFar(packets, drop, |packets|)
            && |kept| <= |now| && now[..|kept|] == kept
  {
    assert packets[..|packets|] == packets;
    KeptSameSize(orig[..|packets|], packets, packets, drop);
    assert now[..|Kept(orig[..|packets|], packets, drop)|] == Kept(orig[..|packets|], packets, drop);
  }

  /** The loop body of `Read` for slot `i` after `gone` drops: one test of the packet, one shift if it fails. */
  method Examine(bufs: array<Buffer>, sizes: array<int>, offset: nat, filter: PacketFilter, i: nat, gone: nat, ghost e: nat,
                 ghost bs: seq<Buffer>, ghost ss: seq<int>, ghost all: seq<seq<Byte>>) returns (dropped: bool)
    requires bufs as object != sizes && |bs| == bufs.Length && |ss| == sizes.Length
    requires e == i + gone < |all| <= |bs| && |all| <= |ss|
    requires forall k | 0 <= k < |all| :: InBounds(bs[k], offset, ss[k]) && all[k] == PacketIn(bs[k], offset, ss[k])
    requires i == KeptSoFar(all, filter.drops, e)
    requires Progress(bufs[..], bs, all, filter.drops, e) && Progress(sizes[..], ss, all, filter.drops, e)
    modifies bufs, sizes, filter`asked
    ensures Progress(bufs[..], bs, all, filter.drops, e + 1) && Progress(sizes[..], ss, all, filter.drops, e + 1)
    ensures dropped == filter.drops(all[e]) && filter.asked == old(filter.asked) + [all[e]]
    ensures KeptSoFar(all, filter.drops, e + 1) == if dropped then i else i + 1
  {
    NextSlot(bufs[..], bs, all, filter.drops, e);
    NextSlot(sizes[..], ss, all, filter.drops, e);
    KeptNext(all, all, filter.drops, e);
    assert bufs[i] == bs[e] && sizes[i] == ss[e];
    dropped := filter.Drop(bufs[i].bytes[offset..offset + sizes[i]]);
    if dropped {
      DropAt(bufs, bs, all, filter.drops, e, i, bufs.Length - gone);
      DropAt(sizes, ss, all, filter.drops, e, i, sizes.Length - gone);
    } else {
      KeepStep(bufs[..], bs, all, filter.drops, e);
      KeepStep(sizes[..], ss, all, filter.drops, e);
    }
  }

  lemma {:induction false} KeptWithin<T>(xs: seq<T>, packets: seq<seq<Byte>>, drop: Filter)
    requires |xs| == |packets|
    ensures forall x | x in Kept(xs, packets, drop) :: x in xs
    ensures |Kept(xs, packets, drop)| == |xs| ==> Kept(xs, packets, drop) == xs
  {
    if xs != [] {
      KeptWithin(xs[1..], packets[1..], drop);
    }
  }

  /** Exactly when the caller's slots still hold all of its buffers, which are distinct: nothing was dropped, or
      only the packet of the very last slot.  In every other case a buffer is lost and the last one is in two slots. */
  lemma BuffersSurviveIff(bufs: seq<Buffer>, packets: seq<seq<Byte>>, drop: Filter)
    requires |packets| <= |bufs| && forall i, j | 0 <= i < j < |bufs| :: bufs[i] != bufs[j]
    ensures var n := |packets|;
            var kept := Kept(bufs[..n], packets, drop);
            multiset(Compacted(bufs, n, kept)) == multiset(bufs) <==>
            |kept| == n || (|kept| == n - 1 && n == |bufs| && drop(packets[n - 1]))
  {
    var n := |packets|;
    var kept := Kept(bufs[..n], packets, drop);
    KeptWithin(bufs[..n], packets, drop);
    if |kept| == n {
      assert Compacted(bufs, n, kept) == bufs;
    } else {
      LastBufferCount(bufs, packets, drop);
    }
  }

  /** A kept prefix followed by copies of the last buffer: it occurs too often unless it was dropped itself. */
  lemma LastBufferCount(bufs: seq<Buffer>, packets: seq<seq<Byte>>, drop: Filter)
    requires |packets| <= |bufs| && forall i, j | 0 <= i < j < |bufs| :: bufs[i] != bufs[j]
    requires |Kept(bufs[..|packets|], packets, drop)| < |packets|
    ensures var n := |packets|;
            var kept := Kept(bufs[..n], packets, drop);
            multiset(Compacted(bufs, n, kept)) == multiset(bufs) <==>
            |kept| == n - 1 && n == |bufs| && drop(packets[n - 1])
  {
    var n := |packets|;
    if n < |bufs| {
      RestHoldsLast(bufs, n, Kept(bufs[..n], packets, drop));
    } else {
      assert bufs[..n] == bufs;
      WholeBatch(bufs, packets, drop);
    }
  }

  lemma RestHoldsLast(bufs: seq<Buffer>, n: nat, kept: seq<Buffer>)
    requires |kept| < n < |bufs| && forall i, j | 0 <= i < j < |bufs| :: bufs[i] != bufs[j]
    ensures multiset(Compacted(bufs, n, kept)) != multiset(bufs)
  {
    CountLast(bufs, n, kept);
    LastOccursOnce(bufs);
    assert bufs[|bufs| - 1] == bufs[n..][|bufs| - 1 - n];
  }

  lemma WholeBatch(bufs: seq<Buffer>, packets: seq<seq<Byte>>, drop: Filter)
    requires |packets| == |bufs| && forall i, j | 0 <= i < j < |bufs| :: bufs[i] != bufs[j]
    requires |Kept(bufs, packets, drop)| < |bufs|
    ensures var n := |bufs|;
            var kept := Kept(bufs, packets, drop);
            multiset(Compacted(bufs, n, kept)) == multiset(bufs) <==> |kept| == n - 1 && drop(packets[n - 1])
  {
    var n := |bufs|;
    var kept := Kept(bufs, packets, drop);
    CountLast(bufs, n, kept);
    LastOccursOnce(bufs);
    LastKept(bufs, packets, drop);
    if |kept| == n - 1 && drop(packets[n - 1]) {
      assert Compacted(bufs, n, kept) == bufs;
    }
  }

  lemma LastOccursOnce(bufs: seq<Buffer>)
    requires bufs != [] && forall i, j | 0 <= i < j < |bufs| :: bufs[i] != bufs[j]
    ensures multiset(bufs)[bufs[|bufs| - 1]] == 1
  {
    var init, last := bufs[..|bufs| - 1], bufs[|bufs| - 1];
    assert bufs == init + [last];
    assert last !in init;
  }

  lemma CountLast(bufs: seq<Buffer>, n: nat, kept: seq<Buffer>)
    requires |kept| < n <= |bufs|
    ensures var last := bufs[|bufs| - 1];
            multiset(Compacted(bufs, n, kept))[last] == multiset(kept)[last] + multiset(bufs[n..])[last] + (n - |kept|)
  {
    RepeatCount(bufs[|bufs| - 1], n - |kept|);
  }

  /** The last of distinct buffers is kept exactly if its packet is; if it alone is dropped, the others are kept. */
  lemma LastKept(bufs: seq<Buffer>, packets: seq<seq<Byte>>, drop: Filter)
    requires bufs != [] && |bufs| == |packets| && forall i, j | 0 <= i < j < |bufs| :: bufs[i] != bufs[j]
    ensures var kept := Kept(bufs, packets, drop);
            var n := |bufs|;
            && (multiset(kept)[bufs[n - 1]] == if drop(packets[n - 1]) then 0 else 1)
            && (|kept| == n - 1 && drop(packets[n - 1]) ==> kept == bufs[..n - 1])
  {
    var n := |bufs|;
    var init, last, front := bufs[..n - 1], bufs[n - 1], packets[..n - 1];
    assert bufs == init + [last] && packets == front + [packets[n - 1]];
    assert last !in init;
    KeptSnocCount(init, last, front, packets[n - 1], drop);
  }

  lemma KeptSnocCount<T>(xs: seq<T>, x: T, packets: seq<seq<Byte>>, p: seq<Byte>, drop: Filter)
    requires |xs| == |packets| && x !in xs
    ensures var kept := Kept(xs + [x], packets + [p], drop);
            && (multiset(kept)[x] == if drop(p) then 0 else 1)
            && (|kept| == |xs| && drop(p) ==> kept == xs)
  {
    KeptSnoc(xs, x, packets, p, drop);
    KeptWithin(xs, packets, drop);
    Absent(Kept(xs, packets, drop), x);
  }

  lemma Absent<T>(xs: seq<T>, x: T)
    requires x !in xs
    ensures multiset(xs)[x] == 0
  {}

  lemma {:induction false} RepeatCount<T>(x: T, n: nat)
    ensures multiset(Repeat(x, n))[x] == n
  {
    if n > 0 {
      RepeatCount(x, n - 1);
      assert Repeat(x, n) == Repeat(x, n - 1) + [x];
    }
  }

  function Tails(bufs: seq<Buffer>, offset: nat): (r: seq<seq<Byte>>)
    requires forall b | b in bufs :: offset <= |b.bytes|
    ensures |r| == |bufs| && forall i | 0 <= i < |bufs| :: r[i] == bufs[i].bytes[offset..]
  {
    seq(|bufs|, i requires 0 <= i < |bufs| => assert bufs[i] in bufs; bufs[i].bytes[offset..])
  }

  /** `Write`: what goes to the device, and the count returned if the device reports `written`.  The counter
      called `dropped` counts the packets kept. */
  method Write(bufs: seq<Buffer>, offset: nat, filter: PacketFilter, written: int)
    returns (forwarded: seq<Buffer>, n: int)
    requires forall b | b in bufs :: offset <= |b.bytes|
    modifies filter`asked
    ensures filter.asked == old(filter.asked) + Tails(bufs, offset)
    ensures forwarded == Kept(bufs, Tails(bufs, offset), filter.drops)
    ensures n == written + |forwarded|
  {
    forwarded := [];
    var dropped := 0;
    ghost var all := Tails(bufs, offset);
    for i := 0 to |bufs|
      invariant filter.asked == old(filter.asked) + all[..i]
      invariant forwarded == Kept(bufs[..i], all[..i], filter.drops) && dropped == |forwarded|
    {
      KeptNext(bufs, all, filter.drops, i);
      TakeNext(old(filter.asked), all, i);
      var drop := filter.Drop(bufs[i].bytes[offset..]);
      if !drop {
        forwarded := forwarded + [bufs[i]];
        dropped := dropped + 1;
      }
    }
    assert bufs[..|bufs|] == bufs && all[..|bufs|] == all;
    n := written + dropped;
  }

  /** If the device writes all it is given, the count returned is the size of the batch exactly when as many
      packets were dropped as forwarded. */
  lemma WriteCountIff(bufs: seq<Buffer>, packets: seq<seq<Byte>>, drop: Filter)
    requires |bufs| == |packets|
    ensures var forwarded := |Kept(bufs, packets, drop)|;
            forwarded + forwarded == |bufs| <==> forwarded == |Kept(bufs, packets, p => !drop(p))|
  {
    KeptOrDropped(bufs, packets, drop);
  }

  lemma {:induction false} KeptOrDropped(bufs: seq<Buffer>, packets: seq<seq<Byte>>, drop: Filter)
    requires |bufs| == |packets|
    ensures |Kept(bufs, packets, drop)| + |Kept(bufs, packets, p => !drop(p))| == |bufs|
  {
    if bufs != [] {
      KeptOrDropped(bufs[1..], packets[1..], drop);
    }
  }
}
