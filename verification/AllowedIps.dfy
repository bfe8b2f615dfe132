/**
 The two implementations of `removeAllowedIP`: over the text of a user-space device
 (iface/wg_configurer_usp.go) and over the structures of the kernel module
 (iface/wg_configurer_kernel_unix.go).
 */
module AllowedIps {
  import opened Wrappers
  import opened Text
  import opened Uapi
  import opened UapiScan
  import opened Folds
  import opened Slices

  function RemoveFirst(xs: seq<string>, x: string): seq<string> {
    if xs == [] then [] else if xs[0] == x then xs[1..] else [xs[0]] + RemoveFirst(xs[1..], x)
  }

  lemma {:induction false} RemoveFirstAt(xs: seq<string>, x: string, i: nat)
    requires i < |xs| && xs[i] == x && x !in xs[..i]
    ensures RemoveFirst(xs, x) == xs[..i] + xs[i + 1..]
  {
    if i > 0 {
      assert xs[0] == xs[..i][0];
      assert xs[1..][..i - 1] == xs[..i][1..];
      RemoveFirstAt(xs[1..], x, i - 1);
      assert xs[..i] == [xs[0]] + xs[1..][..i - 1];
    }
  }

  lemma {:induction false} RemoveFirstAbsent(xs: seq<string>, x: string)
    requires x !in xs
    ensures RemoveFirst(xs, x) == xs
  {
    if xs != [] {
      RemoveFirstAbsent(xs[1..], x);
    }
  }

  /** The search and in-place removal of the kernel configurer: `n` is the length of the slice that is left. */
  method RemoveInPlace(ips: array<string>, ip: string) returns (n: nat)
    modifies ips
    ensures n <= ips.Length && ips[..n] == RemoveFirst(old(ips[..]), ip)
  {
    ghost var xs := ips[..];
    for i := 0 to ips.Length
      invariant ips[..] == xs && ip !in xs[..i]
    {
      if ips[i] == ip {
        RemoveFirstAt(xs, ip, i);
        ShiftLeft(ips, i, ips.Length);
        assert xs[i + 1..ips.Length] == xs[i + 1..];
        return ips.Length - 1;
      }
      assert xs[..i + 1] == xs[..i] + [xs[i]];
    }
    assert xs[..ips.Length] == xs;
    RemoveFirstAbsent(xs, ip);
    return ips.Length;
  }

  /** The kernel configurer's call on the list of an existing peer: the first occurrence of the prefix, in canonical
      form, goes; a list without it, or an argument that is no prefix, leaves everything as it is. */
  method RemoveAllowedIP(ips: array<string>, ip: string, parse: ParseCidr) returns (n: nat)
    modifies ips
    ensures n <= ips.Length && ips[..n] == KernelAfter(old(ips[..]), ip, parse)
    ensures parse(ip).None? || parse(ip).value !in old(ips[..]) ==> ips[..n] == old(ips[..])
    ensures parse(ip).Some? && parse(ip).value in old(ips[..]) ==>
              exists i :: 0 <= i < ips.Length && old(ips[i]) == parse(ip).value && parse(ip).value !in old(ips[..i])
                          && ips[..n] == old(ips[..i]) + old(ips[i + 1..])
  {
    ghost var xs := ips[..];
    var canonical := parse(ip);
    if canonical.None? {
      return ips.Length;
    }
    FirstOrNone(xs, canonical.value);
    n := RemoveInPlace(ips, canonical.value);
  }

  lemma FirstOrNone(xs: seq<string>, x: string)
    ensures x !in xs ==> RemoveFirst(xs, x) == xs
    ensures x in xs ==> exists i :: 0 <= i < |xs| && xs[i] == x && x !in xs[..i] && RemoveFirst(xs, x) == xs[..i] + xs[i + 1..]
  {
    if x in xs {
      var i := FirstIndex(xs, x);
      RemoveFirstAt(xs, x, i);
    } else {
      RemoveFirstAbsent(xs, x);
    }
  }

  /** The list of an existing peer after the kernel configurer's call. */
  function KernelAfter(ips: seq<string>, ip: string, parse: ParseCidr): seq<string> {
    match parse(ip)
    case None => ips
    case Some(canonical) => RemoveFirst(ips, canonical)
  }

  /** The list of an existing peer after the user-space configurer's call. */
  function UserSpaceAfter(ips: seq<string>, r: Removal): seq<string> {
    if r.Update? then r.allowed else ips
  }

  /** Prefixes as devices list them: reading one gives it back. */
  predicate Canonical(ips: seq<string>, parse: ParseCidr) {
    forall x | x in ips :: parse(x) == Some(x)
  }

  lemma {:induction false} CanonicalParses(ips: seq<string>, parse: ParseCidr)
    requires Canonical(ips, parse)
    ensures ParseAll(parse, ips) == Some(ips)
  {
    if ips != [] {
      assert forall x | x in ips[1..] :: x in ips;
      CanonicalParses(ips[1..], parse);
      assert ips[0] in ips;
      assert [ips[0]] + ips[1..] == ips;
    }
  }

  lemma {:induction false} WithoutWithin(ips: seq<string>, ip: string)
    ensures forall x | x in Without(ips, ip) :: x in ips && x != ip
  {
    if ips != [] {
      WithoutWithin(ips[1..], ip);
    }
  }

  lemma {:induction false} WithoutAbsent(ips: seq<string>, ip: string)
    requires ip !in ips
    ensures Without(ips, ip) == ips
  {
    if ips != [] {
      WithoutAbsent(ips[1..], ip);
    }
  }

  lemma {:induction false} WithoutSize(ips: seq<string>, ip: string)
    ensures |Without(ips, ip)| == |ips| - multiset(ips)[ip]
  {
    if ips != [] {
      WithoutSize(ips[1..], ip);
      assert ips == [ips[0]] + ips[1..];
    }
  }

  /** Removing all copies or the first one is the same exactly if there is at most one. */
  lemma {:induction false} AllOrFirstIff(ips: seq<string>, ip: string)
    ensures Without(ips, ip) == RemoveFirst(ips, ip) <==> multiset(ips)[ip] <= 1
  {
    if ips != [] {
      var rest := ips[1..];
      assert ips == [ips[0]] + rest;
      if ips[0] == ip {
        WithoutSize(rest, ip);
        if multiset(rest)[ip] == 0 {
          WithoutAbsent(rest, ip);
        }
      } else {
        AllOrFirstIff(rest, ip);
        assert Without(ips, ip)[1..] == Without(rest, ip);
        assert RemoveFirst(ips, ip)[1..] == RemoveFirst(rest, ip);
      }
    }
  }

  lemma RemoveFirstPresent(ips: seq<string>, ip: string)
    requires ip in ips
    ensures |RemoveFirst(ips, ip)| < |ips|
  {
    var i := FirstIndex(ips, ip);
    RemoveFirstAt(ips, ip, i);
  }

  lemma FirstIndex(ips: seq<string>, ip: string) returns (i: nat)
    requires ip in ips
    ensures i < |ips| && ips[i] == ip && ip !in ips[..i]
  {
    i := 0;
    while ips[i] != ip
      invariant i < |ips| && ip !in ips[..i] && ip in ips[i..]
      decreases |ips| - i
    {
      assert ips[i..] == [ips[i]] + ips[i + 1..];
      assert ips[..i + 1] == ips[..i] + [ips[i]];
      i := i + 1;
    }
  }

  lemma SameListsIff(ips: seq<string>, ip: string, parse: ParseCidr)
    requires Canonical(ips, parse)
    ensures (if ip in ips then Without(ips, ip) else ips) == KernelAfter(ips, ip, parse) <==>
             (|| parse(ip).None?
             || (parse(ip).value == ip && multiset(ips)[ip] <= 1)
             || (parse(ip).value != ip && parse(ip).value !in ips))
  {
    if parse(ip).Some? {
      var canonical := parse(ip).value;
      if ip in ips {
        AllOrFirstIff(ips, ip);
      } else if canonical in ips {
        RemoveFirstPresent(ips, canonical);
      } else {
        RemoveFirstAbsent(ips, canonical);
      }
    }
  }

  /** Exactly when the two configurers leave an existing peer with the same list, for every dump of a device and
      every argument: it is no prefix at all, or it is canonical and listed at most once, or its canonical form is not
      listed. */
  lemma SameListIff(d: Dump, key: Key, ip: string, parse: ParseCidr)
    requires WellFormed(d) && Canonical(PeerPrefixes(key, d.peers), parse)
    ensures var ips := PeerPrefixes(key, d.peers);
            var r := Outcome(Fold(Scanner(key, ip, parse), START, TrimAll(Split(DumpText(d)))));
            && !r.BadPrefix? && (r.NotFound? <==> ip !in ips)
            && (UserSpaceAfter(ips, r) == KernelAfter(ips, ip, parse) <==>
             (|| parse(ip).None?
             || (parse(ip).value == ip && multiset(ips)[ip] <= 1)
             || (parse(ip).value != ip && parse(ip).value !in ips)))
  {
    var ips := PeerPrefixes(key, d.peers);
    RemovalIsExact(d, key, ip, parse);
    WithoutWithin(ips, ip);
    CanonicalParses(Without(ips, ip), parse);
    SameListsIff(ips, ip, parse);
  }
}
