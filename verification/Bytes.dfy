/** Bytes, 16-bit little-endian numbers, and writes into a byte buffer at an offset. */
module Bytes {

  type Byte = b: int | 0 <= b < 256

  /** `binary.LittleEndian.PutUint16` of `uint16(n)`: the conversion keeps the low 16 bits. */
  function Le16(n: int): (b: seq<Byte>)
    ensures |b| == 2
  {
    [n % 256, (n / 256) % 256]
  }

  function FromLe16(b: seq<Byte>): nat
    requires |b| == 2
  {
    b[0] as int + 256 * b[1] as int
  }

  /** The low byte comes first. */
  lemma Le16Spelled(high: Byte, low: Byte)
    ensures Le16(256 * high as int + low as int) == [low, high]
  {
    var n := 256 * high as int + low as int;
    assert n / 256 == high as int && n % 256 == low as int;
  }

  lemma Le16RoundTrip(n: int)
    ensures FromLe16(Le16(n)) == n % 0x1_0000
  {
    assert n == 256 * (n / 256) + n % 256;
    var q := n / 256;
    assert q == 256 * (q / 256) + q % 256;
    assert n == 0x1_0000 * (q / 256) + (256 * (q % 256) + n % 256);
  }

  /** `s` with the bytes from `at` on replaced by `bytes`. */
  function Splice(s: seq<Byte>, at: nat, bytes: seq<Byte>): (r: seq<Byte>)
    requires at + |bytes| <= |s|
    ensures |r| == |s|
    ensures forall i | 0 <= i < |s| :: r[i] == if at <= i < at + |bytes| then bytes[i - at] else s[i]
  {
    s[..at] + bytes + s[at + |bytes|..]
  }

  /** Two neighbouring writes, in either order, are one write. */
  lemma SpliceJoin(s: seq<Byte>, at: nat, x: seq<Byte>, y: seq<Byte>)
    requires at + |x| + |y| <= |s|
    ensures Splice(Splice(s, at, x), at + |x|, y) == Splice(s, at, x + y)
    ensures Splice(Splice(s, at + |x|, y), at, x) == Splice(s, at, x + y)
  {}

  method CopyAt(buf: array<Byte>, at: nat, bytes: seq<Byte>)
    requires at + |bytes| <= buf.Length
    modifies buf
    ensures buf[..] == Splice(old(buf[..]), at, bytes)
  {
    for i := 0 to |bytes|
      invariant forall k | 0 <= k < buf.Length :: buf[k] == if at <= k < at + i then bytes[k - at] else old(buf[k])
    {
      buf[at + i] := bytes[i];
    }
  }

  method PutUint16(buf: array<Byte>, at: nat, n: int)
    requires at + 2 <= buf.Length
    modifies buf
    ensures buf[..] == Splice(old(buf[..]), at, Le16(n))
  {
    CopyAt(buf, at, Le16(n));
  }
}
