/**
 How packets wait for the reader of a logical connection (iface/bind/udp_muxed_conn.go): each one is
 framed as | data length | data | address length | address | in a buffer taken from a shared pool, so
 the buffer still holds the bytes of earlier packets.
 */
module Frame {
  import opened Wrappers
  import opened Bytes

  const RECEIVE_MTU := 8192
  const MAX_ADDR_SIZE := 512
  const POOL_BUFFER_SIZE := RECEIVE_MTU + MAX_ADDR_SIZE

  datatype UdpAddr = UdpAddr(ip: seq<Byte>, port: int, zone: seq<Byte>)

  datatype Error = ShortBuffer | BadAddress | Closed | Full

  datatype Result<+T> = Ok(value: T) | Err(error: Error)

  /** The text form of IP addresses in Go's net package.  `canonical` is the byte form that reading a
      text gives for an address, for example the 16-byte form of a 4-byte one. */
  datatype IpText = IpText(marshal: seq<Byte> -> Option<seq<Byte>>,
                           unmarshal: seq<Byte> -> Option<seq<Byte>>,
                           canonical: seq<Byte> -> seq<Byte>)
  {
    ghost predicate Lawful() {
      forall ip :: marshal(ip).Some? ==> unmarshal(marshal(ip).value) == Some(canonical(ip))
    }
  }

  // ---------------------------------------------------------------- addresses

  function AddrBytes(text: seq<Byte>, port: int, zone: seq<Byte>): (b: seq<Byte>)
    ensures |b| == 4 + |text| + |zone|
  {
    Le16(|text|) + text + Le16(port) + zone
  }

  lemma AddrSlices(text: seq<Byte>, port: int, zone: seq<Byte>)
    ensures var b := AddrBytes(text, port, zone);
            var n := 2 + |text|;
            b[..2] == Le16(|text|) && b[2..n] == text && b[n..n + 2] == Le16(port) && b[n + 2..] == zone
  {}

  /** `encodeUDPAddr` into the part of `buf` from `at` on. */
  method EncodeUDPAddr(codec: IpText, addr: UdpAddr, buf: array<Byte>, at: nat) returns (r: Result<nat>)
    requires at <= buf.Length < 0x1_0000
    modifies buf
    ensures r == match codec.marshal(addr.ip)
                 case None => Err(BadAddress)
                 case Some(text) =>
                   var total := 4 + |text| + |addr.zone|;
                   if at + total > buf.Length then Err(ShortBuffer) else Ok(total)
    ensures r.Err? ==> buf[..] == old(buf[..])
    ensures r.Ok? ==>
              var bytes := AddrBytes(codec.marshal(addr.ip).value, addr.port, addr.zone);
              at + |bytes| <= buf.Length && buf[..] == Splice(old(buf[..]), at, bytes)
  {
    if codec.marshal(addr.ip).None? {
      return Err(BadAddress);
    }
    var text := codec.marshal(addr.ip).value;
    var total := 2 + |text| + 2 + |addr.zone|;
    if total > buf.Length - at {
      return Err(ShortBuffer);
    }
    ghost var s := buf[..];
    PutUint16(buf, at, |text|);
    var offset := at + 2;
    CopyAt(buf, offset, text);
    SpliceJoin(s, at, Le16(|text|), text);
    offset := offset + |text|;
    PutUint16(buf, offset, addr.port);
    SpliceJoin(s, at, Le16(|text|) + text, Le16(addr.port));
    offset := offset + 2;
    CopyAt(buf, offset, addr.zone);
    SpliceJoin(s, at, Le16(|text|) + text + Le16(addr.port), addr.zone);
    return Ok(total);
  }

  /** `decodeUDPAddr`; the precondition is what keeps its slices in bounds. */
  function DecodeUDPAddr(codec: IpText, b: seq<Byte>): Result<UdpAddr>
    requires |b| >= 2
    requires var n := 2 + FromLe16(b[..2]); n <= |b| && codec.unmarshal(b[2..n]).Some? ==> n + 2 <= |b|
  {
    var n := 2 + FromLe16(b[..2]);
    if n > |b| then Err(ShortBuffer)
    else match codec.unmarshal(b[2..n])
      case None => Err(BadAddress)
      case Some(ip) => Ok(UdpAddr(ip, FromLe16(b[n..n + 2]), b[n + 2..]))
  }

  /** Decoding an encoded address gives it back, with the port reduced to 16 bits. */
  lemma AddrRoundTrip(codec: IpText, addr: UdpAddr)
    requires codec.Lawful() && codec.marshal(addr.ip).Some? && |codec.marshal(addr.ip).value| < 0x1_0000
    ensures var b := AddrBytes(codec.marshal(addr.ip).value, addr.port, addr.zone);
            var n := 2 + FromLe16(b[..2]);
            n + 2 <= |b| &&
            DecodeUDPAddr(codec, b) == Ok(UdpAddr(codec.canonical(addr.ip), addr.port % 0x1_0000, addr.zone))
  {
    var text := codec.marshal(addr.ip).value;
    AddrSlices(text, addr.port, addr.zone);
    Le16RoundTrip(|text|);
    Le16RoundTrip(addr.port);
  }

  /** Exactly the addresses that survive unchanged: a canonical IP and a port of 16 bits. */
  lemma AddrUnchangedIff(codec: IpText, addr: UdpAddr)
    requires codec.Lawful() && codec.marshal(addr.ip).Some? && |codec.marshal(addr.ip).value| < 0x1_0000
    ensures var b := AddrBytes(codec.marshal(addr.ip).value, addr.port, addr.zone);
            var n := 2 + FromLe16(b[..2]);
            n + 2 <= |b| &&
            (DecodeUDPAddr(codec, b) == Ok(addr) <==> codec.canonical(addr.ip) == addr.ip && 0 <= addr.port < 0x1_0000)
  {
    AddrRoundTrip(codec, addr);
  }

  // ---------------------------------------------------------------- frames

  function FrameBytes(data: seq<Byte>, addr: seq<Byte>): (b: seq<Byte>)
    ensures |b| == 4 + |data| + |addr|
  {
    Le16(|data|) + data + Le16(|addr|) + addr
  }

  lemma FrameSlices(data: seq<Byte>, addr: seq<Byte>)
    ensures var b := FrameBytes(data, addr);
            var n := 2 + |data|;
            b[..2] == Le16(|data|) && b[2..n] == data && b[n..n + 2] == Le16(|addr|) && b[n + 2..] == addr
  {}

  /** Where a buffer that starts with a frame holds the address. */
  lemma AddrInFrame(data: seq<Byte>, addr: seq<Byte>, buf: seq<Byte>, total: nat)
    requires |addr| < 0x1_0000 && total == 4 + |data| + |addr| <= |buf| && buf[..total] == FrameBytes(data, addr)
    ensures var at := 4 + |data|;
            FromLe16(buf[at - 2..at]) == |addr| && buf[at..at + |addr|] == addr
  {
    FrameSlices(data, addr);
    Le16RoundTrip(|addr|);
    var at, f := 4 + |data|, buf[..total];
    assert buf[at - 2..at] == f[at - 2..at] && buf[at..at + |addr|] == f[at..];
  }

  datatype Packet = Packet(data: seq<Byte>, addr: UdpAddr)

  /** The frame of a packet whose address has a text form. */
  ghost function Framed(codec: IpText, p: Packet): seq<Byte>
    requires codec.marshal(p.addr.ip).Some?
  {
    FrameBytes(p.data, AddrBytes(codec.marshal(p.addr.ip).value, p.addr.port, p.addr.zone))
  }

  /** The packet has a frame that fits a pool buffer. */
  ghost predicate Fits(codec: IpText, p: Packet) {
    && codec.marshal(p.addr.ip).Some?
    && |p.data| <= RECEIVE_MTU && |Framed(codec, p)| <= POOL_BUFFER_SIZE
  }

  /** The part of `writePacket` that fills the buffer: the address goes in before its length. */
  method PackFrame(codec: IpText, data: seq<Byte>, addr: UdpAddr, buf: array<Byte>) returns (r: Result<nat>)
    requires buf.Length == POOL_BUFFER_SIZE
    modifies buf
    ensures r.Ok? <==> Fits(codec, Packet(data, addr))
    ensures r.Ok? ==> r.value <= buf.Length && buf[..r.value] == Framed(codec, Packet(data, addr))
  {
    if buf.Length < |data| + MAX_ADDR_SIZE {
      return Err(ShortBuffer);
    }
    ghost var s := buf[..];
    PutUint16(buf, 0, |data|);
    CopyAt(buf, 2, data);
    SpliceJoin(s, 0, Le16(|data|), data);
    var offset := 2 + |data|;
    r := EncodeUDPAddr(codec, addr, buf, offset + 2);
    if r.Err? {
      return;
    }
    ghost var head := Le16(|data|) + data;
    ghost var bytes := AddrBytes(codec.marshal(addr.ip).value, addr.port, addr.zone);
    PutUint16(buf, offset, r.value);
    SpliceJoin(Splice(s, 0, head), offset, Le16(r.value), bytes);
    SpliceJoin(s, 0, head, Le16(r.value) + bytes);
    assert head + (Le16(r.value) + bytes) == FrameBytes(data, bytes);
    return Ok(offset + r.value + 2);
  }

  /** The incoming side of a logical connection; `pending` are the packets that wait, oldest first. */
  class PacketQueue {
    const codec: IpText
    var frames: seq<seq<Byte>>
    var closed: bool
    ghost var pending: seq<Packet>
    /** How often the channel was closed; closing it twice would panic. */
    ghost var closes: nat

    ghost predicate Valid()
      reads this
    {
      && codec.Lawful() && closes == (if closed then 1 else 0)
      && |frames| == |pending|
      && (forall i | 0 <= i < |pending| :: Fits(codec, pending[i]) && frames[i] == Framed(codec, pending[i]))
    }

    constructor (codec: IpText)
      requires codec.Lawful()
      ensures Valid() && this.codec == codec && pending == [] && !closed
    {
      this.codec := codec;
      frames, pending, closed, closes := [], [], false, 0;
    }

    /** `writePacket` with a pool buffer of any contents; `full` says whether the queue is at its limit. */
    method WritePacket(data: seq<Byte>, addr: UdpAddr, buf: array<Byte>, full: bool) returns (r: Result<()>)
      requires Valid() && buf.Length == POOL_BUFFER_SIZE
      modifies this`frames, this`pending, buf
      ensures Valid()
      ensures r.Ok? <==> Fits(codec, Packet(data, addr)) && !closed && !full
      ensures r.Ok? <==> && !closed && !full && |data| <= 8192 && codec.marshal(addr.ip).Some?
                         && 8 + |data| + |codec.marshal(addr.ip).value| + |addr.zone| <= 8704
      ensures pending == old(pending) + (if r.Ok? then [Packet(data, addr)] else [])
    {
      var total := PackFrame(codec, data, addr, buf);
      if total.Err? {
        return Err(total.error);
      }
      if closed {
        return Err(Closed);
      }
      if full {
        return Err(Full);
      }
      frames := frames + [buf[..total.value]];
      pending := pending + [Packet(data, addr)];
      return Ok(());
    }

    /** `ReadFrom` into `b`, with a pool buffer of any contents.  It blocks on an open empty queue. */
    method ReadFrom(b: array<Byte>, buf: array<Byte>) returns (r: Result<(nat, UdpAddr)>)
      requires Valid() && buf.Length == POOL_BUFFER_SIZE && b != buf
      requires pending != [] || closed
      modifies this`frames, this`pending, b, buf
      ensures Valid()
      ensures pending == if old(pending) == [] then [] else old(pending)[1..]
      ensures old(pending) == [] ==> r == Err(Closed)
      ensures old(pending) != [] && |old(pending)[0].data| > b.Length ==> r == Err(ShortBuffer)
      ensures r.Err? ==> b[..] == old(b[..])
      ensures old(pending) != [] && |old(pending)[0].data| <= b.Length ==>
                var p := old(pending)[0];
                && r == Ok((|p.data|, UdpAddr(codec.canonical(p.addr.ip), p.addr.port % 0x1_0000, p.addr.zone)))
                && b[..] == Splice(old(b[..]), 0, p.data)
    {
      if |frames| == 0 {
        return Err(Closed);
      }
      var frame := frames[0];
      ghost var p := pending[0];
      frames, pending := frames[1..], pending[1..];
      CopyAt(buf, 0, frame);
      var total := |frame|;
      assert buf[..total] == frame;
      r := Unpack(b, buf, total, p);
    }

    /** The part of `ReadFrom` after the frame is in the pool buffer. */
    method Unpack(b: array<Byte>, buf: array<Byte>, total: nat, ghost p: Packet) returns (r: Result<(nat, UdpAddr)>)
      requires codec.Lawful() && Fits(codec, p) && b != buf
      requires total == |Framed(codec, p)| <= buf.Length && buf[..total] == Framed(codec, p)
      modifies b
      ensures |p.data| > b.Length ==> r == Err(ShortBuffer) && b[..] == old(b[..])
      ensures |p.data| <= b.Length ==>
                && r == Ok((|p.data|, UdpAddr(codec.canonical(p.addr.ip), p.addr.port % 0x1_0000, p.addr.zone)))
                && b[..] == Splice(old(b[..]), 0, p.data)
    {
      ghost var addrBytes := AddrBytes(codec.marshal(p.addr.ip).value, p.addr.port, p.addr.zone);
      ghost var f := buf[..total];
      FrameSlices(p.data, addrBytes);
      Le16RoundTrip(|p.data|);
      assert buf[..2] == f[..2];
      var dataLen := FromLe16(buf[..2]);
      if dataLen > total || dataLen > b.Length {
        return Err(ShortBuffer);
      }
      var offset := 2 + dataLen;
      assert buf[2..offset] == f[2..offset] == p.data;
      CopyAt(b, 0, buf[2..offset]);
      r := UnpackAddr(buf, offset, total, p);
    }

    method UnpackAddr(buf: array<Byte>, offset: nat, total: nat, ghost p: Packet) returns (r: Result<(nat, UdpAddr)>)
      requires codec.Lawful() && Fits(codec, p) && offset == 2 + |p.data|
      requires total == |Framed(codec, p)| <= buf.Length && buf[..total] == Framed(codec, p)
      ensures r == Ok((|p.data|, UdpAddr(codec.canonical(p.addr.ip), p.addr.port % 0x1_0000, p.addr.zone)))
    {
      ghost var addrBytes := AddrBytes(codec.marshal(p.addr.ip).value, p.addr.port, p.addr.zone);
      AddrInFrame(p.data, addrBytes, buf[..], total);
      var addrLen := FromLe16(buf[offset..offset + 2]);
      var at := offset + 2;
      assert buf[at..at + addrLen] == addrBytes;
      AddrRoundTrip(codec, p.addr);
      var addr := DecodeUDPAddr(codec, buf[at..at + addrLen]);
      return Ok((offset - 2, addr.value));
    }

    /** The packets that wait can still be read; the channel is closed by the first call only. */
    method Close()
      requires Valid()
      modifies this`closed, this`closes
      ensures Valid() && closed && closes == 1
      ensures pending == old(pending) && frames == old(frames)
    {
      if !closed {
        CloseChannel();
      }
    }

    method CloseChannel()
      requires !closed
      modifies this`closed, this`closes
      ensures closed && closes == old(closes) + 1
    {
      closed := true;
      closes := closes + 1;
    }
  }
}
