# A model of a WireGuard hole-punching client

This project models the stateful core of a Go client that connects WireGuard peers through NAT, and proves
what that core guarantees over all inputs, all runs and all interleavings of its lock sections. Verify it with
`dafny verify dfyconfig.toml`.

What is modelled, part by part:

- **ICE UDP multiplexer.** Many logical connections share one UDP socket. They are indexed by ufrag (one map per
  address family) and by remote address, and each connection lists the addresses it has sent to. `MuxModel` is the
  state machine whose steps are the lock sections of the source: no operation holds its locks throughout, so a run
  is any interleaving of sections, and a half-finished `WriteTo` or `RemoveConnByUfrag` is part of the state.
  `Mux` holds the classes whose methods are proved to take those steps, `MuxTheorems` and `MuxDispatch` what every run
  guarantees. STUN messages (RFC 8489) are dispatched by source address and by the USERNAME prefix (section 7.2.2 of
  RFC 8445).
  `MuxWatchers` adds the goroutine that waits for a connection to close; `MuxWitness` holds concrete runs.
- **XOR-mapped address cache.** Answers of STUN servers (XOR-MAPPED-ADDRESS, section 14.2 of RFC 8489) with a time to
  live, and callers that wait on a channel for them (`XorModel`, `XorHistory`, `XorCache`); and the memo table over the
  routing filter, shared by overlapping writes without a lock (`FilterModel`, `FilterCache`).
- **Packet framing.** A length-prefixed codec in recycled buffers (`Frame`, `Bytes`).
- **eBPF proxy.** The wrap-around port allocator (`Ports`, `PortHistory`), the XDP program that rewrites ports on a little-endian
  machine (`Xdp`), both end to end (`Delivery`), the manager that attaches the program for its two features
  (`Manager`), and manager and program together (`Attachment`, `Stale`).
- **WireGuard configuration.** The text a user-space device is configured with (the WireGuard cross-platform
  configuration protocol): printer (`Uapi`, spelled out in `UapiSpelled`), the device's reader (`UapiParse`), the two together (`UapiRoundTrip`), the two
  scans of a device's dump (`UapiScan`), and the user-space and kernel versions of `removeAllowedIP` side by side
  (`AllowedIps`).
- **Smaller parts.** In-place batch filtering (`Batch`), the signalling server's peer table (`SignalStore`),
  applying input to the configuration (`ClientConfig`), and retrying with a jittered delay (`Backoff`). `Text`, `Folds`,
  `Histories`, `Slices` and `Wrappers` are shared helpers.

How the interleavings are modelled. Each step is one critical section, or a read outside any lock. `RemoveConnByUfrag`
reads a connection's address list while it holds the address-map lock (`iface/bind/udp_mux.go:282-290`); an
address appended after that read is registered under the same lock, hence later, so the whole loop is one step
(`Purge`). The goroutine that waits for a connection to close (`iface/bind/udp_mux.go:247-250`) calls
`RemoveConnByUfrag`, so its runs are runs of these steps (`MuxWatchers.Projects`). Blocking and timeouts are steps that are
not taken or that end a caller.

Findings. Each is proved as an exact condition; where that ranges over runs, a run that fails it is given too:

- A connection taken out of the multiplexer can come back into the address map: `registerConnForAddress` tests the
  closed flag before it takes the lock, and a write in flight is not stopped (`MuxWitness.ClosedConnReappears`).
  `MuxTheorems.StaysOutIff` says exactly when it cannot.
- The watcher of a closed connection goes by ufrag and so can remove a newer, open connection
  (`MuxWatchers.LateWatcherRemovesNewer`); `MuxWatchers.WokenIff` says exactly which connections stay.
- Two racing first writes to one address store the connection twice, and every later message from there reaches it
  twice (`MuxDispatch.RacingWritesDuplicate`); `MuxDispatch.CopiesIff` says exactly when this cannot happen.
- A message whose USERNAME names a registered connection may go to the connection of the other address family
  instead, because destinations are compared by key (`MuxDispatch.RegisteredGetsItIff`, `MuxWitness.OtherFamilyGetsIt`).
- The comments say that a closed channel means an address was obtained (`iface/bind/udp_mux_universal.go:288`) and that it
  is closed when the response has been received (lines 309-312). Expiry closes it too, and an answer can be dropped before
  the caller it woke reads it (`XorModel.ExpiryWakesEmptyHanded`, `XorHistory.AnswerDroppedBeforeWake`).
  `XorHistory.WokenFindsIff` says exactly when a woken caller finds an address. The model follows the code.
- `remove=true` is written without a newline (`iface/wg_configurer_usp.go:340`), so whatever follows is glued to it and the
  device rejects the text; `UapiRoundTrip.RoundTripIff` says exactly which configurations are read back. `UpdateOnly` is
  never printed.
- `DeviceWrapper.Write` counts the packets it keeps in a variable called `dropped` and adds that to the number written
  (`iface/device_wrapper.go:83-90`); `Batch.WriteCountIff` says when the result is nevertheless the size of the batch.
  `Read` leaves a batch in which the last buffer occurs more than once (`Batch.BuffersSurviveIff`).
- `findPeerInfo` reports a missing key, not a missing peer, unless no key is asked for (`UapiScan.InfoIsExact`).
- The allocator grants WireGuard's own port like any other (`Delivery.EveryPortIsGranted`), and a packet injected from that
  port is sent back to the proxy (`Delivery.InjectedIff`).
- A load that attaches the XDP program and then fails to write a setting leaves it attached with no feature
  (`Manager.AttachedWhileNeededIff`, `Manager.LoadLeavesAttached`). Ports that change while it is attached can go unnoticed
  (`Attachment.ChangedPortUnnoticed`); `Attachment.RewritesAsWrittenIff` says exactly when they do not.
- The filter cache is never reset (the source marks this with a TODO, `iface/bind/udp_mux_universal.go:119`), so writes
  go by stale routes (`FilterModel.StaleAnswerPasses`), and the stale answer need not be the first one
  (`FilterModel.RacingAnswersOverwrite`). `FilterModel.FollowsRoutesIff`, `FilterModel.CurrentFilterIff` and
  `FilterModel.FirstAnswerStaysIff` say exactly when.
- An explicit zero port or empty name makes the configuration alternate between that and the default on every
  start (`ClientConfig.ApplyTwiceIff`, `ClientConfig.ThirdIsFirst`).

## Model

| member | source | states |
|---|---|---|
| MuxModel.RunInv | iface/bind/udp_mux.go:225-347 | In every interleaving of lock sections from a good state: registered connections carry the ufrag they are registered under, removals in flight hold only unregistered connections, and each stored copy of a connection (or copy a write in flight will still store) is paid for by one occurrence of the address in its own list |
| MuxModel.NextInv | iface/bind/udp_mux.go:225-347 | Each single lock section keeps that invariant |
| MuxModel.DetachInv | iface/bind/udp_mux.go:266-275 | The section of a removal under the mux lock keeps the invariant |
| MuxModel.PurgeInv | iface/bind/udp_mux.go:282-290 | The section of a removal under the address-map lock keeps it |
| MuxModel.CloseMuxInv | iface/bind/udp_mux.go:304-325 | Closing the mux keeps it |
| MuxModel.GetConnInv | iface/bind/udp_mux.go:235-258 | Creating a connection keeps it |
| MuxModel.AppendInv | iface/bind/udp_muxed_conn.go:139-146 | Appending an address to a connection's list keeps it |
| MuxModel.RegisterInv | iface/bind/udp_mux.go:336-344 | Storing a connection for an address keeps it |
| MuxTheorems.IndexedAddressIsOwn | iface/bind/udp_mux.go:331-347 | In every run, a connection stored for an address has that address in its own list |
| MuxTheorems.PurgeClears | iface/bind/udp_mux.go:282-290 | When a removal ends, the removed connections are in no map and no address entry; exactly the addresses they used have lost their entry and every other entry is untouched |
| MuxTheorems.DetachTakesOut | iface/bind/udp_mux.go:262-280 | The first section of a removal takes out exactly the connections with the ufrag and leaves them to the second section |
| MuxTheorems.StaysUnregistered | iface/bind/udp_mux.go:225-291 | A connection that has left the ufrag maps never returns to them, in any continuation |
| MuxTheorems.StaysOutIff | iface/bind/udp_muxed_conn.go:80-91 | A connection in no address entry stays out in every continuation if and only if it or the mux is closed and no write of it in flight can still register it |
| MuxWitness.ClosedConnReappears | iface/bind/udp_mux.go:331-347 | A concrete run after which a closed connection whose removal is complete is stored for an address again |
| MuxTheorems.SettledIsFrozen | iface/bind/udp_mux.go:304-347 | In every run: once the mux is closed and no removal and no registration is in flight, the ufrag maps are empty and the address map never changes again; nothing cleans it up |
| MuxTheorems.WrittenInv | iface/bind/udp_muxed_conn.go:80-91 | An uninterrupted WriteTo keeps the invariant |
| MuxTheorems.WrittenIsRun | iface/bind/udp_muxed_conn.go:80-91 | A write that nothing interrupts, with no other write of the connection to that address in flight, has the effect of its five sections in order |
| MuxDispatch.UfragOf | iface/bind/udp_mux.go:389 | The ufrag is the part of USERNAME before the first colon, or all of it |
| MuxDispatch.DispatchCopies | iface/bind/udp_mux.go:372-410 | In every reachable state the destinations are the stored connections and at most one more; nobody gets more copies than it is stored times, and one that is not stored gets at most one |
| MuxDispatch.DispatchReaches | iface/bind/udp_mux.go:387-410 | If the USERNAME prefix names a registered connection of the source's family, some connection with that key receives the message |
| MuxDispatch.RegisteredGetsItIff | iface/bind/udp_mux.go:397-407 | The registered connection itself receives it if and only if it is stored for the source or no stored connection has its key |
| MuxWitness.OtherFamilyGetsIt | iface/bind/udp_mux.go:397-407 | A concrete run after which a message that names the IPv6 connection goes to the IPv4 connection with the same ufrag and to nobody else |
| MuxDispatch.CopiesIff | iface/bind/udp_muxed_conn.go:80-91 | No continuation ever stores a connection twice for an address if and only if the copies stored, and those that writes in flight can add, number at most one and no two new writes can race |
| MuxDispatch.RacingWritesDuplicate | iface/bind/udp_muxed_conn.go:86-88 | A concrete run in which two racing writes store a connection twice for one address |
| MuxDispatch.SerialWritesDispatchOnce | iface/bind/udp_muxed_conn.go:80-91 | If writes of a connection to one address never overlap, no message from that address reaches it twice, whatever else runs in parallel |
| MuxDispatch.RunKeepsConns | iface/bind/udp_mux.go:349-358 | A connection keeps its key in every run |
| MuxWatchers.RegisteredIsWatched | iface/bind/udp_mux.go:246-256 | In every run with watcher goroutines, the watcher of a registered connection has not run yet |
| MuxWatchers.Projects | iface/bind/udp_mux.go:247-250 | The mux part of every run with watchers is a run of lock sections, so that all other results hold of it |
| MuxWatchers.WokenIff | iface/bind/udp_mux.go:247-250 | Whatever watchers run, in whatever order: a connection stays registered if and only if none of them belongs to a closed connection with its ufrag |
| MuxWatchers.OnlyOpenIff | iface/bind/udp_mux.go:242-244 | In every run: after some watchers have run GetConn can return open connections only, if and only if one of them was due under the ufrag of each closed registered connection |
| MuxWatchers.AllWatchersClean | iface/bind/udp_mux.go:247-250 | Once the watcher of every closed connection has run, in any order, only open connections are registered |
| MuxWatchers.LateWatcherRemovesNewer | iface/bind/udp_mux.go:247-250 | A concrete run in which the watcher of a closed connection takes out a newer open one with the same ufrag |
| Mux.UdpMux.GetConn | iface/bind/udp_mux.go:225-259 | Fails for a wrong local address and for a closed mux; otherwise returns the registered connection, creating it, open and without addresses, only if there is none, with a watcher pending for it; every other ufrag of both families keeps its connection |
| Mux.UdpMux.Detach | iface/bind/udp_mux.go:266-275 | Returns the connections with the ufrag, IPv4 before IPv6, and takes the corresponding step |
| Mux.UdpMux.Purge | iface/bind/udp_mux.go:282-290 | Deletes exactly the entries of all addresses the removed connections list |
| Mux.UdpMux.DeleteUsed | iface/bind/udp_mux.go:285-290 | The loop over the removed connections deletes the union of their addresses and nothing else |
| Mux.UdpMux.RemoveConnByUfrag | iface/bind/udp_mux.go:262-291 | Uninterrupted: the ufrag leaves both maps, exactly the addresses that the connections under it list lose their entries, and all else is unchanged |
| Mux.UdpMux.RunWatcher | iface/bind/udp_mux.go:247-250 | The watcher of a closed connection removes what is registered under its ufrag, and every registered connection still has its own watcher |
| Mux.UdpMux.Close | iface/bind/udp_mux.go:304-325 | The first call closes every connection registered before it, of both families and no other, and empties both ufrag maps; a later call changes nothing; the address map stays |
| Mux.UdpMux.CloseConn | iface/bind/udp_muxed_conn.go:113-120 | Only the connection's closed flag changes |
| Mux.UdpMux.BeginWrite | iface/bind/udp_muxed_conn.go:81-83 | A write gets under way exactly if the connection is open |
| Mux.UdpMux.CheckAddr | iface/bind/udp_muxed_conn.go:148-157 | Tells whether the address is listed, and takes the corresponding step |
| Mux.UdpMux.Append | iface/bind/udp_muxed_conn.go:139-143 | The address joins the end of the connection's list |
| Mux.UdpMux.CheckMux | iface/bind/udp_mux.go:332-334 | A registration goes on exactly if the mux is open |
| Mux.UdpMux.Register | iface/bind/udp_mux.go:336-344 | The connection joins the end of the entry of the address |
| Mux.UdpMux.WriteTo | iface/bind/udp_muxed_conn.go:80-91 | Uninterrupted: an open connection that writes to a new address lists it and, if the mux is open, joins the connections stored for it once more, whatever the socket then does; in all other cases lists and entries stay; the result is that of the socket, or an error for a closed connection |
| Mux.UdpMux.FindDestinations | iface/bind/udp_mux.go:372-410 | Computes the destinations that the dispatch lemmas are about |
| Mux.UdpMux.HandleSTUNMessage | iface/bind/udp_mux.go:361-421 | An open connection gains one copy of a message that fits a frame for each time it is stored for the source, and one if USERNAME names it and no stored one has its key, as far as its buffer has room and behind what it had; so all of these get the message; nobody else gains anything, and all maps stay |
| Mux.MuxedConn.ContainsAddress | iface/bind/udp_muxed_conn.go:148-157 | True exactly if the address is in the list |
| XorModel.RunInv | iface/bind/udp_mux_universal.go:235-369 | In every interleaving: an entry in the map has its channel closed exactly if its address is known, an entry outside has it closed, and it is closed at most once |
| XorModel.NoLostWaiter | iface/bind/udp_mux_universal.go:313-338 | Every channel a caller waits on is closed or belongs to the entry now in the map for that server |
| XorModel.WaitersWake | iface/bind/udp_mux_universal.go:235-253 | A response from the server, or a lookup after the entry's time, wakes every caller waiting for that server |
| XorModel.ClosedOnce | iface/bind/udp_mux_universal.go:346-356 | No channel is closed twice; a channel closed without an address belongs to an expired entry that has left the map |
| XorHistory.AnswersCame | iface/bind/udp_mux_universal.go:235-307 | In every run, every returned address is, unchanged, that of a response step whose source was the server asked, handled at the recorded time while the server had an entry; on the cache-hit path that was at most the time to live before the lookup |
| XorHistory.LogIff | iface/bind/udp_mux_universal.go:235-253 | The responses the cache has handled are exactly those the steps of the run have brought |
| XorHistory.WokenFindsIff | iface/bind/udp_mux_universal.go:286-303 | In every run, a caller whose channel is closed finds an address if and only if the entry now in the map for the server has its channel closed; in terms of the history, if and only if a response was handled and no lookup has dropped an expired entry of the server since |
| XorHistory.CurrentIffAnswered | iface/bind/udp_mux_universal.go:235-303 | At every point of every run the map holds an address for a server if and only if that is its history |
| XorHistory.AnswerDroppedBeforeWake | iface/bind/udp_mux_universal.go:264-303 | A concrete run in which a caller is woken by a response and finds no address, because a lookup dropped the answer first |
| XorModel.ExpiryWakesEmptyHanded | iface/bind/udp_mux_universal.go:264-303 | A concrete run in which a caller is woken by expiry, without any response, and finds no address |
| XorCache.Cache.LookUp | iface/bind/udp_mux_universal.go:259-273 | Answers from the entry in the map exactly if it is unexpired and has an address; an expired entry wakes its waiters and is dropped, otherwise the map stays |
| XorCache.Cache.ReadHit | iface/bind/udp_mux_universal.go:274-276 | The address returned is the one in the entry, read after the lock is released |
| XorCache.Cache.SendSTUN | iface/bind/udp_mux_universal.go:313-338 | Waits on the entry of the server; one is created, open, without address and with the full time to live, only if there is none, and no other entry is touched |
| XorCache.Cache.HandleXORMappedResponse | iface/bind/udp_mux_universal.go:235-253 | Exactly if the server has an entry and the attribute can be read, the entry holds that address and the present time, also over an older address, and its waiters are woken; no other entry changes its address |
| XorCache.Cache.ReadWoken | iface/bind/udp_mux_universal.go:287-303 | The woken caller gets the address of the entry now in the map, if there is one |
| XorCache.XorMapped.CloseWaiters | iface/bind/udp_mux_universal.go:346-356 | Closes the channel at most once |
| XorCache.XorMapped.SetAddr | iface/bind/udp_mux_universal.go:366-369 | Sets the address and wakes the waiters |
| FilterModel.RunInv | iface/bind/udp_mux_universal.go:123-173 | In every interleaving of the looks, filter calls and stores of any number of writes, the cache holds for each address the answer stored last |
| FilterModel.CacheIsTransparent | iface/bind/udp_mux_universal.go:123-173 | While the routes do not change, in every interleaving of any number of writes each is passed on exactly if an uncached check passes it on |
| FilterModel.FollowsRoutesIff | iface/bind/udp_mux_universal.go:123-173 | In every run, a decision is the one the present routes call for: on a cache hit if and only if the answer stored last is the present one; on storing an answer if and only if it still stands; without an answer always |
| FilterModel.CurrentFilterIff | iface/bind/udp_mux_universal.go:119-133 | A write that nothing interrupts goes by the present routes, whatever else is in flight, if and only if no answer is stored for the address or the one stored last is the present one |
| FilterModel.EntryIsFinalIff | iface/bind/udp_mux_universal.go:162-166 | A cached answer is never replaced in any continuation if and only if no write to the address is in flight that has yet to ask or has the other answer |
| FilterModel.FirstAnswerStaysIff | iface/bind/udp_mux_universal.go:162-166 | The first answer stored for an address stays in every continuation if and only if, at that moment, no other write to it is in flight that has yet to ask or has the other answer |
| FilterModel.SerialWritesStoreOnce | iface/bind/udp_mux_universal.go:123-173 | If writes to an address never overlap, at most one answer is ever stored for it |
| FilterModel.RacingAnswersOverwrite | iface/bind/udp_mux_universal.go:128-166 | A concrete run in which the second of two overlapping writes overwrites the first answer, and a later write is passed on although first answer and present routes both call for a refusal |
| FilterModel.StaleAnswerPasses | iface/bind/udp_mux_universal.go:119 | A concrete run without overlap in which a change of routes goes unnoticed |
| FilterCache.UdpConn.Load | iface/bind/udp_mux_universal.go:124-130 | The look into the cache: the decision it makes, if any, and the step it takes |
| FilterCache.UdpConn.Ask | iface/bind/udp_mux_universal.go:149-172 | The call of the filter: its answer, or a write passed on if the address does not parse or the filter fails |
| FilterCache.UdpConn.Store | iface/bind/udp_mux_universal.go:165-172 | Storing the answer and going by it |
| FilterCache.UdpConn.WriteTo | iface/bind/udp_mux_universal.go:123-147 | The three steps in order: an uninterrupted write decides and stores as `CurrentFilterIff` assumes |
| Frame.EncodeUDPAddr | iface/bind/udp_muxed_conn.go:192-210 | Writes exactly the encoded address into the buffer and leaves the rest; fails without writing if there is no text form or no room |
| Frame.AddrRoundTrip | iface/bind/udp_muxed_conn.go:192-233 | Decoding an encoded address gives it back, the IP in canonical form and the port reduced to 16 bits |
| Frame.AddrUnchangedIff | iface/bind/udp_muxed_conn.go:192-233 | It comes back unchanged if and only if the IP is canonical and the port has 16 bits |
| Frame.PackFrame | iface/bind/udp_muxed_conn.go:159-181 | Succeeds exactly if data and frame fit; the frame is the same whatever bytes the recycled buffer held |
| Frame.PacketQueue.WritePacket | iface/bind/udp_muxed_conn.go:159-190 | The packet joins the queue exactly if it fits, the queue is open and there is room |
| Frame.PacketQueue.ReadFrom | iface/bind/udp_muxed_conn.go:49-78 | Returns the oldest packet's data and address whatever the recycled buffer held; a reader buffer too short is an error, and all slices are in bounds |
| Frame.PacketQueue.Close | iface/bind/udp_muxed_conn.go:113-120 | Packets already queued can still be read, and the channel is closed by the first call only |
| Ports.PortStore.NextFreePort | client/internal/wgproxy/proxy_ebpf.go:219-234 | Fails exactly if all 65535 ports are taken; otherwise stops within one round at the first free port after the cursor in cyclic order |
| Ports.WalkStep | client/internal/wgproxy/proxy_ebpf.go:224-229 | The two branches of the loop walk 1, 2, ..., 65535, 1, ... |
| Ports.WalkedPortsTaken | client/internal/wgproxy/proxy_ebpf.go:219-234 | If a whole round of the walk is taken, all ports are (pigeonhole) |
| Ports.PortStore.AddTurnConn | client/internal/wgproxy/proxy_ebpf.go:95-109 | Stores the connection under the first free port after the cursor, and touches no other; fails, changing nothing, exactly if all are taken |
| Ports.PortStore.RemoveTurnConn | client/internal/wgproxy/proxy_ebpf.go:211-217 | The end of a worker takes its port out of the store and no other |
| Ports.PortStore.Lookup | client/internal/wgproxy/proxy_ebpf.go:183-189 | Finds exactly the connection whose worker serves the port, and nothing if no worker does |
| Ports.LiveConnIsStored | client/internal/wgproxy/proxy_ebpf.go:140-217 | In every run, a connection whose worker still runs is the one stored under its port |
| PortHistory.StoredIffGranted | client/internal/wgproxy/proxy_ebpf.go:95-234 | In every run, the store holds a connection under a port if and only if the port was granted to it and the worker of that grant has not ended since |
| PortHistory.FreedIsFree | client/internal/wgproxy/proxy_ebpf.go:211-217 | In every run, the port of a worker that ends is free again |
| Ports.RoundPassesEveryPort | client/internal/wgproxy/proxy_ebpf.go:219-234 | Between two visits of one port the cursor passes every other port |
| Ports.PortsAreReusedLate | client/internal/wgproxy/proxy_ebpf.go:199-234 | In every run, between two grants of one port the cursor passes every other port; port 0 is never granted |
| Xdp.HtonsInvolution | client/internal/ebpf/ebpf/src/wg_proxy.c:27 | Swapping the bytes of a port twice gives it back |
| Xdp.BytesReversed | client/internal/ebpf/ebpf/src/wg_proxy.c:27 | Converting a port reverses its two bytes |
| Xdp.ConstantsSpelled | client/internal/ebpf/ebpf/src/wg_proxy.c:40-41 | The address the proxy rule looks for is 127.0.0.1, the DNS constant is 53 in network order, and the frame is IPv4 with UDP behind 42 bytes of headers |
| Xdp.Ip2IntOnTheWire | client/internal/ebpf/ebpf/dns_fwd_linux.go:48-51 | The number written to the settings map, converted as the program does, is what it reads from a packet with those four address bytes |
| Xdp.XdpProgram.XdpWgProxy | client/internal/ebpf/ebpf/src/wg_proxy.c:32-54 | The packet and the cached ports afterwards, for every branch |
| Xdp.XdpProgram.XdpDnsFwd | client/internal/ebpf/ebpf/src/dns_fwd.c:44-64 | The packet and the cached settings afterwards, for every branch |
| Xdp.XdpProgram.NbXdpProg | client/internal/ebpf/ebpf/src/prog.c:22-59 | The whole program: header checks, then both rewriters in order on the same packet |
| Xdp.ProgramRefines | client/internal/ebpf/ebpf/src/prog.c:22-59 | On the wire the program does what the forwarding rules say in terms of addresses and port numbers |
| Xdp.CachingIsTransparent | client/internal/ebpf/ebpf/src/prog.c:22-59 | After any packets, with features coming and going, the cached globals never show |
| Xdp.DnsRoundTripIff | client/internal/ebpf/ebpf/src/dns_fwd.c:44-64 | A query to port 53 of the DNS address, forwarded, answered and rewritten back, gives the swap of the query if and only if the proxy's rule keeps out of it and it was not itself sent from port 53 of that address (or the custom port is 53) |
| Xdp.DnsRoundTripOnTheWire | client/internal/ebpf/ebpf/src/dns_fwd.c:24-64 | The same through the program itself, with all byte-order conversions and whatever it has cached |
| Xdp.OthersUntouched | client/internal/ebpf/ebpf/src/prog.c:36-58 | Packets that match no rule, and all that is not UDP over IPv4, pass unchanged |
| Delivery.DeliveredIff | client/internal/wgproxy/proxy_ebpf.go:95-197 | In every run of the proxy and after any packets, WireGuard's packet to the endpoint of a live connection arrives at the proxy under that port and is looked up to that very connection, if and only if the DNS forwarder does not clash |
| Delivery.InjectedIff | client/internal/wgproxy/proxy_ebpf.go:274-305 | An injected packet passes unchanged if and only if the port is not WireGuard's own (or the rewriting is the identity) and the DNS forwarder does not take hold of it |
| Delivery.AnswerComesFromEndpoint | client/internal/wgproxy/proxy_ebpf.go:274-305 | What WireGuard then sees is an answer from the endpoint it sent to |
| Delivery.EveryPortIsGranted | client/internal/wgproxy/proxy_ebpf.go:219-234 | Every port, WireGuard's own included, is granted in some run |
| Manager.RunInv | client/internal/ebpf/ebpf/manager_linux.go:52-116 | In every run, failing kernel calls included, a non-zero flag word means the program is attached, and features counted on or seen by the kernel have their settings |
| Manager.FlagsAreBacked | client/internal/ebpf/ebpf/wg_proxy_linux.go:10-41 | A feature bit the kernel sees in a reachable state has had its settings written since the last load |
| Manager.GoodRunsStayInStep | client/internal/ebpf/ebpf/manager_linux.go:52-116 | If no call fails, kernel flags equal manager flags and the program is attached exactly while a flag is set |
| Manager.SeenIffLoadedLast | client/internal/ebpf/ebpf/manager_linux.go:52-116 | In every run in which no call fails, the kernel sees a feature, the program being attached, if and only if the last operation on it was a load, and then with the settings of that load |
| Manager.AttachedWhileNeededIff | client/internal/ebpf/ebpf/dns_fwd_linux.go:15-46 | One operation keeps "attached exactly while needed" if and only if it is not a load that attaches and then fails to write a setting |
| Manager.LoadLeavesAttached | client/internal/ebpf/ebpf/wg_proxy_linux.go:15-23 | Every first load that attaches and cannot write its first setting leaves the program attached with no feature |
| Manager.GeneralManager.LoadXdp | client/internal/ebpf/ebpf/manager_linux.go:56-88 | Attaches unless it already is, with fresh maps; any failing call leaves it detached |
| Manager.GeneralManager.LoadWgProxy | client/internal/ebpf/ebpf/wg_proxy_linux.go:10-36 | Success exactly if every call succeeds, and then both given ports are in the maps, the bit is set and seen by the kernel, and the other feature keeps its settings; the state after each possible failure |
| Manager.GeneralManager.LoadDnsFwd | client/internal/ebpf/ebpf/dns_fwd_linux.go:15-41 | Success exactly if every call succeeds, and then the given address and port are in the maps, the bit is set and seen by the kernel, and the other feature keeps its settings; the state after each possible failure |
| Manager.GeneralManager.UnsetFeatureFlag | client/internal/ebpf/ebpf/manager_linux.go:90-104 | The bit is cleared and every other bit stays; the program is detached if none is left, otherwise the kernel sees what is left unless that call fails |
| Attachment.RewritesAsWritten | client/internal/ebpf/ebpf/manager_linux.go:52-116 | In every run of manager operations, failing calls and packets in between included, with ports fixed for each attachment: the attached program rewrites every datagram as the settings last written call for, and all settings of the features it acts on have been written |
| Attachment.RewritesAsWrittenIff | client/internal/ebpf/ebpf/src/wg_proxy.c:32-38 | In every run, with ports that may change: it does so if and only if what it acts by, cached or read now, agrees with the settings for each feature that is on |
| Attachment.ChangedPortUnnoticed | client/internal/ebpf/ebpf/src/wg_proxy.c:32-38 | A run with two loads in which the second proxy port goes unnoticed |
| Stale.RewritesIff | client/internal/ebpf/ebpf/src/prog.c:22-59 | For any settings and any cached globals: the program rewrites every datagram by the settings if and only if its effective proxy ports are the same and its effective DNS address and port are, or port 53 makes the forwarder the identity |
| Uapi.ToWgUserspaceString | iface/wg_configurer_usp.go:311-360 | The text is that of the printed lines the round trip is proved about, `remove=true` without newline included |
| UapiSpelled.DeviceSpelled | iface/wg_configurer_usp.go:313-328 | The lines about the device, with their names spelled out and in their order |
| UapiSpelled.HeadSpelled | iface/wg_configurer_usp.go:331-337 | The lines of a peer before a removal |
| UapiSpelled.TailSpelled | iface/wg_configurer_usp.go:343-357 | The lines of a peer after it, in their order |
| UapiSpelled.AllowedSpelled | iface/wg_configurer_usp.go:347-349 | One line for each allowed prefix, in order |
| UapiSpelled.UpdateSpelled | iface/wg_configurer_usp.go:330-357 | The text of a peer with one prefix, an endpoint and a keepalive of 25 seconds, spelled out |
| UapiSpelled.RemovalSpelled | iface/wg_configurer_usp.go:331-341 | The text of a peer that is removed, which ends without a newline |
| UapiSpelled.NumbersSpelled | iface/wg_configurer_usp.go:319-356 | Numbers are decimal, durations whole seconds cut off towards zero |
| UapiSpelled.HexSpelled | iface/wg_configurer_usp.go:314 | Keys are two lower-case hexadecimal digits a byte |
| Text.IntRoundTrip | iface/wg_configurer_usp.go:318-328 | A printed decimal number reads back |
| Text.HexRoundTrip | iface/wg_configurer_usp.go:313-315 | A printed key reads back |
| UapiParse.ParseKeyLine | iface/wg_configurer_usp.go:311-360 | A printed line is read as its field and value |
| UapiRoundTrip.ReadsBack | iface/wg_configurer_usp.go:311-360 | Printing then parsing gives back the configuration if removal is on the last peer only with nothing after it |
| UapiRoundTrip.RoundTripIff | iface/wg_configurer_usp.go:311-360 | A configuration is read back, up to UpdateOnly and fractions of a second, if and only if it has that shape; every other one is rejected |
| UapiRoundTrip.OnePeerReadsBackIff | iface/wg_configurer_usp.go:38-120 | Every request about one peer, the shape the callers build, is read back unless it removes the peer and sets something else at once |
| UapiRoundTrip.GluedRemoveRejected | iface/wg_configurer_usp.go:338-341 | A removal with anything behind it on its line is rejected |
| UapiScan.RemoveAllowedIP | iface/wg_configurer_usp.go:122-183 | The flag-driven loop computes the fold of its line step over the trimmed lines |
| UapiScan.RemovalIsExact | iface/wg_configurer_usp.go:122-183 | For every dump it rebuilds exactly the peer's prefixes without the given one, in order and canonical; not found exactly if it is absent |
| UapiScan.PrefixesSpelled | iface/wg_configurer_usp.go:166-172 | The allowed prefixes of lines are what follows `allowed_ip=`, line by line in order |
| UapiScan.PeerPrefixesSpelled | iface/wg_configurer_usp.go:148-157 | Those of a peer are the ones in its sections, in order |
| UapiScan.FindPeerInfo | iface/wg_configurer_usp.go:264-309 | The loop with its early exit computes the search over the trimmed lines |
| UapiScan.InfoIsExact | iface/wg_configurer_usp.go:264-309 | Values come from the section of the peer only, the last one for each key asked for; success exactly if the peer is there with all keys; a missing peer is reported as a missing key |
| AllowedIps.RemoveAllowedIP | iface/wg_configurer_kernel_unix.go:125-148 | The first occurrence of the prefix, in canonical form, goes from the list in place; a list without it, or an argument that is no prefix, leaves everything |
| AllowedIps.RemoveInPlace | iface/wg_configurer_kernel_unix.go:141-148 | The in-place removal leaves the list without the first occurrence |
| AllowedIps.AllOrFirstIff | iface/wg_configurer_usp.go:159-173 | Removing all occurrences or the first one is the same if and only if there is at most one |
| AllowedIps.SameListIff | iface/wg_configurer_kernel_unix.go:125-165 | The two configurers leave an existing peer with the same list if and only if the argument is no prefix, or is canonical and listed at most once, or its canonical form is not listed |
| Batch.Read | iface/device_wrapper.go:46-68 | The filter has been asked about every packet once, in order; the first slots are exactly the kept packets and sizes in order; the loop that changes its own bound ends; the exact contents of all other slots |
| Batch.KeptPositions | iface/device_wrapper.go:58-65 | What is kept are exactly the elements at the positions whose packet is not dropped, in their order |
| Batch.BuffersSurviveIff | iface/device_wrapper.go:58-65 | The caller still holds all its buffers if and only if nothing was dropped, or only the packet in the very last slot |
| Batch.Write | iface/device_wrapper.go:71-92 | The filter has been asked about every packet once; exactly the kept buffers are forwarded in order; the count returned is the device's plus the number kept |
| Batch.WriteCountIff | iface/device_wrapper.go:80-91 | If the device writes all, the count is the batch size if and only if as many packets were dropped as kept |
| Slices.ShiftLeft | iface/device_wrapper.go:60-61 | `append(a[:i], a[i+1:]...)` on the array behind the slice |
| SignalStore.Store.Register | signal/store/peer.go:31-53 | The row of the client under its token is refreshed, zero values leaving what was there and the allowed address untouched, or appended if there is none; the table stays the one that the history of logins determines |
| SignalStore.Store.GetClients | signal/store/peer.go:55-75 | Every other client that has logged in under the token, exactly once, as its history describes it |
| SignalStore.OneRowPerClient | signal/store/peer.go:31-53 | After any logins there is one row per token and client |
| SignalStore.RowIff | signal/store/peer.go:31-53 | A row is in the table if and only if it is what the client's history says: latest non-zero IP, port and key, first allowed address |
| SignalStore.LoginsCount | signal/store/peer.go:35 | The history of a client are the logins with its token and client id, each as often as it occurred |
| SignalStore.LatestShownIff | signal/store/peer.go:37-41 | A row shows the latest login if and only if no zero value in it is overridden by an older one; the allowed address is always the first |
| SignalStore.ClientsExactlyOnce | signal/store/peer.go:55-75 | The same as a statement about the table alone |
| ClientConfig.Config.Apply | client/internal/config.go:201-247 | A given port or name that differs from the old one is the new one, otherwise a zero one is replaced by the default; a key is generated only if there is none, the blacklist only grows; and `updated` is reported if and only if something differs |
| ClientConfig.SliceDiff | util/common.go:6-18 | The elements not in the other list in order, each as often as it occurred |
| ClientConfig.DifferenceParts | util/common.go:14-17 | The difference goes element by element, in order |
| ClientConfig.BlackListCovers | client/internal/config.go:231-244 | Afterwards every interface asked for is in the blacklist, and nothing else is added |
| ClientConfig.ApplyTwiceIff | client/internal/config.go:209-229 | Applying the same input again changes nothing if and only if no zero port and no empty name was given |
| ClientConfig.ThirdIsFirst | client/internal/config.go:209-229 | The third application of an input restores the result of the first |
| Backoff.Retrier.Retry | util/retry.go:10-28 | Calls, reports, waits and the error returned are those of the specification below |
| Backoff.CallsMadeIs | util/retry.go:11-24 | Calls are made up to the first that does not fail, at least one and at most max(1, attempts) |
| Backoff.RetriedCalls | util/retry.go:10-28 | That many calls are made; no error is returned if and only if the last call was done, otherwise its error, unwrapped if it stopped the retries |
| Backoff.RetriedReports | util/retry.go:20 | Every error but the last is reported, in order |
| Backoff.RetriedWaits | util/retry.go:17-22 | One wait between two calls, the j-th at least 2^j and less than 1.5 * 3^j times the first delay |
| Backoff.FitsIff | util/retry.go:17-22 | The delays cannot overflow, whatever is drawn, if the first times 3^(attempts-1) is a 64-bit number; with one attempt the delay does not matter |

## Left out

- Frame.AddrRoundTrip: Go's text form of IP addresses is a parameter whose reading is assumed to be the inverse of its writing up to a canonical form.
- Frame.PacketQueue.WritePacket: the limit of the packet buffer is an input (`full`); deadlines of readers are not modelled.
- Frame.PacketQueue.ReadFrom: a read that blocks on an open empty queue is a call that has not happened yet.
- Mux.UdpMux.Close: the socket and the packet buffers are not part of the state; that a connection's channel and its buffer are closed one after the other is one step.
- Mux.UdpMux.WriteTo: what the socket returns, a refusal by the routing filter included, is an input.
- Mux.UdpMux.HandleSTUNMessage: decoding of STUN messages is left out, USERNAME is an input, and so are whether the message fits a frame and how many copies a connection's buffer has room for; its lock sections run uninterrupted in the method, while the dispatch lemmas let anything happen between them.
- XorCache.Cache.LookUp: the clock is a parameter that never goes back; the clock is read once per section.
- XorCache.Cache.HandleXORMappedResponse: decoding of the attribute is an input.
- FilterModel.RunInv: splitting and parsing an address are fixed functions, and the filter is one at any moment; logging and what the socket does with a write are left out.
- Ports.PortStore.AddTurnConn: goroutines and sockets are reduced to "a worker ends"; data passed on by a worker is not modelled.
- Xdp.ProgramRefines: the globals hold the present settings or have not been read; `Attachment` and `Stale` treat the other cases; lookups in array maps cannot fail; IP header options shift the UDP header in reality but not for the program, which reads fixed offsets.
- Xdp.DnsRoundTripIff: the proxy's port is taken to differ from WireGuard's and from 53, which are other sockets.
- Manager.RunInv: the flag word is a set of its bits; failures are inputs of each operation.
- UapiRoundTrip.RoundTripIff: the device's parser is modelled for the keys the printer writes and a few more; limits of numbers, duplicate peers and the meaning of carriage returns are not; floating-point rounding of keepalives above about 97 days is not.
- UapiScan.RemovalIsExact: a dump is any list of peers with clean lines; reading a prefix (`net.ParseCIDR`) is a function.
- AllowedIps.SameListIff: about an existing peer; the kernel's list of peers is searched for the first match, and the calls that fetch and set it are not modelled.
- Batch.Read: errors of the device and the case without filter return before the loop.
- SignalStore.Store.Register: the database is a list of rows in order of creation; the rules of gorm (struct updates skip zero fields, comparison of strings is exact) are assumed, and the keep-alive time, set once at creation, is left out.
- ClientConfig.Config.Apply: the generated key is an input that is not empty; fields that `apply` never touches are left out.
- Backoff.Retrier.Retry: if the first call fails, the delay must be positive and must not overflow in any draw, which is slightly more than that it does not overflow in the draws made; results of the calls are given in advance by position.
- Platform tun devices, netlink, kernel modules, UAPI sockets, raw sockets and `iface/netstack`: foreign calls.
- `sharedsock/stun_filter_linux.go`: six straight-line instructions.
- Signalling messages, the engine, connection set-up and `client/internal/peer/conn.go`: JSON, timers and goroutine start-up around libraries.
- Internals of pion, wireguard-go, gopacket, gorm and cilium/ebpf; logging, environment variables, file writing.
