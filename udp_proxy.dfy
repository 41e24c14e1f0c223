// The UDP proxy module (`INVISVUDPProxy`).  A client endpoint A:a that
// sends to this proxy P:p is represented towards the next-hop proxy C:c by
// the proxy's own address and a free port P:b.  The NAT table holds both
// directions, A:a -> P:b (forward, with the last refresh time) and
// P:b -> A:a (reverse); the two entries are created and removed together.
module UdpProxy {
  import opened Util

  /** `IpProto::kUdp`. */
  const ProtoUdp: int := 17
  /** `kMaxTrials`: ports probed per range. */
  const MaxTrials: nat := 128
  /** `kTimeOutNs`: five minutes without a forward packet. */
  const TimeOutNs: nat := 300 * 1000 * 1000 * 1000

  datatype Endpoint = Endpoint(addr: int, port: nat, protocol: int)
  datatype NatEntry = NatEntry(endpoint: Endpoint, lastRefresh: nat)
  /** `[begin, end)` of UDP ports; a suspended range gives out none. */
  datatype PortRange = PortRange(begin: nat, end: nat, suspended: bool)
  /** An address argument: absent (empty string), unparsable, or parsed. */
  datatype AddrArg = NoAddr | BadAddr | Addr(ip: int)
  datatype Failure = Einval

  // ---------------------------------------------------------------------
  // Configuration.

  datatype InitArg = InitArg(ranges: seq<PortRange>, proxyAddr: AddrArg, proxyPort: nat,
                             nextHopAddr: AddrArg, nextHopPort: nat)
  datatype Conf = Conf(ranges: seq<PortRange>, proxy: Endpoint, nextHop: Endpoint)

  predicate Malformed(r: PortRange)
  {
    r.begin >= r.end || r.begin > 65535 || r.end > 65535
  }

  predicate RangeOk(r: PortRange)
  {
    r.begin < r.end <= 65535
  }

  predicate ConfOk(c: Conf)
  {
    |c.ranges| >= 1 && forall i :: 0 <= i < |c.ranges| ==> RangeOk(c.ranges[i])
  }

  /** A proxy endpoint from its address and port arguments: address 0 and
      port 0 when no address is given; the port is cast to 16 bits. */
  function ProxyEndpoint(a: AddrArg, port: nat): Result<Endpoint, Failure>
  {
    match a
    case NoAddr => Ok(Endpoint(0, 0, ProtoUdp))
    case BadAddr => Err(Einval)
    case Addr(ip) => Ok(Endpoint(ip, port % U16, ProtoUdp))
  }

  /** `Init()` with the next-hop port taken from `nextHopPort`: the ranges
      are checked before anything else, an empty list stands for all
      ports, then the two endpoints are parsed. */
  function InitWith(arg: InitArg, nextHopPort: nat): Result<Conf, Failure>
  {
    if exists i :: 0 <= i < |arg.ranges| && Malformed(arg.ranges[i]) then Err(Einval)
    else
      var ranges := if arg.ranges == [] then [PortRange(0, 65535, false)] else arg.ranges;
      match ProxyEndpoint(arg.proxyAddr, arg.proxyPort)
      case Err(e) => Err(e)
      case Ok(proxy) =>
        match ProxyEndpoint(arg.nextHopAddr, nextHopPort)
        case Err(e) => Err(e)
        case Ok(nextHop) => Ok(Conf(ranges, proxy, nextHop))
  }

  /** `Init()` as written: the next-hop endpoint takes the proxy's port. */
  function InitAsWritten(arg: InitArg): Result<Conf, Failure>
  {
    InitWith(arg, arg.proxyPort)
  }

  /** `Init()` with the next-hop endpoint on its own port argument. */
  function Init(arg: InitArg): Result<Conf, Failure>
  {
    InitWith(arg, arg.nextHopPort)
  }

  /** `Init()` fails exactly on a malformed range or an unparsable address;
      otherwise the configuration is usable, keeps the given ranges (or
      the single range of all ports) and the given endpoints. */
  lemma InitSpec(arg: InitArg)
    ensures Init(arg).Ok? <==>
      (forall i :: 0 <= i < |arg.ranges| ==> !Malformed(arg.ranges[i])) &&
      !arg.proxyAddr.BadAddr? && !arg.nextHopAddr.BadAddr?
    ensures Init(arg).Ok? ==>
      var c := Init(arg).value;
      ConfOk(c) &&
      c.ranges == (if arg.ranges == [] then [PortRange(0, 65535, false)] else arg.ranges) &&
      c.proxy.protocol == ProtoUdp && c.nextHop.protocol == ProtoUdp &&
      (arg.proxyAddr.Addr? ==> c.proxy == Endpoint(arg.proxyAddr.ip, arg.proxyPort % U16, ProtoUdp)) &&
      (arg.nextHopAddr.Addr? ==> c.nextHop == Endpoint(arg.nextHopAddr.ip, arg.nextHopPort % U16, ProtoUdp)) &&
      (arg.proxyAddr.NoAddr? ==> c.proxy == Endpoint(0, 0, ProtoUdp)) &&
      (arg.nextHopAddr.NoAddr? ==> c.nextHop == Endpoint(0, 0, ProtoUdp))
  {
  }

  /** As written, a next-hop proxy on port 2000 configured beside a proxy on
      port 1000 is taken to listen on port 1000. */
  lemma InitAsWrittenIgnoresNextHopPort()
    ensures var arg := InitArg([], Addr(1), 1000, Addr(2), 2000);
      InitAsWritten(arg).Ok? && InitAsWritten(arg).value.nextHop.port == 1000 &&
      Init(arg).Ok? && Init(arg).value.nextHop.port == 2000
  {
  }

  // ---------------------------------------------------------------------
  // Clients and directions.

  /** Forward traffic: sent to this proxy by a known, allowed client. */
  predicate IsForward(proxy: Endpoint, clients: map<int, bool>, src: Endpoint, dst: Endpoint)
  {
    dst == proxy && src.addr in clients && clients[src.addr]
  }

  /** Reverse traffic: from the next-hop proxy to this proxy's address. */
  predicate IsReverse(proxy: Endpoint, nextHop: Endpoint, src: Endpoint, dst: Endpoint)
  {
    src == nextHop && dst.addr == proxy.addr
  }

  /** After `set_client` for address `a`, traffic from `a` to the proxy is
      forward traffic exactly when `allow` is set, and the decision for
      every other address is unchanged. */
  lemma SetClientDecides(proxy: Endpoint, clients: map<int, bool>, a: int, allow: bool, src: Endpoint, dst: Endpoint)
    ensures IsForward(proxy, clients[a := allow], src, dst) <==>
      dst == proxy && (if src.addr == a then allow else src.addr in clients && clients[src.addr])
  {
  }

  // ---------------------------------------------------------------------
  // The NAT table.

  /** Forward and reverse entries come in pairs, and the refresh times are
      64-bit nanosecond clock values. */
  predicate TableOk(t: map<Endpoint, NatEntry>)
  {
    forall k :: k in t ==> t[k].endpoint in t && t[t[k].endpoint].endpoint == k && t[k].lastRefresh < U64
  }

  /** The mapping held by reverse entry `e` saw no forward packet for more
      than the time-out; only the forward entry's time is kept up. */
  predicate Expired(t: map<Endpoint, NatEntry>, e: Endpoint, now: nat)
    requires TableOk(t) && e in t && now < U64
  {
    WrapSub(now, t[t[e].endpoint].lastRefresh, U64) > TimeOutNs
  }

  /** The pair of entries for `src` and `ext`, after removing the expired
      pair that held `ext`, if any.  The reverse entry's time is never
      read and is 0 here. */
  function Install(t: map<Endpoint, NatEntry>, src: Endpoint, ext: Endpoint, now: nat): map<Endpoint, NatEntry>
    requires TableOk(t)
  {
    var t1 := if ext in t then t - {ext, t[ext].endpoint} else t;
    t1[ext := NatEntry(src, 0)][src := NatEntry(ext, now)]
  }

  /** Installing a mapping for a client without one keeps the entries
      paired, maps the client and the port to each other, and keeps every
      other entry except the expired pair. */
  lemma InstallKeeps(t: map<Endpoint, NatEntry>, src: Endpoint, ext: Endpoint, now: nat)
    requires TableOk(t) && src !in t && now < U64
    ensures var t2 := Install(t, src, ext, now);
      TableOk(t2) && src in t2 && ext in t2 && t2[src] == NatEntry(ext, now) && t2[ext].endpoint == src &&
      (forall k :: k in t2 ==> k == src || k == ext || k in t) &&
      (forall k :: k in t && k != ext && (ext in t ==> k != t[ext].endpoint) ==> k in t2 && t2[k] == t[k])
  {
    var t1 := if ext in t then t - {ext, t[ext].endpoint} else t;
    assert TableOk(t1) && src !in t1 by {
      forall k | k in t1
        ensures t1[k].endpoint in t1 && t1[t1[k].endpoint].endpoint == k
      {
        assert t1[k] == t[k] && t[t[k].endpoint].endpoint == k;
      }
    }
    var t2 := Install(t, src, ext, now);
    assert t2 == t1[ext := NatEntry(src, 0)][src := NatEntry(ext, now)];
    forall k | k in t2
      ensures t2[k].endpoint in t2 && t2[t2[k].endpoint].endpoint == k && t2[k].lastRefresh < U64
    {
      if k != src && k != ext {
        assert t2[k] == t1[k];
        var e := t1[k].endpoint;
        assert e != src && e != ext;
      }
    }
  }

  /** A forward packet refreshes its client's entry and nothing else. */
  lemma RefreshKeeps(t: map<Endpoint, NatEntry>, src: Endpoint, now: nat)
    requires TableOk(t) && src in t && now < U64
    ensures TableOk(t[src := t[src].(lastRefresh := now)])
  {
    var t2 := t[src := t[src].(lastRefresh := now)];
    forall k | k in t2
      ensures t2[k].endpoint in t2 && t2[t2[k].endpoint].endpoint == k && t2[k].lastRefresh < U64
    {
      assert t2[k].endpoint == t[k].endpoint;
    }
  }

  // ---------------------------------------------------------------------
  // Port ranges and probing.

  /** Ports `[min, min + size)`. */
  datatype Window = Window(min: nat, size: nat)

  predicate WindowOk(w: Window)
  {
    1 <= w.size && w.min + w.size <= U16
  }

  /** The ports range `r` offers to a client on port `srcPort` (not 0):
      none from a suspended range; unprivileged ports 1024 and above take
      ports from 1024 up to and including `end`; privileged ports take
      ports of the range below 1023 (RFC 4787, REQ-5-a). */
  function WindowOf(r: PortRange, srcPort: nat): (w: Option<Window>)
    requires RangeOk(r)
    ensures w.Some? ==> WindowOk(w.value) && r.begin <= w.value.min
    ensures w.Some? ==> !r.suspended
    ensures w.Some? && srcPort >= 1024 ==> 1024 <= w.value.min && w.value.min + w.value.size == r.end + 1
    ensures w.Some? && srcPort < 1024 ==> r.begin < 1023 && w.value.min + w.value.size <= 1023 && w.value.min + w.value.size <= r.end
  {
    if r.suspended then None
    else if srcPort >= 1024 then
      if r.end <= 1024 then None
      else
        var m := if r.begin > 1024 then r.begin else 1024;
        Some(Window(m, r.end - m + 1))
    else if r.begin >= 1023 then None
    else Some(Window(r.begin, (if r.end < 1023 then r.end else 1023) - r.begin))
  }

  /** The next port to probe: `port + 1` in 16 bits, wrapped back to `min`
      when it leaves the window or overflows to 0. */
  function Next(port: nat, w: Window): nat
  {
    var p := (port + 1) % U16;
    if p == 0 || p >= w.min + w.size then w.min else p
  }

  /** The port probed after `k` steps from `start`. */
  function PortAt(w: Window, start: nat, k: nat): nat
  {
    if k == 0 then start else Next(PortAt(w, start, k - 1), w)
  }

  function Probes(w: Window): nat
  {
    if w.size < MaxTrials then w.size else MaxTrials
  }

  /** The first probe of a range: `min` plus the random draw. */
  function Start(w: Window, roll: int): (s: nat)
    requires WindowOk(w)
    ensures w.min <= s < w.min + w.size
  {
    w.min + roll % w.size
  }

  /** The random draw for range `i` out of the draws of one call. */
  function Roll(rolls: seq<int>, i: int): int
  {
    if 0 <= i < |rolls| then rolls[i] else 0
  }

  /** Probing walks the window circularly from the start: up to a full
      turn, the `k`-th port is `start + k`, brought back by the window's
      size once it passes the end. */
  lemma {:induction false} PortAtInWindow(w: Window, start: nat, k: nat)
    requires WindowOk(w) && w.min <= start < w.min + w.size && k <= w.size
    ensures PortAt(w, start, k) == if start + k < w.min + w.size then start + k else start + k - w.size
  {
    if k > 0 {
      PortAtInWindow(w, start, k - 1);
      var q := PortAt(w, start, k - 1);
      assert q + 1 <= U16;
      if q + 1 < U16 {
        assert (q + 1) % U16 == q + 1;
      }
    }
  }

  /** The probes stay in the window, and the loop's exit test (back at
      the start, or 128 trials) ends it after exactly `Probes(w)`
      probes. */
  lemma ProbesStop(w: Window, start: nat, k: nat)
    requires WindowOk(w) && w.min <= start < w.min + w.size && k <= w.size
    ensures 0 < k < w.size ==> PortAt(w, start, k) != start
    ensures k == w.size ==> PortAt(w, start, k) == start
    ensures w.min <= PortAt(w, start, k) < w.min + w.size
  {
    PortAtInWindow(w, start, k);
  }

  /** No port is probed twice. */
  lemma ProbesDistinct(w: Window, start: nat, j: nat, k: nat)
    requires WindowOk(w) && w.min <= start < w.min + w.size
    requires j < k < w.size
    ensures PortAt(w, start, j) != PortAt(w, start, k)
  {
    PortAtInWindow(w, start, j);
    PortAtInWindow(w, start, k);
  }

  // ---------------------------------------------------------------------
  // Choosing a port.

  datatype Decision = Take | Busy | NullDeref

  /** The probe of port `ext` as written: a port other than the proxy's own
      that no entry holds is taken; otherwise the code looks up the
      mapping holding it, which is null for the proxy's own port when no
      entry holds it; an expired mapping is taken over. */
  function DecideAsWritten(t: map<Endpoint, NatEntry>, proxyPort: nat, ext: Endpoint, now: nat): Decision
    requires TableOk(t) && now < U64
  {
    if ext.port != proxyPort && ext !in t then Take
    else if ext !in t then NullDeref
    else if Expired(t, ext, now) then Take
    else Busy
  }

  /** The probe with the proxy's own port skipped. */
  function Decide(t: map<Endpoint, NatEntry>, proxyPort: nat, ext: Endpoint, now: nat): (d: Decision)
    requires TableOk(t) && now < U64
    ensures d != NullDeref
    ensures d == Take <==> ext.port != proxyPort && (ext !in t || Expired(t, ext, now))
  {
    if ext.port == proxyPort then Busy
    else if ext !in t then Take
    else if Expired(t, ext, now) then Take
    else Busy
  }

  /** The two probes agree on every port but the proxy's own. */
  lemma DecideAgrees(t: map<Endpoint, NatEntry>, proxyPort: nat, ext: Endpoint, now: nat)
    requires TableOk(t) && now < U64 && ext.port != proxyPort
    ensures DecideAsWritten(t, proxyPort, ext, now) == Decide(t, proxyPort, ext, now)
  {
  }

  /** With the default range, a proxy on port 5000, an empty table and a
      client on port 40000 whose draw starts the probe at 5000, the source
      dereferences a null entry. */
  lemma AsWrittenDerefsNull()
    ensures WindowOf(PortRange(0, 65535, false), 40000) == Some(Window(1024, 64512))
    ensures Start(Window(1024, 64512), 3976) == 5000
    ensures DecideAsWritten(map[], 5000, Endpoint(1, 5000, ProtoUdp), 0) == NullDeref
    ensures Decide(map[], 5000, Endpoint(1, 5000, ProtoUdp), 0) == Busy
  {
  }

  /** The first port taken among probes `k ..` of window `w`. */
  function ProbeFrom(t: map<Endpoint, NatEntry>, proxyPort: nat, base: Endpoint, w: Window, start: nat, now: nat, k: nat): Option<nat>
    requires TableOk(t) && now < U64 && k <= Probes(w)
    decreases Probes(w) - k
  {
    if k == Probes(w) then None
    else if Decide(t, proxyPort, base.(port := PortAt(w, start, k)), now) == Take then Some(PortAt(w, start, k))
    else ProbeFrom(t, proxyPort, base, w, start, now, k + 1)
  }

  /** The external endpoint `CreateNewEntry()` picks for client `src`,
      trying ranges `i ..` in order: none for port 0, otherwise the first
      free port of the first range that has one. */
  function ChooseFrom(ranges: seq<PortRange>, proxy: Endpoint, t: map<Endpoint, NatEntry>, src: Endpoint, now: nat, rolls: seq<int>, i: nat): Option<Endpoint>
    requires (forall j :: 0 <= j < |ranges| ==> RangeOk(ranges[j])) && TableOk(t) && now < U64 && i <= |ranges|
    decreases |ranges| - i
  {
    if i == |ranges| then None
    else if ranges[i].suspended then ChooseFrom(ranges, proxy, t, src, now, rolls, i + 1)
    else if src.port == 0 then None
    else
      match WindowOf(ranges[i], src.port)
      case None => ChooseFrom(ranges, proxy, t, src, now, rolls, i + 1)
      case Some(w) =>
        var base := Endpoint(proxy.addr, 0, src.protocol);
        match ProbeFrom(t, proxy.port, base, w, Start(w, Roll(rolls, i)), now, 0)
        case Some(p) => Some(base.(port := p))
        case None => ChooseFrom(ranges, proxy, t, src, now, rolls, i + 1)
  }

  /** Port `port` lies in the window range `r` offers to `srcPort`. */
  predicate InWindow(r: PortRange, srcPort: nat, port: nat)
    requires RangeOk(r)
  {
    WindowOf(r, srcPort).Some? && WindowOf(r, srcPort).value.min <= port < WindowOf(r, srcPort).value.min + WindowOf(r, srcPort).value.size
  }

  ghost predicate FromSomeRange(ranges: seq<PortRange>, srcPort: nat, port: nat)
    requires forall j :: 0 <= j < |ranges| ==> RangeOk(ranges[j])
  {
    exists i :: 0 <= i < |ranges| && InWindow(ranges[i], srcPort, port)
  }

  lemma {:induction false} ProbeSound(t: map<Endpoint, NatEntry>, proxyPort: nat, base: Endpoint, w: Window, start: nat, now: nat, k: nat)
    requires TableOk(t) && now < U64 && k <= Probes(w)
    requires WindowOk(w) && w.min <= start < w.min + w.size
    ensures var r := ProbeFrom(t, proxyPort, base, w, start, now, k);
      r.Some? ==> w.min <= r.value < w.min + w.size && Decide(t, proxyPort, base.(port := r.value), now) == Take
    decreases Probes(w) - k
  {
    if k < Probes(w) {
      ProbesStop(w, start, k);
      ProbeSound(t, proxyPort, base, w, start, now, k + 1);
    }
  }

  /** The endpoint chosen is the proxy's address on a port of a usable
      range, never the proxy's own port, and free or held by an expired
      mapping; a privileged client port gets a privileged port and an
      unprivileged one an unprivileged port. */
  lemma {:induction false} ChooseSound(ranges: seq<PortRange>, proxy: Endpoint, t: map<Endpoint, NatEntry>, src: Endpoint, now: nat, rolls: seq<int>, i: nat)
    requires (forall j :: 0 <= j < |ranges| ==> RangeOk(ranges[j])) && TableOk(t) && now < U64 && i <= |ranges|
    ensures var r := ChooseFrom(ranges, proxy, t, src, now, rolls, i);
      r.Some? ==>
        src.port != 0 && r.value.addr == proxy.addr && r.value.protocol == src.protocol &&
        r.value.port != proxy.port && (r.value !in t || Expired(t, r.value, now)) &&
        FromSomeRange(ranges, src.port, r.value.port) &&
        (src.port < 1024 <==> r.value.port < 1023)
    decreases |ranges| - i
  {
    if i < |ranges| && !ranges[i].suspended && src.port != 0 {
      match WindowOf(ranges[i], src.port)
      case None =>
        ChooseSound(ranges, proxy, t, src, now, rolls, i + 1);
      case Some(w) =>
        var base := Endpoint(proxy.addr, 0, src.protocol);
        var start := Start(w, Roll(rolls, i));
        ProbeSound(t, proxy.port, base, w, start, now, 0);
        match ProbeFrom(t, proxy.port, base, w, start, now, 0)
        case Some(p) =>
          assert InWindow(ranges[i], src.port, p);
        case None =>
          ChooseSound(ranges, proxy, t, src, now, rolls, i + 1);
    } else if i < |ranges| && ranges[i].suspended {
      ChooseSound(ranges, proxy, t, src, now, rolls, i + 1);
    }
  }

  /** Every one of the first `n` probes of the window is taken or the
      proxy's own port. */
  predicate AllBusy(t: map<Endpoint, NatEntry>, proxyPort: nat, base: Endpoint, w: Window, start: nat, now: nat, n: nat)
    requires TableOk(t) && now < U64
  {
    forall k :: 0 <= k < n ==> Decide(t, proxyPort, base.(port := PortAt(w, start, k)), now) != Take
  }

  lemma {:induction false} ProbeComplete(t: map<Endpoint, NatEntry>, proxyPort: nat, base: Endpoint, w: Window, start: nat, now: nat, k: nat)
    requires TableOk(t) && now < U64 && k <= Probes(w)
    requires AllBusy(t, proxyPort, base, w, start, now, k)
    ensures ProbeFrom(t, proxyPort, base, w, start, now, k).None? ==> AllBusy(t, proxyPort, base, w, start, now, Probes(w))
    decreases Probes(w) - k
  {
    if k < Probes(w) && ProbeFrom(t, proxyPort, base, w, start, now, k).None? {
      assert AllBusy(t, proxyPort, base, w, start, now, k + 1);
      ProbeComplete(t, proxyPort, base, w, start, now, k + 1);
    }
  }

  /** No endpoint is chosen only for port 0, or when every port probed in
      every usable range is busy: at most 128 of them per range. */
  lemma {:induction false} ChooseComplete(ranges: seq<PortRange>, proxy: Endpoint, t: map<Endpoint, NatEntry>, src: Endpoint, now: nat, rolls: seq<int>, i: nat)
    requires (forall j :: 0 <= j < |ranges| ==> RangeOk(ranges[j])) && TableOk(t) && now < U64 && i <= |ranges|
    requires src.port != 0
    ensures ChooseFrom(ranges, proxy, t, src, now, rolls, i).None? ==>
      forall j :: i <= j < |ranges| && WindowOf(ranges[j], src.port).Some? ==>
        AllBusy(t, proxy.port, Endpoint(proxy.addr, 0, src.protocol), WindowOf(ranges[j], src.port).value,
                Start(WindowOf(ranges[j], src.port).value, Roll(rolls, j)), now, Probes(WindowOf(ranges[j], src.port).value))
    decreases |ranges| - i
  {
    if i < |ranges| {
      ChooseComplete(ranges, proxy, t, src, now, rolls, i + 1);
      match WindowOf(ranges[i], src.port)
      case None =>
      case Some(w) =>
        ProbeComplete(t, proxy.port, Endpoint(proxy.addr, 0, src.protocol), w, Start(w, Roll(rolls, i)), now, 0);
    }
  }

  /** No endpoint at all for client port 0. */
  lemma {:induction false} ChooseRefusesPortZero(ranges: seq<PortRange>, proxy: Endpoint, t: map<Endpoint, NatEntry>, src: Endpoint, now: nat, rolls: seq<int>, i: nat)
    requires (forall j :: 0 <= j < |ranges| ==> RangeOk(ranges[j])) && TableOk(t) && now < U64 && i <= |ranges|
    requires src.port == 0
    ensures ChooseFrom(ranges, proxy, t, src, now, rolls, i) == None
    decreases |ranges| - i
  {
    if i < |ranges| && ranges[i].suspended {
      ChooseRefusesPortZero(ranges, proxy, t, src, now, rolls, i + 1);
    }
  }

  // ---------------------------------------------------------------------
  // Packets.

  /** A packet by its IP protocol and the addresses and ports of its
      header. */
  datatype Packet = Packet(proto: int, srcAddr: int, srcPort: nat, dstAddr: int, dstPort: nat)
  /** A dropped packet, or one sent on with its new source and destination. */
  datatype Verdict = Drop | Emit(src: Endpoint, dst: Endpoint)

  /** The endpoints of a UDP packet; other protocols have none. */
  function Extract(p: Packet): Option<(Endpoint, Endpoint)>
  {
    if p.proto == ProtoUdp then Some((Endpoint(p.srcAddr, p.srcPort, ProtoUdp), Endpoint(p.dstAddr, p.dstPort, ProtoUdp)))
    else None
  }

  /** One packet of `ProcessBatch()`: reverse traffic goes back to the
      client its port maps to; forward traffic refreshes its client's
      mapping, created on the first packet, and goes to the next hop from
      the mapped endpoint; everything else is dropped. */
  function Handle(c: Conf, clients: map<int, bool>, t: map<Endpoint, NatEntry>, p: Packet, now: nat, rolls: seq<int>): (r: (map<Endpoint, NatEntry>, Verdict))
    requires ConfOk(c) && TableOk(t) && now < U64
    ensures TableOk(r.0)
  {
    match Extract(p)
    case None => (t, Drop)
    case Some((src, dst)) =>
      if IsReverse(c.proxy, c.nextHop, src, dst) then
        if dst in t then (t, Emit(c.proxy, t[dst].endpoint)) else (t, Drop)
      else if !IsForward(c.proxy, clients, src, dst) then (t, Drop)
      else if src in t then
        RefreshKeeps(t, src, now);
        (t[src := t[src].(lastRefresh := now)], Emit(t[src].endpoint, c.nextHop))
      else
        match ChooseFrom(c.ranges, c.proxy, t, src, now, rolls, 0)
        case None => (t, Drop)
        case Some(ext) =>
          InstallKeeps(t, src, ext, now);
          (Install(t, src, ext, now), Emit(ext, c.nextHop))
  }

  /** A packet is dropped exactly when it is not UDP, is reverse traffic to
      an unmapped port, is neither reverse nor forward traffic, or is
      forward traffic of a new client for whom no port is free.  Reverse
      traffic leaves the table alone and goes to the mapped client; forward
      traffic that is sent on leaves its client mapped to the endpoint it
      is sent from, refreshed now, with the reverse entry pointing back,
      and keeps an existing mapping. */
  lemma HandleSpec(c: Conf, clients: map<int, bool>, t: map<Endpoint, NatEntry>, p: Packet, now: nat, rolls: seq<int>)
    requires ConfOk(c) && TableOk(t) && now < U64
    ensures var r := Handle(c, clients, t, p, now, rolls);
      var src := Endpoint(p.srcAddr, p.srcPort, ProtoUdp);
      var dst := Endpoint(p.dstAddr, p.dstPort, ProtoUdp);
      var rev := IsReverse(c.proxy, c.nextHop, src, dst);
      var fwd := IsForward(c.proxy, clients, src, dst);
      (r.1 == Drop <==>
        p.proto != ProtoUdp || (rev && dst !in t) || (!rev && !fwd) ||
        (!rev && fwd && src !in t && ChooseFrom(c.ranges, c.proxy, t, src, now, rolls, 0).None?)) &&
      (p.proto != ProtoUdp || rev || !fwd ==> r.0 == t) &&
      (p.proto == ProtoUdp && rev && dst in t ==> r.1 == Emit(c.proxy, t[dst].endpoint)) &&
      (p.proto == ProtoUdp && !rev && fwd && r.1.Emit? ==>
        src in r.0 && r.0[src].lastRefresh == now && r.1 == Emit(r.0[src].endpoint, c.nextHop) &&
        r.0[r.0[src].endpoint].endpoint == src &&
        (src in t ==> r.0[src].endpoint == t[src].endpoint))
  {
    var src := Endpoint(p.srcAddr, p.srcPort, ProtoUdp);
    if p.proto == ProtoUdp && !IsReverse(c.proxy, c.nextHop, src, Endpoint(p.dstAddr, p.dstPort, ProtoUdp)) && src !in t {
      match ChooseFrom(c.ranges, c.proxy, t, src, now, rolls, 0)
      case None =>
      case Some(ext) => InstallKeeps(t, src, ext, now);
    }
  }

  /** The draws of the `k`-th packet of a batch. */
  function Draws(rolls: seq<seq<int>>, k: int): seq<int>
  {
    if 0 <= k < |rolls| then rolls[k] else []
  }

  /** The packets of a batch handled in order. */
  function Batch(c: Conf, clients: map<int, bool>, t: map<Endpoint, NatEntry>, pkts: seq<Packet>, now: nat, rolls: seq<seq<int>>): (r: (map<Endpoint, NatEntry>, seq<Verdict>))
    requires ConfOk(c) && TableOk(t) && now < U64
    ensures TableOk(r.0) && |r.1| == |pkts|
    decreases |pkts|
  {
    if pkts == [] then (t, [])
    else
      var b := Batch(c, clients, t, pkts[..|pkts| - 1], now, rolls);
      var h := Handle(c, clients, b.0, pkts[|pkts| - 1], now, Draws(rolls, |pkts| - 1));
      (h.0, b.1 + [h.1])
  }

  /** A packet that is not UDP, or neither reverse nor forward traffic. */
  predicate Stranger(c: Conf, clients: map<int, bool>, p: Packet)
  {
    var src := Endpoint(p.srcAddr, p.srcPort, ProtoUdp);
    var dst := Endpoint(p.dstAddr, p.dstPort, ProtoUdp);
    p.proto != ProtoUdp || (!IsReverse(c.proxy, c.nextHop, src, dst) && !IsForward(c.proxy, clients, src, dst))
  }

  /** Whatever the table, non-UDP packets and UDP packets that are neither
      reverse nor forward traffic are dropped. */
  lemma {:induction false} BatchDropsStrangers(c: Conf, clients: map<int, bool>, t: map<Endpoint, NatEntry>, pkts: seq<Packet>, now: nat, rolls: seq<seq<int>>)
    requires ConfOk(c) && TableOk(t) && now < U64
    ensures forall k :: 0 <= k < |pkts| && Stranger(c, clients, pkts[k]) ==> Batch(c, clients, t, pkts, now, rolls).1[k] == Drop
    decreases |pkts|
  {
    if pkts != [] {
      var init := pkts[..|pkts| - 1];
      BatchDropsStrangers(c, clients, t, init, now, rolls);
      assert forall k :: 0 <= k < |init| ==> init[k] == pkts[k];
    }
  }

  // ---------------------------------------------------------------------
  // The module object.

  class Proxy {
    /** `udp_port_ranges_`, `curr_udp_proxy_`, `next_hop_udp_proxy_`. */
    var ranges: seq<PortRange>
    var proxy: Endpoint
    var nextHop: Endpoint
    /** `udp_proxy_clients_`: client address to whether it is allowed. */
    var clients: map<int, bool>
    /** `map_`: both directions of every mapping. */
    var table: map<Endpoint, NatEntry>

    function Config(): Conf
      reads this
    {
      Conf(ranges, proxy, nextHop)
    }

    ghost predicate Valid()
      reads this
    {
      ConfOk(Config()) && TableOk(table)
    }

    /** The module after `Init()` succeeded with configuration `c`. */
    constructor (c: Conf)
      requires ConfOk(c)
      ensures Valid() && Config() == c && clients == map[] && table == map[]
    {
      ranges := c.ranges;
      proxy := c.proxy;
      nextHop := c.nextHop;
      clients := map[];
      table := map[];
    }

    /** `set_client`: allows or denies a client address, inserting or
        overwriting its flag; no address, or an unparsable one, is
        `EINVAL`. */
    method SetUDPProxyClient(a: AddrArg, allow: bool) returns (r: Result<(), Failure>)
      modifies this
      ensures a.Addr? ==> r == Ok(()) && clients == old(clients)[a.ip := allow]
      ensures !a.Addr? ==> r == Err(Einval) && clients == old(clients)
      ensures Config() == old(Config()) && table == old(table)
    {
      if !a.Addr? {
        return Err(Einval);
      }
      clients := clients[a.ip := allow];
      return Ok(());
    }

    /** `set_proxy`: the proxy endpoint; the port is cast to 16 bits. */
    method SetUDPProxy(a: AddrArg, port: nat) returns (r: Result<(), Failure>)
      modifies this
      ensures a.Addr? ==> r == Ok(()) && proxy == Endpoint(a.ip, port % U16, ProtoUdp)
      ensures !a.Addr? ==> r == Err(Einval) && proxy == old(proxy)
      ensures ranges == old(ranges) && nextHop == old(nextHop) && clients == old(clients) && table == old(table)
    {
      if !a.Addr? {
        return Err(Einval);
      }
      proxy := Endpoint(a.ip, port % U16, ProtoUdp);
      return Ok(());
    }

    /** `set_next_hop_proxy`: the next-hop endpoint. */
    method SetNextHopUDPProxy(a: AddrArg, port: nat) returns (r: Result<(), Failure>)
      modifies this
      ensures a.Addr? ==> r == Ok(()) && nextHop == Endpoint(a.ip, port % U16, ProtoUdp)
      ensures !a.Addr? ==> r == Err(Einval) && nextHop == old(nextHop)
      ensures ranges == old(ranges) && proxy == old(proxy) && clients == old(clients) && table == old(table)
    {
      if !a.Addr? {
        return Err(Einval);
      }
      nextHop := Endpoint(a.ip, port % U16, ProtoUdp);
      return Ok(());
    }

    /** Both entries of a new mapping, after removing the expired pair that
        held `ext`, if any. */
    method Insert(src: Endpoint, ext: Endpoint, now: nat)
      requires TableOk(table)
      modifies this
      ensures table == Install(old(table), src, ext, now)
      ensures Config() == old(Config()) && clients == old(clients)
    {
      if ext in table {
        table := table - {ext, table[ext].endpoint};
      }
      table := table[ext := NatEntry(src, 0)];
      table := table[src := NatEntry(ext, now)];
    }

    /** `CreateNewEntry()` for client `src`, which has no entry, with the
        random draws `rolls` of the ranges: the endpoint chosen, and its
        mapping installed. */
    method CreateNewEntry(src: Endpoint, now: nat, rolls: seq<int>) returns (ext: Option<Endpoint>)
      requires Valid() && src !in table && now < U64
      modifies this
      ensures Valid() && Config() == old(Config()) && clients == old(clients)
      ensures ext == ChooseFrom(ranges, proxy, old(table), src, now, rolls, 0)
      ensures table == if ext.Some? then Install(old(table), src, ext.value, now) else old(table)
    {
      var i := 0;
      while i < |ranges|
        invariant 0 <= i <= |ranges| && table == old(table)
        invariant Config() == old(Config()) && clients == old(clients)
        invariant ChooseFrom(ranges, proxy, table, src, now, rolls, 0) == ChooseFrom(ranges, proxy, table, src, now, rolls, i)
      {
        if !ranges[i].suspended {
          if src.port == 0 {
            return None;
          }
          var w := WindowOf(ranges[i], src.port);
          if w.Some? {
            ext := Probe(src, w.value, Start(w.value, Roll(rolls, i)), now);
            if ext.Some? {
              InstallKeeps(old(table), src, ext.value, now);
              return;
            }
          }
        }
        i := i + 1;
      }
      return None;
    }

    /** The linear probe of one window from `start`. */
    method Probe(src: Endpoint, w: Window, start: nat, now: nat) returns (ext: Option<Endpoint>)
      requires TableOk(table) && src !in table && now < U64
      requires WindowOk(w) && w.min <= start < w.min + w.size
      modifies this
      ensures Config() == old(Config()) && clients == old(clients)
      ensures var base := Endpoint(proxy.addr, 0, src.protocol);
        var p := ProbeFrom(old(table), proxy.port, base, w, start, now, 0);
        ext == (if p.Some? then Some(base.(port := p.value)) else None) &&
        table == if ext.Some? then Install(old(table), src, ext.value, now) else old(table)
    {
      ghost var base := Endpoint(proxy.addr, 0, src.protocol);
      var port := start;
      var trials := 0;
      var more := true;
      while more
        invariant 0 <= trials <= Probes(w) && table == old(table)
        invariant Config() == old(Config()) && clients == old(clients)
        invariant port == PortAt(w, start, trials)
        invariant more <==> trials < Probes(w)
        invariant ProbeFrom(table, proxy.port, base, w, start, now, 0) == ProbeFrom(table, proxy.port, base, w, start, now, trials)
        decreases Probes(w) - trials
      {
        var e := Endpoint(proxy.addr, port, src.protocol);
        assert e == base.(port := PortAt(w, start, trials));
        if port != proxy.port {
          if e !in table {
            Insert(src, e, now);
            return Some(e);
          }
          var fwd := table[table[e].endpoint];
          if WrapSub(now, fwd.lastRefresh, U64) > TimeOutNs {
            Insert(src, e, now);
            return Some(e);
          }
        }
        ProbesStop(w, start, trials + 1);
        port := Next(port, w);
        trials := trials + 1;
        more := port != start && trials < MaxTrials;
      }
      return None;
    }

    /** One packet of `ProcessBatch()`. */
    method ProcessPacket(p: Packet, now: nat, rolls: seq<int>) returns (v: Verdict)
      requires Valid() && now < U64
      modifies this
      ensures Valid() && Config() == old(Config()) && clients == old(clients)
      ensures (table, v) == Handle(old(Config()), clients, old(table), p, now, rolls)
    {
      if p.proto != ProtoUdp {
        return Drop;
      }
      var src := Endpoint(p.srcAddr, p.srcPort, ProtoUdp);
      var dst := Endpoint(p.dstAddr, p.dstPort, ProtoUdp);
      var forward := false;
      if !IsReverse(proxy, nextHop, src, dst) {
        if !IsForward(proxy, clients, src, dst) {
          return Drop;
        }
        forward := true;
      }
      var key := if forward then src else dst;
      if key !in table {
        if !forward {
          return Drop;
        }
        var ext := CreateNewEntry(src, now, rolls);
        if ext.None? {
          return Drop;
        }
        return Emit(ext.value, nextHop);
      }
      if forward {
        RefreshKeeps(table, src, now);
        table := table[src := table[src].(lastRefresh := now)];
        return Emit(table[src].endpoint, nextHop);
      }
      return Emit(proxy, table[dst].endpoint);
    }

    /** `ProcessBatch()` at clock value `now`, with the random draws of
        each packet. */
    method ProcessBatch(pkts: seq<Packet>, now: nat, rolls: seq<seq<int>>) returns (vs: seq<Verdict>)
      requires Valid() && now < U64
      modifies this
      ensures Valid() && Config() == old(Config()) && clients == old(clients)
      ensures (table, vs) == Batch(Config(), clients, old(table), pkts, now, rolls)
    {
      vs := [];
      var k := 0;
      while k < |pkts|
        invariant 0 <= k <= |pkts| && Valid() && Config() == old(Config()) && clients == old(clients)
        invariant (table, vs) == Batch(Config(), clients, old(table), pkts[..k], now, rolls)
      {
        assert pkts[..k + 1][..k] == pkts[..k];
        var v := ProcessPacket(pkts[k], now, Draws(rolls, k));
        vs := vs + [v];
        k := k + 1;
      }
      assert pkts[..|pkts|] == pkts;
    }
  }
}
