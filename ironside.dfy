// The Ironside ToR ingress (`IronsideIngress`).  Every 100 ms it picks
// one worker of the cluster as the endpoint for new flow aggregates: among
// the workers that use no more cores than the core threshold and whose
// packet rate is no more than the rate threshold, the one with the fewest
// cores (mode 0), the lowest rate (mode 1), the most cores (mode 2) or the
// highest rate (mode 3).  A flow aggregate, once assigned, keeps its
// worker; a new aggregate goes to the current endpoint, or is dropped when
// there is none.
module Ironside {
  import opened Util

  const UpdatePeriodNs: int := 100000000
  const DefaultNcoreThresh: int := 16
  const DefaultRateThresh: int := 500000
  /** Flow aggregates are the low 12 bits of the destination address. */
  const AggregateCount: int := 0x1000

  // ---------------------------------------------------------------------
  // Endpoint selection.

  /** The per-100 ms packet counter scaled to a per-second rate, in
      `uint32_t` arithmetic. */
  function Scale(c: int): (r: int)
    requires 0 <= c < U32
    ensures 0 <= r < U32
  {
    (c * 10) % U32
  }

  predicate CountsOk(cnts: seq<int>)
  {
    forall j :: 0 <= j < |cnts| ==> 0 <= cnts[j] < U32
  }

  function Scaled(cnts: seq<int>): (r: seq<int>)
    requires CountsOk(cnts)
    ensures |r| == |cnts| && CountsOk(r)
  {
    seq(|cnts|, j requires 0 <= j < |cnts| => Scale(cnts[j]))
  }

  /** A worker that is not overloaded, by cores or by rate. */
  predicate Eligible(ncore: int, rate: int, ncoreThresh: int, rateThresh: int)
  {
    !(ncore > ncoreThresh) && !(rate > rateThresh)
  }

  /** What the mode compares: cores in modes 0 and 2, rates otherwise. */
  function Key(mode: int, ncore: int, rate: int): int
  {
    if mode == 0 || mode == 2 then ncore else rate
  }

  /** The value the selection loop of the mode starts from. */
  function InitialBest(mode: int): int
  {
    if mode == 0 then 100 else if mode == 1 then 1000000 else 0
  }

  /** Modes 0 and 1 minimise the key, modes 2 and 3 maximise it. */
  predicate Better(mode: int, k: int, best: int)
  {
    if mode == 0 || mode == 1 then k < best else k > best
  }

  /** The selection loop over workers 0 .. n-1 as written: the best key
      seen and the endpoint (-1 for none).  Worker 0, when eligible, is
      taken whatever its key; a later eligible worker only when strictly
      better than the best key so far, which starts at `InitialBest`. */
  function ScanAsWritten(mode: int, ncores: seq<int>, rates: seq<int>, nt: int, rt: int, n: int): (r: (int, int))
    requires 0 <= n <= |rates| <= |ncores|
    ensures r.1 == -1 || (0 <= r.1 < n && Eligible(ncores[r.1], rates[r.1], nt, rt))
  {
    if n == 0 then (InitialBest(mode), -1)
    else
      var p := ScanAsWritten(mode, ncores, rates, nt, rt, n - 1);
      var i := n - 1;
      var k := Key(mode, ncores[i], rates[i]);
      if Eligible(ncores[i], rates[i], nt, rt) && (i == 0 || Better(mode, k, p.0)) then (k, i) else p
  }

  /** The selection loop with the first ELIGIBLE worker taken whatever its
      key, which is what taking worker 0 unconditionally evidently means. */
  function Scan(mode: int, ncores: seq<int>, rates: seq<int>, nt: int, rt: int, n: int): (r: (int, int))
    requires 0 <= n <= |rates| <= |ncores|
    ensures r.1 == -1 || (0 <= r.1 < n && Eligible(ncores[r.1], rates[r.1], nt, rt))
  {
    if n == 0 then (InitialBest(mode), -1)
    else
      var p := Scan(mode, ncores, rates, nt, rt, n - 1);
      var i := n - 1;
      var k := Key(mode, ncores[i], rates[i]);
      if Eligible(ncores[i], rates[i], nt, rt) && (p.1 == -1 || Better(mode, k, p.0)) then (k, i) else p
  }

  /** The loop finds an endpoint exactly when some worker is eligible. */
  lemma {:induction false} ScanFindsEligible(mode: int, ncores: seq<int>, rates: seq<int>, nt: int, rt: int, n: int)
    requires 0 <= n <= |rates| <= |ncores|
    ensures Scan(mode, ncores, rates, nt, rt, n).1 == -1 <==>
      forall j :: 0 <= j < n ==> !Eligible(ncores[j], rates[j], nt, rt)
  {
    if n > 0 {
      ScanFindsEligible(mode, ncores, rates, nt, rt, n - 1);
    }
  }

  /** The endpoint found is the first eligible worker of the best key: no
      eligible worker is better, and every eligible worker before it is
      worse. */
  lemma {:induction false} ScanIsBest(mode: int, ncores: seq<int>, rates: seq<int>, nt: int, rt: int, n: int)
    requires 0 <= n <= |rates| <= |ncores|
    requires 0 <= mode <= 3
    ensures var r := Scan(mode, ncores, rates, nt, rt, n);
      r.1 != -1 ==>
        r.0 == Key(mode, ncores[r.1], rates[r.1]) &&
        (forall j :: 0 <= j < n && Eligible(ncores[j], rates[j], nt, rt) ==> !Better(mode, Key(mode, ncores[j], rates[j]), r.0)) &&
        (forall j :: 0 <= j < r.1 && Eligible(ncores[j], rates[j], nt, rt) ==> Better(mode, r.0, Key(mode, ncores[j], rates[j])))
  {
    if n > 0 {
      ScanIsBest(mode, ncores, rates, nt, rt, n - 1);
      ScanFindsEligible(mode, ncores, rates, nt, rt, n - 1);
    }
  }

  /** When worker 0 is eligible the source's loop and the corrected one
      agree. */
  lemma {:induction false} AsWrittenAgreesWhenFirstEligible(mode: int, ncores: seq<int>, rates: seq<int>, nt: int, rt: int, n: int)
    requires 1 <= n <= |rates| <= |ncores| && Eligible(ncores[0], rates[0], nt, rt)
    ensures ScanAsWritten(mode, ncores, rates, nt, rt, n) == Scan(mode, ncores, rates, nt, rt, n)
  {
    if n > 1 {
      AsWrittenAgreesWhenFirstEligible(mode, ncores, rates, nt, rt, n - 1);
      ScanFindsEligible(mode, ncores, rates, nt, rt, n - 1);
    }
  }

  /** In max-rate mode, with worker 0 over the core threshold and worker 1
      idle, the source's loop finds no endpoint, so new flows are dropped
      although worker 1 could take them. */
  lemma AsWrittenIgnoresIdleWorker()
    ensures Eligible(1, 0, DefaultNcoreThresh, DefaultRateThresh)
    ensures ScanAsWritten(3, [20, 1], [0, 0], DefaultNcoreThresh, DefaultRateThresh, 2).1 == -1
    ensures Scan(3, [20, 1], [0, 0], DefaultNcoreThresh, DefaultRateThresh, 2).1 == 1
  {
  }

  /** The endpoint of a mode: -1 for a mode without a selection loop. */
  function Select(mode: int, ncores: seq<int>, rates: seq<int>, nt: int, rt: int): (ep: int)
    requires |rates| <= |ncores|
    ensures ep == -1 || 0 <= ep < |rates|
  {
    if 0 <= mode <= 3 then Scan(mode, ncores, rates, nt, rt, |rates|).1 else -1
  }

  // ---------------------------------------------------------------------
  // The update and the flows.

  /** `pkt_cnts_`, `endpoint_id_` and `last_endpoint_update_ts_`. */
  datatype Lb = Lb(cnts: seq<int>, endpoint: int, lastTs: int)

  predicate LbOk(s: Lb)
  {
    CountsOk(s.cnts) && (s.endpoint == -1 || 0 <= s.endpoint < |s.cnts|) && 0 <= s.lastTs < U64
  }

  /** `UpdateEndpointLB()` at clock value `now`, with the per-worker core
      counts `ncores`: nothing within 100 ms of the last update; otherwise
      the endpoint is reselected from the scaled counters, which are then
      reset. */
  function Update(mode: int, nt: int, rt: int, s: Lb, now: int, ncores: seq<int>): (r: Lb)
    requires LbOk(s) && 0 <= now < U64 && |s.cnts| <= |ncores|
    ensures LbOk(r) && |r.cnts| == |s.cnts|
  {
    if WrapSub(now, s.lastTs, U64) < UpdatePeriodNs then s
    else Lb(seq(|s.cnts|, _ => 0), Select(mode, ncores, Scaled(s.cnts), nt, rt), now)
  }

  /** An update that takes place resets every counter and picks an
      endpoint exactly when the mode has a selection loop and a worker is
      eligible by its scaled rate; the endpoint is then the first eligible
      worker of the best key. */
  lemma UpdateSpec(mode: int, nt: int, rt: int, s: Lb, now: int, ncores: seq<int>)
    requires LbOk(s) && 0 <= now < U64 && |s.cnts| <= |ncores|
    requires WrapSub(now, s.lastTs, U64) >= UpdatePeriodNs
    ensures var r := Update(mode, nt, rt, s, now, ncores);
      var rates := Scaled(s.cnts);
      r.lastTs == now && (forall j :: 0 <= j < |r.cnts| ==> r.cnts[j] == 0) &&
      (r.endpoint == -1 <==> !(0 <= mode <= 3) || forall j :: 0 <= j < |rates| ==> !Eligible(ncores[j], rates[j], nt, rt)) &&
      (r.endpoint != -1 ==>
        Eligible(ncores[r.endpoint], rates[r.endpoint], nt, rt) &&
        forall j :: 0 <= j < |rates| && Eligible(ncores[j], rates[j], nt, rt) ==>
          !Better(mode, Key(mode, ncores[j], rates[j]), Key(mode, ncores[r.endpoint], rates[r.endpoint])))
  {
    var rates := Scaled(s.cnts);
    if 0 <= mode <= 3 {
      ScanFindsEligible(mode, ncores, rates, nt, rt, |rates|);
      ScanIsBest(mode, ncores, rates, nt, rt, |rates|);
    }
  }

  datatype Packet = Packet(tcp: bool, dst: int)
  datatype Verdict = Drop | Emit(endpoint: int)

  function Aggregate(p: Packet): (id: int)
    ensures 0 <= id < AggregateCount
  {
    p.dst % AggregateCount
  }

  /** Every cached aggregate goes to a worker of the cluster. */
  predicate CacheOk(cache: map<int, int>, n: int)
  {
    forall id :: id in cache ==> 0 <= cache[id] < n
  }

  /** One packet of `ProcessBatch()` with endpoint `ep`: non-TCP packets
      are dropped; a new aggregate is assigned the endpoint, or dropped
      when there is none; the packet goes to its aggregate's worker, whose
      counter counts it. */
  function Admit(ep: int, cache: map<int, int>, cnts: seq<int>, p: Packet): (r: (map<int, int>, seq<int>, Verdict))
    requires CountsOk(cnts) && CacheOk(cache, |cnts|) && (ep == -1 || 0 <= ep < |cnts|)
    ensures CountsOk(r.1) && |r.1| == |cnts| && CacheOk(r.0, |cnts|)
  {
    if !p.tcp then (cache, cnts, Drop)
    else
      var id := Aggregate(p);
      if id !in cache && ep == -1 then (cache, cnts, Drop)
      else
        var c := if id in cache then cache else cache[id := ep];
        var e := c[id];
        (c, cnts[e := Inc32(cnts[e])], Emit(e))
  }

  /** The packets of a batch admitted in order. */
  function Batch(ep: int, cache: map<int, int>, cnts: seq<int>, pkts: seq<Packet>): (r: (map<int, int>, seq<int>, seq<Verdict>))
    requires CountsOk(cnts) && CacheOk(cache, |cnts|) && (ep == -1 || 0 <= ep < |cnts|)
    ensures CountsOk(r.1) && |r.1| == |cnts| && CacheOk(r.0, |cnts|) && |r.2| == |pkts|
    decreases |pkts|
  {
    if pkts == [] then (cache, cnts, [])
    else
      var b := Batch(ep, cache, cnts, pkts[..|pkts| - 1]);
      var a := Admit(ep, b.0, b.1, pkts[|pkts| - 1]);
      (a.0, a.1, b.2 + [a.2])
  }

  /** A batch never reassigns a known aggregate and assigns new ones only
      to the endpoint; a TCP packet is dropped exactly when its aggregate
      is new and there is no endpoint, and every packet sent goes to its
      aggregate's worker. */
  lemma {:induction false} BatchKeeps(ep: int, cache: map<int, int>, cnts: seq<int>, pkts: seq<Packet>)
    requires CountsOk(cnts) && CacheOk(cache, |cnts|) && (ep == -1 || 0 <= ep < |cnts|)
    ensures forall id :: id in cache ==> id in Batch(ep, cache, cnts, pkts).0 && Batch(ep, cache, cnts, pkts).0[id] == cache[id]
    ensures forall id :: id in Batch(ep, cache, cnts, pkts).0 && id !in cache ==> Batch(ep, cache, cnts, pkts).0[id] == ep
    ensures forall k :: 0 <= k < |pkts| ==>
      (Batch(ep, cache, cnts, pkts).2[k].Drop? <==> !pkts[k].tcp || (ep == -1 && Aggregate(pkts[k]) !in cache)) &&
      (Batch(ep, cache, cnts, pkts).2[k].Emit? ==>
        Aggregate(pkts[k]) in Batch(ep, cache, cnts, pkts).0 &&
        Batch(ep, cache, cnts, pkts).2[k].endpoint == Batch(ep, cache, cnts, pkts).0[Aggregate(pkts[k])])
    decreases |pkts|
  {
    if pkts != [] {
      var init := pkts[..|pkts| - 1];
      BatchKeeps(ep, cache, cnts, init);
      assert forall k :: 0 <= k < |init| ==> init[k] == pkts[k];
    }
  }

  /** How many of the verdicts send a packet to worker j. */
  function SentTo(vs: seq<Verdict>, j: int): nat
  {
    if vs == [] then 0
    else SentTo(vs[..|vs| - 1], j) + (if vs[|vs| - 1] == Emit(j) then 1 else 0)
  }

  /** Each worker's counter grows by the packets sent to it, modulo 2^32. */
  lemma {:induction false} BatchCounts(ep: int, cache: map<int, int>, cnts: seq<int>, pkts: seq<Packet>, j: int, base: nat)
    requires CountsOk(cnts) && CacheOk(cache, |cnts|) && (ep == -1 || 0 <= ep < |cnts|)
    requires 0 <= j < |cnts| && cnts[j] == base % U32
    ensures Batch(ep, cache, cnts, pkts).1[j] == (base + SentTo(Batch(ep, cache, cnts, pkts).2, j)) % U32
    decreases |pkts|
  {
    if pkts != [] {
      var init := pkts[..|pkts| - 1];
      BatchCounts(ep, cache, cnts, init, j, base);
      var b := Batch(ep, cache, cnts, init);
      var a := Admit(ep, b.0, b.1, pkts[|pkts| - 1]);
      assert (b.2 + [a.2])[..|b.2|] == b.2;
      if a.2 == Emit(j) {
        Inc32Mod(base + SentTo(b.2, j));
      }
    }
  }

  // ---------------------------------------------------------------------
  // The module object.

  class Ingress {
    /** `mode_`, `ncore_thresh_` and `pkt_rate_thresh_`. */
    const mode: int
    const ncoreThresh: int
    const rateThresh: int
    /** `pkt_cnts_`, one counter per worker. */
    const cnts: array<int>
    var endpoint: int
    var lastTs: int
    /** `flow_cache_`: flow aggregate to worker. */
    var cache: map<int, int>

    function State(): Lb
      reads this, cnts
    {
      Lb(cnts[..], endpoint, lastTs)
    }

    ghost predicate Valid()
      reads this, cnts
    {
      LbOk(State()) && CacheOk(cache, cnts.Length)
    }

    /** `Init()` for `workers` endpoints: non-positive arguments select
        the defaults; the rate threshold is cast to `uint32_t`. */
    constructor (modeArg: int, workers: int, ncoreArg: int, rateArg: int)
      requires workers >= 1
      ensures mode == (if modeArg > 0 then modeArg else 0)
      ensures ncoreThresh == (if ncoreArg > 0 then ncoreArg else DefaultNcoreThresh)
      ensures rateThresh == (if rateArg > 0 then rateArg % U32 else DefaultRateThresh)
      ensures Valid() && State() == Lb(seq(workers, _ => 0), 0, 0) && cache == map[]
    {
      mode := if modeArg > 0 then modeArg else 0;
      ncoreThresh := if ncoreArg > 0 then ncoreArg else DefaultNcoreThresh;
      rateThresh := if rateArg > 0 then rateArg % U32 else DefaultRateThresh;
      cnts := new int[workers](_ => 0);
      endpoint := 0;
      lastTs := 0;
      cache := map[];
      new;
      assert cnts[..] == seq(workers, _ => 0);
    }

    /** `UpdateEndpointLB()` at clock value `now`: the update of the value
        model, with the selection loop of the mode. */
    method UpdateEndpointLB(now: int, ncores: seq<int>)
      requires Valid() && 0 <= now < U64 && cnts.Length <= |ncores|
      modifies this, cnts
      ensures Valid() && State() == Update(mode, ncoreThresh, rateThresh, old(State()), now, ncores)
      ensures cache == old(cache)
    {
      if WrapSub(now, lastTs, U64) < UpdatePeriodNs {
        return;
      }
      lastTs := now;
      endpoint := -1;
      if 0 <= mode <= 3 {
        endpoint := ScaleAndSelect(ncores);
      }
      ResetCounters();
    }

    /** The selection loop of modes 0 to 3: every counter scaled to a rate
        and the endpoint chosen by those rates. */
    method ScaleAndSelect(ncores: seq<int>) returns (ep: int)
      requires CountsOk(cnts[..]) && cnts.Length <= |ncores|
      modifies cnts
      ensures cnts[..] == Scaled(old(cnts[..]))
      ensures ep == Scan(mode, ncores, cnts[..], ncoreThresh, rateThresh, cnts.Length).1
    {
      ghost var rates := Scaled(cnts[..]);
      var best := InitialBest(mode);
      ep := -1;
      var i := 0;
      while i < cnts.Length
        invariant 0 <= i <= cnts.Length
        invariant forall j :: 0 <= j < i ==> cnts[j] == rates[j]
        invariant forall j :: i <= j < cnts.Length ==> cnts[j] == old(cnts[j])
        invariant (best, ep) == Scan(mode, ncores, rates, ncoreThresh, rateThresh, i)
      {
        cnts[i] := Scale(cnts[i]);
        if !(ncores[i] > ncoreThresh) && !(cnts[i] > rateThresh) {
          var k := Key(mode, ncores[i], cnts[i]);
          if ep == -1 || Better(mode, k, best) {
            best := k;
            ep := i;
          }
        }
        i := i + 1;
      }
      assert cnts[..] == rates;
    }

    /** The closing loop of `UpdateEndpointLB()`: every counter reset. */
    method ResetCounters()
      modifies cnts
      ensures cnts[..] == seq(cnts.Length, _ => 0)
    {
      var i := 0;
      while i < cnts.Length
        invariant 0 <= i <= cnts.Length
        invariant forall j :: 0 <= j < i ==> cnts[j] == 0
      {
        cnts[i] := 0;
        i := i + 1;
      }
    }

    /** The per-packet loop of `ProcessBatch()`: the batch of the value
        model with the current endpoint. */
    method AdmitAll(pkts: seq<Packet>) returns (vs: seq<Verdict>)
      requires Valid()
      modifies this, cnts
      ensures Valid() && endpoint == old(endpoint) && lastTs == old(lastTs)
      ensures (cache, cnts[..], vs) == Batch(endpoint, old(cache), old(cnts[..]), pkts)
    {
      vs := [];
      var k := 0;
      while k < |pkts|
        invariant 0 <= k <= |pkts| && endpoint == old(endpoint) && lastTs == old(lastTs)
        invariant (cache, cnts[..], vs) == Batch(endpoint, old(cache), old(cnts[..]), pkts[..k])
      {
        assert pkts[..k + 1][..k] == pkts[..k];
        var p := pkts[k];
        var v: Verdict;
        if !p.tcp {
          v := Drop;
        } else {
          var id := Aggregate(p);
          if id !in cache && endpoint == -1 {
            v := Drop;
          } else {
            if id !in cache {
              cache := cache[id := endpoint];
            }
            var e := cache[id];
            cnts[e] := Inc32(cnts[e]);
            v := Emit(e);
          }
        }
        vs := vs + [v];
        k := k + 1;
      }
      assert pkts[..|pkts|] == pkts;
    }

    /** `ProcessBatch()` at clock value `now`: the endpoint update, then
        every packet of the batch admitted. */
    method ProcessBatch(now: int, ncores: seq<int>, pkts: seq<Packet>) returns (vs: seq<Verdict>)
      requires Valid() && 0 <= now < U64 && cnts.Length <= |ncores|
      modifies this, cnts
      ensures Valid()
      ensures var u := Update(mode, ncoreThresh, rateThresh, old(State()), now, ncores);
        State() == Lb(Batch(u.endpoint, old(cache), u.cnts, pkts).1, u.endpoint, u.lastTs) &&
        cache == Batch(u.endpoint, old(cache), u.cnts, pkts).0 && vs == Batch(u.endpoint, old(cache), u.cnts, pkts).2
    {
      UpdateEndpointLB(now, ncores);
      vs := AdmitAll(pkts);
    }
  }
}
