// The `MetronIngress` module object: the ToR-layer ingress that balances
// flows over the cores of the cluster, by flow aggregates (Metron, mode 0)
// or by a flow cache (Quadrant, mode 1).  The fixed-size C arrays are
// arrays; the STL containers are sequence, set and map fields.  Every
// method is proved against the value model in the modules `Metron` and
// `Quadrant`, whose lemmas state what the balancing keeps.
module MetronIngress {
  import opened Util
  import opened Metron
  import opened Quadrant

  const DefaultPktRateThresh: int := 1000000
  const DefaultSloNs: int := 1000000

  class Ingress {
    /** `mode_`, `rewrite_`, `pkt_rate_thresh_` and the SLO `slo_ns`. */
    const mode: int
    const rewrite: int
    const pktRateThresh: int
    const slo: int
    /** `flow_id_to_core_`, `per_flow_id_pkt_cnts_`, `per_core_pkt_cnts_`,
        `in_use_cores_` and `is_overloaded_cores_`. */
    const table: array<int>
    const flowCnts: array<int>
    const coreCnts: array<int>
    const inUse: array<bool>
    const overloaded: array<bool>
    /** `flow_aggregates_`, `flow_cache_`, `quadrant_per_core_flow_ids_`,
        `selected_core_id_`, `lb_stage_` and `last_update_ts_`. */
    var aggs: seq<Aggregate>
    var cache: map<int, int>
    var ids: seq<set<int>>
    var selected: int
    var stage: int
    var lastTs: int

    /** The arrays have their C sizes and are distinct; the SLO is positive. */
    predicate Wellformed()
    {
      table.Length == FlowIdCount && flowCnts.Length == FlowIdCount && coreCnts.Length == MaxCoreCount &&
      inUse.Length == MaxCoreCount && overloaded.Length == MaxCoreCount &&
      table != flowCnts && table != coreCnts && flowCnts != coreCnts && inUse != overloaded && slo > 0
    }

    /** The Metron balancing state held by the object. */
    function Bal(): Balance
      reads this, table, inUse, overloaded
    {
      Balance(aggs, table[..], inUse[..], overloaded[..])
    }

    function MState(): MetronState
      reads this, table, inUse, overloaded, coreCnts, flowCnts
    {
      MetronState(Bal(), coreCnts[..], flowCnts[..], stage, lastTs)
    }

    /** The Quadrant balancing state held by the object. */
    function QState(): QuadState
      reads this, inUse, overloaded
    {
      QuadState(ids, cache, inUse[..], overloaded[..], selected, stage, lastTs)
    }

    /** The counters are 32-bit, and the state of the mode in force keeps
        that mode's invariant. */
    ghost predicate Valid()
      reads this, table, inUse, overloaded, coreCnts, flowCnts
    {
      Wellformed() && CountersOk(MState()) && QShaped(QState()) && 0 <= selected < MaxCoreCount &&
      (mode == 0 ==> Covers(MState().bal) && FlagsInUse(MState().bal)) &&
      (mode == 1 ==> Consistent(QState()))
    }

    /** `Init()` at clock value `now`: non-positive arguments select the
        defaults, one aggregate sends every flow id to core 0, the only
        core in use, and the flow cache is empty. */
    constructor (modeArg: int, rewriteArg: int, threshArg: int, sloArg: int, now: int)
      requires 0 <= now < U64
      ensures mode == (if modeArg > 0 then modeArg else 0) && rewrite == (if rewriteArg > 0 then rewriteArg else 0)
      ensures pktRateThresh == (if threshArg > 0 then threshArg else DefaultPktRateThresh)
      ensures slo == (if sloArg > 0 then sloArg else DefaultSloNs)
      ensures Valid()
      ensures MState() == MetronState(Initial(), seq(MaxCoreCount, _ => 0), seq(FlowIdCount, _ => 0), 0, now)
      ensures QState() == QInitial(now)
    {
      mode := if modeArg > 0 then modeArg else 0;
      rewrite := if rewriteArg > 0 then rewriteArg else 0;
      pktRateThresh := if threshArg > 0 then threshArg else DefaultPktRateThresh;
      slo := if sloArg > 0 then sloArg else DefaultSloNs;
      aggs := [Aggregate(0, FlowIdCount, 0)];
      table := new int[FlowIdCount](_ => 0);
      flowCnts := new int[FlowIdCount](_ => 0);
      selected := 0;
      ids := seq(MaxCoreCount, _ => {});
      cache := map[];
      coreCnts := new int[MaxCoreCount](_ => 0);
      inUse := new bool[MaxCoreCount](j => j == 0);
      overloaded := new bool[MaxCoreCount](_ => false);
      stage := 0;
      lastTs := now;
      new;
      InitialCovers();
      assert table[..] == Initial().table && inUse[..] == Initial().inUse && overloaded[..] == Initial().overloaded;
      assert coreCnts[..] == seq(MaxCoreCount, _ => 0) && flowCnts[..] == seq(FlowIdCount, _ => 0);
      assert QState() == QInitial(now);
    }

    /** `GetFreeCore()`: the first core of the cluster not in use, or 255. */
    method GetFreeCore() returns (c: int)
      requires Wellformed()
      ensures c == FreeCore(inUse[..])
    {
      var i := 0;
      while i < MaxCoreCount
        invariant 0 <= i <= MaxCoreCount
        invariant forall j :: 0 <= j < i ==> inUse[j]
      {
        if !inUse[i] {
          return i;
        }
        i := i + 1;
      }
      return NoFreeCore;
    }

    // -------------------------------------------------------------------
    // Metron.

    /** The stage-0 loop: every core in use whose packet rate over the
        elapsed `diff` milliseconds exceeds the threshold is flagged. */
    method MarkOverloads(diff: int)
      requires Wellformed() && diff > 0
      modifies overloaded
      ensures overloaded[..] == Mark(old(Bal()), coreCnts[..], diff, pktRateThresh).overloaded
    {
      var i := 0;
      while i < MaxCoreCount
        invariant 0 <= i <= MaxCoreCount
        invariant forall j :: 0 <= j < i ==>
          overloaded[j] == (old(overloaded[j]) || (inUse[j] && Rate(coreCnts[j], diff) > pktRateThresh))
        invariant forall j :: i <= j < MaxCoreCount ==> overloaded[j] == old(overloaded[j])
      {
        if inUse[i] {
          if Rate(coreCnts[i], diff) > pktRateThresh {
            overloaded[i] := true;
          }
        }
        i := i + 1;
      }
    }

    /** The search of `flow_aggregates_` for the aggregate of core i. */
    method FindAggregate(i: int) returns (k: int)
      ensures k == FirstWhere(aggs, ServedBy(i))
    {
      k := 0;
      while k < |aggs|
        invariant 0 <= k <= |aggs|
        invariant forall j :: 0 <= j < k ==> aggs[j].core != i
      {
        if aggs[k].core == i {
          return;
        }
        k := k + 1;
      }
    }

    /** The loop that points the flow ids [lo, hi) at core c, stopping at
        the first id past the table. */
    method RemapFlows(lo: int, hi: int, c: int)
      requires Wellformed() && 0 <= lo <= hi
      modifies table
      ensures table[..] == Assign(old(table[..]), lo, hi, c)
    {
      var id := lo;
      while id < hi
        invariant lo <= id <= hi
        invariant table[..] == Assign(old(table[..]), lo, id, c)
      {
        if id > FlowIdCount - 1 {
          break;
        }
        table[id] := c;
        id := id + 1;
      }
    }

    /** One iteration of the stage-1 loop for core i: a flagged core in
        use loses its flag and hands the upper half of its aggregate to the
        first free core.  An aggregate of one flow id, or a cluster without
        a free core, is left as it is. */
    method SplitCoreStep(i: int)
      requires Wellformed() && StartsOk(aggs) && 0 <= i < MaxCoreCount
      modifies this, table, inUse, overloaded
      ensures Bal() == SplitCore(old(Bal()), i)
      ensures cache == old(cache) && ids == old(ids) && selected == old(selected)
      ensures stage == old(stage) && lastTs == old(lastTs)
    {
      ghost var b0 := Bal();
      if !inUse[i] || !overloaded[i] {
        return;
      }
      overloaded[i] := false;
      ghost var b1 := b0.(overloaded := b0.overloaded[i := false]);
      assert Bal() == b1;
      var k := FindAggregate(i);
      if k == |aggs| {
        return;
      }
      var a := aggs[k];
      var h := a.length / 2;
      if h == 0 {
        return;
      }
      var c := GetFreeCore();
      if c == NoFreeCore {
        return;
      }
      assert SplitCore(b0, i) == Halve(b1, k, c);
      inUse[c] := true;
      aggs := Erase(aggs, k) + [Aggregate(a.start, h, a.core), Aggregate(a.start + h, h, c)];
      RemapFlows(a.start + h, a.start + 2 * h, c);
    }

    /** The stage-1 loop over all cores. */
    method SplitAll()
      requires Wellformed() && Covers(Bal())
      modifies this, table, inUse, overloaded
      ensures Bal() == SplitUpTo(old(Bal()), MaxCoreCount)
      ensures cache == old(cache) && ids == old(ids) && selected == old(selected)
      ensures stage == old(stage) && lastTs == old(lastTs)
    {
      ghost var b0 := Bal();
      var i := 0;
      while i < MaxCoreCount
        invariant 0 <= i <= MaxCoreCount
        invariant Bal() == SplitUpTo(b0, i)
        invariant cache == old(cache) && ids == old(ids) && selected == old(selected)
        invariant stage == old(stage) && lastTs == old(lastTs)
      {
        SplitUpToKeepsCovers(b0, i);
        CoversStarts(Bal());
        SplitCoreStep(i);
        i := i + 1;
      }
    }

    /** The counter reset that ends a period. */
    method ResetCounters()
      requires Wellformed()
      modifies coreCnts, flowCnts
      ensures coreCnts[..] == seq(MaxCoreCount, _ => 0) && flowCnts[..] == seq(FlowIdCount, _ => 0)
    {
      var i := 0;
      while i < MaxCoreCount
        invariant 0 <= i <= MaxCoreCount
        invariant forall j :: 0 <= j < i ==> coreCnts[j] == 0
      {
        coreCnts[i] := 0;
        i := i + 1;
      }
      i := 0;
      while i < FlowIdCount
        invariant 0 <= i <= FlowIdCount
        invariant forall j :: 0 <= j < i ==> flowCnts[j] == 0
        invariant forall j :: 0 <= j < MaxCoreCount ==> coreCnts[j] == 0
      {
        flowCnts[i] := 0;
        i := i + 1;
      }
    }

    /** `MetronProcessOverloads()` at clock value `now`: the period step of
        the value model, which keeps the aggregates covering every flow id. */
    method MetronProcessOverloads(now: int)
      requires Valid() && mode == 0 && 0 <= now < U64
      modifies this, table, inUse, overloaded, coreCnts, flowCnts
      ensures Valid() && MState() == Process(old(MState()), now, pktRateThresh)
      ensures cache == old(cache) && ids == old(ids) && selected == old(selected)
    {
      ghost var s0 := MState();
      ProcessKeeps(s0, now, pktRateThresh);
      var diff := ElapsedMs(now, lastTs);
      if stage == 0 {
        if diff < MetronPeriodMs {
          return;
        }
        MarkKeeps(Bal(), coreCnts[..], diff, pktRateThresh);
        MarkOverloads(diff);
        stage := 1;
        assert MState() == s0.(bal := Mark(s0.bal, s0.coreCnts, diff, pktRateThresh), stage := 1);
      }
      if stage == 1 {
        if diff < MetronPeriodMs + HardwareRuleDelayMs {
          return;
        }
        SplitAll();
        ResetCounters();
        stage := 0;
        lastTs := now;
      }
    }

    /** The Metron per-packet loop: a TCP packet goes to the core the table
        gives its flow id, and is counted for its flow id and that core. */
    method MetronPackets(pkts: seq<Packet>) returns (vs: seq<Verdict>)
      requires Wellformed() && CountersOk(MState()) && TableOk(table[..])
      modifies coreCnts, flowCnts
      ensures MState() == Tally(old(MState()), pkts)
      ensures |vs| == |pkts| && forall k :: 0 <= k < |pkts| ==> vs[k] == Route(Bal(), pkts[k], rewrite)
    {
      ghost var b := Bal();
      vs := [];
      var k := 0;
      while k < |pkts|
        invariant 0 <= k <= |pkts| && Bal() == b
        invariant MState() == Tally(old(MState()), pkts[..k])
        invariant |vs| == k && forall j :: 0 <= j < k ==> vs[j] == Route(b, pkts[j], rewrite)
      {
        var p := pkts[k];
        assert pkts[..k + 1][..k] == pkts[..k];
        var v: Verdict;
        if !p.tcp {
          v := Drop;
        } else {
          var id := FlowId(p.dst);
          var encode := table[id];
          flowCnts[id] := Inc32(flowCnts[id]);
          coreCnts[encode] := Inc32(coreCnts[encode]);
          v := Send(p, encode, rewrite);
        }
        vs := vs + [v];
        k := k + 1;
      }
      assert pkts[..|pkts|] == pkts;
    }

    // -------------------------------------------------------------------
    // Quadrant.

    /** The stage-0 loop: flags the cores in use that exceed the SLO and
        picks the target among the cores below half of it. */
    method SelectCores(delays: seq<int>) returns (sel: int)
      requires Wellformed() && QShaped(QState()) && 0 <= selected < MaxCoreCount
      requires |delays| == MaxCoreCount && forall j :: 0 <= j < |delays| ==> delays[j] >= 0
      modifies overloaded
      ensures sel == Pick(delays, slo, MaxCoreCount, selected).1
      ensures overloaded[..] == QMark(old(QState()), delays, slo)
    {
      ghost var q0 := QState();
      var maxDelay := 0;
      sel := selected;
      var i := 0;
      while i < MaxCoreCount
        invariant 0 <= i <= MaxCoreCount && inUse[..] == q0.inUse
        invariant (maxDelay, sel) == Pick(delays, slo, i, selected)
        invariant forall j :: 0 <= j < i ==> overloaded[j] == (q0.overloaded[j] || (delays[j] > slo && q0.inUse[j]))
        invariant forall j :: i <= j < MaxCoreCount ==> overloaded[j] == q0.overloaded[j]
      {
        if delays[i] > slo {
          if inUse[i] {
            overloaded[i] := true;
          }
          assert overloaded[i] == (q0.overloaded[i] || q0.inUse[i]);
        } else if delays[i] < slo / 2 {
          if maxDelay == 0 || maxDelay < delays[i] {
            maxDelay := delays[i];
            sel := i;
          }
        }
        i := i + 1;
      }
    }

    /** One iteration of the stage-1 loop for core i: a flagged core in use
        with at least two flows moves the lower half of them to the
        selected core. */
    method MoveCoreStep(i: int)
      requires Wellformed() && QShaped(QState()) && 0 <= selected < MaxCoreCount && 0 <= i < MaxCoreCount
      modifies this, inUse, overloaded
      ensures QState() == MoveCore(old(QState()), i)
      ensures aggs == old(aggs)
    {
      if !inUse[i] || !overloaded[i] {
        return;
      }
      var nc := selected;
      var target := |ids[i]| / 2;
      if target == 0 {
        return;
      }
      var m := LowestFlows(ids[i], target);
      ids, cache := MoveFlows(ids, cache, i, nc, m);
      inUse[nc] := true;
      overloaded[i] := false;
      overloaded[nc] := false;
    }

    /** The stage-1 loop over all cores. */
    method MoveAll()
      requires Wellformed() && QShaped(QState()) && 0 <= selected < MaxCoreCount
      modifies this, inUse, overloaded
      ensures QState() == MoveUpTo(old(QState()), MaxCoreCount)
      ensures aggs == old(aggs)
    {
      var i := 0;
      while i < MaxCoreCount
        invariant 0 <= i <= MaxCoreCount
        invariant QState() == MoveUpTo(old(QState()), i) && aggs == old(aggs)
        invariant QShaped(QState()) && 0 <= selected < MaxCoreCount
      {
        MoveCoreStep(i);
        i := i + 1;
      }
    }

    /** `QuadrantProcessOverloads()` at clock value `now`, with the worst
        batch delay of each core: the period step of the value model, which
        keeps the flow cache consistent. */
    method QuadrantProcessOverloads(now: int, delays: seq<int>)
      requires Valid() && mode == 1 && 0 <= now < U64
      requires |delays| == MaxCoreCount && forall j :: 0 <= j < |delays| ==> delays[j] >= 0
      modifies this, inUse, overloaded
      ensures Valid() && QState() == QProcess(old(QState()), now, delays, slo, rewrite)
      ensures aggs == old(aggs)
    {
      if rewrite != 0 {
        return;
      }
      ghost var q0 := QState();
      QProcessKeeps(q0, now, delays, slo, rewrite);
      var diff := ElapsedMs(now, lastTs);
      if stage == 0 {
        if diff < QuadrantPeriodMs {
          return;
        }
        var sel := SelectCores(delays);
        inUse[sel] := true;
        selected := sel;
        stage := 1;
        assert QState() == Select(q0, delays, slo);
      }
      if stage == 1 {
        if diff < QuadrantPeriodMs + HardwareRuleDelayMs {
          return;
        }
        MoveAll();
        stage := 0;
        lastTs := now;
      }
    }

    /** The Quadrant per-packet loop: a TCP packet goes to the core its
        flow is cached on; a new flow is cached on the selected core. */
    method QuadrantPackets(pkts: seq<Packet>) returns (vs: seq<Verdict>)
      requires Wellformed() && QShaped(QState()) && 0 <= selected < MaxCoreCount
      modifies this
      ensures (QState(), vs) == QBatch(old(QState()), pkts, rewrite)
      ensures aggs == old(aggs)
    {
      vs := [];
      var k := 0;
      while k < |pkts|
        invariant 0 <= k <= |pkts| && aggs == old(aggs) && selected == old(selected)
        invariant (QState(), vs) == QBatch(old(QState()), pkts[..k], rewrite)
      {
        var p := pkts[k];
        assert pkts[..k + 1][..k] == pkts[..k];
        var v: Verdict;
        if !p.tcp {
          v := Drop;
        } else {
          var id := QuadFlowId(p);
          var encode: int;
          if id !in cache {
            cache := cache[id := selected];
            ids := ids[selected := ids[selected] + {id}];
            encode := selected;
          } else {
            encode := cache[id];
          }
          v := Send(p, encode, rewrite);
        }
        vs := vs + [v];
        k := k + 1;
      }
      assert pkts[..|pkts|] == pkts;
    }

    // -------------------------------------------------------------------
    // The batch.

    /** `ProcessBatch()` at clock value `now`: the period step of the mode
        in force, then every packet of the batch routed as that mode
        routes it.  An unknown mode is fatal. */
    method ProcessBatch(now: int, delays: seq<int>, pkts: seq<Packet>) returns (vs: seq<Verdict>)
      requires Valid() && 0 <= now < U64
      requires |delays| == MaxCoreCount && forall j :: 0 <= j < |delays| ==> delays[j] >= 0
      modifies this, table, inUse, overloaded, coreCnts, flowCnts
      ensures Valid()
      ensures mode == 0 ==> (MState(), vs) == MetronBatch(old(MState()), now, pktRateThresh, pkts, rewrite)
      ensures mode == 1 ==> (QState(), vs) == QBatch(QProcess(old(QState()), now, delays, slo, rewrite), pkts, rewrite)
      ensures mode != 0 && mode != 1 ==> vs == [Fatal] && MState() == old(MState()) && QState() == old(QState())
    {
      if mode == 0 {
        ghost var s0 := MState();
        MetronProcessOverloads(now);
        CoversTableOk(Bal());
        vs := MetronPackets(pkts);
        assert vs == MetronBatch(s0, now, pktRateThresh, pkts, rewrite).1;
      } else if mode == 1 {
        QuadrantProcessOverloads(now, delays);
        ghost var q1 := QState();
        vs := QuadrantPackets(pkts);
        QBatchKeeps(q1, pkts, rewrite);
      } else {
        vs := [Fatal];
      }
    }
  }

  /** No aggregate starts below flow id 0 or has a negative length. */
  predicate StartsOk(aggs: seq<Aggregate>)
  {
    forall k :: 0 <= k < |aggs| ==> aggs[k].start >= 0 && aggs[k].length >= 0
  }

  lemma CoversStarts(b: Balance)
    requires Covers(b)
    ensures StartsOk(b.aggs)
  {
  }

  /** The lower `target` flow ids of core `s`, collected in ascending order
      as the source's loop over the ordered set does. */
  method LowestFlows(s: set<int>, target: int) returns (m: set<int>)
    requires target > 0
    ensures m == Smallest(s, target)
  {
    m := {};
    var rest := s;
    var n := 0;
    while rest != {}
      invariant 0 <= n < target
      invariant Smallest(s, target) == m + Smallest(rest, target - n)
      decreases |rest|
    {
      var x := MinKey(rest);
      assert Smallest(rest, target - n) == {x} + Smallest(rest - {x}, target - n - 1);
      m := m + {x};
      n := n + 1;
      rest := rest - {x};
      if n == target {
        assert Smallest(rest, 0) == {};
        return;
      }
    }
    assert Smallest(rest, target - n) == {};
  }

  /** The loop that moves each flow of m from core i to core nc and pins
      it there in the cache. */
  method MoveFlows(ids: seq<set<int>>, cache: map<int, int>, i: int, nc: int, m: set<int>)
    returns (ids': seq<set<int>>, cache': map<int, int>)
    requires 0 <= i < |ids| && 0 <= nc < |ids| && m <= ids[i]
    ensures ids' == MoveIds(ids, i, nc, m) && cache' == Pin(cache, m, nc)
  {
    ids', cache' := ids, cache;
    var rest := m;
    NoneMoved(ids, cache, i, nc, m);
    while rest != {}
      invariant rest <= m
      invariant ids' == MoveIds(ids, i, nc, m - rest) && cache' == Pin(cache, m - rest, nc)
      decreases |rest|
    {
      var x := MinKey(rest);
      OneMore(m, rest, x);
      ids', cache' := MoveFlow(ids', cache', i, nc, x, ids, cache, m - rest);
      rest := rest - {x};
    }
    AllMoved(m);
  }

  lemma NoneMoved(ids: seq<set<int>>, cache: map<int, int>, i: int, nc: int, m: set<int>)
    requires 0 <= i < |ids| && 0 <= nc < |ids|
    ensures MoveIds(ids, i, nc, m - m) == ids && Pin(cache, m - m, nc) == cache
  {
    assert m - m == {};
    assert forall c :: 0 <= c < |ids| ==> MoveIds(ids, i, nc, {})[c] == ids[c];
    assert forall id :: id in cache ==> Pin(cache, {}, nc)[id] == cache[id];
  }

  lemma OneMore(m: set<int>, rest: set<int>, x: int)
    requires rest <= m && x in rest
    ensures (m - rest) + {x} == m - (rest - {x}) && x !in m - rest && rest - {x} <= m
  {
  }

  lemma AllMoved(m: set<int>)
    ensures m - {} == m
  {
  }

  /** One iteration of that loop: flow x leaves core i for core nc, and
      the cache pins it to nc. */
  method MoveFlow(ids: seq<set<int>>, cache: map<int, int>, i: int, nc: int, x: int,
                  ghost ids0: seq<set<int>>, ghost cache0: map<int, int>, ghost done: set<int>)
    returns (ids': seq<set<int>>, cache': map<int, int>)
    requires 0 <= i < |ids0| && 0 <= nc < |ids0| && done <= ids0[i] && x in ids0[i] && x !in done
    requires ids == MoveIds(ids0, i, nc, done) && cache == Pin(cache0, done, nc)
    ensures ids' == MoveIds(ids0, i, nc, done + {x}) && cache' == Pin(cache0, done + {x}, nc)
  {
    MoveIdsStep(ids0, i, nc, done, x);
    PinStep(cache0, done, nc, x);
    ids' := ids[i := ids[i] - {x}];
    ids' := ids'[nc := ids'[nc] + {x}];
    cache' := cache[x := nc];
  }
}
