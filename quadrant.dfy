// The Quadrant load balancer of the ToR ingress (`MetronIngress` in mode
// 1).  Flows are pinned to a core in a flow cache the first time they are
// seen, to the currently selected core.  Each period the ingress flags the
// cores whose worst batch delay exceeds the SLO, selects the busiest core
// still well below it as the new target, and, once the switch rule would
// be in force, moves the lower half of each flagged core's flows to the
// target.
module Quadrant {
  import opened Util
  import opened Metron

  const QuadrantPeriodMs: int := 300

  // ---------------------------------------------------------------------
  // State.

  /** `quadrant_per_core_flow_ids_`, `flow_cache_`, `in_use_cores_`,
      `is_overloaded_cores_`, `selected_core_id_`, `lb_stage_` and
      `last_update_ts_`. */
  datatype QuadState = QuadState(ids: seq<set<int>>, cache: map<int, int>, inUse: seq<bool>, overloaded: seq<bool>,
                                 selected: int, stage: int, lastTs: int)

  predicate QShaped(q: QuadState)
  {
    |q.ids| == MaxCoreCount && |q.inUse| == MaxCoreCount && |q.overloaded| == MaxCoreCount && 0 <= q.lastTs < U64
  }

  /** The flow cache and the per-core flow sets agree: a flow is in core
      c's set exactly when the cache pins it to c, and the selected core
      is a core of the cluster. */
  ghost predicate Consistent(q: QuadState)
  {
    QShaped(q) && 0 <= q.selected < MaxCoreCount &&
    (forall c, id :: 0 <= c < MaxCoreCount && id in q.ids[c] ==> id in q.cache && q.cache[id] == c) &&
    (forall id :: id in q.cache ==> 0 <= q.cache[id] < MaxCoreCount && id in q.ids[q.cache[id]])
  }

  /** Under consistency the per-core sets split the cached flows: each
      cached flow is in exactly one of them. */
  lemma ConsistentPartitions(q: QuadState, id: int)
    requires Consistent(q)
    ensures id in q.cache <==> exists c :: 0 <= c < MaxCoreCount && id in q.ids[c]
    ensures forall c, d :: 0 <= c < d < MaxCoreCount ==> !(id in q.ids[c] && id in q.ids[d])
  {
    if id in q.cache {
      assert id in q.ids[q.cache[id]];
    }
  }

  /** `Init()`: everything empty, core 0 in use and selected. */
  function QInitial(now: int): (q: QuadState)
    requires 0 <= now < U64
    ensures Consistent(q)
  {
    QuadState(seq(MaxCoreCount, _ => {}), map[], seq(MaxCoreCount, j => j == 0), seq(MaxCoreCount, _ => false), 0, 0, now)
  }

  // ---------------------------------------------------------------------
  // Stage 0: flag overloaded cores and select the target.

  /** A core whose worst delay is below half the SLO can take flows. */
  predicate Candidate(d: int, slo: int)
  {
    d < slo / 2
  }

  /** The selection loop over cores 0 .. n-1: the largest delay seen among
      the candidates and the core selected, starting from `sel0`.  A
      candidate replaces the selection while no positive delay has been
      seen, or when its delay is larger. */
  function Pick(delays: seq<int>, slo: int, n: int, sel0: int): (r: (int, int))
    requires 0 <= n <= |delays| && slo >= 0 && forall j :: 0 <= j < |delays| ==> delays[j] >= 0
    ensures r.0 >= 0 && (r.1 == sel0 || 0 <= r.1 < n)
  {
    if n == 0 then (0, sel0)
    else
      var p := Pick(delays, slo, n - 1, sel0);
      var d := delays[n - 1];
      if d > slo then p
      else if d < slo / 2 && (p.0 == 0 || p.0 < d) then (d, n - 1)
      else p
  }

  /** The selection picks the largest delay among the candidates: the
      first core with it when it is positive; when every candidate has
      delay 0, the last candidate, and `sel0` when there is none. */
  lemma {:induction false} PickBest(delays: seq<int>, slo: int, n: int, sel0: int)
    requires 0 <= n <= |delays| && slo >= 0 && forall j :: 0 <= j < |delays| ==> delays[j] >= 0
    ensures var r := Pick(delays, slo, n, sel0);
      (forall j :: 0 <= j < n && Candidate(delays[j], slo) ==> delays[j] <= r.0) &&
      (r.0 == 0 ==>
        (r.1 == sel0 && forall j :: 0 <= j < n ==> !Candidate(delays[j], slo)) ||
        (0 <= r.1 < n && Candidate(delays[r.1], slo) && delays[r.1] == 0 &&
         forall j :: r.1 < j < n ==> !Candidate(delays[j], slo))) &&
      (r.0 > 0 ==>
        0 <= r.1 < n && Candidate(delays[r.1], slo) && delays[r.1] == r.0 &&
        forall j :: 0 <= j < r.1 && Candidate(delays[j], slo) ==> delays[j] < r.0)
  {
    if n > 0 {
      PickBest(delays, slo, n - 1, sel0);
    }
  }

  /** The marking part of the loop: a core in use whose worst delay
      exceeds the SLO is flagged. */
  function QMark(q: QuadState, delays: seq<int>, slo: int): (r: seq<bool>)
    requires QShaped(q) && |delays| == MaxCoreCount
    ensures |r| == MaxCoreCount
  {
    seq(MaxCoreCount, j requires 0 <= j < MaxCoreCount => q.overloaded[j] || (delays[j] > slo && q.inUse[j]))
  }

  /** Stage 0 once a period has passed: flags, the selection, the selected
      core put in use, and stage 1. */
  function Select(q: QuadState, delays: seq<int>, slo: int): (r: QuadState)
    requires QShaped(q) && |delays| == MaxCoreCount && slo >= 0 && forall j :: 0 <= j < |delays| ==> delays[j] >= 0
    requires 0 <= q.selected < MaxCoreCount
    ensures QShaped(r) && 0 <= r.selected < MaxCoreCount
  {
    var sel := Pick(delays, slo, MaxCoreCount, q.selected).1;
    q.(overloaded := QMark(q, delays, slo), inUse := q.inUse[sel := true], selected := sel, stage := 1)
  }

  /** Selecting keeps the flows where they are; the selected core is in use
      and is a candidate unless no core is one, and no core in use that
      exceeds the SLO is left unflagged. */
  lemma SelectKeeps(q: QuadState, delays: seq<int>, slo: int)
    requires Consistent(q) && |delays| == MaxCoreCount && slo >= 0 && forall j :: 0 <= j < |delays| ==> delays[j] >= 0
    ensures var r := Select(q, delays, slo);
      Consistent(r) && r.ids == q.ids && r.cache == q.cache && r.inUse[r.selected] &&
      ((exists j :: 0 <= j < MaxCoreCount && Candidate(delays[j], slo)) ==> Candidate(delays[r.selected], slo)) &&
      (forall j :: 0 <= j < MaxCoreCount && q.inUse[j] && delays[j] > slo ==> r.overloaded[j])
  {
    PickBest(delays, slo, MaxCoreCount, q.selected);
  }

  // ---------------------------------------------------------------------
  // Stage 1: move flows off the flagged cores.

  /** The k smallest elements of s (all of them when s has fewer). */
  function Smallest(s: set<int>, k: int): (m: set<int>)
    ensures m <= s && |m| == (if 0 <= k <= |s| then k else if k < 0 then 0 else |s|)
    decreases if k < 0 then 0 else k
  {
    if k <= 0 || s == {} then {}
    else
      var x := MinKey(s);
      var rest := Smallest(s - {x}, k - 1);
      assert x !in rest;
      {x} + rest
  }

  /** Every element taken is below every element left. */
  lemma {:induction false} SmallestLowest(s: set<int>, k: int)
    ensures forall x, y :: x in Smallest(s, k) && y in s && y !in Smallest(s, k) ==> x < y
    decreases if k < 0 then 0 else k
  {
    if k > 0 && s != {} {
      var x := MinKey(s);
      var r := Smallest(s - {x}, k - 1);
      SmallestLowest(s - {x}, k - 1);
      assert Smallest(s, k) == {x} + r;
      forall a, b | a in Smallest(s, k) && b in s && b !in Smallest(s, k)
        ensures a < b
      {
        if a == x {
          assert IsLeast(x, s) && b != x;
        } else {
          assert a in r && b in s - {x} && b !in r;
        }
      }
    }
  }

  /** The per-core sets after the flows m leave core i for core nc. */
  function MoveIds(ids: seq<set<int>>, i: int, nc: int, m: set<int>): (r: seq<set<int>>)
    requires 0 <= i < |ids| && 0 <= nc < |ids|
    ensures |r| == |ids|
  {
    var a := ids[i := ids[i] - m];
    a[nc := a[nc] + m]
  }

  /** Moving one more flow x of core i, as the source's loop does: erased
      from core i, then added to core nc. */
  lemma MoveIdsStep(ids: seq<set<int>>, i: int, nc: int, m: set<int>, x: int)
    requires 0 <= i < |ids| && 0 <= nc < |ids| && m <= ids[i] && x in ids[i] && x !in m
    ensures MoveIds(MoveIds(ids, i, nc, m), i, nc, {x}) == MoveIds(ids, i, nc, m + {x})
  {
    var a := MoveIds(MoveIds(ids, i, nc, m), i, nc, {x});
    var b := MoveIds(ids, i, nc, m + {x});
    if nc == i {
      assert ids[i] - m + m == ids[i];
      assert ids[i] - {x} + {x} == ids[i];
      assert ids[i] - (m + {x}) + (m + {x}) == ids[i];
    } else {
      assert a[i] == ids[i] - m - {x} == b[i];
      assert a[nc] == ids[nc] + m + {x} == b[nc];
    }
    assert forall c :: 0 <= c < |ids| ==> a[c] == b[c];
  }

  /** The cache after the flows m are pinned to core nc. */
  function Pin(cache: map<int, int>, m: set<int>, nc: int): map<int, int>
  {
    cache + map id | id in m :: nc
  }

  /** Pinning one more flow x, as the source's loop does. */
  lemma PinStep(cache: map<int, int>, m: set<int>, nc: int, x: int)
    ensures Pin(cache, m, nc)[x := nc] == Pin(cache, m + {x}, nc)
  {
    var a := Pin(cache, m, nc)[x := nc];
    var b := Pin(cache, m + {x}, nc);
    assert forall id :: id in a ==> a[id] == b[id];
  }

  /** Moving the flows m from core i to core nc. */
  function Move(q: QuadState, i: int, nc: int, m: set<int>): (r: QuadState)
    requires QShaped(q) && 0 <= i < MaxCoreCount && 0 <= nc < MaxCoreCount
    ensures QShaped(r)
  {
    q.(ids := MoveIds(q.ids, i, nc, m),
       cache := Pin(q.cache, m, nc),
       inUse := q.inUse[nc := true],
       overloaded := q.overloaded[i := false][nc := false])
  }

  /** One iteration of the stage-1 loop for core i: a flagged core in use
      gives the lower half of its flows, in ascending flow id order, to
      the selected core.  A core with fewer than two flows keeps them and
      its flag. */
  function MoveCore(q: QuadState, i: int): (r: QuadState)
    requires QShaped(q) && 0 <= i < MaxCoreCount && 0 <= q.selected < MaxCoreCount
    ensures QShaped(r) && r.selected == q.selected
  {
    if !q.inUse[i] || !q.overloaded[i] then q
    else
      var target := |q.ids[i]| / 2;
      if target == 0 then q
      else Move(q, i, q.selected, Smallest(q.ids[i], target))
  }

  /** Moving some of core i's flows keeps the cache consistent and the
      set of cached flows unchanged, and pins the moved flows to nc. */
  lemma MoveConsistent(q: QuadState, i: int, nc: int, m: set<int>)
    requires Consistent(q) && 0 <= i < MaxCoreCount && 0 <= nc < MaxCoreCount && m <= q.ids[i]
    ensures var r := Move(q, i, nc, m);
      Consistent(r) && r.cache.Keys == q.cache.Keys && forall id :: id in m ==> r.cache[id] == nc
  {
    var r := Move(q, i, nc, m);
    assert forall id :: id in m ==> id in q.cache;
    assert r.cache.Keys == q.cache.Keys + m;
    forall c, id | 0 <= c < MaxCoreCount && id in r.ids[c]
      ensures id in r.cache && r.cache[id] == c
    {
      if id !in m {
        assert id in q.ids[c];
      }
    }
    forall id | id in r.cache
      ensures 0 <= r.cache[id] < MaxCoreCount && id in r.ids[r.cache[id]]
    {
      if id !in m {
        assert id in q.cache;
      }
    }
  }

  /** Moving flows of core i to another core nc takes them from i, adds
      them to nc, keeps every other core's flows and the two cores' flow
      count total. */
  lemma MoveCounts(q: QuadState, i: int, nc: int, m: set<int>)
    requires Consistent(q) && 0 <= i < MaxCoreCount && 0 <= nc < MaxCoreCount && nc != i && m <= q.ids[i]
    ensures var r := Move(q, i, nc, m);
      r.ids[i] == q.ids[i] - m && r.ids[nc] == q.ids[nc] + m &&
      |r.ids[i]| + |r.ids[nc]| == |q.ids[i]| + |q.ids[nc]| &&
      forall c :: 0 <= c < MaxCoreCount && c != i && c != nc ==> r.ids[c] == q.ids[c]
  {
    assert q.ids[nc] !! m by {
      forall id | id in m ensures id !in q.ids[nc] { assert q.cache[id] == i; }
    }
    assert |q.ids[i] - m| == |q.ids[i]| - |m|;
  }

  /** A stage-1 step keeps the flow cache and the per-core sets consistent
      and the set of cached flows unchanged.  A move takes exactly half
      (rounded down) of the flagged core's flows, the smallest ids, and
      when the target is another core the two cores' flow counts add up as
      before. */
  lemma MoveCoreKeeps(q: QuadState, i: int)
    requires Consistent(q) && 0 <= i < MaxCoreCount
    ensures var r := MoveCore(q, i);
      Consistent(r) && r.cache.Keys == q.cache.Keys &&
      (q.inUse[i] && q.overloaded[i] && |q.ids[i]| >= 2 ==>
        var m := Smallest(q.ids[i], |q.ids[i]| / 2);
        var nc := q.selected;
        |m| == |q.ids[i]| / 2 && m <= q.ids[i] &&
        (forall id :: id in m ==> r.cache[id] == nc) &&
        (nc != i ==> r.ids[i] == q.ids[i] - m && r.ids[nc] == q.ids[nc] + m &&
                     |r.ids[i]| + |r.ids[nc]| == |q.ids[i]| + |q.ids[nc]|) &&
        (forall c :: 0 <= c < MaxCoreCount && c != i && c != nc ==> r.ids[c] == q.ids[c]))
  {
    if q.inUse[i] && q.overloaded[i] && |q.ids[i]| >= 2 {
      var m := Smallest(q.ids[i], |q.ids[i]| / 2);
      MoveConsistent(q, i, q.selected, m);
      if q.selected != i {
        MoveCounts(q, i, q.selected, m);
      }
    }
  }

  /** The stage-1 loop over cores 0 .. n-1, in order. */
  function MoveUpTo(q: QuadState, n: int): (r: QuadState)
    requires QShaped(q) && 0 <= n <= MaxCoreCount && 0 <= q.selected < MaxCoreCount
    ensures QShaped(r) && r.selected == q.selected
  {
    if n == 0 then q else MoveCore(MoveUpTo(q, n - 1), n - 1)
  }

  lemma {:induction false} MoveUpToKeeps(q: QuadState, n: int)
    requires Consistent(q) && 0 <= n <= MaxCoreCount
    ensures Consistent(MoveUpTo(q, n)) && MoveUpTo(q, n).cache.Keys == q.cache.Keys
  {
    if n > 0 {
      MoveUpToKeeps(q, n - 1);
      MoveCoreKeeps(MoveUpTo(q, n - 1), n - 1);
    }
  }

  // ---------------------------------------------------------------------
  // The balancing period.

  /** `QuadrantProcessOverloads()` at clock value `now`, with the per-core
      worst batch delays `delays` and the SLO `slo` (nanoseconds).  Only
      the ingress without rewriting balances. */
  function QProcess(q: QuadState, now: int, delays: seq<int>, slo: int, rewrite: int): (r: QuadState)
    requires QShaped(q) && 0 <= q.selected < MaxCoreCount && 0 <= now < U64
    requires |delays| == MaxCoreCount && slo >= 0 && forall j :: 0 <= j < |delays| ==> delays[j] >= 0
    ensures QShaped(r) && 0 <= r.selected < MaxCoreCount
  {
    if rewrite != 0 then q
    else
      var diff := ElapsedMs(now, q.lastTs);
      if q.stage == 0 && diff < QuadrantPeriodMs then q
      else
        var q1 := if q.stage == 0 then Select(q, delays, slo) else q;
        if q1.stage != 1 || diff < QuadrantPeriodMs + HardwareRuleDelayMs then q1
        else MoveUpTo(q1, MaxCoreCount).(stage := 0, lastTs := now)
  }

  /** A period step keeps the cache consistent and never loses or invents
      a cached flow; before a period has passed, or with rewriting on, it
      changes nothing. */
  lemma QProcessKeeps(q: QuadState, now: int, delays: seq<int>, slo: int, rewrite: int)
    requires Consistent(q) && 0 <= now < U64
    requires |delays| == MaxCoreCount && slo >= 0 && forall j :: 0 <= j < |delays| ==> delays[j] >= 0
    ensures var r := QProcess(q, now, delays, slo, rewrite);
      Consistent(r) && r.cache.Keys == q.cache.Keys &&
      (rewrite != 0 || (q.stage == 0 && ElapsedMs(now, q.lastTs) < QuadrantPeriodMs) ==> r == q)
  {
    if rewrite == 0 {
      var diff := ElapsedMs(now, q.lastTs);
      if q.stage == 0 && diff >= QuadrantPeriodMs {
        SelectKeeps(q, delays, slo);
        MoveUpToKeeps(Select(q, delays, slo), MaxCoreCount);
      } else {
        MoveUpToKeeps(q, MaxCoreCount);
      }
    }
  }

  // ---------------------------------------------------------------------
  // Per-packet routing.

  /** The Quadrant flow id: bits 16..27 of the source address and the low
      12 bits of the destination address. */
  function QuadFlowId(p: Packet): (id: int)
    ensures 0 <= id < 0x1000_0000
  {
    ((p.src / 0x1_0000) % 0x1000) * 0x1_0000 + p.dst % 0x1000
  }

  /** `ProcessBatch()` in Quadrant mode for one packet: non-TCP packets are
      dropped; a new flow is pinned to the selected core, a known one goes
      to the core it is pinned to. */
  function QRoute(q: QuadState, p: Packet, rewrite: int): (r: (QuadState, Verdict))
    requires QShaped(q) && 0 <= q.selected < MaxCoreCount
    ensures QShaped(r.0)
  {
    if !p.tcp then (q, Drop)
    else
      var id := QuadFlowId(p);
      if id in q.cache then (q, Send(p, q.cache[id], rewrite))
      else (q.(cache := q.cache[id := q.selected], ids := q.ids[q.selected := q.ids[q.selected] + {id}]),
            Send(p, q.selected, rewrite))
  }

  /** Routing keeps the cache consistent; a known flow keeps its core, a
      new flow is pinned to the selected core, and the packet is sent to
      the core its flow is pinned to. */
  lemma QRouteKeeps(q: QuadState, p: Packet, rewrite: int)
    requires Consistent(q)
    ensures var r := QRoute(q, p, rewrite);
      var id := QuadFlowId(p);
      Consistent(r.0) && (r.1.Drop? <==> !p.tcp) &&
      (p.tcp ==> id in r.0.cache && r.1.encode == r.0.cache[id] &&
                 r.1.encode == (if id in q.cache then q.cache[id] else q.selected) &&
                 r.0.cache.Keys == q.cache.Keys + {id}) &&
      (!p.tcp ==> r.0 == q) &&
      forall x :: x in q.cache ==> x in r.0.cache && r.0.cache[x] == q.cache[x]
  {
    if p.tcp && QuadFlowId(p) !in q.cache {
      var id := QuadFlowId(p);
      var r := QRoute(q, p, rewrite).0;
      forall c, x | 0 <= c < MaxCoreCount && x in r.ids[c]
        ensures x in r.cache && r.cache[x] == c
      {
        if x != id {
          assert x in q.ids[c];
        }
      }
    }
  }

  /** `ProcessBatch()` in Quadrant mode after the period step: the packets
      routed in order, each new flow pinned as it is first seen. */
  function QBatch(q: QuadState, pkts: seq<Packet>, rewrite: int): (r: (QuadState, seq<Verdict>))
    requires QShaped(q) && 0 <= q.selected < MaxCoreCount
    ensures QShaped(r.0) && r.0.selected == q.selected && |r.1| == |pkts|
    decreases |pkts|
  {
    if pkts == [] then (q, [])
    else
      var p := QBatch(q, pkts[..|pkts| - 1], rewrite);
      var s := QRoute(p.0, pkts[|pkts| - 1], rewrite);
      (s.0, p.1 + [s.1])
  }

  /** A batch keeps the cache consistent and never re-pins a known flow;
      non-TCP packets are dropped, and every TCP packet is sent to the core
      its flow is pinned to at the end of the batch, so all packets of a
      flow go to the same core. */
  lemma {:induction false} QBatchKeeps(q: QuadState, pkts: seq<Packet>, rewrite: int)
    requires Consistent(q)
    ensures Consistent(QBatch(q, pkts, rewrite).0)
    ensures forall x :: x in q.cache ==> x in QBatch(q, pkts, rewrite).0.cache && QBatch(q, pkts, rewrite).0.cache[x] == q.cache[x]
    ensures forall k :: 0 <= k < |pkts| ==>
      (QBatch(q, pkts, rewrite).1[k].Drop? <==> !pkts[k].tcp) &&
      (pkts[k].tcp ==> QuadFlowId(pkts[k]) in QBatch(q, pkts, rewrite).0.cache && QBatch(q, pkts, rewrite).1[k].Emit? &&
                       QBatch(q, pkts, rewrite).1[k].encode == QBatch(q, pkts, rewrite).0.cache[QuadFlowId(pkts[k])])
    decreases |pkts|
  {
    if pkts != [] {
      var init := pkts[..|pkts| - 1];
      QBatchKeeps(q, init, rewrite);
      var p := QBatch(q, init, rewrite);
      QRouteKeeps(p.0, pkts[|pkts| - 1], rewrite);
      assert forall k :: 0 <= k < |init| ==> init[k] == pkts[k];
    }
  }
}
