// The short-epoch step of an NFV worker core (`NFVCore::ShortEpochProcess`).
// When the controller has posted statistics for the core, the step closes
// the epoch: it ages the borrowed software queues, lists the epoch's flows
// that are not offloaded yet, keeps on the core as many of them as fit
// under the per-epoch packet threshold and offloads the rest first-fit to
// the software queues, wakes inactive queues that received work, sends
// queues idle for 100 epochs to rest, and resets the epoch counters.
module NfvCoreShort {
  import opened Util

  // ---------------------------------------------------------------------
  // `uint32_t` arithmetic.

  const Two32: int := 0x1_0000_0000

  predicate IsU32(x: int)
  {
    0 <= x < Two32
  }

  /** A value stored into a `uint32_t`: reduced modulo 2^32. */
  function U32(x: int): (r: int)
    ensures IsU32(r) && (IsU32(x) ==> r == x)
  {
    x % Two32
  }

  /** `uint32_t` addition, which wraps around. */
  function Add32(a: int, b: int): (r: int)
    requires IsU32(a) && IsU32(b)
    ensures IsU32(r)
  {
    if a + b < Two32 then a + b else a + b - Two32
  }

  // ---------------------------------------------------------------------
  // Data.

  /** `idle_epoch_count` of a queue the core does not use. */
  const Inactive: int := -1
  /** Idle epochs after which a queue is sent to rest. */
  const IdleLimit: int := 100

  /** The 5-tuple identifying a flow. */
  datatype Flow = Flow(srcIp: int, dstIp: int, srcPort: int, dstPort: int, proto: int)

  /** `FlowState`: the flow's packet counters, its queued packet count and
      the software queue it is offloaded to (`sw_q_state`, an index into
      the core's queue list; `None` for a flow served locally). */
  datatype FlowState = FlowState(ingress: int, egress: int, queued: int, swq: Option<nat>)

  /** A software queue borrowed from the controller: `sw_q_id`,
      `idle_epoch_count` (`Inactive` when not in use),
      `processed_packet_count` and `assigned_packet_count`. */
  datatype SwQueue = SwQueue(id: int, idle: int, processed: int, assignedPkts: int)

  /** `NFVCtrlNotifyRCoreToWork` / `NFVCtrlNotifyRCoreToRest` for a queue id. */
  datatype Notice = Work(swq: int) | Rest(swq: int)

  predicate QueuesOk(qs: seq<SwQueue>)
  {
    forall i :: 0 <= i < |qs| ==> IsU32(qs[i].assignedPkts)
  }

  /** Every flow of the epoch has a state. */
  predicate CacheOk(flows: map<Flow, FlowState>, cache: seq<Flow>)
  {
    forall k :: 0 <= k < |cache| ==> cache[k] in flows
  }

  /** Every offloaded flow names an existing queue. */
  predicate OffloadsOk(flows: map<Flow, FlowState>, n: nat)
  {
    forall f :: f in flows && flows[f].swq.Some? ==> flows[f].swq.value < n
  }

  /** Between epochs, a queue in use has been idle fewer than `IdleLimit`
      epochs. */
  predicate IdleBounded(qs: seq<SwQueue>)
  {
    forall i :: 0 <= i < |qs| ==> Inactive <= qs[i].idle < IdleLimit
  }

  // ---------------------------------------------------------------------
  // Step 1: the queue-length check.

  /** One queue at the close of an epoch; `backlog` is the number of
      packets in its ring (`llring_count`).  An inactive queue is skipped. */
  function Age(q: SwQueue, backlog: nat): SwQueue
  {
    if q.idle == Inactive then q
    else q.(idle := if q.processed == 0 then q.idle + 1 else q.idle, assignedPkts := U32(backlog))
  }

  function AgeAll(qs: seq<SwQueue>, backlog: seq<nat>): (r: seq<SwQueue>)
    requires |backlog| == |qs|
    ensures |r| == |qs|
  {
    seq(|qs|, i requires 0 <= i < |qs| => Age(qs[i], backlog[i]))
  }

  // ---------------------------------------------------------------------
  // Step 2: the queued counts and the flows still served locally.

  /** The loop over the epoch's flows sets each one's queued count to its
      ingress count minus its egress count. */
  function Refresh(flows: map<Flow, FlowState>, cache: seq<Flow>): (r: map<Flow, FlowState>)
    requires CacheOk(flows, cache)
    ensures r.Keys == flows.Keys
  {
    if cache == [] then flows
    else
      var f := cache[|cache| - 1];
      var r := Refresh(flows, cache[..|cache| - 1]);
      r[f := r[f].(queued := r[f].ingress - r[f].egress)]
  }

  /** The refresh touches only the queued counts of the epoch's flows. */
  lemma {:induction false} RefreshSpec(flows: map<Flow, FlowState>, cache: seq<Flow>)
    requires CacheOk(flows, cache)
    ensures var r := Refresh(flows, cache);
      forall f :: f in flows ==>
        r[f] == (if f in cache then flows[f].(queued := flows[f].ingress - flows[f].egress) else flows[f])
  {
    if cache != [] {
      var init := cache[..|cache| - 1];
      RefreshSpec(flows, init);
      assert forall f :: f in cache <==> f in init || f == cache[|cache| - 1];
    }
  }

  /** `unoffload_flows_` after the loop: the epoch's flows that are not
      offloaded, in the epoch cache's order. */
  function Unoffloaded(flows: map<Flow, FlowState>, cache: seq<Flow>): (r: seq<Flow>)
    requires CacheOk(flows, cache)
  {
    if cache == [] then []
    else
      var f := cache[|cache| - 1];
      Unoffloaded(flows, cache[..|cache| - 1]) + (if flows[f].swq.None? then [f] else [])
  }

  /** A flow is listed exactly when it was seen this epoch and is not
      offloaded; the list is no longer than the cache. */
  lemma {:induction false} UnoffloadedSpec(flows: map<Flow, FlowState>, cache: seq<Flow>)
    requires CacheOk(flows, cache)
    ensures |Unoffloaded(flows, cache)| <= |cache|
    ensures forall f :: f in Unoffloaded(flows, cache) <==> f in cache && flows[f].swq.None?
  {
    if cache != [] {
      var init := cache[..|cache| - 1];
      UnoffloadedSpec(flows, init);
      assert forall f :: f in cache <==> f in init || f == cache[|cache| - 1];
    }
  }

  // ---------------------------------------------------------------------
  // Step 3: greedy first-fit assignment.

  /** The queue's length after assignment plus the task stays below the
      threshold.  `QLenAfterAssignment` is not part of this model; `qlen`
      stands for it. */
  predicate Fits(qlen: SwQueue -> int, q: SwQueue, size: int, thresh: int)
    requires IsU32(size)
  {
    Add32(U32(qlen(q)), size) < thresh
  }

  /** The first of queues 0 .. k-1 that fits the task. */
  function FirstFit(qlen: SwQueue -> int, qs: seq<SwQueue>, size: int, thresh: int, k: nat): (r: Option<nat>)
    requires IsU32(size) && k <= |qs|
    ensures r.Some? ==> r.value < k
  {
    if k == 0 then None
    else
      var r := FirstFit(qlen, qs, size, thresh, k - 1);
      if r.Some? then r
      else if Fits(qlen, qs[k - 1], size, thresh) then Some(k - 1)
      else None
  }

  lemma {:induction false} FirstFitSpec(qlen: SwQueue -> int, qs: seq<SwQueue>, size: int, thresh: int, k: nat)
    requires IsU32(size) && k <= |qs|
    ensures var r := FirstFit(qlen, qs, size, thresh, k);
      (r.None? <==> forall j :: 0 <= j < k ==> !Fits(qlen, qs[j], size, thresh)) &&
      (r.Some? ==> Fits(qlen, qs[r.value], size, thresh) &&
                   forall j :: 0 <= j < r.value ==> !Fits(qlen, qs[j], size, thresh))
  {
    if k > 0 {
      FirstFitSpec(qlen, qs, size, thresh, k - 1);
    }
  }

  /** The assignment loop's state: the queues, the flow states and
      `local_assigned`. */
  datatype Fit = Fit(queues: seq<SwQueue>, flows: map<Flow, FlowState>, local: int)

  /** `task_size`: the queued count stored into a `uint32_t`. */
  function TaskSize(s: FlowState): int
  {
    U32(s.queued)
  }

  /** One turn of the assignment loop for flow f. */
  function AssignOne(thresh: int, qlen: SwQueue -> int, a: Fit, f: Flow): (r: Fit)
    requires f in a.flows && IsU32(a.local) && QueuesOk(a.queues)
    ensures IsU32(r.local) && QueuesOk(r.queues) && r.flows.Keys == a.flows.Keys && |r.queues| == |a.queues|
  {
    var size := TaskSize(a.flows[f]);
    if size > thresh then a
    else if Add32(a.local, size) < thresh then a.(local := Add32(a.local, size))
    else
      var q := FirstFit(qlen, a.queues, size, thresh, |a.queues|);
      if q.None? then a
      else
        var i := q.value;
        a.(queues := a.queues[i := a.queues[i].(assignedPkts := Add32(a.queues[i].assignedPkts, size))],
           flows := a.flows[f := a.flows[f].(swq := Some(i))])
  }

  /** What one turn does: a task no larger than the threshold stays local
      exactly when it fits beside what is already local; otherwise, if some
      queue fits it, it goes to the first such queue, whose assigned count
      grows by the task; a task that fits no queue, or exceeds the
      threshold, changes nothing. */
  lemma AssignOneSpec(thresh: int, qlen: SwQueue -> int, a: Fit, f: Flow)
    requires f in a.flows && IsU32(a.local) && QueuesOk(a.queues)
    ensures var size := TaskSize(a.flows[f]);
      var r := AssignOne(thresh, qlen, a, f);
      var local := size <= thresh && Add32(a.local, size) < thresh;
      var fitsSome := exists j :: 0 <= j < |a.queues| && Fits(qlen, a.queues[j], size, thresh);
      (local ==> r == a.(local := Add32(a.local, size))) &&
      (!local && size <= thresh && fitsSome ==>
        r.flows[f].swq.Some? &&
        var i := r.flows[f].swq.value;
        i < |a.queues| && Fits(qlen, a.queues[i], size, thresh) &&
        (forall j :: 0 <= j < i ==> !Fits(qlen, a.queues[j], size, thresh)) &&
        r == a.(queues := a.queues[i := a.queues[i].(assignedPkts := Add32(a.queues[i].assignedPkts, size))],
                flows := a.flows[f := a.flows[f].(swq := Some(i))])) &&
      (!local && !(size <= thresh && fitsSome) ==> r == a)
  {
    var size := TaskSize(a.flows[f]);
    FirstFitSpec(qlen, a.queues, size, thresh, |a.queues|);
  }

  /** The assignment loop over the pending flows, in order. */
  function AssignAll(thresh: int, qlen: SwQueue -> int, a: Fit, pending: seq<Flow>): (r: Fit)
    requires IsU32(a.local) && QueuesOk(a.queues)
    requires forall k :: 0 <= k < |pending| ==> pending[k] in a.flows
    ensures IsU32(r.local) && QueuesOk(r.queues) && r.flows.Keys == a.flows.Keys && |r.queues| == |a.queues|
  {
    if pending == [] then a
    else
      var b := AssignAll(thresh, qlen, a, pending[..|pending| - 1]);
      AssignOne(thresh, qlen, b, pending[|pending| - 1])
  }

  /** One turn changes at most flow f's queue, to an existing queue, and
      at most the assigned counts of the queues. */
  lemma AssignOneShape(thresh: int, qlen: SwQueue -> int, a: Fit, f: Flow)
    requires f in a.flows && IsU32(a.local) && QueuesOk(a.queues)
    ensures var r := AssignOne(thresh, qlen, a, f);
      r.flows == a.flows[f := a.flows[f].(swq := r.flows[f].swq)] &&
      (r.flows[f].swq != a.flows[f].swq ==> r.flows[f].swq.Some? && r.flows[f].swq.value < |a.queues|) &&
      (forall i :: 0 <= i < |a.queues| ==> r.queues[i] == a.queues[i].(assignedPkts := r.queues[i].assignedPkts))
  {
  }

  /** The assignment only offloads pending flows that were served locally,
      to existing queues; other flows keep their state. */
  lemma {:induction false} AssignAllFlows(thresh: int, qlen: SwQueue -> int, a: Fit, pending: seq<Flow>)
    requires IsU32(a.local) && QueuesOk(a.queues)
    requires forall k :: 0 <= k < |pending| ==> pending[k] in a.flows
    ensures var r := AssignAll(thresh, qlen, a, pending);
      (forall f :: f in a.flows && f !in pending ==> r.flows[f] == a.flows[f]) &&
      (forall f :: f in a.flows && r.flows[f] != a.flows[f] ==>
         r.flows[f] == a.flows[f].(swq := r.flows[f].swq) &&
         r.flows[f].swq.Some? && r.flows[f].swq.value < |a.queues|)
  {
    if pending != [] {
      var init := pending[..|pending| - 1];
      var f := pending[|pending| - 1];
      AssignAllFlows(thresh, qlen, a, init);
      var b := AssignAll(thresh, qlen, a, init);
      AssignOneShape(thresh, qlen, b, f);
      assert forall g :: g in pending <==> g in init || g == f;
    }
  }

  /** The assignment changes no queue's id, idle count or processed
      count. */
  lemma {:induction false} AssignAllQueues(thresh: int, qlen: SwQueue -> int, a: Fit, pending: seq<Flow>)
    requires IsU32(a.local) && QueuesOk(a.queues)
    requires forall k :: 0 <= k < |pending| ==> pending[k] in a.flows
    ensures var r := AssignAll(thresh, qlen, a, pending);
      forall i :: 0 <= i < |a.queues| ==> r.queues[i] == a.queues[i].(assignedPkts := r.queues[i].assignedPkts)
  {
    if pending != [] {
      var init := pending[..|pending| - 1];
      AssignAllQueues(thresh, qlen, a, init);
      AssignOneShape(thresh, qlen, AssignAll(thresh, qlen, a, init), pending[|pending| - 1]);
    }
  }

  // ---------------------------------------------------------------------
  // Step 4: notices to the reserved cores.

  /** One queue: an inactive queue with assignedPkts work is woken; a queue in
      use that has been idle for `IdleLimit` epochs is sent to rest; every
      processed count is cleared.  The notifications' return codes are
      only logged. */
  function NotifyOne(q: SwQueue): (SwQueue, seq<Notice>)
  {
    if q.idle == Inactive then
      if q.assignedPkts > 0 then (q.(idle := 0, processed := 0), [Work(q.id)])
      else (q.(processed := 0), [])
    else if q.idle == IdleLimit then (q.(idle := Inactive, processed := 0), [Rest(q.id)])
    else (q.(processed := 0), [])
  }

  /** The notice loop over all queues: each queue becomes what `NotifyOne`
      makes of it, in place. */
  function NotifyAll(qs: seq<SwQueue>): (r: (seq<SwQueue>, seq<Notice>))
    ensures |r.0| == |qs|
    ensures forall i :: 0 <= i < |qs| ==> r.0[i] == NotifyOne(qs[i]).0
  {
    if qs == [] then ([], [])
    else
      var r := NotifyAll(qs[..|qs| - 1]);
      var n := NotifyOne(qs[|qs| - 1]);
      (r.0 + [n.0], r.1 + n.1)
  }

  /** Some queue met the condition of notice n. */
  predicate Justified(qs: seq<SwQueue>, n: Notice)
  {
    exists i :: 0 <= i < |qs| &&
      ((n == Work(qs[i].id) && qs[i].idle == Inactive && qs[i].assignedPkts > 0) ||
       (n == Rest(qs[i].id) && qs[i].idle == IdleLimit))
  }

  /** The notice for queue i, if it gets one, is sent. */
  lemma {:induction false} NotifyAllSends(qs: seq<SwQueue>, i: int)
    requires 0 <= i < |qs|
    ensures forall n :: n in NotifyOne(qs[i]).1 ==> n in NotifyAll(qs).1
  {
    var init := qs[..|qs| - 1];
    if i < |qs| - 1 {
      NotifyAllSends(init, i);
      assert init[i] == qs[i];
    }
  }

  /** Every notice sent names a queue that met its condition. */
  lemma {:induction false} NotifyAllJustified(qs: seq<SwQueue>)
    ensures forall k :: 0 <= k < |NotifyAll(qs).1| ==> Justified(qs, NotifyAll(qs).1[k])
  {
    if qs != [] {
      var init := qs[..|qs| - 1];
      NotifyAllJustified(init);
      var r := NotifyAll(init);
      var n := NotifyOne(qs[|qs| - 1]);
      forall k | 0 <= k < |r.1 + n.1| ensures Justified(qs, (r.1 + n.1)[k]) {
        if k < |r.1| {
          assert (r.1 + n.1)[k] == r.1[k];
          var j :| 0 <= j < |init| &&
            ((r.1[k] == Work(init[j].id) && init[j].idle == Inactive && init[j].assignedPkts > 0) ||
             (r.1[k] == Rest(init[j].id) && init[j].idle == IdleLimit));
          assert init[j] == qs[j];
        } else {
          assert (r.1 + n.1)[k] == n.1[k - |r.1|];
          var j := |qs| - 1;
          assert 0 <= j < |qs| &&
            (((r.1 + n.1)[k] == Work(qs[j].id) && qs[j].idle == Inactive && qs[j].assignedPkts > 0) ||
             ((r.1 + n.1)[k] == Rest(qs[j].id) && qs[j].idle == IdleLimit));
        }
      }
    }
  }

  // ---------------------------------------------------------------------
  // The whole step.

  /** Every pending flow has a refreshed state. */
  lemma PendingHaveStates(flows: map<Flow, FlowState>, cache: seq<Flow>)
    requires CacheOk(flows, cache)
    ensures forall k :: 0 <= k < |Unoffloaded(flows, cache)| ==> Unoffloaded(flows, cache)[k] in Refresh(flows, cache)
  {
    UnoffloadedSpec(flows, cache);
    var p := Unoffloaded(flows, cache);
    forall k | 0 <= k < |p| ensures p[k] in Refresh(flows, cache) {
      assert p[k] in p;
      var j :| 0 <= j < |cache| && cache[j] == p[k];
    }
  }

  /** The queues and flow states after the first three steps. */
  function Assigned(thresh: int, qlen: SwQueue -> int, qs: seq<SwQueue>, backlog: seq<nat>,
                    flows: map<Flow, FlowState>, cache: seq<Flow>): (r: Fit)
    requires |backlog| == |qs| && QueuesOk(qs) && CacheOk(flows, cache)
    ensures QueuesOk(r.queues) && |r.queues| == |qs| && r.flows.Keys == flows.Keys
  {
    PendingHaveStates(flows, cache);
    AssignAll(thresh, qlen, Fit(AgeAll(qs, backlog), Refresh(flows, cache), 0), Unoffloaded(flows, cache))
  }

  /** After the first three steps each queue is its aged self, with only its
      assigned count possibly grown by the assignment. */
  lemma AssignedQueues(thresh: int, qlen: SwQueue -> int, qs: seq<SwQueue>, backlog: seq<nat>,
                       flows: map<Flow, FlowState>, cache: seq<Flow>)
    requires |backlog| == |qs| && QueuesOk(qs) && CacheOk(flows, cache)
    ensures var r := Assigned(thresh, qlen, qs, backlog, flows, cache);
      forall i :: 0 <= i < |qs| ==> r.queues[i] == Age(qs[i], backlog[i]).(assignedPkts := r.queues[i].assignedPkts)
  {
    PendingHaveStates(flows, cache);
    AssignAllQueues(thresh, qlen, Fit(AgeAll(qs, backlog), Refresh(flows, cache), 0), Unoffloaded(flows, cache));
  }

  datatype EpochResult = EpochResult(queues: seq<SwQueue>, flows: map<Flow, FlowState>, notices: seq<Notice>)

  /** The queues, the flow states and the notices after an epoch closes. */
  function Epoch(thresh: int, qlen: SwQueue -> int, qs: seq<SwQueue>, backlog: seq<nat>,
                 flows: map<Flow, FlowState>, cache: seq<Flow>): (r: EpochResult)
    requires |backlog| == |qs| && QueuesOk(qs) && CacheOk(flows, cache)
    ensures QueuesOk(r.queues) && |r.queues| == |qs| && r.flows.Keys == flows.Keys
  {
    var fit := Assigned(thresh, qlen, qs, backlog, flows, cache);
    var n := NotifyAll(fit.queues);
    EpochResult(n.0, fit.flows, n.1)
  }

  /** No queue in use stays idle for `IdleLimit` epochs: an epoch keeps
      every idle count in [-1, 100). */
  lemma EpochKeepsIdleBounded(thresh: int, qlen: SwQueue -> int, qs: seq<SwQueue>, backlog: seq<nat>,
                              flows: map<Flow, FlowState>, cache: seq<Flow>)
    requires |backlog| == |qs| && QueuesOk(qs) && CacheOk(flows, cache) && IdleBounded(qs)
    ensures IdleBounded(Epoch(thresh, qlen, qs, backlog, flows, cache).queues)
  {
    AssignedQueues(thresh, qlen, qs, backlog, flows, cache);
  }

  /** An epoch keeps every offloaded flow naming an existing queue, and
      changes a flow's state only by refreshing its queued count or
      offloading it. */
  lemma EpochKeepsOffloads(thresh: int, qlen: SwQueue -> int, qs: seq<SwQueue>, backlog: seq<nat>,
                           flows: map<Flow, FlowState>, cache: seq<Flow>)
    requires |backlog| == |qs| && QueuesOk(qs) && CacheOk(flows, cache)
    ensures var r := Epoch(thresh, qlen, qs, backlog, flows, cache);
      (OffloadsOk(flows, |qs|) ==> OffloadsOk(r.flows, |qs|)) &&
      (forall f :: f in flows && f !in cache ==> r.flows[f] == flows[f]) &&
      (forall f :: f in flows && flows[f].swq.Some? ==> r.flows[f].swq == flows[f].swq) &&
      (forall f :: f in flows ==> r.flows[f] == flows[f].(queued := r.flows[f].queued, swq := r.flows[f].swq))
  {
    PendingHaveStates(flows, cache);
    RefreshSpec(flows, cache);
    UnoffloadedSpec(flows, cache);
    AssignAllFlows(thresh, qlen, Fit(AgeAll(qs, backlog), Refresh(flows, cache), 0), Unoffloaded(flows, cache));
  }

  /** In the epoch's result, a queue in use whose ring held nothing
      processed has aged by one epoch unless it reached `IdleLimit`,
      in which case it was sent to rest. */
  lemma EpochAgesIdleQueues(thresh: int, qlen: SwQueue -> int, qs: seq<SwQueue>, backlog: seq<nat>,
                            flows: map<Flow, FlowState>, cache: seq<Flow>, i: int)
    requires |backlog| == |qs| && QueuesOk(qs) && CacheOk(flows, cache) && 0 <= i < |qs|
    requires Inactive < qs[i].idle && qs[i].processed == 0
    ensures var r := Epoch(thresh, qlen, qs, backlog, flows, cache);
      r.queues[i].idle == (if qs[i].idle + 1 == IdleLimit then Inactive else qs[i].idle + 1) &&
      r.queues[i].processed == 0 &&
      (qs[i].idle + 1 == IdleLimit ==> Rest(qs[i].id) in r.notices)
  {
    AssignedQueues(thresh, qlen, qs, backlog, flows, cache);
    NotifyAllSends(Assigned(thresh, qlen, qs, backlog, flows, cache).queues, i);
  }

  /** A queue in use that processed packets keeps its idle count, is not
      sent to rest and has its processed count cleared. */
  lemma EpochKeepsBusyQueues(thresh: int, qlen: SwQueue -> int, qs: seq<SwQueue>, backlog: seq<nat>,
                             flows: map<Flow, FlowState>, cache: seq<Flow>, i: int)
    requires |backlog| == |qs| && QueuesOk(qs) && CacheOk(flows, cache) && 0 <= i < |qs|
    requires qs[i].idle != Inactive && qs[i].idle != IdleLimit && qs[i].processed != 0
    ensures var r := Epoch(thresh, qlen, qs, backlog, flows, cache);
      r.queues[i] == qs[i].(processed := 0, assignedPkts := r.queues[i].assignedPkts)
  {
    AssignedQueues(thresh, qlen, qs, backlog, flows, cache);
  }

  /** An inactive queue is woken, with a work notice, exactly when the
      assignment gave it packets. */
  lemma EpochWakesQueues(thresh: int, qlen: SwQueue -> int, qs: seq<SwQueue>, backlog: seq<nat>,
                         flows: map<Flow, FlowState>, cache: seq<Flow>, i: int)
    requires |backlog| == |qs| && QueuesOk(qs) && CacheOk(flows, cache) && 0 <= i < |qs|
    requires qs[i].idle == Inactive
    ensures var a := Assigned(thresh, qlen, qs, backlog, flows, cache);
      var r := Epoch(thresh, qlen, qs, backlog, flows, cache);
      r.queues[i].idle == (if a.queues[i].assignedPkts > 0 then 0 else Inactive) &&
      (a.queues[i].assignedPkts > 0 ==> Work(qs[i].id) in r.notices)
  {
    AssignedQueues(thresh, qlen, qs, backlog, flows, cache);
    NotifyAllSends(Assigned(thresh, qlen, qs, backlog, flows, cache).queues, i);
  }

  /** Every notice of an epoch names a queue that, after the assignment,
      met its condition. */
  lemma EpochNoticesJustified(thresh: int, qlen: SwQueue -> int, qs: seq<SwQueue>, backlog: seq<nat>,
                              flows: map<Flow, FlowState>, cache: seq<Flow>)
    requires |backlog| == |qs| && QueuesOk(qs) && CacheOk(flows, cache)
    ensures var r := Epoch(thresh, qlen, qs, backlog, flows, cache);
      forall k :: 0 <= k < |r.notices| ==> Justified(Assigned(thresh, qlen, qs, backlog, flows, cache).queues, r.notices[k])
  {
    NotifyAllJustified(Assigned(thresh, qlen, qs, backlog, flows, cache).queues);
  }

  // ---------------------------------------------------------------------
  // The loops of `ShortEpochProcess`.

  /** The queue-length check over all queues. */
  method AgeQueues(qs: seq<SwQueue>, backlog: seq<nat>) returns (r: seq<SwQueue>)
    requires |backlog| == |qs|
    ensures r == AgeAll(qs, backlog)
  {
    r := qs;
    var i := 0;
    while i < |r|
      invariant 0 <= i <= |r| == |qs|
      invariant forall j :: 0 <= j < i ==> r[j] == Age(qs[j], backlog[j])
      invariant forall j :: i <= j < |r| ==> r[j] == qs[j]
    {
      if r[i].idle != Inactive {
        if r[i].processed == 0 {
          r := r[i := r[i].(idle := r[i].idle + 1)];
        }
        r := r[i := r[i].(assignedPkts := U32(backlog[i]))];
      }
      i := i + 1;
    }
  }

  /** The loop over `epoch_flow_cache_`: queued counts are refreshed and
      the flows still served locally are collected. */
  method CollectUnoffloaded(flows: map<Flow, FlowState>, cache: seq<Flow>)
    returns (flows': map<Flow, FlowState>, pending: seq<Flow>)
    requires CacheOk(flows, cache)
    ensures flows' == Refresh(flows, cache) && pending == Unoffloaded(flows, cache)
  {
    flows', pending := flows, [];
    var k := 0;
    while k < |cache|
      invariant 0 <= k <= |cache|
      invariant CacheOk(flows, cache[..k])
      invariant flows' == Refresh(flows, cache[..k])
      invariant pending == Unoffloaded(flows, cache[..k])
    {
      assert cache[..k + 1][..k] == cache[..k];
      RefreshSpec(flows, cache[..k]);
      var f := cache[k];
      flows' := flows'[f := flows'[f].(queued := flows'[f].ingress - flows'[f].egress)];
      if flows'[f].swq.None? {
        pending := pending + [f];
      }
      k := k + 1;
    }
    assert cache[..k] == cache;
  }

  /** The inner loop over the queues for a task of the given size. */
  method FindQueue(qlen: SwQueue -> int, qs: seq<SwQueue>, size: int, thresh: int) returns (q: Option<nat>)
    requires IsU32(size)
    ensures q == FirstFit(qlen, qs, size, thresh, |qs|)
  {
    FirstFitSpec(qlen, qs, size, thresh, |qs|);
    var j := 0;
    while j < |qs|
      invariant 0 <= j <= |qs|
      invariant forall i :: 0 <= i < j ==> !Fits(qlen, qs[i], size, thresh)
    {
      if Add32(U32(qlen(qs[j])), size) < thresh {
        return Some(j);
      }
      j := j + 1;
    }
    return None;
  }

  /** The first-fit loop over the pending flows. */
  method AssignFlows(thresh: int, qlen: SwQueue -> int, qs: seq<SwQueue>, flows: map<Flow, FlowState>,
                     pending: seq<Flow>)
    returns (qs': seq<SwQueue>, flows': map<Flow, FlowState>)
    requires QueuesOk(qs) && forall k :: 0 <= k < |pending| ==> pending[k] in flows
    ensures var r := AssignAll(thresh, qlen, Fit(qs, flows, 0), pending);
      qs' == r.queues && flows' == r.flows
  {
    var local := 0;
    qs', flows' := qs, flows;
    var k := 0;
    while k < |pending|
      invariant 0 <= k <= |pending|
      invariant Fit(qs', flows', local) == AssignAll(thresh, qlen, Fit(qs, flows, 0), pending[..k])
    {
      assert pending[..k + 1][..k] == pending[..k];
      var f := pending[k];
      var size := U32(flows'[f].queued);
      if size <= thresh {
        if Add32(local, size) < thresh {
          local := Add32(local, size);
        } else {
          var q := FindQueue(qlen, qs', size, thresh);
          if q.Some? {
            var i := q.value;
            flows' := flows'[f := flows'[f].(swq := Some(i))];
            qs' := qs'[i := qs'[i].(assignedPkts := Add32(qs'[i].assignedPkts, size))];
          }
        }
      }
      k := k + 1;
    }
    assert pending[..k] == pending;
  }

  /** The notice loop over all queues. */
  method NotifyQueues(qs: seq<SwQueue>) returns (qs': seq<SwQueue>, notices: seq<Notice>)
    ensures (qs', notices) == NotifyAll(qs)
  {
    qs', notices := [], [];
    var i := 0;
    while i < |qs|
      invariant 0 <= i <= |qs|
      invariant (qs', notices) == NotifyAll(qs[..i])
    {
      assert qs[..i + 1][..i] == qs[..i];
      var q := qs[i];
      var sent: seq<Notice> := [];
      if q.idle == Inactive {
        if q.assignedPkts > 0 {
          sent := [Work(q.id)];
          q := q.(idle := 0);
        }
      } else if q.idle == IdleLimit {
        sent := [Rest(q.id)];
        q := q.(idle := Inactive);
      }
      q := q.(processed := 0);
      assert (q, sent) == NotifyOne(qs[i]);
      qs', notices := qs' + [q], notices + sent;
      assert NotifyAll(qs[..i + 1]) == (NotifyAll(qs[..i]).0 + [NotifyOne(qs[i]).0], NotifyAll(qs[..i]).1 + NotifyOne(qs[i]).1);
      i := i + 1;
    }
    assert qs[..i] == qs;
  }

  // ---------------------------------------------------------------------
  // The worker core's epoch state.

  class NfvCore {
    /** `epoch_packet_thresh_`. */
    const thresh: int
    /** `sw_q_`. */
    var swQueues: seq<SwQueue>
    /** `per_flow_states_`. */
    var flowStates: map<Flow, FlowState>
    /** The keys of `epoch_flow_cache_`, in its iteration order. */
    var epochFlows: seq<Flow>
    /** `epoch_packet_arrival_`, `epoch_packet_processed_`. */
    var epochArrival: int
    var epochProcessed: int
    /** The number of statistics records waiting in the core's channel. */
    var statsPending: nat

    predicate Valid()
      reads this
    {
      IsU32(thresh) && QueuesOk(swQueues) && CacheOk(flowStates, epochFlows)
    }

    constructor(thresh: int, swQueues: seq<SwQueue>)
      requires IsU32(thresh) && QueuesOk(swQueues)
      ensures Valid()
      ensures this.thresh == thresh && this.swQueues == swQueues && flowStates == map[] && epochFlows == []
      ensures epochArrival == 0 && epochProcessed == 0 && statsPending == 0
    {
      this.thresh := thresh;
      this.swQueues := swQueues;
      flowStates, epochFlows := map[], [];
      epochArrival, epochProcessed, statsPending := 0, 0, 0;
    }

    /** `ShortEpochProcess`: nothing happens unless statistics are waiting;
        otherwise the epoch closes.  `backlog[i]` is the number of packets
        in queue i's ring. */
    method ShortEpochProcess(qlen: SwQueue -> int, backlog: seq<nat>) returns (isNewEpoch: bool, notices: seq<Notice>)
      requires Valid() && |backlog| == |swQueues|
      modifies this
      ensures Valid()
      ensures isNewEpoch == (old(statsPending) > 0)
      ensures !isNewEpoch ==>
        swQueues == old(swQueues) && flowStates == old(flowStates) && epochFlows == old(epochFlows) &&
        epochArrival == old(epochArrival) && epochProcessed == old(epochProcessed) &&
        statsPending == old(statsPending) && notices == []
      ensures isNewEpoch ==>
        var r := Epoch(thresh, qlen, old(swQueues), backlog, old(flowStates), old(epochFlows));
        swQueues == r.queues && flowStates == r.flows && notices == r.notices &&
        epochFlows == [] && epochArrival == 0 && epochProcessed == 0 && statsPending == 0
    {
      isNewEpoch := statsPending > 0;
      notices := [];
      if !isNewEpoch {
        return;
      }
      ghost var r := Epoch(thresh, qlen, swQueues, backlog, flowStates, epochFlows);
      var aged := AgeQueues(swQueues, backlog);
      var refreshed, pending := CollectUnoffloaded(flowStates, epochFlows);
      PendingHaveStates(flowStates, epochFlows);
      var qs, flows := AssignFlows(thresh, qlen, aged, refreshed, pending);
      swQueues, notices := NotifyQueues(qs);
      flowStates := flows;
      while statsPending > 0
        invariant swQueues == r.queues && flowStates == r.flows && notices == r.notices
      {
        statsPending := statsPending - 1;
      }
      epochFlows := [];
      epochArrival, epochProcessed := 0, 0;
    }
  }
}
