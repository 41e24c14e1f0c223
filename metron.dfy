// The Metron load balancer of the ToR ingress (`MetronIngress` in mode 0).
// The 256 flow ids (the low byte of the destination address) are grouped
// into aggregates, each served by one CPU core of the cluster; a core's
// encoded id names its worker and its core on that worker.  Every period
// the ingress marks the cores whose packet rate exceeds the threshold and,
// once the new switch rule would be in force, splits each overloaded
// core's aggregate in two, handing the upper half to the lowest free core.
module Metron {
  import opened Util

  // ---------------------------------------------------------------------
  // Constants of the cluster and of the balancing period.

  const MaxWorkerCount: int := 3
  const MaxPerWorkerCoreCount: int := 12
  const MaxCoreCount: int := 36
  /** Flow ids are one byte. */
  const FlowIdCount: int := 256
  /** What `GetFreeCore()` returns when every core is in use. */
  const NoFreeCore: int := 255
  const MetronPeriodMs: int := 2000
  const HardwareRuleDelayMs: int := 200
  const NsPerMs: int := 1000000

  // ---------------------------------------------------------------------
  // Encoded core ids.

  /** The worker an encoded core id is sent to. */
  function DstWorker(encode: int): int
  {
    (encode / MaxPerWorkerCoreCount) % MaxWorkerCount
  }

  /** The core on its worker an encoded core id names. */
  function DstCore(encode: int): int
  {
    encode % MaxPerWorkerCoreCount
  }

  /** Encoding core c of worker w and decoding it gives back w and c. */
  lemma DecodeEncode(w: int, c: int)
    requires 0 <= w < MaxWorkerCount && 0 <= c < MaxPerWorkerCoreCount
    ensures DstWorker(w * MaxPerWorkerCoreCount + c) == w
    ensures DstCore(w * MaxPerWorkerCoreCount + c) == c
  {
  }

  /** Every core id of the cluster decodes to a worker and a core on it
      from which it is encoded back. */
  lemma EncodeDecode(encode: int)
    requires 0 <= encode < MaxCoreCount
    ensures 0 <= DstWorker(encode) < MaxWorkerCount && 0 <= DstCore(encode) < MaxPerWorkerCoreCount
    ensures DstWorker(encode) * MaxPerWorkerCoreCount + DstCore(encode) == encode
  {
  }

  // ---------------------------------------------------------------------
  // Free cores.

  function IsFree(used: bool): bool
  {
    !used
  }

  /** `GetFreeCore()`: the lowest core not in use, or `NoFreeCore`. */
  function FreeCore(inUse: seq<bool>): (r: int)
    requires |inUse| == MaxCoreCount
    ensures r == NoFreeCore <==> forall j :: 0 <= j < |inUse| ==> inUse[j]
    ensures r != NoFreeCore ==> 0 <= r < |inUse| && !inUse[r] && forall j :: 0 <= j < r ==> inUse[j]
  {
    var i := FirstWhere(inUse, IsFree);
    if i < |inUse| then i else NoFreeCore
  }

  // ---------------------------------------------------------------------
  // Flow aggregates.

  /** `FlowAggregate`: the flow ids [start, start + length) served by core. */
  datatype Aggregate = Aggregate(start: int, length: int, core: int)

  predicate Holds(a: Aggregate, id: int)
  {
    a.start <= id < a.start + a.length
  }

  predicate Apart(a: Aggregate, b: Aggregate)
  {
    a.start + a.length <= b.start || b.start + b.length <= a.start
  }

  predicate Pow2(n: int)
    decreases n
  {
    n == 1 || (n >= 2 && n % 2 == 0 && Pow2(n / 2))
  }

  /** Some aggregate holds the flow id. */
  ghost predicate InSome(aggs: seq<Aggregate>, id: int)
  {
    exists k :: 0 <= k < |aggs| && Holds(aggs[k], id)
  }

  /** The balancing state: `flow_aggregates_`, `flow_id_to_core_`,
      `in_use_cores_` and `is_overloaded_cores_`. */
  datatype Balance = Balance(aggs: seq<Aggregate>, table: seq<int>, inUse: seq<bool>, overloaded: seq<bool>)

  predicate Shaped(b: Balance)
  {
    |b.table| == FlowIdCount && |b.inUse| == MaxCoreCount && |b.overloaded| == MaxCoreCount
  }

  /** Each aggregate is a power-of-two range of flow ids served by a core
      in use, every flow id is in an aggregate, aggregates do not overlap,
      no core serves two of them, and the table sends each flow id to the
      core of its aggregate. */
  ghost predicate Covers(b: Balance)
  {
    Shaped(b) &&
    (forall k :: 0 <= k < |b.aggs| ==>
      Pow2(b.aggs[k].length) && 0 <= b.aggs[k].start && b.aggs[k].start + b.aggs[k].length <= FlowIdCount &&
      0 <= b.aggs[k].core < MaxCoreCount && b.inUse[b.aggs[k].core]) &&
    (forall k, id :: 0 <= k < |b.aggs| && Holds(b.aggs[k], id) ==> b.table[id] == b.aggs[k].core) &&
    (forall id :: 0 <= id < FlowIdCount ==> InSome(b.aggs, id)) &&
    (forall k, l :: 0 <= k < l < |b.aggs| ==> Apart(b.aggs[k], b.aggs[l]) && b.aggs[k].core != b.aggs[l].core)
  }

  /** `Init()`: one aggregate of all flow ids on core 0, the only core in
      use. */
  function Initial(): (b: Balance)
  {
    Balance([Aggregate(0, FlowIdCount, 0)], seq(FlowIdCount, _ => 0),
            seq(MaxCoreCount, j => j == 0), seq(MaxCoreCount, _ => false))
  }

  lemma Pow2Of256()
    ensures Pow2(FlowIdCount)
  {
    assert Pow2(1) && Pow2(2) && Pow2(4) && Pow2(8) && Pow2(16) && Pow2(32) && Pow2(64) && Pow2(128);
  }

  lemma InitialCovers()
    ensures Covers(Initial())
  {
    Pow2Of256();
    var b := Initial();
    forall id | 0 <= id < FlowIdCount
      ensures InSome(b.aggs, id)
    {
      assert Holds(b.aggs[0], id);
    }
  }

  /** Under the invariant every flow id is routed to a core in use. */
  lemma CoversRoutesToUsedCores(b: Balance, id: int)
    requires Covers(b) && 0 <= id < FlowIdCount
    ensures 0 <= b.table[id] < MaxCoreCount && b.inUse[b.table[id]]
  {
    assert InSome(b.aggs, id);
    var k :| 0 <= k < |b.aggs| && Holds(b.aggs[k], id);
  }

  // ---------------------------------------------------------------------
  // Splitting an overloaded core's aggregate.

  function ServedBy(i: int): Aggregate -> bool
  {
    (a: Aggregate) => a.core == i
  }

  function Erase(s: seq<Aggregate>, k: int): (r: seq<Aggregate>)
    requires 0 <= k < |s|
    ensures |r| == |s| - 1
    ensures forall j :: 0 <= j < k ==> r[j] == s[j]
    ensures forall j :: k <= j < |r| ==> r[j] == s[j + 1]
  {
    s[..k] + s[k + 1..]
  }

  /** The remapping loop: flow ids [lo, hi) below 256 go to core c. */
  function Assign(t: seq<int>, lo: int, hi: int, c: int): (r: seq<int>)
  {
    seq(|t|, j requires 0 <= j < |t| => if lo <= j < hi then c else t[j])
  }

  /** One iteration of the splitting loop for core i as the source has it:
      the aggregate found is erased before the split, so an aggregate of
      length 1 is dropped; and the free core is used unchecked, so with
      every core in use the new half goes to core 255 and the write to
      `in_use_cores_[255]` falls outside the array (the flag reports it). */
  function SplitCoreAsWritten(b: Balance, i: int): (r: (Balance, bool))
    requires Shaped(b) && 0 <= i < MaxCoreCount
  {
    if !b.inUse[i] || !b.overloaded[i] then (b, false)
    else
      var b1 := b.(overloaded := b.overloaded[i := false]);
      var k := FirstWhere(b.aggs, ServedBy(i));
      if k == |b.aggs| then (b1, false)
      else
        var a := b.aggs[k];
        var h := a.length / 2;
        if h == 0 then (b1.(aggs := Erase(b.aggs, k)), false)
        else
          var c := FreeCore(b.inUse);
          (Balance(Erase(b.aggs, k) + [Aggregate(a.start, h, i), Aggregate(a.start + h, h, c)],
                   Assign(b.table, a.start + h, a.start + 2 * h, c),
                   if c < MaxCoreCount then b.inUse[c := true] else b.inUse,
                   b1.overloaded),
           c == NoFreeCore)
  }

  /** One iteration of the splitting loop for core i, with the aggregate
      kept when it cannot be split (length 1, or no free core). */
  function SplitCore(b: Balance, i: int): (r: Balance)
    requires Shaped(b) && 0 <= i < MaxCoreCount
    ensures Shaped(r)
  {
    if !b.inUse[i] || !b.overloaded[i] then b
    else
      var b1 := b.(overloaded := b.overloaded[i := false]);
      var k := FirstWhere(b.aggs, ServedBy(i));
      if k == |b.aggs| then b1
      else
        var a := b.aggs[k];
        var h := a.length / 2;
        var c := FreeCore(b.inUse);
        if h == 0 || c == NoFreeCore then b1
        else Halve(b1, k, c)
  }

  /** Aggregate k split in two halves, the lower kept on its core and the
      upper given to core c, with the upper half's flow ids remapped. */
  function Halve(b: Balance, k: int, c: int): (r: Balance)
    requires Shaped(b) && 0 <= k < |b.aggs| && 0 <= c < MaxCoreCount
    ensures Shaped(r)
  {
    var a := b.aggs[k];
    var h := a.length / 2;
    Balance(Erase(b.aggs, k) + [Aggregate(a.start, h, a.core), Aggregate(a.start + h, h, c)],
            Assign(b.table, a.start + h, a.start + 2 * h, c),
            b.inUse[c := true], b.overloaded)
  }

  lemma Pow2Halves(n: int)
    requires Pow2(n) && n >= 2
    ensures n == 2 * (n / 2) && Pow2(n / 2)
  {
  }

  /** The conditions under which `Halve` keeps the invariant: a splittable
      aggregate and a free core. */
  predicate Splittable(b: Balance, k: int, c: int)
  {
    0 <= k < |b.aggs| && b.aggs[k].length >= 2 && 0 <= c < MaxCoreCount && |b.inUse| == MaxCoreCount && !b.inUse[c]
  }

  /** The halves are power-of-two ranges within the flow ids, on cores in use. */
  lemma HalveRanges(b: Balance, k: int, c: int)
    requires Covers(b) && Splittable(b, k, c)
    ensures var r := Halve(b, k, c);
      forall j :: 0 <= j < |r.aggs| ==>
        Pow2(r.aggs[j].length) && 0 <= r.aggs[j].start && r.aggs[j].start + r.aggs[j].length <= FlowIdCount &&
        0 <= r.aggs[j].core < MaxCoreCount && r.inUse[r.aggs[j].core]
  {
    Pow2Halves(b.aggs[k].length);
  }

  /** The table sends every flow id of every new aggregate to its core. */
  lemma HalveTable(b: Balance, k: int, c: int)
    requires Covers(b) && Splittable(b, k, c)
    ensures var r := Halve(b, k, c);
      forall j, id :: 0 <= j < |r.aggs| && Holds(r.aggs[j], id) ==> r.table[id] == r.aggs[j].core
  {
    var a := b.aggs[k];
    Pow2Halves(a.length);
    var r := Halve(b, k, c);
    forall j, id | 0 <= j < |r.aggs| && Holds(r.aggs[j], id)
      ensures r.table[id] == r.aggs[j].core
    {
      if j < k {
        assert Apart(b.aggs[j], a) && b.table[id] == b.aggs[j].core;
      } else if j < |r.aggs| - 2 {
        assert Apart(a, b.aggs[j + 1]) && b.table[id] == b.aggs[j + 1].core;
      } else if j == |r.aggs| - 2 {
        assert Holds(a, id);
      }
    }
  }

  /** Every flow id stays in some aggregate. */
  lemma HalveInSome(b: Balance, k: int, c: int)
    requires Covers(b) && Splittable(b, k, c)
    ensures var r := Halve(b, k, c);
      forall id :: 0 <= id < FlowIdCount ==> InSome(r.aggs, id)
  {
    var a := b.aggs[k];
    Pow2Halves(a.length);
    var r := Halve(b, k, c);
    forall id | 0 <= id < FlowIdCount
      ensures InSome(r.aggs, id)
    {
      assert InSome(b.aggs, id);
      var j :| 0 <= j < |b.aggs| && Holds(b.aggs[j], id);
      if j < k {
        assert Holds(r.aggs[j], id);
      } else if j > k {
        assert Holds(r.aggs[j - 1], id);
      } else if id < a.start + a.length / 2 {
        assert Holds(r.aggs[|r.aggs| - 2], id);
      } else {
        assert Holds(r.aggs[|r.aggs| - 1], id);
      }
    }
  }

  /** The new aggregates do not overlap and are served by distinct cores. */
  lemma HalveApart(b: Balance, k: int, c: int)
    requires Covers(b) && Splittable(b, k, c)
    ensures var r := Halve(b, k, c);
      forall j, l :: 0 <= j < l < |r.aggs| ==> Apart(r.aggs[j], r.aggs[l]) && r.aggs[j].core != r.aggs[l].core
  {
    var a := b.aggs[k];
    Pow2Halves(a.length);
    var r := Halve(b, k, c);
    var n := |r.aggs|;
    assert forall j :: 0 <= j < n - 2 ==> r.aggs[j] == b.aggs[if j < k then j else j + 1];
    forall j, l | 0 <= j < l < n
      ensures Apart(r.aggs[j], r.aggs[l]) && r.aggs[j].core != r.aggs[l].core
    {
      var oj := if j < k then j else j + 1;
      if l < n - 2 {
        var ol := if l < k then l else l + 1;
        assert oj < ol;
      } else if j < n - 2 {
        if oj < k { assert Apart(b.aggs[oj], a); } else { assert Apart(a, b.aggs[oj]); }
      }
    }
  }

  lemma HalveKeepsCovers(b: Balance, k: int, c: int)
    requires Covers(b) && Splittable(b, k, c)
    ensures Covers(Halve(b, k, c))
  {
    HalveRanges(b, k, c);
    HalveTable(b, k, c);
    HalveInSome(b, k, c);
    HalveApart(b, k, c);
  }

  /** When an aggregate of length 1 is overloaded, the loop as written
      drops it: its flow id is then in no aggregate. */
  lemma SplitAsWrittenDropsUnitAggregate(b: Balance, i: int)
    requires Covers(b) && 0 <= i < MaxCoreCount && b.inUse[i] && b.overloaded[i]
    requires FirstWhere(b.aggs, ServedBy(i)) < |b.aggs| && b.aggs[FirstWhere(b.aggs, ServedBy(i))].length == 1
    ensures var r := SplitCoreAsWritten(b, i).0;
      var id := b.aggs[FirstWhere(b.aggs, ServedBy(i))].start;
      0 <= id < FlowIdCount && (forall k :: 0 <= k < |r.aggs| ==> !Holds(r.aggs[k], id)) && !Covers(r)
  {
    var k := FirstWhere(b.aggs, ServedBy(i));
    var a := b.aggs[k];
    var r := SplitCoreAsWritten(b, i).0;
    assert r.aggs == Erase(b.aggs, k);
    forall j | 0 <= j < |r.aggs|
      ensures !Holds(r.aggs[j], a.start)
    {
      if j < k {
        assert Apart(b.aggs[j], a);
      } else {
        assert Apart(a, b.aggs[j + 1]);
      }
    }
    assert !InSome(r.aggs, a.start);
  }

  /** When every core is in use, the loop as written gives the upper half
      of an overloaded aggregate to core 255: it writes outside
      `in_use_cores_` and routes those flow ids to a core the cluster does
      not have. */
  lemma SplitAsWrittenWithoutFreeCore(b: Balance, i: int)
    requires Covers(b) && 0 <= i < MaxCoreCount && b.overloaded[i]
    requires forall j :: 0 <= j < MaxCoreCount ==> b.inUse[j]
    requires FirstWhere(b.aggs, ServedBy(i)) < |b.aggs| && b.aggs[FirstWhere(b.aggs, ServedBy(i))].length >= 2
    ensures var r := SplitCoreAsWritten(b, i);
      var a := b.aggs[FirstWhere(b.aggs, ServedBy(i))];
      r.1 && r.0.table[a.start + a.length / 2] == NoFreeCore && !Covers(r.0)
  {
    var k := FirstWhere(b.aggs, ServedBy(i));
    var a := b.aggs[k];
    var r := SplitCoreAsWritten(b, i).0;
    assert r.aggs[|r.aggs| - 1] == Aggregate(a.start + a.length / 2, a.length / 2, NoFreeCore);
  }

  /** Splitting core i keeps the invariant. */
  lemma SplitCoreKeepsCovers(b: Balance, i: int)
    requires Covers(b) && 0 <= i < MaxCoreCount
    ensures Covers(SplitCore(b, i))
  {
    if b.inUse[i] && b.overloaded[i] {
      var b1 := b.(overloaded := b.overloaded[i := false]);
      var k := FirstWhere(b.aggs, ServedBy(i));
      var c := FreeCore(b.inUse);
      if k < |b.aggs| && b.aggs[k].length / 2 > 0 && c != NoFreeCore {
        assert Covers(b1) && Splittable(b1, k, c);
        HalveKeepsCovers(b1, k, c);
        assert SplitCore(b, i) == Halve(b1, k, c);
      } else {
        assert Covers(b1);
      }
    }
  }

  /** The upper half of an aggregate, the flow ids a split remaps. */
  predicate UpperHalf(a: Aggregate, id: int)
  {
    a.start + a.length / 2 <= id < a.start + 2 * (a.length / 2)
  }

  /** Splitting core i changes nothing unless it is in use and overloaded;
      then its flag is cleared.  Only its aggregate's upper half is
      remapped, to the lowest free core, which is put in use; with no free
      core or an aggregate of one flow id nothing else changes.  When the
      split happens, the aggregate is replaced by its two halves, the lower
      one staying on core i. */
  lemma SplitCoreEffect(b: Balance, i: int)
    requires Covers(b) && 0 <= i < MaxCoreCount
    ensures var r := SplitCore(b, i);
      var k := FirstWhere(b.aggs, ServedBy(i));
      var c := FreeCore(b.inUse);
      var split := b.inUse[i] && b.overloaded[i] && k < |b.aggs| && b.aggs[k].length >= 2 && c != NoFreeCore;
      (!(b.inUse[i] && b.overloaded[i]) ==> r == b) &&
      (b.inUse[i] && b.overloaded[i] ==> r.overloaded == b.overloaded[i := false]) &&
      (!split ==> r.aggs == b.aggs && r.table == b.table && r.inUse == b.inUse) &&
      (split ==>
        r.inUse == b.inUse[c := true] &&
        r.aggs == Erase(b.aggs, k) + [Aggregate(b.aggs[k].start, b.aggs[k].length / 2, i),
                                      Aggregate(b.aggs[k].start + b.aggs[k].length / 2, b.aggs[k].length / 2, c)] &&
        forall id :: 0 <= id < FlowIdCount ==>
          r.table[id] == if UpperHalf(b.aggs[k], id) then c else b.table[id])
  {
  }

  /** The splitting loop over cores 0 .. n-1, in order. */
  function SplitUpTo(b: Balance, n: int): (r: Balance)
    requires Shaped(b) && 0 <= n <= MaxCoreCount
    ensures Shaped(r)
  {
    if n == 0 then b else SplitCore(SplitUpTo(b, n - 1), n - 1)
  }

  /** Only cores in use are flagged as overloaded. */
  predicate FlagsInUse(b: Balance)
    requires Shaped(b)
  {
    forall j :: 0 <= j < MaxCoreCount && b.overloaded[j] ==> b.inUse[j]
  }

  /** Splitting core i clears its flag, keeps the others, and only puts
      cores in use. */
  lemma SplitCoreFlags(b: Balance, i: int)
    requires Shaped(b) && FlagsInUse(b) && 0 <= i < MaxCoreCount
    ensures var r := SplitCore(b, i);
      FlagsInUse(r) && !r.overloaded[i] &&
      (forall j :: 0 <= j < MaxCoreCount && j != i ==> r.overloaded[j] == b.overloaded[j]) &&
      (forall j :: 0 <= j < MaxCoreCount && b.inUse[j] ==> r.inUse[j])
  {
  }

  /** The splitting loop keeps the invariant. */
  lemma {:induction false} SplitUpToKeepsCovers(b: Balance, n: int)
    requires Covers(b) && 0 <= n <= MaxCoreCount
    ensures Covers(SplitUpTo(b, n))
  {
    if n > 0 {
      SplitUpToKeepsCovers(b, n - 1);
      SplitCoreKeepsCovers(SplitUpTo(b, n - 1), n - 1);
    }
  }

  /** When only cores in use are flagged, the splitting loop over cores
      0 .. n-1 leaves none of them flagged. */
  lemma {:induction false} SplitUpToClearsFlags(b: Balance, n: int)
    requires Shaped(b) && FlagsInUse(b) && 0 <= n <= MaxCoreCount
    ensures var r := SplitUpTo(b, n);
      FlagsInUse(r) && forall j :: 0 <= j < n ==> !r.overloaded[j]
  {
    if n > 0 {
      SplitUpToClearsFlags(b, n - 1);
      SplitCoreFlags(SplitUpTo(b, n - 1), n - 1);
    }
  }

  // ---------------------------------------------------------------------
  // Marking overloaded cores.

  /** `per_core_pkt_cnts_[i] * 1000 / time_diff_ms`: the product is a
      `uint32_t` and wraps around before the division. */
  function Rate(cnt: int, diffMs: int): int
    requires diffMs > 0
  {
    (cnt * 1000) % U32 / diffMs
  }

  /** The marking loop: each core in use whose rate exceeds the threshold
      is flagged; other flags are left as they are. */
  function Mark(b: Balance, cnts: seq<int>, diffMs: int, thresh: int): (r: Balance)
    requires Shaped(b) && |cnts| == MaxCoreCount && diffMs > 0
    ensures Shaped(r)
  {
    b.(overloaded := seq(MaxCoreCount, j requires 0 <= j < MaxCoreCount =>
                           b.overloaded[j] || (b.inUse[j] && Rate(cnts[j], diffMs) > thresh)))
  }

  /** Marking keeps the aggregates, the table and the invariant; it never
      clears a flag and never flags a core out of use. */
  lemma MarkKeeps(b: Balance, cnts: seq<int>, diffMs: int, thresh: int)
    requires Covers(b) && FlagsInUse(b) && |cnts| == MaxCoreCount && diffMs > 0
    ensures var r := Mark(b, cnts, diffMs, thresh);
      Covers(r) && FlagsInUse(r) && r.aggs == b.aggs && r.table == b.table && r.inUse == b.inUse &&
      forall j :: 0 <= j < MaxCoreCount && b.overloaded[j] ==> r.overloaded[j]
  {
  }

  // ---------------------------------------------------------------------
  // The balancing period.

  /** The balancing state with the packet counters, `lb_stage_` and
      `last_update_ts_` (in nanoseconds). */
  datatype MetronState = MetronState(bal: Balance, coreCnts: seq<int>, flowCnts: seq<int>, stage: int, lastTs: int)

  predicate StateShaped(s: MetronState)
  {
    Shaped(s.bal) && |s.coreCnts| == MaxCoreCount && |s.flowCnts| == FlowIdCount && 0 <= s.lastTs < U64
  }

  /** Milliseconds since the last update; the clock difference is a
      `uint64_t`. */
  function ElapsedMs(now: int, last: int): int
    requires 0 <= now < U64 && 0 <= last < U64
  {
    WrapSub(now, last, U64) / NsPerMs
  }

  /** `MetronProcessOverloads()` at clock value `now`.  In stage 0, once a
      period has passed, the overloaded cores are flagged and stage 1
      begins; in stage 1, once the switch rule delay has passed as well,
      the flagged cores are split, the counters reset, and a new period
      starts at `now`. */
  function Process(s: MetronState, now: int, thresh: int): (r: MetronState)
    requires StateShaped(s) && 0 <= now < U64
    ensures StateShaped(r)
  {
    var diff := ElapsedMs(now, s.lastTs);
    if s.stage == 0 && diff < MetronPeriodMs then s
    else
      var s1 := if s.stage == 0 then s.(bal := Mark(s.bal, s.coreCnts, diff, thresh), stage := 1) else s;
      if s1.stage != 1 || diff < MetronPeriodMs + HardwareRuleDelayMs then s1
      else MetronState(SplitUpTo(s1.bal, MaxCoreCount), seq(MaxCoreCount, _ => 0), seq(FlowIdCount, _ => 0), 0, now)
  }

  /** A period step keeps the invariant.  Before a period has passed it
      changes nothing; once the rule delay has passed too, every counter
      is zero, no core is flagged, stage 0 is back and the period restarts
      at `now`. */
  lemma ProcessKeeps(s: MetronState, now: int, thresh: int)
    requires StateShaped(s) && Covers(s.bal) && FlagsInUse(s.bal) && 0 <= now < U64
    ensures var r := Process(s, now, thresh);
      var diff := ElapsedMs(now, s.lastTs);
      Covers(r.bal) && FlagsInUse(r.bal) && (CountersOk(s) ==> CountersOk(r)) &&
      (s.stage == 0 && diff < MetronPeriodMs ==> r == s) &&
      ((s.stage == 0 || s.stage == 1) && diff >= MetronPeriodMs + HardwareRuleDelayMs ==>
        r.stage == 0 && r.lastTs == now &&
        (forall j :: 0 <= j < MaxCoreCount ==> r.coreCnts[j] == 0 && !r.bal.overloaded[j]) &&
        (forall id :: 0 <= id < FlowIdCount ==> r.flowCnts[id] == 0))
  {
    var diff := ElapsedMs(now, s.lastTs);
    if s.stage == 0 && diff >= MetronPeriodMs {
      MarkKeeps(s.bal, s.coreCnts, diff, thresh);
      SplitUpToKeepsCovers(Mark(s.bal, s.coreCnts, diff, thresh), MaxCoreCount);
      SplitUpToClearsFlags(Mark(s.bal, s.coreCnts, diff, thresh), MaxCoreCount);
    } else {
      SplitUpToKeepsCovers(s.bal, MaxCoreCount);
      SplitUpToClearsFlags(s.bal, MaxCoreCount);
    }
  }

  // ---------------------------------------------------------------------
  // Per-packet routing and monitoring.

  /** A packet: whether it is TCP, its addresses and ports. */
  datatype Packet = Packet(tcp: bool, src: int, dst: int, srcPort: bv16, dstPort: bv16)

  /** What happens to a packet: dropped, sent to the endpoint of a worker
      with the core id in the TCP header and its ports, or the ingress
      aborts on an unknown mode. */
  datatype Verdict = Drop | Fatal | Emit(worker: int, encode: int, srcPort: bv16, dstPort: bv16)

  /** `tcp_port_mask_`: 0x1000 shifted by `rewrite_`, kept to 16 bits. */
  function PortMask(rewrite: int): bv16
  {
    if rewrite == 1 then 0x2000 else if rewrite == 2 then 0x4000 else if rewrite == 3 then 0x8000 else 0
  }

  /** The packet rewrite of `ProcessBatch()` for a packet whose core id is
      `encode`: the worker it is sent to and, when `rewrite_` is set, both
      ports taken from the destination port with the mask set. */
  function Send(p: Packet, encode: int, rewrite: int): (v: Verdict)
    ensures v.Emit?
  {
    if rewrite > 0 then Emit(DstWorker(encode), encode, p.dstPort | PortMask(rewrite), p.dstPort | PortMask(rewrite))
    else Emit(DstWorker(encode), encode, p.srcPort, p.dstPort)
  }

  /** The flow id of a packet: the low byte of its destination address. */
  function FlowId(dst: int): (id: int)
    ensures 0 <= id < FlowIdCount
  {
    dst % FlowIdCount
  }

  /** Metron mode: non-TCP packets are dropped; the others go to the core
      their flow id is mapped to, on that core's worker. */
  function Route(b: Balance, p: Packet, rewrite: int): (v: Verdict)
    requires Shaped(b)
  {
    if !p.tcp then Drop else Send(p, b.table[FlowId(p.dst)], rewrite)
  }

  /** Under the invariant a TCP packet is sent to a core in use, on the
      worker whose endpoint serves it, and the tag decodes to that core. */
  lemma RouteToUsedCore(b: Balance, p: Packet, rewrite: int)
    requires Covers(b)
    ensures var v := Route(b, p, rewrite);
      (v.Drop? <==> !p.tcp) &&
      (v.Emit? ==> v.encode == b.table[FlowId(p.dst)] && 0 <= v.encode < MaxCoreCount && b.inUse[v.encode] &&
                   v.worker * MaxPerWorkerCoreCount + DstCore(v.encode) == v.encode &&
                   0 <= v.worker < MaxWorkerCount &&
                   (rewrite <= 0 ==> v.srcPort == p.srcPort && v.dstPort == p.dstPort))
  {
    if p.tcp {
      CoversRoutesToUsedCores(b, FlowId(p.dst));
      EncodeDecode(b.table[FlowId(p.dst)]);
    }
  }

  predicate CountersOk(s: MetronState)
  {
    StateShaped(s) &&
    (forall j :: 0 <= j < MaxCoreCount ==> 0 <= s.coreCnts[j] < U32) &&
    (forall id :: 0 <= id < FlowIdCount ==> 0 <= s.flowCnts[id] < U32)
  }

  /** Every flow id is mapped to a core of the cluster. */
  predicate TableOk(t: seq<int>)
  {
    |t| == FlowIdCount && forall id :: 0 <= id < FlowIdCount ==> 0 <= t[id] < MaxCoreCount
  }

  /** The monitoring step of `ProcessBatch()` for one packet, as the source
      has it: the core counter charged is indexed by `dst_core`, the core
      on its worker, instead of by the core id. */
  function CountAsWritten(s: MetronState, p: Packet): (r: MetronState)
    requires CountersOk(s) && TableOk(s.bal.table)
    ensures CountersOk(r) && r.bal == s.bal
  {
    if !p.tcp then s
    else
      var id := FlowId(p.dst);
      var j := DstCore(s.bal.table[id]);
      s.(flowCnts := s.flowCnts[id := Inc32(s.flowCnts[id])], coreCnts := s.coreCnts[j := Inc32(s.coreCnts[j])])
  }

  /** The monitoring step charging the core the flow id is routed to. */
  function Count(s: MetronState, p: Packet): (r: MetronState)
    requires CountersOk(s) && TableOk(s.bal.table)
    ensures CountersOk(r) && r.bal == s.bal
  {
    if !p.tcp then s
    else
      var id := FlowId(p.dst);
      var j := s.bal.table[id];
      s.(flowCnts := s.flowCnts[id := Inc32(s.flowCnts[id])], coreCnts := s.coreCnts[j := Inc32(s.coreCnts[j])])
  }

  /** Counting a batch of packets, as written. */
  function TallyAsWritten(s: MetronState, pkts: seq<Packet>): (r: MetronState)
    requires CountersOk(s) && TableOk(s.bal.table)
    ensures CountersOk(r) && r.bal == s.bal
    decreases |pkts|
  {
    if pkts == [] then s
    else CountAsWritten(TallyAsWritten(s, pkts[..|pkts| - 1]), pkts[|pkts| - 1])
  }

  /** As written, the counters of cores 12 .. 35 are never charged: from
      zero they stay zero however many packets those cores are sent. */
  lemma {:induction false} TallyAsWrittenMissesUpperCores(s: MetronState, pkts: seq<Packet>)
    requires CountersOk(s) && TableOk(s.bal.table)
    requires forall j :: MaxPerWorkerCoreCount <= j < MaxCoreCount ==> s.coreCnts[j] == 0
    ensures forall j :: MaxPerWorkerCoreCount <= j < MaxCoreCount ==> TallyAsWritten(s, pkts).coreCnts[j] == 0
    decreases |pkts|
  {
    if pkts != [] {
      var init := pkts[..|pkts| - 1];
      TallyAsWrittenMissesUpperCores(s, init);
      var p := TallyAsWritten(s, init);
      var last := pkts[|pkts| - 1];
      if last.tcp {
        assert 0 <= DstCore(p.bal.table[FlowId(last.dst)]) < MaxPerWorkerCoreCount;
      }
    }
  }

  /** Hence, as written, a core of 12 .. 35 is never flagged however
      loaded it is. */
  lemma UpperCoresNeverFlagged(s: MetronState, pkts: seq<Packet>, diffMs: int, thresh: int)
    requires CountersOk(s) && TableOk(s.bal.table)
    requires forall j :: MaxPerWorkerCoreCount <= j < MaxCoreCount ==> s.coreCnts[j] == 0 && !s.bal.overloaded[j]
    requires 0 < diffMs && 0 <= thresh
    ensures var r := TallyAsWritten(s, pkts);
      forall j :: MaxPerWorkerCoreCount <= j < MaxCoreCount ==> !Mark(r.bal, r.coreCnts, diffMs, thresh).overloaded[j]
  {
    TallyAsWrittenMissesUpperCores(s, pkts);
    assert (0 * 1000) % U32 / diffMs == 0;
  }

  /** Counting a batch of packets. */
  function Tally(s: MetronState, pkts: seq<Packet>): (r: MetronState)
    requires CountersOk(s) && TableOk(s.bal.table)
    ensures CountersOk(r) && r.bal == s.bal
    decreases |pkts|
  {
    if pkts == [] then s
    else Count(Tally(s, pkts[..|pkts| - 1]), pkts[|pkts| - 1])
  }

  /** How many TCP packets of the batch the table sends to core j. */
  function RoutedTo(table: seq<int>, pkts: seq<Packet>, j: int): nat
    requires |table| == FlowIdCount
    decreases |pkts|
  {
    if pkts == [] then 0
    else
      var p := pkts[|pkts| - 1];
      RoutedTo(table, pkts[..|pkts| - 1], j) + (if p.tcp && table[FlowId(p.dst)] == j then 1 else 0)
  }

  /** Core j's counter grows by the number of TCP packets routed to it,
      modulo 2^32. */
  lemma {:induction false} TallyCountsRouted(s: MetronState, pkts: seq<Packet>, j: int, base: nat)
    requires CountersOk(s) && TableOk(s.bal.table)
    requires 0 <= j < MaxCoreCount && s.coreCnts[j] == base % U32
    ensures Tally(s, pkts).coreCnts[j] == (base + RoutedTo(s.bal.table, pkts, j)) % U32
    decreases |pkts|
  {
    if pkts != [] {
      var init := pkts[..|pkts| - 1];
      var last := pkts[|pkts| - 1];
      TallyCountsRouted(s, init, j, base);
      var n := base + RoutedTo(s.bal.table, init, j);
      if last.tcp && s.bal.table[FlowId(last.dst)] == j {
        Inc32Mod(n);
      }
    }
  }

  /** The invariant maps every flow id to a core of the cluster. */
  lemma CoversTableOk(b: Balance)
    requires Covers(b)
    ensures TableOk(b.table)
  {
    forall id | 0 <= id < FlowIdCount
      ensures 0 <= b.table[id] < MaxCoreCount
    {
      CoversRoutesToUsedCores(b, id);
    }
  }

  /** `ProcessBatch()` in Metron mode: the period step, then each packet
      routed by the table and counted. */
  function MetronBatch(s: MetronState, now: int, thresh: int, pkts: seq<Packet>, rewrite: int): (r: (MetronState, seq<Verdict>))
    requires CountersOk(s) && Covers(s.bal) && FlagsInUse(s.bal) && 0 <= now < U64
  {
    ProcessKeeps(s, now, thresh);
    var p := Process(s, now, thresh);
    CoversTableOk(p.bal);
    (Tally(p, pkts), seq(|pkts|, k requires 0 <= k < |pkts| => Route(p.bal, pkts[k], rewrite)))
  }

  /** A batch keeps the invariant and the counters in range, and every TCP
      packet of it goes to a core in use, tagged with that core's id. */
  lemma MetronBatchKeeps(s: MetronState, now: int, thresh: int, pkts: seq<Packet>, rewrite: int)
    requires CountersOk(s) && Covers(s.bal) && FlagsInUse(s.bal) && 0 <= now < U64
    ensures var r := MetronBatch(s, now, thresh, pkts, rewrite);
      CountersOk(r.0) && Covers(r.0.bal) && FlagsInUse(r.0.bal) && |r.1| == |pkts| &&
      forall k :: 0 <= k < |pkts| ==>
        (r.1[k].Drop? <==> !pkts[k].tcp) &&
        (r.1[k].Emit? ==> 0 <= r.1[k].encode < MaxCoreCount && r.0.bal.inUse[r.1[k].encode] &&
                          r.1[k].worker == DstWorker(r.1[k].encode))
  {
    ProcessKeeps(s, now, thresh);
    var p := Process(s, now, thresh);
    forall k | 0 <= k < |pkts|
      ensures var v := Route(p.bal, pkts[k], rewrite);
        (v.Drop? <==> !pkts[k].tcp) && (v.Emit? ==> 0 <= v.encode < MaxCoreCount && p.bal.inUse[v.encode] && v.worker == DstWorker(v.encode))
    {
      RouteToUsedCore(p.bal, pkts[k], rewrite);
    }
  }
}
