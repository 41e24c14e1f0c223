// The NFV controller's software-queue pool and its first-fit bucket
// planner.  The pool is the global table of DEFAULT_SWQ_COUNT = 200
// software packet queues; each entry records the core that owns the queue,
// and the invalid core id marks a free queue.  The planner places RSS
// buckets on cores, each on the first core whose packet rate stays below
// the rate threshold stored for 1000 flows.
module NfvCtrl {
  import opened Util

  /** DEFAULT_SWQ_COUNT. */
  const SwqCount: nat := 200

  /** Owner test used to find a free queue. */
  function OwnedBy(core: int): int -> bool
  {
    o => o == core
  }

  /** The answer of RequestSwQ when the owner table is `owners`. */
  function RequestedQueue(owners: seq<int>, invalid: int, core: int): (q: int)
    requires |owners| == SwqCount
    ensures core == invalid ==> q == SwqCount
    ensures core != invalid && q < SwqCount ==>
      0 <= q && owners[q] == invalid && forall j :: 0 <= j < q ==> owners[j] != invalid
    ensures core != invalid && q >= SwqCount ==>
      q == SwqCount && forall j :: 0 <= j < SwqCount ==> owners[j] != invalid
  {
    if core == invalid then SwqCount else FirstWhere(owners, OwnedBy(invalid))
  }

  /** The owner table after RequestSwQ. */
  function AfterRequest(owners: seq<int>, invalid: int, core: int): seq<int>
    requires |owners| == SwqCount
  {
    var q := RequestedQueue(owners, invalid, core);
    if q < SwqCount then owners[q := core] else owners
  }

  /** The owner table after ReleaseSwQ(q): a valid index becomes free, any
      other index is ignored. */
  function AfterRelease(owners: seq<int>, invalid: int, q: int): seq<int>
    requires |owners| == SwqCount
  {
    if 0 <= q < SwqCount then owners[q := invalid] else owners
  }

  /** The number of free queues. */
  function FreeCount(owners: seq<int>, invalid: int): nat
  {
    if owners == [] then 0
    else FreeCount(owners[..|owners| - 1], invalid) + (if owners[|owners| - 1] == invalid then 1 else 0)
  }

  lemma {:induction false} FreeCountUpdate(owners: seq<int>, invalid: int, q: int, v: int)
    requires 0 <= q < |owners|
    ensures FreeCount(owners[q := v], invalid) ==
      FreeCount(owners, invalid) - (if owners[q] == invalid then 1 else 0) + (if v == invalid then 1 else 0)
    decreases |owners|
  {
    var n := |owners|;
    var u := owners[q := v];
    assert u[..n - 1] == if q < n - 1 then owners[..n - 1][q := v] else owners[..n - 1];
    if q < n - 1 {
      FreeCountUpdate(owners[..n - 1], invalid, q, v);
    }
  }

  /** A successful request takes exactly one free queue and changes no other
      entry; releasing that queue restores the table. */
  lemma RequestReleaseRoundTrip(owners: seq<int>, invalid: int, core: int)
    requires |owners| == SwqCount
    ensures var q := RequestedQueue(owners, invalid, core);
      q < SwqCount ==>
        FreeCount(AfterRequest(owners, invalid, core), invalid) + 1 == FreeCount(owners, invalid) &&
        (forall j :: 0 <= j < SwqCount && j != q ==> AfterRequest(owners, invalid, core)[j] == owners[j]) &&
        AfterRelease(AfterRequest(owners, invalid, core), invalid, q) == owners
    ensures RequestedQueue(owners, invalid, core) == SwqCount ==> AfterRequest(owners, invalid, core) == owners
  {
    var q := RequestedQueue(owners, invalid, core);
    if q < SwqCount {
      FreeCountUpdate(owners, invalid, q, core);
      assert owners[q := core][q := invalid] == owners;
    }
  }

  /** The free queues below k, ascending. */
  function FreeIndices(owners: seq<int>, invalid: int, k: nat): seq<int>
    requires k <= |owners|
  {
    if k == 0 then []
    else FreeIndices(owners, invalid, k - 1) + (if owners[k - 1] == invalid then [k - 1] else [])
  }

  /** FreeIndices lists exactly the free queues below k, in ascending order. */
  lemma {:induction false} FreeIndicesSpec(owners: seq<int>, invalid: int, k: nat)
    requires k <= |owners|
    ensures StrictlyAscending(FreeIndices(owners, invalid, k))
    ensures forall t :: 0 <= t < |FreeIndices(owners, invalid, k)| ==>
      0 <= FreeIndices(owners, invalid, k)[t] < k && owners[FreeIndices(owners, invalid, k)[t]] == invalid
    ensures forall j :: 0 <= j < k && owners[j] == invalid ==> j in FreeIndices(owners, invalid, k)
  {
    if k > 0 {
      FreeIndicesSpec(owners, invalid, k - 1);
    }
  }

  lemma {:induction false} FreeIndicesPrefix(owners: seq<int>, invalid: int, i: nat, k: nat)
    requires i <= k <= |owners|
    ensures FreeIndices(owners, invalid, i) <= FreeIndices(owners, invalid, k)
    decreases k - i
  {
    if i < k {
      FreeIndicesPrefix(owners, invalid, i, k - 1);
    }
  }

  /** The owner table with every listed queue given to core. */
  function ClaimAll(owners: seq<int>, core: int, claimed: seq<int>): seq<int>
  {
    seq(|owners|, j requires 0 <= j < |owners| => if j in claimed then core else owners[j])
  }

  /** The queues RequestNSwQ claims as written: `cnt` is never raised, so
      the `cnt == n` exit fires after queue 0 when n is 0 and never
      otherwise. */
  function RequestNClaims(owners: seq<int>, invalid: int, core: int, n: int): seq<int>
    requires |owners| == SwqCount
  {
    if core == invalid then [] else FreeIndices(owners, invalid, if n == 0 then 1 else SwqCount)
  }

  /** At most n of the given queues, from the front. */
  function Take(s: seq<int>, n: int): (r: seq<int>)
    ensures r <= s
    ensures |r| == if n <= 0 then 0 else if n >= |s| then |s| else n
  {
    if n <= 0 then [] else if n >= |s| then s else s[..n]
  }

  /** The queues RequestNSwQ claims once `cnt` counts the claims: the n
      lowest free queues, or all of them when fewer are free. */
  function RequestNCappedClaims(owners: seq<int>, invalid: int, core: int, n: int): seq<int>
    requires |owners| == SwqCount
  {
    if core == invalid then [] else Take(FreeIndices(owners, invalid, SwqCount), n)
  }

  function AllFree(invalid: int): (s: seq<int>)
    ensures |s| == SwqCount && forall j :: 0 <= j < SwqCount ==> s[j] == invalid
  {
    seq(SwqCount, _ => invalid)
  }

  lemma {:induction false} FreeIndicesAllFree(owners: seq<int>, invalid: int, k: nat)
    requires k <= |owners| && forall j :: 0 <= j < k ==> owners[j] == invalid
    ensures |FreeIndices(owners, invalid, k)| == k
  {
    if k > 0 {
      FreeIndicesAllFree(owners, invalid, k - 1);
    }
  }

  /** As written, asking for one queue out of 200 free ones claims all 200,
      and asking for none claims queue 0. */
  lemma RequestNOverclaims(invalid: int, core: int)
    requires core != invalid
    ensures |RequestNClaims(AllFree(invalid), invalid, core, 1)| == SwqCount
    ensures RequestNClaims(AllFree(invalid), invalid, core, 0) == [0]
  {
    FreeIndicesAllFree(AllFree(invalid), invalid, SwqCount);
    assert FreeIndices(AllFree(invalid), invalid, 0) == [];
    assert AllFree(invalid)[0] == invalid;
  }

  /** With `cnt` counting claims, no more than n queues are claimed, every
      one of them was free, fewer than n only when every free queue is
      claimed, and they are the lowest free queues: no free queue below a
      claimed one is left out. The invalid core claims none. */
  lemma RequestNCappedBound(owners: seq<int>, invalid: int, core: int, n: int)
    requires |owners| == SwqCount
    ensures var c := RequestNCappedClaims(owners, invalid, core, n);
      |c| <= (if n <= 0 then 0 else n) &&
      StrictlyAscending(c) &&
      (forall t :: 0 <= t < |c| ==> 0 <= c[t] < SwqCount && owners[c[t]] == invalid) &&
      (core != invalid && |c| < n ==>
        forall j :: 0 <= j < SwqCount && owners[j] == invalid ==> j in c) &&
      (forall t, j :: 0 <= t < |c| && 0 <= j < c[t] && owners[j] == invalid ==> j in c) &&
      (core == invalid ==> c == [])
  {
    FreeIndicesSpec(owners, invalid, SwqCount);
    var f := FreeIndices(owners, invalid, SwqCount);
    var c := RequestNCappedClaims(owners, invalid, core, n);
    assert forall t :: 0 <= t < |c| ==> c[t] == f[t];
    forall t, j | 0 <= t < |c| && 0 <= j < c[t] && owners[j] == invalid
      ensures j in c
    {
      assert j in f;
      var m :| 0 <= m < |f| && f[m] == j;
      if m >= t {
        assert f[t] <= f[m];
      }
      assert c[m] == j;
    }
  }

  /** sw_q_state: the owner (`up_core_id`) of each software queue. */
  class SwQueuePool {
    const invalidCore: int
    const owner: array<int>

    predicate Valid()
      reads this
    {
      owner.Length == SwqCount
    }

    /** Every queue starts free. */
    constructor(invalidCore: int)
      ensures Valid() && fresh(owner) && this.invalidCore == invalidCore
      ensures owner[..] == AllFree(invalidCore)
    {
      this.invalidCore := invalidCore;
      owner := new int[SwqCount](_ => invalidCore);
    }

    /** `RequestSwQ`: the lowest free queue goes to core_id; the invalid
        core, or a full table, gets DEFAULT_SWQ_COUNT and changes nothing. */
    method RequestSwQ(coreId: int) returns (q: int)
      requires Valid()
      modifies owner
      ensures q == RequestedQueue(old(owner[..]), invalidCore, coreId)
      ensures owner[..] == AfterRequest(old(owner[..]), invalidCore, coreId)
    {
      if coreId == invalidCore {
        return SwqCount;
      }
      ghost var s := owner[..];
      var i := 0;
      while i < SwqCount
        invariant 0 <= i <= SwqCount
        invariant owner[..] == s
        invariant forall j :: 0 <= j < i ==> owner[j] != invalidCore
      {
        if owner[i] == invalidCore {
          FirstWhereUnique(s, OwnedBy(invalidCore), i);
          owner[i] := coreId;
          return i;
        }
        i := i + 1;
      }
      FirstWhereUnique(s, OwnedBy(invalidCore), SwqCount);
      return i;
    }

    /** `ReleaseSwQ`. */
    method ReleaseSwQ(q: int)
      requires Valid()
      modifies owner
      ensures owner[..] == AfterRelease(old(owner[..]), invalidCore, q)
    {
      if q >= 0 && q < SwqCount {
        owner[q] := invalidCore;
      }
    }

    /** `RequestNSwQ` as written. The list of claimed queues stands for
        the returned bitmask, which `1 << i` cannot build past queue 30. */
    method RequestNSwQ(coreId: int, n: int) returns (claimed: seq<int>)
      requires Valid()
      modifies owner
      ensures claimed == RequestNClaims(old(owner[..]), invalidCore, coreId, n)
      ensures owner[..] == ClaimAll(old(owner[..]), coreId, claimed)
    {
      claimed := [];
      if coreId == invalidCore {
        assert owner[..] == ClaimAll(owner[..], coreId, []);
        return;
      }
      ghost var s := owner[..];
      var cnt := 0;
      var i := 0;
      while i < SwqCount
        invariant 0 <= i <= SwqCount
        invariant n == 0 ==> i == 0
        invariant claimed == FreeIndices(s, invalidCore, i)
        invariant forall t :: 0 <= t < |claimed| ==> claimed[t] < i
        invariant owner[..] == ClaimAll(s, coreId, claimed)
      {
        if owner[i] == invalidCore {
          owner[i] := coreId;
          claimed := claimed + [i];
        }
        if cnt == n {
          break;
        }
        i := i + 1;
      }
    }

    /** RequestNSwQ with `cnt` counting the claims and the `cnt == n` test
        made before each claim. */
    method RequestNSwQCapped(coreId: int, n: int) returns (claimed: seq<int>)
      requires Valid()
      modifies owner
      ensures claimed == RequestNCappedClaims(old(owner[..]), invalidCore, coreId, n)
      ensures owner[..] == ClaimAll(old(owner[..]), coreId, claimed)
    {
      claimed := [];
      if coreId == invalidCore {
        assert owner[..] == ClaimAll(owner[..], coreId, []);
        return;
      }
      ghost var s := owner[..];
      var cnt := 0;
      var i := 0;
      while i < SwqCount
        invariant 0 <= i <= SwqCount
        invariant claimed == FreeIndices(s, invalidCore, i)
        invariant cnt == |claimed| && (i == 0 || cnt <= n)
        invariant forall t :: 0 <= t < |claimed| ==> claimed[t] < i
        invariant owner[..] == ClaimAll(s, coreId, claimed)
      {
        if cnt >= n {
          break;
        }
        if owner[i] == invalidCore {
          owner[i] := coreId;
          claimed := claimed + [i];
          cnt := cnt + 1;
        }
        i := i + 1;
      }
      FreeIndicesPrefix(s, invalidCore, i, SwqCount);
    }
  }

  // ---------------------------------------------------------------------
  // findMoves: first-fit placement of RSS buckets

  /** The key of `threshold_` the planner reads: the rate for 1000 flows. */
  const ThresholdKey: int := 1000

  /** `threshold_[1000]`; `operator[]` inserts 0 for a missing key. */
  function WithDefault(m: map<int, int>, k: int): (r: map<int, int>)
    ensures k in r && r[k] == (if k in m then m[k] else 0)
    ensures forall j :: j in m ==> j in r && r[j] == m[j]
    ensures forall j :: j in r ==> j in m || j == k
  {
    if k in m then m else m[k := 0]
  }

  /** The planner's state: per-core packet rates, the buckets of each core,
      and the moves made so far. */
  datatype Plan = Plan(cpu: seq<real>, mapping: map<int, seq<int>>, moves: map<int, int>)

  /** `core_bucket_mapping_[i]`; a missing core has no buckets. */
  function BucketsOf(mapping: map<int, seq<int>>, i: int): seq<int>
  {
    if i in mapping then mapping[i] else []
  }

  function HasRoom(rate: real, thr: real): real -> bool
  {
    x => x + rate < thr
  }

  /** One bucket: the first core whose rate stays below thr with the bucket
      added takes it; when there is none the bucket is not moved. */
  function PlaceBucket(p: Plan, b: int, rate: real, thr: real): Plan
  {
    var i := FirstWhere(p.cpu, HasRoom(rate, thr));
    if i < |p.cpu| then
      Plan(p.cpu[i := p.cpu[i] + rate], p.mapping[i := BucketsOf(p.mapping, i) + [b]], p.moves[b := i])
    else p
  }

  /** r is p with bucket b placed on core i, the lowest core with room. */
  predicate PlacedAt(p: Plan, b: int, rate: real, thr: real, i: int, r: Plan)
  {
    0 <= i < |p.cpu| && p.cpu[i] + rate < thr &&
    (forall j :: 0 <= j < i ==> p.cpu[j] + rate >= thr) &&
    r.cpu == p.cpu[i := p.cpu[i] + rate] &&
    r.mapping == p.mapping[i := BucketsOf(p.mapping, i) + [b]] &&
    r.moves == p.moves[b := i]
  }

  /** A bucket goes to the lowest-index core that has room for it, and only
      when there is none is it left where it was. */
  lemma PlaceBucketSpec(p: Plan, b: int, rate: real, thr: real)
    ensures (exists i :: 0 <= i < |p.cpu| && p.cpu[i] + rate < thr) ==>
      PlacedAt(p, b, rate, thr, FirstWhere(p.cpu, HasRoom(rate, thr)), PlaceBucket(p, b, rate, thr))
    ensures (forall j :: 0 <= j < |p.cpu| ==> p.cpu[j] + rate >= thr) ==> PlaceBucket(p, b, rate, thr) == p
  {
    var i := FirstWhere(p.cpu, HasRoom(rate, thr));
    if exists k :: 0 <= k < |p.cpu| && p.cpu[k] + rate < thr {
      var k :| 0 <= k < |p.cpu| && p.cpu[k] + rate < thr;
      assert HasRoom(rate, thr)(p.cpu[k]);
      assert i < |p.cpu|;
    }
  }

  predicate BucketsInRange(buckets: seq<int>, rates: seq<real>)
  {
    forall k :: 0 <= k < |buckets| ==> 0 <= buckets[k] < |rates|
  }

  /** The plan after the buckets, in order. */
  function FirstFit(p: Plan, buckets: seq<int>, rates: seq<real>, thr: real): Plan
    requires BucketsInRange(buckets, rates)
  {
    if buckets == [] then p
    else
      var b := buckets[|buckets| - 1];
      PlaceBucket(FirstFit(p, buckets[..|buckets| - 1], rates, thr), b, rates[b], thr)
  }

  /** Placing on core i, given that i is the first core with room. */
  lemma PlaceBucketAt(p: Plan, b: int, rate: real, thr: real, i: int)
    requires 0 <= i <= |p.cpu| && (i < |p.cpu| ==> p.cpu[i] + rate < thr)
    requires forall j :: 0 <= j < i ==> p.cpu[j] + rate >= thr
    ensures i < |p.cpu| ==>
      PlaceBucket(p, b, rate, thr) == Plan(p.cpu[i := p.cpu[i] + rate], p.mapping[i := BucketsOf(p.mapping, i) + [b]], p.moves[b := i])
    ensures i == |p.cpu| ==> PlaceBucket(p, b, rate, thr) == p
  {
    FirstWhereUnique(p.cpu, HasRoom(rate, thr), i);
  }

  lemma FirstFitStep(p: Plan, buckets: seq<int>, k: int, rates: seq<real>, thr: real)
    requires BucketsInRange(buckets, rates) && 0 <= k < |buckets|
    ensures BucketsInRange(buckets[..k], rates) && BucketsInRange(buckets[..k + 1], rates)
    ensures FirstFit(p, buckets[..k + 1], rates, thr) ==
      PlaceBucket(FirstFit(p, buckets[..k], rates, thr), buckets[k], rates[buckets[k]], thr)
  {
    assert buckets[..k + 1][..k] == buckets[..k];
  }

  /** Each recorded move points at a core whose bucket list holds it. */
  predicate MovesAgree(p: Plan)
  {
    forall b :: b in p.moves ==> 0 <= p.moves[b] < |p.cpu| && b in BucketsOf(p.mapping, p.moves[b])
  }

  /** One placement keeps the rates within the threshold and the moves in
      agreement with the bucket lists. */
  lemma PlaceBucketStep(p: Plan, b: int, rate: real, thr: real)
    requires MovesAgree(p)
    ensures var r := PlaceBucket(p, b, rate, thr);
      |r.cpu| == |p.cpu| &&
      (forall i :: 0 <= i < |p.cpu| ==> r.cpu[i] == p.cpu[i] || r.cpu[i] < thr) &&
      (rate >= 0.0 ==> forall i :: 0 <= i < |p.cpu| ==> r.cpu[i] >= p.cpu[i]) &&
      MovesAgree(r) &&
      (forall k :: k in r.moves ==> k in p.moves || k == b)
  {
    var r := PlaceBucket(p, b, rate, thr);
    PlaceBucketSpec(p, b, rate, thr);
    if exists i :: 0 <= i < |p.cpu| && p.cpu[i] + rate < thr {
      var i := FirstWhere(p.cpu, HasRoom(rate, thr));
      assert PlacedAt(p, b, rate, thr, i, r);
      forall k | k in r.moves
        ensures 0 <= r.moves[k] < |r.cpu| && k in BucketsOf(r.mapping, r.moves[k])
      {
        if k != b {
          assert r.moves[k] == p.moves[k];
          assert BucketsOf(p.mapping, p.moves[k]) <= BucketsOf(r.mapping, p.moves[k]);
        }
      }
    }
  }

  /** What first fit promises: no core is raised to the threshold or
      beyond, and with non-negative rates none loses load; every move
      names a core that lists the bucket, and only the given buckets are
      moved. */
  lemma {:induction false} FirstFitProperties(p: Plan, buckets: seq<int>, rates: seq<real>, thr: real)
    requires BucketsInRange(buckets, rates) && MovesAgree(p)
    ensures var r := FirstFit(p, buckets, rates, thr);
      |r.cpu| == |p.cpu| &&
      (forall i :: 0 <= i < |p.cpu| ==> r.cpu[i] == p.cpu[i] || r.cpu[i] < thr) &&
      ((forall k :: 0 <= k < |rates| ==> rates[k] >= 0.0) ==>
        forall i :: 0 <= i < |p.cpu| ==> r.cpu[i] >= p.cpu[i]) &&
      MovesAgree(r) &&
      (forall k :: k in r.moves ==> k in p.moves || k in buckets)
  {
    if buckets != [] {
      var init := buckets[..|buckets| - 1];
      var b := buckets[|buckets| - 1];
      assert BucketsInRange(init, rates);
      FirstFitProperties(p, init, rates, thr);
      var q := FirstFit(p, init, rates, thr);
      PlaceBucketStep(q, b, rates[b], thr);
      assert forall k :: k in init ==> k in buckets;
    }
  }

  /** The buckets of each core and the stored rate thresholds. */
  class BucketPlanner {
    const totalCoreCount: nat
    var coreBucketMapping: map<int, seq<int>>
    var threshold: map<int, int>

    constructor(totalCoreCount: nat, coreBucketMapping: map<int, seq<int>>, threshold: map<int, int>)
      ensures this.totalCoreCount == totalCoreCount
      ensures this.coreBucketMapping == coreBucketMapping && this.threshold == threshold
    {
      this.totalCoreCount := totalCoreCount;
      this.coreBucketMapping := coreBucketMapping;
      this.threshold := threshold;
    }

    /** The inner loop of `findMoves`: the first core whose rate stays below
        `threshold_[1000]` with the bucket added, or the core count. */
    method FirstCoreWithRoom(cpuRate: array<real>, flowRate: real) returns (i: nat)
      requires cpuRate.Length == totalCoreCount
      modifies this
      ensures threshold == if totalCoreCount > 0 then WithDefault(old(threshold), ThresholdKey) else old(threshold)
      ensures coreBucketMapping == old(coreBucketMapping) && cpuRate[..] == old(cpuRate[..])
      ensures i <= totalCoreCount
      ensures i < totalCoreCount ==> cpuRate[i] + flowRate < WithDefault(old(threshold), ThresholdKey)[ThresholdKey] as real
      ensures forall j :: 0 <= j < i ==> cpuRate[j] + flowRate >= WithDefault(old(threshold), ThresholdKey)[ThresholdKey] as real
    {
      ghost var thr := WithDefault(threshold, ThresholdKey)[ThresholdKey] as real;
      ghost var t0 := threshold;
      i := 0;
      while i < totalCoreCount
        invariant 0 <= i <= totalCoreCount
        invariant threshold == if i > 0 then WithDefault(t0, ThresholdKey) else t0
        invariant coreBucketMapping == old(coreBucketMapping)
        invariant forall j :: 0 <= j < i ==> cpuRate[j] + flowRate >= thr
      {
        if ThresholdKey !in threshold {
          threshold := threshold[ThresholdKey := 0];
        }
        if cpuRate[i] + flowRate < threshold[ThresholdKey] as real {
          return;
        }
        i := i + 1;
      }
    }

    /** `flow_rate_per_cpu[i] += flow_rate`. */
    static method Raise(cpuRate: array<real>, i: nat, rate: real)
      requires i < cpuRate.Length
      modifies cpuRate
      ensures cpuRate[..] == old(cpuRate[..])[i := old(cpuRate[..])[i] + rate]
    {
      cpuRate[i] := cpuRate[i] + rate;
    }

    /** One bucket of `findMoves`: the first core with room takes it, its
        rate is raised and the bucket joins its list; otherwise nothing
        changes. */
    method PlaceOne(cpuRate: array<real>, mapping: map<int, seq<int>>, moves: map<int, int>, it: int, flowRate: real)
      returns (mapping': map<int, seq<int>>, moves': map<int, int>)
      requires cpuRate.Length == totalCoreCount
      modifies this, cpuRate
      ensures threshold == if totalCoreCount > 0 then WithDefault(old(threshold), ThresholdKey) else old(threshold)
      ensures coreBucketMapping == old(coreBucketMapping)
      ensures Plan(cpuRate[..], mapping', moves') ==
        PlaceBucket(Plan(old(cpuRate[..]), mapping, moves), it, flowRate, WithDefault(old(threshold), ThresholdKey)[ThresholdKey] as real)
    {
      ghost var plan := Plan(cpuRate[..], mapping, moves);
      ghost var thr := WithDefault(threshold, ThresholdKey)[ThresholdKey] as real;
      var i := FirstCoreWithRoom(cpuRate, flowRate);
      PlaceBucketAt(plan, it, flowRate, thr, i);
      mapping', moves' := mapping, moves;
      if i < totalCoreCount {
        Raise(cpuRate, i, flowRate);
        moves' := moves[it := i];
        mapping' := mapping[i := BucketsOf(mapping, i) + [it]];
      }
    }

    /** `findMoves`: places the buckets in order on the per-CPU rate array
        and the bucket lists, and returns the moves made. */
    method FindMoves(cpuRate: array<real>, toBeMoved: seq<int>, ratePerBucket: seq<real>)
      returns (moves: map<int, int>)
      requires cpuRate.Length == totalCoreCount
      requires BucketsInRange(toBeMoved, ratePerBucket)
      modifies this, cpuRate
      ensures threshold == if |toBeMoved| > 0 && totalCoreCount > 0 then WithDefault(old(threshold), ThresholdKey) else old(threshold)
      ensures Plan(cpuRate[..], coreBucketMapping, moves) ==
        FirstFit(Plan(old(cpuRate[..]), old(coreBucketMapping), map[]), toBeMoved, ratePerBucket,
                 WithDefault(old(threshold), ThresholdKey)[ThresholdKey] as real)
    {
      ghost var p0 := Plan(cpuRate[..], coreBucketMapping, map[]);
      ghost var thr0 := WithDefault(threshold, ThresholdKey)[ThresholdKey] as real;
      ghost var t0 := threshold;
      var mapping := coreBucketMapping;
      moves := map[];
      var k := 0;
      while k < |toBeMoved|
        invariant 0 <= k <= |toBeMoved|
        invariant threshold == if k > 0 && totalCoreCount > 0 then WithDefault(t0, ThresholdKey) else t0
        invariant BucketsInRange(toBeMoved[..k], ratePerBucket)
        invariant Plan(cpuRate[..], mapping, moves) == FirstFit(p0, toBeMoved[..k], ratePerBucket, thr0)
      {
        FirstFitStep(p0, toBeMoved, k, ratePerBucket, thr0);
        var it := toBeMoved[k];
        mapping, moves := PlaceOne(cpuRate, mapping, moves, it, ratePerBucket[it]);
        k := k + 1;
      }
      coreBucketMapping := mapping;
      assert toBeMoved[..k] == toBeMoved;
    }
  }
}
