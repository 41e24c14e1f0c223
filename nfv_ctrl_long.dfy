// The long-term core allocator of the NFV controller.  Every long epoch it
// recomputes each core's packet rate and flow count from the shard
// (RSS bucket group) lists, drains cores the long-term capacity profile
// says are overloaded, packs the drained shards first-fit onto active
// cores (activating an idle core when none has room), and, when more than
// one core is active, tries to reclaim the least-loaded long-lived core by
// packing all of its shards elsewhere.  An on-demand variant halves one
// core's load by moving shards onto the least-loaded core.
module NfvCtrlLong {
  import opened Util

  // ---------------------------------------------------------------------
  // The long-term capacity profile: flow count -> sustainable packet rate.

  const DefaultMaxRate: int := 1000000
  const MigrateHeadRoom: real := 0.1
  const AssignHeadRoom: real := 0.2

  /** `GetMaxPktRateFromLongTermProfile`: the rate stored at the smallest
      flow count above fc, else the rate at the largest flow count; a
      default when the profile is empty. */
  function MaxRate(profile: map<int, int>, fc: int): int
  {
    if |profile| == 0 then DefaultMaxRate else Scan(profile, fc)
  }

  lemma KeysNonEmpty(profile: map<int, int>)
    requires |profile| > 0
    ensures profile.Keys != {}
  {
    assert |profile.Keys| == |profile|;
  }

  lemma RemoveKey(profile: map<int, int>, k: int)
    requires k in profile
    ensures |profile - {k}| == |profile| - 1
  {
    assert (profile - {k}).Keys == profile.Keys - {k};
  }

  /** The loop over the profile in ascending flow-count order: the first
      entry above fc answers; the last entry answers when none is above. */
  function Scan(profile: map<int, int>, fc: int): int
    requires |profile| > 0
    decreases |profile|
  {
    KeysNonEmpty(profile);
    var k := MinKey(profile.Keys);
    if k > fc || |profile| == 1 then profile[k]
    else
      RemoveKey(profile, k);
      Scan(profile - {k}, fc)
  }

  /** k is the smallest flow count of the profile above fc. */
  predicate LeastAbove(profile: map<int, int>, fc: int, k: int)
  {
    k in profile && k > fc && forall j :: j in profile && j > fc ==> k <= j
  }

  /** k is the largest flow count of the profile. */
  predicate LargestKey(profile: map<int, int>, k: int)
  {
    k in profile && forall j :: j in profile ==> j <= k
  }

  /** What the scan returns: the value at the least flow count above fc,
      or, when there is none, the value at the largest flow count. */
  lemma {:induction false} ScanSpec(profile: map<int, int>, fc: int)
    requires |profile| > 0
    ensures forall k :: LeastAbove(profile, fc, k) ==> Scan(profile, fc) == profile[k]
    ensures forall k :: LargestKey(profile, k) && k <= fc ==> Scan(profile, fc) == profile[k]
    ensures (exists k :: LeastAbove(profile, fc, k)) || (exists k :: LargestKey(profile, k) && k <= fc)
    decreases |profile|
  {
    KeysNonEmpty(profile);
    var k := MinKey(profile.Keys);
    if k > fc {
      assert LeastAbove(profile, fc, k);
      forall x | LeastAbove(profile, fc, x) ensures x == k {
        assert x <= k && k <= x;
      }
      forall x | LargestKey(profile, x) ensures x > fc {
        assert k <= x;
      }
    } else if |profile| == 1 {
      RemoveKey(profile, k);
      assert (profile - {k}).Keys == {};
      forall x | x in profile ensures x == k {
        assert x !in (profile - {k}).Keys;
      }
      assert LargestKey(profile, k);
      forall x | LargestKey(profile, x) ensures x == k {
      }
    } else {
      var rest := profile - {k};
      RemoveKey(profile, k);
      ScanSpec(rest, fc);
      forall x | LeastAbove(profile, fc, x) ensures LeastAbove(rest, fc, x) {
      }
      forall x | LeastAbove(rest, fc, x) ensures LeastAbove(profile, fc, x) {
        forall j | j in profile && j > fc ensures x <= j {
          assert j in rest;
        }
      }
      KeysNonEmpty(rest);
      var y := MinKey(rest.Keys);
      forall x | LargestKey(profile, x) ensures LargestKey(rest, x) {
        assert y <= x;
        assert k < y;
      }
      forall x | LargestKey(rest, x) ensures LargestKey(profile, x) {
        assert k <= y <= x;
        forall j | j in profile ensures j <= x {
          if j != k {
            assert j in rest;
          }
        }
      }
    }
  }

  /** What the lookup returns, as the ordered-map scan promises. */
  lemma MaxRateSpec(profile: map<int, int>, fc: int)
    ensures |profile| == 0 ==> MaxRate(profile, fc) == DefaultMaxRate
    ensures forall k :: LeastAbove(profile, fc, k) ==> MaxRate(profile, fc) == profile[k]
    ensures forall k :: LargestKey(profile, k) && k <= fc ==> MaxRate(profile, fc) == profile[k]
    ensures |profile| > 0 ==>
      (exists k :: LeastAbove(profile, fc, k)) || (exists k :: LargestKey(profile, k) && k <= fc)
  {
    if |profile| > 0 {
      ScanSpec(profile, fc);
    }
  }

  // ---------------------------------------------------------------------
  // The per-core bookkeeping the allocator updates.

  /** What stays fixed during one optimisation: which core slots hold a
      normal core (`nfv_cores[i]` non-null), the capacity lookup (the
      long-term profile, `CapOf(profile)`), and the per-shard packet rates
      and flow counts. */
  datatype Env = Env(nfv: seq<bool>, cap: int -> int, shardRate: seq<int>, shardFlow: seq<int>)

  /** `GetMaxPktRateFromLongTermProfile` over a given profile. */
  function CapOf(profile: map<int, int>): int -> int
  {
    fc => MaxRate(profile, fc)
  }

  /** The per-core packet rate and flow count vectors, `core_state`,
      `core_liveness`, `active_core_count_` and `core_shard_mapping_`. */
  datatype Cores = Cores(rate: seq<int>, flow: seq<int>, state: seq<bool>, liveness: seq<int>,
                         active: int, mapping: seq<seq<int>>)

  predicate Sized(env: Env, c: Cores)
  {
    |c.rate| == |env.nfv| && |c.flow| == |env.nfv| && |c.state| == |env.nfv| &&
    |c.liveness| == |env.nfv| && |c.mapping| == |env.nfv|
  }

  /** s indexes both per-shard vectors. */
  predicate ShardOk(env: Env, s: int)
  {
    0 <= s < |env.shardRate| && s < |env.shardFlow|
  }

  predicate ShardsOk(env: Env, shards: seq<int>)
  {
    forall k :: 0 <= k < |shards| ==> ShardOk(env, shards[k])
  }

  predicate Distinct(s: seq<int>)
  {
    forall i, j :: 0 <= i < j < |s| ==> s[i] != s[j]
  }

  /** Core i is a normal core in use whose rate, with the shard added,
      stays below 80% of what the profile allows at the combined flow
      count. */
  predicate Fits(env: Env, c: Cores, i: int, s: int)
    requires Sized(env, c) && 0 <= i < |env.nfv| && ShardOk(env, s)
  {
    env.nfv[i] && c.state[i] &&
    ((c.rate[i] + env.shardRate[s]) as real) <
      (env.cap(c.flow[i] + env.shardFlow[s]) as real) * (1.0 - AssignHeadRoom)
  }

  /** Core i is a normal core not in use. */
  predicate Idle(env: Env, c: Cores, i: int)
    requires Sized(env, c) && 0 <= i < |env.nfv|
  {
    env.nfv[i] && !c.state[i]
  }

  /** The first core at or after `from` that fits the shard, or the core
      count. */
  function FirstFitting(env: Env, c: Cores, s: int, from: nat): (i: nat)
    requires Sized(env, c) && ShardOk(env, s) && from <= |env.nfv|
    ensures from <= i <= |env.nfv|
    decreases |env.nfv| - from
  {
    if from == |env.nfv| then from
    else if Fits(env, c, from, s) then from
    else FirstFitting(env, c, s, from + 1)
  }

  lemma {:induction false} FirstFittingSpec(env: Env, c: Cores, s: int, from: nat)
    requires Sized(env, c) && ShardOk(env, s) && from <= |env.nfv|
    ensures var i := FirstFitting(env, c, s, from);
      (i < |env.nfv| ==> Fits(env, c, i, s)) &&
      forall j :: from <= j < i ==> !Fits(env, c, j, s)
    decreases |env.nfv| - from
  {
    if from < |env.nfv| && !Fits(env, c, from, s) {
      FirstFittingSpec(env, c, s, from + 1);
    }
  }

  /** The first idle normal core at or after `from`, or the core count. */
  function FirstIdle(env: Env, c: Cores, from: nat): (i: nat)
    requires Sized(env, c) && from <= |env.nfv|
    ensures from <= i <= |env.nfv|
    decreases |env.nfv| - from
  {
    if from == |env.nfv| then from
    else if Idle(env, c, from) then from
    else FirstIdle(env, c, from + 1)
  }

  lemma {:induction false} FirstIdleSpec(env: Env, c: Cores, from: nat)
    requires Sized(env, c) && from <= |env.nfv|
    ensures var i := FirstIdle(env, c, from);
      (i < |env.nfv| ==> Idle(env, c, i)) &&
      forall j :: from <= j < i ==> !Idle(env, c, j)
    decreases |env.nfv| - from
  {
    if from < |env.nfv| && !Idle(env, c, from) {
      FirstIdleSpec(env, c, from + 1);
    }
  }

  /** Core i takes shard s: its totals grow by the shard's and the shard
      joins its list. */
  function AddShard(env: Env, c: Cores, i: int, s: int): Cores
    requires Sized(env, c) && 0 <= i < |env.nfv| && ShardOk(env, s)
  {
    c.(rate := c.rate[i := c.rate[i] + env.shardRate[s]],
       flow := c.flow[i := c.flow[i] + env.shardFlow[s]],
       mapping := c.mapping[i := c.mapping[i] + [s]])
  }

  /** Core i is put in use with liveness 1. */
  function Activate(c: Cores, i: int): Cores
    requires 0 <= i < |c.state| && i < |c.liveness|
  {
    c.(state := c.state[i := true], liveness := c.liveness[i := 1], active := c.active + 1)
  }

  /** Where one shard went, if anywhere. */
  datatype Placement = Placement(cores: Cores, core: Option<int>)

  /** One shard of `FindMoves`: the first core in use with room takes it;
      failing that, the first idle normal core is activated and takes it;
      failing that, it is skipped. */
  function PlaceShard(env: Env, c: Cores, s: int): (p: Placement)
    requires Sized(env, c) && ShardOk(env, s)
    ensures Sized(env, p.cores)
  {
    var i := FirstFitting(env, c, s, 0);
    if i < |env.nfv| then Placement(AddShard(env, c, i, s), Some(i))
    else
      var j := FirstIdle(env, c, 0);
      if j < |env.nfv| then Placement(Activate(AddShard(env, c, j, s), j), Some(j))
      else Placement(c, None)
  }

  /** A shard placed on a core in use goes to the first one with room and
      changes only that core's totals and list. */
  lemma PlaceShardOnActive(env: Env, c: Cores, s: int)
    requires Sized(env, c) && ShardOk(env, s)
    requires exists j :: 0 <= j < |env.nfv| && Fits(env, c, j, s)
    ensures var p := PlaceShard(env, c, s);
      p.core.Some? && var i := p.core.value;
      0 <= i < |env.nfv| && Fits(env, c, i, s) &&
      (forall j :: 0 <= j < i ==> !Fits(env, c, j, s)) &&
      p.cores == AddShard(env, c, i, s)
  {
    FirstFittingSpec(env, c, s, 0);
    var j :| 0 <= j < |env.nfv| && Fits(env, c, j, s);
    assert FirstFitting(env, c, s, 0) <= j;
  }

  /** With no core in use having room, the first idle normal core is
      activated (in use, liveness 1, one more active core) and takes it. */
  lemma PlaceShardOnIdle(env: Env, c: Cores, s: int)
    requires Sized(env, c) && ShardOk(env, s)
    requires forall j :: 0 <= j < |env.nfv| ==> !Fits(env, c, j, s)
    requires exists j :: 0 <= j < |env.nfv| && Idle(env, c, j)
    ensures var p := PlaceShard(env, c, s);
      p.core.Some? && var i := p.core.value;
      0 <= i < |env.nfv| && Idle(env, c, i) &&
      (forall j :: 0 <= j < i ==> !Idle(env, c, j)) &&
      p.cores == Activate(AddShard(env, c, i, s), i)
  {
    FirstFittingSpec(env, c, s, 0);
    FirstIdleSpec(env, c, 0);
    var j :| 0 <= j < |env.nfv| && Idle(env, c, j);
    assert FirstIdle(env, c, 0) <= j;
  }

  /** A shard is skipped exactly when no core in use has room and no
      normal core is idle, and then nothing changes. */
  lemma PlaceShardSkipped(env: Env, c: Cores, s: int)
    requires Sized(env, c) && ShardOk(env, s)
    ensures var p := PlaceShard(env, c, s);
      p.core.None? <==> forall j :: 0 <= j < |env.nfv| ==> !Fits(env, c, j, s) && !Idle(env, c, j)
    ensures PlaceShard(env, c, s).core.None? ==> PlaceShard(env, c, s).cores == c
  {
    FirstFittingSpec(env, c, s, 0);
    FirstIdleSpec(env, c, 0);
  }

  // ---------------------------------------------------------------------
  // Totals that agree with the shard lists.

  function SumRate(env: Env, shards: seq<int>): int
    requires ShardsOk(env, shards)
  {
    if shards == [] then 0
    else
      assert ShardsOk(env, shards[..|shards| - 1]);
      SumRate(env, shards[..|shards| - 1]) + env.shardRate[shards[|shards| - 1]]
  }

  function SumFlow(env: Env, shards: seq<int>): int
    requires ShardsOk(env, shards)
  {
    if shards == [] then 0
    else
      assert ShardsOk(env, shards[..|shards| - 1]);
      SumFlow(env, shards[..|shards| - 1]) + env.shardFlow[shards[|shards| - 1]]
  }

  lemma SumSnoc(env: Env, shards: seq<int>, s: int)
    requires ShardsOk(env, shards) && ShardOk(env, s)
    ensures ShardsOk(env, shards + [s])
    ensures SumRate(env, shards + [s]) == SumRate(env, shards) + env.shardRate[s]
    ensures SumFlow(env, shards + [s]) == SumFlow(env, shards) + env.shardFlow[s]
  {
    assert (shards + [s])[..|shards|] == shards;
  }

  /** Every listed shard is valid and each core's rate and flow count are
      the sums over its list. */
  predicate Consistent(env: Env, c: Cores)
  {
    Sized(env, c) &&
    forall i :: 0 <= i < |env.nfv| ==>
      ShardsOk(env, c.mapping[i]) &&
      c.rate[i] == SumRate(env, c.mapping[i]) && c.flow[i] == SumFlow(env, c.mapping[i])
  }

  lemma AddShardConsistent(env: Env, c: Cores, i: int, s: int)
    requires Consistent(env, c) && 0 <= i < |env.nfv| && ShardOk(env, s)
    ensures Consistent(env, AddShard(env, c, i, s))
  {
    SumSnoc(env, c.mapping[i], s);
  }

  /** The number of cores in use. */
  function CountTrue(a: seq<bool>): nat
  {
    if a == [] then 0 else CountTrue(a[..|a| - 1]) + (if a[|a| - 1] then 1 else 0)
  }

  lemma {:induction false} CountTrueSet(a: seq<bool>, i: int)
    requires 0 <= i < |a| && !a[i]
    ensures CountTrue(a[i := true]) == CountTrue(a) + 1
  {
    var b := a[i := true];
    if i < |a| - 1 {
      assert b[..|b| - 1] == a[..|a| - 1][i := true];
      CountTrueSet(a[..|a| - 1], i);
    } else {
      assert b[..|b| - 1] == a[..|a| - 1];
    }
  }

  /** Taking cores out of use never raises the count; taking none out
      keeps it, and the count is equal only when the flags are. */
  lemma {:induction false} CountTrueMono(a: seq<bool>, b: seq<bool>)
    requires |a| == |b| && forall i :: 0 <= i < |a| && a[i] ==> b[i]
    ensures CountTrue(a) <= CountTrue(b)
    ensures CountTrue(a) == CountTrue(b) ==> a == b
  {
    if a != [] {
      var n := |a| - 1;
      CountTrueMono(a[..n], b[..n]);
      if CountTrue(a) == CountTrue(b) {
        assert a == a[..n] + [a[n]] && b == b[..n] + [b[n]];
      }
    }
  }

  /** Cores only ever go into use, and `active_core_count_` moves with
      the number of cores in use. */
  predicate Grows(c: Cores, d: Cores)
  {
    |d.state| == |c.state| && |d.mapping| == |c.mapping| &&
    (forall i :: 0 <= i < |c.state| ==> c.state[i] ==> d.state[i]) &&
    (forall i :: 0 <= i < |c.mapping| ==> c.mapping[i] <= d.mapping[i]) &&
    d.active - CountTrue(d.state) == c.active - CountTrue(c.state)
  }

  lemma InPrefix(a: seq<int>, b: seq<int>, x: int)
    requires a <= b && x in a
    ensures x in b
  {
    var i :| 0 <= i < |a| && a[i] == x;
    assert b[i] == x;
  }

  lemma GrowsTrans(c: Cores, d: Cores, e: Cores)
    requires Grows(c, d) && Grows(d, e)
    ensures Grows(c, e)
  {
    forall i | 0 <= i < |c.mapping| ensures c.mapping[i] <= e.mapping[i] {
      var a, b, x := c.mapping[i], d.mapping[i], e.mapping[i];
      assert forall j :: 0 <= j < |a| ==> a[j] == b[j] == x[j];
    }
  }

  /** One placement only appends to lists and activates at most the core
      it chose. */
  lemma PlaceShardGrows(env: Env, c: Cores, s: int)
    requires Sized(env, c) && ShardOk(env, s)
    ensures Grows(c, PlaceShard(env, c, s).cores)
  {
    var p := PlaceShard(env, c, s);
    PlaceShardSkipped(env, c, s);
    if exists j :: 0 <= j < |env.nfv| && Fits(env, c, j, s) {
      PlaceShardOnActive(env, c, s);
    } else if exists j :: 0 <= j < |env.nfv| && Idle(env, c, j) {
      PlaceShardOnIdle(env, c, s);
      CountTrueSet(c.state, p.core.value);
    }
  }

  /** One placement keeps the totals consistent with the lists. */
  lemma PlaceShardConsistent(env: Env, c: Cores, s: int)
    requires Consistent(env, c) && ShardOk(env, s)
    ensures Consistent(env, PlaceShard(env, c, s).cores)
  {
    var p := PlaceShard(env, c, s);
    PlaceShardSkipped(env, c, s);
    if exists j :: 0 <= j < |env.nfv| && Fits(env, c, j, s) {
      PlaceShardOnActive(env, c, s);
      AddShardConsistent(env, c, p.core.value, s);
    } else if exists j :: 0 <= j < |env.nfv| && Idle(env, c, j) {
      PlaceShardOnIdle(env, c, s);
      AddShardConsistent(env, c, p.core.value, s);
    }
  }

  /** The chosen core is a normal core, now in use, whose list gained the
      shard; every other core keeps its list and liveness. */
  lemma PlaceShardWhere(env: Env, c: Cores, s: int)
    requires Sized(env, c) && ShardOk(env, s)
    ensures var p := PlaceShard(env, c, s);
      (p.core.Some? ==> 0 <= p.core.value < |env.nfv| && env.nfv[p.core.value] &&
                        p.cores.mapping[p.core.value] == c.mapping[p.core.value] + [s] &&
                        p.cores.state[p.core.value]) &&
      (forall i :: 0 <= i < |env.nfv| && (p.core.None? || i != p.core.value) ==>
         p.cores.mapping[i] == c.mapping[i] && p.cores.liveness[i] == c.liveness[i])
  {
    var p := PlaceShard(env, c, s);
    PlaceShardSkipped(env, c, s);
    if exists j :: 0 <= j < |env.nfv| && Fits(env, c, j, s) {
      PlaceShardOnActive(env, c, s);
    } else if exists j :: 0 <= j < |env.nfv| && Idle(env, c, j) {
      PlaceShardOnIdle(env, c, s);
    }
  }

  /** The moves `FindMoves` returns, the shards it skips, and the cores
      afterwards. */
  datatype Packing = Packing(cores: Cores, moves: map<int, int>, skipped: seq<int>)

  /** `FindMoves` over the shards in order. */
  function Pack(env: Env, c: Cores, shards: seq<int>): (r: Packing)
    requires Sized(env, c) && ShardsOk(env, shards)
    ensures Sized(env, r.cores)
  {
    if shards == [] then Packing(c, map[], [])
    else
      assert ShardsOk(env, shards[..|shards| - 1]);
      var r := Pack(env, c, shards[..|shards| - 1]);
      var s := shards[|shards| - 1];
      var p := PlaceShard(env, r.cores, s);
      if p.core.Some? then Packing(p.cores, r.moves[s := p.core.value], r.skipped)
      else Packing(p.cores, r.moves, r.skipped + [s])
  }

  lemma PackStep(env: Env, c: Cores, shards: seq<int>, k: int)
    requires Sized(env, c) && ShardsOk(env, shards) && 0 <= k < |shards|
    ensures ShardsOk(env, shards[..k]) && ShardsOk(env, shards[..k + 1])
    ensures var r := Pack(env, c, shards[..k]);
      var p := PlaceShard(env, r.cores, shards[k]);
      Pack(env, c, shards[..k + 1]) ==
        if p.core.Some? then Packing(p.cores, r.moves[shards[k] := p.core.value], r.skipped)
        else Packing(p.cores, r.moves, r.skipped + [shards[k]])
  {
    assert shards[..k + 1][..k] == shards[..k];
  }

  /** Packing only appends to lists and keeps `active_core_count_` in
      step with the cores in use. */
  lemma {:induction false} PackGrows(env: Env, c: Cores, shards: seq<int>)
    requires Sized(env, c) && ShardsOk(env, shards)
    ensures Grows(c, Pack(env, c, shards).cores)
  {
    if shards != [] {
      var init := shards[..|shards| - 1];
      assert ShardsOk(env, init);
      PackGrows(env, c, init);
      var r := Pack(env, c, init);
      PlaceShardGrows(env, r.cores, shards[|shards| - 1]);
      GrowsTrans(c, r.cores, PlaceShard(env, r.cores, shards[|shards| - 1]).cores);
    }
  }

  /** Packing keeps the totals consistent with the lists. */
  lemma {:induction false} PackConsistent(env: Env, c: Cores, shards: seq<int>)
    requires Consistent(env, c) && ShardsOk(env, shards)
    ensures Consistent(env, Pack(env, c, shards).cores)
  {
    if shards != [] {
      var init := shards[..|shards| - 1];
      assert ShardsOk(env, init);
      PackConsistent(env, c, init);
      PlaceShardConsistent(env, Pack(env, c, init).cores, shards[|shards| - 1]);
    }
  }

  /** Every shard given ends up moved or skipped, and (the shards being
      distinct) not both; only given shards appear. */
  predicate Covers(shards: seq<int>, r: Packing)
  {
    (forall k :: k in r.moves ==> k in shards) &&
    (forall k :: k in r.skipped ==> k in shards) &&
    (forall k :: k in shards ==> k in r.moves || k in r.skipped) &&
    (Distinct(shards) ==> forall k :: k in r.moves ==> k !in r.skipped)
  }

  lemma {:induction false} PackCovers(env: Env, c: Cores, shards: seq<int>)
    requires Sized(env, c) && ShardsOk(env, shards)
    ensures Covers(shards, Pack(env, c, shards))
  {
    if shards != [] {
      var init := shards[..|shards| - 1];
      var s := shards[|shards| - 1];
      assert ShardsOk(env, init);
      PackCovers(env, c, init);
      assert forall k :: k in init ==> k in shards;
      assert shards == init + [s];
      if Distinct(shards) {
        assert Distinct(init);
        assert s !in init;
      }
    }
  }

  /** Every move names a normal core in use whose list holds the shard. */
  predicate Landed(env: Env, r: Packing)
    requires Sized(env, r.cores)
  {
    forall k :: k in r.moves ==> 0 <= r.moves[k] < |env.nfv| && env.nfv[r.moves[k]] &&
                                 r.cores.state[r.moves[k]] && k in r.cores.mapping[r.moves[k]]
  }

  lemma {:induction false} PackTargets(env: Env, c: Cores, shards: seq<int>)
    requires Sized(env, c) && ShardsOk(env, shards)
    ensures Landed(env, Pack(env, c, shards))
  {
    if shards != [] {
      var init := shards[..|shards| - 1];
      var s := shards[|shards| - 1];
      assert ShardsOk(env, init);
      PackTargets(env, c, init);
      var r := Pack(env, c, init);
      PlaceShardWhere(env, r.cores, s);
      PlaceShardGrows(env, r.cores, s);
      var p := PlaceShard(env, r.cores, s);
      forall k | k in r.moves && k != s
        ensures p.cores.state[r.moves[k]] && k in p.cores.mapping[r.moves[k]]
      {
        var i := r.moves[k];
        InPrefix(r.cores.mapping[i], p.cores.mapping[i], k);
      }
    }
  }

  // ---------------------------------------------------------------------
  // `LongTermOptimization`, stage by stage.

  predicate MappingOk(env: Env, mapping: seq<seq<int>>)
  {
    forall i :: 0 <= i < |mapping| ==> ShardsOk(env, mapping[i])
  }

  /** The number of cores with at least one shard. */
  function NonEmptyCount(mapping: seq<seq<int>>): nat
  {
    if mapping == [] then 0
    else NonEmptyCount(mapping[..|mapping| - 1]) + (if |mapping[|mapping| - 1]| > 0 then 1 else 0)
  }

  /** The first loop: every core's totals are the sums over its shards; a
      core with shards is marked in use and ages by one long epoch;
      `active_core_count_` counts the cores with shards.  A core in use
      with no shards stays in use. */
  function Totals(env: Env, state: seq<bool>, liveness: seq<int>, mapping: seq<seq<int>>): (c: Cores)
    requires |state| == |env.nfv| && |liveness| == |env.nfv| && |mapping| == |env.nfv|
    requires MappingOk(env, mapping)
    ensures Consistent(env, c)
  {
    var n := |env.nfv|;
    Cores(seq(n, i requires 0 <= i < n => SumRate(env, mapping[i])),
          seq(n, i requires 0 <= i < n => SumFlow(env, mapping[i])),
          seq(n, i requires 0 <= i < n => state[i] || |mapping[i]| > 0),
          seq(n, i requires 0 <= i < n => if |mapping[i]| > 0 then liveness[i] + 1 else liveness[i]),
          NonEmptyCount(mapping),
          mapping)
  }

  /** The first loop has handled cores 0 .. i-1 and not yet the rest. */
  predicate TotalledUpTo(env: Env, state: seq<bool>, liveness: seq<int>, mapping: seq<seq<int>>, c: Cores, i: int)
    requires |state| == |env.nfv| && |liveness| == |env.nfv| && |mapping| == |env.nfv|
    requires MappingOk(env, mapping) && Sized(env, c) && 0 <= i <= |env.nfv|
  {
    (forall j :: 0 <= j < i ==>
       c.rate[j] == SumRate(env, mapping[j]) && c.flow[j] == SumFlow(env, mapping[j]) &&
       c.state[j] == (state[j] || |mapping[j]| > 0) &&
       c.liveness[j] == (if |mapping[j]| > 0 then liveness[j] + 1 else liveness[j])) &&
    (forall j :: i <= j < |env.nfv| ==>
       c.rate[j] == 0 && c.flow[j] == 0 && c.state[j] == state[j] && c.liveness[j] == liveness[j]) &&
    c.active == NonEmptyCount(mapping[..i])
  }

  lemma TotalledStep(env: Env, state: seq<bool>, liveness: seq<int>, mapping: seq<seq<int>>, c: Cores, i: int,
                     r: int, f: int, st: bool, l: int, inc: int)
    requires |state| == |env.nfv| && |liveness| == |env.nfv| && |mapping| == |env.nfv|
    requires MappingOk(env, mapping) && Sized(env, c) && 0 <= i < |env.nfv|
    requires TotalledUpTo(env, state, liveness, mapping, c, i)
    requires r == SumRate(env, mapping[i]) && f == SumFlow(env, mapping[i])
    requires st == (c.state[i] || |mapping[i]| > 0)
    requires l == (if |mapping[i]| > 0 then c.liveness[i] + 1 else c.liveness[i])
    requires inc == (if |mapping[i]| > 0 then 1 else 0)
    ensures TotalledUpTo(env, state, liveness, mapping,
      Cores(c.rate[i := r], c.flow[i := f], c.state[i := st], c.liveness[i := l], c.active + inc, c.mapping), i + 1)
  {
    assert mapping[..i + 1][..i] == mapping[..i];
  }

  lemma TotalsAt(env: Env, state: seq<bool>, liveness: seq<int>, mapping: seq<seq<int>>)
    requires |state| == |env.nfv| && |liveness| == |env.nfv| && |mapping| == |env.nfv|
    requires MappingOk(env, mapping)
    ensures var t := Totals(env, state, liveness, mapping);
      t.active == NonEmptyCount(mapping) && t.mapping == mapping &&
      forall j :: 0 <= j < |env.nfv| ==>
        t.rate[j] == SumRate(env, mapping[j]) && t.flow[j] == SumFlow(env, mapping[j]) &&
        t.state[j] == (state[j] || |mapping[j]| > 0) &&
        t.liveness[j] == (if |mapping[j]| > 0 then liveness[j] + 1 else liveness[j])
  {
  }

  /** Core i carries more than 90% of what the profile allows at its flow
      count. */
  predicate Overloaded(env: Env, c: Cores, i: int)
    requires Sized(env, c) && 0 <= i < |env.nfv|
  {
    (c.rate[i] as real) > (env.cap(c.flow[i]) as real) * (1.0 - MigrateHeadRoom)
  }

  /** The drain's accumulators: the cores, `to_move_shards` and
      `to_move_shards_to_cores`. */
  datatype Drained = Drained(cores: Cores, toMove: seq<int>, origin: map<int, int>)

  /** `to_move_shards_to_cores.emplace(b, i)`: an existing entry is kept. */
  function Emplace(origin: map<int, int>, b: int, i: int): map<int, int>
  {
    if b in origin then origin else origin[b := i]
  }

  /** Core i's last shard comes off its list, its totals drop by that
      shard's, and its liveness is reset to 1. */
  function PopLast(env: Env, c: Cores, i: int): (r: Cores)
    requires Sized(env, c) && MappingOk(env, c.mapping) && 0 <= i < |env.nfv| && |c.mapping[i]| > 0
    ensures Sized(env, r) && MappingOk(env, r.mapping)
    ensures |r.mapping[i]| == |c.mapping[i]| - 1
  {
    var m := c.mapping[i];
    var b := m[|m| - 1];
    assert ShardOk(env, b) && ShardsOk(env, m[..|m| - 1]);
    c.(rate := c.rate[i := c.rate[i] - env.shardRate[b]],
       flow := c.flow[i := c.flow[i] - env.shardFlow[b]],
       liveness := c.liveness[i := 1],
       mapping := c.mapping[i := m[..|m| - 1]])
  }

  /** One turn of the drain loop on core i: its last shard is taken off,
      queued for moving and remembered as coming from core i. */
  function PopShard(env: Env, d: Drained, i: int): (r: Drained)
    requires Sized(env, d.cores) && MappingOk(env, d.cores.mapping) && 0 <= i < |env.nfv|
    requires |d.cores.mapping[i]| > 0
    ensures Sized(env, r.cores) && MappingOk(env, r.cores.mapping)
  {
    var b := d.cores.mapping[i][|d.cores.mapping[i]| - 1];
    Drained(PopLast(env, d.cores, i), d.toMove + [b], Emplace(d.origin, b, i))
  }

  /** The drain loop of one core: shards come off while it is overloaded
      and has shards. */
  function DrainCore(env: Env, d: Drained, i: int): (r: Drained)
    requires Sized(env, d.cores) && MappingOk(env, d.cores.mapping) && 0 <= i < |env.nfv|
    ensures Sized(env, r.cores) && MappingOk(env, r.cores.mapping)
    decreases |d.cores.mapping[i]|
  {
    if Overloaded(env, d.cores, i) && |d.cores.mapping[i]| > 0 then
      DrainCore(env, PopShard(env, d, i), i)
    else d
  }

  /** The drain over cores 0 .. k-1, skipping cores not in use. */
  function DrainAll(env: Env, d: Drained, k: nat): (r: Drained)
    requires Sized(env, d.cores) && MappingOk(env, d.cores.mapping) && k <= |env.nfv|
    ensures Sized(env, r.cores) && MappingOk(env, r.cores.mapping)
  {
    if k == 0 then d
    else
      var r := DrainAll(env, d, k - 1);
      if r.cores.state[k - 1] then DrainCore(env, r, k - 1) else r
  }

  /** `to_move_shards_to_cores[shard]`, with `operator[]`'s default. */
  function OriginOf(origin: map<int, int>, s: int): int
  {
    if s in origin then origin[s] else 0
  }

  /** Every remembered origin is a core. */
  predicate OriginsOk(env: Env, origin: map<int, int>)
  {
    forall b :: b in origin ==> 0 <= origin[b] < |env.nfv|
  }

  /** The skipped shards go back to the cores their origin entries name,
      which `SkippedGoHome` shows are the cores they came from. */
  function PutBack(env: Env, c: Cores, skipped: seq<int>, origin: map<int, int>): (r: Cores)
    requires Sized(env, c) && ShardsOk(env, skipped) && OriginsOk(env, origin)
    requires forall k :: 0 <= k < |skipped| ==> skipped[k] in origin
    ensures Sized(env, r)
  {
    if skipped == [] then c
    else
      assert ShardsOk(env, skipped[..|skipped| - 1]);
      var r := PutBack(env, c, skipped[..|skipped| - 1], origin);
      var s := skipped[|skipped| - 1];
      AddShard(env, r, OriginOf(origin, s), s)
  }

  const ReclaimLiveness: int := 4
  const ReclaimTrialRate: int := 100000000

  /** A core in use that has lived more than 4 long epochs. */
  predicate Reclaimable(c: Cores, i: int)
    requires 0 <= i < |c.state| && i < |c.liveness|
  {
    c.state[i] && c.liveness[i] > ReclaimLiveness
  }

  /** The first reclaimable core of lowest rate among cores 0 .. k-1. */
  function MinRateCore(env: Env, c: Cores, k: nat): (r: Option<int>)
    requires Sized(env, c) && k <= |env.nfv|
    ensures r.Some? ==> 0 <= r.value < k
  {
    if k == 0 then None
    else
      var m := MinRateCore(env, c, k - 1);
      if !Reclaimable(c, k - 1) then m
      else if m.None? then Some(k - 1)
      else if c.rate[k - 1] < c.rate[m.value] then Some(k - 1)
      else m
  }

  lemma {:induction false} MinRateCoreSpec(env: Env, c: Cores, k: nat)
    requires Sized(env, c) && k <= |env.nfv|
    ensures var r := MinRateCore(env, c, k);
      (r.None? <==> forall j :: 0 <= j < k ==> !Reclaimable(c, j)) &&
      (r.Some? ==>
        (Reclaimable(c, r.value) &&
         (forall j :: 0 <= j < k && Reclaimable(c, j) ==> c.rate[r.value] <= c.rate[j]) &&
         (forall j :: 0 <= j < r.value && Reclaimable(c, j) ==> c.rate[r.value] < c.rate[j])))
  {
    if k > 0 {
      MinRateCoreSpec(env, c, k - 1);
    }
  }

  /** One turn of the undo loop: the trial move of shard s is undone by
      taking the last shard off the target core's list and the shard's
      rate and flow count off its totals. */
  function UndoMove(env: Env, c: Cores, s: int, i: int): (r: Cores)
    requires Sized(env, c) && ShardOk(env, s) && 0 <= i < |env.nfv|
    ensures Sized(env, r)
  {
    var m := c.mapping[i];
    c.(rate := c.rate[i := c.rate[i] - env.shardRate[s]],
       flow := c.flow[i := c.flow[i] - env.shardFlow[s]],
       mapping := c.mapping[i := if |m| > 0 then m[..|m| - 1] else m])
  }

  /** The undo loop over the trial moves in ascending shard order. */
  function Undo(env: Env, c: Cores, keys: seq<int>, tmp: map<int, int>): (r: Cores)
    requires Sized(env, c) && OriginsOk(env, tmp) && ShardsOk(env, keys)
    requires forall k :: 0 <= k < |keys| ==> keys[k] in tmp
    ensures Sized(env, r)
    decreases |keys|
  {
    if keys == [] then c
    else
      assert ShardsOk(env, keys[1..]);
      Undo(env, UndoMove(env, c, keys[0], tmp[keys[0]]), keys[1..], tmp)
  }

  /** What `LongTermOptimization` leaves behind: the controller's state
      (in `cores`; its rate and flow vectors are the function's locals)
      and the moves it returns. */
  datatype LtResult = LtResult(cores: Cores, moves: map<int, int>)

  /** The packing trial on the minimum-rate core `m`: its rate is set to
      100000000 so that no shard fits back onto it, and its shards are
      packed onto the other cores. */
  function Trial(env: Env, c: Cores, m: int): (r: Packing)
    requires Consistent(env, c) && 0 <= m < |env.nfv|
    ensures Sized(env, r.cores)
  {
    Pack(env, c.(rate := c.rate[m := ReclaimTrialRate]), c.mapping[m])
  }

  /** The trial failed: it took a new core into use, skipped a shard, or
      moved fewer shards than core m held. */
  predicate TrialFailed(c: Cores, m: int, r: Packing)
    requires 0 <= m < |c.mapping|
  {
    r.cores.active > c.active || |r.skipped| > 0 || |r.moves| != |c.mapping[m]|
  }

  /** The lowest-rate candidate for reclaiming, when there is one whose
      rate is at most half of what the profile allows it. */
  function ReclaimTarget(env: Env, c: Cores): (r: Option<int>)
    requires Sized(env, c)
    ensures r.Some? ==> 0 <= r.value < |env.nfv|
  {
    if c.active == 1 then None
    else
      var m := MinRateCore(env, c, |env.nfv|);
      if m.None? || c.rate[m.value] > env.cap(c.flow[m.value]) / 2 then None
      else m
  }

  /** The source's undo of a failed trial on core m: the trial's cores with
      core m's rate restored and every trial move, in ascending shard
      order, popped off its target core's list. */
  function UndoTrial(env: Env, c: Cores, m: int): (u: Cores)
    requires Consistent(env, c) && 0 <= m < |env.nfv|
    ensures Sized(env, u)
  {
    var c' := c.(rate := c.rate[m := ReclaimTrialRate]);
    var r := Trial(env, c, m);
    PackCovers(env, c', c.mapping[m]);
    PackTargets(env, c', c.mapping[m]);
    var keys := SortedKeys(r.moves.Keys);
    assert ShardsOk(env, keys) by {
      forall k | 0 <= k < |keys| ensures ShardOk(env, keys[k]) {
        assert keys[k] in r.moves;
      }
    }
    Undo(env, r.cores.(rate := r.cores.rate[m := c.rate[m]]), keys, r.moves)
  }

  /** The reclaim step as the source writes it: on a failed trial the
      rate of core m is restored and every trial move is popped off its
      target core's list, but a core the trial took into use stays in
      use (with liveness 1) and `active_core_count_` keeps counting it. */
  function Reclaim(env: Env, c: Cores, shardMoves: map<int, int>): (r: LtResult)
    requires Consistent(env, c)
    ensures Sized(env, r.cores)
  {
    var t := ReclaimTarget(env, c);
    if t.None? then LtResult(c, shardMoves)
    else
      var m := t.value;
      var r := Trial(env, c, m);
      if TrialFailed(c, m, r) then LtResult(UndoTrial(env, c, m), shardMoves)
      else LtResult(Release(r.cores, m), shardMoves + r.moves)
  }

  /** Core m is emptied and taken out of use. */
  function Release(c: Cores, m: int): (r: Cores)
    requires 0 <= m < |c.mapping| && m < |c.state|
    ensures |r.mapping| == |c.mapping| && |r.state| == |c.state|
    ensures r.mapping[m] == [] && !r.state[m] && r.active == c.active - 1
  {
    c.(mapping := c.mapping[m := []], state := c.state[m := false], active := c.active - 1)
  }

  /** The reclaim step corrected: a failed trial leaves the controller's
      state as it was before the trial. */
  function ReclaimCorrected(env: Env, c: Cores, shardMoves: map<int, int>): (r: LtResult)
    requires Consistent(env, c)
    ensures Sized(env, r.cores)
  {
    var t := ReclaimTarget(env, c);
    if t.None? then LtResult(c, shardMoves)
    else
      var m := t.value;
      var r := Trial(env, c, m);
      if TrialFailed(c, m, r) then LtResult(c, shardMoves)
      else LtResult(Release(r.cores, m), shardMoves + r.moves)
  }

  /** Drain, pack and put back: the state `LongTermOptimization` has when it
      reaches the reclaim step, with the moves so far. */
  function Rebalance(env: Env, state: seq<bool>, liveness: seq<int>, mapping: seq<seq<int>>): (r: LtResult)
    requires |state| == |env.nfv| && |liveness| == |env.nfv| && |mapping| == |env.nfv|
    requires MappingOk(env, mapping)
    ensures Consistent(env, r.cores)
  {
    var c0 := Totals(env, state, liveness, mapping);
    var d := DrainAll(env, Drained(c0, [], map[]), |env.nfv|);
    DrainAllConsistent(env, Drained(c0, [], map[]), |env.nfv|);
    DrainAllOrigins(env, Drained(c0, [], map[]), |env.nfv|);
    var p := Pack(env, d.cores, d.toMove);
    PackConsistent(env, d.cores, d.toMove);
    SkippedHaveOrigins(env, d, p);
    PutBackConsistent(env, p.cores, p.skipped, d.origin);
    LtResult(PutBack(env, p.cores, p.skipped, d.origin), p.moves)
  }

  /** `LongTermOptimization` as the source writes it. */
  function LongTerm(env: Env, state: seq<bool>, liveness: seq<int>, mapping: seq<seq<int>>): (r: LtResult)
    requires |state| == |env.nfv| && |liveness| == |env.nfv| && |mapping| == |env.nfv|
    requires MappingOk(env, mapping)
    ensures Sized(env, r.cores)
  {
    var b := Rebalance(env, state, liveness, mapping);
    Reclaim(env, b.cores, b.moves)
  }

  /** `LongTermOptimization` with the corrected reclaim step. */
  function LongTermCorrected(env: Env, state: seq<bool>, liveness: seq<int>, mapping: seq<seq<int>>): (r: LtResult)
    requires |state| == |env.nfv| && |liveness| == |env.nfv| && |mapping| == |env.nfv|
    requires MappingOk(env, mapping)
    ensures Sized(env, r.cores)
  {
    var b := Rebalance(env, state, liveness, mapping);
    ReclaimCorrected(env, b.cores, b.moves)
  }

  // ---------------------------------------------------------------------
  // Properties of the reclaim step.

  /** A core is picked for reclaiming exactly when more than one core is
      counted active and the first reclaimable core of least rate runs at
      most at half of what the profile allows it. */
  lemma ReclaimTargetSpec(env: Env, c: Cores)
    requires Sized(env, c)
    ensures var t := ReclaimTarget(env, c);
      (t.Some? ==>
        (c.active != 1 && Reclaimable(c, t.value) &&
         c.rate[t.value] <= env.cap(c.flow[t.value]) / 2 &&
         (forall j :: 0 <= j < |env.nfv| && Reclaimable(c, j) ==> c.rate[t.value] <= c.rate[j]) &&
         (forall j :: 0 <= j < t.value && Reclaimable(c, j) ==> c.rate[t.value] < c.rate[j]))) &&
      (t.None? ==>
        (c.active == 1 || (forall j :: 0 <= j < |env.nfv| ==> !Reclaimable(c, j)) ||
         exists j :: 0 <= j < |env.nfv| && Reclaimable(c, j) && c.rate[j] > env.cap(c.flow[j]) / 2))
  {
    MinRateCoreSpec(env, c, |env.nfv|);
  }

  /** Taking a core in use out of use lowers the number in use by one. */
  lemma CountTrueClear(a: seq<bool>, i: int)
    requires 0 <= i < |a| && a[i]
    ensures CountTrue(a[i := false]) + 1 == CountTrue(a)
  {
    CountTrueSet(a[i := false], i);
    assert a[i := false][i := true] == a;
  }

  /** A trial that did not fail took no core into use: every core in use
      afterwards was in use before. */
  lemma TrialNoNewCore(env: Env, c: Cores, m: int)
    requires Consistent(env, c) && 0 <= m < |env.nfv|
    requires !TrialFailed(c, m, Trial(env, c, m))
    ensures Trial(env, c, m).cores.state == c.state
  {
    var c' := c.(rate := c.rate[m := ReclaimTrialRate]);
    PackGrows(env, c', c.mapping[m]);
    CountTrueMono(c.state, Trial(env, c, m).cores.state);
  }

  /** The corrected reclaim step never takes a core into use, lowers
      `active_core_count_` by one exactly when it reclaims a core, and keeps
      that count in step with the number of cores in use. */
  lemma ReclaimCorrectedNoNewCore(env: Env, c: Cores, shardMoves: map<int, int>)
    requires Consistent(env, c)
    ensures var r := ReclaimCorrected(env, c, shardMoves);
      (forall i :: 0 <= i < |env.nfv| && r.cores.state[i] ==> c.state[i]) &&
      r.cores.active <= c.active &&
      r.cores.active - CountTrue(r.cores.state) == c.active - CountTrue(c.state)
  {
    var t := ReclaimTarget(env, c);
    if t.Some? {
      var m := t.value;
      ReclaimTargetSpec(env, c);
      var r := Trial(env, c, m);
      if !TrialFailed(c, m, r) {
        TrialNoNewCore(env, c, m);
        PackGrows(env, c.(rate := c.rate[m := ReclaimTrialRate]), c.mapping[m]);
        CountTrueClear(c.state, m);
      }
    }
  }

  /** A successful reclaim empties core m, takes it out of use, and
      returns a move for every shard core m held. */
  lemma ReclaimReleases(env: Env, c: Cores, shardMoves: map<int, int>)
    requires Consistent(env, c)
    requires ReclaimTarget(env, c).Some?
    requires !TrialFailed(c, ReclaimTarget(env, c).value, Trial(env, c, ReclaimTarget(env, c).value))
    ensures Reclaim(env, c, shardMoves) == ReclaimCorrected(env, c, shardMoves)
    ensures var m := ReclaimTarget(env, c).value;
      var r := Reclaim(env, c, shardMoves);
      r.cores.mapping[m] == [] && !r.cores.state[m] && r.cores.active == c.active - 1
    ensures var m := ReclaimTarget(env, c).value;
      var r := Reclaim(env, c, shardMoves);
      forall s :: s in c.mapping[m] ==> s in r.moves
    ensures var m := ReclaimTarget(env, c).value;
      var r := Reclaim(env, c, shardMoves);
      forall s :: s in shardMoves && s !in c.mapping[m] ==> s in r.moves && r.moves[s] == shardMoves[s]
  {
    var m := ReclaimTarget(env, c).value;
    var c' := c.(rate := c.rate[m := ReclaimTrialRate]);
    PackCovers(env, c', c.mapping[m]);
    var t := Trial(env, c, m);
    forall s | s in c.mapping[m] ensures s in t.moves {
      assert s !in t.skipped;
    }
    assert Reclaim(env, c, shardMoves) == LtResult(Release(t.cores, m), shardMoves + t.moves);
    TrialNoNewCore(env, c, m);
    PackGrows(env, c', c.mapping[m]);
    forall s | s in shardMoves && s !in c.mapping[m] ensures s !in t.moves {
    }
  }

  /** The state of the finding below: three normal cores under the empty
      profile, so that every core may carry 1000000; cores 0 and 1 in use
      for six epochs with one shard each, core 2 idle. */
  function SampleEnv(): Env
  {
    Env([true, true, true], CapOf(map[]), [750000, 100000], [0, 0])
  }

  function SampleCores(): Cores
  {
    Cores([750000, 100000, 0], [0, 0, 0], [true, true, false], [6, 6, 0], 2, [[0], [1], []])
  }

  /** Core 1 has the least rate, well under half of 1000000, and is
      tried. */
  lemma SampleTarget()
    ensures Consistent(SampleEnv(), SampleCores())
    ensures ReclaimTarget(SampleEnv(), SampleCores()) == Some(1)
  {
    var env, c := SampleEnv(), SampleCores();
    assert SumRate(env, [0]) == 750000 && SumRate(env, [1]) == 100000;
    assert SumFlow(env, [0]) == 0 && SumFlow(env, [1]) == 0;
    assert env.cap(0) == 1000000;
    assert MinRateCore(env, c, 3) == Some(1);
  }

  /** The shard of core 1 fits on no core in use, so the trial takes idle
      core 2 into use. */
  lemma SampleTrial()
    requires Consistent(SampleEnv(), SampleCores())
    ensures var t := Trial(SampleEnv(), SampleCores(), 1);
      t.moves == map[1 := 2] && t.skipped == [] &&
      t.cores.state == [true, true, true] && t.cores.active == 3 &&
      t.cores.mapping == [[0], [1], [1]]
  {
    var env, c := SampleEnv(), SampleCores();
    var c' := c.(rate := c.rate[1 := ReclaimTrialRate]);
    assert c'.rate == [750000, 100000000, 0];
    assert env.cap(0) == 1000000;
    assert !Fits(env, c', 0, 1) by {
      assert ((750000 + 100000) as real) >= (1000000 as real) * (1.0 - AssignHeadRoom);
    }
    assert !Fits(env, c', 1, 1) by {
      assert ((100000000 + 100000) as real) >= (1000000 as real) * (1.0 - AssignHeadRoom);
    }
    assert !Fits(env, c', 2, 1);
    assert FirstFitting(env, c', 1, 2) == 3;
    assert FirstFitting(env, c', 1, 0) == 3;
    assert FirstIdle(env, c', 2) == 2;
    assert FirstIdle(env, c', 0) == 2;
    var p := PlaceShard(env, c', 1);
    assert p == Placement(Activate(AddShard(env, c', 2, 1), 2), Some(2));
    assert [1][..0] == [];
    assert Pack(env, c', [1]) == Packing(p.cores, map[1 := 2], []);
    assert c'.mapping[2] + [1] == [1];
    assert p.cores.mapping == c'.mapping[2 := [1]];
  }

  /** The source's undo pops the shard off core 2 and nothing else. */
  lemma SampleUndo()
    requires Consistent(SampleEnv(), SampleCores())
    ensures var u := UndoTrial(SampleEnv(), SampleCores(), 1);
      u.state == [true, true, true] && u.mapping == [[0], [1], []] && u.active == 3
  {
    var env, c := SampleEnv(), SampleCores();
    SampleTrial();
    var t := Trial(env, c, 1);
    assert t.moves.Keys == {1};
    assert SortedKeys(t.moves.Keys) == [1] by {
      assert MinKey({1}) == 1;
      assert {1} - {1} == {};
    }
    var u0 := t.cores.(rate := t.cores.rate[1 := c.rate[1]]);
    assert UndoTrial(env, c, 1) == Undo(env, u0, [1], t.moves);
    assert [1][..0] == [];
    assert Undo(env, u0, [], t.moves) == u0;
    assert u0.mapping[2][..0] == [];
    assert Undo(env, u0, [1], t.moves).mapping == u0.mapping[2 := []];
  }

  /** The finding: the trial fails because it used a new core; the
      source's undo leaves core 2 in use with no shards and three cores
      counted active, while the corrected step leaves the state as it
      was. */
  lemma ReclaimLeavesIdleCoreActive()
    ensures Consistent(SampleEnv(), SampleCores())
    ensures var r := Reclaim(SampleEnv(), SampleCores(), map[]);
      r.cores.state == [true, true, true] && r.cores.mapping == [[0], [1], []] &&
      r.cores.active == 3 && SampleCores().active == 2 && !SampleCores().state[2]
    ensures ReclaimCorrected(SampleEnv(), SampleCores(), map[]) == LtResult(SampleCores(), map[])
  {
    var env, c := SampleEnv(), SampleCores();
    SampleTarget();
    SampleTrial();
    SampleUndo();
    assert TrialFailed(c, 1, Trial(env, c, 1));
    assert Reclaim(env, c, map[]) == LtResult(UndoTrial(env, c, 1), map[]);
  }


  // ---------------------------------------------------------------------
  // The source's undo does restore every shard list.

  /** How many of the keys the moves send to core j. */
  function CountTo(keys: seq<int>, tmp: map<int, int>, j: int): nat
    requires forall k :: 0 <= k < |keys| ==> keys[k] in tmp
    decreases |keys|
  {
    if keys == [] then 0 else (if tmp[keys[0]] == j then 1 else 0) + CountTo(keys[1..], tmp, j)
  }

  /** Undoing pops, from core j's list, as many shards as there are keys
      whose move went to core j. */
  lemma {:induction false} UndoPops(env: Env, c: Cores, keys: seq<int>, tmp: map<int, int>, j: int)
    requires Sized(env, c) && OriginsOk(env, tmp) && ShardsOk(env, keys) && 0 <= j < |env.nfv|
    requires forall k :: 0 <= k < |keys| ==> keys[k] in tmp
    requires CountTo(keys, tmp, j) <= |c.mapping[j]|
    ensures Undo(env, c, keys, tmp).mapping[j] == c.mapping[j][..|c.mapping[j]| - CountTo(keys, tmp, j)]
    decreases |keys|
  {
    if keys != [] {
      var i := tmp[keys[0]];
      var c' := UndoMove(env, c, keys[0], i);
      assert ShardsOk(env, keys[1..]);
      UndoPops(env, c', keys[1..], tmp, j);
      var m := c.mapping[j];
      if j == i {
        assert m[..|m| - 1][..|m| - 1 - CountTo(keys[1..], tmp, j)] == m[..|m| - CountTo(keys, tmp, j)];
      }
    }
  }

  /** The keys whose move goes to core j. */
  function Hits(keys: set<int>, tmp: map<int, int>, j: int): set<int>
    requires keys <= tmp.Keys
  {
    set k | k in keys && tmp[k] == j
  }

  /** How many moves go to core j. */
  function TargetCount(moves: map<int, int>, j: int): nat
  {
    |Hits(moves.Keys, moves, j)|
  }

  lemma HitsRemove(keys: set<int>, tmp: map<int, int>, j: int, m: int)
    requires keys <= tmp.Keys && m in keys
    ensures |Hits(keys, tmp, j)| == |Hits(keys - {m}, tmp, j)| + (if tmp[m] == j then 1 else 0)
  {
    var a, b := Hits(keys, tmp, j), Hits(keys - {m}, tmp, j);
    if tmp[m] == j {
      assert a == b + {m};
    } else {
      assert a == b;
    }
  }

  lemma TargetCountAdd(moves: map<int, int>, s: int, v: int, j: int)
    requires s !in moves
    ensures TargetCount(moves[s := v], j) == TargetCount(moves, j) + (if v == j then 1 else 0)
  {
    var a, b := Hits(moves[s := v].Keys, moves[s := v], j), Hits(moves.Keys, moves, j);
    assert moves[s := v].Keys == moves.Keys + {s};
    if v == j {
      assert a == b + {s};
    } else {
      assert a == b;
    }
  }

  /** Counting over the keys in ascending order counts the moves. */
  lemma {:induction false} CountToSorted(keys: set<int>, tmp: map<int, int>, j: int)
    requires keys <= tmp.Keys
    ensures CountTo(SortedKeys(keys), tmp, j) == |Hits(keys, tmp, j)|
    decreases |keys|
  {
    if keys != {} {
      var m := MinKey(keys);
      var rest := keys - {m};
      CountToSorted(rest, tmp, j);
      assert SortedKeys(keys)[1..] == SortedKeys(rest);
      HitsRemove(keys, tmp, j, m);
    }
  }

  /** Each core's list grew by exactly the number of moves sent to it. */
  predicate Appended(env: Env, c: Cores, r: Packing)
    requires Sized(env, c) && Sized(env, r.cores)
  {
    forall j :: 0 <= j < |env.nfv| ==> |r.cores.mapping[j]| == |c.mapping[j]| + TargetCount(r.moves, j)
  }

  lemma {:induction false} PackAppends(env: Env, c: Cores, shards: seq<int>)
    requires Sized(env, c) && ShardsOk(env, shards) && Distinct(shards)
    ensures Appended(env, c, Pack(env, c, shards))
  {
    if shards != [] {
      var init := shards[..|shards| - 1];
      var s := shards[|shards| - 1];
      assert ShardsOk(env, init) && Distinct(init);
      PackAppends(env, c, init);
      PackCovers(env, c, init);
      assert s !in init;
      var r := Pack(env, c, init);
      PlaceShardWhere(env, r.cores, s);
      PlaceShardSkipped(env, r.cores, s);
      var p := PlaceShard(env, r.cores, s);
      if p.core.Some? {
        forall j | 0 <= j < |env.nfv|
          ensures TargetCount(r.moves[s := p.core.value], j) == TargetCount(r.moves, j) + (if p.core.value == j then 1 else 0)
        {
          TargetCountAdd(r.moves, s, p.core.value, j);
        }
      }
    }
  }

  /** Counting over the ascending keys of the moves counts, per core, the
      moves that went there. */
  lemma CountsAgree(env: Env, tmp: map<int, int>)
    ensures forall j :: 0 <= j < |env.nfv| ==> CountTo(SortedKeys(tmp.Keys), tmp, j) == TargetCount(tmp, j)
  {
    forall j | 0 <= j < |env.nfv| ensures CountTo(SortedKeys(tmp.Keys), tmp, j) == TargetCount(tmp, j) {
      CountToSorted(tmp.Keys, tmp, j);
    }
  }

  /** Undoing the moves named by `keys`, which send to each core as many
      shards as `tmp` does, from lists that extend `base` by that many
      shards, leaves `base`. */
  lemma UndoRestoresPrefix(env: Env, base: seq<seq<int>>, u: Cores, keys: seq<int>, tmp: map<int, int>)
    requires Sized(env, u) && OriginsOk(env, tmp) && |base| == |env.nfv| && ShardsOk(env, keys)
    requires forall k :: 0 <= k < |keys| ==> keys[k] in tmp
    requires forall j :: 0 <= j < |env.nfv| ==> CountTo(keys, tmp, j) == TargetCount(tmp, j)
    requires forall j :: 0 <= j < |env.nfv| ==>
      base[j] <= u.mapping[j] && |u.mapping[j]| == |base[j]| + TargetCount(tmp, j)
    ensures Undo(env, u, keys, tmp).mapping == base
  {
    var r := Undo(env, u, keys, tmp);
    forall j | 0 <= j < |env.nfv| ensures r.mapping[j] == base[j] {
      UndoPops(env, u, keys, tmp, j);
      assert u.mapping[j][..|base[j]|] == base[j];
    }
  }

  /** When core m lists each shard once, the source's undo of a trial puts
      every core's list back as it was before the trial. */
  lemma UndoRestoresLists(env: Env, c: Cores, m: int)
    requires Consistent(env, c) && 0 <= m < |env.nfv| && Distinct(c.mapping[m])
    ensures UndoTrial(env, c, m).mapping == c.mapping
  {
    var c' := c.(rate := c.rate[m := ReclaimTrialRate]);
    var t := Trial(env, c, m);
    PackAppends(env, c', c.mapping[m]);
    PackGrows(env, c', c.mapping[m]);
    PackCovers(env, c', c.mapping[m]);
    PackTargets(env, c', c.mapping[m]);
    var keys := SortedKeys(t.moves.Keys);
    assert ShardsOk(env, keys) by {
      forall k | 0 <= k < |keys| ensures ShardOk(env, keys[k]) {
        assert keys[k] in t.moves;
      }
    }
    CountsAgree(env, t.moves);
    var u0 := t.cores.(rate := t.cores.rate[m := c.rate[m]]);
    UndoRestoresPrefix(env, c.mapping, u0, keys, t.moves);
    assert UndoTrial(env, c, m) == Undo(env, u0, keys, t.moves);
  }

  /** On a failed trial both reclaim steps return the moves they were
      given and, core m listing each shard once, leave every list as it
      was; they differ only in which cores are in use and in the count. */
  lemma ReclaimFailedKeepsLists(env: Env, c: Cores, shardMoves: map<int, int>)
    requires Consistent(env, c)
    requires ReclaimTarget(env, c).Some?
    requires TrialFailed(c, ReclaimTarget(env, c).value, Trial(env, c, ReclaimTarget(env, c).value))
    requires Distinct(c.mapping[ReclaimTarget(env, c).value])
    ensures Reclaim(env, c, shardMoves).moves == shardMoves
    ensures Reclaim(env, c, shardMoves).cores.mapping == c.mapping
    ensures ReclaimCorrected(env, c, shardMoves) == LtResult(c, shardMoves)
  {
    UndoRestoresLists(env, c, ReclaimTarget(env, c).value);
  }

  // ---------------------------------------------------------------------
  // Properties of the drain and of the put-back.

  lemma {:induction false} DrainCoreConsistent(env: Env, d: Drained, i: int)
    requires Consistent(env, d.cores) && 0 <= i < |env.nfv|
    ensures Consistent(env, DrainCore(env, d, i).cores)
    decreases |d.cores.mapping[i]|
  {
    var m := d.cores.mapping[i];
    if Overloaded(env, d.cores, i) && |m| > 0 {
      assert ShardsOk(env, m[..|m| - 1]);
      DrainCoreConsistent(env, PopShard(env, d, i), i);
    }
  }

  /** `s` listed from its last element to its first. */
  function Reversed(s: seq<int>): (r: seq<int>)
    ensures |r| == |s|
  {
    if s == [] then [] else [s[|s| - 1]] + Reversed(s[..|s| - 1])
  }

  /** A drain of core i changed only core i's list, totals and liveness,
      and stopped where the source's loop stops: with core i no longer
      overloaded or with no shards left. */
  predicate DrainedCore(env: Env, d: Drained, r: Drained, i: int)
    requires Sized(env, d.cores) && Sized(env, r.cores) && 0 <= i < |env.nfv|
  {
    (!Overloaded(env, r.cores, i) || r.cores.mapping[i] == []) &&
    r.cores.state == d.cores.state && r.cores.active == d.cores.active &&
    (forall j :: 0 <= j < |env.nfv| && j != i ==>
       r.cores.mapping[j] == d.cores.mapping[j] && r.cores.rate[j] == d.cores.rate[j] &&
       r.cores.flow[j] == d.cores.flow[j] && r.cores.liveness[j] == d.cores.liveness[j])
  }

  lemma {:induction false} DrainCoreSpec(env: Env, d: Drained, i: int)
    requires Sized(env, d.cores) && MappingOk(env, d.cores.mapping) && 0 <= i < |env.nfv|
    ensures DrainedCore(env, d, DrainCore(env, d, i), i)
    decreases |d.cores.mapping[i]|
  {
    if Overloaded(env, d.cores, i) && |d.cores.mapping[i]| > 0 {
      DrainCoreSpec(env, PopShard(env, d, i), i);
    }
  }

  /** Core i's list lost a suffix, and that suffix was queued last shard
      first. */
  predicate QueuedSuffix(d: Drained, r: Drained, i: int)
    requires 0 <= i < |d.cores.mapping| && i < |r.cores.mapping|
  {
    var m, m' := d.cores.mapping[i], r.cores.mapping[i];
    m' <= m && r.toMove == d.toMove + Reversed(m[|m'|..])
  }

  lemma {:induction false} DrainCoreQueue(env: Env, d: Drained, i: int)
    requires Sized(env, d.cores) && MappingOk(env, d.cores.mapping) && 0 <= i < |env.nfv|
    ensures QueuedSuffix(d, DrainCore(env, d, i), i)
    decreases |d.cores.mapping[i]|
  {
    var m := d.cores.mapping[i];
    if Overloaded(env, d.cores, i) && |m| > 0 {
      var d' := PopShard(env, d, i);
      DrainCoreQueue(env, d', i);
      var rest := DrainCore(env, d', i).cores.mapping[i];
      assert m[|rest|..][..|m| - |rest| - 1] == m[..|m| - 1][|rest|..];
    }
  }

  /** After the drain loop over cores 0 .. k-1: every core among them in use
      is at most 90% loaded or has no shards; cores k and above are as they
      were; and which cores are in use has not changed. */
  predicate DrainedUpTo(env: Env, d: Drained, r: Drained, k: nat)
    requires Sized(env, d.cores) && Sized(env, r.cores) && k <= |env.nfv|
  {
    r.cores.state == d.cores.state && r.cores.active == d.cores.active &&
    (forall j :: 0 <= j < k && r.cores.state[j] ==>
       !Overloaded(env, r.cores, j) || r.cores.mapping[j] == []) &&
    (forall j :: k <= j < |env.nfv| ==>
       r.cores.mapping[j] == d.cores.mapping[j] && r.cores.rate[j] == d.cores.rate[j] &&
       r.cores.flow[j] == d.cores.flow[j] && r.cores.liveness[j] == d.cores.liveness[j])
  }

  lemma {:induction false} DrainAllSpec(env: Env, d: Drained, k: nat)
    requires Sized(env, d.cores) && MappingOk(env, d.cores.mapping) && k <= |env.nfv|
    ensures DrainedUpTo(env, d, DrainAll(env, d, k), k)
  {
    if k > 0 {
      DrainAllSpec(env, d, k - 1);
      var r := DrainAll(env, d, k - 1);
      if r.cores.state[k - 1] {
        DrainCoreSpec(env, r, k - 1);
      }
    }
  }

  /** Every queued shard has a remembered origin, and every origin is a
      core. */
  predicate OriginsCover(env: Env, d: Drained)
  {
    OriginsOk(env, d.origin) && ShardsOk(env, d.toMove) &&
    forall k :: 0 <= k < |d.toMove| ==> d.toMove[k] in d.origin
  }

  lemma {:induction false} DrainCoreOrigins(env: Env, d: Drained, i: int)
    requires Sized(env, d.cores) && MappingOk(env, d.cores.mapping) && 0 <= i < |env.nfv|
    requires OriginsCover(env, d)
    ensures OriginsCover(env, DrainCore(env, d, i))
    decreases |d.cores.mapping[i]|
  {
    if Overloaded(env, d.cores, i) && |d.cores.mapping[i]| > 0 {
      DrainCoreOrigins(env, PopShard(env, d, i), i);
    }
  }

  lemma {:induction false} DrainAllConsistent(env: Env, d: Drained, k: nat)
    requires Consistent(env, d.cores) && k <= |env.nfv|
    ensures Consistent(env, DrainAll(env, d, k).cores)
  {
    if k > 0 {
      DrainAllConsistent(env, d, k - 1);
      var r := DrainAll(env, d, k - 1);
      if r.cores.state[k - 1] {
        DrainCoreConsistent(env, r, k - 1);
      }
    }
  }

  lemma {:induction false} DrainAllOrigins(env: Env, d: Drained, k: nat)
    requires Sized(env, d.cores) && MappingOk(env, d.cores.mapping) && k <= |env.nfv|
    requires OriginsCover(env, d)
    ensures OriginsCover(env, DrainAll(env, d, k))
  {
    if k > 0 {
      DrainAllOrigins(env, d, k - 1);
      var r := DrainAll(env, d, k - 1);
      if r.cores.state[k - 1] {
        DrainCoreOrigins(env, r, k - 1);
      }
    }
  }

  /** The shards packing skips were queued, so each has an origin to go
      back to. */
  lemma SkippedHaveOrigins(env: Env, d: Drained, p: Packing)
    requires Sized(env, d.cores) && OriginsCover(env, d) && p == Pack(env, d.cores, d.toMove)
    ensures ShardsOk(env, p.skipped) && OriginsOk(env, d.origin)
    ensures forall k :: 0 <= k < |p.skipped| ==> p.skipped[k] in d.origin
  {
    PackCovers(env, d.cores, d.toMove);
    forall k | 0 <= k < |p.skipped| ensures p.skipped[k] in d.origin && ShardOk(env, p.skipped[k]) {
      assert p.skipped[k] in p.skipped;
      var j :| 0 <= j < |d.toMove| && d.toMove[j] == p.skipped[k];
    }
  }

  /** The drain only shortens lists: each core's list is a prefix of its
      list in `c0`, and each remembered origin is a core whose list in
      `c0` held the shard. */
  predicate OriginsFrom(c0: Cores, d: Drained)
  {
    |d.cores.mapping| == |c0.mapping| &&
    (forall j :: 0 <= j < |c0.mapping| ==> d.cores.mapping[j] <= c0.mapping[j]) &&
    forall b :: b in d.origin ==> 0 <= d.origin[b] < |c0.mapping| && b in c0.mapping[d.origin[b]]
  }

  lemma {:induction false} DrainCoreFrom(env: Env, c0: Cores, d: Drained, i: int)
    requires Sized(env, d.cores) && MappingOk(env, d.cores.mapping) && 0 <= i < |env.nfv|
    requires OriginsFrom(c0, d)
    ensures OriginsFrom(c0, DrainCore(env, d, i))
    decreases |d.cores.mapping[i]|
  {
    if Overloaded(env, d.cores, i) && |d.cores.mapping[i]| > 0 {
      var m := d.cores.mapping[i];
      assert m <= c0.mapping[i];
      assert m[|m| - 1] == c0.mapping[i][|m| - 1];
      var d' := PopShard(env, d, i);
      assert d'.cores.mapping[i] == m[..|m| - 1];
      assert OriginsFrom(c0, d');
      DrainCoreFrom(env, c0, d', i);
    }
  }

  lemma {:induction false} DrainAllFrom(env: Env, c0: Cores, d: Drained, k: nat)
    requires Sized(env, d.cores) && MappingOk(env, d.cores.mapping) && k <= |env.nfv|
    requires OriginsFrom(c0, d)
    ensures OriginsFrom(c0, DrainAll(env, d, k))
  {
    if k > 0 {
      DrainAllFrom(env, c0, d, k - 1);
      var r := DrainAll(env, d, k - 1);
      if r.cores.state[k - 1] {
        DrainCoreFrom(env, c0, r, k - 1);
      }
    }
  }

  /** The drain of `LongTermOptimization` starts from empty accumulators,
      so each shard it queues is remembered with the core whose list held
      it before the drain. */
  lemma DrainedFromTotals(env: Env, c0: Cores)
    requires Sized(env, c0) && MappingOk(env, c0.mapping)
    ensures var d := DrainAll(env, Drained(c0, [], map[]), |env.nfv|);
      OriginsFrom(c0, d) && OriginsCover(env, d)
  {
    DrainAllFrom(env, c0, Drained(c0, [], map[]), |env.nfv|);
    DrainAllOrigins(env, Drained(c0, [], map[]), |env.nfv|);
  }

  /** The shards of `skipped` whose origin is core j, in order. */
  function ReturnedTo(skipped: seq<int>, origin: map<int, int>, j: int): (r: seq<int>)
    ensures forall s :: s in r <==> s in skipped && OriginOf(origin, s) == j
  {
    if skipped == [] then []
    else
      var s := skipped[|skipped| - 1];
      ReturnedTo(skipped[..|skipped| - 1], origin, j) + (if OriginOf(origin, s) == j then [s] else [])
  }

  /** Putting back appends to each core's list exactly the skipped shards
      remembered as coming from it, in order, and changes neither state,
      liveness nor the count of cores in use. */
  lemma {:induction false} PutBackLists(env: Env, c: Cores, skipped: seq<int>, origin: map<int, int>)
    requires Sized(env, c) && ShardsOk(env, skipped) && OriginsOk(env, origin)
    requires forall k :: 0 <= k < |skipped| ==> skipped[k] in origin
    ensures var r := PutBack(env, c, skipped, origin);
      r.state == c.state && r.liveness == c.liveness && r.active == c.active &&
      forall j :: 0 <= j < |env.nfv| ==> r.mapping[j] == c.mapping[j] + ReturnedTo(skipped, origin, j)
  {
    if skipped != [] {
      var init := skipped[..|skipped| - 1];
      assert ShardsOk(env, init);
      PutBackLists(env, c, init, origin);
      var r := PutBack(env, c, init, origin);
      var s := skipped[|skipped| - 1];
      var o := OriginOf(origin, s);
      var r' := PutBack(env, c, skipped, origin);
      assert r' == AddShard(env, r, o, s);
      forall j | 0 <= j < |env.nfv|
        ensures r'.mapping[j] == c.mapping[j] + ReturnedTo(skipped, origin, j)
      {
        var t := ReturnedTo(init, origin, j);
        assert ReturnedTo(skipped, origin, j) == t + (if o == j then [s] else []);
        if o == j {
          assert r'.mapping[j] == (c.mapping[j] + t) + [s];
        } else {
          assert r'.mapping[j] == r.mapping[j];
        }
      }
    }
  }

  /** Each shard the packing skips goes back onto the core it was taken
      from: the core its origin entry names, whose list before the drain
      held it. */
  lemma SkippedGoHome(env: Env, c0: Cores, d: Drained, p: Packing)
    requires Sized(env, d.cores) && OriginsCover(env, d) && OriginsFrom(c0, d)
    requires p == Pack(env, d.cores, d.toMove)
    ensures ShardsOk(env, p.skipped) && OriginsOk(env, d.origin)
    ensures forall k :: 0 <= k < |p.skipped| ==> p.skipped[k] in d.origin
    ensures forall k :: 0 <= k < |p.skipped| ==>
      p.skipped[k] in c0.mapping[d.origin[p.skipped[k]]] &&
      p.skipped[k] in PutBack(env, p.cores, p.skipped, d.origin).mapping[d.origin[p.skipped[k]]]
  {
    SkippedHaveOrigins(env, d, p);
    PutBackLists(env, p.cores, p.skipped, d.origin);
    forall k | 0 <= k < |p.skipped|
      ensures p.skipped[k] in PutBack(env, p.cores, p.skipped, d.origin).mapping[d.origin[p.skipped[k]]]
    {
      var s := p.skipped[k];
      assert s in ReturnedTo(p.skipped, d.origin, d.origin[s]);
    }
  }

  lemma {:induction false} PutBackConsistent(env: Env, c: Cores, skipped: seq<int>, origin: map<int, int>)
    requires Consistent(env, c) && ShardsOk(env, skipped) && OriginsOk(env, origin)
    requires forall k :: 0 <= k < |skipped| ==> skipped[k] in origin
    ensures Consistent(env, PutBack(env, c, skipped, origin))
  {
    if skipped != [] {
      var init := skipped[..|skipped| - 1];
      assert ShardsOk(env, init);
      PutBackConsistent(env, c, init, origin);
      var s := skipped[|skipped| - 1];
      AddShardConsistent(env, PutBack(env, c, init, origin), OriginOf(origin, s), s);
    }
  }

  // ---------------------------------------------------------------------
  // `OnDemandLongTermOptimization`: half of one core's load goes to the
  // normal core of least rate.

  /** The first pass of the on-demand variant: like `Totals`, except that
      `active_core_count_` is left as it was. */
  function OnDemandTotals(env: Env, state: seq<bool>, liveness: seq<int>, active: int, mapping: seq<seq<int>>): (c: Cores)
    requires |state| == |env.nfv| && |liveness| == |env.nfv| && |mapping| == |env.nfv|
    requires MappingOk(env, mapping)
    ensures Consistent(env, c) && c.active == active
  {
    Totals(env, state, liveness, mapping).(active := active)
  }

  /** The drain loop on the overloaded core: its last shards come off,
      queued in that order, while its rate exceeds `target` and it has
      shards. */
  function Halve(env: Env, c: Cores, toMove: seq<int>, i: int, target: int): (r: (Cores, seq<int>))
    requires Sized(env, c) && MappingOk(env, c.mapping) && 0 <= i < |env.nfv|
    ensures Sized(env, r.0) && MappingOk(env, r.0.mapping)
    decreases |c.mapping[i]|
  {
    if c.rate[i] > target && |c.mapping[i]| > 0 then
      var m := c.mapping[i];
      Halve(env, PopLast(env, c, i), toMove + [m[|m| - 1]], i, target)
    else (c, toMove)
  }

  /** The halving stopped where the source's loop stops, changed only core
      i's list, totals and liveness, and queued the suffix core i lost,
      last shard first. */
  predicate Halved(env: Env, c: Cores, toMove: seq<int>, r: (Cores, seq<int>), i: int, target: int)
    requires Sized(env, c) && Sized(env, r.0) && 0 <= i < |env.nfv|
  {
    var m, m' := c.mapping[i], r.0.mapping[i];
    (r.0.rate[i] <= target || m' == []) &&
    m' <= m && r.1 == toMove + Reversed(m[|m'|..]) &&
    r.0.state == c.state && r.0.active == c.active &&
    (forall j :: 0 <= j < |env.nfv| && j != i ==>
       r.0.mapping[j] == c.mapping[j] && r.0.rate[j] == c.rate[j] &&
       r.0.flow[j] == c.flow[j] && r.0.liveness[j] == c.liveness[j])
  }

  lemma {:induction false} HalveSpec(env: Env, c: Cores, toMove: seq<int>, i: int, target: int)
    requires Sized(env, c) && MappingOk(env, c.mapping) && 0 <= i < |env.nfv|
    ensures Halved(env, c, toMove, Halve(env, c, toMove, i, target), i, target)
    decreases |c.mapping[i]|
  {
    var m := c.mapping[i];
    if c.rate[i] > target && |m| > 0 {
      var c' := PopLast(env, c, i);
      HalveSpec(env, c', toMove + [m[|m| - 1]], i, target);
      var rest := Halve(env, c', toMove + [m[|m| - 1]], i, target).0.mapping[i];
      assert m[|rest|..][..|m| - |rest| - 1] == m[..|m| - 1][|rest|..];
    }
  }

  lemma {:induction false} HalveConsistent(env: Env, c: Cores, toMove: seq<int>, i: int, target: int)
    requires Consistent(env, c) && 0 <= i < |env.nfv|
    ensures Consistent(env, Halve(env, c, toMove, i, target).0)
    ensures ShardsOk(env, toMove) ==> ShardsOk(env, Halve(env, c, toMove, i, target).1)
    decreases |c.mapping[i]|
  {
    var m := c.mapping[i];
    if c.rate[i] > target && |m| > 0 {
      assert ShardsOk(env, m[..|m| - 1]);
      HalveConsistent(env, PopLast(env, c, i), toMove + [m[|m| - 1]], i, target);
    }
  }

  /** The first normal core of least rate among cores 0 .. k-1, whether in
      use or not. */
  function MinRateNormal(env: Env, c: Cores, k: nat): (r: Option<int>)
    requires Sized(env, c) && k <= |env.nfv|
    ensures r.Some? ==> 0 <= r.value < k
  {
    if k == 0 then None
    else
      var m := MinRateNormal(env, c, k - 1);
      if !env.nfv[k - 1] then m
      else if m.None? then Some(k - 1)
      else if c.rate[k - 1] < c.rate[m.value] then Some(k - 1)
      else m
  }

  lemma {:induction false} MinRateNormalSpec(env: Env, c: Cores, k: nat)
    requires Sized(env, c) && k <= |env.nfv|
    ensures var r := MinRateNormal(env, c, k);
      (r.None? <==> forall j :: 0 <= j < k ==> !env.nfv[j]) &&
      (r.Some? ==>
        (env.nfv[r.value] &&
         (forall j :: 0 <= j < k && env.nfv[j] ==> c.rate[r.value] <= c.rate[j]) &&
         (forall j :: 0 <= j < r.value && env.nfv[j] ==> c.rate[r.value] < c.rate[j])))
  {
    if k > 0 {
      MinRateNormalSpec(env, c, k - 1);
    }
  }

  /** Every queued shard goes to core t: its list, totals and the moves
      grow shard by shard. */
  function MoveAll(env: Env, c: Cores, shards: seq<int>, t: int): (r: LtResult)
    requires Sized(env, c) && ShardsOk(env, shards) && 0 <= t < |env.nfv|
    ensures Sized(env, r.cores)
  {
    if shards == [] then LtResult(c, map[])
    else
      assert ShardsOk(env, shards[..|shards| - 1]);
      var r := MoveAll(env, c, shards[..|shards| - 1], t);
      var s := shards[|shards| - 1];
      LtResult(AddShard(env, r.cores, t, s), r.moves[s := t])
  }

  /** Moving everything to core t appends the shards to its list in order,
      leaves the other lists, moves each shard to t, and keeps the totals
      consistent. */
  lemma {:induction false} MoveAllSpec(env: Env, c: Cores, shards: seq<int>, t: int)
    requires Consistent(env, c) && ShardsOk(env, shards) && 0 <= t < |env.nfv|
    ensures var r := MoveAll(env, c, shards, t);
      Consistent(env, r.cores) &&
      r.cores.mapping == c.mapping[t := c.mapping[t] + shards] &&
      r.cores.state == c.state && r.cores.active == c.active && r.cores.liveness == c.liveness &&
      (forall s :: s in r.moves <==> s in shards) &&
      (forall s :: s in r.moves ==> r.moves[s] == t)
  {
    if shards != [] {
      var init := shards[..|shards| - 1];
      var s := shards[|shards| - 1];
      assert ShardsOk(env, init);
      MoveAllSpec(env, c, init, t);
      var r := MoveAll(env, c, init, t);
      AddShardConsistent(env, r.cores, t, s);
      assert c.mapping[t] + init + [s] == c.mapping[t] + shards;
      assert forall x :: x in shards <==> x in init || x == s;
    } else {
      assert c.mapping[t] + shards == c.mapping[t];
    }
  }

  /** The second half of the on-demand variant: the first normal core of
      least rate is put in use if it is not, and receives every queued
      shard. */
  function MoveToLeast(env: Env, c: Cores, toMove: seq<int>): (r: LtResult)
    requires Sized(env, c) && ShardsOk(env, toMove)
    requires exists j :: 0 <= j < |env.nfv| && env.nfv[j]
    ensures Sized(env, r.cores)
  {
    MinRateNormalSpec(env, c, |env.nfv|);
    var t := MinRateNormal(env, c, |env.nfv|).value;
    var c1 := if !c.state[t] then Activate(c, t) else c;
    MoveAll(env, c1, toMove, t)
  }

  /** The receiving core is a normal core of least rate and is in use
      afterwards; the queued shards are appended to its list, in order,
      and moved to it, and no other list changes. */
  lemma MoveToLeastSpec(env: Env, c: Cores, toMove: seq<int>)
    requires Consistent(env, c) && ShardsOk(env, toMove)
    requires exists j :: 0 <= j < |env.nfv| && env.nfv[j]
    ensures var t := MinRateNormal(env, c, |env.nfv|);
      var r := MoveToLeast(env, c, toMove);
      t.Some? && env.nfv[t.value] && r.cores.state[t.value] &&
      (forall j :: 0 <= j < |env.nfv| && env.nfv[j] ==> c.rate[t.value] <= c.rate[j]) &&
      Consistent(env, r.cores) &&
      r.cores.mapping == c.mapping[t.value := c.mapping[t.value] + toMove] &&
      (forall s :: s in r.moves <==> s in toMove) &&
      (forall s :: s in r.moves ==> r.moves[s] == t.value) &&
      r.cores.active == (if c.state[t.value] then c.active else c.active + 1)
  {
    MinRateNormalSpec(env, c, |env.nfv|);
    var t := MinRateNormal(env, c, |env.nfv|).value;
    var c1 := if !c.state[t] then Activate(c, t) else c;
    MoveAllSpec(env, c1, toMove, t);
  }

  /** `OnDemandLongTermOptimization(core_id, ...)`. */
  function OnDemand(env: Env, state: seq<bool>, liveness: seq<int>, active: int, mapping: seq<seq<int>>,
                    core: int): (r: LtResult)
    requires |state| == |env.nfv| && |liveness| == |env.nfv| && |mapping| == |env.nfv|
    requires MappingOk(env, mapping) && 0 <= core < |env.nfv|
    requires exists j :: 0 <= j < |env.nfv| && env.nfv[j]
    ensures Sized(env, r.cores)
  {
    var c0 := OnDemandTotals(env, state, liveness, active, mapping);
    var h := Halve(env, c0, [], core, c0.rate[core] / 2);
    HalveConsistent(env, c0, [], core, c0.rate[core] / 2);
    MoveToLeast(env, h.0, h.1)
  }

  /** What the on-demand variant's drain promises: the overloaded core is
      left at no more than half its rate, or with no shards; it lost a
      suffix of its list, queued last shard first; no other list changed. */
  lemma OnDemandDrains(env: Env, state: seq<bool>, liveness: seq<int>, active: int, mapping: seq<seq<int>>,
                       core: int)
    requires |state| == |env.nfv| && |liveness| == |env.nfv| && |mapping| == |env.nfv|
    requires MappingOk(env, mapping) && 0 <= core < |env.nfv|
    ensures var c0 := OnDemandTotals(env, state, liveness, active, mapping);
      var h := Halve(env, c0, [], core, c0.rate[core] / 2);
      (h.0.rate[core] <= c0.rate[core] / 2 || h.0.mapping[core] == []) &&
      h.0.mapping[core] <= mapping[core] &&
      h.1 == Reversed(mapping[core][|h.0.mapping[core]|..]) &&
      (forall j :: 0 <= j < |env.nfv| && j != core ==> h.0.mapping[j] == mapping[j])
  {
    var c0 := OnDemandTotals(env, state, liveness, active, mapping);
    HalveSpec(env, c0, [], core, c0.rate[core] / 2);
  }

  /** What the on-demand variant promises for the drained shards: they go,
      in the order queued, to the first normal core of least rate after the
      drain, which is then in use (counted once more if it was not); no
      other list changes and the totals match the lists. */
  lemma OnDemandDelivers(env: Env, state: seq<bool>, liveness: seq<int>, active: int, mapping: seq<seq<int>>,
                         core: int)
    requires |state| == |env.nfv| && |liveness| == |env.nfv| && |mapping| == |env.nfv|
    requires MappingOk(env, mapping) && 0 <= core < |env.nfv|
    requires exists j :: 0 <= j < |env.nfv| && env.nfv[j]
    ensures var c0 := OnDemandTotals(env, state, liveness, active, mapping);
      var h := Halve(env, c0, [], core, c0.rate[core] / 2);
      var r := OnDemand(env, state, liveness, active, mapping, core);
      var t := MinRateNormal(env, h.0, |env.nfv|);
      t.Some? && env.nfv[t.value] && r.cores.state[t.value] &&
      (forall j :: 0 <= j < |env.nfv| && env.nfv[j] ==> h.0.rate[t.value] <= h.0.rate[j]) &&
      Consistent(env, r.cores) &&
      r.cores.mapping == h.0.mapping[t.value := h.0.mapping[t.value] + h.1] &&
      (forall s :: s in r.moves <==> s in h.1) &&
      (forall s :: s in r.moves ==> r.moves[s] == t.value)
  {
    var c0 := OnDemandTotals(env, state, liveness, active, mapping);
    var target := c0.rate[core] / 2;
    HalveConsistent(env, c0, [], core, target);
    var h := Halve(env, c0, [], core, target);
    MoveToLeastSpec(env, h.0, h.1);
  }

  /** The on-demand variant counts one more core in use exactly when the
      receiving core was neither in use nor holding shards; it does not
      recount the cores in use. */
  lemma OnDemandActive(env: Env, state: seq<bool>, liveness: seq<int>, active: int, mapping: seq<seq<int>>,
                       core: int)
    requires |state| == |env.nfv| && |liveness| == |env.nfv| && |mapping| == |env.nfv|
    requires MappingOk(env, mapping) && 0 <= core < |env.nfv|
    requires exists j :: 0 <= j < |env.nfv| && env.nfv[j]
    ensures var c0 := OnDemandTotals(env, state, liveness, active, mapping);
      var h := Halve(env, c0, [], core, c0.rate[core] / 2);
      var t := MinRateNormal(env, h.0, |env.nfv|);
      t.Some? &&
      OnDemand(env, state, liveness, active, mapping, core).cores.active ==
        (if state[t.value] || |mapping[t.value]| > 0 then active else active + 1)
  {
    var c0 := OnDemandTotals(env, state, liveness, active, mapping);
    var target := c0.rate[core] / 2;
    HalveSpec(env, c0, [], core, target);
    HalveConsistent(env, c0, [], core, target);
    var h := Halve(env, c0, [], core, target);
    MoveToLeastSpec(env, h.0, h.1);
    TotalsAt(env, state, liveness, mapping);
  }

  // ---------------------------------------------------------------------
  // The controller's long-term state and its operations.

  class LongTermController {
    /** `nfv_cores[i] != nullptr`. */
    const nfvCores: seq<bool>
    /** `long_flow_count_pps_threshold`. */
    const profile: map<int, int>
    /** `core_state`, `core_liveness`, `active_core_count_`, `core_shard_mapping_`. */
    var coreState: seq<bool>
    var coreLiveness: seq<int>
    var activeCoreCount: int
    var shardMapping: seq<seq<int>>

    predicate Valid()
      reads this
    {
      |coreState| == |nfvCores| && |coreLiveness| == |nfvCores| && |shardMapping| == |nfvCores|
    }

    constructor(nfvCores: seq<bool>, profile: map<int, int>, coreState: seq<bool>, coreLiveness: seq<int>,
                activeCoreCount: int, shardMapping: seq<seq<int>>)
      requires |coreState| == |nfvCores| && |coreLiveness| == |nfvCores| && |shardMapping| == |nfvCores|
      ensures Valid()
      ensures this.nfvCores == nfvCores && this.profile == profile
      ensures this.coreState == coreState && this.coreLiveness == coreLiveness
      ensures this.activeCoreCount == activeCoreCount && this.shardMapping == shardMapping
    {
      this.nfvCores := nfvCores;
      this.profile := profile;
      this.coreState := coreState;
      this.coreLiveness := coreLiveness;
      this.activeCoreCount := activeCoreCount;
      this.shardMapping := shardMapping;
    }

    function EnvOf(shardRate: seq<int>, shardFlow: seq<int>): Env
    {
      Env(nfvCores, CapOf(profile), shardRate, shardFlow)
    }

    /** The controller's state together with the per-core totals. */
    function Snapshot(rate: seq<int>, flow: seq<int>): Cores
      reads this
    {
      Cores(rate, flow, coreState, coreLiveness, activeCoreCount, shardMapping)
    }

    /** The first loop of `FindMoves` for one shard. */
    method FirstFittingCore(rate: seq<int>, flow: seq<int>, shardRate: seq<int>, shardFlow: seq<int>, s: int)
      returns (i: nat)
      requires Valid() && |rate| == |nfvCores| && |flow| == |nfvCores|
      requires ShardOk(EnvOf(shardRate, shardFlow), s)
      ensures i == FirstFitting(EnvOf(shardRate, shardFlow), Snapshot(rate, flow), s, 0)
    {
      ghost var env, c := EnvOf(shardRate, shardFlow), Snapshot(rate, flow);
      i := 0;
      while i < |nfvCores|
        invariant 0 <= i <= |nfvCores|
        invariant FirstFitting(env, c, s, 0) == FirstFitting(env, c, s, i)
      {
        if nfvCores[i] && coreState[i] &&
           ((rate[i] + shardRate[s]) as real) < (MaxRate(profile, flow[i] + shardFlow[s]) as real) * (1.0 - AssignHeadRoom) {
          assert Fits(env, c, i, s);
          return;
        }
        i := i + 1;
      }
    }

    /** The second loop of `FindMoves` for one shard. */
    method FirstIdleCore(rate: seq<int>, flow: seq<int>, shardRate: seq<int>, shardFlow: seq<int>)
      returns (i: nat)
      requires Valid() && |rate| == |nfvCores| && |flow| == |nfvCores|
      ensures i == FirstIdle(EnvOf(shardRate, shardFlow), Snapshot(rate, flow), 0)
    {
      ghost var env, c := EnvOf(shardRate, shardFlow), Snapshot(rate, flow);
      i := 0;
      while i < |nfvCores|
        invariant 0 <= i <= |nfvCores|
        invariant FirstIdle(env, c, 0) == FirstIdle(env, c, i)
      {
        if nfvCores[i] && !coreState[i] {
          return;
        }
        i := i + 1;
      }
    }

    /** One shard of `FindMoves`. */
    method PlaceOne(rate: seq<int>, flow: seq<int>, shardRate: seq<int>, shardFlow: seq<int>, s: int)
      returns (rate': seq<int>, flow': seq<int>, core: Option<int>)
      requires Valid() && |rate| == |nfvCores| && |flow| == |nfvCores|
      requires ShardOk(EnvOf(shardRate, shardFlow), s)
      modifies this
      ensures Valid() && |rate'| == |nfvCores| && |flow'| == |nfvCores|
      ensures Placement(Snapshot(rate', flow'), core) ==
        PlaceShard(EnvOf(shardRate, shardFlow), old(Snapshot(rate, flow)), s)
    {
      var i := FirstFittingCore(rate, flow, shardRate, shardFlow, s);
      if i < |nfvCores| {
        rate' := rate[i := rate[i] + shardRate[s]];
        flow' := flow[i := flow[i] + shardFlow[s]];
        shardMapping := shardMapping[i := shardMapping[i] + [s]];
        core := Some(i);
        return;
      }
      var j := FirstIdleCore(rate, flow, shardRate, shardFlow);
      if j < |nfvCores| {
        rate' := rate[j := rate[j] + shardRate[s]];
        flow' := flow[j := flow[j] + shardFlow[s]];
        shardMapping := shardMapping[j := shardMapping[j] + [s]];
        coreState := coreState[j := true];
        coreLiveness := coreLiveness[j := 1];
        activeCoreCount := activeCoreCount + 1;
        core := Some(j);
        return;
      }
      rate', flow', core := rate, flow, None;
    }

    /** `FindMoves`: the moves made, the per-core totals afterwards, and the
        shards left over (`to_move_shards` on return). */
    method FindMoves(rate: seq<int>, flow: seq<int>, shardRate: seq<int>, shardFlow: seq<int>, toMove: seq<int>)
      returns (rate': seq<int>, flow': seq<int>, moves: map<int, int>, skipped: seq<int>)
      requires Valid() && |rate| == |nfvCores| && |flow| == |nfvCores|
      requires ShardsOk(EnvOf(shardRate, shardFlow), toMove)
      modifies this
      ensures Valid() && |rate'| == |nfvCores| && |flow'| == |nfvCores|
      ensures Packing(Snapshot(rate', flow'), moves, skipped) ==
        Pack(EnvOf(shardRate, shardFlow), old(Snapshot(rate, flow)), toMove)
    {
      ghost var env, c0 := EnvOf(shardRate, shardFlow), Snapshot(rate, flow);
      rate', flow', moves, skipped := rate, flow, map[], [];
      var k := 0;
      while k < |toMove|
        invariant 0 <= k <= |toMove| && Valid() && |rate'| == |nfvCores| && |flow'| == |nfvCores|
        invariant ShardsOk(env, toMove[..k])
        invariant Packing(Snapshot(rate', flow'), moves, skipped) == Pack(env, c0, toMove[..k])
      {
        PackStep(env, c0, toMove, k);
        var s := toMove[k];
        var core;
        rate', flow', core := PlaceOne(rate', flow', shardRate, shardFlow, s);
        if core.Some? {
          moves := moves[s := core.value];
        } else {
          skipped := skipped + [s];
        }
        k := k + 1;
      }
      assert toMove[..k] == toMove;
    }

    /** The inner loop of the first pass: one core's packet rate and flow
        count. */
    method SumShards(shardRate: seq<int>, shardFlow: seq<int>, shards: seq<int>) returns (r: int, f: int)
      requires ShardsOk(EnvOf(shardRate, shardFlow), shards)
      ensures r == SumRate(EnvOf(shardRate, shardFlow), shards)
      ensures f == SumFlow(EnvOf(shardRate, shardFlow), shards)
    {
      ghost var env := EnvOf(shardRate, shardFlow);
      r, f := 0, 0;
      var k := 0;
      while k < |shards|
        invariant 0 <= k <= |shards| && ShardsOk(env, shards[..k])
        invariant r == SumRate(env, shards[..k]) && f == SumFlow(env, shards[..k])
      {
        assert shards[..k + 1][..k] == shards[..k];
        r := r + shardRate[shards[k]];
        f := f + shardFlow[shards[k]];
        k := k + 1;
      }
      assert shards[..k] == shards;
    }

    /** The first pass for core i. */
    method TotalsOne(shardRate: seq<int>, shardFlow: seq<int>, s0: bool, l0: int, i: int)
      returns (r: int, f: int, s: bool, l: int, inc: int)
      requires Valid() && MappingOk(EnvOf(shardRate, shardFlow), shardMapping) && 0 <= i < |nfvCores|
      ensures r == SumRate(EnvOf(shardRate, shardFlow), shardMapping[i])
      ensures f == SumFlow(EnvOf(shardRate, shardFlow), shardMapping[i])
      ensures s == (s0 || |shardMapping[i]| > 0)
      ensures l == (if |shardMapping[i]| > 0 then l0 + 1 else l0)
      ensures inc == (if |shardMapping[i]| > 0 then 1 else 0)
    {
      r, f, s, l, inc := 0, 0, s0, l0, 0;
      if |shardMapping[i]| > 0 {
        r, f := SumShards(shardRate, shardFlow, shardMapping[i]);
        s, l, inc := true, l0 + 1, 1;
      }
    }

    /** The first pass of `LongTermOptimization`: the per-core totals, and
        every core with shards marked in use, one epoch older and counted
        (the new flags, liveness and count are returned for the caller to
        store). */
    method ComputeTotals(shardRate: seq<int>, shardFlow: seq<int>)
      returns (rate: seq<int>, flow: seq<int>, state: seq<bool>, liveness: seq<int>, active: int)
      requires Valid() && MappingOk(EnvOf(shardRate, shardFlow), shardMapping)
      ensures Cores(rate, flow, state, liveness, active, shardMapping) ==
        Totals(EnvOf(shardRate, shardFlow), coreState, coreLiveness, shardMapping)
    {
      rate, flow, state, liveness, active := TotalsLoop(shardRate, shardFlow);
      TotalsAt(EnvOf(shardRate, shardFlow), coreState, coreLiveness, shardMapping);
    }

    /** The loop of the first pass, core by core. */
    method TotalsLoop(shardRate: seq<int>, shardFlow: seq<int>)
      returns (rate: seq<int>, flow: seq<int>, state: seq<bool>, liveness: seq<int>, active: int)
      requires Valid() && MappingOk(EnvOf(shardRate, shardFlow), shardMapping)
      ensures |rate| == |nfvCores| && |flow| == |nfvCores| && |state| == |nfvCores| && |liveness| == |nfvCores|
      ensures forall j :: 0 <= j < |nfvCores| ==>
        rate[j] == SumRate(EnvOf(shardRate, shardFlow), shardMapping[j]) &&
        flow[j] == SumFlow(EnvOf(shardRate, shardFlow), shardMapping[j])
      ensures forall j :: 0 <= j < |nfvCores| ==>
        state[j] == (coreState[j] || |shardMapping[j]| > 0) &&
        liveness[j] == (if |shardMapping[j]| > 0 then coreLiveness[j] + 1 else coreLiveness[j])
      ensures active == NonEmptyCount(shardMapping)
    {
      ghost var env := EnvOf(shardRate, shardFlow);
      var n, mapping, state0, liveness0 := |nfvCores|, shardMapping, coreState, coreLiveness;
      state, liveness, active := state0, liveness0, 0;
      rate, flow := seq(n, _ => 0), seq(n, _ => 0);
      var i := 0;
      while i < n
        invariant 0 <= i <= n && |rate| == n && |flow| == n && |state| == n && |liveness| == n
        invariant TotalledUpTo(env, state0, liveness0, mapping, Cores(rate, flow, state, liveness, active, mapping), i)
      {
        var r, f, s, l, inc := TotalsOne(shardRate, shardFlow, state[i], liveness[i], i);
        TotalledStep(env, state0, liveness0, mapping, Cores(rate, flow, state, liveness, active, mapping), i,
                     r, f, s, l, inc);
        rate, flow, state, liveness := rate[i := r], flow[i := f], state[i := s], liveness[i := l];
        active := active + inc;
        i := i + 1;
      }
      assert mapping[..i] == mapping;
    }

    /** One turn of the drain loop on core i. */
    method PopOne(rate: seq<int>, flow: seq<int>, shardRate: seq<int>, shardFlow: seq<int>,
                  toMove: seq<int>, origin: map<int, int>, i: int)
      returns (rate': seq<int>, flow': seq<int>, toMove': seq<int>, origin': map<int, int>)
      requires Valid() && |rate| == |nfvCores| && |flow| == |nfvCores| && 0 <= i < |nfvCores|
      requires MappingOk(EnvOf(shardRate, shardFlow), shardMapping) && |shardMapping[i]| > 0
      modifies this
      ensures Valid() && |rate'| == |nfvCores| && |flow'| == |nfvCores|
      ensures MappingOk(EnvOf(shardRate, shardFlow), shardMapping)
      ensures Drained(Snapshot(rate', flow'), toMove', origin') ==
        PopShard(EnvOf(shardRate, shardFlow), Drained(old(Snapshot(rate, flow)), toMove, origin), i)
    {
      var m := shardMapping[i];
      var b := m[|m| - 1];
      assert ShardOk(EnvOf(shardRate, shardFlow), b) && ShardsOk(EnvOf(shardRate, shardFlow), m[..|m| - 1]);
      toMove' := toMove + [b];
      origin' := if b in origin then origin else origin[b := i];
      shardMapping := shardMapping[i := m[..|m| - 1]];
      rate' := rate[i := rate[i] - shardRate[b]];
      flow' := flow[i := flow[i] - shardFlow[b]];
      coreLiveness := coreLiveness[i := 1];
    }

    /** The drain loop of `LongTermOptimization` on core i. */
    method DrainCoreLoop(rate: seq<int>, flow: seq<int>, shardRate: seq<int>, shardFlow: seq<int>,
                         toMove: seq<int>, origin: map<int, int>, i: int)
      returns (rate': seq<int>, flow': seq<int>, toMove': seq<int>, origin': map<int, int>)
      requires Valid() && |rate| == |nfvCores| && |flow| == |nfvCores| && 0 <= i < |nfvCores|
      requires MappingOk(EnvOf(shardRate, shardFlow), shardMapping)
      modifies this
      ensures Valid() && |rate'| == |nfvCores| && |flow'| == |nfvCores|
      ensures MappingOk(EnvOf(shardRate, shardFlow), shardMapping)
      ensures Drained(Snapshot(rate', flow'), toMove', origin') ==
        DrainCore(EnvOf(shardRate, shardFlow), Drained(old(Snapshot(rate, flow)), toMove, origin), i)
    {
      ghost var env := EnvOf(shardRate, shardFlow);
      ghost var d0 := Drained(Snapshot(rate, flow), toMove, origin);
      rate', flow', toMove', origin' := rate, flow, toMove, origin;
      while rate'[i] as real > (MaxRate(profile, flow'[i]) as real) * (1.0 - MigrateHeadRoom) &&
            |shardMapping[i]| > 0
        invariant Valid() && |rate'| == |nfvCores| && |flow'| == |nfvCores|
        invariant MappingOk(env, shardMapping)
        invariant DrainCore(env, Drained(Snapshot(rate', flow'), toMove', origin'), i) == DrainCore(env, d0, i)
        decreases |shardMapping[i]|
      {
        assert Overloaded(env, Snapshot(rate', flow'), i);
        rate', flow', toMove', origin' := PopOne(rate', flow', shardRate, shardFlow, toMove', origin', i);
      }
    }

    /** The second pass of `LongTermOptimization`: every core in use is
        drained in core order. */
    method DrainOverloaded(rate: seq<int>, flow: seq<int>, shardRate: seq<int>, shardFlow: seq<int>)
      returns (rate': seq<int>, flow': seq<int>, toMove: seq<int>, origin: map<int, int>)
      requires Valid() && |rate| == |nfvCores| && |flow| == |nfvCores|
      requires MappingOk(EnvOf(shardRate, shardFlow), shardMapping)
      modifies this
      ensures Valid() && |rate'| == |nfvCores| && |flow'| == |nfvCores|
      ensures Drained(Snapshot(rate', flow'), toMove, origin) ==
        DrainAll(EnvOf(shardRate, shardFlow), Drained(old(Snapshot(rate, flow)), [], map[]), |nfvCores|)
    {
      ghost var env := EnvOf(shardRate, shardFlow);
      ghost var d0 := Drained(Snapshot(rate, flow), [], map[]);
      rate', flow', toMove, origin := rate, flow, [], map[];
      var i := 0;
      while i < |nfvCores|
        invariant 0 <= i <= |nfvCores| && Valid() && |rate'| == |nfvCores| && |flow'| == |nfvCores|
        invariant MappingOk(env, shardMapping)
        invariant Drained(Snapshot(rate', flow'), toMove, origin) == DrainAll(env, d0, i)
      {
        if coreState[i] {
          rate', flow', toMove, origin := DrainCoreLoop(rate', flow', shardRate, shardFlow, toMove, origin, i);
        }
        i := i + 1;
      }
    }

    /** The third pass: each skipped shard goes back to the core it came
        from. */
    method PutBackSkipped(rate: seq<int>, flow: seq<int>, shardRate: seq<int>, shardFlow: seq<int>,
                          skipped: seq<int>, origin: map<int, int>)
      returns (rate': seq<int>, flow': seq<int>)
      requires Valid() && |rate| == |nfvCores| && |flow| == |nfvCores|
      requires ShardsOk(EnvOf(shardRate, shardFlow), skipped) && OriginsOk(EnvOf(shardRate, shardFlow), origin)
      requires forall k :: 0 <= k < |skipped| ==> skipped[k] in origin
      modifies this
      ensures Valid() && |rate'| == |nfvCores| && |flow'| == |nfvCores|
      ensures Snapshot(rate', flow') ==
        PutBack(EnvOf(shardRate, shardFlow), old(Snapshot(rate, flow)), skipped, origin)
    {
      ghost var env, c0 := EnvOf(shardRate, shardFlow), Snapshot(rate, flow);
      rate', flow' := rate, flow;
      var k := 0;
      while k < |skipped|
        invariant 0 <= k <= |skipped| && Valid() && |rate'| == |nfvCores| && |flow'| == |nfvCores|
        invariant ShardsOk(env, skipped[..k])
        invariant Snapshot(rate', flow') == PutBack(env, c0, skipped[..k], origin)
      {
        assert skipped[..k + 1][..k] == skipped[..k];
        var s := skipped[k];
        var core := OriginOf(origin, s);
        shardMapping := shardMapping[core := shardMapping[core] + [s]];
        rate' := rate'[core := rate'[core] + shardRate[s]];
        flow' := flow'[core := flow'[core] + shardFlow[s]];
        k := k + 1;
      }
      assert skipped[..k] == skipped;
    }

    /** The search for the reclaim candidate: the first core of least rate
        among the cores in use that have lived more than 4 epochs. */
    method FindMinRateCore(rate: seq<int>, flow: seq<int>, shardRate: seq<int>, shardFlow: seq<int>)
      returns (m: Option<int>)
      requires Valid() && |rate| == |nfvCores| && |flow| == |nfvCores|
      ensures m == MinRateCore(EnvOf(shardRate, shardFlow), Snapshot(rate, flow), |nfvCores|)
    {
      m := None;
      var minRate := 0;
      var i := 0;
      while i < |nfvCores|
        invariant 0 <= i <= |nfvCores|
        invariant m == MinRateCore(EnvOf(shardRate, shardFlow), Snapshot(rate, flow), i)
        invariant m.Some? ==> 0 <= m.value < i && minRate == rate[m.value]
      {
        if coreState[i] && coreLiveness[i] > ReclaimLiveness {
          if m.None? || rate[i] < minRate {
            m, minRate := Some(i), rate[i];
          }
        }
        i := i + 1;
      }
    }

    /** The candidate core of the reclaim step, if any. */
    method FindReclaimTarget(rate: seq<int>, flow: seq<int>, shardRate: seq<int>, shardFlow: seq<int>)
      returns (m: Option<int>)
      requires Valid() && Sized(EnvOf(shardRate, shardFlow), Snapshot(rate, flow))
      ensures m == ReclaimTarget(EnvOf(shardRate, shardFlow), Snapshot(rate, flow))
    {
      if activeCoreCount == 1 {
        return None;
      }
      m := FindMinRateCore(rate, flow, shardRate, shardFlow);
      if m.Some? && rate[m.value] > MaxRate(profile, flow[m.value]) / 2 {
        m := None;
      }
    }

    /** The trial of the reclaim step: core m's shards are packed as if its
        rate were the trial rate. */
    method RunTrial(rate: seq<int>, flow: seq<int>, shardRate: seq<int>, shardFlow: seq<int>, m: int)
      returns (moves: map<int, int>, skipped: seq<int>)
      requires Valid() && Consistent(EnvOf(shardRate, shardFlow), Snapshot(rate, flow)) && 0 <= m < |nfvCores|
      modifies this
      ensures Valid()
      ensures var t := Trial(EnvOf(shardRate, shardFlow), old(Snapshot(rate, flow)), m);
        coreState == t.cores.state && coreLiveness == t.cores.liveness && activeCoreCount == t.cores.active &&
        shardMapping == t.cores.mapping && moves == t.moves && skipped == t.skipped
    {
      var rate', flow';
      rate', flow', moves, skipped := FindMoves(rate[m := ReclaimTrialRate], flow, shardRate, shardFlow, shardMapping[m]);
    }

    /** The reclaim step with a failed trial rolled back entirely: the
        controller's state is saved before the trial and restored when the
        trial takes a new core into use, skips a shard or moves fewer
        shards than the candidate held. */
    method TryReclaim(rate: seq<int>, flow: seq<int>, shardRate: seq<int>, shardFlow: seq<int>,
                      shardMoves: map<int, int>)
      returns (moves: map<int, int>)
      requires Valid() && Consistent(EnvOf(shardRate, shardFlow), Snapshot(rate, flow))
      modifies this
      ensures Valid()
      ensures var r := ReclaimCorrected(EnvOf(shardRate, shardFlow), old(Snapshot(rate, flow)), shardMoves);
        coreState == r.cores.state && coreLiveness == r.cores.liveness &&
        activeCoreCount == r.cores.active && shardMapping == r.cores.mapping && moves == r.moves
    {
      moves := shardMoves;
      var mr := FindReclaimTarget(rate, flow, shardRate, shardFlow);
      if mr.Some? {
        moves := ReclaimOn(rate, flow, shardRate, shardFlow, shardMoves, mr.value);
      }
    }

    /** The trial on the candidate core m and its outcome. */
    method ReclaimOn(rate: seq<int>, flow: seq<int>, shardRate: seq<int>, shardFlow: seq<int>,
                     shardMoves: map<int, int>, m: int)
      returns (moves: map<int, int>)
      requires Valid() && Consistent(EnvOf(shardRate, shardFlow), Snapshot(rate, flow)) && 0 <= m < |nfvCores|
      modifies this
      ensures Valid()
      ensures var c := old(Snapshot(rate, flow));
        var t := Trial(EnvOf(shardRate, shardFlow), c, m);
        var r := if TrialFailed(c, m, t) then LtResult(c, shardMoves)
                 else LtResult(Release(t.cores, m), shardMoves + t.moves);
        coreState == r.cores.state && coreLiveness == r.cores.liveness &&
        activeCoreCount == r.cores.active && shardMapping == r.cores.mapping && moves == r.moves
    {
      moves := shardMoves;
      var orgState, orgLiveness, orgActive, orgMapping := coreState, coreLiveness, activeCoreCount, shardMapping;
      var pack := shardMapping[m];
      var tmp, skipped := RunTrial(rate, flow, shardRate, shardFlow, m);
      if activeCoreCount > orgActive || |skipped| > 0 || |tmp| != |pack| {
        coreState, coreLiveness, activeCoreCount, shardMapping := orgState, orgLiveness, orgActive, orgMapping;
      } else {
        shardMapping := shardMapping[m := []];
        coreState := coreState[m := false];
        activeCoreCount := activeCoreCount - 1;
        moves := shardMoves + tmp;
      }
    }

    /** `LongTermOptimization`, with the reclaim step's rollback
        corrected. */
    method LongTermOptimization(shardRate: seq<int>, shardFlow: seq<int>) returns (moves: map<int, int>)
      requires Valid() && MappingOk(EnvOf(shardRate, shardFlow), shardMapping)
      modifies this
      ensures Valid()
      ensures var r := LongTermCorrected(EnvOf(shardRate, shardFlow), old(coreState), old(coreLiveness), old(shardMapping));
        coreState == r.cores.state && coreLiveness == r.cores.liveness &&
        activeCoreCount == r.cores.active && shardMapping == r.cores.mapping && moves == r.moves
    {
      ghost var env := EnvOf(shardRate, shardFlow);
      ghost var c0 := Totals(env, coreState, coreLiveness, shardMapping);
      var rate, flow, state, liveness, active := ComputeTotals(shardRate, shardFlow);
      coreState, coreLiveness, activeCoreCount := state, liveness, active;
      assert Snapshot(rate, flow) == c0;
      var toMove, origin;
      rate, flow, toMove, origin := DrainOverloaded(rate, flow, shardRate, shardFlow);
      ghost var d := DrainAll(env, Drained(c0, [], map[]), |nfvCores|);
      DrainAllConsistent(env, Drained(c0, [], map[]), |nfvCores|);
      DrainAllOrigins(env, Drained(c0, [], map[]), |nfvCores|);
      var skipped;
      rate, flow, moves, skipped := FindMoves(rate, flow, shardRate, shardFlow, toMove);
      ghost var p := Pack(env, d.cores, d.toMove);
      PackConsistent(env, d.cores, d.toMove);
      SkippedHaveOrigins(env, d, p);
      rate, flow := PutBackSkipped(rate, flow, shardRate, shardFlow, skipped, origin);
      PutBackConsistent(env, p.cores, p.skipped, d.origin);
      moves := TryReclaim(rate, flow, shardRate, shardFlow, moves);
    }

    /** One turn of the halving loop of `OnDemandLongTermOptimization`:
        core i's last shard comes off and is queued. */
    method PopBack(rate: seq<int>, flow: seq<int>, shardRate: seq<int>, shardFlow: seq<int>,
                   toMove: seq<int>, i: int)
      returns (rate': seq<int>, flow': seq<int>, toMove': seq<int>)
      requires Valid() && |rate| == |nfvCores| && |flow| == |nfvCores| && 0 <= i < |nfvCores|
      requires MappingOk(EnvOf(shardRate, shardFlow), shardMapping) && |shardMapping[i]| > 0
      modifies this
      ensures Valid() && |rate'| == |nfvCores| && |flow'| == |nfvCores|
      ensures MappingOk(EnvOf(shardRate, shardFlow), shardMapping)
      ensures Snapshot(rate', flow') == PopLast(EnvOf(shardRate, shardFlow), old(Snapshot(rate, flow)), i)
      ensures toMove' == toMove + [old(shardMapping[i][|shardMapping[i]| - 1])]
    {
      var m := shardMapping[i];
      var b := m[|m| - 1];
      assert ShardOk(EnvOf(shardRate, shardFlow), b) && ShardsOk(EnvOf(shardRate, shardFlow), m[..|m| - 1]);
      toMove' := toMove + [b];
      shardMapping := shardMapping[i := m[..|m| - 1]];
      rate' := rate[i := rate[i] - shardRate[b]];
      flow' := flow[i := flow[i] - shardFlow[b]];
      coreLiveness := coreLiveness[i := 1];
    }

    /** The halving loop: shards come off core i while its rate exceeds
        the target and it has shards. */
    method HalveLoop(rate: seq<int>, flow: seq<int>, shardRate: seq<int>, shardFlow: seq<int>,
                     i: int, target: int)
      returns (rate': seq<int>, flow': seq<int>, toMove: seq<int>)
      requires Valid() && |rate| == |nfvCores| && |flow| == |nfvCores| && 0 <= i < |nfvCores|
      requires MappingOk(EnvOf(shardRate, shardFlow), shardMapping)
      modifies this
      ensures Valid() && |rate'| == |nfvCores| && |flow'| == |nfvCores|
      ensures (Snapshot(rate', flow'), toMove) ==
        Halve(EnvOf(shardRate, shardFlow), old(Snapshot(rate, flow)), [], i, target)
    {
      ghost var env, c0 := EnvOf(shardRate, shardFlow), Snapshot(rate, flow);
      rate', flow', toMove := rate, flow, [];
      while rate'[i] > target && |shardMapping[i]| > 0
        invariant Valid() && |rate'| == |nfvCores| && |flow'| == |nfvCores|
        invariant MappingOk(env, shardMapping)
        invariant Halve(env, Snapshot(rate', flow'), toMove, i, target) == Halve(env, c0, [], i, target)
        decreases |shardMapping[i]|
      {
        rate', flow', toMove := PopBack(rate', flow', shardRate, shardFlow, toMove, i);
      }
    }

    /** The search for `mr_core`: the first normal core of least rate. */
    method FindLeastRateCore(rate: seq<int>, flow: seq<int>, shardRate: seq<int>, shardFlow: seq<int>)
      returns (m: Option<int>)
      requires Valid() && |rate| == |nfvCores| && |flow| == |nfvCores|
      ensures m == MinRateNormal(EnvOf(shardRate, shardFlow), Snapshot(rate, flow), |nfvCores|)
    {
      ghost var env, c := EnvOf(shardRate, shardFlow), Snapshot(rate, flow);
      m := None;
      var minRate := 0;
      var i := 0;
      while i < |nfvCores|
        invariant 0 <= i <= |nfvCores|
        invariant m == MinRateNormal(env, c, i)
        invariant m.Some? ==> minRate == rate[m.value]
      {
        if nfvCores[i] {
          if m.None? {
            m, minRate := Some(i), rate[i];
          } else if rate[i] < minRate {
            m, minRate := Some(i), rate[i];
          }
        }
        i := i + 1;
      }
    }

    /** The last loop of `OnDemandLongTermOptimization`: every queued shard
        goes to core t. */
    method MoveAllTo(rate: seq<int>, flow: seq<int>, shardRate: seq<int>, shardFlow: seq<int>,
                     toMove: seq<int>, t: int)
      returns (rate': seq<int>, flow': seq<int>, moves: map<int, int>)
      requires Valid() && |rate| == |nfvCores| && |flow| == |nfvCores| && 0 <= t < |nfvCores|
      requires ShardsOk(EnvOf(shardRate, shardFlow), toMove)
      modifies this
      ensures Valid() && |rate'| == |nfvCores| && |flow'| == |nfvCores|
      ensures LtResult(Snapshot(rate', flow'), moves) ==
        MoveAll(EnvOf(shardRate, shardFlow), old(Snapshot(rate, flow)), toMove, t)
    {
      ghost var env, c0 := EnvOf(shardRate, shardFlow), Snapshot(rate, flow);
      rate', flow', moves := rate, flow, map[];
      var k := 0;
      while k < |toMove|
        invariant 0 <= k <= |toMove| && Valid() && |rate'| == |nfvCores| && |flow'| == |nfvCores|
        invariant ShardsOk(env, toMove[..k])
        invariant LtResult(Snapshot(rate', flow'), moves) == MoveAll(env, c0, toMove[..k], t)
      {
        assert toMove[..k + 1][..k] == toMove[..k];
        var b := toMove[k];
        rate' := rate'[t := rate'[t] + shardRate[b]];
        flow' := flow'[t := flow'[t] + shardFlow[b]];
        moves := moves[b := t];
        shardMapping := shardMapping[t := shardMapping[t] + [b]];
        k := k + 1;
      }
      assert toMove[..k] == toMove;
    }

    /** `OnDemandLongTermOptimization(core_id, ...)`: half of core_id's
        load moves to the first normal core of least rate. */
    method OnDemandLongTermOptimization(core: int, shardRate: seq<int>, shardFlow: seq<int>)
      returns (moves: map<int, int>)
      requires Valid() && MappingOk(EnvOf(shardRate, shardFlow), shardMapping) && 0 <= core < |nfvCores|
      requires exists j :: 0 <= j < |nfvCores| && nfvCores[j]
      modifies this
      ensures Valid()
      ensures var r := OnDemand(EnvOf(shardRate, shardFlow), old(coreState), old(coreLiveness),
                                 old(activeCoreCount), old(shardMapping), core);
        coreState == r.cores.state && coreLiveness == r.cores.liveness &&
        activeCoreCount == r.cores.active && shardMapping == r.cores.mapping && moves == r.moves
    {
      ghost var env := EnvOf(shardRate, shardFlow);
      ghost var c0 := OnDemandTotals(env, coreState, coreLiveness, activeCoreCount, shardMapping);
      var rate, flow, state, liveness, _ := ComputeTotals(shardRate, shardFlow);
      coreState, coreLiveness := state, liveness;
      assert Snapshot(rate, flow) == c0;
      var toMove;
      rate, flow, toMove := HalveLoop(rate, flow, shardRate, shardFlow, core, rate[core] / 2);
      HalveConsistent(env, c0, [], core, c0.rate[core] / 2);
      moves := MoveToLeastCore(rate, flow, shardRate, shardFlow, toMove);
    }

    /** The second half of `OnDemandLongTermOptimization`: `mr_core` is
        found, put in use if it is not, and receives the queued shards. */
    method MoveToLeastCore(rate: seq<int>, flow: seq<int>, shardRate: seq<int>, shardFlow: seq<int>,
                           toMove: seq<int>)
      returns (moves: map<int, int>)
      requires Valid() && |rate| == |nfvCores| && |flow| == |nfvCores|
      requires ShardsOk(EnvOf(shardRate, shardFlow), toMove)
      requires exists j :: 0 <= j < |nfvCores| && nfvCores[j]
      modifies this
      ensures Valid()
      ensures var r := MoveToLeast(EnvOf(shardRate, shardFlow), old(Snapshot(rate, flow)), toMove);
        coreState == r.cores.state && coreLiveness == r.cores.liveness &&
        activeCoreCount == r.cores.active && shardMapping == r.cores.mapping && moves == r.moves
    {
      var mr := FindLeastRateCore(rate, flow, shardRate, shardFlow);
      MinRateNormalSpec(EnvOf(shardRate, shardFlow), Snapshot(rate, flow), |nfvCores|);
      var t := mr.value;
      if !coreState[t] {
        coreState := coreState[t := true];
        coreLiveness := coreLiveness[t := 1];
        activeCoreCount := activeCoreCount + 1;
      }
      var rate', flow';
      rate', flow', moves := MoveAllTo(rate, flow, shardRate, shardFlow, toMove, t);
    }
  }
}
