// The RSS redirection state of a DPDK port (`PMDPort::UpdateRssReta` and
// `PMDPort::UpdateRssFlow`).  The port keeps an in-memory copy of the NIC's
// indirection table (bucket -> core), the configuration array handed to
// the NIC, and, when the NIC supports group flow tables, two alternating
// RSS flow rules plus a redirection rule from group 0 to the current one.
module PmdRss {
  import opened Util

  // ---------------------------------------------------------------------
  // Constants and the flat configuration array.

  /** `RTE_RETA_GROUP_SIZE`: entries per `rte_eth_rss_reta_entry64`. */
  const GroupSize: int := 64
  /** `reta_conf_` holds 8 groups of `GroupSize` entries. */
  const ConfEntries: int := 8 * 64
  const Two16: int := 0x1_0000

  predicate IsU16(x: int)
  {
    0 <= x < Two16
  }

  /** Entry `reta[c]` of group `reta_conf_[g]`, in the flat copy of
      `reta_conf_` this model keeps. */
  function ConfIndex(g: int, c: int): int
  {
    g * GroupSize + c
  }

  /** Bucket j's entry of the configuration array is element j of the flat
      copy. */
  lemma ConfIndexOfBucket(j: int)
    requires 0 <= j
    ensures ConfIndex(j / GroupSize, j % GroupSize) == j
  {
  }

  /** A `std::map<uint16_t, uint16_t>` of moves: keys and values are
      16-bit. */
  predicate MovesOk(moves: map<int, int>)
  {
    forall b :: b in moves ==> IsU16(b) && IsU16(moves[b])
  }

  /** Every moved bucket indexes the table. */
  predicate InTable(moves: map<int, int>, n: int)
  {
    forall b :: b in moves ==> 0 <= b < n
  }

  /** The configuration array mirrors the table. */
  predicate Synced(t: seq<int>, conf: seq<int>)
  {
    |t| <= |conf| && conf[..|t|] == t
  }

  // ---------------------------------------------------------------------
  // Resetting the table.

  /** The first n entries set to 0, the others kept. */
  function Zeroed(s: seq<int>, n: int): (r: seq<int>)
    ensures |r| == |s|
  {
    seq(|s|, j requires 0 <= j < |s| => if j < n then 0 else s[j])
  }

  /** After a reset the table is all zero and mirrored by the configuration
      array, whose entries beyond the table are untouched. */
  lemma ZeroedSynced(t: seq<int>, conf: seq<int>)
    requires |t| <= |conf| && forall j :: 0 <= j < |t| ==> t[j] == 0
    ensures Synced(t, Zeroed(conf, |t|)) && Zeroed(conf, |t|)[|t|..] == conf[|t|..]
  {
    assert Zeroed(conf, |t|)[..|t|] == t;
  }

  // ---------------------------------------------------------------------
  // Bucket moves.

  /** The table with every moved bucket holding its new core. */
  function Remapped(t: seq<int>, moves: map<int, int>): (r: seq<int>)
    ensures |r| == |t|
  {
    seq(|t|, j requires 0 <= j < |t| => if j in moves then moves[j] else t[j])
  }

  predicate KeysIn(moves: map<int, int>, keys: seq<int>, n: int)
  {
    forall k :: 0 <= k < |keys| ==> keys[k] in moves && 0 <= keys[k] < n
  }

  /** The loop over the moves in key order: each move sets its bucket, and
      the count grows by one for each bucket whose value changes. */
  function Remap(t: seq<int>, moves: map<int, int>, keys: seq<int>): (r: (seq<int>, nat))
    requires KeysIn(moves, keys, |t|)
    ensures |r.0| == |t|
  {
    if keys == [] then (t, 0)
    else
      var p := Remap(t, moves, keys[..|keys| - 1]);
      var b := keys[|keys| - 1];
      (p.0[b := moves[b]], p.1 + (if p.0[b] != moves[b] then 1 else 0))
  }

  /** Over distinct keys, the loop sets exactly the listed buckets; the
      count is zero exactly when every listed bucket already held its
      core. */
  lemma {:induction false} RemapSpec(t: seq<int>, moves: map<int, int>, keys: seq<int>)
    requires KeysIn(moves, keys, |t|) && StrictlyAscending(keys)
    ensures var r := Remap(t, moves, keys);
      (forall j :: 0 <= j < |t| ==> r.0[j] == if j in keys then moves[j] else t[j]) &&
      (r.1 == 0 <==> forall k :: 0 <= k < |keys| ==> t[keys[k]] == moves[keys[k]])
  {
    if keys != [] {
      var init := keys[..|keys| - 1];
      var b := keys[|keys| - 1];
      RemapSpec(t, moves, init);
      assert b !in init;
      assert forall j :: j in keys <==> j in init || j == b;
    }
  }

  /** The moves' keys in order, as the `std::map` iterates them. */
  lemma SortedKeysIn(moves: map<int, int>, n: int)
    requires InTable(moves, n)
    ensures KeysIn(moves, SortedKeys(moves.Keys), n) && StrictlyAscending(SortedKeys(moves.Keys))
  {
    var keys := SortedKeys(moves.Keys);
    forall k | 0 <= k < |keys| ensures keys[k] in moves && 0 <= keys[k] < n {
      assert keys[k] in keys;
    }
  }

  /** With all the moves' keys in order, the loop yields `Remapped`, and
      counts zero exactly when the table does not change. */
  lemma RemapAll(t: seq<int>, moves: map<int, int>)
    requires InTable(moves, |t|)
    ensures KeysIn(moves, SortedKeys(moves.Keys), |t|)
    ensures var r := Remap(t, moves, SortedKeys(moves.Keys));
      r.0 == Remapped(t, moves) && (r.1 == 0 <==> Remapped(t, moves) == t)
  {
    var keys := SortedKeys(moves.Keys);
    SortedKeysIn(moves, |t|);
    RemapSpec(t, moves, keys);
    UnchangedIff(t, moves, keys);
    var r := Remap(t, moves, keys);
    var m := Remapped(t, moves);
    forall j | 0 <= j < |t| ensures r.0[j] == m[j] {
      assert j in keys <==> j in moves;
    }
    assert r.0 == m;
  }

  /** The table keeps its value exactly when every moved bucket already held
      its core. */
  lemma UnchangedIff(t: seq<int>, moves: map<int, int>, keys: seq<int>)
    requires KeysIn(moves, keys, |t|) && forall j :: j in moves <==> j in keys
    ensures (forall k :: 0 <= k < |keys| ==> t[keys[k]] == moves[keys[k]]) <==> Remapped(t, moves) == t
  {
    var m := Remapped(t, moves);
    if forall k :: 0 <= k < |keys| ==> t[keys[k]] == moves[keys[k]] {
      forall j | 0 <= j < |t| ensures m[j] == t[j] {
        if j in moves {
          var k :| 0 <= k < |keys| && keys[k] == j;
        }
      }
      assert m == t;
    } else {
      var k :| 0 <= k < |keys| && t[keys[k]] != moves[keys[k]];
      assert m[keys[k]] != t[keys[k]];
    }
  }

  /** Applying the same moves a second time changes nothing and counts no
      remapping. */
  lemma RemapIdempotent(t: seq<int>, moves: map<int, int>)
    requires InTable(moves, |t|)
    ensures KeysIn(moves, SortedKeys(moves.Keys), |t|)
    ensures var r := Remap(Remapped(t, moves), moves, SortedKeys(moves.Keys));
      r.0 == Remapped(t, moves) && r.1 == 0
  {
    RemapAll(t, moves);
    RemapAll(Remapped(t, moves), moves);
    assert Remapped(Remapped(t, moves), moves) == Remapped(t, moves);
  }

  /** Moves applied to a mirrored pair keep it mirrored. */
  lemma RemappedSynced(t: seq<int>, conf: seq<int>, moves: map<int, int>)
    requires Synced(t, conf) && InTable(moves, |t|)
    ensures Synced(Remapped(t, moves), Remapped(conf, moves))
    ensures Remapped(conf, moves)[|t|..] == conf[|t|..]
  {
    assert forall j :: 0 <= j < |t| ==> conf[j] == conf[..|t|][j];
    assert Remapped(conf, moves)[..|t|] == Remapped(t, moves);
  }

  // ---------------------------------------------------------------------
  // Shard moves: shard s owns buckets s, s + T, s + 2T, ... below the
  // table size, for T = `total_shards`.

  predicate OnStride(j: int, s: int, T: int)
    requires T > 0
  {
    s <= j && (j - s) % T == 0
  }

  /** The inner loop from `reta_id` = j: each bucket on the stride that
      does not hold c yet is set to c and counted. */
  function Stride(t: seq<int>, cnt: nat, c: int, T: int, j: int): (r: (seq<int>, nat))
    requires T > 0 && 0 <= j
    ensures |r.0| == |t|
    decreases |t| - j
  {
    if j >= |t| then (t, cnt)
    else if t[j] != c then Stride(t[j := c], cnt + 1, c, T, j + T)
    else Stride(t, cnt, c, T, j + T)
  }

  /** The configuration writes of that loop, each into the entry of the
      bucket it changes. */
  function StrideConf(t: seq<int>, conf: seq<int>, c: int, T: int, j: int): (r: seq<int>)
    requires T > 0 && 0 <= j && |t| <= |conf|
    ensures |r| == |conf|
    decreases |t| - j
  {
    if j >= |t| then conf
    else if t[j] != c then
      ConfIndexOfBucket(j);
      StrideConf(t[j := c], conf[ConfIndex(j / GroupSize, j % GroupSize) := c], c, T, j + T)
    else StrideConf(t, conf, c, T, j + T)
  }

  lemma {:induction false} MulAtLeast(d: int, T: int)
    requires T > 0 && d >= 1
    ensures d * T >= T
    decreases d
  {
    if d > 1 {
      MulAtLeast(d - 1, T);
      assert d * T == (d - 1) * T + T;
    }
  }

  /** Euclidean remainders are unique. */
  lemma ModUnique(x: int, T: int, q: int, r: int)
    requires T > 0 && x == q * T + r && 0 <= r < T
    ensures x % T == r
  {
    var q', r' := x / T, x % T;
    assert (q - q') * T == r' - r;
    if q - q' >= 1 {
      MulAtLeast(q - q', T);
    } else if q' - q >= 1 {
      MulAtLeast(q' - q, T);
    }
  }

  lemma StrideNext(i: int, j: int, T: int)
    requires T > 0
    ensures OnStride(i, j, T) <==> i == j || OnStride(i, j + T, T)
  {
    var x := i - j;
    if x == 0 {
      ModUnique(x, T, 0, 0);
    } else if x > 0 {
      var q := x / T;
      assert x == q * T + x % T;
      if x % T == 0 {
        if q < 0 {
          MulAtLeast(-q, T);
        } else if q > 0 {
          MulAtLeast(q, T);
          assert x - T == (q - 1) * T;
          ModUnique(x - T, T, q - 1, 0);
        }
      }
      if x >= T {
        var p := (x - T) / T;
        assert x - T == p * T + (x - T) % T;
        assert x == (p + 1) * T + (x - T) % T;
        ModUnique(x, T, p + 1, (x - T) % T);
      }
    }
  }

  /** The inner loop sets every bucket on the stride from j to c and keeps
      the others; its count stays the same exactly when no bucket
      changes. */
  lemma {:induction false} StrideSpec(t: seq<int>, cnt: nat, c: int, T: int, j: int)
    requires T > 0 && 0 <= j
    ensures var r := Stride(t, cnt, c, T, j);
      (forall i :: 0 <= i < |t| ==> r.0[i] == if OnStride(i, j, T) then c else t[i]) &&
      r.1 >= cnt && (r.1 == cnt <==> r.0 == t)
    decreases |t| - j
  {
    forall i | 0 <= i < |t| {
      StrideNext(i, j, T);
    }
    if j < |t| {
      if t[j] != c {
        StrideSpec(t[j := c], cnt + 1, c, T, j + T);
        assert Stride(t, cnt, c, T, j).0[j] != t[j];
      } else {
        StrideSpec(t, cnt, c, T, j + T);
      }
    } else {
      forall i | 0 <= i < |t| ensures !OnStride(i, j, T) {
      }
    }
  }

  /** The inner loop's writes keep the configuration array mirroring the
      table, and leave the entries beyond it untouched. */
  lemma {:induction false} StrideConfSynced(t: seq<int>, conf: seq<int>, cnt: nat, c: int, T: int, j: int)
    requires T > 0 && 0 <= j && Synced(t, conf)
    ensures Synced(Stride(t, cnt, c, T, j).0, StrideConf(t, conf, c, T, j))
    ensures StrideConf(t, conf, c, T, j)[|t|..] == conf[|t|..]
    decreases |t| - j
  {
    if j < |t| && t[j] != c {
      ConfIndexOfBucket(j);
      var conf' := conf[j := c];
      assert conf'[..|t|] == conf[..|t|][j := c];
      assert conf'[|t|..] == conf[|t|..];
      StrideConfSynced(t[j := c], conf', cnt + 1, c, T, j + T);
    } else if j < |t| {
      StrideConfSynced(t, conf, cnt, c, T, j + T);
    }
  }

  predicate ShardKeysOk(moves: map<int, int>, keys: seq<int>)
  {
    forall k :: 0 <= k < |keys| ==> keys[k] in moves && 0 <= keys[k]
  }

  /** The moves' shard ids in order, as the `std::map` iterates them. */
  lemma SortedShardKeys(moves: map<int, int>)
    requires MovesOk(moves)
    ensures ShardKeysOk(moves, SortedKeys(moves.Keys)) && StrictlyAscending(SortedKeys(moves.Keys))
  {
    var keys := SortedKeys(moves.Keys);
    forall k | 0 <= k < |keys| ensures keys[k] in moves && 0 <= keys[k] {
      assert keys[k] in keys;
    }
  }

  /** The outer loop over the shards in key order: table and count. */
  function Shards(t: seq<int>, moves: map<int, int>, keys: seq<int>, T: int): (r: (seq<int>, nat))
    requires T > 0 && ShardKeysOk(moves, keys)
    ensures |r.0| == |t|
  {
    if keys == [] then (t, 0)
    else
      var p := Shards(t, moves, keys[..|keys| - 1], T);
      var s := keys[|keys| - 1];
      Stride(p.0, p.1, moves[s], T, s)
  }

  /** The outer loop's configuration writes. */
  function ShardsConf(t: seq<int>, conf: seq<int>, moves: map<int, int>, keys: seq<int>, T: int): (r: seq<int>)
    requires T > 0 && ShardKeysOk(moves, keys) && |t| <= |conf|
    ensures |r| == |conf|
  {
    if keys == [] then conf
    else
      var init := keys[..|keys| - 1];
      var s := keys[|keys| - 1];
      StrideConf(Shards(t, moves, init, T).0, ShardsConf(t, conf, moves, init, T), moves[s], T, s)
  }

  /** No remapping counted means the table did not change. */
  lemma {:induction false} ShardsCountZero(t: seq<int>, moves: map<int, int>, keys: seq<int>, T: int)
    requires T > 0 && ShardKeysOk(moves, keys)
    ensures Shards(t, moves, keys, T).1 == 0 ==> Shards(t, moves, keys, T).0 == t
  {
    if keys != [] {
      var init := keys[..|keys| - 1];
      var s := keys[|keys| - 1];
      var p := Shards(t, moves, init, T);
      StrideSpec(p.0, p.1, moves[s], T, s);
      ShardsCountZero(t, moves, init, T);
    }
  }

  /** The shard writes keep the configuration array mirroring the table. */
  lemma {:induction false} ShardsConfSynced(t: seq<int>, conf: seq<int>, moves: map<int, int>, keys: seq<int>, T: int)
    requires T > 0 && ShardKeysOk(moves, keys) && Synced(t, conf)
    ensures Synced(Shards(t, moves, keys, T).0, ShardsConf(t, conf, moves, keys, T))
    ensures ShardsConf(t, conf, moves, keys, T)[|t|..] == conf[|t|..]
  {
    if keys != [] {
      var init := keys[..|keys| - 1];
      var s := keys[|keys| - 1];
      ShardsConfSynced(t, conf, moves, init, T);
      var p := Shards(t, moves, init, T);
      StrideConfSynced(p.0, ShardsConf(t, conf, moves, init, T), p.1, moves[s], T, s);
    }
  }

  /** For a shard below T, its stride is the buckets congruent to it. */
  lemma StrideIsResidue(i: int, s: int, T: int)
    requires T > 0 && 0 <= s < T && 0 <= i
    ensures OnStride(i, s, T) <==> i % T == s
  {
    if OnStride(i, s, T) {
      var q := (i - s) / T;
      assert i - s == q * T + (i - s) % T;
      ModUnique(i, T, q, s);
    }
    if i % T == s {
      var q := i / T;
      assert i == q * T + s;
      assert q >= 0 by {
        if q < 0 {
          MulAtLeast(-q, T);
        }
      }
      ModUnique(i - s, T, q, 0);
    }
  }

  /** With every shard below T and the shards in order, each bucket whose
      residue mod T is a moved shard holds that shard's core, and every
      other bucket keeps its value. */
  lemma {:induction false} ShardsClosedForm(t: seq<int>, moves: map<int, int>, keys: seq<int>, T: int)
    requires T > 0 && ShardKeysOk(moves, keys) && StrictlyAscending(keys)
    requires forall k :: 0 <= k < |keys| ==> keys[k] < T
    ensures forall i :: 0 <= i < |t| ==>
      Shards(t, moves, keys, T).0[i] == if i % T in keys then moves[i % T] else t[i]
  {
    if keys != [] {
      var init := keys[..|keys| - 1];
      var s := keys[|keys| - 1];
      ShardsClosedForm(t, moves, init, T);
      var p := Shards(t, moves, init, T);
      StrideSpec(p.0, p.1, moves[s], T, s);
      forall i | 0 <= i < |t| {
        StrideIsResidue(i, s, T);
      }
      assert forall j :: j in keys <==> j in init || j == s;
    }
  }

  /** The shard moves write the table of `ShardsClosedForm` whatever the
      table held, so applying them a second time changes nothing and counts
      no remapping. */
  lemma ShardsIdempotent(t: seq<int>, moves: map<int, int>, T: int)
    requires T > 0 && MovesOk(moves) && forall s :: s in moves ==> s < T
    ensures ShardKeysOk(moves, SortedKeys(moves.Keys))
    ensures var keys := SortedKeys(moves.Keys);
      var once := Shards(t, moves, keys, T).0;
      Shards(once, moves, keys, T) == (once, 0)
  {
    var keys := SortedKeys(moves.Keys);
    ShardsClosedForm(t, moves, keys, T);
    var once := Shards(t, moves, keys, T).0;
    ShardsClosedForm(once, moves, keys, T);
    var twice := Shards(once, moves, keys, T);
    assert twice.0 == once;
    ShardsCountZeroIff(once, moves, keys, T);
  }

  /** Over shards below T, the count is zero exactly when the table does
      not change. */
  lemma {:induction false} ShardsCountZeroIff(t: seq<int>, moves: map<int, int>, keys: seq<int>, T: int)
    requires T > 0 && ShardKeysOk(moves, keys) && StrictlyAscending(keys)
    requires forall k :: 0 <= k < |keys| ==> keys[k] < T
    ensures Shards(t, moves, keys, T).1 == 0 <==> Shards(t, moves, keys, T).0 == t
  {
    ShardsCountZero(t, moves, keys, T);
    if keys != [] {
      var init := keys[..|keys| - 1];
      var s := keys[|keys| - 1];
      var p := Shards(t, moves, init, T);
      StrideSpec(p.0, p.1, moves[s], T, s);
      ShardsCountZeroIff(t, moves, init, T);
      ShardsClosedForm(t, moves, init, T);
      ShardsClosedForm(t, moves, keys, T);
    }
  }

  // ---------------------------------------------------------------------
  // The shard variant's configuration writes as the source has them.

  /** The inner loop's configuration writes as `UpdateRssReta(moves,
      total_shards)` makes them: into column `shard % GroupSize` of the
      changed bucket's group, rather than the bucket's own column. */
  function StrideConfAsWritten(t: seq<int>, conf: seq<int>, s: int, c: int, T: int, j: int): (r: seq<int>)
    requires T > 0 && 0 <= j && 0 <= s && |t| <= ConfEntries && |conf| == ConfEntries
    ensures |r| == ConfEntries
    decreases |t| - j
  {
    if j >= |t| then conf
    else if t[j] != c then
      StrideConfAsWritten(t[j := c], conf[ConfIndex(j / GroupSize, s % GroupSize) := c], s, c, T, j + T)
    else StrideConfAsWritten(t, conf, s, c, T, j + T)
  }

  /** Shard 1 of 2 moved to core 5 on a four-bucket table that is all 0
      and mirrored: buckets 1 and 3 change, but both writes land in entry
      1, so the NIC would be told bucket 3 still maps to core 0. */
  lemma ShardConfAsWrittenDesyncs()
    ensures var t := [0, 0, 0, 0];
      var conf := seq(ConfEntries, _ => 0);
      Synced(t, conf) &&
      Stride(t, 0, 5, 2, 1) == ([0, 5, 0, 5], 2) &&
      StrideConfAsWritten(t, conf, 1, 5, 2, 1)[3] == 0 &&
      !Synced(Stride(t, 0, 5, 2, 1).0, StrideConfAsWritten(t, conf, 1, 5, 2, 1))
  {
    var t := [0, 0, 0, 0];
    var conf := seq(ConfEntries, _ => 0);
    assert conf[..4] == t;
    var conf1 := conf[1 := 5];
    assert t[1 := 5] == [0, 5, 0, 0] && [0, 5, 0, 0][3 := 5] == [0, 5, 0, 5];
    assert Stride(t, 0, 5, 2, 1) == Stride([0, 5, 0, 0], 1, 5, 2, 3);
    assert Stride([0, 5, 0, 0], 1, 5, 2, 3) == Stride([0, 5, 0, 5], 2, 5, 2, 5);
    assert StrideConfAsWritten(t, conf, 1, 5, 2, 1) == StrideConfAsWritten([0, 5, 0, 0], conf1, 1, 5, 2, 3);
    assert StrideConfAsWritten([0, 5, 0, 0], conf1, 1, 5, 2, 3) == StrideConfAsWritten([0, 5, 0, 5], conf1, 1, 5, 2, 5);
    assert conf1[..4][3] == 0;
  }

  // ---------------------------------------------------------------------
  // RSS flow rules.

  /** A flow rule installed on the NIC, named by the handle
      `rte_flow_create` returned: an RSS rule for a group, marked with the
      rule id and spreading over the table's queues, or a jump from one
      group to another. */
  datatype Rule =
    | RssRule(handle: nat, group: int, mark: int, queues: seq<int>)
    | Redirect(handle: nat, from: int, to: int, priority: int)

  /** `rte_flow_id_`, `reta_flows_` (slot 0: the redirection; slots 1 and
      2: the RSS rules of groups 1 and 2), the rules installed on the NIC
      and the next fresh handle. */
  datatype FlowRules = FlowRules(id: int, slots: seq<Option<Rule>>, installed: set<Rule>, next: nat)

  /** The id is 0 or 1, slot 0 holds a redirection and slots 1 and 2 the
      RSS rules of their groups, every slot names an installed rule, and
      every installed rule's handle is below `next`. */
  predicate RulesOk(f: FlowRules)
  {
    (f.id == 0 || f.id == 1) && |f.slots| == 3 &&
    (f.slots[0].Some? ==> f.slots[0].value.Redirect?) &&
    (f.slots[1].Some? ==> f.slots[1].value.RssRule? && f.slots[1].value.group == 1) &&
    (f.slots[2].Some? ==> f.slots[2].value.RssRule? && f.slots[2].value.group == 2) &&
    (forall k :: 0 <= k < |f.slots| && f.slots[k].Some? ==> f.slots[k].value in f.installed) &&
    (forall r :: r in f.installed ==> r.handle < f.next)
  }

  function Held(o: Option<Rule>): set<Rule>
  {
    if o.Some? then {o.value} else {}
  }

  function Listed(o: Option<Rule>): seq<Rule>
  {
    if o.Some? then [o.value] else []
  }

  /** The part of `UpdateRssFlow()` after the old rule of group g is gone:
      the new RSS rule is created; if it is, the redirection from group 0
      to g is added (`redirected` says whether `AddFlowRedirectRule`
      succeeded), the old redirection destroyed, and the id toggled. */
  function Install(f: FlowRules, g: int, queues: seq<int>, created: bool, redirected: bool): (r: (FlowRules, seq<Rule>))
    requires |f.slots| == 3 && 1 <= g <= 2
  {
    if !created then (f, [])
    else
      var flow := RssRule(f.next, g, f.id, queues);
      var redir := if redirected then Some(Redirect(f.next + 1, 0, g, g)) else None;
      var old0 := f.slots[0];
      (FlowRules((f.id + 1) % 2, f.slots[g := Some(flow)][0 := redir],
                 (f.installed + {flow} + Held(redir)) - Held(old0), f.next + 2),
       Listed(old0))
  }

  /** `UpdateRssFlow()` as the source has it: the old rule of the group is
      destroyed but stays in its slot until a new rule is created.  The
      result holds the new state and the rules destroyed, in order. */
  function FlowUpdateAsWritten(f: FlowRules, enabled: bool, queues: seq<int>,
                               validated: bool, created: bool, redirected: bool): (r: (FlowRules, seq<Rule>))
    requires |f.slots| == 3 && (f.id == 0 || f.id == 1)
  {
    if !enabled || !validated then (f, [])
    else
      var g := 1 + f.id % 2;
      var prev := f.slots[g];
      var i := Install(f.(installed := f.installed - Held(prev)), g, queues, created, redirected);
      (i.0, Listed(prev) + i.1)
  }

  /** Rule creation fails twice in a row for group 1: the first call
      destroys the group's rule and leaves it in its slot, so the second
      destroys it again. */
  lemma FlowUpdateAsWrittenDestroysTwice()
    ensures var rule := RssRule(0, 1, 0, []);
      var f := FlowRules(0, [None, Some(rule), None], {rule}, 1);
      var first := FlowUpdateAsWritten(f, true, [], true, false, false);
      var second := FlowUpdateAsWritten(first.0, true, [], true, false, false);
      RulesOk(f) && first.1 == [rule] && second.1 == [rule] && rule !in first.0.installed && !RulesOk(first.0)
  {
    var rule := RssRule(0, 1, 0, []);
    var f := FlowRules(0, [None, Some(rule), None], {rule}, 1);
    var first := FlowUpdateAsWritten(f, true, [], true, false, false);
    assert first.0.slots[1] == Some(rule);
  }

  /** `UpdateRssFlow()` with the destroyed rule's slot cleared. */
  function FlowUpdate(f: FlowRules, enabled: bool, queues: seq<int>,
                      validated: bool, created: bool, redirected: bool): (r: (FlowRules, seq<Rule>))
    requires |f.slots| == 3 && (f.id == 0 || f.id == 1)
  {
    if !enabled || !validated then (f, [])
    else
      var g := 1 + f.id % 2;
      var prev := f.slots[g];
      var i := Install(f.(slots := f.slots[g := None], installed := f.installed - Held(prev)), g, queues, created, redirected);
      (i.0, Listed(prev) + i.1)
  }

  /** A flow update keeps the rule state well formed and destroys only
      installed rules, each once. */
  lemma FlowUpdateKeepsRules(f: FlowRules, enabled: bool, queues: seq<int>, validated: bool, created: bool, redirected: bool)
    requires RulesOk(f)
    ensures var r := FlowUpdate(f, enabled, queues, validated, created, redirected);
      RulesOk(r.0) &&
      (forall k :: 0 <= k < |r.1| ==> r.1[k] in f.installed && r.1[k] !in r.0.installed) &&
      (forall k, l :: 0 <= k < l < |r.1| ==> r.1[k] != r.1[l])
  {
    if enabled && validated {
      var g := 1 + f.id;
      var prev := f.slots[g];
      var cleared := f.(slots := f.slots[g := None], installed := f.installed - Held(prev));
      ClearKeepsRules(f, g);
      var r := FlowUpdate(f, enabled, queues, validated, created, redirected);
      if created {
        InstallKeepsRules(cleared, g, queues, redirected);
        var i := Install(cleared, g, queues, true, redirected);
        assert r == (i.0, Listed(prev) + i.1);
      } else {
        assert Listed(prev) + [] == Listed(prev);
        assert r == (cleared, Listed(prev));
      }
    }
  }

  /** Destroying the rule of group g and emptying its slot keeps the rule
      state well formed; the destroyed rule was installed, and it is the
      only slot that held it. */
  lemma ClearKeepsRules(f: FlowRules, g: int)
    requires RulesOk(f) && g == 1 + f.id
    ensures var cleared := f.(slots := f.slots[g := None], installed := f.installed - Held(f.slots[g]));
      RulesOk(cleared) && cleared.slots[g].None? &&
      (f.slots[g].Some? ==> f.slots[g].value in f.installed && f.slots[g].value !in cleared.installed &&
                            cleared.slots[0] != f.slots[g])
  {
  }

  /** Creating the rule of group g into its emptied slot keeps the rule
      state well formed and destroys only the old redirection. */
  lemma InstallKeepsRules(f: FlowRules, g: int, queues: seq<int>, redirected: bool)
    requires RulesOk(f) && g == 1 + f.id && f.slots[g].None?
    ensures var r := Install(f, g, queues, true, redirected);
      RulesOk(r.0) && r.1 == Listed(f.slots[0]) &&
      (forall k :: 0 <= k < |r.1| ==> r.1[k] in f.installed && r.1[k] !in r.0.installed)
  {
    var r := Install(f, g, queues, true, redirected);
    assert forall k :: 0 <= k < |r.0.slots| && r.0.slots[k].Some? ==> r.0.slots[k].value in r.0.installed;
  }

  /** Nothing happens unless group tables are in use and the rule
      validates; the id toggles exactly when the new RSS rule is created,
      which then sits in its group's slot with the id as its mark and the
      table as its queues, next to the redirection to its group; the other
      group's rule is kept, and a failed creation leaves the group's slot
      empty. */
  lemma FlowUpdateEffect(f: FlowRules, enabled: bool, queues: seq<int>, validated: bool, created: bool, redirected: bool)
    requires RulesOk(f)
    ensures var r := FlowUpdate(f, enabled, queues, validated, created, redirected);
      var g := 1 + f.id;
      (!(enabled && validated) ==> r == (f, [])) &&
      r.0.id == (if enabled && validated && created then 1 - f.id else f.id) &&
      (enabled && validated ==> r.0.slots[3 - g] == f.slots[3 - g]) &&
      (enabled && validated && !created ==> r.0.slots == f.slots[g := None] && r.1 == Listed(f.slots[g])) &&
      (enabled && validated && created ==>
        r.0.slots[g] == Some(RssRule(f.next, g, f.id, queues)) &&
        r.0.slots[0] == (if redirected then Some(Redirect(f.next + 1, 0, g, g)) else None))
  {
  }

  /** The rule bookkeeping of `UpdateRssFlow()`, step by step on the
      rule state: destroy the group's old rule and clear its slot, then
      create the new rule, add the redirection, destroy the old one and
      toggle the id. */
  method StepFlowRules(f: FlowRules, enabled: bool, queues: seq<int>,
                       validated: bool, created: bool, redirected: bool) returns (r: FlowRules, destroyed: seq<Rule>)
    requires RulesOk(f)
    ensures (r, destroyed) == FlowUpdate(f, enabled, queues, validated, created, redirected)
  {
    r, destroyed := f, [];
    if !enabled || !validated {
      return;
    }
    var g := 1 + f.id % 2;
    var id, sl, inst, next := f.id, f.slots, f.installed, f.next;
    var prev := sl[g];
    if prev.Some? {
      inst := inst - {prev.value};
      destroyed := [prev.value];
    }
    sl := sl[g := None];
    if created {
      var flow := RssRule(next, g, id, queues);
      inst := inst + {flow};
      sl := sl[g := Some(flow)];
      var redir: Option<Rule> := None;
      if redirected {
        redir := Some(Redirect(next + 1, 0, g, g));
        inst := inst + {redir.value};
      }
      next := next + 2;
      if sl[0].Some? {
        inst := inst - {sl[0].value};
        destroyed := destroyed + [sl[0].value];
      }
      sl := sl[0 := redir];
      id := (id + 1) % 2;
    }
    assert destroyed == Listed(prev) + (if created then Listed(f.slots[g := None][0]) else []);
    ghost var want := FlowUpdate(f, enabled, queues, validated, created, redirected);
    assert want.1 == destroyed;
    assert want.0.id == id && want.0.next == next;
    assert want.0.slots == sl;
    assert want.0.installed == inst;
    r := FlowRules(id, sl, inst, next);
  }

  // ---------------------------------------------------------------------
  // The port.

  class Port {
    /** `reta_size_`. */
    const retaSize: nat
    /** `reta_table_`: the in-memory copy of the NIC's table. */
    const table: array<int>
    /** `reta_conf_`, flattened: entry c of group g is `ConfIndex(g, c)`. */
    const conf: array<int>
    /** The indirection table as the NIC last accepted it. */
    var nic: seq<int>
    /** `is_use_group_table_`. */
    const useGroupTable: bool
    /** `rte_flow_id_`, `reta_flows_`, and the rules installed on the NIC. */
    var flowId: int
    var slots: seq<Option<Rule>>
    var installed: set<Rule>
    var nextHandle: nat

    function Rules(): FlowRules
      reads this
    {
      FlowRules(flowId, slots, installed, nextHandle)
    }

    predicate Valid()
      reads this
    {
      table.Length == retaSize && conf.Length == ConfEntries && retaSize <= ConfEntries &&
      table != conf && RulesOk(Rules())
    }

    /** The configuration array mirrors the table. */
    predicate ConfSynced()
      reads this, table, conf
      requires Valid()
    {
      Synced(table[..], conf[..])
    }

    constructor(retaSize: nat, useGroupTable: bool)
      requires retaSize <= ConfEntries
      ensures Valid() && ConfSynced()
      ensures this.retaSize == retaSize && this.useGroupTable == useGroupTable
      ensures table[..] == seq(retaSize, _ => 0) && conf[..] == seq(ConfEntries, _ => 0) && nic == table[..]
      ensures Rules() == FlowRules(0, [None, None, None], {}, 0)
    {
      this.retaSize := retaSize;
      this.useGroupTable := useGroupTable;
      table := new int[retaSize](_ => 0);
      conf := new int[ConfEntries](_ => 0);
      nic := seq(retaSize, _ => 0);
      flowId, slots, installed, nextHandle := 0, [None, None, None], {}, 0;
      new;
      assert conf[..][..retaSize] == table[..];
    }

    /** `rte_eth_dev_rss_reta_update`: the NIC takes the configuration
        array's first `retaSize` entries, unless it refuses them (`nicOk`
        false), which is only logged. */
    method UpdateNic(nicOk: bool)
      requires Valid()
      modifies this
      ensures Valid() && Rules() == old(Rules())
      ensures nic == if nicOk then conf[..retaSize] else old(nic)
    {
      if nicOk {
        nic := conf[..retaSize];
      }
    }

    /** `UpdateRssReta()`: every bucket to core 0, then the NIC update. */
    method UpdateRssReta(nicOk: bool)
      requires Valid()
      modifies this, table, conf
      ensures Valid() && Rules() == old(Rules())
      ensures table[..] == seq(retaSize, _ => 0)
      ensures conf[..] == Zeroed(old(conf[..]), retaSize)
      ensures nic == if nicOk then conf[..retaSize] else old(nic)
    {
      var j := 0;
      while j < retaSize
        modifies table, conf
        invariant 0 <= j <= retaSize
        invariant forall i :: 0 <= i < j ==> table[i] == 0
        invariant conf[..] == Zeroed(old(conf[..]), j)
      {
        table[j] := 0;
        ConfIndexOfBucket(j);
        conf[ConfIndex(j / GroupSize, j % GroupSize)] := 0;
        j := j + 1;
      }
      assert table[..] == seq(retaSize, _ => 0);
      UpdateNic(nicOk);
    }

    /** The loop of `UpdateRssReta(moves)` over the given keys. */
    method WriteBuckets(moves: map<int, int>, keys: seq<int>) returns (remapping: nat)
      requires Valid() && KeysIn(moves, keys, retaSize)
      modifies table, conf
      ensures (table[..], remapping) == Remap(old(table[..]), moves, keys)
      ensures KeysIn(moves, keys, conf.Length) && conf[..] == Remap(old(conf[..]), moves, keys).0
    {
      ghost var t0, c0 := table[..], conf[..];
      remapping := 0;
      var k := 0;
      while k < |keys|
        invariant 0 <= k <= |keys|
        invariant (table[..], remapping) == Remap(t0, moves, keys[..k])
        invariant KeysIn(moves, keys[..k], |c0|)
        invariant conf[..] == Remap(c0, moves, keys[..k]).0
      {
        assert keys[..k + 1][..k] == keys[..k];
        var b := keys[k];
        if table[b] != moves[b] {
          remapping := remapping + 1;
        }
        table[b] := moves[b];
        ConfIndexOfBucket(b);
        conf[ConfIndex(b / GroupSize, b % GroupSize)] := moves[b];
        k := k + 1;
      }
      assert keys[..k] == keys;
    }

    /** `UpdateRssReta(moves)`: each move sets its bucket in the table and
        in the configuration array; the NIC is updated only when some
        bucket changed. */
    method UpdateRssRetaBuckets(moves: map<int, int>, nicOk: bool) returns (remapping: nat)
      requires Valid() && InTable(moves, retaSize)
      modifies this, table, conf
      ensures Valid() && Rules() == old(Rules())
      ensures table[..] == Remapped(old(table[..]), moves)
      ensures conf[..] == Remapped(old(conf[..]), moves)
      ensures KeysIn(moves, SortedKeys(moves.Keys), retaSize)
      ensures remapping == Remap(old(table[..]), moves, SortedKeys(moves.Keys)).1
      ensures remapping == 0 <==> table[..] == old(table[..])
      ensures nic == if remapping > 0 && nicOk then conf[..retaSize] else old(nic)
    {
      var keys := SortedKeys(moves.Keys);
      SortedKeysIn(moves, retaSize);
      RemapAll(table[..], moves);
      RemapAll(conf[..], moves);
      remapping := WriteBuckets(moves, keys);
      if remapping > 0 {
        UpdateNic(nicOk);
      }
    }

    /** The inner loop of `UpdateRssReta(moves, total_shards)` for one
        shard: `reta_id` runs from the shard up the stride. */
    method WriteStride(c: int, T: int, s: int, cnt0: nat) returns (cnt: nat)
      requires Valid() && T > 0 && 0 <= s
      modifies table, conf
      ensures (table[..], cnt) == Stride(old(table[..]), cnt0, c, T, s)
      ensures conf[..] == StrideConf(old(table[..]), old(conf[..]), c, T, s)
    {
      ghost var t0, c0 := table[..], conf[..];
      cnt := cnt0;
      var j := s;
      while j < retaSize
        invariant 0 <= j
        invariant Stride(table[..], cnt, c, T, j) == Stride(t0, cnt0, c, T, s)
        invariant StrideConf(table[..], conf[..], c, T, j) == StrideConf(t0, c0, c, T, s)
        decreases retaSize - j
      {
        if table[j] != c {
          cnt := cnt + 1;
          table[j] := c;
          ConfIndexOfBucket(j);
          conf[ConfIndex(j / GroupSize, j % GroupSize)] := c;
        }
        j := j + T;
      }
    }

    /** The outer loop of `UpdateRssReta(moves, total_shards)` over the
        given shard ids. */
    method WriteShards(moves: map<int, int>, keys: seq<int>, T: int) returns (remapping: nat)
      requires Valid() && T > 0 && ShardKeysOk(moves, keys)
      modifies table, conf
      ensures (table[..], remapping) == Shards(old(table[..]), moves, keys, T)
      ensures conf[..] == ShardsConf(old(table[..]), old(conf[..]), moves, keys, T)
    {
      ghost var t0, c0 := table[..], conf[..];
      remapping := 0;
      var k := 0;
      while k < |keys|
        invariant 0 <= k <= |keys| && ShardKeysOk(moves, keys[..k])
        invariant (table[..], remapping) == Shards(t0, moves, keys[..k], T)
        invariant conf[..] == ShardsConf(t0, c0, moves, keys[..k], T)
      {
        assert keys[..k + 1][..k] == keys[..k];
        remapping := WriteStride(moves[keys[k]], T, keys[k], remapping);
        k := k + 1;
      }
      assert keys[..k] == keys;
    }

    /** `UpdateRssReta(moves, total_shards)`: each shard's core is written
        to every bucket of its stride below the table size, counting the
        buckets that change; the NIC is updated only when one did. */
    method UpdateRssRetaShards(moves: map<int, int>, totalShards: int, nicOk: bool) returns (remapping: nat)
      requires Valid() && MovesOk(moves) && 0 < totalShards && retaSize + totalShards <= Two16
      modifies this, table, conf
      ensures Valid() && Rules() == old(Rules())
      ensures ShardKeysOk(moves, SortedKeys(moves.Keys))
      ensures (table[..], remapping) == Shards(old(table[..]), moves, SortedKeys(moves.Keys), totalShards)
      ensures conf[..] == ShardsConf(old(table[..]), old(conf[..]), moves, SortedKeys(moves.Keys), totalShards)
      ensures nic == if remapping > 0 && nicOk then conf[..retaSize] else old(nic)
    {
      SortedShardKeys(moves);
      remapping := WriteShards(moves, SortedKeys(moves.Keys), totalShards);
      if remapping > 0 {
        UpdateNic(nicOk);
      }
    }

    /** `UpdateRssFlow()`: when group tables are in use and the new RSS
        rule validates, the group's old rule is destroyed, the new one
        created over the current table, the redirection from group 0
        replaced and the rule id toggled.  `validated`, `created` and
        `redirected` are the outcomes of `rte_flow_validate`,
        `rte_flow_create` and `AddFlowRedirectRule`. */
    method UpdateRssFlow(validated: bool, created: bool, redirected: bool) returns (destroyed: seq<Rule>)
      requires Valid()
      modifies this
      ensures Valid() && nic == old(nic)
      ensures (Rules(), destroyed) == FlowUpdate(old(Rules()), useGroupTable, table[..], validated, created, redirected)
    {
      ghost var f0 := Rules();
      var f;
      f, destroyed := StepFlowRules(Rules(), useGroupTable, table[..], validated, created, redirected);
      flowId, slots, installed, nextHandle := f.id, f.slots, f.installed, f.next;
      FlowUpdateKeepsRules(f0, useGroupTable, table[..], validated, created, redirected);
    }

    /** The loop of `UpdateRssFlow(moves)` over the given keys: a bucket is
        written only when it changes. */
    method WriteBucketsTable(moves: map<int, int>, keys: seq<int>) returns (remapping: nat)
      requires Valid() && KeysIn(moves, keys, retaSize)
      modifies table
      ensures (table[..], remapping) == Remap(old(table[..]), moves, keys)
    {
      ghost var t0 := table[..];
      remapping := 0;
      var k := 0;
      while k < |keys|
        invariant 0 <= k <= |keys|
        invariant (table[..], remapping) == Remap(t0, moves, keys[..k])
      {
        assert keys[..k + 1][..k] == keys[..k];
        var b := keys[k];
        if table[b] != moves[b] {
          remapping := remapping + 1;
          table[b] := moves[b];
        } else {
          assert table[..][b := moves[b]] == table[..];
        }
        k := k + 1;
      }
      assert keys[..k] == keys;
    }

    /** `UpdateRssFlow(moves)`: the moves are applied to the table only,
        and the flow rules are rebuilt when some bucket changed. */
    method UpdateRssFlowBuckets(moves: map<int, int>, validated: bool, created: bool, redirected: bool)
      returns (remapping: nat, destroyed: seq<Rule>)
      requires Valid() && InTable(moves, retaSize)
      modifies this, table
      ensures Valid() && nic == old(nic)
      ensures table[..] == Remapped(old(table[..]), moves)
      ensures KeysIn(moves, SortedKeys(moves.Keys), retaSize)
      ensures remapping == Remap(old(table[..]), moves, SortedKeys(moves.Keys)).1
      ensures remapping == 0 <==> table[..] == old(table[..])
      ensures (Rules(), destroyed) ==
        if remapping > 0 then FlowUpdate(old(Rules()), useGroupTable, table[..], validated, created, redirected)
        else (old(Rules()), [])
    {
      var keys := SortedKeys(moves.Keys);
      SortedKeysIn(moves, retaSize);
      RemapAll(table[..], moves);
      remapping := WriteBucketsTable(moves, keys);
      destroyed := [];
      if remapping > 0 {
        destroyed := UpdateRssFlow(validated, created, redirected);
      }
    }

    /** The inner loop of `UpdateRssFlow(moves, total_shards)` for one
        shard. */
    method WriteStrideTable(c: int, T: int, s: int, cnt0: nat) returns (cnt: nat)
      requires Valid() && T > 0 && 0 <= s
      modifies table
      ensures (table[..], cnt) == Stride(old(table[..]), cnt0, c, T, s)
    {
      ghost var t0 := table[..];
      cnt := cnt0;
      var j := s;
      while j < retaSize
        invariant 0 <= j
        invariant Stride(table[..], cnt, c, T, j) == Stride(t0, cnt0, c, T, s)
        decreases retaSize - j
      {
        if table[j] != c {
          cnt := cnt + 1;
          table[j] := c;
        }
        j := j + T;
      }
    }

    /** The outer loop of `UpdateRssFlow(moves, total_shards)`. */
    method WriteShardsTable(moves: map<int, int>, keys: seq<int>, T: int) returns (remapping: nat)
      requires Valid() && T > 0 && ShardKeysOk(moves, keys)
      modifies table
      ensures (table[..], remapping) == Shards(old(table[..]), moves, keys, T)
    {
      ghost var t0 := table[..];
      remapping := 0;
      var k := 0;
      while k < |keys|
        invariant 0 <= k <= |keys| && ShardKeysOk(moves, keys[..k])
        invariant (table[..], remapping) == Shards(t0, moves, keys[..k], T)
      {
        assert keys[..k + 1][..k] == keys[..k];
        remapping := WriteStrideTable(moves[keys[k]], T, keys[k], remapping);
        k := k + 1;
      }
      assert keys[..k] == keys;
    }

    /** `UpdateRssFlow(moves, total_shards)`: the shard moves are applied
        to the table only, and the flow rules are rebuilt when some bucket
        changed. */
    method UpdateRssFlowShards(moves: map<int, int>, totalShards: int, validated: bool, created: bool, redirected: bool)
      returns (remapping: nat, destroyed: seq<Rule>)
      requires Valid() && MovesOk(moves) && 0 < totalShards && retaSize + totalShards <= Two16
      modifies this, table
      ensures Valid() && nic == old(nic)
      ensures ShardKeysOk(moves, SortedKeys(moves.Keys))
      ensures (table[..], remapping) == Shards(old(table[..]), moves, SortedKeys(moves.Keys), totalShards)
      ensures (Rules(), destroyed) ==
        if remapping > 0 then FlowUpdate(old(Rules()), useGroupTable, table[..], validated, created, redirected)
        else (old(Rules()), [])
    {
      SortedShardKeys(moves);
      remapping := WriteShardsTable(moves, SortedKeys(moves.Keys), totalShards);
      destroyed := [];
      if remapping > 0 {
        destroyed := UpdateRssFlow(validated, created, redirected);
      }
    }
  }
}
