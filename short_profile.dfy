// The short-term capacity profile of a core: from (flow count, packet
// count) observations, the largest packet count a core sustained with at
// least a given number of active flows.  The source sorts the nodes by
// flow count, seeds a running maximum with the last sorted node, keeps the
// largest packet count per (truncated) flow count, and sweeps the flow
// counts from max_flow - 1 down to 1 carrying the running maximum.
module ShortTermProfile {
  import opened Util

  datatype ProfileError = EmptyNodes   // `sorted_nodes[-1]` raises IndexError

  function Max(a: int, b: int): int { if a >= b then a else b }

  /** Node b is `sorted(nodes, key=lambda x: x[0])[-1]`: it has the largest
      flow count, and (the sort being stable) no later node has as large a
      one. */
  predicate IsLastOfMax(nodes: seq<(real, real)>, b: int)
  {
    0 <= b < |nodes| &&
    (forall k :: 0 <= k < |nodes| ==> nodes[k].0 <= nodes[b].0) &&
    (forall k :: b < k < |nodes| ==> nodes[k].0 < nodes[b].0)
  }

  function LastOfMax(nodes: seq<(real, real)>): (b: int)
    requires |nodes| > 0
    ensures IsLastOfMax(nodes, b)
  {
    if |nodes| == 1 then 0
    else
      var b := LastOfMax(nodes[..|nodes| - 1]);
      assert forall k :: 0 <= k < |nodes| - 1 ==> nodes[..|nodes| - 1][k] == nodes[k];
      if nodes[|nodes| - 1].0 >= nodes[b].0 then |nodes| - 1 else b
  }

  /** The (flow count, packet count) pairs `int`-converted as the loop
      filling `fc_to_pkt` converts them. */
  function TruncNodes(nodes: seq<(real, real)>): (r: seq<(int, int)>)
    ensures |r| == |nodes|
    ensures forall k :: 0 <= k < |nodes| ==> r[k] == (Trunc(nodes[k].0), Trunc(nodes[k].1))
  {
    if nodes == [] then []
    else TruncNodes(nodes[..|nodes| - 1]) + [(Trunc(nodes[|nodes| - 1].0), Trunc(nodes[|nodes| - 1].1))]
  }

  /** `fc_to_pkt` after the loop over the nodes. */
  function FcToPkt(nodes: seq<(real, real)>): map<int, int>
  {
    MaxPerKey(TruncNodes(nodes))
  }

  /** fc_to_pkt has a key for each truncated flow count seen, holding the
      largest truncated packet count observed with it. */
  lemma FcToPktIsMax(nodes: seq<(real, real)>)
    ensures forall k :: 0 <= k < |nodes| ==> Trunc(nodes[k].0) in FcToPkt(nodes)
    ensures forall k :: 0 <= k < |nodes| ==> Trunc(nodes[k].1) <= FcToPkt(nodes)[Trunc(nodes[k].0)]
    ensures forall fc :: fc in FcToPkt(nodes) ==>
      exists k :: 0 <= k < |nodes| && Trunc(nodes[k].0) == fc && Trunc(nodes[k].1) == FcToPkt(nodes)[fc]
  {
    var pairs := TruncNodes(nodes);
    MaxPerKeyIsMax(pairs);
    forall fc | fc in FcToPkt(nodes)
      ensures exists k :: 0 <= k < |nodes| && Trunc(nodes[k].0) == fc && Trunc(nodes[k].1) == FcToPkt(nodes)[fc]
    {
      var k :| 0 <= k < |pairs| && pairs[k].0 == fc && pairs[k].1 == MaxPerKey(pairs)[fc];
      assert pairs[k] == (Trunc(nodes[k].0), Trunc(nodes[k].1));
    }
  }

  /** The value the sweep holds at flow count i: the seed, raised by every
      fc_to_pkt entry from i up to max_flow - 1. */
  function Envelope(m: map<int, int>, seed: int, i: int, maxFlow: int): int
    decreases maxFlow - i
  {
    if i >= maxFlow then seed
    else
      var rest := Envelope(m, seed, i + 1, maxFlow);
      if i in m then Max(rest, m[i]) else rest
  }

  lemma {:induction false} EnvelopeNonIncreasing(m: map<int, int>, seed: int, i: int, j: int, maxFlow: int)
    requires i <= j
    ensures Envelope(m, seed, i, maxFlow) >= Envelope(m, seed, j, maxFlow)
    decreases j - i
  {
    if i < j {
      EnvelopeNonIncreasing(m, seed, i + 1, j, maxFlow);
      if i < maxFlow {
        assert Envelope(m, seed, i, maxFlow) >= Envelope(m, seed, i + 1, maxFlow);
      } else {
        EnvelopeBeyond(m, seed, i + 1, maxFlow);
      }
    }
  }

  lemma {:induction false} EnvelopeBeyond(m: map<int, int>, seed: int, i: int, maxFlow: int)
    requires i >= maxFlow
    ensures Envelope(m, seed, i, maxFlow) == seed
  {
  }

  /** The envelope is at least the seed and at least every entry at or
      above i, and it is attained: it equals the seed or one such entry. */
  lemma {:induction false} EnvelopeBounds(m: map<int, int>, seed: int, i: int, maxFlow: int)
    ensures Envelope(m, seed, i, maxFlow) >= seed
    ensures forall j :: i <= j < maxFlow && j in m ==> Envelope(m, seed, i, maxFlow) >= m[j]
    ensures Envelope(m, seed, i, maxFlow) == seed ||
      exists j :: i <= j < maxFlow && j in m && Envelope(m, seed, i, maxFlow) == m[j]
    decreases maxFlow - i
  {
    if i < maxFlow {
      EnvelopeBounds(m, seed, i + 1, maxFlow);
    }
  }

  /** The profile for a table, a seed and a largest flow count: one entry per
      flow count 1 .. max_flow - 1, ascending. */
  function Profile(m: map<int, int>, seed: int, maxFlow: int): seq<(int, int)>
  {
    seq(if maxFlow > 1 then maxFlow - 1 else 0, k => (k + 1, Envelope(m, seed, k + 1, maxFlow)))
  }

  /** The index of `sorted(nodes, key=lambda x: x[0])[-1]`. */
  method FindSeed(nodes: seq<(real, real)>) returns (b: int)
    requires |nodes| > 0
    ensures b == LastOfMax(nodes)
  {
    b := 0;
    var k := 1;
    while k < |nodes|
      invariant 1 <= k <= |nodes|
      invariant b == LastOfMax(nodes[..k])
    {
      assert nodes[..k + 1][..k] == nodes[..k];
      if nodes[k].0 >= nodes[b].0 {
        b := k;
      }
      k := k + 1;
    }
    assert nodes[..k] == nodes;
  }

  /** The loop filling `fc_to_pkt`. */
  method BuildFcToPkt(nodes: seq<(real, real)>) returns (fcToPkt: map<int, int>)
    ensures fcToPkt == FcToPkt(nodes)
  {
    ghost var pairs := TruncNodes(nodes);
    fcToPkt := map[];
    var k := 0;
    while k < |nodes|
      invariant 0 <= k <= |nodes|
      invariant fcToPkt == MaxPerKey(pairs[..k])
    {
      assert pairs[..k + 1][..k] == pairs[..k] && pairs[..k + 1][k] == pairs[k];
      var fc, pkt := Trunc(nodes[k].0), Trunc(nodes[k].1);
      if fc !in fcToPkt {
        fcToPkt := fcToPkt[fc := pkt];
      } else {
        fcToPkt := fcToPkt[fc := Max(fcToPkt[fc], pkt)];
      }
      k := k + 1;
    }
    assert pairs[..k] == pairs;
  }

  /** The sweep over reversed(range(1, max_flow)) with a running maximum.
      Entries are put in front, which yields the order the final sort by
      flow count gives. */
  method Sweep(fcToPkt: map<int, int>, seed: int, maxFlow: int) returns (profile: seq<(int, int)>)
    ensures profile == Profile(fcToPkt, seed, maxFlow)
  {
    profile := [];
    if maxFlow <= 1 {
      return;
    }
    var cur := seed;
    var i := maxFlow - 1;
    while i >= 1
      invariant 0 <= i <= maxFlow - 1
      invariant cur == Envelope(fcToPkt, seed, i + 1, maxFlow)
      invariant |profile| == maxFlow - 1 - i
      invariant forall j :: 0 <= j < |profile| ==>
        profile[j] == (i + 1 + j, Envelope(fcToPkt, seed, i + 1 + j, maxFlow))
    {
      if i in fcToPkt {
        cur := Max(cur, fcToPkt[i]);
      }
      profile := [(i, cur)] + profile;
      i := i - 1;
    }
  }

  /** `get_short_term_profile`. */
  method GetShortTermProfile(nodes: seq<(real, real)>) returns (r: Result<seq<(int, int)>, ProfileError>)
    ensures r.Err? <==> nodes == []
    ensures r.Ok? ==>
      var b := LastOfMax(nodes);
      r.value == Profile(FcToPkt(nodes), Trunc(nodes[b].1), Trunc(nodes[b].0))
  {
    if |nodes| == 0 {
      return Err(EmptyNodes);
    }
    var b := FindSeed(nodes);
    var fcToPkt := BuildFcToPkt(nodes);
    var profile := Sweep(fcToPkt, Trunc(nodes[b].1), Trunc(nodes[b].0));
    r := Ok(profile);
  }

  /** What the profile promises: exactly one entry per flow count
      1 .. max_flow - 1 in ascending order with no gaps; values that never
      grow with the flow count; each at least the seed and at least the
      best packet count observed at that flow count or any larger one
      below max_flow. */
  lemma ProfileProperties(m: map<int, int>, seed: int, maxFlow: int)
    ensures var p := Profile(m, seed, maxFlow);
      |p| == (if maxFlow > 1 then maxFlow - 1 else 0) &&
      (forall k :: 0 <= k < |p| ==> p[k].0 == k + 1) &&
      (forall a, b :: 0 <= a < b < |p| ==> p[a].1 >= p[b].1) &&
      (forall k :: 0 <= k < |p| ==> p[k].1 >= seed) &&
      (forall k, j :: 0 <= k < |p| && k + 1 <= j < maxFlow && j in m ==> p[k].1 >= m[j])
  {
    var p := Profile(m, seed, maxFlow);
    forall a, b | 0 <= a < b < |p| ensures p[a].1 >= p[b].1 {
      EnvelopeNonIncreasing(m, seed, a + 1, b + 1, maxFlow);
    }
    forall k | 0 <= k < |p| ensures p[k].1 >= seed
      && (forall j :: k + 1 <= j < maxFlow && j in m ==> p[k].1 >= m[j]) {
      EnvelopeBounds(m, seed, k + 1, maxFlow);
    }
  }
}
