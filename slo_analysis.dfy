// Classification of epochs into SLO-violating and SLO-compliant ones.
// Two classifiers exist: the single-epoch one of the cluster analysis
// (an epoch violates iff its violation count is positive) and the
// hysteresis one of the statistics script (three calm epochs in a row, or
// three epochs of at least ten violations around the one classified).
// Both look only at indices 1 .. n-3 (`range(1, n-2)`).
module SloAnalysis {
  import opened Telemetry

  /** The indices i with lo <= i < hi whose mark is set, ascending. */
  function Select(mask: seq<bool>, lo: int, hi: int): (r: seq<int>)
    requires 0 <= lo && (lo < hi ==> hi <= |mask|)
    ensures forall k :: 0 <= k < |r| ==> lo <= r[k] < hi && mask[r[k]]
    decreases hi - lo
  {
    if hi <= lo then [] else Select(mask, lo, hi - 1) + (if mask[hi - 1] then [hi - 1] else [])
  }

  lemma {:induction false} SelectSpec(mask: seq<bool>, lo: int, hi: int)
    requires 0 <= lo && (lo < hi ==> hi <= |mask|)
    ensures forall i :: i in Select(mask, lo, hi) <==> lo <= i < hi && mask[i]
    ensures forall a, b :: 0 <= a < b < |Select(mask, lo, hi)| ==>
      Select(mask, lo, hi)[a] < Select(mask, lo, hi)[b]
    decreases hi - lo
  {
    if hi > lo {
      SelectSpec(mask, lo, hi - 1);
      SelectNext(mask, lo, hi - 1);
      var prev := Select(mask, lo, hi - 1);
      if mask[hi - 1] {
        var r := prev + [hi - 1];
        forall a, b | 0 <= a < b < |r| ensures r[a] < r[b] {
          if b == |prev| {
            assert r[a] == prev[a] && r[a] < hi - 1;
          }
        }
      }
    }
  }

  /** Extending the range by one index appends it iff it is marked. */
  lemma SelectNext(mask: seq<bool>, lo: int, hi: int)
    requires 0 <= lo <= hi < |mask|
    ensures mask[hi] ==> Select(mask, lo, hi + 1) == Select(mask, lo, hi) + [hi]
    ensures !mask[hi] ==> Select(mask, lo, hi + 1) == Select(mask, lo, hi)
  {
    assert Select(mask, lo, hi) + [] == Select(mask, lo, hi);
  }

  /** When two masks mark complementary sets on [lo, hi), the two selections
      together have one entry per index. */
  lemma {:induction false} SelectComplement(p: seq<bool>, q: seq<bool>, lo: int, hi: int)
    requires |p| == |q| && 0 <= lo && (lo < hi ==> hi <= |p|)
    requires forall i :: lo <= i < hi ==> p[i] != q[i]
    ensures |Select(p, lo, hi)| + |Select(q, lo, hi)| == if hi <= lo then 0 else hi - lo
    decreases hi - lo
  {
    if hi > lo {
      SelectComplement(p, q, lo, hi - 1);
    }
  }

  // ---------------------------------------------------------------------
  // Single-epoch classifier over keyed snapshots.

  function ViolatingMask(s: seq<CoreSnapshot>): seq<bool>
  {
    seq(|s|, i requires 0 <= i < |s| => s[i].slo > 0.0)
  }

  function CompliantMask(s: seq<CoreSnapshot>): seq<bool>
  {
    seq(|s|, i requires 0 <= i < |s| => s[i].slo == 0.0)
  }

  /** The (active flow count, processed packets) observation of an epoch. */
  function FlowNode(s: CoreSnapshot): (real, real)
  {
    (s.activeFlows, s.processed)
  }

  function FlowNodes(s: seq<CoreSnapshot>, idx: seq<int>): seq<(real, real)>
    requires forall k :: 0 <= k < |idx| ==> 0 <= idx[k] < |s|
  {
    if idx == [] then []
    else FlowNodes(s, idx[..|idx| - 1]) + [FlowNode(s[idx[|idx| - 1]])]
  }

  /** One more index examined by the loop: its observation is appended iff
      it is marked. */
  lemma FlowNodesSnoc(s: seq<CoreSnapshot>, idx: seq<int>, j: int)
    requires forall k :: 0 <= k < |idx| ==> 0 <= idx[k] < |s|
    requires 0 <= j < |s|
    ensures FlowNodes(s, idx + [j]) == FlowNodes(s, idx) + [FlowNode(s[j])]
  {
    assert (idx + [j])[..|idx|] == idx;
  }

  function ViolatingEpochs(s: seq<CoreSnapshot>): seq<int>
  {
    Select(ViolatingMask(s), 1, |s| - 2)
  }

  function CompliantEpochs(s: seq<CoreSnapshot>): seq<int>
  {
    Select(CompliantMask(s), 1, |s| - 2)
  }

  /** `slo_violation_analysis`: the observations of the violating and of the
      compliant epochs among indices 1 .. n-3, in index order. */
  method SloViolationAnalysis(s: seq<CoreSnapshot>) returns (vio: seq<(real, real)>, nonVio: seq<(real, real)>)
    ensures vio == FlowNodes(s, ViolatingEpochs(s))
    ensures nonVio == FlowNodes(s, CompliantEpochs(s))
  {
    vio, nonVio := [], [];
    var n := |s|;
    if n < 3 {
      return;
    }
    ghost var vioMask, okMask := ViolatingMask(s), CompliantMask(s);
    ghost var vIdx, cIdx: seq<int> := [], [];
    var i := 1;
    while i < n - 2
      invariant 1 <= i <= n - 2
      invariant vIdx == Select(vioMask, 1, i) && cIdx == Select(okMask, 1, i)
      invariant vio == FlowNodes(s, vIdx) && nonVio == FlowNodes(s, cIdx)
    {
      var isBoth := 0;
      assert okMask[i] == (s[i].slo == 0.0) && vioMask[i] == (s[i].slo > 0.0);
      SelectNext(okMask, 1, i);
      SelectNext(vioMask, 1, i);
      if s[i].slo == 0.0 {
        isBoth := isBoth + 1;
        FlowNodesSnoc(s, cIdx, i);
        nonVio, cIdx := nonVio + [FlowNode(s[i])], cIdx + [i];
      }
      if s[i].slo > 0.0 {
        isBoth := isBoth + 1;
        FlowNodesSnoc(s, vIdx, i);
        vio, vIdx := vio + [FlowNode(s[i])], vIdx + [i];
      }
      if isBoth == 2 {
        // The source raises (or prints "Error") here; no epoch gets here.
        assert false;
      }
      i := i + 1;
    }
  }

  /** Only indices 1 .. n-3 are classified; an index is violating iff its
      count is positive and compliant iff it is zero, so never both. */
  lemma SingleEpochLabels(s: seq<CoreSnapshot>, i: int)
    ensures i in ViolatingEpochs(s) <==> 1 <= i <= |s| - 3 && s[i].slo > 0.0
    ensures i in CompliantEpochs(s) <==> 1 <= i <= |s| - 3 && s[i].slo == 0.0
    ensures !(i in ViolatingEpochs(s) && i in CompliantEpochs(s))
  {
    SelectSpec(ViolatingMask(s), 1, |s| - 2);
    SelectSpec(CompliantMask(s), 1, |s| - 2);
  }

  /** With non-negative counts every classified epoch is in exactly one list. */
  lemma SingleEpochPartition(s: seq<CoreSnapshot>)
    requires forall i :: 0 <= i < |s| ==> s[i].slo >= 0.0
    ensures |ViolatingEpochs(s)| + |CompliantEpochs(s)| == if |s| <= 3 then 0 else |s| - 3
  {
    var v, c := ViolatingMask(s), CompliantMask(s);
    forall i | 1 <= i < |s| - 2 ensures v[i] != c[i] {
      assert v[i] == (s[i].slo > 0.0) && c[i] == (s[i].slo == 0.0);
    }
    SelectComplement(v, c, 1, |s| - 2);
  }

  // ---------------------------------------------------------------------
  // Hysteresis classifier over compact snapshots.

  /** Epoch i and the two after it have no violations. */
  predicate IsCalm(s: seq<CompactCoreSnapshot>, i: int)
  {
    0 <= i && i + 2 < |s| && s[i].slo == 0.0 && s[i + 1].slo == 0.0 && s[i + 2].slo == 0.0
  }

  /** Epoch i and both of its neighbours have at least ten violations. */
  predicate IsBurst(s: seq<CompactCoreSnapshot>, i: int)
  {
    1 <= i && i + 1 < |s| && s[i - 1].slo >= 10.0 && s[i].slo >= 10.0 && s[i + 1].slo >= 10.0
  }

  function CalmMask(s: seq<CompactCoreSnapshot>): seq<bool>
  {
    seq(|s|, i => IsCalm(s, i))
  }

  function BurstMask(s: seq<CompactCoreSnapshot>): seq<bool>
  {
    seq(|s|, i => IsBurst(s, i))
  }

  /** The (packet rate, active flow count) observation: note the order is
      the reverse of `FlowNode`'s. */
  function RateNode(s: CompactCoreSnapshot): (real, real)
  {
    (s.rate, s.activeFlows)
  }

  function RateNodes(s: seq<CompactCoreSnapshot>, idx: seq<int>): seq<(real, real)>
    requires forall k :: 0 <= k < |idx| ==> 0 <= idx[k] < |s|
  {
    if idx == [] then []
    else RateNodes(s, idx[..|idx| - 1]) + [RateNode(s[idx[|idx| - 1]])]
  }

  lemma RateNodesSnoc(s: seq<CompactCoreSnapshot>, idx: seq<int>, j: int)
    requires forall k :: 0 <= k < |idx| ==> 0 <= idx[k] < |s|
    requires 0 <= j < |s|
    ensures RateNodes(s, idx + [j]) == RateNodes(s, idx) + [RateNode(s[j])]
  {
    assert (idx + [j])[..|idx|] == idx;
  }

  function BurstEpochs(s: seq<CompactCoreSnapshot>): seq<int>
  {
    Select(BurstMask(s), 1, |s| - 2)
  }

  function CalmEpochs(s: seq<CompactCoreSnapshot>): seq<int>
  {
    Select(CalmMask(s), 1, |s| - 2)
  }

  /** `slo_vio_analysis` of the statistics script. */
  method SloVioAnalysis(s: seq<CompactCoreSnapshot>) returns (vio: seq<(real, real)>, nonVio: seq<(real, real)>)
    ensures vio == RateNodes(s, BurstEpochs(s))
    ensures nonVio == RateNodes(s, CalmEpochs(s))
  {
    vio, nonVio := [], [];
    var n := |s|;
    if n < 3 {
      assert BurstEpochs(s) == [] && CalmEpochs(s) == [];
      return;
    }
    ghost var calmMask, burstMask := CalmMask(s), BurstMask(s);
    ghost var bIdx, cIdx: seq<int> := [], [];
    var i := 1;
    while i < n - 2
      invariant 1 <= i <= n - 2
      invariant bIdx == Select(burstMask, 1, i) && cIdx == Select(calmMask, 1, i)
      invariant vio == RateNodes(s, bIdx) && nonVio == RateNodes(s, cIdx)
    {
      var isBoth := 0;
      assert calmMask[i] == IsCalm(s, i) && burstMask[i] == IsBurst(s, i);
      SelectNext(calmMask, 1, i);
      SelectNext(burstMask, 1, i);
      if IsCalm(s, i) {
        isBoth := isBoth + 1;
        RateNodesSnoc(s, cIdx, i);
        nonVio, cIdx := nonVio + [RateNode(s[i])], cIdx + [i];
      }
      if IsBurst(s, i) {
        isBoth := isBoth + 1;
        RateNodesSnoc(s, bIdx, i);
        vio, bIdx := vio + [RateNode(s[i])], bIdx + [i];
      }
      if isBoth == 2 {
        // The source prints "Error" here; no epoch gets here.
        assert false;
      }
      i := i + 1;
    }
  }

  /** An epoch is calm iff it and the next two have no violations, bursty iff
      it and both neighbours have at least ten; the two exclude each other
      because a count cannot be both 0 and at least 10. */
  lemma HysteresisLabels(s: seq<CompactCoreSnapshot>, i: int)
    ensures i in CalmEpochs(s) <==>
      1 <= i <= |s| - 3 && s[i].slo == 0.0 && s[i + 1].slo == 0.0 && s[i + 2].slo == 0.0
    ensures i in BurstEpochs(s) <==>
      1 <= i <= |s| - 3 && s[i - 1].slo >= 10.0 && s[i].slo >= 10.0 && s[i + 1].slo >= 10.0
    ensures !(i in CalmEpochs(s) && i in BurstEpochs(s))
  {
    SelectSpec(CalmMask(s), 1, |s| - 2);
    SelectSpec(BurstMask(s), 1, |s| - 2);
  }
}
