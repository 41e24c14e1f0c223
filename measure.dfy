// The latency measurement module (`Measure`).  Its configuration sizes the
// round-trip and jitter histograms to cover `latency_ns_max` in buckets of
// `latency_ns_resolution` nanoseconds; its summary commands refuse
// percentile lists that are not non-decreasing lists of values in
// [0, 100]; and, in the Quadrant experiment, it keeps the largest batch
// delay each worker core has reported, unless the load balancer has paused
// the updates.
module Measure {
  import opened Util

  /** `errno` values of the command failures. */
  const EINVAL: int := 22
  const E2BIG: int := 7

  /** The experiment (`exp_id`) in which worker cores report their delay. */
  const QuadrantExperiment: int := 4

  /** The queue-length histogram: 1024 buckets of width 1. */
  const QueueBuckets: nat := 1024

  // ---------------------------------------------------------------------
  // Percentile lists.

  /** `std::is_sorted`: no element is smaller than the one before it. */
  predicate AdjacentSorted(ps: seq<real>)
  {
    forall i :: 0 < i < |ps| ==> ps[i - 1] <= ps[i]
  }

  /** The value `std::min_element` points to. */
  function MinElement(ps: seq<real>): (m: real)
    requires |ps| > 0
    ensures (exists i :: 0 <= i < |ps| && ps[i] == m) && forall i :: 0 <= i < |ps| ==> m <= ps[i]
  {
    if |ps| == 1 then ps[0]
    else
      var m := MinElement(ps[..|ps| - 1]);
      assert forall i :: 0 <= i < |ps| - 1 ==> ps[..|ps| - 1][i] == ps[i];
      if ps[|ps| - 1] < m then ps[|ps| - 1] else m
  }

  /** The value `std::max_element` points to. */
  function MaxElement(ps: seq<real>): (m: real)
    requires |ps| > 0
    ensures (exists i :: 0 <= i < |ps| && ps[i] == m) && forall i :: 0 <= i < |ps| ==> ps[i] <= m
  {
    if |ps| == 1 then ps[0]
    else
      var m := MaxElement(ps[..|ps| - 1]);
      assert forall i :: 0 <= i < |ps| - 1 ==> ps[..|ps| - 1][i] == ps[i];
      if m < ps[|ps| - 1] then ps[|ps| - 1] else m
  }

  /** `IsValidPercentiles()`: the empty list, or a sorted list whose
      smallest value is at least 0 and whose largest is at most 100. */
  predicate IsValidPercentiles(ps: seq<real>)
  {
    |ps| == 0 || (AdjacentSorted(ps) && MinElement(ps) >= 0.0 && MaxElement(ps) <= 100.0)
  }

  /** The percentiles in the order the summary reports them, each a
      percentage. */
  predicate IsPercentileList(ps: seq<real>)
  {
    (forall i, j :: 0 <= i <= j < |ps| ==> ps[i] <= ps[j]) &&
    forall i :: 0 <= i < |ps| ==> 0.0 <= ps[i] <= 100.0
  }

  /** Comparing neighbours is enough for the whole list to be in order. */
  lemma {:induction false} AdjacentSortedPairs(ps: seq<real>)
    ensures AdjacentSorted(ps) <==> forall i, j :: 0 <= i <= j < |ps| ==> ps[i] <= ps[j]
  {
    if AdjacentSorted(ps) {
      forall i, j | 0 <= i <= j < |ps|
        ensures ps[i] <= ps[j]
      {
        SortedFrom(ps, i, j);
      }
    }
  }

  lemma {:induction false} SortedFrom(ps: seq<real>, i: int, j: int)
    requires AdjacentSorted(ps) && 0 <= i <= j < |ps|
    ensures ps[i] <= ps[j]
    decreases j - i
  {
    if i < j {
      SortedFrom(ps, i, j - 1);
    }
  }

  /** The validator accepts exactly the lists of percentages in
      non-decreasing order; in particular, the empty list. */
  lemma ValidPercentilesIff(ps: seq<real>)
    ensures IsValidPercentiles(ps) <==> IsPercentileList(ps)
  {
    AdjacentSortedPairs(ps);
    if |ps| > 0 {
      var lo, hi := MinElement(ps), MaxElement(ps);
      if IsPercentileList(ps) {
        var a :| 0 <= a < |ps| && ps[a] == lo;
        var b :| 0 <= b < |ps| && ps[b] == hi;
        assert 0.0 <= ps[a] && ps[b] <= 100.0;
      }
    }
  }

  // ---------------------------------------------------------------------
  // Commands.

  datatype Response =
    | Failure(code: int, message: string)
    | Done
    | Summary(packets: nat, bits: nat)

  /** The failure of a summary command whose latency list (and, for the
      round-trip summary, jitter list) the validator refuses; the latency
      list is checked first. */
  function PercentileError(latency: seq<real>, jitter: Option<seq<real>>): (r: Option<Response>)
    ensures r.None? <==> IsValidPercentiles(latency) && (jitter.Some? ==> IsValidPercentiles(jitter.value))
    ensures !IsValidPercentiles(latency) ==> r == Some(Failure(EINVAL, "invalid 'latency_percentiles'"))
    ensures IsValidPercentiles(latency) && r.Some? ==> r == Some(Failure(EINVAL, "invalid 'jitter_percentiles'"))
  {
    if !IsValidPercentiles(latency) then Some(Failure(EINVAL, "invalid 'latency_percentiles'"))
    else if jitter.Some? && !IsValidPercentiles(jitter.value) then Some(Failure(EINVAL, "invalid 'jitter_percentiles'"))
    else None
  }

  /** The `bits` field of a summary: bytes plus 24 bytes of framing per
      packet, in bits, in `uint64_t` arithmetic. */
  function Bits(bytes: nat, packets: nat): (r: nat)
    ensures r < U64
    ensures (bytes + packets * 24) * 8 < U64 ==> r == (bytes + packets * 24) * 8
  {
    ((bytes + packets * 24) * 8) % U64
  }

  // ---------------------------------------------------------------------
  // Histogram size.

  /** A zero argument stands for the default. */
  function OrDefault(x: nat, default: nat): (r: nat)
    ensures r == 0 ==> default == 0
    ensures x != 0 ==> r == x
  {
    if x == 0 then default else x
  }

  /** The bucket count `Init()` computes: the quotient, plus one for any
      remainder. */
  function Buckets(max: nat, width: nat): nat
    requires width > 0
  {
    max / width + (if max % width != 0 then 1 else 0)
  }

  /** The bucket count is the fewest buckets of the given width that cover
      `max` nanoseconds: they cover it, and one bucket fewer would not. */
  lemma BucketsCover(max: nat, width: nat)
    requires width > 0
    ensures Buckets(max, width) * width >= max
    ensures Buckets(max, width) > 0 ==> (Buckets(max, width) - 1) * width < max
  {
    var d, m := max / width, max % width;
    assert max == d * width + m;
    if m != 0 {
      assert (d + 1) * width == d * width + width;
    } else if d > 0 {
      assert (d - 1) * width == d * width - width;
    }
  }

  // ---------------------------------------------------------------------
  // The per-core maximum batch delay.

  /** The delay table after core `c` reported `d`: its entry is raised to
      `d` if `d` is larger, and every other entry stays. */
  function RaiseTo(ds: seq<nat>, c: nat, d: nat): (r: seq<nat>)
    requires c < |ds|
    ensures |r| == |ds| && d <= r[c] && (r[c] == d || r[c] == ds[c])
    ensures forall i :: 0 <= i < |ds| ==> ds[i] <= r[i]
    ensures forall i :: 0 <= i < |ds| && i != c ==> r[i] == ds[i]
  {
    if ds[c] < d then ds[c := d] else ds
  }

  /** Reporting the same delay again changes nothing. */
  lemma RaiseToTwice(ds: seq<nat>, c: nat, d: nat)
    requires c < |ds|
    ensures RaiseTo(RaiseTo(ds, c, d), c, d) == RaiseTo(ds, c, d)
  {
  }

  /** `rte_atomic16_inc` / `rte_atomic16_dec` on the pause counter, which
      is a 16-bit signed integer. */
  function Inc16(x: int): (r: int)
    requires -0x8000 <= x < 0x8000
    ensures -0x8000 <= r < 0x8000
  {
    if x == 0x7fff then -0x8000 else x + 1
  }

  function Dec16(x: int): (r: int)
    requires -0x8000 <= x < 0x8000
    ensures -0x8000 <= r < 0x8000
  {
    if x == -0x8000 then 0x7fff else x - 1
  }

  /** Unpausing undoes a pause, and the other way round. */
  lemma {:induction false} PauseRoundTrip(x: int)
    requires -0x8000 <= x < 0x8000
    ensures Dec16(Inc16(x)) == x && Inc16(Dec16(x)) == x
  {
    if x == 0x7fff {
      assert Inc16(x) == -0x8000;
    }
    if x == -0x8000 {
      assert Dec16(x) == 0x7fff;
    }
  }

  // ---------------------------------------------------------------------
  // The module.

  class Measure {
    /** Shape of the round-trip and jitter histograms (`rtt_hist_`,
        `jitter_hist_`), which are always resized together. */
    var numBuckets: nat
    var bucketWidth: nat
    /** Shape of the queue-length histogram (`queue_hist_`). */
    var queueBuckets: nat
    var queueWidth: nat
    /** `lb_core_pausing_updates_`. */
    var pausing: int
    /** `pkt_cnt_`, `bytes_cnt_`. */
    var pktCnt: nat
    var bytesCnt: nat
    /** `bess::ctrl::pc_max_batch_delay`, shared with the ingress modules. */
    const maxBatchDelay: array<nat>

    ghost predicate Valid()
      reads this
    {
      -0x8000 <= pausing < 0x8000 && pktCnt < U64 && bytesCnt < U64
    }

    constructor (delays: array<nat>)
      ensures Valid() && maxBatchDelay == delays
      ensures numBuckets == 0 && queueBuckets == 0 && pausing == 0 && pktCnt == 0 && bytesCnt == 0
    {
      maxBatchDelay := delays;
      numBuckets, bucketWidth := 0, 0;
      queueBuckets, queueWidth := 0, 0;
      pausing := 0;
      pktCnt, bytesCnt := 0, 0;
    }

    /** `QuadrantPauseUpdates()`. */
    method PauseUpdates()
      requires Valid()
      modifies this
      ensures Valid() && pausing == Inc16(old(pausing))
      ensures numBuckets == old(numBuckets) && bucketWidth == old(bucketWidth)
      ensures queueBuckets == old(queueBuckets) && queueWidth == old(queueWidth)
      ensures pktCnt == old(pktCnt) && bytesCnt == old(bytesCnt)
    {
      pausing := Inc16(pausing);
    }

    /** `QuadrantUnpauseUpdates()`. */
    method UnpauseUpdates()
      requires Valid()
      modifies this
      ensures Valid() && pausing == Dec16(old(pausing))
      ensures numBuckets == old(numBuckets) && bucketWidth == old(bucketWidth)
      ensures queueBuckets == old(queueBuckets) && queueWidth == old(queueWidth)
      ensures pktCnt == old(pktCnt) && bytesCnt == old(bytesCnt)
    {
      pausing := Dec16(pausing);
    }

    /** `IsCoreInfo()`: in the Quadrant experiment and while updates are
        not paused, the worker core's largest batch delay is raised to the
        delay the packet carries. */
    method IsCoreInfo(expId: int, coreId: nat, maxDelay: nat)
      requires coreId < maxBatchDelay.Length
      modifies maxBatchDelay
      ensures maxBatchDelay[..] ==
        if expId != QuadrantExperiment || pausing > 0 then old(maxBatchDelay[..])
        else RaiseTo(old(maxBatchDelay[..]), coreId, maxDelay)
    {
      if expId != QuadrantExperiment || pausing > 0 {
        return;
      }
      if maxBatchDelay[coreId] < maxDelay {
        maxBatchDelay[coreId] := maxDelay;
      }
    }

    /** `Init()`: zero arguments take the defaults; the histograms get as
        many buckets as cover the maximum latency, or the command fails
        with `E2BIG`, changing nothing, if that is more than half of what a
        histogram holds. */
    method Init(latencyNsMax: nat, latencyNsResolution: nat, defaultMaxNs: nat, defaultNsPerBucket: nat, maxNumBuckets: nat)
      returns (r: Response)
      requires Valid() && defaultNsPerBucket > 0
      modifies this
      ensures Valid()
      ensures var width := OrDefault(latencyNsResolution, defaultNsPerBucket);
        var q := Buckets(OrDefault(latencyNsMax, defaultMaxNs), width);
        if q > maxNumBuckets / 2 then
          r == Failure(E2BIG, "excessive latency_ns_max / latency_ns_resolution") &&
          numBuckets == old(numBuckets) && bucketWidth == old(bucketWidth) &&
          queueBuckets == old(queueBuckets) && queueWidth == old(queueWidth) && pausing == old(pausing)
        else
          r == Done && numBuckets == q && bucketWidth == width &&
          queueBuckets == QueueBuckets && queueWidth == 1 && pausing == 0
      ensures pktCnt == old(pktCnt) && bytesCnt == old(bytesCnt)
    {
      var max := latencyNsMax;
      var resolution := latencyNsResolution;
      if max == 0 {
        max := defaultMaxNs;
      }
      if resolution == 0 {
        resolution := defaultNsPerBucket;
      }
      assert max == OrDefault(latencyNsMax, defaultMaxNs) && resolution == OrDefault(latencyNsResolution, defaultNsPerBucket);
      var quotient := max / resolution;
      if max % resolution != 0 {
        quotient := quotient + 1;
      }
      assert quotient == Buckets(max, resolution);
      if quotient > maxNumBuckets / 2 {
        return Failure(E2BIG, "excessive latency_ns_max / latency_ns_resolution");
      }
      numBuckets, bucketWidth := quotient, resolution;
      queueBuckets, queueWidth := QueueBuckets, 1;
      pausing := 0;
      r := Done;
    }

    /** `Clear()`: the counters restart; the histograms keep their shape. */
    method Clear()
      requires Valid()
      modifies this
      ensures Valid() && pktCnt == 0 && bytesCnt == 0
      ensures numBuckets == old(numBuckets) && bucketWidth == old(bucketWidth)
      ensures queueBuckets == old(queueBuckets) && queueWidth == old(queueWidth) && pausing == old(pausing)
    {
      pktCnt := 0;
      bytesCnt := 0;
    }

    /** `CommandGetSummary()`: refuses invalid percentile lists, latency
        first, changing nothing; otherwise reports the packet and bit
        counts and restarts them when asked to. */
    method GetSummary(latency: seq<real>, jitter: seq<real>, clear: bool) returns (r: Response)
      requires Valid()
      modifies this
      ensures Valid()
      ensures PercentileError(latency, Some(jitter)).Some? ==>
        r == PercentileError(latency, Some(jitter)).value && pktCnt == old(pktCnt) && bytesCnt == old(bytesCnt)
      ensures PercentileError(latency, Some(jitter)).None? ==>
        r == Summary(old(pktCnt), Bits(old(bytesCnt), old(pktCnt))) &&
        (if clear then pktCnt == 0 && bytesCnt == 0 else pktCnt == old(pktCnt) && bytesCnt == old(bytesCnt))
      ensures numBuckets == old(numBuckets) && bucketWidth == old(bucketWidth)
      ensures queueBuckets == old(queueBuckets) && queueWidth == old(queueWidth) && pausing == old(pausing)
    {
      if !IsValidPercentiles(latency) {
        return Failure(EINVAL, "invalid 'latency_percentiles'");
      }
      if !IsValidPercentiles(jitter) {
        return Failure(EINVAL, "invalid 'jitter_percentiles'");
      }
      r := Summary(pktCnt, Bits(bytesCnt, pktCnt));
      if clear {
        Clear();
      }
    }

    /** `CommandGetQueueSummary()`: as the summary, over the latency list
        alone. */
    method GetQueueSummary(latency: seq<real>, clear: bool) returns (r: Response)
      requires Valid()
      modifies this
      ensures Valid()
      ensures PercentileError(latency, None).Some? ==>
        r == PercentileError(latency, None).value && pktCnt == old(pktCnt) && bytesCnt == old(bytesCnt)
      ensures PercentileError(latency, None).None? ==>
        r == Summary(old(pktCnt), Bits(old(bytesCnt), old(pktCnt))) &&
        (if clear then pktCnt == 0 && bytesCnt == 0 else pktCnt == old(pktCnt) && bytesCnt == old(bytesCnt))
      ensures numBuckets == old(numBuckets) && bucketWidth == old(bucketWidth)
      ensures queueBuckets == old(queueBuckets) && queueWidth == old(queueWidth) && pausing == old(pausing)
    {
      if !IsValidPercentiles(latency) {
        return Failure(EINVAL, "invalid 'latency_percentiles'");
      }
      r := Summary(pktCnt, Bits(bytesCnt, pktCnt));
      if clear {
        Clear();
      }
    }
  }
}
