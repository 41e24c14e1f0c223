// SLO-violation events of one core: a maximal run of consecutive epochs
// with a positive violation count that is closed by a compliant epoch.  A
// run of fewer than 20 epochs is a short-term event, one of 20 or more a
// long-term event; a run still open at the end of the log is not reported.
module SloEvents {
  import opened Util
  import opened Telemetry

  /** What the event scan reads from a snapshot: its violation count and its
      packet rate. */
  datatype EpochSample = EpochSample(slo: real, rate: real)

  function SampleOf(c: CoreSnapshot): EpochSample
  {
    EpochSample(c.slo, c.rate)
  }

  function CompactSampleOf(c: CompactCoreSnapshot): EpochSample
  {
    EpochSample(c.slo, c.rate)
  }

  function Samples(s: seq<CoreSnapshot>): seq<EpochSample>
  {
    seq(|s|, i requires 0 <= i < |s| => SampleOf(s[i]))
  }

  function CompactSamples(s: seq<CompactCoreSnapshot>): seq<EpochSample>
  {
    seq(|s|, i requires 0 <= i < |s| => CompactSampleOf(s[i]))
  }

  /** `SLOEvent(epoch_cnt, pkt_cnt)`. */
  datatype SloEvent = SloEvent(epochCnt: nat, pktCnt: real)

  /** The tuple `stats_analysis` returns. */
  datatype EventStats = EventStats(totalPkts: real, epochs: nat, shortTerm: seq<SloEvent>, longTerm: seq<SloEvent>)

  const LongTermEpochs: nat := 20

  predicate Violating(e: EpochSample)
  {
    e.slo > 0.0
  }

  /** The number of consecutive violating epochs that end just before j. */
  function RunLen(s: seq<EpochSample>, j: nat): nat
    requires j <= |s|
  {
    if j == 0 || !Violating(s[j - 1]) then 0 else RunLen(s, j - 1) + 1
  }

  /** The violation counts of that run, added up. */
  function RunPkts(s: seq<EpochSample>, j: nat): real
    requires j <= |s|
  {
    if j == 0 || !Violating(s[j - 1]) then 0.0 else RunPkts(s, j - 1) + s[j - 1].slo
  }

  /** RunLen(s, j) is the length of the maximal run of violating epochs
      ending at j - 1: every epoch in it violates and the one before it
      (if any) does not. */
  lemma {:induction false} RunLenIsMaximalRun(s: seq<EpochSample>, j: nat)
    requires j <= |s|
    ensures RunLen(s, j) <= j
    ensures forall t :: j - RunLen(s, j) <= t < j ==> Violating(s[t])
    ensures j - RunLen(s, j) == 0 || !Violating(s[j - RunLen(s, j) - 1])
  {
    if j > 0 && Violating(s[j - 1]) {
      RunLenIsMaximalRun(s, j - 1);
    }
  }

  /** Epoch j closes a run: it is compliant and a violating epoch precedes it. */
  predicate Closes(s: seq<EpochSample>, j: nat)
    requires j < |s|
  {
    !Violating(s[j]) && RunLen(s, j) >= 1
  }

  function EventAt(s: seq<EpochSample>, j: nat): SloEvent
    requires j <= |s|
  {
    SloEvent(RunLen(s, j), RunPkts(s, j))
  }

  /** The short-term events closed among the first n epochs, in order. */
  function ShortEvents(s: seq<EpochSample>, n: nat): seq<SloEvent>
    requires n <= |s|
  {
    if n == 0 then []
    else
      var closesShort := Closes(s, n - 1) && RunLen(s, n - 1) < LongTermEpochs;
      ShortEvents(s, n - 1) + (if closesShort then [EventAt(s, n - 1)] else [])
  }

  /** The long-term events closed among the first n epochs, in order. */
  function LongEvents(s: seq<EpochSample>, n: nat): seq<SloEvent>
    requires n <= |s|
  {
    if n == 0 then []
    else
      var closesLong := Closes(s, n - 1) && RunLen(s, n - 1) >= LongTermEpochs;
      LongEvents(s, n - 1) + (if closesLong then [EventAt(s, n - 1)] else [])
  }

  function RateSum(s: seq<EpochSample>, n: nat): real
    requires n <= |s|
  {
    if n == 0 then 0.0 else RateSum(s, n - 1) + s[n - 1].rate
  }

  /** `stats_analysis`: total rate, epoch count and the two event lists. */
  method StatsAnalysis(s: seq<EpochSample>) returns (r: EventStats)
    ensures r == EventStats(RateSum(s, |s|), |s|, ShortEvents(s, |s|), LongEvents(s, |s|))
  {
    var shortTerm: seq<SloEvent> := [];
    var longTerm: seq<SloEvent> := [];
    var totalPkts := 0.0;
    var epochWithSloVio: nat := 0;
    var pktWithSloVio := 0.0;
    var i := 0;
    while i < |s|
      invariant 0 <= i <= |s|
      invariant totalPkts == RateSum(s, i)
      invariant epochWithSloVio == RunLen(s, i) && pktWithSloVio == RunPkts(s, i)
      invariant shortTerm == ShortEvents(s, i) && longTerm == LongEvents(s, i)
    {
      totalPkts := totalPkts + s[i].rate;
      if s[i].slo > 0.0 {
        epochWithSloVio := epochWithSloVio + 1;
        pktWithSloVio := pktWithSloVio + s[i].slo;
        assert shortTerm + [] == shortTerm && longTerm + [] == longTerm;
      } else {
        if epochWithSloVio >= 1 {
          var e := SloEvent(epochWithSloVio, pktWithSloVio);
          if epochWithSloVio >= LongTermEpochs {
            longTerm := longTerm + [e];
            assert shortTerm + [] == shortTerm;
          } else if epochWithSloVio < LongTermEpochs {
            shortTerm := shortTerm + [e];
            assert longTerm + [] == longTerm;
          }
        } else {
          assert shortTerm + [] == shortTerm && longTerm + [] == longTerm;
        }
        epochWithSloVio := 0;
        pktWithSloVio := 0.0;
      }
      i := i + 1;
    }
    r := EventStats(totalPkts, |s|, shortTerm, longTerm);
  }

  /** Every short-term event spans 1 .. 19 epochs, every long-term one at
      least 20. */
  lemma {:induction false} EventLengths(s: seq<EpochSample>, n: nat)
    requires n <= |s|
    ensures forall k :: 0 <= k < |ShortEvents(s, n)| ==>
      1 <= ShortEvents(s, n)[k].epochCnt < LongTermEpochs
    ensures forall k :: 0 <= k < |LongEvents(s, n)| ==>
      LongEvents(s, n)[k].epochCnt >= LongTermEpochs
  {
    if n > 0 {
      EventLengths(s, n - 1);
    }
  }

  // ---------------------------------------------------------------------
  // Conservation: every violating epoch belongs to exactly one reported
  // event or to the run still open at the end.

  function ViolatingCount(s: seq<EpochSample>, n: nat): nat
    requires n <= |s|
  {
    if n == 0 then 0 else ViolatingCount(s, n - 1) + (if Violating(s[n - 1]) then 1 else 0)
  }

  function ViolationSum(s: seq<EpochSample>, n: nat): real
    requires n <= |s|
  {
    if n == 0 then 0.0 else ViolationSum(s, n - 1) + (if Violating(s[n - 1]) then s[n - 1].slo else 0.0)
  }

  function EventEpochs(es: seq<SloEvent>): nat
  {
    if es == [] then 0 else EventEpochs(es[..|es| - 1]) + es[|es| - 1].epochCnt
  }

  function EventPkts(es: seq<SloEvent>): real
  {
    if es == [] then 0.0 else EventPkts(es[..|es| - 1]) + es[|es| - 1].pktCnt
  }

  lemma EventSumsSnoc(es: seq<SloEvent>, e: SloEvent)
    ensures EventEpochs(es + [e]) == EventEpochs(es) + e.epochCnt
    ensures EventPkts(es + [e]) == EventPkts(es) + e.pktCnt
  {
    assert (es + [e])[..|es|] == es;
  }

  lemma {:induction false} EpochConservation(s: seq<EpochSample>, n: nat)
    requires n <= |s|
    ensures EventEpochs(ShortEvents(s, n)) + EventEpochs(LongEvents(s, n)) + RunLen(s, n) == ViolatingCount(s, n)
    ensures EventPkts(ShortEvents(s, n)) + EventPkts(LongEvents(s, n)) + RunPkts(s, n) == ViolationSum(s, n)
  {
    if n > 0 {
      EpochConservation(s, n - 1);
      var sh, lo := ShortEvents(s, n - 1), LongEvents(s, n - 1);
      var e := EventAt(s, n - 1);
      if Violating(s[n - 1]) {
        assert ShortEvents(s, n) == sh + [] == sh;
        assert LongEvents(s, n) == lo + [] == lo;
        assert RunLen(s, n) == RunLen(s, n - 1) + 1 && ViolatingCount(s, n) == ViolatingCount(s, n - 1) + 1;
      } else if RunLen(s, n - 1) == 0 {
        assert ShortEvents(s, n) == sh + [] == sh;
        assert LongEvents(s, n) == lo + [] == lo;
      } else if RunLen(s, n - 1) < LongTermEpochs {
        assert ShortEvents(s, n) == sh + [e];
        assert LongEvents(s, n) == lo + [] == lo;
        EventSumsSnoc(sh, e);
      } else {
        assert ShortEvents(s, n) == sh + [] == sh;
        assert LongEvents(s, n) == lo + [e];
        EventSumsSnoc(lo, e);
      }
    }
  }
}
