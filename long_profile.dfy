// The long-term profile of a network function: from a latency benchmark
// log (one line per experiment holding packet size, packet rate, flow count
// and the latency at percentiles 0 .. 99, in nanoseconds), the largest
// packet rate for each flow count whose median latency stays below a
// target SLO, written one "flow-count rate" pair per line in ascending
// flow-count order.
module LongTermProfile {
  import opened Util
  import opened Telemetry

  /** `LATENCY_PERCENTILES = range(100)`. */
  const LatencyPercentiles: nat := 100

  /** Packet size, packet rate and flow count come first. */
  const NumInputs: nat := 3

  /** `outputs[49]`: the median latency. */
  const MedianIndex: nat := 49

  /** One experiment: the three inputs and the latencies in microseconds. */
  datatype LatencyResult = LatencyResult(inputs: seq<real>, outputs: seq<real>)

  // ---------------------------------------------------------------------
  // read_nf_profile

  /** Header lines and short lines carry no numbers. */
  predicate SkippedLine(line: string)
  {
    Contains(line, "Results") || Contains(line, "P50") || |line| <= 80
  }

  /** A piece of `line.split(" ")` that is not blank. */
  predicate IsToken(x: string)
  {
    |Strip(x)| > 0
  }

  /** `float(x)`. */
  function ParseNumber(x: string): Result<real, ParseError>
  {
    match ParseFloat(x)
    case None => Err(ValueError(x))
    case Some(v) => Ok(v)
  }

  /** The numbers of a line: every non-blank piece is converted, and the
      first piece that is not a number aborts the read. */
  function LineNumbers(line: string): Result<seq<real>, ParseError>
  {
    ReadLines(Split(line, ' '), IsToken, ParseNumber)
  }

  /** `[x / 1000.0 for x in xs]`: nanoseconds to microseconds. */
  function ToMicros(xs: seq<real>): (r: seq<real>)
    ensures |r| == |xs| && forall k :: 0 <= k < |xs| ==> r[k] * 1000.0 == xs[k]
  {
    seq(|xs|, k requires 0 <= k < |xs| => xs[k] / 1000.0)
  }

  /** A line yields an experiment when it is not skipped and holds exactly
      3 + 100 numbers; any other line that parses is ignored. */
  function NfRow(line: string): Result<Option<LatencyResult>, ParseError>
  {
    if SkippedLine(line) then Ok(None)
    else match LineNumbers(line)
      case Err(e) => Err(e)
      case Ok(nums) =>
        if |nums| != NumInputs + LatencyPercentiles then Ok(None)
        else Ok(Some(LatencyResult(nums[..NumInputs], ToMicros(nums[NumInputs..]))))
  }

  function NfProfile(lines: seq<string>): Result<seq<LatencyResult>, ParseError>
  {
    if lines == [] then Ok([])
    else match NfProfile(lines[..|lines| - 1])
      case Err(e) => Err(e)
      case Ok(prev) =>
        match NfRow(lines[|lines| - 1])
        case Err(e) => Err(e)
        case Ok(None) => Ok(prev)
        case Ok(Some(row)) => Ok(prev + [row])
  }

  lemma {:induction false} NfProfileErrSticky(lines: seq<string>, n: nat)
    requires n <= |lines| && NfProfile(lines[..n]).Err?
    ensures NfProfile(lines) == NfProfile(lines[..n])
    decreases |lines| - n
  {
    if n < |lines| {
      assert lines[..n + 1][..n] == lines[..n];
      NfProfileErrSticky(lines, n + 1);
    } else {
      assert lines[..n] == lines;
    }
  }

  /** What a line contributes: an experiment exactly when it is not skipped,
      all its pieces are numbers and there are 103 of them; the inputs are
      the first three numbers and the outputs the remaining 100, each a
      thousandth of the logged value. */
  lemma NfRowSpec(line: string)
    ensures NfRow(line).Ok? && NfRow(line).value.Some? <==>
      !SkippedLine(line) && LineNumbers(line).Ok? && |LineNumbers(line).value| == NumInputs + LatencyPercentiles
    ensures NfRow(line).Ok? && NfRow(line).value.Some? ==>
      var nums, row := LineNumbers(line).value, NfRow(line).value.value;
      row.inputs == nums[..NumInputs] && |row.outputs| == LatencyPercentiles &&
      forall k :: 0 <= k < LatencyPercentiles ==> row.outputs[k] * 1000.0 == nums[NumInputs + k]
  {
  }

  /** Every experiment read has three inputs and 100 latencies. */
  lemma {:induction false} NfProfileShape(lines: seq<string>)
    ensures NfProfile(lines).Ok? ==>
      forall i :: 0 <= i < |NfProfile(lines).value| ==>
        |NfProfile(lines).value[i].inputs| == NumInputs &&
        |NfProfile(lines).value[i].outputs| == LatencyPercentiles
  {
    if lines != [] {
      NfProfileShape(lines[..|lines| - 1]);
    }
  }

  /** The loop over the pieces of one line. */
  method ReadLineNumbers(line: string) returns (r: Result<seq<real>, ParseError>)
    ensures r == LineNumbers(line)
  {
    var parts := Split(line, ' ');
    var nums: seq<real> := [];
    var i := 0;
    while i < |parts|
      invariant 0 <= i <= |parts|
      invariant ReadLines(parts[..i], IsToken, ParseNumber) == Ok(nums)
    {
      ReadLinesStep(parts, i, IsToken, ParseNumber, nums);
      var x := parts[i];
      if IsToken(x) {
        var v := ParseNumber(x);
        if v.Err? {
          ReadLinesErrSticky(parts, i + 1, IsToken, ParseNumber);
          return Err(v.error);
        }
        nums := nums + [v.value];
      }
      i := i + 1;
    }
    assert parts[..i] == parts;
    r := Ok(nums);
  }

  /** `read_nf_profile` over the lines of a file. */
  method ReadNfProfile(lines: seq<string>) returns (r: Result<seq<LatencyResult>, ParseError>)
    ensures r == NfProfile(lines)
  {
    var results: seq<LatencyResult> := [];
    var i := 0;
    while i < |lines|
      invariant 0 <= i <= |lines|
      invariant NfProfile(lines[..i]) == Ok(results)
    {
      assert lines[..i + 1][..i] == lines[..i];
      var line := lines[i];
      if !SkippedLine(line) {
        var nums := ReadLineNumbers(line);
        if nums.Err? {
          NfProfileErrSticky(lines, i + 1);
          return Err(nums.error);
        }
        if |nums.value| == NumInputs + LatencyPercentiles {
          var inputs := nums.value[..NumInputs];
          var outputs := ToMicros(nums.value[NumInputs..]);
          results := results + [LatencyResult(inputs, outputs)];
        }
      }
      i := i + 1;
    }
    assert lines[..i] == lines;
    r := Ok(results);
  }

  // ---------------------------------------------------------------------
  // get_long_term_profile

  /** The row has the entries the loop reads before filtering; otherwise
      the indexing raises IndexError. */
  predicate Fits(e: LatencyResult)
  {
    |e.inputs| >= NumInputs && |e.outputs| > MedianIndex
  }

  predicate AllFit(results: seq<LatencyResult>)
  {
    forall i :: 0 <= i < |results| ==> Fits(results[i])
  }

  /** The experiment ran at the target packet size and met the SLO. */
  predicate Qualifies(e: LatencyResult, targetSize: int, targetSlo: real)
    requires Fits(e)
  {
    Trunc(e.inputs[0]) == targetSize && e.outputs[MedianIndex] < targetSlo
  }

  /** (flow count, packet rate) of an experiment, `int`-converted. */
  function RatePair(e: LatencyResult): (int, int)
    requires Fits(e)
  {
    (Trunc(e.inputs[2]), Trunc(e.inputs[1]))
  }

  function QualifyingPairs(results: seq<LatencyResult>, targetSize: int, targetSlo: real): seq<(int, int)>
    requires forall i :: 0 <= i < |results| ==> Fits(results[i])
  {
    if results == [] then []
    else
      var e := results[|results| - 1];
      QualifyingPairs(results[..|results| - 1], targetSize, targetSlo) +
        (if Qualifies(e, targetSize, targetSlo) then [RatePair(e)] else [])
  }

  /** Every qualifying experiment contributes its pair ... */
  lemma {:induction false} QualifyingPairsComplete(results: seq<LatencyResult>, targetSize: int, targetSlo: real)
    requires forall i :: 0 <= i < |results| ==> Fits(results[i])
    ensures forall i :: 0 <= i < |results| && Qualifies(results[i], targetSize, targetSlo) ==>
      RatePair(results[i]) in QualifyingPairs(results, targetSize, targetSlo)
  {
    if results != [] {
      var init := results[..|results| - 1];
      QualifyingPairsComplete(init, targetSize, targetSlo);
      assert forall i :: 0 <= i < |init| ==> init[i] == results[i];
    }
  }

  /** ... and every pair comes from a qualifying experiment. */
  lemma {:induction false} QualifyingPairsSound(results: seq<LatencyResult>, targetSize: int, targetSlo: real)
    requires AllFit(results)
    ensures forall p :: p in QualifyingPairs(results, targetSize, targetSlo) ==>
      OfQualifying(p, results, targetSize, targetSlo)
  {
    if results != [] {
      var init := results[..|results| - 1];
      QualifyingPairsSound(init, targetSize, targetSlo);
      assert forall i :: 0 <= i < |init| ==> init[i] == results[i];
      forall p | p in QualifyingPairs(init, targetSize, targetSlo)
        ensures OfQualifying(p, results, targetSize, targetSlo)
      {
        assert OfQualifying(p, init, targetSize, targetSlo);
        var i :| 0 <= i < |init| && Qualifies(init[i], targetSize, targetSlo) && RatePair(init[i]) == p;
        assert results[i] == init[i];
      }
      var e := results[|results| - 1];
      if Qualifies(e, targetSize, targetSlo) {
        assert OfQualifying(RatePair(e), results, targetSize, targetSlo);
      }
    }
  }

  /** The lines of the `.pro` file, as (flow count, rate) pairs. */
  function ProfileLines(m: map<int, int>): (r: seq<(int, int)>)
  {
    var fcs := SortedKeys(m.Keys);
    seq(|fcs|, k requires 0 <= k < |fcs| => (fcs[k], m[fcs[k]]))
  }

  function LongTermRows(results: seq<LatencyResult>, targetSize: int, targetSlo: real): Result<seq<(int, int)>, ParseError>
  {
    if exists i :: 0 <= i < |results| && !Fits(results[i]) then Err(IndexError)
    else Ok(ProfileLines(MaxPerKey(QualifyingPairs(results, targetSize, targetSlo))))
  }

  /** The loop filling `max_rate_under_fc`. */
  method MaxRateUnderFc(results: seq<LatencyResult>, targetSize: int, targetSlo: real)
    returns (r: Result<map<int, int>, ParseError>)
    ensures r.Err? <==> exists i :: 0 <= i < |results| && !Fits(results[i])
    ensures r.Err? ==> r.error == IndexError
    ensures r.Ok? ==> r.value == MaxPerKey(QualifyingPairs(results, targetSize, targetSlo))
  {
    var maxRateUnderFc: map<int, int> := map[];
    ghost var q: seq<(int, int)> := [];
    var i := 0;
    while i < |results|
      invariant 0 <= i <= |results|
      invariant forall j :: 0 <= j < i ==> Fits(results[j])
      invariant q == QualifyingPairs(results[..i], targetSize, targetSlo)
      invariant maxRateUnderFc == MaxPerKey(q)
    {
      var e := results[i];
      if !Fits(e) {
        assert !Fits(results[i]);
        return Err(IndexError);
      }
      QualifyingPairsStep(results, i, targetSize, targetSlo);
      var pktSize, pktRate, flowCount := Trunc(e.inputs[0]), Trunc(e.inputs[1]), Trunc(e.inputs[2]);
      var pval := e.outputs[MedianIndex];
      if pktSize == targetSize && pval < targetSlo {
        MaxPerKeySnoc(q, flowCount, pktRate);
        if flowCount !in maxRateUnderFc {
          maxRateUnderFc := maxRateUnderFc[flowCount := pktRate];
        } else {
          maxRateUnderFc := maxRateUnderFc[flowCount := if maxRateUnderFc[flowCount] >= pktRate then maxRateUnderFc[flowCount] else pktRate];
        }
        q := q + [(flowCount, pktRate)];
      }
      i := i + 1;
    }
    assert results[..i] == results;
    r := Ok(maxRateUnderFc);
  }

  /** One more experiment examined: its pair is appended iff it qualifies. */
  lemma QualifyingPairsStep(results: seq<LatencyResult>, i: int, targetSize: int, targetSlo: real)
    requires 0 <= i < |results| && forall j :: 0 <= j <= i ==> Fits(results[j])
    ensures Qualifies(results[i], targetSize, targetSlo) ==>
      QualifyingPairs(results[..i + 1], targetSize, targetSlo) ==
        QualifyingPairs(results[..i], targetSize, targetSlo) + [RatePair(results[i])]
    ensures !Qualifies(results[i], targetSize, targetSlo) ==>
      QualifyingPairs(results[..i + 1], targetSize, targetSlo) == QualifyingPairs(results[..i], targetSize, targetSlo)
  {
    assert results[..i + 1][..i] == results[..i];
    var q := QualifyingPairs(results[..i], targetSize, targetSlo);
    assert q + [] == q;
  }

  /** The loop writing one line per flow count in ascending order. */
  method WriteProfile(m: map<int, int>) returns (rows: seq<(int, int)>)
    ensures rows == ProfileLines(m)
  {
    var fcs := SortedKeys(m.Keys);
    rows := [];
    var k := 0;
    while k < |fcs|
      invariant 0 <= k <= |fcs|
      invariant |rows| == k && forall j :: 0 <= j < k ==> rows[j] == (fcs[j], m[fcs[j]])
    {
      rows := rows + [(fcs[k], m[fcs[k]])];
      k := k + 1;
    }
  }

  /** `get_long_term_profile`: the pairs the `.pro` file receives. */
  method GetLongTermProfile(results: seq<LatencyResult>, targetSize: int, targetSlo: real)
    returns (r: Result<seq<(int, int)>, ParseError>)
    ensures r == LongTermRows(results, targetSize, targetSlo)
  {
    var m := MaxRateUnderFc(results, targetSize, targetSlo);
    if m.Err? {
      return Err(m.error);
    }
    var rows := WriteProfile(m.value);
    r := Ok(rows);
  }

  /** The file lists the keys of the dictionary in strictly ascending
      order, ... */
  lemma ProfileLinesAscending(m: map<int, int>)
    ensures KeysAscending(ProfileLines(m))
  {
  }

  /** ... each line carrying a key and its value, ... */
  lemma ProfileLinesFromMap(m: map<int, int>)
    ensures forall k :: 0 <= k < |ProfileLines(m)| ==>
      ProfileLines(m)[k].0 in m && ProfileLines(m)[k].1 == m[ProfileLines(m)[k].0]
  {
    var fcs := SortedKeys(m.Keys);
    assert forall k :: 0 <= k < |fcs| ==> fcs[k] in fcs;
  }

  /** ... and every key having a line. */
  lemma ProfileLinesCoverMap(m: map<int, int>)
    ensures forall fc :: fc in m ==> exists k :: 0 <= k < |ProfileLines(m)| && ProfileLines(m)[k].0 == fc
  {
    var fcs := SortedKeys(m.Keys);
    var rows := ProfileLines(m);
    forall fc | fc in m ensures exists k :: 0 <= k < |rows| && rows[k].0 == fc {
      assert fc in fcs;
      var k :| 0 <= k < |fcs| && fcs[k] == fc;
      assert rows[k].0 == fc;
    }
  }

  // Properties of the written file, stated once over pairs and once over
  // the experiments they come from.

  /** Every line is one of the pairs. */
  predicate LinesFromPairs(rows: seq<(int, int)>, q: seq<(int, int)>)
  {
    forall k :: 0 <= k < |rows| ==> rows[k] in q
  }

  /** Every pair's key has a line with at least the pair's value. */
  predicate LinesCoverPairs(rows: seq<(int, int)>, q: seq<(int, int)>)
  {
    forall p :: p in q ==> exists k :: 0 <= k < |rows| && rows[k].0 == p.0 && rows[k].1 >= p.1
  }

  /** Over any pairs: the file lists only pairs that occur. */
  lemma MaxProfileFromPairs(q: seq<(int, int)>)
    ensures LinesFromPairs(ProfileLines(MaxPerKey(q)), q)
  {
    var m := MaxPerKey(q);
    var rows := ProfileLines(m);
    ProfileLinesFromMap(m);
    MaxPerKeyIsMax(q);
    forall k | 0 <= k < |rows| ensures rows[k] in q {
      var fc := rows[k].0;
      var j :| 0 <= j < |q| && q[j].0 == fc && q[j].1 == m[fc];
      assert rows[k] == q[j];
    }
  }

  /** Over any pairs: each pair that occurs has a line with its key and at
      least its value. */
  lemma MaxProfileCoversPairs(q: seq<(int, int)>)
    ensures LinesCoverPairs(ProfileLines(MaxPerKey(q)), q)
  {
    var m := MaxPerKey(q);
    var rows := ProfileLines(m);
    ProfileLinesFromMap(m);
    ProfileLinesCoverMap(m);
    MaxPerKeyIsMax(q);
    forall p | p in q ensures exists k :: 0 <= k < |rows| && rows[k].0 == p.0 && rows[k].1 >= p.1 {
      var j :| 0 <= j < |q| && q[j] == p;
      var k :| 0 <= k < |rows| && rows[k].0 == p.0;
      assert rows[k].1 == m[p.0];
    }
  }

  /** The pair is that of some qualifying experiment. */
  predicate OfQualifying(p: (int, int), results: seq<LatencyResult>, targetSize: int, targetSlo: real)
    requires AllFit(results)
  {
    exists i :: 0 <= i < |results| && Qualifies(results[i], targetSize, targetSlo) && RatePair(results[i]) == p
  }

  /** Every line is the pair of a qualifying experiment. */
  predicate LinesFromQualifying(rows: seq<(int, int)>, results: seq<LatencyResult>, targetSize: int, targetSlo: real)
    requires AllFit(results)
  {
    forall k :: 0 <= k < |rows| ==> OfQualifying(rows[k], results, targetSize, targetSlo)
  }

  /** Every qualifying experiment's flow count has a line with at least its
      rate. */
  predicate LinesCoverQualifying(rows: seq<(int, int)>, results: seq<LatencyResult>, targetSize: int, targetSlo: real)
    requires AllFit(results)
  {
    forall i :: 0 <= i < |results| && Qualifies(results[i], targetSize, targetSlo) ==>
      exists k :: 0 <= k < |rows| && rows[k].0 == RatePair(results[i]).0 && rows[k].1 >= RatePair(results[i]).1
  }

  predicate KeysAscending(rows: seq<(int, int)>)
  {
    forall a, b :: 0 <= a < b < |rows| ==> rows[a].0 < rows[b].0
  }

  lemma ProfileFromQualifying(results: seq<LatencyResult>, targetSize: int, targetSlo: real)
    requires AllFit(results)
    ensures LinesFromQualifying(ProfileLines(MaxPerKey(QualifyingPairs(results, targetSize, targetSlo))), results, targetSize, targetSlo)
  {
    var q := QualifyingPairs(results, targetSize, targetSlo);
    var rows := ProfileLines(MaxPerKey(q));
    MaxProfileFromPairs(q);
    QualifyingPairsSound(results, targetSize, targetSlo);
    forall k | 0 <= k < |rows| ensures OfQualifying(rows[k], results, targetSize, targetSlo) {
      assert rows[k] in q;
    }
  }

  lemma ProfileCoversQualifying(results: seq<LatencyResult>, targetSize: int, targetSlo: real)
    requires AllFit(results)
    ensures LinesCoverQualifying(ProfileLines(MaxPerKey(QualifyingPairs(results, targetSize, targetSlo))), results, targetSize, targetSlo)
  {
    var q := QualifyingPairs(results, targetSize, targetSlo);
    var rows := ProfileLines(MaxPerKey(q));
    MaxProfileCoversPairs(q);
    QualifyingPairsComplete(results, targetSize, targetSlo);
    forall i | 0 <= i < |results| && Qualifies(results[i], targetSize, targetSlo)
      ensures exists k :: 0 <= k < |rows| && rows[k].0 == RatePair(results[i]).0 && rows[k].1 >= RatePair(results[i]).1
    {
      assert RatePair(results[i]) in q;
    }
  }

  /** What the profile file promises: the read fails only on a row too
      short to index; otherwise the flow counts are strictly ascending,
      every line is the pair of some qualifying experiment, and every
      qualifying experiment's flow count has a line with at least its rate
      (so each rate is the largest among the qualifying experiments with
      that flow count). */
  lemma LongTermRowsSpec(results: seq<LatencyResult>, targetSize: int, targetSlo: real)
    ensures LongTermRows(results, targetSize, targetSlo).Ok? <==> AllFit(results)
    ensures AllFit(results) ==>
      var rows := LongTermRows(results, targetSize, targetSlo).value;
      KeysAscending(rows) &&
      LinesFromQualifying(rows, results, targetSize, targetSlo) &&
      LinesCoverQualifying(rows, results, targetSize, targetSlo)
  {
    if AllFit(results) {
      var q := QualifyingPairs(results, targetSize, targetSlo);
      ProfileLinesAscending(MaxPerKey(q));
      ProfileFromQualifying(results, targetSize, targetSlo);
      ProfileCoversQualifying(results, targetSize, targetSlo);
    }
  }
}
