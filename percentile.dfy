// Percentiles of a sample: the element at position int(p * (n - 1) / 100)
// of the sorted sample.  Two variants exist: the statistics script returns
// -1 for a percentile outside [0, 100]; the CDF script first refuses fewer
// than 100 samples and then a percentile outside [0, 100].
module Percentile {
  import opened Util

  predicate SortedReals(s: seq<real>)
  {
    forall i, j :: 0 <= i < j < |s| ==> s[i] <= s[j]
  }

  function Insert(x: real, s: seq<real>): (r: seq<real>)
    requires SortedReals(s)
    ensures SortedReals(r)
    ensures |r| == |s| + 1 && r[0] == (if s == [] || x <= s[0] then x else s[0])
    ensures multiset(r) == multiset(s) + multiset{x}
    decreases |s|
  {
    if s == [] then [x]
    else if x <= s[0] then [x] + s
    else
      var rest := Insert(x, s[1..]);
      assert s == [s[0]] + s[1..];
      assert s[0] <= rest[0];
      assert forall j :: 0 <= j < |rest| ==> rest[0] <= rest[j];
      [s[0]] + rest
  }

  /** Python `sorted`: the ascending permutation of the sample. */
  function Sort(s: seq<real>): (r: seq<real>)
    ensures SortedReals(r)
    ensures multiset(r) == multiset(s)
    decreases |s|
  {
    if s == [] then []
    else
      assert s == [s[0]] + s[1..];
      Insert(s[0], Sort(s[1..]))
  }

  /** The number of elements satisfying f. */
  function CountWhere(s: seq<real>, f: real -> bool): nat
    decreases |s|
  {
    if s == [] then 0 else (if f(s[0]) then 1 else 0) + CountWhere(s[1..], f)
  }

  /** Inserting adds one element to the count iff it satisfies f. */
  lemma {:induction false} CountInsert(x: real, s: seq<real>, f: real -> bool)
    requires SortedReals(s)
    ensures CountWhere(Insert(x, s), f) == CountWhere(s, f) + (if f(x) then 1 else 0)
    decreases |s|
  {
    if s == [] {
    } else if x <= s[0] {
      assert ([x] + s)[1..] == s;
    } else {
      var rest := Insert(x, s[1..]);
      CountInsert(x, s[1..], f);
      assert ([s[0]] + rest)[1..] == rest;
    }
  }

  /** Sorting keeps every count. */
  lemma {:induction false} CountSort(s: seq<real>, f: real -> bool)
    ensures CountWhere(Sort(s), f) == CountWhere(s, f)
    decreases |s|
  {
    if s != [] {
      CountSort(s[1..], f);
      CountInsert(s[0], Sort(s[1..]), f);
    }
  }

  /** If every element at positions lo .. hi-1 satisfies f, at least hi - lo
      elements do. */
  lemma {:induction false} CountWhereRange(s: seq<real>, f: real -> bool, lo: int, hi: int)
    requires 0 <= lo <= hi <= |s|
    requires forall i :: lo <= i < hi ==> f(s[i])
    ensures CountWhere(s, f) >= hi - lo
    decreases |s|
  {
    if lo < hi {
      if lo > 0 {
        CountWhereRange(s[1..], f, lo - 1, hi - 1);
      } else {
        CountWhereRange(s[1..], f, 0, hi - 1);
      }
    }
  }

  function AtMost(v: real): real -> bool
  {
    y => y <= v
  }

  function AtLeast(v: real): real -> bool
  {
    y => y >= v
  }

  /** `int(p_val * (n - 1) / 100)`. */
  function Position(p: real, n: nat): int
  {
    Trunc(p * (n as real - 1.0) / 100.0)
  }

  lemma PositionInRange(p: real, n: nat)
    requires 0.0 <= p <= 100.0 && n >= 1
    ensures 0 <= Position(p, n) < n
  {
    var m := n as real - 1.0;
    assert 0.0 <= p * m <= 100.0 * m;
    assert 0.0 <= p * m / 100.0 <= m;
  }

  /** The element at a percentile's position in the sorted sample; the
      caller has checked the percentile and that the sample is not empty. */
  function Pick(p: real, xs: seq<real>): (v: real)
    requires 0.0 <= p <= 100.0 && |xs| >= 1
    ensures v in multiset(xs)
  {
    PositionInRange(p, |xs|);
    var sorted := Sort(xs);
    assert sorted[Position(p, |xs|)] in multiset(sorted);
    sorted[Position(p, |xs|)]
  }

  /** What the picked value means: at least pos + 1 elements are at most
      it and at least n - pos are at least it, pos being the percentile's
      position: it is the sample's (pos + 1)-th smallest element. */
  lemma PickRank(p: real, xs: seq<real>)
    requires 0.0 <= p <= 100.0 && |xs| >= 1
    ensures 0 <= Position(p, |xs|) < |xs|
    ensures CountWhere(xs, AtMost(Pick(p, xs))) >= Position(p, |xs|) + 1
    ensures CountWhere(xs, AtLeast(Pick(p, xs))) >= |xs| - Position(p, |xs|)
  {
    PositionInRange(p, |xs|);
    var sorted, pos := Sort(xs), Position(p, |xs|);
    var v := sorted[pos];
    assert v == Pick(p, xs);
    RankInSorted(sorted, pos);
    CountSort(xs, AtMost(v));
    CountSort(xs, AtLeast(v));
  }

  /** In a sorted sequence, the element at pos has pos + 1 elements at most
      it and |s| - pos at least it. */
  lemma RankInSorted(s: seq<real>, pos: int)
    requires SortedReals(s) && 0 <= pos < |s|
    ensures CountWhere(s, AtMost(s[pos])) >= pos + 1
    ensures CountWhere(s, AtLeast(s[pos])) >= |s| - pos
  {
    var le, ge := AtMost(s[pos]), AtLeast(s[pos]);
    forall i | 0 <= i < pos + 1 ensures le(s[i]) {
      assert s[i] <= s[pos];
    }
    forall i | pos <= i < |s| ensures ge(s[i]) {
      assert s[pos] <= s[i];
    }
    CountWhereRange(s, le, 0, pos + 1);
    CountWhereRange(s, ge, pos, |s|);
  }

  datatype PercentileError = EmptySample   // `sorted_x_data[p_pos]` raises IndexError

  /** `get_percentile` of the statistics script: -1 outside [0, 100]. */
  function GetPercentile(p: real, xs: seq<real>): (r: Result<real, PercentileError>)
    ensures (p < 0.0 || p > 100.0) ==> r == Ok(-1.0)
    ensures 0.0 <= p <= 100.0 ==> (r.Err? <==> xs == [])
    ensures 0.0 <= p <= 100.0 && r.Ok? ==> r.value in multiset(xs)
  {
    if p < 0.0 || p > 100.0 then Ok(-1.0)
    else if |xs| == 0 then Err(EmptySample)
    else Ok(Pick(p, xs))
  }

  /** The answers of the CDF script's `get_percentile`. */
  datatype GuardedPercentile = Sample(value: real) | NotEnoughSamples | OutOfRange

  const MinSamples: nat := 100

  function GetPercentileGuarded(p: real, xs: seq<real>): (r: GuardedPercentile)
    ensures r == NotEnoughSamples <==> |xs| < MinSamples
    ensures r == OutOfRange <==> |xs| >= MinSamples && (p < 0.0 || p > 100.0)
    ensures r.Sample? ==> r.value in multiset(xs) && 0.0 <= p <= 100.0
  {
    if |xs| < MinSamples then NotEnoughSamples
    else if p < 0.0 || p > 100.0 then OutOfRange
    else Sample(Pick(p, xs))
  }

  /** Where both variants answer with a value, they answer alike. */
  lemma PercentileVariantsAgree(p: real, xs: seq<real>)
    requires GetPercentileGuarded(p, xs).Sample?
    ensures GetPercentile(p, xs) == Ok(GetPercentileGuarded(p, xs).value)
  {
  }
}
