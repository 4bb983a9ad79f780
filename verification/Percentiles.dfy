/**
 The latency reports of the two round-trip tests. A report is described without sorting, by the
 ranks of its values: how many samples lie below them and how many do not lie above them.
 */
module Percentiles {
  import opened Words
  import opened Wrappers

  /** How many samples are at most v. */
  function UpTo(v: int): int -> int { x => if x <= v then 1 else 0 }

  function AtMost(samples: seq<int>, v: int): int { Total(samples, UpTo(v)) }

  /** v is a value with rank k: at most k samples are below it, more than k are not above it. */
  predicate HasRank(samples: seq<int>, k: int, v: int) {
    AtMost(samples, v - 1) <= k < AtMost(samples, v)
  }

  lemma {:induction false} AtMostIsMonotone(samples: seq<int>, v: int, w: int)
    requires v <= w
    ensures 0 <= AtMost(samples, v) <= AtMost(samples, w) <= |samples|
  {
    if samples != [] {
      AtMostIsMonotone(samples[..|samples| - 1], v, w);
    }
  }

  lemma {:induction false} AllUpTo(samples: seq<int>, v: int)
    requires forall i :: 0 <= i < |samples| ==> samples[i] <= v
    ensures AtMost(samples, v) == |samples|
  {
    if samples != [] {
      AllUpTo(samples[..|samples| - 1], v);
    }
  }

  lemma {:induction false} NoneUpTo(samples: seq<int>, v: int)
    requires forall i :: 0 <= i < |samples| ==> v < samples[i]
    ensures AtMost(samples, v) == 0
  {
    if samples != [] {
      NoneUpTo(samples[..|samples| - 1], v);
    }
  }

  lemma {:induction false} RankIsMember(samples: seq<int>, k: int, v: int)
    requires HasRank(samples, k, v)
    ensures v in samples
  {
    if v !in samples {
      NoneBetween(samples, v);
    }
  }

  lemma {:induction false} NoneBetween(samples: seq<int>, v: int)
    requires v !in samples
    ensures AtMost(samples, v - 1) == AtMost(samples, v)
  {
    if samples != [] {
      NoneBetween(samples[..|samples| - 1], v);
      assert samples[|samples| - 1] in samples;
    }
  }

  /** Ranks are in the order of their values; so no two values have the same rank. */
  lemma RanksAreOrdered(samples: seq<int>, j: int, v: int, k: int, w: int)
    requires j <= k && HasRank(samples, j, v) && HasRank(samples, k, w)
    ensures v <= w
  {
    if w < v {
      AtMostIsMonotone(samples, w, v - 1);
    }
  }

  lemma {:induction false} SomeUpTo(samples: seq<int>, i: nat, v: int)
    requires i < |samples|
    ensures samples[i] <= v ==> AtMost(samples, v) > 0
    ensures v < samples[i] ==> AtMost(samples, v) < |samples|
  {
    var before := samples[..|samples| - 1];
    AtMostIsMonotone(before, v, v);
    if i < |before| {
      SomeUpTo(before, i, v);
    }
  }

  /** The least sample is the one of rank 0. */
  lemma LeastIsRankZero(samples: seq<int>, v: int)
    requires samples != []
    ensures HasRank(samples, 0, v) <==> v in samples && forall i :: 0 <= i < |samples| ==> v <= samples[i]
  {
    if HasRank(samples, 0, v) {
      RankIsMember(samples, 0, v);
      forall i | 0 <= i < |samples| ensures v <= samples[i] {
        SomeUpTo(samples, i, v - 1);
      }
    }
    if v in samples && forall i :: 0 <= i < |samples| ==> v <= samples[i] {
      var i :| 0 <= i < |samples| && samples[i] == v;
      NoneUpTo(samples, v - 1);
      SomeUpTo(samples, i, v);
    }
  }

  /** The greatest of n samples is the one of rank n - 1. */
  lemma GreatestIsLastRank(samples: seq<int>, v: int)
    requires samples != []
    ensures HasRank(samples, |samples| - 1, v) <==> v in samples && forall i :: 0 <= i < |samples| ==> samples[i] <= v
  {
    if HasRank(samples, |samples| - 1, v) {
      RankIsMember(samples, |samples| - 1, v);
      forall i | 0 <= i < |samples| ensures samples[i] <= v {
        SomeUpTo(samples, i, v);
      }
    }
    if v in samples && forall i :: 0 <= i < |samples| ==> samples[i] <= v {
      var i :| 0 <= i < |samples| && samples[i] == v;
      AllUpTo(samples, v);
      SomeUpTo(samples, i, v - 1);
    }
  }

  predicate Sorted(xs: seq<int>) {
    forall i, j :: 0 <= i < j < |xs| ==> xs[i] <= xs[j]
  }

  /** The element at index k of a sorted sequence has rank k. */
  lemma SortedHasRanks(sorted: seq<int>, k: nat)
    requires Sorted(sorted) && k < |sorted|
    ensures HasRank(sorted, k, sorted[k])
  {
    SplitCount(sorted, k + 1, sorted[k]);
    AllUpTo(sorted[..k + 1], sorted[k]);
    SplitCount(sorted, k, sorted[k] - 1);
    NoneUpTo(sorted[k..], sorted[k] - 1);
  }

  lemma SplitCount(samples: seq<int>, k: nat, v: int)
    requires k <= |samples|
    ensures AtMost(samples[..k], v) <= AtMost(samples, v) <= k + AtMost(samples[k..], v)
  {
    assert samples == samples[..k] + samples[k..];
    TotalConcat(samples[..k], samples[k..], UpTo(v));
    AtMostIsMonotone(samples[..k], v, v);
    AtMostIsMonotone(samples[k..], v, v);
  }

  lemma WithoutOne(before: seq<int>, left: seq<int>, x: int, right: seq<int>)
    requires multiset(before + [x]) == multiset(left + [x] + right)
    ensures multiset(before) == multiset(left + right)
  {
    assert multiset(before + [x]) == multiset(before) + multiset{x};
    assert multiset(left + [x] + right) == multiset(left + right) + multiset{x};
    assert multiset(before) == multiset(before + [x]) - multiset{x};
  }

  lemma TotalWithout(left: seq<int>, x: int, right: seq<int>, f: int -> int)
    ensures Total(left + [x] + right, f) == Total(left + right, f) + f(x)
  {
    TotalConcat(left + [x], right, f);
    TotalConcat(left, right, f);
    assert (left + [x])[..|left|] == left;
  }

  /** Totals do not depend on the order of the samples. */
  lemma {:induction false} TotalOfPermutation(xs: seq<int>, ys: seq<int>, f: int -> int)
    requires multiset(xs) == multiset(ys)
    ensures Total(xs, f) == Total(ys, f)
    decreases |xs|
  {
    if xs == [] {
      assert |multiset(ys)| == |ys|;
    } else {
      var before, x := xs[..|xs| - 1], xs[|xs| - 1];
      assert x in multiset(ys);
      var i :| 0 <= i < |ys| && ys[i] == x;
      var left, right := ys[..i], ys[i + 1..];
      assert xs == before + [x] && ys == left + [x] + right;
      WithoutOne(before, left, x, right);
      TotalOfPermutation(before, left + right, f);
      TotalWithout(left, x, right, f);
    }
  }

  lemma RankOfPermutation(xs: seq<int>, ys: seq<int>, k: int, v: int)
    requires multiset(xs) == multiset(ys) && HasRank(xs, k, v)
    ensures HasRank(ys, k, v)
  {
    TotalOfPermutation(xs, ys, UpTo(v));
    TotalOfPermutation(xs, ys, UpTo(v - 1));
  }

  /** How many samples are at least v. */
  function From(v: int): int -> int { x => if v <= x then 1 else 0 }

  function AtLeast(samples: seq<int>, v: int): int { Total(samples, From(v)) }

  lemma {:induction false} BelowOrFrom(samples: seq<int>, v: int)
    ensures AtMost(samples, v - 1) + AtLeast(samples, v) == |samples|
  {
    if samples != [] {
      BelowOrFrom(samples[..|samples| - 1], v);
    }
  }

  /** The value of rank k: at least k + 1 samples are not above it, and at least n - k not below it. */
  lemma RankCounts(samples: seq<int>, k: int, v: int)
    ensures HasRank(samples, k, v) <==> AtMost(samples, v) >= k + 1 && AtLeast(samples, v) >= |samples| - k
  {
    BelowOrFrom(samples, v);
  }

  /** One entry for each of the reported percentiles. */
  datatype Quantiles = Quantiles(p50: int, p90: int, p95: int, p99: int, p999: int)

  predicate Rising(q: Quantiles) { q.p50 <= q.p90 <= q.p95 <= q.p99 <= q.p999 }

  /**
   The index at which each percentile of n samples is read. In the programs it is a product of
   doubles, cut to an integer; only its order and its range matter here.
   */
  type Cuts = nat -> Quantiles

  ghost predicate CutsFit(cuts: Cuts) {
    forall n: nat :: n > 0 ==> 0 <= cuts(n).p50 && Rising(cuts(n)) && cuts(n).p999 < n
  }

  function Cut(n: nat, permille: nat): nat { n * permille / 1000 }

  /** The indices without rounding errors. */
  function ExactCuts(n: nat): Quantiles {
    Quantiles(Cut(n, 500), Cut(n, 900), Cut(n, 950), Cut(n, 990), Cut(n, 999))
  }

  lemma ExactCutsFit()
    ensures CutsFit(ExactCuts)
  {
  }

  /** At an exact cut more than q of the samples are not above the value, and at least 1 - q not below it. */
  lemma ExactCutIsQuantile(samples: seq<int>, permille: nat, v: int)
    requires permille <= 1000 && HasRank(samples, Cut(|samples|, permille), v)
    ensures IsQuantile(samples, permille, v)
  {
    RankCounts(samples, Cut(|samples|, permille), v);
  }

  /** v is above or at more than permille/1000 of the samples, and below or at at least the others. */
  predicate IsQuantile(samples: seq<int>, permille: nat, v: int) {
    && 1000 * AtMost(samples, v) > permille * |samples|
    && 1000 * AtLeast(samples, v) >= (1000 - permille) * |samples|
  }

  /** At the exact indices, the report has the five percentiles under their names. */
  lemma ExactReport(r: Report, samples: seq<int>)
    requires IsReport(r, samples, ExactCuts)
    ensures IsQuantile(samples, 500, r.at.p50) && IsQuantile(samples, 900, r.at.p90)
    ensures IsQuantile(samples, 950, r.at.p95) && IsQuantile(samples, 990, r.at.p99) && IsQuantile(samples, 999, r.at.p999)
  {
    ExactCutIsQuantile(samples, 500, r.at.p50);
    ExactCutIsQuantile(samples, 900, r.at.p90);
    ExactCutIsQuantile(samples, 950, r.at.p95);
    ExactCutIsQuantile(samples, 990, r.at.p99);
    ExactCutIsQuantile(samples, 999, r.at.p999);
  }

  /** The numbers of a report; times are in nanoseconds. */
  datatype Report = Report(count: nat, min: int, max: int, average: real, at: Quantiles)

  predicate HasRanks(samples: seq<int>, cuts: Quantiles, at: Quantiles) {
    && HasRank(samples, cuts.p50, at.p50)
    && HasRank(samples, cuts.p90, at.p90)
    && HasRank(samples, cuts.p95, at.p95)
    && HasRank(samples, cuts.p99, at.p99)
    && HasRank(samples, cuts.p999, at.p999)
  }

  ghost predicate IsReport(r: Report, samples: seq<int>, cuts: Cuts) {
    && r.count == |samples| > 0
    && HasRank(samples, 0, r.min)
    && HasRank(samples, |samples| - 1, r.max)
    && r.average == Wrap(Sum(samples)) as real / |samples| as real
    && HasRanks(samples, cuts(|samples|), r.at)
  }

  /** Samples have at most one report, so two programs that each give one give the same. */
  lemma ReportIsUnique(r: Report, s: Report, samples: seq<int>, cuts: Cuts)
    requires IsReport(r, samples, cuts) && IsReport(s, samples, cuts)
    ensures r == s
  {
    SameRank(samples, 0, r.min, s.min);
    SameRank(samples, |samples| - 1, r.max, s.max);
    var at := cuts(|samples|);
    SameRank(samples, at.p50, r.at.p50, s.at.p50);
    SameRank(samples, at.p90, r.at.p90, s.at.p90);
    SameRank(samples, at.p95, r.at.p95, s.at.p95);
    SameRank(samples, at.p99, r.at.p99, s.at.p99);
    SameRank(samples, at.p999, r.at.p999, s.at.p999);
  }

  lemma SameRank(samples: seq<int>, k: int, v: int, w: int)
    requires HasRank(samples, k, v) && HasRank(samples, k, w)
    ensures v == w
  {
    RanksAreOrdered(samples, k, v, k, w);
    RanksAreOrdered(samples, k, w, k, v);
  }

  /** The order in which the latencies were measured does not matter. */
  lemma ReportOfPermutation(r: Report, xs: seq<int>, ys: seq<int>, cuts: Cuts)
    requires multiset(xs) == multiset(ys) && IsReport(r, xs, cuts)
    ensures IsReport(r, ys, cuts)
  {
    assert |multiset(xs)| == |xs| && |multiset(ys)| == |ys|;
    TotalOfPermutation(xs, ys, Itself);
    RankOfPermutation(xs, ys, 0, r.min);
    RankOfPermutation(xs, ys, |xs| - 1, r.max);
    RanksOfPermutation(xs, ys, cuts(|xs|), r.at);
  }

  lemma RanksOfPermutation(xs: seq<int>, ys: seq<int>, cuts: Quantiles, at: Quantiles)
    requires multiset(xs) == multiset(ys) && HasRanks(xs, cuts, at)
    ensures HasRanks(ys, cuts, at)
  {
    RankOfPermutation(xs, ys, cuts.p50, at.p50);
    RankOfPermutation(xs, ys, cuts.p90, at.p90);
    RankOfPermutation(xs, ys, cuts.p95, at.p95);
    RankOfPermutation(xs, ys, cuts.p99, at.p99);
    RankOfPermutation(xs, ys, cuts.p999, at.p999);
  }

  /** Percentiles are in order between the minimum and the maximum, and all of them were measured. */
  lemma ReportIsOrdered(r: Report, samples: seq<int>, cuts: Cuts)
    requires CutsFit(cuts) && IsReport(r, samples, cuts)
    ensures r.min <= r.at.p50 && Rising(r.at) && r.at.p999 <= r.max
    ensures {r.min, r.max, r.at.p50, r.at.p90, r.at.p95, r.at.p99, r.at.p999} <= set x | x in samples
    ensures forall i :: 0 <= i < |samples| ==> r.min <= samples[i] <= r.max
  {
    var at := cuts(|samples|);
    RanksAreOrdered(samples, 0, r.min, at.p50, r.at.p50);
    RanksAreOrdered(samples, at.p50, r.at.p50, at.p90, r.at.p90);
    RanksAreOrdered(samples, at.p90, r.at.p90, at.p95, r.at.p95);
    RanksAreOrdered(samples, at.p95, r.at.p95, at.p99, r.at.p99);
    RanksAreOrdered(samples, at.p99, r.at.p99, at.p999, r.at.p999);
    RanksAreOrdered(samples, at.p999, r.at.p999, |samples| - 1, r.max);
    RanksAreMembers(samples, at, r.at);
    RankIsMember(samples, 0, r.min);
    RankIsMember(samples, |samples| - 1, r.max);
    LeastIsRankZero(samples, r.min);
    GreatestIsLastRank(samples, r.max);
  }

  lemma RanksAreMembers(samples: seq<int>, cuts: Quantiles, at: Quantiles)
    requires HasRanks(samples, cuts, at)
    ensures at.p50 in samples && at.p90 in samples && at.p95 in samples && at.p99 in samples && at.p999 in samples
  {
    RankIsMember(samples, cuts.p50, at.p50);
    RankIsMember(samples, cuts.p90, at.p90);
    RankIsMember(samples, cuts.p95, at.p95);
    RankIsMember(samples, cuts.p99, at.p99);
    RankIsMember(samples, cuts.p999, at.p999);
  }

  /** If the sum does not overflow, the average lies between the minimum and the maximum. */
  lemma AverageIsBetween(r: Report, samples: seq<Word>, cuts: Cuts)
    requires IsReport(r, samples, cuts) && Sum(samples) < WORD
    ensures r.min as real <= r.average <= r.max as real
  {
    MeanIsBetween(samples, r.min, r.max);
  }

  lemma MeanIsBetween(samples: seq<Word>, least: int, greatest: int)
    requires samples != [] && HasRank(samples, 0, least) && HasRank(samples, |samples| - 1, greatest)
    requires Sum(samples) < WORD
    ensures least as real <= Wrap(Sum(samples)) as real / |samples| as real <= greatest as real
  {
    SumWithin(samples, least, greatest);
    QuotientBetween(Sum(samples), |samples|, least, greatest);
  }

  lemma SumWithin(samples: seq<Word>, least: int, greatest: int)
    requires samples != [] && HasRank(samples, 0, least) && HasRank(samples, |samples| - 1, greatest)
    ensures 0 <= Sum(samples) && |samples| * least <= Sum(samples) <= |samples| * greatest
  {
    LeastIsRankZero(samples, least);
    GreatestIsLastRank(samples, greatest);
    SumBounds(samples, 0, MAX_WORD);
    SumBounds(samples, least, greatest);
  }

  lemma QuotientBetween(sum: int, n: nat, lo: int, hi: int)
    requires n > 0 && n * lo <= sum <= n * hi
    ensures lo as real <= sum as real / n as real <= hi as real
  {
    var q := sum as real / n as real;
    assert q * n as real == sum as real;
    assert (n * lo) as real == lo as real * n as real;
    assert (n * hi) as real == hi as real * n as real;
  }

  // ---- The programs ----

  /** A sorted copy. */
  method Sort(samples: seq<Word>) returns (sorted: seq<Word>)
    ensures Sorted(sorted) && multiset(sorted) == multiset(samples)
  {
    sorted := [];
    for i := 0 to |samples|
      invariant Sorted(sorted) && multiset(sorted) == multiset(samples[..i])
    {
      sorted := Insert(sorted, samples[i]);
      assert samples[..i + 1] == samples[..i] + [samples[i]];
    }
    assert samples[..|samples|] == samples;
  }

  method Insert(sorted: seq<Word>, x: Word) returns (r: seq<Word>)
    requires Sorted(sorted)
    ensures Sorted(r) && multiset(r) == multiset(sorted) + multiset{x}
  {
    var k := 0;
    while k < |sorted| && sorted[k] <= x
      invariant k <= |sorted| && forall j :: 0 <= j < k ==> sorted[j] <= x
    {
      k := k + 1;
    }
    r := sorted[..k] + [x] + sorted[k..];
    assert sorted == sorted[..k] + sorted[k..];
    assert multiset(r) == multiset(sorted[..k]) + multiset{x} + multiset(sorted[k..]);
    InsertedIsSorted(sorted, k, x);
  }

  lemma InsertedIsSorted(sorted: seq<Word>, k: nat, x: Word)
    requires Sorted(sorted) && k <= |sorted|
    requires forall j :: 0 <= j < k ==> sorted[j] <= x
    requires k < |sorted| ==> x < sorted[k]
    ensures Sorted(sorted[..k] + [x] + sorted[k..])
  {
    assert forall j :: k <= j < |sorted| ==> x < sorted[j];
  }

  method Accumulate(samples: seq<Word>) returns (total: Word)
    ensures total == Wrap(Sum(samples))
  {
    total := 0;
    for i := 0 to |samples|
      invariant total == Wrap(Sum(samples[..i]))
    {
      WrapAdd(Sum(samples[..i]), samples[i]);
      total := Wrap(total + samples[i]);
      assert samples[..i + 1][..i] == samples[..i];
    }
    assert samples[..|samples|] == samples;
  }

  method MinElement(samples: seq<Word>) returns (least: Word)
    requires samples != []
    ensures HasRank(samples, 0, least)
  {
    least := samples[0];
    for i := 1 to |samples|
      invariant least in samples && forall j :: 0 <= j < i ==> least <= samples[j]
    {
      if samples[i] < least {
        least := samples[i];
      }
    }
    LeastIsRankZero(samples, least);
  }

  method MaxElement(samples: seq<Word>) returns (greatest: Word)
    requires samples != []
    ensures HasRank(samples, |samples| - 1, greatest)
  {
    greatest := samples[0];
    for i := 1 to |samples|
      invariant greatest in samples && forall j :: 0 <= j < i ==> samples[j] <= greatest
    {
      if greatest < samples[i] {
        greatest := samples[i];
      }
    }
    GreatestIsLastRank(samples, greatest);
  }

  /** The percentiles, read from the sorted samples. */
  method ReadPercentiles(samples: seq<Word>, sorted: seq<Word>, cuts: Cuts) returns (at: Quantiles)
    requires CutsFit(cuts) && samples != [] && Sorted(sorted) && multiset(sorted) == multiset(samples)
    ensures HasRanks(samples, cuts(|samples|), at)
  {
    assert |multiset(sorted)| == |sorted| && |multiset(samples)| == |samples|;
    var c := cuts(|sorted|);
    at := Quantiles(sorted[c.p50], sorted[c.p90], sorted[c.p95], sorted[c.p99], sorted[c.p999]);
    SortedHasRanks(sorted, c.p50);
    SortedHasRanks(sorted, c.p90);
    SortedHasRanks(sorted, c.p95);
    SortedHasRanks(sorted, c.p99);
    SortedHasRanks(sorted, c.p999);
    RanksOfPermutation(sorted, samples, c, at);
  }

  /** The report of the simple test: extremes from the ends of the sorted samples. */
  method SimpleStatistics(latencies: seq<Word>, cuts: Cuts) returns (r: Option<Report>)
    requires CutsFit(cuts)
    ensures if latencies == [] then r.None? else r.Some? && IsReport(r.value, latencies, cuts)
  {
    if latencies == [] {
      return None;
    }
    var sorted := Sort(latencies);
    assert |multiset(sorted)| == |sorted| && |multiset(latencies)| == |latencies|;
    var least, greatest := sorted[0], sorted[|sorted| - 1];
    SortedHasRanks(sorted, 0);
    SortedHasRanks(sorted, |sorted| - 1);
    RankOfPermutation(sorted, latencies, 0, least);
    RankOfPermutation(sorted, latencies, |latencies| - 1, greatest);
    var total := Accumulate(latencies);
    var at := ReadPercentiles(latencies, sorted, cuts);
    r := Some(Report(|latencies|, least, greatest, total as real / |latencies| as real, at));
  }

  /** The report of the 100k test: extremes from two passes over the samples. */
  method Statistics100K(latencies: seq<Word>, cuts: Cuts) returns (r: Option<Report>)
    requires CutsFit(cuts)
    ensures if latencies == [] then r.None? else r.Some? && IsReport(r.value, latencies, cuts)
  {
    if latencies == [] {
      return None;
    }
    var sorted := Sort(latencies);
    var least := MinElement(latencies);
    var greatest := MaxElement(latencies);
    var total := Accumulate(latencies);
    var at := ReadPercentiles(latencies, sorted, cuts);
    r := Some(Report(|latencies|, least, greatest, total as real / |latencies| as real, at));
  }

  /** Both programs report the same numbers, whatever the order in which each has the latencies. */
  method BothReportTheSame(xs: seq<Word>, ys: seq<Word>, cuts: Cuts) returns (r: Option<Report>, s: Option<Report>)
    requires CutsFit(cuts) && multiset(xs) == multiset(ys)
    ensures r == s && (r.None? <==> xs == [])
  {
    r := SimpleStatistics(xs, cuts);
    s := Statistics100K(ys, cuts);
    assert |multiset(xs)| == |xs| && |multiset(ys)| == |ys|;
    if xs != [] {
      ReportOfPermutation(s.value, ys, xs, cuts);
      ReportIsUnique(r.value, s.value, xs, cuts);
    }
  }

  /** One message of the simple test, with the clock readings it takes. */
  datatype Exchange = SendFailed(sentAt: Word) | ReceiveFailed(sentAt: Word) | Answered(sentAt: Word, receivedAt: Word)

  function RoundTrips(exchanges: seq<Exchange>): seq<Word> {
    if exchanges == [] then []
    else
      var last := exchanges[|exchanges| - 1];
      RoundTrips(exchanges[..|exchanges| - 1])
      + if last.Answered? then [Wrap(last.receivedAt - last.sentAt)] else []
  }

  /** The clock does not go back: readings between a start and an end are taken in order. */
  predicate InOrder(exchanges: seq<Exchange>, start: int, end: int) {
    if exchanges == [] then start <= end
    else
      var last := exchanges[|exchanges| - 1];
      && InOrder(exchanges[..|exchanges| - 1], start, last.sentAt)
      && (if last.Answered? then last.sentAt <= last.receivedAt <= end else last.sentAt <= end)
  }

  /** How many messages were answered. */
  function IsAnswered(e: Exchange): int { if e.Answered? then 1 else 0 }

  /** Each answered message has its round trip in the list, in order, and no other is there. */
  lemma {:induction false} RoundTripAt(exchanges: seq<Exchange>, i: nat, start: int, end: int)
    requires i < |exchanges| && exchanges[i].Answered? && InOrder(exchanges, start, end)
    ensures |RoundTrips(exchanges)| == Total(exchanges, IsAnswered)
    ensures 0 <= Total(exchanges[..i], IsAnswered) < |RoundTrips(exchanges)|
    ensures RoundTrips(exchanges)[Total(exchanges[..i], IsAnswered)] == exchanges[i].receivedAt - exchanges[i].sentAt
    decreases |exchanges|
  {
    var last := |exchanges| - 1;
    RoundTripCount(exchanges[..last]);
    if i < last {
      RoundTripAt(exchanges[..last], i, start, exchanges[last].sentAt);
      assert exchanges[..last][..i] == exchanges[..i];
    }
  }

  lemma {:induction false} RoundTripCount(exchanges: seq<Exchange>)
    ensures |RoundTrips(exchanges)| == Total(exchanges, IsAnswered)
  {
    if exchanges != [] {
      RoundTripCount(exchanges[..|exchanges| - 1]);
    }
  }

  /** Round trips of the simple test do not overlap, so together they take no longer than the run. */
  lemma {:induction false} RoundTripsFitInRun(exchanges: seq<Exchange>, start: Word, end: Word)
    requires InOrder(exchanges, start, end)
    ensures Sum(RoundTrips(exchanges)) <= end - start
  {
    if exchanges != [] {
      var before, last := exchanges[..|exchanges| - 1], exchanges[|exchanges| - 1];
      RoundTripsFitInRun(before, start, last.sentAt);
      if last.Answered? {
        assert RoundTrips(exchanges)[..|RoundTrips(before)|] == RoundTrips(before);
      } else {
        assert RoundTrips(exchanges) == RoundTrips(before);
      }
    }
  }

  /** So its sum cannot overflow, and the average it reports is right, whatever was measured. */
  lemma SimpleReportIsHonest(exchanges: seq<Exchange>, start: Word, end: Word, r: Report, cuts: Cuts)
    requires InOrder(exchanges, start, end) && IsReport(r, RoundTrips(exchanges), cuts)
    ensures r.min as real <= r.average <= r.max as real
    ensures r.average == Sum(RoundTrips(exchanges)) as real / r.count as real
  {
    SumFits(exchanges, start, end);
    AverageIsBetween(r, RoundTrips(exchanges), cuts);
  }

  lemma SumFits(exchanges: seq<Exchange>, start: Word, end: Word)
    requires InOrder(exchanges, start, end)
    ensures 0 <= Sum(RoundTrips(exchanges)) < WORD
    ensures Wrap(Sum(RoundTrips(exchanges))) == Sum(RoundTrips(exchanges))
  {
    RoundTripsFitInRun(exchanges, start, end);
    SumBounds(RoundTrips(exchanges), 0, MAX_WORD);
  }

  method RunTest(exchanges: seq<Exchange>, cuts: Cuts) returns (r: Option<Report>)
    requires CutsFit(cuts)
    ensures var latencies := RoundTrips(exchanges);
      if latencies == [] then r.None? else r.Some? && IsReport(r.value, latencies, cuts)
  {
    var latencies: seq<Word> := [];
    for i := 0 to |exchanges|
      invariant latencies == RoundTrips(exchanges[..i])
    {
      assert exchanges[..i + 1][..i] == exchanges[..i];
      var e := exchanges[i];
      if e.SendFailed? || e.ReceiveFailed? {
        continue;
      }
      latencies := latencies + [Wrap(e.receivedAt - e.sentAt)];
    }
    assert exchanges[..|exchanges|] == exchanges;
    r := SimpleStatistics(latencies, cuts);
  }
}
