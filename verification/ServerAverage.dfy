/** The server's running average of processing times, over the reals. */
module ServerAverage {

  const ALPHA: real := 0.01
  const KEEP: real := 1.0 - ALPHA

  /** The target that the main loop compares the average with, in microseconds. */
  const TARGET: real := 20.0

  /** The average after one more sample. */
  function Update(average: real, sample: real): real {
    ALPHA * sample + (1.0 - ALPHA) * average
  }

  /** The average after these samples, in the order in which the lock admits them. */
  function Average(start: real, samples: seq<real>): real {
    if samples == [] then start
    else Update(Average(start, samples[..|samples| - 1]), samples[|samples| - 1])
  }

  /** 0.99 to the n. */
  function Decay(n: nat): real {
    if n == 0 then 1.0 else KEEP * Decay(n - 1)
  }

  /** The weights in figures: the last sample counts 0.01, and each earlier one 0.99 of the next. */
  lemma WeightsAreGeometric(n: nat, i: nat)
    requires i < n
    ensures Weight(n, n - 1) == 0.01
    ensures i + 1 < n ==> Weight(n, i) == 0.99 * Weight(n, i + 1)
    ensures Decay(n) == 0.99 * Decay(n - 1) && Decay(0) == 1.0
  {
    if i + 1 < n {
      assert Decay(n - 1 - i) == 0.99 * Decay(n - 2 - i);
    }
  }

  lemma {:induction false} DecayRange(n: nat)
    ensures 0.0 < Decay(n) <= 1.0
  {
    if n > 0 {
      DecayRange(n - 1);
    }
  }

  /** The weight of sample i of n. */
  function Weight(n: nat, i: nat): real
    requires i < n
  {
    ALPHA * Decay(n - 1 - i)
  }

  /** The weighted sum of the first k of the samples. */
  function Weighted(samples: seq<real>, k: nat): real
    requires k <= |samples|
  {
    if k == 0 then 0.0 else Weighted(samples, k - 1) + Weight(|samples|, k - 1) * samples[k - 1]
  }

  /** One more sample after the first k makes every weight 0.99 times smaller. */
  lemma {:induction false} WeightedShrinks(samples: seq<real>, last: real, k: nat)
    requires k <= |samples|
    ensures Weighted(samples + [last], k) == KEEP * Weighted(samples, k)
  {
    if k > 0 {
      WeightedShrinks(samples, last, k - 1);
      var n := |samples|;
      var x := samples[k - 1];
      assert Weight(n + 1, k - 1) == KEEP * Weight(n, k - 1);
      assert Weight(n + 1, k - 1) * x == KEEP * (Weight(n, k - 1) * x);
    }
  }

  /** The closed form: each sample counts 0.01 * 0.99^(n-1-i), and the start counts 0.99^n. */
  lemma {:induction false} ClosedForm(start: real, samples: seq<real>)
    ensures Average(start, samples) == Decay(|samples|) * start + Weighted(samples, |samples|)
  {
    if samples != [] {
      var n := |samples|;
      var before, x := samples[..n - 1], samples[n - 1];
      ClosedForm(start, before);
      assert samples == before + [x];
      WeightedShrinks(before, x, n - 1);
      assert Weight(n, n - 1) == ALPHA;
      assert KEEP * (Decay(n - 1) * start) == Decay(n) * start;
    }
  }

  lemma Blend(d: real, bound: real)
    ensures KEEP * ((1.0 - d) * bound) + ALPHA * bound == (1.0 - KEEP * d) * bound
  {
  }

  /** From a start of zero the average lies between (1 - 0.99^n) times the extremes of the samples. */
  lemma {:induction false} AverageBounds(samples: seq<real>, lo: real, hi: real)
    requires forall i :: 0 <= i < |samples| ==> lo <= samples[i] <= hi
    ensures (1.0 - Decay(|samples|)) * lo <= Average(0.0, samples) <= (1.0 - Decay(|samples|)) * hi
  {
    if samples != [] {
      var n := |samples|;
      AverageBounds(samples[..n - 1], lo, hi);
      Blend(Decay(n - 1), lo);
      Blend(Decay(n - 1), hi);
    }
  }

  /** If every sample is below the target, so is the average. */
  lemma {:induction false} StaysBelowTarget(start: real, samples: seq<real>)
    requires start < TARGET && forall i :: 0 <= i < |samples| ==> samples[i] < TARGET
    ensures Average(start, samples) < TARGET == 20.0
  {
    if samples != [] {
      StaysBelowTarget(start, samples[..|samples| - 1]);
    }
  }

  /** What the start contributes fades exactly like 0.99^n. */
  lemma {:induction false} StartFades(a: real, b: real, samples: seq<real>)
    ensures Average(a, samples) - Average(b, samples) == Decay(|samples|) * (a - b)
  {
    ClosedForm(a, samples);
    ClosedForm(b, samples);
    assert Decay(|samples|) * (a - b) == Decay(|samples|) * a - Decay(|samples|) * b;
  }

  /** Changing sample i alone moves the average by exactly its weight times the change. */
  lemma {:induction false} OneSampleMoves(start: real, samples: seq<real>, i: nat, x: real)
    requires i < |samples|
    ensures Average(start, samples[i := x]) - Average(start, samples) == Weight(|samples|, i) * (x - samples[i])
  {
    var last := |samples| - 1;
    var changed := samples[i := x];
    if i < last {
      OneSampleMoves(start, samples[..last], i, x);
      assert changed[..last] == samples[..last][i := x] && changed[last] == samples[last];
      var w, d := Weight(last, i), x - samples[i];
      assert KEEP * (w * d) == (KEEP * w) * d;
    } else {
      assert changed[..last] == samples[..last];
    }
  }

  /** Which overload of process_client_message handles a message. */
  datatype Overload = Base | Order | MarketData

  datatype Processed = Processed(overload: Overload, nanoseconds: int)

  function Microseconds(work: seq<Processed>): (samples: seq<real>)
    ensures |samples| == |work|
    ensures forall i :: 0 <= i < |work| ==> samples[i] == work[i].nanoseconds as real / 1000.0
  {
    seq(|work|, i requires 0 <= i < |work| => work[i].nanoseconds as real / 1000.0)
  }

  class ServerStats {
    var totalMessagesProcessed: nat
    var avgLatencyUs: real

    constructor ()
      ensures totalMessagesProcessed == 0 && avgLatencyUs == 0.0
    {
      totalMessagesProcessed, avgLatencyUs := 0, 0.0;
    }

    /** The critical section at the end of the overload for a plain message. */
    method ProcessMessage(latencyNs: int)
      modifies this
      ensures totalMessagesProcessed == old(totalMessagesProcessed) + 1
      ensures avgLatencyUs == Update(old(avgLatencyUs), latencyNs as real / 1000.0)
                           == 0.01 * (latencyNs as real / 1000.0) + 0.99 * old(avgLatencyUs)
    {
      totalMessagesProcessed := totalMessagesProcessed + 1;
      var currentLatencyUs := latencyNs as real / 1000.0;
      avgLatencyUs := ALPHA * currentLatencyUs + (1.0 - ALPHA) * avgLatencyUs;
    }

    /** The same for an order. */
    method ProcessOrder(latencyNs: int)
      modifies this
      ensures totalMessagesProcessed == old(totalMessagesProcessed) + 1
      ensures avgLatencyUs == Update(old(avgLatencyUs), latencyNs as real / 1000.0)
                           == 0.01 * (latencyNs as real / 1000.0) + 0.99 * old(avgLatencyUs)
    {
      totalMessagesProcessed := totalMessagesProcessed + 1;
      var currentLatencyUs := latencyNs as real / 1000.0;
      avgLatencyUs := ALPHA * currentLatencyUs + (1.0 - ALPHA) * avgLatencyUs;
    }

    /** The same for market data. */
    method ProcessMarketData(latencyNs: int)
      modifies this
      ensures totalMessagesProcessed == old(totalMessagesProcessed) + 1
      ensures avgLatencyUs == Update(old(avgLatencyUs), latencyNs as real / 1000.0)
                           == 0.01 * (latencyNs as real / 1000.0) + 0.99 * old(avgLatencyUs)
    {
      totalMessagesProcessed := totalMessagesProcessed + 1;
      var currentLatencyUs := latencyNs as real / 1000.0;
      avgLatencyUs := ALPHA * currentLatencyUs + (1.0 - ALPHA) * avgLatencyUs;
    }

    /** Whichever overloads the workers run, in the order of the lock, the average is that of the samples. */
    method ProcessAll(work: seq<Processed>)
      modifies this
      ensures totalMessagesProcessed == old(totalMessagesProcessed) + |work|
      ensures avgLatencyUs == Average(old(avgLatencyUs), Microseconds(work))
    {
      var samples := Microseconds(work);
      for i := 0 to |work|
        invariant totalMessagesProcessed == old(totalMessagesProcessed) + i
        invariant avgLatencyUs == Average(old(avgLatencyUs), samples[..i])
      {
        match work[i].overload {
          case Base => ProcessMessage(work[i].nanoseconds);
          case Order => ProcessOrder(work[i].nanoseconds);
          case MarketData => ProcessMarketData(work[i].nanoseconds);
        }
        assert samples[..i + 1][..i] == samples[..i];
      }
      assert samples[..|work|] == samples;
    }
  }
}
