/**
 The latency window and the running average of the two TCP clients, each run by one thread.
 The simple client counts a message before it takes the average, the full client after it.
 */
module RunningAverage {
  import opened Words
  import opened StatsMutexes

  /** A received message: its time stamp, zero if it has none, and when it was received. */
  datatype Received = Received(timestamp: Word, at: Word)

  function Latency(m: Received): Word { Wrap(m.at - m.timestamp) }

  /** The latencies of the messages that carry a time stamp. */
  function Latencies(messages: seq<Received>): seq<Word> {
    if messages == [] then []
    else
      var m := messages[|messages| - 1];
      Latencies(messages[..|messages| - 1]) + if m.timestamp > 0 then [Latency(m)] else []
  }

  /** The fields of both clients that a message can change; the average is in microseconds. */
  datatype ClientStats = ClientStats(window: seq<Word>, latency: Aggregates, received: nat, average: real)

  const EMPTY: ClientStats := ClientStats([], CLEARED, 0, 0.0)

  /** A total in nanoseconds, as microseconds for each of n messages. */
  function Mean(total: Word, n: nat): real
    requires n > 0
  {
    (total as real / 1000.0) / n as real
  }

  /** The average over the messages counted so far, if there are any; otherwise it stays. */
  function Averaged(s: ClientStats): ClientStats {
    if s.received > 0 then s.(average := Mean(s.latency.total, s.received)) else s
  }

  function Measured(s: ClientStats, latency: Word): ClientStats {
    Averaged(s.(window := Push(s.window, latency), latency := Fold(s.latency, latency)))
  }

  function Counted(s: ClientStats): ClientStats { s.(received := s.received + 1) }

  /** One message in the simple client, and in the full client. */
  function Simple(s: ClientStats, m: Received): ClientStats {
    if m.timestamp > 0 then Measured(Counted(s), Latency(m)) else Counted(s)
  }

  function Full(s: ClientStats, m: Received): ClientStats {
    Counted(if m.timestamp > 0 then Measured(s, Latency(m)) else s)
  }

  /** These messages, received in a client that is in state s. */
  function SimpleFrom(s: ClientStats, messages: seq<Received>): ClientStats {
    if messages == [] then s else Simple(SimpleFrom(s, messages[..|messages| - 1]), messages[|messages| - 1])
  }

  function FullFrom(s: ClientStats, messages: seq<Received>): ClientStats {
    if messages == [] then s else Full(FullFrom(s, messages[..|messages| - 1]), messages[|messages| - 1])
  }

  /** These messages, received after a reset. */
  function SimpleRun(messages: seq<Received>): ClientStats { SimpleFrom(EMPTY, messages) }
  function FullRun(messages: seq<Received>): ClientStats { FullFrom(EMPTY, messages) }

  /** How a run is divided into recvs does not matter. */
  lemma RunsContinue(s: ClientStats, before: seq<Received>, messages: seq<Received>)
    ensures SimpleFrom(SimpleFrom(s, before), messages) == SimpleFrom(s, before + messages)
    ensures FullFrom(FullFrom(s, before), messages) == FullFrom(s, before + messages)
  {
    SimpleContinues(s, before, messages);
    FullContinues(s, before, messages);
  }

  lemma {:induction false} SimpleContinues(s: ClientStats, before: seq<Received>, messages: seq<Received>)
    ensures SimpleFrom(SimpleFrom(s, before), messages) == SimpleFrom(s, before + messages)
  {
    if messages == [] {
      assert before + messages == before;
    } else {
      var last := |messages| - 1;
      SimpleContinues(s, before, messages[..last]);
      var all := before + messages;
      assert all[..|all| - 1] == before + messages[..last] && all[|all| - 1] == messages[last];
    }
  }

  lemma {:induction false} FullContinues(s: ClientStats, before: seq<Received>, messages: seq<Received>)
    ensures FullFrom(FullFrom(s, before), messages) == FullFrom(s, before + messages)
  {
    if messages == [] {
      assert before + messages == before;
    } else {
      var last := |messages| - 1;
      FullContinues(s, before, messages[..last]);
      var all := before + messages;
      assert all[..|all| - 1] == before + messages[..last] && all[|all| - 1] == messages[last];
    }
  }

  lemma MeasuringKeepsNewest(s: ClientStats, samples: seq<Word>, latency: Word)
    requires s.window == Newest(samples) && s.latency == FoldAll(samples)
    ensures var t := Measured(s, latency);
      t.window == Newest(samples + [latency]) && t.latency == FoldAll(samples + [latency]) && t.received == s.received
  {
    PushKeepsNewest(samples, latency);
    assert (samples + [latency])[..|samples|] == samples;
  }

  /** What the counted messages say about a client's window and aggregates. */
  predicate Follows(s: ClientStats, messages: seq<Received>) {
    s.window == Newest(Latencies(messages)) && s.latency == FoldAll(Latencies(messages)) && s.received == |messages|
  }

  /**
   Both clients keep the same window, the newest latencies in order, and the same aggregates;
   both count every message.
   */
  lemma {:induction false} WindowIsNewest(messages: seq<Received>)
    ensures Follows(SimpleRun(messages), messages) && Follows(FullRun(messages), messages)
  {
    if messages != [] {
      var before, m := messages[..|messages| - 1], messages[|messages| - 1];
      WindowIsNewest(before);
      if m.timestamp > 0 {
        MeasuringKeepsNewest(Counted(SimpleRun(before)), Latencies(before), Latency(m));
        MeasuringKeepsNewest(FullRun(before), Latencies(before), Latency(m));
      } else {
        assert Latencies(messages) == Latencies(before);
      }
    }
  }

  /** Every element of the window lies between the minimum and the maximum. */
  lemma WindowIsBounded(messages: seq<Received>, i: nat)
    requires i < |SimpleRun(messages).window|
    ensures var s := SimpleRun(messages); s.latency.min <= s.window[i] <= s.latency.max
  {
    WindowIsNewest(messages);
    NewestIsBounded(Latencies(messages), i);
  }

  lemma NewestIsBounded(samples: seq<Word>, i: nat)
    requires i < |Newest(samples)|
    ensures FoldAll(samples).min <= Newest(samples)[i] <= FoldAll(samples).max
  {
    FoldAllIsExact(samples);
    assert Newest(samples)[i] == samples[if |samples| <= WINDOW then i else |samples| - WINDOW + i];
  }

  predicate LastIsStamped(messages: seq<Received>) {
    messages != [] && messages[|messages| - 1].timestamp > 0
  }

  lemma AveragesAreMeans(messages: seq<Received>)
    requires LastIsStamped(messages)
    ensures SimpleRun(messages).average == Mean(SimpleRun(messages).latency.total, |messages|)
    ensures |messages| >= 2 ==> FullRun(messages).average == Mean(FullRun(messages).latency.total, |messages| - 1)
  {
    var before := messages[..|messages| - 1];
    WindowIsNewest(before);
  }

  /** Both totals are the sum of the latencies, modulo 2^64. */
  lemma TotalIsSum(messages: seq<Received>)
    ensures SimpleRun(messages).latency.total == FullRun(messages).latency.total == Wrap(Sum(Latencies(messages)))
  {
    WindowIsNewest(messages);
    FoldAllIsExact(Latencies(messages));
  }

  /** The average, in nanoseconds and taken n times, is exactly the total. */
  predicate AverageIs(average: real, n: nat, total: int) {
    average * 1000.0 * n as real == total as real
  }

  lemma MeanIsExact(total: Word, n: nat)
    requires n > 0
    ensures AverageIs(Mean(total, n), n, total)
  {
    var average, x := Mean(total, n), total as real / 1000.0;
    assert average * n as real == x;
    assert average * 1000.0 * n as real == (average * n as real) * 1000.0;
  }

  /** After a stamped message the simple client's average is the total over all messages so far. */
  lemma SimpleAverageIsExact(messages: seq<Received>)
    requires LastIsStamped(messages)
    ensures var s := SimpleRun(messages); AverageIs(s.average, |messages|, s.latency.total)
  {
    AveragesAreMeans(messages);
    MeanIsExact(SimpleRun(messages).latency.total, |messages|);
  }

  /** The full client divides its total by one message less, from the second message on. */
  lemma FullAverageIsExact(messages: seq<Received>)
    requires LastIsStamped(messages) && |messages| >= 2
    ensures var s := FullRun(messages); AverageIs(s.average, |messages| - 1, s.latency.total)
  {
    AveragesAreMeans(messages);
    MeanIsExact(FullRun(messages).latency.total, |messages| - 1);
  }

  /**
   How the two averages differ: the full client's is k / (k - 1) times the simple client's. So
   it is right only if the total is zero.
   */
  lemma FullAverageIsTooHigh(messages: seq<Received>)
    requires LastIsStamped(messages) && |messages| >= 2
    ensures var k := |messages|;
      FullRun(messages).average * (k - 1) as real == SimpleRun(messages).average * k as real
    ensures FullRun(messages).average == SimpleRun(messages).average <==> SimpleRun(messages).latency.total == 0
  {
    SimpleAverageIsExact(messages);
    FullAverageIsExact(messages);
    TotalIsSum(messages);
    SameTotal(FullRun(messages).average, SimpleRun(messages).average, |messages|, SimpleRun(messages).latency.total);
  }

  lemma SameTotal(a: real, b: real, k: nat, total: int)
    requires k > 0 && AverageIs(a, k - 1, total) && AverageIs(b, k, total)
    ensures a * (k - 1) as real == b * k as real
    ensures k > 1 ==> (a == b <==> total == 0)
  {
    assert 1000.0 * (a * (k - 1) as real) == a * 1000.0 * (k - 1) as real;
    assert 1000.0 * (b * k as real) == b * 1000.0 * k as real;
  }

  lemma RunOne(m: Received)
    ensures SimpleRun([m]) == Simple(EMPTY, m) && FullRun([m]) == Full(EMPTY, m)
  {
    assert [m][..0] == [];
    assert SimpleFrom(EMPTY, []) == FullFrom(EMPTY, []) == EMPTY;
  }

  /** After one stamped message the full client still reports an average of zero. */
  lemma FirstAverageIsMissing(m: Received)
    requires m.timestamp > 0
    ensures FullRun([m]).average == 0.0
    ensures SimpleRun([m]).average == Latency(m) as real / 1000.0
  {
    RunOne(m);
  }

  /** Which messages carry a time stamp. */
  function Pattern(messages: seq<Received>): (p: seq<bool>)
    ensures |p| == |messages| && forall i :: 0 <= i < |p| ==> p[i] == (messages[i].timestamp > 0)
  {
    seq(|messages|, i requires 0 <= i < |messages| => messages[i].timestamp > 0)
  }

  predicate AllStamped(messages: seq<Received>) {
    forall i :: 0 <= i < |messages| ==> messages[i].timestamp > 0
  }

  lemma {:induction false} AllStampedCount(messages: seq<Received>)
    ensures |Latencies(messages)| <= |messages|
    ensures |Latencies(messages)| == |messages| <==> AllStamped(messages)
  {
    if messages != [] {
      AllStampedCount(messages[..|messages| - 1]);
    }
  }

  /** At most n samples add up to at most n times their maximum, and n samples to at least n times their minimum. */
  lemma FoldedWithin(samples: seq<Word>, n: nat)
    requires |samples| <= n && Sum(samples) < WORD
    ensures var folded := FoldAll(samples);
      folded.total <= n * folded.max && (|samples| == n ==> n * folded.min <= folded.total)
  {
    var folded := FoldAll(samples);
    FoldAllIsExact(samples);
    SumBounds(samples, 0, folded.max);
    SumBounds(samples, folded.min, folded.max);
    MulMono(folded.max, |samples|, n);
  }

  predicate NoOverflow(messages: seq<Received>) { Sum(Latencies(messages)) < WORD }

  /** The average in nanoseconds compared with the extremes. */
  predicate AtMostMax(s: ClientStats) { s.average * 1000.0 <= s.latency.max as real }
  predicate AtLeastMin(s: ClientStats) { s.latency.min as real <= s.average * 1000.0 }

  /** There is a stamped message, and none comes after an unstamped one. */
  predicate StampedFirst(p: seq<bool>) {
    p != [] && p[0] && forall i, j :: 0 <= i < j < |p| && p[j] ==> p[i]
  }

  /** After a stamped message, when no sum has overflowed. */
  lemma AfterStamped(messages: seq<Received>)
    requires LastIsStamped(messages) && NoOverflow(messages)
    ensures var s := SimpleRun(messages); AtMostMax(s) && (AllStamped(messages) ==> AtLeastMin(s))
  {
    var s := SimpleRun(messages);
    SimpleAverageIsExact(messages);
    SimpleTotalWithin(messages);
    MeanCompares(s.average, |messages|, s.latency.total, s.latency.max);
    MeanCompares(s.average, |messages|, s.latency.total, s.latency.min);
  }

  /** An unstamped message changes the count only, in both clients. */
  lemma AfterUnstamped(messages: seq<Received>)
    requires messages != [] && !LastIsStamped(messages)
    ensures var before := messages[..|messages| - 1];
      && SimpleRun(messages) == Counted(SimpleRun(before))
      && FullRun(messages) == Counted(FullRun(before))
      && SimpleRun(messages).average == SimpleRun(before).average && FullRun(messages).average == FullRun(before).average
      && Latencies(messages) == Latencies(before)
      && (StampedFirst(Pattern(messages)) <==> StampedFirst(Pattern(before)))
  {
    var before := messages[..|messages| - 1];
    assert forall i :: 0 <= i < |before| ==> Pattern(messages)[i] == Pattern(before)[i];
  }

  /**
   If no sum overflows, the simple client's average is at most the maximum after any messages,
   and at least the minimum if no stamped message comes after an unstamped one.
   */
  lemma {:induction false} SimpleAverageIsBetweenExtremes(messages: seq<Received>)
    requires NoOverflow(messages)
    ensures AtMostMax(SimpleRun(messages))
    ensures StampedFirst(Pattern(messages)) ==> AtLeastMin(SimpleRun(messages))
    decreases |messages|
  {
    if LastIsStamped(messages) {
      AfterStamped(messages);
      assert StampedFirst(Pattern(messages)) ==> AllStamped(messages) by {
        assert Pattern(messages)[|messages| - 1];
      }
    } else if messages != [] {
      AfterUnstamped(messages);
      SimpleAverageIsBetweenExtremes(messages[..|messages| - 1]);
    }
  }

  /** Messages with a given pattern of stamps, each with a latency of one nanosecond. */
  function OneEach(p: seq<bool>): (messages: seq<Received>)
    ensures Pattern(messages) == p
  {
    seq(|p|, i requires 0 <= i < |p| => if p[i] then Received(1, 2) else Received(0, 2))
  }

  lemma {:induction false} OneEachLatencies(p: seq<bool>)
    ensures forall i :: 0 <= i < |Latencies(OneEach(p))| ==> Latencies(OneEach(p))[i] == 1
  {
    if p != [] {
      var before := p[..|p| - 1];
      OneEachLatencies(before);
      assert OneEach(p)[..|p| - 1] == OneEach(before);
      assert Latency(Received(1, 2)) == 1;
    }
  }

  lemma OneEachSum(p: seq<bool>)
    ensures Sum(Latencies(OneEach(p))) == |Latencies(OneEach(p))| <= |p|
  {
    OneEachLatencies(p);
    SumBounds(Latencies(OneEach(p)), 1, 1);
    AllStampedCount(OneEach(p));
  }

  /** After a stamped message, fewer latencies of one than messages have an average below one. */
  lemma OneEachAfterStamped(p: seq<bool>)
    requires p != [] && p[|p| - 1] && !StampedFirst(p) && |p| < WORD
    ensures !AtLeastMin(SimpleRun(OneEach(p)))
  {
    var messages := OneEach(p);
    var s := SimpleRun(messages);
    assert LastIsStamped(messages);
    OneEachFolds(p);
    SimpleAverageIsExact(messages);
    BelowOne(s.average, |messages|, s.latency.total);
  }

  lemma OneEachFolds(p: seq<bool>)
    requires p != [] && p[|p| - 1] && !StampedFirst(p) && |p| < WORD
    ensures SimpleRun(OneEach(p)).latency.min == 1 && SimpleRun(OneEach(p)).latency.total < |p|
  {
    var messages := OneEach(p);
    assert !AllStamped(messages) by {
      assert forall i :: 0 <= i < |p| ==> p[i] == (messages[i].timestamp > 0);
    }
    AllStampedCount(messages);
    OneEachLatencies(p);
    OneEachSum(p);
    WindowIsNewest(messages);
    FoldAllIsExact(Latencies(messages));
    LastIsMeasured(messages);
  }

  lemma LastIsMeasured(messages: seq<Received>)
    requires LastIsStamped(messages)
    ensures Latencies(messages) != []
  {
  }

  lemma BelowOne(average: real, n: nat, total: int)
    requires n > 0 && AverageIs(average, n, total) && total < n
    ensures average * 1000.0 < 1.0
  {
    assert average * 1000.0 == total as real / n as real;
  }

  lemma {:induction false} OneEachFails(p: seq<bool>)
    requires !StampedFirst(p) && |p| < WORD
    ensures NoOverflow(OneEach(p)) && !AtLeastMin(SimpleRun(OneEach(p)))
    decreases |p|
  {
    OneEachSum(p);
    if p != [] {
      if p[|p| - 1] {
        OneEachAfterStamped(p);
      } else {
        AfterUnstamped(OneEach(p));
        assert OneEach(p)[..|p| - 1] == OneEach(p[..|p| - 1]);
        assert Pattern(OneEach(p)) == p && Pattern(OneEach(p[..|p| - 1])) == p[..|p| - 1];
        OneEachFails(p[..|p| - 1]);
      }
    }
  }

  /** Every list of messages with these stamps whose sum does not overflow. */
  ghost predicate NeverBelowMin(p: seq<bool>) {
    forall messages :: Pattern(messages) == p && NoOverflow(messages) ==> AtLeastMin(SimpleRun(messages))
  }

  /**
   Exactly when the average cannot be below the minimum, whatever is measured: when there is a
   stamped message, and none comes after an unstamped one. For a pattern that ends in a stamped
   message that means that every message is stamped.
   */
  lemma NeverBelowMinIffStampedFirst(p: seq<bool>)
    requires |p| < WORD
    ensures NeverBelowMin(p) <==> StampedFirst(p)
    ensures p != [] && p[|p| - 1] ==> (NeverBelowMin(p) <==> forall i :: 0 <= i < |p| ==> p[i])
  {
    if StampedFirst(p) {
      forall messages | Pattern(messages) == p && NoOverflow(messages) ensures AtLeastMin(SimpleRun(messages)) {
        SimpleAverageIsBetweenExtremes(messages);
      }
    } else {
      OneEachFails(p);
      assert Pattern(OneEach(p)) == p;
    }
  }

  lemma SimpleTotalWithin(messages: seq<Received>)
    requires Sum(Latencies(messages)) < WORD
    ensures var folded := SimpleRun(messages).latency;
      && folded.total <= |messages| * folded.max
      && (AllStamped(messages) ==> |messages| * folded.min <= folded.total)
  {
    WindowIsNewest(messages);
    AllStampedCount(messages);
    FoldedWithin(Latencies(messages), |messages|);
  }

  lemma MeanCompares(average: real, n: nat, total: int, bound: int)
    requires n > 0 && AverageIs(average, n, total)
    ensures total <= n * bound ==> average * 1000.0 <= bound as real
    ensures n * bound <= total ==> bound as real <= average * 1000.0
  {
    assert (n * bound) as real == bound as real * n as real;
  }

  /** A message without a time stamp is counted all the same, so the average can fall below the minimum. */
  lemma UnstampedMessagePullsAverageBelowMinimum()
    ensures var s := SimpleRun([Received(0, 0), Received(1, 1001)]);
      s.latency.min == 1000 && s.average * 1000.0 == 500.0
  {
    var a, b := Received(0, 0), Received(1, 1001);
    assert [a, b][..1] == [a];
    var s := Simple(EMPTY, a);
    RunOne(a);
    assert SimpleRun([a, b]) == Simple(s, b);
    assert Wrap(1000) == 1000;
  }

  /** The simple client's receive loop, on the frames of any number of recvs. */
  class SimpleClient {
    var window: seq<Word>
    var total: Word
    var min: Word
    var max: Word
    var messagesReceived: nat
    var average: real

    function View(): ClientStats
      reads this
    {
      ClientStats(window, Aggregates(total, min, max), messagesReceived, average)
    }

    constructor ()
      ensures View() == EMPTY
    {
      window, total, min, max, messagesReceived, average := [], 0, MAX_WORD, 0, 0, 0.0;
    }

    method UpdateLatencyStats(latency: Word)
      modifies this
      ensures View() == Measured(old(View()), latency)
    {
      window := window + [latency];
      if |window| > WINDOW {
        window := window[1..];
      }
      if latency < min {
        min := latency;
      }
      if latency > max {
        max := latency;
      }
      total := Wrap(total + latency);
      if messagesReceived > 0 {
        average := (total as real / 1000.0) / messagesReceived as real;
      }
    }

    /** The messages of one recv, or of any number of them. */
    method ReceiveMessages(messages: seq<Received>)
      modifies this
      ensures View() == SimpleFrom(old(View()), messages)
    {
      for i := 0 to |messages|
        invariant View() == SimpleFrom(old(View()), messages[..i])
      {
        var m := messages[i];
        messagesReceived := messagesReceived + 1;
        if m.timestamp > 0 {
          UpdateLatencyStats(Latency(m));
        }
        assert messages[..i + 1][..i] == messages[..i];
      }
      assert messages[..|messages|] == messages;
    }
  }

  /** The full client's frame loop, without interference. */
  class FullClient {
    var window: seq<Word>
    var total: Word
    var min: Word
    var max: Word
    var messagesReceived: nat
    var average: real

    function View(): ClientStats
      reads this
    {
      ClientStats(window, Aggregates(total, min, max), messagesReceived, average)
    }

    constructor ()
      ensures View() == EMPTY
    {
      window, total, min, max, messagesReceived, average := [], 0, MAX_WORD, 0, 0, 0.0;
    }

    method CalculateAverageLatency()
      modifies this`average
      ensures View() == Averaged(old(View()))
    {
      if messagesReceived > 0 {
        average := (total as real / 1000.0) / messagesReceived as real;
      }
    }

    method UpdateLatencyStats(latency: Word)
      modifies this
      ensures View() == Measured(old(View()), latency)
    {
      window := window + [latency];
      if |window| > WINDOW {
        window := window[1..];
      }
      total := Wrap(total + latency);
      if latency < min {
        min := latency;
      }
      if latency > max {
        max := latency;
      }
      CalculateAverageLatency();
    }

    method ResetStats()
      modifies this
      ensures View() == EMPTY
    {
      total, min, max, messagesReceived, average := 0, MAX_WORD, 0, 0, 0.0;
      window := [];
    }

    /** The messages of one call of process_received_data, or of any number of them. */
    method ProcessMessages(messages: seq<Received>)
      modifies this
      ensures View() == FullFrom(old(View()), messages)
    {
      for i := 0 to |messages|
        invariant View() == FullFrom(old(View()), messages[..i])
      {
        var m := messages[i];
        if m.timestamp > 0 {
          UpdateLatencyStats(Latency(m));
        }
        messagesReceived := messagesReceived + 1;
        assert messages[..i + 1][..i] == messages[..i];
      }
      assert messages[..|messages|] == messages;
    }
  }
}
