/**
 Two ways to match responses with send stamps: the 100k test walks through its stamps with an
 index, the latency client pops its stamps from the front of a queue.
 */
module StampMatching {
  import opened Words

  /** What one recv returns. */
  datatype Recv = Bytes(count: nat) | WouldBlock | Closed | Failed

  /** The frames received before the connection is closed or fails. */
  function FrameTotal(size: nat, results: seq<Recv>): nat
    requires size > 0
  {
    if results == [] then 0
    else match results[0]
      case Bytes(n) => n / size + FrameTotal(size, results[1..])
      case WouldBlock => FrameTotal(size, results[1..])
      case _ => 0
  }

  /** Whether the results up to the end of the receive loop include an error. */
  predicate EndsInError(results: seq<Recv>) {
    results != [] && (results[0] == Failed || (results[0] != Closed && EndsInError(results[1..])))
  }

  /** What one recv brings. */
  function FramesIn(size: nat): Recv -> int
    requires size > 0
  {
    (r: Recv) => if r.Bytes? then r.count / size else 0
  }

  /**
   Only the results before the first end of the connection or error count, and of those the
   whole frames of each recv. It is an error if that first one is.
   */
  lemma {:induction false} ResultsUpToTheEnd(size: nat, results: seq<Recv>, k: nat)
    requires size > 0 && k <= |results|
    requires forall j :: 0 <= j < k ==> results[j].Bytes? || results[j].WouldBlock?
    requires k == |results| || results[k].Closed? || results[k].Failed?
    ensures FrameTotal(size, results) == Total(results[..k], FramesIn(size))
    ensures EndsInError(results) <==> k < |results| && results[k].Failed?
    decreases k
  {
    if k > 0 {
      ResultsUpToTheEnd(size, results[1..], k - 1);
      assert results[..k] == [results[0]] + results[1..][..k - 1];
      TotalConcat([results[0]], results[1..][..k - 1], FramesIn(size));
      assert Total([results[0]], FramesIn(size)) == FramesIn(size)(results[0]);
    }
  }

  /** What the result at `next` adds to the results after it. */
  lemma Unfold(size: nat, results: seq<Recv>, next: nat)
    requires size > 0 && next < |results|
    ensures var r, rest := results[next], results[next + 1..];
      && FrameTotal(size, results[next..]) == (match r
           case Bytes(n) => n / size + FrameTotal(size, rest)
           case WouldBlock => FrameTotal(size, rest)
           case _ => 0)
      && EndsInError(results[next..]) == (r == Failed || (r != Closed && EndsInError(rest)))
  {
    assert results[next..][1..] == results[next + 1..];
  }

  function Min(a: nat, b: nat): nat { if a < b then a else b }

  /** Latency i is the i-th clock reading minus stamp i, as an unsigned word. */
  function ByIndex(stamps: seq<Word>, clock: nat -> Word, count: nat): (latencies: seq<Word>)
    requires count <= |stamps|
    ensures |latencies| == count
    ensures forall i :: 0 <= i < count ==> latencies[i] == Wrap(clock(i) - stamps[i])
  {
    if count == 0 then []
    else ByIndex(stamps, clock, count - 1) + [Wrap(clock(count - 1) - stamps[count - 1])]
  }

  /** Each frame reads the clock, and takes the stamp at the front of the queue if there is one. */
  function ByPopping(queue: seq<Word>, clock: nat -> Word, read: nat, frames: nat): seq<Word> {
    if frames == 0 || queue == [] then []
    else [Wrap(clock(read) - queue[0])] + ByPopping(queue[1..], clock, read + 1, frames - 1)
  }

  /** Popping the next frame as well. */
  lemma {:induction false} PopOneMore(queue: seq<Word>, clock: nat -> Word, read: nat, frames: nat)
    ensures ByPopping(queue, clock, read, frames + 1)
         == ByPopping(queue, clock, read, frames)
            + if frames < |queue| then [Wrap(clock(read + frames) - queue[frames])] else []
    decreases frames
  {
    if queue != [] {
      var rest := queue[1..];
      if frames == 0 {
        assert ByPopping(rest, clock, read + 1, 0) == [];
      } else {
        PopOneMore(rest, clock, read + 1, frames - 1);
        var last := if frames < |queue| then [Wrap(clock(read + frames) - queue[frames])] else [];
        assert ByPopping(rest, clock, read + 1, frames) == ByPopping(rest, clock, read + 1, frames - 1) + last;
        assert ByPopping(queue, clock, read, frames + 1)
            == [Wrap(clock(read) - queue[0])] + ByPopping(rest, clock, read + 1, frames);
      }
    }
  }

  /** If all stamps are there before the first frame, popping and indexing give the same latencies. */
  lemma {:induction false} PoppingIsIndexing(stamps: seq<Word>, clock: nat -> Word, frames: nat)
    ensures ByPopping(stamps, clock, 0, frames) == ByIndex(stamps, clock, Min(|stamps|, frames))
    decreases frames
  {
    if frames > 0 {
      PoppingIsIndexing(stamps, clock, frames - 1);
      PopOneMore(stamps, clock, 0, frames - 1);
    }
  }

  lemma WholeFrames(size: nat, count: nat, offset: nat, done: nat)
    requires size > 0 && offset == size * done && offset <= count
    ensures offset + size <= count ==> done + 1 <= count / size && offset + size == size * (done + 1)
    ensures offset + size > count ==> done == count / size
  {
    assert count == size * (count / size) + count % size;
    assert size * (done + 1) == size * done + size;
    if offset + size <= count {
      Cancel(size, done + 1, count / size, count % size);
    } else {
      Cancel(size, count / size, done, count - offset);
      Cancel(size, done, count / size, count % size);
    }
  }

  /** The 100k latency test. */
  class LatencyTest100K {
    var sendTimes: seq<Word>
    var latencyMeasurements: seq<Word>

    constructor ()
      ensures sendTimes == [] && latencyMeasurements == []
    {
      sendTimes, latencyMeasurements := [], [];
    }

    /** The sending half of run_latency_test: one stamp for each message. Old stamps stay. */
    method SendAll(stamps: seq<Word>)
      modifies this
      ensures latencyMeasurements == [] && sendTimes == old(sendTimes) + stamps
    {
      latencyMeasurements := [];
      for i := 0 to |stamps|
        invariant latencyMeasurements == [] && sendTimes == old(sendTimes) + stamps[..i]
      {
        sendTimes := sendTimes + [stamps[i]];
      }
    }

    /** The frame loop over one chunk, which stops early when the stamps run out. */
    method ReceiveChunk(size: nat, count: nat, clock: nat -> Word, received: nat) returns (messagesReceived: nat)
      requires size > 0 && received <= |sendTimes|
      requires latencyMeasurements == ByIndex(sendTimes, clock, received)
      modifies this`latencyMeasurements
      ensures messagesReceived == Min(|sendTimes|, received + count / size)
      ensures latencyMeasurements == ByIndex(sendTimes, clock, messagesReceived)
    {
      messagesReceived := received;
      var sendTimeIndex, offset := received, 0;
      ghost var done := 0;
      while offset + size <= count && sendTimeIndex < |sendTimes|
        invariant offset == size * done && offset <= count && done <= count / size
        invariant messagesReceived == sendTimeIndex == received + done <= |sendTimes|
        invariant latencyMeasurements == ByIndex(sendTimes, clock, sendTimeIndex)
        decreases count - offset
      {
        WholeFrames(size, count, offset, done);
        var receiveNs: int := clock(messagesReceived);
        var latencyNs := Wrap(receiveNs - sendTimes[sendTimeIndex]);
        latencyMeasurements := latencyMeasurements + [latencyNs];
        messagesReceived := messagesReceived + 1;
        sendTimeIndex := sendTimeIndex + 1;
        offset := offset + size;
        done := done + 1;
      }
      WholeFrames(size, count, offset, done);
    }

    /**
     receive_responses, on results that end with a closed connection. Every index is in range;
     it produces one latency for each frame until the stamps or the frames run out.
     */
    method ReceiveResponses(size: nat, results: seq<Recv>, clock: nat -> Word)
      requires size > 0 && latencyMeasurements == []
      modifies this`latencyMeasurements
      ensures latencyMeasurements == ByIndex(sendTimes, clock, Min(|sendTimes|, FrameTotal(size, results)))
    {
      var messagesReceived: nat, next: nat := 0, 0;
      assert results[0..] == results;
      while messagesReceived < |sendTimes| && next < |results|
        invariant messagesReceived <= |sendTimes| && next <= |results|
        invariant latencyMeasurements == ByIndex(sendTimes, clock, messagesReceived)
        invariant Min(|sendTimes|, FrameTotal(size, results))
               == Min(|sendTimes|, messagesReceived + FrameTotal(size, results[next..]))
        decreases |results| - next
      {
        Unfold(size, results, next);
        match results[next] {
          case Bytes(n) => messagesReceived := ReceiveChunk(size, n, clock, messagesReceived);
          case WouldBlock =>
          case Closed => break;
          case Failed => break;
        }
        next := next + 1;
      }
    }
  }

  /** The receiver of the latency client, with all stamps of a run already queued. */
  class LatencyClient {
    var latencyMeasurements: seq<Word>   // pending send stamps
    var recorded: seq<Word>              // what update_latency_stats was called with
    var messagesReceived: nat
    var errors: nat

    constructor ()
      ensures latencyMeasurements == [] && recorded == [] && messagesReceived == errors == 0
    {
      latencyMeasurements, recorded, messagesReceived, errors := [], [], 0, 0;
    }

    /** The sending half of the test loops: the stamp goes into the queue. */
    method SendAll(stamps: seq<Word>)
      modifies this`latencyMeasurements
      ensures latencyMeasurements == old(latencyMeasurements) + stamps
    {
      for i := 0 to |stamps|
        invariant latencyMeasurements == old(latencyMeasurements) + stamps[..i]
      {
        latencyMeasurements := latencyMeasurements + [stamps[i]];
      }
    }

    /** The frame loop over one chunk: every frame is counted, and pops a stamp if there is one. */
    method ReceiveChunk(size: nat, count: nat, clock: nat -> Word, ghost stamps: seq<Word>)
      requires size > 0
      requires recorded == ByPopping(stamps, clock, 0, messagesReceived)
      requires latencyMeasurements == stamps[Min(|stamps|, messagesReceived)..]
      modifies this`latencyMeasurements, this`recorded, this`messagesReceived
      ensures messagesReceived == old(messagesReceived) + count / size
      ensures recorded == ByPopping(stamps, clock, 0, messagesReceived)
      ensures latencyMeasurements == stamps[Min(|stamps|, messagesReceived)..]
    {
      var offset := 0;
      ghost var done := 0;
      while offset + size <= count
        invariant offset == size * done && offset <= count && done <= count / size
        invariant messagesReceived == old(messagesReceived) + done
        invariant recorded == ByPopping(stamps, clock, 0, messagesReceived)
        invariant latencyMeasurements == stamps[Min(|stamps|, messagesReceived)..]
        decreases count - offset
      {
        WholeFrames(size, count, offset, done);
        PopOneMore(stamps, clock, 0, messagesReceived);
        var receiveNs: int := clock(messagesReceived);
        if latencyMeasurements != [] {
          var sendNs: int := latencyMeasurements[0];
          latencyMeasurements := latencyMeasurements[1..];
          recorded := recorded + [Wrap(receiveNs - sendNs)];
        }
        messagesReceived := messagesReceived + 1;
        offset := offset + size;
        done := done + 1;
      }
      WholeFrames(size, count, offset, done);
    }

    /** receive_responses, on results that end with a closed connection. */
    method ReceiveResponses(size: nat, results: seq<Recv>, clock: nat -> Word)
      requires size > 0 && recorded == [] && messagesReceived == 0
      modifies this
      ensures messagesReceived == FrameTotal(size, results)
      ensures recorded == ByPopping(old(latencyMeasurements), clock, 0, messagesReceived)
      ensures latencyMeasurements == old(latencyMeasurements)[Min(|old(latencyMeasurements)|, messagesReceived)..]
      ensures errors == old(errors) + if EndsInError(results) then 1 else 0
    {
      ghost var stamps := latencyMeasurements;
      assert stamps[0..] == stamps && results[0..] == results;
      var next := 0;
      while next < |results|
        invariant next <= |results|
        invariant FrameTotal(size, results) == messagesReceived + FrameTotal(size, results[next..])
        invariant errors == old(errors) && EndsInError(results) == EndsInError(results[next..])
        invariant recorded == ByPopping(stamps, clock, 0, messagesReceived)
        invariant latencyMeasurements == stamps[Min(|stamps|, messagesReceived)..]
        decreases |results| - next
      {
        Unfold(size, results, next);
        match results[next] {
          case Bytes(n) => ReceiveChunk(size, n, clock, stamps);
          case WouldBlock =>
          case Closed => break;
          case Failed =>
            errors := errors + 1;
            break;
        }
        next := next + 1;
      }
    }
  }

  /** The two programs, run on the same stamps, chunks and clock from fresh, record the same latencies. */
  method BothRecordTheSame(size: nat, stamps: seq<Word>, results: seq<Recv>, clock: nat -> Word)
    returns (byIndex: seq<Word>, byPopping: seq<Word>)
    requires size > 0
    ensures byIndex == byPopping
    ensures |byIndex| == Min(|stamps|, FrameTotal(size, results))
    ensures forall i :: 0 <= i < |byIndex| ==> byIndex[i] == Wrap(clock(i) - stamps[i])
  {
    var test := new LatencyTest100K();
    test.SendAll(stamps);
    test.ReceiveResponses(size, results, clock);
    var client := new LatencyClient();
    client.SendAll(stamps);
    client.ReceiveResponses(size, results, clock);
    PoppingIsIndexing(stamps, clock, FrameTotal(size, results));
    assert [] + stamps == stamps;
    return test.latencyMeasurements, client.recorded;
  }

  // A second run of the 100k test, which still has the stamps of the first.

  /** What a run records that sends `stamps` when sendTimes already holds `before`. */
  function Records(size: nat, before: seq<Word>, stamps: seq<Word>, results: seq<Recv>, clock: nat -> Word): seq<Word>
    requires size > 0
  {
    var all := before + stamps;
    ByIndex(all, clock, Min(|all|, FrameTotal(size, results)))
  }

  /** Two runs of the test, one after the other. */
  method TwoRuns(size: nat, first: seq<Word>, results1: seq<Recv>, clock1: nat -> Word,
      second: seq<Word>, results2: seq<Recv>, clock2: nat -> Word) returns (recorded1: seq<Word>, recorded2: seq<Word>)
    requires size > 0
    ensures recorded1 == Records(size, [], first, results1, clock1)
    ensures recorded2 == Records(size, first, second, results2, clock2)
  {
    var test := new LatencyTest100K();
    test.SendAll(first);
    assert [] + first == first;
    test.ReceiveResponses(size, results1, clock1);
    recorded1 := test.latencyMeasurements;
    test.SendAll(second);
    test.ReceiveResponses(size, results2, clock2);
    recorded2 := test.latencyMeasurements;
  }

  lemma SameDifference(at: Word, a: Word, b: Word)
    requires Wrap(at - a) == Wrap(at - b)
    ensures a == b
  {
    WrapAdd(at - a, a + b - at);
    WrapAdd(at - b, a + b - at);
    assert Wrap(b) == b && Wrap(a) == a;
  }

  /** Latencies by index tell the stamps apart. */
  lemma SameLatenciesIffSameStamps(a: seq<Word>, b: seq<Word>, clock: nat -> Word, m: nat, n: nat)
    requires m <= |a| && n <= |b|
    ensures ByIndex(a, clock, m) == ByIndex(b, clock, n) <==> m == n && a[..m] == b[..n]
  {
    var x, y := ByIndex(a, clock, m), ByIndex(b, clock, n);
    if x == y {
      forall i | 0 <= i < m ensures a[i] == b[i] {
        assert x[i] == Wrap(clock(i) - a[i]) && y[i] == Wrap(clock(i) - b[i]);
        SameDifference(clock(i), a[i], b[i]);
      }
    }
    if m == n && a[..m] == b[..n] {
      forall i | 0 <= i < m ensures x[i] == y[i] {
        assert a[i] == a[..m][i] == b[..n][i] == b[i];
      }
    }
  }

  /**
   On given results and clock, a run on top of earlier stamps records what a fresh test would
   exactly if it matches as many frames, and the stamps it matches them with are the same ones.
   */
  lemma RightOnTheseResults(size: nat, first: seq<Word>, second: seq<Word>, results: seq<Recv>, clock: nat -> Word)
    requires size > 0
    ensures var all, frames := first + second, FrameTotal(size, results);
      Records(size, first, second, results, clock) == Records(size, [], second, results, clock)
      <==> Min(|all|, frames) == Min(|second|, frames) && all[..Min(|all|, frames)] == second[..Min(|second|, frames)]
  {
    var all, frames := first + second, FrameTotal(size, results);
    assert [] + second == second;
    SameLatenciesIffSameStamps(all, second, clock, Min(|all|, frames), Min(|second|, frames));
  }

  ghost predicate Increasing(stamps: seq<Word>) {
    forall i, j :: 0 <= i < j < |stamps| ==> stamps[i] < stamps[j]
  }

  /** If the clock moves between stamps, every second run that receives a frame is wrong. */
  lemma WrongOnEveryFrame(size: nat, first: seq<Word>, second: seq<Word>, results: seq<Recv>, clock: nat -> Word)
    requires size > 0 && Increasing(first + second)
    ensures Records(size, first, second, results, clock) == Records(size, [], second, results, clock)
      <==> first == [] || FrameTotal(size, results) == 0
  {
    var all, frames := first + second, FrameTotal(size, results);
    RightOnTheseResults(size, first, second, results, clock);
    if first == [] {
      assert all == second;
    } else if frames > 0 && second != [] {
      assert all[0] == first[0] && all[|first|] == second[0];
      assert all[..Min(|all|, frames)][0] != second[..Min(|second|, frames)][0];
    }
  }

  ghost predicate AlwaysRight(size: nat, first: seq<Word>, second: seq<Word>)
    requires size > 0
  {
    forall results: seq<Recv>, clock: nat -> Word ::
      Records(size, first, second, results, clock) == Records(size, [], second, results, clock)
  }

  /**
   The guard for a run of the 100k test: it records what a fresh test would, whatever it
   receives and whatever the clock shows, if and only if sendTimes is empty before it.
   */
  lemma RightExactlyWhenNoOldStamps(size: nat, first: seq<Word>, second: seq<Word>)
    requires size > 0
    ensures AlwaysRight(size, first, second) <==> first == []
  {
    if first != [] {
      var n := |first + second|;
      var results, clock := OneFrameEach(size, n), (i: nat) => 0 as Word;
      CountOneFrameEach(size, n);
      assert |Records(size, first, second, results, clock)| == n;
      assert |Records(size, [], second, results, clock)| == |second|;
    }
  }

  /** n recvs of one frame each. */
  function OneFrameEach(size: nat, n: nat): seq<Recv> {
    if n == 0 then [] else [Bytes(size)] + OneFrameEach(size, n - 1)
  }

  lemma {:induction false} CountOneFrameEach(size: nat, n: nat)
    requires size > 0
    ensures FrameTotal(size, OneFrameEach(size, n)) == n
  {
    if n > 0 {
      CountOneFrameEach(size, n - 1);
      assert size / size == 1;
    }
  }

  /** A run after a run with one stamp, 0: the response to a message stamped 10 comes at 15, and 15 is recorded. */
  lemma OldStampIsMatched(size: nat, clock: nat -> Word)
    requires size > 0 && clock(0) == 15
    ensures Records(size, [0], [10], [Bytes(size)], clock) == [15]
    ensures Records(size, [], [10], [Bytes(size)], clock) == [5]
  {
    CountOneFrameEach(size, 1);
    assert OneFrameEach(size, 1) == [Bytes(size)] && [0] + [10] == [0, 10] && [] + [10] == [10];
    assert ByIndex([0, 10], clock, 0) == [] && ByIndex([10], clock, 0) == [];
  }
}
