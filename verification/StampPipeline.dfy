/**
 One run of the latency client: the thread that sends, the network and the server behind it,
 the receiver thread, and a clock. The sender takes a time stamp, sends, and only then puts
 the stamp into the queue; for each frame the receiver reads the clock, and only then takes
 the mutex and pops a stamp. Every interleaving of these steps is a run.
 */
module StampPipeline {
  import opened Words
  import opened Wrappers
  import AtomicStats

  datatype Sender = Ready | Stamped(at: Word) | Sent(at: Word) | Pushed

  /** `rest` is the number of whole frames of the chunk after the current one. */
  datatype Receiver =
    | Polling
    | InChunk(rest: nat)
    | Timed(rest: nat, now: Word)
    | Updating(rest: nat)         // holds the mutex, inside update_latency_stats
    | Counting(rest: nat)

  /** A processed frame: when it was received, and the latency recorded if a stamp was queued. */
  datatype Frame = Frame(at: Word, latency: Option<Word>)

  /**
   The sender thread: what it does next, messages_sent_, and the stamps it has ever taken and
   pushed. Message i is the one of iteration i of the send loop.
   */
  datatype Sending = Sending(pc: Sender, sent: nat, stamps: seq<Word>, pushed: seq<Word>)

  /**
   The connection and the server: the response bytes not received yet, the number of messages
   of earlier runs and the messages of this run that the server may still answer, and the
   message of this run that each response so far answers.
   */
  datatype Network = Network(wire: nat, late: nat, pending: set<nat>, answers: seq<nat>)

  /**
   The receiver thread: what it does next, messages_received_, the stamps it has ever popped,
   the frames it has processed, and whether every chunk so far was a whole number of frames.
   */
  datatype Receiving = Receiving(pc: Receiver, received: nat, popped: seq<Word>, frames: seq<Frame>, whole: bool)

  /** `queue` is latency_measurements_ and `stats` holds the three atomic statistics. */
  datatype State = State(clock: Word, snd: Sending, queue: seq<Word>, net: Network, rcv: Receiving, stats: AtomicStats.State)

  datatype Step =
    | Tick(time: Word)
    | TakeStamp
    | Send(ok: bool)
    | Push
    | CountSent
    | Respond(message: nat)
    | RespondLate
    | Recv(bytes: nat)
    | ReadClock
    | Pop
    | Update(spurious: bool)
    | CountReceived

  /**
   What earlier runs have left behind when reset_stats clears the queue: response bytes not
   received yet, messages not answered yet, and the receiver, perhaps in the middle of a chunk.
   As reset_stats stores its zeros before it takes the mutex, the receiver may have counted
   and recorded something since. A fresh connection has Earlier(0, 0, Polling, 0, RESET).
   */
  datatype Earlier = Earlier(wire: nat, late: nat, rcv: Receiver, received: nat, words: AtomicStats.Shared)

  /** reset_stats has cleared the queue. */
  function Start(clock: Word, e: Earlier): State {
    State(clock, Sending(Ready, 0, [], []), [], Network(e.wire, e.late, {}, []),
          Receiving(e.rcv, e.received, [], [], true), AtomicStats.State(e.words, []))
  }

  /** The receiver is not inside the mutex, and has not read a later time than the clock shows. */
  predicate CanStart(clock: Word, e: Earlier) {
    !e.rcv.Updating? && (e.rcv.Timed? ==> e.rcv.now <= clock)
  }

  predicate Enabled(s: State, l: Step) {
    match l
    case Tick(time) => s.clock <= time
    case TakeStamp => s.snd.pc == Ready
    case Send(_) => s.snd.pc.Stamped?
    case Push => s.snd.pc.Sent? && !s.rcv.pc.Updating?
    case CountSent => s.snd.pc == Pushed
    case Respond(m) => m in s.net.pending
    case RespondLate => s.net.late > 0
    case Recv(n) => s.rcv.pc == Polling && 0 < n <= s.net.wire
    case ReadClock => s.rcv.pc.InChunk?
    case Pop => s.rcv.pc.Timed?
    case Update(_) => s.rcv.pc.Updating? && s.stats.calls != []
                      && !s.stats.calls[|s.stats.calls| - 1].pc.Finished?
    case CountReceived => s.rcv.pc.Counting?
  }

  function Next(size: nat, s: State, l: Step): State
    requires size > 0 && Enabled(s, l)
  {
    match l
    case Tick(time) => s.(clock := time)
    case TakeStamp => s.(snd := s.snd.(pc := Stamped(s.clock), stamps := s.snd.stamps + [s.clock]))
    case Send(ok) =>
      // a failed send still goes on to push its stamp
      s.(snd := s.snd.(pc := Sent(s.snd.pc.at)),
         net := if ok then s.net.(pending := s.net.pending + {|s.snd.pushed|}) else s.net)
    case Push =>
      s.(snd := s.snd.(pc := Pushed, pushed := s.snd.pushed + [s.snd.pc.at]), queue := s.queue + [s.snd.pc.at])
    case CountSent => s.(snd := s.snd.(pc := Ready, sent := s.snd.sent + 1))
    case Respond(m) =>
      s.(net := s.net.(wire := s.net.wire + size, pending := s.net.pending - {m}, answers := s.net.answers + [m]))
    case RespondLate => s.(net := s.net.(wire := s.net.wire + size, late := s.net.late - 1))
    case Recv(n) =>
      s.(rcv := s.rcv.(pc := if n / size == 0 then Polling else InChunk(n / size - 1),
                       whole := s.rcv.whole && n % size == 0),
         net := s.net.(wire := s.net.wire - n))
    case ReadClock => s.(rcv := s.rcv.(pc := Timed(s.rcv.pc.rest, s.clock)))
    case Pop =>
      var rest, now := s.rcv.pc.rest, s.rcv.pc.now;
      if s.queue == [] then
        s.(rcv := s.rcv.(pc := Counting(rest), frames := s.rcv.frames + [Frame(now, None)]))
      else
        var latency := Wrap(now - s.queue[0]);
        s.(rcv := s.rcv.(pc := Updating(rest), popped := s.rcv.popped + [s.queue[0]],
                         frames := s.rcv.frames + [Frame(now, Some(latency))]),
           queue := s.queue[1..],
           stats := s.stats.(calls := s.stats.calls + [AtomicStats.NewCall(latency)]))
    case Update(spurious) =>
      var last := |s.stats.calls| - 1;
      var stats := AtomicStats.Next(s.stats, AtomicStats.Choice(last, spurious));
      s.(stats := stats,
         rcv := if stats.calls[last].pc.Finished? then s.rcv.(pc := Counting(s.rcv.pc.rest)) else s.rcv)
    case CountReceived =>
      s.(rcv := s.rcv.(received := s.rcv.received + 1,
                       pc := if s.rcv.pc.rest == 0 then Polling else InChunk(s.rcv.pc.rest - 1)))
  }

  ghost predicate Steps(size: nat, s: State, t: State)
    requires size > 0
  {
    exists l :: Enabled(s, l) && t == Next(size, s, l)
  }

  /** A run: it starts on what earlier runs have left, and each state leads to the next by one step. */
  ghost predicate Run(size: nat, e: Earlier, tr: seq<State>)
    requires size > 0
  {
    && tr != [] && tr[0] == Start(tr[0].clock, e) && CanStart(tr[0].clock, e)
    && forall i :: 0 <= i < |tr| - 1 ==> Steps(size, tr[i], tr[i + 1])
  }

  // Stamps: where each one is.

  function InHand(x: Sender): seq<Word> {
    if x.Stamped? || x.Sent? then [x.at] else []
  }

  /** How many iterations of the send loop have called send. */
  function Sends(s: State): nat {
    |s.snd.pushed| + if s.snd.pc.Sent? then 1 else 0
  }

  ghost predicate StampInv(s: State) {
    && s.snd.stamps == s.snd.pushed + InHand(s.snd.pc)
    && s.snd.sent + (if s.snd.pc == Pushed then 1 else 0) == |s.snd.pushed|
    && s.snd.pushed == s.rcv.popped + s.queue
    && (forall i :: 0 <= i < |s.snd.stamps| ==> s.snd.stamps[i] <= s.clock)
    && forall i, j :: 0 <= i < j < |s.snd.stamps| ==> s.snd.stamps[i] <= s.snd.stamps[j]
  }

  lemma StampInvStep(size: nat, s: State, l: Step)
    requires size > 0 && StampInv(s) && Enabled(s, l)
    ensures StampInv(Next(size, s, l))
  {
    if l.Pop? && s.queue != [] {
      assert s.queue == [s.queue[0]] + s.queue[1..];
    }
  }

  // Frames: no more are parsed than responses were emitted.

  /** The frames of the current chunk that are not processed yet. */
  function Left(r: Receiver): nat {
    match r
    case Polling => 0
    case InChunk(rest) => rest + 1
    case Timed(rest, _) => rest + 1
    case Updating(rest) => rest
    case Counting(rest) => rest
  }

  ghost predicate AnswerInv(s: State) {
    && (forall m :: m in s.net.pending ==> m < Sends(s))
    && (forall k :: 0 <= k < |s.net.answers| ==> s.net.answers[k] < Sends(s))
    && |s.net.pending| + |s.net.answers| <= Sends(s)
  }

  /** The response bytes of earlier runs still to be processed, whether the server has sent them yet or not. */
  function Backlog(size: nat, e: Earlier): nat {
    size * (Left(e.rcv) + e.late) + e.wire
  }

  /**
   Every frame parsed, or still to be parsed, has been paid for with `size` response bytes, of
   this run or of the backlog.
   */
  ghost predicate WireInv(size: nat, backlog: nat, s: State) {
    var parsed := size * (|s.rcv.frames| + Left(s.rcv.pc) + s.net.late) + s.net.wire;
    && parsed <= size * |s.net.answers| + backlog
    && (s.rcv.whole ==> parsed == size * |s.net.answers| + backlog)
  }

  lemma AnswerInvStep(size: nat, s: State, l: Step)
    requires size > 0 && AnswerInv(s) && Enabled(s, l)
    ensures AnswerInv(Next(size, s, l))
  {
    match l
    case Send(ok) => assert |s.net.pending + {|s.snd.pushed|}| <= |s.net.pending| + 1;
    case Respond(m) => assert |s.net.pending - {m}| == |s.net.pending| - 1;
    case _ =>
      var t := Next(size, s, l);
      assert t.net.pending == s.net.pending && t.net.answers == s.net.answers && Sends(t) >= Sends(s);
  }

  lemma Distribute(size: nat, a: nat, b: nat)
    ensures size * (a + b) == size * a + size * b
  {
  }

  lemma WireInvStep(size: nat, backlog: nat, s: State, l: Step)
    requires size > 0 && WireInv(size, backlog, s) && Enabled(s, l)
    ensures WireInv(size, backlog, Next(size, s, l))
  {
    var t := Next(size, s, l);
    var parsed := |s.rcv.frames| + Left(s.rcv.pc) + s.net.late;
    match l
    case Respond(m) => Distribute(size, |s.net.answers|, 1);
    case RespondLate => Distribute(size, parsed - 1, 1);
    case Recv(n) =>
      assert Left(t.rcv.pc) == n / size;
      Distribute(size, parsed, n / size);
      assert n == size * (n / size) + n % size;
    case _ =>
      assert |t.rcv.frames| + Left(t.rcv.pc) + t.net.late == parsed;
      assert t.net.wire == s.net.wire && t.net.answers == s.net.answers;
  }

  // Matching: the n-th frame takes stamp number Matched(frames[..n]).

  function IsMatched(f: Frame): int { if f.latency.Some? then 1 else 0 }

  /** How many of these frames found a stamp. */
  function Matched(frames: seq<Frame>): int { Total(frames, IsMatched) }

  ghost predicate FrameOk(s: State, n: nat)
    requires n < |s.rcv.frames|
  {
    var p := Matched(s.rcv.frames[..n]);
    s.rcv.frames[n].latency.Some? ==>
      && 0 <= p < |s.rcv.popped| && p < |s.stats.calls| && p <= n
      && s.rcv.frames[n].latency.value == Wrap(s.rcv.frames[n].at - s.rcv.popped[p]) == s.stats.calls[p].sample
  }

  /** 1 for a frame that is processed and not counted yet. */
  function Uncounted(r: Receiver): nat { if r.Updating? || r.Counting? then 1 else 0 }

  /** How much messages_received_ counts that is not of this run. */
  function Foreign(e: Earlier): nat { e.received + Uncounted(e.rcv) }

  ghost predicate MatchInv(foreign: nat, s: State) {
    && foreign + |s.rcv.frames| == s.rcv.received + Uncounted(s.rcv.pc)
    && |s.rcv.popped| == |s.stats.calls| == Matched(s.rcv.frames) <= |s.rcv.frames|
    && (s.rcv.pc.Updating? ==> s.rcv.frames != [] && s.rcv.frames[|s.rcv.frames| - 1].latency.Some?)
    && forall n :: 0 <= n < |s.rcv.frames| ==> FrameOk(s, n)
  }

  lemma MatchedExtends(frames: seq<Frame>, f: Frame)
    ensures Matched(frames + [f]) == Matched(frames) + IsMatched(f)
  {
    assert (frames + [f])[..|frames|] == frames;
  }

  lemma {:induction false} MatchedBound(frames: seq<Frame>)
    ensures 0 <= Matched(frames) <= |frames|
  {
    if frames != [] {
      MatchedBound(frames[..|frames| - 1]);
    }
  }

  lemma FrameStaysOk(size: nat, foreign: nat, s: State, l: Step, n: nat)
    requires size > 0 && MatchInv(foreign, s) && Enabled(s, l) && n < |Next(size, s, l).rcv.frames|
    ensures FrameOk(Next(size, s, l), n)
  {
    var t := Next(size, s, l);
    if n < |s.rcv.frames| {
      assert FrameOk(s, n);
      assert t.rcv.frames[..n] == s.rcv.frames[..n];
      var p := Matched(s.rcv.frames[..n]);
      if s.rcv.frames[n].latency.Some? {
        assert t.rcv.popped[p] == s.rcv.popped[p];
        assert t.stats.calls[p].sample == s.stats.calls[p].sample;
      }
    } else {
      assert t.rcv.frames[..n] == s.rcv.frames;
      MatchedBound(s.rcv.frames);
    }
  }

  lemma MatchInvStep(size: nat, foreign: nat, s: State, l: Step)
    requires size > 0 && MatchInv(foreign, s) && Enabled(s, l)
    ensures MatchInv(foreign, Next(size, s, l))
  {
    var t := Next(size, s, l);
    if l.Pop? {
      MatchedExtends(s.rcv.frames, t.rcv.frames[|s.rcv.frames|]);
      assert t.rcv.frames == s.rcv.frames + [t.rcv.frames[|s.rcv.frames|]];
    }
    forall n | 0 <= n < |t.rcv.frames| ensures FrameOk(t, n) {
      FrameStaysOk(size, foreign, s, l, n);
    }
  }

  // Causality: a stamp is never popped for a frame that was received before it was taken.

  ghost predicate NotEarly(s: State, n: nat)
    requires n < |s.rcv.frames|
  {
    s.rcv.frames[n].latency.Some? ==>
      n < |s.snd.stamps| && s.snd.stamps[n] <= s.rcv.frames[n].at
  }

  ghost predicate CauseInv(s: State) {
    && (s.rcv.pc.Timed? ==> |s.rcv.frames| < |s.snd.stamps| && s.snd.stamps[|s.rcv.frames|] <= s.rcv.pc.now)
    && forall n :: 0 <= n < |s.rcv.frames| ==> NotEarly(s, n)
  }

  lemma CauseInvStep(size: nat, backlog: nat, s: State, l: Step)
    requires size > 0 && backlog < size && Enabled(s, l)
    requires StampInv(s) && AnswerInv(s) && WireInv(size, backlog, s) && CauseInv(s)
    ensures CauseInv(Next(size, s, l))
  {
    var t := Next(size, s, l);
    if l.ReadClock? {
      // fewer frames than responses, no more responses than sends, and each send has its stamp
      Cancel(size, |s.rcv.frames| + Left(s.rcv.pc) + s.net.late, |s.net.answers|, backlog);
    }
    forall n | 0 <= n < |t.rcv.frames| ensures NotEarly(t, n) {
      if n < |s.rcv.frames| {
        assert NotEarly(s, n);
      }
    }
  }

  // The statistics: the calls of update_latency_stats, at most one of them under way.

  /** Only the newest call can be under way, and only while the receiver is inside it. */
  ghost predicate CallsDone(s: State) {
    && (s.rcv.pc.Updating? ==> s.stats.calls != [])
    && forall p :: 0 <= p < |s.stats.calls| ==>
         (s.stats.calls[p].pc.Finished? <==> !(s.rcv.pc.Updating? && p == |s.stats.calls| - 1))
  }

  ghost predicate StatsInv(base: AtomicStats.Shared, s: State) {
    AtomicStats.Inv(base, s.stats) && CallsDone(s)
  }

  lemma NewCallKeepsInv(base: AtomicStats.Shared, s: AtomicStats.State, sample: Word)
    requires AtomicStats.Inv(base, s)
    ensures AtomicStats.Inv(base, s.(calls := s.calls + [AtomicStats.NewCall(sample)]))
  {
    var c := AtomicStats.NewCall(sample);
    var t := s.(calls := s.calls + [c]);
    assert t.calls[..|s.calls|] == s.calls;
    assert Total(t.calls, AtomicStats.Added) == Total(s.calls, AtomicStats.Added) + AtomicStats.Added(c);
    assert Total(t.calls, AtomicStats.WonMin) == Total(s.calls, AtomicStats.WonMin);
    assert Total(t.calls, AtomicStats.WonMax) == Total(s.calls, AtomicStats.WonMax);
    TotalAtLeast(s.calls, 0, AtomicStats.WonMin);
    TotalAtLeast(s.calls, 0, AtomicStats.WonMax);
    if s.shared.min != base.min {
      var i :| 0 <= i < |s.calls| && s.calls[i].minWon && s.calls[i].sample == s.shared.min;
      assert t.calls[i] == s.calls[i];
    }
    if s.shared.max != base.max {
      var i :| 0 <= i < |s.calls| && s.calls[i].maxWon && s.calls[i].sample == s.shared.max;
      assert t.calls[i] == s.calls[i];
    }
    forall i | 0 <= i < |t.calls| ensures AtomicStats.CallOk(t, t.calls[i]) {
      if i < |s.calls| {
        assert AtomicStats.CallOk(s, s.calls[i]);
      }
    }
  }

  lemma CallsDoneStep(size: nat, s: State, l: Step)
    requires size > 0 && CallsDone(s) && Enabled(s, l)
    ensures CallsDone(Next(size, s, l))
  {
    var t := Next(size, s, l);
    assert forall p :: 0 <= p < |s.stats.calls| && !(l.Update? && p == |s.stats.calls| - 1) ==>
        t.stats.calls[p] == s.stats.calls[p];
  }

  lemma StatsInvStep(size: nat, base: AtomicStats.Shared, s: State, l: Step)
    requires size > 0 && StatsInv(base, s) && Enabled(s, l)
    ensures StatsInv(base, Next(size, s, l))
  {
    CallsDoneStep(size, s, l);
    if l.Pop? && s.queue != [] {
      NewCallKeepsInv(base, s.stats, Wrap(s.rcv.pc.now - s.queue[0]));
    } else if l.Update? {
      AtomicStats.NextInv(base, s.stats, AtomicStats.Choice(|s.stats.calls| - 1, l.spurious));
    } else {
      assert Next(size, s, l).stats == s.stats;
    }
  }

  /** What every state of a run satisfies. */
  ghost predicate Inv(size: nat, e: Earlier, s: State) {
    && StampInv(s) && AnswerInv(s) && WireInv(size, Backlog(size, e), s)
    && MatchInv(Foreign(e), s) && StatsInv(e.words, s)
    && (Backlog(size, e) < size ==> CauseInv(s))
  }

  /** With less than a frame of backlog, the receiver does not start on an earlier frame. */
  lemma NothingLeft(size: nat, e: Earlier)
    requires Backlog(size, e) < size
    ensures Left(e.rcv) == e.late == 0
  {
    Cancel(size, Left(e.rcv) + e.late, 0, Backlog(size, e));
  }

  lemma {:induction false} RunInv(size: nat, e: Earlier, tr: seq<State>, i: nat)
    requires size > 0 && Run(size, e, tr) && i < |tr|
    ensures Inv(size, e, tr[i])
  {
    if i > 0 {
      RunInv(size, e, tr, i - 1);
      var s := tr[i - 1];
      assert Steps(size, s, tr[i]);
      var l :| Enabled(s, l) && tr[i] == Next(size, s, l);
      StampInvStep(size, s, l);
      AnswerInvStep(size, s, l);
      WireInvStep(size, Backlog(size, e), s, l);
      MatchInvStep(size, Foreign(e), s, l);
      StatsInvStep(size, e.words, s, l);
      if Backlog(size, e) < size {
        CauseInvStep(size, Backlog(size, e), s, l);
      }
    } else {
      AtomicStats.InitInv(tr[0].stats);
      if Backlog(size, e) < size {
        NothingLeft(size, e);
      }
    }
  }

  // Main results.

  /**
   The recorded latency of frame n is the time between a popped stamp and its receipt, as
   integers: the unsigned subtraction has not wrapped below zero.
   */
  ghost predicate DidNotWrap(s: State, n: nat)
    requires n < |s.rcv.frames|
  {
    s.rcv.frames[n].latency.Some? ==>
      var p := Matched(s.rcv.frames[..n]);
      && 0 <= p < |s.rcv.popped|
      && s.rcv.popped[p] <= s.rcv.frames[n].at
      && s.rcv.frames[n].latency.value == s.rcv.frames[n].at - s.rcv.popped[p]
  }

  ghost predicate NeverWraps(s: State) {
    forall n :: 0 <= n < |s.rcv.frames| ==> DidNotWrap(s, n)
  }

  /** With less than a frame of backlog, no latency wraps in any interleaving. */
  lemma NoLatencyWraps(size: nat, e: Earlier, tr: seq<State>, i: nat)
    requires size > 0 && Backlog(size, e) < size && Run(size, e, tr) && i < |tr|
    ensures NeverWraps(tr[i])
  {
    RunInv(size, e, tr, i);
    var s := tr[i];
    forall n | 0 <= n < |s.rcv.frames| ensures DidNotWrap(s, n) {
      assert FrameOk(s, n) && NotEarly(s, n);
      if s.rcv.frames[n].latency.Some? {
        var p := Matched(s.rcv.frames[..n]);
        assert s.rcv.popped[p] == s.snd.stamps[p] <= s.snd.stamps[n] <= s.rcv.frames[n].at;
      }
    }
  }

  lemma Extend(size: nat, e: Earlier, tr: seq<State>, l: Step) returns (longer: seq<State>)
    requires size > 0 && Run(size, e, tr) && Enabled(tr[|tr| - 1], l)
    ensures Run(size, e, longer) && |longer| == |tr| + 1
    ensures longer[|longer| - 1] == Next(size, tr[|tr| - 1], l)
  {
    longer := tr + [Next(size, tr[|tr| - 1], l)];
    assert forall i :: 0 <= i < |tr| ==> longer[i] == tr[i];
  }

  /** Neither the sender nor the receiver has touched a stamp yet. */
  predicate Untouched(s: State) {
    s.snd == Sending(Ready, 0, [], []) && s.queue == [] && s.rcv.popped == [] && s.rcv.frames == []
  }

  /** A frame whose time is read before the first stamp is taken takes that stamp, and wraps. */
  lemma TimedFrameWraps(size: nat, e: Earlier, tr: seq<State>) returns (longer: seq<State>)
    requires size > 0 && Run(size, e, tr)
    requires var s := tr[|tr| - 1]; Untouched(s) && s.rcv.pc.Timed? && s.rcv.pc.now <= s.clock < MAX_WORD
    ensures Run(size, e, longer) && !NeverWraps(longer[|longer| - 1])
  {
    var now, later := tr[|tr| - 1].rcv.pc.now, tr[|tr| - 1].clock + 1;
    longer := Extend(size, e, tr, Tick(later));
    longer := Extend(size, e, longer, TakeStamp);
    longer := Extend(size, e, longer, Send(true));
    longer := Extend(size, e, longer, Push);
    assert longer[|longer| - 1].queue == [later];
    longer := Extend(size, e, longer, Pop);
    var s := longer[|longer| - 1];
    assert s.rcv.popped == [later] && s.rcv.frames == [Frame(now, Some(Wrap(now - later)))];
    assert s.rcv.frames[..0] == [];
    assert !DidNotWrap(s, 0);
  }

  /** How far the receiver is from the next frame of the backlog. */
  function Distance(size: nat, s: State): nat {
    match s.rcv.pc
    case Timed(_, _) => 0
    case InChunk(_) => 1
    case Polling => if s.net.wire >= size then 2 else 3
    case _ => 4
  }

  /** Whatever the backlog is, the receiver can come to its next frame before the first stamp is taken. */
  lemma {:induction false} BacklogFrameWraps(size: nat, e: Earlier, tr: seq<State>) returns (longer: seq<State>)
    requires size > 0 && Run(size, e, tr)
    requires var s := tr[|tr| - 1];
      && Untouched(s) && !s.rcv.pc.Updating? && (s.rcv.pc.Timed? ==> s.rcv.pc.now <= s.clock) && s.clock < MAX_WORD
      && (Left(s.rcv.pc) > 0 || s.net.wire >= size || s.net.late > 0)
    ensures Run(size, e, longer) && !NeverWraps(longer[|longer| - 1])
    decreases Distance(size, tr[|tr| - 1])
  {
    var s := tr[|tr| - 1];
    match s.rcv.pc
    case Timed(_, _) =>
      longer := TimedFrameWraps(size, e, tr);
    case InChunk(_) =>
      longer := Extend(size, e, tr, ReadClock);
      longer := BacklogFrameWraps(size, e, longer);
    case Counting(_) =>
      longer := Extend(size, e, tr, CountReceived);
      longer := BacklogFrameWraps(size, e, longer);
    case Polling =>
      assert size / size == 1;
      longer := Extend(size, e, tr, if s.net.wire >= size then Recv(size) else RespondLate);
      longer := BacklogFrameWraps(size, e, longer);
  }

  /**
   Each cause of a backlog, be it frames left of a chunk, bytes not received or messages not
   answered, leads to a run that records a latency that wrapped.
   */
  lemma BacklogWraps(size: nat, e: Earlier) returns (tr: seq<State>)
    requires 0 < size <= Backlog(size, e) && !e.rcv.Updating? && !AtLastTime(e)
    ensures Run(size, e, tr) && !NeverWraps(tr[|tr| - 1])
  {
    tr := [Start(if e.rcv.Timed? then e.rcv.now else 0, e)];
    if Left(e.rcv) == e.late == 0 {
      assert size * 0 == 0;
    }
    tr := BacklogFrameWraps(size, e, tr);
  }

  /** The receiver holds the last time that a word can show, so no later stamp can come. */
  predicate AtLastTime(e: Earlier) { e.rcv.Timed? && e.rcv.now == MAX_WORD }

  ghost predicate Stopped(s: State) {
    && s.clock == MAX_WORD && (s.rcv.pc.Timed? ==> s.rcv.pc.now == MAX_WORD)
    && (forall i :: 0 <= i < |s.snd.stamps| ==> s.snd.stamps[i] == MAX_WORD)
    && forall n :: 0 <= n < |s.rcv.frames| ==> s.rcv.frames[n].at == MAX_WORD
  }

  lemma {:induction false} ClockIsStopped(size: nat, e: Earlier, tr: seq<State>, i: nat)
    requires size > 0 && Run(size, e, tr) && AtLastTime(e) && i < |tr|
    ensures Stopped(tr[i])
  {
    if i > 0 {
      ClockIsStopped(size, e, tr, i - 1);
      assert Steps(size, tr[i - 1], tr[i]);
    }
  }

  lemma NothingWrapsAtLastTime(size: nat, e: Earlier, tr: seq<State>, i: nat)
    requires size > 0 && Run(size, e, tr) && AtLastTime(e) && i < |tr|
    ensures NeverWraps(tr[i])
  {
    RunInv(size, e, tr, i);
    ClockIsStopped(size, e, tr, i);
    var s := tr[i];
    forall n | 0 <= n < |s.rcv.frames| ensures DidNotWrap(s, n) {
      assert FrameOk(s, n);
      if s.rcv.frames[n].latency.Some? {
        var p := Matched(s.rcv.frames[..n]);
        assert s.rcv.popped[p] == s.snd.stamps[p] == MAX_WORD;
      }
    }
  }

  /**
   Exactly when recorded latencies can be trusted: a run is free of wrap-around in every
   interleaving if and only if, when it starts, the responses of earlier runs still to be
   processed, sent by the server or not, come to less than one frame; a fresh connection has
   none. The clock at the end of its range is the one exception.
   */
  lemma WrapFreeExactlyWhenDrained(size: nat, e: Earlier)
    requires size > 0 && !e.rcv.Updating?
    ensures (forall tr :: Run(size, e, tr) ==> NeverWraps(tr[|tr| - 1]))
            <==> Backlog(size, e) < size || AtLastTime(e)
  {
    if Backlog(size, e) < size || AtLastTime(e) {
      forall tr | Run(size, e, tr) ensures NeverWraps(tr[|tr| - 1]) {
        if AtLastTime(e) {
          NothingWrapsAtLastTime(size, e, tr, |tr| - 1);
        } else {
          NoLatencyWraps(size, e, tr, |tr| - 1);
        }
      }
    } else {
      var tr := BacklogWraps(size, e);
    }
  }

  // Where the times come from.

  /** The clock was read, as `at`, in an earlier state for frame n; for one frame perhaps before the run. */
  ghost predicate TimeRead(e: Earlier, tr: seq<State>, i: nat, n: nat, at: Word)
    requires i < |tr|
  {
    || (n == 0 && e.rcv.Timed? && at == e.rcv.now)
    || exists k :: 0 <= k < i && ReadsClock(tr[k], tr[k + 1]) && |tr[k].rcv.frames| == n && at == tr[k].clock
  }

  predicate ReadsClock(s: State, t: State) { s.rcv.pc.InChunk? && t.rcv.pc.Timed? }

  /** The clock was read, as `at`, in an earlier state for stamp n. */
  ghost predicate StampTaken(tr: seq<State>, i: nat, n: nat, at: Word)
    requires i < |tr|
  {
    exists k :: 0 <= k < i && TakesStamp(tr[k], tr[k + 1]) && |tr[k].snd.stamps| == n && at == tr[k].clock
  }

  predicate TakesStamp(s: State, t: State) { s.snd.pc == Ready && t.snd.pc.Stamped? }

  /** How one step moves the times: only reading the clock makes a new one. */
  lemma StepTimes(size: nat, s: State, l: Step)
    requires size > 0 && Enabled(s, l)
    ensures var t := Next(size, s, l);
      && (t.rcv.frames == s.rcv.frames
          || (s.rcv.pc.Timed? && exists latency :: t.rcv.frames == s.rcv.frames + [Frame(s.rcv.pc.now, latency)]))
      && (t.rcv.pc.Timed? ==> t.rcv.frames == s.rcv.frames)
      && (t.rcv.pc.Timed? && s.rcv.pc.Timed? ==> t.rcv.pc.now == s.rcv.pc.now)
      && (t.rcv.pc.Timed? && !s.rcv.pc.Timed? ==> ReadsClock(s, t) && t.rcv.pc.now == s.clock)
      && (t.snd.stamps == s.snd.stamps || (TakesStamp(s, t) && t.snd.stamps == s.snd.stamps + [s.clock]))
  {
  }

  lemma StillRead(e: Earlier, tr: seq<State>, i: nat, n: nat, at: Word)
    requires i + 1 < |tr| && TimeRead(e, tr, i, n, at)
    ensures TimeRead(e, tr, i + 1, n, at)
  {
  }

  lemma StillTaken(tr: seq<State>, i: nat, n: nat, at: Word)
    requires i + 1 < |tr| && StampTaken(tr, i, n, at)
    ensures StampTaken(tr, i + 1, n, at)
  {
  }

  ghost predicate FramesTimed(e: Earlier, tr: seq<State>, i: nat)
    requires i < |tr|
  {
    var r := tr[i].rcv;
    && (forall n :: 0 <= n < |r.frames| ==> TimeRead(e, tr, i, n, r.frames[n].at))
    && (r.pc.Timed? ==> TimeRead(e, tr, i, |r.frames|, r.pc.now))
  }

  lemma FramesTimedStep(size: nat, e: Earlier, tr: seq<State>, i: nat, l: Step)
    requires size > 0 && i + 1 < |tr| && Enabled(tr[i], l) && tr[i + 1] == Next(size, tr[i], l)
    requires FramesTimed(e, tr, i)
    ensures FramesTimed(e, tr, i + 1)
  {
    var r, r' := tr[i].rcv, tr[i + 1].rcv;
    StepTimes(size, tr[i], l);
    forall n | 0 <= n < |r'.frames| ensures TimeRead(e, tr, i + 1, n, r'.frames[n].at) {
      StillRead(e, tr, i, n, r'.frames[n].at);
    }
    if r'.pc.Timed? && r.pc.Timed? {
      StillRead(e, tr, i, |r.frames|, r.pc.now);
    }
  }

  ghost predicate StampsTaken(tr: seq<State>, i: nat)
    requires i < |tr|
  {
    forall n :: 0 <= n < |tr[i].snd.stamps| ==> StampTaken(tr, i, n, tr[i].snd.stamps[n])
  }

  lemma StampsTakenStep(size: nat, tr: seq<State>, i: nat, l: Step)
    requires size > 0 && i + 1 < |tr| && Enabled(tr[i], l) && tr[i + 1] == Next(size, tr[i], l)
    requires StampsTaken(tr, i)
    ensures StampsTaken(tr, i + 1)
  {
    var stamps := tr[i + 1].snd.stamps;
    StepTimes(size, tr[i], l);
    forall n | 0 <= n < |stamps| ensures StampTaken(tr, i + 1, n, stamps[n]) {
      if n < |tr[i].snd.stamps| {
        StillTaken(tr, i, n, stamps[n]);
      }
    }
  }

  /**
   The receive time of every frame is what the clock showed in the state in which the receiver
   read it for that frame, and likewise for every stamp.
   */
  lemma {:induction false} TimesComeFromTheClock(size: nat, e: Earlier, tr: seq<State>, i: nat)
    requires size > 0 && Run(size, e, tr) && i < |tr|
    ensures FramesTimed(e, tr, i) && StampsTaken(tr, i)
  {
    if i > 0 {
      TimesComeFromTheClock(size, e, tr, i - 1);
      assert Steps(size, tr[i - 1], tr[i - 1 + 1]);
      var l :| Enabled(tr[i - 1], l) && tr[i - 1 + 1] == Next(size, tr[i - 1], l);
      FramesTimedStep(size, e, tr, i - 1, l);
      StampsTakenStep(size, tr, i - 1, l);
    }
  }

  /** Time passes and responses are emitted in one direction only. */
  lemma {:induction false} RunGoesOn(size: nat, e: Earlier, tr: seq<State>, i: nat, j: nat)
    requires size > 0 && Run(size, e, tr) && i <= j < |tr|
    ensures tr[i].clock <= tr[j].clock && tr[i].net.answers <= tr[j].net.answers
    decreases j
  {
    if i < j {
      RunGoesOn(size, e, tr, i, j - 1);
      assert Steps(size, tr[j - 1], tr[j]);
    }
  }

  lemma EmittedBeforeRead(size: nat, e: Earlier, tr: seq<State>, r: nat)
    requires size > 0 && Backlog(size, e) == 0 && Run(size, e, tr) && r < |tr| && tr[r].rcv.pc.InChunk?
    ensures |tr[r].rcv.frames| < |tr[r].net.answers|
  {
    RunInv(size, e, tr, r);
    Cancel(size, |tr[r].rcv.frames| + Left(tr[r].rcv.pc) + tr[r].net.late, |tr[r].net.answers|, 0);
  }

  /** The state in which the clock was read for frame n. */
  lemma ReadOf(e: Earlier, tr: seq<State>, i: nat, n: nat) returns (r: nat)
    requires i < |tr| && FramesTimed(e, tr, i) && Left(e.rcv) == 0 && n < |tr[i].rcv.frames|
    ensures r < i && tr[r].rcv.pc.InChunk? && |tr[r].rcv.frames| == n && tr[i].rcv.frames[n].at == tr[r].clock
  {
    var at := tr[i].rcv.frames[n].at;
    assert TimeRead(e, tr, i, n, at);
    r :| 0 <= r < i && ReadsClock(tr[r], tr[r + 1]) && |tr[r].rcv.frames| == n && at == tr[r].clock;
  }

  /** Without a backlog, frame n is received no earlier than any time before response n was emitted. */
  lemma ReceivedAfterEmission(size: nat, e: Earlier, tr: seq<State>, i: nat, n: nat, k: nat)
    requires size > 0 && Backlog(size, e) == 0 && Run(size, e, tr) && k <= i < |tr|
    requires n < |tr[i].rcv.frames| && |tr[k].net.answers| <= n
    ensures tr[k].clock <= tr[i].rcv.frames[n].at
  {
    TimesComeFromTheClock(size, e, tr, i);
    NothingLeft(size, e);
    var r := ReadOf(e, tr, i, n);
    EmittedBeforeRead(size, e, tr, r);
    if r < k {
      RunGoesOn(size, e, tr, r, k);
      assert false;
    }
    RunGoesOn(size, e, tr, k, r);
  }

  ghost predicate InOrder(answers: seq<nat>) {
    forall i, j :: 0 <= i < j < |answers| ==> answers[i] < answers[j]
  }

  lemma {:induction false} InOrderIsAbove(answers: seq<nat>, n: nat)
    requires InOrder(answers) && n < |answers|
    ensures n <= answers[n]
  {
    if n > 0 {
      InOrderIsAbove(answers, n - 1);
    }
  }

  /**
   Without a backlog, as on a fresh connection, when responses are in order and chunks are whole frames, frame n is
   response n, and the latency recorded for it is never less than the time from the stamp of
   the message it answers to its receipt, nor to the emission of the response: to whatever the
   clock showed in a state k without that response. It is exact, up to the receipt, when no
   response is missing before it and every earlier frame found a stamp.
   */
  lemma NeverUnderReports(size: nat, e: Earlier, tr: seq<State>, i: nat, n: nat)
    requires size > 0 && Backlog(size, e) == 0 && Run(size, e, tr) && i < |tr|
    requires tr[i].rcv.whole && InOrder(tr[i].net.answers)
    requires n < |tr[i].rcv.frames| && tr[i].rcv.frames[n].latency.Some?
    ensures var s := tr[i];
      && n < |s.net.answers| && s.net.answers[n] < |s.snd.stamps|
      && s.rcv.frames[n].latency.value >= s.rcv.frames[n].at - s.snd.stamps[s.net.answers[n]]
      && (s.net.answers[n] == Matched(s.rcv.frames[..n]) ==>
            s.rcv.frames[n].latency.value == s.rcv.frames[n].at - s.snd.stamps[s.net.answers[n]])
      && forall k :: 0 <= k <= i && |tr[k].net.answers| <= n ==>
           s.rcv.frames[n].latency.value >= tr[k].clock - s.snd.stamps[s.net.answers[n]]
  {
    var s := tr[i];
    forall k | 0 <= k <= i && |tr[k].net.answers| <= n ensures tr[k].clock <= s.rcv.frames[n].at {
      ReceivedAfterEmission(size, e, tr, i, n, k);
    }
    RunInv(size, e, tr, i);
    NoLatencyWraps(size, e, tr, i);
    assert DidNotWrap(s, n) && FrameOk(s, n);
    Cancel(size, |s.rcv.frames| + Left(s.rcv.pc) + s.net.late, |s.net.answers|, 0);
    InOrderIsAbove(s.net.answers, n);
    var p := Matched(s.rcv.frames[..n]);
    assert s.rcv.popped[p] == s.snd.stamps[p] <= s.snd.stamps[s.net.answers[n]];
  }

  /** The latencies recorded for these frames, in order. */
  function Latencies(frames: seq<Frame>): seq<Word> {
    if frames == [] then []
    else
      var f := frames[|frames| - 1];
      Latencies(frames[..|frames| - 1]) + if f.latency.Some? then [f.latency.value] else []
  }

  function Times(frames: seq<Frame>): seq<Word> {
    if frames == [] then []
    else
      var f := frames[|frames| - 1];
      Times(frames[..|frames| - 1]) + if f.latency.Some? then [f.at] else []
  }

  // Conservation.

  function IsMissed(f: Frame): int { 1 - IsMatched(f) }

  lemma {:induction false} MatchedOrMissed(frames: seq<Frame>)
    ensures |frames| == Total(frames, IsMatched) + Total(frames, IsMissed)
  {
    if frames != [] {
      MatchedOrMissed(frames[..|frames| - 1]);
    }
  }

  /** Each matched frame has its stamp among `popped`, and its latency is their difference. */
  ghost predicate Paired(frames: seq<Frame>, popped: seq<Word>) {
    forall n :: 0 <= n < |frames| && frames[n].latency.Some? ==>
      var p := Matched(frames[..n]);
      0 <= p < |popped| && frames[n].latency.value == Wrap(frames[n].at - popped[p])
  }

  lemma PairedPrefix(frames: seq<Frame>, popped: seq<Word>, k: nat)
    requires Paired(frames, popped) && k <= |frames|
    ensures Paired(frames[..k], popped)
  {
    forall n | 0 <= n < k && frames[n].latency.Some?
      ensures var p := Matched(frames[..k][..n]);
        0 <= p < |popped| && frames[..k][n].latency.value == Wrap(frames[n].at - popped[p])
    {
      assert frames[..k][..n] == frames[..n];
    }
  }

  lemma LastFrame(frames: seq<Frame>)
    requires frames != []
    ensures var before, f := frames[..|frames| - 1], frames[|frames| - 1];
      && Matched(frames) == Matched(before) + IsMatched(f)
      && Latencies(frames) == Latencies(before) + (if f.latency.Some? then [f.latency.value] else [])
      && Times(frames) == Times(before) + (if f.latency.Some? then [f.at] else [])
  {
  }

  lemma {:induction false} Balance(frames: seq<Frame>, popped: seq<Word>)
    requires Paired(frames, popped)
    ensures 0 <= Matched(frames) <= |popped|
    ensures Wrap(Sum(Latencies(frames)) + Sum(popped[..Matched(frames)])) == Wrap(Sum(Times(frames)))
  {
    if frames != [] {
      var before, f := frames[..|frames| - 1], frames[|frames| - 1];
      PairedPrefix(frames, popped, |frames| - 1);
      Balance(before, popped);
      LastFrame(frames);
      var m := Matched(before);
      if f.latency.Some? {
        OneMore(Latencies(before), popped[..m], Times(before), f.at, popped[m]);
        assert popped[..m + 1] == popped[..m] + [popped[m]];
      } else {
        assert Latencies(frames) == Latencies(before) && Times(frames) == Times(before);
      }
    }
  }

  /** The latencies of the first k frames are the samples of the first calls. */
  lemma {:induction false} FirstFrames(foreign: nat, s: State, k: nat)
    requires MatchInv(foreign, s) && k <= |s.rcv.frames|
    ensures var m := Matched(s.rcv.frames[..k]);
      && 0 <= m <= |s.rcv.popped|
      && |Latencies(s.rcv.frames[..k])| == m
      && forall p :: 0 <= p < m ==> Latencies(s.rcv.frames[..k])[p] == s.stats.calls[p].sample
  {
    if k > 0 {
      FirstFrames(foreign, s, k - 1);
      assert s.rcv.frames[..k][..k - 1] == s.rcv.frames[..k - 1];
      assert FrameOk(s, k - 1);
    }
  }

  lemma SumAppend(xs: seq<int>, x: int)
    ensures Sum(xs + [x]) == Sum(xs) + x
  {
    assert (xs + [x])[..|xs|] == xs;
  }

  lemma OneMore(latencies: seq<int>, stamps: seq<int>, times: seq<int>, at: Word, stamp: Word)
    requires Wrap(Sum(latencies) + Sum(stamps)) == Wrap(Sum(times))
    ensures Wrap(Sum(latencies + [Wrap(at - stamp)]) + Sum(stamps + [stamp])) == Wrap(Sum(times + [at]))
  {
    SumAppend(latencies, Wrap(at - stamp));
    SumAppend(stamps, stamp);
    SumAppend(times, at);
    WrapAdd(at - stamp, Sum(latencies) + Sum(stamps) + stamp);
    WrapAdd(Sum(latencies) + Sum(stamps), at);
    WrapAdd(Sum(times), at);
  }

  lemma {:induction false} SumOfSamples(latencies: seq<int>, calls: seq<AtomicStats.Call>)
    requires |latencies| == |calls|
    requires forall p :: 0 <= p < |calls| ==> latencies[p] == calls[p].sample && calls[p].pc.Finished?
    ensures Sum(latencies) == Total(calls, AtomicStats.Added)
  {
    if calls != [] {
      SumOfSamples(latencies[..|calls| - 1], calls[..|calls| - 1]);
    }
  }

  lemma FramesArePaired(foreign: nat, s: State)
    requires MatchInv(foreign, s)
    ensures Paired(s.rcv.frames, s.rcv.popped)
  {
    forall n | 0 <= n < |s.rcv.frames| && s.rcv.frames[n].latency.Some?
      ensures var p := Matched(s.rcv.frames[..n]);
        && 0 <= p < |s.rcv.popped|
        && s.rcv.frames[n].latency.value == Wrap(s.rcv.frames[n].at - s.rcv.popped[p])
    {
      assert FrameOk(s, n);
    }
  }

  lemma Rebase(base: int, total: int, latencies: int, popped: int, times: int)
    requires Wrap(latencies + popped) == Wrap(times) && total == Wrap(base + latencies)
    ensures Wrap(total + popped) == Wrap(base + times)
  {
    WrapAdd(base + latencies, popped);
    WrapAdd(latencies + popped, base);
    WrapAdd(times, base);
  }

  /** When no call is under way, the calls have added up the recorded latencies. */
  lemma TotalOfLatencies(foreign: nat, base: AtomicStats.Shared, s: State)
    requires MatchInv(foreign, s) && StatsInv(base, s) && !s.rcv.pc.Updating?
    ensures s.stats.shared.total == Wrap(base.total + Sum(Latencies(s.rcv.frames)))
  {
    FirstFrames(foreign, s, |s.rcv.frames|);
    assert s.rcv.frames[..|s.rcv.frames|] == s.rcv.frames;
    SumOfSamples(Latencies(s.rcv.frames), s.stats.calls);
  }

  lemma TotalBalances(foreign: nat, base: AtomicStats.Shared, s: State)
    requires MatchInv(foreign, s) && StatsInv(base, s) && !s.rcv.pc.Updating?
    ensures Wrap(s.stats.shared.total + Sum(s.rcv.popped)) == Wrap(base.total + Sum(Times(s.rcv.frames)))
  {
    FramesArePaired(foreign, s);
    Balance(s.rcv.frames, s.rcv.popped);
    assert s.rcv.popped[..|s.rcv.popped|] == s.rcv.popped;
    TotalOfLatencies(foreign, base, s);
    Rebase(base.total, s.stats.shared.total, Sum(Latencies(s.rcv.frames)), Sum(s.rcv.popped), Sum(Times(s.rcv.frames)));
  }

  /**
   In every state of every run: no stamp is lost, duplicated or reordered; messages_sent_
   counts the stamps pushed; every frame is counted once, as matched or as missed, on top of
   what the count holds of earlier runs; and when no update is under way the total latency and
   the popped stamps add up to the receive times of the matched frames, on top of the total at
   the start, modulo 2^64.
   */
  lemma NothingIsLost(size: nat, e: Earlier, tr: seq<State>, i: nat)
    requires size > 0 && Run(size, e, tr) && i < |tr|
    ensures var s := tr[i];
      && s.snd.pushed == s.rcv.popped + s.queue
      && s.snd.stamps == s.snd.pushed + InHand(s.snd.pc)
      && s.snd.sent + (if s.snd.pc == Pushed then 1 else 0) == |s.snd.pushed|
      && s.rcv.received + Uncounted(s.rcv.pc) == Foreign(e) + |s.rcv.popped| + Total(s.rcv.frames, IsMissed)
      && (!s.rcv.pc.Updating? ==>
            Wrap(s.stats.shared.total + Sum(s.rcv.popped)) == Wrap(e.words.total + Sum(Times(s.rcv.frames))))
  {
    RunInv(size, e, tr, i);
    var s := tr[i];
    MatchedOrMissed(s.rcv.frames);
    if !s.rcv.pc.Updating? {
      TotalBalances(Foreign(e), e.words, s);
    }
  }

  // The snapshot of get_stats.

  /** What has been recorded in s is still recorded in t. */
  ghost predicate Grew(s: State, t: State) {
    && s.rcv.frames <= t.rcv.frames
    && |s.stats.calls| <= |t.stats.calls|
    && forall p :: 0 <= p < |s.stats.calls| && s.stats.calls[p].pc.Finished? ==>
         t.stats.calls[p] == s.stats.calls[p]
  }

  lemma StepGrows(size: nat, s: State, l: Step)
    requires size > 0 && Enabled(s, l)
    ensures Grew(s, Next(size, s, l))
  {
    var t := Next(size, s, l);
    if l.Update? {
      assert forall p :: 0 <= p < |s.stats.calls| - 1 ==> t.stats.calls[p] == s.stats.calls[p];
    }
  }

  lemma GrewFurther(s: State, t: State, u: State)
    requires Grew(s, t) && Grew(t, u)
    ensures Grew(s, u)
  {
  }

  lemma {:induction false} RunGrows(size: nat, e: Earlier, tr: seq<State>, i: nat, j: nat)
    requires size > 0 && Run(size, e, tr) && i <= j < |tr|
    ensures Grew(tr[i], tr[j])
    decreases j
  {
    if i < j {
      RunGrows(size, e, tr, i, j - 1);
      assert Grew(tr[j - 1], tr[j]) by {
        assert Steps(size, tr[j - 1], tr[j]);
        var l :| Enabled(tr[j - 1], l) && tr[j] == Next(size, tr[j - 1], l);
        StepGrows(size, tr[j - 1], l);
      }
      GrewFurther(tr[i], tr[j - 1], tr[j]);
    }
  }

  /** How many frames of this run messages_received_ counts in s. */
  function Own(foreign: nat, s: State): nat {
    if s.rcv.received <= foreign then 0 else s.rcv.received - foreign
  }

  /** The latencies recorded for those frames. */
  function Counted(foreign: nat, s: State): seq<Word>
    requires Own(foreign, s) <= |s.rcv.frames|
  {
    Latencies(s.rcv.frames[..Own(foreign, s)])
  }

  /** The latency of every frame that found a stamp is among the latencies. */
  lemma {:induction false} LatencyIsCounted(frames: seq<Frame>, k: nat, n: nat)
    requires n < k <= |frames| && frames[n].latency.Some?
    ensures frames[n].latency.value in Latencies(frames[..k])
  {
    LastFrame(frames[..k]);
    assert frames[..k][..k - 1] == frames[..k - 1];
    if n < k - 1 {
      LatencyIsCounted(frames, k - 1, n);
    }
  }

  /** In s the calls for the counted frames have returned. */
  lemma CountedAreFinished(foreign: nat, base: AtomicStats.Shared, s: State)
    requires MatchInv(foreign, s) && StatsInv(base, s)
    ensures |Counted(foreign, s)| <= |s.stats.calls|
    ensures forall p :: 0 <= p < |Counted(foreign, s)| ==>
      s.stats.calls[p].pc.Finished? && s.stats.calls[p].sample == Counted(foreign, s)[p]
  {
    FirstFrames(foreign, s, Own(foreign, s));
    if s.rcv.pc.Updating? {
      var last := |s.rcv.frames| - 1;
      assert s.rcv.frames[..last] + [s.rcv.frames[last]] == s.rcv.frames;
      MatchedExtends(s.rcv.frames[..last], s.rcv.frames[last]);
    }
  }

  lemma {:induction false} PrefixIsLess(calls: seq<AtomicStats.Call>, k: nat)
    requires k <= |calls|
    ensures Total(calls[..k], AtomicStats.Added) <= Total(calls, AtomicStats.Added)
  {
    TotalConcat(calls[..k], calls[k..], AtomicStats.Added);
    TotalAtLeast(calls[k..], 0, AtomicStats.Added);
    assert calls == calls[..k] + calls[k..];
  }

  /** If the counted frames of s are still recorded in t, then their calls are in t, and have returned. */
  lemma CountedAreKept(foreign: nat, base: AtomicStats.Shared, s: State, t: State)
    requires MatchInv(foreign, s) && StatsInv(base, s) && Grew(s, t)
    ensures |Counted(foreign, s)| <= |t.stats.calls|
    ensures forall p :: 0 <= p < |Counted(foreign, s)| ==>
      t.stats.calls[p].pc.Finished? && t.stats.calls[p].sample == Counted(foreign, s)[p]
  {
    CountedAreFinished(foreign, base, s);
  }

  /** The words of t cover the samples of the first calls, which have returned. */
  lemma WordsCover(base: AtomicStats.Shared, t: AtomicStats.State, samples: seq<Word>)
    requires AtomicStats.Inv(base, t) && |samples| <= |t.calls|
    requires forall p :: 0 <= p < |samples| ==> t.calls[p].pc.Finished? && t.calls[p].sample == samples[p]
    ensures forall p :: 0 <= p < |samples| ==> t.shared.min <= samples[p] <= t.shared.max
    ensures base.total + Total(t.calls, AtomicStats.Added) < WORD ==> base.total + Sum(samples) <= t.shared.total
  {
    forall p | 0 <= p < |samples| ensures t.shared.min <= samples[p] <= t.shared.max {
      assert AtomicStats.CallOk(t, t.calls[p]);
    }
    SumOfSamples(samples, t.calls[..|samples|]);
    PrefixIsLess(t.calls, |samples|);
    TotalAtLeast(t.calls, 0, AtomicStats.Added);
  }

  /**
   The unlocked snapshot of get_stats is sound. It loads messages_received_ in one state of
   the run, and later, with any steps between, the total, the minimum and the maximum; each
   of them covers all the latencies recorded for the messages it has counted; the total does
   so as long as it has not overflowed.
   */
  lemma SnapshotIsSound(size: nat, e: Earlier, tr: seq<State>, a: nat, b: nat, c: nat, d: nat)
    requires size > 0 && Run(size, e, tr) && a <= b <= c <= d < |tr|
    ensures tr[a].rcv.received <= Foreign(e) + |tr[a].rcv.frames|
    ensures e.words.total + Total(tr[b].stats.calls, AtomicStats.Added) < WORD ==>
      e.words.total + Sum(Counted(Foreign(e), tr[a])) <= tr[b].stats.shared.total
    ensures forall p :: 0 <= p < |Counted(Foreign(e), tr[a])| ==>
      tr[c].stats.shared.min <= Counted(Foreign(e), tr[a])[p] <= tr[d].stats.shared.max
    ensures forall n ::
      (0 <= n < |tr[a].rcv.frames| && Foreign(e) + n < tr[a].rcv.received && tr[a].rcv.frames[n].latency.Some?) ==>
      tr[c].stats.shared.min <= tr[a].rcv.frames[n].latency.value <= tr[d].stats.shared.max
  {
    forall n | 0 <= n < |tr[a].rcv.frames| && Foreign(e) + n < tr[a].rcv.received && tr[a].rcv.frames[n].latency.Some?
      ensures tr[a].rcv.received <= Foreign(e) + |tr[a].rcv.frames|
           && tr[a].rcv.frames[n].latency.value in Counted(Foreign(e), tr[a])
    {
      RunInv(size, e, tr, a);
      LatencyIsCounted(tr[a].rcv.frames, Own(Foreign(e), tr[a]), n);
    }
    RunInv(size, e, tr, a);
    RunInv(size, e, tr, b);
    RunInv(size, e, tr, c);
    RunInv(size, e, tr, d);
    RunGrows(size, e, tr, a, b);
    RunGrows(size, e, tr, a, c);
    RunGrows(size, e, tr, a, d);
    CountedAreKept(Foreign(e), e.words, tr[a], tr[b]);
    WordsCover(e.words, tr[b].stats, Counted(Foreign(e), tr[a]));
    CountedAreKept(Foreign(e), e.words, tr[a], tr[c]);
    WordsCover(e.words, tr[c].stats, Counted(Foreign(e), tr[a]));
    CountedAreKept(Foreign(e), e.words, tr[a], tr[d]);
    WordsCover(e.words, tr[d].stats, Counted(Foreign(e), tr[a]));
  }

  // One run in full.

  /** A message stamped 10 is sent, and answered when the clock shows 25. */
  lemma OneMessageAnswered(size: nat) returns (tr: seq<State>)
    requires size > 0
    ensures Run(size, Earlier(0, 0, Polling, 0, AtomicStats.Shared(0, MAX_WORD, 0)), tr)
    ensures tr[|tr| - 1] ==
      State(25, Sending(Ready, 1, [10], [10]), [10], Network(size, 0, {}, [0]), Receiving(Polling, 0, [], [], true),
            AtomicStats.State(AtomicStats.Shared(0, MAX_WORD, 0), []))
  {
    var e := Earlier(0, 0, Polling, 0, AtomicStats.RESET);
    tr := [Start(10, e)];
    tr := Extend(size, e, tr, TakeStamp);
    tr := Extend(size, e, tr, Send(true));
    tr := Extend(size, e, tr, Push);
    tr := Extend(size, e, tr, CountSent);
    tr := Extend(size, e, tr, Tick(25));
    tr := Extend(size, e, tr, Respond(0));
  }

  /** The response is received, and takes the stamp. */
  lemma OneMessageReceived(size: nat) returns (tr: seq<State>)
    requires size > 0
    ensures Run(size, Earlier(0, 0, Polling, 0, AtomicStats.Shared(0, MAX_WORD, 0)), tr)
    ensures tr[|tr| - 1] ==
      State(25, Sending(Ready, 1, [10], [10]), [], Network(0, 0, {}, [0]),
            Receiving(Updating(0), 0, [10], [Frame(25, Some(15))], true),
            AtomicStats.State(AtomicStats.Shared(0, MAX_WORD, 0), [AtomicStats.NewCall(15)]))
  {
    var e := Earlier(0, 0, Polling, 0, AtomicStats.RESET);
    tr := OneMessageAnswered(size);
    assert size / size == 1 && size % size == 0;
    tr := Extend(size, e, tr, Recv(size));
    tr := Extend(size, e, tr, ReadClock);
    tr := Extend(size, e, tr, Pop);
    assert Wrap(25 - 10) == 15;
  }

  /** Its latency of 15 is recorded, and the message is counted. */
  lemma OneMessageRecorded(size: nat) returns (tr: seq<State>)
    requires size > 0
    ensures Run(size, Earlier(0, 0, Polling, 0, AtomicStats.Shared(0, MAX_WORD, 0)), tr)
    ensures var s := tr[|tr| - 1];
      && s.clock == 25 && s.snd.sent == 1 && s.rcv.received == 1 && s.rcv.frames == [Frame(25, Some(15))]
      && s.stats.shared == AtomicStats.Shared(15, 15, 15) && s.rcv.pc == Polling
  {
    var e := Earlier(0, 0, Polling, 0, AtomicStats.RESET);
    tr := OneMessageReceived(size);
    tr := Extend(size, e, tr, Update(false));
    tr := Extend(size, e, tr, Update(false));
    tr := Extend(size, e, tr, Update(false));
    tr := Extend(size, e, tr, Update(false));
    tr := Extend(size, e, tr, Update(false));
    tr := Extend(size, e, tr, CountReceived);
  }
}
