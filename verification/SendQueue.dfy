/**
 The send queue of the full client. Any number of threads, the heartbeat among them, call
 send_message; one send thread drains the queue, and lets go of the queue mutex while it
 sends. Connection and running flag change at any moment, the receive thread may count errors
 of its own, and the statistics may be reset.
 */
module SendQueue {
  import opened Words

  /** A message, opaque here. */
  type Message = seq<bv8>

  /** A call of send_message. */
  datatype Call =
    | Checking(msg: Message)     // about to load the connection state
    | Enqueuing(msg: Message)    // about to push under the queue mutex
    | Counting                   // about to count under the statistics mutex
    | Accepted
    | Refused

  datatype Sender =
    | Waiting                    // on the condition variable
    | Locked                     // holds the queue mutex, at the head of the drain loop
    | Sending(msg: Message)      // has popped the message and let the mutex go
    | CountingSent
    | CountingError
    | Relocking
    | Stopped

  /**
   The first lines are the program's own variables. The last two record the past: the messages
   pushed, the messages passed to send_data, how many of those were sent or failed, and how
   many recvs failed; then how often the statistics were reset, and how much of the counters
   for messages sent and for errors that has put back to zero.
   */
  datatype State = State(
    connected: bool, running: bool,
    calls: seq<Call>, sender: Sender, queue: seq<Message>,
    messagesSent: nat, bytesSent: nat, errors: nat,
    accepted: seq<Message>, handed: seq<Message>, successes: nat, failures: nat, receiveFailures: nat,
    resets: nat, sentZeroed: nat, errorsZeroed: nat)

  datatype Step =
    | SetConnected(connected: bool)
    | Stop
    | Start
    | Arrive(msg: Message)
    | Call(who: nat)
    | Drain(ok: bool)
    | ReceiveFails
    | ResetStats

  predicate Enabled(s: State, l: Step) {
    match l
    case SetConnected(_) => true
    case Stop => s.running
    case Start => !s.running && s.sender == Stopped
    case Arrive(_) => true
    case Call(i) => i < |s.calls| && !s.calls[i].Accepted? && !s.calls[i].Refused?
                    && (s.calls[i].Enqueuing? ==> s.sender != Locked)
    case Drain(_) => s.sender != Stopped && (s.sender == Waiting ==> s.queue != [] || !s.running)
    case ReceiveFails => true
    case ResetStats => true
  }

  function Next(size: nat, s: State, l: Step): State
    requires Enabled(s, l)
  {
    match l
    case SetConnected(connected) => s.(connected := connected)
    case Stop => s.(running := false)
    case Start => s.(running := true, sender := Waiting)
    case Arrive(msg) => s.(calls := s.calls + [Checking(msg)])
    case Call(i) => NextCall(size, s, i)
    case Drain(ok) => NextDrain(size, s, ok)
    case ReceiveFails => s.(errors := s.errors + 1, receiveFailures := s.receiveFailures + 1)
    case ResetStats =>
      s.(messagesSent := 0, bytesSent := 0, errors := 0, resets := s.resets + 1,
         sentZeroed := s.sentZeroed + s.messagesSent, errorsZeroed := s.errorsZeroed + s.errors)
  }

  function NextCall(size: nat, s: State, i: nat): State
    requires Enabled(s, Call(i))
  {
    match s.calls[i]
    case Checking(msg) => s.(calls := s.calls[i := if s.connected then Enqueuing(msg) else Refused])
    case Enqueuing(msg) =>
      s.(calls := s.calls[i := Counting], queue := s.queue + [msg], accepted := s.accepted + [msg])
    case Counting =>
      s.(calls := s.calls[i := Accepted], messagesSent := s.messagesSent + 1, bytesSent := s.bytesSent + size)
  }

  function NextDrain(size: nat, s: State, ok: bool): State
    requires Enabled(s, Drain(ok))
  {
    match s.sender
    case Waiting => s.(sender := if s.running then Locked else Stopped)
    case Locked =>
      if s.queue != [] && s.connected then s.(sender := Sending(s.queue[0]), queue := s.queue[1..])
      else s.(sender := if s.running then Waiting else Stopped)
    case Sending(msg) =>
      if ok then s.(sender := CountingSent, handed := s.handed + [msg], successes := s.successes + 1)
      else s.(sender := CountingError, handed := s.handed + [msg], failures := s.failures + 1)
    case CountingSent =>
      s.(sender := Relocking, messagesSent := s.messagesSent + 1, bytesSent := s.bytesSent + size)
    case CountingError => s.(sender := Relocking, errors := s.errors + 1)
    case Relocking => s.(sender := Locked)
  }

  function Initial(): State {
    State(false, false, [], Stopped, [], 0, 0, 0, [], [], 0, 0, 0, 0, 0, 0)
  }

  ghost predicate Steps(size: nat, s: State, t: State) {
    exists l :: Enabled(s, l) && t == Next(size, s, l)
  }

  /** A piece of a run, from any state. */
  ghost predicate Piece(size: nat, tr: seq<State>) {
    tr != [] && forall k :: 0 <= k < |tr| - 1 ==> Steps(size, tr[k], tr[k + 1])
  }

  ghost predicate Run(size: nat, tr: seq<State>) {
    Piece(size, tr) && tr[0] == Initial()
  }

  /** The message that the send thread has popped and not yet passed to send_data. */
  function InFlight(x: Sender): seq<Message> {
    if x.Sending? then [x.msg] else []
  }

  function HasPushed(c: Call): int { if c.Counting? || c.Accepted? then 1 else 0 }
  function HasCounted(c: Call): int { if c.Accepted? then 1 else 0 }

  ghost predicate QueueInv(s: State) {
    s.accepted == s.handed + InFlight(s.sender) + s.queue
  }

  ghost predicate CountInv(s: State) {
    && |s.accepted| == Total(s.calls, HasPushed)
    && |s.handed| == s.successes + s.failures
    && s.messagesSent + s.sentZeroed + (if s.sender == CountingSent then 1 else 0)
         == Total(s.calls, HasCounted) + s.successes
    && s.errors + s.errorsZeroed + (if s.sender == CountingError then 1 else 0) == s.failures + s.receiveFailures
    && (s.resets == 0 ==> s.sentZeroed == s.errorsZeroed == 0)
  }

  ghost predicate BytesInv(size: nat, s: State) {
    s.bytesSent == size * s.messagesSent
  }

  lemma BytesInvStep(size: nat, s: State, l: Step)
    requires BytesInv(size, s) && Enabled(s, l)
    ensures BytesInv(size, Next(size, s, l))
  {
    assert size * (s.messagesSent + 1) == size * s.messagesSent + size;
  }

  lemma QueueInvStep(size: nat, s: State, l: Step)
    requires QueueInv(s) && Enabled(s, l)
    ensures QueueInv(Next(size, s, l))
  {
    if l.Drain? && s.sender == Locked && s.queue != [] {
      assert s.queue == [s.queue[0]] + s.queue[1..];
    }
  }

  lemma CallKeepsCounts(size: nat, s: State, i: nat)
    requires CountInv(s) && Enabled(s, Call(i))
    ensures CountInv(NextCall(size, s, i))
  {
    var t := NextCall(size, s, i);
    TotalUpdate(s.calls, i, t.calls[i], HasPushed);
    TotalUpdate(s.calls, i, t.calls[i], HasCounted);
    assert t.calls == s.calls[i := t.calls[i]];
  }

  lemma DrainKeepsCounts(size: nat, s: State, ok: bool)
    requires CountInv(s) && Enabled(s, Drain(ok))
    ensures CountInv(NextDrain(size, s, ok))
  {
  }

  lemma CountInvStep(size: nat, s: State, l: Step)
    requires CountInv(s) && Enabled(s, l)
    ensures CountInv(Next(size, s, l))
  {
    match l
    case Arrive(msg) => assert (s.calls + [Checking(msg)])[..|s.calls|] == s.calls;
    case Call(i) => CallKeepsCounts(size, s, i);
    case Drain(ok) => DrainKeepsCounts(size, s, ok);
    case _ =>
  }

  lemma {:induction false} RunInv(size: nat, tr: seq<State>, k: nat)
    requires Run(size, tr) && k < |tr|
    ensures QueueInv(tr[k]) && CountInv(tr[k]) && BytesInv(size, tr[k])
  {
    if k > 0 {
      RunInv(size, tr, k - 1);
      assert Steps(size, tr[k - 1], tr[k]);
      var l :| Enabled(tr[k - 1], l) && tr[k] == Next(size, tr[k - 1], l);
      QueueInvStep(size, tr[k - 1], l);
      CountInvStep(size, tr[k - 1], l);
      BytesInvStep(size, tr[k - 1], l);
    }
  }

  /**
   In every state of every run, across disconnects, reconnects, stops and restarts: what was
   accepted is, in order, what was handed to send_data, then at most one message in flight,
   then the queue.
   */
  lemma NothingIsLostOrReordered(size: nat, tr: seq<State>, k: nat)
    requires Run(size, tr) && k < |tr|
    ensures var s := tr[k];
      && s.accepted == s.handed + InFlight(s.sender) + s.queue
      && |InFlight(s.sender)| <= 1
      && |s.accepted| == Total(s.calls, HasPushed)
  {
    RunInv(size, tr, k);
  }

  lemma {:induction false} PushedAreCounted(calls: seq<Call>)
    requires forall i :: 0 <= i < |calls| ==> !calls[i].Counting?
    ensures Total(calls, HasPushed) == Total(calls, HasCounted)
  {
    if calls != [] {
      PushedAreCounted(calls[..|calls| - 1]);
    }
  }

  /** No call and not the send thread is between a message's fate and its counter. */
  ghost predicate Quiet(s: State) {
    && (forall i :: 0 <= i < |s.calls| ==> !s.calls[i].Counting?)
    && !s.sender.Sending? && s.sender != CountingSent && s.sender != CountingError
  }

  /**
   At quiescence every accepted message has been sent, has failed or is queued, and the
   counters are as coded: a message that is sent is counted twice, once when it was accepted,
   and an error is a failed send or a failed recv. A reset takes away what was counted before.
   */
  lemma QuietCounters(size: nat, tr: seq<State>, k: nat)
    requires Run(size, tr) && k < |tr| && Quiet(tr[k])
    ensures var s := tr[k];
      && s.successes + s.failures + |s.queue| == |s.accepted|
      && s.messagesSent + s.sentZeroed == |s.accepted| + s.successes
      && s.bytesSent == size * s.messagesSent
      && s.errors + s.errorsZeroed == s.failures + s.receiveFailures
      && (s.resets == 0 ==> s.messagesSent == |s.accepted| + s.successes && s.errors == s.failures + s.receiveFailures)
  {
    RunInv(size, tr, k);
    PushedAreCounted(tr[k].calls);
  }

  /**
   The send thread takes the first message of the queue, and only while it holds the mutex and
   the client is connected; it goes on from its wait only while the client runs; and while it
   holds the mutex nobody else changes the queue.
   */
  lemma SenderTakes(size: nat, tr: seq<State>, k: nat)
    requires Piece(size, tr) && k + 1 < |tr|
    ensures var s, t := tr[k], tr[k + 1];
      && (t.sender.Sending? && !s.sender.Sending? ==>
            s.connected && s.sender == Locked && s.queue == [t.sender.msg] + t.queue)
      && (s.sender == Waiting && t.sender == Locked ==> s.running)
      && (s.sender == Locked && t.sender == Locked ==> t.queue == s.queue && t.accepted == s.accepted)
  {
    assert Steps(size, tr[k], tr[k + 1]);
  }

  // The code of the two sides of the queue.

  /** What happens while the send thread sends one message with the mutex released. */
  datatype Pass = Pass(connected: bool, sent: bool, pushedMeanwhile: seq<Message>)

  function Pushed(passes: seq<Pass>): seq<Message> {
    if passes == [] then [] else Pushed(passes[..|passes| - 1]) + passes[|passes| - 1].pushedMeanwhile
  }

  function IsSent(x: Pass): int { if x.sent then 1 else 0 }

  ghost function Last(tr: seq<State>): State
    requires tr != []
  {
    tr[|tr| - 1]
  }

  ghost predicate Leads(size: nat, tr: seq<State>, from: State, to: State) {
    Piece(size, tr) && tr[0] == from && Last(tr) == to
  }

  lemma Extend(size: nat, tr: seq<State>, l: Step) returns (longer: seq<State>)
    requires Piece(size, tr) && Enabled(Last(tr), l)
    ensures Leads(size, longer, tr[0], Next(size, Last(tr), l))
  {
    longer := tr + [Next(size, Last(tr), l)];
    assert Steps(size, Last(tr), Last(longer));
  }

  /** Another thread pushes a message, and has yet to count it. */
  lemma OthersPush(size: nat, tr: seq<State>, msg: Message) returns (longer: seq<State>)
    requires Piece(size, tr) && Last(tr).sender != Locked
    ensures var s := Last(tr);
      Leads(size, longer, tr[0], s.(connected := true, calls := s.calls + [Counting],
                                    queue := s.queue + [msg], accepted := s.accepted + [msg]))
  {
    var s := Last(tr);
    var n := |s.calls|;
    longer := Extend(size, tr, SetConnected(true));
    longer := Extend(size, longer, Arrive(msg));
    longer := Extend(size, longer, Call(n));
    assert Last(longer).calls == s.calls + [Enqueuing(msg)];
    longer := Extend(size, longer, Call(n));
    assert Last(longer).calls == s.calls + [Counting];
  }

  /** What others pushing messages leaves as it was: the send thread's side. */
  ghost predicate OnlyPushed(s: State, t: State, messages: seq<Message>) {
    && t == s.(connected := t.connected, calls := t.calls, queue := s.queue + messages, accepted := s.accepted + messages)
  }

  lemma {:induction false} OthersPushAll(size: nat, tr: seq<State>, messages: seq<Message>) returns (longer: seq<State>)
    requires Piece(size, tr) && Last(tr).sender != Locked
    ensures Piece(size, longer) && longer[0] == tr[0] && OnlyPushed(Last(tr), Last(longer), messages)
  {
    longer := tr;
    if messages == [] {
      assert Last(tr).queue + [] == Last(tr).queue && Last(tr).accepted + [] == Last(tr).accepted;
    } else {
      var last := |messages| - 1;
      longer := OthersPushAll(size, tr, messages[..last]);
      longer := OthersPush(size, longer, messages[last]);
      assert messages == messages[..last] + [messages[last]];
    }
  }

  /** The send thread's state after one pass through the drain loop. */
  ghost predicate AfterPass(size: nat, s: State, pass: Pass, t: State)
    requires s.queue != []
  {
    && t.sender == Locked && t.running == s.running
    && t.queue == s.queue[1..] + pass.pushedMeanwhile && t.accepted == s.accepted + pass.pushedMeanwhile
    && t.handed == s.handed + [s.queue[0]]
    && t.messagesSent == s.messagesSent + IsSent(pass) && t.bytesSent == s.bytesSent + size * IsSent(pass)
    && t.errors == s.errors + 1 - IsSent(pass)
  }

  /** The state s at the head of the drain loop, after k passes that started in `first`. */
  ghost predicate Drained(size: nat, first: State, passes: seq<Pass>, k: nat, handed: seq<Message>, s: State)
    requires k <= |passes|
  {
    && s.sender == Locked && s.running == first.running && |handed| == k
    && first.queue + Pushed(passes[..k]) == handed + s.queue
    && s.handed == first.handed + handed && s.accepted == first.accepted + Pushed(passes[..k])
    && s.messagesSent == first.messagesSent + Total(passes[..k], IsSent)
    && s.bytesSent == first.bytesSent + size * Total(passes[..k], IsSent)
    && s.errors == first.errors + k - Total(passes[..k], IsSent)
  }

  lemma DrainedFurther(size: nat, first: State, passes: seq<Pass>, k: nat, handed: seq<Message>, s: State, t: State)
    requires k < |passes| && Drained(size, first, passes, k, handed, s)
    requires s.queue != [] && AfterPass(size, s, passes[k], t)
    ensures Drained(size, first, passes, k + 1, handed + [s.queue[0]], t)
  {
    var now, later := passes[..k], passes[..k + 1];
    assert later[..k] == now;
    assert s.queue == [s.queue[0]] + s.queue[1..];
    assert first.queue + Pushed(later) == (first.queue + Pushed(now)) + passes[k].pushedMeanwhile;
    assert size * (Total(now, IsSent) + IsSent(passes[k])) == size * Total(now, IsSent) + size * IsSent(passes[k]);
  }

  /** One pass through the drain loop is a piece of a run. */
  lemma OnePass(size: nat, tr: seq<State>, pass: Pass) returns (longer: seq<State>)
    requires Piece(size, tr) && Last(tr).sender == Locked && Last(tr).queue != [] && pass.connected
    ensures Piece(size, longer) && longer[0] == tr[0] && AfterPass(size, Last(tr), pass, Last(longer))
  {
    longer := Extend(size, tr, SetConnected(pass.connected));
    longer := Extend(size, longer, Drain(pass.sent));
    longer := Extend(size, longer, Drain(pass.sent));
    longer := Extend(size, longer, Drain(pass.sent));
    longer := OthersPushAll(size, longer, pass.pushedMeanwhile);
    longer := Extend(size, longer, Drain(pass.sent));
  }

  /** The loop ends when the queue is empty or the client is not connected. */
  lemma LeaveLoop(size: nat, tr: seq<State>) returns (longer: seq<State>)
    requires Piece(size, tr) && Last(tr).sender == Locked
    ensures var s := Last(tr);
      Leads(size, longer, tr[0], s.(connected := s.queue == [] && s.connected,
                                    sender := if s.running then Waiting else Stopped))
  {
    longer := tr;
    if Last(tr).queue != [] {
      longer := Extend(size, tr, SetConnected(false));
    }
    longer := Extend(size, longer, Drain(false));
  }

  /** One call of send_message, from its start to its end. */
  lemma OneCall(size: nat, s: State, msg: Message) returns (tr: seq<State>)
    requires s.sender != Locked
    ensures Leads(size, tr, s,
      if s.connected then
        s.(calls := s.calls + [Accepted], queue := s.queue + [msg], accepted := s.accepted + [msg],
           messagesSent := s.messagesSent + 1, bytesSent := s.bytesSent + size)
      else s.(calls := s.calls + [Refused]))
  {
    var n := |s.calls|;
    tr := Extend(size, [s], Arrive(msg));
    tr := Extend(size, tr, Call(n));
    if s.connected {
      tr := Extend(size, tr, Call(n));
      tr := Extend(size, tr, Call(n));
      assert Last(tr).calls == s.calls + [Accepted];
    } else {
      assert Last(tr).calls == s.calls + [Refused];
    }
  }

  /** A message is accepted while the client is connected, and waits for the send thread. */
  lemma OneMessageAccepted(size: nat, msg: Message) returns (tr: seq<State>)
    ensures Leads(size, tr, Initial(),
      State(true, true, [Accepted], Waiting, [msg], 1, size, 0, [msg], [], 0, 0, 0, 0, 0, 0))
  {
    tr := Extend(size, [Initial()], Start);
    tr := Extend(size, tr, SetConnected(true));
    tr := Extend(size, tr, Arrive(msg));
    tr := Extend(size, tr, Call(0));
    tr := Extend(size, tr, Call(0));
    tr := Extend(size, tr, Call(0));
  }

  /** It is sent, and counted once more; then the client is stopped. */
  lemma OneMessageSent(size: nat, msg: Message) returns (tr: seq<State>)
    ensures Leads(size, tr, Initial(),
      State(true, false, [Accepted], Stopped, [], 2, size + size, 0, [msg], [msg], 1, 0, 0, 0, 0, 0))
  {
    tr := OneMessageAccepted(size, msg);
    tr := Extend(size, tr, Drain(true));
    tr := Extend(size, tr, Drain(true));
    tr := Extend(size, tr, Drain(true));
    tr := Extend(size, tr, Drain(true));
    tr := Extend(size, tr, Drain(true));
    tr := Extend(size, tr, Drain(true));
    tr := Extend(size, tr, Stop);
    tr := Extend(size, tr, Drain(true));
  }

  class Client {
    var queue: seq<Message>
    var messagesSent: nat
    var bytesSent: nat
    var errors: nat

    constructor ()
      ensures queue == [] && messagesSent == bytesSent == errors == 0
    {
      queue, messagesSent, bytesSent, errors := [], 0, 0, 0;
    }

    /** The variables of the client are those of the state. */
    ghost predicate Matches(s: State)
      reads this
    {
      queue == s.queue && messagesSent == s.messagesSent && bytesSent == s.bytesSent && errors == s.errors
    }

    /**
     send_message: accepts exactly when the client is connected, and counts at once. Without
     interference the call is a piece of a run.
     */
    method SendMessage(size: nat, msg: Message, connected: bool, ghost first: State)
      returns (accepted: bool, ghost tr: seq<State>)
      requires Matches(first) && first.connected == connected && first.sender != Locked
      modifies this
      ensures Piece(size, tr) && tr[0] == first && Matches(Last(tr))
      ensures Last(tr).accepted == first.accepted + (if accepted then [msg] else [])
      ensures accepted == connected
      ensures queue == old(queue) + (if accepted then [msg] else [])
      ensures messagesSent == old(messagesSent) + if accepted then 1 else 0
      ensures bytesSent == old(bytesSent) + if accepted then size else 0
      ensures errors == old(errors)
    {
      tr := OneCall(size, first, msg);
      if !connected {
        accepted := false;
        return;
      }
      queue := queue + [msg];
      messagesSent := messagesSent + 1;
      bytesSent := bytesSent + size;
      accepted := true;
    }

    /** After send_data, under the statistics mutex. */
    method Count(size: nat, pass: Pass)
      modifies this`messagesSent, this`bytesSent, this`errors
      ensures messagesSent == old(messagesSent) + IsSent(pass)
      ensures errors == old(errors) + 1 - IsSent(pass)
      ensures bytesSent == old(bytesSent) + size * IsSent(pass)
    {
      if pass.sent {
        messagesSent := messagesSent + 1;
        bytesSent := bytesSent + size;
      } else {
        errors := errors + 1;
      }
    }

    /**
     One pass through the drain loop: takes the front message, lets the mutex go, sends and
     counts it, and takes the mutex again.
     */
    method SendFront(size: nat, pass: Pass, ghost tr: seq<State>)
      returns (msg: Message, ghost longer: seq<State>)
      requires pass.connected && queue != []
      requires Piece(size, tr) && Matches(Last(tr)) && Last(tr).sender == Locked
      modifies this
      ensures msg == old(queue)[0] && queue == old(queue)[1..] + pass.pushedMeanwhile
      ensures messagesSent == old(messagesSent) + if pass.sent then 1 else 0
      ensures errors == old(errors) + if pass.sent then 0 else 1
      ensures Piece(size, longer) && longer[0] == tr[0] && Matches(Last(longer))
      ensures AfterPass(size, Last(tr), pass, Last(longer))
    {
      longer := OnePass(size, tr, pass);
      msg := queue[0];
      queue := queue[1..];
      // the mutex is released here, and taken again below
      Count(size, pass);
      queue := queue + pass.pushedMeanwhile;
    }

    /**
     The drain loop of send_thread_func, from the moment it holds the mutex until it leaves
     the loop; once `passes` is used up the client is disconnected. Whatever is pushed while
     the mutex is released, the messages handed out are the first ones, in order; and the loop
     is a piece of a run.
     */
    method DrainLoop(size: nat, passes: seq<Pass>, ghost first: State)
      returns (handed: seq<Message>, k: nat, ghost tr: seq<State>)
      requires Matches(first) && first.sender == Locked
      modifies this
      ensures k == |handed| <= |passes| && forall j :: 0 <= j < k ==> passes[j].connected
      ensures old(queue) + Pushed(passes[..k]) == handed + queue
      ensures queue == [] || k == |passes| || !passes[k].connected
      ensures messagesSent == old(messagesSent) + Total(passes[..k], IsSent)
      ensures bytesSent == old(bytesSent) + size * Total(passes[..k], IsSent)
      ensures errors == old(errors) + k - Total(passes[..k], IsSent)
      ensures Piece(size, tr) && tr[0] == first && Matches(Last(tr))
      ensures Last(tr).sender == if first.running then Waiting else Stopped
      ensures Last(tr).handed == first.handed + handed
      ensures Last(tr).accepted == first.accepted + Pushed(passes[..k])
    {
      handed, k, tr := [], 0, [first];
      while queue != [] && k < |passes| && passes[k].connected
        invariant Piece(size, tr) && tr[0] == first && Matches(Last(tr))
        invariant k <= |passes| && forall j :: 0 <= j < k ==> passes[j].connected
        invariant Drained(size, first, passes, k, handed, Last(tr))
        decreases |passes| - k
      {
        var msg;
        ghost var s := Last(tr);
        msg, tr := SendFront(size, passes[k], tr);
        DrainedFurther(size, first, passes, k, handed, s, Last(tr));
        handed := handed + [msg];
        k := k + 1;
      }
      tr := LeaveLoop(size, tr);
    }
  }
}
