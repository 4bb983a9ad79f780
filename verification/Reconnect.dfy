/** The connection state machine of the full client, for calls that do not overlap. */
module Reconnect {

  datatype ConnectionState = Disconnected | Connecting | Connected | Reconnecting | Error

  /** How one connect goes: where it fails, or the descriptor of the new socket. */
  datatype Outcome =
    | NoSocket
    | BadAddress(fd: nat)
    | Refused(fd: nat)
    | TimedOut(fd: nat)
    | SocketError(fd: nat)
    | Success(fd: nat)

  /** One round of attempt_reconnection, and the auto-reconnect flag after the sleep that follows. */
  datatype Attempt = Attempt(outcome: Outcome, flag: bool)

  /** The fields, and how many sockets have ever been opened and closed. */
  datatype Client = Client(
    state: ConnectionState, socketFd: int, autoReconnect: bool,
    connectionAttempts: nat, reconnectionAttempts: nat,
    opens: nat, closes: nat)

  function AfterConnect(c: Client, o: Outcome): Client {
    if c.state == Connected then c
    else match o
      case NoSocket => c.(state := Error, socketFd := -1)
      case Success(fd) =>
        c.(state := Connected, socketFd := fd, opens := c.opens + 1, connectionAttempts := c.connectionAttempts + 1)
      case _ => c.(state := Error, socketFd := -1, opens := c.opens + 1, closes := c.closes + 1)
  }

  function AfterClose(c: Client): Client {
    if c.socketFd == -1 then c else c.(socketFd := -1, closes := c.closes + 1)
  }

  function AfterDisconnect(c: Client): Client {
    if c.state == Disconnected then c else AfterClose(c.(state := Disconnected))
  }

  /** A round that ends the recursion: it connects, or it fails and the flag is off afterwards. */
  predicate Decides(a: Attempt) { a.outcome.Success? || !a.flag }

  /** The recursion comes to its end within these rounds. */
  predicate Ends(rounds: seq<Attempt>) {
    rounds != [] && (Decides(rounds[0]) || Ends(rounds[1..]))
  }

  function AfterAttempts(c: Client, rounds: seq<Attempt>): Client
    requires Ends(rounds)
    decreases |rounds|
  {
    var tried := AfterConnect(c.(reconnectionAttempts := c.reconnectionAttempts + 1), rounds[0].outcome);
    if tried.state == Connected then tried
    else
      var slept := tried.(autoReconnect := rounds[0].flag);
      if Decides(rounds[0]) then slept else AfterAttempts(slept, rounds[1..])
  }

  function AfterDisconnection(c: Client, rounds: seq<Attempt>): Client
    requires Ends(rounds)
  {
    if c.state == Disconnected then c
    else
      var closed := AfterClose(c.(state := Disconnected));
      if closed.autoReconnect then AfterAttempts(closed.(state := Reconnecting), rounds) else closed
  }

  datatype Call =
    | DoConnect(outcome: Outcome)
    | DoDisconnect
    | DoHandleDisconnection(rounds: seq<Attempt>)
    | SetAutoReconnect(flag: bool)

  predicate Possible(call: Call) {
    call.DoHandleDisconnection? ==> Ends(call.rounds)
  }

  function Apply(c: Client, call: Call): Client
    requires Possible(call)
  {
    match call
    case DoConnect(o) => AfterConnect(c, o)
    case DoDisconnect => AfterDisconnect(c)
    case DoHandleDisconnection(rounds) => AfterDisconnection(c, rounds)
    case SetAutoReconnect(flag) => c.(autoReconnect := flag)
  }

  function Run(c: Client, calls: seq<Call>): Client
    requires forall i :: 0 <= i < |calls| ==> Possible(calls[i])
    decreases |calls|
  {
    if calls == [] then c else Run(Apply(c, calls[0]), calls[1..])
  }

  const FRESH: Client := Client(Disconnected, -1, true, 0, 0, 0, 0)

  /** Holds a socket exactly when connected, and has closed all others. */
  predicate Consistent(c: Client) {
    && (c.state == Connected || c.state == Disconnected || c.state == Error)
    && (c.state == Connected <==> c.socketFd != -1)
    && c.opens - c.closes == (if c.state == Connected then 1 else 0)
  }

  /** What holds inside handle_disconnection, before the first attempt. */
  predicate Retrying(c: Client) {
    c.state != Connected && c.socketFd == -1 && c.opens == c.closes
  }

  lemma {:induction false} AttemptsAreConsistent(c: Client, rounds: seq<Attempt>)
    requires Retrying(c) && Ends(rounds)
    ensures Consistent(AfterAttempts(c, rounds))
    decreases |rounds|
  {
    var tried := AfterConnect(c.(reconnectionAttempts := c.reconnectionAttempts + 1), rounds[0].outcome);
    if tried.state != Connected && !Decides(rounds[0]) {
      AttemptsAreConsistent(tried.(autoReconnect := rounds[0].flag), rounds[1..]);
    }
  }

  /** After every sequence of calls, the client is connected exactly when it holds a socket. */
  lemma {:induction false} ConnectedIffSocket(c: Client, calls: seq<Call>)
    requires Consistent(c) && forall i :: 0 <= i < |calls| ==> Possible(calls[i])
    ensures Consistent(Run(c, calls))
    decreases |calls|
  {
    if calls != [] {
      if calls[0].DoHandleDisconnection? && c.state != Disconnected && c.autoReconnect {
        AttemptsAreConsistent(AfterClose(c.(state := Disconnected)).(state := Reconnecting), calls[0].rounds);
      }
      ConnectedIffSocket(Apply(c, calls[0]), calls[1..]);
    }
  }

  /** The round that ends the recursion. */
  function Deciding(rounds: seq<Attempt>): (n: nat)
    requires Ends(rounds)
    ensures n < |rounds| && (rounds[n].outcome.Success? || !rounds[n].flag)
    ensures forall k :: 0 <= k < n ==> !rounds[k].outcome.Success? && rounds[k].flag
    decreases |rounds|
  {
    if Decides(rounds[0]) then 0 else 1 + Deciding(rounds[1..])
  }

  /** The rounds that open a socket. */
  function Sockets(rounds: seq<Attempt>): nat {
    if rounds == [] then 0 else (if rounds[0].outcome.NoSocket? then 0 else 1) + Sockets(rounds[1..])
  }

  lemma {:induction false} AttemptsOutcome(c: Client, rounds: seq<Attempt>)
    requires Retrying(c) && Ends(rounds)
    ensures var n, t := Deciding(rounds), AfterAttempts(c, rounds);
      && t.reconnectionAttempts == c.reconnectionAttempts + n + 1
      && t.autoReconnect == (if !rounds[n].outcome.Success? then false else if n == 0 then c.autoReconnect else true)
      && t.opens == c.opens + Sockets(rounds[..n + 1])
      && if rounds[n].outcome.Success?
         then t.state == Connected && t.socketFd == rounds[n].outcome.fd && t.connectionAttempts == c.connectionAttempts + 1
         else t.state == Error && t.socketFd == -1 && t.connectionAttempts == c.connectionAttempts
    decreases |rounds|
  {
    var tried := AfterConnect(c.(reconnectionAttempts := c.reconnectionAttempts + 1), rounds[0].outcome);
    if tried.state != Connected && !Decides(rounds[0]) {
      AttemptsOutcome(tried.(autoReconnect := rounds[0].flag), rounds[1..]);
      assert rounds[..Deciding(rounds) + 1][1..] == rounds[1..][..Deciding(rounds[1..]) + 1];
    } else {
      assert rounds[..1][1..] == [];
    }
  }

  /**
   A lost connection, or one that was in error, is retried until the first round n that succeeds or finds the flag off:
   n + 1 reconnection attempts are counted. The client ends connected, with one more
   connection attempt counted, if and only if that round succeeds; otherwise in error, without
   a socket. The old socket is closed in any case.
   */
  lemma ReconnectsExactlyWhenARoundSucceeds(c: Client, rounds: seq<Attempt>)
    requires Consistent(c) && c.state != Disconnected && c.autoReconnect && Ends(rounds)
    ensures var n, t := Deciding(rounds), AfterDisconnection(c, rounds);
      && t.reconnectionAttempts == c.reconnectionAttempts + n + 1
      && t.opens == c.opens + Sockets(rounds[..n + 1])
      && (t.state == Connected <==> rounds[n].outcome.Success?)
      && (t.state == Connected ==> t.connectionAttempts == c.connectionAttempts + 1 && t.socketFd == rounds[n].outcome.fd)
      && (t.state != Connected ==> t.state == Error && t.socketFd == -1 && t.connectionAttempts == c.connectionAttempts)
      && Consistent(t)
  {
    var closed := AfterClose(c.(state := Disconnected)).(state := Reconnecting);
    AttemptsOutcome(closed, rounds);
    AttemptsAreConsistent(closed, rounds);
  }

  /** The recursion has come to its end within these rounds if and only if one of them decides. */
  lemma {:induction false} EndsIffSomeRoundDecides(rounds: seq<Attempt>)
    ensures Ends(rounds) <==> exists n :: 0 <= n < |rounds| && (rounds[n].outcome.Success? || !rounds[n].flag)
    decreases |rounds|
  {
    if rounds != [] && !Decides(rounds[0]) {
      EndsIffSomeRoundDecides(rounds[1..]);
      if n :| 0 <= n < |rounds| && Decides(rounds[n]) {
        assert rounds[1..][n - 1] == rounds[n];
      }
      if n :| 0 <= n < |rounds[1..]| && Decides(rounds[1..][n]) {
        assert rounds[n + 1] == rounds[1..][n];
      }
    }
  }

  /** Turning reconnection off before the connection is lost: the client gives up at once. */
  lemma NoRetryWhenTurnedOff(c: Client, rounds: seq<Attempt>)
    requires Consistent(c) && c.state == Connected && Ends(rounds)
    ensures var t := Run(c, [SetAutoReconnect(false), DoHandleDisconnection(rounds)]);
      t == c.(state := Disconnected, socketFd := -1, autoReconnect := false, closes := c.closes + 1)
  {
    var calls := [SetAutoReconnect(false), DoHandleDisconnection(rounds)];
    var off := c.(autoReconnect := false);
    assert calls[1..] == [DoHandleDisconnection(rounds)] && calls[1..][1..] == [];
    assert Run(c, calls) == Run(off, calls[1..]) == Run(AfterDisconnection(off, rounds), []);
  }

  /** With reconnection on again, and a server that answers at once, the client is connected anew. */
  lemma RetriesWhenTurnedOn(c: Client, fd: nat, flag: bool)
    requires Consistent(c) && c.state == Connected
    ensures var t := Run(c, [SetAutoReconnect(true), DoHandleDisconnection([Attempt(Success(fd), flag)])]);
      t == Client(Connected, fd, true, c.connectionAttempts + 1, c.reconnectionAttempts + 1, c.opens + 1, c.closes + 1)
  {
    var rounds := [Attempt(Success(fd), flag)];
    var calls := [SetAutoReconnect(true), DoHandleDisconnection(rounds)];
    var on := c.(autoReconnect := true);
    assert calls[1..] == [DoHandleDisconnection(rounds)] && calls[1..][1..] == [];
    assert Run(c, calls) == Run(on, calls[1..]) == Run(AfterDisconnection(on, rounds), []);
  }

  class TcpClient {
    var state: ConnectionState
    var socketFd: int
    var autoReconnect: bool
    var connectionAttempts: nat
    var reconnectionAttempts: nat
    ghost var opens: nat
    ghost var closes: nat

    ghost function View(): Client
      reads this
    {
      Client(state, socketFd, autoReconnect, connectionAttempts, reconnectionAttempts, opens, closes)
    }

    constructor ()
      ensures View() == FRESH == Client(Disconnected, -1, true, 0, 0, 0, 0)
    {
      state, socketFd, autoReconnect, connectionAttempts, reconnectionAttempts := Disconnected, -1, true, 0, 0;
      opens, closes := 0, 0;
    }

    method Fail()
      requires socketFd != -1
      modifies this`state, this`socketFd, this`closes
      ensures state == Error && socketFd == -1 && closes == old(closes) + 1
    {
      closes := closes + 1;
      socketFd := -1;
      state := Error;
    }

    method Connect(o: Outcome) returns (ok: bool)
      modifies this
      ensures View() == AfterConnect(old(View()), o)
      ensures ok <==> state == Connected
      ensures old(state) == Connected ==> View() == old(View())
      ensures old(state) != Connected ==>
        && state == (if o.Success? then Connected else Error)
        && socketFd == (if o.Success? then o.fd else -1)
        && opens == old(opens) + (if o.NoSocket? then 0 else 1)
        && closes == old(closes) + (if o.NoSocket? || o.Success? then 0 else 1)
        && connectionAttempts == old(connectionAttempts) + (if o.Success? then 1 else 0)
      ensures autoReconnect == old(autoReconnect) && reconnectionAttempts == old(reconnectionAttempts)
    {
      if state == Connected {
        return true;
      }
      state := Connecting;
      socketFd := if o.NoSocket? then -1 else o.fd;
      if socketFd == -1 {
        state := Error;
        return false;
      }
      opens := opens + 1;
      if o.BadAddress? {
        Fail();
        return false;
      }
      if o.Refused? {
        Fail();
        return false;
      }
      if o.TimedOut? {
        Fail();
        return false;
      }
      if o.SocketError? {
        Fail();
        return false;
      }
      state := Connected;
      connectionAttempts := connectionAttempts + 1;
      return true;
    }

    method CloseSocket()
      modifies this`socketFd, this`closes
      ensures View() == AfterClose(old(View()))
      ensures socketFd == -1 && closes == old(closes) + (if old(socketFd) == -1 then 0 else 1)
    {
      if socketFd != -1 {
        closes := closes + 1;
        socketFd := -1;
      }
    }

    method Disconnect()
      modifies this
      ensures View() == AfterDisconnect(old(View()))
      ensures state == Disconnected
      ensures old(state) == Disconnected ==> View() == old(View())
      ensures old(state) != Disconnected ==> socketFd == -1 && closes == old(closes) + (if old(socketFd) == -1 then 0 else 1)
      ensures autoReconnect == old(autoReconnect) && opens == old(opens)
      ensures connectionAttempts == old(connectionAttempts) && reconnectionAttempts == old(reconnectionAttempts)
    {
      if state == Disconnected {
        return;
      }
      state := Disconnected;
      CloseSocket();
    }

    method HandleDisconnection(rounds: seq<Attempt>)
      requires Ends(rounds)
      modifies this
      ensures View() == AfterDisconnection(old(View()), rounds)
      ensures old(state) == Disconnected ==> View() == old(View())
      ensures old(state) != Disconnected && !old(autoReconnect) ==>
        View() == old(View()).(state := Disconnected, socketFd := -1,
                               closes := old(closes) + if old(socketFd) == -1 then 0 else 1)
    {
      if state == Disconnected {
        return;
      }
      state := Disconnected;
      CloseSocket();
      if autoReconnect {
        state := Reconnecting;
        AttemptReconnection(rounds);
      }
    }

    /** The recursive retry; the flag may be set by another thread while this one sleeps. */
    method AttemptReconnection(rounds: seq<Attempt>)
      requires Ends(rounds)
      modifies this
      ensures View() == AfterAttempts(old(View()), rounds)
      decreases |rounds|
    {
      reconnectionAttempts := reconnectionAttempts + 1;
      var ok := Connect(rounds[0].outcome);
      if !ok {
        autoReconnect := rounds[0].flag;
        if autoReconnect {
          AttemptReconnection(rounds[1..]);
        }
      }
    }
  }
}
