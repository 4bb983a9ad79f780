/**
 The server's table of connections, its epoll registrations, the raw pointers in an event
 batch, and the descriptors it owns, for one worker thread. The kernel may give a descriptor
 out again as soon as it is closed, and the allocator an address as soon as it is free.
 */
module ServerTable {

  /** The address of a Connection object. */
  type Address = nat

  /** An epoll event. The program sees the pointer only: null for the listening socket. */
  datatype Event = ServerReady | ClientReady(fd: int, ptr: Address)

  /** `registered` maps the client descriptors in the epoll set to the pointer stored with them. */
  datatype Kernel = Kernel(open: set<int>, registered: map<int, Address>, opens: nat, closes: nat, badCloses: nat)

  function OpenFd(k: Kernel, fd: int): Kernel {
    k.(open := k.open + {fd}, opens := k.opens + 1)
  }

  /** close(fd): also takes the descriptor out of the epoll set; counts a close of what is not open. */
  function CloseFd(k: Kernel, fd: int): Kernel {
    if fd in k.open then k.(open := k.open - {fd}, registered := k.registered - {fd}, closes := k.closes + 1)
    else k.(badCloses := k.badCloses + 1)
  }

  /** The server's own fields; `heap` holds the fd field of each live Connection object. */
  datatype Server = Server(
    running: bool, serverSocket: int, epollFd: int,
    connections: map<int, Address>, heap: map<Address, int>,
    totalConnections: nat, peakConnections: nat,
    kernel: Kernel)

  /** close_connection on the object at `ptr`. */
  function CloseConnection(s: Server, ptr: Address): Server
    requires ptr in s.heap
  {
    var fd := s.heap[ptr];
    s.(kernel := CloseFd(s.kernel.(registered := s.kernel.registered - {fd}), fd),
       connections := s.connections - {fd},
       heap := if fd in s.connections then s.heap - {s.connections[fd]} else s.heap)
  }

  /** accept_connections when accept returns `fd` and the object is allocated at `ptr`. */
  function AcceptConnection(s: Server, fd: int, ptr: Address, added: bool): Server {
    var k := OpenFd(s.kernel, fd);
    if !added then s.(kernel := CloseFd(k, fd))
    else
      var connections := s.connections[fd := ptr];
      s.(kernel := k.(registered := k.registered[fd := ptr]),
         connections := connections,
         heap := s.heap[ptr := fd],
         totalConnections := s.totalConnections + 1,
         peakConnections := if s.peakConnections < |connections| then |connections| else s.peakConnections)
  }

  /** handle_client_events for the event's object; `eof` tells whether the peer has closed. */
  function HandleClient(s: Server, ptr: Address, eof: bool): Server
    requires ptr in s.heap
  {
    var fd := s.heap[ptr];
    if fd !in s.connections || !eof || s.connections[fd] !in s.heap then s
    else CloseConnection(s, s.connections[fd])
  }

  /** stop, up to the joining of the worker, and after it. */
  function BeginStop(s: Server): Server {
    s.(running := false, serverSocket := -1,
       kernel := if s.serverSocket != -1 then CloseFd(s.kernel, s.serverSocket) else s.kernel)
  }

  function CloseAll(k: Kernel, fds: set<int>): Kernel {
    if fds <= k.open then k.(open := k.open - fds, registered := k.registered - fds, closes := k.closes + |fds|)
    else k.(badCloses := k.badCloses + 1)
  }

  function EndStop(s: Server): Server {
    var k := if s.epollFd != -1 then CloseFd(s.kernel, s.epollFd) else s.kernel;
    s.(epollFd := -1, kernel := CloseAll(k, s.connections.Keys), connections := map[], heap := map[])
  }

  /**
   The server, what its worker has left of the current batch, and the past: how often a
   connection was stored and erased, and whether a pointer to a freed object was ever followed.
   */
  datatype State = State(server: Server, batch: seq<Event>, accepted: nat, erased: nat, dangling: bool)

  datatype Step =
    | Wait(events: seq<Event>)
    | Accept(fd: int, ptr: Address, added: bool)
    | AcceptFails
    | Client(eof: bool)
    | BeginStopping
    | EndStopping

  /** epoll_wait reports each registered descriptor at most once, with its stored pointer. */
  predicate Reported(registered: map<int, Address>, events: seq<Event>) {
    && (forall i :: 0 <= i < |events| && events[i].ClientReady? ==>
          events[i].fd in registered && registered[events[i].fd] == events[i].ptr)
    && forall i, j :: 0 <= i < j < |events| && events[i].ClientReady? && events[j].ClientReady? ==>
          events[i].fd != events[j].fd
  }

  ghost predicate Enabled(s: State, l: Step) {
    match l
    case Wait(events) => s.server.running && s.batch == [] && Reported(s.server.kernel.registered, events)
    case Accept(fd, ptr, _) =>
      && s.batch != [] && s.batch[0].ServerReady? && s.server.serverSocket != -1
      && 0 <= fd && fd !in s.server.kernel.open && ptr !in s.server.heap
    case AcceptFails => s.batch != [] && s.batch[0].ServerReady?
    case Client(_) => s.batch != [] && s.batch[0].ClientReady?
    case BeginStopping => s.server.running
    case EndStopping => !s.server.running && s.server.epollFd != -1 && s.batch == []
  }

  ghost function Next(s: State, l: Step): State
    requires Enabled(s, l)
  {
    match l
    case Wait(events) => s.(batch := events)
    case Accept(fd, ptr, added) =>
      var server := AcceptConnection(s.server, fd, ptr, added);
      s.(server := server, batch := s.batch[1..],
         accepted := if added then s.accepted + 1 else s.accepted)
    case AcceptFails => s.(batch := s.batch[1..])
    case Client(eof) =>
      var ptr := s.batch[0].ptr;
      if ptr !in s.server.heap then s.(batch := s.batch[1..], dangling := true)
      else
        var server := HandleClient(s.server, ptr, eof);
        s.(server := server, batch := s.batch[1..],
           erased := if eof then s.erased + 1 else s.erased)
    case BeginStopping => s.(server := BeginStop(s.server))
    case EndStopping => s.(server := EndStop(s.server))
  }

  /** After a successful initialize and a start: two descriptors and an empty table. */
  ghost predicate Started(s: Server) {
    && s.running && 0 <= s.serverSocket && 0 <= s.epollFd && s.serverSocket != s.epollFd
    && s.connections == map[] && s.heap == map[] && s.totalConnections == s.peakConnections == 0
    && s.kernel == Kernel({s.serverSocket, s.epollFd}, map[], s.kernel.opens, s.kernel.closes, 0)
    && s.kernel.opens == s.kernel.closes + 2
  }

  ghost predicate Initial(s: State) {
    Started(s.server) && s == State(s.server, [], 0, 0, false)
  }

  ghost predicate Steps(s: State, t: State) {
    exists l :: Enabled(s, l) && t == Next(s, l)
  }

  /** A piece of a run, from any state. */
  ghost predicate Piece(tr: seq<State>) {
    tr != [] && forall k :: 0 <= k < |tr| - 1 ==> Steps(tr[k], tr[k + 1])
  }

  ghost predicate Run(tr: seq<State>) {
    Piece(tr) && Initial(tr[0])
  }

  lemma PieceExtends(tr: seq<State>, t: State)
    requires Piece(tr) && Steps(tr[|tr| - 1], t)
    ensures Piece(tr + [t])
  {
  }

  // The invariant.

  /** Table and objects are each other's inverse, and epoll holds the same pointers as the table. */
  ghost predicate TableInv(s: Server) {
    && (forall fd :: fd in s.connections ==> s.connections[fd] in s.heap && s.heap[s.connections[fd]] == fd)
    && (forall p :: p in s.heap ==> s.heap[p] in s.connections && s.connections[s.heap[p]] == p)
    && s.kernel.registered == s.connections
  }

  ghost predicate CountOk(k: Kernel) {
    k.badCloses == 0 && k.opens == k.closes + |k.open|
  }

  /** A descriptor is open exactly if the server holds it, in one of its fields or as a key. */
  ghost predicate FdInv(s: Server) {
    && (forall fd :: fd in s.kernel.open <==>
          (fd != -1 && (fd == s.serverSocket || fd == s.epollFd)) || fd in s.connections)
    && s.serverSocket !in s.connections && s.epollFd !in s.connections && -1 !in s.connections
    && (s.serverSocket == s.epollFd ==> s.serverSocket == -1)
    && (if s.running then s.serverSocket != -1 && s.epollFd != -1 else s.serverSocket == -1)
  }

  /** Until the server stops, the table holds what was accepted and not erased. */
  ghost predicate CounterInv(s: State) {
    && s.server.totalConnections == s.accepted
    && s.erased <= s.accepted
    && |s.server.connections| <= s.server.peakConnections <= s.accepted
    && (s.server.epollFd != -1 ==> |s.server.connections| == s.accepted - s.erased)
  }

  lemma CloseCounts(k: Kernel, fd: int)
    requires CountOk(k) && fd in k.open
    ensures CountOk(CloseFd(k, fd)) && CloseFd(k, fd).open == k.open - {fd}
  {
    assert |k.open - {fd}| == |k.open| - 1;
  }

  lemma OpenCounts(k: Kernel, fd: int)
    requires CountOk(k) && fd !in k.open
    ensures CountOk(OpenFd(k, fd))
  {
    assert |k.open + {fd}| == |k.open| + 1;
  }

  /** A descriptor that is opened and closed again leaves nothing but its two calls. */
  lemma Reclosed(k: Kernel, fd: int)
    requires CountOk(k) && fd !in k.open && k.registered.Keys <= k.open
    ensures var t := CloseFd(OpenFd(k, fd), fd);
      CountOk(t) && t.open == k.open && t.registered == k.registered && t.opens == k.opens + 1
  {
    OpenCounts(k, fd);
    CloseCounts(OpenFd(k, fd), fd);
    assert fd !in k.registered;
    assert k.open + {fd} - {fd} == k.open && k.registered - {fd} == k.registered;
  }

  lemma CloseKeepsTable(s: Server, ptr: Address)
    requires TableInv(s) && CountOk(s.kernel) && FdInv(s) && ptr in s.heap
    ensures var t := CloseConnection(s, ptr); TableInv(t) && CountOk(t.kernel) && FdInv(t)
  {
    var fd := s.heap[ptr];
    var k := s.kernel.(registered := s.kernel.registered - {fd});
    CloseCounts(k, fd);
    assert k.registered - {fd} == s.connections - {fd};
  }

  lemma AcceptKeepsTable(s: Server, fd: int, ptr: Address, added: bool)
    requires TableInv(s) && CountOk(s.kernel) && FdInv(s)
    requires 0 <= fd && fd !in s.kernel.open && ptr !in s.heap
    ensures var t := AcceptConnection(s, fd, ptr, added); TableInv(t) && CountOk(t.kernel) && FdInv(t)
    ensures fd !in s.connections
  {
    OpenCounts(s.kernel, fd);
    if !added {
      CloseCounts(OpenFd(s.kernel, fd), fd);
      assert s.kernel.registered - {fd} == s.kernel.registered;
    }
  }

  lemma BeginStopKeepsTable(s: Server)
    requires TableInv(s) && CountOk(s.kernel) && FdInv(s) && s.running
    ensures var t := BeginStop(s); TableInv(t) && CountOk(t.kernel) && FdInv(t)
  {
    CloseCounts(s.kernel, s.serverSocket);
    assert s.kernel.registered - {s.serverSocket} == s.kernel.registered;
  }

  /** When stop returns, every descriptor that was opened has been closed, each one once. */
  lemma EndStopClosesAll(s: Server)
    requires TableInv(s) && CountOk(s.kernel) && FdInv(s) && !s.running && s.epollFd != -1
    ensures var t := EndStop(s);
      && TableInv(t) && CountOk(t.kernel) && FdInv(t)
      && t.kernel.open == {} && t.kernel.opens == t.kernel.closes
      && t.connections == map[] && t.heap == map[]
  {
    var k := CloseFd(s.kernel, s.epollFd);
    CloseCounts(s.kernel, s.epollFd);
    var keys := s.connections.Keys;
    assert forall fd :: fd in k.open <==> fd in keys;
    assert k.open - keys == {};
    assert k.registered - keys == map[];
  }

  /**
   The whole invariant: the table, the ledger, the counters, no freed object was followed, and
   each event left in the batch still names a live object of the table, by its descriptor.
   */
  ghost predicate ServerInv(s: Server) {
    TableInv(s) && CountOk(s.kernel) && FdInv(s)
  }

  ghost predicate Inv(s: State) {
    && ServerInv(s.server) && CounterInv(s) && !s.dangling && Reported(s.server.connections, s.batch)
    && (s.server.epollFd == -1 ==> s.batch == [] && s.server.connections == map[])
  }

  lemma RestIsReported(registered: map<int, Address>, events: seq<Event>)
    requires Reported(registered, events) && events != []
    ensures Reported(registered, events[1..])
  {
  }

  lemma ClientStep(s: State, eof: bool)
    requires Inv(s) && Enabled(s, Client(eof))
    ensures Inv(Next(s, Client(eof)))
  {
    var e := s.batch[0];
    assert s.server.connections[e.fd] == e.ptr;
    RestIsReported(s.server.connections, s.batch);
    if eof {
      CloseKeepsTable(s.server, e.ptr);
      ErasedCounts(s.server.connections, e.fd);
      assert Next(s, Client(eof)).server == CloseConnection(s.server, e.ptr);
    }
  }

  lemma ErasedCounts(connections: map<int, Address>, fd: int)
    requires fd in connections
    ensures |connections - {fd}| == |connections| - 1
  {
    assert (connections - {fd}).Keys == connections.Keys - {fd};
    assert |(connections - {fd}).Keys| == |connections.Keys| - 1;
  }

  lemma AcceptStep(s: State, fd: int, ptr: Address, added: bool)
    requires Inv(s) && Enabled(s, Accept(fd, ptr, added))
    ensures Inv(Next(s, Accept(fd, ptr, added)))
  {
    AcceptKeepsTable(s.server, fd, ptr, added);
    RestIsReported(s.server.connections, s.batch);
    if added {
      var connections := s.server.connections[fd := ptr];
      assert connections.Keys == s.server.connections.Keys + {fd};
      assert |connections.Keys| == |s.server.connections.Keys| + 1;
    }
  }

  lemma InvStep(s: State, l: Step)
    requires Inv(s) && Enabled(s, l)
    ensures Inv(Next(s, l))
  {
    match l
    case Wait(events) =>
    case Accept(fd, ptr, added) => AcceptStep(s, fd, ptr, added);
    case AcceptFails => RestIsReported(s.server.connections, s.batch);
    case Client(eof) => ClientStep(s, eof);
    case BeginStopping => BeginStopKeepsTable(s.server);
    case EndStopping => EndStopClosesAll(s.server);
  }

  lemma {:induction false} RunInv(tr: seq<State>, k: nat)
    requires Run(tr) && k < |tr|
    ensures Inv(tr[k])
  {
    if k > 0 {
      RunInv(tr, k - 1);
      assert Steps(tr[k - 1], tr[k]);
      var l :| Enabled(tr[k - 1], l) && tr[k] == Next(tr[k - 1], l);
      InvStep(tr[k - 1], l);
    } else {
      var s := tr[0].server;
      assert |{s.serverSocket, s.epollFd}| == 2;
    }
  }

  // Main results.

  /**
   Every pointer still to be handled in a batch points to a live object, the one that the
   table holds under the reported descriptor, no matter which connections earlier events of
   the batch have closed or accepted. No freed object is ever followed.
   */
  lemma PointersAreLive(tr: seq<State>, k: nat, i: nat)
    requires Run(tr) && k < |tr| && i < |tr[k].batch| && tr[k].batch[i].ClientReady?
    ensures var s, e := tr[k].server, tr[k].batch[i];
      && !tr[k].dangling
      && e.ptr in s.heap && s.heap[e.ptr] == e.fd
      && e.fd in s.connections && s.connections[e.fd] == e.ptr
  {
    RunInv(tr, k);
  }

  /** The descriptors that the server has in its own fields. */
  function OwnFds(s: Server): set<int> {
    {s.serverSocket, s.epollFd} - {-1}
  }

  /**
   The descriptor ledger of every run: the keys of the table are the clients registered in
   epoll, each object knows its own key and each live object is in the table, opened is closed
   plus live, nothing is closed twice, and the open descriptors are the server's own ones and
   the keys. Once the server has stopped, nothing is open and no object is left.
   */
  lemma DescriptorLedger(tr: seq<State>, k: nat)
    requires Run(tr) && k < |tr|
    ensures var s := tr[k].server;
      && s.kernel.registered.Keys == s.connections.Keys
      && (forall fd :: fd in s.connections ==> s.connections[fd] in s.heap && s.heap[s.connections[fd]] == fd)
      && (forall p :: p in s.heap ==> s.heap[p] in s.connections && s.connections[s.heap[p]] == p)
      && s.kernel.opens == s.kernel.closes + |s.kernel.open|
      && s.kernel.badCloses == 0
      && s.kernel.open == OwnFds(s) + s.connections.Keys
      && (s.epollFd == -1 ==> s.kernel.open == {} && s.heap == map[])
  {
    RunInv(tr, k);
    var s := tr[k].server;
    assert forall fd :: fd in s.kernel.open <==> fd in OwnFds(s) + s.connections.Keys;
  }

  function Size(s: State): nat {
    |s.server.connections|
  }

  function Peak(s: State): nat {
    s.server.peakConnections
  }

  lemma StepPeak(s: State, l: Step)
    requires Inv(s) && Enabled(s, l)
    ensures Peak(Next(s, l)) == Peak(s) || Peak(Next(s, l)) == Size(Next(s, l)) > Peak(s)
  {
  }

  lemma PeakMoves(tr: seq<State>, k: nat)
    requires Run(tr) && k < |tr|
    ensures Size(tr[k]) <= Peak(tr[k])
    ensures k > 0 ==> Peak(tr[k]) == Peak(tr[k - 1]) || Peak(tr[k]) == Size(tr[k]) > Peak(tr[k - 1])
  {
    RunInv(tr, k);
    if k > 0 {
      RunInv(tr, k - 1);
      assert Steps(tr[k - 1], tr[k]);
      var l :| Enabled(tr[k - 1], l) && tr[k] == Next(tr[k - 1], l);
      StepPeak(tr[k - 1], l);
    }
  }

  lemma {:induction false} PeakIsReached(tr: seq<State>, k: nat) returns (i: nat)
    requires Run(tr) && k < |tr|
    ensures i <= k && Size(tr[i]) == Peak(tr[k])
    ensures forall j :: 0 <= j <= k ==> Size(tr[j]) <= Peak(tr[k])
  {
    PeakMoves(tr, k);
    i := k;
    if k > 0 {
      var before := PeakIsReached(tr, k - 1);
      i := if Peak(tr[k]) == Peak(tr[k - 1]) then before else k;
    } else {
      assert Size(tr[0]) == Peak(tr[0]) == 0;
    }
  }

  /**
   The peak is exactly the largest size the table has had in the run so far, it is at most the
   number of accepted connections, and until stop the size is accepted minus erased. So the
   total is the number of active connections if and only if none has been closed.
   */
  lemma PeakIsHistoricalMaximum(tr: seq<State>, k: nat)
    requires Run(tr) && k < |tr|
    ensures forall i :: 0 <= i <= k ==> Size(tr[i]) <= Peak(tr[k])
    ensures exists i :: 0 <= i <= k && Size(tr[i]) == Peak(tr[k])
    ensures Peak(tr[k]) <= tr[k].server.totalConnections == tr[k].accepted
    ensures tr[k].server.epollFd != -1 ==>
      && Size(tr[k]) == tr[k].accepted - tr[k].erased
      && (Size(tr[k]) == tr[k].server.totalConnections <==> tr[k].erased == 0)
  {
    var i := PeakIsReached(tr, k);
    RunInv(tr, k);
  }

  // The code.

  /** What the kernel answers to the calls of initialize; -1 for a call that fails. */
  datatype Setup = Setup(socketFd: int, bound: bool, listening: bool, epollFd: int, added: bool)

  /** What accept, the allocator and epoll_ctl answer to accept_connections. */
  datatype Arrival = Nobody | Somebody(fd: int, ptr: Address, added: bool)

  datatype Received = Data | WouldBlock | Failed | Eof

  /** One batch of epoll_wait, and for each event what its handler meets. */
  datatype Batch = Batch(events: seq<Event>, arrivals: seq<Arrival>, results: seq<seq<Received>>)

  /** Whether a loop over these results ends because the peer has closed. */
  function EndsInEof(results: seq<Received>): bool {
    results != [] && (results[0] == Eof || (results[0] == Data && EndsInEof(results[1..])))
  }

  /** The loop closes the connection exactly when an end of file comes after nothing but data. */
  lemma {:induction false} EndsInEofIff(results: seq<Received>)
    ensures EndsInEof(results) <==>
      exists k :: 0 <= k < |results| && results[k] == Eof && forall j :: 0 <= j < k ==> results[j] == Data
    decreases |results|
  {
    if results != [] && results[0] == Data {
      EndsInEofIff(results[1..]);
      if k :| 0 <= k < |results| && results[k] == Eof && forall j :: 0 <= j < k ==> results[j] == Data {
        assert results[1..][k - 1] == Eof && forall j :: 0 <= j < k - 1 ==> results[1..][j] == Data;
      }
      if k :| 0 <= k < |results[1..]| && results[1..][k] == Eof && forall j :: 0 <= j < k ==> results[1..][j] == Data {
        assert results[k + 1] == Eof;
        assert forall j :: 0 <= j < k + 1 ==> results[j] == Data by {
          assert forall j :: 1 <= j < k + 1 ==> results[j] == results[1..][j - 1];
        }
      }
    }
  }

  /** The kernel and the allocator never hand out what is in use. */
  predicate Fresh(s: Server, a: Arrival) {
    a.Somebody? && 0 <= a.fd && a.fd !in s.kernel.open && a.ptr !in s.heap
  }

  /** The step that handles the first event of the batch. */
  ghost function StepFor(s: State, a: Arrival, results: seq<Received>): (l: Step)
    requires s.batch != []
    ensures Enabled(s, l)
  {
    if s.batch[0].ClientReady? then Client(EndsInEof(results))
    else if s.server.serverSocket != -1 && Fresh(s.server, a) then Accept(a.fd, a.ptr, a.added)
    else AcceptFails
  }

  /** The state after the first event of the batch. */
  ghost function AfterEvent(s: State, a: Arrival, results: seq<Received>): (t: State)
    requires s.batch != []
    ensures t.batch == s.batch[1..]
  {
    Next(s, StepFor(s, a, results))
  }

  lemma EventIsStep(s: State, a: Arrival, results: seq<Received>)
    requires Inv(s) && s.batch != []
    ensures var t := AfterEvent(s, a, results); Inv(t) && Steps(s, t)
  {
    InvStep(s, StepFor(s, a, results));
  }

  /**
   A client that has closed its connection leaves the table, and epoll, and its descriptor is
   closed; any other end of the reads, such as an error, changes nothing.
   */
  lemma PeerCloses(s: State, a: Arrival, results: seq<Received>)
    requires Inv(s) && s.batch != [] && s.batch[0].ClientReady?
    ensures var fd, before, after := s.batch[0].fd, s.server, AfterEvent(s, a, results).server;
      if exists k :: 0 <= k < |results| && results[k] == Eof && forall j :: 0 <= j < k ==> results[j] == Data
      then after.connections == before.connections - {fd} && after.kernel.registered == before.kernel.registered - {fd}
           && after.kernel.open == before.kernel.open - {fd} && s.batch[0].ptr !in after.heap
      else after == before
  {
    EndsInEofIff(results);
    assert s.server.connections[s.batch[0].fd] == s.batch[0].ptr;
  }

  /**
   A client that arrives at the open listening socket is stored under its descriptor and
   registered; if it cannot be registered, its descriptor is closed again.
   */
  lemma ArrivalIsStored(s: State, fd: int, ptr: Address, added: bool, results: seq<Received>)
    requires s.batch != [] && s.batch[0].ServerReady? && s.server.serverSocket != -1
    requires 0 <= fd && fd !in s.server.kernel.open && ptr !in s.server.heap
    ensures var before, after := s.server, AfterEvent(s, Somebody(fd, ptr, added), results).server;
      if added
      then after.connections == before.connections[fd := ptr] && after.heap == before.heap[ptr := fd]
           && after.kernel.registered == before.kernel.registered[fd := ptr] && after.kernel.open == before.kernel.open + {fd}
           && after.totalConnections == before.totalConnections + 1
      else after.connections == before.connections && after.heap == before.heap && after.kernel.open == before.kernel.open
           && after.totalConnections == before.totalConnections
  {
    assert (s.server.kernel.open + {fd}) - {fd} == s.server.kernel.open;
  }

  /** The state after the whole batch, handled in order. */
  ghost function AfterBatch(s: State, arrivals: seq<Arrival>, results: seq<seq<Received>>): State
    requires |arrivals| == |results| == |s.batch|
    decreases |arrivals|
  {
    if arrivals == [] then s else AfterBatch(AfterEvent(s, arrivals[0], results[0]), arrivals[1..], results[1..])
  }

  lemma AfterOne(s: State, arrivals: seq<Arrival>, results: seq<seq<Received>>, i: nat)
    requires i < |arrivals| == |results| && |s.batch| == |arrivals| - i
    ensures AfterBatch(s, arrivals[i..], results[i..])
         == AfterBatch(AfterEvent(s, arrivals[i], results[i]), arrivals[i + 1..], results[i + 1..])
  {
    assert arrivals[i..][1..] == arrivals[i + 1..] && results[i..][1..] == results[i + 1..];
  }

  lemma IsEmpty(s: set<int>)
    requires forall x :: x !in s
    ensures s == {}
  {
    assert forall x: int :: x in s <==> x in {};
  }

  lemma HasMember(s: set<int>)
    requires s != {}
    ensures exists x :: x in s
  {
    if forall x :: x !in s {
      IsEmpty(s);
    }
  }

  lemma CloseNone(k: Kernel)
    ensures CloseAll(k, {}) == k
  {
    assert k.open - {} == k.open && k.registered - {} == k.registered;
  }

  lemma CloseOneMore(k: Kernel, done: set<int>, fd: int)
    requires done <= k.open && fd in k.open && fd !in done
    ensures fd in CloseAll(k, done).open
    ensures CloseFd(CloseAll(k, done), fd) == CloseAll(k, done + {fd})
  {
    assert k.open - done - {fd} == k.open - (done + {fd});
    assert k.registered - done - {fd} == k.registered - (done + {fd});
  }

  /** The closes of the server's own descriptors, as far as the fields name any. */
  function CloseFields(s: Server): Kernel {
    var k := if s.serverSocket != -1 then CloseFd(s.kernel, s.serverSocket) else s.kernel;
    if s.epollFd != -1 then CloseFd(k, s.epollFd) else k
  }

  /** Nothing is open, but the fields may still name descriptors that a failed initialize has closed. */
  ghost predicate NeverReady(s: Server) {
    s.connections == map[] && s.heap == map[] && s.kernel.open == {} && s.kernel.opens == s.kernel.closes
  }

  function StaleFields(s: Server): nat {
    (if s.serverSocket != -1 then 1 else 0) + if s.epollFd != -1 then 1 else 0
  }

  /** When stop closes the clients they are open, and in the end nothing is. */
  lemma StopOrder(s: Server)
    requires s.running && (ServerInv(s) || NeverReady(s))
    ensures forall fd :: fd in s.connections ==> s.connections[fd] in s.heap && s.heap[s.connections[fd]] == fd
    ensures s.connections.Keys <= CloseFields(s).open
    ensures var all := CloseAll(CloseFields(s), s.connections.Keys);
      && EndStop(BeginStop(s)) == Server(false, -1, -1, map[], map[], s.totalConnections, s.peakConnections, all)
      && all.open == {} && all.opens == all.closes
      && (ServerInv(s) ==> all.badCloses == 0)
      && (NeverReady(s) ==> all.badCloses == s.kernel.badCloses + StaleFields(s))
  {
    if ServerInv(s) {
      BeginStopKeepsTable(s);
      EndStopClosesAll(BeginStop(s));
      assert forall fd :: fd in s.connections.Keys ==> fd in s.kernel.open && fd in CloseFields(s).open;
    }
    if NeverReady(s) {
      assert s.connections.Keys == {};
      CloseNone(CloseFields(s));
    }
  }

  class HftServer {
    var running: bool
    var serverSocket: int
    var epollFd: int
    var connections: map<int, Address>
    var heap: map<Address, int>
    var totalConnections: nat
    var peakConnections: nat
    var kernel: Kernel

    function View(): Server
      reads this
    {
      Server(running, serverSocket, epollFd, connections, heap, totalConnections, peakConnections, kernel)
    }

    constructor ()
      ensures View() == Server(false, -1, -1, map[], map[], 0, 0, Kernel({}, map[], 0, 0, 0))
    {
      running, serverSocket, epollFd, connections, heap := false, -1, -1, map[], map[];
      totalConnections, peakConnections, kernel := 0, 0, Kernel({}, map[], 0, 0, 0);
    }

    /** The close system call, which fails on a descriptor that is not open. */
    method Close(fd: int)
      modifies this`kernel
      ensures kernel == CloseFd(old(kernel), fd)
    {
      if fd in kernel.open {
        kernel := kernel.(open := kernel.open - {fd}, registered := kernel.registered - {fd}, closes := kernel.closes + 1);
      } else {
        kernel := kernel.(badCloses := kernel.badCloses + 1);
      }
    }

    /**
     initialize. When it fails, whatever it had opened is closed again, but the fields may keep
     the numbers of closed descriptors.
     */
    method Initialize(o: Setup) returns (ok: bool)
      requires o.socketFd == -1 || (0 <= o.socketFd && o.socketFd !in kernel.open)
      requires o.epollFd == -1 || (0 <= o.epollFd && o.epollFd !in kernel.open && o.epollFd != o.socketFd)
      requires CountOk(kernel) && kernel.registered.Keys <= kernel.open
      modifies this`serverSocket, this`epollFd, this`kernel
      ensures ok <==> o.socketFd != -1 && o.bound && o.listening && o.epollFd != -1 && o.added
      ensures CountOk(kernel) && kernel.registered == old(kernel.registered)
      ensures ok ==> serverSocket == o.socketFd && epollFd == o.epollFd && kernel.open == old(kernel.open) + {serverSocket, epollFd}
      ensures !ok ==> kernel.open == old(kernel.open) && serverSocket == o.socketFd
      ensures epollFd == if o.socketFd != -1 && o.bound && o.listening then o.epollFd else old(epollFd)
      ensures kernel.opens == old(kernel.opens) + if o.socketFd == -1 then 0
                                                  else if o.bound && o.listening && o.epollFd != -1 then 2 else 1
    {
      serverSocket := o.socketFd;
      if serverSocket == -1 {
        return false;
      }
      Reclosed(kernel, serverSocket);
      OpenCounts(kernel, serverSocket);
      kernel := OpenFd(kernel, serverSocket);
      if !o.bound || !o.listening {
        Close(serverSocket);
        return false;
      }
      epollFd := o.epollFd;
      if epollFd == -1 {
        Close(serverSocket);
        return false;
      }
      Reclosed(kernel, epollFd);
      OpenCounts(kernel, epollFd);
      kernel := OpenFd(kernel, epollFd);
      if !o.added {
        Close(epollFd);
        CloseCounts(kernel, serverSocket);
        Close(serverSocket);
        return false;
      }
      return true;
    }

    /** start, on a server whose initialize has succeeded, leads to the first state of a run. */
    method Start()
      modifies this`running
      ensures running
      ensures old(View()) == Server(false, serverSocket, epollFd, map[], map[], 0, 0,
                                    Kernel({serverSocket, epollFd}, map[], kernel.opens, kernel.closes, 0))
              && 0 <= serverSocket != epollFd && 0 <= epollFd && CountOk(kernel)
              ==> Started(View())
    {
      if running {
        return;
      }
      running := true;
      assert |{serverSocket, epollFd}| == if serverSocket == epollFd then 1 else 2;
    }

    /** accept_connections; an answer that is not fresh cannot occur and counts as a failure. */
    method AcceptConnections(a: Arrival) returns (accepted: bool)
      requires ServerInv(View())
      modifies this
      ensures accepted <==> Fresh(old(View()), a) && serverSocket != -1
      ensures View() == if accepted then AcceptConnection(old(View()), a.fd, a.ptr, a.added) else old(View())
      ensures ServerInv(View())
    {
      accepted := serverSocket != -1 && Fresh(View(), a);
      if !accepted {
        return;
      }
      AcceptKeepsTable(View(), a.fd, a.ptr, a.added);
      kernel := OpenFd(kernel, a.fd);
      if !a.added {
        Close(a.fd);
        return;
      }
      kernel := kernel.(registered := kernel.registered[a.fd := a.ptr]);
      heap := heap[a.ptr := a.fd];
      connections := connections[a.fd := a.ptr];
      totalConnections := totalConnections + 1;
      if peakConnections < |connections| {
        peakConnections := |connections|;
      }
    }

    /** close_connection on a live object: its descriptor is open, and its object is freed. */
    method Disconnect(ptr: Address)
      requires ServerInv(View()) && ptr in heap
      modifies this
      ensures View() == CloseConnection(old(View()), ptr)
      ensures ServerInv(View())
    {
      CloseKeepsTable(View(), ptr);
      var fd := heap[ptr];
      kernel := kernel.(registered := kernel.registered - {fd});
      Close(fd);
      heap := heap - {connections[fd]};
      connections := connections - {fd};
    }

    /** handle_client_events: reads until the socket would block, fails, or is at its end. */
    method HandleClientEvents(fd: int, results: seq<Received>)
      requires ServerInv(View())
      modifies this
      ensures View() == if fd in old(connections) && EndsInEof(results) then CloseConnection(old(View()), old(connections)[fd])
                        else old(View())
      ensures ServerInv(View())
    {
      if fd !in connections {
        return;
      }
      var ptr := connections[fd];
      var i := 0;
      while i < |results|
        invariant i <= |results| && View() == old(View())
        invariant EndsInEof(results) == EndsInEof(results[i..])
      {
        match results[i] {
          case WouldBlock => return;
          case Failed => return;
          case Eof =>
            Disconnect(ptr);
            return;
          case Data =>
        }
        assert results[i..][1..] == results[i + 1..];
        i := i + 1;
      }
    }

    /** The worker's dispatch of one event: a step of the run, in which a pointer is followed only if live. */
    method HandleEvent(event: Event, arrival: Arrival, results: seq<Received>, ghost s: State)
      requires s.server == View() && s.batch != [] && s.batch[0] == event && Inv(s)
      modifies this
      ensures AfterEvent(s, arrival, results).server == View()
      ensures running == old(running)
    {
      match event {
        case ServerReady =>
          var accepted := AcceptConnections(arrival);
        case ClientReady(fd, ptr) =>
          HandleClientEvents(heap[ptr], results);
      }
    }

    /** The inner loop of worker_thread over one batch: a piece of a run that uses the batch up. */
    method WorkerPass(events: seq<Event>, arrivals: seq<Arrival>, results: seq<seq<Received>>, ghost first: State)
      returns (ghost tr: seq<State>)
      requires |arrivals| == |results| == |events|
      requires first.server == View() && first.batch == events && Inv(first)
      modifies this
      ensures Piece(tr) && tr[0] == first && tr[|tr| - 1].server == View() && tr[|tr| - 1].batch == []
      ensures tr[|tr| - 1] == AfterBatch(first, arrivals, results)
      ensures Inv(tr[|tr| - 1]) && running == old(running)
    {
      tr := [first];
      ghost var s := first;
      assert arrivals[0..] == arrivals && results[0..] == results;
      for i := 0 to |events|
        invariant Piece(tr) && tr[0] == first && tr[|tr| - 1] == s
        invariant s.server == View() && s.batch == events[i..] && Inv(s) && running == old(running)
        invariant AfterBatch(s, arrivals[i..], results[i..]) == AfterBatch(first, arrivals, results)
      {
        HandleEvent(events[i], arrivals[i], results[i], s);
        AfterOne(s, arrivals, results, i);
        EventIsStep(s, arrivals[i], results[i]);
        s := AfterEvent(s, arrivals[i], results[i]);
        PieceExtends(tr, s);
        tr := tr + [s];
      }
    }

    /** The loop of stop over the table, whatever the order of its keys. */
    method CloseClients()
      requires connections.Keys <= kernel.open
      requires forall fd :: fd in connections ==> connections[fd] in heap && heap[connections[fd]] == fd
      modifies this`kernel
      ensures kernel == CloseAll(old(kernel), connections.Keys)
    {
      ghost var k := kernel;
      ghost var done: set<int> := {};
      CloseNone(k);
      var left := connections.Keys;
      while left != {}
        invariant done !! left && done + left == connections.Keys
        invariant kernel == CloseAll(k, done)
        decreases left
      {
        HasMember(left);
        var fd :| fd in left;
        CloseOneMore(k, done, fd);
        Close(heap[connections[fd]]);
        done, left := done + {fd}, left - {fd};
      }
    }

    /** The part of stop that closes the listening socket and the epoll descriptor. */
    method CloseOwn()
      modifies this`kernel, this`serverSocket, this`epollFd
      ensures serverSocket == epollFd == -1
      ensures kernel == CloseFields(old(View()))
    {
      if serverSocket != -1 {
        Close(serverSocket);
        serverSocket := -1;
      }
      if epollFd != -1 {
        Close(epollFd);
        epollFd := -1;
      }
    }

    /**
     stop, without a worker in the middle of a batch; a second call changes nothing. After a
     start on a failed initialize it closes again what the fields still name.
     */
    method Stop()
      requires running ==> ServerInv(View()) || NeverReady(View())
      modifies this
      ensures !old(running) ==> View() == old(View())
      ensures old(running) ==> View() == EndStop(BeginStop(old(View())))
      ensures old(running && ServerInv(View())) ==> kernel.badCloses == 0
      ensures old(running && NeverReady(View())) ==> kernel.badCloses == old(kernel.badCloses + StaleFields(View()))
      ensures old(running) ==> !running && kernel.open == {} && kernel.opens == kernel.closes
    {
      if !running {
        return;
      }
      ghost var s := View();
      StopOrder(s);
      StopRunning();
      assert View() == EndStop(BeginStop(s));
    }

    /** What stop does on a running server. */
    method StopRunning()
      requires connections.Keys <= CloseFields(View()).open
      requires forall fd :: fd in connections ==> connections[fd] in heap && heap[connections[fd]] == fd
      modifies this
      ensures View() == Server(false, -1, -1, map[], map[], old(totalConnections), old(peakConnections),
                               CloseAll(CloseFields(old(View())), old(connections.Keys)))
    {
      running := false;
      CloseOwn();
      CloseClients();
      connections, heap := map[], map[];
    }

    /**
     A whole life: initialize, start, one worker on any batches that epoll can report, stop.
     However it goes, every descriptor that was opened has been closed; and none is closed twice,
     if and only if initialize succeeds, fails before it has a socket, or its result is checked.
     Without an epoll instance the worker ends at once.
     */
    method Serve(o: Setup, batches: seq<Batch>, checked: bool) returns (ok: bool)
      requires View() == Server(false, -1, -1, map[], map[], 0, 0, Kernel({}, map[], 0, 0, 0))
      requires o.socketFd >= -1 && o.epollFd >= -1 && (o.epollFd == -1 || o.epollFd != o.socketFd)
      requires forall i :: 0 <= i < |batches| ==> |batches[i].arrivals| == |batches[i].results| == |batches[i].events|
      modifies this
      ensures ok <==> o.socketFd != -1 && o.bound && o.listening && o.epollFd != -1 && o.added
      ensures !running && kernel.open == {} && kernel.opens == kernel.closes
      ensures kernel.badCloses == 0 <==> ok || checked || o.socketFd == -1
      ensures kernel.badCloses == if ok || checked || o.socketFd == -1 then 0
                                  else if o.bound && o.listening && o.epollFd != -1 then 2 else 1
    {
      ok := Initialize(o);
      if !ok && checked {
        return;
      }
      Start();
      if !ok {
        Stop();
        return;
      }
      ghost var s := State(View(), [], 0, 0, false);
      RunInv([s], 0);
      for i := 0 to |batches|
        invariant s.server == View() && s.batch == [] && Inv(s) && running
      {
        if Reported(kernel.registered, batches[i].events) {
          InvStep(s, Wait(batches[i].events));
          s := Next(s, Wait(batches[i].events));
          ghost var tr := WorkerPass(batches[i].events, batches[i].arrivals, batches[i].results, s);
          s := tr[|tr| - 1];
        }
      }
      Stop();
    }
  }
}
