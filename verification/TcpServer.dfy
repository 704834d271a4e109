/** The server: the map of its connections and, with the calls that cross loops, the end of each. */
module TcpServer {
  import opened Bytes
  import opened ConnectionPhase
  import opened ServerSteps
  import B = Buffer
  import T = TcpConnection

  // ---- Connections as the protocol sees them ----

  ghost function View(c: T.TcpConnection): Conn
    reads c
  {
    Conn(c.loop, c.state, c.reading || c.writing, c.added, c.reports, c.destroyed, c.closing)
  }

  type Conns = map<nat, T.TcpConnection>

  ghost predicate Holds(conns: Conns, views: map<nat, Conn>, id: nat)
    reads if id in conns then {conns[id], conns[id].output, conns[id].output.buffer} else {}
  {
    && id in conns && id in views && conns[id].name == id
    && conns[id].Valid() && View(conns[id]) == views[id]
  }

  ghost function Outputs(conns: Conns): set<B.Buffer> {
    set c | c in conns.Values :: c.output
  }

  ghost function Arrays(conns: Conns): set<array<byte>>
    reads Outputs(conns)
  {
    set b | b in Outputs(conns) :: b.buffer
  }

  /** The connections are as the protocol says. */
  ghost predicate Objects(conns: Conns, views: map<nat, Conn>)
    reads conns.Values, Outputs(conns), Arrays(conns)
  {
    && conns.Keys == views.Keys
    && (forall id {:trigger Holds(conns, views, id)} :: id in conns ==> Holds(conns, views, id))
  }

  ghost predicate Separate(conns: Conns, i: nat, j: nat)
    reads if i in conns && j in conns then {conns[i].output, conns[j].output} else {}
  {
    i in conns && j in conns ==>
      && conns[i] != conns[j] && conns[i].output != conns[j].output
      && conns[i].output.buffer != conns[j].output.buffer
  }

  /** No two connections share anything. */
  ghost predicate Apart(conns: Conns)
    reads Outputs(conns)
  {
    forall i, j {:trigger Separate(conns, i, j)} :: i != j ==> Separate(conns, i, j)
  }

  ghost predicate Known(conns: Conns, c: T.TcpConnection) {
    c.name in conns && conns[c.name] == c
  }

  // One connection at a time: what its own methods do is what the protocol says of it.

  method EstablishOne(conns: Conns, ghost views: map<nat, Conn>, c: T.TcpConnection)
    requires Objects(conns, views) && Known(conns, c) && views[c.name].phase.Connecting?
    modifies c`state, c`reading, c`added, c`reports
    ensures Objects(conns, views[c.name := Established(views[c.name])])
  {
    assert Holds(conns, views, c.name);
    c.ConnectEstablished();
    forall d | d in conns ensures Holds(conns, views[c.name := Established(views[c.name])], d) {
      assert old(Holds(conns, views, d));
    }
  }

  method CloseOne(conns: Conns, ghost views: map<nat, Conn>, c: T.TcpConnection)
    requires Objects(conns, views) && Known(conns, c) && views[c.name].Open()
    modifies c`state, c`reading, c`writing, c`reports, c`closes
    ensures Objects(conns, views[c.name := Closed(views[c.name])]) && c.state.Disconnected?
  {
    assert Holds(conns, views, c.name);
    c.HandleClose();
    forall d | d in conns ensures Holds(conns, views[c.name := Closed(views[c.name])], d) {
      assert old(Holds(conns, views, d));
    }
  }

  method CloseNowOne(conns: Conns, ghost views: map<nat, Conn>, c: T.TcpConnection) returns (closed: bool)
    requires Objects(conns, views) && Known(conns, c) && views[c.name].closing > 0
    modifies c`state, c`reading, c`writing, c`reports, c`closes, c`closing
    ensures closed == views[c.name].Open()
    ensures closed ==> Objects(conns, views[c.name := Closed(Asking(views[c.name]))])
    ensures !closed ==> Objects(conns, views[c.name := Asking(views[c.name])])
  {
    assert Holds(conns, views, c.name);
    closed := c.state == Connected || c.state == Disconnecting;
    c.ForceCloseInLoop();
    ghost var v := if closed then Closed(Asking(views[c.name])) else Asking(views[c.name]);
    forall d | d in conns ensures Holds(conns, views[c.name := v], d) {
      assert old(Holds(conns, views, d));
    }
  }

  /** The assertion inside remove holds. */
  method DestroyOne(conns: Conns, ghost views: map<nat, Conn>, c: T.TcpConnection)
    requires Objects(conns, views) && Known(conns, c) && views[c.name].phase.Disconnected? && views[c.name].added
    modifies c`state, c`reading, c`writing, c`added, c`reports, c`destroyed
    ensures Objects(conns, views[c.name := Destroyed(views[c.name])])
  {
    assert Holds(conns, views, c.name);
    var removable := c.ConnectDestroyed();
    assert removable;
    forall d | d in conns ensures Holds(conns, views[c.name := Destroyed(views[c.name])], d) {
      assert old(Holds(conns, views, d));
    }
  }

  method HalfCloseOne(conns: Conns, ghost views: map<nat, Conn>, c: T.TcpConnection, delay: bool, inLoopThread: bool)
      returns (posted: seq<T.Task>)
    requires Objects(conns, views) && Known(conns, c)
    modifies c`state, c`shutWrite, c`shutting, c`delayed
    ensures posted == if views[c.name].phase.Connected? && !delay && !inLoopThread then [T.ShutDown] else []
    ensures Objects(conns, if views[c.name].phase.Connected? then views[c.name := HalfClosed(views[c.name])] else views)
  {
    assert Holds(conns, views, c.name);
    posted := [];
    if delay {
      c.ForceCloseWithDelay();
    } else {
      posted := c.Shutdown(inLoopThread);
    }
    ghost var after := if views[c.name].phase.Connected? then views[c.name := HalfClosed(views[c.name])] else views;
    forall d | d in conns ensures Holds(conns, after, d) {
      assert old(Holds(conns, views, d));
    }
  }

  method AskToCloseOne(conns: Conns, ghost views: map<nat, Conn>, c: T.TcpConnection, delayed: bool)
      returns (posted: seq<T.Task>)
    requires Objects(conns, views) && Known(conns, c) && (delayed ==> c.delayed > 0)
    modifies c`state, c`closing, c`delayed
    ensures posted == if views[c.name].Open() then [T.CloseNow] else []
    ensures Objects(conns, if views[c.name].Open() then views[c.name := AskedToClose(views[c.name])] else views)
  {
    assert Holds(conns, views, c.name);
    if delayed {
      posted := c.DelayedForceClose();
    } else {
      posted := c.ForceClose();
    }
    ghost var after := if views[c.name].Open() then views[c.name := AskedToClose(views[c.name])] else views;
    forall d | d in conns ensures Holds(conns, after, d) {
      assert old(Holds(conns, views, d));
    }
  }

  /** Bytes come and go between the steps of the protocol: they leave the life of the connection as it was, and
      what it posts is no close. */
  method Exchange(c: T.TcpConnection, what: Transfer) returns (posted: seq<T.Task>)
    requires c.Valid() && !c.state.Connecting? && what.Possible(c)
    modifies c, c.output, c.output.buffer
    ensures c.Valid() && View(c) == old(View(c)) && (c.output.buffer == old(c.output.buffer) || fresh(c.output.buffer))
    ensures T.CloseNow !in posted && T.ShutDown !in posted
    ensures c.state.Connected? || forall t :: t in posted ==> !t.Message?
  {
    match what
    case Send(data, inLoopThread, kernel) => posted := c.Send(data, inLoopThread, kernel);
    case Drain(kernel) => posted := c.HandleWrite(kernel);
    case Queued(task, kernel) => posted := c.RunTask(task, kernel);
  }

  /** The bytes of one connection are not those of another. */
  method ExchangeOne(conns: Conns, ghost views: map<nat, Conn>, c: T.TcpConnection, what: Transfer)
      returns (posted: seq<T.Task>)
    requires Objects(conns, views) && Apart(conns) && Known(conns, c) && !c.state.Connecting? && what.Possible(c)
    modifies c, c.output, c.output.buffer
    ensures Objects(conns, views) && Apart(conns)
    ensures T.CloseNow !in posted && T.ShutDown !in posted
    ensures c.state == old(c.state) && (c.state.Connected? || forall t :: t in posted ==> !t.Message?)
  {
    assert Holds(conns, views, c.name);
    posted := Exchange(c, what);
    forall d | d in conns ensures Holds(conns, views, d) {
      assert old(Holds(conns, views, d)) && (d == c.name || old(Separate(conns, c.name, d)));
    }
    forall i, j | i != j ensures Separate(conns, i, j) {
      assert old(Separate(conns, i, j));
    }
  }

  /** A send, a writable socket, or a task that the connection posted before. */
  datatype Transfer =
    | Send(data: seq<byte>, inLoopThread: bool, kernel: T.Answer)
    | Drain(kernel: T.Answer)
    | Queued(task: T.Task, kernel: T.Answer)
  {
    ghost predicate Possible(c: T.TcpConnection)
      reads c, c.output, c.output.buffer
    {
      match this
      case Send(data, _, kernel) => T.Possible(kernel, |data|, c.shutWrite)
      case Drain(kernel) => c.output.Valid() && T.Possible(kernel, |c.Unsent()|, c.shutWrite)
      case Queued(task, kernel) =>
        && !task.CloseNow? && (task.ShutDown? ==> !c.state.Connected?)
        && (task.Message? ==> T.Possible(kernel, |task.data|, c.shutWrite))
    }
  }

  // ---- The server ----

  class TcpServer {
    const numLoops: nat
    var nextConnId: nat
    // the map from names to connections, a name standing by its number
    var connections: map<nat, T.TcpConnection>
    // what each loop has yet to run; the acceptor runs in loop 0
    var loops: seq<seq<Task>>
    // every connection accepted; users may hold one that nobody else does
    var conns: map<nat, T.TcpConnection>
    // what the protocol has come to, and by which steps
    ghost var state: Server
    ghost var trace: seq<Event>

    ghost predicate Traced()
      reads this`state, this`trace
    {
      numLoops > 0 && Legal(Fresh(numLoops), trace) && Single(trace) && state == Run(Fresh(numLoops), trace)
    }

    /** Map and loops are as a state of the protocol says. */
    ghost predicate Booked(s: Server)
      reads this`nextConnId, this`connections, this`loops, this`conns
    {
      && nextConnId == s.nextId && loops == s.queues && connections.Keys == s.names && conns.Keys == s.conns.Keys
      && (forall id :: id in connections ==> id in conns && connections[id] == conns[id])
    }

    ghost predicate Valid()
      reads this, conns.Values, Outputs(conns), Arrays(conns)
    {
      Traced() && Booked(state) && Objects(conns, state.conns)
    }

    lemma StateInv()
      requires Traced()
      ensures Inv(state)
    {
      RunKeeps(numLoops, trace);
    }

    lemma IsPlaced(id: nat)
      requires Traced() && id in state.conns
      ensures Placed(state, id)
    {
      StateInv();
    }

    /** Whatever the loops did, each connection object was told UP first and DOWN last, each at most once; it
        is destroyed at most once, only after DOWN, and while the poller knows it somebody holds it. */
    lemma ToldInOrder(c: T.TcpConnection)
      requires Valid() && Known(conns, c)
      ensures c.reports <= [true, false] && c.destroyed <= 1 && (c.destroyed == 1 ==> c.reports == [true, false])
      ensures (c.added ==> Held(state, c.name)) && (!Held(state, c.name) ==> c.state.Disconnected? && c.destroyed == 1)
    {
      Lifecycle(numLoops, trace, c.name);
      assert Holds(conns, state.conns, c.name);
    }

    constructor (n: nat)
      requires n > 0
      ensures Valid() && Apart(conns) && numLoops == n && trace == []
    {
      numLoops := n;
      nextConnId, connections, conns, loops := 1, map[], map[], seq(n, _ => []);
      state, trace := Fresh(n), [];
    }

    /** A message or shutdown that waits in a loop finds its object: the object is not destroyed, nothing before it
        in the loop destroys it, and the map or another task holds it. */
    lemma FindsObject(l: nat, j: nat)
      requires Valid() && Prompt(Fresh(numLoops), trace)
      requires l < |loops| && j < |loops[l]| && loops[l][j].Raw()
      ensures var id := loops[l][j].id;
              id in conns && conns[id].destroyed == 0 && Held(state, id) && Destroy(id) !in loops[l][..j]
    {
      RawTaskFindsConnection(numLoops, trace, l, j);
      assert Holds(conns, state.conns, loops[l][j].id);
    }

    /** The protocol has taken the step that the fields show. */
    ghost method Note(e: Event)
      requires Traced() && Enabled(state, e) && !Doubled(e)
      modifies this`state, this`trace
      ensures Traced() && state == Step(old(state), e) && trace == old(trace) + [e]
    {
      RunSnoc(Fresh(numLoops), trace, e);
      state, trace := Step(state, e), trace + [e];
    }

    /** The same, when map, loops and objects have taken it. */
    ghost method Commit(e: Event)
      requires Traced() && Enabled(state, e) && !Doubled(e)
      requires var t := Step(state, e); Booked(t) && Objects(conns, t.conns) && Apart(conns)
      modifies this`state, this`trace
      ensures Valid() && Apart(conns) && trace == old(trace) + [e]
    {
      Note(e);
    }

    method QueueInLoop(l: nat, task: Task)
      requires l < |loops|
      modifies this`loops
      ensures loops == old(loops)[l := old(loops)[l] + [task]]
    {
      loops := loops[l := loops[l] + [task]];
    }

    method RemoveConnectionInLoop(c: T.TcpConnection, ghost s: Server)
      requires Booked(s) && c.name in s.conns && c.name in s.names
      requires Placed(s, c.name) && c.loop == s.conns[c.name].loop
      modifies this`connections, this`loops
      ensures Booked(ServerSteps.RemoveConnectionInLoop(s, c.name))
      ensures connections == old(connections) - {c.name} && c.name in old(connections)
    {
      connections := connections - {c.name};
      QueueInLoop(c.loop, Destroy(c.name));
    }

    /** The end of a connection, from its loop: the close callback is runInLoop of the acceptor's loop. */
    method HandleClose(c: T.TcpConnection, ghost s: Server)
      requires Booked(s) && Objects(conns, s.conns) && Known(conns, c)
      requires Placed(s, c.name) && 0 < |loops| && c.name in s.names && s.conns[c.name].Open()
      modifies this`connections, this`loops, c`state, c`reading, c`writing, c`reports, c`closes
      ensures var t := ServerSteps.HandleClose(s, c.name); Booked(t) && Objects(conns, t.conns)
      ensures c.state.Disconnected?
    {
      assert Holds(conns, s.conns, c.name);
      CloseOne(conns, s.conns, c);
      RemoveConnection(c, Update(s, c.name, Closed(s.conns[c.name])));
    }

    method RemoveConnection(c: T.TcpConnection, ghost s: Server)
      requires Booked(s) && c.name in s.conns && c.name in s.names
      requires Placed(s, c.name) && c.loop == s.conns[c.name].loop
      requires 0 < |loops|
      modifies this`connections, this`loops
      ensures Booked(if c.loop == 0 then ServerSteps.RemoveConnectionInLoop(s, c.name)
                     else Enqueue(s, 0, Remove(c.name)))
    {
      if c.loop == 0 {
        RemoveConnectionInLoop(c, s);
      } else {
        QueueInLoop(0, Remove(c.name));
      }
    }

    // ---- The steps of the protocol ----

    method Shutdown(c: T.TcpConnection, inLoopThread: bool)
      requires Valid() && Apart(conns) && Known(conns, c)
      modifies this`state, this`trace, this`loops, c`state, c`shutWrite, c`shutting, c`delayed
      ensures Valid() && Apart(conns) && trace == old(trace) + [ServerSteps.Shutdown(c.name, inLoopThread)]
    {
      IsPlaced(c.name);
      HalfClose(c, false, inLoopThread, state);
      Commit(ServerSteps.Shutdown(c.name, inLoopThread));
    }

    method ForceCloseWithDelay(c: T.TcpConnection)
      requires Valid() && Apart(conns) && Known(conns, c)
      modifies this`state, this`trace, this`loops, c`state, c`shutWrite, c`shutting, c`delayed
      ensures Valid() && Apart(conns) && trace == old(trace) + [ServerSteps.Shutdown(c.name, true)]
    {
      IsPlaced(c.name);
      HalfClose(c, true, true, state);
      Commit(ServerSteps.Shutdown(c.name, true));
    }

    method HalfClose(c: T.TcpConnection, delay: bool, inLoopThread: bool, ghost s: Server)
      requires Booked(s) && Objects(conns, s.conns) && Known(conns, c) && (delay ==> inLoopThread)
      requires Enabled(s, ServerSteps.Shutdown(c.name, inLoopThread))
      modifies this`loops, c`state, c`shutWrite, c`shutting, c`delayed
      ensures var t := Step(s, ServerSteps.Shutdown(c.name, inLoopThread)); Booked(t) && Objects(conns, t.conns)
    {
      assert Holds(conns, s.conns, c.name);
      var posted := HalfCloseOne(conns, s.conns, c, delay, inLoopThread);
      if posted != [] {
        loops := loops[c.loop := loops[c.loop] + Others(c.name, posted)];
      }
    }

    method ForceClose(c: T.TcpConnection, delayed: bool)
      requires Valid() && Apart(conns) && Known(conns, c) && (delayed ==> c.delayed > 0)
      modifies this`state, this`trace, this`loops, c`state, c`closing, c`delayed
      ensures Valid() && Apart(conns) && trace == old(trace) + [ServerSteps.ForceClose(c.name)]
    {
      IsPlaced(c.name);
      Ask(c, delayed, state);
      Commit(ServerSteps.ForceClose(c.name));
    }

    method Ask(c: T.TcpConnection, delayed: bool, ghost s: Server)
      requires Booked(s) && Objects(conns, s.conns) && Known(conns, c) && (delayed ==> c.delayed > 0)
      requires Enabled(s, ServerSteps.ForceClose(c.name))
      modifies this`loops, c`state, c`closing, c`delayed
      ensures var t := Step(s, ServerSteps.ForceClose(c.name)); Booked(t) && Objects(conns, t.conns)
    {
      assert Holds(conns, s.conns, c.name);
      var posted := AskToCloseOne(conns, s.conns, c, delayed);
      if posted != [] {
        QueueInLoop(c.loop, CloseNow(c.name));
      }
    }

    /** A connection is accepted for an I/O loop: it enters the map, and is established there. */
    method NewConnection(io: nat, highWaterMark: nat) returns (c: T.TcpConnection)
      requires Valid() && Apart(conns) && io < |loops|
      modifies this`state, this`trace, this`nextConnId, this`conns, this`connections, this`loops
      ensures Valid() && Apart(conns) && trace == old(trace) + [Accept(io)]
      ensures fresh(c) && Known(conns, c) && c.name in connections && c.name !in old(conns)
    {
      assert nextConnId !in conns && Enabled(state, Accept(io)) by {
        StateInv();
      }
      c := Start(io, highWaterMark, state);
      forall i, j | i != j ensures Separate(conns, i, j) {
        assert old(Separate(conns, i, j));
      }
      Commit(Accept(io));
    }

    method Start(io: nat, highWaterMark: nat, ghost s: Server) returns (c: T.TcpConnection)
      requires Booked(s) && Objects(conns, s.conns) && Enabled(s, Accept(io)) && nextConnId !in conns
      modifies this`nextConnId, this`conns, this`connections, this`loops
      ensures var t := Step(s, Accept(io)); Booked(t) && Objects(conns, t.conns)
      ensures fresh(c) && Known(conns, c) && c.name in connections && c.name == old(nextConnId)
      ensures conns == old(conns)[c.name := c] && fresh(c.output) && fresh(c.output.buffer)
    {
      c := Admit(io, highWaterMark, s);
      if io == 0 {
        EstablishOne(conns, Admitted(s, io).conns, c);
      } else {
        QueueInLoop(io, Task.Establish(c.name));
      }
    }

    method Admit(io: nat, highWaterMark: nat, ghost s: Server) returns (c: T.TcpConnection)
      requires Booked(s) && Objects(conns, s.conns) && nextConnId !in conns
      modifies this`nextConnId, this`conns, this`connections
      ensures Booked(Admitted(s, io)) && Objects(conns, Admitted(s, io).conns) && Known(conns, c)
      ensures fresh(c) && c.name == old(nextConnId) && c.name in connections && c.loop == io
      ensures conns == old(conns)[c.name := c] && fresh(c.output) && fresh(c.output.buffer)
    {
      c := new T.TcpConnection(nextConnId, io, highWaterMark, true, true);
      nextConnId := nextConnId + 1;
      conns := conns[c.name := c];
      connections := connections[c.name := c];
      forall d | d in conns ensures Holds(conns, Admitted(s, io).conns, d) {
        assert d != c.name ==> old(Holds(conns, s.conns, d));
      }
    }

    /** A poll reported the channel: hang-up is handled before reading. A report that closes the connection
        twice breaks the assertion in the second close, and no other does. */
    method HandleEvent(c: T.TcpConnection, report: Report) returns (aborted: bool)
      requires Valid() && Apart(conns) && Known(conns, c) && (c.reading || c.writing)
      modifies this`state, this`trace, this`connections, this`loops, c`state, c`reading, c`writing, c`reports, c`closes
      ensures aborted <==> report.hup && !report.readable && report.urgent && report.eof
      ensures !c.state.Connecting?
      ensures !aborted ==>
        (c.state.Disconnected? <==>
         (report.hup && !report.readable) || ((report.readable || report.urgent) && report.eof))
      ensures !aborted ==> c.reports == if c.state.Disconnected? then [true, false] else [true]
      ensures !aborted ==> Valid() && Apart(conns) && trace == old(trace) + [Poll(c.name, report)]
    {
      assert Enabled(state, Poll(c.name, report)) && 0 < |loops| && c.name in state.names
             && state.conns[c.name].Open() && !c.state.Connecting? by {
        assert Holds(conns, state.conns, c.name);
        StateInv();
      }
      aborted := Handle(c, report, state);
      if !aborted {
        Commit(Poll(c.name, report));
        assert Holds(conns, state.conns, c.name);
      }
    }

    /** The whole report of a channel: reading comes before writing. */
    method HandleChannel(c: T.TcpConnection, report: Report, writable: bool, kernel: T.Answer) returns (aborted: bool)
      requires Valid() && Apart(conns) && Known(conns, c) && (c.reading || c.writing)
      requires Drain(kernel).Possible(c)
      modifies this`state, this`trace, this`connections, this`loops, c, c.output, c.output.buffer
      ensures aborted <==> report.hup && !report.readable && report.urgent && report.eof
      ensures !aborted ==> Valid() && Apart(conns)
      ensures !aborted ==>
        (c.state.Disconnected? <==>
         (report.hup && !report.readable) || ((report.readable || report.urgent) && report.eof))
      ensures !aborted ==>
        trace[..|trace| - if writable then 1 else 0] == old(trace) + [Poll(c.name, report)]
        && (writable ==> trace[|trace| - 1].Traffic? && trace[|trace| - 1].id == c.name)
    {
      aborted := HandleEvent(c, report);
      if !aborted && writable {
        var posted := Transfers(c, Drain(kernel));
      }
    }

    method Handle(c: T.TcpConnection, report: Report, ghost s: Server) returns (aborted: bool)
      requires Booked(s) && Objects(conns, s.conns) && Known(conns, c)
      requires Enabled(s, Poll(c.name, report)) && 0 < |loops| && c.name in s.names && s.conns[c.name].Open()
      modifies this`connections, this`loops, c`state, c`reading, c`writing, c`reports, c`closes
      ensures aborted <==> report.hup && !report.readable && report.urgent && report.eof
      ensures c.state == old(c.state) || c.state.Disconnected?
      ensures !aborted ==>
        (c.state.Disconnected? <==>
         (report.hup && !report.readable) || ((report.readable || report.urgent) && report.eof))
      ensures var t := Step(s, Poll(c.name, report)); !aborted ==> Booked(t) && Objects(conns, t.conns)
    {
      aborted := false;
      assert Holds(conns, s.conns, c.name);
      if report.hup && !report.readable {
        HandleClose(c, s);
        assert Holds(conns, ServerSteps.HandleClose(s, c.name).conns, c.name);
      }
      if (report.readable || report.urgent) && report.eof {
        if c.state == Disconnected {
          aborted := true;
        } else {
          HandleClose(c, s);
        }
      }
    }

    /** A loop runs the first of its tasks: the assertions in it hold because its connection awaits it. */
    method RunTask(l: nat)
      requires Valid() && Apart(conns) && l < |loops| && loops[l] != [] && !loops[l][0].Other?
      modifies this`state, this`trace, this`connections, this`loops, conns.Values
      ensures Valid() && Apart(conns) && trace == old(trace) + [ServerSteps.RunTask(l)]
    {
      assert Enabled(state, ServerSteps.RunTask(l)) && Ready(state, loops[l][0]) by {
        StateInv();
        NextIsAwaited(state, l);
      }
      var task := loops[l][0];
      assert Holds(conns, state.conns, task.id);
      Do(l, conns[task.id], state);
      Commit(ServerSteps.RunTask(l));
    }

    /** The same for what the connection posted itself. */
    method RunOwn(l: nat, kernel: T.Answer) returns (posted: seq<T.Task>)
      requires Valid() && Apart(conns) && l < |loops| && loops[l] != [] && loops[l][0].Other?
      requires loops[l][0].what.Message? && loops[l][0].id in conns ==>
                 T.Possible(kernel, |loops[l][0].what.data|, conns[loops[l][0].id].shutWrite)
      modifies this`state, this`trace, this`connections, this`loops, conns.Values, Outputs(conns), Arrays(conns)
      ensures Valid() && Apart(conns)
      ensures trace == old(trace) + [ServerSteps.RunTask(l), Traffic(old(loops)[l][0].id, posted)]
    {
      assert Enabled(state, ServerSteps.RunTask(l)) && Ready(state, loops[l][0]) by {
        StateInv();
        NextIsAwaited(state, l);
      }
      var task := loops[l][0];
      assert Holds(conns, state.conns, task.id);
      Take(l);
      posted := Transfers(conns[task.id], Queued(task.what, kernel));
    }

    method Take(l: nat)
      requires Valid() && Apart(conns) && l < |loops| && loops[l] != [] && loops[l][0].Other?
      requires Enabled(state, ServerSteps.RunTask(l))
      modifies this`state, this`trace, this`loops
      ensures Valid() && Apart(conns) && trace == old(trace) + [ServerSteps.RunTask(l)]
    {
      loops := loops[l := loops[l][1..]];
      Commit(ServerSteps.RunTask(l));
    }

    method Do(l: nat, c: T.TcpConnection, ghost s: Server)
      requires Booked(s) && Objects(conns, s.conns) && l < |loops| && loops[l] != [] && !loops[l][0].Other?
      requires Known(conns, c) && loops[l][0].id == c.name && Placed(s, c.name) && Ready(s, loops[l][0])
      modifies this`connections, this`loops, c
      ensures var t := Step(s, ServerSteps.RunTask(l)); Booked(t) && Objects(conns, t.conns)
    {
      var task := loops[l][0];
      assert Holds(conns, s.conns, c.name);
      loops := loops[l := loops[l][1..]];
      match task
      case Establish(_) => EstablishOne(conns, s.conns, c);
      case Remove(_) => RemoveConnectionInLoop(c, Pop(s, l));
      case Destroy(_) => DestroyOne(conns, s.conns, c);
      case CloseNow(_) => AnswerClose(c, Pop(s, l));
    }

    method AnswerClose(c: T.TcpConnection, ghost s: Server)
      requires Booked(s) && Objects(conns, s.conns) && Known(conns, c) && Placed(s, c.name) && 0 < |loops|
      requires s.conns[c.name].closing > 0 && (s.conns[c.name].Open() ==> c.name in s.names)
      modifies this`connections, this`loops, c`state, c`reading, c`writing, c`reports, c`closes, c`closing
      ensures var t := ServerSteps.ForceCloseInLoop(s, c.name); Booked(t) && Objects(conns, t.conns)
    {
      assert Holds(conns, s.conns, c.name);
      var closed := CloseNowOne(conns, s.conns, c);
      if closed {
        ghost var u := Update(s, c.name, Closed(Asking(s.conns[c.name])));
        RemoveConnection(c, u);
        ClosedWhenAsked(s, c.name);
      }
    }

    /** Bytes come and go, on one connection. */
    method Transfers(c: T.TcpConnection, what: Transfer) returns (posted: seq<T.Task>)
      requires Valid() && Apart(conns) && Known(conns, c) && !c.state.Connecting? && what.Possible(c)
      modifies this`loops, this`state, this`trace, c, c.output, c.output.buffer
      ensures Valid() && Apart(conns) && trace == old(trace) + [Traffic(c.name, posted)] && c.state == old(c.state)
      ensures c.loop < |old(loops)| && loops == old(loops)[c.loop := old(loops)[c.loop] + Others(c.name, posted)]
    {
      posted := ExchangeOne(conns, state.conns, c, what);
      Queue(c, posted);
    }

    /** What a connection posted goes to the end of its loop: a message only while it is connected. */
    method Queue(c: T.TcpConnection, posted: seq<T.Task>)
      requires Valid() && Apart(conns) && Known(conns, c) && !c.state.Connecting?
      requires T.CloseNow !in posted && T.ShutDown !in posted
      requires c.state.Connected? || forall t :: t in posted ==> !t.Message?
      modifies this`loops, this`state, this`trace
      ensures Valid() && Apart(conns) && trace == old(trace) + [Traffic(c.name, posted)]
      ensures c.loop < |old(loops)|
      ensures loops == old(loops)[c.loop := old(loops)[c.loop] + Others(c.name, posted)]
    {
      assert Holds(conns, state.conns, c.name);
      IsPlaced(c.name);
      loops := loops[c.loop := loops[c.loop] + Others(c.name, posted)];
      Commit(Traffic(c.name, posted));
    }

    /** A message from another thread, whose test of the state has passed before. */
    method QueueLate(c: T.TcpConnection, data: seq<byte>)
      requires Valid() && Apart(conns) && Known(conns, c) && !c.state.Connecting?
      modifies this`loops, this`state, this`trace
      ensures Valid() && Apart(conns) && trace == old(trace) + [Late(c.name, data)]
    {
      assert Holds(conns, state.conns, c.name);
      IsPlaced(c.name);
      loops := loops[c.loop := loops[c.loop] + Others(c.name, [T.Message(data)])];
      Commit(Late(c.name, data));
    }

  }

  lemma ClosedWhenAsked(s: Server, id: nat)
    requires id in s.conns && Placed(s, id) && s.conns[id].closing > 0 && s.conns[id].Open() && id in s.names
    requires 0 < |s.queues|
    ensures var u := Update(s, id, Closed(Asking(s.conns[id])));
            ServerSteps.ForceCloseInLoop(s, id)
            == if s.conns[id].loop == 0 then ServerSteps.RemoveConnectionInLoop(u, id) else Enqueue(u, 0, Remove(id))
  {
    var asking := Asking(s.conns[id]);
    assert s.conns[id := asking][id := Closed(asking)] == s.conns[id := Closed(asking)];
  }

  ghost function Admitted(s: Server, io: nat): Server {
    s.(nextId := s.nextId + 1, names := s.names + {s.nextId},
       conns := s.conns[s.nextId := Conn(io, Connecting, false, false, [], 0, 0)])
  }
}
