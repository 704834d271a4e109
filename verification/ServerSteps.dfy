/** The life of the connections of a server, as steps that its acceptor loop and its I/O loops interleave. */
module ServerSteps {
  import opened Bytes
  import opened ConnectionPhase
  import T = TcpConnection

  /** One connection; its loop is an index, 0 being that of the acceptor. `added`: known to the poller;
      `reports`: what its callback was told, UP as true; `closing`: closes that forceClose queued and that
      have yet to run. */
  datatype Conn = Conn(loop: nat, phase: Phase, interest: bool, added: bool, reports: seq<bool>, destroyed: nat,
                       closing: nat)
  {
    predicate Open() {
      phase.Connected? || phase.Disconnecting?
    }
  }

  /** What loops queue for each other. Other stands for what the connection posted but for closes, which leaves
      the life of the connection alone. */
  datatype Task =
    | Establish(id: nat)
    | Remove(id: nat)
    | Destroy(id: nat)
    | CloseNow(id: nat)
    | Other(id: nat, what: T.Task)
  {
    /** Bound to the bare object. Every other task holds its connection alive. */
    predicate Raw() {
      Other? && what.Raw()
    }
  }

  /** Connections are numbered as in their names; `names` are those in the map of the server.
      `failed` records an assertion that did not hold. */
  datatype Server = Server(nextId: nat, names: set<nat>, conns: map<nat, Conn>, queues: seq<seq<Task>>, failed: bool)
  {
    function Count(l: nat, t: Task): nat
      requires l < |queues|
    {
      multiset(queues[l])[t]
    }
  }

  /** What a poll reports of one channel, `urgent` for POLLPRI; POLLRDHUP is never asked for. `eof` is what a read
      would find. */
  datatype Report = Report(hup: bool, readable: bool, urgent: bool, eof: bool)
  {
    /** POLLHUP without POLLIN. */
    predicate Closes() {
      hup && !readable
    }
    /** The read callback is called, and reads nothing. */
    predicate Ends() {
      (readable || urgent) && eof
    }
  }

  datatype Event =
    | Accept(io: nat)
    | RunTask(l: nat)
    | Poll(id: nat, report: Report)
    | Shutdown(id: nat, inLoopThread: bool)
    | ForceClose(id: nat)
    | Traffic(id: nat, posts: seq<T.Task>)
    // a message from another thread, which found the connection open some time before
    | Late(id: nat, data: seq<byte>)

  function Fresh(loops: nat): Server {
    Server(1, {}, map[], seq(loops, _ => []), false)
  }

  predicate Enabled(s: Server, e: Event) {
    match e
    case Accept(io) => 0 < |s.queues| && io < |s.queues|
    case RunTask(l) => l < |s.queues| && s.queues[l] != [] && s.queues[l][0].id in s.conns
                       && Placed(s, s.queues[l][0].id)
    case Poll(id, _) => id in s.conns && s.conns[id].interest && Placed(s, id)
    case Shutdown(id, _) => id in s.conns && Placed(s, id)
    case ForceClose(id) => id in s.conns && Placed(s, id)
    case Traffic(id, posts) =>
      id in s.conns && Placed(s, id) && !s.conns[id].phase.Connecting?
      && T.ShutDown !in posts && T.CloseNow !in posts
      && (s.conns[id].phase.Connected? || forall p :: p in posts ==> !p.Message?)
    case Late(id, _) => id in s.conns && Placed(s, id) && !s.conns[id].phase.Connecting?
  }

  predicate Placed(s: Server, id: nat)
    requires id in s.conns
  {
    s.conns[id].loop < |s.queues|
  }

  // ---- What the callbacks do ----

  function Enqueue(s: Server, l: nat, t: Task): Server
    requires l < |s.queues|
  {
    s.(queues := s.queues[l := s.queues[l] + [t]])
  }

  function Check(s: Server, holds: bool): Server {
    s.(failed := s.failed || !holds)
  }

  // What becomes of the connection itself.

  function Established(c: Conn): Conn {
    c.(phase := Connected, interest := true, added := true, reports := c.reports + [true])
  }

  function Closed(c: Conn): Conn {
    c.(phase := Disconnected, interest := false, reports := c.reports + [false])
  }

  function Destroyed(c: Conn): Conn {
    var d := if c.phase.Connected? then Closed(c) else c;
    d.(added := false, destroyed := d.destroyed + 1)
  }

  function HalfClosed(c: Conn): Conn {
    c.(phase := Disconnecting)
  }

  function AskedToClose(c: Conn): Conn {
    c.(phase := Disconnecting, closing := c.closing + 1)
  }

  /** A close that forceClose queued has come to run. */
  function Asking(c: Conn): Conn {
    c.(closing := if c.closing > 0 then c.closing - 1 else 0)
  }

  function Update(s: Server, id: nat, c: Conn): Server {
    s.(conns := s.conns[id := c])
  }

  function ConnectEstablished(s: Server, id: nat): Server
    requires id in s.conns
  {
    Update(Check(s, s.conns[id].phase.Connecting?), id, Established(s.conns[id]))
  }

  function RemoveConnectionInLoop(s: Server, id: nat): Server
    requires id in s.conns && Placed(s, id)
  {
    Enqueue(Check(s, id in s.names).(names := s.names - {id}), s.conns[id].loop, Destroy(id))
  }

  /** The connection tells DOWN and the server, which removes it in the loop of the acceptor. */
  function HandleClose(s: Server, id: nat): Server
    requires id in s.conns && Placed(s, id)
  {
    var c := s.conns[id];
    var closed := Update(Check(s, c.Open()), id, Closed(c));
    if c.loop == 0 then RemoveConnectionInLoop(closed, id) else Enqueue(closed, 0, Remove(id))
  }

  function ConnectDestroyed(s: Server, id: nat): Server
    requires id in s.conns
  {
    var c := s.conns[id];
    Update(Check(s, c.phase.Connected? || !c.interest), id, Destroyed(c))
  }

  /** A close that forceClose queued: as if the peer had closed, unless that happened before. */
  function ForceCloseInLoop(s: Server, id: nat): Server
    requires id in s.conns && Placed(s, id)
  {
    var c := s.conns[id];
    var begun := Update(Check(s, c.closing > 0), id, Asking(c));
    if c.Open() then HandleClose(begun, id) else begun
  }

  function Do(s: Server, t: Task): Server
    requires t.id in s.conns && Placed(s, t.id)
  {
    match t
    case Establish(id) => ConnectEstablished(s, id)
    case Remove(id) => RemoveConnectionInLoop(s, id)
    case Destroy(id) => ConnectDestroyed(s, id)
    case CloseNow(id) => ForceCloseInLoop(s, id)
    case Other(_, _) => s
  }

  function Pop(s: Server, l: nat): Server
    requires l < |s.queues| && s.queues[l] != []
  {
    s.(queues := s.queues[l := s.queues[l][1..]])
  }

  function NewConnection(s: Server, io: nat): Server
    requires 0 < |s.queues| && io < |s.queues|
  {
    var id := s.nextId;
    var c := Conn(io, Connecting, false, false, [], 0, 0);
    var created := s.(nextId := id + 1, names := s.names + {id}, conns := s.conns[id := c]);
    if io == 0 then ConnectEstablished(created, id) else Enqueue(created, io, Establish(id))
  }

  function HandleEvent(s: Server, id: nat, report: Report): Server
    requires id in s.conns && Placed(s, id)
  {
    var t := if report.Closes() then HandleClose(s, id) else s;
    if report.Ends() then HandleClose(t, id) else t
  }

  /** Another thread leaves the socket to the loop. */
  function Disconnect(s: Server, id: nat, inLoopThread: bool): Server
    requires id in s.conns && Placed(s, id)
  {
    var t := Update(s, id, HalfClosed(s.conns[id]));
    if inLoopThread then t else Post(t, id, [T.ShutDown])
  }

  function Close(s: Server, id: nat): Server
    requires id in s.conns && Placed(s, id)
  {
    var c := s.conns[id];
    Enqueue(Update(s, id, AskedToClose(c)), c.loop, CloseNow(id))
  }

  function Others(id: nat, posts: seq<T.Task>): (ts: seq<Task>)
    ensures |ts| == |posts| && forall i :: 0 <= i < |ts| ==> ts[i] == Other(id, posts[i])
  {
    seq(|posts|, i requires 0 <= i < |posts| => Other(id, posts[i]))
  }

  function Post(s: Server, id: nat, posts: seq<T.Task>): Server
    requires id in s.conns && Placed(s, id)
  {
    s.(queues := s.queues[s.conns[id].loop := s.queues[s.conns[id].loop] + Others(id, posts)])
  }

  function Step(s: Server, e: Event): Server
    requires Enabled(s, e)
  {
    match e
    case Accept(io) => NewConnection(s, io)
    case RunTask(l) => Do(Pop(s, l), s.queues[l][0])
    case Poll(id, report) => HandleEvent(s, id, report)
    case Shutdown(id, here) => if s.conns[id].phase.Connected? then Disconnect(s, id, here) else s
    case ForceClose(id) => if s.conns[id].Open() then Close(s, id) else s
    case Traffic(id, posts) => Post(s, id, posts)
    case Late(id, data) => Post(s, id, [T.Message(data)])
  }

  // ---- The invariant ----

  /** The stage of a connection says what it was told and done. */
  predicate Sound(c: Conn, named: bool) {
    match c.phase
    case Connecting => named && !c.interest && !c.added && c.reports == [] && c.destroyed == c.closing == 0
    case Disconnected =>
      && !c.interest && c.reports == [true, false] && (named ==> c.added)
      && c.destroyed == if c.added then 0 else 1
    case _ => named && c.interest && c.added && c.reports == [true] && c.destroyed == 0
  }

  /** How often a task is queued: where its connection awaits it, and otherwise nowhere. */
  function Awaited(s: Server, l: nat, t: Task): nat
    requires !t.Other?
  {
    if t.id !in s.conns then 0
    else
      var c := s.conns[t.id];
      match t
      case Establish(id) => if c.phase.Connecting? && l == c.loop then 1 else 0
      case Remove(id) => if c.phase.Disconnected? && id in s.names && l == 0 then 1 else 0
      case Destroy(id) => if c.phase.Disconnected? && id !in s.names && c.added && l == c.loop then 1 else 0
      case CloseNow(id) => if l == c.loop then c.closing else 0
  }

  ghost predicate Right(s: Server, l: nat, t: Task)
    requires l < |s.queues|
  {
    if t.Other? then
      s.Count(l, t) > 0 ==>
        && t.id in s.conns && !s.conns[t.id].phase.Connecting? && l == s.conns[t.id].loop
        && !t.what.CloseNow? && (t.what.ShutDown? ==> !s.conns[t.id].phase.Connected?)
    else s.Count(l, t) == Awaited(s, l, t)
  }

  ghost predicate Queued(s: Server) {
    forall l: nat, t: Task | l < |s.queues| :: Right(s, l, t)
  }

  ghost predicate Inv(s: Server) {
    && !s.failed && 0 < |s.queues| && 0 < s.nextId
    && (forall id: nat :: id in s.conns <==> 0 < id < s.nextId)
    && (forall id :: id in s.names ==> id in s.conns)
    && (forall id :: id in s.conns ==> Placed(s, id) && Sound(s.conns[id], id in s.names))
    && Queued(s)
  }

  lemma EnqueueCounts(s: Server, l: nat, t: Task, m: nat, u: Task)
    requires l < |s.queues| && m < |s.queues|
    ensures Enqueue(s, l, t).Count(m, u) == s.Count(m, u) + if m == l && u == t then 1 else 0
  {
  }

  lemma PopCounts(s: Server, l: nat, m: nat, u: Task)
    requires l < |s.queues| && s.queues[l] != [] && m < |s.queues|
    ensures s.Count(m, u) == Pop(s, l).Count(m, u) + if m == l && u == s.queues[l][0] then 1 else 0
  {
    var q := s.queues[l];
    assert q == [q[0]] + q[1..];
  }

  lemma NewKeeps(s: Server, io: nat)
    requires Inv(s) && io < |s.queues|
    ensures Inv(NewConnection(s, io))
  {
    forall m: nat, u: Task | m < |s.queues| ensures Right(NewConnection(s, io), m, u) {
      assert Right(s, m, u);
      RightAfterNew(s, io, m, u);
    }
  }

  lemma RightAfterNew(s: Server, io: nat, m: nat, u: Task)
    requires io < |s.queues| && m < |s.queues| && Right(s, m, u) && s.nextId !in s.conns
    ensures Right(NewConnection(s, io), m, u)
  {
    EnqueueCounts(NewConnection(s, io).(queues := s.queues), io, Establish(s.nextId), m, u);
  }

  lemma CloseKeeps(s: Server, id: nat)
    requires Inv(s) && id in s.conns && s.conns[id].Open()
    ensures Inv(HandleClose(s, id))
  {
    var t := HandleClose(s, id);
    forall m: nat, u: Task | m < |s.queues| ensures Right(t, m, u) {
      assert Right(s, m, u);
      if s.conns[id].loop == 0 {
        RightAfterClose(s, id, t, 0, Destroy(id), m, u);
      } else {
        RightAfterClose(s, id, t, 0, Remove(id), m, u);
      }
    }
  }

  /** A close queues one task, which is the one awaited. */
  lemma RightAfterClose(s: Server, id: nat, t: Server, l: nat, task: Task, m: nat, u: Task)
    requires id in s.conns && s.conns[id].Open() && id in s.names && s.conns[id].added
    requires l < |s.queues| && m < |s.queues| && Right(s, m, u)
    requires t.conns.Keys == s.conns.Keys && t.queues == Enqueue(s, l, task).queues
    requires forall d :: d in s.conns && d != id ==> t.conns[d] == s.conns[d] && (d in t.names <==> d in s.names)
    requires t.conns[id].phase.Disconnected? && t.conns[id].added && t.conns[id].loop == s.conns[id].loop
    requires t.conns[id].closing == s.conns[id].closing
    requires l == 0 && if id in t.names then task == Remove(id) else task == Destroy(id) && s.conns[id].loop == 0
    ensures Right(t, m, u)
  {
    EnqueueCounts(s, l, task, m, u);
  }

  /** What the assertions in a task demand of the connection. */
  predicate Ready(s: Server, t: Task) {
    match t
    case Establish(id) => id in s.conns && s.conns[id].phase.Connecting?
    case Remove(id) => id in s.conns && id in s.names
    case Destroy(id) => id in s.conns && s.conns[id].phase.Disconnected? && s.conns[id].added
    case CloseNow(id) => id in s.conns && s.conns[id].closing > 0 && (s.conns[id].Open() ==> id in s.names)
    case Other(id, what) =>
      && id in s.conns && !s.conns[id].phase.Connecting?
      && !what.CloseNow? && (what.ShutDown? ==> !s.conns[id].phase.Connected?)
  }

  /** The task that a loop takes next is one that its connection awaits there, so its assertions hold. */
  lemma NextIsAwaited(s: Server, l: nat)
    requires Inv(s) && l < |s.queues| && s.queues[l] != []
    ensures Ready(s, s.queues[l][0]) && (s.queues[l][0].Other? || Awaited(s, l, s.queues[l][0]) > 0)
    ensures Enabled(s, RunTask(l))
  {
    var t := s.queues[l][0];
    assert t in multiset(s.queues[l]);
    assert Right(s, l, t) && s.Count(l, t) > 0;
  }

  lemma TaskKeeps(s: Server, l: nat)
    requires Inv(s) && Enabled(s, RunTask(l)) && !s.queues[l][0].CloseNow? && !s.queues[l][0].Remove?
    ensures Inv(Step(s, RunTask(l)))
  {
    NextIsAwaited(s, l);
    var next := s.queues[l][0];
    var t := Step(s, RunTask(l));
    forall m: nat, u: Task | m < |s.queues| ensures Right(t, m, u) {
      assert Right(s, m, u);
      PopCounts(s, l, m, u);
      assert u.id != next.id ==> (u.Other? || Awaited(t, m, u) == Awaited(s, m, u));
    }
  }

  lemma RemoveKeeps(s: Server, l: nat)
    requires Inv(s) && Enabled(s, RunTask(l)) && s.queues[l][0].Remove?
    ensures Inv(Step(s, RunTask(l)))
  {
    NextIsAwaited(s, l);
    forall m: nat, u: Task | m < |s.queues| ensures Right(Step(s, RunTask(l)), m, u) {
      assert Right(s, m, u);
      RightAfterRemove(s, l, m, u);
    }
  }

  lemma RightAfterRemove(s: Server, l: nat, m: nat, u: Task)
    requires Enabled(s, RunTask(l)) && s.queues[l][0].Remove? && m < |s.queues| && Right(s, m, u)
    requires var id := s.queues[l][0].id; id in s.names && Sound(s.conns[id], true) && Awaited(s, l, Remove(id)) > 0
    ensures Right(Step(s, RunTask(l)), m, u)
  {
    var id := s.queues[l][0].id;
    PopCounts(s, l, m, u);
    EnqueueCounts(Step(s, RunTask(l)).(queues := Pop(s, l).queues), s.conns[id].loop, Destroy(id), m, u);
  }

  /** Before the close itself: the task is gone, and counted no more. */
  function Begun(s: Server, l: nat): Server
    requires l < |s.queues| && s.queues[l] != [] && s.queues[l][0].id in s.conns
  {
    Update(Pop(s, l), s.queues[l][0].id, Asking(s.conns[s.queues[l][0].id]))
  }

  lemma CloseNowKeeps(s: Server, l: nat)
    requires Inv(s) && Enabled(s, RunTask(l)) && s.queues[l][0].CloseNow?
    ensures s.conns[s.queues[l][0].id].closing > 0 && Inv(Begun(s, l)) && Inv(Step(s, RunTask(l)))
  {
    NextIsAwaited(s, l);
    var begun := Begun(s, l);
    var id := s.queues[l][0].id;
    forall m: nat, u: Task | m < |s.queues| ensures Right(begun, m, u) {
      assert Right(s, m, u);
      PopCounts(s, l, m, u);
    }
    if s.conns[id].Open() {
      CloseKeeps(begun, id);
    }
  }

  lemma DisconnectKeeps(s: Server, id: nat, inLoopThread: bool)
    requires Inv(s) && id in s.conns && s.conns[id].phase.Connected?
    ensures Inv(Disconnect(s, id, inLoopThread))
  {
    var half := Update(s, id, HalfClosed(s.conns[id]));
    forall m: nat, u: Task | m < |s.queues| ensures Right(half, m, u) {
      assert Right(s, m, u);
    }
    PostKeeps(half, id, [T.ShutDown]);
  }

  lemma ForceKeeps(s: Server, id: nat)
    requires Inv(s) && id in s.conns
    ensures Inv(Step(s, ForceClose(id)))
  {
    if s.conns[id].Open() {
      var t := Close(s, id);
      var unqueued := t.(queues := s.queues);
      forall m: nat, u: Task | m < |s.queues| ensures Right(t, m, u) {
        assert Right(s, m, u);
        EnqueueCounts(unqueued, s.conns[id].loop, CloseNow(id), m, u);
      }
    }
  }

  lemma PostCounts(s: Server, id: nat, posts: seq<T.Task>, m: nat, u: Task)
    requires id in s.conns && Placed(s, id) && m < |s.queues|
    ensures Post(s, id, posts).Count(m, u) >= s.Count(m, u)
    ensures Post(s, id, posts).Count(m, u) > s.Count(m, u) ==>
            m == s.conns[id].loop && u.Other? && u.id == id && u.what in posts
  {
    var more := Others(id, posts);
    assert u in multiset(more) ==> u in more;
  }

  lemma PostKeeps(s: Server, id: nat, posts: seq<T.Task>)
    requires Inv(s) && id in s.conns && !s.conns[id].phase.Connecting?
    requires T.CloseNow !in posts && (T.ShutDown in posts ==> !s.conns[id].phase.Connected?)
    ensures Inv(Post(s, id, posts))
  {
    var t := Post(s, id, posts);
    forall m: nat, u: Task | m < |s.queues| ensures Right(t, m, u) {
      assert Right(s, m, u);
      PostCounts(s, id, posts, m, u);
    }
  }

  /** A report closes its connection if and only if it says hang-up without POLLIN, or that there is something to
      read, by POLLIN or POLLPRI, and there is nothing. Then DOWN is told and one removal is queued, or done in the
      loop of the acceptor; and else the report changes nothing. */
  lemma ClosesExactly(s: Server, id: nat, report: Report)
    requires Inv(s) && Enabled(s, Poll(id, report))
    requires !(report.hup && !report.readable && report.urgent && report.eof)
    ensures var t := Step(s, Poll(id, report));
            var c, d := s.conns[id], t.conns[id];
            if (report.hup && !report.readable) || ((report.readable || report.urgent) && report.eof) then
              && d == c.(phase := Disconnected, interest := false, reports := c.reports + [false])
              && d.reports == [true, false]
              && (if c.loop == 0
                  then id !in t.names && t.queues == s.queues[0 := s.queues[0] + [Destroy(id)]]
                  else id in t.names && t.queues == s.queues[0 := s.queues[0] + [Remove(id)]])
            else t == s
  {
  }

  /** A new connection of the acceptor's own loop is established at once, and any other by a task of its loop. */
  lemma AcceptEstablishes(s: Server, io: nat)
    requires Inv(s) && io < |s.queues|
    ensures var t, id := Step(s, Accept(io)), s.nextId;
            && id !in s.conns && t.conns.Keys == s.conns.Keys + {id} && id in t.names && t.conns[id].loop == io
            && (if io == 0 then t.conns[id].phase.Connected? && t.conns[id].reports == [true] && t.queues == s.queues
                else t.conns[id].phase.Connecting? && t.conns[id].reports == []
                     && t.queues == s.queues[io := s.queues[io] + [Establish(id)]])
  {
  }

  /** A shutdown half closes an open connection; another thread leaves the socket to the loop, by one task. */
  lemma ShutdownHalfCloses(s: Server, id: nat, inLoopThread: bool)
    requires Inv(s) && id in s.conns
    ensures var t, c := Step(s, Shutdown(id, inLoopThread)), s.conns[id];
            if c.phase.Connected? then
              && t.conns == s.conns[id := c.(phase := Disconnecting)] && t.names == s.names
              && t.queues == if inLoopThread then s.queues
                             else s.queues[c.loop := s.queues[c.loop] + [Other(id, T.ShutDown)]]
            else t == s
  {
    assert Others(id, [T.ShutDown]) == [Other(id, T.ShutDown)];
  }

  /** What a connection posts comes behind all that its loop has queued, in order, and changes nothing else. */
  lemma TrafficQueues(s: Server, id: nat, posts: seq<T.Task>)
    requires Inv(s) && Enabled(s, Traffic(id, posts))
    ensures var t, l := Step(s, Traffic(id, posts)), s.conns[id].loop;
            && t.(queues := s.queues) == s && |t.queues| == |s.queues|
            && (forall m :: 0 <= m < |s.queues| && m != l ==> t.queues[m] == s.queues[m])
            && |t.queues[l]| == |s.queues[l]| + |posts| && t.queues[l][..|s.queues[l]|] == s.queues[l]
            && forall i :: 0 <= i < |posts| ==> t.queues[l][|s.queues[l]| + i] == Other(id, posts[i])
  {
  }

  // ---- Tasks bound to the bare object ----

  /** Such a task comes before the end of its connection. */
  ghost predicate InTime(s: Server, l: nat, j: nat)
    requires l < |s.queues| && j < |s.queues[l]|
  {
    var t := s.queues[l][j];
    t.Raw() ==> t.id in s.conns && s.conns[t.id].destroyed == 0 && Destroy(t.id) !in s.queues[l][..j]
  }

  ghost predicate Safe(s: Server) {
    forall l: nat, j: nat | l < |s.queues| && j < |s.queues[l]| :: InTime(s, l, j)
  }

  /** The end of the connection has been queued or has come. */
  predicate Ended(s: Server, id: nat)
    requires id in s.conns
  {
    s.conns[id].phase.Disconnected? && id !in s.names
  }

  lemma DestroyIsQueued(s: Server, id: nat, l: nat)
    requires Inv(s) && id in s.conns && l < |s.queues|
    ensures Destroy(id) in s.queues[l] <==>
            l == s.conns[id].loop && Ended(s, id) && s.conns[id].added
  {
    assert Right(s, l, Destroy(id));
    assert Destroy(id) in s.queues[l] <==> Destroy(id) in multiset(s.queues[l]);
  }

  /** A message or shutdown posted now is in time if and only if the server has not removed the connection. */
  lemma PostIsSafeExactly(s: Server, id: nat, posts: seq<T.Task>)
    requires Inv(s) && Safe(s) && id in s.conns
    ensures Safe(Post(s, id, posts)) <==> !Ended(s, id) || forall p :: p in posts ==> !p.Raw()
  {
    var t, l := Post(s, id, posts), s.conns[id].loop;
    var n := |s.queues[l]|;
    DestroyIsQueued(s, id, l);
    forall m: nat, j: nat | m < |s.queues| && j < |s.queues[m]| ensures InTime(t, m, j) {
      assert InTime(s, m, j);
      assert t.queues[m][..j] == s.queues[m][..j];
    }
    forall j: nat | n <= j < |t.queues[l]|
      ensures InTime(t, l, j) <==> !posts[j - n].Raw() || !Ended(s, id)
    {
      assert t.queues[l][..j] == s.queues[l] + Others(id, posts)[..j - n];
      assert Destroy(id) !in Others(id, posts)[..j - n];
    }
    if p :| p in posts && p.Raw() && Ended(s, id) {
      var k :| 0 <= k < |posts| && posts[k] == p;
      assert !InTime(t, l, n + k);
    }
  }

  /** One more task that holds its connection. */
  lemma EnqueueIsSafe(s: Server, l: nat, t: Task)
    requires Safe(s) && l < |s.queues| && !t.Raw()
    ensures Safe(Enqueue(s, l, t))
  {
    var u := Enqueue(s, l, t);
    forall m: nat, j: nat | m < |u.queues| && j < |u.queues[m]| ensures InTime(u, m, j) {
      if j < |s.queues[m]| {
        assert InTime(s, m, j);
        assert u.queues[m][..j] == s.queues[m][..j];
      }
    }
  }

  lemma UpdateIsSafe(s: Server, t: Server)
    requires Safe(s) && t.queues == s.queues
    requires forall id :: id in s.conns ==> id in t.conns && t.conns[id].destroyed == s.conns[id].destroyed
    ensures Safe(t)
  {
    forall m: nat, j: nat | m < |t.queues| && j < |t.queues[m]| ensures InTime(t, m, j) {
      assert InTime(s, m, j);
    }
  }

  lemma PopIsSafe(s: Server, l: nat)
    requires Safe(s) && l < |s.queues| && s.queues[l] != []
    ensures Safe(Pop(s, l))
  {
    var t := Pop(s, l);
    forall m: nat, j: nat | m < |t.queues| && j < |t.queues[m]| ensures InTime(t, m, j) {
      if m == l {
        assert InTime(s, m, j + 1);
        assert s.queues[l][..j + 1] == [s.queues[l][0]] + t.queues[l][..j];
      } else {
        assert InTime(s, m, j);
      }
    }
  }

  lemma CloseIsSafe(s: Server, id: nat)
    requires Safe(s) && id in s.conns && Placed(s, id) && 0 < |s.queues|
    ensures Safe(HandleClose(s, id))
  {
    var c := s.conns[id];
    var closed := Update(Check(s, c.Open()), id, Closed(c));
    UpdateIsSafe(s, closed);
    if c.loop == 0 {
      RemoveIsSafe(closed, id);
    } else {
      EnqueueIsSafe(closed, 0, Remove(id));
    }
  }

  lemma RemoveIsSafe(s: Server, id: nat)
    requires Safe(s) && id in s.conns && Placed(s, id)
    ensures Safe(RemoveConnectionInLoop(s, id))
  {
    var t := Check(s, id in s.names).(names := s.names - {id});
    UpdateIsSafe(s, t);
    EnqueueIsSafe(t, s.conns[id].loop, Destroy(id));
  }

  /** No message of a connection is left behind its end. */
  lemma DestroyIsSafe(s: Server, l: nat, id: nat)
    requires Inv(s) && Safe(s) && l < |s.queues| && s.queues[l] != [] && s.queues[l][0] == Destroy(id)
    ensures id in s.conns && Safe(ConnectDestroyed(Pop(s, l), id))
  {
    NextIsAwaited(s, l);
    PopIsSafe(s, l);
    var p := Pop(s, l);
    var t := ConnectDestroyed(p, id);
    forall m: nat, j: nat | m < |t.queues| && j < |t.queues[m]| ensures InTime(t, m, j) {
      assert InTime(p, m, j);
      var u := p.queues[m][j];
      assert u in multiset(s.queues[m]) && Right(s, m, u);
      if m == l {
        assert InTime(s, l, j + 1);
        assert s.queues[l][..j + 1][0] == Destroy(id);
      }
    }
  }

  /** The server has not removed the connection when the message comes. */
  predicate OnTime(s: Server, e: Event) {
    e.Late? ==> e.id in s.conns && !Ended(s, e.id)
  }

  lemma StepIsSafeExactly(s: Server, e: Event)
    requires Inv(s) && Safe(s) && Enabled(s, e) && !Doubled(e)
    ensures Safe(Step(s, e)) <==> OnTime(s, e)
  {
    match e
    case Accept(io) => NewIsSafe(s, io);
    case RunTask(l) =>
      PopIsSafe(s, l);
      TaskIsSafe(s, l);
    case Poll(id, _) => CloseIsSafe(s, id);
    case Shutdown(id, here) =>
      if s.conns[id].phase.Connected? {
        DisconnectKeeps(s, id, true);
        UpdateIsSafe(s, Disconnect(s, id, true));
        if !here {
          PostIsSafeExactly(Disconnect(s, id, true), id, [T.ShutDown]);
        }
      }
    case ForceClose(id) =>
      var c := s.conns[id];
      if c.Open() {
        var asked := Update(s, id, AskedToClose(c));
        UpdateIsSafe(s, asked);
        EnqueueIsSafe(asked, c.loop, CloseNow(id));
      }
    case Traffic(id, posts) => PostIsSafeExactly(s, id, posts);
    case Late(id, data) =>
      PostIsSafeExactly(s, id, [T.Message(data)]);
      assert T.Message(data) in [T.Message(data)];
  }

  lemma NewIsSafe(s: Server, io: nat)
    requires Inv(s) && Safe(s) && io < |s.queues|
    ensures Safe(NewConnection(s, io))
  {
    var id := s.nextId;
    var created := s.(nextId := id + 1, names := s.names + {id},
                      conns := s.conns[id := Conn(io, Connecting, false, false, [], 0, 0)]);
    UpdateIsSafe(s, created);
    if io == 0 {
      UpdateIsSafe(created, ConnectEstablished(created, id));
    } else {
      EnqueueIsSafe(created, io, Establish(id));
    }
  }

  lemma TaskIsSafe(s: Server, l: nat)
    requires Inv(s) && Safe(s) && Enabled(s, RunTask(l)) && Safe(Pop(s, l))
    ensures Safe(Step(s, RunTask(l)))
  {
    var p := Pop(s, l);
    match s.queues[l][0]
    case Establish(id) => UpdateIsSafe(p, ConnectEstablished(p, id));
    case Remove(id) => RemoveIsSafe(p, id);
    case Destroy(id) => DestroyIsSafe(s, l, id);
    case CloseNow(id) =>
      var begun := Update(Check(p, p.conns[id].closing > 0), id, Asking(p.conns[id]));
      UpdateIsSafe(p, begun);
      if p.conns[id].Open() {
        CloseIsSafe(begun, id);
      }
    case Other(_, _) =>
  }

  // ---- Every run ----

  predicate Doubled(e: Event) {
    e.Poll? && e.report.Closes() && e.report.Ends()
  }

  /** A step breaks an assertion exactly when one report closes its connection twice. */
  lemma FailsExactlyWhenDoubled(s: Server, e: Event)
    requires Inv(s) && Enabled(s, e)
    ensures Step(s, e).failed <==> Doubled(e)
    ensures Doubled(e) <==> e.Poll? && e.report.hup && !e.report.readable && e.report.urgent && e.report.eof
    ensures !Doubled(e) ==> Inv(Step(s, e))
  {
    match e
    case Accept(io) => NewKeeps(s, io);
    case RunTask(l) =>
      match s.queues[l][0] {
        case CloseNow(_) => CloseNowKeeps(s, l);
        case Remove(_) => RemoveKeeps(s, l);
        case _ => TaskKeeps(s, l);
      }
    case Poll(id, _) => CloseKeeps(s, id);
    case Shutdown(id, here) => if s.conns[id].phase.Connected? { DisconnectKeeps(s, id, here); }
    case ForceClose(id) => ForceKeeps(s, id);
    case Traffic(id, posts) => PostKeeps(s, id, posts);
    case Late(id, data) => PostKeeps(s, id, [T.Message(data)]);
  }

  ghost predicate Legal(s: Server, es: seq<Event>)
    decreases |es|, 0
  {
    es == [] || (Legal(s, es[..|es| - 1]) && Enabled(Run(s, es[..|es| - 1]), es[|es| - 1]))
  }

  ghost function Run(s: Server, es: seq<Event>): (t: Server)
    requires Legal(s, es)
    decreases |es|, 1
  {
    if es == [] then s else Step(Run(s, es[..|es| - 1]), es[|es| - 1])
  }

  /** No report closes its connection twice. */
  ghost predicate Single(es: seq<Event>) {
    forall e :: e in es ==> !Doubled(e)
  }

  lemma RunSnoc(s: Server, es: seq<Event>, e: Event)
    requires Legal(s, es) && Enabled(Run(s, es), e)
    ensures Legal(s, es + [e]) && Run(s, es + [e]) == Step(Run(s, es), e)
  {
    assert (es + [e])[..|es|] == es;
  }

  lemma FreshInv(loops: nat)
    requires loops > 0
    ensures Inv(Fresh(loops))
  {
    var s := Fresh(loops);
    forall l: nat, t: Task | l < |s.queues| ensures Right(s, l, t) {
    }
  }

  lemma {:induction false} RunKeeps(loops: nat, es: seq<Event>)
    requires loops > 0 && Legal(Fresh(loops), es)
    requires Single(es)
    ensures Inv(Run(Fresh(loops), es))
  {
    if es == [] {
      FreshInv(loops);
    } else {
      var e := es[|es| - 1];
      assert e in es;
      RunKeeps(loops, es[..|es| - 1]);
      FailsExactlyWhenDoubled(Run(Fresh(loops), es[..|es| - 1]), e);
    }
  }

  /** Whatever the loops do: UP comes before DOWN, each once at most, and no connection is destroyed
      before DOWN or twice. No assertion fails; the map loses exactly one entry for each connection. */
  lemma Lifecycle(loops: nat, es: seq<Event>, id: nat)
    requires loops > 0 && Legal(Fresh(loops), es)
    requires Single(es)
    requires id in Run(Fresh(loops), es).conns
    ensures var s := Run(Fresh(loops), es);
            && !s.failed
            && s.conns[id].reports <= [true, false] && s.conns[id].destroyed <= 1
            && (s.conns[id].destroyed == 1 ==> s.conns[id].reports == [true, false])
            && (s.conns[id].added ==> Held(s, id))
            && (!Held(s, id) ==> s.conns[id].phase.Disconnected? && s.conns[id].destroyed == 1)
  {
    RunKeeps(loops, es);
    HeldUntilDestroyed(Run(Fresh(loops), es), id);
  }

  lemma HeldUntilDestroyed(s: Server, id: nat)
    requires Inv(s) && id in s.conns
    ensures s.conns[id].added ==> Held(s, id)
    ensures !Held(s, id) ==> s.conns[id].phase.Disconnected? && s.conns[id].destroyed == 1
  {
    if id !in s.names && s.conns[id].added {
      DestroyIsQueued(s, id, s.conns[id].loop);
      assert !Destroy(id).Raw();
    }
  }

  /** The map, or a task not bound to the bare object, keeps the connection alive. */
  ghost predicate Held(s: Server, id: nat) {
    id in s.names || exists l: nat, t: Task :: l < |s.queues| && t in s.queues[l] && t.id == id && !t.Raw()
  }

  /** Whatever the loops do: a queued message or shutdown, though bound to the bare object, finds its connection.
      Nothing before it in its queue destroys that, and until it runs the map or another task keeps it alive. */
  lemma RawTaskFindsConnection(loops: nat, es: seq<Event>, l: nat, j: nat)
    requires loops > 0 && Legal(Fresh(loops), es)
    requires Single(es)
    requires Prompt(Fresh(loops), es)
    requires var s := Run(Fresh(loops), es); l < |s.queues| && j < |s.queues[l]| && s.queues[l][j].Raw()
    ensures var s := Run(Fresh(loops), es);
            var id := s.queues[l][j].id;
            && id in s.conns && s.conns[id].destroyed == 0 && Held(s, id)
            && Destroy(id) !in s.queues[l][..j]
  {
    RunIsSafeExactly(loops, es);
    assert InTime(Run(Fresh(loops), es), l, j);
    Lifecycle(loops, es, Run(Fresh(loops), es).queues[l][j].id);
  }

  /** Every message finds its connection open and unremoved when it is queued. */
  ghost predicate Prompt(s: Server, es: seq<Event>)
    requires Legal(s, es)
  {
    es == [] || (Prompt(s, es[..|es| - 1]) && OnTime(Run(s, es[..|es| - 1]), es[|es| - 1]))
  }

  ghost predicate AlwaysSafe(s: Server, es: seq<Event>)
    requires Legal(s, es)
  {
    Safe(Run(s, es)) && (es == [] || AlwaysSafe(s, es[..|es| - 1]))
  }

  /** A run leaves no message or shutdown behind the end of its connection if and only if each message is queued
      before the server removes the connection. */
  lemma {:induction false} RunIsSafeExactly(loops: nat, es: seq<Event>)
    requires loops > 0 && Legal(Fresh(loops), es)
    requires Single(es)
    ensures AlwaysSafe(Fresh(loops), es) <==> Prompt(Fresh(loops), es)
  {
    if es != [] {
      var e, before := es[|es| - 1], es[..|es| - 1];
      assert e in es;
      RunKeeps(loops, before);
      RunIsSafeExactly(loops, before);
      if AlwaysSafe(Fresh(loops), before) {
        StepIsSafeExactly(Run(Fresh(loops), before), e);
      }
    }
  }

  /** send tests the state first and queues afterwards. If the server removes the connection in between, the
      message comes behind the end of the connection. */
  lemma MessageBehindTheEnd(data: seq<byte>)
    ensures var s := Step(Fresh(1), Accept(0));
            && s.conns[1].phase.Connected?
            && Enabled(s, ForceClose(1)) && Enabled(Step(s, ForceClose(1)), RunTask(0))
            && var t := Step(Step(s, ForceClose(1)), RunTask(0));
            && Enabled(t, Late(1, data))
            && Step(t, Late(1, data)).queues[0] == [Destroy(1), Other(1, T.Message(data))]
  {
  }

  /** POLLHUP with POLLPRI and no POLLIN, when the read returns nothing. */
  lemma DoubledReport()
    ensures var s := Step(Fresh(1), Accept(0));
            var e := Poll(1, Report(true, false, true, true));
            Enabled(s, e) && Step(s, e).failed
  {
  }

  /** When nothing is left to do, the map holds the open connections and all others are destroyed. */
  lemma Quiescent(loops: nat, es: seq<Event>, id: nat)
    requires loops > 0 && Legal(Fresh(loops), es)
    requires Single(es)
    requires forall q :: q in Run(Fresh(loops), es).queues ==> q == []
    requires id in Run(Fresh(loops), es).conns
    ensures var s := Run(Fresh(loops), es);
            && (id in s.names <==> s.conns[id].Open())
            && (id !in s.names <==> s.conns[id].destroyed == 1)
  {
    RunKeeps(loops, es);
    var s := Run(Fresh(loops), es);
    var l := s.conns[id].loop;
    assert s.queues[l] in s.queues && s.queues[0] in s.queues;
    assert Right(s, l, Establish(id)) && Right(s, 0, Remove(id)) && Right(s, l, Destroy(id));
  }
}
