/** The objects of the sending side: packet buffers, the frame splitter, the per-session fan-out and the
    per-client connection. */
module RtpSender {
  import opened Bytes
  import opened RtpFormat
  import opened RtpStream

  const PACKET_BYTES := 1600
  const HEADERS := RTP_TCP_HEAD_SIZE + RTP_HEADER_SIZE

  /** A packet and its buffer, which every copy of the packet shares. */
  class RtpPacket {
    const data: array<byte>
    const size: nat
    const timestamp: uint32
    const kind: byte
    const last: bool

    ghost predicate Valid() {
      data.Length == PACKET_BYTES && HEADERS <= size <= PACKET_BYTES
    }

    /** The payload and the fields that headers are made from. */
    ghost function View(): Packet
      requires Valid()
      reads data
    {
      Packet(kind, timestamp, last, data[HEADERS..size])
    }

    constructor (size: nat, timestamp: uint32, kind: byte, last: bool)
      requires HEADERS <= size <= PACKET_BYTES
      ensures Valid() && fresh(data)
      ensures this.size == size && this.timestamp == timestamp && this.kind == kind && this.last == last
    {
      data := new byte[PACKET_BYTES];
      this.size := size;
      this.timestamp := timestamp;
      this.kind := kind;
      this.last := last;
    }

    /** memcpy into the buffer. */
    method Write(at: nat, bytes: seq<byte>)
      requires Valid() && at + |bytes| <= PACKET_BYTES
      modifies data
      ensures data[..] == old(data[..])[..at] + bytes + old(data[..])[at + |bytes|..]
    {
      forall i | 0 <= i < |bytes| {
        data[at + i] := bytes[i];
      }
    }
  }

  datatype Job = Job(channelId: nat, pkt: RtpPacket)

  /** Unset before the first set-up. */
  datatype TransportMode = Unset | RtpOverTcp

  /** A channel that was set up, or is active, has a transport. */
  ghost predicate Chosen(channels: seq<ChannelInfo>, mode: TransportMode) {
    |channels| == 2 && (channels[0].Used() || channels[1].Used() ==> mode == RtpOverTcp)
  }

  class RtpConnection {
    const id: nat
    var tcpAlive: bool
    var isClosed: bool
    var hasIDRFrame: bool
    var frameType: byte
    var channels: seq<ChannelInfo>
    // functors queued in the loop of the connection
    var jobs: seq<Job>
    var transportMode: TransportMode
    // bytes handed to the TCP connection
    var wire: seq<byte>
    ghost var sent: seq<Sent>

    ghost function State(): Conn
      reads this
    {
      Conn(isClosed, hasIDRFrame, channels, tcpAlive, sent)
    }

    ghost predicate Valid()
      reads this
    {
      && State().Valid()
      && wire == WireOf(sent)
      && (forall i :: 0 <= i < |jobs| ==> jobs[i].channelId < MAX_MEDIA_CHANNEL && jobs[i].pkt.Valid())
      && Chosen(channels, transportMode)
    }

    constructor (id: nat, seed0: uint32, seed1: uint32, ts: uint32, ssrc: uint32)
      ensures Valid() && this.id == id && tcpAlive && !isClosed && !hasIDRFrame && jobs == [] && sent == []
      ensures forall i :: 0 <= i < |channels| ==> !channels[i].isSetup && !channels[i].Active()
    {
      this.id := id;
      tcpAlive, isClosed, hasIDRFrame, frameType := true, false, false, 0;
      var header := RtpHeader(0, 0, 0, RTP_VERSION, 0, 0, 0, ts, ssrc);
      channels := [ChannelInfo(header, 0, 0, seed0 % 0xffff, false, false, false),
                   ChannelInfo(header, 0, 0, seed1 % 0xffff, false, false, false)];
      jobs, wire, sent, transportMode := [], [], [], Unset;
    }

    method SetupRtpOverTcp(channelId: nat, rtpChannel: uint16, rtcpChannel: uint16) returns (ok: bool)
      requires Valid() && channelId < MAX_MEDIA_CHANNEL
      modifies this
      ensures Valid() && jobs == old(jobs) && ok == old(tcpAlive)
      ensures State() == Step(old(State()), Setup(channelId, rtpChannel, rtcpChannel))
      ensures ok ==> channels[channelId].isSetup && channels[channelId].rtpChannel == rtpChannel
      ensures ok ==> transportMode == RtpOverTcp && channels[channelId].rtcpChannel == rtcpChannel
    {
      if !tcpAlive {
        return false;
      }
      channels := channels[channelId := channels[channelId].(rtpChannel := rtpChannel)];
      channels := channels[channelId := channels[channelId].(rtcpChannel := rtcpChannel)];
      channels := channels[channelId := channels[channelId].(isSetup := true)];
      transportMode := RtpOverTcp;
      return true;
    }

    method SetPayloadType(channelId: nat, payload: uint32)
      requires Valid() && channelId < MAX_MEDIA_CHANNEL
      modifies this
      ensures Valid() && jobs == old(jobs)
      ensures State() == Step(old(State()), Event.SetPayloadType(channelId, payload))
      ensures channels[channelId].header.payload == payload % 128
    {
      // the header field has seven bits
      var header := channels[channelId].header.(payload := payload % 128);
      channels := channels[channelId := channels[channelId].(header := header)];
    }

    method Play()
      requires Valid()
      modifies this
      ensures Valid() && jobs == old(jobs)
      ensures State() == Step(old(State()), Event.Play)
      ensures forall i :: 0 <= i < 2 ==>
                && (channels[i].isPlay <==> old(channels)[i].isPlay || old(channels)[i].isSetup)
                && channels[i].isRecord == old(channels)[i].isRecord && channels[i].isSetup == old(channels)[i].isSetup
                && channels[i].rtpChannel == old(channels)[i].rtpChannel
    {
      for chn := 0 to MAX_MEDIA_CHANNEL
        invariant |channels| == MAX_MEDIA_CHANNEL
        invariant forall i :: 0 <= i < MAX_MEDIA_CHANNEL ==>
                    channels[i] == if i < chn
                                   then old(channels)[i].(isPlay := old(channels)[i].isPlay || old(channels)[i].isSetup)
                                   else old(channels)[i]
        invariant State() == old(State()).(channels := channels) && jobs == old(jobs) && wire == old(wire)
        invariant transportMode == old(transportMode)
      {
        if channels[chn].isSetup {
          channels := channels[chn := channels[chn].(isPlay := true)];
        }
      }
    }

    method Record()
      requires Valid()
      modifies this
      ensures Valid() && jobs == old(jobs)
      ensures State() == Step(old(State()), Event.Record)
      ensures forall i :: 0 <= i < 2 ==>
                && (channels[i].isPlay <==> old(channels)[i].isPlay || old(channels)[i].isSetup)
                && (channels[i].isRecord <==> old(channels)[i].isRecord || old(channels)[i].isSetup)
    {
      for chn := 0 to MAX_MEDIA_CHANNEL
        invariant |channels| == MAX_MEDIA_CHANNEL
        invariant forall i :: 0 <= i < MAX_MEDIA_CHANNEL ==>
                    var o := old(channels)[i];
                    channels[i] == if i < chn
                                   then o.(isRecord := o.isRecord || o.isSetup, isPlay := o.isPlay || o.isSetup)
                                   else o
        invariant State() == old(State()).(channels := channels) && jobs == old(jobs) && wire == old(wire)
        invariant transportMode == old(transportMode)
      {
        if channels[chn].isSetup {
          channels := channels[chn := channels[chn].(isRecord := true)];
          channels := channels[chn := channels[chn].(isPlay := true)];
        }
      }
    }

    method Teardown()
      requires Valid()
      modifies this
      ensures Valid() && jobs == old(jobs)
      ensures State() == Step(old(State()), Event.Teardown)
      ensures isClosed && (old(!isClosed) ==> forall i :: 0 <= i < 2 ==> !channels[i].isPlay && !channels[i].isRecord)
    {
      if !isClosed {
        isClosed := true;
        for chn := 0 to MAX_MEDIA_CHANNEL
          invariant |channels| == MAX_MEDIA_CHANNEL
          invariant forall i :: 0 <= i < MAX_MEDIA_CHANNEL ==>
                      channels[i] == if i < chn then old(channels)[i].(isRecord := false, isPlay := false)
                                     else old(channels)[i]
          invariant State() == old(State()).(isClosed := true, channels := channels)
          invariant jobs == old(jobs) && wire == old(wire) && transportMode == old(transportMode)
        {
          channels := channels[chn := channels[chn].(isRecord := false)];
          channels := channels[chn := channels[chn].(isPlay := false)];
        }
      }
    }

    /** The packet is queued for the loop of the connection; from that loop itself it is sent at once. */
    method SendRtpPacket(channelId: nat, pkt: RtpPacket, inLoop: bool) returns (r: int)
      requires Valid() && channelId < MAX_MEDIA_CHANNEL && pkt.Valid()
      modifies this`jobs, if inLoop then {this as object, pkt.data} else {}
      ensures Valid()
      ensures r == if old(isClosed || !tcpAlive) then -1 else 1
      ensures r == -1 ==> State() == old(State())
      ensures jobs == old(jobs) + if r == -1 || inLoop then [] else [Job(channelId, pkt)]
      ensures r == 1 && inLoop ==> State() == Step(old(State()), Event.Queued(channelId, old(pkt.View())))
    {
      if isClosed {
        return -1;
      }
      if !tcpAlive {
        return -1;
      }
      if inLoop {
        SendNow(channelId, pkt);
      } else {
        jobs := jobs + [Job(channelId, pkt)];
      }
      return 1;
    }

    method SetFrameType(frameType: byte)
      modifies this`frameType, this`hasIDRFrame
      ensures hasIDRFrame == (old(hasIDRFrame) || frameType == 0 || frameType == VIDEO_FRAME_I)
    {
      this.frameType := frameType;
      if !hasIDRFrame && (this.frameType == 0 || this.frameType == VIDEO_FRAME_I) {
        hasIDRFrame := true;
      }
    }

    method SetRtpHeader(channelId: nat, pkt: RtpPacket)
      requires Valid() && channelId < MAX_MEDIA_CHANNEL && pkt.Valid()
      modifies this`channels, pkt.data
      ensures State().Valid() && pkt.View() == old(pkt.View())
      ensures !(old(channels)[channelId].Active() && hasIDRFrame) ==> channels == old(channels)
      ensures old(channels)[channelId].Active() && hasIDRFrame ==>
                var info := old(channels)[channelId];
                var header := Stamped(info, old(pkt.View()));
                && channels == old(channels)[channelId := info.(header := header, packetSeq := Next(info.packetSeq))]
                && pkt.data[RTP_TCP_HEAD_SIZE..pkt.size] == Layout(header) + old(pkt.View().payload)
    {
      var info := channels[channelId];
      if (info.isPlay || info.isRecord) && hasIDRFrame {
        var header := info.header.(marker := if pkt.last then 1 else 0);
        header := header.(ts := pkt.timestamp);
        header := header.(seqNo := info.packetSeq);
        info := info.(header := header, packetSeq := (info.packetSeq + 1) % SEQ_MOD);
        channels := channels[channelId := info];
        assert header == Stamped(old(channels)[channelId], pkt.View());
        ghost var was, bytes := pkt.data[..], Layout(info.header);
        pkt.Write(RTP_TCP_HEAD_SIZE, Layout(info.header));
        Overwritten(was, pkt.data[..], RTP_TCP_HEAD_SIZE, bytes, pkt.size);
      }
    }

    method SendRtpOverTcp(channelId: nat, pkt: RtpPacket)
      requires State().Valid() && channelId < MAX_MEDIA_CHANNEL && pkt.Valid()
      modifies this`wire, pkt.data
      ensures wire == old(wire) + if tcpAlive
                                  then Frame(channels[channelId].rtpChannel, old(pkt.data[RTP_TCP_HEAD_SIZE..pkt.size]))
                                  else []
    {
      if !tcpAlive {
        return;
      }
      ghost var body := pkt.data[RTP_TCP_HEAD_SIZE..pkt.size];
      var length := pkt.size - RTP_TCP_HEAD_SIZE;
      pkt.data[0] := DOLLAR;
      pkt.data[1] := channels[channelId].rtpChannel % 256;
      pkt.data[2] := length / 256 % 256;
      pkt.data[3] := length % 256;
      assert pkt.data[..pkt.size] == Frame(channels[channelId].rtpChannel, body);
      wire := wire + pkt.data[..pkt.size];
    }

    /** One queued functor runs in the loop. Only this connection and the packet's own buffer change. */
    method RunJob()
      requires Valid() && jobs != []
      modifies this, jobs[0].pkt.data
      ensures Valid() && jobs == old(jobs)[1..]
      ensures State() == Step(old(State()), Event.Queued(old(jobs)[0].channelId, old(jobs[0].pkt.View())))
    {
      var job := jobs[0];
      jobs := jobs[1..];
      SendNow(job.channelId, job.pkt);
    }

    /** The functor: it stamps the packet and sends it, or drops it. */
    method SendNow(channelId: nat, pkt: RtpPacket)
      requires Valid() && channelId < MAX_MEDIA_CHANNEL && pkt.Valid()
      modifies this, pkt.data
      ensures Valid() && jobs == old(jobs)
      ensures State() == Step(old(State()), Event.Queued(channelId, old(pkt.View())))
    {
      ghost var s, view := State(), pkt.View();
      var go := Stamp(channelId, pkt);
      SendStamped(channelId, pkt, go, s, view);
    }

    method SendStamped(channelId: nat, pkt: RtpPacket, go: bool, ghost s: Conn, ghost view: Packet)
      requires s.Valid() && Valid() && channelId < MAX_MEDIA_CHANNEL && pkt.Valid()
      requires State() == Deliver(s, channelId, view).(sent := s.sent)
      requires go <==> s.channels[channelId].Active() && hasIDRFrame
      requires go ==> pkt.data[RTP_TCP_HEAD_SIZE..pkt.size]
                      == Layout(Stamped(s.channels[channelId], view)) + view.payload
      modifies this`wire, this`sent, pkt.data
      ensures Valid() && State() == Deliver(s, channelId, view)
    {
      if go {
        Transmit(channelId, pkt, Stamped(s.channels[channelId], view), view.payload);
      }
      SentByDeliver(s, channelId, view);
    }

    /** Whether the packet may go, and if so its header. */
    method Stamp(channelId: nat, pkt: RtpPacket) returns (go: bool)
      requires Valid() && channelId < MAX_MEDIA_CHANNEL && pkt.Valid()
      modifies this`frameType, this`hasIDRFrame, this`channels, pkt.data
      ensures Valid()
      ensures go <==> old(channels)[channelId].Active() && hasIDRFrame
      ensures var s, view := old(State()), old(pkt.View());
              State() == Deliver(s, channelId, view).(sent := s.sent)
      ensures var info, view := old(channels)[channelId], old(pkt.View());
              go ==> pkt.data[RTP_TCP_HEAD_SIZE..pkt.size] == Layout(Stamped(info, view)) + view.payload
    {
      SetFrameType(pkt.kind);
      SetRtpHeader(channelId, pkt);
      go := (channels[channelId].isPlay || channels[channelId].isRecord) && hasIDRFrame;
      assert go ==> transportMode == RtpOverTcp;
    }

    /** The packet goes out as it was stamped. */
    method Transmit(channelId: nat, pkt: RtpPacket, ghost header: RtpHeader, ghost payload: seq<byte>)
      requires State().Valid() && channelId < MAX_MEDIA_CHANNEL && pkt.Valid() && header.Valid()
      requires pkt.data[RTP_TCP_HEAD_SIZE..pkt.size] == Layout(header) + payload && wire == WireOf(sent)
      modifies this`wire, this`sent, pkt.data
      ensures sent == old(sent) + if tcpAlive then [Sent(channelId, channels[channelId].rtpChannel, header, payload)]
                                  else []
      ensures wire == WireOf(sent)
    {
      SendRtpOverTcp(channelId, pkt);
      if tcpAlive {
        ghost var s := Sent(channelId, channels[channelId].rtpChannel, header, payload);
        AppendSent(sent, s);
        sent := sent + [s];
      }
    }
  }

  /** What a delivery adds to what was sent. */
  lemma SentByDeliver(s: Conn, ch: nat, p: Packet)
    requires s.Valid() && ch < MAX_MEDIA_CHANNEL
    ensures var d, info := Deliver(s, ch, p), s.channels[ch];
            d.sent == s.sent + if info.Active() && d.hasIDRFrame && s.alive
                               then [Sent(ch, info.rtpChannel, Stamped(info, p), p.payload)] else []
  {
  }

  /** Bytes written over a part of a buffer leave what follows. */
  lemma Overwritten(was: seq<byte>, now: seq<byte>, at: nat, bytes: seq<byte>, size: nat)
    requires at + |bytes| <= size <= |was| && now == was[..at] + bytes + was[at + |bytes|..]
    ensures |now| == |was| && now[at + |bytes|..size] == was[at + |bytes|..size]
    ensures now[at..size] == bytes + was[at + |bytes|..size]
  {
  }

  lemma AppendSent(sent: seq<Sent>, s: Sent)
    requires (forall i :: 0 <= i < |sent| ==> sent[i].header.Valid()) && s.header.Valid()
    ensures WireOf(sent + [s]) == WireOf(sent) + Frame(s.rtpChannel, Layout(s.header) + s.payload)
  {
    WireOfAppend(sent, [s]);
    WireOfOne(s);
  }

  lemma WireOfOne(s: Sent)
    requires s.header.Valid()
    ensures WireOf([s]) == Frame(s.rtpChannel, Layout(s.header) + s.payload)
  {
    assert [s][1..] == [];
    assert WireOf([s]) == Frame(s.rtpChannel, Layout(s.header) + s.payload) + WireOf([]);
  }

  datatype Client = Client(fd: int, conn: RtpConnection)

  function Live(clients: seq<Client>, expired: set<int>): seq<Client> {
    if clients == [] then []
    else
      var last := clients[|clients| - 1];
      Live(clients[..|clients| - 1], expired) + (if last.fd in expired then [] else [last])
  }

  lemma {:induction false} LiveClients(clients: seq<Client>, expired: set<int>)
    ensures var l := Live(clients, expired);
            && (forall i :: 0 <= i < |l| ==> l[i] in clients && l[i].fd !in expired)
            && (forall k :: 0 <= k < |clients| && clients[k].fd !in expired ==> clients[k] in l)
  {
    if clients != [] {
      var front := clients[..|clients| - 1];
      LiveClients(front, expired);
      assert clients == front + [clients[|clients| - 1]];
    }
  }

  ghost function ConnsOf(clients: seq<Client>): set<RtpConnection> {
    set i | 0 <= i < |clients| :: clients[i].conn
  }

  ghost predicate Distinct(clients: seq<Client>) {
    forall i, j :: 0 <= i < j < |clients| ==> clients[i].conn != clients[j].conn
  }

  lemma {:induction false} LiveDistinct(clients: seq<Client>, expired: set<int>)
    requires Distinct(clients)
    ensures Distinct(Live(clients, expired))
  {
    if clients != [] {
      var front := clients[..|clients| - 1];
      LiveDistinct(front, expired);
      LiveClients(front, expired);
      var l := Live(front, expired);
      forall i | 0 <= i < |l|
        ensures l[i].conn != clients[|clients| - 1].conn
      {
        assert l[i] in front;
      }
    }
  }

  ghost function Buffers(jobs: seq<Job>): set<array<byte>> {
    set i | 0 <= i < |jobs| :: jobs[i].pkt.data
  }

  /** No two queued packets, of one client or of two, share a buffer. */
  ghost predicate Separate(queues: map<RtpConnection, seq<Job>>) {
    && (forall c, i, j :: c in queues && 0 <= i < j < |queues[c]| ==>
          queues[c][i].pkt.data != queues[c][j].pkt.data)
    && (forall c, d :: c in queues && d in queues && c != d ==> Buffers(queues[c]) !! Buffers(queues[d]))
  }

  /** Queueing each client its own new copy keeps the buffers apart. */
  lemma SeparateAfter(q: map<RtpConnection, seq<Job>>, r: map<RtpConnection, seq<Job>>, channelId: nat,
                      copies: map<nat, RtpPacket>)
    requires Separate(q) && r.Keys <= q.Keys
    requires forall c, d :: c in q && d in q && c != d ==> c.id != d.id
    requires forall a, b :: a in copies && b in copies && a != b ==> copies[a].data != copies[b].data
    requires forall c, id :: c in q && id in copies ==> copies[id].data !in Buffers(q[c])
    requires forall c :: c in r ==>
               r[c] == q[c] || (c.id in copies && r[c] == q[c] + [Job(channelId, copies[c.id])])
    ensures Separate(r)
  {
    forall c | c in r
      ensures Buffers(r[c]) <= Buffers(q[c]) + (if c.id in copies then {copies[c.id].data} else {})
    {
    }
  }

  /** The buffer at the head of a queue is in no other place. */
  lemma SeparateTail(q: map<RtpConnection, seq<Job>>, c: RtpConnection, r: map<RtpConnection, seq<Job>>)
    requires Separate(q) && c in q && q[c] != [] && r == q[c := q[c][1..]]
    ensures Separate(r)
    ensures forall d, i :: d in r && 0 <= i < |r[d]| ==> r[d][i].pkt.data != q[c][0].pkt.data
  {
    forall i | 0 <= i < |r[c]|
      ensures r[c][i].pkt.data in Buffers(q[c])
    {
      assert q[c][i + 1] == r[c][i];
    }
    forall d, i | d in r && 0 <= i < |r[d]|
      ensures r[d][i].pkt.data != q[c][0].pkt.data
    {
      assert q[c][0].pkt.data in Buffers(q[c]);
      assert d != c ==> q[d][i].pkt.data in Buffers(q[d]);
    }
  }

  twostate predicate SameClient(d: RtpConnection)
    reads d
  {
    d.State() == old(d.State()) && d.jobs == old(d.jobs)
  }

  class MediaSession {
    // weak references in socket order
    var clients: seq<Client>

    ghost function Conns(): set<RtpConnection>
      reads this
    {
      ConnsOf(clients)
    }

    /** The clients whose TCP connection exists. */
    ghost function Alive(): set<RtpConnection>
      reads this, Conns()
    {
      set c | c in Conns() && c.tcpAlive
    }

    ghost predicate Valid()
      reads this, Conns()
    {
      Distinct(clients) && forall c :: c in Conns() ==> c.Valid()
    }

    /** Connections have different names. */
    ghost predicate DistinctIds()
      reads this
    {
      forall c, d :: c in Conns() && d in Conns() && c != d ==> c.id != d.id
    }

    ghost function Queues(): map<RtpConnection, seq<Job>>
      reads this, Conns()
    {
      map c | c in Conns() :: c.jobs
    }

    lemma QueuesAre(r: map<RtpConnection, seq<Job>>)
      requires r.Keys == Conns() && forall c :: c in Conns() ==> c.jobs == r[c]
      ensures Queues() == r
    {
    }

    ghost predicate Isolated()
      reads this, Conns()
    {
      Separate(Queues())
    }

    /** Clients are told apart, and so are their packets. */
    ghost predicate Apart()
      reads this, Conns()
    {
      DistinctIds() && Isolated()
    }

    /** The first pass: drops expired clients and makes one copy of the packet for each name. */
    method Collect(pkt: RtpPacket, expired: set<int>)
        returns (conns: seq<RtpConnection>, packets: map<nat, RtpPacket>)
      requires pkt.Valid()
      modifies this`clients
      ensures clients == Live(old(clients), expired)
      ensures conns == old(Reached(clients, expired, Alive()))
      ensures forall c :: c in conns ==> c.id in packets
      ensures Copies(packets, pkt)
      ensures forall id :: id in packets ==> fresh(packets[id]) && fresh(packets[id].data)
    {
      ghost var before, alive := clients, Alive();
      conns, packets := [], map[];
      var live := [];
      var i := 0;
      while i < |clients|
        invariant 0 <= i <= |clients| && clients == before
        invariant live == Live(clients[..i], expired)
        invariant conns == Reached(clients[..i], expired, alive)
        invariant forall c :: c in conns ==> c.id in packets
        invariant Copies(packets, pkt)
        invariant forall id :: id in packets ==> fresh(packets[id]) && fresh(packets[id].data)
      {
        assert clients[..i + 1][..i] == clients[..i];
        if clients[i].fd !in expired {
          var conn := clients[i].conn;
          if conn.tcpAlive {
            if conn.id !in packets {
              var copy := CopyOf(pkt);
              packets := packets[conn.id := copy];
            }
            conns := [conn] + conns;
          }
          live := live + [clients[i]];
        }
        i := i + 1;
      }
      assert clients[..i] == clients;
      clients := live;
    }

    /** The second pass: each client whose connection still has a name is given its copy. */
    method Distribute(channelId: nat, conns: seq<RtpConnection>, packets: map<nat, RtpPacket>)
      requires channelId < MAX_MEDIA_CHANNEL
      requires NoRepeats(conns)
      requires forall c :: c in conns ==> c.Valid() && c.id in packets && packets[c.id].Valid()
      modifies (set c | c in conns)`jobs
      ensures forall c :: c in conns ==> c.Valid()
      ensures forall c :: c in conns ==>
                c.jobs == old(c.jobs) + if c.tcpAlive && !c.isClosed then [Job(channelId, packets[c.id])] else []
    {
      for i := 0 to |conns|
        invariant forall k :: 0 <= k < |conns| ==> conns[k].Valid()
        invariant forall k :: 0 <= k < |conns| ==>
                    var c := conns[k];
                    c.jobs == old(c.jobs) + if k < i && c.tcpAlive && !c.isClosed
                                            then [Job(channelId, packets[c.id])] else []
      {
        SendTo(channelId, conns[i], packets);
      }
    }

    /** What another thread may do between the passes. */
    method Lose(conns: seq<RtpConnection>, gone: set<RtpConnection>)
      modifies (set c | c in conns)`tcpAlive
      ensures forall c :: c in conns ==> c.tcpAlive == (old(c.tcpAlive) && c !in gone)
    {
      forall c | c in conns && c in gone {
        c.tcpAlive := false;
      }
    }

    method SendTo(channelId: nat, conn: RtpConnection, packets: map<nat, RtpPacket>)
      requires channelId < MAX_MEDIA_CHANNEL && conn.Valid() && (conn.id in packets ==> packets[conn.id].Valid())
      modifies conn`jobs
      ensures conn.Valid()
      ensures conn.jobs == old(conn.jobs) + if conn.id in packets && conn.tcpAlive && !conn.isClosed
                                            then [Job(channelId, packets[conn.id])] else []
    {
      if conn.tcpAlive {
        if conn.id in packets {
          var r := conn.SendRtpPacket(channelId, packets[conn.id], false);
        }
      }
    }

    /** Both passes; `gone` are the clients whose TCP connection goes between them. */
    method FanOut(channelId: nat, pkt: RtpPacket, expired: set<int>, gone: set<RtpConnection>)
        returns (ghost copies: map<nat, RtpPacket>)
      requires Valid() && pkt.Valid() && channelId < MAX_MEDIA_CHANNEL
      modifies this`clients, Conns()`jobs, Conns()`tcpAlive
      ensures Valid() && clients == Live(old(clients), expired) && Conns() <= old(Conns())
      ensures forall id :: id in copies ==> fresh(copies[id]) && fresh(copies[id].data)
      ensures Copies(copies, pkt)
      ensures forall k :: 0 <= k < |old(clients)| ==>
                var c := old(clients)[k].conn;
                && (c !in gone ==> c.tcpAlive == old(c.tcpAlive))
                && if old(clients)[k].fd !in expired && old(c.tcpAlive) && c.tcpAlive && !c.isClosed
                   then c.id in copies && c.jobs == old(c.jobs) + [Job(channelId, copies[c.id])]
                   else c.jobs == old(c.jobs)
    {
      var conns, packets := Collect(pkt, expired);
      ReachedConns(old(clients), expired, old(Alive()));
      ReachedDistinct(old(clients), expired, old(Alive()));
      forall k | 0 <= k < |old(clients)|
        ensures old(clients)[k].conn in conns
                <==> old(clients)[k].fd !in expired && old(clients)[k].conn in old(Alive())
      {
        ReachedExactly(old(clients), expired, old(Alive()), k);
      }
      LiveDistinct(old(clients), expired);
      LiveConns(old(clients), expired);
      Lose(conns, gone);
      Distribute(channelId, conns, packets);
      copies := packets;
    }

    /** The callback that fans a packet out: every client that is still there, open and connected gets
        its own copy queued, and where names differ no two queued packets share a buffer. `expired` are
        the sockets whose RTP connection is gone. */
    method SendFrame(channelId: nat, pkt: RtpPacket, expired: set<int>, gone: set<RtpConnection>)
        returns (ok: bool, ghost copies: map<nat, RtpPacket>)
      requires Valid() && pkt.Valid() && channelId < MAX_MEDIA_CHANNEL
      modifies this`clients, Conns()`jobs, Conns()`tcpAlive
      ensures ok && Valid() && clients == Live(old(clients), expired) && Conns() <= old(Conns())
      ensures forall id :: id in copies ==> fresh(copies[id]) && fresh(copies[id].data)
      ensures Copies(copies, pkt)
      ensures forall k :: 0 <= k < |old(clients)| ==>
                var c := old(clients)[k].conn;
                && (c !in gone ==> c.tcpAlive == old(c.tcpAlive))
                && if old(clients)[k].fd !in expired && old(c.tcpAlive) && c.tcpAlive && !c.isClosed
                   then c.id in copies && c.jobs == old(c.jobs) + [Job(channelId, copies[c.id])]
                   else c.jobs == old(c.jobs)
      ensures old(Apart()) ==> Apart()
    {
      ghost var q := Queues();
      copies := FanOut(channelId, pkt, expired, gone);
      if old(Apart()) {
        assert forall c, id :: c in q && id in copies ==> copies[id].data !in Buffers(q[c]);
        SeparateAfter(q, Queues(), channelId, copies);
      }
      ok := true;
    }

    /** One client's loop runs a functor: that client takes its step, no other client's state or queue
        changes, and no byte of a packet still queued anywhere changes. */
    method RunJobOf(c: RtpConnection)
      requires Valid() && Apart() && c in Conns() && c.jobs != []
      modifies c, c.jobs[0].pkt.data
      ensures Valid() && Apart()
      ensures c.State() == Step(old(c.State()), Event.Queued(old(c.jobs)[0].channelId, old(c.jobs[0].pkt.View())))
      ensures c.jobs == old(c.jobs)[1..]
      ensures forall d {:trigger SameClient(d)} :: d in Conns() && d != c ==> SameClient(d)
      ensures forall d, i :: d in Conns() && 0 <= i < |d.jobs| ==>
                var buffer := d.jobs[i].pkt.data;
                buffer[..] == old(buffer[..])
    {
      HeadApart(c);
      RunOne(c);
      TailKeeps(c);
    }

    /** The buffer at the head of a queue is in no other place. */
    lemma HeadApart(c: RtpConnection)
      requires Isolated() && c in Conns() && c.jobs != []
      ensures forall d, i :: d in Conns() && 0 <= i < |d.jobs| && (d == c ==> i > 0) ==>
                d.jobs[i].pkt.data != c.jobs[0].pkt.data
    {
      var q := Queues();
      var r := q[c := q[c][1..]];
      SeparateTail(q, c, r);
      forall d, i | d in Conns() && 0 <= i < |d.jobs| && (d == c ==> i > 0)
        ensures d.jobs[i].pkt.data != c.jobs[0].pkt.data
      {
        assert d.jobs[i] == r[d][if d == c then i - 1 else i];
      }
    }

    twostate lemma TailKeeps(c: RtpConnection)
      requires old(Isolated()) && clients == old(clients) && c in Conns() && old(c.jobs) != []
      requires c.jobs == old(c.jobs)[1..] && forall d :: d in Conns() && d != c ==> SameClient(d)
      ensures Isolated()
    {
      var q := old(Queues());
      SeparateTail(q, c, q[c := q[c][1..]]);
      assert forall d :: d in Conns() && d != c ==> SameClient(d);
      QueuesAre(q[c := q[c][1..]]);
    }

    method RunOne(c: RtpConnection)
      requires Valid() && c in Conns() && c.jobs != []
      requires forall d, i :: d in Conns() && 0 <= i < |d.jobs| && (d == c ==> i > 0) ==>
                 d.jobs[i].pkt.data != c.jobs[0].pkt.data
      modifies c, c.jobs[0].pkt.data
      ensures Valid()
      ensures c.State() == Step(old(c.State()), Event.Queued(old(c.jobs)[0].channelId, old(c.jobs[0].pkt.View())))
      ensures c.jobs == old(c.jobs)[1..]
      ensures forall d {:trigger SameClient(d)} :: d in Conns() && d != c ==> SameClient(d)
      ensures forall d, i :: d in Conns() && 0 <= i < |d.jobs| ==>
                var buffer := d.jobs[i].pkt.data;
                buffer[..] == old(buffer[..])
    {
      c.RunJob();
      forall d | d in Conns() && d != c ensures SameClient(d) {
      }
    }
  }

  /** The clients of a session that can be sent to, latest first, as the list is built at its front. */
  ghost function Reached(clients: seq<Client>, expired: set<int>, alive: set<RtpConnection>): seq<RtpConnection> {
    if clients == [] then []
    else
      var last := clients[|clients| - 1];
      (if last.fd !in expired && last.conn in alive then [last.conn] else [])
      + Reached(clients[..|clients| - 1], expired, alive)
  }

  lemma {:induction false} ReachedConns(clients: seq<Client>, expired: set<int>, alive: set<RtpConnection>)
    ensures forall c :: c in Reached(clients, expired, alive) ==> c in ConnsOf(clients)
  {
    if clients != [] {
      var front, last := clients[..|clients| - 1], clients[|clients| - 1];
      ReachedConns(front, expired, alive);
      ConnsSnoc(front, last);
      assert clients == front + [last];
    }
  }

  lemma {:induction false} ReachedDistinct(clients: seq<Client>, expired: set<int>, alive: set<RtpConnection>)
    requires Distinct(clients)
    ensures NoRepeats(Reached(clients, expired, alive))
  {
    if clients != [] {
      var front, last := clients[..|clients| - 1], clients[|clients| - 1];
      ReachedDistinct(front, expired, alive);
      ReachedConns(front, expired, alive);
      assert last.conn !in ConnsOf(front);
      var rest := Reached(front, expired, alive);
      assert last.conn in rest ==> last.conn in ConnsOf(front);
      NewInFront(last.conn, rest);
      assert Reached(clients, expired, alive) == rest || Reached(clients, expired, alive) == [last.conn] + rest;
    }
  }

  lemma NewInFront(c: RtpConnection, rest: seq<RtpConnection>)
    requires c !in rest && NoRepeats(rest)
    ensures NoRepeats([c] + rest)
  {
  }

  ghost predicate NoRepeats(conns: seq<RtpConnection>) {
    forall i, j :: 0 <= i < j < |conns| ==> conns[i] != conns[j]
  }

  lemma {:induction false} ReachedExactly(clients: seq<Client>, expired: set<int>, alive: set<RtpConnection>, k: nat)
    requires Distinct(clients) && k < |clients|
    ensures clients[k].conn in Reached(clients, expired, alive)
            <==> clients[k].fd !in expired && clients[k].conn in alive
  {
    var front, last := clients[..|clients| - 1], clients[|clients| - 1];
    ReachedConns(front, expired, alive);
    assert last.conn !in ConnsOf(front);
    if k < |front| {
      ReachedExactly(front, expired, alive, k);
    }
  }

  lemma {:induction false} LiveConns(clients: seq<Client>, expired: set<int>)
    ensures ConnsOf(Live(clients, expired)) <= ConnsOf(clients)
  {
    if clients != [] {
      var front, last := clients[..|clients| - 1], clients[|clients| - 1];
      LiveConns(front, expired);
      ConnsSnoc(front, last);
      ConnsSnoc(Live(front, expired), last);
      assert clients == front + [last];
      assert last.fd in expired ==> Live(clients, expired) == Live(front, expired);
    }
  }

  lemma ConnsSnoc(clients: seq<Client>, last: Client)
    ensures ConnsOf(clients + [last]) == ConnsOf(clients) + {last.conn}
  {
    var more := clients + [last];
    forall c | c in ConnsOf(clients) ensures c in ConnsOf(more) {
      var i :| 0 <= i < |clients| && clients[i].conn == c;
      assert more[i].conn == c;
    }
    assert more[|clients|] == last;
  }

  /** A packet with the payload behind the room for its headers. */
  method MakePacket(frame: AvFrame, payload: Payload) returns (pkt: RtpPacket)
    requires |payload.data| <= MAX_RTP_PAYLOAD_SIZE
    ensures fresh(pkt) && fresh(pkt.data) && pkt.Valid() && pkt.View() == PacketOf(frame, payload)
  {
    pkt := new RtpPacket(HEADERS + |payload.data|, frame.timestamp, frame.kind, payload.last);
    pkt.Write(HEADERS, payload.data);
    assert pkt.data[HEADERS..pkt.size] == payload.data;
  }

  method CopyOf(pkt: RtpPacket) returns (copy: RtpPacket)
    requires pkt.Valid()
    ensures fresh(copy) && fresh(copy.data) && copy.Valid() && copy.View() == pkt.View()
  {
    copy := new RtpPacket(pkt.size, pkt.timestamp, pkt.kind, pkt.last);
    copy.Write(0, pkt.data[..pkt.size]);
    assert copy.data[HEADERS..copy.size] == pkt.data[HEADERS..pkt.size];
  }

  /** Copies of a packet under distinct keys, in distinct buffers. */
  ghost predicate Copies(packets: map<nat, RtpPacket>, pkt: RtpPacket)
    requires pkt.Valid()
    reads pkt.data, set id | id in packets :: packets[id].data
  {
    && (forall id :: id in packets ==> packets[id].Valid() && packets[id].View() == pkt.View())
    && (forall a, b :: a in packets && b in packets && a != b ==> packets[a].data != packets[b].data)
  }

  /** The clients whose sockets do not expire. */
  ghost function Staying(clients: seq<Client>, expired: set<int>): set<RtpConnection> {
    set k | 0 <= k < |clients| && clients[k].fd !in expired :: clients[k].conn
  }

  lemma StayingLive(clients: seq<Client>, e: set<int>, expired: set<int>)
    requires e <= expired
    ensures Staying(clients, expired) <= Staying(Live(clients, e), expired)
  {
    LiveClients(clients, e);
    var l := Live(clients, e);
    forall k | 0 <= k < |clients| && clients[k].fd !in expired
      ensures clients[k].conn in Staying(l, expired)
    {
      var i :| 0 <= i < |l| && l[i] == clients[k];
    }
  }

  /** Further packets were queued behind the jobs a connection had. */
  ghost predicate Extends(jobs: seq<Job>, before: seq<Job>, channelId: nat, packets: seq<Packet>)
    reads set i | 0 <= i < |jobs| :: jobs[i].pkt.data
  {
    && |jobs| == |before| + |packets| && jobs[..|before|] == before
    && forall k :: |before| <= k < |jobs| ==>
         jobs[k].channelId == channelId && jobs[k].pkt.Valid() && jobs[k].pkt.View() == packets[k - |before|]
  }

  class H264Source {
    // the session whose callback was set when the source was added to it
    var session: MediaSession?

    constructor ()
      ensures session == null
    {
      session := null;
    }

    /** Builds one packet around a payload and hands it to the session; `expired` and `gone` bound what
        may happen to clients meanwhile. */
    method Send(channelId: nat, frame: AvFrame, payload: Payload, expired: set<int>, gone: set<RtpConnection>,
                ghost apart: bool)
        returns (ok: bool, ghost copies: map<nat, RtpPacket>)
      requires channelId < MAX_MEDIA_CHANNEL && |payload.data| <= MAX_RTP_PAYLOAD_SIZE
      requires session != null && session.Valid() && (apart ==> session.Apart())
      modifies session`clients, session.Conns()`jobs, session.Conns()`tcpAlive
      ensures ok && session.Valid() && session.Conns() <= old(session.Conns())
      ensures apart ==> session.Apart()
      ensures forall id :: id in copies ==> fresh(copies[id].data) && copies[id].Valid()
      ensures forall id :: id in copies ==> copies[id].View() == PacketOf(frame, payload)
      ensures forall c :: c in old(Staying(session.clients, expired)) && c !in gone && old(c.tcpAlive) ==>
                && c in Staying(session.clients, expired) && c.tcpAlive && (!c.isClosed ==> c.id in copies)
                && c.jobs == old(c.jobs) + if c.isClosed then [] else [Job(channelId, copies[c.id])]
    {
      var pkt := MakePacket(frame, payload);
      var e :| e <= expired;
      var g :| g <= gone;
      ok, copies := session.SendFrame(channelId, pkt, e, g);
      StayingLive(old(session.clients), e, expired);
    }

    /** The clients that were there at the start have since been queued just these packets. */
    ghost predicate Following(before: map<RtpConnection, seq<Job>>, channelId: nat, expired: set<int>,
                              gone: set<RtpConnection>, frame: AvFrame, done: seq<Payload>)
      requires session != null
      reads this, session, before.Keys
      reads set c, i | c in before && 0 <= i < |c.jobs| :: c.jobs[i].pkt.data
    {
      forall c :: c in before ==>
        && c in Staying(session.clients, expired) && c !in gone && c.tcpAlive && !c.isClosed
        && Extends(c.jobs, before[c], channelId, PacketsOf(frame, done))
    }

    method SendNext(channelId: nat, frame: AvFrame, payload: Payload, expired: set<int>, gone: set<RtpConnection>,
                    ghost apart: bool, ghost before: map<RtpConnection, seq<Job>>, ghost done: seq<Payload>)
        returns (ok: bool)
      requires channelId < MAX_MEDIA_CHANNEL && |payload.data| <= MAX_RTP_PAYLOAD_SIZE
      requires session != null && session.Valid() && (apart ==> session.Apart())
      requires Following(before, channelId, expired, gone, frame, done)
      modifies session`clients, session.Conns()`jobs, session.Conns()`tcpAlive
      ensures ok && session.Valid() && session.Conns() <= old(session.Conns())
      ensures apart ==> session.Apart()
      ensures Following(before, channelId, expired, gone, frame, done + [payload])
    {
      ghost var copies;
      ok, copies := Send(channelId, frame, payload, expired, gone, apart);
      PacketsSnoc(frame, done, payload);
      forall c | c in before
        ensures Extends(c.jobs, before[c], channelId, PacketsOf(frame, done) + [PacketOf(frame, payload)])
      {
        ExtendOne(old(c.jobs), before[c], channelId, PacketsOf(frame, done), copies[c.id]);
      }
    }

    /** Splits a frame into packets. Every client that stays connected and open gets exactly the packets
        of the frame, in order, behind what was queued for it; a zero time stamp is replaced by `now`.
        Without a session the packets go nowhere. */
    method HandleFrame(channelId: nat, frame: AvFrame, now: uint32, expired: set<int>, gone: set<RtpConnection>)
        returns (ok: bool)
      requires channelId < MAX_MEDIA_CHANNEL
      requires session != null ==> session.Valid()
      modifies Sessions()`clients, Clients()`jobs, Clients()`tcpAlive
      ensures ok
      ensures session != null ==>
                && session.Valid() && session.Conns() <= old(Clients())
                && (old(session.Apart()) ==> session.Apart())
                && Following(old(Watched(expired, gone)), channelId, expired, gone, Timed(frame, now),
                             Packetize(frame.data))
    {
      if session == null {
        return true;
      }
      var f := frame;
      if f.timestamp == 0 {
        f := f.(timestamp := now);
      }
      ok := HandleTimed(channelId, f, expired, gone);
    }

    method HandleTimed(channelId: nat, f: AvFrame, expired: set<int>, gone: set<RtpConnection>) returns (ok: bool)
      requires channelId < MAX_MEDIA_CHANNEL && session != null && session.Valid()
      modifies Sessions()`clients, Clients()`jobs, Clients()`tcpAlive
      ensures ok && session.Valid() && session.Conns() <= old(session.Conns())
      ensures old(session.Apart()) ==> session.Apart()
      ensures Following(old(Watched(expired, gone)), channelId, expired, gone, f, Packetize(f.data))
    {
      ghost var apart, before := session.Apart(), Watched(expired, gone);
      if |f.data| <= MAX_RTP_PAYLOAD_SIZE {
        ok := HandleShortFrame(channelId, f, expired, gone, apart, before);
      } else {
        FragmentsByPosition(f.data, 1);
        ghost var all := Packetize(f.data);
        ok := HandleLongFrame(channelId, f, expired, gone, apart, before, all);
        assert all[..|all|] == all;
      }
    }

    /** The clients that may be relied on to get packets, with their queues. */
    ghost function Watched(expired: set<int>, gone: set<RtpConnection>): map<RtpConnection, seq<Job>>
      requires session != null
      reads this, session, session.Conns()
    {
      map c | c in Staying(session.clients, expired) && c !in gone && c.tcpAlive && !c.isClosed :: c.jobs
    }

    method HandleShortFrame(channelId: nat, f: AvFrame, expired: set<int>, gone: set<RtpConnection>,
                            ghost apart: bool, ghost before: map<RtpConnection, seq<Job>>) returns (ok: bool)
      requires channelId < MAX_MEDIA_CHANNEL && |f.data| <= MAX_RTP_PAYLOAD_SIZE
      requires session != null && session.Valid() && (apart ==> session.Apart())
      requires Following(before, channelId, expired, gone, f, [])
      modifies session`clients, session.Conns()`jobs, session.Conns()`tcpAlive
      ensures ok && session.Valid() && session.Conns() <= old(session.Conns())
      ensures apart ==> session.Apart()
      ensures Following(before, channelId, expired, gone, f, Packetize(f.data))
    {
      assert [] + [Payload(f.data, true)] == Packetize(f.data);
      ok := SendNext(channelId, f, Payload(f.data, true), expired, gone, apart, before, []);
    }

    ghost function Sessions(): set<MediaSession>
      reads this
    {
      if session == null then {} else {session}
    }

    ghost function Clients(): set<RtpConnection>
      reads this, session
    {
      if session == null then {} else session.Conns()
    }

    /** The fragmenting branch; `all` are the fragments it is to send. */
    method HandleLongFrame(channelId: nat, f: AvFrame, expired: set<int>, gone: set<RtpConnection>,
                           ghost apart: bool, ghost before: map<RtpConnection, seq<Job>>, ghost all: seq<Payload>)
        returns (ok: bool)
      requires channelId < MAX_MEDIA_CHANNEL && |f.data| > MAX_RTP_PAYLOAD_SIZE && Fragmentation(all, f.data, 1)
      requires session != null && session.Valid() && (apart ==> session.Apart())
      requires Following(before, channelId, expired, gone, f, [])
      modifies session`clients, session.Conns()`jobs, session.Conns()`tcpAlive
      ensures ok && session.Valid() && session.Conns() <= old(session.Conns())
      ensures apart ==> session.Apart()
      ensures Following(before, channelId, expired, gone, f, all[..|all|])
    {
      var fu0 := TopThreeBits(f.data[0]) + FU_A;
      var fu1 := SetBit7(LowFiveBits(f.data[0]));
      var frameBuf := 1;
      var frameSize := |f.data| - 1;
      ghost var sent := 0;
      while frameSize + 2 > MAX_RTP_PAYLOAD_SIZE
        invariant frameBuf + frameSize == |f.data| && frameBuf == 1 + PIECE * sent && 0 <= sent < |all|
        invariant fu0 == FuIndicator(f.data[0]) && fu1 == FuHeader(frameBuf == 1, false, f.data[0])
        invariant session.Valid() && session.Conns() <= old(session.Conns())
        invariant apart ==> session.Apart()
        invariant Following(before, channelId, expired, gone, f, all[..sent])
      {
        assert all[sent] == Fragment(f.data, frameBuf, MAX_RTP_PAYLOAD_SIZE - 2, false);
        ok := SendFragment(channelId, f, fu0, fu1, frameBuf, MAX_RTP_PAYLOAD_SIZE - 2, false,
                           expired, gone, apart, before, all, sent);
        if !ok {
          return false;
        }
        sent := sent + 1;
        frameBuf := frameBuf + (MAX_RTP_PAYLOAD_SIZE - 2);
        frameSize := frameSize - (MAX_RTP_PAYLOAD_SIZE - 2);
        fu1 := ClearBit7(fu1);
      }
      fu1 := SetBit6(fu1);
      assert sent == |all| - 1 && all[sent] == Fragment(f.data, frameBuf, frameSize, true);
      ok := SendFragment(channelId, f, fu0, fu1, frameBuf, frameSize, true, expired, gone, apart, before, all, sent);
    }

    /** Sends a fragment that carries n bytes of the frame under the two given octets. */
    method SendFragment(channelId: nat, f: AvFrame, fu0: byte, fu1: byte, at: nat, n: nat, last: bool,
                        expired: set<int>, gone: set<RtpConnection>,
                        ghost apart: bool, ghost before: map<RtpConnection, seq<Job>>, ghost all: seq<Payload>,
                         ghost sent: nat)
        returns (ok: bool)
      requires channelId < MAX_MEDIA_CHANNEL && at + n <= |f.data| && n + 2 <= MAX_RTP_PAYLOAD_SIZE
      requires session != null && session.Valid() && (apart ==> session.Apart())
      requires sent < |all| && all[sent] == Payload([fu0, fu1] + f.data[at..at + n], last)
      requires Following(before, channelId, expired, gone, f, all[..sent])
      modifies session`clients, session.Conns()`jobs, session.Conns()`tcpAlive
      ensures ok && session.Valid() && session.Conns() <= old(session.Conns())
      ensures apart ==> session.Apart()
      ensures Following(before, channelId, expired, gone, f, all[..sent + 1])
    {
      TakeNext(all, sent);
      ok := SendNext(channelId, f, Payload([fu0, fu1] + f.data[at..at + n], last), expired, gone,
                     apart, before, all[..sent]);
    }
  }

  function PacketOf(f: AvFrame, p: Payload): Packet {
    Packet(f.kind, f.timestamp, p.last, p.data)
  }

  /** A frame without time stamp gets the time of the clock. */
  function Timed(f: AvFrame, now: uint32): (t: AvFrame)
    ensures t.data == f.data && t.kind == f.kind && t.timestamp == if f.timestamp != 0 then f.timestamp else now
  {
    if f.timestamp == 0 then f.(timestamp := now) else f
  }

  lemma ExtendOne(jobs: seq<Job>, before: seq<Job>, channelId: nat, packets: seq<Packet>, pkt: RtpPacket)
    requires Extends(jobs, before, channelId, packets) && pkt.Valid()
    ensures Extends(jobs + [Job(channelId, pkt)], before, channelId, packets + [pkt.View()])
  {
    assert (jobs + [Job(channelId, pkt)])[..|before|] == jobs[..|before|];
  }

  const PIECE := MAX_RTP_PAYLOAD_SIZE - 2

  /** The fragment that carries n bytes of a frame from a position on. */
  function Fragment(data: seq<byte>, at: nat, n: nat, end: bool): Payload
    requires 1 <= at && at + n <= |data|
  {
    Payload([FuIndicator(data[0]), FuHeader(at == 1, end, data[0])] + data[at..at + n], end)
  }

  /** Fragment number i carries the bytes from position at + 1418 i on. */
  ghost predicate Fragmentation(all: seq<Payload>, data: seq<byte>, at: nat)
    requires 1 <= at < |data|
  {
    && |all| >= 1 && (|all| - 1) * PIECE < |data| - at <= |all| * PIECE
    && (forall i :: 0 <= i < |all| - 1 ==> all[i] == Fragment(data, at + PIECE * i, PIECE, false))
    && all[|all| - 1] == Fragment(data, at + PIECE * (|all| - 1), |data| - at - PIECE * (|all| - 1), true)
  }

  lemma {:induction false} FragmentsByPosition(data: seq<byte>, at: nat)
    requires 1 <= at < |data|
    ensures Fragmentation(Fragments(data[0], data[at..], at == 1), data, at)
    decreases |data| - at
  {
    if |data| - at > PIECE {
      FragmentsByPosition(data, at + PIECE);
      assert data[at..][..PIECE] == data[at..at + PIECE];
      assert data[at..][PIECE..] == data[at + PIECE..];
      FragmentInFront(Fragments(data[0], data[at + PIECE..], false), data, at);
    } else {
      assert data[at..] == data[at..at + (|data| - at)];
    }
  }

  lemma FragmentInFront(tail: seq<Payload>, data: seq<byte>, at: nat)
    requires 1 <= at && at + PIECE < |data| && Fragmentation(tail, data, at + PIECE)
    ensures Fragmentation([Fragment(data, at, PIECE, false)] + tail, data, at)
  {
    var ps := [Fragment(data, at, PIECE, false)] + tail;
    assert ps[|ps| - 1] == tail[|tail| - 1];
    forall i | 0 <= i < |ps| - 1
      ensures ps[i] == Fragment(data, at + PIECE * i, PIECE, false)
    {
      if i > 0 {
        assert ps[i] == tail[i - 1];
      }
    }
  }

  lemma PacketsSnoc(f: AvFrame, done: seq<Payload>, payload: Payload)
    ensures PacketsOf(f, done + [payload]) == PacketsOf(f, done) + [PacketOf(f, payload)]
  {
  }
}
