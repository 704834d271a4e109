/** The sending objects put together: frames pushed into a session, the queued functors run, and the bytes
    handed to the TCP connection read by a receiver. */
module RtpEndToEnd {
  import opened Bytes
  import opened RtpFormat
  import opened RtpStream
  import opened RtpHistory
  import opened RtpSender

  /** Functors by channel and packet. */
  ghost predicate Packed(jobs: seq<Job>, es: seq<Push>)
    reads Buffers(jobs)
  {
    && |jobs| == |es|
    && (forall i :: 0 <= i < |es| ==>
          jobs[i].pkt.Valid() && jobs[i].channelId == es[i].ch && jobs[i].pkt.View() == es[i].p)
  }

  /** The queued functors of a connection; no two share a buffer. */
  ghost predicate Queue(c: RtpConnection, es: seq<Push>)
    reads c, Buffers(c.jobs)
  {
    && Packed(c.jobs, es)
    && (forall i, j :: 0 <= i < j < |es| ==> c.jobs[i].pkt.data != c.jobs[j].pkt.data)
  }

  /** The loop of a connection runs the first of its functors. */
  method RunFirst(c: RtpConnection, ghost es: seq<Push>)
    requires c.Valid() && es != [] && Queue(c, es) && Pushable(es)
    modifies c, c.jobs[0].pkt.data
    ensures c.Valid() && Queue(c, es[1..]) && c.jobs == old(c.jobs)[1..]
    ensures c.State() == Deliver(old(c.State()), es[0].ch, es[0].p)
  {
    c.RunJob();
    forall i | 0 <= i < |es| - 1
      ensures c.jobs[i].pkt.Valid() && c.jobs[i].channelId == es[1..][i].ch && c.jobs[i].pkt.View() == es[1..][i].p
    {
      assert c.jobs[i] == old(c.jobs)[i + 1] && es[1..][i] == es[i + 1];
    }
  }

  lemma BuffersTail(jobs: seq<Job>)
    requires jobs != []
    ensures Buffers(jobs[1..]) <= Buffers(jobs)
  {
    forall b | b in Buffers(jobs[1..]) ensures b in Buffers(jobs) {
      var i :| 0 <= i < |jobs[1..]| && jobs[1..][i].pkt.data == b;
      assert jobs[i + 1].pkt.data == b;
    }
  }

  /** All of them: the connection has taken one step of the stream for each, in order. */
  method RunQueue(c: RtpConnection, ghost es: seq<Push>)
    requires c.Valid() && Queue(c, es) && Pushable(es)
    modifies c, Buffers(c.jobs)
    ensures c.Valid() && c.jobs == []
    ensures c.State() == DeliverPushes(old(c.State()), es)
  {
    ghost var s0, rest := c.State(), es;
    while c.jobs != []
      invariant c.Valid() && Queue(c, rest) && Pushable(rest)
      invariant DeliverPushes(c.State(), rest) == DeliverPushes(s0, es)
      invariant Buffers(c.jobs) <= old(Buffers(c.jobs))
      decreases |c.jobs|
    {
      assert c.jobs[0].pkt.data in Buffers(c.jobs);
      ghost var jobs := c.jobs;
      RunFirst(c, rest);
      assert Buffers(c.jobs) <= Buffers(jobs) by {
        BuffersTail(jobs);
      }
      rest := rest[1..];
    }
  }

  // ---- Frames pushed for one client ----

  /** A frame pushed on a channel when the clock shows `now`. */
  datatype FramePush = FramePush(ch: nat, frame: AvFrame, now: uint32)
  {
    function Sent(): (t: AvFrame)
      ensures t.data == frame.data && t.kind == frame.kind
      ensures t.timestamp == if frame.timestamp != 0 then frame.timestamp else now
    {
      Timed(frame, now)
    }
    predicate Key()
      ensures Key() <==> frame.kind == 0 || frame.kind == 1
    {
      frame.kind == 0 || frame.kind == VIDEO_FRAME_I
    }
    function Pushes(): seq<Push> {
      PushesOn(ch, PacketsOf(Sent(), Packetize(frame.data)))
    }
  }

  function PushesOn(ch: nat, ps: seq<Packet>): (es: seq<Push>)
    ensures |es| == |ps| && forall i :: 0 <= i < |ps| ==> es[i] == Push(ch, ps[i])
  {
    seq(|ps|, i requires 0 <= i < |ps| => Push(ch, ps[i]))
  }

  function AllPushes(fs: seq<FramePush>): seq<Push> {
    if fs == [] then [] else fs[0].Pushes() + AllPushes(fs[1..])
  }

  /** The frames of one channel. */
  function FramesOn(fs: seq<FramePush>, ch: nat): seq<AvFrame> {
    if fs == [] then [] else (if fs[0].ch == ch then [fs[0].Sent()] else []) + FramesOn(fs[1..], ch)
  }

  lemma {:induction false} AllPushable(fs: seq<FramePush>)
    requires forall i :: 0 <= i < |fs| ==> fs[i].ch < MAX_MEDIA_CHANNEL
    ensures Pushable(AllPushes(fs))
  {
    if fs != [] {
      PacketizeSmall(fs[0].frame.data);
      AllPushable(fs[1..]);
    }
  }

  lemma {:induction false} OnAppend(a: seq<Push>, b: seq<Push>, ch: nat)
    ensures On(a + b, ch) == On(a, ch) + On(b, ch)
  {
    if a == [] {
      assert a + b == b;
    } else {
      assert (a + b)[1..] == a[1..] + b;
      OnAppend(a[1..], b, ch);
      AppendAssociates(if a[0].ch == ch then [a[0].p] else [], On(a[1..], ch), On(b, ch));
    }
  }

  lemma {:induction false} OnPushes(c: nat, ps: seq<Packet>, ch: nat)
    ensures On(PushesOn(c, ps), ch) == if c == ch then ps else []
  {
    if ps != [] {
      assert PushesOn(c, ps)[1..] == PushesOn(c, ps[1..]);
      OnPushes(c, ps[1..], ch);
    }
  }

  /** On a channel go the packets of its frames. */
  lemma {:induction false} OnAllPushes(fs: seq<FramePush>, ch: nat)
    ensures On(AllPushes(fs), ch) == PacketsOfFrames(FramesOn(fs, ch))
  {
    if fs != [] {
      var f := fs[0];
      OnAppend(f.Pushes(), AllPushes(fs[1..]), ch);
      OnPushes(f.ch, PacketsOf(f.Sent(), Packetize(f.frame.data)), ch);
      OnAllPushes(fs[1..], ch);
      if f.ch == ch {
        assert FramesOn(fs, ch)[1..] == FramesOn(fs[1..], ch);
      } else {
        assert FramesOn(fs, ch) == FramesOn(fs[1..], ch);
      }
    }
  }

  lemma {:induction false} AllPushesSnoc(fs: seq<FramePush>, n: nat)
    requires n < |fs|
    ensures AllPushes(fs[..n + 1]) == AllPushes(fs[..n]) + fs[n].Pushes()
    decreases n
  {
    if n == 0 {
      assert fs[..1] == [fs[0]] && fs[..0] == [];
      assert AllPushes([fs[0]]) == fs[0].Pushes() + AllPushes([fs[0]][1..]);
    } else {
      assert fs[..n + 1][1..] == fs[1..][..n] && fs[..n][1..] == fs[1..][..n - 1];
      AllPushesSnoc(fs[1..], n - 1);
      AppendAssociates(fs[0].Pushes(), AllPushes(fs[1..][..n - 1]), fs[n].Pushes());
    }
  }

  /** A client that stays connected and open, in a session whose clients are told apart. */
  ghost predicate Served(source: H264Source, c: RtpConnection, expired: set<int>, gone: set<RtpConnection>)
    reads source, source.Sessions(), source.Clients()
  {
    && source.session != null && source.session.Valid() && source.session.Apart()
    && c in source.Watched(expired, gone) && c in source.Clients()
  }

  lemma QueuedApart(session: MediaSession, c: RtpConnection)
    requires session.Isolated() && c in session.Conns()
    ensures forall i, j :: 0 <= i < j < |c.jobs| ==> c.jobs[i].pkt.data != c.jobs[j].pkt.data
  {
    assert session.Queues()[c] == c.jobs;
  }

  lemma Extended(c: RtpConnection, es: seq<Push>, before: seq<Job>, ch: nat, packets: seq<Packet>)
    requires Packed(before, es) && Extends(c.jobs, before, ch, packets)
    requires forall i, j :: 0 <= i < j < |c.jobs| ==> c.jobs[i].pkt.data != c.jobs[j].pkt.data
    ensures Queue(c, es + PushesOn(ch, packets))
  {
    var all := es + PushesOn(ch, packets);
    forall i | 0 <= i < |all|
      ensures c.jobs[i].pkt.Valid() && c.jobs[i].channelId == all[i].ch && c.jobs[i].pkt.View() == all[i].p
    {
      if i < |es| {
        assert c.jobs[i] == c.jobs[..|before|][i] == before[i];
      } else {
        assert all[i] == Push(ch, packets[i - |es|]);
      }
    }
  }

  lemma QueueExtended(session: MediaSession, c: RtpConnection, es: seq<Push>, before: seq<Job>, ch: nat,
                      packets: seq<Packet>)
    requires session.Isolated() && c in session.Conns()
    requires Packed(before, es) && Extends(c.jobs, before, ch, packets)
    ensures Queue(c, es + PushesOn(ch, packets))
  {
    QueuedApart(session, c);
    Extended(c, es, before, ch, packets);
  }

  method Handle(source: H264Source, c: RtpConnection, f: FramePush, expired: set<int>, gone: set<RtpConnection>)
    requires Served(source, c, expired, gone) && f.ch < MAX_MEDIA_CHANNEL
    modifies source.Sessions()`clients, source.Clients()`jobs, source.Clients()`tcpAlive
    ensures Served(source, c, expired, gone) && c.Valid() && source.session.Isolated() && c in source.session.Conns()
    ensures Extends(c.jobs, old(c.jobs), f.ch, PacketsOf(f.Sent(), Packetize(f.frame.data)))
    ensures c.State() == old(c.State()) && source.Clients() <= old(source.Clients())
  {
    var ok := source.HandleFrame(f.ch, f.frame, f.now, expired, gone);
  }

  method PushOne(source: H264Source, c: RtpConnection, f: FramePush, expired: set<int>, gone: set<RtpConnection>,
                 ghost es: seq<Push>)
    requires Served(source, c, expired, gone) && Queue(c, es) && f.ch < MAX_MEDIA_CHANNEL
    modifies source.Sessions()`clients, source.Clients()`jobs, source.Clients()`tcpAlive
    ensures Served(source, c, expired, gone) && Queue(c, es + f.Pushes()) && c.Valid()
    ensures c.State() == old(c.State()) && source.Clients() <= old(source.Clients())
  {
    ghost var before, packets := c.jobs, PacketsOf(f.Sent(), Packetize(f.frame.data));
    Handle(source, c, f, expired, gone);
    assert Packed(before, es);
    QueueExtended(source.session, c, es, before, f.ch, packets);
  }

  method PushFrames(source: H264Source, c: RtpConnection, fs: seq<FramePush>, expired: set<int>,
                    gone: set<RtpConnection>)
    requires Served(source, c, expired, gone) && c.jobs == [] && c.Valid()
    requires forall i :: 0 <= i < |fs| ==> fs[i].ch < MAX_MEDIA_CHANNEL
    modifies source.Sessions()`clients, source.Clients()`jobs, source.Clients()`tcpAlive
    ensures Served(source, c, expired, gone) && source.Clients() <= old(source.Clients())
    ensures c.Valid() && Queue(c, AllPushes(fs)) && c.State() == old(c.State())
    decreases |fs|
  {
    if fs != [] {
      var n := |fs| - 1;
      PushFrames(source, c, fs[..n], expired, gone);
      AllPushesSnoc(fs, n);
      assert fs[..n + 1] == fs;
      PushOne(source, c, fs[n], expired, gone, AllPushes(fs[..n]));
    }
  }

  lemma {:induction false} FramesDeliverable(fs: seq<FramePush>, ch: nat)
    requires forall i :: 0 <= i < |fs| ==> Deliverable(fs[i].frame.data)
    ensures forall f :: f in FramesOn(fs, ch) ==> Deliverable(f.data)
  {
    if fs != [] {
      FramesDeliverable(fs[1..], ch);
    }
  }

  // ---- Until the first key frame ----

  /** The frames that are not held back: those from the first key frame on, on whichever channel that comes. */
  function FromFirstKey(has: bool, fs: seq<FramePush>): (rest: seq<FramePush>)
    ensures |rest| <= |fs| && rest == fs[|fs| - |rest|..]
  {
    if has || fs == [] || fs[0].Key() then fs else FromFirstKey(false, fs[1..])
  }

  lemma {:induction false} DeliverPushesAppend(s: Conn, a: seq<Push>, b: seq<Push>)
    requires s.Valid() && Pushable(a) && Pushable(b)
    ensures Pushable(a + b) && DeliverPushes(s, a + b) == DeliverPushes(DeliverPushes(s, a), b)
    decreases |a|
  {
    if a == [] {
      assert a + b == b;
    } else {
      assert (a + b)[1..] == a[1..] + b;
      DeliverPushesAppend(Deliver(s, a[0].ch, a[0].p), a[1..], b);
    }
  }

  lemma {:induction false} AllHeldBack(s: Conn, es: seq<Push>)
    requires s.Valid() && Pushable(es) && !s.hasIDRFrame
    requires forall i :: 0 <= i < |es| ==> es[i].p.kind != 0 && es[i].p.kind != VIDEO_FRAME_I
    ensures DeliverPushes(s, es) == s
    decreases |es|
  {
    if es != [] {
      assert Deliver(s, es[0].ch, es[0].p) == s;
      AllHeldBack(s, es[1..]);
    }
  }

  /** A key frame counts before its first packet is sent. */
  lemma KeyComesFirst(s: Conn, f: FramePush, more: seq<Push>)
    requires s.Valid() && f.ch < MAX_MEDIA_CHANNEL && f.Key() && Pushable(f.Pushes() + more)
    ensures DeliverPushes(s, f.Pushes() + more) == DeliverPushes(s.(hasIDRFrame := true), f.Pushes() + more)
  {
    var first := (f.Pushes() + more)[0];
    assert first == f.Pushes()[0];
    assert Deliver(s, first.ch, first.p) == Deliver(s.(hasIDRFrame := true), first.ch, first.p);
  }

  lemma {:induction false} HeldUntilKey(s: Conn, fs: seq<FramePush>)
    requires s.Valid() && forall i :: 0 <= i < |fs| ==> fs[i].ch < MAX_MEDIA_CHANNEL
    ensures Pushable(AllPushes(fs)) && Pushable(AllPushes(FromFirstKey(s.hasIDRFrame, fs)))
    ensures var rest := FromFirstKey(s.hasIDRFrame, fs);
            DeliverPushes(s, AllPushes(fs)).sent == DeliverPushes(s.(hasIDRFrame := true), AllPushes(rest)).sent
    decreases |fs|
  {
    AllPushable(fs);
    if fs != [] && !s.hasIDRFrame {
      var f, more := fs[0], AllPushes(fs[1..]);
      AllPushable(fs[1..]);
      PacketizeSmall(f.frame.data);
      if f.Key() {
        KeyComesFirst(s, f, more);
      } else {
        AllHeldBack(s, f.Pushes());
        DeliverPushesAppend(s, f.Pushes(), more);
        HeldUntilKey(s, fs[1..]);
      }
    }
  }

  function DataOf(fs: seq<AvFrame>): (data: seq<seq<byte>>)
    ensures |data| == |fs| && forall i :: 0 <= i < |fs| ==> data[i] == fs[i].data
  {
    seq(|fs|, i requires 0 <= i < |fs| => fs[i].data)
  }

  lemma {:induction false} NoneHeldBack(fs: seq<AvFrame>)
    ensures FromKeyFrame(true, fs) == DataOf(fs)
  {
    if fs != [] {
      NoneHeldBack(fs[1..]);
    }
  }

  /** Connected and active; a key frame may be yet to come. */
  ghost predicate Playing(s: Conn, ch: nat)
    requires s.Valid() && ch < MAX_MEDIA_CHANNEL
  {
    s.alive && s.channels[ch].Active()
  }

  /** What a receiver of a channel reads once pushed frames are delivered. */
  lemma PushedReceived(s: Conn, ch: nat, fs: seq<FramePush>)
    requires s.Valid() && ch < MAX_MEDIA_CHANNEL && Playing(s, ch) && OwnNumber(s, ch)
    requires forall i :: 0 <= i < |fs| ==> fs[i].ch < MAX_MEDIA_CHANNEL && Deliverable(fs[i].frame.data)
    ensures Pushable(AllPushes(fs)) && WireOf(s.sent) <= WireOf(DeliverPushes(s, AllPushes(fs)).sent)
    ensures Receive(WireOf(DeliverPushes(s, AllPushes(fs)).sent)[|WireOf(s.sent)|..], s.channels[ch].rtpChannel % 256)
            == DataOf(FramesOn(FromFirstKey(s.hasIDRFrame, fs), ch))
    ensures Labels(Parsed(Deframe(WireOf(DeliverPushes(s, AllPushes(fs)).sent)[|WireOf(s.sent)|..]),
                          s.channels[ch].rtpChannel % 256))
            == LabelsOf(FramesOn(FromFirstKey(s.hasIDRFrame, fs), ch),
                        s.channels[ch].header.payload, s.channels[ch].header.ssrc)
  {
    HeldUntilKey(s, fs);
    FlowingReceived(s.(hasIDRFrame := true), ch, FromFirstKey(s.hasIDRFrame, fs));
  }

  lemma FlowingReceived(s: Conn, ch: nat, fs: seq<FramePush>)
    requires s.Valid() && ch < MAX_MEDIA_CHANNEL && Flowing(s, ch) && OwnNumber(s, ch)
    requires Pushable(AllPushes(fs)) && forall i :: 0 <= i < |fs| ==> Deliverable(fs[i].frame.data)
    ensures WireOf(s.sent) <= WireOf(DeliverPushes(s, AllPushes(fs)).sent)
    ensures Receive(WireOf(DeliverPushes(s, AllPushes(fs)).sent)[|WireOf(s.sent)|..], s.channels[ch].rtpChannel % 256)
            == DataOf(FramesOn(fs, ch))
    ensures Labels(Parsed(Deframe(WireOf(DeliverPushes(s, AllPushes(fs)).sent)[|WireOf(s.sent)|..]),
                          s.channels[ch].rtpChannel % 256))
            == LabelsOf(FramesOn(fs, ch), s.channels[ch].header.payload, s.channels[ch].header.ssrc)
  {
    OnAllPushes(fs, ch);
    FramesDeliverable(fs, ch);
    EndToEndInterleaved(s, ch, AllPushes(fs), FramesOn(fs, ch));
    NoneHeldBack(FramesOn(fs, ch));
  }

  /** The loop of the connection runs what frames pushed on both channels, in any order, have queued. A receiver
      of either channel reads from the bytes then handed to the TCP connection exactly the frames of that
      channel that came no earlier than the first key frame on either. */
  method RunPushed(c: RtpConnection, ghost fs: seq<FramePush>)
    requires c.Valid() && Queue(c, AllPushes(fs))
    requires forall i :: 0 <= i < |fs| ==> fs[i].ch < MAX_MEDIA_CHANNEL && Deliverable(fs[i].frame.data)
    modifies c, Buffers(c.jobs)
    ensures c.Valid() && c.jobs == []
    ensures forall ch :: 0 <= ch < MAX_MEDIA_CHANNEL && Playing(old(c.State()), ch) && OwnNumber(old(c.State()), ch) ==>
              && old(c.wire) <= c.wire
              && Receive(c.wire[|old(c.wire)|..], old(c.channels)[ch].rtpChannel % 256)
                 == DataOf(FramesOn(FromFirstKey(old(c.hasIDRFrame), fs), ch))
              && Labels(Parsed(Deframe(c.wire[|old(c.wire)|..]), old(c.channels)[ch].rtpChannel % 256))
                 == LabelsOf(FramesOn(FromFirstKey(old(c.hasIDRFrame), fs), ch),
                             old(c.channels)[ch].header.payload, old(c.channels)[ch].header.ssrc)
  {
    ghost var s0, es := c.State(), AllPushes(fs);
    AllPushable(fs);
    RunQueue(c, es);
    forall ch | 0 <= ch < MAX_MEDIA_CHANNEL && Playing(s0, ch) && OwnNumber(s0, ch)
      ensures WireOf(s0.sent) <= c.wire
      ensures Receive(c.wire[|WireOf(s0.sent)|..], s0.channels[ch].rtpChannel % 256)
              == DataOf(FramesOn(FromFirstKey(s0.hasIDRFrame, fs), ch))
      ensures Labels(Parsed(Deframe(c.wire[|WireOf(s0.sent)|..]), s0.channels[ch].rtpChannel % 256))
              == LabelsOf(FramesOn(FromFirstKey(s0.hasIDRFrame, fs), ch),
                          s0.channels[ch].header.payload, s0.channels[ch].header.ssrc)
    {
      PushedReceived(s0, ch, fs);
    }
  }

  // ---- From the creation of a connection on ----

  /** After any calls on a new connection that lasts: frames pushed on a channel that was started are read under the
      number of its last set-up, from the first key frame on, unless the other channel goes by the same number. */
  lemma ReceivedAfterRun(c: Conn, es: seq<Event>, ch: nat, n: uint16, fs: seq<FramePush>)
    requires New(c) && AllAllowed(es) && ch < MAX_MEDIA_CHANNEL
    requires Disconnect !in es && Started(es, ch) && NumberIs(es, ch, n)
    requires Started(es, 1 - ch) ==> forall m: uint16 :: NumberIs(es, 1 - ch, m) ==> m % 256 != n % 256
    requires forall i :: 0 <= i < |fs| ==> fs[i].ch < MAX_MEDIA_CHANNEL && Deliverable(fs[i].frame.data)
    ensures var d := After(c, es);
            && Pushable(AllPushes(fs)) && WireOf(d.sent) <= WireOf(DeliverPushes(d, AllPushes(fs)).sent)
            && Receive(WireOf(DeliverPushes(d, AllPushes(fs)).sent)[|WireOf(d.sent)|..], n % 256)
               == DataOf(FramesOn(FromFirstKey(KeySeen(es), fs), ch))
  {
    var d := After(c, es);
    ClosedExactly(c, es);
    ActiveExactly(c, es, ch);
    ActiveExactly(c, es, 1 - ch);
    StartedIsSetUp(es, ch);
    NumberExactly(c, es, ch);
    NumberUnique(es, ch, n, d.channels[ch].rtpChannel);
    if Started(es, 1 - ch) {
      StartedIsSetUp(es, 1 - ch);
      NumberExactly(c, es, 1 - ch);
    }
    PushedReceived(d, ch, fs);
  }

  /** So it is after one set-up and play. */
  lemma ReceivedAfterPlay(c: Conn, ch: nat, n: uint16, m: uint16, fs: seq<FramePush>)
    requires New(c) && ch < MAX_MEDIA_CHANNEL
    requires forall i :: 0 <= i < |fs| ==> fs[i].ch < MAX_MEDIA_CHANNEL && Deliverable(fs[i].frame.data)
    ensures var es := [Setup(ch, n, m), Event.Play];
            && AllAllowed(es) && Pushable(AllPushes(fs))
            && Receive(WireOf(DeliverPushes(After(c, es), AllPushes(fs)).sent), n % 256)
               == DataOf(FramesOn(FromFirstKey(false, fs), ch))
  {
    var es := [Setup(ch, n, m), Event.Play];
    AfterTwo(c, es[0], es[1]);
    SetUpThenPlay(ch, n, m);
    ReceivedAfterRun(c, es, ch, n, fs);
    assert WireOf(After(c, es).sent) == [];
  }

  /** The object itself is ready after set-up and play. */
  method SetUpAndPlay(c: RtpConnection, ch: nat, n: uint16, m: uint16)
    requires c.Valid() && New(c.State()) && ch < MAX_MEDIA_CHANNEL
    modifies c
    ensures c.Valid() && c.jobs == old(c.jobs) && c.channels[ch].rtpChannel == n && !c.hasIDRFrame
    ensures Playing(c.State(), ch) && OwnNumber(c.State(), ch) && c.wire == []
    ensures c.State() == After(old(c.State()), [Setup(ch, n, m), Event.Play])
  {
    AfterTwo(c.State(), Setup(ch, n, m), Event.Play);
    var ok := c.SetupRtpOverTcp(ch, n, m);
    c.Play();
  }
}
