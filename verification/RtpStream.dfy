/** The sending side of one RTP client as a state machine: what play, teardown and queued packets put
    on its connection, and what a receiver makes of it. */
module RtpStream {
  import opened Bytes
  import opened RtpFormat

  const MAX_MEDIA_CHANNEL := 2
  const VIDEO_FRAME_I: byte := 1

  datatype ChannelInfo = ChannelInfo(header: RtpHeader, rtpChannel: uint16, rtcpChannel: uint16, packetSeq: uint16,
                                     isSetup: bool, isPlay: bool, isRecord: bool)
  {
    predicate Valid() {
      header.Valid()
    }
    predicate Active() {
      isPlay || isRecord
    }
    predicate Used() {
      isSetup || Active()
    }
  }

  /** A packet before its headers are written; the marker bit is `last`. */
  datatype Packet = Packet(kind: byte, timestamp: uint32, last: bool, payload: seq<byte>)

  datatype Sent = Sent(channelId: nat, rtpChannel: uint16, header: RtpHeader, payload: seq<byte>)

  datatype Conn = Conn(isClosed: bool, hasIDRFrame: bool, channels: seq<ChannelInfo>, alive: bool, sent: seq<Sent>)
  {
    predicate Valid() {
      && |channels| == MAX_MEDIA_CHANNEL
      && (forall i :: 0 <= i < |channels| ==> channels[i].Valid())
      && (forall i :: 0 <= i < |sent| ==> sent[i].channelId < MAX_MEDIA_CHANNEL && sent[i].header.Valid())
    }
  }

  function Stamped(info: ChannelInfo, p: Packet): RtpHeader {
    info.header.(marker := if p.last then 1 else 0, ts := p.timestamp, seqNo := info.packetSeq)
  }

  /** The functor that sendRtpPacket queues, run in the connection's loop. */
  function Deliver(c: Conn, ch: nat, p: Packet): Conn
    requires c.Valid() && ch < MAX_MEDIA_CHANNEL
  {
    var hasIDR := c.hasIDRFrame || p.kind == 0 || p.kind == VIDEO_FRAME_I;
    var info := c.channels[ch];
    if !(info.Active() && hasIDR) then c.(hasIDRFrame := hasIDR)
    else
      c.(hasIDRFrame := hasIDR,
         channels := c.channels[ch := info.(header := Stamped(info, p), packetSeq := Next(info.packetSeq))],
         sent := if c.alive then c.sent + [Sent(ch, info.rtpChannel, Stamped(info, p), p.payload)] else c.sent)
  }

  datatype Event =
    | Setup(ch: nat, rtpChannel: uint16, rtcpChannel: uint16)
    | SetPayloadType(ch: nat, payload: nat)
    | Play
    | Record
    | Teardown
    | Queued(ch: nat, p: Packet)
    | Disconnect

  predicate Allowed(e: Event) {
    match e
    case Setup(ch, _, _) => ch < MAX_MEDIA_CHANNEL
    case SetPayloadType(ch, _) => ch < MAX_MEDIA_CHANNEL
    case Queued(ch, _) => ch < MAX_MEDIA_CHANNEL
    case _ => true
  }

  function MapChannels(cs: seq<ChannelInfo>, f: ChannelInfo -> ChannelInfo): (r: seq<ChannelInfo>)
    ensures |r| == |cs| && forall i :: 0 <= i < |cs| ==> r[i] == f(cs[i])
  {
    seq(|cs|, i requires 0 <= i < |cs| => f(cs[i]))
  }

  function Step(c: Conn, e: Event): Conn
    requires c.Valid() && Allowed(e)
  {
    match e
    case Setup(ch, rtpChannel, rtcpChannel) =>
      if c.alive then
        c.(channels := c.channels[ch := c.channels[ch].(rtpChannel := rtpChannel, rtcpChannel := rtcpChannel,
                                                        isSetup := true)])
      else c
    case SetPayloadType(ch, payload) =>
      c.(channels := c.channels[ch := c.channels[ch].(header := c.channels[ch].header.(payload := payload % 128))])
    case Play => c.(channels := MapChannels(c.channels, (i: ChannelInfo) => i.(isPlay := i.isPlay || i.isSetup)))
    case Record =>
      c.(channels := MapChannels(c.channels, (i: ChannelInfo) =>
                                   i.(isRecord := i.isRecord || i.isSetup, isPlay := i.isPlay || i.isSetup)))
    case Teardown =>
      if c.isClosed then c
      else c.(isClosed := true,
              channels := MapChannels(c.channels, (i: ChannelInfo) => i.(isPlay := false, isRecord := false)))
    case Queued(ch, p) => Deliver(c, ch, p)
    case Disconnect => c.(alive := false)
  }

  lemma StepValid(c: Conn, e: Event)
    requires c.Valid() && Allowed(e)
    ensures Step(c, e).Valid()
  {
  }

  // ---- Sequence numbers over any run ----

  function SeqsOn(sent: seq<Sent>, ch: nat): seq<uint16> {
    if sent == [] then []
    else SeqsOn(sent[..|sent| - 1], ch)
         + (if sent[|sent| - 1].channelId == ch then [sent[|sent| - 1].header.seqNo] else [])
  }

  predicate Consecutive(s: seq<uint16>) {
    forall i :: 0 < i < |s| ==> s[i] == Next(s[i - 1])
  }

  /** The numbers sent on a channel are consecutive, and while the connection lasts the counter
      continues them. */
  ghost predicate Numbering(c: Conn)
    requires c.Valid()
  {
    forall ch :: 0 <= ch < MAX_MEDIA_CHANNEL ==>
      var s := SeqsOn(c.sent, ch);
      Consecutive(s) && (c.alive && s != [] ==> c.channels[ch].packetSeq == Next(s[|s| - 1]))
  }

  lemma StepNumbering(c: Conn, e: Event)
    requires c.Valid() && Allowed(e) && Numbering(c)
    ensures Step(c, e).Valid() && Numbering(Step(c, e))
  {
    StepValid(c, e);
    var d := Step(c, e);
    if d.sent != c.sent {
      assert d.sent[..|d.sent| - 1] == c.sent;
    }
    forall ch | 0 <= ch < MAX_MEDIA_CHANNEL
      ensures var s := SeqsOn(d.sent, ch);
              Consecutive(s) && (d.alive && s != [] ==> d.channels[ch].packetSeq == Next(s[|s| - 1]))
    {
      var s := SeqsOn(c.sent, ch);
      assert Consecutive(s);
    }
  }

  ghost predicate AllAllowed(es: seq<Event>) {
    forall i :: 0 <= i < |es| ==> Allowed(es[i])
  }

  /** After any events. */
  ghost function After(c: Conn, es: seq<Event>): (d: Conn)
    requires c.Valid() && AllAllowed(es)
    ensures d.Valid()
  {
    if es == [] then c
    else
      var d := After(c, es[..|es| - 1]);
      StepValid(d, es[|es| - 1]);
      Step(d, es[|es| - 1])
  }

  /** Whatever the interleaving of set-up, play, record, teardown, loss of the connection and queued
      packets: the packets sent on a media channel carry consecutive numbers modulo 65536. */
  lemma {:induction false} SentConsecutively(c: Conn, es: seq<Event>)
    requires c.Valid() && Numbering(c) && AllAllowed(es)
    ensures Numbering(After(c, es))
  {
    if es != [] {
      SentConsecutively(c, es[..|es| - 1]);
      StepNumbering(After(c, es[..|es| - 1]), es[|es| - 1]);
    }
  }

  // ---- Bytes on the wire ----

  function WireOf(sent: seq<Sent>): seq<byte>
    requires forall i :: 0 <= i < |sent| ==> sent[i].header.Valid()
  {
    if sent == [] then []
    else Frame(sent[0].rtpChannel, Layout(sent[0].header) + sent[0].payload) + WireOf(sent[1..])
  }

  lemma {:induction false} WireOfAppend(a: seq<Sent>, b: seq<Sent>)
    requires forall i :: 0 <= i < |a| ==> a[i].header.Valid()
    requires forall i :: 0 <= i < |b| ==> b[i].header.Valid()
    ensures WireOf(a + b) == WireOf(a) + WireOf(b)
  {
    if a == [] {
      assert a + b == b;
    } else {
      assert (a + b)[1..] == a[1..] + b;
      WireOfAppend(a[1..], b);
    }
  }

  // ---- Frames end to end ----

  datatype AvFrame = AvFrame(data: seq<byte>, kind: byte, timestamp: uint32)

  function PacketsOf(f: AvFrame, ps: seq<Payload>): (r: seq<Packet>)
    ensures |r| == |ps| && forall i :: 0 <= i < |ps| ==> r[i] == Packet(f.kind, f.timestamp, ps[i].last, ps[i].data)
  {
    seq(|ps|, i requires 0 <= i < |ps| => Packet(f.kind, f.timestamp, ps[i].last, ps[i].data))
  }

  function DeliverAll(c: Conn, ch: nat, ps: seq<Packet>): (d: Conn)
    requires c.Valid() && ch < MAX_MEDIA_CHANNEL
    ensures d.Valid()
    decreases |ps|
  {
    if ps == [] then c else DeliverAll(Deliver(c, ch, ps[0]), ch, ps[1..])
  }

  function DeliverFrames(c: Conn, ch: nat, fs: seq<AvFrame>): (d: Conn)
    requires c.Valid() && ch < MAX_MEDIA_CHANNEL
    ensures d.Valid()
    decreases |fs|
  {
    if fs == [] then c
    else DeliverFrames(DeliverAll(c, ch, PacketsOf(fs[0], Packetize(fs[0].data))), ch, fs[1..])
  }

  /** The header that payload number i of a frame gets on a channel. */
  function HeaderFor(info: ChannelInfo, f: AvFrame, last: bool, s: uint16): RtpHeader {
    info.header.(marker := if last then 1 else 0, ts := f.timestamp, seqNo := s)
  }

  function SentFor(ch: nat, info: ChannelInfo, f: AvFrame, s: uint16, ps: seq<Payload>): (r: seq<Sent>)
    requires info.Valid()
    ensures |r| == |ps| && forall i :: 0 <= i < |r| ==> r[i].header.Valid()
    decreases |ps|
  {
    if ps == [] then []
    else [Sent(ch, info.rtpChannel, HeaderFor(info, f, ps[0].last, s), ps[0].data)]
         + SentFor(ch, info, f, Next(s), ps[1..])
  }

  ghost predicate Sending(c: Conn, ch: nat, f: AvFrame)
    requires c.Valid() && ch < MAX_MEDIA_CHANNEL
  {
    c.alive && c.channels[ch].Active() && (c.hasIDRFrame || f.kind == 0 || f.kind == VIDEO_FRAME_I)
  }

  /** A sending connection emits every payload of a frame, numbered from its counter on. */
  lemma {:induction false} DeliverPayloads(c: Conn, ch: nat, f: AvFrame, ps: seq<Payload>)
    requires c.Valid() && ch < MAX_MEDIA_CHANNEL && Sending(c, ch, f)
    ensures var d := DeliverAll(c, ch, PacketsOf(f, ps));
            && d.sent == c.sent + SentFor(ch, c.channels[ch], f, c.channels[ch].packetSeq, ps)
            && SameChannel(d, c, ch) && (ps != [] ==> d.hasIDRFrame)
            && d.channels[ch].packetSeq == SeqAdd(c.channels[ch].packetSeq, |ps|)
    decreases |ps|
  {
    var pk := PacketsOf(f, ps);
    if ps != [] {
      var c1 := Deliver(c, ch, pk[0]);
      assert pk[1..] == PacketsOf(f, ps[1..]);
      DeliverPayloads(c1, ch, f, ps[1..]);
      SameHeaders(ch, c.channels[ch], c1.channels[ch], f, Next(c.channels[ch].packetSeq), ps[1..]);
      assert DeliverAll(c, ch, pk) == DeliverAll(c1, ch, pk[1..]);
      SeqAddNext(c.channels[ch].packetSeq, |ps|);
      var sent := SentFor(ch, c.channels[ch], f, c.channels[ch].packetSeq, ps);
      AppendAssociates(c.sent, [sent[0]], sent[1..]);
    }
  }

  /** Delivering changes neither the negotiated parameters nor whether the channel is active. */
  ghost predicate SameChannel(d: Conn, c: Conn, ch: nat)
    requires c.Valid() && d.Valid() && ch < MAX_MEDIA_CHANNEL
  {
    var i, j := d.channels[ch], c.channels[ch];
    && d.alive == c.alive && d.isClosed == c.isClosed
    && i.rtpChannel == j.rtpChannel && i.Active() == j.Active()
    && i.header.payload == j.header.payload && i.header.ssrc == j.header.ssrc
  }

  lemma {:induction false} SameHeaders(ch: nat, i: ChannelInfo, j: ChannelInfo, f: AvFrame, s: uint16, ps: seq<Payload>)
    requires i.Valid() && j.Valid() && i.rtpChannel == j.rtpChannel
    requires i.header.payload == j.header.payload && i.header.ssrc == j.header.ssrc
    ensures SentFor(ch, i, f, s, ps) == SentFor(ch, j, f, s, ps)
    decreases |ps|
  {
    if ps != [] {
      SameHeaders(ch, i, j, f, Next(s), ps[1..]);
    }
  }

  /** The packets sent on one interleaved channel, as a receiver parses them. */
  function Fields(sent: seq<Sent>, chan: byte): seq<RtpFields> {
    if sent == [] then []
    else
      (var h, p := sent[0].header, sent[0].payload;
       if sent[0].rtpChannel % 256 == chan
       then [RtpFields(h.marker == 1, h.payload, h.seqNo, h.ts, h.ssrc, p)] else [])
      + Fields(sent[1..], chan)
  }

  lemma {:induction false} FieldsAppend(a: seq<Sent>, b: seq<Sent>, chan: byte)
    ensures Fields(a + b, chan) == Fields(a, chan) + Fields(b, chan)
  {
    if a == [] {
      assert a + b == b;
    } else {
      assert (a + b)[1..] == a[1..] + b;
      FieldsAppend(a[1..], b, chan);
    }
  }

  predicate Wellformed(sent: seq<Sent>) {
    forall i :: 0 <= i < |sent| ==> sent[i].header.Valid() && |sent[i].payload| <= MAX_RTP_PAYLOAD_SIZE
  }

  /** Deframing and parsing the wire gives back what was sent, in order, channel by channel. */
  lemma {:induction false} ParseWire(sent: seq<Sent>, chan: byte)
    requires Wellformed(sent)
    ensures Parsed(Deframe(WireOf(sent)), chan) == Fields(sent, chan)
  {
    if sent != [] {
      var data := Layout(sent[0].header) + sent[0].payload;
      DeframeFrame(sent[0].rtpChannel, data, WireOf(sent[1..]));
      ParseLayout(sent[0].header, sent[0].payload);
      ParsedCons(Framed(sent[0].rtpChannel % 256, data), Deframe(WireOf(sent[1..])), chan);
      ParseWire(sent[1..], chan);
    }
  }

  lemma ParsedCons(f: Framed, fs: seq<Framed>, chan: byte)
    requires ParseRtp(f.data).Some?
    ensures Parsed([f] + fs, chan) == (if f.channel == chan then [ParseRtp(f.data).value] else []) + Parsed(fs, chan)
  {
    assert ([f] + fs)[1..] == fs;
  }

  lemma {:induction false} FieldsOfPayloads(ch: nat, info: ChannelInfo, f: AvFrame, s: uint16, ps: seq<Payload>)
    requires info.Valid()
    ensures Fields(SentFor(ch, info, f, s, ps), info.rtpChannel % 256)
            == Numbered(info.header.(ts := f.timestamp), s, ps)
    decreases |ps|
  {
    if ps != [] {
      FieldsOfPayloads(ch, info, f, Next(s), ps[1..]);
    }
  }

  lemma PacketizeSmall(frame: seq<byte>)
    ensures forall i :: 0 <= i < |Packetize(frame)| ==> |Packetize(frame)[i].data| <= MAX_RTP_PAYLOAD_SIZE
  {
    if |frame| > MAX_RTP_PAYLOAD_SIZE {
      FragmentedFrame(frame);
    }
  }

  /** Packets before the first key frame are held back. */
  function FromKeyFrame(has: bool, fs: seq<AvFrame>): seq<seq<byte>>
    decreases |fs|
  {
    if fs == [] then []
    else if has || fs[0].kind == 0 || fs[0].kind == VIDEO_FRAME_I then [fs[0].data] + FromKeyFrame(true, fs[1..])
    else FromKeyFrame(false, fs[1..])
  }

  /** The frames among them that are sent. */
  function Shown(has: bool, fs: seq<AvFrame>): seq<AvFrame> {
    if fs == [] || has || fs[0].kind == 0 || fs[0].kind == VIDEO_FRAME_I then fs else Shown(false, fs[1..])
  }

  // What packets say besides their payload.

  datatype Label = Label(ts: uint32, payloadType: nat, ssrc: uint32, marker: bool)

  function Labels(ps: seq<RtpFields>): (r: seq<Label>)
    ensures |r| == |ps|
  {
    seq(|ps|, i requires 0 <= i < |ps| => Label(ps[i].ts, ps[i].payloadType, ps[i].ssrc, ps[i].marker))
  }

  /** Every packet of a frame has its time stamp, and the last one the marker. */
  function FrameLabels(f: AvFrame, payloadType: nat, ssrc: uint32): (r: seq<Label>)
    ensures |r| == |Packetize(f.data)|
    ensures forall i :: 0 <= i < |r| ==> r[i] == Label(f.timestamp, payloadType, ssrc, i == |r| - 1)
  {
    var n := |Packetize(f.data)|;
    seq(n, i requires 0 <= i < n => Label(f.timestamp, payloadType, ssrc, i == n - 1))
  }

  function LabelsOf(fs: seq<AvFrame>, payloadType: nat, ssrc: uint32): seq<Label> {
    if fs == [] then [] else FrameLabels(fs[0], payloadType, ssrc) + LabelsOf(fs[1..], payloadType, ssrc)
  }

  lemma LabelsAppend(a: seq<RtpFields>, b: seq<RtpFields>)
    ensures Labels(a + b) == Labels(a) + Labels(b)
  {
  }

  lemma {:induction false} NumberedLabels(h: RtpHeader, s: uint16, ps: seq<Payload>)
    ensures forall i :: 0 <= i < |ps| ==> Labels(Numbered(h, s, ps))[i] == Label(h.ts, h.payload, h.ssrc, ps[i].last)
    decreases |ps|
  {
    if ps != [] {
      NumberedLabels(h, Next(s), ps[1..]);
      forall i | 0 < i < |ps| ensures Numbered(h, s, ps)[i] == Numbered(h, Next(s), ps[1..])[i - 1] {
      }
    }
  }

  lemma LastOnly(data: seq<byte>)
    ensures var ps := Packetize(data);
            ps != [] && forall i :: 0 <= i < |ps| ==> (ps[i].last <==> i == |ps| - 1)
  {
    if |data| > MAX_RTP_PAYLOAD_SIZE {
      FragmentedFrame(data);
    }
  }

  lemma LabelsOfFrame(h: RtpHeader, s: uint16, f: AvFrame)
    ensures Labels(Numbered(h.(ts := f.timestamp), s, Packetize(f.data))) == FrameLabels(f, h.payload, h.ssrc)
  {
    NumberedLabels(h.(ts := f.timestamp), s, Packetize(f.data));
    LastOnly(f.data);
  }

  lemma {:induction false} HeldBack(c: Conn, ch: nat, f: AvFrame, ps: seq<Payload>)
    requires c.Valid() && ch < MAX_MEDIA_CHANNEL
    requires !c.hasIDRFrame && f.kind != 0 && f.kind != VIDEO_FRAME_I
    ensures DeliverAll(c, ch, PacketsOf(f, ps)) == c
    decreases |ps|
  {
    if ps != [] {
      var pk := PacketsOf(f, ps);
      assert pk[1..] == PacketsOf(f, ps[1..]);
      assert Deliver(c, ch, pk[0]) == c;
      HeldBack(c, ch, f, ps[1..]);
    }
  }

  /** What a sending connection adds for one frame, and what a receiver in any state gets out of it. */
  lemma StreamOne(c: Conn, ch: nat, f: AvFrame, r: Receiver) returns (first: seq<Sent>, r1: Receiver)
    requires c.Valid() && ch < MAX_MEDIA_CHANNEL && Sending(c, ch, f) && Deliverable(f.data)
    ensures Wellformed(first)
    ensures var d := DeliverAll(c, ch, PacketsOf(f, Packetize(f.data)));
            d.sent == c.sent + first && d.hasIDRFrame && SameChannel(d, c, ch)
    ensures AcceptAll(r, Fields(first, c.channels[ch].rtpChannel % 256)) == (r1, [f.data])
    ensures var h := c.channels[ch].header;
            Labels(Fields(first, c.channels[ch].rtpChannel % 256)) == FrameLabels(f, h.payload, h.ssrc)
  {
    var info, ps := c.channels[ch], Packetize(f.data);
    first := SentFor(ch, info, f, info.packetSeq, ps);
    DeliverPayloads(c, ch, f, ps);
    PacketizeSmall(f.data);
    SmallSent(ch, info, f, info.packetSeq, ps);
    FieldsOfPayloads(ch, info, f, info.packetSeq, ps);
    LabelsOfFrame(info.header, info.packetSeq, f);
    AcceptFrame(r, info.header.(ts := f.timestamp), info.packetSeq, f.data);
    r1 := AcceptAll(r, Fields(first, info.rtpChannel % 256)).0;
  }

  lemma {:induction false} SmallSent(ch: nat, info: ChannelInfo, f: AvFrame, s: uint16, ps: seq<Payload>)
    requires info.Valid()
    requires forall i :: 0 <= i < |ps| ==> |ps[i].data| <= MAX_RTP_PAYLOAD_SIZE
    ensures Wellformed(SentFor(ch, info, f, s, ps))
    decreases |ps|
  {
    if ps != [] {
      SmallSent(ch, info, f, Next(s), ps[1..]);
    }
  }

  lemma JoinSent(r: Receiver, r1: Receiver, first: seq<Sent>, more: seq<Sent>, chan: byte, data: seq<byte>)
    requires Wellformed(first) && Wellformed(more)
    requires AcceptAll(r, Fields(first, chan)) == (r1, [data])
    ensures Wellformed(first + more)
    ensures AcceptAll(r, Fields(first + more, chan)).1 == [data] + AcceptAll(r1, Fields(more, chan)).1
  {
    FieldsAppend(first, more, chan);
    AcceptAllAppend(r, Fields(first, chan), Fields(more, chan));
  }

  /** The same for any frames: what a playing connection adds is received as those frames. */
  lemma {:induction false} StreamFrames(c: Conn, ch: nat, fs: seq<AvFrame>, r: Receiver) returns (added: seq<Sent>)
    requires c.Valid() && ch < MAX_MEDIA_CHANNEL && c.alive && c.channels[ch].Active()
    requires forall i :: 0 <= i < |fs| ==> Deliverable(fs[i].data)
    ensures Wellformed(added)
    ensures DeliverFrames(c, ch, fs).sent == c.sent + added
    ensures AcceptAll(r, Fields(added, c.channels[ch].rtpChannel % 256)).1 == FromKeyFrame(c.hasIDRFrame, fs)
    ensures var h := c.channels[ch].header;
            Labels(Fields(added, c.channels[ch].rtpChannel % 256))
            == LabelsOf(Shown(c.hasIDRFrame, fs), h.payload, h.ssrc)
    decreases |fs|
  {
    if fs == [] {
      added := [];
    } else {
      var f := fs[0];
      var c1 := DeliverAll(c, ch, PacketsOf(f, Packetize(f.data)));
      if c.hasIDRFrame || f.kind == 0 || f.kind == VIDEO_FRAME_I {
        var chan := c.channels[ch].rtpChannel % 256;
        var first, r1 := StreamOne(c, ch, f, r);
        var more := StreamFrames(c1, ch, fs[1..], r1);
        added := first + more;
        AppendAssociates(c.sent, first, more);
        JoinSent(r, r1, first, more, chan, f.data);
        FieldsAppend(first, more, chan);
        LabelsAppend(Fields(first, chan), Fields(more, chan));
      } else {
        HeldBack(c, ch, f, Packetize(f.data));
        added := StreamFrames(c, ch, fs[1..], r);
      }
    }
  }

  /** End to end: the bytes a playing connection sends for any frames, from the first key frame on,
      are read back as exactly those frames in order, whatever number the sequence starts at. */
  lemma EndToEnd(c: Conn, ch: nat, fs: seq<AvFrame>)
    requires c.Valid() && ch < MAX_MEDIA_CHANNEL && c.alive && c.channels[ch].Active()
    requires forall i :: 0 <= i < |fs| ==> Deliverable(fs[i].data)
    ensures WireOf(c.sent) <= WireOf(DeliverFrames(c, ch, fs).sent)
    ensures Receive(WireOf(DeliverFrames(c, ch, fs).sent)[|WireOf(c.sent)|..], c.channels[ch].rtpChannel % 256)
            == FromKeyFrame(c.hasIDRFrame, fs)
    ensures Labels(Parsed(Deframe(WireOf(DeliverFrames(c, ch, fs).sent)[|WireOf(c.sent)|..]),
                          c.channels[ch].rtpChannel % 256))
            == LabelsOf(Shown(c.hasIDRFrame, fs), c.channels[ch].header.payload, c.channels[ch].header.ssrc)
  {
    var added := StreamFrames(c, ch, fs, Receiver(None, None));
    WireOfAppend(c.sent, added);
    assert WireOf(c.sent + added)[|WireOf(c.sent)|..] == WireOf(added);
    ParseWire(added, c.channels[ch].rtpChannel % 256);
  }

  // ---- Two channels at once ----

  /** A packet queued for a channel. */
  datatype Push = Push(ch: nat, p: Packet)

  predicate Pushable(es: seq<Push>) {
    forall i :: 0 <= i < |es| ==> es[i].ch < MAX_MEDIA_CHANNEL && |es[i].p.payload| <= MAX_RTP_PAYLOAD_SIZE
  }

  function DeliverPushes(c: Conn, es: seq<Push>): (d: Conn)
    requires c.Valid() && Pushable(es)
    ensures d.Valid()
    decreases |es|
  {
    if es == [] then c else DeliverPushes(Deliver(c, es[0].ch, es[0].p), es[1..])
  }

  /** The packets of one channel. */
  function On(es: seq<Push>, ch: nat): seq<Packet> {
    if es == [] then [] else (if es[0].ch == ch then [es[0].p] else []) + On(es[1..], ch)
  }

  function PacketsOfFrames(fs: seq<AvFrame>): seq<Packet> {
    if fs == [] then [] else PacketsOf(fs[0], Packetize(fs[0].data)) + PacketsOfFrames(fs[1..])
  }

  lemma {:induction false} DeliverAllAppend(c: Conn, ch: nat, a: seq<Packet>, b: seq<Packet>)
    requires c.Valid() && ch < MAX_MEDIA_CHANNEL
    ensures DeliverAll(c, ch, a + b) == DeliverAll(DeliverAll(c, ch, a), ch, b)
    decreases |a|
  {
    if a == [] {
      assert a + b == b;
    } else {
      assert (a + b)[1..] == a[1..] + b;
      DeliverAllAppend(Deliver(c, ch, a[0]), ch, a[1..], b);
    }
  }

  lemma {:induction false} DeliverFramesIsAll(c: Conn, ch: nat, fs: seq<AvFrame>)
    requires c.Valid() && ch < MAX_MEDIA_CHANNEL
    ensures DeliverFrames(c, ch, fs) == DeliverAll(c, ch, PacketsOfFrames(fs))
    decreases |fs|
  {
    if fs != [] {
      var first := PacketsOf(fs[0], Packetize(fs[0].data));
      DeliverAllAppend(c, ch, first, PacketsOfFrames(fs[1..]));
      DeliverFramesIsAll(DeliverAll(c, ch, first), ch, fs[1..]);
    }
  }

  /** Once a key frame was seen. */
  ghost predicate Flowing(c: Conn, ch: nat)
    requires c.Valid() && ch < MAX_MEDIA_CHANNEL
  {
    c.alive && c.hasIDRFrame && c.channels[ch].Active()
  }

  /** No other active channel is framed under the same number. */
  ghost predicate OwnNumber(c: Conn, ch: nat)
    requires c.Valid() && ch < MAX_MEDIA_CHANNEL
  {
    forall o :: 0 <= o < MAX_MEDIA_CHANNEL && o != ch && c.channels[o].Active() ==>
      c.channels[o].rtpChannel % 256 != c.channels[ch].rtpChannel % 256
  }

  lemma DeliverOther(c: Conn, ch: nat, e: Push) returns (one: seq<Sent>)
    requires c.Valid() && ch < MAX_MEDIA_CHANNEL && Flowing(c, ch) && OwnNumber(c, ch)
    requires e.ch < MAX_MEDIA_CHANNEL && e.ch != ch && |e.p.payload| <= MAX_RTP_PAYLOAD_SIZE
    ensures var d := Deliver(c, e.ch, e.p);
            && d.sent == c.sent + one && d.channels[ch] == c.channels[ch] && Flowing(d, ch) && OwnNumber(d, ch)
    ensures Wellformed(one) && Fields(one, c.channels[ch].rtpChannel % 256) == []
  {
    var info := c.channels[e.ch];
    one := if info.Active() then [Sent(e.ch, info.rtpChannel, Stamped(info, e.p), e.p.payload)] else [];
  }

  lemma DeliverOwn(c: Conn, d: Conn, ch: nat, p: Packet) returns (one: seq<Sent>)
    requires c.Valid() && d.Valid() && ch < MAX_MEDIA_CHANNEL && |p.payload| <= MAX_RTP_PAYLOAD_SIZE
    requires Flowing(c, ch) && Flowing(d, ch) && c.channels[ch] == d.channels[ch] && OwnNumber(c, ch)
    ensures var c1, d1 := Deliver(c, ch, p), Deliver(d, ch, p);
            && c1.sent == c.sent + one && d1.sent == d.sent + one && c1.channels[ch] == d1.channels[ch]
            && Flowing(c1, ch) && Flowing(d1, ch) && OwnNumber(c1, ch)
            && c1.channels[ch].rtpChannel == c.channels[ch].rtpChannel
    ensures Wellformed(one)
  {
    var info := c.channels[ch];
    one := [Sent(ch, info.rtpChannel, Stamped(info, p), p.payload)];
  }

  /** On its channel a connection sends what it would send without the packets of the other. */
  lemma {:induction false} OthersDoNotMatter(c: Conn, d: Conn, ch: nat, es: seq<Push>)
      returns (a: seq<Sent>, b: seq<Sent>)
    requires c.Valid() && d.Valid() && ch < MAX_MEDIA_CHANNEL && Pushable(es)
    requires Flowing(c, ch) && Flowing(d, ch) && c.channels[ch] == d.channels[ch] && OwnNumber(c, ch)
    ensures Wellformed(a) && DeliverPushes(c, es).sent == c.sent + a
    ensures DeliverAll(d, ch, On(es, ch)).sent == d.sent + b
    ensures Fields(a, c.channels[ch].rtpChannel % 256) == Fields(b, c.channels[ch].rtpChannel % 256)
    decreases |es|
  {
    if es == [] {
      a, b := [], [];
    } else {
      var chan, e := c.channels[ch].rtpChannel % 256, es[0];
      var c1 := Deliver(c, e.ch, e.p);
      if e.ch == ch {
        var one := DeliverOwn(c, d, ch, e.p);
        var more, rest := OthersDoNotMatter(c1, Deliver(d, ch, e.p), ch, es[1..]);
        a, b := one + more, one + rest;
        assert On(es, ch) == [e.p] + On(es[1..], ch);
        DeliverAllAppend(d, ch, [e.p], On(es[1..], ch));
        DeliverSingle(d, ch, e.p);
        AppendAssociates(d.sent, one, rest);
        FieldsAppend(one, rest, chan);
        JoinWellformed(one, more);
        AppendAssociates(c.sent, one, more);
        FieldsAppend(one, more, chan);
      } else {
        var one := DeliverOther(c, ch, e);
        var more;
        more, b := OthersDoNotMatter(c1, d, ch, es[1..]);
        a := one + more;
        assert [] + On(es[1..], ch) == On(es[1..], ch);
        JoinWellformed(one, more);
        AppendAssociates(c.sent, one, more);
        FieldsAppend(one, more, chan);
      }
    }
  }

  lemma DeliverSingle(d: Conn, ch: nat, p: Packet)
    requires d.Valid() && ch < MAX_MEDIA_CHANNEL
    ensures DeliverAll(d, ch, [p]) == Deliver(d, ch, p)
  {
    assert [p][1..] == [];
  }

  lemma JoinWellformed(a: seq<Sent>, b: seq<Sent>)
    requires Wellformed(a) && Wellformed(b)
    ensures Wellformed(a + b)
  {
  }

  /** The same end to end with packets of the other channel anywhere between, even inside a frame. */
  lemma EndToEndInterleaved(c: Conn, ch: nat, es: seq<Push>, fs: seq<AvFrame>)
    requires c.Valid() && ch < MAX_MEDIA_CHANNEL && Pushable(es) && Flowing(c, ch)
    requires OwnNumber(c, ch)
    requires On(es, ch) == PacketsOfFrames(fs) && forall i :: 0 <= i < |fs| ==> Deliverable(fs[i].data)
    ensures WireOf(c.sent) <= WireOf(DeliverPushes(c, es).sent)
    ensures Receive(WireOf(DeliverPushes(c, es).sent)[|WireOf(c.sent)|..], c.channels[ch].rtpChannel % 256)
            == FromKeyFrame(true, fs)
    ensures Labels(Parsed(Deframe(WireOf(DeliverPushes(c, es).sent)[|WireOf(c.sent)|..]),
                          c.channels[ch].rtpChannel % 256))
            == LabelsOf(fs, c.channels[ch].header.payload, c.channels[ch].header.ssrc)
  {
    var a, b := OthersDoNotMatter(c, c, ch, es);
    DeliverFramesIsAll(c, ch, fs);
    var added := StreamFrames(c, ch, fs, Receiver(None, None));
    assert b == added by {
      assert (c.sent + b)[|c.sent|..] == b && (c.sent + added)[|c.sent|..] == added;
    }
    WireOfAppend(c.sent, a);
    assert WireOf(c.sent + a)[|WireOf(c.sent)|..] == WireOf(a);
    ParseWire(a, c.channels[ch].rtpChannel % 256);
  }
}
