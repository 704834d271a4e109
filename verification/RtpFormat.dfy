/** The formats on the wire, as the sender writes them and as the standards read them: H.264 payloads
    (sections 5.6 and 5.8 of RFC 3984), RTP headers (section 5.1 of RFC 3550) and interleaved frames
    (section 10.12 of RFC 2326). */
module RtpFormat {
  import opened Bytes

  const RTP_VERSION := 2
  const RTP_HEADER_SIZE := 12
  const RTP_TCP_HEAD_SIZE := 4
  const MAX_RTP_PAYLOAD_SIZE := 1420
  const FU_A := 28
  const SEQ_MOD := 0x1_0000
  const DOLLAR: byte := 36

  type uint16 = x: int | 0 <= x < 0x1_0000
  type uint32 = x: int | 0 <= x < 0x1_0000_0000

  // ---- Splitting a frame into payloads ----

  datatype Payload = Payload(data: seq<byte>, last: bool)

  function FuIndicator(nal: byte): byte {
    nal - nal % 32 + FU_A
  }

  function FuHeader(start: bool, end: bool, nal: byte): byte {
    (if start then 128 else 0) + (if end then 64 else 0) + nal % 32
  }

  function Fragments(nal: byte, rest: seq<byte>, start: bool): (ps: seq<Payload>)
    ensures |ps| > 0
    decreases |rest|
  {
    if |rest| + 2 > MAX_RTP_PAYLOAD_SIZE then
      [Payload([FuIndicator(nal), FuHeader(start, false, nal)] + rest[..MAX_RTP_PAYLOAD_SIZE - 2], false)]
      + Fragments(nal, rest[MAX_RTP_PAYLOAD_SIZE - 2..], false)
    else
      [Payload([FuIndicator(nal), FuHeader(start, true, nal)] + rest, true)]
  }

  function Packetize(frame: seq<byte>): seq<Payload> {
    if |frame| <= MAX_RTP_PAYLOAD_SIZE then [Payload(frame, true)]
    else Fragments(frame[0], frame[1..], true)
  }

  // ---- The shape of fragments ----

  predicate StartBit(p: Payload) {
    |p.data| >= 2 && p.data[1] >= 128
  }

  predicate EndBit(p: Payload) {
    |p.data| >= 2 && p.data[1] % 128 >= 64
  }

  /** The frame bytes a fragment carries, after its two FU octets. */
  function Carried(ps: seq<Payload>): seq<byte> {
    if ps == [] then []
    else (if |ps[0].data| >= 2 then ps[0].data[2..] else []) + Carried(ps[1..])
  }

  ghost predicate FuShape(ps: seq<Payload>, nal: byte, start: bool) {
    forall i :: 0 <= i < |ps| ==>
      && 3 <= |ps[i].data| <= MAX_RTP_PAYLOAD_SIZE
      && ps[i].data[0] == FuIndicator(nal) && ps[i].data[1] % 32 == nal % 32
      && (StartBit(ps[i]) <==> start && i == 0)
      && (EndBit(ps[i]) <==> i == |ps| - 1)
      && (ps[i].last <==> i == |ps| - 1)
  }

  lemma {:induction false} FragmentsShape(nal: byte, rest: seq<byte>, start: bool)
    requires |rest| > 0
    ensures FuShape(Fragments(nal, rest, start), nal, start)
    ensures Carried(Fragments(nal, rest, start)) == rest
    decreases |rest|
  {
    var ps := Fragments(nal, rest, start);
    if |rest| + 2 > MAX_RTP_PAYLOAD_SIZE {
      var n := MAX_RTP_PAYLOAD_SIZE - 2;
      var tail := Fragments(nal, rest[n..], false);
      FragmentsShape(nal, rest[n..], false);
      assert ps[1..] == tail;
      assert ps[0].data[2..] == rest[..n];
      assert rest == rest[..n] + rest[n..];
      forall i | 0 <= i < |ps|
        ensures 3 <= |ps[i].data| <= MAX_RTP_PAYLOAD_SIZE
                && ps[i].data[0] == FuIndicator(nal) && ps[i].data[1] % 32 == nal % 32
                && (StartBit(ps[i]) <==> start && i == 0)
                && (EndBit(ps[i]) <==> i == |ps| - 1)
                && (ps[i].last <==> i == |ps| - 1)
      {
        if i > 0 {
          assert ps[i] == tail[i - 1];
        }
      }
    } else {
      assert ps[0].data[2..] == rest;
      assert ps[1..] == [];
    }
  }

  /** Every frame over the limit becomes at least two fragments, with the start bit on exactly the
      first and the end bit on exactly the last, none empty, together carrying the frame without its
      first byte; each fits, with its 16 bytes of headers, in 1436 bytes. */
  lemma FragmentedFrame(frame: seq<byte>)
    requires |frame| > MAX_RTP_PAYLOAD_SIZE
    ensures var ps := Packetize(frame);
            && |ps| >= 2 && FuShape(ps, frame[0], true) && Carried(ps) == frame[1..]
            && (forall i :: 0 <= i < |ps| ==> !(StartBit(ps[i]) && EndBit(ps[i])))
            && (forall i :: 0 <= i < |ps| ==> RTP_TCP_HEAD_SIZE + RTP_HEADER_SIZE + |ps[i].data| <= 1436)
  {
    FragmentsShape(frame[0], frame[1..], true);
  }

  /** The two octets in front of every fragment, in figures, and when there are fragments at all. */
  lemma FuOctets(frame: seq<byte>)
    ensures var ps := Packetize(frame);
            if |frame| <= 1420 then ps == [Payload(frame, true)]
            else forall i :: 0 <= i < |ps| ==>
                   && 3 <= |ps[i].data| <= 1420 && ps[i].data[0] == frame[0] - frame[0] % 32 + 28
                   && ps[i].data[1] == (if i == 0 then 128 else 0) + (if i == |ps| - 1 then 64 else 0) + frame[0] % 32
  {
    if |frame| > 1420 {
      FragmentedFrame(frame);
      var ps := Packetize(frame);
      forall i | 0 <= i < |ps|
        ensures ps[i].data[1] == (if i == 0 then 128 else 0) + (if i == |ps| - 1 then 64 else 0) + frame[0] % 32
      {
        assert StartBit(ps[i]) <==> i == 0;
        assert EndBit(ps[i]) <==> i == |ps| - 1;
        FuHeaderIs(frame[0], frame[1..], true, i);
      }
    }
  }

  lemma {:induction false} FuHeaderIs(nal: byte, rest: seq<byte>, start: bool, i: nat)
    requires i < |Fragments(nal, rest, start)|
    ensures var ps := Fragments(nal, rest, start);
            && |ps[i].data| >= 2
            && ps[i].data[1] == (if start && i == 0 then 128 else 0) + (if i == |ps| - 1 then 64 else 0) + nal % 32
    decreases |rest|
  {
    if i > 0 {
      FuHeaderIs(nal, rest[MAX_RTP_PAYLOAD_SIZE - 2..], false, i - 1);
    }
  }

  // ---- RTP headers ----

  /** Host-order view of the header structure, whose bit fields start at the low bits. */
  datatype RtpHeader = RtpHeader(cc: nat, extension: nat, padding: nat, version: nat, payload: nat, marker: nat,
                                 seqNo: uint16, ts: uint32, ssrc: uint32)
  {
    predicate Valid() {
      && cc == 0 && extension == 0 && padding == 0 && version == RTP_VERSION
      && payload < 128 && marker < 2
    }
  }

  function Big16(x: uint16): (s: seq<byte>)
    ensures |s| == 2
  {
    [x / 256, x % 256]
  }

  function Big32(x: uint32): (s: seq<byte>)
    ensures |s| == 4
  {
    Big16(x / SEQ_MOD) + Big16(x % SEQ_MOD)
  }

  function Layout(h: RtpHeader): (s: seq<byte>)
    requires h.Valid()
    ensures |s| == RTP_HEADER_SIZE
  {
    [h.cc + 16 * h.extension + 32 * h.padding + 64 * h.version, h.payload + 128 * h.marker]
    + Big16(h.seqNo) + Big32(h.ts) + Big32(h.ssrc)
  }

  /** The twelve octets of section 5.1 of RFC 3550, in figures. */
  lemma HeaderOctets(h: RtpHeader)
    requires h.Valid()
    ensures Layout(h) == [128, h.payload + 128 * h.marker, h.seqNo / 256, h.seqNo % 256,
                          h.ts / 0x100_0000, h.ts / 0x1_0000 % 256, h.ts / 256 % 256, h.ts % 256,
                          h.ssrc / 0x100_0000, h.ssrc / 0x1_0000 % 256, h.ssrc / 256 % 256, h.ssrc % 256]
  {
    Octets(h.ts);
    Octets(h.ssrc);
  }

  lemma Octets(x: uint32)
    ensures Big32(x) == [x / 0x100_0000, x / 0x1_0000 % 256, x / 256 % 256, x % 256]
  {
  }

  function Read16(s: seq<byte>, i: nat): uint16
    requires i + 2 <= |s|
  {
    var hi: int := s[i];
    hi * 256 + s[i + 1]
  }

  function Read32(s: seq<byte>, i: nat): uint32
    requires i + 4 <= |s|
  {
    var hi: int := Read16(s, i);
    hi * SEQ_MOD + Read16(s, i + 2)
  }

  datatype RtpFields = RtpFields(marker: bool, payloadType: nat, seqNo: uint16, ts: uint32, ssrc: uint32,
                                 payload: seq<byte>)

  /** A receiver's reading of a packet: contributing sources, header extension and padding are skipped. */
  function ParseRtp(p: seq<byte>): Option<RtpFields> {
    if |p| < RTP_HEADER_SIZE || p[0] / 64 != RTP_VERSION then None
    else
      var csrcEnd := RTP_HEADER_SIZE + 4 * (p[0] % 16);
      var extended := p[0] / 16 % 2 == 1;
      if |p| < csrcEnd + (if extended then 4 else 0) then None
      else
        var start := csrcEnd + (if extended then 4 + 4 * Read16(p, csrcEnd + 2) else 0);
        var pad := if p[0] / 32 % 2 == 1 then p[|p| - 1] else 0;
        if |p| < start + pad then None
        else Some(RtpFields(p[1] >= 128, p[1] % 128, Read16(p, 2), Read32(p, 4), Read32(p, 8), p[start..|p| - pad]))
  }

  lemma Read32Big32(x: uint32, s: seq<byte>, i: nat)
    requires i + 4 <= |s| && s[i..i + 4] == Big32(x)
    ensures Read32(s, i) == x
  {
    assert s[i] == Big32(x)[0] && s[i + 1] == Big32(x)[1] && s[i + 2] == Big32(x)[2] && s[i + 3] == Big32(x)[3];
  }

  lemma ParseLayout(h: RtpHeader, payload: seq<byte>)
    requires h.Valid()
    ensures ParseRtp(Layout(h) + payload)
            == Some(RtpFields(h.marker == 1, h.payload, h.seqNo, h.ts, h.ssrc, payload))
  {
    var p := Layout(h) + payload;
    assert p[4..8] == Big32(h.ts);
    assert p[8..12] == Big32(h.ssrc);
    Read32Big32(h.ts, p, 4);
    Read32Big32(h.ssrc, p, 8);
    assert p[12..|p|] == payload;
  }

  // ---- Interleaved framing ----

  datatype Framed = Framed(channel: byte, data: seq<byte>)

  /** What sendRtpOverTcp writes: the channel number and the length are cast to 8 and 16 bits. */
  function Frame(rtpChannel: uint16, data: seq<byte>): seq<byte> {
    [DOLLAR, rtpChannel % 256, |data| / 256 % 256, |data| % 256] + data
  }

  /** The four octets of section 10.12 of RFC 2326, in figures. */
  lemma FrameOctets(rtpChannel: uint16, data: seq<byte>)
    requires |data| < 0x1_0000
    ensures Frame(rtpChannel, data) == [36, rtpChannel % 256, |data| / 256, |data| % 256] + data
  {
  }

  function Deframe(w: seq<byte>): seq<Framed>
    decreases |w|
  {
    if |w| < 4 || w[0] != DOLLAR || |w| < 4 + Read16(w, 2) then []
    else [Framed(w[1], w[4..4 + Read16(w, 2)])] + Deframe(w[4 + Read16(w, 2)..])
  }

  lemma DeframeFrame(rtpChannel: uint16, data: seq<byte>, rest: seq<byte>)
    requires |data| < SEQ_MOD
    ensures Deframe(Frame(rtpChannel, data) + rest) == [Framed(rtpChannel % 256, data)] + Deframe(rest)
  {
    var w := Frame(rtpChannel, data) + rest;
    assert Read16(w, 2) == |data|;
    assert w[4..4 + |data|] == data;
    assert w[4 + |data|..] == rest;
  }

  // ---- Reassembly ----

  /** The receiver keeps the last sequence number and the NAL unit under reassembly. */
  datatype Receiver = Receiver(prev: Option<uint16>, partial: Option<seq<byte>>)

  function Next(s: uint16): (n: uint16)
    ensures n == if s == 65535 then 0 else s + 1
  {
    (s + 1) % SEQ_MOD
  }

  /** One packet: a single NAL unit, or a fragment that starts, continues or ends one. A gap in the
      sequence numbers loses the unit under reassembly. */
  function Accept(r: Receiver, p: RtpFields): (Receiver, seq<seq<byte>>) {
    var kept := if r.prev.Some? && Next(r.prev.value) == p.seqNo then r.partial else None;
    var d := p.payload;
    if |d| == 0 then (Receiver(Some(p.seqNo), kept), [])
    else if d[0] % 32 != FU_A then (Receiver(Some(p.seqNo), None), [d])
    else if |d| < 2 then (Receiver(Some(p.seqNo), None), [])
    else
      var unit := if d[1] >= 128 then Some([d[0] - d[0] % 32 + d[1] % 32] + d[2..])
                  else if kept.Some? then Some(kept.value + d[2..])
                  else None;
      if d[1] % 128 >= 64 then (Receiver(Some(p.seqNo), None), if unit.Some? then [unit.value] else [])
      else (Receiver(Some(p.seqNo), unit), [])
  }

  function AcceptAll(r: Receiver, ps: seq<RtpFields>): (Receiver, seq<seq<byte>>)
    decreases |ps|
  {
    if ps == [] then (r, [])
    else
      var (r1, out) := Accept(r, ps[0]);
      var (r2, more) := AcceptAll(r1, ps[1..]);
      (r2, out + more)
  }

  function Parsed(fs: seq<Framed>, channel: byte): seq<RtpFields> {
    if fs == [] then []
    else
      (if fs[0].channel == channel && ParseRtp(fs[0].data).Some? then [ParseRtp(fs[0].data).value] else [])
      + Parsed(fs[1..], channel)
  }

  /** The frames a receiver gets out of a byte stream on one interleaved channel. */
  function Receive(wire: seq<byte>, channel: byte): seq<seq<byte>> {
    AcceptAll(Receiver(None, None), Parsed(Deframe(wire), channel)).1
  }

  lemma {:induction false} AcceptAllAppend(r: Receiver, a: seq<RtpFields>, b: seq<RtpFields>)
    ensures AcceptAll(r, a + b)
            == (AcceptAll(AcceptAll(r, a).0, b).0, AcceptAll(r, a).1 + AcceptAll(AcceptAll(r, a).0, b).1)
    decreases |a|
  {
    if a == [] {
      assert a + b == b;
      assert [] + AcceptAll(r, b).1 == AcceptAll(r, b).1;
    } else {
      assert (a + b)[1..] == a[1..] + b;
      var (r1, out) := Accept(r, a[0]);
      AcceptAllAppend(r1, a[1..], b);
      var (r2, more) := AcceptAll(r1, a[1..]);
      assert out + (more + AcceptAll(r2, b).1) == (out + more) + AcceptAll(r2, b).1;
    }
  }

  // ---- What one frame looks like to the receiver ----

  function SeqAdd(s: uint16, n: nat): uint16 {
    (s + n) % SEQ_MOD
  }

  /** The parsed packets of payloads sent under consecutive sequence numbers. */
  function Numbered(h: RtpHeader, s: uint16, ps: seq<Payload>): (fs: seq<RtpFields>)
    ensures |fs| == |ps|
    decreases |ps|
  {
    if ps == [] then []
    else [RtpFields(ps[0].last, h.payload, s, h.ts, h.ssrc, ps[0].data)] + Numbered(h, Next(s), ps[1..])
  }

  /** A packet that completes nothing leaves the output to the packets after it. */
  lemma AcceptSilent(r: Receiver, fs: seq<RtpFields>)
    requires fs != [] && Accept(r, fs[0]).1 == []
    ensures AcceptAll(r, fs) == AcceptAll(Accept(r, fs[0]).0, fs[1..])
  {
    var more := AcceptAll(Accept(r, fs[0]).0, fs[1..]).1;
    assert [] + more == more;
  }

  lemma AcceptOne(r: Receiver, fs: seq<RtpFields>)
    requires |fs| == 1
    ensures AcceptAll(r, fs) == Accept(r, fs[0])
  {
    var out := Accept(r, fs[0]).1;
    assert fs[1..] == [];
    assert out + [] == out;
  }

  lemma SeqAddNext(s: uint16, n: nat)
    requires n > 0
    ensures SeqAdd(Next(s), n - 1) == SeqAdd(s, n)
  {
  }

  /** Fragments completing a unit whose beginning is already held. */
  lemma {:induction false} AcceptRest(r: Receiver, h: RtpHeader, s: uint16, nal: byte, rest: seq<byte>, held: seq<byte>)
    requires r.prev.Some? && Next(r.prev.value) == s && r.partial == Some(held)
    ensures AcceptAll(r, Numbered(h, s, Fragments(nal, rest, false)))
            == (Receiver(Some(SeqAdd(s, |Fragments(nal, rest, false)| - 1)), None), [held + rest])
    decreases |rest|
  {
    var ps := Fragments(nal, rest, false);
    var fs := Numbered(h, s, ps);
    if |rest| + 2 > MAX_RTP_PAYLOAD_SIZE {
      var n := MAX_RTP_PAYLOAD_SIZE - 2;
      assert ps[1..] == Fragments(nal, rest[n..], false);
      assert fs[0].payload[2..] == rest[..n];
      var r1 := Accept(r, fs[0]).0;
      AcceptSilent(r, fs);
      AcceptRest(r1, h, Next(s), nal, rest[n..], held + rest[..n]);
      assert held + rest == held + rest[..n] + rest[n..];
      SeqAddNext(s, |ps| - 1);
    } else {
      assert fs[0].payload[2..] == rest;
      AcceptOne(r, fs);
    }
  }

  /** A whole frame comes out of its packets, whatever the receiver held before. */
  lemma AcceptFrame(r: Receiver, h: RtpHeader, s: uint16, frame: seq<byte>)
    requires Deliverable(frame)
    ensures AcceptAll(r, Numbered(h, s, Packetize(frame)))
            == (Receiver(Some(SeqAdd(s, |Packetize(frame)| - 1)), None), [frame])
  {
    var ps := Packetize(frame);
    var fs := Numbered(h, s, ps);
    if |frame| <= MAX_RTP_PAYLOAD_SIZE {
      AcceptOne(r, fs);
    } else {
      var n := MAX_RTP_PAYLOAD_SIZE - 2;
      var rest := frame[1..];
      assert ps[1..] == Fragments(frame[0], rest[n..], false);
      assert fs[0].payload[2..] == rest[..n];
      AcceptSilent(r, fs);
      AcceptRest(Accept(r, fs[0]).0, h, Next(s), frame[0], rest[n..], [frame[0]] + rest[..n]);
      SeqAddNext(s, |ps| - 1);
      assert frame == [frame[0]] + rest[..n] + rest[n..];
    }
  }

  /** Frames the packetization can carry: not empty, and not short with the type number that marks a
      fragment (a long frame of that type is fragmented like any other). */
  predicate Deliverable(frame: seq<byte>) {
    |frame| > 0 && !(|frame| <= MAX_RTP_PAYLOAD_SIZE && frame[0] % 32 == FU_A)
  }

  /** Being deliverable is necessary too: any other frame is lost or comes out shortened. */
  lemma OnlyDeliverable(r: Receiver, h: RtpHeader, s: uint16, frame: seq<byte>)
    requires r.partial == None
    ensures AcceptAll(r, Numbered(h, s, Packetize(frame))).1 == [frame] <==> Deliverable(frame)
  {
    if Deliverable(frame) {
      AcceptFrame(r, h, s, frame);
    } else {
      var fs := Numbered(h, s, Packetize(frame));
      AcceptOne(r, fs);
      if |frame| >= 2 {
        assert |[frame[0] - frame[0] % 32 + frame[1] % 32] + frame[2..]| == |frame| - 1;
      }
    }
  }
}
