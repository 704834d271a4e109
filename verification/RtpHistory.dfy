/** What the calls on a connection, from its creation on, make of the packets queued for it. */
module RtpHistory {
  import opened Bytes
  import opened RtpFormat
  import opened RtpStream

  /** A connection as it is made: nothing was set up, nothing sent. */
  predicate New(c: Conn) {
    && c.Valid() && c.alive && !c.isClosed && !c.hasIDRFrame && c.sent == []
    && forall i :: 0 <= i < |c.channels| ==> !c.channels[i].isSetup && !c.channels[i].isPlay && !c.channels[i].isRecord
  }

  // ---- What has happened, said of the events alone ----

  /** A channel is set up while the TCP connection lasts. */
  ghost predicate SetUpAt(es: seq<Event>, ch: nat, k: int) {
    0 <= k < |es| && es[k].Setup? && es[k].ch == ch && Disconnect !in es[..k]
  }

  ghost predicate SetUp(es: seq<Event>, ch: nat) {
    exists k :: SetUpAt(es, ch, k)
  }

  /** A play or record finds the channel set up, and no first teardown follows. */
  ghost predicate StartedAt(es: seq<Event>, ch: nat, k: int) {
    && 0 <= k < |es| && (es[k].Play? || es[k].Record?) && SetUp(es[..k], ch)
    && (Teardown in es ==> Teardown in es[..k])
  }

  ghost predicate Started(es: seq<Event>, ch: nat) {
    exists k :: StartedAt(es, ch, k)
  }

  /** A packet of a key frame, or of unknown kind, has come to be delivered. */
  ghost predicate KeySeen(es: seq<Event>) {
    exists e :: e in es && e.Queued? && (e.p.kind == 0 || e.p.kind == 1)
  }

  /** The last set-up of a channel gave it this number. */
  ghost predicate NumberIs(es: seq<Event>, ch: nat, n: uint16) {
    exists k :: SetUpAt(es, ch, k) && es[k].rtpChannel == n && forall j :: SetUpAt(es, ch, j) ==> j <= k
  }

  lemma InitAllowed(es: seq<Event>)
    requires AllAllowed(es) && es != []
    ensures AllAllowed(es[..|es| - 1]) && Allowed(es[|es| - 1])
  {
  }

  lemma {:induction false} ClosedExactly(c: Conn, es: seq<Event>)
    requires New(c) && AllAllowed(es)
    ensures After(c, es).isClosed <==> Teardown in es
    ensures After(c, es).alive <==> Disconnect !in es
    ensures After(c, es).hasIDRFrame <==> KeySeen(es)
  {
    if es != [] {
      var n := |es| - 1;
      ClosedExactly(c, es[..n]);
      assert es == es[..n] + [es[n]];
      OneStep(After(c, es[..n]), es[n]);
    }
  }

  /** What one event makes of a connection, but for what it sends. */
  lemma OneStep(d: Conn, e: Event)
    requires d.Valid() && Allowed(e)
    ensures var t := Step(d, e);
            && (t.isClosed <==> d.isClosed || e.Teardown?) && (t.alive <==> d.alive && !e.Disconnect?)
            && (t.hasIDRFrame <==> d.hasIDRFrame || (e.Queued? && (e.p.kind == 0 || e.p.kind == 1)))
  {
  }

  lemma OneStepOn(d: Conn, e: Event, ch: nat)
    requires d.Valid() && Allowed(e) && ch < MAX_MEDIA_CHANNEL
    ensures var i, j := d.channels[ch], Step(d, e).channels[ch];
            && (j.isSetup <==> i.isSetup || (e.Setup? && e.ch == ch && d.alive))
            && j.rtpChannel == (if e.Setup? && e.ch == ch && d.alive then e.rtpChannel else i.rtpChannel)
            && (j.Active() <==> if e.Play? || e.Record? then i.Active() || i.isSetup
                                else i.Active() && (e.Teardown? ==> d.isClosed))
  {
  }

  lemma SetUpNext(es: seq<Event>, ch: nat)
    requires es != []
    ensures var n := |es| - 1;
            SetUp(es, ch) <==> SetUp(es[..n], ch) || (es[n].Setup? && es[n].ch == ch && Disconnect !in es[..n])
  {
    var n := |es| - 1;
    forall k ensures SetUpAt(es, ch, k) <==> if k == n then es[n].Setup? && es[n].ch == ch && Disconnect !in es[..n]
                                             else SetUpAt(es[..n], ch, k) {
      if 0 <= k < n {
        assert es[..n][..k] == es[..k];
      }
    }
    assert SetUpAt(es, ch, n) <==> es[n].Setup? && es[n].ch == ch && Disconnect !in es[..n];
    if SetUp(es[..n], ch) {
      var k :| SetUpAt(es[..n], ch, k);
      assert SetUpAt(es, ch, k);
    }
  }

  lemma {:induction false} SetUpExactly(c: Conn, es: seq<Event>, ch: nat)
    requires New(c) && AllAllowed(es) && ch < MAX_MEDIA_CHANNEL
    ensures After(c, es).channels[ch].isSetup <==> SetUp(es, ch)
  {
    if es != [] {
      var n := |es| - 1;
      SetUpExactly(c, es[..n], ch);
      SetUpNext(es, ch);
      ClosedExactly(c, es[..n]);
      OneStepOn(After(c, es[..n]), es[n], ch);
    }
  }

  /** The number of a channel is the one of its last set-up. */
  lemma {:induction false} NumberExactly(c: Conn, es: seq<Event>, ch: nat)
    requires New(c) && AllAllowed(es) && ch < MAX_MEDIA_CHANNEL && SetUp(es, ch)
    ensures NumberIs(es, ch, After(c, es).channels[ch].rtpChannel)
  {
    if es != [] {
      var n := |es| - 1;
      SetUpNext(es, ch);
      ClosedExactly(c, es[..n]);
      OneStepOn(After(c, es[..n]), es[n], ch);
      if es[n].Setup? && es[n].ch == ch && Disconnect !in es[..n] {
        assert SetUpAt(es, ch, n);
      } else {
        NumberExactly(c, es[..n], ch);
        NumberStays(es, ch, After(c, es[..n]).channels[ch].rtpChannel);
      }
    }
  }

  lemma NumberUnique(es: seq<Event>, ch: nat, n: uint16, m: uint16)
    requires NumberIs(es, ch, n) && NumberIs(es, ch, m)
    ensures n == m
  {
    var j :| SetUpAt(es, ch, j) && es[j].rtpChannel == n && forall i :: SetUpAt(es, ch, i) ==> i <= j;
    var k :| SetUpAt(es, ch, k) && es[k].rtpChannel == m && forall i :: SetUpAt(es, ch, i) ==> i <= k;
    assert j == k;
  }

  lemma NumberStays(es: seq<Event>, ch: nat, number: uint16)
    requires es != [] && NumberIs(es[..|es| - 1], ch, number) && !SetUpAt(es, ch, |es| - 1)
    ensures NumberIs(es, ch, number)
  {
    var init := es[..|es| - 1];
    var k :| SetUpAt(init, ch, k) && init[k].rtpChannel == number && forall j :: SetUpAt(init, ch, j) ==> j <= k;
    assert init[..k] == es[..k];
    assert SetUpAt(es, ch, k);
    forall j | SetUpAt(es, ch, j) ensures j <= k {
      assert init[..j] == es[..j];
      assert SetUpAt(init, ch, j);
    }
  }

  lemma StartedNext(es: seq<Event>, ch: nat)
    requires es != []
    ensures var n := |es| - 1;
            Started(es, ch) <==> (Started(es[..n], ch) && (es[n] == Teardown ==> Teardown in es[..n]))
                                 || ((es[n].Play? || es[n].Record?) && SetUp(es[..n], ch))
  {
    var n := |es| - 1;
    assert es == es[..n] + [es[n]];
    forall k ensures StartedAt(es, ch, k) <==>
                       if k == n then (es[n].Play? || es[n].Record?) && SetUp(es[..n], ch)
                       else StartedAt(es[..n], ch, k) && (es[n] == Teardown ==> Teardown in es[..n]) {
      if 0 <= k < n {
        assert es[..n][..k] == es[..k];
        assert es[..n] == es[..k] + es[k..n];
      }
    }
    if (es[n].Play? || es[n].Record?) && SetUp(es[..n], ch) {
      assert StartedAt(es, ch, n);
    }
    if Started(es[..n], ch) && (es[n] == Teardown ==> Teardown in es[..n]) {
      var k :| StartedAt(es[..n], ch, k);
      assert StartedAt(es, ch, k);
    }
  }

  /** A channel sends exactly if a play or record found it set up and no first teardown followed. */
  lemma {:induction false} ActiveExactly(c: Conn, es: seq<Event>, ch: nat)
    requires New(c) && AllAllowed(es) && ch < MAX_MEDIA_CHANNEL
    ensures After(c, es).channels[ch].Active() <==> Started(es, ch)
  {
    if es != [] {
      var n := |es| - 1;
      ActiveExactly(c, es[..n], ch);
      StartedNext(es, ch);
      ClosedExactly(c, es[..n]);
      SetUpExactly(c, es[..n], ch);
      OneStepOn(After(c, es[..n]), es[n], ch);
    }
  }

  /** A channel has the payload type it was last given, in seven bits. */
  lemma {:induction false} PayloadTypeIs(c: Conn, es: seq<Event>, ch: nat, k: nat)
    requires New(c) && AllAllowed(es) && ch < MAX_MEDIA_CHANNEL && k < |es|
    requires es[k].SetPayloadType? && es[k].ch == ch
    requires forall j :: k < j < |es| && es[j].SetPayloadType? ==> es[j].ch != ch
    ensures After(c, es).channels[ch].header.payload == es[k].payload % 128
  {
    var n := |es| - 1;
    TypeStays(After(c, es[..n]), es[n], ch);
    if k < n {
      PayloadTypeIs(c, es[..n], ch, k);
    }
  }

  lemma TypeStays(d: Conn, e: Event, ch: nat)
    requires d.Valid() && Allowed(e) && ch < MAX_MEDIA_CHANNEL
    ensures Step(d, e).channels[ch].header.payload
            == if e.SetPayloadType? && e.ch == ch then e.payload % 128 else d.channels[ch].header.payload
  {
  }

  // ---- What is sent ----

  /** A packet that comes to be delivered is sent, on the channel it was queued for and under the number of its last
      set-up, if and only if the TCP connection lasts, the channel was started, and a key frame has come, be it this. */
  lemma SentExactly(c: Conn, es: seq<Event>, ch: nat, p: Packet)
    requires New(c) && AllAllowed(es) && ch < MAX_MEDIA_CHANNEL
    ensures AllAllowed(es + [Queued(ch, p)])
    ensures var before, after := After(c, es).sent, After(c, es + [Queued(ch, p)]).sent;
            if Disconnect !in es && Started(es, ch) && (KeySeen(es) || p.kind == 0 || p.kind == 1) then
              && |after| == |before| + 1 && after[..|before|] == before
              && var s := after[|before|];
              && s.channelId == ch && s.payload == p.payload && s.header.ts == p.timestamp
              && NumberIs(es, ch, s.rtpChannel)
            else after == before
  {
    var all := es + [Queued(ch, p)];
    assert all[..|es|] == es;
    ClosedExactly(c, es);
    ActiveExactly(c, es, ch);
    if Started(es, ch) {
      StartedIsSetUp(es, ch);
      NumberExactly(c, es, ch);
    }
  }

  lemma StartedIsSetUp(es: seq<Event>, ch: nat)
    requires Started(es, ch)
    ensures SetUp(es, ch)
  {
    var k :| StartedAt(es, ch, k);
    var i :| SetUpAt(es[..k], ch, i);
    assert es[..k][..i] == es[..i];
    assert SetUpAt(es, ch, i);
  }

  lemma OthersSendNothing(d: Conn, e: Event)
    requires d.Valid() && Allowed(e) && !e.Queued?
    ensures Step(d, e).sent == d.sent
  {
  }

  /** A channel that was never set up puts nothing on the wire. */
  lemma {:induction false} NeverSetUp(c: Conn, es: seq<Event>, ch: nat)
    requires New(c) && AllAllowed(es) && ch < MAX_MEDIA_CHANNEL && !SetUp(es, ch)
    ensures forall i :: 0 <= i < |After(c, es).sent| ==> After(c, es).sent[i].channelId != ch
  {
    if es != [] {
      var n := |es| - 1;
      SetUpNext(es, ch);
      NeverSetUp(c, es[..n], ch);
      assert es == es[..n] + [es[n]];
      if es[n].Queued? {
        SentExactly(c, es[..n], es[n].ch, es[n].p);
        if Started(es[..n], ch) {
          StartedIsSetUp(es[..n], ch);
        }
      } else {
        OthersSendNothing(After(c, es[..n]), es[n]);
      }
    }
  }

  /** The first teardown, and neither play nor record since. */
  ghost predicate TornAt(es: seq<Event>, t: nat) {
    && t < |es| && es[t] == Teardown && Teardown !in es[..t]
    && forall i :: t < i < |es| ==> !es[i].Play? && !es[i].Record?
  }

  lemma TornBefore(es: seq<Event>, t: nat)
    requires TornAt(es, t) && t + 1 < |es|
    ensures TornAt(es[..|es| - 1], t) && es[..|es| - 1][..t] == es[..t]
  {
  }

  /** After the first teardown no queued packet is sent any more, until a play or record follows. */
  lemma {:induction false} SilentAfterTeardown(c: Conn, es: seq<Event>, t: nat)
    requires New(c) && AllAllowed(es) && TornAt(es, t)
    ensures After(c, es).sent == After(c, es[..t]).sent
  {
    var n := |es| - 1;
    if t < n {
      TornBefore(es, t);
      SilentAfterTeardown(c, es[..n], t);
      if es[n].Queued? {
        NotStarted(es[..n], t, es[n].ch);
      }
    }
    SilentStep(c, es);
  }

  lemma SilentStep(c: Conn, es: seq<Event>)
    requires New(c) && AllAllowed(es) && es != []
    requires var n := |es| - 1; es[n].Queued? ==> !Started(es[..n], es[n].ch)
    ensures After(c, es).sent == After(c, es[..|es| - 1]).sent
  {
    var n := |es| - 1;
    if es[n].Queued? {
      SentExactly(c, es[..n], es[n].ch, es[n].p);
      assert es == es[..n] + [Queued(es[n].ch, es[n].p)];
    } else {
      OthersSendNothing(After(c, es[..n]), es[n]);
    }
  }

  lemma NotStarted(es: seq<Event>, t: nat, ch: nat)
    requires TornAt(es, t)
    ensures !Started(es, ch)
  {
    forall k ensures !StartedAt(es, ch, k) {
      if 0 <= k <= t {
        assert es[..k] == es[..t][..k];
      }
    }
  }

  lemma AfterTwo(c: Conn, a: Event, b: Event)
    requires c.Valid() && Allowed(a) && Allowed(b)
    ensures AllAllowed([a, b]) && Step(c, a).Valid() && After(c, [a, b]) == Step(Step(c, a), b)
  {
    StepValid(c, a);
    assert [a, b][..1] == [a] && [a][..0] == [];
    assert After(c, [a]) == Step(After(c, [a][..0]), a);
  }

  /** One set-up and play start one channel. */
  lemma SetUpThenPlay(ch: nat, n: uint16, m: uint16)
    requires ch < MAX_MEDIA_CHANNEL
    ensures var es := [Setup(ch, n, m), Play];
            Started(es, ch) && NumberIs(es, ch, n) && !Started(es, 1 - ch) && Disconnect !in es && !KeySeen(es)
  {
    var es := [Setup(ch, n, m), Play];
    assert es[..1] == [Setup(ch, n, m)];
    assert SetUpAt(es[..1], ch, 0) && SetUpAt(es, ch, 0);
    assert StartedAt(es, ch, 1);
    assert forall j :: SetUpAt(es, ch, j) ==> j <= 0;
  }

  /** A second teardown stops nothing that was started after the first. */
  lemma SecondTeardown(ch: nat, n: uint16, m: uint16)
    requires ch < MAX_MEDIA_CHANNEL
    ensures Started([Teardown, Setup(ch, n, m), Play, Teardown], ch)
  {
    var es := [Teardown, Setup(ch, n, m), Play, Teardown];
    assert es[..2] == [Teardown, Setup(ch, n, m)] && es[..2][..1] == [Teardown];
    assert SetUpAt(es[..2], ch, 1);
    assert Teardown in es[..2];
    assert StartedAt(es, ch, 2);
  }
}
