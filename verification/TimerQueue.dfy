/** The timer queue itself: timers at addresses, two ordered indexes, deletion by hand and a one-shot
    kernel timer. */
module TimerQueue {
  import opened Bytes
  import opened TimerPlan

  type Addr = nat

  datatype Timer = Timer(expiration: int, interval: real, repeat: bool, seqNo: nat)
  datatype Entry = Entry(when: int, addr: Addr)
  datatype TimerId = TimerId(addr: Addr, seqNo: nat)

  /** The kernel timer: armed for a deadline when the clock showed `setAt`, or fired and not yet read. */
  datatype TimerFd = Disarmed | Armed(deadline: int, setAt: int) | Fired

  const MIN_DELAY := 100

  // ---- Ordered sets of entries ----

  predicate Less(e: Entry, f: Entry) {
    e.when < f.when || (e.when == f.when && e.addr < f.addr)
  }

  ghost predicate Sorted(s: seq<Entry>) {
    forall i, j :: 0 <= i < j < |s| ==> Less(s[i], s[j])
  }

  /** How many leading entries come before an entry; in a sorted sequence, all that do. */
  function Rank(s: seq<Entry>, e: Entry): (r: nat)
    ensures r <= |s|
    ensures forall i :: 0 <= i < r ==> Less(s[i], e)
    ensures r < |s| ==> !Less(s[r], e)
  {
    if s == [] || !Less(s[0], e) then 0 else 1 + Rank(s[1..], e)
  }

  /** lower_bound for a time and an address above every timer: how many entries are due. */
  function DueCount(s: seq<Entry>, now: int): (r: nat)
    ensures r <= |s|
    ensures forall i :: 0 <= i < r ==> s[i].when <= now
    ensures r < |s| ==> s[r].when > now
  {
    if s == [] || s[0].when > now then 0 else 1 + DueCount(s[1..], now)
  }

  function Inserted(s: seq<Entry>, e: Entry): seq<Entry> {
    s[..Rank(s, e)] + [e] + s[Rank(s, e)..]
  }

  lemma SortedJoin(a: seq<Entry>, e: Entry, b: seq<Entry>)
    requires Sorted(a) && Sorted(b)
    requires forall i :: 0 <= i < |a| ==> Less(a[i], e)
    requires forall i :: 0 <= i < |b| ==> Less(e, b[i])
    ensures Sorted(a + [e] + b)
  {
  }

  /** Every entry from the rank on is the entry or comes after it. */
  lemma RankSplits(s: seq<Entry>, e: Entry)
    requires Sorted(s)
    ensures forall i :: Rank(s, e) <= i < |s| ==> s[i] == e || Less(e, s[i])
    ensures forall i :: Rank(s, e) < i < |s| ==> Less(e, s[i])
  {
  }

  lemma MembersOf(a: seq<Entry>, e: Entry, b: seq<Entry>)
    ensures forall x :: x in a + [e] + b <==> x == e || x in a + b
  {
  }

  lemma InsertedSorted(s: seq<Entry>, e: Entry)
    requires Sorted(s) && e !in s
    ensures Sorted(Inserted(s, e)) && |Inserted(s, e)| == |s| + 1
    ensures forall x :: x in Inserted(s, e) <==> x == e || x in s
    ensures Inserted(s, e)[0] == if s == [] || Less(e, s[0]) then e else s[0]
  {
    var r := Rank(s, e);
    RankSplits(s, e);
    SortedJoin(s[..r], e, s[r..]);
    assert s == s[..r] + s[r..];
    MembersOf(s[..r], e, s[r..]);
  }

  function Removed(s: seq<Entry>, e: Entry): seq<Entry> {
    var r := Rank(s, e);
    if r < |s| && s[r] == e then s[..r] + s[r + 1..] else s
  }

  lemma RemovedSorted(s: seq<Entry>, e: Entry)
    requires Sorted(s) && e in s
    ensures Sorted(Removed(s, e)) && |Removed(s, e)| == |s| - 1
    ensures forall x :: x in Removed(s, e) <==> x in s && x != e
    ensures Removed(s, e) != [] ==> s[0].when <= Removed(s, e)[0].when
  {
    var r := Rank(s, e);
    RankSplits(s, e);
    var i :| 0 <= i < |s| && s[i] == e;
    assert r == i;
    assert s == s[..r] + [e] + s[r + 1..];
    MembersOf(s[..r], e, s[r + 1..]);
  }

  // ---- The invariant ----

  function Planned(t: Timer): Plan {
    Plan(t.expiration, t.interval)
  }

  /** The heap holds exactly the timers that exist, each where its number was issued. */
  ghost predicate Numbered(heap: map<Addr, Timer>, issued: map<nat, Addr>, items: map<nat, Item>, created: nat) {
    && (forall a :: a in heap ==>
          var t := heap[a];
          && t.seqNo in issued && issued[t.seqNo] == a && t.repeat == (t.interval > 0.0)
          && t.seqNo in items && items[t.seqNo].plan == Planned(t))
    && (forall k :: k in items ==> k in issued && issued[k] in heap && heap[issued[k]].seqNo == k)
    && (forall k :: k in issued <==> 0 < k <= created)
  }

  ghost predicate InQueue(a: Addr, heap: map<Addr, Timer>, items: map<nat, Item>) {
    a in heap && heap[a].seqNo in items && items[heap[a].seqNo].place == Queued
  }

  /** The two indexes hold exactly the queued timers, under their current expirations. */
  ghost predicate Indexed(timers: seq<Entry>, active: set<TimerId>, heap: map<Addr, Timer>, items: map<nat, Item>) {
    && Sorted(timers) && |timers| == |active|
    && (forall e :: e in timers <==> InQueue(e.addr, heap, items) && heap[e.addr].expiration == e.when)
    && (forall id :: id in active <==> InQueue(id.addr, heap, items) && heap[id.addr].seqNo == id.seqNo)
  }

  ghost predicate Linked(timers: seq<Entry>, active: set<TimerId>, heap: map<Addr, Timer>, issued: map<nat, Addr>,
                         items: map<nat, Item>, created: nat)
  {
    Numbered(heap, issued, items, created) && Indexed(timers, active, heap, items)
  }

  ghost predicate Canceled(canceling: set<TimerId>, issued: map<nat, Addr>, numbers: set<nat>) {
    && (forall id :: id in canceling ==> id.seqNo in issued && issued[id.seqNo] == id.addr && id.seqNo in numbers)
    && (forall k :: k in numbers ==> k in issued && TimerId(issued[k], k) in canceling)
  }

  /** The kernel timer goes off no later than the first expiration, but for the shortest delay. */
  predicate Covers(fd: TimerFd, timers: seq<Entry>) {
    timers == [] || fd.Fired? || (fd.Armed? && (fd.deadline <= timers[0].when || fd.deadline <= fd.setAt + MIN_DELAY))
  }

  /** During handleRead only a first expiration for which nothing will be armed at the end must be covered. */
  predicate CoversEarly(fd: TimerFd, timers: seq<Entry>) {
    timers != [] && timers[0].when <= 0 ==> Covers(fd, timers)
  }

  /** The kernel timer set for an expiration when the clock shows `clock`. */
  function ArmedFor(expiration: int, clock: int): TimerFd {
    Armed(if expiration - clock < MIN_DELAY then clock + MIN_DELAY else expiration, clock)
  }

  lemma ArmedCovers(timers: seq<Entry>, clock: int)
    ensures timers != [] ==> Covers(ArmedFor(timers[0].when, clock), timers)
  {
  }

  /** Arming only when the first entry changes is enough. */
  lemma InsertedCovers(fd: TimerFd, timers: seq<Entry>, e: Entry, clock: int)
    requires Sorted(timers) && e !in timers
    ensures var fd1 := if timers == [] || e.when < timers[0].when then ArmedFor(e.when, clock) else fd;
            && (Covers(fd, timers) ==> Covers(fd1, Inserted(timers, e)))
            && (CoversEarly(fd, timers) ==> CoversEarly(fd1, Inserted(timers, e)))
  {
    InsertedSorted(timers, e);
  }

  lemma RemovedCovers(fd: TimerFd, timers: seq<Entry>, e: Entry)
    requires Sorted(timers) && e in timers
    ensures Covers(fd, timers) ==> Covers(fd, Removed(timers, e))
    ensures CoversEarly(fd, timers) ==> CoversEarly(fd, Removed(timers, e))
  {
    RemovedSorted(timers, e);
  }

  lemma RequeuedCovers(fd: TimerFd, timers: seq<Entry>, e: Entry)
    requires Sorted(timers) && e !in timers
    ensures e.when > 0 && CoversEarly(fd, timers) ==> CoversEarly(fd, Inserted(timers, e))
  {
    InsertedSorted(timers, e);
  }

  class Queue {
    var heap: map<Addr, Timer>
    var numCreated: nat
    var timers: seq<Entry>
    var activeTimers: set<TimerId>
    var callingExpiredTimers: bool
    var cancelingTimers: set<TimerId>
    var timerfd: TimerFd
    // the ids that addTimer returned, by sequence number
    var issued: map<nat, Addr>
    ghost var sched: Sched
    // the sequence numbers of the timers run, in order
    ghost var ran: seq<nat>

    ghost predicate Genuine(id: TimerId)
      reads this
    {
      id.seqNo in issued && issued[id.seqNo] == id.addr
    }

    ghost predicate Valid()
      reads this
    {
      && sched.Valid() && numCreated == sched.created && callingExpiredTimers == sched.calling
      && Linked(timers, activeTimers, heap, issued, sched.items, sched.created)
      && Canceled(cancelingTimers, issued, sched.canceling)
    }

    /** Outside handleRead no timer is stranded. During it, only timers due before 1970 are covered. */
    ghost predicate Covered()
      reads this
    {
      Covers(timerfd, timers)
    }

    constructor ()
      ensures Valid() && Covered() && timers == [] && heap == map[] && !callingExpiredTimers && ran == []
      ensures sched == Sched(0, map[], false, 0, {})
    {
      heap, numCreated, timers, activeTimers := map[], 0, [], {};
      callingExpiredTimers, cancelingTimers, timerfd, issued := false, {}, Disarmed, map[];
      ran := [];
      sched := Sched(0, map[], false, 0, {});
    }

    /** timerfd_settime for an expiration, when the clock shows `clock`. */
    method ResetTimerfd(expiration: int, clock: int)
      modifies this`timerfd
      ensures timerfd == ArmedFor(expiration, clock)
      ensures timerfd.Armed? && timerfd.setAt == clock && timerfd.deadline >= expiration
                && timerfd.deadline >= clock + 100
                && (timerfd.deadline == expiration || timerfd.deadline == clock + 100)
    {
      var microseconds := expiration - clock;
      if microseconds < MIN_DELAY {
        microseconds := MIN_DELAY;
      }
      timerfd := Armed(clock + microseconds, clock);
    }

    /** The kernel lets the timer go off. */
    method Expire()
      requires Valid() && timerfd.Armed?
      modifies this`timerfd
      ensures Valid() && Covered() && timerfd == Fired
    {
      timerfd := Fired;
    }

    /** The first half of addTimer: the object, at an address not in use. */
    method NewTimer(when: int, interval: real, addr: Addr) returns (id: TimerId)
      requires Valid() && addr !in heap
      modifies this`heap, this`numCreated, this`issued, this`sched
      ensures Valid() && id == TimerId(addr, numCreated) && Genuine(id)
      ensures heap == old(heap)[addr := Timer(when, interval, interval > 0.0, numCreated)]
      ensures sched == Step(old(sched), Create(Plan(when, interval))) && issued == old(issued)[numCreated := addr]
    {
      numCreated := numCreated + 1;
      var timer := Timer(when, interval, interval > 0.0, numCreated);
      heap := heap[addr := timer];
      issued := issued[numCreated := addr];
      sched := Step(sched, Create(Plan(when, interval)));
      CreateIndexed(timers, activeTimers, old(heap), old(issued), old(sched), addr, timer);
      return TimerId(addr, numCreated);
    }

    /** Puts a timer that is not queued into both indexes. */
    method Insert(addr: Addr) returns (earliestChanged: bool)
      requires Sorted(timers) && addr in heap
      requires forall e :: e in timers ==> e.addr != addr
      requires forall id :: id in activeTimers ==> id.addr != addr
      modifies this`timers, this`activeTimers
      ensures timers == Inserted(old(timers), Entry(heap[addr].expiration, addr))
      ensures activeTimers == old(activeTimers) + {TimerId(addr, heap[addr].seqNo)}
      ensures |activeTimers| == old(|activeTimers|) + 1
      ensures earliestChanged == (old(timers) == [] || heap[addr].expiration < old(timers)[0].when)
    {
      earliestChanged := false;
      var when := heap[addr].expiration;
      if timers == [] || when < timers[0].when {
        earliestChanged := true;
      }
      timers := Inserted(timers, Entry(when, addr));
      activeTimers := activeTimers + {TimerId(addr, heap[addr].seqNo)};
    }

    /** The second half of addTimer, run in the loop: the kernel timer is armed again only when the new
        timer is the first, and that is enough. */
    method AddTimerInLoop(addr: Addr, clock: int)
      requires Valid() && addr in heap && sched.In(heap[addr].seqNo, Waiting)
      modifies this`timers, this`activeTimers, this`timerfd, this`sched
      ensures Valid() && sched == Step(old(sched), Arrive(heap[addr].seqNo))
      ensures old(Covered()) ==> Covered()
      ensures old(CoveredEarly()) ==> CoveredEarly()
      ensures !(old(timers) == [] || heap[addr].expiration < old(timers)[0].when) ==> timerfd == old(timerfd)
      ensures old(timers) == [] || heap[addr].expiration < old(timers)[0].when ==>
                && timerfd.Armed? && timerfd.setAt == clock && timerfd.deadline >= heap[addr].expiration
                && timerfd.deadline >= clock + 100
                && (timerfd.deadline == heap[addr].expiration || timerfd.deadline == clock + 100)
    {
      ghost var e := Entry(heap[addr].expiration, addr);
      assert Sorted(timers) && e !in timers by {
        NotIndexed(timers, activeTimers, heap, sched.items, addr);
      }
      InsertedCovers(timerfd, timers, e, clock);
      var earliestChanged := Enqueue(addr);
      if earliestChanged {
        ResetTimerfd(heap[addr].expiration, clock);
      }
    }

    /** A timer that has arrived is queued. */
    method Enqueue(addr: Addr) returns (earliestChanged: bool)
      requires Valid() && addr in heap && sched.In(heap[addr].seqNo, Waiting)
      modifies this`timers, this`activeTimers, this`sched
      ensures Valid() && sched == Step(old(sched), Arrive(heap[addr].seqNo))
      ensures timers == Inserted(old(timers), Entry(heap[addr].expiration, addr))
      ensures earliestChanged == (old(timers) == [] || heap[addr].expiration < old(timers)[0].when)
    {
      assert (forall e :: e in timers ==> e.addr != addr) && (forall id :: id in activeTimers ==> id.addr != addr) by {
        NotIndexed(timers, activeTimers, heap, sched.items, addr);
      }
      earliestChanged := Insert(addr);
      sched := Step(sched, Arrive(heap[addr].seqNo));
      ArriveIndexed(old(timers), old(activeTimers), heap, issued, old(sched), addr);
    }

    ghost predicate CoveredEarly()
      reads this
    {
      CoversEarly(timerfd, timers)
    }

    method CancelInLoop(id: TimerId)
      requires Valid() && Genuine(id)
      modifies this`heap, this`timers, this`activeTimers, this`cancelingTimers, this`sched
      ensures Valid() && sched == Step(old(sched), Cancel(id.seqNo))
      ensures heap == if old(sched).In(id.seqNo, Queued) then old(heap) - {id.addr} else old(heap)
      ensures old(Covered()) ==> Covered()
      ensures old(CoveredEarly()) ==> CoveredEarly()
    {
      if id in activeTimers {
        Unlink(id);
      } else {
        if callingExpiredTimers {
          cancelingTimers := cancelingTimers + {id};
        }
        NotQueued(timers, activeTimers, heap, issued, sched, id);
        sched := Step(sched, Cancel(id.seqNo));
      }
    }

    /** A queued timer leaves both sets and is deleted. */
    method Unlink(id: TimerId)
      requires Valid() && id in activeTimers
      modifies this`heap, this`timers, this`activeTimers, this`sched
      ensures Valid() && sched == Step(old(sched), Cancel(id.seqNo)) && old(sched).In(id.seqNo, Queued)
      ensures heap == old(heap) - {id.addr}
      ensures (old(Covered()) ==> Covered()) && (old(CoveredEarly()) ==> CoveredEarly())
    {
      var entry := Entry(heap[id.addr].expiration, id.addr);
      assert Sorted(timers) && entry in timers;
      RemovedCovers(timerfd, timers, entry);
      timers := Removed(timers, entry);
      heap := heap - {id.addr};
      activeTimers := activeTimers - {id};
      sched := Step(sched, Cancel(id.seqNo));
      CancelIndexed(old(timers), old(activeTimers), old(heap), issued, old(sched), id);
    }

    /** Moves the due entries out of both indexes. */
    method GetExpired(now: int) returns (expired: seq<Entry>)
      requires Valid()
      modifies this`timers, this`activeTimers
      ensures expired == old(timers)[..DueCount(old(timers), now)]
      ensures timers == old(timers)[DueCount(old(timers), now)..]
      ensures forall id :: id in activeTimers <==> id in old(activeTimers) && heap[id.addr].expiration > now
      ensures |activeTimers| == |timers|
    {
      var end := DueCount(timers, now);
      expired := timers[..end];
      timers := timers[end..];
      var i := 0;
      while i < |expired|
        invariant 0 <= i <= |expired|
        invariant Remaining(activeTimers, old(activeTimers), heap, expired[..i])
        invariant |activeTimers| == |old(activeTimers)| - i && timers == old(timers)[end..]
      {
        var timer := TimerId(expired[i].addr, heap[expired[i].addr].seqNo);
        NextDueRemains(old(timers), old(activeTimers), heap, sched.items, now, activeTimers, i);
        activeTimers := activeTimers - {timer};
        i := i + 1;
      }
      assert expired[..i] == expired;
      RemainingLater(old(timers), old(activeTimers), heap, sched.items, now, activeTimers);
    }

    /** A callback, as the actions it takes. New timers get addresses that are not in use. */
    method RunCallback(acts: seq<Action>)
      requires Valid() && callingExpiredTimers
      modifies this`heap, this`numCreated, this`issued, this`timers, this`activeTimers, this`cancelingTimers,
               this`timerfd, this`sched
      ensures Valid() && sched == ActAll(old(sched), acts) && callingExpiredTimers
      ensures acts == [] ==> timerfd == old(timerfd)
      ensures SameBatch(old(heap), old(sched), heap, sched)
      ensures old(CoveredEarly()) ==> CoveredEarly()
    {
      var i := 0;
      ghost var heap0, s0, early := heap, sched, CoveredEarly();
      while i < |acts|
        invariant 0 <= i <= |acts| && Valid() && callingExpiredTimers
        invariant sched == ActAll(s0, acts[..i]) && (i == 0 ==> timerfd == old(timerfd))
        invariant SameBatch(heap0, s0, heap, sched)
        invariant early ==> CoveredEarly()
      {
        ActAllSnoc(s0, acts[..i], acts[i]);
        TakeNext(acts, i);
        RunAction(acts[i]);
        i := i + 1;
      }
      assert acts[..i] == acts;
    }

    method RunAction(act: Action)
      requires Valid() && callingExpiredTimers
      modifies this`heap, this`numCreated, this`issued, this`timers, this`activeTimers, this`cancelingTimers,
               this`timerfd, this`sched
      ensures Valid() && sched == Act(old(sched), act) && callingExpiredTimers
      ensures SameBatch(old(heap), old(sched), heap, sched)
      ensures old(CoveredEarly()) ==> CoveredEarly()
    {
      match act
      case Add(plan, clock) => AddTimer(plan, clock);
      case CancelTimer(k) =>
        if k in issued {
          CancelInLoop(TimerId(issued[k], k));
        }
    }

    /** addTimer from a callback: both halves at once. */
    method AddTimer(plan: Plan, clock: int)
      requires Valid()
      modifies this`heap, this`numCreated, this`issued, this`timers, this`activeTimers, this`timerfd, this`sched
      ensures Valid() && sched == Act(old(sched), Add(plan, clock))
      ensures sched.items == old(sched).items[old(sched).created + 1 := Item(Queued, plan)]
      ensures SameBatch(old(heap), old(sched), heap, sched)
      ensures old(CoveredEarly()) ==> CoveredEarly()
    {
      FreshAddress(heap.Keys);
      var addr: Addr :| addr !in heap;
      var id := NewTimer(plan.when, plan.interval, addr);
      AddTimerInLoop(addr, clock);
      AddedToNoBatch(old(heap), old(sched), addr, heap[addr], Add(plan, clock));
    }

    /** Requeues a timer of the batch if it repeats and was not cancelled, else deletes it. */
    method Settle(addr: Addr, now: int)
      requires Linked(timers, activeTimers, heap, issued, sched.items, sched.created)
      requires Canceled(cancelingTimers, issued, sched.canceling) && sched.now == now
      requires addr in heap && sched.In(heap[addr].seqNo, Running)
      modifies this`heap, this`timers, this`activeTimers, this`sched
      ensures sched == EndOne(old(sched), old(heap)[addr].seqNo)
      ensures Linked(timers, activeTimers, heap, issued, sched.items, sched.created)
      ensures var k, p := old(heap)[addr].seqNo, old(sched).items[old(heap)[addr].seqNo].plan;
              && (k in sched.items <==> p.interval > 0.0 && k !in old(sched).canceling)
              && (k in sched.items ==>
                    && sched.items[k].place == Queued && sched.items[k].plan.interval == p.interval
                    && sched.items[k].plan.when as real <= now as real + p.interval * 1000000.0
                                                         < sched.items[k].plan.when as real + 1.0)
      ensures heap == old(heap) - {addr} || exists t :: heap == old(heap)[addr := t] && t.seqNo == old(heap)[addr].seqNo
      ensures now > 0 && old(CoveredEarly()) ==> CoveredEarly()
    {
      var t := heap[addr];
      GoesAgainExactly(heap, issued, sched, cancelingTimers, addr);
      if t.repeat && TimerId(addr, t.seqNo) !in cancelingTimers {
        Requeue(addr, now);
      } else {
        heap := heap - {addr};
        Deleted(timers, activeTimers, old(heap), issued, sched, addr);
      }
      RestartTime(sched.items[t.seqNo].plan, now);
      sched := EndOne(sched, t.seqNo);
    }

    /** restart, then insert. */
    method Requeue(addr: Addr, now: int)
      requires Linked(timers, activeTimers, heap, issued, sched.items, sched.created) && sched.now == now
      requires addr in heap && GoesAgain(sched, heap[addr].seqNo)
      modifies this`heap, this`timers, this`activeTimers
      ensures exists t :: heap == old(heap)[addr := t] && t.seqNo == old(heap)[addr].seqNo
      ensures Linked(timers, activeTimers, heap, issued, EndOne(sched, old(heap)[addr].seqNo).items, sched.created)
      ensures now > 0 && old(CoveredEarly()) ==> CoveredEarly()
    {
      var t := heap[addr].(expiration := now + (heap[addr].interval * 1000000.0).Floor);
      ghost var e := Entry(t.expiration, addr);
      assert Sorted(timers) && (forall f :: f in timers ==> f.addr != addr)
             && (forall id :: id in activeTimers ==> id.addr != addr) by {
        NotIndexed(timers, activeTimers, heap, sched.items, addr);
      }
      heap := heap[addr := t];
      var earliestChanged := Insert(addr);
      RequeuedCovers(timerfd, old(timers), e);
      assert now > 0 ==> e.when > 0;
      PutBack(old(timers), old(activeTimers), old(heap), issued, sched, addr, t);
    }

    /** Requeues the timers of the batch that repeat and were not cancelled, deletes the others, and arms
        the kernel timer for the first. */
    method Reset(expired: seq<Entry>, now: int, clock: int)
      requires sched.Valid() && sched.calling && sched.now == now && !callingExpiredTimers
      requires numCreated == sched.created && Linked(timers, activeTimers, heap, issued, sched.items, sched.created)
      requires Canceled(cancelingTimers, issued, sched.canceling)
      requires Batch(expired, heap, sched)
      requires now > 0 ==> CoveredEarly()
      modifies this`heap, this`timers, this`activeTimers, this`timerfd, this`sched
      ensures Valid() && sched == Step(old(sched), End)
      ensures now > 0 || timers == [] || timers[0].when > 0 ==> Covered()
      ensures timers == [] || timers[0].when <= 0 ==> timerfd == old(timerfd)
      ensures timers != [] && timers[0].when > 0 ==> timerfd == ArmedFor(timers[0].when, clock)
    {
      EndBatch(expired, now);
      ArmForFirst(clock);
    }

    /** All but the arming. */
    method EndBatch(expired: seq<Entry>, now: int)
      requires sched.Valid() && sched.calling && sched.now == now && !callingExpiredTimers
      requires numCreated == sched.created && Linked(timers, activeTimers, heap, issued, sched.items, sched.created)
      requires Canceled(cancelingTimers, issued, sched.canceling)
      requires Batch(expired, heap, sched)
      requires now > 0 ==> CoveredEarly()
      modifies this`heap, this`timers, this`activeTimers, this`sched
      ensures Valid() && sched == Step(old(sched), End)
      ensures now > 0 ==> CoveredEarly()
    {
      SettleAll(expired, now);
      sched := sched.(calling := false);
    }

    /** The kernel timer is armed for the first expiration, if that is a valid one. */
    method ArmForFirst(clock: int)
      requires Indexed(timers, activeTimers, heap, sched.items)
      modifies this`timerfd
      ensures if timers != [] && timers[0].when > 0 then Covered() else timerfd == old(timerfd)
      ensures timers != [] && timers[0].when > 0 ==> timerfd == ArmedFor(timers[0].when, clock)
    {
      FirstEntry(timers, activeTimers, heap, sched.items);
      if timers != [] {
        var nextExpire := heap[timers[0].addr].expiration;
        if nextExpire > 0 {
          ResetTimerfd(nextExpire, clock);
          ArmedCovers(timers, clock);
        }
      }
    }

    method SettleAll(expired: seq<Entry>, now: int)
      requires sched.Valid() && sched.calling && sched.now == now
      requires Linked(timers, activeTimers, heap, issued, sched.items, sched.created)
      requires Canceled(cancelingTimers, issued, sched.canceling)
      requires Batch(expired, heap, sched)
      requires now > 0 ==> CoveredEarly()
      modifies this`heap, this`timers, this`activeTimers, this`sched
      ensures sched.(calling := false) == Step(old(sched), End) && Step(old(sched), End).Valid()
      ensures Linked(timers, activeTimers, heap, issued, sched.items, sched.created)
      ensures now > 0 ==> CoveredEarly()
    {
      ghost var s0, done := sched, {};
      EndPartNone(sched);
      var i := 0;
      assert expired[0..] == expired;
      while i < |expired|
        invariant 0 <= i <= |expired| && sched == EndPart(s0, done)
        invariant Linked(timers, activeTimers, heap, issued, sched.items, sched.created)
        invariant Batch(expired[i..], heap, sched)
        invariant forall k :: k in done ==> s0.In(k, Running) && !sched.In(k, Running)
        invariant now > 0 ==> CoveredEarly()
      {
        ghost var k := heap[expired[i].addr].seqNo;
        assert expired[i..][0] == expired[i] && expired[i..][1..] == expired[i + 1..];
        EndPartOne(s0, done, k);
        SettleFirst(expired[i..], now);
        done := done + {k};
        i := i + 1;
      }
      EndPartAll(s0, done);
      StepValid(s0, End);
    }

    method SettleFirst(expired: seq<Entry>, now: int)
      requires sched.now == now && expired != [] && Batch(expired, heap, sched)
      requires Linked(timers, activeTimers, heap, issued, sched.items, sched.created)
      requires Canceled(cancelingTimers, issued, sched.canceling)
      modifies this`heap, this`timers, this`activeTimers, this`sched
      ensures sched == EndOne(old(sched), old(heap)[expired[0].addr].seqNo)
      ensures Linked(timers, activeTimers, heap, issued, sched.items, sched.created)
      ensures Batch(expired[1..], heap, sched)
      ensures now > 0 && old(CoveredEarly()) ==> CoveredEarly()
    {
      Settle(expired[0].addr, now);
      BatchTail(expired, old(heap), old(sched), heap);
    }

    /** The kernel timer is readable. The due timers run in order of expiration, and the whole call is one
        step of the plan after another: the batch begins, the callbacks act, the batch ends. Afterwards no
        timer is stranded. `calls` are what the callbacks do; `now` and `clock` are readings of the clock. */
    method HandleRead(now: int, calls: seq<seq<Action>>, clock: int)
        returns (ghost order: seq<nat>, ghost acts: seq<Action>)
      requires Valid() && !callingExpiredTimers
      modifies this
      ensures Valid() && !callingExpiredTimers
      ensures now > 0 ==> Covered()
      ensures sched == Step(ActAll(Step(old(sched), Begin(now)), acts), End)
      ensures ran == old(ran) + order && RunOrder(old(sched), now, order)
      ensures acts == Flatten(Performed(calls, |order|))
      // the due timers, and what becomes of them
      ensures forall k :: k in order <==>
                k in old(sched).items && old(sched).items[k].place == Queued && old(sched).items[k].plan.when <= now
      ensures forall k :: k in order ==>
                var p := old(sched).items[k].plan;
                && (k in sched.items <==> p.interval > 0.0 && CancelTimer(k) !in acts)
                && (k in sched.items ==>
                      && sched.items[k].place == Queued && sched.items[k].plan.interval == p.interval
                      && sched.items[k].plan.when as real <= now as real + p.interval * 1000000.0
                                                           < sched.items[k].plan.when as real + 1.0)
      // the kernel timer is set for the first expiration, but no earlier than 100 microseconds from now
      ensures timers != [] && timers[0].when > 0 ==>
                && timerfd.Armed? && timerfd.setAt == clock && timerfd.deadline >= timers[0].when
                && timerfd.deadline >= clock + 100
                && (timerfd.deadline == timers[0].when || timerfd.deadline == clock + 100)
      ensures old(timerfd).Fired? && acts == [] ==> (Covered() <==> timers == [] || timers[0].when > 0)
    {
      ReadTimerfd();
      order, acts := HandleExpired(now, calls, clock);
      forall k | k in order ensures Due(old(sched), k, now) {
      }
      forall k | k in order
        ensures var p := old(sched).items[k].plan;
                && (k in sched.items <==> p.interval > 0.0 && CancelTimer(k) !in acts)
                && (k in sched.items ==>
                      && sched.items[k].place == Queued && sched.items[k].plan.interval == p.interval
                      && sched.items[k].plan.when as real <= now as real + p.interval * 1000000.0
                                                           < sched.items[k].plan.when as real + 1.0)
      {
        BatchRestarts(old(sched), now, acts, k);
      }
    }

    /** The rest of handleRead, after the read. */
    method HandleExpired(now: int, calls: seq<seq<Action>>, clock: int)
        returns (ghost order: seq<nat>, ghost acts: seq<Action>)
      requires Valid() && !callingExpiredTimers
      modifies this
      ensures Valid() && !callingExpiredTimers
      ensures now > 0 || timers == [] || timers[0].when > 0 ==> Covered()
      ensures acts == [] && timers != [] && timers[0].when <= 0 ==> timerfd == old(timerfd)
      ensures timers != [] && timers[0].when > 0 ==> timerfd == ArmedFor(timers[0].when, clock)
      ensures sched == Step(ActAll(Step(old(sched), Begin(now)), acts), End)
      ensures ran == old(ran) + order && RunOrder(old(sched), now, order)
      ensures acts == Flatten(Performed(calls, |order|))
    {
      var expired;
      expired, order, acts := RunExpired(now, calls);
      callingExpiredTimers := false;
      Reset(expired, now, clock);
    }

    /** The batch begins and its callbacks act. */
    method RunExpired(now: int, calls: seq<seq<Action>>)
        returns (expired: seq<Entry>, ghost order: seq<nat>, ghost acts: seq<Action>)
      requires Valid() && !callingExpiredTimers
      modifies this
      ensures Valid() && callingExpiredTimers && Batch(expired, heap, sched) && sched.now == now
      ensures now > 0 ==> CoveredEarly()
      ensures sched == ActAll(Step(old(sched), Begin(now)), acts)
      ensures ran == old(ran) + order && RunOrder(old(sched), now, order)
      ensures acts == Flatten(Performed(calls, |order|)) && (acts == [] ==> timerfd == old(timerfd))
    {
      expired, order := StartBatch(now);
      acts := RunAll(expired, calls, now);
    }

    /** While callbacks leave the queue alone, a timer is stranded exactly if one will be left with an
        expiration that counts as invalid; then the clock reads zero or less. */
    method HandleQuietRead(now: int, clock: int)
      requires Valid() && !callingExpiredTimers && timerfd.Fired?
      modifies this
      ensures Valid() && sched == Step(Step(old(sched), Begin(now)), End)
      ensures Covered() <==> !Strands(old(sched), now)
      ensures Strands(old(sched), now) ==> now <= 0
    {
      ghost var order, acts := HandleRead(now, [], clock);
      NothingPerformed(|order|);
      StrandsExactly(old(sched), now);
      FirstIsEarliest(timers, activeTimers, heap, issued, sched);
    }

    method ReadTimerfd()
      modifies this`timerfd
      ensures timerfd == if old(timerfd).Fired? then Disarmed else old(timerfd)
    {
      if timerfd.Fired? {
        timerfd := Disarmed;
      }
    }

    method StartBatch(now: int) returns (expired: seq<Entry>, ghost order: seq<nat>)
      requires Valid() && !callingExpiredTimers
      modifies this`timers, this`activeTimers, this`callingExpiredTimers, this`cancelingTimers, this`sched
      ensures Valid() && callingExpiredTimers && sched == Step(old(sched), Begin(now))
      ensures Batch(expired, heap, sched)
      ensures order == Numbers(expired, heap) && RunOrder(old(sched), now, order)
      ensures now > 0 ==> CoveredEarly()
    {
      expired := TakeDue(now);
      order := Numbers(expired, heap);
      BeginOrder(old(timers), old(activeTimers), heap, issued, old(sched), now, order);
    }

    method TakeDue(now: int) returns (expired: seq<Entry>)
      requires Valid() && !callingExpiredTimers
      modifies this`timers, this`activeTimers, this`callingExpiredTimers, this`cancelingTimers, this`sched
      ensures Valid() && callingExpiredTimers && sched == Step(old(sched), Begin(now))
      ensures Batch(expired, heap, sched) && expired == old(timers)[..DueCount(old(timers), now)]
      ensures now > 0 ==> CoveredEarly()
    {
      ghost var timers0, active0 := timers, activeTimers;
      expired := GetExpired(now);
      BeginIndexed(timers0, active0, heap, issued, sched, now, activeTimers);
      LaterCoveredEarly(timerfd, timers0, now);
      StartCalling(now);
    }

    method StartCalling(now: int)
      requires numCreated == sched.created
      requires var s := Step(sched, Begin(now));
               s.Valid() && Linked(timers, activeTimers, heap, issued, s.items, s.created)
      modifies this`callingExpiredTimers, this`cancelingTimers, this`sched
      ensures Valid() && callingExpiredTimers && sched == Step(old(sched), Begin(now))
    {
      callingExpiredTimers := true;
      cancelingTimers := {};
      sched := Step(sched, Begin(now));
    }

    /** Calls every callback of the batch; no timer in it goes away meanwhile. */
    method RunAll(expired: seq<Entry>, calls: seq<seq<Action>>, now: int) returns (ghost acts: seq<Action>)
      requires Valid() && callingExpiredTimers && Batch(expired, heap, sched)
      requires now > 0 ==> CoveredEarly()
      modifies this
      ensures Valid() && callingExpiredTimers && Batch(expired, heap, sched)
      ensures now > 0 ==> CoveredEarly()
      ensures sched == ActAll(old(sched), acts) && sched.now == old(sched).now
      ensures acts == Flatten(Performed(calls, |expired|)) && (acts == [] ==> timerfd == old(timerfd))
      ensures ran == old(ran) + Numbers(expired, old(heap))
    {
      acts := [];
      var i := 0;
      ghost var heap0, s0, order := heap, sched, Numbers(expired, heap);
      while i < |expired|
        invariant 0 <= i <= |expired| && Valid() && callingExpiredTimers
        invariant SameBatch(heap0, s0, heap, sched)
        invariant now > 0 ==> CoveredEarly()
        invariant sched == ActAll(s0, acts)
        invariant acts == Flatten(Performed(calls, i)) && (acts == [] ==> timerfd == old(timerfd))
        invariant ran == old(ran) + order[..i]
      {
        var call := if i < |calls| then calls[i] else [];
        ActAllAppend(s0, acts, call);
        PerformedNext(calls, i);
        TakeNext(order, i);
        AppendAssociates(old(ran), order[..i], [order[i]]);
        RunOne(expired, i, call, heap0, s0);
        acts := acts + call;
        i := i + 1;
      }
      SameBatchStays(expired, heap0, s0, heap, sched);
    }

    /** The i-th timer of the batch runs. */
    method RunOne(expired: seq<Entry>, i: nat, call: seq<Action>, ghost heap0: map<Addr, Timer>, ghost s0: Sched)
      requires Valid() && callingExpiredTimers && i < |expired|
      requires Batch(expired, heap0, s0) && SameBatch(heap0, s0, heap, sched)
      modifies this
      ensures Valid() && callingExpiredTimers && SameBatch(heap0, s0, heap, sched)
      ensures sched == ActAll(old(sched), call) && ran == old(ran) + [heap0[expired[i].addr].seqNo]
      ensures call == [] ==> timerfd == old(timerfd)
      ensures old(CoveredEarly()) ==> CoveredEarly()
    {
      assert expired[i].addr in heap && heap[expired[i].addr] == heap0[expired[i].addr];
      ran := ran + [heap[expired[i].addr].seqNo];
      RunCallback(call);
    }
  }

  /** The numbers of some entries' timers. */
  ghost function Numbers(s: seq<Entry>, heap: map<Addr, Timer>): (r: seq<nat>)
    requires forall i :: 0 <= i < |s| ==> s[i].addr in heap
    ensures |r| == |s| && forall i :: 0 <= i < |s| ==> r[i] == heap[s[i].addr].seqNo
  {
    seq(|s|, i requires 0 <= i < |s| => heap[s[i].addr].seqNo)
  }

  /** An order runs exactly the due timers, each once, earlier expirations first. */
  ghost predicate RunOrder(sched: Sched, now: int, order: seq<nat>) {
    && (forall i :: 0 <= i < |order| ==> Due(sched, order[i], now))
    && (forall k :: Due(sched, k, now) ==> k in order)
    && (forall i, j :: 0 <= i < j < |order| ==>
          order[i] != order[j] && sched.items[order[i]].plan.when <= sched.items[order[j]].plan.when)
  }

  function Performed(calls: seq<seq<Action>>, n: nat): (r: seq<seq<Action>>)
    ensures |r| == n
  {
    seq(n, i requires 0 <= i < n => if i < |calls| then calls[i] else [])
  }

  lemma {:induction false} NothingPerformed(n: nat)
    ensures Flatten(Performed([], n)) == []
  {
    if n > 0 {
      PerformedNext([], n - 1);
      NothingPerformed(n - 1);
    }
  }

  lemma PerformedNext(calls: seq<seq<Action>>, n: nat)
    ensures Flatten(Performed(calls, n + 1)) == Flatten(Performed(calls, n)) + if n < |calls| then calls[n] else []
  {
    var last := if n < |calls| then calls[n] else [];
    assert Performed(calls, n + 1) == Performed(calls, n) + [last];
    FlattenAppend(Performed(calls, n), [last]);
    FlattenOne(last);
  }

  /** Taking the due entries out of the indexes begins the batch. */
  lemma BeginIndexed(timers: seq<Entry>, active: set<TimerId>, heap: map<Addr, Timer>, issued: map<nat, Addr>,
                     sched: Sched, now: int, rest: set<TimerId>)
    requires sched.Valid() && !sched.calling && Linked(timers, active, heap, issued, sched.items, sched.created)
    requires forall id :: id in rest <==> id in active && heap[id.addr].expiration > now
    requires |rest| == |timers[DueCount(timers, now)..]|
    ensures var s := Step(sched, Begin(now));
            var d := DueCount(timers, now);
            && s.Valid() && Linked(timers[d..], rest, heap, issued, s.items, s.created)
            && Batch(timers[..d], heap, s)
  {
    BeginLinked(timers, active, heap, issued, sched, now, rest);
    BeginBatch(timers, active, heap, issued, sched, now);
  }

  lemma BeginLinked(timers: seq<Entry>, active: set<TimerId>, heap: map<Addr, Timer>, issued: map<nat, Addr>,
                    sched: Sched, now: int, rest: set<TimerId>)
    requires sched.Valid() && !sched.calling && Linked(timers, active, heap, issued, sched.items, sched.created)
    requires forall id :: id in rest <==> id in active && heap[id.addr].expiration > now
    requires |rest| == |timers[DueCount(timers, now)..]|
    ensures var s := Step(sched, Begin(now));
            s.Valid() && Linked(timers[DueCount(timers, now)..], rest, heap, issued, s.items, s.created)
  {
    var s := Step(sched, Begin(now));
    StepValid(sched, Begin(now));
    BeginNumbered(heap, issued, sched, now);
    DueSplits(timers, now);
    var later := timers[DueCount(timers, now)..];
    forall e ensures e in later <==> InQueue(e.addr, heap, s.items) && heap[e.addr].expiration == e.when {
      StaysQueued(heap, issued, sched, now, e.addr);
    }
    forall id ensures id in rest <==> InQueue(id.addr, heap, s.items) && heap[id.addr].seqNo == id.seqNo {
      StaysQueued(heap, issued, sched, now, id.addr);
    }
  }

  lemma BeginNumbered(heap: map<Addr, Timer>, issued: map<nat, Addr>, sched: Sched, now: int)
    requires Numbered(heap, issued, sched.items, sched.created)
    ensures Numbered(heap, issued, Step(sched, Begin(now)).items, sched.created)
  {
  }

  lemma StaysQueued(heap: map<Addr, Timer>, issued: map<nat, Addr>, sched: Sched, now: int, a: Addr)
    requires Numbered(heap, issued, sched.items, sched.created)
    ensures InQueue(a, heap, Step(sched, Begin(now)).items)
            <==> InQueue(a, heap, sched.items) && heap[a].expiration > now
  {
  }

  lemma LaterCoveredEarly(fd: TimerFd, timers: seq<Entry>, now: int)
    ensures now > 0 ==> CoversEarly(fd, timers[DueCount(timers, now)..])
  {
  }

  lemma DueEntries(timers: seq<Entry>, active: set<TimerId>, heap: map<Addr, Timer>, issued: map<nat, Addr>,
                   sched: Sched, now: int)
    requires Linked(timers, active, heap, issued, sched.items, sched.created)
    ensures var expired := timers[..DueCount(timers, now)];
            && Sorted(expired)
            && (forall i :: 0 <= i < |expired| ==>
                  && InQueue(expired[i].addr, heap, sched.items)
                  && heap[expired[i].addr].expiration == expired[i].when <= now)
            && (forall a :: InQueue(a, heap, sched.items) && heap[a].expiration <= now ==>
                  Entry(heap[a].expiration, a) in expired)
  {
    var expired := timers[..DueCount(timers, now)];
    DueSplits(timers, now);
    forall i | 0 <= i < |expired|
      ensures InQueue(expired[i].addr, heap, sched.items) && heap[expired[i].addr].expiration == expired[i].when <= now
    {
      assert expired[i] in timers;
    }
  }

  lemma BeginBatch(timers: seq<Entry>, active: set<TimerId>, heap: map<Addr, Timer>, issued: map<nat, Addr>,
                   sched: Sched, now: int)
    requires sched.Valid() && !sched.calling && Linked(timers, active, heap, issued, sched.items, sched.created)
    ensures Batch(timers[..DueCount(timers, now)], heap, Step(sched, Begin(now)))
  {
    var s := Step(sched, Begin(now));
    var expired := timers[..DueCount(timers, now)];
    DueEntries(timers, active, heap, issued, sched, now);
    forall i | 0 <= i < |expired| ensures expired[i].addr in heap && s.In(heap[expired[i].addr].seqNo, Running) {
      assert InQueue(expired[i].addr, heap, sched.items);
    }
    forall a | a in heap && s.In(heap[a].seqNo, Running)
      ensures exists i :: 0 <= i < |expired| && expired[i].addr == a
    {
      DueIsTaken(timers, active, heap, issued, sched, now, a);
    }
  }

  lemma DueIsTaken(timers: seq<Entry>, active: set<TimerId>, heap: map<Addr, Timer>, issued: map<nat, Addr>,
                   sched: Sched, now: int, a: Addr)
    requires sched.Valid() && !sched.calling && Linked(timers, active, heap, issued, sched.items, sched.created)
    requires a in heap && Step(sched, Begin(now)).In(heap[a].seqNo, Running)
    ensures exists i :: 0 <= i < DueCount(timers, now) && timers[..DueCount(timers, now)][i].addr == a
  {
    DueEntries(timers, active, heap, issued, sched, now);
    var e, expired := Entry(heap[a].expiration, a), timers[..DueCount(timers, now)];
    assert InQueue(a, heap, sched.items) && e in expired;
    var i :| 0 <= i < |expired| && expired[i] == e;
  }

  lemma BeginOrder(timers: seq<Entry>, active: set<TimerId>, heap: map<Addr, Timer>, issued: map<nat, Addr>,
                   sched: Sched, now: int, order: seq<nat>)
    requires Linked(timers, active, heap, issued, sched.items, sched.created)
    requires forall i :: 0 <= i < DueCount(timers, now) ==> timers[i].addr in heap
    requires order == Numbers(timers[..DueCount(timers, now)], heap)
    ensures RunOrder(sched, now, order)
  {
    var expired := timers[..DueCount(timers, now)];
    DueEntries(timers, active, heap, issued, sched, now);
    forall k | Due(sched, k, now)
      ensures k in order
    {
      var e := Entry(heap[issued[k]].expiration, issued[k]);
      assert e in expired;
      var i :| 0 <= i < |expired| && expired[i] == e;
      assert order[i] == k;
    }
  }

  lemma SameBatchStays(expired: seq<Entry>, heap0: map<Addr, Timer>, s0: Sched, heap: map<Addr, Timer>, s: Sched)
    requires Batch(expired, heap0, s0) && SameBatch(heap0, s0, heap, s)
    requires forall a :: a in heap && s.In(heap[a].seqNo, Running) ==> a in heap0 && heap0[a] == heap[a]
    ensures Batch(expired, heap, s)
  {
  }

  // ---- The batch being run ----

  /** The expired entries are distinct timers in the heap, and they are the batch. */
  ghost predicate Batch(expired: seq<Entry>, heap: map<Addr, Timer>, sched: Sched) {
    && (forall i :: 0 <= i < |expired| ==> expired[i].addr in heap && sched.In(heap[expired[i].addr].seqNo, Running))
    && (forall i, j :: 0 <= i < j < |expired| ==> expired[i].addr != expired[j].addr)
    && (forall a :: a in heap && sched.In(heap[a].seqNo, Running) ==>
          exists i :: 0 <= i < |expired| && expired[i].addr == a)
  }

  /** Callbacks neither delete nor change a timer of the batch, nor add one to it. */
  ghost predicate SameBatch(heap0: map<Addr, Timer>, s0: Sched, heap: map<Addr, Timer>, s: Sched) {
    && (forall a :: a in heap0 && s0.In(heap0[a].seqNo, Running) ==> a in heap && heap[a] == heap0[a])
    && (forall k :: s.In(k, Running) <==> s0.In(k, Running)) && s.calling == s0.calling && s.now == s0.now
  }

  lemma AddedToNoBatch(heap: map<Addr, Timer>, s: Sched, addr: Addr, t: Timer, add: Action)
    requires s.Valid() && addr !in heap && add.Add?
    ensures SameBatch(heap, s, heap[addr := t], Act(s, add))
    ensures Act(s, add).items == s.items[s.created + 1 := Item(Queued, add.plan)]
  {
  }

  lemma DueSplits(s: seq<Entry>, now: int)
    requires Sorted(s)
    ensures forall e :: e in s[..DueCount(s, now)] <==> e in s && e.when <= now
    ensures forall e :: e in s[DueCount(s, now)..] <==> e in s && e.when > now
  {
    var d := DueCount(s, now);
    LaterAreNotDue(s, now, d);
    assert s == s[..d] + s[d..];
  }

  lemma LaterAreNotDue(s: seq<Entry>, now: int, d: nat)
    requires Sorted(s) && d <= |s| && (d < |s| ==> s[d].when > now)
    ensures forall e :: e in s[d..] ==> e.when > now
  {
    forall i | d <= i < |s|
      ensures s[i].when > now
    {
      assert d < i ==> Less(s[d], s[i]);
    }
  }

  /** The active timers without those of some entries. */
  ghost predicate Remaining(active: set<TimerId>, active0: set<TimerId>, heap: map<Addr, Timer>, taken: seq<Entry>) {
    (forall id :: id in active0 ==> id.addr in heap)
    && forall id :: id in active <==> id in active0 && Entry(heap[id.addr].expiration, id.addr) !in taken
  }

  lemma RemainingNext(active: set<TimerId>, active0: set<TimerId>, heap: map<Addr, Timer>, expired: seq<Entry>, i: nat)
    requires i < |expired| && Remaining(active, active0, heap, expired[..i]) && expired[i] !in expired[..i]
    requires expired[i].addr in heap && heap[expired[i].addr].expiration == expired[i].when
    requires TimerId(expired[i].addr, heap[expired[i].addr].seqNo) in active0
    requires forall id :: id in active0 ==> id.addr in heap && heap[id.addr].seqNo == id.seqNo
    ensures var timer := TimerId(expired[i].addr, heap[expired[i].addr].seqNo);
            timer in active && Remaining(active - {timer}, active0, heap, expired[..i + 1])
  {
    TakeMember(expired, i);
  }

  lemma NextDueRemains(timers: seq<Entry>, active0: set<TimerId>, heap: map<Addr, Timer>, items: map<nat, Item>,
                       now: int, active: set<TimerId>, i: nat)
    requires Indexed(timers, active0, heap, items) && i < DueCount(timers, now)
    requires Remaining(active, active0, heap, timers[..DueCount(timers, now)][..i])
    ensures var e := timers[i];
            && e.addr in heap
            && var timer := TimerId(e.addr, heap[e.addr].seqNo);
            && timer in active
            && Remaining(active - {timer}, active0, heap, timers[..DueCount(timers, now)][..i + 1])
  {
    var expired := timers[..DueCount(timers, now)];
    assert expired[i] in timers;
    RemainingNext(active, active0, heap, expired, i);
  }

  /** When all due entries are gone, what is left expires later. */
  lemma RemainingLater(timers: seq<Entry>, active0: set<TimerId>, heap: map<Addr, Timer>, items: map<nat, Item>,
                       now: int, active: set<TimerId>)
    requires Indexed(timers, active0, heap, items)
    requires Remaining(active, active0, heap, timers[..DueCount(timers, now)])
    ensures forall id :: id in active <==> id in active0 && heap[id.addr].expiration > now
  {
    DueSplits(timers, now);
  }

  lemma TakeMember(s: seq<Entry>, i: nat)
    requires i < |s|
    ensures forall e :: e in s[..i + 1] <==> e in s[..i] || e == s[i]
  {
    assert s[..i + 1] == s[..i] + [s[i]];
  }

  lemma {:induction false} FreshAddress(s: set<nat>)
    ensures exists a: nat :: a !in s
  {
    var m := AddressBound(s);
    assert m !in s;
  }

  lemma {:induction false} AddressBound(s: set<nat>) returns (m: nat)
    ensures forall a :: a in s ==> a < m
  {
    if s == {} {
      m := 0;
    } else {
      var a :| a in s;
      var n := AddressBound(s - {a});
      m := if n <= a then a + 1 else n;
      forall b | b in s
        ensures b < m
      {
        assert b == a || b in s - {a};
      }
    }
  }

  lemma CreateIndexed(timers: seq<Entry>, active: set<TimerId>, heap: map<Addr, Timer>, issued: map<nat, Addr>,
                      sched: Sched, addr: Addr, t: Timer)
    requires sched.Valid() && Linked(timers, active, heap, issued, sched.items, sched.created)
    requires addr !in heap && t.seqNo == sched.created + 1 && t.repeat == (t.interval > 0.0)
    ensures var s := Step(sched, Create(Planned(t)));
            && s.Valid()
            && Linked(timers, active, heap[addr := t], issued[t.seqNo := addr], s.items, s.created)
  {
    var s := Step(sched, Create(Planned(t)));
    forall a
      ensures InQueue(a, heap[addr := t], s.items) <==> InQueue(a, heap, sched.items)
    {
    }
  }

  lemma ArriveIndexed(timers: seq<Entry>, active: set<TimerId>, heap: map<Addr, Timer>, issued: map<nat, Addr>,
                      sched: Sched, addr: Addr)
    requires sched.Valid() && Linked(timers, active, heap, issued, sched.items, sched.created)
    requires addr in heap && sched.In(heap[addr].seqNo, Waiting)
    ensures forall e :: e in timers ==> e.addr != addr
    ensures forall id :: id in active ==> id.addr != addr
    ensures var s := Step(sched, Arrive(heap[addr].seqNo));
            && s.Valid()
            && Linked(Inserted(timers, Entry(heap[addr].expiration, addr)),
                      active + {TimerId(addr, heap[addr].seqNo)}, heap, issued, s.items, s.created)
  {
    var k := heap[addr].seqNo;
    var s := Step(sched, Arrive(k));
    InsertedSorted(timers, Entry(heap[addr].expiration, addr));
    forall a
      ensures InQueue(a, heap, s.items) <==> InQueue(a, heap, sched.items) || a == addr
    {
    }
  }

  lemma CancelIndexed(timers: seq<Entry>, active: set<TimerId>, heap: map<Addr, Timer>, issued: map<nat, Addr>,
                      sched: Sched, id: TimerId)
    requires sched.Valid() && Linked(timers, active, heap, issued, sched.items, sched.created)
    requires id in active
    ensures id.addr in heap && sched.In(id.seqNo, Queued)
    ensures var s := Step(sched, Cancel(id.seqNo));
            && s.Valid()
            && Linked(Removed(timers, Entry(heap[id.addr].expiration, id.addr)), active - {id}, heap - {id.addr},
                      issued, s.items, s.created)
  {
    var s := Step(sched, Cancel(id.seqNo));
    RemovedSorted(timers, Entry(heap[id.addr].expiration, id.addr));
    forall a
      ensures InQueue(a, heap - {id.addr}, s.items) <==> InQueue(a, heap, sched.items) && a != id.addr
    {
    }
  }

  lemma NotQueued(timers: seq<Entry>, active: set<TimerId>, heap: map<Addr, Timer>, issued: map<nat, Addr>,
                  sched: Sched, id: TimerId)
    requires sched.Valid() && Linked(timers, active, heap, issued, sched.items, sched.created)
    requires id.seqNo in issued && issued[id.seqNo] == id.addr && id !in active
    ensures !sched.In(id.seqNo, Queued) && 0 < id.seqNo <= sched.created
  {
  }

  /** The first entry tells whether any queued timer has an expiration that counts as invalid. */
  lemma FirstIsEarliest(timers: seq<Entry>, active: set<TimerId>, heap: map<Addr, Timer>, issued: map<nat, Addr>,
                        sched: Sched)
    requires Linked(timers, active, heap, issued, sched.items, sched.created)
    ensures timers != [] && timers[0].when <= 0 <==> exists k :: sched.In(k, Queued) && sched.items[k].plan.when <= 0
  {
    FirstEntry(timers, active, heap, sched.items);
    if timers != [] {
      assert timers[0] in timers && sched.In(heap[timers[0].addr].seqNo, Queued);
    }
    if k :| sched.In(k, Queued) && sched.items[k].plan.when <= 0 {
      assert Entry(heap[issued[k]].expiration, issued[k]) in timers;
    }
  }

  lemma FirstEntry(timers: seq<Entry>, active: set<TimerId>, heap: map<Addr, Timer>, items: map<nat, Item>)
    requires Indexed(timers, active, heap, items)
    ensures timers != [] ==> timers[0].addr in heap && heap[timers[0].addr].expiration == timers[0].when
  {
    assert timers != [] ==> timers[0] in timers;
  }

  lemma NotIndexed(timers: seq<Entry>, active: set<TimerId>, heap: map<Addr, Timer>, items: map<nat, Item>,
                          addr: Addr)
    requires Indexed(timers, active, heap, items)
    requires addr in heap && heap[addr].seqNo in items && items[heap[addr].seqNo].place != Queued
    ensures forall e :: e in timers ==> e.addr != addr
    ensures forall id :: id in active ==> id.addr != addr
  {
  }

  /** What reset tests is whether the timer goes on. */
  lemma GoesAgainExactly(heap: map<Addr, Timer>, issued: map<nat, Addr>, sched: Sched, canceling: set<TimerId>,
                         addr: Addr)
    requires Numbered(heap, issued, sched.items, sched.created) && Canceled(canceling, issued, sched.canceling)
    requires addr in heap && sched.In(heap[addr].seqNo, Running)
    ensures GoesAgain(sched, heap[addr].seqNo)
            <==> heap[addr].repeat && TimerId(addr, heap[addr].seqNo) !in canceling
  {
  }

  /** One timer of a batch put back. */
  lemma PutBack(timers: seq<Entry>, active: set<TimerId>, heap: map<Addr, Timer>, issued: map<nat, Addr>,
                sched: Sched, addr: Addr, u: Timer)
    requires Linked(timers, active, heap, issued, sched.items, sched.created)
    requires addr in heap && GoesAgain(sched, heap[addr].seqNo)
    requires u == heap[addr].(expiration := Planned(heap[addr]).After(sched.now).when)
    ensures var e := Entry(u.expiration, addr);
            e !in timers
            && Linked(Inserted(timers, e), active + {TimerId(addr, u.seqNo)}, heap[addr := u], issued,
                      EndOne(sched, u.seqNo).items, sched.created)
  {
    NotIndexed(timers, active, heap, sched.items, addr);
    InsertedSorted(timers, Entry(u.expiration, addr));
    PutBackNumbered(heap, issued, sched, addr, u);
  }

  lemma PutBackNumbered(heap: map<Addr, Timer>, issued: map<nat, Addr>, sched: Sched, addr: Addr, u: Timer)
    requires Numbered(heap, issued, sched.items, sched.created)
    requires addr in heap && GoesAgain(sched, heap[addr].seqNo)
    requires u == heap[addr].(expiration := Planned(heap[addr]).After(sched.now).when)
    ensures var items := EndOne(sched, u.seqNo).items;
            && Numbered(heap[addr := u], issued, items, sched.created)
            && forall a :: InQueue(a, heap[addr := u], items) <==> InQueue(a, heap, sched.items) || a == addr
  {
    var items := EndOne(sched, u.seqNo).items;
    forall a
      ensures InQueue(a, heap[addr := u], items) <==> InQueue(a, heap, sched.items) || a == addr
    {
    }
  }

  /** One timer of a batch deleted. */
  lemma Deleted(timers: seq<Entry>, active: set<TimerId>, heap: map<Addr, Timer>, issued: map<nat, Addr>,
                sched: Sched, addr: Addr)
    requires Linked(timers, active, heap, issued, sched.items, sched.created)
    requires addr in heap && sched.In(heap[addr].seqNo, Running) && !GoesAgain(sched, heap[addr].seqNo)
    ensures Linked(timers, active, heap - {addr}, issued, EndOne(sched, heap[addr].seqNo).items, sched.created)
  {
  }

  lemma BatchTail(expired: seq<Entry>, heap: map<Addr, Timer>, sched: Sched, heap1: map<Addr, Timer>)
    requires expired != [] && Batch(expired, heap, sched)
    requires forall a :: a in heap && a != expired[0].addr ==> a in heap1 && heap1[a] == heap[a]
    requires forall a :: a in heap1 ==> a in heap && heap1[a].seqNo == heap[a].seqNo
    requires forall a, b :: a in heap && b in heap && a != b ==> heap[a].seqNo != heap[b].seqNo
    ensures Batch(expired[1..], heap1, EndOne(sched, heap[expired[0].addr].seqNo))
  {
    var s := EndOne(sched, heap[expired[0].addr].seqNo);
    forall a | a in heap1 && s.In(heap1[a].seqNo, Running)
      ensures exists i :: 0 <= i < |expired[1..]| && expired[1..][i].addr == a
    {
      var i :| 0 <= i < |expired| && expired[i].addr == a;
      assert i > 0 && expired[1..][i - 1].addr == a;
    }
  }
}
