/** A timer queue with the history of what was done to it, so that statements on all runs hold of the timers
    that it ran. */
module TimerHistory {
  import opened TimerPlan
  import opened TimerQueue

  const Fresh := Sched(0, map[], false, 0, {})

  lemma {:induction false} RunAppend(s: Sched, a: seq<Event>, b: seq<Event>)
    requires s.Valid() && Run(s, a) && Run(After(s, a), b)
    ensures Run(s, a + b) && After(s, a + b) == After(After(s, a), b) && After(s, a).Valid()
    ensures forall k :: RunCount(s, a + b, k) == RunCount(s, a, k) + RunCount(After(s, a), b, k)
    decreases |a|
  {
    if a == [] {
      assert a + b == b;
    } else {
      assert (a + b)[0] == a[0] && (a + b)[1..] == a[1..] + b;
      StepValid(s, a[0]);
      RunAppend(Step(s, a[0]), a[1..], b);
    }
  }

  lemma {:induction false} RunSplit(s: Sched, a: seq<Event>, b: seq<Event>)
    requires s.Valid() && Run(s, a + b)
    ensures Run(s, a) && Run(After(s, a), b) && After(s, a).Valid()
    decreases |a|
  {
    if a == [] {
      assert a + b == b;
    } else {
      assert (a + b)[0] == a[0] && (a + b)[1..] == a[1..] + b;
      StepValid(s, a[0]);
      RunSplit(Step(s, a[0]), a[1..], b);
    }
  }

  lemma {:induction false} NoBatchNoRun(s: Sched, es: seq<Event>, k: nat)
    requires forall e :: e in es ==> !e.Begin?
    ensures RunCount(s, es, k) == 0
    decreases |es|
  {
    if es != [] {
      assert es[0] in es;
      NoBatchNoRun(Step(s, es[0]), es[1..], k);
    }
  }

  lemma {:induction false} EventsOfBeginNothing(created: nat, acts: seq<Action>)
    ensures forall e :: e in EventsOf(created, acts) ==> !e.Begin?
    decreases |acts|
  {
    if acts != [] {
      match acts[0]
      case Add(_, _) => EventsOfBeginNothing(created + 1, acts[1..]);
      case CancelTimer(_) => EventsOfBeginNothing(created, acts[1..]);
    }
  }

  lemma {:induction false} StillCalling(s: Sched, acts: seq<Action>)
    ensures ActAll(s, acts).calling == s.calling
    decreases |acts|
  {
    if acts != [] {
      StillCalling(Act(s, acts[0]), acts[1..]);
    }
  }

  /** The events of one call of handleRead. */
  function HandleEvents(s: Sched, now: int, acts: seq<Action>): seq<Event> {
    [Begin(now)] + (EventsOf(s.created, acts) + [End])
  }

  /** They are a run, and run exactly the due timers, once. */
  lemma HandleIsRun(s: Sched, now: int, acts: seq<Action>)
    requires s.Valid() && !s.calling
    ensures Run(s, HandleEvents(s, now, acts))
    ensures After(s, HandleEvents(s, now, acts)) == Step(ActAll(Step(s, Begin(now)), acts), End)
    ensures forall k :: RunCount(s, HandleEvents(s, now, acts), k) == if Due(s, k, now) then 1 else 0
  {
    var b, rest := Step(s, Begin(now)), EventsOf(s.created, acts) + [End];
    StepValid(s, Begin(now));
    StillCalling(b, acts);
    BatchIsRun(b, acts, [End]);
    OneEnd(ActAll(b, acts));
    assert HandleEvents(s, now, acts)[1..] == rest;
    forall k ensures RunCount(s, HandleEvents(s, now, acts), k) == if Due(s, k, now) then 1 else 0 {
      EventsOfBeginNothing(s.created, acts);
      NoBatchNoRun(b, rest, k);
    }
  }

  lemma OneEnd(s: Sched)
    requires s.calling
    ensures Run(s, [End]) && After(s, [End]) == Step(s, End)
  {
    assert [End][1..] == [];
  }

  /** A batch holds each due timer once and no other. */
  lemma OrderCounts(s: Sched, now: int, order: seq<nat>, k: nat)
    requires RunOrder(s, now, order)
    ensures multiset(order)[k] == if Due(s, k, now) then 1 else 0
  {
    if k in order {
      var i :| 0 <= i < |order| && order[i] == k;
      CountOnce(order, i);
    }
  }

  lemma CountOnce(order: seq<nat>, i: nat)
    requires i < |order| && forall a, b :: 0 <= a < b < |order| ==> order[a] != order[b]
    ensures multiset(order)[order[i]] == 1
  {
    var k, before, after := order[i], order[..i], order[i + 1..];
    assert order == before + [k] + after;
    assert k !in before && k !in after;
    assert multiset(order)[k] == multiset(before)[k] + multiset([k])[k] + multiset(after)[k];
  }

  // ---- The time between two runs ----

  /** The timer will not run again before some time. */
  ghost predicate NotBefore(s: Sched, k: nat, e: int) {
    && 0 < k <= s.created
    && (k in s.items ==>
          var p := s.items[k].plan;
          match s.items[k].place
          case Waiting => false
          case Queued => p.when >= e
          case Running => p.Repeats() ==> p.After(s.now).when >= e)
  }

  lemma NotBeforeStays(s: Sched, ev: Event, k: nat, e: int)
    requires s.Valid() && Enabled(s, ev) && NotBefore(s, k, e)
    ensures NotBefore(Step(s, ev), k, e) && (Runs(s, ev, k) ==> ev.now >= e)
  {
    if k in s.items && ev.Begin? {
      RestartTime(s.items[k].plan, ev.now);
    }
  }

  lemma {:induction false} NeverBefore(s: Sched, es: seq<Event>, j: nat, k: nat, e: int)
    requires s.Valid() && Run(s, es) && NotBefore(s, k, e) && j < |es|
    requires Runs(After(s, es[..j]), es[j], k)
    ensures es[j].now >= e
    decreases |es|
  {
    StepValid(s, es[0]);
    NotBeforeStays(s, es[0], k, e);
    if j > 0 {
      assert es[..j][1..] == es[1..][..j - 1];
      NeverBefore(Step(s, es[0]), es[1..], j - 1, k, e);
    }
  }

  /** Two runs of a timer lie its interval apart, but for the fraction of a microsecond that is cut off. */
  lemma RunsApart(s: Sched, es: seq<Event>, i: nat, j: nat, k: nat)
    requires s.Valid() && Run(s, es) && i < j < |es|
    requires Runs(After(s, es[..i]), es[i], k) && Runs(After(s, es[..j]), es[j], k)
    ensures var p := After(s, es[..i]).items[k].plan;
            && p.interval > 0.0
            && es[j].now as real > es[i].now as real + p.interval * 1000000.0 - 1.0
  {
    assert es == es[..i] + es[i..];
    RunSplit(s, es[..i], es[i..]);
    var t, rest := After(s, es[..i]), es[i..][1..];
    var u, p := Step(t, es[i]), t.items[k].plan;
    StepValid(t, es[i]);
    AfterSplit(s, es, i, j);
    if p.Repeats() {
      RestartTime(p, es[i].now);
      NeverBefore(u, rest, j - i - 1, k, p.After(es[i].now).when);
    } else {
      NeverAgain(u, rest, j - i - 1, k);
    }
  }

  lemma AfterSplit(s: Sched, es: seq<Event>, i: nat, j: nat)
    requires s.Valid() && Run(s, es) && i < j < |es|
    ensures Run(s, es[..i]) && After(s, es[..i]).Valid()
    ensures After(s, es[..j]) == After(Step(After(s, es[..i]), es[i]), es[i + 1..j])
    ensures es[i + 1..j] == es[i..][1..][..j - i - 1] && es[j] == es[i..][1..][j - i - 1]
  {
    assert es == es[..i] + es[i..] && es == es[..j] + es[j..];
    RunSplit(s, es[..i], es[i..]);
    RunSplit(s, es[..j], es[j..]);
    assert es[..j] == es[..i] + es[i..j];
    RunSplit(s, es[..i], es[i..j]);
    RunAppend(s, es[..i], es[i..j]);
    assert es[i..j][0] == es[i] && es[i..j][1..] == es[i + 1..j];
  }

  /** A timer that does not repeat is over after it ran. */
  lemma {:induction false} NeverAgain(s: Sched, es: seq<Event>, j: nat, k: nat)
    requires s.Valid() && Run(s, es) && Doomed(s, k) && j < |es|
    ensures !Runs(After(s, es[..j]), es[j], k)
    decreases |es|
  {
    StepValid(s, es[0]);
    DoomedStays(s, es[0], k);
    if j > 0 {
      assert es[..j][1..] == es[1..][..j - 1];
      NeverAgain(Step(s, es[0]), es[1..], j - 1, k);
    }
  }

  // ---- From the creation of a timer on ----

  /** The timer that gets number k does not repeat. */
  ghost predicate OneShot(s: Sched, es: seq<Event>, k: nat)
    decreases |es|
  {
    es == [] || ((es[0].Create? && s.created + 1 == k ==> !es[0].plan.Repeats()) && OneShot(Step(s, es[0]), es[1..], k))
  }

  lemma {:induction false} OneShotEver(s: Sched, es: seq<Event>, k: nat)
    requires s.Valid() && Run(s, es) && s.created < k && OneShot(s, es, k)
    ensures RunCount(s, es, k) <= 1
    decreases |es|
  {
    if es != [] {
      StepValid(s, es[0]);
      if es[0].Create? && s.created + 1 == k {
        OneShotRunsOnce(Step(s, es[0]), es[1..], k);
      } else {
        OneShotEver(Step(s, es[0]), es[1..], k);
      }
    }
  }

  /** A cancel after the arrival holds for the rest of the run. */
  lemma CancelledForGood(es: seq<Event>, i: nat, k: nat)
    requires Run(Fresh, es) && i < |es| && es[i] == Cancel(k)
    requires var s := After(Fresh, es[..i]); 0 < k <= s.created && !s.In(k, Waiting)
    ensures RunCount(Fresh, es, k) == RunCount(Fresh, es[..i], k)
  {
    assert es == es[..i] + es[i..];
    RunSplit(Fresh, es[..i], es[i..]);
    RunAppend(Fresh, es[..i], es[i..]);
    CancelledNeverRuns(After(Fresh, es[..i]), k, es[i..][1..]);
  }

  /** No batch yet, or the clock of the last one was positive. */
  predicate LastClockPositive(es: seq<Event>) {
    es == [] || if es[|es| - 1].Begin? then es[|es| - 1].now > 0 else LastClockPositive(es[..|es| - 1])
  }

  lemma {:induction false} ClockStays(a: seq<Event>, b: seq<Event>)
    requires forall e :: e in b ==> !e.Begin?
    ensures LastClockPositive(a + b) <==> LastClockPositive(a)
  {
    if b == [] {
      assert a + b == a;
    } else {
      var n := |b| - 1;
      assert b[n] in b;
      assert (a + b)[..|a| + n] == a + b[..n];
      ClockStays(a, b[..n]);
    }
  }

  lemma {:induction false} PositiveClocks(es: seq<Event>)
    requires forall e :: e in es && e.Begin? ==> e.now > 0
    ensures LastClockPositive(es)
  {
    if es != [] {
      assert es[|es| - 1] in es;
      PositiveClocks(es[..|es| - 1]);
    }
  }

  lemma ClockOfHandle(es: seq<Event>, s: Sched, now: int, acts: seq<Action>)
    ensures LastClockPositive(es + HandleEvents(s, now, acts)) <==> now > 0
  {
    var rest := EventsOf(s.created, acts) + [End];
    EventsOfBeginNothing(s.created, acts);
    ClockStays(es + [Begin(now)], rest);
    assert es + HandleEvents(s, now, acts) == es + [Begin(now)] + rest;
    assert (es + [Begin(now)])[..|es|] == es;
  }

  class History {
    const queue: Queue
    ghost var trace: seq<Event>

    ghost predicate Valid()
      reads this, queue
    {
      && queue.Valid() && !queue.callingExpiredTimers
      && Run(Fresh, trace) && queue.sched == After(Fresh, trace)
      // no timer is stranded
      && (LastClockPositive(trace) ==> queue.Covered())
      && forall k :: multiset(queue.ran)[k] == RunCount(Fresh, trace, k)
    }

    constructor ()
      ensures Valid() && trace == [] && fresh(queue)
    {
      queue := new Queue();
      trace := [];
      new;
      assert After(Fresh, []) == Fresh;
    }

    /** The history goes on by some events. */
    ghost method Note(s: Sched, ran: seq<nat>, more: seq<Event>)
      requires Run(Fresh, trace) && s == After(Fresh, trace) && Run(s, more)
      requires forall k :: multiset(ran)[k] == RunCount(Fresh, trace, k)
      modifies this`trace
      ensures trace == old(trace) + more && Run(Fresh, trace) && After(Fresh, trace) == After(s, more)
      ensures forall k :: RunCount(Fresh, trace, k) == multiset(ran)[k] + RunCount(s, more, k)
    {
      RunAppend(Fresh, trace, more);
      trace := trace + more;
    }

    method NewTimer(when: int, interval: real, addr: Addr) returns (id: TimerId)
      requires Valid() && addr !in queue.heap
      modifies this, queue
      ensures Valid() && trace == old(trace) + [Create(Plan(when, interval))] && queue.Genuine(id)
    {
      ghost var s, ran := queue.sched, queue.ran;
      id := queue.NewTimer(when, interval, addr);
      Single(s, Create(Plan(when, interval)));
      ClockStays(trace, [Create(Plan(when, interval))]);
      Note(s, ran, [Create(Plan(when, interval))]);
    }

    method AddTimerInLoop(addr: Addr, clock: int)
      requires Valid() && addr in queue.heap && queue.sched.In(queue.heap[addr].seqNo, Waiting)
      modifies this, queue
      ensures Valid() && trace == old(trace) + [Arrive(old(queue.heap)[addr].seqNo)]
    {
      ghost var s, ran, e := queue.sched, queue.ran, Arrive(queue.heap[addr].seqNo);
      queue.AddTimerInLoop(addr, clock);
      Single(s, e);
      ClockStays(trace, [e]);
      Note(s, ran, [e]);
    }

    method CancelInLoop(id: TimerId)
      requires Valid() && queue.Genuine(id)
      modifies this, queue
      ensures Valid() && trace == old(trace) + [Cancel(id.seqNo)]
    {
      ghost var s, ran := queue.sched, queue.ran;
      queue.CancelInLoop(id);
      Single(s, Cancel(id.seqNo));
      ClockStays(trace, [Cancel(id.seqNo)]);
      Note(s, ran, [Cancel(id.seqNo)]);
    }

    method HandleRead(now: int, calls: seq<seq<Action>>, clock: int)
      requires Valid()
      modifies this, queue
      ensures Valid() && exists acts :: trace == old(trace) + HandleEvents(old(queue.sched), now, acts)
    {
      ghost var s, ran := queue.sched, queue.ran;
      ghost var order, acts := queue.HandleRead(now, calls, clock);
      HandleIsRun(s, now, acts);
      forall k ensures multiset(order)[k] == RunCount(s, HandleEvents(s, now, acts), k) {
        OrderCounts(s, now, order, k);
      }
      ClockOfHandle(trace, s, now, acts);
      Note(s, ran, HandleEvents(s, now, acts));
    }

    method Expire()
      requires Valid() && queue.timerfd.Armed?
      modifies queue
      ensures Valid() && trace == old(trace) && queue.timerfd.Fired?
    {
      queue.Expire();
    }

    /** No timer is stranded, whatever was called and in whatever order, while clocks are positive. */
    lemma NoneStranded()
      requires Valid() && forall e :: e in trace && e.Begin? ==> e.now > 0
      ensures queue.Covered()
    {
      PositiveClocks(trace);
    }

    /** A timer that does not repeat has run at most once. */
    lemma RanOnce(k: nat)
      requires Valid() && k > 0 && OneShot(Fresh, trace, k)
      ensures multiset(queue.ran)[k] <= 1
    {
      OneShotEver(Fresh, trace, k);
    }

    /** Two batches that ran the same timer were at least its interval apart. */
    lemma RanApart(i: nat, j: nat, k: nat)
      requires Valid() && i < j < |trace| && trace[i].Begin? && trace[j].Begin?
      requires Due(After(Fresh, trace[..i]), k, trace[i].now) && Due(After(Fresh, trace[..j]), k, trace[j].now)
      ensures var interval := After(Fresh, trace[..i]).items[k].plan.interval;
              && interval > 0.0
              && trace[j].now as real > trace[i].now as real + interval * 1000000.0 - 1.0
    {
      RunsApart(Fresh, trace, i, j, k);
    }

    /** A timer cancelled after its arrival has not run since. */
    lemma NotSinceCancelled(i: nat, k: nat)
      requires Valid() && i < |trace| && trace[i] == Cancel(k)
      requires var s := After(Fresh, trace[..i]); 0 < k <= s.created && !s.In(k, Waiting)
      ensures multiset(queue.ran)[k] == RunCount(Fresh, trace[..i], k)
    {
      CancelledForGood(trace, i, k);
    }
  }

  lemma Single(s: Sched, e: Event)
    requires Enabled(s, e) && !e.Begin?
    ensures Run(s, [e]) && After(s, [e]) == Step(s, e) && forall k :: RunCount(s, [e], k) == 0
  {
    assert [e][1..] == [];
  }
}
