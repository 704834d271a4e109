/** What a timer queue means to its users: timers known by number, without addresses or deletion. */
module TimerPlan {

  /** When a timer is due; `interval` is in seconds and positive for a repeating timer. */
  datatype Plan = Plan(when: int, interval: real)
  {
    predicate Repeats() {
      interval > 0.0
    }
    /** The plan after running at a time: addTime truncates to microseconds. */
    function After(now: int): Plan {
      Plan(now + (interval * 1000000.0).Floor, interval)
    }
  }

  /** A timer is waiting for its addTimerInLoop, queued, or in the batch whose callbacks are running. */
  datatype Place = Waiting | Queued | Running

  datatype Item = Item(place: Place, plan: Plan)

  /** The timers that exist. While callbacks are called, `now` is the time of their batch and `canceling`
      are the numbers cancelled meanwhile that were not queued. */
  datatype Sched = Sched(created: nat, items: map<nat, Item>, calling: bool, now: int, canceling: set<nat>)
  {
    predicate In(k: nat, p: Place) {
      k in items && items[k].place == p
    }
    ghost predicate Valid() {
      forall k :: k in items ==> 0 < k <= created && (items[k].place == Running ==> calling)
    }
  }

  datatype Event =
    | Create(plan: Plan)
    | Arrive(k: nat)
    | Cancel(k: nat)
    | Begin(now: int)
    | End

  predicate Enabled(s: Sched, e: Event) {
    match e
    case Arrive(k) => s.In(k, Waiting)
    case Begin(_) => !s.calling
    case End => s.calling
    case _ => true
  }

  predicate Due(s: Sched, k: nat, now: int) {
    s.In(k, Queued) && s.items[k].plan.when <= now
  }

  predicate GoesAgain(s: Sched, k: nat) {
    s.In(k, Running) && s.items[k].plan.Repeats() && k !in s.canceling
  }

  /** Where the end of a batch leaves a timer that survives it. */
  function Settled(s: Sched, k: nat): Item
    requires k in s.items
  {
    if s.items[k].place == Running then Item(Queued, s.items[k].plan.After(s.now)) else s.items[k]
  }

  function Step(s: Sched, e: Event): Sched {
    match e
    case Create(plan) => s.(created := s.created + 1, items := s.items[s.created + 1 := Item(Waiting, plan)])
    case Arrive(k) => if s.In(k, Waiting) then s.(items := s.items[k := Item(Queued, s.items[k].plan)]) else s
    case Cancel(k) =>
      if s.In(k, Queued) then s.(items := s.items - {k})
      else if s.calling && 0 < k <= s.created then s.(canceling := s.canceling + {k})
      else s
    case Begin(now) =>
      s.(calling := true, now := now, canceling := {},
         items := map k | k in s.items :: if Due(s, k, now) then Item(Running, s.items[k].plan) else s.items[k])
    case End =>
      s.(calling := false,
         items := map k | k in s.items && (s.items[k].place == Running ==> GoesAgain(s, k)) :: Settled(s, k))
  }

  lemma StepValid(s: Sched, e: Event)
    requires s.Valid() && Enabled(s, e)
    ensures Step(s, e).Valid()
  {
  }

  /** Whether an event puts a timer in a batch, and so lets its callback run. */
  predicate Runs(s: Sched, e: Event, k: nat) {
    e.Begin? && Due(s, k, e.now)
  }

  ghost predicate Run(s: Sched, es: seq<Event>)
    decreases |es|
  {
    es == [] || (Enabled(s, es[0]) && Run(Step(s, es[0]), es[1..]))
  }

  /** How often a timer runs in a run. */
  function RunCount(s: Sched, es: seq<Event>, k: nat): nat
    decreases |es|
  {
    if es == [] then 0
    else (if Runs(s, es[0], k) then 1 else 0) + RunCount(Step(s, es[0]), es[1..], k)
  }

  // ---- A timer that can never run again ----

  ghost predicate Doomed(s: Sched, k: nat) {
    0 < k <= s.created && (k in s.items ==> s.In(k, Running) && !GoesAgain(s, k))
  }

  lemma DoomedStays(s: Sched, e: Event, k: nat)
    requires s.Valid() && Enabled(s, e) && Doomed(s, k)
    ensures Doomed(Step(s, e), k) && !Runs(s, e, k)
  {
  }

  lemma {:induction false} DoomedNeverRuns(s: Sched, es: seq<Event>, k: nat)
    requires s.Valid() && Run(s, es) && Doomed(s, k)
    ensures RunCount(s, es, k) == 0
    decreases |es|
  {
    if es != [] {
      StepValid(s, es[0]);
      DoomedStays(s, es[0], k);
      DoomedNeverRuns(Step(s, es[0]), es[1..], k);
    }
  }

  /** A timer cancelled after its addTimerInLoop ran never runs in any later batch, whether it was
      cancelled while queued, from a callback of its own batch, or when it was already over. */
  lemma CancelledNeverRuns(s: Sched, k: nat, es: seq<Event>)
    requires s.Valid() && 0 < k <= s.created && !s.In(k, Waiting)
    requires Run(Step(s, Cancel(k)), es)
    ensures RunCount(Step(s, Cancel(k)), es, k) == 0
  {
    StepValid(s, Cancel(k));
    DoomedNeverRuns(Step(s, Cancel(k)), es, k);
  }

  /** A cancelled timer never runs again, whatever happens, exactly if it was not still waiting: the cancel
      of a waiting timer is forgotten, also when it comes from a callback. */
  lemma CancelHoldsExactly(s: Sched, k: nat)
    requires s.Valid() && 0 < k <= s.created
    ensures (forall es :: Run(Step(s, Cancel(k)), es) ==> RunCount(Step(s, Cancel(k)), es, k) == 0)
            <==> !s.In(k, Waiting)
  {
    if s.In(k, Waiting) {
      var es := RunOfForgotten(s, k);
      assert Run(Step(s, Cancel(k)), es) && RunCount(Step(s, Cancel(k)), es, k) != 0;
    } else {
      forall es | Run(Step(s, Cancel(k)), es) ensures RunCount(Step(s, Cancel(k)), es, k) == 0 {
        CancelledNeverRuns(s, k, es);
      }
    }
  }

  /** The timer arrives after the batch that may be running, and is due in the next. */
  lemma RunOfForgotten(s: Sched, k: nat) returns (es: seq<Event>)
    requires s.Valid() && s.In(k, Waiting)
    ensures Run(Step(s, Cancel(k)), es) && RunCount(Step(s, Cancel(k)), es, k) == 1
  {
    StepValid(s, Cancel(k));
    es := RunOfWaiting(Step(s, Cancel(k)), k);
  }

  lemma RunOfWaiting(s: Sched, k: nat) returns (es: seq<Event>)
    requires s.Valid() && s.In(k, Waiting)
    ensures Run(s, es) && RunCount(s, es, k) == 1
    decreases s.calling
  {
    if s.calling {
      StepValid(s, End);
      var rest := RunOfWaiting(Step(s, End), k);
      es := [End] + rest;
      assert es[1..] == rest;
    } else {
      var begin := Begin(s.items[k].plan.when);
      var arrived := Step(s, Arrive(k));
      es := [Arrive(k), begin];
      assert es[1..] == [begin] && es[1..][1..] == [];
      assert Run(Step(arrived, begin), []) && RunCount(Step(arrived, begin), [], k) == 0;
      assert Run(arrived, es[1..]) && RunCount(arrived, es[1..], k) == 1;
    }
  }

  /** A timer that does not repeat runs at most once in any run. */
  lemma {:induction false} OneShotRunsOnce(s: Sched, es: seq<Event>, k: nat)
    requires s.Valid() && Run(s, es) && 0 < k <= s.created && (k in s.items ==> !s.items[k].plan.Repeats())
    ensures RunCount(s, es, k) <= 1
    decreases |es|
  {
    if es != [] {
      StepValid(s, es[0]);
      if Runs(s, es[0], k) {
        DoomedNeverRuns(Step(s, es[0]), es[1..], k);
      } else {
        OneShotRunsOnce(Step(s, es[0]), es[1..], k);
      }
    }
  }

  function After(s: Sched, es: seq<Event>): Sched
    decreases |es|
  {
    if es == [] then s else After(Step(s, es[0]), es[1..])
  }

  /** Restarted at some time, a plan is due one interval later, in whole microseconds rounded down. */
  lemma RestartTime(p: Plan, now: int)
    ensures p.After(now).interval == p.interval
    ensures p.After(now).when as real <= now as real + p.interval * 1000000.0 < p.After(now).when as real + 1.0
  {
  }

  /** A repeating timer that nobody cancels during its batch is queued again for one interval after the
      time of the batch, whatever the callbacks of the batch add or cancel. */
  lemma {:induction false} RepeatsAfterBatch(s: Sched, es: seq<Event>, k: nat)
    requires s.Valid() && GoesAgain(s, k) && Run(s, es + [End])
    requires forall i :: 0 <= i < |es| ==> es[i] != Cancel(k) && !es[i].End?
    ensures var t := After(s, es + [End]);
            && t.In(k, Queued) && t.items[k].plan == s.items[k].plan.After(s.now)
            && t.items[k].plan.interval == s.items[k].plan.interval
            && t.items[k].plan.when as real <= s.now as real + s.items[k].plan.interval * 1000000.0
                                             < t.items[k].plan.when as real + 1.0
    decreases |es|
  {
    if es == [] {
      RestartTime(s.items[k].plan, s.now);
      assert (es + [End])[1..] == [];
    } else {
      StepValid(s, es[0]);
      assert (es + [End])[0] == es[0] && (es + [End])[1..] == es[1..] + [End];
      RepeatsAfterBatch(Step(s, es[0]), es[1..], k);
    }
  }

  // ---- Expirations that count as invalid ----

  /** A timer waits on past the batch though it is due before 1970, or repeats to a time before 1970. */
  ghost predicate Strands(s: Sched, now: int) {
    exists k :: s.In(k, Queued) &&
      (now < s.items[k].plan.when <= 0
       || (Due(s, k, now) && s.items[k].plan.Repeats() && s.items[k].plan.After(now).when <= 0))
  }

  /** That is what a batch without calls on the queue leaves behind, and only when the clock is not positive. */
  lemma StrandsExactly(s: Sched, now: int)
    requires s.Valid() && !s.calling
    ensures var t := Step(Step(s, Begin(now)), End);
            (exists k :: t.In(k, Queued) && t.items[k].plan.when <= 0) <==> Strands(s, now)
    ensures Strands(s, now) ==> now <= 0
  {
    var b := Step(s, Begin(now));
    var t := Step(b, End);
    if k :| t.In(k, Queued) && t.items[k].plan.when <= 0 {
      assert s.In(k, Queued);
    }
    if k :| s.In(k, Queued)
            && (now < s.items[k].plan.when <= 0
                || (Due(s, k, now) && s.items[k].plan.Repeats() && s.items[k].plan.After(now).when <= 0)) {
      assert b.In(k, if Due(s, k, now) then Running else Queued);
      assert t.In(k, Queued) && t.items[k].plan.when <= 0;
    }
  }

  // ---- What callbacks do ----

  /** A callback may add a timer, with the clock at the time, or cancel the timer of some number. */
  datatype Action = Add(plan: Plan, clock: int) | CancelTimer(k: nat)

  function EventsOf(created: nat, acts: seq<Action>): seq<Event>
    decreases |acts|
  {
    if acts == [] then []
    else
      match acts[0]
      case Add(plan, _) => [Create(plan), Arrive(created + 1)] + EventsOf(created + 1, acts[1..])
      case CancelTimer(k) => [Cancel(k)] + EventsOf(created, acts[1..])
  }

  function Act(s: Sched, act: Action): Sched {
    match act
    case Add(plan, _) => Step(Step(s, Create(plan)), Arrive(s.created + 1))
    case CancelTimer(k) => Step(s, Cancel(k))
  }

  function ActAll(s: Sched, acts: seq<Action>): Sched
    decreases |acts|
  {
    if acts == [] then s else ActAll(Act(s, acts[0]), acts[1..])
  }

  lemma {:induction false} ActAllSnoc(s: Sched, acts: seq<Action>, act: Action)
    ensures ActAll(s, acts + [act]) == Act(ActAll(s, acts), act)
    decreases |acts|
  {
    if acts == [] {
      assert ([] + [act])[1..] == [];
    } else {
      assert (acts + [act])[1..] == acts[1..] + [act];
      ActAllSnoc(Act(s, acts[0]), acts[1..], act);
    }
  }

  lemma {:induction false} ActAllAppend(s: Sched, a: seq<Action>, b: seq<Action>)
    ensures ActAll(s, a + b) == ActAll(ActAll(s, a), b)
    decreases |a|
  {
    if a == [] {
      assert a + b == b;
    } else {
      assert (a + b)[0] == a[0] && (a + b)[1..] == a[1..] + b;
      ActAllAppend(Act(s, a[0]), a[1..], b);
    }
  }

  /** What callbacks do to a timer of their batch is at most to cancel it. */
  lemma {:induction false} ActsOnRunning(s: Sched, acts: seq<Action>, k: nat)
    requires s.Valid() && s.calling && s.In(k, Running)
    ensures var t := ActAll(s, acts);
            && t.In(k, Running) && t.items[k] == s.items[k] && t.now == s.now && t.calling
            && (k in t.canceling <==> k in s.canceling || CancelTimer(k) in acts)
    decreases |acts|
  {
    if acts != [] {
      StepValid(s, if acts[0].Add? then Create(acts[0].plan) else Cancel(acts[0].k));
      if acts[0].Add? {
        StepValid(Step(s, Create(acts[0].plan)), Arrive(s.created + 1));
      }
      ActsOnRunning(Act(s, acts[0]), acts[1..], k);
    }
  }

  /** A batch leaves exactly the repeating timers that no callback of it cancelled, each due one interval after
      the time of the batch. */
  lemma BatchRestarts(s: Sched, now: int, acts: seq<Action>, k: nat)
    requires s.Valid() && !s.calling && Due(s, k, now)
    ensures var p, t := s.items[k].plan, Step(ActAll(Step(s, Begin(now)), acts), End);
            && (k in t.items <==> p.interval > 0.0 && CancelTimer(k) !in acts)
            && (k in t.items ==>
                  && t.items[k].place == Queued && t.items[k].plan.interval == p.interval
                  && t.items[k].plan.when as real <= now as real + p.interval * 1000000.0
                                                   < t.items[k].plan.when as real + 1.0)
  {
    StepValid(s, Begin(now));
    ActsOnRunning(Step(s, Begin(now)), acts, k);
    RestartTime(s.items[k].plan, now);
  }

  /** A batch with any callbacks is a run of events: what holds over all runs holds of it. */
  lemma {:induction false} BatchIsRun(s: Sched, acts: seq<Action>, rest: seq<Event>)
    requires s.Valid()
    ensures After(s, EventsOf(s.created, acts) + rest) == After(ActAll(s, acts), rest)
    ensures Run(s, EventsOf(s.created, acts) + rest) == Run(ActAll(s, acts), rest)
    decreases |acts|
  {
    var es := EventsOf(s.created, acts);
    if acts == [] {
      assert es + rest == rest;
    } else {
      var more := EventsOf(Act(s, acts[0]).created, acts[1..]);
      StepValid(s, (es + rest)[0]);
      match acts[0]
      case Add(plan, _) =>
        var s1 := Step(s, Create(plan));
        StepValid(s1, Arrive(s.created + 1));
        assert (es + rest)[1..] == [Arrive(s.created + 1)] + (more + rest);
        assert ([Arrive(s.created + 1)] + (more + rest))[1..] == more + rest;
        BatchIsRun(Act(s, acts[0]), acts[1..], rest);
      case CancelTimer(k) =>
        assert (es + rest)[1..] == more + rest;
        BatchIsRun(Act(s, acts[0]), acts[1..], rest);
    }
  }

  // ---- Ending a batch timer by timer ----

  /** The batch with some of its timers already requeued or deleted. */
  function EndPart(s: Sched, done: set<nat>): Sched {
    s.(items := map k | k in s.items && (s.items[k].place == Running && k in done ==> GoesAgain(s, k))
                    :: if k in done then Settled(s, k) else s.items[k])
  }

  function EndOne(s: Sched, k: nat): Sched
    requires s.In(k, Running)
  {
    if GoesAgain(s, k) then s.(items := s.items[k := Settled(s, k)]) else s.(items := s.items - {k})
  }

  lemma EndPartOne(s: Sched, done: set<nat>, k: nat)
    requires s.In(k, Running) && k !in done
    ensures EndPart(s, done).In(k, Running)
    ensures EndOne(EndPart(s, done), k) == EndPart(s, done + {k})
  {
  }

  lemma EndPartAll(s: Sched, done: set<nat>)
    requires forall k :: k in done <==> s.In(k, Running)
    ensures EndPart(s, done).(calling := false) == Step(s, End)
  {
  }

  lemma EndPartNone(s: Sched)
    ensures EndPart(s, {}) == s
  {
  }
}
