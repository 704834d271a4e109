/** The hand-off of functors to an event loop, as steps that any interleaving of threads can take. */
module LoopSteps {
  import opened Bytes

  datatype Functor = Functor(id: nat, actions: seq<Action>)

  /** What a functor does to its own loop while it runs. */
  datatype Action =
    | Queue(queued: Functor)
    | RunNow(inner: Functor)
    | Quit

  /** Where the thread of the loop is; Testing is the test of quit_ that guards the next poll. */
  datatype Phase =
    | Outside
    | Testing
    | Polling
    | Handling(wake: bool)
    | Swapping
    | Running(rest: seq<Functor>)

  /** Inflight counts the threads that pushed, or set quit, and have yet to write the eventfd. */
  datatype Loop = Loop(
    phase: Phase,
    quit: bool,
    pending: seq<Functor>,
    counter: nat,
    inflight: nat,
    pushed: seq<Functor>,
    ran: seq<Functor>)
  {
    /** callingPendingFunctors_ */
    predicate Calling() {
      phase.Running?
    }

    function Rest(): (rest: seq<Functor>) {
      if phase.Running? then phase.rest else []
    }

    /** The next poll cannot sleep, or a thread is about to cut it short. */
    predicate Roused() {
      counter > 0 || inflight > 0
    }

    predicate Stranded() {
      phase.Polling? && pending != [] && !Roused()
    }
  }

  datatype Event =
    // other threads
    | Push(f: Functor)
    | Stop
    | Wake
    // the thread of the loop
    | Start
    | Test
    | Poll
    | HandleRead
    | EndEvents
    | Swap
    | RunOne
    | EndFunctors
    | QueueInLoop(f: Functor)
    | StopInLoop
  {
    predicate Foreign() {
      Push? || Stop? || Wake?
    }
  }

  const Fresh := Loop(Outside, false, [], 0, 0, [], [])

  predicate Enabled(s: Loop, e: Event) {
    match e
    case Push(_) => true
    case Stop => true
    case Wake => s.inflight > 0
    case Start => s.phase.Outside?
    case Test => s.phase.Testing?
    case Poll => s.phase.Polling?
    case HandleRead => s.phase == Handling(true)
    case EndEvents => s.phase == Handling(false)
    case Swap => s.phase.Swapping?
    case RunOne => s.phase.Running? && s.phase.rest != []
    case EndFunctors => s.phase == Running([])
    case QueueInLoop(_) => s.phase.Outside? || s.phase.Handling? || s.phase.Running?
    case StopInLoop => s.phase.Outside? || s.phase.Handling? || s.phase.Running?
  }

  function Step(s: Loop, e: Event): (t: Loop)
    requires Enabled(s, e)
  {
    match e
    case Push(f) => s.(pending := s.pending + [f], pushed := s.pushed + [f], inflight := s.inflight + 1)
    case Stop => s.(quit := true, inflight := s.inflight + 1)
    case Wake => s.(counter := s.counter + 1, inflight := s.inflight - 1)
    case Start => s.(phase := Testing, quit := false)
    case Test => s.(phase := if s.quit then Outside else Polling)
    case Poll => s.(phase := Handling(s.counter > 0))
    case HandleRead => s.(phase := Handling(false), counter := 0)
    case EndEvents => s.(phase := Swapping)
    case Swap => s.(phase := Running(s.pending), pending := [])
    case RunOne => s.(phase := Running(s.phase.rest[1..]), ran := s.ran + [s.phase.rest[0]])
    case EndFunctors => s.(phase := Testing)
    case QueueInLoop(f) =>
      s.(pending := s.pending + [f], pushed := s.pushed + [f],
         counter := if s.Calling() then s.counter + 1 else s.counter)
    case StopInLoop => s.(quit := true)
  }

  ghost predicate Legal(s: Loop, es: seq<Event>)
    decreases |es|, 0
  {
    es == [] || (Legal(s, es[..|es| - 1]) && Enabled(Run(s, es[..|es| - 1]), es[|es| - 1]))
  }

  ghost function Run(s: Loop, es: seq<Event>): (t: Loop)
    requires Legal(s, es)
    decreases |es|, 1
  {
    if es == [] then s else Step(Run(s, es[..|es| - 1]), es[|es| - 1])
  }

  lemma RunSnoc(s: Loop, es: seq<Event>, e: Event)
    requires Legal(s, es) && Enabled(Run(s, es), e)
    ensures Legal(s, es + [e]) && Run(s, es + [e]) == Step(Run(s, es), e)
  {
    assert (es + [e])[..|es|] == es;
  }

  lemma OrderlySnoc(s: Loop, es: seq<Event>, e: Event)
    requires Legal(s, es) && Enabled(Run(s, es), e)
    ensures Legal(s, es + [e])
    ensures Orderly(s, es + [e]) <==> Orderly(s, es) && Disciplined(Run(s, es), e)
  {
    RunSnoc(s, es, e);
    assert (es + [e])[..|es|] == es;
  }

  // ---- What the thread of the loop does itself ----

  /** The steps of a run that are not those of other threads. */
  function Own(es: seq<Event>): (own: seq<Event>) {
    if es == [] then []
    else Own(es[..|es| - 1]) + if es[|es| - 1].Foreign() then [] else [es[|es| - 1]]
  }

  lemma OwnSnoc(es: seq<Event>, e: Event)
    ensures Own(es + [e]) == Own(es) + if e.Foreign() then [] else [e]
  {
    assert (es + [e])[..|es|] == es;
  }

  /** The steps that the first n actions of a callback amount to; runInLoop takes those of its functor at once. */
  function Acts(f: Functor, n: nat): (es: seq<Event>)
    requires n <= |f.actions|
    decreases f, n
  {
    if n == 0 then []
    else
      Acts(f, n - 1) +
      match f.actions[n - 1]
      case Queue(g) => [QueueInLoop(g)]
      case RunNow(g) => Acts(g, |g.actions|)
      case Quit => [StopInLoop]
  }

  function ActsOf(f: Functor): (es: seq<Event>) {
    Acts(f, |f.actions|)
  }

  /** One of the first n actions of a callback is a given one, or runs a functor at once that takes it. */
  predicate Takes(f: Functor, n: nat, a: Action)
    requires n <= |f.actions|
    decreases f, n
  {
    n > 0 && (Takes(f, n - 1, a) || f.actions[n - 1] == a
              || (f.actions[n - 1].RunNow?
                  && Takes(f.actions[n - 1].inner, |f.actions[n - 1].inner.actions|, a)))
  }

  /** A functor queued at any depth is queued, and a quit at any depth quits; nothing else is and does. */
  lemma {:induction false} ActsExactly(f: Functor, n: nat, a: Action, e: Event)
    requires n <= |f.actions| && !a.RunNow?
    requires e == if a.Queue? then QueueInLoop(a.queued) else StopInLoop
    ensures e in Acts(f, n) <==> Takes(f, n, a)
    decreases f, n
  {
    if n > 0 {
      ActsExactly(f, n - 1, a, e);
      if f.actions[n - 1].RunNow? {
        var g := f.actions[n - 1].inner;
        ActsExactly(g, |g.actions|, a, e);
      }
    }
  }

  function AllActs(fs: seq<Functor>): (es: seq<Event>) {
    if fs == [] then [] else AllActs(fs[..|fs| - 1]) + ActsOf(fs[|fs| - 1])
  }

  /** The steps of a batch. */
  function Batch(fs: seq<Functor>): (es: seq<Event>) {
    if fs == [] then [] else Batch(fs[..|fs| - 1]) + [RunOne] + ActsOf(fs[|fs| - 1])
  }

  lemma AllActsNext(before: seq<Event>, fs: seq<Functor>, n: nat)
    requires n < |fs|
    ensures before + AllActs(fs[..n + 1]) == before + AllActs(fs[..n]) + ActsOf(fs[n])
  {
    assert fs[..n + 1][..n] == fs[..n];
  }

  lemma BatchNext(before: seq<Event>, fs: seq<Functor>, n: nat)
    requires n < |fs|
    ensures before + Batch(fs[..n + 1]) == before + Batch(fs[..n]) + [RunOne] + ActsOf(fs[n])
  {
    assert fs[..n + 1][..n] == fs[..n];
  }

  // ---- Nothing is lost, repeated or reordered ----

  ghost predicate InOrder(s: Loop) {
    s.pushed == s.ran + s.Rest() + s.pending
  }

  lemma {:induction false} PushOrder(s: Loop, es: seq<Event>)
    requires InOrder(s) && Legal(s, es)
    ensures InOrder(Run(s, es))
  {
    if es != [] {
      PushOrder(s, es[..|es| - 1]);
    }
  }

  /** The functors that a run queues, in its order. */
  function QueuedBy(es: seq<Event>): (fs: seq<Functor>) {
    if es == [] then []
    else
      var e := es[|es| - 1];
      QueuedBy(es[..|es| - 1]) + if e.Push? || e.QueueInLoop? then [e.f] else []
  }

  lemma {:induction false} PushedExactly(s: Loop, es: seq<Event>)
    requires Legal(s, es)
    ensures Run(s, es).pushed == s.pushed + QueuedBy(es)
  {
    if es != [] {
      var e := es[|es| - 1];
      PushedExactly(s, es[..|es| - 1]);
      AppendAssociates(s.pushed, QueuedBy(es[..|es| - 1]), if e.Push? || e.QueueInLoop? then [e.f] else []);
    }
  }

  /** From the creation of a loop on: what has run, what the batch still holds and what waits are together all that
      was queued, in the order of the queueing. */
  lemma NothingLost(es: seq<Event>)
    requires Legal(Fresh, es)
    ensures var t := Run(Fresh, es); t.ran + t.Rest() + t.pending == QueuedBy(es)
  {
    PushedExactly(Fresh, es);
    PushOrder(Fresh, es);
  }

  // ---- Nobody is left waiting ----

  /** The thread of the loop queues and quits only from inside loop(). */
  predicate Disciplined(s: Loop, e: Event) {
    s.phase.Outside? ==> !e.QueueInLoop? && !e.StopInLoop?
  }

  ghost predicate Orderly(s: Loop, es: seq<Event>)
    requires Legal(s, es)
  {
    es == [] || (Orderly(s, es[..|es| - 1]) && Disciplined(Run(s, es[..|es| - 1]), es[|es| - 1]))
  }

  /** While a poll will come before the next swap, whoever waits for the loop has roused it. */
  predicate Attended(s: Loop) {
    && (s.pending != [] && !s.phase.Handling? && !s.phase.Swapping? ==> s.Roused())
    && (s.quit && s.phase.Polling? ==> s.Roused())
  }

  lemma {:induction false} NeverStranded(s: Loop, es: seq<Event>)
    requires Attended(s) && Legal(s, es) && Orderly(s, es)
    ensures Attended(Run(s, es)) && !Run(s, es).Stranded()
  {
    if es != [] {
      NeverStranded(s, es[..|es| - 1]);
    }
  }

  function Pushes(es: seq<Event>): (n: nat) {
    if es == [] then 0 else Pushes(es[..|es| - 1]) + if es[|es| - 1].Push? then 1 else 0
  }

  function Stops(es: seq<Event>): (n: nat) {
    if es == [] then 0 else Stops(es[..|es| - 1]) + if es[|es| - 1].Stop? then 1 else 0
  }

  /** Foreign threads alone, between two steps of the loop. */
  lemma {:induction false} ForeignOnly(s: Loop, es: seq<Event>)
    requires Legal(s, es) && forall e :: e in es ==> e.Foreign()
    ensures Run(s, es).phase == s.phase && s.pending <= Run(s, es).pending && s.ran == Run(s, es).ran
    ensures Run(s, es).quit <==> s.quit || Stops(es) > 0
    ensures Run(s, es).counter + Run(s, es).inflight == s.counter + s.inflight + Pushes(es) + Stops(es)
  {
    if es != [] {
      var e := es[|es| - 1];
      assert e in es && e.Foreign();
      ForeignOnly(s, es[..|es| - 1]);
    }
  }

  /**
   * A functor that the thread of the loop queues before it calls loop() is not announced: it waits
   * out the first poll unless somebody else rouses the loop.
   */
  lemma StrandedBeforeLoopExactly(s: Loop, f: Functor, before: seq<Event>, after: seq<Event>)
    requires s.phase.Outside? && Legal(Step(s, QueueInLoop(f)), before) && Start !in before
    requires var u := Run(Step(s, QueueInLoop(f)), before); u.phase.Outside? ==> Legal(Step(u, Start), after)
    requires forall e :: e in after ==> e.Foreign()
    ensures var u := Run(Step(s, QueueInLoop(f)), before);
            && u.phase.Outside?
            && var t := Run(Step(u, Start), after);
            && t.phase.Testing?
            && (Step(t, Test).Stranded() <==>
                  !s.Roused() && Pushes(before) + Stops(before) + Pushes(after) + Stops(after) == 0)
  {
    var queued := Step(s, QueueInLoop(f));
    OutsideUntilStart(queued, before);
    RousedByOthers(queued, before);
    ForeignOnly(Step(Run(queued, before), Start), after);
  }

  /** Until the start only other threads rouse the loop, whatever its own thread queues. */
  lemma {:induction false} RousedByOthers(s: Loop, es: seq<Event>)
    requires s.phase.Outside? && Legal(s, es) && Start !in es
    ensures Run(s, es).phase.Outside? && s.pending <= Run(s, es).pending
    ensures Run(s, es).counter + Run(s, es).inflight == s.counter + s.inflight + Pushes(es) + Stops(es)
  {
    if es != [] {
      var e := es[|es| - 1];
      assert e in es;
      RousedByOthers(s, es[..|es| - 1]);
    }
  }

  // ---- The eventfd is emptied, and quit takes effect ----

  /** Writes to the eventfd since it was last read: by other threads, and by the thread of the loop while it calls
      functors. */
  ghost function Writes(s: Loop, es: seq<Event>): (n: nat)
    requires Legal(s, es)
  {
    if es == [] then 0
    else
      var before, e := es[..|es| - 1], es[|es| - 1];
      if e.HandleRead? then 0
      else Writes(s, before) + if e.Wake? || (e.QueueInLoop? && Run(s, before).phase.Running?) then 1 else 0
  }

  /** The eventfd counts exactly the writes since it was last read. */
  lemma {:induction false} CounterExactly(s: Loop, es: seq<Event>)
    requires Legal(s, es)
    ensures Run(s, es).counter == Writes(s, es) + if HandleRead in es then 0 else s.counter
  {
    if es != [] {
      var n := |es| - 1;
      CounterExactly(s, es[..n]);
      assert es == es[..n] + [es[n]];
    }
  }

  /** A poll finds the eventfd readable if and only if somebody wrote it since it was last read. */
  lemma PollSeesExactly(s: Loop, es: seq<Event>)
    requires Legal(s, es) && Run(s, es).phase.Polling?
    ensures Step(Run(s, es), Poll).phase
            == Handling(Writes(s, es) > 0 || (HandleRead !in es && s.counter > 0))
  {
    CounterExactly(s, es);
  }

  /** So after an iteration that read it the next poll may block, unless a thread wrote it since, or a functor of the
      batch queued another: the loop does not spin. */
  lemma PollMayBlock(s: Loop, after: seq<Event>)
    requires s.phase == Handling(true) && Legal(Step(s, HandleRead), after)
    requires Run(Step(s, HandleRead), after).phase.Polling?
    requires forall e :: e in after ==> !e.Wake? && !e.QueueInLoop?
    ensures Run(Step(s, HandleRead), after).counter == 0
    ensures Step(Run(Step(s, HandleRead), after), Poll).phase == Handling(false)
  {
    CounterStaysZero(Step(s, HandleRead), after);
  }

  lemma {:induction false} CounterStaysZero(s: Loop, es: seq<Event>)
    requires s.counter == 0 && Legal(s, es) && forall e :: e in es ==> !e.Wake? && !e.QueueInLoop?
    ensures Run(s, es).counter == 0
  {
    if es != [] {
      assert es[|es| - 1] in es;
      CounterStaysZero(s, es[..|es| - 1]);
    }
  }

  /** Somebody quits after the last start. */
  ghost predicate Quits(es: seq<Event>) {
    exists k :: QuitAt(es, k)
  }

  predicate QuitAt(es: seq<Event>, k: int) {
    0 <= k < |es| && (es[k].Stop? || es[k].StopInLoop?) && Start !in es[k + 1..]
  }

  lemma {:induction false} QuitExactly(s: Loop, es: seq<Event>)
    requires Legal(s, es)
    ensures Run(s, es).quit <==> Quits(es) || (s.quit && Start !in es)
  {
    if es != [] {
      var n := |es| - 1;
      QuitExactly(s, es[..n]);
      QuitsNext(es);
      assert es == es[..n] + [es[n]];
    }
  }

  lemma QuitsNext(es: seq<Event>)
    requires es != []
    ensures var n := |es| - 1;
            Quits(es) <==> es[n].Stop? || es[n].StopInLoop? || (!es[n].Start? && Quits(es[..n]))
  {
    var n := |es| - 1;
    forall k ensures QuitAt(es, k) <==> if k == n then es[n].Stop? || es[n].StopInLoop?
                                        else !es[n].Start? && QuitAt(es[..n], k) {
      if 0 <= k < n {
        assert es[k + 1..] == es[..n][k + 1..] + [es[n]];
      }
    }
    assert QuitAt(es, n) <==> es[n].Stop? || es[n].StopInLoop?;
  }

  /** The loop is left at a test exactly when somebody quit since its start. */
  lemma LeavesExactly(s: Loop, es: seq<Event>)
    requires s.phase.Outside? && Legal(Step(s, Start), es) && Start !in es
    requires Run(Step(s, Start), es).phase.Testing?
    ensures Step(Run(Step(s, Start), es), Test).phase
            == if exists e :: e in es && (e.Stop? || e.StopInLoop?) then Outside else Polling
  {
    QuitExactly(Step(s, Start), es);
    if k :| 0 <= k < |es| && (es[k].Stop? || es[k].StopInLoop?) {
      assert es[k] in es && QuitAt(es, k);
    }
  }

  /** quit() before loop() is forgotten; quit() afterwards, by any thread, ends the loop at its next test. */
  lemma {:induction false} QuitIsKept(s: Loop, es: seq<Event>)
    requires Legal(s, es) && s.quit && !s.phase.Outside?
    requires !(Start in es)
    ensures Run(s, es).quit
    ensures Test in es ==> Run(s, es).phase.Outside?
  {
    if es != [] {
      QuitIsKept(s, es[..|es| - 1]);
    }
  }

  lemma {:induction false} OutsideUntilStart(s: Loop, es: seq<Event>)
    requires s.phase.Outside? && Legal(s, es) && Start !in es
    ensures Run(s, es).phase.Outside?
  {
    if es != [] {
      assert es[|es| - 1] in es;
      OutsideUntilStart(s, es[..|es| - 1]);
    }
  }

  /** Whoever quits before loop(), in whatever run: the loop polls unless another quit comes after the start. */
  lemma QuitBeforeLoopIsForgotten(s: Loop, before: seq<Event>, after: seq<Event>)
    requires s.phase.Outside? && Legal(s, before) && Start !in before
    requires Run(s, before).phase.Outside? ==> Legal(Step(Run(s, before), Start), after)
    requires forall e :: e in after ==> e.Foreign()
    ensures Run(s, before).phase.Outside?
    ensures var t := Run(Step(Run(s, before), Start), after);
            t.phase.Testing? && (Step(t, Test).phase.Polling? <==> Stops(after) == 0)
  {
    OutsideUntilStart(s, before);
    ForeignOnly(Step(Run(s, before), Start), after);
  }

  // ---- One iteration ----

  /** What must have run by the end of the iteration: all of goal. */
  ghost predicate Owed(s: Loop, goal: seq<Functor>) {
    match s.phase
    case Outside => false
    case Testing => goal <= s.ran
    case Running(rest) => goal <= s.ran + rest
    case _ => goal <= s.ran + s.pending
  }

  /** All that waits when the loop polls has run when that iteration ends, whatever comes in between. */
  lemma {:induction false} IterationRunsAll(s: Loop, es: seq<Event>, goal: seq<Functor>)
    requires Legal(s, es) && Test !in es && Owed(s, goal)
    ensures Owed(Run(s, es), goal)
  {
    if es != [] {
      IterationRunsAll(s, es[..|es| - 1], goal);
    }
  }

  /** A batch is what the swap took: functors queued while it runs wait for the next, so it ends. */
  lemma {:induction false} BatchIsWhatWasSwapped(s: Loop, es: seq<Event>)
    requires s.phase.Swapping? && Legal(Step(s, Swap), es) && EndFunctors !in es
    ensures var t := Run(Step(s, Swap), es);
            && t.phase.Running? && t.ran + t.phase.rest == s.ran + s.pending
            && (t.phase.rest == [] ==> Step(t, EndFunctors).ran == s.ran + s.pending)
  {
    if es != [] {
      BatchIsWhatWasSwapped(s, es[..|es| - 1]);
    }
  }
}
