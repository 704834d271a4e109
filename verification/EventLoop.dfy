/** The event loop itself: its fields, and every atomic step its thread and the others take on them. */
module EventLoop {
  import opened LoopSteps
  import opened Bytes

  /** What one poll reports besides the eventfd, as the callbacks of the active channels in order. */
  datatype Round = Round(before: seq<Functor>, after: seq<Functor>)

  class EventLoop {
    var looping: bool
    var quit: bool
    var eventHandling: bool
    var callingPendingFunctors: bool
    var pendingFunctors: seq<Functor>
    // the eventfd
    var counter: nat
    // threads between their push, or their quit, and their write
    var writers: nat
    // what other threads do each time the thread of the loop lets them
    var world: seq<seq<Event>>
    ghost var state: Loop
    ghost var trace: seq<Event>

    ghost predicate Valid()
      reads this
    {
      && Legal(Fresh, trace) && state == Run(Fresh, trace)
      && looping == !state.phase.Outside?
      && eventHandling == state.phase.Handling?
      && callingPendingFunctors == state.Calling()
      && quit == state.quit && pendingFunctors == state.pending
      && counter == state.counter && writers == state.inflight
    }

    /** The thread of the loop has queued and quit only from inside loop(). */
    ghost predicate Disciplined()
      reads this
      requires Valid()
    {
      Orderly(Fresh, trace)
    }

    /** Where the thread of the loop may run code of its user inside loop(). */
    ghost predicate InCallback()
      reads this
    {
      state.phase.Handling? || state.phase.Running?
    }

    /** The eventfd holds what was written to it since it was last read. */
    lemma EventfdCounts()
      requires Valid()
      ensures counter == Writes(Fresh, trace)
    {
      CounterExactly(Fresh, trace);
    }

    constructor (world: seq<seq<Event>>)
      ensures Valid() && Disciplined() && state == Fresh && trace == []
    {
      looping, quit, eventHandling, callingPendingFunctors := false, false, false, false;
      pendingFunctors, counter, writers := [], 0, 0;
      this.world := world;
      state, trace := Fresh, [];
    }

    /** The model takes the step that the fields are about to show. */
    ghost method Note(e: Event)
      requires Legal(Fresh, trace) && state == Run(Fresh, trace) && Enabled(state, e)
      modifies this`state, this`trace
      ensures trace == old(trace) + [e] && state == Step(old(state), e)
      ensures Legal(Fresh, trace) && state == Run(Fresh, trace)
      ensures Orderly(Fresh, trace) <==> old(Orderly(Fresh, trace)) && LoopSteps.Disciplined(old(state), e)
      ensures Own(trace) == Own(old(trace)) + if e.Foreign() then [] else [e]
    {
      OwnSnoc(trace, e);
      RunSnoc(Fresh, trace, e);
      OrderlySnoc(Fresh, trace, e);
      state, trace := Step(state, e), trace + [e];
    }

    /** The first half of queueInLoop in another thread, under the lock. */
    method Push(f: Functor)
      requires Valid()
      modifies this
      ensures Valid() && trace == old(trace) + [LoopSteps.Push(f)] && world == old(world)
      ensures Own(trace) == Own(old(trace))
      ensures old(Disciplined()) ==> Disciplined()
    {
      pendingFunctors, writers := pendingFunctors + [f], writers + 1;
      Note(LoopSteps.Push(f));
    }

    /** quit() in another thread, up to its write. */
    method Stop()
      requires Valid()
      modifies this
      ensures Valid() && trace == old(trace) + [LoopSteps.Stop] && world == old(world)
      ensures Own(trace) == Own(old(trace))
      ensures old(Disciplined()) ==> Disciplined()
    {
      quit, writers := true, writers + 1;
      Note(LoopSteps.Stop);
    }

    /** The second half of either. */
    method Wakeup()
      requires Valid() && writers > 0
      modifies this
      ensures Valid() && trace == old(trace) + [Wake] && world == old(world)
      ensures Own(trace) == Own(old(trace))
      ensures old(Disciplined()) ==> Disciplined()
    {
      counter, writers := counter + 1, writers - 1;
      Note(Wake);
    }

    /** queueInLoop in the thread of the loop: a write only while the functors of a batch are called. */
    method QueueInLoop(f: Functor)
      requires Valid() && (state.phase.Outside? || InCallback())
      modifies this
      ensures Valid() && trace == old(trace) + [LoopSteps.QueueInLoop(f)]
      ensures Own(trace) == Own(old(trace)) + [LoopSteps.QueueInLoop(f)]
      ensures state == Step(old(state), LoopSteps.QueueInLoop(f))
      ensures Disciplined() <==> old(Disciplined()) && looping
    {
      pendingFunctors := pendingFunctors + [f];
      if callingPendingFunctors {
        counter := counter + 1;
      }
      Note(LoopSteps.QueueInLoop(f));
    }

    /** quit() in the thread of the loop. */
    method StopInLoop()
      requires Valid() && (state.phase.Outside? || InCallback())
      modifies this
      ensures Valid() && trace == old(trace) + [LoopSteps.StopInLoop]
      ensures Own(trace) == Own(old(trace)) + [LoopSteps.StopInLoop]
      ensures state == Step(old(state), LoopSteps.StopInLoop)
      ensures Disciplined() <==> old(Disciplined()) && looping
    {
      quit := true;
      Note(LoopSteps.StopInLoop);
    }

    /** What a callback leaves alone, whatever it does and whoever runs beside it. */
    twostate predicate Kept()
      reads this
    {
      && state.phase == old(state.phase) && state.ran == old(state.ran)
      && old(state.pending) <= state.pending && old(trace) <= trace
      && (old(quit) ==> quit) && old(state.counter) <= state.counter
    }

    /** Other threads run for a while. */
    method Others()
      requires Valid()
      modifies this
      ensures Valid() && Kept() && Own(trace) == Own(old(trace))
      ensures old(Disciplined()) ==> Disciplined()
    {
      if world == [] {
        return;
      }
      var steps := world[0];
      world := world[1..];
      for i := 0 to |steps|
        invariant Valid() && Kept() && Own(trace) == Own(old(trace))
        invariant old(Disciplined()) ==> Disciplined()
      {
        match steps[i]
        case Push(f) => Push(f);
        case Stop => Stop();
        case Wake => if writers > 0 { Wakeup(); }
        case _ =>
      }
    }

    /** One callback, in the thread of the loop: runInLoop calls at once, so calls may nest. */
    method Call(f: Functor)
      requires Valid() && InCallback()
      modifies this
      ensures Valid() && Kept() && Own(trace) == Own(old(trace)) + ActsOf(f)
      ensures old(Disciplined()) ==> Disciplined()
      decreases f, 1
    {
      for i := 0 to |f.actions|
        invariant Valid() && Kept() && Own(trace) == Own(old(trace)) + Acts(f, i)
        invariant old(Disciplined()) ==> Disciplined()
      {
        Perform(f, i, Own(old(trace)));
      }
    }

    /** One action of a callback. */
    method Perform(f: Functor, i: nat, ghost before: seq<Event>)
      requires Valid() && InCallback() && i < |f.actions| && Own(trace) == before + Acts(f, i)
      modifies this
      ensures Valid() && Kept() && Own(trace) == before + Acts(f, i + 1)
      ensures old(Disciplined()) ==> Disciplined()
      decreases f, 0
    {
      Others();
      match f.actions[i]
      case Queue(g) => QueueInLoop(g);
      case RunNow(g) => Call(g);
      case Quit => StopInLoop();
    }

    method CallAll(fs: seq<Functor>)
      requires Valid() && InCallback()
      modifies this
      ensures Valid() && Kept() && Own(trace) == Own(old(trace)) + AllActs(fs)
      ensures old(Disciplined()) ==> Disciplined()
    {
      for i := 0 to |fs|
        invariant Valid() && Kept() && Own(trace) == Own(old(trace)) + AllActs(fs[..i])
        invariant old(Disciplined()) ==> Disciplined()
      {
        AllActsNext(Own(old(trace)), fs, i);
        Call(fs[i]);
      }
      assert fs[..|fs|] == fs;
    }

    /** The batch is all that waits at the swap, called in order; what is queued meanwhile waits. */
    method DoPendingFunctors() returns (functors: seq<Functor>)
      requires Valid() && state.phase.Swapping?
      modifies this
      ensures Valid() && state.phase.Testing?
      ensures old(state.pending) <= functors && state.ran == old(state.ran) + functors
      ensures Own(trace) == Own(old(trace)) + [Swap] + Batch(functors) + [EndFunctors]
      ensures old(Disciplined()) ==> Disciplined()
    {
      Others();
      functors, pendingFunctors, callingPendingFunctors := pendingFunctors, [], true;
      Note(Swap);
      RunBatch(functors);
      callingPendingFunctors := false;
      Note(EndFunctors);
    }

    /** The loop over a batch, outside the lock. */
    method RunBatch(functors: seq<Functor>)
      requires Valid() && state.phase == Running(functors)
      modifies this
      ensures Valid() && state.phase == Running([]) && state.ran == old(state.ran) + functors
      ensures Own(trace) == Own(old(trace)) + Batch(functors)
      ensures old(Disciplined()) ==> Disciplined()
    {
      for i := 0 to |functors|
        invariant Valid() && state.phase == Running(functors[i..])
        invariant state.ran == old(state.ran) + functors[..i]
        invariant Own(trace) == Own(old(trace)) + Batch(functors[..i])
        invariant old(Disciplined()) ==> Disciplined()
      {
        BatchNext(Own(old(trace)), functors, i);
        RunNext(functors, i);
        TakeNext(functors, i);
        AppendAssociates(old(state.ran), functors[..i], [functors[i]]);
      }
      assert functors[..|functors|] == functors;
    }

    method RunNext(functors: seq<Functor>, i: nat)
      requires Valid() && i < |functors| && state.phase == Running(functors[i..])
      modifies this
      ensures Valid() && state.phase == Running(functors[i + 1..]) && state.ran == old(state.ran) + [functors[i]]
      ensures Own(trace) == Own(old(trace)) + [RunOne] + ActsOf(functors[i])
      ensures old(Disciplined()) ==> Disciplined()
    {
      Note(RunOne);
      Call(functors[i]);
    }

    method HandleRead()
      requires Valid() && state.phase == Handling(true)
      modifies this
      ensures Valid() && state == Step(old(state), LoopSteps.HandleRead) && counter == 0
      ensures trace == old(trace) + [LoopSteps.HandleRead]
      ensures Own(trace) == Own(old(trace)) + [LoopSteps.HandleRead]
      ensures old(Disciplined()) ==> Disciplined()
    {
      counter := 0;
      Note(LoopSteps.HandleRead);
    }

    /** The active channels in turn, the eventfd among them if it was readable. */
    method HandleEvents(round: Round, wake: bool)
      requires Valid() && state.phase == Handling(wake)
      modifies this
      ensures Valid() && state.phase == Handling(false)
      ensures old(state.pending) <= state.pending && state.ran == old(state.ran)
      ensures old(Disciplined()) ==> Disciplined()
      ensures Own(trace) == Own(old(trace)) + AllActs(round.before)
                            + (if wake then [LoopSteps.HandleRead] else []) + AllActs(round.after)
    {
      CallAll(round.before);
      if wake {
        HandleRead();
      }
      CallAll(round.after);
    }

    /** One pass of the body of loop(): all that waits at the poll has run at the end of it. */
    method Iterate(round: Round) returns (wake: bool, functors: seq<Functor>)
      requires Valid() && state.phase.Polling?
      modifies this
      ensures Valid() && state.phase.Testing?
      ensures old(state.ran + state.pending) <= state.ran && (old(state.counter) > 0 ==> wake)
      ensures old(Disciplined()) ==> Disciplined() && !old(state.Stranded())
      ensures Own(trace) == Own(old(trace))
                            + [Poll] + AllActs(round.before) + (if wake then [LoopSteps.HandleRead] else [])
                            + AllActs(round.after) + [EndEvents] + [Swap] + Batch(functors) + [EndFunctors]
    {
      Others();
      wake := counter > 0;
      eventHandling := true;
      Note(Poll);
      HandleEvents(round, wake);
      eventHandling := false;
      Note(EndEvents);
      functors := DoPendingFunctors();
      if old(Disciplined()) {
        NeverStranded(Fresh, old(trace));
      }
    }

    /** loop(), for as many polls as there are rounds. */
    method Loop(rounds: seq<Round>) returns (polls: nat)
      requires Valid() && !looping
      modifies this
      ensures Valid() && polls <= |rounds|
      ensures looping ==> polls == |rounds|
      ensures !looping ==> quit
      ensures polls > 0 ==> old(state.ran + state.pending) <= state.ran
      ensures old(Disciplined()) ==> Disciplined()
    {
      ghost var goal := state.ran + state.pending;
      looping, quit := true, false;
      Note(Start);
      polls := 0;
      TestQuit();
      while looping && polls < |rounds|
        invariant Valid() && polls <= |rounds|
        invariant if looping then state.phase.Polling? else quit
        invariant if polls > 0 then goal <= state.ran else goal <= state.ran + state.pending
        invariant old(Disciplined()) ==> Disciplined()
      {
        var wake, functors := Iterate(rounds[polls]);
        polls := polls + 1;
        TestQuit();
      }
    }

    /** The head of the loop: other threads may quit until the test. */
    method TestQuit()
      requires Valid() && state.phase.Testing?
      modifies this
      ensures Valid() && (if looping then state.phase.Polling? else quit)
      ensures state.ran == old(state.ran) && old(state.pending) <= state.pending
      ensures old(Disciplined()) ==> Disciplined()
    {
      Others();
      Note(Test);
      looping := !quit;
    }
  }
}
