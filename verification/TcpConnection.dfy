/** One TCP connection in its I/O loop: what it owes to the kernel, and when it may stop writing. */
module TcpConnection {
  import opened Bytes
  import opened ConnectionPhase
  import B = Buffer

  /** What write(2) answers. */
  datatype Answer = Took(n: nat) | WouldBlock | PipeOrReset | OtherError

  /** The promise of the kernel: no more than was offered, and nothing at all after shutdown(SHUT_WR). */
  predicate Possible(a: Answer, len: nat, shut: bool) {
    && (a.Took? ==> a.n <= len)
    && (shut && len > 0 ==> a.PipeOrReset?)
  }

  /** What the connection gives its loop to run later. A Message and a ShutDown are from another thread. */
  datatype Task =
    | Message(data: seq<byte>)
    | ShutDown
    | CloseNow
    | WriteComplete
    | HighWater(len: nat)
  {
    /** Bound to the bare object: all others hold the connection alive. */
    predicate Raw() {
      Message? || ShutDown?
    }
  }

  function Taken(a: Answer): (n: nat) {
    if a.Took? then a.n else 0
  }

  class TcpConnection {
    // the number in its name, and its I/O loop
    const name: nat
    const loop: nat
    var state: Phase
    // the interest of the channel
    var reading: bool
    var writing: bool
    // the socket was shut down for writing
    var shutWrite: bool
    var highWaterMark: nat
    var wantsWriteComplete: bool
    var wantsHighWater: bool
    // the poller knows the channel
    var added: bool
    // forceCloseWithDelay timers yet to expire
    var delayed: nat
    const output: B.Buffer
    // every message taken on, what the kernel has of them, and the messages given up at a broken pipe
    ghost var accepted: seq<byte>
    ghost var sent: seq<byte>
    ghost var broken: seq<seq<byte>>
    // what the connection callback was told, UP as true, and calls of the close callback
    ghost var reports: seq<bool>
    ghost var closes: nat
    // closes that were posted and have yet to run, and calls of connectDestroyed
    ghost var closing: nat
    // another thread asked for a shutdown that has yet to run
    ghost var shutting: bool
    ghost var destroyed: nat

    ghost predicate Valid()
      reads this, output, output.buffer
    {
      match state
      case Connecting =>
        && Conserved() && !shutWrite && !shutting && !reading && !writing && !added && Unsent() == []
        && reports == [] && closes == closing == destroyed == 0
      case Connected =>
        && Conserved() && !shutWrite && !shutting && reading && added && (writing <==> Unsent() != [])
        && reports == [true] && closes == destroyed == 0
      case Disconnecting =>
        && Conserved() && reading && added && (writing <==> Unsent() != [])
        // the kernel is told of the end when it has everything
        && (shutWrite ==> Unsent() == [])
        && reports == [true] && closes == destroyed == 0
        // somebody will end it
        && (shutWrite || shutting || writing || closing > 0 || delayed > 0)
      case Disconnected =>
        && Conserved() && !reading && !writing
        && reports == [true, false] && closes <= 1 && destroyed == if added then 0 else 1
    }

    /** The kernel has what was accepted but for the buffer. */
    ghost predicate Conserved()
      reads this, output, output.buffer
    {
      output.Valid() && sent + Unsent() == accepted
    }

    ghost function Unsent(): (s: seq<byte>)
      reads this, output, output.buffer
      requires output.Valid()
    {
      output.Contents()
    }

    /** Nothing about the bytes changes. */
    twostate predicate Quiet()
      reads this, output, output.buffer
    {
      && output.buffer == old(output.buffer) && output.readerIndex == old(output.readerIndex)
      && output.writerIndex == old(output.writerIndex)
      && output.buffer[..] == old(output.buffer[..])
      && accepted == old(accepted) && sent == old(sent) && broken == old(broken)
    }

    /** Nothing about the life of the connection changes. */
    twostate predicate SameLife()
      reads this
    {
      && state == old(state) && reading == old(reading) && added == old(added) && delayed == old(delayed)
      && reports == old(reports) && closes == old(closes) && closing == old(closing)
      && destroyed == old(destroyed)
    }

    twostate predicate SameSettings()
      reads this
    {
      && highWaterMark == old(highWaterMark)
      && wantsWriteComplete == old(wantsWriteComplete) && wantsHighWater == old(wantsHighWater)
    }

    constructor (name: nat, loop: nat, highWaterMark: nat, wantsWriteComplete: bool, wantsHighWater: bool)
      ensures Valid() && state.Connecting? && accepted == [] && broken == []
      ensures this.name == name && this.loop == loop
      ensures fresh(output) && fresh(output.buffer)
    {
      state, reading, writing, shutWrite := Connecting, false, false, false;
      this.highWaterMark := highWaterMark;
      this.wantsWriteComplete, this.wantsHighWater := wantsWriteComplete, wantsHighWater;
      this.name, this.loop, added, delayed, closing, destroyed := name, loop, false, 0, 0, 0;
      shutting := false;
      output := new B.Buffer(B.INITIAL_SIZE);
      accepted, sent, broken, reports, closes := [], [], [], [], 0;
    }

    // ---- Sending ----

    /** Whether a message goes to the kernel at once, and finds the pipe broken. */
    ghost predicate Breaks(kernel: Answer)
      reads this, output, output.buffer
      requires output.Valid()
    {
      Unsent() == [] && kernel.PipeOrReset?
    }

    /** A message is kept whole and in order, or given up whole. */
    method SendInLoop(data: seq<byte>, kernel: Answer) returns (posted: seq<Task>)
      requires Valid() && !state.Connecting? && Possible(kernel, |data|, shutWrite)
      modifies this, output, output.buffer
      ensures Valid() && (output.buffer == old(output.buffer) || fresh(output.buffer))
      ensures SameLife() && shutWrite == old(shutWrite) && SameSettings() && shutting == old(shutting)
      ensures state.Disconnected? ==> Quiet() && posted == []
      ensures !state.Disconnected? ==>
        && accepted == old(accepted) + (if old(Unsent() == [] && kernel.PipeOrReset?) then [] else data)
        && broken == old(broken) + (if old(Unsent() == [] && kernel.PipeOrReset?) then [data] else [])
        && sent == old(sent) + (if old(Unsent()) == [] then data[..if kernel.Took? then kernel.n else 0] else [])
        && posted == (if wantsWriteComplete && old(Unsent()) == [] && kernel == Took(|data|)
                      then [WriteComplete] else [])
                     + (if wantsHighWater && old(|Unsent()|) < highWaterMark <= |Unsent()|
                        then [HighWater(|Unsent()|)] else [])
    {
      posted := [];
      if state.Disconnected? {
        return;
      }
      var nwrote, faultError;
      nwrote, faultError, posted := WriteDirectly(data, kernel);
      if faultError {
        broken := broken + [data];
      } else {
        accepted := accepted + data;
        AppendAssociates(sent, Unsent(), data[nwrote..]);
        if nwrote < |data| {
          var more := Keep(data[nwrote..]);
          posted := posted + more;
        }
      }
    }

    /** With nothing in the way the kernel is tried first. */
    method WriteDirectly(data: seq<byte>, kernel: Answer) returns (nwrote: nat, faultError: bool, posted: seq<Task>)
      requires output.Valid() && (writing <==> Unsent() != []) && Possible(kernel, |data|, shutWrite)
      modifies this`sent
      ensures nwrote == (if Unsent() == [] then Taken(kernel) else 0) && nwrote <= |data|
      ensures faultError <==> Breaks(kernel)
      ensures sent == old(sent) + (if Unsent() == [] then data[..nwrote] else [])
      ensures old(sent) + Unsent() + data == sent + Unsent() + data[nwrote..]
      ensures posted == if wantsWriteComplete && Unsent() == [] && kernel == Took(|data|) then [WriteComplete] else []
    {
      nwrote, faultError, posted := 0, false, [];
      if !writing && output.ReadableBytes() == 0 {
        match kernel
        case Took(n) =>
          nwrote := n;
          if n == |data| && wantsWriteComplete {
            posted := [WriteComplete];
          }
        case WouldBlock =>
        case OtherError =>
        case PipeOrReset => faultError := true;
      }
      assert data == data[..nwrote] + data[nwrote..];
      sent := sent + data[..nwrote];
    }

    /** The rest of a message waits in the buffer. */
    method Keep(rest: seq<byte>) returns (posted: seq<Task>)
      requires output.Valid() && rest != [] && (writing <==> Unsent() != [])
      modifies this`writing, output, output.buffer
      ensures output.Valid() && (output.buffer == old(output.buffer) || fresh(output.buffer))
      ensures Unsent() == old(Unsent()) + rest && writing
      ensures posted == if wantsHighWater && old(|Unsent()|) < highWaterMark <= |Unsent()|
                        then [HighWater(|Unsent()|)] else []
    {
      posted := [];
      var oldLen := output.ReadableBytes();
      if oldLen + |rest| >= highWaterMark && oldLen < highWaterMark && wantsHighWater {
        posted := [HighWater(oldLen + |rest|)];
      }
      output.Append(rest);
      if !writing {
        writing := true;
      }
    }

    /** The socket takes more: the front of the buffer goes, and with the last byte a waiting shutdown. */
    method HandleWrite(kernel: Answer) returns (posted: seq<Task>)
      requires Valid() && Possible(kernel, |Unsent()|, shutWrite)
      modifies this, output
      ensures Valid() && SameLife() && SameSettings() && shutting == old(shutting)
      ensures accepted == old(accepted) && broken == old(broken)
      ensures var n := if old(writing) && kernel.Took? then kernel.n else 0;
              sent == old(sent) + old(Unsent())[..n] && Unsent() == old(Unsent())[n..]
      ensures output.buffer == old(output.buffer)
      ensures var drained := old(writing) && Unsent() == [];
              && (shutWrite <==> old(shutWrite) || (drained && state.Disconnecting?))
              && posted == if drained && wantsWriteComplete then [WriteComplete] else []
    {
      posted := [];
      if writing {
        if kernel.Took? && kernel.n > 0 {
          ghost var front, back := output.Contents()[..kernel.n], output.Contents()[kernel.n..];
          assert output.Contents() == front + back;
          AppendAssociates(sent, front, back);
          sent := sent + front;
          output.Retrieve(kernel.n);
          if output.ReadableBytes() == 0 {
            writing := false;
            if wantsWriteComplete {
              posted := [WriteComplete];
            }
            if state == Disconnecting {
              ShutdownInLoop();
            }
          }
        }
      }
    }

    /** send() in the thread of the loop; elsewhere the message is queued. */
    method Send(data: seq<byte>, inLoopThread: bool, kernel: Answer) returns (posted: seq<Task>)
      requires Valid() && Possible(kernel, |data|, shutWrite)
      modifies this, output, output.buffer
      ensures Valid() && (output.buffer == old(output.buffer) || fresh(output.buffer))
      ensures SameLife() && shutWrite == old(shutWrite) && SameSettings() && shutting == old(shutting)
      ensures !state.Connected? || !inLoopThread ==> Quiet()
      ensures forall t :: t in posted ==> !t.CloseNow? && !t.ShutDown? && (t.Message? ==> state.Connected?)
      ensures !inLoopThread ==> posted == if state.Connected? then [Message(data)] else []
      ensures state.Connected? && inLoopThread ==>
        && accepted == old(accepted) + (if old(Unsent() == [] && kernel.PipeOrReset?) then [] else data)
        && sent == old(sent) + (if old(Unsent()) == [] then data[..if kernel.Took? then kernel.n else 0] else [])
        && broken == old(broken) + (if old(Unsent() == [] && kernel.PipeOrReset?) then [data] else [])
    {
      posted := [];
      if state == Connected {
        if inLoopThread {
          posted := SendInLoop(data, kernel);
        } else {
          posted := [Message(data)];
        }
      }
    }

    // ---- Ending ----

    method ShutdownInLoop()
      modifies this`shutWrite
      ensures shutWrite == (old(shutWrite) || !writing)
    {
      if !writing {
        shutWrite := true;
      }
    }

    /** Nothing more is accepted; the socket is shut down once all that was accepted is written. Another thread
        leaves that to the loop. */
    method Shutdown(inLoopThread: bool) returns (posted: seq<Task>)
      requires Valid()
      modifies this`state, this`shutWrite, this`shutting
      ensures Valid()
      ensures state == if old(state).Connected? then Disconnecting else old(state)
      ensures shutWrite <==> old(shutWrite) || (inLoopThread && old(state).Connected? && sent == accepted)
      ensures posted == if old(state).Connected? && !inLoopThread then [ShutDown] else []
      ensures shutting <==> old(shutting) || posted != []
    {
      posted := [];
      if state == Connected {
        state := Disconnecting;
        if inLoopThread {
          ShutdownInLoop();
        } else {
          posted, shutting := [ShutDown], true;
        }
      }
    }

    method ForceClose() returns (posted: seq<Task>)
      requires Valid()
      modifies this`state, this`closing
      ensures Valid()
      ensures var open := old(state).Connected? || old(state).Disconnecting?;
              && state == (if open then Disconnecting else old(state))
              && posted == (if open then [CloseNow] else []) && closing == old(closing) + |posted|
    {
      posted := [];
      if state == Connected || state == Disconnecting {
        state := Disconnecting;
        posted := [CloseNow];
        closing := closing + 1;
      }
    }

    method ForceCloseWithDelay()
      requires Valid()
      modifies this`state, this`delayed
      ensures Valid()
      ensures var open := old(state).Connected? || old(state).Disconnecting?;
              && state == (if open then Disconnecting else old(state))
              && delayed == old(delayed) + if open then 1 else 0
    {
      if state == Connected || state == Disconnecting {
        state := Disconnecting;
        delayed := delayed + 1;
      }
    }

    /** The timer of forceCloseWithDelay. */
    method DelayedForceClose() returns (posted: seq<Task>)
      requires Valid() && delayed > 0
      modifies this`state, this`closing, this`delayed
      ensures Valid() && delayed == old(delayed) - 1
      ensures var open := old(state).Connected? || old(state).Disconnecting?;
              && state == (if open then Disconnecting else old(state))
              && posted == (if open then [CloseNow] else []) && closing == old(closing) + |posted|
    {
      posted := ForceClose();
      delayed := delayed - 1;
    }

    /** The end: DOWN is told once, after UP, and the server once. Unsent bytes stay unsent. */
    method HandleClose()
      requires Valid() && (state.Connected? || state.Disconnecting?)
      modifies this`state, this`reading, this`writing, this`reports, this`closes
      ensures Valid() && state.Disconnected? && closes == old(closes) + 1
      ensures reports == old(reports) + [false]
    {
      state := Disconnected;
      reading, writing := false, false;
      reports := reports + [false];
      closes := closes + 1;
    }

    /** A close that was posted: it ends the connection unless that has ended before. */
    method ForceCloseInLoop()
      requires Valid() && closing > 0
      modifies this`state, this`reading, this`writing, this`reports, this`closes, this`closing
      ensures Valid() && state.Disconnected? && closing == old(closing) - 1
      ensures var open := old(state).Connected? || old(state).Disconnecting?;
              && reports == old(reports) + (if open then [false] else [])
              && closes == old(closes) + if open then 1 else 0
    {
      if state == Connected || state == Disconnecting {
        HandleClose();
      }
      closing := closing - 1;
    }

    method ConnectEstablished()
      requires Valid() && state.Connecting?
      modifies this`state, this`reading, this`added, this`reports
      ensures Valid() && state.Connected? && reading && added && reports == [true]
    {
      state := Connected;
      reading, added := true, true;
      reports := reports + [true];
    }

    /** The channel must have no interest left when it is removed, and has unless it was half closed. */
    method ConnectDestroyed() returns (removable: bool)
      requires Valid() && !state.Connecting? && added
      modifies this`state, this`reading, this`writing, this`added, this`reports, this`destroyed
      ensures removable <==> !old(state).Disconnecting?
      ensures removable ==> Valid() && !added && destroyed == old(destroyed) + 1
      ensures state == if old(state).Connected? then Disconnected else old(state)
      ensures reports == old(reports) + if old(state).Connected? then [false] else []
    {
      if state == Connected {
        state := Disconnected;
        reading, writing := false, false;
        reports := reports + [false];
      }
      removable := !reading && !writing;
      if removable {
        added := false;
        destroyed := destroyed + 1;
      }
    }

    /** The loop runs a task that the connection posted. */
    method RunTask(task: Task, kernel: Answer) returns (posted: seq<Task>)
      requires Valid() && !state.Connecting? && (task.CloseNow? ==> closing > 0)
      requires task.ShutDown? ==> !state.Connected?
      requires task.Message? ==> Possible(kernel, |task.data|, shutWrite)
      modifies this, output, output.buffer
      ensures Valid() && (output.buffer == old(output.buffer) || fresh(output.buffer))
      ensures SameSettings() && shutWrite == (old(shutWrite) || (task.ShutDown? && !writing))
      ensures shutting <==> old(shutting) && !task.ShutDown?
      ensures task.CloseNow? ==> state.Disconnected? && closing == old(closing) - 1 && posted == []
      ensures task.CloseNow? ==> closes == old(closes) + if old(state).Disconnected? then 0 else 1
      ensures !task.CloseNow? ==> SameLife() && forall t :: t in posted ==> t.WriteComplete? || t.HighWater?
      ensures !task.Message? || state.Disconnected? ==> Quiet() && posted == []
      ensures task.Message? && !state.Disconnected? ==>
        && accepted == old(accepted) + (if old(Unsent() == [] && kernel.PipeOrReset?) then [] else task.data)
        && sent == old(sent) + (if old(Unsent()) == [] then task.data[..if kernel.Took? then kernel.n else 0] else [])
        && broken == old(broken) + (if old(Unsent() == [] && kernel.PipeOrReset?) then [task.data] else [])
    {
      posted := [];
      match task
      case Message(data) => posted := SendInLoop(data, kernel);
      case ShutDown =>
        ShutdownInLoop();
        shutting := false;
      case CloseNow => ForceCloseInLoop();
      case WriteComplete =>
      case HighWater(_) =>
    }
  }
}
