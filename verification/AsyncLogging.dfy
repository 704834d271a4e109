/** The asynchronous log: lines fill buffers in front, a writer thread carries them off and gives buffers back. */
module AsyncLogging {
  import opened Bytes

  type Line = seq<byte>

  const CAPACITY := 4000000
  const MAX_BATCH := 25

  /** One large buffer; what it holds ends at cur_. */
  datatype FixedBuffer = FixedBuffer(data: seq<byte>)
  {
    function Avail(): int {
      CAPACITY - |data|
    }
    /** A line that does not fit, with a byte to spare, is not copied at all. */
    function Append(line: Line): (b: FixedBuffer)
      ensures b.data == data || b.data == data + line
      ensures Avail() > 0 ==> b.Avail() > 0
    {
      if Avail() > |line| then FixedBuffer(data + line) else this
    }
    function Reset(): FixedBuffer {
      FixedBuffer([])
    }
  }

  const Empty := FixedBuffer([])

  /** What the log file is given: data of a buffer, or a notice that so many buffers were dropped. */
  datatype Entry = Notice(dropped: nat) | Data(data: seq<byte>)

  function Joined(bs: seq<FixedBuffer>): (s: seq<byte>) {
    if bs == [] then [] else Joined(bs[..|bs| - 1]) + bs[|bs| - 1].data
  }

  /** The lines shorter than a buffer: no other line can be kept. */
  function Kept(lines: seq<Line>): (s: seq<byte>) {
    if lines == [] then []
    else Kept(lines[..|lines| - 1]) + if |lines[|lines| - 1]| < CAPACITY then lines[|lines| - 1] else []
  }

  lemma KeptSnoc(lines: seq<Line>, line: Line)
    ensures Kept(lines + [line]) == Kept(lines) + if |line| < 4000000 then line else []
  {
    assert (lines + [line])[..|lines|] == lines;
  }

  lemma JoinedSnoc(bs: seq<FixedBuffer>, b: FixedBuffer)
    ensures Joined(bs + [b]) == Joined(bs) + b.data
  {
    assert (bs + [b])[..|bs|] == bs;
  }

  lemma {:induction false} JoinedAppend(a: seq<FixedBuffer>, b: seq<FixedBuffer>)
    ensures Joined(a + b) == Joined(a) + Joined(b)
  {
    if b == [] {
      assert a + b == a;
    } else {
      assert (a + b)[..|a + b| - 1] == a + b[..|b| - 1];
      JoinedAppend(a, b[..|b| - 1]);
    }
  }

  // ---- What a batch becomes in the file ----

  function Whole(batch: seq<FixedBuffer>): (es: seq<Entry>)
    ensures |es| == |batch|
  {
    seq(|batch|, i requires 0 <= i < |batch| => Data(batch[i].data))
  }

  function Rendered(batch: seq<FixedBuffer>): (es: seq<Entry>) {
    if |batch| > MAX_BATCH then [Notice(|batch| - 2)] + Whole(batch[..2]) else Whole(batch)
  }

  /** The buffers of a batch that are not written. */
  function Dropped(batch: seq<FixedBuffer>): (bs: seq<FixedBuffer>) {
    if |batch| > MAX_BATCH then batch[2..] else []
  }

  function Logged(es: seq<Entry>): (s: seq<byte>) {
    if es == [] then [] else Logged(es[..|es| - 1]) + if es[|es| - 1].Data? then es[|es| - 1].data else []
  }

  lemma {:induction false} LoggedAppend(a: seq<Entry>, b: seq<Entry>)
    ensures Logged(a + b) == Logged(a) + Logged(b)
  {
    if b == [] {
      assert a + b == a;
    } else {
      assert (a + b)[..|a + b| - 1] == a + b[..|b| - 1];
      LoggedAppend(a, b[..|b| - 1]);
    }
  }

  lemma {:induction false} LoggedWhole(batch: seq<FixedBuffer>)
    ensures Logged(Whole(batch)) == Joined(batch)
  {
    if batch != [] {
      assert Whole(batch)[..|batch| - 1] == Whole(batch[..|batch| - 1]);
      LoggedWhole(batch[..|batch| - 1]);
    }
  }

  /** A batch of up to 25 buffers is written buffer by buffer; of a longer one a notice, with the number of the
      others, and two buffers. */
  lemma RenderedExactly(batch: seq<FixedBuffer>)
    ensures |batch| <= 25 ==>
              && Dropped(batch) == [] && |Rendered(batch)| == |batch|
              && forall i :: 0 <= i < |batch| ==> Rendered(batch)[i] == Data(batch[i].data)
    ensures |batch| > 25 ==>
              && Rendered(batch) == [Notice(|batch| - 2), Data(batch[0].data), Data(batch[1].data)]
              && Dropped(batch) == batch[2..]
  {
  }

  /** A batch reaches the file whole, but for the buffers after the second when there are too many. */
  lemma RenderedLoses(batch: seq<FixedBuffer>)
    ensures Joined(batch) == Logged(Rendered(batch)) + Joined(Dropped(batch))
  {
    LoggedWhole(batch);
    if |batch| > MAX_BATCH {
      LoggedWhole(batch[..2]);
      LoggedAppend([Notice(|batch| - 2)], Whole(batch[..2]));
      assert Logged([Notice(|batch| - 2)]) == [];
      JoinedAppend(batch[..2], batch[2..]);
      assert batch == batch[..2] + batch[2..];
    }
  }

  function AllRendered(batches: seq<seq<FixedBuffer>>): (es: seq<Entry>) {
    if batches == [] then []
    else AllRendered(batches[..|batches| - 1]) + Rendered(batches[|batches| - 1])
  }

  lemma RenderedNext(batches: seq<seq<FixedBuffer>>, batch: seq<FixedBuffer>)
    ensures AllRendered(batches + [batch]) == AllRendered(batches) + Rendered(batch)
  {
    assert (batches + [batch])[..|batches|] == batches;
  }

  function Carried(batches: seq<seq<FixedBuffer>>): (s: seq<byte>) {
    if batches == [] then [] else Carried(batches[..|batches| - 1]) + Joined(batches[|batches| - 1])
  }

  lemma CarriedSnoc(batches: seq<seq<FixedBuffer>>, buffers: seq<FixedBuffer>, last: FixedBuffer)
    ensures Carried(batches + [buffers + [last]]) + Joined([]) + Empty.data
            == Carried(batches) + Joined(buffers) + last.data
  {
    assert (batches + [buffers + [last]])[..|batches|] == batches;
    JoinedSnoc(buffers, last);
    AppendAssociates(Carried(batches), Joined(buffers), last.data);
  }

  /** What the file got of each batch, followed by what it did not get. */
  function Restored(batches: seq<seq<FixedBuffer>>): (s: seq<byte>) {
    if batches == [] then []
    else
      var last := batches[|batches| - 1];
      Restored(batches[..|batches| - 1]) + (Logged(Rendered(last)) + Joined(Dropped(last)))
  }

  /** So nothing else is lost, and nothing is out of place. */
  lemma {:induction false} RestoredIsCarried(batches: seq<seq<FixedBuffer>>)
    ensures Restored(batches) == Carried(batches)
  {
    if batches != [] {
      RestoredIsCarried(batches[..|batches| - 1]);
      RenderedLoses(batches[|batches| - 1]);
    }
  }

  /** While no batch is too long the file holds every byte that was carried off, in order. */
  lemma {:induction false} NothingLost(batches: seq<seq<FixedBuffer>>)
    requires forall b :: b in batches ==> |b| <= 25
    ensures Logged(AllRendered(batches)) == Carried(batches)
  {
    if batches != [] {
      var init, last := batches[..|batches| - 1], batches[|batches| - 1];
      assert last in batches;
      NothingLost(init);
      LoggedAppend(AllRendered(init), Rendered(last));
      RenderedLoses(last);
    }
  }

  /** What other threads append while the writer waits for a full buffer, and while it writes. */
  datatype Round = Round(waiting: seq<Line>, writing: seq<Line>)

  class AsyncLogging {
    var running: bool
    var currentBuffer: FixedBuffer
    var nextBuffer: Option<FixedBuffer>
    var buffers: seq<FixedBuffer>
    var output: seq<Entry>
    // every line appended, and every batch the writer took
    ghost var lines: seq<Line>
    ghost var batches: seq<seq<FixedBuffer>>

    /** What the lock protects. A missing spare buffer means that a full one waits. */
    ghost predicate Valid()
      reads this
    {
      && currentBuffer.Avail() > 0
      && (nextBuffer.Some? ==> nextBuffer.value == Empty)
      && (nextBuffer.None? ==> buffers != [])
      && Carried(batches) + Joined(buffers) + currentBuffer.data == Kept(lines)
    }

    constructor ()
      ensures Valid() && !running && output == [] && lines == [] && batches == []
    {
      running, currentBuffer, nextBuffer, buffers, output := false, Empty, Some(Empty), [], [];
      lines, batches := [], [];
    }

    method Append(line: Line)
      requires Valid()
      modifies this`currentBuffer, this`nextBuffer, this`buffers, this`lines
      ensures Valid() && lines == old(lines) + [line]
      ensures buffers == old(buffers) + if old(currentBuffer).Avail() > |line| then [] else [old(currentBuffer)]
    {
      if currentBuffer.Avail() > |line| {
        Copy(line);
      } else {
        Advance();
        Copy(line);
      }
    }

    /** The current buffer is full: the spare one takes its place. */
    method Advance()
      requires Valid()
      modifies this`currentBuffer, this`nextBuffer, this`buffers
      ensures Valid() && currentBuffer == Empty && buffers == old(buffers) + [old(currentBuffer)]
    {
      JoinedSnoc(buffers, currentBuffer);
      AppendAssociates(Carried(batches), Joined(buffers), currentBuffer.data);
      buffers := buffers + [currentBuffer];
      match nextBuffer
      case Some(next) => currentBuffer := next; nextBuffer := None;
      case None => currentBuffer := Empty;
    }

    method Copy(line: Line)
      requires Valid() && (currentBuffer.Avail() > |line| || currentBuffer == Empty)
      modifies this`currentBuffer, this`lines
      ensures Valid() && lines == old(lines) + [line]
    {
      ghost var before, data := Carried(batches) + Joined(buffers), currentBuffer.data;
      KeptSnoc(lines, line);
      currentBuffer := currentBuffer.Append(line);
      lines := lines + [line];
      if |line| < CAPACITY {
        AppendAssociates(before, data, line);
      }
    }

    method AppendAll(more: seq<Line>)
      requires Valid()
      modifies this`currentBuffer, this`nextBuffer, this`buffers, this`lines
      ensures Valid() && lines == old(lines) + more
    {
      for i := 0 to |more|
        invariant Valid() && lines == old(lines) + more[..i]
      {
        TakeNext(more, i);
        AppendAssociates(old(lines), more[..i], [more[i]]);
        Append(more[i]);
      }
      assert more[..|more|] == more;
    }

    /** Under the lock: the filled buffers and the current one are exchanged for the spare ones. */
    method TakeBatch(new1: FixedBuffer, new2: FixedBuffer)
      returns (buffersToWrite: seq<FixedBuffer>, left2: Option<FixedBuffer>)
      requires Valid() && new1 == Empty && new2 == Empty
      modifies this`currentBuffer, this`nextBuffer, this`buffers, this`batches
      ensures Valid() && buffers == [] && currentBuffer == Empty && nextBuffer == Some(Empty)
      ensures buffersToWrite == old(buffers) + [old(currentBuffer)] && batches == old(batches) + [buffersToWrite]
      ensures left2 == if old(nextBuffer).None? then None else Some(new2)
      ensures left2.None? ==> |buffersToWrite| >= 2
    {
      CarriedSnoc(batches, buffers, currentBuffer);
      buffers := buffers + [currentBuffer];
      currentBuffer := new1;
      buffersToWrite, buffers := buffers, [];
      left2 := Some(new2);
      if nextBuffer.None? {
        nextBuffer, left2 := left2, None;
      }
      batches := batches + [buffersToWrite];
    }

    /** The file gets the batch; what is left of it has a buffer for each spare one that was spent. */
    method Write(batch: seq<FixedBuffer>) returns (left: seq<FixedBuffer>)
      requires batch != []
      modifies this`output
      ensures output == old(output) + Rendered(batch)
      ensures |left| == if |batch| > 2 then 2 else |batch|
    {
      var buffersToWrite := batch;
      if |buffersToWrite| > MAX_BATCH {
        output := output + [Notice(|buffersToWrite| - 2)];
        buffersToWrite := buffersToWrite[..2];
      }
      ghost var start := output;
      for i := 0 to |buffersToWrite|
        invariant output == start + Whole(buffersToWrite)[..i]
      {
        TakeNext(Whole(buffersToWrite), i);
        AppendAssociates(start, Whole(buffersToWrite)[..i], [Data(buffersToWrite[i].data)]);
        output := output + [Data(buffersToWrite[i].data)];
      }
      assert Whole(buffersToWrite)[..|buffersToWrite|] == Whole(buffersToWrite);
      left := if |buffersToWrite| > 2 then buffersToWrite[..2] else buffersToWrite;
    }

    /** One turn of the writer, from lock to flush: both spare buffers are back and empty at its end. */
    method Turn(round: Round, new1: Option<FixedBuffer>, new2: Option<FixedBuffer>)
      returns (back1: Option<FixedBuffer>, back2: Option<FixedBuffer>, ghost batch: seq<FixedBuffer>)
      requires Valid() && new1 == new2 == Some(Empty)
      modifies this`currentBuffer, this`nextBuffer, this`buffers, this`batches, this`lines, this`output
      ensures Valid() && back1 == back2 == Some(Empty)
      ensures lines == old(lines) + round.waiting + round.writing
      ensures batches == old(batches) + [batch] && output == old(output) + Rendered(batch)
    {
      AppendAll(round.waiting);
      var buffersToWrite;
      back1 := None;
      buffersToWrite, back2 := TakeBatch(new1.value, new2.value);
      batch := buffersToWrite;
      AppendAll(round.writing);
      buffersToWrite := Write(buffersToWrite);
      back1, back2 := GiveBack(buffersToWrite, back1, back2);
    }

    /** A spare buffer that was spent is replaced by one of those written, emptied. */
    method GiveBack(left: seq<FixedBuffer>, left1: Option<FixedBuffer>, left2: Option<FixedBuffer>)
      returns (back1: Option<FixedBuffer>, back2: Option<FixedBuffer>)
      requires left1.None? && |left| >= if left2.None? then 2 else 1
      ensures back1 == Some(Empty) && back2 == if left2.None? then Some(Empty) else left2
    {
      var buffersToWrite := left;
      back1, back2 := left1, left2;
      if back1.None? {
        back1 := Some(buffersToWrite[|buffersToWrite| - 1].Reset());
        buffersToWrite := buffersToWrite[..|buffersToWrite| - 1];
      }
      if back2.None? {
        back2 := Some(buffersToWrite[|buffersToWrite| - 1].Reset());
        buffersToWrite := buffersToWrite[..|buffersToWrite| - 1];
      }
    }

    /**
     * The writer thread, for as many turns as there are rounds. At the end all that was appended is in
     * the file, but for the buffers dropped from batches that were too long, and for what still waits.
     */
    method ThreadFunc(rounds: seq<Round>)
      requires Valid() && running && output == [] && batches == []
      modifies this
      ensures Valid() && !running
      ensures output == AllRendered(batches) && |batches| == |rounds|
      ensures lines == old(lines) + AllLines(rounds)
      ensures Restored(batches) + Joined(buffers) + currentBuffer.data == Kept(lines)
      ensures (forall b :: b in batches ==> |b| <= 25) ==>
                Logged(output) + Joined(buffers) + currentBuffer.data == Kept(lines)
    {
      var newBuffer1: Option<FixedBuffer>, newBuffer2: Option<FixedBuffer> := Some(Empty), Some(Empty);
      var n := 0;
      running := n < |rounds|;
      while running
        invariant Valid() && n <= |rounds| && running == (n < |rounds|)
        invariant newBuffer1 == newBuffer2 == Some(Empty)
        invariant output == AllRendered(batches) && |batches| == n
        invariant lines == old(lines) + AllLines(rounds[..n])
        decreases |rounds| - n
      {
        AllLinesNext(old(lines), rounds, n);
        ghost var batch, before := [], batches;
        newBuffer1, newBuffer2, batch := Turn(rounds[n], newBuffer1, newBuffer2);
        RenderedNext(before, batch);
        n := n + 1;
        running := n < |rounds|;
      }
      assert rounds[..n] == rounds;
      RestoredIsCarried(batches);
      if forall b :: b in batches ==> |b| <= 25 {
        NothingLost(batches);
      }
    }
  }

  function AllLines(rounds: seq<Round>): seq<Line> {
    if rounds == [] then []
    else AllLines(rounds[..|rounds| - 1]) + rounds[|rounds| - 1].waiting + rounds[|rounds| - 1].writing
  }

  lemma AllLinesNext(before: seq<Line>, rounds: seq<Round>, n: nat)
    requires n < |rounds|
    ensures before + AllLines(rounds[..n + 1])
            == before + AllLines(rounds[..n]) + rounds[n].waiting + rounds[n].writing
  {
    assert rounds[..n + 1][..n] == rounds[..n];
  }
}
