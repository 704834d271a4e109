/** The reader that cuts a file of H.264 NAL units, each after a start code, into access units. */
module H264File {
  import opened Bytes

  // ---- Start codes ----

  /** The length of the start code at a position, 0 if there is none. */
  function CodeAt(d: seq<byte>, i: nat): (n: nat)
    requires i + 3 < |d|
    ensures n == 0 || n == 3 || n == 4
  {
    if d[i] == 0 && d[i + 1] == 0 && d[i + 2] == 1 then 3
    else if d[i] == 0 && d[i + 1] == 0 && d[i + 2] == 0 && d[i + 3] == 1 then 4
    else 0
  }

  /** A slice, of an IDR picture or not, that is the first of its picture. */
  predicate FirstSlice(d: seq<byte>, i: nat)
    requires i + 5 < |d|
  {
    var n := CodeAt(d, i);
    n > 0 && (d[i + n] % 32 == 5 || d[i + n] % 32 == 1) && d[i + n + 1] >= 128
  }

  /** What begins the next access unit: such a slice, or SEI, SPS, PPS before it. */
  predicate NextUnit(d: seq<byte>, i: nat)
    requires i + 5 < |d|
  {
    var n := CodeAt(d, i);
    n > 0 && (6 <= d[i + n] % 32 <= 8 || FirstSlice(d, i))
  }

  /** Positions where the scans look. */
  predicate Seen(d: seq<byte>, i: nat) {
    i + 5 < |d|
  }

  ghost predicate StartsAt(d: seq<byte>, s: nat) {
    Seen(d, s) && FirstSlice(d, s) && forall k: nat | k < s :: !FirstSlice(d, k)
  }

  /** The slice at s opens the data, and the next unit after it begins at e. */
  ghost predicate CutAt(d: seq<byte>, s: nat, e: nat) {
    && StartsAt(d, s) && Seen(d, e) && s + 4 <= e && NextUnit(d, e)
    && forall k: nat | s + 4 <= k < e :: !NextUnit(d, k)
  }

  /** The slice at s opens the data, and there is no next unit. */
  ghost predicate LastAt(d: seq<byte>, s: nat) {
    StartsAt(d, s) && forall k: nat | s + 4 <= k && Seen(d, k) :: !NextUnit(d, k)
  }

  ghost predicate Cuts(d: seq<byte>, e: nat) {
    exists s: nat :: CutAt(d, s, e)
  }

  ghost predicate Ends(d: seq<byte>) {
    exists s: nat :: LastAt(d, s)
  }

  ghost predicate NoSlice(d: seq<byte>) {
    forall k: nat | Seen(d, k) :: !FirstSlice(d, k)
  }

  lemma OneOutcome(d: seq<byte>)
    ensures !(NoSlice(d) && Ends(d))
    ensures forall e: nat :: Cuts(d, e) ==> !NoSlice(d) && !Ends(d)
  {
    forall e: nat, s: nat, t: nat | CutAt(d, s, e) && LastAt(d, t) ensures false {
    }
  }

  /** bytesRead - 5 in the unsigned arithmetic of the scans. */
  function Limit(n: nat): nat {
    if n < 5 then n + 0x1_0000_0000_0000_0000 - 5 else n - 5
  }

  function Min(a: nat, b: nat): nat {
    if a <= b then a else b
  }

  /** What a read finds at a position. */
  function Window(file: seq<byte>, at: nat, bufSize: nat): (d: seq<byte>)
    requires at <= |file|
    ensures |d| == Min(bufSize, |file| - at)
  {
    file[at..at + Min(bufSize, |file| - at)]
  }

  /** With these sizes no scan leaves what was read. */
  predicate Fit(len: nat, bufSize: nat) {
    len == 0 || bufSize == 0 || (len >= 5 && bufSize >= 5)
  }

  /** Where a read can find the file: at its start, or where another unit begins. */
  predicate Reachable(pos: nat, len: nat) {
    pos == 0 || pos + 6 <= len
  }

  lemma ScansStayInsideExactly(len: nat, bufSize: nat)
    ensures Fit(len, bufSize)
            <==> forall pos: nat | Reachable(pos, len) && pos <= len ::
                   var n := Min(bufSize, len - pos); n == 0 || Limit(n) <= n
  {
    if !Fit(len, bufSize) {
      assert Reachable(0, len) && Limit(Min(bufSize, len)) > Min(bufSize, len);
    }
  }

  /** A file of one access unit, the shortest there is: no read of it finds where another begins, so the
      first gives up. */
  lemma OneUnitOnly()
    ensures Ends([0, 0, 1, 5, 128, 0])
  {
    var d: seq<byte> := [0, 0, 1, 5, 128, 0];
    assert CodeAt(d, 0) == 3 && d[3] % 32 == 5;
    assert LastAt(d, 0);
  }

  // ---- What a pass finds ----

  /** Where the chunks of a pass, concatenated, end in the file. */
  function Behind(chunks: seq<seq<byte>>): nat {
    |Flatten(chunks)|
  }

  /** The next chunk after some others is cut by a read there. */
  ghost predicate NextCut(file: seq<byte>, bufSize: nat, chunks: seq<seq<byte>>, chunk: seq<byte>) {
    && Behind(chunks) <= |file|
    && Cuts(Window(file, Behind(chunks), bufSize), |chunk|)
    && chunk == Window(file, Behind(chunks), bufSize)[..|chunk|]
  }

  ghost predicate AllCut(file: seq<byte>, bufSize: nat, chunks: seq<seq<byte>>) {
    chunks == [] || (var n := |chunks| - 1;
                     AllCut(file, bufSize, chunks[..n]) && NextCut(file, bufSize, chunks[..n], chunks[n]))
  }

  /** All chunks are cut, but for the last one of a pass that ended. */
  ghost predicate Pass(file: seq<byte>, bufSize: nat, chunks: seq<seq<byte>>, ended: bool) {
    if ended then
      && chunks != []
      && var n := |chunks| - 1;
      && n > 0 && AllCut(file, bufSize, chunks[..n]) && Behind(chunks[..n]) <= |file|
      && chunks[n] == Window(file, Behind(chunks[..n]), bufSize) && Ends(chunks[n])
    else
      && AllCut(file, bufSize, chunks) && Behind(chunks) <= |file|
      && var d := Window(file, Behind(chunks), bufSize); NoSlice(d) || (chunks == [] && Ends(d))
  }

  lemma NextOfPass(file: seq<byte>, bufSize: nat, chunks: seq<seq<byte>>, a: nat, chunk: seq<byte>)
    requires AllCut(file, bufSize, chunks) && a <= |file| && Flatten(chunks) == file[..a]
    requires |chunk| <= |Window(file, a, bufSize)| && Cuts(Window(file, a, bufSize), |chunk|)
    requires chunk == file[a..a + |chunk|]
    ensures AllCut(file, bufSize, chunks + [chunk])
  {
    WindowPart(file, a, bufSize, |chunk|);
    CutNext(file, bufSize, chunks, chunk);
  }

  lemma CutNext(file: seq<byte>, bufSize: nat, chunks: seq<seq<byte>>, chunk: seq<byte>)
    requires AllCut(file, bufSize, chunks) && NextCut(file, bufSize, chunks, chunk)
    ensures AllCut(file, bufSize, chunks + [chunk])
  {
    assert (chunks + [chunk])[..|chunks|] == chunks;
  }

  lemma WindowPart(file: seq<byte>, at: nat, bufSize: nat, n: nat)
    requires at <= |file| && n <= |Window(file, at, bufSize)|
    ensures Window(file, at, bufSize)[..n] == file[at..at + n]
    ensures n == |Window(file, at, bufSize)| ==> Window(file, at, bufSize) == file[at..at + n]
  {
  }

  lemma PassEnds(file: seq<byte>, bufSize: nat, chunks: seq<seq<byte>>, d: seq<byte>)
    requires AllCut(file, bufSize, chunks) && chunks != [] && Behind(chunks) <= |file|
    requires d == Window(file, Behind(chunks), bufSize) && Ends(d)
    ensures Pass(file, bufSize, chunks + [d], true)
  {
    assert (chunks + [d])[..|chunks|] == chunks;
  }

  ghost predicate Counts(file: seq<byte>, count: nat, bytesUsed: nat, units: seq<seq<byte>>) {
    && count == |units| && bytesUsed <= |file|
    && Flatten(units) == file[..bytesUsed]
    && (count == 0 <==> bytesUsed == 0)
    && (count > 0 ==> Seen(file, bytesUsed) && NextUnit(file, bytesUsed))
    && Begin(units)
  }

  /** The counters move past a chunk. */
  lemma NextCounts(file: seq<byte>, bufSize: nat, count: nat, a: nat, units: seq<seq<byte>>, i: nat)
    requires Counts(file, count, a, units)
    requires var d := Window(file, a, bufSize); Cuts(d, i) && Seen(d, i) && i >= 4 && NextUnit(d, i)
    ensures a + i <= |file| && Window(file, a, bufSize)[..i] == file[a..a + i]
    ensures Counts(file, count + 1, a + i, units + [file[a..a + i]])
  {
    NextPiece(file, units, a, |Window(file, a, bufSize)|, i);
  }

  class H264File {
    const buffer: array<byte>
    const bufSize: nat
    // the file behind _fp, and the position in it
    const file: seq<byte>
    var isOpen: bool
    var pos: nat
    var bytesUsed: nat
    var count: nat
    // the parts of the file read in this pass
    ghost var units: seq<seq<byte>>

    ghost predicate Valid()
      reads this
    {
      && buffer.Length == bufSize && Fit(|file|, bufSize) && pos == bytesUsed && Counted()
      && (!isOpen ==> bytesUsed == 0)
    }

    /** The counters tell where the units of this pass end, and each unit begins where the last ended. */
    ghost predicate Counted()
      reads this`count, this`bytesUsed, this`units
    {
      Counts(file, count, bytesUsed, units)
    }

    constructor (bufSize: nat, file: seq<byte>)
      requires Fit(|file|, bufSize)
      ensures Valid() && isOpen && bytesUsed == 0 && units == []
      ensures this.file == file && this.bufSize == bufSize && fresh(buffer)
    {
      this.bufSize, this.file := bufSize, file;
      buffer := new byte[bufSize];
      isOpen, pos, bytesUsed, count, units := true, 0, 0, 0, [];
    }

    method Close()
      modifies this`isOpen, this`pos, this`count, this`bytesUsed, this`units
      ensures !isOpen
      ensures old(isOpen) ==> count == 0 && bytesUsed == 0 && units == [] && pos == 0
    {
      if isOpen {
        isOpen, pos, count, bytesUsed, units := false, 0, 0, 0, [];
      }
    }

    /** fread: as much as there is, up to the size of the buffer. */
    method Read() returns (n: nat)
      requires pos <= |file| && buffer.Length == bufSize
      modifies this`pos, buffer
      ensures n == Min(bufSize, |file| - old(pos)) && pos == old(pos) + n
      ensures buffer[..n] == file[old(pos)..pos]
    {
      var from := pos;
      n := Min(bufSize, |file| - from);
      for i := 0 to n
        invariant buffer[..i] == file[from..from + i]
      {
        buffer[i] := file[from + i];
      }
      pos := from + n;
    }

    /** The first scan. */
    method FindStart(n: nat) returns (found: bool, i: nat)
      requires 5 <= n <= buffer.Length
      ensures found ==> i >= 4 && StartsAt(buffer[..n], i - 4)
      ensures !found ==> NoSlice(buffer[..n])
    {
      ghost var d := buffer[..n];
      i := 0;
      while i < Limit(n)
        invariant i <= Limit(n)
        invariant forall k: nat | k < i :: !FirstSlice(d, k)
      {
        var startCode := 0;
        if buffer[i] == 0 && buffer[i + 1] == 0 && buffer[i + 2] == 1 {
          startCode := 3;
        } else if buffer[i] == 0 && buffer[i + 1] == 0 && buffer[i + 2] == 0 && buffer[i + 3] == 1 {
          startCode := 4;
        }
        if startCode > 0 {
          var nal, next := buffer[i + startCode], buffer[i + startCode + 1];
          if (nal % 32 == 5 || nal % 32 == 1) && next >= 128 {
            return true, i + 4;
          }
        }
        i := i + 1;
      }
      found := false;
    }

    /** The second scan, from where the first stopped. */
    method FindEnd(n: nat, from: nat) returns (found: bool, i: nat)
      requires 5 <= n <= buffer.Length
      ensures found ==> Seen(buffer[..n], i) && from <= i && NextUnit(buffer[..n], i)
      ensures found ==> forall k: nat | from <= k < i :: !NextUnit(buffer[..n], k)
      ensures !found ==> forall k: nat | from <= k && Seen(buffer[..n], k) :: !NextUnit(buffer[..n], k)
    {
      ghost var d := buffer[..n];
      i := from;
      while i < Limit(n)
        invariant from <= i
        invariant forall k: nat | from <= k < i && Seen(d, k) :: !NextUnit(d, k)
      {
        var startCode := 0;
        if buffer[i] == 0 && buffer[i + 1] == 0 && buffer[i + 2] == 1 {
          startCode := 3;
        } else if buffer[i] == 0 && buffer[i + 1] == 0 && buffer[i + 2] == 0 && buffer[i + 3] == 1 {
          startCode := 4;
        }
        if startCode > 0 {
          var nal, next := buffer[i + startCode], buffer[i + startCode + 1];
          if nal % 32 == 6 || nal % 32 == 7 || nal % 32 == 8
             || ((nal % 32 == 5 || nal % 32 == 1) && next >= 128) {
            return true, i;
          }
        }
        i := i + 1;
      }
      found := false;
    }

    /** Both scans. */
    method Scan(n: nat) returns (findStart: bool, findEnd: bool, i: nat)
      requires 5 <= n <= buffer.Length
      ensures findEnd ==> findStart && Cuts(buffer[..n], i)
      ensures findEnd ==> 4 <= i && Seen(buffer[..n], i) && NextUnit(buffer[..n], i)
      ensures findStart && !findEnd <==> Ends(buffer[..n])
      ensures !findStart <==> NoSlice(buffer[..n])
    {
      OneOutcome(buffer[..n]);
      findStart, i := FindStart(n);
      findEnd := false;
      if findStart {
        ghost var s := i - 4;
        findEnd, i := FindEnd(n, i);
        assert if findEnd then CutAt(buffer[..n], s, i) else LastAt(buffer[..n], s);
      }
    }

    /**
     * One chunk: up to the next unit, or at the end of the file all that is left. The chunks of a pass
     * are the file when what is left fits in the buffer, and then the reader starts again.
     */
    method ReadFrame(outSize: nat, wasEnd: bool) returns (size: int, out: seq<byte>, endOfFrame: bool)
      requires Valid()
      modifies this, buffer
      ensures Valid() && isOpen == (size != -1) && size >= -1
      ensures size == -1 ==> bytesUsed == 0
      ensures var d := Window(file, old(bytesUsed), bufSize);
              size == -1 <==> (!old(isOpen) || NoSlice(d) || (old(count) == 0 && Ends(d)))
      ensures var d := Window(file, old(bytesUsed), bufSize); size != -1 && !endOfFrame ==>
        && old(bytesUsed) < bytesUsed <= old(bytesUsed) + |d|
        && Cuts(d, bytesUsed - old(bytesUsed)) && units == old(units) + [file[old(bytesUsed)..bytesUsed]]
        && size == Min(bytesUsed - old(bytesUsed), outSize) && out == file[old(bytesUsed)..old(bytesUsed) + size]
      ensures var d := Window(file, old(bytesUsed), bufSize); size != -1 && endOfFrame ==>
        && old(count) > 0 && Ends(d) && bytesUsed == 0 && units == []
        && size == Min(|d|, outSize) && out == file[old(bytesUsed)..old(bytesUsed) + size]
        && (Flatten(old(units) + [d]) == file <==> |file| - old(bytesUsed) <= bufSize)
    {
      endOfFrame, out := wasEnd, [];
      if !isOpen {
        return -1, out, endOfFrame;
      }
      ghost var d := Window(file, bytesUsed, bufSize);
      WholeFile(file, bytesUsed, bufSize, units);
      var bytesRead := Fetch();
      if bytesRead == 0 {
        Close();
        return -1, out, endOfFrame;
      }
      size, out, endOfFrame := ReadOn(bytesRead, outSize, d);
    }

    /** The rest of it, once something was read. */
    method ReadOn(bytesRead: nat, outSize: nat, ghost d: seq<byte>)
        returns (size: int, out: seq<byte>, endOfFrame: bool)
      requires isOpen && Counted() && d == Window(file, bytesUsed, bufSize)
      requires buffer.Length == bufSize && Fit(|file|, bufSize)
      requires 5 <= bytesRead == |d| && buffer[..bytesRead] == d
      modifies this`isOpen, this`count, this`bytesUsed, this`units, this`pos
      ensures Valid() && isOpen == (size != -1) && size >= -1
      ensures size == -1 <==> NoSlice(d) || (old(count) == 0 && Ends(d))
      ensures size != -1 && !endOfFrame ==>
        && old(bytesUsed) < bytesUsed <= old(bytesUsed) + |d|
        && Cuts(d, bytesUsed - old(bytesUsed)) && units == old(units) + [file[old(bytesUsed)..bytesUsed]]
        && size == Min(bytesUsed - old(bytesUsed), outSize) && out == file[old(bytesUsed)..old(bytesUsed) + size]
      ensures size != -1 && endOfFrame ==>
        && old(count) > 0 && Ends(d) && bytesUsed == 0 && units == []
        && size == Min(|d|, outSize) && out == file[old(bytesUsed)..old(bytesUsed) + size]
    {
      var found, i;
      found, endOfFrame, i := FindChunk(bytesRead);
      out := [];
      if !found {
        Close();
        return -1, out, endOfFrame;
      }
      size := Min(i, outSize);
      out := Copy(size, bytesRead);
      WindowPart(file, bytesUsed, bufSize, size);
      Next(i, endOfFrame, d);
    }

    method Copy(size: nat, n: nat) returns (out: seq<byte>)
      requires size <= n <= buffer.Length
      ensures out == buffer[..n][..size]
    {
      out := buffer[..size];
    }

    /** How far the chunk reaches, if there is one; the rest of the file is one only after another. */
    method FindChunk(n: nat) returns (found: bool, flag: bool, i: nat)
      requires 5 <= n <= buffer.Length
      ensures found <==> !NoSlice(buffer[..n]) && (count == 0 ==> !Ends(buffer[..n]))
      ensures found && !flag ==> Cuts(buffer[..n], i) && 4 <= i && Seen(buffer[..n], i) && NextUnit(buffer[..n], i)
      ensures flag ==> found && count > 0 && Ends(buffer[..n]) && i == n
    {
      var findStart, findEnd;
      findStart, findEnd, i := Scan(n);
      flag := false;
      if findStart && !findEnd && count > 0 {
        flag, findEnd := true, true;
        i := n;
      }
      found := findStart && findEnd;
    }

    /** After a chunk the reader stands behind it, or after the last of a pass at the start. */
    method Next(i: nat, flag: bool, ghost d: seq<byte>)
      requires isOpen && Counted() && d == Window(file, bytesUsed, bufSize)
      requires buffer.Length == bufSize && Fit(|file|, bufSize)
      requires !flag ==> Seen(d, i) && i >= 4 && NextUnit(d, i) && Cuts(d, i)
      modifies this`count, this`bytesUsed, this`units, this`pos
      ensures Valid()
      ensures flag ==> units == [] && bytesUsed == 0
      ensures !flag ==> bytesUsed == old(bytesUsed) + i && units == old(units) + [file[old(bytesUsed)..bytesUsed]]
    {
      if !flag {
        NextCounts(file, bufSize, count, bytesUsed, units, i);
        units := units + [file[bytesUsed..bytesUsed + i]];
        count, bytesUsed := count + 1, bytesUsed + i;
      } else {
        count, bytesUsed, units := 0, 0, [];
      }
      pos := bytesUsed;
    }

    /**
     * A whole pass into a buffer that is large enough. Each chunk after the first begins with a start
     * code; the chunks are the file if the last of them found room, and then the next pass can begin.
     */
    method ReadPass(outSize: nat) returns (chunks: seq<seq<byte>>, ended: bool)
      requires Valid() && isOpen && bytesUsed == 0 && outSize >= bufSize
      modifies this, buffer
      ensures Valid() && isOpen == ended && bytesUsed == 0
      ensures Pass(file, bufSize, chunks, ended) && Kept(file, bufSize, chunks, ended)
    {
      chunks := [];
      while true
        invariant Valid() && isOpen && chunks == units && AllCut(file, bufSize, chunks)
        decreases |file| - bytesUsed
      {
        ghost var before, n := bytesUsed, count;
        var size, out;
        size, out, ended := NextChunk(outSize);
        if size == -1 {
          GivesUp(file, bufSize, n, before, chunks);
          return chunks, false;
        }
        if ended {
          LastChunk(file, bufSize, n, before, chunks);
          return chunks + [out], true;
        }
        NextOfPass(file, bufSize, chunks, before, out);
        chunks := chunks + [out];
      }
    }

    /** One read of a pass. */
    method NextChunk(outSize: nat) returns (size: int, out: seq<byte>, ended: bool)
      requires Valid() && isOpen && outSize >= bufSize
      modifies this, buffer
      ensures Valid() && isOpen == (size != -1) && (size == -1 ==> bytesUsed == 0)
      ensures var d := Window(file, old(bytesUsed), bufSize);
              && (size == -1 ==> NoSlice(d) || (old(count) == 0 && Ends(d)))
              && (size != -1 && ended ==> old(count) > 0 && out == d && Ends(d) && bytesUsed == 0)
      ensures size != -1 && !ended ==>
        && old(bytesUsed) < bytesUsed <= |file| && out == file[old(bytesUsed)..bytesUsed]
        && units == old(units) + [out] && Cuts(Window(file, old(bytesUsed), bufSize), |out|)
    {
      ghost var before := bytesUsed;
      size, out, ended := ReadFrame(outSize, false);
      if size != -1 {
        WindowPart(file, before, bufSize, size);
        assert size == if ended then |Window(file, before, bufSize)| else bytesUsed - before;
      }
    }

    /** The next read, or at the end of the file the first again. */
    method Fetch() returns (bytesRead: nat)
      requires Valid()
      modifies this`pos, this`count, this`bytesUsed, this`units, buffer
      ensures Counted() && bytesRead == |Window(file, old(bytesUsed), bufSize)| && (bytesRead > 0 ==> bytesRead >= 5)
      ensures bytesRead > 0 ==> buffer[..bytesRead] == Window(file, old(bytesUsed), bufSize)
      ensures bytesRead > 0 ==> units == old(units) && bytesUsed == old(bytesUsed)
    {
      bytesRead := Read();
      if bytesRead == 0 {
        pos, count, bytesUsed, units := 0, 0, 0, [];
        bytesRead := Read();
      }
    }
  }

  /** A piece of what was read at a position continues the pieces before it. */
  lemma NextPiece(file: seq<byte>, units: seq<seq<byte>>, a: nat, n: nat, i: nat)
    requires a + n <= |file| && Flatten(units) == file[..a] && 4 <= i && Seen(file[a..a + n], i)
    ensures file[a..a + n][..i] == file[a..a + i]
    ensures Flatten(units + [file[a..a + i]]) == file[..a + i]
    ensures NextUnit(file[a..a + n], i) ==> NextUnit(file, a + i)
    ensures CodeAt(file[a..a + i], 0) == CodeAt(file, a)
  {
    FlattenAppend(units, [file[a..a + i]]);
    FlattenOne(file[a..a + i]);
    SameUnit(file, a, n, i);
    SameCode(file, a, i, 0);
  }

  lemma SameCode(file: seq<byte>, a: nat, n: nat, i: nat)
    requires a + n <= |file| && i + 3 < n
    ensures CodeAt(file[a..a + n], i) == CodeAt(file, a + i)
  {
    var d := file[a..a + n];
    assert d[i] == file[a + i] && d[i + 1] == file[a + i + 1] && d[i + 2] == file[a + i + 2]
           && d[i + 3] == file[a + i + 3];
  }

  lemma SameUnit(file: seq<byte>, a: nat, n: nat, i: nat)
    requires a + n <= |file| && i + 5 < n
    ensures NextUnit(file[a..a + n], i) <==> NextUnit(file, a + i)
  {
    SameCode(file, a, n, i);
    var k := CodeAt(file, a + i);
    assert file[a..a + n][i + k] == file[a + i + k] && file[a..a + n][i + k + 1] == file[a + i + k + 1];
  }

  /** The chunks are a prefix of the file, and the whole file exactly if the last of a pass found room. */
  ghost predicate Kept(file: seq<byte>, bufSize: nat, chunks: seq<seq<byte>>, ended: bool) {
    && Begin(chunks) && Flatten(chunks) <= file
    && (ended ==> chunks != [] && var last := |chunks| - 1;
                  Flatten(chunks) == file <==> |file| - |Flatten(chunks[..last])| <= bufSize)
  }

  /** A pass that gives up. */
  lemma GivesUp(file: seq<byte>, bufSize: nat, count: nat, a: nat, chunks: seq<seq<byte>>)
    requires Counts(file, count, a, chunks) && AllCut(file, bufSize, chunks)
    requires var d := Window(file, a, bufSize); NoSlice(d) || (count == 0 && Ends(d))
    ensures Pass(file, bufSize, chunks, false) && Kept(file, bufSize, chunks, false)
  {
  }

  /** The last chunk of a pass begins where the others end. */
  lemma LastChunk(file: seq<byte>, bufSize: nat, count: nat, a: nat, chunks: seq<seq<byte>>)
    requires Counts(file, count, a, chunks) && AllCut(file, bufSize, chunks) && count > 0
    requires Ends(Window(file, a, bufSize))
    ensures var d := Window(file, a, bufSize);
            Pass(file, bufSize, chunks + [d], true) && Kept(file, bufSize, chunks + [d], true)
  {
    assert |Flatten(chunks)| == a;
    PassEnds(file, bufSize, chunks, Window(file, a, bufSize));
    WholeFile(file, a, bufSize, chunks);
    LastJoins(file, bufSize, chunks, a);
    LastBegins(file, bufSize, a, chunks);
    assert (chunks + [Window(file, a, bufSize)])[..|chunks|] == chunks;
  }

  /** Every chunk after the first begins with a start code. */
  predicate Begin(chunks: seq<seq<byte>>) {
    forall k :: 0 < k < |chunks| ==> |chunks[k]| >= 4 && CodeAt(chunks[k], 0) > 0
  }

  lemma LastBegins(file: seq<byte>, bufSize: nat, a: nat, chunks: seq<seq<byte>>)
    requires Begin(chunks) && a <= |file| && Ends(Window(file, a, bufSize)) && Seen(file, a) && NextUnit(file, a)
    ensures Begin(chunks + [Window(file, a, bufSize)])
  {
    SameCode(file, a, |Window(file, a, bufSize)|, 0);
  }

  lemma LastJoins(file: seq<byte>, bufSize: nat, chunks: seq<seq<byte>>, a: nat)
    requires a <= |file| && Flatten(chunks) == file[..a]
    ensures Flatten(chunks + [Window(file, a, bufSize)]) <= file
  {
    var d := Window(file, a, bufSize);
    FlattenAppend(chunks, [d]);
    FlattenOne(d);
    JoinSlices(file, a, a + |d|);
  }

  lemma JoinSlices(file: seq<byte>, a: nat, b: nat)
    requires a <= b <= |file|
    ensures file[..a] + file[a..b] == file[..b]
  {
  }

  /** When the last read ends a pass, the pass is the whole file exactly if that read got all the rest. */
  lemma WholeFile(file: seq<byte>, a: nat, bufSize: nat, units: seq<seq<byte>>)
    requires a <= |file| && Flatten(units) == file[..a]
    ensures Flatten(units + [Window(file, a, bufSize)]) == file <==> |file| - a <= bufSize
  {
    var d := file[a..a + Min(bufSize, |file| - a)];
    FlattenAppend(units, [d]);
    FlattenOne(d);
    assert |file[..a] + d| == a + Min(bufSize, |file| - a);
    assert file == file[..a] + file[a..];
  }
}
