/** The byte buffer of a connection: one array in which the readable bytes lie between two indices. */
module Buffer {
  import opened Bytes

  const CHEAP_PREPEND := 8
  const INITIAL_SIZE := 1024
  const EXTRA := 65536

  const CR: byte := 13
  const LF: byte := 10

  // ---- Integers in network byte order ----

  function Power256(w: nat): (p: int)
    ensures p > 0
  {
    if w == 0 then 1 else 256 * Power256(w - 1)
  }

  /** The values of a signed integer of w bytes. */
  predicate Fits(x: int, w: nat) {
    -Power256(w) <= 2 * x < Power256(w)
  }

  /** The last w bytes of x, most significant first; a negative x counts as its two's complement. */
  function BigEndian(x: int, w: nat): (s: seq<byte>)
    ensures |s| == w
    decreases w
  {
    if w == 0 then [] else BigEndian(x / 256, w - 1) + [x % 256]
  }

  function Unsigned(s: seq<byte>): (x: nat)
    ensures x < Power256(|s|)
  {
    if s == [] then 0 else 256 * Unsigned(s[..|s| - 1]) + s[|s| - 1]
  }

  /** What the integers of networkToHost mean: the top bit is the sign. */
  function Signed(s: seq<byte>): (x: int)
    ensures Fits(x, |s|)
  {
    var u := Unsigned(s);
    if 2 * u < Power256(|s|) then u else u - Power256(|s|)
  }

  lemma {:induction false} UnsignedOfBigEndian(x: int, w: nat)
    ensures Unsigned(BigEndian(x, w)) == x % Power256(w)
    decreases w
  {
    if w > 0 {
      UnsignedOfBigEndian(x / 256, w - 1);
      var p := Power256(w - 1);
      assert BigEndian(x, w)[..w - 1] == BigEndian(x / 256, w - 1);
      Digit(x, p);
    }
  }

  lemma Digit(x: int, p: nat)
    requires p > 0
    ensures 256 * (x / 256 % p) + x % 256 == x % (256 * p)
  {
    var q := x / 256 / p;
    var r := 256 * (x / 256 % p) + x % 256;
    assert x == 256 * p * q + r by {
      assert x / 256 == p * q + x / 256 % p;
    }
    assert 0 <= r < 256 * p;
    Remainder(x, 256 * p, q, r);
  }

  lemma Remainder(x: int, m: nat, q: int, r: int)
    requires m > 0 && x == m * q + r && 0 <= r < m
    ensures x % m == r
  {
    var d := x / m - q;
    assert m * d == m * (x / m) - m * q == r - x % m;
    Multiple(m, d);
  }

  lemma Multiple(m: int, d: int)
    requires m > 0
    ensures d >= 1 ==> m * d >= m
    ensures d <= -1 ==> m * d <= -m
  {
    assert m * d - m == m * (d - 1);
    assert m * d + m == m * (d + 1);
  }

  /** Reading undoes writing, for every integer of the width. */
  lemma SignedOfBigEndian(x: int, w: nat)
    requires Fits(x, w)
    ensures Signed(BigEndian(x, w)) == x
  {
    UnsignedOfBigEndian(x, w);
    var p := Power256(w);
    Remainder(x, p, if x < 0 then -1 else 0, if x < 0 then x + p else x);
  }

  /** The bytes of the widths in use. */
  lemma NetworkOrder(x: int)
    ensures BigEndian(x, 1) == [x % 256] && BigEndian(x, 2) == [x / 256 % 256, x % 256]
    ensures BigEndian(x, 4) == [x / 0x100_0000 % 256, x / 0x1_0000 % 256, x / 256 % 256, x % 256]
    ensures BigEndian(x, 8) == BigEndian(x / 0x1_0000_0000, 4) + BigEndian(x, 4)
  {
    LowBytes(x, 0);
    LowBytes(x, 4);
    assert x / 256 / 256 == x / 0x1_0000 && x / 0x1_0000 / 256 == x / 0x100_0000;
    assert x / 0x100_0000 / 256 == x / 0x1_0000_0000;
  }

  lemma LowBytes(x: int, w: nat)
    ensures BigEndian(x, w + 4)
            == BigEndian(x / 256 / 256 / 256 / 256, w)
               + [x / 256 / 256 / 256 % 256, x / 256 / 256 % 256, x / 256 % 256, x % 256]
  {
    assert BigEndian(x, w + 1) == BigEndian(x / 256, w) + [x % 256];
    var a, b, c := x / 256, x / 256 / 256, x / 256 / 256 / 256;
    assert BigEndian(x, w + 4) == BigEndian(a, w + 3) + [x % 256];
    assert BigEndian(a, w + 3) == BigEndian(b, w + 2) + [a % 256];
    assert BigEndian(b, w + 2) == BigEndian(c, w + 1) + [b % 256];
    assert BigEndian(c, w + 1) == BigEndian(c / 256, w) + [c % 256];
  }

  /** And writing undoes reading, for every string of bytes. */
  lemma {:induction false} BigEndianOfSigned(s: seq<byte>)
    ensures BigEndian(Signed(s), |s|) == s
  {
    BigEndianOfUnsigned(s, if 2 * Unsigned(s) < Power256(|s|) then 0 else -1);
  }

  lemma {:induction false} BigEndianOfUnsigned(s: seq<byte>, k: int)
    ensures BigEndian(Unsigned(s) + k * Power256(|s|), |s|) == s
  {
    if s != [] {
      var init, p := s[..|s| - 1], Power256(|s| - 1);
      BigEndianOfUnsigned(init, k);
      LastDigit(Unsigned(init), k, p, s[|s| - 1]);
      assert s == init + [s[|s| - 1]];
    }
  }

  lemma LastDigit(u: int, k: int, p: int, d: byte)
    ensures (256 * u + d + k * (256 * p)) / 256 == u + k * p
    ensures (256 * u + d + k * (256 * p)) % 256 == d
  {
    assert k * (256 * p) == 256 * (k * p);
  }

  // ---- Line ends ----

  predicate CrlfAt(s: seq<byte>, i: int)
    ensures CrlfAt(s, i) <==> 0 <= i && i + 2 <= |s| && s[i..i + 2] == [13, 10]
  {
    0 <= i && i + 1 < |s| && s[i] == CR && s[i + 1] == LF
  }

  // ---- The buffer ----

  /** What the kernel answers to a read. */
  datatype Reading = Failed | Got(data: seq<byte>)

  class Buffer {
    var buffer: array<byte>
    var readerIndex: nat
    var writerIndex: nat

    ghost predicate Valid()
      reads this
    {
      readerIndex <= writerIndex <= buffer.Length && CHEAP_PREPEND <= buffer.Length
    }

    ghost function Contents(): (s: seq<byte>)
      reads this, buffer
      requires Valid()
    {
      buffer[readerIndex..writerIndex]
    }

    constructor (initialSize: nat)
      ensures Valid() && fresh(buffer) && Contents() == []
      ensures WritableBytes() == initialSize && PrependableBytes() == 8
    {
      buffer := new byte[CHEAP_PREPEND + initialSize];
      readerIndex, writerIndex := CHEAP_PREPEND, CHEAP_PREPEND;
    }

    function ReadableBytes(): (n: nat)
      reads this
      requires Valid()
    {
      writerIndex - readerIndex
    }

    function WritableBytes(): (n: nat)
      reads this
      requires Valid()
    {
      buffer.Length - writerIndex
    }

    function PrependableBytes(): (n: nat)
      reads this
    {
      readerIndex
    }

    // ---- Making room ----

    /** std::copy to the front: the two ranges may overlap. */
    method MoveDown(to: nat)
      requires Valid() && to <= readerIndex
      modifies buffer
      ensures buffer[to..to + ReadableBytes()] == old(Contents())
    {
      var n := writerIndex - readerIndex;
      for i := 0 to n
        invariant forall k :: to <= k < to + i ==> buffer[k] == old(Contents())[k - to]
        invariant forall k :: readerIndex + i <= k < writerIndex ==> buffer[k] == old(buffer[k])
      {
        buffer[to + i] := buffer[readerIndex + i];
      }
    }

    /** vector::resize upwards. */
    method Grow(size: nat)
      requires Valid() && buffer.Length <= size
      modifies this`buffer
      ensures Valid() && fresh(buffer) && buffer.Length == size
      ensures Contents() == old(Contents())
    {
      var small, grown := buffer, new byte[size];
      for i := 0 to small.Length
        invariant buffer == small
        invariant forall k :: 0 <= k < i ==> grown[k] == small[k]
      {
        grown[i] := small[i];
      }
      buffer := grown;
    }

    method MakeSpace(len: nat)
      requires Valid() && WritableBytes() < len
      modifies this, buffer
      ensures Valid() && (buffer == old(buffer) || fresh(buffer))
      ensures Contents() == old(Contents()) && WritableBytes() >= len
      ensures buffer.Length == old(if WritableBytes() + PrependableBytes() < len + CHEAP_PREPEND
                                   then writerIndex + len else buffer.Length)
    {
      if WritableBytes() + PrependableBytes() < len + CHEAP_PREPEND {
        Grow(writerIndex + len);
      } else {
        assert CHEAP_PREPEND < readerIndex;
        var readable := ReadableBytes();
        MoveDown(CHEAP_PREPEND);
        readerIndex := CHEAP_PREPEND;
        writerIndex := readerIndex + readable;
      }
    }

    method EnsureWritableBytes(len: nat)
      requires Valid()
      modifies this, buffer
      ensures Valid() && (buffer == old(buffer) || fresh(buffer))
      ensures Contents() == old(Contents()) && WritableBytes() >= len
      ensures old(WritableBytes()) >= len ==> buffer == old(buffer) && writerIndex == old(writerIndex)
      ensures buffer.Length <= old(if buffer.Length < writerIndex + len then writerIndex + len else buffer.Length)
    {
      if WritableBytes() < len {
        MakeSpace(len);
      }
    }

    // ---- Writing ----

    method Fill(at: nat, data: seq<byte>)
      requires at + |data| <= buffer.Length
      modifies buffer
      ensures buffer[at..at + |data|] == data
      ensures buffer[..at] == old(buffer[..at]) && buffer[at + |data|..] == old(buffer[at + |data|..])
    {
      for i := 0 to |data|
        invariant forall k :: 0 <= k < i ==> buffer[at + k] == data[k]
        invariant forall k :: 0 <= k < at || at + |data| <= k < buffer.Length ==> buffer[k] == old(buffer[k])
      {
        buffer[at + i] := data[i];
      }
    }

    method Append(data: seq<byte>)
      requires Valid()
      modifies this, buffer
      ensures Valid() && (buffer == old(buffer) || fresh(buffer))
      ensures Contents() == old(Contents()) + data
    {
      EnsureWritableBytes(|data|);
      Put(data);
    }

    /** The rest of append: copy, then hasWritten. */
    method Put(data: seq<byte>)
      requires Valid() && |data| <= WritableBytes()
      modifies this`writerIndex, buffer
      ensures Valid() && Contents() == old(Contents()) + data
      ensures writerIndex == old(writerIndex) + |data|
    {
      ghost var w := writerIndex;
      Fill(writerIndex, data);
      assert buffer[readerIndex..w] == old(buffer[..w])[readerIndex..];
      writerIndex := writerIndex + |data|;
      assert buffer[readerIndex..writerIndex] == buffer[readerIndex..w] + buffer[w..writerIndex];
    }

    method Prepend(data: seq<byte>)
      requires Valid() && |data| <= PrependableBytes()
      modifies this`readerIndex, buffer
      ensures Valid() && Contents() == data + old(Contents())
    {
      ghost var r := readerIndex;
      readerIndex := readerIndex - |data|;
      Fill(readerIndex, data);
      assert buffer[r..writerIndex] == buffer[r..][..writerIndex - r];
      assert buffer[readerIndex..writerIndex] == buffer[readerIndex..r] + buffer[r..writerIndex];
    }

    method Unwrite(len: nat)
      requires Valid() && len <= ReadableBytes()
      modifies this`writerIndex
      ensures Valid() && Contents() == old(Contents())[..old(ReadableBytes()) - len]
    {
      writerIndex := writerIndex - len;
    }

    // ---- Reading ----

    method RetrieveAll()
      requires Valid()
      modifies this`readerIndex, this`writerIndex
      ensures Valid() && Contents() == []
    {
      readerIndex, writerIndex := CHEAP_PREPEND, CHEAP_PREPEND;
    }

    method Retrieve(len: nat)
      requires Valid() && len <= ReadableBytes()
      modifies this`readerIndex, this`writerIndex
      ensures Valid() && Contents() == old(Contents())[len..]
    {
      if len < ReadableBytes() {
        readerIndex := readerIndex + len;
      } else {
        RetrieveAll();
      }
    }

    method RetrieveAsString(len: nat) returns (result: seq<byte>)
      requires Valid() && len <= ReadableBytes()
      modifies this`readerIndex, this`writerIndex
      ensures Valid() && result + Contents() == old(Contents()) && |result| == len
    {
      result := buffer[readerIndex..readerIndex + len];
      Retrieve(len);
    }

    method AppendInt(x: int, width: nat)
      requires Valid() && Fits(x, width)
      modifies this, buffer
      ensures Valid() && (buffer == old(buffer) || fresh(buffer))
      ensures Contents() == old(Contents()) + BigEndian(x, width)
    {
      Append(BigEndian(x, width));
    }

    method PrependInt(x: int, width: nat)
      requires Valid() && Fits(x, width) && width <= PrependableBytes()
      modifies this`readerIndex, buffer
      ensures Valid() && Contents() == BigEndian(x, width) + old(Contents())
    {
      Prepend(BigEndian(x, width));
    }

    method PeekInt(width: nat) returns (x: int)
      requires Valid() && width <= ReadableBytes()
      ensures Fits(x, width) && BigEndian(x, width) == Contents()[..width]
      ensures forall y :: Fits(y, width) && BigEndian(y, width) == Contents()[..width] ==> y == x
    {
      ghost var front := Contents()[..width];
      x := Signed(buffer[readerIndex..readerIndex + width]);
      assert buffer[readerIndex..readerIndex + width] == front;
      BigEndianOfSigned(front);
      forall y | Fits(y, width) && BigEndian(y, width) == front ensures y == x {
        SignedOfBigEndian(y, width);
      }
    }

    /** The integer at the front, and the buffer without it. */
    method ReadInt(width: nat) returns (x: int)
      requires Valid() && width <= ReadableBytes()
      modifies this`readerIndex, this`writerIndex
      ensures Valid() && Fits(x, width) && old(Contents()) == BigEndian(x, width) + Contents()
    {
      x := PeekInt(width);
      Retrieve(width);
    }

    /** std::search for CR LF from a position of the readable bytes: the first one. */
    method FindCRLF(start: nat) returns (at: Option<nat>)
      requires Valid() && start <= ReadableBytes()
      ensures at.None? ==> forall i :: start <= i ==> !CrlfAt(Contents(), i)
      ensures at.Some? ==> start <= at.value && CrlfAt(Contents(), at.value)
      ensures at.Some? ==> forall i :: start <= i < at.value ==> !CrlfAt(Contents(), i)
    {
      var i := start;
      while i + 1 < ReadableBytes()
        invariant start <= i <= ReadableBytes()
        invariant forall k :: start <= k < i ==> !CrlfAt(Contents(), k)
      {
        if buffer[readerIndex + i] == CR && buffer[readerIndex + i + 1] == LF {
          return Some(i);
        }
        i := i + 1;
      }
      return None;
    }

    /** std::find_end: the last one. */
    method FindLastCRLF() returns (at: Option<nat>)
      requires Valid()
      ensures at.None? ==> forall i :: !CrlfAt(Contents(), i)
      ensures at.Some? ==> CrlfAt(Contents(), at.value)
      ensures at.Some? ==> forall i :: at.value < i ==> !CrlfAt(Contents(), i)
    {
      var i: int := ReadableBytes() - 2;
      while i >= 0
        invariant i + 1 < ReadableBytes()
        invariant forall k :: i < k ==> !CrlfAt(Contents(), k)
      {
        if buffer[readerIndex + i] == CR && buffer[readerIndex + i + 1] == LF {
          return Some(i);
        }
        i := i - 1;
      }
      return None;
    }

    // ---- Whole buffers ----

    method Swap(rhs: Buffer)
      requires Valid() && rhs.Valid()
      modifies this, rhs
      ensures buffer == old(rhs.buffer) && rhs.buffer == old(buffer)
      ensures readerIndex == old(rhs.readerIndex) && rhs.readerIndex == old(readerIndex)
      ensures writerIndex == old(rhs.writerIndex) && rhs.writerIndex == old(writerIndex)
      ensures Valid() && rhs.Valid()
      ensures Contents() == old(rhs.Contents()) && rhs.Contents() == old(Contents())
    {
      buffer, rhs.buffer := rhs.buffer, buffer;
      readerIndex, rhs.readerIndex := rhs.readerIndex, readerIndex;
      writerIndex, rhs.writerIndex := rhs.writerIndex, writerIndex;
    }

    method Shrink(reserve: nat)
      requires Valid()
      modifies this
      ensures Valid() && fresh(buffer) && Contents() == old(Contents()) && WritableBytes() >= reserve
      ensures buffer.Length <= CHEAP_PREPEND
              + old(if ReadableBytes() + reserve < INITIAL_SIZE then INITIAL_SIZE else ReadableBytes() + reserve)
    {
      var other := new Buffer(INITIAL_SIZE);
      other.EnsureWritableBytes(ReadableBytes() + reserve);
      assert other.Contents() == [];
      other.Put(buffer[readerIndex..writerIndex]);
      Swap(other);
    }

    /** How much readFd offers the kernel. */
    function Offered(): (n: nat)
      reads this
      requires Valid()
    {
      if WritableBytes() < EXTRA then WritableBytes() + EXTRA else WritableBytes()
    }

    /** One readv into the free bytes and, when those are few, an area on the stack. */
    method ReadFd(kernel: Reading) returns (n: int)
      requires Valid() && (kernel.Got? ==> |kernel.data| <= Offered())
      modifies this, buffer
      ensures Valid() && (buffer == old(buffer) || fresh(buffer))
      ensures n == if kernel.Got? then |kernel.data| else -1
      ensures Contents() == old(Contents()) + if kernel.Got? then kernel.data else []
    {
      var writable := WritableBytes();
      match kernel
      case Failed =>
        n := -1;
      case Got(data) =>
        n := |data|;
        if n <= writable {
          Put(data);
        } else {
          Put(data[..writable]);
          assert data == data[..writable] + data[writable..];
          AppendAssociates(old(Contents()), data[..writable], data[writable..]);
          Append(data[writable..]);
        }
    }
  }
}
