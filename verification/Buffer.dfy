/**
  `muduo::net::Buffer`: prependable, readable and writable bytes in one array.  Every operation acts on
  the readable bytes as on a queue of bytes, wherever they lie in the array.
*/
module ByteBuffer {

  newtype byte = x: int | 0 <= x < 256
  newtype int32 = x: int | -0x8000_0000 <= x < 0x8000_0000

  const CHEAP_PREPEND := 8
  const INITIAL_SIZE := 1024
  const EXTRA_SIZE := 65536

  // ------------------------------------------------------------ network byte order

  function Unsigned(x: int32): nat {
    if x as int < 0 then x as int + 0x1_0000_0000 else x as int
  }

  /** The four bytes of an `int32_t` in network order. */
  function Encode32(x: int32): (r: seq<byte>)
    ensures |r| == 4
  {
    var u := Unsigned(x);
    [(u / 0x100_0000 % 256) as byte, (u / 0x1_0000 % 256) as byte, (u / 0x100 % 256) as byte, (u % 256) as byte]
  }

  function Decode32(b: seq<byte>): int32
    requires |b| == 4
  {
    var u := b[0] as int * 0x100_0000 + b[1] as int * 0x1_0000 + b[2] as int * 0x100 + b[3] as int;
    if u >= 0x8000_0000 then (u - 0x1_0000_0000) as int32 else u as int32
  }

  lemma DecodeOfEncode(x: int32)
    ensures Decode32(Encode32(x)) == x
  {
    FourDigits(Unsigned(x));
  }

  /** A 32-bit number is put together from its four base-256 digits. */
  lemma FourDigits(u: nat)
    requires u < 0x1_0000_0000
    ensures u == u / 0x100_0000 % 256 * 0x100_0000 + u / 0x1_0000 % 256 * 0x1_0000 + u / 0x100 % 256 * 0x100 + u % 256
  {
    var q1 := u / 256;
    var q2 := q1 / 256;
    var q3 := q2 / 256;
    assert u / 0x1_0000 == q2;
    assert u / 0x100_0000 == q3 && q3 < 256;
  }

  lemma EncodeOfDecode(s: seq<byte>)
    requires |s| == 4
    ensures Encode32(Decode32(s)) == s
  {
    var a, b, c, d := s[0] as int, s[1] as int, s[2] as int, s[3] as int;
    var u := a * 0x100_0000 + b * 0x1_0000 + c * 0x100 + d;
    assert Unsigned(Decode32(s)) == u;
    assert u / 0x100_0000 == a && u / 0x1_0000 == a * 256 + b && u / 0x100 == a * 0x1_0000 + b * 256 + c;
  }

  /** The order in which `memcmp` puts two strings of four bytes. */
  ghost predicate Below(a: seq<byte>, b: seq<byte>)
    requires |a| == |b| == 4
  {
    exists i :: 0 <= i < 4 && a[..i] == b[..i] && a[i] < b[i]
  }

  lemma {:induction false} BelowIs(a: seq<byte>, b: seq<byte>)
    requires |a| == |b| == 4
    ensures Below(a, b) <==>
            || a[0] < b[0] || (a[0] == b[0] && a[1] < b[1]) || (a[0] == b[0] && a[1] == b[1] && a[2] < b[2])
            || (a[0] == b[0] && a[1] == b[1] && a[2] == b[2] && a[3] < b[3])
  {
    assert a[..0] == b[..0];
    assert a[0] == b[0] ==> a[..1] == b[..1];
    assert a[0] == b[0] && a[1] == b[1] ==> a[..2] == b[..2];
    assert a[0] == b[0] && a[1] == b[1] && a[2] == b[2] ==> a[..3] == b[..3];
    if i :| 0 <= i < 4 && a[..i] == b[..i] && a[i] < b[i] {
      assert forall j :: 0 <= j < i ==> a[j] == a[..i][j] == b[..i][j] == b[j];
    }
  }

  /** Network order: the bytes of two numbers are ordered as the unsigned 32-bit numbers are. */
  lemma {:induction false} BytesAreOrdered(x: int32, y: int32)
    ensures Below(Encode32(x), Encode32(y)) <==> x as int % 0x1_0000_0000 < y as int % 0x1_0000_0000
  {
    hide Below, Encode32;
    DigitsOf(x);
    DigitsOf(y);
    BelowIs(Encode32(x), Encode32(y));
    DigitOrder(Encode32(x), Encode32(y));
  }

  lemma DigitsOf(x: int32)
    ensures var b := Encode32(x);
            b[0] as int * 0x100_0000 + b[1] as int * 0x1_0000 + b[2] as int * 0x100 + b[3] as int
            == x as int % 0x1_0000_0000
  {
    FourDigits(Unsigned(x));
    assert Unsigned(x) == x as int % 0x1_0000_0000;
  }

  lemma DigitOrder(a: seq<byte>, b: seq<byte>)
    requires |a| == |b| == 4
    ensures a[0] as int * 0x100_0000 + a[1] as int * 0x1_0000 + a[2] as int * 0x100 + a[3] as int
            < b[0] as int * 0x100_0000 + b[1] as int * 0x1_0000 + b[2] as int * 0x100 + b[3] as int
            <==>
            || a[0] < b[0] || (a[0] == b[0] && a[1] < b[1]) || (a[0] == b[0] && a[1] == b[1] && a[2] < b[2])
            || (a[0] == b[0] && a[1] == b[1] && a[2] == b[2] && a[3] < b[3])
  {
  }

  // ------------------------------------------------------------------ the class

  class Buffer {
    var data: array<byte>
    var readerIndex: nat
    var writerIndex: nat

    ghost predicate Valid()
      reads this
    {
      readerIndex <= writerIndex <= data.Length && CHEAP_PREPEND <= data.Length
    }

    /** The readable bytes. */
    ghost function Contents(): seq<byte>
      requires Valid()
      reads this, data
    {
      data[readerIndex..writerIndex]
    }

    constructor (initialSize: nat)
      ensures Valid() && fresh(data) && Contents() == []
      ensures WritableBytes() == initialSize && PrependableBytes() == CHEAP_PREPEND
    {
      data := new byte[CHEAP_PREPEND + initialSize];
      readerIndex := CHEAP_PREPEND;
      writerIndex := CHEAP_PREPEND;
    }

    function ReadableBytes(): (n: nat)
      requires Valid()
      reads this, data
      ensures n == |Contents()|
    {
      writerIndex - readerIndex
    }

    function WritableBytes(): nat
      requires Valid()
      reads this
    {
      data.Length - writerIndex
    }

    function PrependableBytes(): nat
      reads this
    {
      readerIndex
    }

    method RetrieveAll()
      requires Valid()
      modifies this`readerIndex, this`writerIndex
      ensures Valid() && Contents() == []
    {
      readerIndex := CHEAP_PREPEND;
      writerIndex := CHEAP_PREPEND;
    }

    method Retrieve(len: nat)
      requires Valid() && len <= ReadableBytes()
      modifies this`readerIndex, this`writerIndex
      ensures Valid() && Contents() == old(Contents())[len..]
    {
      if len < ReadableBytes() {
        readerIndex := readerIndex + len;
      } else {
        RetrieveAll();
      }
    }

    method Peek(len: nat) returns (r: seq<byte>)
      requires Valid() && len <= ReadableBytes()
      ensures r == Contents()[..len]
    {
      r := data[readerIndex..readerIndex + len];
    }

    method RetrieveAsString(len: nat) returns (r: seq<byte>)
      requires Valid() && len <= ReadableBytes()
      modifies this`readerIndex, this`writerIndex
      ensures Valid() && r == old(Contents())[..len] && Contents() == old(Contents())[len..]
    {
      r := Peek(len);
      Retrieve(len);
    }

    /** Copy `bytes` into the array from index `at` on. */
    method Write(at: nat, bytes: seq<byte>)
      requires at + |bytes| <= data.Length
      modifies data
      ensures data[..] == old(data[..at]) + bytes + old(data[at + |bytes|..])
    {
      var i := 0;
      while i < |bytes|
        invariant i <= |bytes|
        invariant data[..at] == old(data[..at]) && data[at..at + i] == bytes[..i]
        invariant data[at + i..] == old(data[at + i..])
      {
        data[at + i] := bytes[i];
        i := i + 1;
      }
      assert data[..] == data[..at] + data[at..at + i] + data[at + i..];
    }

    /** Resize the array; the bytes it held stay where they were. */
    method Resize(size: nat)
      requires Valid() && size >= data.Length
      modifies this`data
      ensures Valid() && fresh(data) && data.Length == size && data[..old(data.Length)] == old(data[..])
      ensures readerIndex == old(readerIndex) && writerIndex == old(writerIndex) && Contents() == old(Contents())
    {
      var bigger := new byte[size];
      var i := 0;
      while i < data.Length
        invariant i <= data.Length && bigger[..i] == data[..i]
        modifies bigger
      {
        bigger[i] := data[i];
        i := i + 1;
      }
      assert bigger[..data.Length] == data[..];
      forall k | readerIndex <= k < writerIndex
        ensures bigger[k] == data[k]
      {
        assert bigger[..data.Length][k] == data[..][k];
      }
      assert bigger[readerIndex..writerIndex] == data[readerIndex..writerIndex];
      data := bigger;
    }

    /** Move the readable bytes down to `CHEAP_PREPEND`; the copy goes forwards and may overlap. */
    method MoveToFront()
      requires Valid() && CHEAP_PREPEND < readerIndex
      modifies this`readerIndex, this`writerIndex, data
      ensures Valid() && Contents() == old(Contents()) && readerIndex == CHEAP_PREPEND
    {
      var readable := ReadableBytes();
      var i := 0;
      while i < readable
        invariant 0 <= i <= readable && readerIndex == old(readerIndex) && writerIndex == old(writerIndex)
        invariant data[CHEAP_PREPEND..CHEAP_PREPEND + i] == old(data[readerIndex..readerIndex + i])
        invariant data[readerIndex + i..writerIndex] == old(data[readerIndex + i..writerIndex])
      {
        ghost var was := data[readerIndex + i..writerIndex];
        assert was[0] == data[readerIndex + i] == old(data[readerIndex + i]);
        data[CHEAP_PREPEND + i] := data[readerIndex + i];
        i := i + 1;
        assert data[readerIndex + i..writerIndex] == was[1..];
      }
      readerIndex := CHEAP_PREPEND;
      writerIndex := readerIndex + readable;
    }

    /**
      Make room for `len` more bytes, by growing the array or by moving the readable bytes to its front.
      The move happens only when there are more prependable bytes than the reserve.
    */
    method MakeSpace(len: nat)
      requires Valid() && WritableBytes() < len
      modifies this, data
      ensures Valid() && (data == old(data) || fresh(data))
      ensures Contents() == old(Contents()) && WritableBytes() >= len
      ensures readerIndex == old(readerIndex) || readerIndex == CHEAP_PREPEND
    {
      if WritableBytes() + PrependableBytes() < len + CHEAP_PREPEND {
        Resize(writerIndex + len);
      } else {
        assert CHEAP_PREPEND < readerIndex;
        MoveToFront();
      }
    }

    method EnsureWritableBytes(len: nat)
      requires Valid()
      modifies this, data
      ensures Valid() && (data == old(data) || fresh(data))
      ensures Contents() == old(Contents()) && WritableBytes() >= len
      ensures old(WritableBytes()) >= len ==> unchanged(this) && unchanged(data)
      ensures readerIndex == old(readerIndex) || readerIndex == CHEAP_PREPEND
    {
      if WritableBytes() < len {
        MakeSpace(len);
      }
    }

    method Append(bytes: seq<byte>)
      requires Valid()
      modifies this, data
      ensures Valid() && (data == old(data) || fresh(data))
      ensures Contents() == old(Contents()) + bytes
      ensures old(WritableBytes()) >= |bytes| ==> WritableBytes() == old(WritableBytes()) - |bytes|
      ensures readerIndex == old(readerIndex) || readerIndex == CHEAP_PREPEND
    {
      EnsureWritableBytes(|bytes|);
      ghost var before := data[..];
      Write(writerIndex, bytes);
      ghost var n := |bytes|;
      assert data[readerIndex..writerIndex + n] == before[readerIndex..writerIndex] + bytes by {
        assert data[..][readerIndex..writerIndex + n] == data[readerIndex..writerIndex + n];
      }
      writerIndex := writerIndex + |bytes|;
    }

    method Unwrite(len: nat)
      requires Valid() && len <= ReadableBytes()
      modifies this`writerIndex
      ensures Valid() && Contents() == old(Contents())[..|old(Contents())| - len]
    {
      writerIndex := writerIndex - len;
    }

    method Prepend(bytes: seq<byte>)
      requires Valid() && |bytes| <= PrependableBytes()
      modifies this`readerIndex, data
      ensures Valid() && Contents() == bytes + old(Contents())
    {
      ghost var before := data[..];
      ghost var r, w := readerIndex, writerIndex;
      readerIndex := readerIndex - |bytes|;
      Write(readerIndex, bytes);
      assert data[readerIndex..w] == bytes + before[r..w] by {
        assert data[..][readerIndex..w] == data[readerIndex..w];
      }
    }

    method AppendInt32(x: int32)
      requires Valid()
      modifies this, data
      ensures Valid() && (data == old(data) || fresh(data))
      ensures Contents() == old(Contents()) + Encode32(x)
      ensures readerIndex == old(readerIndex) || readerIndex == CHEAP_PREPEND
    {
      Append(Encode32(x));
    }

    method PrependInt32(x: int32)
      requires Valid() && 4 <= PrependableBytes()
      modifies this`readerIndex, data
      ensures Valid() && Contents() == Encode32(x) + old(Contents())
    {
      Prepend(Encode32(x));
    }

    method PeekInt32() returns (x: int32)
      requires Valid() && ReadableBytes() >= 4
      ensures x == Decode32(Contents()[..4])
    {
      var b := Peek(4);
      x := Decode32(b);
    }

    method ReadInt32() returns (x: int32)
      requires Valid() && ReadableBytes() >= 4
      modifies this`readerIndex, this`writerIndex
      ensures Valid() && x == Decode32(old(Contents())[..4]) && Contents() == old(Contents())[4..]
    {
      x := PeekInt32();
      Retrieve(4);
    }

    /** Reallocate to the readable bytes and `reserve` more, through another buffer. */
    method Shrink(reserve: nat)
      requires Valid()
      modifies this
      ensures Valid() && fresh(data) && Contents() == old(Contents()) && WritableBytes() >= reserve
    {
      var other := new Buffer(INITIAL_SIZE);
      other.EnsureWritableBytes(ReadableBytes() + reserve);
      var bytes := Peek(ReadableBytes());
      other.Append(bytes);
      data := other.data;
      readerIndex := other.readerIndex;
      writerIndex := other.writerIndex;
    }

    /** Bytes that the kernel puts into the writable part. */
    method Fill(bytes: seq<byte>)
      requires Valid() && WritableBytes() >= |bytes|
      modifies this`writerIndex, data
      ensures Valid() && Contents() == old(Contents()) + bytes && WritableBytes() == old(WritableBytes()) - |bytes|
    {
      ghost var before := data[..];
      ghost var n, w := |bytes|, writerIndex;
      Write(writerIndex, bytes);
      writerIndex := writerIndex + |bytes|;
      assert data[readerIndex..w + n] == before[readerIndex..w] + bytes by {
        assert data[..][readerIndex..w + n] == data[readerIndex..w + n];
      }
    }

    /**
      Read from a socket.  `bytes` is what readv(2) delivers: first into the writable bytes, then, if
      these are fewer than 64 KiB, into an extra block on the stack; `failed` stands for a negative result.
    */
    method ReadFd(bytes: seq<byte>, failed: bool)
      requires Valid()
      requires |bytes| <= WritableBytes() + (if WritableBytes() < EXTRA_SIZE then EXTRA_SIZE else 0)
      modifies this, data
      ensures Valid() && (data == old(data) || fresh(data))
      ensures Contents() == if failed then old(Contents()) else old(Contents()) + bytes
    {
      if failed {
        return;
      }
      var writable := WritableBytes();
      if |bytes| <= writable {
        Fill(bytes);
      } else {
        Fill(bytes[..writable]);
        assert writerIndex == data.Length;
        assert bytes == bytes[..writable] + bytes[writable..];
        Append(bytes[writable..]);
      }
    }
  }
}
