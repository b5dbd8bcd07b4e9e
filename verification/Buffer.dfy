/** The network buffer: prependable, readable and writable regions of one array, against the plain bytes it holds. */
module Buffers {
  import opened Common
  import opened Bytes

  const CHEAP_PREPEND: nat := 8
  const INITIAL_SIZE: nat := 1024
  const EXTRA_SIZE: nat := 65536

  /** `std::copy` of a sequence into an array. */
  method CopyInto(a: array<Byte>, at: nat, data: seq<Byte>)
    requires at + |data| <= a.Length
    modifies a
    ensures a[at..at + |data|] == data
    ensures a[..at] == old(a[..at]) && a[at + |data|..] == old(a[at + |data|..])
  {
    var i := 0;
    while i < |data|
      invariant 0 <= i <= |data|
      invariant a[at..at + i] == data[..i]
      invariant a[..at] == old(a[..at]) && a[at + |data|..] == old(a[at + |data|..])
    {
      a[at + i] := data[i];
      assert a[at..at + i + 1] == a[at..at + i] + [data[i]];
      i := i + 1;
    }
  }

  class Buffer {
    var buffer: array<Byte>
    var readerIndex: nat
    var writerIndex: nat

    ghost predicate Valid()
      reads this
    {
      readerIndex <= writerIndex <= buffer.Length && CHEAP_PREPEND <= buffer.Length
    }

    /** The readable bytes: all a user of the buffer sees. */
    ghost function Contents(): seq<Byte>
      requires Valid()
      reads this, buffer
    {
      buffer[readerIndex..writerIndex]
    }

    constructor (initialSize: nat)
      ensures Valid() && fresh(buffer)
      ensures Contents() == [] && readerIndex == CHEAP_PREPEND && WritableBytes() == initialSize
    {
      buffer := new Byte[CHEAP_PREPEND + initialSize](_ => 0);
      readerIndex, writerIndex := CHEAP_PREPEND, CHEAP_PREPEND;
    }

    function ReadableBytes(): (n: nat)
      requires Valid()
      reads this, buffer
      ensures n == |Contents()|
    {
      writerIndex - readerIndex
    }

    function WritableBytes(): nat
      requires Valid()
      reads this
    {
      buffer.Length - writerIndex
    }

    method Swap(rhs: Buffer)
      requires Valid() && rhs.Valid() && rhs != this
      modifies this, rhs
      ensures Valid() && rhs.Valid()
      ensures Contents() == old(rhs.Contents()) && rhs.Contents() == old(Contents())
      ensures buffer == old(rhs.buffer) && rhs.buffer == old(buffer)
      ensures WritableBytes() == old(rhs.WritableBytes())
    {
      buffer, rhs.buffer := rhs.buffer, buffer;
      readerIndex, rhs.readerIndex := rhs.readerIndex, readerIndex;
      writerIndex, rhs.writerIndex := rhs.writerIndex, writerIndex;
    }

    method RetrieveAll()
      requires Valid()
      modifies this`readerIndex, this`writerIndex
      ensures Valid() && Contents() == [] && readerIndex == CHEAP_PREPEND
    {
      readerIndex := CHEAP_PREPEND;
      writerIndex := CHEAP_PREPEND;
    }

    method Retrieve(len: nat)
      requires Valid() && len <= |Contents()|
      modifies this`readerIndex, this`writerIndex
      ensures Valid() && Contents() == old(Contents())[len..]
    {
      if len < ReadableBytes() {
        readerIndex := readerIndex + len;
      } else {
        RetrieveAll();
      }
    }

    method RetrieveAsString(len: nat) returns (result: seq<Byte>)
      requires Valid() && len <= |Contents()|
      modifies this`readerIndex, this`writerIndex
      ensures Valid() && Contents() == old(Contents())[len..] && result == old(Contents())[..len]
    {
      result := buffer[readerIndex..readerIndex + len];
      Retrieve(len);
    }

    /**
      Grow the array, or move the readable bytes to the front when the two free regions together are enough. Reached
      only when the writable region is too small, so in the second case there is room before the readable bytes.
     */
    method MakeSpace(len: nat)
      requires Valid() && WritableBytes() < len
      modifies this, buffer
      ensures Valid() && Contents() == old(Contents()) && len <= WritableBytes()
      ensures buffer == old(buffer) || fresh(buffer)
      ensures readerIndex == old(readerIndex) || readerIndex == CHEAP_PREPEND
    {
      if WritableBytes() + readerIndex < len + CHEAP_PREPEND {
        var grown := new Byte[writerIndex + len](_ => 0);
        CopyInto(grown, 0, buffer[..]);
        assert grown[readerIndex..writerIndex] == grown[0..buffer.Length][readerIndex..writerIndex];
        buffer := grown;
      } else {
        assert CHEAP_PREPEND < readerIndex;
        var readable := ReadableBytes();
        MoveDown(readable);
        readerIndex := CHEAP_PREPEND;
        writerIndex := readerIndex + readable;
      }
    }

    /** The overlapping `std::copy` towards the front. */
    method MoveDown(readable: nat)
      requires Valid() && readable == writerIndex - readerIndex && CHEAP_PREPEND < readerIndex
      modifies buffer
      ensures buffer[CHEAP_PREPEND..CHEAP_PREPEND + readable] == old(Contents())
    {
      var i := 0;
      while i < readable
        invariant 0 <= i <= readable
        invariant buffer[CHEAP_PREPEND..CHEAP_PREPEND + i] == old(Contents())[..i]
        invariant buffer[readerIndex + i..writerIndex] == old(Contents())[i..]
      {
        assert buffer[readerIndex + i] == buffer[readerIndex + i..writerIndex][0] == old(Contents())[i];
        ghost var rest := buffer[readerIndex + i + 1..writerIndex];
        assert rest == buffer[readerIndex + i..writerIndex][1..];
        buffer[CHEAP_PREPEND + i] := buffer[readerIndex + i];
        assert buffer[CHEAP_PREPEND..CHEAP_PREPEND + i + 1] ==
               buffer[CHEAP_PREPEND..CHEAP_PREPEND + i] + [old(Contents())[i]];
        assert buffer[readerIndex + i + 1..writerIndex] == rest;
        i := i + 1;
      }
    }

    method EnsureWritableBytes(len: nat)
      requires Valid()
      modifies this, buffer
      ensures Valid() && Contents() == old(Contents()) && len <= WritableBytes()
      ensures buffer == old(buffer) || fresh(buffer)
      ensures readerIndex == old(readerIndex) || readerIndex == CHEAP_PREPEND
    {
      if WritableBytes() < len {
        MakeSpace(len);
      }
    }

    method HasWritten(len: nat)
      requires Valid() && len <= WritableBytes()
      modifies this`writerIndex
      ensures Valid() && Contents() == old(buffer[readerIndex..writerIndex + len])
      ensures readerIndex == old(readerIndex) && writerIndex == old(writerIndex) + len
    {
      writerIndex := writerIndex + len;
    }

    method Unwrite(len: nat)
      requires Valid() && len <= |Contents()|
      modifies this`writerIndex
      ensures Valid() && Contents() == old(Contents())[..|old(Contents())| - len]
    {
      writerIndex := writerIndex - len;
    }

    method Append(data: seq<Byte>)
      requires Valid()
      modifies this, buffer
      ensures Valid() && Contents() == old(Contents()) + data
      ensures buffer == old(buffer) || fresh(buffer)
      ensures readerIndex == old(readerIndex) || readerIndex == CHEAP_PREPEND
    {
      EnsureWritableBytes(|data|);
      AppendInPlace(data);
    }

    method Prepend(data: seq<Byte>)
      requires Valid() && |data| <= readerIndex
      modifies this`readerIndex, buffer
      ensures Valid() && Contents() == data + old(Contents())
      ensures readerIndex == old(readerIndex) - |data|
    {
      ghost var start, tail := readerIndex, buffer[readerIndex..];
      ghost var held := tail[..writerIndex - readerIndex];
      assert held == Contents();
      readerIndex := readerIndex - |data|;
      CopyInto(buffer, readerIndex, data);
      assert buffer[start..] == tail;
      assert buffer[start..writerIndex] == buffer[start..][..writerIndex - start] == held;
      assert buffer[readerIndex..writerIndex] == buffer[readerIndex..start] + buffer[start..writerIndex];
    }

    method Shrink(reserve: nat)
      requires Valid()
      modifies this
      ensures Valid() && Contents() == old(Contents()) && reserve <= WritableBytes()
      ensures fresh(buffer)
    {
      var other := new Buffer(INITIAL_SIZE);
      other.EnsureWritableBytes(ReadableBytes() + reserve);
      var data := buffer[readerIndex..writerIndex];
      other.AppendInPlace(data);
      Swap(other);
    }

    /** An append for which there is room already leaves the rest of the room. */
    method AppendInPlace(data: seq<Byte>)
      requires Valid() && |data| <= WritableBytes()
      modifies this`writerIndex, buffer
      ensures Valid() && Contents() == old(Contents()) + data && WritableBytes() == old(WritableBytes()) - |data|
    {
      ghost var head := buffer[..writerIndex];
      CopyInto(buffer, writerIndex, data);
      assert buffer[readerIndex..writerIndex] == head[readerIndex..writerIndex];
      assert buffer[readerIndex..writerIndex + |data|] ==
             buffer[readerIndex..writerIndex] + buffer[writerIndex..writerIndex + |data|];
      HasWritten(|data|);
    }

    /**
      One scatter read. `got` is what readv delivered (None for an error): first into the writable region, the overflow
      into a stack buffer that is only offered when the writable region is smaller than it.
     */
    method ReadFd(got: Option<seq<Byte>>) returns (n: int)
      requires Valid()
      requires got.Some? ==> |got.value| <= WritableBytes() + (if WritableBytes() < EXTRA_SIZE then EXTRA_SIZE else 0)
      modifies this, buffer
      ensures Valid() && (buffer == old(buffer) || fresh(buffer))
      ensures got.None? ==> n < 0 && Contents() == old(Contents())
      ensures got.Some? ==> n == |got.value| && Contents() == old(Contents()) + got.value
    {
      var writable := WritableBytes();
      match got {
        case None => n := -1;
        case Some(bytes) =>
          n := |bytes|;
          if n <= writable {
            AppendInPlace(bytes);
          } else {
            AppendInPlace(bytes[..writable]);
            assert bytes[..writable] + bytes[writable..] == bytes;
            assert writerIndex == buffer.Length;
            var extra := bytes[writable..];
            Append(extra);
          }
      }
    }

    // ---------- integers ----------

    /** appendInt8, appendInt16, appendInt32 and appendInt64, by width. */
    method AppendInt(x: int, width: nat)
      requires Valid() && width in {1, 2, 4, 8} && FitsSigned(x, width)
      modifies this, buffer
      ensures Valid() && Contents() == old(Contents()) + EncodeInt(x, width)
      ensures buffer == old(buffer) || fresh(buffer)
      ensures readerIndex == old(readerIndex) || readerIndex == CHEAP_PREPEND
    {
      Append(EncodeInt(x, width));
    }

    method PrependInt(x: int, width: nat)
      requires Valid() && width in {1, 2, 4, 8} && FitsSigned(x, width) && width <= readerIndex
      modifies this`readerIndex, buffer
      ensures Valid() && Contents() == EncodeInt(x, width) + old(Contents())
    {
      IntRoundTrip(x, width);
      Prepend(EncodeInt(x, width));
    }

    method PeekInt(width: nat) returns (x: int)
      requires Valid() && width in {1, 2, 4, 8} && width <= |Contents()|
      ensures x == DecodeInt(Contents()[..width])
    {
      assert buffer[readerIndex..readerIndex + width] == Contents()[..width];
      x := DecodeInt(buffer[readerIndex..readerIndex + width]);
    }

    method ReadInt(width: nat) returns (x: int)
      requires Valid() && width in {1, 2, 4, 8} && width <= |Contents()|
      modifies this`readerIndex, this`writerIndex
      ensures Valid() && x == DecodeInt(old(Contents())[..width]) && Contents() == old(Contents())[width..]
    {
      x := PeekInt(width);
      Retrieve(width);
    }

    /** An integer written behind whatever the buffer holds is read back once that is taken out. */
    method WriteThenRead(x: int, width: nat) returns (before: seq<Byte>, y: int)
      requires Valid() && width in {1, 2, 4, 8} && FitsSigned(x, width)
      modifies this, buffer
      ensures Valid() && before == old(Contents()) && y == x && Contents() == []
    {
      ghost var bytes := EncodeInt(x, width);
      IntRoundTrip(x, width);
      hide EncodeInt, DecodeInt;
      var held := ReadableBytes();
      AppendInt(x, width);
      assert Contents()[held..] == bytes && Contents()[..held] == old(Contents()) && bytes[..width] == bytes;
      before := RetrieveAsString(held);
      y := ReadInt(width);
    }

    // ---------- lines ----------

    method FindCRLF() returns (crlf: Option<nat>)
      requires Valid()
      ensures crlf == FindCrlf(Contents())
    {
      FindCrlfFirst(Contents());
      var i := readerIndex;
      while i + 1 < writerIndex
        invariant readerIndex <= i <= writerIndex
        invariant forall k: nat | k < i - readerIndex :: !CrlfAt(Contents(), k)
      {
        if buffer[i] == CR && buffer[i + 1] == LF {
          assert CrlfAt(Contents(), i - readerIndex);
          return Some(i - readerIndex);
        }
        assert !CrlfAt(Contents(), i - readerIndex);
        i := i + 1;
      }
      return None;
    }

    method FindEOL() returns (eol: Option<nat>)
      requires Valid()
      ensures eol.Some? ==> eol.value < |Contents()| && Contents()[eol.value] == LF && LF !in Contents()[..eol.value]
      ensures eol.None? <==> LF !in Contents()
    {
      var i := readerIndex;
      while i < writerIndex
        invariant readerIndex <= i <= writerIndex
        invariant LF !in Contents()[..i - readerIndex]
      {
        if buffer[i] == LF {
          assert Contents()[i - readerIndex] == LF;
          return Some(i - readerIndex);
        }
        assert Contents()[..i + 1 - readerIndex] == Contents()[..i - readerIndex] + [buffer[i]];
        i := i + 1;
      }
      assert Contents()[..i - readerIndex] == Contents();
      return None;
    }
  }
}
