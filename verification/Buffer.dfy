/**
 * The class Buffer (src/net/tcp/buffer.cpp): a growable array with 32-bit read and write indices
 * that behaves as a queue of bytes for as long as the write index stays below 2^32.
 */
module Buffers {
  import opened Wrappers
  import opened Widths
  import opened Framing

  const EXTRA_SIZE: nat := 65536

  /** Result of a system call on a socket: an error number, or the bytes moved. */
  datatype Received = Failed(error: int) | Bytes(data: seq<byte>)

  /** The sequence with the data written over it from position `at` on. */
  function Splice(s: seq<byte>, at: nat, data: seq<byte>): (t: seq<byte>)
    requires at + |data| <= |s|
    ensures |t| == |s|
  {
    s[..at] + data + s[at + |data|..]
  }

  /** Writing at the end of a window extends the window by the data. */
  lemma SpliceExtends(s: seq<byte>, from: nat, to: nat, data: seq<byte>)
    requires from <= to && to + |data| <= |s|
    ensures Splice(s, to, data)[from..to + |data|] == s[from..to] + data
  {
  }

  lemma PrefixWindow(s: seq<byte>, t: seq<byte>, from: nat, to: nat)
    requires s <= t && from <= to <= |s|
    ensures t[from..to] == s[from..to]
  {
  }

  /** The queue without its first n bytes; empty if it has no more than that. */
  function DropFirst(s: seq<byte>, n: nat): seq<byte> {
    if n < |s| then s[n..] else []
  }

  lemma DropFirstWindow(s: seq<byte>, from: nat, to: nat, n: nat)
    requires from + n < to <= |s|
    ensures s[from + n..to] == DropFirst(s[from..to], n)
  {
  }

  lemma TakeAndDrop(s: seq<byte>, from: nat, to: nat, n: nat)
    requires from + n <= to <= |s|
    ensures s[from..from + n] + DropFirst(s[from..to], n) == s[from..to]
  {
  }

  lemma AppendTwice(s: seq<byte>, data: seq<byte>, first: nat)
    requires first <= |data|
    ensures s + data[..first] + data[first..] == s + data
  {
  }

  class Buffer {
    var readIndex: nat
    var writeIndex: nat
    var buffer: seq<byte> // std::vector<uint8_t>; its length is the size of the storage

    ghost predicate Valid()
      reads this
    {
      readIndex <= writeIndex <= |buffer| < U32_LIMIT
    }

    /** The queue of bytes the buffer stands for. */
    ghost function Unread(): seq<byte>
      requires Valid()
      reads this
    {
      buffer[readIndex..writeIndex]
    }

    /** Room that a scatter read offers to the kernel. */
    ghost function ReadCapacity(): nat
      requires Valid()
      reads this
    {
      var writable := |buffer| - writeIndex;
      if writable < EXTRA_SIZE then writable + EXTRA_SIZE else writable
    }

    constructor (size: nat)
      requires size < U32_LIMIT
      ensures Valid() && Unread() == [] && writeIndex == 0
    {
      readIndex := 0;
      writeIndex := 0;
      buffer := seq(size, _ => 0);
    }

    method ReadableBytes() returns (n: nat)
      requires Valid()
      ensures n == |Unread()|
    {
      n := writeIndex - readIndex;
    }

    method IsEmpty() returns (empty: bool)
      requires Valid()
      ensures empty <==> Unread() == []
    {
      empty := readIndex == writeIndex;
    }

    /** vector::resize keeps what is stored and appends zeros. */
    method EnsureWritableBytes(len: nat)
      requires Valid()
      modifies this`buffer
      ensures |buffer| == if writeIndex + len <= |old(buffer)| then |old(buffer)| else writeIndex + len
      ensures old(buffer) <= buffer
    {
      if |buffer| - writeIndex < len {
        buffer := buffer + seq(writeIndex + len - |buffer|, _ => 0);
      }
    }

    /**
     * Appends behind the unread bytes.  The write index is 32 bits wide and is never moved back
     * while bytes are unread, so the append is one on the queue, and the buffer stays usable, if
     * and only if the index does not wrap.
     */
    method Append(data: seq<byte>)
      requires Valid()
      modifies this
      ensures Valid() <==> old(writeIndex) + |data| < U32_LIMIT
      ensures old(writeIndex) + |data| < U32_LIMIT ==> Unread() == old(Unread()) + data
      ensures writeIndex == (old(writeIndex) + |data|) % U32_LIMIT && readIndex == old(readIndex)
    {
      EnsureWritableBytes(|data|);
      PrefixWindow(old(buffer), buffer, readIndex, writeIndex);
      SpliceExtends(buffer, readIndex, writeIndex, data);
      buffer := Splice(buffer, writeIndex, data);
      writeIndex := (writeIndex + |data|) % U32_LIMIT;
    }

    /**
     * A scatter read into the free part and, if that is smaller than the block on the stack, the
     * block as well; the kernel fills the first part before the second.  Whether the bytes fit,
     * spill or find no room, they are appended exactly, up to the same limit on the write index as
     * in Append; an error changes nothing.
     */
    method ReadFromIO(received: Received) returns (n: int, errorNo: int)
      requires Valid()
      requires received.Bytes? ==> |received.data| <= ReadCapacity()
      modifies this
      ensures received.Failed? ==> Valid() && n == -1 && errorNo == received.error
                                   && Unread() == old(Unread()) && writeIndex == old(writeIndex)
      ensures received.Bytes? ==>
                && n == |received.data| && (Valid() <==> old(writeIndex) + n < U32_LIMIT)
                && (Valid() ==> Unread() == old(Unread()) + received.data)
      ensures Valid() ==> readIndex == old(readIndex)
    {
      errorNo := 0;
      if received.Failed? {
        return -1, received.error;
      }
      var writable := |buffer| - writeIndex;
      n := |received.data|;
      var first := if n <= writable then n else writable;
      var extrabuf := received.data[first..];
      SpliceExtends(buffer, readIndex, writeIndex, received.data[..first]);
      buffer := Splice(buffer, writeIndex, received.data[..first]);
      assert received.data == received.data[..first] + extrabuf;
      if n <= writable {
        writeIndex := writeIndex + n;
      } else {
        writeIndex := |buffer|;
        ghost var stored := Unread();
        Append(extrabuf);
        assert Valid() ==> Unread() == stored + extrabuf;
        assert stored == old(Unread()) + received.data[..first];
        AppendTwice(old(Unread()), received.data, first);
      }
    }

    /** Drops unread bytes from the front; dropping all of them moves both indices back. */
    method ClearReadIndex(len: nat)
      requires Valid()
      modifies this`readIndex, this`writeIndex
      ensures Valid() && Unread() == DropFirst(old(Unread()), len)
      ensures writeIndex == if old(readIndex) + len < old(writeIndex) then old(writeIndex) else 0
    {
      if len < writeIndex - readIndex {
        DropFirstWindow(buffer, readIndex, writeIndex, len);
        readIndex := readIndex + len;
      } else {
        readIndex := 0;
        writeIndex := 0;
      }
    }

    /** readBytes and readAsString: at most len bytes are taken out, from the front. */
    method ReadBytes(len: nat) returns (n: nat, data: seq<byte>)
      requires Valid()
      modifies this`readIndex, this`writeIndex
      ensures Valid() && n == |data|
      ensures n == if len < |old(Unread())| then len else |old(Unread())|
      ensures data + Unread() == old(Unread())
      ensures writeIndex == if n < |old(Unread())| then old(writeIndex) else 0
    {
      n := len;
      if n > writeIndex - readIndex {
        n := writeIndex - readIndex;
      }
      data := buffer[readIndex..readIndex + n];
      TakeAndDrop(buffer, readIndex, writeIndex, n);
      ClearReadIndex(n);
    }

    /** Exchanges two queues without copying. */
    method Swap(rhs: Buffer)
      requires Valid() && rhs.Valid()
      modifies this, rhs
      ensures Valid() && rhs.Valid()
      ensures Unread() == old(rhs.Unread()) && rhs.Unread() == old(Unread())
      ensures buffer == old(rhs.buffer) && rhs.buffer == old(buffer)
    {
      buffer, rhs.buffer := rhs.buffer, buffer;
      readIndex, rhs.readIndex := rhs.readIndex, readIndex;
      writeIndex, rhs.writeIndex := rhs.writeIndex, writeIndex;
    }

    /** std::search for CRLF in the unread bytes; the result counts from their start. */
    method FindCRLF() returns (r: Option<nat>)
      requires Valid()
      ensures r == FirstCrlf(Unread())
    {
      ghost var s := Unread();
      FirstCrlfIsFirst(s);
      var i := readIndex;
      while i + 1 < writeIndex
        invariant readIndex <= i && (i < writeIndex || i == readIndex)
        invariant forall k: nat :: k < i - readIndex ==> !CrlfAt(s, k)
      {
        assert s[i - readIndex] == buffer[i] && s[i + 1 - readIndex] == buffer[i + 1];
        if buffer[i] == CR && buffer[i + 1] == LF {
          assert CrlfAt(s, i - readIndex);
          return Some(i - readIndex);
        }
        i := i + 1;
      }
      return None;
    }

    /** Retrieves up to a position counted from the start of the storage; a position outside the
        unread bytes changes nothing. */
    method RetrieveUntil(end: int)
      requires Valid()
      modifies this`readIndex, this`writeIndex
      ensures Valid()
      ensures old(readIndex) <= end <= old(writeIndex) ==>
                Unread() == DropFirst(old(Unread()), end - old(readIndex))
      ensures !(old(readIndex) <= end <= old(writeIndex)) ==>
                Unread() == old(Unread()) && readIndex == old(readIndex) && writeIndex == old(writeIndex)
      ensures writeIndex <= old(writeIndex)
    {
      if end < readIndex || end > writeIndex {
        return;
      }
      ClearReadIndex(end - readIndex);
    }
  }
}
