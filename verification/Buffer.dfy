/**
 The growable byte buffer of common/Buffer.h: one array, a reader index and a
 writer index. Readable bytes lie between them; space in front of the reader
 serves `Prepend`, and is reclaimed by moving the readable bytes forward in place.
 */
module Buffers {
  import opened Endian
  import opened Text

  const CHEAP_PREPEND: nat := 8
  const INITIAL_SIZE: nat := 1024

  class Buffer {
    var data: array<char>
    var readerIndex: nat
    var writerIndex: nat

    ghost predicate Valid()
      reads this
    {
      readerIndex <= writerIndex <= data.Length && CHEAP_PREPEND <= data.Length
    }

    /** The plain byte sequence this buffer stands for. */
    ghost function Contents(): Bytes
      requires Valid()
      reads this, data
    {
      data[readerIndex..writerIndex]
    }

    constructor (initialSize: nat)
      ensures Valid() && fresh(data) && Contents() == []
      ensures WritableBytes() == initialSize && PrependableBytes() == CHEAP_PREPEND
    {
      data := new char[CHEAP_PREPEND + initialSize];
      readerIndex, writerIndex := CHEAP_PREPEND, CHEAP_PREPEND;
    }

    function ReadableBytes(): (n: nat)
      requires Valid()
      reads this, data
      ensures n == |Contents()|
    {
      writerIndex - readerIndex
    }

    function WritableBytes(): nat
      requires Valid()
      reads this
    {
      data.Length - writerIndex
    }

    function PrependableBytes(): nat
      requires Valid()
      reads this
    {
      readerIndex
    }

    method Retrieve(len: nat)
      requires Valid() && len <= |Contents()|
      modifies this
      ensures Valid() && data == old(data)
      ensures Contents() == old(Contents())[len..]
      ensures PrependableBytes() ==
              if len == |old(Contents())| then CHEAP_PREPEND else old(PrependableBytes()) + len
    {
      if len < ReadableBytes() {
        readerIndex := readerIndex + len;
      } else {
        RetrieveAll();
      }
    }

    method RetrieveAll()
      requires Valid()
      modifies this
      ensures Valid() && data == old(data)
      ensures Contents() == [] && PrependableBytes() == CHEAP_PREPEND
    {
      readerIndex, writerIndex := CHEAP_PREPEND, CHEAP_PREPEND;
    }

    method RetrieveAsString(len: nat) returns (s: Bytes)
      requires Valid() && len <= |Contents()|
      modifies this
      ensures Valid() && data == old(data)
      ensures s == old(Contents())[..len] && Contents() == old(Contents())[len..]
    {
      s := data[readerIndex..readerIndex + len];
      Retrieve(len);
    }

    method Unwrite(len: nat)
      requires Valid() && len <= |Contents()|
      modifies this
      ensures Valid() && data == old(data)
      ensures Contents() == old(Contents())[..|old(Contents())| - len]
      ensures PrependableBytes() == old(PrependableBytes())
    {
      writerIndex := writerIndex - len;
    }

    /** Moves the readable bytes down to `CHEAP_PREPEND`; source and target may overlap. */
    method Compact()
      requires Valid() && CHEAP_PREPEND < readerIndex
      modifies this, data
      ensures Valid() && data == old(data)
      ensures readerIndex == CHEAP_PREPEND && Contents() == old(Contents())
    {
      var readable, shift := ReadableBytes(), readerIndex - CHEAP_PREPEND;
      ghost var before := data[..];
      var target := CHEAP_PREPEND;
      while target < CHEAP_PREPEND + readable
        invariant CHEAP_PREPEND <= target <= CHEAP_PREPEND + readable
        invariant forall k :: CHEAP_PREPEND <= k < target ==> data[k] == before[k + shift]
        invariant forall k :: target + shift <= k < writerIndex ==> data[k] == before[k]
        modifies data
      {
        data[target] := data[target + shift];
        target := target + 1;
      }
      ShiftedSlice(data[..], before, CHEAP_PREPEND, target, shift);
      readerIndex, writerIndex := CHEAP_PREPEND, target;
    }

    /** Both ways of making room: a longer array, or compaction of the present one. */
    method MakeSpace(len: nat)
      requires Valid() && WritableBytes() < len
      modifies this, data
      ensures Valid() && (data == old(data) || fresh(data))
      ensures Contents() == old(Contents()) && WritableBytes() >= len
      ensures PrependableBytes() == if data == old(data) then CHEAP_PREPEND else old(PrependableBytes())
      ensures WritableBytes() == if data == old(data) then old(WritableBytes() + PrependableBytes()) - CHEAP_PREPEND else len
      ensures data == old(data) <==> old(WritableBytes() + PrependableBytes()) >= len + CHEAP_PREPEND
    {
      if WritableBytes() + PrependableBytes() < len + CHEAP_PREPEND {
        var larger := new char[writerIndex + len];
        forall i | 0 <= i < writerIndex {
          larger[i] := data[i];
        }
        data := larger;
      } else {
        assert CHEAP_PREPEND < readerIndex;
        Compact();
      }
    }

    method EnsureWritableBytes(len: nat)
      requires Valid()
      modifies this, data
      ensures Valid() && (data == old(data) || fresh(data))
      ensures Contents() == old(Contents()) && WritableBytes() >= len
      ensures old(WritableBytes()) >= len ==> readerIndex == old(readerIndex)
      ensures PrependableBytes() == old(PrependableBytes()) || PrependableBytes() == CHEAP_PREPEND
    {
      if WritableBytes() < len {
        MakeSpace(len);
      }
    }

    method Append(bytes: Bytes)
      requires Valid()
      modifies this, data
      ensures Valid() && (data == old(data) || fresh(data))
      ensures Contents() == old(Contents()) + bytes
      ensures PrependableBytes() == old(PrependableBytes()) || PrependableBytes() == CHEAP_PREPEND
    {
      EnsureWritableBytes(|bytes|);
      Fill(bytes);
    }

    /** Bytes stored directly in the writable area, then claimed with hasWritten. */
    method Fill(bytes: Bytes)
      requires Valid() && |bytes| <= WritableBytes()
      modifies this, data
      ensures Valid() && data == old(data) && readerIndex == old(readerIndex)
      ensures Contents() == old(Contents()) + bytes
    {
      forall i | 0 <= i < |bytes| {
        data[writerIndex + i] := bytes[i];
      }
      writerIndex := writerIndex + |bytes|;
    }

    method Prepend(bytes: Bytes)
      requires Valid() && |bytes| <= PrependableBytes()
      modifies this, data
      ensures Valid() && data == old(data)
      ensures Contents() == bytes + old(Contents())
      ensures PrependableBytes() == old(PrependableBytes()) - |bytes|
    {
      readerIndex := readerIndex - |bytes|;
      forall i | 0 <= i < |bytes| {
        data[readerIndex + i] := bytes[i];
      }
    }

    /** `len` readable bytes from position `at`. */
    method Peek(at: nat, len: nat) returns (s: Bytes)
      requires Valid() && at + len <= |Contents()|
      ensures s == Contents()[at..at + len]
    {
      s := data[readerIndex..writerIndex][at..at + len];
    }

    method PeekInt32() returns (x: int)
      requires Valid() && |Contents()| >= 4
      ensures x == Int32Of(Contents()[..4])
    {
      var s := Peek(0, 4);
      x := Int32Of(s);
    }

    method FindCRLF() returns (at: nat)
      requires Valid()
      ensures at == FindCrlf(Contents())
    {
      at := 0;
      var n := ReadableBytes();
      while at < n && !(at + 1 < n && data[readerIndex + at] == '\r' && data[readerIndex + at + 1] == '\n')
        invariant at <= n
        invariant forall j :: 0 <= j < at ==> !CrlfAt(Contents(), j)
      {
        at := at + 1;
      }
      if at < n {
        assert CrlfAt(Contents(), at);
        FindCrlfUnique(Contents(), at);
      }
    }

    /** One operation, refused if it asks for more than there is. */
    method Do(op: Operation) returns (ok: bool)
      requires Valid()
      modifies this, data
      ensures Valid() && (data == old(data) || fresh(data))
      ensures ok ==> Allowed(old(Contents()), op) && Contents() == Applied(old(Contents()), op)
      ensures !ok ==> Contents() == old(Contents()) && Refused(op)
    {
      ok := true;
      match op {
        case Append(bytes) =>
          Append(bytes);
        case Prepend(bytes) =>
          if |bytes| > PrependableBytes() { return false; }
          Prepend(bytes);
        case Retrieve(n) =>
          if n > ReadableBytes() { return false; }
          Retrieve(n);
        case Unwrite(n) =>
          if n > ReadableBytes() { return false; }
          Unwrite(n);
      }
    }

    /** More than is readable, or more than fits in front. */
    ghost predicate Refused(op: Operation)
      requires Valid()
      reads this, data
    {
      match op
      case Append(_) => false
      case Prepend(bytes) => |bytes| > PrependableBytes()
      case Retrieve(n) => n > |Contents()|
      case Unwrite(n) => n > |Contents()|
    }

    /** Runs a list of operations, up to the first that fails its own assertion. */
    method Perform(ops: seq<Operation>) returns (count: nat)
      requires Valid()
      modifies this, data
      ensures Valid() && (data == old(data) || fresh(data))
      ensures count <= |ops| && Permitted(old(Contents()), ops[..count])
      ensures Contents() == After(old(Contents()), ops[..count])
      ensures count < |ops| ==> Refused(ops[count])
    {
      count := 0;
      while count < |ops|
        invariant count <= |ops|
        invariant Valid() && (data == old(data) || fresh(data))
        invariant Permitted(old(Contents()), ops[..count])
        invariant Contents() == After(old(Contents()), ops[..count])
      {
        var ok := Do(ops[count]);
        if !ok { return; }
        assert ops[..count + 1][..count] == ops[..count];
        count := count + 1;
      }
    }
  }

  lemma ShiftedSlice(a: Bytes, b: Bytes, lo: nat, hi: nat, shift: nat)
    requires lo <= hi <= |a| && hi + shift <= |b|
    requires forall k :: lo <= k < hi ==> a[k] == b[k + shift]
    ensures a[lo..hi] == b[lo + shift..hi + shift]
  {
    forall m | 0 <= m < hi - lo ensures a[lo..hi][m] == b[lo + shift..hi + shift][m] {
      assert a[lo + m] == b[lo + m + shift];
    }
  }

  datatype Operation = Append(bytes: Bytes) | Prepend(bytes: Bytes) | Retrieve(n: nat) | Unwrite(n: nat)

  /** What an operation means for a plain sequence of bytes. */
  ghost function Applied(s: Bytes, op: Operation): Bytes {
    match op
    case Append(bytes) => s + bytes
    case Prepend(bytes) => bytes + s
    case Retrieve(n) => if n <= |s| then s[n..] else []
    case Unwrite(n) => if n <= |s| then s[..|s| - n] else []
  }

  /** It takes no more than is there. */
  ghost predicate Allowed(s: Bytes, op: Operation) {
    match op
    case Retrieve(n) => n <= |s|
    case Unwrite(n) => n <= |s|
    case _ => true
  }

  ghost function After(s: Bytes, ops: seq<Operation>): Bytes {
    if ops == [] then s else Applied(After(s, ops[..|ops| - 1]), ops[|ops| - 1])
  }

  ghost predicate Permitted(s: Bytes, ops: seq<Operation>) {
    ops == [] || (Permitted(s, ops[..|ops| - 1]) && Allowed(After(s, ops[..|ops| - 1]), ops[|ops| - 1]))
  }
}
