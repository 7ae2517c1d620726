/** The ring buffer between decoding and reading (src/RingBuffer.cpp), against a queue of bytes. */
module RingBuffer {
  import opened Bits

  /** n bytes from `from` on, going round at the end. */
  function Around(a: seq<Byte>, from: nat, n: nat): (s: seq<Byte>)
    requires from <= |a| && n <= |a|
    ensures |s| == n
  {
    if from + n <= |a| then a[from..from + n] else a[from..] + a[..from + n - |a|]
  }

  /** Where a pointer is after n more bytes. */
  function Moved(size: nat, p: nat, n: nat): nat
    requires p <= size && n <= size
  {
    var q := if n + p > size then n - (size - p) else p + n;
    if q == size then 0 else q
  }

  lemma AroundAt(a: seq<Byte>, from: nat, n: nat, i: nat)
    requires from <= |a| && n <= |a| && i < n
    ensures Around(a, from, n)[i] == a[if from + i < |a| then from + i else from + i - |a|]
  {
  }

  lemma MovedFits(size: nat, p: nat, n: nat)
    requires p <= size && n <= size && (size > 0 ==> p < size)
    ensures Moved(size, p, n) <= size && (size > 0 ==> Moved(size, p, n) < size)
    ensures Moved(size, p, n) == if p + n < size then p + n else p + n - size
  {
  }

  lemma MovedTwice(size: nat, p: nat, k: nat, n: nat)
    requires p <= size && k <= n <= size && (size > 0 ==> p < size)
    ensures Moved(size, p, k) <= size && Moved(size, Moved(size, p, k), n - k) == Moved(size, p, n)
  {
  }

  /** Taking n bytes from the front leaves the rest. */
  lemma AroundDrop(a: seq<Byte>, from: nat, n: nat, k: nat)
    requires from <= |a| && n <= |a| && k <= n && (|a| > 0 ==> from < |a|)
    ensures Moved(|a|, from, k) <= |a|
    ensures Around(a, from, n)[..k] == Around(a, from, k)
    ensures Around(a, from, n)[k..] == Around(a, Moved(|a|, from, k), n - k)
  {
    hide Around, Moved;
    MovedFits(|a|, from, k);
    var s, t := Around(a, from, n), Around(a, Moved(|a|, from, k), n - k);
    forall i | 0 <= i < k ensures s[i] == Around(a, from, k)[i] {
      AroundAt(a, from, n, i);
      AroundAt(a, from, k, i);
    }
    forall i | 0 <= i < n - k ensures s[k + i] == t[i] {
      AroundAt(a, from, n, k + i);
      AroundAt(a, Moved(|a|, from, k), n - k, i);
    }
  }

  /** Writing behind n bytes that are kept. */
  lemma AroundAppend(a: seq<Byte>, b: seq<Byte>, from: nat, n: nat, bytes: seq<Byte>)
    requires |a| == |b| && from <= |a| && n + |bytes| <= |a| && (|a| > 0 ==> from < |a|)
    requires Around(b, from, n) == Around(a, from, n)
    requires Around(b, Moved(|a|, from, n), |bytes|) == bytes
    ensures Around(b, from, n + |bytes|) == Around(a, from, n) + bytes
  {
    AroundDrop(b, from, n + |bytes|, n);
    var all := Around(b, from, n + |bytes|);
    assert all == all[..n] + all[n..];
  }

  class Ring {
    var m_buffer: array?<Byte>
    var m_size: nat
    var m_readPtr: nat
    var m_writePtr: nat
    var m_fillCount: nat

    ghost predicate Valid()
      reads this
    {
      && m_size < 0x8000_0000
      && (m_buffer == null ==> m_size == 0)
      && (m_buffer != null ==> m_buffer.Length == m_size)
      && m_fillCount <= m_size
      && (if m_size == 0 then m_readPtr == m_writePtr == 0
          else m_readPtr < m_size && m_writePtr == Moved(m_size, m_readPtr, m_fillCount))
    }

    /** The bytes written and not yet read. */
    ghost function Contents(): (s: seq<Byte>)
      requires Valid()
      reads this, m_buffer
      ensures |s| == m_fillCount
    {
      if m_buffer == null then [] else Around(m_buffer[..], m_readPtr, m_fillCount)
    }

    constructor ()
      ensures Valid() && m_buffer == null && Contents() == []
    {
      m_buffer := null;
      m_size, m_readPtr, m_writePtr, m_fillCount := 0, 0, 0, 0;
    }

    method Create(size: nat)
      requires Valid() && m_buffer == null && size < 0x8000_0000
      modifies this
      ensures Valid() && m_buffer != null && fresh(m_buffer) && m_size == size && Contents() == []
    {
      m_buffer := new Byte[size];
      m_size := size;
    }

    method Destroy()
      modifies this
      ensures Valid() && m_buffer == null && Contents() == []
    {
      m_buffer := null;
      m_size, m_readPtr, m_writePtr, m_fillCount := 0, 0, 0, 0;
    }

    method Clear()
      requires Valid()
      modifies this
      ensures Valid() && Contents() == [] && m_buffer == old(m_buffer) && m_size == old(m_size)
    {
      m_readPtr, m_writePtr, m_fillCount := 0, 0, 0;
    }

    method SkipBytes(skipSize: int) returns (ok: bool)
      requires Valid()
      modifies this`m_readPtr, this`m_fillCount
      ensures Valid() && ok == (0 <= skipSize <= |old(Contents())|)
      ensures Contents() == if ok then old(Contents())[skipSize..] else old(Contents())
    {
      hide Around;
      if skipSize < 0 {
        return false;
      }
      if skipSize > m_fillCount {
        return false;
      }
      MovedTwice(m_size, m_readPtr, skipSize, m_fillCount);
      if m_buffer != null {
        AroundDrop(m_buffer[..], m_readPtr, m_fillCount, skipSize);
      }
      if skipSize + m_readPtr > m_size {
        var chunk := m_size - m_readPtr;
        m_readPtr := skipSize - chunk;
      } else {
        m_readPtr := m_readPtr + skipSize;
      }
      if m_readPtr == m_size {
        m_readPtr := 0;
      }
      m_fillCount := m_fillCount - skipSize;
      return true;
    }

    /** Copy n bytes from the read position on, without moving it. */
    method CopyOut(buf: array<Byte>, size: nat)
      requires Valid() && size <= m_fillCount && size <= buf.Length && m_buffer != null && buf != m_buffer
      modifies buf
      ensures buf[..size] == Around(m_buffer[..], m_readPtr, size)
      ensures forall i :: size <= i < buf.Length ==> buf[i] == old(buf[i])
    {
      var chunk := if size + m_readPtr > m_size then m_size - m_readPtr else size;
      for i := 0 to chunk
        invariant forall j :: 0 <= j < i ==> buf[j] == m_buffer[m_readPtr + j]
        invariant forall j :: i <= j < buf.Length ==> buf[j] == old(buf[j])
      {
        buf[i] := m_buffer[m_readPtr + i];
      }
      for i := chunk to size
        invariant forall j :: 0 <= j < chunk ==> buf[j] == m_buffer[m_readPtr + j]
        invariant forall j :: chunk <= j < i ==> buf[j] == m_buffer[j - chunk]
        invariant forall j :: i <= j < buf.Length ==> buf[j] == old(buf[j])
      {
        buf[i] := m_buffer[i - chunk];
      }
    }

    /** ReadData into memory. */
    method ReadData(buf: array<Byte>, size: nat) returns (ok: bool)
      requires Valid() && size <= buf.Length && buf != m_buffer
      modifies this`m_readPtr, this`m_fillCount, buf
      ensures Valid() && ok == (size <= |old(Contents())|)
      ensures ok ==> buf[..size] == old(Contents())[..size] && Contents() == old(Contents())[size..]
      ensures !ok ==> Contents() == old(Contents()) && buf[..] == old(buf[..])
      ensures forall i :: size <= i < buf.Length ==> buf[i] == old(buf[i])
    {
      if size > m_fillCount {
        return false;
      }
      if m_buffer != null {
        AroundDrop(m_buffer[..], m_readPtr, m_fillCount, size);
        CopyOut(buf, size);
      }
      ok := SkipBytes(size);
    }

    /** Copy bytes to the write position, going round at the end. */
    method CopyIn(bytes: seq<Byte>)
      requires Valid() && |bytes| <= m_size - m_fillCount && m_buffer != null && m_size > 0
      modifies m_buffer
      ensures Around(m_buffer[..], m_writePtr, |bytes|) == bytes
      ensures Around(m_buffer[..], m_readPtr, m_fillCount) == old(Around(m_buffer[..], m_readPtr, m_fillCount))
    {
      var chunk := if |bytes| + m_writePtr > m_size then m_size - m_writePtr else |bytes|;
      ghost var before := m_buffer[..];
      for i := 0 to chunk
        invariant forall j :: 0 <= j < m_size ==>
                    m_buffer[j] == if m_writePtr <= j < m_writePtr + i then bytes[j - m_writePtr] else before[j]
      {
        m_buffer[m_writePtr + i] := bytes[i];
      }
      for i := chunk to |bytes|
        invariant forall j :: 0 <= j < m_size ==>
                    m_buffer[j] == if m_writePtr <= j < m_writePtr + chunk then bytes[j - m_writePtr]
                                   else if j < i - chunk then bytes[j + chunk] else before[j]
      {
        m_buffer[i - chunk] := bytes[i];
      }
      CopiedIn(before, m_buffer[..], m_readPtr, m_fillCount, m_writePtr, bytes, chunk);
    }

    /** WriteData from memory. */
    method WriteData(bytes: seq<Byte>) returns (ok: bool)
      requires Valid()
      modifies this`m_writePtr, this`m_fillCount, m_buffer
      ensures Valid() && ok == (|bytes| <= m_size - |old(Contents())|)
      ensures Contents() == if ok then old(Contents()) + bytes else old(Contents())
    {
      hide Around;
      if |bytes| > m_size - m_fillCount {
        return false;
      }
      MovedTwice(m_size, m_readPtr, m_fillCount, m_fillCount + |bytes|);
      if m_buffer != null && m_size > 0 {
        ghost var before := m_buffer[..];
        CopyIn(bytes);
        AroundAppend(before, m_buffer[..], m_readPtr, m_fillCount, bytes);
      }
      if |bytes| + m_writePtr > m_size {
        var chunk := m_size - m_writePtr;
        m_writePtr := |bytes| - chunk;
      } else {
        m_writePtr := m_writePtr + |bytes|;
      }
      if m_writePtr == m_size {
        m_writePtr := 0;
      }
      m_fillCount := m_fillCount + |bytes|;
      return true;
    }

    /** The first bytes as one or two stretches of memory. */
    method Stretches(size: nat) returns (first: seq<Byte>, second: seq<Byte>)
      requires Valid() && size <= m_fillCount
      ensures first + second == Contents()[..size]
    {
      if m_buffer == null {
        return [], [];
      }
      var chunksize := if size < m_size - m_readPtr then size else m_size - m_readPtr;
      AroundDrop(m_buffer[..], m_readPtr, m_fillCount, size);
      first := m_buffer[m_readPtr..m_readPtr + chunksize];
      second := m_buffer[0..size - chunksize];
      assert first + second == Around(m_buffer[..], m_readPtr, size);
    }

    /** Write the first bytes of another ring, in one or two pieces. */
    method WriteFrom(r: Ring, size: nat) returns (ok: bool)
      requires Valid() && r.Valid() && r != this && (r.m_buffer != null ==> r.m_buffer != m_buffer)
      requires size <= r.m_fillCount && size <= m_size - m_fillCount
      modifies this`m_writePtr, this`m_fillCount, m_buffer
      ensures Valid() && ok && Contents() == old(Contents()) + r.Contents()[..size]
      ensures r.Valid() && r.Contents() == old(r.Contents())
    {
      hide Around, Moved;
      ghost var before := Contents();
      ghost var other := r.Contents();
      var first, second := r.Stretches(size);
      ok := WriteData(first);
      if ok && second != [] {
        ok := WriteData(second);
        assert before + first + second == before + (first + second);
      } else {
        assert first + second == first;
      }
    }

    /** ReadData into another ring, which is created if it has no memory yet. */
    method ReadDataTo(r: Ring, size: nat) returns (ok: bool)
      requires Valid() && r.Valid() && r != this && (m_buffer != null ==> m_buffer != r.m_buffer) && size < 0x8000_0000
      modifies this`m_readPtr, this`m_fillCount, r, r.m_buffer
      ensures Valid() && r.Valid()
      ensures r.m_size == (if old(r.m_buffer) == null then size else old(r.m_size))
      ensures ok == (size <= r.m_size - |old(r.Contents())| && size <= |old(Contents())|)
      ensures if ok then r.Contents() == old(r.Contents()) + old(Contents())[..size] && Contents() == old(Contents())[size..]
              else r.Contents() == old(r.Contents()) && Contents() == old(Contents())
    {
      if r.m_buffer == null {
        r.Create(size);
      }
      ok := size <= r.m_size - r.m_fillCount && size <= m_fillCount;
      if ok {
        ok := r.WriteFrom(this, size);
        ok := SkipBytes(size);
      }
    }

    /** WriteData from another ring, which keeps its bytes. */
    method WriteDataFrom(r: Ring, size: nat) returns (ok: bool)
      requires Valid() && r.Valid() && r != this && (r.m_buffer != null ==> r.m_buffer != m_buffer) && size < 0x8000_0000
      modifies this, m_buffer
      ensures Valid() && r.Valid() && r.Contents() == old(r.Contents())
      ensures m_size == (if old(m_buffer) == null then size else old(m_size))
      ensures ok == (size <= |r.Contents()| && size <= m_size - |old(Contents())|)
      ensures Contents() == if ok then old(Contents()) + r.Contents()[..size] else old(Contents())
    {
      if m_buffer == null {
        Create(size);
      }
      ok := size <= r.m_fillCount && size <= m_size - m_fillCount;
      if ok {
        ok := WriteFrom(r, size);
      }
    }

    method Append(r: Ring) returns (ok: bool)
      requires Valid() && r.Valid() && r != this && (r.m_buffer != null ==> r.m_buffer != m_buffer)
      modifies this, m_buffer
      ensures Valid() && r.Valid() && r.Contents() == old(r.Contents())
      ensures ok == (|r.Contents()| <= m_size - |old(Contents())|)
      ensures Contents() == if ok then old(Contents()) + r.Contents() else old(Contents())
    {
      ok := WriteDataFrom(r, r.m_fillCount);
      assert r.Contents()[..|r.Contents()|] == r.Contents();
    }

    method Copy(r: Ring) returns (ok: bool)
      requires Valid() && r.Valid() && r != this && (r.m_buffer != null ==> r.m_buffer != m_buffer)
      modifies this, m_buffer
      ensures Valid() && r.Valid() && r.Contents() == old(r.Contents())
      ensures ok == (|r.Contents()| <= m_size)
      ensures Contents() == if ok then r.Contents() else []
    {
      Clear();
      ok := Append(r);
      assert [] + r.Contents() == r.Contents();
    }
  }

  lemma CopiedIn(before: seq<Byte>, after: seq<Byte>, readPtr: nat, fill: nat, writePtr: nat, bytes: seq<Byte>, chunk: nat)
    requires |before| == |after| > 0 && readPtr < |after| && fill + |bytes| <= |after|
    requires writePtr == Moved(|after|, readPtr, fill)
    requires chunk == if |bytes| + writePtr > |after| then |after| - writePtr else |bytes|
    requires forall j :: 0 <= j < |after| ==>
               after[j] == if writePtr <= j < writePtr + chunk then bytes[j - writePtr]
                           else if j < |bytes| - chunk then bytes[j + chunk] else before[j]
    ensures Around(after, writePtr, |bytes|) == bytes
    ensures Around(after, readPtr, fill) == Around(before, readPtr, fill)
  {
    hide Around;
    MovedFits(|after|, readPtr, fill);
    forall i | 0 <= i < |bytes| ensures Around(after, writePtr, |bytes|)[i] == bytes[i] {
      AroundAt(after, writePtr, |bytes|, i);
    }
    forall i | 0 <= i < fill ensures Around(after, readPtr, fill)[i] == Around(before, readPtr, fill)[i] {
      AroundAt(after, readPtr, fill, i);
      AroundAt(before, readPtr, fill, i);
    }
  }
}
