/** Reading bits from a frame held in memory (dst_data.c). */
module BitReader {
  import opened Bits

  /** Outcome of parsing part of a frame: a value and the position after it, the decoder's error
      code, or input on which the source reads what it never set. */
  datatype Parse<+T> = Done(value: T, pos: nat) | Fail(error: int) | Undefined
  {
    predicate IsFailure() { !Done? }
    function PropagateFailure<U>(): Parse<U> requires !Done? { if Fail? then Fail(error) else Undefined }
    function Extract(): (T, nat) requires Done? { (value, pos) }
  }

  const NEGATIVE_BIT_ALLOCATION := 1

  /** n bits as an unsigned number. */
  function GetBits(bits: seq<Bit>, pos: nat, n: nat): (r: Parse<nat>)
    ensures r.Done? <==> pos + n <= |bits|
    ensures r.Done? ==> r.pos == pos + n && r.value < Pow2(n)
    ensures !r.Done? ==> r == Fail(NEGATIVE_BIT_ALLOCATION)
  {
    if pos + n <= |bits| then
      ValueBound(bits[pos..pos + n]);
      Done(Value(bits[pos..pos + n]), pos + n)
    else Fail(NEGATIVE_BIT_ALLOCATION)
  }

  /** What assigning a long to an int leaves. */
  function Int32(x: int): int {
    (x + 0x8000_0000) % 0x1_0000_0000 - 0x8000_0000
  }

  /** n bits as a two's complement number. */
  function Signed(v: nat, n: nat): int
    requires n > 0
  {
    if v >= Pow2(n - 1) then v - Pow2(n) else v
  }

  /** The next k bits are (byte >> (bitpos - k)) & (2^k - 1), byte being the current one. */
  lemma FieldOfByte(data: seq<Byte>, counter: nat, bitpos: nat, k: nat)
    requires 0 < counter <= |data| && k <= bitpos <= 8
    ensures var pos := 8 * counter - bitpos;
            pos + k <= |BitsOfBytes(data)|
            && Value(BitsOfBytes(data)[pos..pos + k]) == Shr(data[counter - 1], bitpos - k) % Pow2(k)
  {
    var b := counter - 1;
    var o := 8 - bitpos;
    BitsOfByteAt(data, b);
    FieldValue(data[b], 8, bitpos - k, k);
    SliceOfSlice(BitsOfBytes(data), 8 * b, 8, o, k);
  }

  /** One round of the getbits loop puts k more bits in place. */
  lemma Append(bits: seq<Bit>, start: nat, pos: nat, k: nat, left: nat, word: nat, field: nat)
    requires start <= pos && pos + k <= |bits| && k <= left
    requires word == Value(bits[start..pos]) * Pow2(left) && field == Value(bits[pos..pos + k])
    ensures word + field * Pow2(left - k) == Value(bits[start..pos + k]) * Pow2(left - k)
  {
    var s := bits[start..pos];
    var t := bits[pos..pos + k];
    ValueConcat(s, t);
    assert s + t == bits[start..pos + k];
    Accumulate(Value(s), field, k, left - k);
  }

  /** The bits taken from one byte, shifted to their place in the word. */
  method Place(byte: Byte, bitpos: nat, thisbits: nat, left: nat) returns (placed: nat)
    requires thisbits <= bitpos <= 8 && thisbits <= left
    ensures placed == (Shr(byte, bitpos - thisbits) % Pow2(thisbits)) * Pow2(left - thisbits)
  {
    var shift: int := bitpos - thisbits;
    // byte & (masks[thisbits] << shift)
    var field := Shr(byte, shift) % Pow2(thisbits);
    var masked := field * Pow2(shift);
    ghost var down := shift;
    shift := (left - thisbits) - shift;
    if shift <= 0 {
      ShrMul(field, down, -shift);
      placed := Shr(masked, -shift);
    } else {
      MulShift(field, down, shift);
      placed := masked * Pow2(shift);
    }
  }

  /** The bit string w stands at pos. */
  predicate At(bits: seq<Bit>, pos: nat, w: seq<Bit>) {
    pos + |w| <= |bits| && bits[pos..pos + |w|] == w
  }

  lemma AtSplit(bits: seq<Bit>, pos: nat, u: seq<Bit>, w: seq<Bit>)
    requires At(bits, pos, u + w)
    ensures At(bits, pos, u) && At(bits, pos + |u|, w)
  {
    var all := bits[pos..pos + |u + w|];
    assert all[..|u|] == u && all[|u|..] == w;
    assert bits[pos..pos + |u|] == all[..|u|];
    assert bits[pos + |u|..pos + |u| + |w|] == all[|u|..];
  }

  lemma ReadField(bits: seq<Bit>, pos: nat, v: nat, n: nat)
    requires v < Pow2(n) && At(bits, pos, BitsOf(v, n))
    ensures GetBits(bits, pos, n) == Done(v, pos + n)
  {
    ValueOfBits(v, n);
  }

  lemma ReadFlag(bits: seq<Bit>, pos: nat, b: Bit)
    requires At(bits, pos, [b])
    ensures GetBits(bits, pos, 1) == Done(b, pos + 1)
  {
    assert BitsOf(b, 1) == [b];
    assert Pow2(1) == 2;
    ReadField(bits, pos, b, 1);
  }

  lemma OneBit(bits: seq<Bit>, pos: nat)
    requires pos < |bits|
    ensures GetBits(bits, pos, 1) == Done(bits[pos], pos + 1)
  {
    assert bits[pos..pos + 1] == [bits[pos]];
    ReadFlag(bits, pos, bits[pos]);
  }

  class StrData {
    var data: seq<Byte>        // pDSTdata, TotalBytes long
    var ByteCounter: nat
    var BitPosition: nat
    var DataByte: Byte

    function Bits(): seq<Bit>
      reads this
    {
      BitsOfBytes(data)
    }

    /** Inside the data, or past its end with nothing left of the last byte. */
    ghost predicate Sane()
      reads this
    {
      && BitPosition <= 8 * ByteCounter && BitPosition <= 8
      && (BitPosition > 0 ==> ByteCounter <= |data| && DataByte == data[ByteCounter - 1])
    }

    ghost predicate Valid()
      reads this
    {
      Sane() && ByteCounter <= |data|
    }

    /** get_in_bitcount */
    function Pos(): nat
      requires Sane()
      reads this
    {
      8 * ByteCounter - BitPosition
    }

    constructor ()
      ensures Valid() && data == [] && Pos() == 0
    {
      data, ByteCounter, BitPosition, DataByte := [], 0, 0, 0;
    }

    /** FillBuffer: whatever was being read before is forgotten. */
    method FillBuffer(buf: seq<Byte>)
      modifies this
      ensures Valid() && data == buf && Pos() == 0
    {
      data := buf;
      ByteCounter, BitPosition, DataByte := 0, 0, 0;
    }

    /** Move on to the next byte when the current one is used up. */
    method Refill() returns (eof: bool)
      requires Sane()
      modifies this
      ensures data == old(data) && Sane()
      ensures eof <==> old(Pos()) >= 8 * |data|
      ensures eof ==> Pos() > 8 * |data|
      ensures !eof ==> Valid() && Pos() == old(Pos()) && BitPosition > 0
    {
      eof := false;
      if BitPosition == 0 {
        if ByteCounter >= |data| {
          ByteCounter := ByteCounter + 1;
          eof := true;
        } else {
          DataByte := data[ByteCounter];
          ByteCounter := ByteCounter + 1;
          BitPosition := 8;
        }
      }
    }

    /** The fast path of getbits for a single bit. */
    method GetOneBit() returns (status: int, outword: nat)
      requires Sane()
      modifies this
      ensures data == old(data) && Sane()
      ensures status == if old(Pos()) + 1 <= |Bits()| then 0 else -1
      ensures status != 0 ==> Pos() > |Bits()|
      ensures status == 0 ==> Valid() && Pos() == old(Pos()) + 1
      ensures status == 0 ==> outword == Value(Bits()[old(Pos())..old(Pos()) + 1])
    {
      var eof := Refill();
      if eof {
        return -1, 0;
      }
      FieldOfByte(data, ByteCounter, BitPosition, 1);
      assert Pow2(1) == 2;
      BitPosition := BitPosition - 1;
      return 0, Shr(DataByte, BitPosition) % 2;
    }

    /** The next k bits go to their place in the word. */
    method TakeField(k: nat, left: nat, ghost start: nat, word: nat) returns (r: nat)
      requires Valid() && 0 < k <= BitPosition && k <= left && start <= Pos()
      requires Pos() <= |Bits()| && word == Value(Bits()[start..Pos()]) * Pow2(left)
      modifies this`BitPosition
      ensures Valid() && Pos() == old(Pos()) + k && Pos() <= |Bits()|
      ensures r == Value(Bits()[start..Pos()]) * Pow2(left - k)
    {
      hide BitsOfBytes, Value, Shr, Pow2;
      FieldOfByte(data, ByteCounter, BitPosition, k);
      var placed := Place(DataByte, BitPosition, k, left);
      Append(Bits(), start, Pos(), k, left, word, Shr(DataByte, BitPosition - k) % Pow2(k));
      BitPosition := BitPosition - k;
      r := word + placed;
    }

    /** getbits: -1 at the end of the data, else 0 and the next n bits. */
    method GetBitsRaw(n: nat) returns (status: int, outword: nat)
      requires Sane() && 0 < n <= 32
      modifies this
      ensures data == old(data) && Sane()
      ensures status == if old(Pos()) + n <= |Bits()| then 0 else -1
      ensures status != 0 ==> Pos() > |Bits()|
      ensures n > 1 && old(Pos()) >= |Bits()| ==> outword == 0
      ensures status == 0 ==> Valid() && Pos() == old(Pos()) + n
      ensures status == 0 ==> outword == Value(Bits()[old(Pos())..old(Pos()) + n])
    {
      if n == 1 {
        status, outword := GetOneBit();
        return;
      }
      outword := 0;
      var left: nat := n;
      ghost var start := Pos();
      ghost var bits := Bits();
      while left > 0
        invariant Sane() && data == old(data) && left <= n
        invariant Pos() == start + (n - left) && (left < n ==> Valid() && Pos() <= |bits|)
        invariant if left == n then outword == 0 else outword == Value(bits[start..Pos()]) * Pow2(left)
      {
        var eof := Refill();
        if eof {
          return -1, outword;
        }
        assert bits[start..start] == [];
        var thisbits := if BitPosition < left then BitPosition else left;
        outword := TakeField(thisbits, left, start, outword);
        left := left - thisbits;
      }
      return 0, outword;
    }

    /** FIO_BitGetIntUnsigned */
    method BitGetIntUnsigned(len: int) returns (status: int, x: int)
      requires Valid() && len <= 32
      modifies this
      ensures data == old(data)
      ensures len < 0 ==> status == -1
      ensures len >= 0 ==> status == (if GetBits(Bits(), old(Pos()), len).Done? then 0 else -1)
      ensures len >= 0 && status == 0 ==>
                var r := GetBits(Bits(), old(Pos()), len);
                Valid() && Pos() == r.pos && x == Int32(r.value) && (len < 32 ==> x == r.value)
    {
      status, x := -1, 0;
      if len > 0 {
        var tmp;
        status, tmp := GetBitsRaw(len);
        x := Int32(tmp);
        if status == 0 {
          Pow2Values();
          Pow2Monotone(len, 31);
        }
      } else if len == 0 {
        x := 0;
        status := 0;
      }
    }

    /** FIO_BitGetShortSigned */
    method BitGetShortSigned(len: int) returns (status: int, x: int)
      requires Valid() && len <= 31
      modifies this
      ensures data == old(data)
      ensures len < 0 ==> status == -1
      ensures len >= 0 ==> status == (if GetBits(Bits(), old(Pos()), len).Done? then 0 else -1)
      ensures len >= 0 && status == 0 ==>
                var r := GetBits(Bits(), old(Pos()), len);
                && Valid() && Pos() == r.pos
                && x == if len == 0 then 0 else if len <= 16 then Signed(r.value, len) else Int16(r.value)
    {
      hide BitsOfBytes, Pow2, Int16, Signed;
      status, x := -1, 0;
      if len > 0 {
        ghost var g := GetBits(Bits(), Pos(), len);
        var tmp;
        status, tmp := GetBitsRaw(len);
        assert status == 0 ==> g.Done? && tmp == g.value;
        x := Int16(tmp);
        if status == 0 {
          ShortOf(tmp, len);
        }
        if x >= Pow2(len - 1) {
          x := x - Pow2(len);
        }
      } else if len == 0 {
        x := 0;
        status := 0;
      }
    }

    /** FIO_BitGetChrUnsigned; past the end of the data it gives 0. */
    method BitGetChrUnsigned(len: int) returns (status: int, x: Byte)
      requires Sane() && len <= 31
      modifies this
      ensures data == old(data) && Sane()
      ensures len < 0 ==> status == -1
      ensures len == 0 ==> status == 0 && x == 0 && Pos() == old(Pos())
      ensures len > 0 ==> status == (if GetBits(Bits(), old(Pos()), len).Done? then 0 else -1)
      ensures len > 0 && status == 0 ==>
                var r := GetBits(Bits(), old(Pos()), len);
                Valid() && Pos() == r.pos && x == r.value % 256 && (len <= 8 ==> x == r.value)
      ensures len > 0 && status != 0 ==> Pos() > |Bits()|
      ensures len > 1 && old(Pos()) >= |Bits()| ==> x == 0
    {
      hide BitsOfBytes, Pow2;
      status, x := -1, 0;
      if len > 0 {
        ghost var g := GetBits(Bits(), Pos(), len);
        var tmp;
        status, tmp := GetBitsRaw(len);
        assert status == 0 ==> g.Done? && tmp == g.value;
        x := tmp % 256;
        if len <= 8 {
          Pow2Values();
          Pow2Monotone(len, 8);
        }
      } else if len == 0 {
        x := 0;
        status := 0;
      }
    }
  }

  /** The cast to short and the correction of the sign. */
  lemma ShortOf(v: nat, len: nat)
    requires 0 < len <= 31 && v < Pow2(len)
    ensures (if Int16(v) >= Pow2(len - 1) then Int16(v) - Pow2(len) else Int16(v))
            == if len <= 16 then Signed(v, len) else Int16(v)
  {
    hide Pow2;
    Powers16();
    if len < 16 {
      Pow2Monotone(len, 15);
    } else if len > 16 {
      Pow2Monotone(16, len - 1);
    }
  }

  lemma Powers16()
    ensures Pow2(15) == 32768 && Pow2(16) == 65536
  {
    Pow2Values();
    assert Pow2(16) == 2 * Pow2(15);
  }

  /** The n bytes from a place in the data, zeros past its end. */
  function BytesFrom(data: seq<Byte>, from: nat, n: nat): (s: seq<Byte>)
    ensures |s| == n
  {
    seq(n, i requires 0 <= i < n => if from + i < |data| then data[from + i] else 0)
  }

  /** An unsigned field of at most 31 bits, or the error for a frame that ends first. */
  method ReadInt(SD: StrData, len: nat) returns (error: int, x: nat)
    requires SD.Valid() && len <= 31
    modifies SD
    ensures SD.data == old(SD.data)
    ensures error == 0 || (error == NEGATIVE_BIT_ALLOCATION && GetBits(SD.Bits(), old(SD.Pos()), len) == Fail(error))
    ensures error == 0 ==> SD.Valid() && GetBits(SD.Bits(), old(SD.Pos()), len) == Done(x, SD.Pos())
  {
    var st, v := SD.BitGetIntUnsigned(len);
    if st != 0 {
      return NEGATIVE_BIT_ALLOCATION, 0;
    }
    return 0, v;
  }

  lemma {:induction false} Pow2Monotone(m: nat, n: nat)
    ensures m <= n ==> Pow2(m) <= Pow2(n)
    decreases n
  {
    if m < n { Pow2Monotone(m, n - 1); }
  }

  lemma MulShift(x: nat, a: nat, b: nat)
    ensures x * Pow2(a) * Pow2(b) == x * Pow2(a + b)
  {
    Pow2Sum(a, b);
    assert x * (Pow2(a) * Pow2(b)) == x * Pow2(a) * Pow2(b);
  }

  lemma Accumulate(v: nat, field: nat, k: nat, rest: nat)
    ensures v * Pow2(k + rest) + field * Pow2(rest) == (v * Pow2(k) + field) * Pow2(rest)
  {
    MulShift(v, k, rest);
  }
}
