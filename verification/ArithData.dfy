/** Expanding the arithmetic code into one byte per bit, 32 bits at a time through a table of nibbles, and
    the uncompressed frame (ReadArithmeticCodedData and ReadDSDframe in unpack_dst.c). */
module ArithData {
  import opened Bits
  import opened BitReader

  /** The table for a little-endian machine: byte t of entry n is bit t of the nibble n, first bit first. */
  const SPREAD: seq<nat> := [
    0x00000000, 0x01000000, 0x00010000, 0x01010000,
    0x00000100, 0x01000100, 0x00010100, 0x01010100,
    0x00000001, 0x01000001, 0x00010001, 0x01010001,
    0x00000101, 0x01000101, 0x00010101, 0x01010101]

  /** Byte t of a little-endian int. */
  function IntByte(v: nat, t: nat): Byte
    requires t < 4
  {
    (if t == 0 then v else if t == 1 then v / 0x100 else if t == 2 then v / 0x1_0000 else v / 0x100_0000) % 256
  }

  lemma SpreadValue(n: nat)
    requires n < 16
    ensures SPREAD[n] == n / 8 + 0x100 * (n / 4 % 2) + 0x1_0000 * (n / 2 % 2) + 0x100_0000 * (n % 2)
  {
    assert n == 0 || n == 1 || n == 2 || n == 3 || n == 4 || n == 5 || n == 6 || n == 7
           || n == 8 || n == 9 || n == 10 || n == 11 || n == 12 || n == 13 || n == 14 || n == 15;
  }

  /** A nibble's table entry is its four bits, one per byte. */
  lemma SpreadIsBits(n: nat, t: nat)
    requires n < 16 && t < 4
    ensures IntByte(SPREAD[n], t) == BitsOf(n, 4)[t]
  {
    FourBits(n);
    SpreadValue(n);
    FourBytes(n / 8, n / 4 % 2, n / 2 % 2, n % 2, t);
  }

  lemma FourBytes(a: Byte, b: Byte, c: Byte, d: Byte, t: nat)
    requires t < 4
    ensures IntByte(a + 0x100 * b + 0x1_0000 * c + 0x100_0000 * d, t) == [a, b, c, d][t]
  {
    var v := a + 0x100 * b + 0x1_0000 * c + 0x100_0000 * d;
    DivUnique(v, 0x100, b + 0x100 * c + 0x1_0000 * d, a);
    DivUnique(v / 0x100, 0x100, c + 0x100 * d, b);
    DivUnique(v, 0x1_0000, c + 0x100 * d, a + 0x100 * b);
    DivUnique(v / 0x1_0000, 0x100, d, c);
    DivUnique(v, 0x100_0000, d, a + 0x100 * b + 0x1_0000 * c);
  }

  lemma FourBits(n: nat)
    requires n < 16
    ensures BitsOf(n, 4) == [n / 8, n / 4 % 2, n / 2 % 2, n % 2]
  {
    assert BitsOf(n / 2 / 2 / 2, 1) == [n / 8];
    assert BitsOf(n / 2 / 2, 2) == [n / 8, n / 4 % 2];
    assert BitsOf(n / 2, 3) == [n / 8, n / 4 % 2, n / 2 % 2];
  }

  lemma {:induction false} ShrIsDiv(v: nat, s: nat)
    ensures Shr(v, s) == v / Pow2(s)
    decreases s
  {
    if s > 0 {
      ShrIsDiv(v / 2, s - 1);
      var d := Pow2(s - 1);
      var q := v / 2 / d;
      var r := v / 2 % d;
      Twice(q, d);
      assert v / 2 == q * d + r;
      DivUnique(v, 2 * d, q, 2 * r + v % 2);
    }
  }

  /** (val >> s) & 0xf on the signed word is the nibble of the unsigned one. */
  lemma SignedNibble(v: nat, s: nat)
    requires v < 0x1_0000_0000 && s <= 28
    ensures (Int32(v) / Pow2(s)) % 16 == Shr(v, s) % 16
  {
    hide Pow2, Shr;
    ShrIsDiv(v, s);
    if v < 0x8000_0000 {
      assert Int32(v) == v;
    } else {
      assert Int32(v) == v - 0x1_0000_0000;
      SplitWord(s);
      NibbleOfDifference(v, Pow2(s), Pow2(28 - s));
    }
  }

  lemma SplitWord(s: nat)
    requires s <= 28
    ensures (16 * Pow2(28 - s)) * Pow2(s) == 0x1_0000_0000
  {
    Pow2Values();
    Pow2Sum(4, 28 - s);
    Pow2Sum(32 - s, s);
  }

  lemma NibbleOfDifference(v: nat, d: nat, k: nat)
    requires d > 0 && (16 * k) * d == 0x1_0000_0000
    ensures ((v - 0x1_0000_0000) / d) % 16 == (v / d) % 16
  {
    var q := v / d;
    var r := v % d;
    assert v == q * d + r;
    Difference(q, 16 * k, d);
    DivUnique(v - 0x1_0000_0000, d, q - 16 * k, r);
  }

  lemma Difference(a: int, b: int, d: int)
    ensures (a - b) * d == a * d - b * d
  {
  }

  /** Nibble k of the next 32 bits. */
  lemma NibbleBits(w: seq<Bit>, k: nat)
    requires |w| == 32 && k < 8
    ensures BitsOf((Int32(Value(w)) / Pow2(28 - 4 * k)) % 16, 4) == w[4 * k..4 * k + 4]
  {
    var v := Value(w);
    ValueBound(w);
    Pow2Values();
    SignedNibble(v, 28 - 4 * k);
    BitsOfValue(w);
    FieldValue(v, 32, 28 - 4 * k, 4);
    BitsOfValue(w[4 * k..4 * k + 4]);
  }

  /** Four bytes through an int pointer. */
  method StoreNibble(AData: array<Byte>, at: nat, val: int, k: nat, ghost w: seq<Bit>)
    requires k < 8 && |w| == 32 && val == Int32(Value(w)) && at + 32 <= AData.Length
    modifies AData
    ensures forall i :: 4 * k <= i < 4 * k + 4 ==> AData[at + i] == w[i]
    ensures forall i :: 0 <= i < AData.Length && !(at + 4 * k <= i < at + 4 * k + 4) ==> AData[i] == old(AData[i])
  {
    NibbleBits(w, k);
    var n := (val / Pow2(28 - 4 * k)) % 16;
    ghost var nibble := w[4 * k..4 * k + 4];
    for t := 0 to 4
      invariant forall i :: 0 <= i < t ==> AData[at + 4 * k + i] == nibble[i]
      invariant forall i :: 0 <= i < AData.Length && !(at + 4 * k <= i < at + 4 * k + 4) ==> AData[i] == old(AData[i])
    {
      SpreadIsBits(n, t);
      AData[at + 4 * k + t] := IntByte(SPREAD[n], t);
    }
    forall i | 4 * k <= i < 4 * k + 4 ensures AData[at + i] == w[i] {
      assert AData[at + 4 * k + (i - 4 * k)] == nibble[i - 4 * k];
    }
  }

  /** ReadArithmeticCodedData: the fast loop and the loop for the rest give one byte per bit. */
  method ReadArithmeticCodedData(SD: StrData, len: nat, AData: array<Byte>)
    requires SD.Valid() && SD.Pos() + len <= |SD.Bits()| && len <= AData.Length
    modifies SD, AData
    ensures SD.data == old(SD.data) && SD.Valid() && SD.Pos() == old(SD.Pos()) + len
    ensures AData[..len] == SD.Bits()[old(SD.Pos())..old(SD.Pos()) + len]
  {
    hide BitsOfBytes, Pow2;
    ghost var bits, start := SD.Bits(), SD.Pos();
    var j: nat := 0;
    while j < len - 31
      invariant SD.Valid() && SD.data == old(SD.data) && j <= len && SD.Pos() == start + j
      invariant forall i :: 0 <= i < j ==> AData[i] == bits[start + i]
    {
      ghost var w := bits[start + j..start + j + 32];
      var st, val := SD.BitGetIntUnsigned(32);
      for k := 0 to 8
        modifies AData
        invariant forall i :: 0 <= i < j ==> AData[i] == bits[start + i]
        invariant forall i :: 0 <= i < 4 * k ==> AData[j + i] == w[i]
      {
        StoreNibble(AData, j, val, k, w);
      }
      forall i | 0 <= i < j + 32 ensures AData[i] == bits[start + i] {
        if i >= j { assert AData[j + (i - j)] == w[i - j]; }
      }
      j := j + 32;
    }
    while j < len
      invariant SD.Valid() && SD.data == old(SD.data) && j <= len && SD.Pos() == start + j
      invariant forall i :: 0 <= i < j ==> AData[i] == bits[start + i]
    {
      OneBit(bits, start + j);
      var st, x := SD.BitGetChrUnsigned(1);
      AData[j] := x;
      j := j + 1;
    }
  }

  lemma ByteField(data: seq<Byte>, k: nat)
    requires k < |data|
    ensures GetBits(BitsOfBytes(data), 8 * k, 8) == Done(data[k], 8 * k + 8)
  {
    BitsOfByteAt(data, k);
    Pow2Values();
    ValueOfBits(data[k], 8);
  }

  /** ReadDSDframe: the bytes as they are, and zeros for those that are missing. */
  method ReadDSDframe(SD: StrData, n: nat, frame: array<Byte>)
    requires SD.Valid() && SD.Pos() % 8 == 0 && n <= frame.Length
    modifies SD, frame
    ensures SD.data == old(SD.data)
    ensures frame[..n] == BytesFrom(SD.data, old(SD.Pos()) / 8, n)
    ensures forall i :: n <= i < frame.Length ==> frame[i] == old(frame[i])
  {
    hide GetBits, BitsOfBytes;
    ghost var from := SD.Pos() / 8;
    for byteNr := 0 to n
      invariant SD.Sane() && SD.data == old(SD.data)
      invariant if from + byteNr <= |SD.data| then SD.Pos() == 8 * (from + byteNr) else SD.Pos() > 8 * |SD.data|
      invariant forall i :: 0 <= i < byteNr ==> frame[i] == if from + i < |SD.data| then SD.data[from + i] else 0
      invariant forall i :: n <= i < frame.Length ==> frame[i] == old(frame[i])
    {
      if from + byteNr < |SD.data| {
        ByteField(SD.data, from + byteNr);
      } else {
        NoByteField(SD.data, SD.Pos());
      }
      var st, x := SD.BitGetChrUnsigned(8);
      frame[byteNr] := x;
    }
  }

  lemma NoByteField(data: seq<Byte>, pos: nat)
    requires pos >= 8 * |data|
    ensures GetBits(BitsOfBytes(data), pos, 8) == Fail(NEGATIVE_BIT_ALLOCATION)
  {
  }
}
