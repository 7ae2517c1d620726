/** Bits, bytes, and the integers that bit strings stand for. */
module Bits {
  type Bit = b: int | 0 <= b <= 1
  type Byte = b: int | 0 <= b < 256
  type Bytes = seq<Byte>

  datatype Option<+T> = None | Some(value: T)

  function Min(a: nat, b: nat): nat { if a < b then a else b }

  function Max(a: nat, b: nat): nat { if a < b then b else a }

  /** What assigning an int to an int16_t leaves. */
  function Int16(x: int): (r: int)
    ensures -32768 <= r <= 32767 && (x - r) % 65536 == 0
  {
    (x + 32768) % 65536 - 32768
  }

  function Copies<T>(x: T, n: nat): seq<T> {
    seq(n, _ => x)
  }

  /** Pieces put together. */
  function Joined(pieces: seq<Bytes>): Bytes {
    if pieces == [] then [] else Joined(pieces[..|pieces| - 1]) + pieces[|pieces| - 1]
  }

  lemma SliceOfSlice<T>(s: seq<T>, from: nat, n: nat, o: nat, k: nat)
    requires from + n <= |s| && o + k <= n
    ensures s[from..from + n][o..o + k] == s[from + o..from + o + k]
  {
    var t := s[from..from + n][o..o + k];
    var u := s[from + o..from + o + k];
    forall i | 0 <= i < k ensures t[i] == u[i] { }
  }

  function Pow2(n: nat): (r: nat)
    ensures r > 0
  {
    if n == 0 then 1 else 2 * Pow2(n - 1)
  }

  lemma {:induction false} Pow2Sum(m: nat, n: nat)
    ensures Pow2(m + n) == Pow2(m) * Pow2(n)
  {
    if m > 0 {
      Pow2Sum(m - 1, n);
      assert m + n - 1 == (m - 1) + n;
    }
  }

  /** v >> k */
  function Shr(v: nat, k: nat): nat {
    if k == 0 then v else Shr(v / 2, k - 1)
  }

  /** (v >> k) & 1 */
  function BitAt(v: nat, k: nat): Bit {
    Shr(v, k) % 2
  }

  /** The integer of a bit string, most significant bit first. */
  function Value(s: seq<Bit>): nat {
    if s == [] then 0 else 2 * Value(s[..|s| - 1]) + s[|s| - 1]
  }

  /** The n low bits of v, most significant first. */
  function BitsOf(v: nat, n: nat): (s: seq<Bit>)
    ensures |s| == n
  {
    if n == 0 then [] else BitsOf(v / 2, n - 1) + [v % 2]
  }

  /** The n low bits of v, least significant first. */
  function LowBits(v: nat, n: nat): (s: seq<Bit>)
    ensures |s| == n
  {
    if n == 0 then [] else [v % 2] + LowBits(v / 2, n - 1)
  }

  lemma {:induction false} ValueBound(s: seq<Bit>)
    ensures Value(s) < Pow2(|s|)
  {
    if s != [] { ValueBound(s[..|s| - 1]); }
  }

  lemma {:induction false} BitsOfValue(s: seq<Bit>)
    ensures BitsOf(Value(s), |s|) == s
  {
    if s != [] {
      BitsOfValue(s[..|s| - 1]);
      assert s == s[..|s| - 1] + [s[|s| - 1]];
    }
  }

  lemma {:induction false} ValueOfBits(v: nat, n: nat)
    requires v < Pow2(n)
    ensures Value(BitsOf(v, n)) == v
  {
    if n > 0 {
      ValueOfBits(v / 2, n - 1);
      assert BitsOf(v, n)[..n - 1] == BitsOf(v / 2, n - 1);
    }
  }

  lemma ValueSnoc(s: seq<Bit>, b: Bit)
    ensures Value(s + [b]) == 2 * Value(s) + b
  {
    assert (s + [b])[..|s|] == s;
  }

  lemma DoubleSum(v: nat, p: nat, w: nat, b: nat)
    ensures 2 * (v * p + w) + b == v * (2 * p) + (2 * w + b)
  {
  }

  lemma {:induction false} ValueConcat(s: seq<Bit>, t: seq<Bit>)
    ensures Value(s + t) == Value(s) * Pow2(|t|) + Value(t)
  {
    hide Value;
    if t == [] {
      ValueOfNothing(s);
    } else {
      var u, b := t[..|t| - 1], t[|t| - 1];
      ValueConcat(s, u);
      assert u + [b] == t && s + t == s + u + [b];
      ValueSnoc(u, b);
      ValueSnoc(s + u, b);
      DoubleSum(Value(s), Pow2(|u|), Value(u), b);
    }
  }

  lemma ValueOfNothing(s: seq<Bit>)
    ensures s + [] == s && Value([]) == 0 && Value(s) == Value(s) * Pow2(0)
  {
  }

  /** Dropping low bits of the integer drops the tail of its bit string. */
  lemma {:induction false} BitsOfShift(v: nat, n: nat, k: nat)
    requires k <= n
    ensures BitsOf(v, n)[..n - k] == BitsOf(Shr(v, k), n - k)
  {
    if k == 0 {
      assert BitsOf(v, n)[..n] == BitsOf(v, n);
    } else {
      BitsOfShift(v / 2, n - 1, k - 1);
      assert BitsOf(v, n)[..n - k] == BitsOf(v / 2, n - 1)[..n - k];
    }
  }

  lemma MulMonotone(a: int, b: int, d: int)
    requires a <= b && d >= 0
    ensures a * d <= b * d
  {
    assert (b - a) * d >= 0;
  }

  lemma DivUnique(v: int, d: int, q: int, r: int)
    requires d > 0 && 0 <= r < d && v == q * d + r
    ensures v / d == q && v % d == r
  {
    var e := v / d;
    var f := v % d;
    assert v == e * d + f;
    if e < q { MulMonotone(e + 1, q, d); } else if q < e { MulMonotone(q + 1, e, d); }
  }

  lemma Twice(x: int, y: int)
    ensures x * (2 * y) == 2 * (x * y)
  {
  }

  lemma DivSmaller(a: nat, b: nat)
    requires b > 0
    ensures a / b <= a
  {
    var q := a / b;
    assert a == q * b + a % b;
    MulMonotone(1, b, q);
  }

  lemma HalfMod(v: nat, d: nat)
    requires d > 0
    ensures (v % (2 * d)) % 2 == v % 2 && (v % (2 * d)) / 2 == (v / 2) % d
  {
    var q := v / (2 * d);
    var r := v % (2 * d);
    assert v == q * (2 * d) + r;
    Twice(q, d);
    var m := q * d;
    assert v == 2 * m + r;
    DivUnique(v / 2, d, q, r / 2);
  }

  /** The tail of the bit string only depends on the integer modulo a power of two. */
  lemma {:induction false} BitsOfMod(v: nat, n: nat, k: nat)
    requires n <= k
    ensures BitsOf(v % Pow2(k), n) == BitsOf(v, n)
  {
    if n > 0 {
      HalfMod(v, Pow2(k - 1));
      BitsOfMod(v / 2, n - 1, k - 1);
    }
  }

  lemma {:induction false} LowBitsShift(v: nat, n: nat, k: nat)
    requires k <= n
    ensures LowBits(v, n)[k..] == LowBits(Shr(v, k), n - k)
  {
    if k > 0 {
      LowBitsShift(v / 2, n - 1, k - 1);
      assert LowBits(v, n)[k..] == LowBits(v / 2, n - 1)[k - 1..];
    }
  }

  lemma {:induction false} LowBitsMod(v: nat, n: nat, k: nat)
    requires n <= k
    ensures LowBits(v % Pow2(k), n) == LowBits(v, n)
  {
    if n > 0 {
      HalfMod(v, Pow2(k - 1));
      LowBitsMod(v / 2, n - 1, k - 1);
    }
  }

  lemma {:induction false} LowBitsTake(v: nat, n: nat, k: nat)
    requires k <= n
    ensures LowBits(v, n)[..k] == LowBits(v, k)
  {
    if k > 0 {
      LowBitsTake(v / 2, n - 1, k - 1);
      assert LowBits(v, n)[..k] == [v % 2] + LowBits(v / 2, n - 1)[..k - 1];
    }
  }

  lemma {:induction false} LowBitsAt(v: nat, n: nat, j: nat)
    requires j < n
    ensures LowBits(v, n)[j] == BitAt(v, j)
  {
    if j > 0 {
      LowBitsAt(v / 2, n - 1, j - 1);
    }
  }

  lemma Pow2Values()
    ensures Pow2(3) == 8 && Pow2(4) == 16 && Pow2(7) == 128 && Pow2(8) == 256
    ensures Pow2(12) == 4096 && Pow2(16) == 65536 && Pow2(24) == 0x100_0000
    ensures Pow2(31) == 0x8000_0000 && Pow2(32) == 0x1_0000_0000
  {
    Pow2Sum(8, 8);
    Pow2Sum(16, 8);
    Pow2Sum(24, 7);
    Pow2Sum(16, 16);
  }

  /** The top bit of a word of n bits, and what is left of it. */
  lemma {:induction false} TopOfWord(v: nat, n: nat)
    requires n > 0 && v < Pow2(n)
    ensures var q: Bit := LowBits(v, n)[n - 1]; q * Pow2(n - 1) <= v < (q + 1) * Pow2(n - 1)
  {
    if n > 1 { TopOfWord(v / 2, n - 1); }
  }

  /** Doubling a word of n bits and adding a low bit shifts its bit string by one. */
  lemma ShiftLowBits(v: nat, c: Bit, n: nat)
    requires n > 0 && v < Pow2(n)
    ensures LowBits((2 * v) % Pow2(n) + c, n) == [c] + LowBits(v, n)[..n - 1]
    ensures LowBits(v, n)[n - 1] == v / Pow2(n - 1)
  {
    var d := Pow2(n - 1);
    var q: Bit := LowBits(v, n)[n - 1];
    TopOfWord(v, n);
    var m := v - q * d;
    DivUnique(v, d, q, m);
    DivUnique(2 * v, 2 * d, q, 2 * m);
    var x := (2 * v) % Pow2(n) + c;
    assert x == 2 * m + c;
    LowBitsMod(v, n - 1, n - 1);
    LowBitsTake(v, n, n - 1);
  }

  lemma {:induction false} ShrMul(x: nat, a: nat, b: nat)
    requires b <= a
    ensures Shr(x * Pow2(a), b) == x * Pow2(a - b)
  {
    if b > 0 {
      Twice(x, Pow2(a - 1));
      ShrMul(x, a - 1, b - 1);
    }
  }

  /** k bits from the middle of a bit string: (v >> s) & (2^k - 1). */
  lemma FieldValue(v: nat, n: nat, s: nat, k: nat)
    requires s + k <= n
    ensures Value(BitsOf(v, n)[n - s - k..n - s]) == Shr(v, s) % Pow2(k)
  {
    BitsOfShift(v, n, s);
    var u := Shr(v, s);
    BitsOfTail(u, n - s, k);
    assert BitsOf(v, n)[n - s - k..n - s] == BitsOf(v, n)[..n - s][n - s - k..];
    BitsOfMod(u, k, k);
    ValueOfBits(u % Pow2(k), k);
  }

  lemma {:induction false} BitsOfTail(v: nat, n: nat, k: nat)
    requires k <= n
    ensures BitsOf(v, n)[n - k..] == BitsOf(v, k)
  {
    if k > 0 {
      BitsOfTail(v / 2, n - 1, k - 1);
      assert BitsOf(v, n)[n - k..] == BitsOf(v / 2, n - 1)[n - k..] + [v % 2];
    }
  }

  /** The bits of a byte string, each byte most significant bit first. */
  function BitsOfBytes(bs: seq<Byte>): (s: seq<Bit>)
    ensures |s| == 8 * |bs|
  {
    if bs == [] then [] else BitsOfBytes(bs[..|bs| - 1]) + BitsOf(bs[|bs| - 1], 8)
  }

  lemma {:induction false} BitsOfByteAt(bs: seq<Byte>, k: nat)
    requires k < |bs|
    ensures BitsOfBytes(bs)[8 * k..8 * k + 8] == BitsOf(bs[k], 8)
  {
    var front := bs[..|bs| - 1];
    if k < |front| {
      BitsOfByteAt(front, k);
      assert BitsOfBytes(bs)[8 * k..8 * k + 8] == BitsOfBytes(front)[8 * k..8 * k + 8];
    }
  }
}
