/** The adaptive arithmetic decoder of dst_fram.c and what it computes. */
module ArithDecoder {
  import opened Bits

  const ONE := 4096    // 1 << ABITS, ABITS = 12
  const HALF := 2048   // 1 << (ABITS - 1)

  /** Code bit i of a string of |code| bits; bits past the end read as zero. */
  function CodeBit(code: seq<Bit>, i: nat): Bit {
    if i < |code| then code[i] else 0
  }

  /** The integer of code bits 1..k. */
  function CodeInt(code: seq<Bit>, k: nat): nat {
    if k == 0 then 0 else 2 * CodeInt(code, k - 1) + CodeBit(code, k)
  }

  /** The decoder's registers. */
  datatype Registers = Registers(a: nat, c: nat, ptr: nat)

  /** a >> 8, rounded by or-ing in bit 7, times p. */
  function Share(a: nat, p: nat): nat {
    var k := a / 256;
    (if (a / 128) % 2 == 1 && k % 2 == 0 then k + 1 else k) * p
  }

  lemma ShareBounds(a: nat, p: nat)
    requires HALF <= a < ONE && 1 <= p <= 128
    ensures 8 <= Share(a, p) && Share(a, p) + 896 <= a
  {
    var k := a / 256;
    var r := if (a / 128) % 2 == 1 && k % 2 == 0 then k + 1 else k;
    assert 8 <= r <= 15;
    assert r * 1 <= r * p <= r * 128;
    assert r * 128 <= a - 896;
  }

  /** In numbers: the share is p/256 of the interval taken as a multiple of 256, the nearest one if the one below
      is an even multiple, and otherwise that one. */
  lemma ShareRounds(a: nat, p: nat)
    requires HALF <= a < ONE && 1 <= p <= 128
    ensures (a / 256) % 2 == 0 ==> -128 * p < 256 * Share(a, p) - a * p <= 128 * p
    ensures (a / 256) % 2 == 1 ==> 256 * Share(a, p) <= a * p < 256 * Share(a, p) + 256 * p
  {
    hide Share;
    var r := Rounded(a, p);
    Times(256 * r - a, p);
    Distribute(r, a, p);
  }

  /** The interval in units of 256: an even number of them is rounded to the nearest, an odd one down. */
  lemma Rounded(a: nat, p: nat) returns (r: nat)
    requires HALF <= a < ONE
    ensures Share(a, p) == r * p
    ensures if (a / 256) % 2 == 0 then -128 < 256 * r - a <= 128 else -256 < 256 * r - a <= 0
  {
    r := if (a / 128) % 2 == 1 && a / 256 % 2 == 0 then a / 256 + 1 else a / 256;
  }

  lemma Distribute(r: nat, a: nat, p: nat)
    ensures (256 * r - a) * p == 256 * (r * p) - a * p
  {
  }

  lemma Times(x: int, p: nat)
    requires p > 0
    ensures x <= 128 ==> x * p <= 128 * p
    ensures -128 < x ==> -128 * p < x * p
    ensures x <= 0 ==> x * p <= 0
    ensures -256 < x ==> -256 * p < x * p
  {
    if x <= 128 { MulMonotone(x, 128, p); }
    if -128 < x { MulMonotone(-127, x, p); }
    if x <= 0 { MulMonotone(x, 0, p); }
    if -256 < x { MulMonotone(-255, x, p); }
  }

  function Normalise(code: seq<Bit>, r: Registers): Registers
    requires r.a > 0
    decreases HALF - r.a
  {
    if r.a >= HALF then r
    else Normalise(code, Registers(2 * r.a, 2 * r.c + CodeBit(code, r.ptr), r.ptr + 1))
  }

  function Start(code: seq<Bit>): Registers {
    Registers(ONE - 1, CodeInt(code, 12), 13)
  }

  predicate Working(r: Registers) { HALF <= r.a < ONE }

  /** One decoded bit and the registers after it. */
  function DecodeBit(code: seq<Bit>, r: Registers, p: nat): (Bit, Registers)
    requires Working(r) && 1 <= p <= 128
  {
    ShareBounds(r.a, p);
    var h := r.a - Share(r.a, p);
    if r.c >= h then (0, Normalise(code, Registers(Share(r.a, p), r.c - h, r.ptr)))
    else (1, Normalise(code, Registers(h, r.c, r.ptr)))
  }

  lemma {:induction false} NormaliseWorks(code: seq<Bit>, r: Registers)
    requires 0 < r.a < ONE
    ensures Working(Normalise(code, r))
    decreases HALF - r.a
  {
    if r.a < HALF {
      NormaliseWorks(code, Registers(2 * r.a, 2 * r.c + CodeBit(code, r.ptr), r.ptr + 1));
    }
  }

  lemma DecodeWorks(code: seq<Bit>, r: Registers, p: nat)
    requires Working(r) && 1 <= p <= 128
    ensures Working(DecodeBit(code, r, p).1)
  {
    ShareBounds(r.a, p);
    var h := r.a - Share(r.a, p);
    if r.c >= h {
      NormaliseWorks(code, Registers(Share(r.a, p), r.c - h, r.ptr));
    } else {
      NormaliseWorks(code, Registers(h, r.c, r.ptr));
    }
  }

  /** Accepted by the flush: at most 7 code bits were never shifted in. */
  predicate Accepts(code: seq<Bit>, r: Registers) {
    r.ptr + 7 >= |code|
  }

  class Decoder {
    var A: nat
    var C: nat
    var cbptr: nat
    var init: bool

    function Regs(): Registers
      reads this
    {
      Registers(A, C, cbptr)
    }

    /** LT_ACDecodeBit_Init */
    constructor (code: seq<Bit>)
      ensures Regs() == Start(code) && !init
    {
      init := false;
      A := ONE - 1;
      C := 0;
      cbptr := 1;
      new;
      while cbptr <= 12
        invariant 1 <= cbptr <= 13 && A == ONE - 1 && !init
        invariant C == CodeInt(code, cbptr - 1)
      {
        C := 2 * C;
        if cbptr < |code| {
          C := C + code[cbptr];
        }
        cbptr := cbptr + 1;
      }
    }

    /** LT_ACDecodeBit_Decode */
    method Decode(code: seq<Bit>, p: nat) returns (b: Bit)
      requires Working(Regs()) && 1 <= p <= 128
      modifies this
      ensures (b, Regs()) == DecodeBit(code, old(Regs()), p)
      ensures Working(Regs()) && init == old(init)
    {
      ShareBounds(A, p);
      DecodeWorks(code, Regs(), p);
      var k := A / 256;
      var ap := (if (A / 128) % 2 == 1 && k % 2 == 0 then k + 1 else k) * p;
      var h := A - ap;
      if C >= h {
        b := 0;
        C := C - h;
        A := ap;
      } else {
        b := 1;
        A := h;
      }
      while A < HALF
        invariant A > 0 && Normalise(code, Regs()) == DecodeBit(code, old(Regs()), p).1
        invariant init == old(init)
        decreases HALF - A
      {
        A := 2 * A;
        C := 2 * C;
        if cbptr < |code| {
          C := C + code[cbptr];
        }
        cbptr := cbptr + 1;
      }
    }

    /** LT_ACDecodeBit_Flush. The inner loop looks at the remaining code bits but never lowers b,
        so a remainder of ones passes just like one of zeros. */
    method Flush(code: seq<Bit>) returns (b: Bit)
      modifies this
      ensures b == (if Accepts(code, old(Regs())) then 1 else 0) && init
      ensures A == old(A) && C == old(C)
    {
      init := true;
      if cbptr + 7 < |code| {
        b := 0;
      } else {
        b := 1;
        while cbptr < |code| && b == 1
          invariant b == 1 && init && A == old(A) && C == old(C)
          decreases |code| - cbptr
        {
          if code[cbptr] != 0 {
            b := 1;
          }
          cbptr := cbptr + 1;
        }
      }
    }
  }

  /** A probability for every history of decoded bits. */
  type Model = seq<Bit> -> nat

  ghost predicate Legal(prob: Model) {
    forall history :: 1 <= prob(history) <= 128
  }

  /** Decode m bits, the probability of each chosen from those before it. */
  ghost function DecodeAll(code: seq<Bit>, prob: Model, m: nat): (r: (seq<Bit>, Registers))
    requires Legal(prob)
    ensures |r.0| == m && Working(r.1)
  {
    if m == 0 then ([], Start(code))
    else
      var (bits, r) := DecodeAll(code, prob, m - 1);
      DecodeWorks(code, r, prob(bits));
      var (b, r') := DecodeBit(code, r, prob(bits));
      (bits + [b], r')
  }

  /** Two bits of a code that starts with 1100 in twelve bits: the second is a 0 only because 2190 is rounded
      up to nine parts of 256. */
  lemma TwoBits(code: seq<Bit>, prob: Model)
    requires Legal(prob) && CodeInt(code, 12) == 1100 && prob([]) == 127 && prob([1]) == 128
    ensures DecodeAll(code, prob, 1).1 == Registers(2190, 1100, 13)
    ensures DecodeAll(code, prob, 2).0 == [1, 0]
  {
    var start, next := Registers(4095, 1100, 13), Registers(2190, 1100, 13);
    assert Share(4095, 127) == 1905 && Share(2190, 128) == 1152;
    assert DecodeBit(code, start, 127) == (1, next) && DecodeBit(code, next, 128).0 == 0;
    assert DecodeAll(code, prob, 0) == ([], start);
    assert [] + [1] == [1];
    assert DecodeAll(code, prob, 1) == ([1], next);
    assert [1] + [0] == [1, 0];
  }

  /** An interval [low, low + a) of code integers with 12 + n bits. */
  datatype Interval = Interval(low: nat, a: nat, n: nat)

  function Widen(iv: Interval): Interval
    requires iv.a > 0
    decreases HALF - iv.a
  {
    if iv.a >= HALF then iv else Widen(Interval(2 * iv.low, 2 * iv.a, iv.n + 1))
  }

  /** The part of an interval that stands for one more bit: the top for 0, the bottom for 1. */
  function Part(iv: Interval, p: nat, b: Bit): Interval
    requires HALF <= iv.a < ONE && 1 <= p <= 128
  {
    ShareBounds(iv.a, p);
    var h := iv.a - Share(iv.a, p);
    if b == 0 then Interval(iv.low + h, Share(iv.a, p), iv.n) else Interval(iv.low, h, iv.n)
  }

  lemma {:induction false} WidenWorks(iv: Interval)
    requires 0 < iv.a < ONE
    ensures HALF <= Widen(iv).a < ONE
    decreases HALF - iv.a
  {
    if iv.a < HALF { WidenWorks(Interval(2 * iv.low, 2 * iv.a, iv.n + 1)); }
  }

  lemma PartWorks(iv: Interval, p: nat, b: Bit)
    requires HALF <= iv.a < ONE && 1 <= p <= 128
    ensures 8 <= Part(iv, p, b).a < ONE && HALF <= Widen(Part(iv, p, b)).a < ONE
  {
    ShareBounds(iv.a, p);
    WidenWorks(Part(iv, p, b));
  }

  /** The exact interval of a bit sequence: what an encoder narrows to. */
  ghost function Exact(prob: Model, bits: seq<Bit>): (iv: Interval)
    requires Legal(prob)
    ensures HALF <= iv.a < ONE
  {
    if bits == [] then Interval(0, ONE - 1, 0)
    else
      var before := bits[..|bits| - 1];
      PartWorks(Exact(prob, before), prob(before), bits[|bits| - 1]);
      Widen(Part(Exact(prob, before), prob(before), bits[|bits| - 1]))
  }

  predicate Holds(iv: Interval, code: seq<Bit>) {
    iv.low <= CodeInt(code, 12 + iv.n) < iv.low + iv.a
  }

  /** Widening changes the scale, not the set of codes. */
  lemma {:induction false} WidenHolds(iv: Interval, code: seq<Bit>)
    requires iv.a > 0
    ensures Holds(Widen(iv), code) <==> Holds(iv, code)
    decreases HALF - iv.a
  {
    if iv.a < HALF { WidenHolds(Interval(2 * iv.low, 2 * iv.a, iv.n + 1), code); }
  }

  /** Shifting the registers widens the interval they stand for, at most 8 times. */
  lemma {:induction false} NormaliseMatches(code: seq<Bit>, r: Registers, iv: Interval)
    requires 0 < r.a < ONE && r.a == iv.a && r.ptr == 13 + iv.n && CodeInt(code, 12 + iv.n) == iv.low + r.c
    ensures var s := Normalise(code, r); var jv := Widen(iv);
            s.a == jv.a && s.ptr == 13 + jv.n && CodeInt(code, 12 + jv.n) == jv.low + s.c
            && (r.c < r.a ==> s.c < s.a)
    decreases HALF - r.a
  {
    if r.a < HALF {
      NormaliseMatches(code, Registers(2 * r.a, 2 * r.c + CodeBit(code, r.ptr), r.ptr + 1),
                       Interval(2 * iv.low, 2 * iv.a, iv.n + 1));
    }
  }

  lemma {:induction false} WidenShifts(iv: Interval, k: nat)
    requires 0 < iv.a && iv.a * Pow2(k) >= HALF
    ensures iv.n <= Widen(iv).n <= iv.n + k
    decreases k
  {
    if iv.a < HALF {
      WidenShifts(Interval(2 * iv.low, 2 * iv.a, iv.n + 1), k - 1);
    }
  }

  /** The registers stand for an interval that holds the code. */
  predicate Windows(code: seq<Bit>, r: Registers, iv: Interval) {
    r.a == iv.a && r.ptr == 13 + iv.n && CodeInt(code, 12 + iv.n) == iv.low + r.c && r.c < r.a
  }

  lemma WindowStep(code: seq<Bit>, r: Registers, iv: Interval, p: nat)
    requires Working(r) && Windows(code, r, iv) && 1 <= p <= 128
    ensures var (b, s) := DecodeBit(code, r, p);
            8 <= Part(iv, p, b).a && Windows(code, s, Widen(Part(iv, p, b))) && Widen(Part(iv, p, b)).n <= iv.n + 8
  {
    ShareBounds(r.a, p);
    var h := r.a - Share(r.a, p);
    var (b, s) := DecodeBit(code, r, p);
    var part := Part(iv, p, b);
    NormaliseMatches(code, if b == 0 then Registers(Share(r.a, p), r.c - h, r.ptr) else Registers(h, r.c, r.ptr), part);
    assert Pow2(8) == 256;
    WidenShifts(part, 8);
  }

  /** The registers are an exact window on the code: after n shifts in all, the integer of code bits
      1..12+n is the interval's lower end plus C, C is below A, and each bit shifts at most 8 times. */
  lemma {:induction false} WindowIsExact(code: seq<Bit>, prob: Model, m: nat)
    requires Legal(prob) && CodeInt(code, 12) != ONE - 1
    ensures Windows(code, DecodeAll(code, prob, m).1, Exact(prob, DecodeAll(code, prob, m).0))
    ensures Exact(prob, DecodeAll(code, prob, m).0).n <= 8 * m
  {
    if m == 0 {
      TwelveBits(code);
    } else {
      WindowIsExact(code, prob, m - 1);
      var (bits, r) := DecodeAll(code, prob, m - 1);
      WindowStep(code, r, Exact(prob, bits), prob(bits));
      var all := DecodeAll(code, prob, m).0;
      assert all[..m - 1] == bits;
    }
  }

  lemma TwelveBits(code: seq<Bit>)
    ensures CodeInt(code, 12) <= ONE - 1
  {
    CodeIntBound(code, 12);
  }

  lemma {:induction false} CodeIntBound(code: seq<Bit>, k: nat)
    ensures CodeInt(code, k) < Pow2(k)
  {
    if k > 0 { CodeIntBound(code, k - 1); }
  }

  /** The interval of a sequence holds only codes that the interval of every prefix holds. */
  lemma PrefixHolds(code: seq<Bit>, prob: Model, bits: seq<Bit>)
    requires Legal(prob) && bits != [] && Holds(Exact(prob, bits), code)
    ensures var before := bits[..|bits| - 1];
            Holds(Exact(prob, before), code) && Holds(Part(Exact(prob, before), prob(before), bits[|bits| - 1]), code)
  {
    var before := bits[..|bits| - 1];
    var part := Part(Exact(prob, before), prob(before), bits[|bits| - 1]);
    PartWorks(Exact(prob, before), prob(before), bits[|bits| - 1]);
    ShareBounds(Exact(prob, before).a, prob(before));
    WidenHolds(part, code);
  }

  /** No code is in the intervals of two different sequences of one length. */
  lemma {:induction false} IntervalsDisjoint(code: seq<Bit>, prob: Model, s: seq<Bit>, t: seq<Bit>)
    requires Legal(prob) && |s| == |t|
    requires Holds(Exact(prob, s), code) && Holds(Exact(prob, t), code)
    ensures s == t
  {
    if s != [] {
      PrefixHolds(code, prob, s);
      PrefixHolds(code, prob, t);
      IntervalsDisjoint(code, prob, s[..|s| - 1], t[..|t| - 1]);
      ShareBounds(Exact(prob, s[..|s| - 1]).a, prob(s[..|s| - 1]));
      assert s == s[..|s| - 1] + [s[|s| - 1]] && t == t[..|t| - 1] + [t[|t| - 1]];
    }
  }

  lemma {:induction false} PrefixesHold(code: seq<Bit>, prob: Model, bits: seq<Bit>, k: nat)
    requires Legal(prob) && k <= |bits| && Holds(Exact(prob, bits), code)
    ensures Holds(Exact(prob, bits[..k]), code)
  {
    hide Exact, Holds;
    if k == |bits| {
      assert bits[..k] == bits;
    } else {
      PrefixHolds(code, prob, bits);
      PrefixesHold(code, prob, bits[..|bits| - 1], k);
      assert bits[..|bits| - 1][..k] == bits[..k];
    }
  }

  /** Two models choose the same probabilities on the way to these bits. */
  ghost predicate Agree(prob: Model, prob': Model, bits: seq<Bit>) {
    forall k {:trigger prob(bits[..k])} {:trigger prob'(bits[..k])} :: 0 <= k < |bits| ==> prob(bits[..k]) == prob'(bits[..k])
  }

  lemma {:induction false} SameInterval(prob: Model, prob': Model, bits: seq<Bit>)
    requires Legal(prob) && Legal(prob') && Agree(prob, prob', bits)
    ensures Exact(prob, bits) == Exact(prob', bits)
  {
    hide Widen, Part;
    if bits != [] {
      var before := bits[..|bits| - 1];
      forall k | 0 <= k < |before| ensures prob(before[..k]) == prob'(before[..k]) {
        assert before[..k] == bits[..k];
      }
      SameInterval(prob, prob', before);
    }
  }

  /** The first bits decoded do not depend on how many are. */
  lemma {:induction false} DecodedPrefix(code: seq<Bit>, prob: Model, m: nat, k: nat)
    requires Legal(prob) && k <= m
    ensures DecodeAll(code, prob, k).0 == DecodeAll(code, prob, m).0[..k]
  {
    hide DecodeBit;
    if k < m { DecodedPrefix(code, prob, m - 1, k); }
  }

  lemma {:induction false} HeldCodesAreBelow(code: seq<Bit>, prob: Model, bits: seq<Bit>)
    requires Legal(prob) && Holds(Exact(prob, bits), code)
    ensures CodeInt(code, 12) < ONE - 1
  {
    if bits != [] {
      PrefixHolds(code, prob, bits);
      HeldCodesAreBelow(code, prob, bits[..|bits| - 1]);
    }
  }

  /** The decoder finds the sequence whose exact interval holds the code, for every number of bits and
      every adaptive choice of probabilities, exactly when code bits 1..12 are not all ones. */
  lemma DecodesTheInterval(code: seq<Bit>, prob: Model, m: nat)
    requires Legal(prob)
    ensures Holds(Exact(prob, DecodeAll(code, prob, m).0), code) <==> CodeInt(code, 12) != ONE - 1
    ensures forall bits :: |bits| == m && Holds(Exact(prob, bits), code) ==> bits == DecodeAll(code, prob, m).0
  {
    if CodeInt(code, 12) != ONE - 1 { WindowIsExact(code, prob, m); }
    forall bits | |bits| == m && Holds(Exact(prob, bits), code) ensures bits == DecodeAll(code, prob, m).0 {
      HeldCodesAreBelow(code, prob, bits);
      WindowIsExact(code, prob, m);
      IntervalsDisjoint(code, prob, bits, DecodeAll(code, prob, m).0);
    }
    if Holds(Exact(prob, DecodeAll(code, prob, m).0), code) {
      HeldCodesAreBelow(code, prob, DecodeAll(code, prob, m).0);
    }
  }

  /* An encoder in the sense of subpart 10 of ISO/IEC 14496-3: write out the interval's lower end. */

  ghost function Encode(prob: Model, bits: seq<Bit>): seq<Bit>
    requires Legal(prob)
  {
    var iv := Exact(prob, bits);
    [0] + BitsOf(iv.low, 12 + iv.n)
  }

  lemma {:induction false} WidenFits(iv: Interval)
    requires iv.a > 0 && iv.low + iv.a <= (ONE - 1) * Pow2(iv.n)
    ensures Widen(iv).low + Widen(iv).a <= (ONE - 1) * Pow2(Widen(iv).n)
    decreases HALF - iv.a
  {
    if iv.a < HALF {
      WidenFits(Interval(2 * iv.low, 2 * iv.a, iv.n + 1));
    }
  }

  lemma {:induction false} ExactFits(prob: Model, bits: seq<Bit>)
    requires Legal(prob)
    ensures var iv := Exact(prob, bits); iv.low + iv.a <= (ONE - 1) * Pow2(iv.n)
  {
    if bits != [] {
      var before := bits[..|bits| - 1];
      ExactFits(prob, before);
      var iv := Exact(prob, before);
      ShareBounds(iv.a, prob(before));
      PartWorks(iv, prob(before), bits[|bits| - 1]);
      WidenFits(Part(iv, prob(before), bits[|bits| - 1]));
    }
  }

  lemma {:induction false} CodeIntOfBits(w: seq<Bit>, tail: seq<Bit>, k: nat)
    requires k <= |w|
    ensures CodeInt([0] + w + tail, k) == Value(w[..k])
  {
    if k > 0 {
      CodeIntOfBits(w, tail, k - 1);
      assert w[..k][..k - 1] == w[..k - 1];
    }
  }

  lemma EncodedHolds(prob: Model, bits: seq<Bit>, tail: seq<Bit>)
    requires Legal(prob)
    ensures Holds(Exact(prob, bits), Encode(prob, bits) + tail)
  {
    var iv := Exact(prob, bits);
    var w := BitsOf(iv.low, 12 + iv.n);
    assert Encode(prob, bits) + tail == [0] + w + tail;
    ExactFits(prob, bits);
    Pow2Sum(12, iv.n);
    assert Pow2(12) == ONE;
    ValueOfBits(iv.low, 12 + iv.n);
    CodeIntOfBits(w, tail, 12 + iv.n);
    assert w[..12 + iv.n] == w;
  }

  /** Arithmetic coding is lossless: any bits, any adaptive probabilities, and anything after the code
      word decode to the same bits; the flush accepts the result when at most 7 bits follow. */
  lemma EncodeDecode(prob: Model, bits: seq<Bit>, tail: seq<Bit>)
    requires Legal(prob)
    ensures DecodeAll(Encode(prob, bits) + tail, prob, |bits|).0 == bits
    ensures Accepts(Encode(prob, bits) + tail, DecodeAll(Encode(prob, bits) + tail, prob, |bits|).1) <==> |tail| <= 7
  {
    var code := Encode(prob, bits) + tail;
    EncodedHolds(prob, bits, tail);
    DecodesTheInterval(code, prob, |bits|);
    HeldCodesAreBelow(code, prob, bits);
    WindowIsExact(code, prob, |bits|);
  }
}
