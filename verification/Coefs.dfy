/** Filter coefficients and probability tables (RiceDecode, ReadFilterCoefSets, ReadProbabilityTables in
    unpack_dst.c; the predictor tables of ccp_calc.c). */
module Coefs {
  import opened Bits
  import opened BitReader
  import opened Segmentation

  /** The source does not look at the status here: past the end it uses what was never set. */
  function Needed<T>(r: Parse<T>): Parse<T> {
    if r.Done? then r else Undefined
  }

  /** Zeros before the next one. */
  function RunOf(bits: seq<Bit>, pos: nat): (r: Parse<nat>)
    ensures !r.Fail? && (r.Done? ==> pos < r.pos <= |bits|)
    decreases |bits| - pos
  {
    if pos >= |bits| then Undefined
    else if bits[pos] == 1 then Done(0, pos + 1)
    else
      var (n, p) :- RunOf(bits, pos + 1);
      Done(n + 1, p)
  }

  function Rice(bits: seq<Bit>, pos: nat, m: nat): (r: Parse<int>)
    ensures !r.Fail?
  {
    var (run, p) :- RunOf(bits, pos);
    var (lsbs, q) :- Needed(GetBits(bits, p, m));
    var nr := run * Pow2(m) + lsbs;
    if nr == 0 then Done(0, q)
    else
      var (sign, e) :- Needed(GetBits(bits, q, 1));
      Done(if sign == 1 then -nr else nr, e)
  }

  function Abs(v: int): nat { if v < 0 then -v else v }

  /** A spec encoder: the high part in unary, the m low bits, and a sign unless zero. */
  function RiceBits(v: int, m: nat): seq<Bit> {
    Zeros(Quotient(Abs(v), Pow2(m))) + [1] + BitsOf(Abs(v) % Pow2(m), m) + (if v == 0 then [] else [if v < 0 then 1 else 0])
  }

  function Quotient(n: nat, d: nat): (q: nat)
    requires d > 0
    ensures q * d + n % d == n
  {
    DivSmaller(n, d);
    assert (n / d) * d + n % d == n;
    n / d
  }

  function Zeros(n: nat): (s: seq<Bit>)
    ensures |s| == n
  {
    if n == 0 then [] else [0] + Zeros(n - 1)
  }

  lemma {:induction false} RunReadBack(bits: seq<Bit>, pos: nat, n: nat)
    requires At(bits, pos, Zeros(n) + [1])
    ensures RunOf(bits, pos) == Done(n, pos + n + 1)
    decreases n
  {
    if n == 0 {
      assert Zeros(0) + [1] == [1];
      ReadFlag(bits, pos, 1);
    } else {
      assert Zeros(n) + [1] == [0] + (Zeros(n - 1) + [1]);
      AtSplit(bits, pos, [0], Zeros(n - 1) + [1]);
      assert bits[pos..pos + 1] == [0];
      RunReadBack(bits, pos + 1, n - 1);
    }
  }

  /** Rice codes: every number, for every parameter m, decodes to itself and uses exactly its bits. */
  lemma RiceRoundTrip(bits: seq<Bit>, pos: nat, v: int, m: nat)
    requires At(bits, pos, RiceBits(v, m))
    ensures Rice(bits, pos, m) == Done(v, pos + |RiceBits(v, m)|)
  {
    hide At, GetBits, BitsOf, RunOf;
    var n, d := Abs(v), Pow2(m);
    var q := Quotient(n, d);
    var sign := if v == 0 then [] else [if v < 0 then 1 else 0];
    AtSplit(bits, pos, Zeros(q) + [1] + BitsOf(n % d, m), sign);
    AtSplit(bits, pos, Zeros(q) + [1], BitsOf(n % d, m));
    RunReadBack(bits, pos, q);
    ReadField(bits, pos + q + 1, n % d, m);
    if v != 0 { ReadFlag(bits, pos + q + 1 + m, if v < 0 then 1 else 0); }
  }

  /** A field whose status the source does not look at. */
  method ReadNeeded(SD: StrData, len: nat) returns (x: nat)
    requires SD.Valid() && len <= 31 && GetBits(SD.Bits(), SD.Pos(), len).Done?
    modifies SD
    ensures SD.data == old(SD.data) && SD.Valid()
    ensures GetBits(SD.Bits(), old(SD.Pos()), len) == Done(x, SD.Pos())
  {
    var st;
    st, x := SD.BitGetIntUnsigned(len);
  }

  /** RiceDecode. */
  method RiceDecode(SD: StrData, m: nat) returns (nr: int)
    requires SD.Valid() && m <= 7 && Rice(SD.Bits(), SD.Pos(), m).Done?
    modifies SD
    ensures SD.data == old(SD.data) && SD.Valid()
    ensures Rice(SD.Bits(), old(SD.Pos()), m) == Done(nr, SD.Pos())
  {
    ghost var bits, start := SD.Bits(), SD.Pos();
    var runLength: nat := 0;
    var rlBit: Bit := 0;
    assert Pow2(1) == 2;
    while rlBit == 0
      invariant SD.Valid() && SD.data == old(SD.data) && RunOf(bits, start).Done?
      invariant if rlBit == 0 then Adds(RunOf(bits, start), runLength, RunOf(bits, SD.Pos()))
                else RunOf(bits, start) == Done(runLength, SD.Pos())
      decreases |bits| + 1 - SD.Pos(), 1 - rlBit
    {
      OneBit(bits, SD.Pos());
      rlBit := ReadNeeded(SD, 1);
      runLength := runLength + (1 - rlBit);
    }
    var lsbs := ReadNeeded(SD, m);
    nr := runLength * Pow2(m) + lsbs;
    if nr != 0 {
      var sign := ReadNeeded(SD, 1);
      if sign == 1 {
        nr := -nr;
      }
    }
  }

  predicate Adds(whole: Parse<nat>, n: nat, rest: Parse<nat>) {
    whole.Done? && rest.Done? && whole == Done(n + rest.value, rest.pos)
  }

  /* Lists coded plainly or by prediction. */

  /** What differs between filter coefficients and probability tables. */
  datatype Kind = Kind(lo: int, hi: int, width: nat, codingError: int, rangeError: int)

  const FILTER := Kind(-256, 255, 9, 9, 10)    // DSTErr_InvalidCoefficientCoding, DSTErr_InvalidCoefficientRange
  const PTABLE := Kind(1, 128, 7, 11, 12)      // DSTErr_InvalidPtableCoding, DSTErr_InvalidPtableRange

  predicate Known(k: Kind) { k == FILTER || k == PTABLE }

  /** The predictors of each method, at most three taps, as CCP_CalcInit sets them. */
  predicate Predictors(taps: seq<seq<int>>) {
    |taps| == 3 && forall i {:trigger taps[i]} :: 0 <= i < 3 ==> 1 <= |taps[i]| <= 3
  }

  const FILTER_TAPS: seq<seq<int>> := [[-8], [-16, 8], [-9, -5, 6]]
  const PTABLE_TAPS: seq<seq<int>> := [[-8], [-16, 8], [-24, 24, -8]]

  /** A plain field: two's complement for coefficients, one less for probabilities. */
  function FromField(k: Kind, v: nat): int
    requires Known(k)
  {
    if k == FILTER then Signed(v, 9) else v + 1
  }

  function ToField(k: Kind, x: int): nat
    requires Known(k) && k.lo <= x <= k.hi
  {
    if k == FILTER then (if x < 0 then x + 512 else x) else x - 1
  }

  function ReadPlain(bits: seq<Bit>, pos: nat, k: Kind, done: seq<int>, n: nat): (r: Parse<seq<int>>)
    requires Known(k) && |done| <= n
    ensures r.Done? ==> |r.value| == n
    ensures !r.Undefined?
    decreases n - |done|
  {
    if |done| == n then Done(done, pos)
    else
      var (v, p) :- GetBits(bits, pos, k.width);
      ReadPlain(bits, p, k, done + [FromField(k, v)], n)
  }

  /** The sum of the taps over the entries before. */
  function Weighted(taps: seq<int>, done: seq<int>, j: nat): int
    requires j <= |taps| <= |done|
  {
    if j == 0 then 0 else Weighted(taps, done, j - 1) + taps[j - 1] * done[|done| - j]
  }

  /** What the prediction adds: -x/8, rounded. */
  function Guess(x: int): int {
    if x >= 0 then -((x + 4) / 8) else (-x + 3) / 8
  }

  /** The one number that makes up for the weighted sum, an eighth of it rounded to the nearest. */
  lemma GuessRounds(x: int, g: int)
    ensures g == Guess(x) <==> -4 <= x + 8 * g <= 3
  {
  }

  function ReadPredicted(bits: seq<Bit>, pos: nat, k: Kind, taps: seq<int>, m: nat, done: seq<int>, n: nat): (r: Parse<seq<int>>)
    requires |taps| <= |done| <= n
    ensures r.Done? ==> |r.value| == n
    decreases n - |done|
  {
    if |done| == n then Done(done, pos)
    else
      var (v, p) :- Rice(bits, pos, m);
      var c := v + Guess(Weighted(taps, done, |taps|));
      if c < k.lo || c > k.hi then Fail(k.rangeError)
      else ReadPredicted(bits, p, k, taps, m, done + [c], n)
  }

  /** n entries; method 3 has no predictor. */
  function ReadList(bits: seq<Bit>, pos: nat, k: Kind, taps: seq<seq<int>>, n: nat): (r: Parse<seq<int>>)
    requires Known(k) && Predictors(taps)
    ensures r.Done? ==> |r.value| == n
  {
    var (coded, p) :- GetBits(bits, pos, 1);
    if coded == 0 then ReadPlain(bits, p, k, [], n)
    else
      var (bestmethod, q) :- GetBits(bits, p, 2);
      if bestmethod >= 3 then Undefined
      else if |taps[bestmethod]| >= n then Fail(k.codingError)
      else
        var (head, e) :- ReadPlain(bits, q, k, [], |taps[bestmethod]|);
        var (m, f) :- GetBits(bits, e, 3);
        ReadPredicted(bits, f, k, taps[bestmethod], m, head, n)
  }

  /** A filter: its order less one in 7 bits, then its coefficients. */
  function ReadFilter(bits: seq<Bit>, pos: nat, taps: seq<seq<int>>): (r: Parse<seq<int>>)
    requires Predictors(taps)
    ensures r.Done? ==> 1 <= |r.value| <= 128
  {
    var (n, p) :- GetBits(bits, pos, 7);
    Pow2Values();
    ReadList(bits, p, FILTER, taps, n + 1)
  }

  /** A probability table: its length less one in 6 bits, then its entries, if it is not just 1/2. */
  function ReadPtable(bits: seq<Bit>, pos: nat, taps: seq<seq<int>>): (r: Parse<seq<int>>)
    requires Predictors(taps)
    ensures r.Done? ==> 1 <= |r.value| <= 64
  {
    var (n, p) :- GetBits(bits, pos, 6);
    Pow2Values();
    assert Pow2(6) == 64;
    if n == 0 then Done([128], p) else ReadList(bits, p, PTABLE, taps, n + 1)
  }

  function ReadFilters(bits: seq<Bit>, pos: nat, taps: seq<seq<int>>, done: seq<seq<int>>, n: nat): (r: Parse<seq<seq<int>>>)
    requires Predictors(taps) && |done| <= n
    ensures r.Done? ==> |r.value| == n
    decreases n - |done|
  {
    if |done| == n then Done(done, pos)
    else
      var (f, p) :- ReadFilter(bits, pos, taps);
      ReadFilters(bits, p, taps, done + [f], n)
  }

  function ReadPtables(bits: seq<Bit>, pos: nat, taps: seq<seq<int>>, done: seq<seq<int>>, n: nat): (r: Parse<seq<seq<int>>>)
    requires Predictors(taps) && |done| <= n
    ensures r.Done? ==> |r.value| == n
    decreases n - |done|
  {
    if |done| == n then Done(done, pos)
    else
      var (f, p) :- ReadPtable(bits, pos, taps);
      ReadPtables(bits, p, taps, done + [f], n)
  }

  /* What is accepted is in range. */

  predicate InRange(k: Kind, list: seq<int>) {
    forall i {:trigger list[i]} :: 0 <= i < |list| ==> k.lo <= list[i] <= k.hi
  }

  lemma {:induction false} PlainInRange(bits: seq<Bit>, pos: nat, k: Kind, done: seq<int>, n: nat)
    requires Known(k) && |done| <= n && InRange(k, done) && ReadPlain(bits, pos, k, done, n).Done?
    ensures InRange(k, ReadPlain(bits, pos, k, done, n).value)
    decreases n - |done|
  {
    if |done| < n {
      var r := GetBits(bits, pos, k.width);
      Pow2Values();
      assert Pow2(9) == 512;
      PlainInRange(bits, r.pos, k, done + [FromField(k, r.value)], n);
    }
  }

  lemma {:induction false} PredictedInRange(bits: seq<Bit>, pos: nat, k: Kind, taps: seq<int>, m: nat, done: seq<int>, n: nat)
    requires |taps| <= |done| <= n && InRange(k, done) && ReadPredicted(bits, pos, k, taps, m, done, n).Done?
    ensures InRange(k, ReadPredicted(bits, pos, k, taps, m, done, n).value)
    decreases n - |done|
  {
    if |done| < n {
      var r := Rice(bits, pos, m);
      PredictedInRange(bits, r.pos, k, taps, m, done + [r.value + Guess(Weighted(taps, done, |taps|))], n);
    }
  }

  lemma ListInRange(bits: seq<Bit>, pos: nat, k: Kind, taps: seq<seq<int>>, n: nat)
    requires Known(k) && Predictors(taps) && ReadList(bits, pos, k, taps, n).Done?
    ensures InRange(k, ReadList(bits, pos, k, taps, n).value)
  {
    var coded := GetBits(bits, pos, 1);
    if coded.value == 0 {
      PlainInRange(bits, coded.pos, k, [], n);
    } else {
      var best := GetBits(bits, coded.pos, 2);
      var t := taps[best.value];
      var head := ReadPlain(bits, best.pos, k, [], |t|);
      PlainInRange(bits, best.pos, k, [], |t|);
      var m := GetBits(bits, head.pos, 3);
      PredictedInRange(bits, m.pos, k, t, m.value, head.value, n);
    }
  }

  predicate AllInRange(k: Kind, lists: seq<seq<int>>, longest: nat) {
    forall i {:trigger lists[i]} :: 0 <= i < |lists| ==> 1 <= |lists[i]| <= longest && InRange(k, lists[i])
  }

  /** Accepted filters have 1 to 128 coefficients in [-256, 255]. */
  lemma {:induction false} FiltersInRange(bits: seq<Bit>, pos: nat, taps: seq<seq<int>>, done: seq<seq<int>>, n: nat)
    requires Predictors(taps) && |done| <= n && AllInRange(FILTER, done, 128) && ReadFilters(bits, pos, taps, done, n).Done?
    ensures AllInRange(FILTER, ReadFilters(bits, pos, taps, done, n).value, 128)
    decreases n - |done|
  {
    if |done| < n {
      var r := ReadFilter(bits, pos, taps);
      var len := GetBits(bits, pos, 7);
      ListInRange(bits, len.pos, FILTER, taps, len.value + 1);
      FiltersInRange(bits, r.pos, taps, done + [r.value], n);
    }
  }

  /** Accepted probability tables have 1 to 64 entries in [1, 128]. */
  lemma {:induction false} PtablesInRange(bits: seq<Bit>, pos: nat, taps: seq<seq<int>>, done: seq<seq<int>>, n: nat)
    requires Predictors(taps) && |done| <= n && AllInRange(PTABLE, done, 64) && ReadPtables(bits, pos, taps, done, n).Done?
    ensures AllInRange(PTABLE, ReadPtables(bits, pos, taps, done, n).value, 64)
    decreases n - |done|
  {
    if |done| < n {
      var r := ReadPtable(bits, pos, taps);
      var len := GetBits(bits, pos, 6);
      if len.value > 0 { ListInRange(bits, len.pos, PTABLE, taps, len.value + 1); }
      PtablesInRange(bits, r.pos, taps, done + [r.value], n);
    }
  }

  /* A spec encoder, and reading back. */

  /** How a list is coded: plainly, or with a method and a Rice parameter. */
  datatype Coding = Plain | Predicted(bestmethod: nat, m: nat)

  predicate CanCode(coding: Coding, taps: seq<seq<int>>, n: nat) {
    coding.Predicted? ==> coding.bestmethod < 3 == |taps| && coding.m < 8 && |taps[coding.bestmethod]| < n
  }

  function WritePlain(k: Kind, list: seq<int>): seq<Bit>
    requires Known(k) && InRange(k, list)
  {
    if list == [] then [] else BitsOf(ToField(k, list[0]), k.width) + WritePlain(k, list[1..])
  }

  /** The Rice codes of what the prediction misses, from entry i on. */
  function WriteResidues(taps: seq<int>, m: nat, list: seq<int>, i: nat): seq<Bit>
    requires |taps| <= i <= |list|
    decreases |list| - i
  {
    if i == |list| then []
    else RiceBits(list[i] - Guess(Weighted(taps, list[..i], |taps|)), m) + WriteResidues(taps, m, list, i + 1)
  }

  function WriteList(k: Kind, taps: seq<seq<int>>, coding: Coding, list: seq<int>): seq<Bit>
    requires Known(k) && InRange(k, list) && Predictors(taps) && CanCode(coding, taps, |list|)
  {
    match coding
    case Plain => [0] + WritePlain(k, list)
    case Predicted(best, m) =>
      var t := taps[best];
      [1] + BitsOf(best, 2) + WritePlain(k, list[..|t|]) + BitsOf(m, 3) + WriteResidues(t, m, list, |t|)
  }

  lemma FieldReadBack(k: Kind, x: int)
    requires Known(k) && k.lo <= x <= k.hi
    ensures ToField(k, x) < Pow2(k.width) && FromField(k, ToField(k, x)) == x
  {
    Pow2Values();
    assert Pow2(9) == 512;
  }

  lemma {:induction false} PlainReadBack(bits: seq<Bit>, pos: nat, k: Kind, done: seq<int>, list: seq<int>)
    requires Known(k) && InRange(k, list) && At(bits, pos, WritePlain(k, list))
    ensures ReadPlain(bits, pos, k, done, |done| + |list|) == Done(done + list, pos + |WritePlain(k, list)|)
    decreases |list|
  {
    hide At, GetBits, FromField;
    if list == [] {
      assert done + list == done;
    } else {
      AtSplit(bits, pos, BitsOf(ToField(k, list[0]), k.width), WritePlain(k, list[1..]));
      FieldReadBack(k, list[0]);
      ReadField(bits, pos, ToField(k, list[0]), k.width);
      PlainReadBack(bits, pos + k.width, k, done + [list[0]], list[1..]);
      Shift(done, list);
    }
  }

  lemma {:induction false} ResiduesReadBack(bits: seq<Bit>, pos: nat, k: Kind, taps: seq<int>, m: nat, list: seq<int>, i: nat)
    requires InRange(k, list) && |taps| <= i <= |list| && At(bits, pos, WriteResidues(taps, m, list, i))
    ensures ReadPredicted(bits, pos, k, taps, m, list[..i], |list|) == Done(list, pos + |WriteResidues(taps, m, list, i)|)
    decreases |list| - i
  {
    hide At, Rice, RiceBits, Weighted, Guess;
    if i == |list| {
      assert list[..i] == list;
    } else {
      var v := list[i] - Guess(Weighted(taps, list[..i], |taps|));
      AtSplit(bits, pos, RiceBits(v, m), WriteResidues(taps, m, list, i + 1));
      RiceRoundTrip(bits, pos, v, m);
      Snoc(list, i);
      ResiduesReadBack(bits, pos + |RiceBits(v, m)|, k, taps, m, list, i + 1);
    }
  }

  /** Coefficients and probability tables: for every predictor table, method and Rice parameter the
      decoder rebuilds the same list and uses exactly the encoded bits. */
  lemma ListRoundTrip(bits: seq<Bit>, pos: nat, k: Kind, taps: seq<seq<int>>, coding: Coding, list: seq<int>)
    requires Known(k) && InRange(k, list) && Predictors(taps) && CanCode(coding, taps, |list|)
    requires At(bits, pos, WriteList(k, taps, coding, list))
    ensures ReadList(bits, pos, k, taps, |list|) == Done(list, pos + |WriteList(k, taps, coding, list)|)
  {
    hide At, GetBits, ReadPlain, ReadPredicted, WritePlain, WriteResidues;
    match coding
    case Plain =>
      AtSplit(bits, pos, [0], WritePlain(k, list));
      ReadFlag(bits, pos, 0);
      PlainReadBack(bits, pos + 1, k, [], list);
      assert [] + list == list;
    case Predicted(best, m) =>
      PredictedReadBack(bits, pos, k, taps, best, m, list);
  }

  lemma PredictedReadBack(bits: seq<Bit>, pos: nat, k: Kind, taps: seq<seq<int>>, best: nat, m: nat, list: seq<int>)
    requires Known(k) && InRange(k, list) && Predictors(taps) && CanCode(Predicted(best, m), taps, |list|)
    requires At(bits, pos, WriteList(k, taps, Predicted(best, m), list))
    ensures ReadList(bits, pos, k, taps, |list|) == Done(list, pos + |WriteList(k, taps, Predicted(best, m), list)|)
  {
    hide At, GetBits, ReadPlain, ReadPredicted, WritePlain, WriteResidues;
    var t := taps[best];
    var a, b, c, d := BitsOf(best, 2), WritePlain(k, list[..|t|]), BitsOf(m, 3), WriteResidues(t, m, list, |t|);
    AtSplit(bits, pos, [1] + a + b + c, d);
    AtSplit(bits, pos, [1] + a + b, c);
    AtSplit(bits, pos, [1] + a, b);
    AtSplit(bits, pos, [1], a);
    ReadFlag(bits, pos, 1);
    assert Pow2(2) == 4 && Pow2(3) == 8;
    ReadField(bits, pos + 1, best, 2);
    PlainReadBack(bits, pos + 3, k, [], list[..|t|]);
    assert [] + list[..|t|] == list[..|t|];
    ReadField(bits, pos + 3 + |b|, m, 3);
    ResiduesReadBack(bits, pos + 3 + |b| + 3, k, t, m, list, |t|);
  }

  /* What the predictors expect: that entries go on as they were. */

  /** From entry d on the list is constant, linear or quadratic. */
  predicate Continues(list: seq<int>, d: nat) {
    forall i {:trigger list[i]} :: d <= i < |list| ==>
      if d == 1 then list[i] == list[i - 1]
      else if d == 2 then list[i] - list[i - 1] == list[i - 1] - list[i - 2]
      else d == 3 && list[i] - 2 * list[i - 1] + list[i - 2] == list[i - 1] - 2 * list[i - 2] + list[i - 3]
  }

  /** The methods of either kind that expect this. */
  predicate Expects(taps: seq<int>, d: nat) {
    || (d == 1 && (taps == FILTER_TAPS[0] || taps == PTABLE_TAPS[0]))
    || (d == 2 && (taps == FILTER_TAPS[1] || taps == PTABLE_TAPS[1]))
    || (d == 3 && taps == PTABLE_TAPS[2])
  }

  lemma WeightedOf(taps: seq<int>, done: seq<int>)
    requires 1 <= |taps| <= 3 && |taps| <= |done|
    ensures Weighted(taps, done, |taps|)
            == taps[0] * done[|done| - 1] + (if |taps| > 1 then taps[1] * done[|done| - 2] else 0)
               + if |taps| > 2 then taps[2] * done[|done| - 3] else 0
  {
    assert Weighted(taps, done, 0) == 0;
    assert Weighted(taps, done, 1) == taps[0] * done[|done| - 1];
    if |taps| > 1 { assert Weighted(taps, done, 2) == Weighted(taps, done, 1) + taps[1] * done[|done| - 2]; }
    if |taps| > 2 { assert Weighted(taps, done, 3) == Weighted(taps, done, 2) + taps[2] * done[|done| - 3]; }
  }

  /** The third filter method: 9, 5 and -6 eighths of the entries before, rounded. */
  lemma ThirdFilterMethod(done: seq<int>, g: int)
    requires |done| >= 3
    ensures g == Guess(Weighted(FILTER_TAPS[2], done, 3))
            <==> -4 <= 8 * g - 9 * done[|done| - 1] - 5 * done[|done| - 2] + 6 * done[|done| - 3] <= 3
  {
    hide Weighted, Guess;
    WeightedOf(FILTER_TAPS[2], done);
    GuessRounds(Weighted(FILTER_TAPS[2], done, 3), g);
  }

  /** n codes of zero: a one and m zeros each. */
  function NoResidues(m: nat, n: nat): (s: seq<Bit>)
    ensures |s| == n * (m + 1)
  {
    if n == 0 then [] else [1] + Zeros(m) + NoResidues(m, n - 1)
  }

  lemma {:induction false} ZeroFields(m: nat)
    ensures BitsOf(0, m) == Zeros(m)
  {
    if m > 0 {
      ZeroFields(m - 1);
      ZerosSnoc(m - 1);
    }
  }

  lemma {:induction false} ZerosSnoc(n: nat)
    ensures Zeros(n) + [0] == Zeros(n + 1)
  {
    if n > 0 {
      ZerosSnoc(n - 1);
      assert Zeros(n) + [0] == [0] + (Zeros(n - 1) + [0]);
    }
  }

  lemma CodeOfZero(m: nat)
    ensures RiceBits(0, m) == [1] + Zeros(m)
  {
    ZeroFields(m);
    DivUnique(0, Pow2(m), 0, 0);
    assert Quotient(0, Pow2(m)) == 0;
  }

  lemma {:induction false} NothingMissed(taps: seq<int>, d: nat, m: nat, list: seq<int>, i: nat)
    requires Expects(taps, d) && Continues(list, d) && d <= i <= |list|
    ensures WriteResidues(taps, m, list, i) == NoResidues(m, |list| - i)
    decreases |list| - i
  {
    hide RiceBits, Weighted, Guess, Zeros;
    if i < |list| {
      NothingMissed(taps, d, m, list, i + 1);
      WeightedOf(taps, list[..i]);
      GuessRounds(Weighted(taps, list[..i], d), list[i]);
      CodeOfZero(m);
    }
  }

  /** Where a list goes on like this, bits that code no residue read back as it. */
  lemma ContinuedReadBack(bits: seq<Bit>, pos: nat, k: Kind, taps: seq<int>, d: nat, m: nat, list: seq<int>)
    requires Expects(taps, d) && Continues(list, d) && InRange(k, list) && d <= |list|
    requires At(bits, pos, NoResidues(m, |list| - d))
    ensures ReadPredicted(bits, pos, k, taps, m, list[..d], |list|) == Done(list, pos + (|list| - d) * (m + 1))
  {
    hide At, ReadPredicted, WriteResidues;
    NothingMissed(taps, d, m, list, d);
    ResiduesReadBack(bits, pos, k, taps, m, list, d);
  }

  /* Some codes bit by bit. */

  lemma RiceWords()
    ensures RiceBits(5, 2) == [0, 1, 0, 1, 0] && RiceBits(-5, 2) == [0, 1, 0, 1, 1]
    ensures RiceBits(0, 0) == [1] && RiceBits(1, 0) == [0, 1, 0]
  {
    assert Pow2(2) == 4 && Pow2(0) == 1;
    DivUnique(5, 4, 1, 1);
    DivUnique(1, 1, 1, 0);
    assert BitsOf(1, 2) == [0, 1] by { assert BitsOf(0, 1) == [0]; }
    assert Zeros(1) == [0] by { assert Zeros(0) == []; }
    assert Zeros(0) == [];
    assert BitsOf(0, 0) == [];
  }

  /** A plain list: a zero, and the entries in 9 bits of two's complement, or less one in 7 bits. */
  lemma {:induction false} PlainBits(k: Kind, list: seq<int>)
    requires Known(k) && InRange(k, list)
    ensures WriteList(k, FILTER_TAPS, Plain, list) == [0] + WritePlain(k, list)
    ensures |WritePlain(k, list)| == (if k == FILTER then 9 else 7) * |list|
    ensures list != [] ==> WritePlain(k, list) == BitsOf(if k == FILTER then (list[0] + 512) % 512 else list[0] - 1, if k == FILTER then 9 else 7)
                                               + WritePlain(k, list[1..])
  {
    hide BitsOf;
    if list != [] { PlainBits(k, list[1..]); }
  }

  /** A filter of two coefficients, the second one predicted by the first: 7 bits for the order, a one, method
      0, the coefficient 100, m = 0, no residue. */
  lemma PredictedFilter(bits: seq<Bit>, pos: nat)
    requires At(bits, pos, BitsOf(1, 7) + [1] + BitsOf(0, 2) + BitsOf(100, 9) + BitsOf(0, 3) + [1])
    ensures ReadFilter(bits, pos, FILTER_TAPS) == Done([100, 100], pos + 23)
  {
    hide At, BitsOf, WriteList, ReadList, GetBits;
    PredictedWord();
    var list := [100, 100];
    var w := WriteList(FILTER, FILTER_TAPS, Predicted(0, 0), list);
    AtSplit(bits, pos, BitsOf(1, 7), w);
    SmallPower();
    ReadField(bits, pos, 1, 7);
    ListRoundTrip(bits, pos + 7, FILTER, FILTER_TAPS, Predicted(0, 0), list);
  }

  lemma SmallPower()
    ensures Pow2(7) == 128
  {
    Pow2Values();
  }

  lemma PredictedWord()
    ensures InRange(FILTER, [100, 100])
    ensures var w := WriteList(FILTER, FILTER_TAPS, Predicted(0, 0), [100, 100]);
            && |w| == 16
            && BitsOf(1, 7) + [1] + BitsOf(0, 2) + BitsOf(100, 9) + BitsOf(0, 3) + [1] == BitsOf(1, 7) + w
  {
    hide BitsOf, Weighted, Guess, RiceBits;
    var list := [100, 100];
    assert list[..1] == [100] && [100][1..] == [];
    assert WritePlain(FILTER, []) == [];
    assert WritePlain(FILTER, [100]) == BitsOf(100, 9);
    assert Continues(list, 1);
    NothingMissed([-8], 1, 0, list, 1);
    OneNoResidue();
    assert WriteList(FILTER, FILTER_TAPS, Predicted(0, 0), list) == [1] + BitsOf(0, 2) + BitsOf(100, 9) + BitsOf(0, 3) + [1];
  }

  lemma OneNoResidue()
    ensures NoResidues(0, 1) == [1]
  {
    assert NoResidues(0, 0) == [] && Zeros(0) == [];
  }

  /* The methods that fill the arrays. */

  /** Row r of a table holds this list. */
  ghost predicate RowIs(T: array2<int>, r: nat, list: seq<int>)
    requires r < T.Length0
    reads T
  {
    |list| <= T.Length1 && forall i :: 0 <= i < |list| ==> T[r, i] == list[i]
  }

  twostate predicate OthersKept(T: array2<int>, r: nat)
    reads T
  {
    forall d, i :: 0 <= d < T.Length0 && 0 <= i < T.Length1 && d != r ==> T[d, i] == old(T[d, i])
  }

  method ReadPlainField(SD: StrData, k: Kind) returns (error: int, x: int)
    requires SD.Valid() && Known(k)
    modifies SD
    ensures SD.data == old(SD.data)
    ensures error == 0 || (error == NEGATIVE_BIT_ALLOCATION && GetBits(SD.Bits(), old(SD.Pos()), k.width) == Fail(error))
    ensures error == 0 ==>
              SD.Valid() && var v := GetBits(SD.Bits(), old(SD.Pos()), k.width);
              v.Done? && v.pos == SD.Pos() && x == FromField(k, v.value)
  {
    if k == FILTER {
      var st;
      st, x := SD.BitGetShortSigned(9);
      error := if st != 0 then NEGATIVE_BIT_ALLOCATION else 0;
    } else {
      error, x := ReadInt(SD, 7);
      x := x + 1;
    }
  }

  method ReadPlainInto(SD: StrData, k: Kind, T: array2<int>, r: nat, n: nat) returns (error: int, ghost list: seq<int>)
    requires SD.Valid() && Known(k) && r < T.Length0 && n <= T.Length1
    modifies SD, T
    ensures SD.data == old(SD.data) && OthersKept(T, r)
    ensures error == 0 || ReadPlain(SD.Bits(), old(SD.Pos()), k, [], n) == Fail(error)
    ensures error == 0 ==> SD.Valid() && RowIs(T, r, list) && |list| == n
                           && ReadPlain(SD.Bits(), old(SD.Pos()), k, [], n) == Done(list, SD.Pos())
  {
    hide GetBits, FromField;
    list := [];
    ghost var all := ReadPlain(SD.Bits(), SD.Pos(), k, [], n);
    var i: nat := 0;
    while i < n
      invariant SD.Valid() && SD.data == old(SD.data) && i == |list| <= n
      invariant RowIs(T, r, list) && OthersKept(T, r)
      invariant all == ReadPlain(SD.Bits(), SD.Pos(), k, list, n)
    {
      var x;
      error, x := ReadPlainField(SD, k);
      if error != 0 {
        return;
      }
      T[r, i] := x;
      list := list + [x];
      i := i + 1;
    }
    error := 0;
  }

  /** The prediction from the entries before (lines 693-694, 795-796). */
  method Predict(taps: seq<int>, T: array2<int>, r: nat, i: nat, ghost list: seq<int>) returns (x: int)
    requires r < T.Length0 && RowIs(T, r, list) && i == |list| && |taps| <= i
    ensures x == Weighted(taps, list, |taps|)
  {
    x := 0;
    for tapNr := 0 to |taps|
      invariant x == Weighted(taps, list, tapNr)
    {
      x := x + taps[tapNr] * T[r, i - tapNr - 1];
    }
  }

  method ReadPredictedInto(SD: StrData, k: Kind, taps: seq<int>, m: nat, T: array2<int>, r: nat, n: nat, ghost head: seq<int>)
    returns (error: int, ghost list: seq<int>)
    requires SD.Valid() && r < T.Length0 && n <= T.Length1 && m <= 7 && |taps| == |head| <= n && RowIs(T, r, head)
    requires k.rangeError != 0
    requires !ReadPredicted(SD.Bits(), SD.Pos(), k, taps, m, head, n).Undefined?
    modifies SD, T
    ensures SD.data == old(SD.data) && OthersKept(T, r)
    ensures error == 0 || ReadPredicted(SD.Bits(), old(SD.Pos()), k, taps, m, head, n) == Fail(error)
    ensures error == 0 ==> SD.Valid() && RowIs(T, r, list) && |list| == n
                           && ReadPredicted(SD.Bits(), old(SD.Pos()), k, taps, m, head, n) == Done(list, SD.Pos())
  {
    hide Weighted, Rice;
    list := head;
    ghost var all := ReadPredicted(SD.Bits(), SD.Pos(), k, taps, m, head, n);
    var i: nat := |taps|;
    while i < n
      invariant SD.Valid() && SD.data == old(SD.data) && i == |list| <= n && |taps| <= i
      invariant RowIs(T, r, list) && OthersKept(T, r)
      invariant all == ReadPredicted(SD.Bits(), SD.Pos(), k, taps, m, list, n)
    {
      var x := Predict(taps, T, r, i, list);
      var nr := RiceDecode(SD, m);
      var c;
      if x >= 0 {
        c := nr - (x + 4) / 8;
      } else {
        c := nr + (-x + 3) / 8;
      }
      if c < k.lo || c > k.hi {
        error := k.rangeError;
        return;
      }
      T[r, i] := c;
      list := list + [c];
      i := i + 1;
    }
    error := 0;
  }

  method ReadListInto(SD: StrData, k: Kind, taps: seq<seq<int>>, T: array2<int>, r: nat, n: nat)
    returns (error: int, ghost list: seq<int>)
    requires SD.Valid() && Known(k) && Predictors(taps) && r < T.Length0 && n <= T.Length1
    requires !ReadList(SD.Bits(), SD.Pos(), k, taps, n).Undefined?
    modifies SD, T
    ensures SD.data == old(SD.data) && OthersKept(T, r)
    ensures error == 0 || ReadList(SD.Bits(), old(SD.Pos()), k, taps, n) == Fail(error)
    ensures error == 0 ==> SD.Valid() && RowIs(T, r, list) && |list| == n
                           && ReadList(SD.Bits(), old(SD.Pos()), k, taps, n) == Done(list, SD.Pos())
  {
    hide GetBits, ReadPlain, ReadPredicted;
    list := [];
    var coded;
    error, coded := ReadInt(SD, 1);
    if error != 0 {
      return;
    }
    if coded == 0 {
      error, list := ReadPlainInto(SD, k, T, r, n);
      return;
    }
    var bestmethod, m;
    error, bestmethod := ReadInt(SD, 2);
    if error != 0 {
      return;
    }
    if |taps[bestmethod]| >= n {
      error := k.codingError;
      return;
    }
    ghost var head;
    error, head := ReadPlainInto(SD, k, T, r, |taps[bestmethod]|);
    if error != 0 {
      return;
    }
    error, m := ReadInt(SD, 3);
    if error != 0 {
      return;
    }
    ThreeBits(SD.Bits(), SD.Pos(), m);
    error, list := ReadPredictedInto(SD, k, taps[bestmethod], m, T, r, n, head);
  }

  lemma ThreeBits(bits: seq<Bit>, pos: nat, m: nat)
    requires pos >= 3 && GetBits(bits, pos - 3, 3) == Done(m, pos)
    ensures m <= 7
  {
    assert Pow2(3) == 8;
  }

  /** Every row of a coefficient table: the filter, then zeros. */
  ghost predicate FilterRows(T: array2<int>, order: array<nat>, filters: seq<seq<int>>)
    requires |filters| <= T.Length0 && |filters| <= order.Length && T.Length1 == 128
    reads T, order
  {
    forall f {:trigger filters[f]} :: 0 <= f < |filters| ==>
      RowIs(T, f, filters[f]) && order[f] == |filters[f]| && forall i :: |filters[f]| <= i < 128 ==> T[f, i] == 0
  }

  /** ReadFilterCoefSets without its last loop: orders and coefficients, zero from the order on. */
  method ReadFilterCoefSets(SD: StrData, nrOfFilters: nat, taps: seq<seq<int>>, PredOrder: array<nat>, ICoefA: array2<int>)
    returns (error: int, ghost filters: seq<seq<int>>)
    requires SD.Valid() && Predictors(taps)
    requires nrOfFilters <= PredOrder.Length && nrOfFilters <= ICoefA.Length0 && ICoefA.Length1 == 128
    requires !ReadFilters(SD.Bits(), SD.Pos(), taps, [], nrOfFilters).Undefined?
    modifies SD, PredOrder, ICoefA
    ensures SD.data == old(SD.data)
    ensures error == 0 || ReadFilters(SD.Bits(), old(SD.Pos()), taps, [], nrOfFilters) == Fail(error)
    ensures error == 0 ==> SD.Valid() && |filters| == nrOfFilters && FilterRows(ICoefA, PredOrder, filters)
                           && ReadFilters(SD.Bits(), old(SD.Pos()), taps, [], nrOfFilters) == Done(filters, SD.Pos())
  {
    hide ReadList, GetBits;
    filters := [];
    ghost var all := ReadFilters(SD.Bits(), SD.Pos(), taps, [], nrOfFilters);
    var f: nat := 0;
    while f < nrOfFilters
      invariant SD.Valid() && SD.data == old(SD.data) && f == |filters| <= nrOfFilters
      invariant FilterRows(ICoefA, PredOrder, filters)
      invariant all == ReadFilters(SD.Bits(), SD.Pos(), taps, filters, nrOfFilters)
    {
      ghost var list;
      error, list := ReadOneFilter(SD, f, taps, PredOrder, ICoefA, filters);
      if error != 0 {
        return;
      }
      filters := filters + [list];
      f := f + 1;
    }
    error := 0;
  }

  method ReadOneFilter(SD: StrData, f: nat, taps: seq<seq<int>>, PredOrder: array<nat>, ICoefA: array2<int>,
                       ghost filters: seq<seq<int>>)
    returns (error: int, ghost list: seq<int>)
    requires SD.Valid() && Predictors(taps) && f == |filters| < PredOrder.Length && f < ICoefA.Length0 && ICoefA.Length1 == 128
    requires FilterRows(ICoefA, PredOrder, filters)
    requires !ReadFilter(SD.Bits(), SD.Pos(), taps).Undefined?
    modifies SD, PredOrder, ICoefA
    ensures SD.data == old(SD.data)
    ensures error == 0 || ReadFilter(SD.Bits(), old(SD.Pos()), taps) == Fail(error)
    ensures error == 0 ==> SD.Valid() && FilterRows(ICoefA, PredOrder, filters + [list])
                           && ReadFilter(SD.Bits(), old(SD.Pos()), taps) == Done(list, SD.Pos())
  {
    hide ReadList;
    list := [];
    var order;
    error, order := ReadInt(SD, 7);
    if error != 0 {
      return;
    }
    Pow2Values();
    PredOrder[f] := order + 1;
    label start:
    error, list := ReadListInto(SD, FILTER, taps, ICoefA, f, order + 1);
    if error != 0 {
      return;
    }
    for i := order + 1 to 128
      invariant OthersKept@start(ICoefA, f) && RowIs(ICoefA, f, list) && SD.Valid()
      invariant forall j :: order + 1 <= j < i ==> ICoefA[f, j] == 0
      modifies ICoefA
    {
      ICoefA[f, i] := 0;
    }
    ghost var more := filters + [list];
    forall g | 0 <= g < |more|
      ensures RowIs(ICoefA, g, more[g]) && PredOrder[g] == |more[g]| && forall i :: |more[g]| <= i < 128 ==> ICoefA[g, i] == 0
    {
      assert g < |filters| ==> old(RowIs(ICoefA, g, filters[g]));
    }
  }

  /** Every row of a probability table. */
  ghost predicate PtableRows(T: array2<int>, length: array<nat>, ptables: seq<seq<int>>)
    requires |ptables| <= T.Length0 && |ptables| <= length.Length
    reads T, length
  {
    forall f {:trigger ptables[f]} :: 0 <= f < |ptables| ==> RowIs(T, f, ptables[f]) && length[f] == |ptables[f]|
  }

  method ReadOnePtable(SD: StrData, f: nat, taps: seq<seq<int>>, PtableLen: array<nat>, P_one: array2<int>,
                       ghost ptables: seq<seq<int>>)
    returns (error: int, ghost list: seq<int>)
    requires SD.Valid() && Predictors(taps) && f == |ptables| < PtableLen.Length && f < P_one.Length0 && P_one.Length1 == 64
    requires PtableRows(P_one, PtableLen, ptables)
    requires !ReadPtable(SD.Bits(), SD.Pos(), taps).Undefined?
    modifies SD, PtableLen, P_one
    ensures SD.data == old(SD.data)
    ensures error == 0 || ReadPtable(SD.Bits(), old(SD.Pos()), taps) == Fail(error)
    ensures error == 0 ==> SD.Valid() && PtableRows(P_one, PtableLen, ptables + [list])
                           && ReadPtable(SD.Bits(), old(SD.Pos()), taps) == Done(list, SD.Pos())
  {
    hide ReadList;
    list := [];
    var len;
    error, len := ReadInt(SD, 6);
    if error != 0 {
      return;
    }
    assert Pow2(6) == 64;
    PtableLen[f] := len + 1;
    if PtableLen[f] > 1 {
      error, list := ReadListInto(SD, PTABLE, taps, P_one, f, len + 1);
      if error != 0 {
        return;
      }
    } else {
      P_one[f, 0] := 128;
      list := [128];
    }
    ghost var more := ptables + [list];
    forall g | 0 <= g < |more| ensures RowIs(P_one, g, more[g]) && PtableLen[g] == |more[g]| {
      assert g < |ptables| ==> old(RowIs(P_one, g, ptables[g]));
    }
  }

  /** ReadProbabilityTables. */
  method ReadProbabilityTables(SD: StrData, nrOfPtables: nat, taps: seq<seq<int>>, PtableLen: array<nat>, P_one: array2<int>)
    returns (error: int, ghost ptables: seq<seq<int>>)
    requires SD.Valid() && Predictors(taps)
    requires nrOfPtables <= PtableLen.Length && nrOfPtables <= P_one.Length0 && P_one.Length1 == 64
    requires !ReadPtables(SD.Bits(), SD.Pos(), taps, [], nrOfPtables).Undefined?
    modifies SD, PtableLen, P_one
    ensures SD.data == old(SD.data)
    ensures error == 0 || ReadPtables(SD.Bits(), old(SD.Pos()), taps, [], nrOfPtables) == Fail(error)
    ensures error == 0 ==> SD.Valid() && |ptables| == nrOfPtables && PtableRows(P_one, PtableLen, ptables)
                           && ReadPtables(SD.Bits(), old(SD.Pos()), taps, [], nrOfPtables) == Done(ptables, SD.Pos())
  {
    hide ReadList, GetBits;
    ptables := [];
    ghost var all := ReadPtables(SD.Bits(), SD.Pos(), taps, [], nrOfPtables);
    var f: nat := 0;
    while f < nrOfPtables
      invariant SD.Valid() && SD.data == old(SD.data) && f == |ptables| <= nrOfPtables
      invariant PtableRows(P_one, PtableLen, ptables)
      invariant all == ReadPtables(SD.Bits(), SD.Pos(), taps, ptables, nrOfPtables)
    {
      ghost var list;
      error, list := ReadOnePtable(SD, f, taps, PtableLen, P_one, ptables);
      if error != 0 {
        return;
      }
      ptables := ptables + [list];
      f := f + 1;
    }
    error := 0;
  }
}
