/** The FIR predictor of dst_fram.c: sixteen 256-entry tables indexed by the bytes of a 128-bit shift
    register, against the direct sum over the taps. */
module Predictor {
  import opened Bits

  const TAPS := 128          // 1 << SIZE_CODEDPREDORDER
  const WORD := 0x1_0000_0000

  /** The sum over the first n taps of +coef where the history bit is 1 and -coef where it is 0. */
  function DirectSum(history: seq<Bit>, coef: seq<int>, n: nat): int
    requires n <= |history| && n <= |coef|
  {
    if n == 0 then 0 else DirectSum(history, coef, n - 1) + (2 * history[n - 1] - 1) * coef[n - 1]
  }

  /** Taps of a filter of the given length that table t looks after. */
  function TapsOf(order: nat, t: nat): nat {
    if order < 8 * t then 0 else if order - 8 * t > 8 then 8 else order - 8 * t
  }

  function EntrySum(coef: seq<int>, t: nat, i: nat, k: nat): int
    requires 8 * t + k <= |coef|
  {
    if k == 0 then 0
    else EntrySum(coef, t, i, k - 1) + (BitAt(i, k - 1) * 2 - 1) * coef[8 * t + k - 1]
  }

  /** Entry i of table t. */
  function Entry(coef: seq<int>, order: nat, t: nat, i: nat): int
    requires order <= |coef| && 8 * t + TapsOf(order, t) <= |coef|
  {
    EntrySum(coef, t, i, TapsOf(order, t))
  }

  lemma {:induction false} EntrySumBound(coef: seq<int>, t: nat, i: nat, k: nat)
    requires 8 * t + k <= |coef|
    requires forall n :: 0 <= n < |coef| ==> -256 <= coef[n] <= 255
    ensures -256 * k <= EntrySum(coef, t, i, k) <= 256 * k
  {
    if k > 0 { EntrySumBound(coef, t, i, k - 1); }
  }

  /** The cast of a table entry to int16_t loses nothing. */
  lemma EntryFits(coef: seq<int>, order: nat, t: nat, i: nat)
    requires |coef| == TAPS && order <= TAPS && t < 16
    requires forall n :: 0 <= n < |coef| ==> -256 <= coef[n] <= 255
    ensures Int16(Entry(coef, order, t, i)) == Entry(coef, order, t, i)
  {
    EntrySumBound(coef, t, i, TapsOf(order, t));
  }

  /** LT_InitCoefTablesI for one filter. */
  method InitCoefTables(order: nat, coef: seq<int>, tables: array2<int>)
    requires |coef| == TAPS && order <= TAPS && tables.Length0 == 16 && tables.Length1 == 256
    requires forall n :: 0 <= n < |coef| ==> -256 <= coef[n] <= 255
    modifies tables
    ensures forall t, i :: 0 <= t < 16 && 0 <= i < 256 ==> tables[t, i] == Entry(coef, order, t, i)
  {
    for table := 0 to 16
      invariant forall t, i :: 0 <= t < table && 0 <= i < 256 ==> tables[t, i] == Entry(coef, order, t, i)
    {
      var k := order - table * 8;
      if k > 8 {
        k := 8;
      } else if k < 0 {
        k := 0;
      }
      for i := 0 to 256
        invariant forall t, j :: 0 <= t < table && 0 <= j < 256 ==> tables[t, j] == Entry(coef, order, t, j)
        invariant forall j :: 0 <= j < i ==> tables[table, j] == Entry(coef, order, table, j)
      {
        var cvalue := 0;
        for j := 0 to k
          invariant cvalue == EntrySum(coef, table, i, j)
        {
          cvalue := cvalue + (BitAt(i, j) * 2 - 1) * coef[table * 8 + j];
        }
        EntryFits(coef, order, table, i);
        tables[table, i] := Int16(cvalue);
      }
    }
  }

  /* The shift register: four little-endian 32-bit words seen as sixteen bytes. */

  type Words = w: seq<nat> | |w| == 4 && forall i :: 0 <= i < 4 ==> w[i] < WORD witness [0, 0, 0, 0]

  /** Sixteen bytes 0xaa. */
  const FreshWords: Words := [0xaaaa_aaaa, 0xaaaa_aaaa, 0xaaaa_aaaa, 0xaaaa_aaaa]

  function StatusByte(w: Words, t: nat): (b: Byte)
    requires t < 16
  {
    Shr(w[t / 4], 8 * (t % 4)) % 256
  }

  function ShiftIn(w: Words, b: Bit): Words {
    [ShiftedWord(w[0], b), ShiftedWord(w[1], TopBit(w[0])),
     ShiftedWord(w[2], TopBit(w[1])), ShiftedWord(w[3], TopBit(w[2]))]
  }

  /** The register as a bit string, most recent bit first. */
  function History(w: Words): (h: seq<Bit>)
    ensures |h| == TAPS
  {
    WordBits(w[0]) + WordBits(w[1]) + WordBits(w[2]) + WordBits(w[3])
  }

  function WordBits(v: nat): (s: seq<Bit>)
    ensures |s| == 32
  {
    LowBits(v, 32)
  }

  function ShiftedWord(v: nat, c: Bit): nat { (2 * v) % WORD + c }

  function TopBit(v: nat): (b: Bit)
    requires v < WORD
  {
    v / 0x8000_0000
  }

  lemma ShiftWord(v: nat, c: Bit)
    requires v < WORD
    ensures WordBits(ShiftedWord(v, c)) == [c] + WordBits(v)[..31]
    ensures WordBits(v)[31] == TopBit(v)
  {
    hide LowBits, Pow2;
    Pow2Values();
    ShiftLowBits(v, c, 32);
  }

  lemma ConcatShift(a: seq<Bit>, b: seq<Bit>, c: seq<Bit>, d: seq<Bit>, x: Bit)
    requires |a| == |b| == |c| == |d| == 32
    ensures ([x] + a[..31]) + ([a[31]] + b[..31]) + ([b[31]] + c[..31]) + ([c[31]] + d[..31]) == [x] + (a + b + c + d)[..127]
  {
    assert a == a[..31] + [a[31]] && b == b[..31] + [b[31]] && c == c[..31] + [c[31]];
    assert (a + b + c + d)[..127] == a + b + c + d[..31];
  }

  /** Shifting pushes the new bit in front and drops the oldest. */
  lemma ShiftHistory(w: Words, b: Bit)
    ensures History(ShiftIn(w, b)) == [b] + History(w)[..TAPS - 1]
  {
    ShiftWord(w[0], b);
    ShiftWord(w[1], TopBit(w[0]));
    ShiftWord(w[2], TopBit(w[1]));
    ShiftWord(w[3], TopBit(w[2]));
    ConcatShift(WordBits(w[0]), WordBits(w[1]), WordBits(w[2]), WordBits(w[3]), b);
  }

  lemma HistoryAt(w: Words, q: nat, i: nat)
    requires q < 4 && i < 32
    ensures History(w)[32 * q + i] == WordBits(w[q])[i]
  {
  }

  lemma ByteBits(v: nat, n: nat, s: nat, j: nat)
    requires j < 8 && s + 8 <= n
    ensures BitAt(Shr(v, s) % 256, j) == LowBits(v, n)[s + j]
  {
    Pow2Values();
    var u := Shr(v, s);
    LowBitsAt(u % 256, 8, j);
    LowBitsMod(u, 8, 8);
    LowBitsTake(u, n - s, 8);
    LowBitsShift(v, n, s);
    assert LowBits(v, n)[s..][j] == LowBits(v, n)[s + j];
  }

  /** Byte t of the register holds history bits 8t .. 8t+7. */
  lemma ByteHistory(w: Words, t: nat, j: nat)
    requires t < 16 && j < 8
    ensures BitAt(StatusByte(w, t), j) == History(w)[8 * t + j]
  {
    var s := 8 * (t % 4);
    ByteBits(w[t / 4], 32, s, j);
    HistoryAt(w, t / 4, s + j);
    assert 32 * (t / 4) + (s + j) == 8 * t + j;
  }

  lemma {:induction false} EntryIsDirect(w: Words, coef: seq<int>, t: nat, k: nat)
    requires t < 16 && k <= 8 && |coef| == TAPS
    ensures DirectSum(History(w), coef, 8 * t + k)
            == DirectSum(History(w), coef, 8 * t) + EntrySum(coef, t, StatusByte(w, t), k)
  {
    if k > 0 {
      EntryIsDirect(w, coef, t, k - 1);
      ByteHistory(w, t, k - 1);
    }
  }

  /** The entries picked from the first n tables add up to the direct sum over their taps. */
  function Picked(w: Words, coef: seq<int>, order: nat, n: nat): int
    requires |coef| == TAPS && order <= TAPS && n <= 16
  {
    if n == 0 then 0 else Picked(w, coef, order, n - 1) + Entry(coef, order, n - 1, StatusByte(w, n - 1))
  }

  lemma {:induction false} PickedIsDirect(w: Words, coef: seq<int>, order: nat, n: nat)
    requires |coef| == TAPS && order <= TAPS && n <= 16
    ensures Picked(w, coef, order, n) == DirectSum(History(w), coef, if order < 8 * n then order else 8 * n)
  {
    if n > 0 {
      PickedIsDirect(w, coef, order, n - 1);
      EntryIsDirect(w, coef, n - 1, TapsOf(order, n - 1));
    }
  }

  lemma Int16Add(x: int, y: int)
    ensures Int16(Int16(x) + y) == Int16(x + y)
  {
  }

  /** LT_RUN_FILTER_I: the sixteen additions in int16_t arithmetic. */
  method RunFilter(tables: array2<int>, w: Words, ghost order: nat, ghost coef: seq<int>) returns (predict: int)
    requires tables.Length0 == 16 && tables.Length1 == 256 && |coef| == TAPS && order <= TAPS
    requires forall t, i :: 0 <= t < 16 && 0 <= i < 256 ==> tables[t, i] == Entry(coef, order, t, i)
    ensures predict == Int16(DirectSum(History(w), coef, order))
  {
    predict := 0;
    for t := 0 to 16
      invariant predict == Int16(Picked(w, coef, order, t))
    {
      Int16Add(Picked(w, coef, order, t), Entry(coef, order, t, StatusByte(w, t)));
      predict := Int16(predict + tables[t, StatusByte(w, t)]);
    }
    PickedIsDirect(w, coef, order, 16);
  }

  lemma {:induction false} DirectBound(history: seq<Bit>, coef: seq<int>, n: nat)
    requires n <= |history| && n <= |coef|
    requires forall i :: 0 <= i < |coef| ==> -256 <= coef[i] <= 255
    ensures -256 * n <= DirectSum(history, coef, n) <= 256 * n
    ensures DirectSum(history, coef, n) == 256 * n <==> forall i :: 0 <= i < n ==> coef[i] == -256 && history[i] == 0
  {
    if n > 0 {
      DirectBound(history, coef, n - 1);
      var last := (2 * history[n - 1] - 1) * coef[n - 1];
      assert last <= 256;
      if DirectSum(history, coef, n) == 256 * n {
        assert last == 256;
      }
    }
  }

  /** The 16-bit predictor is the exact sum except for the one sum that does not fit: all 128 taps at
      -256 and an all-zero history. */
  lemma PredictorExact(history: seq<Bit>, coef: seq<int>, order: nat)
    requires |history| == TAPS && |coef| == TAPS && order <= TAPS
    requires forall i :: 0 <= i < TAPS ==> -256 <= coef[i] <= 255
    ensures Int16(DirectSum(history, coef, order)) == DirectSum(history, coef, order)
            <==> !(order == TAPS && forall i :: 0 <= i < TAPS ==> coef[i] == -256 && history[i] == 0)
    ensures DirectSum(history, coef, order) == 32768 ==> Int16(DirectSum(history, coef, order)) == -32768
  {
    DirectBound(history, coef, order);
  }

  function AlternatingWord(k: nat): nat {
    if k == 0 then 0 else 4 * AlternatingWord(k - 1) + 2
  }

  lemma {:induction false} AlternatingBits(k: nat, n: nat, i: nat)
    requires i < n <= 2 * k
    ensures LowBits(AlternatingWord(k), n)[i] == i % 2
  {
    var v := AlternatingWord(k);
    assert v == 4 * AlternatingWord(k - 1) + 2;
    if i >= 2 {
      AlternatingBits(k - 1, n - 2, i - 2);
      assert LowBits(v, n)[i] == LowBits(v / 2, n - 1)[i - 1] == LowBits(v / 2 / 2, n - 2)[i - 2];
    }
  }

  lemma AlternatingHistory(w: Words, k: nat, n: nat)
    requires k == 16 && n < TAPS && forall q :: 0 <= q < 4 ==> w[q] == AlternatingWord(k)
    ensures History(w)[n] == n % 2
  {
    HistoryAt(w, n / 32, n % 32);
    AlternatingBits(k, 32, n % 32);
  }

  /** The register a channel starts with: bit n is n mod 2. */
  lemma FreshHistory(n: nat)
    requires n < TAPS
    ensures History(FreshWords)[n] == n % 2
  {
    assert AlternatingWord(8) == 0xaaaa;
    assert AlternatingWord(16) == 0xaaaa_aaaa;
    AlternatingHistory(FreshWords, 16, n);
  }
}
