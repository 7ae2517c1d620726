/** What decoding a DST frame computes (DST_FramDSTDecode in dst_fram.c, UnpackDSTframe in unpack_dst.c),
    and that it inverts an encoder in the sense of subpart 10 of ISO/IEC 14496-3. */
module FrameCodec {
  import opened Bits
  import opened BitReader
  import opened Segmentation
  import opened TableMapping
  import opened FrameTables
  import opened FrameLayout
  import opened Coefs
  import opened Predictor
  import opened ArithDecoder

  const INVALID_STUFFING := 13
  const INVALID_CODE := 14
  const DECODER_ERROR := 15

  datatype Header = Header(layout: Layout, filters: seq<seq<int>>, ptables: seq<seq<int>>)

  function ReadHeader(bits: seq<Bit>, pos: nat, c: Config): Parse<Header>
    requires Usual(c)
  {
    var (y, p) :- ReadLayout(bits, pos, c);
    var (f, q) :- ReadFilters(bits, p, FILTER_TAPS, [], y.fmap.count);
    var (t, r) :- ReadPtables(bits, q, PTABLE_TAPS, [], y.pmap.count);
    Done(Header(y, f, t), r)
  }

  /* What the decode loop relies on, and that an accepted header gives it. */

  predicate TablesFit(s: Segments, tables: seq<seq<nat>>, channels: nat, count: nat) {
    && |s.lens| == |tables| == channels
    && (forall c {:trigger tables[c]} :: 0 <= c < channels ==> |tables[c]| == |s.lens[c]| + 1)
    && (forall c, i {:trigger tables[c][i]} :: 0 <= c < channels && 0 <= i < |tables[c]| ==> tables[c][i] < count)
  }

  predicate Good(h: Header, c: Config) {
    && Usual(c) && |h.layout.half| == c.channels
    && TablesFit(h.layout.fseg, h.layout.fmap.tables, c.channels, |h.filters|)
    && TablesFit(h.layout.pseg, h.layout.pmap.tables, c.channels, |h.ptables|)
    && AllInRange(FILTER, h.filters, 128) && AllInRange(PTABLE, h.ptables, 64)
    && h.filters != []
  }

  lemma MappingFits(bits: seq<Bit>, pos: nat, maxTables: nat, s: Segments)
    requires s.lens != [] && ReadMap(bits, pos, maxTables, Sizes(s)).Done?
    ensures var m := ReadMap(bits, pos, maxTables, Sizes(s)).value;
            TablesFit(s, m.tables, |s.lens|, m.count) && m.count > 0
  {
    var sizes := Sizes(s);
    var m := ReadMap(bits, pos, maxTables, sizes).value;
    AcceptedMapping(bits, pos, maxTables, sizes);
    forall c | 0 <= c < |sizes| ensures |m.tables[c]| == |s.lens[c]| + 1 {
      assert |m.tables[c]| == sizes[c];
    }
    forall c, i | 0 <= c < |sizes| && 0 <= i < |m.tables[c]| ensures m.tables[c][i] < m.count {
      TableExists(m, c, i);
    }
  }

  lemma MapsFit(bits: seq<Bit>, pos: nat, c: Config, f: Segments, g: Segments)
    requires |f.lens| == |g.lens| == c.channels > 0 && ReadMaps(bits, pos, c, Sizes(f), Sizes(g)).Done?
    ensures var v := ReadMaps(bits, pos, c, Sizes(f), Sizes(g)).value;
            && TablesFit(f, v.1.tables, c.channels, v.1.count) && v.1.count > 0
            && TablesFit(g, v.2.tables, c.channels, v.2.count)
  {
    var m := ReadMap(bits, pos + 1, MaxTables(c), Sizes(f));
    MappingFits(bits, pos + 1, MaxTables(c), f);
    if ReadMaps(bits, pos, c, Sizes(f), Sizes(g)).value.0 == 1 {
      CopyMapAccepts(Sizes(f), Sizes(g), 0, m.value.count, MaxTables(c));
      assert Sizes(f)[0..] == Sizes(f) && Sizes(g)[0..] == Sizes(g);
      forall i | 0 <= i < c.channels ensures |m.value.tables[i]| == |g.lens[i]| + 1 {
        assert Sizes(f)[i] == Sizes(g)[i];
      }
    } else {
      MappingFits(bits, m.pos, MaxTables(c), g);
    }
  }

  /* The header as the decoder's arrays hold it: a ninth number that was lost has another in its place. */

  function Stored(m: Mapping): Mapping { m.(tables := Seen(m)) }

  function StoredLayout(y: Layout): Layout { y.(fmap := Stored(y.fmap), pmap := Stored(y.pmap)) }

  function AsStored(h: Header): Header { h.(layout := StoredLayout(h.layout)) }

  lemma SeenFits(s: Segments, m: Mapping, channels: nat, count: nat)
    requires TablesFit(s, m.tables, channels, count)
    ensures TablesFit(s, Seen(m), channels, count)
  {
    forall c, i | 0 <= c < channels && 0 <= i < |Seen(m)[c]| ensures Seen(m)[c][i] < count {
      assert Seen(m)[c] == SeenRow(m, c);
      assert forall d, j :: 0 <= d < channels && 0 <= j < |m.tables[d]| ==> m.tables[d][j] < count;
    }
  }

  /** The checks made while unpacking are just what the decode loop needs: every bit's filter and
      probability table exists, filters have 1 to 128 coefficients that fit 9 bits, tables 1 to 64
      probabilities from 1 to 128; a lost ninth number changes nothing of that. */
  lemma AcceptedHeaderIsGood(bits: seq<Bit>, pos: nat, c: Config)
    requires Usual(c) && ReadHeader(bits, pos, c).Done?
    ensures var h := ReadHeader(bits, pos, c).value; Good(h, c) && Good(AsStored(h), c)
  {
    hide GetBits, ReadSegs, ReadMaps, ReadFilters, ReadPtables, ReadHalf, Seen, TablesFit;
    var h := ReadHeader(bits, pos, c).value;
    var s := ReadSegs(bits, pos, c);
    SegsShape(bits, pos, c);
    MapsFit(bits, s.pos, c, s.value.1, s.value.2);
    var y := ReadLayout(bits, pos, c);
    FiltersInRange(bits, y.pos, FILTER_TAPS, [], y.value.fmap.count);
    var f := ReadFilters(bits, y.pos, FILTER_TAPS, [], y.value.fmap.count);
    PtablesInRange(bits, f.pos, PTABLE_TAPS, [], y.value.pmap.count);
    SeenFits(h.layout.fseg, h.layout.fmap, c.channels, |h.filters|);
    SeenFits(h.layout.pseg, h.layout.pmap, c.channels, |h.ptables|);
  }

  /** The two differ at most in the mapping of the probability tables. */
  predicate SameFilters(h: Header, g: Header) {
    g == h.(layout := h.layout.(pmap := g.layout.pmap))
  }

  /** The arrays hold the accepted header if and only if no ninth number is lost; its filters they always hold. */
  lemma StoredExactly(bits: seq<Bit>, pos: nat, c: Config)
    requires Usual(c) && ReadHeader(bits, pos, c).Done?
    ensures var h := ReadHeader(bits, pos, c).value; SameFilters(h, AsStored(h)) && (AsStored(h) == h <==> NinthKept(h.layout.pmap))
  {
    hide GetBits, ReadSegs, ReadMaps, ReadFilters, ReadPtables, ReadHalf, Seen, NinthKept, StartsWithZero;
    var h := ReadHeader(bits, pos, c).value;
    var s := ReadSegs(bits, pos, c);
    SegsShape(bits, pos, c);
    AcceptedMaps(bits, s.pos, c, s.value.1, s.value.2);
    SeenExactly(h.layout.pmap);
  }

  /* The decode loop on values. Bits are numbered in decoding order: bit b of channel ch is number
     b * channels + ch. */

  function NumBits(c: Config): nat { 8 * c.frameLen * c.channels }

  /** The bits of one channel. */
  function Channel(y: seq<Bit>, ch: nat, channels: nat): seq<Bit>
    requires channels > 0
  {
    if y == [] then []
    else
      var front := Channel(y[..|y| - 1], ch, channels);
      if (|y| - 1) % channels == ch then front + [y[|y| - 1]] else front
  }

  lemma ChannelGrows(y: seq<Bit>, b: Bit, ch: nat, channels: nat)
    requires channels > 0
    ensures Channel(y + [b], ch, channels)
            == if |y| % channels == ch then Channel(y, ch, channels) + [b] else Channel(y, ch, channels)
  {
    assert (y + [b])[..|y|] == y;
  }

  /** The 128 bits before the next one, most recent first; before the frame they alternate. */
  function Past(s: seq<Bit>): (p: seq<Bit>)
    ensures |p| == TAPS
  {
    seq(TAPS, n requires 0 <= n < TAPS => if n < |s| then s[|s| - 1 - n] else (n - |s|) % 2)
  }

  function FilterOf(h: Header, c: Config, ch: nat, b: nat): (f: seq<int>)
    requires Good(h, c) && ch < c.channels
    ensures 1 <= |f| <= TAPS && InRange(FILTER, f)
  {
    var t := h.layout.fmap.tables;
    assert |t[ch]| == |h.layout.fseg.lens[ch]| + 1;
    h.filters[TableAt(h.layout.fseg, t, ch, b)]
  }

  function PtableOf(h: Header, c: Config, ch: nat, b: nat): (p: seq<int>)
    requires Good(h, c) && ch < c.channels
    ensures 1 <= |p| <= 64 && InRange(PTABLE, p)
  {
    var t := h.layout.pmap.tables;
    assert |t[ch]| == |h.layout.pseg.lens[ch]| + 1;
    h.ptables[TableAt(h.layout.pseg, t, ch, b)]
  }

  /** The filter's output for the bit after y. */
  function ExactSum(h: Header, c: Config, y: seq<Bit>): int
    requires Good(h, c)
  {
    var ch := |y| % c.channels;
    var f := FilterOf(h, c, ch, |y| / c.channels);
    DirectSum(Past(Channel(y, ch, c.channels)), f, |f|)
  }

  /** The same in 16 bits, as the decoder has it. */
  function Prediction(h: Header, c: Config, y: seq<Bit>): int
    requires Good(h, c)
  {
    Int16(ExactSum(h, c, y))
  }

  /** LT_ACGetPtableIndex, AC_QSTEP being 3. */
  function PtableIndex(predicVal: int, len: nat): nat
    requires len > 0
  {
    var j := Abs(predicVal) / 8;
    if j >= len then len - 1 else j
  }

  /** The first bits of a channel may go without a table. */
  predicate HalfStart(h: Header, c: Config, ch: nat, b: nat)
    requires Good(h, c) && ch < c.channels
  {
    var t := h.layout.fmap.tables;
    assert |t[ch]| == |h.layout.fseg.lens[ch]| + 1;
    h.layout.half[ch] != 0 && b < |h.filters[t[ch][0]]|
  }

  /** The probability with which the residual of the bit after y is coded, for this output of the filter. */
  function ProbabilityFor(h: Header, c: Config, y: seq<Bit>, predict: int): (p: nat)
    requires Good(h, c)
    ensures 1 <= p <= 128
  {
    var ch := |y| % c.channels;
    var b := |y| / c.channels;
    if HalfStart(h, c, ch, b) then 128
    else
      var t := PtableOf(h, c, ch, b);
      t[PtableIndex(predict, |t|)]
  }

  function Probability(h: Header, c: Config, y: seq<Bit>): (p: nat)
    requires Good(h, c)
    ensures 1 <= p <= 128
  {
    ProbabilityFor(h, c, y, Prediction(h, c, y))
  }

  function SignBit(x: int): Bit { if x < 0 then 1 else 0 }

  function Xor(a: Bit, b: Bit): Bit { if a == b then 0 else 1 }

  /** The bits that residuals stand for: each the predicted sign, changed where the residual is 1. */
  function Recon(h: Header, c: Config, res: seq<Bit>): (y: seq<Bit>)
    requires Good(h, c)
    ensures |y| == |res|
  {
    if res == [] then []
    else
      var y := Recon(h, c, res[..|res| - 1]);
      y + [Xor(SignBit(Prediction(h, c, y)), res[|res| - 1])]
  }

  /* A spec encoder has no 16-bit predictor: its residuals and probabilities come from the exact sums. */

  function Residuals(h: Header, c: Config, y: seq<Bit>): (res: seq<Bit>)
    requires Good(h, c)
    ensures |res| == |y|
  {
    if y == [] then []
    else Residuals(h, c, y[..|y| - 1]) + [Xor(SignBit(ExactSum(h, c, y[..|y| - 1])), y[|y| - 1])]
  }

  /** The one sum that does not fit 16 bits: the bit after y has a filter of 128 coefficients -256, and the
      128 bits before it in its channel are 0. */
  predicate Overflows(h: Header, c: Config, y: seq<Bit>)
    requires Good(h, c)
  {
    var ch := |y| % c.channels;
    var f := FilterOf(h, c, ch, |y| / c.channels);
    |f| == TAPS && forall i :: 0 <= i < TAPS ==> f[i] == -256 && Past(Channel(y, ch, c.channels))[i] == 0
  }

  /** No bit of y meets it. */
  ghost predicate Fits(h: Header, c: Config, y: seq<Bit>)
    requires Good(h, c)
  {
    forall k {:trigger y[..k]} :: 0 <= k < |y| ==> !Overflows(h, c, y[..k])
  }

  lemma ExactUnless(h: Header, c: Config, y: seq<Bit>)
    requires Good(h, c)
    ensures Prediction(h, c, y) == ExactSum(h, c, y) <==> !Overflows(h, c, y)
    ensures Overflows(h, c, y) ==> ExactSum(h, c, y) == 32768 && Prediction(h, c, y) == -32768
  {
    hide Channel, Past, DirectSum, TablesFit, AllInRange;
    var ch := |y| % c.channels;
    var f := FilterOf(h, c, ch, |y| / c.channels);
    assert InRange(FILTER, f);
    assert |Past(Channel(y, ch, c.channels))| == TAPS;
    DirectBound(Past(Channel(y, ch, c.channels)), f, |f|);
  }

  /** Even there the table's entry is the same: the index comes from the absolute value. */
  lemma SameProbability(h: Header, c: Config, y: seq<Bit>)
    requires Good(h, c)
    ensures ProbabilityFor(h, c, y, ExactSum(h, c, y)) == Probability(h, c, y)
  {
    hide Good, ExactSum, HalfStart, PtableOf, Overflows, Prediction;
    ExactUnless(h, c, y);
  }

  lemma {:induction false} ResidualAt(h: Header, c: Config, y: seq<Bit>, i: nat)
    requires Good(h, c) && i < |y|
    ensures Residuals(h, c, y)[i] == Xor(SignBit(ExactSum(h, c, y[..i])), y[i])
  {
    hide Good, ExactSum;
    if i < |y| - 1 {
      ResidualAt(h, c, y[..|y| - 1], i);
      assert y[..|y| - 1][..i] == y[..i];
    }
  }

  /** Up to the first sum that does not fit, the decoder rebuilds the bits. */
  lemma {:induction false} ReconUpTo(h: Header, c: Config, y: seq<Bit>, j: nat)
    requires Good(h, c) && j <= |y| && forall i {:trigger y[..i]} :: 0 <= i < j ==> !Overflows(h, c, y[..i])
    ensures Recon(h, c, Residuals(h, c, y)[..j]) == y[..j]
  {
    hide Good, ExactSum, Prediction, Overflows, Residuals;
    if j > 0 {
      ReconUpTo(h, c, y, j - 1);
      ResidualAt(h, c, y, j - 1);
      ExactUnless(h, c, y[..j - 1]);
      assert Residuals(h, c, y)[..j][..j - 1] == Residuals(h, c, y)[..j - 1];
    }
  }

  /** There the predicted sign is wrong, and the bit comes out inverted. */
  lemma ReconFlips(h: Header, c: Config, y: seq<Bit>, k: nat)
    requires Good(h, c) && k < |y| && Overflows(h, c, y[..k])
    requires forall i {:trigger y[..i]} :: 0 <= i < k ==> !Overflows(h, c, y[..i])
    ensures Recon(h, c, Residuals(h, c, y)[..k + 1])[k] != y[k]
  {
    hide Good, ExactSum, Prediction, Overflows, Residuals;
    ReconUpTo(h, c, y, k);
    ResidualAt(h, c, y, k);
    ExactUnless(h, c, y[..k]);
    assert Residuals(h, c, y)[..k + 1][..k] == Residuals(h, c, y)[..k];
  }

  lemma {:induction false} ReconPrefix(h: Header, c: Config, res: seq<Bit>, j: nat)
    requires Good(h, c) && j <= |res|
    ensures Recon(h, c, res)[..j] == Recon(h, c, res[..j])
  {
    hide Good, Prediction;
    if j == |res| {
      assert res[..j] == res;
    } else {
      ReconPrefix(h, c, res[..|res| - 1], j);
      assert res[..|res| - 1][..j] == res[..j];
    }
  }

  lemma {:induction false} FirstOverflow(h: Header, c: Config, y: seq<Bit>, k: nat) returns (j: nat)
    requires Good(h, c) && k < |y| && Overflows(h, c, y[..k])
    ensures j <= k && Overflows(h, c, y[..j]) && forall i {:trigger y[..i]} :: 0 <= i < j ==> !Overflows(h, c, y[..i])
  {
    hide Good, Overflows;
    if i :| 0 <= i < k && Overflows(h, c, y[..i]) {
      j := FirstOverflow(h, c, y, i);
    } else {
      j := k;
    }
  }

  /** The decoder rebuilds the bits from the encoder's residuals if and only if every sum fits 16 bits. */
  lemma ReconExactly(h: Header, c: Config, y: seq<Bit>)
    requires Good(h, c)
    ensures Recon(h, c, Residuals(h, c, y)) == y <==> Fits(h, c, y)
  {
    hide Good, Overflows, Residuals, Recon;
    var res := Residuals(h, c, y);
    if Fits(h, c, y) {
      ReconUpTo(h, c, y, |y|);
      assert res[..|y|] == res && y[..|y|] == y;
    } else {
      var k :| 0 <= k < |y| && Overflows(h, c, y[..k]);
      var j := FirstOverflow(h, c, y, k);
      ReconFlips(h, c, y, j);
      ReconPrefix(h, c, res, j + 1);
    }
  }

  /** The table of Reverse7LSBs, row by row. */
  function ReverseRow(r: nat): (row: seq<nat>)
    requires r < 8
    ensures |row| == 16
  {
    if r == 0 then [1, 65, 33, 97, 17, 81, 49, 113, 9, 73, 41, 105, 25, 89, 57, 121]
    else if r == 1 then [5, 69, 37, 101, 21, 85, 53, 117, 13, 77, 45, 109, 29, 93, 61, 125]
    else if r == 2 then [3, 67, 35, 99, 19, 83, 51, 115, 11, 75, 43, 107, 27, 91, 59, 123]
    else if r == 3 then [7, 71, 39, 103, 23, 87, 55, 119, 15, 79, 47, 111, 31, 95, 63, 127]
    else if r == 4 then [2, 66, 34, 98, 18, 82, 50, 114, 10, 74, 42, 106, 26, 90, 58, 122]
    else if r == 5 then [6, 70, 38, 102, 22, 86, 54, 118, 14, 78, 46, 110, 30, 94, 62, 126]
    else if r == 6 then [4, 68, 36, 100, 20, 84, 52, 116, 12, 76, 44, 108, 28, 92, 60, 124]
    else [8, 72, 40, 104, 24, 88, 56, 120, 16, 80, 48, 112, 32, 96, 64, 128]
  }

  /** The entry for the low seven bits of a coefficient. */
  function Reverse7LSBs(coef: int): nat
    requires -512 <= coef
  {
    var i := (coef + 512) % 128;
    ReverseRow(i / 16)[i % 16]
  }

  /** Every probability is chosen from the residuals decoded before it; the first bit of the code has
      a probability of its own. */
  ghost function ModelOf(h: Header, c: Config): (m: Model)
    requires Good(h, c)
    ensures Legal(m)
  {
    (r: seq<Bit>) =>
      if r == [] then FirstProb(h, c)
      else if |r| <= NumBits(c) then Probability(h, c, Recon(h, c, r[1..]))
      else 1
  }

  /** An encoder chooses every probability from the bits y that it codes. */
  ghost function EncoderModel(h: Header, c: Config, y: seq<Bit>): (m: Model)
    requires Good(h, c)
    ensures Legal(m)
  {
    (r: seq<Bit>) =>
      if r == [] then FirstProb(h, c)
      else if |r| <= |y| then ProbabilityFor(h, c, y[..|r| - 1], ExactSum(h, c, y[..|r| - 1]))
      else 1
  }

  /** Both headers choose the same probability for every bit of y. */
  ghost predicate Chosen(h: Header, g: Header, c: Config, y: seq<Bit>)
    requires Good(h, c) && Good(g, c)
  {
    forall k {:trigger y[..k]} :: 0 <= k < |y| ==> Probability(h, c, y[..k]) == Probability(g, c, y[..k])
  }

  lemma SamePrediction(h: Header, g: Header, c: Config, y: seq<Bit>)
    requires Good(h, c) && Good(g, c) && SameFilters(h, g)
    ensures Prediction(h, c, y) == Prediction(g, c, y) && FirstProb(h, c) == FirstProb(g, c)
  {
    hide Int16, Past, Channel, DirectSum, TableAt;
  }

  lemma {:induction false} SameRecon(h: Header, g: Header, c: Config, res: seq<Bit>)
    requires Good(h, c) && Good(g, c) && SameFilters(h, g)
    ensures Recon(h, c, res) == Recon(g, c, res)
  {
    hide Good, Prediction, SameFilters;
    if res != [] {
      SameRecon(h, g, c, res[..|res| - 1]);
      SamePrediction(h, g, c, Recon(h, c, res[..|res| - 1]));
    }
  }

  /** Up to the first sum that does not fit, and there too, an encoder with one header and a decoder with the
      other choose the same probabilities. */
  lemma ModelsAgree(h: Header, g: Header, c: Config, y: seq<Bit>, first: Bit, j: nat)
    requires Good(h, c) && Good(g, c) && SameFilters(h, g) && Chosen(h, g, c, y) && |y| == NumBits(c) && j < |y|
    requires forall i {:trigger y[..i]} :: 0 <= i < j ==> !Overflows(h, c, y[..i])
    ensures Agree(EncoderModel(h, c, y), ModelOf(g, c), ([first] + Residuals(h, c, y))[..j + 2])
  {
    hide Good, ExactSum, Prediction, Overflows, Residuals, ProbabilityFor, Probability, Recon, SameFilters, FirstProb;
    var r := ([first] + Residuals(h, c, y))[..j + 2];
    forall k | 0 <= k < |r| ensures EncoderModel(h, c, y)(r[..k]) == ModelOf(g, c)(r[..k]) {
      if k == 0 {
        assert r[..k] == [];
        SamePrediction(h, g, c, []);
      } else {
        assert r[..k][1..] == Residuals(h, c, y)[..k - 1];
        ReconUpTo(h, c, y, k - 1);
        SameRecon(h, g, c, Residuals(h, c, y)[..k - 1]);
        SameProbability(h, c, y[..k - 1]);
      }
    }
  }

  /** The first bit of the code is decoded, and thrown away, with the reversed first coefficient. */
  function FirstProb(h: Header, c: Config): (p: nat)
    requires Good(h, c)
    ensures 1 <= p <= 128
  {
    FirstProbability(h, c);
    Reverse7LSBs(h.filters[0][0])
  }

  lemma FirstProbability(h: Header, c: Config)
    requires Good(h, c)
    ensures 1 <= |h.filters[0]| && -256 <= h.filters[0][0] <= 255
    ensures 1 <= Reverse7LSBs(h.filters[0][0]) <= 128
  {
    assert 1 <= |h.filters[0]| <= 128 && InRange(FILTER, h.filters[0]);
    var i := (h.filters[0][0] + 512) % 128;
    ReverseIsReversed(h.filters[0][0]);
    ValueBound(LowBits(i, 7));
    Pow2Values();
  }

  /** Row r is the first row with the reversed row number added. */
  lemma RowCase(b4: Bit, b5: Bit, b6: Bit, k: nat)
    requires k < 16
    ensures ReverseRow(b4 + 2 * b5 + 4 * b6)[k] == ReverseRow(0)[k] + 4 * b4 + 2 * b5 + b6
  {
    assert k == 0 || k == 1 || k == 2 || k == 3 || k == 4 || k == 5 || k == 6 || k == 7
           || k == 8 || k == 9 || k == 10 || k == 11 || k == 12 || k == 13 || k == 14 || k == 15;
  }

  lemma FirstRow(b0: Bit, b1: Bit, b2: Bit, b3: Bit)
    ensures ReverseRow(0)[b0 + 2 * b1 + 4 * b2 + 8 * b3] == 64 * b0 + 32 * b1 + 16 * b2 + 8 * b3 + 1
  {
  }

  lemma ValueCons(v: nat, n: nat)
    requires n > 0
    ensures Value(LowBits(v, n)) == (v % 2) * Pow2(n - 1) + Value(LowBits(v / 2, n - 1))
  {
    ValueConcat([v % 2], LowBits(v / 2, n - 1));
    assert [v % 2][..0] == [];
    assert Value([v % 2]) == v % 2;
  }

  /** One more low bit in front of n bits whose value is v. */
  lemma Prepend(b: Bit, rest: nat, i: nat, n: nat, m: nat, p: nat, v: nat)
    requires i == b + 2 * rest && m == n + 1 && p == Pow2(n) && v == Value(LowBits(rest, n))
    ensures Value(LowBits(i, m)) == b * p + v
  {
    assert i % 2 == b && i / 2 == rest;
    ValueCons(i, m);
  }

  lemma SevenBits(b0: Bit, i1: nat, b1: Bit, i2: nat, b2: Bit, i3: nat, b3: Bit, i4: nat, b4: Bit, i5: nat, b5: Bit, b6: Bit)
    requires i1 == b1 + 2 * i2 && i2 == b2 + 2 * i3 && i3 == b3 + 2 * i4 && i4 == b4 + 2 * i5 && i5 == b5 + 2 * b6
    ensures Value(LowBits(b0 + 2 * i1, 7)) == 64 * b0 + 32 * b1 + 16 * b2 + 8 * b3 + 4 * b4 + 2 * b5 + b6
  {
    hide Value, LowBits;
    SmallPowers();
    NoBits(0);
    Prepend(b6, 0, b6, 0, 1, 1, 0);
    Prepend(b5, b6, i5, 1, 2, 2, b6);
    Prepend(b4, i5, i4, 2, 3, 4, 2 * b5 + b6);
    Prepend(b3, i4, i3, 3, 4, 8, 4 * b4 + 2 * b5 + b6);
    Prepend(b2, i3, i2, 4, 5, 16, 8 * b3 + 4 * b4 + 2 * b5 + b6);
    Prepend(b1, i2, i1, 5, 6, 32, 16 * b2 + 8 * b3 + 4 * b4 + 2 * b5 + b6);
    Prepend(b0, i1, b0 + 2 * i1, 6, 7, 64, 32 * b1 + 16 * b2 + 8 * b3 + 4 * b4 + 2 * b5 + b6);
  }

  lemma SmallPowers()
    ensures Pow2(0) == 1 && Pow2(1) == 2 && Pow2(2) == 4 && Pow2(3) == 8 && Pow2(4) == 16 && Pow2(5) == 32 && Pow2(6) == 64
  {
  }

  lemma NoBits(v: nat)
    ensures Value(LowBits(v, 0)) == 0
  {
  }

  /** The table reverses the low seven bits and adds one. */
  lemma ReverseIsReversed(coef: int)
    requires -512 <= coef
    ensures Reverse7LSBs(coef) == Value(LowBits((coef + 512) % 128, 7)) + 1
  {
    hide ReverseRow, Value, LowBits;
    var i := (coef + 512) % 128;
    var i1 := i / 2;
    var i2 := i1 / 2;
    var i3 := i2 / 2;
    var i4 := i3 / 2;
    var i5 := i4 / 2;
    var b0: Bit, b1: Bit, b2: Bit, b3: Bit, b4: Bit, b5: Bit, b6: Bit := i % 2, i1 % 2, i2 % 2, i3 % 2, i4 % 2, i5 % 2, i5 / 2;
    SevenBits(b0, i1, b1, i2, b2, i3, b3, i4, b4, i5, b5, b6);
    DivUnique(i, 16, b4 + 2 * b5 + 4 * b6, b0 + 2 * b1 + 4 * b2 + 8 * b3);
    RowCase(b4, b5, b6, i % 16);
    FirstRow(b0, b1, b2, b3);
  }
}
