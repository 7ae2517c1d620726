/** Frames that do not come back: two that an encoder codes within the decoder's memory, of which one meets
    the predictor's overflow and one the lost number of a ninth segment, and one whose code is too long. */
module LostFrames {
  import opened Bits
  import opened BitReader
  import opened Segmentation
  import opened TableMapping
  import opened FrameTables
  import opened FrameLayout
  import opened Coefs
  import opened Predictor
  import opened ArithDecoder
  import opened FrameCodec
  import opened FrameDecoding

  /* How long codes get. */

  /** No symbol adds more than eight bits to the code. */
  lemma {:induction false} AtMostEight(prob: Model, bits: seq<Bit>, m: nat)
    requires Legal(prob) && m <= |bits|
    ensures Exact(prob, bits).n <= Exact(prob, bits[..m]).n + 8 * (|bits| - m)
  {
    hide Part, Widen;
    if m == |bits| {
      assert bits[..m] == bits;
    } else {
      var before, last := bits[..|bits| - 1], bits[|bits| - 1];
      AtMostEight(prob, before, m);
      assert before[..m] == bits[..m];
      SymbolCost(Exact(prob, before), prob(before), last);
    }
  }

  lemma SymbolCost(iv: Interval, p: nat, b: Bit)
    requires HALF <= iv.a < ONE && 1 <= p <= 128
    ensures 0 < Part(iv, p, b).a && Widen(Part(iv, p, b)).n <= iv.n + 8
    ensures p == 128 ==> Widen(Part(iv, p, b)).n <= iv.n + 1
  {
    PartWorks(iv, p, b);
    ShareBounds(iv.a, p);
    assert Pow2(8) == 256 && Pow2(1) == 2;
    WidenShifts(Part(iv, p, b), 8);
    if p == 128 { WidenShifts(Part(iv, p, b), 1); }
  }

  /** At even odds no symbol adds more than one. */
  lemma {:induction false} AtMostOne(prob: Model, bits: seq<Bit>, m: nat)
    requires Legal(prob) && m <= |bits| && forall i {:trigger bits[..i]} :: m <= i < |bits| ==> prob(bits[..i]) == 128
    ensures Exact(prob, bits).n <= Exact(prob, bits[..m]).n + (|bits| - m)
  {
    hide Part, Widen, Legal;
    if m == |bits| {
      assert bits[..m] == bits;
    } else {
      var before, last := bits[..|bits| - 1], bits[|bits| - 1];
      forall i | m <= i < |before| ensures prob(before[..i]) == 128 { assert before[..i] == bits[..i]; }
      AtMostOne(prob, before, m);
      assert before[..m] == bits[..m];
      SymbolCost(Exact(prob, before), prob(before), last);
    }
  }

  /** Ones after the first symbol, coded as all but certain: one bit for more than a hundred of them. */
  lemma {:induction false} CheapRun(prob: Model, bits: seq<Bit>)
    requires Legal(prob) && bits != []
    requires forall i {:trigger bits[..i]} :: 0 < i < |bits| ==> bits[i] == 1 && prob(bits[..i]) == 1
    ensures 2000 * Exact(prob, bits).n <= Exact(prob, bits).a + 15 * (|bits| - 1) + 14000
  {
    hide Part, Widen, Legal;
    var before, last := bits[..|bits| - 1], bits[|bits| - 1];
    if |bits| == 1 {
      AtMostEight(prob, bits, 0);
      assert bits[..0] == [];
      assert Exact(prob, []).n == 0;
    } else {
      forall i | 0 < i < |before| ensures before[i] == 1 && prob(before[..i]) == 1 { assert before[..i] == bits[..i]; }
      CheapRun(prob, before);
      assert prob(bits[..|before|]) == 1 && bits[|before|] == 1;
      CheapStep(Exact(prob, before));
    }
  }

  lemma CheapStep(iv: Interval)
    requires HALF <= iv.a < ONE
    ensures var w := Widen(Part(iv, 1, 1)); 2000 * w.n - w.a <= 2000 * iv.n - iv.a + 15
  {
    assert Share(iv.a, 1) <= 15;
    var part := Part(iv, 1, 1);
    assert part.n == iv.n && iv.a - 15 <= part.a;
    if part.a < HALF {
      assert Widen(part) == Widen(Interval(2 * part.low, 2 * part.a, part.n + 1));
    }
  }

  lemma CodeLength(h: Header, c: Config, y: seq<Bit>, first: Bit)
    requires Good(h, c)
    ensures |EncodeBits(h, c, y, first)| == 13 + Exact(EncoderModel(h, c, y), Symbols(h, c, y, first)).n
  {
    hide Good, EncoderModel, Symbols, Exact;
  }

  /* Zeros in two channels. */

  function Stereo(): Config { Config(2, MAX_FRAME_LEN) }

  const FRAME_BITS := 75264            // 2 * 8 * MAX_FRAME_LEN

  lemma {:induction false} ZerosOfChannel(y: seq<Bit>, ch: nat)
    requires ch < 2 && forall i :: 0 <= i < |y| ==> y[i] == 0
    ensures |Channel(y, ch, 2)| == (|y| + 1 - ch) / 2
    ensures forall i :: 0 <= i < |Channel(y, ch, 2)| ==> Channel(y, ch, 2)[i] == 0
  {
    if y != [] { ZerosOfChannel(y[..|y| - 1], ch); }
  }

  /** One tap of 8 predicts that the last bit repeats. */
  lemma OneTap(past: seq<Bit>)
    requires |past| == TAPS
    ensures DirectSum(past, [8], 1) == if past[0] == 1 then 8 else -8
  {
    assert DirectSum(past, [8], 0) == 0;
  }

  lemma ZeroBefore(y: seq<Bit>, ch: nat)
    requires ch < 2 && forall i :: 0 <= i < |y| ==> y[i] == 0
    ensures Past(Channel(y, ch, 2))[0] == 0
  {
    ZerosOfChannel(y, ch);
  }

  /* The overflow. */

  /** Two channels, a filter of one coefficient up to the last 1024 bits, 128 coefficients -256 there; one
      table of all but certain residuals. */
  function SteepHeader(): Header {
    Header(Layout(0, Segments(1, 1, Copies([4576], 2)), Segments(1, 1, Copies([], 2)),
                  0, Mapping(1, Copies([0, 1], 2), 2), Mapping(1, Copies([0], 2), 1), [0, 0]),
           [[8], Copies(-256, 128)], [[1, 1]])
  }

  lemma ZeroOneOrdered()
    ensures Ordered([0, 1]) && CountOf([0, 1]) == 2
  {
    var s: seq<nat> := [0, 1];
    assert s[..1] == [0] && [0][..0] == [];
    FirstUseMeansOrdered(s);
  }

  lemma TwoSegmentsWritable(l: Limits)
    requires l == FilterLimits(Stereo())
    ensures Writable(Segments(1, 1, Copies([4576], 2)), l, 2)
  {
    var lens := [4576];
    assert lens[..0] == [];
    assert Used(1, lens) == 4576;
  }

  lemma SteepWritable()
    ensures WritableHeader(SteepHeader(), Stereo(), [Plain, Plain], [Plain])
    ensures NinthKept(SteepHeader().layout.pmap)
  {
    hide Writable, WritableMap, Ordered, CountOf;
    var c, y := Stereo(), SteepHeader().layout;
    NumbersOrdered();
    ZeroOneOrdered();
    TwoSegmentsWritable(FilterLimits(c));
    OneSegmentWritable(PtableLimits(c));
    SharedMapWritable([0, 1], 2, MaxTables(c), y.fseg);
    SharedMapWritable([0], 1, MaxTables(c), y.pseg);
  }

  lemma SteepFilter(ch: nat, b: nat)
    requires ch < 2 && Good(SteepHeader(), Stereo())
    ensures FilterOf(SteepHeader(), Stereo(), ch, b) == if b < 36608 then [8] else Copies(-256, 128)
  {
    var s := SteepHeader().layout.fseg;
    var lens := s.lens[ch];
    assert lens == [4576] && lens[..1] == lens && lens[..0] == [];
    assert StartOf(s, ch, 1) == 8 * Used(1, [4576]) == 36608;
    assert SteepHeader().layout.fmap.tables[ch] == [0, 1];
  }

  lemma SteepProbability(y: seq<Bit>, predict: int)
    requires Good(SteepHeader(), Stereo())
    ensures ProbabilityFor(SteepHeader(), Stereo(), y, predict) == 1
  {
    var ch, b := |y| % 2, |y| / 2;
    assert SteepHeader().layout.pmap.tables[ch] == [0] && SteepHeader().layout.pseg.lens[ch] == [];
    assert PtableOf(SteepHeader(), Stereo(), ch, b) == [1, 1];
  }

  /** Up to the last segments every residual is the all but certain one. */
  lemma SteepSymbols(y: seq<Bit>, first: Bit, i: nat)
    requires Good(SteepHeader(), Stereo()) && y == Copies<Bit>(0, FRAME_BITS) && 0 < i <= 73216
    ensures var r := Symbols(SteepHeader(), Stereo(), y, first);
            r[i] == 1 && EncoderModel(SteepHeader(), Stereo(), y)(r[..i]) == 1
  {
    hide SteepHeader, Good, Channel, Past, DirectSum, FilterOf, ProbabilityFor, Residuals;
    var before := y[..i - 1];
    SteepProbability(before, ExactSum(SteepHeader(), Stereo(), before));
    SteepFilter((i - 1) % 2, (i - 1) / 2);
    ZeroBefore(before, (i - 1) % 2);
    OneTap(Past(Channel(before, (i - 1) % 2, 2)));
    ResidualAt(SteepHeader(), Stereo(), y, i - 1);
  }

  lemma SteepCode(y: seq<Bit>, first: Bit)
    requires Good(SteepHeader(), Stereo()) && y == Copies<Bit>(0, FRAME_BITS)
    ensures |EncodeBits(SteepHeader(), Stereo(), y, first)| <= 17000
  {
    hide SteepHeader, Good, Exact, Symbols, EncoderModel, EncodeBits;
    var h, c := SteepHeader(), Stereo();
    var r, prob := Symbols(h, c, y, first), EncoderModel(h, c, y);
    var run := r[..73217];
    forall i | 0 < i < |run| ensures run[i] == 1 && prob(run[..i]) == 1 {
      SteepSymbols(y, first, i);
      assert run[..i] == r[..i];
    }
    CheapRun(prob, run);
    AtMostEight(prob, r, 73217);
    CodeLength(h, c, y, first);
  }

  /** After 128 zeros in a channel the steep filter's sum is 32768. */
  lemma SteepOverflows(y: seq<Bit>)
    requires y == Copies<Bit>(0, 73216) && Good(SteepHeader(), Stereo())
    ensures Overflows(SteepHeader(), Stereo(), y)
  {
    hide SteepHeader, Good, Channel, FilterOf;
    ZerosOfChannel(y, 0);
    SteepFilter(0, 36608);
  }

  /** The frame of zeros fits the decoder's memory when it is encoded with the steep filter, and is not
      decoded to itself. */
  lemma ZeroFrameLost(first: Bit)
    ensures var c, h := Stereo(), SteepHeader();
            var frame := Copies<Byte>(0, FrameSize(c));
            && WritableHeader(h, c, [Plain, Plain], [Plain]) && Good(h, c)
            && CodeFits(h, c, [Plain, Plain], [Plain], frame, first) && !FrameFits(h, c, frame)
            && var r := DecodeFrame(c, EncodeFrame(h, c, [Plain, Plain], [Plain], frame, first)); r.Fail? || (r.Done? && r.value != frame)
  {
    hide Good, WritableHeader, DecodeFrame, EncodeFrame, EncodeBits, DecodeCoded, CodeFits, FrameBits, Overflows, NinthKept, TablesKept,
      SteepHeader, ProbabilitiesKept;
    var c, h := Stereo(), SteepHeader();
    var frame := Copies<Byte>(0, FrameSize(c));
    SteepWritable();
    WritableIsGood(h, c, [Plain, Plain], [Plain]);
    FrameSizeDivides(c);
    ZeroFrameBits(FrameSize(c), 2);
    var y := FrameBits(frame, 2);
    assert y[..73216] == Copies<Bit>(0, 73216);
    SteepOverflows(y[..73216]);
    SteepCode(y, first);
    var tail := EncodedIsDecoded(h, c, [Plain, Plain], [Plain], frame, first);
    TablesKeptSuffice(h, c, [Plain, Plain], [Plain], frame);
    Lossless(h, c, [Plain, Plain], [Plain], frame, first);
  }

  lemma ZeroFrameBits(n: nat, channels: nat)
    requires channels > 0 && n % channels == 0
    ensures FrameBits(Copies<Byte>(0, n), channels) == Copies<Bit>(0, 8 * n)
  {
    hide FrameBit;
    forall k | 0 <= k < 8 * n ensures FrameBits(Copies<Byte>(0, n), channels)[k] == 0 { ZeroFrameBit(Copies<Byte>(0, n), channels, k); }
  }

  lemma ZeroFrameBit(frame: seq<Byte>, channels: nat, k: nat)
    requires channels > 0 && |frame| % channels == 0 && k < 8 * |frame|
    requires forall j :: 0 <= j < |frame| ==> frame[j] == 0
    ensures FrameBit(frame, channels, k) == 0
  {
    hide BitsOf, ByteOf;
    InFrame(|frame|, channels, k);
    ZeroBits(8, k / channels % 8);
  }

  /* The ninth segment. */

  /** Nine shared segments: the first eight, of 32 bits each, have the table of all but certain residuals, the
      ninth has even odds. */
  function NinthHeader(): Header { Header(NineSegments(), [[8]], [[1, 1], [128]]) }

  lemma NinthWritable()
    ensures WritableHeader(NinthHeader(), Stereo(), [Plain], [Plain, Plain])
    ensures |NinthHeader().layout.pmap.tables| == 2 && Seen(NinthHeader().layout.pmap) == Copies(Copies<nat>(0, 9), 2)
  {
    hide WritableLayout;
    NineSegmentsWritable();
    var m := NinthHeader().layout.pmap;
    forall c | 0 <= c < 2 ensures Seen(m)[c] == Copies<nat>(0, 9) { assert m.tables[c] == NineNumbers(); }
    assert NinthHeader().layout.fmap.tables == Copies([0], 2);
  }

  lemma NinthFilter(h: Header, ch: nat, b: nat)
    requires ch < 2 && Good(h, Stereo()) && SameFilters(NinthHeader(), h)
    ensures FilterOf(h, Stereo(), ch, b) == [8]
  {
    assert h.layout.fmap.tables[ch] == [0] && h.layout.fseg.lens[ch] == [];
  }

  /** What the encoder's table and the one in the decoder's arrays say. */
  lemma NinthProbability(y: seq<Bit>, predict: int)
    requires Good(NinthHeader(), Stereo()) && Good(AsStored(NinthHeader()), Stereo())
    ensures ProbabilityFor(NinthHeader(), Stereo(), y, predict) == if |y| < 512 then 1 else 128
    ensures ProbabilityFor(AsStored(NinthHeader()), Stereo(), y, predict) == 1
  {
    hide SegmentAt;
    NinthWritable();
    var h, g, c := NinthHeader(), AsStored(NinthHeader()), Stereo();
    var ch, b := |y| % 2, |y| / 2;
    var s := h.layout.pseg;
    NinthAt(ch, b);
    assert h.layout.pmap.tables[ch] == NineNumbers() && g.layout.pmap.tables[ch] == Copies<nat>(0, 9);
    assert PtableOf(h, c, ch, b) == if b < 256 then [1, 1] else [128];
    assert PtableOf(g, c, ch, b) == [1, 1];
  }

  lemma NinthAt(ch: nat, b: nat)
    requires ch < 2
    ensures var s := NineSegments().pseg;
            |s.lens[ch]| == 8 && (SegmentAt(s, ch, b, 8) == 8 <==> b >= 256)
  {
    hide Used;
    NinthStart(ch);
    assert SegmentAt(NineSegments().pseg, ch, b, 7) <= 7;
  }

  /** Zeros but for bit 256 of the first channel, the first of its ninth segment. */
  function OneBitSet(): (y: seq<Bit>)
    ensures |y| == FRAME_BITS
  {
    Copies<Bit>(0, FRAME_BITS)[512 := 1]
  }

  lemma NoOverflow(h: Header, y: seq<Bit>)
    requires Good(h, Stereo()) && SameFilters(NinthHeader(), h)
    ensures !Overflows(h, Stereo(), y)
  {
    hide NinthHeader, Good, SameFilters, Channel, Past;
    NinthFilter(h, |y| % 2, |y| / 2);
  }

  /** While the channel was zero, a zero is predicted. */
  lemma NinthSum(y: seq<Bit>)
    requires Good(NinthHeader(), Stereo()) && Past(Channel(y, |y| % 2, 2))[0] == 0
    ensures ExactSum(NinthHeader(), Stereo(), y) == -8
  {
    hide NinthHeader, Good, Channel, Past, DirectSum, FilterOf;
    NinthFilter(NinthHeader(), |y| % 2, |y| / 2);
    OneTap(Past(Channel(y, |y| % 2, 2)));
  }

  /** The residuals up to the first bits of the ninth segments. */
  lemma NinthResidual(i: nat)
    requires Good(NinthHeader(), Stereo()) && i <= 513
    ensures Residuals(NinthHeader(), Stereo(), OneBitSet())[i] == if i == 512 then 0 else 1
  {
    hide NinthHeader, Good, Channel, Past, ExactSum, Residuals;
    var y := OneBitSet();
    if i < 513 {
      ZeroBefore(y[..i], i % 2);
    } else {
      var before := y[..512];
      assert y[..513] == before + [1];
      ChannelGrows(before, 1, 1, 2);
      ZeroBefore(before, 1);
    }
    NinthSum(y[..i]);
    ResidualAt(NinthHeader(), Stereo(), y, i);
  }

  lemma NinthModel(first: Bit, i: nat)
    requires Good(NinthHeader(), Stereo()) && Good(AsStored(NinthHeader()), Stereo()) && 0 < i <= FRAME_BITS
    ensures var r := Symbols(NinthHeader(), Stereo(), OneBitSet(), first);
            EncoderModel(NinthHeader(), Stereo(), OneBitSet())(r[..i]) == if i <= 512 then 1 else 128
  {
    hide NinthHeader, Good, ExactSum, Residuals, ProbabilityFor, AsStored;
    var before := OneBitSet()[..i - 1];
    NinthProbability(before, ExactSum(NinthHeader(), Stereo(), before));
  }

  lemma NinthCode(first: Bit)
    requires Good(NinthHeader(), Stereo()) && Good(AsStored(NinthHeader()), Stereo())
    ensures |EncodeBits(NinthHeader(), Stereo(), OneBitSet(), first)| <= 75000
  {
    hide NinthHeader, AsStored, Good, Exact, EncoderModel, EncodeBits, Residuals, OneBitSet;
    var h, c := NinthHeader(), Stereo();
    var r, prob := Symbols(h, c, OneBitSet(), first), EncoderModel(h, c, OneBitSet());
    var run := r[..513];
    forall i | 0 < i < |run| ensures run[i] == 1 && prob(run[..i]) == 1 {
      NinthModel(first, i);
      NinthResidual(i - 1);
      assert run[..i] == r[..i];
    }
    CheapRun(prob, run);
    forall i | 513 <= i < |r| ensures prob(r[..i]) == 128 { NinthModel(first, i); }
    AtMostOne(prob, r, 513);
    CodeLength(h, c, OneBitSet(), first);
  }

  /** A code in the lower half of the upper half of an interval is not in its topmost 1/256. */
  lemma NotAtTheTop(iv: Interval, code: seq<Bit>)
    requires HALF <= iv.a < ONE
    requires HALF <= Widen(Part(iv, 128, 0)).a < ONE && Holds(Part(Widen(Part(iv, 128, 0)), 128, 1), code)
    ensures !Holds(Part(iv, 1, 0), code)
  {
    var s := Share(iv.a, 128);
    ShareBounds(iv.a, 128);
    assert HALF / 2 <= s < HALF;
    var half := Part(iv, 128, 0);
    assert Widen(half) == Interval(2 * half.low, 2 * s, iv.n + 1);
    ShareBounds(2 * s, 128);
    assert Share(2 * s, 128) >= 1024;
    assert CodeInt(code, 12 + iv.n + 1) == 2 * CodeInt(code, 12 + iv.n) + CodeBit(code, 12 + iv.n + 1);
    ShareBounds(iv.a, 1);
    assert Share(iv.a, 1) <= 15;
  }

  /** A decoder that takes a coded 0, followed by a 1, both at even odds, for a nearly impossible symbol
      does not get it. */
  lemma SymbolLost(prob: Model, prob': Model, r: seq<Bit>, k: nat, code: seq<Bit>)
    requires Legal(prob) && Legal(prob') && k + 2 <= |r| && Holds(Exact(prob, r), code)
    requires Agree(prob, prob', r[..k]) && r[k] == 0 && r[k + 1] == 1
    requires prob(r[..k]) == 128 && prob(r[..k + 1]) == 128 && prob'(r[..k]) == 1
    ensures DecodeAll(code, prob', k + 1).0[..k] == r[..k] && DecodeAll(code, prob', k + 1).0[k] == 1
  {
    hide Legal, Part, Widen, Holds, Exact, DecodeAll, Agree;
    SameInterval(prob, prob', r[..k]);
    PrefixesHold(code, prob, r, k);
    DecodesTheInterval(code, prob', k);
    DecodedPrefix(code, prob', k + 1, k);
    var d := DecodeAll(code, prob', k + 1).0;
    if d[k] == 0 {
      TwoSteps(prob, r, k, code);
      assert d == r[..k] + [0];
      HeldCodesAreBelow(code, prob, r);
      DecodesTheInterval(code, prob', k + 1);
      PrefixHolds(code, prob', d);
      assert d[..|d| - 1] == r[..k];
      NotAtTheTop(Exact(prob, r[..k]), code);
      assert false;
    }
  }

  lemma TwoSteps(prob: Model, r: seq<Bit>, k: nat, code: seq<Bit>)
    requires Legal(prob) && k + 2 <= |r| && Holds(Exact(prob, r), code) && r[k] == 0 && r[k + 1] == 1
    requires prob(r[..k]) == 128 && prob(r[..k + 1]) == 128
    ensures var iv := Exact(prob, r[..k]);
            HALF <= Widen(Part(iv, 128, 0)).a < ONE && Holds(Part(Widen(Part(iv, 128, 0)), 128, 1), code)
  {
    hide Legal, Part, Widen, Holds;
    PrefixesHold(code, prob, r, k + 2);
    PrefixHolds(code, prob, r[..k + 2]);
    assert r[..k + 2][..k + 1] == r[..k + 1] && r[..k + 1][..k] == r[..k];
    PartWorks(Exact(prob, r[..k]), 128, 0);
  }

  /** Encoder and decoder agree up to the ninth segment. */
  lemma AgreeBefore(first: Bit)
    requires Good(NinthHeader(), Stereo()) && Good(AsStored(NinthHeader()), Stereo()) && SameFilters(NinthHeader(), AsStored(NinthHeader()))
    ensures var h, g, y := NinthHeader(), AsStored(NinthHeader()), OneBitSet();
            var r := Symbols(h, Stereo(), y, first);
            Agree(EncoderModel(h, Stereo(), y), ModelOf(g, Stereo()), r[..513]) && ModelOf(g, Stereo())(r[..513]) == 1
  {
    hide NinthHeader, AsStored, Good, SameFilters, ExactSum, Prediction, Overflows, Residuals, ProbabilityFor, Recon, FirstProb, OneBitSet;
    var h, g, c, y := NinthHeader(), AsStored(NinthHeader()), Stereo(), OneBitSet();
    var r := Symbols(h, c, y, first);
    SamePrediction(h, g, c, []);
    forall k | 0 <= k <= 513 ensures k < 513 ==> EncoderModel(h, c, y)(r[..513][..k]) == ModelOf(g, c)(r[..513][..k])
      ensures k > 0 ==> ModelOf(g, c)(r[..k]) == 1
    {
      assert k < 513 ==> r[..513][..k] == r[..k];
      if k == 0 {
        assert r[..k] == [];
      } else {
        NinthModel(first, k);
        var z := Recon(g, c, r[..k][1..]);
        NinthProbability(z, Prediction(g, c, z));
      }
    }
    assert r[..513][..513] == r[..513];
  }

  /** A frame encoded within the decoder's memory, every sum within its 16 bits, whose ninth segments are
      decoded with the wrong table, so that it is not rebuilt. */
  lemma NinthFrameLost(first: Bit)
    ensures var c, h := Stereo(), NinthHeader();
            var frame := FrameBytes(OneBitSet(), 2, FrameSize(c));
            && WritableHeader(h, c, [Plain], [Plain, Plain]) && Good(h, c)
            && CodeFits(h, c, [Plain], [Plain, Plain], frame, first) && FrameFits(h, c, frame)
            && var r := DecodeFrame(c, EncodeFrame(h, c, [Plain], [Plain, Plain], frame, first)); r.Fail? || (r.Done? && r.value != frame)
  {
    hide Good, WritableHeader, DecodeFrame, EncodeFrame, EncodeBits, DecodeCoded, CodeFits, FrameBits, FrameBytes, Overflows, NinthHeader,
      AsStored, SameFilters, OneBitSet, Seen;
    var c, h, y := Stereo(), NinthHeader(), OneBitSet();
    var g := AsStored(h);
    var frame := FrameBytes(y, 2, FrameSize(c));
    NinthWritable();
    WritableIsGood(h, c, [Plain], [Plain, Plain]);
    FrameSizeDivides(c);
    FrameBytesDetermine(y, frame, 2);
    NinthCode(first);
    var tail := EncodedIsDecoded(h, c, [Plain], [Plain, Plain], frame, first);
    SameFiltersItself(h);
    forall k | 0 <= k < |y| ensures !Overflows(h, c, y[..k]) { NoOverflow(h, y[..k]); }
    NinthBits(first, EncodeBits(h, c, y, first) + tail, tail);
    WrongBits(g, c, EncodeBits(h, c, y, first) + tail, frame);
  }

  lemma SameFiltersItself(h: Header)
    ensures SameFilters(h, h)
  {
  }

  lemma NinthBits(first: Bit, code: seq<Bit>, tail: seq<Bit>)
    requires Good(NinthHeader(), Stereo()) && Good(AsStored(NinthHeader()), Stereo()) && SameFilters(NinthHeader(), AsStored(NinthHeader()))
    requires code == EncodeBits(NinthHeader(), Stereo(), OneBitSet(), first) + tail
    ensures var g, c := AsStored(NinthHeader()), Stereo();
            Recon(g, c, DecodeAll(code, ModelOf(g, c), 1 + NumBits(c)).0[1..]) != OneBitSet()
  {
    hide NinthHeader, AsStored, Good, SameFilters, ExactSum, Prediction, Overflows, Residuals, Recon, Encode, DecodeAll, ModelOf, EncoderModel,
      OneBitSet, Agree, Holds, Exact, FrameBits;
    var h, g, c, y := NinthHeader(), AsStored(NinthHeader()), Stereo(), OneBitSet();
    var r := Symbols(h, c, y, first);
    EncodedHolds(EncoderModel(h, c, y), r, tail);
    AgreeBefore(first);
    NinthModel(first, 513);
    NinthModel(first, 514);
    NinthResidual(512);
    NinthResidual(513);
    SymbolLost(EncoderModel(h, c, y), ModelOf(g, c), r, 513, code);
    var d := DecodeAll(code, ModelOf(g, c), 1 + NumBits(c)).0;
    DecodedPrefix(code, ModelOf(g, c), 1 + NumBits(c), 514);
    NinthFlips(first, d);
  }

  /** Where the decoder gets a 1 for the residual 0, the bit is inverted. */
  lemma NinthFlips(first: Bit, d: seq<Bit>)
    requires Good(NinthHeader(), Stereo()) && Good(AsStored(NinthHeader()), Stereo()) && SameFilters(NinthHeader(), AsStored(NinthHeader()))
    requires |d| == 1 + FRAME_BITS && d[..513] == Symbols(NinthHeader(), Stereo(), OneBitSet(), first)[..513] && d[513] == 1
    ensures Recon(AsStored(NinthHeader()), Stereo(), d[1..]) != OneBitSet()
  {
    hide NinthHeader, AsStored, Good, SameFilters, ExactSum, Prediction, Overflows, Residuals, Channel, Past;
    var h, g, c, y := NinthHeader(), AsStored(NinthHeader()), Stereo(), OneBitSet();
    var res := Residuals(h, c, y);
    SamePrefix(d, first, res, 511);
    SameFiltersItself(h);
    forall i {:trigger y[..i]} | 0 <= i < 512 ensures !Overflows(h, c, y[..i]) { NoOverflow(h, y[..i]); }
    ReconUpTo(h, c, y, 512);
    SameRecon(h, g, c, d[1..]);
    ReconPrefix(h, c, d[1..], 513);
    var e := d[1..][..513];
    assert e[..512] == res[..512] && e[512] == 1;
    assert Recon(h, c, e) == y[..512] + [Xor(SignBit(Prediction(h, c, y[..512])), 1)];
    assert Recon(h, c, d[1..])[512] == Recon(h, c, e)[512];
    ZeroBefore(y[..512], 0);
    NinthSum(y[..512]);
    NoOverflow(h, y[..512]);
    ExactUnless(h, c, y[..512]);
    assert y[512] == 1;
  }

  /* A code that is too long. */

  /** One filter that expects every bit to repeat, and a table that makes the contrary unlikely. */
  function RepeatHeader(): Header {
    var one := Segments(1, 1, Copies([], 2));
    var zero := Mapping(1, Copies([0], 2), 1);
    Header(Layout(0, one, one, 0, zero, zero, [0, 0]), [[8]], [[32, 32]])
  }

  lemma RepeatWritable()
    ensures WritableHeader(RepeatHeader(), Stereo(), [Plain], [Plain])
  {
    hide Writable, WritableMap;
    var c, y := Stereo(), RepeatHeader().layout;
    NumbersOrdered();
    OneSegmentWritable(FilterLimits(c));
    OneSegmentWritable(PtableLimits(c));
    SharedMapWritable([0], 1, MaxTables(c), y.fseg);
  }

  /** In each channel no bit repeats. */
  function Alternating(): (y: seq<Bit>)
    ensures |y| == FRAME_BITS
  {
    seq(FRAME_BITS, k requires 0 <= k < FRAME_BITS => 1 - (k / 2) % 2)
  }

  lemma LastOfChannel(y: seq<Bit>, i: nat)
    requires 2 <= i <= |y|
    ensures Past(Channel(y[..i], i % 2, 2))[0] == y[i - 2]
  {
    hide Channel;
    var a := y[..i - 2];
    assert y[..i] == a + [y[i - 2]] + [y[i - 1]];
    ChannelGrows(a, y[i - 2], i % 2, 2);
    ChannelGrows(a + [y[i - 2]], y[i - 1], i % 2, 2);
  }

  lemma NothingBefore(y: seq<Bit>, i: nat)
    requires i < 2 && i <= |y|
    ensures Past(Channel(y[..i], i % 2, 2))[0] == 0
  {
  }

  lemma RepeatFilter(ch: nat, b: nat)
    requires ch < 2 && Good(RepeatHeader(), Stereo())
    ensures FilterOf(RepeatHeader(), Stereo(), ch, b) == [8]
  {
    assert RepeatHeader().layout.fmap.tables[ch] == [0] && RepeatHeader().layout.fseg.lens[ch] == [];
  }

  lemma RepeatSum(y: seq<Bit>)
    requires Good(RepeatHeader(), Stereo())
    ensures ExactSum(RepeatHeader(), Stereo(), y) == if Past(Channel(y, |y| % 2, 2))[0] == 1 then 8 else -8
  {
    hide RepeatHeader, Good, Channel, Past, DirectSum, FilterOf;
    RepeatFilter(|y| % 2, |y| / 2);
    OneTap(Past(Channel(y, |y| % 2, 2)));
  }

  lemma RepeatProbability(y: seq<Bit>, predict: int)
    requires Good(RepeatHeader(), Stereo())
    ensures ProbabilityFor(RepeatHeader(), Stereo(), y, predict) == 32
  {
    var ch, b := |y| % 2, |y| / 2;
    assert RepeatHeader().layout.pmap.tables[ch] == [0] && RepeatHeader().layout.pseg.lens[ch] == [];
    assert PtableOf(RepeatHeader(), Stereo(), ch, b) == [32, 32];
  }

  /** Every residual is the unlikely one. */
  lemma AlternatingSymbols(first: Bit, i: nat)
    requires Good(RepeatHeader(), Stereo()) && 0 < i <= FRAME_BITS
    ensures var r := Symbols(RepeatHeader(), Stereo(), Alternating(), first);
            r[i] == 0 && EncoderModel(RepeatHeader(), Stereo(), Alternating())(r[..i]) == 32
  {
    hide RepeatHeader, Good, Channel, Past, ExactSum, ProbabilityFor, Residuals;
    var y, k := Alternating(), i - 1;
    RepeatProbability(y[..k], ExactSum(RepeatHeader(), Stereo(), y[..k]));
    if k < 2 { NothingBefore(y, k); } else { LastOfChannel(y, k); }
    RepeatSum(y[..k]);
    ResidualAt(RepeatHeader(), Stereo(), y, k);
  }

  /** An unlikely symbol adds three bits. */
  lemma {:induction false} ThreeEach(prob: Model, bits: seq<Bit>)
    requires Legal(prob) && bits != []
    requires forall i {:trigger bits[..i]} :: 0 < i < |bits| ==> bits[i] == 0 && prob(bits[..i]) == 32
    ensures Exact(prob, bits).n >= 3 * (|bits| - 1)
  {
    hide Part, Widen, Legal;
    var before, last := bits[..|bits| - 1], bits[|bits| - 1];
    if |bits| > 1 {
      forall i | 0 < i < |before| ensures before[i] == 0 && prob(before[..i]) == 32 { assert before[..i] == bits[..i]; }
      ThreeEach(prob, before);
      assert prob(bits[..|before|]) == 32 && bits[|before|] == 0;
      UnlikelyStep(Exact(prob, before));
    }
  }

  lemma UnlikelyStep(iv: Interval)
    requires HALF <= iv.a < ONE
    ensures Widen(Part(iv, 32, 0)).n >= iv.n + 3
  {
    ShareBounds(iv.a, 32);
    var part := Part(iv, 32, 0);
    assert 256 <= part.a <= 480;
    assert Widen(part) == Widen(Interval(4 * part.low, 4 * part.a, part.n + 2));
    assert Widen(Interval(4 * part.low, 4 * part.a, part.n + 2)) == Widen(Interval(8 * part.low, 8 * part.a, part.n + 3));
  }

  /** Alternating bits under the filter that expects repetition: the code is written past the end of the
      decoder's memory. */
  lemma OverlongCode(first: Bit)
    ensures var c, h := Stereo(), RepeatHeader();
            var frame := FrameBytes(Alternating(), 2, FrameSize(c));
            && WritableHeader(h, c, [Plain], [Plain]) && Good(h, c) && !CodeFits(h, c, [Plain], [Plain], frame, first)
            && DecodeFrame(c, EncodeFrame(h, c, [Plain], [Plain], frame, first)).Undefined?
  {
    hide Good, WritableHeader, DecodeFrame, EncodeFrame, EncodeBits, DecodeCoded, CodeFits, FrameBits, FrameBytes, RepeatHeader, SameFilters,
      AsStored, Alternating, Exact, EncoderModel, Symbols;
    var c, h, y := Stereo(), RepeatHeader(), Alternating();
    var frame := FrameBytes(y, 2, FrameSize(c));
    RepeatWritable();
    WritableIsGood(h, c, [Plain], [Plain]);
    FrameSizeDivides(c);
    FrameBytesDetermine(y, frame, 2);
    var r, prob := Symbols(h, c, y, first), EncoderModel(h, c, y);
    forall i | 0 < i < |r| ensures r[i] == 0 && prob(r[..i]) == 32 { AlternatingSymbols(first, i); }
    ThreeEach(prob, r);
    CodeLength(h, c, y, first);
    var tail := EncodedIsDecoded(h, c, [Plain], [Plain], frame, first);
  }
}
