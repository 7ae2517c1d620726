/** The frame decoder on its reused working memory (UnpackDSTframe in unpack_dst.c, DST_FramDSTDecode in
    dst_fram.c). */
module DstFrame {
  import opened Bits
  import opened BitReader
  import opened Segmentation
  import opened TableMapping
  import opened FrameTables
  import opened FrameLayout
  import opened Coefs
  import opened ArithData
  import opened Predictor
  import opened ArithDecoder
  import opened FrameCodec
  import opened FrameDecoding

  /* The loop's steps on values. */

  lemma NextDecoded(code: seq<Bit>, prob: Model, m: nat, r: seq<Bit>, regs: Registers, b: Bit, regs': Registers)
    requires Legal(prob) && DecodeAll(code, prob, m) == (r, regs) && Working(regs)
    requires DecodeBit(code, regs, prob(r)) == (b, regs')
    ensures DecodeAll(code, prob, m + 1) == (r + [b], regs')
  {
  }

  lemma PastGrows(s: seq<Bit>, b: Bit)
    ensures Past(s + [b]) == [b] + Past(s)[..TAPS - 1]
  {
  }

  lemma PastStart()
    ensures Past([]) == History(FreshWords)
  {
    forall n | 0 <= n < TAPS ensures Past([])[n] == History(FreshWords)[n] {
      FreshHistory(n);
    }
  }

  function Padded(f: seq<int>): (p: seq<int>)
    requires |f| <= TAPS
    ensures |p| == TAPS
  {
    f + seq(TAPS - |f|, _ => 0)
  }

  lemma {:induction false} PaddedSum(past: seq<Bit>, f: seq<int>, n: nat)
    requires n <= |f| <= TAPS && n <= |past|
    ensures DirectSum(past, Padded(f), n) == DirectSum(past, f, n)
  {
    if n > 0 { PaddedSum(past, f, n - 1); }
  }

  /** Setting bit t of a byte that is clear adds its weight. */
  lemma {:induction false} SetBit(s: seq<Bit>, t: nat, b: Bit)
    requires t < |s| && s[t] == 0
    ensures Value(s[t := b]) == Value(s) + b * Pow2(|s| - 1 - t)
  {
    var front := s[..|s| - 1];
    if t == |s| - 1 {
      assert s[t := b][..|s| - 1] == front;
    } else {
      SetBit(front, t, b);
      assert s[t := b][..|s| - 1] == front[t := b];
      Twice(b, Pow2(|s| - 2 - t));
    }
  }

  /** One more decoded bit changes one byte of the frame, in one place. */
  lemma FrameGrows(y: seq<Bit>, b: Bit, channels: nat, j: nat)
    requires channels > 0
    ensures var k := |y|;
            var t := k / channels % 8;
            BitsInByte(y + [b], channels, j)
            == if j == k / channels / 8 * channels + k % channels then BitsInByte(y, channels, j)[t := b]
               else BitsInByte(y, channels, j)
    ensures j == |y| / channels / 8 * channels + |y| % channels ==> BitsInByte(y, channels, j)[|y| / channels % 8] == 0
  {
    hide BitPlace;
    var k := |y|;
    forall t | 0 <= t < 8
      ensures BitPlace(channels, j, t) == k <==> j == k / channels / 8 * channels + k % channels && t == k / channels % 8
    {
      PlaceParts(channels, j, t);
      PlaceOf(channels, k);
    }
  }

  /** The decoder's working memory; it is allocated once and reused for every frame. */
  class Ebunch {
    const c: Config
    const S: StrData
    const FSeg: Segment
    const PSeg: Segment
    var NrOfFilters: nat
    var NrOfPtables: nat
    const HalfProb: array<nat>
    const NrOfHalfBits: array<nat>
    const PredOrder: array<nat>
    const PtableLen: array<nat>
    const ICoefA: array2<int>
    const P_one: array2<int>
    const Filter4Bit: array2<nat>
    const Ptable4Bit: array2<nat>
    const AData: array<Byte>

    /** DST_InitDecoder: memory for frames of this size. */
    constructor (conf: Config)
      requires Usual(conf)
      ensures Shape() && c == conf && S.Valid()
    {
      c := conf;
      S := new StrData();
      FSeg := new Segment();
      PSeg := new Segment();
      NrOfFilters, NrOfPtables := 0, 0;
      HalfProb := new nat[MAX_CHANNELS];
      NrOfHalfBits := new nat[MAX_CHANNELS];
      PredOrder := new nat[2 * MAX_CHANNELS];
      PtableLen := new nat[2 * MAX_CHANNELS];
      ICoefA := new int[2 * MAX_CHANNELS, 128];
      P_one := new int[2 * MAX_CHANNELS, 64];
      Filter4Bit := new nat[MAX_CHANNELS, MAX_DSDBITS_INFRAME];
      Ptable4Bit := new nat[MAX_CHANNELS, MAX_DSDBITS_INFRAME];
      AData := new Byte[NumBits(conf)];
    }

    /** Sizes, and that nothing shares memory. */
    ghost predicate Shape() {
      && Usual(c) && AData.Length == NumBits(c) && FSeg.Valid() && PSeg.Valid() && FSeg != PSeg
      && HalfProb.Length == NrOfHalfBits.Length == MAX_CHANNELS
      && PredOrder.Length == PtableLen.Length == 2 * MAX_CHANNELS
      && ICoefA.Length0 == P_one.Length0 == 2 * MAX_CHANNELS && ICoefA.Length1 == 128 && P_one.Length1 == 64
      && Filter4Bit.Length0 == Ptable4Bit.Length0 == MAX_CHANNELS
      && Filter4Bit.Length1 == Ptable4Bit.Length1 == MAX_DSDBITS_INFRAME
      && ICoefA != P_one && Filter4Bit != Ptable4Bit
      && FSeg.SegmentLen != PSeg.SegmentLen && FSeg.SegmentLen != PSeg.NrOfSegments && FSeg.SegmentLen != PSeg.Table4Segment
      && FSeg.NrOfSegments != PSeg.SegmentLen && FSeg.NrOfSegments != PSeg.NrOfSegments && FSeg.NrOfSegments != PSeg.Table4Segment
      && FSeg.Table4Segment != PSeg.SegmentLen && FSeg.Table4Segment != PSeg.NrOfSegments && FSeg.Table4Segment != PSeg.Table4Segment
      && Apart(FSeg) && Apart(PSeg)
      && HalfProb != NrOfHalfBits && HalfProb != PredOrder && HalfProb != PtableLen
      && NrOfHalfBits != PredOrder && NrOfHalfBits != PtableLen && PredOrder != PtableLen
    }

    ghost predicate Apart(s: Segment) {
      && s.SegmentLen != HalfProb && s.SegmentLen != NrOfHalfBits && s.SegmentLen != PredOrder && s.SegmentLen != PtableLen
      && s.NrOfSegments != HalfProb && s.NrOfSegments != NrOfHalfBits && s.NrOfSegments != PredOrder && s.NrOfSegments != PtableLen
      && s.Table4Segment != HalfProb && s.Table4Segment != NrOfHalfBits && s.Table4Segment != PredOrder && s.Table4Segment != PtableLen
    }

    /** The segment arrays hold this layout. */
    ghost predicate HasLayout(y: Layout)
      requires Shape()
      reads FSeg, FSeg.SegmentLen, FSeg.NrOfSegments, FSeg.Table4Segment
      reads PSeg, PSeg.SegmentLen, PSeg.NrOfSegments, PSeg.Table4Segment
    {
      && FSeg.Holds(y.fseg) && PSeg.Holds(y.pseg) && FSeg.Maps(y.fmap.tables) && PSeg.Maps(y.pmap.tables)
    }

    ghost predicate HasHalf(h: Header)
      requires Shape() && Good(h, c)
      reads HalfProb, NrOfHalfBits
    {
      forall ch {:trigger h.layout.half[ch]} :: 0 <= ch < c.channels ==>
        && HalfProb[ch] == h.layout.half[ch]
        && NrOfHalfBits[ch] == HalfBits(h, c, ch)
    }

    ghost predicate HasLabels(h: Header)
      requires Shape() && Good(h, c)
      reads Filter4Bit, Ptable4Bit
    {
      && (forall ch, b {:trigger Filter4Bit[ch, b]} :: 0 <= ch < c.channels && 0 <= b < 8 * c.frameLen ==>
            Filter4Bit[ch, b] == TableOf(h.layout.fseg, h.layout.fmap.tables, c.channels, |h.filters|, ch, b))
      && (forall ch, b {:trigger Ptable4Bit[ch, b]} :: 0 <= ch < c.channels && 0 <= b < 8 * c.frameLen ==>
            Ptable4Bit[ch, b] == TableOf(h.layout.pseg, h.layout.pmap.tables, c.channels, |h.ptables|, ch, b))
    }

    /** The choice of a probability and one arithmetic decoding (lines 386-398). */
    method DecodeResidual(AC: Decoder, code: seq<Bit>, ch: nat, bitNr: nat, predict: int, ghost h: Header, ghost y: seq<Bit>)
      returns (residual: Bit)
      requires Shape() && Good(h, c) && HasHalf(h) && HasLabels(h) && |h.ptables| <= P_one.Length0 && PtableRows(P_one, PtableLen, h.ptables)
      requires ch == |y| % c.channels && bitNr == |y| / c.channels < 8 * c.frameLen
      requires predict == Prediction(h, c, y) && Working(AC.Regs())
      modifies AC
      ensures (residual, AC.Regs()) == DecodeBit(code, old(AC.Regs()), Probability(h, c, y))
      ensures Working(AC.Regs())
    {
      hide DecodeBit, Prediction;
      assert HalfProb[ch] == h.layout.half[ch];
      if HalfProb[ch] != 0 && bitNr < NrOfHalfBits[ch] {
        residual := AC.Decode(code, 128);
      } else {
        var table4bit := Ptable4Bit[ch, bitNr];
        ghost var t := h.ptables[table4bit];
        assert RowIs(P_one, table4bit, t) && PtableLen[table4bit] == |t| && InRange(PTABLE, t);
        var ptableIndex := PtableIndex(predict, PtableLen[table4bit]);
        assert 1 <= t[ptableIndex] <= 128;
        residual := AC.Decode(code, P_one[table4bit, ptableIndex]);
      }
    }
  
    /** The filter tables of this header. */
    ghost predicate HasFilters(tables: seq<array2<int>>, h: Header)
      requires Good(h, c)
      reads set f | f in tables
    {
      |tables| == |h.filters|
      && forall f {:trigger tables[f]} :: 0 <= f < |tables| ==> FilterTable(tables[f], h.filters[f])
    }

    /** LT_RUN_FILTER_I for one bit. */
    method PredictBit(tables: seq<array2<int>>, w: Words, ch: nat, bitNr: nat, ghost h: Header, ghost y: seq<Bit>)
      returns (predict: int)
      requires Shape() && Good(h, c) && HasLabels(h) && HasFilters(tables, h)
      requires ch == |y| % c.channels && bitNr == |y| / c.channels < 8 * c.frameLen
      requires History(w) == Past(Channel(y, ch, c.channels))
      ensures predict == Prediction(h, c, y)
    {
      hide Int16, History, Past;
      var filter := Filter4Bit[ch, bitNr];
      ghost var f := h.filters[filter];
      assert FilterTable(tables[filter], f) && |f| <= TAPS;
      predict := RunFilter(tables[filter], w, |f|, Padded(f));
      PaddedSum(History(w), f, |f|);
    }

    /** Decode, reconstruct, store and remember one bit. */
    method DecodeOneBit(tables: seq<array2<int>>, status: array<Words>, AC: Decoder, code: seq<Bit>, frame: array<Byte>,
                        ch: nat, bitNr: nat, ghost h: Header, ghost r: seq<Bit>, ghost y: seq<Bit>)
      returns (ghost residual: Bit, ghost bit: Bit)
      requires Shape() && Good(h, c) && HasHalf(h) && HasLabels(h) && |h.ptables| <= P_one.Length0 && PtableRows(P_one, PtableLen, h.ptables)
      requires HasFilters(tables, h) && status.Length == c.channels && frame.Length >= FrameSize(c)
      requires ch == |y| % c.channels && bitNr == |y| / c.channels < 8 * c.frameLen
      requires Decoding(h, c, code, r, y, AC.Regs()) && Histories(status, c, y)
      requires frame[..FrameSize(c)] == FrameBytes(y, c.channels, FrameSize(c))
      modifies AC, status, frame
      ensures Decoding(h, c, code, r + [residual], y + [bit], AC.Regs()) && Histories(status, c, y + [bit])
      ensures frame[..FrameSize(c)] == FrameBytes(y + [bit], c.channels, FrameSize(c))
      ensures forall i :: FrameSize(c) <= i < frame.Length ==> frame[i] == old(frame[i])
    {
      hide DecodeBit, Prediction, Probability, History, Past, Channel, FrameBytes, DecodeAll, ModelOf;
      assert History(status[ch]) == Past(Channel(y, ch, c.channels));
      var predict := PredictBit(tables, status[ch], ch, bitNr, h, y);
      var res := DecodeResidual(AC, code, ch, bitNr, predict, h, y);
      residual := res;
      var bitVal := Xor(SignBit(predict), res);
      bit := bitVal;
      StepDecoded(h, c, code, r, y, old(AC.Regs()), res, AC.Regs(), bit);
      StoreBit(frame, c, ch, bitNr, bitVal, y);
      ShiftStatus(status, c, ch, bitVal, y);
    }

    /** LT_InitCoefTablesI: sixteen tables per filter. */
    method InitFilterTables(ghost h: Header) returns (tables: seq<array2<int>>)
      requires Shape() && Good(h, c) && |h.filters| == NrOfFilters <= ICoefA.Length0 && FilterRows(ICoefA, PredOrder, h.filters)
      ensures HasFilters(tables, h) && fresh(set f | f in tables)
    {
      tables := [];
      for f := 0 to NrOfFilters
        invariant |tables| == f && fresh(set g | g in tables)
        invariant forall g {:trigger tables[g]} :: 0 <= g < f ==> FilterTable(tables[g], h.filters[g])
      {
        ghost var list := h.filters[f];
        assert RowIs(ICoefA, f, list) && PredOrder[f] == |list| && InRange(FILTER, list);
        var coef := seq(TAPS, i requires 0 <= i < TAPS reads ICoefA => ICoefA[f, i]);
        assert coef == Padded(list);
        var table := new int[16, 256];
        InitCoefTables(PredOrder[f], coef, table);
        forall g | 0 <= g < f ensures FilterTable(tables[g], h.filters[g]) {
          assert tables[g] in (set x | x in tables);
        }
        tables := tables + [table];
      }
    }

    /** The decode loop (lines 362-416) and the flush: every channel's bit b, channel by channel. */
    method DecodeBits(code: seq<Bit>, frame: array<Byte>, ghost h: Header) returns (error: int)
      requires Shape() && Good(h, c) && HasHalf(h) && HasLabels(h) && |h.filters| == NrOfFilters <= ICoefA.Length0
      requires FilterRows(ICoefA, PredOrder, h.filters)
      requires |h.ptables| <= P_one.Length0 && PtableRows(P_one, PtableLen, h.ptables)
      requires frame.Length >= FrameSize(c)
      modifies frame
      ensures var r := DecodeCoded(h, c, code);
              if error == 0 then r.Done? && frame[..FrameSize(c)] == r.value else r == Fail(error)
      ensures forall i :: FrameSize(c) <= i < frame.Length ==> frame[i] == old(frame[i])
    {
      hide DecodeBit, Prediction, Probability, History, Past, Channel, FrameBytes, DecodeAll, ModelOf, Decoding, Histories, Good,
        DecodeCoded, Accepts, HasHalf, HasLabels, HasFilters, FilterRows, PtableRows;
      var tables := InitFilterTables(h);
      var status := new Words[c.channels](_ => FreshWords);
      var AC := new Decoder(code);
      FirstCoefficient(h, c, ICoefA, PredOrder);
      var first := AC.Decode(code, Reverse7LSBs(ICoefA[0, 0]));
      StartDecoding(h, c, code, first, AC.Regs(), status);
      ClearFrame(frame, c.channels, FrameSize(c));
      ghost var r, y := DecodeLoop(tables, status, AC, code, frame, h, first);
      ghost var regs := AC.Regs();
      var acError := AC.Flush(code);
      AllDecoded(h, c, code, r, y, regs);
      error := if acError != 1 then DECODER_ERROR else 0;
    }

    method DecodeLoop(tables: seq<array2<int>>, status: array<Words>, AC: Decoder, code: seq<Bit>, frame: array<Byte>,
                      ghost h: Header, ghost first: Bit)
      returns (ghost r: seq<Bit>, ghost y: seq<Bit>)
      requires Shape() && Good(h, c) && HasHalf(h) && HasLabels(h) && |h.ptables| <= P_one.Length0 && PtableRows(P_one, PtableLen, h.ptables)
      requires HasFilters(tables, h) && status.Length == c.channels && frame.Length >= FrameSize(c)
      requires Decoding(h, c, code, [first], [], AC.Regs()) && Histories(status, c, [])
      requires frame[..FrameSize(c)] == FrameBytes([], c.channels, FrameSize(c))
      modifies AC, status, frame
      ensures |y| == 8 * c.frameLen * c.channels && Decoding(h, c, code, r, y, AC.Regs())
      ensures frame[..FrameSize(c)] == FrameBytes(y, c.channels, FrameSize(c))
      ensures forall i :: FrameSize(c) <= i < frame.Length ==> frame[i] == old(frame[i])
    {
      hide DecodeBit, Prediction, Probability, History, Past, Channel, FrameBytes, DecodeAll, ModelOf, Decoding, Histories, Good;
      r, y := [first], [];
      for bitNr := 0 to 8 * c.frameLen
        invariant |y| == bitNr * c.channels && Decoding(h, c, code, r, y, AC.Regs()) && Histories(status, c, y)
        invariant frame[..FrameSize(c)] == FrameBytes(y, c.channels, FrameSize(c))
        invariant forall j :: FrameSize(c) <= j < frame.Length ==> frame[j] == old(frame[j])
      {
        for ch := 0 to c.channels
          invariant |y| == bitNr * c.channels + ch && Decoding(h, c, code, r, y, AC.Regs()) && Histories(status, c, y)
          invariant frame[..FrameSize(c)] == FrameBytes(y, c.channels, FrameSize(c))
          invariant forall j :: FrameSize(c) <= j < frame.Length ==> frame[j] == old(frame[j])
        {
          DivUnique(|y|, c.channels, bitNr, ch);
          ghost var residual, bit;
          residual, bit := DecodeOneBit(tables, status, AC, code, frame, ch, bitNr, h, r, y);
          r, y := r + [residual], y + [bit];
        }
        OneMoreRow(bitNr, c.channels);
      }
    }
  
    /** The last loop of ReadFilterCoefSets. */
    method SetHalfBits(ghost y: Layout, ghost filters: seq<seq<int>>)
      requires Shape() && HasLayout(y) && TablesFit(y.fseg, y.fmap.tables, c.channels, |filters|)
      requires |filters| <= ICoefA.Length0 && FilterRows(ICoefA, PredOrder, filters)
      modifies NrOfHalfBits
      ensures forall ch {:trigger NrOfHalfBits[ch]} :: 0 <= ch < c.channels ==>
                |y.fmap.tables[ch]| > 0 && NrOfHalfBits[ch] == |filters[y.fmap.tables[ch][0]]|
    {
      ghost var m := y.fmap;
      for chNr := 0 to c.channels
        invariant forall ch {:trigger NrOfHalfBits[ch]} :: 0 <= ch < chNr ==>
                    |m.tables[ch]| > 0 && NrOfHalfBits[ch] == |filters[m.tables[ch][0]]|
      {
        assert FSeg.RowMaps(chNr, m.tables[chNr]) && |m.tables[chNr]| == |y.fseg.lens[chNr]| + 1;
        assert RowIs(ICoefA, m.tables[chNr][0], filters[m.tables[chNr][0]]);
        NrOfHalfBits[chNr] := PredOrder[FSeg.Table4Segment[Index(chNr, 0)]];
      }
    }

    method UnpackLayout() returns (error: int, ghost y: Layout)
      requires Shape() && S.Valid() && !ReadLayout(S.Bits(), S.Pos(), c).Undefined?
      modifies this, S, FSeg, FSeg.SegmentLen, FSeg.NrOfSegments, FSeg.Table4Segment
      modifies PSeg, PSeg.SegmentLen, PSeg.NrOfSegments, PSeg.Table4Segment, HalfProb
      ensures S.data == old(S.data)
      ensures error == 0 || ReadLayout(S.Bits(), old(S.Pos()), c) == Fail(error)
      ensures error == 0 ==>
                && S.Valid() && ReadLayout(S.Bits(), old(S.Pos()), c) == Done(y, S.Pos()) && HasLayout(StoredLayout(y))
                && |y.half| == c.channels && (forall ch :: 0 <= ch < c.channels ==> HalfProb[ch] == y.half[ch])
                && TablesFit(y.fseg, Seen(y.fmap), c.channels, y.fmap.count)
                && NrOfFilters == y.fmap.count <= MaxTables(c) && NrOfPtables == y.pmap.count <= MaxTables(c)
    {
      hide ReadSegs, ReadMaps, ReadHalf, ReadLayout, GetBits, Counts, Seen, TablesFit, Sizes;
      ghost var bits, start := S.Bits(), S.Pos();
      y := Layout(0, Segments(0, 0, []), Segments(0, 0, []), 0, Mapping(0, [], 0), Mapping(0, [], 0), []);
      ghost var f, g, same, m, n, sameMap, half;
      LayoutCases(bits, start, c);
      error, f, g, same := ReadSegmentData(S, c, FSeg, PSeg);
      if error != 0 {
        return;
      }
      SegsShape(bits, start, c);
      CountsOf(FSeg, f);
      CountsOf(PSeg, g);
      ghost var pos := S.Pos();
      error, NrOfFilters, NrOfPtables, m, n, sameMap := ReadMappingData(S, c, FSeg, PSeg, Sizes(f), Sizes(g));
      if error != 0 {
        return;
      }
      MapsFit(bits, pos, c, f, g);
      FewTables(bits, pos, c, f, g);
      SeenFits(f, m, c.channels, m.count);
      error, half := ReadHalfProb(S, HalfProb, c.channels);
      y := Layout(same, f, g, sameMap, m, n, half);
    }

    /** The header: every table that decoding reads is written for this frame. */
    method UnpackHeader() returns (error: int, ghost h: Header)
      requires Shape() && S.Valid() && !ReadHeader(S.Bits(), S.Pos(), c).Undefined?
      modifies this, S, FSeg, FSeg.SegmentLen, FSeg.NrOfSegments, FSeg.Table4Segment
      modifies PSeg, PSeg.SegmentLen, PSeg.NrOfSegments, PSeg.Table4Segment
      modifies HalfProb, NrOfHalfBits, PredOrder, PtableLen, ICoefA, P_one
      ensures S.data == old(S.data)
      ensures error == 0 || ReadHeader(S.Bits(), old(S.Pos()), c) == Fail(error)
      ensures error == 0 ==>
                && S.Valid() && Good(h, c) && HasTables(h)
                && var r := ReadHeader(S.Bits(), old(S.Pos()), c); r.Done? && r.pos == S.Pos() && h == AsStored(r.value)
    {
      hide ReadLayout, ReadFilters, ReadPtables, GetBits, HasLayout, HasHalf, HasTables, FilterRows, PtableRows, AllInRange, Good;
      ghost var bits, start := S.Bits(), S.Pos();
      h := Header(Layout(0, Segments(0, 0, []), Segments(0, 0, []), 0, Mapping(0, [], 0), Mapping(0, [], 0), []), [], []);
      ghost var y, filters, ptables;
      error, y := UnpackLayout();
      if error != 0 {
        return;
      }
      error, filters := ReadFilterCoefSets(S, NrOfFilters, FILTER_TAPS, PredOrder, ICoefA);
      if error != 0 {
        return;
      }
      SetHalfBits(StoredLayout(y), filters);
      error, ptables := ReadProbabilityTables(S, NrOfPtables, PTABLE_TAPS, PtableLen, P_one);
      if error != 0 {
        return;
      }
      h := AsStored(Header(y, filters, ptables));
      AcceptedHeaderIsGood(bits, start, c);
      TablesAreRead(y, filters, ptables);
    }

    lemma TablesAreRead(y: Layout, filters: seq<seq<int>>, ptables: seq<seq<int>>)
      requires Shape() && Good(AsStored(Header(y, filters, ptables)), c) && HasLayout(StoredLayout(y))
      requires |y.half| == c.channels && forall ch :: 0 <= ch < c.channels ==> HalfProb[ch] == y.half[ch]
      requires forall ch {:trigger NrOfHalfBits[ch]} :: 0 <= ch < c.channels ==>
                 var tables := StoredLayout(y).fmap.tables[ch]; |tables| > 0 && NrOfHalfBits[ch] == |filters[tables[0]]|
      requires |filters| == NrOfFilters <= ICoefA.Length0 && FilterRows(ICoefA, PredOrder, filters)
      requires |ptables| == NrOfPtables <= P_one.Length0 && PtableRows(P_one, PtableLen, ptables)
      ensures HasTables(AsStored(Header(y, filters, ptables)))
    {
      hide HasLayout, FilterRows, PtableRows, AllInRange, Seen, TablesFit;
    }

    /** The arrays hold this header. */
    ghost predicate HasTables(h: Header)
      requires Shape() && Good(h, c)
      reads this, FSeg, FSeg.SegmentLen, FSeg.NrOfSegments, FSeg.Table4Segment
      reads PSeg, PSeg.SegmentLen, PSeg.NrOfSegments, PSeg.Table4Segment
      reads HalfProb, NrOfHalfBits, PredOrder, PtableLen, ICoefA, P_one
    {
      && HasLayout(h.layout) && HasHalf(h)
      && |h.filters| == NrOfFilters <= ICoefA.Length0 && FilterRows(ICoefA, PredOrder, h.filters)
      && |h.ptables| == NrOfPtables <= P_one.Length0 && PtableRows(P_one, PtableLen, h.ptables)
    }

    /** A frame that is not coded (lines 902-914). */
    method UnpackUncoded(frame: array<Byte>) returns (error: int)
      requires Usual(c) && S.Valid() && S.Pos() == 1 && frame.Length >= FrameSize(c)
      requires GetBits(S.Bits(), 0, 1) == Done(0, 1) && !DecodeFrame(c, S.data).Undefined?
      modifies S, frame
      ensures S.data == old(S.data)
      ensures error == 0 || DecodeFrame(c, S.data) == Fail(error)
      ensures error == 0 ==> DecodeFrame(c, S.data).Done? && DecodeFrame(c, S.data).value == frame[..FrameSize(c)]
      ensures forall i :: FrameSize(c) <= i < frame.Length ==> frame[i] == old(frame[i])
    {
      hide GetBits, ReadHeader, BitsOfBytes;
      var dummy;
      error, dummy := ReadInt(S, 1);
      if error != 0 {
        return;
      }
      error, dummy := ReadInt(S, 6);
      if error != 0 {
        return;
      }
      if dummy != 0 {
        error := INVALID_STUFFING;
        return;
      }
      PosAfter(S.Bits(), 1, 1);
      PosAfter(S.Bits(), 2, 6);
      ReadDSDframe(S, FrameSize(c), frame);
    }

    /** A coded frame: its header and its arithmetic code (lines 916-942). */
    method UnpackCoded() returns (error: int, code: seq<Bit>, ghost h: Header)
      requires Shape() && S.Valid() && S.Pos() == 1
      requires GetBits(S.Bits(), 0, 1) == Done(1, 1) && !DecodeFrame(c, S.data).Undefined?
      modifies this, S, FSeg, FSeg.SegmentLen, FSeg.NrOfSegments, FSeg.Table4Segment
      modifies PSeg, PSeg.SegmentLen, PSeg.NrOfSegments, PSeg.Table4Segment
      modifies HalfProb, NrOfHalfBits, PredOrder, PtableLen, ICoefA, P_one, AData
      ensures S.data == old(S.data)
      ensures error == 0 || DecodeFrame(c, S.data) == Fail(error)
      ensures error == 0 ==>
                && Good(h, c) && HasTables(h) && Cuts(h.layout, c) && DecodeFrame(c, S.data) == DecodeCoded(h, c, code)
    {
      hide GetBits, ReadHeader, BitsOfBytes, DecodeCoded, Good, HasTables;
      code := [];
      error, h := UnpackHeader();
      if error != 0 {
        return;
      }
      HeaderCuts(S.Bits(), 1, c);
      ghost var q := S.Pos();
      var aDataLen := 8 * |S.data| - S.Pos();
      ReadArithmeticCodedData(S, aDataLen, AData);
      if aDataLen > 0 && AData[0] != 0 {
        assert AData[..aDataLen][0] == S.Bits()[q];
        error := INVALID_CODE;
        return;
      }
      code := AData[..aDataLen];
      assert aDataLen > 0 ==> code[0] == S.Bits()[q];
      assert code == S.Bits()[q..];
    }

    /** FillTable4Bit for both kinds of tables. */
    method FillLabels(ghost h: Header)
      requires Shape() && Good(h, c) && HasLayout(h.layout) && Cuts(h.layout, c)
      modifies Filter4Bit, Ptable4Bit
      ensures HasLabels(h)
    {
      FillTable4Bit(c.channels, 8 * c.frameLen, FSeg, Filter4Bit, h.layout.fseg, h.layout.fmap.tables, FilterLimits(c));
      FillTable4Bit(c.channels, 8 * c.frameLen, PSeg, Ptable4Bit, h.layout.pseg, h.layout.pmap.tables, PtableLimits(c));
    }

    method DecodeCodedFrame(frame: array<Byte>) returns (error: int)
      requires Shape() && S.Valid() && S.Pos() == 1 && frame.Length >= FrameSize(c) && frame != AData
      requires GetBits(S.Bits(), 0, 1) == Done(1, 1) && !DecodeFrame(c, S.data).Undefined?
      modifies this, S, FSeg, FSeg.SegmentLen, FSeg.NrOfSegments, FSeg.Table4Segment
      modifies PSeg, PSeg.SegmentLen, PSeg.NrOfSegments, PSeg.Table4Segment
      modifies HalfProb, NrOfHalfBits, PredOrder, PtableLen, ICoefA, P_one, Filter4Bit, Ptable4Bit, AData, frame
      ensures S.data == old(S.data)
      ensures error == 0 || DecodeFrame(c, S.data) == Fail(error)
      ensures error == 0 ==> DecodeFrame(c, S.data).Done? && DecodeFrame(c, S.data).value == frame[..FrameSize(c)]
      ensures forall i :: FrameSize(c) <= i < frame.Length ==> frame[i] == old(frame[i])
    {
      hide GetBits, DecodeFrame, BitsOfBytes, DecodeCoded, Good, HasLayout, HasHalf, HasLabels, FilterRows, PtableRows;
      var code;
      ghost var h;
      error, code, h := UnpackCoded();
      if error == 0 {
        FillLabels(h);
        error := DecodeBits(code, frame, h);
      }
    }

    /** DST_FramDSTDecode: whatever the working memory held before, the outcome is what the bytes of this
        frame code; on an error the frame becomes DSD silence. */
    method FramDSTDecode(data: seq<Byte>, frame: array<Byte>) returns (error: int)
      requires Shape() && frame.Length >= FrameSize(c) && frame != AData
      requires !DecodeFrame(c, data).Undefined?
      modifies this, S, FSeg, FSeg.SegmentLen, FSeg.NrOfSegments, FSeg.Table4Segment
      modifies PSeg, PSeg.SegmentLen, PSeg.NrOfSegments, PSeg.Table4Segment
      modifies HalfProb, NrOfHalfBits, PredOrder, PtableLen, ICoefA, P_one, Filter4Bit, Ptable4Bit, AData, frame
      ensures var r := DecodeFrame(c, data);
              error == (if r.Done? then 0 else r.error) && frame[..FrameSize(c)] == Output(c, r)
      ensures error != 0 ==> forall i :: 0 <= i < FrameSize(c) ==> frame[i] == 0x55
      ensures forall i :: FrameSize(c) <= i < frame.Length ==> frame[i] == old(frame[i])
    {
      hide GetBits, BitsOfBytes, DecodeFrame;
      S.FillBuffer(data);
      ghost var r := DecodeFrame(c, data);
      var dstCoded;
      error, dstCoded := ReadInt(S, 1);
      if error != 0 {
        NoFlag(c, data);
      } else {
        FlagIsBit(S.Bits(), dstCoded);
        if dstCoded == 0 {
          error := UnpackUncoded(frame);
        } else {
          error := DecodeCodedFrame(frame);
        }
      }
      if error != 0 {
        Silence(frame, FrameSize(c));
        assert forall i :: 0 <= i < FrameSize(c) ==> frame[i] == frame[..FrameSize(c)][i];
      }
    }
  }

  /** memset(MuxedDSDdata, 0x55, ...) */
  method Silence(frame: array<Byte>, n: nat)
    requires n <= frame.Length
    modifies frame
    ensures frame[..n] == Copies<Byte>(0x55, n)
    ensures forall j :: n <= j < frame.Length ==> frame[j] == old(frame[j])
  {
    for i := 0 to n
      invariant forall j :: 0 <= j < i ==> frame[j] == 0x55
      invariant forall j :: n <= j < frame.Length ==> frame[j] == old(frame[j])
    {
      frame[i] := 0x55;
    }
  }

  lemma NoFlag(c: Config, data: seq<Byte>)
    requires Usual(c) && GetBits(BitsOfBytes(data), 0, 1) == Fail(NEGATIVE_BIT_ALLOCATION)
    ensures DecodeFrame(c, data) == Fail(NEGATIVE_BIT_ALLOCATION)
  {
    hide GetBits, BitsOfBytes, ReadHeader;
  }

  lemma PosAfter(bits: seq<Bit>, pos: nat, n: nat)
    ensures GetBits(bits, pos, n).Done? ==> GetBits(bits, pos, n).pos == pos + n
  {
  }

  lemma FlagIsBit(bits: seq<Bit>, x: nat)
    requires GetBits(bits, 0, 1) == Done(x, 1)
    ensures x == 0 || x == 1
  {
    assert Pow2(1) == 2;
  }

  lemma HeaderCuts(bits: seq<Bit>, pos: nat, c: Config)
    requires Usual(c) && ReadHeader(bits, pos, c).Done?
    ensures Cuts(AsStored(ReadHeader(bits, pos, c).value).layout, c)
  {
    hide GetBits, ReadLayout, ReadFilters, ReadPtables, Seen;
    LayoutCuts(bits, pos, c);
  }

  /** What the parts mean for the layout. */
  lemma LayoutCases(bits: seq<Bit>, pos: nat, c: Config)
    requires Usual(c)
    ensures var s := ReadSegs(bits, pos, c); var r := ReadLayout(bits, pos, c);
            && (s.Undefined? ==> r.Undefined?)
            && (s.Fail? ==> r == Fail(s.error))
            && (s.Done? ==>
                  && |s.value.1.lens| == |s.value.2.lens| == c.channels
                  && var m := ReadMaps(bits, s.pos, c, Sizes(s.value.1), Sizes(s.value.2));
                  && (m.Fail? ==> r == Fail(m.error))
                  && (m.Done? ==>
                        var h := ReadHalf(bits, m.pos, [], c.channels);
                        && (h.Fail? ==> r == Fail(h.error))
                        && (h.Done? ==> r == Done(Layout(s.value.0, s.value.1, s.value.2, m.value.0, m.value.1, m.value.2, h.value), h.pos))))
  {
    hide ReadSegs, ReadMaps, ReadHalf, Sizes;
    if ReadSegs(bits, pos, c).Done? { SegsShape(bits, pos, c); }
  }

  lemma CountsOf(S: Segment, s: Segments)
    requires S.Valid() && S.Holds(s) && 0 < |s.lens|
    requires forall i {:trigger s.lens[i]} :: 0 <= i < |s.lens| ==> Index(i, |s.lens[i]| + 1) <= CELLS
    ensures Counts(S, Sizes(s))
  {
    forall i {:trigger Sizes(s)[i]} | 0 <= i < |s.lens|
      ensures S.NrOfSegments[i] == Sizes(s)[i] <= MOST_SEGS && Index(i, Sizes(s)[i]) <= CELLS
    {
      assert S.Row(i, s.lens[i]);
    }
  }

  lemma FewTables(bits: seq<Bit>, pos: nat, c: Config, f: Segments, g: Segments)
    requires |f.lens| == |g.lens| == c.channels > 0 && ReadMaps(bits, pos, c, Sizes(f), Sizes(g)).Done?
    ensures ReadMaps(bits, pos, c, Sizes(f), Sizes(g)).value.1.count <= MaxTables(c)
    ensures ReadMaps(bits, pos, c, Sizes(f), Sizes(g)).value.2.count <= MaxTables(c)
  {
    var m := ReadMap(bits, pos + 1, MaxTables(c), Sizes(f));
    AcceptedMapping(bits, pos + 1, MaxTables(c), Sizes(f));
    if ReadMaps(bits, pos, c, Sizes(f), Sizes(g)).value.0 == 0 {
      AcceptedMapping(bits, m.pos, MaxTables(c), Sizes(g));
    }
  }

  /** memset(MuxedDSD, 0, ...) */
  method ClearFrame(frame: array<Byte>, channels: nat, n: nat)
    requires n <= frame.Length && channels > 0
    modifies frame
    ensures frame[..n] == FrameBytes([], channels, n)
    ensures forall j :: n <= j < frame.Length ==> frame[j] == old(frame[j])
  {
    hide FrameBytes;
    for i := 0 to n
      invariant forall j :: 0 <= j < i ==> frame[j] == 0
      invariant forall j :: n <= j < frame.Length ==> frame[j] == old(frame[j])
    {
      frame[i] := 0;
    }
    NothingYet(channels, n);
    assert frame[..n] == FrameBytes([], channels, n);
  }

  lemma FirstCoefficient(h: Header, c: Config, T: array2<int>, order: array<nat>)
    requires Good(h, c) && |h.filters| <= T.Length0 && |h.filters| <= order.Length && T.Length1 == 128 && FilterRows(T, order, h.filters)
    ensures 0 < T.Length0 && -512 <= T[0, 0] && Reverse7LSBs(T[0, 0]) == FirstProb(h, c)
  {
    FirstProbability(h, c);
    assert RowIs(T, 0, h.filters[0]);
  }

  lemma StartDecoding(h: Header, c: Config, code: seq<Bit>, first: Bit, regs: Registers, status: array<Words>)
    requires Good(h, c) && Working(regs) && status.Length == c.channels
    requires (first, regs) == DecodeBit(code, Start(code), FirstProb(h, c))
    requires forall ch :: 0 <= ch < c.channels ==> status[ch] == FreshWords
    ensures Decoding(h, c, code, [first], [], regs) && Histories(status, c, [])
  {
    hide DecodeBit, Probability, History, Past, FirstProb;
    assert [first][1..] == [];
    NextDecoded(code, ModelOf(h, c), 0, [], Start(code), first, regs);
    assert [] + [first] == [first];
    PastStart();
  }

  lemma NothingYet(channels: nat, n: nat)
    requires channels > 0
    ensures forall j :: 0 <= j < n ==> FrameBytes([], channels, n)[j] == 0
  {
    forall j | 0 <= j < n ensures FrameBytes([], channels, n)[j] == 0 {
      ClearByte(BitsInByte([], channels, j));
    }
  }

  lemma {:induction false} ClearByte(s: seq<Bit>)
    requires forall t :: 0 <= t < |s| ==> s[t] == 0
    ensures Value(s) == 0
  {
    if s != [] { ClearByte(s[..|s| - 1]); }
  }

  lemma AllDecoded(h: Header, c: Config, code: seq<Bit>, r: seq<Bit>, y: seq<Bit>, regs: Registers)
    requires Good(h, c) && Decoding(h, c, code, r, y, regs) && |y| == 8 * c.frameLen * c.channels
    ensures DecodeCoded(h, c, code) == if Accepts(code, regs) then Done(FrameBytes(y, c.channels, FrameSize(c)), |code|)
                                       else Fail(DECODER_ERROR)
  {
    hide DecodeAll, ModelOf, Recon, FrameBytes;
  }

  /** Table t, entry i of one filter. */
  ghost predicate FilterTable(T: array2<int>, f: seq<int>)
    reads T
  {
    && |f| <= TAPS && T.Length0 == 16 && T.Length1 == 256
    && forall t, i :: 0 <= t < 16 && 0 <= i < 256 ==> T[t, i] == Entry(Padded(f), |f|, t, i)
  }

  /** The decoder has decoded r; y is what the residuals r[1..] stand for. */
  ghost predicate Decoding(h: Header, c: Config, code: seq<Bit>, r: seq<Bit>, y: seq<Bit>, regs: Registers)
    requires Good(h, c)
  {
    && |r| == 1 + |y| && Working(regs)
    && DecodeAll(code, ModelOf(h, c), |r|) == (r, regs)
    && y == Recon(h, c, r[1..])
  }

  ghost predicate Histories(status: array<Words>, c: Config, y: seq<Bit>)
    reads status
  {
    && 0 < c.channels == status.Length
    && forall ch {:trigger status[ch]} :: 0 <= ch < c.channels ==> History(status[ch]) == Past(Channel(y, ch, c.channels))
  }

  lemma BitInRange(c: Config, n: nat)
    requires 0 < c.channels && n / c.channels < 8 * c.frameLen
    ensures n < NumBits(c)
  {
    Cell(n / c.channels, n % c.channels, c.channels, 8 * c.frameLen);
    assert n == n / c.channels * c.channels + n % c.channels;
  }

  lemma StepDecoded(h: Header, c: Config, code: seq<Bit>, r: seq<Bit>, y: seq<Bit>, regs: Registers,
                    res: Bit, regs': Registers, bit: Bit)
    requires Good(h, c) && Decoding(h, c, code, r, y, regs) && Working(regs')
    requires 0 < c.channels && |y| / c.channels < 8 * c.frameLen
    requires (res, regs') == DecodeBit(code, regs, Probability(h, c, y))
    requires bit == Xor(SignBit(Prediction(h, c, y)), res)
    ensures Decoding(h, c, code, r + [res], y + [bit], regs')
  {
    hide DecodeBit, Prediction, Probability, DecodeAll, ModelOf, Recon, Good;
    BitInRange(c, |y|);
    ModelStep(h, c, r);
    NextDecoded(code, ModelOf(h, c), |r|, r, regs, res, regs');
    assert (r + [res])[1..] == r[1..] + [res];
    ReconGrows(h, c, r[1..], res);
  }

  lemma ModelStep(h: Header, c: Config, r: seq<Bit>)
    requires Good(h, c) && 0 < |r| <= NumBits(c)
    ensures ModelOf(h, c)(r) == Probability(h, c, Recon(h, c, r[1..]))
  {
    hide Probability, Recon, Good;
  }

  lemma ReconGrows(h: Header, c: Config, res: seq<Bit>, b: Bit)
    requires Good(h, c)
    ensures Recon(h, c, res + [b]) == Recon(h, c, res) + [Xor(SignBit(Prediction(h, c, Recon(h, c, res))), b)]
  {
    hide Prediction, Good;
    assert (res + [b])[..|res|] == res;
  }

  /** MuxedDSD[ByteNr * NrOfChannels + ChNr] |= BitVal << (7 - BitNr % 8), the bit being clear. */
  method StoreBit(frame: array<Byte>, c: Config, ch: nat, bitNr: nat, bit: Bit, ghost y: seq<Bit>)
    requires Usual(c) && ch == |y| % c.channels && bitNr == |y| / c.channels < 8 * c.frameLen
    requires frame.Length >= FrameSize(c) && frame[..FrameSize(c)] == FrameBytes(y, c.channels, FrameSize(c))
    modifies frame
    ensures frame[..FrameSize(c)] == FrameBytes(y + [bit], c.channels, FrameSize(c))
    ensures forall i :: FrameSize(c) <= i < frame.Length ==> frame[i] == old(frame[i])
  {
    var byteNr := bitNr / 8;
    ghost var n := FrameSize(c);
    Cell(byteNr, ch, c.channels, c.frameLen);
    var at := byteNr * c.channels + ch;
    ghost var before := frame[..n];
    assert frame[at] == before[at];
    BitStored(y, bit, c.channels, n, at);
    frame[at] := frame[at] + bit * Pow2(7 - bitNr % 8);
    assert frame[..n] == before[at := frame[at]];
  }

  lemma BitStored(y: seq<Bit>, bit: Bit, channels: nat, n: nat, at: nat)
    requires channels > 0 && at == |y| / channels / 8 * channels + |y| % channels < n
    ensures var weight := bit * Pow2(7 - |y| / channels % 8);
            && FrameBytes(y, channels, n)[at] + weight < 256
            && FrameBytes(y + [bit], channels, n) == FrameBytes(y, channels, n)[at := FrameBytes(y, channels, n)[at] + weight]
  {
    hide BitsInByte, Value, Pow2;
    var t := |y| / channels % 8;
    FrameGrows(y, bit, channels, at);
    var s := BitsInByte(y, channels, at);
    SetBit(s, t, bit);
    var old_frame, new_frame := FrameBytes(y, channels, n), FrameBytes(y + [bit], channels, n);
    assert old_frame[at] == Value(s) && new_frame[at] == Value(s[t := bit]);
    forall j | 0 <= j < n && j != at ensures FrameBytes(y + [bit], channels, n)[j] == FrameBytes(y, channels, n)[j] {
      FrameGrows(y, bit, channels, j);
    }
    assert new_frame == old_frame[at := new_frame[at]];
  }

  /** The shift register of one channel (lines 408-413). */
  method ShiftStatus(status: array<Words>, c: Config, ch: nat, bit: Bit, ghost y: seq<Bit>)
    requires Histories(status, c, y) && ch == |y| % c.channels
    modifies status
    ensures Histories(status, c, y + [bit])
  {
    hide History, Past, Channel;
    ghost var before := status[..];
    status[ch] := ShiftIn(status[ch], bit);
    ShiftHistory(before[ch], bit);
    PastGrows(Channel(y, ch, c.channels), bit);
    forall d | 0 <= d < c.channels ensures History(status[d]) == Past(Channel(y + [bit], d, c.channels)) {
      ChannelGrows(y, bit, d, c.channels);
      assert History(before[d]) == Past(Channel(y, d, c.channels));
    }
  }

  /** How many bits of a channel may start with probability 1/2. */
  function HalfBits(h: Header, c: Config, ch: nat): nat
    requires Good(h, c) && ch < c.channels
  {
    assert |h.layout.fmap.tables[ch]| == |h.layout.fseg.lens[ch]| + 1;
    |h.filters[h.layout.fmap.tables[ch][0]]|
  }

  /** TableAt as the number of an existing table. */
  function TableOf(s: Segments, tables: seq<seq<nat>>, channels: nat, count: nat, ch: nat, b: nat): (t: nat)
    requires TablesFit(s, tables, channels, count) && ch < channels
    ensures t < count && |tables[ch]| == |s.lens[ch]| + 1 && t == TableAt(s, tables, ch, b)
  {
    assert |tables[ch]| == |s.lens[ch]| + 1;
    TableAt(s, tables, ch, b)
  }
}