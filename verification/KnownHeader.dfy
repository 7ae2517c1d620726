/** One frame header bit by bit: what the readers make of it, with every field's width and place. */
module KnownHeader {
  import opened Bits
  import opened BitReader
  import opened Segmentation
  import opened TableMapping
  import opened FrameTables
  import opened FrameLayout
  import opened Coefs
  import opened FrameCodec
  import opened FrameDecoding
  import FrameLaws
  import Predictor

  /** Two channels of 4704 bytes. */
  function Stereo(): Config { Config(2, MAX_FRAME_LEN) }

  /** Filter segments of 4576 bytes and the rest; table segments of 4 and 1 times 588 bytes and the rest. */
  function SegmentWord(): seq<Bit> {
    [0]
    + ([1, 0] + BitsOf(1, 13) + BitsOf(4576, 13) + [1])
    + ([1, 0] + BitsOf(588, 13) + BitsOf(4, 3) + [0] + BitsOf(1, 2) + [1])
  }

  /** Filters 0 and 1, tables 0, 1 and 2, numbered as they come; a half-probability start for channel 0. */
  function MappingWord(): seq<Bit> { [0] + [1, 1] + [1, 1, 1, 0] + [1, 0] }

  /** The coefficient 8, plainly; 100 and no change. */
  function FilterWord(): seq<Bit> {
    (BitsOf(0, 7) + ([0] + BitsOf(8, 9))) + (BitsOf(1, 7) + ([1] + BitsOf(0, 2) + BitsOf(100, 9) + BitsOf(0, 3) + [1]))
  }

  /** Even odds; 1 and 128, plainly; 10, 20 and on in a line. */
  function TableWord(): seq<Bit> {
    BitsOf(0, 6)
    + (BitsOf(1, 6) + ([0] + BitsOf(0, 7) + BitsOf(127, 7)))
    + (BitsOf(2, 6) + ([1] + BitsOf(1, 2) + (BitsOf(9, 7) + BitsOf(19, 7)) + BitsOf(0, 3) + [1]))
  }

  function Known(): Header {
    Header(Layout(0, Segments(1, 1, Copies([4576], 2)), Segments(1, 588, Copies([4, 1], 2)),
                  0, Mapping(1, Copies([0, 1], 2), 2), Mapping(1, Copies([0, 1, 2], 2), 3), [1, 0]),
           [[8], [100, 100]], [[128], [1, 128], [10, 20, 30]])
  }

  const FILTER_CODINGS: seq<Coding> := [Plain, Predicted(0, 0)]
  const TABLE_CODINGS: seq<Coding> := [Plain, Plain, Predicted(1, 0)]

  /* The header can be written. */

  lemma Ordering()
    ensures Ordered([0, 1]) && CountOf([0, 1]) == 2 && CountOf([0]) == 1
    ensures Ordered([0, 1, 2]) && CountOf([0, 1, 2]) == 3
  {
    var s: seq<nat>, t: seq<nat>, u: seq<nat> := [0], [0, 1], [0, 1, 2];
    assert s[..0] == [] && t[..1] == s && u[..2] == t;
    FirstUseMeansOrdered(t);
    FirstUseMeansOrdered(u);
  }

  lemma FilterSegments()
    ensures Writable(Known().layout.fseg, FilterLimits(Stereo()), 2)
    ensures Used(1, []) == 0 && Used(1, [4576]) == 4576
  {
    var lens: seq<nat> := [4576];
    assert lens[..0] == [];
    assert Used(1, lens) == 4576;
  }

  lemma TableSegments()
    ensures Writable(Known().layout.pseg, PtableLimits(Stereo()), 2)
    ensures Used(588, []) == 0 && Used(588, [4]) == 2352 && Used(588, [4, 1]) == 2940
  {
    var a: seq<nat>, b: seq<nat> := [4], [4, 1];
    assert a[..0] == [] && b[..1] == a;
    assert Used(588, a) == 2352;
    assert Used(588, b) == 2940;
  }

  lemma CanBeWritten()
    ensures WritableHeader(Known(), Stereo(), FILTER_CODINGS, TABLE_CODINGS)
  {
    hide Writable, WritableMap, Ordered, CountOf;
    var c, y := Stereo(), Known().layout;
    Ordering();
    FilterSegments();
    TableSegments();
    SharedMapWritable([0, 1], 2, MaxTables(c), y.fseg);
    SharedMapWritable([0, 1, 2], 3, MaxTables(c), y.pseg);
  }

  /* The writers give these bits. */

  lemma Widths()
    ensures Log2RoundUp(4576) == 13 && Log2RoundUp(4700) == 13 && Log2RoundUp(7) == 3 && Log2RoundUp(3) == 2
    ensures Log2RoundUp(1) == 1 && Log2RoundUp(2) == 2
  {
    assert Log2RoundUp(4576 / 2 / 2 / 2 / 2 / 2 / 2 / 2) == Log2RoundUp(35) == 6;
    assert Log2RoundUp(4700 / 2 / 2 / 2 / 2 / 2 / 2 / 2) == Log2RoundUp(36) == 6;
    assert Log2RoundUp(4576 / 2 / 2 / 2) == 10 && Log2RoundUp(4700 / 2 / 2 / 2) == 10;
  }

  lemma FilterSegmentBits()
    requires Writable(Known().layout.fseg, FilterLimits(Stereo()), 2)
    ensures WriteSegments(Known().layout.fseg, FilterLimits(Stereo()), 2) == [1, 0] + BitsOf(1, 13) + BitsOf(4576, 13) + [1]
  {
    hide BitsOf, Log2RoundUp, Used;
    FilterSegments();
    Widths();
    var l, lens := FilterLimits(Stereo()), [4576];
    assert lens[..0] == [] && Known().layout.fseg.lens[0] == lens;
    assert UnitsField(l, 1, lens, 0) == BitsOf(4576, 13);
    assert WriteLengths(l, 1, true, lens, 1) == [1];
    assert WriteLengths(l, 1, false, lens, 0) == [0] + (BitsOf(1, 13) + BitsOf(4576, 13)) + [1];
  }

  lemma TableSegmentBits()
    requires Writable(Known().layout.pseg, PtableLimits(Stereo()), 2)
    ensures WriteSegments(Known().layout.pseg, PtableLimits(Stereo()), 2)
            == [1, 0] + BitsOf(588, 13) + BitsOf(4, 3) + [0] + BitsOf(1, 2) + [1]
  {
    hide BitsOf, Log2RoundUp, Used;
    TableSegments();
    Widths();
    var l, lens := PtableLimits(Stereo()), [4, 1];
    assert lens[..0] == [] && lens[..1] == [4] && Known().layout.pseg.lens[0] == lens;
    assert UnitsField(l, 588, lens, 0) == BitsOf(4, 3);
    assert UnitsField(l, 588, lens, 1) == BitsOf(1, 2);
    assert WriteLengths(l, 588, true, lens, 2) == [1];
    assert WriteLengths(l, 588, true, lens, 1) == [0] + BitsOf(1, 2) + [1];
    assert WriteLengths(l, 588, false, lens, 0) == [0] + (BitsOf(588, 13) + BitsOf(4, 3)) + ([0] + BitsOf(1, 2) + [1]);
  }

  lemma SmallFields()
    ensures BitsOf(1, 1) == [1] && BitsOf(2, 2) == [1, 0]
  {
    assert BitsOf(0, 0) == [];
  }

  lemma NumberBits()
    ensures WriteNumbers([0, 1], 1) == [1] && WriteNumbers([0, 1, 2], 1) == [1, 1, 0]
  {
    hide BitsOf, Log2RoundUp, CountOf;
    Ordering();
    Widths();
    SmallFields();
    var t: seq<nat>, u: seq<nat> := [0, 1], [0, 1, 2];
    assert t[..1] == [0] && u[..1] == [0] && u[..2] == [0, 1];
    assert WriteNumbers(t, 2) == [] && WriteNumbers(u, 3) == [];
    assert WriteNumbers(u, 2) == [1, 0];
  }

  lemma LayoutBits()
    requires WritableLayout(Known().layout, Stereo())
    ensures WriteLayout(Known().layout, Stereo()) == SegmentWord() + MappingWord()
  {
    hide BitsOf, WriteSegments, WriteNumbers, Writable, WritableMap;
    FilterSegmentBits();
    TableSegmentBits();
    NumberBits();
    var y := Known().layout;
    assert WriteSegs(y, Stereo()) == SegmentWord();
    assert WriteMap(y.fmap) == [1, 1] && WriteMap(y.pmap) == [1, 1, 1, 0];
  }

  lemma PlainWords()
    ensures WritePlain(FILTER, [8]) == BitsOf(8, 9) && WritePlain(PTABLE, [1, 128]) == BitsOf(0, 7) + BitsOf(127, 7)
    ensures WritePlain(FILTER, [100]) == BitsOf(100, 9) && WritePlain(PTABLE, [10, 20]) == BitsOf(9, 7) + BitsOf(19, 7)
  {
    hide BitsOf;
    assert WritePlain(FILTER, []) == [] && WritePlain(PTABLE, []) == [];
    assert [8][1..] == [] && [100][1..] == [];
    assert [1, 128][1..] == [128] && [128][1..] == [] && [10, 20][1..] == [20] && [20][1..] == [];
    assert WritePlain(PTABLE, [128]) == BitsOf(127, 7) && WritePlain(PTABLE, [20]) == BitsOf(19, 7);
  }

  lemma PredictedWords()
    ensures WriteResidues([-8], 0, [100, 100], 1) == [1] && WriteResidues([-16, 8], 0, [10, 20, 30], 2) == [1]
  {
    OneNoResidue();
    assert Continues([100, 100], 1) && Continues([10, 20, 30], 2);
    NothingMissed([-8], 1, 0, [100, 100], 1);
    NothingMissed([-16, 8], 2, 0, [10, 20, 30], 2);
  }

  lemma FilterBits()
    requires WritableHeader(Known(), Stereo(), FILTER_CODINGS, TABLE_CODINGS)
    ensures WriteFilters(Known().filters, FILTER_CODINGS) == FilterWord()
  {
    hide BitsOf, WritePlain, WriteResidues, WritableLayout;
    PlainWords();
    PredictedWords();
    var lists, codings := Known().filters, FILTER_CODINGS;
    assert lists[1..] == [[100, 100]] && codings[1..] == [Predicted(0, 0)] && [100, 100][..1] == [100];
    assert lists[1..][1..] == [] && codings[1..][1..] == [];
    assert WriteList(FILTER, FILTER_TAPS, Plain, [8]) == [0] + BitsOf(8, 9);
    assert WriteList(FILTER, FILTER_TAPS, Predicted(0, 0), [100, 100]) == [1] + BitsOf(0, 2) + BitsOf(100, 9) + BitsOf(0, 3) + [1];
    assert WriteFilters(lists[1..], codings[1..]) == BitsOf(1, 7) + ([1] + BitsOf(0, 2) + BitsOf(100, 9) + BitsOf(0, 3) + [1]);
  }

  lemma TableLists()
    ensures WriteList(PTABLE, PTABLE_TAPS, Plain, [1, 128]) == [0] + BitsOf(0, 7) + BitsOf(127, 7)
    ensures WriteList(PTABLE, PTABLE_TAPS, Predicted(1, 0), [10, 20, 30])
            == [1] + BitsOf(1, 2) + (BitsOf(9, 7) + BitsOf(19, 7)) + BitsOf(0, 3) + [1]
  {
    hide BitsOf, WritePlain, WriteResidues;
    PlainWords();
    PredictedWords();
    assert [10, 20, 30][..2] == [10, 20];
  }

  lemma TableBits()
    requires WritableHeader(Known(), Stereo(), FILTER_CODINGS, TABLE_CODINGS)
    ensures WritePtables(Known().ptables, TABLE_CODINGS) == TableWord()
  {
    hide BitsOf, WriteList, WritableLayout;
    TableLists();
    var lists, codings := Known().ptables, TABLE_CODINGS;
    assert lists[1..] == [[1, 128], [10, 20, 30]] && codings[1..] == [Plain, Predicted(1, 0)];
    assert lists[1..][1..] == [[10, 20, 30]] && codings[1..][1..] == [Predicted(1, 0)];
    assert lists[1..][1..][1..] == [] && codings[1..][1..][1..] == [];
  }

  /** The bits are read as the header, wherever they stand. */
  lemma KnownIsRead(bits: seq<Bit>, pos: nat)
    requires At(bits, pos, SegmentWord() + MappingWord() + FilterWord() + TableWord())
    ensures ReadHeader(bits, pos, Stereo()) == Done(Known(), pos + 155)
  {
    hide At, ReadHeader, WritableHeader, WritableLayout, WriteLayout, WriteFilters, WritePtables, SegmentWord, MappingWord, FilterWord,
      TableWord, Known;
    CanBeWritten();
    LayoutIsWritable();
    LayoutBits();
    FilterBits();
    TableBits();
    WordLengths();
    HeaderRoundTrip(bits, pos, Known(), Stereo(), FILTER_CODINGS, TABLE_CODINGS);
  }

  lemma WordLengths()
    ensures |SegmentWord()| == 52 && |MappingWord()| == 9 && |FilterWord()| == 40 && |TableWord()| == 54
  {
    hide BitsOf;
  }

  lemma LayoutIsWritable()
    requires WritableHeader(Known(), Stereo(), FILTER_CODINGS, TABLE_CODINGS)
    ensures WritableLayout(Known().layout, Stereo())
  {
  }

  /* What it decodes with. */

  lemma KnownCuts()
    ensures Good(Known(), Stereo())
    ensures Partition(Known().layout.fseg, FilterLimits(Stereo()), 2) && Partition(Known().layout.pseg, PtableLimits(Stereo()), 2)
  {
    hide WritableHeader, WritableLayout, WriteLayout, ReadLayout, Known, Good, Partition;
    CanBeWritten();
    WritableIsGood(Known(), Stereo(), FILTER_CODINGS, TABLE_CODINGS);
    LayoutIsWritable();
    WholeAt(WriteLayout(Known().layout, Stereo()));
    LayoutRoundTrip(WriteLayout(Known().layout, Stereo()), 0, Known().layout, Stereo());
    LayoutCuts(WriteLayout(Known().layout, Stereo()), 0, Stereo());
  }

  lemma TableStarts(ch: nat)
    requires ch < 2
    ensures var s := Known().layout.pseg;
            && |s.lens[ch]| == 2
            && StartOf(s, ch, 0) == 0 && StartOf(s, ch, 1) == 18816 && StartOf(s, ch, 2) == 23520
  {
    hide Used;
    TableSegments();
    var lens := Known().layout.pseg.lens[ch];
    assert lens == [4, 1] && lens[..0] == [] && lens[..1] == [4] && lens[..2] == [4, 1];
  }

  /** The probability for a sum x: even odds in the first segment; 1 or 128 in the second, as the sum is below
      eight in size or not; 10, 20 or 30 in the third. */
  lemma KnownProbability(y: seq<Bit>, x: int)
    requires |y| < NumBits(Stereo())
    ensures Good(Known(), Stereo())
    ensures var p, b, size := ProbabilityFor(Known(), Stereo(), y, x), |y| / 2, if x < 0 then -x else x;
            && (b < 18816 ==> p == 128)
            && (18816 <= b < 23520 ==> p == if size < 8 then 1 else 128)
            && (b >= 23520 ==> p == if size < 8 then 10 else if size < 16 then 20 else 30)
  {
    hide Good, ProbabilityFor, StartOf, Partition;
    KnownCuts();
    var b, ch := |y| / 2, |y| % 2;
    TableStarts(ch);
    var i := if b < 18816 then 0 else if b < 23520 then 1 else 2;
    FrameLaws.ProbabilityIs(Known(), Stereo(), y, x, i);
    assert Known().layout.pmap.tables[ch] == [0, 1, 2];
    assert Known().layout.fmap.tables[ch] == [0, 1];
    var t := Known().ptables[i];
    if i > 0 { assert t[0] < t[1] <= t[|t| - 1]; }
  }

  /** The sum over zeros: -8 up to the last filter segment, -200 there. */
  lemma KnownSum(y: seq<Bit>)
    requires |y| < NumBits(Stereo()) && |y| >= 4 && forall i :: 0 <= i < |y| ==> y[i] == 0
    ensures Good(Known(), Stereo()) && ExactSum(Known(), Stereo(), y) == if |y| / 2 < 36608 then -8 else -200
  {
    hide Good, ExactSum, StartOf, Partition, FrameLaws.Before;
    KnownCuts();
    var ch := |y| % 2;
    var s := Known().layout.fseg;
    FilterStarts(ch);
    var past := seq(128, n requires 0 <= n < 128 => FrameLaws.Before(y, 2, n));
    FrameLaws.SumIs(Known(), Stereo(), y, if |y| / 2 < 36608 then 0 else 1, past);
    TwoBefore(y);
    SmallSums(past);
    assert Known().layout.fmap.tables[ch] == [0, 1];
  }

  lemma FilterStarts(ch: nat)
    requires ch < 2
    ensures var s := Known().layout.fseg; |s.lens[ch]| == 1 && StartOf(s, ch, 0) == 0 && StartOf(s, ch, 1) == 36608
  {
    hide Used;
    FilterSegments();
    var lens := Known().layout.fseg.lens[ch];
    assert lens == [4576] && lens[..0] == [] && lens[..1] == lens;
  }

  lemma TwoBefore(y: seq<Bit>)
    requires |y| >= 4 && forall i :: 0 <= i < |y| ==> y[i] == 0
    ensures FrameLaws.Before(y, 2, 0) == 0 && FrameLaws.Before(y, 2, 1) == 0
  {
  }

  lemma SmallSums(past: seq<Bit>)
    requires |past| >= 2 && past[0] == 0 && past[1] == 0
    ensures Predictor.DirectSum(past, [8], 1) == -8 && Predictor.DirectSum(past, [100, 100], 2) == -200
  {
    assert Predictor.DirectSum(past, [8], 0) == 0 && Predictor.DirectSum(past, [100, 100], 0) == 0;
    assert Predictor.DirectSum(past, [100, 100], 1) == -100;
  }

  /* Segments and tables channel by channel. */

  /** Channel 0 cut at byte 4576, channel 1 not at all. */
  function OneCut(): Segments { Segments(0, 1, [[4576], []]) }

  lemma OneCutWritable()
    ensures Writable(OneCut(), FilterLimits(Stereo()), 2)
  {
    hide Used;
    FilterSegments();
    assert OneCut().lens[0] != [];
  }

  lemma OneCutBits()
    requires Writable(OneCut(), FilterLimits(Stereo()), 2)
    ensures WriteSegments(OneCut(), FilterLimits(Stereo()), 2) == [0] + (([0] + BitsOf(1, 13) + BitsOf(4576, 13) + [1]) + [1])
  {
    hide BitsOf, Log2RoundUp, Used;
    FilterSegments();
    Widths();
    var l, lens := FilterLimits(Stereo()), [4576];
    var rows: seq<seq<nat>>, none: seq<nat> := OneCut().lens, [];
    assert lens[..0] == [] && rows[1..] == [none] && rows[1..][1..] == [];
    assert UnitsField(l, 1, lens, 0) == BitsOf(4576, 13);
    assert WriteLengths(l, 1, true, lens, 1) == [1];
    assert WriteLengths(l, 1, false, lens, 0) == [0] + (BitsOf(1, 13) + BitsOf(4576, 13)) + [1];
    assert WriteChannels(l, 1, true, rows[1..]) == [1] + WriteChannels(l, 1, true, []);
    assert WriteChannels(l, 1, true, rows[1..]) == [1];
    assert WriteChannels(l, 1, false, rows) == ([0] + BitsOf(1, 13) + BitsOf(4576, 13) + [1]) + [1];
  }

  /** Not the same for all channels: a length after the resolution, then an end for each channel. */
  lemma OneCutIsRead(bits: seq<Bit>, pos: nat)
    requires At(bits, pos, [0] + (([0] + BitsOf(1, 13) + BitsOf(4576, 13) + [1]) + [1]))
    ensures ReadSegments(bits, pos, FilterLimits(Stereo()), 2) == Done(Segments(0, 1, [[4576], []]), pos + 30)
  {
    hide At, ReadSegments, WriteSegments, Writable, BitsOf;
    OneCutWritable();
    OneCutBits();
    SegmentsRoundTrip(bits, pos, OneCut(), FilterLimits(Stereo()), 2);
  }

  /** Tables 0 and 1 for channel 0, table 1 again for channel 1. */
  function ThreeNumbers(): Mapping { Mapping(0, [[0, 1], [1]], 2) }

  lemma ThreeNumbersCoded()
    ensures Coded(ThreeNumbers()) == [0, 1, 1] && Ordered([0, 1, 1]) && CountOf([0, 1, 1]) == 2
  {
    hide Ordered;
    var rows: seq<seq<nat>>, s: seq<nat> := [[0, 1], [1]], [0, 1, 1];
    assert rows[..1] == [[0, 1]] && rows[..1][..0] == [];
    assert TableMapping.Flat(rows[..1]) == [0, 1];
    Ordering();
    assert s[..2] == [0, 1] && s[..2][..1] == [0];
    FirstUseMeansOrdered([0, 1]);
    FirstUseMeansOrdered(s);
  }

  lemma ThreeNumbersBits()
    ensures WriteMap(ThreeNumbers()) == [0, 1, 0, 1]
  {
    hide BitsOf, Log2RoundUp, CountOf, Ordered, Coded;
    ThreeNumbersCoded();
    Ordering();
    Widths();
    SmallFields();
    OneInTwo();
    var s: seq<nat> := [0, 1, 1];
    assert s[..1] == [0] && s[..2] == [0, 1];
    assert WriteNumbers(s, 3) == [];
    assert WriteNumbers(s, 2) == [0, 1];
  }

  lemma OneInTwo()
    ensures BitsOf(1, 2) == [0, 1]
  {
    assert BitsOf(0, 0) == [] && BitsOf(0, 1) == [0];
  }

  /** Not the same for all channels: the first number is not coded, the second one takes a bit, the third two. */
  lemma ThreeNumbersAreRead(bits: seq<Bit>, pos: nat)
    requires At(bits, pos, [0, 1, 0, 1])
    ensures ReadMap(bits, pos, MaxTables(Stereo()), [2, 1]) == Done(Mapping(0, [[0, 1], [1]], 2), pos + 4)
  {
    hide At, ReadMap, WriteMap, Ordered, CountOf, Coded;
    ThreeNumbersCoded();
    ThreeNumbersBits();
    MapRoundTrip(bits, pos, ThreeNumbers(), MaxTables(Stereo()), [2, 1]);
  }

  /** A first length in bytes is accepted for filters from 128 to 4576, for tables from 4 to 4700: both segments
      must be long enough. */
  lemma LengthsAccepted(bits: seq<Bit>, pos: nat, n: nat)
    requires GetBits(bits, pos, 13) == Done(n, pos + 13)
    ensures ReadUnits(bits, pos, FilterLimits(Stereo()), 1, 0) == if 128 <= n <= 4576 then Done(n, pos + 13) else Fail(INVALID_LENGTH)
    ensures ReadUnits(bits, pos, PtableLimits(Stereo()), 1, 0) == if 4 <= n <= 4700 then Done(n, pos + 13) else Fail(INVALID_LENGTH)
  {
    hide GetBits, Log2RoundUp;
    Widths();
  }
}
