/** The segment and mapping part of a frame header as a whole, and the tables per bit made from it
    (ReadSegmentData and ReadMappingData in unpack_dst.c, FillTable4Bit in dst_fram.c). */
module FrameLayout {
  import opened Bits
  import opened BitReader
  import opened Segmentation
  import opened TableMapping
  import opened FrameTables

  /** What DST_InitDecoder sets up: 588 * SampleRate / 8 bytes per channel, and twice as many filters and
      probability tables as channels. */
  datatype Config = Config(channels: nat, frameLen: nat)

  const MAX_DSDBITS_INFRAME := 37632   // 588 * 64
  const MAX_FRAME_LEN := 4704          // bytes of a channel that the labels have room for

  predicate Usual(c: Config) {
    0 < c.channels <= MAX_CHANNELS && MIN_FSEG_LEN < 8 * c.frameLen && c.frameLen <= MAX_FRAME_LEN
  }

  function FilterLimits(c: Config): Limits { Limits(c.frameLen, MAXNROF_FSEGS, MIN_FSEG_LEN) }

  function PtableLimits(c: Config): Limits { Limits(c.frameLen, MAXNROF_PSEGS, MIN_PSEG_LEN) }

  function MaxTables(c: Config): nat { 2 * c.channels }

  datatype Layout = Layout(
    sameSeg: Bit, fseg: Segments, pseg: Segments,   // segments for the filters and the probability tables
    sameMap: Bit, fmap: Mapping, pmap: Mapping,
    half: seq<Bit>)                                 // per channel: start with probability 1/2

  function Sizes(s: Segments): (r: seq<nat>)
    ensures |r| == |s.lens| && Counted(r)
    ensures forall c {:trigger r[c]} :: 0 <= c < |r| ==> r[c] == |s.lens[c]| + 1
  {
    seq(|s.lens|, c requires 0 <= c < |s.lens| => |s.lens[c]| + 1)
  }

  /** Both segmentations; nine segments in six channels are written past the end of the array. */
  function ReadSegs(bits: seq<Bit>, pos: nat, c: Config): Parse<(Bit, Segments, Segments)>
    requires Usual(c)
  {
    var (same, p) :- GetBits(bits, pos, 1);
    var (f, q) :- ReadSegments(bits, p, FilterLimits(c), c.channels);
    if same == 1 then
      if CopyCheck(f, 0) != 0 then Fail(CopyCheck(f, 0)) else Done((1, f, f), q)
    else
      var (g, r) :- ReadSegments(bits, q, PtableLimits(c), c.channels);
      if Outside(g) then Undefined else Done((0, f, g), r)
  }

  function ReadHalf(bits: seq<Bit>, pos: nat, half: seq<Bit>, n: nat): (r: Parse<seq<Bit>>)
    requires |half| <= n
    ensures r.Done? ==> |r.value| == n
    decreases n - |half|
  {
    if |half| == n then Done(half, pos)
    else
      var (b, p) :- GetBits(bits, pos, 1);
      ReadHalf(bits, p, half + [b], n)
  }

  function ReadMaps(bits: seq<Bit>, pos: nat, c: Config, fsizes: seq<nat>, psizes: seq<nat>): Parse<(Bit, Mapping, Mapping)>
    requires |fsizes| == |psizes| > 0 && Counted(fsizes) && Counted(psizes)
  {
    var (same, p) :- GetBits(bits, pos, 1);
    var (f, q) :- ReadMap(bits, p, MaxTables(c), fsizes);
    if same == 1 then
      var error := CopyMapCheck(fsizes, psizes, 0, f.count, MaxTables(c));
      if error != 0 then Fail(error) else Done((1, f, f), q)
    else
      var (g, r) :- ReadMap(bits, q, MaxTables(c), psizes);
      Done((0, f, g), r)
  }

  lemma SegsShape(bits: seq<Bit>, pos: nat, c: Config)
    requires Usual(c) && ReadSegs(bits, pos, c).Done?
    ensures var v := ReadSegs(bits, pos, c).value;
            |v.1.lens| == |v.2.lens| == c.channels
            && (forall i {:trigger v.1.lens[i]} :: 0 <= i < c.channels ==> |v.1.lens[i]| < MAXNROF_SEGS)
            && (forall i {:trigger v.2.lens[i]} :: 0 <= i < c.channels ==> |v.2.lens[i]| <= MAXNROF_SEGS)
            && (forall i {:trigger v.2.lens[i]} :: 0 <= i < c.channels ==> Index(i, |v.2.lens[i]| + 1) <= CELLS)
  {
    var p := pos + 1;
    AcceptedSegmentsPartition(bits, p, FilterLimits(c), c.channels);
    var f := ReadSegments(bits, p, FilterLimits(c), c.channels);
    if ReadSegs(bits, pos, c).value.0 != 1 {
      AcceptedSegmentsPartition(bits, f.pos, PtableLimits(c), c.channels);
      AcceptedInside(bits, f.pos, PtableLimits(c), c.channels);
    }
  }

  /** Only a shared list has nine segments, and then every channel has. */
  lemma AcceptedInside(bits: seq<Bit>, pos: nat, l: Limits, channels: nat)
    requires Sane(l) && l.maxSegs <= MAXNROF_SEGS && 0 < channels <= MAX_CHANNELS && ReadSegments(bits, pos, l, channels).Done?
    ensures var s := ReadSegments(bits, pos, l, channels).value;
            |s.lens| == channels && (!Outside(s) ==> forall i {:trigger s.lens[i]} :: 0 <= i < channels ==> Index(i, |s.lens[i]| + 1) <= CELLS)
  {
    AcceptedSegmentsPartition(bits, pos, l, channels);
    var s := ReadSegments(bits, pos, l, channels).value;
    if s.same == 1 && !Outside(s) {
      forall i {:trigger s.lens[i]} | 0 <= i < channels ensures Index(i, |s.lens[i]| + 1) <= CELLS {
        assert s.lens[i] == s.lens[0];
      }
    }
  }

  function ReadLayout(bits: seq<Bit>, pos: nat, c: Config): Parse<Layout>
    requires Usual(c)
  {
    var (s, p) :- ReadSegs(bits, pos, c);
    SegsShape(bits, pos, c);
    var (m, q) :- ReadMaps(bits, p, c, Sizes(s.1), Sizes(s.2));
    var (half, r) :- ReadHalf(bits, q, [], c.channels);
    Done(Layout(s.0, s.1, s.2, m.0, m.1, m.2, half), r)
  }

  lemma FiltersInside(bits: seq<Bit>, pos: nat, c: Config)
    requires Usual(c)
    ensures var r := ReadSegments(bits, pos, FilterLimits(c), c.channels); r.Done? ==> !Outside(r.value)
  {
    if ReadSegments(bits, pos, FilterLimits(c), c.channels).Done? {
      AcceptedSegmentsPartition(bits, pos, FilterLimits(c), c.channels);
    }
  }

  /** What the fields of the segmentation mean for the whole of it. */
  lemma SegsCases(bits: seq<Bit>, pos: nat, c: Config)
    requires Usual(c)
    ensures var r := ReadSegs(bits, pos, c);
            var flag := GetBits(bits, pos, 1);
            var f := ReadSegments(bits, pos + 1, FilterLimits(c), c.channels);
            && (flag.Fail? ==> r == Fail(flag.error))
            && (flag.Done? && f.Fail? ==> r == Fail(f.error))
            && (flag.Done? && f.Done? && flag.value == 1 ==>
                  r == if CopyCheck(f.value, 0) != 0 then Fail(CopyCheck(f.value, 0)) else Done((1, f.value, f.value), f.pos))
            && (flag.Done? && f.Done? && flag.value != 1 ==>
                  var g := ReadSegments(bits, f.pos, PtableLimits(c), c.channels);
                  && (g.Fail? ==> r == Fail(g.error))
                  && (g.Done? ==> r == if Outside(g.value) then Undefined else Done((0, f.value, g.value), g.pos)))
  {
    hide ReadSegments, CopyCheck, Outside;
  }

  method ReadSegmentData(SD: StrData, c: Config, F: Segment, P: Segment)
    returns (error: int, ghost f: Segments, ghost g: Segments, ghost same: Bit)
    requires SD.Valid() && Usual(c) && F.Valid() && P.Valid()
    requires F != P && F.SegmentLen != P.SegmentLen && F.NrOfSegments != P.NrOfSegments
    requires F.SegmentLen != P.NrOfSegments && F.NrOfSegments != P.SegmentLen
    requires !ReadSegs(SD.Bits(), SD.Pos(), c).Undefined?
    modifies SD, F, F.SegmentLen, F.NrOfSegments, P, P.SegmentLen, P.NrOfSegments
    ensures SD.data == old(SD.data)
    ensures error == 0 || ReadSegs(SD.Bits(), old(SD.Pos()), c) == Fail(error)
    ensures error == 0 ==>
              SD.Valid() && F.Holds(f) && P.Holds(g) && ReadSegs(SD.Bits(), old(SD.Pos()), c) == Done((same, f, g), SD.Pos())
  {
    hide GetBits, ReadSegments, CopyCheck, ReadSegs, Outside, Partition;
    f, g, same := Segments(0, 0, []), Segments(0, 0, []), 0;
    ghost var start := SD.Pos();
    SegsCases(SD.Bits(), start, c);
    var pSameSegAsF;
    error, pSameSegAsF := ReadInt(SD, 1);
    if error != 0 {
      return;
    }
    FiltersInside(SD.Bits(), start + 1, c);
    error, f := ReadTableSegmentData(SD, c.channels, FilterLimits(c), F);
    if error != 0 {
      return;
    }
    AcceptedSegmentsPartition(SD.Bits(), start + 1, FilterLimits(c), c.channels);
    if pSameSegAsF == 1 {
      error := CopySegmentData(F, P, c.channels, f);
      g, same := f, 1;
    } else {
      error, g := ReadTableSegmentData(SD, c.channels, PtableLimits(c), P);
    }
  }

  method ReadHalfProb(SD: StrData, HalfProb: array<nat>, channels: nat) returns (error: int, ghost half: seq<Bit>)
    requires SD.Valid() && channels <= HalfProb.Length
    modifies SD, HalfProb
    ensures SD.data == old(SD.data)
    ensures error == 0 || ReadHalf(SD.Bits(), old(SD.Pos()), [], channels) == Fail(error)
    ensures error == 0 ==> SD.Valid() && |half| == channels && (forall c :: 0 <= c < channels ==> HalfProb[c] == half[c])
                           && ReadHalf(SD.Bits(), old(SD.Pos()), [], channels) == Done(half, SD.Pos())
  {
    half := [];
    ghost var all := ReadHalf(SD.Bits(), SD.Pos(), [], channels);
    var j: nat := 0;
    while j < channels
      invariant SD.Valid() && SD.data == old(SD.data) && j == |half| <= channels
      invariant forall c :: 0 <= c < j ==> HalfProb[c] == half[c]
      invariant all == ReadHalf(SD.Bits(), SD.Pos(), half, channels)
    {
      var b;
      error, b := ReadInt(SD, 1);
      if error != 0 {
        return;
      }
      HalfProb[j] := b;
      assert Pow2(1) == 2;
      half := half + [b];
      j := j + 1;
    }
    error := 0;
  }

  lemma FewAreKept(m: Mapping, sizes: seq<nat>)
    requires |m.tables| == |sizes| && Sized(m.tables, sizes) && forall i {:trigger sizes[i]} :: 0 <= i < |sizes| ==> sizes[i] <= MAXNROF_SEGS
    ensures Seen(m) == m.tables
  {
    forall i {:trigger m.tables[i]} | 0 <= i < |m.tables| ensures |m.tables[i]| <= MAXNROF_SEGS { assert |m.tables[i]| == sizes[i]; }
    EightAreKept(m);
  }

  method ReadMappingData(SD: StrData, c: Config, F: Segment, P: Segment, ghost fsizes: seq<nat>, ghost psizes: seq<nat>)
    returns (error: int, nrOfFilters: nat, nrOfPtables: nat, ghost f: Mapping, ghost g: Mapping, ghost same: Bit)
    requires SD.Valid() && F.Valid() && P.Valid() && F.Table4Segment != P.Table4Segment
    requires Counts(F, fsizes) && Counts(P, psizes) && |fsizes| == |psizes| == c.channels
    requires forall i {:trigger fsizes[i]} :: 0 <= i < c.channels ==> fsizes[i] <= MAXNROF_SEGS
    modifies SD, F.Table4Segment, P.Table4Segment
    ensures SD.data == old(SD.data)
    ensures error == 0 || ReadMaps(SD.Bits(), old(SD.Pos()), c, fsizes, psizes) == Fail(error)
    ensures error == 0 ==>
              && SD.Valid() && F.Maps(Seen(f)) && P.Maps(Seen(g)) && nrOfFilters == f.count && nrOfPtables == g.count
              && ReadMaps(SD.Bits(), old(SD.Pos()), c, fsizes, psizes) == Done((same, f, g), SD.Pos())
  {
    hide GetBits, ReadMap, CopyMapCheck;
    nrOfFilters, nrOfPtables, f, g, same := 0, 0, Mapping(0, [], 0), Mapping(0, [], 0), 0;
    ghost var start := SD.Pos();
    var pSameMapAsF;
    error, pSameMapAsF := ReadInt(SD, 1);
    if error != 0 {
      return;
    }
    error, nrOfFilters, f := ReadTableMappingData(SD, c.channels, MaxTables(c), F, fsizes);
    if error != 0 {
      return;
    }
    if pSameMapAsF == 1 {
      FewAreKept(f, fsizes);
      error, nrOfPtables := CopyMappingData(F, P, c.channels, nrOfFilters, MaxTables(c), fsizes, psizes, f);
      g, same := f, 1;
    } else {
      error, nrOfPtables, g := ReadTableMappingData(SD, c.channels, MaxTables(c), P, psizes);
    }
  }

  /** What FillTable4Bit's caller has: arrays that hold an accepted segmentation and its mapping. */
  ghost predicate Labelled(S: Segment, s: Segments, tables: seq<seq<nat>>, l: Limits, channels: nat)
    requires S.Valid()
    reads S, S.SegmentLen, S.NrOfSegments, S.Table4Segment
  {
    && channels <= MAX_CHANNELS && S.Holds(s) && S.Maps(tables) && Partition(s, l, channels) && |tables| == channels
    && forall c {:trigger tables[c]} :: 0 <= c < channels ==> |tables[c]| == |s.lens[c]| + 1
  }

  lemma StartNext(s: Segments, l: Limits, channels: nat, c: nat, i: nat)
    requires Partition(s, l, channels) && c < channels && i < |s.lens[c]|
    ensures StartOf(s, c, i + 1) == StartOf(s, c, i) + 8 * (s.resolution * s.lens[c][i])
    ensures StartOf(s, c, i + 1) <= 8 * l.frameLen
  {
    UsedStep(s.resolution, s.lens[c], i);
    StartsIncreaseTo(s, l, channels, c, i + 1);
  }

  method FillStretch(T: array2<nat>, c: nat, start: nat, end: nat, val: nat)
    requires c < T.Length0 && start <= end <= T.Length1
    modifies T
    ensures forall b :: start <= b < end ==> T[c, b] == val
    ensures forall d, b :: 0 <= d < T.Length0 && 0 <= b < T.Length1 && (d != c || b < start || end <= b) ==> T[d, b] == old(T[d, b])
  {
    for bitNr := start to end
      invariant forall b :: start <= b < bitNr ==> T[c, b] == val
      invariant forall d, b :: 0 <= d < T.Length0 && 0 <= b < T.Length1 && (d != c || b < start || bitNr <= b) ==> T[d, b] == old(T[d, b])
    {
      T[c, bitNr] := val;
    }
  }

  lemma StretchIs(s: Segments, tables: seq<seq<nat>>, l: Limits, channels: nat, c: nat, i: nat)
    requires Partition(s, l, channels) && c < channels == |tables| && i <= |s.lens[c]|
    requires |tables[c]| == |s.lens[c]| + 1
    ensures StartOf(s, c, i) <= EndOf(s, l.frameLen, c, i) <= 8 * l.frameLen
    ensures forall b :: StartOf(s, c, i) <= b < EndOf(s, l.frameLen, c, i) ==> TableAt(s, tables, c, b) == tables[c][i]
  {
    assert StartOf(s, c, i) + l.minLen <= EndOf(s, l.frameLen, c, i);
    if i < |s.lens[c]| { StartsIncreaseTo(s, l, channels, c, i + 1); }
    forall b: nat | StartOf(s, c, i) <= b < EndOf(s, l.frameLen, c, i) ensures TableAt(s, tables, c, b) == tables[c][i] {
      TableAtIs(s, tables, l, channels, c, b, i);
    }
  }

  /** One channel of FillTable4Bit: consecutive stretches, the last one to the end of the frame. */
  method FillChannel(S: Segment, c: nat, nrOfBitsPerCh: nat, T: array2<nat>, ghost s: Segments, ghost tables: seq<seq<nat>>,
                     ghost l: Limits, ghost channels: nat)
    requires S.Valid() && Labelled(S, s, tables, l, channels) && c < channels && nrOfBitsPerCh == 8 * l.frameLen
    requires channels <= T.Length0 && nrOfBitsPerCh <= T.Length1
    modifies T
    ensures forall b :: 0 <= b < nrOfBitsPerCh ==> T[c, b] == TableAt(s, tables, c, b)
    ensures forall d, b :: 0 <= d < T.Length0 && 0 <= b < T.Length1 && d != c ==> T[d, b] == old(T[d, b])
  {
    assert S.Row(c, s.lens[c]) && S.RowMaps(c, tables[c]);
    var segNr: nat, start: nat := 0, 0;
    assert StartOf(s, c, 0) == 0;
    hide TableAt, Used;
    while segNr < S.NrOfSegments[c] - 1
      invariant segNr <= |s.lens[c]| && start == StartOf(s, c, segNr) <= nrOfBitsPerCh
      invariant forall b :: 0 <= b < start ==> T[c, b] == TableAt(s, tables, c, b)
      invariant forall d, b :: 0 <= d < T.Length0 && 0 <= b < T.Length1 && d != c ==> T[d, b] == old(T[d, b])
    {
      var val := S.Table4Segment[Index(c, segNr)];
      Reassociate(S.Resolution, S.SegmentLen[Index(c, segNr)]);
      StartNext(s, l, channels, c, segNr);
      StretchIs(s, tables, l, channels, c, segNr);
      var end := start + S.Resolution * 8 * S.SegmentLen[Index(c, segNr)];
      FillStretch(T, c, start, end, val);
      start := start + S.Resolution * 8 * S.SegmentLen[Index(c, segNr)];
      segNr := segNr + 1;
    }
    StretchIs(s, tables, l, channels, c, segNr);
    FillStretch(T, c, start, nrOfBitsPerCh, S.Table4Segment[Index(c, segNr)]);
  }

  /** FillTable4Bit: every bit of every channel is labelled with the table of its segment. */
  method FillTable4Bit(channels: nat, nrOfBitsPerCh: nat, S: Segment, T: array2<nat>, ghost s: Segments,
                       ghost tables: seq<seq<nat>>, ghost l: Limits)
    requires S.Valid() && Labelled(S, s, tables, l, channels) && nrOfBitsPerCh == 8 * l.frameLen
    requires channels <= T.Length0 && nrOfBitsPerCh <= T.Length1
    modifies T
    ensures forall c, b :: 0 <= c < channels && 0 <= b < nrOfBitsPerCh ==> T[c, b] == TableAt(s, tables, c, b)
  {
    for ch := 0 to channels
      invariant forall c, b :: 0 <= c < ch && 0 <= b < nrOfBitsPerCh ==> T[c, b] == TableAt(s, tables, c, b)
    {
      FillChannel(S, ch, nrOfBitsPerCh, T, s, tables, l, channels);
    }
  }

  /* Writing a layout, and reading it back. */

  ghost predicate WritableLayout(y: Layout, c: Config) {
    && Usual(c) && Writable(y.fseg, FilterLimits(c), c.channels) && Writable(y.pseg, PtableLimits(c), c.channels)
    && !Outside(y.pseg) && (y.sameSeg == 1 ==> y.pseg == y.fseg && CopyCheck(y.fseg, 0) == 0)
    && WritableMap(y.fmap, MaxTables(c), Sizes(y.fseg)) && WritableMap(y.pmap, MaxTables(c), Sizes(y.pseg))
    && (y.sameMap == 1 ==> y.pmap == y.fmap && Sizes(y.fseg) == Sizes(y.pseg))
    && |y.half| == c.channels
  }

  function WriteSegs(y: Layout, c: Config): seq<Bit>
    requires WritableLayout(y, c)
  {
    [y.sameSeg] + WriteSegments(y.fseg, FilterLimits(c), c.channels)
    + if y.sameSeg == 1 then [] else WriteSegments(y.pseg, PtableLimits(c), c.channels)
  }

  function WriteMaps(y: Layout): seq<Bit> {
    [y.sameMap] + WriteMap(y.fmap) + if y.sameMap == 1 then [] else WriteMap(y.pmap)
  }

  function WriteLayout(y: Layout, c: Config): seq<Bit>
    requires WritableLayout(y, c)
  {
    WriteSegs(y, c) + WriteMaps(y) + y.half
  }

  lemma SegsReadBack(bits: seq<Bit>, pos: nat, y: Layout, c: Config)
    requires WritableLayout(y, c) && At(bits, pos, WriteSegs(y, c))
    ensures ReadSegs(bits, pos, c) == Done((y.sameSeg, y.fseg, y.pseg), pos + |WriteSegs(y, c)|)
  {
    hide At, GetBits, ReadSegments, WriteSegments, CopyCheck, Writable;
    var w := WriteSegments(y.fseg, FilterLimits(c), c.channels);
    var rest := if y.sameSeg == 1 then [] else WriteSegments(y.pseg, PtableLimits(c), c.channels);
    AtSplit(bits, pos, [y.sameSeg] + w, rest);
    AtSplit(bits, pos, [y.sameSeg], w);
    ReadFlag(bits, pos, y.sameSeg);
    SegmentsRoundTrip(bits, pos + 1, y.fseg, FilterLimits(c), c.channels);
    if y.sameSeg != 1 {
      SegmentsRoundTrip(bits, pos + 1 + |w|, y.pseg, PtableLimits(c), c.channels);
    }
  }

  lemma MapsReadBack(bits: seq<Bit>, pos: nat, y: Layout, c: Config)
    requires WritableLayout(y, c) && At(bits, pos, WriteMaps(y))
    ensures ReadMaps(bits, pos, c, Sizes(y.fseg), Sizes(y.pseg)) == Done((y.sameMap, y.fmap, y.pmap), pos + |WriteMaps(y)|)
  {
    var w := WriteMap(y.fmap);
    var rest := if y.sameMap == 1 then [] else WriteMap(y.pmap);
    hide At, GetBits, ReadMap, WriteMap, CopyMapCheck, Writable, Sizes, MaxTables, WritableMap;
    AtSplit(bits, pos, [y.sameMap] + w, rest);
    AtSplit(bits, pos, [y.sameMap], w);
    ReadFlag(bits, pos, y.sameMap);
    MapRoundTrip(bits, pos + 1, y.fmap, MaxTables(c), Sizes(y.fseg));
    if y.sameMap == 1 {
      CopyMapPasses(y, c);
    } else {
      MapRoundTrip(bits, pos + 1 + |w|, y.pmap, MaxTables(c), Sizes(y.pseg));
    }
  }

  lemma CopyMapPasses(y: Layout, c: Config)
    requires WritableLayout(y, c) && y.sameMap == 1
    ensures CopyMapCheck(Sizes(y.fseg), Sizes(y.pseg), 0, y.fmap.count, MaxTables(c)) == 0
  {
    CopyMapAccepts(Sizes(y.fseg), Sizes(y.pseg), 0, y.fmap.count, MaxTables(c));
  }

  lemma {:induction false} HalfReadBack(bits: seq<Bit>, pos: nat, half: seq<Bit>, i: nat)
    requires i <= |half| && At(bits, pos, half[i..])
    ensures ReadHalf(bits, pos, half[..i], |half|) == Done(half, pos + |half| - i)
    decreases |half| - i
  {
    if i == |half| {
      assert half[..i] == half;
    } else {
      assert half[i..] == [half[i]] + half[i + 1..];
      AtSplit(bits, pos, [half[i]], half[i + 1..]);
      ReadFlag(bits, pos, half[i]);
      HalfReadBack(bits, pos + 1, half, i + 1);
      Snoc(half, i);
    }
  }

  /** Every layout that can be written reads back as itself, using exactly its bits. */
  lemma LayoutRoundTrip(bits: seq<Bit>, pos: nat, y: Layout, c: Config)
    requires WritableLayout(y, c) && At(bits, pos, WriteLayout(y, c))
    ensures ReadLayout(bits, pos, c) == Done(y, pos + |WriteLayout(y, c)|)
  {
    hide At, ReadSegs, ReadMaps, WriteSegs, WriteMaps, Writable, WritableMap;
    AtSplit(bits, pos, WriteSegs(y, c) + WriteMaps(y), y.half);
    AtSplit(bits, pos, WriteSegs(y, c), WriteMaps(y));
    SegsReadBack(bits, pos, y, c);
    MapsReadBack(bits, pos + |WriteSegs(y, c)|, y, c);
    assert y.half[0..] == y.half && y.half[..0] == [];
    HalfReadBack(bits, pos + |WriteSegs(y, c)| + |WriteMaps(y)|, y.half, 0);
  }

  /* What an accepted layout gives the decoder. */

  /** The segments cut every channel from start to end. */
  ghost predicate Cuts(y: Layout, c: Config) {
    Partition(y.fseg, FilterLimits(c), c.channels) && Partition(y.pseg, PtableLimits(c), c.channels)
  }

  lemma LayoutCuts(bits: seq<Bit>, pos: nat, c: Config)
    requires Usual(c) && ReadLayout(bits, pos, c).Done?
    ensures Cuts(ReadLayout(bits, pos, c).value, c)
  {
    hide GetBits, ReadMaps, ReadHalf, ReadSegments;
    var s := ReadSegs(bits, pos, c);
    AcceptedSegmentsPartition(bits, pos + 1, FilterLimits(c), c.channels);
    var f := ReadSegments(bits, pos + 1, FilterLimits(c), c.channels);
    if s.value.0 == 1 {
      ShorterMinimum(f.value, FilterLimits(c), PtableLimits(c), c.channels);
    } else {
      AcceptedSegmentsPartition(bits, f.pos, PtableLimits(c), c.channels);
    }
  }

  lemma ShorterMinimum(s: Segments, l: Limits, k: Limits, channels: nat)
    requires Partition(s, l, channels) && k.minLen <= l.minLen && k.frameLen == l.frameLen
    ensures Partition(s, k, channels)
  {
    forall c, i | 0 <= c < channels && 0 <= i <= |s.lens[c]|
      ensures StartOf(s, c, i) + k.minLen <= EndOf(s, k.frameLen, c, i)
    {
      assert StartOf(s, c, i) + l.minLen <= EndOf(s, l.frameLen, c, i);
    }
  }

  lemma AcceptedMapStarts(bits: seq<Bit>, pos: nat, maxTables: nat, sizes: seq<nat>)
    requires |sizes| > 0 && Counted(sizes) && ReadMap(bits, pos, maxTables, sizes).Done?
    ensures StartsWithZero(ReadMap(bits, pos, maxTables, sizes).value)
  {
    AcceptedMapping(bits, pos, maxTables, sizes);
    var m := ReadMap(bits, pos, maxTables, sizes).value;
    if m.same == 1 {
      forall c {:trigger m.tables[c]} | 0 <= c < |m.tables| ensures m.tables[c] != [] && m.tables[c][0] == 0 {
        assert m.tables[c] == m.tables[0] && |m.tables[c]| == sizes[c];
        assert m.tables[0][0] > 0 ==> !SeenBefore(m.tables[0], 0, 0);
      }
    }
  }

  /** The mappings of an accepted layout. */
  lemma AcceptedMaps(bits: seq<Bit>, pos: nat, c: Config, f: Segments, g: Segments)
    requires |f.lens| == |g.lens| == c.channels > 0 && ReadMaps(bits, pos, c, Sizes(f), Sizes(g)).Done?
    requires forall i {:trigger f.lens[i]} :: 0 <= i < c.channels ==> |f.lens[i]| < MAXNROF_SEGS
    ensures var v := ReadMaps(bits, pos, c, Sizes(f), Sizes(g)).value;
            && StartsWithZero(v.1) && StartsWithZero(v.2) && Seen(v.1) == v.1.tables
            && |v.1.tables| == |v.2.tables| == c.channels
            && (forall i {:trigger v.2.tables[i]} :: 0 <= i < c.channels ==> |v.2.tables[i]| == |g.lens[i]| + 1)
  {
    var m := ReadMap(bits, pos + 1, MaxTables(c), Sizes(f));
    AcceptedMapStarts(bits, pos + 1, MaxTables(c), Sizes(f));
    forall i {:trigger Sizes(f)[i]} | 0 <= i < c.channels ensures Sizes(f)[i] <= MAXNROF_SEGS { assert |f.lens[i]| < MAXNROF_SEGS; }
    FewAreKept(m.value, Sizes(f));
    var v := ReadMaps(bits, pos, c, Sizes(f), Sizes(g)).value;
    if v.0 == 1 {
      CopyMapAccepts(Sizes(f), Sizes(g), 0, m.value.count, MaxTables(c));
      assert Sizes(f)[0..] == Sizes(f) && Sizes(g)[0..] == Sizes(g);
    } else {
      AcceptedMapStarts(bits, m.pos, MaxTables(c), Sizes(g));
    }
    forall i {:trigger v.2.tables[i]} | 0 <= i < c.channels ensures |v.2.tables[i]| == |g.lens[i]| + 1 {
      assert |v.2.tables[i]| == Sizes(g)[i];
    }
  }

  /** In an accepted layout every bit's filter is the one coded for its segment; every bit's probability
      table is, too, if and only if no ninth number is lost. */
  lemma AcceptedLabels(bits: seq<Bit>, pos: nat, c: Config)
    requires Usual(c) && ReadLayout(bits, pos, c).Done?
    ensures var y := ReadLayout(bits, pos, c).value;
            && |y.pseg.lens| == |y.pmap.tables| == c.channels
            && (forall ch {:trigger y.pmap.tables[ch]} :: 0 <= ch < c.channels ==> |y.pmap.tables[ch]| == |y.pseg.lens[ch]| + 1)
            && Seen(y.fmap) == y.fmap.tables
            && ((forall ch, b {:trigger TableAt(y.pseg, y.pmap.tables, ch, b)} :: 0 <= ch < c.channels && 0 <= b < 8 * c.frameLen ==>
                   TableAt(y.pseg, Seen(y.pmap), ch, b) == TableAt(y.pseg, y.pmap.tables, ch, b))
                <==> NinthKept(y.pmap))
  {
    hide GetBits, ReadSegs, ReadMaps, ReadHalf, TableAt, Seen, NinthKept, StartsWithZero, Partition;
    var y := ReadLayout(bits, pos, c).value;
    var s := ReadSegs(bits, pos, c);
    SegsShape(bits, pos, c);
    AcceptedMaps(bits, s.pos, c, s.value.1, s.value.2);
    LayoutCuts(bits, pos, c);
    LabelsExactly(y.pseg, y.pmap, PtableLimits(c), c.channels);
  }

  /* A frame whose labels come out wrong. */

  /** Two channels that share nine segments and their tables; only the ninth segment has table 1. */
  function NineSegments(): Layout {
    Layout(0, Segments(1, 1, Copies([], 2)), Segments(1, 4, Copies(Copies(1, 8), 2)),
           0, Mapping(1, Copies([0], 2), 1), Mapping(1, Copies(NineNumbers(), 2), 2), [0, 0])
  }

  lemma {:induction false} OnlyZeros(n: nat)
    ensures FirstUse(Copies<nat>(0, n)) && CountOf(Copies<nat>(0, n)) == if n == 0 then 0 else 1
  {
    var s := Copies<nat>(0, n);
    if n > 0 {
      OnlyZeros(n - 1);
      assert s[..|s| - 1] == Copies<nat>(0, n - 1);
    }
  }

  /** The numbers of the ninth segments' table. */
  function NineNumbers(): (r: seq<nat>)
    ensures |r| == 9 && r[8] == 1 && forall i :: 0 <= i < 8 ==> r[i] == 0
  {
    Copies<nat>(0, 8) + [1]
  }

  lemma NumbersOrdered()
    ensures Ordered(NineNumbers()) && CountOf(NineNumbers()) == 2
    ensures Ordered([0]) && CountOf([0]) == 1
  {
    OnlyZeros(8);
    assert NineNumbers()[..8] == Copies<nat>(0, 8);
    FirstUseMeansOrdered(NineNumbers());
    OnlyZeros(1);
    assert Copies<nat>(0, 1) == [0];
    FirstUseMeansOrdered([0]);
  }

  lemma SharedMapWritable(row: seq<nat>, count: nat, maxTables: nat, s: Segments)
    requires row != [] && Ordered(row) && CountOf(row) == count <= maxTables
    requires |s.lens| == 2 && |row| == |s.lens[0]| + 1 == |s.lens[1]| + 1
    ensures WritableMap(Mapping(1, Copies(row, 2), count), maxTables, Sizes(s))
  {
    hide Ordered, CountOf;
    var m := Mapping(1, Copies(row, 2), count);
    assert m.tables[0] == m.tables[1] == row;
  }

  lemma NineSegmentsWritable()
    ensures WritableLayout(NineSegments(), Config(2, MAX_FRAME_LEN))
  {
    hide Ordered, CountOf, WritableMap, Writable, FitsSoFar;
    var c, y := Config(2, MAX_FRAME_LEN), NineSegments();
    NumbersOrdered();
    OneSegmentMore(PtableLimits(c), 2);
    OneSegmentWritable(FilterLimits(c));
    SharedMapWritable([0], 1, MaxTables(c), y.fseg);
    SharedMapWritable(NineNumbers(), 2, MaxTables(c), y.pseg);
  }

  lemma OneSegmentWritable(l: Limits)
    requires Sane(l)
    ensures Writable(Segments(1, 1, Copies([], 2)), l, 2)
  {
    var s := Segments(1, 1, Copies<seq<nat>>([], 2));
    NoLengthFits(l);
    assert s.lens[0] == [];
    NoLength(s.lens);
  }

  lemma NoLengthFits(l: Limits)
    requires Sane(l)
    ensures FitsSoFar(l, 1, [])
  {
  }

  /** The layout is written and read back, but of its labels the last segments' are lost: table 1 was coded
      for them, and the arrays say table 0. */
  lemma NinthLabelLost(ch: nat, b: nat)
    requires ch < 2 && 256 <= b < 8 * MAX_FRAME_LEN
    ensures var c, y := Config(2, MAX_FRAME_LEN), NineSegments();
            && WritableLayout(y, c) && ReadLayout(WriteLayout(y, c), 0, c) == Done(y, |WriteLayout(y, c)|)
            && !NinthKept(y.pmap)
            && TableAt(y.pseg, y.pmap.tables, ch, b) == 1 && TableAt(y.pseg, Seen(y.pmap), ch, b) == 0
  {
    hide WritableLayout, WriteLayout, ReadLayout, At;
    var c, y := Config(2, MAX_FRAME_LEN), NineSegments();
    NineSegmentsWritable();
    WholeAt(WriteLayout(y, c));
    LayoutRoundTrip(WriteLayout(y, c), 0, y, c);
    NinthStart(ch);
    assert SegmentAt(y.pseg, ch, b, 8) == 8;
    assert y.pmap.tables[ch][8] == 1;
  }

  lemma NinthStart(ch: nat)
    requires ch < 2
    ensures |NineSegments().pseg.lens[ch]| == 8 && StartOf(NineSegments().pseg, ch, 8) == 256
  {
    hide Used;
    UsedCopies(4, 1, 8);
    var lens := NineSegments().pseg.lens[ch];
    assert lens == Copies(1, 8) && lens[..8] == lens;
  }

  lemma WholeAt(w: seq<Bit>)
    ensures At(w, 0, w)
  {
    assert w[0..0 + |w|] == w;
  }
}
