/** The segmentation and mapping readers of unpack_dst.c, on the arrays they fill. */
module FrameTables {
  import opened Bits
  import opened BitReader
  import opened Segmentation
  import opened TableMapping

  const MAX_CHANNELS := 6
  const MAXNROF_SEGS := 8
  const MOST_SEGS := 9            // a shared list may have one segment more than the limit
  const CELLS := 48               // MAX_CHANNELS * MAXNROF_SEGS

  /** Where [c][i] lies in an int[MAX_CHANNELS][MAXNROF_SEGS]: the ninth entry of a row is the first of the next. */
  function Index(c: nat, i: nat): nat { 8 * c + i }

  class Segment {
    var Resolution: nat
    const SegmentLen: array<nat>
    const NrOfSegments: array<nat>
    const Table4Segment: array<nat>

    constructor ()
      ensures Valid() && fresh(SegmentLen) && fresh(NrOfSegments) && fresh(Table4Segment)
    {
      Resolution := 0;
      SegmentLen := new nat[CELLS];
      NrOfSegments := new nat[MAX_CHANNELS];
      Table4Segment := new nat[CELLS];
    }

    ghost predicate Valid() {
      && SegmentLen.Length == Table4Segment.Length == CELLS && NrOfSegments.Length == MAX_CHANNELS
      && SegmentLen != Table4Segment && SegmentLen != NrOfSegments && Table4Segment != NrOfSegments
    }

    /** These lengths of channel c are in place. */
    ghost predicate Prefix(c: nat, lens: seq<nat>)
      requires Valid() && c < MAX_CHANNELS
      reads SegmentLen
    {
      |lens| <= MAXNROF_SEGS && forall i :: 0 <= i < |lens| ==> SegmentLen[Index(c, i)] == lens[i]
    }

    /** Channel c has these lengths before its last segment, and a zero after them if the row has room for it. */
    ghost predicate Row(c: nat, lens: seq<nat>)
      requires Valid() && c < MAX_CHANNELS
      reads SegmentLen, NrOfSegments
    {
      && |lens| <= MAXNROF_SEGS && NrOfSegments[c] == |lens| + 1 && Prefix(c, lens)
      && (|lens| < MAXNROF_SEGS ==> SegmentLen[Index(c, |lens|)] == 0)
    }

    ghost predicate Holds(s: Segments)
      requires Valid()
      reads this, SegmentLen, NrOfSegments
    {
      && Resolution == s.resolution && |s.lens| <= MAX_CHANNELS
      && forall c {:trigger s.lens[c]} :: 0 <= c < |s.lens| ==> Row(c, s.lens[c])
    }

    ghost predicate Maps(tables: seq<seq<nat>>)
      requires Valid()
      reads Table4Segment
    {
      && |tables| <= MAX_CHANNELS
      && forall c {:trigger tables[c]} :: 0 <= c < |tables| ==> RowMaps(c, tables[c])
    }

    ghost predicate RowMaps(c: nat, row: seq<nat>)
      requires Valid() && c < MAX_CHANNELS
      reads Table4Segment
    {
      |row| <= MOST_SEGS && Index(c, |row|) <= CELLS && forall i :: 0 <= i < |row| ==> Table4Segment[Index(c, i)] == row[i]
    }
  }

  /** What the readers keep about the resolution and the space left (lines 225-231). */
  ghost predicate Running(S: Segment, l: Limits, resolRead: bool, maxSegSize: int, definedBits: int, res: nat, lens: seq<nat>)
    requires Sane(l)
    reads S
  {
    && FitsSoFar(l, res, lens) && (resolRead <==> res > 0) && (resolRead ==> S.Resolution == res)
    && maxSegSize == Room(l) - Used(res, lens) && definedBits == 8 * Used(res, lens)
  }

  lemma Reassociate(res: nat, len: nat)
    ensures res * 8 * len == 8 * (res * len)
  {
  }

  lemma WidthFits(l: Limits, room: nat, res: nat)
    requires Sane(l) && res > 0 && room <= Room(l)
    ensures Log2RoundUp(room / res) <= 16
  {
    DivSmaller(room, res);
    Log2Small(room / res);
  }

  /** The resolution (lines 247-255, 296-304). */
  method ReadResolutionField(SD: StrData, l: Limits, S: Segment) returns (error: int)
    requires SD.Valid() && Sane(l)
    modifies SD, S`Resolution
    ensures SD.data == old(SD.data)
    ensures error == 0 || ReadResolution(SD.Bits(), old(SD.Pos()), l, 0) == Fail(error)
    ensures error == 0 ==> SD.Valid() && ReadResolution(SD.Bits(), old(SD.Pos()), l, 0) == Done(S.Resolution, SD.Pos())
  {
    Log2Small(Room(l));
    var nrOfBits := ComputeLog2(l.frameLen - l.minLen / 8);
    var v;
    error, v := ReadInt(SD, nrOfBits);
    if error != 0 {
      return;
    }
    S.Resolution := v;
    if S.Resolution == 0 || S.Resolution > l.frameLen - l.minLen / 8 {
      return INVALID_RESOLUTION;
    }
    return 0;
  }

  /** A length in units of the resolution (lines 257-266, 306-315). */
  method ReadUnitsField(SD: StrData, l: Limits, S: Segment, c: nat, i: nat, res: nat, maxSegSize: nat, definedBits: nat)
    returns (error: int)
    requires SD.Valid() && Sane(l) && S.Valid() && c < MAX_CHANNELS && i < MAXNROF_SEGS
    requires res > 0 && maxSegSize <= Room(l) && definedBits == 8 * (Room(l) - maxSegSize)
    modifies SD, S.SegmentLen
    ensures SD.data == old(SD.data)
    ensures forall j :: 0 <= j < CELLS && j != Index(c, i) ==> S.SegmentLen[j] == old(S.SegmentLen[j])
    ensures error == 0 || ReadUnits(SD.Bits(), old(SD.Pos()), l, res, Room(l) - maxSegSize) == Fail(error)
    ensures error == 0 ==>
              SD.Valid()
              && ReadUnits(SD.Bits(), old(SD.Pos()), l, res, Room(l) - maxSegSize) == Done(S.SegmentLen[Index(c, i)], SD.Pos())
  {
    hide Pow2, Value, Used;
    WidthFits(l, maxSegSize, res);
    var nrOfBits := ComputeLog2(maxSegSize / res);
    var len;
    error, len := ReadInt(SD, nrOfBits);
    if error != 0 {
      return;
    }
    S.SegmentLen[Index(c, i)] := len;
    Reassociate(res, len);
    if res * 8 * len < l.minLen || res * 8 * len > l.frameLen * 8 - definedBits - l.minLen {
      return INVALID_LENGTH;
    }
    return 0;
  }

  lemma UsedNothing(res: nat)
    ensures Used(res, []) == 0
  {
  }

  lemma UsedMore(res: nat, lens: seq<nat>, len: nat)
    ensures Used(res, lens + [len]) == Used(res, lens) + res * len
  {
    assert (lens + [len])[..|lens|] == lens;
  }

  /** One segment length of channel c, after the resolution if it was not read yet, and the running sums. */
  method ReadSegmentLength(SD: StrData, l: Limits, S: Segment, c: nat, resolRead: bool, maxSegSize: int,
                           definedBits: int, segNr: nat, ghost res: nat, ghost lens: seq<nat>)
    returns (error: int, maxSegSize': int, definedBits': int, ghost lens': seq<nat>)
    requires SD.Valid() && Sane(l) && S.Valid() && c < MAX_CHANNELS && segNr == |lens| < MAXNROF_SEGS && S.Prefix(c, lens)
    requires Running(S, l, resolRead, maxSegSize, definedBits, res, lens)
    modifies SD, S, S.SegmentLen
    ensures SD.data == old(SD.data)
    ensures forall j :: 0 <= j < Index(c, 0) ==> S.SegmentLen[j] == old(S.SegmentLen[j])
    ensures error == 0 || ReadLength(SD.Bits(), old(SD.Pos()), l, res, lens) == Fail(error)
    ensures error == 0 ==>
              && SD.Valid() && |lens'| == |lens| + 1 && lens' == lens + [lens'[|lens|]] && S.Prefix(c, lens')
              && ReadLength(SD.Bits(), old(SD.Pos()), l, res, lens) == Done((S.Resolution, lens'[|lens|]), SD.Pos())
              && Running(S, l, true, maxSegSize', definedBits', S.Resolution, lens')
  {
    hide LongEnough, UnitsWidth, Log2RoundUp, GetBits, ReadUnits;
    maxSegSize', definedBits', lens' := maxSegSize, definedBits, lens;
    if !resolRead {
      error := ReadResolutionField(SD, l, S);
      if error != 0 {
        return;
      }
      UsedNothing(res);
      UsedNothing(S.Resolution);
    }
    error := ReadUnitsField(SD, l, S, c, segNr, S.Resolution, maxSegSize, definedBits);
    if error != 0 {
      return;
    }
    var len := S.SegmentLen[Index(c, segNr)];
    Reassociate(S.Resolution, len);
    UsedMore(S.Resolution, lens, len);
    definedBits' := definedBits + S.Resolution * 8 * len;
    maxSegSize' := maxSegSize - S.Resolution * len;
    lens' := lens + [len];
  }

  /** What SharedLengths still does once the end flag is read. */
  function AfterFlag(bits: seq<Bit>, pos: nat, l: Limits, res: nat, lens: seq<nat>, endOfChannel: int): Parse<(nat, seq<nat>)>
    requires Sane(l) && FitsSoFar(l, res, lens) && |lens| <= l.maxSegs
  {
    if endOfChannel != 0 then Done((res, lens), pos)
    else if |lens| >= l.maxSegs then Fail(TOO_MANY_SEGMENTS)
    else
      var (v, q) :- ReadLength(bits, pos, l, res, lens);
      SharedLengths(bits, q, l, v.0, lens + [v.1])
  }

  lemma AfterFlagStep(bits: seq<Bit>, pos: nat, l: Limits, res: nat, lens: seq<nat>, res': nat, len: nat, q: nat)
    requires Sane(l) && FitsSoFar(l, res, lens) && |lens| < l.maxSegs
    requires ReadLength(bits, pos, l, res, lens) == Done((res', len), q)
    ensures FitsSoFar(l, res', lens + [len])
    ensures AfterFlag(bits, pos, l, res, lens, 0) == SharedLengths(bits, q, l, res', lens + [len])
  {
  }

  lemma FlagStep(bits: seq<Bit>, pos: nat, l: Limits, res: nat, lens: seq<nat>)
    requires Sane(l) && FitsSoFar(l, res, lens) && |lens| <= l.maxSegs
    ensures var r := GetBits(bits, pos, 1);
            SharedLengths(bits, pos, l, res, lens) == if r.Done? then AfterFlag(bits, r.pos, l, res, lens, r.value) else Fail(r.error)
  {
  }

  /** One list of lengths for all channels (lines 237-274). */
  method ReadSharedLengths(SD: StrData, l: Limits, S: Segment)
    returns (error: int, resolRead: bool, ghost res: nat, ghost lens: seq<nat>)
    requires SD.Valid() && Sane(l) && S.Valid() && l.maxSegs <= MAXNROF_SEGS
    modifies SD, S, S.SegmentLen, S.NrOfSegments
    ensures SD.data == old(SD.data)
    ensures error == 0 || SharedLengths(SD.Bits(), old(SD.Pos()), l, 0, []) == Fail(error)
    ensures error == 0 ==>
              && SD.Valid() && S.Row(0, lens) && (resolRead <==> res > 0) && (resolRead ==> S.Resolution == res)
              && SharedLengths(SD.Bits(), old(SD.Pos()), l, 0, []) == Done((res, lens), SD.Pos())
  {
    var definedBits: int, maxSegSize: int, segNr: nat := 0, l.frameLen - l.minLen / 8, 0;
    resolRead, res, lens := false, 0, [];
    ghost var start := SD.Pos();
    ghost var all := SharedLengths(SD.Bits(), start, l, 0, []);
    FlagStep(SD.Bits(), start, l, 0, []);
    var endOfChannel;
    error, endOfChannel := ReadInt(SD, 1);
    if error != 0 {
      return;
    }
    while endOfChannel == 0
      invariant SD.Valid() && SD.data == old(SD.data)
      invariant |lens| == segNr <= l.maxSegs && Running(S, l, resolRead, maxSegSize, definedBits, res, lens)
      invariant S.Prefix(0, lens)
      invariant all == AfterFlag(SD.Bits(), SD.Pos(), l, res, lens, endOfChannel)
      decreases l.maxSegs - segNr
    {
      if segNr >= l.maxSegs {
        error := TOO_MANY_SEGMENTS;
        return;
      }
      error, maxSegSize, definedBits, endOfChannel, res, lens :=
        NextSharedLength(SD, l, S, resolRead, maxSegSize, definedBits, segNr, res, lens);
      if error != 0 {
        return;
      }
      resolRead := true;
      segNr := segNr + 1;
    }
    S.NrOfSegments[0] := segNr + 1;
    S.SegmentLen[Index(0, segNr)] := 0;
    error := 0;
  }

  method NextSharedLength(SD: StrData, l: Limits, S: Segment, resolRead: bool, maxSegSize: int, definedBits: int,
                          segNr: nat, ghost res: nat, ghost lens: seq<nat>)
    returns (error: int, maxSegSize': int, definedBits': int, endOfChannel: nat, ghost res': nat, ghost lens': seq<nat>)
    requires SD.Valid() && Sane(l) && S.Valid() && l.maxSegs <= MAXNROF_SEGS && |lens| == segNr < l.maxSegs
    requires Running(S, l, resolRead, maxSegSize, definedBits, res, lens) && S.Prefix(0, lens)
    modifies SD, S, S.SegmentLen
    ensures SD.data == old(SD.data)
    ensures error == 0 || AfterFlag(SD.Bits(), old(SD.Pos()), l, res, lens, 0) == Fail(error)
    ensures error == 0 ==>
              && SD.Valid() && |lens'| == segNr + 1 && S.Prefix(0, lens')
              && Running(S, l, true, maxSegSize', definedBits', res', lens')
              && AfterFlag(SD.Bits(), old(SD.Pos()), l, res, lens, 0) == AfterFlag(SD.Bits(), SD.Pos(), l, res', lens', endOfChannel)
  {
    endOfChannel, res' := 0, res;
    error, maxSegSize', definedBits', lens' := ReadSegmentLength(SD, l, S, 0, resolRead, maxSegSize, definedBits, segNr, res, lens);
    if error != 0 {
      return;
    }
    res' := S.Resolution;
    AfterFlagStep(SD.Bits(), old(SD.Pos()), l, res, lens, res', lens'[segNr], SD.Pos());
    FlagStep(SD.Bits(), SD.Pos(), l, res', lens');
    error, endOfChannel := ReadInt(SD, 1);
  }

  /** Which errors end the channel loop, and what it does at an end flag. */
  lemma ChannelCases(bits: seq<Bit>, pos: nat, l: Limits, channels: nat, res: nat, done: seq<seq<nat>>, lens: seq<nat>)
    requires Sane(l) && FitsSoFar(l, res, lens) && |lens| <= l.maxSegs && AllFit(l, res, done)
    requires |done| < channels && Unread(res, done)
    ensures var r := ChannelLengths(bits, pos, l, channels, res, done, lens);
            var flag := GetBits(bits, pos, 1);
            && (|lens| >= l.maxSegs ==> r == Fail(TOO_MANY_SEGMENTS))
            && (|lens| < l.maxSegs && !flag.Done? ==> r == Fail(flag.error))
            && (|lens| < l.maxSegs && flag.Done? && flag.value == 0 && ReadLength(bits, pos + 1, l, res, lens).Fail? ==>
                  r == Fail(ReadLength(bits, pos + 1, l, res, lens).error))
            && (|lens| < l.maxSegs && flag.Done? && flag.value != 0 ==>
                  AllFit(l, res, done + [lens]) && Unread(res, done + [lens])
                  && r == ChannelLengths(bits, pos + 1, l, channels, res, done + [lens], []))
  {
    if |lens| < l.maxSegs { AppendFits(l, res, done, lens); }
  }

  ghost predicate RowsDone(S: Segment, done: seq<seq<nat>>)
    requires S.Valid() && |done| <= MAX_CHANNELS
    reads S.SegmentLen, S.NrOfSegments
  {
    forall c {:trigger done[c]} :: 0 <= c < |done| ==> S.Row(c, done[c])
  }

  method EndChannel(S: Segment, chNr: nat, segNr: nat, ghost done: seq<seq<nat>>, ghost lens: seq<nat>)
    requires S.Valid() && |done| == chNr < MAX_CHANNELS && segNr == |lens| < MAXNROF_SEGS && S.Prefix(chNr, lens) && RowsDone(S, done)
    modifies S.SegmentLen, S.NrOfSegments
    ensures RowsDone(S, done + [lens])
  {
    S.NrOfSegments[chNr] := segNr + 1;
    S.SegmentLen[Index(chNr, segNr)] := 0;
    forall c | 0 <= c <= |done| ensures S.Row(c, (done + [lens])[c]) {
      assert c < |done| ==> old(S.Row(c, done[c]));
    }
  }

  /** The state of the channel loop. */
  ghost predicate InChannel(S: Segment, l: Limits, channels: nat, chNr: nat, segNr: nat, resolRead: bool, maxSegSize: int,
                            definedBits: int, res: nat, done: seq<seq<nat>>, lens: seq<nat>)
    requires S.Valid() && channels <= MAX_CHANNELS && Sane(l) && l.maxSegs <= MAXNROF_SEGS
    reads S, S.SegmentLen, S.NrOfSegments
  {
    && chNr == |done| <= channels && |lens| == segNr <= l.maxSegs
    && Running(S, l, resolRead, maxSegSize, definedBits, res, lens)
    && AllFit(l, res, done) && Unread(res, done) && RowsDone(S, done)
    && (if chNr < channels then S.Prefix(chNr, lens) else lens == [])
  }

  method NextChannelLength(SD: StrData, l: Limits, channels: nat, S: Segment, chNr: nat, segNr: nat, resolRead: bool,
                           maxSegSize: int, definedBits: int, ghost pos: nat, ghost res: nat, ghost done: seq<seq<nat>>,
                           ghost lens: seq<nat>)
    returns (error: int, maxSegSize': int, definedBits': int, ghost lens': seq<nat>)
    requires SD.Valid() && S.Valid() && channels <= MAX_CHANNELS && Sane(l) && l.maxSegs <= MAXNROF_SEGS && chNr < channels
    requires InChannel(S, l, channels, chNr, segNr, resolRead, maxSegSize, definedBits, res, done, lens) && segNr < l.maxSegs
    requires SD.Pos() == pos + 1 && GetBits(SD.Bits(), pos, 1) == Done(0, pos + 1)
    modifies SD, S, S.SegmentLen
    ensures SD.data == old(SD.data)
    ensures error == 0 || ReadLength(SD.Bits(), pos + 1, l, res, lens) == Fail(error)
    ensures error == 0 ==>
              && SD.Valid() && InChannel(S, l, channels, chNr, segNr + 1, true, maxSegSize', definedBits', S.Resolution, done, lens')
              && ChannelLengths(SD.Bits(), pos, l, channels, res, done, lens)
                 == ChannelLengths(SD.Bits(), SD.Pos(), l, channels, S.Resolution, done, lens')
  {
    error, maxSegSize', definedBits', lens' := ReadSegmentLength(SD, l, S, chNr, resolRead, maxSegSize, definedBits, segNr, res, lens);
    if error == 0 {
      ChannelStep(SD.Bits(), pos, l, channels, res, done, lens, S.Resolution, lens'[segNr], SD.Pos());
      forall c | 0 <= c < |done| ensures S.Row(c, done[c]) {
        assert old(S.Row(c, done[c]));
      }
    }
  }

  /** The lengths channel by channel (lines 284-332). */
  method ReadChannelLengths(SD: StrData, channels: nat, l: Limits, S: Segment)
    returns (error: int, resolRead: bool, ghost res: nat, ghost done: seq<seq<nat>>)
    requires SD.Valid() && Sane(l) && S.Valid() && l.maxSegs <= MAXNROF_SEGS && channels <= MAX_CHANNELS
    modifies SD, S, S.SegmentLen, S.NrOfSegments
    ensures SD.data == old(SD.data)
    ensures error == 0 || ChannelLengths(SD.Bits(), old(SD.Pos()), l, channels, 0, [], []) == Fail(error)
    ensures error == 0 ==>
              && SD.Valid() && |done| == channels && RowsDone(S, done)
              && (resolRead <==> res > 0) && (resolRead ==> S.Resolution == res)
              && ChannelLengths(SD.Bits(), old(SD.Pos()), l, channels, 0, [], []) == Done((res, done), SD.Pos())
  {
    var definedBits: int, maxSegSize: int, segNr: nat, chNr: nat := 0, l.frameLen - l.minLen / 8, 0, 0;
    ghost var lens: seq<nat> := [];
    resolRead, res, done := false, 0, [];
    UsedNothing(0);
    ghost var all := ChannelLengths(SD.Bits(), SD.Pos(), l, channels, 0, [], []);
    while chNr < channels
      invariant SD.Valid() && SD.data == old(SD.data)
      invariant InChannel(S, l, channels, chNr, segNr, resolRead, maxSegSize, definedBits, res, done, lens)
      invariant all == ChannelLengths(SD.Bits(), SD.Pos(), l, channels, res, done, lens)
      decreases channels - chNr, l.maxSegs - segNr
    {
      ghost var pos := SD.Pos();
      ChannelCases(SD.Bits(), pos, l, channels, res, done, lens);
      if segNr >= l.maxSegs {
        error := TOO_MANY_SEGMENTS;
        return;
      }
      var endOfChannel;
      error, endOfChannel := ReadInt(SD, 1);
      if error != 0 {
        return;
      }
      if endOfChannel == 0 {
        error, maxSegSize, definedBits, lens :=
          NextChannelLength(SD, l, channels, S, chNr, segNr, resolRead, maxSegSize, definedBits, pos, res, done, lens);
        if error != 0 {
          return;
        }
        resolRead, segNr, res := true, segNr + 1, S.Resolution;
      } else {
        EndChannel(S, chNr, segNr, done, lens);
        UsedNothing(res);
        segNr, definedBits, maxSegSize := 0, 0, l.frameLen - l.minLen / 8;
        done, lens := done + [lens], [];
        chNr := chNr + 1;
      }
    }
    error := 0;
  }

  /** Nine segments in each of six channels: the copy runs past the end of the array. */
  predicate Outside(s: Segments) {
    |s.lens| == MAX_CHANNELS && |s.lens[0]| >= MAXNROF_SEGS
  }

  /** The copy for one channel. With nine segments it also writes the next row's first entry. */
  method CopyLengths(S: Segment, chNr: nat, ghost lens: seq<nat>)
    requires S.Valid() && 0 < chNr < MAX_CHANNELS && S.Row(0, lens) && Index(chNr, |lens|) < CELLS
    modifies S.SegmentLen, S.NrOfSegments
    ensures S.Row(chNr, lens)
    ensures forall c :: 0 <= c < MAX_CHANNELS && c != chNr ==> S.NrOfSegments[c] == old(S.NrOfSegments[c])
    ensures forall j :: 0 <= j < Index(chNr, 0) ==> S.SegmentLen[j] == old(S.SegmentLen[j])
  {
    S.NrOfSegments[chNr] := S.NrOfSegments[0];
    for segNr := 0 to S.NrOfSegments[0]
      modifies S.SegmentLen
      invariant forall i :: 0 <= i < segNr && i < MAXNROF_SEGS ==> S.SegmentLen[Index(chNr, i)] == S.SegmentLen[Index(0, i)]
      invariant forall j :: 0 <= j < Index(chNr, 0) ==> S.SegmentLen[j] == old(S.SegmentLen[j])
    {
      S.SegmentLen[Index(chNr, segNr)] := S.SegmentLen[Index(0, segNr)];
    }
  }

  /** Every channel gets the lengths of channel 0 (lines 276-281). */
  method ShareLengths(channels: nat, S: Segment, ghost lens: seq<nat>)
    requires S.Valid() && 0 < channels <= MAX_CHANNELS && S.Row(0, lens) && Index(channels - 1, |lens|) < CELLS
    modifies S.SegmentLen, S.NrOfSegments
    ensures RowsDone(S, Copies(lens, channels))
  {
    for chNr := 1 to channels
      invariant forall c :: 0 <= c < chNr ==> S.Row(c, lens)
    {
      label before:
      CopyLengths(S, chNr, lens);
      forall c | 0 <= c <= chNr ensures S.Row(c, lens) {
        assert c < chNr ==> old@before(S.Row(c, lens));
      }
    }
  }

  /** ReadTableSegmentData: the arrays hold exactly the segmentation that the frame codes, whatever they
      held before, or the error is the first one in the frame. */
  method ReadTableSegmentData(SD: StrData, channels: nat, l: Limits, S: Segment) returns (error: int, ghost s: Segments)
    requires SD.Valid() && Sane(l) && S.Valid() && l.maxSegs <= MAXNROF_SEGS && 0 < channels <= MAX_CHANNELS
    requires var r := ReadSegments(SD.Bits(), SD.Pos(), l, channels); r.Done? ==> !Outside(r.value)
    modifies SD, S, S.SegmentLen, S.NrOfSegments
    ensures SD.data == old(SD.data)
    ensures error == 0 || ReadSegments(SD.Bits(), old(SD.Pos()), l, channels) == Fail(error)
    ensures error == 0 ==>
              SD.Valid() && S.Holds(s) && ReadSegments(SD.Bits(), old(SD.Pos()), l, channels) == Done(s, SD.Pos())
  {
    hide SharedLengths, ChannelLengths, GetBits;
    s := Segments(0, 0, []);
    var same;
    error, same := ReadInt(SD, 1);
    if error != 0 {
      return;
    }
    if same == 1 {
      ghost var res, lens;
      var resolRead;
      error, resolRead, res, lens := ReadSharedLengths(SD, l, S);
      if error != 0 {
        return;
      }
      ShareLengths(channels, S, lens);
      if !resolRead {
        S.Resolution := 1;
      }
      s := Segments(1, S.Resolution, Copies(lens, channels));
    } else {
      ghost var res, done;
      var resolRead;
      error, resolRead, res, done := ReadChannelLengths(SD, channels, l, S);
      if error != 0 {
        return;
      }
      if !resolRead {
        S.Resolution := 1;
      }
      s := Segments(0, S.Resolution, done);
    }
  }

  /* CopySegmentData: the filter segmentation used for the probability tables too. */

  const MAXNROF_FSEGS := 4
  const MAXNROF_PSEGS := 8
  const MIN_FSEG_LEN := 1024
  const MIN_PSEG_LEN := 32

  /** The check of one channel's lengths from i on. */
  function RowCheck(res: nat, lens: seq<nat>, i: nat): int
    requires i <= |lens|
    decreases |lens| - i
  {
    if i == |lens| then 0
    else if lens[i] != 0 && 8 * (res * lens[i]) < MIN_PSEG_LEN then INVALID_LENGTH
    else RowCheck(res, lens, i + 1)
  }

  /** The checks of channels c, c+1, .. in the order in which they are made. */
  function CopyCheck(s: Segments, c: nat): int
    requires c <= |s.lens|
    decreases |s.lens| - c
  {
    if c == |s.lens| then 0
    else if |s.lens[c]| + 1 > MAXNROF_PSEGS then TOO_MANY_SEGMENTS
    else if RowCheck(s.resolution, s.lens[c], 0) != 0 then RowCheck(s.resolution, s.lens[c], 0)
    else CopyCheck(s, c + 1)
  }

  lemma RowCheckStep(res: nat, lens: seq<nat>, i: nat)
    ensures i < |lens| ==>
      RowCheck(res, lens, i) == if lens[i] != 0 && 8 * (res * lens[i]) < MIN_PSEG_LEN then INVALID_LENGTH else RowCheck(res, lens, i + 1)
    ensures i == |lens| ==> RowCheck(res, lens, i) == 0
  {
  }

  method CopyRow(F: Segment, P: Segment, chNr: nat, ghost lens: seq<nat>) returns (error: int)
    requires F.Valid() && P.Valid() && chNr < MAX_CHANNELS && F.Row(chNr, lens) && |lens| + 1 <= MAXNROF_PSEGS
    requires P.SegmentLen != F.SegmentLen
    modifies P.SegmentLen
    ensures error == RowCheck(P.Resolution, lens, 0)
    ensures error == 0 ==> P.Prefix(chNr, lens) && P.SegmentLen[Index(chNr, |lens|)] == 0
    ensures forall j :: 0 <= j < Index(chNr, 0) ==> P.SegmentLen[j] == old(P.SegmentLen[j])
  {
    hide RowCheck;
    var segNr: nat := 0;
    while segNr < F.NrOfSegments[chNr]
      invariant segNr <= |lens| + 1
      invariant segNr <= |lens| ==> RowCheck(P.Resolution, lens, 0) == RowCheck(P.Resolution, lens, segNr)
      invariant segNr == |lens| + 1 ==> RowCheck(P.Resolution, lens, 0) == 0
      invariant forall i :: 0 <= i < segNr ==> P.SegmentLen[Index(chNr, i)] == F.SegmentLen[Index(chNr, i)]
      invariant forall j :: 0 <= j < Index(chNr, 0) ==> P.SegmentLen[j] == old(P.SegmentLen[j])
    {
      P.SegmentLen[Index(chNr, segNr)] := F.SegmentLen[Index(chNr, segNr)];
      RowCheckStep(P.Resolution, lens, segNr);
      Reassociate(P.Resolution, P.SegmentLen[Index(chNr, segNr)]);
      if P.SegmentLen[Index(chNr, segNr)] != 0 && P.Resolution * 8 * P.SegmentLen[Index(chNr, segNr)] < MIN_PSEG_LEN {
        return INVALID_LENGTH;
      }
      segNr := segNr + 1;
    }
    return 0;
  }

  method CopySegmentData(F: Segment, P: Segment, channels: nat, ghost s: Segments) returns (error: int)
    requires F.Valid() && P.Valid() && F.Holds(s) && |s.lens| == channels <= MAX_CHANNELS
    requires F != P && F.SegmentLen != P.SegmentLen && F.NrOfSegments != P.NrOfSegments
    modifies P, P.SegmentLen, P.NrOfSegments
    ensures error == CopyCheck(s, 0)
    ensures error == 0 ==> P.Holds(s)
  {
    P.Resolution := F.Resolution;
    var chNr: nat := 0;
    while chNr < channels
      invariant chNr <= channels && P.Resolution == s.resolution && CopyCheck(s, 0) == CopyCheck(s, chNr)
      invariant RowsDone(P, s.lens[..chNr])
    {
      assert F.Row(chNr, s.lens[chNr]);
      ghost var done := s.lens[..chNr];
      label before:
      P.NrOfSegments[chNr] := F.NrOfSegments[chNr];
      if P.NrOfSegments[chNr] > MAXNROF_PSEGS {
        return TOO_MANY_SEGMENTS;
      }
      error := CopyRow(F, P, chNr, s.lens[chNr]);
      if error != 0 {
        return;
      }
      ghost var more := s.lens[..chNr + 1];
      forall c | 0 <= c < |more| ensures P.Row(c, more[c]) {
        assert c < |done| ==> old@before(P.Row(c, done[c]));
      }
      chNr := chNr + 1;
    }
    assert s.lens[..channels] == s.lens;
    return 0;
  }

  lemma {:induction false} RowPasses(l: Limits, res: nat, lens: seq<nat>, i: nat)
    requires Sane(l) && l.minLen >= MIN_PSEG_LEN && FitsSoFar(l, res, lens) && i <= |lens|
    ensures RowCheck(res, lens, i) == 0
    decreases |lens| - i
  {
    if i < |lens| {
      assert LongEnough(l, res, lens[i]);
      RowPasses(l, res, lens, i + 1);
    }
  }

  /** An accepted filter segmentation always passes the checks made when it is copied. */
  lemma {:induction false} CopyAlwaysPasses(bits: seq<Bit>, pos: nat, l: Limits, channels: nat, c: nat)
    requires Sane(l) && l.minLen == MIN_FSEG_LEN && l.maxSegs == MAXNROF_FSEGS
    requires ReadSegments(bits, pos, l, channels).Done? && c <= channels
    ensures |ReadSegments(bits, pos, l, channels).value.lens| == channels
    ensures CopyCheck(ReadSegments(bits, pos, l, channels).value, c) == 0
    decreases channels - c
  {
    var s := ReadSegments(bits, pos, l, channels).value;
    AcceptedSegmentsPartition(bits, pos, l, channels);
    if c < channels {
      AcceptedRowFits(bits, pos, l, channels, c);
      RowPasses(l, s.resolution, s.lens[c], 0);
      CopyAlwaysPasses(bits, pos, l, channels, c + 1);
    }
  }

  /* The mapping. */

  lemma {:induction false} RowCountBound(bits: seq<Bit>, pos: nat, count: nat, row: seq<nat>, n: nat)
    requires |row| <= n && ReadRow(bits, pos, count, row, n).Done?
    ensures count <= ReadRow(bits, pos, count, row, n).value.0 <= count + (n - |row|)
    decreases n - |row|
  {
    if |row| < n {
      var r := ReadTable(bits, pos, count);
      RowCountBound(bits, r.pos, r.value.1, row + [r.value.0], n);
    }
  }

  lemma RowCases(bits: seq<Bit>, pos: nat, count: nat, row: seq<nat>, n: nat)
    requires |row| < n
    ensures var r := ReadTable(bits, pos, count);
            ReadRow(bits, pos, count, row, n)
            == if r.Done? then ReadRow(bits, r.pos, r.value.1, row + [r.value.0], n) else Fail(r.error)
  {
  }

  /** Row c as the array holds it when all rows are written: a ninth number is overwritten by the first
      number of the next row, or, in the copies of one row, by the row's own first number. */
  function SeenRow(m: Mapping, c: nat): (r: seq<nat>)
    requires c < |m.tables|
    ensures |r| == |m.tables[c]|
  {
    var row := m.tables[c];
    if |row| <= MAXNROF_SEGS then row
    else if m.same == 1 then (if |m.tables| > 1 then row[MAXNROF_SEGS := row[0]] else row)
    else if c + 1 < |m.tables| && m.tables[c + 1] != [] then row[MAXNROF_SEGS := m.tables[c + 1][0]]
    else row
  }

  function Seen(m: Mapping): (r: seq<seq<nat>>)
    ensures |r| == |m.tables|
    ensures forall c {:trigger r[c]} :: 0 <= c < |r| ==> r[c] == SeenRow(m, c)
  {
    seq(|m.tables|, c requires 0 <= c < |m.tables| => SeenRow(m, c))
  }

  /** The table numbers of channel ch from the first unknown one on (lines 475-486, 499-513). */
  method ReadMapRow(SD: StrData, S: Segment, ch: nat, countTables: nat, ghost known: seq<nat>, n: nat)
    returns (error: int, count: nat, ghost row: seq<nat>)
    requires SD.Valid() && S.Valid() && ch < MAX_CHANNELS && S.NrOfSegments[ch] == n <= MOST_SEGS && Index(ch, n) <= CELLS
    requires 0 < n && known == (if ch == 0 then [0] else []) && S.RowMaps(ch, known) && countTables <= 1 + 9 * ch
    modifies SD, S.Table4Segment
    ensures SD.data == old(SD.data)
    ensures forall j :: 0 <= j < Index(ch, 0) ==> S.Table4Segment[j] == old(S.Table4Segment[j])
    ensures error == 0 || ReadRow(SD.Bits(), old(SD.Pos()), countTables, known, n) == Fail(error)
    ensures error == 0 ==> SD.Valid() && S.RowMaps(ch, row) && |row| == n
                           && ReadRow(SD.Bits(), old(SD.Pos()), countTables, known, n) == Done((count, row), SD.Pos())
  {
    hide GetBits, StrData.Sane, BitsOfBytes, Log2RoundUp;
    ghost var all := ReadRow(SD.Bits(), SD.Pos(), countTables, known, n);
    count, row := countTables, known;
    var segNr: nat := 0;
    while segNr < n
      invariant SD.Valid() && SD.data == old(SD.data) && segNr <= n && count <= countTables + segNr
      invariant |row| == (if segNr == 0 then |known| else segNr) && S.RowMaps(ch, row)
      invariant all == ReadRow(SD.Bits(), SD.Pos(), count, row, n)
      invariant forall j :: 0 <= j < Index(ch, 0) ==> S.Table4Segment[j] == old(S.Table4Segment[j])
    {
      if ch != 0 || segNr != 0 {
        RowCases(SD.Bits(), SD.Pos(), count, row, n);
        var nrOfBits := ComputeLog2(count);
        Log2Small(count);
        var t;
        error, t := ReadInt(SD, nrOfBits);
        if error != 0 {
          return;
        }
        S.Table4Segment[Index(ch, segNr)] := t;
        row := row + [t];
        if S.Table4Segment[Index(ch, segNr)] == count {
          count := count + 1;
        } else if S.Table4Segment[Index(ch, segNr)] > count {
          error := INVALID_TABLE;
          return;
        }
      }
      segNr := segNr + 1;
    }
    error := 0;
  }

  lemma RowsCases(bits: seq<Bit>, pos: nat, count: nat, done: seq<seq<nat>>, sizes: seq<nat>)
    requires Sized(done, sizes) && Counted(sizes) && |done| < |sizes|
    ensures var r := ReadRow(bits, pos, count, Known(done), sizes[|done|]);
            ReadRows(bits, pos, count, done, sizes)
            == if r.Done? then ReadRows(bits, r.pos, r.value.0, done + [r.value.1], sizes)
               else if r.Fail? then Fail(r.error) else Undefined
  {
  }

  /** The sizes of the rows to be mapped. */
  ghost predicate Counts(S: Segment, sizes: seq<nat>)
    requires S.Valid()
    reads S.NrOfSegments
  {
    && 0 < |sizes| <= MAX_CHANNELS && Counted(sizes)
    && forall c {:trigger sizes[c]} :: 0 <= c < |sizes| ==>
         S.NrOfSegments[c] == sizes[c] <= MOST_SEGS && Index(c, sizes[c]) <= CELLS
  }

  /** The first rows as the array holds them. */
  ghost predicate MapsDone(S: Segment, m: Mapping)
    requires S.Valid() && |m.tables| <= MAX_CHANNELS
    reads S.Table4Segment
  {
    forall c {:trigger m.tables[c]} :: 0 <= c < |m.tables| ==> S.RowMaps(c, SeenRow(m, c))
  }

  /** One row more leaves the earlier ones but for a ninth number of the last. */
  lemma RowJoins(done: seq<seq<nat>>, row: seq<nat>, c: nat)
    requires c < |done| && row != []
    ensures var m, n := Mapping(0, done, 0), Mapping(0, done + [row], 0);
            && |SeenRow(n, c)| == |SeenRow(m, c)|
            && forall i {:trigger SeenRow(n, c)[i]} :: 0 <= i < |SeenRow(n, c)| ==>
                 SeenRow(n, c)[i] == if i == MAXNROF_SEGS && c == |done| - 1 then row[0] else SeenRow(m, c)[i]
  {
    assert (done + [row])[c] == done[c];
    if c + 1 < |done| { assert (done + [row])[c + 1] == done[c + 1]; }
  }

  lemma LastRow(done: seq<seq<nat>>, row: seq<nat>)
    ensures SeenRow(Mapping(0, done + [row], 0), |done|) == row
  {
  }

  /** The mapping channel by channel (lines 497-514). */
  method ReadMapRows(SD: StrData, S: Segment, ghost sizes: seq<nat>, channels: nat)
    returns (error: int, count: nat, ghost done: seq<seq<nat>>)
    requires SD.Valid() && S.Valid() && Counts(S, sizes) && |sizes| == channels && S.Table4Segment[Index(0, 0)] == 0
    modifies SD, S.Table4Segment
    ensures SD.data == old(SD.data)
    ensures error == 0 || ReadRows(SD.Bits(), old(SD.Pos()), 1, [], sizes) == Fail(error)
    ensures error == 0 ==>
              SD.Valid() && |done| == channels && MapsDone(S, Mapping(0, done, 0))
              && ReadRows(SD.Bits(), old(SD.Pos()), 1, [], sizes) == Done((count, done), SD.Pos())
  {
    hide GetBits, ReadRow, SeenRow;
    count, done := 1, [];
    ghost var all := ReadRows(SD.Bits(), SD.Pos(), 1, [], sizes);
    var ch: nat := 0;
    while ch < channels
      invariant SD.Valid() && SD.data == old(SD.data) && ch == |done| <= channels && count <= 1 + 9 * ch
      invariant Sized(done, sizes) && MapsDone(S, Mapping(0, done, 0)) && all == ReadRows(SD.Bits(), SD.Pos(), count, done, sizes)
      invariant ch == 0 ==> S.Table4Segment[Index(0, 0)] == 0
    {
      RowsCases(SD.Bits(), SD.Pos(), count, done, sizes);
      ghost var pos, before := SD.Pos(), count;
      assert S.NrOfSegments[ch] == sizes[ch] && Index(ch, sizes[ch]) <= CELLS;
      label start:
      ghost var row;
      error, count, row := ReadMapRow(SD, S, ch, count, Known(done), S.NrOfSegments[ch]);
      if error != 0 {
        return;
      }
      RowCountBound(SD.Bits(), pos, before, Known(done), sizes[ch]);
      ghost var m, n := Mapping(0, done, 0), Mapping(0, done + [row], 0);
      forall c | 0 <= c < |n.tables| ensures S.RowMaps(c, SeenRow(n, c)) {
        if c < |done| {
          assert old@start(S.RowMaps(c, SeenRow(m, c)));
          RowJoins(done, row, c);
          assert S.Table4Segment[Index(ch, 0)] == row[0];
        } else {
          LastRow(done, row);
        }
      }
      done := done + [row];
      ch := ch + 1;
    }
    error := 0;
  }

  /** The copies of a row so far: a ninth number is gone as soon as there is a copy. */
  ghost predicate Shared(S: Segment, row: seq<nat>, ch: nat)
    requires S.Valid() && 0 < |row| <= MOST_SEGS && 0 < ch <= MAX_CHANNELS && Index(ch - 1, |row|) <= CELLS
    reads S.Table4Segment
  {
    && (forall c, i :: 0 <= c < ch && 0 <= i < |row| && i < MAXNROF_SEGS ==> S.Table4Segment[Index(c, i)] == row[i])
    && (|row| == MOST_SEGS ==> S.Table4Segment[Index(ch, 0)] == if ch == 1 then row[MAXNROF_SEGS] else row[0])
  }

  method CopyNumbers(S: Segment, ch: nat, n: nat, ghost row: seq<nat>)
    requires S.Valid() && n == |row| && 0 < n <= MOST_SEGS && 0 < ch < MAX_CHANNELS && Index(ch, n) <= CELLS && Shared(S, row, ch)
    modifies S.Table4Segment
    ensures Shared(S, row, ch + 1)
  {
    for segNr := 0 to n
      invariant forall j :: 0 <= j < Index(ch, 0) ==> S.Table4Segment[j] == old(S.Table4Segment[j])
      invariant forall i :: 0 <= i < segNr ==> S.Table4Segment[Index(ch, i)] == if i < MAXNROF_SEGS then row[i] else row[0]
      invariant forall i :: 0 <= i < MAXNROF_SEGS && i < n ==> S.Table4Segment[Index(0, i)] == row[i]
    {
      assert segNr == MAXNROF_SEGS ==> S.Table4Segment[Index(1, 0)] == row[0] by {
        assert ch > 1 ==> old(S.Table4Segment[Index(1, 0)]) == row[0];
      }
      S.Table4Segment[Index(ch, segNr)] := S.Table4Segment[Index(0, segNr)];
    }
    forall c, i | 0 <= c < ch + 1 && 0 <= i < |row| && i < MAXNROF_SEGS ensures S.Table4Segment[Index(c, i)] == row[i] {
      assert c < ch ==> old(S.Table4Segment[Index(c, i)]) == row[i] && Index(c, i) < Index(ch, 0);
    }
    assert n == MOST_SEGS ==> S.Table4Segment[Index(ch, MAXNROF_SEGS)] == row[0];
  }

  /** The row of channel 0 for every channel with as many segments (lines 487-494). */
  method ShareMap(S: Segment, channels: nat, ghost sizes: seq<nat>, ghost row: seq<nat>) returns (ok: bool)
    requires S.Valid() && Counts(S, sizes) && |sizes| == channels && |row| == sizes[0] && S.RowMaps(0, row)
    modifies S.Table4Segment
    ensures ok <==> AllEqual(sizes)
    ensures ok ==> MapsDone(S, Mapping(1, Copies(row, channels), 0))
  {
    assert S.NrOfSegments[0] == sizes[0];
    for ch := 1 to channels
      invariant forall c :: 0 <= c < ch ==> sizes[c] == sizes[0]
      invariant Index(ch - 1, |row|) <= CELLS && Shared(S, row, ch)
    {
      assert S.NrOfSegments[ch] == sizes[ch];
      if S.NrOfSegments[ch] != S.NrOfSegments[0] {
        return false;
      }
      CopyNumbers(S, ch, S.NrOfSegments[0], row);
    }
    SharedIsSeen(S, row, channels);
    return true;
  }

  lemma SharedIsSeen(S: Segment, row: seq<nat>, channels: nat)
    requires S.Valid() && 0 < |row| <= MOST_SEGS && 0 < channels <= MAX_CHANNELS && Index(channels - 1, |row|) <= CELLS
    requires Shared(S, row, channels)
    ensures MapsDone(S, Mapping(1, Copies(row, channels), 0))
  {
    var m := Mapping(1, Copies(row, channels), 0);
    forall c | 0 <= c < |m.tables| ensures S.RowMaps(c, SeenRow(m, c)) {
      assert m.tables[c] == row;
      if |row| == MOST_SEGS {
        assert S.Table4Segment[Index(c + 1, 0)] == SeenRow(m, c)[MAXNROF_SEGS];
      }
    }
  }

  /** ReadTableMappingData: the array holds exactly what is left of the mapping that the frame codes, or the
      error is the first one in the frame. */
  method ReadTableMappingData(SD: StrData, channels: nat, maxTables: nat, S: Segment, ghost sizes: seq<nat>)
    returns (error: int, nrOfTables: nat, ghost m: Mapping)
    requires SD.Valid() && S.Valid() && Counts(S, sizes) && |sizes| == channels
    modifies SD, S.Table4Segment
    ensures SD.data == old(SD.data)
    ensures error == 0 || ReadMap(SD.Bits(), old(SD.Pos()), maxTables, sizes) == Fail(error)
    ensures error == 0 ==>
              SD.Valid() && S.Maps(Seen(m)) && nrOfTables == m.count
              && ReadMap(SD.Bits(), old(SD.Pos()), maxTables, sizes) == Done(m, SD.Pos())
  {
    hide GetBits, ReadRow, ReadRows, SeenRow, Seen, MapsDone;
    nrOfTables, m := 0, Mapping(0, [], 0);
    S.Table4Segment[Index(0, 0)] := 0;
    var same, countTables;
    error, same := ReadInt(SD, 1);
    if error != 0 {
      return;
    }
    if same == 1 {
      ghost var row;
      assert S.NrOfSegments[0] == sizes[0];
      error, countTables, row := ReadMapRow(SD, S, 0, 1, [0], S.NrOfSegments[0]);
      if error != 0 {
        return;
      }
      var ok := ShareMap(S, channels, sizes, row);
      if !ok {
        error := INVALID_MAPPING;
        return;
      }
      m := Mapping(1, Copies(row, channels), countTables);
      assert MapsDone(S, Mapping(1, m.tables, 0));
    } else {
      ghost var done;
      error, countTables, done := ReadMapRows(SD, S, sizes, channels);
      if error != 0 {
        return;
      }
      m := Mapping(0, done, countTables);
      assert MapsDone(S, Mapping(0, m.tables, 0));
    }
    AllSeen(S, m);
    if countTables > maxTables {
      error := TOO_MANY_TABLES;
      return;
    }
    nrOfTables := countTables;
  }

  lemma AllSeen(S: Segment, m: Mapping)
    requires S.Valid() && |m.tables| <= MAX_CHANNELS && MapsDone(S, Mapping(m.same, m.tables, 0))
    ensures S.Maps(Seen(m))
  {
    forall c | 0 <= c < |m.tables| ensures S.RowMaps(c, Seen(m)[c]) {
      assert SeenRow(m, c) == SeenRow(Mapping(m.same, m.tables, 0), c);
    }
  }

  /** CopyMappingData: the filters' mapping for the probability tables too, if the segment counts agree. */
  function CopyMapCheck(fsizes: seq<nat>, psizes: seq<nat>, c: nat, count: nat, maxTables: nat): int
    requires |fsizes| == |psizes| && c <= |fsizes|
    decreases |fsizes| - c
  {
    if c == |fsizes| then (if count > maxTables then TOO_MANY_TABLES else 0)
    else if psizes[c] != fsizes[c] then SEGMENT_MISMATCH
    else CopyMapCheck(fsizes, psizes, c + 1, count, maxTables)
  }

  method CopyMappingData(F: Segment, P: Segment, channels: nat, nrOfFilters: nat, maxTables: nat,
                         ghost fsizes: seq<nat>, ghost psizes: seq<nat>, ghost m: Mapping)
    returns (error: int, nrOfPtables: nat)
    requires F.Valid() && P.Valid() && F.Table4Segment != P.Table4Segment
    requires Counts(F, fsizes) && Counts(P, psizes) && |fsizes| == |psizes| == channels == |m.tables|
    requires forall c {:trigger fsizes[c]} :: 0 <= c < channels ==> fsizes[c] <= MAXNROF_SEGS
    requires F.Maps(m.tables) && Sized(m.tables, fsizes) && nrOfFilters == m.count
    modifies P.Table4Segment
    ensures error == CopyMapCheck(fsizes, psizes, 0, m.count, maxTables)
    ensures error == 0 ==> P.Maps(m.tables) && nrOfPtables == m.count
  {
    nrOfPtables := 0;
    var ch: nat := 0;
    while ch < channels
      invariant ch <= channels
      invariant CopyMapCheck(fsizes, psizes, 0, m.count, maxTables) == CopyMapCheck(fsizes, psizes, ch, m.count, maxTables)
      invariant forall c {:trigger m.tables[c]} :: 0 <= c < ch ==> P.RowMaps(c, m.tables[c])
    {
      assert F.NrOfSegments[ch] == fsizes[ch] && P.NrOfSegments[ch] == psizes[ch];
      if P.NrOfSegments[ch] != F.NrOfSegments[ch] {
        return SEGMENT_MISMATCH, 0;
      }
      ghost var row := m.tables[ch];
      assert F.RowMaps(ch, row) && |row| == fsizes[ch];
      label start:
      for segNr := 0 to F.NrOfSegments[ch]
        invariant forall i :: 0 <= i < segNr ==> P.Table4Segment[Index(ch, i)] == row[i]
        invariant forall j :: 0 <= j < Index(ch, 0) ==> P.Table4Segment[j] == old@start(P.Table4Segment[j])
      {
        P.Table4Segment[Index(ch, segNr)] := F.Table4Segment[Index(ch, segNr)];
      }
      forall c | 0 <= c <= ch ensures P.RowMaps(c, m.tables[c]) {
        assert c < ch ==> old@start(P.RowMaps(c, m.tables[c]));
      }
      ch := ch + 1;
    }
    nrOfPtables := nrOfFilters;
    error := if nrOfPtables > maxTables then TOO_MANY_TABLES else 0;
  }

  /** The copy is accepted exactly when every channel has as many segments for one as for the other. */
  lemma {:induction false} CopyMapAccepts(fsizes: seq<nat>, psizes: seq<nat>, c: nat, count: nat, maxTables: nat)
    requires |fsizes| == |psizes| && c <= |fsizes|
    ensures CopyMapCheck(fsizes, psizes, c, count, maxTables) == 0 <==> fsizes[c..] == psizes[c..] && count <= maxTables
    decreases |fsizes| - c
  {
    if c < |fsizes| {
      CopyMapAccepts(fsizes, psizes, c + 1, count, maxTables);
      assert fsizes[c..] == [fsizes[c]] + fsizes[c + 1..] && psizes[c..] == [psizes[c]] + psizes[c + 1..];
      assert fsizes[c..] == psizes[c..] ==> fsizes[c..][1..] == psizes[c..][1..] && fsizes[c..][0] == psizes[c..][0];
    }
  }

  /* Which table each bit uses. */

  /** The last of the segments 0..i of channel c that starts at or before bit b. */
  function SegmentAt(s: Segments, c: nat, b: nat, i: nat): (j: nat)
    requires c < |s.lens| && i <= |s.lens[c]|
    ensures j <= i
  {
    if i == 0 || StartOf(s, c, i) <= b then i else SegmentAt(s, c, b, i - 1)
  }

  function TableAt(s: Segments, tables: seq<seq<nat>>, c: nat, b: nat): nat
    requires c < |s.lens| == |tables| && |tables[c]| == |s.lens[c]| + 1
  {
    tables[c][SegmentAt(s, c, b, |s.lens[c]|)]
  }

  lemma {:induction false} SegmentAtIs(s: Segments, l: Limits, channels: nat, c: nat, b: nat, i: nat, j: nat)
    requires Partition(s, l, channels) && c < channels && i <= j <= |s.lens[c]|
    requires StartOf(s, c, i) <= b && (i < |s.lens[c]| ==> b < StartOf(s, c, i + 1))
    ensures SegmentAt(s, c, b, j) == i
    decreases j
  {
    if i < j {
      StartsIncrease(s, l, channels, c, i + 1, j);
      SegmentAtIs(s, l, channels, c, b, i, j - 1);
    }
  }

  lemma {:induction false} StartsIncrease(s: Segments, l: Limits, channels: nat, c: nat, i: nat, j: nat)
    requires Partition(s, l, channels) && c < channels && i <= j <= |s.lens[c]|
    ensures StartOf(s, c, i) <= StartOf(s, c, j) <= 8 * l.frameLen
    decreases j - i
  {
    if i == j {
      assert StartOf(s, c, i) + l.minLen <= EndOf(s, l.frameLen, c, i);
      if i < |s.lens[c]| {
        StartsIncreaseTo(s, l, channels, c, i);
      }
    } else {
      assert StartOf(s, c, i) + l.minLen <= EndOf(s, l.frameLen, c, i);
      assert EndOf(s, l.frameLen, c, i) == StartOf(s, c, i + 1);
      StartsIncrease(s, l, channels, c, i + 1, j);
    }
  }

  lemma {:induction false} StartsIncreaseTo(s: Segments, l: Limits, channels: nat, c: nat, i: nat)
    requires Partition(s, l, channels) && c < channels && i <= |s.lens[c]|
    ensures StartOf(s, c, i) <= 8 * l.frameLen
    decreases |s.lens[c]| - i
  {
    assert StartOf(s, c, i) + l.minLen <= EndOf(s, l.frameLen, c, i);
    if i < |s.lens[c]| {
      StartsIncreaseTo(s, l, channels, c, i + 1);
    }
  }

  /** The label of every bit of an accepted frame is the table of the one segment the bit lies in. */
  lemma TableAtIs(s: Segments, tables: seq<seq<nat>>, l: Limits, channels: nat, c: nat, b: nat, i: nat)
    requires Partition(s, l, channels) && c < channels == |tables| && i <= |s.lens[c]|
    requires |tables[c]| == |s.lens[c]| + 1
    requires StartOf(s, c, i) <= b < EndOf(s, l.frameLen, c, i)
    ensures TableAt(s, tables, c, b) == tables[c][i]
  {
    SegmentAtIs(s, l, channels, c, b, i, |s.lens[c]|);
  }

  /* What the overlap of rows does to the labels. */

  /** No ninth number is lost: a shared row's is 0, and otherwise each is the first of the next channel. The
      last channel's ninth number has no next row. */
  predicate NinthKept(m: Mapping) {
    if m.same == 1 then
      |m.tables| <= 1 || forall c {:trigger m.tables[c]} :: 0 <= c < |m.tables| && |m.tables[c]| > MAXNROF_SEGS ==> m.tables[c][MAXNROF_SEGS] == 0
    else
      forall c {:trigger m.tables[c]} :: 0 <= c < |m.tables| - 1 && |m.tables[c]| > MAXNROF_SEGS && m.tables[c + 1] != [] ==>
        m.tables[c][MAXNROF_SEGS] == m.tables[c + 1][0]
  }

  /** Shared rows start with 0. */
  predicate StartsWithZero(m: Mapping) {
    m.same == 1 ==> forall c {:trigger m.tables[c]} :: 0 <= c < |m.tables| ==> m.tables[c] != [] && m.tables[c][0] == 0
  }

  lemma SeenRowExactly(m: Mapping, c: nat)
    requires c < |m.tables| && StartsWithZero(m)
    ensures SeenRow(m, c) == m.tables[c] <==>
      (|m.tables[c]| <= MAXNROF_SEGS
       || (m.same == 1 && (|m.tables| <= 1 || m.tables[c][MAXNROF_SEGS] == 0))
       || (m.same != 1 && (c + 1 == |m.tables| || m.tables[c + 1] == [] || m.tables[c][MAXNROF_SEGS] == m.tables[c + 1][0])))
    ensures forall i :: 0 <= i < |m.tables[c]| && i != MAXNROF_SEGS ==> SeenRow(m, c)[i] == m.tables[c][i]
  {
    var row := m.tables[c];
    assert m.same == 1 ==> row != [] && row[0] == 0;
    if |row| > MAXNROF_SEGS {
      assert SeenRow(m, c) == row[MAXNROF_SEGS := SeenRow(m, c)[MAXNROF_SEGS]];
      assert row[MAXNROF_SEGS := row[MAXNROF_SEGS]] == row;
    }
  }

  /** The array holds the mapping that was read if and only if no ninth number is lost. */
  lemma SeenExactly(m: Mapping)
    requires StartsWithZero(m)
    ensures Seen(m) == m.tables <==> NinthKept(m)
  {
    hide SeenRow, StartsWithZero;
    if NinthKept(m) {
      forall c | 0 <= c < |m.tables| ensures Seen(m)[c] == m.tables[c] { SeenRowExactly(m, c); }
    } else {
      var c := LostNinth(m);
      SeenRowExactly(m, c);
      assert Seen(m)[c] != m.tables[c];
    }
  }

  lemma LostNinth(m: Mapping) returns (c: nat)
    requires !NinthKept(m)
    ensures c < |m.tables| && |m.tables[c]| > MAXNROF_SEGS
    ensures if m.same == 1 then |m.tables| > 1 && m.tables[c][MAXNROF_SEGS] != 0
            else c + 1 < |m.tables| && m.tables[c + 1] != [] && m.tables[c][MAXNROF_SEGS] != m.tables[c + 1][0]
  {
    if m.same == 1 {
      c :| c < |m.tables| && |m.tables[c]| > MAXNROF_SEGS && m.tables[c][MAXNROF_SEGS] != 0;
    } else {
      c :| c < |m.tables| - 1 && |m.tables[c]| > MAXNROF_SEGS && m.tables[c + 1] != [] && m.tables[c][MAXNROF_SEGS] != m.tables[c + 1][0];
    }
  }

  /** Every bit gets the table that was coded for its segment if and only if no ninth number is lost. */
  lemma LabelsExactly(s: Segments, m: Mapping, l: Limits, channels: nat)
    requires Partition(s, l, channels) && l.minLen > 0 && |m.tables| == channels && StartsWithZero(m)
    requires forall c {:trigger m.tables[c]} :: 0 <= c < channels ==> |m.tables[c]| == |s.lens[c]| + 1
    ensures (forall c, b {:trigger TableAt(s, m.tables, c, b)} :: 0 <= c < channels && 0 <= b < 8 * l.frameLen ==>
               TableAt(s, Seen(m), c, b) == TableAt(s, m.tables, c, b))
            <==> NinthKept(m)
  {
    hide TableAt, SeenRow, StartsWithZero, NinthKept;
    SeenExactly(m);
    if !NinthKept(m) {
      var c := LostNinth(m);
      SeenRowExactly(m, c);
      assert |m.tables[c]| == |s.lens[c]| + 1;
      NinthLabel(s, m, l, channels, c);
      assert TableAt(s, Seen(m), c, StartOf(s, c, MAXNROF_SEGS)) != TableAt(s, m.tables, c, StartOf(s, c, MAXNROF_SEGS));
    }
  }

  /** The first bit of the ninth segment has its label. */
  lemma NinthLabel(s: Segments, m: Mapping, l: Limits, channels: nat, c: nat)
    requires Partition(s, l, channels) && l.minLen > 0 && |m.tables| == channels && c < channels
    requires |m.tables[c]| == |s.lens[c]| + 1 > MAXNROF_SEGS
    ensures var b := StartOf(s, c, MAXNROF_SEGS);
            && b < 8 * l.frameLen && TableAt(s, m.tables, c, b) == m.tables[c][MAXNROF_SEGS]
            && TableAt(s, Seen(m), c, b) == Seen(m)[c][MAXNROF_SEGS]
  {
    hide TableAt, SeenRow;
    var i := MAXNROF_SEGS;
    var b := StartOf(s, c, i);
    assert b + l.minLen <= EndOf(s, l.frameLen, c, i);
    if i < |s.lens[c]| { StartsIncreaseTo(s, l, channels, c, i + 1); }
    TableAtIs(s, m.tables, l, channels, c, b, i);
    TableAtIs(s, Seen(m), l, channels, c, b, i);
  }

  /** Up to eight segments nothing is lost. */
  lemma EightAreKept(m: Mapping)
    requires forall c {:trigger m.tables[c]} :: 0 <= c < |m.tables| ==> |m.tables[c]| <= MAXNROF_SEGS
    ensures NinthKept(m) && Seen(m) == m.tables
  {
  }
}
