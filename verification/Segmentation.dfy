/** Segmentation and table mapping of a DST frame (unpack_dst.c): how each channel's bits are cut into
    segments and which table each segment uses. */
module Segmentation {
  import opened Bits
  import opened BitReader

  const TOO_MANY_SEGMENTS := 2
  const INVALID_RESOLUTION := 3
  const INVALID_LENGTH := 4
  const TOO_MANY_TABLES := 5
  const INVALID_TABLE := 6
  const INVALID_MAPPING := 7
  const SEGMENT_MISMATCH := 8

  /** The number of bits that hold 0..x. */
  function Log2RoundUp(x: nat): nat {
    if x == 0 then 0 else 1 + Log2RoundUp(x / 2)
  }

  lemma {:induction false} Log2Bounds(x: nat)
    ensures x < Pow2(Log2RoundUp(x))
    ensures x > 0 ==> Log2RoundUp(x) > 0 && Pow2(Log2RoundUp(x) - 1) <= x
  {
    if x > 0 { Log2Bounds(x / 2); }
  }

  lemma Log2Small(x: nat)
    requires x < 65536
    ensures Log2RoundUp(x) <= 16
  {
    Log2Bounds(x);
    Pow2Values();
    if Log2RoundUp(x) > 16 { Pow2Monotone(16, Log2RoundUp(x) - 1); }
  }

  method ComputeLog2(x: nat) returns (y: nat)
    ensures y == Log2RoundUp(x)
  {
    y := 0;
    Log2Bounds(x);
    while x >= Pow2(y)
      invariant y <= Log2RoundUp(x)
      decreases Log2RoundUp(x) - y
    {
      if y == Log2RoundUp(x) { assert false; }
      y := y + 1;
    }
    if y < Log2RoundUp(x) { Pow2Monotone(y, Log2RoundUp(x) - 1); }
  }

  /** The constants of one table kind and the frame they apply to. */
  datatype Limits = Limits(frameLen: nat, maxSegs: nat, minLen: nat)

  /** MIN_FSEG_LEN 1024, MIN_PSEG_LEN 32 and the frame lengths 4704, 9408, 18816 all fit this. */
  predicate Sane(l: Limits) {
    l.minLen % 8 == 0 && 0 < l.minLen < 8 * l.frameLen && l.frameLen <= 18816 && l.maxSegs > 0
  }

  /** Bytes that segments of these lengths take up. */
  function Used(res: nat, lens: seq<nat>): nat {
    if lens == [] then 0 else Used(res, lens[..|lens| - 1]) + res * lens[|lens| - 1]
  }

  /** Bytes that segments may take up, the shortest possible last one left aside. */
  function Room(l: Limits): nat
    requires Sane(l)
  {
    l.frameLen - l.minLen / 8
  }

  predicate LongEnough(l: Limits, res: nat, len: nat) {
    8 * (res * len) >= l.minLen
  }

  predicate FitsSoFar(l: Limits, res: nat, lens: seq<nat>)
    requires Sane(l)
  {
    && res <= Room(l) && (lens != [] ==> res > 0)
    && (forall i {:trigger LongEnough(l, res, lens[i])} :: 0 <= i < |lens| ==> LongEnough(l, res, lens[i]))
    && Used(res, lens) <= Room(l)
  }

  function ReadResolution(bits: seq<Bit>, pos: nat, l: Limits, res: nat): (r: Parse<nat>)
    requires Sane(l) && res <= Room(l)
    ensures r.Done? ==> pos <= r.pos && r.value > 0 && r.value <= Room(l) && (res > 0 ==> r.value == res)
  {
    if res > 0 then Done(res, pos)
    else
      var (v, p) :- GetBits(bits, pos, Log2RoundUp(Room(l)));
      if v == 0 || v > Room(l) then Fail(INVALID_RESOLUTION) else Done(v, p)
  }

  /** Width of the next length's field. */
  function UnitsWidth(l: Limits, res: nat, used: nat): nat
    requires Sane(l) && res > 0 && used <= Room(l)
  {
    Log2RoundUp((Room(l) - used) / res)
  }

  /** One segment length when the segments before it take up `used` bytes. */
  function ReadUnits(bits: seq<Bit>, pos: nat, l: Limits, res: nat, used: nat): (r: Parse<nat>)
    requires Sane(l) && res > 0 && used <= Room(l)
    ensures r.Done? ==> pos <= r.pos <= |bits| && LongEnough(l, res, r.value) && used + res * r.value <= Room(l)
  {
    var (len, q) :- GetBits(bits, pos, UnitsWidth(l, res, used));
    if 8 * (res * len) < l.minLen || 8 * (res * len) > l.frameLen * 8 - 8 * used - l.minLen
    then Fail(INVALID_LENGTH)
    else Done(len, q)
  }

  /** The resolution if it has not been read yet (0), then one segment length. */
  function ReadLength(bits: seq<Bit>, pos: nat, l: Limits, res: nat, lens: seq<nat>): (r: Parse<(nat, nat)>)
    requires Sane(l) && FitsSoFar(l, res, lens)
    ensures r.Done? ==> pos <= r.pos <= |bits| && (res > 0 ==> r.value.0 == res)
    ensures r.Done? ==> r.value.0 > 0 && r.value.1 > 0 && FitsSoFar(l, r.value.0, lens + [r.value.1])
  {
    var (res', p) :- ReadResolution(bits, pos, l, res);
    assert FitsSoFar(l, res', lens);
    var (len, q) :- ReadUnits(bits, p, l, res', Used(res', lens));
    LengthFits(l, res', lens, len);
    Done((res', len), q)
  }

  lemma LengthFits(l: Limits, res: nat, lens: seq<nat>, len: nat)
    requires Sane(l) && 0 < res <= Room(l) && FitsSoFar(l, res, lens)
    requires LongEnough(l, res, len) && Used(res, lens) + res * len <= Room(l)
    ensures len > 0 && FitsSoFar(l, res, lens + [len])
  {
    var more := lens + [len];
    assert more[..|more| - 1] == lens;
    assert len == 0 ==> res * len == 0;
    forall i | 0 <= i < |more| ensures LongEnough(l, res, more[i]) {
      if i < |lens| { assert more[i] == lens[i] && LongEnough(l, res, lens[i]); }
    }
  }

  /** The segment lengths that all channels share: the loop of lines 240-273. */
  function SharedLengths(bits: seq<Bit>, pos: nat, l: Limits, res: nat, lens: seq<nat>): (r: Parse<(nat, seq<nat>)>)
    requires Sane(l) && FitsSoFar(l, res, lens) && |lens| <= l.maxSegs
    ensures r.Done? ==> pos <= r.pos <= |bits| && FitsSoFar(l, r.value.0, r.value.1) && |r.value.1| <= l.maxSegs
    decreases l.maxSegs - |lens|
  {
    var (endOfChannel, p) :- GetBits(bits, pos, 1);
    if endOfChannel != 0 then Done((res, lens), p)
    else if |lens| >= l.maxSegs then Fail(TOO_MANY_SEGMENTS)
    else
      var (v, q) :- ReadLength(bits, p, l, res, lens);
      SharedLengths(bits, q, l, v.0, lens + [v.1])
  }

  predicate AllFit(l: Limits, res: nat, done: seq<seq<nat>>)
    requires Sane(l)
  {
    forall c {:trigger done[c]} :: 0 <= c < |done| ==> ChannelFits(l, res, done[c])
  }

  predicate ChannelFits(l: Limits, res: nat, lens: seq<nat>)
    requires Sane(l)
  {
    FitsSoFar(l, res, lens) && |lens| < l.maxSegs
  }

  /** Before the resolution is read only empty lists have been seen. */
  predicate Unread(res: nat, done: seq<seq<nat>>) {
    res == 0 ==> forall c :: 0 <= c < |done| ==> done[c] == []
  }

  lemma ResolutionKnown(l: Limits, res: nat, newRes: nat, done: seq<seq<nat>>)
    requires Sane(l) && AllFit(l, res, done) && Unread(res, done)
    requires 0 < newRes <= Room(l) && (res > 0 ==> newRes == res)
    ensures AllFit(l, newRes, done) && Unread(newRes, done)
  {
    forall c | 0 <= c < |done| ensures ChannelFits(l, newRes, done[c]) {
      assert ChannelFits(l, res, done[c]);
    }
  }

  /** The segment lengths channel by channel: the loop of lines 286-331. */
  function ChannelLengths(bits: seq<Bit>, pos: nat, l: Limits, channels: nat, res: nat,
                          done: seq<seq<nat>>, lens: seq<nat>): (r: Parse<(nat, seq<seq<nat>>)>)
    requires Sane(l) && FitsSoFar(l, res, lens) && |lens| <= l.maxSegs && AllFit(l, res, done)
    requires |done| <= channels && Unread(res, done)
    ensures r.Done? ==> pos <= r.pos && AllFit(l, r.value.0, r.value.1) && |r.value.1| == channels
    ensures r.Done? ==> Unread(r.value.0, r.value.1)
    decreases channels - |done|, l.maxSegs - |lens|
  {
    if |done| == channels then Done((res, done), pos)
    else if |lens| >= l.maxSegs then Fail(TOO_MANY_SEGMENTS)
    else
      var (endOfChannel, p) :- GetBits(bits, pos, 1);
      if endOfChannel != 0 then
        ChannelLengths(bits, p, l, channels, res, done + [lens], [])
      else
        var (v, q) :- ReadLength(bits, p, l, res, lens);
        ResolutionKnown(l, res, v.0, done);
        ChannelLengths(bits, q, l, channels, v.0, done, lens + [v.1])
  }

  /** A segmentation: lengths of all but the last segment of each channel, in units of the resolution. */
  datatype Segments = Segments(same: Bit, resolution: nat, lens: seq<seq<nat>>)

  function ReadSegments(bits: seq<Bit>, pos: nat, l: Limits, channels: nat): Parse<Segments>
    requires Sane(l)
  {
    var (same, p) :- GetBits(bits, pos, 1);
    if same == 1 then
      var (v, q) :- SharedLengths(bits, p, l, 0, []);
      Done(Segments(1, if v.0 == 0 then 1 else v.0, Copies(v.1, channels)), q)
    else
      var (v, q) :- ChannelLengths(bits, p, l, channels, 0, [], []);
      Done(Segments(0, if v.0 == 0 then 1 else v.0, v.1), q)
  }

  /** First bit of segment i. */
  function StartOf(s: Segments, c: nat, i: nat): nat
    requires c < |s.lens| && i <= |s.lens[c]|
  {
    8 * Used(s.resolution, s.lens[c][..i])
  }

  /** The segment after i, or the end of the frame. */
  function EndOf(s: Segments, frameLen: nat, c: nat, i: nat): nat
    requires c < |s.lens| && i <= |s.lens[c]|
  {
    if i == |s.lens[c]| then 8 * frameLen else StartOf(s, c, i + 1)
  }

  /** A cut of every channel into consecutive segments that cover the frame, none below the minimum. */
  ghost predicate Partition(s: Segments, l: Limits, channels: nat) {
    && |s.lens| == channels
    && forall c :: 0 <= c < channels ==>
         && StartOf(s, c, 0) == 0
         && (forall i :: 0 <= i <= |s.lens[c]| ==> StartOf(s, c, i) + l.minLen <= EndOf(s, l.frameLen, c, i))
         && (forall i :: 0 <= i < |s.lens[c]| ==> EndOf(s, l.frameLen, c, i) == StartOf(s, c, i + 1))
  }

  lemma {:induction false} UsedPrefix(res: nat, lens: seq<nat>, i: nat)
    requires i <= |lens|
    ensures Used(res, lens[..i]) <= Used(res, lens)
  {
    if i < |lens| {
      UsedPrefix(res, lens[..|lens| - 1], i);
      assert lens[..|lens| - 1][..i] == lens[..i];
      assert res * lens[|lens| - 1] >= 0;
    } else {
      assert lens[..i] == lens;
    }
  }

  lemma UsedStep(res: nat, lens: seq<nat>, i: nat)
    requires i < |lens|
    ensures Used(res, lens[..i + 1]) == Used(res, lens[..i]) + res * lens[i]
  {
    assert lens[..i + 1][..i] == lens[..i];
  }

  lemma FitsIsPartition(l: Limits, res: nat, lens: seq<nat>, i: nat)
    requires Sane(l) && FitsSoFar(l, res, lens) && i <= |lens|
    ensures i == |lens| ==> 8 * Used(res, lens[..i]) + l.minLen <= 8 * l.frameLen
    ensures i < |lens| ==> 8 * Used(res, lens[..i]) + l.minLen <= 8 * Used(res, lens[..i + 1])
  {
    if i < |lens| {
      UsedStep(res, lens, i);
      assert LongEnough(l, res, lens[i]);
    } else {
      assert lens[..i] == lens;
    }
  }

  lemma AcceptedRowFits(bits: seq<Bit>, pos: nat, l: Limits, channels: nat, c: nat)
    requires Sane(l) && ReadSegments(bits, pos, l, channels).Done? && c < channels
    ensures var s := ReadSegments(bits, pos, l, channels).value;
            |s.lens| == channels && FitsSoFar(l, s.resolution, s.lens[c]) && |s.lens[c]| + 1 <= l.maxSegs + s.same
  {
    var s := ReadSegments(bits, pos, l, channels).value;
    if s.same == 0 {
      var r := ChannelLengths(bits, pos + 1, l, channels, 0, [], []);
      assert ChannelFits(l, r.value.0, r.value.1[c]);
    }
  }

  /** An accepted segmentation cuts every channel into segments of at least the minimum length that
      cover the frame; with one list for all channels there may be one segment more than the limit. */
  lemma AcceptedSegmentsPartition(bits: seq<Bit>, pos: nat, l: Limits, channels: nat)
    requires Sane(l) && ReadSegments(bits, pos, l, channels).Done?
    ensures var s := ReadSegments(bits, pos, l, channels).value;
            Partition(s, l, channels) && s.resolution > 0
            && forall c :: 0 <= c < channels ==> |s.lens[c]| + 1 <= l.maxSegs + s.same
  {
    var s := ReadSegments(bits, pos, l, channels).value;
    forall c | 0 <= c < channels
      ensures FitsSoFar(l, s.resolution, s.lens[c]) && |s.lens[c]| + 1 <= l.maxSegs + s.same
    {
      AcceptedRowFits(bits, pos, l, channels, c);
    }
    forall c, i | 0 <= c < channels && 0 <= i <= |s.lens[c]|
      ensures StartOf(s, c, i) + l.minLen <= EndOf(s, l.frameLen, c, i)
    {
      FitsIsPartition(l, s.resolution, s.lens[c], i);
    }
  }

  /* Writing a segmentation, and reading it back. */

  /** One length, after the resolution if no length came before it. */
  function LengthField(l: Limits, res: nat, known: bool, lens: seq<nat>, i: nat): seq<Bit>
    requires Sane(l) && FitsSoFar(l, res, lens) && i < |lens|
  {
    (if known then [] else BitsOf(res, Log2RoundUp(Room(l)))) + UnitsField(l, res, lens, i)
  }

  function UnitsField(l: Limits, res: nat, lens: seq<nat>, i: nat): seq<Bit>
    requires Sane(l) && FitsSoFar(l, res, lens) && i < |lens|
  {
    UsedPrefix(res, lens, i);
    BitsOf(lens[i], UnitsWidth(l, res, Used(res, lens[..i])))
  }

  /** The lengths of a channel from i on, each after a 0, and a closing 1. */
  function WriteLengths(l: Limits, res: nat, known: bool, lens: seq<nat>, i: nat): seq<Bit>
    requires Sane(l) && FitsSoFar(l, res, lens) && i <= |lens|
    decreases |lens| - i
  {
    if i == |lens| then [1]
    else [0] + LengthField(l, res, known, lens, i) + WriteLengths(l, res, true, lens, i + 1)
  }

  function WriteChannels(l: Limits, res: nat, known: bool, rows: seq<seq<nat>>): seq<Bit>
    requires Sane(l) && AllFit(l, res, rows)
    decreases |rows|
  {
    if rows == [] then []
    else
      assert ChannelFits(l, res, rows[0]);
      RestFits(l, res, rows);
      WriteLengths(l, res, known, rows[0], 0) + WriteChannels(l, res, known || rows[0] != [], rows[1..])
  }

  lemma RestFits(l: Limits, res: nat, rows: seq<seq<nat>>)
    requires Sane(l) && AllFit(l, res, rows) && rows != []
    ensures AllFit(l, res, rows[1..])
  {
    forall c | 0 <= c < |rows[1..]| ensures ChannelFits(l, res, rows[1..][c]) {
      assert ChannelFits(l, res, rows[c + 1]);
    }
  }

  /** Segmentations that can be written down; without any length the resolution is 1. */
  ghost predicate Writable(s: Segments, l: Limits, channels: nat) {
    && Sane(l) && |s.lens| == channels > 0
    && (if s.same == 1
        then FitsSoFar(l, s.resolution, s.lens[0]) && |s.lens[0]| <= l.maxSegs
             && s.lens == Copies(s.lens[0], channels)
        else AllFit(l, s.resolution, s.lens))
    && (!AnyLength(s.lens) ==> s.resolution == 1)
  }

  function WriteSegments(s: Segments, l: Limits, channels: nat): seq<Bit>
    requires Writable(s, l, channels)
  {
    [s.same] + if s.same == 1 then WriteLengths(l, s.resolution, false, s.lens[0], 0)
               else WriteChannels(l, s.resolution, false, s.lens)
  }

  lemma QuotientBound(rest: nat, res: nat, len: nat)
    requires res > 0 && res * len <= rest
    ensures len <= rest / res
  {
    var q := rest / res;
    assert rest == q * res + rest % res;
    if len > q { MulMonotone(q + 1, len, res); }
  }

  lemma PrefixFits(l: Limits, res: nat, lens: seq<nat>, i: nat)
    requires Sane(l) && FitsSoFar(l, res, lens) && i < |lens|
    ensures FitsSoFar(l, res, lens[..i])
    ensures LongEnough(l, res, lens[i]) && Used(res, lens[..i]) + res * lens[i] <= Room(l)
  {
    UsedPrefix(res, lens, i);
    UsedPrefix(res, lens, i + 1);
    UsedStep(res, lens, i);
    assert LongEnough(l, res, lens[i]);
    forall j | 0 <= j < i ensures LongEnough(l, res, lens[..i][j]) {
      assert lens[..i][j] == lens[j] && LongEnough(l, res, lens[j]);
    }
  }

  lemma UnitsReadBack(bits: seq<Bit>, pos: nat, l: Limits, res: nat, used: nat, len: nat)
    requires Sane(l) && res > 0 && LongEnough(l, res, len) && used + res * len <= Room(l)
    requires At(bits, pos, BitsOf(len, UnitsWidth(l, res, used)))
    ensures ReadUnits(bits, pos, l, res, used) == Done(len, pos + UnitsWidth(l, res, used))
  {
    QuotientBound(Room(l) - used, res, len);
    Log2Bounds((Room(l) - used) / res);
    ReadField(bits, pos, len, UnitsWidth(l, res, used));
  }

  lemma LengthReadBack(bits: seq<Bit>, pos: nat, l: Limits, res: nat, known: bool, lens: seq<nat>, i: nat)
    requires Sane(l) && FitsSoFar(l, res, lens) && i < |lens| && (known || i == 0)
    requires At(bits, pos, LengthField(l, res, known, lens, i))
    ensures FitsSoFar(l, if known then res else 0, lens[..i])
    ensures ReadLength(bits, pos, l, if known then res else 0, lens[..i])
            == Done((res, lens[i]), pos + |LengthField(l, res, known, lens, i)|)
  {
    PrefixFits(l, res, lens, i);
    var head := if known then [] else BitsOf(res, Log2RoundUp(Room(l)));
    AtSplit(bits, pos, head, UnitsField(l, res, lens, i));
    if !known {
      Log2Bounds(Room(l));
      ReadField(bits, pos, res, Log2RoundUp(Room(l)));
    }
    UnitsReadBack(bits, pos + |head|, l, res, Used(res, lens[..i]), lens[i]);
  }

  lemma Snoc<T>(s: seq<T>, i: nat)
    requires i < |s|
    ensures s[..i] + [s[i]] == s[..i + 1]
  {
  }

  lemma Shift<T>(s: seq<T>, t: seq<T>)
    requires t != []
    ensures s + [t[0]] + t[1..] == s + t
  {
  }

  lemma SharedStep(bits: seq<Bit>, pos: nat, l: Limits, res: nat, lens: seq<nat>, res': nat, len: nat, q: nat)
    requires Sane(l) && FitsSoFar(l, res, lens) && |lens| < l.maxSegs
    requires GetBits(bits, pos, 1) == Done(0, pos + 1) && ReadLength(bits, pos + 1, l, res, lens) == Done((res', len), q)
    ensures FitsSoFar(l, res', lens + [len])
    ensures SharedLengths(bits, pos, l, res, lens) == SharedLengths(bits, q, l, res', lens + [len])
  {
  }

  lemma ChannelStep(bits: seq<Bit>, pos: nat, l: Limits, channels: nat, res: nat, done: seq<seq<nat>>, lens: seq<nat>,
                    res': nat, len: nat, q: nat)
    requires Sane(l) && FitsSoFar(l, res, lens) && |lens| < l.maxSegs && AllFit(l, res, done)
    requires |done| < channels && Unread(res, done)
    requires GetBits(bits, pos, 1) == Done(0, pos + 1) && ReadLength(bits, pos + 1, l, res, lens) == Done((res', len), q)
    ensures FitsSoFar(l, res', lens + [len]) && AllFit(l, res', done) && Unread(res', done)
    ensures ChannelLengths(bits, pos, l, channels, res, done, lens)
            == ChannelLengths(bits, q, l, channels, res', done, lens + [len])
  {
    ResolutionKnown(l, res, res', done);
  }

  lemma LengthsUnfold(l: Limits, res: nat, known: bool, lens: seq<nat>, i: nat)
    requires Sane(l) && FitsSoFar(l, res, lens) && i < |lens|
    ensures WriteLengths(l, res, known, lens, i)
            == [0] + LengthField(l, res, known, lens, i) + WriteLengths(l, res, true, lens, i + 1)
  {
    hide LengthField, FitsSoFar;
  }

  /** The first field of WriteLengths and what follows it. */
  lemma LengthsSplit(bits: seq<Bit>, pos: nat, l: Limits, res: nat, known: bool, lens: seq<nat>, i: nat)
    requires Sane(l) && FitsSoFar(l, res, lens) && i < |lens| && (known || i == 0)
    requires At(bits, pos, WriteLengths(l, res, known, lens, i))
    ensures var n := |LengthField(l, res, known, lens, i)|;
            && GetBits(bits, pos, 1) == Done(0, pos + 1)
            && FitsSoFar(l, if known then res else 0, lens[..i])
            && ReadLength(bits, pos + 1, l, if known then res else 0, lens[..i]) == Done((res, lens[i]), pos + 1 + n)
            && At(bits, pos + 1 + n, WriteLengths(l, res, true, lens, i + 1))
            && |WriteLengths(l, res, known, lens, i)| == 1 + n + |WriteLengths(l, res, true, lens, i + 1)|
  {
    hide WriteLengths, LengthField, ReadLength, GetBits, At, FitsSoFar;
    var field := LengthField(l, res, known, lens, i);
    LengthsUnfold(l, res, known, lens, i);
    AtSplit(bits, pos, [0] + field, WriteLengths(l, res, true, lens, i + 1));
    AtSplit(bits, pos, [0], field);
    ReadFlag(bits, pos, 0);
    LengthReadBack(bits, pos + 1, l, res, known, lens, i);
  }

  lemma {:induction false} SharedReadBack(bits: seq<Bit>, pos: nat, l: Limits, res: nat, known: bool, lens: seq<nat>, i: nat)
    requires Sane(l) && FitsSoFar(l, res, lens) && i <= |lens| <= l.maxSegs && (known <==> i > 0)
    requires At(bits, pos, WriteLengths(l, res, known, lens, i))
    ensures FitsSoFar(l, if known then res else 0, lens[..i])
    ensures SharedLengths(bits, pos, l, if known then res else 0, lens[..i])
            == Done((if lens == [] then 0 else res, lens), pos + |WriteLengths(l, res, known, lens, i)|)
    decreases |lens| - i
  {
    hide ReadLength, LengthField, GetBits, At, FitsSoFar, SharedLengths, WriteLengths;
    if i == |lens| {
      SharedEnd(bits, pos, l, res, known, lens);
      assert lens[..i] == lens;
    } else {
      LengthsSplit(bits, pos, l, res, known, lens, i);
      var q := pos + 1 + |LengthField(l, res, known, lens, i)|;
      SharedStep(bits, pos, l, if known then res else 0, lens[..i], res, lens[i], q);
      Snoc(lens, i);
      SharedReadBack(bits, q, l, res, true, lens, i + 1);
    }
  }

  lemma SharedEnd(bits: seq<Bit>, pos: nat, l: Limits, res: nat, known: bool, lens: seq<nat>)
    requires Sane(l) && FitsSoFar(l, res, lens) && |lens| <= l.maxSegs && (known <==> |lens| > 0)
    requires At(bits, pos, WriteLengths(l, res, known, lens, |lens|))
    ensures |WriteLengths(l, res, known, lens, |lens|)| == 1
    ensures FitsSoFar(l, if known then res else 0, lens)
    ensures SharedLengths(bits, pos, l, if known then res else 0, lens) == Done((if lens == [] then 0 else res, lens), pos + 1)
  {
    ReadFlag(bits, pos, 1);
  }

  /** Reading one channel's lengths from the stream of channels. */
  lemma {:induction false} ChannelReadBack(bits: seq<Bit>, pos: nat, l: Limits, channels: nat, res: nat, known: bool,
                                           done: seq<seq<nat>>, lens: seq<nat>, i: nat)
    requires Sane(l) && ChannelFits(l, res, lens) && i <= |lens| && (known || i == 0)
    requires AllFit(l, if known then res else 0, done) && Unread(if known then res else 0, done) && |done| < channels
    requires At(bits, pos, WriteLengths(l, res, known, lens, i))
    ensures FitsSoFar(l, if known then res else 0, lens[..i])
    ensures var res' := if known || i < |lens| then res else 0;
            && AllFit(l, res', done + [lens]) && Unread(res', done + [lens])
            && ChannelLengths(bits, pos, l, channels, if known then res else 0, done, lens[..i])
               == ChannelLengths(bits, pos + |WriteLengths(l, res, known, lens, i)|, l, channels, res', done + [lens], [])
    decreases |lens| - i
  {
    hide ReadLength, LengthField, GetBits, At, FitsSoFar, ChannelLengths, WriteLengths, Unread, AllFit;
    var res0 := if known then res else 0;
    if i == |lens| {
      ChannelEnd(bits, pos, l, channels, res, known, done, lens);
      assert lens[..i] == lens;
    } else {
      LengthsSplit(bits, pos, l, res, known, lens, i);
      var q := pos + 1 + |LengthField(l, res, known, lens, i)|;
      ChannelStep(bits, pos, l, channels, res0, done, lens[..i], res, lens[i], q);
      Snoc(lens, i);
      ChannelReadBack(bits, q, l, channels, res, true, done, lens, i + 1);
    }
  }

  lemma ChannelEnd(bits: seq<Bit>, pos: nat, l: Limits, channels: nat, res: nat, known: bool,
                   done: seq<seq<nat>>, lens: seq<nat>)
    requires Sane(l) && ChannelFits(l, res, lens) && (known || lens == [])
    requires AllFit(l, if known then res else 0, done) && Unread(if known then res else 0, done) && |done| < channels
    requires At(bits, pos, WriteLengths(l, res, known, lens, |lens|))
    ensures |WriteLengths(l, res, known, lens, |lens|)| == 1
    ensures FitsSoFar(l, if known then res else 0, lens)
    ensures var res' := if known then res else 0;
            && AllFit(l, res', done + [lens]) && Unread(res', done + [lens])
            && ChannelLengths(bits, pos, l, channels, res', done, lens)
               == ChannelLengths(bits, pos + 1, l, channels, res', done + [lens], [])
  {
    ReadFlag(bits, pos, 1);
    AppendFits(l, if known then res else 0, done, lens);
  }

  lemma AppendFits(l: Limits, res: nat, done: seq<seq<nat>>, lens: seq<nat>)
    requires Sane(l) && AllFit(l, res, done) && Unread(res, done) && res <= Room(l)
    requires (if res == 0 then lens == [] && 0 < l.maxSegs else ChannelFits(l, res, lens))
    ensures AllFit(l, res, done + [lens]) && Unread(res, done + [lens])
  {
    forall c | 0 <= c < |done| + 1 ensures ChannelFits(l, res, (done + [lens])[c]) {
      if c < |done| { assert ChannelFits(l, res, done[c]); }
    }
  }

  predicate AnyLength(rows: seq<seq<nat>>) {
    rows != [] && (rows[0] != [] || AnyLength(rows[1..]))
  }

  lemma {:induction false} NoLength(rows: seq<seq<nat>>)
    ensures (forall c :: 0 <= c < |rows| ==> rows[c] == []) ==> !AnyLength(rows)
  {
    if rows != [] { NoLength(rows[1..]); }
  }

  lemma {:induction false} AnyLengthFits(l: Limits, res: nat, rows: seq<seq<nat>>)
    requires Sane(l) && AllFit(l, res, rows)
    ensures AnyLength(rows) ==> res > 0
  {
    if rows != [] {
      assert ChannelFits(l, res, rows[0]);
      RestFits(l, res, rows);
      AnyLengthFits(l, res, rows[1..]);
    }
  }

  lemma {:induction false} ChannelsReadBack(bits: seq<Bit>, pos: nat, l: Limits, channels: nat, res: nat, known: bool,
                                            done: seq<seq<nat>>, rows: seq<seq<nat>>)
    requires Sane(l) && res <= Room(l) && AllFit(l, res, rows) && channels == |done| + |rows|
    requires AllFit(l, if known then res else 0, done) && Unread(if known then res else 0, done)
    requires At(bits, pos, WriteChannels(l, res, known, rows))
    ensures ChannelLengths(bits, pos, l, channels, if known then res else 0, done, [])
            == Done((if known || AnyLength(rows) then res else 0, done + rows),
                    pos + |WriteChannels(l, res, known, rows)|)
    decreases |rows|
  {
    hide ReadLength, GetBits, FitsSoFar, WriteLengths, AllFit, Unread, At;
    if rows == [] {
      assert done + rows == done;
    } else {
      FirstChannel(bits, pos, l, channels, res, known, done, rows);
      ChannelsReadBack(bits, pos + |WriteLengths(l, res, known, rows[0], 0)|, l, channels,
                       res, known || rows[0] != [], done + [rows[0]], rows[1..]);
      Shift(done, rows);
    }
  }

  lemma FirstChannel(bits: seq<Bit>, pos: nat, l: Limits, channels: nat, res: nat, known: bool,
                     done: seq<seq<nat>>, rows: seq<seq<nat>>)
    requires Sane(l) && res <= Room(l) && AllFit(l, res, rows) && channels == |done| + |rows| && rows != []
    requires AllFit(l, if known then res else 0, done) && Unread(if known then res else 0, done)
    requires At(bits, pos, WriteChannels(l, res, known, rows))
    ensures ChannelFits(l, res, rows[0]) && AllFit(l, res, rows[1..])
    ensures var w := WriteLengths(l, res, known, rows[0], 0);
            var known' := known || rows[0] != [];
            var res' := if known' then res else 0;
            && AllFit(l, res', done + [rows[0]]) && Unread(res', done + [rows[0]])
            && At(bits, pos + |w|, WriteChannels(l, res, known', rows[1..]))
            && |WriteChannels(l, res, known, rows)| == |w| + |WriteChannels(l, res, known', rows[1..])|
            && ChannelLengths(bits, pos, l, channels, if known then res else 0, done, [])
               == ChannelLengths(bits, pos + |w|, l, channels, res', done + [rows[0]], [])
  {
    hide WriteChannels, WriteLengths, ReadLength, GetBits, At, FitsSoFar, ChannelLengths, Unread, AllFit, ChannelFits;
    var lens := rows[0];
    FirstOfChannels(l, res, known, rows);
    AtSplit(bits, pos, WriteLengths(l, res, known, lens, 0), WriteChannels(l, res, known || lens != [], rows[1..]));
    ChannelReadBack(bits, pos, l, channels, res, known, done, lens, 0);
    assert lens[..0] == [];
  }

  lemma FirstOfChannels(l: Limits, res: nat, known: bool, rows: seq<seq<nat>>)
    requires Sane(l) && AllFit(l, res, rows) && rows != []
    ensures ChannelFits(l, res, rows[0]) && FitsSoFar(l, res, rows[0]) && AllFit(l, res, rows[1..])
    ensures WriteChannels(l, res, known, rows)
            == WriteLengths(l, res, known, rows[0], 0) + WriteChannels(l, res, known || rows[0] != [], rows[1..])
  {
    hide WriteLengths;
    assert ChannelFits(l, res, rows[0]);
    RestFits(l, res, rows);
  }

  lemma SharedRoundTrip(bits: seq<Bit>, pos: nat, s: Segments, l: Limits, channels: nat)
    requires Writable(s, l, channels) && s.same == 1 && At(bits, pos, WriteSegments(s, l, channels))
    ensures ReadSegments(bits, pos, l, channels) == Done(s, pos + |WriteSegments(s, l, channels)|)
  {
    hide WriteLengths, SharedLengths, GetBits, At;
    AtSplit(bits, pos, [1], WriteLengths(l, s.resolution, false, s.lens[0], 0));
    ReadFlag(bits, pos, 1);
    SharedReadBack(bits, pos + 1, l, s.resolution, false, s.lens[0], 0);
    assert s.lens[0][..0] == [];
    NoLength(s.lens);
  }

  lemma ChannelsRoundTrip(bits: seq<Bit>, pos: nat, s: Segments, l: Limits, channels: nat)
    requires Writable(s, l, channels) && s.same == 0 && At(bits, pos, WriteSegments(s, l, channels))
    ensures ReadSegments(bits, pos, l, channels) == Done(s, pos + |WriteSegments(s, l, channels)|)
  {
    assert ChannelFits(l, s.resolution, s.lens[0]);
    AnyLengthFits(l, s.resolution, s.lens);
    hide WriteChannels, ChannelLengths, GetBits, At, AnyLength;
    AtSplit(bits, pos, [0], WriteChannels(l, s.resolution, false, s.lens));
    ReadFlag(bits, pos, 0);
    ChannelsReadBack(bits, pos + 1, l, channels, s.resolution, false, [], s.lens);
    assert [] + s.lens == s.lens;
  }

  /** Every segmentation that can be written reads back as itself, using exactly its bits. */
  lemma SegmentsRoundTrip(bits: seq<Bit>, pos: nat, s: Segments, l: Limits, channels: nat)
    requires Writable(s, l, channels) && At(bits, pos, WriteSegments(s, l, channels))
    ensures ReadSegments(bits, pos, l, channels) == Done(s, pos + |WriteSegments(s, l, channels)|)
  {
    if s.same == 1 {
      SharedRoundTrip(bits, pos, s, l, channels);
    } else {
      ChannelsRoundTrip(bits, pos, s, l, channels);
    }
    hide ReadSegments, WriteSegments, Writable, At;
  }

  lemma {:induction false} UsedCopies(res: nat, len: nat, n: nat)
    ensures Used(res, Copies(len, n)) == n * (res * len)
  {
    if n > 0 {
      UsedCopies(res, len, n - 1);
      assert Copies(len, n)[..n - 1] == Copies(len, n - 1);
      assert n * (res * len) == (n - 1) * (res * len) + res * len;
    }
  }

  lemma OneMoreFits(n: nat, res: nat)
    requires n > 0
    ensures (n + 1) * res == n * (res * 1) + res && res <= n * (res * 1)
  {
    MulMonotone(1, n, res);
  }

  lemma SmallestFit(l: Limits, n: nat)
    requires Sane(l) && n > 0 && (n + 1) * (l.minLen / 8) <= l.frameLen
    ensures FitsSoFar(l, l.minLen / 8, Copies(1, n))
  {
    var res := l.minLen / 8;
    UsedCopies(res, 1, n);
    OneMoreFits(n, res);
    assert LongEnough(l, res, 1);
  }

  /** One segment more than the limit is accepted when the channels share their list: as many of the
      smallest segments as the limit, and a rest. */
  lemma OneSegmentMore(l: Limits, channels: nat)
    requires Sane(l) && channels > 0 && (l.maxSegs + 1) * (l.minLen / 8) <= l.frameLen
    ensures var s := Segments(1, l.minLen / 8, Copies(Copies(1, l.maxSegs), channels));
            Writable(s, l, channels)
            && ReadSegments(WriteSegments(s, l, channels), 0, l, channels) == Done(s, |WriteSegments(s, l, channels)|)
  {
    hide FitsSoFar, WriteLengths, ReadSegments;
    SmallestFit(l, l.maxSegs);
    var s := Segments(1, l.minLen / 8, Copies(Copies(1, l.maxSegs), channels));
    assert s.lens[0] == Copies(1, l.maxSegs);
    var w := WriteSegments(s, l, channels);
    assert w[0..0 + |w|] == w;
    SegmentsRoundTrip(w, 0, s, l, channels);
  }
}
