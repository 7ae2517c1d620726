/** A whole DST frame as a function of its bytes, and the lossless round trip. */
module FrameDecoding {
  import opened Bits
  import opened BitReader
  import opened Segmentation
  import opened TableMapping
  import opened FrameTables
  import opened FrameLayout
  import opened Coefs
  import opened Predictor
  import opened ArithDecoder
  import opened FrameCodec

  /* Where the bits of the channels go in the frame. */

  /** Bit t, counted from the top, of byte j of a multiplexed frame. */
  function BitPlace(channels: nat, j: nat, t: nat): nat
    requires channels > 0
  {
    (j / channels * 8 + t) * channels + j % channels
  }

  function BitsInByte(y: seq<Bit>, channels: nat, j: nat): (s: seq<Bit>)
    requires channels > 0
    ensures |s| == 8
  {
    seq(8, t requires 0 <= t < 8 => CodeBit(y, BitPlace(channels, j, t)))
  }

  /** The first n bytes of the frame with these bits; bits not yet decoded are 0. */
  function FrameBytes(y: seq<Bit>, channels: nat, n: nat): (f: seq<Byte>)
    requires channels > 0
    ensures |f| == n
  {
    seq(n, j requires 0 <= j < n => ByteOfBits(BitsInByte(y, channels, j)))
  }

  function ByteOfBits(s: seq<Bit>): (b: Byte)
    requires |s| == 8
    ensures b == Value(s)
  {
    ValueBound(s);
    Pow2Values();
    Value(s)
  }

  /** The bits of a frame in decoding order. */
  function FrameBits(frame: seq<Byte>, channels: nat): (y: seq<Bit>)
    requires channels > 0 && |frame| % channels == 0
    ensures |y| == 8 * |frame|
  {
    seq(8 * |frame|, k requires 0 <= k < 8 * |frame| => FrameBit(frame, channels, k))
  }

  function FrameBit(frame: seq<Byte>, channels: nat, k: nat): Bit
    requires channels > 0 && |frame| % channels == 0 && k < 8 * |frame|
  {
    InFrame(|frame|, channels, k);
    BitsOf(frame[ByteOf(channels, k)], 8)[k / channels % 8]
  }

  /** The byte that holds bit k. */
  function ByteOf(channels: nat, k: nat): nat
    requires channels > 0
  {
    k / channels / 8 * channels + k % channels
  }

  lemma InFrame(n: nat, channels: nat, k: nat)
    requires channels > 0 && n % channels == 0 && k < 8 * n
    ensures ByteOf(channels, k) < n
  {
    var rows := n / channels;
    assert n == rows * channels;
    EightRows(rows, channels);
    var b := k / channels;
    assert k == b * channels + k % channels;
    if b >= 8 * rows { MulMonotone(8 * rows, b, channels); }
    Cell(b / 8, k % channels, channels, rows);
  }

  lemma EightRows(rows: nat, channels: nat)
    ensures 8 * rows * channels == 8 * (rows * channels)
  {
  }

  lemma OneMoreRow(r: nat, channels: nat)
    ensures (r + 1) * channels == r * channels + channels
  {
  }

  /** A place's bit number, channel and byte. */
  lemma PlaceParts(channels: nat, j: nat, t: nat)
    requires channels > 0 && t < 8
    ensures var k := BitPlace(channels, j, t);
            && k / channels == j / channels * 8 + t && k % channels == j % channels
            && k / channels / 8 * channels + k % channels == j && k / channels % 8 == t
  {
    DivUnique(BitPlace(channels, j, t), channels, j / channels * 8 + t, j % channels);
    assert j == j / channels * channels + j % channels;
  }

  lemma Cell(x: nat, m: nat, channels: nat, rows: nat)
    requires m < channels && x < rows
    ensures x * channels + m < rows * channels
  {
    MulMonotone(x + 1, rows, channels);
    OneMoreRow(x, channels);
  }

  lemma RowBound(n: nat, channels: nat, j: nat)
    requires channels > 0 && n % channels == 0 && j < n
    ensures j / channels < n / channels && (8 * (n / channels)) * channels == 8 * n
  {
    var rows := n / channels;
    assert n == rows * channels;
    var r := j / channels;
    assert j == r * channels + j % channels;
    if r >= rows { MulMonotone(rows, r, channels); }
    EightRows(rows, channels);
  }

  lemma PlaceBound(n: nat, channels: nat, j: nat, t: nat)
    requires channels > 0 && n % channels == 0 && j < n && t < 8
    ensures BitPlace(channels, j, t) < 8 * n
  {
    RowBound(n, channels, j);
    Cell(j / channels * 8 + t, j % channels, channels, 8 * (n / channels));
  }

  /** Taking a frame apart into bits and putting the bits in their places gives the frame. */
  lemma BytesOfFrameBits(frame: seq<Byte>, channels: nat)
    requires channels > 0 && |frame| % channels == 0
    ensures FrameBytes(FrameBits(frame, channels), channels, |frame|) == frame
  {
    var y := FrameBits(frame, channels);
    forall j | 0 <= j < |frame| ensures FrameBytes(y, channels, |frame|)[j] == frame[j] {
      OneFrameByte(frame, channels, j);
    }
  }

  lemma OneFrameByte(frame: seq<Byte>, channels: nat, j: nat)
    requires channels > 0 && |frame| % channels == 0 && j < |frame|
    ensures Value(BitsInByte(FrameBits(frame, channels), channels, j)) == frame[j]
  {
    hide BitPlace;
    var s := BitsInByte(FrameBits(frame, channels), channels, j);
    forall t | 0 <= t < 8 ensures s[t] == BitsOf(frame[j], 8)[t] {
      PlaceParts(channels, j, t);
      PlaceBound(|frame|, channels, j, t);
    }
    assert s == BitsOf(frame[j], 8);
    Pow2Values();
    ValueOfBits(frame[j], 8);
  }

  lemma PlaceOf(channels: nat, k: nat)
    requires channels > 0
    ensures BitPlace(channels, k / channels / 8 * channels + k % channels, k / channels % 8) == k
  {
    var b := k / channels;
    var m := k % channels;
    DivUnique(b / 8 * channels + m, channels, b / 8, m);
    assert b / 8 * 8 + b % 8 == b;
    assert k == b * channels + m;
  }

  /** The bytes of a frame determine its bits. */
  lemma FrameBytesDetermine(y: seq<Bit>, frame: seq<Byte>, channels: nat)
    requires channels > 0 && |frame| % channels == 0 && |y| == 8 * |frame|
    requires FrameBytes(y, channels, |frame|) == frame
    ensures y == FrameBits(frame, channels)
  {
    forall k | 0 <= k < |y| ensures y[k] == FrameBits(frame, channels)[k] {
      OneFrameBit(y, frame, channels, k);
    }
  }

  lemma OneFrameBit(y: seq<Bit>, frame: seq<Byte>, channels: nat, k: nat)
    requires channels > 0 && |frame| % channels == 0 && |y| == 8 * |frame| && k < |y|
    requires FrameBytes(y, channels, |frame|) == frame
    ensures y[k] == FrameBits(frame, channels)[k]
  {
    hide BitPlace;
    InFrame(|frame|, channels, k);
    PlaceOf(channels, k);
    var j := k / channels / 8 * channels + k % channels;
    var s := BitsInByte(y, channels, j);
    BitsOfValue(s);
    assert FrameBytes(y, channels, |frame|)[j] == Value(s);
    assert s[k / channels % 8] == CodeBit(y, k);
  }

  /* Decoding. */

  function FrameSize(c: Config): nat { c.frameLen * c.channels }

  /** The decode loop and the flush. */
  ghost function DecodeCoded(h: Header, c: Config, code: seq<Bit>): Parse<seq<Byte>>
    requires Good(h, c)
  {
    var (r, regs) := DecodeAll(code, ModelOf(h, c), 1 + NumBits(c));
    if Accepts(code, regs) then Done(FrameBytes(Recon(h, c, r[1..]), c.channels, FrameSize(c)), |code|)
    else Fail(DECODER_ERROR)
  }

  /** The frame that the bytes code. The arithmetic code is written out a byte for each bit, into as many
      bytes as the frame has bits; a longer one is written past them. */
  ghost function DecodeFrame(c: Config, data: seq<Byte>): Parse<seq<Byte>>
    requires Usual(c)
  {
    var bits := BitsOfBytes(data);
    var (coded, p) :- GetBits(bits, 0, 1);
    if coded == 0 then
      var (x, q) :- GetBits(bits, p, 1);
      var (stuffing, r) :- GetBits(bits, q, 6);
      if stuffing != 0 then Fail(INVALID_STUFFING)
      else Done(BytesFrom(data, 1, FrameSize(c)), r + 8 * FrameSize(c))
    else
      var (h, q) :- ReadHeader(bits, p, c);
      AcceptedHeaderIsGood(bits, p, c);
      if q > |bits| || |bits| - q > NumBits(c) then Undefined
      else if q < |bits| && bits[q] != 0 then Fail(INVALID_CODE)
      else DecodeCoded(AsStored(h), c, bits[q..])
  }

  /** What the caller gets: the frame, or DSD silence. */
  ghost function Output(c: Config, r: Parse<seq<Byte>>): seq<Byte>
    requires !r.Undefined?
  {
    if r.Done? then r.value else Copies(0x55, FrameSize(c))
  }

  /* An encoder, and the round trip. */

  ghost predicate WritableHeader(h: Header, c: Config, fc: seq<Coding>, pc: seq<Coding>) {
    && WritableLayout(h.layout, c)
    && |fc| == |h.filters| == h.layout.fmap.count && AllInRange(FILTER, h.filters, 128)
    && (forall i {:trigger fc[i]} :: 0 <= i < |fc| ==> CanCode(fc[i], FILTER_TAPS, |h.filters[i]|))
    && |pc| == |h.ptables| == h.layout.pmap.count && AllInRange(PTABLE, h.ptables, 64)
    && (forall i {:trigger pc[i]} :: 0 <= i < |pc| ==> h.ptables[i] == [128] || CanCode(pc[i], PTABLE_TAPS, |h.ptables[i]|))
    && (forall i {:trigger h.ptables[i]} :: 0 <= i < |h.ptables| ==> |h.ptables[i]| == 1 ==> h.ptables[i] == [128])
  }

  /** Each filter, its order less one before it. */
  function WriteFilters(lists: seq<seq<int>>, codings: seq<Coding>): seq<Bit>
    requires |codings| == |lists| && AllInRange(FILTER, lists, 128)
    requires forall i {:trigger codings[i]} :: 0 <= i < |codings| ==> CanCode(codings[i], FILTER_TAPS, |lists[i]|)
    decreases |lists|
  {
    if lists == [] then []
    else
      assert 1 <= |lists[0]| && CanCode(codings[0], FILTER_TAPS, |lists[0]|);
      BitsOf(|lists[0]| - 1, 7) + WriteList(FILTER, FILTER_TAPS, codings[0], lists[0]) + WriteFilters(lists[1..], codings[1..])
  }

  /** Each probability table, its length less one before it; nothing more for a table of one entry. */
  function WritePtables(lists: seq<seq<int>>, codings: seq<Coding>): seq<Bit>
    requires |codings| == |lists| && AllInRange(PTABLE, lists, 64)
    requires forall i {:trigger codings[i]} :: 0 <= i < |codings| ==> lists[i] == [128] || CanCode(codings[i], PTABLE_TAPS, |lists[i]|)
    requires forall i {:trigger lists[i]} :: 0 <= i < |lists| ==> |lists[i]| == 1 ==> lists[i] == [128]
    decreases |lists|
  {
    if lists == [] then []
    else
      assert 1 <= |lists[0]| && (lists[0] == [128] || CanCode(codings[0], PTABLE_TAPS, |lists[0]|));
      BitsOf(|lists[0]| - 1, 6)
      + (if |lists[0]| == 1 then [] else WriteList(PTABLE, PTABLE_TAPS, codings[0], lists[0]))
      + WritePtables(lists[1..], codings[1..])
  }

  function WriteHeader(h: Header, c: Config, fc: seq<Coding>, pc: seq<Coding>): seq<Bit>
    requires WritableHeader(h, c, fc, pc)
  {
    WriteLayout(h.layout, c) + WriteFilters(h.filters, fc) + WritePtables(h.ptables, pc)
  }

  lemma {:induction false} FiltersReadBack(bits: seq<Bit>, pos: nat, done: seq<seq<int>>, lists: seq<seq<int>>, codings: seq<Coding>)
    requires |codings| == |lists| && AllInRange(FILTER, lists, 128)
    requires forall i {:trigger codings[i]} :: 0 <= i < |codings| ==> CanCode(codings[i], FILTER_TAPS, |lists[i]|)
    requires At(bits, pos, WriteFilters(lists, codings))
    ensures ReadFilters(bits, pos, FILTER_TAPS, done, |done| + |lists|) == Done(done + lists, pos + |WriteFilters(lists, codings)|)
    decreases |lists|
  {
    hide At, GetBits, ReadList, WriteList, Pow2;
    if lists == [] {
      assert done + lists == done;
    } else {
      var list := lists[0];
      assert 1 <= |list| <= 128 && CanCode(codings[0], FILTER_TAPS, |list|);
      var a, b, rest := BitsOf(|list| - 1, 7), WriteList(FILTER, FILTER_TAPS, codings[0], list), WriteFilters(lists[1..], codings[1..]);
      AtSplit(bits, pos, a + b, rest);
      AtSplit(bits, pos, a, b);
      Pow2Values();
      ReadField(bits, pos, |list| - 1, 7);
      ListRoundTrip(bits, pos + 7, FILTER, FILTER_TAPS, codings[0], list);
      FiltersReadBack(bits, pos + 7 + |b|, done + [list], lists[1..], codings[1..]);
      Shift(done, lists);
    }
  }

  lemma {:induction false} PtablesReadBack(bits: seq<Bit>, pos: nat, done: seq<seq<int>>, lists: seq<seq<int>>, codings: seq<Coding>)
    requires |codings| == |lists| && AllInRange(PTABLE, lists, 64)
    requires forall i {:trigger codings[i]} :: 0 <= i < |codings| ==> lists[i] == [128] || CanCode(codings[i], PTABLE_TAPS, |lists[i]|)
    requires forall i {:trigger lists[i]} :: 0 <= i < |lists| ==> |lists[i]| == 1 ==> lists[i] == [128]
    requires At(bits, pos, WritePtables(lists, codings))
    ensures ReadPtables(bits, pos, PTABLE_TAPS, done, |done| + |lists|) == Done(done + lists, pos + |WritePtables(lists, codings)|)
    decreases |lists|
  {
    hide At, GetBits, ReadList, WriteList;
    if lists == [] {
      assert done + lists == done;
    } else {
      var list := lists[0];
      assert 1 <= |list| <= 64 && (list == [128] || CanCode(codings[0], PTABLE_TAPS, |list|));
      var a, rest := BitsOf(|list| - 1, 6), WritePtables(lists[1..], codings[1..]);
      var b := if |list| == 1 then [] else WriteList(PTABLE, PTABLE_TAPS, codings[0], list);
      AtSplit(bits, pos, a + b, rest);
      AtSplit(bits, pos, a, b);
      SmallPowers();
      ReadField(bits, pos, |list| - 1, 6);
      if |list| > 1 { ListRoundTrip(bits, pos + 6, PTABLE, PTABLE_TAPS, codings[0], list); }
      PtablesReadBack(bits, pos + 6 + |b|, done + [list], lists[1..], codings[1..]);
      Shift(done, lists);
    }
  }

  /** Every header that can be written reads back as itself, using exactly its bits. */
  lemma HeaderRoundTrip(bits: seq<Bit>, pos: nat, h: Header, c: Config, fc: seq<Coding>, pc: seq<Coding>)
    requires WritableHeader(h, c, fc, pc) && At(bits, pos, WriteHeader(h, c, fc, pc))
    ensures ReadHeader(bits, pos, c) == Done(h, pos + |WriteHeader(h, c, fc, pc)|)
  {
    hide At, ReadLayout, ReadFilters, ReadPtables, WriteLayout, WriteFilters, WritePtables, WritableLayout;
    var a, b, d := WriteLayout(h.layout, c), WriteFilters(h.filters, fc), WritePtables(h.ptables, pc);
    AtSplit(bits, pos, a + b, d);
    AtSplit(bits, pos, a, b);
    LayoutRoundTrip(bits, pos, h.layout, c);
    FiltersReadBack(bits, pos + |a|, [], h.filters, fc);
    PtablesReadBack(bits, pos + |a| + |b|, [], h.ptables, pc);
    assert [] + h.filters == h.filters && [] + h.ptables == h.ptables;
  }

  lemma {:induction false} BitsOfCons(b: Byte, bs: seq<Byte>)
    ensures BitsOfBytes([b] + bs) == BitsOf(b, 8) + BitsOfBytes(bs)
  {
    hide BitsOf;
    if bs == [] {
      assert [b] + bs == [b] && [b][..0] == [];
    } else {
      var front := bs[..|bs| - 1];
      BitsOfCons(b, front);
      assert ([b] + bs)[..|bs|] == [b] + front;
    }
  }

  /** Bytes that hold these bits, filled up with zeros. */
  function Pack(bits: seq<Bit>): seq<Byte>
    decreases |bits|
  {
    if bits == [] then []
    else if |bits| < 8 then [ByteOfBits(bits + Copies(0, 8 - |bits|))]
    else [ByteOfBits(bits[..8])] + Pack(bits[8..])
  }

  lemma {:induction false} PackHolds(bits: seq<Bit>)
    ensures bits <= BitsOfBytes(Pack(bits)) && |BitsOfBytes(Pack(bits))| <= |bits| + 7
    decreases |bits|
  {
    if bits == [] {
    } else if |bits| < 8 {
      var s := bits + Copies(0, 8 - |bits|);
      BitsOfValue(s);
      BitsOfCons(ByteOfBits(s), []);
      assert [ByteOfBits(s)] + [] == [ByteOfBits(s)];
      assert s[..|bits|] == bits;
    } else {
      PackHolds(bits[8..]);
      BitsOfValue(bits[..8]);
      BitsOfCons(ByteOfBits(bits[..8]), Pack(bits[8..]));
      assert bits == bits[..8] + bits[8..];
    }
  }

  lemma FrameSizeDivides(c: Config)
    requires c.channels > 0
    ensures FrameSize(c) % c.channels == 0 && NumBits(c) == 8 * FrameSize(c)
  {
    DivUnique(c.frameLen * c.channels, c.channels, c.frameLen, 0);
    EightRows(c.frameLen, c.channels);
  }

  /** What the arithmetic coder is given: any first bit, then the residuals. */
  ghost function Symbols(h: Header, c: Config, y: seq<Bit>, first: Bit): (r: seq<Bit>)
    requires Good(h, c)
    ensures |r| == 1 + |y|
  {
    [first] + Residuals(h, c, y)
  }

  /** The code of a frame's bits, from exact sums. */
  ghost function EncodeBits(h: Header, c: Config, y: seq<Bit>, first: Bit): seq<Bit>
    requires Good(h, c)
  {
    Encode(EncoderModel(h, c, y), Symbols(h, c, y, first))
  }

  /** Up to the first sum that does not fit, and with it, the decoder gets the encoder's symbols. */
  lemma SymbolsUpTo(h: Header, g: Header, c: Config, y: seq<Bit>, first: Bit, tail: seq<Bit>, j: nat)
    requires Good(h, c) && Good(g, c) && SameFilters(h, g) && Chosen(h, g, c, y) && |y| == NumBits(c) && j < |y|
    requires forall i {:trigger y[..i]} :: 0 <= i < j ==> !Overflows(h, c, y[..i])
    ensures DecodeAll(EncodeBits(h, c, y, first) + tail, ModelOf(g, c), j + 2).0 == Symbols(h, c, y, first)[..j + 2]
  {
    hide Good, ModelOf, EncoderModel, Encode, DecodeAll, Exact, Holds, Overflows, Residuals, SameFilters, Chosen;
    var r := Symbols(h, c, y, first);
    var code := EncodeBits(h, c, y, first) + tail;
    EncodedHolds(EncoderModel(h, c, y), r, tail);
    PrefixesHold(code, EncoderModel(h, c, y), r, j + 2);
    ModelsAgree(h, g, c, y, first, j);
    SameInterval(EncoderModel(h, c, y), ModelOf(g, c), r[..j + 2]);
    DecodesTheInterval(code, ModelOf(g, c), j + 2);
  }

  /** If every sum fits, encoder and decoder work with the same intervals. */
  lemma SameCode(h: Header, g: Header, c: Config, y: seq<Bit>, first: Bit)
    requires Good(h, c) && Good(g, c) && SameFilters(h, g) && Chosen(h, g, c, y) && 0 < |y| == NumBits(c) && Fits(h, c, y)
    ensures EncodeBits(h, c, y, first) == Encode(ModelOf(g, c), Symbols(h, c, y, first))
  {
    hide Good, ModelOf, EncoderModel, Exact, Overflows, Residuals, SameFilters, Chosen;
    var r := Symbols(h, c, y, first);
    ModelsAgree(h, g, c, y, first, |y| - 1);
    assert r[..|y| + 1] == r;
    SameInterval(EncoderModel(h, c, y), ModelOf(g, c), r);
  }

  lemma FittingDecodes(h: Header, g: Header, c: Config, frame: seq<Byte>, first: Bit, tail: seq<Bit>)
    requires Good(h, c) && Good(g, c) && SameFilters(h, g) && |frame| == FrameSize(c) && |tail| <= 7 && |frame| % c.channels == 0
    requires Chosen(h, g, c, FrameBits(frame, c.channels))
    requires 0 < 8 * |frame| == NumBits(c) && Fits(h, c, FrameBits(frame, c.channels))
    ensures var code := EncodeBits(h, c, FrameBits(frame, c.channels), first) + tail; DecodeCoded(g, c, code) == Done(frame, |code|)
  {
    hide Good, ModelOf, Encode, EncodeBits, DecodeAll, FrameBits, FrameBytes, Residuals, Recon, Accepts, Fits, SameFilters, Chosen;
    var y := FrameBits(frame, c.channels);
    var r := Symbols(h, c, y, first);
    SameCode(h, g, c, y, first);
    EncodeDecode(ModelOf(g, c), r, tail);
    assert r[1..] == Residuals(h, c, y);
    ReconExactly(h, c, y);
    SameRecon(h, g, c, Residuals(h, c, y));
    BytesOfFrameBits(frame, c.channels);
  }

  /** The decoded bits when some sum does not fit. */
  lemma OverflowChanges(h: Header, g: Header, c: Config, y: seq<Bit>, first: Bit, tail: seq<Bit>)
    requires Good(h, c) && Good(g, c) && SameFilters(h, g) && Chosen(h, g, c, y) && |y| == NumBits(c) && !Fits(h, c, y)
    ensures Recon(g, c, DecodeAll(EncodeBits(h, c, y, first) + tail, ModelOf(g, c), 1 + NumBits(c)).0[1..]) != y
  {
    hide Good, ModelOf, EncodeBits, DecodeAll, Overflows, Residuals, Recon, SameFilters, Chosen;
    var code := EncodeBits(h, c, y, first) + tail;
    var k :| 0 <= k < |y| && Overflows(h, c, y[..k]);
    var j := FirstOverflow(h, c, y, k);
    SymbolsUpTo(h, g, c, y, first, tail, j);
    DecodedPrefix(code, ModelOf(g, c), 1 + NumBits(c), j + 2);
    var d := DecodeAll(code, ModelOf(g, c), 1 + NumBits(c)).0;
    SamePrefix(d, first, Residuals(h, c, y), j);
    ReconPrefix(h, c, d[1..], j + 1);
    SameRecon(h, g, c, d[1..]);
    ReconFlips(h, c, y, j);
  }

  lemma SamePrefix(d: seq<Bit>, first: Bit, res: seq<Bit>, j: nat)
    requires |d| == 1 + |res| && j < |res| && d[..j + 2] == ([first] + res)[..j + 2]
    ensures d[1..][..j + 1] == res[..j + 1]
  {
    assert d[1..][..j + 1] == d[..j + 2][1..];
  }

  /** Bits that are not the frame's do not give the frame. */
  lemma WrongBits(g: Header, c: Config, code: seq<Bit>, frame: seq<Byte>)
    requires Good(g, c) && |frame| == FrameSize(c) && |frame| % c.channels == 0 && 8 * |frame| == NumBits(c)
    requires Recon(g, c, DecodeAll(code, ModelOf(g, c), 1 + NumBits(c)).0[1..]) != FrameBits(frame, c.channels)
    ensures var r := DecodeCoded(g, c, code); r.Fail? || (r.Done? && r.value != frame)
  {
    hide TablesFit, AllInRange, ModelOf, DecodeAll, FrameBits, FrameBytes, Recon, Accepts;
    var z := Recon(g, c, DecodeAll(code, ModelOf(g, c), 1 + NumBits(c)).0[1..]);
    if FrameBytes(z, c.channels, |frame|) == frame {
      FrameBytesDetermine(z, frame, c.channels);
    }
  }

  lemma OverflowingDecodes(h: Header, g: Header, c: Config, frame: seq<Byte>, first: Bit, tail: seq<Bit>)
    requires Good(h, c) && Good(g, c) && SameFilters(h, g) && |frame| == FrameSize(c) && |frame| % c.channels == 0
    requires Chosen(h, g, c, FrameBits(frame, c.channels))
    requires 8 * |frame| == NumBits(c) && !Fits(h, c, FrameBits(frame, c.channels))
    ensures var r := DecodeCoded(g, c, EncodeBits(h, c, FrameBits(frame, c.channels), first) + tail);
            r.Fail? || (r.Done? && r.value != frame)
  {
    hide TablesFit, AllInRange, ModelOf, EncodeBits, DecodeAll, DecodeCoded, FrameBits, Residuals, Recon, Fits, SameFilters, Chosen;
    var y := FrameBits(frame, c.channels);
    OverflowChanges(h, g, c, y, first, tail);
    WrongBits(g, c, EncodeBits(h, c, y, first) + tail, frame);
  }

  lemma EncodeStartsWithZero(prob: Model, bits: seq<Bit>)
    requires Legal(prob)
    ensures Encode(prob, bits) != [] && Encode(prob, bits)[0] == 0
  {
  }

  /** A coded frame: the flag, the header, and the arithmetic code of the residuals. */
  ghost function EncodeFrame(h: Header, c: Config, fc: seq<Coding>, pc: seq<Coding>, frame: seq<Byte>, first: Bit): seq<Byte>
    requires WritableHeader(h, c, fc, pc) && Good(h, c) && |frame| == FrameSize(c)
  {
    FrameSizeDivides(c);
    Pack([1] + WriteHeader(h, c, fc, pc) + EncodeBits(h, c, FrameBits(frame, c.channels), first))
  }

  lemma WritableIsGood(h: Header, c: Config, fc: seq<Coding>, pc: seq<Coding>)
    requires WritableHeader(h, c, fc, pc)
    ensures Good(h, c) && Good(AsStored(h), c)
    ensures SameFilters(h, AsStored(h)) && (AsStored(h) == h <==> NinthKept(h.layout.pmap))
  {
    hide WritableHeader, WriteHeader, ReadHeader, Good, AsStored, NinthKept, SameFilters;
    var w := WriteHeader(h, c, fc, pc);
    WholeAt(w);
    HeaderRoundTrip(w, 0, h, c, fc, pc);
    WritableIsUsual(h, c, fc, pc);
    AcceptedHeaderIsGood(w, 0, c);
    StoredExactly(w, 0, c);
  }

  lemma WritableIsUsual(h: Header, c: Config, fc: seq<Coding>, pc: seq<Coding>)
    requires WritableHeader(h, c, fc, pc)
    ensures Usual(c)
  {
  }

  /** No sum of the frame's encoding is out of the decoder's 16 bits. */
  ghost predicate FrameFits(h: Header, c: Config, frame: seq<Byte>)
    requires Good(h, c) && |frame| == FrameSize(c)
  {
    FrameSizeDivides(c);
    Fits(h, c, FrameBits(frame, c.channels))
  }

  /** What follows the header has a byte for each bit in the decoder's memory. */
  ghost predicate CodeFits(h: Header, c: Config, fc: seq<Coding>, pc: seq<Coding>, frame: seq<Byte>, first: Bit)
    requires WritableHeader(h, c, fc, pc) && Good(h, c) && |frame| == FrameSize(c)
  {
    8 * |EncodeFrame(h, c, fc, pc, frame, first)| - (1 + |WriteHeader(h, c, fc, pc)|) <= NumBits(c)
  }

  /** The decoder's tables give every bit of the frame the probability it was coded with. */
  ghost predicate ProbabilitiesKept(h: Header, c: Config, fc: seq<Coding>, pc: seq<Coding>, frame: seq<Byte>)
    requires WritableHeader(h, c, fc, pc) && |frame| == FrameSize(c)
  {
    WritableIsGood(h, c, fc, pc);
    FrameSizeDivides(c);
    Chosen(h, AsStored(h), c, FrameBits(frame, c.channels))
  }

  /** What the bytes of a coded frame are decoded from, whatever mapping the decoder's arrays hold. */
  lemma EncodedIsDecoded(h: Header, c: Config, fc: seq<Coding>, pc: seq<Coding>, frame: seq<Byte>, first: Bit)
      returns (tail: seq<Bit>)
    requires WritableHeader(h, c, fc, pc) && |frame| == FrameSize(c)
    ensures Good(h, c) && Good(AsStored(h), c) && |tail| <= 7 && |frame| % c.channels == 0
    ensures var code := EncodeBits(h, c, FrameBits(frame, c.channels), first) + tail;
            && (CodeFits(h, c, fc, pc, frame, first) <==> |code| <= NumBits(c))
            && DecodeFrame(c, EncodeFrame(h, c, fc, pc, frame, first))
               == if |code| <= NumBits(c) then DecodeCoded(AsStored(h), c, code) else Undefined
  {
    hide Good, AsStored, NinthKept, SameFilters, WritableHeader, WriteHeader, ReadHeader, EncodeBits, DecodeCoded, GetBits, Pack, BitsOfBytes, DecodeFrame, FrameBits;
    WritableIsGood(h, c, fc, pc);
    WritableIsUsual(h, c, fc, pc);
    FrameSizeDivides(c);
    var w := WriteHeader(h, c, fc, pc);
    var code := EncodeBits(h, c, FrameBits(frame, c.channels), first);
    var all := [1] + w + code;
    var bits := BitsOfBytes(Pack(all));
    PackHolds(all);
    CodeStartsWithZero(h, c, FrameBits(frame, c.channels), first);
    HeaderThenCode(bits, h, c, fc, pc, code);
    CodedFrame(c, Pack(all), h, 1 + |w|);
    tail := bits[|all|..];
  }

  lemma CodeStartsWithZero(h: Header, c: Config, y: seq<Bit>, first: Bit)
    requires Good(h, c)
    ensures EncodeBits(h, c, y, first) != [] && EncodeBits(h, c, y, first)[0] == 0
  {
    hide Good, EncoderModel, Symbols;
    EncodeStartsWithZero(EncoderModel(h, c, y), Symbols(h, c, y, first));
  }

  /** Lossless: any DSD frame, with any segmentation, mapping, filters and probability tables that the
      format can carry, however these are coded, decodes to itself if and only if the code fits the decoder's
      memory and every sum of the encoder's filters its 16 bits. The rows of the decoder's arrays may have
      lost a ninth table number, as long as the number in its place gives the same probabilities. */
  lemma Lossless(h: Header, c: Config, fc: seq<Coding>, pc: seq<Coding>, frame: seq<Byte>, first: Bit)
    requires WritableHeader(h, c, fc, pc) && |frame| == FrameSize(c)
    requires ProbabilitiesKept(h, c, fc, pc, frame)
    ensures Good(h, c) && Good(AsStored(h), c)
    ensures var r := DecodeFrame(c, EncodeFrame(h, c, fc, pc, frame, first));
            && (r.Undefined? <==> !CodeFits(h, c, fc, pc, frame, first))
            && (r.Done? && r.value == frame <==> CodeFits(h, c, fc, pc, frame, first) && FrameFits(h, c, frame))
  {
    hide Good, AsStored, NinthKept, SameFilters, Chosen, WritableHeader, WriteHeader, EncodeBits, DecodeCoded, DecodeFrame, EncodeFrame, FrameBits, Fits, CodeFits;
    WritableIsGood(h, c, fc, pc);
    WritableIsUsual(h, c, fc, pc);
    FrameSizeDivides(c);
    var tail := EncodedIsDecoded(h, c, fc, pc, frame, first);
    CodedEnds(AsStored(h), c, EncodeBits(h, c, FrameBits(frame, c.channels), first) + tail);
    if FrameFits(h, c, frame) {
      SomeBits(c);
      FittingDecodes(h, AsStored(h), c, frame, first, tail);
    } else {
      OverflowingDecodes(h, AsStored(h), c, frame, first, tail);
    }
  }

  lemma CodedEnds(g: Header, c: Config, code: seq<Bit>)
    requires Good(g, c)
    ensures !DecodeCoded(g, c, code).Undefined?
  {
    hide Good, ModelOf, DecodeAll, Accepts, FrameBytes, Recon;
  }

  /** Every segment's table in the arrays has the entries of the table that was coded for it. */
  predicate TablesKept(h: Header, c: Config)
    requires Good(h, c) && Good(AsStored(h), c)
  {
    forall ch, i {:trigger h.layout.pmap.tables[ch][i]} :: 0 <= ch < c.channels && 0 <= i < |h.layout.pmap.tables[ch]| ==>
      h.ptables[h.layout.pmap.tables[ch][i]] == h.ptables[Seen(h.layout.pmap)[ch][i]]
  }

  /** Then every frame keeps its probabilities; and if no ninth number is lost, nothing needs to be equal. */
  lemma TablesKeptSuffice(h: Header, c: Config, fc: seq<Coding>, pc: seq<Coding>, frame: seq<Byte>)
    requires WritableHeader(h, c, fc, pc) && |frame| == FrameSize(c)
    ensures Good(h, c) && Good(AsStored(h), c)
    ensures NinthKept(h.layout.pmap) ==> TablesKept(h, c)
    ensures TablesKept(h, c) ==> ProbabilitiesKept(h, c, fc, pc, frame)
  {
    hide Good, WritableHeader, FrameBits, Probability, NinthKept, TablesKept, SameFilters;
    WritableIsGood(h, c, fc, pc);
    WritableIsUsual(h, c, fc, pc);
    FrameSizeDivides(c);
    if NinthKept(h.layout.pmap) { SameTables(h, c); }
    if TablesKept(h, c) {
      var y := FrameBits(frame, c.channels);
      forall k | 0 <= k < |y| ensures Probability(h, c, y[..k]) == Probability(AsStored(h), c, y[..k]) {
        KeptProbability(h, c, y[..k]);
      }
    }
  }

  lemma SameTables(h: Header, c: Config)
    requires Good(h, c) && Good(AsStored(h), c) && AsStored(h) == h
    ensures TablesKept(h, c)
  {
    assert AsStored(h).layout.pmap.tables == Seen(h.layout.pmap);
  }

  lemma KeptProbability(h: Header, c: Config, y: seq<Bit>)
    requires Good(h, c) && Good(AsStored(h), c) && SameFilters(h, AsStored(h)) && TablesKept(h, c)
    ensures Probability(h, c, y) == Probability(AsStored(h), c, y)
  {
    hide Prediction, SegmentAt, PtableIndex;
    SamePrediction(h, AsStored(h), c, y);
    var ch, b := |y| % c.channels, |y| / c.channels;
    var i := SegmentAt(h.layout.pseg, ch, b, |h.layout.pseg.lens[ch]|);
    assert |h.layout.pmap.tables[ch]| == |h.layout.pseg.lens[ch]| + 1;
    assert h.ptables[h.layout.pmap.tables[ch][i]] == h.ptables[Seen(h.layout.pmap)[ch][i]];
    assert PtableOf(h, c, ch, b) == PtableOf(AsStored(h), c, ch, b);
  }

  lemma SomeBits(c: Config)
    requires Usual(c)
    ensures NumBits(c) > 0
  {
    FrameSizeDivides(c);
    MulMonotone(1, c.frameLen, c.channels);
  }

  lemma CodedFrame(c: Config, data: seq<Byte>, h: Header, q: nat)
    requires Usual(c) && Good(AsStored(h), c)
    requires var bits := BitsOfBytes(data);
             GetBits(bits, 0, 1) == Done(1, 1) && ReadHeader(bits, 1, c) == Done(h, q) && q < |bits| && bits[q] == 0
    ensures DecodeFrame(c, data)
            == if |BitsOfBytes(data)| - q <= NumBits(c) then DecodeCoded(AsStored(h), c, BitsOfBytes(data)[q..]) else Undefined
  {
    hide GetBits, ReadHeader, DecodeCoded, Good, AsStored;
  }

  lemma HeaderThenCode(bits: seq<Bit>, h: Header, c: Config, fc: seq<Coding>, pc: seq<Coding>, code: seq<Bit>)
    requires WritableHeader(h, c, fc, pc) && code != [] && [1] + WriteHeader(h, c, fc, pc) + code <= bits
    ensures var q := 1 + |WriteHeader(h, c, fc, pc)|;
            && GetBits(bits, 0, 1) == Done(1, 1) && ReadHeader(bits, 1, c) == Done(h, q)
            && q < |bits| && bits[q] == code[0] && bits[q..] == code + bits[q + |code|..]
  {
    hide WritableHeader, WriteHeader, ReadHeader, At, GetBits;
    var w := WriteHeader(h, c, fc, pc);
    PrefixAt(bits, [1] + w + code);
    AtSplit(bits, 0, [1] + w, code);
    AtSplit(bits, 0, [1], w);
    ReadFlag(bits, 0, 1);
    HeaderRoundTrip(bits, 1, h, c, fc, pc);
    TailOf(bits, 1 + |w|, [1] + w + code, code);
  }

  lemma PrefixAt(bits: seq<Bit>, all: seq<Bit>)
    requires all <= bits
    ensures At(bits, 0, all)
  {
  }

  lemma TailOf(bits: seq<Bit>, q: nat, all: seq<Bit>, code: seq<Bit>)
    requires all <= bits && q + |code| == |all| && all[q..] == code && code != []
    ensures q < |bits| && bits[q] == code[0] && bits[q..] == code + bits[|all|..]
  {
    assert bits[..|all|] == all;
    assert bits[q..] == bits[..|all|][q..] + bits[|all|..];
  }

  lemma UncodedFlags(bits: seq<Bit>)
    requires BitsOf(0, 8) <= bits
    ensures GetBits(bits, 0, 1) == Done(0, 1) && GetBits(bits, 1, 1) == Done(0, 2) && GetBits(bits, 2, 6) == Done(0, 8)
  {
    ZeroByte();
    PrefixAt(bits, BitsOf(0, 8));
    hide At, GetBits, BitsOf;
    AtSplit(bits, 0, [0] + [0], BitsOf(0, 6));
    AtSplit(bits, 0, [0], [0]);
    ReadFlag(bits, 0, 0);
    ReadFlag(bits, 1, 0);
    SmallPowers();
    ReadField(bits, 2, 0, 6);
  }

  lemma {:induction false} ZeroBits(n: nat, t: nat)
    requires t < n
    ensures BitsOf(0, n)[t] == 0
  {
    if t < n - 1 { ZeroBits(n - 1, t); }
  }

  lemma ZeroByte()
    ensures BitsOf(0, 8) == [0] + [0] + BitsOf(0, 6)
  {
    forall t | 0 <= t < 8 ensures BitsOf(0, 8)[t] == 0 { ZeroBits(8, t); }
    forall t | 0 <= t < 6 ensures BitsOf(0, 6)[t] == 0 { ZeroBits(6, t); }
  }

  /** A frame that is not coded comes out as it went in; one that is too short is filled up with zeros. */
  lemma UncodedFrame(c: Config, part: seq<Byte>)
    requires Usual(c)
    ensures var r := DecodeFrame(c, [0] + part);
            r.Done? && r.value == if |part| >= FrameSize(c) then part[..FrameSize(c)] else part + Copies(0, FrameSize(c) - |part|)
  {
    hide GetBits, BitsOf, BitsOfBytes, ReadHeader;
    var data := [0] + part;
    BitsOfCons(0, part);
    UncodedFlags(BitsOfBytes(data));
    var n := FrameSize(c);
    assert BytesFrom(data, 1, n) == if |part| >= n then part[..n] else part + Copies(0, n - |part|);
  }
}
