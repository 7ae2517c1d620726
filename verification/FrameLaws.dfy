/** The pieces of frame decoding in plain numbers: which bits a prediction sees, which probability it picks,
    where a bit lies in the frame. */
module FrameLaws {
  import opened Bits
  import opened BitReader
  import opened Segmentation
  import opened TableMapping
  import opened FrameTables
  import opened FrameLayout
  import opened Coefs
  import opened Predictor
  import opened ArithDecoder
  import opened FrameCodec
  import opened FrameDecoding

  /* The past of a bit. */

  lemma NextPlace(n: nat, channels: nat)
    requires channels > 0 && n > 0
    ensures var q, r := n / channels, n % channels;
            && n - 1 == (if r > 0 then q * channels + (r - 1) else (q - 1) * channels + (channels - 1))
            && (n - 1) / channels == (if r > 0 then q else q - 1)
            && (n - 1) % channels == (if r > 0 then r - 1 else channels - 1)
  {
    var q, r := n / channels, n % channels;
    assert n == q * channels + r;
    if r > 0 {
      DivUnique(n - 1, channels, q, r - 1);
    } else {
      assert q * channels == (q - 1) * channels + channels;
      DivUnique(n - 1, channels, q - 1, channels - 1);
    }
  }

  function PlaceOfBit(j: nat, ch: nat, channels: nat): nat { j * channels + ch }

  /** How many of the first n bits are channel ch's. */
  function BitsOfChannel(n: nat, ch: nat, channels: nat): nat
    requires channels > 0
  {
    n / channels + if ch < n % channels then 1 else 0
  }

  lemma OneMoreBit(n: nat, ch: nat, channels: nat)
    requires ch < channels
    ensures BitsOfChannel(n + 1, ch, channels) == BitsOfChannel(n, ch, channels) + if n % channels == ch then 1 else 0
    ensures n % channels == ch ==> PlaceOfBit(BitsOfChannel(n, ch, channels), ch, channels) == n
  {
    NextPlace(n + 1, channels);
  }

  lemma NoBitsYet(ch: nat, channels: nat)
    requires channels > 0
    ensures Strided(Channel([], ch, channels), [], ch, channels)
  {
    DivUnique(0, channels, 0, 0);
  }

  /** s is every channels-th bit of y, from bit ch on. */
  predicate Strided(s: seq<Bit>, y: seq<Bit>, ch: nat, channels: nat)
    requires channels > 0
  {
    && |s| == BitsOfChannel(|y|, ch, channels)
    && forall j {:trigger s[j]} :: 0 <= j < |s| ==> PlaceOfBit(j, ch, channels) < |y| && s[j] == y[PlaceOfBit(j, ch, channels)]
  }

  lemma OneMoreStrided(s: seq<Bit>, y: seq<Bit>, b: Bit, ch: nat, channels: nat)
    requires ch < channels && Strided(s, y, ch, channels)
    ensures Strided(if |y| % channels == ch then s + [b] else s, y + [b], ch, channels)
  {
    hide PlaceOfBit, BitsOfChannel;
    OneMoreBit(|y|, ch, channels);
    var z := y + [b];
    assert |z| == |y| + 1;
    forall j | 0 <= j < |s| ensures PlaceOfBit(j, ch, channels) < |z| && s[j] == z[PlaceOfBit(j, ch, channels)] {
      assert s[j] == 0 || s[j] == 1;
    }
  }

  lemma {:induction false} ChannelIs(y: seq<Bit>, ch: nat, channels: nat)
    requires ch < channels
    ensures Strided(Channel(y, ch, channels), y, ch, channels)
  {
    hide Channel, Strided;
    if y == [] {
      NoBitsYet(ch, channels);
    } else {
      var before, b := y[..|y| - 1], y[|y| - 1];
      ChannelIs(before, ch, channels);
      assert before + [b] == y;
      ChannelGrows(before, b, ch, channels);
      OneMoreStrided(Channel(before, ch, channels), before, b, ch, channels);
    }
  }

  /** The n-th bit before the next one in its channel; before the frame they alternate. */
  function Before(y: seq<Bit>, channels: nat, n: nat): Bit
    requires channels > 0
  {
    if (n + 1) * channels <= |y| then y[|y| - (n + 1) * channels] else (n - |y| / channels) % 2
  }

  lemma PastPlace(b: nat, ch: nat, channels: nat, n: nat)
    requires ch < channels
    ensures n < b ==> PlaceOfBit(b - 1 - n, ch, channels) == b * channels + ch - (n + 1) * channels >= 0
    ensures n >= b ==> (n + 1) * channels > b * channels + ch
  {
    if n < b {
      MulMonotone(n + 1, b, channels);
      assert (b - 1 - n) * channels == b * channels - (n + 1) * channels;
    } else {
      MulMonotone(b + 1, n + 1, channels);
      assert (b + 1) * channels == b * channels + channels;
    }
  }

  lemma RowOf(n: nat, channels: nat)
    requires channels > 0
    ensures n == n / channels * channels + n % channels
    ensures BitsOfChannel(n, n % channels, channels) == n / channels
  {
  }

  lemma PastIs(y: seq<Bit>, channels: nat, n: nat)
    requires channels > 0 && n < TAPS
    ensures Past(Channel(y, |y| % channels, channels))[n] == Before(y, channels, n)
  {
    hide Channel, PlaceOfBit, BitsOfChannel;
    var ch, b := |y| % channels, |y| / channels;
    ChannelIs(y, ch, channels);
    RowOf(|y|, channels);
    PastPlace(b, ch, channels, n);
    var s := Channel(y, ch, channels);
    if n < b { assert s[b - 1 - n] == y[PlaceOfBit(b - 1 - n, ch, channels)]; }
  }

  /* The sum. */

  function SumOf(coef: seq<int>, n: nat): int
    requires n <= |coef|
  {
    if n == 0 then 0 else SumOf(coef, n - 1) + coef[n - 1]
  }

  /** Over ones the coefficients are added, over zeros subtracted. */
  lemma {:induction false} SumLaws(past: seq<Bit>, coef: seq<int>, n: nat)
    requires n <= |coef| && n <= |past|
    ensures (forall i :: 0 <= i < n ==> past[i] == 1) ==> DirectSum(past, coef, n) == SumOf(coef, n)
    ensures (forall i :: 0 <= i < n ==> past[i] == 0) ==> DirectSum(past, coef, n) == -SumOf(coef, n)
  {
    if n > 0 { SumLaws(past, coef, n - 1); }
  }

  /** A one in the place of a zero adds its coefficient twice. */
  lemma {:induction false} SumFlips(past: seq<Bit>, coef: seq<int>, n: nat, i: nat)
    requires n <= |coef| && n <= |past| && i < n
    ensures DirectSum(past[i := 1], coef, n) == DirectSum(past[i := 0], coef, n) + 2 * coef[i]
  {
    if i < n - 1 {
      SumFlips(past, coef, n - 1, i);
    } else {
      SumDepends(past[i := 1], past[i := 0], coef, i);
    }
  }

  lemma {:induction false} SumDepends(past: seq<Bit>, past': seq<Bit>, coef: seq<int>, n: nat)
    requires n <= |coef| && n <= |past| && n <= |past'| && forall i :: 0 <= i < n ==> past[i] == past'[i]
    ensures DirectSum(past, coef, n) == DirectSum(past', coef, n)
  {
    if n > 0 { SumDepends(past, past', coef, n - 1); }
  }

  /** The sum for the bit after y: the filter of the segment that the bit lies in, over the bits before. */
  lemma SumIs(h: Header, c: Config, y: seq<Bit>, i: nat, past: seq<Bit>)
    requires Good(h, c) && Partition(h.layout.fseg, FilterLimits(c), c.channels) && |past| == TAPS
    requires var ch, b := |y| % c.channels, |y| / c.channels;
             i <= |h.layout.fseg.lens[ch]| && StartOf(h.layout.fseg, ch, i) <= b < EndOf(h.layout.fseg, c.frameLen, ch, i)
    requires forall n :: 0 <= n < TAPS ==> past[n] == Before(y, c.channels, n)
    ensures var ch := |y| % c.channels;
            && |h.layout.fmap.tables[ch]| == |h.layout.fseg.lens[ch]| + 1 && h.layout.fmap.tables[ch][i] < |h.filters|
            && var f := h.filters[h.layout.fmap.tables[ch][i]];
               |f| <= TAPS && ExactSum(h, c, y) == DirectSum(past, f, |f|)
  {
    hide Channel, Past, DirectSum, Before, TableAt;
    var ch, b := |y| % c.channels, |y| / c.channels;
    assert |h.layout.fmap.tables[ch]| == |h.layout.fseg.lens[ch]| + 1;
    TableAtIs(h.layout.fseg, h.layout.fmap.tables, FilterLimits(c), c.channels, ch, b, i);
    forall n | 0 <= n < TAPS ensures Past(Channel(y, ch, c.channels))[n] == past[n] { PastIs(y, c.channels, n); }
    assert Past(Channel(y, ch, c.channels)) == past;
    assert FilterOf(h, c, ch, b) == h.filters[h.layout.fmap.tables[ch][i]];
  }

  /* The probability. */

  /** For the sum x: even odds while a channel's half-probability start lasts, which is as long as its first
      segment's filter; otherwise an entry of the table of the bit's segment, one for every eight of the sum's
      size, the last one for all that is larger. */
  lemma ProbabilityIs(h: Header, c: Config, y: seq<Bit>, x: int, i: nat)
    requires Good(h, c) && Partition(h.layout.pseg, PtableLimits(c), c.channels)
    requires var ch, b := |y| % c.channels, |y| / c.channels;
             i <= |h.layout.pseg.lens[ch]| && StartOf(h.layout.pseg, ch, i) <= b < EndOf(h.layout.pseg, c.frameLen, ch, i)
    ensures var ch, b := |y| % c.channels, |y| / c.channels;
            var p, size := ProbabilityFor(h, c, y, x), if x < 0 then -x else x;
            && |h.layout.pmap.tables[ch]| == |h.layout.pseg.lens[ch]| + 1 && h.layout.pmap.tables[ch][i] < |h.ptables|
            && |h.layout.fmap.tables[ch]| > 0 && h.layout.fmap.tables[ch][0] < |h.filters|
            && var t, first := h.ptables[h.layout.pmap.tables[ch][i]], h.filters[h.layout.fmap.tables[ch][0]];
               if h.layout.half[ch] == 1 && b < |first| then p == 128
               else (forall j :: 0 <= j < |t| && 8 * j <= size < 8 * j + 8 ==> p == t[j])
                    && (|t| > 0 && (size >= 8 * (|t| - 1) ==> p == t[|t| - 1]))
  {
    hide TableAt;
    var ch, b := |y| % c.channels, |y| / c.channels;
    assert |h.layout.pmap.tables[ch]| == |h.layout.pseg.lens[ch]| + 1;
    assert |h.layout.fmap.tables[ch]| == |h.layout.fseg.lens[ch]| + 1;
    TableAtIs(h.layout.pseg, h.layout.pmap.tables, PtableLimits(c), c.channels, ch, b, i);
    assert PtableOf(h, c, ch, b) == h.ptables[h.layout.pmap.tables[ch][i]];
  }

  /** The first bit of the code, which is thrown away, is decoded with the low seven bits of the first filter's
      first coefficient in reverse. */
  lemma FirstProbIs(h: Header, c: Config)
    requires Good(h, c)
    ensures FirstProb(h, c) == Value(LowBits((h.filters[0][0] + 512) % 128, 7)) + 1
  {
    FirstProbability(h, c);
    ReverseIsReversed(h.filters[0][0]);
  }

  /* The bit. */

  /** The predicted bit is the top one of the sum in 16 bits. */
  lemma SignBitIs(x: int)
    requires -32768 <= x <= 32767
    ensures SignBit(x) == (x + 65536) % 65536 / 32768
  {
  }

  /** Each rebuilt bit is the predicted one, unless the residual is 1. */
  lemma {:induction false} ReconIs(h: Header, c: Config, res: seq<Bit>, k: nat)
    requires Good(h, c) && k < |res|
    ensures var y := Recon(h, c, res);
            y[k] == (SignBit(Prediction(h, c, y[..k])) + res[k]) % 2
  {
    hide Good, Prediction;
    if k < |res| - 1 {
      ReconIs(h, c, res[..|res| - 1], k);
      assert Recon(h, c, res)[..k] == Recon(h, c, res[..|res| - 1])[..k];
    } else {
      assert Recon(h, c, res)[..k] == Recon(h, c, res[..k]);
    }
  }

  lemma {:induction false} BitOfValue(s: seq<Bit>, t: nat)
    requires t < |s|
    ensures BitAt(Value(s), |s| - 1 - t) == s[t]
  {
    if t < |s| - 1 {
      BitOfValue(s[..|s| - 1], t);
      assert Value(s) / 2 == Value(s[..|s| - 1]);
    }
  }

  /** Bit b of channel ch is bit 7 - b mod 8 of byte ch of the frame's row b / 8. */
  lemma BitIsStored(y: seq<Bit>, channels: nat, n: nat, b: nat, ch: nat)
    requires ch < channels && b * channels + ch < |y| && b / 8 * channels + ch < n
    ensures BitAt(FrameBytes(y, channels, n)[b / 8 * channels + ch], 7 - b % 8) == y[b * channels + ch]
  {
    hide BitPlace, BitAt, Value;
    var j, t := b / 8 * channels + ch, b % 8;
    DivUnique(j, channels, b / 8, ch);
    assert b / 8 * 8 + t == b;
    PlaceIs(channels, j, t, b, ch);
    var s := BitsInByte(y, channels, j);
    assert s[t] == CodeBit(y, BitPlace(channels, j, t));
    BitOfValue(s, t);
  }

  lemma PlaceIs(channels: nat, j: nat, t: nat, b: nat, ch: nat)
    requires channels > 0 && j / channels * 8 + t == b && j % channels == ch
    ensures BitPlace(channels, j, t) == b * channels + ch
  {
  }
}
