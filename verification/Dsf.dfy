/** Repacking frames for a DSF file (dsf_write_frame in dsf.c): de-interleaving, bit reversal, and blocks of
    4096 bytes per channel carried across calls. */
module Dsf {
  import opened Bits

  const BLOCK := 4096                     // SACD_BLOCK_SIZE_PER_CHANNEL
  const FRAME_BUFFER := 131072            // what the caller provides for the output, 128 KiB

  /* bit_reverse_table */

  function LowRow(r: nat): (row: seq<Byte>)
    requires r < 8
    ensures |row| == 16
  {
    if r == 0 then [0x00, 0x80, 0x40, 0xc0, 0x20, 0xa0, 0x60, 0xe0, 0x10, 0x90, 0x50, 0xd0, 0x30, 0xb0, 0x70, 0xf0]
    else if r == 1 then [0x08, 0x88, 0x48, 0xc8, 0x28, 0xa8, 0x68, 0xe8, 0x18, 0x98, 0x58, 0xd8, 0x38, 0xb8, 0x78, 0xf8]
    else if r == 2 then [0x04, 0x84, 0x44, 0xc4, 0x24, 0xa4, 0x64, 0xe4, 0x14, 0x94, 0x54, 0xd4, 0x34, 0xb4, 0x74, 0xf4]
    else if r == 3 then [0x0c, 0x8c, 0x4c, 0xcc, 0x2c, 0xac, 0x6c, 0xec, 0x1c, 0x9c, 0x5c, 0xdc, 0x3c, 0xbc, 0x7c, 0xfc]
    else if r == 4 then [0x02, 0x82, 0x42, 0xc2, 0x22, 0xa2, 0x62, 0xe2, 0x12, 0x92, 0x52, 0xd2, 0x32, 0xb2, 0x72, 0xf2]
    else if r == 5 then [0x0a, 0x8a, 0x4a, 0xca, 0x2a, 0xaa, 0x6a, 0xea, 0x1a, 0x9a, 0x5a, 0xda, 0x3a, 0xba, 0x7a, 0xfa]
    else if r == 6 then [0x06, 0x86, 0x46, 0xc6, 0x26, 0xa6, 0x66, 0xe6, 0x16, 0x96, 0x56, 0xd6, 0x36, 0xb6, 0x76, 0xf6]
    else [0x0e, 0x8e, 0x4e, 0xce, 0x2e, 0xae, 0x6e, 0xee, 0x1e, 0x9e, 0x5e, 0xde, 0x3e, 0xbe, 0x7e, 0xfe]
  }

  function HighRow(r: nat): (row: seq<Byte>)
    requires r < 8
    ensures |row| == 16
  {
    if r == 0 then [0x01, 0x81, 0x41, 0xc1, 0x21, 0xa1, 0x61, 0xe1, 0x11, 0x91, 0x51, 0xd1, 0x31, 0xb1, 0x71, 0xf1]
    else if r == 1 then [0x09, 0x89, 0x49, 0xc9, 0x29, 0xa9, 0x69, 0xe9, 0x19, 0x99, 0x59, 0xd9, 0x39, 0xb9, 0x79, 0xf9]
    else if r == 2 then [0x05, 0x85, 0x45, 0xc5, 0x25, 0xa5, 0x65, 0xe5, 0x15, 0x95, 0x55, 0xd5, 0x35, 0xb5, 0x75, 0xf5]
    else if r == 3 then [0x0d, 0x8d, 0x4d, 0xcd, 0x2d, 0xad, 0x6d, 0xed, 0x1d, 0x9d, 0x5d, 0xdd, 0x3d, 0xbd, 0x7d, 0xfd]
    else if r == 4 then [0x03, 0x83, 0x43, 0xc3, 0x23, 0xa3, 0x63, 0xe3, 0x13, 0x93, 0x53, 0xd3, 0x33, 0xb3, 0x73, 0xf3]
    else if r == 5 then [0x0b, 0x8b, 0x4b, 0xcb, 0x2b, 0xab, 0x6b, 0xeb, 0x1b, 0x9b, 0x5b, 0xdb, 0x3b, 0xbb, 0x7b, 0xfb]
    else if r == 6 then [0x07, 0x87, 0x47, 0xc7, 0x27, 0xa7, 0x67, 0xe7, 0x17, 0x97, 0x57, 0xd7, 0x37, 0xb7, 0x77, 0xf7]
    else [0x0f, 0x8f, 0x4f, 0xcf, 0x2f, 0xaf, 0x6f, 0xef, 0x1f, 0x9f, 0x5f, 0xdf, 0x3f, 0xbf, 0x7f, 0xff]
  }

  function BitReverse(b: Byte): Byte {
    if b < 128 then LowRow(b / 16)[b % 16] else HighRow(b / 16 - 8)[b % 16]
  }

  lemma FirstLowRow(b0: Bit, b1: Bit, b2: Bit, b3: Bit)
    ensures LowRow(0)[b0 + 2 * b1 + 4 * b2 + 8 * b3] == 128 * b0 + 64 * b1 + 32 * b2 + 16 * b3
  {
  }

  lemma LowRows(b4: Bit, b5: Bit, b6: Bit, k: nat)
    requires k < 16
    ensures LowRow(b4 + 2 * b5 + 4 * b6)[k] == LowRow(0)[k] + 8 * b4 + 4 * b5 + 2 * b6
  {
    assert k == 0 || k == 1 || k == 2 || k == 3 || k == 4 || k == 5 || k == 6 || k == 7
           || k == 8 || k == 9 || k == 10 || k == 11 || k == 12 || k == 13 || k == 14 || k == 15;
  }

  lemma HighRows(b4: Bit, b5: Bit, b6: Bit, k: nat)
    requires k < 16
    ensures HighRow(b4 + 2 * b5 + 4 * b6)[k] == LowRow(0)[k] + 8 * b4 + 4 * b5 + 2 * b6 + 1
  {
    assert k == 0 || k == 1 || k == 2 || k == 3 || k == 4 || k == 5 || k == 6 || k == 7
           || k == 8 || k == 9 || k == 10 || k == 11 || k == 12 || k == 13 || k == 14 || k == 15;
  }

  lemma ReverseByBits(b0: Bit, b1: Bit, b2: Bit, b3: Bit, b4: Bit, b5: Bit, b6: Bit, b7: Bit)
    ensures var b := b0 + 2 * b1 + 4 * b2 + 8 * b3 + 16 * b4 + 32 * b5 + 64 * b6 + 128 * b7;
            BitReverse(b) == 128 * b0 + 64 * b1 + 32 * b2 + 16 * b3 + 8 * b4 + 4 * b5 + 2 * b6 + b7
  {
    hide LowRow, HighRow;
    var k := b0 + 2 * b1 + 4 * b2 + 8 * b3;
    var r := b4 + 2 * b5 + 4 * b6;
    DivUnique(k + 16 * r + 128 * b7, 16, r + 8 * b7, k);
    FirstLowRow(b0, b1, b2, b3);
    LowRows(b4, b5, b6, k);
    HighRows(b4, b5, b6, k);
  }

  /** The table reverses the bits of a byte, so using it twice changes nothing. */
  lemma ReverseTwice(b: Byte)
    ensures BitReverse(BitReverse(b)) == b
  {
    hide BitReverse;
    var i1 := b / 2;
    var i2 := i1 / 2;
    var i3 := i2 / 2;
    var i4 := i3 / 2;
    var i5 := i4 / 2;
    var i6 := i5 / 2;
    ReverseByBits(b % 2, i1 % 2, i2 % 2, i3 % 2, i4 % 2, i5 % 2, i6 % 2, i6 / 2);
    ReverseByBits(i6 / 2, i6 % 2, i5 % 2, i4 % 2, i3 % 2, i2 % 2, i1 % 2, b % 2);
  }

  /* One channel on values. */

  /** A block as it is written out: what the buffer holds, then zeros. */
  function Pad(s: seq<Byte>): (p: seq<Byte>)
    requires |s| <= BLOCK
    ensures |p| == BLOCK
  {
    s + seq(BLOCK - |s|, _ => 0)
  }

  /** Feeding bytes to one channel: the blocks that go out and what stays in the buffer. A full buffer, or one
      that holds as much as this call brings, goes out before the next byte comes in. */
  function Feed(held: seq<Byte>, more: seq<Byte>, limit: nat): (r: (seq<seq<Byte>>, seq<Byte>))
    requires |held| <= BLOCK && 0 < limit
    ensures |r.1| <= BLOCK
    decreases |more|, |held|
  {
    if more == [] then ([], held)
    else if |held| < BLOCK && |held| < limit then Feed(held + [more[0]], more[1..], limit)
    else
      var (blocks, rest) := Feed([], more, limit);
      ([Pad(held)] + blocks, rest)
  }

  lemma {:induction false} JoinedCons(b: seq<Byte>, blocks: seq<seq<Byte>>)
    ensures Joined([b] + blocks) == b + Joined(blocks)
  {
    if blocks == [] {
      assert [b] + blocks == [b] && [b][..0] == [];
    } else {
      JoinedCons(b, blocks[..|blocks| - 1]);
      assert ([b] + blocks)[..|blocks|] == [b] + blocks[..|blocks| - 1];
    }
  }

  /** With a limit of at least a block only full blocks go out, and nothing is lost or added. */
  lemma {:induction false} FeedConserves(held: seq<Byte>, more: seq<Byte>, limit: nat)
    requires |held| <= BLOCK <= limit
    ensures var r := Feed(held, more, limit); Joined(r.0) + r.1 == held + more
    decreases |more|, |held|
  {
    if more == [] {
      assert Joined([]) + held == held + more;
    } else if |held| < BLOCK {
      FeedConserves(held + [more[0]], more[1..], limit);
      assert held + [more[0]] + more[1..] == held + more;
    } else {
      FeedConserves([], more, limit);
      var r := Feed([], more, limit);
      assert Pad(held) == held;
      JoinedCons(held, r.0);
      assert held + (Joined(r.0) + r.1) == held + Joined(r.0) + r.1;
      assert [] + more == more;
    }
  }

  /** Bytes that fit below the limit just stay in the buffer. */
  lemma {:induction false} FeedStays(held: seq<Byte>, more: seq<Byte>, limit: nat)
    requires 0 < limit && |held| + |more| <= limit && |held| + |more| <= BLOCK
    ensures Feed(held, more, limit) == ([], held + more)
    decreases |more|
  {
    if more == [] {
      assert held + more == held;
    } else {
      FeedStays(held + [more[0]], more[1..], limit);
      assert held + [more[0]] + more[1..] == held + more;
    }
  }

  /** Bytes put out, with what stays. */
  function Total(r: (seq<seq<Byte>>, seq<Byte>)): nat { |Joined(r.0)| + |r.1| }

  lemma {:induction false} FeedToLimit(held: seq<Byte>, more: seq<Byte>, limit: nat)
    requires 0 < limit <= BLOCK && |held| <= limit < |held| + |more|
    ensures Feed(held, more, limit)
            == ([Pad(held + more[..limit - |held|])] + Feed([], more[limit - |held|..], limit).0,
                Feed([], more[limit - |held|..], limit).1)
    decreases |more|
  {
    if |held| == limit {
      assert held + more[..0] == held && more[0..] == more;
    } else {
      FeedToLimit(held + [more[0]], more[1..], limit);
      assert held + [more[0]] + more[1..][..limit - |held| - 1] == held + more[..limit - |held|];
      assert more[1..][limit - |held| - 1..] == more[limit - |held|..];
    }
  }

  lemma OneBlock(block: seq<Byte>)
    ensures Joined([block]) == block && [block] + [] == [block]
  {
    assert [block][..0] == [];
    assert Joined([]) + block == block;
  }

  lemma FeedFull(held: seq<Byte>, more: seq<Byte>, limit: nat)
    requires 0 < limit && |held| <= BLOCK && more != [] && (|held| == BLOCK || |held| >= limit)
    ensures var r := Feed([], more, limit); Feed(held, more, limit) == ([Pad(held)] + r.0, r.1)
  {
  }

  lemma PadsAtOnce(held: seq<Byte>, more: seq<Byte>)
    requires 0 < |more| <= |held| < BLOCK
    ensures Feed(held, more, |more|) == ([Pad(held)], more)
  {
    hide Pad, Joined, Feed;
    FeedFull(held, more, |more|);
    FeedStays([], more, |more|);
    assert [] + more == more;
    OneBlock(Pad(held));
  }

  lemma PadsLater(held: seq<Byte>, more: seq<Byte>)
    requires 0 < |held| < |more| < BLOCK
    ensures var n := |more| - |held|; Feed(held, more, |more|) == ([Pad(held + more[..n])], more[n..])
  {
    hide Pad, Joined, Feed;
    var n := |more| - |held|;
    FeedToLimit(held, more, |more|);
    FeedStays([], more[n..], |more|);
    assert [] + more[n..] == more[n..];
    OneBlock(Pad(held + more[..n]));
  }

  /** A short call that finds a partly filled buffer writes a block with zeros in it. */
  lemma ShortCallPads(held: seq<Byte>, more: seq<Byte>)
    requires 0 < |held| < BLOCK && 0 < |more| < BLOCK
    ensures Total(Feed(held, more, |more|)) > |held| + |more|
  {
    hide Pad, Joined, Feed;
    if |held| >= |more| {
      PadsAtOnce(held, more);
      OneBlock(Pad(held));
    } else {
      PadsLater(held, more);
      OneBlock(Pad(held + more[..|more| - |held|]));
    }
  }

  /** What one call does to one channel. */
  function CallFeed(held: seq<Byte>, chunk: seq<Byte>): (r: (seq<seq<Byte>>, seq<Byte>))
    requires |held| <= BLOCK
    ensures |r.1| <= BLOCK
  {
    if chunk == [] then ([], held) else Feed(held, chunk, |chunk|)
  }

  /** In bytes: a call that brings no more than is held puts that out as a block, zeros behind it, and keeps
      what it brought. */
  lemma ShortCallWrites(held: seq<Byte>, more: seq<Byte>) returns (block: seq<Byte>)
    requires 0 < |more| <= |held| < 4096
    ensures CallFeed(held, more) == ([block], more)
    ensures |block| == 4096 && block[..|held|] == held && forall k :: |held| <= k < 4096 ==> block[k] == 0
  {
    hide Feed;
    PadsAtOnce(held, more);
    block := Pad(held);
  }

  /** Exactly when a call conserves a channel's data: it brings nothing, or a whole block or more, or the
      channel's buffer is empty or full. */
  lemma ConservesExactly(held: seq<Byte>, chunk: seq<Byte>)
    requires |held| <= BLOCK
    ensures var r := CallFeed(held, chunk);
            Joined(r.0) + r.1 == held + chunk
            <==> chunk == [] || |chunk| >= BLOCK || |held| == 0 || |held| == BLOCK
  {
    if chunk == [] {
      assert Joined([]) + held == held + chunk;
    } else if |chunk| >= BLOCK {
      FeedConserves(held, chunk, |chunk|);
    } else if held == [] {
      FeedStays([], chunk, |chunk|);
      assert Joined([]) + ([] + chunk) == held + chunk;
    } else if |held| == BLOCK {
      FeedStays([], chunk, |chunk|);
      FeedFull(held, chunk, |chunk|);
      assert [] + chunk == chunk && Pad(held) == held;
      OneBlock(held);
    } else {
      ShortCallPads(held, chunk);
    }
  }

  /** What a run of calls does to one channel. */
  function RunFeed(held: seq<Byte>, chunks: seq<seq<Byte>>): (r: (seq<seq<Byte>>, seq<Byte>))
    requires |held| <= BLOCK
    ensures |r.1| <= BLOCK
  {
    if chunks == [] then ([], held)
    else
      var (before, rest) := RunFeed(held, chunks[..|chunks| - 1]);
      var (more, last) := CallFeed(rest, chunks[|chunks| - 1]);
      (before + more, last)
  }

  lemma {:induction false} JoinedConcat(a: seq<seq<Byte>>, b: seq<seq<Byte>>)
    ensures Joined(a + b) == Joined(a) + Joined(b)
  {
    if b == [] {
      assert a + b == a;
    } else {
      var c := b[..|b| - 1];
      JoinedConcat(a, c);
      assert (a + b)[..|a + b| - 1] == a + c;
    }
  }

  /** Over any run of calls that each bring a block or more per channel, the blocks put out and what is still
      held are the bytes brought, in order. */
  lemma {:induction false} RunConserves(held: seq<Byte>, chunks: seq<seq<Byte>>)
    requires |held| <= BLOCK && forall i :: 0 <= i < |chunks| ==> |chunks[i]| >= BLOCK
    ensures var r := RunFeed(held, chunks); Joined(r.0) + r.1 == held + Joined(chunks)
  {
    hide CallFeed;
    if chunks == [] {
      assert Joined([]) + held == held + [];
    } else {
      var front, last := chunks[..|chunks| - 1], chunks[|chunks| - 1];
      RunConserves(held, front);
      var b := RunFeed(held, front);
      var r := CallFeed(b.1, last);
      ConservesExactly(b.1, last);
      JoinedConcat(b.0, r.0);
      assert Joined(b.0) + (Joined(r.0) + r.1) == (Joined(b.0) + b.1) + last;
      assert held + Joined(front) + last == held + (Joined(front) + last);
    }
  }

  /* The writer. */

  /** The bytes of channel i in an interleaved frame, bit-reversed. */
  function Chunk(buf: seq<Byte>, channels: nat, i: nat): (s: seq<Byte>)
    requires i < channels && |buf| % channels == 0
    ensures |s| == |buf| / channels
  {
    seq(|buf| / channels, k requires 0 <= k < |buf| / channels =>
      InBuf(|buf|, channels, k, i);
      BitReverse(buf[k * channels + i]))
  }

  lemma InBuf(n: nat, channels: nat, k: nat, i: nat)
    requires i < channels && n % channels == 0 && k < n / channels
    ensures k * channels + i < n && (k + 1) * channels == k * channels + channels <= n
  {
    var rows := n / channels;
    assert n == rows * channels;
    MulMonotone(k + 1, rows, channels);
    assert (k + 1) * channels == k * channels + channels;
  }

  function Prepend(out: seq<seq<Byte>>, r: (seq<seq<Byte>>, seq<Byte>)): (seq<seq<Byte>>, seq<Byte>) {
    (out + r.0, r.1)
  }

  /** An empty list per channel. */
  function Nothing<T>(n: nat): (s: seq<seq<T>>)
    ensures |s| == n && forall i {:trigger s[i]} :: 0 <= i < n ==> s[i] == []
  {
    seq(n, _ => [])
  }

  /** All channels hold equally much. */
  predicate Level(held: seq<seq<Byte>>, channels: nat, f: nat) {
    |held| == channels && forall i {:trigger held[i]} :: 0 <= i < channels ==> |held[i]| == f
  }

  /** Whether the next round stores a byte per channel or puts out a block per channel. */
  predicate Stores(f: nat, limit: nat) { f < BLOCK && f < limit }

  class Writer {
    const channels: nat
    const buffer: array2<Byte>
    const fill: array<nat>              // buffer_ptr[i] - buffer[i]
    const data: array<Byte>
    var sampleCount: nat
    var audioDataSize: nat

    ghost predicate Shape() {
      && 0 < channels <= 6 && buffer.Length0 == fill.Length == channels && buffer.Length1 == BLOCK
      && data.Length == FRAME_BUFFER
    }

    /** Channel i holds s, and zeros behind it. */
    ghost predicate Row(i: nat, s: seq<Byte>)
      requires Shape() && i < channels
      reads buffer, fill
    {
      && fill[i] == |s| <= BLOCK
      && (forall k :: 0 <= k < |s| ==> buffer[i, k] == s[k])
      && (forall k :: |s| <= k < BLOCK ==> buffer[i, k] == 0)
    }

    ghost predicate Holds(held: seq<seq<Byte>>)
      requires Shape()
      reads buffer, fill
    {
      |held| == channels && forall i {:trigger held[i]} :: 0 <= i < channels ==> Row(i, held[i])
    }

    constructor (n: nat)
      requires 0 < n <= 6
      ensures Shape() && channels == n && Holds(Nothing(n)) && sampleCount == audioDataSize == 0
    {
      channels := n;
      buffer := new Byte[n, BLOCK]((_, _) => 0);
      fill := new nat[n](_ => 0);
      data := new Byte[FRAME_BUFFER];
      sampleCount, audioDataSize := 0, 0;
    }

    method StoreByte(i: nat, b: Byte, ghost s: seq<Byte>)
      requires Shape() && i < channels && Row(i, s) && |s| < BLOCK
      modifies buffer, fill
      ensures Row(i, s + [BitReverse(b)])
      ensures forall j, k :: 0 <= j < channels && 0 <= k < BLOCK && j != i ==> buffer[j, k] == old(buffer[j, k])
      ensures forall j :: 0 <= j < channels && j != i ==> fill[j] == old(fill[j])
    {
      hide BitReverse;
      buffer[i, fill[i]] := BitReverse(b);
      fill[i] := fill[i] + 1;
    }

    method EmitBlock(i: nat, datapos: nat, ghost s: seq<Byte>)
      requires Shape() && i < channels && Row(i, s) && datapos + BLOCK <= data.Length
      modifies buffer, fill, data, this`sampleCount, this`audioDataSize
      ensures Row(i, []) && data[datapos..datapos + BLOCK] == Pad(s)
      ensures forall j, k :: 0 <= j < channels && 0 <= k < BLOCK && j != i ==> buffer[j, k] == old(buffer[j, k])
      ensures forall j :: 0 <= j < channels && j != i ==> fill[j] == old(fill[j])
      ensures forall k :: 0 <= k < data.Length && !(datapos <= k < datapos + BLOCK) ==> data[k] == old(data[k])
      ensures sampleCount == old(sampleCount) + |s| && audioDataSize == old(audioDataSize) + BLOCK
    {
      sampleCount := sampleCount + fill[i];
      for k := 0 to BLOCK
        modifies data
        invariant forall j :: 0 <= j < k ==> data[datapos + j] == buffer[i, j]
        invariant forall j :: 0 <= j < data.Length && !(datapos <= j < datapos + BLOCK) ==> data[j] == old(data[j])
      {
        data[datapos + k] := buffer[i, k];
      }
      ghost var p := Pad(s);
      forall k | 0 <= k < BLOCK ensures data[datapos + k] == p[k] {
        assert buffer[i, k] == p[k];
      }
      assert data[datapos..datapos + BLOCK] == p;
      for k := 0 to BLOCK
        modifies buffer
        invariant forall j :: 0 <= j < k ==> buffer[i, j] == 0
        invariant forall j, l :: 0 <= j < channels && 0 <= l < BLOCK && j != i ==> buffer[j, l] == old(buffer[j, l])
      {
        buffer[i, k] := 0;
      }
      fill[i] := 0;
      audioDataSize := audioDataSize + BLOCK;
    }

    /** What channel i holds after a round. */
    ghost function After(s: seq<Byte>, stores: bool, b: Byte): seq<Byte> {
      if stores then s + [BitReverse(b)] else []
    }

    /** The body of the loop over the channels (lines 206-227). */
    method OneChannel(buf: seq<Byte>, bufPtr: nat, datapos: nat, limit: nat, i: nat, ghost s: seq<Byte>)
      returns (bufPtr': nat, datapos': nat)
      requires Shape() && i < channels && Row(i, s)
      requires if Stores(|s|, limit) then bufPtr < |buf| else datapos + BLOCK <= data.Length
      modifies buffer, fill, data, this`sampleCount, this`audioDataSize
      ensures Row(i, After(s, Stores(|s|, limit), if bufPtr < |buf| then buf[bufPtr] else 0))
      ensures forall j, k :: 0 <= j < channels && 0 <= k < BLOCK && j != i ==> buffer[j, k] == old(buffer[j, k])
      ensures forall j :: 0 <= j < channels && j != i ==> fill[j] == old(fill[j])
      ensures Stores(|s|, limit) ==>
                && bufPtr' == bufPtr + 1 && datapos' == datapos && data[..] == old(data[..])
                && sampleCount == old(sampleCount) && audioDataSize == old(audioDataSize)
      ensures !Stores(|s|, limit) ==>
                && bufPtr' == bufPtr && datapos' == datapos + BLOCK && data[datapos..datapos + BLOCK] == Pad(s)
                && data[..datapos] == old(data[..datapos])
                && sampleCount == old(sampleCount) + |s| && audioDataSize == old(audioDataSize) + BLOCK
    {
      hide Pad, BitReverse;
      if fill[i] < BLOCK && fill[i] < limit {
        StoreByte(i, buf[bufPtr], s);
        bufPtr', datapos' := bufPtr + 1, datapos;
      } else {
        EmitBlock(i, datapos, s);
        bufPtr', datapos' := bufPtr, datapos + BLOCK;
      }
    }

    /** One round over the channels (lines 204-228): every channel stores a byte, or every channel puts out a
        block. */
    method Round(buf: seq<Byte>, bufPtr: nat, datapos: nat, limit: nat, ghost held: seq<seq<Byte>>, ghost f: nat)
      returns (bufPtr': nat, datapos': nat)
      requires Shape() && Holds(held) && Level(held, channels, f) && f <= BLOCK
      requires Stores(f, limit) ==> bufPtr + channels <= |buf|
      requires !Stores(f, limit) ==> datapos + channels * BLOCK <= data.Length
      requires datapos <= data.Length && forall i :: 0 <= i < channels ==> |held[i]| <= BLOCK
      modifies buffer, fill, data, this`sampleCount, this`audioDataSize
      ensures Stores(f, limit) ==>
                && bufPtr' == bufPtr + channels && datapos' == datapos && data[..] == old(data[..])
                && Holds(Stored(held, buf[bufPtr..bufPtr + channels]))
                && sampleCount == old(sampleCount) && audioDataSize == old(audioDataSize)
      ensures !Stores(f, limit) ==>
                && bufPtr' == bufPtr && datapos' == datapos + channels * BLOCK && Holds(Nothing(channels))
                && RoundLaid(old(data[..]), data[..], datapos, channels, held)
                && sampleCount == old(sampleCount) + channels * f && audioDataSize == old(audioDataSize) + channels * BLOCK
    {
      hide Pad, BitReverse, RoundLaid, BlockAt, Stored;
      bufPtr', datapos' := bufPtr, datapos;
      ghost var start := data[..];
      RoundLaidStart(start, datapos, held);
      ghost var stores := Stores(f, limit);
      ghost var bytes := if stores then buf[bufPtr..bufPtr + channels] else seq(channels, _ => 0);
      for i := 0 to channels
        invariant bufPtr' == bufPtr + (if stores then i else 0) && datapos' == datapos + (if stores then 0 else i * BLOCK)
        invariant forall j {:trigger held[j]} :: i <= j < channels ==> Row(j, held[j])
        invariant forall j {:trigger held[j]} :: 0 <= j < i ==> Row(j, After(held[j], stores, bytes[j]))
        invariant stores ==> data[..] == start && sampleCount == old(sampleCount) && audioDataSize == old(audioDataSize)
        invariant !stores ==> sampleCount == old(sampleCount) + i * f && audioDataSize == old(audioDataSize) + i * BLOCK
        invariant !stores ==> RoundLaid(start, data[..], datapos, i, held)
      {
        assert |held[i]| == f && Row(i, held[i]);
        MoreRows(i, f);
        ghost var before, from := data[..], datapos';
        label start:
        bufPtr', datapos' := OneChannel(buf, bufPtr', datapos', limit, i, held[i]);
        forall j {:trigger held[j]} | i < j < channels ensures Row(j, held[j]) {
          assert old@start(Row(j, held[j]));
        }
        forall j {:trigger held[j]} | 0 <= j < i ensures Row(j, After(held[j], stores, bytes[j])) {
          assert old@start(Row(j, After(held[j], stores, bytes[j])));
        }
        if !stores {
          RoundLaidMore(start, before, data[..], datapos, i, held, from);
        }
      }
      RoundRows(held, f, stores, bytes);
    }

    lemma RoundRows(held: seq<seq<Byte>>, f: nat, stores: bool, bytes: seq<Byte>)
      requires Shape() && Level(held, channels, f) && |bytes| == channels
      requires forall j {:trigger held[j]} :: 0 <= j < channels ==> Row(j, After(held[j], stores, bytes[j]))
      ensures stores ==> Holds(Stored(held, bytes))
      ensures !stores ==> Holds(Nothing(channels))
    {
      hide Row, BitReverse;
      if stores {
        ghost var next := Stored(held, bytes);
        forall j {:trigger next[j]} | 0 <= j < channels ensures Row(j, next[j]) {
          assert Row(j, After(held[j], stores, bytes[j]));
        }
      } else {
        ghost var next := Nothing<Byte>(channels);
        forall j {:trigger next[j]} | 0 <= j < channels ensures Row(j, next[j]) {
          assert Row(j, After(held[j], stores, bytes[j]));
        }
      }
    }

    /** dsf_write_frame: every channel is fed its bytes of the frame, all in lockstep; the blocks go out
        channel by channel, and fit into the caller's buffer. */
    method WriteFrame(buf: seq<Byte>, ghost held: seq<seq<Byte>>, ghost f: nat)
      returns (n: nat, ghost held': seq<seq<Byte>>, ghost f': nat, ghost blocks: seq<seq<seq<Byte>>>, ghost rounds: nat)
      requires Shape() && Holds(held) && Level(held, channels, f) && f <= BLOCK
      requires |buf| % channels == 0 && channels * BLOCK + |buf| <= FRAME_BUFFER
      modifies buffer, fill, data, this`sampleCount, this`audioDataSize
      ensures Holds(held') && Level(held', channels, f') && f' <= BLOCK && |blocks| == channels
      ensures forall i {:trigger blocks[i]} :: 0 <= i < channels ==>
                (blocks[i], held'[i]) == CallFeed(held[i], Chunk(buf, channels, i))
      ensures n == rounds * channels * BLOCK <= FRAME_BUFFER && Laid(data[..], blocks, channels, rounds)
      ensures audioDataSize == old(audioDataSize) + n
      ensures sampleCount + channels * f' == old(sampleCount) + channels * f + |buf|
    {
      hide Pad, BitReverse, Feed, Stored, Laid, Fed, InCall;
      var datapos: nat, bufPtr: nat := 0, 0;
      var limit := |buf| / channels;
      held', f', blocks, rounds := held, f, Nothing(channels), 0;
      ghost var m := 0;
      StartCall(held, buf, channels, f);
      NothingLaid(data[..], channels);
      while bufPtr < |buf|
        invariant Holds(held') && InCall(held, held', blocks, buf, channels, m, rounds, f', bufPtr, datapos)
        invariant Laid(data[..], blocks, channels, rounds)
        invariant audioDataSize == old(audioDataSize) + datapos
        invariant sampleCount + channels * f' == old(sampleCount) + channels * f + bufPtr
        decreases |buf| - bufPtr, f'
      {
        NextRound(held, held', blocks, buf, channels, m, rounds, f', bufPtr, datapos);
        ghost var before := data[..];
        var bufPtr', datapos' := Round(buf, bufPtr, datapos, limit, held', f');
        if Stores(f', limit) {
          StoreStep(held, held', blocks, buf, channels, m, rounds, f', bufPtr, datapos);
          held' := Stored(held', buf[bufPtr..bufPtr']);
          f', m := f' + 1, m + 1;
          MoreRows(f' - 1, channels);
        } else {
          EmitStep(held, held', blocks, buf, channels, m, rounds, f', bufPtr, datapos);
          LaidMore(before, data[..], blocks, held', channels, rounds);
          blocks := Emitted(blocks, held');
          held' := Nothing(channels);
          f', rounds := 0, rounds + 1;
        }
        bufPtr, datapos := bufPtr', datapos';
      }
      FinishCall(held, held', blocks, buf, channels, m, rounds, f', bufPtr, datapos);
      n := datapos;
    }
  }

  /** The loop of one call: what is fed, how far each buffer is, and that the output has not grown too much. */
  ghost predicate InCall(held0: seq<seq<Byte>>, held: seq<seq<Byte>>, out: seq<seq<seq<Byte>>>, buf: seq<Byte>, channels: nat,
                         m: nat, rounds: nat, f: nat, bufPtr: nat, datapos: nat)
    requires channels > 0 && |buf| % channels == 0
  {
    && channels * BLOCK + |buf| <= FRAME_BUFFER
    && Fed(held0, held, out, buf, channels, m) && Level(held, channels, f) && f <= BLOCK && m <= |buf| / channels
    && bufPtr == m * channels && datapos == rounds * channels * BLOCK <= FRAME_BUFFER
    && (rounds > 0 ==> f + (rounds - 1) * Threshold(|buf| / channels) <= m)
  }

  lemma NextRound(held0: seq<seq<Byte>>, held: seq<seq<Byte>>, out: seq<seq<seq<Byte>>>, buf: seq<Byte>, channels: nat,
                  m: nat, rounds: nat, f: nat, bufPtr: nat, datapos: nat)
    requires channels > 0 && |buf| % channels == 0 && bufPtr < |buf|
    requires InCall(held0, held, out, buf, channels, m, rounds, f, bufPtr, datapos)
    ensures Level(held, channels, f) && f <= BLOCK && m < |buf| / channels && bufPtr + channels <= |buf|
    ensures |out| == channels && forall i :: 0 <= i < channels ==> |held[i]| <= BLOCK
    ensures datapos == rounds * channels * BLOCK <= FRAME_BUFFER
    ensures !Stores(f, |buf| / channels) ==> datapos + channels * BLOCK <= FRAME_BUFFER
  {
    hide FedChannel;
    RowsLeft(|buf|, channels, m);
    if !Stores(f, |buf| / channels) { RoomLeft(|buf|, channels, |buf| / channels, rounds, m, f); }
    forall i | 0 <= i < channels ensures |held[i]| <= BLOCK { assert |held[i]| == f; }
  }

  lemma StoreStep(held0: seq<seq<Byte>>, held: seq<seq<Byte>>, out: seq<seq<seq<Byte>>>, buf: seq<Byte>, channels: nat,
                  m: nat, rounds: nat, f: nat, bufPtr: nat, datapos: nat)
    requires channels > 0 && |buf| % channels == 0 && bufPtr < |buf| && Stores(f, |buf| / channels)
    requires InCall(held0, held, out, buf, channels, m, rounds, f, bufPtr, datapos)
    ensures bufPtr + channels <= |buf| && |held| == channels
    ensures InCall(held0, Stored(held, buf[bufPtr..bufPtr + channels]), out, buf, channels, m + 1, rounds, f + 1, bufPtr + channels, datapos)
  {
    hide FedChannel, Stored;
    RowsLeft(|buf|, channels, m);
    FedStored(held0, held, out, buf, channels, m, |buf| / channels, f);
    MoreRows(m, channels);
  }

  lemma EmitStep(held0: seq<seq<Byte>>, held: seq<seq<Byte>>, out: seq<seq<seq<Byte>>>, buf: seq<Byte>, channels: nat,
                 m: nat, rounds: nat, f: nat, bufPtr: nat, datapos: nat)
    requires channels > 0 && |buf| % channels == 0 && bufPtr < |buf| && !Stores(f, |buf| / channels)
    requires InCall(held0, held, out, buf, channels, m, rounds, f, bufPtr, datapos)
    ensures |held| == |out| == channels && forall i :: 0 <= i < channels ==> |held[i]| <= BLOCK
    ensures InCall(held0, Nothing(channels), Emitted(out, held), buf, channels, m, rounds + 1, 0, bufPtr, datapos + channels * BLOCK)
  {
    hide FedChannel, Emitted;
    RowsLeft(|buf|, channels, m);
    RoomLeft(|buf|, channels, |buf| / channels, rounds, m, f);
    FedEmitted(held0, held, out, buf, channels, m, |buf| / channels, f);
    OneRoundMore(rounds, channels);
  }

  lemma OneRoundMore(rounds: nat, channels: nat)
    ensures (rounds + 1) * channels * BLOCK == rounds * channels * BLOCK + channels * BLOCK
  {
    MoreRows(rounds, channels);
  }

  /** What a channel's buffer reaches at least before it goes out. */
  function Threshold(limit: nat): nat { if limit < BLOCK then limit else BLOCK }

  /** Feeding what is left, after what was put out, is the whole call. */
  ghost predicate Fed(held0: seq<seq<Byte>>, held: seq<seq<Byte>>, out: seq<seq<seq<Byte>>>, buf: seq<Byte>, channels: nat, m: nat)
    requires channels > 0 && |buf| % channels == 0
  {
    && |held0| == |held| == |out| == channels && m <= |buf| / channels
    && forall i {:trigger FedChannel(held0, held, out, buf, channels, m, i)} :: 0 <= i < channels ==>
         FedChannel(held0, held, out, buf, channels, m, i)
  }

  ghost predicate FedChannel(held0: seq<seq<Byte>>, held: seq<seq<Byte>>, out: seq<seq<seq<Byte>>>, buf: seq<Byte>,
                             channels: nat, m: nat, i: nat)
    requires channels > 0 && |buf| % channels == 0 && m <= |buf| / channels
    requires |held0| == |held| == |out| == channels && i < channels
  {
    var chunk := Chunk(buf, channels, i);
    && |held0[i]| <= BLOCK && |held[i]| <= BLOCK
    && (chunk == [] ==> out[i] == [] && held[i] == held0[i])
    && (chunk != [] ==> Feed(held0[i], chunk, |chunk|) == Prepend(out[i], Feed(held[i], chunk[m..], |chunk|)))
  }

  /** Block r of channel i lies at place r * channels + i of the output. */
  ghost predicate Laid(data: seq<Byte>, blocks: seq<seq<seq<Byte>>>, channels: nat, rounds: nat) {
    && |blocks| == channels
    && forall i {:trigger blocks[i]} :: 0 <= i < channels ==> LaidChannel(data, blocks[i], channels, rounds, i)
  }

  ghost predicate LaidChannel(data: seq<Byte>, blocks: seq<seq<Byte>>, channels: nat, rounds: nat, i: nat) {
    |blocks| == rounds && forall r {:trigger blocks[r]} :: 0 <= r < rounds ==> BlockAt(data, r * channels * BLOCK, i, blocks[r])
  }

  /** The blocks with one more each. */
  function Emitted(blocks: seq<seq<seq<Byte>>>, held: seq<seq<Byte>>): (r: seq<seq<seq<Byte>>>)
    requires |blocks| == |held| && forall i :: 0 <= i < |held| ==> |held[i]| <= BLOCK
    ensures |r| == |held|
  {
    seq(|held|, i requires 0 <= i < |held| => blocks[i] + [Pad(held[i])])
  }

  lemma StartCall(held: seq<seq<Byte>>, buf: seq<Byte>, channels: nat, f: nat)
    requires channels > 0 && |buf| % channels == 0 && Level(held, channels, f) && f <= BLOCK
    requires channels * BLOCK + |buf| <= FRAME_BUFFER
    ensures InCall(held, held, Nothing(channels), buf, channels, 0, 0, f, 0, 0)
  {
    hide Feed;
    forall i | 0 <= i < channels ensures FedChannel(held, held, Nothing(channels), buf, channels, 0, i) {
      var chunk := Chunk(buf, channels, i);
      assert |held[i]| == f;
      assert chunk[0..] == chunk;
      if chunk != [] {
        var r := Feed(held[i], chunk, |chunk|);
        assert [] + r.0 == r.0;
        assert Prepend([], r) == r;
      }
    }
  }

  lemma NothingLaid(data: seq<Byte>, channels: nat)
    ensures Laid(data, Nothing(channels), channels, 0)
  {
  }

  lemma RowsLeft(n: nat, channels: nat, m: nat)
    requires channels > 0 && n % channels == 0 && m * channels < n
    ensures m < n / channels && m * channels + channels <= n
  {
    var rows := n / channels;
    assert n == rows * channels;
    if m >= rows { MulMonotone(rows, m, channels); }
    MulMonotone(m + 1, rows, channels);
    MoreRows(m, channels);
  }

  /** A block per channel more still fits. */
  lemma RoomLeft(n: nat, channels: nat, limit: nat, rounds: nat, m: nat, f: nat)
    requires 0 < channels && n % channels == 0 && limit == n / channels && m < limit && f <= BLOCK
    requires !Stores(f, limit) && channels * BLOCK + n <= FRAME_BUFFER
    requires rounds > 0 ==> f + (rounds - 1) * Threshold(limit) <= m
    ensures rounds * channels * BLOCK + channels * BLOCK <= FRAME_BUFFER
    ensures rounds > 0 ==> rounds * Threshold(limit) <= m
  {
    assert n == limit * channels;
    if rounds > 0 {
      EmittedBelow(rounds, Threshold(limit), f, m);
      assert Threshold(limit) == BLOCK;
      BlocksInBytes(rounds, channels, limit);
    }
  }

  lemma EmittedBelow(rounds: nat, t: nat, f: nat, m: nat)
    requires rounds > 0 && t <= f && f + (rounds - 1) * t <= m
    ensures t <= rounds * t <= m
  {
    MoreRows(rounds - 1, t);
    MulMonotone(1, rounds, t);
  }

  lemma BlocksInBytes(rounds: nat, channels: nat, limit: nat)
    requires rounds * BLOCK <= limit
    ensures rounds * channels * BLOCK <= limit * channels
  {
    MulMonotone(rounds * BLOCK, limit, channels);
    assert rounds * BLOCK * channels == rounds * channels * BLOCK;
  }

  lemma SliceAt(buf: seq<Byte>, at: nat, n: nat, i: nat)
    requires at + n <= |buf| && i < n
    ensures buf[at..at + n][i] == buf[at + i]
  {
  }

  lemma ChunkNext(buf: seq<Byte>, channels: nat, m: nat, i: nat)
    requires channels > 0 && |buf| % channels == 0 && m < |buf| / channels && i < channels
    ensures m * channels + channels <= |buf|
    ensures var chunk := Chunk(buf, channels, i);
            chunk[m..] == [BitReverse(buf[m * channels..m * channels + channels][i])] + chunk[m + 1..]
  {
    hide BitReverse;
    InBuf(|buf|, channels, m, i);
    SliceAt(buf, m * channels, channels, i);
    var chunk := Chunk(buf, channels, i);
    assert chunk[m] == BitReverse(buf[m * channels + i]);
    assert chunk[m..] == [chunk[m]] + chunk[m + 1..];
  }

  lemma FedStored(held0: seq<seq<Byte>>, held: seq<seq<Byte>>, out: seq<seq<seq<Byte>>>, buf: seq<Byte>,
                  channels: nat, m: nat, limit: nat, f: nat)
    requires channels > 0 && |buf| % channels == 0 && limit == |buf| / channels && m < limit
    requires Fed(held0, held, out, buf, channels, m) && Level(held, channels, f) && Stores(f, limit)
    requires m * channels + channels <= |buf|
    ensures Fed(held0, Stored(held, buf[m * channels..m * channels + channels]), out, buf, channels, m + 1)
    ensures Level(Stored(held, buf[m * channels..m * channels + channels]), channels, f + 1)
  {
    hide BitReverse;
    var bytes := buf[m * channels..m * channels + channels];
    var next := Stored(held, bytes);
    forall i {:trigger next[i]} | 0 <= i < channels ensures |next[i]| == f + 1 {
      assert |held[i]| == f;
    }
    forall i {:trigger FedChannel(held0, next, out, buf, channels, m + 1, i)} | 0 <= i < channels
      ensures FedChannel(held0, next, out, buf, channels, m + 1, i)
    {
      assert FedChannel(held0, held, out, buf, channels, m, i) && |held[i]| == f;
      ChunkNext(buf, channels, m, i);
      FeedByte(held[i], Chunk(buf, channels, i)[m..], |buf| / channels);
    }
  }

  lemma FeedByte(held: seq<Byte>, more: seq<Byte>, limit: nat)
    requires more != [] && |held| < BLOCK && |held| < limit
    ensures Feed(held, more, limit) == Feed(held + [more[0]], more[1..], limit)
  {
  }

  lemma FedEmitted(held0: seq<seq<Byte>>, held: seq<seq<Byte>>, out: seq<seq<seq<Byte>>>, buf: seq<Byte>,
                   channels: nat, m: nat, limit: nat, f: nat)
    requires channels > 0 && |buf| % channels == 0 && limit == |buf| / channels && m < limit
    requires Fed(held0, held, out, buf, channels, m) && Level(held, channels, f) && f <= BLOCK && !Stores(f, limit)
    ensures (forall i :: 0 <= i < channels ==> |held[i]| <= BLOCK)
    ensures Fed(held0, Nothing(channels), Emitted(out, held), buf, channels, m)
  {
    hide Pad, Chunk, Feed;
    forall i | 0 <= i < channels ensures |held[i]| <= BLOCK { assert |held[i]| == f; }
    var next := Nothing(channels);
    forall i | 0 <= i < channels ensures FedChannel(held0, next, Emitted(out, held), buf, channels, m, i) {
      assert FedChannel(held0, held, out, buf, channels, m, i) && |held[i]| == f;
      var chunk := Chunk(buf, channels, i);
      FeedFull(held[i], chunk[m..], |chunk|);
      var r := Feed([], chunk[m..], |chunk|);
      assert out[i] + ([Pad(held[i])] + r.0) == out[i] + [Pad(held[i])] + r.0;
    }
  }

  lemma LaidMore(before: seq<Byte>, after: seq<Byte>, blocks: seq<seq<seq<Byte>>>, held: seq<seq<Byte>>, channels: nat, rounds: nat)
    requires Laid(before, blocks, channels, rounds) && |held| == channels && forall i :: 0 <= i < channels ==> |held[i]| <= BLOCK
    requires rounds * channels * BLOCK <= |before| && RoundLaid(before, after, rounds * channels * BLOCK, channels, held)
    ensures Laid(after, Emitted(blocks, held), channels, rounds + 1)
  {
    hide Pad;
    var more := Emitted(blocks, held);
    forall i | 0 <= i < channels ensures LaidChannel(after, more[i], channels, rounds + 1, i) {
      assert LaidChannel(before, blocks[i], channels, rounds, i) && |held[i]| <= BLOCK;
      assert more[i] == blocks[i] + [Pad(held[i])];
      forall r | 0 <= r <= rounds ensures BlockAt(after, r * channels * BLOCK, i, more[i][r]) {
        if r < rounds {
          assert BlockAt(before, r * channels * BLOCK, i, blocks[i][r]);
          EarlierBlock(r, rounds, channels, i);
          KeptBlock(before, after, r * channels * BLOCK, i, blocks[i][r], rounds * channels * BLOCK);
        }
      }
    }
  }

  lemma KeptBlock(before: seq<Byte>, after: seq<Byte>, at: nat, j: nat, b: seq<Byte>, from: nat)
    requires |before| == |after| && BlockAt(before, at, j, b) && at + (j + 1) * BLOCK <= from <= |before|
    requires after[..from] == before[..from]
    ensures BlockAt(after, at, j, b)
  {
    forall k | at + j * BLOCK <= k < at + (j + 1) * BLOCK ensures after[k] == before[k] {
      assert after[..from][k] == before[..from][k];
    }
  }

  lemma EarlierBlock(r: nat, rounds: nat, channels: nat, i: nat)
    requires r < rounds && i < channels
    ensures r * channels * BLOCK + (i + 1) * BLOCK <= rounds * channels * BLOCK
  {
    MulMonotone(r + 1, rounds, channels);
    MoreRows(r, channels);
  }

  lemma FinishCall(held0: seq<seq<Byte>>, held: seq<seq<Byte>>, out: seq<seq<seq<Byte>>>, buf: seq<Byte>, channels: nat,
                   m: nat, rounds: nat, f: nat, bufPtr: nat, datapos: nat)
    requires channels > 0 && |buf| % channels == 0 && bufPtr >= |buf|
    requires InCall(held0, held, out, buf, channels, m, rounds, f, bufPtr, datapos)
    ensures bufPtr == |buf| && Level(held, channels, f) && f <= BLOCK && |out| == |held0| == channels
    ensures datapos == rounds * channels * BLOCK <= FRAME_BUFFER
    ensures forall i {:trigger out[i]} :: 0 <= i < channels ==>
              |held0[i]| <= BLOCK && (out[i], held[i]) == CallFeed(held0[i], Chunk(buf, channels, i))
  {
    var rows := |buf| / channels;
    assert |buf| == rows * channels;
    if m < rows { MulMonotone(m + 1, rows, channels); MoreRows(m, channels); }
    MulMonotone(m, rows, channels);
    forall i | 0 <= i < channels
      ensures |held0[i]| <= BLOCK && (out[i], held[i]) == CallFeed(held0[i], Chunk(buf, channels, i))
    {
      assert FedChannel(held0, held, out, buf, channels, m, i);
      var chunk := Chunk(buf, channels, i);
      assert chunk[m..] == [];
      assert out[i] + [] == out[i];
    }
  }

  /** The first i channels' blocks lie behind what was there before. */
  ghost predicate RoundLaid(start: seq<Byte>, data: seq<Byte>, at: nat, i: nat, held: seq<seq<Byte>>) {
    && |start| == |data| && at <= |data| && i <= |held| && data[..at] == start[..at]
    && (forall j :: 0 <= j < |held| ==> |held[j]| <= BLOCK)
    && forall j {:trigger held[j]} :: 0 <= j < i ==> BlockAt(data, at, j, Pad(held[j]))
  }

  lemma RoundLaidStart(start: seq<Byte>, at: nat, held: seq<seq<Byte>>)
    requires forall j :: 0 <= j < |held| ==> |held[j]| <= BLOCK
    ensures at <= |start| ==> RoundLaid(start, start, at, 0, held)
  {
  }

  lemma RoundLaidMore(start: seq<Byte>, before: seq<Byte>, after: seq<Byte>, at: nat, i: nat, held: seq<seq<Byte>>, from: nat)
    requires RoundLaid(start, before, at, i, held) && i < |held| && from == at + i * BLOCK && from + BLOCK <= |after| == |before|
    requires after[..from] == before[..from] && after[from..from + BLOCK] == Pad(held[i])
    ensures RoundLaid(start, after, at, i + 1, held)
  {
    hide Pad;
    forall j {:trigger held[j]} | 0 <= j <= i ensures BlockAt(after, at, j, Pad(held[j])) {
      if j < i {
        assert BlockAt(before, at, j, Pad(held[j]));
        KeptBlock(before, after, at, j, Pad(held[j]), from);
      }
    }
    assert after[..at] == after[..from][..at];
    assert before[..at] == before[..from][..at];
  }

  lemma MoreRows(i: nat, f: nat)
    ensures (i + 1) * f == i * f + f
  {
  }

  /** Block j of those that start at `at`. */
  predicate BlockAt(data: seq<Byte>, at: nat, j: nat, b: seq<Byte>) {
    at + (j + 1) * BLOCK <= |data| && data[at + j * BLOCK..at + (j + 1) * BLOCK] == b
  }

  /** One more byte for every channel. */
  function Stored(held: seq<seq<Byte>>, bytes: seq<Byte>): (r: seq<seq<Byte>>)
    requires |bytes| == |held|
    ensures |r| == |held|
  {
    seq(|held|, i requires 0 <= i < |held| => held[i] + [BitReverse(bytes[i])])
  }

  /* The output of a call as bytes. */

  /** Every channel's blocks and what it still holds after a frame. */
  function FedAll(held: seq<seq<Byte>>, frame: seq<Byte>, channels: nat): (r: seq<(seq<seq<Byte>>, seq<Byte>)>)
    requires channels > 0 && |frame| % channels == 0 && |held| == channels
    requires forall i {:trigger held[i]} :: 0 <= i < channels ==> |held[i]| <= BLOCK
    ensures |r| == channels
  {
    seq(channels, i requires 0 <= i < channels => CallFeed(held[i], Chunk(frame, channels, i)))
  }

  /** Round r of the blocks, the first i channels. */
  function RoundBytes(blocks: seq<seq<seq<Byte>>>, r: nat, i: nat): seq<Byte>
    requires i <= |blocks| && forall j {:trigger blocks[j]} :: 0 <= j < i ==> r < |blocks[j]|
  {
    if i == 0 then [] else RoundBytes(blocks, r, i - 1) + blocks[i - 1][r]
  }

  /** The blocks channel by channel, round by round. */
  function Interleaved(blocks: seq<seq<seq<Byte>>>, rounds: nat): seq<Byte>
    requires forall j {:trigger blocks[j]} :: 0 <= j < |blocks| ==> rounds <= |blocks[j]|
  {
    if rounds == 0 then [] else Interleaved(blocks, rounds - 1) + RoundBytes(blocks, rounds - 1, |blocks|)
  }

  lemma {:induction false} BlocksInARow(data: seq<Byte>, blocks: seq<seq<seq<Byte>>>, p: nat, r: nat, i: nat)
    requires i <= |blocks| && forall j {:trigger blocks[j]} :: 0 <= j < i ==> r < |blocks[j]| && BlockAt(data, p, j, blocks[j][r])
    ensures i > 0 ==> p + i * BLOCK <= |data| && data[p..p + i * BLOCK] == RoundBytes(blocks, r, i)
  {
    if i > 0 {
      BlocksInARow(data, blocks, p, r, i - 1);
      assert BlockAt(data, p, i - 1, blocks[i - 1][r]);
      assert data[p..p + i * BLOCK] == (if i > 1 then data[p..p + (i - 1) * BLOCK] else []) + data[p + (i - 1) * BLOCK..p + i * BLOCK];
    }
  }

  lemma LaidRounds(data: seq<Byte>, blocks: seq<seq<seq<Byte>>>, channels: nat, rounds: nat)
    requires Laid(data, blocks, channels, rounds)
    ensures |blocks| == channels && forall j {:trigger blocks[j]} :: 0 <= j < channels ==> |blocks[j]| == rounds
  {
    forall j {:trigger blocks[j]} | 0 <= j < channels ensures |blocks[j]| == rounds {
      assert LaidChannel(data, blocks[j], channels, rounds, j);
    }
  }

  lemma RoundIsLaid(data: seq<Byte>, blocks: seq<seq<seq<Byte>>>, channels: nat, rounds: nat, r: nat)
    requires channels > 0 && Laid(data, blocks, channels, rounds) && r < rounds
    ensures |blocks| == channels && forall j {:trigger blocks[j]} :: 0 <= j < channels ==> |blocks[j]| == rounds
    ensures var p := r * channels * BLOCK;
            p + channels * BLOCK <= |data| && data[p..p + channels * BLOCK] == RoundBytes(blocks, r, channels)
  {
    hide BlockAt;
    LaidRounds(data, blocks, channels, rounds);
    var p := r * channels * BLOCK;
    forall j {:trigger blocks[j]} | 0 <= j < channels ensures r < |blocks[j]| && BlockAt(data, p, j, blocks[j][r]) {
      assert LaidChannel(data, blocks[j], channels, rounds, j);
    }
    BlocksInARow(data, blocks, p, r, channels);
  }

  /** The output is the blocks, interleaved. */
  lemma {:induction false} LaidIsInterleaved(data: seq<Byte>, blocks: seq<seq<seq<Byte>>>, channels: nat, rounds: nat, n: nat)
    requires channels > 0 && Laid(data, blocks, channels, rounds) && n <= rounds
    ensures forall j {:trigger blocks[j]} :: 0 <= j < channels ==> n <= |blocks[j]|
    ensures n * channels * BLOCK <= |data| && data[..n * channels * BLOCK] == Interleaved(blocks, n)
  {
    hide Laid;
    LaidRounds(data, blocks, channels, rounds);
    if n > 0 {
      LaidIsInterleaved(data, blocks, channels, rounds, n - 1);
      RoundIsLaid(data, blocks, channels, rounds, n - 1);
      OneRoundMore(n - 1, channels);
      var p := (n - 1) * channels * BLOCK;
      assert data[..p + channels * BLOCK] == data[..p] + data[p..p + channels * BLOCK];
    }
  }
}
