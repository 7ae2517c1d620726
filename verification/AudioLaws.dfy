/** Which byte of which frame every byte of the repacked audio is (dsf.c over a run of frames). */
module AudioLaws {
  import opened Bits
  import D = Demux
  import F = Dsf
  import S = SacdFile

  /** The bytes of the frames, one behind the other. */
  function AllBytes(calls: seq<D.Emission>): seq<Byte> {
    if calls == [] then [] else AllBytes(calls[..|calls| - 1]) + calls[|calls| - 1].bytes
  }

  /** Blocks per channel that these frames have put out. */
  function Rounds(calls: seq<D.Emission>, channels: nat): nat
    requires S.FullFrames(calls, channels)
  {
    if calls == [] then 0
    else
      var front := calls[..|calls| - 1];
      Rounds(front, channels) + S.CallCounts(|S.Audio(front, channels).1[0]|, |calls[|calls| - 1].bytes| / channels).0
  }

  /** The first rounds blocks of a channel's bytes. */
  function Cut(stream: seq<Byte>, rounds: nat): (b: seq<seq<Byte>>)
    requires 4096 * rounds <= |stream|
    ensures |b| == rounds
  {
    seq(rounds, r requires 0 <= r < rounds => stream[4096 * r..4096 * r + 4096])
  }

  /** Channel j's bytes lie in the audio block by block, and what makes no block is still held. */
  ghost predicate Placed(audio: seq<Byte>, held: seq<Byte>, stream: seq<Byte>, channels: nat, rounds: nat, j: nat) {
    && 4096 * rounds <= |stream| && held == stream[4096 * rounds..]
    && F.LaidChannel(audio, Cut(stream, rounds), channels, rounds, j)
  }

  predicate Whole(blocks: seq<seq<Byte>>) {
    forall q {:trigger blocks[q]} :: 0 <= q < |blocks| ==> |blocks[q]| == 4096
  }

  lemma {:induction false} JoinedAt(blocks: seq<seq<Byte>>, q: nat)
    requires Whole(blocks) && q < |blocks|
    ensures |Joined(blocks)| == 4096 * |blocks| && Joined(blocks)[4096 * q..4096 * q + 4096] == blocks[q]
  {
    var front := blocks[..|blocks| - 1];
    if front == [] {
      assert Joined(front) == [];
    } else {
      JoinedAt(front, if q < |front| then q else 0);
      if q < |front| {
        assert Joined(blocks)[4096 * q..4096 * q + 4096] == Joined(front)[4096 * q..4096 * q + 4096];
      }
    }
  }

  lemma EarlierBlock(audio: seq<Byte>, stream: seq<Byte>, channels: nat, rounds: nat, j: nat, chunk: seq<Byte>, more: seq<Byte>, r: nat)
    requires 4096 * rounds <= |stream| && F.LaidChannel(audio, Cut(stream, rounds), channels, rounds, j) && r < rounds
    ensures F.BlockAt(audio + more, r * channels * 4096, j, (stream + chunk)[4096 * r..4096 * r + 4096])
  {
    hide F.BlockAt;
    var b := Cut(stream, rounds)[r];
    assert F.BlockAt(audio, r * channels * 4096, j, b);
    FirstBlocks(audio, more, r * channels * 4096, j, b);
    assert (stream + chunk)[4096 * r..4096 * r + 4096] == b;
  }

  lemma LaterBlock(audio: seq<Byte>, held: seq<Byte>, stream: seq<Byte>, channels: nat, rounds: nat, j: nat,
                   chunk: seq<Byte>, more: seq<Byte>, blocks: seq<seq<Byte>>, rest: seq<Byte>, q: nat)
    requires 4096 * rounds <= |stream| && held == stream[4096 * rounds..] && |audio| == rounds * channels * 4096
    requires Whole(blocks) && Joined(blocks) + rest == held + chunk && F.LaidChannel(more, blocks, channels, |blocks|, j)
    requires q < |blocks|
    ensures 4096 * (rounds + q) + 4096 <= |stream + chunk|
    ensures F.BlockAt(audio + more, (rounds + q) * channels * 4096, j, (stream + chunk)[4096 * (rounds + q)..4096 * (rounds + q) + 4096])
  {
    hide F.BlockAt, Joined, Whole;
    JoinedAt(blocks, q);
    BlockIs(stream, chunk, held, rounds, blocks, rest, q);
    assert F.BlockAt(more, q * channels * 4096, j, blocks[q]);
    LaterBlocks(audio, more, rounds, q, channels, j, blocks[q]);
  }

  /** One more call: its blocks come behind the earlier ones. */
  lemma PlacedMore(audio: seq<Byte>, held: seq<Byte>, stream: seq<Byte>, channels: nat, rounds: nat, j: nat,
                   chunk: seq<Byte>, more: seq<Byte>, blocks: seq<seq<Byte>>, rest: seq<Byte>)
    requires Placed(audio, held, stream, channels, rounds, j) && |audio| == rounds * channels * 4096
    requires Whole(blocks) && Joined(blocks) + rest == held + chunk && F.LaidChannel(more, blocks, channels, |blocks|, j)
    ensures Placed(audio + more, rest, stream + chunk, channels, rounds + |blocks|, j)
  {
    hide F.BlockAt, F.LaidChannel, Joined, Whole, Cut;
    var n := |blocks|;
    JoinedSize(blocks);
    RestIs(held, stream, rounds, chunk, Joined(blocks), rest, n);
    forall r | 0 <= r < rounds + n
      ensures F.BlockAt(audio + more, r * channels * 4096, j, (stream + chunk)[4096 * r..4096 * r + 4096])
    {
      if r < rounds {
        EarlierBlock(audio, stream, channels, rounds, j, chunk, more, r);
      } else {
        LaterBlock(audio, held, stream, channels, rounds, j, chunk, more, blocks, rest, r - rounds);
      }
    }
    AllLaid(audio + more, stream + chunk, channels, rounds + n, j);
  }

  lemma AllLaid(audio: seq<Byte>, stream: seq<Byte>, channels: nat, rounds: nat, j: nat)
    requires 4096 * rounds <= |stream|
    requires forall r :: 0 <= r < rounds ==> F.BlockAt(audio, r * channels * 4096, j, stream[4096 * r..4096 * r + 4096])
    ensures F.LaidChannel(audio, Cut(stream, rounds), channels, rounds, j)
  {
    hide F.BlockAt;
    var cut := Cut(stream, rounds);
    forall r {:trigger cut[r]} | 0 <= r < rounds ensures F.BlockAt(audio, r * channels * 4096, j, cut[r]) {
      assert cut[r] == stream[4096 * r..4096 * r + 4096];
    }
  }

  lemma JoinedSize(blocks: seq<seq<Byte>>)
    requires Whole(blocks)
    ensures |Joined(blocks)| == 4096 * |blocks|
  {
    if blocks != [] { JoinedAt(blocks, 0); }
  }

  lemma RestIs(held: seq<Byte>, stream: seq<Byte>, rounds: nat, chunk: seq<Byte>, joined: seq<Byte>, rest: seq<Byte>, n: nat)
    requires 4096 * rounds <= |stream| && held == stream[4096 * rounds..] && joined + rest == held + chunk && |joined| == 4096 * n
    ensures 4096 * (rounds + n) <= |stream + chunk| && rest == (stream + chunk)[4096 * (rounds + n)..]
  {
    assert (stream + chunk)[4096 * rounds..] == held + chunk;
    assert rest == (joined + rest)[4096 * n..];
  }

  lemma BlockIs(stream: seq<Byte>, chunk: seq<Byte>, held: seq<Byte>, rounds: nat, blocks: seq<seq<Byte>>, rest: seq<Byte>, q: nat)
    requires 4096 * rounds <= |stream| && held == stream[4096 * rounds..] && Joined(blocks) + rest == held + chunk
    requires q < |blocks| && |Joined(blocks)| == 4096 * |blocks| && Joined(blocks)[4096 * q..4096 * q + 4096] == blocks[q]
    ensures (stream + chunk)[4096 * (rounds + q)..4096 * (rounds + q) + 4096] == blocks[q]
  {
    var all := stream + chunk;
    assert all[4096 * rounds..] == held + chunk;
    assert all[4096 * (rounds + q)..4096 * (rounds + q) + 4096] == all[4096 * rounds..][4096 * q..4096 * q + 4096];
    assert (Joined(blocks) + rest)[4096 * q..4096 * q + 4096] == Joined(blocks)[4096 * q..4096 * q + 4096];
  }

  lemma FirstBlocks(audio: seq<Byte>, more: seq<Byte>, at: nat, j: nat, b: seq<Byte>)
    requires F.BlockAt(audio, at, j, b)
    ensures F.BlockAt(audio + more, at, j, b)
  {
    var from := at + j * 4096;
    assert (audio + more)[from..from + 4096] == audio[from..from + 4096];
  }

  lemma LaterBlocks(audio: seq<Byte>, more: seq<Byte>, rounds: nat, q: nat, channels: nat, j: nat, b: seq<Byte>)
    requires |audio| == rounds * channels * 4096 && F.BlockAt(more, q * channels * 4096, j, b)
    ensures F.BlockAt(audio + more, (rounds + q) * channels * 4096, j, b)
  {
    SumOfRows(rounds, q, channels);
    var from := q * channels * 4096 + j * 4096;
    assert (audio + more)[|audio| + from..|audio| + from + 4096] == more[from..from + 4096];
  }

  lemma SumOfRows(a: nat, b: nat, d: nat)
    ensures (a + b) * d * 4096 == a * d * 4096 + b * d * 4096
  {
    assert (a + b) * d == a * d + b * d;
  }

  /* The output of one call. */

  predicate AllWhole(blocks: seq<seq<seq<Byte>>>, rounds: nat) {
    forall j {:trigger blocks[j]} :: 0 <= j < |blocks| ==> |blocks[j]| == rounds && Whole(blocks[j])
  }

  lemma {:induction false} RoundAt(blocks: seq<seq<seq<Byte>>>, rounds: nat, r: nat, i: nat, j: nat)
    requires AllWhole(blocks, rounds) && r < rounds && j < i <= |blocks|
    ensures |F.RoundBytes(blocks, r, i)| == i * 4096 && F.BlockAt(F.RoundBytes(blocks, r, i), 0, j, blocks[j][r])
  {
    assert |blocks[i - 1]| == rounds && |blocks[i - 1][r]| == 4096;
    if i == 1 {
      assert F.RoundBytes(blocks, r, 0) == [];
    } else {
      RoundAt(blocks, rounds, r, i - 1, if j < i - 1 then j else 0);
      if j < i - 1 { FirstBlocks(F.RoundBytes(blocks, r, i - 1), blocks[i - 1][r], 0, j, blocks[j][r]); }
    }
  }

  lemma {:induction false} InterleavedAt(blocks: seq<seq<seq<Byte>>>, rounds: nat, n: nat, j: nat)
    requires AllWhole(blocks, rounds) && n <= rounds && j < |blocks|
    ensures |F.Interleaved(blocks, n)| == n * |blocks| * 4096
    ensures |blocks[j]| == rounds && F.LaidChannel(F.Interleaved(blocks, n), blocks[j][..n], |blocks|, n, j)
  {
    hide F.BlockAt, F.RoundBytes;
    assert |blocks[j]| == rounds;
    if n > 0 {
      InterleavedAt(blocks, rounds, n - 1, j);
      var before, round := F.Interleaved(blocks, n - 1), F.RoundBytes(blocks, n - 1, |blocks|);
      RoundAt(blocks, rounds, n - 1, |blocks|, j);
      SumOfRows(n - 1, 1, |blocks|);
      LaidOneMore(before, round, blocks[j], |blocks|, n, j);
    }
  }

  lemma LaidOneMore(before: seq<Byte>, round: seq<Byte>, blocks: seq<seq<Byte>>, channels: nat, n: nat, j: nat)
    requires 0 < n <= |blocks| && |before| == (n - 1) * channels * 4096
    requires F.LaidChannel(before, blocks[..n - 1], channels, n - 1, j) && F.BlockAt(round, 0, j, blocks[n - 1])
    ensures F.LaidChannel(before + round, blocks[..n], channels, n, j)
  {
    hide F.BlockAt;
    var now := blocks[..n];
    forall r {:trigger now[r]} | 0 <= r < n ensures F.BlockAt(before + round, r * channels * 4096, j, now[r]) {
      if r < n - 1 {
        assert blocks[..n - 1][r] == now[r];
        FirstBlocks(before, round, r * channels * 4096, j, now[r]);
      } else {
        LaterBlocks(before, round, n - 1, 0, channels, j, now[r]);
      }
    }
  }

  lemma ChunkAt(s: seq<Byte>, channels: nat, j: nat, k: nat)
    requires j < channels && |s| % channels == 0 && k < |s| / channels
    ensures k * channels + j < |s| && F.Chunk(s, channels, j)[k] == F.BitReverse(s[k * channels + j])
  {
    hide F.BitReverse;
    F.InBuf(|s|, channels, k, j);
  }

  lemma RowsOf(a: nat, b: nat, channels: nat)
    requires channels > 0 && a % channels == 0 && b % channels == 0
    ensures (a + b) % channels == 0 && (a + b) / channels == a / channels + b / channels
    ensures a == a / channels * channels
  {
    var m, n := a / channels, b / channels;
    assert (m + n) * channels == m * channels + n * channels;
    DivUnique(a + b, channels, m + n, 0);
  }

  lemma ChunkConcatAt(a: seq<Byte>, b: seq<Byte>, channels: nat, j: nat, k: nat)
    requires j < channels && |a| % channels == 0 && |b| % channels == 0 && |a + b| % channels == 0
    requires |a + b| / channels == |a| / channels + |b| / channels && k < |a + b| / channels && |a| == |a| / channels * channels
    ensures F.Chunk(a + b, channels, j)[k] == (F.Chunk(a, channels, j) + F.Chunk(b, channels, j))[k]
  {
    hide F.BitReverse, F.Chunk;
    var m := |a| / channels;
    ChunkAt(a + b, channels, j, k);
    if k < m {
      ChunkAt(a, channels, j, k);
    } else {
      ChunkAt(b, channels, j, k - m);
      assert (k - m) * channels == k * channels - m * channels;
    }
  }

  lemma ChunkConcat(a: seq<Byte>, b: seq<Byte>, channels: nat, j: nat)
    requires j < channels && |a| % channels == 0 && |b| % channels == 0
    ensures |a + b| % channels == 0 && F.Chunk(a + b, channels, j) == F.Chunk(a, channels, j) + F.Chunk(b, channels, j)
  {
    hide F.Chunk;
    RowsOf(|a|, |b|, channels);
    forall k | 0 <= k < |a + b| / channels
      ensures F.Chunk(a + b, channels, j)[k] == (F.Chunk(a, channels, j) + F.Chunk(b, channels, j))[k]
    {
      ChunkConcatAt(a, b, channels, j, k);
    }
  }

  /* A run of calls. */

  lemma {:induction false} AllBytesEven(calls: seq<D.Emission>, channels: nat)
    requires S.FullFrames(calls, channels)
    ensures |AllBytes(calls)| % channels == 0
  {
    if calls == [] {
      DivUnique(0, channels, 0, 0);
    } else {
      var front, e := calls[..|calls| - 1], calls[|calls| - 1];
      AllBytesEven(front, channels);
      assert S.FullFrame(e, channels);
      RowsOf(|AllBytes(front)|, |e.bytes|, channels);
    }
  }

  /** What one frame's call puts out, channel by channel. */
  lemma CallIs(rows: seq<seq<Byte>>, e: D.Emission, channels: nat, j: nat) returns (blocks: seq<seq<Byte>>)
    requires S.Even(rows, channels) && S.FullFrame(e, channels) && j < channels
    ensures |blocks| == S.CallCounts(|rows[0]|, |e.bytes| / channels).0 && Whole(blocks)
    ensures Joined(blocks) + S.RowsAfter(rows, e.bytes, channels)[j] == rows[j] + F.Chunk(e.bytes, channels, j)
    ensures |S.Repacked(rows, e.bytes, channels)| == |blocks| * channels * 4096
    ensures F.LaidChannel(S.Repacked(rows, e.bytes, channels), blocks, channels, |blocks|, j)
  {
    hide F.Feed, F.Chunk, F.Interleaved, F.LaidChannel, Joined, S.CallCounts;
    var all := S.BlocksOf(rows, e.bytes, channels);
    var n := S.CallCounts(|rows[0]|, |e.bytes| / channels).0;
    blocks := all[j];
    S.EvenRows(rows, channels);
    BlocksWhole(rows, e, channels);
    InterleavedAt(all, n, n, j);
    assert blocks[..n] == blocks;
    S.FullRows(e, channels);
    F.ConservesExactly(rows[j], F.Chunk(e.bytes, channels, j));
  }

  lemma BlocksWhole(rows: seq<seq<Byte>>, e: D.Emission, channels: nat)
    requires S.Even(rows, channels) && S.FullFrame(e, channels)
    ensures AllWhole(S.BlocksOf(rows, e.bytes, channels), S.CallCounts(|rows[0]|, |e.bytes| / channels).0)
  {
    hide F.Feed, F.Chunk, S.CallCounts;
    var all := S.BlocksOf(rows, e.bytes, channels);
    S.EvenRows(rows, channels);
    S.SameRounds(rows, e.bytes, channels);
    forall j {:trigger all[j]} | 0 <= j < |all| ensures |all[j]| == S.CallCounts(|rows[0]|, |e.bytes| / channels).0 && Whole(all[j]) {
      assert S.BlocksOf(rows, e.bytes, channels)[j] == all[j];
      var chunk := F.Chunk(e.bytes, channels, j);
      if chunk != [] { S.FeedBlocks(rows[j], chunk, |chunk|); }
    }
  }

  lemma CallPlaced(audio: seq<Byte>, rows: seq<seq<Byte>>, e: D.Emission, stream: seq<Byte>, channels: nat, n: nat, j: nat)
    requires S.Even(rows, channels) && S.FullFrame(e, channels) && j < channels
    requires |audio| == n * channels * 4096 && Placed(audio, rows[j], stream, channels, n, j)
    ensures var m := n + S.CallCounts(|rows[0]|, |e.bytes| / channels).0;
            var more := S.Repacked(rows, e.bytes, channels);
            && |audio + more| == m * channels * 4096
            && Placed(audio + more, S.RowsAfter(rows, e.bytes, channels)[j], stream + F.Chunk(e.bytes, channels, j), channels, m, j)
  {
    hide Placed, F.Chunk, S.Repacked, S.RowsAfter, F.LaidChannel, Whole, S.CallCounts;
    var blocks := CallIs(rows, e, channels, j);
    SumOfRows(n, |blocks|, channels);
    PlacedMore(audio, rows[j], stream, channels, n, j, F.Chunk(e.bytes, channels, j),
               S.Repacked(rows, e.bytes, channels), blocks, S.RowsAfter(rows, e.bytes, channels)[j]);
  }

  /** Every channel's bytes of all the frames lie in the audio, block by block. */
  lemma {:induction false} AudioPlaced(calls: seq<D.Emission>, channels: nat, j: nat)
    requires S.FullFrames(calls, channels) && j < channels
    ensures |AllBytes(calls)| % channels == 0
    ensures var a := S.Audio(calls, channels); var n := Rounds(calls, channels);
            && |a.0| == n * channels * 4096
            && Placed(a.0, a.1[j], F.Chunk(AllBytes(calls), channels, j), channels, n, j)
  {
    hide Placed, F.Chunk, S.Repacked, S.RowsAfter, S.FullFrame, S.CallCounts;
    AllBytesEven(calls, channels);
    if calls == [] {
      NothingPlaced(channels, j);
    } else {
      var front, e := calls[..|calls| - 1], calls[|calls| - 1];
      AudioPlaced(front, channels, j);
      assert S.FullFrame(e, channels);
      var a, n := S.Audio(front, channels), Rounds(front, channels);
      Divisible(e, channels);
      ChunkConcat(AllBytes(front), e.bytes, channels, j);
      CallPlaced(a.0, a.1, e, F.Chunk(AllBytes(front), channels, j), channels, n, j);
    }
  }

  lemma Divisible(e: D.Emission, channels: nat)
    requires S.FullFrame(e, channels)
    ensures channels > 0 && |e.bytes| % channels == 0
  {
  }

  lemma NothingPlaced(channels: nat, j: nat)
    requires j < channels <= 6
    ensures S.Audio([], channels) == ([], F.Nothing<Byte>(channels)) && Rounds([], channels) == 0
    ensures AllBytes([]) == [] && 0 % channels == 0 && Placed([], [], F.Chunk([], channels, j), channels, 0, j)
  {
  }

  /** Where byte k of block r of channel j lies: in the audio block by block, in the frames byte by byte. */
  function InAudio(channels: nat, r: nat, j: nat, k: nat): nat { r * channels * 4096 + j * 4096 + k }

  function InFrames(channels: nat, r: nat, j: nat, k: nat): nat { (4096 * r + k) * channels + j }

  /** Every byte of the audio is the one of the frames at its place, its bits reversed. */
  lemma AudioByte(calls: seq<D.Emission>, channels: nat, r: nat, j: nat, k: nat)
    requires S.FullFrames(calls, channels) && j < channels && k < 4096
    requires InAudio(channels, r, j, k) < |S.Audio(calls, channels).0|
    ensures InFrames(channels, r, j, k) < |AllBytes(calls)|
    ensures S.Audio(calls, channels).0[InAudio(channels, r, j, k)] == F.BitReverse(AllBytes(calls)[InFrames(channels, r, j, k)])
  {
    hide F.Chunk, F.BitReverse, S.Audio, S.FullFrames, S.CallCounts, Placed, InAudio;
    AudioPlaced(calls, channels, j);
    var a, all, n := S.Audio(calls, channels), AllBytes(calls), Rounds(calls, channels);
    PlacedByte(a.0, a.1[j], F.Chunk(all, channels, j), channels, n, r, j, k);
    ChunkAt(all, channels, j, 4096 * r + k);
  }

  lemma PlacedByte(audio: seq<Byte>, held: seq<Byte>, stream: seq<Byte>, channels: nat, n: nat, r: nat, j: nat, k: nat)
    requires Placed(audio, held, stream, channels, n, j) && |audio| == n * channels * 4096
    requires InAudio(channels, r, j, k) < |audio| && j < channels && k < 4096
    ensures 4096 * r + k < |stream| && audio[InAudio(channels, r, j, k)] == stream[4096 * r + k]
  {
    if r >= n { RowsMonotone(n, r, channels); }
    assert Cut(stream, n)[r] == stream[4096 * r..4096 * r + 4096];
    assert F.BlockAt(audio, r * channels * 4096, j, stream[4096 * r..4096 * r + 4096]);
    InSlice(audio, r * channels * 4096 + j * 4096, stream, 4096 * r, k);
  }

  lemma RowsMonotone(a: nat, b: nat, d: nat)
    requires a <= b
    ensures a * d * 4096 <= b * d * 4096
  {
    MulMonotone(a, b, d);
  }

  lemma InSlice(s: seq<Byte>, p: nat, t: seq<Byte>, q: nat, k: nat)
    requires p + 4096 <= |s| && q + 4096 <= |t| && s[p..p + 4096] == t[q..q + 4096] && k < 4096
    ensures s[p + k] == t[q + k]
  {
    assert s[p..p + 4096][k] == t[q..q + 4096][k];
  }

  /** Whatever sizes were asked for, every audio byte that has been returned is that byte of the track's complete
      frames. */
  lemma DeliveredByte(f: S.File, r: nat, j: nat, k: nat)
    requires f.Valid() && j < f.channels && k < 4096
    requires |f.id3| + |f.header| + InAudio(f.channels, r, j, k) < |f.delivered|
    ensures var all := AllBytes(S.AllFrames(f.infos, f.disc));
            && InFrames(f.channels, r, j, k) < |all|
            && f.delivered[|f.id3| + |f.header| + InAudio(f.channels, r, j, k)] == F.BitReverse(all[InFrames(f.channels, r, j, k)])
  {
    hide S.Audio, S.AllFrames, F.BitReverse, InAudio, InFrames, S.File.Streams, S.File.At;
    f.DeliveredIsPrefix();
    AudioByte(S.AllFrames(f.infos, f.disc), f.channels, r, j, k);
  }
}
