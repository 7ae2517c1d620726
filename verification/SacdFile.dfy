/** Reading a track as a DSF stream (frame_read_callback and CSACDFile::Read in src/SACDFile.cpp). */
module SacdFile {
  import opened Bits
  import D = Demux
  import F = Dsf
  import R = RingBuffer
  import B = Blocks
  import L = SectorLayout

  const READ_AHEAD := 32768               // 32 * 1024
  const RING_SIZE := 10485760             // 1024 * 1024 * 10

  /* What the repacked audio is. */

  /** How many blocks go out and how much stays, from how much is held and comes. */
  function Counts(f: nat, n: nat, limit: nat): (r: (nat, nat))
    requires 0 < limit
    decreases n, f
  {
    if n == 0 then (0, f)
    else if f < F.BLOCK && f < limit then Counts(f + 1, n - 1, limit)
    else
      var (b, r) := Counts(0, n, limit);
      (b + 1, r)
  }

  lemma {:induction false} FeedCounts(held: seq<Byte>, more: seq<Byte>, limit: nat)
    requires |held| <= F.BLOCK && 0 < limit
    ensures var r := F.Feed(held, more, limit); (|r.0|, |r.1|) == Counts(|held|, |more|, limit)
    decreases |more|, |held|
  {
    if more != [] {
      if |held| < F.BLOCK && |held| < limit {
        FeedCounts(held + [more[0]], more[1..], limit);
      } else {
        FeedCounts([], more, limit);
      }
    }
  }

  lemma {:induction false} CountsConserve(f: nat, n: nat, limit: nat)
    requires f <= F.BLOCK <= limit
    ensures var (b, r) := Counts(f, n, limit); b * F.BLOCK + r == f + n && r <= F.BLOCK
    decreases n, f
  {
    if n > 0 {
      if f < F.BLOCK {
        CountsConserve(f + 1, n - 1, limit);
      } else {
        CountsConserve(0, n, limit);
      }
    }
  }

  /** What the channels hold: equally much, a block at most. */
  predicate Even(rows: seq<seq<Byte>>, channels: nat) {
    0 < channels && |rows| == channels && |rows[0]| <= F.BLOCK && F.Level(rows, channels, |rows[0]|)
  }

  lemma EvenRows(rows: seq<seq<Byte>>, channels: nat)
    requires Even(rows, channels)
    ensures forall i {:trigger rows[i]} :: 0 <= i < channels ==> |rows[i]| == |rows[0]| <= F.BLOCK
  {
  }

  /** The blocks of each channel, and how many. */
  function BlocksOf(rows: seq<seq<Byte>>, frame: seq<Byte>, channels: nat): (b: seq<seq<seq<Byte>>>)
    requires Even(rows, channels) && |frame| % channels == 0
    ensures |b| == channels
  {
    EvenRows(rows, channels);
    var r := F.FedAll(rows, frame, channels);
    seq(channels, i requires 0 <= i < channels => r[i].0)
  }

  /** What each channel still holds after the frame. */
  function RowsAfter(rows: seq<seq<Byte>>, frame: seq<Byte>, channels: nat): (a: seq<seq<Byte>>)
    requires Even(rows, channels) && |frame| % channels == 0
    ensures Even(a, channels)
  {
    EvenRows(rows, channels);
    CountsOfChannels(rows, frame, channels);
    var r := F.FedAll(rows, frame, channels);
    seq(channels, i requires 0 <= i < channels => r[i].1)
  }

  function CallCounts(f: nat, n: nat): (nat, nat) {
    if n == 0 then (0, f) else Counts(f, n, n)
  }

  lemma CountsOfChannels(rows: seq<seq<Byte>>, frame: seq<Byte>, channels: nat)
    requires Even(rows, channels) && |frame| % channels == 0
    requires forall i {:trigger rows[i]} :: 0 <= i < channels ==> |rows[i]| <= F.BLOCK
    ensures forall i {:trigger F.FedAll(rows, frame, channels)[i]} :: 0 <= i < channels ==>
              var r := F.FedAll(rows, frame, channels)[i];
              (|r.0|, |r.1|) == CallCounts(|rows[0]|, |frame| / channels) && |r.1| <= F.BLOCK
  {
    forall i | 0 <= i < channels
      ensures var r := F.FedAll(rows, frame, channels)[i];
              (|r.0|, |r.1|) == CallCounts(|rows[0]|, |frame| / channels) && |r.1| <= F.BLOCK
    {
      assert |rows[i]| == |rows[0]|;
      var chunk := F.Chunk(frame, channels, i);
      if chunk != [] { FeedCounts(rows[i], chunk, |chunk|); }
    }
  }

  lemma SameRounds(rows: seq<seq<Byte>>, frame: seq<Byte>, channels: nat)
    requires Even(rows, channels) && |frame| % channels == 0
    ensures forall i {:trigger BlocksOf(rows, frame, channels)[i]} :: 0 <= i < channels ==>
              |BlocksOf(rows, frame, channels)[i]| == CallCounts(|rows[0]|, |frame| / channels).0
  {
    EvenRows(rows, channels);
    CountsOfChannels(rows, frame, channels);
    var r := F.FedAll(rows, frame, channels);
    forall i {:trigger BlocksOf(rows, frame, channels)[i]} | 0 <= i < channels
      ensures |BlocksOf(rows, frame, channels)[i]| == CallCounts(|rows[0]|, |frame| / channels).0
    {
      assert BlocksOf(rows, frame, channels)[i] == r[i].0;
    }
  }

  /** The bytes that one frame puts out. */
  function Repacked(rows: seq<seq<Byte>>, frame: seq<Byte>, channels: nat): seq<Byte>
    requires Even(rows, channels) && |frame| % channels == 0
  {
    SameRounds(rows, frame, channels);
    F.Interleaved(BlocksOf(rows, frame, channels), CallCounts(|rows[0]|, |frame| / channels).0)
  }

  /** A frame that fills at least a block per channel. */
  predicate FullFrame(e: D.Emission, channels: nat) {
    0 < channels <= 6 && |e.bytes| % channels == 0 && channels * F.BLOCK <= |e.bytes| < D.MAX_DST_SIZE
  }

  predicate FullFrames(calls: seq<D.Emission>, channels: nat) {
    0 < channels <= 6 && forall i {:trigger calls[i]} :: 0 <= i < |calls| ==> FullFrame(calls[i], channels)
  }

  /** The repacked audio of a sequence of frames, and what the channels hold in the end. */
  function Audio(calls: seq<D.Emission>, channels: nat): (r: (seq<Byte>, seq<seq<Byte>>))
    requires FullFrames(calls, channels)
    ensures Even(r.1, channels)
  {
    if calls == [] then ([], F.Nothing<Byte>(channels))
    else
      var (before, rows) := Audio(calls[..|calls| - 1], channels);
      var frame := calls[|calls| - 1].bytes;
      assert FullFrame(calls[|calls| - 1], channels);
      (before + Repacked(rows, frame, channels), RowsAfter(rows, frame, channels))
  }

  lemma {:induction false} RoundSize(blocks: seq<seq<seq<Byte>>>, r: nat, i: nat)
    requires i <= |blocks| && forall j {:trigger blocks[j]} :: 0 <= j < i ==> r < |blocks[j]|
    requires forall j, k :: 0 <= j < i && 0 <= k < |blocks[j]| ==> |blocks[j][k]| == F.BLOCK
    ensures |F.RoundBytes(blocks, r, i)| == i * F.BLOCK
  {
    if i > 0 { RoundSize(blocks, r, i - 1); }
  }

  lemma {:induction false} InterleavedSize(blocks: seq<seq<seq<Byte>>>, rounds: nat)
    requires forall j {:trigger blocks[j]} :: 0 <= j < |blocks| ==> rounds <= |blocks[j]|
    requires forall j, k :: 0 <= j < |blocks| && 0 <= k < |blocks[j]| ==> |blocks[j][k]| == F.BLOCK
    ensures |F.Interleaved(blocks, rounds)| == rounds * |blocks| * F.BLOCK
  {
    if rounds > 0 {
      InterleavedSize(blocks, rounds - 1);
      RoundSize(blocks, rounds - 1, |blocks|);
      F.OneRoundMore(rounds - 1, |blocks|);
    }
  }

  lemma {:induction false} FeedBlocks(held: seq<Byte>, more: seq<Byte>, limit: nat)
    requires |held| <= F.BLOCK && 0 < limit
    ensures forall k {:trigger F.Feed(held, more, limit).0[k]} ::
              0 <= k < |F.Feed(held, more, limit).0| ==> |F.Feed(held, more, limit).0[k]| == F.BLOCK
    decreases |more|, |held|
  {
    if more != [] {
      if |held| < F.BLOCK && |held| < limit {
        FeedBlocks(held + [more[0]], more[1..], limit);
      } else {
        FeedBlocks([], more, limit);
        var r := F.Feed([], more, limit);
        forall k | 0 <= k < |F.Feed(held, more, limit).0| ensures |F.Feed(held, more, limit).0[k]| == F.BLOCK {
          if k > 0 { assert F.Feed(held, more, limit).0[k] == r.0[k - 1]; }
        }
      }
    }
  }

  lemma RepackedSize(rows: seq<seq<Byte>>, frame: seq<Byte>, channels: nat)
    requires Even(rows, channels) && |frame| % channels == 0
    ensures |Repacked(rows, frame, channels)| == CallCounts(|rows[0]|, |frame| / channels).0 * channels * F.BLOCK
    ensures |RowsAfter(rows, frame, channels)[0]| == CallCounts(|rows[0]|, |frame| / channels).1
  {
    EvenRows(rows, channels);
    CountsOfChannels(rows, frame, channels);
    var r := F.FedAll(rows, frame, channels);
    assert (|r[0].0|, |r[0].1|) == CallCounts(|rows[0]|, |frame| / channels);
    SameRounds(rows, frame, channels);
    var blocks := BlocksOf(rows, frame, channels);
    forall j, k | 0 <= j < |blocks| && 0 <= k < |blocks[j]| ensures |blocks[j][k]| == F.BLOCK {
      var chunk := F.Chunk(frame, channels, j);
      assert blocks[j] == r[j].0 == F.CallFeed(rows[j], chunk).0;
      if chunk != [] { FeedBlocks(rows[j], chunk, |chunk|); }
    }
    forall j {:trigger blocks[j]} | 0 <= j < channels ensures CallCounts(|rows[0]|, |frame| / channels).0 <= |blocks[j]| {
      assert BlocksOf(rows, frame, channels)[j] == blocks[j];
    }
    InterleavedSize(blocks, CallCounts(|rows[0]|, |frame| / channels).0);
  }

  lemma FullRows(e: D.Emission, channels: nat)
    requires FullFrame(e, channels)
    ensures |e.bytes| / channels >= F.BLOCK && |e.bytes| == |e.bytes| / channels * channels
  {
    var n := |e.bytes| / channels;
    assert |e.bytes| == n * channels;
    if n < F.BLOCK { MulMonotone(n, F.BLOCK - 1, channels); }
  }

  /** Repacking full frames neither loses nor adds a byte. */
  lemma FrameConserved(rows: seq<seq<Byte>>, e: D.Emission, channels: nat)
    requires Even(rows, channels) && FullFrame(e, channels)
    ensures |Repacked(rows, e.bytes, channels)| + channels * |RowsAfter(rows, e.bytes, channels)[0]|
            == channels * |rows[0]| + |e.bytes|
  {
    var n := |e.bytes| / channels;
    FullRows(e, channels);
    RepackedSize(rows, e.bytes, channels);
    CountsConserve(|rows[0]|, n, n);
    var (b, r) := Counts(|rows[0]|, n, n);
    Distribute(channels, b, r, |rows[0]|, n);
  }

  lemma Distribute(channels: nat, b: nat, r: nat, f: nat, n: nat)
    requires b * F.BLOCK + r == f + n
    ensures b * channels * F.BLOCK + channels * r == channels * f + n * channels
  {
    assert channels * (b * F.BLOCK + r) == channels * (f + n);
    assert channels * (b * F.BLOCK) == b * channels * F.BLOCK;
  }

  lemma {:induction false} AudioSize(calls: seq<D.Emission>, channels: nat)
    requires FullFrames(calls, channels)
    ensures |Audio(calls, channels).0| + channels * |Audio(calls, channels).1[0]| == D.Size(calls)
  {
    hide Repacked, RowsAfter, FullFrame;
    if calls != [] {
      var front, e := calls[..|calls| - 1], calls[|calls| - 1];
      AudioSize(front, channels);
      assert FullFrame(e, channels);
      FrameConserved(Audio(front, channels).1, e, channels);
    }
  }

  lemma FullPrefix(a: seq<D.Emission>, b: seq<D.Emission>, channels: nat)
    requires FullFrames(b, channels) && a <= b
    ensures FullFrames(a, channels)
  {
    forall i | 0 <= i < |a| ensures FullFrame(a[i], channels) {
      assert FullFrame(b[i], channels);
    }
  }

  lemma {:induction false} AudioPrefix(a: seq<D.Emission>, b: seq<D.Emission>, channels: nat)
    requires FullFrames(b, channels) && a <= b
    ensures FullFrames(a, channels) && Audio(a, channels).0 <= Audio(b, channels).0
  {
    FullPrefix(a, b, channels);
    if |a| < |b| {
      AudioPrefix(a, b[..|b| - 1], channels);
    } else {
      assert a == b;
    }
  }

  /* What has been called back after some of the sectors. */

  /** The packet stream of the first k sectors, ended if they are all. */
  ghost function EventsTo(infos: seq<Byte>, disc: seq<seq<Byte>>, k: nat): seq<D.Event>
    requires |infos| == 7 && D.AllWellFormed(disc) && k <= |disc|
  {
    D.StreamStepPrefix(disc, k);
    D.Stream(infos, disc[..k]).1 + if 0 < k == |disc| then [D.End] else []
  }

  /** All complete frames of the track. */
  ghost function AllFrames(infos: seq<Byte>, disc: seq<seq<Byte>>): seq<D.Emission>
    requires |infos| == 7 && D.AllWellFormed(disc)
  {
    D.Frames(D.Groups(D.Stream(infos, disc).1))
  }

  lemma FramesSoFar(infos: seq<Byte>, disc: seq<seq<Byte>>, k: nat)
    requires |infos| == 7 && D.AllWellFormed(disc) && k <= |disc|
    ensures D.Emitted(EventsTo(infos, disc, k)) <= AllFrames(infos, disc)
    ensures k == |disc| ==> D.Emitted(EventsTo(infos, disc, k)) == AllFrames(infos, disc)
  {
    hide D.Stream, D.Emitted, D.Frames, D.Groups, D.WellFormed;
    D.StreamStepPrefix(disc, k);
    D.StreamStepSuffix(disc, k);
    WholeDisc(disc, k);
    D.StreamConcat(infos, disc[..k], disc[k..]);
    var s := D.Stream(infos, disc[..k]);
    var rest := D.Stream(s.0, disc[k..]).1;
    D.AtTheEnd(s.1 + rest);
    if 0 == k || k < |disc| {
      D.EmittedGrows(s.1, rest + [D.End]);
      EndLast(s.1, rest);
    }
    if disc == [] { NoFrames(infos, disc); }
  }

  lemma NoFrames(infos: seq<Byte>, disc: seq<seq<Byte>>)
    requires |infos| == 7 && disc == []
    ensures D.Emitted(EventsTo(infos, disc, 0)) == AllFrames(infos, disc) == []
  {
    assert disc[..0] == [];
    D.StreamStart(infos);
    assert D.Stream(infos, disc).1 + [] == [];
    D.NothingEmitted();
    var none: seq<D.Event> := [];
    assert D.Groups(none) == [D.Idle];
    assert [D.Idle][..0] == [];
  }

  lemma WholeDisc(disc: seq<seq<Byte>>, k: nat)
    requires k <= |disc|
    ensures disc[..k] + disc[k..] == disc && (k == |disc| ==> disc[..k] == disc)
  {
  }

  lemma EndLast(a: seq<D.Event>, b: seq<D.Event>)
    ensures a + (b + [D.End]) == a + b + [D.End] && a + [] == a
  {
  }

  /** The events that n more sectors bring. */
  lemma MoreSectors(infos: seq<Byte>, disc: seq<seq<Byte>>, k: nat, n: nat)
    requires |infos| == 7 && D.AllWellFormed(disc) && k < k + n <= |disc|
    ensures D.AllWellFormed(disc[..k]) && D.AllWellFormed(disc[..k + n]) && D.AllWellFormed(disc[k..k + n])
    ensures var s := D.Stream(infos, disc[..k]);
            var more := D.Stream(s.0, disc[k..k + n]);
            && D.Stream(infos, disc[..k + n]).0 == more.0
            && EventsTo(infos, disc, k + n) == EventsTo(infos, disc, k) + more.1 + (if k + n == |disc| then [D.End] else [])
            && D.DataSize(more.1) <= D.SACD_LSN_SIZE * n
  {
    hide D.WellFormed, D.Infos, D.SectorEvents;
    assert disc[..k] + disc[k..k + n] == disc[..k + n];
    D.StreamStepPrefix(disc, k);
    D.StreamStepSuffix(disc, k);
    D.StreamStepPrefix(disc[k..], n);
    assert disc[k..][..n] == disc[k..k + n];
    D.StreamConcat(infos, disc[..k], disc[k..k + n]);
    D.StreamSize(D.Stream(infos, disc[..k]).0, disc[k..k + n]);
  }

  /** How much audio n more sectors can bring: what was open, what came, and what the channels held. */
  lemma AudioGrowth(infos: seq<Byte>, disc: seq<seq<Byte>>, k: nat, n: nat, channels: nat)
    requires |infos| == 7 && D.AllWellFormed(disc) && k < k + n <= |disc| && FullFrames(AllFrames(infos, disc), channels)
    ensures var before, after := D.Emitted(EventsTo(infos, disc, k)), D.Emitted(EventsTo(infos, disc, k + n));
            && before <= after && FullFrames(before, channels) && FullFrames(after, channels)
            && |Audio(after, channels).0| <= |Audio(before, channels).0| + D.MAX_DST_SIZE + D.SACD_LSN_SIZE * n + channels * F.BLOCK
  {
    hide D.Stream, D.Emitted, D.Frames, D.Groups, FullFrame, EventsTo, AllFrames, Audio;
    FramesSoFar(infos, disc, k);
    FramesSoFar(infos, disc, k + n);
    var before, after := D.Emitted(EventsTo(infos, disc, k)), D.Emitted(EventsTo(infos, disc, k + n));
    FullPrefix(before, AllFrames(infos, disc), channels);
    FullPrefix(after, AllFrames(infos, disc), channels);
    CallsGrowth(infos, disc, k, n);
    AudioSize(before, channels);
    AudioSize(after, channels);
    MulMonotone(|Audio(before, channels).1[0]|, F.BLOCK, channels);
  }

  lemma CallsGrowth(infos: seq<Byte>, disc: seq<seq<Byte>>, k: nat, n: nat)
    requires |infos| == 7 && D.AllWellFormed(disc) && k < k + n <= |disc|
    ensures var before, after := D.Emitted(EventsTo(infos, disc, k)), D.Emitted(EventsTo(infos, disc, k + n));
            before <= after && D.Size(after) <= D.Size(before) + D.MAX_DST_SIZE + D.SACD_LSN_SIZE * n
  {
    hide D.Stream, D.Emitted, D.Frames, D.Groups, D.Size, D.OpenSize, EventsTo;
    MoreSectors(infos, disc, k, n);
    var data := D.Stream(D.Stream(infos, disc[..k]).0, disc[k..k + n]).1;
    var end := if k + n == |disc| then [D.End] else [];
    var events := EventsTo(infos, disc, k);
    assert EventsTo(infos, disc, k + n) == events + (data + end) by { assert events + data + end == events + (data + end); }
    EndHasNoData(data, k + n == |disc|);
    D.EmittedGrows(events, data + end);
    D.EmittedBound(events, data + end);
    OpenIsSmall(events);
  }

  lemma EndHasNoData(data: seq<D.Event>, ends: bool)
    ensures D.DataSize(data + if ends then [D.End] else []) == D.DataSize(data)
  {
    if ends {
      assert (data + [D.End])[..|data|] == data;
    } else {
      assert data + [] == data;
    }
  }

  lemma OpenIsSmall(events: seq<D.Event>)
    ensures D.OpenSize(events) <= D.MAX_DST_SIZE
  {
  }

  lemma NothingRead(infos: seq<Byte>, disc: seq<seq<Byte>>, channels: nat)
    requires |infos| == 7 && D.AllWellFormed(disc) && 0 < channels <= 6
    ensures EventsTo(infos, disc, 0) == [] && D.Emitted([]) == []
    ensures D.AllWellFormed(disc[..0]) && D.Stream(infos, disc[..0]).0 == infos
    ensures FullFrames([], channels) && Audio([], channels) == ([], F.Nothing<Byte>(channels))
  {
    assert disc[..0] == [];
    D.StreamStart(infos);
    assert D.Stream(infos, disc[..0]).1 + [] == [];
    D.NothingEmitted();
    assert Audio([], channels) == ([], F.Nothing<Byte>(channels));
  }

  /* What a call of Read comes to, from the answers of the device. */

  /** What does not change while a track is read: its sectors, how many of them each call of the device has
      ready, and the bytes of tag and DSF header. */
  datatype Track = Track(disc: seq<seq<Byte>>, start: nat, ranges: B.Ranges, device: nat -> nat, infos: seq<Byte>, head: nat,
                         channels: nat)
  {
    function End(): nat { start + |disc| }
  }

  ghost predicate GoodTrack(t: Track) {
    && 0 < t.channels <= 6 && |t.infos| == 7 && D.AllWellFormed(t.disc)
    && FullFrames(AllFrames(t.infos, t.disc), t.channels)
  }

  /** The blocks of audio of the frames that are complete after k sectors. */
  ghost function AudioTo(t: Track, k: nat): seq<Byte>
    requires GoodTrack(t) && k <= |t.disc|
  {
    FramesSoFar(t.infos, t.disc, k);
    FullPrefix(D.Emitted(EventsTo(t.infos, t.disc, k)), AllFrames(t.infos, t.disc), t.channels);
    Audio(D.Emitted(EventsTo(t.infos, t.disc, k)), t.channels).0
  }

  /** What waits for a reader at position p when the sectors before lsn have been read. */
  ghost function Waiting(t: Track, p: nat, lsn: nat): int
    requires GoodTrack(t) && t.start <= lsn <= t.End()
  {
    t.head + |AudioTo(t, lsn - t.start)| - p
  }

  /** How many sectors come at lsn when the device is asked for the k-th time. */
  function Sectors(t: Track, lsn: nat, k: nat): (n: nat)
    requires t.start <= lsn < t.End()
    ensures lsn + n <= t.End() && (n == 0 <==> t.device(k) == 0)
  {
    Min(t.device(k), B.Choose(t.ranges, lsn, t.End()).0)
  }

  /** The device is asked until 32 KiB wait, the sectors end, or it has nothing: where that leaves the
      sectors, how often it was asked in all, and whether all went well. */
  ghost function Fill(t: Track, p: nat, lsn: nat, k: nat): (nat, nat, bool)
    requires GoodTrack(t) && t.start <= lsn <= t.End()
    decreases t.End() - lsn
  {
    if Waiting(t, p, lsn) >= READ_AHEAD || lsn == t.End() then (lsn, k, true)
    else if Sectors(t, lsn, k) == 0 then (lsn, k + 1, false)
    else Fill(t, p, lsn + Sectors(t, lsn, k), k + 1)
  }

  lemma FillStep(t: Track, p: nat, lsn: nat, k: nat)
    requires GoodTrack(t) && t.start <= lsn <= t.End()
    ensures Waiting(t, p, lsn) >= READ_AHEAD || lsn == t.End() ==> Fill(t, p, lsn, k) == (lsn, k, true)
    ensures Waiting(t, p, lsn) < READ_AHEAD && lsn < t.End() ==>
              var n := Sectors(t, lsn, k);
              Fill(t, p, lsn, k) == if n == 0 then (lsn, k + 1, false) else Fill(t, p, lsn + n, k + 1)
  {
    hide GoodTrack, Waiting, Sectors;
  }

  /** It fails exactly if one of the answers is empty, which is then the last; it asks exactly if less than
      32 KiB wait and there are sectors; and it stops well only with 32 KiB or at the end. */
  lemma {:induction false} FillExactly(t: Track, p: nat, lsn: nat, k: nat)
    requires GoodTrack(t) && t.start <= lsn <= t.End()
    ensures var (lsn', k', ok) := Fill(t, p, lsn, k);
            && lsn <= lsn' <= t.End() && k <= k'
            && (k' == k <==> Waiting(t, p, lsn) >= 32768 || lsn == t.End())
            && (!ok <==> exists i {:trigger t.device(i)} :: k <= i < k' && t.device(i) == 0)
            && (!ok ==> Waiting(t, p, lsn') < 32768 && lsn' < t.End() && t.device(k' - 1) == 0
                        && forall i {:trigger t.device(i)} :: k <= i < k' - 1 ==> t.device(i) > 0)
            && (ok ==> Waiting(t, p, lsn') >= 32768 || lsn' == t.End())
    decreases t.End() - lsn
  {
    hide AudioTo, Waiting, GoodTrack, Sectors;
    if !(Waiting(t, p, lsn) >= READ_AHEAD || lsn == t.End()) {
      if Sectors(t, lsn, k) > 0 { FillExactly(t, p, lsn + Sectors(t, lsn, k), k + 1); }
    }
  }

  /* The file. */

  class File {
    const disc: seq<seq<Byte>>          // the track's sectors, decrypted
    const startLsn: nat
    const ranges: B.Ranges
    const id3: seq<Byte>
    const header: seq<Byte>
    const channels: nat
    const handle: D.Handle
    const writer: F.Writer
    const ring: R.Ring
    const device: nat -> nat            // how many sectors each call of the device has ready
    ghost const infos: seq<Byte>
    var currentLsn: nat
    var asked: nat                      // calls of the device so far
    var pos: nat
    ghost var delivered: seq<Byte>      // everything Read has returned so far

    ghost function Source(): Track { Track(disc, startLsn, ranges, device, infos, |id3| + |header|, channels) }

    /** The parts are apart from each other, and the ring has its size. */
    ghost predicate Shape()
      reads ring
    {
      && 0 < channels <= 6 && D.AllWellFormed(disc) && |infos| == 7
      && handle.Shape() && writer.Shape() && writer.channels == channels
      && writer.data != handle.data && writer.data != handle.info
      && ring.m_buffer != null && ring.m_size == RING_SIZE
      && ring.m_buffer != writer.data && ring.m_buffer != handle.data && ring.m_buffer != handle.info
      && FullFrames(AllFrames(infos, disc), channels)
    }

    /** How far the sectors have been read. */
    ghost predicate At(k: nat)
      requires Shape()
      reads this, ring, handle, handle.packet, handle.info, handle.data
    {
      && k <= |disc| && currentLsn == startLsn + k && handle.Valid()
      && handle.events == EventsTo(infos, disc, k) && handle.calls == D.Emitted(handle.events)
      && D.AllWellFormed(disc[..k]) && handle.info[..] == D.Stream(infos, disc[..k]).0
    }

    /** What was returned and what waits in the ring is the stream as far as these frames reach. */
    ghost predicate Streams(calls: seq<D.Emission>)
      requires Shape()
      reads this, ring, ring.m_buffer, writer.buffer, writer.fill
    {
      && ring.Valid() && FullFrames(calls, channels) && |delivered| == pos
      && var audio := Audio(calls, channels);
      && writer.Holds(audio.1)
      && (if pos < |id3| + |header| then delivered == (id3 + header)[..pos] && audio.0 == ring.Contents() == []
          else delivered + ring.Contents() == id3 + header + audio.0)
      && (pos > |id3| + |header| ==> |audio.0| >= READ_AHEAD)
    }

    ghost predicate Valid()
      reads this, handle, handle.packet, handle.info, handle.data, ring, ring.m_buffer, writer.buffer, writer.fill
    {
      && Shape() && Streams(handle.calls) && startLsn <= currentLsn && At(currentLsn - startLsn)
    }

    /** CSACDFile::Open, for a track of these sectors whose tag and DSF header are rendered already. */
    constructor (sectors: seq<seq<Byte>>, lsn: nat, r: B.Ranges, tag: seq<Byte>, dsfHeader: seq<Byte>, n: nat, answers: nat -> nat)
      requires D.AllWellFormed(sectors) && 0 < n <= 6
      requires FullFrames(AllFrames(D.NoInfos(), sectors), n)
      ensures Valid() && delivered == [] && disc == sectors && id3 == tag && header == dsfHeader && channels == n
      ensures infos == D.NoInfos() && startLsn == lsn && currentLsn == lsn && ranges == r && device == answers && pos == 0 && asked == 0
    {
      disc, startLsn, ranges, id3, header, channels, device := sectors, lsn, r, tag, dsfHeader, n, answers;
      handle := new D.Handle();
      writer := new F.Writer(n);
      var b := new R.Ring();
      b.Create(RING_SIZE);
      ring := b;
      currentLsn, pos, delivered, asked := lsn, 0, [], 0;
      infos := D.NoInfos();
      new;
      hide D.WellFormed, AllFrames, D.Handle.Reading, F.Writer.Row, R.Around, FullFrame, Streams, At;
      NothingYet();
    }

    lemma NothingYet()
      requires Shape() && handle.Valid() && handle.calls == [] && handle.events == [] && handle.info[..] == infos
      requires ring.Valid() && ring.Contents() == [] && writer.Holds(F.Nothing(channels))
      requires pos == 0 && delivered == [] && currentLsn == startLsn
      ensures Streams(handle.calls) && At(0)
    {
      hide D.Stream, D.Emitted, D.Frames, D.Groups, D.WellFormed, EventsTo, AllFrames, D.Handle.Reading, F.Writer.Row, R.Around, Audio, FullFrame;
      NothingRead(infos, disc, channels);
    }

    /** frame_read_callback: the frame is repacked into the frame buffer and from there put into the ring. */
    method FrameReadCallback(ghost calls: seq<D.Emission>, e: D.Emission)
      requires Shape() && ring.Valid() && Streams(calls) && FullFrames(calls, channels) && FullFrame(e, channels) && pos >= |id3| + |header|
      requires FullFrames(calls + [e], channels)
      requires |ring.Contents()| + |Audio(calls + [e], channels).0| - |Audio(calls, channels).0| <= RING_SIZE
      modifies writer, writer.buffer, writer.fill, writer.data, ring, ring.m_buffer
      ensures Shape() && ring.Valid() && Streams(calls + [e]) && ring.m_buffer == old(ring.m_buffer)
      ensures |ring.Contents()| == old(|ring.Contents()|) + |Audio(calls + [e], channels).0| - |Audio(calls, channels).0|
    {
      hide F.Laid, F.CallFeed, F.Interleaved, Repacked, RowsAfter, Audio, F.Writer.Row, R.Around, R.Moved, AllFrames, D.WellFormed, F.Chunk;
      ghost var before := ring.Contents();
      ghost var audio := Audio(calls, channels);
      AudioMore(calls, e, channels);
      EvenRows(audio.1, channels);
      var actual;
      ghost var held, f, blocks, rounds;
      actual, held, f, blocks, rounds := writer.WriteFrame(e.bytes, audio.1, |audio.1[0]|);
      WrittenIsRepacked(audio.1, e.bytes, channels, held, blocks, rounds, writer.data[..]);
      var accepted := ring.WriteData(writer.data[..actual]);
      ghost var out := Repacked(audio.1, e.bytes, channels);
      AppendBoth(delivered, before, id3 + header, audio.0, out);
    }

    /** The frames of one call of scarletbook_process_frames, each through the callback. */
    method Repack(ghost before: seq<D.Emission>, from: nat)
      requires Shape() && ring.Valid() && Streams(before) && pos >= |id3| + |header|
      requires from == |before| && before <= handle.calls && FullFrames(handle.calls, channels) && FullFrames(before, channels)
      requires |ring.Contents()| + |Audio(handle.calls, channels).0| - |Audio(before, channels).0| <= RING_SIZE
      modifies writer, writer.buffer, writer.fill, writer.data, ring, ring.m_buffer
      ensures Shape() && Streams(handle.calls) && ring.m_buffer == old(ring.m_buffer)
    {
      hide Streams, Audio, FullFrame, Shape, R.Around, R.Moved;
      ghost var calls := handle.calls;
      assert before == calls[..from];
      for i := from to |handle.calls|
        invariant Shape() && ring.Valid() && Streams(calls[..i]) && FullFrames(calls[..i], channels)
        invariant ring.m_buffer == old(ring.m_buffer) && handle.calls == calls
        invariant |ring.Contents()| == old(|ring.Contents()|) + |Audio(calls[..i], channels).0| - |Audio(before, channels).0|
      {
        assert calls[..i] + [calls[i]] == calls[..i + 1];
        assert FullFrame(calls[i], channels);
        FullPrefix(calls[..i + 1], calls, channels);
        AudioPrefix(calls[..i + 1], calls, channels);
        FrameReadCallback(calls[..i], handle.calls[i]);
      }
      assert calls[..|calls|] == calls;
    }

    /** Read and process one block of sectors (lines 348-420); false if nothing could be read. */
    method ReadBlock() returns (ok: bool)
      requires Valid() && currentLsn < startLsn + |disc| && pos >= |id3| + |header| && |ring.Contents()| < READ_AHEAD
      modifies this`currentLsn, this`asked, handle, handle.packet, handle.info, handle.data
      modifies writer, writer.buffer, writer.fill, writer.data, ring, ring.m_buffer
      ensures Valid() && pos == old(pos) && delivered == old(delivered) && ring.m_buffer == old(ring.m_buffer)
      ensures asked == old(asked) + 1 && currentLsn == old(currentLsn) + Sectors(Source(), old(currentLsn), old(asked))
      ensures ok <==> Sectors(Source(), old(currentLsn), old(asked)) > 0
    {
      hide D.Stream, D.Emitted, D.Frames, D.Groups, EventsTo, AllFrames, Audio, FullFrame, F.Writer.Row, R.Around, R.Moved, D.Handle.Reading, D.WellFormed;
      var (blockSize, encrypted) := B.Choose(ranges, currentLsn, startLsn + |disc|);
      var n := Min(device(asked), blockSize);
      asked := asked + 1;
      if n == 0 {
        return false;
      }
      ghost var k := currentLsn - startLsn;
      var calls := |handle.calls|;
      ghost var before := handle.calls;
      AudioGrowth(infos, disc, k, n, channels);
      MoreSectors(infos, disc, k, n);
      handle.ProcessFrames(disc[currentLsn - startLsn..currentLsn - startLsn + n], currentLsn + n == startLsn + |disc|);
      currentLsn := currentLsn + n;
      Repack(before, calls);
      return true;
    }

    lemma InTrack()
      requires Valid()
      ensures GoodTrack(Source()) && Source().start <= currentLsn <= Source().End() && |delivered| == pos
    {
    }

    /** Behind tag and header just what the ring holds waits. */
    lemma WaitingIsRing()
      requires Valid() && pos >= |id3| + |header|
      ensures GoodTrack(Source()) && Source().start <= currentLsn <= Source().End()
      ensures ring.Valid() && Waiting(Source(), pos, currentLsn) == |ring.Contents()| == ring.m_fillCount
    {
      hide D.Stream, D.Emitted, D.Frames, D.Groups, EventsTo, AllFrames, Audio, FullFrame, F.Writer.Row, R.Around, D.Handle.Reading, D.WellFormed;
      InTrack();
      assert D.Emitted(EventsTo(infos, disc, currentLsn - startLsn)) == handle.calls;
    }

    /** The loop of Read (lines 348-424). */
    method FillRing() returns (ok: bool)
      requires Valid() && pos >= |id3| + |header|
      requires GoodTrack(Source()) && Source().start <= currentLsn <= Source().End()
      modifies this`currentLsn, this`asked, handle, handle.packet, handle.info, handle.data
      modifies writer, writer.buffer, writer.fill, writer.data, ring, ring.m_buffer
      ensures Valid() && pos == old(pos) && delivered == old(delivered) && ring.m_buffer == old(ring.m_buffer)
      ensures (currentLsn, asked, ok) == Fill(Source(), pos, old(currentLsn), old(asked))
    {
      hide Valid, GoodTrack, Waiting, Sectors, Shape, Fill, R.Ring.Valid, R.Ring.Contents;
      WaitingIsRing();
      while ring.m_fillCount < READ_AHEAD && currentLsn < startLsn + |disc|
        invariant Valid() && pos == old(pos) && delivered == old(delivered) && ring.m_buffer == old(ring.m_buffer)
        invariant Source().start <= currentLsn <= Source().End()
        invariant ring.Valid() && ring.m_fillCount == Waiting(Source(), pos, currentLsn) && |ring.Contents()| == ring.m_fillCount
        invariant Fill(Source(), pos, currentLsn, asked) == Fill(Source(), pos, old(currentLsn), old(asked))
        decreases startLsn + |disc| - currentLsn
      {
        FillStep(Source(), pos, currentLsn, asked);
        ok := ReadBlock();
        if !ok {
          return;
        }
        WaitingIsRing();
      }
      FillStep(Source(), pos, currentLsn, asked);
      ok := true;
    }

    /** CSACDFile::Read: the tag, then the DSF header, then the repacked audio, each as far as it goes and was
        asked for. -1 is a failed read, and only that; 0 is the end. */
    method Read(buf: array<Byte>, size: nat) returns (ret: int)
      requires Valid() && size <= buf.Length
      requires buf != ring.m_buffer && buf != writer.data && buf != handle.data && buf != handle.info
      modifies this`currentLsn, this`asked, this`pos, this`delivered, handle, handle.packet, handle.info, handle.data
      modifies writer, writer.buffer, writer.fill, writer.data, ring, ring.m_buffer, buf
      ensures Valid() && ring.m_buffer == old(ring.m_buffer) && -1 <= ret <= size
      ensures delivered == if ret < 0 then old(delivered) else old(delivered) + buf[..ret]
      ensures forall i :: (if ret < 0 then 0 else ret) <= i < buf.Length ==> buf[i] == old(buf[i])
      ensures old(pos) < |id3| ==> ret == Min(size, |id3| - old(pos))
      ensures |id3| <= old(pos) < |id3| + |header| ==> ret == Min(size, |id3| + |header| - old(pos))
      ensures old(pos) < |id3| + |header| ==> currentLsn == old(currentLsn) && asked == old(asked)
      ensures old(pos) >= |id3| + |header| ==>
                && GoodTrack(Source()) && Source().start <= old(currentLsn) <= Source().End()
                && (currentLsn, asked, ret >= 0) == Fill(Source(), old(pos), old(currentLsn), old(asked))
                && Source().start <= currentLsn <= Source().End()
                && var waiting := Waiting(Source(), old(pos), currentLsn);
                   ret >= 0 ==> ret == if waiting < 32768 then 0 else Min(size, waiting)
      ensures ret == -1 <==> exists i {:trigger device(i)} :: old(asked) <= i < asked && device(i) == 0
      ensures ret == 0 && size > 0 ==> AtEnd()
    {
      hide Valid, AtEnd, Fill, GoodTrack, Waiting;
      if pos < |id3| {
        ret := CopyPrefix(buf, size, id3, pos);
        return;
      }
      if pos - |id3| < |header| {
        ret := CopyPrefix(buf, size, header, pos - |id3|);
        return;
      }
      WaitingIsRing();
      FillExactly(Source(), pos, currentLsn, asked);
      var ok := FillRing();
      if !ok {
        return -1;
      }
      WaitingIsRing();
      if ring.m_fillCount < READ_AHEAD {
        NothingReturned(buf);
        return 0;
      }
      ret := Drain(buf, size);
    }

    /** Nothing is left to read from the disc, and less than the read-ahead waits in the ring. */
    ghost predicate AtEnd()
      requires Valid()
      reads this, handle, handle.packet, handle.info, handle.data, ring, ring.m_buffer, writer.buffer, writer.fill
    {
      && currentLsn == startLsn + |disc| && |ring.Contents()| < READ_AHEAD
      && delivered + ring.Contents() == id3 + header + Audio(handle.calls, channels).0
    }

    method CopyPrefix(buf: array<Byte>, size: nat, ghost part: seq<Byte>, at: nat) returns (ret: int)
      requires Valid() && size <= buf.Length
      requires buf != ring.m_buffer && buf != writer.data && buf != handle.data && buf != handle.info
      requires (pos < |id3| && part == id3 && at == pos) || (|id3| <= pos < |id3| + |header| && part == header && at == pos - |id3|)
      modifies this`pos, this`delivered, buf
      ensures Valid() && ret == Min(size, |part| - at) && delivered == old(delivered) + buf[..ret]
      ensures forall i :: ret <= i < buf.Length ==> buf[i] == old(buf[i])
    {
      var source := if pos < |id3| then id3 else header;
      var tocopy := if size < |source| - at then size else |source| - at;
      hide D.Stream, D.Emitted, D.Frames, D.Groups, EventsTo, AllFrames, Audio, FullFrame, F.Writer.Row, R.Around, D.Handle.Reading, D.WellFormed;
      CopyBytes(buf, source, at, tocopy);
      PrefixPiece(id3, header, pos, tocopy);
      delivered := delivered + buf[..tocopy];
      pos := pos + tocopy;
      ret := tocopy;
    }

    lemma NothingReturned(buf: array<Byte>)
      requires Valid() && currentLsn >= startLsn + |disc| && |ring.Contents()| < READ_AHEAD && pos >= |id3| + |header|
      ensures buf[..0] == [] && delivered + buf[..0] == delivered && AtEnd()
    {
    }

    /** What waits in the ring (lines 425-428). */
    method Drain(buf: array<Byte>, size: nat) returns (ret: int)
      requires Valid() && size <= buf.Length && pos >= |id3| + |header| && ring.m_fillCount >= READ_AHEAD
      requires buf != ring.m_buffer && buf != writer.data && buf != handle.data && buf != handle.info
      modifies this`pos, this`delivered, ring, buf
      ensures Valid() && ring.m_buffer == old(ring.m_buffer) && ret == Min(size, old(ring.m_fillCount))
      ensures delivered == old(delivered) + buf[..ret]
      ensures forall i :: ret <= i < buf.Length ==> buf[i] == old(buf[i])
    {
      hide D.Stream, D.Emitted, D.Frames, D.Groups, EventsTo, AllFrames, Audio, FullFrame, F.Writer.Row, R.Around, R.Moved, D.Handle.Reading, D.WellFormed;
      var tocopy := if size < ring.m_fillCount then size else ring.m_fillCount;
      ghost var waiting := ring.Contents();
      var ok := ring.ReadData(buf, tocopy);
      assert delivered + (waiting[..tocopy] + waiting[tocopy..]) == delivered + waiting[..tocopy] + waiting[tocopy..];
      assert waiting[..tocopy] + waiting[tocopy..] == waiting;
      delivered := delivered + buf[..tocopy];
      pos := pos + tocopy;
      ret := tocopy;
    }

    /** A player that reads until nothing comes: whatever sizes it asks for, if no answer of the device is
        empty, it gets to the end, with tag, header and all audio up to what waits in the ring. */
    method ReadToEnd(buf: array<Byte>, sizes: nat -> nat) returns (total: nat)
      requires Valid() && (forall i: nat {:trigger sizes(i)} :: 0 < sizes(i) <= buf.Length)
      requires forall i: nat {:trigger device(i)} :: device(i) > 0
      requires buf != ring.m_buffer && buf != writer.data && buf != handle.data && buf != handle.info
      modifies this`currentLsn, this`asked, this`pos, this`delivered, handle, handle.packet, handle.info, handle.data
      modifies writer, writer.buffer, writer.fill, writer.data, ring, ring.m_buffer, buf
      ensures Valid() && AtEnd() && total == |delivered| - old(|delivered|)
      ensures delivered + ring.Contents() == WholeStream() && |ring.Contents()| < 32768
    {
      hide Valid, AtEnd, Fill, Waiting, GoodTrack, WholeStream;
      total := 0;
      var i, ret := 0, 1;
      InTrack();
      DeliveredIsPrefix();
      while ret != 0
        invariant Valid() && ring.m_buffer == old(ring.m_buffer) && total == |delivered| - old(|delivered|)
        invariant GoodTrack(Source()) && |delivered| <= |WholeStream()| && (ret == 0 ==> AtEnd())
        invariant 0 <= ret
        decreases |WholeStream()| - |delivered|, ret
      {
        ret := Read(buf, sizes(i));
        DeliveredIsPrefix();
        total := total + ret;
        i := i + 1;
      }
      EndIsWhole();
    }

    /** The tag, the DSF header and all blocks of the track. */
    ghost function WholeStream(): seq<Byte>
      requires GoodTrack(Source())
    {
      id3 + header + Audio(AllFrames(infos, disc), channels).0
    }

    /** Whatever sizes were asked for, what Read has returned is a beginning of the whole stream of blocks;
        at the end fewer than 32 KiB of it are missing. */
    lemma DeliveredIsPrefix()
      requires Valid()
      ensures delivered <= WholeStream()
      ensures AtEnd() ==> |WholeStream()| < |delivered| + 32768
    {
      hide D.Stream, D.Frames, D.Groups, FullFrame, F.Writer.Row, R.Around, D.Handle.Reading, D.WellFormed, Audio;
      var k := currentLsn - startLsn;
      FramesSoFar(infos, disc, k);
      AudioPrefix(handle.calls, AllFrames(infos, disc), channels);
      var audio, whole := Audio(handle.calls, channels).0, Audio(AllFrames(infos, disc), channels).0;
      PrefixOf(id3 + header, audio, whole);
      if pos < |id3| + |header| {
        assert delivered <= id3 + header;
      } else {
        assert delivered <= id3 + header + audio;
      }
    }

    lemma EndIsWhole()
      requires Valid() && AtEnd()
      ensures delivered + ring.Contents() == WholeStream() && |ring.Contents()| < 32768
    {
      hide D.Stream, D.Frames, D.Groups, FullFrame, F.Writer.Row, R.Around, D.Handle.Reading, D.WellFormed, Audio;
      FramesSoFar(infos, disc, |disc|);
    }

    /** What never comes out, to the byte: what waits in the ring and what the channels hold. Everything is
        delivered if and only if ring and channels are empty, and that is if and only if the track has no
        complete frame at all. */
    lemma LostAtTheEnd()
      requires Valid() && AtEnd()
      ensures var all := AllFrames(infos, disc);
              var held := Audio(all, channels).1[0];
              var everything := |id3| + |header| + D.Size(all);
              && handle.calls == all && writer.Holds(Audio(all, channels).1)
              && everything == |delivered| + |ring.Contents()| + channels * |held|
              && (|delivered| == everything <==> ring.Contents() == [] && held == [])
              && (|delivered| == everything <==> all == [])
              && (all != [] ==> channels <= everything - |delivered| < 32768 + channels * F.BLOCK)
    {
      hide D.Stream, D.Frames, D.Groups, FullFrame, F.Writer.Row, R.Around, D.Handle.Reading, D.WellFormed, Audio;
      var all := AllFrames(infos, disc);
      FramesSoFar(infos, disc, |disc|);
      AudioSize(all, channels);
      HeldAfter(all, channels);
      var held := Audio(all, channels).1[0];
      MulMonotone(|held|, F.BLOCK, channels);
      if all != [] { MulMonotone(1, |held|, channels); }
    }

    /** The end comes after tag and header. */
    lemma HeadersFirst()
      requires Valid() && AtEnd()
      ensures |delivered| >= |id3| + |header|
      ensures |delivered| == |id3| + |header| ==>
                delivered == id3 + header && |ring.Contents()| == |Audio(handle.calls, channels).0|
    {
      hide D.Stream, D.Emitted, D.Frames, D.Groups, FullFrame, F.Writer.Row, R.Around, D.Handle.Reading, D.WellFormed, Audio, AllFrames, EventsTo;
      if |delivered| == |id3| + |header| {
        Behind(delivered, ring.Contents(), id3 + header, Audio(handle.calls, channels).0);
      }
    }

    /** Some block has been delivered at the end if and only if the blocks of the track reach the read-ahead. */
    lemma BlocksDelivered()
      requires Valid()
      ensures |delivered| > |id3| + |header| ==> |Audio(AllFrames(infos, disc), channels).0| >= 32768
      ensures AtEnd() ==> (|delivered| > |id3| + |header| <==> |Audio(AllFrames(infos, disc), channels).0| >= 32768)
    {
      hide D.Stream, D.Frames, D.Groups, FullFrame, F.Writer.Row, R.Around, D.Handle.Reading, D.WellFormed, Audio;
      var k := currentLsn - startLsn;
      FramesSoFar(infos, disc, k);
      AudioPrefix(handle.calls, AllFrames(infos, disc), channels);
    }
  }

  lemma Behind(a: seq<Byte>, b: seq<Byte>, c: seq<Byte>, d: seq<Byte>)
    requires a + b == c + d && |a| <= |c| <= |a|
    ensures a == c && |b| == |d|
  {
    assert (a + b)[..|a|] == a && (c + d)[..|a|] == c;
  }

  lemma {:induction false} CountsHold(f: nat, n: nat, limit: nat)
    requires 0 < n && f <= F.BLOCK <= limit
    ensures Counts(f, n, limit).1 > 0
    decreases n, f
  {
    if f < F.BLOCK {
      if n > 1 { CountsHold(f + 1, n - 1, limit); }
    } else {
      CountsHold(0, n, limit);
    }
  }

  lemma HeldAfterFrame(rows: seq<seq<Byte>>, e: D.Emission, channels: nat)
    requires Even(rows, channels) && FullFrame(e, channels)
    ensures |RowsAfter(rows, e.bytes, channels)[0]| > 0
  {
    hide Counts, RowsAfter;
    var n := |e.bytes| / channels;
    FullRows(e, channels);
    RepackedSize(rows, e.bytes, channels);
    CountsHold(|rows[0]|, n, n);
  }

  /** A full block goes out only when the next byte comes: after a frame every channel holds something. */
  lemma HeldAfter(calls: seq<D.Emission>, channels: nat)
    requires FullFrames(calls, channels)
    ensures Audio(calls, channels).1[0] == [] <==> calls == []
  {
    hide Repacked, RowsAfter, FullFrame;
    if calls != [] {
      var front, e := calls[..|calls| - 1], calls[|calls| - 1];
      assert FullFrame(e, channels);
      HeldAfterFrame(Audio(front, channels).1, e, channels);
    }
  }

  /* A track that loses everything but its headers. */

  /** One uncoded frame of two channels, in eight packets. */
  function OneFrame(): D.Group { D.Group(false, 0, 2, Copies(Copies(0x69, 1176), 8)) }

  lemma {:induction false} JoinedCopies(chunk: seq<Byte>, n: nat)
    ensures |Joined(Copies(chunk, n))| == n * |chunk|
  {
    if n > 0 {
      JoinedCopies(chunk, n - 1);
      assert Copies(chunk, n)[..n - 1] == Copies(chunk, n - 1);
    }
  }

  lemma OneFrameComplete()
    ensures L.AllCanLay([OneFrame()], false) && |Joined(OneFrame().chunks)| == 9408
    ensures D.Frames([OneFrame()]) == [D.Emission(Joined(OneFrame().chunks), 2, false)]
  {
    JoinedCopies(Copies(0x69, 1176), 8);
    assert L.CanLay(OneFrame(), false);
    assert [OneFrame()][..0] == [];
  }

  /** Its sectors. */
  function OneFrameDisc(): (disc: seq<seq<Byte>>)
    ensures D.AllWellFormed(disc) && |disc| > 0
  {
    OneFrameComplete();
    L.PagesReadBack(D.NoInfos(), L.LayOut([OneFrame()], false));
    assert |L.LayOut([OneFrame()], false)| >= 8;
    L.SectorsOf(L.LayOut([OneFrame()], false))
  }

  /** They can be opened as a file; the frame gives one block of each channel, and 608 bytes stay behind in
      each. */
  lemma OneFrameTrack()
    ensures var calls := AllFrames(D.NoInfos(), OneFrameDisc());
            && FullFrames(calls, 2) && D.Size(calls) == 9408
            && |Audio(calls, 2).0| == 8192 && |Audio(calls, 2).1[0]| == 608
  {
    hide D.Stream, D.Frames, D.Groups, L.LayOut, L.PageStream, Counts, Repacked, RowsAfter, OneFrame;
    OneFrameComplete();
    var groups := [OneFrame()];
    L.PagesReadBack(D.NoInfos(), L.LayOut(groups, false));
    L.AllLaid(groups, false);
    D.MuxedGroups(groups);
    D.FramesOfIdle(groups);
    OneFrameAudio(D.Emission(Joined(OneFrame().chunks), 2, false));
  }

  lemma OneFrameAudio(e: D.Emission)
    requires |e.bytes| == 9408
    ensures FullFrames([e], 2) && D.Size([e]) == 9408
    ensures |Audio([e], 2).0| == 8192 && |Audio([e], 2).1[0]| == 608
  {
    hide Counts, Repacked, RowsAfter;
    assert [e][..0] == [];
    var rows := F.Nothing<Byte>(2);
    RepackedSize(rows, e.bytes, 2);
    CountsConserve(0, 4704, 4704);
    CountsHold(0, 4704, 4704);
  }

  /** No audio is ever read from it, whatever sizes are asked for; at the end both blocks wait in the ring
      and the rest in the channels. */
  lemma OneFrameLost(f: File)
    requires f.Valid() && f.disc == OneFrameDisc() && f.infos == D.NoInfos() && f.channels == 2
    ensures |f.delivered| <= |f.id3| + |f.header|
    ensures f.AtEnd() ==> f.delivered == f.id3 + f.header && |f.ring.Contents()| == 8192
  {
    hide File.Valid, File.AtEnd, OneFrameDisc, AllFrames, Audio, FullFrames, File.Shape;
    OneFrameTrack();
    f.BlocksDelivered();
    if f.AtEnd() {
      f.LostAtTheEnd();
      f.HeadersFirst();
    }
  }

  /** memcpy into the caller's buffer. */
  method CopyBytes(buf: array<Byte>, source: seq<Byte>, at: nat, n: nat)
    requires n <= buf.Length && at + n <= |source|
    modifies buf
    ensures buf[..n] == source[at..at + n]
    ensures forall i :: n <= i < buf.Length ==> buf[i] == old(buf[i])
  {
    for i := 0 to n
      invariant forall j :: 0 <= j < i ==> buf[j] == source[at + j]
      invariant forall j :: i <= j < buf.Length ==> buf[j] == old(buf[j])
    {
      buf[i] := source[at + i];
    }
  }

  lemma PrefixPiece(a: seq<Byte>, b: seq<Byte>, pos: nat, n: nat)
    requires if pos < |a| then pos + n <= |a| else pos + n <= |a| + |b|
    ensures (a + b)[..pos] + (if pos < |a| then a[pos..pos + n] else b[pos - |a|..pos - |a| + n]) == (a + b)[..pos + n]
    ensures (a + b)[..|a| + |b|] == a + b
  {
  }

  lemma PrefixOf(a: seq<Byte>, b: seq<Byte>, c: seq<Byte>)
    requires b <= c
    ensures a + b <= a + c && a <= a + c
  {
  }

  lemma AppendBoth(a: seq<Byte>, b: seq<Byte>, c: seq<Byte>, d: seq<Byte>, more: seq<Byte>)
    requires a + b == c + d
    ensures a + (b + more) == c + (d + more)
  {
    assert a + (b + more) == a + b + more;
    assert c + (d + more) == c + d + more;
  }

  lemma AudioMore(calls: seq<D.Emission>, e: D.Emission, channels: nat)
    requires FullFrames(calls, channels) && FullFrame(e, channels)
    ensures FullFrames(calls + [e], channels)
    ensures var a := Audio(calls, channels);
            Audio(calls + [e], channels) == (a.0 + Repacked(a.1, e.bytes, channels), RowsAfter(a.1, e.bytes, channels))
  {
    hide FullFrame;
    assert (calls + [e])[..|calls|] == calls;
  }

  /** The output of one call is the frame repacked. */
  lemma WrittenIsRepacked(rows: seq<seq<Byte>>, frame: seq<Byte>, channels: nat, held: seq<seq<Byte>>,
                          blocks: seq<seq<seq<Byte>>>, rounds: nat, data: seq<Byte>)
    requires Even(rows, channels) && |frame| % channels == 0 && |held| == channels == |blocks|
    requires forall i {:trigger rows[i]} :: 0 <= i < channels ==> |rows[i]| <= F.BLOCK
    requires forall i {:trigger blocks[i]} :: 0 <= i < channels ==>
               (blocks[i], held[i]) == F.CallFeed(rows[i], F.Chunk(frame, channels, i))
    requires F.Laid(data, blocks, channels, rounds)
    ensures held == RowsAfter(rows, frame, channels)
    ensures rounds * channels * F.BLOCK <= |data|
    ensures data[..rounds * channels * F.BLOCK] == Repacked(rows, frame, channels)
  {
    var r := F.FedAll(rows, frame, channels);
    CountsOfChannels(rows, frame, channels);
    SameRounds(rows, frame, channels);
    forall i | 0 <= i < channels ensures r[i] == (blocks[i], held[i]) {
      assert blocks[i] == blocks[i];
    }
    assert blocks == BlocksOf(rows, frame, channels);
    assert held == RowsAfter(rows, frame, channels);
    assert F.LaidChannel(data, blocks[0], channels, rounds, 0);
    assert rounds == CallCounts(|rows[0]|, |frame| / channels).0;
    F.LaidIsInterleaved(data, blocks, channels, rounds, rounds);
  }
}
