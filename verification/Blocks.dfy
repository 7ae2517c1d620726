/** Which sectors are read next, and whether as encrypted ones (the block loop of processing_thread in
    scarletbook_output.c and of CSACDFile::Read in src/SACDFile.cpp). */
module Blocks {
  import opened Bits

  const MAX_PROCESSING_BLOCK_SIZE := 512

  /** The encrypted ranges of the two areas, ends included. */
  datatype Ranges = Ranges(start1: nat, end1: nat, start2: nat, end2: nat)

  /** Sectors to ask for at `cur`, and whether they are to be decrypted. */
  function Choose(r: Ranges, cur: nat, end: nat): (b: (nat, bool))
    requires cur < end
    ensures 0 < b.0 <= MAX_PROCESSING_BLOCK_SIZE && cur + b.0 <= end
  {
    var (size, encrypted) :=
      if cur < r.start1 then (Min(r.start1 - cur, MAX_PROCESSING_BLOCK_SIZE), false)
      else if cur <= r.end1 then (Min(r.end1 + 1 - cur, MAX_PROCESSING_BLOCK_SIZE), true)
      else if cur < r.start2 then (Min(r.start2 - cur, MAX_PROCESSING_BLOCK_SIZE), false)
      else if cur <= r.end2 then (Min(r.end2 + 1 - cur, MAX_PROCESSING_BLOCK_SIZE), true)
      else (MAX_PROCESSING_BLOCK_SIZE, false);
    (Min(end - cur, size), encrypted)
  }

  /** A block is as long as it may be: it stops at 512 sectors, at the end of the track or where a range begins
      or has ended. */
  lemma ChooseIsLargest(r: Ranges, cur: nat, end: nat)
    requires cur < end
    ensures var n := Choose(r, cur, end).0;
            && 0 < n <= 512 && cur + n <= end
            && (n == 512 || cur + n in {end, r.start1, r.end1 + 1, r.start2, r.end2 + 1})
  {
    var n := Choose(r, cur, end).0;
    assert n == 512 || cur + n == end || cur + n == r.start1 || cur + n == r.end1 + 1 || cur + n == r.start2
           || cur + n == r.end2 + 1;
  }

  predicate Encrypted(r: Ranges, x: nat) {
    r.start1 <= x <= r.end1 || r.start2 <= x <= r.end2
  }

  /** Every sector of the block at `cur` is what the block is taken for. */
  ghost predicate RightAt(r: Ranges, cur: nat, end: nat) {
    cur < end ==> forall x: nat {:trigger Encrypted(r, x)} ::
      cur <= x < cur + Choose(r, cur, end).0 ==> Choose(r, cur, end).1 == Encrypted(r, x)
  }

  /** The part of the second range that lies in the track and before the first range is empty. */
  predicate Ordered(r: Ranges, start: nat, end: nat) {
    Min(Min(end, r.start1), r.end2 + 1) <= Max(start, r.start2)
  }

  lemma OrderedIsRight(r: Ranges, start: nat, end: nat, cur: nat)
    requires Ordered(r, start, end) && start <= cur
    ensures RightAt(r, cur, end)
  {
  }

  /** No block mixes encrypted and plain sectors, wherever in the track it starts, exactly when no sector of
      the second range comes before the first range. */
  lemma RightExactly(r: Ranges, start: nat, end: nat)
    ensures (forall cur: nat :: start <= cur ==> RightAt(r, cur, end)) <==> Ordered(r, start, end)
  {
    if Ordered(r, start, end) {
      forall cur: nat | start <= cur ensures RightAt(r, cur, end) {
        OrderedIsRight(r, start, end, cur);
      }
    }
    if !Ordered(r, start, end) {
      var x := Max(start, r.start2);
      assert Encrypted(r, x);
      assert !RightAt(r, x, end);
    }
  }

  /** Sectors that one call has read, and whether it decrypted them. */
  datatype Block = Block(lsn: nat, count: nat, encrypted: bool)

  /** Blocks that lie one behind the other from start to end, none of them empty or too long. */
  predicate Tiling(blocks: seq<Block>, start: nat, end: nat)
    decreases |blocks|
  {
    if blocks == [] then start == end
    else
      var last := blocks[|blocks| - 1];
      && 0 < last.count <= MAX_PROCESSING_BLOCK_SIZE && last.lsn + last.count == end
      && Tiling(blocks[..|blocks| - 1], start, last.lsn)
  }

  predicate Holds(b: Block, x: nat) { b.lsn <= x < b.lsn + b.count }

  /** How many of the blocks hold a sector. */
  function Times(blocks: seq<Block>, x: nat): nat
    decreases |blocks|
  {
    if blocks == [] then 0
    else Times(blocks[..|blocks| - 1], x) + if Holds(blocks[|blocks| - 1], x) then 1 else 0
  }

  /** A tiling reads every sector of the track once, and no other. */
  lemma {:induction false} EverySectorOnce(blocks: seq<Block>, start: nat, end: nat, x: nat)
    requires Tiling(blocks, start, end)
    ensures start <= end && Times(blocks, x) == if start <= x < end then 1 else 0
    decreases |blocks|
  {
    if blocks != [] {
      EverySectorOnce(blocks[..|blocks| - 1], start, blocks[|blocks| - 1].lsn, x);
    }
  }

  /** Every sector of the block is what the block was taken for. */
  ghost predicate Pure(r: Ranges, b: Block) {
    forall x: nat {:trigger Encrypted(r, x)} :: Holds(b, x) ==> b.encrypted == Encrypted(r, x)
  }

  ghost predicate AllPure(r: Ranges, blocks: seq<Block>) {
    forall i {:trigger blocks[i]} :: 0 <= i < |blocks| ==> Pure(r, blocks[i])
  }

  lemma PureBlock(r: Ranges, b: Block, end: nat)
    requires b.lsn < end && RightAt(r, b.lsn, end)
    requires b.count <= Choose(r, b.lsn, end).0 && b.encrypted == Choose(r, b.lsn, end).1
    ensures Pure(r, b)
  {
    hide Choose, Encrypted;
  }

  /** The answers of reads that brought sectors. */
  function Brought(answers: seq<nat>): seq<nat> {
    if answers == [] then []
    else Brought(answers[..|answers| - 1]) + if answers[|answers| - 1] > 0 then [answers[|answers| - 1]] else []
  }

  /** A block is what the device gave of what was asked for there. */
  predicate IsAnswer(r: Ranges, end: nat, b: Block, answer: nat) {
    b.lsn < end && b.count == Min(answer, Choose(r, b.lsn, end).0) && b.encrypted == Choose(r, b.lsn, end).1
  }

  predicate AllAnswers(r: Ranges, end: nat, blocks: seq<Block>, answers: seq<nat>) {
    |blocks| <= |answers| && forall k {:trigger blocks[k]} :: 0 <= k < |blocks| ==> IsAnswer(r, end, blocks[k], answers[k])
  }

  /** The loop of processing_thread, for a device that answers with these numbers of sectors, or as many as
      were asked for. After a read that brings nothing the same sectors are asked for again; every other read is
      a block with as many sectors as the device gave, until the track is finished, at the latest after as many
      of them as it has sectors. */
  method ProcessTrack(r: Ranges, start: nat, length: nat, answers: seq<nat>) returns (blocks: seq<Block>, current: nat)
    ensures start <= current <= start + length && Tiling(blocks, start, current)
    ensures AllAnswers(r, start + length, blocks, Brought(answers))
    ensures current < start + length ==> |blocks| == |Brought(answers)| < length
    ensures Ordered(r, start, start + length) ==> AllPure(r, blocks)
  {
    hide Encrypted, Ordered, RightAt, Pure, AllPure, AllAnswers, Tiling, Brought, Choose;
    var end := start + length;
    NoBlocks(r, start, end);
    current := start;
    blocks := [];
    var i := 0;
    while current < end && i < |answers|
      invariant i <= |answers| && start <= current <= end && Tiling(blocks, start, current)
      invariant |blocks| == |Brought(answers[..i])| <= current - start && AllAnswers(r, end, blocks, Brought(answers[..i]))
      invariant Ordered(r, start, end) ==> AllPure(r, blocks)
    {
      var (blockSize, encrypted) := Choose(r, current, end);
      var n := Min(answers[i], blockSize);
      BroughtStep(answers, i);
      if n > 0 {
        var block := Block(current, n, encrypted);
        AnswerMore(r, end, blocks, Brought(answers[..i]), block, answers[i]);
        if Ordered(r, start, end) {
          OrderedIsRight(r, start, end, current);
          PureBlock(r, block, end);
          PureMore(r, blocks, block);
        }
        TilingMore(blocks, block, start);
        blocks := blocks + [block];
        current := current + n;
      }
      i := i + 1;
    }
    BroughtPrefix(answers, i);
    AnswersOfMore(r, end, blocks, Brought(answers[..i]), Brought(answers));
  }

  lemma NoBlocks(r: Ranges, start: nat, end: nat)
    ensures Tiling([], start, start)
    ensures AllPure(r, []) && Brought([]) == [] && AllAnswers(r, end, [], [])
  {
  }

  lemma BroughtStep(answers: seq<nat>, i: nat)
    requires i < |answers|
    ensures Brought(answers[..i + 1]) == if answers[i] > 0 then Brought(answers[..i]) + [answers[i]] else Brought(answers[..i])
  {
    assert answers[..i + 1][..i] == answers[..i];
  }

  lemma TilingMore(blocks: seq<Block>, b: Block, start: nat)
    requires Tiling(blocks, start, b.lsn) && 0 < b.count <= MAX_PROCESSING_BLOCK_SIZE
    ensures Tiling(blocks + [b], start, b.lsn + b.count)
  {
    assert (blocks + [b])[..|blocks|] == blocks;
  }

  lemma PureMore(r: Ranges, blocks: seq<Block>, b: Block)
    requires AllPure(r, blocks) && Pure(r, b)
    ensures AllPure(r, blocks + [b])
  {
    hide Pure;
  }

  lemma AnswerMore(r: Ranges, end: nat, blocks: seq<Block>, answers: seq<nat>, b: Block, answer: nat)
    requires AllAnswers(r, end, blocks, answers) && |blocks| == |answers|
    requires b.lsn < end && b.count == Min(answer, Choose(r, b.lsn, end).0) && b.encrypted == Choose(r, b.lsn, end).1
    ensures AllAnswers(r, end, blocks + [b], answers + [answer])
  {
    hide Choose;
    assert IsAnswer(r, end, b, answer);
  }

  lemma AnswersOfMore(r: Ranges, end: nat, blocks: seq<Block>, answers: seq<nat>, all: seq<nat>)
    requires AllAnswers(r, end, blocks, answers) && answers <= all
    ensures AllAnswers(r, end, blocks, all)
  {
    hide IsAnswer;
  }

  lemma {:induction false} BroughtPrefix(answers: seq<nat>, i: nat)
    requires i <= |answers|
    ensures Brought(answers[..i]) <= Brought(answers) && (i == |answers| ==> answers[..i] == answers)
  {
    if i == |answers| {
      assert answers[..i] == answers;
    } else {
      BroughtPrefix(answers[..|answers| - 1], i);
      assert answers[..|answers| - 1][..i] == answers[..i];
    }
  }
}
