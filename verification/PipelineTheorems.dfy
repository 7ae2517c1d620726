/** What holds of every run of the parallel decoder: order, exactly-once delivery, progress,
    termination, backpressure, and the assertions at the writer's exit and at the pools' end. */
module PipelineTheorems {
  import opened Bits
  import opened BufferPool
  import opened JobLists
  import opened Pipeline

  lemma PoolsKept(c: Config, s: State, a: Action)
    requires Inv(c, s) && Enabled(c, s, a)
    ensures PoolsOk(c, Apply(c, s, a))
  {
    match a
    case Begin =>
      assert Submitter in s.inPool.ops ==> InCallerOk(s, Submitter);
      if s.sequence < |c.frames| { EnterGetKeeps(s.inPool, InCap(c), Submitter); }
    case Fill => ClaimKeeps(s.inPool, InCap(c), Submitter, s.sequence, c.frames[s.sequence]);
    case TakeJob(w) =>
      assert WorkerOk(c, s, w);
      if s.decodeList[0].more { EnterGetKeeps(s.outPool, -1, Worker(w)); }
    case Decode(w) =>
      assert WorkerOk(c, s, w);
      var job := s.workers[w].job;
      ClaimKeeps(s.outPool, -1, Worker(w), job.nr, c.decode(s.inPool.buf[job.inp.value].value).data);
      EnterDropKeeps(s.inPool, InCap(c), Worker(w), job.inp.value);
    case ReportJob =>
      if s.writer.job.more { EnterDropKeeps(s.outPool, -1, Writer, s.writer.job.out.value); }
    case InStep(t, pa) => StepKeeps(s.inPool, InCap(c), t, pa);
    case OutStep(t, pa) => StepKeeps(s.outPool, -1, t, pa);
    case _ =>
  }

  lemma WriterMoves(c: Config, s: State, w: WriterPc)
    requires Rest(c, s)
    requires (s.writer.Next? && Writer !in s.outPool.ops && w == if s.writer.more then WaitFor(s.writer.nr + 1) else CheckDecode)
          || (s.writer.CheckDecode? && w == CheckWrite)
    ensures Rest(c, s.(writer := w))
  {
    var t := s.(writer := w);
    forall i: nat | i < |t.decodeList| ensures WaitingOk(c, t, i) { assert WaitingOk(c, s, i); }
    forall i: nat | i < |t.workers| ensures WorkerOk(c, t, i) { assert WorkerOk(c, s, i); }
    forall i: nat | i < |t.writeList| ensures WrittenOk(c, t, i) { assert WrittenOk(c, s, i); }
    forall k: nat | k < |t.place| ensures PlaceOk(c, t, k) { assert PlaceOk(c, s, k); }
    forall u | u in t.inPool.ops ensures InCallerOk(t, u) { assert InCallerOk(s, u); }
    forall u | u in t.outPool.ops ensures OutCallerOk(t, u) { assert OutCallerOk(s, u); }
    forall x: Space | x < |t.inPool.owner| ensures InUserOk(c, t, x) { assert InUserOk(c, s, x); }
    forall x: Space | x < |t.outPool.owner| ensures OutUserOk(c, t, x) { assert OutUserOk(c, s, x); }
  }

  /** Once the writer has taken the last job, every list and every worker is empty-handed. */
  lemma Drained(c: Config, s: State)
    requires Rest(c, s) && Written(c, s) == |c.frames| + 1
    ensures |s.place| == |c.frames| + 1 && s.sub.Joining?
    ensures s.decodeList == [] && s.decodeHave == 0 && s.writeList == []
    ensures forall i: nat :: i < |s.workers| ==> !Busy(s.workers[i])
    ensures s.inPool.ops == map[]
    ensures !s.writer.Next? && !s.writer.Report? ==> s.outPool.ops == map[]
  {
    forall k: nat | k < |s.place| ensures s.place[k] == Gone && k < Taken(s) { assert PlaceOk(c, s, k); }
    assert PlaceOk(c, s, |s.place| - 1);
    assert s.writeList != [] ==> WrittenOk(c, s, 0);
    forall i: nat | i < |s.workers| ensures !Busy(s.workers[i]) { assert WorkerOk(c, s, i); }
    forall t ensures t !in s.inPool.ops {
      assert t in s.inPool.ops ==> InCallerOk(s, t);
      assert t.Worker? && t.index < |s.workers| ==> WorkerOk(c, s, t.index);
    }
    if !s.writer.Next? && !s.writer.Report? {
      forall t ensures t !in s.outPool.ops {
        assert t in s.outPool.ops ==> OutCallerOk(s, t);
        assert t.Worker? && t.index < |s.workers| ==> WorkerOk(c, s, t.index);
      }
    }
  }

  lemma ExitMoves(c: Config, s: State)
    requires Rest(c, s) && s.writer.CheckWrite?
    ensures Rest(c, s.(writer := Exited, writeFirst := -1))
  {
    Drained(c, s);
    var t := s.(writer := Exited, writeFirst := -1);
    forall i: nat | i < |t.workers| ensures WorkerOk(c, t, i) { assert WorkerOk(c, s, i); }
    forall k: nat | k < |t.place| ensures PlaceOk(c, t, k) { assert PlaceOk(c, s, k); }
    forall x: Space | x < |t.inPool.owner| ensures InUserOk(c, t, x) { assert InUserOk(c, s, x); }
    forall x: Space | x < |t.outPool.owner| ensures OutUserOk(c, t, x) { assert OutUserOk(c, s, x); }
  }

  lemma RestKept(c: Config, s: State, a: Action)
    requires Inv(c, s) && Enabled(c, s, a)
    ensures Rest(c, Apply(c, s, a))
  {
    match a
    case Begin => BeginKeeps(c, s);
    case Fill =>
      ClaimKeeps(s.inPool, InCap(c), Submitter, s.sequence, c.frames[s.sequence]);
      FillKeeps(c, s);
    case LaunchWorker => LaunchKeeps(c, s);
    case PutJob => PutKeeps(c, s);
    case StartWorker(w, ok) => StartKeeps(c, s, w, ok);
    case TakeJob(w) => TakeKeeps(c, s, w);
    case Decode(w) =>
      ClaimKeeps(s.outPool, -1, Worker(w), s.workers[w].job.nr, []);
      DecodeKeeps(c, s, w);
    case InsertJob(w) => InsertKeeps(c, s, w);
    case TakeWrite => TakeWriteKeeps(c, s);
    case ReportJob => ReportKeeps(c, s);
    case Advance => WriterMoves(c, s, if s.writer.more then WaitFor(s.writer.nr + 1) else CheckDecode);
    case VerifyDecode => WriterMoves(c, s, CheckWrite);
    case VerifyWrite => ExitMoves(c, s);
    case InStep(t, pa) =>
      StepKeeps(s.inPool, InCap(c), t, pa);
      StepSameCalls(s.inPool, t, pa);
      InStepKeeps(c, s, t, Step(s.inPool, t, pa));
    case OutStep(t, pa) =>
      StepKeeps(s.outPool, -1, t, pa);
      StepSameCalls(s.outPool, t, pa);
      OutStepKeeps(c, s, t, Step(s.outPool, t, pa));
  }

  /** Every action of every thread keeps the invariant. */
  lemma ActionKeeps(c: Config, s: State, a: Action)
    requires Inv(c, s) && Enabled(c, s, a)
    ensures Inv(c, Apply(c, s, a))
  {
    PoolsKept(c, s, a);
    RestKept(c, s, a);
  }

  /** The actions lead from s to t. */
  ghost predicate Run(c: Config, s: State, actions: seq<Action>, t: State)
    decreases |actions|
  {
    if actions == [] then s == t
    else Enabled(c, s, actions[0]) && Run(c, Apply(c, s, actions[0]), actions[1..], t)
  }

  lemma {:induction false} RunKeeps(c: Config, s: State, actions: seq<Action>, t: State)
    requires Inv(c, s) && Run(c, s, actions, t)
    ensures Inv(c, t)
    decreases actions
  {
    if actions != [] {
      ActionKeeps(c, s, actions[0]);
      RunKeeps(c, Apply(c, s, actions[0]), actions[1..], t);
    }
  }

  lemma {:induction false} ExpectedPrefix(c: Config, k: nat, m: nat)
    requires k <= m <= |c.frames|
    ensures Expected(c, k) <= Expected(c, m)
    decreases m - k
  {
    if k < m {
      ExpectedPrefix(c, k, m - 1);
    }
  }

  /** In every interleaving the callbacks made so far are those of the first frames, in submission
      order and each once; after the last job they are those of all frames. */
  lemma DeliveredInOrder(c: Config, actions: seq<Action>, s: State)
    requires Run(c, Init(c), actions, s)
    ensures Reported(c, s) <= |c.frames| && s.calls == Expected(c, Reported(c, s))
    ensures s.calls <= Expected(c, |c.frames|)
    ensures s.writer.CheckDecode? || s.writer.CheckWrite? || s.writer.Exited? ==> s.calls == Expected(c, |c.frames|)
  {
    InitInv(c);
    RunKeeps(c, Init(c), actions, s);
    ExpectedPrefix(c, Reported(c, s), |c.frames|);
  }

  /** The lists as the threads see them: every lock value counts its list, the write list is strictly
      sorted, and a thread that finds its lock value finds its job. */
  lemma ListsConsistent(c: Config, actions: seq<Action>, s: State)
    requires Run(c, Init(c), actions, s)
    ensures s.decodeHave == |s.decodeList|
    ensures Sorted(s.writeList) && s.writeFirst == First(s.writeList)
    ensures s.writer.WaitFor? && s.writeFirst == s.writer.nr ==>
              s.writeList != [] && s.writeList[0].nr == s.writer.nr
    ensures forall i: nat :: i < |s.decodeList| ==> s.decodeList[i].nr == |s.place| - |s.decodeList| + i
    ensures forall w: nat, k: nat :: k < |s.writeList| && w < |s.workers| && Busy(s.workers[w]) ==>
              s.workers[w].job.nr != s.writeList[k].nr
    ensures forall w: nat, v: nat :: w < v < |s.workers| && Busy(s.workers[w]) && Busy(s.workers[v]) ==>
              s.workers[w].job.nr != s.workers[v].job.nr
  {
    InitInv(c);
    RunKeeps(c, Init(c), actions, s);
    forall i: nat | i < |s.decodeList| ensures s.decodeList[i].nr == |s.place| - |s.decodeList| + i {
      assert WaitingOk(c, s, i);
    }
    forall w: nat, k: nat | k < |s.writeList| && w < |s.workers| && Busy(s.workers[w])
      ensures s.workers[w].job.nr != s.writeList[k].nr
    {
      assert WorkerOk(c, s, w) && WrittenOk(c, s, k);
    }
    forall w: nat, v: nat | w < v < |s.workers| && Busy(s.workers[w]) && Busy(s.workers[v])
      ensures s.workers[w].job.nr != s.workers[v].job.nr
    {
      assert WorkerOk(c, s, w) && WorkerOk(c, s, v);
    }
  }

  /** The assertions of write_thread after its loop hold, and once the writer has exited, freeing
      either pool counts every space that was made. */
  lemma ExitAssertions(c: Config, actions: seq<Action>, s: State)
    requires Run(c, Init(c), actions, s)
    ensures s.writer.CheckDecode? ==> s.decodeList == [] && s.decodeHave == 0
    ensures s.writer.CheckWrite? ==> s.writeList == []
    ensures s.writer.Exited? ==> |s.inPool.free| == s.inPool.Made() && |s.outPool.free| == s.outPool.Made()
  {
    InitInv(c);
    RunKeeps(c, Init(c), actions, s);
    if s.writer.CheckDecode? || s.writer.CheckWrite? || s.writer.Exited? {
      Drained(c, s);
      forall x: Space | x < s.inPool.Made() ensures !s.inPool.owner[x].User? {
        assert InUserOk(c, s, x);
        assert s.inPool.owner[x].User? && s.inPool.owner[x].job < |s.place| ==> PlaceOk(c, s, s.inPool.owner[x].job);
      }
      forall x: Space | x < s.outPool.Made() ensures !s.outPool.owner[x].User? {
        assert OutUserOk(c, s, x);
        assert s.outPool.owner[x].User? && s.outPool.owner[x].job < |s.place| ==> PlaceOk(c, s, s.outPool.owner[x].job);
      }
      FreeCountsAll(s.inPool, InCap(c));
      FreeCountsAll(s.outPool, -1);
    }
  }

  /* The class of the lists is what the transitions are about. */

  function SharedOf(s: State): Shared { Shared(s.decodeHave, s.decodeList, s.writeFirst, s.writeList) }

  /** In every reachable state an enabled action meets the preconditions of its lock region, does to the
      lists what that region does and nothing else, and hands the region's job to its thread. */
  lemma ListStep(c: Config, actions: seq<Action>, s: State, a: Action)
    requires Run(c, Init(c), actions, s) && Enabled(c, s, a)
    ensures var l, t := SharedOf(s), Apply(c, s, a);
            match a
            case PutJob => SharedOf(t) == AfterSubmit(l, s.sub.job)
            case TakeJob(w) =>
              && l.decodeHave == |l.decodeList| && l.decodeHave != 0 && SharedOf(t) == AfterTake(l)
              && Busy(t.workers[w]) && t.workers[w].job == l.decodeList[0]
            case InsertJob(w) => SharedOf(t) == AfterPut(l, s.workers[w].job)
            case TakeWrite =>
              && l.writeFirst == s.writer.nr == First(l.writeList) && l.writeList != [] && SharedOf(t) == AfterTakeWrite(l)
              && t.writer == Report(l.writeList[0])
            case VerifyWrite => SharedOf(t) == l.(writeFirst := -1)
            case _ => SharedOf(t) == l
  {
    ListsConsistent(c, actions, s);
  }

  /** The lists follow any run, lock region by lock region. */
  method Follow(lists: Lists, c: Config, s: State, a: Action, ghost actions: seq<Action>)
    requires Run(c, Init(c), actions, s) && Enabled(c, s, a) && lists.Contents() == SharedOf(s)
    modifies lists
    ensures lists.Contents() == SharedOf(Apply(c, s, a))
  {
    hide Run;
    ListStep(c, actions, s, a);
    match a
    case PutJob => lists.Submit(s.sub.job);
    case TakeJob(w) => var job := lists.Take();
    case InsertJob(w) => lists.PutWrite(s.workers[w].job);
    case TakeWrite => var job := lists.TakeWrite(s.writer.nr);
    case VerifyWrite => lists.Close();
    case _ =>
  }
}
