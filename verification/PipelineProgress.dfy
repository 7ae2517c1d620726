/** Liveness of the parallel decoder: it cannot block while a worker lives, every run is finite, and
    a run that can go no further has delivered everything exactly when some worker is alive. */
module PipelineProgress {
  import opened Bits
  import opened BufferPool
  import opened JobLists
  import opened Pipeline
  import opened PipelineTheorems

  ghost predicate CanMove(c: Config, s: State) {
    exists a :: Enabled(c, s, a)
  }

  predicate Alive(s: State, w: nat) {
    w < |s.workers| && !s.workers[w].Dead?
  }

  lemma InCanMove(c: Config, s: State)
    requires SomeEnabled(s.inPool)
    ensures CanMove(c, s)
  {
    var t, a :| CanStep(s.inPool, t, a);
    assert Enabled(c, s, InStep(t, a));
  }

  lemma OutCanMove(c: Config, s: State)
    requires SomeEnabled(s.outPool)
    ensures CanMove(c, s)
  {
    var t, a :| CanStep(s.outPool, t, a);
    assert Enabled(c, s, OutStep(t, a));
  }

  lemma WorkerCanMove(c: Config, s: State, w: nat)
    requires Inv(c, s) && w < |s.workers| && (Busy(s.workers[w]) || s.workers[w].Starting?)
    ensures CanMove(c, s)
  {
    assert WorkerOk(c, s, w);
    match s.workers[w]
    case Starting => assert Enabled(c, s, StartWorker(w, true));
    case GetOutput(job) =>
      assert OpOk(s.outPool, Worker(w));
      if s.outPool.ops[Worker(w)].GetDone? {
        assert Enabled(c, s, Decode(w));
      } else {
        PoolProgress(s.outPool, -1, Worker(w));
        OutCanMove(c, s);
      }
    case Inserting(job) =>
      if Worker(w) in s.inPool.ops {
        PoolProgress(s.inPool, InCap(c), Worker(w));
        InCanMove(c, s);
      } else {
        assert Enabled(c, s, InsertJob(w));
      }
  }

  lemma WriterCanMove(c: Config, s: State)
    requires Inv(c, s) && !s.writer.WaitFor? && !s.writer.Exited?
    ensures CanMove(c, s)
  {
    match s.writer
    case Report(job) => assert Enabled(c, s, ReportJob);
    case Next(_, _) =>
      if Writer in s.outPool.ops {
        PoolProgress(s.outPool, -1, Writer);
        OutCanMove(c, s);
      } else {
        assert Enabled(c, s, Advance);
      }
    case CheckDecode => assert Enabled(c, s, VerifyDecode);
    case CheckWrite => assert Enabled(c, s, VerifyWrite);
  }

  /** With nothing queued and nobody decoding, every input space is back on the list. */
  lemma InputAvailable(c: Config, s: State)
    requires Inv(c, s) && s.decodeList == [] && s.sub.GetInput?
    requires s.inPool.ops[Submitter].GetEnter?
    requires forall i: nat :: i < |s.workers| ==> !Busy(s.workers[i])
    ensures s.inPool.limit != 0 || s.inPool.free != []
  {
    if s.inPool.limit == 0 {
      assert s.inPool.Made() == InCap(c) > 0;
      assert SpaceOk(s.inPool, 0) && InUserOk(c, s, 0);
      var o := s.inPool.owner[0];
      assert o.InCall? ==> InCallerOk(s, o.thread);
      assert o.InCall? && o.thread.Worker? && o.thread.index < |s.workers| ==> WorkerOk(c, s, o.thread.index);
      assert o.Listed?;
    }
  }

  lemma SubmitterCanMove(c: Config, s: State)
    requires Inv(c, s) && s.decodeList == [] && !s.sub.Joining?
    requires forall i: nat :: i < |s.workers| ==> !Busy(s.workers[i])
    ensures CanMove(c, s)
  {
    match s.sub
    case NextFrame => assert Enabled(c, s, Begin);
    case GetInput =>
      assert OpOk(s.inPool, Submitter);
      if s.inPool.ops[Submitter].GetDone? {
        assert Enabled(c, s, Fill);
      } else {
        PoolProgress(s.inPool, InCap(c), Submitter);
        if s.inPool.ops[Submitter].GetEnter? { InputAvailable(c, s); }
        InCanMove(c, s);
      }
    case Launch(_) => assert Enabled(c, s, LaunchWorker);
    case Put(_) => assert Enabled(c, s, PutJob);
  }

  /** When everything is submitted and decoded, the job the writer waits for heads the write list. */
  lemma HeadIsNext(c: Config, s: State)
    requires Inv(c, s) && s.decodeList == [] && s.sub.Joining? && s.writer.WaitFor?
    requires forall i: nat :: i < |s.workers| ==> !Busy(s.workers[i])
    ensures CanMove(c, s)
  {
    var k := s.writer.nr;
    assert PlaceOk(c, s, k);
    var i: nat :| i < |s.writeList| && s.writeList[i].nr == k;
    assert WrittenOk(c, s, 0);
    assert PlaceOk(c, s, s.writeList[0].nr);
    assert s.writeList[0].nr == k;
    assert Enabled(c, s, TakeWrite);
  }

  /** Progress: while a worker lives and the writer has not exited, some thread can move. */
  lemma Progress(c: Config, actions: seq<Action>, s: State, w: nat)
    requires Run(c, Init(c), actions, s)
    requires Alive(s, w) && !s.writer.Exited?
    ensures CanMove(c, s)
  {
    InitInv(c);
    RunKeeps(c, Init(c), actions, s);
    if i: nat :| i < |s.workers| && (Busy(s.workers[i]) || s.workers[i].Starting?) {
      WorkerCanMove(c, s, i);
    } else if s.decodeList != [] {
      assert WaitingOk(c, s, 0);
      assert Enabled(c, s, TakeJob(w));
    } else if !s.sub.Joining? {
      SubmitterCanMove(c, s);
    } else if s.writer.WaitFor? {
      HeadIsNext(c, s);
    } else {
      WriterCanMove(c, s);
    }
  }

  /* Termination: every action uses up part of a bound that is known before the run. */

  function CallRank(p: Pool, t: ThreadId): nat {
    if t in p.ops then OpRank(p.ops[t]) else 0
  }

  function SubRank(c: Config, s: State): nat {
    var left := if s.sequence <= |c.frames| then |c.frames| + 1 - s.sequence else 0;
    match s.sub
    case NextFrame => 23 * left
    case GetInput => (if left > 0 then 23 * (left - 1) else 0) + 19 + CallRank(s.inPool, Submitter)
    case Launch(_) => 23 * left + 18
    case Put(_) => 23 * left + 16
    case Joining => 0
  }

  function WorkerRank(s: State, i: nat): nat
    requires i < |s.workers|
  {
    match s.workers[i]
    case Starting => 1
    case GetOutput(_) => 11 + CallRank(s.outPool, Worker(i))
    case Inserting(_) => 7 + CallRank(s.inPool, Worker(i))
    case _ => 0
  }

  function WorkersRank(s: State, k: nat): nat
    requires k <= |s.workers|
  {
    if k == 0 then 0 else WorkersRank(s, k - 1) + WorkerRank(s, k - 1)
  }

  function WriterRank(s: State): nat {
    match s.writer
    case WaitFor(_) => 3
    case Report(_) => 8
    case Next(_, _) => 4 + CallRank(s.outPool, Writer)
    case CheckDecode => 2
    case CheckWrite => 1
    case Exited => 0
  }

  function Measure(c: Config, s: State): nat {
    SubRank(c, s) + 15 * |s.decodeList| + WorkersRank(s, |s.workers|) + 6 * |s.writeList| + WriterRank(s)
  }

  lemma {:induction false} SameRanks(s: State, t: State, k: nat)
    requires k <= |s.workers| && k <= |t.workers|
    requires forall i: nat {:trigger WorkerRank(t, i)} :: i < k ==> WorkerRank(t, i) == WorkerRank(s, i)
    ensures WorkersRank(t, k) == WorkersRank(s, k)
  {
    if k > 0 { SameRanks(s, t, k - 1); }
  }

  lemma {:induction false} OneRank(s: State, t: State, w: nat, k: nat)
    requires w < k <= |s.workers| && k <= |t.workers|
    requires forall i: nat {:trigger WorkerRank(t, i)} :: i < k && i != w ==> WorkerRank(t, i) == WorkerRank(s, i)
    ensures WorkersRank(t, k) - WorkersRank(s, k) == WorkerRank(t, w) - WorkerRank(s, w)
  {
    if w == k - 1 { SameRanks(s, t, k - 1); } else { OneRank(s, t, w, k - 1); }
  }

  lemma SubmitterDecreases(c: Config, s: State, a: Action)
    requires Inv(c, s) && Enabled(c, s, a) && (a.Begin? || a.Fill? || a.LaunchWorker? || a.PutJob?)
    ensures Measure(c, Apply(c, s, a)) < Measure(c, s)
  {
    hide PoolsOk, WaitingOk, WrittenOk, PlaceOk, InUserOk, OutUserOk, Sorted;
    var t := Apply(c, s, a);
    forall i: nat | i < |s.workers| ensures WorkerRank(t, i) == WorkerRank(s, i) { assert WorkerOk(c, s, i); }
    SameRanks(s, t, |s.workers|);
  }

  lemma TakeDecreases(c: Config, s: State, w: nat)
    requires Inv(c, s) && IsWorker(s, w) && CanTake(s, w)
    ensures Measure(c, DoTake(s, w)) < Measure(c, s)
  {
    hide PoolsOk, WaitingOk, WrittenOk, PlaceOk, InUserOk, OutUserOk, Sorted;
    var t := DoTake(s, w);
    forall i: nat | i < |s.workers| && i != w ensures WorkerRank(t, i) == WorkerRank(s, i) { assert WorkerOk(c, s, i); }
    assert WorkerOk(c, s, w);
    OneRank(s, t, w, |s.workers|);
  }

  lemma DecodeDecreases(c: Config, s: State, w: nat)
    requires Inv(c, s) && IsWorker(s, w) && CanDecode(s, w)
    ensures Measure(c, DoDecode(c, s, w)) < Measure(c, s)
  {
    hide PoolsOk, WaitingOk, WrittenOk, PlaceOk, InUserOk, OutUserOk, Sorted;
    var t := DoDecode(c, s, w);
    forall i: nat | i < |s.workers| && i != w ensures WorkerRank(t, i) == WorkerRank(s, i) { assert WorkerOk(c, s, i); }
    assert WorkerOk(c, s, w);
    OneRank(s, t, w, |s.workers|);
  }

  lemma InsertDecreases(c: Config, s: State, w: nat)
    requires Inv(c, s) && IsWorker(s, w) && CanInsert(s, w)
    ensures Measure(c, DoInsert(s, w)) < Measure(c, s)
  {
    hide PoolsOk, WaitingOk, WrittenOk, PlaceOk, InUserOk, OutUserOk, Sorted;
    var t := DoInsert(s, w);
    forall i: nat | i < |s.workers| && i != w ensures WorkerRank(t, i) == WorkerRank(s, i) { assert WorkerOk(c, s, i); }
    assert WorkerOk(c, s, w);
    OneRank(s, t, w, |s.workers|);
  }

  lemma StartDecreases(c: Config, s: State, w: nat, ok: bool)
    requires Inv(c, s) && w < |s.workers| && s.workers[w].Starting?
    ensures Measure(c, s.(workers := s.workers[w := if ok then Idle else Dead])) < Measure(c, s)
  {
    var t := s.(workers := s.workers[w := if ok then Idle else Dead]);
    OneRank(s, t, w, |s.workers|);
  }

  lemma WriterDecreases(c: Config, s: State, a: Action)
    requires Inv(c, s) && Enabled(c, s, a)
    requires a.TakeWrite? || a.ReportJob? || a.Advance? || a.VerifyDecode? || a.VerifyWrite?
    ensures Measure(c, Apply(c, s, a)) < Measure(c, s)
  {
    hide PoolsOk, WaitingOk, WrittenOk, PlaceOk, InUserOk, OutUserOk, Sorted;
    var t := Apply(c, s, a);
    SameRanks(s, t, |s.workers|);
  }

  lemma CallDecreases(p: Pool, t: ThreadId, a: PoolAction)
    requires CanStep(p, t, a)
    ensures CallRank(Step(p, t, a), t) < CallRank(p, t)
    ensures forall u :: u != t ==> CallRank(Step(p, t, a), u) == CallRank(p, u)
  {
  }

  lemma InStepDecreases(c: Config, s: State, t: ThreadId, pa: PoolAction)
    requires Inv(c, s) && CanStep(s.inPool, t, pa)
    ensures Measure(c, s.(inPool := Step(s.inPool, t, pa))) < Measure(c, s)
  {
    hide PoolsOk, WaitingOk, WrittenOk, PlaceOk, InUserOk, OutUserOk, Sorted;
    var q := Step(s.inPool, t, pa);
    var r := s.(inPool := q);
    assert InCallerOk(s, t);
    CallDecreases(s.inPool, t, pa);
    if t.Worker? {
      assert WorkerOk(c, s, t.index);
      OneRank(s, r, t.index, |s.workers|);
    } else {
      SameRanks(s, r, |s.workers|);
    }
  }

  lemma OutStepDecreases(c: Config, s: State, t: ThreadId, pa: PoolAction)
    requires Inv(c, s) && CanStep(s.outPool, t, pa)
    ensures Measure(c, s.(outPool := Step(s.outPool, t, pa))) < Measure(c, s)
  {
    hide PoolsOk, WaitingOk, WrittenOk, PlaceOk, InUserOk, OutUserOk, Sorted;
    var q := Step(s.outPool, t, pa);
    var r := s.(outPool := q);
    assert OutCallerOk(s, t);
    CallDecreases(s.outPool, t, pa);
    if t.Worker? {
      assert WorkerOk(c, s, t.index);
      OneRank(s, r, t.index, |s.workers|);
    } else {
      SameRanks(s, r, |s.workers|);
    }
  }

  lemma ActionDecreases(c: Config, s: State, a: Action)
    requires Inv(c, s) && Enabled(c, s, a)
    ensures Measure(c, Apply(c, s, a)) < Measure(c, s)
  {
    match a
    case StartWorker(w, ok) => StartDecreases(c, s, w, ok);
    case TakeJob(w) => TakeDecreases(c, s, w);
    case Decode(w) => DecodeDecreases(c, s, w);
    case InsertJob(w) => InsertDecreases(c, s, w);
    case InStep(t, pa) => InStepDecreases(c, s, t, pa);
    case OutStep(t, pa) => OutStepDecreases(c, s, t, pa);
    case Begin => SubmitterDecreases(c, s, a);
    case Fill => SubmitterDecreases(c, s, a);
    case LaunchWorker => SubmitterDecreases(c, s, a);
    case PutJob => SubmitterDecreases(c, s, a);
    case _ => WriterDecreases(c, s, a);
  }

  lemma {:induction false} RunLength(c: Config, s: State, actions: seq<Action>, t: State)
    requires Inv(c, s) && Run(c, s, actions, t)
    ensures |actions| + Measure(c, t) <= Measure(c, s)
    decreases |actions|
  {
    if actions != [] {
      ActionKeeps(c, s, actions[0]);
      ActionDecreases(c, s, actions[0]);
      RunLength(c, Apply(c, s, actions[0]), actions[1..], t);
    }
  }

  /** Termination: no schedule takes more than 23 actions a job and 3 for the writer. */
  lemma RunsAreFinite(c: Config, actions: seq<Action>, s: State)
    requires Run(c, Init(c), actions, s)
    ensures |actions| <= 23 * (|c.frames| + 1) + 3
  {
    InitInv(c);
    RunLength(c, Init(c), actions, s);
  }

  ghost predicate Started(s: State) {
    exists w: nat :: w < |s.workers| && !s.workers[w].Dead? && !s.workers[w].Starting?
  }

  /** Nothing leaves the decode list before some worker has started. */
  ghost predicate IdleUntilStarted(s: State) {
    Started(s) || |s.decodeList| == |s.place|
  }

  lemma ActionKeepsIdle(c: Config, s: State, a: Action)
    requires Inv(c, s) && Enabled(c, s, a) && IdleUntilStarted(s)
    ensures IdleUntilStarted(Apply(c, s, a))
  {
    var t := Apply(c, s, a);
    if Started(s) {
      var w: nat :| w < |s.workers| && !s.workers[w].Dead? && !s.workers[w].Starting?;
      assert w < |t.workers| && !t.workers[w].Dead? && !t.workers[w].Starting?;
    } else {
      assert a.TakeJob? || a.Decode? || a.InsertJob? ==> !s.workers[a.w].Dead? && !s.workers[a.w].Starting?;
    }
  }

  lemma {:induction false} RunKeepsIdle(c: Config, s: State, actions: seq<Action>, t: State)
    requires Inv(c, s) && IdleUntilStarted(s) && Run(c, s, actions, t)
    ensures IdleUntilStarted(t)
    decreases |actions|
  {
    if actions != [] {
      ActionKeeps(c, s, actions[0]);
      ActionKeepsIdle(c, s, actions[0]);
      RunKeepsIdle(c, Apply(c, s, actions[0]), actions[1..], t);
    }
  }

  /** Total delivery: a run that can go no further has made every callback and let the writer exit
      if and only if some worker is alive (a worker whose DST_InitDecoder fails dies at once). */
  lemma DeliversAll(c: Config, actions: seq<Action>, s: State)
    requires Run(c, Init(c), actions, s) && !CanMove(c, s)
    ensures (exists w: nat :: Alive(s, w)) <==> s.writer.Exited?
    ensures s.writer.Exited? ==> s.calls == Expected(c, |c.frames|)
  {
    DeliveredInOrder(c, actions, s);
    if w: nat :| Alive(s, w) {
      if !s.writer.Exited? { Progress(c, actions, s, w); }
    }
    if s.writer.Exited? {
      InitInv(c);
      RunKeeps(c, Init(c), actions, s);
      RunKeepsIdle(c, Init(c), actions, s);
      Drained(c, s);
      assert Started(s);
      var w: nat :| w < |s.workers| && !s.workers[w].Dead? && !s.workers[w].Starting?;
      assert Alive(s, w);
    }
  }

  /** One worker is launched with each job, as long as there are fewer than processors. */
  predicate Launched(c: Config, s: State) {
    && |s.workers| == Min(c.procs, if s.sub.Launch? && s.sequence > 0 then s.sequence - 1 else s.sequence)
    && (s.sub.Joining? ==> s.sequence > 0)
  }

  /** No worker's DST_InitDecoder fails. */
  predicate NoFailure(actions: seq<Action>) {
    forall i {:trigger actions[i]} :: 0 <= i < |actions| && actions[i].StartWorker? ==> actions[i].ok
  }

  predicate NoneDead(s: State) {
    forall w {:trigger s.workers[w]} :: 0 <= w < |s.workers| ==> !s.workers[w].Dead?
  }

  lemma ActionLaunches(c: Config, s: State, a: Action)
    requires Inv(c, s) && Enabled(c, s, a) && Launched(c, s)
    ensures Launched(c, Apply(c, s, a))
    ensures NoneDead(s) && (a.StartWorker? ==> a.ok) ==> NoneDead(Apply(c, s, a))
  {
    hide PoolsOk, WaitingOk, WorkerOk, WrittenOk, PlaceOk, InCallerOk, OutCallerOk, InUserOk, OutUserOk, Sorted;
  }

  lemma {:induction false} RunLaunches(c: Config, s: State, actions: seq<Action>, t: State)
    requires Inv(c, s) && Launched(c, s) && Run(c, s, actions, t)
    ensures Launched(c, t)
    ensures NoneDead(s) && NoFailure(actions) ==> NoneDead(t)
    decreases |actions|
  {
    hide Inv, Enabled, Apply, Launched, NoneDead;
    if actions != [] {
      var next := Apply(c, s, actions[0]);
      ActionKeeps(c, s, actions[0]);
      ActionLaunches(c, s, actions[0]);
      RunLaunches(c, next, actions[1..], t);
      if NoFailure(actions) {
        assert forall i :: 0 <= i < |actions[1..]| ==> actions[1..][i] == actions[i + 1];
        assert NoFailure(actions[1..]);
      }
    }
  }

  /** In every reachable state as many workers are launched as jobs are on their way, up to the processors. */
  lemma WorkersLaunched(c: Config, actions: seq<Action>, s: State)
    requires Run(c, Init(c), actions, s)
    ensures |s.workers| == Min(c.procs, if s.sub.Launch? && s.sequence > 0 then s.sequence - 1 else s.sequence)
    ensures NoFailure(actions) ==> forall w: nat :: w < |s.workers| ==> Alive(s, w)
  {
    hide Run;
    InitInv(c);
    RunLaunches(c, Init(c), actions, s);
  }

  /** With a processor and no worker failing at its start, every run that can go no further has delivered
      everything. */
  lemma AlwaysDelivers(c: Config, actions: seq<Action>, s: State)
    requires c.procs > 0 && NoFailure(actions) && Run(c, Init(c), actions, s) && !CanMove(c, s)
    ensures s.writer.Exited? && s.calls == Expected(c, |c.frames|)
  {
    hide Run, CanMove, PoolsOk, NoFailure, InCallerOk, OutCallerOk, InUserOk, OutUserOk, Expected;
    WorkersLaunched(c, actions, s);
    DeliversAll(c, actions, s);
    if s.workers != [] {
      assert Alive(s, 0);
    } else {
      InitInv(c);
      RunKeeps(c, Init(c), actions, s);
      RunLaunches(c, Init(c), actions, s);
      NoneLaunched(c, s);
      assert false;
    }
  }

  lemma NoneLaunched(c: Config, s: State)
    requires Inv(c, s) && c.procs > 0 && Launched(c, s) && s.workers == []
    ensures CanMove(c, s)
  {
    hide PoolsOk, InCallerOk, OutCallerOk, InUserOk, OutUserOk;
    if s.sub.Launch? {
      assert Enabled(c, s, LaunchWorker);
    } else {
      SubmitterCanMove(c, s);
    }
  }

  /** Backpressure: at most 2 * procs + 2 frames are queued or being read at any moment. */
  lemma Backpressure(c: Config, actions: seq<Action>, s: State)
    requires Run(c, Init(c), actions, s)
    ensures s.inPool.Made() <= 2 * c.procs + 2
    ensures |s.decodeList| <= 2 * c.procs + 3
  {
    InitInv(c);
    RunKeeps(c, Init(c), actions, s);
    var n := |s.decodeList|;
    if n > 0 {
      assert WaitingOk(c, s, n - 1);
      forall i: nat | i < n - 1 ensures s.decodeList[i].inp.Some? { assert WaitingOk(c, s, i); }
      var xs: seq<nat> := seq(n - 1, i requires 0 <= i < n - 1 => s.decodeList[i].inp.value);
      forall i, j | 0 <= i < j < |xs| ensures xs[i] != xs[j] {
        assert WaitingOk(c, s, i) && WaitingOk(c, s, j);
      }
      forall i | 0 <= i < |xs| ensures xs[i] < s.inPool.Made() { assert WaitingOk(c, s, i); }
      DistinctBelow(xs, s.inPool.Made());
    }
  }
}
