/** The parallel DST decoder (dst_decoder.c) as a transition system: one submitter, the decode
    workers it launches and one writer, sharing the job lists and the two buffer pools.

    An action is one lock region, one step inside a pool call, or one piece of thread-local
    work. A run is any sequence of enabled actions. */
module Pipeline {
  import opened Bits
  import opened BufferPool
  import opened JobLists

  datatype Decoded = Decoded(error: int, data: Bytes)

  datatype Config = Config(
    procs: nat,                 // processor_count()
    frames: seq<Bytes>,         // the frames handed to dst_decoder_decode, in order
    decode: Bytes -> Decoded,   // DST_FramDSTDecode
    reports: bool)              // an error callback is installed

  datatype Call = ErrorCall(nr: nat, error: int) | FrameCall(data: Bytes)

  datatype SubmitPc = NextFrame | GetInput | Launch(job: Job) | Put(job: Job) | Joining

  datatype WorkerPc = Starting | Dead | Idle | GetOutput(job: Job) | Inserting(job: Job)

  datatype WriterPc = WaitFor(nr: nat) | Report(job: Job) | Next(nr: nat, more: bool)
                    | CheckDecode | CheckWrite | Exited

  /** Where a submitted job is; a history variable that the source does not store. */
  datatype Place = InDecode | AtWorker(index: nat) | InWrite | Gone

  datatype State = State(
    sequence: nat,
    decodeHave: int, decodeList: seq<Job>,
    writeFirst: int, writeList: seq<Job>,
    inPool: Pool, outPool: Pool,
    sub: SubmitPc, workers: seq<WorkerPc>, writer: WriterPc,
    calls: seq<Call>,
    place: seq<Place>)

  function InCap(c: Config): nat { 2 * c.procs + 2 }

  function Init(c: Config): State {
    State(0, 0, [], -1, [], Create(InCap(c)), Create(-1), NextFrame, [], WaitFor(0), [], [])
  }

  datatype Action =
    | Begin | Fill | LaunchWorker | PutJob
    | StartWorker(w: nat, ok: bool)
    | TakeJob(w: nat) | Decode(w: nat) | InsertJob(w: nat)
    | TakeWrite | ReportJob | Advance | VerifyDecode | VerifyWrite
    | InStep(t: ThreadId, a: PoolAction) | OutStep(t: ThreadId, a: PoolAction)

  predicate GotSpace(p: Pool, t: ThreadId) {
    t in p.ops && p.ops[t].GetDone? && p.ops[t].space < |p.owner| && p.ops[t].space < |p.buf|
  }

  predicate Readable(p: Pool, x: Option<Space>) {
    x.Some? && x.value < |p.buf| && p.buf[x.value].Some? && x.value < |p.owner|
  }

  predicate IsWorker(s: State, w: nat) { w < |s.workers| }

  predicate Enabled(c: Config, s: State, a: Action) {
    match a
    case Begin => s.sub.NextFrame?
    case Fill => s.sub.GetInput? && s.sequence < |c.frames| && GotSpace(s.inPool, Submitter)
    case LaunchWorker => s.sub.Launch?
    case PutJob => s.sub.Put?
    case StartWorker(w, _) => IsWorker(s, w) && s.workers[w].Starting?
    case TakeJob(w) => IsWorker(s, w) && CanTake(s, w)
    case Decode(w) => IsWorker(s, w) && CanDecode(s, w)
    case InsertJob(w) => IsWorker(s, w) && CanInsert(s, w)
    case TakeWrite => CanTakeWrite(s)
    case ReportJob => CanReport(s)
    case Advance => s.writer.Next? && Writer !in s.outPool.ops
    case VerifyDecode => s.writer.CheckDecode?
    case VerifyWrite => s.writer.CheckWrite?
    case InStep(t, pa) => CanStep(s.inPool, t, pa)
    case OutStep(t, pa) => CanStep(s.outPool, t, pa)
  }

  function Apply(c: Config, s: State, a: Action): State
    requires Enabled(c, s, a)
  {
    match a
    case Begin => DoBegin(c, s)
    case Fill => DoFill(c, s)
    case LaunchWorker => DoLaunch(c, s)
    case PutJob => DoPut(s)
    case StartWorker(w, ok) => s.(workers := s.workers[w := if ok then Idle else Dead])
    case TakeJob(w) => DoTake(s, w)
    case Decode(w) => DoDecode(c, s, w)
    case InsertJob(w) => DoInsert(s, w)
    case TakeWrite => DoTakeWrite(s)
    case ReportJob => DoReport(c, s)
    case Advance => s.(writer := if s.writer.more then WaitFor(s.writer.nr + 1) else CheckDecode)
    case VerifyDecode => s.(writer := CheckWrite)
    case VerifyWrite => s.(writer := Exited, writeFirst := -1)
    case InStep(t, pa) => s.(inPool := Step(s.inPool, t, pa))
    case OutStep(t, pa) => s.(outPool := Step(s.outPool, t, pa))
  }

  /* The submitter: dst_decoder_decode for each frame, then finish_write_job. */

  function DoBegin(c: Config, s: State): State {
    if s.sequence < |c.frames|
    then s.(sub := GetInput, inPool := EnterGet(s.inPool, Submitter))
    else s.(sub := Launch(Job(s.sequence, false, None, None, 0)), sequence := s.sequence + 1)
  }

  function DoFill(c: Config, s: State): State
    requires s.sequence < |c.frames| && GotSpace(s.inPool, Submitter)
  {
    s.(sub := Launch(Job(s.sequence, true, Some(s.inPool.ops[Submitter].space), None, 0)),
       inPool := Claim(s.inPool, Submitter, s.sequence, c.frames[s.sequence]),
       sequence := s.sequence + 1)
  }

  function DoLaunch(c: Config, s: State): State
    requires s.sub.Launch?
  {
    s.(sub := Put(s.sub.job),
       workers := if |s.workers| < c.procs then s.workers + [Starting] else s.workers)
  }

  function DoPut(s: State): State
    requires s.sub.Put?
  {
    s.(sub := if s.sub.job.more then NextFrame else Joining,
       decodeList := s.decodeList + [s.sub.job], decodeHave := s.decodeHave + 1,
       place := s.place + [InDecode])
  }

  /* The workers: decode_thread. */

  predicate CanTake(s: State, w: nat)
    requires IsWorker(s, w)
  {
    s.workers[w].Idle? && s.decodeHave != 0 && s.decodeList != [] && s.decodeList[0].nr < |s.place|
  }

  function DoTake(s: State, w: nat): State
    requires IsWorker(s, w) && CanTake(s, w)
  {
    var job := s.decodeList[0];
    s.(decodeList := s.decodeList[1..], decodeHave := s.decodeHave - 1,
       place := s.place[job.nr := AtWorker(w)],
       workers := s.workers[w := if job.more then GetOutput(job) else Inserting(job)],
       outPool := if job.more then EnterGet(s.outPool, Worker(w)) else s.outPool)
  }

  predicate CanDecode(s: State, w: nat)
    requires IsWorker(s, w)
  {
    s.workers[w].GetOutput? && GotSpace(s.outPool, Worker(w)) && Readable(s.inPool, s.workers[w].job.inp)
  }

  function DoDecode(c: Config, s: State, w: nat): State
    requires IsWorker(s, w) && CanDecode(s, w)
  {
    var job := s.workers[w].job;
    var d := c.decode(s.inPool.buf[job.inp.value].value);
    s.(workers := s.workers[w := Inserting(job.(out := Some(s.outPool.ops[Worker(w)].space), error := d.error))],
       outPool := Claim(s.outPool, Worker(w), job.nr, d.data),
       inPool := EnterDrop(s.inPool, Worker(w), job.inp.value))
  }

  predicate CanInsert(s: State, w: nat)
    requires IsWorker(s, w)
  {
    s.workers[w].Inserting? && Worker(w) !in s.inPool.ops && s.workers[w].job.nr < |s.place|
  }

  function DoInsert(s: State, w: nat): State
    requires IsWorker(s, w) && CanInsert(s, w)
  {
    var job := s.workers[w].job;
    s.(writeList := Insert(s.writeList, job), writeFirst := First(Insert(s.writeList, job)),
       workers := s.workers[w := Idle], place := s.place[job.nr := InWrite])
  }

  /* The writer: write_thread. */

  predicate CanTakeWrite(s: State) {
    s.writer.WaitFor? && s.writeFirst == s.writer.nr && s.writeList != [] && s.writeList[0].nr < |s.place|
  }

  function DoTakeWrite(s: State): State
    requires CanTakeWrite(s)
  {
    s.(writeList := s.writeList[1..], writeFirst := First(s.writeList[1..]),
       writer := Report(s.writeList[0]), place := s.place[s.writeList[0].nr := Gone])
  }

  predicate CanReport(s: State) {
    s.writer.Report? && (s.writer.job.more ==> Readable(s.outPool, s.writer.job.out))
  }

  function ErrorCalls(c: Config, nr: nat, error: int): seq<Call> {
    if error != 0 && c.reports then [ErrorCall(nr, error)] else []
  }

  function DoReport(c: Config, s: State): State
    requires CanReport(s)
  {
    var job := s.writer.job;
    if job.more
    then s.(calls := s.calls + ErrorCalls(c, job.nr, job.error) + [FrameCall(s.outPool.buf[job.out.value].value)],
            writer := Next(job.nr, true),
            outPool := EnterDrop(s.outPool, Writer, job.out.value))
    else s.(calls := s.calls + ErrorCalls(c, job.nr, job.error), writer := Next(job.nr, false))
  }

  /** The callbacks for the first k frames, in submission order. */
  function Expected(c: Config, k: nat): seq<Call>
    requires k <= |c.frames|
  {
    if k == 0 then []
    else
      var d := c.decode(c.frames[k - 1]);
      Expected(c, k - 1) + ErrorCalls(c, k - 1, d.error) + [FrameCall(d.data)]
  }

  /** Jobs the writer has taken off the write list. */
  function Written(c: Config, s: State): nat {
    match s.writer
    case WaitFor(k) => k
    case Report(job) => job.nr + 1
    case Next(k, _) => k + 1
    case _ => |c.frames| + 1
  }

  /** Frames whose callbacks have been made. */
  function Reported(c: Config, s: State): nat {
    match s.writer
    case WaitFor(k) => k
    case Report(job) => job.nr
    case Next(k, more) => if more then k + 1 else k
    case _ => |c.frames|
  }

  predicate Busy(w: WorkerPc) { w.GetOutput? || w.Inserting? }

  /** A job that has not been decoded: its input space is its own and holds its frame. */
  ghost predicate Fresh(c: Config, p: Pool, job: Job) {
    && job.nr <= |c.frames| && (job.more <==> job.nr < |c.frames|)
    && job.out.None? && job.error == 0
    && (job.more ==>
          job.inp.Some? && Shape(p) && job.inp.value < p.Made()
          && p.owner[job.inp.value] == User(job.nr)
          && p.buf[job.inp.value] == Some(c.frames[job.nr]))
  }

  /** A job that has been decoded: its output space is its own and holds its frame decoded. */
  ghost predicate Finished(c: Config, p: Pool, job: Job) {
    && job.nr <= |c.frames| && (job.more <==> job.nr < |c.frames|)
    && (!job.more ==> job.error == 0)
    && (job.more ==>
          job.out.Some? && Shape(p) && job.out.value < p.Made()
          && p.owner[job.out.value] == User(job.nr)
          && job.error == c.decode(c.frames[job.nr]).error
          && p.buf[job.out.value] == Some(c.decode(c.frames[job.nr]).data))
  }

  ghost predicate SubOk(c: Config, s: State) {
    && |s.workers| <= c.procs
    && (s.sub.GetInput? ==> Submitter in s.inPool.ops && !IsDrop(s.inPool.ops[Submitter]))
    && match s.sub
       case NextFrame => |s.place| == s.sequence <= |c.frames|
       case GetInput => |s.place| == s.sequence < |c.frames|
       case Launch(job) => Fresh(c, s.inPool, job) && job.nr == |s.place| && s.sequence == job.nr + 1
       case Put(job) => Fresh(c, s.inPool, job) && job.nr == |s.place| && s.sequence == job.nr + 1
       case Joining => |s.place| == |c.frames| + 1
  }

  /** Jobs that have left the decode list. */
  function Taken(s: State): int { |s.place| - |s.decodeList| }

  ghost predicate WaitingOk(c: Config, s: State, i: nat)
    requires i < |s.decodeList|
  {
    Fresh(c, s.inPool, s.decodeList[i]) && s.decodeList[i].nr == Taken(s) + i
  }

  ghost predicate At(s: State, k: nat, p: Place) {
    k < |s.place| && s.place[k] == p
  }

  ghost predicate IsDrop(o: PoolOp) { o.DropEnter? || o.DropLocked? || o.DropListed? }

  ghost predicate WorkerOk(c: Config, s: State, i: nat)
    requires i < |s.workers|
  {
    match s.workers[i]
    case GetOutput(job) =>
      && Fresh(c, s.inPool, job) && job.more && At(s, job.nr, AtWorker(i))
      && Worker(i) in s.outPool.ops && !IsDrop(s.outPool.ops[Worker(i)])
      && Worker(i) !in s.inPool.ops
    case Inserting(job) =>
      && Finished(c, s.outPool, job) && At(s, job.nr, AtWorker(i))
      && Worker(i) !in s.outPool.ops
      && (Worker(i) in s.inPool.ops ==> IsDrop(s.inPool.ops[Worker(i)]))
    case _ => Worker(i) !in s.outPool.ops && Worker(i) !in s.inPool.ops
  }

  ghost predicate WrittenOk(c: Config, s: State, i: nat)
    requires i < |s.writeList|
  {
    Finished(c, s.outPool, s.writeList[i]) && At(s, s.writeList[i].nr, InWrite)
  }

  /** Every submitted job is in exactly one place, and that place has it. */
  ghost predicate PlaceOk(c: Config, s: State, k: nat)
    requires k < |s.place|
  {
    match s.place[k]
    case InDecode => Taken(s) <= k && Written(c, s) <= k
    case AtWorker(i) => Written(c, s) <= k < Taken(s) && i < |s.workers| && Busy(s.workers[i]) && s.workers[i].job.nr == k
    case InWrite => Written(c, s) <= k < Taken(s) && Has(s.writeList, k)
    case Gone => k < Written(c, s) && k < Taken(s)
  }

  ghost predicate WriterOk(c: Config, s: State) {
    && (match s.writer
        case WaitFor(k) => k <= |c.frames|
        case Report(job) => Finished(c, s.outPool, job)
        case Next(k, more) => k <= |c.frames| && (more <==> k < |c.frames|)
        case _ => true)
    && Written(c, s) <= |s.place|
    && Reported(c, s) <= |c.frames|
    && s.calls == Expected(c, Reported(c, s))
    && (Writer in s.outPool.ops ==> s.writer.Next? && IsDrop(s.outPool.ops[Writer]))
  }

  ghost predicate InCallerOk(s: State, t: ThreadId) {
    match t
    case Submitter => s.sub.GetInput?
    case Worker(i) => i < |s.workers|
    case Writer => false
  }

  ghost predicate OutCallerOk(s: State, t: ThreadId) {
    match t
    case Submitter => false
    case Worker(i) => i < |s.workers|
    case Writer => true
  }

  /** The job that still holds input space x. */
  ghost predicate HoldsInput(s: State, k: nat, x: Space) {
    || ((s.sub.Launch? || s.sub.Put?) && s.sub.job.nr == k && s.sub.job.inp == Some(x))
    || (At(s, k, InDecode) && 0 <= k - Taken(s) < |s.decodeList| && s.decodeList[k - Taken(s)].inp == Some(x))
    || (k < |s.place| && s.place[k].AtWorker? && s.place[k].index < |s.workers|
        && s.workers[s.place[k].index].GetOutput? && s.workers[s.place[k].index].job.inp == Some(x))
  }

  ghost predicate HasOutput(l: seq<Job>, k: nat, x: Space) {
    exists job :: job in l && job.nr == k && job.out == Some(x)
  }

  /** The job that holds output space x. */
  ghost predicate HoldsOutput(s: State, k: nat, x: Space) {
    || (s.writer.Report? && s.writer.job.nr == k && s.writer.job.out == Some(x))
    || HasOutput(s.writeList, k, x)
    || (k < |s.place| && s.place[k].AtWorker? && s.place[k].index < |s.workers|
        && s.workers[s.place[k].index].Inserting? && s.workers[s.place[k].index].job.out == Some(x))
  }

  ghost predicate InUserOk(c: Config, s: State, x: Space)
    requires x < |s.inPool.owner|
  {
    s.inPool.owner[x].User? ==> s.inPool.owner[x].job < |c.frames| && HoldsInput(s, s.inPool.owner[x].job, x)
  }

  ghost predicate OutUserOk(c: Config, s: State, x: Space)
    requires x < |s.outPool.owner|
  {
    s.outPool.owner[x].User? ==> s.outPool.owner[x].job < |c.frames| && HoldsOutput(s, s.outPool.owner[x].job, x)
  }

  /** The part of the invariant that does not look inside the pools. */
  ghost predicate Rest(c: Config, s: State) {
    && Shape(s.inPool) && Shape(s.outPool)
    && SubOk(c, s) && WriterOk(c, s)
    && s.decodeHave == |s.decodeList| <= |s.place|
    && Sorted(s.writeList) && s.writeFirst == First(s.writeList)
    && (forall i: nat {:trigger WaitingOk(c, s, i)} :: i < |s.decodeList| ==> WaitingOk(c, s, i))
    && (forall i: nat {:trigger WorkerOk(c, s, i)} :: i < |s.workers| ==> WorkerOk(c, s, i))
    && (forall i: nat {:trigger WrittenOk(c, s, i)} :: i < |s.writeList| ==> WrittenOk(c, s, i))
    && (forall k: nat {:trigger PlaceOk(c, s, k)} :: k < |s.place| ==> PlaceOk(c, s, k))
    && (forall t {:trigger InCallerOk(s, t)} :: t in s.inPool.ops ==> InCallerOk(s, t))
    && (forall t {:trigger OutCallerOk(s, t)} :: t in s.outPool.ops ==> OutCallerOk(s, t))
    && (forall x: Space {:trigger InUserOk(c, s, x)} :: x < |s.inPool.owner| ==> InUserOk(c, s, x))
    && (forall x: Space {:trigger OutUserOk(c, s, x)} :: x < |s.outPool.owner| ==> OutUserOk(c, s, x))
  }

  ghost predicate PoolsOk(c: Config, s: State) {
    PoolInv(s.inPool, InCap(c)) && PoolInv(s.outPool, -1)
  }

  /** What every action of every thread keeps. */
  ghost predicate Inv(c: Config, s: State) {
    PoolsOk(c, s) && Rest(c, s)
  }

  lemma InitInv(c: Config)
    ensures Inv(c, Init(c))
  {
    CreateInv(InCap(c));
    CreateInv(-1);
  }

  lemma BeginKeeps(c: Config, s: State)
    requires Rest(c, s) && s.sub.NextFrame?
    ensures Rest(c, DoBegin(c, s))
  {
    hide Sorted, First, HasOutput, Has;
    var t := DoBegin(c, s);
    forall i: nat | i < |t.decodeList| ensures WaitingOk(c, t, i) { assert WaitingOk(c, s, i); }
    forall i: nat | i < |t.workers| ensures WorkerOk(c, t, i) { assert WorkerOk(c, s, i); }
    forall i: nat | i < |t.writeList| ensures WrittenOk(c, t, i) { assert WrittenOk(c, s, i); }
    forall k: nat | k < |t.place| ensures PlaceOk(c, t, k) { assert PlaceOk(c, s, k); }
    forall u | u in t.inPool.ops ensures InCallerOk(t, u) { if u in s.inPool.ops { assert InCallerOk(s, u); } }
    forall u | u in t.outPool.ops ensures OutCallerOk(t, u) { assert OutCallerOk(s, u); }
    forall x: Space | x < |t.inPool.owner| ensures InUserOk(c, t, x) { assert InUserOk(c, s, x); }
    forall x: Space | x < |t.outPool.owner| ensures OutUserOk(c, t, x) { assert OutUserOk(c, s, x); }
  }

  lemma FillKeeps(c: Config, s: State)
    requires Rest(c, s) && s.sub.GetInput? && GotSpace(s.inPool, Submitter)
    requires s.inPool.owner[s.inPool.ops[Submitter].space] == InCall(Submitter)
    ensures Rest(c, DoFill(c, s))
  {
    var t := DoFill(c, s);
    forall i: nat | i < |t.decodeList| ensures WaitingOk(c, t, i) { assert WaitingOk(c, s, i); }
    forall i: nat | i < |t.workers| ensures WorkerOk(c, t, i) { assert WorkerOk(c, s, i); }
    forall i: nat | i < |t.writeList| ensures WrittenOk(c, t, i) { assert WrittenOk(c, s, i); }
    forall k: nat | k < |t.place| ensures PlaceOk(c, t, k) { assert PlaceOk(c, s, k); }
    forall u | u in t.inPool.ops ensures InCallerOk(t, u) { assert InCallerOk(s, u); }
    forall u | u in t.outPool.ops ensures OutCallerOk(t, u) { assert OutCallerOk(s, u); }
    forall x: Space | x < |t.inPool.owner| ensures InUserOk(c, t, x) { assert InUserOk(c, s, x); }
    forall x: Space | x < |t.outPool.owner| ensures OutUserOk(c, t, x) { assert OutUserOk(c, s, x); }
  }

  lemma LaunchKeeps(c: Config, s: State)
    requires Rest(c, s) && s.sub.Launch?
    ensures Rest(c, DoLaunch(c, s))
  {
    var t := DoLaunch(c, s);
    forall i: nat | i < |t.decodeList| ensures WaitingOk(c, t, i) { assert WaitingOk(c, s, i); }
    forall i: nat | i < |t.workers| ensures WorkerOk(c, t, i) { 
      if i < |s.workers| {
        assert WorkerOk(c, s, i);
      } else {
        assert Worker(i) in s.inPool.ops ==> InCallerOk(s, Worker(i));
        assert Worker(i) in s.outPool.ops ==> OutCallerOk(s, Worker(i));
      }
    }
    forall i: nat | i < |t.writeList| ensures WrittenOk(c, t, i) { assert WrittenOk(c, s, i); }
    forall k: nat | k < |t.place| ensures PlaceOk(c, t, k) { assert PlaceOk(c, s, k); }
    forall u | u in t.inPool.ops ensures InCallerOk(t, u) { assert InCallerOk(s, u); }
    forall u | u in t.outPool.ops ensures OutCallerOk(t, u) { assert OutCallerOk(s, u); }
    forall x: Space | x < |t.inPool.owner| ensures InUserOk(c, t, x) { assert InUserOk(c, s, x); }
    forall x: Space | x < |t.outPool.owner| ensures OutUserOk(c, t, x) { assert OutUserOk(c, s, x); }
  }

  lemma PutKeeps(c: Config, s: State)
    requires Rest(c, s) && s.sub.Put?
    ensures Rest(c, DoPut(s))
  {
    var t := DoPut(s);
    forall i: nat | i < |t.decodeList| ensures WaitingOk(c, t, i) { if i < |s.decodeList| { assert WaitingOk(c, s, i); } }
    forall i: nat | i < |t.workers| ensures WorkerOk(c, t, i) { assert WorkerOk(c, s, i); }
    forall i: nat | i < |t.writeList| ensures WrittenOk(c, t, i) { assert WrittenOk(c, s, i); }
    forall k: nat | k < |t.place| ensures PlaceOk(c, t, k) { if k < |s.place| { assert PlaceOk(c, s, k); } }
    forall u | u in t.inPool.ops ensures InCallerOk(t, u) { assert InCallerOk(s, u); }
    forall u | u in t.outPool.ops ensures OutCallerOk(t, u) { assert OutCallerOk(s, u); }
    forall x: Space | x < |t.inPool.owner| ensures InUserOk(c, t, x) { assert InUserOk(c, s, x); }
    forall x: Space | x < |t.outPool.owner| ensures OutUserOk(c, t, x) { assert OutUserOk(c, s, x); }
  }

  lemma StartKeeps(c: Config, s: State, w: nat, ok: bool)
    requires Rest(c, s) && w < |s.workers| && s.workers[w].Starting?
    ensures Rest(c, s.(workers := s.workers[w := if ok then Idle else Dead]))
  {
    var t := s.(workers := s.workers[w := if ok then Idle else Dead]);
    forall i: nat | i < |t.decodeList| ensures WaitingOk(c, t, i) { assert WaitingOk(c, s, i); }
    forall i: nat | i < |t.workers| ensures WorkerOk(c, t, i) { assert WorkerOk(c, s, i); }
    forall i: nat | i < |t.writeList| ensures WrittenOk(c, t, i) { assert WrittenOk(c, s, i); }
    forall k: nat | k < |t.place| ensures PlaceOk(c, t, k) { assert PlaceOk(c, s, k); }
    forall u | u in t.inPool.ops ensures InCallerOk(t, u) { assert InCallerOk(s, u); }
    forall u | u in t.outPool.ops ensures OutCallerOk(t, u) { assert OutCallerOk(s, u); }
    forall x: Space | x < |t.inPool.owner| ensures InUserOk(c, t, x) { assert InUserOk(c, s, x); }
    forall x: Space | x < |t.outPool.owner| ensures OutUserOk(c, t, x) { assert OutUserOk(c, s, x); }
  }

  lemma TakeJobs(c: Config, s: State, w: nat)
    requires Rest(c, s) && IsWorker(s, w) && CanTake(s, w)
    ensures forall i: nat {:trigger WaitingOk(c, DoTake(s, w), i)} :: i < |DoTake(s, w).decodeList| ==> WaitingOk(c, DoTake(s, w), i)
    ensures forall i: nat {:trigger WorkerOk(c, DoTake(s, w), i)} :: i < |s.workers| ==> WorkerOk(c, DoTake(s, w), i)
    ensures forall k: nat {:trigger PlaceOk(c, DoTake(s, w), k)} :: k < |s.place| ==> PlaceOk(c, DoTake(s, w), k)
  {
    hide InUserOk, OutUserOk, InCallerOk, OutCallerOk, Expected;
    var t := DoTake(s, w);
    assert WaitingOk(c, s, 0) && PlaceOk(c, s, s.decodeList[0].nr) && WorkerOk(c, s, w);
    forall i: nat | i < |t.decodeList| ensures WaitingOk(c, t, i) { assert WaitingOk(c, s, i + 1); }
    forall i: nat | i < |t.workers| ensures WorkerOk(c, t, i) { assert WorkerOk(c, s, i); }
    forall k: nat | k < |t.place| ensures PlaceOk(c, t, k) { assert PlaceOk(c, s, k); }
  }

  lemma TakeUsers(c: Config, s: State, w: nat)
    requires Rest(c, s) && IsWorker(s, w) && CanTake(s, w)
    ensures forall x: Space {:trigger InUserOk(c, DoTake(s, w), x)} :: x < |s.inPool.owner| ==> InUserOk(c, DoTake(s, w), x)
    ensures forall x: Space {:trigger OutUserOk(c, DoTake(s, w), x)} ::
              x < |DoTake(s, w).outPool.owner| ==> OutUserOk(c, DoTake(s, w), x)
  {
    hide WrittenOk, InCallerOk, OutCallerOk, Expected;
    var t := DoTake(s, w);
    assert WaitingOk(c, s, 0) && PlaceOk(c, s, s.decodeList[0].nr) && WorkerOk(c, s, w);
    forall x: Space | x < |t.inPool.owner| ensures InUserOk(c, t, x) { assert InUserOk(c, s, x); }
    forall x: Space | x < |t.outPool.owner| ensures OutUserOk(c, t, x) { assert OutUserOk(c, s, x); }
  }

  lemma TakeKeeps(c: Config, s: State, w: nat)
    requires Rest(c, s) && IsWorker(s, w) && CanTake(s, w)
    ensures Rest(c, DoTake(s, w))
  {
    hide HoldsInput, HoldsOutput, HasOutput, InUserOk, OutUserOk;
    hide InUserOk, OutUserOk;
    var t := DoTake(s, w);
    assert WaitingOk(c, s, 0) && WorkerOk(c, s, w) && PlaceOk(c, s, s.decodeList[0].nr);
    TakeJobs(c, s, w);
    TakeUsers(c, s, w);
    forall i: nat | i < |t.writeList| ensures WrittenOk(c, t, i) { assert WrittenOk(c, s, i); }
    forall u | u in t.inPool.ops ensures InCallerOk(t, u) { assert InCallerOk(s, u); }
    forall u | u in t.outPool.ops ensures OutCallerOk(t, u) { if u != Worker(w) { assert OutCallerOk(s, u); } }
  }

  lemma DecodeWorkers(c: Config, s: State, w: nat)
    requires Rest(c, s) && IsWorker(s, w) && CanDecode(s, w)
    requires s.outPool.owner[s.outPool.ops[Worker(w)].space] == InCall(Worker(w))
    ensures forall i: nat {:trigger WorkerOk(c, DoDecode(c, s, w), i)} :: i < |s.workers| ==> WorkerOk(c, DoDecode(c, s, w), i)
  {
    var t := DoDecode(c, s, w);
    assert WorkerOk(c, s, w) && PlaceOk(c, s, s.workers[w].job.nr);
    forall i: nat | i < |t.workers| ensures WorkerOk(c, t, i) { assert WorkerOk(c, s, i); }
  }

  lemma DecodeUsers(c: Config, s: State, w: nat)
    requires Rest(c, s) && IsWorker(s, w) && CanDecode(s, w)
    requires s.outPool.owner[s.outPool.ops[Worker(w)].space] == InCall(Worker(w))
    ensures forall x: Space {:trigger InUserOk(c, DoDecode(c, s, w), x)} :: x < |s.inPool.owner| ==> InUserOk(c, DoDecode(c, s, w), x)
    ensures forall x: Space {:trigger OutUserOk(c, DoDecode(c, s, w), x)} :: x < |s.outPool.owner| ==> OutUserOk(c, DoDecode(c, s, w), x)
  {
    var t := DoDecode(c, s, w);
    assert WorkerOk(c, s, w) && PlaceOk(c, s, s.workers[w].job.nr);
    forall x: Space | x < |t.inPool.owner| ensures InUserOk(c, t, x) { assert InUserOk(c, s, x); }
    forall x: Space | x < |t.outPool.owner| ensures OutUserOk(c, t, x) { assert OutUserOk(c, s, x); }
  }

  lemma DecodeKeeps(c: Config, s: State, w: nat)
    requires Rest(c, s) && IsWorker(s, w) && CanDecode(s, w)
    requires s.outPool.owner[s.outPool.ops[Worker(w)].space] == InCall(Worker(w))
    ensures Rest(c, DoDecode(c, s, w))
  {
    hide HoldsInput, HoldsOutput, HasOutput, InUserOk, OutUserOk;
    DecodeWorkers(c, s, w);
    DecodeUsers(c, s, w);
    var t := DoDecode(c, s, w);
    assert WorkerOk(c, s, w) && PlaceOk(c, s, s.workers[w].job.nr);
    forall i: nat | i < |t.decodeList| ensures WaitingOk(c, t, i) { assert WaitingOk(c, s, i); assert PlaceOk(c, s, s.decodeList[i].nr); }
    forall i: nat | i < |t.writeList| ensures WrittenOk(c, t, i) { assert WrittenOk(c, s, i); }
    forall k: nat | k < |t.place| ensures PlaceOk(c, t, k) { assert PlaceOk(c, s, k); }
    forall u | u in t.inPool.ops ensures InCallerOk(t, u) { if u != Worker(w) { assert InCallerOk(s, u); } }
    forall u | u in t.outPool.ops ensures OutCallerOk(t, u) { assert OutCallerOk(s, u); }
  }

  lemma NotYetWritten(c: Config, s: State, k: nat)
    requires Rest(c, s) && k < |s.place| && !s.place[k].InWrite?
    ensures !Has(s.writeList, k)
  {
    forall i: nat | i < |s.writeList| ensures s.writeList[i].nr != k { assert WrittenOk(c, s, i); }
  }

  lemma InsertWorkers(c: Config, s: State, w: nat)
    requires Rest(c, s) && IsWorker(s, w) && CanInsert(s, w)
    ensures forall i: nat {:trigger WorkerOk(c, DoInsert(s, w), i)} :: i < |s.workers| ==> WorkerOk(c, DoInsert(s, w), i)
  {
    var t := DoInsert(s, w);
    var job := s.workers[w].job;
    assert WorkerOk(c, s, w) && PlaceOk(c, s, job.nr);
    NotYetWritten(c, s, job.nr);
    InsertSorts(s.writeList, job);
    forall i: nat | i < |t.workers| ensures WorkerOk(c, t, i) { assert WorkerOk(c, s, i); }
  }

  lemma InsertUsers(c: Config, s: State, w: nat)
    requires Rest(c, s) && IsWorker(s, w) && CanInsert(s, w)
    ensures forall x: Space {:trigger InUserOk(c, DoInsert(s, w), x)} :: x < |s.inPool.owner| ==> InUserOk(c, DoInsert(s, w), x)
    ensures forall x: Space {:trigger OutUserOk(c, DoInsert(s, w), x)} :: x < |s.outPool.owner| ==> OutUserOk(c, DoInsert(s, w), x)
  {
    var t := DoInsert(s, w);
    var job := s.workers[w].job;
    assert WorkerOk(c, s, w) && PlaceOk(c, s, job.nr);
    NotYetWritten(c, s, job.nr);
    InsertSorts(s.writeList, job);
    forall x: Space | x < |t.inPool.owner| ensures InUserOk(c, t, x) { assert InUserOk(c, s, x); }
    forall x: Space | x < |t.outPool.owner| ensures OutUserOk(c, t, x) {
      assert OutUserOk(c, s, x);
      if s.outPool.owner[x].User? && HasOutput(s.writeList, s.outPool.owner[x].job, x) {
        var j :| j in s.writeList && j.nr == s.outPool.owner[x].job && j.out == Some(x);
        assert j in t.writeList;
      } else if s.outPool.owner[x].User? && s.outPool.owner[x].job < |s.place| {
        assert PlaceOk(c, s, s.outPool.owner[x].job);
        assert job in t.writeList;
      }
    }
  }

  lemma InsertWritten(c: Config, s: State, w: nat)
    requires Rest(c, s) && IsWorker(s, w) && CanInsert(s, w)
    ensures var l := DoInsert(s, w).writeList; Sorted(l) && DoInsert(s, w).writeFirst == First(l)
    ensures forall k: nat :: Has(s.writeList, k) ==> Has(DoInsert(s, w).writeList, k)
    ensures Has(DoInsert(s, w).writeList, s.workers[w].job.nr)
    ensures forall i: nat {:trigger WrittenOk(c, DoInsert(s, w), i)} :: i < |DoInsert(s, w).writeList| ==> WrittenOk(c, DoInsert(s, w), i)
  {
    hide WaitingOk, SubOk, WriterOk, InCallerOk, OutCallerOk, InUserOk, OutUserOk, HoldsInput, HoldsOutput, HasOutput;
    var t := DoInsert(s, w);
    var job := s.workers[w].job;
    assert WorkerOk(c, s, w) && PlaceOk(c, s, job.nr);
    NotYetWritten(c, s, job.nr);
    InsertSorts(s.writeList, job);
    forall i: nat | i < |t.writeList| ensures WrittenOk(c, t, i) {
      if t.writeList[i] != job {
        var j: nat :| j < |s.writeList| && s.writeList[j] == t.writeList[i];
        assert WrittenOk(c, s, j);
      }
    }
  }

  lemma InsertKeeps(c: Config, s: State, w: nat)
    requires Rest(c, s) && IsWorker(s, w) && CanInsert(s, w)
    ensures Rest(c, DoInsert(s, w))
  {
    hide HoldsInput, HoldsOutput, HasOutput, InUserOk, OutUserOk, WrittenOk, Sorted, First, Has, Insert;
    InsertWorkers(c, s, w);
    InsertUsers(c, s, w);
    InsertWritten(c, s, w);
    var t := DoInsert(s, w);
    assert WorkerOk(c, s, w) && PlaceOk(c, s, s.workers[w].job.nr);
    forall i: nat | i < |t.decodeList| ensures WaitingOk(c, t, i) { assert WaitingOk(c, s, i); }
    forall k: nat | k < |t.place| ensures PlaceOk(c, t, k) { assert PlaceOk(c, s, k); }
    forall u | u in t.inPool.ops ensures InCallerOk(t, u) { assert InCallerOk(s, u); }
    forall u | u in t.outPool.ops ensures OutCallerOk(t, u) { assert OutCallerOk(s, u); }
  }

  lemma TakeWriteKeeps(c: Config, s: State)
    requires Rest(c, s) && CanTakeWrite(s)
    ensures Rest(c, DoTakeWrite(s))
  {
    var t := DoTakeWrite(s);
    var job := s.writeList[0];
    assert WrittenOk(c, s, 0) && PlaceOk(c, s, job.nr);
    assert s.writeList == [job] + t.writeList;
    forall i: nat | i < |t.decodeList| ensures WaitingOk(c, t, i) { assert WaitingOk(c, s, i); }
    forall i: nat | i < |t.workers| ensures WorkerOk(c, t, i) { assert WorkerOk(c, s, i); }
    forall i: nat | i < |t.writeList| ensures WrittenOk(c, t, i) { assert WrittenOk(c, s, i + 1); }
    forall k: nat | k < |t.place| ensures PlaceOk(c, t, k) { 
      assert PlaceOk(c, s, k);
      if k != job.nr && s.place[k].InWrite? {
        var j: nat :| j < |s.writeList| && s.writeList[j].nr == k;
        assert t.writeList[j - 1].nr == k;
      }
    }
    forall u | u in t.inPool.ops ensures InCallerOk(t, u) { assert InCallerOk(s, u); }
    forall u | u in t.outPool.ops ensures OutCallerOk(t, u) { assert OutCallerOk(s, u); }
    forall x: Space | x < |t.inPool.owner| ensures InUserOk(c, t, x) { assert InUserOk(c, s, x); }
    forall x: Space | x < |t.outPool.owner| ensures OutUserOk(c, t, x) { assert OutUserOk(c, s, x); }
  }

  lemma ReportKeeps(c: Config, s: State)
    requires Rest(c, s) && CanReport(s)
    ensures Rest(c, DoReport(c, s))
  {
    var t := DoReport(c, s);
    var job := s.writer.job;
    assert PlaceOk(c, s, job.nr);
    forall i: nat | i < |t.decodeList| ensures WaitingOk(c, t, i) { assert WaitingOk(c, s, i); }
    forall i: nat | i < |t.workers| ensures WorkerOk(c, t, i) { assert WorkerOk(c, s, i); }
    forall i: nat | i < |t.writeList| ensures WrittenOk(c, t, i) { assert WrittenOk(c, s, i); }
    forall k: nat | k < |t.place| ensures PlaceOk(c, t, k) { assert PlaceOk(c, s, k); }
    forall u | u in t.inPool.ops ensures InCallerOk(t, u) { assert InCallerOk(s, u); }
    forall u | u in t.outPool.ops ensures OutCallerOk(t, u) { if u != Writer { assert OutCallerOk(s, u); } }
    forall x: Space | x < |t.inPool.owner| ensures InUserOk(c, t, x) { assert InUserOk(c, s, x); }
    forall x: Space | x < |t.outPool.owner| ensures OutUserOk(c, t, x) { assert OutUserOk(c, s, x); }
  }

  /** A step inside a call: other threads' calls stay put, and a call only ends after a drop. */
  ghost predicate SameCalls(p: Pool, q: Pool, u: ThreadId) {
    && u in p.ops
    && (forall t :: t != u ==> (t in q.ops <==> t in p.ops))
    && (forall t :: t != u && t in p.ops ==> q.ops[t] == p.ops[t])
    && (u in q.ops ==> (IsDrop(q.ops[u]) <==> IsDrop(p.ops[u])))
    && (u !in q.ops ==> IsDrop(p.ops[u]))
  }

  lemma StepSameCalls(p: Pool, u: ThreadId, a: PoolAction)
    requires CanStep(p, u, a)
    ensures SameCalls(p, Step(p, u, a), u)
  {
  }

  lemma InStepUsers(c: Config, s: State, u: ThreadId, q: Pool)
    requires Rest(c, s) && Shape(q) && SameUsers(s.inPool, q) && SameCalls(s.inPool, q, u)
    ensures forall x: Space {:trigger InUserOk(c, s.(inPool := q), x)} :: x < |s.(inPool := q).inPool.owner| ==> InUserOk(c, s.(inPool := q), x)
    ensures forall x: Space {:trigger OutUserOk(c, s.(inPool := q), x)} :: x < |s.(inPool := q).outPool.owner| ==> OutUserOk(c, s.(inPool := q), x)
  {
    hide WaitingOk, WorkerOk, WrittenOk, PlaceOk, SubOk, WriterOk, InCallerOk, OutCallerOk, Sorted, First;
    var t := s.(inPool := q);
    forall x: Space | x < |t.inPool.owner| ensures InUserOk(c, t, x) { if q.owner[x].User? { assert InUserOk(c, s, x); } }
    forall x: Space | x < |t.outPool.owner| ensures OutUserOk(c, t, x) { assert OutUserOk(c, s, x); }
  }

  lemma InStepKeeps(c: Config, s: State, u: ThreadId, q: Pool)
    requires Rest(c, s) && Shape(q) && SameUsers(s.inPool, q) && SameCalls(s.inPool, q, u)
    ensures Rest(c, s.(inPool := q))
  {
    hide HoldsInput, HoldsOutput, HasOutput, InUserOk, OutUserOk, Sorted, First;
    InStepUsers(c, s, u, q);
    var t := s.(inPool := q);
    forall i: nat | i < |t.decodeList| ensures WaitingOk(c, t, i) { assert WaitingOk(c, s, i); }
    forall i: nat | i < |t.workers| ensures WorkerOk(c, t, i) { assert WorkerOk(c, s, i); }
    forall i: nat | i < |t.writeList| ensures WrittenOk(c, t, i) { assert WrittenOk(c, s, i); }
    forall k: nat | k < |t.place| ensures PlaceOk(c, t, k) { assert PlaceOk(c, s, k); }
    forall v | v in t.inPool.ops ensures InCallerOk(t, v) { assert InCallerOk(s, v); }
    forall v | v in t.outPool.ops ensures OutCallerOk(t, v) { assert OutCallerOk(s, v); }
  }

  lemma OutStepUsers(c: Config, s: State, u: ThreadId, q: Pool)
    requires Rest(c, s) && Shape(q) && SameUsers(s.outPool, q) && SameCalls(s.outPool, q, u)
    ensures forall x: Space {:trigger InUserOk(c, s.(outPool := q), x)} :: x < |s.(outPool := q).inPool.owner| ==> InUserOk(c, s.(outPool := q), x)
    ensures forall x: Space {:trigger OutUserOk(c, s.(outPool := q), x)} :: x < |s.(outPool := q).outPool.owner| ==> OutUserOk(c, s.(outPool := q), x)
  {
    hide WaitingOk, WorkerOk, WrittenOk, PlaceOk, SubOk, WriterOk, InCallerOk, OutCallerOk, Sorted, First;
    var t := s.(outPool := q);
    forall x: Space | x < |t.inPool.owner| ensures InUserOk(c, t, x) { assert InUserOk(c, s, x); }
    forall x: Space | x < |t.outPool.owner| ensures OutUserOk(c, t, x) { if q.owner[x].User? { assert OutUserOk(c, s, x); } }
  }

  lemma OutStepKeeps(c: Config, s: State, u: ThreadId, q: Pool)
    requires Rest(c, s) && Shape(q) && SameUsers(s.outPool, q) && SameCalls(s.outPool, q, u)
    ensures Rest(c, s.(outPool := q))
  {
    hide HoldsInput, HoldsOutput, HasOutput, InUserOk, OutUserOk, Sorted, First;
    OutStepUsers(c, s, u, q);
    var t := s.(outPool := q);
    forall i: nat | i < |t.decodeList| ensures WaitingOk(c, t, i) { assert WaitingOk(c, s, i); }
    forall i: nat | i < |t.workers| ensures WorkerOk(c, t, i) { assert WorkerOk(c, s, i); }
    forall i: nat | i < |t.writeList| ensures WrittenOk(c, t, i) { assert WrittenOk(c, s, i); }
    forall k: nat | k < |t.place| ensures PlaceOk(c, t, k) { assert PlaceOk(c, s, k); }
    forall v | v in t.inPool.ops ensures InCallerOk(t, v) { assert InCallerOk(s, v); }
    forall v | v in t.outPool.ops ensures OutCallerOk(t, v) { assert OutCallerOk(s, v); }
  }

}
