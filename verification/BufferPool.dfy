/** The pool of reusable buffers (buffer_pool.c) under the value-carrying locks of yarn.c.

    A lock is a mutex together with a number. Every possess .. twist/release region is one
    atomic step, except that get and drop nest two locks: the thread keeps the first one
    while it waits for the second, so the two acquisitions are separate steps here. A thread
    inside a call is recorded in `ops`, which says how far the call has come. */
module BufferPool {
  import opened Bits

  datatype ThreadId = Submitter | Worker(index: nat) | Writer

  /** A space is known by the order in which the pool made it. */
  type Space = nat

  datatype PoolOp =
    | GetEnter                 // get: about to possess pool->have
    | GetLocked                // get: holds have
    | GetHold(space: Space)    // get: popped the space, released have, still holds space->use
    | GetDone(space: Space)    // get: returned to the caller
    | DropEnter(space: Space)  // drop: about to possess space->use
    | DropLocked(space: Space) // drop: holds space->use
    | DropListed(space: Space) // drop: listed the space, still holds space->use

  /** Who may touch a space; a history variable that the source does not store. */
  datatype Owner = Listed | InCall(thread: ThreadId) | User(job: nat)

  datatype Pool = Pool(
    limit: int,                       // spaces that may still be made, -1 for no limit
    have: int,                        // value of the lock `have`
    free: seq<Space>,                 // the list at pool->head
    haveLock: Option<ThreadId>,       // holder of `have`
    use: seq<int>,                    // value of each space's lock `use`
    useLock: seq<Option<ThreadId>>,   // holder of each space's lock `use`
    buf: seq<Option<Bytes>>,          // contents of each space's buffer
    owner: seq<Owner>,
    ops: map<ThreadId, PoolOp>)
  {
    function Made(): nat { |use| }
  }

  function Create(limit: int): Pool {
    Pool(limit, 0, [], None, [], [], [], [], map[])
  }

  datatype PoolAction =
    | PossessHave   // get: possess have, waiting for a space when none may be made
    | PopSpace      // get: possess the head's use, unlink it, twist have BY -1
    | MakeSpace     // get: nothing listed, make a new space and release have
    | SetUse        // get: twist use TO 1
    | PossessUse    // drop: possess use
    | ListSpace     // drop: possess have, link the space at the head, twist have BY +1
    | LowerUse      // drop: twist use BY -1

  predicate CanStep(p: Pool, t: ThreadId, a: PoolAction) {
    t in p.ops &&
    match a
    case PossessHave => p.ops[t].GetEnter? && p.haveLock.None? && (p.limit != 0 || p.have != 0)
    case PopSpace => p.ops[t].GetLocked? && p.free != [] && p.free[0] < |p.useLock| && p.useLock[p.free[0]].None?
                     && p.free[0] < |p.owner|
    case MakeSpace => p.ops[t].GetLocked? && p.free == []
    case SetUse => p.ops[t].GetHold? && p.ops[t].space < |p.use| && p.ops[t].space < |p.useLock|
    case PossessUse => p.ops[t].DropEnter? && p.ops[t].space < |p.useLock| && p.useLock[p.ops[t].space].None?
    case ListSpace => p.ops[t].DropLocked? && p.ops[t].space < |p.use| && p.use[p.ops[t].space] == 1
                      && p.haveLock.None? && p.ops[t].space < |p.owner|
    case LowerUse => (p.ops[t].DropListed? || p.ops[t].DropLocked?) && p.ops[t].space < |p.use|
                     && (p.ops[t].DropLocked? ==> p.use[p.ops[t].space] != 1)
                     && p.ops[t].space < |p.useLock|
  }

  function Step(p: Pool, t: ThreadId, a: PoolAction): Pool
    requires CanStep(p, t, a)
  {
    match a
    case PossessHave => p.(haveLock := Some(t), ops := p.ops[t := GetLocked])
    case PopSpace =>
      var s := p.free[0];
      p.(free := p.free[1..], have := p.have - 1, haveLock := None,
         useLock := p.useLock[s := Some(t)], owner := p.owner[s := InCall(t)],
         ops := p.ops[t := GetHold(s)])
    case MakeSpace =>
      p.(limit := if p.limit > 0 then p.limit - 1 else p.limit, haveLock := None,
         use := p.use + [1], useLock := p.useLock + [None], buf := p.buf + [None],
         owner := p.owner + [InCall(t)], ops := p.ops[t := GetDone(|p.use|)])
    case SetUse =>
      var s := p.ops[t].space;
      p.(use := p.use[s := 1], useLock := p.useLock[s := None], ops := p.ops[t := GetDone(s)])
    case PossessUse =>
      var s := p.ops[t].space;
      p.(useLock := p.useLock[s := Some(t)], ops := p.ops[t := DropLocked(s)])
    case ListSpace =>
      var s := p.ops[t].space;
      p.(free := [s] + p.free, have := p.have + 1, owner := p.owner[s := Listed],
         ops := p.ops[t := DropListed(s)])
    case LowerUse =>
      var s := p.ops[t].space;
      p.(use := p.use[s := p.use[s] - 1], useLock := p.useLock[s := None], ops := p.ops - {t})
  }

  /* The caller's side of the calls. */

  function EnterGet(p: Pool, t: ThreadId): Pool {
    p.(ops := p.ops[t := GetEnter])
  }

  /** The call of get has returned: the space now belongs to the given job. */
  function Claim(p: Pool, t: ThreadId, job: nat, content: Bytes): Pool
    requires t in p.ops && p.ops[t].GetDone? && p.ops[t].space < |p.owner| && p.ops[t].space < |p.buf|
  {
    var s := p.ops[t].space;
    p.(owner := p.owner[s := User(job)], buf := p.buf[s := Some(content)], ops := p.ops - {t})
  }

  function EnterDrop(p: Pool, t: ThreadId, s: Space): Pool
    requires s < |p.owner|
  {
    p.(owner := p.owner[s := InCall(t)], ops := p.ops[t := DropEnter(s)])
  }

  predicate HasSpace(o: PoolOp) { !o.GetEnter? && !o.GetLocked? }

  predicate Shape(p: Pool) {
    |p.useLock| == |p.use| && |p.buf| == |p.use| && |p.owner| == |p.use|
  }

  /** The list of free spaces: counted by `have`, free of duplicates, exactly the spaces nobody uses. */
  ghost predicate ListOk(p: Pool)
    requires Shape(p)
  {
    && p.have == |p.free|
    && (forall i, j :: 0 <= i < j < |p.free| ==> p.free[i] != p.free[j])
    && (forall s :: s in p.free ==> s < p.Made() && p.owner[s] == Listed)
    && (forall s: Space :: s < p.Made() && p.owner[s] == Listed ==> s in p.free)
  }

  /** A limited pool that started at `cap` never makes more than `cap` spaces. */
  predicate LimitOk(p: Pool, cap: int) {
    if cap < 0 then p.limit == cap else 0 <= p.limit && p.limit + p.Made() == cap
  }

  ghost predicate OpOk(p: Pool, t: ThreadId)
    requires Shape(p) && t in p.ops
  {
    var o := p.ops[t];
    && (HasSpace(o) ==> o.space < p.Made())
    && match o
       case GetEnter => true
       case GetLocked => p.haveLock == Some(t) && (p.limit != 0 || p.free != [])
       case GetHold(s) => p.owner[s] == InCall(t) && p.useLock[s] == Some(t) && p.use[s] == 0
       case GetDone(s) => p.owner[s] == InCall(t) && p.useLock[s].None? && p.use[s] == 1
       case DropEnter(s) => p.owner[s] == InCall(t) && p.useLock[s].None? && p.use[s] == 1
       case DropLocked(s) => p.owner[s] == InCall(t) && p.useLock[s] == Some(t) && p.use[s] == 1
       case DropListed(s) => p.owner[s] == Listed && p.useLock[s] == Some(t) && p.use[s] == 1
  }

  ghost predicate SpaceOk(p: Pool, s: Space)
    requires Shape(p) && s < p.Made()
  {
    && (p.useLock[s].Some? ==>
          var t := p.useLock[s].value;
          t in p.ops && (p.ops[t] == GetHold(s) || p.ops[t] == DropLocked(s) || p.ops[t] == DropListed(s)))
    && match p.owner[s]
       case User(_) => p.useLock[s].None? && p.use[s] == 1
       case Listed =>
         if p.useLock[s].None? then p.use[s] == 0
         else p.use[s] == 1 && p.useLock[s].value in p.ops && p.ops[p.useLock[s].value] == DropListed(s)
       case InCall(t) => t in p.ops && HasSpace(p.ops[t]) && !p.ops[t].DropListed? && p.ops[t].space == s
  }

  /** What every step of every thread keeps. */
  ghost predicate PoolInv(p: Pool, cap: int) {
    && Shape(p)
    && ListOk(p)
    && LimitOk(p, cap)
    && (p.haveLock.Some? ==> p.haveLock.value in p.ops && p.ops[p.haveLock.value].GetLocked?)
    && (forall t :: t in p.ops ==> OpOk(p, t))
    && (forall s: Space :: s < p.Made() ==> SpaceOk(p, s))
  }

  /** Spaces that belong to jobs are untouched by the calls of any thread. */
  ghost predicate SameUsers(p: Pool, q: Pool)
    requires Shape(p) && Shape(q)
  {
    && p.Made() <= q.Made()
    && (forall s: Space {:trigger p.owner[s]} :: s < p.Made() && p.owner[s].User? ==> q.owner[s] == p.owner[s])
    && (forall s: Space {:trigger q.owner[s]} :: s < q.Made() && q.owner[s].User? ==> s < p.Made() && p.owner[s] == q.owner[s])
    && (forall s: Space {:trigger q.buf[s]} :: s < p.Made() ==> q.buf[s] == p.buf[s])
  }

  lemma CreateInv(cap: int)
    ensures PoolInv(Create(cap), cap)
  {
  }

  lemma PossessHaveKeeps(p: Pool, cap: int, t: ThreadId)
    requires PoolInv(p, cap) && CanStep(p, t, PossessHave)
    ensures PoolInv(Step(p, t, PossessHave), cap)
  {
    var q := Step(p, t, PossessHave);
    forall u | u in q.ops ensures OpOk(q, u) {
      assert u != t ==> OpOk(p, u);
    }
    forall s: Space | s < q.Made() ensures SpaceOk(q, s) {
      assert SpaceOk(p, s);
    }
  }

  lemma PopSpaceKeeps(p: Pool, cap: int, t: ThreadId)
    requires PoolInv(p, cap) && CanStep(p, t, PopSpace)
    ensures PoolInv(Step(p, t, PopSpace), cap)
  {
    var q := Step(p, t, PopSpace);
    var h := p.free[0];
    assert OpOk(p, t);
    assert h in p.free && SpaceOk(p, h);
    forall i | 0 <= i < |q.free| ensures q.free[i] == p.free[i + 1] && q.free[i] in p.free && q.free[i] != h {
    }
    forall s: Space | s < q.Made() && q.owner[s] == Listed ensures s in q.free {
      assert s in p.free && s != h;
      var i :| 0 <= i < |p.free| && p.free[i] == s;
      assert q.free[i - 1] == s;
    }
    forall u | u in q.ops ensures OpOk(q, u) {
      if u != t { assert OpOk(p, u); }
    }
    forall s: Space | s < q.Made() ensures SpaceOk(q, s) {
      assert SpaceOk(p, s);
    }
  }

  lemma MakeSpaceKeeps(p: Pool, cap: int, t: ThreadId)
    requires PoolInv(p, cap) && CanStep(p, t, MakeSpace)
    ensures PoolInv(Step(p, t, MakeSpace), cap)
    ensures p.limit != 0  // the assertion before a space is made
  {
    var q := Step(p, t, MakeSpace);
    assert OpOk(p, t);
    forall u | u in q.ops ensures OpOk(q, u) {
      if u != t { assert OpOk(p, u); }
    }
    forall s: Space | s < q.Made() ensures SpaceOk(q, s) {
      if s < p.Made() { assert SpaceOk(p, s); }
    }
  }

  lemma SetUseKeeps(p: Pool, cap: int, t: ThreadId)
    requires PoolInv(p, cap) && CanStep(p, t, SetUse)
    ensures PoolInv(Step(p, t, SetUse), cap)
  {
    var q := Step(p, t, SetUse);
    assert OpOk(p, t);
    forall u | u in q.ops ensures OpOk(q, u) {
      if u != t { assert OpOk(p, u); }
    }
    forall s: Space | s < q.Made() ensures SpaceOk(q, s) {
      assert SpaceOk(p, s);
    }
  }

  lemma PossessUseKeeps(p: Pool, cap: int, t: ThreadId)
    requires PoolInv(p, cap) && CanStep(p, t, PossessUse)
    ensures PoolInv(Step(p, t, PossessUse), cap)
  {
    var q := Step(p, t, PossessUse);
    assert OpOk(p, t);
    forall u | u in q.ops ensures OpOk(q, u) {
      if u != t { assert OpOk(p, u); }
    }
    forall s: Space | s < q.Made() ensures SpaceOk(q, s) {
      assert SpaceOk(p, s);
    }
  }

  lemma ListSpaceKeeps(p: Pool, cap: int, t: ThreadId)
    requires PoolInv(p, cap) && CanStep(p, t, ListSpace)
    ensures PoolInv(Step(p, t, ListSpace), cap)
  {
    var q := Step(p, t, ListSpace);
    var d := p.ops[t].space;
    assert OpOk(p, t);
    assert d !in p.free;
    assert forall i :: 0 < i < |q.free| ==> q.free[i] == p.free[i - 1];
    forall s: Space | s < q.Made() && q.owner[s] == Listed ensures s in q.free {
      if s == d { assert q.free[0] == d; } else { assert s in p.free; }
    }
    forall u | u in q.ops ensures OpOk(q, u) {
      if u != t { assert OpOk(p, u); }
    }
    forall s: Space | s < q.Made() ensures SpaceOk(q, s) {
      assert SpaceOk(p, s);
    }
  }

  lemma LowerUseKeeps(p: Pool, cap: int, t: ThreadId)
    requires PoolInv(p, cap) && CanStep(p, t, LowerUse)
    ensures PoolInv(Step(p, t, LowerUse), cap)
    ensures p.use[p.ops[t].space] != 0  // the assertion on a drop
  {
    var q := Step(p, t, LowerUse);
    assert OpOk(p, t);
    forall u | u in q.ops ensures OpOk(q, u) {
      assert OpOk(p, u);
    }
    forall s: Space | s < q.Made() ensures SpaceOk(q, s) {
      assert SpaceOk(p, s);
    }
  }

  /** Pool conservation: no interleaving of lock regions breaks the pool or touches a job's space. */
  lemma StepKeeps(p: Pool, cap: int, t: ThreadId, a: PoolAction)
    requires PoolInv(p, cap) && CanStep(p, t, a)
    ensures PoolInv(Step(p, t, a), cap)
    ensures SameUsers(p, Step(p, t, a))
  {
    assert OpOk(p, t);
    match a
    case PossessHave => PossessHaveKeeps(p, cap, t);
    case PopSpace => PopSpaceKeeps(p, cap, t);
    case MakeSpace => MakeSpaceKeeps(p, cap, t);
    case SetUse => SetUseKeeps(p, cap, t);
    case PossessUse => PossessUseKeeps(p, cap, t);
    case ListSpace => ListSpaceKeeps(p, cap, t);
    case LowerUse => LowerUseKeeps(p, cap, t);
  }

  lemma EnterGetKeeps(p: Pool, cap: int, t: ThreadId)
    requires PoolInv(p, cap) && t !in p.ops
    ensures PoolInv(EnterGet(p, t), cap) && SameUsers(p, EnterGet(p, t))
  {
    var q := EnterGet(p, t);
    forall u | u in q.ops ensures OpOk(q, u) {
      if u != t { assert OpOk(p, u); }
    }
    forall s: Space | s < q.Made() ensures SpaceOk(q, s) {
      assert SpaceOk(p, s);
    }
  }

  lemma ClaimKeeps(p: Pool, cap: int, t: ThreadId, job: nat, content: Bytes)
    requires PoolInv(p, cap) && t in p.ops && p.ops[t].GetDone?
    ensures OpOk(p, t) && PoolInv(Claim(p, t, job, content), cap)
    ensures p.owner[p.ops[t].space] == InCall(t)
  {
    assert OpOk(p, t);
    var q := Claim(p, t, job, content);
    forall u | u in q.ops ensures OpOk(q, u) {
      assert OpOk(p, u);
    }
    forall s: Space | s < q.Made() ensures SpaceOk(q, s) {
      assert SpaceOk(p, s);
    }
  }

  lemma EnterDropKeeps(p: Pool, cap: int, t: ThreadId, s: Space)
    requires PoolInv(p, cap) && t !in p.ops && s < p.Made() && p.owner[s].User?
    ensures PoolInv(EnterDrop(p, t, s), cap)
  {
    var q := EnterDrop(p, t, s);
    assert SpaceOk(p, s);
    assert s !in p.free;
    forall u | u in q.ops ensures OpOk(q, u) {
      if u != t { assert OpOk(p, u); }
    }
    forall x: Space | x < q.Made() ensures SpaceOk(q, x) {
      assert SpaceOk(p, x);
    }
  }

  ghost predicate SomeEnabled(p: Pool) {
    exists t, a :: CanStep(p, t, a)
  }

  /** The nested locks cannot deadlock: a thread that is inside a call can either move, or another
      thread inside a call can, or it waits at the limit of a pool with nothing listed. */
  lemma PoolProgress(p: Pool, cap: int, t: ThreadId)
    requires PoolInv(p, cap) && t in p.ops && !p.ops[t].GetDone?
    ensures SomeEnabled(p) || (p.ops[t].GetEnter? && p.limit == 0 && p.free == [])
  {
    assert OpOk(p, t);
    if p.haveLock.Some? {
      var u := p.haveLock.value;
      assert OpOk(p, u);
      if p.free == [] {
        assert CanStep(p, u, MakeSpace);
      } else {
        var h := p.free[0];
        assert h in p.free && SpaceOk(p, h);
        if p.useLock[h].None? {
          assert CanStep(p, u, PopSpace);
        } else {
          assert OpOk(p, p.useLock[h].value);
          assert CanStep(p, p.useLock[h].value, LowerUse);
        }
      }
    } else {
      match p.ops[t]
      case GetEnter => if p.limit != 0 || p.have != 0 { assert CanStep(p, t, PossessHave); }
      case GetLocked => assert false;
      case GetHold(_) => assert CanStep(p, t, SetUse);
      case DropEnter(_) => assert CanStep(p, t, PossessUse);
      case DropLocked(_) => assert CanStep(p, t, ListSpace);
      case DropListed(_) => assert CanStep(p, t, LowerUse);
    }
  }

  /** Steps still ahead of a thread inside a call. */
  function OpRank(o: PoolOp): nat {
    match o
    case GetEnter => 3
    case GetLocked => 2
    case GetHold(_) => 1
    case GetDone(_) => 0
    case DropEnter(_) => 3
    case DropLocked(_) => 2
    case DropListed(_) => 1
  }

  /** The number of distinct elements below a bound is at most the bound. */
  lemma {:induction false} DistinctBelow(xs: seq<nat>, bound: nat)
    requires forall i, j :: 0 <= i < j < |xs| ==> xs[i] != xs[j]
    requires forall i :: 0 <= i < |xs| ==> xs[i] < bound
    ensures |xs| <= bound
    decreases bound
  {
    if xs == [] {
    } else if bound - 1 in xs {
      var k :| 0 <= k < |xs| && xs[k] == bound - 1;
      var ys := xs[..k] + xs[k + 1..];
      forall i | 0 <= i < |ys| ensures ys[i] < bound - 1 {
        assert ys[i] == xs[if i < k then i else i + 1];
      }
      DistinctBelow(ys, bound - 1);
    } else {
      assert xs[0] < bound;
      DistinctBelow(xs, bound - 1);
    }
  }

  /** A duplicate-free list that has every number below a bound is at least as long as the bound. */
  lemma {:induction false} CoversBelow(xs: seq<nat>, bound: nat)
    requires forall x: nat :: x < bound ==> x in xs
    ensures |xs| >= bound
    decreases bound
  {
    if bound > 0 {
      assert bound - 1 in xs;
      var k :| 0 <= k < |xs| && xs[k] == bound - 1;
      var ys := xs[..k] + xs[k + 1..];
      forall x: nat | x < bound - 1 ensures x in ys {
        assert x in xs;
        var i :| 0 <= i < |xs| && xs[i] == x;
        assert ys[if i < k then i else i - 1] == x;
      }
      CoversBelow(ys, bound - 1);
    }
  }

  /** When no call is in flight and no job holds a space, freeing the pool counts every space made. */
  lemma FreeCountsAll(p: Pool, cap: int)
    requires PoolInv(p, cap) && p.ops == map[]
    requires forall s: Space :: s < p.Made() ==> !p.owner[s].User?
    ensures |p.free| == p.Made() && p.have == p.Made()
    ensures forall s: Space :: s < p.Made() ==> p.use[s] == 0
  {
    forall s: Space | s < p.Made() ensures s in p.free && p.use[s] == 0 {
      assert SpaceOk(p, s);
    }
    assert forall i :: 0 <= i < |p.free| ==> p.free[i] in p.free;
    DistinctBelow(p.free, p.Made());
    CoversBelow(p.free, p.Made());
  }
}
