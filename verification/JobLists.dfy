/** The two job lists of dst_decoder.c and the lock regions that change them. */
module JobLists {
  import opened Bits
  import opened BufferPool

  datatype Job = Job(
    nr: nat,              // sequence number: place in submission order
    more: bool,           // false only for the job that ends the stream
    inp: Option<Space>,   // compressed frame
    out: Option<Space>,   // decoded frame
    error: int)

  ghost predicate Sorted(l: seq<Job>) {
    forall i, j :: 0 <= i < j < |l| ==> l[i].nr < l[j].nr
  }

  ghost predicate Has(l: seq<Job>, k: nat) {
    exists i :: 0 <= i < |l| && l[i].nr == k
  }

  /** The value a list gives to the lock write_first. */
  function First(l: seq<Job>): int {
    if l == [] then -1 else l[0].nr
  }

  /** Where a job goes in the write list: before the first one with a larger sequence number. */
  function Position(l: seq<Job>, k: nat): (i: nat)
    ensures i <= |l|
    ensures forall j :: 0 <= j < i ==> l[j].nr <= k
    ensures i < |l| ==> l[i].nr > k
  {
    if l == [] || l[0].nr > k then 0 else 1 + Position(l[1..], k)
  }

  function Insert(l: seq<Job>, job: Job): seq<Job> {
    l[..Position(l, job.nr)] + [job] + l[Position(l, job.nr)..]
  }

  lemma InsertAt(l: seq<Job>, job: Job)
    ensures var p := Position(l, job.nr); var r := Insert(l, job);
            |r| == |l| + 1 && forall i :: 0 <= i < |r| ==> r[i] == if i < p then l[i] else if i == p then job else l[i - 1]
  {
  }

  lemma InsertKeepsAll(l: seq<Job>, job: Job)
    ensures Has(Insert(l, job), job.nr)
    ensures forall k: nat :: Has(l, k) ==> Has(Insert(l, job), k)
    ensures job in Insert(l, job) && forall j :: j in l ==> j in Insert(l, job)
  {
    InsertAt(l, job);
    var r := Insert(l, job);
    var p := Position(l, job.nr);
    assert r[p] == job;
    forall k: nat | Has(l, k) ensures Has(r, k) {
      var i :| 0 <= i < |l| && l[i].nr == k;
      assert r[if i < p then i else i + 1].nr == k;
    }
    forall j | j in l ensures j in r {
      var i :| 0 <= i < |l| && l[i] == j;
      assert r[if i < p then i else i + 1] == j;
    }
  }

  lemma InsertSorts(l: seq<Job>, job: Job)
    requires Sorted(l) && !Has(l, job.nr)
    ensures Sorted(Insert(l, job)) && Insert(l, job) != []
    ensures forall i :: 0 <= i < |Insert(l, job)| ==> Insert(l, job)[i] == job || Insert(l, job)[i] in l
    ensures Has(Insert(l, job), job.nr)
    ensures forall k: nat :: Has(l, k) ==> Has(Insert(l, job), k)
    ensures job in Insert(l, job) && forall j :: j in l ==> j in Insert(l, job)
  {
    InsertAt(l, job);
    InsertKeepsAll(l, job);
    var r := Insert(l, job);
    var p := Position(l, job.nr);
    forall i, j | 0 <= i < j < |r| ensures r[i].nr < r[j].nr {
      if j == p { assert l[i].nr <= job.nr; }
      if i == p { assert p < |l|; assert l[p].nr <= l[j - 1].nr; }
    }
  }

  /* The lists and their lock values, and what each lock region makes of them. */

  datatype Shared = Shared(decodeHave: int, decodeList: seq<Job>, writeFirst: int, writeList: seq<Job>)

  function AfterSubmit(l: Shared, job: Job): Shared {
    l.(decodeHave := l.decodeHave + 1, decodeList := l.decodeList + [job])
  }

  function AfterTake(l: Shared): Shared
    requires l.decodeList != []
  {
    l.(decodeHave := l.decodeHave - 1, decodeList := l.decodeList[1..])
  }

  function AfterPut(l: Shared, job: Job): Shared {
    l.(writeFirst := First(Insert(l.writeList, job)), writeList := Insert(l.writeList, job))
  }

  function AfterTakeWrite(l: Shared): Shared
    requires l.writeList != []
  {
    l.(writeFirst := First(l.writeList[1..]), writeList := l.writeList[1..])
  }

  /** The lists and their locks as the threads share them. */
  class Lists {
    var decodeHave: int         // lock value: jobs waiting to be decoded
    var decodeList: seq<Job>    // decode_head .. decode_tail
    var writeFirst: int         // lock value: first sequence number in the write list, or -1
    var writeList: seq<Job>     // write_head ..

    function Contents(): Shared
      reads this
    {
      Shared(decodeHave, decodeList, writeFirst, writeList)
    }

    constructor ()
      ensures Contents() == Shared(0, [], -1, [])
    {
      decodeHave, decodeList, writeFirst, writeList := 0, [], -1, [];
    }

    /** Put a job at the end of the decode list. */
    method Submit(job: Job)
      modifies this
      ensures Contents() == AfterSubmit(old(Contents()), job)
    {
      decodeList := decodeList + [job];
      decodeHave := decodeHave + 1;
    }

    /** Take the job at the head of the decode list; the caller has waited for decodeHave != 0. */
    method Take() returns (job: Job)
      requires decodeHave == |decodeList| && decodeHave != 0
      modifies this
      ensures job == old(decodeList[0]) && Contents() == AfterTake(old(Contents()))
    {
      job := decodeList[0];
      decodeList := decodeList[1..];
      decodeHave := decodeHave - 1;
    }

    /** Walk the write list to the job's place, link it there, and twist write_first to the head. */
    method PutWrite(job: Job)
      modifies this
      ensures Contents() == AfterPut(old(Contents()), job)
    {
      var prior := 0;
      while prior < |writeList|
        invariant 0 <= prior <= |writeList|
        invariant Contents() == old(Contents())
        invariant Position(writeList, job.nr) == prior + Position(writeList[prior..], job.nr)
      {
        if writeList[prior].nr > job.nr {
          break;
        }
        assert writeList[prior..][1..] == writeList[prior + 1..];
        prior := prior + 1;
      }
      writeList := writeList[..prior] + [job] + writeList[prior..];
      writeFirst := writeList[0].nr;
    }

    /** Unlink the head of the write list; the caller has waited for its sequence number. */
    method TakeWrite(k: nat) returns (job: Job)
      requires writeFirst == k && writeFirst == First(writeList)
      modifies this
      ensures job == old(writeList[0]) && job.nr == k && Contents() == AfterTakeWrite(old(Contents()))
    {
      job := writeList[0];
      writeList := writeList[1..];
      writeFirst := if writeList == [] then -1 else writeList[0].nr;
    }

    /** The writer leaves write_first at -1 when it exits. */
    method Close()
      modifies this
      ensures Contents() == old(Contents()).(writeFirst := -1)
    {
      writeFirst := -1;
    }
  }
}
