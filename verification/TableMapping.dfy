/** Which table each segment uses (ReadTableMappingData in unpack_dst.c). */
module TableMapping {
  import opened Bits
  import opened BitReader
  import opened Segmentation

  /** Table numbers per channel and segment, and how many tables there are. */
  datatype Mapping = Mapping(same: Bit, tables: seq<seq<nat>>, count: nat)

  /** One table number; a number equal to the count so far is a new table. */
  function ReadTable(bits: seq<Bit>, pos: nat, count: nat): Parse<(nat, nat)> {
    var (t, p) :- GetBits(bits, pos, Log2RoundUp(count));
    if t > count then Fail(INVALID_TABLE)
    else Done((t, if t == count then count + 1 else count), p)
  }

  /** The rest of a row of n table numbers. */
  function ReadRow(bits: seq<Bit>, pos: nat, count: nat, row: seq<nat>, n: nat): (r: Parse<(nat, seq<nat>)>)
    requires |row| <= n
    ensures r.Done? ==> |r.value.1| == n
    decreases n - |row|
  {
    if |row| == n then Done((count, row), pos)
    else
      var (v, p) :- ReadTable(bits, pos, count);
      ReadRow(bits, p, v.1, row + [v.0], n)
  }

  predicate Counted(sizes: seq<nat>) {
    forall c {:trigger sizes[c]} :: 0 <= c < |sizes| ==> sizes[c] > 0
  }

  predicate Sized(rows: seq<seq<nat>>, sizes: seq<nat>) {
    |rows| <= |sizes| && forall c {:trigger rows[c]} {:trigger sizes[c]} :: 0 <= c < |rows| ==> |rows[c]| == sizes[c]
  }

  /** What is known of a row before reading it. */
  function Known(done: seq<seq<nat>>): seq<nat> {
    if done == [] then [0] else []
  }

  /** The rows channel by channel; the very first number is 0 and not coded. */
  function ReadRows(bits: seq<Bit>, pos: nat, count: nat, done: seq<seq<nat>>, sizes: seq<nat>): (r: Parse<(nat, seq<seq<nat>>)>)
    requires Sized(done, sizes) && Counted(sizes)
    ensures r.Done? ==> |r.value.1| == |sizes| && Sized(r.value.1, sizes)
    decreases |sizes| - |done|
  {
    if |done| == |sizes| then Done((count, done), pos)
    else
      var (v, p) :- ReadRow(bits, pos, count, Known(done), sizes[|done|]);
      ReadRows(bits, p, v.0, done + [v.1], sizes)
  }

  predicate AllEqual(sizes: seq<nat>) {
    forall c {:trigger sizes[c]} :: 0 <= c < |sizes| ==> sizes[c] == sizes[0]
  }

  function ReadMap(bits: seq<Bit>, pos: nat, maxTables: nat, sizes: seq<nat>): (r: Parse<Mapping>)
    requires |sizes| > 0 && Counted(sizes)
    ensures r.Done? ==> |r.value.tables| == |sizes| && Sized(r.value.tables, sizes)
  {
    var (same, p) :- GetBits(bits, pos, 1);
    if same == 1 then
      var (v, q) :- ReadRow(bits, p, 1, [0], sizes[0]);
      if !AllEqual(sizes) then Fail(INVALID_MAPPING)
      else if v.0 > maxTables then Fail(TOO_MANY_TABLES)
      else Done(Mapping(1, Copies(v.1, |sizes|), v.0), q)
    else
      var (v, q) :- ReadRows(bits, p, 1, [], sizes);
      if v.0 > maxTables then Fail(TOO_MANY_TABLES) else Done(Mapping(0, v.1, v.0), q)
  }

  /* Numbering in order of first use. */

  /** One more than the largest number. */
  function CountOf(s: seq<nat>): nat {
    if s == [] then 0 else Max(CountOf(s[..|s| - 1]), s[|s| - 1] + 1)
  }

  /** Every number is one seen before or the next new one. */
  predicate FirstUse(s: seq<nat>) {
    s == [] || (FirstUse(s[..|s| - 1]) && s[|s| - 1] <= CountOf(s[..|s| - 1]))
  }

  lemma {:induction false} CountBound(s: seq<nat>, i: nat)
    requires i < |s|
    ensures s[i] < CountOf(s)
  {
    if i < |s| - 1 { CountBound(s[..|s| - 1], i); }
  }

  lemma {:induction false} NumbersCovered(s: seq<nat>, t: nat)
    requires FirstUse(s) && t < CountOf(s)
    ensures t in s
  {
    var front := s[..|s| - 1];
    if t < CountOf(front) {
      NumbersCovered(front, t);
    } else {
      assert t == s[|s| - 1];
    }
  }

  /** Before a number come all the smaller ones. */
  ghost predicate Ordered(s: seq<nat>) {
    forall i: nat, t: nat {:trigger SeenBefore(s, i, t)} :: i < |s| && t < s[i] ==> SeenBefore(s, i, t)
  }

  predicate SeenBefore(s: seq<nat>, i: nat, t: nat)
    requires i < |s|
  {
    t in s[..i]
  }

  /** The incremental test means: before each number come all smaller ones; so the numbers are exactly
      0 .. count-1 in order of first appearance. */
  lemma {:induction false} FirstUseMeansOrdered(s: seq<nat>)
    ensures FirstUse(s) <==> Ordered(s)
    ensures FirstUse(s) ==> forall t: nat :: t in s <==> t < CountOf(s)
  {
    if s != [] {
      var n := |s| - 1;
      var front := s[..n];
      FirstUseMeansOrdered(front);
      if FirstUse(s) {
        forall i: nat, t: nat | i < |s| && t < s[i] ensures SeenBefore(s, i, t) {
          if i < n { assert SeenBefore(front, i, t); assert front[..i] == s[..i]; }
        }
        forall t: nat ensures t in s <==> t < CountOf(s) { CoverStep(s, t); }
      }
      if Ordered(s) {
        forall i: nat, t: nat | i < n && t < front[i] ensures SeenBefore(front, i, t) {
          assert SeenBefore(s, i, t);
          assert front[..i] == s[..i];
        }
        assert FirstUse(front) && !SeenBefore(s, n, CountOf(front));
      }
    }
  }

  lemma CoverStep(s: seq<nat>, t: nat)
    requires FirstUse(s)
    ensures t in s <==> t < CountOf(s)
  {
    if t in s {
      var i :| 0 <= i < |s| && s[i] == t;
      CountBound(s, i);
    } else if t < CountOf(s) {
      NumbersCovered(s, t);
    }
  }

  function Flat(rows: seq<seq<nat>>): seq<nat> {
    if rows == [] then [] else Flat(rows[..|rows| - 1]) + rows[|rows| - 1]
  }

  /** The numbers in the order in which they were coded. */
  function Coded(m: Mapping): seq<nat> {
    if m.same == 1 && m.tables != [] then m.tables[0] else Flat(m.tables)
  }

  lemma RowStep(bits: seq<Bit>, pos: nat, count: nat, row: seq<nat>, n: nat, t: nat, count': nat, p: nat)
    requires |row| < n && ReadTable(bits, pos, count) == Done((t, count'), p)
    ensures ReadRow(bits, pos, count, row, n) == ReadRow(bits, p, count', row + [t], n)
  {
  }

  lemma RowsStep(bits: seq<Bit>, pos: nat, count: nat, done: seq<seq<nat>>, sizes: seq<nat>,
                 row: seq<nat>, count': nat, p: nat)
    requires Sized(done, sizes) && Counted(sizes) && |done| < |sizes|
    requires ReadRow(bits, pos, count, Known(done), sizes[|done|]) == Done((count', row), p)
    ensures Sized(done + [row], sizes)
    ensures ReadRows(bits, pos, count, done, sizes) == ReadRows(bits, p, count', done + [row], sizes)
  {
  }

  lemma OnlyZero()
    ensures FirstUse([0]) && CountOf([0]) == 1 && CountOf([]) == 0
  {
    assert [0][..0] == [];
  }

  lemma AppendRow(done: seq<seq<nat>>, row: seq<nat>)
    ensures Flat(done + [row]) == Flat(done) + row
  {
    assert (done + [row])[..|done|] == done;
  }

  lemma KnownCount(done: seq<seq<nat>>)
    requires FirstUse(Flat(done)) && (done != [] ==> Flat(done) != [])
    ensures FirstUse(Flat(done) + Known(done)) && CountOf(Flat(done) + Known(done)) == Max(1, CountOf(Flat(done)))
  {
    OnlyZero();
    if done == [] {
      assert Flat(done) + [0] == [0];
    } else {
      assert Flat(done) + [] == Flat(done);
      CountBound(Flat(done), 0);
    }
  }

  lemma AppendNumber(s: seq<nat>, t: nat)
    requires FirstUse(s) && t <= CountOf(s)
    ensures FirstUse(s + [t]) && CountOf(s + [t]) == (if t == CountOf(s) then CountOf(s) + 1 else CountOf(s))
  {
    assert (s + [t])[..|s|] == s;
  }

  lemma {:induction false} RowFirstUse(bits: seq<Bit>, pos: nat, before: seq<nat>, row: seq<nat>, n: nat)
    requires FirstUse(before + row) && |row| <= n && ReadRow(bits, pos, CountOf(before + row), row, n).Done?
    ensures var v := ReadRow(bits, pos, CountOf(before + row), row, n).value;
            FirstUse(before + v.1) && v.0 == CountOf(before + v.1)
    decreases n - |row|
  {
    if |row| < n {
      var (v, p) := ReadTable(bits, pos, CountOf(before + row)).Extract();
      AppendNumber(before + row, v.0);
      assert before + row + [v.0] == before + (row + [v.0]);
      RowFirstUse(bits, p, before, row + [v.0], n);
    }
  }

  lemma {:induction false} RowsFirstUse(bits: seq<Bit>, pos: nat, count: nat, done: seq<seq<nat>>, sizes: seq<nat>)
    requires Sized(done, sizes) && Counted(sizes) && sizes != []
    requires FirstUse(Flat(done)) && (done != [] ==> Flat(done) != []) && count == Max(1, CountOf(Flat(done)))
    requires ReadRows(bits, pos, count, done, sizes).Done?
    ensures var v := ReadRows(bits, pos, count, done, sizes).value;
            FirstUse(Flat(v.1)) && v.0 == CountOf(Flat(v.1)) > 0
    decreases |sizes| - |done|
  {
    if |done| == |sizes| {
      CountBound(Flat(done), 0);
    } else {
      KnownCount(done);
      var r := ReadRow(bits, pos, count, Known(done), sizes[|done|]);
      RowFirstUse(bits, pos, Flat(done), Known(done), sizes[|done|]);
      RowsStep(bits, pos, count, done, sizes, r.value.1, r.value.0, r.pos);
      AppendRow(done, r.value.1);
      CountBound(Flat(done) + r.value.1, |Flat(done)|);
      RowsFirstUse(bits, r.pos, r.value.0, done + [r.value.1], sizes);
    }
  }

  /** An accepted mapping gives every segment a table, numbers the tables in order of first use, uses all
      of them, and has no more of them than allowed. */
  lemma AcceptedMapping(bits: seq<Bit>, pos: nat, maxTables: nat, sizes: seq<nat>)
    requires |sizes| > 0 && Counted(sizes) && ReadMap(bits, pos, maxTables, sizes).Done?
    ensures var m := ReadMap(bits, pos, maxTables, sizes).value;
            && Sized(m.tables, sizes) && |m.tables| == |sizes|
            && Ordered(Coded(m)) && 0 < m.count <= maxTables
            && (forall t: nat :: t in Coded(m) <==> t < m.count)
            && (m.same == 1 ==> forall c :: 0 <= c < |sizes| ==> m.tables[c] == m.tables[0])
  {
    var m := ReadMap(bits, pos, maxTables, sizes).value;
    if m.same == 1 {
      OnlyZero();
      assert [] + [0] == [0];
      RowFirstUse(bits, pos + 1, [], [0], sizes[0]);
      assert [] + m.tables[0] == m.tables[0];
      CountBound(m.tables[0], 0);
    } else {
      OnlyZero();
      RowsFirstUse(bits, pos + 1, 1, [], sizes);
    }
    FirstUseMeansOrdered(Coded(m));
  }

  lemma {:induction false} InFlat(rows: seq<seq<nat>>, c: nat, i: nat)
    requires c < |rows| && i < |rows[c]|
    ensures rows[c][i] in Flat(rows)
  {
    if c < |rows| - 1 { InFlat(rows[..|rows| - 1], c, i); }
  }

  /** Every segment's table exists. */
  lemma TableExists(m: Mapping, c: nat, i: nat)
    requires c < |m.tables| && i < |m.tables[c]|
    requires forall t: nat :: t in Coded(m) <==> t < m.count
    requires m.same == 1 ==> forall c :: 0 <= c < |m.tables| ==> m.tables[c] == m.tables[0]
    ensures m.tables[c][i] < m.count
  {
    if m.same == 1 {
      assert m.tables[c] == m.tables[0];
    } else {
      InFlat(m.tables, c, i);
    }
    assert m.tables[c][i] in Coded(m);
  }

  /* Writing a mapping, and reading it back. */

  /** Numbers i, i+1, .. of the coded order. */
  function WriteNumbers(s: seq<nat>, i: nat): seq<Bit>
    requires i <= |s|
    decreases |s| - i
  {
    if i == |s| then []
    else BitsOf(s[i], Log2RoundUp(CountOf(s[..i]))) + WriteNumbers(s, i + 1)
  }

  ghost predicate WritableMap(m: Mapping, maxTables: nat, sizes: seq<nat>) {
    && |sizes| > 0 && Counted(sizes) && |m.tables| == |sizes| && Sized(m.tables, sizes)
    && Ordered(Coded(m)) && m.count == CountOf(Coded(m)) <= maxTables
    && (m.same == 1 ==> m.tables == Copies(m.tables[0], |sizes|))
  }

  /** The first number is always 0 and left out. */
  function WriteMap(m: Mapping): seq<Bit> {
    [m.same] + if Coded(m) == [] then [] else WriteNumbers(Coded(m), 1)
  }

  lemma {:induction false} FirstUsePrefix(s: seq<nat>, i: nat)
    requires FirstUse(s) && i <= |s|
    ensures FirstUse(s[..i]) && (i < |s| ==> s[i] <= CountOf(s[..i]))
  {
    if i == |s| {
      assert s[..i] == s;
    } else {
      var front := s[..|s| - 1];
      FirstUsePrefix(front, i);
      assert front[..i] == s[..i];
    }
  }

  lemma NumberReadBack(bits: seq<Bit>, pos: nat, s: seq<nat>, i: nat)
    requires FirstUse(s) && i < |s| && At(bits, pos, WriteNumbers(s, i))
    ensures var n := Log2RoundUp(CountOf(s[..i]));
            && |WriteNumbers(s, i)| == n + |WriteNumbers(s, i + 1)|
            && At(bits, pos + n, WriteNumbers(s, i + 1))
            && ReadTable(bits, pos, CountOf(s[..i])) == Done((s[i], CountOf(s[..i + 1])), pos + n)
  {
    var count := CountOf(s[..i]);
    assert WriteNumbers(s, i) == BitsOf(s[i], Log2RoundUp(count)) + WriteNumbers(s, i + 1);
    hide WriteNumbers, At, GetBits, CountOf, FirstUse, BitsOf, Log2RoundUp;
    FirstUsePrefix(s, i);
    AppendNumber(s[..i], s[i]);
    Snoc(s, i);
    Log2Bounds(count);
    AtSplit(bits, pos, BitsOf(s[i], Log2RoundUp(count)), WriteNumbers(s, i + 1));
    ReadField(bits, pos, s[i], Log2RoundUp(count));
  }

  lemma Extend<T>(s: seq<T>, a: nat, i: nat)
    requires a <= i < |s|
    ensures s[a..i] + [s[i]] == s[a..i + 1]
  {
  }

  /** A row is a stretch of the coded order. */
  lemma {:induction false} RowReadBack(bits: seq<Bit>, pos: nat, s: seq<nat>, a: nat, i: nat, b: nat)
    requires FirstUse(s) && a <= i <= b <= |s| && At(bits, pos, WriteNumbers(s, i))
    ensures |WriteNumbers(s, b)| <= |WriteNumbers(s, i)|
    ensures var q := pos + |WriteNumbers(s, i)| - |WriteNumbers(s, b)|;
            && At(bits, q, WriteNumbers(s, b))
            && ReadRow(bits, pos, CountOf(s[..i]), s[a..i], b - a) == Done((CountOf(s[..b]), s[a..b]), q)
    decreases b - i
  {
    hide ReadTable, GetBits, CountOf, FirstUse, At, Log2RoundUp, WriteNumbers;
    if i < b {
      var count := CountOf(s[..i]);
      var q := pos + Log2RoundUp(count);
      NumberReadBack(bits, pos, s, i);
      RowStep(bits, pos, count, s[a..i], b - a, s[i], CountOf(s[..i + 1]), q);
      Extend(s, a, i);
      RowReadBack(bits, q, s, a, i + 1, b);
    }
  }

  /** Where row c lies in the coded order. */
  function Offset(rows: seq<seq<nat>>, c: nat): nat
    requires c <= |rows|
  {
    |Flat(rows[..c])|
  }

  lemma {:induction false} FlatPrefix(rows: seq<seq<nat>>, c: nat)
    requires c <= |rows|
    ensures Flat(rows[..c]) <= Flat(rows)
    decreases |rows|
  {
    if c == |rows| {
      assert rows[..c] == rows;
    } else {
      FlatPrefix(rows[..|rows| - 1], c);
      assert rows[..|rows| - 1][..c] == rows[..c];
    }
  }

  lemma RowInFlat(rows: seq<seq<nat>>, c: nat)
    requires c < |rows|
    ensures Offset(rows, c + 1) == Offset(rows, c) + |rows[c]| <= |Flat(rows)|
    ensures Flat(rows)[Offset(rows, c)..Offset(rows, c + 1)] == rows[c]
  {
    FlatPrefix(rows, c + 1);
    assert rows[..c + 1][..c] == rows[..c];
    var s := Flat(rows[..c + 1]);
    assert s == Flat(rows[..c]) + rows[c];
    assert Flat(rows)[..|s|] == s;
    assert Flat(rows)[Offset(rows, c)..|s|] == s[Offset(rows, c)..];
  }

  /** Where the first number still to be read of row c lies. */
  function From(rows: seq<seq<nat>>, c: nat): nat
    requires c <= |rows|
  {
    if c == 0 then 1 else Offset(rows, c)
  }

  lemma ZeroFirst(s: seq<nat>)
    requires s != [] && FirstUse(s)
    ensures s[0] == 0 && s[..1] == [0] && CountOf(s[..1]) == 1 && FirstUse([0])
  {
    FirstUsePrefix(s, 0);
    assert s[..0] == [];
    assert s[..1] == [0];
    assert [0][..0] == [];
  }

  lemma RowAt(bits: seq<Bit>, pos: nat, rows: seq<seq<nat>>, c: nat, sizes: seq<nat>)
    requires Counted(sizes) && Sized(rows, sizes) && |rows| == |sizes| && FirstUse(Flat(rows)) && c < |rows|
    requires From(rows, c) <= |Flat(rows)| && At(bits, pos, WriteNumbers(Flat(rows), From(rows, c)))
    ensures var s := Flat(rows);
            && Offset(rows, c + 1) <= |s| && |WriteNumbers(s, Offset(rows, c + 1))| <= |WriteNumbers(s, From(rows, c))|
            && var q := pos + |WriteNumbers(s, From(rows, c))| - |WriteNumbers(s, Offset(rows, c + 1))|;
            && At(bits, q, WriteNumbers(s, Offset(rows, c + 1)))
            && ReadRow(bits, pos, CountOf(s[..From(rows, c)]), Known(rows[..c]), sizes[c])
               == Done((CountOf(s[..Offset(rows, c + 1)]), rows[c]), q)
  {
    var s := Flat(rows);
    hide WriteNumbers, At, ReadRow, CountOf, FirstUse;
    RowInFlat(rows, c);
    assert |rows[c]| == sizes[c];
    ZeroFirst(s);
    assert Known(rows[..c]) == s[Offset(rows, c)..From(rows, c)];
    RowReadBack(bits, pos, s, Offset(rows, c), From(rows, c), Offset(rows, c + 1));
  }

  lemma {:induction false} RowsReadBack(bits: seq<Bit>, pos: nat, rows: seq<seq<nat>>, c: nat, sizes: seq<nat>)
    requires Counted(sizes) && Sized(rows, sizes) && |rows| == |sizes| > 0 && FirstUse(Flat(rows)) && c <= |rows|
    requires From(rows, c) <= |Flat(rows)| && At(bits, pos, WriteNumbers(Flat(rows), From(rows, c)))
    requires Sized(rows[..c], sizes)
    ensures ReadRows(bits, pos, CountOf(Flat(rows)[..From(rows, c)]), rows[..c], sizes)
            == Done((CountOf(Flat(rows)), rows), pos + |WriteNumbers(Flat(rows), From(rows, c))|)
    decreases |rows| - c
  {
    hide At, ReadRow, CountOf, FirstUse;
    var s := Flat(rows);
    if c == |rows| {
      assert rows[..c] == rows && s[..|s|] == s;
    } else {
      RowAt(bits, pos, rows, c, sizes);
      var q := pos + |WriteNumbers(s, From(rows, c))| - |WriteNumbers(s, Offset(rows, c + 1))|;
      RowsStep(bits, pos, CountOf(s[..From(rows, c)]), rows[..c], sizes, rows[c], CountOf(s[..Offset(rows, c + 1)]), q);
      Snoc(rows, c);
      RowsReadBack(bits, q, rows, c + 1, sizes);
    }
  }

  lemma CodedNonEmpty(m: Mapping, sizes: seq<nat>)
    requires |sizes| > 0 && Counted(sizes) && |m.tables| == |sizes| && Sized(m.tables, sizes)
    ensures Coded(m) != []
  {
    var last := |sizes| - 1;
    assert |m.tables[last]| == sizes[last] && |m.tables[0]| == sizes[0];
  }

  lemma SameSizes(rows: seq<seq<nat>>, sizes: seq<nat>)
    requires |rows| == |sizes| > 0 && Sized(rows, sizes) && rows == Copies(rows[0], |sizes|)
    ensures AllEqual(sizes) && |rows[0]| == sizes[0]
  {
    forall c | 0 <= c < |sizes| ensures sizes[c] == sizes[0] {
      assert |rows[c]| == sizes[c];
    }
  }

  lemma SharedRowReadBack(bits: seq<Bit>, pos: nat, s: seq<nat>)
    requires s != [] && FirstUse(s) && At(bits, pos, WriteNumbers(s, 1))
    ensures ReadRow(bits, pos, 1, [0], |s|) == Done((CountOf(s), s), pos + |WriteNumbers(s, 1)|)
  {
    ZeroFirst(s);
    RowReadBack(bits, pos, s, 0, 1, |s|);
    assert s[0..|s|] == s && s[..|s|] == s && s[0..1] == [0];
  }

  /** Every mapping that can be written reads back as itself. */
  lemma MapRoundTrip(bits: seq<Bit>, pos: nat, m: Mapping, maxTables: nat, sizes: seq<nat>)
    requires WritableMap(m, maxTables, sizes) && At(bits, pos, WriteMap(m))
    ensures ReadMap(bits, pos, maxTables, sizes) == Done(m, pos + |WriteMap(m)|)
  {
    var s := Coded(m);
    CodedNonEmpty(m, sizes);
    FirstUseMeansOrdered(s);
    AtSplit(bits, pos, [m.same], WriteNumbers(s, 1));
    ReadFlag(bits, pos, m.same);
    if m.same == 1 {
      SameSizes(m.tables, sizes);
      SharedRowReadBack(bits, pos + 1, s);
    } else {
      ZeroFirst(s);
      assert m.tables[..0] == [];
      RowsReadBack(bits, pos + 1, m.tables, 0, sizes);
    }
  }
}
