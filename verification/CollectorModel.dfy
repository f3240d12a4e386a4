/**
  The statistics collector of scripts/code-stats, as a closed form.

  A calendar day is an integer, since YYYY-MM-DD strings compare in calendar order.
  What git answers about a commit is a parameter: `Git.snapshot` is the snapshot of a
  commit and `Git.churn` the number of code lines a commit adds and removes.

  `Collect` says, day by day and without any loop, what a full collection contains. The
  loops of the collector are proved to compute it in module CollectorWalk, and the
  incremental collector is compared with it in module CollectorIncremental.
 */
module CollectorModel {
  import opened Wrappers

  type Day = int

  datatype Commit = Commit(date: Day, id: string, parent: string)

  datatype Snap = Snap(
    codeTotalLoc: nat, testCases: nat, testLoc: nat,
    codeFiles: nat, docTotalLoc: nat, docFiles: nat)

  const ZERO_SNAP := Snap(0, 0, 0, 0, 0, 0)

  datatype Git = Git(snapshot: string -> Snap, churn: Commit -> nat)

  datatype DayRecord = DayRecord(commit: string, changed: int, snap: Option<Snap>)

  const NO_COMMIT := DayRecord("", 0, None)

  datatype Columns = Columns(
    dates: seq<Day>, codeTotalLoc: seq<nat>, codeChangedCum: seq<int>, docTotalLoc: seq<nat>,
    codeFiles: seq<nat>, docFiles: seq<nat>, testCases: seq<nat>, testLoc: seq<nat>)

  const NO_COLUMNS := Columns([], [], [], [], [], [], [], [])

  datatype Result = Result(columns: Columns, days: map<Day, DayRecord>)

  const NO_RESULT := Result(NO_COLUMNS, map[])

  /** One day of every column. */
  datatype Row = Row(day: Day, snap: Snap, cum: int)

  function Max(a: int, b: int): int { if a < b then b else a }

  // ---------- commits of a day ----------

  /** The commits of `h` with author date `d`, in log order. */
  function On(h: seq<Commit>, d: Day): seq<Commit> {
    if h == [] then []
    else
      var rest := On(h[..|h| - 1], d);
      if h[|h| - 1].date == d then rest + [h[|h| - 1]] else rest
  }

  function ChurnSum(git: Git, cs: seq<Commit>): nat {
    if cs == [] then 0 else ChurnSum(git, cs[..|cs| - 1]) + git.churn(cs[|cs| - 1])
  }

  function ChurnOn(git: Git, h: seq<Commit>, d: Day): nat {
    ChurnSum(git, On(h, d))
  }

  lemma {:induction false} OnConcat(a: seq<Commit>, b: seq<Commit>, d: Day)
    ensures On(a + b, d) == On(a, d) + On(b, d)
  {
    if b == [] {
      assert a + b == a;
    } else {
      assert (a + b)[..|a + b| - 1] == a + b[..|b| - 1];
      OnConcat(a, b[..|b| - 1], d);
    }
  }

  lemma {:induction false} ChurnSumConcat(git: Git, a: seq<Commit>, b: seq<Commit>)
    ensures ChurnSum(git, a + b) == ChurnSum(git, a) + ChurnSum(git, b)
  {
    if b == [] {
      assert a + b == a;
    } else {
      assert (a + b)[..|a + b| - 1] == a + b[..|b| - 1];
      ChurnSumConcat(git, a, b[..|b| - 1]);
    }
  }

  /** `On` finds a commit exactly on the days some commit is dated. */
  lemma {:induction false} OnNonEmpty(h: seq<Commit>, d: Day)
    ensures On(h, d) != [] <==> exists i :: 0 <= i < |h| && h[i].date == d
  {
    if h != [] {
      OnNonEmpty(h[..|h| - 1], d);
      if exists i :: 0 <= i < |h| && h[i].date == d {
        var i :| 0 <= i < |h| && h[i].date == d;
        assert i < |h| - 1 ==> h[..|h| - 1][i].date == d;
      }
    }
  }

  // ---------- one day ----------

  function RecordOn(git: Git, h: seq<Commit>, d: Day): DayRecord {
    var cs := On(h, d);
    if cs == [] then NO_COMMIT
    else DayRecord(cs[0].id, ChurnSum(git, cs), Some(git.snapshot(cs[0].id)))
  }

  /** The snapshot shown for day `d` of a walk from `s`: the last anchor at or before `d`. */
  function SnapAt(git: Git, h: seq<Commit>, snap0: Option<Snap>, s: Day, d: Day): Snap
    requires s <= d
    decreases d - s
  {
    var cs := On(h, d);
    if cs != [] then git.snapshot(cs[0].id)
    else if s < d then SnapAt(git, h, snap0, s, d - 1)
    else if snap0.Some? then snap0.value
    else ZERO_SNAP
  }

  /** The running total of churn at the end of day `d` of a walk from `s`. */
  function CumAt(git: Git, h: seq<Commit>, cum0: int, s: Day, d: Day): int
    requires s <= d + 1
    decreases d - s + 1
  {
    if d < s then cum0 else CumAt(git, h, cum0, s, d - 1) + ChurnOn(git, h, d)
  }

  function RowAt(git: Git, h: seq<Commit>, cum0: int, snap0: Option<Snap>, s: Day, d: Day): Row
    requires s <= d
  {
    Row(d, SnapAt(git, h, snap0, s, d), CumAt(git, h, cum0, s, d))
  }

  // ---------- a range of days ----------

  function Rows(git: Git, h: seq<Commit>, cum0: int, snap0: Option<Snap>, s: Day, e: Day): (rows: seq<Row>)
    requires s <= e + 1
    ensures |rows| == e + 1 - s
    decreases e - s + 1
  {
    if e < s then [] else Rows(git, h, cum0, snap0, s, e - 1) + [RowAt(git, h, cum0, snap0, s, e)]
  }

  lemma {:induction false} RowsAt(git: Git, h: seq<Commit>, cum0: int, snap0: Option<Snap>, s: Day, e: Day, i: nat)
    requires s + i <= e
    ensures Rows(git, h, cum0, snap0, s, e)[i] == RowAt(git, h, cum0, snap0, s, s + i)
    decreases e - s - i
  {
    if s + i < e { RowsAt(git, h, cum0, snap0, s, e - 1, i); }
  }

  function Records(git: Git, h: seq<Commit>, s: Day, e: Day): map<Day, DayRecord> {
    map d | s <= d <= e :: RecordOn(git, h, d)
  }

  lemma RecordsEmpty(git: Git, h: seq<Commit>, s: Day, e: Day)
    requires e < s
    ensures Records(git, h, s, e) == map[]
  {
  }

  lemma RecordsExtend(git: Git, h: seq<Commit>, s: Day, e: Day)
    requires s <= e
    ensures Records(git, h, s, e) == Records(git, h, s, e - 1)[e := RecordOn(git, h, e)]
  {
  }

  function OneRow(row: Row): Columns {
    Columns([row.day], [row.snap.codeTotalLoc], [row.cum], [row.snap.docTotalLoc],
            [row.snap.codeFiles], [row.snap.docFiles], [row.snap.testCases], [row.snap.testLoc])
  }

  /** A table of rows, stored by column. */
  function ColumnsOf(rows: seq<Row>): Columns {
    if rows == [] then NO_COLUMNS else Append(ColumnsOf(rows[..|rows| - 1]), OneRow(rows[|rows| - 1]))
  }

  function CollectRange(git: Git, h: seq<Commit>, cum0: int, snap0: Option<Snap>, s: Day, e: Day): Result
    requires s <= e + 1
  {
    Result(ColumnsOf(Rows(git, h, cum0, snap0, s, e)), Records(git, h, s, e))
  }

  /** The dates and running totals of a range, read off the closed form. */
  lemma RangeShape(git: Git, h: seq<Commit>, cum0: int, snap0: Option<Snap>, s: Day, e: Day)
    requires s <= e + 1
    ensures var c := CollectRange(git, h, cum0, snap0, s, e).columns;
            && Rectangular(c) && |c.dates| == e + 1 - s
            && (forall i :: 0 <= i < |c.dates| ==> c.dates[i] == s + i)
            && (forall i :: 0 <= i < |c.dates| ==> c.codeChangedCum[i] == CumAt(git, h, cum0, s, s + i))
  {
    var rows := Rows(git, h, cum0, snap0, s, e);
    ColumnsOfAt(rows, 0);
    forall i | 0 <= i < |rows|
      ensures ColumnsOf(rows).dates[i] == s + i && ColumnsOf(rows).codeChangedCum[i] == CumAt(git, h, cum0, s, s + i)
    {
      ColumnsOfAt(rows, i);
      RowsAt(git, h, cum0, snap0, s, e, i);
    }
  }

  // ---------- collections ----------

  /** The last day of a full collection made on `today`. */
  function LastDay(h: seq<Commit>, today: Day): Day
    requires h != []
  {
    Max(h[0].date, today)
  }

  /** A full collection of history `h` on day `today`. */
  function Collect(git: Git, h: seq<Commit>, today: Day): Result {
    if h == [] then NO_RESULT
    else CollectRange(git, h, 0, None, h[0].date, LastDay(h, today))
  }

  /** A collection restarted at day `since` from a known total and snapshot. */
  function CollectSince(git: Git, h: seq<Commit>, since: Day, cum0: int, snap0: Option<Snap>, today: Day): Result {
    if h == [] then NO_RESULT
    else CollectRange(git, h, cum0, snap0, since, Max(since, today))
  }

  // ---------- columns as a table of rows ----------

  function Append(a: Columns, b: Columns): Columns {
    Columns(
      a.dates + b.dates, a.codeTotalLoc + b.codeTotalLoc, a.codeChangedCum + b.codeChangedCum,
      a.docTotalLoc + b.docTotalLoc, a.codeFiles + b.codeFiles, a.docFiles + b.docFiles,
      a.testCases + b.testCases, a.testLoc + b.testLoc)
  }

  /** All columns have one entry per date. */
  predicate Rectangular(c: Columns) {
    |c.codeTotalLoc| == |c.codeChangedCum| == |c.docTotalLoc| == |c.codeFiles| == |c.docFiles|
    == |c.testCases| == |c.testLoc| == |c.dates|
  }

  function DropLast(c: Columns): Columns
    requires Rectangular(c) && c.dates != []
  {
    var n := |c.dates| - 1;
    Columns(
      c.dates[..n], c.codeTotalLoc[..n], c.codeChangedCum[..n], c.docTotalLoc[..n],
      c.codeFiles[..n], c.docFiles[..n], c.testCases[..n], c.testLoc[..n])
  }

  function DropFirst(c: Columns): Columns
    requires Rectangular(c) && c.dates != []
  {
    Columns(
      c.dates[1..], c.codeTotalLoc[1..], c.codeChangedCum[1..], c.docTotalLoc[1..],
      c.codeFiles[1..], c.docFiles[1..], c.testCases[1..], c.testLoc[1..])
  }

  lemma ColumnsOfNone()
    ensures ColumnsOf([]) == NO_COLUMNS
  {
  }

  lemma {:induction false} ColumnsOfAppend(a: seq<Row>, b: seq<Row>)
    ensures ColumnsOf(a + b) == Append(ColumnsOf(a), ColumnsOf(b))
  {
    if b == [] {
      assert a + b == a;
    } else {
      assert (a + b)[..|a + b| - 1] == a + b[..|b| - 1];
      ColumnsOfAppend(a, b[..|b| - 1]);
      AppendAssociative(ColumnsOf(a), ColumnsOf(b[..|b| - 1]), OneRow(b[|b| - 1]));
    }
  }

  lemma AppendAssociative(a: Columns, b: Columns, c: Columns)
    ensures Append(Append(a, b), c) == Append(a, Append(b, c))
  {
  }

  lemma {:induction false} ColumnsOfAt(rows: seq<Row>, i: nat)
    ensures Rectangular(ColumnsOf(rows)) && |ColumnsOf(rows).dates| == |rows|
    ensures i < |rows| ==> ColumnsOf(rows).dates[i] == rows[i].day && ColumnsOf(rows).codeChangedCum[i] == rows[i].cum
  {
    if rows != [] {
      ColumnsOfAt(rows[..|rows| - 1], i);
    }
  }

  lemma ColumnsOfDropLast(rows: seq<Row>)
    requires rows != []
    ensures Rectangular(ColumnsOf(rows)) && |ColumnsOf(rows).dates| == |rows|
    ensures DropLast(ColumnsOf(rows)) == ColumnsOf(rows[..|rows| - 1])
  {
    ColumnsOfAt(rows, 0);
    ColumnsOfAt(rows[..|rows| - 1], 0);
  }

  lemma RestOf<T>(x: T, s: seq<T>)
    ensures ([x] + s)[1..] == s
  {
  }

  lemma DropFirstAppend(row: Row, c: Columns)
    requires Rectangular(c)
    ensures var all := Append(OneRow(row), c);
            Rectangular(all) && |all.dates| == |c.dates| + 1 && DropFirst(all) == c
  {
    var one := OneRow(row);
    RestOf(one.dates[0], c.dates);
    RestOf(one.codeTotalLoc[0], c.codeTotalLoc);
    RestOf(one.codeChangedCum[0], c.codeChangedCum);
    RestOf(one.docTotalLoc[0], c.docTotalLoc);
    RestOf(one.codeFiles[0], c.codeFiles);
    RestOf(one.docFiles[0], c.docFiles);
    RestOf(one.testCases[0], c.testCases);
    RestOf(one.testLoc[0], c.testLoc);
  }

  lemma ColumnsOfOne(row: Row)
    ensures ColumnsOf([row]) == OneRow(row)
  {
    assert [row][..0] == [];
    ColumnsOfNone();
  }

  lemma ColumnsOfDropFirst(rows: seq<Row>)
    requires rows != []
    ensures Rectangular(ColumnsOf(rows)) && |ColumnsOf(rows).dates| == |rows|
    ensures DropFirst(ColumnsOf(rows)) == ColumnsOf(rows[1..])
  {
    hide *;
    ColumnsOfAt(rows, 0);
    ColumnsOfAt(rows[1..], 0);
    assert rows == [rows[0]] + rows[1..];
    ColumnsOfAppend([rows[0]], rows[1..]);
    ColumnsOfOne(rows[0]);
    DropFirstAppend(rows[0], ColumnsOf(rows[1..]));
  }

  // ---------- composing walks ----------

  /** A walk cut at day `m` continues from the total and snapshot reached the day before. */
  lemma {:induction false} RowAtSplit(
    git: Git, h: seq<Commit>, cum0: int, snap0: Option<Snap>, s: Day, m: Day, d: Day)
    requires s < m <= d
    ensures CumAt(git, h, cum0, s, d) == CumAt(git, h, CumAt(git, h, cum0, s, m - 1), m, d)
    ensures SnapAt(git, h, snap0, s, d) == SnapAt(git, h, Some(SnapAt(git, h, snap0, s, m - 1)), m, d)
    decreases d - m
  {
    if m < d {
      RowAtSplit(git, h, cum0, snap0, s, m, d - 1);
    }
  }

  /** Dropping the commits dated before `since` changes no day from `since` on. */
  lemma {:induction false} OnFiltered(h: seq<Commit>, since: Day, d: Day)
    requires since <= d
    ensures On(Since(h, since), d) == On(h, d)
  {
    if h != [] {
      OnFiltered(h[..|h| - 1], since, d);
    }
  }

  function Since(h: seq<Commit>, since: Day): seq<Commit> {
    if h == [] then []
    else
      var rest := Since(h[..|h| - 1], since);
      if since <= h[|h| - 1].date then rest + [h[|h| - 1]] else rest
  }
}
