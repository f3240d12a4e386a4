/**
  The loops of the collector: grouping by day, summing churn, walking the calendar.
  `CollectHistory` is `_collect`; it computes the closed forms `Collect` and `CollectSince`.
 */
module CollectorWalk {
  import opened Wrappers
  import opened CollectorModel
  import opened CollectorMeaning

  /** `byDay` holds exactly the days of `h` that have a commit, each with its commits in log order. */
  ghost predicate Grouped(h: seq<Commit>, byDay: map<Day, seq<Commit>>) {
    && (forall d :: d in byDay <==> On(h, d) != [])
    && (forall d :: d in byDay ==> byDay[d] == On(h, d))
  }

  method GroupByDay(commits: seq<Commit>) returns (byDay: map<Day, seq<Commit>>)
    ensures Grouped(commits, byDay)
  {
    byDay := map[];
    for k := 0 to |commits|
      invariant Grouped(commits[..k], byDay)
    {
      var c := commits[k];
      assert commits[..k + 1][..k] == commits[..k];
      byDay := byDay[c.date := (if c.date in byDay then byDay[c.date] else []) + [c]];
    }
    assert commits[..|commits|] == commits;
  }

  method SumChurn(git: Git, cs: seq<Commit>) returns (total: nat)
    ensures total == ChurnSum(git, cs)
  {
    total := 0;
    for k := 0 to |cs|
      invariant total == ChurnSum(git, cs[..k])
    {
      assert cs[..k + 1][..k] == cs[..k];
      total := total + git.churn(cs[k]);
    }
    assert cs[..|cs|] == cs;
  }

  method ComputeDayChurn(git: Git, byDay: map<Day, seq<Commit>>) returns (churn: map<Day, nat>)
    ensures churn.Keys == byDay.Keys
    ensures forall d :: d in byDay ==> churn[d] == ChurnSum(git, byDay[d])
  {
    churn := map[];
    var left := byDay.Keys;
    while exists d :: d in left
      invariant left <= byDay.Keys
      invariant churn.Keys == byDay.Keys - left
      invariant forall d :: d in churn ==> churn[d] == ChurnSum(git, byDay[d])
      decreases |left|
    {
      var d :| d in left;
      var total := SumChurn(git, byDay[d]);
      churn := churn[d := total];
      left := left - {d};
    }
    assert left == {};
  }

  /** The per-key lists that `_append_day_to_columns` extends in place. */
  class Buckets {
    var dates: seq<Day>
    var codeTotalLoc: seq<nat>
    var codeChangedCum: seq<int>
    var docTotalLoc: seq<nat>
    var codeFiles: seq<nat>
    var docFiles: seq<nat>
    var testCases: seq<nat>
    var testLoc: seq<nat>

    function Contents(): Columns
      reads this
    {
      Columns(dates, codeTotalLoc, codeChangedCum, docTotalLoc, codeFiles, docFiles, testCases, testLoc)
    }

    constructor ()
      ensures Contents() == NO_COLUMNS
    {
      dates, codeTotalLoc, codeChangedCum, docTotalLoc := [], [], [], [];
      codeFiles, docFiles, testCases, testLoc := [], [], [], [];
    }

    /** Adds one row to the table, whatever rows are already there. */
    method AppendDay(day: Day, lastSnap: Snap, cum: int, ghost rows: seq<Row>)
      requires Contents() == ColumnsOf(rows)
      modifies this
      ensures Contents() == ColumnsOf(rows + [Row(day, lastSnap, cum)])
    {
      dates := dates + [day];
      codeTotalLoc := codeTotalLoc + [lastSnap.codeTotalLoc];
      codeChangedCum := codeChangedCum + [cum];
      docTotalLoc := docTotalLoc + [lastSnap.docTotalLoc];
      codeFiles := codeFiles + [lastSnap.codeFiles];
      docFiles := docFiles + [lastSnap.docFiles];
      testCases := testCases + [lastSnap.testCases];
      testLoc := testLoc + [lastSnap.testLoc];
      assert (rows + [Row(day, lastSnap, cum)])[..|rows|] == rows;
    }
  }

  /** One calendar day: the new forward-fill state and the day's record. */
  method EmitDay(
    git: Git, day: Day, byDay: map<Day, seq<Commit>>, churn: map<Day, nat>,
    lastSnap: Option<Snap>, cum: int, ghost h: seq<Commit>)
    returns (snap': Snap, cum': int, record: DayRecord)
    requires Grouped(h, byDay)
    requires churn.Keys == byDay.Keys
    requires forall d :: d in byDay ==> churn[d] == ChurnSum(git, byDay[d])
    ensures record == RecordOn(git, h, day)
    ensures cum' == cum + ChurnOn(git, h, day)
    ensures snap' == if record.snap.Some? then record.snap.value
                     else if lastSnap.Some? then lastSnap.value else ZERO_SNAP
  {
    var carried := lastSnap;
    if day in byDay {
      var earliest := byDay[day][0].id;
      var snap := git.snapshot(earliest);
      record := DayRecord(earliest, if day in churn then churn[day] else 0, Some(snap));
      carried := Some(snap);
    } else {
      record := NO_COMMIT;
    }
    snap' := if carried.Some? then carried.value else ZERO_SNAP;
    cum' := cum + (if day in churn then churn[day] else 0);
  }

  method WalkCalendar(
    git: Git, s: Day, e: Day, byDay: map<Day, seq<Commit>>, churn: map<Day, nat>,
    cum0: int, snap0: Option<Snap>, ghost h: seq<Commit>)
    returns (columns: Columns, days: map<Day, DayRecord>)
    requires s <= e + 1
    requires Grouped(h, byDay)
    requires churn.Keys == byDay.Keys
    requires forall d :: d in byDay ==> churn[d] == ChurnSum(git, byDay[d])
    ensures Result(columns, days) == CollectRange(git, h, cum0, snap0, s, e)
  {
    hide Records, ColumnsOf, On, ChurnSum;
    RecordsEmpty(git, h, s, s - 1);
    ColumnsOfNone();
    var buckets := new Buckets();
    days := map[];
    var cum, lastSnap, dt := cum0, snap0, s;
    while dt <= e
      invariant s <= dt <= e + 1
      invariant buckets.Contents() == ColumnsOf(Rows(git, h, cum0, snap0, s, dt - 1))
      invariant days == Records(git, h, s, dt - 1)
      invariant cum == CumAt(git, h, cum0, s, dt - 1)
      invariant lastSnap == if dt == s then snap0 else Some(SnapAt(git, h, snap0, s, dt - 1))
    {
      var snap', cum', record := EmitDay(git, dt, byDay, churn, lastSnap, cum, h);
      days := days[dt := record];
      RecordsExtend(git, h, s, dt);
      assert Row(dt, snap', cum') == RowAt(git, h, cum0, snap0, s, dt);
      buckets.AppendDay(dt, snap', cum', Rows(git, h, cum0, snap0, s, dt - 1));
      cum, lastSnap, dt := cum', Some(snap'), dt + 1;
    }
    columns := buckets.Contents();
  }

  /** The list comprehension that keeps the commits dated from `since` on. */
  method FilterSince(commits: seq<Commit>, since: Day) returns (kept: seq<Commit>)
    ensures kept == Since(commits, since)
  {
    kept := [];
    for k := 0 to |commits|
      invariant kept == Since(commits[..k], since)
    {
      assert commits[..k + 1][..k] == commits[..k];
      if since <= commits[k].date { kept := kept + [commits[k]]; }
    }
    assert commits[..|commits|] == commits;
  }

  /** Two histories that agree on every day of a range collect to the same result there. */
  lemma {:induction false} RowsDependOnDays(
    git: Git, a: seq<Commit>, b: seq<Commit>, cum0: int, snap0: Option<Snap>, s: Day, e: Day)
    requires s <= e + 1
    requires forall d :: s <= d <= e ==> On(a, d) == On(b, d)
    ensures Rows(git, a, cum0, snap0, s, e) == Rows(git, b, cum0, snap0, s, e)
    decreases e - s + 1
  {
    if s <= e {
      RowsDependOnDays(git, a, b, cum0, snap0, s, e - 1);
      RowDependsOnDays(git, a, b, cum0, snap0, s, e);
    }
  }

  lemma RangeDependsOnDays(
    git: Git, a: seq<Commit>, b: seq<Commit>, cum0: int, snap0: Option<Snap>, s: Day, e: Day)
    requires s <= e + 1
    requires forall d :: s <= d <= e ==> On(a, d) == On(b, d)
    ensures CollectRange(git, a, cum0, snap0, s, e) == CollectRange(git, b, cum0, snap0, s, e)
  {
    RowsDependOnDays(git, a, b, cum0, snap0, s, e);
    assert Records(git, a, s, e) == Records(git, b, s, e);
  }

  lemma {:induction false} RowDependsOnDays(
    git: Git, a: seq<Commit>, b: seq<Commit>, cum0: int, snap0: Option<Snap>, s: Day, d: Day)
    requires s <= d
    requires forall x :: s <= x <= d ==> On(a, x) == On(b, x)
    ensures RowAt(git, a, cum0, snap0, s, d) == RowAt(git, b, cum0, snap0, s, d)
    decreases d - s
  {
    if s < d {
      RowDependsOnDays(git, a, b, cum0, snap0, s, d - 1);
    } else {
      assert CumAt(git, a, cum0, s, d - 1) == CumAt(git, b, cum0, s, d - 1);
    }
  }

  /** `_collect`: read the log, group, sum, walk. The result says what the commits of the log say. */
  method CollectHistory(git: Git, h: seq<Commit>, since: Option<Day>, cum0: int, snap0: Option<Snap>, today: Day)
    returns (r: Result)
    ensures since.None? && cum0 == 0 && snap0.None? ==> r == Collect(git, h, today)
    ensures since.Some? ==> r == CollectSince(git, h, since.value, cum0, snap0, today)
    ensures h == [] ==> r == Result(Columns([], [], [], [], [], [], [], []), map[])
    ensures h != [] ==>
      var s := if since.Some? then since.value else h[0].date;
      Says(git, h, cum0, snap0, s, if s < today then today else s, r)
  {
    hide Says;
    if h == [] { return NO_RESULT; }
    var filtered := h;
    if since.Some? { filtered := FilterSince(h, since.value); }
    var byDay := GroupByDay(filtered);
    var oldest := if since.Some? then since.value else h[0].date;
    var e := Max(oldest, today);
    var churn := ComputeDayChurn(git, byDay);
    var columns, days := WalkCalendar(git, oldest, e, byDay, churn, cum0, snap0, filtered);
    r := Result(columns, days);
    if since.Some? {
      forall d | oldest <= d <= e ensures On(filtered, d) == On(h, d) { OnFiltered(h, oldest, d); }
      RangeDependsOnDays(git, filtered, h, cum0, snap0, oldest, e);
    }
    RangeSays(git, h, cum0, snap0, oldest, e);
  }
}
