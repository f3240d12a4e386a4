/**
  The incremental collector. `Incremental` is what `_collect_incremental` returns for any
  accepted cache. `IncrementalIsFull` says, for every history, every extension of it and
  every reading of the clock, exactly when that is the full collection.
 */
module CollectorIncremental {
  import opened Wrappers
  import opened CollectorModel
  import opened CacheChecks
  import Walk = CollectorWalk

  /**
    The clock is read up to three times: on entry, when the re-walk starts, and when a
    stale cache forces a second collection. Nothing below assumes that it moves forward.
   */
  datatype Clock = Clock(entry: Day, walk: Day, refetch: Day)

  datatype PreState = PreState(cols: Columns, days: map<Day, DayRecord>, since: Day, cum: int, snap: Option<Snap>)

  // ---------- the last snapshot in the cache ----------

  /** `d` is the latest day that has a snapshot. */
  ghost predicate LatestSnap(days: map<Day, DayRecord>, d: Day) {
    d in days && days[d].snap.Some? && forall x :: x in days && d < x ==> days[x].snap.None?
  }

  lemma {:induction false} LatestSnapExists(days: map<Day, DayRecord>, d: Day)
    requires d in days && days[d].snap.Some?
    ensures exists m :: LatestSnap(days, m)
    decreases set x | x in days && d < x
  {
    if x :| x in days && d < x && days[x].snap.Some? {
      var above, aboveX := set y | y in days && d < y, set y | y in days && x < y;
      assert x in above && x !in aboveX && aboveX <= above;
      LatestSnapExists(days, x);
    } else {
      assert LatestSnap(days, d);
    }
  }

  ghost function LastSnap(days: map<Day, DayRecord>): Option<Snap> {
    if d :| d in days && days[d].snap.Some? then
      LatestSnapExists(days, d);
      var m :| LatestSnap(days, m);
      days[m].snap
    else None
  }

  lemma LastSnapIs(days: map<Day, DayRecord>, d: Day)
    requires LatestSnap(days, d)
    ensures LastSnap(days) == days[d].snap
  {
    LatestSnapExists(days, d);
  }

  /** `_last_non_none_snap`: the days from the latest down, until one has a snapshot. */
  method LastNonNoneSnap(days: map<Day, DayRecord>) returns (snap: Option<Snap>)
    ensures snap == LastSnap(days)
  {
    var left := days.Keys;
    while exists d :: d in left
      invariant left <= days.Keys
      invariant forall d, x :: d in left && x in days && x !in left ==> d < x
      invariant forall x :: x in days && x !in left ==> days[x].snap.None?
      decreases |left|
    {
      ghost var w :| w in left;
      GreatestExists(left, w);
      var d :| d in left && forall x :: x in left ==> x <= d;
      if days[d].snap.Some? {
        LastSnapIs(days, d);
        return days[d].snap;
      }
      left := left - {d};
    }
    snap := None;
  }

  lemma {:induction false} GreatestExists(s: set<int>, d: int)
    requires d in s
    ensures exists m :: m in s && forall x :: x in s ==> x <= m
    decreases set x | x in s && d < x
  {
    if x :| x in s && d < x {
      var above, aboveX := set y | y in s && d < y, set y | y in s && x < y;
      assert x in above && x !in aboveX && aboveX <= above;
      GreatestExists(s, x);
    } else {
      assert d in s && forall x :: x in s ==> x <= d;
    }
  }

  // ---------- the collector ----------

  /** The running total at the end of the day before the last. */
  function PreCum(cache: Result): int
    requires Usable(cache)
  {
    var cum, n := cache.columns.codeChangedCum, |cache.columns.dates|;
    if n >= 2 then cum[n - 2] else cum[n - 1] - cache.days[CacheLast(cache)].changed
  }

  ghost function IncrementalPreState(cache: Result, today: Day): PreState
    requires Usable(cache)
  {
    var last, preCum, snap := CacheLast(cache), PreCum(cache), LastSnap(cache.days);
    if today == last then PreState(DropLast(cache.columns), cache.days - {today}, today, preCum, snap)
    else PreState(cache.columns, cache.days, last, preCum, snap)
  }

  /** The latest day that has a snapshot. */
  ghost predicate IsLastSnapDay(days: map<Day, DayRecord>, d: Day) {
    d in days && days[d].snap.Some? && forall x :: x in days && days[x].snap.Some? ==> x <= d
  }

  method ReadPreState(cache: Result, today: Day) returns (st: PreState)
    requires Usable(cache)
    ensures st == IncrementalPreState(cache, today)
    ensures var n, last := |cache.columns.dates|, cache.columns.dates[|cache.columns.dates| - 1];
            && st.since == last
            && (n >= 2 ==> st.cum == cache.columns.codeChangedCum[n - 2])
            && (n == 1 ==> st.cum == cache.columns.codeChangedCum[0] - cache.days[last].changed)
            && st.cols == (if today == last then DropLast(cache.columns) else cache.columns)
            && st.days == (if today == last then cache.days - {last} else cache.days)
            && (forall d :: IsLastSnapDay(cache.days, d) ==> st.snap == cache.days[d].snap)
            && ((forall d :: d in cache.days ==> cache.days[d].snap.None?) ==> st.snap == None)
  {
    var last, preCum := CacheLast(cache), PreCum(cache);
    var snap := LastNonNoneSnap(cache.days);
    forall d | IsLastSnapDay(cache.days, d) ensures snap == cache.days[d].snap { LastSnapIs(cache.days, d); }
    if today == last {
      st := PreState(DropLast(cache.columns), cache.days - {today}, today, preCum, snap);
    } else {
      st := PreState(cache.columns, cache.days, last, preCum, snap);
    }
  }

  predicate CacheDayIsStale(cache: Result, new_: Result)
    requires cache.columns.codeChangedCum != [] && new_.columns.codeChangedCum != []
  {
    new_.columns.codeChangedCum[0] != cache.columns.codeChangedCum[|cache.columns.codeChangedCum| - 1]
  }

  function DropFirstDay(r: Result, day: Day): Result
    requires Rectangular(r.columns) && r.columns.dates != []
  {
    Result(DropFirst(r.columns), r.days - {day})
  }

  function MergePreAndNew(st: PreState, r: Result): Result {
    Result(Append(st.cols, r.columns), st.days + r.days)
  }

  /**
    What `_collect_incremental` returns. `None` is the IndexError raised when the log
    turns out to be empty and the first re-walked day is looked at.
   */
  ghost function Incremental(git: Git, h: seq<Commit>, cache: Result, clock: Clock): Option<Result>
    requires Usable(cache)
  {
    if clock.entry < CacheLast(cache) then Some(Collect(git, h, clock.walk))
    else ResumeFrom(git, h, cache, clock, IncrementalPreState(cache, clock.entry))
  }

  ghost function ResumeFrom(git: Git, h: seq<Commit>, cache: Result, clock: Clock, st: PreState): Option<Result>
    requires cache.columns.dates != [] && cache.columns.codeChangedCum != []
  {
    var last := CacheLast(cache);
    var r := CollectSince(git, h, st.since, st.cum, st.snap, clock.walk);
    if last < clock.entry then
      if h == [] then None
      else
        RangeShape(git, h, st.cum, st.snap, st.since, Max(st.since, clock.walk));
        if CacheDayIsStale(cache, r) then Some(Collect(git, h, clock.refetch))
        else Some(MergePreAndNew(st, DropFirstDay(r, last)))
    else Some(MergePreAndNew(st, r))
  }

  method CollectIncremental(git: Git, h: seq<Commit>, cache: Result, clock: Clock) returns (r: Option<Result>)
    requires Usable(cache)
    ensures r == Incremental(git, h, cache, clock)
  {
    var last := CacheLast(cache);
    if clock.entry < last {
      var full := Walk.CollectHistory(git, h, None, 0, None, clock.walk);
      return Some(full);
    }
    var st := ReadPreState(cache, clock.entry);
    var new_ := Walk.CollectHistory(git, h, Some(st.since), st.cum, st.snap, clock.walk);
    if last < clock.entry {
      if h != [] { RangeShape(git, h, st.cum, st.snap, last, Max(last, clock.walk)); }
      if new_.columns.codeChangedCum == [] { return None; }
      if CacheDayIsStale(cache, new_) {
        var full := Walk.CollectHistory(git, h, None, 0, None, clock.refetch);
        return Some(full);
      }
      new_ := DropFirstDay(new_, last);
    }
    r := Some(MergePreAndNew(st, new_));
  }

  // ---------- what an extension does to one day ----------

  /**
    Appending `ext` to the log leaves day `d` as it was: its new commits change no code
    line, and they do not give an anchor to a day that had none.
   */
  ghost predicate Unaffected(git: Git, h: seq<Commit>, ext: seq<Commit>, d: Day) {
    ChurnOn(git, ext, d) == 0 && (On(ext, d) == [] || On(h, d) != [])
  }

  lemma UnaffectedIffSameRecord(git: Git, h: seq<Commit>, ext: seq<Commit>, d: Day)
    ensures Unaffected(git, h, ext, d) <==> RecordOn(git, h + ext, d) == RecordOn(git, h, d)
    ensures ChurnOn(git, h + ext, d) == ChurnOn(git, h, d) + ChurnOn(git, ext, d)
  {
    OnConcat(h, ext, d);
    ChurnSumConcat(git, On(h, d), On(ext, d));
  }

  lemma {:induction false} UnaffectedRow(git: Git, h: seq<Commit>, ext: seq<Commit>, s: Day, d: Day)
    requires s <= d
    requires forall x :: s <= x <= d ==> Unaffected(git, h, ext, x)
    ensures RowAt(git, h + ext, 0, None, s, d) == RowAt(git, h, 0, None, s, d)
    decreases d - s
  {
    UnaffectedIffSameRecord(git, h, ext, d);
    if s < d {
      UnaffectedRow(git, h, ext, s, d - 1);
    } else {
      assert CumAt(git, h + ext, 0, s, d - 1) == CumAt(git, h, 0, s, d - 1);
    }
  }

  // ---------- what the cache of a full collection contains ----------

  /** The snapshot of a day of a full walk is the one of the latest day that has an anchor. */
  lemma {:induction false} SnapIsLatest(git: Git, h: seq<Commit>, s: Day, d: Day) returns (m: Day)
    requires s <= d && On(h, s) != []
    ensures s <= m <= d && LatestSnap(Records(git, h, s, d), m)
    ensures RecordOn(git, h, m).snap == Some(SnapAt(git, h, None, s, d))
    decreases d - s
  {
    if On(h, d) != [] {
      m := d;
    } else {
      m := SnapIsLatest(git, h, s, d - 1);
      assert forall x :: x in Records(git, h, s, d) && x != d ==> x in Records(git, h, s, d - 1);
      assert RecordOn(git, h, d) == NO_COMMIT;
    }
  }

  lemma LastSnapOfCollection(git: Git, h: seq<Commit>, s: Day, e: Day)
    requires s <= e && On(h, s) != []
    ensures LastSnap(Records(git, h, s, e)) == Some(SnapAt(git, h, None, s, e))
  {
    var m := SnapIsLatest(git, h, s, e);
    LastSnapIs(Records(git, h, s, e), m);
  }

  /** The total before the last day, whichever way it is read from the cache. */
  lemma PreCumOfCollection(git: Git, h: seq<Commit>, t: Day)
    requires h != []
    ensures Usable(Collect(git, h, t))
    ensures CacheLast(Collect(git, h, t)) == LastDay(h, t)
    ensures PreCum(Collect(git, h, t)) == CumAt(git, h, 0, h[0].date, LastDay(h, t) - 1)
  {
    CollectionUsable(git, h, t);
    RangeShape(git, h, 0, None, h[0].date, LastDay(h, t));
  }

  /** The state that the incremental collector takes out of the cache of `Collect(git, h, t)`. */
  lemma PreStateOfCollection(git: Git, h: seq<Commit>, t: Day, today: Day)
    requires h != []
    ensures Usable(Collect(git, h, t))
    ensures CacheLast(Collect(git, h, t)) == LastDay(h, t)
    ensures var st := IncrementalPreState(Collect(git, h, t), today);
            && st.since == LastDay(h, t)
            && st.cum == CumAt(git, h, 0, h[0].date, LastDay(h, t) - 1)
            && st.snap == Some(SnapAt(git, h, None, h[0].date, LastDay(h, t)))
  {
    PreCumOfCollection(git, h, t);
    OnNonEmpty(h, h[0].date);
    LastSnapOfCollection(git, h, h[0].date, LastDay(h, t));
  }

  // ---------- re-walking from the last cached day ----------

  lemma {:induction false} AnchoredStart(git: Git, h: seq<Commit>, a: Option<Snap>, b: Option<Snap>, s: Day, d: Day)
    requires s <= d && (On(h, s) != [] || a == b)
    ensures SnapAt(git, h, a, s, d) == SnapAt(git, h, b, s, d)
    decreases d - s
  {
    if s < d { AnchoredStart(git, h, a, b, s, d - 1); }
  }

  /**
    If the days before `last` are unaffected, the walk restarted at `last` from the cached
    total and snapshot agrees from there on with the full walk of the extended history.
   */
  lemma ResumedRow(git: Git, h: seq<Commit>, ext: seq<Commit>, last: Day, d: Day)
    requires h != [] && h[0].date <= last <= d
    requires forall x :: h[0].date <= x < last ==> Unaffected(git, h, ext, x)
    ensures var s := h[0].date;
            RowAt(git, h + ext, CumAt(git, h, 0, s, last - 1), Some(SnapAt(git, h, None, s, last)), last, d)
            == RowAt(git, h + ext, 0, None, s, d)
  {
    var s, g := h[0].date, h + ext;
    var snap := Some(SnapAt(git, h, None, s, last));
    OnNonEmpty(h, s);
    OnConcat(h, ext, last);
    if s == last {
      AnchoredStart(git, g, snap, None, s, d);
    } else {
      UnaffectedRow(git, h, ext, s, last - 1);
      RowAtSplit(git, g, 0, None, s, last, d);
      AnchoredStart(git, g, snap, Some(SnapAt(git, g, None, s, last - 1)), last, d);
    }
  }

  /** Cached rows up to `k` followed by re-walked rows from `k + 1` are the rows of the full walk. */
  lemma SplicedRows(git: Git, h: seq<Commit>, ext: seq<Commit>, last: Day, k: Day, e: Day)
    requires h != [] && h[0].date <= last <= e && last - 1 <= k <= last
    requires forall x :: h[0].date <= x <= k ==> Unaffected(git, h, ext, x)
    ensures var s := h[0].date;
            var rewalk := Rows(git, h + ext, CumAt(git, h, 0, s, last - 1), Some(SnapAt(git, h, None, s, last)), last, e);
            Rows(git, h, 0, None, s, k) + (if k == last then rewalk[1..] else rewalk) == Rows(git, h + ext, 0, None, s, e)
  {
    hide SnapAt, CumAt, RowAt, Rows, ChurnSum, On;
    var s, g := h[0].date, h + ext;
    var cum, snap := CumAt(git, h, 0, s, last - 1), Some(SnapAt(git, h, None, s, last));
    var cached, rewalk, full := Rows(git, h, 0, None, s, k), Rows(git, g, cum, snap, last, e), Rows(git, g, 0, None, s, e);
    forall i | 0 <= i < |full| ensures full[i] == (cached + (if k == last then rewalk[1..] else rewalk))[i] {
      RowsAt(git, g, 0, None, s, e, i);
      if s + i <= k {
        RowsAt(git, h, 0, None, s, k, i);
        UnaffectedRow(git, h, ext, s, s + i);
      } else {
        RowsAt(git, g, cum, snap, last, e, s + i - last);
        ResumedRow(git, h, ext, last, s + i);
      }
    }
  }

  // ---------- the main result ----------

  /** The cached last day gained code churn after the cache was written. */
  ghost predicate LateChurn(git: Git, h: seq<Commit>, ext: seq<Commit>, t: Day, clock: Clock)
    requires h != []
  {
    LastDay(h, t) < clock.entry && ChurnOn(git, ext, LastDay(h, t)) != 0
  }

  /** The days the incremental collector copies from the cache of `Collect(git, h, t)`. */
  ghost predicate Copied(h: seq<Commit>, t: Day, clock: Clock, d: Day)
    requires h != []
  {
    h[0].date <= d && (d < LastDay(h, t) || (d == LastDay(h, t) && d < clock.entry))
  }

  /** The reading of the clock that decides the last day of the result. */
  ghost function EndReading(git: Git, h: seq<Commit>, ext: seq<Commit>, t: Day, clock: Clock): Day
    requires h != []
  {
    if clock.entry < LastDay(h, t) then clock.walk
    else if LateChurn(git, h, ext, t, clock) then clock.refetch
    else Max(LastDay(h, t), clock.walk)
  }

  /** Cached days up to `k` and re-walked days from `k + 1`, as the incremental collector joins them. */
  ghost function Spliced(git: Git, h: seq<Commit>, ext: seq<Commit>, last: Day, k: Day, e: Day): Result
    requires h != [] && h[0].date <= last <= e && last - 1 <= k <= last
  {
    var s := h[0].date;
    var rewalk := Rows(git, h + ext, CumAt(git, h, 0, s, last - 1), Some(SnapAt(git, h, None, s, last)), last, e);
    Result(ColumnsOf(Rows(git, h, 0, None, s, k) + (if k == last then rewalk[1..] else rewalk)),
           Records(git, h, s, k) + Records(git, h + ext, k + 1, e))
  }

  /** Joining, when the last cached day is replaced. */
  lemma MergeReplacing(git: Git, g: seq<Commit>, cache: Result, clock: Clock, st: PreState,
                       rows: seq<Row>, kept: seq<Row>, keptDays: map<Day, DayRecord>,
                       rewalk: seq<Row>, newDays: map<Day, DayRecord>)
    requires Usable(cache) && CacheLast(cache) == clock.entry
    requires rows != [] && cache.columns == ColumnsOf(rows) && kept == rows[..|rows| - 1]
    requires st.cols == DropLast(cache.columns) && st.days == keptDays
    requires CollectSince(git, g, st.since, st.cum, st.snap, clock.walk) == Result(ColumnsOf(rewalk), newDays)
    ensures ResumeFrom(git, g, cache, clock, st) == Some(Result(ColumnsOf(kept + rewalk), keptDays + newDays))
  {
    ColumnsOfDropLast(rows);
    ColumnsOfAppend(kept, rewalk);
  }

  /** Joining, when the last cached day is kept and the re-walked first day is dropped. */
  lemma MergeKeeping(git: Git, g: seq<Commit>, cache: Result, clock: Clock, st: PreState, rows: seq<Row>,
                     rewalk: seq<Row>, newDays: map<Day, DayRecord>)
    requires Usable(cache) && CacheLast(cache) < clock.entry
    requires g != [] && rewalk != [] && cache.columns == ColumnsOf(rows)
    requires st.cols == cache.columns && st.days == cache.days
    requires var r := CollectSince(git, g, st.since, st.cum, st.snap, clock.walk);
             && r == Result(ColumnsOf(rewalk), newDays)
             && r.columns.codeChangedCum != [] && !CacheDayIsStale(cache, r)
    ensures ResumeFrom(git, g, cache, clock, st)
         == Some(Result(ColumnsOf(rows + rewalk[1..]), cache.days + (newDays - {CacheLast(cache)})))
  {
    ColumnsOfDropFirst(rewalk);
    ColumnsOfAppend(rows, rewalk[1..]);
  }

  lemma RowsButLast(git: Git, h: seq<Commit>, cum0: int, snap0: Option<Snap>, s: Day, e: Day)
    requires s <= e
    ensures Rows(git, h, cum0, snap0, s, e)[..e - s] == Rows(git, h, cum0, snap0, s, e - 1)
  {
  }

  lemma RecordsButOne(git: Git, h: seq<Commit>, s: Day, e: Day)
    ensures Records(git, h, s, e) - {e} == Records(git, h, s, e - 1)
    ensures Records(git, h, s, e) - {s} == Records(git, h, s + 1, e)
  {
  }

  lemma ResumeSameDay(git: Git, h: seq<Commit>, ext: seq<Commit>, t: Day, clock: Clock, cache: Result, st: PreState)
    requires h != [] && clock.entry == LastDay(h, t)
    requires cache == Collect(git, h, t) && Usable(cache) && CacheLast(cache) == LastDay(h, t)
    requires st.cols == DropLast(cache.columns) && st.days == cache.days - {LastDay(h, t)}
    requires st.since == LastDay(h, t)
    requires st.cum == CumAt(git, h, 0, h[0].date, LastDay(h, t) - 1)
    requires st.snap == Some(SnapAt(git, h, None, h[0].date, LastDay(h, t)))
    ensures ResumeFrom(git, h + ext, cache, clock, st)
         == Some(Spliced(git, h, ext, LastDay(h, t), LastDay(h, t) - 1, Max(LastDay(h, t), clock.walk)))
  {
    hide ColumnsOf, Records, Rows, SnapAt, CumAt;
    var s, last, e, g := h[0].date, LastDay(h, t), Max(LastDay(h, t), clock.walk), h + ext;
    var rows, rewalk := Rows(git, h, 0, None, s, last), Rows(git, g, st.cum, st.snap, last, e);
    RowsButLast(git, h, 0, None, s, last);
    RecordsButOne(git, h, s, last);
    MergeReplacing(git, g, cache, clock, st, rows, Rows(git, h, 0, None, s, last - 1), Records(git, h, s, last - 1),
                   rewalk, Records(git, g, last, e));
  }

  lemma SameDayResult(git: Git, h: seq<Commit>, ext: seq<Commit>, t: Day, clock: Clock)
    requires h != [] && clock.entry == LastDay(h, t)
    ensures Usable(Collect(git, h, t))
    ensures Incremental(git, h + ext, Collect(git, h, t), clock)
         == Some(Spliced(git, h, ext, LastDay(h, t), LastDay(h, t) - 1, Max(LastDay(h, t), clock.walk)))
  {
    PreStateOfCollection(git, h, t, clock.entry);
    ResumeSameDay(git, h, ext, t, clock, Collect(git, h, t), IncrementalPreState(Collect(git, h, t), clock.entry));
  }

  /** Re-walking the last cached day shows a different total exactly when churn landed on it late. */
  lemma StaleIffLateChurn(git: Git, h: seq<Commit>, ext: seq<Commit>, t: Day, cum: int, snap: Option<Snap>, walk: Day)
    requires h != [] && cum == CumAt(git, h, 0, h[0].date, LastDay(h, t) - 1)
    ensures var last := LastDay(h, t);
            var r := CollectSince(git, h + ext, last, cum, snap, walk);
            && Collect(git, h, t).columns.codeChangedCum != [] && r.columns.codeChangedCum != []
            && (CacheDayIsStale(Collect(git, h, t), r) <==> ChurnOn(git, ext, last) != 0)
  {
    var s, last, e := h[0].date, LastDay(h, t), Max(LastDay(h, t), walk);
    UnaffectedIffSameRecord(git, h, ext, last);
    RangeShape(git, h, 0, None, s, last);
    RangeShape(git, h + ext, cum, snap, last, e);
    assert Collect(git, h, t).columns.codeChangedCum[last - s] == CumAt(git, h, 0, s, last);
    assert CollectSince(git, h + ext, last, cum, snap, walk).columns.codeChangedCum[0] == CumAt(git, h + ext, cum, last, last);
    assert CumAt(git, h + ext, cum, last, last - 1) == cum;
  }

  /** On a later day the re-walked first day either shows the churn that landed late or is dropped. */
  lemma LaterDayResult(git: Git, h: seq<Commit>, ext: seq<Commit>, t: Day, clock: Clock)
    requires h != [] && LastDay(h, t) < clock.entry
    ensures Usable(Collect(git, h, t))
    ensures var last := LastDay(h, t);
            Incremental(git, h + ext, Collect(git, h, t), clock)
            == Some(if ChurnOn(git, ext, last) != 0 then Collect(git, h + ext, clock.refetch)
                    else Spliced(git, h, ext, last, last, Max(last, clock.walk)))
  {
    hide ColumnsOf, Records, Rows, SnapAt, CumAt, ChurnSum, On, LastSnap, PreCum;
    var s, last, e, g := h[0].date, LastDay(h, t), Max(LastDay(h, t), clock.walk), h + ext;
    PreStateOfCollection(git, h, t, clock.entry);
    var st := IncrementalPreState(Collect(git, h, t), clock.entry);
    StaleIffLateChurn(git, h, ext, t, st.cum, st.snap, clock.walk);
    if ChurnOn(git, ext, last) == 0 {
      var rows, rewalk := Rows(git, h, 0, None, s, last), Rows(git, g, st.cum, st.snap, last, e);
      MergeKeeping(git, g, Collect(git, h, t), clock, st, rows, rewalk, Records(git, g, last, e));
      RecordsButOne(git, g, last, e);
    }
  }

  /** The joined result is the full collection exactly when no cached day it keeps was affected. */
  lemma SplicedIsFull(git: Git, h: seq<Commit>, ext: seq<Commit>, last: Day, k: Day, e: Day)
    requires h != [] && h[0].date <= last <= e && last - 1 <= k <= last
    ensures Spliced(git, h, ext, last, k, e) == Collect(git, h + ext, e)
            <==> forall d :: h[0].date <= d <= k ==> Unaffected(git, h, ext, d)
  {
    hide ColumnsOf, Rows, SnapAt, CumAt, ChurnSum, On;
    var s, g := h[0].date, h + ext;
    var days := Records(git, h, s, k) + Records(git, g, k + 1, e);
    if forall d :: s <= d <= k ==> Unaffected(git, h, ext, d) {
      SplicedRows(git, h, ext, last, k, e);
      forall d | s <= d <= k ensures RecordOn(git, h, d) == RecordOn(git, g, d) {
        UnaffectedIffSameRecord(git, h, ext, d);
      }
      assert days == Records(git, g, s, e);
    } else {
      var d :| s <= d <= k && !Unaffected(git, h, ext, d);
      UnaffectedIffSameRecord(git, h, ext, d);
      assert days[d] == RecordOn(git, h, d) && Records(git, g, s, e)[d] == RecordOn(git, g, d);
    }
  }

  /**
    The incremental collector, run on the cache of any earlier full collection, returns the
    full collection of the extended history if and only if it did not use the cache (clock
    skew, or churn that landed late on the last cached day) or every day it copied from the
    cache is unaffected by the new commits.
   */
  lemma IncrementalIsFull(git: Git, h: seq<Commit>, ext: seq<Commit>, t: Day, clock: Clock)
    requires h != []
    ensures Usable(Collect(git, h, t))
    ensures Incremental(git, h + ext, Collect(git, h, t), clock)
            == Some(Collect(git, h + ext, EndReading(git, h, ext, t, clock)))
            <==> || clock.entry < LastDay(h, t)
                 || LateChurn(git, h, ext, t, clock)
                 || forall d :: Copied(h, t, clock, d) ==> Unaffected(git, h, ext, d)
  {
    hide ColumnsOf, Records, Rows, ChurnSum, On, Spliced, CollectRange, IncrementalPreState, ResumeFrom, Unaffected;
    var s, last := h[0].date, LastDay(h, t);
    if clock.entry < last {
      PreStateOfCollection(git, h, t, clock.entry);
    } else {
      var k, e := if last < clock.entry then last else last - 1, Max(last, clock.walk);
      if last < clock.entry {
        LaterDayResult(git, h, ext, t, clock);
      } else {
        SameDayResult(git, h, ext, t, clock);
      }
      SplicedIsFull(git, h, ext, last, k, e);
      assert forall d :: Copied(h, t, clock, d) <==> s <= d <= k;
    }
  }

  /**
    The promised case: new commits are not dated before the last cached day. The one
    exception is a last day that had no commit and gained only commits without code churn.
   */
  lemma RecentExtension(git: Git, h: seq<Commit>, ext: seq<Commit>, t: Day, clock: Clock)
    requires h != []
    requires forall i :: 0 <= i < |ext| ==> LastDay(h, t) <= ext[i].date
    ensures Usable(Collect(git, h, t))
    ensures var last := LastDay(h, t);
            Incremental(git, h + ext, Collect(git, h, t), clock)
            == Some(Collect(git, h + ext, EndReading(git, h, ext, t, clock)))
            <==> !(last < clock.entry && On(h, last) == [] && On(ext, last) != [] && ChurnOn(git, ext, last) == 0)
  {
    var last := LastDay(h, t);
    IncrementalIsFull(git, h, ext, t, clock);
    forall d | d < last ensures Unaffected(git, h, ext, d) { OnNonEmpty(ext, d); }
    assert last < clock.entry ==> Copied(h, t, clock, last);
    assert forall d :: Copied(h, t, clock, d) ==> d <= last;
  }

  /**
    The exception happens: a collection on day 1 of a log whose only commit is of day 0,
    then a commit without code churn dated day 1, then an incremental run on day 2.
   */
  lemma QuietLateCommit()
    ensures exists git: Git, h: seq<Commit>, ext: seq<Commit>, t: Day, clock: Clock ::
      && h != [] && Usable(Collect(git, h, t))
      && (forall i :: 0 <= i < |ext| ==> LastDay(h, t) <= ext[i].date)
      && clock.entry == clock.walk == clock.refetch
      && Incremental(git, h + ext, Collect(git, h, t), clock) != Some(Collect(git, h + ext, clock.walk))
  {
    hide Incremental, Collect;
    var git := Git(_ => ZERO_SNAP, _ => 0);
    var h, ext := [Commit(0, "a", "")], [Commit(1, "b", "a")];
    var clock := Clock(2, 2, 2);
    assert On(h, 1) == [] by { OnNonEmpty(h, 1); }
    assert On(ext, 1) != [] by { OnNonEmpty(ext, 1); }
    RecentExtension(git, h, ext, 1, clock);
    assert EndReading(git, h, ext, 1, clock) == clock.walk;
  }
}
