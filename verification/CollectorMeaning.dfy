/**
  What a collection says about the commits of a log, column by column and without the rows it
  is computed from. A row shows the snapshot of the first commit, in log order, of the latest
  day so far that has commits, and the churn of all commits so far.
 */
module CollectorMeaning {
  import opened Wrappers
  import opened CollectorModel

  /** Commit `k` is dated from `s` to `d`. */
  predicate Dated(h: seq<Commit>, k: int, s: Day, d: Day) {
    0 <= k < |h| && s <= h[k].date <= d
  }

  ghost predicate AnyDated(h: seq<Commit>, s: Day, d: Day) {
    exists k :: Dated(h, k, s, d)
  }

  /** Commit `k` is the first of the latest day with commits from `s` to `d`. */
  ghost predicate IsAnchor(h: seq<Commit>, k: int, s: Day, d: Day) {
    Dated(h, k, s, d) && forall j :: Dated(h, j, s, d) ==> h[j].date < h[k].date || (h[j].date == h[k].date && k <= j)
  }

  /** The churn of the commits dated from `s` to `d`. */
  function ChurnBetween(git: Git, h: seq<Commit>, s: Day, d: Day): nat {
    if h == [] then 0
    else
      var last := h[|h| - 1];
      ChurnBetween(git, h[..|h| - 1], s, d) + if s <= last.date <= d then git.churn(last) else 0
  }

  predicate HasRow(c: Columns, i: nat) {
    && i < |c.dates| && i < |c.codeChangedCum| && i < |c.codeTotalLoc| && i < |c.docTotalLoc|
    && i < |c.codeFiles| && i < |c.docFiles| && i < |c.testCases| && i < |c.testLoc|
  }

  /** Every column of row `i` has the field of the snapshot it is named after. */
  predicate Shows(c: Columns, i: nat, snap: Snap)
    requires HasRow(c, i)
  {
    && c.codeTotalLoc[i] == snap.codeTotalLoc && c.docTotalLoc[i] == snap.docTotalLoc
    && c.codeFiles[i] == snap.codeFiles && c.docFiles[i] == snap.docFiles
    && c.testCases[i] == snap.testCases && c.testLoc[i] == snap.testLoc
  }

  ghost predicate RowSays(git: Git, h: seq<Commit>, cum0: int, snap0: Option<Snap>, s: Day, c: Columns, i: nat) {
    && HasRow(c, i)
    && c.dates[i] == s + i
    && c.codeChangedCum[i] == cum0 + ChurnBetween(git, h, s, s + i)
    && SnapSays(git, h, snap0, s, s + i, c, i)
  }

  ghost predicate SnapSays(git: Git, h: seq<Commit>, snap0: Option<Snap>, s: Day, d: Day, c: Columns, i: nat)
    requires HasRow(c, i)
  {
    && (forall k :: IsAnchor(h, k, s, d) ==> Shows(c, i, git.snapshot(h[k].id)))
    && (!AnyDated(h, s, d) ==> Shows(c, i, if snap0.Some? then snap0.value else Snap(0, 0, 0, 0, 0, 0)))
  }

  ghost predicate DaySays(git: Git, h: seq<Commit>, r: DayRecord, d: Day) {
    && (forall k :: IsAnchor(h, k, d, d) ==>
          r.commit == h[k].id && r.snap == Some(git.snapshot(h[k].id)) && r.changed == ChurnBetween(git, h, d, d))
    && (!AnyDated(h, d, d) ==> r.commit == "" && r.snap == None && r.changed == 0)
  }

  /** What the collection of the days `s` to `e` says, started from a total and a snapshot. */
  ghost predicate Says(git: Git, h: seq<Commit>, cum0: int, snap0: Option<Snap>, s: Day, e: Day, r: Result) {
    && Rectangular(r.columns) && |r.columns.dates| == e + 1 - s
    && (forall i :: 0 <= i < |r.columns.dates| ==> RowSays(git, h, cum0, snap0, s, r.columns, i))
    && (forall d :: d in r.days <==> s <= d <= e)
    && (forall d :: d in r.days ==> DaySays(git, h, r.days[d], d))
  }

  // ---------- anchors ----------

  /** If there are commits at all, one of them is the anchor. */
  lemma {:induction false} AnchorExists(h: seq<Commit>, k: int, s: Day, d: Day) returns (a: int)
    requires Dated(h, k, s, d)
    ensures IsAnchor(h, a, s, d)
  {
    var init, m := h[..|h| - 1], |h| - 1;
    if j :| Dated(init, j, s, d) {
      var b := AnchorExists(init, j, s, d);
      a := if Dated(h, m, s, d) && h[b].date < h[m].date then m else b;
      forall j | Dated(h, j, s, d) ensures h[j].date < h[a].date || (h[j].date == h[a].date && a <= j) {
        if j < m { assert Dated(init, j, s, d); }
      }
    } else {
      a := k;
      forall j | Dated(h, j, s, d) ensures j == k {
        if j < m { assert Dated(init, j, s, d); }
        if k < m { assert Dated(init, k, s, d); }
      }
    }
  }

  /** The first commit of a day. */
  lemma {:induction false} FirstOn(h: seq<Commit>, d: Day, k: int)
    requires IsAnchor(h, k, d, d)
    ensures On(h, d) != [] && On(h, d)[0] == h[k]
  {
    var init, m := h[..|h| - 1], |h| - 1;
    assert h[m].date == d ==> Dated(h, m, d, d);
    if k < m {
      assert IsAnchor(init, k, d, d) by {
        forall j | Dated(init, j, d, d) ensures k <= j { assert Dated(h, j, d, d); }
      }
      FirstOn(init, d, k);
    } else {
      OnNonEmpty(init, d);
      forall j | 0 <= j < |init| ensures init[j].date != d { assert !Dated(h, j, d, d); }
    }
  }

  lemma NoneOn(h: seq<Commit>, d: Day)
    ensures On(h, d) != [] <==> AnyDated(h, d, d)
  {
    OnNonEmpty(h, d);
    forall i | 0 <= i < |h| && h[i].date == d ensures Dated(h, i, d, d) {}
    if AnyDated(h, d, d) {
      var k :| Dated(h, k, d, d);
      assert h[k].date == d;
    }
  }

  // ---------- churn ----------

  lemma {:induction false} ChurnOfDay(git: Git, h: seq<Commit>, d: Day)
    ensures ChurnBetween(git, h, d, d) == ChurnOn(git, h, d)
  {
    if h != [] { ChurnOfDay(git, h[..|h| - 1], d); }
  }

  lemma {:induction false} ChurnSplits(git: Git, h: seq<Commit>, s: Day, d: Day)
    requires s <= d
    ensures ChurnBetween(git, h, s, d) == ChurnBetween(git, h, s, d - 1) + ChurnBetween(git, h, d, d)
  {
    if h != [] { ChurnSplits(git, h[..|h| - 1], s, d); }
  }

  lemma {:induction false} NoChurn(git: Git, h: seq<Commit>, s: Day)
    ensures ChurnBetween(git, h, s, s - 1) == 0
  {
    if h != [] { NoChurn(git, h[..|h| - 1], s); }
  }

  lemma {:induction false} TotalIs(git: Git, h: seq<Commit>, cum0: int, s: Day, d: Day)
    requires s <= d + 1
    ensures CumAt(git, h, cum0, s, d) == cum0 + ChurnBetween(git, h, s, d)
    decreases d - s + 1
  {
    if d < s {
      NoChurn(git, h, s);
    } else {
      TotalIs(git, h, cum0, s, d - 1);
      ChurnSplits(git, h, s, d);
      ChurnOfDay(git, h, d);
    }
  }

  // ---------- snapshots ----------

  lemma {:induction false} SnapIs(git: Git, h: seq<Commit>, snap0: Option<Snap>, s: Day, d: Day)
    requires s <= d
    ensures forall k :: IsAnchor(h, k, s, d) ==> SnapAt(git, h, snap0, s, d) == git.snapshot(h[k].id)
    ensures !AnyDated(h, s, d) ==>
      SnapAt(git, h, snap0, s, d) == if snap0.Some? then snap0.value else Snap(0, 0, 0, 0, 0, 0)
    decreases d - s
  {
    hide On;
    NoneOn(h, d);
    if On(h, d) != [] {
      var k0 :| Dated(h, k0, d, d);
      assert Dated(h, k0, s, d);
      forall k | IsAnchor(h, k, s, d) ensures On(h, d)[0] == h[k] {
        assert h[k].date == d;
        assert IsAnchor(h, k, d, d) by {
          forall j | Dated(h, j, d, d) ensures k <= j { assert Dated(h, j, s, d); }
        }
        FirstOn(h, d, k);
      }
    } else {
      forall k ensures Dated(h, k, s, d) <==> Dated(h, k, s, d - 1) { assert !Dated(h, k, d, d); }
      if s < d {
        SnapIs(git, h, snap0, s, d - 1);
        forall k | IsAnchor(h, k, s, d) ensures IsAnchor(h, k, s, d - 1) {}
        if AnyDated(h, s, d - 1) {
          var k :| Dated(h, k, s, d - 1);
          assert Dated(h, k, s, d);
        }
      } else {
        forall k ensures !Dated(h, k, s, d) { assert !Dated(h, k, d, d); }
      }
    }
  }

  lemma RecordIs(git: Git, h: seq<Commit>, d: Day)
    ensures DaySays(git, h, RecordOn(git, h, d), d)
  {
    hide On;
    NoneOn(h, d);
    ChurnOfDay(git, h, d);
    forall k | IsAnchor(h, k, d, d) ensures On(h, d) != [] && On(h, d)[0] == h[k] { FirstOn(h, d, k); }
  }

  // ---------- a collection ----------

  lemma {:induction false} ColumnsShow(rows: seq<Row>, i: nat)
    requires i < |rows|
    ensures HasRow(ColumnsOf(rows), i) && Shows(ColumnsOf(rows), i, rows[i].snap)
    ensures ColumnsOf(rows).dates[i] == rows[i].day && ColumnsOf(rows).codeChangedCum[i] == rows[i].cum
  {
    var m := |rows| - 1;
    ColumnsOfAt(rows, 0);
    ColumnsOfAt(rows[..m], 0);
    if i < m { ColumnsShow(rows[..m], i); }
  }

  lemma RangeSays(git: Git, h: seq<Commit>, cum0: int, snap0: Option<Snap>, s: Day, e: Day)
    requires s <= e + 1
    ensures Says(git, h, cum0, snap0, s, e, CollectRange(git, h, cum0, snap0, s, e))
  {
    var r, rows := CollectRange(git, h, cum0, snap0, s, e), Rows(git, h, cum0, snap0, s, e);
    RangeShape(git, h, cum0, snap0, s, e);
    forall i | 0 <= i < |rows| ensures RowSays(git, h, cum0, snap0, s, r.columns, i) {
      RowMeans(git, h, cum0, snap0, s, e, i);
    }
    forall d | s <= d <= e ensures DaySays(git, h, r.days[d], d) { RecordIs(git, h, d); }
  }

  lemma RowMeans(git: Git, h: seq<Commit>, cum0: int, snap0: Option<Snap>, s: Day, e: Day, i: nat)
    requires s + i <= e
    ensures RowSays(git, h, cum0, snap0, s, CollectRange(git, h, cum0, snap0, s, e).columns, i)
  {
    hide ColumnsOf, Rows, SnapAt, CumAt, IsAnchor;
    ColumnsShow(Rows(git, h, cum0, snap0, s, e), i);
    RowsAt(git, h, cum0, snap0, s, e, i);
    TotalIs(git, h, cum0, s, s + i);
    SnapIs(git, h, snap0, s, s + i);
  }

  /** Nothing is left open: two results that say it are the same. */
  lemma SaysIsUnique(git: Git, h: seq<Commit>, cum0: int, snap0: Option<Snap>, s: Day, e: Day, a: Result, b: Result)
    requires Says(git, h, cum0, snap0, s, e, a) && Says(git, h, cum0, snap0, s, e, b)
    ensures a == b
  {
    hide RowSays, DaySays;
    forall i: nat | i < |a.columns.dates| ensures SameRow(a.columns, b.columns, i) {
      RowIsUnique(git, h, cum0, snap0, s, a.columns, b.columns, i);
    }
    SameColumns(a.columns, b.columns);
    forall d | d in a.days ensures a.days[d] == b.days[d] { DayIsUnique(git, h, a.days[d], b.days[d], d); }
    forall d: Day ensures d in a.days <==> d in b.days {
      assert d in a.days <==> s <= d <= e;
      assert d in b.days <==> s <= d <= e;
    }
    SameMaps(a.days, b.days);
  }

  lemma SameMaps<K, V>(a: map<K, V>, b: map<K, V>)
    requires forall k :: k in a <==> k in b
    requires forall k :: k in a ==> a[k] == b[k]
    ensures a == b
  {
    assert a.Keys == b.Keys;
  }

  ghost predicate SameRow(a: Columns, b: Columns, i: nat) {
    && HasRow(a, i) && HasRow(b, i) && a.dates[i] == b.dates[i] && a.codeChangedCum[i] == b.codeChangedCum[i]
    && a.codeTotalLoc[i] == b.codeTotalLoc[i] && a.docTotalLoc[i] == b.docTotalLoc[i]
    && a.codeFiles[i] == b.codeFiles[i] && a.docFiles[i] == b.docFiles[i]
    && a.testCases[i] == b.testCases[i] && a.testLoc[i] == b.testLoc[i]
  }

  lemma RowIsUnique(git: Git, h: seq<Commit>, cum0: int, snap0: Option<Snap>, s: Day, a: Columns, b: Columns, i: nat)
    requires RowSays(git, h, cum0, snap0, s, a, i) && RowSays(git, h, cum0, snap0, s, b, i)
    ensures SameRow(a, b, i)
  {
    hide IsAnchor, SnapSays, Shows, ChurnBetween;
    var snap := ShownSnap(git, h, snap0, s, s + i, a, b, i);
    ShowsSame(a, b, i, snap);
  }

  lemma ShownSnap(git: Git, h: seq<Commit>, snap0: Option<Snap>, s: Day, d: Day, a: Columns, b: Columns, i: nat)
    returns (snap: Snap)
    requires HasRow(a, i) && HasRow(b, i) && SnapSays(git, h, snap0, s, d, a, i) && SnapSays(git, h, snap0, s, d, b, i)
    ensures Shows(a, i, snap) && Shows(b, i, snap)
  {
    if AnyDated(h, s, d) {
      var k :| Dated(h, k, s, d);
      var x := AnchorExists(h, k, s, d);
      snap := git.snapshot(h[x].id);
    } else {
      snap := if snap0.Some? then snap0.value else Snap(0, 0, 0, 0, 0, 0);
    }
  }

  lemma ShowsSame(a: Columns, b: Columns, i: nat, snap: Snap)
    requires HasRow(a, i) && HasRow(b, i) && Shows(a, i, snap) && Shows(b, i, snap)
    requires a.dates[i] == b.dates[i] && a.codeChangedCum[i] == b.codeChangedCum[i]
    ensures SameRow(a, b, i)
  {
  }

  lemma DayIsUnique(git: Git, h: seq<Commit>, a: DayRecord, b: DayRecord, d: Day)
    requires DaySays(git, h, a, d) && DaySays(git, h, b, d)
    ensures a == b
  {
    if AnyDated(h, d, d) {
      var k :| Dated(h, k, d, d);
      var x := AnchorExists(h, k, d, d);
      hide IsAnchor;
      assert a.commit == b.commit;
    }
  }

  lemma SameColumns(a: Columns, b: Columns)
    requires Rectangular(a) && Rectangular(b) && |a.dates| == |b.dates|
    requires forall i: nat :: i < |a.dates| ==> SameRow(a, b, i)
    ensures a == b
  {
    forall i: nat | i < |a.dates|
      ensures a.dates[i] == b.dates[i] && a.codeChangedCum[i] == b.codeChangedCum[i]
        && a.codeTotalLoc[i] == b.codeTotalLoc[i] && a.docTotalLoc[i] == b.docTotalLoc[i]
        && a.codeFiles[i] == b.codeFiles[i] && a.docFiles[i] == b.docFiles[i]
        && a.testCases[i] == b.testCases[i] && a.testLoc[i] == b.testLoc[i]
    {
      assert SameRow(a, b, i);
    }
    Same(a.dates, b.dates);
    Same(a.codeChangedCum, b.codeChangedCum);
    Same(a.codeTotalLoc, b.codeTotalLoc);
    Same(a.docTotalLoc, b.docTotalLoc);
    Same(a.codeFiles, b.codeFiles);
    Same(a.docFiles, b.docFiles);
    Same(a.testCases, b.testCases);
    Same(a.testLoc, b.testLoc);
  }

  lemma Same<T>(a: seq<T>, b: seq<T>)
    requires |a| == |b| && forall i: nat :: i < |a| ==> a[i] == b[i]
    ensures a == b
  {
  }
}
