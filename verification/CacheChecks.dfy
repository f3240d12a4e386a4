/**
  What `load_cache` and `_validate_semantics` accept of a cache that is already typed. Which
  JSON values are caches at all is in module CacheFile.
 */
module CacheChecks {
  import opened Wrappers
  import opened CollectorModel

  ghost predicate Ascending(dates: seq<Day>) {
    forall i, j :: 0 <= i < j < |dates| ==> dates[i] < dates[j]
  }

  ghost predicate Acceptable(c: Result) {
    && Rectangular(c.columns)
    && c.columns.dates != []
    && Ascending(c.columns.dates)
    && c.days.Keys == set i | 0 <= i < |c.columns.dates| :: c.columns.dates[i]
  }

  function CacheLast(c: Result): Day
    requires c.columns.dates != []
  {
    c.columns.dates[|c.columns.dates| - 1]
  }

  /** The part of `Acceptable` that the incremental collector relies on. */
  ghost predicate Usable(c: Result) {
    Rectangular(c.columns) && c.columns.dates != [] && CacheLast(c) in c.days
  }

  lemma AcceptableIsUsable(c: Result)
    requires Acceptable(c)
    ensures Usable(c)
  {
    assert c.columns.dates[|c.columns.dates| - 1] in c.days;
  }

  method AscendingDates(dates: seq<Day>) returns (ok: bool)
    ensures ok <==> Ascending(dates)
  {
    var prev: Option<Day> := None;
    for k := 0 to |dates|
      invariant Ascending(dates[..k])
      invariant prev == if k == 0 then None else Some(dates[k - 1])
    {
      if prev.Some? && dates[k] <= prev.value {
        assert dates[k - 1] >= dates[k];
        return false;
      }
      assert forall i :: 0 <= i < k ==> dates[..k][i] == dates[i];
      prev := Some(dates[k]);
    }
    assert dates[..|dates|] == dates;
    ok := true;
  }

  method LoadCache(data: Result) returns (r: Option<Result>)
    ensures r == if Acceptable(data) then Some(data) else None
  {
    var cols := data.columns;
    var lengths := [|cols.dates|, |cols.codeTotalLoc|, |cols.codeChangedCum|, |cols.docTotalLoc|,
                    |cols.codeFiles|, |cols.docFiles|, |cols.testCases|, |cols.testLoc|];
    for k := 0 to |lengths|
      invariant forall j :: 0 <= j < k ==> lengths[j] == |cols.dates|
    {
      if lengths[k] != |cols.dates| {
        assert !Rectangular(cols);
        return None;
      }
    }
    assert lengths[1] == lengths[2] == lengths[3] == lengths[4] == lengths[5] == lengths[6] == lengths[7] == |cols.dates|;
    if |cols.dates| == 0 { return None; }
    var ok := AscendingDates(cols.dates);
    if !ok || data.days.Keys != set i | 0 <= i < |cols.dates| :: cols.dates[i] { return None; }
    r := Some(data);
  }

  lemma CollectionUsable(git: Git, h: seq<Commit>, today: Day)
    requires h != []
    ensures Usable(Collect(git, h, today)) && CacheLast(Collect(git, h, today)) == LastDay(h, today)
  {
    RangeShape(git, h, 0, None, h[0].date, LastDay(h, today));
  }

  /** The checks accept what a full collection saves, except the collection of an empty log. */
  lemma CollectionAccepted(git: Git, h: seq<Commit>, today: Day)
    ensures Acceptable(Collect(git, h, today)) <==> h != []
  {
    if h != [] {
      var c := Collect(git, h, today);
      var s, e := h[0].date, LastDay(h, today);
      RangeShape(git, h, 0, None, s, e);
      forall d ensures d in c.days <==> d in (set i | 0 <= i < |c.columns.dates| :: c.columns.dates[i]) {
        if s <= d <= e { assert c.columns.dates[d - s] == d; }
      }
    }
  }
}
