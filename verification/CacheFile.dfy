/**
  The cache file of the statistics collector (`scripts/code-stats/cache.py`): what `load_cache`
  accepts among all JSON values, with the comparisons and type tests of Python, and that it
  accepts what the collector saves exactly when the collection is acceptable.
 */
module CacheFile {
  import opened Wrappers
  import opened StringOrder
  import opened CollectorModel
  import CacheChecks

  datatype Json =
    | Null
    | Bool(b: bool)
    | Int(n: int)
    | Float(x: real)
    | Text(s: string)
    | List(items: seq<Json>)
    | Object(fields: map<string, Json>)

  const REQUIRED_COLUMNS := [
    "dates", "code_total_loc", "code_changed_cum", "doc_total_loc",
    "code_files", "doc_files", "test_cases", "test_loc"]

  // ---------- what is accepted ----------

  /** `value == 1`: Python takes `True` and `1.0` for 1. */
  predicate IsOne(j: Json) {
    j == Bool(true) || j == Int(1) || j == Float(1.0)
  }

  /** The pattern `^\d{4}-\d{2}-\d{2}$`: a line feed may follow, and `\d` takes any digit. */
  predicate IsDate(isDigit: char -> bool, s: string) {
    && (|s| == 10 || (|s| == 11 && s[10] == '\n'))
    && (forall i :: 0 <= i < 10 ==> if i == 4 || i == 7 then s[i] == '-' else isDigit(s[i]))
  }

  /** A record of a day; missing fields have defaults, and `True` is an `int`. */
  predicate RecordOk(rec: Json) {
    && rec.Object?
    && ("commit" in rec.fields ==> rec.fields["commit"].Text?)
    && ("changed" in rec.fields ==> rec.fields["changed"].Int? || rec.fields["changed"].Bool?)
    && ("snap" in rec.fields ==> rec.fields["snap"].Null? || rec.fields["snap"].Object?)
  }

  predicate ColumnOk(cols: map<string, Json>, key: string) {
    && key in cols && cols[key].List? && "dates" in cols && cols["dates"].List?
    && |cols[key].items| == |cols["dates"].items|
  }

  predicate AllTexts(items: seq<Json>) {
    forall i :: 0 <= i < |items| ==> items[i].Text?
  }

  function TextsOf(items: seq<Json>): seq<string>
    requires AllTexts(items)
  {
    seq(|items|, i requires 0 <= i < |items| => items[i].s)
  }

  /** The dates are dates, in ascending order. */
  ghost predicate DatesOk(isDigit: char -> bool, items: seq<Json>) {
    && AllTexts(items)
    && (forall i :: 0 <= i < |items| ==> IsDate(isDigit, items[i].s))
    && Ascending(TextsOf(items))
  }

  ghost predicate DaysOk(days: map<string, Json>, dates: seq<Json>) {
    && AllTexts(dates)
    && (forall d :: d in days <==> d in TextsOf(dates))
    && (forall d :: d in days ==> RecordOk(days[d]))
  }

  ghost predicate Acceptable(isDigit: char -> bool, data: Json) {
    && data.Object?
    && "schema_version" in data.fields && IsOne(data.fields["schema_version"])
    && "columns" in data.fields && data.fields["columns"].Object?
    && "days" in data.fields && data.fields["days"].Object?
    && var cols := data.fields["columns"].fields;
       && (forall i :: 0 <= i < |REQUIRED_COLUMNS| ==> ColumnOk(cols, REQUIRED_COLUMNS[i]))
       && "dates" in cols && cols["dates"].List? && cols["dates"].items != []
       && DatesOk(isDigit, cols["dates"].items)
       && DaysOk(data.fields["days"].fields, cols["dates"].items)
  }

  // ---------- the tests from the values alone ----------

  /** What a value is as a number in Python. */
  function Number(j: Json): Option<real> {
    match j
    case Bool(b) => Some(if b then 1.0 else 0.0)
    case Int(n) => Some(n as real)
    case Float(x) => Some(x)
    case _ => None
  }

  lemma IsOneIff(j: Json)
    ensures IsOne(j) <==> Number(j) == Some(1.0)
  {
  }

  predicate AllDigits(isDigit: char -> bool, s: string) {
    forall i :: 0 <= i < |s| ==> isDigit(s[i])
  }

  /** A date is a year, a month and a day with dashes between them, perhaps with a line feed behind. */
  lemma IsDateIff(isDigit: char -> bool, s: string)
    ensures IsDate(isDigit, s) <==>
      exists y: string, m: string, d: string, end: string :: IsDateOf(isDigit, s, y, m, d, end)
  {
    if IsDate(isDigit, s) {
      var y, m, d, end := s[..4], s[5..7], s[8..10], s[10..];
      assert s == y + "-" + m + "-" + d + end;
      assert end == if |s| == 10 then "" else "\n";
      assert IsDateOf(isDigit, s, y, m, d, end);
    }
    if exists y: string, m: string, d: string, end: string :: IsDateOf(isDigit, s, y, m, d, end) {
      var y: string, m: string, d: string, end: string :| IsDateOf(isDigit, s, y, m, d, end);
      DateOfIs(isDigit, s, y, m, d, end);
    }
  }

  ghost predicate IsDateOf(isDigit: char -> bool, s: string, y: string, m: string, d: string, end: string) {
    && s == y + "-" + m + "-" + d + end && |y| == 4 && |m| == |d| == 2 && end in {"", "\n"}
    && AllDigits(isDigit, y) && AllDigits(isDigit, m) && AllDigits(isDigit, d)
  }

  lemma DateOfIs(isDigit: char -> bool, s: string, y: string, m: string, d: string, end: string)
    requires IsDateOf(isDigit, s, y, m, d, end)
    ensures IsDate(isDigit, s)
  {
    assert s[4] == '-' && s[7] == '-';
    assert s[0] == y[0] && s[1] == y[1] && s[2] == y[2] && s[3] == y[3];
    assert s[5] == m[0] && s[6] == m[1] && s[8] == d[0] && s[9] == d[1];
  }

  /** `rec.get(key, default)`. */
  function Get(fields: map<string, Json>, key: string, default: Json): Json {
    if key in fields then fields[key] else default
  }

  lemma RecordOkIff(rec: Json)
    ensures RecordOk(rec) <==>
      && rec.Object?
      && Get(rec.fields, "commit", Text("")).Text?
      && (Get(rec.fields, "changed", Int(0)).Int? || Get(rec.fields, "changed", Int(0)).Bool?)
      && (Get(rec.fields, "snap", Null).Null? || Get(rec.fields, "snap", Null).Object?)
  {
  }

  // ---------- loading ----------

  lemma AscendingSnoc(s: seq<string>, x: string)
    requires Ascending(s) && (s != [] ==> !Le(x, s[|s| - 1]))
    ensures Ascending(s + [x])
  {
    if s != [] {
      var m := |s| - 1;
      LeTotal(x, s[m]);
      forall i | 0 <= i < |s| ensures Le(s[i], x) && s[i] != x {
        LeReflexive(x);
        if i < m {
          LeTransitive(s[i], s[m], x);
        }
      }
    }
  }

  lemma NotAscending(s: seq<string>, k: nat)
    requires 0 < k < |s| && Le(s[k], s[k - 1])
    ensures !Ascending(s)
  {
    if Ascending(s) {
      LeAntisymmetric(s[k - 1], s[k]);
    }
  }

  lemma TextsSnoc(items: seq<Json>, j: Json)
    requires AllTexts(items) && j.Text?
    ensures AllTexts(items + [j]) && TextsOf(items + [j]) == TextsOf(items) + [j.s]
  {
    var all := items + [j];
    assert all[|items|] == j && forall i :: 0 <= i < |items| ==> all[i] == items[i];
  }

  method CheckDates(isDigit: char -> bool, items: seq<Json>) returns (ok: bool)
    ensures ok <==> DatesOk(isDigit, items)
  {
    hide Le, IsDate;
    var prev: Option<string> := None;
    for k := 0 to |items|
      invariant AllTexts(items[..k]) && Ascending(TextsOf(items[..k]))
      invariant forall i :: 0 <= i < k ==> IsDate(isDigit, items[i].s)
      invariant prev == if k == 0 then None else Some(items[k - 1].s)
    {
      if !items[k].Text? || !IsDate(isDigit, items[k].s) { return false; }
      var d := items[k].s;
      ghost var done := TextsOf(items[..k]);
      TextsSnoc(items[..k], items[k]);
      assert items[..k + 1] == items[..k] + [items[k]];
      if prev.Some? && Le(d, prev.value) {
        if AllTexts(items) { NotAscending(TextsOf(items), k); }
        return false;
      }
      AscendingSnoc(done, d);
      prev := Some(d);
    }
    assert items[..|items|] == items;
    ok := true;
  }

  method CheckColumns(cols: map<string, Json>) returns (ok: bool)
    ensures ok <==> forall i :: 0 <= i < |REQUIRED_COLUMNS| ==> ColumnOk(cols, REQUIRED_COLUMNS[i])
  {
    for k := 0 to |REQUIRED_COLUMNS|
      invariant forall i :: 0 <= i < k ==> ColumnOk(cols, REQUIRED_COLUMNS[i])
    {
      var key := REQUIRED_COLUMNS[k];
      if key !in cols || !cols[key].List? {
        assert !ColumnOk(cols, key);
        return false;
      }
      assert "dates" in cols && cols["dates"].List? by { if k > 0 { assert ColumnOk(cols, REQUIRED_COLUMNS[0]); } }
      if |cols[key].items| != |cols["dates"].items| {
        assert !ColumnOk(cols, key);
        return false;
      }
    }
    ok := true;
  }

  method CheckDays(days: map<string, Json>, dates: seq<Json>) returns (ok: bool)
    requires AllTexts(dates)
    ensures ok <==> DaysOk(days, dates)
  {
    hide RecordOk;
    var texts := TextsOf(dates);
    if days.Keys != set i | 0 <= i < |texts| :: texts[i] {
      assert !(forall d :: d in days <==> d in texts);
      return false;
    }
    assert forall d :: d in days <==> d in texts;
    var left := days.Keys;
    while left != {}
      invariant left <= days.Keys && forall d :: d in days && d !in left ==> RecordOk(days[d])
      decreases |left|
    {
      var d :| d in left;
      if !RecordOk(days[d]) { return false; }
      left := left - {d};
    }
    ok := true;
  }

  /** `load_cache` on the value read from the file, if one could be read. */
  method LoadCache(isDigit: char -> bool, file: Option<Json>) returns (r: Option<Json>)
    ensures r == if file.Some? && Acceptable(isDigit, file.value) then file else None
  {
    hide DatesOk, DaysOk, ColumnOk;
    if file.None? { return None; }
    var data := file.value;
    if !data.Object? { return None; }
    if "schema_version" !in data.fields || !IsOne(data.fields["schema_version"]) { return None; }
    if "columns" !in data.fields || "days" !in data.fields { return None; }
    var columns, days := data.fields["columns"], data.fields["days"];
    if !columns.Object? || !days.Object? { return None; }
    var cols := columns.fields;
    var ok := CheckColumns(cols);
    if !ok { return None; }
    if "dates" !in cols || !cols["dates"].List? || cols["dates"].items == [] { return None; }
    ok := CheckDates(isDigit, cols["dates"].items);
    if !ok { return None; }
    TextsFirst(isDigit, cols["dates"].items);
    ok := CheckDays(days.fields, cols["dates"].items);
    if !ok { return None; }
    r := file;
  }

  lemma TextsFirst(isDigit: char -> bool, items: seq<Json>)
    requires DatesOk(isDigit, items)
    ensures AllTexts(items)
  {
  }

  // ---------- saving ----------

  /** How the days of a result are written; `YYYY-MM-DD` compares like the calendar. */
  ghost predicate Calendar(isDigit: char -> bool, show: Day -> string, used: set<Day>) {
    && (forall d :: d in used ==> IsDate(isDigit, show(d)))
    && (forall d, e :: d in used && e in used && d < e ==> Le(show(d), show(e)) && show(d) != show(e))
  }

  function DateSet(result: Result): set<Day> {
    set i | 0 <= i < |result.columns.dates| :: result.columns.dates[i]
  }

  function UsedDays(result: Result): set<Day> {
    result.days.Keys + DateSet(result)
  }

  function Ints(s: seq<int>): Json {
    List(seq(|s|, i requires 0 <= i < |s| => Int(s[i])))
  }

  function Dates(show: Day -> string, s: seq<Day>): Json {
    List(seq(|s|, i requires 0 <= i < |s| => Text(show(s[i]))))
  }

  function SnapJson(s: Snap): Json {
    Object(map["code_total_loc" := Int(s.codeTotalLoc), "test_cases" := Int(s.testCases), "test_loc" := Int(s.testLoc),
               "code_files" := Int(s.codeFiles), "doc_total_loc" := Int(s.docTotalLoc), "doc_files" := Int(s.docFiles)])
  }

  function RecordJson(r: DayRecord): Json {
    Object(map["commit" := Text(r.commit), "changed" := Int(r.changed),
               "snap" := if r.snap.Some? then SnapJson(r.snap.value) else Null])
  }

  function ColumnsJson(show: Day -> string, c: Columns): Json {
    Object(map["dates" := Dates(show, c.dates), "code_total_loc" := Ints(c.codeTotalLoc),
               "code_changed_cum" := Ints(c.codeChangedCum), "doc_total_loc" := Ints(c.docTotalLoc),
               "code_files" := Ints(c.codeFiles), "doc_files" := Ints(c.docFiles),
               "test_cases" := Ints(c.testCases), "test_loc" := Ints(c.testLoc)])
  }

  /** `days` is the saved form of the records: one field per day. */
  ghost predicate AreDays(show: Day -> string, records: map<Day, DayRecord>, days: map<string, Json>) {
    && (forall d :: d in records ==> show(d) in days && days[show(d)] == RecordJson(records[d]))
    && (forall s :: s in days ==> exists d :: d in records && show(d) == s)
  }

  /** `_build_cache_payload`. */
  function Payload(show: Day -> string, result: Result, days: map<string, Json>, head: string, at: string): Json {
    Object(map["schema_version" := Int(1), "head" := Text(head), "generated_at" := Text(at),
               "columns" := ColumnsJson(show, result.columns), "days" := Object(days)])
  }

  // ---------- what a saved file holds ----------

  /** Column `key` holds the numbers `s`. */
  ghost predicate HoldsColumn(cols: map<string, Json>, key: string, s: seq<int>) {
    && key in cols && cols[key].List? && |cols[key].items| == |s|
    && forall i :: 0 <= i < |s| ==> cols[key].items[i] == Int(s[i])
  }

  predicate HoldsInt(fields: map<string, Json>, key: string, n: int) {
    key in fields && fields[key] == Int(n)
  }

  ghost predicate HoldsSnap(j: Json, snap: Snap) {
    && j.Object?
    && HoldsInt(j.fields, "code_total_loc", snap.codeTotalLoc) && HoldsInt(j.fields, "doc_total_loc", snap.docTotalLoc)
    && HoldsInt(j.fields, "code_files", snap.codeFiles) && HoldsInt(j.fields, "doc_files", snap.docFiles)
    && HoldsInt(j.fields, "test_cases", snap.testCases) && HoldsInt(j.fields, "test_loc", snap.testLoc)
  }

  ghost predicate HoldsRecord(j: Json, r: DayRecord) {
    && j.Object?
    && "commit" in j.fields && j.fields["commit"] == Text(r.commit)
    && HoldsInt(j.fields, "changed", r.changed)
    && "snap" in j.fields && if r.snap.Some? then HoldsSnap(j.fields["snap"], r.snap.value) else j.fields["snap"] == Null
  }

  ghost predicate HoldsColumns(show: Day -> string, cols: map<string, Json>, c: Columns) {
    && "dates" in cols && cols["dates"].List? && |cols["dates"].items| == |c.dates|
    && (forall i :: 0 <= i < |c.dates| ==> cols["dates"].items[i] == Text(show(c.dates[i])))
    && HoldsColumn(cols, "code_total_loc", c.codeTotalLoc) && HoldsColumn(cols, "code_changed_cum", c.codeChangedCum)
    && HoldsColumn(cols, "doc_total_loc", c.docTotalLoc) && HoldsColumn(cols, "code_files", c.codeFiles)
    && HoldsColumn(cols, "doc_files", c.docFiles) && HoldsColumn(cols, "test_cases", c.testCases)
    && HoldsColumn(cols, "test_loc", c.testLoc)
  }

  /** Read by its keys, the file holds every column and every day record of the result. */
  ghost predicate Holds(show: Day -> string, data: Json, result: Result) {
    && data.Object? && "columns" in data.fields && data.fields["columns"].Object?
    && HoldsColumns(show, data.fields["columns"].fields, result.columns)
    && "days" in data.fields && data.fields["days"].Object?
    && forall d :: d in result.days ==>
         show(d) in data.fields["days"].fields && HoldsRecord(data.fields["days"].fields[show(d)], result.days[d])
  }

  lemma RecordHolds(r: DayRecord)
    ensures HoldsRecord(RecordJson(r), r)
  {
  }

  lemma ColumnsHold(show: Day -> string, c: Columns)
    ensures HoldsColumns(show, ColumnsJson(show, c).fields, c)
  {
  }

  /** What is saved can be read back, field by field. */
  lemma PayloadHolds(show: Day -> string, result: Result, days: map<string, Json>, head: string, at: string)
    requires AreDays(show, result.days, days)
    ensures Holds(show, Payload(show, result, days, head, at), result)
  {
    PayloadIs(show, result, days, head, at);
    ColumnsHold(show, result.columns);
    hide Payload, ColumnsJson, HoldsColumns, HoldsRecord, RecordJson;
    forall d | d in result.days ensures show(d) in days && HoldsRecord(days[show(d)], result.days[d]) {
      RecordHolds(result.days[d]);
    }
    var data := Payload(show, result, days, head, at);
    assert data.fields["columns"].Object? by { ColumnsAreObject(show, result.columns); }
  }

  lemma ColumnsAreObject(show: Day -> string, c: Columns)
    ensures ColumnsJson(show, c).Object?
  {
  }

  lemma ShowsOrder(isDigit: char -> bool, show: Day -> string, used: set<Day>, d: Day, e: Day)
    requires Calendar(isDigit, show, used) && d in used && e in used
    ensures show(d) == show(e) <==> d == e
    ensures Le(show(d), show(e)) <==> d <= e
  {
    LeReflexive(show(d));
    if e < d && Le(show(d), show(e)) { LeAntisymmetric(show(d), show(e)); }
  }

  lemma ShowsDate(isDigit: char -> bool, show: Day -> string, used: set<Day>, d: Day)
    requires Calendar(isDigit, show, used) && d in used
    ensures IsDate(isDigit, show(d))
  {
  }

  /** The dates pass exactly when the days ascend. */
  lemma SavedDates(isDigit: char -> bool, show: Day -> string, result: Result)
    requires Calendar(isDigit, show, UsedDays(result))
    ensures DatesOk(isDigit, Dates(show, result.columns.dates).items) <==> CacheChecks.Ascending(result.columns.dates)
  {
    hide IsDate, Le;
    var dates := result.columns.dates;
    var items := Dates(show, dates).items;
    var texts := TextsOf(items);
    forall i | 0 <= i < |dates| ensures dates[i] in UsedDays(result) && IsDate(isDigit, items[i].s) && texts[i] == show(dates[i]) {
      assert dates[i] in DateSet(result);
      ShowsDate(isDigit, show, UsedDays(result), dates[i]);
      assert items[i].s == show(dates[i]);
    }
    forall i, j | 0 <= i < j < |dates| ensures Le(texts[i], texts[j]) && texts[i] != texts[j] <==> dates[i] < dates[j] {
      ShowsOrder(isDigit, show, UsedDays(result), dates[i], dates[j]);
    }
  }

  lemma SavedRecord(r: DayRecord)
    ensures RecordOk(RecordJson(r))
  {
  }

  lemma SavedRecords(show: Day -> string, records: map<Day, DayRecord>, days: map<string, Json>)
    requires AreDays(show, records, days)
    ensures forall s :: s in days ==> RecordOk(days[s])
  {
    hide RecordOk, RecordJson;
    forall s | s in days ensures RecordOk(days[s]) {
      var d :| d in records && show(d) == s;
      SavedRecord(records[d]);
    }
  }

  /** A used day is saved under its text exactly when it has a record. */
  lemma SavedDay(isDigit: char -> bool, show: Day -> string, result: Result, days: map<string, Json>, d: Day)
    requires Calendar(isDigit, show, UsedDays(result)) && AreDays(show, result.days, days) && d in UsedDays(result)
    ensures show(d) in days <==> d in result.days
    ensures show(d) in TextsOf(Dates(show, result.columns.dates).items) <==> d in DateSet(result)
  {
    hide IsDate, Le, RecordJson;
    var dates := result.columns.dates;
    var texts := TextsOf(Dates(show, dates).items);
    if show(d) in days {
      var e :| e in result.days && show(e) == show(d);
      ShowsOrder(isDigit, show, UsedDays(result), d, e);
    }
    if show(d) in texts {
      var i :| 0 <= i < |texts| && texts[i] == show(d);
      assert dates[i] in DateSet(result);
      ShowsOrder(isDigit, show, UsedDays(result), d, dates[i]);
    }
    if d in DateSet(result) {
      var i :| 0 <= i < |dates| && dates[i] == d;
      assert texts[i] == show(d);
    }
  }

  /** The days pass exactly when there is one record per date. */
  lemma SavedDays(isDigit: char -> bool, show: Day -> string, result: Result, days: map<string, Json>)
    requires Calendar(isDigit, show, UsedDays(result)) && AreDays(show, result.days, days)
    ensures DaysOk(days, Dates(show, result.columns.dates).items) <==> result.days.Keys == DateSet(result)
  {
    hide Calendar, RecordOk, RecordJson;
    var dates := result.columns.dates;
    var texts := TextsOf(Dates(show, dates).items);
    SavedRecords(show, result.days, days);
    forall d | d in UsedDays(result)
      ensures (show(d) in days <==> d in result.days) && (show(d) in texts <==> d in DateSet(result))
    {
      SavedDay(isDigit, show, result, days, d);
    }
    if forall s :: s in days <==> s in texts {
      forall d ensures d in result.days.Keys <==> d in DateSet(result) {
        if d in UsedDays(result) { assert show(d) in days <==> show(d) in texts; }
      }
    }
    if result.days.Keys == DateSet(result) {
      forall s ensures s in days <==> s in texts {
        if s in days {
          var d :| d in result.days && show(d) == s;
          assert d in UsedDays(result);
        }
        if s in texts {
          var i :| 0 <= i < |texts| && texts[i] == s;
          assert show(dates[i]) == s && dates[i] in DateSet(result);
        }
      }
    }
  }

  lemma SavedColumns(show: Day -> string, c: Columns)
    ensures ColumnsJson(show, c).Object?
    ensures var cols := ColumnsJson(show, c).fields;
            && "dates" in cols && cols["dates"] == Dates(show, c.dates)
            && ((forall i :: 0 <= i < |REQUIRED_COLUMNS| ==> ColumnOk(cols, REQUIRED_COLUMNS[i])) <==> Rectangular(c))
  {
    var cols := ColumnsJson(show, c).fields;
    assert ColumnOk(cols, "dates");
    assert ColumnOk(cols, "code_total_loc") <==> |c.codeTotalLoc| == |c.dates|;
    assert ColumnOk(cols, "code_changed_cum") <==> |c.codeChangedCum| == |c.dates|;
    assert ColumnOk(cols, "doc_total_loc") <==> |c.docTotalLoc| == |c.dates|;
    assert ColumnOk(cols, "code_files") <==> |c.codeFiles| == |c.dates|;
    assert ColumnOk(cols, "doc_files") <==> |c.docFiles| == |c.dates|;
    assert ColumnOk(cols, "test_cases") <==> |c.testCases| == |c.dates|;
    assert ColumnOk(cols, "test_loc") <==> |c.testLoc| == |c.dates|;
    hide ColumnOk, ColumnsJson;
    EachColumn(cols);
  }

  lemma EachColumn(cols: map<string, Json>)
    ensures (forall i :: 0 <= i < |REQUIRED_COLUMNS| ==> ColumnOk(cols, REQUIRED_COLUMNS[i]))
       <==> && ColumnOk(cols, "dates") && ColumnOk(cols, "code_total_loc") && ColumnOk(cols, "code_changed_cum")
            && ColumnOk(cols, "doc_total_loc") && ColumnOk(cols, "code_files") && ColumnOk(cols, "doc_files")
            && ColumnOk(cols, "test_cases") && ColumnOk(cols, "test_loc")
  {
    hide ColumnOk;
    var r := REQUIRED_COLUMNS;
    assert r[0] == "dates" && r[1] == "code_total_loc" && r[2] == "code_changed_cum" && r[3] == "doc_total_loc"
      && r[4] == "code_files" && r[5] == "doc_files" && r[6] == "test_cases" && r[7] == "test_loc";
  }

  /** A saved collection is loaded again exactly when it is acceptable. */
  lemma SavedIsLoaded(isDigit: char -> bool, show: Day -> string, result: Result, days: map<string, Json>, head: string, at: string)
    requires Calendar(isDigit, show, UsedDays(result)) && AreDays(show, result.days, days)
    ensures Acceptable(isDigit, Payload(show, result, days, head, at)) <==> CacheChecks.Acceptable(result)
  {
    PayloadIs(show, result, days, head, at);
    hide Calendar, AreDays, DatesOk, DaysOk, ColumnOk, ColumnsJson, Payload, Rectangular, CacheChecks.Ascending;
    SavedColumns(show, result.columns);
    SavedDates(isDigit, show, result);
    SavedDays(isDigit, show, result, days);
    assert Dates(show, result.columns.dates).items == [] <==> result.columns.dates == [];
  }

  lemma PayloadIs(show: Day -> string, result: Result, days: map<string, Json>, head: string, at: string)
    ensures var data := Payload(show, result, days, head, at);
            && data.Object? && "schema_version" in data.fields && IsOne(data.fields["schema_version"])
            && "columns" in data.fields && data.fields["columns"] == ColumnsJson(show, result.columns)
            && "days" in data.fields && data.fields["days"] == Object(days)
  {
  }
}
