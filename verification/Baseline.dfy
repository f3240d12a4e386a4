/**
  The baseline of known violations (`scripts/dep-guard/baseline.py`) and its narrowing by
  `check --fix` (`scripts/dep-guard/dep_guard.py`).

  Entries are compared by a key. When several entries of the baseline share a key that is no
  longer actual, one fix removes only the greatest of them, so a fix may have to be repeated;
  `FixesNeeded` says how often, exactly.
 */
module Baseline {
  import opened Wrappers
  import opened StringOrder
  import opened Chars
  import opened ItemScan
  import opened BaselineText
  import SourceText
  import S = Segments

  predicate IsEntry(line: string) {
    line != "" && line[0] != '#'
  }

  /** The entries of a baseline file: its stripped lines, without comments and blank lines. */
  function Entries(lines: seq<string>): set<string> {
    set i | 0 <= i < |lines| && IsEntry(Strip(lines[i])) :: Strip(lines[i])
  }

  ghost function EntriesOf(text: string): set<string> {
    Entries(SplitLines(text))
  }

  /** Some line is `x`, blanks around it aside. */
  predicate HasLine(lines: seq<string>, x: string) {
    exists i :: 0 <= i < |lines| && Strip(lines[i]) == x
  }

  /** `x` stands alone on a line, white space aside, and is neither empty nor a comment. */
  ghost predicate IsListed(text: string, x: string) {
    x != "" && x[0] != '#' && exists i :: 0 <= i < |SplitLines(text)| && StandsAlone(SplitLines(text)[i], x)
  }

  ghost predicate StandsAlone(line: string, x: string) {
    exists a, b :: SourceText.StripsTo(line, a, b) && line[a..b] == x
  }

  lemma StandsAloneIff(line: string, x: string)
    ensures StandsAlone(line, x) <==> Strip(line) == x
  {
    hide Strip, IsSpace;
    var a, b := SourceText.StripIs(line);
    if StandsAlone(line, x) {
      var c, d :| SourceText.StripsTo(line, c, d) && line[c..d] == x;
      SourceText.StripOf(line, c, d);
    }
  }

  lemma ListedIff(text: string, x: string)
    ensures IsListed(text, x) <==> x in EntriesOf(text)
  {
    hide Strip, SplitLines, StandsAlone;
    var lines := SplitLines(text);
    forall i | 0 <= i < |lines| ensures StandsAlone(lines[i], x) <==> Strip(lines[i]) == x { StandsAloneIff(lines[i], x); }
    if IsListed(text, x) {
      var i :| 0 <= i < |lines| && StandsAlone(lines[i], x);
      assert IsEntry(Strip(lines[i]));
    }
  }

  /** The lines of a text that are entries. */
  method CollectEntries(text: string) returns (found: set<string>)
    ensures found == EntriesOf(text)
  {
    hide Strip, IsEntry, SplitLines;
    var lines := SplitLines(text);
    found := {};
    var i := 0;
    while i < |lines|
      invariant 0 <= i <= |lines|
      invariant found == set j | 0 <= j < i && IsEntry(Strip(lines[j])) :: Strip(lines[j])
    {
      var line := Strip(lines[i]);
      if IsEntry(line) { found := found + {line}; }
      i := i + 1;
    }
  }

  method LoadBaseline(text: string) returns (items: seq<string>)
    ensures Ascending(items) && forall x :: x in items <==> x in EntriesOf(text)
    ensures forall x :: x in items <==> IsListed(text, x)
  {
    hide IsListed, EntriesOf, Ascending;
    forall x ensures IsListed(text, x) <==> x in EntriesOf(text) { ListedIff(text, x); }
    var found := CollectEntries(text);
    items := Sorted(found);
  }

  // ---------- the difference ----------

  predicate HasKey(key: string -> string, items: seq<string>, k: string) {
    exists i :: 0 <= i < |items| && key(items[i]) == k
  }

  /** `e` is the last of the items with its key: the one a dictionary keeps. */
  predicate IsLast(key: string -> string, items: seq<string>, e: string) {
    exists i :: 0 <= i < |items| && items[i] == e && forall j :: i < j < |items| ==> key(items[j]) != key(e)
  }

  /** `{keyfunc(item): item for item in items}`. */
  method ByKey(key: string -> string, items: seq<string>) returns (m: map<string, string>)
    ensures forall k :: k in m <==> HasKey(key, items, k)
    ensures forall k :: k in m ==> key(m[k]) == k && IsLast(key, items, m[k])
  {
    m := map[];
    var i := 0;
    while i < |items|
      invariant 0 <= i <= |items|
      invariant forall k :: k in m <==> exists j :: 0 <= j < i && key(items[j]) == k
      invariant forall k :: k in m ==> key(m[k]) == k && exists j :: 0 <= j < i && items[j] == m[k] && forall l :: j < l < i ==> key(items[l]) != k
    {
      m := m[key(items[i]) := items[i]];
      i := i + 1;
    }
  }

  /** The kept items on one side whose key is missing on the other. */
  method OnlyIn(key: string -> string, items: seq<string>, others: seq<string>) returns (r: seq<string>)
    ensures Ascending(r) && forall e :: e in r <==> IsLast(key, items, e) && !HasKey(key, others, key(e))
  {
    var mine := ByKey(key, items);
    var theirs := ByKey(key, others);
    var only := set k | k in mine && k !in theirs :: mine[k];
    forall e ensures e in only <==> IsLast(key, items, e) && !HasKey(key, others, key(e)) {
      if IsLast(key, items, e) {
        assert HasKey(key, items, key(e));
        LastIsUnique(key, items, e, mine[key(e)]);
      }
    }
    r := Sorted(only);
  }

  lemma LastIsUnique(key: string -> string, items: seq<string>, e: string, f: string)
    requires IsLast(key, items, e) && IsLast(key, items, f) && key(e) == key(f)
    ensures e == f
  {
  }

  method DiffBaseline(key: string -> string, baseline: seq<string>, actual: seq<string>)
    returns (newItems: seq<string>, eliminated: seq<string>)
    ensures Ascending(newItems) && forall e :: e in newItems <==> IsLast(key, actual, e) && !HasKey(key, baseline, key(e))
    ensures Ascending(eliminated) && forall e :: e in eliminated <==> IsLast(key, baseline, e) && !HasKey(key, actual, key(e))
  {
    newItems := OnlyIn(key, actual, baseline);
    eliminated := OnlyIn(key, baseline, actual);
  }

  // ---------- the narrowing ----------

  /** The lines whose stripped form is not among the targets, in order. */
  function Without(lines: seq<string>, targets: set<string>): seq<string> {
    if lines == [] then []
    else (if Strip(lines[0]) in targets then [] else [lines[0]]) + Without(lines[1..], targets)
  }

  lemma {:induction false} WithoutEnd(lines: seq<string>, line: string, targets: set<string>)
    ensures Without(lines + [line], targets) == Without(lines, targets) + if Strip(line) in targets then [] else [line]
  {
    hide Strip;
    if lines == [] {
      assert lines + [line] == [line] && [line][1..] == [];
    } else {
      var all := lines + [line];
      assert all[1..] == lines[1..] + [line] && all[0] == lines[0];
      WithoutEnd(lines[1..], line, targets);
      var end := if Strip(line) in targets then [] else [line];
      assert Without(all, targets) == (if Strip(lines[0]) in targets then [] else [lines[0]]) + (Without(lines[1..], targets) + end);
    }
  }

  lemma {:induction false} EntriesWithout(lines: seq<string>, targets: set<string>)
    ensures Entries(Without(lines, targets)) == Entries(lines) - targets
  {
    hide Strip, IsEntry, Entries;
    if lines == [] {
      NoEntries();
    } else {
      EntriesWithout(lines[1..], targets);
      EntriesFirst(lines[0], lines[1..]);
      assert lines == [lines[0]] + lines[1..];
      if Strip(lines[0]) in targets {
        assert Without(lines, targets) == Without(lines[1..], targets);
      } else {
        EntriesFirst(lines[0], Without(lines[1..], targets));
      }
    }
  }

  lemma NoEntries()
    ensures Entries([]) == {}
  {
  }

  lemma EntriesFirst(line: string, lines: seq<string>)
    ensures Entries([line] + lines) == (if IsEntry(Strip(line)) then {Strip(line)} else {}) + Entries(lines)
  {
    hide Strip, IsEntry;
    var all := [line] + lines;
    assert all[0] == line;
    forall x | x in Entries(lines) ensures x in Entries(all) {
      var i :| 0 <= i < |lines| && IsEntry(Strip(lines[i])) && Strip(lines[i]) == x;
      assert all[i + 1] == lines[i];
    }
    forall x | x in Entries(all) ensures x in Entries(lines) || (IsEntry(Strip(line)) && x == Strip(line)) {
      var i :| 0 <= i < |all| && IsEntry(Strip(all[i])) && Strip(all[i]) == x;
      if i > 0 { assert lines[i - 1] == all[i]; }
    }
  }

  /** Of each key that is not actual, the greatest entry. */
  function Eliminated(key: string -> string, entries: set<string>, actual: set<string>): set<string> {
    set e | e in entries && key(e) !in actual && forall x :: x in entries && key(x) == key(e) ==> Le(x, e)
  }

  /** The text after removing entries; a file with none of them is not touched. */
  function Removed(text: string, targets: set<string>): string {
    var lines := SplitLines(text);
    if forall i :: 0 <= i < |lines| ==> Strip(lines[i]) !in targets then text
    else Join(Without(lines, targets), "\n") + if EndsInFeed(text) then "\n" else ""
  }

  predicate EndsInFeed(text: string) {
    text != "" && text[|text| - 1] == '\n'
  }

  lemma {:induction false} WithoutUnbroken(lines: seq<string>, targets: set<string>)
    requires AllUnbroken(lines)
    ensures AllUnbroken(Without(lines, targets))
  {
    hide Strip, Unbroken;
    if lines != [] { WithoutUnbroken(lines[1..], targets); }
  }

  lemma EntriesBlank(lines: seq<string>)
    ensures Entries([""]) == Entries([]) == {}
    ensures lines != [] && lines[|lines| - 1] == "" ==> Entries(lines[..|lines| - 1]) == Entries(lines)
  {
    assert Strip("") == "" && !IsEntry("");
    hide Strip;
    if lines != [] && lines[|lines| - 1] == "" {
      var init := lines[..|lines| - 1];
      forall x | x in Entries(lines) ensures x in Entries(init) {
        var i :| 0 <= i < |lines| && IsEntry(Strip(lines[i])) && Strip(lines[i]) == x;
        assert init[i] == lines[i];
      }
      forall x | x in Entries(init) ensures x in Entries(lines) {
        var i :| 0 <= i < |init| && IsEntry(Strip(init[i])) && Strip(init[i]) == x;
        assert lines[i] == init[i];
      }
    }
  }

  /** What is written reads back as the entries without the removed ones. */
  lemma EntriesRemoved(text: string, targets: set<string>)
    ensures EntriesOf(Removed(text, targets)) == EntriesOf(text) - targets
  {
    var lines := SplitLines(text);
    EntriesWithout(lines, targets);
    hide Entries, SplitLines, Without, Strip;
    if forall i :: 0 <= i < |lines| ==> Strip(lines[i]) !in targets {
      NothingRemoved(lines, targets);
    } else {
      var kept := Without(lines, targets);
      WithoutUnbroken(lines, targets);
      EntriesBlank(kept);
      if EndsInFeed(text) {
        SplitOfEndedJoin(kept);
      } else {
        assert Join(kept, "\n") + "" == Join(kept, "\n");
        if kept == [] {
          NothingBreaks();
        } else {
          var m := |kept| - 1;
          assert kept == kept[..m] + [kept[m]];
          SplitOfOpenJoin(kept[..m], kept[m]);
        }
      }
    }
  }

  /** From a text whose lines are all ended, what is left is ended as well. */
  lemma RemovedFromEnded(lines: seq<string>, targets: set<string>, i: nat)
    requires AllUnbroken(lines) && i < |lines| && Strip(lines[i]) in targets
    ensures Removed(S.Text(lines), targets) == Join(Without(lines, targets), "\n") + "\n"
  {
    hide SplitLines, Without, Strip, Join;
    var text := S.Text(lines);
    SplitOfEnded(lines, "");
    NothingBreaks();
    assert text + "" == text && lines + [] == lines;
    assert Strip(SplitLines(text)[i]) in targets;
    TextEnds(lines);
  }

  /** From a text whose last line is not ended, what is left is not ended either. */
  lemma RemovedFromOpen(init: seq<string>, last: string, targets: set<string>, i: nat)
    requires AllUnbroken(init) && Unbroken(last) && last != "" && i <= |init| && Strip((init + [last])[i]) in targets
    ensures Removed(S.Text(init) + last, targets) == Join(Without(init + [last], targets), "\n")
  {
    assert !IsBreak(last[|last| - 1]) && IsBreak('\n');
    hide SplitLines, Without, Strip, Join, IsBreak;
    var text := S.Text(init) + last;
    SplitInitLast(init, last);
    assert Strip(SplitLines(text)[i]) in targets;
    assert text[|text| - 1] == last[|last| - 1];
    assert Join(Without(init + [last], targets), "\n") + "" == Join(Without(init + [last], targets), "\n");
  }

  lemma {:induction false} TextEnds(lines: seq<string>)
    requires lines != []
    ensures S.Text(lines) != "" && S.Text(lines)[|S.Text(lines)| - 1] == '\n'
  {
    if |lines| > 1 { TextEnds(lines[1..]); } else { assert S.Text(lines[1..]) == ""; }
  }

  /** The file after one fix. */
  ghost function Narrowed(key: string -> string, text: string, actual: set<string>): string {
    Removed(text, Eliminated(key, EntriesOf(text), actual))
  }

  // ---------- checks ----------

  datatype Status = Pass | Fail | Skip

  /** What a check finds: its tool may be missing, or fail, or list the violations. */
  datatype Finding = Missing | Broken | Found(items: seq<string>)

  /** A check's result; `hasBaseline` is false when the check was skipped or broke off. */
  datatype CheckResult = CheckResult(checkId: string, status: Status, eliminated: seq<string>, hasBaseline: bool)

  const FIXABLE_CHECKS := {"dep-edges", "second-exports", "common-admission", "dead-deps"}

  predicate IsFixed(result: CheckResult, shouldFix: bool) {
    shouldFix && !result.status.Skip? && result.checkId in FIXABLE_CHECKS && result.hasBaseline && result.eliminated != []
  }

  class BaselineFile {
    var text: string

    constructor (text: string)
      ensures this.text == text
    {
      this.text := text;
    }

    /** Drops the lines that are entries to remove; returns those that were there. */
    method RemoveEntries(entries: seq<string>) returns (removed: seq<string>)
      modifies this
      ensures text == Removed(old(text), set e | e in entries)
      ensures EntriesOf(text) == EntriesOf(old(text)) - set e | e in entries
      ensures Ascending(removed)
      ensures var lines := SplitLines(old(text));
        forall x :: x in removed <==> x in entries && HasLine(lines, x)
    {
      hide Strip, SplitLines, EntriesOf, Join, HasLine, Without, Removed;
      var targets := set e | e in entries;
      EntriesRemoved(text, targets);
      var gone: set<string> := {};
      var kept: seq<string> := [];
      var lines := SplitLines(text);
      var i := 0;
      FilterNone(targets);
      assert lines[..0] == [];
      while i < |lines|
        invariant 0 <= i <= |lines| && text == old(text)
        invariant kept == Without(lines[..i], targets)
        invariant forall x :: x in gone <==> x in targets && HasLine(lines[..i], x)
      {
        assert lines[..i + 1] == lines[..i] + [lines[i]];
        WithoutEnd(lines[..i], lines[i], targets);
        HasLineEnd(lines[..i], lines[i]);
        if Strip(lines[i]) in targets {
          gone := gone + {Strip(lines[i])};
        } else {
          kept := kept + [lines[i]];
        }
        i := i + 1;
      }
      assert lines[..i] == lines;
      RemovedIs(text, targets, gone);
      if gone == {} { return []; }
      text := Join(kept, "\n") + if EndsInFeed(text) then "\n" else "";
      removed := Sorted(gone);
    }

    /** `apply_fix`: narrows the file of a fixable check that was carried out. */
    method ApplyFix(result: CheckResult, shouldFix: bool) returns (removed: seq<string>)
      modifies this
      ensures text == if IsFixed(result, shouldFix) then Removed(old(text), set e | e in result.eliminated) else old(text)
      ensures Ascending(removed)
      ensures var lines := SplitLines(old(text));
        forall x :: x in removed <==>
          IsFixed(result, shouldFix) && x in result.eliminated && HasLine(lines, x)
    {
      hide Strip, SplitLines, Removed, EntriesOf;
      if !shouldFix || result.status.Skip? || result.checkId !in FIXABLE_CHECKS || !result.hasBaseline || result.eliminated == [] {
        return [];
      }
      removed := RemoveEntries(result.eliminated);
    }

    /** A check against the baseline, as all runners do it. */
    method RunCheck(key: string -> string, checkId: string, finding: Finding) returns (result: CheckResult, newItems: seq<string>)
      ensures result.checkId == checkId && result.hasBaseline == finding.Found?
      ensures result.status == match finding case Missing => Skip case Broken => Fail case Found(_) => if newItems == [] then Pass else Fail
      ensures !finding.Found? ==> newItems == [] && result.eliminated == []
      ensures finding.Found? ==>
        && Ascending(newItems)
        && (forall e :: e in newItems <==> IsLast(key, finding.items, e) && key(e) !in (set x | x in EntriesOf(text) :: key(x)))
        && (forall e :: e in result.eliminated <==> e in Eliminated(key, EntriesOf(text), KeysOf(key, finding.items)))
    {
      hide EntriesOf, Eliminated;
      newItems := [];
      match finding
      case Missing => result := CheckResult(checkId, Skip, [], false);
      case Broken => result := CheckResult(checkId, Fail, [], false);
      case Found(actual) =>
        var baseline := LoadBaseline(text);
        var eliminated;
        newItems, eliminated := DiffBaseline(key, baseline, actual);
        EliminatedAre(key, baseline, EntriesOf(text), actual, eliminated);
        KeysOfBaseline(key, baseline, EntriesOf(text));
        result := CheckResult(checkId, if newItems == [] then Pass else Fail, eliminated, true);
    }

    /** One run of `check`, with or without `--fix`: the status is that of the file before it. */
    method CheckAndFix(key: string -> string, checkId: string, finding: Finding, shouldFix: bool)
      returns (status: Status, newItems: seq<string>, removed: seq<string>)
      modifies this
      ensures text == if shouldFix && checkId in FIXABLE_CHECKS && finding.Found?
                      then Narrowed(key, old(text), KeysOf(key, finding.items)) else old(text)
      ensures status == match finding case Missing => Skip case Broken => Fail case Found(_) => if newItems == [] then Pass else Fail
      ensures Ascending(newItems)
      ensures forall e :: e in newItems <==>
        finding.Found? && IsLast(key, finding.items, e) && key(e) !in (set x | x in EntriesOf(old(text)) :: key(x))
      ensures Ascending(removed)
      ensures forall e :: e in removed <==>
        && shouldFix && checkId in FIXABLE_CHECKS && finding.Found?
        && e in Eliminated(key, EntriesOf(old(text)), KeysOf(key, finding.items))
    {
      hide EntriesOf, Removed, Strip, SplitLines;
      var result;
      result, newItems := RunCheck(key, checkId, finding);
      status := result.status;
      ghost var was := text;
      removed := ApplyFix(result, shouldFix);
      if shouldFix && checkId in FIXABLE_CHECKS && finding.Found? {
        ghost var gone := Eliminated(key, EntriesOf(was), KeysOf(key, finding.items));
        assert (set e | e in result.eliminated) == gone;
        EliminatedAreLines(key, was, KeysOf(key, finding.items));
        if result.eliminated == [] {
          assert gone == {};
          RemovedNone(was);
        }
      }
    }
  }

  lemma FilterNone(targets: set<string>)
    ensures Without([], targets) == [] && forall x :: !HasLine([], x)
  {
  }

  lemma HasLineEnd(lines: seq<string>, line: string)
    ensures forall x :: HasLine(lines + [line], x) <==> HasLine(lines, x) || Strip(line) == x
  {
    hide Strip;
    var all := lines + [line];
    forall x ensures HasLine(all, x) <==> HasLine(lines, x) || Strip(line) == x {
      if HasLine(lines, x) {
        var i :| 0 <= i < |lines| && Strip(lines[i]) == x;
        assert all[i] == lines[i];
      }
      if Strip(line) == x { assert all[|lines|] == line; }
    }
  }

  /** The two cases of a removal, by what was found. */
  lemma RemovedIs(text: string, targets: set<string>, gone: set<string>)
    requires forall x :: x in gone <==> x in targets && HasLine(SplitLines(text), x)
    ensures Removed(text, targets)
         == if gone == {} then text
            else Join(Without(SplitLines(text), targets), "\n") + if EndsInFeed(text) then "\n" else ""
  {
    hide Strip, SplitLines, Without, Join;
    var lines := SplitLines(text);
    if gone == {} {
      forall i | 0 <= i < |lines| ensures Strip(lines[i]) !in targets { assert HasLine(lines, Strip(lines[i])); }
    } else {
      assert exists x :: x in gone by { assert |gone| > 0; }
      var x :| x in gone;
      var i :| 0 <= i < |lines| && Strip(lines[i]) == x;
    }
  }

  lemma EliminatedAreLines(key: string -> string, text: string, actual: set<string>)
    ensures forall e :: e in Eliminated(key, EntriesOf(text), actual) ==> HasLine(SplitLines(text), e)
  {
    hide Strip, SplitLines;
    forall e | e in EntriesOf(text) ensures HasLine(SplitLines(text), e) {}
  }

  lemma RemovedNone(text: string)
    ensures Removed(text, {}) == text
  {
  }

  lemma {:induction false} NothingRemoved(lines: seq<string>, targets: set<string>)
    requires forall i :: 0 <= i < |lines| ==> Strip(lines[i]) !in targets
    ensures Without(lines, targets) == lines
  {
    hide Strip;
    if lines != [] { NothingRemoved(lines[1..], targets); }
  }

  function KeysOf(key: string -> string, items: seq<string>): set<string> {
    set i | 0 <= i < |items| :: key(items[i])
  }

  lemma KeysOfBaseline(key: string -> string, baseline: seq<string>, entries: set<string>)
    requires forall x :: x in baseline <==> x in entries
    ensures forall k :: HasKey(key, baseline, k) <==> k in (set x | x in entries :: key(x))
  {
    forall k ensures HasKey(key, baseline, k) <==> k in (set x | x in entries :: key(x)) {
      if HasKey(key, baseline, k) {
        var i :| 0 <= i < |baseline| && key(baseline[i]) == k;
        assert baseline[i] in entries;
      }
      if k in (set x | x in entries :: key(x)) {
        var x :| x in entries && key(x) == k;
        assert x in baseline;
        var i :| 0 <= i < |baseline| && baseline[i] == x;
        assert key(baseline[i]) == k;
      }
    }
  }

  /** In a sorted list the last item with a key is the greatest. */
  lemma LastIsGreatest(key: string -> string, items: seq<string>, e: string)
    requires Ascending(items)
    ensures IsLast(key, items, e) <==> e in items && forall x :: x in items && key(x) == key(e) ==> Le(x, e)
  {
    if IsLast(key, items, e) {
      var i :| 0 <= i < |items| && items[i] == e && forall j :: i < j < |items| ==> key(items[j]) != key(e);
      forall x | x in items && key(x) == key(e) ensures Le(x, e) {
        var j :| 0 <= j < |items| && items[j] == x;
        LeReflexive(x);
      }
    }
    if e in items && forall x :: x in items && key(x) == key(e) ==> Le(x, e) {
      var i :| 0 <= i < |items| && items[i] == e;
      forall j | i < j < |items| ensures key(items[j]) != key(e) {
        if key(items[j]) == key(e) { LeAntisymmetric(items[i], items[j]); }
      }
    }
  }

  lemma EliminatedAre(key: string -> string, baseline: seq<string>, entries: set<string>, actual: seq<string>, eliminated: seq<string>)
    requires Ascending(baseline) && forall x :: x in baseline <==> x in entries
    requires forall e :: e in eliminated <==> IsLast(key, baseline, e) && !HasKey(key, actual, key(e))
    ensures forall e :: e in eliminated <==> e in Eliminated(key, entries, KeysOf(key, actual))
  {
    forall e ensures e in eliminated <==> e in Eliminated(key, entries, KeysOf(key, actual)) {
      LastIsGreatest(key, baseline, e);
      assert HasKey(key, actual, key(e)) <==> key(e) in KeysOf(key, actual);
    }
  }

  // ---------- what a fix does ----------

  function Group(key: string -> string, entries: set<string>, k: string): set<string> {
    set e | e in entries && key(e) == k
  }

  /** A set of strings that is not empty has a greatest element. */
  lemma {:induction false} GreatestExists(s: set<string>)
    requires s != {}
    ensures exists e :: e in s && forall x :: x in s ==> Le(x, e)
    decreases |s|
  {
    assert exists x :: x in s by { assert |s| > 0; }
    var a :| a in s;
    var rest := s - {a};
    if rest == {} {
      LeReflexive(a);
      assert forall x :: x in s && x != a ==> x in rest;
    } else {
      GreatestExists(rest);
      var b :| b in rest && forall x :: x in rest ==> Le(x, b);
      LeTotal(a, b);
      LeReflexive(a);
      if Le(a, b) {
        assert forall x :: x in s ==> x == a || x in rest;
      } else {
        forall x | x in s ensures Le(x, a) {
          if x != a { LeTransitive(x, b, a); }
        }
      }
    }
  }

  /** One fix takes one entry from every group whose key is not actual, and none from the others. */
  lemma FixOfGroup(key: string -> string, entries: set<string>, actual: set<string>, k: string)
    ensures var left := Group(key, entries - Eliminated(key, entries, actual), k);
      if k in actual || Group(key, entries, k) == {} then left == Group(key, entries, k)
      else left < Group(key, entries, k) && |left| == |Group(key, entries, k)| - 1
  {
    var g := Group(key, entries, k);
    var gone := Eliminated(key, entries, actual);
    var left := Group(key, entries - gone, k);
    if k in actual || g == {} {
      assert left == g;
    } else {
      GreatestExists(g);
      var e :| e in g && forall x :: x in g ==> Le(x, e);
      assert e in gone;
      forall x | x in g && x in gone ensures x == e { LeAntisymmetric(x, e); }
      assert left == g - {e};
    }
  }

  ghost function Narrowings(key: string -> string, text: string, actual: set<string>, n: nat): string {
    if n == 0 then text else Narrowed(key, Narrowings(key, text, actual, n - 1), actual)
  }

  /** After `n` fixes a group has lost `n` entries if its key is not actual, or all it had. */
  lemma {:induction false} GroupAfter(key: string -> string, text: string, actual: set<string>, n: nat, k: string)
    ensures var g, left := Group(key, EntriesOf(text), k), Group(key, EntriesOf(Narrowings(key, text, actual, n)), k);
      if k in actual then left == g else left <= g && |left| == if |g| <= n then 0 else |g| - n
  {
    hide EntriesOf, Eliminated, Removed;
    if n > 0 {
      GroupAfter(key, text, actual, n - 1, k);
      var before := Narrowings(key, text, actual, n - 1);
      EntriesRemoved(before, Eliminated(key, EntriesOf(before), actual));
      FixOfGroup(key, EntriesOf(before), actual, k);
    }
  }

  /** Every entry's key is still actual: there is nothing left to narrow. */
  predicate IsNarrow(key: string -> string, entries: set<string>, actual: set<string>) {
    forall e :: e in entries ==> key(e) in actual
  }

  /**
    Fixing `n` times leaves exactly the entries whose key is actual if and only if no key that
    is not actual had more than `n` entries.
   */
  lemma FixesNeeded(key: string -> string, text: string, actual: set<string>, n: nat)
    ensures var entries, left := EntriesOf(text), EntriesOf(Narrowings(key, text, actual, n));
      && (forall e :: e in left ==> e in entries)
      && (forall e :: e in entries && key(e) in actual ==> e in left)
      && (IsNarrow(key, left, actual) <==> forall e :: e in entries && key(e) !in actual ==> |Group(key, entries, key(e))| <= n)
  {
    var entries, left := EntriesOf(text), EntriesOf(Narrowings(key, text, actual, n));
    hide EntriesOf, Narrowings;
    forall e | e in left ensures e in entries {
      GroupAfter(key, text, actual, n, key(e));
      assert e in Group(key, left, key(e));
    }
    forall e | e in entries && key(e) in actual ensures e in left {
      GroupAfter(key, text, actual, n, key(e));
      assert e in Group(key, entries, key(e));
    }
    if IsNarrow(key, left, actual) {
      forall e | e in entries && key(e) !in actual ensures |Group(key, entries, key(e))| <= n {
        GroupAfter(key, text, actual, n, key(e));
        assert Group(key, left, key(e)) == {};
      }
    }
    if forall e :: e in entries && key(e) !in actual ==> |Group(key, entries, key(e))| <= n {
      forall e | e in left ensures key(e) in actual {
        assert e in Group(key, left, key(e));
        GroupAfter(key, text, actual, n, key(e));
      }
    }
  }

  /** With a key that tells all entries apart one fix is enough. */
  lemma OneFixForDistinctKeys(key: string -> string, text: string, actual: set<string>)
    requires forall a, b :: a in EntriesOf(text) && b in EntriesOf(text) && key(a) == key(b) ==> a == b
    ensures EntriesOf(Narrowed(key, text, actual)) == set e | e in EntriesOf(text) && key(e) in actual
  {
    var entries := EntriesOf(text);
    hide EntriesOf;
    forall e | e in entries && key(e) !in actual ensures |Group(key, entries, key(e))| <= 1 {
      assert Group(key, entries, key(e)) == {e};
    }
    FixesNeeded(key, text, actual, 1);
    assert Narrowings(key, text, actual, 1) == Narrowed(key, text, actual) by {
      assert Narrowings(key, text, actual, 0) == text;
    }
  }

  /** A fix takes no key away that is actual, so it neither hides nor adds a new violation. */
  lemma NewItemsStay(key: string -> string, text: string, actual: set<string>, k: string)
    requires k in actual
    ensures k in (set x | x in EntriesOf(text) :: key(x)) <==> k in (set x | x in EntriesOf(Narrowed(key, text, actual)) :: key(x))
  {
    hide EntriesOf;
    var entries := EntriesOf(text);
    EntriesRemoved(text, Eliminated(key, entries, actual));
    forall e | e in entries && key(e) == k ensures e in EntriesOf(Narrowed(key, text, actual)) { }
  }

  // ---------- keys without line numbers ----------

  /** The position of `: `, or `None`. */
  function FindColonSpace(s: string): (r: Option<nat>)
    ensures r.Some? ==> r.value + 1 < |s| && s[r.value] == ':' && s[r.value + 1] == ' '
  {
    if |s| < 2 then None
    else if s[0] == ':' && s[1] == ' ' then Some(0)
    else var r := FindColonSpace(s[1..]); if r.None? then None else Some(1 + r.value)
  }

  function FindFirst(s: string, c: char): (r: Option<nat>)
    ensures r.Some? ==> r.value < |s| && s[r.value] == c
  {
    if s == "" then None else if s[0] == c then Some(0)
    else var r := FindFirst(s[1..], c); if r.None? then None else Some(1 + r.value)
  }

  function FindLast(s: string, c: char): (r: Option<nat>)
    ensures r.Some? ==> r.value < |s| && s[r.value] == c
  {
    if s == "" then None else if s[|s| - 1] == c then Some(|s| - 1) else FindLast(s[..|s| - 1], c)
  }

  predicate IsNumber(s: string) {
    s != "" && forall i :: 0 <= i < |s| ==> IsDigit(s[i])
  }

  /** `<file>:<line> <source>` without the line number; `None` when the text has another shape. */
  function StripLocation(rest: string): Option<string> {
    var space := FindFirst(rest, ' ');
    if space.None? || space.value + 1 == |rest| then None
    else
      var loc := rest[..space.value];
      var colon := FindLast(loc, ':');
      if colon.None? || colon.value == 0 || !IsNumber(loc[colon.value + 1..]) then None
      else Some(loc[..colon.value] + (" " + rest[space.value + 1..]))
  }

  /** An entry without its line number; anything not shaped like an entry stays as it is. */
  function StripLineno(entry: string): string {
    var sep := FindColonSpace(entry);
    if sep.None? || sep.value == 0 then entry
    else
      var rest := StripLocation(entry[sep.value + 2..]);
      if rest.None? then entry else entry[..sep.value] + (": " + rest.value)
  }

  /** An entry as the guard writes it. */
  function EntryText(pkg: string, file: string, line: string, source: string): string {
    pkg + (": " + ((file + (":" + line)) + (" " + source)))
  }

  /** A package and a file name with nothing in them that reads as a separator. */
  predicate NamesOk(pkg: string, file: string) {
    && pkg != "" && (forall i :: 0 <= i < |pkg| ==> pkg[i] != ':')
    && file != "" && (forall i :: 0 <= i < |file| ==> file[i] != ' ')
  }

  lemma {:induction false} ColonSpaceOf(a: string, b: string)
    requires forall i :: 0 <= i < |a| ==> a[i] != ':'
    ensures FindColonSpace(a + (": " + b)) == Some(|a|)
  {
    var s := a + (": " + b);
    if a == "" {
      assert s == ": " + b;
    } else {
      assert s[1..] == a[1..] + (": " + b);
      ColonSpaceOf(a[1..], b);
    }
  }

  lemma {:induction false} FirstOf(a: string, c: char, b: string)
    requires forall i :: 0 <= i < |a| ==> a[i] != c
    ensures FindFirst(a + ([c] + b), c) == Some(|a|)
  {
    var s := a + ([c] + b);
    if a == "" {
      assert s == [c] + b;
    } else {
      assert s[1..] == a[1..] + ([c] + b);
      FirstOf(a[1..], c, b);
    }
  }

  lemma {:induction false} LastOf(a: string, c: char, b: string)
    requires forall i :: 0 <= i < |b| ==> b[i] != c
    ensures FindLast(a + ([c] + b), c) == Some(|a|)
    decreases |b|
  {
    var s := a + ([c] + b);
    if b == "" {
      assert s[|s| - 1] == c;
    } else {
      var m := |b| - 1;
      assert s[|s| - 1] == b[m] && s[..|s| - 1] == a + ([c] + b[..m]);
      LastOf(a, c, b[..m]);
    }
  }

  lemma Parts(a: string, mid: string, b: string)
    ensures (a + (mid + b))[..|a|] == a && (a + (mid + b))[|a| + |mid|..] == b
  {
  }

  lemma NoSpace(file: string, line: string)
    requires (forall i :: 0 <= i < |file| ==> file[i] != ' ') && IsNumber(line)
    ensures forall i :: 0 <= i < |file + (":" + line)| ==> (file + (":" + line))[i] != ' '
    ensures forall i :: 0 <= i < |line| ==> line[i] != ':'
  {
    assert !IsDigit(' ') && !IsDigit(':');
  }

  lemma LocationOf(file: string, line: string, source: string)
    requires file != "" && (forall i :: 0 <= i < |file| ==> file[i] != ' ') && IsNumber(line) && source != ""
    ensures StripLocation((file + (":" + line)) + (" " + source)) == Some(file + (" " + source))
  {
    hide FindFirst, FindLast;
    var loc := file + (":" + line);
    NoSpace(file, line);
    hide IsNumber;
    FirstOf(loc, ' ', source);
    Parts(loc, " ", source);
    LastOf(file, ':', line);
    Parts(file, ":", line);
  }

  /** One or more digits. */
  predicate AllDigits(s: string) {
    |s| > 0 && forall i :: 0 <= i < |s| ==> IsDigit(s[i])
  }

  /** The key of an entry is the entry without its line number. */
  lemma KeyOfEntry(pkg: string, file: string, line: string, source: string)
    requires NamesOk(pkg, file) && AllDigits(line) && source != ""
    ensures StripLineno(EntryText(pkg, file, line, source)) == pkg + (": " + (file + (" " + source)))
  {
    assert IsNumber(line) && pkg != "";
    hide FindColonSpace, StripLocation, IsNumber, AllDigits, StripLineno;
    LocationOf(file, line, source);
    StripLinenoOf(pkg, (file + (":" + line)) + (" " + source), file + (" " + source));
  }

  lemma StripLinenoOf(pkg: string, rest: string, key: string)
    requires pkg != "" && (forall i :: 0 <= i < |pkg| ==> pkg[i] != ':') && StripLocation(rest) == Some(key)
    ensures StripLineno(pkg + (": " + rest)) == pkg + (": " + key)
  {
    hide FindColonSpace, StripLocation;
    ColonSpaceOf(pkg, rest);
    Parts(pkg, ": ", rest);
  }

  /** Only an entry has a line number to lose: any other text is its own key. */
  lemma OnlyEntriesChange(entry: string) returns (pkg: string, file: string, line: string, source: string)
    ensures StripLineno(entry) != entry ==>
      && entry == EntryText(pkg, file, line, source) && AllDigits(line) && pkg != "" && file != "" && source != ""
      && StripLineno(entry) == pkg + (": " + (file + (" " + source)))
  {
    pkg, file, line, source := "", "", "", "";
    var sep := FindColonSpace(entry);
    if sep.Some? && sep.value > 0 {
      var rest := entry[sep.value + 2..];
      assert entry == entry[..sep.value] + (": " + rest);
      hide FindColonSpace;
      if StripLocation(rest).Some? {
        pkg := entry[..sep.value];
        file, line, source := LocationParts(rest);
      }
    }
  }

  lemma LocationParts(rest: string) returns (file: string, line: string, source: string)
    requires StripLocation(rest).Some?
    ensures rest == (file + (":" + line)) + (" " + source) && AllDigits(line) && file != "" && source != ""
    ensures StripLocation(rest).value == file + (" " + source)
  {
    hide FindFirst, FindLast;
    var space := FindFirst(rest, ' ').value;
    var loc := rest[..space];
    var colon := FindLast(loc, ':').value;
    file, line, source := loc[..colon], loc[colon + 1..], rest[space + 1..];
    assert loc == file + (":" + line);
    assert rest == loc + (" " + source);
  }

  lemma KeyTellsSource(file: string, source: string, file': string, source': string)
    requires forall i :: 0 <= i < |file| ==> file[i] != ' '
    requires forall i :: 0 <= i < |file'| ==> file'[i] != ' '
    requires file + (" " + source) == file' + (" " + source')
    ensures file == file' && source == source'
  {
    hide FindFirst;
    FirstOf(file, ' ', source);
    FirstOf(file', ' ', source');
    Parts(file, " ", source);
    Parts(file', " ", source');
  }

  lemma KeyTellsPackage(pkg: string, rest: string, pkg': string, rest': string)
    requires forall i :: 0 <= i < |pkg| ==> pkg[i] != ':'
    requires forall i :: 0 <= i < |pkg'| ==> pkg'[i] != ':'
    requires pkg + (": " + rest) == pkg' + (": " + rest')
    ensures pkg == pkg' && rest == rest'
  {
    hide FindColonSpace;
    ColonSpaceOf(pkg, rest);
    ColonSpaceOf(pkg', rest');
    Parts(pkg, ": ", rest);
    Parts(pkg', ": ", rest');
  }

  /** Two entries share a key exactly when they differ in nothing but the line number. */
  lemma SameKey(pkg: string, file: string, line: string, source: string, pkg': string, file': string, line': string, source': string)
    requires NamesOk(pkg, file) && AllDigits(line) && source != ""
    requires NamesOk(pkg', file') && AllDigits(line') && source' != ""
    ensures StripLineno(EntryText(pkg, file, line, source)) == StripLineno(EntryText(pkg', file', line', source'))
       <==> pkg == pkg' && file == file' && source == source'
  {
    hide StripLineno, EntryText, AllDigits;
    KeyOfEntry(pkg, file, line, source);
    KeyOfEntry(pkg', file', line', source');
    var rest, rest' := file + (" " + source), file' + (" " + source');
    if pkg + (": " + rest) == pkg' + (": " + rest') {
      KeyTellsPackage(pkg, rest, pkg', rest');
      KeyTellsSource(file, source, file', source');
    }
  }

  /** Two stale entries for one source at different lines: a single fix leaves one of them. */
  lemma RepeatedSourceNeedsTwoFixes(text: string, actual: set<string>, pkg: string, file: string, source: string, line: string, line': string)
    requires NamesOk(pkg, file) && source != "" && AllDigits(line) && AllDigits(line')
    requires EntryText(pkg, file, line, source) != EntryText(pkg, file, line', source)
    requires EntryText(pkg, file, line, source) in EntriesOf(text) && EntryText(pkg, file, line', source) in EntriesOf(text)
    requires StripLineno(EntryText(pkg, file, line, source)) !in actual
    ensures !IsNarrow(StripLineno, EntriesOf(Narrowings(StripLineno, text, actual, 1)), actual)
  {
    var a, b, entries := EntryText(pkg, file, line, source), EntryText(pkg, file, line', source), EntriesOf(text);
    SameKey(pkg, file, line, source, pkg, file, line', source);
    hide EntriesOf, EntryText, StripLineno, Narrowings;
    var g := Group(StripLineno, entries, StripLineno(a));
    assert {a, b} <= g;
    assert |g - {a, b}| == |g| - 2;
    FixesNeeded(StripLineno, text, actual, 1);
  }
}
