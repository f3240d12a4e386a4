/**
  The check of the document trackers (`scripts/_tracker_core.py`, `run_check`), which unblocks
  records and saves the file while it walks the keys, and the walk that claims to mirror it
  without writing (`scripts/tracker-next.py`, `_changed_keys`).

  Git and the clock are inputs. The clock and the merge base are read afresh for each key, and
  a run reads them at most once for one key, so they are functions of the key.
 */
module TrackerCheck {
  import opened Wrappers
  import opened TrackerRecords
  import opened TrackerFields

  function Last(w: seq<Rec>): Rec
    requires w != []
  {
    w[|w| - 1]
  }

  // ---------- what the check decides about one key ----------

  /** `w` are the records with the key `k`: untracked, never confirmed, or changed since. */
  predicate Changed(env: Env, w: seq<Rec>, k: string) {
    w == [] || Last(w).commit == "" || env.keyChanged(Last(w).commit, k)
  }

  predicate Unblocks(env: Env, w: seq<Rec>, k: string) {
    w != [] && Last(w).blockedReason != "" && Changed(env, w, k)
  }

  /** The merge base, or the commit on record when git gives none. */
  function NewCommit(env: Env, r: Rec): string {
    var base := env.mergeBase(r.key);
    if base.Some? && base.value != "" then base.value else r.commit
  }

  function Unblocked(env: Env, r: Rec): Rec {
    if r.commit == "" then r.(blockedReason := "")
    else
      var commit := NewCommit(env, r);
      r.(blockedReason := "", commit := commit, commitTime := env.committerDate(commit), confirmedTime := env.now(r.key))
  }

  /** The records with the key `k` once the check has looked at it. */
  function Settled(env: Env, w: seq<Rec>, k: string): seq<Rec> {
    if Unblocks(env, w, k) then w[..|w| - 1] + [Unblocked(env, Last(w))] else w
  }

  lemma SettledIsSettled(env: Env, w: seq<Rec>, k: string)
    ensures !Unblocks(env, Settled(env, w, k), k)
    ensures |Settled(env, w, k)| == |w|
  {
  }

  /** What the check sees at position `i`: settled records when the key was met before. */
  function Seen(env: Env, recs: seq<Rec>, keys: seq<string>, i: nat): seq<Rec>
    requires i < |keys|
  {
    if keys[i] in keys[..i] then Settled(env, With(recs, keys[i]), keys[i]) else With(recs, keys[i])
  }

  /** The keys the check reports among the first `n`. */
  function Reports(env: Env, recs: seq<Rec>, keys: seq<string>, n: nat): seq<string>
    requires n <= |keys|
  {
    if n == 0 then []
    else Reports(env, recs, keys, n - 1) + if Changed(env, Seen(env, recs, keys, n - 1), keys[n - 1]) then [keys[n - 1]] else []
  }

  /** The keys the read-only mirror reports among the first `n`. */
  function Mirrored(env: Env, recs: seq<Rec>, keys: seq<string>, n: nat): seq<string>
    requires n <= |keys|
  {
    if n == 0 then []
    else Mirrored(env, recs, keys, n - 1) + if Changed(env, With(recs, keys[n - 1]), keys[n - 1]) then [keys[n - 1]] else []
  }

  // ---------- the mirror against the check ----------

  /** A key met a second time is still reported after the check has unblocked its record. */
  predicate SteadyAt(env: Env, recs: seq<Rec>, keys: seq<string>, i: nat)
    requires i < |keys|
  {
    var k := keys[i];
    var w := With(recs, k);
    (k in keys[..i] && Unblocks(env, w, k) && Last(w).commit != "") ==> env.keyChanged(NewCommit(env, Last(w)), k)
  }

  predicate Steady(env: Env, recs: seq<Rec>, keys: seq<string>, n: nat)
    requires n <= |keys|
  {
    forall i :: 0 <= i < n ==> SteadyAt(env, recs, keys, i)
  }

  lemma {:induction false} WithKeys(s: seq<Rec>, k: string)
    ensures forall i :: 0 <= i < |With(s, k)| ==> With(s, k)[i].key == k
  {
    if s != [] { WithKeys(s[1..], k); }
  }

  /** At one position the check reports no more than the mirror, and as much exactly when the key is steady. */
  lemma SeenAgainstMirror(env: Env, recs: seq<Rec>, keys: seq<string>, i: nat)
    requires i < |keys|
    ensures Changed(env, Seen(env, recs, keys, i), keys[i]) ==> Changed(env, With(recs, keys[i]), keys[i])
    ensures Changed(env, Seen(env, recs, keys, i), keys[i]) == Changed(env, With(recs, keys[i]), keys[i])
       <==> SteadyAt(env, recs, keys, i)
  {
    var k, w := keys[i], With(recs, keys[i]);
    WithKeys(recs, k);
    if k in keys[..i] && Unblocks(env, w, k) {
      assert Last(Settled(env, w, k)) == Unblocked(env, Last(w));
      assert Last(w).key == k;
    }
  }

  lemma {:induction false} MirrorUpTo(env: Env, recs: seq<Rec>, keys: seq<string>, n: nat)
    requires n <= |keys|
    ensures |Reports(env, recs, keys, n)| <= |Mirrored(env, recs, keys, n)|
    ensures |Reports(env, recs, keys, n)| == |Mirrored(env, recs, keys, n)| ==> Steady(env, recs, keys, n)
    ensures Steady(env, recs, keys, n) ==> Reports(env, recs, keys, n) == Mirrored(env, recs, keys, n)
  {
    hide SteadyAt, Changed, Seen, With;
    if n > 0 {
      MirrorUpTo(env, recs, keys, n - 1);
      SeenAgainstMirror(env, recs, keys, n - 1);
    }
  }

  /**
    The mirror gives the list the check reports exactly when no key is discovered twice whose
    record is unblocked on the first visit and unchanged since its new commit on the second.
   */
  lemma MirrorIsExact(env: Env, recs: seq<Rec>, keys: seq<string>)
    ensures Reports(env, recs, keys, |keys|) == Mirrored(env, recs, keys, |keys|) <==> Steady(env, recs, keys, |keys|)
    ensures (forall i, j :: 0 <= i < j < |keys| ==> keys[i] != keys[j]) ==> Steady(env, recs, keys, |keys|)
  {
    MirrorUpTo(env, recs, keys, |keys|);
    hide Unblocks, With;
  }

  /** Whatever the keys, the two agree on whether there is anything to report. */
  lemma {:induction false} MirrorFindsWork(env: Env, recs: seq<Rec>, keys: seq<string>, n: nat)
    requires n <= |keys|
    ensures Reports(env, recs, keys, n) == [] <==> Mirrored(env, recs, keys, n) == []
  {
    if n > 0 {
      MirrorFindsWork(env, recs, keys, n - 1);
      if Mirrored(env, recs, keys, n - 1) == [] {
        NothingBefore(env, recs, keys, n - 1);
      }
      SeenAgainstMirror(env, recs, keys, n - 1);
    }
  }

  lemma {:induction false} NothingBefore(env: Env, recs: seq<Rec>, keys: seq<string>, n: nat)
    requires n <= |keys| && Mirrored(env, recs, keys, n) == []
    ensures forall i :: 0 <= i < n ==> !Changed(env, With(recs, keys[i]), keys[i])
  {
    hide With, Changed;
    if n > 0 { NothingBefore(env, recs, keys, n - 1); }
  }

  /** A key discovered twice: the check reports it once, the mirror twice. */
  lemma RepeatedKeyIsLost()
    ensures exists env: Env, recs: seq<Rec>, keys: seq<string> ::
              Reports(env, recs, keys, |keys|) != Mirrored(env, recs, keys, |keys|)
  {
    var env := Env((c: string, k: string) => c == "old", (k: string) => Some("new"), (c: string) => "", (k: string) => "");
    var recs := [Rec("a.md", "old", "", "", "", "waiting")];
    var keys := ["a.md", "a.md"];
    assert With(recs, "a.md") == recs;
    assert keys[1] in keys[..1] by { assert keys[..1][0] == keys[1]; }
    assert !SteadyAt(env, recs, keys, 1);
    MirrorIsExact(env, recs, keys);
  }

  // ---------- what the check leaves behind ----------

  /** `now` is what the check leaves of `was` once it has looked at the keys `done`. */
  ghost predicate Left(env: Env, was: seq<Rec>, now: seq<Rec>, done: seq<string>) {
    forall k :: With(now, k) == if k in done then Settled(env, With(was, k), k) else With(was, k)
  }

  predicate Touches(env: Env, recs: seq<Rec>, keys: seq<string>) {
    exists i :: 0 <= i < |keys| && Unblocks(env, With(recs, keys[i]), keys[i])
  }

  /**
    No record is added or dropped, key by key and in all. In the order of each key only the
    last record can differ; its key and comment never do, and if it differs its block is gone.
   */
  lemma CheckConserves(env: Env, was: seq<Rec>, now: seq<Rec>, keys: seq<string>)
    requires Left(env, was, now, keys)
    ensures |now| == |was|
    ensures forall k :: |With(now, k)| == |With(was, k)|
    ensures forall k, i :: 0 <= i < |With(now, k)| ==> With(now, k)[i].comment == With(was, k)[i].comment
    ensures forall k, i :: 0 <= i < |With(now, k)| - 1 ==> With(now, k)[i] == With(was, k)[i]
    ensures forall k :: With(now, k) != With(was, k) ==> k in keys && Last(With(now, k)).blockedReason == ""
  {
    hide With;
    forall k: string ensures |With(now, k)| == |With(was, k)| {
      SettledIsSettled(env, With(was, k), k);
    }
    SameCounts(now, was);
  }

  /** A reported key is not blocked afterwards; a blocked key that is not reported keeps its record. */
  lemma ReportedIsUnblocked(env: Env, was: seq<Rec>, now: seq<Rec>, keys: seq<string>, k: string)
    requires Left(env, was, now, keys)
    ensures k in Reports(env, was, keys, |keys|) && With(now, k) != [] ==> Last(With(now, k)).blockedReason == ""
    ensures k !in Reports(env, was, keys, |keys|) ==> With(now, k) == With(was, k)
  {
    ReportedKeys(env, was, keys, |keys|, k);
  }

  lemma {:induction false} ReportedKeys(env: Env, recs: seq<Rec>, keys: seq<string>, n: nat, k: string)
    requires n <= |keys|
    ensures k in Reports(env, recs, keys, n) <==> k in keys[..n] && Changed(env, With(recs, k), k)
  {
    hide With, Changed, Settled;
    if n > 0 {
      ReportedKeys(env, recs, keys, n - 1, k);
      assert keys[..n] == keys[..n - 1] + [keys[n - 1]];
      SeenAgainstMirror(env, recs, keys, n - 1);
    }
  }

  /** A second check in the same state of the repository finds nothing to unblock. */
  lemma SecondCheckIsQuiet(env: Env, was: seq<Rec>, now: seq<Rec>, keys: seq<string>)
    requires Left(env, was, now, keys)
    ensures !Touches(env, now, keys)
  {
    forall i | 0 <= i < |keys| ensures !Unblocks(env, With(now, keys[i]), keys[i]) {
      SettledIsSettled(env, With(was, keys[i]), keys[i]);
    }
  }

  // ---------- field by field ----------

  /** The last of the records with a key is the last record with the key. */
  lemma {:induction false} LastIs(recs: seq<Rec>, k: string, i: int)
    requires IsLastOf(recs, k, i)
    ensures With(recs, k) != [] && Last(With(recs, k)) == recs[i]
  {
    WithReplaced(recs, i, recs[i], k);
  }

  lemma {:induction false} LastExists(recs: seq<Rec>, k: string) returns (i: int)
    requires With(recs, k) != []
    ensures IsLastOf(recs, k, i)
  {
    var m := |recs| - 1;
    assert recs == recs[..m] + [recs[m]];
    WithConcat(recs[..m], [recs[m]], k);
    if recs[m].key == k {
      i := m;
    } else {
      WithNone([recs[m]], k);
      i := LastExists(recs[..m], k);
    }
  }

  lemma NeedsLookIff(env: Env, recs: seq<Rec>, k: string)
    ensures NeedsLook(env, recs, k) <==> Changed(env, With(recs, k), k)
  {
    hide With;
    forall j | IsLastOf(recs, k, j) ensures With(recs, k) != [] && Last(With(recs, k)) == recs[j] { LastIs(recs, k, j); }
    if With(recs, k) != [] {
      var j := LastExists(recs, k);
      LastIs(recs, k, j);
    }
  }

  lemma UnblockedIsRefreshed(env: Env, r: Rec)
    ensures Refreshed(env, r.key, r, Unblocked(env, r))
  {
  }

  lemma IsNewCommitIff(env: Env, r: Rec, commit: string)
    ensures IsNewCommit(env, r.key, r.commit, commit) <==> commit == NewCommit(env, r)
  {
  }

  /** Field by field, what `Left` and `Reports` say. */
  lemma LeftFields(env: Env, was: seq<Rec>, now: seq<Rec>, keys: seq<string>)
    requires Left(env, was, now, keys)
    ensures CheckLeaves(env, was, now, keys, Reports(env, was, keys, |keys|))
  {
    var reported := Reports(env, was, keys, |keys|);
    CheckConserves(env, was, now, keys);
    hide Reports, Changed, Refreshed;
    forall k: string ensures k in reported <==> k in keys && NeedsLook(env, was, k) {
      ReportedKeys(env, was, keys, |keys|, k);
      assert keys[..|keys|] == keys;
      NeedsLookIff(env, was, k);
    }
    forall k: string, i, j | IsLastOf(was, k, i) && IsLastOf(now, k, j)
      ensures if k in reported && was[i].blockedReason != "" then Refreshed(env, k, was[i], now[j]) else now[j] == was[i]
    {
      LastIs(was, k, i);
      LastIs(now, k, j);
      UnblockedIsRefreshed(env, was[i]);
      NeedsLookIff(env, was, k);
      assert With(now, k) == if k in keys then Settled(env, With(was, k), k) else With(was, k);
    }
  }

  /** The positions at which the check reports, from the fields of the records. */
  lemma ReportedAtIff(env: Env, recs: seq<Rec>, keys: seq<string>, i: nat)
    requires i < |keys|
    ensures ReportedAt(env, recs, keys, i) <==> Changed(env, Seen(env, recs, keys, i), keys[i])
  {
    var k := keys[i];
    hide With;
    forall j | IsLastOf(recs, k, j) ensures With(recs, k) != [] && Last(With(recs, k)) == recs[j] { LastIs(recs, k, j); }
    if With(recs, k) != [] {
      var j := LastExists(recs, k);
      var r := recs[j];
      assert Unblocks(env, With(recs, k), k) ==> Last(Settled(env, With(recs, k), k)) == Unblocked(env, r);
      forall c: string ensures IsNewCommit(env, k, r.commit, c) <==> c == NewCommit(env, r) { IsNewCommitIff(env, r, c); }
    }
  }

  lemma {:induction false} ReportsSelect(env: Env, recs: seq<Rec>, keys: seq<string>, n: nat)
    requires n <= |keys|
    ensures Selects(Reports(env, recs, keys, n), n, ReportFlags(env, recs, keys), KeyAt(keys))
  {
    hide Seen, Changed, ReportedAt, Selects;
    if n == 0 {
      SelectsNone(ReportFlags(env, recs, keys), KeyAt(keys));
    } else {
      ReportsSelect(env, recs, keys, n - 1);
      ReportedAtIff(env, recs, keys, n - 1);
      var before, p := Reports(env, recs, keys, n - 1), ReportFlags(env, recs, keys);
      SelectsNext(before, n - 1, p, KeyAt(keys));
      assert KeyAt(keys)(n - 1) == keys[n - 1] && before + [] == before;
      assert Reports(env, recs, keys, n) == if p(n - 1) then before + [keys[n - 1]] else before;
    }
  }

  lemma {:induction false} MirroredSelect(env: Env, recs: seq<Rec>, keys: seq<string>, n: nat)
    requires n <= |keys|
    ensures Selects(Mirrored(env, recs, keys, n), n, LookFlags(env, recs, keys), KeyAt(keys))
  {
    hide With, Changed, NeedsLook, Selects;
    if n == 0 {
      SelectsNone(LookFlags(env, recs, keys), KeyAt(keys));
    } else {
      MirroredSelect(env, recs, keys, n - 1);
      NeedsLookIff(env, recs, keys[n - 1]);
      var before, p := Mirrored(env, recs, keys, n - 1), LookFlags(env, recs, keys);
      SelectsNext(before, n - 1, p, KeyAt(keys));
      assert KeyAt(keys)(n - 1) == keys[n - 1] && before + [] == before;
      assert Mirrored(env, recs, keys, n) == if p(n - 1) then before + [keys[n - 1]] else before;
    }
  }

  // ---------- the check ----------

  /** The records `now` differ from `recs` as the check of the key `k` leaves them. */
  ghost predicate Steps(env: Env, recs: seq<Rec>, now: seq<Rec>, k: string) {
    forall x :: With(now, x) == if x == k then Settled(env, With(recs, x), x) else With(recs, x)
  }

  lemma NextLeft(env: Env, was: seq<Rec>, recs: seq<Rec>, now: seq<Rec>, keys: seq<string>, i: nat)
    requires i < |keys| && Left(env, was, recs, keys[..i]) && Steps(env, recs, now, keys[i])
    ensures Left(env, was, now, keys[..i + 1])
  {
    hide With, Settled, Unblocks;
    var k := keys[i];
    assert keys[..i + 1] == keys[..i] + [k];
    SettledTwice(env, With(was, k), k);
  }

  lemma SettledTwice(env: Env, w: seq<Rec>, k: string)
    ensures Settled(env, Settled(env, w, k), k) == Settled(env, w, k)
  {
    SettledIsSettled(env, w, k);
  }

  lemma NextTouches(env: Env, was: seq<Rec>, recs: seq<Rec>, keys: seq<string>, i: nat)
    requires i < |keys| && Left(env, was, recs, keys[..i])
    ensures Touches(env, was, keys[..i + 1])
       <==> Touches(env, was, keys[..i]) || Unblocks(env, With(recs, keys[i]), keys[i])
  {
    hide With, Unblocks;
    var k, a, b := keys[i], keys[..i], keys[..i + 1];
    assert b == a + [k] && b[i] == k;
    SettledIsSettled(env, With(was, k), k);
    if k in a {
      var j :| 0 <= j < |a| && a[j] == k;
      assert b[j] == k;
      assert Unblocks(env, With(was, a[j]), a[j]) ==> Touches(env, was, a);
    }
    if Touches(env, was, a) {
      var j :| 0 <= j < |a| && Unblocks(env, With(was, a[j]), a[j]);
      assert b[j] == a[j];
    }
  }

  ghost predicate IsLastMap(m: map<string, Rec>, recs: seq<Rec>) {
    && (forall k :: k in m <==> With(recs, k) != [])
    && forall k :: k in m ==> With(recs, k) != [] && m[k] == Last(With(recs, k))
  }

  lemma LastMapEmpty()
    ensures IsLastMap(map[], [])
  {
  }

  lemma LastMapNext(m: map<string, Rec>, recs: seq<Rec>, r: Rec)
    requires IsLastMap(m, recs)
    ensures IsLastMap(m[r.key := r], recs + [r])
  {
    hide With;
    forall k: string ensures With(recs + [r], k) == With(recs, k) + if r.key == k then [r] else [] {
      WithEnd(recs, r, k);
    }
  }

  lemma WithEnd(recs: seq<Rec>, r: Rec, k: string)
    ensures With(recs + [r], k) == With(recs, k) + if r.key == k then [r] else []
  {
    WithConcat(recs, [r], k);
  }

  /** `{r[key_field]: r for r in records}`: the last record with a key wins. */
  method RecordMap(recs: seq<Rec>) returns (m: map<string, Rec>)
    ensures IsLastMap(m, recs)
  {
    hide IsLastMap, With;
    m := map[];
    var i := 0;
    assert recs[..0] == [];
    LastMapEmpty();
    while i < |recs|
      invariant 0 <= i <= |recs|
      invariant IsLastMap(m, recs[..i])
    {
      assert recs[..i + 1] == recs[..i] + [recs[i]];
      LastMapNext(m, recs[..i], recs[i]);
      m := m[recs[i].key := recs[i]];
      i := i + 1;
    }
    assert recs[..i] == recs;
  }

  class Tracker {
    var records: seq<Rec>
    /** The contents of `records.json`. */
    var file: seq<Rec>

    constructor (file: seq<Rec>)
      ensures this.file == file && records == file
    {
      this.file, records := file, file;
    }

    method SaveRecords()
      modifies this
      ensures records == file == StableSort(old(records))
    {
      records := StableSort(records);
      file := records;
    }

    /** Updates the last record with the key, or appends a record made from the defaults. */
    method UpsertRecord(k: string, defaults: Rec, fields: Fields)
      requires defaults.key == k
      modifies this`records
      ensures forall x :: x != k ==> With(records, x) == old(With(records, x))
      ensures var w := old(With(records, k));
        With(records, k) == if w != [] then w[..|w| - 1] + [Update(Last(w), fields)] else [Update(defaults, fields)]
      ensures old(With(records, k)) == [] ==> records == old(records) + [Update(defaults, fields)]
      ensures old(With(records, k)) != [] ==> exists at :: IsLastOf(old(records), k, at) && records == old(records)[at := Update(old(records)[at], fields)]
    {
      var existing: map<string, nat> := map[];
      var i := 0;
      while i < |records|
        invariant 0 <= i <= |records|
        invariant forall x :: x in existing <==> exists j :: 0 <= j < i && records[j].key == x
        invariant forall x :: x in existing ==> existing[x] < i && records[existing[x]].key == x
        invariant forall x, j :: x in existing && existing[x] < j < i ==> records[j].key != x
      {
        existing := existing[records[i].key := i];
        i := i + 1;
      }
      ghost var was := records;
      if k in existing {
        var at := existing[k];
        var r := Update(records[at], fields);
        records := records[at := r];
        assert IsLastOf(was, k, at);
        forall x: string
          ensures x != k ==> With(records, x) == With(was, x)
          ensures x == k ==> With(was, x) != [] && With(was, x)[|With(was, x)| - 1] == was[at]
          ensures x == k ==> With(records, x) == With(was, x)[..|With(was, x)| - 1] + [r]
        {
          WithReplaced(was, at, r, x);
        }
      } else {
        records := records + [Update(defaults, fields)];
        WithNone(was, k);
        forall x: string ensures With(records, x) == With(was, x) + if k == x then [Update(defaults, fields)] else [] {
          WithConcat(was, [Update(defaults, fields)], x);
        }
      }
    }

    /** Clears the block of a record and saves: the update for one key, as a whole. */
    method Unblock(env: Env, k: string, rec: Rec)
      requires With(records, k) != [] && Last(With(records, k)) == rec && Unblocks(env, With(records, k), k)
      modifies this
      ensures records == file && Sorted(records)
      ensures Steps(env, old(records), records, k)
    {
      WithKeys(records, k);
      assert rec.key == k;
      var fields;
      if rec.commit == "" {
        fields := Fields(None, None, None, None, Some(""));
      } else {
        var base := env.mergeBase(k);
        var commit := if base.Some? && base.value != "" then base.value else rec.commit;
        fields := Fields(Some(commit), Some(env.committerDate(commit)), Some(env.now(k)), None, Some(""));
      }
      assert Update(rec, fields) == Unblocked(env, rec);
      UpsertRecord(k, Rec(k, "", "", "", "", ""), fields);
      SaveRecords();
    }

    /** The body of the loop of `run_check`. */
    method CheckKey(env: Env, k: string, recordMap: map<string, Rec>) returns (reported: bool, refreshed: map<string, Rec>)
      requires IsLastMap(recordMap, records) && records == file
      modifies this
      ensures reported == Changed(env, old(With(records, k)), k)
      ensures Steps(env, old(records), records, k)
      ensures IsLastMap(refreshed, records) && records == file
      ensures if Unblocks(env, old(With(records, k)), k) then Sorted(records) else records == old(records)
    {
      hide With;
      refreshed := recordMap;
      if k !in recordMap { return true, refreshed; }
      var rec := recordMap[k];
      if rec.commit == "" || env.keyChanged(rec.commit, k) {
        if rec.blockedReason != "" {
          Unblock(env, k, rec);
          refreshed := RecordMap(records);
        }
        return true, refreshed;
      }
      return false, refreshed;
    }

    method RunCheck(env: Env, keys: seq<string>) returns (changed: seq<string>)
      modifies this
      ensures changed == Reports(env, old(file), keys, |keys|)
      ensures Left(env, old(file), file, keys)
      ensures if Touches(env, old(file), keys) then Sorted(file) else file == old(file)
      ensures CheckLeaves(env, old(file), file, keys, changed)
      ensures Selects(changed, |keys|, ReportFlags(env, old(file), keys), KeyAt(keys))
    {
      hide CheckLeaves, Selects;
      hide With, Settled, Unblocks, Changed, Touches, Sorted, IsLastMap, Steps, Left, Seen;
      records := file;
      ghost var was := file;
      NothingLeft(env, was, keys);
      var recordMap := RecordMap(records);
      changed := [];
      var i := 0;
      NothingTouched(env, was, keys);
      while i < |keys|
        invariant 0 <= i <= |keys|
        invariant changed == Reports(env, was, keys, i)
        invariant Left(env, was, records, keys[..i])
        invariant IsLastMap(recordMap, records) && records == file
        invariant if Touches(env, was, keys[..i]) then Sorted(file) else file == was
      {
        ghost var recs := records;
        NextTouches(env, was, recs, keys, i);
        SeenNow(env, was, recs, keys, i);
        var reported;
        reported, recordMap := CheckKey(env, keys[i], recordMap);
        if reported { changed := changed + [keys[i]]; }
        NextLeft(env, was, recs, records, keys, i);
        i := i + 1;
      }
      assert keys[..i] == keys;
      LeftFields(env, was, file, keys);
      ReportsSelect(env, was, keys, |keys|);
    }
  }

  lemma NothingLeft(env: Env, recs: seq<Rec>, keys: seq<string>)
    ensures Left(env, recs, recs, keys[..0])
  {
    hide With, Settled;
  }

  lemma SeenNow(env: Env, was: seq<Rec>, recs: seq<Rec>, keys: seq<string>, i: nat)
    requires i < |keys| && Left(env, was, recs, keys[..i])
    ensures With(recs, keys[i]) == Seen(env, was, keys, i)
  {
    hide With, Settled;
  }

  lemma NothingTouched(env: Env, recs: seq<Rec>, keys: seq<string>)
    ensures !Touches(env, recs, keys[..0])
  {
  }

  // ---------- the mirror and the next step ----------

  lemma ChangedByMap(env: Env, recs: seq<Rec>, m: map<string, Rec>, k: string)
    requires IsLastMap(m, recs)
    ensures Changed(env, With(recs, k), k) <==> k !in m || m[k].commit == "" || env.keyChanged(m[k].commit, k)
  {
    hide With;
  }

  method ChangedKeys(env: Env, recs: seq<Rec>, keys: seq<string>) returns (changed: seq<string>)
    ensures changed == Mirrored(env, recs, keys, |keys|)
    ensures Selects(changed, |keys|, LookFlags(env, recs, keys), KeyAt(keys))
  {
    MirroredSelect(env, recs, keys, |keys|);
    hide *;
    var recordMap := RecordMap(recs);
    changed := [];
    var i := 0;
    MirroredNone(env, recs, keys);
    while i < |keys|
      invariant 0 <= i <= |keys|
      invariant changed == Mirrored(env, recs, keys, i)
    {
      var k := keys[i];
      ChangedByMap(env, recs, recordMap, k);
      MirroredNext(env, recs, keys, i);
      if k !in recordMap || recordMap[k].commit == "" {
        changed := changed + [k];
      } else if env.keyChanged(recordMap[k].commit, k) {
        changed := changed + [k];
      }
      i := i + 1;
    }
  }

  lemma MirroredNone(env: Env, recs: seq<Rec>, keys: seq<string>)
    ensures Mirrored(env, recs, keys, 0) == []
  {
  }

  lemma MirroredNext(env: Env, recs: seq<Rec>, keys: seq<string>, i: nat)
    requires i < |keys|
    ensures Mirrored(env, recs, keys, i + 1)
         == if Changed(env, With(recs, keys[i]), keys[i]) then Mirrored(env, recs, keys, i) + [keys[i]] else Mirrored(env, recs, keys, i)
  {
    hide With, Changed;
    assert Mirrored(env, recs, keys, i) + [] == Mirrored(env, recs, keys, i);
  }

  datatype Status = Empty | Design | BlockedWaiting | Requirement

  datatype NextStep = NextStep(status: Status, designDocs: seq<Entry>, blockedDocs: seq<Entry>, modules: seq<Entry>)

  /** The comment on record for a key; the last record with the key counts. */
  function CommentOf(recs: seq<Rec>, k: string): string {
    if With(recs, k) == [] then "" else Last(With(recs, k)).comment
  }

  method CommentMap(recs: seq<Rec>) returns (m: map<string, string>)
    ensures forall k :: (if k in m then m[k] else "") == CommentOf(recs, k)
  {
    var lasts := RecordMap(recs);
    m := map k | k in lasts :: lasts[k].comment;
  }

  lemma CommentIs(recs: seq<Rec>, k: string)
    ensures forall j :: IsLastOf(recs, k, j) ==> CommentOf(recs, k) == recs[j].comment
    ensures (forall j :: 0 <= j < |recs| ==> recs[j].key != k) ==> CommentOf(recs, k) == ""
  {
    hide With;
    forall j | IsLastOf(recs, k, j) ensures CommentOf(recs, k) == recs[j].comment { LastIs(recs, k, j); }
    if forall j :: 0 <= j < |recs| ==> recs[j].key != k { WithNone(recs, k); }
  }

  /** Keys with the comment on record. */
  method Annotate(recs: seq<Rec>, keys: seq<string>) returns (entries: seq<Entry>)
    ensures AreAnnotated(recs, keys, entries)
  {
    hide CommentOf, IsLastOf;
    var comments := CommentMap(recs);
    entries := [];
    for i := 0 to |keys|
      invariant AreAnnotated(recs, keys[..i], entries)
    {
      CommentIs(recs, keys[i]);
      entries := entries + [Entry(keys[i], if keys[i] in comments then comments[keys[i]] else "")];
      assert keys[..i + 1] == keys[..i] + [keys[i]];
    }
    assert keys[..|keys|] == keys;
  }

  /** The records that are blocked, in file order, with the reason. */
  method BlockedRecords(recs: seq<Rec>) returns (blocked: seq<Entry>)
    ensures Selects(blocked, |recs|, BlockedFlags(recs), ReasonAt(recs))
    ensures blocked == [] <==> forall i :: 0 <= i < |recs| ==> recs[i].blockedReason == ""
  {
    hide Selects;
    blocked := [];
    SelectsNone(BlockedFlags(recs), ReasonAt(recs));
    for i := 0 to |recs|
      invariant Selects(blocked, i, BlockedFlags(recs), ReasonAt(recs))
      invariant blocked == [] <==> forall j :: 0 <= j < i ==> recs[j].blockedReason == ""
    {
      SelectsNext(blocked, i, BlockedFlags(recs), ReasonAt(recs));
      assert ReasonAt(recs)(i) == Entry(recs[i].key, recs[i].blockedReason);
      if recs[i].blockedReason != "" { blocked := blocked + [Entry(recs[i].key, recs[i].blockedReason)]; }
    }
  }

  /** `docs` are the keys to look at, in order, each with its comment. */
  ghost predicate ListsChanged(env: Env, recs: seq<Rec>, keys: seq<string>, entries: seq<Entry>) {
    exists changed :: Selects(changed, |keys|, LookFlags(env, recs, keys), KeyAt(keys)) && AreAnnotated(recs, changed, entries)
  }

  lemma NothingListed(env: Env, recs: seq<Rec>, keys: seq<string>)
    ensures Mirrored(env, recs, keys, |keys|) == [] <==> forall i :: 0 <= i < |keys| ==> !NeedsLook(env, recs, keys[i])
  {
    hide NeedsLook;
    MirroredSelect(env, recs, keys, |keys|);
    var m, p := Mirrored(env, recs, keys, |keys|), LookFlags(env, recs, keys);
    var ks :| Picks(ks, |keys|, p) && |ks| == |m| && forall a :: 0 <= a < |ks| ==> m[a] == KeyAt(keys)(ks[a]);
    hide Mirrored;
    if m == [] {
      forall i: nat | i < |keys| ensures !NeedsLook(env, recs, keys[i]) { assert i !in ks; }
    } else {
      assert ks[0] in ks;
      assert p(ks[0]);
    }
  }

  /**
    The next step of the pipeline: a design document to look at, else a record that is still
    blocked, else a module to look at; and exactly those are listed, in order, with their
    comments or reasons. It finds work exactly when the mutating checks would report some.
   */
  method CmdNext(design: Env, designRecs: seq<Rec>, docs: seq<string>,
                 requirement: Env, moduleRecs: seq<Rec>, modules: seq<string>)
    returns (next: NextStep)
    ensures next.status.Design? <==> exists i :: 0 <= i < |docs| && NeedsLook(design, designRecs, docs[i])
    ensures next.status.BlockedWaiting?
       <==> !next.status.Design? && exists i :: 0 <= i < |designRecs| && designRecs[i].blockedReason != ""
    ensures next.status.Requirement?
       <==> && !next.status.Design? && !next.status.BlockedWaiting?
            && exists i :: 0 <= i < |modules| && NeedsLook(requirement, moduleRecs, modules[i])
    ensures next.status.Design? <==> Reports(design, designRecs, docs, |docs|) != []
    ensures next.status.Requirement? ==> Reports(requirement, moduleRecs, modules, |modules|) != []
    ensures if next.status.Design? then ListsChanged(design, designRecs, docs, next.designDocs) else next.designDocs == []
    ensures if next.status.BlockedWaiting?
            then Selects(next.blockedDocs, |designRecs|, BlockedFlags(designRecs), ReasonAt(designRecs)) else next.blockedDocs == []
    ensures if next.status.Requirement? then ListsChanged(requirement, moduleRecs, modules, next.modules) else next.modules == []
  {
    hide With, CommentOf, NeedsLook, Selects, AreAnnotated;
    MirrorFindsWork(design, designRecs, docs, |docs|);
    MirrorFindsWork(requirement, moduleRecs, modules, |modules|);
    NothingListed(design, designRecs, docs);
    NothingListed(requirement, moduleRecs, modules);
    hide Reports, Mirrored;
    next := NextStep(Empty, [], [], []);
    var changed := ChangedKeys(design, designRecs, docs);
    if changed != [] {
      var entries := Annotate(designRecs, changed);
      return next.(status := Design, designDocs := entries);
    }
    var blocked := BlockedRecords(designRecs);
    if blocked != [] { return next.(status := BlockedWaiting, blockedDocs := blocked); }
    var reqChanged := ChangedKeys(requirement, moduleRecs, modules);
    if reqChanged != [] {
      var entries := Annotate(moduleRecs, reqChanged);
      return next.(status := Requirement, modules := entries);
    }
  }
}
