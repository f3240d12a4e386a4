/**
  The records kept by the document trackers (`scripts/_tracker_core.py`): the order of keys,
  the stable sort that every save applies, and the updates of single records.

  Two records may share a key. All lookups take the last of them, so what matters about a list
  of records is, for every key, the records with that key in order: `With`.
 */
module TrackerRecords {
  import opened Wrappers
  import opened StringOrder

  datatype Rec = Rec(key: string, commit: string, commitTime: string, confirmedTime: string,
                     comment: string, blockedReason: string)

  /** The keyword arguments of an update; `None` leaves the field as it is. */
  datatype Fields = Fields(commit: Option<string>, commitTime: Option<string>, confirmedTime: Option<string>,
                           comment: Option<string>, blockedReason: Option<string>)

  function Or(field: Option<string>, was: string): string {
    if field.Some? then field.value else was
  }

  function Update(r: Rec, f: Fields): Rec {
    Rec(r.key, Or(f.commit, r.commit), Or(f.commitTime, r.commitTime), Or(f.confirmedTime, r.confirmedTime),
        Or(f.comment, r.comment), Or(f.blockedReason, r.blockedReason))
  }

  // ---------- records with a key ----------

  function With(s: seq<Rec>, k: string): seq<Rec> {
    if s == [] then [] else (if s[0].key == k then [s[0]] else []) + With(s[1..], k)
  }

  lemma {:induction false} WithConcat(s: seq<Rec>, t: seq<Rec>, k: string)
    ensures With(s + t, k) == With(s, k) + With(t, k)
  {
    if s == [] {
      assert s + t == t;
    } else {
      assert (s + t)[1..] == s[1..] + t;
      WithConcat(s[1..], t, k);
    }
  }

  lemma {:induction false} WithNone(s: seq<Rec>, k: string)
    requires forall i :: 0 <= i < |s| ==> s[i].key != k
    ensures With(s, k) == []
  {
    if s != [] { WithNone(s[1..], k); }
  }

  lemma {:induction false} WithMember(s: seq<Rec>, i: nat)
    requires i < |s|
    ensures s[i] in With(s, s[i].key)
  {
    if i > 0 { WithMember(s[1..], i - 1); }
  }

  lemma WithFirst(r: Rec, s: seq<Rec>, k: string)
    ensures With([r] + s, k) == (if r.key == k then [r] else []) + With(s, k)
  {
    assert ([r] + s)[1..] == s;
  }

  lemma WithAround(a: seq<Rec>, r: Rec, b: seq<Rec>, k: string)
    ensures With(a + ([r] + b), k) == With(a, k) + ((if r.key == k then [r] else []) + With(b, k))
  {
    hide With;
    WithConcat(a, [r] + b, k);
    WithFirst(r, b, k);
  }

  lemma AroundAt(s: seq<Rec>, i: nat, r: Rec)
    requires i < |s|
    ensures s == s[..i] + ([s[i]] + s[i + 1..]) && s[i := r] == s[..i] + ([r] + s[i + 1..])
  {
  }

  /** Replacing the last record with a key replaces the last of those with that key, and no other. */
  lemma WithReplaced(s: seq<Rec>, i: nat, r: Rec, k: string)
    requires i < |s| && r.key == s[i].key && forall j :: i < j < |s| ==> s[j].key != s[i].key
    ensures k != r.key ==> With(s[i := r], k) == With(s, k)
    ensures k == r.key ==> With(s, k) != [] && With(s, k)[|With(s, k)| - 1] == s[i]
    ensures k == r.key ==> With(s[i := r], k) == With(s, k)[..|With(s, k)| - 1] + [r]
  {
    hide With;
    AroundAt(s, i, r);
    WithAround(s[..i], s[i], s[i + 1..], k);
    WithAround(s[..i], r, s[i + 1..], k);
    WithNone(s[i + 1..], s[i].key);
  }

  // ---------- the stable sort ----------

  predicate Sorted(s: seq<Rec>) {
    forall i, j :: 0 <= i < j < |s| ==> Le(s[i].key, s[j].key)
  }

  /** `r` put in front of the records that do not come before it. */
  function Insert(r: Rec, s: seq<Rec>): (t: seq<Rec>)
    requires Sorted(s)
    ensures Sorted(t) && |t| == |s| + 1
    ensures forall x :: x in t <==> x == r || x in s
    ensures forall k :: With(t, k) == With([r] + s, k)
  {
    if s == [] then [r]
    else if Le(r.key, s[0].key) then
      InsertFront(r, s);
      [r] + s
    else
      var rest := Insert(r, s[1..]);
      InsertBehind(r, s, rest);
      [s[0]] + rest
  }

  lemma InsertFront(r: Rec, s: seq<Rec>)
    requires Sorted(s) && s != [] && Le(r.key, s[0].key)
    ensures Sorted([r] + s)
  {
    forall j | 0 <= j < |s| ensures Le(r.key, s[j].key) {
      if j > 0 { LeTransitive(r.key, s[0].key, s[j].key); }
    }
  }

  lemma InsertBehind(r: Rec, s: seq<Rec>, rest: seq<Rec>)
    requires Sorted(s) && s != [] && !Le(r.key, s[0].key) && Sorted(rest)
    requires forall x :: x in rest <==> x == r || x in s[1..]
    requires forall k :: With(rest, k) == With([r] + s[1..], k)
    ensures Sorted([s[0]] + rest)
    ensures forall k :: With([s[0]] + rest, k) == With([r] + s, k)
  {
    hide With;
    LeTotal(r.key, s[0].key);
    forall j | 0 <= j < |rest| ensures Le(s[0].key, rest[j].key) {
      assert rest[j] in rest;
    }
    forall k: string ensures With([s[0]] + rest, k) == With([r] + s, k) {
      PassBy(r, s, rest, k);
    }
  }

  lemma PassBy(r: Rec, s: seq<Rec>, rest: seq<Rec>, k: string)
    requires s != [] && r.key != s[0].key && With(rest, k) == With([r] + s[1..], k)
    ensures With([s[0]] + rest, k) == With([r] + s, k)
  {
    hide With;
    assert s == [s[0]] + s[1..];
    WithFirst(s[0], rest, k);
    WithFirst(r, s[1..], k);
    WithFirst(r, s, k);
    WithFirst(s[0], s[1..], k);
  }

  /** The records sorted by key, those with the same key in the order they had. */
  function StableSort(s: seq<Rec>): (t: seq<Rec>)
    ensures Sorted(t) && |t| == |s|
    ensures forall k :: With(t, k) == With(s, k)
  {
    if s == [] then []
    else
      var rest := StableSort(s[1..]);
      var t := Insert(s[0], rest);
      assert forall k :: With(t, k) == With(s, k) by { SortStep(s, rest, t); }
      t
  }

  lemma SortStep(s: seq<Rec>, rest: seq<Rec>, t: seq<Rec>)
    requires s != [] && (forall k :: With(rest, k) == With(s[1..], k)) && forall k :: With(t, k) == With([s[0]] + rest, k)
    ensures forall k :: With(t, k) == With(s, k)
  {
    hide With;
    assert s == [s[0]] + s[1..];
    forall k: string ensures With(t, k) == With(s, k) {
      WithFirst(s[0], rest, k);
      WithFirst(s[0], s[1..], k);
    }
  }

  /** A sorted list is determined by its records with each key: there is one stable sort. */
  lemma {:induction false} StableSortIsUnique(s: seq<Rec>, t: seq<Rec>)
    requires Sorted(s) && Sorted(t) && forall k :: With(s, k) == With(t, k)
    ensures s == t
  {
    if s == [] {
      NoRecords(t);
    } else {
      SameHead(s, t);
      forall k: string ensures With(s[1..], k) == With(t[1..], k) {
        TailWith(s, t, k);
      }
      StableSortIsUnique(s[1..], t[1..]);
      assert s == [s[0]] + s[1..] && t == [t[0]] + t[1..];
    }
  }

  lemma {:induction false} WithFound(s: seq<Rec>, r: Rec, k: string)
    requires r in With(s, k)
    ensures r in s && r.key == k
  {
    if s[0].key == k && r == s[0] {
    } else {
      WithFound(s[1..], r, k);
    }
  }

  lemma SameHead(s: seq<Rec>, t: seq<Rec>)
    requires Sorted(s) && Sorted(t) && s != [] && forall k :: With(s, k) == With(t, k)
    ensures t != [] && s[0] == t[0]
  {
    WithMember(s, 0);
    WithFound(t, s[0], s[0].key);
    WithMember(t, 0);
    WithFound(s, t[0], t[0].key);
    var i :| 0 <= i < |t| && t[i] == s[0];
    var j :| 0 <= j < |s| && s[j] == t[0];
    LeTotal(s[0].key, s[0].key);
    LeTotal(t[0].key, t[0].key);
    assert Le(t[0].key, t[i].key) && Le(s[0].key, s[j].key);
    LeAntisymmetric(s[0].key, t[0].key);
    assert With(s, s[0].key)[0] == s[0] && With(t, t[0].key)[0] == t[0];
  }

  lemma TailWith(s: seq<Rec>, t: seq<Rec>, k: string)
    requires s != [] && t != [] && s[0] == t[0] && With(s, k) == With(t, k)
    ensures With(s[1..], k) == With(t[1..], k)
  {
    if s[0].key == k {
      assert With(s, k)[1..] == With(s[1..], k) && With(t, k)[1..] == With(t[1..], k);
    } else {
      assert With(s, k) == With(s[1..], k) && With(t, k) == With(t[1..], k);
    }
  }

  lemma NoRecords(t: seq<Rec>)
    requires forall k :: With(t, k) == []
    ensures t == []
  {
    if t != [] { WithMember(t, 0); }
  }

  lemma CountWithout(s: seq<Rec>, t: seq<Rec>, i: nat, x: string)
    requires s != [] && i < |t| && t[i].key == s[0].key && |With(s, x)| == |With(t, x)|
    ensures |With(s[1..], x)| == |With(t[..i] + t[i + 1..], x)|
  {
    hide With;
    AroundAt(t, i, t[i]);
    AroundAt(s, 0, s[0]);
    WithFirst(s[0], s[1..], x);
    assert s == [s[0]] + s[1..];
    WithAround(t[..i], t[i], t[i + 1..], x);
    WithConcat(t[..i], t[i + 1..], x);
  }

  /** Lists with equally many records for each key have equally many records. */
  lemma {:induction false} SameCounts(s: seq<Rec>, t: seq<Rec>)
    requires forall k :: |With(s, k)| == |With(t, k)|
    ensures |s| == |t|
    decreases |s|
  {
    if s == [] {
      NoRecords(t);
    } else {
      var k := s[0].key;
      assert |With(t, k)| > 0;
      WithFound(t, With(t, k)[0], k);
      var i :| 0 <= i < |t| && t[i].key == k;
      var u := t[..i] + t[i + 1..];
      forall x: string ensures |With(s[1..], x)| == |With(u, x)| {
        CountWithout(s, t, i, x);
      }
      SameCounts(s[1..], u);
    }
  }
}
