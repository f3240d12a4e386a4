/** Interleavings of any number of threads, each a sequence of events. */
module Interleavings {

  /** `tr` takes the events of every thread of `ths`, each thread in its own order. */
  ghost predicate Interleaves<E>(tr: seq<E>, ths: seq<seq<E>>)
    decreases |tr|
  {
    if tr == [] then forall k :: 0 <= k < |ths| ==> ths[k] == []
    else exists k :: Takes(tr, ths, k) && Interleaves(tr[1..], Advance(ths, k))
  }

  /** The first event of `tr` is the first event of thread `k`. */
  ghost predicate Takes<E>(tr: seq<E>, ths: seq<seq<E>>, k: int) {
    tr != [] && 0 <= k < |ths| && ths[k] != [] && ths[k][0] == tr[0]
  }

  function Advance<E>(ths: seq<seq<E>>, k: int): seq<seq<E>>
    requires 0 <= k < |ths| && ths[k] != []
  {
    ths[k := ths[k][1..]]
  }

  ghost predicate Precedes<E>(tr: seq<E>, x: E, y: E) {
    exists i, j :: 0 <= i < j < |tr| && tr[i] == x && tr[j] == y
  }

  function Flatten<E>(ths: seq<seq<E>>): seq<E> {
    if ths == [] then [] else ths[0] + Flatten(ths[1..])
  }

  // ---------- contents ----------

  lemma {:induction false} FlattenAdvance<E>(ths: seq<seq<E>>, k: int)
    requires 0 <= k < |ths| && ths[k] != []
    ensures multiset(Flatten(ths)) == multiset(Flatten(Advance(ths, k))) + multiset{ths[k][0]}
  {
    var adv := Advance(ths, k);
    if k == 0 {
      HeadContents(ths[0]);
      assert adv[1..] == ths[1..];
    } else {
      FlattenAdvance(ths[1..], k - 1);
      assert adv[1..] == Advance(ths[1..], k - 1);
    }
  }

  lemma {:induction false} FlattenEmpty<E>(ths: seq<seq<E>>)
    requires forall k :: 0 <= k < |ths| ==> ths[k] == []
    ensures Flatten(ths) == []
  {
    if ths != [] { FlattenEmpty(ths[1..]); }
  }

  lemma HeadContents<E>(s: seq<E>)
    requires s != []
    ensures multiset(s) == multiset(s[1..]) + multiset{s[0]}
  {
    assert s == [s[0]] + s[1..];
  }

  /** An interleaving has every event of every thread, as often as the threads have it. */
  lemma {:induction false} InterleavingContents<E>(tr: seq<E>, ths: seq<seq<E>>)
    requires Interleaves(tr, ths)
    ensures multiset(tr) == multiset(Flatten(ths))
    decreases |tr|
  {
    if tr == [] {
      FlattenEmpty(ths);
    } else {
      var k :| Takes(tr, ths, k) && Interleaves(tr[1..], Advance(ths, k));
      var adv := Advance(ths, k);
      hide Interleaves, Flatten, Advance;
      InterleavingContents(tr[1..], adv);
      FlattenAdvance(ths, k);
      HeadContents(tr);
    }
  }

  // ---------- order ----------

  lemma PrecedesLater<E>(tr: seq<E>, x: E, y: E)
    requires tr != [] && Precedes(tr[1..], x, y)
    ensures Precedes(tr, x, y)
  {
    var i, j :| 0 <= i < j < |tr[1..]| && tr[1..][i] == x && tr[1..][j] == y;
    assert tr[i + 1] == x && tr[j + 1] == y;
  }

  lemma {:induction false} Occurs<E>(tr: seq<E>, ths: seq<seq<E>>, k: int, a: int)
    requires Interleaves(tr, ths) && 0 <= k < |ths| && 0 <= a < |ths[k]|
    ensures ths[k][a] in tr
  {
    InterleavingContents(tr, ths);
    InFlatten(ths, k, a);
    assert ths[k][a] in multiset(tr);
  }

  lemma {:induction false} InFlatten<E>(ths: seq<seq<E>>, k: int, a: int)
    requires 0 <= k < |ths| && 0 <= a < |ths[k]|
    ensures ths[k][a] in Flatten(ths)
  {
    if k > 0 { InFlatten(ths[1..], k - 1, a); }
  }

  /** An interleaving keeps the order of each thread. */
  lemma {:induction false} InterleavingKeepsOrder<E>(tr: seq<E>, ths: seq<seq<E>>, k: int, a: int, b: int)
    requires Interleaves(tr, ths) && 0 <= k < |ths| && 0 <= a < b < |ths[k]|
    ensures Precedes(tr, ths[k][a], ths[k][b])
    decreases |tr|
  {
    if tr != [] {
      var m :| Takes(tr, ths, m) && Interleaves(tr[1..], Advance(ths, m));
      var adv := Advance(ths, m);
      if m == k {
        assert forall c :: 0 < c < |ths[k]| ==> adv[k][c - 1] == ths[k][c];
        if a == 0 {
          Occurs(tr[1..], adv, k, b - 1);
          var j :| 0 <= j < |tr[1..]| && tr[1..][j] == ths[k][b];
          assert tr[0] == ths[k][a] && tr[j + 1] == ths[k][b];
        } else {
          InterleavingKeepsOrder(tr[1..], adv, k, a - 1, b - 1);
          PrecedesLater(tr, ths[k][a], ths[k][b]);
        }
      } else {
        InterleavingKeepsOrder(tr[1..], adv, k, a, b);
        PrecedesLater(tr, ths[k][a], ths[k][b]);
      }
    }
  }

  /** With a single thread there is nothing to choose. */
  lemma {:induction false} SingleThread<E>(tr: seq<E>, th: seq<E>)
    requires Interleaves(tr, [th])
    ensures tr == th
    decreases |tr|
  {
    if tr == [] {
      assert [th][0] == [];
    } else {
      var m :| Takes(tr, [th], m) && Interleaves(tr[1..], Advance([th], m));
      assert Advance([th], m) == [th[1..]];
      SingleThread(tr[1..], th[1..]);
      assert tr == [tr[0]] + tr[1..] && th == [th[0]] + th[1..];
    }
  }

  // ---------- projection ----------

  /** The events of `tr` with label `l`, in order. */
  function Project<E, L(==)>(tr: seq<E>, lab: E -> L, l: L): seq<E> {
    if tr == [] then []
    else if lab(tr[0]) == l then [tr[0]] + Project(tr[1..], lab, l)
    else Project(tr[1..], lab, l)
  }

  ghost predicate Labelled<E(!new), L>(ths: seq<seq<E>>, lab: E -> L, labs: seq<L>) {
    && |labs| == |ths|
    && (forall k, m :: 0 <= k < m < |labs| ==> labs[k] != labs[m])
    && (forall k, e :: 0 <= k < |ths| && e in ths[k] ==> lab(e) == labs[k])
  }

  /** If the threads have different labels, an interleaving restricted to a label is that thread. */
  lemma {:induction false} InterleavingProjects<E(!new), L>(
    tr: seq<E>, ths: seq<seq<E>>, lab: E -> L, labs: seq<L>, k: int)
    requires Interleaves(tr, ths) && Labelled(ths, lab, labs) && 0 <= k < |ths|
    ensures Project(tr, lab, labs[k]) == ths[k]
    decreases |tr|
  {
    if tr != [] {
      var m :| Takes(tr, ths, m) && Interleaves(tr[1..], Advance(ths, m));
      var adv := Advance(ths, m);
      assert tr[0] in ths[m];
      assert Labelled(adv, lab, labs) by {
        forall j, e | 0 <= j < |adv| && e in adv[j] ensures lab(e) == labs[j] { assert e in ths[j]; }
      }
      InterleavingProjects(tr[1..], adv, lab, labs, k);
      if m == k {
        assert ths[k] == [tr[0]] + adv[k];
      } else {
        assert labs[m] != labs[k];
      }
    }
  }

  /** Every event of an interleaving comes from a thread. */
  lemma {:induction false} EventHasThread<E>(tr: seq<E>, ths: seq<seq<E>>, e: E) returns (k: int)
    requires Interleaves(tr, ths) && e in tr
    ensures 0 <= k < |ths| && e in ths[k]
  {
    InterleavingContents(tr, ths);
    assert e in multiset(Flatten(ths));
    k := FromFlatten(ths, e);
  }

  lemma {:induction false} FromFlatten<E>(ths: seq<seq<E>>, e: E) returns (k: int)
    requires e in Flatten(ths)
    ensures 0 <= k < |ths| && e in ths[k]
  {
    if e in ths[0] {
      k := 0;
    } else {
      var m := FromFlatten(ths[1..], e);
      k := m + 1;
    }
  }

  // ---------- threads run one after the other ----------

  lemma {:induction false} FlattenTakes<E>(ths: seq<seq<E>>) returns (k: nat)
    requires Flatten(ths) != []
    ensures Takes(Flatten(ths), ths, k) && Flatten(Advance(ths, k)) == Flatten(ths)[1..]
  {
    if ths[0] != [] {
      k := 0;
      assert Advance(ths, 0)[1..] == ths[1..];
    } else {
      var m := FlattenTakes(ths[1..]);
      k := m + 1;
      assert Advance(ths, k)[1..] == Advance(ths[1..], m);
    }
  }

  lemma {:induction false} EmptyThreads<E>(ths: seq<seq<E>>)
    requires Flatten(ths) == []
    ensures forall k :: 0 <= k < |ths| ==> ths[k] == []
  {
    if ths != [] { EmptyThreads(ths[1..]); }
  }

  lemma {:induction false} DrainAll<E>(ths: seq<seq<E>>)
    ensures Interleaves(Flatten(ths), ths)
    decreases |Flatten(ths)|
  {
    if Flatten(ths) == [] {
      EmptyThreads(ths);
    } else {
      var k := FlattenTakes(ths);
      DrainAll(Advance(ths, k));
    }
  }

  /** Any thread can run first. */
  lemma {:induction false} DrainOneFirst<E>(ths: seq<seq<E>>, k: nat)
    requires k < |ths|
    ensures Interleaves(ths[k] + Flatten(ths[k := []]), ths)
    decreases |ths[k]|
  {
    var rest := Flatten(ths[k := []]);
    if ths[k] == [] {
      assert ths[k := []] == ths && [] + rest == rest;
      DrainAll(ths);
    } else {
      var tr, adv := ths[k] + rest, Advance(ths, k);
      DrainOneFirst(adv, k);
      assert adv[k := []] == ths[k := []];
      assert tr[1..] == adv[k] + rest && Takes(tr, ths, k);
    }
  }

  // ---------- order in concatenations ----------

  lemma PrecedesIn<E>(before: seq<E>, tr: seq<E>, after: seq<E>, x: E, y: E)
    requires Precedes(tr, x, y)
    ensures Precedes(before + tr + after, x, y)
  {
    var i, j :| 0 <= i < j < |tr| && tr[i] == x && tr[j] == y;
    var all, n := before + tr + after, |before|;
    assert all[n + i] == x && all[n + j] == y;
  }

  lemma PrecedesAcross<E>(a: seq<E>, b: seq<E>, x: E, y: E)
    requires x in a && y in b
    ensures Precedes(a + b, x, y)
  {
    var i :| 0 <= i < |a| && a[i] == x;
    var j :| 0 <= j < |b| && b[j] == y;
    assert (a + b)[i] == x && (a + b)[|a| + j] == y;
  }

  lemma {:induction false} PrecedesInFlatten<E>(ths: seq<seq<E>>, k: nat, x: E, y: E)
    requires k < |ths| && Precedes(ths[k], x, y)
    ensures Precedes(Flatten(ths), x, y)
  {
    if k == 0 {
      PrecedesIn([], ths[0], Flatten(ths[1..]), x, y);
      assert [] + ths[0] + Flatten(ths[1..]) == Flatten(ths);
    } else {
      PrecedesInFlatten(ths[1..], k - 1, x, y);
      PrecedesIn(ths[0], Flatten(ths[1..]), [], x, y);
      assert ths[0] + Flatten(ths[1..]) + [] == Flatten(ths);
    }
  }

  lemma {:induction false} PrecedesAcrossFlatten<E>(ths: seq<seq<E>>, k: nat, l: nat, x: E, y: E)
    requires k < l < |ths| && x in ths[k] && y in ths[l]
    ensures Precedes(Flatten(ths), x, y)
  {
    if k == 0 {
      var a :| 0 <= a < |ths[l]| && ths[l][a] == y;
      InFlatten(ths[1..], l - 1, a);
      PrecedesAcross(ths[0], Flatten(ths[1..]), x, y);
    } else {
      PrecedesAcrossFlatten(ths[1..], k - 1, l - 1, x, y);
      PrecedesIn(ths[0], Flatten(ths[1..]), [], x, y);
      assert ths[0] + Flatten(ths[1..]) + [] == Flatten(ths);
    }
  }
}
