/**
  The dispatcher orders no more calls than it promises: unless call `i` is to end before call
  `j` starts, there is a run of the batch in which `j` starts while `i` has not ended.
 */
module DispatchExact {
  import opened Wrappers
  import opened Interleavings
  import opened DispatchPlan
  import opened DispatchOrder

  /** The threads of a phase one after the other, thread `k` first. */
  ghost function FirstOf(ths: seq<seq<Event>>, k: nat): seq<Event> {
    if k < |ths| then ths[k] + Flatten(ths[k := []]) else Flatten(ths)
  }

  lemma FirstOfInterleaves(ths: seq<seq<Event>>, k: nat)
    ensures Interleaves(FirstOf(ths, k), ths)
  {
    if k < |ths| { DrainOneFirst(ths, k); } else { DrainAll(ths); }
  }

  /** A run in which thread `k` goes first in every phase. */
  lemma RunWithFirst(cfg: Config, calls: seq<Call>, order: seq<string>, k: nat) returns (tr: Trace)
    ensures IsDispatch(cfg, calls, order, tr)
    ensures forall q :: 0 <= q < 4 ==> tr.Part(q) == FirstOf(Scripts(Phase(cfg, calls, order, q)), k)
  {
    hide Phase, FirstOf;
    tr := Trace(FirstOf(Scripts(Phase(cfg, calls, order, 0)), k), FirstOf(Scripts(Phase(cfg, calls, order, 1)), k),
                FirstOf(Scripts(Phase(cfg, calls, order, 2)), k), FirstOf(Scripts(Phase(cfg, calls, order, 3)), k));
    forall q: nat | q < 4 ensures PhaseTrace(cfg, calls, order, q, tr.Part(q)) {
      FirstOfInterleaves(Scripts(Phase(cfg, calls, order, q)), k);
    }
  }

  // ---------- events that happen once ----------

  lemma OnceAt<T>(tr: seq<T>, x: T, a: nat, b: nat)
    requires Times(tr, x) == 1 && a < b < |tr| && tr[a] == x
    ensures tr[b] != x
  {
    assert tr == tr[..b] + tr[b..] && x in tr[..b];
    assert multiset(tr) == multiset(tr[..b]) + multiset(tr[b..]);
    assert tr[b..][0] == tr[b] && tr[b] in tr[b..];
  }

  lemma NotBothWays<T>(tr: seq<T>, x: T, y: T)
    requires Times(tr, x) == 1 && Times(tr, y) == 1 && Precedes(tr, x, y)
    ensures !Precedes(tr, y, x)
  {
    hide Times;
    if Precedes(tr, y, x) {
      var i, j :| 0 <= i < j < |tr| && tr[i] == x && tr[j] == y;
      var k, l :| 0 <= k < l < |tr| && tr[k] == y && tr[l] == x;
      if i < l { OnceAt(tr, x, i, l); } else if l < i { OnceAt(tr, x, l, i); } else { OnceAt(tr, y, k, j); }
    }
  }

  lemma Chain<T>(tr: seq<T>, x: T, y: T, z: T)
    requires Times(tr, y) == 1 && Precedes(tr, x, y) && Precedes(tr, y, z)
    ensures Precedes(tr, x, z)
  {
    hide Times;
    var i, j :| 0 <= i < j < |tr| && tr[i] == x && tr[j] == y;
    var k, l :| 0 <= k < l < |tr| && tr[k] == y && tr[l] == z;
    if k < j { OnceAt(tr, y, k, j); }
  }

  // ---------- the run ----------

  /** Two calls of one phase in different threads: a run starts `j` before `i` ends. */
  lemma OtherThreadFirst(cfg: Config, calls: seq<Call>, order: seq<string>, i: nat, j: nat, k: nat, a: nat, l: nat, b: nat)
    returns (tr: Trace)
    requires HashOrder(cfg, calls, order) && i < |calls| && j < |calls| && Rank(cfg, calls, i) == Rank(cfg, calls, j)
    requires var ph := Phase(cfg, calls, order, Rank(cfg, calls, i));
             k < |ph| && l < |ph| && k != l && a < |ph[k]| && b < |ph[l]| && ph[k][a] == i && ph[l][b] == j
    ensures IsDispatch(cfg, calls, order, tr) && Precedes(tr.All(), Start(j), End(i))
  {
    var q := Rank(cfg, calls, i);
    var ths := Phase(cfg, calls, order, q);
    var scripts := Scripts(ths);
    assert q < 4;
    tr := RunWithFirst(cfg, calls, order, l);
    hide Phase, Rank, IsDispatch, HashOrder;
    ScriptsAt(ths, k);
    ScriptsAt(ths, l);
    ScriptAt(ths[k], a);
    ScriptAt(ths[l], b);
    InFlatten(scripts[l := []], k, 2 * a + 1);
    assert Start(j) in scripts[l];
    PrecedesAcross(scripts[l], Flatten(scripts[l := []]), Start(j), End(i));
    PartsInOrder(tr, q, q, Start(j), End(i));
  }

  /** Unless `i` is to end before `j` starts, some run starts `j` before `i` ends. */
  lemma SomeRunOverlaps(cfg: Config, calls: seq<Call>, i: nat, j: nat) returns (order: seq<string>, tr: Trace)
    requires i < |calls| && j < |calls| && !Before(cfg, calls, i, j)
    ensures HashOrder(cfg, calls, order) && IsDispatch(cfg, calls, order, tr)
    ensures Precedes(tr.All(), Start(j), End(i))
  {
    order := SomeHashOrder(cfg, calls);
    BeforeIff(cfg, calls, i, j);
    BeforeIff(cfg, calls, j, i);
    if i == j {
      tr := RunWithFirst(cfg, calls, order, 0);
      EventsOf(cfg, calls, order, tr, i);
      var q := Rank(cfg, calls, i);
      PartsInOrder(tr, q, q, Start(i), End(i));
    } else if Before(cfg, calls, j, i) {
      tr := RunWithFirst(cfg, calls, order, 0);
      LaterOverlaps(cfg, calls, order, tr, i, j);
    } else {
      var k, a := Place(cfg, calls, order, i);
      var l, b := Place(cfg, calls, order, j);
      DifferentThreads(cfg, calls, order, i, j, k, a, l, b);
      tr := OtherThreadFirst(cfg, calls, order, i, j, k, a, l, b);
    }
  }

  lemma LaterOverlaps(cfg: Config, calls: seq<Call>, order: seq<string>, tr: Trace, i: nat, j: nat)
    requires HashOrder(cfg, calls, order) && IsDispatch(cfg, calls, order, tr)
    requires i < |calls| && j < |calls| && Before(cfg, calls, j, i)
    ensures Precedes(tr.All(), Start(j), End(i))
  {
    DispatchKeepsOrder(cfg, calls, order, tr, j, i);
    EventsOf(cfg, calls, order, tr, i);
    EventsOf(cfg, calls, order, tr, j);
    var q, r := Rank(cfg, calls, i), Rank(cfg, calls, j);
    hide IsDispatch, HashOrder, Rank, Before, Times;
    PartsInOrder(tr, q, q, Start(i), End(i));
    PartsInOrder(tr, r, r, Start(j), End(j));
    EachOnce(cfg, calls, order, tr, i);
    EachOnce(cfg, calls, order, tr, j);
    Chain(tr.All(), Start(j), End(j), Start(i));
    Chain(tr.All(), Start(j), Start(i), End(i));
  }

  /** Calls of one phase that need not wait for each other are in different threads. */
  lemma DifferentThreads(cfg: Config, calls: seq<Call>, order: seq<string>, i: nat, j: nat, k: nat, a: nat, l: nat, b: nat)
    requires HashOrder(cfg, calls, order) && i < |calls| && j < |calls| && i != j
    requires Rank(cfg, calls, i) == Rank(cfg, calls, j)
    requires !Before(cfg, calls, i, j) && !Before(cfg, calls, j, i)
    requires var ph := Phase(cfg, calls, order, Rank(cfg, calls, i));
             k < |ph| && l < |ph| && a < |ph[k]| && b < |ph[l]| && ph[k][a] == i && ph[l][b] == j
    ensures k != l
  {
    var q := Rank(cfg, calls, i);
    BeforeIff(cfg, calls, i, j);
    BeforeIff(cfg, calls, j, i);
    assert q < 3;
    hide Before, Rank, HashOrder;
    if q == 0 {
      SingletonsAt(ReadsFirst(cfg, calls), k);
    } else if q == 1 {
      SingletonsAt(OtherReads(cfg, calls), k);
    } else {
      FilterGroupIs(cfg, calls, MutexByFile);
      var list := FilterGroup(cfg, calls, MutexByFile);
      GroupsAt(calls, list, order, k);
      GroupsAt(calls, list, order, l);
      OnFileIs(calls, list, order[k]);
      OnFileIs(calls, list, order[l]);
      assert i in OnFile(calls, list, order[k]) && j in OnFile(calls, list, order[l]);
    }
  }

  /** All runs keep two calls apart in this order. */
  ghost predicate AlwaysBefore(cfg: Config, calls: seq<Call>, i: nat, j: nat) {
    forall order, tr :: HashOrder(cfg, calls, order) && IsDispatch(cfg, calls, order, tr) ==> Precedes(tr.All(), End(i), Start(j))
  }

  /** Over all hash orders and interleavings: `i` always ends before `j` starts if and only if that is promised. */
  lemma OrderIsExact(cfg: Config, calls: seq<Call>, i: nat, j: nat)
    requires i < |calls| && j < |calls|
    ensures AlwaysBefore(cfg, calls, i, j) <==> Before(cfg, calls, i, j)
  {
    hide HashOrder, IsDispatch, Before, Times;
    if Before(cfg, calls, i, j) {
      forall order, tr | HashOrder(cfg, calls, order) && IsDispatch(cfg, calls, order, tr)
        ensures Precedes(tr.All(), End(i), Start(j))
      {
        DispatchKeepsOrder(cfg, calls, order, tr, i, j);
      }
    } else {
      var order, tr := SomeRunOverlaps(cfg, calls, i, j);
      EachOnce(cfg, calls, order, tr, i);
      EachOnce(cfg, calls, order, tr, j);
      NotBothWays(tr.All(), Start(j), End(i));
    }
  }
}
