/**
  What every interleaving of `dispatch_all` guarantees about when calls start and end.
  A trace lists the moments at which the executor starts and ends each call.
 */
module DispatchOrder {
  import opened Wrappers
  import opened Interleavings
  import opened DispatchPlan

  datatype Event = Start(call: nat) | End(call: nat)

  /** A thread that runs `cs` one after the other. */
  function Script(cs: seq<nat>): seq<Event> {
    if cs == [] then [] else Script(cs[..|cs| - 1]) + [Start(cs[|cs| - 1]), End(cs[|cs| - 1])]
  }

  function Scripts(ths: seq<seq<nat>>): seq<seq<Event>> {
    if ths == [] then [] else [Script(ths[0])] + Scripts(ths[1..])
  }

  /** One phase: all its threads run concurrently, and all have ended when it ends. */
  ghost predicate PhaseTrace(cfg: Config, calls: seq<Call>, order: seq<string>, q: nat, tr: seq<Event>) {
    Interleaves(tr, Scripts(Phase(cfg, calls, order, q)))
  }

  /** The four phases, one after the other. */
  datatype Trace = Trace(p0: seq<Event>, p1: seq<Event>, p2: seq<Event>, p3: seq<Event>) {
    function Part(q: nat): seq<Event> {
      if q == 0 then p0 else if q == 1 then p1 else if q == 2 then p2 else p3
    }

    function All(): seq<Event> { p0 + p1 + p2 + p3 }
  }

  ghost predicate IsDispatch(cfg: Config, calls: seq<Call>, order: seq<string>, tr: Trace) {
    forall q :: 0 <= q < 4 ==> PhaseTrace(cfg, calls, order, q, tr.Part(q))
  }

  // ---------- scripts ----------

  lemma {:induction false} ScriptAt(cs: seq<nat>, a: nat)
    ensures |Script(cs)| == 2 * |cs|
    ensures a < |cs| ==> Script(cs)[2 * a] == Start(cs[a]) && Script(cs)[2 * a + 1] == End(cs[a])
  {
    if cs != [] { ScriptAt(cs[..|cs| - 1], a); }
  }

  lemma {:induction false} ScriptsAt(ths: seq<seq<nat>>, k: nat)
    ensures |Scripts(ths)| == |ths|
    ensures k < |ths| ==> Scripts(ths)[k] == Script(ths[k])
  {
    if ths != [] { ScriptsAt(ths[1..], if k == 0 then 0 else k - 1); }
  }

  lemma {:induction false} ScriptTimes(cs: seq<nat>, i: nat)
    ensures Times(Script(cs), Start(i)) == Times(cs, i) && Times(Script(cs), End(i)) == Times(cs, i)
  {
    hide Times;
    TimesNone(i);
    TimesNone(Start(i));
    TimesNone(End(i));
    if cs != [] {
      var init, last := cs[..|cs| - 1], cs[|cs| - 1];
      ScriptTimes(init, i);
      OneCallTimes(last, i);
      assert cs == init + [last];
      assert Script(cs) == Script(init) + [Start(last), End(last)];
      hide Script;
      TimesConcat(init, [last], i);
      TimesConcat(Script(init), [Start(last), End(last)], Start(i));
      TimesConcat(Script(init), [Start(last), End(last)], End(i));
    }
  }

  lemma OneCallTimes(c: nat, i: nat)
    ensures var n := if c == i then 1 else 0;
            Times([c], i) == Times([Start(c), End(c)], Start(i)) == Times([Start(c), End(c)], End(i)) == n
  {
  }

  lemma {:induction false} ScriptsTimes(ths: seq<seq<nat>>, i: nat)
    ensures Times(Flatten(Scripts(ths)), Start(i)) == Times(Flatten(ths), i)
    ensures Times(Flatten(Scripts(ths)), End(i)) == Times(Flatten(ths), i)
  {
    hide Times, Script;
    TimesNone(i);
    TimesNone(Start(i));
    TimesNone(End(i));
    if ths != [] {
      ScriptsTimes(ths[1..], i);
      ScriptTimes(ths[0], i);
      assert Scripts(ths)[1..] == Scripts(ths[1..]);
      TimesConcat(ths[0], Flatten(ths[1..]), i);
      TimesConcat(Script(ths[0]), Flatten(Scripts(ths[1..])), Start(i));
      TimesConcat(Script(ths[0]), Flatten(Scripts(ths[1..])), End(i));
    }
  }

  // ---------- exactly once ----------

  lemma PhaseTimes(cfg: Config, calls: seq<Call>, order: seq<string>, q: nat, tr: seq<Event>, i: nat)
    requires PhaseTrace(cfg, calls, order, q, tr)
    ensures Times(tr, Start(i)) == Times(Flatten(Phase(cfg, calls, order, q)), i)
    ensures Times(tr, End(i)) == Times(Flatten(Phase(cfg, calls, order, q)), i)
  {
    hide Phase, Flatten, Scripts;
    InterleavingContents(tr, Scripts(Phase(cfg, calls, order, q)));
    ScriptsTimes(Phase(cfg, calls, order, q), i);
  }

  /** Every call starts once and ends once; nothing else does. */
  lemma EachOnce(cfg: Config, calls: seq<Call>, order: seq<string>, tr: Trace, i: nat)
    requires HashOrder(cfg, calls, order) && IsDispatch(cfg, calls, order, tr)
    ensures Times(tr.All(), Start(i)) == if i < |calls| then 1 else 0
    ensures Times(tr.All(), End(i)) == if i < |calls| then 1 else 0
  {
    hide Phase, PhaseTrace, HashOrder, Flatten, Times;
    ListedOnce(cfg, calls, order, i);
    assert tr.Part(0) == tr.p0 && tr.Part(1) == tr.p1 && tr.Part(2) == tr.p2 && tr.Part(3) == tr.p3;
    forall q | 0 <= q < 4
      ensures Times(tr.Part(q), Start(i)) == Times(tr.Part(q), End(i)) == Times(Flatten(Phase(cfg, calls, order, q)), i)
    {
      PhaseTimes(cfg, calls, order, q, tr.Part(q), i);
    }
    TimesConcat4(tr.p0, tr.p1, tr.p2, tr.p3, Start(i));
    TimesConcat4(tr.p0, tr.p1, tr.p2, tr.p3, End(i));
    TimesConcat4(Flatten(Phase(cfg, calls, order, 0)), Flatten(Phase(cfg, calls, order, 1)),
                 Flatten(Phase(cfg, calls, order, 2)), Flatten(Phase(cfg, calls, order, 3)), i);
  }

  lemma TimesConcat4<T>(a: seq<T>, b: seq<T>, c: seq<T>, d: seq<T>, x: T)
    ensures Times(a + b + c + d, x) == Times(a, x) + Times(b, x) + Times(c, x) + Times(d, x)
  {
    TimesConcat(a + b + c, d, x);
    TimesConcat(a + b, c, x);
    TimesConcat(a, b, x);
  }

  // ---------- order ----------

  lemma PartsInOrder(tr: Trace, q: nat, r: nat, x: Event, y: Event)
    requires q < 4 && r < 4
    requires (q < r && x in tr.Part(q) && y in tr.Part(r)) || (q == r && Precedes(tr.Part(q), x, y))
    ensures Precedes(tr.All(), x, y)
  {
    var parts := [tr.p0, tr.p1, tr.p2, tr.p3];
    FlattenFour(tr.p0, tr.p1, tr.p2, tr.p3);
    assert parts[q] == tr.Part(q) && parts[r] == tr.Part(r);
    if q == r { PrecedesInFlatten(parts, q, x, y); } else { PrecedesAcrossFlatten(parts, q, r, x, y); }
  }

  /** Where the events of a call are. */
  lemma EventsOf(cfg: Config, calls: seq<Call>, order: seq<string>, tr: Trace, i: nat)
    requires HashOrder(cfg, calls, order) && IsDispatch(cfg, calls, order, tr) && i < |calls|
    ensures var p := tr.Part(Rank(cfg, calls, i));
            Start(i) in p && End(i) in p && Precedes(p, Start(i), End(i))
  {
    var q := Rank(cfg, calls, i);
    var k, a := Place(cfg, calls, order, i);
    var ths := Phase(cfg, calls, order, q);
    assert q < 4;
    hide Phase, Rank, HashOrder;
    ScriptsAt(ths, k);
    ScriptAt(ths[k], a);
    assert PhaseTrace(cfg, calls, order, q, tr.Part(q));
    Occurs(tr.Part(q), Scripts(ths), k, 2 * a);
    Occurs(tr.Part(q), Scripts(ths), k, 2 * a + 1);
    InterleavingKeepsOrder(tr.Part(q), Scripts(ths), k, 2 * a, 2 * a + 1);
  }

  /** Two calls of one thread do not overlap. */
  lemma SameThread(cfg: Config, calls: seq<Call>, order: seq<string>, tr: Trace, q: nat, k: nat, a: nat, b: nat)
    requires IsDispatch(cfg, calls, order, tr) && q < 4
    requires k < |Phase(cfg, calls, order, q)| && a < b < |Phase(cfg, calls, order, q)[k]|
    ensures var th := Phase(cfg, calls, order, q)[k];
            Precedes(tr.Part(q), End(th[a]), Start(th[b]))
  {
    hide Phase;
    var ths := Phase(cfg, calls, order, q);
    ScriptsAt(ths, k);
    ScriptAt(ths[k], a);
    ScriptAt(ths[k], b);
    assert PhaseTrace(cfg, calls, order, q, tr.Part(q));
    InterleavingKeepsOrder(tr.Part(q), Scripts(ths), k, 2 * a + 1, 2 * b);
  }

  /** In every interleaving and for every HashMap order, calls end before those start that are to wait for them. */
  lemma DispatchKeepsOrder(cfg: Config, calls: seq<Call>, order: seq<string>, tr: Trace, i: nat, j: nat)
    requires HashOrder(cfg, calls, order) && IsDispatch(cfg, calls, order, tr)
    requires i < |calls| && j < |calls| && Before(cfg, calls, i, j)
    ensures Precedes(tr.All(), End(i), Start(j))
  {
    var q, r := Rank(cfg, calls, i), Rank(cfg, calls, j);
    BeforeIff(cfg, calls, i, j);
    EventsOf(cfg, calls, order, tr, i);
    EventsOf(cfg, calls, order, tr, j);
    if q == r {
      var k, a := Place(cfg, calls, order, i);
      var l, b := Place(cfg, calls, order, j);
      assert k == l;
      ThreadAscends(cfg, calls, order, q, k);
      hide IsDispatch, Phase;
      AscendingIndex(Phase(cfg, calls, order, q)[k], a, b);
      SameThread(cfg, calls, order, tr, q, k, a, b);
    }
    PartsInOrder(tr, q, r, End(i), Start(j));
  }

  lemma {:induction false} SerialIsEverything(cfg: Config, calls: seq<Call>, g: Group, n: nat)
    requires ShouldFallbackToSerial(cfg) && n <= |calls|
    ensures FilterUpTo(cfg, calls, g, n) == if g.Serial? then seq(n, i => i) else []
  {
    if n > 0 { SerialIsEverything(cfg, calls, g, n - 1); }
  }

  lemma FallbackPhases(cfg: Config, calls: seq<Call>, order: seq<string>)
    requires HashOrder(cfg, calls, order) && ShouldFallbackToSerial(cfg)
    ensures forall q :: 0 <= q < 3 ==> Phase(cfg, calls, order, q) == []
    ensures Phase(cfg, calls, order, 3) == [seq(|calls|, i => i)]
  {
    assert order != [] ==> order[0] in order;
    SerialIsEverything(cfg, calls, Parallel, |calls|);
    SerialIsEverything(cfg, calls, MutexByFile, |calls|);
    SerialIsEverything(cfg, calls, Serial, |calls|);
    assert order == [] by {
      assert MutexFiles(cfg, calls) == {};
      assert forall p :: p !in order;
    }
    hide HashOrder, FilterUpTo, MutexFiles;
    assert Phase(cfg, calls, order, 0) == [];
    assert Phase(cfg, calls, order, 1) == [];
    assert Phase(cfg, calls, order, 2) == [];
    assert Phase(cfg, calls, order, 3) == [FilterGroup(cfg, calls, Serial)];
  }

  /** In fallback mode the batch runs strictly one call after the other, in input order. */
  lemma FallbackIsSequential(cfg: Config, calls: seq<Call>, order: seq<string>, tr: Trace)
    requires HashOrder(cfg, calls, order) && IsDispatch(cfg, calls, order, tr)
    requires !cfg.isParallelEnabled || !cfg.providerSupportsParallel
    ensures tr.All() == Script(seq(|calls|, i => i))
  {
    FallbackPhases(cfg, calls, order);
    hide Phase, HashOrder;
    forall q | 0 <= q < 3 ensures tr.Part(q) == [] {
      assert PhaseTrace(cfg, calls, order, q, tr.Part(q));
      NoThreads(tr.Part(q));
    }
    assert PhaseTrace(cfg, calls, order, 3, tr.Part(3));
    var all: seq<nat> := seq(|calls|, i => i);
    assert Scripts([all]) == [Script(all)];
    SingleThread(tr.Part(3), Script(all));
    assert tr.Part(0) == tr.p0 && tr.Part(1) == tr.p1 && tr.Part(2) == tr.p2 && tr.Part(3) == tr.p3;
  }

  lemma NoThreads(tr: seq<Event>)
    requires Interleaves(tr, [])
    ensures tr == []
  {
  }
}
