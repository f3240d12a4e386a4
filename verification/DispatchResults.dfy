/**
  `dispatch_all` as it runs: it builds the phases, has an executor execute the calls, collects
  `(id, result)` pairs and puts them back in input order. The executor logs the calls it is
  given; when the answers come, and how they depend on each other, is left open.
 */
module DispatchResults {
  import opened Wrappers
  import opened Interleavings
  import opened DispatchPlan

  ghost predicate DistinctIds(calls: seq<Call>) {
    forall i, j :: 0 <= i < j < |calls| ==> calls[i].id != calls[j].id
  }

  /** `ids` maps an id to the last call that has it. */
  ghost predicate IndexesIds(calls: seq<Call>, ids: map<string, nat>) {
    && (forall i :: 0 <= i < |calls| ==> calls[i].id in ids)
    && (forall id :: id in ids ==> ids[id] < |calls| && calls[ids[id]].id == id)
    && (forall i :: 0 <= i < |calls| ==> i <= ids[calls[i].id])
  }

  ghost predicate IsFileOf(calls: seq<Call>, mutex: seq<nat>, p: string)
    requires Within(mutex, |calls|)
  {
    exists k :: 0 <= k < |mutex| && calls[mutex[k]].filePath == Some(p)
  }

  lemma IsFileOfSnoc(calls: seq<Call>, mutex: seq<nat>, i: nat)
    requires Within(mutex, |calls|) && i < |calls|
    ensures forall p :: IsFileOf(calls, mutex + [i], p) <==> IsFileOf(calls, mutex, p) || calls[i].filePath == Some(p)
  {
    var all := mutex + [i];
    forall p ensures IsFileOf(calls, all, p) <==> IsFileOf(calls, mutex, p) || calls[i].filePath == Some(p) {
      if k :| 0 <= k < |mutex| && calls[mutex[k]].filePath == Some(p) {
        assert calls[all[k]].filePath == Some(p);
      }
      if calls[i].filePath == Some(p) { assert calls[all[|mutex|]].filePath == Some(p); }
    }
  }

  function Pairs<R>(calls: seq<Call>, cs: seq<nat>, outcome: nat -> R): seq<(string, R)>
    requires Within(cs, |calls|)
  {
    seq(|cs|, k requires 0 <= k < |cs| => (calls[cs[k]].id, outcome(cs[k])))
  }

  // ---------- the parts ----------

  method IndexIds(calls: seq<Call>) returns (ids: map<string, nat>)
    ensures IndexesIds(calls, ids)
  {
    ids := map[];
    for i := 0 to |calls|
      invariant IndexesIds(calls[..i], ids)
    {
      ids := ids[calls[i].id := i];
    }
    assert calls[..|calls|] == calls;
  }

  /** `byFile` has the calls of `mutex` under their paths. */
  ghost predicate Grouped(calls: seq<Call>, mutex: seq<nat>, byFile: map<string, seq<nat>>)
    requires Within(mutex, |calls|)
  {
    && (forall p :: p in byFile <==> IsFileOf(calls, mutex, p))
    && (forall p :: p in byFile ==> byFile[p] == OnFile(calls, mutex, p))
  }

  lemma {:induction false} NotOnFile(calls: seq<Call>, mutex: seq<nat>, p: string)
    requires Within(mutex, |calls|) && !IsFileOf(calls, mutex, p)
    ensures OnFile(calls, mutex, p) == []
  {
    if mutex != [] {
      var init, last := mutex[..|mutex| - 1], mutex[|mutex| - 1];
      assert mutex == init + [last];
      IsFileOfSnoc(calls, init, last);
      NotOnFile(calls, init, p);
    }
  }

  lemma OnFileSnoc(calls: seq<Call>, mutex: seq<nat>, i: nat, p: string)
    requires Within(mutex, |calls|) && i < |calls|
    ensures Within(mutex + [i], |calls|)
    ensures OnFile(calls, mutex + [i], p) == OnFile(calls, mutex, p) + if calls[i].filePath == Some(p) then [i] else []
  {
    assert (mutex + [i])[..|mutex + [i]| - 1] == mutex;
  }

  lemma GroupedSnoc(calls: seq<Call>, mutex: seq<nat>, i: nat, byFile: map<string, seq<nat>>)
    requires Within(mutex, |calls|) && i < |calls| && calls[i].filePath.Some? && Grouped(calls, mutex, byFile)
    ensures Within(mutex + [i], |calls|)
    ensures var p := calls[i].filePath.value;
            Grouped(calls, mutex + [i], byFile[p := (if p in byFile then byFile[p] else []) + [i]])
  {
    var p := calls[i].filePath.value;
    IsFileOfSnoc(calls, mutex, i);
    hide IsFileOf, OnFile;
    if p !in byFile { NotOnFile(calls, mutex, p); }
    forall q | q in byFile || q == p
      ensures OnFile(calls, mutex + [i], q) == OnFile(calls, mutex, q) + if q == p then [i] else []
    {
      OnFileSnoc(calls, mutex, i, q);
    }
  }

  /** The loop at the head of `execute_mutex_by_file`; its `unwrap` relies on the classification. */
  method GroupByFile(calls: seq<Call>, mutex: seq<nat>) returns (byFile: map<string, seq<nat>>)
    requires Within(mutex, |calls|)
    requires forall k :: 0 <= k < |mutex| ==> calls[mutex[k]].filePath.Some?
    ensures forall p :: p in byFile <==> IsFileOf(calls, mutex, p)
    ensures forall p :: p in byFile ==> byFile[p] == OnFile(calls, mutex, p)
  {
    byFile := map[];
    for k := 0 to |mutex|
      invariant Grouped(calls, mutex[..k], byFile)
    {
      hide Grouped, OnFile;
      var p := calls[mutex[k]].filePath.value;
      assert mutex[..k + 1] == mutex[..k] + [mutex[k]];
      GroupedSnoc(calls, mutex[..k], mutex[k], byFile);
      byFile := byFile[p := (if p in byFile then byFile[p] else []) + [mutex[k]]];
    }
    assert mutex[..|mutex|] == mutex;
  }

  /** A `ToolExecutor` that answers call `i` with `outcome(i)` and logs what it has been given. */
  class Executor<R> {
    const outcome: nat -> R
    var log: seq<nat>

    constructor (outcome: nat -> R)
      ensures this.outcome == outcome && log == []
    {
      this.outcome := outcome;
      log := [];
    }

    method Execute(i: nat) returns (r: R)
      modifies this
      ensures r == outcome(i) && log == old(log) + [i]
    {
      log := log + [i];
      r := outcome(i);
    }
  }

  /** `execute_parallel`: all calls are started, and their results paired with their ids. */
  method ExecuteParallel<R>(calls: seq<Call>, cs: seq<nat>, executor: Executor<R>) returns (pairs: seq<(string, R)>)
    requires Within(cs, |calls|)
    modifies executor
    ensures executor.log == old(executor.log) + cs && pairs == Pairs(calls, cs, executor.outcome)
  {
    var results: seq<R> := [];
    for k := 0 to |cs|
      invariant executor.log == old(executor.log) + cs[..k]
      invariant |results| == k && forall m :: 0 <= m < k ==> results[m] == executor.outcome(cs[m])
    {
      var res := executor.Execute(cs[k]);
      results := results + [res];
    }
    pairs := seq(|cs|, k requires 0 <= k < |cs| => (calls[cs[k]].id, results[k]));
  }

  /** `execute_serial`: one call after the other. */
  method ExecuteSerial<R>(calls: seq<Call>, cs: seq<nat>, executor: Executor<R>) returns (pairs: seq<(string, R)>)
    requires Within(cs, |calls|)
    modifies executor
    ensures executor.log == old(executor.log) + cs && pairs == Pairs(calls, cs, executor.outcome)
  {
    pairs := [];
    for k := 0 to |cs|
      invariant executor.log == old(executor.log) + cs[..k]
      invariant pairs == Pairs(calls, cs[..k], executor.outcome)
    {
      var res := executor.Execute(cs[k]);
      pairs := pairs + [(calls[cs[k]].id, res)];
    }
    assert cs[..|cs|] == cs;
  }

  /** One thread per file; `order` is the order in which the map happened to be walked. */
  method ExecuteMutexByFile<R>(calls: seq<Call>, mutex: seq<nat>, executor: Executor<R>)
    returns (pairs: seq<(string, R)>, order: seq<string>)
    requires Within(mutex, |calls|)
    requires forall k :: 0 <= k < |mutex| ==> calls[mutex[k]].filePath.Some?
    modifies executor
    ensures forall k, m :: 0 <= k < m < |order| ==> order[k] != order[m]
    ensures forall p :: p in order <==> IsFileOf(calls, mutex, p)
    ensures Within(Flatten(Groups(calls, mutex, order)), |calls|)
    ensures executor.log == old(executor.log) + Flatten(Groups(calls, mutex, order))
    ensures pairs == Pairs(calls, Flatten(Groups(calls, mutex, order)), executor.outcome)
  {
    var byFile := GroupByFile(calls, mutex);
    order := WalkKeys(byFile.Keys);
    pairs := ExecuteFiles(calls, mutex, byFile, order, executor);
  }

  /** The keys of a hash map, in some order. */
  method WalkKeys(keys: set<string>) returns (order: seq<string>)
    ensures forall k, m :: 0 <= k < m < |order| ==> order[k] != order[m]
    ensures forall p :: p in order <==> p in keys
  {
    order := [];
    var left := keys;
    while exists p :: p in left
      invariant left <= keys
      invariant forall k, m :: 0 <= k < m < |order| ==> order[k] != order[m]
      invariant forall p :: p in order <==> p in keys && p !in left
      decreases |left|
    {
      var p :| p in left;
      order := order + [p];
      left := left - {p};
    }
  }

  method ExecuteFiles<R>(calls: seq<Call>, mutex: seq<nat>, byFile: map<string, seq<nat>>, order: seq<string>,
                         executor: Executor<R>)
    returns (pairs: seq<(string, R)>)
    requires Within(mutex, |calls|)
    requires forall k :: 0 <= k < |order| ==> order[k] in byFile && byFile[order[k]] == OnFile(calls, mutex, order[k])
    modifies executor
    ensures Within(Flatten(Groups(calls, mutex, order)), |calls|)
    ensures executor.log == old(executor.log) + Flatten(Groups(calls, mutex, order))
    ensures pairs == Pairs(calls, Flatten(Groups(calls, mutex, order)), executor.outcome)
  {
    hide OnFile, Pairs;
    pairs := [];
    PairsConcat(calls, [], [], executor.outcome);
    for k := 0 to |order|
      invariant Within(Flatten(Groups(calls, mutex, order[..k])), |calls|)
      invariant executor.log == old(executor.log) + Flatten(Groups(calls, mutex, order[..k]))
      invariant pairs == Pairs(calls, Flatten(Groups(calls, mutex, order[..k])), executor.outcome)
    {
      SelectionWithin(calls, mutex, order[k]);
      var some := ExecuteSerial(calls, byFile[order[k]], executor);
      GroupsSnoc(calls, mutex, order[..k], order[k]);
      PairsConcat(calls, Flatten(Groups(calls, mutex, order[..k])), byFile[order[k]], executor.outcome);
      assert order[..k + 1] == order[..k] + [order[k]];
      pairs := pairs + some;
    }
    assert order[..|order|] == order;
  }

  lemma PairsConcat<R>(calls: seq<Call>, a: seq<nat>, b: seq<nat>, outcome: nat -> R)
    requires Within(a, |calls|) && Within(b, |calls|)
    ensures Within(a + b, |calls|) && Pairs(calls, a + b, outcome) == Pairs(calls, a, outcome) + Pairs(calls, b, outcome)
    ensures Pairs(calls, [], outcome) == []
  {
  }

  lemma {:induction false} SelectionWithin(calls: seq<Call>, mutex: seq<nat>, p: string)
    requires Within(mutex, |calls|)
    ensures Within(OnFile(calls, mutex, p), |calls|)
  {
    if mutex != [] { SelectionWithin(calls, mutex[..|mutex| - 1], p); }
  }

  lemma {:induction false} GroupsSnoc(calls: seq<Call>, mutex: seq<nat>, order: seq<string>, p: string)
    requires Within(mutex, |calls|)
    ensures Flatten(Groups(calls, mutex, order + [p])) == Flatten(Groups(calls, mutex, order)) + OnFile(calls, mutex, p)
  {
    if order == [] {
      assert [p][1..] == [];
      assert Groups(calls, mutex, [p]) == [OnFile(calls, mutex, p)];
      assert Flatten([OnFile(calls, mutex, p)]) == OnFile(calls, mutex, p) + Flatten([OnFile(calls, mutex, p)][1..]);
    } else {
      assert (order + [p])[1..] == order[1..] + [p];
      GroupsSnoc(calls, mutex, order[1..], p);
    }
  }

  /** `fill_results`: store each result at the index of its id. */
  method FillResults<R>(calls: seq<Call>, results: array<Option<R>>, ids: map<string, nat>, pairs: seq<(string, R)>)
    requires results.Length == |calls| && IndexesIds(calls, ids)
    requires forall k :: 0 <= k < |pairs| ==> pairs[k].0 in ids
    modifies results
    ensures results[..] == Filled(old(results[..]), ids, pairs)
  {
    for k := 0 to |pairs|
      invariant results[..] == Filled(old(results[..]), ids, pairs[..k])
    {
      assert pairs[..k + 1][..k] == pairs[..k];
      assert pairs[k].0 in ids;
      results[ids[pairs[k].0]] := Some(pairs[k].1);
    }
    assert pairs[..|pairs|] == pairs;
  }

  ghost function Filled<R>(results: seq<Option<R>>, ids: map<string, nat>, pairs: seq<(string, R)>): (r: seq<Option<R>>)
    ensures |r| == |results|
  {
    if pairs == [] then results
    else
      var before := Filled(results, ids, pairs[..|pairs| - 1]);
      var id := pairs[|pairs| - 1].0;
      if id in ids && ids[id] < |before| then before[ids[id] := Some(pairs[|pairs| - 1].1)] else before
  }

  lemma {:induction false} FilledConcat<R>(results: seq<Option<R>>, ids: map<string, nat>, a: seq<(string, R)>, b: seq<(string, R)>)
    ensures Filled(results, ids, a + b) == Filled(Filled(results, ids, a), ids, b)
  {
    if b == [] {
      assert a + b == a;
    } else {
      assert (a + b)[..|a + b| - 1] == a + b[..|b| - 1];
      FilledConcat(results, ids, a, b[..|b| - 1]);
    }
  }

  /** With distinct ids, every listed call finds its own slot. */
  lemma {:induction false} FilledDistinct<R>(
    calls: seq<Call>, ids: map<string, nat>, results: seq<Option<R>>, cs: seq<nat>, outcome: nat -> R, j: nat)
    requires IndexesIds(calls, ids) && DistinctIds(calls) && |results| == |calls| && Within(cs, |calls|) && j < |calls|
    ensures Filled(results, ids, Pairs(calls, cs, outcome))[j] == if j in cs then Some(outcome(j)) else results[j]
  {
    if cs != [] {
      var init, last := cs[..|cs| - 1], cs[|cs| - 1];
      FilledDistinct(calls, ids, results, init, outcome, j);
      assert Pairs(calls, cs, outcome)[..|cs| - 1] == Pairs(calls, init, outcome);
      assert cs == init + [last];
      assert ids[calls[last].id] == last;
    }
  }

  /** The slot of a call whose id is used again later is never written. */
  lemma {:induction false} FilledShadowed<R>(
    calls: seq<Call>, ids: map<string, nat>, results: seq<Option<R>>, cs: seq<nat>, outcome: nat -> R, i: nat, j: nat)
    requires IndexesIds(calls, ids) && |results| == |calls| && Within(cs, |calls|)
    requires i < j < |calls| && calls[i].id == calls[j].id
    ensures Filled(results, ids, Pairs(calls, cs, outcome))[i] == results[i]
  {
    if cs != [] {
      FilledShadowed(calls, ids, results, cs[..|cs| - 1], outcome, i, j);
      assert Pairs(calls, cs, outcome)[..|cs| - 1] == Pairs(calls, cs[..|cs| - 1], outcome);
      assert ids[calls[i].id] >= j;
    }
  }

  /** Unwrapping the slots: a result for every call, or the panic of `expect`. */
  method Unwrap<R(0)>(results: array<Option<R>>) returns (r: Option<seq<R>>)
    ensures r.Some? <==> forall i :: 0 <= i < results.Length ==> results[i].Some?
    ensures r.Some? ==> |r.value| == results.Length && forall i :: 0 <= i < results.Length ==> results[i] == Some(r.value[i])
  {
    var out: seq<R> := [];
    for i := 0 to results.Length
      invariant |out| == i && forall k :: 0 <= k < i ==> results[k] == Some(out[k])
    {
      if results[i].None? { return None; }
      out := out + [results[i].value];
    }
    r := Some(out);
  }

  lemma PlanWithin(cfg: Config, calls: seq<Call>)
    ensures Within(ReadsFirst(cfg, calls), |calls|) && Within(OtherReads(cfg, calls), |calls|)
    ensures Within(FilterGroup(cfg, calls, MutexByFile), |calls|) && Within(FilterGroup(cfg, calls, Serial), |calls|)
    ensures forall k :: 0 <= k < |FilterGroup(cfg, calls, MutexByFile)| ==> calls[FilterGroup(cfg, calls, MutexByFile)[k]].filePath.Some?
    ensures forall p :: p in MutexFiles(cfg, calls)
              <==> IsFileOf(calls, FilterGroup(cfg, calls, MutexByFile), p)
  {
    FilterGroupIs(cfg, calls, Parallel);
    FilterGroupIs(cfg, calls, MutexByFile);
    FilterGroupIs(cfg, calls, Serial);
    var par, mutex := FilterGroup(cfg, calls, Parallel), FilterGroup(cfg, calls, MutexByFile);
    hide FilterGroup;
    ReorderIs(cfg, calls, par, true);
    ReorderIs(cfg, calls, par, false);
    BelowLast(par, |calls|, ReadsFirst(cfg, calls));
    BelowLast(par, |calls|, OtherReads(cfg, calls));
    forall k | 0 <= k < |mutex| ensures GroupOf(cfg, calls[mutex[k]]).MutexByFile? { assert mutex[k] in mutex; }
    forall p | p in MutexFiles(cfg, calls) ensures IsFileOf(calls, mutex, p) {
      var i :| 0 <= i < |calls| && GroupOf(cfg, calls[i]).MutexByFile? && calls[i].filePath == Some(p);
      assert i in mutex;
    }
  }

  /** The four phases, each followed by filling its results in. */
  method RunPhases<R>(calls: seq<Call>, first: seq<nat>, other: seq<nat>, mutex: seq<nat>, serial: seq<nat>,
                      executor: Executor<R>, ids: map<string, nat>, results: array<Option<R>>)
    returns (order: seq<string>)
    requires Within(first, |calls|) && Within(other, |calls|) && Within(mutex, |calls|) && Within(serial, |calls|)
    requires forall k :: 0 <= k < |mutex| ==> calls[mutex[k]].filePath.Some?
    requires results.Length == |calls| && IndexesIds(calls, ids)
    modifies results, executor
    ensures forall k, m :: 0 <= k < m < |order| ==> order[k] != order[m]
    ensures forall p :: p in order <==> IsFileOf(calls, mutex, p)
    ensures var cs := first + other + Flatten(Groups(calls, mutex, order)) + serial;
            && Within(cs, |calls|) && executor.log == old(executor.log) + cs
            && results[..] == Filled(old(results[..]), ids, Pairs(calls, cs, executor.outcome))
  {
    hide Pairs, Filled, Groups, Flatten, IndexesIds;
    ghost var none := results[..];
    var pairs := ExecuteParallel(calls, first, executor);
    PairIds(calls, ids, first, executor.outcome);
    FillResults(calls, results, ids, pairs);
    pairs := ExecuteParallel(calls, other, executor);
    PairIds(calls, ids, other, executor.outcome);
    FillResults(calls, results, ids, pairs);
    pairs, order := ExecuteMutexByFile(calls, mutex, executor);
    ghost var cs := Flatten(Groups(calls, mutex, order));
    PairIds(calls, ids, cs, executor.outcome);
    FillResults(calls, results, ids, pairs);
    pairs := ExecuteSerial(calls, serial, executor);
    PairIds(calls, ids, serial, executor.outcome);
    FillResults(calls, results, ids, pairs);
    FilledFour(calls, ids, none, first, other, cs, serial, executor.outcome);
    LogFour(old(executor.log), first, other, cs, serial);
  }

  lemma LogFour(log: seq<nat>, a: seq<nat>, b: seq<nat>, c: seq<nat>, d: seq<nat>)
    ensures log + a + b + c + d == log + (a + b + c + d)
  {
  }

  /**
    `dispatch_all`. It returns a result for every call, in input order, exactly when the ids
    are distinct; with a repeated id it panics. Either way the executor has been given every
    call once, phase by phase, the files of the mutex phase in some hash order.
   */
  method DispatchAll<R(0)>(cfg: Config, calls: seq<Call>, executor: Executor<R>)
    returns (r: Option<seq<R>>, order: seq<string>)
    modifies executor
    ensures HashOrder(cfg, calls, order) && executor.log == old(executor.log) + Listed(cfg, calls, order)
    ensures forall i: nat :: Times(executor.log[|old(executor.log)|..], i) == if i < |calls| then 1 else 0
    ensures forall i: nat, j: nat :: i < |calls| && j < |calls| && Before(cfg, calls, i, j) ==>
      Precedes(executor.log[|old(executor.log)|..], i, j)
    ensures r.Some? <==> DistinctIds(calls)
    ensures r.Some? ==> |r.value| == |calls| && forall i :: 0 <= i < |calls| ==> r.value[i] == executor.outcome(i)
  {
    hide Before;
    hide ReadsFirst, OtherReads, FilterGroup, MutexFiles, Pairs, Filled, Listed, IndexesIds, IsFileOf, Times;
    PlanWithin(cfg, calls);
    var mutex := FilterGroup(cfg, calls, MutexByFile);
    var ids := IndexIds(calls);
    var results: array<Option<R>> := new Option<R>[|calls|](_ => None);
    ghost var none := results[..];
    order := RunPhases(calls, ReadsFirst(cfg, calls), OtherReads(cfg, calls), mutex,
                       FilterGroup(cfg, calls, Serial), executor, ids, results);
    ListedIs(cfg, calls, order);
    ghost var executed := Listed(cfg, calls, order);
    assert executor.log[|old(executor.log)|..] == executed;
    forall i: nat ensures Times(executed, i) == if i < |calls| then 1 else 0 { ListedOnce(cfg, calls, order, i); }
    forall i: nat, j: nat | i < |calls| && j < |calls| && Before(cfg, calls, i, j) ensures Precedes(executed, i, j) {
      ListedKeepsOrder(cfg, calls, order, i, j);
    }
    ResultsAre(cfg, calls, ids, none, order, executed, executor.outcome);
    ghost var final := results[..];
    assert forall i :: 0 <= i < |calls| ==> final[i] == results[i];
    r := Unwrap(results);
    if DistinctIds(calls) {
      assert forall i :: 0 <= i < |calls| ==> results[i] == Some(executor.outcome(i));
      assert r.Some?;
    } else {
      ghost var i :| 0 <= i < |calls| && final[i].None?;
      assert results[i].None?;
      assert r.None?;
    }
  }

  lemma PairIds<R>(calls: seq<Call>, ids: map<string, nat>, cs: seq<nat>, outcome: nat -> R)
    requires Within(cs, |calls|) && IndexesIds(calls, ids)
    ensures forall k :: 0 <= k < |Pairs(calls, cs, outcome)| ==> Pairs(calls, cs, outcome)[k].0 in ids
  {
  }

  lemma FilledFour<R>(calls: seq<Call>, ids: map<string, nat>, none: seq<Option<R>>,
                      a: seq<nat>, b: seq<nat>, c: seq<nat>, d: seq<nat>, outcome: nat -> R)
    requires Within(a, |calls|) && Within(b, |calls|) && Within(c, |calls|) && Within(d, |calls|)
    ensures Within(a + b + c + d, |calls|)
    ensures Filled(Filled(Filled(Filled(none, ids, Pairs(calls, a, outcome)), ids, Pairs(calls, b, outcome)),
                          ids, Pairs(calls, c, outcome)), ids, Pairs(calls, d, outcome))
         == Filled(none, ids, Pairs(calls, a + b + c + d, outcome))
  {
    hide Pairs, Filled;
    PairsConcat(calls, a, b, outcome);
    PairsConcat(calls, a + b, c, outcome);
    PairsConcat(calls, a + b + c, d, outcome);
    FilledConcat(none, ids, Pairs(calls, a, outcome), Pairs(calls, b, outcome));
    FilledConcat(none, ids, Pairs(calls, a + b, outcome), Pairs(calls, c, outcome));
    FilledConcat(none, ids, Pairs(calls, a + b + c, outcome), Pairs(calls, d, outcome));
  }

  lemma ListedIs(cfg: Config, calls: seq<Call>, order: seq<string>)
    ensures Within(FilterGroup(cfg, calls, MutexByFile), |calls|)
    ensures Listed(cfg, calls, order)
         == ReadsFirst(cfg, calls) + OtherReads(cfg, calls)
            + Flatten(Groups(calls, FilterGroup(cfg, calls, MutexByFile), order)) + FilterGroup(cfg, calls, Serial)
  {
    FilterGroupIs(cfg, calls, MutexByFile);
    FlattenSingletons(ReadsFirst(cfg, calls));
    FlattenSingletons(OtherReads(cfg, calls));
    var serial := FilterGroup(cfg, calls, Serial);
    assert Flatten([serial]) == serial + Flatten([serial][1..]) == serial;
  }

  /** After all phases a slot is filled for every call if ids are distinct, and left empty for a shadowed one. */
  lemma ResultsAre<R>(cfg: Config, calls: seq<Call>, ids: map<string, nat>, none: seq<Option<R>>,
                      order: seq<string>, executed: seq<nat>, outcome: nat -> R)
    requires HashOrder(cfg, calls, order) && executed == Listed(cfg, calls, order) && Within(executed, |calls|)
    requires IndexesIds(calls, ids) && |none| == |calls| && forall i :: 0 <= i < |none| ==> none[i].None?
    ensures var final := Filled(none, ids, Pairs(calls, executed, outcome));
            if DistinctIds(calls) then forall i :: 0 <= i < |calls| ==> final[i] == Some(outcome(i))
            else exists i :: 0 <= i < |calls| && final[i].None?
  {
    hide Pairs, Filled, Listed, HashOrder;
    if DistinctIds(calls) {
      forall i | 0 <= i < |calls| ensures Filled(none, ids, Pairs(calls, executed, outcome))[i] == Some(outcome(i)) {
        ListedOnce(cfg, calls, order, i);
        FilledDistinct(calls, ids, none, executed, outcome, i);
      }
    } else {
      var i, j :| 0 <= i < j < |calls| && calls[i].id == calls[j].id;
      FilledShadowed(calls, ids, none, executed, outcome, i, j);
    }
  }
}
