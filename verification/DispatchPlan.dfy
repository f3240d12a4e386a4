/**
  How crates/common/src/dispatcher.rs classifies a batch of tool calls and splits it into
  four phases. Calls are referred to by their index in the batch.
 */
module DispatchPlan {
  import opened Wrappers
  import opened Interleavings

  /** The parts of a `PendingToolCall` the dispatcher looks at. */
  datatype Call = Call(id: string, filePath: Option<string>, isConcurrencySafe: bool)

  datatype Group = Parallel | MutexByFile | Serial

  datatype Config = Config(isParallelEnabled: bool, providerSupportsParallel: bool)

  predicate ShouldFallbackToSerial(cfg: Config) {
    !cfg.isParallelEnabled || !cfg.providerSupportsParallel
  }

  function Classify(cfg: Config, call: Call): Group {
    if !cfg.isParallelEnabled then Serial
    else if call.isConcurrencySafe then Parallel
    else if call.filePath.Some? then MutexByFile
    else Serial
  }

  function GroupOf(cfg: Config, call: Call): Group {
    if ShouldFallbackToSerial(cfg) then Serial else Classify(cfg, call)
  }

  /** The calls of one group, in input order. */
  function FilterGroup(cfg: Config, calls: seq<Call>, g: Group): seq<nat> {
    FilterUpTo(cfg, calls, g, |calls|)
  }

  function FilterUpTo(cfg: Config, calls: seq<Call>, g: Group, n: nat): seq<nat>
    requires n <= |calls|
  {
    if n == 0 then []
    else FilterUpTo(cfg, calls, g, n - 1) + if GroupOf(cfg, calls[n - 1]) == g then [n - 1] else []
  }

  predicate Within(cs: seq<nat>, n: nat) {
    forall k :: 0 <= k < |cs| ==> cs[k] < n
  }

  /** The files that some mutex call works on. */
  function MutexFiles(cfg: Config, calls: seq<Call>): set<string> {
    set i | 0 <= i < |calls| && GroupOf(cfg, calls[i]).MutexByFile? && calls[i].filePath.Some? :: calls[i].filePath.value
  }

  /** A parallel call that reads a file some mutex call will write. */
  predicate ReadsMutexFile(cfg: Config, calls: seq<Call>, i: nat)
    requires i < |calls|
  {
    calls[i].filePath.Some? && calls[i].filePath.value in MutexFiles(cfg, calls)
  }

  /** `reorder_read_edit`: the two sides of the partition. */
  function Reorder(cfg: Config, calls: seq<Call>, parallel: seq<nat>, side: bool): seq<nat>
    requires Within(parallel, |calls|)
  {
    if parallel == [] then []
    else
      var rest := Reorder(cfg, calls, parallel[..|parallel| - 1], side);
      var i := parallel[|parallel| - 1];
      if ReadsMutexFile(cfg, calls, i) == side then rest + [i] else rest
  }

  /** The calls of `mutex` on file `p`, in input order. */
  function OnFile(calls: seq<Call>, mutex: seq<nat>, p: string): seq<nat>
    requires Within(mutex, |calls|)
  {
    if mutex == [] then []
    else
      var rest := OnFile(calls, mutex[..|mutex| - 1], p);
      var i := mutex[|mutex| - 1];
      if calls[i].filePath == Some(p) then rest + [i] else rest
  }

  function Groups(calls: seq<Call>, mutex: seq<nat>, order: seq<string>): seq<seq<nat>>
    requires Within(mutex, |calls|)
  {
    if order == [] then [] else [OnFile(calls, mutex, order[0])] + Groups(calls, mutex, order[1..])
  }

  function Singletons(cs: seq<nat>): seq<seq<nat>> {
    if cs == [] then [] else [[cs[0]]] + Singletons(cs[1..])
  }

  // ---------- what the dispatcher promises ----------

  /** Some call that is not safe works on the path. */
  predicate IsEdited(calls: seq<Call>, path: Option<string>) {
    path.Some? && exists k :: 0 <= k < |calls| && !calls[k].isConcurrencySafe && calls[k].filePath == path
  }

  /**
    Call `i` is to end before call `j` starts. If calls may run in parallel: safe calls before
    the others, and among them those on edited paths first; of the others, those with a path
    before those without, and calls on one path, and those without, in input order. If not,
    all calls in input order.
   */
  predicate Before(cfg: Config, calls: seq<Call>, i: nat, j: nat)
    requires i < |calls| && j < |calls|
  {
    var a, b := calls[i], calls[j];
    if !cfg.isParallelEnabled || !cfg.providerSupportsParallel then i < j
    else if a.isConcurrencySafe then
      !b.isConcurrencySafe || (IsEdited(calls, a.filePath) && !IsEdited(calls, b.filePath))
    else
      !b.isConcurrencySafe && ((a.filePath.Some? && b.filePath.None?) || (a.filePath == b.filePath && i < j))
  }

  // ---------- the shape of the lists ----------

  ghost predicate Ascending(s: seq<nat>) {
    forall a, b :: 0 <= a < b < |s| ==> s[a] < s[b]
  }

  lemma {:induction false} FilterUpToIs(cfg: Config, calls: seq<Call>, g: Group, n: nat)
    requires n <= |calls|
    ensures Ascending(FilterUpTo(cfg, calls, g, n)) && Within(FilterUpTo(cfg, calls, g, n), n)
    ensures forall i: nat :: i in FilterUpTo(cfg, calls, g, n) <==> i < n && GroupOf(cfg, calls[i]) == g
  {
    if n > 0 { FilterUpToIs(cfg, calls, g, n - 1); }
  }

  lemma FilterGroupIs(cfg: Config, calls: seq<Call>, g: Group)
    ensures Ascending(FilterGroup(cfg, calls, g)) && Within(FilterGroup(cfg, calls, g), |calls|)
    ensures forall i: nat :: i in FilterGroup(cfg, calls, g) <==> i < |calls| && GroupOf(cfg, calls[i]) == g
  {
    FilterUpToIs(cfg, calls, g, |calls|);
  }

  /** The groups from the fields of the calls: safe calls, the others with a path, and the rest. */
  lemma GroupsByFields(cfg: Config, calls: seq<Call>, i: nat)
    ensures var parallel := cfg.isParallelEnabled && cfg.providerSupportsParallel;
            && (i in FilterGroup(cfg, calls, Parallel) <==> i < |calls| && parallel && calls[i].isConcurrencySafe)
            && (i in FilterGroup(cfg, calls, MutexByFile) <==>
                  i < |calls| && parallel && !calls[i].isConcurrencySafe && calls[i].filePath.Some?)
            && (i in FilterGroup(cfg, calls, Serial) <==>
                  i < |calls| && (!parallel || (!calls[i].isConcurrencySafe && calls[i].filePath.None?)))
  {
    FilterGroupIs(cfg, calls, Parallel);
    FilterGroupIs(cfg, calls, MutexByFile);
    FilterGroupIs(cfg, calls, Serial);
  }

  /** A selection from a list stays below what the list stays below. */
  lemma BelowLast(list: seq<nat>, last: nat, chosen: seq<nat>)
    requires Within(list, last)
    requires forall i :: i in chosen ==> i in list
    ensures Within(chosen, last)
  {
    forall k | 0 <= k < |chosen| ensures chosen[k] < last { assert chosen[k] in list; }
  }

  lemma {:induction false} ReorderIs(cfg: Config, calls: seq<Call>, parallel: seq<nat>, side: bool)
    requires Ascending(parallel) && Within(parallel, |calls|)
    ensures Ascending(Reorder(cfg, calls, parallel, side))
    ensures forall i :: i in Reorder(cfg, calls, parallel, side) <==> i in parallel && ReadsMutexFile(cfg, calls, i) == side
  {
    if parallel != [] {
      var init, last := parallel[..|parallel| - 1], parallel[|parallel| - 1];
      ReorderIs(cfg, calls, init, side);
      assert parallel == init + [last];
      BelowLast(init, last, Reorder(cfg, calls, init, side));
    }
  }

  lemma {:induction false} OnFileIs(calls: seq<Call>, mutex: seq<nat>, p: string)
    requires Ascending(mutex) && Within(mutex, |calls|)
    ensures Ascending(OnFile(calls, mutex, p))
    ensures forall i :: i in OnFile(calls, mutex, p) <==> i in mutex && calls[i].filePath == Some(p)
  {
    if mutex != [] {
      var init, last := mutex[..|mutex| - 1], mutex[|mutex| - 1];
      OnFileIs(calls, init, p);
      assert mutex == init + [last];
      BelowLast(init, last, OnFile(calls, init, p));
    }
  }

  lemma {:induction false} GroupsAt(calls: seq<Call>, mutex: seq<nat>, order: seq<string>, k: nat)
    requires Within(mutex, |calls|)
    ensures |Groups(calls, mutex, order)| == |order|
    ensures k < |order| ==> Groups(calls, mutex, order)[k] == OnFile(calls, mutex, order[k])
  {
    if order != [] { GroupsAt(calls, mutex, order[1..], if k == 0 then 0 else k - 1); }
  }

  lemma {:induction false} SingletonsAt(cs: seq<nat>, k: nat)
    ensures |Singletons(cs)| == |cs|
    ensures k < |cs| ==> Singletons(cs)[k] == [cs[k]]
  {
    if cs != [] { SingletonsAt(cs[1..], if k == 0 then 0 else k - 1); }
  }

  // ---------- the plan ----------

  /** The files of the mutex calls, in the order a HashMap happens to list them. */
  ghost predicate HashOrder(cfg: Config, calls: seq<Call>, order: seq<string>) {
    && (forall k, m :: 0 <= k < m < |order| ==> order[k] != order[m])
    && (forall p :: p in order <==> p in MutexFiles(cfg, calls))
  }

  lemma {:induction false} Enumerate(s: set<string>) returns (order: seq<string>)
    ensures forall k, m :: 0 <= k < m < |order| ==> order[k] != order[m]
    ensures forall p :: p in order <==> p in s
  {
    if s == {} {
      order := [];
    } else {
      var p :| p in s;
      var rest := Enumerate(s - {p});
      order := [p] + rest;
    }
  }

  lemma SomeHashOrder(cfg: Config, calls: seq<Call>) returns (order: seq<string>)
    ensures HashOrder(cfg, calls, order)
  {
    order := Enumerate(MutexFiles(cfg, calls));
  }

  function ReadsFirst(cfg: Config, calls: seq<Call>): seq<nat> {
    FilterGroupIs(cfg, calls, Parallel);
    Reorder(cfg, calls, FilterGroup(cfg, calls, Parallel), true)
  }

  function OtherReads(cfg: Config, calls: seq<Call>): seq<nat> {
    FilterGroupIs(cfg, calls, Parallel);
    Reorder(cfg, calls, FilterGroup(cfg, calls, Parallel), false)
  }

  ghost function FileGroups(cfg: Config, calls: seq<Call>, order: seq<string>): seq<seq<nat>> {
    FilterGroupIs(cfg, calls, MutexByFile);
    Groups(calls, FilterGroup(cfg, calls, MutexByFile), order)
  }

  /** The threads of phase `q`: each runs its calls one after the other. */
  ghost function Phase(cfg: Config, calls: seq<Call>, order: seq<string>, q: nat): seq<seq<nat>> {
    if q == 0 then Singletons(ReadsFirst(cfg, calls))
    else if q == 1 then Singletons(OtherReads(cfg, calls))
    else if q == 2 then FileGroups(cfg, calls, order)
    else if q == 3 then [FilterGroup(cfg, calls, Serial)]
    else []
  }

  /** The phase that runs call `i`. */
  ghost function Rank(cfg: Config, calls: seq<Call>, i: nat): nat
    requires i < |calls|
  {
    match GroupOf(cfg, calls[i])
    case Parallel => if ReadsMutexFile(cfg, calls, i) then 0 else 1
    case MutexByFile => 2
    case Serial => 3
  }

  /** The phases and their threads keep exactly that order. */
  lemma BeforeIff(cfg: Config, calls: seq<Call>, i: nat, j: nat)
    requires i < |calls| && j < |calls|
    ensures Before(cfg, calls, i, j) <==>
      || Rank(cfg, calls, i) < Rank(cfg, calls, j)
      || (Rank(cfg, calls, i) == Rank(cfg, calls, j) == 2 && calls[i].filePath == calls[j].filePath && i < j)
      || (Rank(cfg, calls, i) == Rank(cfg, calls, j) == 3 && i < j)
  {
    if cfg.isParallelEnabled && cfg.providerSupportsParallel {
      EditedIff(cfg, calls, i);
      EditedIff(cfg, calls, j);
      hide MutexFiles, IsEdited;
    }
  }

  lemma EditedIff(cfg: Config, calls: seq<Call>, i: nat)
    requires cfg.isParallelEnabled && cfg.providerSupportsParallel && i < |calls|
    ensures ReadsMutexFile(cfg, calls, i) <==> IsEdited(calls, calls[i].filePath)
  {
    if IsEdited(calls, calls[i].filePath) {
      var k :| 0 <= k < |calls| && !calls[k].isConcurrencySafe && calls[k].filePath == calls[i].filePath;
      assert calls[k].filePath.value in MutexFiles(cfg, calls);
    }
  }

  /** Where a call is in the plan. */
  lemma Place(cfg: Config, calls: seq<Call>, order: seq<string>, i: nat) returns (k: nat, a: nat)
    requires i < |calls| && HashOrder(cfg, calls, order)
    ensures var ph := Phase(cfg, calls, order, Rank(cfg, calls, i));
            k < |ph| && a < |ph[k]| && ph[k][a] == i
    ensures Rank(cfg, calls, i) == 2 ==> k < |order| && calls[i].filePath == Some(order[k])
    ensures Rank(cfg, calls, i) == 3 ==> k == 0
  {
    FilterGroupIs(cfg, calls, GroupOf(cfg, calls[i]));
    var list := FilterGroup(cfg, calls, GroupOf(cfg, calls[i]));
    match GroupOf(cfg, calls[i]) {
      case Parallel =>
        var side := ReadsMutexFile(cfg, calls, i);
        ReorderIs(cfg, calls, list, side);
        var cs := Reorder(cfg, calls, list, side);
        k :| 0 <= k < |cs| && cs[k] == i;
        a := 0;
        SingletonsAt(cs, k);
      case MutexByFile =>
        var p := calls[i].filePath.value;
        assert p in MutexFiles(cfg, calls);
        k :| 0 <= k < |order| && order[k] == p;
        GroupsAt(calls, list, order, k);
        OnFileIs(calls, list, p);
        a :| 0 <= a < |OnFile(calls, list, p)| && OnFile(calls, list, p)[a] == i;
      case Serial =>
        k := 0;
        a :| 0 <= a < |list| && list[a] == i;
    }
  }

  /** Within a thread of phase 2 or 3, calls are in input order. */
  lemma ThreadAscends(cfg: Config, calls: seq<Call>, order: seq<string>, q: nat, k: nat)
    requires 2 <= q <= 3 && k < |Phase(cfg, calls, order, q)|
    ensures Ascending(Phase(cfg, calls, order, q)[k])
  {
    FilterGroupIs(cfg, calls, MutexByFile);
    FilterGroupIs(cfg, calls, Serial);
    if q == 2 {
      var list := FilterGroup(cfg, calls, MutexByFile);
      GroupsAt(calls, list, order, k);
      OnFileIs(calls, list, order[k]);
    }
  }

  // ---------- every call is planned exactly once ----------

  /** How often `x` is in `s`. */
  ghost function Times<T>(s: seq<T>, x: T): nat {
    multiset(s)[x]
  }

  lemma TimesNone<T>(x: T)
    ensures Times([], x) == 0
  {
  }

  lemma TimesConcat<T>(a: seq<T>, b: seq<T>, x: T)
    ensures Times(a + b, x) == Times(a, x) + Times(b, x)
  {
  }

  lemma AscendingIndex(s: seq<nat>, a: nat, b: nat)
    requires Ascending(s) && a < |s| && b < |s| && s[a] < s[b]
    ensures a < b
  {
  }

  lemma {:induction false} AscendingCount(s: seq<nat>, x: nat)
    requires Ascending(s)
    ensures Times(s, x) == if x in s then 1 else 0
  {
    if s != [] {
      var init, last := s[..|s| - 1], s[|s| - 1];
      AscendingCount(init, x);
      assert s == init + [last];
      assert Within(init, last);
    }
  }

  lemma {:induction false} FlattenSingletons(cs: seq<nat>)
    ensures Flatten(Singletons(cs)) == cs
  {
    if cs != [] {
      FlattenSingletons(cs[1..]);
      assert Singletons(cs)[1..] == Singletons(cs[1..]);
      assert cs == [cs[0]] + cs[1..];
    }
  }

  lemma {:induction false} GroupsCount(calls: seq<Call>, mutex: seq<nat>, order: seq<string>, x: nat)
    requires Ascending(mutex) && Within(mutex, |calls|)
    requires forall k, m :: 0 <= k < m < |order| ==> order[k] != order[m]
    ensures Times(Flatten(Groups(calls, mutex, order)), x)
         == if x in mutex && calls[x].filePath.Some? && calls[x].filePath.value in order then 1 else 0
  {
    if order != [] {
      GroupsCount(calls, mutex, order[1..], x);
      OnFileIs(calls, mutex, order[0]);
      AscendingCount(OnFile(calls, mutex, order[0]), x);
      assert Groups(calls, mutex, order)[1..] == Groups(calls, mutex, order[1..]);
      assert order == [order[0]] + order[1..];
    }
  }

  /** The order in which the four phases list the calls. */
  ghost function Listed(cfg: Config, calls: seq<Call>, order: seq<string>): seq<nat> {
    Flatten(Phase(cfg, calls, order, 0)) + Flatten(Phase(cfg, calls, order, 1))
    + Flatten(Phase(cfg, calls, order, 2)) + Flatten(Phase(cfg, calls, order, 3))
  }

  /** Across the four phases every call is listed exactly once. */
  lemma ListedOnce(cfg: Config, calls: seq<Call>, order: seq<string>, x: nat)
    requires HashOrder(cfg, calls, order)
    ensures Times(Listed(cfg, calls, order), x) == if x < |calls| then 1 else 0
  {
    FilterGroupIs(cfg, calls, Parallel);
    FilterGroupIs(cfg, calls, MutexByFile);
    FilterGroupIs(cfg, calls, Serial);
    var par, mutex, serial := FilterGroup(cfg, calls, Parallel), FilterGroup(cfg, calls, MutexByFile), FilterGroup(cfg, calls, Serial);
    hide FilterGroup, Reorder, Groups, Singletons, Ascending;
    ReorderIs(cfg, calls, par, true);
    ReorderIs(cfg, calls, par, false);
    AscendingCount(Reorder(cfg, calls, par, true), x);
    AscendingCount(Reorder(cfg, calls, par, false), x);
    AscendingCount(serial, x);
    FlattenSingletons(Reorder(cfg, calls, par, true));
    FlattenSingletons(Reorder(cfg, calls, par, false));
    GroupsCount(calls, mutex, order, x);
    assert Flatten([serial]) == serial + Flatten([serial][1..]) == serial;
    var first, other := Reorder(cfg, calls, par, true), Reorder(cfg, calls, par, false);
    assert Listed(cfg, calls, order) == first + other + Flatten(Groups(calls, mutex, order)) + serial;
    assert Times(Listed(cfg, calls, order), x)
        == Times(first, x) + Times(other, x) + Times(Flatten(Groups(calls, mutex, order)), x) + Times(serial, x);
    if x < |calls| && GroupOf(cfg, calls[x]).MutexByFile? {
      assert calls[x].filePath.value in MutexFiles(cfg, calls);
    }
  }

  /** The list keeps the promised order. */
  lemma ListedKeepsOrder(cfg: Config, calls: seq<Call>, order: seq<string>, i: nat, j: nat)
    requires HashOrder(cfg, calls, order) && i < |calls| && j < |calls| && Before(cfg, calls, i, j)
    ensures Precedes(Listed(cfg, calls, order), i, j)
  {
    var q, r := Rank(cfg, calls, i), Rank(cfg, calls, j);
    BeforeIff(cfg, calls, i, j);
    var k, a := Place(cfg, calls, order, i);
    var l, b := Place(cfg, calls, order, j);
    var parts := Parts(cfg, calls, order);
    ListedIsParts(cfg, calls, order);
    InFlatten(Phase(cfg, calls, order, q), k, a);
    InFlatten(Phase(cfg, calls, order, r), l, b);
    if q < r {
      hide Phase, Listed, Rank;
      PrecedesAcrossFlatten(parts, q, r, i, j);
    } else {
      assert k == l;
      ThreadAscends(cfg, calls, order, q, k);
      hide Phase, Listed, Rank, Before;
      var th := Phase(cfg, calls, order, q)[k];
      AscendingIndex(th, a, b);
      assert Precedes(th, i, j);
      PrecedesInFlatten(Phase(cfg, calls, order, q), k, i, j);
      PrecedesInFlatten(parts, q, i, j);
    }
  }

  ghost function Parts(cfg: Config, calls: seq<Call>, order: seq<string>): (parts: seq<seq<nat>>)
    ensures |parts| == 4 && forall q :: 0 <= q < 4 ==> parts[q] == Flatten(Phase(cfg, calls, order, q))
  {
    [Flatten(Phase(cfg, calls, order, 0)), Flatten(Phase(cfg, calls, order, 1)),
     Flatten(Phase(cfg, calls, order, 2)), Flatten(Phase(cfg, calls, order, 3))]
  }

  lemma ListedIsParts(cfg: Config, calls: seq<Call>, order: seq<string>)
    ensures Flatten(Parts(cfg, calls, order)) == Listed(cfg, calls, order)
  {
    hide Phase;
    FlattenFour(Flatten(Phase(cfg, calls, order, 0)), Flatten(Phase(cfg, calls, order, 1)),
                Flatten(Phase(cfg, calls, order, 2)), Flatten(Phase(cfg, calls, order, 3)));
  }

  lemma FlattenFour<T>(a: seq<T>, b: seq<T>, c: seq<T>, d: seq<T>)
    ensures Flatten([a, b, c, d]) == a + b + c + d
  {
    assert [a, b, c, d][1..] == [b, c, d] && [b, c, d][1..] == [c, d] && [c, d][1..] == [d] && [d][1..] == [];
    assert Flatten([d]) == d;
    assert Flatten([c, d]) == c + d;
    assert Flatten([b, c, d]) == b + (c + d);
  }
}
