/**
  The per-file mutex map of crates/common/src/file_mutex.rs as a protocol.

  `acquire` is two steps, a map lookup that clones the mutex and a lock that may have to
  wait; dropping the guard and `cleanup` are further steps. Any number of tasks take them
  in any order. The canonicalisation of paths is a parameter and stays fixed.

  `cleanup` appears twice: as the single step `Cleanup`, which is what it is among the
  futures of one task, and as `Check` followed by `Remove`, which is what it is across
  threads, since the map guard is dropped in between.
 */
module FileMutex {
  import opened Wrappers

  type Task = nat
  type Mutex = nat

  /** A clone of a mutex that a task keeps while it waits for the lock or holds it. */
  datatype Ref = Ref(key: string, mutex: Mutex, held: bool)

  /**
    `inner` is the map, `strong` the reference count of every mutex made so far, `locked`
    the mutexes whose lock is taken, `tasks` the clones out of the map, and `pending` the
    threads that have seen a count of one and will remove an entry.
   */
  datatype State = State(
    inner: map<string, Mutex>, strong: map<Mutex, nat>, locked: set<Mutex>,
    tasks: map<Task, Ref>, pending: map<Task, string>, next: Mutex)

  const INIT := State(map[], map[], {}, map[], map[], 0)

  datatype Step =
    | Lookup(task: Task, path: string)
    | Lock(task: Task)
    | GiveUp(task: Task)
    | Release(task: Task)
    | Cleanup(path: string)
    | Check(task: Task, path: string)
    | Remove(task: Task)

  /** `cleanup` as one step. */
  predicate Atomic(step: Step) {
    !step.Check? && !step.Remove?
  }

  // ---------- the steps ----------

  predicate Enabled(s: State, step: Step) {
    match step
    case Lookup(t, _) => t !in s.tasks
    case Lock(t) => t in s.tasks && !s.tasks[t].held && s.tasks[t].mutex !in s.locked
    case GiveUp(t) => t in s.tasks && !s.tasks[t].held
    case Release(t) => t in s.tasks && s.tasks[t].held
    case Cleanup(_) => true
    case Check(t, _) => t !in s.pending
    case Remove(t) => t in s.pending
  }

  function Count(s: State, m: Mutex): nat {
    if m in s.strong then s.strong[m] else 0
  }

  function Decrement(s: State, m: Mutex): map<Mutex, nat> {
    s.strong[m := if Count(s, m) == 0 then 0 else Count(s, m) - 1]
  }

  function DoLookup(s: State, t: Task, key: string): State {
    if key in s.inner then
      var m := s.inner[key];
      s.(strong := s.strong[m := Count(s, m) + 1], tasks := s.tasks[t := Ref(key, m, false)])
    else
      s.(inner := s.inner[key := s.next], strong := s.strong[s.next := 2],
         tasks := s.tasks[t := Ref(key, s.next, false)], next := s.next + 1)
  }

  function DoLock(s: State, t: Task): State
    requires t in s.tasks
  {
    s.(locked := s.locked + {s.tasks[t].mutex}, tasks := s.tasks[t := s.tasks[t].(held := true)])
  }

  /** Drops the clone of `t`, and its lock if it has it. */
  function DoDrop(s: State, t: Task): State
    requires t in s.tasks
  {
    var r := s.tasks[t];
    s.(strong := Decrement(s, r.mutex), tasks := s.tasks - {t},
       locked := if r.held then s.locked - {r.mutex} else s.locked)
  }

  function DoRemove(s: State, key: string): State {
    if key !in s.inner then s
    else s.(inner := s.inner - {key}, strong := Decrement(s, s.inner[key]))
  }

  /** Only the map refers to the mutex of `key`. */
  predicate Unreferenced(s: State, key: string) {
    key in s.inner && Count(s, s.inner[key]) == 1
  }

  function Apply(canon: string -> string, s: State, step: Step): State
    requires Enabled(s, step)
  {
    match step
    case Lookup(t, path) => DoLookup(s, t, canon(path))
    case Lock(t) => DoLock(s, t)
    case GiveUp(t) => DoDrop(s, t)
    case Release(t) => DoDrop(s, t)
    case Cleanup(path) => if Unreferenced(s, canon(path)) then DoRemove(s, canon(path)) else s
    case Check(t, path) => if Unreferenced(s, canon(path)) then s.(pending := s.pending[t := canon(path)]) else s
    case Remove(t) => DoRemove(s, s.pending[t]).(pending := s.pending - {t})
  }

  /** The state after a run, if every step of it was enabled. */
  function Run(canon: string -> string, s: State, steps: seq<Step>): Option<State>
    decreases |steps|
  {
    if steps == [] then Some(s)
    else if Enabled(s, steps[0]) then Run(canon, Apply(canon, s, steps[0]), steps[1..])
    else None
  }

  // ---------- safety ----------

  predicate Holds(s: State, t: Task) {
    t in s.tasks && s.tasks[t].held
  }

  /** No two tasks hold the lock of one canonical path. */
  ghost predicate Exclusive(s: State) {
    forall t, u :: Holds(s, t) && Holds(s, u) && s.tasks[t].key == s.tasks[u].key ==> t == u
  }

  ghost function Referrers(s: State, m: Mutex): set<Task> {
    set t | t in s.tasks && s.tasks[t].mutex == m
  }

  ghost predicate Mapped(s: State, m: Mutex) {
    exists k :: k in s.inner && s.inner[k] == m
  }

  /** The reference count is one for each clone and one for the map. */
  ghost predicate Counted(s: State, m: Mutex) {
    Count(s, m) == |Referrers(s, m)| + if Mapped(s, m) then 1 else 0
  }

  /** A taken lock has an owner. */
  ghost predicate Owned(s: State, m: Mutex) {
    exists t :: Holds(s, t) && s.tasks[t].mutex == m
  }

  /** Reference counts are what the clones and the map say they are; no two keys share a mutex. */
  ghost predicate Counts(s: State) {
    && (forall k :: k in s.inner ==> s.inner[k] < s.next)
    && (forall k, l :: k in s.inner && l in s.inner && s.inner[k] == s.inner[l] ==> k == l)
    && (forall t :: t in s.tasks ==> s.tasks[t].mutex < s.next)
    && (forall m: Mutex :: m < s.next ==> Counted(s, m))
  }

  /** A lock is taken exactly while one task holds it. */
  ghost predicate Locks(s: State) {
    && (forall m :: m in s.locked ==> Owned(s, m))
    && (forall t :: Holds(s, t) ==> s.tasks[t].mutex in s.locked)
    && (forall t, u :: Holds(s, t) && Holds(s, u) && s.tasks[t].mutex == s.tasks[u].mutex ==> t == u)
  }

  /** A mutex is made for one key and never changes it. */
  ghost predicate Labels(s: State) {
    && (forall t, u :: t in s.tasks && u in s.tasks && s.tasks[t].mutex == s.tasks[u].mutex ==> s.tasks[t].key == s.tasks[u].key)
    && (forall t, k :: t in s.tasks && k in s.inner && s.inner[k] == s.tasks[t].mutex ==> s.tasks[t].key == k)
  }

  ghost predicate Consistent(s: State) {
    Counts(s) && Locks(s) && Labels(s)
  }

  /** Every holder and every waiter refers to the mutex that is in the map now. */
  ghost predicate Current(s: State) {
    forall t :: t in s.tasks ==> s.tasks[t].key in s.inner && s.inner[s.tasks[t].key] == s.tasks[t].mutex
  }

  lemma CurrentIsExclusive(s: State)
    requires Consistent(s) && Current(s)
    ensures Exclusive(s)
  {
  }

  // ---------- what each step keeps ----------

  /** Changing the entry of one key changes only which mutex that key maps to. */
  lemma MappedElsewhere(s: State, s': State, key: string, m: Mutex)
    requires s.inner - {key} == s'.inner - {key}
    requires key in s.inner ==> s.inner[key] != m
    requires key in s'.inner ==> s'.inner[key] != m
    ensures Mapped(s, m) <==> Mapped(s', m)
  {
    assert forall k :: k in s.inner - {key} <==> k in s'.inner - {key};
    if Mapped(s, m) {
      var k :| k in s.inner && s.inner[k] == m;
      assert k in s.inner - {key};
      assert k in s'.inner && s'.inner[k] == m;
    }
    if Mapped(s', m) {
      var k :| k in s'.inner && s'.inner[k] == m;
      assert k in s'.inner - {key};
      assert k in s.inner && s.inner[k] == m;
    }
  }

  /** An owner stays an owner as long as its entry in `tasks` is untouched. */
  lemma StillOwned(s: State, s': State, t: Task, m: Mutex)
    requires Owned(s, m)
    requires s.tasks - {t} == s'.tasks - {t}
    requires Holds(s, t) ==> s.tasks[t].mutex != m
    ensures Owned(s', m)
  {
    var u :| Holds(s, u) && s.tasks[u].mutex == m;
    assert u in s.tasks - {t};
    assert Holds(s', u) && s'.tasks[u].mutex == m;
  }

  lemma LookupCounts(s: State, t: Task, key: string)
    requires Counts(s) && t !in s.tasks
    ensures Counts(DoLookup(s, t, key))
  {
    hide Counted, Count;
    var s' := DoLookup(s, t, key);
    forall n: Mutex | n < s'.next ensures Counted(s', n) {
      if n == s'.tasks[t].mutex { LookupCountsOne(s, t, key); } else { LookupCountsOther(s, t, key, n); }
    }
  }

  lemma LookupCurrent(s: State, t: Task, key: string)
    requires Current(s) && t !in s.tasks
    ensures Current(DoLookup(s, t, key))
  {
  }

  lemma LookupReferrers(s: State, t: Task, key: string, n: Mutex)
    requires t !in s.tasks
    ensures var m := DoLookup(s, t, key).tasks[t].mutex;
            && t !in Referrers(s, n)
            && Referrers(DoLookup(s, t, key), n) == Referrers(s, n) + if n == m then {t} else {}
  {
    hide Count;
  }

  lemma LookupCountsOne(s: State, t: Task, key: string)
    requires Counts(s) && t !in s.tasks
    ensures Counted(DoLookup(s, t, key), DoLookup(s, t, key).tasks[t].mutex)
  {
    var s' := DoLookup(s, t, key);
    var m := s'.tasks[t].mutex;
    assert Mapped(s', m) by { assert s'.inner[key] == m; }
    LookupReferrers(s, t, key, m);
    if key in s.inner {
      assert Mapped(s, m) by { assert s.inner[key] == m; }
      assert Counted(s, m);
    } else {
      assert Referrers(s, m) == {};
    }
    hide Mapped, Referrers, Counts;
  }

  lemma LookupElsewhere(s: State, t: Task, key: string, n: Mutex)
    requires n < s.next && n != DoLookup(s, t, key).tasks[t].mutex
    ensures var s' := DoLookup(s, t, key);
      Count(s', n) == Count(s, n) && s.inner - {key} == s'.inner - {key} && key in s'.inner && s'.inner[key] != n
      && (key in s.inner ==> s.inner[key] != n)
  {
  }

  lemma LookupCountsOther(s: State, t: Task, key: string, n: Mutex)
    requires Counts(s) && t !in s.tasks && n < s.next && n != DoLookup(s, t, key).tasks[t].mutex
    ensures Counted(DoLookup(s, t, key), n)
  {
    hide Mapped, Referrers, Count, DoLookup;
    assert Counted(s, n);
    hide Counts;
    LookupElsewhere(s, t, key, n);
    MappedElsewhere(s, DoLookup(s, t, key), key, n);
    LookupReferrers(s, t, key, n);
  }

  lemma LookupLabels(s: State, t: Task, key: string)
    requires Counts(s) && Labels(s) && t !in s.tasks
    ensures Labels(DoLookup(s, t, key))
  {
    hide Counted, Count;
  }

  lemma LookupLocks(s: State, t: Task, key: string)
    requires Locks(s) && t !in s.tasks
    ensures Locks(DoLookup(s, t, key))
  {
    var s' := DoLookup(s, t, key);
    assert s.tasks - {t} == s'.tasks - {t};
    forall n | n in s'.locked ensures Owned(s', n) { StillOwned(s, s', t, n); }
    assert forall u :: Holds(s', u) ==> Holds(s, u) && s'.tasks[u] == s.tasks[u];
  }

  lemma LockCounts(s: State, t: Task)
    requires Counts(s) && t in s.tasks
    ensures Counts(DoLock(s, t))
    ensures Current(s) ==> Current(DoLock(s, t))
  {
    var s' := DoLock(s, t);
    forall n: Mutex | n < s'.next ensures Counted(s', n) {
      assert Counted(s, n);
      assert Referrers(s', n) == Referrers(s, n);
      assert Mapped(s, n) <==> Mapped(s', n);
    }
  }

  lemma LockLocks(s: State, t: Task)
    requires Locks(s) && Enabled(s, Lock(t))
    ensures Locks(DoLock(s, t))
  {
    var s' := DoLock(s, t);
    assert s.tasks - {t} == s'.tasks - {t};
    forall n | n in s'.locked ensures Owned(s', n) {
      if n == s.tasks[t].mutex { assert Holds(s', t); } else { StillOwned(s, s', t, n); }
    }
    assert forall u :: Holds(s', u) && u != t ==> Holds(s, u) && s'.tasks[u] == s.tasks[u];
  }

  lemma DropCounts(s: State, t: Task)
    requires Counts(s) && t in s.tasks
    ensures Counts(DoDrop(s, t))
    ensures Current(s) ==> Current(DoDrop(s, t))
  {
    var s', r := DoDrop(s, t), s.tasks[t];
    forall n: Mutex | n < s'.next ensures Counted(s', n) {
      assert Counted(s, n);
      assert Mapped(s, n) <==> Mapped(s', n);
      if n == r.mutex {
        assert t in Referrers(s, n);
        assert Referrers(s', n) == Referrers(s, n) - {t};
      } else {
        assert Referrers(s', n) == Referrers(s, n);
      }
    }
    forall u | u in s'.tasks ensures u in s.tasks && s'.tasks[u] == s.tasks[u] { }
  }

  lemma DropLocks(s: State, t: Task)
    requires Locks(s) && t in s.tasks
    ensures Locks(DoDrop(s, t))
  {
    var s' := DoDrop(s, t);
    assert s.tasks - {t} == s'.tasks - {t};
    forall n | n in s'.locked ensures Owned(s', n) { StillOwned(s, s', t, n); }
    assert forall u :: Holds(s', u) ==> u != t && Holds(s, u) && s'.tasks[u] == s.tasks[u];
  }

  lemma RemoveLocks(s: State, key: string)
    requires Locks(s)
    ensures Locks(DoRemove(s, key))
  {
    var s' := DoRemove(s, key);
    assert forall u :: Holds(s', u) <==> Holds(s, u);
    forall n | n in s'.locked ensures Owned(s', n) {
      var u :| Holds(s, u) && s.tasks[u].mutex == n;
      assert Holds(s', u) && s'.tasks[u].mutex == n;
    }
  }

  lemma RemoveCounts(s: State, key: string)
    requires Counts(s)
    ensures Counts(DoRemove(s, key))
  {
    if key in s.inner {
      var s', m := DoRemove(s, key), s.inner[key];
      assert Mapped(s, m);
      assert s.inner - {key} == s'.inner - {key};
      forall n: Mutex | n < s'.next ensures Counted(s', n) {
        assert Referrers(s', n) == Referrers(s, n);
        assert Counted(s, n);
        if n == m { assert !Mapped(s', n); } else { MappedElsewhere(s, s', key, n); }
      }
    }
  }

  /** Only the map refers to a mutex exactly when no task has a clone of it. */
  lemma UnreferencedIff(s: State, key: string)
    requires Counts(s) && key in s.inner
    ensures Unreferenced(s, key) <==> forall t :: t in s.tasks ==> s.tasks[t].mutex != s.inner[key]
  {
    var m := s.inner[key];
    assert Mapped(s, m) && Counted(s, m);
    if forall t :: t in s.tasks ==> s.tasks[t].mutex != m {
      assert Referrers(s, m) == {};
    } else {
      var t :| t in s.tasks && s.tasks[t].mutex == m;
      assert t in Referrers(s, m);
    }
  }

  /** Removing an entry keeps every clone current exactly when there was no clone. */
  lemma RemoveCurrent(s: State, key: string)
    requires Counts(s) && Current(s) && key in s.inner
    ensures Current(DoRemove(s, key)) <==> Unreferenced(s, key)
  {
    UnreferencedIff(s, key);
    var s' := DoRemove(s, key);
    if Unreferenced(s, key) {
      forall t | t in s'.tasks ensures s'.tasks[t].key in s'.inner { assert t in s.tasks; }
    } else {
      var t :| t in s.tasks && s.tasks[t].mutex == s.inner[key];
      assert s.tasks[t].key == key && t in s'.tasks;
    }
  }

  // ---------- all runs ----------

  lemma ShrinkLabels(s: State, s': State)
    requires Labels(s)
    requires forall t :: t in s'.tasks ==> t in s.tasks && s'.tasks[t].mutex == s.tasks[t].mutex && s'.tasks[t].key == s.tasks[t].key
    requires forall k :: k in s'.inner ==> k in s.inner && s'.inner[k] == s.inner[k]
    ensures Labels(s')
  {
  }

  /** A removal finds its entry gone or without clones; all other steps are harmless. */
  predicate Harmless(s: State, step: Step)
    requires Enabled(s, step)
  {
    step.Remove? ==> s.pending[step.task] !in s.inner || Unreferenced(s, s.pending[step.task])
  }

  lemma StepKeeps(canon: string -> string, s: State, step: Step)
    requires Consistent(s) && Enabled(s, step)
    ensures Consistent(Apply(canon, s, step))
    ensures Current(s) && Harmless(s, step) ==> Current(Apply(canon, s, step))
  {
    hide Counts, Locks, Current, Labels, DoLookup;
    if !step.Lookup? { ShrinkLabels(s, Apply(canon, s, step)); }
    match step
    case Lookup(t, path) =>
      LookupCounts(s, t, canon(path)); LookupLocks(s, t, canon(path)); LookupLabels(s, t, canon(path));
      if Current(s) { LookupCurrent(s, t, canon(path)); }
    case Lock(t) => LockCounts(s, t); LockLocks(s, t);
    case GiveUp(t) => DropCounts(s, t); DropLocks(s, t);
    case Release(t) => DropCounts(s, t); DropLocks(s, t);
    case Cleanup(path) =>
      if Unreferenced(s, canon(path)) {
        RemoveCounts(s, canon(path)); RemoveLocks(s, canon(path));
        if Current(s) { RemoveCurrent(s, canon(path)); }
      }
    case Check(t, path) => PendingIrrelevant(s, Apply(canon, s, step));
    case Remove(t) =>
      RemoveCounts(s, s.pending[t]); RemoveLocks(s, s.pending[t]);
      ShrinkLabels(s, DoRemove(s, s.pending[t]));
      PendingIrrelevant(DoRemove(s, s.pending[t]), Apply(canon, s, step));
      if Current(s) && Unreferenced(s, s.pending[t]) { RemoveCurrent(s, s.pending[t]); }
  }

  lemma PendingIrrelevant(s: State, s': State)
    requires Consistent(s) && s' == s.(pending := s'.pending)
    ensures Consistent(s')
    ensures Current(s) ==> Current(s')
  {
    forall n: Mutex | n < s'.next ensures Counted(s', n) {
      assert Counted(s, n);
      assert Referrers(s', n) == Referrers(s, n);
      assert Mapped(s, n) <==> Mapped(s', n);
    }
    assert forall u :: Holds(s', u) <==> Holds(s, u);
    forall n | n in s'.locked ensures Owned(s', n) {
      var u :| Holds(s, u) && s.tasks[u].mutex == n;
      assert Holds(s', u) && s'.tasks[u].mutex == n;
    }
  }

  /** Every step of the run is enabled and harmless. */
  predicate HarmlessRun(canon: string -> string, s: State, steps: seq<Step>)
    decreases |steps|
  {
    steps == [] ||
    (Enabled(s, steps[0]) && Harmless(s, steps[0]) && HarmlessRun(canon, Apply(canon, s, steps[0]), steps[1..]))
  }

  /**
    In every interleaving of any number of tasks and cleanups, in one step or in two: as long as
    every removal is harmless, every clone is of the mutex in the map, and at most one task
    holds the lock of a canonical path.
   */
  lemma {:induction false} HarmlessRunsAreExclusive(canon: string -> string, s: State, steps: seq<Step>)
    requires Consistent(s) && Current(s) && HarmlessRun(canon, s, steps)
    ensures Run(canon, s, steps).Some?
    ensures var s' := Run(canon, s, steps).value; Consistent(s') && Current(s') && Exclusive(s')
    decreases |steps|
  {
    hide Consistent, Current, Apply, Enabled, Exclusive, Harmless;
    if steps == [] {
      CurrentIsExclusive(s);
    } else {
      StepKeeps(canon, s, steps[0]);
      HarmlessRunsAreExclusive(canon, Apply(canon, s, steps[0]), steps[1..]);
    }
  }

  /**
    In every interleaving of any number of tasks in which cleanup is one step, every clone is
    of the mutex in the map, and at most one task holds the lock of a canonical path.
   */
  lemma AtomicRunsAreExclusive(canon: string -> string, s: State, steps: seq<Step>)
    requires Consistent(s) && Current(s)
    requires forall i :: 0 <= i < |steps| ==> Atomic(steps[i])
    requires Run(canon, s, steps).Some?
    ensures var s' := Run(canon, s, steps).value; Consistent(s') && Current(s') && Exclusive(s')
  {
    hide Consistent, Current, Run, HarmlessRun, Exclusive;
    NoRemovals(canon, s, steps);
    HarmlessRunsAreExclusive(canon, s, steps);
  }

  lemma InitIsSafe()
    ensures Consistent(INIT) && Current(INIT)
  {
  }

  /** A waiter can lock at once unless another task holds the same path: no lock is ever lost. */
  lemma WaiterIsNeverStuck(s: State, t: Task)
    requires Consistent(s) && Current(s)
    requires t in s.tasks && !s.tasks[t].held
    ensures Enabled(s, Lock(t)) <==> !exists u :: Holds(s, u) && s.tasks[u].key == s.tasks[t].key
  {
    if s.tasks[t].mutex in s.locked {
      assert Owned(s, s.tasks[t].mutex);
      var u :| Holds(s, u) && s.tasks[u].mutex == s.tasks[t].mutex;
      assert s.tasks[u].key == s.tasks[t].key;
    }
  }

  // ---------- cleanup as two steps ----------

  /** A run that only looks up and locks. */
  predicate Contending(steps: seq<Step>) {
    forall i :: 0 <= i < |steps| ==> steps[i].Lookup? || steps[i].Lock?
  }

  /** Some continuation ends with two holders of one canonical path. */
  ghost predicate Breakable(canon: string -> string, s: State) {
    exists steps :: Contending(steps) && Run(canon, s, steps).Some? && !Exclusive(Run(canon, s, steps).value)
  }

  /** A task that takes no part yet. */
  ghost function FreshTask(s: State): (t: Task)
    ensures t !in s.tasks
  {
    FreshTaskExists(s.tasks.Keys);
    var t: Task :| t !in s.tasks;
    t
  }

  lemma {:induction false} FreshTaskExists(used: set<Task>)
    ensures exists t: Task :: t !in used
  {
    var bound := Above(used);
    assert bound !in used;
  }

  lemma {:induction false} Above(used: set<Task>) returns (b: Task)
    ensures forall t :: t in used ==> t < b
    decreases |used|
  {
    b := 0;
    if t :| t in used {
      var b' := Above(used - {t});
      assert forall u :: u in used && u != t ==> u in used - {t};
      b := if t < b' then b' else t + 1;
    }
  }

  /** With an outdated clone around, two holders are a few steps away. */
  lemma OutdatedCloneBreaks(canon: string -> string, s: State, t: Task, path: string)
    requires Consistent(s) && t in s.tasks && s.tasks[t].key == canon(path)
    requires canon(path) !in s.inner
    ensures Breakable(canon, s)
  {
    hide Counts, Breakable, Contending, Run, Apply, Exclusive;
    var m := s.tasks[t].mutex;
    if m in s.locked {
      assert Owned(s, m);
      var u :| Holds(s, u) && s.tasks[u].mutex == m;
      SecondHolder(canon, s, u, path);
    } else {
      StepKeeps(canon, s, Lock(t));
      assert Apply(canon, s, Lock(t)) == DoLock(s, t) by { LockIs(canon, s, t); }
      SecondHolder(canon, DoLock(s, t), t, path);
      BreakableBefore(canon, s, Lock(t));
    }
  }

  lemma LockIs(canon: string -> string, s: State, t: Task)
    requires Enabled(s, Lock(t))
    ensures Apply(canon, s, Lock(t)) == DoLock(s, t)
  {
  }

  lemma BreakableBefore(canon: string -> string, s: State, step: Step)
    requires (step.Lookup? || step.Lock?) && Enabled(s, step)
    requires Breakable(canon, Apply(canon, s, step))
    ensures Breakable(canon, s)
  {
    hide Apply, Exclusive;
    var s1 := Apply(canon, s, step);
    var rest :| Contending(rest) && Run(canon, s1, rest).Some? && !Exclusive(Run(canon, s1, rest).value);
    RunCons(canon, s, step, rest);
    assert Contending([step] + rest);
  }

  lemma SecondHolder(canon: string -> string, s: State, t: Task, path: string)
    requires Consistent(s) && Holds(s, t) && s.tasks[t].key == canon(path)
    requires canon(path) !in s.inner
    ensures Breakable(canon, s)
  {
    var u := FreshTask(s);
    var s1 := DoLookup(s, u, canon(path));
    assert s1.tasks[u].mutex == s.next && s.next !in s.locked;
    var s2 := DoLock(s1, u);
    RunCons(canon, s1, Lock(u), []);
    RunCons(canon, s, Lookup(u, path), [Lock(u)] + []);
    assert Contending([Lookup(u, path)] + ([Lock(u)] + []));
    assert Holds(s2, t) && Holds(s2, u) && s2.tasks[t].key == s2.tasks[u].key;
  }

  /** From a state where all clones are current no run of atomic steps ends with two holders. */
  lemma CurrentIsUnbreakable(canon: string -> string, s: State)
    requires Consistent(s) && Current(s)
    ensures forall steps :: (forall i :: 0 <= i < |steps| ==> Atomic(steps[i])) && Run(canon, s, steps).Some?
                            ==> Exclusive(Run(canon, s, steps).value)
    ensures !Breakable(canon, s)
  {
    hide Consistent, Current, Run, Exclusive;
    forall steps | (forall i :: 0 <= i < |steps| ==> Atomic(steps[i])) && Run(canon, s, steps).Some?
      ensures Exclusive(Run(canon, s, steps).value)
    {
      AtomicRunsAreExclusive(canon, s, steps);
    }
    forall steps | Contending(steps) ensures forall i :: 0 <= i < |steps| ==> Atomic(steps[i]) { }
  }

  /**
    The removal step of a two-step cleanup, taken in a state where all was well: it is
    harmless if and only if no task has taken a clone since the check. Otherwise a
    continuation of lookups and locks alone ends with two holders of one path; if it is
    harmless, no continuation of atomic steps does.
   */
  lemma RemovalBreaksExactlyWhenReferenced(canon: string -> string, s: State, t: Task, path: string)
    requires Consistent(s) && Current(s)
    requires t in s.pending && s.pending[t] == canon(path)
    ensures Breakable(canon, Apply(canon, s, Remove(t))) <==> !Harmless(s, Remove(t))
    ensures Harmless(s, Remove(t)) ==>
      forall steps :: (forall i :: 0 <= i < |steps| ==> Atomic(steps[i])) && Run(canon, Apply(canon, s, Remove(t)), steps).Some?
                      ==> Exclusive(Run(canon, Apply(canon, s, Remove(t)), steps).value)
  {
    hide Breakable, Run, Exclusive, Counts, Locks;
    var key, s' := canon(path), Apply(canon, s, Remove(t));
    StepKeeps(canon, s, Remove(t));
    if Harmless(s, Remove(t)) {
      CurrentIsUnbreakable(canon, s');
    } else {
      UnreferencedIff(s, key);
      var u :| u in s.tasks && s.tasks[u].mutex == s.inner[key];
      assert u in s'.tasks && s'.tasks[u].key == key && key !in s'.inner;
      OutdatedCloneBreaks(canon, s', u, path);
    }
  }

  // ---------- whole runs with two-step cleanups ----------

  /** A pending removal is of a key that some path has. */
  ghost predicate Checked(canon: string -> string, s: State) {
    forall t :: t in s.pending ==> IsKey(canon, s.pending[t])
  }

  ghost predicate IsKey(canon: string -> string, key: string) {
    exists path :: canon(path) == key
  }

  lemma StepChecked(canon: string -> string, s: State, step: Step)
    requires Checked(canon, s) && Enabled(s, step)
    ensures Checked(canon, Apply(canon, s, step))
  {
    hide IsKey;
    if step.Check? { assert IsKey(canon, canon(step.path)) by { PathHasKey(canon, step.path); } }
  }

  lemma PathHasKey(canon: string -> string, path: string)
    ensures IsKey(canon, canon(path))
  {
  }

  /** Every state the run goes through, from the first to the last. */
  ghost predicate NeverBreakable(canon: string -> string, s: State, steps: seq<Step>)
    decreases |steps|
  {
    && !Breakable(canon, s)
    && (steps != [] && Enabled(s, steps[0]) ==> NeverBreakable(canon, Apply(canon, s, steps[0]), steps[1..]))
  }

  /** After a removal that is not harmless two holders are a few lookups and locks away. */
  lemma HarmfulRemovalBreaks(canon: string -> string, s: State, t: Task)
    requires Consistent(s) && Current(s) && Checked(canon, s) && t in s.pending && !Harmless(s, Remove(t))
    ensures Breakable(canon, Apply(canon, s, Remove(t)))
  {
    hide Breakable, Consistent, Current, Apply, Harmless;
    assert IsKey(canon, s.pending[t]);
    var path :| canon(path) == s.pending[t];
    RemovalBreaksExactlyWhenReferenced(canon, s, t, path);
  }

  /**
    For every run over all steps, whatever cleanups are in it: two holders are out of reach all
    the way if and only if every removal found its entry gone or without clones.
   */
  lemma {:induction false} RunIsSafeIff(canon: string -> string, s: State, steps: seq<Step>)
    requires Consistent(s) && Current(s) && Checked(canon, s) && Run(canon, s, steps).Some?
    ensures NeverBreakable(canon, s, steps) <==> HarmlessRun(canon, s, steps)
    decreases |steps|
  {
    hide Breakable, Consistent, Current, Checked, Apply;
    CurrentIsUnbreakable(canon, s);
    if steps != [] {
      var s' := Apply(canon, s, steps[0]);
      StepKeeps(canon, s, steps[0]);
      StepChecked(canon, s, steps[0]);
      if Harmless(s, steps[0]) {
        RunIsSafeIff(canon, s', steps[1..]);
      } else {
        HarmfulRemovalBreaks(canon, s, steps[0].task);
        assert Breakable(canon, s');
      }
    }
  }

  /** A run across threads that ends with two holders of the lock of "f". */
  lemma TwoHolders(canon: string -> string)
    ensures exists steps :: Run(canon, INIT, steps).Some? && !Exclusive(Run(canon, INIT, steps).value)
  {
    hide Consistent, Current, Run, Exclusive, CheckedThenCloned, Checked, Harmless, HarmlessRun, Apply, Contending;
    var s := CheckedThenCloned(canon);
    var steps := [Lookup(0, "f"), GiveUp(0), Check(9, "f"), Lookup(1, "f")];
    RunLeadsTo(canon);
    InitIsSafe();
    NoRemovals(canon, INIT, steps);
    HarmlessRunsAreExclusive(canon, INIT, steps);
    HarmfulRemovalBreaks(canon, s, 9);
    var s' := Apply(canon, s, Remove(9));
    var rest :| Contending(rest) && Run(canon, s', rest).Some? && !Exclusive(Run(canon, s', rest).value);
    RunCons(canon, s, Remove(9), rest);
    RunConcat(canon, INIT, steps, [Remove(9)] + rest);
  }

  /** Task 0 came and went, thread 9 saw a count of one, and task 1 has cloned the mutex since. */
  function CheckedThenCloned(canon: string -> string): State {
    State(map[canon("f") := 0], map[0 := 2], {}, map[1 := Ref(canon("f"), 0, false)], map[9 := canon("f")], 1)
  }

  lemma RunLeadsTo(canon: string -> string)
    ensures Run(canon, INIT, [Lookup(0, "f"), GiveUp(0), Check(9, "f"), Lookup(1, "f")]) == Some(CheckedThenCloned(canon))
    ensures Checked(canon, CheckedThenCloned(canon))
    ensures Enabled(CheckedThenCloned(canon), Remove(9)) && !Harmless(CheckedThenCloned(canon), Remove(9))
  {
    var k := canon("f");
    var s0 := State(map[k := 0], map[0 := 2], {}, map[0 := Ref(k, 0, false)], map[], 1);
    var s1 := State(map[k := 0], map[0 := 1], {}, map[], map[], 1);
    var s2 := s1.(pending := map[9 := k]);
    assert Apply(canon, INIT, Lookup(0, "f")) == s0;
    assert Apply(canon, s0, GiveUp(0)) == s1;
    assert Apply(canon, s1, Check(9, "f")) == s2;
    assert Apply(canon, s2, Lookup(1, "f")) == CheckedThenCloned(canon);
    PathHasKey(canon, "f");
    hide Apply, Run;
    var r2 := [Lookup(1, "f")] + [];
    var r1 := [Check(9, "f")] + r2;
    var r0 := [GiveUp(0)] + r1;
    RunCons(canon, s2, Lookup(1, "f"), []);
    RunCons(canon, s1, Check(9, "f"), r2);
    RunCons(canon, s0, GiveUp(0), r1);
    RunCons(canon, INIT, Lookup(0, "f"), r0);
    RunNil(canon, CheckedThenCloned(canon));
    assert [Lookup(0, "f")] + r0 == [Lookup(0, "f"), GiveUp(0), Check(9, "f"), Lookup(1, "f")];
  }

  /** A run without removals is harmless. */
  lemma {:induction false} NoRemovals(canon: string -> string, s: State, steps: seq<Step>)
    requires (forall i :: 0 <= i < |steps| ==> !steps[i].Remove?) && Run(canon, s, steps).Some?
    ensures HarmlessRun(canon, s, steps)
    decreases |steps|
  {
    hide Apply, Enabled;
    if steps != [] { NoRemovals(canon, Apply(canon, s, steps[0]), steps[1..]); }
  }

  lemma RunNil(canon: string -> string, s: State)
    ensures Run(canon, s, []) == Some(s)
  {
  }

  lemma RunCons(canon: string -> string, s: State, step: Step, rest: seq<Step>)
    requires Enabled(s, step)
    ensures Run(canon, s, [step] + rest) == Run(canon, Apply(canon, s, step), rest)
  {
    assert ([step] + rest)[1..] == rest;
  }

  lemma {:induction false} RunConcat(canon: string -> string, s: State, a: seq<Step>, b: seq<Step>)
    requires Run(canon, s, a).Some?
    ensures Run(canon, s, a + b) == Run(canon, Run(canon, s, a).value, b)
    decreases |a|
  {
    hide Apply, Enabled;
    if a == [] {
      assert a + b == b;
    } else {
      assert (a + b)[1..] == a[1..] + b && (a + b)[0] == a[0];
      RunConcat(canon, Apply(canon, s, a[0]), a[1..], b);
    }
  }
}
