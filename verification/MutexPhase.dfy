/**
  The mutex phase of `dispatch_all` with what the calls do. Each call is a program of atomic
  steps on the file it names, any number of them, and the calls on one file run one after
  the other. `canon` says which file a path names.

  If different paths name different files, every interleaving and every hash order ends
  with the same files and the same results: those of running the calls in input order.
 */
module MutexPhase {
  import opened Wrappers
  import opened Interleavings
  import opened DispatchPlan

  /** Call `i` takes `steps(i)` atomic steps on its file and then answers. */
  datatype Executor<!S, !R> = Executor(steps: nat -> nat, act: (nat, nat, S) -> S, out: (nat, S) -> R)

  datatype Micro = Act(call: nat, k: nat) | Finish(call: nat)

  datatype World<S, R> = World(files: map<string, S>, results: map<nat, R>)

  function Acts(i: nat, n: nat): seq<Micro> {
    if n == 0 then [] else Acts(i, n - 1) + [Act(i, n - 1)]
  }

  function CallScript<S, R>(ex: Executor<S, R>, i: nat): seq<Micro> {
    Acts(i, ex.steps(i)) + [Finish(i)]
  }

  function ThreadScript<S, R>(ex: Executor<S, R>, cs: seq<nat>): seq<Micro> {
    if cs == [] then [] else ThreadScript(ex, cs[..|cs| - 1]) + CallScript(ex, cs[|cs| - 1])
  }

  function ThreadScripts<S, R>(ex: Executor<S, R>, ths: seq<seq<nat>>): seq<seq<Micro>> {
    if ths == [] then [] else [ThreadScript(ex, ths[0])] + ThreadScripts(ex, ths[1..])
  }

  // ---------- running a trace ----------

  function DoOn<S, R>(ex: Executor<S, R>, s: S, e: Micro): S {
    match e
    case Act(i, k) => ex.act(i, k, s)
    case Finish(_) => s
  }

  ghost predicate Covers<S, R>(file: nat -> string, w: World<S, R>, tr: seq<Micro>) {
    forall k :: 0 <= k < |tr| ==> file(tr[k].call) in w.files
  }

  function Do<S, R>(ex: Executor<S, R>, file: nat -> string, w: World<S, R>, e: Micro): World<S, R>
    requires file(e.call) in w.files
  {
    var f := file(e.call);
    World(w.files[f := DoOn(ex, w.files[f], e)],
          if e.Finish? then w.results[e.call := ex.out(e.call, w.files[f])] else w.results)
  }

  ghost function Exec<S, R>(ex: Executor<S, R>, file: nat -> string, w: World<S, R>, tr: seq<Micro>): World<S, R>
    requires Covers(file, w, tr)
    decreases |tr|
  {
    if tr == [] then w
    else
      assert file(tr[0].call) in w.files;
      var w' := Do(ex, file, w, tr[0]);
      assert Covers(file, w', tr[1..]) by { CoversRest(ex, file, w, tr); }
      Exec(ex, file, w', tr[1..])
  }

  lemma CoversRest<S, R>(ex: Executor<S, R>, file: nat -> string, w: World<S, R>, tr: seq<Micro>)
    requires tr != [] && Covers(file, w, tr)
    ensures file(tr[0].call) in w.files && Covers(file, Do(ex, file, w, tr[0]), tr[1..])
  {
    assert file(tr[0].call) in w.files;
    forall k | 0 <= k < |tr[1..]| ensures file(tr[1..][k].call) in w.files { assert tr[1..][k] == tr[k + 1]; }
  }

  // ---------- one file at a time ----------

  /** The file after a trace that only touches it. */
  function FileAfter<S, R>(ex: Executor<S, R>, s: S, tr: seq<Micro>): S
    decreases |tr|
  {
    if tr == [] then s else FileAfter(ex, DoOn(ex, s, tr[0]), tr[1..])
  }

  /** The answer of call `i`, if such a trace finishes it; the last one if it does so repeatedly. */
  function AnswerIn<S, R>(ex: Executor<S, R>, s: S, tr: seq<Micro>, i: nat): Option<R>
    decreases |tr|
  {
    if tr == [] then None
    else
      var later := AnswerIn(ex, DoOn(ex, s, tr[0]), tr[1..], i);
      if later.Some? then later
      else if tr[0] == Finish(i) then Some(ex.out(i, s))
      else None
  }

  function Result<S, R>(w: World<S, R>, i: nat): Option<R> {
    if i in w.results then Some(w.results[i]) else None
  }

  function FileLabel(file: nat -> string): Micro -> string {
    (e: Micro) => file(e.call)
  }

  /** What a trace does to a file and its calls depends only on the events of that file. */
  lemma {:induction false} ExecAt<S, R>(
    ex: Executor<S, R>, file: nat -> string, w: World<S, R>, tr: seq<Micro>, f: string)
    requires Covers(file, w, tr) && f in w.files
    ensures Exec(ex, file, w, tr).files.Keys == w.files.Keys
    ensures Exec(ex, file, w, tr).files[f] == FileAfter(ex, w.files[f], Project(tr, FileLabel(file), f))
    ensures forall i :: file(i) == f ==>
      var a := AnswerIn(ex, w.files[f], Project(tr, FileLabel(file), f), i);
      Result(Exec(ex, file, w, tr), i) == if a.Some? then a else Result(w, i)
    decreases |tr|
  {
    if tr != [] {
      CoversRest(ex, file, w, tr);
      var w' := Do(ex, file, w, tr[0]);
      ExecAt(ex, file, w', tr[1..], f);
      assert FileLabel(file)(tr[0]) == file(tr[0].call);
      var rest := Project(tr[1..], FileLabel(file), f);
      if file(tr[0].call) == f {
        assert Project(tr, FileLabel(file), f) == [tr[0]] + rest;
        assert ([tr[0]] + rest)[1..] == rest;
      } else {
        assert Project(tr, FileLabel(file), f) == rest;
        assert w'.files[f] == w.files[f];
      }
    }
  }

  /** Two traces with the same events on every file do the same. */
  lemma SameProjectionsSameWorld<S, R>(
    ex: Executor<S, R>, file: nat -> string, w: World<S, R>, tr: seq<Micro>, tr': seq<Micro>)
    requires Covers(file, w, tr) && Covers(file, w, tr')
    requires forall f :: f in w.files ==> Project(tr, FileLabel(file), f) == Project(tr', FileLabel(file), f)
    ensures Exec(ex, file, w, tr).files == Exec(ex, file, w, tr').files
    ensures forall i :: file(i) in w.files ==> Result(Exec(ex, file, w, tr), i) == Result(Exec(ex, file, w, tr'), i)
  {
    var a, b := Exec(ex, file, w, tr), Exec(ex, file, w, tr');
    ExecKeys(ex, file, w, tr);
    ExecKeys(ex, file, w, tr');
    forall f | f in w.files
      ensures a.files[f] == b.files[f] && forall i :: file(i) == f ==> Result(a, i) == Result(b, i)
    {
      ExecAt(ex, file, w, tr, f);
      ExecAt(ex, file, w, tr', f);
    }
  }

  lemma {:induction false} ExecKeys<S, R>(ex: Executor<S, R>, file: nat -> string, w: World<S, R>, tr: seq<Micro>)
    requires Covers(file, w, tr)
    ensures Exec(ex, file, w, tr).files.Keys == w.files.Keys
    decreases |tr|
  {
    if tr != [] {
      CoversRest(ex, file, w, tr);
      ExecKeys(ex, file, Do(ex, file, w, tr[0]), tr[1..]);
    }
  }

  lemma {:induction false} FileAfterConcat<S, R>(ex: Executor<S, R>, s: S, a: seq<Micro>, b: seq<Micro>)
    ensures FileAfter(ex, s, a + b) == FileAfter(ex, FileAfter(ex, s, a), b)
    decreases |a|
  {
    if a == [] {
      assert a + b == b;
    } else {
      assert (a + b)[1..] == a[1..] + b;
      FileAfterConcat(ex, DoOn(ex, s, a[0]), a[1..], b);
    }
  }

  // ---------- scripts ----------

  lemma {:induction false} ActsCall(i: nat, n: nat)
    ensures forall k :: 0 <= k < |Acts(i, n)| ==> Acts(i, n)[k].call == i
  {
    if n > 0 { ActsCall(i, n - 1); }
  }

  /** A thread only has events of its own calls. */
  lemma {:induction false} ThreadEvents<S, R>(ex: Executor<S, R>, cs: seq<nat>, k: nat)
    requires k < |ThreadScript(ex, cs)|
    ensures ThreadScript(ex, cs)[k].call in cs
  {
    var init, last := cs[..|cs| - 1], cs[|cs| - 1];
    assert cs == init + [last];
    ActsCall(last, ex.steps(last));
    if k < |ThreadScript(ex, init)| { ThreadEvents(ex, init, k); }
  }

  lemma {:induction false} ProjectConcat<E, L>(a: seq<E>, b: seq<E>, lab: E -> L, l: L)
    ensures Project(a + b, lab, l) == Project(a, lab, l) + Project(b, lab, l)
  {
    if a == [] {
      assert a + b == b;
    } else {
      assert (a + b)[1..] == a[1..] + b;
      ProjectConcat(a[1..], b, lab, l);
    }
  }

  lemma {:induction false} ProjectUniform<E, L>(s: seq<E>, lab: E -> L, l: L, m: L)
    requires forall k :: 0 <= k < |s| ==> lab(s[k]) == m
    ensures Project(s, lab, l) == if l == m then s else []
  {
    if s != [] {
      forall k | 0 <= k < |s[1..]| ensures lab(s[1..][k]) == m { assert s[1..][k] == s[k + 1]; }
      ProjectUniform(s[1..], lab, l, m);
      assert s == [s[0]] + s[1..];
    }
  }

  /** The part of a sequential run that concerns one file is the run of that file's calls. */
  lemma {:induction false} ProjectThread<S, R>(
    ex: Executor<S, R>, calls: seq<Call>, file: nat -> string, canon: string -> string, cs: seq<nat>, p: string)
    requires Names(calls, file, canon, cs)
    requires forall k :: 0 <= k < |cs| ==> (canon(calls[cs[k]].filePath.value) == canon(p) ==> calls[cs[k]].filePath.value == p)
    ensures Project(ThreadScript(ex, cs), FileLabel(file), canon(p)) == ThreadScript(ex, OnFile(calls, cs, p))
  {
    if cs != [] {
      var init, last := cs[..|cs| - 1], cs[|cs| - 1];
      ProjectThread(ex, calls, file, canon, init, p);
      ProjectConcat(ThreadScript(ex, init), CallScript(ex, last), FileLabel(file), canon(p));
      ActsCall(last, ex.steps(last));
      ProjectUniform(CallScript(ex, last), FileLabel(file), canon(p), file(last));
      var on := OnFile(calls, init, p);
      assert (on + [last])[..|on + [last]| - 1] == on;
    }
  }

  /** Each call of `cs` works on the file its path names. */
  ghost predicate Names(calls: seq<Call>, file: nat -> string, canon: string -> string, cs: seq<nat>) {
    && Within(cs, |calls|)
    && forall k :: 0 <= k < |cs| ==> calls[cs[k]].filePath.Some? && file(cs[k]) == canon(calls[cs[k]].filePath.value)
  }

  ghost predicate DifferentFiles(canon: string -> string, paths: set<string>) {
    forall p, q :: p in paths && q in paths && canon(p) == canon(q) ==> p == q
  }

  lemma {:induction false} ThreadScriptsAt<S, R>(ex: Executor<S, R>, ths: seq<seq<nat>>, k: nat)
    ensures |ThreadScripts(ex, ths)| == |ths|
    ensures k < |ths| ==> ThreadScripts(ex, ths)[k] == ThreadScript(ex, ths[k])
  {
    if ths != [] { ThreadScriptsAt(ex, ths[1..], if k == 0 then 0 else k - 1); }
  }

  lemma {:induction false} ProjectNone<E, L>(s: seq<E>, lab: E -> L, l: L)
    requires forall k :: 0 <= k < |s| ==> lab(s[k]) != l
    ensures Project(s, lab, l) == []
  {
    if s != [] {
      forall k | 0 <= k < |s[1..]| ensures lab(s[1..][k]) != l { assert s[1..][k] == s[k + 1]; }
      ProjectNone(s[1..], lab, l);
    }
  }

  /** The threads of the mutex phase, each with the file it works on. */
  ghost predicate IsMutexTrace<S, R>(cfg: Config, calls: seq<Call>, order: seq<string>, ex: Executor<S, R>, tr: seq<Micro>) {
    Interleaves(tr, ThreadScripts(ex, FileGroups(cfg, calls, order)))
  }

  lemma ThreadOf<S, R>(cfg: Config, calls: seq<Call>, order: seq<string>, ex: Executor<S, R>, k: nat)
    requires k < |order|
    ensures Within(FilterGroup(cfg, calls, MutexByFile), |calls|)
    ensures |ThreadScripts(ex, FileGroups(cfg, calls, order))| == |order|
    ensures ThreadScripts(ex, FileGroups(cfg, calls, order))[k]
         == ThreadScript(ex, OnFile(calls, FilterGroup(cfg, calls, MutexByFile), order[k]))
  {
    FilterGroupIs(cfg, calls, MutexByFile);
    GroupsAt(calls, FilterGroup(cfg, calls, MutexByFile), order, k);
    ThreadScriptsAt(ex, FileGroups(cfg, calls, order), k);
  }

  /** Every event of a thread is on the file of that thread. */
  lemma ThreadFile<S, R>(calls: seq<Call>, file: nat -> string, canon: string -> string, mutex: seq<nat>,
                         ex: Executor<S, R>, p: string, e: Micro)
    requires Ascending(mutex) && Names(calls, file, canon, mutex)
    requires e in ThreadScript(ex, OnFile(calls, mutex, p))
    ensures e.call in mutex && file(e.call) == canon(p)
  {
    var th := ThreadScript(ex, OnFile(calls, mutex, p));
    var a :| 0 <= a < |th| && th[a] == e;
    ThreadEvents(ex, OnFile(calls, mutex, p), a);
    OnFileIs(calls, mutex, p);
    var b :| 0 <= b < |mutex| && mutex[b] == e.call;
    assert file(mutex[b]) == canon(calls[mutex[b]].filePath.value);
  }

  /** An event of the phase belongs to a mutex call and is on the file of one of the threads. */
  lemma TraceFile<S, R>(cfg: Config, calls: seq<Call>, order: seq<string>, ex: Executor<S, R>,
                        file: nat -> string, canon: string -> string, tr: seq<Micro>, e: Micro) returns (k: nat)
    requires IsMutexTrace(cfg, calls, order, ex, tr) && e in tr
    requires Names(calls, file, canon, FilterGroup(cfg, calls, MutexByFile))
    ensures e.call in FilterGroup(cfg, calls, MutexByFile)
    ensures k < |order| && file(e.call) == canon(order[k])
  {
    var ths := ThreadScripts(ex, FileGroups(cfg, calls, order));
    k := EventHasThread(tr, ths, e);
    FilterGroupIs(cfg, calls, MutexByFile);
    ThreadScriptsAt(ex, FileGroups(cfg, calls, order), k);
    GroupsAt(calls, FilterGroup(cfg, calls, MutexByFile), order, k);
    ThreadFile(calls, file, canon, FilterGroup(cfg, calls, MutexByFile), ex, order[k], e);
  }

  /** Restricted to the file of a thread, a trace of the phase is that thread. */
  lemma TraceProjects<S, R>(cfg: Config, calls: seq<Call>, order: seq<string>, ex: Executor<S, R>,
                            file: nat -> string, canon: string -> string, tr: seq<Micro>, k: nat)
    requires HashOrder(cfg, calls, order) && IsMutexTrace(cfg, calls, order, ex, tr) && k < |order|
    requires Names(calls, file, canon, FilterGroup(cfg, calls, MutexByFile))
    requires DifferentFiles(canon, MutexFiles(cfg, calls))
    ensures Within(FilterGroup(cfg, calls, MutexByFile), |calls|)
    ensures Project(tr, FileLabel(file), canon(order[k]))
         == ThreadScript(ex, OnFile(calls, FilterGroup(cfg, calls, MutexByFile), order[k]))
  {
    var mutex := FilterGroup(cfg, calls, MutexByFile);
    FilterGroupIs(cfg, calls, MutexByFile);
    var ths := ThreadScripts(ex, FileGroups(cfg, calls, order));
    var labs := seq(|order|, j requires 0 <= j < |order| => canon(order[j]));
    ThreadOf(cfg, calls, order, ex, k);
    assert Labelled(ths, FileLabel(file), labs) by {
      hide FilterGroup, FileGroups, MutexFiles;
      forall i, j | 0 <= i < j < |labs| ensures labs[i] != labs[j] { assert order[i] in order && order[j] in order; }
      forall j, e | 0 <= j < |ths| && e in ths[j] ensures FileLabel(file)(e) == labs[j] {
        ThreadOf(cfg, calls, order, ex, j);
        ThreadFile(calls, file, canon, mutex, ex, order[j], e);
      }
    }
    InterleavingProjects(tr, ths, FileLabel(file), labs, k);
  }

  /**
    Every interleaving of the mutex phase, for every hash order, leaves the files and the
    results that running its calls one after the other in input order leaves.
   */
  lemma MutexPhaseIsSequential<S, R>(
    cfg: Config, calls: seq<Call>, order: seq<string>, ex: Executor<S, R>,
    file: nat -> string, canon: string -> string, w: World<S, R>, tr: seq<Micro>)
    requires HashOrder(cfg, calls, order) && IsMutexTrace(cfg, calls, order, ex, tr)
    requires Names(calls, file, canon, FilterGroup(cfg, calls, MutexByFile))
    requires DifferentFiles(canon, MutexFiles(cfg, calls))
    requires forall i :: i in FilterGroup(cfg, calls, MutexByFile) ==> file(i) in w.files
    ensures var inOrder := ThreadScript(ex, FilterGroup(cfg, calls, MutexByFile));
            && Covers(file, w, tr) && Covers(file, w, inOrder)
            && Exec(ex, file, w, tr).files == Exec(ex, file, w, inOrder).files
            && forall i :: file(i) in w.files ==> Result(Exec(ex, file, w, tr), i) == Result(Exec(ex, file, w, inOrder), i)
  {
    var mutex := FilterGroup(cfg, calls, MutexByFile);
    var inOrder := ThreadScript(ex, mutex);
    FilterGroupIs(cfg, calls, MutexByFile);
    hide FilterGroup, ThreadScript, Project, Exec, IsMutexTrace, MutexFiles;
    forall k | 0 <= k < |tr| ensures file(tr[k].call) in w.files {
      var j := TraceFile(cfg, calls, order, ex, file, canon, tr, tr[k]);
    }
    forall k | 0 <= k < |inOrder| ensures inOrder[k].call in mutex { ThreadEvents(ex, mutex, k); }
    forall f | f in w.files ensures Project(tr, FileLabel(file), f) == Project(inOrder, FileLabel(file), f) {
      if k :| 0 <= k < |order| && canon(order[k]) == f {
        TraceProjects(cfg, calls, order, ex, file, canon, tr, k);
        PathsDiffer(cfg, calls, order, canon, k);
        ProjectThread(ex, calls, file, canon, mutex, order[k]);
      } else {
        forall k | 0 <= k < |tr| ensures FileLabel(file)(tr[k]) != f {
          var j := TraceFile(cfg, calls, order, ex, file, canon, tr, tr[k]);
        }
        ProjectNone(tr, FileLabel(file), f);
        forall k | 0 <= k < |inOrder| ensures FileLabel(file)(inOrder[k]) != f {
          var j := OrderOf(cfg, calls, order, file, canon, inOrder[k].call);
        }
        ProjectNone(inOrder, FileLabel(file), f);
      }
    }
    SameProjectionsSameWorld(ex, file, w, tr, inOrder);
  }

  lemma PathsDiffer(cfg: Config, calls: seq<Call>, order: seq<string>, canon: string -> string, k: nat)
    requires HashOrder(cfg, calls, order) && k < |order| && DifferentFiles(canon, MutexFiles(cfg, calls))
    ensures var mutex := FilterGroup(cfg, calls, MutexByFile);
            forall a :: 0 <= a < |mutex| ==>
              && mutex[a] < |calls| && calls[mutex[a]].filePath.Some?
              && (canon(calls[mutex[a]].filePath.value) == canon(order[k]) ==> calls[mutex[a]].filePath.value == order[k])
  {
    FilterGroupIs(cfg, calls, MutexByFile);
    var mutex := FilterGroup(cfg, calls, MutexByFile);
    assert order[k] in order;
    forall a | 0 <= a < |mutex| ensures calls[mutex[a]].filePath.Some? && calls[mutex[a]].filePath.value in MutexFiles(cfg, calls) {
      assert mutex[a] in mutex;
    }
  }

  lemma OrderOf(cfg: Config, calls: seq<Call>, order: seq<string>, file: nat -> string, canon: string -> string, i: nat)
    returns (k: nat)
    requires HashOrder(cfg, calls, order) && i in FilterGroup(cfg, calls, MutexByFile)
    requires Names(calls, file, canon, FilterGroup(cfg, calls, MutexByFile))
    ensures k < |order| && file(i) == canon(order[k])
  {
    FilterGroupIs(cfg, calls, MutexByFile);
    var mutex := FilterGroup(cfg, calls, MutexByFile);
    var a :| 0 <= a < |mutex| && mutex[a] == i;
    assert calls[i].filePath.value in MutexFiles(cfg, calls);
    k :| 0 <= k < |order| && order[k] == calls[i].filePath.value;
    assert file(mutex[a]) == canon(calls[mutex[a]].filePath.value);
  }
}
