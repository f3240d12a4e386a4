/**
  When the outcome of the mutex phase depends on the order in which its threads run. The
  dispatcher groups calls by the text of their path, so two texts for one file make two
  threads on that file; the phase is confluent exactly when the batch has no such texts.
 */
module AliasedPaths {
  import opened Wrappers
  import opened Interleavings
  import opened DispatchPlan
  import opened MutexPhase

  /** One run of the mutex phase of a batch, on files that exist. */
  ghost predicate PhaseRun<S, R>(
    cfg: Config, calls: seq<Call>, canon: string -> string, ex: Executor<S, R>, file: nat -> string, w: World<S, R>,
    order: seq<string>, tr: seq<Micro>)
  {
    && HashOrder(cfg, calls, order) && IsMutexTrace(cfg, calls, order, ex, tr)
    && Names(calls, file, canon, FilterGroup(cfg, calls, MutexByFile))
    && (forall i :: i in FilterGroup(cfg, calls, MutexByFile) ==> file(i) in w.files)
    && Covers(file, w, tr)
  }

  /** All runs of the phase leave the same files, whatever the calls do. */
  ghost predicate Confluent(cfg: Config, calls: seq<Call>, canon: string -> string) {
    forall ex: Executor<nat, nat>, file, w, order, tr, order', tr' ::
      PhaseRun(cfg, calls, canon, ex, file, w, order, tr) && PhaseRun(cfg, calls, canon, ex, file, w, order', tr') ==>
        Exec(ex, file, w, tr).files == Exec(ex, file, w, tr').files
  }

  // ---------- threads run one after the other ----------

  lemma {:induction false} FlattenSnoc<E>(ths: seq<seq<E>>, th: seq<E>)
    ensures Flatten(ths + [th]) == Flatten(ths) + th
  {
    if ths != [] {
      FlattenSnoc(ths[1..], th);
      assert (ths + [th])[1..] == ths[1..] + [th];
    }
  }

  // ---------- a hash order with a given last file ----------

  lemma OrderEndingIn(cfg: Config, calls: seq<Call>, p: string) returns (order: seq<string>)
    requires p in MutexFiles(cfg, calls)
    ensures HashOrder(cfg, calls, order) && order != [] && order[|order| - 1] == p
  {
    hide MutexFiles;
    var rest := Enumerate(MutexFiles(cfg, calls) - {p});
    order := rest + [p];
  }

  // ---------- calls that leave their number ----------

  /** Every call writes its own number into its file. */
  function Stamp(): Executor<nat, nat> {
    Executor((i: nat) => 1, (i: nat, k: nat, s: nat) => i, (i: nat, s: nat) => s)
  }

  /** A thread leaves the number of its last call. */
  lemma StampThread(s: nat, cs: seq<nat>)
    requires cs != []
    ensures FileAfter(Stamp(), s, ThreadScript(Stamp(), cs)) == cs[|cs| - 1]
  {
    var i := cs[|cs| - 1];
    var init := ThreadScript(Stamp(), cs[..|cs| - 1]);
    var call := CallScript(Stamp(), i);
    assert call == [Act(i, 0)] + [Finish(i)] by { assert Acts(i, 1) == Acts(i, 0) + [Act(i, 0)]; }
    FileAfterConcat(Stamp(), s, init, call);
    var t := FileAfter(Stamp(), s, init);
    assert call[1..] == [Finish(i)] && [Finish(i)][1..] == [];
    assert FileAfter(Stamp(), i, [Finish(i)]) == FileAfter(Stamp(), i, []);
  }

  /** The trace that runs the threads of `order` one after the other ends with the last thread. */
  lemma LastThread<S, R>(cfg: Config, calls: seq<Call>, order: seq<string>, ex: Executor<S, R>)
    returns (tr: seq<Micro>, first: seq<Micro>)
    requires order != []
    ensures IsMutexTrace(cfg, calls, order, ex, tr) && Within(FilterGroup(cfg, calls, MutexByFile), |calls|)
    ensures tr == first + ThreadScript(ex, OnFile(calls, FilterGroup(cfg, calls, MutexByFile), order[|order| - 1]))
  {
    var ths := ThreadScripts(ex, FileGroups(cfg, calls, order));
    hide FileGroups, FilterGroup, ThreadScripts, ThreadScript, OnFile;
    tr := Flatten(ths);
    DrainAll(ths);
    ThreadOf(cfg, calls, order, ex, |order| - 1);
    var init, last := ths[..|ths| - 1], ths[|ths| - 1];
    assert ths == init + [last];
    FlattenSnoc(init, last);
    first := Flatten(init);
  }

  // ---------- the files of a batch ----------

  /** The file of call `i`. */
  function FileOf(calls: seq<Call>, canon: string -> string): nat -> string {
    (i: nat) => if i < |calls| && calls[i].filePath.Some? then canon(calls[i].filePath.value) else ""
  }

  /** All files of the batch, with nothing written yet. */
  ghost function Blank(calls: seq<Call>, canon: string -> string): World<nat, nat> {
    var files := set i | 0 <= i < |calls| :: FileOf(calls, canon)(i);
    World(map f | f in files :: 0, map[])
  }

  lemma BlankCovers(cfg: Config, calls: seq<Call>, canon: string -> string, order: seq<string>, tr: seq<Micro>)
    requires HashOrder(cfg, calls, order) && IsMutexTrace(cfg, calls, order, Stamp(), tr)
    ensures PhaseRun(cfg, calls, canon, Stamp(), FileOf(calls, canon), Blank(calls, canon), order, tr)
  {
    var mutex, file, w := FilterGroup(cfg, calls, MutexByFile), FileOf(calls, canon), Blank(calls, canon);
    FilterGroupIs(cfg, calls, MutexByFile);
    forall k | 0 <= k < |mutex| ensures calls[mutex[k]].filePath.Some? && file(mutex[k]) == canon(calls[mutex[k]].filePath.value) {
      assert mutex[k] in mutex;
    }
    forall i | i in mutex ensures file(i) in w.files { assert 0 <= i < |calls|; }
    hide FilterGroup, HashOrder, IsMutexTrace;
    forall k | 0 <= k < |tr| ensures file(tr[k].call) in w.files {
      var j := TraceFile(cfg, calls, order, Stamp(), file, canon, tr, tr[k]);
    }
  }

  /** A run of the phase can leave the number of a call on any of its paths in the file of that path. */
  lemma CanEndWith(cfg: Config, calls: seq<Call>, canon: string -> string, p: string)
    returns (order: seq<string>, tr: seq<Micro>, i: nat)
    requires p in MutexFiles(cfg, calls)
    ensures PhaseRun(cfg, calls, canon, Stamp(), FileOf(calls, canon), Blank(calls, canon), order, tr)
    ensures i < |calls| && calls[i].filePath == Some(p)
    ensures var w := Exec(Stamp(), FileOf(calls, canon), Blank(calls, canon), tr);
            canon(p) in w.files && w.files[canon(p)] == i
  {
    var mutex, file, w := FilterGroup(cfg, calls, MutexByFile), FileOf(calls, canon), Blank(calls, canon);
    FilterGroupIs(cfg, calls, MutexByFile);
    order := OrderEndingIn(cfg, calls, p);
    var first;
    tr, first := LastThread(cfg, calls, order, Stamp());
    BlankCovers(cfg, calls, canon, order, tr);
    var on := OnFile(calls, mutex, p);
    OnFileIs(calls, mutex, p);
    assert on != [] && canon(p) in w.files by {
      var j :| 0 <= j < |calls| && GroupOf(cfg, calls[j]).MutexByFile? && calls[j].filePath == Some(p);
      assert j in mutex && file(j) == canon(p);
      assert j in on;
    }
    i := on[|on| - 1];
    assert i in on;
    hide FilterGroup, OnFile, HashOrder, IsMutexTrace, Exec, ThreadScript, Project;
    var th := ThreadScript(Stamp(), on);
    ThreadAlone(calls, file, canon, mutex, p);
    ExecAt(Stamp(), file, w, tr, canon(p));
    ProjectConcat(first, th, FileLabel(file), canon(p));
    FileAfterConcat(Stamp(), w.files[canon(p)], Project(first, FileLabel(file), canon(p)), th);
    StampThread(FileAfter(Stamp(), w.files[canon(p)], Project(first, FileLabel(file), canon(p))), on);
  }

  lemma ThreadAlone(calls: seq<Call>, file: nat -> string, canon: string -> string, mutex: seq<nat>, p: string)
    requires Ascending(mutex) && Names(calls, file, canon, mutex)
    ensures var th := ThreadScript(Stamp(), OnFile(calls, mutex, p));
            Project(th, FileLabel(file), canon(p)) == th
  {
    hide ThreadScript, OnFile, Project;
    var th := ThreadScript(Stamp(), OnFile(calls, mutex, p));
    forall k | 0 <= k < |th| ensures FileLabel(file)(th[k]) == canon(p) {
      ThreadFile(calls, file, canon, mutex, Stamp(), p, th[k]);
    }
    ProjectUniform(th, FileLabel(file), canon(p), canon(p));
  }

  /** Two texts for one file: the phase can leave a call of either in it. */
  lemma AliasedPathsRace(cfg: Config, calls: seq<Call>, canon: string -> string, p: string, q: string)
    requires p in MutexFiles(cfg, calls) && q in MutexFiles(cfg, calls) && p != q && canon(p) == canon(q)
    ensures !Confluent(cfg, calls, canon)
  {
    hide MutexFiles, PhaseRun, Exec;
    var order, tr, i := CanEndWith(cfg, calls, canon, p);
    var order', tr', j := CanEndWith(cfg, calls, canon, q);
    assert i != j;
  }

  /** The phase is confluent exactly when different paths of its mutex calls name different files. */
  lemma ConfluentIff(cfg: Config, calls: seq<Call>, canon: string -> string)
    ensures Confluent(cfg, calls, canon) <==> DifferentFiles(canon, MutexFiles(cfg, calls))
  {
    hide MutexFiles, Exec, HashOrder, IsMutexTrace, FilterGroup;
    if DifferentFiles(canon, MutexFiles(cfg, calls)) {
      forall ex: Executor<nat, nat>, file, w, order, tr, order', tr' |
        PhaseRun(cfg, calls, canon, ex, file, w, order, tr) && PhaseRun(cfg, calls, canon, ex, file, w, order', tr')
        ensures Exec(ex, file, w, tr).files == Exec(ex, file, w, tr').files
      {
        MutexPhaseIsSequential(cfg, calls, order, ex, file, canon, w, tr);
        MutexPhaseIsSequential(cfg, calls, order', ex, file, canon, w, tr');
      }
    } else {
      var p, q :| p in MutexFiles(cfg, calls) && q in MutexFiles(cfg, calls) && canon(p) == canon(q) && p != q;
      AliasedPathsRace(cfg, calls, canon, p, q);
    }
  }
}
