/**
  The mutex phase of `dispatch_all` with its locks. Every path has a thread that takes its
  calls in turn: look the mutex up, wait for the lock, execute the call in any number of atomic
  steps on the file, drop the guard, clean up. The threads share one `FileMutexMap`, so calls
  whose different paths name one file wait for each other.

  Whatever the schedule, such calls never overlap, the phase does not deadlock, and at its end
  the files and results are those of running whole calls one after the other, in some order
  that keeps the order of every path.
 */
module LockedPhase {
  import opened Wrappers
  import opened Interleavings
  import opened DispatchPlan
  import opened MutexPhase
  import Locks = FileMutex

  datatype Pc = Idle | Waiting | Running(k: nat) | Answered | Released

  /** The future of one path; the first call of `todo` is the current one. */
  datatype Thread = Thread(path: string, todo: seq<nat>, pc: Pc)

  /** `done` lists the calls in the order they answered. */
  datatype Phase<!S, !R> = Phase(mutex: Locks.State, world: World<S, R>, threads: seq<Thread>, done: seq<nat>)

  /** What does not change during the phase: the executor and the files that paths and calls name. */
  datatype Setting<!S, !R> = Setting(ex: Executor<S, R>, canon: string -> string, file: nat -> string)

  // ---------- one step of one thread ----------

  predicate Busy(th: Thread) {
    th.pc.Running? || th.pc.Answered?
  }

  ghost predicate WellFormed<S, R>(g: Setting<S, R>, p: Phase<S, R>) {
    && Locks.Consistent(p.mutex) && Locks.Current(p.mutex)
    && forall t :: 0 <= t < |p.threads| ==> ThreadOk(g, p, t)
  }

  /** The thread and the mutex map agree, and its calls are on the file of its path. */
  ghost predicate ThreadOk<S, R>(g: Setting<S, R>, p: Phase<S, R>, t: nat)
    requires t < |p.threads|
  {
    var th := p.threads[t];
    && (!th.pc.Idle? ==> th.todo != [])
    && (forall j :: 0 <= j < |th.todo| ==> g.file(th.todo[j]) == g.canon(th.path) && g.file(th.todo[j]) in p.world.files)
    && (th.pc.Idle? || th.pc.Released? ==> t !in p.mutex.tasks)
    && (th.pc.Waiting? || Busy(th) ==>
          t in p.mutex.tasks && p.mutex.tasks[t].key == g.canon(th.path) && p.mutex.tasks[t].held == Busy(th))
    && (th.pc.Running? ==> th.pc.k <= g.ex.steps(th.todo[0]))
  }

  ghost predicate CanStep<S, R>(g: Setting<S, R>, p: Phase<S, R>, t: nat)
    requires WellFormed(g, p)
  {
    t < |p.threads| &&
    match p.threads[t].pc
    case Idle => p.threads[t].todo != []
    case Waiting => Locks.Enabled(p.mutex, Locks.Lock(t))
    case _ => true
  }

  ghost function Step<S, R>(g: Setting<S, R>, p: Phase<S, R>, t: nat): Phase<S, R>
    requires WellFormed(g, p) && CanStep(g, p, t)
  {
    assert ThreadOk(g, p, t);
    var th := p.threads[t];
    match th.pc
    case Idle => Locked(g, p, t, Locks.Lookup(t, th.path), th.(pc := Waiting))
    case Waiting => Locked(g, p, t, Locks.Lock(t), th.(pc := Running(0)))
    case Running(k) =>
      var i := th.todo[0];
      if k < g.ex.steps(i) then
        p.(world := Do(g.ex, g.file, p.world, Act(i, k)), threads := p.threads[t := th.(pc := Running(k + 1))])
      else
        p.(world := Do(g.ex, g.file, p.world, Finish(i)), threads := p.threads[t := th.(pc := Answered)], done := p.done + [i])
    case Answered => Locked(g, p, t, Locks.Release(t), th.(pc := Released))
    case Released => Locked(g, p, t, Locks.Cleanup(th.path), th.(pc := Idle, todo := th.todo[1..]))
  }

  ghost function Locked<S, R>(g: Setting<S, R>, p: Phase<S, R>, t: nat, step: Locks.Step, th: Thread): Phase<S, R>
    requires t < |p.threads| && Locks.Enabled(p.mutex, step)
  {
    p.(mutex := Locks.Apply(g.canon, p.mutex, step), threads := p.threads[t := th])
  }

  // ---------- what every step keeps ----------

  /** A step of the map by thread `t` touches no other task. */
  lemma OtherTasks(canon: string -> string, s: Locks.State, step: Locks.Step, t: nat)
    requires Locks.Enabled(s, step)
    requires step.Lookup? || step.Lock? || step.Release? || step.Cleanup?
    requires !step.Cleanup? ==> step.task == t
    ensures forall u :: u != t ==>
      (u in Locks.Apply(canon, s, step).tasks <==> u in s.tasks)
      && (u in s.tasks ==> Locks.Apply(canon, s, step).tasks[u] == s.tasks[u])
    ensures step.Cleanup? ==> Locks.Apply(canon, s, step).tasks == s.tasks
    ensures step.Lookup? ==>
      var tasks := Locks.Apply(canon, s, step).tasks;
      t in tasks && tasks[t].key == canon(step.path) && !tasks[t].held
    ensures step.Lock? ==>
      var tasks := Locks.Apply(canon, s, step).tasks;
      t in tasks && tasks[t] == s.tasks[t].(held := true)
    ensures step.Release? ==> t !in Locks.Apply(canon, s, step).tasks
  {
  }

  lemma LockedKeeps<S, R>(g: Setting<S, R>, p: Phase<S, R>, t: nat, step: Locks.Step, th: Thread)
    requires WellFormed(g, p) && t < |p.threads| && Locks.Enabled(p.mutex, step) && Locks.Atomic(step)
    requires forall u :: u != t ==>
      (u in Locks.Apply(g.canon, p.mutex, step).tasks <==> u in p.mutex.tasks)
      && (u in p.mutex.tasks ==> Locks.Apply(g.canon, p.mutex, step).tasks[u] == p.mutex.tasks[u])
    requires ThreadOk(g, Locked(g, p, t, step, th), t)
    ensures WellFormed(g, Locked(g, p, t, step, th))
  {
    hide Locks.Apply, Locks.Consistent, Locks.Current, Locks.Enabled;
    Locks.StepKeeps(g.canon, p.mutex, step);
    var p' := Locked(g, p, t, step, th);
    forall u | 0 <= u < |p'.threads| ensures ThreadOk(g, p', u) {
      if u != t { assert ThreadOk(g, p, u) && p'.threads[u] == p.threads[u]; }
    }
  }

  lemma StepKeepsForm<S, R>(g: Setting<S, R>, p: Phase<S, R>, t: nat)
    requires WellFormed(g, p) && CanStep(g, p, t)
    ensures WellFormed(g, Step(g, p, t)) && Step(g, p, t).world.files.Keys == p.world.files.Keys
  {
    hide Locks.Apply, Locks.Consistent, Locks.Current;
    assert ThreadOk(g, p, t);
    var th := p.threads[t];
    if th.pc.Running? {
      var p' := Step(g, p, t);
      forall u | 0 <= u < |p'.threads| ensures ThreadOk(g, p', u) {
        assert ThreadOk(g, p, u);
      }
    } else {
      var step, next := if th.pc.Idle? then Locks.Lookup(t, th.path) else if th.pc.Waiting? then Locks.Lock(t)
                        else if th.pc.Answered? then Locks.Release(t) else Locks.Cleanup(th.path),
                        if th.pc.Idle? then th.(pc := Waiting) else if th.pc.Waiting? then th.(pc := Running(0))
                        else if th.pc.Answered? then th.(pc := Released) else th.(pc := Idle, todo := th.todo[1..]);
      OtherTasks(g.canon, p.mutex, step, t);
      assert ThreadOk(g, Locked(g, p, t, step, next), t);
      LockedKeeps(g, p, t, step, next);
    }
  }

  /** Calls whose paths name one file never overlap. */
  lemma NoOverlap<S, R>(g: Setting<S, R>, p: Phase<S, R>, t: nat, u: nat)
    requires WellFormed(g, p) && t < |p.threads| && u < |p.threads| && Busy(p.threads[t]) && Busy(p.threads[u])
    requires g.canon(p.threads[t].path) == g.canon(p.threads[u].path)
    ensures t == u
  {
    hide Locks.Consistent, Locks.Current;
    assert ThreadOk(g, p, t) && ThreadOk(g, p, u);
    Locks.CurrentIsExclusive(p.mutex);
    assert Locks.Holds(p.mutex, t) && Locks.Holds(p.mutex, u);
  }

  /** Unless all calls are done some thread can go on, if no other task holds a lock. */
  lemma NoDeadlock<S, R>(g: Setting<S, R>, p: Phase<S, R>)
    requires WellFormed(g, p) && forall u: nat :: Locks.Holds(p.mutex, u) ==> u < |p.threads|
    ensures (exists t :: CanStep(g, p, t)) <==> !AllDone(p)
  {
    hide Locks.Consistent, Locks.Current;
    if !AllDone(p) {
      var t :| 0 <= t < |p.threads| && !(p.threads[t].pc.Idle? && p.threads[t].todo == []);
      assert ThreadOk(g, p, t);
      if p.threads[t].pc.Waiting? {
        Locks.WaiterIsNeverStuck(p.mutex, t);
        if !Locks.Enabled(p.mutex, Locks.Lock(t)) {
          var u :| Locks.Holds(p.mutex, u) && p.mutex.tasks[u].key == p.mutex.tasks[t].key;
          assert ThreadOk(g, p, u);
          assert CanStep(g, p, u);
        } else {
          assert CanStep(g, p, t);
        }
      } else {
        assert CanStep(g, p, t);
      }
    }
  }

  predicate AllDone<S, R>(p: Phase<S, R>) {
    forall t :: 0 <= t < |p.threads| ==> p.threads[t].pc.Idle? && p.threads[t].todo == []
  }

  // ---------- what a call does to the files ----------

  lemma {:induction false} ExecConcat<S, R>(
    ex: Executor<S, R>, file: nat -> string, w: World<S, R>, a: seq<Micro>, b: seq<Micro>)
    requires Covers(file, w, a) && Covers(file, w, b)
    ensures Covers(file, w, a + b) && Covers(file, Exec(ex, file, w, a), b)
    ensures Exec(ex, file, w, a + b) == Exec(ex, file, Exec(ex, file, w, a), b)
    decreases |a|
  {
    if a == [] {
      assert a + b == b;
    } else {
      CoversRest(ex, file, w, a);
      var w' := Do(ex, file, w, a[0]);
      ExecConcat(ex, file, w', a[1..], b);
      assert (a + b)[1..] == a[1..] + b;
    }
  }

  lemma ExecOne<S, R>(ex: Executor<S, R>, file: nat -> string, w: World<S, R>, e: Micro)
    requires file(e.call) in w.files
    ensures Covers(file, w, [e]) && Exec(ex, file, w, [e]) == Do(ex, file, w, e)
  {
    assert [e][1..] == [];
  }

  lemma OneMoreAct<S, R>(ex: Executor<S, R>, s: S, i: nat, k: nat)
    ensures FileAfter(ex, s, Acts(i, k + 1)) == ex.act(i, k, FileAfter(ex, s, Acts(i, k)))
  {
    FileAfterConcat(ex, s, Acts(i, k), [Act(i, k)]);
    assert [Act(i, k)][1..] == [];
    assert FileAfter(ex, FileAfter(ex, s, Acts(i, k)), [Act(i, k)]) == ex.act(i, k, FileAfter(ex, s, Acts(i, k)));
  }

  lemma {:induction false} ExecActs<S, R>(ex: Executor<S, R>, file: nat -> string, w: World<S, R>, i: nat, n: nat)
    requires file(i) in w.files
    ensures Covers(file, w, Acts(i, n))
    ensures Exec(ex, file, w, Acts(i, n)) == w.(files := w.files[file(i) := FileAfter(ex, w.files[file(i)], Acts(i, n))])
  {
    if n > 0 {
      ActsCall(i, n);
      ActsCall(i, n - 1);
      ExecActs(ex, file, w, i, n - 1);
      ExecConcat(ex, file, w, Acts(i, n - 1), [Act(i, n - 1)]);
      ExecOne(ex, file, Exec(ex, file, w, Acts(i, n - 1)), Act(i, n - 1));
      OneMoreAct(ex, w.files[file(i)], i, n - 1);
    }
  }

  /** A whole call changes its file and adds its answer. */
  lemma ExecCall<S, R>(ex: Executor<S, R>, file: nat -> string, w: World<S, R>, i: nat)
    requires file(i) in w.files
    ensures Covers(file, w, CallScript(ex, i))
    ensures var s := FileAfter(ex, w.files[file(i)], Acts(i, ex.steps(i)));
            Exec(ex, file, w, CallScript(ex, i)) == World(w.files[file(i) := s], w.results[i := ex.out(i, s)])
  {
    hide Exec, Acts, FileAfter;
    ExecActs(ex, file, w, i, ex.steps(i));
    assert Covers(file, w, [Finish(i)]);
    ExecConcat(ex, file, w, Acts(i, ex.steps(i)), [Finish(i)]);
    ExecOne(ex, file, Exec(ex, file, w, Acts(i, ex.steps(i))), Finish(i));
  }

  // ---------- the phase is always a sequence of whole calls and the started parts of others ----------

  /** Thread `t` is executing a call on file `f`. */
  predicate Executing<S, R>(g: Setting<S, R>, p: Phase<S, R>, t: nat, f: string) {
    t < |p.threads| && p.threads[t].pc.Running? && g.canon(p.threads[t].path) == f
  }

  /** The file of a thread after the steps its current call has taken. */
  function Started<S, R>(g: Setting<S, R>, th: Thread, s: S): S
    requires th.pc.Running?
  {
    if th.todo == [] then s else FileAfter(g.ex, s, Acts(th.todo[0], th.pc.k))
  }

  /** File `f` of the phase, when whole calls have left `base`. */
  ghost predicate FileIs<S, R>(g: Setting<S, R>, p: Phase<S, R>, base: map<string, S>, f: string)
    requires f in base && f in p.world.files
  {
    && ((forall t: nat :: !Executing(g, p, t, f)) ==> p.world.files[f] == base[f])
    && (forall t: nat :: Executing(g, p, t, f) ==> p.world.files[f] == Started(g, p.threads[t], base[f]))
  }

  ghost predicate Matches<S, R>(g: Setting<S, R>, p: Phase<S, R>, base: World<S, R>) {
    && p.world.files.Keys == base.files.Keys && p.world.results == base.results
    && forall f :: f in base.files ==> FileIs(g, p, base.files, f)
  }

  ghost predicate Whole<S, R>(g: Setting<S, R>, w: World<S, R>, p: Phase<S, R>) {
    && Covers(g.file, w, ThreadScript(g.ex, p.done))
    && Matches(g, p, Exec(g.ex, g.file, w, ThreadScript(g.ex, p.done)))
  }

  /** Only the thread that steps may start or stop executing. */
  lemma SteppingThread<S, R>(g: Setting<S, R>, p: Phase<S, R>, t: nat, u: nat, f: string)
    requires WellFormed(g, p) && CanStep(g, p, t) && u != t
    ensures Executing(g, Step(g, p, t), u, f) <==> Executing(g, p, u, f)
    ensures u < |p.threads| ==> u < |Step(g, p, t).threads| && Step(g, p, t).threads[u] == p.threads[u]
  {
  }

  /** Steps on the map leave the files alone; a thread that gets the lock has its file to itself. */
  lemma LockStepMatches<S, R>(g: Setting<S, R>, p: Phase<S, R>, t: nat, base: World<S, R>)
    requires WellFormed(g, p) && CanStep(g, p, t) && !p.threads[t].pc.Running? && Matches(g, p, base)
    ensures Matches(g, Step(g, p, t), base)
  {
    var p' := Step(g, p, t);
    StepKeepsForm(g, p, t);
    assert p'.world == p.world;
    hide Step, WellFormed, Acts;
    forall f | f in base.files ensures FileIs(g, p', base.files, f) {
      assert FileIs(g, p, base.files, f);
      LockStepFile(g, p, t, base.files, f);
    }
  }

  lemma LockStepFile<S, R>(g: Setting<S, R>, p: Phase<S, R>, t: nat, base: map<string, S>, f: string)
    requires WellFormed(g, p) && CanStep(g, p, t) && !p.threads[t].pc.Running?
    requires f in base && f in p.world.files && FileIs(g, p, base, f)
    ensures FileIs(g, Step(g, p, t), base, f)
  {
    var p' := Step(g, p, t);
    StepKeepsForm(g, p, t);
    if Executing(g, p', t, f) {
      assert p'.threads[t].pc == Running(0) && Started(g, p'.threads[t], base[f]) == base[f];
      hide Step, WellFormed, Started, CanStep;
      forall u: nat ensures !Executing(g, p, u, f) && (Executing(g, p', u, f) ==> u == t) {
        if u != t {
          SteppingThread(g, p, t, u, f);
          if Executing(g, p, u, f) { NoOverlap(g, p', t, u); }
        }
      }
    } else {
      hide Step, WellFormed, Started, CanStep;
      forall u: nat ensures Executing(g, p', u, f) <==> Executing(g, p, u, f) {
        if u != t { SteppingThread(g, p, t, u, f); }
      }
      forall u: nat | Executing(g, p', u, f) ensures p'.threads[u] == p.threads[u] { SteppingThread(g, p, t, u, f); }
    }
  }

  /** An atomic step of a call is one more step of it after the whole calls. */
  lemma ActMatches<S, R>(g: Setting<S, R>, p: Phase<S, R>, t: nat, base: World<S, R>)
    requires WellFormed(g, p) && CanStep(g, p, t) && Matches(g, p, base)
    requires p.threads[t].pc.Running? && p.threads[t].todo != [] && p.threads[t].pc.k < g.ex.steps(p.threads[t].todo[0])
    ensures Matches(g, Step(g, p, t), base)
  {
    assert ThreadOk(g, p, t);
    var p' := Step(g, p, t);
    hide WellFormed, Step, FileIs, CanStep;
    StepKeepsForm(g, p, t);
    var f := g.canon(p.threads[t].path);
    forall h | h in base.files ensures FileIs(g, p', base.files, h) {
      assert FileIs(g, p, base.files, h);
      if h == f { ActFile(g, p, t, base.files); } else { ActElsewhere(g, p, t, base.files, h); }
    }
    assert p'.world.results == p.world.results by { ActIs(g, p, t); }
  }

  lemma ActIs<S, R>(g: Setting<S, R>, p: Phase<S, R>, t: nat)
    requires WellFormed(g, p) && CanStep(g, p, t)
    requires p.threads[t].pc.Running? && p.threads[t].todo != [] && p.threads[t].pc.k < g.ex.steps(p.threads[t].todo[0])
    ensures var i, k, f := p.threads[t].todo[0], p.threads[t].pc.k, g.canon(p.threads[t].path);
            && f in p.world.files
            && Step(g, p, t).world == p.world.(files := p.world.files[f := g.ex.act(i, k, p.world.files[f])])
            && Step(g, p, t).threads == p.threads[t := p.threads[t].(pc := Running(k + 1))]
  {
    assert ThreadOk(g, p, t);
  }

  lemma ActFile<S, R>(g: Setting<S, R>, p: Phase<S, R>, t: nat, base: map<string, S>)
    requires WellFormed(g, p) && CanStep(g, p, t)
    requires p.threads[t].pc.Running? && p.threads[t].todo != [] && p.threads[t].pc.k < g.ex.steps(p.threads[t].todo[0])
    requires var f := g.canon(p.threads[t].path); f in base && f in p.world.files && FileIs(g, p, base, f)
    ensures var f := g.canon(p.threads[t].path);
            f in Step(g, p, t).world.files && FileIs(g, Step(g, p, t), base, f)
  {
    var p', f := Step(g, p, t), g.canon(p.threads[t].path);
    hide WellFormed, Step, CanStep, FileAfter, Acts;
    ActIs(g, p, t);
    OneMoreAct(g.ex, base[f], p.threads[t].todo[0], p.threads[t].pc.k);
    assert Executing(g, p, t, f) && p.world.files[f] == Started(g, p.threads[t], base[f]);
    assert p'.world.files[f] == Started(g, p'.threads[t], base[f]);
    forall u: nat ensures Executing(g, p', u, f) <==> u == t {
      if u != t && Executing(g, p, u, f) { NoOverlap(g, p, t, u); }
    }
    assert Executing(g, p', t, f);
    hide Executing, Started;
  }

  lemma ActElsewhere<S, R>(g: Setting<S, R>, p: Phase<S, R>, t: nat, base: map<string, S>, h: string)
    requires WellFormed(g, p) && CanStep(g, p, t) && h != g.canon(p.threads[t].path)
    requires p.threads[t].pc.Running? && p.threads[t].todo != [] && p.threads[t].pc.k < g.ex.steps(p.threads[t].todo[0])
    requires h in base && h in p.world.files && FileIs(g, p, base, h)
    ensures h in Step(g, p, t).world.files && FileIs(g, Step(g, p, t), base, h)
  {
    var p' := Step(g, p, t);
    hide WellFormed, Step, CanStep, Started;
    ActIs(g, p, t);
    forall u: nat ensures Executing(g, p', u, h) <==> Executing(g, p, u, h) {}
  }

  /** A call that answers joins the whole calls. */
  lemma FinishIs<S, R>(g: Setting<S, R>, p: Phase<S, R>, t: nat)
    requires WellFormed(g, p) && CanStep(g, p, t)
    requires p.threads[t].pc.Running? && p.threads[t].todo != [] && p.threads[t].pc.k >= g.ex.steps(p.threads[t].todo[0])
    ensures var i, f := p.threads[t].todo[0], g.canon(p.threads[t].path);
            && f in p.world.files && g.file(i) == f && p.threads[t].pc.k == g.ex.steps(i)
            && Step(g, p, t).world.files == p.world.files
            && Step(g, p, t).world.results == p.world.results[i := g.ex.out(i, p.world.files[f])]
            && Step(g, p, t).threads == p.threads[t := p.threads[t].(pc := Answered)]
            && Step(g, p, t).done == p.done + [i]
  {
    assert ThreadOk(g, p, t);
  }

  lemma FinishMatches<S, R>(g: Setting<S, R>, p: Phase<S, R>, t: nat, base: World<S, R>)
    requires WellFormed(g, p) && CanStep(g, p, t) && Matches(g, p, base)
    requires p.threads[t].pc.Running? && p.threads[t].todo != [] && p.threads[t].pc.k >= g.ex.steps(p.threads[t].todo[0])
    ensures Covers(g.file, base, CallScript(g.ex, p.threads[t].todo[0]))
    ensures Matches(g, Step(g, p, t), Exec(g.ex, g.file, base, CallScript(g.ex, p.threads[t].todo[0])))
  {
    var p', i, f := Step(g, p, t), p.threads[t].todo[0], g.canon(p.threads[t].path);
    hide *;
    FinishIs(g, p, t);
    MatchesKeys(g, p, base);
    ExecCall(g.ex, g.file, base, i);
    var base' := Exec(g.ex, g.file, base, CallScript(g.ex, i));
    FinishAnswer(g, p, t, base);
    forall h | h in base'.files ensures FileIs(g, p', base'.files, h) { FinishFile(g, p, t, base, base'.files, h); }
    MatchesIf(g, p', base');
  }

  lemma MatchesKeys<S, R>(g: Setting<S, R>, p: Phase<S, R>, base: World<S, R>)
    requires Matches(g, p, base)
    ensures p.world.files.Keys == base.files.Keys && p.world.results == base.results
    ensures forall h :: h in base.files <==> h in p.world.files
  {
    assert forall h :: h in base.files.Keys <==> h in p.world.files.Keys;
  }

  lemma MatchesIf<S, R>(g: Setting<S, R>, p: Phase<S, R>, base: World<S, R>)
    requires p.world.files.Keys == base.files.Keys && p.world.results == base.results
    requires forall f :: f in base.files ==> f in p.world.files && FileIs(g, p, base.files, f)
    ensures Matches(g, p, base)
  {
  }

  /** A call that answers has taken all its steps after the whole calls. */
  lemma FinishAnswer<S, R>(g: Setting<S, R>, p: Phase<S, R>, t: nat, base: World<S, R>)
    requires WellFormed(g, p) && CanStep(g, p, t) && Matches(g, p, base)
    requires p.threads[t].pc.Running? && p.threads[t].todo != [] && p.threads[t].pc.k >= g.ex.steps(p.threads[t].todo[0])
    ensures var i, f := p.threads[t].todo[0], g.canon(p.threads[t].path);
            f in base.files && f in p.world.files && p.world.files[f] == FileAfter(g.ex, base.files[f], Acts(i, g.ex.steps(i)))
  {
    var f := g.canon(p.threads[t].path);
    hide WellFormed, Step, CanStep, FileAfter, Acts;
    FinishIs(g, p, t);
    assert Executing(g, p, t, f) && FileIs(g, p, base.files, f);
  }

  lemma FinishFile<S, R>(g: Setting<S, R>, p: Phase<S, R>, t: nat, base: World<S, R>, base': map<string, S>, h: string)
    requires WellFormed(g, p) && CanStep(g, p, t) && Matches(g, p, base) && h in base.files
    requires p.threads[t].pc.Running? && p.threads[t].todo != [] && p.threads[t].pc.k >= g.ex.steps(p.threads[t].todo[0])
    requires var f := g.canon(p.threads[t].path);
             f in base.files && f in p.world.files && base' == base.files[f := p.world.files[f]]
    ensures h in base' && h in Step(g, p, t).world.files && FileIs(g, Step(g, p, t), base', h)
  {
    var p', f := Step(g, p, t), g.canon(p.threads[t].path);
    hide WellFormed, Step, CanStep, Started;
    FinishIs(g, p, t);
    assert FileIs(g, p, base.files, h);
    forall u: nat ensures Executing(g, p', u, h) <==> Executing(g, p, u, h) && h != f {
      if u != t && h == f && Executing(g, p, u, f) { NoOverlap(g, p, t, u); }
    }
  }

  // ---------- whole runs ----------

  lemma StepIsWhole<S, R>(g: Setting<S, R>, w: World<S, R>, p: Phase<S, R>, t: nat)
    requires WellFormed(g, p) && CanStep(g, p, t) && Whole(g, w, p)
    ensures Whole(g, w, Step(g, p, t))
  {
    assert ThreadOk(g, p, t);
    var th := p.threads[t];
    var base := Exec(g.ex, g.file, w, ThreadScript(g.ex, p.done));
    var p' := Step(g, p, t);
    hide WellFormed, Exec, Matches, ThreadScript;
    if !th.pc.Running? {
      LockStepMatches(g, p, t, base);
      assert p'.done == p.done;
    } else if th.pc.k < g.ex.steps(th.todo[0]) {
      ActMatches(g, p, t, base);
      assert p'.done == p.done;
    } else {
      FinishMatches(g, p, t, base);
      FinishIs(g, p, t);
      AppendCall(g, w, p.done, th.todo[0]);
    }
  }

  lemma AppendCall<S, R>(g: Setting<S, R>, w: World<S, R>, done: seq<nat>, i: nat)
    requires Covers(g.file, w, ThreadScript(g.ex, done))
    requires Covers(g.file, Exec(g.ex, g.file, w, ThreadScript(g.ex, done)), CallScript(g.ex, i))
    ensures Covers(g.file, w, ThreadScript(g.ex, done + [i]))
    ensures Exec(g.ex, g.file, w, ThreadScript(g.ex, done + [i]))
         == Exec(g.ex, g.file, Exec(g.ex, g.file, w, ThreadScript(g.ex, done)), CallScript(g.ex, i))
  {
    assert (done + [i])[..|done + [i]| - 1] == done;
    ExecKeys(g.ex, g.file, w, ThreadScript(g.ex, done));
    hide Exec, CallScript;
    ExecConcat(g.ex, g.file, w, ThreadScript(g.ex, done), CallScript(g.ex, i));
  }

  // ---------- the order of the whole calls ----------

  /** The calls a thread has not answered. */
  function Rest(th: Thread): seq<nat> {
    if (th.pc.Answered? || th.pc.Released?) && th.todo != [] then th.todo[1..] else th.todo
  }

  function Rests(ths: seq<Thread>): seq<seq<nat>> {
    seq(|ths|, k requires 0 <= k < |ths| => Rest(ths[k]))
  }

  /** Answering the remaining calls in any order that keeps the threads continues such an order of `all`. */
  ghost predicate Continues(done: seq<nat>, rests: seq<seq<nat>>, all: seq<seq<nat>>) {
    forall tail :: Interleaves(tail, rests) ==> Interleaves(done + tail, all)
  }

  lemma StepContinues<S, R>(g: Setting<S, R>, p: Phase<S, R>, t: nat, all: seq<seq<nat>>)
    requires WellFormed(g, p) && CanStep(g, p, t) && Continues(p.done, Rests(p.threads), all)
    ensures Continues(Step(g, p, t).done, Rests(Step(g, p, t).threads), all)
  {
    assert ThreadOk(g, p, t);
    var th := p.threads[t];
    hide *;
    if th.pc.Running? && th.pc.k >= g.ex.steps(th.todo[0]) {
      FinishIs(g, p, t);
      RestsAdvance(p.threads, t);
      TakeOne(p.done, th.todo[0], Rests(p.threads), t, all);
    } else {
      SameRests(g, p, t);
    }
  }

  lemma RestsAdvance(ths: seq<Thread>, t: nat)
    requires t < |ths| && ths[t].pc.Running? && ths[t].todo != []
    ensures t < |Rests(ths)| && Rests(ths)[t] == ths[t].todo
    ensures Rests(ths[t := ths[t].(pc := Answered)]) == Advance(Rests(ths), t)
  {
  }

  lemma TakeOne(done: seq<nat>, i: nat, rests: seq<seq<nat>>, t: nat, all: seq<seq<nat>>)
    requires t < |rests| && rests[t] != [] && rests[t][0] == i && Continues(done, rests, all)
    ensures Continues(done + [i], Advance(rests, t), all)
  {
    hide Interleaves;
    forall tail | Interleaves(tail, Advance(rests, t)) ensures Interleaves(done + [i] + tail, all) {
      assert ([i] + tail)[1..] == tail;
      OneMoreEvent([i] + tail, rests, t);
      assert done + [i] + tail == done + ([i] + tail);
    }
  }

  lemma OneMoreEvent<E>(tr: seq<E>, ths: seq<seq<E>>, k: nat)
    requires Takes(tr, ths, k) && Interleaves(tr[1..], Advance(ths, k))
    ensures Interleaves(tr, ths)
  {
  }

  lemma SameRests<S, R>(g: Setting<S, R>, p: Phase<S, R>, t: nat)
    requires WellFormed(g, p) && CanStep(g, p, t)
    requires p.threads[t].pc.Running? && p.threads[t].todo != [] ==> p.threads[t].pc.k < g.ex.steps(p.threads[t].todo[0])
    ensures Rests(Step(g, p, t).threads) == Rests(p.threads) && Step(g, p, t).done == p.done
  {
    assert ThreadOk(g, p, t);
    hide Locks.Apply, Locks.Enabled, Rests, DoOn;
    var th := p.threads[t];
    RestsReplaced(p.threads, t, Step(g, p, t).threads[t]);
  }

  lemma RestsReplaced(ths: seq<Thread>, t: nat, th: Thread)
    requires t < |ths| && Rest(th) == Rest(ths[t])
    ensures Rests(ths[t := th]) == Rests(ths)
  {
  }

  // ---------- whole runs ----------

  /** The phase before any thread has moved; other tasks may use the map, under other numbers. */
  ghost predicate Fresh<S, R>(g: Setting<S, R>, p: Phase<S, R>) {
    WellFormed(g, p) && p.done == [] && forall t :: 0 <= t < |p.threads| ==> p.threads[t].pc.Idle?
  }

  /** `sched` says which thread takes each step. */
  ghost predicate Runnable<S, R>(g: Setting<S, R>, p: Phase<S, R>, sched: seq<nat>)
    requires WellFormed(g, p)
    decreases |sched|
  {
    sched == [] ||
    (CanStep(g, p, sched[0]) &&
     (StepKeepsForm(g, p, sched[0]); Runnable(g, Step(g, p, sched[0]), sched[1..])))
  }

  ghost function After<S, R>(g: Setting<S, R>, p: Phase<S, R>, sched: seq<nat>): Phase<S, R>
    requires WellFormed(g, p) && Runnable(g, p, sched)
    decreases |sched|
  {
    if sched == [] then p
    else StepKeepsForm(g, p, sched[0]); After(g, Step(g, p, sched[0]), sched[1..])
  }

  lemma {:induction false} RunIsWhole<S, R>(
    g: Setting<S, R>, w: World<S, R>, p: Phase<S, R>, sched: seq<nat>, all: seq<seq<nat>>)
    requires WellFormed(g, p) && Runnable(g, p, sched) && Whole(g, w, p) && Continues(p.done, Rests(p.threads), all)
    ensures var p' := After(g, p, sched);
            WellFormed(g, p') && Whole(g, w, p') && Continues(p'.done, Rests(p'.threads), all)
    decreases |sched|
  {
    if sched != [] {
      var t := sched[0];
      hide WellFormed, CanStep, Step, Whole, Continues;
      StepKeepsForm(g, p, t);
      StepIsWhole(g, w, p, t);
      StepContinues(g, p, t, all);
      RunIsWhole(g, w, Step(g, p, t), sched[1..], all);
    }
  }

  lemma FreshIsWhole<S, R>(g: Setting<S, R>, p: Phase<S, R>)
    requires Fresh(g, p)
    ensures Whole(g, p.world, p) && Continues(p.done, Rests(p.threads), Rests(p.threads))
  {
    forall tail | Interleaves(tail, Rests(p.threads)) ensures Interleaves(p.done + tail, Rests(p.threads)) {
      assert p.done + tail == tail;
    }
    assert Exec(g.ex, g.file, p.world, ThreadScript(g.ex, p.done)) == p.world;
    forall f | f in p.world.files ensures FileIs(g, p, p.world.files, f) {
      forall t: nat ensures !Executing(g, p, t, f) {}
    }
  }

  /** The threads of the phase before they move. */
  ghost function Todos(ths: seq<Thread>): seq<seq<nat>> {
    seq(|ths|, k requires 0 <= k < |ths| => ths[k].todo)
  }

  /** Threads `t` and `u` are between lock and release of calls on one file. */
  predicate BusyOnOneFile<S, R>(g: Setting<S, R>, p: Phase<S, R>, t: nat, u: nat) {
    && t < |p.threads| && u < |p.threads| && Busy(p.threads[t]) && Busy(p.threads[u])
    && g.canon(p.threads[t].path) == g.canon(p.threads[u].path)
  }

  /** The calls `cs`, each run whole, one after the other, lead from `w` to `w'`. */
  ghost predicate Leaves<S, R>(g: Setting<S, R>, w: World<S, R>, cs: seq<nat>, w': World<S, R>) {
    Covers(g.file, w, ThreadScript(g.ex, cs)) && w' == Exec(g.ex, g.file, w, ThreadScript(g.ex, cs))
  }

  /**
    Every run of the phase, under every schedule and whatever paths name one file: at no time
    do calls on one file overlap, and at the end the files and results are those of the whole
    calls one after the other, in an order that keeps the order of each thread.
   */
  lemma LockedPhaseIsSerializable<S, R>(g: Setting<S, R>, p: Phase<S, R>, sched: seq<nat>)
    requires Fresh(g, p) && Runnable(g, p, sched)
    ensures var p' := After(g, p, sched);
            && (forall t, u :: BusyOnOneFile(g, p', t, u) ==> t == u)
            && (AllDone(p') ==> Interleaves(p'.done, Todos(p.threads)) && Leaves(g, p.world, p'.done, p'.world))
  {
    var p' := After(g, p, sched);
    assert Todos(p.threads) == Rests(p.threads);
    FreshIsWhole(g, p);
    hide WellFormed, Runnable, After, Continues;
    RunIsWhole(g, p.world, p, sched, Rests(p.threads));
    forall t, u | BusyOnOneFile(g, p', t, u) ensures t == u { NoOverlap(g, p', t, u); }
    if AllDone(p') { DoneIsExec(g, p.world, p', Rests(p.threads)); }
  }

  lemma DoneIsExec<S, R>(g: Setting<S, R>, w: World<S, R>, p: Phase<S, R>, all: seq<seq<nat>>)
    requires AllDone(p) && Whole(g, w, p) && Continues(p.done, Rests(p.threads), all)
    ensures Interleaves(p.done, all) && Leaves(g, w, p.done, p.world)
  {
    assert Interleaves([], Rests(p.threads));
    assert p.done + [] == p.done;
    var base := Exec(g.ex, g.file, w, ThreadScript(g.ex, p.done));
    hide Exec, ThreadScript, Interleaves;
    forall f | f in base.files ensures p.world.files[f] == base.files[f] {
      assert FileIs(g, p, base.files, f);
      forall t: nat ensures !Executing(g, p, t, f) {}
    }
    assert p.world.files == base.files;
  }

  // ---------- every run ends ----------

  /** The steps that calls take: lookup, lock, their own, answer, release and cleanup. */
  function Cost<S, R>(ex: Executor<S, R>, cs: seq<nat>): nat {
    if cs == [] then 0 else ex.steps(cs[0]) + 5 + Cost(ex, cs[1..])
  }

  /** The steps the current call has taken. */
  function Taken<S, R>(ex: Executor<S, R>, th: Thread): nat {
    match th.pc
    case Idle => 0
    case Waiting => 1
    case Running(k) => 2 + k
    case Answered => if th.todo == [] then 0 else ex.steps(th.todo[0]) + 3
    case Released => if th.todo == [] then 0 else ex.steps(th.todo[0]) + 4
  }

  function StepsLeft<S, R>(ex: Executor<S, R>, ths: seq<Thread>): int {
    if ths == [] then 0 else Cost(ex, ths[0].todo) - Taken(ex, ths[0]) + StepsLeft(ex, ths[1..])
  }

  lemma {:induction false} StepsLeftReplaced<S, R>(ex: Executor<S, R>, ths: seq<Thread>, t: nat, th: Thread)
    requires t < |ths|
    ensures StepsLeft(ex, ths[t := th]) == StepsLeft(ex, ths)
         + (Cost(ex, th.todo) - Taken(ex, th)) - (Cost(ex, ths[t].todo) - Taken(ex, ths[t]))
  {
    var ths' := ths[t := th];
    if t == 0 {
      assert ths'[1..] == ths[1..];
    } else {
      assert ths'[1..] == ths[1..][t - 1 := th];
      StepsLeftReplaced(ex, ths[1..], t - 1, th);
    }
  }

  /** Each step is one of the steps that are left. */
  lemma StepCounts<S, R>(g: Setting<S, R>, p: Phase<S, R>, t: nat)
    requires WellFormed(g, p) && CanStep(g, p, t)
    ensures StepsLeft(g.ex, Step(g, p, t).threads) == StepsLeft(g.ex, p.threads) - 1
    ensures |Step(g, p, t).threads| == |p.threads|
    ensures forall u :: u >= |p.threads| && Locks.Holds(Step(g, p, t).mutex, u) ==> Locks.Holds(p.mutex, u)
  {
    StepTakesOne(g, p, t);
    StepsLeftReplaced(g.ex, p.threads, t, Step(g, p, t).threads[t]);
    hide StepsLeft, Cost, Taken, Locks.Consistent, Locks.Current;
    StepReplaces(g, p, t);
  }

  lemma StepReplaces<S, R>(g: Setting<S, R>, p: Phase<S, R>, t: nat)
    requires WellFormed(g, p) && CanStep(g, p, t)
    ensures t < |Step(g, p, t).threads| && Step(g, p, t).threads == p.threads[t := Step(g, p, t).threads[t]]
    ensures forall u :: u >= |p.threads| && Locks.Holds(Step(g, p, t).mutex, u) ==> Locks.Holds(p.mutex, u)
  {
    assert ThreadOk(g, p, t);
    hide Locks.Consistent, Locks.Current;
  }

  lemma StepTakesOne<S, R>(g: Setting<S, R>, p: Phase<S, R>, t: nat)
    requires WellFormed(g, p) && CanStep(g, p, t)
    ensures t < |Step(g, p, t).threads|
    ensures var th, th' := p.threads[t], Step(g, p, t).threads[t];
            Cost(g.ex, th'.todo) - Taken(g.ex, th') == Cost(g.ex, th.todo) - Taken(g.ex, th) - 1
  {
    assert ThreadOk(g, p, t);
    hide Locks.Consistent, Locks.Current, Locks.Apply, Locks.Enabled, DoOn;
  }

  /** No thread has taken more steps than its calls have, and only a finished one as many. */
  ghost predicate InBudget<S, R>(ex: Executor<S, R>, ths: seq<Thread>) {
    forall k :: 0 <= k < |ths| ==>
      && Taken(ex, ths[k]) <= Cost(ex, ths[k].todo)
      && (Taken(ex, ths[k]) == Cost(ex, ths[k].todo) <==> ths[k].pc.Idle? && ths[k].todo == [])
  }

  lemma WellFormedInBudget<S, R>(g: Setting<S, R>, p: Phase<S, R>)
    requires WellFormed(g, p)
    ensures InBudget(g.ex, p.threads)
  {
    hide Locks.Consistent, Locks.Current;
    forall k | 0 <= k < |p.threads|
      ensures Taken(g.ex, p.threads[k]) <= Cost(g.ex, p.threads[k].todo)
      ensures Taken(g.ex, p.threads[k]) == Cost(g.ex, p.threads[k].todo) <==> p.threads[k].pc.Idle? && p.threads[k].todo == []
    {
      assert ThreadOk(g, p, k);
    }
  }

  lemma {:induction false} LeftIsNat<S, R>(ex: Executor<S, R>, ths: seq<Thread>)
    requires InBudget(ex, ths)
    ensures StepsLeft(ex, ths) >= 0
    ensures StepsLeft(ex, ths) == 0 <==> forall k :: 0 <= k < |ths| ==> ths[k].pc.Idle? && ths[k].todo == []
  {
    if ths != [] {
      assert InBudget(ex, ths[1..]);
      hide InBudget, Cost, Taken;
      LeftIsNat(ex, ths[1..]);
      assert (forall k :: 0 <= k < |ths| ==> ths[k].pc.Idle? && ths[k].todo == [])
        <==> ths[0].pc.Idle? && ths[0].todo == [] && forall k :: 0 <= k < |ths[1..]| ==> ths[1..][k].pc.Idle? && ths[1..][k].todo == [] by
      {
        assert forall k :: 0 <= k < |ths[1..]| ==> ths[1..][k] == ths[k + 1];
        assert forall k :: 0 < k < |ths| ==> ths[k] == ths[1..][k - 1];
      }
      BudgetAt(ex, ths, 0);
    }
  }

  lemma BudgetAt<S, R>(ex: Executor<S, R>, ths: seq<Thread>, k: nat)
    requires InBudget(ex, ths) && k < |ths|
    ensures Taken(ex, ths[k]) <= Cost(ex, ths[k].todo)
    ensures Taken(ex, ths[k]) == Cost(ex, ths[k].todo) <==> ths[k].pc.Idle? && ths[k].todo == []
  {
  }

  lemma {:induction false} RunCounts<S, R>(g: Setting<S, R>, p: Phase<S, R>, sched: seq<nat>)
    requires WellFormed(g, p) && Runnable(g, p, sched)
    ensures WellFormed(g, After(g, p, sched)) && |After(g, p, sched).threads| == |p.threads|
    ensures |sched| + StepsLeft(g.ex, After(g, p, sched).threads) == StepsLeft(g.ex, p.threads)
    ensures forall u :: u >= |p.threads| && Locks.Holds(After(g, p, sched).mutex, u) ==> Locks.Holds(p.mutex, u)
    decreases |sched|
  {
    if sched != [] {
      hide WellFormed, CanStep, Step, StepsLeft, Locks.Holds;
      StepKeepsForm(g, p, sched[0]);
      StepCounts(g, p, sched[0]);
      RunCounts(g, Step(g, p, sched[0]), sched[1..]);
    }
  }

  /**
    The phase always ends: a run that cannot go on has finished all calls, and it has then
    taken exactly the steps of its calls. Only a lock held by somebody else can stop it.
   */
  lemma EveryRunEnds<S, R>(g: Setting<S, R>, p: Phase<S, R>, sched: seq<nat>)
    requires Fresh(g, p) && Runnable(g, p, sched) && forall u: nat :: Locks.Holds(p.mutex, u) ==> u < |p.threads|
    ensures var p' := After(g, p, sched);
            && WellFormed(g, p')
            && ((exists t :: CanStep(g, p', t)) <==> !AllDone(p'))
            && |sched| <= StepsLeft(g.ex, p.threads)
            && (AllDone(p') <==> |sched| == StepsLeft(g.ex, p.threads))
  {
    var p' := After(g, p, sched);
    hide WellFormed, Runnable, After, CanStep, Locks.Holds;
    RunCounts(g, p, sched);
    forall u: nat | Locks.Holds(p'.mutex, u) ensures u < |p'.threads| {}
    NoDeadlock(g, p');
    WellFormedInBudget(g, p');
    LeftIsNat(g.ex, p'.threads);
  }

  // ---------- the phase of a batch ----------

  ghost function ThreadsOf(cfg: Config, calls: seq<Call>, order: seq<string>): seq<Thread> {
    var groups := FileGroups(cfg, calls, order);
    FilterGroupIs(cfg, calls, MutexByFile);
    GroupsAt(calls, FilterGroup(cfg, calls, MutexByFile), order, 0);
    seq(|order|, k requires 0 <= k < |order| => Thread(order[k], groups[k], Idle))
  }

  /** The phase of every batch starts fresh, on a map that is in order and new task numbers. */
  lemma BatchIsFresh<S, R>(cfg: Config, calls: seq<Call>, order: seq<string>, g: Setting<S, R>,
                           mutex: Locks.State, w: World<S, R>)
    requires Names(calls, g.file, g.canon, FilterGroup(cfg, calls, MutexByFile))
    requires forall i :: i in FilterGroup(cfg, calls, MutexByFile) ==> g.file(i) in w.files
    requires Locks.Consistent(mutex) && Locks.Current(mutex) && forall t :: t in mutex.tasks ==> t >= |order|
    ensures Fresh(g, Phase(mutex, w, ThreadsOf(cfg, calls, order), []))
    ensures Todos(ThreadsOf(cfg, calls, order)) == FileGroups(cfg, calls, order)
  {
    var list := FilterGroup(cfg, calls, MutexByFile);
    FilterGroupIs(cfg, calls, MutexByFile);
    GroupsAt(calls, list, order, 0);
    var ths := ThreadsOf(cfg, calls, order);
    var p := Phase(mutex, w, ths, []);
    hide FilterGroup, Locks.Consistent, Locks.Current, Groups;
    forall t | 0 <= t < |ths| ensures ThreadOk(g, p, t) {
      GroupsAt(calls, list, order, t);
      CallsOfPath(calls, g.file, g.canon, list, order[t]);
    }
  }

  /** The calls of a path are mutex calls on the file it names. */
  lemma CallsOfPath(calls: seq<Call>, file: nat -> string, canon: string -> string, list: seq<nat>, path: string)
    requires Ascending(list) && Names(calls, file, canon, list)
    ensures forall i :: i in OnFile(calls, list, path) ==> i in list && file(i) == canon(path)
  {
    OnFileIs(calls, list, path);
    forall i | i in OnFile(calls, list, path) ensures i in list && file(i) == canon(path) {
      var b :| 0 <= b < |list| && list[b] == i;
    }
  }

  /** For every batch: the locked phase leaves what some order of its whole calls leaves. */
  lemma BatchIsSerializable<S, R>(cfg: Config, calls: seq<Call>, order: seq<string>, g: Setting<S, R>,
                                  mutex: Locks.State, w: World<S, R>, sched: seq<nat>)
    requires Names(calls, g.file, g.canon, FilterGroup(cfg, calls, MutexByFile))
    requires forall i :: i in FilterGroup(cfg, calls, MutexByFile) ==> g.file(i) in w.files
    requires Locks.Consistent(mutex) && Locks.Current(mutex) && forall t :: t in mutex.tasks ==> t >= |order|
    requires var p := Phase(mutex, w, ThreadsOf(cfg, calls, order), []);
             && WellFormed(g, p) && Runnable(g, p, sched) && AllDone(After(g, p, sched))
    ensures var p' := After(g, Phase(mutex, w, ThreadsOf(cfg, calls, order), []), sched);
            exists cs :: Interleaves(cs, FileGroups(cfg, calls, order)) && Leaves(g, w, cs, p'.world)
  {
    hide FilterGroup, Locks.Consistent, Locks.Current, FileGroups, ThreadsOf, AllDone, Runnable, After;
    BatchIsFresh(cfg, calls, order, g, mutex, w);
    LockedPhaseIsSerializable(g, Phase(mutex, w, ThreadsOf(cfg, calls, order), []), sched);
  }
}
