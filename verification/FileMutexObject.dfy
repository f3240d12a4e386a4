/**
  `FileMutexMap` with its fields: each method is the code between two points where the task
  can be suspended, and takes one step of the protocol in module FileMutex.
 */
module FileMutexObject {
  import opened FileMutex

  class FileMutexMap {
    const canon: string -> string
    var inner: map<string, Mutex>
    var strong: map<Mutex, nat>
    var locked: set<Mutex>
    var tasks: map<Task, Ref>
    ghost var pending: map<Task, string>
    var next: Mutex

    ghost function View(): State
      reads this
    {
      State(inner, strong, locked, tasks, pending, next)
    }

    /** Every clone is of the mutex in the map, so no path has two holders. */
    ghost predicate Safe()
      reads this
    {
      Consistent(View()) && Current(View())
    }

    constructor (canon: string -> string)
      ensures Safe() && View() == INIT && this.canon == canon
    {
      this.canon := canon;
      inner, strong, locked, tasks, pending, next := map[], map[], {}, map[], map[], 0;
      new;
      InitIsSafe();
    }

    /** `acquire` up to the lock: find or insert the entry and clone its mutex. */
    method EnterAcquire(t: Task, path: string)
      requires Safe() && t !in tasks
      modifies this
      ensures Safe() && View() == Apply(canon, old(View()), Lookup(t, path))
      ensures t in tasks && tasks[t].key == canon(path) && canon(path) in inner && !tasks[t].held
    {
      hide Consistent, Current;
      StepKeeps(canon, View(), Lookup(t, path));
      var key := canon(path);
      if key !in inner {
        inner := inner[key := next];
        strong := strong[next := 1];
        next := next + 1;
      }
      var m := inner[key];
      strong := strong[m := (if m in strong then strong[m] else 0) + 1];
      tasks := tasks[t := Ref(key, m, false)];
      assert View() == Apply(canon, old(View()), Lookup(t, path));
    }

    /** The lock is granted to one of the tasks that wait for it. */
    method FinishAcquire(t: Task)
      requires Safe() && Enabled(View(), Lock(t))
      modifies this
      ensures Safe() && View() == Apply(canon, old(View()), Lock(t))
      ensures Holds(View(), t)
      ensures forall u :: Holds(View(), u) && tasks[u].key == tasks[t].key ==> u == t
    {
      hide Counts, Labels;
      StepKeeps(canon, View(), Lock(t));
      locked := locked + {tasks[t].mutex};
      tasks := tasks[t := tasks[t].(held := true)];
      CurrentIsExclusive(View());
    }

    /** Dropping the guard, or abandoning a wait. */
    method DropGuard(t: Task)
      requires Safe() && t in tasks
      modifies this
      ensures Safe()
      ensures View() == Apply(canon, old(View()), if old(tasks[t].held) then Release(t) else GiveUp(t))
      ensures t !in tasks
    {
      hide Consistent, Current;
      StepKeeps(canon, View(), if tasks[t].held then Release(t) else GiveUp(t));
      var r := tasks[t];
      if r.held { locked := locked - {r.mutex}; }
      var c := if r.mutex in strong then strong[r.mutex] else 0;
      strong := strong[r.mutex := if c == 0 then 0 else c - 1];
      tasks := tasks - {t};
    }

    /** Takes the lock at once, or reports that another task holds the same file. */
    method TryAcquire(t: Task, path: string) returns (acquired: bool)
      requires Safe() && t !in tasks
      modifies this
      ensures Safe()
      ensures acquired <==> !exists u :: Holds(old(View()), u) && old(tasks)[u].key == canon(path)
      ensures acquired ==> Holds(View(), t) && tasks[t].key == canon(path)
      ensures !acquired ==> t !in tasks
      ensures tasks - {t} == old(tasks)
      ensures inner == if canon(path) in old(inner) then old(inner) else old(inner)[canon(path) := old(next)]
    {
      hide Consistent, Current;
      EnterAcquire(t, path);
      WaiterIsNeverStuck(View(), t);
      ghost var mid := View();
      assert forall u :: Holds(mid, u) <==> Holds(old(View()), u);
      assert forall u :: Holds(mid, u) ==> mid.tasks[u] == old(tasks)[u];
      acquired := tasks[t].mutex !in locked;
      if acquired {
        FinishAcquire(t);
      } else {
        DropGuard(t);
      }
    }

    /** Among futures of one task: nothing runs between the check and the removal. */
    method CleanupPath(path: string)
      requires Safe()
      modifies this
      ensures Safe() && View() == Apply(canon, old(View()), Cleanup(path))
      ensures tasks == old(tasks)
      ensures canon(path) in inner <==>
        canon(path) in old(inner) && exists t :: t in tasks && tasks[t].key == canon(path)
    {
      StepKeeps(canon, View(), Cleanup(path));
      var key := canon(path);
      if key in inner {
        UnreferencedIff(View(), key);
        var m := inner[key];
        var c := if m in strong then strong[m] else 0;
        if c == 1 {
          inner := inner - {key};
          strong := strong[m := 0];
        } else {
          assert exists t :: t in tasks && tasks[t].mutex == m;
        }
      }
    }
  }
}
