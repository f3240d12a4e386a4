/**
  Whole runs of `_do_collect`: any number of collections, with and without the cache, over
  a history that grows or is rewritten, with a lost or damaged cache file, a cached head
  that is no longer an ancestor, and any clock.
 */
module CollectorRuns {
  import opened Wrappers
  import opened CollectorModel
  import opened CacheChecks
  import opened CollectorIncremental
  import Walk = CollectorWalk

  /** One call of `_do_collect`: the log it reads and what the world answers. */
  datatype Event = Event(history: seq<Commit>, useCache: bool, fileLost: bool, headOk: bool, clock: Clock)

  /** The cache file, with the history and the day it was made from. */
  datatype Store = Store(file: Option<Result>, base: seq<Commit>, day: Day)

  ghost predicate CacheUsed(file: Option<Result>, ev: Event) {
    ev.useCache && !ev.fileLost && file.Some? && Acceptable(file.value) && ev.headOk
  }

  ghost function Outcome(git: Git, file: Option<Result>, ev: Event): Option<Result> {
    if CacheUsed(file, ev) then
      AcceptableIsUsable(file.value);
      Incremental(git, ev.history, file.value, ev.clock)
    else Some(Collect(git, ev.history, ev.clock.walk))
  }

  ghost function NextFile(git: Git, file: Option<Result>, ev: Event): Option<Result> {
    var r := Outcome(git, file, ev);
    if ev.useCache && r.Some? then r else file
  }

  class Collector {
    var file: Option<Result>

    constructor ()
      ensures file == None
    {
      file := None;
    }

    method DoCollect(git: Git, ev: Event) returns (r: Option<Result>)
      modifies this
      ensures r == Outcome(git, old(file), ev)
      ensures file == NextFile(git, old(file), ev)
      ensures !ev.useCache || ev.fileLost || old(file).None? || !ev.headOk ==> r == Some(Collect(git, ev.history, ev.clock.walk))
      ensures !ev.useCache ==> file == old(file)
      ensures ev.useCache ==> file == if r.Some? then r else old(file)
    {
      var cache: Option<Result> := None;
      if ev.useCache && !ev.fileLost && file.Some? {
        cache := LoadCache(file.value);
      }
      if cache.None? || !ev.headOk {
        var full := Walk.CollectHistory(git, ev.history, None, 0, None, ev.clock.walk);
        r := Some(full);
      } else {
        AcceptableIsUsable(cache.value);
        r := CollectIncremental(git, ev.history, cache.value, ev.clock);
      }
      if ev.useCache && r.Some? { file := r; }
    }
  }

  // ---------- what each call should return ----------

  /** The file holds the full collection of the history and day it was made from. */
  ghost predicate Fresh(git: Git, st: Store) {
    st.file.Some? ==> st.file.value == Collect(git, st.base, st.day)
  }

  /** An accepted head means the cached history is a prefix of the current one. */
  ghost predicate Linear(st: Store, ev: Event) {
    CacheUsed(st.file, ev) ==> st.base != [] && st.base <= ev.history
  }

  ghost function EndOf(git: Git, st: Store, ev: Event): Day
    requires Linear(st, ev)
  {
    if CacheUsed(st.file, ev) then EndReading(git, st.base, ev.history[|st.base|..], st.day, ev.clock)
    else ev.clock.walk
  }

  /** Whatever the call copies from the cache is unaffected by the commits since. */
  ghost predicate Harmless(git: Git, st: Store, ev: Event)
    requires Linear(st, ev)
  {
    CacheUsed(st.file, ev) ==>
      var ext := ev.history[|st.base|..];
      || ev.clock.entry < LastDay(st.base, st.day)
      || LateChurn(git, st.base, ext, st.day, ev.clock)
      || forall d :: Copied(st.base, st.day, ev.clock, d) ==> Unaffected(git, st.base, ext, d)
  }

  ghost predicate IsFull(git: Git, st: Store, ev: Event)
    requires Linear(st, ev)
  {
    Outcome(git, st.file, ev) == Some(Collect(git, ev.history, EndOf(git, st, ev)))
  }

  ghost function Next(git: Git, st: Store, ev: Event): Store
    requires Linear(st, ev)
  {
    if ev.useCache then Store(NextFile(git, st.file, ev), ev.history, EndOf(git, st, ev)) else st
  }

  // ---------- runs ----------

  ghost predicate AllLinear(git: Git, st: Store, evs: seq<Event>)
    decreases |evs|
  {
    evs != [] ==> Linear(st, evs[0]) && AllLinear(git, Next(git, st, evs[0]), evs[1..])
  }

  ghost predicate AllHarmless(git: Git, st: Store, evs: seq<Event>)
    requires AllLinear(git, st, evs)
    decreases |evs|
  {
    evs != [] ==> Harmless(git, st, evs[0]) && AllHarmless(git, Next(git, st, evs[0]), evs[1..])
  }

  /** Every call of the run returns the full collection of the history it was called on. */
  ghost predicate AllFull(git: Git, st: Store, evs: seq<Event>)
    requires AllLinear(git, st, evs)
    decreases |evs|
  {
    evs != [] ==> IsFull(git, st, evs[0]) && AllFull(git, Next(git, st, evs[0]), evs[1..])
  }

  ghost function After(git: Git, st: Store, evs: seq<Event>): Store
    requires AllLinear(git, st, evs)
    decreases |evs|
  {
    if evs == [] then st else After(git, Next(git, st, evs[0]), evs[1..])
  }

  lemma StepIsFull(git: Git, st: Store, ev: Event)
    requires Fresh(git, st) && Linear(st, ev)
    ensures IsFull(git, st, ev) <==> Harmless(git, st, ev)
    ensures IsFull(git, st, ev) ==> Fresh(git, Next(git, st, ev))
  {
    if CacheUsed(st.file, ev) {
      var ext := ev.history[|st.base|..];
      assert ev.history == st.base + ext;
      hide Incremental, Collect;
      IncrementalIsFull(git, st.base, ext, st.day, ev.clock);
    }
  }

  /**
    Over any run, every call returns the full collection if and only if no call copied an
    affected day; and then the file left behind is itself a full collection.
   */
  lemma {:induction false} RunIsFull(git: Git, st: Store, evs: seq<Event>)
    requires Fresh(git, st) && AllLinear(git, st, evs)
    ensures AllFull(git, st, evs) <==> AllHarmless(git, st, evs)
    ensures AllFull(git, st, evs) ==> Fresh(git, After(git, st, evs))
    decreases |evs|
  {
    if evs != [] {
      hide IsFull, Harmless, Next, Fresh;
      StepIsFull(git, st, evs[0]);
      if IsFull(git, st, evs[0]) {
        RunIsFull(git, Next(git, st, evs[0]), evs[1..]);
      }
    }
  }

  /** The last call that used the cache left the collection of its own history, and it will be accepted. */
  lemma RunLeavesAcceptedFile(git: Git, evs: seq<Event>, ev: Event)
    requires var st := Store(None, [], 0); AllLinear(git, st, evs) && AllHarmless(git, st, evs)
    requires var st := After(git, Store(None, [], 0), evs); Linear(st, ev) && Harmless(git, st, ev)
    requires ev.useCache
    ensures var st := After(git, Store(None, [], 0), evs);
            var file := NextFile(git, st.file, ev);
            && file == Some(Collect(git, ev.history, EndOf(git, st, ev)))
            && (Acceptable(file.value) <==> ev.history != [])
  {
    var st := After(git, Store(None, [], 0), evs);
    RunIsFull(git, Store(None, [], 0), evs);
    StepIsFull(git, st, ev);
    CollectionAccepted(git, ev.history, EndOf(git, st, ev));
  }
}
