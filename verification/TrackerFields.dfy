/**
  What the document trackers promise about records, field by field: which keys are reported,
  and what the last record of a key holds after a check (`scripts/_tracker_core.py`,
  `scripts/tracker-next.py`). Positions in the list of records are used throughout.
 */
module TrackerFields {
  import opened Wrappers
  import opened TrackerRecords

  datatype Env = Env(keyChanged: (string, string) -> bool, mergeBase: string -> Option<string>,
                     committerDate: string -> string, now: string -> string)

  /** `i` is the position of the last record with the key `k`. */
  predicate IsLastOf(recs: seq<Rec>, k: string, i: int) {
    0 <= i < |recs| && recs[i].key == k && forall j :: i < j < |recs| ==> recs[j].key != k
  }

  /** The merge base, if git gives one, else the commit on record. */
  predicate IsNewCommit(env: Env, k: string, was: string, commit: string) {
    match env.mergeBase(k)
    case None => commit == was
    case Some(base) => if base == "" then commit == was else commit == base
  }

  /** `b` is the record `a` of the key `k` after it has been unblocked. */
  predicate Refreshed(env: Env, k: string, a: Rec, b: Rec) {
    && b.key == a.key == k && b.comment == a.comment && b.blockedReason == ""
    && if a.commit == "" then b.commit == "" && b.commitTime == a.commitTime && b.confirmedTime == a.confirmedTime
       else && IsNewCommit(env, k, a.commit, b.commit)
            && b.commitTime == env.committerDate(b.commit) && b.confirmedTime == env.now(k)
  }

  /** A key to look at: it has no record, or its last one was never confirmed or is out of date. */
  ghost predicate NeedsLook(env: Env, recs: seq<Rec>, k: string) {
    forall j :: IsLastOf(recs, k, j) ==> recs[j].commit == "" || env.keyChanged(recs[j].commit, k)
  }

  /** What a check that saw `keys` leaves of the records, and what it reports. */
  ghost predicate CheckLeaves(env: Env, was: seq<Rec>, now: seq<Rec>, keys: seq<string>, reported: seq<string>) {
    && |now| == |was|
    && (forall k :: k in reported <==> k in keys && NeedsLook(env, was, k))
    && (forall k, i, j :: IsLastOf(was, k, i) && IsLastOf(now, k, j) ==>
          if k in reported && was[i].blockedReason != "" then Refreshed(env, k, was[i], now[j]) else now[j] == was[i])
  }

  /** At position `i` of `keys` the check reports; the record of a key met before may have a new commit. */
  ghost predicate ReportedAt(env: Env, recs: seq<Rec>, keys: seq<string>, i: nat)
    requires i < |keys|
  {
    var k := keys[i];
    forall j :: IsLastOf(recs, k, j) ==>
      || recs[j].commit == ""
      || (env.keyChanged(recs[j].commit, k)
          && (k in keys[..i] && recs[j].blockedReason != "" ==>
                forall commit :: IsNewCommit(env, k, recs[j].commit, commit) ==> env.keyChanged(commit, k)))
  }

  ghost function ReportFlags(env: Env, recs: seq<Rec>, keys: seq<string>): nat -> bool {
    (i: nat) => i < |keys| && ReportedAt(env, recs, keys, i)
  }

  ghost function LookFlags(env: Env, recs: seq<Rec>, keys: seq<string>): nat -> bool {
    (i: nat) => i < |keys| && NeedsLook(env, recs, keys[i])
  }

  // ---------- lists of selected positions ----------

  /** `ks` are the positions below `n` where `p` holds, in order. */
  ghost predicate Picks(ks: seq<nat>, n: nat, p: nat -> bool) {
    && (forall a, b :: 0 <= a < b < |ks| ==> ks[a] < ks[b])
    && (forall i: nat :: i in ks <==> i < n && p(i))
  }

  /** `list` has, in order, the value of every position below `n` where `p` holds. */
  ghost predicate Selects<T>(list: seq<T>, n: nat, p: nat -> bool, at: nat -> T) {
    exists ks :: Picks(ks, n, p) && |ks| == |list| && forall a :: 0 <= a < |ks| ==> list[a] == at(ks[a])
  }

  lemma SelectsNone<T>(p: nat -> bool, at: nat -> T)
    ensures Selects([], 0, p, at)
  {
    assert Picks([], 0, p);
  }

  lemma SelectsNext<T>(list: seq<T>, n: nat, p: nat -> bool, at: nat -> T)
    requires Selects(list, n, p, at)
    ensures Selects(if p(n) then list + [at(n)] else list, n + 1, p, at)
  {
    var ks :| Picks(ks, n, p) && |ks| == |list| && forall a :: 0 <= a < |ks| ==> list[a] == at(ks[a]);
    if p(n) {
      var more := ks + [n];
      forall a, b | 0 <= a < b < |more| ensures more[a] < more[b] {
        if b == |ks| { assert ks[a] in ks; }
      }
      assert Picks(more, n + 1, p);
    } else {
      assert Picks(ks, n + 1, p);
    }
  }

  function KeyAt(keys: seq<string>): nat -> string {
    (i: nat) => if i < |keys| then keys[i] else ""
  }

  predicate IsBlocked(recs: seq<Rec>, i: nat) {
    i < |recs| && recs[i].blockedReason != ""
  }

  function BlockedFlags(recs: seq<Rec>): nat -> bool {
    (i: nat) => IsBlocked(recs, i)
  }

  datatype Entry = Entry(key: string, text: string)

  /** A record with the reason why it is blocked. */
  function ReasonAt(recs: seq<Rec>): nat -> Entry {
    (i: nat) => if i < |recs| then Entry(recs[i].key, recs[i].blockedReason) else Entry("", "")
  }

  /** `entries` are the keys, each with the comment of its last record, if it has one. */
  ghost predicate AreAnnotated(recs: seq<Rec>, keys: seq<string>, entries: seq<Entry>) {
    && |entries| == |keys|
    && forall a :: 0 <= a < |keys| ==>
         && entries[a].key == keys[a]
         && (forall j :: IsLastOf(recs, keys[a], j) ==> entries[a].text == recs[j].comment)
         && ((forall j :: 0 <= j < |recs| ==> recs[j].key != keys[a]) ==> entries[a].text == "")
  }
}
