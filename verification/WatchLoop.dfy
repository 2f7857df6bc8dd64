/** cmd/canvas/artifact_watch_loop.go: when the watcher syncs a directory. */
module WatchLoop {
  import opened Prelude

  datatype Stamp = Stamp(modTime: int, size: int)

  /** A snapshot that is nil in the program is the empty one. */
  type Snapshot = map<string, Stamp>

  datatype SyncResult = Synced | Invalid | Failed

  /** One tick: what was observed and when, and, should a sync be made, its result and its end. */
  datatype Tick = Tick(cur: Snapshot, now: int, result: SyncResult, after: int)

  const RETRY_TICKS := 10

  /** `snapshotsEqual`: equal sizes and one inclusion are equality. */
  method SnapshotsEqual(a: Snapshot, b: Snapshot) returns (equal: bool)
    ensures equal <==> a == b
  {
    if |a| != |b| {
      return false;
    }
    var left := a.Keys;
    while left != {}
      invariant left <= a.Keys
      invariant forall k :: k in a.Keys - left ==> k in b && b[k] == a[k]
    {
      var key :| key in left;
      left := left - {key};
      if key !in b || b[key] != a[key] {
        return false;
      }
    }
    assert a.Keys - left == a.Keys;
    SubsetOfEqualSize(a.Keys, b.Keys);
    return true;
  }

  // ----- The loop as a state machine -----

  datatype Watch = Watch(prev: Snapshot, lastHandled: Snapshot, retryAt: int, retryPending: bool)

  predicate Attempts(w: Watch, t: Tick) {
    t.cur == w.prev && (t.cur != w.lastHandled || (w.retryPending && t.now >= w.retryAt))
  }

  function Next(w: Watch, t: Tick, interval: int): Watch {
    if t.cur != w.prev then w.(prev := t.cur)
    else if !Attempts(w, t) then w
    else Watch(w.prev, t.cur, if t.result.Failed? then t.after + RETRY_TICKS * interval else w.retryAt, t.result.Failed?)
  }

  function StateAt(first: Snapshot, ticks: seq<Tick>, interval: int, i: nat): Watch
    requires i <= |ticks|
  {
    if i == 0 then Watch(first, map[], 0, false) else Next(StateAt(first, ticks, interval, i - 1), ticks[i - 1], interval)
  }

  /** The ticks, in order, at which a directory is synced. */
  function AttemptsUpTo(first: Snapshot, ticks: seq<Tick>, interval: int, i: nat): seq<nat>
    requires i <= |ticks|
  {
    if i == 0 then []
    else AttemptsUpTo(first, ticks, interval, i - 1)
         + if Attempts(StateAt(first, ticks, interval, i - 1), ticks[i - 1]) then [i - 1] else []
  }

  /** `runArtifactWatchLoop` over the ticks before it is cancelled or a snapshot fails. */
  method RunLoop(first: Snapshot, ticks: seq<Tick>, interval: int) returns (attempts: seq<nat>)
    ensures attempts == AttemptsUpTo(first, ticks, interval, |ticks|)
  {
    attempts := [];
    var prev, lastHandled: Snapshot, retryAt, retryPending := first, map[], 0, false;
    for i := 0 to |ticks|
      invariant Watch(prev, lastHandled, retryAt, retryPending) == StateAt(first, ticks, interval, i)
      invariant attempts == AttemptsUpTo(first, ticks, interval, i)
    {
      var cur := ticks[i].cur;
      var same := SnapshotsEqual(cur, prev);
      if !same {
        prev := cur;
        continue;
      }
      var handled := SnapshotsEqual(cur, lastHandled);
      var retryDue := retryPending && !(ticks[i].now < retryAt);
      if handled && !retryDue {
        continue;
      }
      lastHandled := cur;
      retryPending := false;
      attempts := attempts + [i];
      if ticks[i].result.Failed? {
        retryPending := true;
        retryAt := ticks[i].after + RETRY_TICKS * interval;
      }
    }
  }

  // ----- The loop as a rule about the past -----

  function Observed(first: Snapshot, ticks: seq<Tick>, i: nat): Snapshot
    requires i <= |ticks|
  {
    if i == 0 then first else ticks[i - 1].cur
  }

  /** The last tick before `i` that made a sync. */
  function LastSync(first: Snapshot, ticks: seq<Tick>, interval: int, i: nat): Option<nat>
    requires i <= |ticks|
    ensures var k := LastSync(first, ticks, interval, i);
            k.Some? ==> k.value < i && Syncs(first, ticks, interval, k.value)
    decreases i, 0
  {
    if i == 0 then None
    else if Syncs(first, ticks, interval, i - 1) then Some(i - 1)
    else LastSync(first, ticks, interval, i - 1)
  }

  /** Sync what has been seen twice running, unless the last sync was of the same snapshot; then
      only if it failed, other than by validation, ten intervals ago. */
  predicate Syncs(first: Snapshot, ticks: seq<Tick>, interval: int, i: nat)
    requires i < |ticks|
    decreases i, 1
  {
    && ticks[i].cur == Observed(first, ticks, i)
    && match LastSync(first, ticks, interval, i)
       case None => ticks[i].cur != map[]
       case Some(k) =>
         ticks[i].cur != ticks[k].cur ||
         (ticks[k].result.Failed? && ticks[i].now >= ticks[k].after + RETRY_TICKS * interval)
  }

  /** The four variables of the loop say no more of the past than the rule needs. */
  ghost predicate Remembers(w: Watch, first: Snapshot, ticks: seq<Tick>, interval: int, i: nat)
    requires i <= |ticks|
  {
    && w.prev == Observed(first, ticks, i)
    && match LastSync(first, ticks, interval, i)
       case None => w.lastHandled == map[] && !w.retryPending
       case Some(k) =>
         && w.lastHandled == ticks[k].cur && (w.retryPending <==> ticks[k].result.Failed?)
         && (w.retryPending ==> w.retryAt == ticks[k].after + RETRY_TICKS * interval)
  }

  lemma {:induction false} LoopRemembers(first: Snapshot, ticks: seq<Tick>, interval: int, i: nat)
    requires i <= |ticks|
    ensures Remembers(StateAt(first, ticks, interval, i), first, ticks, interval, i)
    decreases i
  {
    if i > 0 {
      LoopRemembers(first, ticks, interval, i - 1);
    }
  }

  /** The loop makes a sync exactly where the rule asks for one. */
  lemma {:induction false} LoopFollowsRule(first: Snapshot, ticks: seq<Tick>, interval: int, i: nat)
    requires i <= |ticks|
    ensures forall k :: k in AttemptsUpTo(first, ticks, interval, i) <==> 0 <= k < i && Syncs(first, ticks, interval, k)
    ensures Increasing(AttemptsUpTo(first, ticks, interval, i))
    decreases i
  {
    if i > 0 {
      LoopFollowsRule(first, ticks, interval, i - 1);
      LoopRemembers(first, ticks, interval, i - 1);
    }
    AttemptsIncrease(first, ticks, interval, i);
  }

  predicate Increasing(at: seq<nat>) {
    forall p, q :: 0 <= p < q < |at| ==> at[p] < at[q]
  }

  lemma {:induction false} AttemptsIncrease(first: Snapshot, ticks: seq<Tick>, interval: int, i: nat)
    requires i <= |ticks|
    ensures Increasing(AttemptsUpTo(first, ticks, interval, i))
    ensures forall p :: 0 <= p < |AttemptsUpTo(first, ticks, interval, i)| ==> AttemptsUpTo(first, ticks, interval, i)[p] < i
  {
    if i > 0 {
      AttemptsIncrease(first, ticks, interval, i - 1);
    }
  }

  // ----- What follows for whole runs -----

  lemma {:induction false} LastSyncIs(first: Snapshot, ticks: seq<Tick>, interval: int, i: nat, j: nat)
    requires i < j <= |ticks| && Syncs(first, ticks, interval, i)
    requires forall m :: i < m < j ==> !Syncs(first, ticks, interval, m)
    ensures LastSync(first, ticks, interval, j) == Some(i)
    decreases j
  {
    if i < j - 1 {
      LastSyncIs(first, ticks, interval, i, j - 1);
    }
  }

  /** Two syncs in a row of one snapshot: the first failed, and ten intervals have passed. */
  lemma RepeatedSyncIsRetry(first: Snapshot, ticks: seq<Tick>, interval: int, i: nat, j: nat)
    requires i < j < |ticks| && Syncs(first, ticks, interval, i) && Syncs(first, ticks, interval, j)
    requires forall m :: i < m < j ==> !Syncs(first, ticks, interval, m)
    requires ticks[i].cur == ticks[j].cur
    ensures ticks[i].result.Failed? && ticks[j].now >= ticks[i].after + 10 * interval
  {
    LastSyncIs(first, ticks, interval, i, j);
  }

  /** Every sync is of what the tick before observed too. */
  lemma SyncsAreDebounced(first: Snapshot, ticks: seq<Tick>, interval: int, k: nat)
    requires k in AttemptsUpTo(first, ticks, interval, |ticks|)
    ensures k < |ticks| && ticks[k].cur == Observed(first, ticks, k)
  {
    LoopFollowsRule(first, ticks, interval, |ticks|);
  }

  /** From tick `from` on only `s` is observed. */
  predicate Steady(ticks: seq<Tick>, from: nat, s: Snapshot) {
    forall i :: from <= i < |ticks| ==> ticks[i].cur == s
  }

  /** The last sync before tick `i` was of `s`. */
  predicate LastSynced(first: Snapshot, ticks: seq<Tick>, interval: int, i: nat, s: Snapshot)
    requires i <= |ticks|
  {
    var k := LastSync(first, ticks, interval, i);
    k.Some? && ticks[k.value].cur == s
  }

  /** By the tick after a non-empty directory came to rest the last sync is of its state. */
  lemma SteadyIsSynced(first: Snapshot, ticks: seq<Tick>, interval: int, from: nat, s: Snapshot)
    requires from + 1 < |ticks| && Steady(ticks, from, s) && s != map[]
    ensures LastSynced(first, ticks, interval, from + 2, s)
  {
    assert ticks[from].cur == s && ticks[from + 1].cur == Observed(first, ticks, from + 1);
  }

  /** If the last sync at rest is of that state, and succeeded or failed validation, there is no
      other, whether it was made at rest or before the directory came back to it. */
  lemma {:induction false} SettledStaysSettled(first: Snapshot, ticks: seq<Tick>, interval: int, from: nat, k: nat, j: nat)
    requires from < j < |ticks| && LastSync(first, ticks, interval, from + 1) == Some(k) && !ticks[k].result.Failed?
    requires Steady(ticks, from, ticks[k].cur)
    ensures !Syncs(first, ticks, interval, j) && LastSync(first, ticks, interval, j) == Some(k)
    decreases j
  {
    if from + 1 < j {
      SettledStaysSettled(first, ticks, interval, from, k, j - 1);
    }
    assert ticks[j].cur == ticks[k].cur;
  }

  /** After one that failed otherwise, the next comes with the first tick ten intervals later. */
  lemma FailedIsRetried(first: Snapshot, ticks: seq<Tick>, interval: int, k: nat, j: nat)
    requires k < j < |ticks| && Syncs(first, ticks, interval, k) && ticks[k].result.Failed?
    requires Steady(ticks, k, ticks[k].cur)
    requires forall m :: k < m < j ==> !Syncs(first, ticks, interval, m)
    ensures Syncs(first, ticks, interval, j) <==> ticks[j].now >= ticks[k].after + 10 * interval
  {
    LastSyncIs(first, ticks, interval, k, j);
    assert ticks[j].cur == Observed(first, ticks, j);
  }

  ghost predicate SyncsBefore(first: Snapshot, ticks: seq<Tick>, interval: int, i: nat)
    requires i <= |ticks|
  {
    exists k :: 0 <= k < i && Syncs(first, ticks, interval, k)
  }

  lemma {:induction false} LastSyncExists(first: Snapshot, ticks: seq<Tick>, interval: int, i: nat)
    requires i <= |ticks|
    ensures SyncsBefore(first, ticks, interval, i) <==> LastSync(first, ticks, interval, i).Some?
    decreases i
  {
    if i > 0 {
      LastSyncExists(first, ticks, interval, i - 1);
    }
  }

  /** By the tick after a directory came to rest the last sync is of its state, exactly if it is not
      empty or something was synced before: an empty directory is taken for the state in which
      nothing is. */
  lemma SteadyIsSyncedExactly(first: Snapshot, ticks: seq<Tick>, interval: int, from: nat, s: Snapshot)
    requires from + 1 < |ticks| && Steady(ticks, from, s)
    ensures LastSynced(first, ticks, interval, from + 2, s) <==> s != map[] || SyncsBefore(first, ticks, interval, from)
  {
    LastSyncExists(first, ticks, interval, from);
    LastSyncExists(first, ticks, interval, from + 1);
    assert ticks[from].cur == s && ticks[from + 1].cur == Observed(first, ticks, from + 1);
    if s != map[] {
      SteadyIsSynced(first, ticks, interval, from, s);
    } else if SyncsBefore(first, ticks, interval, from) {
      var k := LastSync(first, ticks, interval, from + 1).value;
      assert Syncs(first, ticks, interval, k);
      if ticks[k].cur != s {
        assert Syncs(first, ticks, interval, from + 1);
      }
    } else {
      EmptyIsNeverFirst(first, ticks, interval, from, from);
      EmptyIsNeverFirst(first, ticks, interval, from, from + 1);
    }
  }

  /** An empty directory at rest is never synced if nothing was before it came to rest. */
  lemma {:induction false} EmptyIsNeverFirst(first: Snapshot, ticks: seq<Tick>, interval: int, from: nat, i: nat)
    requires i < |ticks| && Steady(ticks, from, map[]) && from <= |ticks|
    requires !SyncsBefore(first, ticks, interval, from)
    ensures !Syncs(first, ticks, interval, i) && LastSync(first, ticks, interval, i) == None
    decreases i
  {
    if i > 0 {
      EmptyIsNeverFirst(first, ticks, interval, from, i - 1);
    }
    if i < from {
      LastSyncExists(first, ticks, interval, from);
    }
  }
}
