/** What the manager's failure count counts, over runs of the daemon (cmd/hivy-appd/process_direct.go). */
module Failures {
  import opened Prelude
  import opened Archive
  import opened Disk
  import opened Manager
  import opened Daemon

  /** An exit that a supervisor in charge took note of, of a child that ran for more than a minute
      or not; or a restart on purpose, or a new daemon. */
  datatype Event = Anew | LongRun | ShortRun

  function EventOf(w: World, s: Step): Option<Event> {
    match s
    case RestartBegins => Some(Anew)
    case Crash => Some(Anew)
    case SupervisorNotesExit(i, now, _) =>
      if i < |w.children| && !w.m.stopped && w.children[i].gen == w.m.gen then
        Some(if now - w.children[i].started > 60 then LongRun else ShortRun)
      else None
    case _ => None
  }

  /** The events of a run, in order. */
  ghost function Events(w: World, steps: seq<Step>, w': World, bundles: Sha -> Bundle): seq<Event>
    requires Reaches(w, steps, w', bundles)
    decreases |steps|
  {
    if steps == [] then []
    else
      var rest := Events(Apply(w, steps[0], bundles), steps[1..], w', bundles);
      match EventOf(w, steps[0]) case None => rest case Some(e) => [e] + rest
  }

  /** From index j on there are only exits after short runs. */
  ghost predicate ShortFrom(e: seq<Event>, j: nat) {
    forall k :: j <= k < |e| ==> e[k] == ShortRun
  }

  /** `now` counts the exits since the last restart on purpose, or since the last exit after a long
      run with that one included; without either it goes on from `before`. */
  ghost predicate Counts(e: seq<Event>, before: nat, now: nat) {
    && (ShortFrom(e, 0) ==> now == before + |e|)
    && forall j: nat :: j < |e| && e[j] != ShortRun && ShortFrom(e, j + 1) ==>
                          now == |e| - (j + 1) + if e[j] == LongRun then 1 else 0
  }

  lemma CountsMore(first: Event, e: seq<Event>, before: nat, next: nat, now: nat)
    requires next == match first case Anew => 0 case LongRun => 1 case ShortRun => before + 1
    requires Counts(e, next, now)
    ensures Counts([first] + e, before, now)
  {
    var all := [first] + e;
    forall j: nat | ShortFrom(all, j) && 0 < j ensures ShortFrom(e, j - 1) {
      forall k | j - 1 <= k < |e| ensures e[k] == ShortRun {
        assert all[k + 1] == e[k];
      }
    }
    if ShortFrom(all, 0) {
      assert all[0] == ShortRun && ShortFrom(all, 1);
    }
    forall j: nat | j < |all| && all[j] != ShortRun && ShortFrom(all, j + 1)
      ensures now == |all| - (j + 1) + if all[j] == LongRun then 1 else 0
    {
      assert ShortFrom(e, j);
      assert j > 0 ==> all[j] == e[j - 1];
    }
  }

  lemma StepFailures(w: World, s: Step, bundles: Sha -> Bundle)
    requires GensInv(w) && Enabled(w, s, bundles)
    ensures Apply(w, s, bundles).m.failures ==
              match EventOf(w, s)
              case None => w.m.failures
              case Some(Anew) => 0
              case Some(LongRun) => 1
              case Some(ShortRun) => w.m.failures + 1
  {
  }

  /** Over every run the failure count is the number of exits since the last restart on purpose or
      the last child that ran for more than a minute, whichever came later, that child's exit included. */
  lemma {:induction false} FailuresCount(w: World, steps: seq<Step>, w': World, bundles: Sha -> Bundle)
    requires Inv(w, bundles) && Reaches(w, steps, w', bundles)
    ensures Counts(Events(w, steps, w', bundles), w.m.failures, w'.m.failures)
    decreases |steps|
  {
    if steps != [] {
      var w1 := Apply(w, steps[0], bundles);
      StepKeepsInv(w, steps[0], bundles);
      StepFailures(w, steps[0], bundles);
      FailuresCount(w1, steps[1..], w', bundles);
      var e := EventOf(w, steps[0]);
      if e.Some? {
        CountsMore(e.value, Events(w1, steps[1..], w', bundles), w.m.failures, w1.m.failures, w'.m.failures);
      }
    }
  }
}
