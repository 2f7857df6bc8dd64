/** What the daemon can still start, and when it starts nothing any more: after Shutdown above all
    (main.go and process_direct.go under cmd/hivy-appd). */
module Shutdown {
  import opened Prelude
  import opened Archive
  import opened Disk
  import opened Manager
  import opened Daemon
  import Handlers = Deploy
  import EnvFile

  // ----- When nothing starts any more -----

  /** No one is inside `startLocked` and no supervisor that may still get there is in charge. */
  ghost predicate Dormant(w: World) {
    && w.booted && w.lock.Free?
    && (forall i :: 0 <= i < |w.children| ==>
          && w.children[i].gen <= w.m.gen
          && (w.children[i].phase == Finished || !InCharge(w.m, w.children[i].gen)))
  }

  predicate CallsForStart(s: Step) {
    s.BootStart? || s.RestartFinishes? || s.Crash?
  }

  lemma DormantStep(w: World, s: Step, bundles: Sha -> Bundle)
    requires Dormant(w) && Enabled(w, s, bundles) && !CallsForStart(s)
    ensures Dormant(Apply(w, s, bundles)) && |Apply(w, s, bundles).children| == |w.children|
  {
  }

  /** From a dormant state nothing starts until someone calls Start, Restart or the daemon anew. */
  lemma {:induction false} DormantStaysDown(w: World, steps: seq<Step>, w': World, bundles: Sha -> Bundle)
    requires Dormant(w) && Reaches(w, steps, w', bundles)
    requires forall s :: s in steps ==> !CallsForStart(s)
    ensures Dormant(w') && |w'.children| == |w.children|
    decreases |steps|
  {
    if steps != [] {
      var w1 := Apply(w, steps[0], bundles);
      assert steps[0] in steps;
      DormantStep(w, steps[0], bundles);
      DormantStaysDown(w1, steps[1..], w', bundles);
    }
  }

  /** Some run from here starts a child without a call of Start or Restart. */
  ghost predicate StartsItself(w: World, bundles: Sha -> Bundle) {
    exists steps, w' ::
      Reaches(w, steps, w', bundles) && (forall s :: s in steps ==> !CallsForStart(s)) && |w'.children| > |w.children|
  }

  lemma StartsAfter(w: World, s: Step, bundles: Sha -> Bundle)
    requires Enabled(w, s, bundles) && !CallsForStart(s)
    requires |Apply(w, s, bundles).children| == |w.children| && StartsItself(Apply(w, s, bundles), bundles)
    ensures StartsItself(w, bundles)
  {
    var w1 := Apply(w, s, bundles);
    var steps, w' :| Reaches(w1, steps, w', bundles) && (forall s :: s in steps ==> !CallsForStart(s)) && |w'.children| > |w1.children|;
    StepThen(w, s, steps, w', bundles);
  }

  function ReadsLeft(pc: StartPc): nat {
    match pc case AtStat => 3 case AtEnv => 2 case AtLog(_) => 1 case AtExec(_, _) => 0
  }

  /** A start under way can succeed. */
  lemma {:induction false} LockedStarts(w: World, bundles: Sha -> Bundle)
    requires w.lock.Starting? && w.disk.current.Some? && Runnable(w.disk)
    ensures StartsItself(w, bundles)
    decreases ReadsLeft(w.lock.pc)
  {
    if w.lock.pc.AtExec? {
      var s := StartEnds(Started(|w.children|, 0));
      var w' := Apply(w, s, bundles);
      assert Reaches(w', [], w', bundles);
      StepThen(w, s, [], w', bundles);
    } else {
      LockedStarts(Apply(w, StartRead, bundles), bundles);
      StartsAfter(w, StartRead, bundles);
    }
  }

  lemma SleeperStarts(w: World, i: nat, bundles: Sha -> Bundle)
    requires HasChild(w, i, Sleeping) && InCharge(w.m, w.children[i].gen) && w.m.cmd == None && w.lock.Free?
    requires w.disk.current.Some? && Runnable(w.disk)
    ensures StartsItself(w, bundles)
  {
    LockedStarts(Apply(w, SupervisorWakes(i), bundles), bundles);
    StartsAfter(w, SupervisorWakes(i), bundles);
  }

  lemma ExitedStarts(w: World, i: nat, bundles: Sha -> Bundle)
    requires HasChild(w, i, Exited) && InCharge(w.m, w.children[i].gen) && w.lock.Free?
    requires w.disk.current.Some? && Runnable(w.disk)
    ensures StartsItself(w, bundles)
  {
    SleeperStarts(Apply(w, SupervisorNotesExit(i, 0, ""), bundles), i, bundles);
    StartsAfter(w, SupervisorNotesExit(i, 0, ""), bundles);
  }

  lemma WaiterStarts(w: World, i: nat, bundles: Sha -> Bundle)
    requires HasChild(w, i, Waiting) && InCharge(w.m, w.children[i].gen) && w.lock.Free?
    requires w.disk.current.Some? && Runnable(w.disk)
    ensures StartsItself(w, bundles)
  {
    if w.children[i].alive {
      var w1 := Apply(w, ChildDies(i), bundles);
      ExitedStarts(Apply(w1, WaitReturns(i), bundles), i, bundles);
      StartsAfter(w1, WaitReturns(i), bundles);
      StartsAfter(w, ChildDies(i), bundles);
    } else {
      ExitedStarts(Apply(w, WaitReturns(i), bundles), i, bundles);
      StartsAfter(w, WaitReturns(i), bundles);
    }
  }

  /** A running manager with a release in force is dormant exactly if no automatic restart, nor a
      start under way, can start a child any more. */
  lemma DormantExactly(w: World, bundles: Sha -> Bundle)
    requires Reachable(w, bundles) && w.booted && !w.m.stopped && w.disk.current.Some?
    ensures Dormant(w) <==> !StartsItself(w, bundles)
  {
    ReachableInv(w, bundles);
    SafeRunnable(w.disk, bundles);
    if Dormant(w) {
      DormantStarts(w, bundles);
    } else if w.lock.Starting? {
      LockedStarts(w, bundles);
    } else {
      var i :| 0 <= i < |w.children| && w.children[i].phase != Finished && InCharge(w.m, w.children[i].gen);
      match w.children[i].phase {
        case Waiting => WaiterStarts(w, i, bundles);
        case Exited => ExitedStarts(w, i, bundles);
        case Sleeping =>
          OnlyInChargeStarts(w, bundles);
          SleeperStarts(w, i, bundles);
      }
    }
  }

  lemma DormantStarts(w: World, bundles: Sha -> Bundle)
    requires Dormant(w)
    ensures !StartsItself(w, bundles)
  {
    if StartsItself(w, bundles) {
      var steps, w' :| Reaches(w, steps, w', bundles) && (forall s :: s in steps ==> !CallsForStart(s)) && |w'.children| > |w.children|;
      DormantStaysDown(w, steps, w', bundles);
    }
  }

  /** Shutdown makes the daemon dormant, whatever supervisors wait or sleep. */
  lemma ShutdownIsDormant(w: World, bundles: Sha -> Bundle)
    requires Inv(w, bundles) && Enabled(w, ShutdownBegins, bundles)
    ensures Dormant(Apply(w, ShutdownBegins, bundles))
  {
  }

  /** A call of `startLocked` leaves the daemon dormant exactly if it starts nothing or the manager
      is stopped: the supervisor whose automatic restart fails does not try again. */
  lemma FailedStartIsDormant(w: World, launch: Launch, bundles: Sha -> Bundle)
    requires Inv(w, bundles) && Enabled(w, StartEnds(launch), bundles)
    ensures Dormant(Apply(w, StartEnds(launch), bundles)) <==> !launch.Started? || w.m.stopped
  {
    StartEndsKeeps(w, bundles, launch);
    if launch.Started? {
      NewChildInCharge(w, launch);
    } else {
      NobodyInCharge(w, launch);
    }
  }

  lemma NewChildInCharge(w: World, launch: Launch)
    requires ManagerInv(w) && CanEnd(w, launch) && launch.Started?
    ensures Dormant(EndStart(w, launch)) <==> w.m.stopped
  {
    var w', n := EndStart(w, launch), |w.children|;
    assert w'.children[n].gen == w'.m.gen && w'.children[n].phase == Waiting;
    forall i | 0 <= i < n ensures w'.children[i].gen < w'.m.gen {}
  }

  lemma NobodyInCharge(w: World, launch: Launch)
    requires ManagerInv(w) && CanEnd(w, launch) && !launch.Started?
    requires ManagerInv(EndStart(w, launch))
    ensures Dormant(EndStart(w, launch))
  {
    var w' := EndStart(w, launch);
    NoStartChildren(w, launch);
    forall i | 0 <= i < |w'.children|
      ensures w'.children[i].gen <= w'.m.gen && (w'.children[i].phase == Finished || !InCharge(w'.m, w'.children[i].gen))
    {
      if InCharge(w.m, w.children[i].gen) && w.children[i].phase != Finished {
        assert w.lock.who == BySupervisor(i);
      }
    }
  }

  /** Only the supervisor that called moves on. */
  lemma NoStartChildren(w: World, launch: Launch)
    requires CanEnd(w, launch) && !launch.Started?
    ensures var w' := EndStart(w, launch);
            && w'.m.gen == w.m.gen && w'.m.stopped == w.m.stopped && |w'.children| == |w.children| && w'.lock.Free?
            && w'.booted == w.booted
            && forall i :: 0 <= i < |w.children| ==>
                 && w'.children[i].gen == w.children[i].gen
                 && w'.children[i].phase == if w.lock.who == BySupervisor(i) then Finished else w.children[i].phase
  {
  }

  /** A Restart still to come, with something to run. */
  predicate StartPending(w: World) {
    match w.handler
    case Idle => false
    case Working(r, p) => GoesOn(r, p) && w.disk.current.Some?
    case _ => w.disk.current.Some?
  }

  /** What is left of a handler that does no more work on the disk, as a measure. */
  function StepsLeft(w: World): nat {
    match w.handler
    case Idle => 0
    case Working(_, _) => 10
    case Stopping(_) => 9
    case Stopped => 8
    case Launching =>
      if w.lock.Free? then 7 else match w.lock.pc case AtStat => 4 case AtEnv => 3 case AtLog(_) => 2 case AtExec(_, _) => 1
  }

  /** Bring the handler to its end, starting the app if it gets that far. */
  function NextOfHandler(w: World): Step {
    match w.handler
    case Idle => ServerCloses
    case Working(r, p) => if GoesOn(r, p) then RestartBegins else HandlerRefuses
    case Stopping(None) => NothingToStop
    case Stopping(Some(i)) => StopReturns(i, false)
    case Stopped => RestartFinishes
    case Launching =>
      if w.lock.Starting? && w.lock.pc.AtExec? then StartEnds(Started(|w.children|, 0))
      else if !Runnable(w.disk) then StartEnds(NotDeployed)
      else StartRead
  }

  /** Nobody but the handler is inside `startLocked`. */
  predicate LockForHandler(w: World) {
    w.lock.Starting? ==> w.lock.who.ByRestart? && (!w.lock.pc.AtStat? ==> w.disk.current.Some?)
  }

  ghost predicate Progresses(w: World, w': World) {
    && LockForHandler(w') && w'.queue == w.queue && w'.disk == w.disk
    && if |w'.children| > |w.children| then w'.handler.Idle? && StartPending(w)
       else |w'.children| == |w.children| && (StartPending(w) <==> StartPending(w')) && StepsLeft(w') < StepsLeft(w)
  }

  lemma HandlerStep(w: World, bundles: Sha -> Bundle) returns (s: Step, w1: World)
    requires Inv(w, bundles) && !w.handler.Idle? && LockForHandler(w)
    ensures Enabled(w, s, bundles) && s != Crash && w1 == Apply(w, s, bundles) && Inv(w1, bundles) && Progresses(w, w1)
  {
    SafeRunnable(w.disk, bundles);
    s := NextOfHandler(w);
    HandlerStepMoves(w, bundles);
    StepKeepsInv(w, s, bundles);
    w1 := Apply(w, s, bundles);
  }

  lemma HandlerStepMoves(w: World, bundles: Sha -> Bundle)
    requires HandlerInv(w) && !w.handler.Idle? && LockForHandler(w)
    requires Runnable(w.disk) <==> w.disk.current.Some?
    ensures Enabled(w, NextOfHandler(w), bundles) && Progresses(w, Apply(w, NextOfHandler(w), bundles))
  {
    match w.handler {
      case Working(r, p) =>
      case Stopping(victim) =>
      case Stopped =>
      case Launching => LaunchMoves(w, bundles);
    }
  }

  lemma LaunchMoves(w: World, bundles: Sha -> Bundle)
    requires HandlerInv(w) && w.handler.Launching? && LockForHandler(w)
    requires Runnable(w.disk) <==> w.disk.current.Some?
    ensures Enabled(w, NextOfHandler(w), bundles) && Progresses(w, Apply(w, NextOfHandler(w), bundles))
  {
  }

  /** The handler can always be brought to its end, and starts a child then if a start is pending. */
  lemma {:induction false} HandlerFinishes(w: World, bundles: Sha -> Bundle) returns (steps: seq<Step>, w': World)
    requires Inv(w, bundles) && LockForHandler(w)
    ensures Reaches(w, steps, w', bundles) && Crash !in steps && Inv(w', bundles)
    ensures w'.handler.Idle? && w'.lock.Free? && w'.queue == w.queue && w'.disk == w.disk
    ensures |w'.children| >= |w.children| && (|w'.children| > |w.children| <==> StartPending(w))
    decreases StepsLeft(w)
  {
    if w.handler.Idle? {
      assert Reaches(w, [], w, bundles);
      return [], w;
    }
    var s, w1 := HandlerStep(w, bundles);
    steps, w' := HandlerFinishes(w1, bundles);
    StepThen(w, s, steps, w', bundles);
    steps := [s] + steps;
  }

  /** How `startLocked` can fail at its present read. */
  function Failure(w: World): Launch
    requires w.lock.Starting?
  {
    match w.lock.pc
    case AtStat => NotDeployed
    case AtEnv => EnvUnreadable
    case _ => ExecFailed("")
  }

  /** A start under way for someone else can always fail. */
  lemma OtherStarterFails(w: World, bundles: Sha -> Bundle) returns (steps: seq<Step>, w': World)
    requires Inv(w, bundles) && w.lock.Starting? && !w.lock.who.ByRestart?
    ensures Reaches(w, steps, w', bundles) && Crash !in steps && Inv(w', bundles) && w'.lock.Free?
    ensures w'.handler == w.handler && w'.queue == w.queue && w'.disk == w.disk && |w'.children| == |w.children|
  {
    if w.lock.pc.AtStat? && Runnable(w.disk) {
      var w1 := Apply(w, StartRead, bundles);
      StepKeepsInv(w, StartRead, bundles);
      var more;
      more, w' := FailsHere(w1, bundles);
      StepThen(w, StartRead, more, w', bundles);
      steps := [StartRead] + more;
    } else {
      steps, w' := FailsHere(w, bundles);
    }
  }

  lemma FailureEnds(w: World, bundles: Sha -> Bundle)
    requires w.lock.Starting? && !w.lock.who.ByRestart? && (w.lock.pc.AtStat? ==> !Runnable(w.disk))
    ensures Enabled(w, StartEnds(Failure(w)), bundles)
    ensures var w' := Apply(w, StartEnds(Failure(w)), bundles);
            && w'.handler == w.handler && w'.queue == w.queue && w'.disk == w.disk && w'.lock.Free?
            && |w'.children| == |w.children|
  {
  }

  lemma FailsHere(w: World, bundles: Sha -> Bundle) returns (steps: seq<Step>, w': World)
    requires Inv(w, bundles) && w.lock.Starting? && !w.lock.who.ByRestart?
    requires w.lock.pc.AtStat? ==> !Runnable(w.disk)
    ensures Reaches(w, steps, w', bundles) && Crash !in steps && Inv(w', bundles) && w'.lock.Free?
    ensures w'.handler == w.handler && w'.queue == w.queue && w'.disk == w.disk && |w'.children| == |w.children|
  {
    var s := StartEnds(Failure(w));
    FailureEnds(w, bundles);
    StepKeepsInv(w, s, bundles);
    w' := Apply(w, s, bundles);
    assert Reaches(w', [], w', bundles);
    StepThen(w, s, [], w', bundles);
    steps := [s] + [];
  }

  /** From every reachable state the handler at work can be driven to its end, whoever else is
      starting the app; if a Restart is to come with something to run, a child starts. */
  lemma HandlerEnds(w: World, bundles: Sha -> Bundle) returns (steps: seq<Step>, w': World)
    requires Inv(w, bundles)
    ensures Reaches(w, steps, w', bundles) && Crash !in steps && Inv(w', bundles)
    ensures w'.handler.Idle? && w'.lock.Free? && w'.queue == w.queue && w'.disk == w.disk
    ensures |w'.children| >= |w.children| && (StartPending(w) ==> |w'.children| > |w.children|)
  {
    var first, w1: World := [], w;
    assert Reaches(w, [], w, bundles);
    if w.lock.Starting? && !w.lock.who.ByRestart? {
      first, w1 := OtherStarterFails(w, bundles);
    }
    var more;
    more, w' := HandlerFinishes(w1, bundles);
    Joined(w, first, w1, more, w', bundles);
    steps := first + more;
  }

  // ----- What a stopped daemon can still start -----

  /** The request can be carried out on this disk up to its Restart, with something to run then. */
  ghost predicate Leads(r: Request, d: Disk, bundles: Sha -> Bundle) {
    match r
    case Deploy(sha, versionID, _) => WaitsFor(r) && (Released(d, sha) || Deployable(bundles(sha), versionID))
    case Rollback(sha) => WaitsFor(r) && Released(d, sha)
    case SetEnv(vars) => EnvFile.ValidVars(vars) && d.current.Some?
  }

  /** All the request needs is its release. */
  ghost predicate WaitsFor(r: Request) {
    match r
    case Deploy(sha, _, env) => ValidSha(sha) && (env.Some? ==> EnvFile.ValidVars(env.value))
    case Rollback(sha) => ValidSha(sha)
    case SetEnv(_) => false
  }

  /** The handler at work can get to such a Restart, or has got there. */
  ghost predicate Ready(w: World, bundles: Sha -> Bundle) {
    if w.handler.Working? && !GoesOn(w.handler.request, w.handler.progress) then Leads(w.handler.request, w.disk, bundles)
    else StartPending(w)
  }

  predicate IsDeployOf(r: Request, sha: Sha) {
    r.Deploy? && r.sha == sha
  }

  /** The request can stage this release, even if it must fail later on. */
  predicate IsStager(r: Request, sha: Sha, bundles: Sha -> Bundle) {
    IsDeployOf(r, sha) && Deployable(bundles(sha), r.versionID)
  }

  predicate AtWorkOn(w: World, sha: Sha, bundles: Sha -> Bundle) {
    w.handler.Working? && w.handler.progress.Preparing? && IsStager(w.handler.request, sha, bundles)
  }

  ghost predicate Stageable(w: World, sha: Sha, bundles: Sha -> Bundle) {
    AtWorkOn(w, sha, bundles) || exists q :: q in w.queue && IsStager(q, sha, bundles)
  }

  ghost predicate MayLead(w: World, r: Request, bundles: Sha -> Bundle) {
    Leads(r, w.disk, bundles) || (WaitsFor(r) && Stageable(w, r.sha, bundles))
  }

  /** Read off the handler's phase, the queue, the disk and the bundles. */
  ghost predicate MayStart(w: World, bundles: Sha -> Bundle) {
    Ready(w, bundles) || exists r :: r in w.queue && MayLead(w, r, bundles)
  }

  /** Some run of this daemon from here starts a child. */
  ghost predicate CanStart(w: World, bundles: Sha -> Bundle) {
    exists steps, w' :: Reaches(w, steps, w', bundles) && Crash !in steps && |w'.children| > |w.children|
  }

  // It can if it may.

  function WorkLeft(w: World): nat {
    match w.handler
    case Working(r, p) =>
      (if r.Deploy? && !Released(w.disk, r.sha) then 1 else 0) + (if p == BEGUN then 2 else if p.Preparing? then 1 else 0)
    case _ => 0
  }

  lemma StageStep(w: World, sha: Sha, bundles: Sha -> Bundle) returns (s: Step)
    requires Safe(w.disk, bundles) && AtWorkOn(w, sha, bundles) && !Released(w.disk, sha)
    ensures Enabled(w, s, bundles) && s.HandlerMoves? && s.progress == w.handler.progress && Released(s.disk, sha)
  {
    var d := StageOnce(w.disk, sha, w.handler.request.versionID, bundles);
    s := HandlerMoves(w.handler.progress, d);
  }

  /** The step is the handler's, and brings it nearer to its Restart. */
  ghost predicate Nearer(w: World, s: Step, bundles: Sha -> Bundle) {
    && s.HandlerMoves? && Enabled(w, s, bundles)
    && var w' := w.(handler := w.handler.(progress := s.progress), disk := s.disk);
       Ready(w', bundles) && WorkLeft(w') < WorkLeft(w)
  }

  lemma WriteStep(w: World, vars: Vars, bundles: Sha -> Bundle) returns (s: Step)
    requires Safe(w.disk, bundles) && w.handler.Working? && w.handler.progress == BEGUN
    requires Leads(w.handler.request, w.disk, bundles)
    requires w.handler.request == SetEnv(vars)
             || (w.handler.request.Deploy? && w.handler.request.env == Some(vars) && Released(w.disk, w.handler.request.sha))
    ensures Nearer(w, s, bundles)
  {
    var next := w.disk.(env := Some(EnvFile.FileFor(vars)));
    SafeSame(w.disk, next, bundles);
    s := HandlerMoves(Preparing(true), next);
  }

  lemma SwitchStep(w: World, sha: Sha, bundles: Sha -> Bundle) returns (s: Step)
    requires Safe(w.disk, bundles) && w.handler.Working? && w.handler.progress.Preparing?
    requires ValidSha(sha) && Released(w.disk, sha)
    requires w.handler.request == Rollback(sha)
             || (IsDeployOf(w.handler.request, sha) && (w.handler.request.env.Some? ==> w.handler.progress.wrote))
    ensures Nearer(w, s, bundles)
  {
    SwitchOnce(w.disk, sha, bundles);
    s := HandlerMoves(Switched(CurrentSHA(w.disk)), w.disk.(current := Some(sha)));
  }

  lemma LeadsOn(w: World, bundles: Sha -> Bundle) returns (s: Step)
    requires Safe(w.disk, bundles) && HandlerInv(w)
    requires w.handler.Working? && !GoesOn(w.handler.request, w.handler.progress) && Leads(w.handler.request, w.disk, bundles)
    ensures Nearer(w, s, bundles)
  {
    match w.handler.request {
      case Deploy(sha, _, env) =>
        if !Released(w.disk, sha) {
          s := StageStep(w, sha, bundles);
        } else if env.Some? && !w.handler.progress.wrote {
          s := WriteStep(w, env.value, bundles);
        } else {
          s := SwitchStep(w, sha, bundles);
        }
      case Rollback(sha) => s := SwitchStep(w, sha, bundles);
      case SetEnv(vars) => s := WriteStep(w, vars, bundles);
    }
  }

  /** A handler's step changes the log beside what `Nearer` looks at. */
  lemma NearerApplies(w: World, s: Step, bundles: Sha -> Bundle)
    requires Nearer(w, s, bundles)
    ensures Ready(Apply(w, s, bundles), bundles) && WorkLeft(Apply(w, s, bundles)) < WorkLeft(w)
  {
  }

  lemma {:induction false} ReadyStarts(w: World, bundles: Sha -> Bundle) returns (steps: seq<Step>, w': World)
    requires Inv(w, bundles) && Ready(w, bundles)
    ensures Reaches(w, steps, w', bundles) && Crash !in steps && |w'.children| > |w.children|
    decreases WorkLeft(w)
  {
    if w.handler.Working? && !GoesOn(w.handler.request, w.handler.progress) {
      var s := LeadsOn(w, bundles);
      NearerApplies(w, s, bundles);
      StepKeepsInv(w, s, bundles);
      steps, w' := ReadyStarts(Apply(w, s, bundles), bundles);
      StepThen(w, s, steps, w', bundles);
      steps := [s] + steps;
    } else {
      steps, w' := HandlerEnds(w, bundles);
    }
  }

  /** The handler at work comes to its end, and unless that starts a child the next one begins. */
  lemma NextBegins(w: World, r: Request, bundles: Sha -> Bundle) returns (steps: seq<Step>, w': World)
    requires Inv(w, bundles) && r in w.queue
    ensures Reaches(w, steps, w', bundles) && Crash !in steps && Inv(w', bundles) && |w'.children| >= |w.children|
    ensures |w'.children| == |w.children| ==>
              w'.handler == Working(r, BEGUN) && w'.disk == w.disk && w'.queue == w.queue - multiset{r}
  {
    steps, w' := HandlerEnds(w, bundles);
    if |w'.children| == |w.children| {
      var s, w1 := HandlerBegins(r), w';
      StepKeepsInv(w1, s, bundles);
      Then(w, steps, w1, s, bundles);
      steps, w' := steps + [s], Apply(w1, s, bundles);
    }
  }

  lemma QueuedStarts(w: World, r: Request, bundles: Sha -> Bundle) returns (steps: seq<Step>, w': World)
    requires Inv(w, bundles) && r in w.queue && Leads(r, w.disk, bundles)
    ensures Reaches(w, steps, w', bundles) && Crash !in steps && |w'.children| > |w.children|
  {
    steps, w' := NextBegins(w, r, bundles);
    if |w'.children| == |w.children| {
      var w1, more := w', [];
      more, w' := ReadyStarts(w1, bundles);
      Joined(w, steps, w1, more, w', bundles);
      steps := steps + more;
    }
  }

  /** A request waits for a release that the deploy at work can still stage. */
  lemma StagedThenStarts(w: World, r: Request, bundles: Sha -> Bundle) returns (steps: seq<Step>, w': World)
    requires Inv(w, bundles) && r in w.queue && WaitsFor(r) && AtWorkOn(w, r.sha, bundles)
    ensures Reaches(w, steps, w', bundles) && Crash !in steps && |w'.children| > |w.children|
  {
    if Released(w.disk, r.sha) {
      steps, w' := QueuedStarts(w, r, bundles);
    } else {
      var s := StageStep(w, r.sha, bundles);
      StepKeepsInv(w, s, bundles);
      steps, w' := QueuedStarts(Apply(w, s, bundles), r, bundles);
      StepThen(w, s, steps, w', bundles);
      steps := [s] + steps;
    }
  }

  lemma QueuedStageStarts(w: World, q: Request, r: Request, bundles: Sha -> Bundle) returns (steps: seq<Step>, w': World)
    requires Inv(w, bundles) && r in w.queue && WaitsFor(r) && q in w.queue && q != r && IsStager(q, r.sha, bundles)
    ensures Reaches(w, steps, w', bundles) && Crash !in steps && |w'.children| > |w.children|
  {
    steps, w' := NextBegins(w, q, bundles);
    if |w'.children| == |w.children| {
      var w1, more := w', [];
      more, w' := StagedThenStarts(w1, r, bundles);
      Joined(w, steps, w1, more, w', bundles);
      steps := steps + more;
    }
  }

  lemma MayMeansCan(w: World, bundles: Sha -> Bundle)
    requires Inv(w, bundles) && MayStart(w, bundles)
    ensures CanStart(w, bundles)
  {
    var steps, w';
    if Ready(w, bundles) {
      steps, w' := ReadyStarts(w, bundles);
    } else {
      var r :| r in w.queue && MayLead(w, r, bundles);
      if Leads(r, w.disk, bundles) {
        steps, w' := QueuedStarts(w, r, bundles);
      } else if AtWorkOn(w, r.sha, bundles) {
        steps, w' := StagedThenStarts(w, r, bundles);
      } else {
        var q :| q in w.queue && IsStager(q, r.sha, bundles);
        steps, w' := QueuedStageStarts(w, q, r, bundles);
      }
    }
  }

  // It cannot if it may not.

  /** After Shutdown with the server closed and nothing left that may start the app. */
  ghost predicate WoundUp(w: World, bundles: Sha -> Bundle) {
    && w.booted && w.draining && w.m.stopped && !MayStart(w, bundles)
    && (w.lock.Starting? ==> w.lock.who.ByRestart? && w.lock.pc.AtStat?)
  }

  /** What a queued request may do does not grow when the disk stays and no deploy joins in. */
  lemma StillNoLead(w: World, w': World, bundles: Sha -> Bundle)
    requires !MayStart(w, bundles) && w'.queue <= w.queue && w'.disk == w.disk
    requires forall sha :: AtWorkOn(w', sha, bundles) ==> Stageable(w, sha, bundles)
    ensures !exists r :: r in w'.queue && MayLead(w', r, bundles)
  {
    forall r | r in w'.queue ensures !MayLead(w', r, bundles) {
      assert r in w.queue && !MayLead(w, r, bundles);
    }
  }

  /** A handler that does not lead to a start does not move `current`, and stages nothing that a
      queued request waits for. */
  lemma IdleMoves(w: World, p: Progress, d: Disk, bundles: Sha -> Bundle)
    requires WoundUp(w, bundles) && HandlerInv(w) && Safe(w.disk, bundles) && Enabled(w, HandlerMoves(p, d), bundles)
    ensures p.Preparing? && d.current == w.disk.current
    ensures forall sha :: Released(d, sha) && !Released(w.disk, sha) ==> AtWorkOn(w, sha, bundles)
    ensures GoesOn(w.handler.request, p) ==> d.current == None
    ensures !GoesOn(w.handler.request, p) ==> !Leads(w.handler.request, d, bundles)
  {
    var r := w.handler.request;
    forall sha | Released(d, sha) && !Released(w.disk, sha) ensures AtWorkOn(w, sha, bundles) {
      Handlers.AppRoot.SameElsewhere(d.releases, w.disk.releases, r.sha);
    }
  }

  lemma WoundUpMoves(w: World, p: Progress, d: Disk, bundles: Sha -> Bundle)
    requires WoundUp(w, bundles) && HandlerInv(w) && Safe(w.disk, bundles) && Enabled(w, HandlerMoves(p, d), bundles)
    ensures WoundUp(Apply(w, HandlerMoves(p, d), bundles), bundles)
  {
    IdleMoves(w, p, d, bundles);
    var w' := Apply(w, HandlerMoves(p, d), bundles);
    forall r | r in w'.queue ensures !MayLead(w', r, bundles) {
      assert !MayLead(w, r, bundles);
      assert forall sha :: AtWorkOn(w', sha, bundles) <==> AtWorkOn(w, sha, bundles);
    }
  }

  lemma WoundUpBegins(w: World, r: Request, bundles: Sha -> Bundle)
    requires WoundUp(w, bundles) && Enabled(w, HandlerBegins(r), bundles)
    ensures WoundUp(Apply(w, HandlerBegins(r), bundles), bundles)
  {
    assert !MayLead(w, r, bundles);
    StillNoLead(w, Apply(w, HandlerBegins(r), bundles), bundles);
  }

  lemma WoundUpOther(w: World, s: Step, bundles: Sha -> Bundle)
    requires WoundUp(w, bundles) && HandlerInv(w) && Safe(w.disk, bundles) && Enabled(w, s, bundles)
    requires s != Crash && !s.HandlerMoves? && !s.HandlerBegins?
    ensures var w' := Apply(w, s, bundles);
            && w'.booted && w'.draining && w'.m.stopped && w'.queue == w.queue && w'.disk == w.disk
            && (w'.handler.Working? ==> w'.handler == w.handler) && !Ready(w', bundles)
            && (w'.lock.Starting? ==> w'.lock.who.ByRestart? && w'.lock.pc.AtStat?)
            && |w'.children| == |w.children|
  {
    SafeRunnable(w.disk, bundles);
    match s {
      case StartEnds(launch) =>
      case SupervisorWakes(i) =>
      case RestartBegins =>
      case _ =>
    }
  }

  lemma WoundUpStep(w: World, s: Step, bundles: Sha -> Bundle)
    requires WoundUp(w, bundles) && Inv(w, bundles) && Enabled(w, s, bundles) && s != Crash
    ensures WoundUp(Apply(w, s, bundles), bundles) && |Apply(w, s, bundles).children| == |w.children|
  {
    if s.HandlerMoves? {
      WoundUpMoves(w, s.progress, s.disk, bundles);
    } else if s.HandlerBegins? {
      WoundUpBegins(w, s.r, bundles);
    } else {
      WoundUpOther(w, s, bundles);
      StillNoLead(w, Apply(w, s, bundles), bundles);
    }
  }

  lemma {:induction false} WoundUpStaysDown(w: World, steps: seq<Step>, w': World, bundles: Sha -> Bundle)
    requires WoundUp(w, bundles) && Inv(w, bundles) && Reaches(w, steps, w', bundles) && Crash !in steps
    ensures |w'.children| == |w.children|
    decreases |steps|
  {
    if steps != [] {
      StepKeepsInv(w, steps[0], bundles);
      WoundUpStep(w, steps[0], bundles);
      WoundUpStaysDown(Apply(w, steps[0], bundles), steps[1..], w', bundles);
    }
  }

  lemma WoundUpCannotStart(w: World, bundles: Sha -> Bundle)
    requires Inv(w, bundles) && WoundUp(w, bundles)
    ensures !CanStart(w, bundles)
  {
    if CanStart(w, bundles) {
      var steps, w' :| Reaches(w, steps, w', bundles) && Crash !in steps && |w'.children| > |w.children|;
      WoundUpStaysDown(w, steps, w', bundles);
    }
  }

  /** The server may give up on its handlers before Shutdown runs. Then a stopped manager can still
      start a child, exactly if the handler at work is past its work on the disk with something to
      run or can still get there, or a waiting request can: a valid environment with something to
      run, or a rollback, or a deploy with a valid environment if any, whose release is there or can
      still be staged, by itself or by another deploy. */
  lemma StartAfterShutdownExactly(w: World, bundles: Sha -> Bundle)
    requires Reachable(w, bundles) && w.booted && w.draining && w.m.stopped
    ensures CanStart(w, bundles) <==> MayStart(w, bundles)
  {
    ReachableInv(w, bundles);
    if MayStart(w, bundles) {
      MayMeansCan(w, bundles);
    } else {
      WoundUpCannotStart(w, bundles);
    }
  }

  /** On every disk with a release in force the daemon can get into such a state. */
  lemma StoppedWithStartPending(d: Disk, bundles: Sha -> Bundle) returns (w: World)
    requires Safe(d, bundles) && d.current.Some?
    ensures Reachable(w, bundles) && w.booted && w.draining && w.m.stopped && w.lock.Free? && StartPending(w)
    ensures CanStart(w, bundles)
  {
    var first, w3 := BootFails(d, bundles);
    var more;
    more, w := EnvAtShutdown(w3, bundles);
    Joined(NewWorld(d, d.current, []), first, w3, more, w, bundles);
    StartAfterShutdownExactly(w, bundles);
  }

  /** The daemon comes up, but cannot read the env file. */
  lemma BootFails(d: Disk, bundles: Sha -> Bundle) returns (steps: seq<Step>, w: World)
    requires Safe(d, bundles) && d.current.Some?
    ensures Reaches(NewWorld(d, d.current, []), steps, w, bundles)
    ensures w == NewWorld(d, d.current, []).(booted := true)
  {
    SafeRunnable(d, bundles);
    var w0 := NewWorld(d, d.current, []);
    var w1 := Apply(w0, BootStart, bundles);
    var w2 := Apply(w1, StartRead, bundles);
    w := Apply(w2, StartEnds(EnvUnreadable), bundles);
    assert w.children == [];
    assert Reaches(w, [], w, bundles);
    StepThen(w2, StartEnds(EnvUnreadable), [], w, bundles);
    StepThen(w1, StartRead, [StartEnds(EnvUnreadable)] + [], w, bundles);
    StepThen(w0, BootStart, [StartRead] + ([StartEnds(EnvUnreadable)] + []), w, bundles);
    steps := [BootStart] + ([StartRead] + ([StartEnds(EnvUnreadable)] + []));
  }

  /** A handler has written the env file when the server gives up on it and Shutdown runs. */
  lemma EnvAtShutdown(w: World, bundles: Sha -> Bundle) returns (steps: seq<Step>, w': World)
    requires w == NewWorld(w.disk, w.disk.current, []).(booted := true) && Safe(w.disk, bundles) && w.disk.current.Some?
    ensures Reaches(w, steps, w', bundles)
    ensures w'.booted && w'.draining && w'.m.stopped && w'.lock.Free? && StartPending(w')
  {
    var first, w1 := EnvRequested(w, bundles);
    var more;
    more, w' := ShutsDown(w1, bundles);
    Joined(w, first, w1, more, w', bundles);
    steps := first + more;
  }

  lemma EnvRequested(w: World, bundles: Sha -> Bundle) returns (steps: seq<Step>, w': World)
    requires w == NewWorld(w.disk, w.disk.current, []).(booted := true) && Safe(w.disk, bundles) && w.disk.current.Some?
    ensures Reaches(w, steps, w', bundles)
    ensures w'.booted && !w'.draining && w'.lock.Free? && StartPending(w') && w'.handler.Working?
  {
    var r, d := SetEnv(map[]), w.disk.(env := Some(EnvFile.FileFor(map[])));
    SafeSame(w.disk, d, bundles);
    var w1 := Apply(w, RequestArrives(r), bundles);
    var w2 := Apply(w1, HandlerBegins(r), bundles);
    steps, w' := RunIsPath(w2, r, [(w.disk, BEGUN), (d, Preparing(true))], 1, bundles);
    StepThen(w1, HandlerBegins(r), steps, w', bundles);
    StepThen(w, RequestArrives(r), [HandlerBegins(r)] + steps, w', bundles);
    steps := [RequestArrives(r)] + ([HandlerBegins(r)] + steps);
  }

  lemma ShutsDown(w: World, bundles: Sha -> Bundle) returns (steps: seq<Step>, w': World)
    requires w.booted && !w.draining && w.lock.Free? && StartPending(w) && w.handler.Working?
    ensures Reaches(w, steps, w', bundles)
    ensures w'.booted && w'.draining && w'.m.stopped && w'.lock.Free? && StartPending(w')
  {
    var w1 := Apply(w, ServerCloses, bundles);
    w' := Apply(w1, ShutdownBegins, bundles);
    assert Reaches(w', [], w', bundles);
    StepThen(w1, ShutdownBegins, [], w', bundles);
    StepThen(w, ServerCloses, [ShutdownBegins] + [], w', bundles);
    steps := [ServerCloses] + ([ShutdownBegins] + []);
  }
}
