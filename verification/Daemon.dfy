/** The whole daemon in direct mode: one manager, any number of supervisors, the HTTP handlers
    that deploy, and the disk, interleaved step by step (main.go, server.go, deploy.go,
    process_direct.go under cmd/hivy-appd). */
module Daemon {
  import opened Prelude
  import opened Archive
  import opened Disk
  import opened Manager
  import Handlers = Deploy
  import EnvFile

  /** A supervisor's place: in `Wait`, past `close(done)`, in its backoff sleep, or returned. */
  datatype Phase = Waiting | Exited | Sleeping | Finished

  /** What became of the `stopProcess` call on a child, if there was one. */
  datatype Stop = NotAsked | Asked | SawDone | GaveUp

  /** A started child with its supervisor. `started` is when. `binary` and `workdir` are the releases `current`
      named when the binary and the working directory were resolved, `env` the file read. */
  datatype Child = Child(gen: nat, started: int, binary: Sha, workdir: Sha, env: Option<string>,
                         alive: bool, phase: Phase, stop: Stop)

  datatype Starter = Boot | BySupervisor(i: nat) | ByRestart

  /** The reads of `startLocked`, in order; the disk may change between them. */
  datatype StartPc = AtStat | AtEnv | AtLog(env: Option<string>) | AtExec(env: Option<string>, workdir: Sha)

  datatype Lock = Free | Starting(who: Starter, pc: StartPc)

  /** The handler holding `deployMu`: at work on the disk, in `stopProcess`, or past it. */
  datatype Handler =
    | Idle
    | Working(request: Request, progress: Progress)
    | Stopping(victim: Option<nat>)
    | Stopped
    | Launching

  /** `queue`: the requests taken in that wait for `deployMu`. `refused`: the variables that the last
      deploy refused at the swap since the last restart has put into the env file.
      `log`: the (old, new) pair of every activation since `current` was `origin`. */
  datatype World = World(disk: Disk, m: Manager, children: seq<Child>, lock: Lock, handler: Handler,
                         booted: bool, draining: bool, queue: multiset<Request>, refused: Option<Vars>,
                         origin: Option<Sha>, log: seq<(string, Sha)>)

  datatype Step =
    | BootStart
    | StartRead                       // the next read of startLocked succeeds
    | StartEnds(launch: Launch)       // startLocked returns
    | ChildDies(i: nat)
    | WaitReturns(i: nat)
    | SupervisorNotesExit(i: nat, now: int, detail: string)
    | SupervisorWakes(i: nat)
    | RequestArrives(r: Request)
    | HandlerBegins(r: Request)
    | HandlerMoves(progress: Progress, disk: Disk)
    | HandlerRefuses
    | RestartBegins
    | StopReturns(i: nat, sawDone: bool)
    | NothingToStop
    | RestartFinishes
    | ServerCloses
    | ShutdownBegins
    | Crash

  predicate HasChild(w: World, i: nat, phase: Phase) {
    i < |w.children| && w.children[i].phase == phase
  }

  /** The server takes requests only after the first `Start` returned. */
  predicate Booting(w: World) {
    w.lock.Starting? && w.lock.who.Boot?
  }

  /** Which results `startLocked` can have at its present read. */
  predicate CanEnd(w: World, launch: Launch) {
    w.lock.Starting? &&
    match w.lock.pc
    case AtStat => launch == NotDeployed && !Runnable(w.disk)
    case AtEnv => launch == EnvUnreadable
    case AtLog(_) => launch == LogUnopenable || launch.ExecFailed?
    case AtExec(_, _) =>
      launch.ExecFailed? || (launch.Started? && launch.child == |w.children| && w.disk.current.Some?)
  }

  ghost predicate Enabled(w: World, s: Step, bundles: Sha -> Bundle) {
    match s
    case BootStart => !w.booted && w.lock.Free?
    case StartRead =>
      w.lock.Starting? && (w.lock.pc.AtStat? ==> Runnable(w.disk)) && !w.lock.pc.AtExec? &&
      (w.lock.pc.AtLog? ==> w.disk.current.Some?)
    case StartEnds(launch) => CanEnd(w, launch)
    case ChildDies(i) => i < |w.children| && w.children[i].alive
    case WaitReturns(i) => HasChild(w, i, Waiting) && !w.children[i].alive
    case SupervisorNotesExit(i, _, _) => HasChild(w, i, Exited) && w.lock.Free?
    case SupervisorWakes(i) => HasChild(w, i, Sleeping) && w.lock.Free?
    case RequestArrives(r) => w.booted && !Booting(w) && !w.draining && (r.SetEnv? || ValidSha(r.sha))
    case HandlerBegins(r) => w.handler.Idle? && r in w.queue
    case HandlerMoves(progress, disk) =>
      w.handler.Working? && Moves(w.handler.request, w.handler.progress, w.disk, progress, disk, bundles)
    case HandlerRefuses => w.handler.Working? && !GoesOn(w.handler.request, w.handler.progress)
    case RestartBegins => w.handler.Working? && GoesOn(w.handler.request, w.handler.progress) && w.lock.Free?
    case StopReturns(i, sawDone) =>
      i < |w.children| && w.children[i].stop == Asked && (sawDone ==> w.children[i].phase != Waiting)
    case NothingToStop => w.handler == Stopping(None)
    case RestartFinishes => w.handler.Stopped? && w.lock.Free?
    case ServerCloses => w.booted && !Booting(w)
    case ShutdownBegins => w.draining && w.lock.Free?
    case Crash => true
  }

  function WithPhase(w: World, i: nat, phase: Phase): World
    requires i < |w.children|
  {
    w.(children := w.children[i := w.children[i].(phase := phase)])
  }

  /** Hand the tracked child, if any, to `stopProcess`. */
  function HandOver(w: World): World {
    match w.m.cmd
    case None => w
    case Some(i) => if i < |w.children| then w.(children := w.children[i := w.children[i].(stop := Asked)]) else w
  }

  /** `startLocked` returns: the lock is released, and a Restart that called it ends its handler. */
  function Release(w: World, launch: Launch): World
    requires CanEnd(w, launch)
  {
    var born :=
      if launch.Started?
      then [Child(w.m.gen + 1, launch.now, w.disk.current.value, w.lock.pc.workdir, w.lock.pc.env, true, Waiting, NotAsked)]
      else [];
    w.(m := StartLocked(w.m, launch), lock := Free, children := w.children + born,
       handler := if w.lock.who.ByRestart? then Idle else w.handler)
  }

  /** A supervisor that called `startLocked` returns after it. */
  function EndStart(w: World, launch: Launch): World
    requires CanEnd(w, launch)
  {
    var w' := Release(w, launch);
    if w.lock.who.BySupervisor? && w.lock.who.i < |w'.children| then WithPhase(w', w.lock.who.i, Finished) else w'
  }

  function NextRead(w: World): StartPc
    requires w.lock.Starting? && (w.lock.pc.AtLog? ==> w.disk.current.Some?)
  {
    match w.lock.pc
    case AtStat => AtEnv
    case AtEnv => AtLog(w.disk.env)
    case AtLog(env) => AtExec(env, w.disk.current.value)
    case AtExec(_, _) => w.lock.pc
  }

  ghost function Apply(w: World, s: Step, bundles: Sha -> Bundle): World
    requires Enabled(w, s, bundles)
  {
    match s
    case BootStart => w.(booted := true, lock := if w.m.cmd == None then Starting(Boot, AtStat) else Free)
    case StartRead => w.(lock := w.lock.(pc := NextRead(w)))
    case StartEnds(launch) => EndStart(w, launch)
    case ChildDies(i) => w.(children := w.children[i := w.children[i].(alive := false)])
    case WaitReturns(i) => WithPhase(w, i, Exited)
    case SupervisorNotesExit(i, now, detail) =>
      if InCharge(w.m, w.children[i].gen)
      then WithPhase(w, i, Sleeping).(m := ChildExited(w.m, now, detail))
      else WithPhase(w, i, Finished)
    case SupervisorWakes(i) =>
      if InCharge(w.m, w.children[i].gen) && w.m.cmd == None
      then w.(lock := Starting(BySupervisor(i), AtStat))
      else WithPhase(w, i, Finished)
    case RequestArrives(r) => w.(queue := w.queue + multiset{r})
    case HandlerBegins(r) => w.(handler := Working(r, BEGUN), queue := w.queue - multiset{r})
    case HandlerMoves(progress, disk) =>
      w.(handler := w.handler.(progress := progress), disk := disk,
         log := if progress.Switched? && disk.current.Some? then w.log + [(progress.before, disk.current.value)] else w.log)
    case HandlerRefuses =>
      w.(handler := Idle,
         refused := if w.handler.progress == Preparing(true) && w.handler.request.Deploy? then w.handler.request.env else w.refused)
    case RestartBegins => HandOver(w).(m := RestartBegin(w.m), handler := Stopping(w.m.cmd), refused := None)
    case StopReturns(i, sawDone) =>
      w.(children := w.children[i := w.children[i].(stop := if sawDone then SawDone else GaveUp)],
         handler := if w.handler == Stopping(Some(i)) then Stopped else w.handler)
    case NothingToStop => w.(handler := Stopped)
    case RestartFinishes => w.(handler := Launching, lock := Starting(ByRestart, AtStat))
    case ServerCloses => w.(draining := true)
    case ShutdownBegins => HandOver(w).(m := ShutdownBegin(w.m))
    case Crash => NewWorld(w.disk, w.origin, w.log)
  }

  /** A daemon about to boot; the activations made on the disk so far outlive it. */
  function NewWorld(disk: Disk, origin: Option<Sha>, log: seq<(string, Sha)>): World {
    World(disk, NEW_MANAGER, [], Free, Idle, false, false, multiset{}, None, origin, log)
  }

  /** The run `steps` leads from `w` to `w'`. */
  ghost predicate Reaches(w: World, steps: seq<Step>, w': World, bundles: Sha -> Bundle)
    decreases |steps|
  {
    if steps == [] then w == w'
    else Enabled(w, steps[0], bundles) && Reaches(Apply(w, steps[0], bundles), steps[1..], w', bundles)
  }

  // ----- The invariant -----

  /** Generations grow with the children and never exceed the manager's. */
  ghost predicate GensInv(w: World) {
    && (forall i, j :: 0 <= i < j < |w.children| ==> w.children[i].gen < w.children[j].gen)
    && (forall i :: 0 <= i < |w.children| ==> w.children[i].gen <= w.m.gen)
    && (forall i :: 0 <= i < |w.children| && w.children[i].gen == w.m.gen ==> w.children[i].started == w.m.startedAt)
  }

  ghost predicate TrackedInv(w: World) {
    w.m.cmd.Some? ==>
      var i := w.m.cmd.value;
      && i < |w.children| && w.children[i].gen == w.m.gen && w.children[i].stop == NotAsked
      && (w.children[i].phase in {Waiting, Exited} || (w.m.stopped && w.children[i].phase == Finished))
  }

  /** A live child is tracked or was handed to a stop that has not seen it end. */
  ghost predicate AliveInv(w: World) {
    forall i :: 0 <= i < |w.children| && w.children[i].alive ==>
      && w.children[i].phase == Waiting
      && (w.m.cmd == Some(i) || w.children[i].stop in {Asked, GaveUp})
  }

  ghost predicate LockInv(w: World) {
    w.lock.Starting? ==>
      && w.m.cmd == None && w.booted && (!w.lock.pc.AtStat? ==> w.disk.current.Some?)
      && (match w.lock.who
          case Boot => w.children == [] && w.handler.Idle? && !w.draining && w.queue == multiset{}
          case ByRestart => w.handler.Launching?
          case BySupervisor(i) =>
            HasChild(w, i, Sleeping) && InCharge(w.m, w.children[i].gen))
  }

  /** What a handler's progress says about the disk. */
  ghost predicate ProgressInv(r: Request, p: Progress, d: Disk) {
    match r
    case Deploy(_, _, env) =>
      && (p == Preparing(true) || (p.Switched? && env.Some?) ==>
            env.Some? && EnvFile.ValidVars(env.value) && d.env == Some(EnvFile.FileFor(env.value)))
      && (p.Switched? ==> d.current.Some?)
    case Rollback(_) => p != Preparing(true) && (p.Switched? ==> d.current.Some?)
    case SetEnv(vars) =>
      p == BEGUN || (p == Preparing(true) && EnvFile.ValidVars(vars) && d.env == Some(EnvFile.FileFor(vars)))
  }

  lemma ProgressKeeps(r: Request, p: Progress, d: Disk, p': Progress, d': Disk, bundles: Sha -> Bundle)
    requires ProgressInv(r, p, d) && Moves(r, p, d, p', d', bundles)
    ensures ProgressInv(r, p', d')
  {
  }

  ghost predicate HandlerInv(w: World) {
    && (w.handler.Launching? <==> w.lock.Starting? && w.lock.who.ByRestart?)
    && (w.handler.Stopping? || w.handler.Stopped? || w.handler.Launching? ==>
          w.m.cmd == None && forall i :: 0 <= i < |w.children| ==> w.children[i].gen < w.m.gen)
    && (w.handler.Working? ==> ProgressInv(w.handler.request, w.handler.progress, w.disk))
    && (w.handler.Stopping? && w.handler.victim.Some? ==>
          w.handler.victim.value < |w.children| && w.children[w.handler.victim.value].stop == Asked)
    && (!w.booted ==> w.children == [] && w.m.cmd == None && w.handler.Idle? && !w.draining && w.queue == multiset{})
  }

  /** The handler, if any, has not changed `current` yet. */
  predicate CurrentUntouched(w: World) {
    w.handler.Working? ==> w.handler.progress.Preparing?
  }

  predicate EnvUntouched(w: World) {
    w.handler.Working? ==> w.handler.progress == BEGUN
  }

  /** Child `i` runs the release that `current` names, in that release's directory. */
  predicate RunsCurrent(w: World, i: nat) {
    i < |w.children| && w.disk.current == Some(w.children[i].binary) && w.disk.current == Some(w.children[i].workdir)
  }

  ghost predicate FreshInv(w: World) {
    && (CurrentUntouched(w) ==>
          && (w.m.cmd.Some? ==> RunsCurrent(w, w.m.cmd.value))
          && (w.lock.Starting? && w.lock.pc.AtExec? ==> w.disk.current == Some(w.lock.pc.workdir)))
    && (EnvUntouched(w) && w.refused == None ==>
          && (w.m.cmd.Some? && w.m.cmd.value < |w.children| ==> w.children[w.m.cmd.value].env == w.disk.env)
          && (w.lock.Starting? && (w.lock.pc.AtLog? || w.lock.pc.AtExec?) ==> w.lock.pc.env == w.disk.env))
    && (EnvUntouched(w) && w.refused.Some? ==>
          EnvFile.ValidVars(w.refused.value) && w.disk.env == Some(EnvFile.FileFor(w.refused.value)))
  }

  /** The activations form a chain from `origin` to `current`. */
  ghost predicate Chain(log: seq<(string, Sha)>, origin: Option<Sha>, current: Option<Sha>) {
    && (forall k :: 0 <= k < |log| - 1 ==> log[k].1 == log[k + 1].0)
    && (log != [] ==> log[0].0 == if origin.Some? then origin.value else "")
    && current == if log == [] then origin else Some(log[|log| - 1].1)
  }

  ghost predicate LogInv(w: World) {
    Chain(w.log, w.origin, w.disk.current)
  }

  lemma ChainGrows(log: seq<(string, Sha)>, origin: Option<Sha>, d: Disk, after: Sha)
    requires Chain(log, origin, d.current) && (d.current.Some? ==> ValidSha(d.current.value))
    ensures Chain(log + [(CurrentSHA(d), after)], origin, Some(after))
  {
  }

  ghost predicate ManagerInv(w: World) {
    && GensInv(w) && TrackedInv(w) && AliveInv(w) && LockInv(w) && HandlerInv(w) && FreshInv(w)
  }

  ghost predicate DiskInv(w: World, bundles: Sha -> Bundle) {
    Safe(w.disk, bundles) && LogInv(w)
  }

  ghost predicate Inv(w: World, bundles: Sha -> Bundle) {
    ManagerInv(w) && DiskInv(w, bundles)
  }

  /** Moving on a supervisor that is not starting a child, once its own child is dead. */
  lemma PhaseKeeps(w: World, i: nat, phase: Phase)
    requires ManagerInv(w) && i < |w.children| && !w.children[i].alive && phase != Waiting
    requires w.lock.Starting? ==> w.lock.who != BySupervisor(i)
    requires w.m.cmd == Some(i) ==> phase == Exited || (w.m.stopped && phase == Finished)
    ensures ManagerInv(WithPhase(w, i, phase))
  {
    var w' := WithPhase(w, i, phase);
    assert GensInv(w') && TrackedInv(w') && AliveInv(w');
    assert LockInv(w');
  }

  /** Without a child, only the lock and the last error change. */
  lemma NoStartKeeps(w: World, launch: Launch)
    requires ManagerInv(w) && CanEnd(w, launch) && !launch.Started?
    ensures ManagerInv(Release(w, launch))
  {
    var w' := Release(w, launch);
    assert w'.children == w.children;
    assert GensInv(w') && TrackedInv(w') && AliveInv(w');
  }

  lemma StartedKeeps(w: World, launch: Launch)
    requires ManagerInv(w) && CanEnd(w, launch) && launch.Started?
    ensures ManagerInv(Release(w, launch))
  {
    var w' := Release(w, launch);
    assert forall i :: 0 <= i < |w.children| ==> w'.children[i] == w.children[i];
    assert w'.children[|w.children|].gen == w.m.gen + 1;
    assert GensInv(w') && TrackedInv(w');
    assert AliveInv(w');
    assert LockInv(w') && HandlerInv(w');
  }

  lemma StartEndsKeeps(w: World, bundles: Sha -> Bundle, launch: Launch)
    requires ManagerInv(w) && Enabled(w, StartEnds(launch), bundles)
    ensures ManagerInv(Apply(w, StartEnds(launch), bundles))
  {
    if launch.Started? {
      StartedKeeps(w, launch);
    } else {
      NoStartKeeps(w, launch);
    }
    if w.lock.who.BySupervisor? {
      var w', i := Release(w, launch), w.lock.who.i;
      assert w'.children[i] == w.children[i];
      PhaseKeeps(w', i, Finished);
    }
  }

  lemma NotesExitKeeps(w: World, bundles: Sha -> Bundle, i: nat, now: int, detail: string)
    requires ManagerInv(w) && Enabled(w, SupervisorNotesExit(i, now, detail), bundles)
    ensures ManagerInv(Apply(w, SupervisorNotesExit(i, now, detail), bundles))
  {
    if InCharge(w.m, w.children[i].gen) {
      var w1 := w.(m := ChildExited(w.m, now, detail));
      assert GensInv(w1) && TrackedInv(w1) && LockInv(w1);
      assert w.m.cmd.Some? ==> w.m.cmd.value == i;
      assert AliveInv(w1);
      PhaseKeeps(w1, i, Sleeping);
    } else {
      PhaseKeeps(w, i, Finished);
    }
  }

  lemma WakesKeeps(w: World, bundles: Sha -> Bundle, i: nat)
    requires ManagerInv(w) && Enabled(w, SupervisorWakes(i), bundles)
    ensures ManagerInv(Apply(w, SupervisorWakes(i), bundles))
  {
    if InCharge(w.m, w.children[i].gen) && w.m.cmd == None {
      var w' := Apply(w, SupervisorWakes(i), bundles);
      assert GensInv(w') && TrackedInv(w') && AliveInv(w');
    } else {
      PhaseKeeps(w, i, Finished);
    }
  }

  lemma HandlerBeginsKeeps(w: World, bundles: Sha -> Bundle, s: Step)
    requires s.HandlerBegins? && ManagerInv(w) && Enabled(w, s, bundles)
    ensures ManagerInv(Apply(w, s, bundles))
  {
  }

  lemma HandlerMovesKeeps(w: World, p: Progress, d: Disk, bundles: Sha -> Bundle)
    requires ManagerInv(w) && Enabled(w, HandlerMoves(p, d), bundles)
    ensures ManagerInv(Apply(w, HandlerMoves(p, d), bundles))
  {
    ProgressKeeps(w.handler.request, w.handler.progress, w.disk, p, d, bundles);
  }

  lemma HandlerRefusesKeeps(w: World, bundles: Sha -> Bundle)
    requires ManagerInv(w) && Enabled(w, HandlerRefuses, bundles)
    ensures ManagerInv(Apply(w, HandlerRefuses, bundles))
  {
  }

  lemma RestartBeginsKeeps(w: World, bundles: Sha -> Bundle)
    requires ManagerInv(w) && Enabled(w, RestartBegins, bundles)
    ensures ManagerInv(Apply(w, RestartBegins, bundles))
  {
  }

  lemma ShutdownBeginsKeeps(w: World, bundles: Sha -> Bundle)
    requires ManagerInv(w) && Enabled(w, ShutdownBegins, bundles)
    ensures ManagerInv(Apply(w, ShutdownBegins, bundles))
  {
  }

  lemma StopReturnsKeeps(w: World, bundles: Sha -> Bundle, i: nat, sawDone: bool)
    requires ManagerInv(w) && Enabled(w, StopReturns(i, sawDone), bundles)
    ensures ManagerInv(Apply(w, StopReturns(i, sawDone), bundles))
  {
    var w' := Apply(w, StopReturns(i, sawDone), bundles);
    assert GensInv(w') && LockInv(w');
    assert AliveInv(w');
  }

  lemma ChildDiesKeeps(w: World, i: nat, bundles: Sha -> Bundle)
    requires ManagerInv(w) && Enabled(w, ChildDies(i), bundles)
    ensures ManagerInv(Apply(w, ChildDies(i), bundles))
  {
    var w' := Apply(w, ChildDies(i), bundles);
    assert GensInv(w') && LockInv(w');
    assert AliveInv(w');
  }

  lemma LockStepKeeps(w: World, bundles: Sha -> Bundle, s: Step)
    requires s in {BootStart, StartRead, NothingToStop, RestartFinishes, ServerCloses, Crash} || s.RequestArrives?
    requires ManagerInv(w) && Enabled(w, s, bundles)
    ensures ManagerInv(Apply(w, s, bundles))
  {
    var w' := Apply(w, s, bundles);
    assert GensInv(w') && TrackedInv(w') && AliveInv(w');
    assert LockInv(w');
  }

  /** Only a handler's own steps touch the disk. */
  lemma OthersLeaveDisk(w: World, s: Step, bundles: Sha -> Bundle)
    requires Enabled(w, s, bundles) && !s.HandlerMoves?
    ensures var w' := Apply(w, s, bundles);
            w'.disk == w.disk && w'.log == w.log && w'.origin == w.origin
  {
  }

  lemma HandlerMovesDisk(w: World, p: Progress, d: Disk, bundles: Sha -> Bundle)
    requires DiskInv(w, bundles) && Enabled(w, HandlerMoves(p, d), bundles)
    ensures DiskInv(Apply(w, HandlerMoves(p, d), bundles), bundles)
  {
    if p.Switched? {
      ChainGrows(w.log, w.origin, w.disk, d.current.value);
    }
  }

  lemma DiskKeeps(w: World, bundles: Sha -> Bundle, s: Step)
    requires DiskInv(w, bundles) && Enabled(w, s, bundles)
    ensures DiskInv(Apply(w, s, bundles), bundles)
  {
    if s.HandlerMoves? {
      HandlerMovesDisk(w, s.progress, s.disk, bundles);
    } else {
      OthersLeaveDisk(w, s, bundles);
    }
  }

  lemma ManagerKeeps(w: World, bundles: Sha -> Bundle, s: Step)
    requires ManagerInv(w) && Enabled(w, s, bundles)
    ensures ManagerInv(Apply(w, s, bundles))
  {
    match s {
      case StartEnds(launch) => StartEndsKeeps(w, bundles, launch);
      case SupervisorNotesExit(i, now, detail) => NotesExitKeeps(w, bundles, i, now, detail);
      case SupervisorWakes(i) => WakesKeeps(w, bundles, i);
      case HandlerBegins(_) => HandlerBeginsKeeps(w, bundles, s);
      case HandlerMoves(p, d) => HandlerMovesKeeps(w, p, d, bundles);
      case HandlerRefuses => HandlerRefusesKeeps(w, bundles);
      case RestartBegins => RestartBeginsKeeps(w, bundles);
      case StopReturns(i, sawDone) => StopReturnsKeeps(w, bundles, i, sawDone);
      case ShutdownBegins => ShutdownBeginsKeeps(w, bundles);
      case ChildDies(i) => ChildDiesKeeps(w, i, bundles);
      case WaitReturns(i) => PhaseKeeps(w, i, Exited);
      case _ => LockStepKeeps(w, bundles, s);
    }
  }

  /** Every step of the manager, a supervisor, a handler, a child or a crash keeps the invariant. */
  lemma StepKeepsInv(w: World, s: Step, bundles: Sha -> Bundle)
    requires Inv(w, bundles) && Enabled(w, s, bundles)
    ensures Inv(Apply(w, s, bundles), bundles)
  {
    DiskKeeps(w, bundles, s);
    ManagerKeeps(w, bundles, s);
  }

  lemma {:induction false} RunKeepsInv(w: World, steps: seq<Step>, w': World, bundles: Sha -> Bundle)
    requires Inv(w, bundles) && Reaches(w, steps, w', bundles)
    ensures Inv(w', bundles)
    decreases |steps|
  {
    if steps != [] {
      StepKeepsInv(w, steps[0], bundles);
      RunKeepsInv(Apply(w, steps[0], bundles), steps[1..], w', bundles);
    }
  }

  /** `w` comes about after the daemon first boots on a safe disk. */
  ghost predicate Reachable(w: World, bundles: Sha -> Bundle) {
    exists disk, steps :: Safe(disk, bundles) && Reaches(NewWorld(disk, disk.current, []), steps, w, bundles)
  }

  lemma ReachableInv(w: World, bundles: Sha -> Bundle)
    requires Reachable(w, bundles)
    ensures Inv(w, bundles)
  {
    var disk, steps :| Safe(disk, bundles) && Reaches(NewWorld(disk, disk.current, []), steps, w, bundles);
    RunKeepsInv(NewWorld(disk, disk.current, []), steps, w, bundles);
  }

  // ----- What holds in every reachable state -----

  ghost predicate HoldsGen(w: World, i: nat) {
    i < |w.children| && w.children[i].gen == w.m.gen
  }

  /** Generations are distinct and bounded; at most one supervisor holds the manager's; a tracked
      child's supervisor is the one that does, and short of a shutdown it has yet to report. */
  lemma SupervisorGenerations(w: World, bundles: Sha -> Bundle)
    requires Reachable(w, bundles)
    ensures forall i, j :: 0 <= i < j < |w.children| ==> w.children[i].gen != w.children[j].gen
    ensures forall i :: 0 <= i < |w.children| ==> w.children[i].gen <= w.m.gen
    ensures forall i: nat, j: nat :: HoldsGen(w, i) && HoldsGen(w, j) ==> i == j
    ensures w.m.cmd.Some? ==> HoldsGen(w, w.m.cmd.value)
    ensures w.m.cmd.Some? && !w.m.stopped ==> w.children[w.m.cmd.value].phase in {Waiting, Exited}
  {
    ReachableInv(w, bundles);
  }

  /** Whoever is inside `startLocked` found no tracked child, and a supervisor there is still in
      charge. The guard `m.cmd != nil` of a supervisor that wakes in charge never holds. */
  lemma OnlyInChargeStarts(w: World, bundles: Sha -> Bundle)
    requires Reachable(w, bundles)
    ensures w.lock.Starting? ==> w.m.cmd == None
    ensures w.lock.Starting? && w.lock.who.BySupervisor? ==>
              w.lock.who.i < |w.children| && InCharge(w.m, w.children[w.lock.who.i].gen)
    ensures forall i: nat :: HasChild(w, i, Sleeping) && InCharge(w.m, w.children[i].gen) ==> w.m.cmd == None
  {
    ReachableInv(w, bundles);
    if w.m.cmd.Some? {
      SupervisorGenerations(w, bundles);
      forall i: nat | HasChild(w, i, Sleeping) ensures !InCharge(w.m, w.children[i].gen) {
        assert HoldsGen(w, i) ==> i == w.m.cmd.value;
      }
    }
  }

  /** Until a handler moves `current`, the tracked child runs the release it names; in particular
      whenever no handler holds the deploy lock, however the last one ended. */
  lemma TrackedChildIsCurrent(w: World, bundles: Sha -> Bundle)
    requires Reachable(w, bundles) && w.m.cmd.Some?
    requires w.handler.Idle? || CurrentUntouched(w)
    ensures RunsCurrent(w, w.m.cmd.value)
    ensures Released(w.disk, w.disk.current.value)
    ensures HoldsBundle(w.disk.releases[w.disk.current.value], bundles(w.disk.current.value))
  {
    ReachableInv(w, bundles);
    CompleteHolds(w.disk.releases[w.disk.current.value], bundles(w.disk.current.value));
  }

  /** The environment child `i` runs in is that of the env file as it is now. */
  predicate RunsAsFiled(w: World, i: nat) {
    i < |w.children| && EnvFile.EnvOf(w.children[i].env) == EnvFile.EnvOf(w.disk.env)
  }

  /** With no handler at work the tracked child runs as the env file says exactly if no deploy was
      refused at the swap since the last restart, or the last of those sent what the child has. */
  lemma TrackedChildHasEnv(w: World, bundles: Sha -> Bundle)
    requires Reachable(w, bundles) && w.m.cmd.Some? && w.handler.Idle?
    ensures w.m.cmd.value < |w.children|
    ensures RunsAsFiled(w, w.m.cmd.value)
            <==> w.refused == None || EnvFile.EnvOf(w.children[w.m.cmd.value].env) == EnvFile.EnvWith(w.refused.value)
  {
    ReachableInv(w, bundles);
    if w.refused.Some? {
      EnvFile.WrittenEnv(w.refused.value);
    }
  }

  /** The variables that a step puts into the env file. */
  function Sends(w: World, s: Step): Option<Vars> {
    if s.HandlerMoves? && w.handler.Working? && w.handler.progress == BEGUN && s.progress == Preparing(true) then
      match w.handler.request
      case Deploy(_, _, env) => env
      case Rollback(_) => None
      case SetEnv(vars) => Some(vars)
    else None
  }

  /** The last variables put there in a run. */
  ghost function LastSent(w: World, steps: seq<Step>, w': World, bundles: Sha -> Bundle): Option<Vars>
    requires Reaches(w, steps, w', bundles)
    decreases |steps|
  {
    if steps == [] then None
    else
      var later := LastSent(Apply(w, steps[0], bundles), steps[1..], w', bundles);
      if later.Some? then later else Sends(w, steps[0])
  }

  lemma StepSends(w: World, s: Step, bundles: Sha -> Bundle)
    requires Enabled(w, s, bundles)
    ensures match Sends(w, s)
            case None => Apply(w, s, bundles).disk.env == w.disk.env
            case Some(vars) =>
              EnvFile.ValidVars(vars) && Apply(w, s, bundles).disk.env == Some(EnvFile.FileFor(vars))
  {
    if !s.HandlerMoves? {
      OthersLeaveDisk(w, s, bundles);
    }
  }

  lemma {:induction false} FileIsLastSent(w: World, steps: seq<Step>, w': World, bundles: Sha -> Bundle)
    requires Reaches(w, steps, w', bundles)
    ensures match LastSent(w, steps, w', bundles)
            case None => w'.disk.env == w.disk.env
            case Some(vars) => EnvFile.ValidVars(vars) && w'.disk.env == Some(EnvFile.FileFor(vars))
    decreases |steps|
  {
    if steps != [] {
      StepSends(w, steps[0], bundles);
      FileIsLastSent(Apply(w, steps[0], bundles), steps[1..], w', bundles);
    }
  }

  /** Over any run of one daemon: a child that runs as the env file says, as one just started does,
      still does so at the end exactly if nothing was put there, or last the same environment. */
  lemma EnvOverRun(w: World, steps: seq<Step>, w': World, i: nat, bundles: Sha -> Bundle)
    requires Reaches(w, steps, w', bundles) && Crash !in steps && RunsAsFiled(w, i)
    ensures var last := LastSent(w, steps, w', bundles);
            RunsAsFiled(w', i) <==> last == None || EnvFile.EnvOf(w.disk.env) == EnvFile.EnvWith(last.value)
  {
    FileIsLastSent(w, steps, w', bundles);
    ChildrenKeepEnvs(w, steps, w', bundles);
    var last := LastSent(w, steps, w', bundles);
    if last.Some? {
      EnvFile.WrittenEnv(last.value);
    }
  }

  /** The handler that began stays at work. */
  predicate During(s: Step) {
    !s.HandlerBegins? && !s.HandlerRefuses? && !s.RestartBegins? && !s.Crash?
  }

  lemma DuringStep(w: World, s: Step, bundles: Sha -> Bundle)
    requires HandlerInv(w) && w.handler.Working? && Enabled(w, s, bundles) && During(s)
    ensures var w' := Apply(w, s, bundles);
            && w'.handler.Working? && w'.handler.request == w.handler.request
            && if s.HandlerMoves? then w'.disk == s.disk && w'.handler.progress == s.progress
               else w'.disk == w.disk && w'.handler.progress == w.handler.progress
  {
  }

  /** A child keeps the environment it was started with. */
  ghost predicate KeepsEnv(w: World, w': World) {
    |w'.children| >= |w.children| && forall i :: 0 <= i < |w.children| ==> w'.children[i].env == w.children[i].env
  }

  /** Only these steps change the list of children. */
  predicate TouchesChildren(s: Step) {
    s.StartEnds? || s.ChildDies? || s.WaitReturns? || s.SupervisorNotesExit? || s.SupervisorWakes?
    || s.RestartBegins? || s.StopReturns? || s.ShutdownBegins?
  }

  lemma OthersLeaveChildren(w: World, s: Step, bundles: Sha -> Bundle)
    requires Enabled(w, s, bundles) && !TouchesChildren(s) && !s.Crash?
    ensures Apply(w, s, bundles).children == w.children
  {
  }

  lemma StartKeepsEnv(w: World, launch: Launch)
    requires CanEnd(w, launch)
    ensures KeepsEnv(w, EndStart(w, launch))
  {
  }

  lemma ChildStepKeepsEnv(w: World, s: Step, bundles: Sha -> Bundle)
    requires Enabled(w, s, bundles) && TouchesChildren(s) && !HandsOver(s) && !s.StartEnds?
    ensures KeepsEnv(w, Apply(w, s, bundles))
  {
  }

  predicate HandsOver(s: Step) {
    s.RestartBegins? || s.ShutdownBegins?
  }

  lemma HandOverKeepsEnv(w: World, s: Step, bundles: Sha -> Bundle)
    requires Enabled(w, s, bundles) && HandsOver(s)
    ensures KeepsEnv(w, Apply(w, s, bundles))
  {
    assert KeepsEnv(w, HandOver(w));
  }

  lemma ChildrenKeepEnv(w: World, s: Step, bundles: Sha -> Bundle)
    requires Enabled(w, s, bundles) && !s.Crash?
    ensures KeepsEnv(w, Apply(w, s, bundles))
  {
    if s.StartEnds? {
      StartKeepsEnv(w, s.launch);
    } else if HandsOver(s) {
      HandOverKeepsEnv(w, s, bundles);
    } else if TouchesChildren(s) {
      ChildStepKeepsEnv(w, s, bundles);
    } else {
      OthersLeaveChildren(w, s, bundles);
    }
  }

  lemma {:induction false} ChildrenKeepEnvs(w: World, steps: seq<Step>, w': World, bundles: Sha -> Bundle)
    requires Reaches(w, steps, w', bundles) && Crash !in steps
    ensures KeepsEnv(w, w')
    decreases |steps|
  {
    if steps != [] {
      assert steps[0] in steps;
      ChildrenKeepEnv(w, steps[0], bundles);
      ChildrenKeepEnvs(Apply(w, steps[0], bundles), steps[1..], w', bundles);
    }
  }

  /** A deploy at work changes the env file only to what it was sent, and then knows that it has. */
  lemma {:induction false} DeployWritesOwnEnv(w: World, steps: seq<Step>, w': World, bundles: Sha -> Bundle)
    requires Inv(w, bundles) && w.handler.Working? && w.handler.request.Deploy? && Reaches(w, steps, w', bundles)
    requires forall s :: s in steps ==> During(s)
    ensures w'.handler.Working? && w'.handler.request == w.handler.request
    ensures var p, p', env := w.handler.progress, w'.handler.progress, w.handler.request.env;
            && (p == p' ==> LastSent(w, steps, w', bundles) == None)
            && (p == BEGUN && p' == Preparing(true) ==> env.Some? && LastSent(w, steps, w', bundles) == env)
            && (p != BEGUN ==> p' != BEGUN) && (p.Switched? ==> p' == p)
    decreases |steps|
  {
    if steps != [] {
      assert steps[0] in steps;
      DuringStep(w, steps[0], bundles);
      StepKeepsInv(w, steps[0], bundles);
      DeployWritesOwnEnv(Apply(w, steps[0], bundles), steps[1..], w', bundles);
    }
  }

  /** A deploy refused at the swap, whatever else went on meanwhile: a child that ran as the env file
      says does so afterwards exactly if no variables were sent, or those it has over the base. */
  lemma RefusedDeployEnvExactly(w: World, r: Request, steps: seq<Step>, w': World, i: nat, bundles: Sha -> Bundle)
    requires Reachable(w, bundles) && r.Deploy? && Enabled(w, HandlerBegins(r), bundles)
    requires Reaches(Apply(w, HandlerBegins(r), bundles), steps, w', bundles) && forall s :: s in steps ==> During(s)
    requires Enabled(w', HandlerRefuses, bundles) && w'.handler.progress == Preparing(r.env.Some?)
    requires RunsAsFiled(w, i)
    ensures var after := Apply(w', HandlerRefuses, bundles);
            && after.handler.Idle?
            && (RunsAsFiled(after, i) <==> r.env == None || EnvFile.EnvOf(w.disk.env) == EnvFile.EnvWith(r.env.value))
  {
    var began := Apply(w, HandlerBegins(r), bundles);
    ReachableInv(w, bundles);
    StepKeepsInv(w, HandlerBegins(r), bundles);
    DeployWritesOwnEnv(began, steps, w', bundles);
    EnvOverRun(began, steps, w', i, bundles);
  }

  lemma StepThen(w: World, s: Step, steps: seq<Step>, w': World, bundles: Sha -> Bundle)
    requires Enabled(w, s, bundles) && Reaches(Apply(w, s, bundles), steps, w', bundles)
    ensures Reaches(w, [s] + steps, w', bundles)
  {
    assert ([s] + steps)[1..] == steps;
  }

  lemma {:induction false} Joined(w: World, steps: seq<Step>, w1: World, more: seq<Step>, w': World, bundles: Sha -> Bundle)
    requires Reaches(w, steps, w1, bundles) && Reaches(w1, more, w', bundles)
    ensures Reaches(w, steps + more, w', bundles)
    decreases |steps|
  {
    if steps == [] {
      assert steps + more == more;
    } else {
      var next := Apply(w, steps[0], bundles);
      Joined(next, steps[1..], w1, more, w', bundles);
      StepThen(w, steps[0], steps[1..] + more, w', bundles);
      assert [steps[0]] + (steps[1..] + more) == steps + more;
    }
  }

  /** One more step. */
  lemma Then(w: World, steps: seq<Step>, w1: World, s: Step, bundles: Sha -> Bundle)
    requires Reaches(w, steps, w1, bundles) && Enabled(w1, s, bundles)
    ensures Reaches(w, steps + [s], Apply(w1, s, bundles), bundles)
  {
    var w' := Apply(w1, s, bundles);
    assert Reaches(w', [], w', bundles);
    StepThen(w1, s, [], w', bundles);
    assert [s] + [] == [s];
    Joined(w, steps, w1, [s], w', bundles);
  }

  /** Only the handler's own part of the world differs. */
  predicate SameBut(w: World, w': World) {
    w'.m == w.m && w'.children == w.children && w'.lock == w.lock && w'.booted == w.booted && w'.draining == w.draining
    && w'.queue == w.queue && w'.refused == w.refused
  }

  /** Every run of a handler of `Deploy.AppRoot` is one of the daemon's. */
  lemma {:induction false} RunIsPath(w: World, r: Request, run: seq<(Disk, Progress)>, n: nat, bundles: Sha -> Bundle)
    returns (steps: seq<Step>, w': World)
    requires IsRun(r, run, bundles) && n < |run| && w.handler == Working(r, BEGUN) && w.disk == run[0].0
    ensures Reaches(w, steps, w', bundles) && SameBut(w, w')
    ensures w'.handler == Working(r, run[n].1) && w'.disk == run[n].0
  {
    if n == 0 {
      assert Reaches(w, [], w, bundles);
      return [], w;
    }
    var before, w1 := RunIsPath(w, r, run, n - 1, bundles);
    var s := HandlerMoves(run[n].1, run[n].0);
    assert Moves(r, run[n - 1].1, run[n - 1].0, run[n - 1 + 1].1, run[n - 1 + 1].0, bundles);
    Then(w, before, w1, s, bundles);
    steps, w' := before + [s], Apply(w1, s, bundles);
  }

  /** A run that a handler gives up, from the request's arrival to the handler's return. */
  lemma RefusedRun(w: World, r: Request, run: seq<(Disk, Progress)>, bundles: Sha -> Bundle)
    returns (steps: seq<Step>, w': World)
    requires Enabled(w, RequestArrives(r), bundles) && w.handler.Idle?
    requires IsRun(r, run, bundles) && w.disk == run[0].0 && !GoesOn(r, run[|run| - 1].1)
    ensures Reaches(w, steps, w', bundles) && w'.handler.Idle? && w'.disk == run[|run| - 1].0
    ensures w'.m == w.m && w'.children == w.children
  {
    var s1, s2 := RequestArrives(r), HandlerBegins(r);
    var w1 := Apply(w, s1, bundles);
    var w2 := Apply(w1, s2, bundles);
    var moves, w3 := RunIsPath(w2, r, run, |run| - 1, bundles);
    Then(w2, moves, w3, HandlerRefuses, bundles);
    w' := Apply(w3, HandlerRefuses, bundles);
    StepThen(w1, s2, moves + [HandlerRefuses], w', bundles);
    StepThen(w, s1, [s2] + (moves + [HandlerRefuses]), w', bundles);
    steps := [s1] + ([s2] + (moves + [HandlerRefuses]));
  }

  /** The failure made to happen: with a tracked child and no handler at work, deploy its release
      again with variables it does not have while symlinks cannot be made. The handler answers that
      the swap failed, and the child runs on in an environment that is not the file's. */
  method RefusedDeploy(root: Handlers.AppRoot, ghost w: World, vars: Vars) returns (ghost steps: seq<Step>, ghost w': World)
    requires root.Valid() && Reachable(w, root.bundles) && w.disk == root.disk
    requires w.m.cmd.Some? && w.handler.Idle? && w.refused == None && !w.draining
    requires EnvFile.ValidVars(vars) && EnvFile.EnvOf(w.disk.env) != EnvFile.EnvWith(vars)
    modifies root
    ensures Reaches(w, steps, w', root.bundles) && w'.handler.Idle? && w'.disk == root.disk
    ensures w'.m == w.m && w'.children == w.children && w'.disk.env == Some(EnvFile.FileFor(vars))
    ensures EnvFile.EnvOf(w'.disk.env) == EnvFile.EnvWith(vars) && !RunsAsFiled(w', w'.m.cmd.value)
  {
    RunningAsFiled(w, root.bundles);
    EnvFile.WrittenEnv(vars);
    var sha := root.disk.current.value;
    ghost var r := Deploy(sha, "", Some(vars));
    var response := root.HandleDeploy(sha, "https://bundles/app.zip", "", Some(vars), true,
                                      Handlers.Calls(true, true, true, false, true, true));
    assert response == Handlers.SwapFailed;
    steps, w' := RefusedRun(w, r, root.run, root.bundles);
  }

  /** Such a failure can happen in every such state, to all variables that give another environment. */
  lemma RefusedDeployLeavesEnvStale(w: World, vars: Vars, bundles: Sha -> Bundle)
    requires Reachable(w, bundles) && w.m.cmd.Some? && w.handler.Idle? && w.refused == None && !w.draining
    requires EnvFile.ValidVars(vars) && EnvFile.EnvOf(w.disk.env) != EnvFile.EnvWith(vars)
    ensures exists steps, w' ::
              && Reaches(w, steps, w', bundles) && w'.handler.Idle? && w'.m == w.m && w'.children == w.children
              && EnvFile.EnvOf(w'.disk.env) == EnvFile.EnvWith(vars) && !RunsAsFiled(w', w'.m.cmd.value)
  {
    RunningAsFiled(w, bundles);
    EnvFile.WrittenEnv(vars);
    var r := Deploy(w.disk.current.value, "", Some(vars));
    var d := w.disk.(env := Some(EnvFile.FileFor(vars)));
    EnvRun(r, w.disk, d, bundles);
    var steps, w' := RefusedRun(w, r, [(w.disk, BEGUN), (d, Preparing(true))], bundles);
  }

  /** A deploy of a release that is there, as far as its env file. */
  lemma EnvRun(r: Request, d: Disk, d': Disk, bundles: Sha -> Bundle)
    requires r.Deploy? && r.env.Some? && Released(d, r.sha) && Writes(d, d', r.env.value) && Safe(d, bundles)
    ensures IsRun(r, [(d, BEGUN), (d', Preparing(true))], bundles)
  {
    SafeSame(d, d', bundles);
  }

  lemma RunningAsFiled(w: World, bundles: Sha -> Bundle)
    requires Reachable(w, bundles) && w.m.cmd.Some? && w.handler.Idle? && w.refused == None
    ensures w.booted && !Booting(w) && RunsAsFiled(w, w.m.cmd.value) && Safe(w.disk, bundles)
    ensures w.disk.current.Some? && ValidSha(w.disk.current.value) && Released(w.disk, w.disk.current.value)
  {
    TrackedChildHasEnv(w, bundles);
    TrackedChildIsCurrent(w, bundles);
    ReachableInv(w, bundles);
  }

  /** No child is lost: a live one is tracked or was handed to `stopProcess`. */
  lemma NoChildLost(w: World, bundles: Sha -> Bundle, i: nat)
    requires Reachable(w, bundles) && i < |w.children| && w.children[i].alive
    ensures w.m.cmd == Some(i) || w.children[i].stop in {Asked, GaveUp}
  {
    ReachableInv(w, bundles);
  }

  /** If every stop so far has seen its child end, at most one child is alive. */
  lemma AtMostOneAlive(w: World, bundles: Sha -> Bundle, i: nat, j: nat)
    requires Reachable(w, bundles)
    requires forall k :: 0 <= k < |w.children| ==> w.children[k].stop in {NotAsked, SawDone}
    requires i < |w.children| && w.children[i].alive && j < |w.children| && w.children[j].alive
    ensures i == j && w.m.cmd == Some(i)
  {
    ReachableInv(w, bundles);
  }

  /** Through any deploys, rollbacks and crashes: releases are whole, `current` names one, and the
      activations form a chain that ends in what `current` names. */
  lemma DiskStaysSafe(w: World, bundles: Sha -> Bundle)
    requires Reachable(w, bundles)
    ensures forall sha :: Released(w.disk, sha) ==> HoldsBundle(w.disk.releases[sha], bundles(sha))
    ensures w.disk.current.Some? ==> Runnable(w.disk)
    ensures forall k :: 0 <= k < |w.log| - 1 ==> w.log[k].1 == w.log[k + 1].0
    ensures w.disk.current == if w.log == [] then w.origin else Some(w.log[|w.log| - 1].1)
  {
    ReachableInv(w, bundles);
    SafeRunnable(w.disk, bundles);
    forall sha | Released(w.disk, sha) ensures HoldsBundle(w.disk.releases[sha], bundles(sha)) {
      CompleteHolds(w.disk.releases[sha], bundles(sha));
    }
  }

  /** No run of the daemon, with deploys, rollbacks and crashes, changes a finished release. */
  lemma {:induction false} ReleasesStay(w: World, steps: seq<Step>, w': World, bundles: Sha -> Bundle)
    requires Reaches(w, steps, w', bundles)
    ensures KeepsReleased(w.disk, w'.disk)
    decreases |steps|
  {
    if steps != [] {
      var s, w1 := steps[0], Apply(w, steps[0], bundles);
      if s.HandlerMoves? {
        MoveKeepsReleased(w.handler.request, w.handler.progress, w.disk, s.progress, s.disk, bundles);
      } else {
        OthersLeaveDisk(w, s, bundles);
      }
      ReleasesStay(w1, steps[1..], w', bundles);
    }
  }
}
