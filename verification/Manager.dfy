/** cmd/hivy-appd/process_direct.go: the critical sections of the direct process manager. */
module Manager {
  import opened Prelude

  /** The fields guarded by `mu`. Children are named by number; `cmd` names the tracked one,
      and `done` is the channel its supervisor closes. Times are in seconds. */
  datatype Manager = Manager(gen: nat, cmd: Option<nat>, startedAt: int, failures: nat, lastErr: string, stopped: bool)

  const NEW_MANAGER := Manager(0, None, 0, 0, "", false)

  /** How one run of `startLocked` ends. */
  datatype Launch =
    | NotDeployed
    | EnvUnreadable
    | LogUnopenable
    | ExecFailed(reason: string)
    | Started(child: nat, now: int)

  function StartLocked(m: Manager, launch: Launch): Manager {
    match launch
    case NotDeployed => m.(lastErr := "")
    case EnvUnreadable => m
    case LogUnopenable => m
    case ExecFailed(reason) => m.(lastErr := "start failed: " + reason)
    case Started(child, now) => m.(gen := m.gen + 1, cmd := Some(child), startedAt := now, lastErr := "")
  }

  predicate LaunchFailed(launch: Launch) {
    launch.EnvUnreadable? || launch.LogUnopenable? || launch.ExecFailed?
  }

  /** The first critical section of `Restart`. */
  function RestartBegin(m: Manager): Manager {
    m.(gen := m.gen + 1, failures := 0, cmd := None)
  }

  /** The critical section of `Shutdown`. */
  function ShutdownBegin(m: Manager): Manager {
    m.(gen := m.gen + 1, stopped := true, cmd := None)
  }

  /** A supervisor whose child was not stopped on purpose. */
  predicate InCharge(m: Manager, gen: nat) {
    !m.stopped && gen == m.gen
  }

  /** The first critical section of `supervise`, for a supervisor in charge. */
  function ChildExited(m: Manager, now: int, detail: string): Manager {
    m.(cmd := None, failures := (if now - m.startedAt > 60 then 0 else m.failures) + 1, lastErr := detail)
  }

  /** The wait before restart number `failures`, in seconds. */
  function Backoff(failures: int): int {
    if failures <= 1 then 1 else if failures >= 6 then 30 else 2 * Backoff(failures - 1)
  }

  /** Doubling from one second, capped at thirty. */
  lemma {:induction false} BackoffDoubles(failures: int)
    ensures 1 <= Backoff(failures) <= 30 && (failures <= 1 ==> Backoff(failures) == 1)
    ensures failures >= 1 ==> Backoff(failures + 1) == (if 2 * Backoff(failures) > 30 then 30 else 2 * Backoff(failures))
  {
    if failures >= 6 {
    } else if failures > 1 {
      BackoffDoubles(failures - 1);
      assert Backoff(5) == 16 && Backoff(4) == 8 && Backoff(3) == 4 && Backoff(2) == 2;
    }
  }

  class DirectManager {
    var gen: nat
    var cmd: Option<nat>
    var done: Option<nat>
    var startedAt: int
    var failures: nat
    var lastErr: string
    var stopped: bool

    ghost predicate Valid()
      reads this
    {
      done == cmd
    }

    ghost function State(): Manager
      reads this
    {
      Manager(gen, cmd, startedAt, failures, lastErr, stopped)
    }

    constructor ()
      ensures Valid() && State() == NEW_MANAGER
    {
      gen, cmd, done, startedAt, failures, lastErr, stopped := 0, None, None, 0, 0, "", false;
    }

    method Start(launch: Launch) returns (failed: bool)
      requires Valid()
      modifies this
      ensures Valid()
      ensures State() == if old(cmd).Some? then old(State()) else StartLocked(old(State()), launch)
      ensures failed <==> old(cmd) == None && LaunchFailed(launch)
    {
      if cmd != None {
        return false;
      }
      failed := LaunchChild(launch);
    }

    /** `startLocked`; the caller holds the lock and no child is tracked. */
    method LaunchChild(launch: Launch) returns (failed: bool)
      requires Valid() && cmd == None
      modifies this
      ensures Valid() && State() == StartLocked(old(State()), launch) && failed == LaunchFailed(launch)
      ensures launch.Started? ==> gen == old(gen) + 1 && cmd == Some(launch.child) && startedAt == launch.now && lastErr == ""
      ensures !launch.Started? ==> gen == old(gen) && cmd == None && startedAt == old(startedAt)
      ensures launch == NotDeployed ==> !failed && lastErr == ""
      ensures launch.ExecFailed? ==> failed && lastErr == "start failed: " + launch.reason
      ensures launch.EnvUnreadable? || launch.LogUnopenable? ==> failed && lastErr == old(lastErr)
      ensures failures == old(failures) && stopped == old(stopped)
    {
      match launch {
        case NotDeployed =>
          lastErr := "";
          return false;
        case EnvUnreadable =>
          return true;
        case LogUnopenable =>
          return true;
        case ExecFailed(reason) =>
          lastErr := "start failed: " + reason;
          return true;
        case Started(child, now) =>
          gen := gen + 1;
          cmd, done, startedAt, lastErr := Some(child), Some(child), now, "";
          return false;
      }
    }

    /** Restart up to its call of `stopProcess` on `victim`. */
    method BeginRestart() returns (victim: Option<nat>)
      requires Valid()
      modifies this
      ensures Valid() && State() == RestartBegin(old(State())) && victim == old(cmd)
      ensures gen == old(gen) + 1 && failures == 0 && cmd == None && stopped == old(stopped)
    {
      gen := gen + 1;
      failures := 0;
      victim := cmd;
      cmd, done := None, None;
    }

    /** Shutdown up to its call of `stopProcess` on `victim`. */
    method BeginShutdown() returns (victim: Option<nat>)
      requires Valid()
      modifies this
      ensures Valid() && State() == ShutdownBegin(old(State())) && victim == old(cmd)
      ensures gen == old(gen) + 1 && stopped && cmd == None && failures == old(failures)
    {
      stopped := true;
      gen := gen + 1;
      victim := cmd;
      cmd, done := None, None;
    }

    /** `supervise` after `Wait` returned; no delay means the supervisor bows out. */
    method NoteExit(childGen: nat, now: int, detail: string) returns (delay: Option<int>)
      requires Valid()
      modifies this
      ensures Valid()
      ensures State() == if old(InCharge(State(), childGen)) then ChildExited(old(State()), now, detail) else old(State())
      ensures delay == if old(InCharge(State(), childGen)) then Some(Backoff(failures)) else None
      ensures !old(stopped) && childGen == old(gen) && now - old(startedAt) > 60 ==> failures == 1 && delay == Some(1)
      ensures !old(stopped) && childGen == old(gen) && now - old(startedAt) <= 60 ==> failures == old(failures) + 1
      ensures old(stopped) || childGen != old(gen) ==> failures == old(failures) && cmd == old(cmd) && delay == None
      ensures startedAt == old(startedAt)
    {
      if stopped || childGen != gen {
        return None;
      }
      cmd, done := None, None;
      if now - startedAt > 60 {
        failures := 0;
      }
      failures := failures + 1;
      lastErr := detail;
      var d := RestartBackoff(failures);
      return Some(d);
    }

    /** `supervise` after its timer fired. */
    method MayRestart(childGen: nat) returns (yes: bool)
      requires Valid()
      ensures yes <==> InCharge(State(), childGen) && cmd == None
    {
      return !(stopped || childGen != gen || cmd != None);
    }

    /** `restartBackoff` */
    static method RestartBackoff(failures: int) returns (delay: int)
      ensures delay == Backoff(failures)
    {
      delay := 1;
      var i := 1;
      while i < failures && delay < 30
        invariant 1 <= i <= 6 && delay == [1, 2, 4, 8, 16, 32][i - 1]
        invariant i == 1 || i <= failures
        decreases 30 - delay
      {
        delay := delay * 2;
        i := i + 1;
      }
      assert Backoff(5) == 16 && Backoff(4) == 8 && Backoff(3) == 4 && Backoff(2) == 2;
      if delay > 30 {
        delay := 30;
      }
    }
  }
}
