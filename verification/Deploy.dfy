/** cmd/hivy-appd/deploy.go: staging a release and putting it in force, one file-system step at a time. */
module Deploy {
  import opened Prelude
  import opened Archive
  import opened Disk
  import EnvFile

  datatype Response =
    | BadRequest | NotFound | DownloadFailed | StageFailed | EnvFailed | SwapFailed
    | Accepted  // goes on to Restart

  /** Which system calls work: all of those that stage a release, or else any of them may fail; those
      that replace the env file; the removal of an old temporary link, the symlink, its rename over
      `current`, and the removal after a failed rename. */
  datatype Calls = Calls(stage: bool, env: bool, unlink: bool, symlink: bool, rename: bool, cleanup: bool)

  /** The swap goes through: an old temporary link makes the symlink fail unless it can be removed. */
  predicate SwapWorks(d: Disk, sha: Sha, calls: Calls) {
    calls.symlink && calls.rename && (|sha| >= 12 && sha[..12] in d.links ==> calls.unlink)
  }

  predicate EnvWorks(env: Option<Vars>, calls: Calls) {
    env.Some? ==> EnvFile.ValidVars(env.value) && calls.env
  }

  class AppRoot {
    const bundles: Sha -> Bundle
    var disk: Disk
    /** The request of the present handler, and every state since it began; a crash may come after any. */
    ghost var request: Request
    ghost var run: seq<(Disk, Progress)>

    ghost predicate Valid()
      reads this
    {
      run != [] && run[|run| - 1].0 == disk && IsRun(request, run, bundles) && Safe(disk, bundles)
    }

    ghost function At(): Progress
      reads this
      requires run != []
    {
      run[|run| - 1].1
    }

    constructor (bundles: Sha -> Bundle, d: Disk)
      requires Safe(d, bundles)
      ensures Valid() && disk == d && this.bundles == bundles
    {
      this.bundles := bundles;
      disk, request, run := d, SetEnv(map[]), [(d, BEGUN)];
    }

    /** A handler takes the deploy lock. */
    ghost method Begin(r: Request)
      requires Valid()
      modifies this`request, this`run
      ensures Valid() && request == r && run == [(disk, BEGUN)]
    {
      request, run := r, [(disk, BEGUN)];
    }

    /** One atomic step of the file system. */
    method Commit(d: Disk, ghost p: Progress)
      requires Valid() && Moves(request, At(), disk, p, d, bundles)
      modifies this`disk, this`run
      ensures Valid() && disk == d && run == old(run) + [(d, p)] && At() == p
    {
      RunGrows(request, run, d, p, bundles);
      disk, run := d, run + [(d, p)];
    }

    /** A step in the staging directories or among the temporary links. */
    method CommitScratch(tmp: seq<Dir>, links: map<string, Sha>)
      requires Valid() && At().Preparing? && !request.SetEnv? && (tmp == disk.tmp || request.Deploy?)
      modifies this`disk, this`run
      ensures Valid() && old(run) <= run && At() == old(At())
      ensures disk == old(disk).(tmp := tmp, links := links)
    {
      var next := disk.(tmp := tmp, links := links);
      SafeSame(disk, next, bundles);
      Commit(next, At());
    }

    /** `extractZip` into staging directory `id`, each file created empty and then filled. */
    method ExtractZip(id: nat, zip: Bundle, works: bool) returns (ok: bool)
      requires Valid() && At().Preparing? && request.Deploy? && id < |disk.tmp| && disk.tmp[id] == map[]
      modifies this`disk, this`run
      ensures Valid() && old(run) <= run && At() == old(At())
      ensures disk == old(disk).(tmp := disk.tmp) && |disk.tmp| == |old(disk.tmp)|
      ensures ok ==> Unpackable(zip) && disk.tmp[id] == Unpacked(zip) && HoldsEntries(disk.tmp[id], zip)
      ensures works ==> (ok <==> Unpackable(zip))
    {
      for k := 0 to |zip|
        invariant Valid() && old(run) <= run && At() == old(At())
        invariant disk == old(disk).(tmp := disk.tmp) && |disk.tmp| == |old(disk.tmp)|
        invariant Unpackable(zip[..k]) && disk.tmp[id] == Unpacked(zip[..k])
      {
        var dir, entry := disk.tmp[id], zip[k];
        assert zip[..k + 1][..k] == zip[..k];
        ok := ExtractEntry(id, entry, works);
        if !ok {
          if !Fits(dir, entry) {
            UnpackablePrefix(zip, k + 1);
          }
          return false;
        }
      }
      assert zip[..|zip|] == zip;
      UnpackedHolds(zip);
      return true;
    }

    /** `extractZipEntry` and `writeZipFile` */
    method ExtractEntry(id: nat, entry: Entry, works: bool) returns (ok: bool)
      requires Valid() && At().Preparing? && request.Deploy? && id < |disk.tmp|
      modifies this`disk, this`run
      ensures Valid() && old(run) <= run && At() == old(At())
      ensures disk == old(disk).(tmp := disk.tmp) && |disk.tmp| == |old(disk.tmp)|
      ensures ok ==> Fits(old(disk.tmp)[id], entry) && disk.tmp[id] == Unpack(old(disk.tmp)[id], entry)
      ensures works ==> (ok <==> Fits(old(disk.tmp)[id], entry))
    {
      var dir := disk.tmp[id];
      ok := *;
      if (!works && !ok) || !Fits(dir, entry) {
        return false;
      }
      if entry.FileEntry? {
        CommitScratch(disk.tmp[id := Unpack(dir, entry.(data := ""))], disk.links);
        ok := *;
        if !works && !ok {
          return false;
        }
      }
      CommitScratch(disk.tmp[id := Unpack(dir, entry)], disk.links);
      return true;
    }

    /** `os.RemoveAll` of a staging directory; it may fail or stop half way. */
    method RemoveStaging(id: nat)
      requires Valid() && At().Preparing? && request.Deploy? && id < |disk.tmp|
      modifies this`disk, this`run
      ensures Valid() && old(run) <= run && At() == old(At())
      ensures disk == old(disk).(tmp := disk.tmp)
    {
      while disk.tmp[id] != map[]
        invariant Valid() && old(run) <= run && At() == old(At())
        invariant disk == old(disk).(tmp := disk.tmp) && id < |disk.tmp|
        decreases |disk.tmp[id]|
      {
        var ok: bool := *;
        if !ok {
          return;
        }
        var name :| name in disk.tmp[id];
        var left := disk.tmp[id] - {name};
        assert left.Keys == disk.tmp[id].Keys - {name};
        CommitScratch(disk.tmp[id := left], disk.links);
      }
    }

    /** `os.RemoveAll` of a release directory that holds no server. */
    method ClearStaleRelease(sha: Sha, works: bool) returns (ok: bool)
      requires Valid() && At().Preparing? && request.Deploy? && request.sha == sha && !Released(disk, sha)
      modifies this`disk, this`run
      ensures Valid() && old(run) <= run && At() == old(At())
      ensures disk == old(disk).(releases := disk.releases) && !Released(disk, sha)
      ensures disk.releases - {sha} == old(disk).releases - {sha}
      ensures ok <==> sha !in disk.releases
      ensures works ==> ok
    {
      while sha in disk.releases
        invariant Valid() && old(run) <= run && At() == old(At())
        invariant disk == old(disk).(releases := disk.releases) && !Released(disk, sha)
        invariant disk.releases - {sha} == old(disk).releases - {sha}
        decreases if sha in disk.releases then |disk.releases[sha]| + 1 else 0
      {
        ok := *;
        if !works && !ok {
          return false;
        }
        if disk.releases[sha] == map[] {
          CommitStale(disk.releases - {sha}, sha);
        } else {
          var dir := disk.releases[sha];
          var name :| name in dir;
          var left := dir - {name};
          assert left.Keys == dir.Keys - {name};
          CommitStale(disk.releases[sha := left], sha);
        }
      }
      return true;
    }

    /** A step inside a release directory without a server. */
    method CommitStale(releases: map<Sha, Dir>, sha: Sha)
      requires Valid() && At().Preparing? && request.Deploy? && request.sha == sha && !Released(disk, sha)
      requires releases - {sha} == disk.releases - {sha} && (sha in releases ==> SERVER !in releases[sha])
      modifies this`disk, this`run
      ensures Valid() && old(run) <= run && At() == old(At()) && disk == old(disk).(releases := releases)
    {
      var next := disk.(releases := releases);
      SameElsewhere(disk.releases, releases, sha);
      forall other | Released(next, other) ensures Complete(next.releases[other], bundles(other)) {
        assert Released(disk, other);
      }
      Commit(next, At());
    }

    static lemma SameElsewhere(a: map<Sha, Dir>, b: map<Sha, Dir>, sha: Sha)
      requires a - {sha} == b - {sha}
      ensures forall s :: s != sha ==> (s in a <==> s in b) && (s in a ==> a[s] == b[s])
    {
      forall s | s != sha ensures (s in a <==> s in b) && (s in a ==> a[s] == b[s]) {
        assert s in a <==> s in a - {sha};
        assert s in b <==> s in b - {sha};
        assert s in a ==> (a - {sha})[s] == a[s];
        assert s in b ==> (b - {sha})[s] == b[s];
      }
    }

    /** `stageRelease` */
    method StageRelease(sha: Sha, versionID: string, works: bool) returns (ok: bool)
      requires Valid() && At().Preparing? && request.Deploy? && request.sha == sha && request.versionID == versionID
      modifies this`disk, this`run
      ensures Valid() && old(run) <= run && At() == old(At())
      ensures ok <==> Released(disk, sha)
      ensures old(Released(disk, sha)) ==> disk == old(disk) && run == old(run)
      ensures ok && !old(Released(disk, sha)) ==>
                && Deployable(bundles(sha), versionID) && disk.releases[sha] == Staged(bundles(sha), versionID)
                && HoldsRelease(disk.releases[sha], bundles(sha), versionID)
      ensures works ==> (ok <==> old(Released(disk, sha)) || Deployable(bundles(sha), versionID))
      ensures disk == old(disk).(releases := disk.releases, tmp := disk.tmp)
      ensures disk.releases - {sha} == old(disk).releases - {sha}
    {
      if Released(disk, sha) {
        return true;
      }
      ok := *;
      if !works && !ok {
        return false;
      }
      var id := |disk.tmp|;
      CommitScratch(disk.tmp + [map[]], disk.links);
      ok := Fill(id, sha, versionID, works);
      RemoveStaging(id);
      if ok {
        StagedHolds(bundles(sha), versionID);
      }
    }

    /** The part of `stageRelease` between creating the staging directory and removing it. */
    method Fill(id: nat, sha: Sha, versionID: string, works: bool) returns (ok: bool)
      requires Valid() && At().Preparing? && request.Deploy? && request.sha == sha && request.versionID == versionID
      requires id < |disk.tmp| && disk.tmp[id] == map[] && !Released(disk, sha)
      modifies this`disk, this`run
      ensures Valid() && old(run) <= run && At() == old(At())
      ensures id < |disk.tmp| && (ok <==> Released(disk, sha))
      ensures ok ==> Deployable(bundles(sha), versionID) && disk.releases[sha] == Staged(bundles(sha), versionID)
      ensures works ==> (ok <==> Deployable(bundles(sha), versionID))
      ensures disk == old(disk).(releases := disk.releases, tmp := disk.tmp)
      ensures disk.releases - {sha} == old(disk).releases - {sha}
    {
      ok := Prepare(id, bundles(sha), versionID, works);
      if ok {
        ok := Publish(id, sha, versionID, works);
      }
    }

    /** Extract, check and mark the staging directory. */
    method Prepare(id: nat, zip: Bundle, versionID: string, works: bool) returns (ok: bool)
      requires Valid() && At().Preparing? && request.Deploy? && id < |disk.tmp| && disk.tmp[id] == map[]
      modifies this`disk, this`run
      ensures Valid() && old(run) <= run && At() == old(At())
      ensures disk == old(disk).(tmp := disk.tmp) && id < |disk.tmp|
      ensures ok ==> Deployable(zip, versionID) && disk.tmp[id] == Staged(zip, versionID)
      ensures works ==> (ok <==> Deployable(zip, versionID))
    {
      ok := ExtractZip(id, zip, works);
      if !ok || !HasServer(disk.tmp[id]) {
        return false;
      }
      ok := *;
      if !works && !ok {
        return false;
      }
      var dir := disk.tmp[id];
      dir := dir[SERVER := dir[SERVER].(exec := true)];
      CommitScratch(disk.tmp[id := dir], disk.links);
      if versionID != "" {
        ok := *;
        if (!works && !ok) || !CanMark(dir) {
          return false;
        }
        dir := WithMarker(dir, versionID);
        CommitScratch(disk.tmp[id := dir], disk.links);
      }
      return true;
    }

    /** Replace a stale release directory by the finished staging directory. */
    method Publish(id: nat, sha: Sha, versionID: string, works: bool) returns (ok: bool)
      requires Valid() && At().Preparing? && request.Deploy? && request.sha == sha && request.versionID == versionID
      requires id < |disk.tmp| && !Released(disk, sha)
      requires Deployable(bundles(sha), versionID) && disk.tmp[id] == Staged(bundles(sha), versionID)
      modifies this`disk, this`run
      ensures Valid() && old(run) <= run && At() == old(At())
      ensures id < |disk.tmp| && (ok <==> Released(disk, sha))
      ensures ok ==> disk.releases[sha] == Staged(bundles(sha), versionID)
      ensures works ==> ok
      ensures disk == old(disk).(releases := disk.releases, tmp := disk.tmp)
      ensures disk.releases - {sha} == old(disk).releases - {sha}
    {
      var dir := disk.tmp[id];
      ok := ClearStaleRelease(sha, works);
      if !ok {
        return;
      }
      ok := *;
      if !works && !ok {
        return false;
      }
      var releases := disk.releases[sha := dir];
      assert releases - {sha} == disk.releases - {sha};
      var next := disk.(releases := releases, tmp := disk.tmp[id := map[]]);
      forall other | Released(next, other) ensures Complete(next.releases[other], bundles(other)) {
        if other != sha {
          assert Released(disk, other);
        }
      }
      Commit(next, At());
      return true;
    }

    /** `swapCurrentSymlink` */
    method SwapCurrentSymlink(sha: Sha, calls: Calls) returns (ok: bool)
      requires Valid() && At().Preparing? && Released(disk, sha) && ValidSha(sha)
      requires request == Rollback(sha) || (request.Deploy? && request.sha == sha && (request.env.Some? ==> At().wrote))
      modifies this`disk, this`run
      ensures Valid() && old(run) <= run && (ok <==> SwapWorks(old(disk), sha, calls))
      ensures disk == old(disk).(links := disk.links, current := disk.current)
      ensures disk.current == if ok then Some(sha) else old(disk.current)
      ensures At() == if ok then Switched(CurrentSHA(old(disk))) else old(At())
    {
      var link := sha[..12];
      if calls.unlink && link in disk.links {
        CommitScratch(disk.tmp, disk.links - {link});
      }
      if !calls.symlink || link in disk.links {
        return false;
      }
      CommitScratch(disk.tmp, disk.links[link := sha]);
      if !calls.rename {
        if calls.cleanup {
          CommitScratch(disk.tmp, disk.links - {link});
        }
        return false;
      }
      SwitchOnce(disk, sha, bundles);
      var next := disk.(links := disk.links - {link}, current := Some(disk.links[link]));
      SafeSame(disk.(current := Some(sha)), next, bundles);
      Commit(next, Switched(CurrentSHA(disk)));
      return true;
    }

    /** `writeEnvFile` on the app's env file, replaced by one rename. */
    method WriteEnv(vars: Vars, works: bool) returns (ok: bool)
      requires Valid() && At() == BEGUN
      requires request == SetEnv(vars) || (request.Deploy? && request.env == Some(vars) && Released(disk, request.sha))
      modifies this`disk, this`run
      ensures Valid() && old(run) <= run
      ensures ok <==> EnvFile.ValidVars(vars) && works
      ensures disk == if ok then old(disk).(env := Some(EnvFile.FileFor(vars))) else old(disk)
      ensures At() == Preparing(ok)
    {
      var file := new EnvFile.File();
      var err := file.Write(vars, works);
      if err.Some? {
        return false;
      }
      var next := disk.(env := file.content);
      SafeSame(disk, next, bundles);
      Commit(next, Preparing(true));
      return true;
    }

    /** `handleDeploy` up to its call of Restart. `downloaded` says that the bundle arrived and has this sha. */
    method HandleDeploy(sha: Sha, url: string, versionID: string, env: Option<Vars>, downloaded: bool, calls: Calls)
      returns (response: Response)
      requires Valid()
      modifies this
      ensures Valid() && request == Deploy(sha, versionID, env) && run[0] == (old(disk), BEGUN)
      ensures response != NotFound
      ensures response == BadRequest <==> !ValidSha(sha) || url == ""
      ensures response == DownloadFailed <==> ValidSha(sha) && url != "" && !downloaded
      ensures response in {BadRequest, DownloadFailed} ==> disk == old(disk)
      ensures response == StageFailed ==> !Released(disk, sha)
      ensures response in {EnvFailed, SwapFailed, Accepted} ==>
                && Released(disk, sha)
                && response == if !EnvWorks(env, calls) then EnvFailed
                               else if SwapWorks(old(disk), sha, calls) then Accepted else SwapFailed
      ensures Released(disk, sha) && !old(Released(disk, sha)) ==>
                HoldsRelease(disk.releases[sha], bundles(sha), versionID)
      ensures calls.stage ==> (response == StageFailed <==>
                                 ValidSha(sha) && url != "" && downloaded &&
                                 !old(Released(disk, sha)) && !Deployable(bundles(sha), versionID))
      ensures disk.releases - {sha} == old(disk).releases - {sha} && KeepsReleased(old(disk), disk)
      ensures disk.env == if response in {SwapFailed, Accepted} && env.Some? then Some(EnvFile.FileFor(env.value)) else old(disk.env)
      ensures disk.current == if response == Accepted then Some(sha) else old(disk.current)
      ensures At() == if response == Accepted then Switched(CurrentSHA(old(disk)))
                      else Preparing(response == SwapFailed && env.Some?)
      ensures GoesOn(request, At()) <==> response == Accepted
    {
      Begin(Deploy(sha, versionID, env));
      if !ValidSha(sha) || url == "" {
        response := BadRequest;
      } else if !downloaded {
        response := DownloadFailed;
      } else {
        response := StageAndActivate(sha, versionID, env, calls);
      }
      RunKeepsReleased(request, run, |run| - 1, bundles);
    }

    /** The part of `handleDeploy` from staging to the swap. */
    method StageAndActivate(sha: Sha, versionID: string, env: Option<Vars>, calls: Calls) returns (response: Response)
      requires Valid() && At() == BEGUN && ValidSha(sha) && request == Deploy(sha, versionID, env)
      modifies this`disk, this`run
      ensures Valid() && old(run) <= run && response in {StageFailed, EnvFailed, SwapFailed, Accepted}
      ensures response == StageFailed <==> !Released(disk, sha)
      ensures response != StageFailed ==>
                response == if !EnvWorks(env, calls) then EnvFailed
                            else if SwapWorks(old(disk), sha, calls) then Accepted else SwapFailed
      ensures response != StageFailed && !old(Released(disk, sha)) ==>
                HoldsRelease(disk.releases[sha], bundles(sha), versionID)
      ensures calls.stage ==>
                (response == StageFailed <==> !old(Released(disk, sha)) && !Deployable(bundles(sha), versionID))
      ensures disk.releases - {sha} == old(disk).releases - {sha}
      ensures disk.env == if response in {SwapFailed, Accepted} && env.Some? then Some(EnvFile.FileFor(env.value)) else old(disk.env)
      ensures disk.current == if response == Accepted then Some(sha) else old(disk.current)
      ensures At() == if response == Accepted then Switched(CurrentSHA(old(disk)))
                      else Preparing(response == SwapFailed && env.Some?)
    {
      var ok := StageRelease(sha, versionID, calls.stage);
      if !ok {
        return StageFailed;
      }
      response := Activate(sha, env, calls);
    }

    /** The part of `handleDeploy` after staging. */
    method Activate(sha: Sha, env: Option<Vars>, calls: Calls) returns (response: Response)
      requires Valid() && At() == BEGUN && ValidSha(sha) && Released(disk, sha)
      requires request.Deploy? && request.sha == sha && request.env == env
      modifies this`disk, this`run
      ensures Valid() && old(run) <= run
      ensures response == if !EnvWorks(env, calls) then EnvFailed
                          else if SwapWorks(old(disk), sha, calls) then Accepted else SwapFailed
      ensures disk == old(disk).(links := disk.links, current := disk.current, env := disk.env)
      ensures disk.env == if response != EnvFailed && env.Some? then Some(EnvFile.FileFor(env.value)) else old(disk.env)
      ensures disk.current == if response == Accepted then Some(sha) else old(disk.current)
      ensures At() == if response == Accepted then Switched(CurrentSHA(old(disk)))
                      else Preparing(response == SwapFailed && env.Some?)
    {
      if env.Some? {
        var ok := WriteEnv(env.value, calls.env);
        if !ok {
          return EnvFailed;
        }
      }
      var ok := SwapCurrentSymlink(sha, calls);
      return if ok then Accepted else SwapFailed;
    }

    /** `handleRollback` up to its call of Restart. */
    method HandleRollback(sha: Sha, calls: Calls) returns (response: Response)
      requires Valid()
      modifies this
      ensures Valid() && request == Rollback(sha) && run[0] == (old(disk), BEGUN)
      ensures response == if !ValidSha(sha) then BadRequest
                          else if !old(Released(disk, sha)) then NotFound
                          else if SwapWorks(old(disk), sha, calls) then Accepted else SwapFailed
      ensures disk == old(disk).(links := disk.links, current := disk.current)
      ensures disk.current == if response == Accepted then Some(sha) else old(disk.current)
      ensures At() == if response == Accepted then Switched(CurrentSHA(old(disk))) else BEGUN
    {
      Begin(Rollback(sha));
      if !ValidSha(sha) {
        return BadRequest;
      }
      if Released(disk, sha) {
        SafeServer(disk, sha, bundles);
      }
      if sha !in disk.releases || !HasServer(disk.releases[sha]) {
        return NotFound;
      }
      var ok := SwapCurrentSymlink(sha, calls);
      return if ok then Accepted else SwapFailed;
    }

    /** `handleEnv` up to its call of Restart. */
    method HandleEnv(vars: Option<Vars>, calls: Calls) returns (response: Response)
      requires Valid()
      modifies this
      ensures Valid()
      ensures vars.Some? ==> request == SetEnv(vars.value) && run[0] == (old(disk), BEGUN)
      ensures response == if vars == None then BadRequest else if EnvWorks(vars, calls) then Accepted else EnvFailed
      ensures disk == if response == Accepted then old(disk).(env := Some(EnvFile.FileFor(vars.value))) else old(disk)
      ensures vars.Some? ==> At() == Preparing(response == Accepted)
    {
      if vars == None {
        return BadRequest;
      }
      Begin(SetEnv(vars.value));
      var ok := WriteEnv(vars.value, calls.env);
      return if ok then Accepted else EnvFailed;
    }
  }
}
