/** What lies under APP_ROOT, and what one handler run may do to it. */
module Disk {
  import opened Prelude
  import opened Archive
  import EnvFile

  type Sha = string

  /** `^[a-f0-9]{64}$` */
  predicate ValidSha(sha: Sha) {
    |sha| == 64 && forall c :: c in sha ==> '0' <= c <= '9' || 'a' <= c <= 'f'
  }

  lemma ValidShaExactly(sha: Sha)
    ensures ValidSha(sha) <==> |sha| == 64 && forall i :: 0 <= i < |sha| ==> sha[i] in "0123456789abcdef"
  {
    forall i | 0 <= i < |sha| ensures sha[i] in "0123456789abcdef" <==> '0' <= sha[i] <= '9' || 'a' <= sha[i] <= 'f' {
      HexDigit(sha[i]);
    }
    if forall i :: 0 <= i < |sha| ==> sha[i] in "0123456789abcdef" {
      forall c | c in sha ensures '0' <= c <= '9' || 'a' <= c <= 'f' {
        var i :| 0 <= i < |sha| && sha[i] == c;
      }
    }
    if ValidSha(sha) {
      forall i | 0 <= i < |sha| ensures sha[i] in "0123456789abcdef" {
        assert sha[i] in sha;
      }
    }
  }

  lemma HexDigit(c: char)
    ensures c in "0123456789abcdef" <==> '0' <= c <= '9' || 'a' <= c <= 'f'
  {
    var hex := "0123456789abcdef";
    if '0' <= c <= '9' {
      assert hex[(c - '0') as int] == c;
    }
    if 'a' <= c <= 'f' {
      assert hex[10 + (c - 'a') as int] == c;
    }
  }

  // ----- The tree -----

  /** `tmp` holds the staging directories by number, an empty one standing for a removed one;
      `links` the temporary symlinks by the first twelve characters of their sha. */
  datatype Disk = Disk(releases: map<Sha, Dir>, tmp: seq<Dir>, links: map<string, Sha>,
                       current: Option<Sha>, env: Option<string>)

  predicate Released(d: Disk, sha: Sha) {
    sha in d.releases && SERVER in d.releases[sha]
  }

  /** `currentServerBinary`. */
  predicate Runnable(d: Disk) {
    d.current.Some? && d.current.value in d.releases && HasServer(d.releases[d.current.value])
  }

  /** `currentReleaseSHA`. */
  function CurrentSHA(d: Disk): string {
    if d.current.Some? && ValidSha(d.current.value) then d.current.value else ""
  }

  /** Every release with a server is whole, and `current`, once set, names one, by a well-formed sha. */
  ghost predicate Safe(d: Disk, bundles: Sha -> Bundle) {
    && (forall sha :: Released(d, sha) ==> Complete(d.releases[sha], bundles(sha)))
    && (d.current.Some? ==> ValidSha(d.current.value) && Released(d, d.current.value))
  }

  lemma SafeServer(d: Disk, sha: Sha, bundles: Sha -> Bundle)
    requires Safe(d, bundles) && Released(d, sha)
    ensures HasServer(d.releases[sha])
  {
    var versionID :| Deployable(bundles(sha), versionID) && d.releases[sha] == Staged(bundles(sha), versionID);
  }

  /** On a safe disk there is something to start exactly when `current` is set. */
  lemma SafeRunnable(d: Disk, bundles: Sha -> Bundle)
    requires Safe(d, bundles)
    ensures Runnable(d) <==> d.current.Some?
  {
    if d.current.Some? {
      SafeServer(d, d.current.value, bundles);
    }
  }

  /** Only releases make a disk unsafe. */
  lemma SafeSame(d: Disk, d': Disk, bundles: Sha -> Bundle)
    requires Safe(d, bundles) && d'.releases == d.releases && d'.current == d.current
    ensures Safe(d', bundles)
  {
    forall sha | Released(d', sha) ensures Complete(d'.releases[sha], bundles(sha)) {
      assert Released(d, sha);
    }
  }

  // ----- One handler run, up to its call of Restart -----

  type Vars = map<string, string>

  /** What a handler is asked to do. */
  datatype Request =
    | Deploy(sha: Sha, versionID: string, env: Option<Vars>)
    | Rollback(sha: Sha)
    | SetEnv(vars: Vars)

  /** How far its handler has got: whether it has replaced the env file, or, once it has moved
      `current`, what it reported as the old sha. */
  datatype Progress = Preparing(wrote: bool) | Switched(before: string)

  const BEGUN := Preparing(false)

  /** The handler goes on to Restart; before that it can still give up. */
  predicate GoesOn(r: Request, p: Progress) {
    if r.SetEnv? then p == Preparing(true) else p.Switched?
  }

  /** Finished releases stay as they are. */
  ghost predicate KeepsReleased(d: Disk, d': Disk) {
    forall sha :: Released(d, sha) ==> sha in d'.releases && d'.releases[sha] == d.releases[sha]
  }

  /** Only the release `sha` may change, and only to come into being, and then whole. */
  ghost predicate Stages(d: Disk, d': Disk, sha: Sha, versionID: string, zip: Bundle) {
    && d'.current == d.current && d'.env == d.env && d'.releases - {sha} == d.releases - {sha} && KeepsReleased(d, d')
    && (Released(d', sha) && !Released(d, sha) ==>
          Deployable(zip, versionID) && d'.releases[sha] == Staged(zip, versionID))
  }

  ghost predicate Writes(d: Disk, d': Disk, vars: Vars) {
    EnvFile.ValidVars(vars) && d' == d.(env := Some(EnvFile.FileFor(vars)))
  }

  predicate Switches(d: Disk, d': Disk, sha: Sha) {
    Released(d, sha) && d'.current == Some(sha) && d'.releases == d.releases && d'.env == d.env
  }

  /** One atomic step of the handler for `r` on the disk. */
  ghost predicate Moves(r: Request, p: Progress, d: Disk, p': Progress, d': Disk, bundles: Sha -> Bundle) {
    && Safe(d', bundles) && p.Preparing? && (p'.Switched? ==> p'.before == CurrentSHA(d))
    && match r
       case Deploy(sha, versionID, env) =>
         if p'.Switched? then (env.Some? ==> p.wrote) && Switches(d, d', sha)
         else if p' == p then Stages(d, d', sha, versionID, bundles(sha))
         else p'.wrote && env.Some? && Released(d, sha) && Writes(d, d', env.value)
       case Rollback(sha) =>
         if p'.Switched? then Switches(d, d', sha) else p' == p && d' == d.(links := d'.links)
       case SetEnv(vars) =>
         p == Preparing(false) && p' == Preparing(true) && Writes(d, d', vars)
  }

  /** The states a handler run goes through, first to last. */
  ghost predicate IsRun(r: Request, run: seq<(Disk, Progress)>, bundles: Sha -> Bundle) {
    && run != [] && Safe(run[0].0, bundles) && run[0].1 == BEGUN
    && forall i :: 0 <= i < |run| - 1 ==> Moves(r, run[i].1, run[i].0, run[i + 1].1, run[i + 1].0, bundles)
  }

  lemma RunGrows(r: Request, run: seq<(Disk, Progress)>, d: Disk, p: Progress, bundles: Sha -> Bundle)
    requires IsRun(r, run, bundles) && Moves(r, run[|run| - 1].1, run[|run| - 1].0, p, d, bundles)
    ensures IsRun(r, run + [(d, p)], bundles)
  {
    var longer := run + [(d, p)];
    forall i | 0 <= i < |longer| - 1
      ensures Moves(r, longer[i].1, longer[i].0, longer[i + 1].1, longer[i + 1].0, bundles)
    {
      assert longer[i] == run[i] && (i + 1 < |run| ==> longer[i + 1] == run[i + 1]);
    }
  }

  /** Finished releases outlast a run. */
  lemma {:induction false} RunKeepsReleased(r: Request, run: seq<(Disk, Progress)>, i: nat, bundles: Sha -> Bundle)
    requires IsRun(r, run, bundles) && i < |run|
    ensures KeepsReleased(run[0].0, run[i].0) && Safe(run[i].0, bundles)
  {
    if i > 0 {
      RunKeepsReleased(r, run, i - 1, bundles);
      MoveKeepsReleased(r, run[i - 1].1, run[i - 1].0, run[i - 1 + 1].1, run[i - 1 + 1].0, bundles);
    }
  }

  lemma MoveKeepsReleased(r: Request, p: Progress, d: Disk, p': Progress, d': Disk, bundles: Sha -> Bundle)
    requires Moves(r, p, d, p', d', bundles)
    ensures KeepsReleased(d, d')
  {
  }

  /** Staging a deployable bundle in one step, where it is not there yet. */
  lemma StageOnce(d: Disk, sha: Sha, versionID: string, bundles: Sha -> Bundle) returns (d': Disk)
    requires Safe(d, bundles) && Deployable(bundles(sha), versionID) && !Released(d, sha)
    ensures Safe(d', bundles) && Released(d', sha) && Stages(d, d', sha, versionID, bundles(sha))
  {
    var dir := Staged(bundles(sha), versionID);
    d' := d.(releases := d.releases[sha := dir]);
    assert Complete(dir, bundles(sha));
    forall other | Released(d', other) ensures Complete(d'.releases[other], bundles(other)) {
      if other != sha {
        assert Released(d, other);
      }
    }
    assert d'.releases - {sha} == d.releases - {sha};
  }

  lemma SwitchOnce(d: Disk, sha: Sha, bundles: Sha -> Bundle)
    requires Safe(d, bundles) && ValidSha(sha) && Released(d, sha)
    ensures Safe(d.(current := Some(sha)), bundles)
  {
    forall other | Released(d.(current := Some(sha)), other)
      ensures Complete(d.(current := Some(sha)).releases[other], bundles(other))
    {
      assert Released(d, other);
    }
  }
}
