/** What a release directory holds: a bundle's archive, unpacked and marked (stageRelease in
    cmd/hivy-appd/deploy.go, and cmd/hivy-appd/ziputil.go). */
module Archive {
  import opened Prelude

  datatype File = Regular(data: string, exec: bool) | Folder

  type Dir = map<string, File>

  /** One archive entry. `Rejected` stands for unsafe paths, links and devices. */
  datatype Entry = FileEntry(name: string, data: string, exec: bool) | DirEntry(name: string) | Rejected

  type Bundle = seq<Entry>

  // ----- Release contents -----

  const SERVER := "server"
  const VERSION_MARKER := ".hivy_version_id"

  predicate HasServer(dir: Dir) {
    SERVER in dir && dir[SERVER].Regular?
  }

  /** An entry that can be written into `dir`: no file over a folder and no folder over a file. */
  predicate Fits(dir: Dir, entry: Entry) {
    !entry.Rejected? && (entry.name in dir ==> dir[entry.name].Folder? == entry.DirEntry?)
  }

  function Unpack(dir: Dir, entry: Entry): Dir
    requires Fits(dir, entry)
  {
    if entry.DirEntry? then dir[entry.name := Folder]
    else dir[entry.name := Regular(entry.data, if entry.name in dir then dir[entry.name].exec else entry.exec)]
  }

  predicate Unpackable(zip: Bundle)
    decreases |zip|, 0
  {
    zip == [] || (Unpackable(zip[..|zip| - 1]) && Fits(Unpacked(zip[..|zip| - 1]), zip[|zip| - 1]))
  }

  function Unpacked(zip: Bundle): Dir
    requires Unpackable(zip)
    decreases |zip|, 1
  {
    if zip == [] then map[] else Unpack(Unpacked(zip[..|zip| - 1]), zip[|zip| - 1])
  }

  /** A bundle that `stageRelease` does not refuse for this version id: it can be unpacked, has a
      server file, and no folder stands in the way of the version marker. */
  predicate Deployable(zip: Bundle, versionID: string) {
    && Unpackable(zip) && HasServer(Unpacked(zip))
    && (versionID != "" ==> CanMark(Unpacked(zip)))
  }

  predicate CanMark(dir: Dir) {
    VERSION_MARKER in dir ==> dir[VERSION_MARKER].Regular?
  }

  /** `os.WriteFile` of the marker: a file that is there keeps its mode. */
  function WithMarker(dir: Dir, versionID: string): Dir
    requires CanMark(dir)
  {
    dir[VERSION_MARKER := Regular(versionID + "\n", VERSION_MARKER in dir && dir[VERSION_MARKER].exec)]
  }

  /** The content of a finished release of `zip`, first deployed as `versionID`. */
  function Staged(zip: Bundle, versionID: string): Dir
    requires Deployable(zip, versionID)
  {
    var dir := Unpacked(zip);
    var runnable := dir[SERVER := dir[SERVER].(exec := true)];
    if versionID == "" then runnable else WithMarker(runnable, versionID)
  }

  ghost predicate Complete(dir: Dir, zip: Bundle) {
    exists versionID :: Deployable(zip, versionID) && dir == Staged(zip, versionID)
  }

  // ----- Release contents, read off the archive -----

  /** Entry `i` is for this name. */
  predicate IsFor(zip: Bundle, i: nat, name: string) {
    i < |zip| && !zip[i].Rejected? && zip[i].name == name
  }

  ghost predicate Named(zip: Bundle, name: string) {
    exists i: nat :: IsFor(zip, i, name)
  }

  /** Entry `i` is the last for its name; what it holds is what counts. */
  ghost predicate IsLast(zip: Bundle, i: nat) {
    i < |zip| && !zip[i].Rejected? && forall j :: i < j < |zip| ==> !IsFor(zip, j, zip[i].name)
  }

  /** Entry `i` is the first for its name; it decides on the mode. */
  ghost predicate IsFirst(zip: Bundle, i: nat) {
    i < |zip| && !zip[i].Rejected? && forall j :: 0 <= j < i ==> !IsFor(zip, j, zip[i].name)
  }

  /** Exactly the names of the archive, each with the data of its last entry and the mode of its first. */
  ghost predicate HoldsEntries(dir: Dir, zip: Bundle) {
    && (forall name :: name in dir <==> Named(zip, name))
    && (forall i: nat :: IsLast(zip, i) && zip[i].DirEntry? ==> zip[i].name in dir && dir[zip[i].name] == Folder)
    && (forall i: nat :: IsLast(zip, i) && zip[i].FileEntry? ==>
                           zip[i].name in dir && dir[zip[i].name].Regular? && dir[zip[i].name].data == zip[i].data)
    && (forall i: nat :: IsFirst(zip, i) && zip[i].FileEntry? ==>
                           zip[i].name in dir && dir[zip[i].name].Regular? && dir[zip[i].name].exec == zip[i].exec)
  }

  /** The same, with the server made runnable and the version marked. */
  ghost predicate HoldsRelease(dir: Dir, zip: Bundle, versionID: string) {
    && (forall name :: name in dir <==> Named(zip, name) || (name == ".hivy_version_id" && versionID != ""))
    && (forall i: nat :: IsLast(zip, i) && !(zip[i].name == ".hivy_version_id" && versionID != "") ==>
                           zip[i].name in dir && dir[zip[i].name].Folder? == zip[i].DirEntry? &&
                           (zip[i].FileEntry? ==> dir[zip[i].name].data == zip[i].data))
    && (forall i: nat :: IsFirst(zip, i) && zip[i].FileEntry? && zip[i].name != "server" ==>
                           zip[i].name in dir && dir[zip[i].name].Regular? && dir[zip[i].name].exec == zip[i].exec)
    && "server" in dir && dir["server"].Regular? && dir["server"].exec
    && (versionID != "" ==>
          var marker := dir[".hivy_version_id"];
          marker.Regular? && marker.data == versionID + "\n" && (!Named(zip, ".hivy_version_id") ==> !marker.exec))
  }

  /** No rejected entry, and no name for both a file and a folder. */
  ghost predicate Consistent(zip: Bundle) {
    && (forall i :: 0 <= i < |zip| ==> !zip[i].Rejected?)
    && forall i, j :: 0 <= i < j < |zip| && zip[i].name == zip[j].name ==> zip[i].DirEntry? == zip[j].DirEntry?
  }

  /** Every unpacked archive holds its entries, and exactly consistent ones can be unpacked. */
  lemma {:induction false} UnpackedHolds(zip: Bundle)
    ensures Unpackable(zip) <==> Consistent(zip)
    ensures Unpackable(zip) ==> HoldsEntries(Unpacked(zip), zip)
  {
    if zip != [] {
      var front, last := zip[..|zip| - 1], zip[|zip| - 1];
      UnpackedHolds(front);
      assert zip == front + [last];
      if Unpackable(front) {
        NextEntry(front, last);
      } else {
        assert !Consistent(front);
      }
    }
  }

  lemma {:induction false} UnpackablePrefix(zip: Bundle, k: nat)
    requires k <= |zip| && !Unpackable(zip[..k])
    ensures !Unpackable(zip)
    decreases |zip|
  {
    if k < |zip| {
      assert zip[..|zip| - 1][..k] == zip[..k];
      UnpackablePrefix(zip[..|zip| - 1], k);
    } else {
      assert zip[..k] == zip;
    }
  }

  lemma NextEntry(front: Bundle, last: Entry)
    requires Unpackable(front) && Consistent(front) && HoldsEntries(Unpacked(front), front)
    ensures Fits(Unpacked(front), last) <==> Consistent(front + [last])
    ensures Fits(Unpacked(front), last) ==> HoldsEntries(Unpack(Unpacked(front), last), front + [last])
  {
    FitsExactly(front, Unpacked(front), last);
    if Fits(Unpacked(front), last) {
      EntryHolds(front, Unpacked(front), last);
    }
  }

  lemma {:induction false} LastFor(zip: Bundle, name: string) returns (i: nat)
    requires Named(zip, name)
    ensures IsFor(zip, i, name) && IsLast(zip, i)
  {
    if IsFor(zip, |zip| - 1, name) {
      i := |zip| - 1;
    } else {
      var k: nat :| IsFor(zip, k, name);
      var front := zip[..|zip| - 1];
      assert IsFor(front, k, name);
      i := LastFor(front, name);
      forall j | i < j < |zip| ensures !IsFor(zip, j, name) {
        assert j < |front| ==> !IsFor(front, j, name);
      }
    }
  }

  lemma FitsExactly(front: Bundle, dir: Dir, last: Entry)
    requires Consistent(front) && HoldsEntries(dir, front)
    ensures Fits(dir, last) <==> Consistent(front + [last])
  {
    var zip := front + [last];
    if !last.Rejected? {
      if last.name in dir {
        var i := LastFor(front, last.name);
        assert dir[last.name].Folder? == front[i].DirEntry?;
        assert zip[i] == front[i] && zip[|front|] == last;
        forall j | 0 <= j < |front| && front[j].name == last.name ensures front[j].DirEntry? == front[i].DirEntry? {}
      } else {
        forall j | 0 <= j < |front| ensures front[j].name != last.name {
          assert !IsFor(front, j, last.name);
        }
      }
    } else {
      assert zip[|front|].Rejected?;
    }
    if Consistent(front + [last]) {
      assert zip[|front|] == last;
    }
  }

  lemma EntryHolds(front: Bundle, dir: Dir, last: Entry)
    requires Fits(dir, last) && HoldsEntries(dir, front)
    ensures HoldsEntries(Unpack(dir, last), front + [last])
  {
    var zip, next, n := front + [last], Unpack(dir, last), |front|;
    assert IsFor(zip, n, last.name);
    forall name, i: nat | i < n ensures IsFor(zip, i, name) <==> IsFor(front, i, name) {}
    forall name ensures name in next <==> Named(zip, name) {
      if Named(front, name) {
        var i: nat :| IsFor(front, i, name);
        assert IsFor(zip, i, name);
      }
      if Named(zip, name) {
        var i: nat :| IsFor(zip, i, name);
        assert i < n ==> IsFor(front, i, name);
      }
    }
    forall i: nat | IsLast(zip, i) && i < n ensures IsLast(front, i) && zip[i].name != last.name {
      forall j | i < j < |front| ensures !IsFor(front, j, zip[i].name) {
        assert !IsFor(zip, j, zip[i].name);
      }
    }
    forall i: nat | IsFirst(zip, i) && zip[i].FileEntry?
      ensures zip[i].name in next && next[zip[i].name].Regular? && next[zip[i].name].exec == zip[i].exec
    {
      if i < n {
        forall j | 0 <= j < i ensures !IsFor(front, j, zip[i].name) {
          assert !IsFor(zip, j, zip[i].name);
        }
        assert IsFirst(front, i);
      } else {
        assert last.name !in dir;
      }
    }
  }

  lemma StagedHolds(zip: Bundle, versionID: string)
    requires Deployable(zip, versionID)
    ensures HoldsRelease(Staged(zip, versionID), zip, versionID)
  {
    UnpackedHolds(zip);
    var dir := Unpacked(zip);
    forall i: nat | IsLast(zip, i) ensures zip[i].name in dir && dir[zip[i].name].Folder? == zip[i].DirEntry? {}
  }

  /** The whole content of the bundle, marked with some version id or none. */
  ghost predicate HoldsBundle(dir: Dir, zip: Bundle) {
    exists versionID :: HoldsRelease(dir, zip, versionID)
  }

  lemma CompleteHolds(dir: Dir, zip: Bundle)
    requires Complete(dir, zip)
    ensures HoldsBundle(dir, zip)
  {
    var versionID :| Deployable(zip, versionID) && dir == Staged(zip, versionID);
    StagedHolds(zip, versionID);
  }
}
