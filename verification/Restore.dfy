/** Restoring a verified bundle into new targets. */
module Restore {
  import opened Common
  import opened Paths
  import opened FileTree
  import opened Manifests
  import opened Bundles
  import opened Disk

  /** Where a blob goes, below the target directory. */
  function Relative(r: Record): Path
    requires BlobPath(r.path)
  {
    Parsed(r.path[|BLOBS| + 1..])
  }

  function Destination(target: Path, r: Record): Path
    requires BlobPath(r.path)
  {
    target + Relative(r)
  }

  function Source(bundle: seq<Entry>, r: Record): Option<Node> {
    Find(bundle, Parsed(r.path))
  }

  /** The files that restoring these records creates, given the bundle as it is read. */
  function Restored(bundle: seq<Entry>, records: seq<Record>, target: Path): map<Path, Content> {
    if records == [] then map[]
    else
      var last := records[|records| - 1];
      var before := Restored(bundle, records[..|records| - 1], target);
      if BlobPath(last.path) && Source(bundle, last).Some? && Source(bundle, last).value.File?
      then before[Destination(target, last) := Source(bundle, last).value.content]
      else before
  }

  lemma {:induction false} RestoredIsBelow(bundle: seq<Entry>, records: seq<Record>, target: Path, p: Path)
    requires p in Restored(bundle, records, target)
    ensures Below(target, p)
  {
    var last := records[|records| - 1];
    if p in Restored(bundle, records[..|records| - 1], target) {
      RestoredIsBelow(bundle, records[..|records| - 1], target, p);
    } else {
      assert target <= target + Relative(last);
    }
  }

  /* One blob. `done` holds the relative paths restored so far. */

  /** What there is below the target: the blobs that are done, and the directories that
      lead to them. */
  ghost predicate Progress(disk: FileSystem, done: set<Path>, target: Path)
    reads disk
  {
    && (forall p :: p in disk.files && Below(target, p) ==> p[|target|..] in done)
    && (forall d :: d in disk.dirs && Below(target, d) ==> Leads(d[|target|..], done))
  }

  ghost predicate Leads(d: Path, done: set<Path>) {
    d <= [SHA256] || exists q :: q in done && d < q
  }

  /** A relative path that is not in the way of the others, nor they in its way. */
  predicate Clear(relative: Path, done: set<Path>) {
    && relative != [] && !(relative <= [SHA256])
    && forall q :: q in done ==> !(q <= relative) && !(relative <= q)
  }

  lemma CutBelow(target: Path, relative: Path, k: nat)
    requires k <= |target + relative|
    ensures k <= |target| ==> (target + relative)[..k] == target[..k]
    ensures k >= |target| ==> (target + relative)[..k] == target + relative[..k - |target|]
  {
  }

  lemma CutOff(target: Path, p: Path)
    ensures (target + p)[|target|..] == p && Below(target, target + p)
  {
  }

  lemma NoFileAbove(disk: FileSystem, done: set<Path>, target: Path, relative: Path, k: nat)
    requires disk.Valid() && target in disk.dirs && Progress(disk, done, target)
    requires Clear(relative, done) && k <= |target + relative|
    ensures (target + relative)[..k] !in disk.files
  {
    CutBelow(target, relative, k);
    if k >= |target| {
      CutOff(target, relative[..k - |target|]);
      assert relative[..k - |target|] <= relative;
    } else {
      assert target[..k] in disk.dirs;
    }
  }

  lemma NothingThere(disk: FileSystem, done: set<Path>, target: Path, relative: Path)
    requires disk.Valid() && target in disk.dirs && Progress(disk, done, target) && Clear(relative, done)
    ensures !disk.Exists(target + relative)
  {
    NoFileAbove(disk, done, target, relative, |target + relative|);
    assert (target + relative)[..|target + relative|] == target + relative;
    CutOff(target, relative);
    assert !Leads(relative, done);
  }

  /** Directories made for one blob are below the target and lead to that blob. */
  lemma NewDirectories(disk: FileSystem, target: Path, relative: Path, d: Path)
    requires disk.Valid() && target in disk.dirs && relative != []
    requires d !in disk.dirs && d <= target + relative[..|relative| - 1]
    ensures Below(target, d) && d[|target|..] < relative
  {
    var parent := relative[..|relative| - 1];
    CutBelow(target, parent, |d|);
    assert d == (target + parent)[..|d|];
    if |d| >= |target| {
      CutOff(target, parent[..|d| - |target|]);
    }
  }

  method RestoreBlob(disk: FileSystem, h: Hasher, source: Option<Node>, relative: Path, entry: Record, target: Path,
                     ghost done: set<Path>)
      returns (ok: bool)
    requires disk.Valid() && target in disk.dirs && relative != [] && Progress(disk, done, target)
    modifies disk
    ensures disk.Valid() && target in disk.dirs
    ensures old(disk.dirs) <= disk.dirs
    ensures forall d :: d in disk.dirs && d !in old(disk.dirs) ==> Below(target, d)
    ensures ok ==> Matches(h, source, entry) && target + relative !in old(disk.files)
    ensures disk.files == if ok then old(disk.files)[target + relative := source.value.content] else old(disk.files)
    ensures ok ==> Progress(disk, done + {relative}, target)
    ensures disk.Faultless() && Matches(h, source, entry) && Clear(relative, done) ==> ok
  {
    var parent := target + relative[..|relative| - 1];
    CutBelow(target, relative, |target + relative| - 1);
    if Clear(relative, done) {
      NothingThere(disk, done, target, relative);
      forall k | 0 <= k <= |parent|
        ensures parent[..k] !in disk.files
      {
        NoFileAbove(disk, done, target, relative, k);
        assert parent[..k] == (target + relative)[..k];
      }
    }
    forall d | d !in disk.dirs && Below(d, parent)
      ensures Below(target, d) && d[|target|..] < relative
    {
      NewDirectories(disk, target, relative, d);
    }
    var made := disk.CreateDirAll(parent);
    if !made {
      return false;
    }
    ok := disk.CopyVerifiedNew(h, source, target + relative, entry);
    if ok {
      Advance(disk, old(disk.files), old(disk.dirs), done, target, relative);
    }
  }

  lemma Advance(disk: FileSystem, files: map<Path, Content>, dirs: set<Path>, done: set<Path>, target: Path,
                relative: Path)
    requires forall p :: p in disk.files ==> p in files || p == target + relative
    requires forall d :: d in disk.dirs ==> d in dirs || (Below(target, d) && d[|target|..] < relative)
    requires forall p :: p in files && Below(target, p) ==> p[|target|..] in done
    requires forall d :: d in dirs && Below(target, d) ==> Leads(d[|target|..], done)
    ensures Progress(disk, done + {relative}, target)
  {
    CutOff(target, relative);
    forall d | d in disk.dirs && Below(target, d)
      ensures Leads(d[|target|..], done + {relative})
    {
      if d in dirs && !(d[|target|..] <= [SHA256]) {
        var q :| q in done && d[|target|..] < q;
        assert q in done + {relative};
      } else if d !in dirs {
        assert relative in done + {relative};
      }
    }
  }

  /* All blobs. */

  function Done(records: seq<Record>, n: nat): set<Path>
    requires n <= |records|
  {
    set j | 0 <= j < n && BlobPath(records[j].path) :: Relative(records[j])
  }

  /** Records that can be restored side by side. */
  ghost predicate Restorable(h: Hasher, bundle: seq<Entry>, records: seq<Record>) {
    forall i :: 0 <= i < |records| && BlobPath(records[i].path) ==>
      && SafePath(records[i].path[|BLOBS| + 1..])
      && Matches(h, Source(bundle, records[i]), records[i])
      && Clear(Relative(records[i]), Done(records, i))
  }

  predicate Restores(h: Hasher, bundle: seq<Entry>, r: Record) {
    BlobPath(r.path) ==> Matches(h, Source(bundle, r), r)
  }

  predicate AllMatch(h: Hasher, bundle: seq<Entry>, records: seq<Record>, n: nat)
    requires n <= |records|
  {
    forall i :: 0 <= i < n ==> Restores(h, bundle, records[i])
  }

  lemma RestoredStep(bundle: seq<Entry>, records: seq<Record>, i: nat, target: Path)
    requires i < |records|
    ensures Restored(bundle, records[..i + 1], target) ==
            if BlobPath(records[i].path) && Source(bundle, records[i]).Some? && Source(bundle, records[i]).value.File?
            then Restored(bundle, records[..i], target)[Destination(target, records[i]) :=
                                                          Source(bundle, records[i]).value.content]
            else Restored(bundle, records[..i], target)
    ensures Done(records, i + 1) ==
            if BlobPath(records[i].path) then Done(records, i) + {Relative(records[i])} else Done(records, i)
  {
    assert records[..i + 1][..i] == records[..i];
  }

  /** One record of the manifest; `before` is what the disk held when the loop began. */
  method RestoreRecord(disk: FileSystem, h: Hasher, records: seq<Record>, i: nat, bundle: seq<Entry>, target: Path,
                       ghost before: map<Path, Content>)
      returns (ok: bool)
    requires i < |records| && disk.Valid() && target in disk.dirs && Progress(disk, Done(records, i), target)
    requires disk.files == before + Restored(bundle, records[..i], target)
    modifies disk
    ensures disk.Valid() && target in disk.dirs && old(disk.dirs) <= disk.dirs
    ensures forall d :: d in disk.dirs && d !in old(disk.dirs) ==> Below(target, d)
    ensures disk.files == before + Restored(bundle, records[..if ok then i + 1 else i], target)
    ensures ok ==> Progress(disk, Done(records, i + 1), target) && Restores(h, bundle, records[i])
    ensures disk.Faultless() && Restorable(h, bundle, records) ==> ok
  {
    RestoredStep(bundle, records, i, target);
    var entry := records[i];
    if !BlobPath(entry.path) {
      return true;
    }
    if !SafePath(entry.path[|BLOBS| + 1..]) {
      return false;
    }
    ok := RestoreBlob(disk, h, Source(bundle, entry), Relative(entry), entry, target, Done(records, i));
  }

  method RestoreBlobs(disk: FileSystem, h: Hasher, records: seq<Record>, bundle: seq<Entry>, target: Path)
      returns (ok: bool, ghost n: nat)
    requires disk.Valid() && target in disk.dirs && Progress(disk, {}, target)
    modifies disk
    ensures disk.Valid() && target in disk.dirs && old(disk.dirs) <= disk.dirs
    ensures forall d :: d in disk.dirs && d !in old(disk.dirs) ==> Below(target, d)
    ensures n <= |records| && disk.files == old(disk.files) + Restored(bundle, records[..n], target)
    ensures ok ==> n == |records| && AllMatch(h, bundle, records, n)
    ensures disk.Faultless() && Restorable(h, bundle, records) ==> ok
  {
    ghost var before := disk.files;
    for i := 0 to |records|
      invariant disk.Valid() && target in disk.dirs && old(disk.dirs) <= disk.dirs
      invariant forall d :: d in disk.dirs && d !in old(disk.dirs) ==> Below(target, d)
      invariant disk.files == before + Restored(bundle, records[..i], target)
      invariant Progress(disk, Done(records, i), target)
      invariant AllMatch(h, bundle, records, i)
    {
      ok := RestoreRecord(disk, h, records, i, bundle, target, before);
      if !ok {
        return false, i;
      }
    }
    return true, |records|;
  }

  /* The whole restore. */

  predicate Apart(location: Path, database: Path, target: Path) {
    && !Below(location, database) && !Below(location, target)
    && !Below(target, database) && !Below(database, target)
  }

  /** Nothing above the path is a file. */
  predicate Reachable(files: map<Path, Content>, p: Path) {
    forall k :: 0 <= k < |p| ==> p[..k] !in files
  }

  /** What may be left of a failed restore: directories above the targets. */
  ghost predicate OnlyParents(dirs: set<Path>, before: set<Path>, database: Path, target: Path) {
    && before <= dirs
    && forall d :: d in dirs && d !in before ==> (d < database || d < target) && !Below(target, d)
  }

  /** Everything that `restore_bundle` does after its checks and before its guard exists. */
  method PrepareTargets(disk: FileSystem, database: Path, target: Path) returns (ok: bool)
    requires disk.Valid() && database != [] && target != []
    requires !disk.Exists(database) && !disk.Exists(target)
    requires !Below(target, database) && !Below(database, target)
    modifies disk
    ensures disk.Valid() && disk.files == old(disk.files)
    ensures ok ==> target in disk.dirs && OnlyParents(disk.dirs - {target}, old(disk.dirs), database, target)
    ensures ok ==> database[..|database| - 1] in disk.dirs
    ensures !ok ==> OnlyParents(disk.dirs, old(disk.dirs), database, target)
    ensures disk.Faultless() && Reachable(disk.files, database) && Reachable(disk.files, target) ==> ok
  {
    var above := database[..|database| - 1];
    assert forall k :: 0 <= k <= |above| ==> above[..k] == database[..k];
    ok := disk.CreateDirAll(above);
    assert OnlyParents(disk.dirs, old(disk.dirs), database, target);
    if !ok {
      return;
    }
    var parent := target[..|target| - 1];
    assert forall k :: 0 <= k <= |parent| ==> parent[..k] == target[..k];
    ok := disk.CreateDirAll(parent);
    assert OnlyParents(disk.dirs, old(disk.dirs), database, target);
    if !ok {
      return;
    }
    assert target !in disk.dirs;
    ok := disk.CreateDir(target);
    assert ok ==> disk.dirs - {target} <= disk.dirs;
  }

  /** Undoes a restore that is not committed. */
  class RestoreGuard {
    const database: Path
    const blobs: Path
    var databaseCreated: bool
    var blobCreated: bool
    var committed: bool

    constructor (database: Path, blobs: Path)
      ensures this.database == database && this.blobs == blobs
      ensures !databaseCreated && !blobCreated && !committed
    {
      this.database, this.blobs := database, blobs;
      databaseCreated, blobCreated, committed := false, false, false;
    }

    method Drop(disk: FileSystem)
      requires disk.Valid() && blobs != []
      modifies disk
      ensures disk.Valid()
      ensures committed ==> disk.files == old(disk.files) && disk.dirs == old(disk.dirs)
      ensures !committed ==>
                && disk.files == (map q | q in old(disk.files) && !(databaseCreated && q == database)
                                          && !(blobCreated && Below(blobs, q)) :: old(disk.files)[q])
                && disk.dirs == (set d | d in old(disk.dirs) && !(blobCreated && Below(blobs, d)))
    {
      if committed {
        return;
      }
      if databaseCreated {
        disk.RemoveFile(database);
      }
      if blobCreated {
        disk.RemoveDirAll(blobs);
      }
    }
  }

  /** Removing the target takes away exactly what was restored into it. */
  lemma RemovedAgain(before: map<Path, Content>, bundle: seq<Entry>, records: seq<Record>, target: Path)
    requires forall p :: p in before ==> !Below(target, p)
    ensures var all := before + Restored(bundle, records, target);
            (map q | q in all && !Below(target, q) :: all[q]) == before
  {
    forall p | p in Restored(bundle, records, target)
      ensures Below(target, p)
    {
      RestoredIsBelow(bundle, records, target, p);
    }
  }

  /** The steps that the guard covers; `n` records were restored when it stopped. */
  method Fill(disk: FileSystem, h: Hasher, records: seq<Record>, bundle: seq<Entry>, entry: Record,
              database: Path, target: Path)
      returns (ok: bool, ghost n: nat)
    requires disk.Valid() && target != [] && target in disk.dirs && database != []
    requires database[..|database| - 1] in disk.dirs && !disk.Exists(database) && !Below(target, database)
    requires forall p :: p in disk.files ==> !Below(target, p)
    requires forall d :: d in disk.dirs && Below(target, d) ==> d == target
    modifies disk
    ensures disk.Valid() && n <= |records| && disk.dirs >= old(disk.dirs)
    ensures forall d :: d in disk.dirs && d !in old(disk.dirs) ==> Below(target, d)
    ensures !ok ==> disk.files == old(disk.files) + Restored(bundle, records[..n], target)
    ensures ok ==> target + [SHA256] in disk.dirs
    ensures ok ==>
              && AllMatch(h, bundle, records, |records|) && Matches(h, Find(bundle, [DATABASE]), entry)
              && disk.files == (old(disk.files) + Restored(bundle, records, target))[database :=
                                 Find(bundle, [DATABASE]).value.content]
    ensures disk.Faultless() && Restorable(h, bundle, records) && Matches(h, Find(bundle, [DATABASE]), entry) ==> ok
  {
    assert (target + [SHA256])[..|target|] == target;
    assert Below(target, target + [SHA256]) && target + [SHA256] != target;
    n := 0;
    ok := disk.CreateDir(target + [SHA256]);
    if !ok {
      return;
    }
    StartsEmpty(disk, target);
    ok, n := RestoreBlobs(disk, h, records, bundle, target);
    if !ok {
      return;
    }
    assert records[..n] == records;
    DatabaseIsFree(bundle, records, target, database);
    ok := disk.CopyVerifiedNew(h, Find(bundle, [DATABASE]), database, entry);
  }

  /** The part that the guard covers: the new target directory is filled, then the
      database is copied. On any failure the target is gone again. */
  method FillTargets(disk: FileSystem, h: Hasher, records: seq<Record>, bundle: seq<Entry>, entry: Record,
                     database: Path, target: Path)
      returns (ok: bool)
    requires disk.Valid() && target != [] && target in disk.dirs && database != []
    requires database[..|database| - 1] in disk.dirs && !disk.Exists(database) && !Below(target, database)
    requires forall p :: p in disk.files ==> !Below(target, p)
    requires forall d :: d in disk.dirs && Below(target, d) ==> d == target
    modifies disk
    ensures disk.Valid()
    ensures !ok ==> disk.files == old(disk.files) && disk.dirs == old(disk.dirs) - {target}
    ensures ok ==> old(disk.dirs) + {target + [SHA256]} <= disk.dirs
    ensures ok ==> forall d :: d in disk.dirs && d !in old(disk.dirs) ==> Below(target, d)
    ensures ok ==>
              && AllMatch(h, bundle, records, |records|) && Matches(h, Find(bundle, [DATABASE]), entry)
              && disk.files == (old(disk.files) + Restored(bundle, records, target))[database :=
                                 Find(bundle, [DATABASE]).value.content]
              && target in disk.dirs
              && disk.dirs >= old(disk.dirs) && forall d :: d in disk.dirs && d !in old(disk.dirs) ==> Below(target, d)
    ensures disk.Faultless() && Restorable(h, bundle, records) && Matches(h, Find(bundle, [DATABASE]), entry) ==> ok
  {
    var guard := new RestoreGuard(database, target);
    guard.blobCreated := true;
    ghost var files, dirs := disk.files, disk.dirs;
    ghost var n;
    ok, n := Fill(disk, h, records, bundle, entry, database, target);
    if ok {
      guard.databaseCreated := true;
      guard.committed := true;
    } else {
      RemovedAgain(files, bundle, records[..n], target);
      assert dirs - {target} == set d | d in disk.dirs && !Below(target, d);
    }
    guard.Drop(disk);
  }

  lemma StartsEmpty(disk: FileSystem, target: Path)
    requires forall p :: p in disk.files ==> !Below(target, p)
    requires forall d :: d in disk.dirs && Below(target, d) ==> d == target || d == target + [SHA256]
    ensures Progress(disk, {}, target)
  {
    CutOff(target, [SHA256]);
    assert [] <= [SHA256];
    assert target[|target|..] == [];
  }

  lemma DatabaseIsFree(bundle: seq<Entry>, records: seq<Record>, target: Path, database: Path)
    requires !Below(target, database)
    ensures database !in Restored(bundle, records, target)
  {
    if database in Restored(bundle, records, target) {
      RestoredIsBelow(bundle, records, target, database);
    }
  }
}
