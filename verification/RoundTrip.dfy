/** Backing up and restoring: a restore is all or nothing, and gives back what was
    backed up. */
module RoundTrip {
  import opened Common
  import opened Paths
  import opened FileTree
  import opened Manifests
  import opened Bundles
  import opened Backups
  import opened Disk
  import opened Restore

  predicate HasDatabase(files: seq<Record>) {
    exists i :: 0 <= i < |files| && files[i].path == DATABASE
  }

  function DatabaseRecord(files: seq<Record>): (r: Record)
    requires HasDatabase(files)
    ensures r in files && r.path == DATABASE
  {
    if files[0].path == DATABASE then files[0]
    else
      assert HasDatabase(files[1..]) by {
        var i :| 0 <= i < |files| && files[i].path == DATABASE;
        assert files[1..][i - 1] == files[i];
      }
      DatabaseRecord(files[1..])
  }

  /* A verified bundle can be restored. */

  /** Nothing is below a file. */
  lemma {:induction false} FilesDoNotNest(entries: seq<Entry>, p: Path, q: Path, content: Content)
    requires FileAt(entries, p, content) && p < q
    ensures Find(entries, q) == None
    decreases |p|, |entries|
  {
    assert p[0] == q[0];
    if entries[0].name != p[0] {
      FilesDoNotNest(entries[1..], p, q, content);
    } else if |p| > 1 {
      assert p[1..] < q[1..];
      FilesDoNotNest(entries[0].node.entries, p[1..], q[1..], content);
    }
  }

  /** Every record that was collected has its file in the tree. */
  lemma RecordedFile(h: Hasher, entries: seq<Entry>, files: seq<Record>, x: Record) returns (p: Path, content: Content)
    requires Distinct(entries) && Collected(h, entries, {MANIFEST}) == Ok(files) && x in files
    ensures FileAt(entries, p, content) && x == RecordOf(h, Found(p, content)) && PortablePath(p)
    ensures Parsed(x.path) == p && Matches(h, Source(entries, x), x)
    ensures BlobPath(x.path) ==>
              p == [BLOBS] + Relative(x) && SafePath(x.path[|BLOBS| + 1..]) && Relative(x) != []
  {
    CollectedElements(h, entries, {MANIFEST}, x);
    var q, c :| FileAt(entries, q, c) && Printed(q) !in {MANIFEST} && x == RecordOf(h, Found(q, c));
    p, content := q, c;
    FindIsPortable(entries, p);
    PrintedIsSafe(p);
    BlobPathIsBelowBlobs(p);
    if BlobPath(x.path) {
      PrintedIsSafe(p[1..]);
      assert p == [p[0]] + p[1..];
    }
  }

  lemma BlobsAreClear(env: Environment, bundle: Node, files: seq<Record>, i: nat, j: nat)
    requires Verifies(env, bundle, files) && Distinct(bundle.entries)
    requires i < |files| && j < |files| && i != j && BlobPath(files[i].path) && BlobPath(files[j].path)
    ensures !(Relative(files[i]) <= Relative(files[j]))
  {
    var p, c := RecordedFile(env.h, bundle.entries, files, files[i]);
    var q, d := RecordedFile(env.h, bundle.entries, files, files[j]);
    assert files[i].path != files[j].path by {
      LessIsStrict(files[i].path);
    }
    if Relative(files[i]) <= Relative(files[j]) {
      PrefixesLift(Relative(files[i]), Relative(files[j]));
      if p == q {
      } else {
        FilesDoNotNest(bundle.entries, p, q, c);
      }
    }
  }

  lemma PrefixesLift(a: Path, b: Path)
    requires a <= b
    ensures [BLOBS] + a <= [BLOBS] + b
  {
  }

  lemma BlobIsNotNamespace(entries: seq<Entry>, q: Path, content: Content)
    requires DirectoryAt(entries, [BLOBS, SHA256]) && q != [] && FileAt(entries, [BLOBS] + q, content)
    ensures !(q <= [SHA256])
  {
    assert [BLOBS] + [SHA256] == [BLOBS, SHA256];
    assert q <= [SHA256] ==> q == [SHA256];
  }

  lemma BlobIsClear(env: Environment, bundle: Node, files: seq<Record>, i: nat)
    requires Verifies(env, bundle, files) && Distinct(bundle.entries) && i < |files| && BlobPath(files[i].path)
    ensures Clear(Relative(files[i]), Done(files, i))
  {
    var p, c := RecordedFile(env.h, bundle.entries, files, files[i]);
    BlobIsNotNamespace(bundle.entries, Relative(files[i]), c);
    forall q | q in Done(files, i)
      ensures !(q <= Relative(files[i])) && !(Relative(files[i]) <= q)
    {
      var j :| 0 <= j < i && BlobPath(files[j].path) && q == Relative(files[j]);
      BlobsAreClear(env, bundle, files, i, j);
      BlobsAreClear(env, bundle, files, j, i);
    }
  }

  lemma DatabaseMatches(env: Environment, bundle: Node, files: seq<Record>)
    requires Verifies(env, bundle, files) && Distinct(bundle.entries)
    ensures HasDatabase(files) && Matches(env.h, Find(bundle.entries, [DATABASE]), DatabaseRecord(files))
  {
    var p, c := RecordedFile(env.h, bundle.entries, files, DatabaseRecord(files));
    OnlyDatabaseIsDatabase(p);
  }

  /** What verifies can be restored. */
  lemma VerifiedIsRestorable(env: Environment, bundle: Node, files: seq<Record>)
    requires Verifies(env, bundle, files) && Distinct(bundle.entries)
    ensures Restorable(env.h, bundle.entries, files)
  {
    forall i | 0 <= i < |files| && BlobPath(files[i].path)
      ensures SafePath(files[i].path[|BLOBS| + 1..])
      ensures Matches(env.h, Source(bundle.entries, files[i]), files[i])
      ensures Clear(Relative(files[i]), Done(files, i))
    {
      var p, c := RecordedFile(env.h, bundle.entries, files, files[i]);
      BlobIsClear(env, bundle, files, i);
    }
  }

  /* Restoring. */

  /** Both targets are new, apart from the bundle and from each other, and no file is
      above them. */
  predicate TargetsFree(files: map<Path, Content>, dirs: set<Path>, location: Path, database: Path, target: Path) {
    && database !in files && database !in dirs && target !in files && target !in dirs
    && !(location <= database) && !(location <= target) && !(target <= database) && !(database <= target)
    && Reachable(files, database) && Reachable(files, target)
  }

  method CheckTargets(disk: FileSystem, location: Path, database: Path, target: Path) returns (free: bool)
    ensures free <==> TargetsFree(disk.files, disk.dirs, location, database, target)
  {
    if disk.Exists(database) || disk.Exists(target) {
      return false;
    }
    return Apart(location, database, target) && Reachable(disk.files, database) && Reachable(disk.files, target);
  }

  /** When nothing fails, a restore succeeds exactly here. */
  ghost predicate CanRestore(env: Environment, bundle: Node, files: map<Path, Content>, dirs: set<Path>,
                             location: Path, database: Path, target: Path)
  {
    (exists records :: Verifies(env, bundle, records)) && TargetsFree(files, dirs, location, database, target)
  }

  lemma NothingBelow(disk: FileSystem, target: Path, p: Path)
    requires disk.Valid() && !disk.Exists(target) && Below(target, p)
    ensures !disk.Exists(p)
  {
    assert p[..|target|] == target;
    assert |p| == |target| ==> p == target;
  }

  /** What a restore may add: directories above the targets, and the target directory. */
  ghost predicate OnlyAround(dirs: set<Path>, before: set<Path>, database: Path, target: Path) {
    before <= dirs && forall d :: d in dirs && d !in before ==> d < database || d < target || target <= d
  }

  /** The part after the checks, with nothing at the targets. */
  method RestoreVerified(disk: FileSystem, h: Hasher, files: seq<Record>, later: seq<Entry>, database: Path,
                         target: Path)
      returns (ok: bool)
    requires disk.Valid() && HasDatabase(files) && !disk.Exists(database) && !disk.Exists(target)
    requires !Below(target, database) && !Below(database, target)
    modifies disk
    ensures disk.Valid()
    ensures !ok ==> disk.files == old(disk.files) && OnlyParents(disk.dirs, old(disk.dirs), database, target)
    ensures ok ==> RestoredFrom(h, later, files) && {target, target + [SHA256]} <= disk.dirs
    ensures OnlyAround(disk.dirs, old(disk.dirs), database, target)
    ensures ok ==> disk.files == (old(disk.files) + Restored(later, files, target))[database :=
                                   Find(later, [DATABASE]).value.content]
    ensures disk.Faultless() && Reachable(old(disk.files), database) && Reachable(old(disk.files), target) ==>
              Restorable(h, later, files) && Matches(h, Find(later, [DATABASE]), DatabaseRecord(files)) ==> ok
  {
    forall p | Below(target, p)
      ensures !disk.Exists(p)
    {
      NothingBelow(disk, target, p);
    }
    ok := PrepareTargets(disk, database, target);
    if !ok {
      return;
    }
    ok := FillTargets(disk, h, files, later, DatabaseRecord(files), database, target);
  }

  /** Every file was copied with the digest and size that its record has. */
  predicate RestoredFrom(h: Hasher, bundle: seq<Entry>, files: seq<Record>)
    requires HasDatabase(files)
  {
    AllMatch(h, bundle, files, |files|) && Matches(h, Find(bundle, [DATABASE]), DatabaseRecord(files))
  }

  /** `restore_bundle`, for a bundle at `location` whose entries read as `later` while
      they are copied, which may differ from what was verified.

      On failure, at whatever operation, the files are the old ones, so that there is no
      new database; nothing is below the target directory that was not there; and only
      directories above the targets may be new. On success exactly the recorded files
      have been added, each with the digest and size that was verified. */
  method RestoreBundle(disk: FileSystem, env: Environment, bundle: Node, later: seq<Entry>, location: Path,
                       database: Path, target: Path)
      returns (ok: bool, files: seq<Record>)
    requires disk.Valid()
    modifies disk
    ensures disk.Valid()
    ensures !ok ==> disk.files == old(disk.files) && OnlyParents(disk.dirs, old(disk.dirs), database, target)
    ensures ok ==> Verifies(env, bundle, files) && HasDatabase(files) && RestoredFrom(env.h, later, files)
    ensures ok ==> !old(disk.Exists(database)) && !old(disk.Exists(target)) && {target, target + ["sha256"]} <= disk.dirs
    ensures ok || disk.dirs != old(disk.dirs) ==>
              !(location <= database) && !(location <= target) && !(target <= database) && !(database <= target)
    ensures OnlyAround(disk.dirs, old(disk.dirs), database, target)
    ensures ok ==> disk.files == (old(disk.files) + Restored(later, files, target))[database :=
                                   Find(later, [DATABASE]).value.content]
    ensures disk.Faultless() && bundle.Dir? && later == bundle.entries && Distinct(later) ==>
              (ok <==> CanRestore(env, bundle, old(disk.files), old(disk.dirs), location, database, target))
  {
    var verified := VerifyBundle(env, bundle);
    if verified.Err? {
      return false, [];
    }
    files := verified.value;
    var free := CheckTargets(disk, location, database, target);
    if !free {
      return false, files;
    }
    if later == bundle.entries && Distinct(later) {
      VerifiedIsRestorable(env, bundle, files);
      DatabaseMatches(env, bundle, files);
    }
    ok := RestoreVerified(disk, env.h, files, later, database, target);
  }

  /** Whether a restore succeeds or fails, nothing changes where the bundle lies, if that
      is a place on the same disk. */
  lemma BundleIsUntouched(later: seq<Entry>, records: seq<Record>, before: map<Path, Content>, after: map<Path, Content>,
                          oldDirs: set<Path>, dirs: set<Path>, location: Path, database: Path, target: Path, c: Content,
                          p: Path)
    requires OnlyAround(dirs, oldDirs, database, target)
    requires dirs != oldDirs || after != before ==> !(location <= database) && !(location <= target)
    requires after == before || after == (before + Restored(later, records, target))[database := c]
    requires location <= p && !(target <= location)
    ensures p in before ==> p in after && after[p] == before[p]
    ensures p in after ==> p in before
    ensures p in dirs <==> p in oldDirs
  {
    RestoredAreBelow(later, records, target);
    if target <= p {
      PrefixesCompare(location, target, p);
    }
  }

  lemma PrefixesCompare(a: Path, b: Path, p: Path)
    requires a <= p && b <= p
    ensures a <= b || b <= a
  {
    assert a == p[..|a|] && b == p[..|b|];
    assert |a| <= |b| ==> a == b[..|a|];
    assert |b| <= |a| ==> b == a[..|b|];
  }

  lemma RestoredAreBelow(bundle: seq<Entry>, records: seq<Record>, target: Path)
    ensures forall q :: q in Restored(bundle, records, target) ==> Below(target, q)
  {
    forall q | q in Restored(bundle, records, target)
      ensures Below(target, q)
    {
      RestoredIsBelow(bundle, records, target, q);
    }
  }

  /* What comes back. */

  lemma {:induction false} RestoredElements(h: Hasher, bundle: seq<Entry>, records: seq<Record>, n: nat, target: Path,
                                            p: Path, content: Content)
    requires Restorable(h, bundle, records) && n <= |records|
    ensures p in Restored(bundle, records[..n], target) && Restored(bundle, records[..n], target)[p] == content <==>
            exists i :: 0 <= i < n && BlobPath(records[i].path) && p == Destination(target, records[i])
                        && Source(bundle, records[i]) == Some(File(content))
  {
    if n > 0 {
      RestoredStep(bundle, records, n - 1, target);
      RestoredElements(h, bundle, records, n - 1, target, p, content);
      forall i | 0 <= i < n - 1 && BlobPath(records[i].path) && BlobPath(records[n - 1].path)
        ensures Destination(target, records[i]) != Destination(target, records[n - 1])
      {
        assert Relative(records[i]) in Done(records, n - 1);
        CutOff(target, Relative(records[i]));
        CutOff(target, Relative(records[n - 1]));
      }
    }
  }

  /** Below the target, a restore of an unchanged verified bundle creates exactly the
      bundle's blobs. */
  lemma RestoredIsBundle(env: Environment, bundle: Node, files: seq<Record>, target: Path, q: Path, content: Content)
    requires Verifies(env, bundle, files) && Distinct(bundle.entries) && q != []
    ensures var restored := Restored(bundle.entries, files, target);
            target + q in restored && restored[target + q] == content <==>
            FileAt(bundle.entries, [BLOBS] + q, content)
  {
    VerifiedIsRestorable(env, bundle, files);
    RestoredElements(env.h, bundle.entries, files, |files|, target, target + q, content);
    assert files[..|files|] == files;
    if i :| 0 <= i < |files| && BlobPath(files[i].path) && target + q == Destination(target, files[i])
            && Source(bundle.entries, files[i]) == Some(File(content)) {
      CutOff(target, q);
      CutOff(target, Relative(files[i]));
      var p, c := RecordedFile(env.h, bundle.entries, files, files[i]);
    }
    if FileAt(bundle.entries, [BLOBS] + q, content) {
      BlobIsRecorded(env, bundle, files, q, content);
    }
  }

  lemma BlobIsRecorded(env: Environment, bundle: Node, files: seq<Record>, q: Path, content: Content)
    requires Verifies(env, bundle, files) && Distinct(bundle.entries) && q != []
    requires FileAt(bundle.entries, [BLOBS] + q, content)
    ensures exists i :: 0 <= i < |files| && BlobPath(files[i].path) && Relative(files[i]) == q
                        && Source(bundle.entries, files[i]) == Some(File(content))
  {
    var p := [BLOBS] + q;
    var x := RecordOf(env.h, Found(p, content));
    FindIsPortable(bundle.entries, p);
    OnlyManifestIsExcluded(p);
    assert Describes(env.h, bundle.entries, {MANIFEST}, x);
    CollectedElements(env.h, bundle.entries, {MANIFEST}, x);
    var i :| 0 <= i < |files| && files[i] == x;
    PrintedIsSafe(p);
    BlobPathIsBelowBlobs(p);
    assert p[1..] == q;
    PrintedIsSafe(q);
  }

  /** The round trip: for the bundle that a backup of this snapshot and blob tree wrote,
      the restored blobs and the restored database are those that were backed up. */
  lemma RestoredIsSource(env: Environment, snapshot: Content, blobs: seq<Entry>, files: seq<Record>, target: Path,
                         q: Path, content: Content)
    requires Distinct(blobs) && Verifies(env, BundleOf(snapshot, blobs, files), files) && q != []
    ensures var bundle := BundleOf(snapshot, blobs, files).entries;
            && Find(bundle, [DATABASE]) == Some(File(snapshot))
            && (var restored := Restored(bundle, files, target);
                target + q in restored && restored[target + q] == content <==> FileAt(blobs, q, content))
  {
    BundleIsRegular(snapshot, blobs, files);
    FindInBundle(snapshot, blobs, files);
    RestoredIsBundle(env, BundleOf(snapshot, blobs, files), files, target, q, content);
  }

  /* From the source to the restored disk, end to end. */

  /** No file is replaced by another one with the same digest. */
  ghost predicate NoCollision(h: Hasher, a: seq<Entry>, b: seq<Entry>) {
    forall p, c, d :: FileAt(a, p, c) && FileAt(b, p, d) && h.digest(c) == h.digest(d) ==> c == d
  }

  lemma UnchangedHasNoCollision(h: Hasher, entries: seq<Entry>)
    ensures NoCollision(h, entries, entries)
  {
  }

  /** A file that was copied with a verified digest is the file that was verified. */
  lemma SameSource(env: Environment, bundle: Node, files: seq<Record>, later: seq<Entry>, x: Record)
    requires Verifies(env, bundle, files) && Distinct(bundle.entries) && x in files
    requires NoCollision(env.h, bundle.entries, later) && Matches(env.h, Source(later, x), x)
    ensures Source(later, x) == Source(bundle.entries, x)
  {
    var p, c := RecordedFile(env.h, bundle.entries, files, x);
    var d := Source(later, x).value.content;
    assert FileAt(later, p, d);
  }

  lemma {:induction false} RestoredAlike(a: seq<Entry>, b: seq<Entry>, records: seq<Record>, target: Path)
    requires forall i :: 0 <= i < |records| && BlobPath(records[i].path) ==> Source(a, records[i]) == Source(b, records[i])
    ensures Restored(a, records, target) == Restored(b, records, target)
  {
    if records != [] {
      RestoredAlike(a, b, records[..|records| - 1], target);
    }
  }

  /** Whatever happened to the bundle after it was verified: if the restore succeeded, it
      restored what was verified, or there is a collision. */
  lemma LaterIsTheSame(env: Environment, bundle: Node, files: seq<Record>, later: seq<Entry>, target: Path)
    requires Verifies(env, bundle, files) && Distinct(bundle.entries)
    requires HasDatabase(files) && RestoredFrom(env.h, later, files) && NoCollision(env.h, bundle.entries, later)
    ensures Restored(later, files, target) == Restored(bundle.entries, files, target)
    ensures Find(later, [DATABASE]) == Find(bundle.entries, [DATABASE])
  {
    forall i | 0 <= i < |files| && BlobPath(files[i].path)
      ensures Source(later, files[i]) == Source(bundle.entries, files[i])
    {
      SameSource(env, bundle, files, later, files[i]);
    }
    RestoredAlike(later, bundle.entries, files, target);
    var r := DatabaseRecord(files);
    var p, c := RecordedFile(env.h, bundle.entries, files, r);
    OnlyDatabaseIsDatabase(p);
    SameSource(env, bundle, files, later, r);
  }

  /** Below the target there are exactly the files of the source, the database is the
      snapshot, and every other file is as before. */
  ghost predicate HoldsBackup(after: map<Path, Content>, before: map<Path, Content>, snapshot: Content,
                              blobs: seq<Entry>, database: Path, target: Path)
  {
    && database in after && after[database] == snapshot
    && (forall p, content :: Below(target, p) ==>
          (p in after && after[p] == content <==> FileAt(blobs, p[|target|..], content)))
    && (forall p :: !Below(target, p) && p != database ==>
          (p in after <==> p in before) && (p in after ==> after[p] == before[p]))
  }

  lemma RestoredDisk(env: Environment, snapshot: Content, blobs: seq<Entry>, files: seq<Record>, later: seq<Entry>,
                     before: map<Path, Content>, after: map<Path, Content>, database: Path, target: Path)
    requires Distinct(blobs) && Verifies(env, BundleOf(snapshot, blobs, files), files)
    requires HasDatabase(files) && RestoredFrom(env.h, later, files)
    requires NoCollision(env.h, BundleOf(snapshot, blobs, files).entries, later)
    requires forall p :: p in before ==> !Below(target, p)
    requires !Below(target, database)
    requires after == (before + Restored(later, files, target))[database := Find(later, [DATABASE]).value.content]
    ensures HoldsBackup(after, before, snapshot, blobs, database, target)
  {
    var bundle := BundleOf(snapshot, blobs, files);
    var restored := Restored(bundle.entries, files, target);
    BundleIsRegular(snapshot, blobs, files);
    LaterIsTheSame(env, bundle, files, later, target);
    FindInBundle(snapshot, blobs, files);
    forall q, content
      ensures target + q in restored && restored[target + q] == content <==> FileAt(blobs, q, content)
    {
      BelowTarget(env, snapshot, blobs, files, target, q, content);
    }
    forall p | p in restored
      ensures Below(target, p)
    {
      RestoredIsBelow(bundle.entries, files, target, p);
    }
    DiskHolds(before, restored, snapshot, blobs, database, target);
  }

  lemma DiskHolds(before: map<Path, Content>, restored: map<Path, Content>, snapshot: Content, blobs: seq<Entry>,
                  database: Path, target: Path)
    requires forall p :: p in before ==> !Below(target, p)
    requires forall p :: p in restored ==> Below(target, p)
    requires !Below(target, database)
    requires forall q, content ::
               target + q in restored && restored[target + q] == content <==> FileAt(blobs, q, content)
    ensures HoldsBackup((before + restored)[database := snapshot], before, snapshot, blobs, database, target)
  {
    forall p, content | Below(target, p)
      ensures p in restored && restored[p] == content <==> FileAt(blobs, p[|target|..], content)
    {
      assert p == target + p[|target|..];
    }
  }

  lemma BelowTarget(env: Environment, snapshot: Content, blobs: seq<Entry>, files: seq<Record>, target: Path,
                    q: Path, content: Content)
    requires Distinct(blobs) && Verifies(env, BundleOf(snapshot, blobs, files), files)
    ensures var restored := Restored(BundleOf(snapshot, blobs, files).entries, files, target);
            target + q in restored && restored[target + q] == content <==> FileAt(blobs, q, content)
  {
    if q != [] {
      RestoredIsSource(env, snapshot, blobs, files, target, q, content);
    } else {
      assert target + q == target;
      NotRestored(BundleOf(snapshot, blobs, files).entries, files, target);
    }
  }

  /** The target itself is no file. */
  lemma {:induction false} NotRestored(bundle: seq<Entry>, records: seq<Record>, target: Path)
    ensures target !in Restored(bundle, records, target)
  {
    if records != [] {
      NotRestored(bundle, records[..|records| - 1], target);
    }
  }

  /** A readable snapshot, and a portable tree with a sha256 directory. */
  predicate CanBackUp(env: Environment, snapshot: Option<Content>, source: Option<Node>) {
    && snapshot.Some? && env.readable(snapshot.value)
    && source.Some? && source.value.Dir? && Regular(source.value.entries) && DirectoryAt(source.value.entries, ["sha256"])
  }

  /** A backup and a later restore of it. Between the two the bundle may have changed in
      any way, so that it reads as `later` while it is copied. */
  method BackupThenRestore(disk: FileSystem, env: Environment, snapshot: Option<Content>, source: Option<Node>,
                           location: Path, later: seq<Entry>, database: Path, target: Path)
      returns (ok: bool, bundle: Node)
    requires disk.Valid()
    requires source.Some? && source.value.Dir? ==> Distinct(source.value.entries)
    modifies disk
    ensures disk.Valid()
    ensures !ok ==> disk.files == old(disk.files) && OnlyParents(disk.dirs, old(disk.dirs), database, target)
    ensures ok ==> snapshot.Some? && source.Some? && source.value.Dir? && bundle.Dir?
    ensures disk.Faultless() && bundle.Dir? && later == bundle.entries ==>
              (ok <==> && CanBackUp(env, snapshot, source)
                       && TargetsFree(old(disk.files), old(disk.dirs), location, database, target))
    ensures ok && NoCollision(env.h, bundle.entries, later) ==>
              HoldsBackup(disk.files, old(disk.files), snapshot.value, source.value.entries, database, target)
  {
    bundle := Dir([]);
    var made := BackupBundle(env, snapshot, source);
    if made.Err? {
      return false, bundle;
    }
    bundle := made.value;
    ghost var before := disk.files;
    if !disk.Exists(target) {
      forall p | Below(target, p)
        ensures !disk.Exists(p)
      {
        NothingBelow(disk, target, p);
      }
    }
    ghost var fs :| bundle == BundleOf(snapshot.value, source.value.entries, fs) && Verifies(env, bundle, fs);
    BundleIsRegular(snapshot.value, source.value.entries, fs);
    var files;
    ok, files := RestoreBundle(disk, env, bundle, later, location, database, target);
    if ok && NoCollision(env.h, bundle.entries, later) {
      SameManifest(env, snapshot.value, source.value.entries, bundle, files);
      RestoredDisk(env, snapshot.value, source.value.entries, files, later, before, disk.files, database, target);
    }
  }

  /** A bundle verifies with one list of records only. */
  lemma SameManifest(env: Environment, snapshot: Content, blobs: seq<Entry>, bundle: Node, files: seq<Record>)
    requires exists fs :: bundle == BundleOf(snapshot, blobs, fs) && Verifies(env, bundle, fs)
    requires Verifies(env, bundle, files)
    ensures bundle == BundleOf(snapshot, blobs, files)
  {
  }
}
