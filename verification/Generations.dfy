/** The server's managed generations: writing them, and reading them with the
    command-line tool. */
module Generations {
  import opened Common
  import opened Text
  import opened Paths
  import opened FileTree
  import opened Manifests
  import opened Bundles
  import opened Backups

  /** What any file system guarantees of a name. */
  predicate FileSystemName(name: Name) {
    name != "" && name != "." && name != ".." && forall i :: 0 <= i < |name| ==> name[i] != '/'
  }

  predicate FileSystemNames(entries: seq<Entry>)
    decreases entries
  {
    forall i :: 0 <= i < |entries| ==>
      FileSystemName(entries[i].name) && (entries[i].node.Dir? ==> FileSystemNames(entries[i].node.entries))
  }

  /** Nothing but files and directories. */
  predicate Plain(entries: seq<Entry>)
    decreases entries
  {
    forall i :: 0 <= i < |entries| ==>
      entries[i].node.File? || (entries[i].node.Dir? && Plain(entries[i].node.entries))
  }

  predicate AllSafe(files: seq<Found>) {
    forall k :: 0 <= k < |files| ==> SafePath(Printed(files[k].path))
  }

  /** The server's `copy_tree` does not look at names. */
  method CopyTree(source: seq<Entry>) returns (r: Result<seq<Entry>>)
    ensures r == if Plain(source) then Ok(source) else Err
    decreases source
  {
    var destination: seq<Entry> := [];
    for i := 0 to |source|
      invariant destination == source[..i] && Plain(source[..i])
    {
      var entry := source[i];
      match entry.node
      case Symlink =>
        return Err;
      case Special =>
        return Err;
      case Dir(children) =>
        var copied := CopyTree(children);
        if copied.Err? {
          return Err;
        }
        destination := destination + [Entry(entry.name, Dir(copied.value))];
      case File(content) =>
        destination := destination + [Entry(entry.name, File(content))];
    }
    assert source[..|source|] == source;
    return Ok(destination);
  }

  lemma AllSafeConcatenation(a: seq<Found>, b: seq<Found>)
    ensures AllSafe(a + b) <==> AllSafe(a) && AllSafe(b)
  {
    if AllSafe(a + b) {
      assert forall k :: 0 <= k < |a| ==> a[k] == (a + b)[k];
      assert forall k :: 0 <= k < |b| ==> b[k] == (a + b)[|a| + k];
    }
  }

  lemma PlainPrefix(entries: seq<Entry>, n: nat, prefix: Path)
    requires n <= |entries| && Plain(entries) && AllSafe(Files(entries, prefix))
    ensures Plain(entries[..n]) && AllSafe(Files(entries[..n], prefix))
  {
    assert entries == entries[..n] + entries[n..];
    FilesOfConcatenation(entries[..n], entries[n..], prefix);
    AllSafeConcatenation(Files(entries[..n], prefix), Files(entries[n..], prefix));
  }

  predicate Recordable(entries: seq<Entry>, prefix: Path) {
    Plain(entries) && AllSafe(Files(entries, prefix))
  }

  predicate RecordableEntry(e: Entry, prefix: Path) {
    match e.node
    case File(_) => SafePath(Printed(prefix + [e.name]))
    case Dir(children) => Recordable(children, prefix + [e.name])
    case _ => false
  }

  lemma RecordableStep(h: Hasher, entries: seq<Entry>, i: nat, prefix: Path)
    requires i < |entries| && Recordable(entries[..i], prefix)
    ensures Recordable(entries[..i + 1], prefix) <==> RecordableEntry(entries[i], prefix)
    ensures Recordable(entries, prefix) ==> RecordableEntry(entries[i], prefix)
    ensures Records(h, Files(entries[..i + 1], prefix), {}) ==
            Records(h, Files(entries[..i], prefix), {}) +
            Records(h, FilesOf(entries[i].node, prefix + [entries[i].name]), {})
  {
    var before, e := entries[..i], entries[i];
    var own := FilesOf(e.node, prefix + [e.name]);
    assert entries[..i + 1] == before + [e];
    assert entries[..i + 1][i] == e;
    FilesOfConcatenation(before, [e], prefix);
    FilesOfOne(e, prefix);
    RecordsOfConcatenation(h, Files(before, prefix), own, {});
    AllSafeConcatenation(Files(before, prefix), own);
    if e.node.File? {
      assert AllSafe(own) <==> SafePath(Printed(own[0].path));
    }
    if Recordable(entries, prefix) {
      PlainPrefix(entries, i + 1, prefix);
    }
  }

  lemma Appended(a: seq<Record>, b: seq<Record>, c: seq<Record>)
    ensures (a + b) + c == a + (b + c)
  {
  }

  /** The server's `collect_records`: fails on an entry that is neither file nor directory,
      and on a file whose path is not a safe manifest path. */
  method CollectRecords(h: Hasher, entries: seq<Entry>, prefix: Path, records: seq<Record>)
      returns (r: Result<seq<Record>>)
    ensures r == if Recordable(entries, prefix) then Ok(records + Records(h, Files(entries, prefix), {})) else Err
    decreases entries, 0
  {
    var collected := records;
    for i := 0 to |entries|
      invariant Recordable(entries[..i], prefix)
      invariant collected == records + Records(h, Files(entries[..i], prefix), {})
    {
      RecordableStep(h, entries, i, prefix);
      Appended(records, Records(h, Files(entries[..i], prefix), {}),
               Records(h, FilesOf(entries[i].node, prefix + [entries[i].name]), {}));
      var next := RecordEntry(h, entries[i], prefix, collected);
      if next.Err? {
        return Err;
      }
      collected := next.value;
    }
    assert entries[..|entries|] == entries;
    return Ok(collected);
  }

  method RecordEntry(h: Hasher, entry: Entry, prefix: Path, records: seq<Record>) returns (r: Result<seq<Record>>)
    ensures r == if RecordableEntry(entry, prefix)
                 then Ok(records + Records(h, FilesOf(entry.node, prefix + [entry.name]), {})) else Err
    decreases entry.node, 1
  {
    var path := prefix + [entry.name];
    match entry.node
    case Symlink =>
      return Err;
    case Special =>
      return Err;
    case Dir(children) =>
      r := CollectRecords(h, children, path, records);
    case File(content) =>
      if !SafePath(Printed(path)) {
        return Err;
      }
      RecordsOfOne(h, Found(path, content), {});
      return Ok(records + [RecordOf(h, Found(path, content))]);
  }

  /* What a generation records. */

  predicate NamedByFileSystem(p: Path) {
    forall i :: 0 <= i < |p| ==> FileSystemName(p[i])
  }

  lemma {:induction false} FilesAreNamed(entries: seq<Entry>, prefix: Path, k: nat)
    requires FileSystemNames(entries) && NamedByFileSystem(prefix) && k < |Files(entries, prefix)|
    ensures NamedByFileSystem(Files(entries, prefix)[k].path)
    decreases entries
  {
    var e := entries[0];
    var own := FilesOf(e.node, prefix + [e.name]);
    if k >= |own| {
      FilesAreNamed(entries[1..], prefix, k - |own|);
    } else if e.node.Dir? {
      FilesAreNamed(e.node.entries, prefix + [e.name], k);
    }
  }

  /** A path of file-system names has a safe text exactly if its names are portable. */
  lemma SafeIsPortable(p: Path)
    requires p != [] && NamedByFileSystem(p)
    ensures SafePath(Printed(p)) <==> PortablePath(p)
  {
    SplitOfJoin(p, '/');
    if SafePath(Printed(p)) {
      ParsedIsPortable(Printed(p));
    }
    if PortablePath(p) {
      PrintedIsSafe(p);
    }
  }

  function GenerationRecords(h: Hasher, snapshot: Content, blobs: seq<Entry>): seq<Record> {
    Sorted([RecordOf(h, Found([DATABASE], snapshot))] + Records(h, Files(blobs, [BLOBS]), {}))
  }

  /** Every file of the payload is at a portable path, and is the database or a blob. */
  lemma PayloadFile(snapshot: Content, blobs: seq<Entry>, k: nat)
    requires Distinct(blobs) && FileSystemNames(blobs) && Recordable(blobs, [BLOBS])
    requires k < |Files(PayloadEntries(snapshot, blobs), [])|
    ensures var f := Files(PayloadEntries(snapshot, blobs), [])[k];
            && PortablePath(f.path) && f.path != [MANIFEST]
            && (k == 0 ==> f == Found([DATABASE], snapshot))
            && (k > 0 ==> |f.path| >= 2 && f.path[0] == BLOBS)
  {
    FilesOfPayload(snapshot, blobs);
    NamesArePortable();
    if k > 0 {
      var f := Files(blobs, [BLOBS])[k - 1];
      FilesAreThere(blobs, [BLOBS], k - 1);
      FilesAreNamed(blobs, [BLOBS], k - 1);
      SafeIsPortable(f.path);
      assert f.path[0] == [BLOBS][0];
    }
  }

  lemma {:induction false} NothingExcluded(h: Hasher, files: seq<Found>)
    requires forall k :: 0 <= k < |files| ==> PortablePath(files[k].path) && files[k].path != [MANIFEST]
    ensures Records(h, files, {}) == Records(h, files, {MANIFEST})
  {
    if files != [] {
      OnlyManifestIsExcluded(files[0].path);
      NothingExcluded(h, files[1..]);
    }
  }

  /** A generation records exactly what the command-line tool would. */
  lemma GenerationRecordsAgree(h: Hasher, snapshot: Content, blobs: seq<Entry>)
    requires Distinct(blobs) && FileSystemNames(blobs) && Recordable(blobs, [BLOBS])
    ensures GenerationRecords(h, snapshot, blobs)
            == Sorted(Records(h, Files(PayloadEntries(snapshot, blobs), []), {MANIFEST}))
  {
    var files := Files(PayloadEntries(snapshot, blobs), []);
    forall k | 0 <= k < |files|
      ensures PortablePath(files[k].path) && files[k].path != [MANIFEST]
    {
      PayloadFile(snapshot, blobs, k);
    }
    NothingExcluded(h, files);
    FilesOfPayload(snapshot, blobs);
    RecordsOfConcatenation(h, [Found([DATABASE], snapshot)], Files(blobs, [BLOBS]), {});
    RecordsOfOne(h, Found([DATABASE], snapshot), {});
  }

  lemma GenerationRecord(h: Hasher, snapshot: Content, blobs: seq<Entry>, x: Record)
    requires Distinct(blobs) && FileSystemNames(blobs) && Recordable(blobs, [BLOBS])
    requires x in Records(h, Files(PayloadEntries(snapshot, blobs), []), {MANIFEST})
    ensures ValidRecord(x) && (x == RecordOf(h, Found([DATABASE], snapshot)) || BlobPath(x.path))
  {
    var files := Files(PayloadEntries(snapshot, blobs), []);
    RecordsElements(h, files, {MANIFEST}, x);
    var k :| 0 <= k < |files| && Printed(files[k].path) !in {MANIFEST} && x == RecordOf(h, files[k]);
    PayloadFile(snapshot, blobs, k);
    PrintedIsSafe(files[k].path);
    BlobPathIsBelowBlobs(files[k].path);
  }

  lemma GenerationRecordsAreSorted(h: Hasher, snapshot: Content, blobs: seq<Entry>)
    requires Distinct(blobs) && FileSystemNames(blobs) && Recordable(blobs, [BLOBS])
    ensures StrictlySorted(GenerationRecords(h, snapshot, blobs))
  {
    var payload := PayloadEntries(snapshot, blobs);
    var files := Files(payload, []);
    BundleIsRegular(snapshot, blobs, []);
    forall k | 0 <= k < |files|
      ensures PortablePath(files[k].path)
    {
      PayloadFile(snapshot, blobs, k);
    }
    forall j, k | 0 <= j < k < |files|
      ensures files[j].path != files[k].path
    {
      FilesAreDistinct(payload, [], j, k);
    }
    GenerationRecordsAgree(h, snapshot, blobs);
    RecordsAreDistinct(h, files, {MANIFEST});
    SortedIsSorted(Records(h, files, {MANIFEST}));
  }

  lemma GenerationRecordsAreValid(h: Hasher, snapshot: Content, blobs: seq<Entry>)
    requires Distinct(blobs) && FileSystemNames(blobs) && Recordable(blobs, [BLOBS])
    ensures ValidRecords(GenerationRecords(h, snapshot, blobs)) && Payload(GenerationRecords(h, snapshot, blobs))
  {
    var files := Files(PayloadEntries(snapshot, blobs), []);
    var records := Records(h, files, {MANIFEST});
    var database := RecordOf(h, Found([DATABASE], snapshot));
    var all := GenerationRecords(h, snapshot, blobs);
    GenerationRecordsAreSorted(h, snapshot, blobs);
    GenerationRecordsAgree(h, snapshot, blobs);
    forall x | x in all
      ensures ValidRecord(x) && (x == database || BlobPath(x.path))
    {
      SortedKeepsElements(records, x);
      GenerationRecord(h, snapshot, blobs, x);
    }
    SortedKeepsElements([database] + Records(h, Files(blobs, [BLOBS]), {}), database);
    assert database.path == Printed([DATABASE]) == DATABASE;
    PayloadElements(all, database);
  }

  /* Writing and verifying. */

  predicate GenerationVerifies(env: Environment, root: seq<Entry>, expected: seq<Record>) {
    && RootLayout(root)
    && ContentAt(root, MANIFEST) == Some(Json(Portable(BundleVersion, expected)))
    && ValidRecords(expected) && Payload(expected)
    && (match Find(root, [BLOBS])
        case Some(Dir(blobs)) =>
          && Recordable(blobs, [BLOBS])
          && (var database := ContentAt(root, DATABASE);
              && database.Some? && env.readable(database.value)
              && GenerationRecords(env.h, database.value, blobs) == expected)
        case _ => false)
  }

  /** `verify_generation`. */
  method VerifyGeneration(env: Environment, root: seq<Entry>, expected: seq<Record>) returns (verified: bool)
    ensures verified <==> GenerationVerifies(env, root, expected)
  {
    var layout := VerifyRootLayout(root);
    if !layout {
      return false;
    }
    RootLayoutEntries(root);
    var decoded := ContentAt(root, MANIFEST).value;
    if !decoded.Json? || !decoded.manifest.Portable? || decoded.manifest.version != BundleVersion {
      return false;
    }
    var valid := ValidateFileRecords(decoded.manifest.files);
    if !valid || !Payload(decoded.manifest.files) || decoded.manifest.files != expected {
      return false;
    }
    var database := ContentAt(root, DATABASE).value;
    var blobs := Find(root, [BLOBS]).value.entries;
    var actual := CollectRecords(env.h, blobs, [BLOBS], [RecordOf(env.h, Found([DATABASE], database))]);
    if actual.Err? || Sorted(actual.value) != expected {
      return false;
    }
    return env.readable(database);
  }

  function Entries(source: Option<Node>): seq<Entry> {
    if source.Some? && source.value.Dir? then source.value.entries else []
  }

  /** `create_generation`, up to the rename that publishes it. It succeeds exactly if the
      snapshot is readable and the blob source, when there is one, is a directory of
      plain files at safe paths; its self-verification cannot fail. */
  method CreateGeneration(env: Environment, snapshot: Option<Content>, source: Option<Node>) returns (r: Result<Node>)
    requires Distinct(Entries(source)) && FileSystemNames(Entries(source))
    ensures r.Ok? <==> && snapshot.Some? && env.readable(snapshot.value)
                       && (source.Some? ==> source.value.Dir?) && Recordable(Entries(source), [BLOBS])
    ensures r.Ok? ==> r.value == BundleOf(snapshot.value, Entries(source),
                                          GenerationRecords(env.h, snapshot.value, Entries(source)))
  {
    if snapshot.None? {
      return Err;
    }
    var database := RecordOf(env.h, Found([DATABASE], snapshot.value));
    var blobs: seq<Entry> := [];
    if source.Some? {
      if !source.value.Dir? {
        return Err;
      }
      var copied := CopyTree(source.value.entries);
      if copied.Err? {
        return Err;
      }
      blobs := copied.value;
    }
    var records := CollectRecords(env.h, blobs, [BLOBS], [database]);
    if records.Err? {
      return Err;
    }
    var files := Sorted(records.value);
    GenerationRecordsAreValid(env.h, snapshot.value, blobs);
    var valid := ValidateFileRecords(files);
    if !valid || !Payload(files) {
      return Err;
    }
    var root := BundleOf(snapshot.value, blobs, files);
    var verified := VerifyGeneration(env, root.entries, files);
    FindInBundle(snapshot.value, blobs, files);
    BlobsInBundle(snapshot.value, blobs, files);
    if !verified {
      return Err;
    }
    return Ok(root);
  }

  lemma BlobsInBundle(snapshot: Content, blobs: seq<Entry>, files: seq<Record>)
    ensures Find(BundleOf(snapshot, blobs, files).entries, [BLOBS]) == Some(Dir(blobs))
  {
    NamesArePortable();
    var entries := BundleOf(snapshot, blobs, files).entries;
    assert entries[0].name == DATABASE;
    assert entries[1..][0] == Entry(BLOBS, Dir(blobs));
    assert Find(entries, [BLOBS]) == Find(entries[1..], [BLOBS]);
  }

  /** A published generation passes the command-line tool's verification exactly if every
      name in it is portable, directories included, and it has a `sha256` directory. */
  lemma GenerationsInteroperate(env: Environment, snapshot: Content, blobs: seq<Entry>)
    requires Distinct(blobs) && FileSystemNames(blobs) && Recordable(blobs, [BLOBS]) && env.readable(snapshot)
    ensures var files := GenerationRecords(env.h, snapshot, blobs);
            Verifies(env, BundleOf(snapshot, blobs, files), files) <==>
            Regular(blobs) && DirectoryAt(blobs, [SHA256])
  {
    var files := GenerationRecords(env.h, snapshot, blobs);
    FindInBundle(snapshot, blobs, files);
    assert [BLOBS] + [SHA256] == [BLOBS, SHA256];
    BundleIsRegular(snapshot, blobs, files);
    if Regular(blobs) && DirectoryAt(blobs, [SHA256]) {
      GenerationRecordsAgree(env.h, snapshot, blobs);
      BundleVerifies(env, snapshot, blobs);
    }
  }

  function UnportableTree(): seq<Entry> {
    [Entry(SHA256, Dir([])), Entry("a:b", Dir([]))]
  }

  lemma UnportableTreeIsPublished()
    ensures var blobs := UnportableTree();
            Distinct(blobs) && FileSystemNames(blobs) && Recordable(blobs, [BLOBS]) && DirectoryAt(blobs, [SHA256])
  {
    var first, second := Entry(SHA256, Dir([])), Entry("a:b", Dir([]));
    assert first.name[0] != second.name[0];
    TwoEmptyDirectories(first, second);
    assert UnportableTree() == [first, second];
  }

  lemma TwoEmptyDirectories(a: Entry, b: Entry)
    requires a.node == Dir([]) && b.node == Dir([]) && a.name != b.name
    requires FileSystemName(a.name) && FileSystemName(b.name)
    ensures var entries := [a, b];
            && Distinct(entries) && FileSystemNames(entries) && Recordable(entries, [BLOBS])
            && DirectoryAt(entries, [a.name])
  {
    assert [a, b] == [a] + [b];
    FilesOfOne(a, [BLOBS]);
    FilesOfOne(b, [BLOBS]);
    FilesOfConcatenation([a], [b], [BLOBS]);
  }

  /** An empty directory with a name that is not portable is published, and then refused. */
  lemma UnportableDirectoryIsRefused(env: Environment, snapshot: Content)
    requires env.readable(snapshot)
    ensures var blobs := UnportableTree();
            var files := GenerationRecords(env.h, snapshot, blobs);
            Recordable(blobs, [BLOBS]) && !Verifies(env, BundleOf(snapshot, blobs, files), files)
  {
    UnportableTreeIsPublished();
    assert UnportableTree()[1].name[1] == ':';
    GenerationsInteroperate(env, snapshot, UnportableTree());
  }
}
