/** Backup bundles: their layout, their two manifest forms, writing and verifying. */
module Bundles {
  import opened Common
  import opened Text
  import opened Paths
  import opened FileTree
  import opened Manifests

  const DATABASE: Name := "database.sqlite3"
  const BLOBS: Name := "blobs"
  const MANIFEST: Name := "manifest.json"
  const SHA256: Name := "sha256"

  lemma NamesArePortable()
    ensures PortableName(DATABASE) && PortableName(BLOBS) && PortableName(MANIFEST) && PortableName(SHA256)
    ensures DATABASE != BLOBS && DATABASE != MANIFEST && BLOBS != MANIFEST
  {
    assert DATABASE[0] == 'd' && BLOBS[0] == 'b' && MANIFEST[0] == 'm';
  }

  predicate BlobPath(text: string) {
    BLOBS + "/" <= text
  }

  lemma BlobPathIsBelowBlobs(p: Path)
    requires PortablePath(p)
    ensures BlobPath(Printed(p)) <==> |p| >= 2 && p[0] == BLOBS
    ensures BlobPath(Printed(p)) ==> Printed(p)[|BLOBS| + 1..] == Printed(p[1..])
  {
    var text := Printed(p);
    PrintedIsSafe(p);
    NamesArePortable();
    if BlobPath(text) {
      var rest := text[|BLOBS| + 1..];
      assert text == BLOBS + ['/'] + rest;
      SplitOfSeparated(BLOBS, rest, '/');
      assert p == [BLOBS] + Parsed(rest);
    }
    if |p| >= 2 && p[0] == BLOBS {
      assert text == BLOBS + ['/'] + Printed(p[1..]);
    }
  }

  /** The database, and blobs, and nothing else. */
  predicate Payload(files: seq<Record>) {
    && (exists i :: 0 <= i < |files| && files[i].path == DATABASE)
    && (forall i :: 0 <= i < |files| ==> files[i].path == DATABASE || BlobPath(files[i].path))
  }

  lemma DatabaseIsNoBlobPath()
    ensures !BlobPath(DATABASE)
  {
    assert (BLOBS + "/")[0] == 'b' && DATABASE[0] == 'd';
  }

  /* The legacy manifest form. */

  predicate AsciiAlphanumeric(c: char) {
    '0' <= c <= '9' || 'a' <= c <= 'z' || 'A' <= c <= 'Z'
  }

  predicate ValidGeneration(text: string) {
    && "generation-" <= text && |text| <= 160
    && forall i :: 0 <= i < |text| ==> AsciiAlphanumeric(text[i]) || text[i] == '-'
  }

  predicate LegacyPayload(m: Manifest)
    requires m.Legacy?
  {
    && m.database.path == DATABASE && ValidRecord(m.database)
    && ValidRecords(m.blobs) && forall i :: 0 <= i < |m.blobs| ==> BlobPath(m.blobs[i].path)
  }

  /** `normalize_legacy_managed_manifest`. The check of the creation time's text is a
      parameter. */
  function Normalized(m: Manifest, validTime: string -> bool): Result<seq<Record>>
    requires m.Legacy?
  {
    if m.version == LegacyManagedVersion && ValidGeneration(m.generation) && validTime(m.createdAt) && LegacyPayload(m) then
      var files := Sorted([m.database] + m.blobs);
      if ValidRecords(files) then Ok(files) else Err
    else Err
  }

  function WithoutDatabase(files: seq<Record>): seq<Record> {
    if files == [] then []
    else (if files[0].path == DATABASE then [] else [files[0]]) + WithoutDatabase(files[1..])
  }

  lemma {:induction false} WithoutDatabaseElements(files: seq<Record>, x: Record)
    ensures x in WithoutDatabase(files) <==> x in files && x.path != DATABASE
  {
    if files != [] {
      WithoutDatabaseElements(files[1..], x);
      assert files == [files[0]] + files[1..];
    }
  }

  lemma {:induction false} WithoutDatabaseSorted(files: seq<Record>)
    requires StrictlySorted(files)
    ensures StrictlySorted(WithoutDatabase(files))
  {
    if files != [] {
      var rest := WithoutDatabase(files[1..]);
      WithoutDatabaseSorted(files[1..]);
      forall j | 0 <= j < |rest|
        ensures Less(files[0].path, rest[j].path)
      {
        WithoutDatabaseElements(files[1..], rest[j]);
        var k :| 0 <= k < |files[1..]| && files[1..][k] == rest[j];
        assert files[k + 1] == rest[j];
      }
    }
  }

  lemma PayloadElements(files: seq<Record>, database: Record)
    requires database in files && database.path == DATABASE
    requires forall x :: x in files ==> x == database || BlobPath(x.path)
    ensures Payload(files)
  {
    var i :| 0 <= i < |files| && files[i] == database;
    forall k | 0 <= k < |files|
      ensures files[k].path == DATABASE || BlobPath(files[k].path)
    {
      assert files[k] in files;
    }
  }

  /** Splits a portable manifest into the legacy form. */
  function AsLegacy(files: seq<Record>, database: Record, generation: string, createdAt: string): Manifest {
    Legacy(LegacyManagedVersion, generation, createdAt, database, WithoutDatabase(files))
  }

  lemma OneRecordPerPath(files: seq<Record>, x: Record, y: Record)
    requires StrictlySorted(files) && x in files && y in files && x.path == y.path
    ensures x == y
  {
    LessIsStrict(x.path);
  }

  lemma BlobsAreNotDatabase(blobs: seq<Record>)
    requires forall i :: 0 <= i < |blobs| ==> BlobPath(blobs[i].path)
    ensures forall i :: 0 <= i < |blobs| ==> blobs[i].path != DATABASE
  {
    DatabaseIsNoBlobPath();
  }

  lemma OtherPaths(database: Record, blobs: seq<Record>)
    requires StrictlySorted(blobs)
    requires forall i :: 0 <= i < |blobs| ==> blobs[i].path != database.path
    ensures DistinctPaths([database] + blobs)
  {
    var all := [database] + blobs;
    forall i, j | 0 <= i < j < |all|
      ensures all[i].path != all[j].path
    {
      LessIsStrict(all[j].path);
      assert i > 0 ==> Less(blobs[i - 1].path, blobs[j - 1].path);
    }
  }

  lemma NormalizedIsSorted(database: Record, blobs: seq<Record>)
    requires ValidRecord(database) && ValidRecords(blobs)
    requires forall i :: 0 <= i < |blobs| ==> blobs[i].path != database.path
    ensures ValidRecords(Sorted([database] + blobs))
  {
    var all := [database] + blobs;
    OtherPaths(database, blobs);
    SortedIsSorted(all);
    SortedStaysValid(all);
  }

  lemma SortedStaysValid(records: seq<Record>)
    requires forall x :: x in records ==> ValidRecord(x)
    ensures forall k :: 0 <= k < |Sorted(records)| ==> ValidRecord(Sorted(records)[k])
  {
    forall k | 0 <= k < |Sorted(records)|
      ensures Sorted(records)[k] in records
    {
      SortedKeepsElements(records, Sorted(records)[k]);
    }
  }

  /** Splitting a valid portable manifest into the legacy form and normalizing that
      returns the same manifest. */
  lemma NormalizeUndoesSplit(files: seq<Record>, database: Record, generation: string, createdAt: string,
                             validTime: string -> bool)
    requires ValidRecords(files) && Payload(files) && database in files && database.path == DATABASE
    requires ValidGeneration(generation) && validTime(createdAt)
    ensures Normalized(AsLegacy(files, database, generation, createdAt), validTime) == Ok(files)
  {
    var blobs := WithoutDatabase(files);
    WithoutDatabaseSorted(files);
    forall i | 0 <= i < |blobs|
      ensures ValidRecord(blobs[i]) && BlobPath(blobs[i].path)
    {
      WithoutDatabaseElements(files, blobs[i]);
    }
    BlobsAreNotDatabase(blobs);
    NormalizedIsSorted(database, blobs);
    var sorted := Sorted([database] + blobs);
    forall x
      ensures x in sorted <==> x in files
    {
      SortedKeepsElements([database] + blobs, x);
      WithoutDatabaseElements(files, x);
      if x in files && x.path == DATABASE {
        OneRecordPerPath(files, x, database);
      }
    }
    SortedIsUnique(sorted, files);
  }

  /** And the other way round: what normalizes is the split form of its result, which is
      a valid manifest of a database and blobs. */
  lemma SplitUndoesNormalize(m: Manifest, validTime: string -> bool)
    requires m.Legacy? && Normalized(m, validTime).Ok?
    ensures var files := Normalized(m, validTime).value;
            && ValidRecords(files) && Payload(files) && m.database in files
            && AsLegacy(files, m.database, m.generation, m.createdAt) == m
  {
    var all := [m.database] + m.blobs;
    var files := Sorted(all);
    forall x
      ensures x in files <==> x == m.database || x in m.blobs
      ensures x in m.blobs ==> BlobPath(x.path)
      ensures x in WithoutDatabase(files) <==> x in m.blobs
    {
      SortedKeepsElements(all, x);
      WithoutDatabaseElements(files, x);
      DatabaseIsNoBlobPath();
    }
    WithoutDatabaseSorted(files);
    SortedIsUnique(WithoutDatabase(files), m.blobs);
    PayloadElements(files, m.database);
  }

  /* Verifying. */

  predicate ExpectedInRoot(e: Entry) {
    || (e.name == DATABASE && e.node.File?)
    || (e.name == MANIFEST && e.node.File?)
    || (e.name == BLOBS && e.node.Dir?)
  }

  predicate Listed(entries: seq<Entry>, name: Name) {
    exists i :: 0 <= i < |entries| && entries[i].name == name
  }

  predicate RootLayout(entries: seq<Entry>) {
    && (forall i :: 0 <= i < |entries| ==> ExpectedInRoot(entries[i]))
    && Listed(entries, DATABASE) && Listed(entries, BLOBS) && Listed(entries, MANIFEST)
  }

  method VerifyRootLayout(entries: seq<Entry>) returns (expected: bool)
    ensures expected <==> RootLayout(entries)
  {
    var names: set<Name> := {};
    NamesArePortable();
    for i := 0 to |entries|
      invariant names == set k | 0 <= k < i :: entries[k].name
      invariant forall k :: 0 <= k < i ==> ExpectedInRoot(entries[k])
    {
      var entry := entries[i];
      if !PortableName(entry.name) || entry.node.Symlink? {
        return false;
      }
      if !ExpectedInRoot(entry) {
        return false;
      }
      names := names + {entry.name};
    }
    return DATABASE in names && BLOBS in names && MANIFEST in names;
  }

  lemma {:induction false} ListedIsFound(entries: seq<Entry>, name: Name)
    ensures Listed(entries, name) <==> Find(entries, [name]).Some?
  {
    if entries != [] {
      ListedIsFound(entries[1..], name);
      if Listed(entries[1..], name) {
        var k :| 0 <= k < |entries[1..]| && entries[1..][k].name == name;
        assert entries[k + 1].name == name;
      }
      if k :| 0 <= k < |entries| && entries[k].name == name && entries[0].name != name {
        assert entries[1..][k - 1].name == name;
      }
    }
  }

  lemma {:induction false} FoundIsListed(entries: seq<Entry>, name: Name)
    requires Find(entries, [name]).Some?
    ensures exists i :: 0 <= i < |entries| && entries[i] == Entry(name, Find(entries, [name]).value)
  {
    if entries[0].name != name {
      FoundIsListed(entries[1..], name);
      var i :| 0 <= i < |entries[1..]| && entries[1..][i] == Entry(name, Find(entries, [name]).value);
      assert entries[i + 1] == entries[1..][i];
    }
  }

  /** What the layout guarantees about the three entries. */
  lemma RootLayoutEntries(entries: seq<Entry>)
    requires RootLayout(entries)
    ensures Find(entries, [DATABASE]).Some? && Find(entries, [DATABASE]).value.File?
    ensures Find(entries, [MANIFEST]).Some? && Find(entries, [MANIFEST]).value.File?
    ensures Find(entries, [BLOBS]).Some? && Find(entries, [BLOBS]).value.Dir?
  {
    NamesArePortable();
    ListedIsFound(entries, DATABASE);
    ListedIsFound(entries, MANIFEST);
    ListedIsFound(entries, BLOBS);
    FoundIsListed(entries, DATABASE);
    FoundIsListed(entries, MANIFEST);
    FoundIsListed(entries, BLOBS);
  }

  /** In a directory without repeated names, the layout says: exactly three entries. */
  lemma RootLayoutExactly(entries: seq<Entry>)
    requires forall i, j :: 0 <= i < j < |entries| ==> entries[i].name != entries[j].name
    ensures RootLayout(entries) <==>
            && |entries| == 3
            && (exists i :: 0 <= i < 3 && entries[i].name == "database.sqlite3" && entries[i].node.File?)
            && (exists i :: 0 <= i < 3 && entries[i].name == "manifest.json" && entries[i].node.File?)
            && (exists i :: 0 <= i < 3 && entries[i].name == "blobs" && entries[i].node.Dir?)
  {
    NamesArePortable();
    if RootLayout(entries) {
      var d :| 0 <= d < |entries| && entries[d].name == DATABASE;
      var m :| 0 <= m < |entries| && entries[m].name == MANIFEST;
      var b :| 0 <= b < |entries| && entries[b].name == BLOBS;
      assert ExpectedInRoot(entries[d]) && ExpectedInRoot(entries[m]) && ExpectedInRoot(entries[b]);
      OnlyThree(entries, d, m, b);
    }
  }

  lemma OneOfThree(entries: seq<Entry>, d: nat, m: nat, b: nat, i: nat)
    requires forall i, j :: 0 <= i < j < |entries| ==> entries[i].name != entries[j].name
    requires d < |entries| && m < |entries| && b < |entries| && i < |entries|
    requires entries[i].name in {entries[d].name, entries[m].name, entries[b].name}
    ensures i == d || i == m || i == b
  {
  }

  lemma OnlyThree(entries: seq<Entry>, d: nat, m: nat, b: nat)
    requires forall i, j :: 0 <= i < j < |entries| ==> entries[i].name != entries[j].name
    requires d < |entries| && m < |entries| && b < |entries| && d != m && d != b && m != b
    requires forall i :: 0 <= i < |entries| ==> entries[i].name in {entries[d].name, entries[m].name, entries[b].name}
    ensures |entries| == 3
  {
    if |entries| > 3 {
      OneOfThree(entries, d, m, b, 0);
      OneOfThree(entries, d, m, b, 1);
      OneOfThree(entries, d, m, b, 2);
      OneOfThree(entries, d, m, b, 3);
    }
  }

  function ContentAt(entries: seq<Entry>, name: Name): Option<Content> {
    match Find(entries, [name])
    case Some(File(content)) => Some(content)
    case _ => None
  }

  /** What the verifier takes from outside: hashes, the check that a database opens, and
      the check of a legacy creation time. */
  datatype Environment = Environment(h: Hasher, readable: Content -> bool, validTime: string -> bool)

  function ReadManifest(content: Content, validTime: string -> bool): Result<seq<Record>> {
    if content.Data? then Err
    else
      match content.manifest.version
      case BundleVersion => if content.manifest.Portable? then Ok(content.manifest.files) else Err
      case LegacyManagedVersion => if content.manifest.Legacy? then Normalized(content.manifest, validTime) else Err
      case OtherVersion(_) => Err
  }

  /** A bundle with this manifest passes. */
  predicate Verifies(env: Environment, bundle: Node, files: seq<Record>) {
    && bundle.Dir?
    && var entries := bundle.entries;
    && RootLayout(entries)
    && DirectoryAt(entries, [BLOBS, SHA256])
    && (var manifest := ContentAt(entries, MANIFEST);
        manifest.Some? && ReadManifest(manifest.value, env.validTime) == Ok(files))
    && ValidRecords(files) && Payload(files)
    && Collected(env.h, entries, {MANIFEST}) == Ok(files)
    && (var database := ContentAt(entries, DATABASE);
        database.Some? && env.readable(database.value))
  }

  /** `verify_bundle`. */
  method VerifyBundle(env: Environment, bundle: Node) returns (r: Result<seq<Record>>)
    ensures r.Ok? ==> Verifies(env, bundle, r.value)
    ensures r.Err? ==> forall files :: !Verifies(env, bundle, files)
  {
    if !bundle.Dir? {
      return Err;
    }
    var entries := bundle.entries;
    var layout := VerifyRootLayout(entries);
    if !layout {
      return Err;
    }
    RootLayoutEntries(entries);
    if !DirectoryAt(entries, [BLOBS, SHA256]) {
      return Err;
    }
    var manifest := ReadManifest(ContentAt(entries, MANIFEST).value, env.validTime);
    if manifest.Err? {
      return Err;
    }
    var files := manifest.value;
    var valid := ValidateFileRecords(files);
    if !valid || !Payload(files) {
      return Err;
    }
    var actual := CollectFileRecords(env.h, entries, {MANIFEST});
    if actual != Ok(files) {
      return Err;
    }
    if !env.readable(ContentAt(entries, DATABASE).value) {
      return Err;
    }
    return Ok(files);
  }

  /** Bundles that verify against the same manifest have files at the same paths, and
      files at the same path have the same digest and size: nothing is added, removed or
      moved, and a changed file would be a collision of SHA-256. */
  lemma TamperEvident(env: Environment, a: Node, b: Node, files: seq<Record>, p: Path, content: Content)
      returns (other: Content)
    requires Verifies(env, a, files) && Distinct(a.entries)
    requires Verifies(env, b, files) && Distinct(b.entries)
    requires p != [MANIFEST] && FileAt(a.entries, p, content)
    ensures FileAt(b.entries, p, other)
    ensures env.h.digest(other) == env.h.digest(content) && env.h.size(other) == env.h.size(content)
  {
    other := SameRecord(env.h, a.entries, b.entries, p, content);
  }

  lemma SameRecord(h: Hasher, a: seq<Entry>, b: seq<Entry>, p: Path, content: Content) returns (other: Content)
    requires Distinct(a) && Distinct(b) && Regular(a) && Regular(b)
    requires Collected(h, a, {MANIFEST}) == Collected(h, b, {MANIFEST})
    requires FileAt(a, p, content) && p != [MANIFEST]
    ensures FileAt(b, p, other) && h.digest(other) == h.digest(content) && h.size(other) == h.size(content)
  {
    FindIsPortable(a, p);
    OnlyManifestIsExcluded(p);
    var x := RecordOf(h, Found(p, content));
    CollectedElements(h, a, {MANIFEST}, x);
    CollectedElements(h, b, {MANIFEST}, x);
    var q, found :| FileAt(b, q, found) && Printed(q) !in {MANIFEST} && x == RecordOf(h, Found(q, found));
    FindIsPortable(b, q);
    PrintedIsInjective(p, q);
    other := found;
  }

  lemma OnlyDatabaseIsDatabase(p: Path)
    requires PortablePath(p) && Printed(p) == DATABASE
    ensures p == [DATABASE]
  {
    NamesArePortable();
    assert Printed([DATABASE]) == DATABASE;
    PrintedIsInjective(p, [DATABASE]);
  }

  lemma OnlyManifestIsExcluded(p: Path)
    requires PortablePath(p)
    ensures Printed(p) == MANIFEST <==> p == [MANIFEST]
  {
    NamesArePortable();
    if Printed(p) == MANIFEST {
      assert Printed([MANIFEST]) == MANIFEST;
      PrintedIsInjective(p, [MANIFEST]);
    }
  }
}
