/** Writing bundles with the command-line tool. */
module Backups {
  import opened Common
  import opened Paths
  import opened FileTree
  import opened Manifests
  import opened Bundles

  function PayloadEntries(snapshot: Content, blobs: seq<Entry>): seq<Entry> {
    [Entry(DATABASE, File(snapshot)), Entry(BLOBS, Dir(blobs))]
  }

  /** The bundle of a database snapshot and a blob tree, with a given manifest. */
  function BundleOf(snapshot: Content, blobs: seq<Entry>, files: seq<Record>): Node {
    Dir(PayloadEntries(snapshot, blobs) + [Entry(MANIFEST, File(Json(Portable(BundleVersion, files))))])
  }

  lemma FilesOfPayload(snapshot: Content, blobs: seq<Entry>)
    ensures Files(PayloadEntries(snapshot, blobs), []) == [Found([DATABASE], snapshot)] + Files(blobs, [BLOBS])
  {
    var database, tree := Entry(DATABASE, File(snapshot)), Entry(BLOBS, Dir(blobs));
    assert PayloadEntries(snapshot, blobs) == [database] + [tree];
    FilesOfConcatenation([database], [tree], []);
    FilesOfOne(database, []);
    FilesOfOne(tree, []);
    assert [] + [DATABASE] == [DATABASE] && [] + [BLOBS] == [BLOBS];
  }

  /** The manifest itself is left out of the records. */
  lemma ManifestIsNotRecorded(h: Hasher, snapshot: Content, blobs: seq<Entry>, files: seq<Record>)
    ensures Records(h, Files(BundleOf(snapshot, blobs, files).entries, []), {MANIFEST})
            == Records(h, Files(PayloadEntries(snapshot, blobs), []), {MANIFEST})
  {
    var last := Entry(MANIFEST, File(Json(Portable(BundleVersion, files))));
    FilesOfConcatenation(PayloadEntries(snapshot, blobs), [last], []);
    FilesOfOne(last, []);
    assert [] + [MANIFEST] == [MANIFEST] && Printed([MANIFEST]) == MANIFEST;
    var found := Found([MANIFEST], last.node.content);
    RecordsOfConcatenation(h, Files(PayloadEntries(snapshot, blobs), []), [found], {MANIFEST});
    RecordsOfOne(h, found, {MANIFEST});
  }

  lemma BundleIsRegular(snapshot: Content, blobs: seq<Entry>, files: seq<Record>)
    ensures Regular(PayloadEntries(snapshot, blobs)) <==> Regular(blobs)
    ensures Regular(BundleOf(snapshot, blobs, files).entries) <==> Regular(blobs)
    ensures Distinct(blobs) ==> Distinct(PayloadEntries(snapshot, blobs))
    ensures Distinct(blobs) ==> Distinct(BundleOf(snapshot, blobs, files).entries)
  {
    NamesArePortable();
    var entries := BundleOf(snapshot, blobs, files).entries;
    assert entries[0] == Entry(DATABASE, File(snapshot));
    assert entries[1] == Entry(BLOBS, Dir(blobs));
    assert entries[2] == Entry(MANIFEST, File(Json(Portable(BundleVersion, files))));
    assert |entries| == 3;
  }

  /** Collecting the finished bundle gives the records of its payload. */
  lemma CollectedOfBundle(h: Hasher, snapshot: Content, blobs: seq<Entry>, files: seq<Record>)
    ensures Collected(h, BundleOf(snapshot, blobs, files).entries, {MANIFEST})
            == Collected(h, PayloadEntries(snapshot, blobs), {MANIFEST})
  {
    BundleIsRegular(snapshot, blobs, files);
    ManifestIsNotRecorded(h, snapshot, blobs, files);
  }

  lemma FindInBundle(snapshot: Content, blobs: seq<Entry>, files: seq<Record>)
    ensures var entries := BundleOf(snapshot, blobs, files).entries;
            && RootLayout(entries)
            && ContentAt(entries, DATABASE) == Some(snapshot)
            && ContentAt(entries, MANIFEST) == Some(Json(Portable(BundleVersion, files)))
            && (forall p :: p != [] ==> Find(entries, [BLOBS] + p) == Find(blobs, p))
  {
    NamesArePortable();
    var entries := BundleOf(snapshot, blobs, files).entries;
    assert entries[0] == Entry(DATABASE, File(snapshot));
    assert entries[1] == Entry(BLOBS, Dir(blobs));
    assert entries[2] == Entry(MANIFEST, File(Json(Portable(BundleVersion, files))));
    assert Listed(entries, DATABASE) && Listed(entries, BLOBS) && Listed(entries, MANIFEST);
    var two, one := entries[1..], entries[2..];
    assert two[1..] == one;
    assert Find(two, [MANIFEST]) == Find(one, [MANIFEST]);
    assert Find(entries, [MANIFEST]) == Find(two, [MANIFEST]);
    forall p: Path | p != []
      ensures Find(entries, [BLOBS] + p) == Find(blobs, p)
    {
      assert ([BLOBS] + p)[1..] == p;
      assert Find(entries, [BLOBS] + p) == Find(entries[1..], [BLOBS] + p);
    }
  }

  /** The payload of a bundle is one database, and blobs. */
  lemma PayloadIsExpected(h: Hasher, snapshot: Content, blobs: seq<Entry>)
    requires Distinct(blobs) && Regular(blobs)
    ensures Regular(PayloadEntries(snapshot, blobs)) && Payload(Collected(h, PayloadEntries(snapshot, blobs), {MANIFEST}).value)
  {
    var entries := PayloadEntries(snapshot, blobs);
    var database := RecordOf(h, Found([DATABASE], snapshot));
    BundleIsRegular(snapshot, blobs, []);
    NamesArePortable();
    assert FileAt(entries, [DATABASE], snapshot);
    OnlyManifestIsExcluded([DATABASE]);
    assert Printed([DATABASE]) == DATABASE;
    assert Describes(h, entries, {MANIFEST}, database);
    CollectedElements(h, entries, {MANIFEST}, database);
    var files := Collected(h, entries, {MANIFEST}).value;
    forall x | x in files
      ensures x == database || BlobPath(x.path)
    {
      CollectedElements(h, entries, {MANIFEST}, x);
      PayloadRecord(h, snapshot, blobs, x);
    }
    PayloadElements(files, database);
  }

  lemma PayloadRecord(h: Hasher, snapshot: Content, blobs: seq<Entry>, x: Record)
    requires Regular(blobs) && Describes(h, PayloadEntries(snapshot, blobs), {MANIFEST}, x)
    ensures x == RecordOf(h, Found([DATABASE], snapshot)) || BlobPath(x.path)
  {
    var entries := PayloadEntries(snapshot, blobs);
    var p, content :| FileAt(entries, p, content) && Printed(p) !in {MANIFEST} && x == RecordOf(h, Found(p, content));
    BundleIsRegular(snapshot, blobs, []);
    FindIsPortable(entries, p);
    BlobPathIsBelowBlobs(p);
    PayloadPath(snapshot, blobs, p, content);
  }

  lemma PayloadPath(snapshot: Content, blobs: seq<Entry>, p: Path, content: Content)
    requires FileAt(PayloadEntries(snapshot, blobs), p, content)
    ensures if p[0] == DATABASE then p == [DATABASE] && content == snapshot
            else |p| >= 2 && p[0] == BLOBS && FileAt(blobs, p[1..], content)
  {
    NamesArePortable();
    var entries := PayloadEntries(snapshot, blobs);
    assert entries[1..] == [Entry(BLOBS, Dir(blobs))];
    FindInOne(Entry(BLOBS, Dir(blobs)), p);
  }

  /** The bundle of a regular tree with a `sha256` directory verifies. */
  lemma BundleVerifies(env: Environment, snapshot: Content, blobs: seq<Entry>)
    requires Distinct(blobs) && Regular(blobs) && DirectoryAt(blobs, [SHA256]) && env.readable(snapshot)
    ensures Regular(PayloadEntries(snapshot, blobs))
    ensures var files := Collected(env.h, PayloadEntries(snapshot, blobs), {MANIFEST}).value;
            Verifies(env, BundleOf(snapshot, blobs, files), files)
  {
    PayloadIsExpected(env.h, snapshot, blobs);
    var payload := PayloadEntries(snapshot, blobs);
    var files := Collected(env.h, payload, {MANIFEST}).value;
    BundleIsRegular(snapshot, blobs, files);
    CollectedOfBundle(env.h, snapshot, blobs, files);
    CollectedIsCanonical(env.h, payload, {MANIFEST}, files);
    FindInBundle(snapshot, blobs, files);
    assert [BLOBS] + [SHA256] == [BLOBS, SHA256];
  }

  /** `backup_bundle`, for a snapshot of the database (or none) and a blob source (or
      none). It succeeds exactly for a readable snapshot and a regular tree with a
      `sha256` directory, and then its bundle verifies and holds that payload. */
  method BackupBundle(env: Environment, snapshot: Option<Content>, source: Option<Node>) returns (r: Result<Node>)
    requires source.Some? && source.value.Dir? ==> Distinct(source.value.entries)
    ensures r.Ok? <==> && snapshot.Some? && env.readable(snapshot.value)
                       && source.Some? && source.value.Dir? && Regular(source.value.entries)
                       && DirectoryAt(source.value.entries, [SHA256])
    ensures r.Ok? ==> exists files :: r.value == BundleOf(snapshot.value, source.value.entries, files)
                                      && Verifies(env, r.value, files)
  {
    if snapshot.None? {
      return Err;
    }
    var blobs: seq<Entry> := [];
    if source.Some? {
      if !source.value.Dir? {
        return Err;
      }
      var copied := CopyDirectoryContents(source.value.entries);
      if copied.Err? {
        return Err;
      }
      blobs := copied.value;
    }
    var payload := PayloadEntries(snapshot.value, blobs);
    var files := CollectFileRecords(env.h, payload, {MANIFEST});
    BundleIsRegular(snapshot.value, blobs, []);
    if files.Err? {
      return Err;
    }
    var bundle := BundleOf(snapshot.value, blobs, files.value);
    var verified := VerifyBundle(env, bundle);
    FindInBundle(snapshot.value, blobs, files.value);
    assert [BLOBS] + [SHA256] == [BLOBS, SHA256];
    if verified.Err? {
      if source.Some? && DirectoryAt(blobs, [SHA256]) && env.readable(snapshot.value) {
        BundleVerifies(env, snapshot.value, blobs);
        assert false;
      }
      return Err;
    }
    assert DirectoryAt(blobs, [SHA256]);
    return Ok(bundle);
  }
}
