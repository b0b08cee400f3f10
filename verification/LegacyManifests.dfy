/** Bundles with the manifest that earlier managed backups wrote. */
module LegacyManifests {
  import opened Common
  import opened Paths
  import opened FileTree
  import opened Manifests
  import opened Bundles
  import opened Backups
  import opened Generations

  /** A manifest in the earlier form, of these records. */
  ghost predicate LegacyOf(m: Manifest, files: seq<Record>, validTime: string -> bool) {
    && m.Legacy? && m.version == LegacyManagedVersion
    && "generation-" <= m.generation && |m.generation| <= 160
    && (forall c :: c in m.generation ==> '0' <= c <= '9' || 'a' <= c <= 'z' || 'A' <= c <= 'Z' || c == '-')
    && validTime(m.createdAt)
    && m.database in files && m.database.path == "database.sqlite3"
    && m == AsLegacy(files, m.database, m.generation, m.createdAt)
  }

  /** What the manifest of a bundle may say: these records, in one of the two forms. */
  ghost predicate Says(content: Content, files: seq<Record>, validTime: string -> bool) {
    content.Json? && (content.manifest == Portable(BundleVersion, files) || LegacyOf(content.manifest, files, validTime))
  }

  lemma GenerationText(text: string)
    ensures ValidGeneration(text) <==>
            && "generation-" <= text && |text| <= 160
            && (forall c :: c in text ==> '0' <= c <= '9' || 'a' <= c <= 'z' || 'A' <= c <= 'Z' || c == '-')
  {
    assert forall i :: 0 <= i < |text| ==> text[i] in text;
  }

  /** Which manifests are accepted, and with which records. */
  lemma ReadExactly(content: Content, files: seq<Record>, validTime: string -> bool)
    requires ValidRecords(files) && Payload(files)
    ensures ReadManifest(content, validTime) == Ok(files) <==> Says(content, files, validTime)
  {
    if content.Json? && content.manifest.Legacy? {
      var m := content.manifest;
      GenerationText(m.generation);
      if Normalized(m, validTime) == Ok(files) {
        SplitUndoesNormalize(m, validTime);
      }
      if LegacyOf(m, files, validTime) {
        NormalizeUndoesSplit(files, m.database, m.generation, m.createdAt, validTime);
      }
    }
  }

  /** The same listing, up to the content of the manifest. */
  predicate SameButManifest(a: seq<Entry>, b: seq<Entry>) {
    && |a| == |b|
    && forall i :: 0 <= i < |a| ==>
         && a[i].name == b[i].name
         && (a[i] == b[i] || (a[i].name == MANIFEST && a[i].node.File? && b[i].node.File?))
  }

  lemma {:induction false} SameElsewhere(a: seq<Entry>, b: seq<Entry>, p: Path)
    requires SameButManifest(a, b) && p != [] && p[0] != MANIFEST
    ensures Find(a, p) == Find(b, p)
  {
    if a != [] {
      SameElsewhere(a[1..], b[1..], p);
    }
  }

  lemma {:induction false} SameRecords(h: Hasher, a: seq<Entry>, b: seq<Entry>)
    requires SameButManifest(a, b)
    ensures Records(h, Files(a, []), {MANIFEST}) == Records(h, Files(b, []), {MANIFEST})
  {
    if a != [] {
      SameRecords(h, a[1..], b[1..]);
      var path := [] + [a[0].name];
      var own, other := FilesOf(a[0].node, path), FilesOf(b[0].node, path);
      if a[0] != b[0] {
        assert path == [MANIFEST] && Printed(path) == MANIFEST;
        ManifestIsLeftOut(h, a[0].node.content);
        ManifestIsLeftOut(h, b[0].node.content);
      }
      RecordsOfConcatenation(h, own, Files(a[1..], []), {MANIFEST});
      RecordsOfConcatenation(h, other, Files(b[1..], []), {MANIFEST});
    }
  }

  lemma ManifestIsLeftOut(h: Hasher, content: Content)
    ensures Records(h, [Found([MANIFEST], content)], {MANIFEST}) == []
  {
    assert Printed([MANIFEST]) == MANIFEST;
    assert Records(h, [Found([MANIFEST], content)][1..], {MANIFEST}) == [];
  }

  lemma SameCollected(h: Hasher, a: seq<Entry>, b: seq<Entry>)
    requires SameButManifest(a, b)
    ensures Collected(h, a, {MANIFEST}) == Collected(h, b, {MANIFEST})
  {
    SameRecords(h, a, b);
    assert Regular(a) <==> Regular(b);
  }

  lemma SameLayout(a: seq<Entry>, b: seq<Entry>)
    requires SameButManifest(a, b) && RootLayout(a)
    ensures RootLayout(b)
  {
    forall name | Listed(a, name)
      ensures Listed(b, name)
    {
      var i :| 0 <= i < |a| && a[i].name == name;
      assert b[i].name == name;
    }
    forall i | 0 <= i < |b|
      ensures ExpectedInRoot(b[i])
    {
      assert ExpectedInRoot(a[i]);
    }
  }

  lemma SwapsBack(a: seq<Entry>, b: seq<Entry>)
    requires SameButManifest(a, b)
    ensures SameButManifest(b, a)
  {
  }

  /** If two bundles differ in their manifests only, and these say the same, the one that
      verifies makes the other one verify. */
  lemma FormsAreInterchangeable(env: Environment, a: seq<Entry>, b: seq<Entry>, files: seq<Record>)
    requires SameButManifest(a, b) && Verifies(env, Dir(a), files)
    requires ContentAt(b, MANIFEST).Some? && Says(ContentAt(b, MANIFEST).value, files, env.validTime)
    ensures Verifies(env, Dir(b), files)
  {
    NamesArePortable();
    SameLayout(a, b);
    SameElsewhere(a, b, [BLOBS, SHA256]);
    SameElsewhere(a, b, [DATABASE]);
    SameCollected(env.h, a, b);
    ReadExactly(ContentAt(b, MANIFEST).value, files, env.validTime);
  }

  /** A bundle with a manifest in the earlier form verifies if and only if it does with
      the portable manifest of the same records. */
  lemma LegacyVerifiesAlike(env: Environment, a: seq<Entry>, b: seq<Entry>, files: seq<Record>, m: Manifest)
    requires SameButManifest(a, b)
    requires ContentAt(a, MANIFEST) == Some(Json(Portable(BundleVersion, files)))
    requires ContentAt(b, MANIFEST) == Some(Json(m)) && LegacyOf(m, files, env.validTime)
    ensures Verifies(env, Dir(a), files) <==> Verifies(env, Dir(b), files)
  {
    if Verifies(env, Dir(a), files) {
      FormsAreInterchangeable(env, a, b, files);
    }
    if Verifies(env, Dir(b), files) {
      SwapsBack(a, b);
      FormsAreInterchangeable(env, b, a, files);
    }
  }

  /** Every bundle that verifies has a manifest in one of the two forms. */
  lemma VerifiedSays(env: Environment, bundle: Node, files: seq<Record>)
    requires Verifies(env, bundle, files)
    ensures ContentAt(bundle.entries, MANIFEST).Some?
    ensures Says(ContentAt(bundle.entries, MANIFEST).value, files, env.validTime)
  {
    ReadExactly(ContentAt(bundle.entries, MANIFEST).value, files, env.validTime);
  }

  /** A published generation with its manifest in the earlier form passes the command-line
      tool's verification exactly as it does with the present one. */
  lemma LegacyGenerationVerifies(env: Environment, snapshot: Content, blobs: seq<Entry>, m: Manifest)
    requires Distinct(blobs) && FileSystemNames(blobs) && Recordable(blobs, [BLOBS]) && env.readable(snapshot)
    requires LegacyOf(m, GenerationRecords(env.h, snapshot, blobs), env.validTime)
    ensures Verifies(env, Dir(PayloadEntries(snapshot, blobs) + [Entry(MANIFEST, File(Json(m)))]),
                     GenerationRecords(env.h, snapshot, blobs)) <==>
            Regular(blobs) && DirectoryAt(blobs, [SHA256])
  {
    var files := GenerationRecords(env.h, snapshot, blobs);
    var a := BundleOf(snapshot, blobs, files).entries;
    var b := PayloadEntries(snapshot, blobs) + [Entry(MANIFEST, File(Json(m)))];
    FindInBundle(snapshot, blobs, files);
    NamesArePortable();
    assert b[0].name == DATABASE && b[1].name == BLOBS && b[2] == Entry(MANIFEST, File(Json(m)));
    assert Find(b, [MANIFEST]) == Find(b[1..], [MANIFEST]) == Find(b[2..], [MANIFEST]) by {
      assert b[1..][0] == b[1] && b[1..][1..] == b[2..] && b[2..][0] == b[2];
    }
    LegacyVerifiesAlike(env, a, b, files, m);
    GenerationsInteroperate(env, snapshot, blobs);
  }

  /** Such a manifest exists for every generation. */
  lemma LegacyFormExists(env: Environment, snapshot: Content, blobs: seq<Entry>, createdAt: string)
    requires Distinct(blobs) && FileSystemNames(blobs) && Recordable(blobs, [BLOBS]) && env.validTime(createdAt)
    ensures var files := GenerationRecords(env.h, snapshot, blobs);
            LegacyOf(AsLegacy(files, RecordOf(env.h, Found([DATABASE], snapshot)), "generation-1", createdAt), files,
                     env.validTime)
  {
    var database := RecordOf(env.h, Found([DATABASE], snapshot));
    SortedKeepsElements([database] + Records(env.h, Files(blobs, [BLOBS]), {}), database);
    assert database.path == Printed([DATABASE]) == DATABASE;
    assert "generation-" <= "generation-1";
  }
}
