/** File trees as the backup tools see them: a directory is the listing of its entries,
    in whatever order it is read. */
module FileTree {
  import opened Common
  import opened Paths

  /** One file of a manifest. */
  datatype Record = Record(path: string, sha256: string, size: nat)

  datatype Version = BundleVersion | LegacyManagedVersion | OtherVersion(text: string)

  /** What the JSON text of a manifest says: the portable form, or the form that earlier
      managed backups wrote. */
  datatype Manifest =
    | Portable(version: Version, files: seq<Record>)
    | Legacy(version: Version, generation: string, createdAt: string, database: Record, blobs: seq<Record>)

  /** The content of a file: bytes, or the printed form of a manifest. */
  datatype Content = Data(bytes: seq<Byte>) | Json(manifest: Manifest)

  datatype Node = File(content: Content) | Dir(entries: seq<Entry>) | Symlink | Special

  datatype Entry = Entry(name: Name, node: Node)

  /** No two entries of a directory share a name. */
  predicate Distinct(entries: seq<Entry>)
    decreases entries
  {
    && (forall i, j :: 0 <= i < j < |entries| ==> entries[i].name != entries[j].name)
    && (forall i :: 0 <= i < |entries| && entries[i].node.Dir? ==> Distinct(entries[i].node.entries))
  }

  /** Portable names, and nothing but files and directories. */
  predicate Regular(entries: seq<Entry>)
    decreases entries
  {
    forall i :: 0 <= i < |entries| ==>
      && PortableName(entries[i].name)
      && (entries[i].node.File? || (entries[i].node.Dir? && Regular(entries[i].node.entries)))
  }

  /** The node at a path. */
  function Find(entries: seq<Entry>, p: Path): Option<Node>
    requires p != []
    decreases |p|, |entries|
  {
    if entries == [] then None
    else if entries[0].name != p[0] then Find(entries[1..], p)
    else if |p| == 1 then Some(entries[0].node)
    else if entries[0].node.Dir? then Find(entries[0].node.entries, p[1..])
    else None
  }

  predicate FileAt(entries: seq<Entry>, p: Path, content: Content) {
    p != [] && Find(entries, p) == Some(File(content))
  }

  predicate DirectoryAt(entries: seq<Entry>, p: Path) {
    p != [] && Find(entries, p).Some? && Find(entries, p).value.Dir?
  }

  /* The files of a tree, depth first. */

  datatype Found = Found(path: Path, content: Content)

  function Files(entries: seq<Entry>, prefix: Path): seq<Found>
    decreases entries, 0
  {
    if entries == [] then []
    else FilesOf(entries[0].node, prefix + [entries[0].name]) + Files(entries[1..], prefix)
  }

  function FilesOf(node: Node, path: Path): seq<Found>
    decreases node, 1
  {
    match node
    case File(content) => [Found(path, content)]
    case Dir(entries) => Files(entries, path)
    case _ => []
  }

  lemma DistinctRest(entries: seq<Entry>)
    requires Distinct(entries) && entries != []
    ensures Distinct(entries[1..])
    ensures entries[0].node.Dir? ==> Distinct(entries[0].node.entries)
  {
  }

  lemma RegularRest(entries: seq<Entry>)
    requires Regular(entries) && entries != []
    ensures Regular(entries[1..])
    ensures PortableName(entries[0].name)
    ensures entries[0].node.File? || (entries[0].node.Dir? && Regular(entries[0].node.entries))
  {
  }

  lemma FindInOne(e: Entry, p: Path)
    requires p != []
    ensures Find([e], p) == if e.name != p[0] then None
                            else if |p| == 1 then Some(e.node)
                            else if e.node.Dir? then Find(e.node.entries, p[1..])
                            else None
  {
    assert Find([e][1..], p) == None;
  }

  /** Only names that are listed lead anywhere. */
  lemma {:induction false} FindNames(entries: seq<Entry>, p: Path)
    requires p != [] && Find(entries, p).Some?
    ensures exists i :: 0 <= i < |entries| && entries[i].name == p[0]
    decreases |entries|
  {
    if entries[0].name != p[0] {
      FindNames(entries[1..], p);
      var i :| 0 <= i < |entries[1..]| && entries[1..][i].name == p[0];
      assert entries[i + 1].name == p[0];
    }
  }

  /** Every file that is listed is at its path, below the prefix. */
  lemma {:induction false} FilesAreThere(entries: seq<Entry>, prefix: Path, k: nat)
    requires Distinct(entries) && k < |Files(entries, prefix)|
    ensures var f := Files(entries, prefix)[k];
            prefix < f.path && FileAt(entries, f.path[|prefix|..], f.content)
    decreases entries
  {
    DistinctRest(entries);
    var e := entries[0];
    var own := FilesOf(e.node, prefix + [e.name]);
    var f := Files(entries, prefix)[k];
    if k >= |own| {
      FilesAreThere(entries[1..], prefix, k - |own|);
      var p := f.path[|prefix|..];
      FindNames(entries[1..], p);
      assert Find(entries, p) == Find(entries[1..], p);
    } else if e.node.Dir? {
      FilesAreThere(e.node.entries, prefix + [e.name], k);
      assert f.path[|prefix|..][1..] == f.path[|prefix + [e.name]|..];
      assert f.path[|prefix|] == (prefix + [e.name])[|prefix|];
    } else {
      assert f.path[|prefix|..] == [e.name];
    }
  }

  /** Every file at a path is listed. */
  lemma {:induction false} FilesAreComplete(entries: seq<Entry>, prefix: Path, p: Path, content: Content)
    requires FileAt(entries, p, content)
    ensures Found(prefix + p, content) in Files(entries, prefix)
    decreases entries
  {
    var e := entries[0];
    if e.name != p[0] {
      FilesAreComplete(entries[1..], prefix, p, content);
    } else if |p| > 1 {
      FilesAreComplete(e.node.entries, prefix + [e.name], p[1..], content);
      assert prefix + [e.name] + p[1..] == prefix + p;
    } else {
      assert p == [e.name];
    }
  }

  /** No path is listed twice. */
  lemma {:induction false} FilesAreDistinct(entries: seq<Entry>, prefix: Path, j: nat, k: nat)
    requires Distinct(entries) && j < k < |Files(entries, prefix)|
    ensures Files(entries, prefix)[j].path != Files(entries, prefix)[k].path
    decreases entries
  {
    DistinctRest(entries);
    var e := entries[0];
    var own := FilesOf(e.node, prefix + [e.name]);
    if j >= |own| {
      FilesAreDistinct(entries[1..], prefix, j - |own|, k - |own|);
    } else if k < |own| {
      FilesAreDistinct(e.node.entries, prefix + [e.name], j, k);
    } else {
      var rest := entries[1..];
      FilesAreThere(rest, prefix, k - |own|);
      var late := Files(rest, prefix)[k - |own|].path;
      FindNames(rest, late[|prefix|..]);
      if e.node.Dir? {
        FilesAreThere(e.node.entries, prefix + [e.name], j);
        assert own[j].path[|prefix|] == (prefix + [e.name])[|prefix|] == e.name;
      }
      assert own[j].path[|prefix|] == e.name;
    }
  }

  /** In a regular tree every listed path is portable. */
  lemma {:induction false} FilesArePortable(entries: seq<Entry>, prefix: Path, k: nat)
    requires Regular(entries) && k < |Files(entries, prefix)|
    requires forall i :: 0 <= i < |prefix| ==> PortableName(prefix[i])
    ensures PortablePath(Files(entries, prefix)[k].path)
    decreases entries
  {
    RegularRest(entries);
    var e := entries[0];
    var own := FilesOf(e.node, prefix + [e.name]);
    if k >= |own| {
      FilesArePortable(entries[1..], prefix, k - |own|);
    } else if e.node.Dir? {
      FilesArePortable(e.node.entries, prefix + [e.name], k);
    }
  }

  lemma {:induction false} FilesOfConcatenation(a: seq<Entry>, b: seq<Entry>, prefix: Path)
    ensures Files(a + b, prefix) == Files(a, prefix) + Files(b, prefix)
    decreases |a|
  {
    if a == [] {
      assert a + b == b;
    } else {
      assert (a + b)[1..] == a[1..] + b;
      FilesOfConcatenation(a[1..], b, prefix);
    }
  }

  lemma FilesOfOne(e: Entry, prefix: Path)
    ensures Files([e], prefix) == FilesOf(e.node, prefix + [e.name])
  {
    assert Files([e][1..], prefix) == [];
  }

  /** `collect_regular_files`: appends the files below `prefix` to a list, entry by
      entry, and fails on the first entry that is not portable or not regular. It
      succeeds exactly on regular trees. */
  method CollectRegularFiles(entries: seq<Entry>, prefix: Path, files: seq<Found>) returns (r: Result<seq<Found>>)
    ensures r == if Regular(entries) then Ok(files + Files(entries, prefix)) else Err
    decreases entries
  {
    var found := files;
    for i := 0 to |entries|
      invariant found == files + Files(entries[..i], prefix)
      invariant Regular(entries[..i])
    {
      var entry := entries[i];
      if !PortableName(entry.name) {
        return Err;
      }
      assert entries[..i + 1] == entries[..i] + [entry];
      FilesOfConcatenation(entries[..i], [entry], prefix);
      FilesOfOne(entry, prefix);
      match entry.node
      case Symlink =>
        return Err;
      case Special =>
        return Err;
      case File(content) =>
        found := found + [Found(prefix + [entry.name], content)];
      case Dir(children) =>
        var below := CollectRegularFiles(children, prefix + [entry.name], found);
        if below.Err? {
          return Err;
        }
        found := below.value;
    }
    assert entries[..|entries|] == entries;
    return Ok(found);
  }

  /** `copy_directory_contents`: an entry-by-entry copy, which succeeds exactly on
      regular trees. */
  method CopyDirectoryContents(source: seq<Entry>) returns (r: Result<seq<Entry>>)
    ensures r == if Regular(source) then Ok(source) else Err
    decreases source
  {
    var destination: seq<Entry> := [];
    for i := 0 to |source|
      invariant destination == source[..i] && Regular(source[..i])
    {
      var entry := source[i];
      if !PortableName(entry.name) {
        return Err;
      }
      match entry.node
      case Symlink =>
        return Err;
      case Special =>
        return Err;
      case File(content) =>
        destination := destination + [Entry(entry.name, File(content))];
      case Dir(children) =>
        var copied := CopyDirectoryContents(children);
        if copied.Err? {
          return Err;
        }
        destination := destination + [Entry(entry.name, Dir(copied.value))];
    }
    assert source[..|source|] == source;
    return Ok(destination);
  }
}
