/** Manifest records: collecting them from a tree, validating them, and reading the
    form that earlier managed backups wrote. */
module Manifests {
  import opened Common
  import Orders
  import opened Paths
  import opened FileTree

  predicate HexDigit(c: char) {
    '0' <= c <= '9' || 'a' <= c <= 'f'
  }

  predicate ValidSha256(text: string) {
    |text| == 64 && forall i :: 0 <= i < |text| ==> HexDigit(text[i])
  }

  type Digest = s: string | ValidSha256(s) witness seq(64, _ => '0')

  /** SHA-256 and the length in bytes, as functions of a file's content. */
  datatype Hasher = Hasher(digest: Content -> Digest, size: Content -> nat)

  function RecordOf(h: Hasher, f: Found): Record {
    Record(Printed(f.path), h.digest(f.content), h.size(f.content))
  }

  /* Sorting by path. */

  predicate StrictlySorted(records: seq<Record>) {
    forall i, j :: 0 <= i < j < |records| ==> Less(records[i].path, records[j].path)
  }

  predicate DistinctPaths(records: seq<Record>) {
    forall i, j :: 0 <= i < j < |records| ==> records[i].path != records[j].path
  }

  function Insert(r: Record, records: seq<Record>): seq<Record> {
    if records == [] then [r]
    else if Less(records[0].path, r.path) then [records[0]] + Insert(r, records[1..])
    else [r] + records
  }

  function Sorted(records: seq<Record>): seq<Record> {
    if records == [] then [] else Insert(records[0], Sorted(records[1..]))
  }

  lemma {:induction false} InsertKeepsElements(r: Record, records: seq<Record>, x: Record)
    ensures x in Insert(r, records) <==> x == r || x in records
  {
    if records != [] && Less(records[0].path, r.path) {
      InsertKeepsElements(r, records[1..], x);
      assert records == [records[0]] + records[1..];
    }
  }

  lemma {:induction false} InsertKeepsOrder(r: Record, records: seq<Record>)
    requires StrictlySorted(records)
    requires forall i :: 0 <= i < |records| ==> records[i].path != r.path
    ensures StrictlySorted(Insert(r, records))
  {
    if records == [] {
    } else if Less(records[0].path, r.path) {
      InsertKeepsOrder(r, records[1..]);
      var rest := Insert(r, records[1..]);
      forall j | 0 <= j < |rest|
        ensures Less(records[0].path, rest[j].path)
      {
        InsertKeepsElements(r, records[1..], rest[j]);
      }
    } else {
      LessIsTotal(records[0].path, r.path);
      forall j | 0 <= j < |records|
        ensures Less(r.path, records[j].path)
      {
        if j > 0 {
          LessIsTransitive(r.path, records[0].path, records[j].path);
        }
      }
    }
  }

  lemma {:induction false} SortedKeepsElements(records: seq<Record>, x: Record)
    ensures x in Sorted(records) <==> x in records
  {
    if records != [] {
      SortedKeepsElements(records[1..], x);
      InsertKeepsElements(records[0], Sorted(records[1..]), x);
      assert records == [records[0]] + records[1..];
    }
  }

  lemma {:induction false} SortedIsSorted(records: seq<Record>)
    requires DistinctPaths(records)
    ensures StrictlySorted(Sorted(records))
  {
    if records != [] {
      var rest := Sorted(records[1..]);
      SortedIsSorted(records[1..]);
      forall i | 0 <= i < |rest|
        ensures rest[i].path != records[0].path
      {
        SortedKeepsElements(records[1..], rest[i]);
        var k :| 0 <= k < |records[1..]| && records[1..][k] == rest[i];
        assert records[k + 1] == rest[i];
      }
      InsertKeepsOrder(records[0], rest);
    }
  }

  /** A strictly sorted list is determined by its elements. */
  lemma SortedIsUnique(a: seq<Record>, b: seq<Record>)
    requires StrictlySorted(a) && StrictlySorted(b)
    requires forall x :: x in a <==> x in b
    ensures a == b
  {
    var less := (x: Record, y: Record) => Less(x.path, y.path);
    forall x, y | less(x, y)
      ensures !less(y, x)
    {
      NeverBothLess(x.path, y.path);
    }
    Orders.SortedIsUnique(less, a, b);
  }

  /* Collecting. */

  function Records(h: Hasher, files: seq<Found>, excluded: set<string>): seq<Record> {
    if files == [] then []
    else
      (if Printed(files[0].path) in excluded then [] else [RecordOf(h, files[0])]) + Records(h, files[1..], excluded)
  }

  lemma {:induction false} RecordsOfConcatenation(h: Hasher, a: seq<Found>, b: seq<Found>, excluded: set<string>)
    ensures Records(h, a + b, excluded) == Records(h, a, excluded) + Records(h, b, excluded)
  {
    if a == [] {
      assert a + b == b;
    } else {
      assert (a + b)[1..] == a[1..] + b;
      RecordsOfConcatenation(h, a[1..], b, excluded);
    }
  }

  lemma RecordsOfOne(h: Hasher, f: Found, excluded: set<string>)
    ensures Records(h, [f], excluded) == if Printed(f.path) in excluded then [] else [RecordOf(h, f)]
  {
    assert Records(h, [f][1..], excluded) == [];
  }

  lemma {:induction false} RecordsElements(h: Hasher, files: seq<Found>, excluded: set<string>, x: Record)
    ensures x in Records(h, files, excluded) <==>
            exists k :: 0 <= k < |files| && Printed(files[k].path) !in excluded && x == RecordOf(h, files[k])
  {
    if files != [] {
      RecordsElements(h, files[1..], excluded, x);
      if k :| 0 <= k < |files| && Printed(files[k].path) !in excluded && x == RecordOf(h, files[k]) {
        if k > 0 {
          assert files[1..][k - 1] == files[k];
        }
      }
      if k :| 0 <= k < |files[1..]| && Printed(files[1..][k].path) !in excluded && x == RecordOf(h, files[1..][k]) {
        assert files[k + 1] == files[1..][k];
      }
    }
  }

  predicate AllPortable(files: seq<Found>) {
    forall k :: 0 <= k < |files| ==> PortablePath(files[k].path)
  }

  predicate AllDistinct(files: seq<Found>) {
    forall j, k :: 0 <= j < k < |files| ==> files[j].path != files[k].path
  }

  lemma PrintedIsInjective(p: Path, q: Path)
    requires PortablePath(p) && PortablePath(q) && Printed(p) == Printed(q)
    ensures p == q
  {
    PrintedIsSafe(p);
    PrintedIsSafe(q);
  }

  lemma RecordsElsewhere(h: Hasher, files: seq<Found>, excluded: set<string>, p: Path, x: Record)
    requires AllPortable(files) && PortablePath(p) && x in Records(h, files, excluded)
    requires forall k :: 0 <= k < |files| ==> files[k].path != p
    ensures x.path != Printed(p)
  {
    RecordsElements(h, files, excluded, x);
    var k :| 0 <= k < |files| && Printed(files[k].path) !in excluded && x == RecordOf(h, files[k]);
    if Printed(files[k].path) == Printed(p) {
      PrintedIsInjective(files[k].path, p);
    }
  }

  lemma {:induction false} RecordsAreDistinct(h: Hasher, files: seq<Found>, excluded: set<string>)
    requires AllPortable(files) && AllDistinct(files)
    ensures DistinctPaths(Records(h, files, excluded))
  {
    if files != [] {
      var rest := Records(h, files[1..], excluded);
      RecordsAreDistinct(h, files[1..], excluded);
      forall i | 0 <= i < |rest|
        ensures rest[i].path != Printed(files[0].path)
      {
        RecordsElsewhere(h, files[1..], excluded, files[0].path, rest[i]);
      }
    }
  }

  /** `collect_file_records`. */
  function Collected(h: Hasher, entries: seq<Entry>, excluded: set<string>): Result<seq<Record>> {
    if Regular(entries) then Ok(Sorted(Records(h, Files(entries, []), excluded))) else Err
  }

  /** The loop over the files found; the check of each path's text never fails. */
  method CollectFileRecords(h: Hasher, entries: seq<Entry>, excluded: set<string>) returns (r: Result<seq<Record>>)
    ensures r == Collected(h, entries, excluded)
  {
    var found := CollectRegularFiles(entries, [], []);
    if found.Err? {
      return Err;
    }
    var files := found.value;
    assert files == Files(entries, []);
    var records: seq<Record> := [];
    for i := 0 to |files|
      invariant records == Records(h, files[..i], excluded)
    {
      assert files[..i + 1] == files[..i] + [files[i]];
      RecordsOfConcatenation(h, files[..i], [files[i]], excluded);
      RecordsOfOne(h, files[i], excluded);
      FilesArePortable(entries, [], i);
      PrintedIsSafe(files[i].path);
      var path := Printed(files[i].path);
      if !SafePath(path) {
        return Err;
      }
      if path !in excluded {
        records := records + [Record(path, h.digest(files[i].content), h.size(files[i].content))];
      }
    }
    assert files[..|files|] == files;
    return Ok(Sorted(records));
  }

  /** What a manifest of a tree should list. */
  ghost predicate Describes(h: Hasher, entries: seq<Entry>, excluded: set<string>, x: Record) {
    exists p, content :: FileAt(entries, p, content) && Printed(p) !in excluded && x == RecordOf(h, Found(p, content))
  }

  predicate ValidRecord(x: Record) {
    SafePath(x.path) && ValidSha256(x.sha256)
  }

  predicate ValidRecords(records: seq<Record>) {
    StrictlySorted(records) && forall i :: 0 <= i < |records| ==> ValidRecord(records[i])
  }

  lemma CollectedElements(h: Hasher, entries: seq<Entry>, excluded: set<string>, x: Record)
    requires Distinct(entries) && Regular(entries)
    ensures x in Collected(h, entries, excluded).value <==> Describes(h, entries, excluded, x)
  {
    var files := Files(entries, []);
    SortedKeepsElements(Records(h, files, excluded), x);
    RecordsElements(h, files, excluded, x);
    if k :| 0 <= k < |files| && Printed(files[k].path) !in excluded && x == RecordOf(h, files[k]) {
      FilesAreThere(entries, [], k);
      assert files[k].path[0..] == files[k].path;
      assert FileAt(entries, files[k].path, files[k].content);
      assert files[k] == Found(files[k].path, files[k].content);
    }
    if p, content :| FileAt(entries, p, content) && Printed(p) !in excluded && x == RecordOf(h, Found(p, content)) {
      FilesAreComplete(entries, [], p, content);
      assert [] + p == p;
    }
  }

  lemma CollectedIsSorted(h: Hasher, entries: seq<Entry>, excluded: set<string>)
    requires Distinct(entries) && Regular(entries)
    ensures StrictlySorted(Collected(h, entries, excluded).value)
  {
    var files := Files(entries, []);
    forall k | 0 <= k < |files|
      ensures PortablePath(files[k].path)
    {
      FilesArePortable(entries, [], k);
    }
    forall j, k | 0 <= j < k < |files|
      ensures files[j].path != files[k].path
    {
      FilesAreDistinct(entries, [], j, k);
    }
    RecordsAreDistinct(h, files, excluded);
    SortedIsSorted(Records(h, files, excluded));
  }

  /** In a regular tree a file is at a portable path. */
  lemma {:induction false} FindIsPortable(entries: seq<Entry>, p: Path)
    requires Regular(entries) && p != [] && Find(entries, p).Some?
    ensures PortablePath(p)
    decreases |p|, |entries|
  {
    RegularRest(entries);
    if entries[0].name != p[0] {
      FindIsPortable(entries[1..], p);
    } else if |p| > 1 {
      FindIsPortable(entries[0].node.entries, p[1..]);
      assert p == [p[0]] + p[1..];
    }
  }

  /** The records collected from a tree are valid, and they are the only valid list of
      records that describes the tree: whatever order its directories are read in, the
      tree determines its manifest. */
  lemma CollectedIsCanonical(h: Hasher, entries: seq<Entry>, excluded: set<string>, records: seq<Record>)
    requires Distinct(entries) && Regular(entries)
    ensures ValidRecords(Collected(h, entries, excluded).value)
    ensures StrictlySorted(records) && (forall x :: x in records <==> Describes(h, entries, excluded, x))
            <==> records == Collected(h, entries, excluded).value
  {
    var collected := Collected(h, entries, excluded).value;
    CollectedIsSorted(h, entries, excluded);
    forall x
      ensures x in collected <==> Describes(h, entries, excluded, x)
      ensures x in collected ==> ValidRecord(x)
    {
      CollectedElements(h, entries, excluded, x);
      if p, content :| FileAt(entries, p, content) && x == RecordOf(h, Found(p, content)) {
        FindIsPortable(entries, p);
        PrintedIsSafe(p);
      }
    }
    if StrictlySorted(records) && forall x :: x in records <==> Describes(h, entries, excluded, x) {
      SortedIsUnique(records, collected);
    }
  }

  /** `validate_file_records` compares neighbours; that is enough for all pairs. */
  method ValidateFileRecords(files: seq<Record>) returns (valid: bool)
    ensures valid <==> ValidRecords(files)
    ensures valid <==>
            && (forall i, j :: 0 <= i < j < |files| ==> Less(files[i].path, files[j].path))
            && forall i :: 0 <= i < |files| ==>
                 && SafePath(files[i].path) && |files[i].sha256| == 64
                 && forall k :: 0 <= k < 64 ==> '0' <= files[i].sha256[k] <= '9' || 'a' <= files[i].sha256[k] <= 'f'
  {
    var previous: Option<string> := None;
    for i := 0 to |files|
      invariant previous == if i == 0 then None else Some(files[i - 1].path)
      invariant ValidRecords(files[..i])
    {
      var entry := files[i];
      if !SafePath(entry.path) {
        return false;
      }
      if !ValidSha256(entry.sha256) {
        return false;
      }
      if previous.Some? && !Less(previous.value, entry.path) {
        return false;
      }
      forall j | 0 <= j < i
        ensures Less(files[j].path, entry.path)
      {
        if j < i - 1 {
          assert Less(files[..i][j].path, files[..i][i - 1].path);
          LessIsTransitive(files[j].path, files[i - 1].path, entry.path);
        }
      }
      previous := Some(entry.path);
    }
    assert files[..|files|] == files;
    return true;
  }
}
