/** A file system with operations that can fail, each leaving behind what the real one
    would. Paths are canonical and absolute; removal as clean-up succeeds. */
module Disk {
  import opened Common
  import opened Paths
  import opened FileTree
  import opened Manifests

  predicate Below(parent: Path, p: Path) {
    parent <= p
  }

  class FileSystem {
    var files: map<Path, Content>
    var dirs: set<Path>
    var clock: nat
    const faults: nat -> bool               // whether the n-th operation fails

    /** Everything is in a directory, and nothing is both file and directory. */
    ghost predicate Valid()
      reads this
    {
      && [] in dirs
      && files.Keys !! dirs
      && (forall p, k :: p in files && 0 <= k < |p| ==> p[..k] in dirs)
      && (forall p, k :: p in dirs && 0 <= k < |p| ==> p[..k] in dirs)
    }

    ghost predicate Faultless() {
      forall n :: !faults(n)
    }

    predicate Exists(p: Path)
      reads this
    {
      p in files || p in dirs
    }

    method Attempt() returns (fails: bool)
      modifies this`clock
      ensures Faultless() ==> !fails
    {
      fails := faults(clock);
      clock := clock + 1;
    }

    method CreateDir(p: Path) returns (ok: bool)
      requires Valid() && p != []
      modifies this
      ensures Valid() && files == old(files)
      ensures dirs == if ok then old(dirs) + {p} else old(dirs)
      ensures ok ==> !old(Exists(p)) && p[..|p| - 1] in old(dirs)
      ensures Faultless() && !old(Exists(p)) && p[..|p| - 1] in old(dirs) ==> ok
    {
      var fails := Attempt();
      if fails || Exists(p) || p[..|p| - 1] !in dirs {
        return false;
      }
      dirs := dirs + {p};
      forall k | 0 <= k < |p|
        ensures p[..k] in dirs
      {
        if k < |p| - 1 {
          assert p[..k] == p[..|p| - 1][..k];
        }
      }
      return true;
    }

    /** Creates a directory and what is missing above it, from the top; a failure leaves
        the part that was created. */
    method CreateDirAll(p: Path) returns (ok: bool)
      requires Valid()
      modifies this
      ensures Valid() && files == old(files)
      ensures old(dirs) <= dirs && forall d :: d in dirs && d !in old(dirs) ==> Below(d, p)
      ensures ok ==> p in dirs
      ensures Faultless() && (forall k :: 0 <= k <= |p| ==> p[..k] !in files) ==> ok
    {
      for k := 0 to |p|
        invariant Valid() && files == old(files) && p[..k] in dirs
        invariant old(dirs) <= dirs && forall d :: d in dirs && d !in old(dirs) ==> Below(d, p)
      {
        var next := p[..k + 1];
        if next !in dirs {
          assert next[..k] == p[..k];
          var made := CreateDir(next);
          if !made {
            return false;
          }
        }
      }
      assert p[..|p|] == p;
      return true;
    }

    /** Copies a regular file to a new place, and removes the copy again if it cannot be
        finished or does not have the expected digest and size. */
    method CopyVerifiedNew(h: Hasher, source: Option<Node>, destination: Path, expected: Record) returns (ok: bool)
      requires Valid() && destination != []
      modifies this
      ensures Valid() && dirs == old(dirs)
      ensures !ok ==> files == old(files)
      ensures ok ==>
                && Matches(h, source, expected) && !old(Exists(destination))
                && files == old(files)[destination := source.value.content]
      ensures Faultless() && Matches(h, source, expected) && !old(Exists(destination)) ==>
                destination[..|destination| - 1] in dirs ==> ok
    {
      if source.None? || !source.value.File? {
        return false;
      }
      var content := source.value.content;
      var parent := destination[..|destination| - 1];
      var opening := Attempt();
      if opening || Exists(destination) || parent !in dirs {
        return false;
      }
      var before := files;
      files := files[destination := Data([])];
      var copying := Attempt();
      if copying || h.size(content) != expected.size || h.digest(content) != expected.sha256 {
        files := files - {destination};
        assert files == before;
        return false;
      }
      files := files[destination := content];
      forall k | 0 <= k < |destination|
        ensures destination[..k] in dirs
      {
        if k < |parent| {
          assert destination[..k] == parent[..k];
        }
      }
      return true;
    }

    method RemoveFile(p: Path)
      requires Valid()
      modifies this
      ensures Valid() && files == old(files) - {p} && dirs == old(dirs)
    {
      files := files - {p};
      clock := clock + 1;
    }

    method RemoveDirAll(p: Path)
      requires Valid() && p != []
      modifies this
      ensures Valid()
      ensures files == map q | q in old(files) && !Below(p, q) :: old(files)[q]
      ensures dirs == set d | d in old(dirs) && !Below(p, d)
    {
      files := map q | q in files && !Below(p, q) :: files[q];
      dirs := set d | d in dirs && !Below(p, d);
      clock := clock + 1;
      assert forall q: Path, k :: 0 <= k < |q| && Below(p, q[..k]) ==> Below(p, q);
    }
  }

  predicate Matches(h: Hasher, source: Option<Node>, expected: Record) {
    && source.Some? && source.value.File?
    && h.size(source.value.content) == expected.size
    && h.digest(source.value.content) == expected.sha256
  }
}
