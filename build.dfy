/**
 The snapshot builder, with the directory walk abstracted to the sequence of
 visits the walk callback receives. Relativising a path against the root is a
 caller-supplied total function; each file visit carries the outcome of hashing
 that file.
 */
module Build {
  import opened Snapshots

  /** What hashing a file produced: its hex digest, or the read error. */
  datatype HashOutcome = Digest(hex: string) | HashError(cause: string)

  /**
   One call of the walk callback: the visited path, the error the walk passed
   in (if any), whether the entry is a directory, its size, and what hashing it
   would give (looked at only for files).
   */
  datatype Entry = Entry(path: string, walkError: Option<string>, isDir: bool, size: Int64, hash: HashOutcome)

  /** The error that ends a build, naming the offending path and its cause. */
  datatype BuildError = WalkFailed(path: string, cause: string) | HashFailed(path: string, cause: string)

  /** Relativising a visited path against the root; `rel(root, path)`. */
  type RelFn = (string, string) -> string

  /** The callback returns an error for this entry: a walk error, or a file that cannot be hashed. */
  predicate Fails(e: Entry)
  {
    e.walkError.Some? || (!e.isDir && e.hash.HashError?)
  }

  /** The callback inserts a record for this entry. */
  predicate Recorded(e: Entry)
  {
    e.walkError.None? && !e.isDir && e.hash.Digest?
  }

  predicate NoFailure(walk: seq<Entry>)
  {
    forall i :: 0 <= i < |walk| ==> !Fails(walk[i])
  }

  function ErrorOf(e: Entry): (err: BuildError)
    requires Fails(e)
    ensures err.path == e.path
  {
    if e.walkError.Some? then WalkFailed(e.path, e.walkError.value) else HashFailed(e.path, e.hash.cause)
  }

  function RecordOf(root: string, rel: RelFn, e: Entry): FileInfo
    requires Recorded(e)
  {
    FileInfo(rel(root, e.path), e.size, e.hash.hex)
  }

  /** The files map after the callback has handled every entry of `walk`, in order. */
  function FilesOf(root: string, rel: RelFn, walk: seq<Entry>): map<string, FileInfo>
  {
    if walk == [] then map[]
    else
      var files := FilesOf(root, rel, walk[..|walk| - 1]);
      var e := walk[|walk| - 1];
      if Recorded(e) then files[rel(root, e.path) := RecordOf(root, rel, e)] else files
  }

  /**
   The builder as `createSnapshot` runs it: start from an empty map and let the walk
   callback handle each entry in turn. An error stops the walk and is returned
   together with the map filled so far; a directory is skipped; a file is
   inserted under its relative path.
   */
  method CreateSnapshot(root: string, rel: RelFn, walk: seq<Entry>) returns (snap: Snapshot, err: Option<BuildError>)
    ensures err.None? <==> NoFailure(walk)
    ensures err.None? ==> snap.files == FilesOf(root, rel, walk)
    ensures err.Some? ==>
              exists k :: 0 <= k < |walk| && NoFailure(walk[..k]) && Fails(walk[k]) &&
                          err.value == ErrorOf(walk[k]) && snap.files == FilesOf(root, rel, walk[..k])
  {
    snap := Snapshot(map[]);
    err := None;
    var i := 0;
    while i < |walk|
      invariant 0 <= i <= |walk|
      invariant NoFailure(walk[..i])
      invariant snap.files == FilesOf(root, rel, walk[..i])
    {
      var e := walk[i];
      if e.walkError.Some? {
        err := Some(WalkFailed(e.path, e.walkError.value));
        return;
      }
      if e.isDir {
        assert walk[..i + 1][..i] == walk[..i];
        i := i + 1;
        continue;
      }
      if e.hash.HashError? {
        err := Some(HashFailed(e.path, e.hash.cause));
        return;
      }
      var r := rel(root, e.path);
      snap := Snapshot(snap.files[r := FileInfo(r, e.size, e.hash.hex)]);
      assert walk[..i + 1][..i] == walk[..i];
      i := i + 1;
    }
    assert walk[..i] == walk;
  }

  /** The keys of the files map are exactly the relative paths of the file entries that were hashed. */
  lemma {:induction false} FilesOfKeys(root: string, rel: RelFn, walk: seq<Entry>, key: string)
    ensures key in FilesOf(root, rel, walk) <==>
              exists i :: 0 <= i < |walk| && Recorded(walk[i]) && rel(root, walk[i].path) == key
  {
    if walk != [] {
      var front := walk[..|walk| - 1];
      FilesOfKeys(root, rel, front, key);
      if key in FilesOf(root, rel, front) {
        var i :| 0 <= i < |front| && Recorded(front[i]) && rel(root, front[i].path) == key;
        assert walk[i] == front[i];
      }
      if exists i :: 0 <= i < |walk| && Recorded(walk[i]) && rel(root, walk[i].path) == key {
        var i :| 0 <= i < |walk| && Recorded(walk[i]) && rel(root, walk[i].path) == key;
        if i < |front| {
          assert front[i] == walk[i];
        }
      }
    }
  }

  /** Every record's `path` field equals the key it is stored under. */
  lemma {:induction false} FilesOfPathIsKey(root: string, rel: RelFn, walk: seq<Entry>, key: string)
    requires key in FilesOf(root, rel, walk)
    ensures FilesOf(root, rel, walk)[key].path == key
  {
    var front := walk[..|walk| - 1];
    if key in FilesOf(root, rel, front) {
      FilesOfPathIsKey(root, rel, front, key);
    }
  }

  /**
   A hashed file entry that no later hashed entry shares a key with is stored
   with its own size and digest. When the walk visits each file once and
   relativising keeps paths apart, this holds of every file entry.
   */
  lemma {:induction false} FilesOfRecord(root: string, rel: RelFn, walk: seq<Entry>, i: nat)
    requires i < |walk| && Recorded(walk[i])
    requires forall j :: i < j < |walk| && Recorded(walk[j]) ==> rel(root, walk[j].path) != rel(root, walk[i].path)
    ensures rel(root, walk[i].path) in FilesOf(root, rel, walk)
    ensures FilesOf(root, rel, walk)[rel(root, walk[i].path)] ==
              FileInfo(rel(root, walk[i].path), walk[i].size, walk[i].hash.hex)
  {
    if i < |walk| - 1 {
      var front := walk[..|walk| - 1];
      assert front[i] == walk[i];
      FilesOfRecord(root, rel, front, i);
    }
  }

  /** The walk with its directory entries removed. */
  function FileEntries(walk: seq<Entry>): (files: seq<Entry>)
    ensures forall e :: e in files <==> e in walk && !e.isDir
  {
    if walk == [] then []
    else if walk[|walk| - 1].isDir then FileEntries(walk[..|walk| - 1])
    else FileEntries(walk[..|walk| - 1]) + [walk[|walk| - 1]]
  }

  /** Directory entries never contribute to the files map, wherever they stand in the walk. */
  lemma {:induction false} DirectoriesSkipped(root: string, rel: RelFn, walk: seq<Entry>)
    ensures FilesOf(root, rel, walk) == FilesOf(root, rel, FileEntries(walk))
  {
    if walk != [] {
      var front := walk[..|walk| - 1];
      DirectoriesSkipped(root, rel, front);
      if !walk[|walk| - 1].isDir {
        var files := FileEntries(front) + [walk[|walk| - 1]];
        assert files[..|files| - 1] == FileEntries(front);
      }
    }
  }
}
