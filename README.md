# DirSnap snapshot and diff engine in Dafny

DirSnap records a snapshot of a directory tree (relative path, size and
SHA-256 digest of every regular file) and compares two snapshots, reporting
each path as Deleted, Modified or Added. This project models its two engine
steps from `main.go`:

- `snapshots.dfy` (module `Snapshots`): the `FileInfo` record (path, `int64`
  size, hex digest) and the `Snapshot` map from relative path to record.
- `diff.dfy` (module `Diff`): `DiffSnapshots`, the two-loop differ, returns
  the sequence of `Change` values that the Go code prints. Go's map iteration
  order is unspecified, so each loop takes its next key by arbitrary choice
  (`:|`) from the keys not yet visited. The method is proved against
  `Classify`, a reference classification of one path at a time, and against
  `Expected`, the set of changes `Classify` yields. The lemmas beside them
  state what those changes are: Deleted, Added and Modified exactly, at most
  once per path, nothing for a self-diff, symmetry, and that sizes are never
  consulted.
- `build.dfy` (module `Build`): `CreateSnapshot` fills the files map the way
  the `filepath.Walk` callback does. The walk is given as the sequence of
  callback visits (`Entry`: path, walk error, directory flag, size, hash
  outcome). Relativising against the root is a total function parameter
  `rel`. `FilesOf` is the specification of the map after a prefix of the walk.
  Lemmas about it give the key set, show that each record's path is its key,
  show which record each key holds, and show that directories contribute
  nothing.

Three behaviours of `main.go` that the model keeps:

- `createSnapshot` returns the partly filled snapshot together with the error
  (main.go:87), so `CreateSnapshot` returns both. It states which prefix the
  partial map reflects.
- The code prints Deleted and Modified entries interleaved, in the old map's
  iteration order, and then the Added ones. `DiffSnapshots` promises only that
  order (`AddedLast`), not a Deleted block followed by a Modified block.
- The code stores whatever `filepath.Rel` returns and drops its error. The
  model takes the relativised path from the parameter `rel` and does not
  model a failure of it.

## Model

| member | source | states |
|---|---|---|
| Diff.DiffSnapshots | main.go:127-151 | for any iteration order of both maps, the set of changes emitted is exactly `Expected(old, new)`; no path is emitted twice; every Added change follows every Deleted and Modified change; `seen` holds exactly the old keys after the first loop (asserted) |
| Diff.DeletedExactly | main.go:132-138 | the Deleted paths are exactly `keys(old) - keys(new)` |
| Diff.AddedExactly | main.go:128-149 | the Added paths are exactly `keys(new) - keys(old)`, that is the new paths not seen in the first loop |
| Diff.ModifiedExactly | main.go:141-143 | a path in both snapshots is Modified if and only if the two digests differ |
| Diff.ModifiedOnlyInBoth | main.go:136-143 | only paths in both snapshots are ever Modified |
| Diff.ReportedAtMostOnce | main.go:132-150 | two expected changes with the same path are the same change: one kind per path |
| Diff.ReportedIffChanged | main.go:132-150 | a path of either snapshot is reported if and only if it is not Unchanged (equal digests in both) |
| Diff.ReportedWithinSnapshots | main.go:132-150 | every reported path belongs to one of the two snapshots |
| Diff.DiffSelfIsEmpty | main.go:141-143 | diffing a snapshot against itself reports nothing |
| Diff.Symmetry | main.go:127-151 | Added paths of `diff(a, b)` are the Deleted paths of `diff(b, a)`, and conversely; Modified paths are the same both ways |
| Diff.SizeNotConsulted | main.go:141-143 | snapshots that agree on keys and digests give the same changes whatever their sizes or stored paths |
| Diff.EmptySides | main.go:132-149 | against an empty snapshot every path is Added (old side empty) or Deleted (new side empty) |
| Build.CreateSnapshot | main.go:60-88 | the result has no error if and only if no visit fails; without an error the map is `FilesOf` of the whole walk; with one, the error is that of the first failing visit and the map is `FilesOf` of the visits before it |
| Build.ErrorOf | main.go:65-76 | the error returned for a failing visit names that visit's path (walk error first, then the hash error) |
| Build.FilesOfKeys | main.go:69-83 | a key is in the map if and only if some hashed, non-directory visit relativises to it |
| Build.FilesOfPathIsKey | main.go:78-83 | every record's `Path` equals the key it is stored under |
| Build.FilesOfRecord | main.go:78-83 | a file visit that no later file visit shares a key with is stored with its own size and digest |
| Build.DirectoriesSkipped | main.go:69-71 | removing every directory visit from the walk leaves the map unchanged |

## Left out

- `main` (main.go:23-58): command dispatch, usage text and `panic` on errors belong to the command line.
- `filepath.Walk` (main.go:65): the traversal is the given entry sequence, and its order and depth-first descent are not modelled.
- `filepath.Rel` (main.go:78): a total function parameter; the error it may return (ignored by the code) is not modelled.
- `hashFile` (main.go:90-104): opening, reading and SHA-256 hex digests are foreign I/O and library calls; each file visit carries the digest or the read error.
- `saveSnapshot` and `loadSnapshot` (main.go:106-125): file I/O and the `encoding/json` library, so the JSON round trip is not modelled.
- The printed header and emoji markers (main.go:130, 137, 142, 148): replaced by the returned `Change` values.
