/**
 The data model shared by the snapshot builder and the differ: one record per
 regular file, and a snapshot as a map from relative path to record.
 */
module Snapshots {

  /** Go's `int64`, the type of a file size as reported by the walk. */
  newtype Int64 = x: int | -0x8000_0000_0000_0000 <= x < 0x8000_0000_0000_0000

  datatype Option<T> = None | Some(value: T)

  /** One regular file: its path relative to the snapshot root, its size and its content digest. */
  datatype FileInfo = FileInfo(path: string, size: Int64, hash: string)

  /** A snapshot maps each relative path to the record of the file found there. */
  datatype Snapshot = Snapshot(files: map<string, FileInfo>)

  /** The snapshot with no files; a missing snapshot on either side of a diff behaves like it. */
  function EmptySnapshot(): Snapshot
  {
    Snapshot(map[])
  }
}
