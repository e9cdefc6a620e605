/**
 The snapshot differ: every path of two snapshots is classified as Deleted,
 Modified, Added or unchanged, and the changed ones are reported once each,
 the Deleted and Modified ones before the Added ones.
 */
module Diff {
  import opened Snapshots

  /** The three kinds of change that are reported. */
  datatype Kind = Deleted | Modified | Added

  /** One reported line of the diff. */
  datatype Change = Change(kind: Kind, path: string)

  /** How one path compares between the old and the new snapshot. */
  datatype Status = Unchanged | Changed(kind: Kind)

  /**
   Reference classification of a single path, independent of every other path:
   gone from the new snapshot, new in it, or in both with a different digest.
   The size is never looked at.
   */
  function Classify(oldSnap: Snapshot, newSnap: Snapshot, p: string): Status
    requires p in oldSnap.files || p in newSnap.files
  {
    if p !in newSnap.files then Changed(Deleted)
    else if p !in oldSnap.files then Changed(Added)
    else if oldSnap.files[p].hash != newSnap.files[p].hash then Changed(Modified)
    else Unchanged
  }

  /** The changes the reference classification reports for the paths in `ps`. */
  function ExpectedOn(oldSnap: Snapshot, newSnap: Snapshot, ps: set<string>): set<Change>
  {
    set p | p in ps && (p in oldSnap.files || p in newSnap.files) && Classify(oldSnap, newSnap, p).Changed?
      :: Change(Classify(oldSnap, newSnap, p).kind, p)
  }

  /** The changes the reference classification reports over both snapshots. */
  function Expected(oldSnap: Snapshot, newSnap: Snapshot): set<Change>
  {
    ExpectedOn(oldSnap, newSnap, oldSnap.files.Keys + newSnap.files.Keys)
  }

  function Elements(changes: seq<Change>): set<Change>
  {
    set c | c in changes
  }

  /** No path is reported twice, so in particular never under two kinds. */
  predicate PathsDistinct(changes: seq<Change>)
  {
    forall i, j :: 0 <= i < j < |changes| ==> changes[i].path != changes[j].path
  }

  /** Every Added change comes after every Deleted and Modified change. */
  predicate AddedLast(changes: seq<Change>)
  {
    forall i, j :: 0 <= i < j < |changes| && changes[i].kind == Added ==> changes[j].kind == Added
  }

  /**
   The differ as `diffSnapshots` runs it: a first loop over the old snapshot's paths
   that records each one in `seen` and reports it Deleted or Modified, then a
   loop over the new snapshot's paths that reports every unseen one Added. Map
   iteration order is unspecified, so each loop picks its next path arbitrarily.
   */
  method DiffSnapshots(oldSnap: Snapshot, newSnap: Snapshot) returns (changes: seq<Change>)
    ensures Elements(changes) == Expected(oldSnap, newSnap)
    ensures PathsDistinct(changes)
    ensures AddedLast(changes)
  {
    var seen: map<string, bool> := map[];
    changes := [];
    var pending := oldSnap.files.Keys;
    while pending != {}
      invariant pending <= oldSnap.files.Keys
      invariant seen.Keys == oldSnap.files.Keys - pending
      invariant forall q :: q in seen ==> seen[q]
      invariant Elements(changes) == ExpectedOn(oldSnap, newSnap, seen.Keys)
      invariant forall i :: 0 <= i < |changes| ==> changes[i].path in seen && changes[i].kind != Added
      invariant PathsDistinct(changes)
      decreases pending
    {
      var path :| path in pending;
      pending := pending - {path};
      var oldFile := oldSnap.files[path];
      var found := path in newSnap.files;
      ExpectedOnInsert(oldSnap, newSnap, seen.Keys, path);
      assert seen.Keys + {path} == seen[path := true].Keys;
      seen := seen[path := true];
      if !found {
        ElementsAppend(changes, Change(Deleted, path));
        changes := changes + [Change(Deleted, path)];
      } else if oldFile.hash != newSnap.files[path].hash {
        ElementsAppend(changes, Change(Modified, path));
        changes := changes + [Change(Modified, path)];
      }
    }
    // After the first loop `seen` holds exactly the old snapshot's paths.
    assert seen.Keys == oldSnap.files.Keys;
    pending := newSnap.files.Keys;
    while pending != {}
      invariant pending <= newSnap.files.Keys
      invariant Elements(changes) == ExpectedOn(oldSnap, newSnap, oldSnap.files.Keys + (newSnap.files.Keys - pending))
      invariant forall i :: 0 <= i < |changes| ==> changes[i].path in oldSnap.files.Keys + (newSnap.files.Keys - pending)
      invariant PathsDistinct(changes)
      invariant AddedLast(changes)
      decreases pending
    {
      var path :| path in pending;
      pending := pending - {path};
      ExpectedOnInsert(oldSnap, newSnap, oldSnap.files.Keys + (newSnap.files.Keys - pending - {path}), path);
      assert oldSnap.files.Keys + (newSnap.files.Keys - pending - {path}) + {path}
          == oldSnap.files.Keys + (newSnap.files.Keys - pending);
      var wasSeen := path in seen && seen[path];
      if !wasSeen {
        ElementsAppend(changes, Change(Added, path));
        changes := changes + [Change(Added, path)];
      }
    }
  }

  /** Adding one path to the range of the classification adds at most that path's change. */
  lemma ExpectedOnInsert(oldSnap: Snapshot, newSnap: Snapshot, ps: set<string>, p: string)
    requires p in oldSnap.files || p in newSnap.files
    ensures ExpectedOn(oldSnap, newSnap, ps + {p}) ==
      ExpectedOn(oldSnap, newSnap, ps) +
      (match Classify(oldSnap, newSnap, p) case Unchanged => {} case Changed(k) => {Change(k, p)})
  {
  }

  lemma ElementsAppend(changes: seq<Change>, c: Change)
    ensures Elements(changes + [c]) == Elements(changes) + {c}
  {
  }

  /** A change is expected for `ps` exactly when its path is in `ps` and classified with its kind. */
  lemma ExpectedMember(oldSnap: Snapshot, newSnap: Snapshot, ps: set<string>, c: Change)
    ensures c in ExpectedOn(oldSnap, newSnap, ps) <==>
      c.path in ps && (c.path in oldSnap.files || c.path in newSnap.files) &&
      Classify(oldSnap, newSnap, c.path) == Changed(c.kind)
  {
  }

  /** The paths that a set of changes reports under kind `k`. */
  function PathsOf(changes: set<Change>, k: Kind): set<string>
  {
    set c | c in changes && c.kind == k :: c.path
  }

  /** A path is reported Deleted exactly when it is in the old snapshot and not in the new one. */
  lemma DeletedExactly(oldSnap: Snapshot, newSnap: Snapshot)
    ensures PathsOf(Expected(oldSnap, newSnap), Deleted) == oldSnap.files.Keys - newSnap.files.Keys
  {
    var all := oldSnap.files.Keys + newSnap.files.Keys;
    forall p | p in oldSnap.files.Keys - newSnap.files.Keys
      ensures p in PathsOf(Expected(oldSnap, newSnap), Deleted)
    {
      ExpectedMember(oldSnap, newSnap, all, Change(Deleted, p));
    }
  }

  /** A path is reported Added exactly when it is in the new snapshot and not in the old one. */
  lemma AddedExactly(oldSnap: Snapshot, newSnap: Snapshot)
    ensures PathsOf(Expected(oldSnap, newSnap), Added) == newSnap.files.Keys - oldSnap.files.Keys
  {
    var all := oldSnap.files.Keys + newSnap.files.Keys;
    forall p | p in newSnap.files.Keys - oldSnap.files.Keys
      ensures p in PathsOf(Expected(oldSnap, newSnap), Added)
    {
      ExpectedMember(oldSnap, newSnap, all, Change(Added, p));
    }
  }

  /** A path in both snapshots is reported Modified exactly when the two digests differ. */
  lemma ModifiedExactly(oldSnap: Snapshot, newSnap: Snapshot, p: string)
    requires p in oldSnap.files && p in newSnap.files
    ensures p in PathsOf(Expected(oldSnap, newSnap), Modified) <==> oldSnap.files[p].hash != newSnap.files[p].hash
  {
    ExpectedMember(oldSnap, newSnap, oldSnap.files.Keys + newSnap.files.Keys, Change(Modified, p));
  }

  /** Only paths present in both snapshots are ever reported Modified. */
  lemma ModifiedOnlyInBoth(oldSnap: Snapshot, newSnap: Snapshot)
    ensures PathsOf(Expected(oldSnap, newSnap), Modified) <= oldSnap.files.Keys * newSnap.files.Keys
  {
  }

  /**
   Every path of either snapshot is reported at most once, under one kind, and
   it is reported exactly when its classification is not Unchanged.
   */
  lemma ReportedAtMostOnce(oldSnap: Snapshot, newSnap: Snapshot, c: Change, d: Change)
    requires c in Expected(oldSnap, newSnap) && d in Expected(oldSnap, newSnap)
    requires c.path == d.path
    ensures c == d
  {
  }

  lemma ReportedIffChanged(oldSnap: Snapshot, newSnap: Snapshot, p: string)
    requires p in oldSnap.files || p in newSnap.files
    ensures (exists c :: c in Expected(oldSnap, newSnap) && c.path == p) <==> Classify(oldSnap, newSnap, p).Changed?
  {
    if Classify(oldSnap, newSnap, p).Changed? {
      var c := Change(Classify(oldSnap, newSnap, p).kind, p);
      ExpectedMember(oldSnap, newSnap, oldSnap.files.Keys + newSnap.files.Keys, c);
    }
  }

  /** Nothing outside the two snapshots is ever reported. */
  lemma ReportedWithinSnapshots(oldSnap: Snapshot, newSnap: Snapshot, c: Change)
    requires c in Expected(oldSnap, newSnap)
    ensures c.path in oldSnap.files || c.path in newSnap.files
  {
  }

  /** Comparing a snapshot with itself reports nothing. */
  lemma DiffSelfIsEmpty(s: Snapshot)
    ensures Expected(s, s) == {}
  {
  }

  /** Swapping the snapshots turns Added into Deleted and back, and keeps Modified. */
  lemma Symmetry(a: Snapshot, b: Snapshot)
    ensures PathsOf(Expected(a, b), Added) == PathsOf(Expected(b, a), Deleted)
    ensures PathsOf(Expected(a, b), Deleted) == PathsOf(Expected(b, a), Added)
    ensures PathsOf(Expected(a, b), Modified) == PathsOf(Expected(b, a), Modified)
  {
    DeletedExactly(a, b);
    DeletedExactly(b, a);
    AddedExactly(a, b);
    AddedExactly(b, a);
  }

  /** Two snapshots with the same paths and the same digests have the same digest view. */
  predicate SameHashes(s: Snapshot, t: Snapshot)
  {
    s.files.Keys == t.files.Keys && forall p :: p in s.files ==> s.files[p].hash == t.files[p].hash
  }

  /** The size (and the stored path) of a record is never consulted: only keys and digests matter. */
  lemma SizeNotConsulted(oldSnap: Snapshot, oldSnap': Snapshot, newSnap: Snapshot, newSnap': Snapshot)
    requires SameHashes(oldSnap, oldSnap') && SameHashes(newSnap, newSnap')
    ensures Expected(oldSnap, newSnap) == Expected(oldSnap', newSnap')
  {
  }

  /** An empty snapshot on either side degenerates the diff to all Added or all Deleted. */
  lemma EmptySides(s: Snapshot)
    ensures Expected(EmptySnapshot(), s) == set p | p in s.files :: Change(Added, p)
    ensures Expected(s, EmptySnapshot()) == set p | p in s.files :: Change(Deleted, p)
  {
  }
}
