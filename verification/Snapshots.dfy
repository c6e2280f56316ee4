/** What an index directory made by the builder remembers, path by path: the stamp and row-group
    count of the last build, and which contents each column's FST was made from. Every operation on
    the stored text and key bytes is shown to be the corresponding operation on these snapshots. */
module Snapshots {
  import opened Corpus
  import opened Decimal
  import opened FstSet
  import opened IndexBuilder
  import opened IndexRoot
  import opened Metadata
  import opened Outcomes
  import opened PathMaps

  datatype Snapshot = Snapshot(stamp: Stamp, groups: U64, columns: map<string, DataFile>)
  type Snapshots = map<string, Snapshot>

  ghost function Fsts(columns: map<string, DataFile>): map<string, Fst> {
    map c | c in columns :: FstOf(columns[c], c)
  }

  ghost function DirOf(path: string, s: Snapshot): IndexDir {
    IndexDir(Some(Format(path, s.stamp, s.groups)), Fsts(s.columns))
  }

  ghost function Dirs(snaps: Snapshots): (r: map<string, IndexDir>)
    ensures r.Keys == snaps.Keys
  {
    map p | p in snaps :: DirOf(p, snaps[p])
  }

  /** The index directory the snapshots describe. */
  ghost function Render(hash: PathHash, snaps: Snapshots): Root
    requires InjectiveOn(hash, snaps.Keys)
  {
    Hashed(hash, Dirs(snaps))
  }

  ghost predicate UpToDate(snaps: Snapshots, path: string, stamp: Stamp, column: string) {
    path in snaps && column in snaps[path].columns && snaps[path].stamp == stamp
  }

  ghost function ColumnsAt(snaps: Snapshots, path: string): map<string, DataFile> {
    if path in snaps then snaps[path].columns else map[]
  }

  ghost function SnapshotAfter(snaps: Snapshots, path: string, v: FileVersion, column: string): Snapshot {
    Snapshot(v.stamp, |v.content.rowGroups|, ColumnsAt(snaps, path)[column := v.content])
  }

  /** Text and stamp agree: the staleness check on the stored metadata decides exactly "no FST for
      the column, or the stamps differ". */
  lemma NeedsIndexingRendered(hash: PathHash, snaps: Snapshots, path: string, stamp: Stamp, column: string)
    requires InjectiveOn(hash, snaps.Keys + {path}) && OneLinePath(path)
    ensures NeedsIndexing(Render(hash, snaps), hash, path, stamp, column) <==> !UpToDate(snaps, path, stamp, column)
  {
    HashedLookup(hash, Dirs(snaps), path);
    if path in snaps {
      RoundTrip(path, snaps[path].stamp, snaps[path].groups);
    }
  }

  lemma FstsUpdate(columns: map<string, DataFile>, column: string, content: DataFile)
    ensures Fsts(columns[column := content]) == Fsts(columns)[column := FstOf(content, column)]
  {
  }

  lemma RenderedDir(hash: PathHash, snaps: Snapshots, path: string)
    requires InjectiveOn(hash, snaps.Keys) && path in snaps
    ensures hash(path) in Render(hash, snaps) && Render(hash, snaps)[hash(path)] == DirOf(path, snaps[path])
  {
    assert path in Dirs(snaps) && Dirs(snaps)[path] == DirOf(path, snaps[path]);
  }

  lemma NoFsts()
    ensures Fsts(map[]) == map[]
  {
  }

  lemma FstsRendered(hash: PathHash, snaps: Snapshots, path: string)
    requires InjectiveOn(hash, snaps.Keys + {path})
    ensures FstsAt(Render(hash, snaps), hash(path)) == Fsts(ColumnsAt(snaps, path))
  {
    if path in snaps {
      InjectiveOnFewer(hash, snaps.Keys + {path}, snaps.Keys);
      RenderedDir(hash, snaps, path);
    } else {
      HashedLookup(hash, Dirs(snaps), path);
      NoFsts();
    }
  }

  lemma DirAfterRendered(hash: PathHash, snaps: Snapshots, path: string, v: FileVersion, column: string)
    requires InjectiveOn(hash, snaps.Keys + {path})
    ensures DirAfter(Render(hash, snaps), hash, path, v, column) == DirOf(path, SnapshotAfter(snaps, path, v, column))
  {
    FstsRendered(hash, snaps, path);
    FstsUpdate(ColumnsAt(snaps, path), column, v.content);
  }

  ghost function StaleFiles(snaps: Snapshots, data: DataDir, column: string, force: bool): set<string> {
    set p | p in data && (force || !UpToDate(snaps, p, data[p].stamp, column))
  }

  ghost function NewSnapshots(snaps: Snapshots, data: DataDir, column: string, todo: set<string>): Snapshots
    requires todo <= data.Keys
  {
    map p | p in todo :: SnapshotAfter(snaps, p, data[p], column)
  }

  ghost function RebuiltSnapshots(snaps: Snapshots, data: DataDir, column: string, force: bool): Snapshots {
    snaps + NewSnapshots(snaps, data, column, StaleFiles(snaps, data, column, force))
  }

  ghost predicate OneLinePaths(paths: set<string>) {
    forall p :: p in paths ==> OneLinePath(p)
  }

  lemma ToIndexRendered(hash: PathHash, snaps: Snapshots, data: DataDir, column: string, force: bool)
    requires InjectiveOn(hash, snaps.Keys + data.Keys) && OneLinePaths(data.Keys)
    ensures ToIndex(Render(hash, snaps), hash, data, column, force) == StaleFiles(snaps, data, column, force)
  {
    var root := Render(hash, snaps);
    forall p | p in data
      ensures NeedsIndexing(root, hash, p, data[p].stamp, column) <==> !UpToDate(snaps, p, data[p].stamp, column)
    {
      InjectiveOnFewer(hash, snaps.Keys + data.Keys, snaps.Keys + {p});
      NeedsIndexingRendered(hash, snaps, p, data[p].stamp, column);
    }
    SameSubset(data, root, hash, snaps, column, force);
  }

  lemma SameSubset(data: DataDir, root: Root, hash: PathHash, snaps: Snapshots, column: string, force: bool)
    requires forall p :: p in data ==>
               (NeedsIndexing(root, hash, p, data[p].stamp, column) <==> !UpToDate(snaps, p, data[p].stamp, column))
    ensures ToIndex(root, hash, data, column, force) == StaleFiles(snaps, data, column, force)
  {
  }

  lemma NewDirRendered(hash: PathHash, snaps: Snapshots, data: DataDir, column: string, p: string)
    requires InjectiveOn(hash, snaps.Keys + data.Keys) && p in data
    ensures DirAfter(Render(hash, snaps), hash, p, data[p], column)
         == DirOf(p, SnapshotAfter(snaps, p, data[p], column))
  {
    InjectiveOnFewer(hash, snaps.Keys + data.Keys, snaps.Keys + {p});
    DirAfterRendered(hash, snaps, p, data[p], column);
  }

  lemma NewDirsRendered(hash: PathHash, snaps: Snapshots, data: DataDir, column: string, todo: set<string>)
    requires InjectiveOn(hash, snaps.Keys + data.Keys) && todo <= data.Keys
    ensures NewDirs(Render(hash, snaps), hash, data, column, todo) == Dirs(NewSnapshots(snaps, data, column, todo))
  {
    var a, b := NewDirs(Render(hash, snaps), hash, data, column, todo), Dirs(NewSnapshots(snaps, data, column, todo));
    forall p: string ensures (p in a <==> p in b) && (p in a ==> a[p] == b[p]) {
      if p in todo {
        NewDirRendered(hash, snaps, data, column, p);
      }
    }
    SameMap(a, b);
  }

  lemma DirsPlus(a: Snapshots, b: Snapshots)
    ensures Dirs(a) + Dirs(b) == Dirs(a + b)
  {
    SameMap(Dirs(a) + Dirs(b), Dirs(a + b));
  }

  /** A build on the stored directory is a build on the snapshots. */
  lemma RebuiltRendered(hash: PathHash, snaps: Snapshots, data: DataDir, column: string, force: bool)
    requires InjectiveOn(hash, snaps.Keys + data.Keys) && OneLinePaths(data.Keys)
    ensures RebuiltSnapshots(snaps, data, column, force).Keys <= snaps.Keys + data.Keys
    ensures Rebuilt(Render(hash, snaps), hash, data, column, force)
         == Render(hash, RebuiltSnapshots(snaps, data, column, force))
  {
    var todo := StaleFiles(snaps, data, column, force);
    var added := NewSnapshots(snaps, data, column, todo);
    ToIndexRendered(hash, snaps, data, column, force);
    AllVisited(Render(hash, snaps), hash, data, column, force);
    NewDirsRendered(hash, snaps, data, column, todo);
    InjectiveOnFewer(hash, snaps.Keys + data.Keys, Dirs(snaps).Keys + Dirs(added).Keys);
    HashedPlus(hash, Dirs(snaps), Dirs(added));
    DirsPlus(snaps, added);
  }

  ghost function Existing(snaps: Snapshots, existing: set<string>): Snapshots {
    map p | p in snaps && p in existing :: snaps[p]
  }

  lemma OrphanRendered(path: string, s: Snapshot, existing: set<string>)
    requires OneLinePath(path)
    ensures IsOrphan(DirOf(path, s), existing) <==> path !in existing
  {
    RoundTrip(path, s.stamp, s.groups);
  }

  /** Pruning the stored directory keeps exactly the snapshots of existing files. */
  lemma PrunedRendered(hash: PathHash, snaps: Snapshots, existing: set<string>)
    requires InjectiveOn(hash, snaps.Keys) && OneLinePaths(snaps.Keys)
    ensures Pruned(Render(hash, snaps), existing) == Render(hash, Existing(snaps, existing))
  {
    var kept := Existing(snaps, existing);
    assert Dirs(kept) == map p | p in Dirs(snaps) && p in existing :: Dirs(snaps)[p];
    forall p | p in snaps ensures IsOrphan(Dirs(snaps)[p], existing) <==> p !in existing {
      OrphanRendered(p, snaps[p], existing);
    }
    PrunedHashed(hash, Dirs(snaps), existing);
  }

  lemma PrunedHashed(hash: PathHash, dirs: map<string, IndexDir>, existing: set<string>)
    requires InjectiveOn(hash, dirs.Keys)
    requires forall p :: p in dirs ==> (IsOrphan(dirs[p], existing) <==> p !in existing)
    ensures Pruned(Hashed(hash, dirs), existing) == Hashed(hash, map p | p in dirs && p in existing :: dirs[p])
  {
    var kept := map p | p in dirs && p in existing :: dirs[p];
    var a, b := Pruned(Hashed(hash, dirs), existing), Hashed(hash, kept);
    forall h: string ensures (h in a <==> h in b) && (h in a ==> a[h] == b[h]) {
      if p :| p in dirs && hash(p) == h {
        InjectiveOnFewer(hash, dirs.Keys, dirs.Keys + {p});
        InjectiveOnFewer(hash, dirs.Keys, kept.Keys + {p});
        HashedLookup(hash, dirs, p);
        HashedLookup(hash, kept, p);
      }
    }
    SameMap(a, b);
  }
}
