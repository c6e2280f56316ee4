/** The index directory as a value: one directory per path hash, holding `metadata.txt` and one FST
    per column; and the changes that indexing and pruning make to it. */
module IndexRoot {
  import opened Corpus
  import opened Decimal
  import opened FstSet
  import opened IndexBuilder
  import opened Metadata
  import opened Outcomes
  import opened PathMaps
  import Utf8

  datatype IndexDir = IndexDir(metadata: Option<string>, fsts: map<string, Fst>)
  type Root = map<string, IndexDir>

  datatype FileVersion = FileVersion(stamp: Stamp, content: DataFile)
  type DataDir = map<string, FileVersion>

  /** `Indexer::needs_indexing`. */
  predicate NeedsIndexing(root: Root, hash: PathHash, path: string, stamp: Stamp, column: string) {
    var h := hash(path);
    if h !in root || column !in root[h].fsts || root[h].metadata.None? then true
    else
      var stored := ReadStamp(root[h].metadata.value);
      stored.None? || stamp.mtime != stored.value.mtime || stamp.size != stored.value.size
  }

  function FstsAt(root: Root, h: string): map<string, Fst> {
    if h in root then root[h].fsts else map[]
  }

  /** The FST on disk for a (file hash, column). */
  function OnDisk(root: Root, key: SetKey): Option<Fst> {
    if key.0 in root && key.1 in root[key.0].fsts then Some(root[key.0].fsts[key.1]) else None
  }

  /** The directory `index_file` leaves behind: fresh metadata and one FST replaced, the FSTs of the
      other columns untouched. */
  ghost function DirAfter(root: Root, hash: PathHash, path: string, v: FileVersion, column: string): IndexDir {
    IndexDir(Some(Format(path, v.stamp, |v.content.rowGroups|)),
             FstsAt(root, hash(path))[column := FstOf(v.content, column)])
  }

  /** Indexing a column the file does not have succeeds: it leaves an empty FST and metadata that
      make the column count as indexed. */
  lemma MissingColumnIndexed(root: Root, hash: PathHash, path: string, v: FileVersion, column: string)
    requires column !in v.content.utf8Columns && OneLinePath(path)
    ensures var dir := DirAfter(root, hash, path, v, column);
            && dir.fsts[column] == []
            && !NeedsIndexing(root[hash(path) := dir], hash, path, v.stamp, column)
  {
    EmptyFst(v.content, column);
    RoundTrip(path, v.stamp, |v.content.rowGroups|);
  }

  ghost function ToIndex(root: Root, hash: PathHash, data: DataDir, column: string, force: bool): set<string> {
    set p | p in data && (force || NeedsIndexing(root, hash, p, data[p].stamp, column))
  }

  ghost function NewDirs(root: Root, hash: PathHash, data: DataDir, column: string, todo: set<string>)
    : map<string, IndexDir>
    requires todo <= data.Keys
  {
    map p | p in todo :: DirAfter(root, hash, p, data[p], column)
  }

  ghost function Reindexed(root: Root, hash: PathHash, data: DataDir, column: string, todo: set<string>): Root
    requires InjectiveOn(hash, data.Keys) && todo <= data.Keys
  {
    root + Hashed(hash, NewDirs(root, hash, data, column, todo))
  }

  lemma ReindexNone(root: Root, hash: PathHash, data: DataDir, column: string)
    requires InjectiveOn(hash, data.Keys)
    ensures Reindexed(root, hash, data, column, {}) == root
  {
  }

  lemma NewDirsStep(root: Root, hash: PathHash, data: DataDir, column: string, done: set<string>, p: string)
    requires done <= data.Keys && p in data
    ensures NewDirs(root, hash, data, column, done + {p})
         == NewDirs(root, hash, data, column, done)[p := DirAfter(root, hash, p, data[p], column)]
  {
  }

  /** Re-indexing some files neither reads nor writes the directory of another. */
  lemma ReindexStep(root: Root, hash: PathHash, data: DataDir, column: string, done: set<string>, p: string)
    requires InjectiveOn(hash, data.Keys) && done <= data.Keys && p in data && p !in done
    ensures var now := Reindexed(root, hash, data, column, done);
            && DirAfter(now, hash, p, data[p], column) == DirAfter(root, hash, p, data[p], column)
            && NeedsIndexing(now, hash, p, data[p].stamp, column) == NeedsIndexing(root, hash, p, data[p].stamp, column)
            && Reindexed(root, hash, data, column, done + {p})
            == now[hash(p) := DirAfter(root, hash, p, data[p], column)]
  {
    var dirs, dir := NewDirs(root, hash, data, column, done), DirAfter(root, hash, p, data[p], column);
    assert dirs.Keys == done;
    NewDirsStep(root, hash, data, column, done, p);
    OverlayStep(root, hash, dirs, p, dir);
  }

  /** The index directory once a build has visited every data file but those in `left`. */
  ghost function PartlyRebuilt(root: Root, hash: PathHash, data: DataDir, column: string, force: bool,
                               left: set<string>): Root
    requires InjectiveOn(hash, data.Keys)
  {
    Reindexed(root, hash, data, column, ToIndex(root, hash, data, column, force) - left)
  }

  ghost function Visited(root: Root, hash: PathHash, path: string, v: FileVersion, column: string, force: bool): Root {
    if force || NeedsIndexing(root, hash, path, v.stamp, column)
    then root[hash(path) := DirAfter(root, hash, path, v, column)] else root
  }

  lemma VisitStale(root: Root, hash: PathHash, data: DataDir, column: string, force: bool, done: set<string>, p: string)
    requires InjectiveOn(hash, data.Keys) && done <= data.Keys && p in data && p !in done
    requires force || NeedsIndexing(root, hash, p, data[p].stamp, column)
    ensures Visited(Reindexed(root, hash, data, column, done), hash, p, data[p], column, force)
         == Reindexed(root, hash, data, column, done + {p})
  {
    ReindexStep(root, hash, data, column, done, p);
  }

  lemma VisitFresh(root: Root, hash: PathHash, data: DataDir, column: string, done: set<string>, p: string)
    requires InjectiveOn(hash, data.Keys) && done <= data.Keys && p in data && p !in done
    requires !NeedsIndexing(root, hash, p, data[p].stamp, column)
    ensures Visited(Reindexed(root, hash, data, column, done), hash, p, data[p], column, false)
         == Reindexed(root, hash, data, column, done)
  {
    ReindexStep(root, hash, data, column, done, p);
  }

  lemma VisitStep(root: Root, hash: PathHash, data: DataDir, column: string, force: bool, left: set<string>, p: string)
    requires InjectiveOn(hash, data.Keys) && left <= data.Keys && p in left
    ensures Visited(PartlyRebuilt(root, hash, data, column, force, left), hash, p, data[p], column, force)
         == PartlyRebuilt(root, hash, data, column, force, left - {p})
  {
    var todo := ToIndex(root, hash, data, column, force);
    OneFewerLeft(todo, left, p);
    if p in todo {
      VisitStale(root, hash, data, column, force, todo - left, p);
    } else {
      VisitFresh(root, hash, data, column, todo - left, p);
    }
  }

  lemma NoneVisited(root: Root, hash: PathHash, data: DataDir, column: string, force: bool)
    requires InjectiveOn(hash, data.Keys)
    ensures PartlyRebuilt(root, hash, data, column, force, data.Keys) == root
  {
    assert ToIndex(root, hash, data, column, force) - data.Keys == {};
    ReindexNone(root, hash, data, column);
  }

  /** The index directory after a build: every data file that needs it, or every one when forced, has
      its directory replaced; all other directories are as they were. */
  ghost function Rebuilt(root: Root, hash: PathHash, data: DataDir, column: string, force: bool): Root
    requires InjectiveOn(hash, data.Keys)
  {
    PartlyRebuilt(root, hash, data, column, force, {})
  }

  lemma AllVisited(root: Root, hash: PathHash, data: DataDir, column: string, force: bool)
    requires InjectiveOn(hash, data.Keys)
    ensures Rebuilt(root, hash, data, column, force)
         == Reindexed(root, hash, data, column, ToIndex(root, hash, data, column, force))
  {
    assert ToIndex(root, hash, data, column, force) - {} == ToIndex(root, hash, data, column, force);
  }

  lemma ReindexedAt(root: Root, hash: PathHash, data: DataDir, column: string, todo: set<string>, p: string)
    requires InjectiveOn(hash, data.Keys) && todo <= data.Keys && p in data
    ensures var now := Reindexed(root, hash, data, column, todo);
            if p in todo then hash(p) in now && now[hash(p)] == DirAfter(root, hash, p, data[p], column)
            else (hash(p) in now <==> hash(p) in root) && (hash(p) in root ==> now[hash(p)] == root[hash(p)])
  {
    var dirs := NewDirs(root, hash, data, column, todo);
    if p !in todo {
      OverlayStep(root, hash, dirs, p, IndexDir(None, map[]));
    }
  }

  /** What a build leaves in the directory of one data file. */
  lemma RebuiltAt(root: Root, hash: PathHash, data: DataDir, column: string, force: bool, p: string)
    requires InjectiveOn(hash, data.Keys) && p in data
    ensures var now := Rebuilt(root, hash, data, column, force);
            if force || NeedsIndexing(root, hash, p, data[p].stamp, column)
            then hash(p) in now && now[hash(p)] == DirAfter(root, hash, p, data[p], column)
            else (hash(p) in now <==> hash(p) in root) && (hash(p) in root ==> now[hash(p)] == root[hash(p)])
  {
    var todo := ToIndex(root, hash, data, column, force);
    assert p in todo <==> force || NeedsIndexing(root, hash, p, data[p].stamp, column);
    AllVisited(root, hash, data, column, force);
    ReindexedAt(root, hash, data, column, todo, p);
  }

  /** A metadata line as a number; one that is none counts as 0. */
  function LineNumber(line: string): U64 {
    ParseU64(Utf8.Encode(line)).GetOr(0)
  }

  /** What spares a file from an unforced build, on any stored text: an FST for the column, and metadata of
      at least three lines, the second and third being the file's modification time and size. */
  predicate Spared(root: Root, h: string, stamp: Stamp, column: string) {
    && h in root && column in root[h].fsts && root[h].metadata.Some?
    && (var lines := Lines(root[h].metadata.value);
        |lines| >= 3 && LineNumber(lines[1]) == stamp.mtime && LineNumber(lines[2]) == stamp.size)
  }

  lemma SparedIff(root: Root, hash: PathHash, path: string, stamp: Stamp, column: string)
    ensures Spared(root, hash(path), stamp, column) <==> !NeedsIndexing(root, hash, path, stamp, column)
  {
  }

  lemma DirText(root: Root, hash: PathHash, path: string, v: FileVersion, column: string)
    ensures var dir := DirAfter(root, hash, path, v, column);
            && dir.metadata == Some(path + "\n" + Print(v.stamp.mtime) + "\n" + Print(v.stamp.size) + "\n"
                                    + Print(|v.content.rowGroups|) + "\n")
            && dir.fsts == (if hash(path) in root then root[hash(path)].fsts else map[])
                           [column := FstOf(v.content, column)]
  {
    FormatText(path, v.stamp, |v.content.rowGroups|);
  }

  /** A build over any directory whatever: the file's metadata and this column's FST are written anew, its
      other columns kept, unless the build is unforced and the file is spared; then nothing changes. */
  lemma RebuiltIff(root: Root, hash: PathHash, data: DataDir, column: string, force: bool, p: string)
    requires InjectiveOn(hash, data.Keys) && p in data
    ensures var now, h, v := Rebuilt(root, hash, data, column, force), hash(p), data[p];
            if !force && Spared(root, h, v.stamp, column) then h in now && now[h] == root[h]
            else
              && h in now
              && now[h].metadata == Some(p + "\n" + Print(v.stamp.mtime) + "\n" + Print(v.stamp.size) + "\n"
                                         + Print(|v.content.rowGroups|) + "\n")
              && now[h].fsts == (if h in root then root[h].fsts else map[])[column := FstOf(v.content, column)]
  {
    RebuiltAt(root, hash, data, column, force, p);
    SparedIff(root, hash, p, data[p].stamp, column);
    DirText(root, hash, p, data[p], column);
  }

  /** In particular missing metadata, or metadata of the old format, has the file indexed. */
  lemma OldFormatIsIndexed(root: Root, hash: PathHash, data: DataDir, column: string, p: string)
    requires InjectiveOn(hash, data.Keys) && p in data && hash(p) in root
    requires var metadata := root[hash(p)].metadata; metadata.None? || |Lines(metadata.value)| < 3
    ensures var now, v := Rebuilt(root, hash, data, column, false), data[p];
            && hash(p) in now && now[hash(p)].metadata == Some(Format(p, v.stamp, |v.content.rowGroups|))
            && column in now[hash(p)].fsts && now[hash(p)].fsts[column] == FstOf(v.content, column)
  {
    RebuiltAt(root, hash, data, column, false, p);
  }

  /** A build touches no directory but those of the data files. */
  lemma RebuiltElsewhere(root: Root, hash: PathHash, data: DataDir, column: string, force: bool, h: string)
    requires InjectiveOn(hash, data.Keys) && forall p :: p in data ==> hash(p) != h
    ensures var now := Rebuilt(root, hash, data, column, force);
            (h in now <==> h in root) && (h in root ==> now[h] == root[h])
  {
    AllVisited(root, hash, data, column, force);
  }

  /** An index directory whose data file is gone, or that has no metadata. A directory whose metadata
      file is empty is kept. */
  predicate IsOrphan(dir: IndexDir, existing: set<string>) {
    match dir.metadata
    case None => true
    case Some(contents) =>
      var path := ReadPath(contents);
      path.Some? && path.value !in existing
  }

  function Pruned(root: Root, existing: set<string>): Root {
    map h | h in root && !IsOrphan(root[h], existing) :: root[h]
  }

  /** A second prune finds nothing, and pruning never removes or changes the index of an existing file. */
  lemma PruneTwice(root: Root, existing: set<string>)
    ensures Pruned(Pruned(root, existing), existing) == Pruned(root, existing)
    ensures forall h :: h in root && root[h].metadata.Some? && ReadPath(root[h].metadata.value).Some?
                        && ReadPath(root[h].metadata.value).value in existing
                        ==> h in Pruned(root, existing) && Pruned(root, existing)[h] == root[h]
  {
  }
}
