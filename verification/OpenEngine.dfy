/** Queries through an engine that was opened some time ago: its catalogue and row-group counts are those
    of the opening, its resident FSTs those it has loaded since. */
module OpenEngine {
  import opened ColumnLog
  import opened Corpus
  import opened CorpusSearch
  import opened Decimal
  import opened EndToEnd
  import opened Filters
  import opened FstSet
  import opened IndexBuilder
  import opened IndexRoot
  import opened Lifecycle
  import opened Metadata
  import opened Outcomes
  import opened PathMaps
  import opened Pruning
  import opened PruningTheorem
  import opened QueryEngine
  import opened ScanPlan
  import opened ScanTheorem
  import opened Snapshots
  import RowTotals
  import Sorting

  // ---------------------------------------------------------------- what an engine sees

  /** Catalogued under the hashes of their paths, each once. */
  ghost predicate WellCatalogued(hash: PathHash, order: seq<string>, fileMap: map<string, string>) {
    Sorting.Distinct(order) && forall h :: h in order ==> h in fileMap && hash(fileMap[h]) == h
  }

  ghost predicate MadeByBuilder(fst: Fst, column: string) {
    exists file :: FstOf(file, column) == fst
  }

  ghost predicate AllMadeByBuilder(root: Root, cache: map<SetKey, Fst>, order: seq<string>) {
    forall h, c :: h in order && Seen(root, cache, (h, c)).Some? ==> MadeByBuilder(Seen(root, cache, (h, c)).value, c)
  }

  /** What the engine sees of one file and column is right for the file's present contents: the FST is
      theirs, and so is the row-group count, if there is one. */
  ghost predicate SeenRight(root: Root, cache: map<SetKey, Fst>, counts: map<string, U64>, h: string, column: string,
                            file: DataFile) {
    Seen(root, cache, (h, column)).Some? ==>
      && Seen(root, cache, (h, column)).value == FstOf(file, column)
      && (h in counts ==> counts[h] == |file.rowGroups|)
  }

  /** So for every catalogued existing file and every column that an equality filter names. */
  ghost predicate EngineFresh(root: Root, cache: map<SetKey, Fst>, order: seq<string>, fileMap: map<string, string>,
                              counts: map<string, U64>, data: Data, filters: seq<Expr>)
    requires forall h :: h in order ==> h in fileMap
  {
    forall h, f :: h in order && fileMap[h] in data && f in filters && ExtractEquality(f).Some? ==>
      SeenRight(root, cache, counts, h, ExtractEquality(f).value.0, data[fileMap[h]])
  }

  ghost predicate CoversSeen(hash: PathHash, root: Root, cache: map<SetKey, Fst>, order: seq<string>,
                             fileMap: map<string, string>, data: Data, f: Expr, p: string)
    requires forall h :: h in order ==> h in fileMap
  {
    && p in data && ExtractEquality(f).Some? && hash(p) in order && fileMap[hash(p)] == p
    && Seen(root, cache, (hash(p), ExtractEquality(f).value.0)).Some?
    && ExtractEquality(f).value.0 in data[p].utf8Columns
  }

  /** Some equality filter is on a string column of the file that the engine has an FST for. */
  ghost predicate CoveredSeen(hash: PathHash, root: Root, cache: map<SetKey, Fst>, order: seq<string>,
                              fileMap: map<string, string>, data: Data, filters: seq<Expr>, p: string)
    requires forall h :: h in order ==> h in fileMap
  {
    exists f :: f in filters && CoversSeen(hash, root, cache, order, fileMap, data, f, p)
  }

  // ---------------------------------------------------------------- as snapshots

  ghost function FileBehind(fst: Fst, column: string): (file: DataFile)
    requires MadeByBuilder(fst, column)
    ensures FstOf(file, column) == fst
  {
    var file :| FstOf(file, column) == fst;
    file
  }

  ghost function SeenNames(root: Root, cache: map<SetKey, Fst>, h: string): set<string> {
    (set k | k in cache && k.0 == h :: k.1) + (if h in root then root[h].fsts.Keys else {})
  }

  lemma SeenNamed(root: Root, cache: map<SetKey, Fst>, h: string, c: string)
    ensures c in SeenNames(root, cache, h) <==> Seen(root, cache, (h, c)).Some?
  {
    if (h, c) in cache {
      assert (h, c).0 == h && (h, c).1 == c;
    }
  }

  ghost function SeenColumns(root: Root, cache: map<SetKey, Fst>, order: seq<string>, h: string)
    : (r: map<string, DataFile>)
    requires AllMadeByBuilder(root, cache, order) && h in order
    ensures forall c :: c in r <==> Seen(root, cache, (h, c)).Some?
    ensures forall c :: c in r ==> Some(FstOf(r[c], c)) == Seen(root, cache, (h, c))
  {
    assert forall c :: c in SeenNames(root, cache, h) <==> Seen(root, cache, (h, c)).Some? by {
      forall c ensures c in SeenNames(root, cache, h) <==> Seen(root, cache, (h, c)).Some? {
        SeenNamed(root, cache, h, c);
      }
    }
    map c | c in SeenNames(root, cache, h) :: FileBehind(Seen(root, cache, (h, c)).value, c)
  }

  ghost function SeenGroups(counts: map<string, U64>, data: Data, h: string, p: string): U64 {
    if h in counts then counts[h] else if p in data then |data[p].rowGroups| else 0
  }

  /** The engine's view as snapshots; the stamps play no part in a query. */
  ghost function SeenSnapshots(hash: PathHash, root: Root, cache: map<SetKey, Fst>, order: seq<string>,
                               fileMap: map<string, string>, counts: map<string, U64>, data: Data): Snapshots
    requires WellCatalogued(hash, order, fileMap) && AllMadeByBuilder(root, cache, order)
  {
    map h | h in order :: fileMap[h] :=
      Snapshot(Stamp(0, 0), SeenGroups(counts, data, h, fileMap[h]), SeenColumns(root, cache, order, h))
  }

  lemma SeenSnapshotAt(hash: PathHash, root: Root, cache: map<SetKey, Fst>, order: seq<string>,
                       fileMap: map<string, string>, counts: map<string, U64>, data: Data, h: string)
    requires WellCatalogued(hash, order, fileMap) && AllMadeByBuilder(root, cache, order) && h in order
    ensures var snaps := SeenSnapshots(hash, root, cache, order, fileMap, counts, data);
            && fileMap[h] in snaps && snaps[fileMap[h]].groups == SeenGroups(counts, data, h, fileMap[h])
            && snaps[fileMap[h]].columns == SeenColumns(root, cache, order, h)
  {
  }

  lemma SeenAsSnapshots(hash: PathHash, root: Root, cache: map<SetKey, Fst>, order: seq<string>,
                        fileMap: map<string, string>, counts: map<string, U64>, data: Data)
    requires WellCatalogued(hash, order, fileMap) && AllMadeByBuilder(root, cache, order)
    ensures var snaps := SeenSnapshots(hash, root, cache, order, fileMap, counts, data);
            && EngineSees(hash, snaps, root, cache, order, fileMap) && CountsSeen(hash, snaps, counts)
  {
    var snaps := SeenSnapshots(hash, root, cache, order, fileMap, counts, data);
    forall p | p in snaps ensures hash(p) in order && fileMap[hash(p)] == p {
      var h :| h in order && fileMap[h] == p;
    }
    forall p, c | p in snaps ensures Seen(root, cache, (hash(p), c)) == SnapshotFst(snaps[p], c) {
      SeenSnapshotAt(hash, root, cache, order, fileMap, counts, data, hash(p));
    }
    forall p | p in snaps && hash(p) in counts ensures counts[hash(p)] == snaps[p].groups {
      SeenSnapshotAt(hash, root, cache, order, fileMap, counts, data, hash(p));
    }
    forall h | h in order ensures fileMap[h] in snaps {
      SeenSnapshotAt(hash, root, cache, order, fileMap, counts, data, h);
    }
  }

  lemma SeenIsFresh(hash: PathHash, root: Root, cache: map<SetKey, Fst>, order: seq<string>,
                    fileMap: map<string, string>, counts: map<string, U64>, data: Data, filters: seq<Expr>, f: Expr)
    requires WellCatalogued(hash, order, fileMap) && AllMadeByBuilder(root, cache, order)
    requires EngineFresh(root, cache, order, fileMap, counts, data, filters) && f in filters
    ensures FreshFrom(SeenSnapshots(hash, root, cache, order, fileMap, counts, data), data, f)
  {
    if ExtractEquality(f).Some? {
      var snaps, c := SeenSnapshots(hash, root, cache, order, fileMap, counts, data), ExtractEquality(f).value.0;
      SeenAsSnapshots(hash, root, cache, order, fileMap, counts, data);
      forall p | IndexedFor(snaps, p, c) && p in data
        ensures snaps[p].groups == |data[p].rowGroups| && SameValues(snaps[p].columns[c], data[p], c)
      {
        SeenSnapshotAt(hash, root, cache, order, fileMap, counts, data, hash(p));
        assert SeenRight(root, cache, counts, hash(p), c, data[p]);
        SameFstIff(snaps[p].columns[c], data[p], c);
      }
    }
  }

  lemma CoveredSeenIff(hash: PathHash, root: Root, cache: map<SetKey, Fst>, order: seq<string>,
                       fileMap: map<string, string>, counts: map<string, U64>, data: Data, filters: seq<Expr>,
                       p: string)
    requires WellCatalogued(hash, order, fileMap) && AllMadeByBuilder(root, cache, order)
    ensures CoveredSeen(hash, root, cache, order, fileMap, data, filters, p)
       <==> Covered(SeenSnapshots(hash, root, cache, order, fileMap, counts, data), data, filters, p)
  {
    var snaps := SeenSnapshots(hash, root, cache, order, fileMap, counts, data);
    SeenAsSnapshots(hash, root, cache, order, fileMap, counts, data);
    forall f | f in filters
      ensures CoversSeen(hash, root, cache, order, fileMap, data, f, p) <==> CoveredBy(snaps, data, f, p)
    {
      if hash(p) in order && fileMap[hash(p)] == p {
        SeenSnapshotAt(hash, root, cache, order, fileMap, counts, data, hash(p));
      }
    }
  }

  /** For any engine, whenever it was opened and whatever it has resident, that is fresh on the columns the
      equality filters name: never a row too many, and the rows of a full scan exactly when every file with
      a passing row is catalogued and has an FST in the engine's eyes for the string column of some
      equality filter. */
  lemma EngineRowsIff(hash: PathHash, data: Data, root: Root, cache: map<SetKey, Fst>, order: seq<string>,
                      fileMap: map<string, string>, counts: map<string, U64>, filters: seq<Expr>,
                      rowGroups: map<string, seq<nat>>, paths: map<string, string>, visit: seq<string>,
                      all: seq<string>)
    requires WellCatalogued(hash, order, fileMap) && AllMadeByBuilder(root, cache, order)
    requires EngineFresh(root, cache, order, fileMap, counts, data, filters)
    requires IsPruned(hash, AllHits(root, cache, fileMap, order, filters), rowGroups, paths)
    requires Sorting.Distinct(visit) && forall k :: k in visit <==> k in rowGroups
    requires Lists(all, data)
    ensures Fits(Plans(visit, rowGroups, paths, counts, data), data)
    ensures ScannedRows(Plans(visit, rowGroups, paths, counts, data), data, filters)
         <= RowTotals.Sum(all, PassingRows(data, filters))
    ensures ScannedRows(Plans(visit, rowGroups, paths, counts, data), data, filters)
         == RowTotals.Sum(all, PassingRows(data, filters))
       <==> forall p :: p in data && PassingRows(data, filters)[p] != multiset{}
                        ==> CoveredSeen(hash, root, cache, order, fileMap, data, filters, p)
  {
    var snaps := SeenSnapshots(hash, root, cache, order, fileMap, counts, data);
    SeenAsSnapshots(hash, root, cache, order, fileMap, counts, data);
    forall f | f in filters ensures FreshFrom(snaps, data, f) {
      SeenIsFresh(hash, root, cache, order, fileMap, counts, data, filters, f);
    }
    forall p | p in data
      ensures CoveredSeen(hash, root, cache, order, fileMap, data, filters, p) <==> Covered(snaps, data, filters, p)
    {
      CoveredSeenIff(hash, root, cache, order, fileMap, counts, data, filters, p);
    }
    PruningPreservesRowsIff(hash, snaps, data, root, cache, order, fileMap, counts, filters, rowGroups, paths, visit,
                            all);
  }

  // ---------------------------------------------------------------- kept open through a run

  ghost function TrackAt(events: seq<Event>, i: nat): Track
    requires i <= |events|
  {
    Tracked(events[..i])
  }

  lemma TrackStep(events: seq<Event>, i: nat)
    requires i < |events|
    ensures TrackAt(events, i + 1) == Step(TrackAt(events, i), events[i])
  {
    assert events[..i + 1][..i] == events[..i];
  }

  lemma InOrderUpTo(hash: PathHash, events: seq<Event>, i: nat)
    requires PathsInOrder(hash, events) && i <= |events|
    ensures PathsInOrder(hash, events[..i])
  {
    assert Written(events[..i]) <= Written(events);
  }

  ghost function RunAt(hash: PathHash, events: seq<Event>, i: nat): (s: State)
    requires PathsInOrder(hash, events) && i <= |events|
    ensures PathsInOrder(hash, events[..i]) && s == Run(hash, events[..i])
  {
    InOrderUpTo(hash, events, i);
    Run(hash, events[..i])
  }

  ghost predicate NotWritten(events: seq<Event>, i: nat, j: nat, p: string)
    requires i <= j <= |events|
  {
    forall k :: i <= k < j ==> !(events[k].Write? && events[k].path == p)
  }

  lemma {:induction false} VersionStays(events: seq<Event>, i: nat, j: nat, p: string)
    requires i <= j <= |events| && NotWritten(events, i, j, p) && p in TrackAt(events, j).data
    ensures p in TrackAt(events, i).data && TrackAt(events, i).data[p] == TrackAt(events, j).data[p]
    decreases j - i
  {
    if i < j {
      TrackStep(events, j - 1);
      VersionStays(events, i, j - 1, p);
    }
  }

  /** The column's FST, if the path has one, is that of the file's present values. */
  ghost predicate ColumnRight(t: Track, p: string, c: string)
    requires p in t.data
  {
    IndexedFor(t.snaps, p, c) ==> SameValues(t.snaps[p].columns[c], t.data[p].content, c)
  }

  lemma StepKeepsColumnRight(t: Track, e: Event, p: string, c: string)
    requires p in t.data && ColumnRight(t, p, c) && p in Step(t, e).data && !(e.Write? && e.path == p)
    ensures ColumnRight(Step(t, e), p, c)
  {
  }

  /** It stays so while the file is not written, whatever is built and pruned. */
  lemma {:induction false} ColumnStaysRight(events: seq<Event>, i: nat, j: nat, p: string, c: string)
    requires i <= j <= |events| && NotWritten(events, i, j, p) && p in TrackAt(events, j).data
    requires p in TrackAt(events, i).data && ColumnRight(TrackAt(events, i), p, c)
    ensures ColumnRight(TrackAt(events, j), p, c)
    decreases j - i
  {
    if i < j {
      TrackStep(events, j - 1);
      VersionStays(events, j - 1, j, p);
      ColumnStaysRight(events, i, j - 1, p, c);
      StepKeepsColumnRight(TrackAt(events, j - 1), events[j - 1], p, c);
    }
  }

  /** Every resident FST was on disk at some point since the opening. Writing an FST over a resident one
      makes no difference to that where the same keys are written, as they are for the files and columns
      the theorem below is about. */
  ghost predicate LoadedSince(hash: PathHash, events: seq<Event>, opening: nat, cache: map<SetKey, Fst>)
    requires PathsInOrder(hash, events) && opening <= |events|
  {
    forall k :: k in cache ==>
      exists i :: opening <= i <= |events| && OnDisk(RunAt(hash, events, i).root, k) == Some(cache[k])
  }

  /** What the engine sees of a key was on disk then or is now. */
  lemma SeenWasOnDisk(hash: PathHash, events: seq<Event>, opening: nat, cache: map<SetKey, Fst>, k: SetKey)
    returns (i: nat)
    requires PathsInOrder(hash, events) && opening <= |events| && LoadedSince(hash, events, opening, cache)
    requires Seen(Run(hash, events).root, cache, k).Some?
    ensures opening <= i <= |events|
    ensures OnDisk(RunAt(hash, events, i).root, k) == Seen(Run(hash, events).root, cache, k)
  {
    if k in cache {
      i :| opening <= i <= |events| && OnDisk(RunAt(hash, events, i).root, k) == Some(cache[k]);
    } else {
      i := |events|;
      assert events[..i] == events;
    }
  }

  lemma SeenMadeByBuilder(hash: PathHash, events: seq<Event>, opening: nat, cache: map<SetKey, Fst>, k: SetKey)
    requires PathsInOrder(hash, events) && opening <= |events| && LoadedSince(hash, events, opening, cache)
    requires Seen(Run(hash, events).root, cache, k).Some?
    ensures MadeByBuilder(Seen(Run(hash, events).root, cache, k).value, k.1)
  {
    var i := SeenWasOnDisk(hash, events, opening, cache, k);
    InOrderUpTo(hash, events, i);
    var path, v := EveryFstIsOfAVersion(hash, events[..i], k.0, k.1);
  }

  lemma DiskOfTrack(hash: PathHash, events: seq<Event>, p: string, c: string)
    requires PathsInOrder(hash, events) && p in Tracked(events).data
    ensures OnDisk(Run(hash, events).root, (hash(p), c))
         == if p in Tracked(events).snaps then SnapshotFst(Tracked(events).snaps[p], c) else None
  {
    var t := Tracked(events);
    RunIsTracked(hash, events);
    TrackedPaths(events);
    InjectiveOnFewer(hash, Written(events), t.snaps.Keys + {p});
    if p in t.snaps {
      RenderedFst(hash, t.snaps, p, c);
    } else {
      FstsRendered(hash, t.snaps, p);
    }
  }

  /** So whatever the engine sees of a file that was right at the opening and has not been written since is
      right now. */
  lemma SeenStaysRight(hash: PathHash, events: seq<Event>, opening: nat, cache: map<SetKey, Fst>, p: string, c: string)
    requires PathsInOrder(hash, events) && opening <= |events| && LoadedSince(hash, events, opening, cache)
    requires p in Tracked(events).data && NotWritten(events, opening, |events|, p)
    requires p in TrackAt(events, opening).data ==> ColumnRight(TrackAt(events, opening), p, c)
    requires Seen(Run(hash, events).root, cache, (hash(p), c)).Some?
    ensures Seen(Run(hash, events).root, cache, (hash(p), c)).value == FstOf(Tracked(events).data[p].content, c)
  {
    var n := |events|;
    assert events[..n] == events;
    var i := SeenWasOnDisk(hash, events, opening, cache, (hash(p), c));
    VersionStays(events, opening, n, p);
    VersionStays(events, i, n, p);
    ColumnStaysRight(events, opening, i, p, c);
    InOrderUpTo(hash, events, i);
    DiskOfTrack(hash, events[..i], p, c);
    SameFstIff(TrackAt(events, i).snaps[p].columns[c], Tracked(events).data[p].content, c);
  }

  /** The row-group counts recorded are those of the files. */
  ghost predicate CountsRight(hash: PathHash, events: seq<Event>)
    requires InjectiveOn(hash, Written(events))
  {
    var s := Run(hash, events);
    forall p :: p in s.data && LastTouched(hash, events, p).Some? ==>
      |LastTouched(hash, events, p).value.content.rowGroups| == |s.data[p].content.rowGroups|
  }

  /** An engine opened at that point of the run and queried at its end. */
  ghost predicate KeptOpen(hash: PathHash, events: seq<Event>, opening: nat, filters: seq<Expr>, e: Opening)
    requires PathsInOrder(hash, events) && opening <= |events|
  {
    var start, now := RunAt(hash, events, opening), Run(hash, events);
    && Catalogued(start.root, e.order, e.fileMap) && CountsOf(start.root, e.counts)
    && LoadedSince(hash, events, opening, e.cache)
    && IsPruned(hash, AllHits(now.root, e.cache, e.fileMap, e.order, filters), e.rowGroups, e.paths)
    && Sorting.Distinct(e.visit) && (forall k :: k in e.visit <==> k in e.rowGroups)
    && Lists(e.all, Contents(now.data))
  }

  lemma OpenedCatalogue(hash: PathHash, events: seq<Event>, order: seq<string>, fileMap: map<string, string>,
                        counts: map<string, U64>, h: string)
    requires PathsInOrder(hash, events) && h in order
    requires Catalogued(Run(hash, events).root, order, fileMap) && CountsOf(Run(hash, events).root, counts)
    ensures h in fileMap && hash(fileMap[h]) == h && fileMap[h] in Tracked(events).snaps
    ensures h in counts && counts[h] == Tracked(events).snaps[fileMap[h]].groups
  {
    var snaps := Tracked(events).snaps;
    RunToTrack(hash, events);
    OpenedSees(hash, snaps, map[], order, fileMap);
    RecordedCount(hash, snaps, counts, fileMap[h]);
  }

  lemma RightAtOpening(hash: PathHash, events: seq<Event>, p: string, c: string)
    requires PathsInOrder(hash, events) && p in Tracked(events).data && LogRight(hash, events, c)
    ensures ColumnRight(Tracked(events), p, c)
  {
    LogRightIsFresh(hash, events, c);
  }

  lemma CountAtOpening(hash: PathHash, events: seq<Event>, p: string)
    requires PathsInOrder(hash, events) && p in Tracked(events).data && p in Tracked(events).snaps
    requires CountsRight(hash, events)
    ensures Tracked(events).snaps[p].groups == |Tracked(events).data[p].content.rowGroups|
  {
    RunIsTracked(hash, events);
    LoggedAlong(hash, events, p, "");
  }

  ghost function RunUpTo(hash: PathHash, events: seq<Event>, i: nat): (r: seq<Event>)
    requires PathsInOrder(hash, events) && i <= |events|
    ensures r == events[..i] && PathsInOrder(hash, r)
  {
    InOrderUpTo(hash, events, i);
    events[..i]
  }

  lemma KeptCount(hash: PathHash, events: seq<Event>, opening: nat, order: seq<string>, fileMap: map<string, string>,
                  counts: map<string, U64>, h: string)
    requires PathsInOrder(hash, events) && opening <= |events|
    requires Catalogued(RunAt(hash, events, opening).root, order, fileMap)
    requires CountsOf(RunAt(hash, events, opening).root, counts)
    requires CountsRight(hash, RunUpTo(hash, events, opening))
    requires h in order && fileMap[h] in Tracked(events).data && NotWritten(events, opening, |events|, fileMap[h])
    ensures hash(fileMap[h]) == h && fileMap[h] in TrackAt(events, opening).data
    ensures h in counts && counts[h] == |Tracked(events).data[fileMap[h]].content.rowGroups|
  {
    var start := RunUpTo(hash, events, opening);
    OpenedCatalogue(hash, start, order, fileMap, counts, h);
    assert events[..|events|] == events;
    VersionStays(events, opening, |events|, fileMap[h]);
    CountAtOpening(hash, start, fileMap[h]);
  }

  lemma KeptSeenRight(hash: PathHash, events: seq<Event>, opening: nat, e: Opening, h: string, c: string)
    requires PathsInOrder(hash, events) && opening <= |events| && LoadedSince(hash, events, opening, e.cache)
    requires Catalogued(RunAt(hash, events, opening).root, e.order, e.fileMap)
    requires CountsOf(RunAt(hash, events, opening).root, e.counts)
    requires LogRight(hash, RunUpTo(hash, events, opening), c) && CountsRight(hash, RunUpTo(hash, events, opening))
    requires h in e.order && e.fileMap[h] in Tracked(events).data
    requires NotWritten(events, opening, |events|, e.fileMap[h])
    ensures SeenRight(Run(hash, events).root, e.cache, e.counts, h, c, Tracked(events).data[e.fileMap[h]].content)
  {
    KeptCount(hash, events, opening, e.order, e.fileMap, e.counts, h);
    RightAtOpening(hash, RunUpTo(hash, events, opening), e.fileMap[h], c);
    if Seen(Run(hash, events).root, e.cache, (h, c)).Some? {
      SeenStaysRight(hash, events, opening, e.cache, e.fileMap[h], c);
    }
  }

  /** An engine opened at any point of a run where the log is right on the filtered columns, and kept open
      while files come, go, are indexed and pruned, as long as no file it has catalogued is written: at any
      later point it reads never a row too many, and the rows of a full scan exactly when every file with a
      passing row is covered in its eyes; so what it can miss is in files that are new to it. */
  lemma QueryLater(hash: PathHash, events: seq<Event>, opening: nat, filters: seq<Expr>, e: Opening)
    requires PathsInOrder(hash, events) && opening <= |events| && KeptOpen(hash, events, opening, filters, e)
    requires LogRightFor(hash, RunUpTo(hash, events, opening), filters)
    requires CountsRight(hash, RunUpTo(hash, events, opening))
    requires forall k :: opening <= k < |events| && events[k].Write? ==> hash(events[k].path) !in e.order
    ensures var data, root := Contents(Run(hash, events).data), Run(hash, events).root;
            && Fits(Plans(e.visit, e.rowGroups, e.paths, e.counts, data), data)
            && ReadThrough(e, data, filters) <= RowTotals.Sum(e.all, PassingRows(data, filters))
            && (ReadThrough(e, data, filters) == RowTotals.Sum(e.all, PassingRows(data, filters))
                <==> forall p :: p in data && PassingRows(data, filters)[p] != multiset{}
                                 ==> CoveredSeen(hash, root, e.cache, e.order, e.fileMap, data, filters, p))
  {
    var s, start := Run(hash, events), RunUpTo(hash, events, opening);
    RunIsTracked(hash, events);
    forall h | h in e.order ensures h in e.fileMap && hash(e.fileMap[h]) == h {
      OpenedCatalogue(hash, start, e.order, e.fileMap, e.counts, h);
    }
    forall h, c | h in e.order && Seen(s.root, e.cache, (h, c)).Some?
      ensures MadeByBuilder(Seen(s.root, e.cache, (h, c)).value, c)
    {
      SeenMadeByBuilder(hash, events, opening, e.cache, (h, c));
    }
    forall h, f | h in e.order && e.fileMap[h] in s.data && f in filters && ExtractEquality(f).Some?
      ensures SeenRight(s.root, e.cache, e.counts, h, ExtractEquality(f).value.0, s.data[e.fileMap[h]].content)
    {
      KeptSeenRight(hash, events, opening, e, h, ExtractEquality(f).value.0);
    }
    EngineRowsIff(hash, Contents(s.data), s.root, e.cache, e.order, e.fileMap, e.counts, filters, e.rowGroups,
                  e.paths, e.visit, e.all);
  }
}
