/** From a run of file changes and builds to the rows a query returns. */
module EndToEnd {
  import opened ColumnLog
  import opened Corpus
  import opened CorpusSearch
  import opened Decimal
  import opened Filters
  import opened FstSet
  import opened IndexBuilder
  import opened IndexRoot
  import opened Lifecycle
  import opened Outcomes
  import opened PathMaps
  import opened Pruning
  import opened PruningTheorem
  import opened QueryEngine
  import opened ScanPlan
  import opened ScanTheorem
  import opened Snapshots
  import RowTotals
  import Sorting

  /** `scan`: prune with the index, then plan the matched files. */
  method Scan(engine: IndexQueryEngine, root: Root, hash: PathHash, filters: seq<Expr>, data: Data)
    returns (files: seq<PlannedFile>, ghost rowGroups: map<string, seq<nat>>, ghost paths: map<string, string>,
             ghost visit: seq<string>)
    requires engine.Valid()
    modifies engine`fstCache
    ensures IsPruned(hash, AllHits(root, old(engine.fstCache), engine.fileMap, engine.order, filters), rowGroups, paths)
    ensures Sorting.Distinct(visit) && forall k :: k in visit <==> k in rowGroups
    ensures files == Plans(visit, rowGroups, paths, engine.counts, data)
    ensures forall k :: Seen(root, engine.fstCache, k) == Seen(root, old(engine.fstCache), k)
  {
    var groups, hashToPath := PruneWithFstIndex(engine, root, hash, filters);
    rowGroups, paths := groups, hashToPath;
    files, visit := PlanScan(groups, hashToPath, engine.counts, data);
  }

  /** Open an engine on a builder-made index, scan through it, and compare with the full scan: never a
      row too many, and none missing exactly when the index covers every file with a passing row. */
  method QueryThroughIndex(hash: PathHash, root: Root, data: Data, filters: seq<Expr>, ghost snaps: Snapshots,
                           ghost all: seq<string>)
    returns (files: seq<PlannedFile>)
    requires InjectiveOn(hash, snaps.Keys) && OneLinePaths(snaps.Keys)
    requires root == Render(hash, snaps) && FreshFor(snaps, data, filters)
    requires Lists(all, data)
    ensures Fits(files, data)
    ensures ScannedRows(files, data, filters) <= RowTotals.Sum(all, PassingRows(data, filters))
    ensures ScannedRows(files, data, filters) == RowTotals.Sum(all, PassingRows(data, filters))
       <==> PassingFilesCovered(snaps, data, filters)
  {
    var engine := new IndexQueryEngine(root);
    ghost var rowGroups, paths, visit;
    files, rowGroups, paths, visit := Scan(engine, root, hash, filters, data);
    OpenedSees(hash, snaps, map[], engine.order, engine.fileMap);
    OpenedCounts(hash, snaps, engine.counts);
    PruningPreservesRowsIff(hash, snaps, data, root, map[], engine.order, engine.fileMap, engine.counts, filters,
                            rowGroups, paths, visit, all);
  }

  ghost function Contents(data: DataDir): Data {
    map p | p in data :: data[p].content
  }

  // ---------------------------------------------------------------- any run

  /** What the log says of one column of one file is still so. */
  ghost predicate StillRight(indexed: Option<FileVersion>, touched: Option<FileVersion>, now: FileVersion,
                             column: string)
  {
    indexed.Some? ==>
      && touched.Some? && |touched.value.content.rowGroups| == |now.content.rowGroups|
      && SameValues(indexed.value.content, now.content, column)
  }

  ghost predicate LogRight(hash: PathHash, events: seq<Event>, column: string)
    requires InjectiveOn(hash, Written(events))
  {
    var s := Run(hash, events);
    forall p :: p in s.data ==>
      StillRight(LastIndexed(hash, events, p, column), LastTouched(hash, events, p), s.data[p], column)
  }

  /** The log is right on every column that an equality filter names. */
  ghost predicate LogRightFor(hash: PathHash, events: seq<Event>, filters: seq<Expr>)
    requires InjectiveOn(hash, Written(events))
  {
    forall f :: f in filters && ExtractEquality(f).Some? ==> LogRight(hash, events, ExtractEquality(f).value.0)
  }

  /** For that it is enough that the files have the stamps they were indexed at. */
  lemma StampsMakeLogRight(hash: PathHash, events: seq<Event>, column: string)
    requires PathsInOrder(hash, events) && StampsIdentify(events)
    requires forall p :: p in Run(hash, events).data && LastIndexed(hash, events, p, column).Some? ==>
               var stamp, touched := Run(hash, events).data[p].stamp, LastTouched(hash, events, p);
               && LastIndexed(hash, events, p, column).value.stamp == stamp
               && touched.Some? && touched.value.stamp == stamp
    ensures LogRight(hash, events, column)
  {
    var s := Run(hash, events);
    forall p | p in s.data
      ensures StillRight(LastIndexed(hash, events, p, column), LastTouched(hash, events, p), s.data[p], column)
    {
      SameStampSameContent(hash, events, p, column);
    }
  }

  lemma FreshIfLogged(snaps: Snapshots, data: DataDir, p: string, column: string, indexed: Option<FileVersion>,
                      touched: Option<FileVersion>)
    requires p in data && Logged(snaps, p, column, indexed, touched) && StillRight(indexed, touched, data[p], column)
    ensures IndexedFor(snaps, p, column) <==> indexed.Some?
    ensures IndexedFor(snaps, p, column) ==>
              && snaps[p].groups == |data[p].content.rowGroups|
              && SameValues(snaps[p].columns[column], data[p].content, column)
  {
  }

  lemma LogRightIsFresh(hash: PathHash, events: seq<Event>, column: string)
    requires PathsInOrder(hash, events) && LogRight(hash, events, column)
    ensures FreshOn(Tracked(events).snaps, Contents(Tracked(events).data), column)
  {
    var t := Tracked(events);
    RunIsTracked(hash, events);
    forall p | IndexedFor(t.snaps, p, column) && p in t.data
      ensures t.snaps[p].groups == |t.data[p].content.rowGroups|
      ensures SameValues(t.snaps[p].columns[column], t.data[p].content, column)
    {
      LoggedAlong(hash, events, p, column);
      FreshIfLogged(t.snaps, t.data, p, column, LastIndexed(hash, events, p, column), LastTouched(hash, events, p));
    }
  }

  lemma LogRightForIsFresh(hash: PathHash, events: seq<Event>, filters: seq<Expr>)
    requires PathsInOrder(hash, events) && LogRightFor(hash, events, filters)
    ensures FreshFor(Tracked(events).snaps, Contents(Tracked(events).data), filters)
  {
    forall f | f in filters && ExtractEquality(f).Some?
      ensures FreshFrom(Tracked(events).snaps, Contents(Tracked(events).data), f)
    {
      LogRightIsFresh(hash, events, ExtractEquality(f).value.0);
    }
  }

  ghost predicate CoversInRun(hash: PathHash, events: seq<Event>, f: Expr, p: string)
    requires InjectiveOn(hash, Written(events)) && p in Run(hash, events).data
  {
    && ExtractEquality(f).Some?
    && LastIndexed(hash, events, p, ExtractEquality(f).value.0).Some?
    && ExtractEquality(f).value.0 in Run(hash, events).data[p].content.utf8Columns
  }

  /** Some equality filter is on a column the run has indexed for the file and the file stores as strings. */
  ghost predicate CoveredInRun(hash: PathHash, events: seq<Event>, filters: seq<Expr>, p: string)
    requires InjectiveOn(hash, Written(events)) && p in Run(hash, events).data
  {
    exists f :: f in filters && CoversInRun(hash, events, f, p)
  }

  lemma CoveredIff(hash: PathHash, events: seq<Event>, filters: seq<Expr>, p: string)
    requires PathsInOrder(hash, events) && p in Run(hash, events).data
    ensures CoveredInRun(hash, events, filters, p)
       <==> Covered(Tracked(events).snaps, Contents(Run(hash, events).data), filters, p)
  {
    RunIsTracked(hash, events);
    var t := Tracked(events);
    forall f | f in filters ensures CoversInRun(hash, events, f, p) <==> CoveredBy(t.snaps, Contents(t.data), f, p) {
      if ExtractEquality(f).Some? {
        LoggedAlong(hash, events, p, ExtractEquality(f).value.0);
      }
    }
  }

  /** An engine opened on the directory the run leaves, its pruning, and a listing of the files. */
  ghost predicate Opened(hash: PathHash, s: State, filters: seq<Expr>, e: Opening) {
    && Catalogued(s.root, e.order, e.fileMap) && CountsOf(s.root, e.counts) && CacheFaithful(s.root, e.cache)
    && IsPruned(hash, AllHits(s.root, e.cache, e.fileMap, e.order, filters), e.rowGroups, e.paths)
    && Sorting.Distinct(e.visit) && (forall k :: k in e.visit <==> k in e.rowGroups)
    && Lists(e.all, Contents(s.data))
  }

  /** What the engine catalogued and cached, what the pruning kept, the order its files are visited in,
      and all files there are. */
  datatype Opening = Opening(order: seq<string>, fileMap: map<string, string>, counts: map<string, U64>,
                             cache: map<SetKey, Fst>, rowGroups: map<string, seq<nat>>, paths: map<string, string>,
                             visit: seq<string>, all: seq<string>)

  ghost function ReadThrough(e: Opening, data: Data, filters: seq<Expr>): multiset<Row>
    requires forall k :: k in e.visit ==> k in e.rowGroups && k in e.paths
    requires Fits(Plans(e.visit, e.rowGroups, e.paths, e.counts, data), data)
  {
    ScannedRows(Plans(e.visit, e.rowGroups, e.paths, e.counts, data), data, filters)
  }

  lemma QueryOnTrack(hash: PathHash, t: Track, filters: seq<Expr>, e: Opening)
    requires InjectiveOn(hash, t.snaps.Keys) && OneLinePaths(t.snaps.Keys)
    requires FreshFor(t.snaps, Contents(t.data), filters)
    requires Opened(hash, State(t.data, Render(hash, t.snaps)), filters, e)
    ensures Fits(Plans(e.visit, e.rowGroups, e.paths, e.counts, Contents(t.data)), Contents(t.data))
    ensures var read, full := ReadThrough(e, Contents(t.data), filters),
                              RowTotals.Sum(e.all, PassingRows(Contents(t.data), filters));
            read <= full && (read == full <==> PassingFilesCovered(t.snaps, Contents(t.data), filters))
  {
    OpenedSees(hash, t.snaps, e.cache, e.order, e.fileMap);
    OpenedCounts(hash, t.snaps, e.counts);
    PruningPreservesRowsIff(hash, t.snaps, Contents(t.data), Render(hash, t.snaps), e.cache, e.order, e.fileMap,
                            e.counts, filters, e.rowGroups, e.paths, e.visit, e.all);
  }

  lemma RunToTrack(hash: PathHash, events: seq<Event>)
    requires PathsInOrder(hash, events)
    ensures var t := Tracked(events);
            && InjectiveOn(hash, t.snaps.Keys) && OneLinePaths(t.snaps.Keys)
            && Run(hash, events) == State(t.data, Render(hash, t.snaps))
  {
    RunIsTracked(hash, events);
    InjectiveOnFewer(hash, Written(events), Tracked(events).snaps.Keys);
  }

  /** After any run of writes, deletes, prunes and builds of any columns that leaves the log right on the
      filtered columns: the rows read through the index, filtered, are never a row too many, and are
      those of a full scan exactly when every file with a passing row is covered. */
  lemma QueryAfterRun(hash: PathHash, events: seq<Event>, filters: seq<Expr>, e: Opening)
    requires PathsInOrder(hash, events) && LogRightFor(hash, events, filters)
    requires Opened(hash, Run(hash, events), filters, e)
    ensures var data := Contents(Run(hash, events).data);
            && Fits(Plans(e.visit, e.rowGroups, e.paths, e.counts, data), data)
            && ReadThrough(e, data, filters) <= RowTotals.Sum(e.all, PassingRows(data, filters))
            && (ReadThrough(e, data, filters) == RowTotals.Sum(e.all, PassingRows(data, filters))
                <==> forall p :: p in data && PassingRows(data, filters)[p] != multiset{}
                                 ==> CoveredInRun(hash, events, filters, p))
  {
    RunToTrack(hash, events);
    LogRightForIsFresh(hash, events, filters);
    QueryOnTrack(hash, Tracked(events), filters, e);
    var data := Contents(Run(hash, events).data);
    forall p | p in data
      ensures CoveredInRun(hash, events, filters, p) <==> Covered(Tracked(events).snaps, data, filters, p)
    {
      CoveredIff(hash, events, filters, p);
    }
  }

  // ---------------------------------------------------------------- after a build

  /** An equality filter on the column is in the conjunction. */
  ghost predicate FiltersOn(filters: seq<Expr>, column: string) {
    exists f :: f in filters && ExtractEquality(f).Some? && ExtractEquality(f).value.0 == column
  }

  /** No equality filter is on another column. */
  ghost predicate FiltersOnlyOn(filters: seq<Expr>, column: string) {
    forall f :: f in filters && ExtractEquality(f).Some? ==> ExtractEquality(f).value.0 == column
  }

  /** The two safe uses: one column per index directory, or a forced build of the one filtered column. */
  ghost predicate SafeUse(events: seq<Event>, filters: seq<Expr>, column: string, force: bool) {
    OnlyColumn(events, column) || (force && FiltersOnlyOn(filters, column))
  }

  lemma TrackedBuild(events: seq<Event>, column: string, force: bool)
    ensures Tracked(events + [Build(column, force)]) == Step(Tracked(events), Build(column, force))
  {
    var all := events + [Build(column, force)];
    assert all[..|all| - 1] == events;
  }

  lemma FreshOnBuilt(events: seq<Event>, column: string, force: bool)
    requires StampsIdentify(events) && (force || OnlyColumn(events, column))
    ensures var t := Step(Tracked(events), Build(column, force));
            && FreshOn(t.snaps, Contents(t.data), column)
            && forall p :: p in t.data ==> IndexedFor(t.snaps, p, column)
  {
    var t := Step(Tracked(events), Build(column, force));
    forall p | p in t.data ensures TrackCurrent(t, p, column) {
      BuiltTrackCurrent(events, column, force, p);
    }
  }

  lemma OthersNotIndexed(events: seq<Event>, column: string, force: bool, other: string)
    requires OnlyColumn(events, column) && other != column
    ensures FreshOn(Step(Tracked(events), Build(column, force)).snaps,
                    Contents(Step(Tracked(events), Build(column, force)).data), other)
  {
    var all := events + [Build(column, force)];
    TrackedBuild(events, column, force);
    SnapshotsComeFromWrites(all, column);
  }

  lemma FreshAfterBuild(events: seq<Event>, filters: seq<Expr>, column: string, force: bool)
    requires StampsIdentify(events) && SafeUse(events, filters, column, force)
    ensures var t := Step(Tracked(events), Build(column, force));
            && FreshFor(t.snaps, Contents(t.data), filters)
            && forall p :: p in t.data ==> IndexedFor(t.snaps, p, column)
  {
    var t := Step(Tracked(events), Build(column, force));
    FreshOnBuilt(events, column, force);
    forall f | f in filters ensures FreshFrom(t.snaps, Contents(t.data), f) {
      if ExtractEquality(f).Some? && ExtractEquality(f).value.0 != column {
        OthersNotIndexed(events, column, force, ExtractEquality(f).value.0);
      }
    }
  }

  /** Every file with a passing row stores the column as strings. */
  ghost predicate PassingFilesHave(data: Data, filters: seq<Expr>, column: string) {
    forall p :: p in data && PassingRows(data, filters)[p] != multiset{} ==> column in data[p].utf8Columns
  }

  lemma PassingFilesCoveredBy(snaps: Snapshots, data: Data, filters: seq<Expr>, column: string)
    requires FiltersOn(filters, column) && PassingFilesHave(data, filters, column)
    requires forall p :: p in data ==> IndexedFor(snaps, p, column)
    ensures PassingFilesCovered(snaps, data, filters)
  {
    var f :| f in filters && ExtractEquality(f).Some? && ExtractEquality(f).value.0 == column;
    forall p | p in data && PassingRows(data, filters)[p] != multiset{} ensures Covered(snaps, data, filters, p) {
      assert CoveredBy(snaps, data, f, p);
    }
  }

  /** After any run ending in a build, in either of the two safe uses, every query that filters that
      column by equality reads, through the index, exactly the rows a full scan would return, provided the
      files with such a row store the column as strings. */
  lemma QueryAfterBuild(hash: PathHash, events: seq<Event>, column: string, force: bool, filters: seq<Expr>, e: Opening)
    requires PathsInOrder(hash, events + [Build(column, force)]) && StampsIdentify(events)
    requires SafeUse(events, filters, column, force) && FiltersOn(filters, column)
    requires var s := Run(hash, events + [Build(column, force)]);
             Opened(hash, s, filters, e) && PassingFilesHave(Contents(s.data), filters, column)
    ensures var data := Contents(Run(hash, events + [Build(column, force)]).data);
            && Fits(Plans(e.visit, e.rowGroups, e.paths, e.counts, data), data)
            && ReadThrough(e, data, filters) == RowTotals.Sum(e.all, PassingRows(data, filters))
  {
    var run := events + [Build(column, force)];
    TrackedBuild(events, column, force);
    RunToTrack(hash, run);
    FreshAfterBuild(events, filters, column, force);
    var t := Tracked(run);
    PassingFilesCoveredBy(t.snaps, Contents(t.data), filters, column);
    QueryOnTrack(hash, t, filters, e);
  }
}
