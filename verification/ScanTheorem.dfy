/** Filtering the rows the access plans read gives the rows of filtering a full scan, exactly when
    the index covers every file that has such a row. */
module ScanTheorem {
  import opened Corpus
  import opened CorpusSearch
  import opened Decimal
  import opened Filters
  import opened FstSet
  import opened IndexRoot
  import opened Metadata
  import opened Outcomes
  import opened PathMaps
  import opened Pruning
  import opened PruningTheorem
  import opened ScanPlan
  import opened Snapshots
  import opened QueryEngine
  import RowTotals
  import Sorting

  type Data = map<string, DataFile>

  /** Rows of each file that pass the filters, by a full scan. */
  ghost function PassingRows(data: Data, filters: seq<Expr>): map<string, multiset<Row>> {
    map p | p in data :: multiset(Keep(FileRows(data[p].rowGroups), filters))
  }

  /** Each plan is for a file that exists and has one entry per row group of it. */
  ghost predicate Fits(files: seq<PlannedFile>, data: Data) {
    forall f :: f in files ==> f.path in data && |f.plan| == |data[f.path].rowGroups|
  }

  ghost function ScannedRows(files: seq<PlannedFile>, data: Data, filters: seq<Expr>): multiset<Row>
    requires Fits(files, data)
  {
    if files == [] then multiset{} else
      var n := |files| - 1;
      assert files[n] in files;
      ScannedRows(files[..n], data, filters)
      + multiset(Keep(SelectedRows(data[files[n].path].rowGroups, files[n].plan), filters))
  }

  /** What makes the plan of one matched file right: the total is the file's, and every group with
      a passing row is matched. */
  ghost predicate PlanInputsRight(k: string, rowGroups: map<string, seq<nat>>, paths: map<string, string>,
                                  counts: map<string, U64>, data: Data, filters: seq<Expr>) {
    && k in rowGroups && k in paths
    && (paths[k] in data ==>
        && TotalUsed(counts, k, data[paths[k]]) == |data[paths[k]].rowGroups|
        && forall g: nat :: g < |data[paths[k]].rowGroups| && GroupPasses(data[paths[k]].rowGroups[g], filters)
                            ==> g in rowGroups[k])
  }

  lemma PlanRight(k: string, rowGroups: map<string, seq<nat>>, paths: map<string, string>, counts: map<string, U64>,
                  data: Data, filters: seq<Expr>)
    requires PlanInputsRight(k, rowGroups, paths, counts, data, filters)
    ensures var planned := PlanFor(k, rowGroups, paths, counts, data);
            && (paths[k] !in data ==> planned == None)
            && (planned.Some? ==>
                && planned.value.path == paths[k] && |planned.value.plan| == |data[paths[k]].rowGroups|
                && Keep(SelectedRows(data[paths[k]].rowGroups, planned.value.plan), filters)
                == Keep(FileRows(data[paths[k]].rowGroups), filters))
            && (planned.None? && paths[k] in data ==> Keep(FileRows(data[paths[k]].rowGroups), filters) == [])
  {
    if paths[k] in data {
      var groups := data[paths[k]].rowGroups;
      var planned := PlanFor(k, rowGroups, paths, counts, data);
      if planned.Some? {
        SkippingIsLossless(groups, planned.value.plan, filters);
      } else {
        NoPassingGroup(groups, filters);
      }
    }
  }

  ghost function ExistingPaths(visit: seq<string>, paths: map<string, string>, data: Data): seq<string>
    requires forall k :: k in visit ==> k in paths
  {
    if visit == [] then [] else
      var p := paths[visit[|visit| - 1]];
      ExistingPaths(visit[..|visit| - 1], paths, data) + if p in data then [p] else []
  }

  lemma {:induction false} ExistingPathsMembers(visit: seq<string>, paths: map<string, string>, data: Data, p: string)
    requires forall k :: k in visit ==> k in paths
    ensures p in ExistingPaths(visit, paths, data) <==> p in data && exists k :: k in visit && paths[k] == p
  {
    if visit != [] {
      var n := |visit| - 1;
      ExistingPathsMembers(visit[..n], paths, data, p);
      assert forall k :: k in visit <==> k in visit[..n] || k == visit[n];
    }
  }

  lemma {:induction false} ExistingPathsDistinct(hash: PathHash, visit: seq<string>, paths: map<string, string>,
                                                 data: Data)
    requires Sorting.Distinct(visit)
    requires forall k :: k in visit ==> k in paths && hash(paths[k]) == k
    ensures Sorting.Distinct(ExistingPaths(visit, paths, data))
  {
    if visit != [] {
      var n := |visit| - 1;
      ExistingPathsDistinct(hash, visit[..n], paths, data);
      ExistingPathsMembers(visit[..n], paths, data, paths[visit[n]]);
      assert visit[n] in visit;
    }
  }

  lemma ScannedStep(front: seq<PlannedFile>, f: PlannedFile, data: Data, filters: seq<Expr>)
    requires Fits(front, data) && f.path in data && |f.plan| == |data[f.path].rowGroups|
    ensures Fits(front + [f], data)
    ensures ScannedRows(front + [f], data, filters)
         == ScannedRows(front, data, filters) + multiset(Keep(SelectedRows(data[f.path].rowGroups, f.plan), filters))
  {
    assert (front + [f])[..|front|] == front;
  }

  lemma SumStep(front: seq<string>, p: string, rows: map<string, multiset<Row>>)
    requires p in rows && forall q :: q in front ==> q in rows
    ensures RowTotals.Sum(front + [p], rows) == RowTotals.Sum(front, rows) + rows[p]
  {
    assert (front + [p])[..|front|] == front;
  }

  /** Passing rows of one matched file; none when it no longer exists. */
  ghost function PassingAt(path: string, data: Data, filters: seq<Expr>): multiset<Row> {
    if path in data then PassingRows(data, filters)[path] else multiset{}
  }

  lemma PlansStep(visit: seq<string>, rowGroups: map<string, seq<nat>>, paths: map<string, string>,
                  counts: map<string, U64>, data: Data, filters: seq<Expr>)
    requires visit != [] && forall k :: k in visit ==> k in rowGroups && k in paths
    requires PlanInputsRight(visit[|visit| - 1], rowGroups, paths, counts, data, filters)
    requires Fits(Plans(visit[..|visit| - 1], rowGroups, paths, counts, data), data)
    ensures Fits(Plans(visit, rowGroups, paths, counts, data), data)
    ensures ScannedRows(Plans(visit, rowGroups, paths, counts, data), data, filters)
         == ScannedRows(Plans(visit[..|visit| - 1], rowGroups, paths, counts, data), data, filters)
          + PassingAt(paths[visit[|visit| - 1]], data, filters)
  {
    var k := visit[|visit| - 1];
    var front := Plans(visit[..|visit| - 1], rowGroups, paths, counts, data);
    var planned := PlanFor(k, rowGroups, paths, counts, data);
    PlanRight(k, rowGroups, paths, counts, data, filters);
    if planned.Some? {
      ScannedStep(front, planned.value, data, filters);
    } else {
      assert front + [] == front;
    }
  }

  lemma PathsStep(visit: seq<string>, paths: map<string, string>, data: Data, filters: seq<Expr>)
    requires visit != [] && forall k :: k in visit ==> k in paths
    requires forall p :: p in ExistingPaths(visit[..|visit| - 1], paths, data) ==> p in data
    ensures forall p :: p in ExistingPaths(visit, paths, data) ==> p in data
    ensures RowTotals.Sum(ExistingPaths(visit, paths, data), PassingRows(data, filters))
         == RowTotals.Sum(ExistingPaths(visit[..|visit| - 1], paths, data), PassingRows(data, filters))
          + PassingAt(paths[visit[|visit| - 1]], data, filters)
  {
    var p, front := paths[visit[|visit| - 1]], ExistingPaths(visit[..|visit| - 1], paths, data);
    if p in data {
      SumStep(front, p, PassingRows(data, filters));
    } else {
      assert front + [] == front;
    }
  }

  /** The rows all plans read, filtered, are the passing rows of the matched files that exist. */
  lemma {:induction false} ScannedIsSum(visit: seq<string>, rowGroups: map<string, seq<nat>>,
                                        paths: map<string, string>, counts: map<string, U64>, data: Data,
                                        filters: seq<Expr>)
    requires forall k :: k in visit ==> k in rowGroups && k in paths
    requires forall k :: k in visit ==> PlanInputsRight(k, rowGroups, paths, counts, data, filters)
    ensures forall p :: p in ExistingPaths(visit, paths, data) ==> p in data
    ensures Fits(Plans(visit, rowGroups, paths, counts, data), data)
    ensures ScannedRows(Plans(visit, rowGroups, paths, counts, data), data, filters)
         == RowTotals.Sum(ExistingPaths(visit, paths, data), PassingRows(data, filters))
  {
    if visit != [] {
      assert visit[|visit| - 1] in visit;
      ScannedIsSum(visit[..|visit| - 1], rowGroups, paths, counts, data, filters);
      PlansStep(visit, rowGroups, paths, counts, data, filters);
      PathsStep(visit, paths, data, filters);
    }
  }

  /** Where the engine has a row-group count for a path it is the one the snapshot gives. */
  ghost predicate CountsSeen(hash: PathHash, snaps: Snapshots, counts: map<string, U64>) {
    forall p :: p in snaps && hash(p) in counts ==> counts[hash(p)] == snaps[p].groups
  }

  lemma RecordedCount(hash: PathHash, snaps: Snapshots, counts: map<string, U64>, p: string)
    requires InjectiveOn(hash, snaps.Keys) && OneLinePaths(snaps.Keys) && p in snaps
    requires CountsOf(Render(hash, snaps), counts)
    ensures hash(p) in counts && counts[hash(p)] == snaps[p].groups
  {
    assert p in Dirs(snaps) && Dirs(snaps)[p] == DirOf(p, snaps[p]);
    RoundTrip(p, snaps[p].stamp, snaps[p].groups);
  }

  /** An engine just opened on a builder-made directory has the counts recorded there. */
  lemma OpenedCounts(hash: PathHash, snaps: Snapshots, counts: map<string, U64>)
    requires InjectiveOn(hash, snaps.Keys) && OneLinePaths(snaps.Keys) && CountsOf(Render(hash, snaps), counts)
    ensures CountsSeen(hash, snaps, counts)
  {
    forall p | p in snaps ensures hash(p) in counts && counts[hash(p)] == snaps[p].groups {
      RecordedCount(hash, snaps, counts, p);
    }
  }

  lemma TotalRight(hash: PathHash, snaps: Snapshots, data: Data, counts: map<string, U64>, filters: seq<Expr>,
                   p: string)
    requires FreshFor(snaps, data, filters) && CountsSeen(hash, snaps, counts) && Covered(snaps, data, filters, p)
    ensures TotalUsed(counts, hash(p), data[p]) == |data[p].rowGroups|
  {
    var f :| f in filters && CoveredBy(snaps, data, f, p);
    assert FreshFrom(snaps, data, f);
  }

  /** The row-group total used for each covered file is the file's own. */
  ghost predicate TotalsRight(hash: PathHash, snaps: Snapshots, data: Data, counts: map<string, U64>,
                              filters: seq<Expr>)
  {
    forall p :: Covered(snaps, data, filters, p) ==> TotalUsed(counts, hash(p), data[p]) == |data[p].rowGroups|
  }

  lemma TotalsAreRight(hash: PathHash, snaps: Snapshots, data: Data, counts: map<string, U64>, filters: seq<Expr>)
    requires FreshFor(snaps, data, filters) && CountsSeen(hash, snaps, counts)
    ensures TotalsRight(hash, snaps, data, counts, filters)
  {
    forall p | Covered(snaps, data, filters, p) ensures TotalUsed(counts, hash(p), data[p]) == |data[p].rowGroups| {
      TotalRight(hash, snaps, data, counts, filters, p);
    }
  }

  /** The matched file at `p`: covered, and filed under its own hash with groups it has. */
  ghost predicate MatchedRight(hash: PathHash, snaps: Snapshots, data: Data, filters: seq<Expr>,
                               rowGroups: map<string, seq<nat>>, k: string, p: string) {
    && Covered(snaps, data, filters, p) && hash(p) == k && k in rowGroups
    && (forall g: nat :: g in rowGroups[k] ==> g < |data[p].rowGroups|)
  }

  ghost predicate GroupKept(hash: PathHash, rowGroups: map<string, seq<nat>>, paths: map<string, string>,
                            p: string, g: nat) {
    && hash(p) in rowGroups && hash(p) in paths && paths[hash(p)] == p
    && g in rowGroups[hash(p)]
  }

  /** What the pruning hands to the planner: only covered files and groups they have, and every group
      of a covered file that has a passing row. */
  ghost predicate PruningRight(hash: PathHash, snaps: Snapshots, data: Data, filters: seq<Expr>,
                               rowGroups: map<string, seq<nat>>, paths: map<string, string>) {
    && rowGroups.Keys == paths.Keys
    && (forall k :: k in rowGroups && paths[k] in data
          ==> MatchedRight(hash, snaps, data, filters, rowGroups, k, paths[k]))
    && (forall p, g: nat | Covered(snaps, data, filters, p) && g < |data[p].rowGroups| ::
          GroupPasses(data[p].rowGroups[g], filters) ==> GroupKept(hash, rowGroups, paths, p, g))
  }

  lemma PassingGroupKept(hash: PathHash, snaps: Snapshots, data: Data, filters: seq<Expr>,
                         hits: seq<FileMatches>, rowGroups: map<string, seq<nat>>, paths: map<string, string>,
                         p: string, g: nat)
    requires InjectiveOn(hash, snaps.Keys) && FreshFor(snaps, data, filters)
    requires HitsOwed(snaps, filters, hits) && IsPruned(hash, hits, rowGroups, paths)
    requires Covered(snaps, data, filters, p) && g < |data[p].rowGroups| && GroupPasses(data[p].rowGroups[g], filters)
    ensures GroupKept(hash, rowGroups, paths, p, g)
  {
    PassingGroupHit(hash, snaps, data, filters, hits, p, g);
    KeptByAll(hash, hits, rowGroups, paths, p, g);
  }

  lemma PrunedIsRight(hash: PathHash, snaps: Snapshots, data: Data, filters: seq<Expr>,
                      hits: seq<FileMatches>, rowGroups: map<string, seq<nat>>, paths: map<string, string>)
    requires InjectiveOn(hash, snaps.Keys) && FreshFor(snaps, data, filters)
    requires HitsOwed(snaps, filters, hits) && IsPruned(hash, hits, rowGroups, paths)
    ensures PruningRight(hash, snaps, data, filters, rowGroups, paths)
  {
    forall k | k in rowGroups && paths[k] in data
      ensures MatchedRight(hash, snaps, data, filters, rowGroups, k, paths[k])
    {
      KeptIsCovered(hash, snaps, data, filters, hits, rowGroups, paths, k);
    }
    forall p, g: nat | Covered(snaps, data, filters, p) && g < |data[p].rowGroups|
                       && GroupPasses(data[p].rowGroups[g], filters)
      ensures GroupKept(hash, rowGroups, paths, p, g)
    {
      PassingGroupKept(hash, snaps, data, filters, hits, rowGroups, paths, p, g);
    }
  }

  lemma InputsRight(hash: PathHash, snaps: Snapshots, data: Data, counts: map<string, U64>, filters: seq<Expr>,
                    rowGroups: map<string, seq<nat>>, paths: map<string, string>, k: string)
    requires TotalsRight(hash, snaps, data, counts, filters)
    requires PruningRight(hash, snaps, data, filters, rowGroups, paths) && k in rowGroups
    ensures PlanInputsRight(k, rowGroups, paths, counts, data, filters)
  {
    if paths[k] in data {
      var p := paths[k];
      assert MatchedRight(hash, snaps, data, filters, rowGroups, k, p);
      forall g: nat | g < |data[p].rowGroups| && GroupPasses(data[p].rowGroups[g], filters) ensures g in rowGroups[k] {
        assert GroupKept(hash, rowGroups, paths, p, g);
      }
    }
  }

  /** The plan of a matched file reads its matched groups and no others. */
  ghost predicate PlanReads(k: string, rowGroups: map<string, seq<nat>>, paths: map<string, string>,
                            counts: map<string, U64>, data: Data)
    requires k in rowGroups && k in paths
  {
    var planned := PlanFor(k, rowGroups, paths, counts, data);
    if rowGroups[k] == [] then planned == None
    else planned.Some? && forall g: nat :: g in rowGroups[k] <==> g < |planned.value.plan| && planned.value.plan[g]
  }

  lemma PlanExact(k: string, rowGroups: map<string, seq<nat>>, paths: map<string, string>, counts: map<string, U64>,
                  data: Data)
    requires k in rowGroups && k in paths && paths[k] in data
    requires forall g: nat :: g in rowGroups[k] ==> g < TotalUsed(counts, k, data[paths[k]])
    ensures PlanReads(k, rowGroups, paths, counts, data)
  {
    if rowGroups[k] != [] {
      assert rowGroups[k][0] in rowGroups[k];
    }
  }

  /** A file with a passing row is read iff it is covered. */
  lemma ReadIffCovered(hash: PathHash, snaps: Snapshots, data: Data, filters: seq<Expr>,
                       rowGroups: map<string, seq<nat>>, paths: map<string, string>, visit: seq<string>, p: string)
    requires PruningRight(hash, snaps, data, filters, rowGroups, paths)
    requires forall k :: k in visit <==> k in rowGroups
    requires p in data && Keep(FileRows(data[p].rowGroups), filters) != []
    ensures p in ExistingPaths(visit, paths, data) <==> Covered(snaps, data, filters, p)
  {
    ExistingPathsMembers(visit, paths, data, p);
    if k :| k in visit && paths[k] == p {
      assert MatchedRight(hash, snaps, data, filters, rowGroups, k, paths[k]);
    }
    if Covered(snaps, data, filters, p) {
      NoPassingGroup(data[p].rowGroups, filters);
      var g :| 0 <= g < |data[p].rowGroups| && GroupPasses(data[p].rowGroups[g], filters);
      assert GroupKept(hash, rowGroups, paths, p, g);
      assert hash(p) in visit;
    }
  }

  /** A listing without repeats of the files there are. */
  ghost predicate Lists(all: seq<string>, data: Data) {
    Sorting.Distinct(all) && forall p :: p in all <==> p in data
  }

  ghost predicate PassingFilesCovered(snaps: Snapshots, data: Data, filters: seq<Expr>) {
    forall p :: p in data && PassingRows(data, filters)[p] != multiset{} ==> Covered(snaps, data, filters, p)
  }

  /** The files read leave out only files without a passing row iff the passing files are covered. */
  lemma LeftOutIff(hash: PathHash, snaps: Snapshots, data: Data, filters: seq<Expr>,
                   rowGroups: map<string, seq<nat>>, paths: map<string, string>, visit: seq<string>)
    requires PruningRight(hash, snaps, data, filters, rowGroups, paths)
    requires forall k :: k in visit <==> k in rowGroups
    ensures PassingFilesCovered(snaps, data, filters)
       <==> forall p :: p in data && p !in ExistingPaths(visit, paths, data)
                        ==> PassingRows(data, filters)[p] == multiset{}
  {
    var part, rows := ExistingPaths(visit, paths, data), PassingRows(data, filters);
    forall p | p in data && rows[p] != multiset{} ensures p in part <==> Covered(snaps, data, filters, p) {
      ReadIffCovered(hash, snaps, data, filters, rowGroups, paths, visit, p);
    }
  }

  /** The plans read the passing rows of the matched files, each file once. */
  lemma ScanIsSubtotal(hash: PathHash, snaps: Snapshots, data: Data, counts: map<string, U64>, filters: seq<Expr>,
                       rowGroups: map<string, seq<nat>>, paths: map<string, string>, visit: seq<string>,
                       all: seq<string>)
    requires TotalsRight(hash, snaps, data, counts, filters)
    requires PruningRight(hash, snaps, data, filters, rowGroups, paths)
    requires forall k :: k in paths ==> hash(paths[k]) == k
    requires Sorting.Distinct(visit) && forall k :: k in visit <==> k in rowGroups
    requires Lists(all, data)
    ensures Fits(Plans(visit, rowGroups, paths, counts, data), data)
    ensures var scanned, full := ScannedRows(Plans(visit, rowGroups, paths, counts, data), data, filters),
                                 RowTotals.Sum(all, PassingRows(data, filters));
            && scanned <= full
            && (scanned == full <==> forall p :: p in data && p !in ExistingPaths(visit, paths, data)
                                       ==> PassingRows(data, filters)[p] == multiset{})
  {
    forall k | k in visit ensures PlanInputsRight(k, rowGroups, paths, counts, data, filters) {
      InputsRight(hash, snaps, data, counts, filters, rowGroups, paths, k);
    }
    ScannedIsSum(visit, rowGroups, paths, counts, data, filters);
    ExistingPathsDistinct(hash, visit, paths, data);
    RowTotals.SubtotalIff(all, ExistingPaths(visit, paths, data), PassingRows(data, filters));
  }

  lemma HitsAreWhatIsOwed(hash: PathHash, snaps: Snapshots, root: Root, cache: map<SetKey, Fst>, order: seq<string>,
                          fileMap: map<string, string>, filters: seq<Expr>)
    requires EngineSees(hash, snaps, root, cache, order, fileMap)
    ensures HitsOwed(snaps, filters, AllHits(root, cache, fileMap, order, filters))
  {
    forall m
      ensures m in AllHits(root, cache, fileMap, order, filters) <==> exists f :: f in filters && OwedBy(snaps, f, m)
    {
      HitsAreOwed(hash, snaps, root, cache, order, fileMap, filters, m);
    }
  }

  /** What the pruning makes of an engine's answers is right for the data at hand. */
  lemma SeenPruningRight(hash: PathHash, snaps: Snapshots, data: Data, root: Root, cache: map<SetKey, Fst>,
                         order: seq<string>, fileMap: map<string, string>, filters: seq<Expr>,
                         rowGroups: map<string, seq<nat>>, paths: map<string, string>)
    requires EngineSees(hash, snaps, root, cache, order, fileMap) && FreshFor(snaps, data, filters)
    requires IsPruned(hash, AllHits(root, cache, fileMap, order, filters), rowGroups, paths)
    ensures PruningRight(hash, snaps, data, filters, rowGroups, paths)
    ensures forall k :: k in paths ==> hash(paths[k]) == k
  {
    SeenInjective(hash, snaps, root, cache, order, fileMap);
    HitsAreWhatIsOwed(hash, snaps, root, cache, order, fileMap, filters);
    PrunedIsRight(hash, snaps, data, filters, AllHits(root, cache, fileMap, order, filters), rowGroups, paths);
  }

  lemma MatchedPlanExact(hash: PathHash, snaps: Snapshots, data: Data, counts: map<string, U64>, filters: seq<Expr>,
                         rowGroups: map<string, seq<nat>>, paths: map<string, string>, k: string)
    requires TotalsRight(hash, snaps, data, counts, filters) && k in paths
    requires MatchedRight(hash, snaps, data, filters, rowGroups, k, paths[k])
    ensures PlanWithinFile(k, rowGroups, paths, counts, data)
    ensures PlanReads(k, rowGroups, paths, counts, data)
  {
    PlanExact(k, rowGroups, paths, counts, data);
  }

  /** The total used is the file's, and every matched group is below it. */
  ghost predicate PlanWithinFile(k: string, rowGroups: map<string, seq<nat>>, paths: map<string, string>,
                                 counts: map<string, U64>, data: Data)
    requires k in rowGroups && k in paths && paths[k] in data
  {
    && TotalUsed(counts, k, data[paths[k]]) == |data[paths[k]].rowGroups|
    && forall g: nat :: g in rowGroups[k] ==> g < |data[paths[k]].rowGroups|
  }

  /** Access plans are safe and lossless: when the engine sees an index fresh on the filtered columns,
      every group the pruning hands over is a group of its file, below the total used, so the bound check
      drops none and the plan scans exactly the matched groups. */
  lemma PlanIsLossless(hash: PathHash, snaps: Snapshots, data: Data, root: Root, cache: map<SetKey, Fst>,
                       order: seq<string>, fileMap: map<string, string>, counts: map<string, U64>, filters: seq<Expr>,
                       rowGroups: map<string, seq<nat>>, paths: map<string, string>, k: string)
    requires EngineSees(hash, snaps, root, cache, order, fileMap) && CountsSeen(hash, snaps, counts)
    requires FreshFor(snaps, data, filters)
    requires IsPruned(hash, AllHits(root, cache, fileMap, order, filters), rowGroups, paths)
    requires k in rowGroups && paths[k] in data
    ensures PlanWithinFile(k, rowGroups, paths, counts, data)
    ensures PlanReads(k, rowGroups, paths, counts, data)
  {
    TotalsAreRight(hash, snaps, data, counts, filters);
    SeenPruningRight(hash, snaps, data, root, cache, order, fileMap, filters, rowGroups, paths);
    MatchedPlanExact(hash, snaps, data, counts, filters, rowGroups, paths, k);
  }

  /** For any conjunction of filters and any engine that sees an index fresh on the columns they name,
      whenever it was opened: the pruned scan, filtered, yields the same multiset of rows as the full scan,
      filtered, if and only if every file with a passing row is indexed, in the engine's eyes, on the
      string column of at least one equality filter. It never yields a row more. */
  lemma PruningPreservesRowsIff(hash: PathHash, snaps: Snapshots, data: Data, root: Root, cache: map<SetKey, Fst>,
                                order: seq<string>, fileMap: map<string, string>, counts: map<string, U64>,
                                filters: seq<Expr>, rowGroups: map<string, seq<nat>>, paths: map<string, string>,
                                visit: seq<string>, all: seq<string>)
    requires EngineSees(hash, snaps, root, cache, order, fileMap) && CountsSeen(hash, snaps, counts)
    requires FreshFor(snaps, data, filters)
    requires IsPruned(hash, AllHits(root, cache, fileMap, order, filters), rowGroups, paths)
    requires Sorting.Distinct(visit) && forall k :: k in visit <==> k in rowGroups
    requires Lists(all, data)
    ensures Fits(Plans(visit, rowGroups, paths, counts, data), data)
    ensures ScannedRows(Plans(visit, rowGroups, paths, counts, data), data, filters)
         <= RowTotals.Sum(all, PassingRows(data, filters))
    ensures ScannedRows(Plans(visit, rowGroups, paths, counts, data), data, filters)
         == RowTotals.Sum(all, PassingRows(data, filters))
       <==> PassingFilesCovered(snaps, data, filters)
  {
    TotalsAreRight(hash, snaps, data, counts, filters);
    SeenPruningRight(hash, snaps, data, root, cache, order, fileMap, filters, rowGroups, paths);
    LeftOutIff(hash, snaps, data, filters, rowGroups, paths, visit);
    ScanIsSubtotal(hash, snaps, data, counts, filters, rowGroups, paths, visit, all);
  }

  lemma {:induction false} NoEqualityFilterNoHits(root: Root, cache: map<SetKey, Fst>, fileMap: map<string, string>,
                                                  order: seq<string>, filters: seq<Expr>)
    requires forall h :: h in order ==> h in fileMap
    requires forall f :: f in filters ==> ExtractEquality(f).None?
    ensures AllHits(root, cache, fileMap, order, filters) == []
  {
    if filters != [] {
      assert filters[|filters| - 1] in filters;
      NoEqualityFilterNoHits(root, cache, fileMap, order, filters[..|filters| - 1]);
    }
  }

  /** Without a usable equality filter the pruning keeps no file and no row is read, whatever the index
      and the data. */
  lemma NoEqualityFilterReadsNothing(hash: PathHash, root: Root, cache: map<SetKey, Fst>, fileMap: map<string, string>,
                                     order: seq<string>, filters: seq<Expr>, rowGroups: map<string, seq<nat>>,
                                     paths: map<string, string>, visit: seq<string>, counts: map<string, U64>,
                                     data: Data)
    requires forall h :: h in order ==> h in fileMap
    requires forall f :: f in filters ==> ExtractEquality(f).None?
    requires IsPruned(hash, AllHits(root, cache, fileMap, order, filters), rowGroups, paths)
    requires forall k :: k in visit <==> k in rowGroups
    ensures rowGroups == map[] && paths == map[]
    ensures Plans(visit, rowGroups, paths, counts, data) == []
  {
    assert visit != [] ==> visit[0] in visit;
    NoEqualityFilterNoHits(root, cache, fileMap, order, filters);
  }
}
