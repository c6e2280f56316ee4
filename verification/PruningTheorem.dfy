/** The rewrite preserves meaning: filtering the pruned scan against filtering the full scan. */
module PruningTheorem {
  import opened Corpus
  import opened CorpusSearch
  import opened Filters
  import opened FstSet
  import opened IndexBuilder
  import opened IndexRoot
  import opened PathMaps
  import opened Pruning
  import opened QueryEngine
  import opened ScanPlan
  import opened SearchMeaning
  import opened SearchTheorems
  import opened SetSearch
  import opened Snapshots

  /** Where the column is indexed for an existing file, the file's present values and row-group count
      are the ones recorded. */
  ghost predicate FreshOn(snaps: Snapshots, data: map<string, DataFile>, column: string) {
    forall p :: IndexedFor(snaps, p, column) && p in data ==>
      && snaps[p].groups == |data[p].rowGroups|
      && SameValues(snaps[p].columns[column], data[p], column)
  }

  ghost predicate FreshFrom(snaps: Snapshots, data: map<string, DataFile>, f: Expr) {
    ExtractEquality(f).Some? ==> FreshOn(snaps, data, ExtractEquality(f).value.0)
  }

  /** The index is fresh on every column that an equality filter names. */
  ghost predicate FreshFor(snaps: Snapshots, data: map<string, DataFile>, filters: seq<Expr>) {
    forall f :: f in filters ==> FreshFrom(snaps, data, f)
  }

  /** Some equality filter is on a column that is indexed for this file and stored as strings in it. */
  ghost predicate Covered(snaps: Snapshots, data: map<string, DataFile>, filters: seq<Expr>, p: string) {
    exists f :: f in filters && CoveredBy(snaps, data, f, p)
  }

  ghost predicate CoveredBy(snaps: Snapshots, data: map<string, DataFile>, f: Expr, p: string) {
    && p in data && ExtractEquality(f).Some?
    && IndexedFor(snaps, p, ExtractEquality(f).value.0)
    && ExtractEquality(f).value.0 in data[p].utf8Columns
  }

  /** A file some filter found, with the row groups that filter's search owes it. */
  ghost predicate OwedBy(snaps: Snapshots, f: Expr, m: FileMatches) {
    && ExtractEquality(f).Some?
    && Owed(snaps, ExtractEquality(f).value.0, Exact(ExtractEquality(f).value.1), m)
  }

  lemma FilterHitsAreOwed(hash: PathHash, snaps: Snapshots, root: Root, cache: map<SetKey, Fst>, order: seq<string>,
                          fileMap: map<string, string>, f: Expr, m: FileMatches)
    requires EngineSees(hash, snaps, root, cache, order, fileMap)
    ensures m in FilterHits(root, cache, fileMap, order, f) <==> OwedBy(snaps, f, m)
  {
    if ExtractEquality(f).Some? {
      var (column, text) := ExtractEquality(f).value;
      SearchOfSeen(hash, snaps, root, cache, order, fileMap, column, Exact(text));
    }
  }

  /** The hits are exactly what the searches of the equality filters owe for the FSTs the engine sees. */
  lemma HitsAreOwed(hash: PathHash, snaps: Snapshots, root: Root, cache: map<SetKey, Fst>, order: seq<string>,
                    fileMap: map<string, string>, filters: seq<Expr>, m: FileMatches)
    requires EngineSees(hash, snaps, root, cache, order, fileMap)
    ensures m in AllHits(root, cache, fileMap, order, filters)
       <==> exists f :: f in filters && OwedBy(snaps, f, m)
  {
    AllHitsMembers(root, cache, fileMap, order, filters, m);
    forall f | f in filters ensures m in FilterHits(root, cache, fileMap, order, f) <==> OwedBy(snaps, f, m) {
      FilterHitsAreOwed(hash, snaps, root, cache, order, fileMap, f, m);
    }
  }

  lemma SeenInjective(hash: PathHash, snaps: Snapshots, root: Root, cache: map<SetKey, Fst>, order: seq<string>,
                      fileMap: map<string, string>)
    requires EngineSees(hash, snaps, root, cache, order, fileMap)
    ensures InjectiveOn(hash, snaps.Keys)
  {
    forall p, q | p in snaps && q in snaps && hash(p) == hash(q) ensures p == q {
      assert fileMap[hash(p)] == p && fileMap[hash(q)] == q;
    }
  }

  /** A row that passes an equality filter puts its group among the filter's matches. */
  lemma PassingRowMatches(file: DataFile, g: nat, row: Row, f: Expr)
    requires g < |file.rowGroups| && row in GroupRows(file.rowGroups[g])
    requires ExtractEquality(f).Some? && Eval(f, row) == Truth(true)
    requires ExtractEquality(f).value.0 in file.utf8Columns
    ensures g in MatchingGroups(file, ExtractEquality(f).value.0, Exact(ExtractEquality(f).value.1))
  {
    var eq := ExtractEquality(f).value;
    ExtractedFilterMeaning(f, row);
    assert Holds(file, eq.0, g, eq.1) && Matches(Exact(eq.1), eq.1, g);
    assert HasMatch(file, eq.0, Exact(eq.1), g);
  }

  /** A file that some filter owes an entry is covered by that filter, and the entry's groups are
      groups the file has. */
  lemma OwedIsCovered(snaps: Snapshots, data: map<string, DataFile>, f: Expr, m: FileMatches)
    requires FreshFrom(snaps, data, f) && m.path in data && OwedBy(snaps, f, m)
    ensures CoveredBy(snaps, data, f, m.path)
    ensures var eq := ExtractEquality(f).value;
            m.groups == SortedGroups(MatchingGroups(data[m.path], eq.0, Exact(eq.1)))
    ensures forall g: nat :: g in m.groups ==> g < |data[m.path].rowGroups|
  {
    var eq := ExtractEquality(f).value;
    SameMatches(snaps[m.path].columns[eq.0], data[m.path], eq.0, Exact(eq.1));
    var g :| g in MatchingGroups(data[m.path], eq.0, Exact(eq.1));
    assert HasMatch(data[m.path], eq.0, Exact(eq.1), g);
  }

  /** A covering filter that some row of the file passes does find the file. */
  lemma CoveredIsOwed(snaps: Snapshots, data: map<string, DataFile>, f: Expr, p: string, g: nat,
                      row: Row) returns (m: FileMatches)
    requires FreshFrom(snaps, data, f) && CoveredBy(snaps, data, f, p)
    requires g < |data[p].rowGroups| && row in GroupRows(data[p].rowGroups[g]) && Eval(f, row) == Truth(true)
    ensures m.path == p && OwedBy(snaps, f, m)
  {
    var eq := ExtractEquality(f).value;
    PassingRowMatches(data[p], g, row, f);
    SameMatches(snaps[p].columns[eq.0], data[p], eq.0, Exact(eq.1));
    m := FileMatches(p, SortedGroups(GroupsFor(snaps, p, eq.0, Exact(eq.1))));
  }

  /** The hits are exactly what the filters owe. */
  ghost predicate HitsOwed(snaps: Snapshots, filters: seq<Expr>, hits: seq<FileMatches>) {
    forall m :: m in hits <==> exists f :: f in filters && OwedBy(snaps, f, m)
  }

  /** Every filter that found the file owes it each group with a passing row. */
  lemma HitHasPassingGroup(snaps: Snapshots, data: map<string, DataFile>, filters: seq<Expr>, f: Expr,
                           m: FileMatches, g: nat)
    requires FreshFrom(snaps, data, f) && f in filters && OwedBy(snaps, f, m)
    requires m.path in data && g < |data[m.path].rowGroups| && GroupPasses(data[m.path].rowGroups[g], filters)
    ensures g in m.groups
  {
    var row :| row in GroupRows(data[m.path].rowGroups[g]) && Passes(filters, row);
    OwedIsCovered(snaps, data, f, m);
    PassingRowMatches(data[m.path], g, row, f);
  }

  /** A covered file with a passing row is found. */
  lemma CoveredFileFound(snaps: Snapshots, data: map<string, DataFile>, filters: seq<Expr>, p: string, g: nat)
    returns (f: Expr, m: FileMatches)
    requires FreshFor(snaps, data, filters)
    requires Covered(snaps, data, filters, p) && g < |data[p].rowGroups| && GroupPasses(data[p].rowGroups[g], filters)
    ensures f in filters && OwedBy(snaps, f, m) && m.path == p
  {
    var row :| row in GroupRows(data[p].rowGroups[g]) && Passes(filters, row);
    f :| f in filters && CoveredBy(snaps, data, f, p);
    m := CoveredIsOwed(snaps, data, f, p, g, row);
  }

  ghost predicate AllHitsKeep(hash: PathHash, hits: seq<FileMatches>, p: string, g: nat) {
    && (exists m :: m in hits && m.path == p)
    && (forall m :: m in hits && hash(m.path) == hash(p) ==> m.path == p && g in m.groups)
  }

  lemma KeptByAll(hash: PathHash, hits: seq<FileMatches>, rowGroups: map<string, seq<nat>>,
                  paths: map<string, string>, p: string, g: nat)
    requires IsPruned(hash, hits, rowGroups, paths) && AllHitsKeep(hash, hits, p, g)
    ensures hash(p) in rowGroups && paths[hash(p)] == p && g in rowGroups[hash(p)]
  {
    var k := hash(p);
    assert k in paths;
    var m :| m in hits && m.path == paths[k];
  }

  /** A group with a passing row in a covered file is in every set that hits the file. */
  lemma PassingGroupHit(hash: PathHash, snaps: Snapshots, data: map<string, DataFile>, filters: seq<Expr>,
                        hits: seq<FileMatches>, p: string, g: nat)
    requires InjectiveOn(hash, snaps.Keys) && FreshFor(snaps, data, filters) && HitsOwed(snaps, filters, hits)
    requires Covered(snaps, data, filters, p) && g < |data[p].rowGroups| && GroupPasses(data[p].rowGroups[g], filters)
    ensures AllHitsKeep(hash, hits, p, g)
  {
    var f, found := CoveredFileFound(snaps, data, filters, p, g);
    assert found in hits;
    forall m | m in hits && hash(m.path) == hash(p) ensures m.path == p && g in m.groups {
      var f' := HitOwed(snaps, filters, hits, m);
      HitHasPassingGroup(snaps, data, filters, f', m, g);
    }
  }

  lemma HitOwed(snaps: Snapshots, filters: seq<Expr>, hits: seq<FileMatches>, m: FileMatches) returns (f: Expr)
    requires HitsOwed(snaps, filters, hits) && m in hits
    ensures f in filters && OwedBy(snaps, f, m) && m.path in snaps
  {
    f :| f in filters && OwedBy(snaps, f, m);
  }

  /** An existing file that was hit is covered, and the hit names groups the file has. */
  lemma HitIsCovered(snaps: Snapshots, data: map<string, DataFile>, filters: seq<Expr>, hits: seq<FileMatches>,
                     m: FileMatches)
    requires FreshFor(snaps, data, filters) && HitsOwed(snaps, filters, hits) && m in hits && m.path in data
    ensures m.path in snaps && Covered(snaps, data, filters, m.path)
    ensures forall g: nat :: g in m.groups ==> g < |data[m.path].rowGroups|
  {
    var f := HitOwed(snaps, filters, hits, m);
    assert FreshFrom(snaps, data, f);
    OwedIsCovered(snaps, data, f, m);
  }

  lemma KeptHasHit(hash: PathHash, hits: seq<FileMatches>, rowGroups: map<string, seq<nat>>,
                   paths: map<string, string>, k: string)
    returns (m: FileMatches)
    requires IsPruned(hash, hits, rowGroups, paths) && k in paths
    ensures m in hits && m.path == paths[k] && hash(m.path) == k
    ensures forall g: nat :: g in rowGroups[k] ==> g in m.groups
  {
    m :| m in hits && m.path == paths[k];
  }

  /** A file the pruning keeps is covered, and its matched groups are groups it has. */
  lemma KeptIsCovered(hash: PathHash, snaps: Snapshots, data: map<string, DataFile>, filters: seq<Expr>,
                      hits: seq<FileMatches>, rowGroups: map<string, seq<nat>>, paths: map<string, string>, k: string)
    requires FreshFor(snaps, data, filters) && HitsOwed(snaps, filters, hits) && IsPruned(hash, hits, rowGroups, paths)
    requires k in paths && paths[k] in data
    ensures paths[k] in snaps && hash(paths[k]) == k
    ensures Covered(snaps, data, filters, paths[k])
    ensures forall g: nat :: g in rowGroups[k] ==> g < |data[paths[k]].rowGroups|
  {
    var m := KeptHasHit(hash, hits, rowGroups, paths, k);
    HitIsCovered(snaps, data, filters, hits, m);
  }

  // ---------------------------------------------------------------- the fold, in terms of the index

  /** The filter's search finds the file. */
  ghost predicate FindsFile(snaps: Snapshots, f: Expr, p: string) {
    && ExtractEquality(f).Some? && IndexedFor(snaps, p, ExtractEquality(f).value.0)
    && GroupsFor(snaps, p, ExtractEquality(f).value.0, Exact(ExtractEquality(f).value.1)) != {}
  }

  /** If the filter's search finds the file, then with this group. */
  ghost predicate AllowsGroup(snaps: Snapshots, f: Expr, p: string, g: nat) {
    FindsFile(snaps, f, p) ==> g in GroupsFor(snaps, p, ExtractEquality(f).value.0, Exact(ExtractEquality(f).value.1))
  }

  lemma FoundIsHit(snaps: Snapshots, filters: seq<Expr>, hits: seq<FileMatches>, f: Expr, p: string)
    returns (m: FileMatches)
    requires HitsOwed(snaps, filters, hits) && f in filters && FindsFile(snaps, f, p)
    ensures m in hits && m.path == p
    ensures forall g: nat :: g in m.groups <==> AllowsGroup(snaps, f, p, g)
  {
    var (column, text) := ExtractEquality(f).value;
    m := FileMatches(p, SortedGroups(GroupsFor(snaps, p, column, Exact(text))));
    assert OwedBy(snaps, f, m);
  }

  lemma HitIsFound(hash: PathHash, snaps: Snapshots, filters: seq<Expr>, hits: seq<FileMatches>, m: FileMatches,
                   p: string) returns (f: Expr)
    requires InjectiveOn(hash, snaps.Keys) && HitsOwed(snaps, filters, hits)
    requires m in hits && p in snaps && hash(m.path) == hash(p)
    ensures f in filters && FindsFile(snaps, f, p) && m.path == p
    ensures forall g: nat :: g in m.groups <==> AllowsGroup(snaps, f, p, g)
  {
    f := HitOwed(snaps, filters, hits, m);
  }

  ghost predicate InEveryHit(hash: PathHash, hits: seq<FileMatches>, k: string, g: nat) {
    forall m :: m in hits && hash(m.path) == k ==> g in m.groups
  }

  ghost predicate AllAllow(snaps: Snapshots, filters: seq<Expr>, p: string, g: nat) {
    forall f :: f in filters ==> AllowsGroup(snaps, f, p, g)
  }

  lemma GroupKeptIff(hash: PathHash, snaps: Snapshots, filters: seq<Expr>, hits: seq<FileMatches>, p: string, g: nat)
    requires InjectiveOn(hash, snaps.Keys) && HitsOwed(snaps, filters, hits) && p in snaps
    ensures InEveryHit(hash, hits, hash(p), g) <==> AllAllow(snaps, filters, p, g)
  {
    if InEveryHit(hash, hits, hash(p), g) {
      forall f | f in filters ensures AllowsGroup(snaps, f, p, g) {
        if FindsFile(snaps, f, p) {
          var m := FoundIsHit(snaps, filters, hits, f, p);
        }
      }
    }
    if AllAllow(snaps, filters, p, g) {
      forall m | m in hits && hash(m.path) == hash(p) ensures g in m.groups {
        var f := HitIsFound(hash, snaps, filters, hits, m, p);
      }
    }
  }

  lemma FileHitIff(hash: PathHash, snaps: Snapshots, filters: seq<Expr>, hits: seq<FileMatches>, p: string)
    requires InjectiveOn(hash, snaps.Keys) && HitsOwed(snaps, filters, hits) && p in snaps
    ensures (exists m :: m in hits && hash(m.path) == hash(p)) <==> exists f :: f in filters && FindsFile(snaps, f, p)
  {
    if f :| f in filters && FindsFile(snaps, f, p) {
      var m := FoundIsHit(snaps, filters, hits, f, p);
    }
    if m :| m in hits && hash(m.path) == hash(p) {
      var f := HitIsFound(hash, snaps, filters, hits, m, p);
    }
  }

  lemma PrunedGroups(hash: PathHash, hits: seq<FileMatches>, rowGroups: map<string, seq<nat>>,
                     paths: map<string, string>, k: string, g: nat)
    requires IsPruned(hash, hits, rowGroups, paths)
    ensures k in rowGroups <==> exists m :: m in hits && hash(m.path) == k
    ensures k in rowGroups ==> (g in rowGroups[k] <==> InEveryHit(hash, hits, k, g))
  {
    assert k in rowGroups <==> k in paths;
  }

  /** The pruning keeps an indexed file exactly when some equality filter finds it, and then exactly the
      row groups that every filter that finds it finds: the intersection over those that hit. */
  lemma KeptGroupsAre(hash: PathHash, snaps: Snapshots, filters: seq<Expr>, hits: seq<FileMatches>,
                      rowGroups: map<string, seq<nat>>, paths: map<string, string>, p: string, g: nat)
    requires InjectiveOn(hash, snaps.Keys) && HitsOwed(snaps, filters, hits)
    requires IsPruned(hash, hits, rowGroups, paths) && p in snaps
    ensures hash(p) in rowGroups <==> exists f :: f in filters && FindsFile(snaps, f, p)
    ensures hash(p) in rowGroups ==> (g in rowGroups[hash(p)] <==> AllAllow(snaps, filters, p, g))
  {
    PrunedGroups(hash, hits, rowGroups, paths, hash(p), g);
    FileHitIff(hash, snaps, filters, hits, p);
    GroupKeptIff(hash, snaps, filters, hits, p, g);
  }

  /** In particular it always keeps the intersection over all the equality filters the file is indexed for. */
  lemma IntersectionKept(hash: PathHash, snaps: Snapshots, filters: seq<Expr>, hits: seq<FileMatches>,
                         rowGroups: map<string, seq<nat>>, paths: map<string, string>, f: Expr, p: string, g: nat)
    requires InjectiveOn(hash, snaps.Keys) && HitsOwed(snaps, filters, hits)
    requires IsPruned(hash, hits, rowGroups, paths)
    requires f in filters && ExtractEquality(f).Some? && IndexedFor(snaps, p, ExtractEquality(f).value.0)
    requires forall f :: f in filters && ExtractEquality(f).Some?
                         && IndexedFor(snaps, p, ExtractEquality(f).value.0) ==>
               g in GroupsFor(snaps, p, ExtractEquality(f).value.0, Exact(ExtractEquality(f).value.1))
    ensures hash(p) in rowGroups && g in rowGroups[hash(p)]
  {
    assert FindsFile(snaps, f, p);
    KeptGroupsAre(hash, snaps, filters, hits, rowGroups, paths, p, g);
  }
}
