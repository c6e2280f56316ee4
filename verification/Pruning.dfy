/** `prune_with_fst_index`: from filters to a set of row groups per file. */
module Pruning {
  import opened Filters
  import opened FstSet
  import opened IndexRoot
  import opened Outcomes
  import opened PathMaps
  import opened QueryEngine
  import opened SetSearch
  import Sorting

  /** What one filter contributes: the answer of its exact search, or nothing when it is not an
      equality filter or its search fails. */
  ghost function FilterHits(root: Root, cache: map<SetKey, Fst>, fileMap: map<string, string>, order: seq<string>,
                            f: Expr): seq<FileMatches>
    requires forall h :: h in order ==> h in fileMap
  {
    match ExtractEquality(f)
    case None => []
    case Some(eq) =>
      match SearchResult(root, cache, fileMap, order, eq.0, Exact(eq.1))
      case Err => []
      case Ok(matches) => matches
  }

  ghost function AllHits(root: Root, cache: map<SetKey, Fst>, fileMap: map<string, string>, order: seq<string>,
                         filters: seq<Expr>): seq<FileMatches>
    requires forall h :: h in order ==> h in fileMap
  {
    if filters == [] then [] else
      var n := |filters| - 1;
      AllHits(root, cache, fileMap, order, filters[..n]) + FilterHits(root, cache, fileMap, order, filters[n])
  }

  /** Every file hit at least once, each with the intersection of the row-group sets that hit it. */
  ghost predicate IsIntersection(hash: PathHash, hits: seq<FileMatches>, sets: map<string, set<nat>>) {
    && (forall k :: k in sets <==> exists m :: m in hits && hash(m.path) == k)
    && (forall k, g: nat :: k in sets ==>
          (g in sets[k] <==> forall m :: m in hits && hash(m.path) == k ==> g in m.groups))
  }

  ghost predicate PathsFor(hash: PathHash, hits: seq<FileMatches>, paths: map<string, string>) {
    && (forall k :: k in paths <==> exists m :: m in hits && hash(m.path) == k)
    && (forall k :: k in paths ==> hash(paths[k]) == k && exists m :: m in hits && m.path == paths[k])
  }

  /** One step of the fold: intersect with what is there, or start with the new set. */
  function Merged(sets: map<string, set<nat>>, k: string, groups: set<nat>): map<string, set<nat>> {
    sets[k := if k in sets then set g | g in sets[k] && g in groups else groups]
  }

  lemma MergeStep(hash: PathHash, hits: seq<FileMatches>, sets: map<string, set<nat>>, m: FileMatches)
    requires IsIntersection(hash, hits, sets)
    ensures IsIntersection(hash, hits + [m], Merged(sets, hash(m.path), set g | g in m.groups))
  {
    var now := Merged(sets, hash(m.path), set g | g in m.groups);
    var all := hits + [m];
    assert forall x :: x in all <==> x in hits || x == m;
    forall k ensures k in now <==> exists x :: x in all && hash(x.path) == k {
      if k in sets {
        var x :| x in hits && hash(x.path) == k;
        assert x in all;
      }
      if k == hash(m.path) {
        assert m in all;
      }
    }
    forall k, g: nat | k in now
      ensures g in now[k] <==> forall x :: x in all && hash(x.path) == k ==> g in x.groups
    {
      if k == hash(m.path) {
        assert m in all;
        assert k !in sets ==> forall x :: x in hits ==> hash(x.path) != k;
      }
    }
  }

  lemma PathStep(hash: PathHash, hits: seq<FileMatches>, paths: map<string, string>, m: FileMatches)
    requires PathsFor(hash, hits, paths)
    ensures PathsFor(hash, hits + [m], paths[hash(m.path) := m.path])
  {
    var all := hits + [m];
    assert forall x :: x in all <==> x in hits || x == m;
    assert m in all;
    forall k | k in paths ensures exists x :: x in all && x.path == paths[k] {
      var x :| x in hits && x.path == paths[k];
      assert x in all;
    }
  }

  /** Fold the hits of all filters, in any order the searches give them. */
  method MergeHits(hash: PathHash, matches: seq<FileMatches>, ghost before: seq<FileMatches>,
                   sets0: map<string, set<nat>>, paths0: map<string, string>)
    returns (sets: map<string, set<nat>>, paths: map<string, string>)
    requires IsIntersection(hash, before, sets0) && PathsFor(hash, before, paths0)
    ensures IsIntersection(hash, before + matches, sets) && PathsFor(hash, before + matches, paths)
  {
    sets, paths := sets0, paths0;
    assert before + matches[..0] == before;
    for i := 0 to |matches|
      invariant IsIntersection(hash, before + matches[..i], sets)
      invariant PathsFor(hash, before + matches[..i], paths)
    {
      var m := matches[i];
      var fileHash := hash(m.path);
      MergeStep(hash, before + matches[..i], sets, m);
      PathStep(hash, before + matches[..i], paths, m);
      assert before + matches[..i] + [m] == before + matches[..i + 1];
      var rowGroupSet := set g | g in m.groups;
      paths := paths[fileHash := m.path];
      sets := Merged(sets, fileHash, rowGroupSet);
    }
    assert matches[..|matches|] == matches;
  }

  /** The result: sorted row-group lists keyed by file hash, and the path behind each hash. */
  ghost predicate IsPruned(hash: PathHash, hits: seq<FileMatches>, rowGroups: map<string, seq<nat>>,
                           paths: map<string, string>) {
    && PathsFor(hash, hits, paths)
    && rowGroups.Keys == paths.Keys
    && (forall k :: k in rowGroups ==> Sorting.Ascending(rowGroups[k], Sorting.NatLess))
    && (forall k, g: nat :: k in rowGroups ==>
          (g in rowGroups[k] <==> forall m :: m in hits && hash(m.path) == k ==> g in m.groups))
  }

  method SortAll(sets: map<string, set<nat>>) returns (rowGroups: map<string, seq<nat>>)
    ensures rowGroups.Keys == sets.Keys
    ensures forall k :: k in sets ==> Sorting.Ascending(rowGroups[k], Sorting.NatLess)
    ensures forall k, g: nat :: k in sets ==> (g in rowGroups[k] <==> g in sets[k])
  {
    rowGroups := map[];
    var left := sets.Keys;
    while left != {}
      invariant left <= sets.Keys && rowGroups.Keys == sets.Keys - left
      invariant forall k :: k in rowGroups ==> Sorting.Ascending(rowGroups[k], Sorting.NatLess)
      invariant forall k, g: nat :: k in rowGroups ==> (g in rowGroups[k] <==> g in sets[k])
      decreases left
    {
      var k :| k in left;
      var sorted := Sorting.CollectSorted(sets[k]);
      rowGroups := rowGroups[k := sorted];
      left := left - {k};
    }
  }

  method PruneWithFstIndex(engine: IndexQueryEngine, root: Root, hash: PathHash, filters: seq<Expr>)
    returns (rowGroups: map<string, seq<nat>>, paths: map<string, string>)
    requires engine.Valid()
    modifies engine`fstCache
    ensures IsPruned(hash, AllHits(root, old(engine.fstCache), engine.fileMap, engine.order, filters), rowGroups, paths)
    ensures forall k :: Seen(root, engine.fstCache, k) == Seen(root, old(engine.fstCache), k)
  {
    var sets: map<string, set<nat>> := map[];
    paths := map[];
    ghost var cache := engine.fstCache;
    for i := 0 to |filters|
      invariant IsIntersection(hash, AllHits(root, cache, engine.fileMap, engine.order, filters[..i]), sets)
      invariant PathsFor(hash, AllHits(root, cache, engine.fileMap, engine.order, filters[..i]), paths)
      invariant forall k :: Seen(root, engine.fstCache, k) == Seen(root, cache, k)
    {
      assert filters[..i + 1][..i] == filters[..i];
      ghost var before := AllHits(root, cache, engine.fileMap, engine.order, filters[..i]);
      var extracted := ExtractEquality(filters[i]);
      var matches: seq<FileMatches> := [];
      if extracted.Some? {
        SameAnswers(root, engine.fstCache, cache, engine.fileMap, engine.order, extracted.value.0,
                    Exact(extracted.value.1));
        var results := engine.ExactSearch(root, extracted.value.0, extracted.value.1);
        matches := if results.Ok? then results.value else [];
      }
      assert matches == FilterHits(root, cache, engine.fileMap, engine.order, filters[i]);
      sets, paths := MergeHits(hash, matches, before, sets, paths);
    }
    assert filters[..|filters|] == filters;
    rowGroups := SortAll(sets);
  }

  /** The answers depend only on what is seen, not on which of it is cached. */
  lemma SameAnswers(root: Root, a: map<SetKey, Fst>, b: map<SetKey, Fst>, fileMap: map<string, string>,
                    order: seq<string>, column: string, q: Query)
    requires forall h :: h in order ==> h in fileMap
    requires forall k :: Seen(root, a, k) == Seen(root, b, k)
    ensures SearchResult(root, a, fileMap, order, column, q) == SearchResult(root, b, fileMap, order, column, q)
  {
    assert Answers(root, a, order, column, q) == Answers(root, b, order, column, q);
  }

  ghost predicate FoundBySome(root: Root, cache: map<SetKey, Fst>, fileMap: map<string, string>, order: seq<string>,
                              filters: seq<Expr>, m: FileMatches)
    requires forall h :: h in order ==> h in fileMap
  {
    exists f :: f in filters && m in FilterHits(root, cache, fileMap, order, f)
  }

  lemma OneMoreFilter(root: Root, cache: map<SetKey, Fst>, fileMap: map<string, string>, order: seq<string>,
                      front: seq<Expr>, f: Expr, m: FileMatches)
    requires forall h :: h in order ==> h in fileMap
    ensures FoundBySome(root, cache, fileMap, order, front + [f], m)
       <==> FoundBySome(root, cache, fileMap, order, front, m) || m in FilterHits(root, cache, fileMap, order, f)
  {
    var all := front + [f];
    assert forall x :: x in all <==> x in front || x == f;
    if FoundBySome(root, cache, fileMap, order, front, m) {
      var x :| x in front && m in FilterHits(root, cache, fileMap, order, x);
      assert x in all;
    }
    assert f in all;
  }

  lemma {:induction false} AllHitsMembers(root: Root, cache: map<SetKey, Fst>, fileMap: map<string, string>,
                                          order: seq<string>, filters: seq<Expr>, m: FileMatches)
    requires forall h :: h in order ==> h in fileMap
    ensures m in AllHits(root, cache, fileMap, order, filters)
       <==> FoundBySome(root, cache, fileMap, order, filters, m)
  {
    if filters != [] {
      var n := |filters| - 1;
      AllHitsMembers(root, cache, fileMap, order, filters[..n], m);
      assert filters == filters[..n] + [filters[n]];
      OneMoreFilter(root, cache, fileMap, order, filters[..n], filters[n], m);
    }
  }

  /** The pruned row groups depend on which filters there are, not on their order or repetition. */
  lemma FilterOrderIrrelevant(hash: PathHash, root: Root, cache: map<SetKey, Fst>, fileMap: map<string, string>,
                              order: seq<string>,
                              filters: seq<Expr>, others: seq<Expr>,
                              rowGroups: map<string, seq<nat>>, paths: map<string, string>,
                              rowGroups': map<string, seq<nat>>, paths': map<string, string>)
    requires forall h :: h in order ==> h in fileMap
    requires forall f :: f in filters <==> f in others
    requires IsPruned(hash, AllHits(root, cache, fileMap, order, filters), rowGroups, paths)
    requires IsPruned(hash, AllHits(root, cache, fileMap, order, others), rowGroups', paths')
    ensures rowGroups == rowGroups'
  {
    var hits, hits' := AllHits(root, cache, fileMap, order, filters), AllHits(root, cache, fileMap, order, others);
    forall m ensures m in hits <==> m in hits' {
      AllHitsMembers(root, cache, fileMap, order, filters, m);
      AllHitsMembers(root, cache, fileMap, order, others, m);
    }
    SameHitsSamePruning(hash, hits, hits', rowGroups, paths, rowGroups', paths');
  }

  lemma SameHitsSamePruning(hash: PathHash, hits: seq<FileMatches>, hits': seq<FileMatches>,
                            rowGroups: map<string, seq<nat>>, paths: map<string, string>,
                            rowGroups': map<string, seq<nat>>, paths': map<string, string>)
    requires forall m :: m in hits <==> m in hits'
    requires IsPruned(hash, hits, rowGroups, paths) && IsPruned(hash, hits', rowGroups', paths')
    ensures rowGroups == rowGroups'
  {
    Sorting.NatLessTotal();
    assert forall k :: k in paths <==> k in paths';
    forall k | k in rowGroups ensures rowGroups[k] == rowGroups'[k] {
      Sorting.AscendingUnique(rowGroups[k], rowGroups'[k], Sorting.NatLess);
    }
  }

  /** A filter contributes what its exact search finds; one that is no equality filter, or whose search
      fails, contributes nothing and takes nothing from the others. */
  lemma HitsAreFound(root: Root, cache: map<SetKey, Fst>, fileMap: map<string, string>, order: seq<string>,
                     filters: seq<Expr>, m: FileMatches)
    requires forall h :: h in order ==> h in fileMap
    ensures m in AllHits(root, cache, fileMap, order, filters)
       <==> exists f :: f in filters && FoundByFilter(root, cache, fileMap, order, f, m)
  {
    AllHitsMembers(root, cache, fileMap, order, filters, m);
    forall f ensures m in FilterHits(root, cache, fileMap, order, f)
                <==> FoundByFilter(root, cache, fileMap, order, f, m)
    {
    }
  }

  ghost predicate FoundByFilter(root: Root, cache: map<SetKey, Fst>, fileMap: map<string, string>, order: seq<string>,
                                f: Expr, m: FileMatches)
    requires forall h :: h in order ==> h in fileMap
  {
    && ExtractEquality(f).Some?
    && (var (column, text) := ExtractEquality(f).value;
        var found := SearchResult(root, cache, fileMap, order, column, Exact(text));
        found.Ok? && m in found.value)
  }
}
