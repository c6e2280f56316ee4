/** `IndexQueryEngine`: the catalogue read from an index directory, the resident-FST cache, and the
    searches over every indexed file. */
module QueryEngine {
  import opened Decimal
  import opened FstSet
  import opened IndexRoot
  import opened KeyCodec
  import opened Metadata
  import opened Outcomes
  import opened SetSearch
  import Sorting
  import Utf8

  datatype FileMatches = FileMatches(path: string, groups: seq<nat>)

  /** First metadata line, or a name made from the hash when there is none. */
  function DirPath(h: string, dir: IndexDir): string {
    if dir.metadata.Some? && ReadPath(dir.metadata.value).Some?
    then ReadPath(dir.metadata.value).value
    else "file-" + h
  }

  function DirCount(dir: IndexDir): Option<U64> {
    if dir.metadata.Some? then ReadGroupCount(dir.metadata.value) else None
  }

  /** A fourth metadata line that is a number. */
  predicate HasCount(dir: IndexDir) {
    && dir.metadata.Some? && |Lines(dir.metadata.value)| > 3
    && ParseU64(Utf8.Encode(Lines(dir.metadata.value)[3])).Some?
  }

  /** What the engine answers from: a cached FST, as its resident set reads at present, shadows the one
      on disk. */
  function Seen(root: Root, cache: map<SetKey, Fst>, key: SetKey): Option<Fst> {
    if key in cache then Some(cache[key]) else OnDisk(root, key)
  }

  /** Search of one file: `None` when it has no FST for the column or nothing matches. */
  ghost function FileSearch(seen: Option<Fst>, q: Query): Result<Option<seq<nat>>> {
    if seen.None? then Ok(None) else
      match Collect(seen.value, SliceOf(q))
      case Err => Err
      case Ok(groups) => Ok(if groups == [] then None else Some(groups))
  }

  /** A file's search fails when a selected key has a bad group number; otherwise it lists the groups of the
      selected keys in order, if there are any. */
  lemma FileSearchMeaning(seen: Option<Fst>, q: Query)
    ensures FileSearch(seen, q).Err?
       <==> seen.Some? && exists k :: k in seen.value && Selects(SliceOf(q), k) && ParseRowGroup(k) == Malformed
    ensures FileSearch(seen, q).Ok? && FileSearch(seen, q).value.Some? ==>
              var groups := FileSearch(seen, q).value.value;
              && seen.Some? && groups != [] && Sorting.Ascending(groups, Sorting.NatLess)
              && forall g: U64 :: g in groups
                   <==> exists k :: k in seen.value && Selects(SliceOf(q), k) && ParseRowGroup(k) == Group(g)
    ensures FileSearch(seen, q) == Ok(None) && seen.Some? ==>
              forall k :: k in seen.value && Selects(SliceOf(q), k) ==> ParseRowGroup(k) == NoGroup
  {
    if seen.Some? {
      CollectMeaning(seen.value, SliceOf(q));
      if FileSearch(seen, q) == Ok(None) {
        forall k | k in seen.value && Selects(SliceOf(q), k) ensures ParseRowGroup(k) == NoGroup {
          if ParseRowGroup(k).Group? {
            assert ParseRowGroup(k) == Group(ParseRowGroup(k).n);
          }
        }
      }
    }
  }

  type Answer = Result<Option<seq<nat>>>

  ghost function Answers(root: Root, cache: map<SetKey, Fst>, order: seq<string>, column: string,
                         q: Query): map<string, Answer> {
    map h | h in order :: FileSearch(Seen(root, cache, (h, column)), q)
  }

  /** Each file is answered from its resident set, and from the stored one only without it. */
  lemma ResidentFirst(root: Root, cache: map<SetKey, Fst>, order: seq<string>, column: string, q: Query)
    ensures Answers(root, cache, order, column, q)
         == map h | h in order ::
              FileSearch(if (h, column) in cache then Some(cache[(h, column)]) else OnDisk(root, (h, column)), q)
  {
  }

  /** Per-file answers put together in catalogue order; one failing file fails the whole search. */
  function Gather(fileMap: map<string, string>, order: seq<string>, answers: map<string, Answer>)
    : Result<seq<FileMatches>>
    requires forall h :: h in order ==> h in fileMap && h in answers
  {
    if order == [] then Ok([]) else
      var h := order[|order| - 1];
      Appended(Gather(fileMap, order[..|order| - 1], answers), fileMap[h], answers[h])
  }

  /** One file's answer added to those before it. */
  function Appended(front: Result<seq<FileMatches>>, path: string, answer: Answer): Result<seq<FileMatches>> {
    if front.Err? || answer.Err? then Err
    else if answer.value.None? then front
    else Ok(front.value + [FileMatches(path, answer.value.value)])
  }

  /** Search of every catalogued file. */
  ghost function SearchResult(root: Root, cache: map<SetKey, Fst>, fileMap: map<string, string>, order: seq<string>,
                              column: string, q: Query): Result<seq<FileMatches>>
    requires forall h :: h in order ==> h in fileMap
  {
    Gather(fileMap, order, Answers(root, cache, order, column, q))
  }

  ghost predicate HasTerm(fst: Fst, term: string) {
    exists k :: k in fst && Selects(SliceOf(Exact(term)), k)
  }

  ghost function TermHits(fst: Fst, terms: seq<string>): nat {
    if terms == [] then 0 else
      TermHits(fst, terms[..|terms| - 1]) + if HasTerm(fst, terms[|terms| - 1]) then 1 else 0
  }

  ghost function BatchHits(root: Root, cache: map<SetKey, Fst>, order: seq<string>, column: string,
                           terms: seq<string>): nat {
    if order == [] then 0 else
      var n := |order| - 1;
      var seen := Seen(root, cache, (order[n], column));
      BatchHits(root, cache, order[..n], column, terms) + if seen.Some? then TermHits(seen.value, terms) else 0
  }

  /** An engine opened on this index directory, in whatever order its entries were read. */
  ghost predicate Catalogued(root: Root, order: seq<string>, fileMap: map<string, string>) {
    && Sorting.Distinct(order)
    && (forall h :: h in order <==> h in root)
    && (forall h :: h in order ==> h in fileMap && fileMap[h] == DirPath(h, root[h]))
  }

  /** The recorded row-group counts of the index directory. */
  ghost predicate CountsOf(root: Root, counts: map<string, U64>) {
    && (forall h :: h in root ==> (h in counts <==> DirCount(root[h]).Some?))
    && (forall h :: h in counts ==> h in root && counts[h] == DirCount(root[h]).value)
  }

  class IndexQueryEngine {
    const order: seq<string>
    const fileMap: map<string, string>
    const counts: map<string, U64>
    var fstCache: map<SetKey, Fst>

    ghost predicate Valid() {
      Sorting.Distinct(order) && (forall h :: h in order <==> h in fileMap) && counts.Keys <= fileMap.Keys
    }

    /** Read the catalogue of an index directory, its entries in any order. */
    constructor (root: Root)
      ensures Valid() && fstCache == map[]
      ensures Catalogued(root, order, fileMap) && CountsOf(root, counts)
      ensures forall h :: h in root ==>
                && h in fileMap
                && fileMap[h] == if root[h].metadata.None? || Lines(root[h].metadata.value) == [] then "file-" + h
                                 else Lines(root[h].metadata.value)[0]
      ensures forall h :: h in root ==> (h in counts <==> HasCount(root[h]))
      ensures forall h :: h in counts ==>
                && h in root && HasCount(root[h])
                && Some(counts[h]) == ParseU64(Utf8.Encode(Lines(root[h].metadata.value)[3]))
    {
      var entries: seq<string> := [];
      var paths: map<string, string> := map[];
      var groupCounts: map<string, U64> := map[];
      var left := root.Keys;
      while left != {}
        invariant left <= root.Keys && Sorting.Distinct(entries)
        invariant forall h :: h in entries <==> h in root && h !in left
        invariant forall h :: h in paths <==> h in root && h !in left
        invariant forall h :: h in paths ==> paths[h] == DirPath(h, root[h])
        invariant forall h :: h in groupCounts <==> h in root && h !in left && DirCount(root[h]).Some?
        invariant forall h :: h in groupCounts ==> groupCounts[h] == DirCount(root[h]).value
        decreases left
      {
        var h :| h in left;
        assert forall i :: 0 <= i < |entries| ==> entries[i] in entries;
        entries := entries + [h];
        paths := paths[h := DirPath(h, root[h])];
        var count := DirCount(root[h]);
        if count.Some? {
          groupCounts := groupCounts[h := count.value];
        }
        left := left - {h};
      }
      order, fileMap, counts, fstCache := entries, paths, groupCounts, map[];
    }

    /** One cache access: a resident FST is returned as it is, a missing one is loaded and kept. */
    method GetOrLoadSet(root: Root, key: SetKey) returns (loaded: Option<Fst>)
      modifies this`fstCache
      ensures loaded == Seen(root, old(fstCache), key)
      ensures key in old(fstCache) ==> loaded == Some(old(fstCache)[key])
      ensures key !in old(fstCache) ==>
                && (loaded.Some? <==> key.0 in root && key.1 in root[key.0].fsts)
                && (loaded.Some? ==> loaded.value == root[key.0].fsts[key.1])
      ensures fstCache == if loaded.Some? then old(fstCache)[key := loaded.value] else old(fstCache)
      ensures forall k :: Seen(root, fstCache, k) == Seen(root, old(fstCache), k)
    {
      if key in fstCache {
        return Some(fstCache[key]);
      }
      loaded := OnDisk(root, key);
      if loaded.Some? {
        fstCache := fstCache[key := loaded.value];
      }
    }

    method SearchFile(root: Root, h: string, column: string, q: Query) returns (r: Result<Option<seq<nat>>>)
      modifies this`fstCache
      ensures r == FileSearch(Seen(root, old(fstCache), (h, column)), q)
      ensures forall k :: Seen(root, fstCache, k) == Seen(root, old(fstCache), k)
    {
      var loaded := GetOrLoadSet(root, (h, column));
      if loaded.None? {
        return Ok(None);
      }
      var found := ScanSlice(loaded.value, SliceOf(q));
      r := match found
           case Err => Err
           case Ok(groups) => Ok(if groups == [] then None else Some(groups));
    }

    /** Run a search over every catalogued file. Filling the cache never changes an answer. */
    method SearchAll(root: Root, column: string, q: Query) returns (r: Result<seq<FileMatches>>)
      requires Valid()
      modifies this`fstCache
      ensures r == SearchResult(root, old(fstCache), fileMap, order, column, q)
      ensures r == Gather(fileMap, order, map h | h in order ::
                    FileSearch(if (h, column) in old(fstCache) then Some(old(fstCache)[(h, column)])
                               else OnDisk(root, (h, column)), q))
      ensures forall k :: Seen(root, fstCache, k) == Seen(root, old(fstCache), k)
    {
      ghost var answers := Answers(root, fstCache, order, column, q);
      r := Ok([]);
      for i := 0 to |order|
        invariant r == Gather(fileMap, order[..i], answers)
        invariant forall k :: Seen(root, fstCache, k) == Seen(root, old(fstCache), k)
      {
        assert order[..i + 1][..i] == order[..i];
        assert answers[order[i]] == FileSearch(Seen(root, fstCache, (order[i], column)), q);
        var found := SearchFile(root, order[i], column, q);
        r := Appended(r, fileMap[order[i]], found);
      }
      assert order[..|order|] == order;
      ResidentFirst(root, old(fstCache), order, column, q);
    }

    method ExactSearch(root: Root, column: string, term: string) returns (r: Result<seq<FileMatches>>)
      requires Valid()
      modifies this`fstCache
      ensures r == SearchResult(root, old(fstCache), fileMap, order, column, Exact(term))
      ensures forall k :: Seen(root, fstCache, k) == Seen(root, old(fstCache), k)
    {
      r := SearchAll(root, column, Exact(term));
    }

    /** Probe every term against every file's FST, loading each FST once. */
    method ExactSearchMulti(root: Root, column: string, terms: seq<string>) returns (total: nat)
      requires Valid()
      modifies this`fstCache
      ensures total == BatchHits(root, old(fstCache), order, column, terms)
      ensures forall k :: Seen(root, fstCache, k) == Seen(root, old(fstCache), k)
    {
      total := 0;
      for i := 0 to |order|
        invariant total == BatchHits(root, old(fstCache), order[..i], column, terms)
        invariant forall k :: Seen(root, fstCache, k) == Seen(root, old(fstCache), k)
      {
        assert order[..i + 1][..i] == order[..i];
        var loaded := GetOrLoadSet(root, (order[i], column));
        if loaded.Some? {
          var hits := CountTerms(loaded.value, terms);
          total := total + hits;
        }
      }
      assert order[..|order|] == order;
    }

    method CountTerms(fst: Fst, terms: seq<string>) returns (hits: nat)
      ensures hits == TermHits(fst, terms)
    {
      hits := 0;
      for t := 0 to |terms|
        invariant hits == TermHits(fst, terms[..t])
      {
        assert terms[..t + 1][..t] == terms[..t];
        var found := SetHasTerm(fst, terms[t]);
        if found {
          hits := hits + 1;
        }
      }
      assert terms[..|terms|] == terms;
    }
  }
}
