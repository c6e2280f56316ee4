/** The engine's answers over a whole index made by the builder. */
module CorpusSearch {
  import opened Corpus
  import opened FstSet
  import opened IndexBuilder
  import opened IndexRoot
  import opened Metadata
  import opened Outcomes
  import opened PathMaps
  import opened QueryEngine
  import opened SearchTheorems
  import opened SetSearch
  import opened Snapshots
  import Sorting

  /** The cache holds nothing but what is on disk. */
  ghost predicate CacheFaithful(root: Root, cache: map<SetKey, Fst>) {
    forall k :: Seen(root, cache, k) == OnDisk(root, k)
  }

  // ---------------------------------------------------------------- one search

  ghost predicate FoundAt(root: Root, cache: map<SetKey, Fst>, fileMap: map<string, string>,
                          column: string, q: Query, h: string, m: FileMatches) {
    h in fileMap && fileMap[h] == m.path && FileSearch(Seen(root, cache, (h, column)), q) == Ok(Some(m.groups))
  }

  lemma {:induction false} GatherMembers(fileMap: map<string, string>, order: seq<string>,
                                         answers: map<string, Answer>, m: FileMatches)
    requires forall h :: h in order ==> h in fileMap && h in answers && answers[h].Ok?
    ensures Gather(fileMap, order, answers).Ok?
    ensures m in Gather(fileMap, order, answers).value
       <==> exists h :: h in order && fileMap[h] == m.path && answers[h] == Ok(Some(m.groups))
  {
    if order != [] {
      var n := |order| - 1;
      GatherMembers(fileMap, order[..n], answers, m);
      assert forall h :: h in order <==> h in order[..n] || h == order[n];
    }
  }

  /** One failing file fails the search, and nothing else does. */
  lemma {:induction false} GatherFailsIff(fileMap: map<string, string>, order: seq<string>,
                                          answers: map<string, Answer>)
    requires forall h :: h in order ==> h in fileMap && h in answers
    ensures Gather(fileMap, order, answers).Err? <==> exists h :: h in order && answers[h].Err?
  {
    if order != [] {
      var n := |order| - 1;
      GatherFailsIff(fileMap, order[..n], answers);
      assert forall h :: h in order <==> h in order[..n] || h == order[n];
    }
  }

  /** What is resident decides: an engine that has every file's set loaded gives the same answers whatever
      the directory holds. */
  lemma ResidentDecides(root: Root, other: Root, cache: map<SetKey, Fst>, fileMap: map<string, string>,
                        order: seq<string>, column: string, q: Query)
    requires forall h :: h in order ==> h in fileMap && (h, column) in cache
    ensures SearchResult(root, cache, fileMap, order, column, q)
         == SearchResult(other, cache, fileMap, order, column, q)
  {
    assert Answers(root, cache, order, column, q) == Answers(other, cache, order, column, q);
  }

  lemma SearchResultMembers(root: Root, cache: map<SetKey, Fst>, fileMap: map<string, string>,
                            order: seq<string>, column: string, q: Query, m: FileMatches)
    requires forall h :: h in order ==> h in fileMap && FileSearch(Seen(root, cache, (h, column)), q).Ok?
    ensures var r := SearchResult(root, cache, fileMap, order, column, q);
            r.Ok? && (m in r.value <==> exists h :: h in order && FoundAt(root, cache, fileMap, column, q, h, m))
  {
    var answers := Answers(root, cache, order, column, q);
    GatherMembers(fileMap, order, answers, m);
    assert forall h :: h in order ==> (FoundAt(root, cache, fileMap, column, q, h, m)
                                       <==> fileMap[h] == m.path && answers[h] == Ok(Some(m.groups)));
  }

  ghost predicate IndexedFor(snaps: Snapshots, path: string, column: string) {
    path in snaps && column in snaps[path].columns
  }

  ghost function GroupsFor(snaps: Snapshots, path: string, column: string, q: Query): set<nat>
    requires IndexedFor(snaps, path, column)
  {
    MatchingGroups(snaps[path].columns[column], column, q)
  }

  /** The entry a search owes: an indexed file with at least one matching row group, and exactly its
      matching row groups in ascending order. */
  ghost predicate Owed(snaps: Snapshots, column: string, q: Query, m: FileMatches) {
    && IndexedFor(snaps, m.path, column)
    && GroupsFor(snaps, m.path, column, q) != {}
    && m.groups == SortedGroups(GroupsFor(snaps, m.path, column, q))
  }

  lemma SnapshotSearch(s: Snapshot, column: string, q: Query)
    requires column in s.columns
    ensures var groups := MatchingGroups(s.columns[column], column, q);
            FileSearch(Some(FstOf(s.columns[column], column)), q)
            == Ok(if groups != {} then Some(SortedGroups(groups)) else None)
  {
    SearchIsExact(s.columns[column], column, q);
    SortedGroupsEmpty(MatchingGroups(s.columns[column], column, q));
  }

  ghost function SnapshotFst(s: Snapshot, column: string): Option<Fst> {
    if column in s.columns then Some(FstOf(s.columns[column], column)) else None
  }

  /** The engine answers from what the snapshots describe: they say which paths it catalogued, and for
      each column of each which file's values the FST holds that is resident or, failing that, on disk.
      It does not matter when the engine was opened and what happened to the directory since. */
  ghost predicate EngineSees(hash: PathHash, snaps: Snapshots, root: Root, cache: map<SetKey, Fst>,
                             order: seq<string>, fileMap: map<string, string>) {
    && Sorting.Distinct(order)
    && (forall h :: h in order ==> h in fileMap && fileMap[h] in snaps && hash(fileMap[h]) == h)
    && (forall p :: p in snaps ==> hash(p) in order && fileMap[hash(p)] == p)
    && (forall p, c :: p in snaps ==> Seen(root, cache, (hash(p), c)) == SnapshotFst(snaps[p], c))
  }

  lemma RenderedName(hash: PathHash, snaps: Snapshots, path: string)
    requires InjectiveOn(hash, snaps.Keys) && OneLinePaths(snaps.Keys) && path in snaps
    ensures hash(path) in Render(hash, snaps) && DirPath(hash(path), Render(hash, snaps)[hash(path)]) == path
  {
    RenderedDir(hash, snaps, path);
    RoundTrip(path, snaps[path].stamp, snaps[path].groups);
  }

  lemma RenderedFst(hash: PathHash, snaps: Snapshots, path: string, column: string)
    requires InjectiveOn(hash, snaps.Keys) && path in snaps
    ensures OnDisk(Render(hash, snaps), (hash(path), column)) == SnapshotFst(snaps[path], column)
  {
    RenderedDir(hash, snaps, path);
  }

  lemma RenderedHash(hash: PathHash, snaps: Snapshots, h: string) returns (path: string)
    requires InjectiveOn(hash, snaps.Keys) && h in Render(hash, snaps)
    ensures path in snaps && hash(path) == h
  {
    path :| path in Dirs(snaps) && hash(path) == h;
  }

  /** An engine just opened on a builder-made directory sees the snapshots of that directory. */
  lemma OpenedSees(hash: PathHash, snaps: Snapshots, cache: map<SetKey, Fst>, order: seq<string>,
                   fileMap: map<string, string>)
    requires InjectiveOn(hash, snaps.Keys) && OneLinePaths(snaps.Keys)
    requires Catalogued(Render(hash, snaps), order, fileMap) && CacheFaithful(Render(hash, snaps), cache)
    ensures EngineSees(hash, snaps, Render(hash, snaps), cache, order, fileMap)
  {
    var root := Render(hash, snaps);
    forall p | p in snaps ensures hash(p) in order && fileMap[hash(p)] == p {
      RenderedName(hash, snaps, p);
    }
    forall h | h in order ensures fileMap[h] in snaps && hash(fileMap[h]) == h {
      var p := RenderedHash(hash, snaps, h);
      RenderedName(hash, snaps, p);
    }
    forall p, c | p in snaps ensures Seen(root, cache, (hash(p), c)) == SnapshotFst(snaps[p], c) {
      RenderedFst(hash, snaps, p, c);
    }
  }

  /** What the search of one catalogued file gives. */
  ghost function OwedAnswer(snaps: Snapshots, path: string, column: string, q: Query): Answer {
    Ok(if IndexedFor(snaps, path, column) && GroupsFor(snaps, path, column, q) != {}
       then Some(SortedGroups(GroupsFor(snaps, path, column, q))) else None)
  }

  lemma SeenAnswer(hash: PathHash, snaps: Snapshots, root: Root, cache: map<SetKey, Fst>, order: seq<string>,
                   fileMap: map<string, string>, path: string, column: string, q: Query)
    requires EngineSees(hash, snaps, root, cache, order, fileMap) && path in snaps
    ensures FileSearch(Seen(root, cache, (hash(path), column)), q) == OwedAnswer(snaps, path, column, q)
  {
    assert Seen(root, cache, (hash(path), column)) == SnapshotFst(snaps[path], column);
    if column in snaps[path].columns {
      SnapshotSearch(snaps[path], column, q);
    }
  }

  /** No file is listed twice. */
  ghost predicate EachFileOnce(found: seq<FileMatches>) {
    forall i, j :: 0 <= i < j < |found| ==> found[i].path != found[j].path
  }

  lemma {:induction false} GatherOnce(hash: PathHash, fileMap: map<string, string>, order: seq<string>,
                                      answers: map<string, Answer>)
    requires forall h :: h in order ==> h in fileMap && h in answers && answers[h].Ok?
    requires Sorting.Distinct(order) && forall h :: h in order ==> hash(fileMap[h]) == h
    ensures Gather(fileMap, order, answers).Ok? && EachFileOnce(Gather(fileMap, order, answers).value)
    ensures forall m :: m in Gather(fileMap, order, answers).value ==> hash(m.path) in order
  {
    if order != [] {
      var n := |order| - 1;
      GatherOnce(hash, fileMap, order[..n], answers);
      assert forall h :: h in order[..n] ==> h in order && h != order[n];
    }
  }

  lemma SeenOnce(hash: PathHash, snaps: Snapshots, root: Root, cache: map<SetKey, Fst>, order: seq<string>,
                 fileMap: map<string, string>, column: string, q: Query)
    requires EngineSees(hash, snaps, root, cache, order, fileMap)
    ensures var r := SearchResult(root, cache, fileMap, order, column, q);
            r.Ok? && EachFileOnce(r.value)
  {
    var answers := Answers(root, cache, order, column, q);
    forall h | h in order ensures answers[h].Ok? {
      SeenAnswer(hash, snaps, root, cache, order, fileMap, fileMap[h], column, q);
    }
    GatherOnce(hash, fileMap, order, answers);
  }

  lemma SeenIsOwed(hash: PathHash, snaps: Snapshots, root: Root, cache: map<SetKey, Fst>, order: seq<string>,
                   fileMap: map<string, string>, column: string, q: Query, m: FileMatches)
    requires EngineSees(hash, snaps, root, cache, order, fileMap)
    ensures var r := SearchResult(root, cache, fileMap, order, column, q);
            r.Ok? && (m in r.value <==> Owed(snaps, column, q, m))
  {
    forall h | h in order ensures FileSearch(Seen(root, cache, (h, column)), q).Ok? {
      SeenAnswer(hash, snaps, root, cache, order, fileMap, fileMap[h], column, q);
    }
    SearchResultMembers(root, cache, fileMap, order, column, q, m);
    if h :| h in order && FoundAt(root, cache, fileMap, column, q, h, m) {
      SeenAnswer(hash, snaps, root, cache, order, fileMap, m.path, column, q);
    }
    if Owed(snaps, column, q, m) {
      SeenAnswer(hash, snaps, root, cache, order, fileMap, m.path, column, q);
      assert FoundAt(root, cache, fileMap, column, q, hash(m.path), m);
    }
  }

  /** Whatever the engine sees of builder-made FSTs, a search never fails and answers exactly what is owed
      for that, each file once. */
  lemma SearchOfSeen(hash: PathHash, snaps: Snapshots, root: Root, cache: map<SetKey, Fst>, order: seq<string>,
                     fileMap: map<string, string>, column: string, q: Query)
    requires EngineSees(hash, snaps, root, cache, order, fileMap)
    ensures var r := SearchResult(root, cache, fileMap, order, column, q);
            r.Ok? && EachFileOnce(r.value) && forall m :: m in r.value <==> Owed(snaps, column, q, m)
  {
    SeenOnce(hash, snaps, root, cache, order, fileMap, column, q);
    var r := SearchResult(root, cache, fileMap, order, column, q);
    forall m ensures m in r.value <==> Owed(snaps, column, q, m) {
      SeenIsOwed(hash, snaps, root, cache, order, fileMap, column, q, m);
    }
  }

  /** A search over a builder-made index never fails and answers exactly what is owed, each file once. */
  lemma SearchOverCorpus(hash: PathHash, snaps: Snapshots, order: seq<string>, fileMap: map<string, string>,
                         cache: map<SetKey, Fst>, column: string, q: Query)
    requires InjectiveOn(hash, snaps.Keys) && OneLinePaths(snaps.Keys)
    requires Catalogued(Render(hash, snaps), order, fileMap) && CacheFaithful(Render(hash, snaps), cache)
    ensures var r := SearchResult(Render(hash, snaps), cache, fileMap, order, column, q);
            r.Ok? && EachFileOnce(r.value) && forall m :: m in r.value <==> Owed(snaps, column, q, m)
  {
    OpenedSees(hash, snaps, cache, order, fileMap);
    SearchOfSeen(hash, snaps, Render(hash, snaps), cache, order, fileMap, column, q);
  }

  /** The entries for these files. */
  function Restricted(found: seq<FileMatches>, files: set<string>): seq<FileMatches> {
    if found == [] then [] else
      var n := |found| - 1;
      Restricted(found[..n], files) + if found[n].path in files then [found[n]] else []
  }

  lemma {:induction false} RestrictedMembers(found: seq<FileMatches>, files: set<string>)
    ensures forall m :: m in Restricted(found, files) <==> m in found && m.path in files
    ensures EachFileOnce(found) ==> EachFileOnce(Restricted(found, files))
  {
    if found != [] {
      var n := |found| - 1;
      RestrictedMembers(found[..n], files);
      assert found == found[..n] + [found[n]];
      assert forall m :: m in found[..n] ==> exists i :: 0 <= i < n && found[i] == m;
    }
  }

  lemma {:induction false} CountedOnce(found: seq<FileMatches>, m: FileMatches)
    requires EachFileOnce(found)
    ensures multiset(found)[m] == if m in found then 1 else 0
  {
    if found != [] {
      var n := |found| - 1;
      CountedOnce(found[..n], m);
      assert found == found[..n] + [found[n]];
    }
  }

  lemma SameListing(a: seq<FileMatches>, b: seq<FileMatches>)
    requires EachFileOnce(a) && EachFileOnce(b) && forall m :: m in a <==> m in b
    ensures multiset(a) == multiset(b)
  {
    forall m ensures multiset(a)[m] == multiset(b)[m] {
      CountedOnce(a, m);
      CountedOnce(b, m);
    }
  }

  lemma OwedAfterPrune(snaps: Snapshots, existing: set<string>, column: string, q: Query, m: FileMatches)
    ensures Owed(Existing(snaps, existing), column, q, m) <==> Owed(snaps, column, q, m) && m.path in existing
  {
    assert m.path in existing && m.path in snaps ==> Existing(snaps, existing)[m.path] == snaps[m.path];
  }

  /** After pruning, a new engine gives the old answers restricted to the files that exist: the same
      entries, each as often as before. */
  lemma SearchAfterPrune(hash: PathHash, snaps: Snapshots, existing: set<string>,
                         order: seq<string>, fileMap: map<string, string>,
                         order': seq<string>, fileMap': map<string, string>, column: string, q: Query)
    requires InjectiveOn(hash, snaps.Keys) && OneLinePaths(snaps.Keys)
    requires Catalogued(Render(hash, snaps), order, fileMap)
    requires Catalogued(Pruned(Render(hash, snaps), existing), order', fileMap')
    ensures var before := SearchResult(Render(hash, snaps), map[], fileMap, order, column, q);
            var after := SearchResult(Pruned(Render(hash, snaps), existing), map[], fileMap', order', column, q);
            before.Ok? && after.Ok? && multiset(after.value) == multiset(Restricted(before.value, existing))
  {
    var kept := Existing(snaps, existing);
    PrunedRendered(hash, snaps, existing);
    SearchOverCorpus(hash, snaps, order, fileMap, map[], column, q);
    SearchOverCorpus(hash, kept, order', fileMap', map[], column, q);
    var before := SearchResult(Render(hash, snaps), map[], fileMap, order, column, q).value;
    var after := SearchResult(Render(hash, kept), map[], fileMap', order', column, q).value;
    RestrictedMembers(before, existing);
    forall m ensures m in after <==> m in before && m.path in existing {
      OwedAfterPrune(snaps, existing, column, q, m);
    }
    SameListing(after, Restricted(before, existing));
  }

  lemma NothingOwedIffAbsent(snaps: Snapshots, p: string, column: string, term: string)
    requires IndexedFor(snaps, p, column) && NulFreeColumn(snaps[p].columns[column], column)
    ensures GroupsFor(snaps, p, column, Exact(term)) == {}
       <==> forall g: nat :: !Holds(snaps[p].columns[column], column, g, term)
  {
    NulFreeHasNoLookalike(snaps[p].columns[column], column, term);
    HoldingIsMatching(snaps[p].columns[column], column, term);
    NoneHolding(snaps[p].columns[column], column, term);
  }

  lemma EmptyIffNothingOwed(snaps: Snapshots, column: string, q: Query, found: seq<FileMatches>)
    requires forall m :: m in found <==> Owed(snaps, column, q, m)
    ensures found == [] <==> forall p :: IndexedFor(snaps, p, column) ==> GroupsFor(snaps, p, column, q) == {}
  {
    if found == [] {
      forall p | IndexedFor(snaps, p, column) ensures GroupsFor(snaps, p, column, q) == {} {
        var m := FileMatches(p, SortedGroups(GroupsFor(snaps, p, column, q)));
        assert m !in found;
      }
    } else {
      assert found[0] in found;
    }
  }

  /** The term is in no row group of any indexed file. */
  ghost predicate Absent(snaps: Snapshots, column: string, term: string) {
    forall p, g: nat :: IndexedFor(snaps, p, column) ==> !Holds(snaps[p].columns[column], column, g, term)
  }

  /** On NUL-free columns an empty answer over the corpus is authoritative: it is given exactly when
      the term occurs in no row group of any indexed file. */
  lemma EmptyAnswerIffAbsent(hash: PathHash, snaps: Snapshots, order: seq<string>, fileMap: map<string, string>,
                             cache: map<SetKey, Fst>, column: string, term: string)
    requires InjectiveOn(hash, snaps.Keys) && OneLinePaths(snaps.Keys)
    requires Catalogued(Render(hash, snaps), order, fileMap) && CacheFaithful(Render(hash, snaps), cache)
    requires forall p :: IndexedFor(snaps, p, column) ==> NulFreeColumn(snaps[p].columns[column], column)
    ensures SearchResult(Render(hash, snaps), cache, fileMap, order, column, Exact(term)) == Ok([])
       <==> Absent(snaps, column, term)
  {
    var r := SearchResult(Render(hash, snaps), cache, fileMap, order, column, Exact(term));
    assert r.Ok? && forall m :: m in r.value <==> Owed(snaps, column, Exact(term), m) by {
      SearchOverCorpus(hash, snaps, order, fileMap, cache, column, Exact(term));
    }
    EmptyIffNothingOwed(snaps, column, Exact(term), r.value);
    forall p | IndexedFor(snaps, p, column)
      ensures GroupsFor(snaps, p, column, Exact(term)) == {}
         <==> forall g: nat :: !Holds(snaps[p].columns[column], column, g, term)
    {
      NothingOwedIffAbsent(snaps, p, column, term);
    }
  }

  // ---------------------------------------------------------------- the batched search

  ghost predicate BuilderMade(root: Root, cache: map<SetKey, Fst>, order: seq<string>, column: string) {
    forall h :: h in order && Seen(root, cache, (h, column)).Some?
      ==> exists file :: Seen(root, cache, (h, column)).value == FstOf(file, column)
  }

  ghost function Hit(seen: Option<Fst>, term: string): nat {
    if seen.Some? && HasTerm(seen.value, term) then 1 else 0
  }

  ghost function FilesWith(root: Root, cache: map<SetKey, Fst>, order: seq<string>, column: string, term: string): nat {
    if order == [] then 0 else
      var n := |order| - 1;
      FilesWith(root, cache, order[..n], column, term) + Hit(Seen(root, cache, (order[n], column)), term)
  }

  /** Number of files the single searches of the terms return, added up with repeats. */
  ghost function SumOfSearches(root: Root, cache: map<SetKey, Fst>, fileMap: map<string, string>, order: seq<string>,
                               column: string, terms: seq<string>): nat
    requires forall h :: h in order ==> h in fileMap
  {
    if terms == [] then 0 else
      var n := |terms| - 1;
      var r := SearchResult(root, cache, fileMap, order, column, Exact(terms[n]));
      SumOfSearches(root, cache, fileMap, order, column, terms[..n]) + if r.Ok? then |r.value| else 0
  }

  /** A file counts for the batched probe exactly when the single search lists it. */
  lemma HitIffListed(root: Root, cache: map<SetKey, Fst>, order: seq<string>, column: string, term: string, h: string)
    requires BuilderMade(root, cache, order, column) && h in order
    ensures var answer := FileSearch(Seen(root, cache, (h, column)), Exact(term));
            answer.Ok? && Hit(Seen(root, cache, (h, column)), term) == if answer.value.Some? then 1 else 0
  {
    var seen := Seen(root, cache, (h, column));
    if seen.Some? {
      var file :| seen.value == FstOf(file, column);
      SearchIsExact(file, column, Exact(term));
      HasTermIffFound(file, column, term);
    }
  }

  lemma {:induction false} GatherLength(root: Root, cache: map<SetKey, Fst>, fileMap: map<string, string>,
                                        order: seq<string>,
                                        column: string, term: string, answers: map<string, Answer>)
    requires forall h :: h in order ==> h in fileMap && h in answers && answers[h].Ok?
    requires forall h :: h in order ==>
               Hit(Seen(root, cache, (h, column)), term) == if answers[h].value.Some? then 1 else 0
    ensures var r := Gather(fileMap, order, answers);
            r.Ok? && |r.value| == FilesWith(root, cache, order, column, term)
  {
    if order != [] {
      assert order[|order| - 1] in order;
      GatherLength(root, cache, fileMap, order[..|order| - 1], column, term, answers);
    }
  }

  lemma FilesWithIsLength(root: Root, cache: map<SetKey, Fst>, fileMap: map<string, string>,
                          order: seq<string>, column: string, term: string)
    requires forall h :: h in order ==> h in fileMap
    requires BuilderMade(root, cache, order, column)
    ensures var r := SearchResult(root, cache, fileMap, order, column, Exact(term));
            r.Ok? && |r.value| == FilesWith(root, cache, order, column, term)
  {
    var answers := Answers(root, cache, order, column, Exact(term));
    forall h | h in order
      ensures answers[h].Ok? && Hit(Seen(root, cache, (h, column)), term) == if answers[h].value.Some? then 1 else 0
    {
      HitIffListed(root, cache, order, column, term, h);
    }
    GatherLength(root, cache, fileMap, order, column, term, answers);
  }

  lemma {:induction false} NoTermsNoHits(root: Root, cache: map<SetKey, Fst>, order: seq<string>, column: string)
    ensures BatchHits(root, cache, order, column, []) == 0
  {
    if order != [] {
      NoTermsNoHits(root, cache, order[..|order| - 1], column);
    }
  }

  /** Adding a term adds its hits in every file. */
  lemma {:induction false} OneMoreTerm(root: Root, cache: map<SetKey, Fst>, order: seq<string>, column: string,
                                       terms: seq<string>)
    requires terms != []
    ensures BatchHits(root, cache, order, column, terms)
         == BatchHits(root, cache, order, column, terms[..|terms| - 1])
          + FilesWith(root, cache, order, column, terms[|terms| - 1])
  {
    if order != [] {
      OneMoreTerm(root, cache, order[..|order| - 1], column, terms);
    }
  }

  /** The batched search counts what the single searches would return, term by term. */
  lemma {:induction false} BatchIsSumOfSearches(root: Root, cache: map<SetKey, Fst>, fileMap: map<string, string>,
                                                order: seq<string>, column: string, terms: seq<string>)
    requires forall h :: h in order ==> h in fileMap
    requires BuilderMade(root, cache, order, column)
    ensures BatchHits(root, cache, order, column, terms) == SumOfSearches(root, cache, fileMap, order, column, terms)
  {
    if terms == [] {
      NoTermsNoHits(root, cache, order, column);
    } else {
      var n := |terms| - 1;
      OneMoreTerm(root, cache, order, column, terms);
      FilesWithIsLength(root, cache, fileMap, order, column, terms[n]);
      BatchIsSumOfSearches(root, cache, fileMap, order, column, terms[..n]);
    }
  }

  /** Every index directory a run produces is builder-made, so the count is right on all of them. */
  lemma RenderedIsBuilderMade(hash: PathHash, snaps: Snapshots, cache: map<SetKey, Fst>, order: seq<string>,
                              column: string)
    requires InjectiveOn(hash, snaps.Keys) && CacheFaithful(Render(hash, snaps), cache)
    ensures BuilderMade(Render(hash, snaps), cache, order, column)
  {
    var root := Render(hash, snaps);
    forall h | h in order && Seen(root, cache, (h, column)).Some?
      ensures exists file :: Seen(root, cache, (h, column)).value == FstOf(file, column)
    {
      assert Seen(root, cache, (h, column)) == OnDisk(root, (h, column));
      var path := RenderedHash(hash, snaps, h);
      assert path in Dirs(snaps);
      assert Seen(root, cache, (h, column)).value == FstOf(snaps[path].columns[column], column);
    }
  }
}
