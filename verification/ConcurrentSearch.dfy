/** Searches by many threads over one shared FST cache: each file is searched in what a call of the cache
    protocol returned, some time after it returned. */
module ConcurrentSearch {
  import opened FstCacheProtocol
  import opened FstSet
  import opened IndexRoot
  import opened Outcomes
  import opened SetSearch
  import Engine = QueryEngine

  /** The call whose result is searched, and the point of the run at which that happens. */
  datatype Reading = Reading(call: Return, at: nat)

  ghost predicate IsReading(root: Root, actions: seq<Action>, reading: Reading)
    requires Possible(root, actions)
  {
    reading.at <= |actions| && reading.call in StateAt(root, actions, reading.at).returned
  }

  /** One search of an interleaving: for each catalogued file a call that has returned by then. */
  ghost predicate ReadingsOf(root: Root, actions: seq<Action>, order: seq<string>, column: string,
                             readings: map<string, Reading>)
    requires Possible(root, actions)
  {
    forall h :: h in order ==>
      h in readings && readings[h].call.key == (h, column) && IsReading(root, actions, readings[h])
  }

  ghost function SightAt(root: Root, actions: seq<Action>, reading: Reading): Sight
    requires Possible(root, actions) && IsReading(root, actions, reading)
  {
    Sees(StateAt(root, actions, reading.at), reading.call.result)
  }

  /** What the search finds, file by file. */
  ghost function Sights(root: Root, actions: seq<Action>, order: seq<string>, column: string,
                        readings: map<string, Reading>): map<string, Sight>
    requires Possible(root, actions) && ReadingsOf(root, actions, order, column, readings)
  {
    map h | h in order :: SightAt(root, actions, readings[h])
  }

  /** The answer for one file; a fault gives none. */
  ghost function AnswerFor(sight: Sight, q: Query): Engine.Answer {
    match sight
    case NoIndex => Engine.FileSearch(None, q)
    case Shows(keys) => Engine.FileSearch(Some(keys), q)
    case Faults => Err
  }

  ghost function AnswersFor(sights: map<string, Sight>, q: Query): map<string, Engine.Answer> {
    map h | h in sights :: AnswerFor(sights[h], q)
  }

  /** None of the FSTs the search reads is written or removed during the run. */
  ghost predicate Unchanging(actions: seq<Action>, order: seq<string>, column: string) {
    forall h :: h in order ==> Untouched(actions, (h, column))
  }

  /** The sights of a search without a cache. */
  ghost function UncachedSights(root: Root, order: seq<string>, column: string): map<string, Sight> {
    map h | h in order :: SightOf(OnDisk(root, (h, column)))
  }

  lemma SightsAreUncached(root: Root, actions: seq<Action>, order: seq<string>, column: string,
                          readings: map<string, Reading>)
    requires Possible(root, actions) && ReadingsOf(root, actions, order, column, readings)
    requires Unchanging(actions, order, column)
    ensures Sights(root, actions, order, column, readings) == UncachedSights(root, order, column)
  {
    forall h | h in order ensures SightAt(root, actions, readings[h]) == SightOf(OnDisk(root, (h, column))) {
      EveryCallFaithful(root, actions, readings[h].at, readings[h].call);
    }
  }

  lemma UncachedAnswers(root: Root, order: seq<string>, column: string, q: Query)
    ensures AnswersFor(UncachedSights(root, order, column), q) == Engine.Answers(root, map[], order, column, q)
  {
  }

  /** Over an unchanging index directory every search, in every interleaving with any other threads,
      gives the answer of a search without a cache. */
  lemma SearchIsUncached(root: Root, actions: seq<Action>, fileMap: map<string, string>, order: seq<string>,
                         column: string, readings: map<string, Reading>, q: Query)
    requires Possible(root, actions) && ReadingsOf(root, actions, order, column, readings)
    requires Unchanging(actions, order, column)
    requires forall h :: h in order ==> h in fileMap
    ensures Engine.Gather(fileMap, order, AnswersFor(Sights(root, actions, order, column, readings), q))
         == Engine.SearchResult(root, map[], fileMap, order, column, q)
  {
    SightsAreUncached(root, actions, order, column, readings);
    UncachedAnswers(root, order, column, q);
  }

  /** The batched count on what the calls returned. */
  ghost function HitsOf(order: seq<string>, sights: map<string, Sight>, terms: seq<string>): nat
    requires forall h :: h in order ==> h in sights
  {
    if order == [] then 0 else
      var n := |order| - 1;
      var last := sights[order[n]];
      HitsOf(order[..n], sights, terms) + if last.Shows? then Engine.TermHits(last.keys, terms) else 0
  }

  lemma {:induction false} UncachedHits(root: Root, order: seq<string>, part: seq<string>, column: string,
                                        terms: seq<string>)
    requires forall h :: h in part ==> h in order
    ensures HitsOf(part, UncachedSights(root, order, column), terms)
         == Engine.BatchHits(root, map[], part, column, terms)
  {
    if part != [] {
      var n := |part| - 1;
      assert part[n] in part;
      UncachedHits(root, order, part[..n], column, terms);
    }
  }

  /** And every batched search its count. */
  lemma BatchIsUncached(root: Root, actions: seq<Action>, order: seq<string>, column: string,
                        readings: map<string, Reading>, terms: seq<string>)
    requires Possible(root, actions) && ReadingsOf(root, actions, order, column, readings)
    requires Unchanging(actions, order, column)
    ensures HitsOf(order, Sights(root, actions, order, column, readings), terms)
         == Engine.BatchHits(root, map[], order, column, terms)
  {
    SightsAreUncached(root, actions, order, column, readings);
    UncachedHits(root, order, order, column, terms);
  }

  // ---------------------------------------------------------------- while the directory changes

  /** No step from point `i` to point `j` writes the FST of the key over an existing one. */
  ghost predicate NotReindexed(root: Root, actions: seq<Action>, i: nat, j: nat, key: SetKey)
    requires Possible(root, actions) && i <= j <= |actions|
  {
    forall k :: i <= k < j ==> !(actions[k].Index? && actions[k].key == key && key in StateAt(root, actions, k).disk)
  }

  lemma NotReindexedNotOverwritten(root: Root, actions: seq<Action>, i: nat, j: nat, file: FileId)
    requires Possible(root, actions) && i <= j <= |actions| && NotReindexed(root, actions, i, j, file.key)
    ensures NotOverwritten(root, actions, i, j, file)
  {
    forall k | i <= k < j ensures !Overwrites(StateAt(root, actions, k), actions[k], file) {
      PlacedAlong(root, actions, k);
    }
  }

  /** The first and the second of two readings of one key find the same. */
  lemma LaterReadingAgrees(root: Root, actions: seq<Action>, a: Reading, b: Reading)
    requires Possible(root, actions) && IsReading(root, actions, a) && IsReading(root, actions, b)
    requires a.call.key == b.call.key && a.call.result.Some? && b.call.result.Some?
    requires a.at <= b.at && NotReindexed(root, actions, a.at, b.at, a.call.key)
    ensures SightAt(root, actions, a) == SightAt(root, actions, b)
  {
    ReturnedStays(root, actions, a.at, b.at, a.call);
    SameObjectForAll(root, actions, b.at, a.call, b.call);
    PlacedAlong(root, actions, a.at);
    var o := a.call.result.value;
    NotReindexedNotOverwritten(root, actions, a.at, b.at, StateAt(root, actions, a.at).mappings[o].file);
    KeepsReading(root, actions, a.at, b.at, o);
  }

  /** Whichever comes first, the key is not re-indexed between the two readings. */
  ghost predicate NotReindexedBetween(root: Root, actions: seq<Action>, a: Reading, b: Reading, key: SetKey)
    requires Possible(root, actions) && a.at <= |actions| && b.at <= |actions|
  {
    NotReindexed(root, actions, if a.at <= b.at then a.at else b.at, if a.at <= b.at then b.at else a.at, key)
  }

  /** Two searches whose calls all returned a set find the same, file by file, unless a file one of them
      reads is re-indexed between its two readings. Prunes are harmless, and so is re-indexing before or
      after. `FstCacheProtocol.ReindexChangesResident` is the run where it does happen. */
  lemma SearchesAgree(root: Root, actions: seq<Action>, order: seq<string>, column: string,
                      one: map<string, Reading>, two: map<string, Reading>)
    requires Possible(root, actions)
    requires ReadingsOf(root, actions, order, column, one) && ReadingsOf(root, actions, order, column, two)
    requires forall h :: h in order ==> one[h].call.result.Some? && two[h].call.result.Some?
    requires forall h :: h in order ==> NotReindexedBetween(root, actions, one[h], two[h], (h, column))
    ensures Sights(root, actions, order, column, one) == Sights(root, actions, order, column, two)
  {
    forall h | h in order ensures SightAt(root, actions, one[h]) == SightAt(root, actions, two[h]) {
      if one[h].at <= two[h].at {
        LaterReadingAgrees(root, actions, one[h], two[h]);
      } else {
        LaterReadingAgrees(root, actions, two[h], one[h]);
      }
    }
  }
}
