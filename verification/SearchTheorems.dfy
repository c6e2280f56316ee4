/** Searching the FST of a file's column against the simple meaning "look at every value". */
module SearchTheorems {
  import opened ByteOrder
  import opened Corpus
  import opened IndexBuilder
  import opened KeyCodec
  import opened Outcomes
  import opened SearchMeaning
  import opened SetSearch
  import Sorting
  import Utf8

  ghost predicate HasMatch(file: DataFile, column: string, q: Query, g: nat) {
    exists v :: Holds(file, column, g, v) && Matches(q, v, g)
  }

  /** Row groups holding a value the query matches. */
  ghost function MatchingGroups(file: DataFile, column: string, q: Query): set<nat> {
    set g: nat | g < |file.rowGroups| && HasMatch(file, column, q, g)
  }

  /** What a query matches depends only on the values the column holds in each group. */
  lemma SameMatches(a: DataFile, b: DataFile, column: string, q: Query)
    requires SameValues(a, b, column)
    ensures MatchingGroups(a, column, q) == MatchingGroups(b, column, q)
  {
    forall g: nat ensures HasMatch(a, column, q, g) <==> HasMatch(b, column, q, g) {
      if v :| Holds(a, column, g, v) && Matches(q, v, g) {
        assert Holds(b, column, g, v);
      }
      if v :| Holds(b, column, g, v) && Matches(q, v, g) {
        assert Holds(a, column, g, v);
      }
    }
  }

  ghost function SortedGroups(groups: set<nat>): (r: seq<nat>)
    ensures forall g :: g in r <==> g in groups
    ensures |r| == |groups|
  {
    Sorting.NatLessTotal();
    Sorting.Sorted(groups, Sorting.NatLess)
  }

  ghost predicate Reaches(keys: seq<Bytes>, s: Slice, g: nat) {
    exists k :: k in keys && Selects(s, k) && ParseRowGroup(k).Group? && ParseRowGroup(k).n == g
  }

  lemma CollectIs(keys: seq<Bytes>, s: Slice, groups: set<nat>)
    requires forall k :: k in keys && Selects(s, k) ==> ParseRowGroup(k).Group? && ParseRowGroup(k).n in groups
    requires forall g: nat :: g in groups ==> Reaches(keys, s, g)
    ensures Collect(keys, s) == Ok(SortedGroups(groups))
  {
    var selected := GroupsSelected(keys, s);
    forall g: nat | g in groups ensures g in selected {
      var k :| k in keys && Selects(s, k) && ParseRowGroup(k).Group? && ParseRowGroup(k).n == g;
    }
    forall g: nat | g in selected ensures g in groups {
      var k :| k in keys && Selects(s, k) && ParseRowGroup(k).Group? && ParseRowGroup(k).n == g;
    }
    assert selected == groups;
  }

  /** What a search over the column's own FST returns. */
  ghost function Found(file: DataFile, column: string, q: Query): Result<seq<nat>> {
    Collect(FstOf(file, column), SliceOf(q))
  }

  lemma SelectedKeyFacts(file: DataFile, column: string, q: Query, k: Bytes)
    requires k in FstOf(file, column) && Selects(SliceOf(q), k)
    ensures ParseRowGroup(k).Group? && ParseRowGroup(k).n in MatchingGroups(file, column, q)
  {
    var g, v := StoredKeyOrigin(file, column, k);
    ParseKey(v, g);
    KeySelected(q, v, g);
    assert HasMatch(file, column, q, g);
  }

  lemma MatchingGroupSelected(file: DataFile, column: string, q: Query, g: nat)
    requires g in MatchingGroups(file, column, q)
    ensures Reaches(FstOf(file, column), SliceOf(q), g)
  {
    var v :| Holds(file, column, g, v) && Matches(q, v, g);
    var k := Key(v, g);
    StoredKeysAreTheValues(file, column, k);
    ParseKey(v, g);
    KeySelected(q, v, g);
    assert k in FstOf(file, column) && Selects(SliceOf(q), k) && ParseRowGroup(k) == Group(g);
  }

  /** For every file, column and query the search of the built FST never fails and returns exactly
      the matching row groups, ascending and without repeats. */
  lemma SearchIsExact(file: DataFile, column: string, q: Query)
    ensures Found(file, column, q) == Ok(SortedGroups(MatchingGroups(file, column, q)))
  {
    forall k | k in FstOf(file, column) && Selects(SliceOf(q), k)
      ensures ParseRowGroup(k).Group? && ParseRowGroup(k).n in MatchingGroups(file, column, q)
    {
      SelectedKeyFacts(file, column, q, k);
    }
    forall g | g in MatchingGroups(file, column, q)
      ensures Reaches(FstOf(file, column), SliceOf(q), g)
    {
      MatchingGroupSelected(file, column, q, g);
    }
    CollectIs(FstOf(file, column), SliceOf(q), MatchingGroups(file, column, q));
  }

  lemma SortedGroupsEmpty(groups: set<nat>)
    ensures SortedGroups(groups) == [] <==> groups == {}
  {
    assert |SortedGroups(groups)| == 0 <==> |groups| == 0;
  }

  lemma SortedGroupsInjective(a: set<nat>, b: set<nat>)
    ensures SortedGroups(a) == SortedGroups(b) <==> a == b
  {
    if SortedGroups(a) == SortedGroups(b) {
      assert forall g :: g in a <==> g in SortedGroups(a);
    }
  }

  // ---------------------------------------------------------------- exact search

  ghost function GroupsHolding(file: DataFile, column: string, t: string): set<nat> {
    set g | 0 <= g < |file.rowGroups| && Holds(file, column, g, t)
  }

  /** Every row group with a value that continues `t` by a NUL also holds `t` itself. */
  ghost predicate NoNulLookalike(file: DataFile, column: string, t: string) {
    forall g, v :: Holds(file, column, g, v) && t + [VALUE_RG_SEPARATOR] <= v ==> Holds(file, column, g, t)
  }

  ghost predicate NulFreeColumn(file: DataFile, column: string) {
    forall g, v :: Holds(file, column, g, v) ==> VALUE_RG_SEPARATOR !in v
  }

  lemma HoldingIsMatching(file: DataFile, column: string, t: string)
    ensures GroupsHolding(file, column, t) <= MatchingGroups(file, column, Exact(t))
    ensures GroupsHolding(file, column, t) == MatchingGroups(file, column, Exact(t))
       <==> NoNulLookalike(file, column, t)
  {
    var q := Exact(t);
    var holding, matching := GroupsHolding(file, column, t), MatchingGroups(file, column, q);
    forall g | g in holding ensures g in matching {
      assert Holds(file, column, g, t) && Matches(q, t, g);
    }
    if matching == holding {
      forall g: nat, v | Holds(file, column, g, v) && t + [VALUE_RG_SEPARATOR] <= v ensures Holds(file, column, g, t) {
        assert Matches(q, v, g);
        assert g in matching;
      }
    }
  }

  /** "No false positives" holds of an exact search exactly when no group is reached only through
      a value that continues the term by a NUL; no group holding the term is ever missed. */
  lemma ExactSearchIff(file: DataFile, column: string, t: string)
    ensures GroupsHolding(file, column, t) <= MatchingGroups(file, column, Exact(t))
    ensures Found(file, column, Exact(t)) == Ok(SortedGroups(GroupsHolding(file, column, t)))
       <==> NoNulLookalike(file, column, t)
  {
    SearchIsExact(file, column, Exact(t));
    HoldingIsMatching(file, column, t);
    SortedGroupsInjective(MatchingGroups(file, column, Exact(t)), GroupsHolding(file, column, t));
  }

  lemma ContinuationHasNul(t: string, v: string)
    ensures t + [VALUE_RG_SEPARATOR] <= v ==> VALUE_RG_SEPARATOR in v
  {
    assert t + [VALUE_RG_SEPARATOR] <= v ==> v[|t|] == VALUE_RG_SEPARATOR;
  }

  lemma NulFreeHasNoLookalike(file: DataFile, column: string, t: string)
    requires NulFreeColumn(file, column)
    ensures NoNulLookalike(file, column, t)
  {
    forall g, v | Holds(file, column, g, v) ensures !(t + [VALUE_RG_SEPARATOR] <= v) {
      ContinuationHasNul(t, v);
    }
  }

  /** "No false positives" is not a promise for values with NULs: for every term there is a file that
      does not hold it and is returned. */
  lemma NulValueIsFalsePositive(t: string) returns (file: DataFile)
    ensures Found(file, "c", Exact(t)) != Ok([]) && GroupsHolding(file, "c", t) == {}
  {
    var v := t + [VALUE_RG_SEPARATOR];
    file := OneValueFile("c", v);
    OneValueHolds("c", v, 0, v);
    assert Matches(Exact(t), v, 0);
    assert HasMatch(file, "c", Exact(t), 0);
    assert 0 in MatchingGroups(file, "c", Exact(t));
    SearchIsExact(file, "c", Exact(t));
    SortedGroupsEmpty(MatchingGroups(file, "c", Exact(t)));
    forall g: nat ensures !Holds(file, "c", g, t) {
      OneValueHolds("c", v, g, t);
    }
    NoneHolding(file, "c", t);
  }

  lemma NoneHolding(file: DataFile, column: string, t: string)
    ensures GroupsHolding(file, column, t) == {} <==> forall g: nat :: !Holds(file, column, g, t)
  {
    forall g: nat | Holds(file, column, g, t) ensures g in GroupsHolding(file, column, t) {
    }
  }

  /** On NUL-free data an empty answer is authoritative: it comes back iff no row group holds `t`. */
  lemma EmptyMeansAbsent(file: DataFile, column: string, t: string)
    requires NulFreeColumn(file, column)
    ensures Found(file, column, Exact(t)) == Ok([]) <==> forall g: nat :: !Holds(file, column, g, t)
  {
    assert Found(file, column, Exact(t)) == Ok(SortedGroups(GroupsHolding(file, column, t))) by {
      NulFreeHasNoLookalike(file, column, t);
      ExactSearchIff(file, column, t);
    }
    SortedGroupsEmpty(GroupsHolding(file, column, t));
    NoneHolding(file, column, t);
  }

  /** The probe used by the batched search agrees with "the single search returns something". */
  lemma HasTermIffFound(file: DataFile, column: string, t: string)
    ensures (exists k :: k in FstOf(file, column) && Selects(SliceOf(Exact(t)), k))
       <==> Found(file, column, Exact(t)) != Ok([])
  {
    SearchIsExact(file, column, Exact(t));
    var matching := MatchingGroups(file, column, Exact(t));
    SortedGroupsEmpty(matching);
    if k :| k in FstOf(file, column) && Selects(SliceOf(Exact(t)), k) {
      SelectedKeyFacts(file, column, Exact(t), k);
    }
    if g :| g in matching {
      MatchingGroupSelected(file, column, Exact(t), g);
    }
  }

  // ---------------------------------------------------------------- prefix search

  ghost predicate HasPrefixed(file: DataFile, column: string, p: string, g: nat) {
    exists v :: Holds(file, column, g, v) && p <= v
  }

  ghost function GroupsWithPrefix(file: DataFile, column: string, p: string): set<nat> {
    set g: nat | g < |file.rowGroups| && HasPrefixed(file, column, p, g)
  }

  predicate UsablePrefix(p: string) {
    p != [] && VALUE_RG_SEPARATOR !in p && p[|p| - 1] != MAX_UNICODE_CHAR
  }

  ghost predicate PrefixSearchIsRight(file: DataFile, column: string, p: string) {
    Found(file, column, Prefix(p)) == Ok(SortedGroups(GroupsWithPrefix(file, column, p)))
  }

  /** A one-group file whose only value is `v`. */
  function OneValueFile(column: string, v: string): DataFile {
    ParquetFile({column}, [[[map[column := Text(v)]]]])
  }

  lemma OneValueHolds(column: string, v: string, g: nat, w: string)
    ensures Holds(OneValueFile(column, v), column, g, w) <==> g == 0 && w == v
  {
    var file := OneValueFile(column, v);
    var row: Row := map[column := Text(v)];
    assert file.rowGroups[0] == [[row]];
    assert [[row]][..0] == [];
    assert GroupRows([[row]]) == GroupRows([]) + [row];
    if g == 0 && w == v {
      assert row in GroupRows(file.rowGroups[0]) && CellAt(row, column) == Text(v);
    }
  }

  lemma UsablePrefixGroup(file: DataFile, column: string, p: string, g: nat)
    requires UsablePrefix(p)
    ensures HasMatch(file, column, Prefix(p), g) <==> HasPrefixed(file, column, p, g)
  {
    assert forall v :: Matches(Prefix(p), v, g) <==> p <= v;
  }

  lemma UsablePrefixIsRight(file: DataFile, column: string, p: string)
    requires UsablePrefix(p)
    ensures PrefixSearchIsRight(file, column, p)
  {
    SearchIsExact(file, column, Prefix(p));
    var matching, prefixed := MatchingGroups(file, column, Prefix(p)), GroupsWithPrefix(file, column, p);
    forall g: nat ensures g in matching <==> g in prefixed {
      UsablePrefixGroup(file, column, p, g);
    }
    assert matching == prefixed;
  }

  /** A value an unusable prefix should find and does not. */
  function MissedValue(p: string): string { if p == [] then "a" else p }

  lemma MissedValueUnmatched(p: string, g: nat)
    requires !UsablePrefix(p)
    ensures p <= MissedValue(p) && !Matches(Prefix(p), MissedValue(p), g)
  {
  }

  /** An unusable prefix misses a file that does hold a value with it. */
  lemma UnusablePrefixFails(p: string) returns (file: DataFile)
    requires !UsablePrefix(p)
    ensures !PrefixSearchIsRight(file, "c", p)
  {
    var v := MissedValue(p);
    file := OneValueFile("c", v);
    var matching, prefixed := MatchingGroups(file, "c", Prefix(p)), GroupsWithPrefix(file, "c", p);
    MissedValueUnmatched(p, 0);
    OneValueHolds("c", v, 0, v);
    assert HasPrefixed(file, "c", p, 0);
    assert 0 in prefixed;
    forall w ensures !(Holds(file, "c", 0, w) && Matches(Prefix(p), w, 0)) {
      OneValueHolds("c", v, 0, w);
    }
    assert 0 !in matching;
    SearchIsExact(file, "c", Prefix(p));
    SortedGroupsInjective(matching, prefixed);
  }

  /** Prefix search returns exactly the groups holding a value with the prefix, on every file and
      every column, if and only if the prefix is non-empty, NUL-free and does not end in U+10FFFF. */
  lemma PrefixSearchIff(p: string)
    ensures UsablePrefix(p) <==> forall file: DataFile, column :: PrefixSearchIsRight(file, column, p)
  {
    if UsablePrefix(p) {
      forall file: DataFile, column ensures PrefixSearchIsRight(file, column, p) {
        UsablePrefixIsRight(file, column, p);
      }
    } else {
      var file := UnusablePrefixFails(p);
    }
  }

  // ---------------------------------------------------------------- range search

  ghost predicate Within(v: string, start: string, end: string) {
    !Utf8.StrLess(v, start) && !Utf8.StrLess(end, v)
  }

  ghost predicate HasWithin(file: DataFile, column: string, start: string, end: string, g: nat) {
    exists v :: Holds(file, column, g, v) && Within(v, start, end)
  }

  ghost function GroupsWithin(file: DataFile, column: string, start: string, end: string): set<nat> {
    set g: nat | g < |file.rowGroups| && HasWithin(file, column, start, end, g)
  }

  lemma NulFreeBound(v: string, bound: string)
    requires VALUE_RG_SEPARATOR !in bound
    ensures !(v + [VALUE_RG_SEPARATOR] <= bound)
  {
    ContinuationHasNul(v, bound);
  }

  /** With NUL-free bounds a value is selected iff it lies in the inclusive range or continues the
      end of the range by a NUL. */
  lemma RangeOnNulFreeBounds(start: string, end: string, v: string, g: nat)
    requires VALUE_RG_SEPARATOR !in start && VALUE_RG_SEPARATOR !in end
    ensures Matches(Range(start, end), v, g)
       <==> !Utf8.StrLess(v, start) && (!Utf8.StrLess(end, v) || end + [VALUE_RG_SEPARATOR] <= v)
  {
    NulFreeBound(v, start);
    NulFreeBound(v, end);
  }

  /** Values outside the range that are taken all the same: below it, when the start continues the
      value by a NUL and `rgN` does not sort before what follows there; above it, when the value
      continues the end by a NUL. */
  predicate TakenOutside(v: string, g: nat, start: string, end: string) {
    || (v + [VALUE_RG_SEPARATOR] <= start
        && !Utf8.StrLess(Tail(g), start[|v| + 1..] + [VALUE_RG_SEPARATOR]) && AtMostEnd(v, g, end))
    || (!Utf8.StrLess(v, start) && end + [VALUE_RG_SEPARATOR] <= v)
  }

  /** Values that are left out although they may be inside the range: the end continues the value by
      a NUL and `rgN` does not sort before what follows there. */
  predicate LeftOut(v: string, g: nat, end: string) {
    v + [VALUE_RG_SEPARATOR] <= end && !Utf8.StrLess(Tail(g), end[|v| + 1..] + [RANGE_UPPER_BOUND_MARKER])
  }

  lemma {:induction false} ExtensionIsGreater(v: string, w: string)
    requires w != []
    ensures Utf8.StrLess(v, v + w)
    ensures !Utf8.StrLess(v + w, v)
  {
    if v == [] {
      assert v + w == w;
    } else {
      assert (v + w)[1..] == v[1..] + w;
      ExtensionIsGreater(v[1..], w);
    }
  }

  lemma ContinuationIsGreater(v: string, w: string)
    ensures v + [VALUE_RG_SEPARATOR] <= w ==> Utf8.StrLess(v, w) && !Utf8.StrLess(w, v)
  {
    if v + [VALUE_RG_SEPARATOR] <= w {
      assert w == v + w[|v|..];
      ExtensionIsGreater(v, w[|v|..]);
    }
  }

  /** Whatever the bounds hold, a value is selected iff it lies in the inclusive range and is not left
      out, or lies outside and is taken. */
  lemma RangeOnAnyBounds(start: string, end: string, v: string, g: nat)
    ensures Matches(Range(start, end), v, g)
       <==> TakenOutside(v, g, start, end) || (Within(v, start, end) && !LeftOut(v, g, end))
    ensures TakenOutside(v, g, start, end) ==> !Within(v, start, end)
  {
    ContinuationIsGreater(v, start);
    ContinuationIsGreater(v, end);
    ContinuationIsGreater(end, v);
  }

  /** A row group the search reaches. */
  ghost predicate HasSelected(file: DataFile, column: string, start: string, end: string, g: nat) {
    exists v :: Holds(file, column, g, v)
                && (TakenOutside(v, g, start, end) || (Within(v, start, end) && !LeftOut(v, g, end)))
  }

  /** No group is reached through values outside the range alone. */
  ghost predicate NoOvershoot(file: DataFile, column: string, start: string, end: string) {
    forall g: nat, v :: Holds(file, column, g, v) && TakenOutside(v, g, start, end)
                        ==> HasWithin(file, column, start, end, g)
  }

  /** No group is missed because its values inside the range are left out. */
  ghost predicate NothingMissed(file: DataFile, column: string, start: string, end: string) {
    forall g: nat, v :: Holds(file, column, g, v) && Within(v, start, end) && LeftOut(v, g, end)
                        ==> HasSelected(file, column, start, end, g)
  }

  lemma SelectedIsMatched(file: DataFile, column: string, start: string, end: string, g: nat)
    ensures HasMatch(file, column, Range(start, end), g) <==> HasSelected(file, column, start, end, g)
  {
    forall v
      ensures Matches(Range(start, end), v, g)
         <==> TakenOutside(v, g, start, end) || (Within(v, start, end) && !LeftOut(v, g, end))
    {
      RangeOnAnyBounds(start, end, v, g);
    }
  }

  lemma RangeMatchingIsWithin(file: DataFile, column: string, start: string, end: string)
    ensures GroupsWithin(file, column, start, end) == MatchingGroups(file, column, Range(start, end))
       <==> NoOvershoot(file, column, start, end) && NothingMissed(file, column, start, end)
  {
    var within, matching := GroupsWithin(file, column, start, end), MatchingGroups(file, column, Range(start, end));
    forall g: nat ensures g in matching <==> g < |file.rowGroups| && HasSelected(file, column, start, end, g) {
      SelectedIsMatched(file, column, start, end, g);
    }
    if within == matching {
      forall g: nat, v | Holds(file, column, g, v) && TakenOutside(v, g, start, end)
        ensures HasWithin(file, column, start, end, g)
      {
        assert HasSelected(file, column, start, end, g);
        assert g in matching;
      }
      forall g: nat, v | Holds(file, column, g, v) && Within(v, start, end) && LeftOut(v, g, end)
        ensures HasSelected(file, column, start, end, g)
      {
        assert HasWithin(file, column, start, end, g);
        assert g in within;
      }
    }
    if NoOvershoot(file, column, start, end) && NothingMissed(file, column, start, end) {
      forall g: nat | g < |file.rowGroups| ensures g in within <==> g in matching {
        if v :| Holds(file, column, g, v) && Within(v, start, end) {
          assert !LeftOut(v, g, end) ==> HasSelected(file, column, start, end, g);
        }
      }
    }
  }

  /** For any bounds, NULs included, the search is the inclusive lexicographic range iff every group it
      reaches through a value outside the range also holds one inside, and every group with a value
      inside that is left out is reached through another value. */
  lemma RangeSearchIff(file: DataFile, column: string, start: string, end: string)
    ensures Found(file, column, Range(start, end)) == Ok(SortedGroups(GroupsWithin(file, column, start, end)))
       <==> NoOvershoot(file, column, start, end) && NothingMissed(file, column, start, end)
  {
    SearchIsExact(file, column, Range(start, end));
    RangeMatchingIsWithin(file, column, start, end);
    SortedGroupsInjective(MatchingGroups(file, column, Range(start, end)), GroupsWithin(file, column, start, end));
  }

  /** Hence on NUL-free values it is the inclusive lexicographic range. */
  lemma RangeSearchOnNulFreeData(file: DataFile, column: string, start: string, end: string)
    requires VALUE_RG_SEPARATOR !in start && VALUE_RG_SEPARATOR !in end && NulFreeColumn(file, column)
    ensures Found(file, column, Range(start, end)) == Ok(SortedGroups(GroupsWithin(file, column, start, end)))
  {
    forall g: nat, v | Holds(file, column, g, v) ensures !TakenOutside(v, g, start, end) && !LeftOut(v, g, end) {
      NulFreeBound(v, start);
      NulFreeBound(v, end);
      ContinuationHasNul(end, v);
    }
    RangeSearchIff(file, column, start, end);
  }

  lemma {:induction false} NothingBetween(start: string, end: string, v: string)
    requires VALUE_RG_SEPARATOR !in start && Utf8.StrLess(end, start)
    requires !Utf8.StrLess(v, start)
    ensures Utf8.StrLess(end, v) && !(end + [VALUE_RG_SEPARATOR] <= v)
  {
    assert start[0] in start;
    if end == [] {
      assert v != [] && v[0] != VALUE_RG_SEPARATOR;
    } else if end + [VALUE_RG_SEPARATOR] <= v || v != [] {
      Utf8.StringPrefix(end + [VALUE_RG_SEPARATOR], v);
      assert (end + [VALUE_RG_SEPARATOR])[1..] == end[1..] + [VALUE_RG_SEPARATOR];
      if end[0] == start[0] == v[0] {
        NothingBetween(start[1..], end[1..], v[1..]);
      }
    }
  }

  /** An inverted NUL-free range finds nothing. */
  lemma InvertedRangeIsEmpty(file: DataFile, column: string, start: string, end: string)
    requires VALUE_RG_SEPARATOR !in start && VALUE_RG_SEPARATOR !in end && Utf8.StrLess(end, start)
    ensures Found(file, column, Range(start, end)) == Ok([])
  {
    var q := Range(start, end);
    SearchIsExact(file, column, q);
    forall g, v | Holds(file, column, g, v) ensures !Matches(q, v, g) {
      RangeOnNulFreeBounds(start, end, v, g);
      if !Utf8.StrLess(v, start) {
        NothingBetween(start, end, v);
      }
    }
    assert MatchingGroups(file, column, q) == {};
  }

  lemma SeparatorBelowMarker(a: string, w: string)
    requires !Utf8.StrLess(a, w + [RANGE_UPPER_BOUND_MARKER])
    ensures !Utf8.StrLess(a, w + [VALUE_RG_SEPARATOR])
  {
    var low, high := w + [VALUE_RG_SEPARATOR], w + [RANGE_UPPER_BOUND_MARKER];
    StrCommonFront(w, [VALUE_RG_SEPARATOR], [RANGE_UPPER_BOUND_MARKER]);
    if Utf8.StrLess(a, low) {
      Utf8.OrderPreserved(a, low);
      Utf8.OrderPreserved(low, high);
      Utf8.OrderPreserved(a, high);
      Transitive(Utf8.Encode(a), Utf8.Encode(low), Utf8.Encode(high));
    }
  }

  /** A bound that itself continues a stored value by a NUL breaks the order either way when the key's
      `rgN` does not sort before what follows the NUL in the bound: the value is taken although it
      precedes `start`, and left out although it precedes `end`. */
  lemma NulBoundBreaksRange(v: string, g: nat, w: string, end: string, start: string)
    requires !Utf8.StrLess(Tail(g), w + [RANGE_UPPER_BOUND_MARKER])
    requires VALUE_RG_SEPARATOR !in end && !Utf8.StrLess(end, v)
    ensures var bound := v + [VALUE_RG_SEPARATOR] + w;
            && Utf8.StrLess(v, bound) && Selects(SliceOf(Range(bound, end)), Key(v, g))
            && !Utf8.StrLess(bound, v) && !Selects(SliceOf(Range(start, bound)), Key(v, g))
  {
    var bound := v + [VALUE_RG_SEPARATOR] + w;
    assert v + [VALUE_RG_SEPARATOR] <= bound && bound[|v| + 1..] == w;
    SeparatorBelowMarker(Tail(g), w);
    ContinuationIsGreater(v, bound);
    NulFreeBound(v, end);
    KeySelected(Range(bound, end), v, g);
    KeySelected(Range(start, bound), v, g);
  }
}
