/** Exact, prefix and range search inside one FST. */
module SetSearch {
  import opened ByteOrder
  import opened Decimal
  import opened FstSet
  import opened KeyCodec
  import opened Outcomes
  import Sorting
  import Utf8

  datatype Query = Exact(term: string) | Prefix(prefix: string) | Range(start: string, end: string)

  predicate IsScalarValue(n: int) {
    0 <= n < 0xD800 || 0xE000 <= n < 0x11_0000
  }

  /** `char::from_u32(c + 1)`, falling back to the largest character in front of the surrogate gap
      and at the end of the code space. */
  function NextChar(c: char): char {
    var n := c as int + 1;
    if IsScalarValue(n) then n as char else MAX_UNICODE_CHAR
  }

  /** The contiguous key range a query reads, given by the texts whose bytes bound it, and what a key
      must start with before its first NUL (checked by prefix search only). */
  datatype Slice = Slice(low: string, high: string, front: Option<string>)

  function SliceOf(q: Query): Slice {
    match q
    case Exact(t) => Slice(t + [VALUE_RG_SEPARATOR], t + [RANGE_UPPER_BOUND_MARKER], None)
    case Prefix(p) =>
      var high :=
        if p == [] then [RANGE_UPPER_BOUND_MARKER]
        else p[..|p| - 1] + [NextChar(p[|p| - 1])] + [VALUE_RG_SEPARATOR];
      Slice(p + [VALUE_RG_SEPARATOR], high, Some(p))
    case Range(s, e) => Slice(s + [VALUE_RG_SEPARATOR], e + [RANGE_UPPER_BOUND_MARKER], None)
  }

  predicate PassesCheck(s: Slice, k: Bytes) {
    s.front.Some? ==>
      var nul := FirstNul(k);
      nul.Some? && Utf8.Encode(s.front.value) <= k[..nul.value]
  }

  predicate Selects(s: Slice, k: Bytes) {
    InSlice(k, Utf8.Encode(s.low), Utf8.Encode(s.high)) && PassesCheck(s, k)
  }

  ghost predicate HitsMalformed(keys: seq<Bytes>, s: Slice) {
    exists k :: k in keys && Selects(s, k) && ParseRowGroup(k) == Malformed
  }

  ghost function GroupsSelected(keys: seq<Bytes>, s: Slice): set<nat> {
    set k | k in keys && Selects(s, k) && ParseRowGroup(k).Group? :: ParseRowGroup(k).n
  }

  /** What a search of one FST returns: an error if a selected key has a bad group number, else the
      row groups of the selected keys, ascending and without repeats. */
  ghost function Collect(keys: seq<Bytes>, s: Slice): Result<seq<nat>> {
    Sorting.NatLessTotal();
    if HitsMalformed(keys, s) then Err else Ok(Sorting.Sorted(GroupsSelected(keys, s), Sorting.NatLess))
  }

  /** What a search has to return, key by key. */
  ghost predicate FoundGroups(keys: seq<Bytes>, s: Slice, r: Result<seq<nat>>) {
    && (r.Err? <==> exists k :: k in keys && Selects(s, k) && ParseRowGroup(k) == Malformed)
    && (r.Ok? ==> Sorting.Ascending(r.value, Sorting.NatLess))
    && (r.Ok? ==> forall g: U64 :: g in r.value
                    <==> exists k :: k in keys && Selects(s, k) && ParseRowGroup(k) == Group(g))
  }

  lemma CollectMeaning(keys: seq<Bytes>, s: Slice)
    ensures FoundGroups(keys, s, Collect(keys, s))
  {
    Sorting.NatLessTotal();
    forall g: U64 ensures g in GroupsSelected(keys, s)
                     <==> exists k :: k in keys && Selects(s, k) && ParseRowGroup(k) == Group(g)
    {
      if k :| k in keys && Selects(s, k) && ParseRowGroup(k) == Group(g) {
        assert ParseRowGroup(k).n == g;
      }
    }
  }

  lemma ScanStep(front: seq<Bytes>, key: Bytes, s: Slice)
    ensures HitsMalformed(front + [key], s)
       <==> HitsMalformed(front, s) || (Selects(s, key) && ParseRowGroup(key) == Malformed)
    ensures GroupsSelected(front + [key], s)
         == GroupsSelected(front, s)
          + if Selects(s, key) && ParseRowGroup(key).Group? then {ParseRowGroup(key).n} else {}
  {
    var all := front + [key];
    assert forall k :: k in all <==> k in front || k == key;
    if HitsMalformed(front, s) {
      var k :| k in front && Selects(s, k) && ParseRowGroup(k) == Malformed;
      assert k in all;
    }
    if Selects(s, key) {
      assert key in all;
    }
  }

  /** One more key read inside the slice. */
  lemma ScanAt(keys: seq<Bytes>, i: nat, s: Slice)
    requires i < |keys| && InSlice(keys[i], Utf8.Encode(s.low), Utf8.Encode(s.high))
    ensures HitsMalformed(keys[..i + 1], s)
       <==> HitsMalformed(keys[..i], s) || (PassesCheck(s, keys[i]) && ParseRowGroup(keys[i]) == Malformed)
    ensures GroupsSelected(keys[..i + 1], s)
         == GroupsSelected(keys[..i], s)
          + if PassesCheck(s, keys[i]) && ParseRowGroup(keys[i]).Group? then {ParseRowGroup(keys[i]).n} else {}
  {
    ScanStep(keys[..i], keys[i], s);
    assert keys[..i + 1] == keys[..i] + [keys[i]];
  }

  lemma UnselectedKeys(front: seq<Bytes>, back: seq<Bytes>, s: Slice)
    requires forall k :: k in back ==> !Selects(s, k)
    ensures HitsMalformed(front + back, s) == HitsMalformed(front, s)
    ensures GroupsSelected(front + back, s) == GroupsSelected(front, s)
  {
    assert forall k :: k in front + back <==> k in front || k in back;
    if HitsMalformed(front, s) {
      var k :| k in front && Selects(s, k) && ParseRowGroup(k) == Malformed;
      assert k in front + back;
    }
  }

  /** Nothing is selected before the lower bound. */
  lemma ScanBegin(keys: seq<Bytes>, i: nat, s: Slice)
    requires i <= |keys| && forall j :: 0 <= j < i ==> Less(keys[j], Utf8.Encode(s.low))
    ensures !HitsMalformed(keys[..i], s) && GroupsSelected(keys[..i], s) == {}
  {
    forall k | k in keys[..i] ensures !Selects(s, k) {
    }
  }

  /** Past the end of the slice no key is selected. */
  lemma RestUnselected(keys: Fst, s: Slice, i: nat)
    requires i <= |keys| && (i < |keys| ==> !Less(keys[i], Utf8.Encode(s.high)))
    ensures forall k :: k in keys[i..] ==> !Selects(s, k)
  {
    var end := Utf8.Encode(s.high);
    forall k | k in keys[i..] ensures !Selects(s, k) {
      var j :| i <= j < |keys| && keys[j] == k;
      if i < j && Less(k, end) {
        Transitive(keys[i], k, end);
      }
    }
  }

  /** So the keys read decide the result. */
  lemma ScanEnd(keys: Fst, i: nat, s: Slice)
    requires i <= |keys| && (i < |keys| ==> !Less(keys[i], Utf8.Encode(s.high)))
    ensures HitsMalformed(keys, s) == HitsMalformed(keys[..i], s)
    ensures GroupsSelected(keys, s) == GroupsSelected(keys[..i], s)
  {
    RestUnselected(keys, s, i);
    UnselectedKeys(keys[..i], keys[i..], s);
    assert keys[..i] + keys[i..] == keys;
  }

  /** A bad group number met on the way makes the search an error. */
  lemma ScanFails(keys: seq<Bytes>, key: Bytes, s: Slice)
    requires key in keys && InSlice(key, Utf8.Encode(s.low), Utf8.Encode(s.high))
    requires PassesCheck(s, key) && ParseRowGroup(key) == Malformed
    ensures Collect(keys, s) == Err
  {
  }

  /** Seek to the lower bound, read forward to the upper bound, gather group numbers in a hash set,
      then sort: the loop shared by the three searches. */
  method ScanSlice(keys: Fst, s: Slice) returns (r: Result<seq<nat>>)
    ensures r == Collect(keys, s)
    ensures FoundGroups(keys, s, r)
  {
    var startKey, endKey := Utf8.Encode(s.low), Utf8.Encode(s.high);
    var groups: set<nat> := {};
    var i := LowerBound(keys, startKey);
    ScanBegin(keys, i, s);
    while i < |keys| && Less(keys[i], endKey)
      invariant i <= |keys|
      invariant forall j :: i <= j < |keys| ==> !Less(keys[j], startKey)
      invariant groups == GroupsSelected(keys[..i], s)
      invariant !HitsMalformed(keys[..i], s)
    {
      var key := keys[i];
      ScanAt(keys, i, s);
      if PassesCheck(s, key) {
        var parsed := ParseRowGroup(key);
        if parsed == Malformed {
          ScanFails(keys, key, s);
          CollectMeaning(keys, s);
          return Err;
        }
        if parsed.Group? {
          groups := groups + {parsed.n};
        }
      }
      i := i + 1;
    }
    ScanEnd(keys, i, s);
    var sorted := Sorting.CollectSorted(groups);
    r := Ok(sorted);
    assert r == Collect(keys, s);
    CollectMeaning(keys, s);
  }

  /** Whether the first key at or after `term NUL` is still inside the slice. */
  method SetHasTerm(keys: Fst, term: string) returns (found: bool)
    ensures found <==> exists k :: k in keys && Selects(SliceOf(Exact(term)), k)
  {
    var s := SliceOf(Exact(term));
    var startKey, endKey := Utf8.Encode(s.low), Utf8.Encode(s.high);
    var i := LowerBound(keys, startKey);
    found := i < |keys| && Less(keys[i], endKey);
    if found {
      assert Selects(s, keys[i]) && keys[i] in keys;
    } else {
      RestUnselected(keys, s, i);
      assert forall k :: k in keys ==> k in keys[..i] || k in keys[i..];
    }
  }
}
