/** Strictly ascending sequences under a strict total order: the shape both of a finished FST
    (byte keys) and of a search result (row-group numbers). */
module Sorting {

  ghost predicate TotalOrder<T(!new)>(lt: (T, T) -> bool) {
    && (forall a :: !lt(a, a))
    && (forall a, b, c :: lt(a, b) && lt(b, c) ==> lt(a, c))
    && (forall a, b :: a == b || lt(a, b) || lt(b, a))
  }

  ghost predicate Ascending<T>(s: seq<T>, lt: (T, T) -> bool) {
    forall i, j :: 0 <= i < j < |s| ==> lt(s[i], s[j])
  }

  ghost predicate Distinct<T>(s: seq<T>) {
    forall i, j :: 0 <= i < j < |s| ==> s[i] != s[j]
  }

  ghost predicate IsLeast<T>(m: T, s: set<T>, lt: (T, T) -> bool) {
    m in s && forall x :: x in s ==> x == m || lt(m, x)
  }

  predicate NatLess(a: nat, b: nat) { a < b }

  lemma {:induction false} LeastExists<T(!new)>(s: set<T>, lt: (T, T) -> bool) returns (m: T)
    requires TotalOrder(lt) && s != {}
    ensures IsLeast(m, s, lt)
    decreases s
  {
    m :| m in s;
    var rest := s - {m};
    assert forall x :: x in s ==> x == m || x in rest;
    if rest != {} {
      var n := LeastExists(rest, lt);
      if lt(n, m) {
        m := n;
      }
    }
  }

  ghost predicate IsListing<T(!new)>(r: seq<T>, s: set<T>, lt: (T, T) -> bool) {
    Ascending(r, lt) && (forall x :: x in r <==> x in s) && |r| == |s|
  }

  lemma {:induction false} ListingExists<T(!new)>(s: set<T>, lt: (T, T) -> bool) returns (r: seq<T>)
    requires TotalOrder(lt)
    ensures IsListing(r, s, lt)
    decreases s
  {
    if s == {} {
      r := [];
    } else {
      var m := LeastExists(s, lt);
      var rest := ListingExists(s - {m}, lt);
      r := [m] + rest;
    }
  }

  /** The one strictly ascending listing of a finite set. */
  ghost function Sorted<T(!new)>(s: set<T>, lt: (T, T) -> bool): (r: seq<T>)
    requires TotalOrder(lt)
    ensures IsListing(r, s, lt)
  {
    assert exists r :: IsListing(r, s, lt) by { var r := ListingExists(s, lt); }
    var r :| IsListing(r, s, lt);
    r
  }

  /** Two strictly ascending listings of the same elements are the same sequence. */
  lemma {:induction false} AscendingUnique<T(!new)>(a: seq<T>, b: seq<T>, lt: (T, T) -> bool)
    requires TotalOrder(lt)
    requires Ascending(a, lt) && Ascending(b, lt)
    requires forall x :: x in a <==> x in b
    ensures a == b
  {
    assert b != [] ==> b[0] in a;
    if a != [] {
      assert a[0] in b;
      assert a[0] == b[0];
      forall x ensures x in a[1..] <==> x in b[1..] {
        if x in a[1..] {
          assert x in a && x in b && x != b[0];
        }
        if x in b[1..] {
          assert x in b && x in a && x != a[0];
        }
      }
      AscendingUnique(a[1..], b[1..], lt);
      assert a == [a[0]] + a[1..] && b == [b[0]] + b[1..];
    }
  }

  lemma SortedIs<T(!new)>(a: seq<T>, s: set<T>, lt: (T, T) -> bool)
    requires TotalOrder(lt)
    requires Ascending(a, lt)
    requires forall x :: x in a <==> x in s
    ensures a == Sorted(s, lt)
  {
    AscendingUnique(a, Sorted(s, lt), lt);
  }

  lemma NatLessTotal()
    ensures TotalOrder(NatLess)
  {
  }

  /** `HashSet` drained into a `Vec` and sorted: the last step of every search. */
  method CollectSorted(groups: set<nat>) returns (r: seq<nat>)
    ensures TotalOrder(NatLess)
    ensures r == Sorted(groups, NatLess)
  {
    NatLessTotal();
    r := [];
    var left := groups;
    while left != {}
      invariant left <= groups
      invariant Ascending(r, NatLess)
      invariant forall x :: x in r <==> x in groups - left
      invariant forall x, y :: x in r && y in left ==> x < y
      decreases left
    {
      ghost var least := LeastExists(left, NatLess);
      assert forall x :: x in left ==> least <= x;
      var m :| m in left && forall x :: x in left ==> m <= x;
      forall i | 0 <= i < |r| ensures NatLess(r[i], m) {
        assert r[i] in r && m in left;
      }
      r := r + [m];
      left := left - {m};
    }
    SortedIs(r, groups, NatLess);
  }
}
