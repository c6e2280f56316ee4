/** Adding up the rows of a list of files, whatever order the files come in. */
module RowTotals {
  import opened Corpus
  import Sorting

  ghost function Sum(paths: seq<string>, rows: map<string, multiset<Row>>): multiset<Row>
    requires forall p :: p in paths ==> p in rows
  {
    if paths == [] then multiset{} else
      var n := |paths| - 1;
      Sum(paths[..n], rows) + rows[paths[n]]
  }

  lemma {:induction false} SumConcat(a: seq<string>, b: seq<string>, rows: map<string, multiset<Row>>)
    requires forall p :: p in a || p in b ==> p in rows
    ensures Sum(a + b, rows) == Sum(a, rows) + Sum(b, rows)
  {
    if b == [] {
      assert a + b == a;
    } else {
      var n := |b| - 1;
      assert (a + b)[..|a + b| - 1] == a + b[..n];
      SumConcat(a, b[..n], rows);
    }
  }

  lemma SumWithout(a: seq<string>, i: nat, rows: map<string, multiset<Row>>)
    requires i < |a| && forall p :: p in a ==> p in rows
    ensures Sum(a, rows) == Sum(a[..i] + a[i + 1..], rows) + rows[a[i]]
  {
    assert a == a[..i] + [a[i]] + a[i + 1..];
    SumConcat(a[..i] + [a[i]], a[i + 1..], rows);
    SumConcat(a[..i], [a[i]], rows);
    SumConcat(a[..i], a[i + 1..], rows);
    assert [a[i]][..0] == [];
  }

  lemma RemoveAt(a: seq<string>, i: nat)
    requires i < |a| && Sorting.Distinct(a)
    ensures var rest := a[..i] + a[i + 1..];
            && Sorting.Distinct(rest) && a[i] !in rest
            && forall p :: p in a <==> p in rest || p == a[i]
  {
    var rest := a[..i] + a[i + 1..];
    assert forall j :: 0 <= j < |rest| ==> rest[j] == if j < i then a[j] else a[j + 1];
    assert a == a[..i] + [a[i]] + a[i + 1..];
  }

  /** The part has all the rows of the whole iff what it leaves out has none. */
  ghost predicate SubtotalRight(all: seq<string>, part: seq<string>, rows: map<string, multiset<Row>>)
    requires forall p :: p in all || p in part ==> p in rows
  {
    && Sum(part, rows) <= Sum(all, rows)
    && (Sum(part, rows) == Sum(all, rows) <==> forall p :: p in all && p !in part ==> rows[p] == multiset{})
  }

  lemma SubtotalStep(front: seq<string>, x: string, part: seq<string>, rest: seq<string>,
                     rows: map<string, multiset<Row>>)
    requires forall p :: p in front || p == x || p in part || p in rest ==> p in rows
    requires x !in front && x !in rest && SubtotalRight(front, rest, rows)
    requires forall p :: p in part <==> p in rest || p == x
    requires Sum(part, rows) == Sum(rest, rows) + rows[x]
    ensures SubtotalRight(front + [x], part, rows)
  {
    assert (front + [x])[..|front|] == front;
    assert forall p :: p in front + [x] && p !in part <==> p in front && p !in rest;
    assert Sum(rest, rows) + rows[x] == Sum(front, rows) + rows[x] ==> Sum(rest, rows) == Sum(front, rows) by {
      AddedBack(Sum(rest, rows), Sum(front, rows), rows[x]);
    }
  }

  lemma AddedBack(a: multiset<Row>, b: multiset<Row>, c: multiset<Row>)
    ensures a + c == b + c ==> a == b
  {
    assert (a + c) - c == a && (b + c) - c == b;
  }

  lemma SubtotalSkip(front: seq<string>, x: string, part: seq<string>, rows: map<string, multiset<Row>>)
    requires forall p :: p in front || p == x || p in part ==> p in rows
    requires x !in part && SubtotalRight(front, part, rows)
    ensures SubtotalRight(front + [x], part, rows)
  {
    assert (front + [x])[..|front|] == front;
    var a, b := Sum(part, rows), Sum(front, rows);
    if a == b + rows[x] {
      assert |a| <= |b| && |rows[x]| == 0;
    }
  }

  /** A sub-collection of distinct files has all the rows iff the files left out have none. */
  lemma {:induction false} SubtotalIff(all: seq<string>, part: seq<string>, rows: map<string, multiset<Row>>)
    requires Sorting.Distinct(all) && Sorting.Distinct(part)
    requires forall p :: p in part ==> p in all
    requires forall p :: p in all ==> p in rows
    ensures SubtotalRight(all, part, rows)
    decreases |all|
  {
    assert part != [] ==> part[0] in all;
    if all != [] {
      var n := |all| - 1;
      var x, front := all[n], all[..n];
      assert all == front + [x];
      assert x !in front;
      if x in part {
        var i :| 0 <= i < |part| && part[i] == x;
        var rest := part[..i] + part[i + 1..];
        SumWithout(part, i, rows);
        RemoveAt(part, i);
        SubtotalIff(front, rest, rows);
        SubtotalStep(front, x, part, rest, rows);
      } else {
        SubtotalIff(front, part, rows);
        SubtotalSkip(front, x, part, rows);
      }
    }
  }
}
