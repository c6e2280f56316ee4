/** The row-group selection of `scan`: one access plan per matched file, and the rows it reads. */
module ScanPlan {
  import opened Corpus
  import opened Decimal
  import opened Filters
  import opened Outcomes
  import Sorting

  datatype PlannedFile = PlannedFile(path: string, plan: seq<bool>)

  /** `new_none(total)` followed by `scan(rg)` for each matched group that the file has. */
  method AccessPlan(total: nat, groups: seq<nat>) returns (plan: seq<bool>)
    ensures |plan| == total
    ensures forall g :: 0 <= g < total ==> (plan[g] <==> g in groups)
  {
    var access := new bool[total](_ => false);
    for i := 0 to |groups|
      invariant forall g :: 0 <= g < total ==> (access[g] <==> g in groups[..i])
    {
      var rg := groups[i];
      assert groups[..i + 1] == groups[..i] + [rg];
      if rg < total {
        access[rg] := true;
      }
    }
    assert groups[..|groups|] == groups;
    plan := access[..];
  }

  /** Recorded row-group count, or the footer's for an index without one. */
  function RowGroupCount(recorded: Option<U64>, file: DataFile): nat {
    if recorded.Some? then recorded.value else |file.rowGroups|
  }

  function TotalUsed(counts: map<string, U64>, k: string, file: DataFile): nat {
    RowGroupCount(if k in counts then Some(counts[k]) else None, file)
  }

  /** The plan a matched file gets, if any: none for an empty set, a missing file, or when every
      matched group is beyond the file. */
  ghost function PlanFor(k: string, rowGroups: map<string, seq<nat>>, paths: map<string, string>,
                         counts: map<string, U64>, data: map<string, DataFile>): Option<PlannedFile>
    requires k in rowGroups && k in paths
  {
    var groups, path := rowGroups[k], paths[k];
    if groups == [] || path !in data then None else
      var total := TotalUsed(counts, k, data[path]);
      var plan := seq(total, g => g in groups);
      if exists g :: 0 <= g < total && g in groups then Some(PlannedFile(path, plan)) else None
  }

  /** A matched file gets a plan exactly when it exists and some matched group is below the total: the
      recorded count, right or wrong, or the footer's when there is none. The plan has one entry per group
      up to that total and marks the matched ones. */
  lemma PlanMeaning(k: string, rowGroups: map<string, seq<nat>>, paths: map<string, string>,
                    counts: map<string, U64>, data: map<string, DataFile>)
    requires k in rowGroups && k in paths
    ensures var planned := PlanFor(k, rowGroups, paths, counts, data);
            && (paths[k] !in data ==> planned == None)
            && (paths[k] in data ==>
                var total: nat := if k in counts then counts[k] else |data[paths[k]].rowGroups|;
                && (planned.Some? <==> exists g :: g in rowGroups[k] && g < total)
                && (planned.Some? ==>
                    && planned.value.path == paths[k] && |planned.value.plan| == total
                    && forall g :: 0 <= g < total ==> (planned.value.plan[g] <==> g in rowGroups[k])))
  {
    if rowGroups[k] != [] {
      assert rowGroups[k][0] in rowGroups[k];
    }
  }

  ghost function Plans(visit: seq<string>, rowGroups: map<string, seq<nat>>, paths: map<string, string>,
                       counts: map<string, U64>, data: map<string, DataFile>): seq<PlannedFile>
    requires forall k :: k in visit ==> k in rowGroups && k in paths
  {
    if visit == [] then [] else
      var n := |visit| - 1;
      var last := PlanFor(visit[n], rowGroups, paths, counts, data);
      Plans(visit[..n], rowGroups, paths, counts, data) + if last.Some? then [last.value] else []
  }

  lemma {:induction false} PlansMembers(visit: seq<string>, rowGroups: map<string, seq<nat>>,
                                        paths: map<string, string>, counts: map<string, U64>,
                                        data: map<string, DataFile>, f: PlannedFile)
    requires forall k :: k in visit ==> k in rowGroups && k in paths
    ensures f in Plans(visit, rowGroups, paths, counts, data)
       <==> exists k :: k in visit && PlanFor(k, rowGroups, paths, counts, data) == Some(f)
  {
    if visit != [] {
      var n := |visit| - 1;
      PlansMembers(visit[..n], rowGroups, paths, counts, data, f);
      assert forall k :: k in visit <==> k in visit[..n] || k == visit[n];
    }
  }

  /** Build the plans of all matched files, visiting them in any order. */
  method PlanScan(rowGroups: map<string, seq<nat>>, paths: map<string, string>, counts: map<string, U64>,
                  data: map<string, DataFile>)
    returns (files: seq<PlannedFile>, ghost visit: seq<string>)
    requires rowGroups.Keys == paths.Keys
    ensures forall k :: k in visit <==> k in rowGroups
    ensures Sorting.Distinct(visit)
    ensures files == Plans(visit, rowGroups, paths, counts, data)
    ensures forall f :: f in files
              <==> exists k :: k in rowGroups && PlanFor(k, rowGroups, paths, counts, data) == Some(f)
  {
    files, visit := [], [];
    var left := rowGroups.Keys;
    while left != {}
      invariant left <= rowGroups.Keys
      invariant forall k :: k in visit <==> k in rowGroups && k !in left
      invariant Sorting.Distinct(visit)
      invariant files == Plans(visit, rowGroups, paths, counts, data)
      decreases left
    {
      var k :| k in left;
      left := left - {k};
      assert forall i :: 0 <= i < |visit| ==> visit[i] in visit;
      ghost var was := visit;
      visit := visit + [k];
      assert visit[..|visit| - 1] == was;
      var planned := PlanFile(k, rowGroups, paths, counts, data);
      files := files + if planned.Some? then [planned.value] else [];
    }
    forall f
      ensures f in files <==> exists k :: k in rowGroups && PlanFor(k, rowGroups, paths, counts, data) == Some(f)
    {
      PlansMembers(visit, rowGroups, paths, counts, data, f);
    }
  }

  method PlanFile(k: string, rowGroups: map<string, seq<nat>>, paths: map<string, string>,
                  counts: map<string, U64>, data: map<string, DataFile>) returns (planned: Option<PlannedFile>)
    requires k in rowGroups && k in paths
    ensures planned == PlanFor(k, rowGroups, paths, counts, data)
  {
    var groups, path := rowGroups[k], paths[k];
    if groups == [] || path !in data {
      return None;
    }
    var total := TotalUsed(counts, k, data[path]);
    var plan := AccessPlan(total, groups);
    assert plan == seq(total, g => g in groups);
    if true in plan {
      assert exists g :: 0 <= g < total && plan[g];
      planned := Some(PlannedFile(path, plan));
    } else {
      assert forall g :: 0 <= g < total ==> plan[g] in plan;
      planned := None;
    }
  }

  // ---------------------------------------------------------------- rows

  function FileRows(groups: seq<RowGroup>): seq<Row> {
    if groups == [] then [] else
      FileRows(groups[..|groups| - 1]) + GroupRows(groups[|groups| - 1])
  }

  /** The rows an access plan reads. */
  function SelectedRows(groups: seq<RowGroup>, plan: seq<bool>): seq<Row>
    requires |plan| == |groups|
  {
    if groups == [] then [] else
      var n := |groups| - 1;
      SelectedRows(groups[..n], plan[..n]) + if plan[n] then GroupRows(groups[n]) else []
  }

  /** The filter applied above every scan. */
  ghost function Keep(rows: seq<Row>, filters: seq<Expr>): seq<Row> {
    if rows == [] then [] else
      var n := |rows| - 1;
      Keep(rows[..n], filters) + if Passes(filters, rows[n]) then [rows[n]] else []
  }

  lemma {:induction false} KeepConcat(a: seq<Row>, b: seq<Row>, filters: seq<Expr>)
    ensures Keep(a + b, filters) == Keep(a, filters) + Keep(b, filters)
  {
    if b == [] {
      assert a + b == a;
    } else {
      var n := |b| - 1;
      assert (a + b)[..|a + b| - 1] == a + b[..n];
      KeepConcat(a, b[..n], filters);
    }
  }

  lemma {:induction false} KeepNothing(rows: seq<Row>, filters: seq<Expr>)
    ensures Keep(rows, filters) == [] <==> forall row :: row in rows ==> !Passes(filters, row)
  {
    if rows != [] {
      var n := |rows| - 1;
      KeepNothing(rows[..n], filters);
      assert forall row :: row in rows <==> row in rows[..n] || row == rows[n];
    }
  }

  /** Some row of group `g` passes every filter. */
  ghost predicate GroupPasses(group: RowGroup, filters: seq<Expr>) {
    exists row :: row in GroupRows(group) && Passes(filters, row)
  }

  /** Skipping groups without a passing row loses nothing, not even the order of the rows. */
  lemma {:induction false} SkippingIsLossless(groups: seq<RowGroup>, plan: seq<bool>, filters: seq<Expr>)
    requires |plan| == |groups|
    requires forall g :: 0 <= g < |groups| && GroupPasses(groups[g], filters) ==> plan[g]
    ensures Keep(SelectedRows(groups, plan), filters) == Keep(FileRows(groups), filters)
  {
    if groups != [] {
      var n := |groups| - 1;
      assert forall g :: 0 <= g < n ==> groups[..n][g] == groups[g] && plan[..n][g] == plan[g];
      SkippingIsLossless(groups[..n], plan[..n], filters);
      var last := if plan[n] then GroupRows(groups[n]) else [];
      KeepConcat(SelectedRows(groups[..n], plan[..n]), last, filters);
      KeepConcat(FileRows(groups[..n]), GroupRows(groups[n]), filters);
      KeepNothing(GroupRows(groups[n]), filters);
    }
  }

  lemma KeepGroupNothing(group: RowGroup, filters: seq<Expr>)
    ensures Keep(GroupRows(group), filters) == [] <==> !GroupPasses(group, filters)
  {
    KeepNothing(GroupRows(group), filters);
  }

  lemma {:induction false} NoPassingGroupIn(groups: seq<RowGroup>, filters: seq<Expr>)
    ensures Keep(FileRows(groups), filters) == [] <==> forall group :: group in groups ==> !GroupPasses(group, filters)
  {
    if groups == [] {
      assert FileRows(groups) == [];
    } else {
      var front, last := groups[..|groups| - 1], groups[|groups| - 1];
      NoPassingGroupIn(front, filters);
      assert Keep(FileRows(groups), filters) == Keep(FileRows(front), filters) + Keep(GroupRows(last), filters) by {
        KeepConcat(FileRows(front), GroupRows(last), filters);
      }
      KeepGroupNothing(last, filters);
      assert groups == front + [last];
      assert |Keep(FileRows(groups), filters)| == |Keep(FileRows(front), filters)| + |Keep(GroupRows(last), filters)|;
    }
  }

  lemma NoPassingGroup(groups: seq<RowGroup>, filters: seq<Expr>)
    ensures Keep(FileRows(groups), filters) == []
       <==> forall g :: 0 <= g < |groups| ==> !GroupPasses(groups[g], filters)
  {
    NoPassingGroupIn(groups, filters);
  }
}
