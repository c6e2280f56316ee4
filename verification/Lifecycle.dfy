/** Every run of writes, deletes, builds and prunes over a data directory and its index directory. */
module Lifecycle {
  import opened Corpus
  import opened IndexBuilder
  import opened IndexRoot
  import opened Metadata
  import opened Outcomes
  import opened PathMaps
  import opened Snapshots

  datatype Event =
    | Write(path: string, version: FileVersion)
    | Delete(path: string)
    | Build(column: string, force: bool)
    | Prune

  datatype State = State(data: DataDir, root: Root)

  function Written(events: seq<Event>): set<string> {
    set e | e in events && e.Write? :: e.path
  }

  /** The state a run leads to, on the stored text and key bytes. */
  ghost function Run(hash: PathHash, events: seq<Event>): (s: State)
    requires InjectiveOn(hash, Written(events))
    ensures s.data.Keys <= Written(events)
  {
    if events == [] then State(map[], map[]) else
      var n := |events| - 1;
      assert Written(events[..n]) <= Written(events);
      var s := Run(hash, events[..n]);
      match events[n]
      case Write(p, v) =>
        assert events[n] in events;
        s.(data := s.data[p := v])
      case Delete(p) => s.(data := s.data - {p})
      case Build(c, force) => s.(root := Rebuilt(s.root, hash, s.data, c, force))
      case Prune => s.(root := Pruned(s.root, s.data.Keys))
  }

  // ---------------------------------------------------------------- the run on snapshots

  datatype Track = Track(data: DataDir, snaps: Snapshots)

  ghost function Step(t: Track, e: Event): Track {
    match e
    case Write(p, v) => t.(data := t.data[p := v])
    case Delete(p) => t.(data := t.data - {p})
    case Build(c, force) => t.(snaps := RebuiltSnapshots(t.snaps, t.data, c, force))
    case Prune => t.(snaps := Existing(t.snaps, t.data.Keys))
  }

  ghost function Tracked(events: seq<Event>): Track {
    if events == [] then Track(map[], map[]) else Step(Tracked(events[..|events| - 1]), events[|events| - 1])
  }

  lemma {:induction false} TrackedPaths(events: seq<Event>)
    ensures Tracked(events).data.Keys <= Written(events)
    ensures Tracked(events).snaps.Keys <= Written(events)
  {
    if events != [] {
      var n := |events| - 1;
      TrackedPaths(events[..n]);
      assert Written(events[..n]) <= Written(events);
      assert events[n] in events;
    }
  }

  ghost predicate PathsInOrder(hash: PathHash, events: seq<Event>) {
    InjectiveOn(hash, Written(events)) && OneLinePaths(Written(events))
  }

  lemma PathsInOrderBefore(hash: PathHash, events: seq<Event>)
    requires PathsInOrder(hash, events) && events != []
    ensures Written(events[..|events| - 1]) <= Written(events)
    ensures PathsInOrder(hash, events[..|events| - 1])
  {
  }

  /** Along every run the stored directory is the one the snapshots describe. */
  lemma {:induction false} RunIsTracked(hash: PathHash, events: seq<Event>)
    requires PathsInOrder(hash, events)
    ensures Tracked(events).snaps.Keys <= Written(events)
    ensures Run(hash, events) == State(Tracked(events).data, Render(hash, Tracked(events).snaps))
  {
    TrackedPaths(events);
    if events == [] {
      assert Render(hash, map[]) == map[];
    } else {
      var n := |events| - 1;
      PathsInOrderBefore(hash, events);
      RunIsTracked(hash, events[..n]);
      TrackedPaths(events[..n]);
      var t := Tracked(events[..n]);
      if events[n].Build? {
        InjectiveOnFewer(hash, Written(events), t.snaps.Keys + t.data.Keys);
        RebuiltRendered(hash, t.snaps, t.data, events[n].column, events[n].force);
      } else if events[n].Prune? {
        InjectiveOnFewer(hash, Written(events), t.snaps.Keys);
        PrunedRendered(hash, t.snaps, t.data.Keys);
      }
    }
  }

  // ---------------------------------------------------------------- freshness

  /** A change of content at a path changes its stamp. */
  ghost predicate StampsIdentify(events: seq<Event>) {
    forall p, v, w :: Write(p, v) in events && Write(p, w) in events && v.stamp == w.stamp ==> v.content == w.content
  }

  ghost predicate OnlyColumn(events: seq<Event>, column: string) {
    forall e :: e in events && e.Build? ==> e.column == column
  }

  ghost predicate DataWritten(events: seq<Event>, t: Track) {
    forall p :: p in t.data ==> Write(p, t.data[p]) in events
  }

  /** One column per index: what is indexed at a path is a version written there, and its stamp,
      contents and row-group count belong together. */
  ghost predicate SnapshotsWritten(events: seq<Event>, t: Track, column: string) {
    forall p :: p in t.snaps ==>
      var s := t.snaps[p];
      && s.columns.Keys == {column}
      && s.groups == |s.columns[column].rowGroups|
      && Write(p, FileVersion(s.stamp, s.columns[column])) in events
  }

  lemma {:induction false} DataComesFromWrites(events: seq<Event>)
    ensures DataWritten(events, Tracked(events))
  {
    if events != [] {
      var n := |events| - 1;
      DataComesFromWrites(events[..n]);
      assert events == events[..n] + [events[n]];
    }
  }

  lemma WrittenStep(before: seq<Event>, e: Event, t: Track, column: string)
    requires e.Build? ==> e.column == column
    requires DataWritten(before, t) && SnapshotsWritten(before, t, column)
    ensures SnapshotsWritten(before + [e], Step(t, e), column)
  {
    var all, next := before + [e], Step(t, e);
    assert forall x :: x in before ==> x in all;
    forall p | p in next.snaps
      ensures var s := next.snaps[p];
              && s.columns.Keys == {column} && s.groups == |s.columns[column].rowGroups|
              && Write(p, FileVersion(s.stamp, s.columns[column])) in all
    {
      if e.Build? && p in StaleFiles(t.snaps, t.data, column, e.force) {
        assert Write(p, t.data[p]) in before;
      } else {
        assert p in t.snaps && next.snaps[p] == t.snaps[p];
      }
    }
  }

  lemma {:induction false} SnapshotsComeFromWrites(events: seq<Event>, column: string)
    requires OnlyColumn(events, column)
    ensures SnapshotsWritten(events, Tracked(events), column)
  {
    if events != [] {
      var n := |events| - 1;
      var before, e := events[..n], events[n];
      assert events == before + [e];
      SnapshotsComeFromWrites(before, column);
      DataComesFromWrites(before);
      WrittenStep(before, e, Tracked(before), column);
    }
  }

  /** The path's FST for the column is the one its current contents would give. */
  ghost predicate FstIsCurrent(hash: PathHash, s: State, path: string, column: string) {
    && path in s.data && hash(path) in s.root && column in s.root[hash(path)].fsts
    && s.root[hash(path)].fsts[column] == FstOf(s.data[path].content, column)
  }

  ghost predicate MetadataIsCurrent(hash: PathHash, s: State, path: string) {
    && path in s.data && hash(path) in s.root
    && s.root[hash(path)].metadata == Some(Format(path, s.data[path].stamp, |s.data[path].content.rowGroups|))
  }

  ghost predicate TrackCurrent(t: Track, path: string, column: string) {
    && path in t.data && path in t.snaps && column in t.snaps[path].columns
    && t.snaps[path] == Snapshot(t.data[path].stamp, |t.data[path].content.rowGroups|, t.snaps[path].columns)
    && t.snaps[path].columns[column] == t.data[path].content
  }

  lemma CurrentRendered(hash: PathHash, t: Track, path: string, column: string)
    requires InjectiveOn(hash, t.snaps.Keys) && TrackCurrent(t, path, column)
    ensures FstIsCurrent(hash, State(t.data, Render(hash, t.snaps)), path, column)
    ensures MetadataIsCurrent(hash, State(t.data, Render(hash, t.snaps)), path)
  {
    assert path in Dirs(t.snaps);
  }

  lemma TrackNeedsIndexing(hash: PathHash, events: seq<Event>, path: string, column: string)
    requires PathsInOrder(hash, events) && path in Run(hash, events).data
    ensures var s, t := Run(hash, events), Tracked(events);
            && s.data == t.data
            && (NeedsIndexing(s.root, hash, path, s.data[path].stamp, column)
                <==> !UpToDate(t.snaps, path, t.data[path].stamp, column))
  {
    var t := Tracked(events);
    RunIsTracked(hash, events);
    TrackedPaths(events);
    InjectiveOnFewer(hash, Written(events), t.snaps.Keys + {path});
    NeedsIndexingRendered(hash, t.snaps, path, t.data[path].stamp, column);
  }

  /** One column per index directory: in every run, when the stored stamp matches the file, the FST
      and the recorded row-group count are those of the file's current contents. */
  lemma MatchingStampMeansCurrent(hash: PathHash, events: seq<Event>, path: string, column: string)
    requires PathsInOrder(hash, events) && StampsIdentify(events) && OnlyColumn(events, column)
    requires var s := Run(hash, events);
             path in s.data && !NeedsIndexing(s.root, hash, path, s.data[path].stamp, column)
    ensures FstIsCurrent(hash, Run(hash, events), path, column)
    ensures MetadataIsCurrent(hash, Run(hash, events), path)
  {
    var t := Tracked(events);
    RunIsTracked(hash, events);
    TrackNeedsIndexing(hash, events, path, column);
    SnapshotsComeFromWrites(events, column);
    DataComesFromWrites(events);
    CurrentRendered(hash, t, path, column);
  }

  lemma OneMoreBuild(hash: PathHash, events: seq<Event>, column: string, force: bool)
    requires PathsInOrder(hash, events)
    ensures var all := events + [Build(column, force)];
            && Written(all) == Written(events) && PathsInOrder(hash, all)
            && Tracked(all) == Step(Tracked(events), Build(column, force))
            && Run(hash, all) == (var s := Run(hash, events); s.(root := Rebuilt(s.root, hash, s.data, column, force)))
  {
    var all := events + [Build(column, force)];
    assert all[..|all| - 1] == events;
    assert Written(all) == Written(events);
  }

  lemma BuiltUpToDate(t: Track, column: string, force: bool, path: string)
    requires path in t.data
    ensures UpToDate(Step(t, Build(column, force)).snaps, path, t.data[path].stamp, column)
  {
  }

  /** After a build every file is up to date in the eyes of the staleness check. */
  lemma NothingStaleAfterBuild(hash: PathHash, events: seq<Event>, column: string, force: bool, path: string)
    requires PathsInOrder(hash, events) && path in Run(hash, events).data
    ensures var all := events + [Build(column, force)];
            && Written(all) == Written(events)
            && !NeedsIndexing(Run(hash, all).root, hash, path, Run(hash, all).data[path].stamp, column)
  {
    var all := events + [Build(column, force)];
    OneMoreBuild(hash, events, column, force);
    TrackNeedsIndexing(hash, all, path, column);
    RunIsTracked(hash, events);
    BuiltUpToDate(Tracked(events), column, force, path);
  }

  lemma BuiltTrackCurrent(events: seq<Event>, column: string, force: bool, path: string)
    requires StampsIdentify(events) && (force || OnlyColumn(events, column))
    requires path in Tracked(events).data
    ensures TrackCurrent(Step(Tracked(events), Build(column, force)), path, column)
  {
    var t := Tracked(events);
    if !force && UpToDate(t.snaps, path, t.data[path].stamp, column) {
      DataComesFromWrites(events);
      SnapshotsComeFromWrites(events, column);
    }
  }

  /** After a successful build every data file's FST and metadata are those of its current contents:
      in every run that indexes one column, and for a forced build in every run at all. */
  lemma BuildMakesCurrent(hash: PathHash, events: seq<Event>, column: string, force: bool, path: string)
    requires PathsInOrder(hash, events) && StampsIdentify(events)
    requires force || OnlyColumn(events, column)
    requires path in Run(hash, events).data
    ensures var all := events + [Build(column, force)];
            && Written(all) == Written(events)
            && FstIsCurrent(hash, Run(hash, all), path, column)
            && MetadataIsCurrent(hash, Run(hash, all), path)
  {
    var all := events + [Build(column, force)];
    OneMoreBuild(hash, events, column, force);
    RunIsTracked(hash, events);
    RunIsTracked(hash, all);
    TrackedPaths(all);
    BuiltTrackCurrent(events, column, force, path);
    CurrentRendered(hash, Tracked(all), path, column);
  }

  /** A second build over unchanged data rewrites nothing. */
  lemma SecondBuildIdle(hash: PathHash, events: seq<Event>, column: string, force: bool)
    requires PathsInOrder(hash, events)
    ensures var all := events + [Build(column, force)];
            && Written(all) == Written(events)
            && ToIndex(Run(hash, all).root, hash, Run(hash, all).data, column, false) == {}
            && Rebuilt(Run(hash, all).root, hash, Run(hash, all).data, column, false) == Run(hash, all).root
  {
    var all := events + [Build(column, force)];
    OneMoreBuild(hash, events, column, force);
    var s := Run(hash, all);
    assert s.data == Run(hash, events).data;
    forall p | p in s.data ensures !NeedsIndexing(s.root, hash, p, s.data[p].stamp, column) {
      NothingStaleAfterBuild(hash, events, column, force, p);
    }
    NothingToDo(s.root, hash, s.data, column);
  }

  lemma NothingToDo(root: Root, hash: PathHash, data: DataDir, column: string)
    requires InjectiveOn(hash, data.Keys)
    requires forall p :: p in data ==> !NeedsIndexing(root, hash, p, data[p].stamp, column)
    ensures ToIndex(root, hash, data, column, false) == {}
    ensures Rebuilt(root, hash, data, column, false) == root
  {
    assert ToIndex(root, hash, data, column, false) == {};
    AllVisited(root, hash, data, column, false);
    ReindexNone(root, hash, data, column);
  }

  ghost predicate WrittenAs(events: seq<Event>, path: string, content: DataFile) {
    exists v :: Write(path, v) in events && v.content == content
  }

  ghost predicate ColumnsWritten(events: seq<Event>, snaps: Snapshots) {
    forall p, c :: p in snaps && c in snaps[p].columns ==> WrittenAs(events, p, snaps[p].columns[c])
  }

  lemma ColumnsWrittenStep(before: seq<Event>, e: Event, t: Track)
    requires DataWritten(before, t) && ColumnsWritten(before, t.snaps)
    ensures ColumnsWritten(before + [e], Step(t, e).snaps)
  {
    var next := Step(t, e).snaps;
    assert forall x :: x in before ==> x in before + [e];
    forall p, c | p in next && c in next[p].columns ensures WrittenAs(before + [e], p, next[p].columns[c]) {
      if e.Build? && c == e.column && p in StaleFiles(t.snaps, t.data, c, e.force) {
        assert Write(p, t.data[p]) in before + [e];
      } else {
        assert p in t.snaps && c in t.snaps[p].columns && next[p].columns[c] == t.snaps[p].columns[c];
        var v :| Write(p, v) in before && v.content == t.snaps[p].columns[c];
        assert Write(p, v) in before + [e];
      }
    }
  }

  lemma {:induction false} ColumnsComeFromWrites(events: seq<Event>)
    ensures ColumnsWritten(events, Tracked(events).snaps)
  {
    if events != [] {
      var before, e := events[..|events| - 1], events[|events| - 1];
      assert events == before + [e];
      ColumnsComeFromWrites(before);
      DataComesFromWrites(before);
      ColumnsWrittenStep(before, e, Tracked(before));
    }
  }

  /** In every run, with any number of columns, every stored FST is whole: it is the FST of some
      version that was written at the path behind its directory. */
  lemma EveryFstIsOfAVersion(hash: PathHash, events: seq<Event>, h: string, column: string) returns (path: string,
                             v: FileVersion)
    requires PathsInOrder(hash, events)
    requires h in Run(hash, events).root && column in Run(hash, events).root[h].fsts
    ensures hash(path) == h && Write(path, v) in events
    ensures Run(hash, events).root[h].fsts[column] == FstOf(v.content, column)
  {
    var t := Tracked(events);
    RunIsTracked(hash, events);
    ColumnsComeFromWrites(events);
    path :| path in Dirs(t.snaps) && hash(path) == h;
    assert WrittenAs(events, path, t.snaps[path].columns[column]);
    v :| Write(path, v) in events && v.content == t.snaps[path].columns[column];
  }

  function FirstRound(p: string, v: FileVersion, a: string, b: string): seq<Event> {
    [Write(p, v), Build(a, false), Build(b, false)]
  }

  lemma FirstRoundTrack(p: string, v: FileVersion, a: string, b: string)
    requires a != b
    ensures Tracked(FirstRound(p, v, a, b))
         == Track(map[p := v], map[p := Snapshot(v.stamp, |v.content.rowGroups|, map[a := v.content, b := v.content])])
  {
    var e := FirstRound(p, v, a, b);
    assert e[..2][..1] == [Write(p, v)] && [Write(p, v)][..0] == [];
    var one := Tracked([Write(p, v)]);
    assert Tracked([]) == Track(map[], map[]);
    assert one.data == map[p := v] && one.snaps == map[];
    var two := Tracked(e[..2]);
    assert StaleFiles(one.snaps, one.data, a, false) == {p};
    assert two.snaps == map[p := Snapshot(v.stamp, |v.content.rowGroups|, map[a := v.content])];
    assert StaleFiles(two.snaps, two.data, b, false) == {p};
  }

  lemma SecondRoundTrack(t: Track, p: string, v: FileVersion, w: FileVersion, a: string, b: string)
    requires a != b && v.stamp != w.stamp
    requires t == Track(map[p := v],
                        map[p := Snapshot(v.stamp, |v.content.rowGroups|, map[a := v.content, b := v.content])])
    ensures Step(Step(Step(t, Write(p, w)), Build(a, false)), Build(b, false))
         == Track(map[p := w], map[p := Snapshot(w.stamp, |w.content.rowGroups|, map[a := w.content, b := v.content])])
  {
    var four := Step(t, Write(p, w));
    assert StaleFiles(four.snaps, four.data, a, false) == {p};
    var five := Step(four, Build(a, false));
    assert map[a := v.content, b := v.content][a := w.content] == map[a := w.content, b := v.content];
    assert five.snaps == map[p := Snapshot(w.stamp, |w.content.rowGroups|, map[a := w.content, b := v.content])];
    assert StaleFiles(five.snaps, five.data, b, false) == {};
  }

  function TwoRounds(p: string, v: FileVersion, w: FileVersion, a: string, b: string): seq<Event> {
    FirstRound(p, v, a, b) + FirstRound(p, w, a, b)
  }

  lemma TwoRoundsTrack(p: string, v: FileVersion, w: FileVersion, a: string, b: string)
    requires a != b && v.stamp != w.stamp
    ensures Tracked(TwoRounds(p, v, w, a, b))
         == Track(map[p := w], map[p := Snapshot(w.stamp, |w.content.rowGroups|, map[a := w.content, b := v.content])])
  {
    var first, events := FirstRound(p, v, a, b), TwoRounds(p, v, w, a, b);
    assert events[..5] == first + [Write(p, w), Build(a, false)];
    assert events[..5][..4] == first + [Write(p, w)];
    assert events[..5][..4][..3] == first;
    assert Tracked(events) == Step(Tracked(events[..5]), Build(b, false));
    assert Tracked(events[..5]) == Step(Tracked(events[..5][..4]), Build(a, false));
    assert Tracked(events[..5][..4]) == Step(Tracked(first), Write(p, w));
    FirstRoundTrack(p, v, a, b);
    SecondRoundTrack(Tracked(first), p, v, w, a, b);
  }

  lemma TwoRoundsInOrder(hash: PathHash, p: string, v: FileVersion, w: FileVersion, a: string, b: string)
    requires v.stamp != w.stamp && OneLinePath(p)
    ensures PathsInOrder(hash, TwoRounds(p, v, w, a, b)) && StampsIdentify(TwoRounds(p, v, w, a, b))
  {
    var events := TwoRounds(p, v, w, a, b);
    assert forall e :: e in events && e.Write? ==> e == Write(p, v) || e == Write(p, w);
    assert forall q :: q in Written(events) ==> q == p;
  }

  /** Why one column per index: with two columns, rebuilding the first after a change rewrites the
      metadata they share, so the second is taken for current although its FST is of the old version. */
  lemma TwoColumnsGoStale(hash: PathHash, p: string, v: FileVersion, w: FileVersion, a: string, b: string)
    requires a != b && v.stamp != w.stamp && OneLinePath(p)
    requires FstOf(v.content, b) != FstOf(w.content, b)
    ensures var events := TwoRounds(p, v, w, a, b);
            && PathsInOrder(hash, events) && StampsIdentify(events)
            && (var s := Run(hash, events);
                && MetadataIsCurrent(hash, s, p) && !NeedsIndexing(s.root, hash, p, w.stamp, b)
                && FstIsCurrent(hash, s, p, a) && !FstIsCurrent(hash, s, p, b))
  {
    var events := TwoRounds(p, v, w, a, b);
    TwoRoundsInOrder(hash, p, v, w, a, b);
    TwoRoundsTrack(p, v, w, a, b);
    var t := Tracked(events);
    RunIsTracked(hash, events);
    TrackNeedsIndexing(hash, events, p, b);
    CurrentRendered(hash, t, p, a);
    StaleRendered(hash, t, p, b);
  }

  lemma StaleRendered(hash: PathHash, t: Track, path: string, column: string)
    requires InjectiveOn(hash, t.snaps.Keys) && path in t.snaps && path in t.data && column in t.snaps[path].columns
    ensures FstIsCurrent(hash, State(t.data, Render(hash, t.snaps)), path, column)
       <==> FstOf(t.snaps[path].columns[column], column) == FstOf(t.data[path].content, column)
  {
    assert path in Dirs(t.snaps);
  }
}
