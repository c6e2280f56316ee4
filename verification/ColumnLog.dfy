/** Several columns in one index directory: what a log of the re-indexed versions says about them. */
module ColumnLog {
  import opened IndexBuilder
  import opened IndexRoot
  import opened Lifecycle
  import opened Outcomes
  import opened PathMaps
  import opened Snapshots

  /** The event, coming after these, indexes the column of the file anew. */
  ghost predicate Reindexes(hash: PathHash, events: seq<Event>, e: Event, path: string, column: string)
    requires InjectiveOn(hash, Written(events))
  {
    var s := Run(hash, events);
    && e.Build? && e.column == column && path in s.data
    && (e.force || NeedsIndexing(s.root, hash, path, s.data[path].stamp, column))
  }

  /** The event removes the index of a path whose file is gone. */
  ghost predicate Discards(hash: PathHash, events: seq<Event>, e: Event, path: string)
    requires InjectiveOn(hash, Written(events))
  {
    e.Prune? && path !in Run(hash, events).data
  }

  /** The version the file had when the column was last indexed. */
  ghost function LastIndexed(hash: PathHash, events: seq<Event>, path: string, column: string): Option<FileVersion>
    requires InjectiveOn(hash, Written(events))
  {
    if events == [] then None else
      var before, e := events[..|events| - 1], events[|events| - 1];
      assert Written(before) <= Written(events);
      if Reindexes(hash, before, e, path, column) then Some(Run(hash, before).data[path])
      else if Discards(hash, before, e, path) then None
      else LastIndexed(hash, before, path, column)
  }

  /** The version the file had when any of its columns was last indexed. */
  ghost function LastTouched(hash: PathHash, events: seq<Event>, path: string): Option<FileVersion>
    requires InjectiveOn(hash, Written(events))
  {
    if events == [] then None else
      var before, e := events[..|events| - 1], events[|events| - 1];
      assert Written(before) <= Written(events);
      if e.Build? && Reindexes(hash, before, e, path, e.column) then Some(Run(hash, before).data[path])
      else if Discards(hash, before, e, path) then None
      else LastTouched(hash, before, path)
  }

  /** The snapshot of a path is what the log says. */
  ghost predicate Logged(snaps: Snapshots, path: string, column: string, indexed: Option<FileVersion>,
                         touched: Option<FileVersion>) {
    && (path in snaps <==> touched.Some?)
    && (path in snaps ==>
        && snaps[path].stamp == touched.value.stamp && snaps[path].groups == |touched.value.content.rowGroups|
        && (column in snaps[path].columns <==> indexed.Some?)
        && (indexed.Some? ==> snaps[path].columns[column] == indexed.value.content))
    && (indexed.Some? ==> touched.Some?)
  }

  lemma ReindexesIff(hash: PathHash, events: seq<Event>, e: Event, path: string)
    requires PathsInOrder(hash, events) && e.Build?
    ensures var t := Tracked(events);
            && Run(hash, events).data == t.data
            && (Reindexes(hash, events, e, path, e.column) <==> path in StaleFiles(t.snaps, t.data, e.column, e.force))
  {
    RunIsTracked(hash, events);
    if path in Tracked(events).data {
      TrackNeedsIndexing(hash, events, path, e.column);
    }
  }

  /** What an event makes of the log, told from the snapshots. */
  ghost function Recorded(t: Track, e: Event, path: string, column: string, was: Option<FileVersion>)
    : Option<FileVersion>
  {
    if e.Build? && e.column == column && path in StaleFiles(t.snaps, t.data, column, e.force) then Some(t.data[path])
    else if e.Prune? && path !in t.data then None
    else was
  }

  lemma LogStep(hash: PathHash, events: seq<Event>, path: string, column: string)
    requires PathsInOrder(hash, events) && events != []
    ensures var before, e := events[..|events| - 1], events[|events| - 1];
            && PathsInOrder(hash, before)
            && LastIndexed(hash, events, path, column)
            == Recorded(Tracked(before), e, path, column, LastIndexed(hash, before, path, column))
            && LastTouched(hash, events, path)
            == Recorded(Tracked(before), e, path, if e.Build? then e.column else "", LastTouched(hash, before, path))
  {
    var before, e := events[..|events| - 1], events[|events| - 1];
    PathsInOrderBefore(hash, events);
    RunIsTracked(hash, before);
    if e.Build? {
      ReindexesIff(hash, before, e, path);
    }
  }

  lemma LoggedStep(t: Track, e: Event, path: string, column: string, indexed: Option<FileVersion>,
                   touched: Option<FileVersion>)
    requires Logged(t.snaps, path, column, indexed, touched)
    ensures Logged(Step(t, e).snaps, path, column, Recorded(t, e, path, column, indexed),
                   Recorded(t, e, path, if e.Build? then e.column else "", touched))
  {
  }

  lemma {:induction false} LoggedAlong(hash: PathHash, events: seq<Event>, path: string, column: string)
    requires PathsInOrder(hash, events)
    ensures Logged(Tracked(events).snaps, path, column, LastIndexed(hash, events, path, column),
                   LastTouched(hash, events, path))
  {
    if events != [] {
      var before, e := events[..|events| - 1], events[|events| - 1];
      LogStep(hash, events, path, column);
      LoggedAlong(hash, before, path, column);
      LoggedStep(Tracked(before), e, path, column, LastIndexed(hash, before, path, column),
                 LastTouched(hash, before, path));
    }
  }

  ghost predicate InRun(events: seq<Event>, path: string, version: Option<FileVersion>) {
    version.Some? ==> Write(path, version.value) in events
  }

  lemma RecordedInRun(before: seq<Event>, e: Event, t: Track, path: string, column: string, was: Option<FileVersion>)
    requires DataWritten(before, t) && InRun(before, path, was)
    ensures InRun(before + [e], path, Recorded(t, e, path, column, was))
  {
  }

  lemma {:induction false} LogIsWritten(hash: PathHash, events: seq<Event>, path: string, column: string)
    requires PathsInOrder(hash, events)
    ensures InRun(events, path, LastIndexed(hash, events, path, column))
    ensures InRun(events, path, LastTouched(hash, events, path))
  {
    if events != [] {
      var before, e := events[..|events| - 1], events[|events| - 1];
      LogStep(hash, events, path, column);
      LogIsWritten(hash, before, path, column);
      DataComesFromWrites(before);
      assert events == before + [e];
      RecordedInRun(before, e, Tracked(before), path, column, LastIndexed(hash, before, path, column));
      RecordedInRun(before, e, Tracked(before), path, if e.Build? then e.column else "",
                    LastTouched(hash, before, path));
    }
  }

  lemma NotIndexed(hash: PathHash, t: Track, path: string, column: string)
    requires InjectiveOn(hash, t.snaps.Keys + {path})
    requires path in t.snaps ==> column !in t.snaps[path].columns
    ensures !FstIsCurrent(hash, State(t.data, Render(hash, t.snaps)), path, column)
  {
    FstsRendered(hash, t.snaps, path);
  }

  lemma CurrentOnTrack(hash: PathHash, t: Track, path: string, column: string, indexed: Option<FileVersion>,
                       touched: Option<FileVersion>)
    requires InjectiveOn(hash, t.snaps.Keys + {path}) && path in t.data
    requires Logged(t.snaps, path, column, indexed, touched)
    ensures FstIsCurrent(hash, State(t.data, Render(hash, t.snaps)), path, column)
       <==> indexed.Some? && SameValues(indexed.value.content, t.data[path].content, column)
  {
    if indexed.Some? {
      StaleRendered(hash, t, path, column);
      SameFstIff(indexed.value.content, t.data[path].content, column);
    } else {
      NotIndexed(hash, t, path, column);
    }
  }

  /** In every run, with any number of columns: a column's FST is current exactly when the column has
      been indexed and holds, group by group, the values it held then. */
  lemma CurrentIff(hash: PathHash, events: seq<Event>, path: string, column: string)
    requires PathsInOrder(hash, events) && path in Run(hash, events).data
    ensures var indexed, now := LastIndexed(hash, events, path, column), Run(hash, events).data[path];
            FstIsCurrent(hash, Run(hash, events), path, column)
            <==> indexed.Some? && SameValues(indexed.value.content, now.content, column)
  {
    var t := Tracked(events);
    assert Run(hash, events) == State(t.data, Render(hash, t.snaps)) && t.snaps.Keys <= Written(events) by {
      RunIsTracked(hash, events);
    }
    InjectiveOnFewer(hash, Written(events), t.snaps.Keys + {path});
    LoggedAlong(hash, events, path, column);
    CurrentOnTrack(hash, t, path, column, LastIndexed(hash, events, path, column), LastTouched(hash, events, path));
  }

  lemma SameStampSameContent(hash: PathHash, events: seq<Event>, path: string, column: string)
    requires PathsInOrder(hash, events) && StampsIdentify(events) && path in Run(hash, events).data
    ensures var now := Run(hash, events).data[path];
            && (var indexed := LastIndexed(hash, events, path, column);
                indexed.Some? && indexed.value.stamp == now.stamp ==> indexed.value.content == now.content)
            && (var touched := LastTouched(hash, events, path);
                touched.Some? && touched.value.stamp == now.stamp ==> touched.value.content == now.content)
  {
    RunIsTracked(hash, events);
    LogIsWritten(hash, events, path, column);
    DataComesFromWrites(events);
  }

  /** Hence, when the staleness check is silent, the column is right exactly when it was last indexed at
      the file's present stamp or its values have not changed since. */
  lemma CurrentByStampIff(hash: PathHash, events: seq<Event>, path: string, column: string)
    requires PathsInOrder(hash, events) && StampsIdentify(events) && path in Run(hash, events).data
    requires !NeedsIndexing(Run(hash, events).root, hash, path, Run(hash, events).data[path].stamp, column)
    ensures var indexed, now := LastIndexed(hash, events, path, column), Run(hash, events).data[path];
            && indexed.Some?
            && (FstIsCurrent(hash, Run(hash, events), path, column)
                <==> indexed.value.stamp == now.stamp || SameValues(indexed.value.content, now.content, column))
  {
    SilentIff(hash, events, path, column);
    CurrentIff(hash, events, path, column);
    SameStampSameContent(hash, events, path, column);
  }

  /** In every run the staleness check is silent exactly when the column has been indexed and the file
      has the stamp it had when any of its columns was last indexed. */
  lemma SilentIff(hash: PathHash, events: seq<Event>, path: string, column: string)
    requires PathsInOrder(hash, events) && path in Run(hash, events).data
    ensures var s, touched := Run(hash, events), LastTouched(hash, events, path);
            !NeedsIndexing(s.root, hash, path, s.data[path].stamp, column)
            <==> LastIndexed(hash, events, path, column).Some? && touched.Some?
                 && touched.value.stamp == s.data[path].stamp
  {
    TrackNeedsIndexing(hash, events, path, column);
    LoggedAlong(hash, events, path, column);
  }

  /** The column's values changed since it was indexed, yet the file has the stamp it had when one of its
      columns was last indexed: another column has been indexed since. */
  ghost predicate Overtaken(hash: PathHash, events: seq<Event>, path: string, column: string)
    requires InjectiveOn(hash, Written(events)) && path in Run(hash, events).data
  {
    var now, indexed := Run(hash, events).data[path], LastIndexed(hash, events, path, column);
    var touched := LastTouched(hash, events, path);
    && indexed.Some? && !SameValues(indexed.value.content, now.content, column)
    && touched.Some? && touched.value.stamp == now.stamp
  }

  /** An unforced build replaces the FST where the check fires and keeps it where it is silent. */
  lemma UnforcedRebuild(hash: PathHash, s: State, path: string, column: string)
    requires InjectiveOn(hash, s.data.Keys) && path in s.data
    ensures FstIsCurrent(hash, s.(root := Rebuilt(s.root, hash, s.data, column, false)), path, column)
       <==> NeedsIndexing(s.root, hash, path, s.data[path].stamp, column) || FstIsCurrent(hash, s, path, column)
  {
    RebuiltAt(s.root, hash, s.data, column, false, path);
  }

  /** With any number of columns an unforced build leaves a column current exactly when no other column
      has overtaken it. */
  lemma UnforcedBuildIff(hash: PathHash, events: seq<Event>, path: string, column: string)
    requires PathsInOrder(hash, events) && path in Run(hash, events).data
    ensures var all := events + [Build(column, false)];
            && Written(all) == Written(events)
            && (FstIsCurrent(hash, Run(hash, all), path, column) <==> !Overtaken(hash, events, path, column))
  {
    OneMoreBuild(hash, events, column, false);
    UnforcedRebuild(hash, Run(hash, events), path, column);
    SilentIff(hash, events, path, column);
    CurrentIff(hash, events, path, column);
  }
}
