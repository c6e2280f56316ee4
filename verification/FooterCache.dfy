/** The shared cache of parsed Parquet footers and its hit and miss counters. */
module FooterCache {
  import opened Outcomes

  /** A parsed footer; only its identity matters here. */
  type Footer = nat

  class MetadataCache {
    var entries: map<string, Footer>
    var hits: nat
    var misses: nat

    constructor ()
      ensures entries == map[] && hits == 0 && misses == 0
    {
      entries, hits, misses := map[], 0, 0;
    }

    method Get(key: string) returns (found: Option<Footer>)
      modifies this`hits
      ensures found == if key in entries then Some(entries[key]) else None
      ensures hits == if key in entries then old(hits) + 1 else old(hits)
    {
      if key in entries {
        hits := hits + 1;
        return Some(entries[key]);
      }
      found := None;
    }

    method Insert(key: string, footer: Footer)
      modifies this`entries, this`misses
      ensures entries == old(entries)[key := footer] && misses == old(misses) + 1
    {
      entries := entries[key := footer];
      misses := misses + 1;
    }

    /** A reader's metadata request when no other reader interferes; `read` is what parsing the footer
        gives, `None` when that fails. */
    method GetMetadata(key: string, read: Option<Footer>) returns (r: Result<Footer>)
      modifies this
      ensures Counters(entries, hits, misses) == Requested(Counters(old(entries), old(hits), old(misses)), key, read)
      ensures r == if key in old(entries) then Ok(old(entries)[key]) else if read.Some? then Ok(read.value) else Err
    {
      var cached := Get(key);
      if cached.Some? {
        return Ok(cached.value);
      }
      if read.None? {
        return Err;
      }
      Insert(key, read.value);
      r := Ok(read.value);
    }
  }

  datatype Counters = Counters(entries: map<string, Footer>, hits: nat, misses: nat)

  function Requested(c: Counters, key: string, read: Option<Footer>): Counters {
    if key in c.entries then c.(hits := c.hits + 1)
    else if read.Some? then Counters(c.entries[key := read.value], c.hits, c.misses + 1)
    else c
  }

  /** One reader after another, every footer readable, no file rewritten meanwhile. */
  function Sequentially(keys: seq<string>, footers: map<string, Footer>): Counters
    requires forall k :: k in keys ==> k in footers
  {
    if keys == [] then Counters(map[], 0, 0) else
      var n := |keys| - 1;
      Requested(Sequentially(keys[..n], footers), keys[n], Some(footers[keys[n]]))
  }

  /** One reader after another and no file rewritten: a cached footer is its own file's. */
  lemma {:induction false} SequentialIsFaithful(keys: seq<string>, footers: map<string, Footer>, key: string)
    requires forall k :: k in keys ==> k in footers
    ensures var c := Sequentially(keys, footers);
            key in c.entries ==> key in footers && c.entries[key] == footers[key]
  {
    if keys != [] {
      SequentialIsFaithful(keys[..|keys| - 1], footers, key);
    }
  }

  // ---------------------------------------------------------------- many readers

  type Reader = nat

  /** Where an unfinished request stands: parsing, storing the parsed footer, or counting the miss
      (the counter is bumped after the lock on the entries is released). */
  datatype Stage = Parsing(key: string) | Storing(key: string, footer: Footer) | Counting

  /** `files` holds the footer each data file has at present. */
  datatype State = State(cache: Counters, active: map<Reader, Stage>, started: nat, failed: nat,
                         files: map<string, Footer>)

  /** A parse reads the file as it is at that moment. */
  datatype Action =
    | Request(reader: Reader, key: string)
    | Parsed(reader: Reader, footer: Footer)
    | ParseFailed(reader: Reader)
    | Store(reader: Reader)
    | Count(reader: Reader)
    | Rewrite(key: string, footer: Footer)

  predicate Enabled(s: State, a: Action) {
    match a
    case Request(r, _) => r !in s.active
    case Parsed(r, footer) =>
      && r in s.active && s.active[r].Parsing?
      && s.active[r].key in s.files && s.files[s.active[r].key] == footer
    case ParseFailed(r) => r in s.active && s.active[r].Parsing?
    case Store(r) => r in s.active && s.active[r].Storing?
    case Count(r) => r in s.active && s.active[r].Counting?
    case Rewrite(_, _) => true
  }

  function Next(s: State, a: Action): State
    requires Enabled(s, a)
  {
    match a
    case Request(r, key) =>
      if key in s.cache.entries then s.(cache := s.cache.(hits := s.cache.hits + 1), started := s.started + 1)
      else s.(active := s.active[r := Parsing(key)], started := s.started + 1)
    case Parsed(r, footer) => s.(active := s.active[r := Storing(s.active[r].key, footer)])
    case ParseFailed(r) => s.(active := s.active - {r}, failed := s.failed + 1)
    case Store(r) =>
      var Storing(key, footer) := s.active[r];
      s.(cache := s.cache.(entries := s.cache.entries[key := footer]), active := s.active[r := Counting])
    case Count(r) => s.(cache := s.cache.(misses := s.cache.misses + 1), active := s.active - {r})
    case Rewrite(key, footer) => s.(files := s.files[key := footer])
  }

  const START := State(Counters(map[], 0, 0), map[], 0, 0, map[])

  function After(actions: seq<Action>): Option<State> {
    if actions == [] then Some(START) else
      var before := After(actions[..|actions| - 1]);
      var a := actions[|actions| - 1];
      if before.Some? && Enabled(before.value, a) then Some(Next(before.value, a)) else None
  }

  /** Readers that have stored a footer and not yet counted it. */
  function Uncounted(active: map<Reader, Stage>): set<Reader> {
    set r | r in active && active[r].Counting?
  }

  ghost predicate Accounted(s: State) {
    && s.cache.hits + s.cache.misses + |s.active| + s.failed == s.started
    && |s.cache.entries| <= s.cache.misses + |Uncounted(s.active)|
  }

  lemma StoreKeepsAccounts(s: State, r: Reader)
    requires Accounted(s) && Enabled(s, Store(r))
    ensures Accounted(Next(s, Store(r)))
  {
    var n := Next(s, Store(r));
    assert n.active.Keys == s.active.Keys;
    assert Uncounted(n.active) == Uncounted(s.active) + {r};
    assert n.cache.entries.Keys == s.cache.entries.Keys + {s.active[r].key};
  }

  lemma LeaveKeepsAccounts(s: State, r: Reader, a: Action)
    requires Accounted(s) && Enabled(s, a) && (a == Count(r) || a == ParseFailed(r))
    ensures Accounted(Next(s, a))
  {
    var n := Next(s, a);
    assert s.active.Keys == n.active.Keys + {r};
    assert Uncounted(n.active) == Uncounted(s.active) - {r};
  }

  lemma StayKeepsUncounted(s: State, a: Action)
    requires Enabled(s, a) && !a.Store? && !a.Count?
    ensures Uncounted(Next(s, a).active) == Uncounted(s.active)
  {
    var n := Next(s, a);
    forall r ensures r in Uncounted(n.active) <==> r in Uncounted(s.active) {
      assert !a.Rewrite? && r != a.reader ==> (r in n.active <==> r in s.active);
    }
  }

  lemma UpdateSize<K, V>(m: map<K, V>, k: K, v: V)
    ensures |m[k := v]| == |m| + if k in m then 0 else 1
  {
    assert m[k := v].Keys == m.Keys + {k};
    assert k in m ==> m.Keys + {k} == m.Keys;
  }

  lemma StayKeepsAccounts(s: State, a: Action)
    requires Accounted(s) && Enabled(s, a) && (a.Request? || a.Parsed? || a.Rewrite?)
    ensures Accounted(Next(s, a))
  {
    StayKeepsUncounted(s, a);
    match a
    case Request(r, key) => UpdateSize(s.active, r, Parsing(key));
    case Parsed(r, footer) => UpdateSize(s.active, r, Storing(s.active[r].key, footer));
    case Rewrite(_, _) =>
  }

  /** In every interleaving hits, misses, unfinished and failed requests add up to the requests
      started, and no footer is cached without a miss counted or about to be. */
  lemma {:induction false} AccountsBalance(actions: seq<Action>)
    requires After(actions).Some?
    ensures Accounted(After(actions).value)
  {
    if actions != [] {
      AccountsBalance(actions[..|actions| - 1]);
      var s := After(actions[..|actions| - 1]).value;
      match actions[|actions| - 1]
      case Store(r) => StoreKeepsAccounts(s, r);
      case Count(r) => LeaveKeepsAccounts(s, r, Count(r));
      case ParseFailed(r) => LeaveKeepsAccounts(s, r, ParseFailed(r));
      case a => StayKeepsAccounts(s, a);
    }
  }

  /** Between requests misses is at least the number of cached footers. */
  lemma QuietMissesCoverEntries(actions: seq<Action>)
    requires After(actions).Some? && After(actions).value.active == map[]
    ensures var s := After(actions).value;
            && |s.cache.entries| <= s.cache.misses && s.cache.hits + s.cache.misses + s.failed == s.started
  {
    AccountsBalance(actions);
    assert Uncounted(After(actions).value.active) == {};
  }

  // ---------------------------------------------------------------- parsed at most once

  /** Readers on their way to storing a footer. */
  function Pending(active: map<Reader, Stage>): set<Reader> {
    set r | r in active && !active[r].Counting?
  }

  function Wanted(active: map<Reader, Stage>): set<string> {
    set r | r in Pending(active) :: active[r].key
  }

  /** A request for a footer that is not cached yet while another reader is parsing or storing it. */
  predicate Overlaps(s: State, a: Action) {
    a.Request? && a.key !in s.cache.entries && a.key in Wanted(s.active)
  }

  /** How many requests of the run overlap another. */
  function Overlapping(actions: seq<Action>): nat {
    if actions == [] then 0 else
      var n := |actions| - 1;
      var before := After(actions[..n]);
      Overlapping(actions[..n]) + if before.Some? && Overlaps(before.value, actions[n]) then 1 else 0
  }

  predicate NoOverlap(actions: seq<Action>) {
    actions == [] ||
    var n := |actions| - 1;
    NoOverlap(actions[..n]) && (After(actions[..n]).Some? ==> !Overlaps(After(actions[..n]).value, actions[n]))
  }

  lemma {:induction false} NoOverlapIff(actions: seq<Action>)
    ensures NoOverlap(actions) <==> Overlapping(actions) == 0
  {
    if actions != [] {
      NoOverlapIff(actions[..|actions| - 1]);
    }
  }

  /** Parses done or under way. */
  ghost function Parses(s: State): nat { s.cache.misses + |Uncounted(s.active)| + |Pending(s.active)| }

  /** The files they are for. */
  ghost function Files(s: State): nat { |s.cache.entries.Keys + Wanted(s.active)| }

  lemma MissJoins(s: State, r: Reader, key: string)
    requires r !in s.active && key !in s.cache.entries
    ensures var n := Next(s, Request(r, key));
            && Uncounted(n.active) == Uncounted(s.active) && Pending(n.active) == Pending(s.active) + {r}
            && Wanted(n.active) == Wanted(s.active) + {key}
  {
    var n := Next(s, Request(r, key));
    assert Pending(n.active) == Pending(s.active) + {r};
    forall k ensures k in Wanted(n.active) <==> k in Wanted(s.active) + {key} {
      if k in Wanted(s.active) {
        var q :| q in Pending(s.active) && s.active[q].key == k;
        assert q in Pending(n.active) && n.active[q].key == k;
      }
      if k == key {
        assert r in Pending(n.active) && n.active[r].key == k;
      }
    }
  }

  lemma OneJoins(pending: set<Reader>, r: Reader, cached: set<string>, wanted: set<string>, key: string)
    requires r !in pending
    ensures |pending + {r}| == |pending| + 1
    ensures |cached + (wanted + {key})| == |cached + wanted| + if key in cached + wanted then 0 else 1
  {
    assert cached + (wanted + {key}) == (cached + wanted) + {key};
    assert key in cached + wanted ==> (cached + wanted) + {key} == cached + wanted;
  }

  lemma RequestParses(s: State, a: Action)
    requires a.Request? && Enabled(s, a)
    ensures Parses(Next(s, a)) - Files(Next(s, a)) == Parses(s) - Files(s) + if Overlaps(s, a) then 1 else 0
  {
    if a.key !in s.cache.entries {
      MissJoins(s, a.reader, a.key);
      OneJoins(Pending(s.active), a.reader, s.cache.entries.Keys, Wanted(s.active), a.key);
    }
  }

  lemma ParsedParses(s: State, a: Action)
    requires a.Parsed? && Enabled(s, a)
    ensures Parses(Next(s, a)) == Parses(s) && Files(Next(s, a)) == Files(s)
  {
    var n := Next(s, a);
    assert Uncounted(n.active) == Uncounted(s.active) && Pending(n.active) == Pending(s.active);
    assert Wanted(n.active) == Wanted(s.active);
  }

  lemma FailureLeaves(s: State, r: Reader)
    requires Enabled(s, ParseFailed(r))
    ensures var left := Next(s, ParseFailed(r)).active;
            && Uncounted(left) == Uncounted(s.active) && Pending(s.active) == Pending(left) + {r}
            && Wanted(s.active) == Wanted(left) + {s.active[r].key}
  {
    var left, key := Next(s, ParseFailed(r)).active, s.active[r].key;
    assert Pending(s.active) == Pending(left) + {r};
    forall k ensures k in Wanted(s.active) <==> k in Wanted(left) + {key} {
      if k in Wanted(s.active) {
        var q :| q in Pending(s.active) && s.active[q].key == k;
        assert q != r ==> q in Pending(left) && left[q].key == k;
      }
      if k in Wanted(left) {
        var q :| q in Pending(left) && left[q].key == k;
        assert q in Pending(s.active) && s.active[q].key == k;
      }
    }
  }

  lemma FailedParses(s: State, a: Action)
    requires a.ParseFailed? && Enabled(s, a)
    ensures Parses(Next(s, a)) - Files(Next(s, a)) <= Parses(s) - Files(s)
  {
    var left := Next(s, a).active;
    FailureLeaves(s, a.reader);
    OneJoins(Pending(left), a.reader, s.cache.entries.Keys, Wanted(left), s.active[a.reader].key);
  }

  lemma StoreParses(s: State, a: Action)
    requires a.Store? && Enabled(s, a)
    ensures Parses(Next(s, a)) == Parses(s) && Files(Next(s, a)) == Files(s)
  {
    var n := Next(s, a);
    assert Uncounted(n.active) == Uncounted(s.active) + {a.reader};
    assert Pending(s.active) == Pending(n.active) + {a.reader};
    assert s.cache.entries.Keys + Wanted(s.active) == n.cache.entries.Keys + Wanted(n.active);
  }

  lemma CountParses(s: State, a: Action)
    requires a.Count? && Enabled(s, a)
    ensures Parses(Next(s, a)) == Parses(s) && Files(Next(s, a)) == Files(s)
  {
    var n := Next(s, a);
    assert Uncounted(s.active) == Uncounted(n.active) + {a.reader};
    assert Pending(n.active) == Pending(s.active) && Wanted(n.active) == Wanted(s.active);
  }

  lemma {:induction false} ParsesAlong(actions: seq<Action>)
    requires After(actions).Some?
    ensures Parses(After(actions).value) <= Files(After(actions).value) + Overlapping(actions)
    ensures After(actions).value.failed == 0 ==>
              Parses(After(actions).value) == Files(After(actions).value) + Overlapping(actions)
  {
    if actions != [] {
      var n := |actions| - 1;
      ParsesAlong(actions[..n]);
      var s, a := After(actions[..n]).value, actions[n];
      match a
      case Request(_, _) => RequestParses(s, a);
      case Parsed(_, _) => ParsedParses(s, a);
      case ParseFailed(_) => FailedParses(s, a);
      case Store(_) => StoreParses(s, a);
      case Count(_) => CountParses(s, a);
      case Rewrite(_, _) =>
    }
  }

  /** In every interleaving, once the readers are done: each footer is parsed once, plus at most once
      more for every request that overlapped another, and exactly so when no parse failed. */
  lemma WastedParses(actions: seq<Action>)
    requires After(actions).Some? && After(actions).value.active == map[]
    ensures var s := After(actions).value;
            && |s.cache.entries| <= s.cache.misses <= |s.cache.entries| + Overlapping(actions)
            && (s.failed == 0 ==> s.cache.misses == |s.cache.entries| + Overlapping(actions))
  {
    var s := After(actions).value;
    ParsesAlong(actions);
    QuietMissesCoverEntries(actions);
    assert Uncounted(s.active) == {} && Pending(s.active) == {} && Wanted(s.active) == {};
    assert s.cache.entries.Keys + Wanted(s.active) == s.cache.entries.Keys;
  }

  /** Storing a footer over one that is cached already. */
  predicate Restores(s: State, a: Action) {
    a.Store? && a.reader in s.active && s.active[a.reader].Storing? && s.active[a.reader].key in s.cache.entries
  }

  /** How many footers of the run are stored in vain. */
  function Restored(actions: seq<Action>): nat {
    if actions == [] then 0 else
      var n := |actions| - 1;
      var before := After(actions[..n]);
      Restored(actions[..n]) + if before.Some? && Restores(before.value, actions[n]) then 1 else 0
  }

  /** Stores done, and files they left a footer for. */
  ghost function Stores(s: State): nat { s.cache.misses + |Uncounted(s.active)| }

  lemma StoreStores(s: State, r: Reader)
    requires Enabled(s, Store(r))
    ensures var n := Next(s, Store(r));
            Stores(n) - |n.cache.entries| == Stores(s) - |s.cache.entries| + if Restores(s, Store(r)) then 1 else 0
  {
    assert Uncounted(Next(s, Store(r)).active) == Uncounted(s.active) + {r};
    UpdateSize(s.cache.entries, s.active[r].key, s.active[r].footer);
  }

  lemma OthersStore(s: State, a: Action)
    requires Enabled(s, a) && !a.Store?
    ensures Stores(Next(s, a)) == Stores(s) && Next(s, a).cache.entries == s.cache.entries
  {
    if a.Count? {
      assert Uncounted(s.active) == Uncounted(Next(s, a).active) + {a.reader};
    } else {
      StayKeepsUncounted(s, a);
    }
  }

  /** In every interleaving the misses counted or about to be are the cached footers and those that were
      stored over a cached one. */
  lemma {:induction false} StoresAlong(actions: seq<Action>)
    requires After(actions).Some?
    ensures var s := After(actions).value;
            s.cache.misses + |Uncounted(s.active)| == |s.cache.entries| + Restored(actions)
  {
    if actions != [] {
      var n := |actions| - 1;
      StoresAlong(actions[..n]);
      var s, a := After(actions[..n]).value, actions[n];
      if a.Store? {
        StoreStores(s, a.reader);
      } else {
        OthersStore(s, a);
      }
    }
  }

  /** "Parsed at most once" holds of a finished run exactly when no footer was stored over a cached one.
      It holds whenever no request was made for a missing footer while another reader was at it, and in a
      run without failed parses only then. */
  lemma ParsedOnceIff(actions: seq<Action>)
    requires After(actions).Some? && After(actions).value.active == map[]
    ensures var s := After(actions).value;
            && (s.cache.misses == |s.cache.entries| <==> Restored(actions) == 0)
            && (NoOverlap(actions) ==> s.cache.misses == |s.cache.entries|)
            && (s.failed == 0 ==> (s.cache.misses == |s.cache.entries| <==> NoOverlap(actions)))
  {
    WastedParses(actions);
    NoOverlapIff(actions);
    StoresAlong(actions);
    assert Uncounted(After(actions).value.active) == {};
  }

  // ---------------------------------------------------------------- particular runs

  lemma Extend(actions: seq<Action>, s: State, a: Action)
    requires After(actions) == Some(s) && Enabled(s, a)
    ensures After(actions + [a]) == Some(Next(s, a))
    ensures Overlapping(actions + [a]) == Overlapping(actions) + if Overlaps(s, a) then 1 else 0
  {
    assert (actions + [a])[..|actions|] == actions;
  }

  /** One reader finishing a request it has found missing. */
  lemma FinishRequest(actions: seq<Action>, s: State, r: Reader, footer: Footer) returns (s': State)
    requires After(actions) == Some(s) && r in s.active && s.active[r].Parsing?
    requires s.active[r].key in s.files && s.files[s.active[r].key] == footer
    ensures var run := actions + [Parsed(r, footer), Store(r), Count(r)];
            After(run) == Some(s') && Overlapping(run) == Overlapping(actions)
    ensures s' == State(Counters(s.cache.entries[s.active[r].key := footer], s.cache.hits, s.cache.misses + 1),
                        s.active - {r}, s.started, s.failed, s.files)
  {
    var one := Next(s, Parsed(r, footer));
    Extend(actions, s, Parsed(r, footer));
    var two := Next(one, Store(r));
    Extend(actions + [Parsed(r, footer)], one, Store(r));
    s' := Next(two, Count(r));
    Extend(actions + [Parsed(r, footer)] + [Store(r)], two, Count(r));
    assert actions + [Parsed(r, footer), Store(r), Count(r)] == actions + [Parsed(r, footer)] + [Store(r)] + [Count(r)];
  }

  /** The steps of a request with nobody else's steps in between. */
  function RequestSteps(c: Counters, r: Reader, key: string, read: Option<Footer>): seq<Action> {
    if key in c.entries then [Request(r, key)]
    else if read.None? then [Request(r, key), ParseFailed(r)]
    else [Request(r, key), Parsed(r, read.value), Store(r), Count(r)]
  }

  lemma ParsedRun(actions: seq<Action>, s: State, r: Reader, key: string, footer: Footer)
    requires After(actions) == Some(s) && r !in s.active && key !in s.cache.entries
    requires key in s.files && s.files[key] == footer
    ensures var run := actions + [Request(r, key)] + [Parsed(r, footer), Store(r), Count(r)];
            && After(run)
            == Some(State(Requested(s.cache, key, Some(footer)), s.active, s.started + 1, s.failed, s.files))
            && Overlapping(run) == Overlapping(actions) + (if key in Wanted(s.active) then 1 else 0)
  {
    var one := Next(s, Request(r, key));
    Extend(actions, s, Request(r, key));
    assert one.active - {r} == s.active;
    var done := FinishRequest(actions + [Request(r, key)], one, r, footer);
  }

  lemma FailedRun(actions: seq<Action>, s: State, r: Reader, key: string)
    requires After(actions) == Some(s) && r !in s.active && key !in s.cache.entries
    ensures var run := actions + [Request(r, key)] + [ParseFailed(r)];
            && After(run) == Some(State(s.cache, s.active, s.started + 1, s.failed + 1, s.files))
            && Overlapping(run) == Overlapping(actions) + (if key in Wanted(s.active) then 1 else 0)
  {
    var one := Next(s, Request(r, key));
    Extend(actions, s, Request(r, key));
    assert one.active - {r} == s.active;
    Extend(actions + [Request(r, key)], one, ParseFailed(r));
  }

  /** Whatever requests of other readers are under way, a request that runs through without
      interference does to the cache what `GetMetadata` does. */
  lemma LoneRequest(actions: seq<Action>, s: State, r: Reader, key: string, read: Option<Footer>)
    requires After(actions) == Some(s) && r !in s.active
    requires read.Some? ==> key in s.files && s.files[key] == read.value
    ensures var run, missing := actions + RequestSteps(s.cache, r, key, read), key !in s.cache.entries;
            && After(run) == Some(State(Requested(s.cache, key, read), s.active, s.started + 1,
                                        s.failed + (if missing && read.None? then 1 else 0), s.files))
            && Overlapping(run) == Overlapping(actions) + (if missing && key in Wanted(s.active) then 1 else 0)
  {
    var steps := RequestSteps(s.cache, r, key, read);
    if key in s.cache.entries {
      Extend(actions, s, Request(r, key));
    } else if read.Some? {
      ParsedRun(actions, s, r, key, read.value);
      assert actions + steps == actions + [Request(r, key)] + [Parsed(r, read.value), Store(r), Count(r)];
    } else {
      FailedRun(actions, s, r, key);
      assert actions + steps == actions + [Request(r, key)] + [ParseFailed(r)];
    }
  }

  /** One reader making the requests one after another; each file is there with its footer beforehand. */
  function SerialRun(keys: seq<string>, footers: map<string, Footer>): seq<Action>
    requires forall k :: k in keys ==> k in footers
  {
    if keys == [] then [] else
      var front, key := keys[..|keys| - 1], keys[|keys| - 1];
      SerialRun(front, footers) + [Rewrite(key, footers[key])]
      + RequestSteps(Sequentially(front, footers), 0, key, Some(footers[key]))
  }

  lemma {:induction false} SerialRunIsSequential(keys: seq<string>, footers: map<string, Footer>)
    requires forall k :: k in keys ==> k in footers
    ensures var run := SerialRun(keys, footers);
            && After(run).Some? && Overlapping(run) == 0
            && (var s := After(run).value;
                s == State(Sequentially(keys, footers), map[], |keys|, 0, s.files))
  {
    if keys != [] {
      var front, key := keys[..|keys| - 1], keys[|keys| - 1];
      SerialRunIsSequential(front, footers);
      var run := SerialRun(front, footers);
      var s := After(run).value;
      Extend(run, s, Rewrite(key, footers[key]));
      var there := Next(s, Rewrite(key, footers[key]));
      assert Wanted(there.active) == {};
      LoneRequest(run + [Rewrite(key, footers[key])], there, 0, key, Some(footers[key]));
    }
  }

  lemma {:induction false} SequentialKeys(keys: seq<string>, footers: map<string, Footer>)
    requires forall k :: k in keys ==> k in footers
    ensures Sequentially(keys, footers).entries.Keys == set k | k in keys
  {
    if keys != [] {
      var n := |keys| - 1;
      SequentialKeys(keys[..n], footers);
      assert keys == keys[..n] + [keys[n]];
      assert (set k | k in keys) == (set k | k in keys[..n]) + {keys[n]};
    }
  }

  /** For one reader at a time each distinct file's footer is parsed exactly once and every other
      request is a hit. */
  lemma SequentialParsesOnce(keys: seq<string>, footers: map<string, Footer>)
    requires forall k :: k in keys ==> k in footers
    ensures var c, distinct := Sequentially(keys, footers), set k | k in keys;
            c.entries.Keys == distinct && c.misses == |distinct| && c.hits + c.misses == |keys|
  {
    var run := SerialRun(keys, footers);
    SerialRunIsSequential(keys, footers);
    SequentialKeys(keys, footers);
    WastedParses(run);
    QuietMissesCoverEntries(run);
  }

  /** Two readers asking for the same file before either has its footer. */
  lemma BothAsk(key: string, footer: Footer) returns (run: seq<Action>, s: State)
    ensures After(run) == Some(s) && Overlapping(run) == 1
    ensures s == State(Counters(map[], 0, 0), map[0 := Parsing(key), 1 := Parsing(key)], 2, 0, map[key := footer])
  {
    var there := Next(START, Rewrite(key, footer));
    Extend([], START, Rewrite(key, footer));
    run := [] + [Rewrite(key, footer)];
    var one := Next(there, Request(0, key));
    Extend(run, there, Request(0, key));
    run := run + [Request(0, key)];
    s := Next(one, Request(1, key));
    assert 0 in Pending(one.active) && key in Wanted(one.active);
    Extend(run, one, Request(1, key));
    run := run + [Request(1, key)];
  }

  /** Then its footer is parsed twice. */
  lemma TwoReadersParseTwice(key: string, footer: Footer) returns (run: seq<Action>)
    ensures After(run).Some? && After(run).value.active == map[] && After(run).value.failed == 0
    ensures After(run).value.cache == Counters(map[key := footer], 0, 2) && !NoOverlap(run)
  {
    var asked, two := BothAsk(key, footer);
    run := asked;
    var three := FinishRequest(run, two, 0, footer);
    run := run + [Parsed(0, footer), Store(0), Count(0)];
    var four := FinishRequest(run, three, 1, footer);
    run := run + [Parsed(1, footer), Store(1), Count(1)];
    NoOverlapIff(run);
  }

  /** Why a run with failures needs no such condition: an overlapping parse that fails wastes nothing. */
  lemma FailedOverlapWastesNothing(key: string, footer: Footer) returns (run: seq<Action>)
    ensures After(run).Some? && After(run).value.active == map[]
    ensures After(run).value.cache == Counters(map[key := footer], 0, 1) && !NoOverlap(run)
  {
    var asked, two := BothAsk(key, footer);
    var three := Next(two, ParseFailed(0));
    Extend(asked, two, ParseFailed(0));
    run := asked + [ParseFailed(0)];
    var four := FinishRequest(run, three, 1, footer);
    run := run + [Parsed(1, footer), Store(1), Count(1)];
    NoOverlapIff(run);
  }
}
