/** `get_or_load_set` under concurrency: any number of threads interleaving the read-locked check,
    the lock-free open, and the write-locked publish, while FSTs are written and removed. A resident set
    is a mapping of the stored file, so it is the file that decides what it reads as. */
module FstCacheProtocol {
  import opened FstSet
  import opened IndexRoot
  import opened Outcomes

  type Thread = nat

  /** A loaded set: the number of its `Arc`. */
  type Object = nat

  /** A stored file, told from others created for the same key by a number. */
  datatype FileId = FileId(key: SetKey, number: nat)

  datatype Stored = Stored(file: FileId, keys: Fst)

  /** A mapped file and what it reads as at present; `None` when reading it faults. */
  datatype Mapping = Mapping(file: FileId, showing: Option<Fst>)

  datatype Phase = Idle | Opening(key: SetKey) | Holding(key: SetKey, loaded: Object)

  datatype Return = Return(key: SetKey, result: Option<Object>)

  datatype State = State(cache: map<SetKey, Object>, mappings: map<Object, Mapping>, disk: map<SetKey, Stored>,
                         loads: nat, created: nat, phases: map<Thread, Phase>, returned: seq<Return>)

  /** `Index` writes an FST: in place when there is a file already, so that every mapping of it reads as
      something else from then on. What, is left open: `shows` gives it, and a mapping it does not list
      faults. `Remove` unlinks the file; its mappings stay as they are. */
  datatype Action =
    | Check(thread: Thread, key: SetKey)
    | Open(thread: Thread)
    | Publish(thread: Thread)
    | Index(key: SetKey, keys: Fst, shows: map<Object, Fst>)
    | Remove(key: SetKey)

  function PhaseOf(s: State, t: Thread): Phase {
    if t in s.phases then s.phases[t] else Idle
  }

  predicate Enabled(s: State, a: Action) {
    match a
    case Check(t, _) => PhaseOf(s, t).Idle?
    case Open(t) => PhaseOf(s, t).Opening?
    case Publish(t) => PhaseOf(s, t).Holding?
    case _ => true
  }

  function Finish(s: State, t: Thread, key: SetKey, result: Option<Object>): State {
    s.(phases := s.phases[t := Idle], returned := s.returned + [Return(key, result)])
  }

  function Remapped(mappings: map<Object, Mapping>, file: FileId, shows: map<Object, Fst>): map<Object, Mapping> {
    map o | o in mappings ::
      if mappings[o].file != file then mappings[o]
      else Mapping(file, if o in shows then Some(shows[o]) else None)
  }

  /** One atomic step. A concurrent miss may have published first: the first winner stays. */
  function Next(s: State, a: Action): State
    requires Enabled(s, a)
  {
    match a
    case Check(t, key) =>
      if key in s.cache then Finish(s, t, key, Some(s.cache[key]))
      else s.(phases := s.phases[t := Opening(key)])
    case Open(t) =>
      var key := s.phases[t].key;
      if key !in s.disk then Finish(s, t, key, None)
      else
        s.(phases := s.phases[t := Holding(key, s.loads)], loads := s.loads + 1,
           mappings := s.mappings[s.loads := Mapping(s.disk[key].file, Some(s.disk[key].keys))])
    case Publish(t) =>
      var Holding(key, loaded) := s.phases[t];
      var resident := if key in s.cache then s.cache[key] else loaded;
      Finish(s.(cache := s.cache[key := resident]), t, key, Some(resident))
    case Index(key, keys, shows) =>
      if key in s.disk then
        var file := s.disk[key].file;
        s.(disk := s.disk[key := Stored(file, keys)], mappings := Remapped(s.mappings, file, shows))
      else s.(disk := s.disk[key := Stored(FileId(key, s.created), keys)], created := s.created + 1)
    case Remove(key) => s.(disk := s.disk - {key})
  }

  function Initial(root: Root): State {
    State(map[], map[],
          map h, c | h in root && c in root[h].fsts :: (h, c) := Stored(FileId((h, c), 0), root[h].fsts[c]),
          0, 1, map[], [])
  }

  /** The state after the first `i` steps of an interleaving; `None` when some step is not possible where
      it stands. */
  function At(root: Root, actions: seq<Action>, i: nat): Option<State>
    requires i <= |actions|
  {
    if i == 0 then Some(Initial(root)) else
      var before, a := At(root, actions, i - 1), actions[i - 1];
      if before.Some? && Enabled(before.value, a) then Some(Next(before.value, a)) else None
  }

  predicate Possible(root: Root, actions: seq<Action>) {
    At(root, actions, |actions|).Some?
  }

  lemma {:induction false} PossibleUpTo(root: Root, actions: seq<Action>, i: nat, j: nat)
    requires i <= j <= |actions| && At(root, actions, j).Some?
    ensures At(root, actions, i).Some?
    decreases j - i
  {
    if i < j {
      PossibleUpTo(root, actions, i, j - 1);
    }
  }

  ghost function StateAt(root: Root, actions: seq<Action>, i: nat): (s: State)
    requires Possible(root, actions) && i <= |actions|
    ensures At(root, actions, i) == Some(s)
  {
    PossibleUpTo(root, actions, i, |actions|);
    At(root, actions, i).value
  }

  lemma StepAt(root: Root, actions: seq<Action>, k: nat)
    requires Possible(root, actions) && k < |actions|
    ensures Enabled(StateAt(root, actions, k), actions[k])
    ensures StateAt(root, actions, k + 1) == Next(StateAt(root, actions, k), actions[k])
  {
    var s := StateAt(root, actions, k);
    assert At(root, actions, k + 1) == if Enabled(s, actions[k]) then Some(Next(s, actions[k])) else None;
    assert At(root, actions, k + 1) == Some(StateAt(root, actions, k + 1));
  }

  // ---------------------------------------------------------------- objects

  lemma StepKeepsPublished(s: State, a: Action, key: SetKey)
    requires Enabled(s, a) && key in s.cache
    ensures key in Next(s, a).cache && Next(s, a).cache[key] == s.cache[key]
  {
  }

  /** In every interleaving a published entry stays the same object. */
  lemma {:induction false} PublishedNeverChanges(root: Root, actions: seq<Action>, i: nat, j: nat, key: SetKey)
    requires Possible(root, actions) && i <= j <= |actions| && key in StateAt(root, actions, i).cache
    ensures key in StateAt(root, actions, j).cache
    ensures StateAt(root, actions, j).cache[key] == StateAt(root, actions, i).cache[key]
    decreases j - i
  {
    if i < j {
      PublishedNeverChanges(root, actions, i, j - 1, key);
      StepAt(root, actions, j - 1);
      StepKeepsPublished(StateAt(root, actions, j - 1), actions[j - 1], key);
    }
  }

  /** Every object in use maps a file stored for the key it is used for; the objects handed out are the
      resident ones. */
  ghost predicate MapsFileOf(s: State, o: Object, key: SetKey) {
    o in s.mappings && s.mappings[o].file.key == key
  }

  ghost predicate Placed(s: State) {
    && (forall o :: o in s.mappings ==> o < s.loads)
    && (forall k :: k in s.disk ==> s.disk[k].file.key == k)
    && (forall k :: k in s.cache ==> MapsFileOf(s, s.cache[k], k))
    && (forall t :: t in s.phases && s.phases[t].Holding? ==> MapsFileOf(s, s.phases[t].loaded, s.phases[t].key))
    && (forall r :: r in s.returned && r.result.Some? ==> r.key in s.cache && s.cache[r.key] == r.result.value)
  }

  lemma OpenKeepsPlaced(s: State, t: Thread)
    requires Placed(s) && Enabled(s, Open(t))
    ensures Placed(Next(s, Open(t)))
  {
    var n := Next(s, Open(t));
    assert forall o, k :: MapsFileOf(s, o, k) ==> MapsFileOf(n, o, k);
  }

  lemma WriteKeepsPlaced(s: State, a: Action)
    requires Placed(s) && (a.Index? || a.Remove?)
    ensures Placed(Next(s, a))
  {
    var n := Next(s, a);
    assert forall o, k :: MapsFileOf(s, o, k) ==> MapsFileOf(n, o, k);
  }

  lemma CheckKeepsPlaced(s: State, t: Thread, key: SetKey)
    requires Placed(s) && Enabled(s, Check(t, key))
    ensures Placed(Next(s, Check(t, key)))
  {
    var n := Next(s, Check(t, key));
    assert n.mappings == s.mappings && n.cache == s.cache && n.disk == s.disk;
  }

  lemma PublishKeepsPlaced(s: State, t: Thread)
    requires Placed(s) && Enabled(s, Publish(t))
    ensures Placed(Next(s, Publish(t)))
  {
    var n := Next(s, Publish(t));
    assert n.mappings == s.mappings && n.disk == s.disk;
  }

  lemma {:induction false} PlacedAlong(root: Root, actions: seq<Action>, i: nat)
    requires Possible(root, actions) && i <= |actions|
    ensures Placed(StateAt(root, actions, i))
  {
    if i > 0 {
      PlacedAlong(root, actions, i - 1);
      StepAt(root, actions, i - 1);
      var s, a := StateAt(root, actions, i - 1), actions[i - 1];
      match a
      case Open(t) => OpenKeepsPlaced(s, t);
      case Check(t, k) => CheckKeepsPlaced(s, t, k);
      case Publish(t) => PublishKeepsPlaced(s, t);
      case _ => WriteKeepsPlaced(s, a);
    }
  }

  lemma StepKeepsReturned(s: State, a: Action, r: Return)
    requires Enabled(s, a) && r in s.returned
    ensures r in Next(s, a).returned
  {
  }

  lemma {:induction false} ReturnedStays(root: Root, actions: seq<Action>, i: nat, j: nat, r: Return)
    requires Possible(root, actions) && i <= j <= |actions| && r in StateAt(root, actions, i).returned
    ensures r in StateAt(root, actions, j).returned
    decreases j - i
  {
    if i < j {
      ReturnedStays(root, actions, i, j - 1, r);
      StepAt(root, actions, j - 1);
      StepKeepsReturned(StateAt(root, actions, j - 1), actions[j - 1], r);
    }
  }

  /** At every point of every interleaving all calls that have returned a set for one (file, column) have
      returned the same object, even while the index directory is being rewritten. */
  lemma SameObjectForAll(root: Root, actions: seq<Action>, i: nat, r: Return, r': Return)
    requires Possible(root, actions) && i <= |actions|
    requires r in StateAt(root, actions, i).returned && r' in StateAt(root, actions, i).returned
    requires r.key == r'.key && r.result.Some? && r'.result.Some?
    ensures r.result == r'.result
  {
    PlacedAlong(root, actions, i);
  }

  /** Calls for different (file, column) pairs never hand out the same object. */
  lemma DifferentKeysDifferentObjects(root: Root, actions: seq<Action>, i: nat, r: Return, r': Return)
    requires Possible(root, actions) && i <= |actions|
    requires r in StateAt(root, actions, i).returned && r' in StateAt(root, actions, i).returned
    requires r.key != r'.key && r.result.Some? && r'.result.Some?
    ensures r.result != r'.result
  {
    PlacedAlong(root, actions, i);
  }

  // ---------------------------------------------------------------- what the objects read as

  /** What a search finds in what its call returned: no index, these keys, or a fault. */
  datatype Sight = NoIndex | Shows(keys: Fst) | Faults

  function SightOf(keys: Option<Fst>): Sight {
    if keys.Some? then Shows(keys.value) else NoIndex
  }

  function Sees(s: State, result: Option<Object>): Sight {
    if result.None? then NoIndex
    else if result.value in s.mappings && s.mappings[result.value].showing.Some?
    then Shows(s.mappings[result.value].showing.value)
    else Faults
  }

  /** Writing in place the file behind some mappings. */
  predicate Overwrites(s: State, a: Action, file: FileId) {
    a.Index? && a.key in s.disk && s.disk[a.key].file == file
  }

  lemma StepKeepsMapping(s: State, a: Action, o: Object)
    requires Placed(s) && Enabled(s, a) && o in s.mappings && !Overwrites(s, a, s.mappings[o].file)
    ensures o in Next(s, a).mappings && Next(s, a).mappings[o] == s.mappings[o]
  {
  }

  /** No step from point `i` to point `j` writes the file in place. */
  ghost predicate NotOverwritten(root: Root, actions: seq<Action>, i: nat, j: nat, file: FileId)
    requires Possible(root, actions) && i <= j <= |actions|
  {
    forall k :: i <= k < j ==> !Overwrites(StateAt(root, actions, k), actions[k], file)
  }

  /** An object reads the same from one point of a run to another as long as its file is not overwritten
      in between. Removing the file, and writing a new one in its place, does not matter. */
  lemma {:induction false} KeepsReading(root: Root, actions: seq<Action>, i: nat, j: nat, o: Object)
    requires Possible(root, actions) && i <= j <= |actions| && o in StateAt(root, actions, i).mappings
    requires NotOverwritten(root, actions, i, j, StateAt(root, actions, i).mappings[o].file)
    ensures o in StateAt(root, actions, j).mappings
    ensures StateAt(root, actions, j).mappings[o] == StateAt(root, actions, i).mappings[o]
    decreases j - i
  {
    if i < j {
      KeepsReading(root, actions, i, j - 1, o);
      StepAt(root, actions, j - 1);
      PlacedAlong(root, actions, j - 1);
      StepKeepsMapping(StateAt(root, actions, j - 1), actions[j - 1], o);
    }
  }

  /** The FST of this key is neither written nor removed. */
  ghost predicate Untouched(actions: seq<Action>, key: SetKey) {
    forall a :: a in actions && (a.Index? || a.Remove?) ==> a.key != key
  }

  ghost predicate FaithfulFor(s: State, root: Root, key: SetKey) {
    && (key in s.disk <==> OnDisk(root, key).Some?)
    && (key in s.disk ==> Some(s.disk[key].keys) == OnDisk(root, key))
    && (forall o :: o in s.mappings && s.mappings[o].file.key == key
          ==> OnDisk(root, key).Some? && s.mappings[o].showing == OnDisk(root, key))
    && (forall r :: r in s.returned && r.key == key && r.result.None? ==> OnDisk(root, key).None?)
  }

  lemma OpenKeepsFaithful(s: State, t: Thread, root: Root, key: SetKey)
    requires Placed(s) && Enabled(s, Open(t)) && FaithfulFor(s, root, key)
    ensures FaithfulFor(Next(s, Open(t)), root, key)
  {
  }

  lemma CallKeepsFaithful(s: State, a: Action, root: Root, key: SetKey)
    requires Placed(s) && Enabled(s, a) && FaithfulFor(s, root, key) && (a.Check? || a.Publish?)
    ensures FaithfulFor(Next(s, a), root, key)
  {
    var n := Next(s, a);
    assert n.disk == s.disk && n.mappings == s.mappings;
  }

  lemma WriteKeepsFaithful(s: State, a: Action, root: Root, key: SetKey)
    requires Placed(s) && FaithfulFor(s, root, key) && (a.Index? || a.Remove?) && a.key != key
    ensures FaithfulFor(Next(s, a), root, key)
  {
    var n := Next(s, a);
    assert n.returned == s.returned;
    assert forall o :: o in s.mappings && s.mappings[o].file.key == key ==> n.mappings[o] == s.mappings[o];
  }

  lemma StepKeepsFaithful(s: State, a: Action, root: Root, key: SetKey)
    requires Placed(s) && Enabled(s, a) && FaithfulFor(s, root, key) && (a.Index? || a.Remove? ==> a.key != key)
    ensures FaithfulFor(Next(s, a), root, key)
  {
    match a
    case Open(t) => OpenKeepsFaithful(s, t, root, key);
    case Check(_, _) => CallKeepsFaithful(s, a, root, key);
    case Publish(_) => CallKeepsFaithful(s, a, root, key);
    case _ => WriteKeepsFaithful(s, a, root, key);
  }

  lemma {:induction false} FaithfulAlong(root: Root, actions: seq<Action>, i: nat, key: SetKey)
    requires Possible(root, actions) && i <= |actions| && Untouched(actions, key)
    ensures FaithfulFor(StateAt(root, actions, i), root, key)
  {
    if i == 0 {
      assert key == (key.0, key.1);
    } else {
      FaithfulAlong(root, actions, i - 1, key);
      PlacedAlong(root, actions, i - 1);
      StepAt(root, actions, i - 1);
      assert actions[i - 1] in actions;
      StepKeepsFaithful(StateAt(root, actions, i - 1), actions[i - 1], root, key);
    }
  }

  lemma FaithfulReturn(s: State, root: Root, r: Return)
    requires Placed(s) && FaithfulFor(s, root, r.key) && r in s.returned
    ensures Sees(s, r.result) == SightOf(OnDisk(root, r.key))
  {
  }

  /** While a file's FST is not rewritten or removed, every call for it, in every interleaving, returns
      what opening it afresh would give, including `None` when it has no FST for the column. */
  lemma EveryCallFaithful(root: Root, actions: seq<Action>, i: nat, r: Return)
    requires Possible(root, actions) && i <= |actions| && r in StateAt(root, actions, i).returned
    requires Untouched(actions, r.key)
    ensures Sees(StateAt(root, actions, i), r.result) == SightOf(OnDisk(root, r.key))
  {
    FaithfulAlong(root, actions, i, r.key);
    PlacedAlong(root, actions, i);
    FaithfulReturn(StateAt(root, actions, i), root, r);
  }

  // ---------------------------------------------------------------- one call alone

  /** The rest of a call once no other thread interferes. */
  function Completed(s: State, t: Thread): State {
    var loaded := if PhaseOf(s, t).Opening? then Next(s, Open(t)) else s;
    if PhaseOf(loaded, t).Holding? then Next(loaded, Publish(t)) else loaded
  }

  /** An undisturbed call is one sequential cache access: the resident object, or else a new one for
      what is on disk, is returned and is in the cache afterwards. */
  lemma UndisturbedCall(s: State, t: Thread, key: SetKey)
    requires Placed(s) && PhaseOf(s, t).Idle?
    ensures var done := Completed(Next(s, Check(t, key)), t);
            && PhaseOf(done, t).Idle? && done.disk == s.disk
            && (exists r :: done.returned == s.returned + [Return(key, r)]
                  && Sees(done, r) == (if key in s.cache then Sees(s, Some(s.cache[key]))
                                       else if key in s.disk then Shows(s.disk[key].keys) else NoIndex)
                  && done.cache == if r.Some? then s.cache[key := r.value] else s.cache)
  {
    var done := Completed(Next(s, Check(t, key)), t);
    var result := if key in s.cache then Some(s.cache[key]) else if key in s.disk then Some(s.loads) else None;
    assert done.returned == s.returned + [Return(key, result)];
  }

  // ---------------------------------------------------------------- overwriting under a resident set

  lemma {:induction false} SamePrefix(root: Root, actions: seq<Action>, more: seq<Action>, i: nat)
    requires i <= |actions|
    ensures At(root, actions + more, i) == At(root, actions, i)
  {
    if i > 0 {
      SamePrefix(root, actions, more, i - 1);
    }
  }

  lemma Extend(root: Root, actions: seq<Action>, s: State, a: Action)
    requires At(root, actions, |actions|) == Some(s) && Enabled(s, a)
    ensures At(root, actions + [a], |actions|) == Some(s)
    ensures At(root, actions + [a], |actions| + 1) == Some(Next(s, a))
  {
    SamePrefix(root, actions, [a], |actions|);
  }

  /** A call that loads the FST of a key that nothing has asked for yet. */
  lemma FirstCall(root: Root, key: SetKey) returns (run: seq<Action>, s: State)
    requires OnDisk(root, key).Some?
    ensures |run| == 3 && At(root, run, 3) == Some(s)
    ensures s.cache == map[key := 0] && s.returned == [Return(key, Some(0))] && PhaseOf(s, 0).Idle?
    ensures key in s.disk && s.mappings == map[0 := Mapping(s.disk[key].file, OnDisk(root, key))]
  {
    assert key == (key.0, key.1);
    var one := Next(Initial(root), Check(0, key));
    Extend(root, [], Initial(root), Check(0, key));
    var two := Next(one, Open(0));
    Extend(root, [] + [Check(0, key)], one, Open(0));
    s := Next(two, Publish(0));
    Extend(root, [] + [Check(0, key)] + [Open(0)], two, Publish(0));
    run := [] + [Check(0, key)] + [Open(0)] + [Publish(0)];
  }

  /** Two calls get the same object, and in between the file is written in place: whatever the object is to
      read as after that, or a fault, there is a run in which the second call finds it. */
  lemma ReindexChangesResident(root: Root, key: SetKey, keys: Fst, now: Option<Fst>) returns (run: seq<Action>)
    requires OnDisk(root, key).Some?
    ensures |run| == 5 && At(root, run, 3).Some? && At(root, run, 5).Some?
    ensures var early, late := At(root, run, 3).value, At(root, run, 5).value;
            && early.returned == [Return(key, Some(0))]
            && late.returned == [Return(key, Some(0)), Return(key, Some(0))]
            && Sees(early, Some(0)) == SightOf(OnDisk(root, key))
            && Sees(late, Some(0)) == if now.Some? then Shows(now.value) else Faults
  {
    var loaded, s := FirstCall(root, key);
    var write := Index(key, keys, if now.Some? then map[0 := now.value] else map[]);
    var written := Next(s, write);
    Extend(root, loaded, s, write);
    Extend(root, loaded + [write], written, Check(0, key));
    SamePrefix(root, loaded + [write], [Check(0, key)], 3);
    SamePrefix(root, loaded, [write], 3);
    run := loaded + [write] + [Check(0, key)];
  }
}
