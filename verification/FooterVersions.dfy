/** Which version of a data file a cached footer belongs to. The cache is keyed by path alone and nothing
    is ever taken out of it, so a file that is rewritten keeps its old footer there. */
module FooterVersions {
  import opened FooterCache
  import opened Outcomes

  /** The footer the file was last given. */
  function Present(actions: seq<Action>, key: string): Option<Footer> {
    if actions == [] then None else
      var n := |actions| - 1;
      if actions[n].Rewrite? && actions[n].key == key then Some(actions[n].footer) else Present(actions[..n], key)
  }

  /** The step at which the reader last finished a parse. */
  function ReadBy(actions: seq<Action>, r: Reader): nat {
    if actions == [] then 0 else
      var n := |actions| - 1;
      if actions[n].Parsed? && actions[n].reader == r then n else ReadBy(actions[..n], r)
  }

  predicate StoresFor(s: State, a: Action, key: string) {
    a.Store? && a.reader in s.active && s.active[a.reader].Storing? && s.active[a.reader].key == key
  }

  /** The parse whose footer was last stored for the file: the step at which it read the file. */
  function StoredRead(actions: seq<Action>, key: string): nat {
    if actions == [] then 0 else
      var n := |actions| - 1;
      var before := After(actions[..n]);
      if before.Some? && StoresFor(before.value, actions[n], key) then ReadBy(actions[..n], actions[n].reader)
      else StoredRead(actions[..n], key)
  }

  /** The footer is the one the file had at that step, a parse. */
  ghost predicate ReadAt(actions: seq<Action>, i: nat, key: string, footer: Footer) {
    i < |actions| && actions[i].Parsed? && Present(actions[..i], key) == Some(footer)
  }

  ghost predicate ReadsKnown(actions: seq<Action>, s: State) {
    && (forall k :: k in s.files <==> Present(actions, k).Some?)
    && (forall k :: k in s.files ==> s.files[k] == Present(actions, k).value)
    && (forall r :: r in s.active && s.active[r].Storing?
          ==> ReadAt(actions, ReadBy(actions, r), s.active[r].key, s.active[r].footer))
    && (forall k :: k in s.cache.entries ==> ReadAt(actions, StoredRead(actions, k), k, s.cache.entries[k]))
  }

  lemma ReadAtStays(actions: seq<Action>, a: Action, i: nat, key: string, footer: Footer)
    requires ReadAt(actions, i, key, footer)
    ensures ReadAt(actions + [a], i, key, footer)
  {
    assert (actions + [a])[..i] == actions[..i];
  }

  lemma ReadsStep(before: seq<Action>, s: State, a: Action)
    requires After(before) == Some(s) && Enabled(s, a) && ReadsKnown(before, s)
    ensures ReadsKnown(before + [a], Next(s, a))
  {
    var all, n := before + [a], Next(s, a);
    assert all[..|before|] == before && all[|before|] == a;
    forall r | r in n.active && n.active[r].Storing?
      ensures ReadAt(all, ReadBy(all, r), n.active[r].key, n.active[r].footer)
    {
      if !(a.Parsed? && a.reader == r) {
        ReadAtStays(before, a, ReadBy(before, r), s.active[r].key, s.active[r].footer);
      }
    }
    forall k | k in n.cache.entries ensures ReadAt(all, StoredRead(all, k), k, n.cache.entries[k]) {
      if StoresFor(s, a, k) {
        ReadAtStays(before, a, ReadBy(before, a.reader), k, s.active[a.reader].footer);
      } else {
        ReadAtStays(before, a, StoredRead(before, k), k, s.cache.entries[k]);
      }
    }
  }

  lemma {:induction false} ReadsAlong(actions: seq<Action>)
    requires After(actions).Some?
    ensures ReadsKnown(actions, After(actions).value)
  {
    if actions != [] {
      var before, a := actions[..|actions| - 1], actions[|actions| - 1];
      assert actions == before + [a];
      ReadsAlong(before);
      ReadsStep(before, After(before).value, a);
    }
  }

  ghost predicate NotRewritten(actions: seq<Action>, i: nat, key: string) {
    forall j :: i <= j < |actions| ==> !(actions[j].Rewrite? && actions[j].key == key)
  }

  lemma {:induction false} SamePresent(actions: seq<Action>, i: nat, key: string)
    requires i <= |actions| && NotRewritten(actions, i, key)
    ensures Present(actions[..i], key) == Present(actions, key)
  {
    if i == |actions| {
      assert actions[..i] == actions;
    } else {
      var n := |actions| - 1;
      assert actions[..n][..i] == actions[..i];
      SamePresent(actions[..n], i, key);
    }
  }

  /** In every interleaving, failures, overlaps and rewrites included: the cached footer is the one the
      file has at present exactly when the parse last stored for it read a file with that footer; so
      always when the file was not rewritten since that parse. */
  lemma CachedIsPresentIff(actions: seq<Action>, key: string)
    requires After(actions).Some? && key in After(actions).value.cache.entries
    ensures var s, read := After(actions).value, StoredRead(actions, key);
            && read < |actions| && actions[read].Parsed? && key in s.files
            && (s.cache.entries[key] == s.files[key]
                <==> Present(actions[..read], key) == Present(actions, key))
            && (NotRewritten(actions, read, key) ==> s.cache.entries[key] == s.files[key])
  {
    ReadsAlong(actions);
    var read := StoredRead(actions, key);
    assert ReadAt(actions, read, key, After(actions).value.cache.entries[key]);
    PresentStays(actions, read, key);
    if NotRewritten(actions, read, key) {
      SamePresent(actions, read, key);
    }
  }

  lemma {:induction false} PresentStays(actions: seq<Action>, i: nat, key: string)
    requires i <= |actions| && Present(actions[..i], key).Some?
    ensures Present(actions, key).Some?
  {
    if i == |actions| {
      assert actions[..i] == actions;
    } else {
      var n := |actions| - 1;
      assert actions[..n][..i] == actions[..i];
      PresentStays(actions[..n], i, key);
    }
  }

  lemma StepKeepsEntry(s: State, a: Action, key: string)
    requires Enabled(s, a) && key in s.cache.entries && key !in Wanted(s.active)
    ensures var n := Next(s, a);
            key in n.cache.entries && n.cache.entries[key] == s.cache.entries[key] && key !in Wanted(n.active)
  {
    var n := Next(s, a);
    forall r | r in Pending(n.active) ensures n.active[r].key != key {
      assert r in Pending(s.active) ==> s.active[r].key in Wanted(s.active);
    }
    assert a.Store? ==> a.reader in Pending(s.active) && s.active[a.reader].key in Wanted(s.active);
  }

  /** Once no reader is about to store a footer for the file, the cached one stays for good, whatever
      requests and rewrites follow. */
  lemma {:induction false} CachedStays(actions: seq<Action>, more: seq<Action>, key: string)
    requires After(actions).Some? && After(actions + more).Some?
    requires key in After(actions).value.cache.entries && key !in Wanted(After(actions).value.active)
    ensures var s, later := After(actions).value, After(actions + more).value;
            && key in later.cache.entries && later.cache.entries[key] == s.cache.entries[key]
            && key !in Wanted(later.active)
  {
    if more == [] {
      assert actions + more == actions;
    } else {
      var n := |more| - 1;
      assert (actions + more)[..|actions + more| - 1] == actions + more[..n];
      CachedStays(actions, more[..n], key);
      StepKeepsEntry(After(actions + more[..n]).value, more[n], key);
    }
  }

  /** A hit on a rewritten file: the second request is answered from the cache, with the footer of the
      version before. */
  lemma StaleHit(key: string, first: Footer, second: Footer) returns (run: seq<Action>)
    ensures After(run).Some?
    ensures var s := After(run).value;
            && s.cache == Counters(map[key := first], 1, 1) && s.files == map[key := second]
            && s.active == map[] && s.started == 2
  {
    var there := Next(START, Rewrite(key, first));
    Extend([], START, Rewrite(key, first));
    run := [] + [Rewrite(key, first)];
    LoneRequest(run, there, 0, key, Some(first));
    run := run + RequestSteps(there.cache, 0, key, Some(first));
    var cached := After(run).value;
    Extend(run, cached, Rewrite(key, second));
    run := run + [Rewrite(key, second)];
    var rewritten := Next(cached, Rewrite(key, second));
    Extend(run, rewritten, Request(1, key));
    run := run + [Request(1, key)];
  }
}
