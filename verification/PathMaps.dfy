/** Maps filed under path hashes. */
module PathMaps {

  type PathHash = string -> string

  /** No two of the paths in play share a hash. */
  ghost predicate InjectiveOn(hash: PathHash, paths: set<string>) {
    forall p, q {:trigger hash(p), hash(q)} :: p in paths && q in paths && hash(p) == hash(q) ==> p == q
  }

  lemma InjectiveOnFewer(hash: PathHash, paths: set<string>, fewer: set<string>)
    requires InjectiveOn(hash, paths) && fewer <= paths
    ensures InjectiveOn(hash, fewer)
  {
  }

  /** Entries given per path, filed under the hashes of the paths. */
  ghost function Hashed<T>(hash: PathHash, entries: map<string, T>): (r: map<string, T>)
    requires InjectiveOn(hash, entries.Keys)
    ensures forall p :: p in entries ==> hash(p) in r && r[hash(p)] == entries[p]
    ensures forall h :: h in r ==> exists p :: p in entries && hash(p) == h
  {
    map p | p in entries :: hash(p) := entries[p]
  }

  lemma HashedLookup<T>(hash: PathHash, m: map<string, T>, p: string)
    requires InjectiveOn(hash, m.Keys + {p})
    ensures p in m <==> hash(p) in Hashed(hash, m)
    ensures p in m ==> Hashed(hash, m)[hash(p)] == m[p]
  {
  }

  lemma HashedAt<T>(hash: PathHash, paths: set<string>, m: map<string, T>, p: string)
    requires InjectiveOn(hash, paths) && m.Keys <= paths && p in paths
    ensures InjectiveOn(hash, m.Keys)
    ensures p in m <==> hash(p) in Hashed(hash, m)
    ensures p in m ==> Hashed(hash, m)[hash(p)] == m[p]
  {
  }

  lemma HashedPlusAt<T>(hash: PathHash, paths: set<string>, a: map<string, T>, b: map<string, T>, p: string)
    requires InjectiveOn(hash, paths) && a.Keys <= paths && b.Keys <= paths && p in paths
    ensures InjectiveOn(hash, a.Keys) && InjectiveOn(hash, b.Keys) && InjectiveOn(hash, (a + b).Keys)
    ensures var h, sum := hash(p), Hashed(hash, a) + Hashed(hash, b);
            && (h in sum <==> h in Hashed(hash, a + b))
            && (h in sum ==> sum[h] == Hashed(hash, a + b)[h])
  {
    HashedAt(hash, paths, a, p);
    HashedAt(hash, paths, b, p);
    HashedAt(hash, paths, a + b, p);
  }

  lemma SameMap<T>(x: map<string, T>, y: map<string, T>)
    requires forall h :: (h in x <==> h in y) && (h in x ==> x[h] == y[h])
    ensures x == y
  {
  }

  lemma HashedOrigin<T>(hash: PathHash, m: map<string, T>, h: string) returns (p: string)
    requires InjectiveOn(hash, m.Keys) && h in Hashed(hash, m)
    ensures p in m && hash(p) == h
  {
    p :| p in m && hash(p) == h;
  }

  lemma HashedPlusOrigin<T>(hash: PathHash, a: map<string, T>, b: map<string, T>, h: string) returns (p: string)
    requires InjectiveOn(hash, a.Keys + b.Keys)
    requires h in Hashed(hash, a) || h in Hashed(hash, b) || h in Hashed(hash, a + b)
    ensures p in a.Keys + b.Keys && hash(p) == h
  {
    if h in Hashed(hash, a) {
      p := HashedOrigin(hash, a, h);
    } else if h in Hashed(hash, b) {
      p := HashedOrigin(hash, b, h);
    } else {
      p := HashedOrigin(hash, a + b, h);
    }
  }

  lemma HashedPlus<T>(hash: PathHash, a: map<string, T>, b: map<string, T>)
    requires InjectiveOn(hash, a.Keys + b.Keys)
    ensures Hashed(hash, a) + Hashed(hash, b) == Hashed(hash, a + b)
  {
    var x, y := Hashed(hash, a) + Hashed(hash, b), Hashed(hash, a + b);
    forall h: string ensures (h in x <==> h in y) && (h in x ==> x[h] == y[h]) {
      if h in x || h in y {
        var p := HashedPlusOrigin(hash, a, b, h);
        HashedPlusAt(hash, a.Keys + b.Keys, a, b, p);
      }
    }
    SameMap(x, y);
  }

  lemma HashedOne<T>(hash: PathHash, p: string, e: T)
    ensures InjectiveOn(hash, map[p := e].Keys)
    ensures Hashed(hash, map[p := e]) == map[hash(p) := e]
  {
    assert p in map[p := e];
  }

  lemma UpdateIsPlus<T>(m: map<string, T>, k: string, e: T)
    ensures m[k := e] == m + map[k := e]
  {
  }

  lemma HashedUpdate<T>(hash: PathHash, entries: map<string, T>, p: string, e: T)
    requires InjectiveOn(hash, entries.Keys + {p})
    ensures Hashed(hash, entries[p := e]) == Hashed(hash, entries)[hash(p) := e]
  {
    var one := map[p := e];
    UpdateIsPlus(entries, p, e);
    UpdateIsPlus(Hashed(hash, entries), hash(p), e);
    HashedOne(hash, p, e);
    assert one.Keys == {p};
    HashedPlus(hash, entries, one);
  }

  lemma PlusUpdate<T>(base: map<string, T>, m: map<string, T>, h: string, e: T)
    ensures base + m[h := e] == (base + m)[h := e]
  {
  }

  /** One more element leaves the set of those still waiting. */
  lemma OneFewerLeft(todo: set<string>, left: set<string>, p: string)
    requires p in left
    ensures todo - (left - {p}) == if p in todo then todo - left + {p} else todo - left
  {
  }

  /** Replacing the entries of some paths neither reads nor writes that of another. */
  lemma OverlayStep<T>(base: map<string, T>, hash: PathHash, entries: map<string, T>, p: string, e: T)
    requires InjectiveOn(hash, entries.Keys + {p}) && p !in entries
    ensures hash(p) !in Hashed(hash, entries)
    ensures base + Hashed(hash, entries[p := e]) == (base + Hashed(hash, entries))[hash(p) := e]
  {
    HashedLookup(hash, entries, p);
    HashedUpdate(hash, entries, p, e);
    PlusUpdate(base, Hashed(hash, entries), hash(p), e);
  }
}
