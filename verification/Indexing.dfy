/** `Indexer`: the operations that change the index directory. */
module Indexing {
  import opened IndexBuilder
  import opened IndexRoot
  import opened Metadata
  import opened Outcomes
  import opened PathMaps

  class Indexer {
    const hash: PathHash
    var root: Root

    constructor (hash: PathHash)
      ensures this.hash == hash && root == map[]
    {
      this.hash := hash;
      root := map[];
    }

    /** Index one column of one file; the set builder never refuses a key, so this never fails. */
    method IndexFile(path: string, v: FileVersion, column: string) returns (ok: bool)
      modifies this
      ensures ok
      ensures root == old(root)[hash(path) := DirAfter(old(root), hash, path, v, column)]
    {
      var built := BuildFst(v.content, column);
      if built.Err? {
        return false;
      }
      var h := hash(path);
      var metadata := Format(path, v.stamp, |v.content.rowGroups|);
      root := root[h := IndexDir(Some(metadata), FstsAt(root, h)[column := built.value])];
      ok := true;
    }

    method IndexIfNeeded(path: string, v: FileVersion, column: string, force: bool) returns (ok: bool)
      modifies this
      ensures ok
      ensures root == Visited(old(root), hash, path, v, column, force)
    {
      ok := true;
      if force || NeedsIndexing(root, hash, path, v.stamp, column) {
        ok := IndexFile(path, v, column);
      }
    }

    /** Walk the data files in any order and index those that need it. */
    method BuildIndexExt(data: DataDir, column: string, force: bool) returns (ok: bool)
      requires InjectiveOn(hash, data.Keys)
      modifies this
      ensures ok
      ensures root == Rebuilt(old(root), hash, data, column, force)
    {
      var left := data.Keys;
      NoneVisited(root, hash, data, column, force);
      while left != {}
        invariant left <= data.Keys
        invariant root == PartlyRebuilt(old(root), hash, data, column, force, left)
        decreases left
      {
        var path :| path in left;
        VisitStep(old(root), hash, data, column, force, left, path);
        left := left - {path};
        var indexed := IndexIfNeeded(path, data[path], column, force);
        if !indexed {
          return false;
        }
      }
      ok := true;
    }

    /** Remove every orphan and report how many there were. */
    method PruneOrphans(existing: set<string>) returns (prunedCount: nat)
      modifies this
      ensures root == Pruned(old(root), existing)
      ensures forall h :: h in root <==>
                && h in old(root) && old(root)[h].metadata.Some?
                && var lines := Lines(old(root)[h].metadata.value); lines == [] || lines[0] in existing
      ensures forall h :: h in root ==> root[h] == old(root)[h]
      ensures |old(root)| == |root| + prunedCount
    {
      prunedCount := 0;
      var entries := root.Keys;
      while entries != {}
        invariant entries <= old(root).Keys
        invariant root == map h | h in old(root) && (h in entries || !IsOrphan(old(root)[h], existing)) :: old(root)[h]
        invariant |old(root)| == |root| + prunedCount
        decreases entries
      {
        var h :| h in entries;
        ghost var was := root;
        if IsOrphan(root[h], existing) {
          root := root - {h};
          prunedCount := prunedCount + 1;
          assert was.Keys == root.Keys + {h};
        }
        entries := entries - {h};
      }
    }
  }
}
