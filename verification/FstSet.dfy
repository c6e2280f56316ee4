/** A finished FST set seen from outside: its keys in strictly ascending byte order. */
module FstSet {
  import opened ByteOrder
  import Sorting

  type Fst = s: seq<Bytes> | Sorting.Ascending(s, Less) witness []

  /** Which FST: the hash of the file's path, and the column. */
  type SetKey = (string, string)

  /** `fst::SetBuilder`: accepts keys in strictly ascending order and refuses any other. */
  class SetBuilder {
    var keys: Fst

    constructor ()
      ensures keys == []
    {
      keys := [];
    }

    method Insert(key: Bytes) returns (accepted: bool)
      modifies this
      ensures accepted <==> (old(keys) == [] || Less(old(keys)[|old(keys)| - 1], key))
      ensures keys == if accepted then old(keys) + [key] else old(keys)
    {
      if keys != [] && !Less(keys[|keys| - 1], key) {
        return false;
      }
      ghost var was := keys;
      LessIsTotalOrder();
      assert forall i :: 0 <= i < |was| ==> was[i] == was[|was| - 1] || Less(was[i], was[|was| - 1]);
      keys := keys + [key];
      accepted := true;
    }
  }

  /** `range().ge(lo)`: position of the first key that is not below `lo`. */
  method LowerBound(keys: Fst, lo: Bytes) returns (n: nat)
    ensures n <= |keys|
    ensures forall i :: 0 <= i < n ==> Less(keys[i], lo)
    ensures forall i :: n <= i < |keys| ==> !Less(keys[i], lo)
  {
    LessIsTotalOrder();
    n := 0;
    var high := |keys|;
    while n < high
      invariant n <= high <= |keys|
      invariant forall i :: 0 <= i < n ==> Less(keys[i], lo)
      invariant forall i :: high <= i < |keys| ==> !Less(keys[i], lo)
    {
      var mid := (n + high) / 2;
      if Less(keys[mid], lo) {
        n := mid + 1;
      } else {
        high := mid;
      }
    }
  }
}
