/** Byte strings in the order the `fst` crate keeps them: plain lexicographic order on bytes. */
module ByteOrder {
  import Sorting

  type Byte = b: int | 0 <= b < 256
  type Bytes = seq<Byte>

  predicate Less(a: Bytes, b: Bytes) {
    b != [] && (a == [] || a[0] < b[0] || (a[0] == b[0] && Less(a[1..], b[1..])))
  }

  /** Membership in the half-open key range `ge(lo).lt(hi)`. */
  predicate InSlice(k: Bytes, lo: Bytes, hi: Bytes) {
    !Less(k, lo) && Less(k, hi)
  }

  lemma {:induction false} Irreflexive(a: Bytes)
    ensures !Less(a, a)
  {
    if a != [] {
      Irreflexive(a[1..]);
    }
  }

  lemma {:induction false} Transitive(a: Bytes, b: Bytes, c: Bytes)
    requires Less(a, b) && Less(b, c)
    ensures Less(a, c)
  {
    if a != [] && a[0] == b[0] && b[0] == c[0] {
      Transitive(a[1..], b[1..], c[1..]);
    }
  }

  lemma {:induction false} Total(a: Bytes, b: Bytes)
    ensures a == b || Less(a, b) || Less(b, a)
  {
    if a != [] && b != [] && a[0] == b[0] {
      Total(a[1..], b[1..]);
      assert a == [a[0]] + a[1..] && b == [b[0]] + b[1..];
    }
  }

  lemma LessIsTotalOrder()
    ensures Sorting.TotalOrder(Less)
  {
    forall a: Bytes ensures !Less(a, a) {
      Irreflexive(a);
    }
    forall a: Bytes, b: Bytes, c: Bytes | Less(a, b) && Less(b, c) ensures Less(a, c) {
      Transitive(a, b, c);
    }
    forall a: Bytes, b: Bytes ensures a == b || Less(a, b) || Less(b, a) {
      Total(a, b);
    }
  }

  /** A shared front does not affect the comparison. */
  lemma {:induction false} CommonFront(p: Bytes, a: Bytes, b: Bytes)
    ensures Less(p + a, p + b) <==> Less(a, b)
  {
    if p == [] {
      assert p + a == a && p + b == b;
    } else {
      assert (p + a)[1..] == p[1..] + a && (p + b)[1..] == p[1..] + b;
      CommonFront(p[1..], a, b);
    }
  }

  /** The first position where two strings differ decides, whatever follows. */
  lemma LessAtDivergence(x: Bytes, y: Bytes, i: nat, u: Bytes, w: Bytes)
    requires i < |x| && i < |y|
    requires x[..i] == y[..i] && x[i] < y[i]
    ensures Less(x + u, y + w)
  {
    assert x + u == x[..i] + (x[i..] + u);
    assert y + w == x[..i] + (y[i..] + w);
    CommonFront(x[..i], x[i..] + u, y[i..] + w);
  }
}
