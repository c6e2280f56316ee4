/** UTF-8 (RFC 3629, section 3) and the two facts every search rests on: encoding preserves
    lexicographic order, and no encoded character starts another (section 1). A Rust `char` is a
    Unicode scalar value, which is exactly what Dafny's `char` is. */
module Utf8 {
  import opened ByteOrder

  const NUL: char := '\0'

  /** Number of continuation bytes, by the shortest form that holds the code point. */
  function TailLength(n: nat): (count: nat)
    ensures count <= 3
  {
    if n < 0x80 then 0 else if n < 0x800 then 1 else if n < 0x1_0000 then 2 else 3
  }

  /** What is left for the lead byte once `count` groups of six bits are taken off. */
  function Payload(n: nat, count: nat): nat
    decreases count
  {
    if count == 0 then n else Payload(n / 64, count - 1)
  }

  /** The continuation bytes `10xxxxxx`. */
  function Continuation(n: nat, count: nat): (r: Bytes)
    ensures |r| == count && 0 !in r
    decreases count
  {
    if count == 0 then [] else Continuation(n / 64, count - 1) + [0x80 + n % 64]
  }

  function LeadMark(count: nat): nat {
    if count == 0 then 0 else if count == 1 then 0xC0 else if count == 2 then 0xE0 else 0xF0
  }

  /** Lead bytes of different lengths lie in disjoint ranges, in the order of the lengths. */
  lemma LeadRange(n: nat)
    requires n < 0x11_0000
    ensures var count, lead := TailLength(n), LeadMark(TailLength(n)) + Payload(n, TailLength(n));
            && (count == 0 ==> lead == n < 0x80)
            && (count > 0 ==> LeadMark(count) <= lead < if count < 3 then LeadMark(count + 1) else 0xF8)
  {
    var count := TailLength(n);
    if count > 0 {
      assert Payload(n, count) == Payload(n / 64, count - 1);
      if count > 1 {
        assert Payload(n / 64, count - 1) == Payload(n / 64 / 64, count - 2);
        assert count > 2 ==> Payload(n / 64 / 64, count - 2) == Payload(n / 64 / 64 / 64, 0);
      }
    }
  }

  function EncodeChar(c: char): (r: Bytes)
    ensures r != []
    ensures c != NUL <==> 0 !in r
  {
    var n := c as int;
    LeadRange(n);
    [LeadMark(TailLength(n)) + Payload(n, TailLength(n))] + Continuation(n, TailLength(n))
  }

  function Encode(s: string): (r: Bytes)
    ensures s == [] <==> r == []
  {
    if s == [] then [] else EncodeChar(s[0]) + Encode(s[1..])
  }

  /** The order of Rust strings, by code point. */
  predicate StrLess(a: string, b: string) {
    b != [] && (a == [] || a[0] < b[0] || (a[0] == b[0] && StrLess(a[1..], b[1..])))
  }

  lemma {:induction false} EncodeConcat(a: string, b: string)
    ensures Encode(a + b) == Encode(a) + Encode(b)
  {
    if a == [] {
      assert a + b == b;
    } else {
      assert (a + b)[1..] == a[1..] + b;
      EncodeConcat(a[1..], b);
    }
  }

  lemma EncodeSingle(c: char)
    ensures Encode([c]) == EncodeChar(c)
  {
    assert [c][1..] == [];
  }

  lemma {:induction false} PayloadMonotone(n: nat, m: nat, count: nat)
    requires n <= m
    ensures Payload(n, count) <= Payload(m, count)
    decreases count
  {
    if count > 0 {
      PayloadMonotone(n / 64, m / 64, count - 1);
    }
  }

  lemma {:induction false} ContinuationsDiverge(n: nat, m: nat, count: nat) returns (i: nat)
    requires n < m && Payload(n, count) == Payload(m, count)
    ensures i < count
    ensures Continuation(n, count)[..i] == Continuation(m, count)[..i]
    ensures Continuation(n, count)[i] < Continuation(m, count)[i]
    decreases count
  {
    var x, y := Continuation(n / 64, count - 1), Continuation(m / 64, count - 1);
    if n / 64 == m / 64 {
      i := count - 1;
      assert Continuation(n, count)[..i] == x && Continuation(m, count)[..i] == y;
    } else {
      i := ContinuationsDiverge(n / 64, m / 64, count - 1);
      assert Continuation(n, count)[..i] == x[..i] && Continuation(m, count)[..i] == y[..i];
    }
  }

  lemma FrontOfCons(b: Byte, tail: Bytes, j: nat)
    requires j < |tail|
    ensures ([b] + tail)[..j + 1] == [b] + tail[..j] && ([b] + tail)[j + 1] == tail[j]
  {
  }

  predicate SameLead(n: nat, m: nat) {
    TailLength(n) == TailLength(m) && Payload(n, TailLength(n)) == Payload(m, TailLength(n))
  }

  lemma LeadsOrdered(n: nat, m: nat)
    requires n < m < 0x11_0000 && !SameLead(n, m)
    ensures LeadMark(TailLength(n)) + Payload(n, TailLength(n)) < LeadMark(TailLength(m)) + Payload(m, TailLength(m))
  {
    LeadRange(n);
    LeadRange(m);
    PayloadMonotone(n, m, TailLength(n));
  }

  /** Where the encodings of two characters first differ, the smaller character has the smaller
      byte; in particular neither encoding is a prefix of the other. */
  lemma CharsDiverge(c: char, d: char) returns (i: nat)
    requires c < d
    ensures i < |EncodeChar(c)| && i < |EncodeChar(d)|
    ensures EncodeChar(c)[..i] == EncodeChar(d)[..i] && EncodeChar(c)[i] < EncodeChar(d)[i]
  {
    var n, m := c as int, d as int;
    if SameLead(n, m) {
      var j := ContinuationsDiverge(n, m, TailLength(n));
      FrontOfCons(EncodeChar(c)[0], Continuation(n, TailLength(n)), j);
      FrontOfCons(EncodeChar(d)[0], Continuation(m, TailLength(m)), j);
      i := j + 1;
    } else {
      LeadsOrdered(n, m);
      i := 0;
    }
  }

  lemma {:induction false} OrderPreserved(a: string, b: string)
    ensures Less(Encode(a), Encode(b)) <==> StrLess(a, b)
  {
    if a != [] && b != [] {
      var x, y, u, w := EncodeChar(a[0]), EncodeChar(b[0]), Encode(a[1..]), Encode(b[1..]);
      if a[0] == b[0] {
        CommonFront(x, u, w);
        OrderPreserved(a[1..], b[1..]);
      } else if a[0] < b[0] {
        var i := CharsDiverge(a[0], b[0]);
        LessAtDivergence(x, y, i, u, w);
      } else {
        var i := CharsDiverge(b[0], a[0]);
        LessAtDivergence(y, x, i, w, u);
        LessIsTotalOrder();
      }
    }
  }

  lemma {:induction false} StrTotal(a: string, b: string)
    ensures a == b || StrLess(a, b) || StrLess(b, a)
  {
    if a != [] && b != [] && a[0] == b[0] {
      StrTotal(a[1..], b[1..]);
      assert a == [a[0]] + a[1..] && b == [b[0]] + b[1..];
    }
  }

  /** Different strings have different encodings. */
  lemma EncodeInjective(a: string, b: string)
    requires Encode(a) == Encode(b)
    ensures a == b
  {
    OrderPreserved(a, b);
    OrderPreserved(b, a);
    Irreflexive(Encode(a));
    StrTotal(a, b);
  }

  lemma CommonFrontPrefix(x: Bytes, u: Bytes, w: Bytes)
    ensures x + u <= x + w <==> u <= w
  {
    if x + u <= x + w {
      assert u == (x + u)[|x|..] && w == (x + w)[|x|..];
    }
  }

  lemma DifferentCharsNoPrefix(c: char, d: char, u: Bytes, w: Bytes)
    requires c != d
    ensures !(EncodeChar(c) + u <= EncodeChar(d) + w)
  {
    var i;
    if c < d {
      i := CharsDiverge(c, d);
    } else {
      i := CharsDiverge(d, c);
    }
    assert (EncodeChar(c) + u)[i] != (EncodeChar(d) + w)[i];
  }

  lemma StringPrefix(p: string, s: string)
    requires p != [] && s != []
    ensures p <= s <==> p[0] == s[0] && p[1..] <= s[1..]
  {
    assert p == [p[0]] + p[1..] && s == [s[0]] + s[1..];
  }

  /** A string starts with `p` exactly when its bytes start with the bytes of `p`. */
  lemma {:induction false} PrefixPreserved(p: string, s: string)
    ensures Encode(p) <= Encode(s) <==> p <= s
  {
    if p != [] && s != [] {
      StringPrefix(p, s);
      if p[0] == s[0] {
        PrefixPreserved(p[1..], s[1..]);
        CommonFrontPrefix(EncodeChar(p[0]), Encode(p[1..]), Encode(s[1..]));
      } else {
        DifferentCharsNoPrefix(p[0], s[0], Encode(p[1..]), Encode(s[1..]));
      }
    }
  }

  lemma {:induction false} NulFree(s: string)
    ensures NUL in s <==> 0 in Encode(s)
  {
    if s != [] {
      NulFree(s[1..]);
      assert s == [s[0]] + s[1..];
      assert EncodeChar(NUL) == [0];
    }
  }
}
