/** What the three searches mean for the indexed values, proved against the byte-level scan. */
module SearchMeaning {
  import opened ByteOrder
  import opened Decimal
  import opened KeyCodec
  import opened Outcomes
  import opened SetSearch
  import Utf8

  /** Text a stored key carries after its value's separator. */
  function Tail(g: nat): string { ROW_GROUP_PREFIX + Print(g) }

  predicate AtLeastStart(v: string, g: nat, start: string) {
    if v + [VALUE_RG_SEPARATOR] <= start
    then !Utf8.StrLess(Tail(g), start[|v| + 1..] + [VALUE_RG_SEPARATOR])
    else !Utf8.StrLess(v, start)
  }

  predicate AtMostEnd(v: string, g: nat, end: string) {
    if v + [VALUE_RG_SEPARATOR] <= end
    then Utf8.StrLess(Tail(g), end[|v| + 1..] + [RANGE_UPPER_BOUND_MARKER])
    else !Utf8.StrLess(end, v) || end + [VALUE_RG_SEPARATOR] <= v
  }

  /** The meaning of each query on a value `v` stored for row group `g`, with no reference to keys.
      The group number matters only to a range bound that itself extends `v` by a NUL. */
  predicate Matches(q: Query, v: string, g: nat) {
    match q
    case Exact(t) => v == t || t + [VALUE_RG_SEPARATOR] <= v
    case Prefix(p) =>
      if p == [] then v == [] || v[0] == VALUE_RG_SEPARATOR
      else VALUE_RG_SEPARATOR !in p && p[|p| - 1] != MAX_UNICODE_CHAR && p <= v
    case Range(start, end) => AtLeastStart(v, g, start) && AtMostEnd(v, g, end)
  }

  // ---------------------------------------------------------------- text order

  lemma {:induction false} LowText(v: string, rest: string, s: string)
    requires rest != []
    ensures !Utf8.StrLess(v + [VALUE_RG_SEPARATOR] + rest, s + [VALUE_RG_SEPARATOR])
       <==> if v + [VALUE_RG_SEPARATOR] <= s then !Utf8.StrLess(rest, s[|v| + 1..] + [VALUE_RG_SEPARATOR])
            else !Utf8.StrLess(v, s)
  {
    var a, b := v + [VALUE_RG_SEPARATOR] + rest, s + [VALUE_RG_SEPARATOR];
    if s == [] {
      assert a[1..] != [] && b[1..] == [];
    } else if v == [] {
      assert a[1..] == rest && b[1..] == s[1..] + [VALUE_RG_SEPARATOR];
    } else {
      assert a[1..] == v[1..] + [VALUE_RG_SEPARATOR] + rest && b[1..] == s[1..] + [VALUE_RG_SEPARATOR];
      Utf8.StringPrefix(v + [VALUE_RG_SEPARATOR], s);
      assert (v + [VALUE_RG_SEPARATOR])[1..] == v[1..] + [VALUE_RG_SEPARATOR];
      assert |v| + 1 <= |s| ==> s[1..][|v|..] == s[|v| + 1..];
      LowText(v[1..], rest, s[1..]);
    }
  }

  lemma {:induction false} HighText(v: string, rest: string, e: string)
    requires rest != []
    ensures Utf8.StrLess(v + [VALUE_RG_SEPARATOR] + rest, e + [RANGE_UPPER_BOUND_MARKER])
       <==> if v + [VALUE_RG_SEPARATOR] <= e then Utf8.StrLess(rest, e[|v| + 1..] + [RANGE_UPPER_BOUND_MARKER])
            else !Utf8.StrLess(e, v) || e + [VALUE_RG_SEPARATOR] <= v
  {
    var a, b := v + [VALUE_RG_SEPARATOR] + rest, e + [RANGE_UPPER_BOUND_MARKER];
    if e == [] {
      assert b[1..] == [];
    } else if v == [] {
      assert a[1..] == rest && b[1..] == e[1..] + [RANGE_UPPER_BOUND_MARKER];
    } else {
      assert a[1..] == v[1..] + [VALUE_RG_SEPARATOR] + rest && b[1..] == e[1..] + [RANGE_UPPER_BOUND_MARKER];
      Utf8.StringPrefix(v + [VALUE_RG_SEPARATOR], e);
      Utf8.StringPrefix(e + [VALUE_RG_SEPARATOR], v);
      assert (v + [VALUE_RG_SEPARATOR])[1..] == v[1..] + [VALUE_RG_SEPARATOR];
      assert (e + [VALUE_RG_SEPARATOR])[1..] == e[1..] + [VALUE_RG_SEPARATOR];
      assert |v| + 1 <= |e| ==> e[1..][|v|..] == e[|v| + 1..];
      HighText(v[1..], rest, e[1..]);
    }
  }

  /** `ge(t NUL).lt(t 0x01)` is "starts with `t NUL`". */
  lemma {:induction false} MarkerSlice(k: string, t: string)
    ensures !Utf8.StrLess(k, t + [VALUE_RG_SEPARATOR]) && Utf8.StrLess(k, t + [RANGE_UPPER_BOUND_MARKER])
       <==> t + [VALUE_RG_SEPARATOR] <= k
  {
    var a, b := t + [VALUE_RG_SEPARATOR], t + [RANGE_UPPER_BOUND_MARKER];
    if k != [] {
      Utf8.StringPrefix(a, k);
      if t == [] {
        assert a == [VALUE_RG_SEPARATOR] && b == [RANGE_UPPER_BOUND_MARKER];
        assert Utf8.StrLess(k, a) <==> k[0] < VALUE_RG_SEPARATOR;
        assert Utf8.StrLess(k, b) <==> k[0] < RANGE_UPPER_BOUND_MARKER;
      } else {
        assert a[1..] == t[1..] + [VALUE_RG_SEPARATOR] && b[1..] == t[1..] + [RANGE_UPPER_BOUND_MARKER];
        MarkerSlice(k[1..], t[1..]);
      }
    }
  }

  lemma {:induction false} StrCommonFront(p: string, a: string, b: string)
    ensures Utf8.StrLess(p + a, p + b) <==> Utf8.StrLess(a, b)
  {
    if p == [] {
      assert p + a == a && p + b == b;
    } else {
      assert (p + a)[1..] == p[1..] + a && (p + b)[1..] == p[1..] + b;
      StrCommonFront(p[1..], a, b);
    }
  }

  lemma InSliceText(k: string, a: string, b: string)
    ensures InSlice(Utf8.Encode(k), Utf8.Encode(a), Utf8.Encode(b)) <==> !Utf8.StrLess(k, a) && Utf8.StrLess(k, b)
  {
    Utf8.OrderPreserved(k, a);
    Utf8.OrderPreserved(k, b);
  }

  lemma KeyTextSplit(v: string, g: nat)
    ensures KeyText(v, g) == v + [VALUE_RG_SEPARATOR] + Tail(g)
    ensures VALUE_RG_SEPARATOR !in Tail(g)
  {
  }

  // ---------------------------------------------------------------- one key

  /** A key text starts with `t NUL` iff its value is `t` or starts with `t NUL` itself. */
  lemma ExactText(t: string, v: string, rest: string)
    requires VALUE_RG_SEPARATOR !in rest
    ensures t + [VALUE_RG_SEPARATOR] <= v + [VALUE_RG_SEPARATOR] + rest <==> v == t || t + [VALUE_RG_SEPARATOR] <= v
  {
    var key := v + [VALUE_RG_SEPARATOR] + rest;
    forall i | |v| < i < |key| ensures key[i] != VALUE_RG_SEPARATOR {
      assert key[i] == rest[i - |v| - 1];
    }
    if t + [VALUE_RG_SEPARATOR] <= key {
      assert key[|t|] == VALUE_RG_SEPARATOR && t == key[..|t|];
    }
  }

  lemma ExactSelects(t: string, v: string, g: nat)
    ensures Selects(SliceOf(Exact(t)), Key(v, g)) <==> Matches(Exact(t), v, g)
  {
    KeyTextSplit(v, g);
    InSliceText(KeyText(v, g), t + [VALUE_RG_SEPARATOR], t + [RANGE_UPPER_BOUND_MARKER]);
    MarkerSlice(KeyText(v, g), t);
    ExactText(t, v, Tail(g));
  }

  lemma RangeSelects(start: string, end: string, v: string, g: nat)
    ensures Selects(SliceOf(Range(start, end)), Key(v, g)) <==> Matches(Range(start, end), v, g)
  {
    InSliceText(KeyText(v, g), start + [VALUE_RG_SEPARATOR], end + [RANGE_UPPER_BOUND_MARKER]);
    KeyTextSplit(v, g);
    LowText(v, Tail(g), start);
    HighText(v, Tail(g), end);
  }

  function UpToNul(v: string): (w: string)
    ensures VALUE_RG_SEPARATOR !in w && w <= v
    ensures |w| < |v| ==> v[|w|] == VALUE_RG_SEPARATOR
  {
    if v == [] || v[0] == VALUE_RG_SEPARATOR then [] else [v[0]] + UpToNul(v[1..])
  }

  lemma EncodeAroundNul(a: string, b: string)
    ensures Utf8.Encode(a + [VALUE_RG_SEPARATOR] + b) == Utf8.Encode(a) + [0] + Utf8.Encode(b)
  {
    Utf8.EncodeConcat(a + [VALUE_RG_SEPARATOR], b);
    Utf8.EncodeConcat(a, [VALUE_RG_SEPARATOR]);
    Utf8.EncodeSingle(VALUE_RG_SEPARATOR);
  }

  /** A stored key has its first NUL where the value has its own, or else right behind the value. */
  lemma KeyCut(v: string, g: nat)
    ensures var before, k := Utf8.Encode(UpToNul(v)), Key(v, g);
            FirstNul(k) == Some(|before|) && k[..|before|] == before
  {
    var w := UpToNul(v);
    KeyTextSplit(v, g);
    var rest := KeyText(v, g)[|w| + 1..];
    assert KeyText(v, g) == w + [VALUE_RG_SEPARATOR] + rest;
    var before, after := Utf8.Encode(w), Utf8.Encode(rest);
    EncodeAroundNul(w, rest);
    Utf8.NulFree(w);
    FirstNulAt(before, after);
    assert (before + [0] + after)[..|before|] == before;
  }

  lemma PrefixUpToNul(p: string, v: string)
    ensures p <= UpToNul(v) <==> VALUE_RG_SEPARATOR !in p && p <= v
  {
    var w := UpToNul(v);
    if p <= v && |w| < |p| {
      assert p[|w|] == VALUE_RG_SEPARATOR;
    }
  }

  /** The check on the bytes before the first NUL is a test on the value alone. */
  lemma CheckMeaning(p: string, v: string, g: nat)
    ensures PassesCheck(SliceOf(Prefix(p)), Key(v, g)) <==> VALUE_RG_SEPARATOR !in p && p <= v
  {
    KeyCut(v, g);
    Utf8.PrefixPreserved(p, UpToNul(v));
    PrefixUpToNul(p, v);
  }

  lemma PrefixText(front: string, c: char, rest: string)
    requires rest != []
    ensures var k := front + [c] + rest;
            && !Utf8.StrLess(k, front + [c] + [VALUE_RG_SEPARATOR])
            && (Utf8.StrLess(k, front + [NextChar(c)] + [VALUE_RG_SEPARATOR]) <==> c != MAX_UNICODE_CHAR)
  {
    var sep := [VALUE_RG_SEPARATOR];
    StrCommonFront(front + [c], rest, sep);
    assert sep[1..] == [];
    assert front + [c] + rest == front + ([c] + rest);
    assert front + [NextChar(c)] + sep == front + ([NextChar(c)] + sep);
    StrCommonFront(front, [c] + rest, [NextChar(c)] + sep);
    assert ([c] + rest)[1..] == rest && ([NextChar(c)] + sep)[1..] == sep;
  }

  lemma EmptyPrefixSelects(v: string, g: nat)
    ensures Selects(SliceOf(Prefix([])), Key(v, g)) <==> Matches(Prefix([]), v, g)
  {
    var k := KeyText(v, g);
    KeyTextSplit(v, g);
    CheckMeaning([], v, g);
    InSliceText(k, [] + [VALUE_RG_SEPARATOR], [RANGE_UPPER_BOUND_MARKER]);
    MarkerSlice(k, []);
    assert [] + [VALUE_RG_SEPARATOR] <= k <==> k[0] == VALUE_RG_SEPARATOR;
    assert [] + [RANGE_UPPER_BOUND_MARKER] == [RANGE_UPPER_BOUND_MARKER];
  }

  lemma PrefixSelects(p: string, v: string, g: nat)
    requires p != []
    ensures Selects(SliceOf(Prefix(p)), Key(v, g)) <==> Matches(Prefix(p), v, g)
  {
    CheckMeaning(p, v, g);
    if VALUE_RG_SEPARATOR !in p && p <= v {
      var k, front, c := KeyText(v, g), p[..|p| - 1], p[|p| - 1];
      KeyTextSplit(v, g);
      assert p == front + [c] && k == p + k[|p|..];
      PrefixText(front, c, k[|p|..]);
      InSliceText(k, p + [VALUE_RG_SEPARATOR], front + [NextChar(c)] + [VALUE_RG_SEPARATOR]);
    }
  }

  /** A query selects a stored key exactly when it matches the value stored there. */
  lemma KeySelected(q: Query, v: string, g: nat)
    ensures Selects(SliceOf(q), Key(v, g)) <==> Matches(q, v, g)
  {
    match q
    case Exact(t) => ExactSelects(t, v, g);
    case Prefix(p) =>
      if p == [] {
        EmptyPrefixSelects(v, g);
      } else {
        PrefixSelects(p, v, g);
      }
    case Range(start, end) => RangeSelects(start, end, v, g);
  }

  // ---------------------------------------------------------------- any key

  /** The character after `c`; in front of the surrogate gap and at the end the largest one. */
  lemma NextCharIs(c: char)
    ensures c == '\U{D7FF}' || c == '\U{10FFFF}' ==> NextChar(c) == '\U{10FFFF}'
    ensures c != '\U{D7FF}' && c != '\U{10FFFF}' ==> NextChar(c) as int == c as int + 1
  {
  }

  lemma {:induction false} FirstNulSplits(k: Bytes)
    ensures FirstNul(k).None? ==> 0 !in k
    ensures FirstNul(k).Some? ==> k[FirstNul(k).value] == 0 && 0 !in k[..FirstNul(k).value]
  {
    if k != [] && k[0] != 0 {
      FirstNulSplits(k[1..]);
      if FirstNul(k).Some? {
        assert k[..FirstNul(k).value] == [k[0]] + k[1..][..FirstNul(k).value - 1];
      } else {
        assert k == [k[0]] + k[1..];
      }
    }
  }

  lemma BytesPrefix(a: Bytes, b: Bytes)
    requires a != [] && b != []
    ensures a <= b <==> a[0] == b[0] && a[1..] <= b[1..]
  {
    assert a == [a[0]] + a[1..] && b == [b[0]] + b[1..];
  }

  lemma {:induction false} ByteSlice(k: Bytes, a: Bytes)
    ensures !Less(k, a + [0]) && Less(k, a + [1]) <==> a + [0] <= k
  {
    if k != [] {
      BytesPrefix(a + [0], k);
      if a == [] {
        assert a + [0] == [0] && a + [1] == [1];
        assert Less(k, [0]) <==> k[0] < 0;
        assert Less(k, [1]) <==> k[0] < 1;
      } else {
        assert (a + [0])[1..] == a[1..] + [0] && (a + [1])[1..] == a[1..] + [1];
        ByteSlice(k[1..], a[1..]);
      }
    }
  }

  lemma MarkedBytes(t: string)
    ensures Utf8.Encode(t + "\0") == Utf8.Encode(t) + [0]
    ensures Utf8.Encode(t + [RANGE_UPPER_BOUND_MARKER]) == Utf8.Encode(t) + [1]
  {
    Utf8.EncodeConcat(t, "\0");
    Utf8.EncodeConcat(t, [RANGE_UPPER_BOUND_MARKER]);
    Utf8.EncodeSingle('\0');
    Utf8.EncodeSingle(RANGE_UPPER_BOUND_MARKER);
  }

  /** What the searches read of any FST, whoever made it: an exact search the keys starting with the term's
      bytes and a NUL, a range search those between its bounds' bytes with 0 and 1 behind. */
  lemma ExactAndRangeOnAnyKey(t: string, start: string, end: string, k: Bytes)
    ensures Selects(SliceOf(Exact(t)), k) <==> Utf8.Encode(t) + [0] <= k
    ensures Selects(SliceOf(Range(start, end)), k)
       <==> !Less(k, Utf8.Encode(start) + [0]) && Less(k, Utf8.Encode(end) + [1])
  {
    MarkedBytes(t);
    MarkedBytes(start);
    MarkedBytes(end);
    ByteSlice(k, Utf8.Encode(t));
  }

  /** And a prefix search those that start with the prefix's bytes before their first NUL and lie between
      the prefix and its successor, each with a NUL behind, or below 1 for the empty prefix. */
  lemma PrefixOnAnyKey(p: string, k: Bytes)
    ensures Selects(SliceOf(Prefix(p)), k)
       <==> && (exists a: Bytes, b: Bytes :: k == a + [0] + b && 0 !in a && Utf8.Encode(p) <= a)
            && !Less(k, Utf8.Encode(p) + [0])
            && Less(k, if p == [] then [1] else Utf8.Encode(p[..|p| - 1] + [NextChar(p[|p| - 1])]) + [0])
  {
    MarkedBytes(p);
    MarkedBytes([]);
    assert [] + [RANGE_UPPER_BOUND_MARKER] == [RANGE_UPPER_BOUND_MARKER];
    if p != [] {
      MarkedBytes(p[..|p| - 1] + [NextChar(p[|p| - 1])]);
    }
    CheckOnAnyKey(p, k);
  }

  lemma CutAtNul(k: Bytes) returns (a: Bytes, b: Bytes)
    requires FirstNul(k).Some?
    ensures k == a + [0] + b && 0 !in a && a == k[..FirstNul(k).value]
  {
    FirstNulSplits(k);
    a, b := k[..FirstNul(k).value], k[FirstNul(k).value + 1..];
  }

  lemma CutPasses(p: string, a: Bytes, b: Bytes)
    requires 0 !in a
    ensures PassesCheck(SliceOf(Prefix(p)), a + [0] + b) <==> Utf8.Encode(p) <= a
  {
    FirstNulAt(a, b);
    assert (a + [0] + b)[..|a|] == a;
  }

  ghost predicate StartsBeforeNul(k: Bytes, front: Bytes) {
    exists a: Bytes, b: Bytes :: k == a + [0] + b && 0 !in a && front <= a
  }

  lemma CheckOnAnyKey(p: string, k: Bytes)
    ensures PassesCheck(SliceOf(Prefix(p)), k) <==> StartsBeforeNul(k, Utf8.Encode(p))
  {
    if PassesCheck(SliceOf(Prefix(p)), k) {
      var a, b := CutAtNul(k);
      assert k == a + [0] + b && 0 !in a && Utf8.Encode(p) <= a;
    }
    if StartsBeforeNul(k, Utf8.Encode(p)) {
      var a: Bytes, b: Bytes :| k == a + [0] + b && 0 !in a && Utf8.Encode(p) <= a;
      CutPasses(p, a, b);
    }
  }
}
