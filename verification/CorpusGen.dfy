/** The benchmark generator's part reversal and random-number generator. */
module CorpusGen {

  const DOT: char := '.'

  /** `split('.')`: always at least one part. */
  function Split(s: string): (labels: seq<string>)
    ensures labels != []
    ensures forall l :: l in labels ==> DOT !in l
  {
    if s == [] then [[]]
    else
      var rest := Split(s[1..]);
      if s[0] == DOT then [[]] + rest else [[s[0]] + rest[0]] + rest[1..]
  }

  /** `join(".")`. */
  function Join(labels: seq<string>): string
    requires labels != []
  {
    if |labels| == 1 then labels[0] else labels[0] + [DOT] + Join(labels[1..])
  }

  function Reversed(labels: seq<string>): (r: seq<string>)
    ensures |r| == |labels|
    ensures forall l :: l in r <==> l in labels
  {
    if labels == [] then [] else Reversed(labels[1..]) + [labels[0]]
  }

  function ReverseDomain(domain: string): string {
    Join(Reversed(Split(domain)))
  }

  lemma {:induction false} JoinSplit(s: string)
    ensures Join(Split(s)) == s
  {
    if s != [] {
      JoinSplit(s[1..]);
      var rest := Split(s[1..]);
      if s[0] == DOT {
        assert ([[]] + rest)[1..] == rest;
      } else {
        assert Join([[s[0]] + rest[0]] + rest[1..]) == [s[0]] + Join(rest);
      }
    }
  }

  lemma {:induction false} SplitLabel(part: string, s: string)
    requires DOT !in part
    ensures Split(part + [DOT] + s) == [part] + Split(s)
    ensures Split(part) == [part]
  {
    if part == [] {
      assert part + [DOT] + s == [DOT] + s;
    } else {
      SplitLabel(part[1..], s);
      assert (part + [DOT] + s)[1..] == part[1..] + [DOT] + s;
      assert part == [part[0]] + part[1..];
    }
  }

  lemma {:induction false} SplitJoin(labels: seq<string>)
    requires labels != [] && forall l :: l in labels ==> DOT !in l
    ensures Split(Join(labels)) == labels
  {
    if |labels| == 1 {
      SplitLabel(labels[0], []);
    } else {
      SplitJoin(labels[1..]);
      SplitLabel(labels[0], Join(labels[1..]));
      assert labels == [labels[0]] + labels[1..];
    }
  }

  lemma {:induction false} ReversedConcat(a: seq<string>, b: seq<string>)
    ensures Reversed(a + b) == Reversed(b) + Reversed(a)
  {
    if a == [] {
      assert a + b == b;
    } else {
      ReversedConcat(a[1..], b);
      assert (a + b)[1..] == a[1..] + b;
    }
  }

  lemma {:induction false} ReversedTwice(labels: seq<string>)
    ensures Reversed(Reversed(labels)) == labels
  {
    if labels != [] {
      ReversedTwice(labels[1..]);
      ReversedConcat(Reversed(labels[1..]), [labels[0]]);
      assert Reversed([labels[0]]) == [labels[0]];
    }
  }

  /** Reversing the labels twice gives the domain back, for every string. */
  lemma ReverseDomainInvolution(domain: string)
    ensures ReverseDomain(ReverseDomain(domain)) == domain
  {
    var labels := Split(domain);
    SplitJoin(Reversed(labels));
    ReversedTwice(labels);
    JoinSplit(domain);
  }

  lemma {:induction false} JoinConcat(a: seq<string>, b: seq<string>)
    requires a != [] && b != []
    ensures Join(a + b) == Join(a) + [DOT] + Join(b)
  {
    if |a| == 1 {
      assert (a + b)[1..] == b;
    } else {
      assert (a + b)[1..] == a[1..] + b;
      JoinConcat(a[1..], b);
      assert a[0] + [DOT] + (Join(a[1..]) + [DOT] + Join(b)) == a[0] + [DOT] + Join(a[1..]) + [DOT] + Join(b);
    }
  }

  /** Labels are kept whole and their order is reversed: with these two rules the reversal of every string
      is fixed. */
  lemma ReverseOfParts(head: string, tail: string)
    ensures '.' !in head ==> ReverseDomain(head) == head
    ensures ReverseDomain(head + "." + tail) == ReverseDomain(tail) + "." + ReverseDomain(head)
  {
    if '.' !in head {
      SplitLabel(head, []);
      assert Reversed([head]) == [head];
    }
    var a, b := Split(head), Split(tail);
    JoinSplit(head);
    JoinSplit(tail);
    JoinConcat(a, b);
    SplitJoin(a + b);
    ReversedConcat(a, b);
    JoinConcat(Reversed(b), Reversed(a));
  }

  /** A domain ends with `.s` exactly when its reversal begins with the reversal of `s` and a dot: so
      hunting for a suffix of domains is prefix search on the reversed values. */
  lemma SuffixIsReversedPrefix(d: string, s: string)
    ensures (exists head: string :: d == head + "." + s) <==> ReverseDomain(s) + "." <= ReverseDomain(d)
  {
    if head: string :| d == head + [DOT] + s {
      ReverseOfParts(head, s);
    }
    if ReverseDomain(s) + [DOT] <= ReverseDomain(d) {
      var front := ReverseDomain(s);
      var rest := ReverseDomain(d)[|front| + 1..];
      assert ReverseDomain(d) == front + [DOT] + rest;
      ReverseOfParts(front, rest);
      ReverseDomainInvolution(d);
      ReverseDomainInvolution(s);
      assert d == ReverseDomain(rest) + [DOT] + s;
    }
  }

  // ---------------------------------------------------------------- xorshift64

  /** A `u64` as its bits, least significant first. */
  type Word = w: seq<bool> | |w| == 64 witness seq(64, _ => false)
  function Zero(): Word { seq(64, _ => false) }
  function One(): Word { seq(64, i => i == 0) }

  predicate Bit(x: Word, i: int) { 0 <= i < 64 && x[i] }

  /** `x ^ (x << k)` and `x ^ (x >> k)`. */
  function XorShiftLeft(x: Word, k: nat): Word { seq(64, i => Bit(x, i) != Bit(x, i - k)) }
  function XorShiftRight(x: Word, k: nat): Word { seq(64, i => Bit(x, i) != Bit(x, i + k)) }

  function Step(x: Word): Word {
    XorShiftLeft(XorShiftRight(XorShiftLeft(x, 13), 7), 17)
  }

  lemma {:induction false} LeftBit(x: Word, y: Word, k: nat, i: nat)
    requires k > 0 && i < 64 && XorShiftLeft(x, k) == XorShiftLeft(y, k)
    ensures x[i] == y[i]
    decreases i
  {
    assert XorShiftLeft(x, k)[i] == XorShiftLeft(y, k)[i];
    if i >= k {
      LeftBit(x, y, k, i - k);
    }
  }

  lemma {:induction false} RightBit(x: Word, y: Word, k: nat, i: nat)
    requires k > 0 && i < 64 && XorShiftRight(x, k) == XorShiftRight(y, k)
    ensures x[i] == y[i]
    decreases 64 - i
  {
    assert XorShiftRight(x, k)[i] == XorShiftRight(y, k)[i];
    if i + k < 64 {
      RightBit(x, y, k, i + k);
    }
  }

  lemma LeftInjective(x: Word, y: Word, k: nat)
    requires k > 0 && XorShiftLeft(x, k) == XorShiftLeft(y, k)
    ensures x == y
  {
    forall i: nat | i < 64 ensures x[i] == y[i] {
      LeftBit(x, y, k, i);
    }
  }

  lemma RightInjective(x: Word, y: Word, k: nat)
    requires k > 0 && XorShiftRight(x, k) == XorShiftRight(y, k)
    ensures x == y
  {
    forall i: nat | i < 64 ensures x[i] == y[i] {
      RightBit(x, y, k, i);
    }
  }

  /** Each step is injective: different states stay different. */
  lemma StepInjective(x: Word, y: Word)
    requires Step(x) == Step(y)
    ensures x == y
  {
    LeftInjective(XorShiftRight(XorShiftLeft(x, 13), 7), XorShiftRight(XorShiftLeft(y, 13), 7), 17);
    RightInjective(XorShiftLeft(x, 13), XorShiftLeft(y, 13), 7);
    LeftInjective(x, y, 13);
  }

  /** `seed.max(1)`. */
  function Start(seed: Word): Word { if seed == Zero() then One() else seed }

  class Rng {
    var state: Word

    constructor (seed: Word)
      ensures state == Start(seed)
      ensures (exists i :: 0 <= i < 64 && seed[i]) ==> state == seed
      ensures (forall i :: 0 <= i < 64 ==> !seed[i]) ==> forall i :: 0 <= i < 64 ==> (state[i] <==> i == 0)
    {
      state := if seed == Zero() then One() else seed;
    }

    method NextU64() returns (x: Word)
      modifies this
      ensures x == state == Step(old(state))
    {
      x := state;
      x := XorShiftLeft(x, 13);
      x := XorShiftRight(x, 7);
      x := XorShiftLeft(x, 17);
      state := x;
    }
  }

  lemma LeftShifted(x: Word, k: nat, i: nat)
    requires i < 64
    ensures XorShiftLeft(x, k)[i] == (x[i] != (i >= k && x[i - k]))
  {
    assert XorShiftLeft(x, k)[i] == (Bit(x, i) != Bit(x, i - k));
  }

  lemma RightShifted(x: Word, k: nat, i: nat)
    requires i < 64
    ensures XorShiftRight(x, k)[i] == (x[i] != (i + k < 64 && x[i + k]))
  {
    assert XorShiftRight(x, k)[i] == (Bit(x, i) != Bit(x, i + k));
  }

  /** The three stages bit by bit: left by 13, right by 7, left by 17. */
  lemma StepBits(x: Word) returns (y: Word, z: Word)
    ensures forall i :: 0 <= i < 64 ==> y[i] == (x[i] != (i >= 13 && x[i - 13]))
    ensures forall i :: 0 <= i < 64 ==> z[i] == (y[i] != (i + 7 < 64 && y[i + 7]))
    ensures forall i :: 0 <= i < 64 ==> Step(x)[i] == (z[i] != (i >= 17 && z[i - 17]))
  {
    y := XorShiftLeft(x, 13);
    z := XorShiftRight(y, 7);
    forall i | 0 <= i < 64
      ensures y[i] == (x[i] != (i >= 13 && x[i - 13])) && z[i] == (y[i] != (i + 7 < 64 && y[i + 7]))
      ensures Step(x)[i] == (z[i] != (i >= 17 && z[i - 17]))
    {
      LeftShifted(x, 13, i);
      RightShifted(y, 7, i);
      LeftShifted(z, 17, i);
    }
  }

  /** The first number from seed 1 is 0x40822041, the bits 30, 23, 17, 13, 6 and 0. */
  lemma FirstFromOne(i: nat)
    requires i < 64
    ensures Step(One())[i] <==> i == 30 || i == 23 || i == 17 || i == 13 || i == 6 || i == 0
  {
    var y := XorShiftLeft(One(), 13);
    var z := XorShiftRight(y, 7);
    forall j: nat | j < 64 ensures y[j] == (j == 13 || j == 0) {
      LeftShifted(One(), 13, j);
    }
    forall j: nat | j < 64 ensures z[j] == (j == 13 || j == 6 || j == 0) {
      RightShifted(y, 7, j);
    }
    LeftShifted(z, 17, i);
  }

  function StateAfter(seed: Word, n: nat): Word {
    if n == 0 then Start(seed) else Step(StateAfter(seed, n - 1))
  }

  lemma ZeroIsFixed()
    ensures Step(Zero()) == Zero()
  {
    assert XorShiftLeft(Zero(), 13) == Zero();
    assert XorShiftRight(Zero(), 7) == Zero();
    assert XorShiftLeft(Zero(), 17) == Zero();
  }

  lemma StepKeepsNonZero(x: Word)
    requires x != Zero()
    ensures Step(x) != Zero()
  {
    ZeroIsFixed();
    if Step(x) == Step(Zero()) {
      StepInjective(x, Zero());
    }
  }

  lemma OneIsNotZero()
    ensures One() != Zero()
  {
    assert One()[0] && !Zero()[0];
  }

  /** From any seed no state is ever zero, where the generator would be stuck. */
  lemma {:induction false} NeverZero(seed: Word, n: nat)
    ensures StateAfter(seed, n) != Zero()
  {
    if n == 0 {
      OneIsNotZero();
    } else {
      NeverZero(seed, n - 1);
      StepKeepsNonZero(StateAfter(seed, n - 1));
    }
  }
}
