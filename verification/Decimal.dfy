/** Unsigned 64-bit decimal text: what `write!("{}")` prints and what `str::parse` accepts, for
    both `u64` and (on a 64-bit target) `usize`. */
module Decimal {
  import opened ByteOrder
  import opened Outcomes
  import Utf8

  const U64_LIMIT := 0x1_0000_0000_0000_0000

  type U64 = n: int | 0 <= n < U64_LIMIT

  const ZERO: char := '0'
  const PLUS := 0x2B

  predicate IsDigit(c: char) { '0' <= c <= '9' }

  function Print(n: nat): (s: string)
    ensures s != [] && forall c :: c in s ==> IsDigit(c)
  {
    var last := [(ZERO as int + n % 10) as char];
    if n < 10 then last else Print(n / 10) + last
  }

  /** Number written by a string of ASCII digits; `None` when some byte is not a digit. */
  function DigitsValue(b: Bytes): Option<nat> {
    if b == [] then Some(0) else
      var d := b[|b| - 1] as int - 0x30;
      var front := DigitsValue(b[..|b| - 1]);
      if front.Some? && 0 <= d < 10 then Some(10 * front.value + d) else None
  }

  /** `parse::<u64>()`: one leading `+` is dropped when something follows it; the empty string, any
      other non-digit and a value of 2^64 or more are refused. */
  function ParseU64(b: Bytes): Option<U64> {
    if b == [] then None else
      var digits := if b[0] == PLUS && |b| > 1 then b[1..] else b;
      var v := DigitsValue(digits);
      if v.Some? && v.value < U64_LIMIT then Some(v.value) else None
  }

  lemma DigitByte(c: char)
    requires IsDigit(c)
    ensures Utf8.Encode([c]) == [c as int]
  {
    Utf8.EncodeSingle(c);
  }

  lemma LastDigit(b: Bytes, m: nat, d: nat)
    requires b != [] && DigitsValue(b[..|b| - 1]) == Some(m) && b[|b| - 1] == 0x30 + d && d < 10
    ensures DigitsValue(b) == Some(10 * m + d)
  {
    var front, last := b[..|b| - 1], b[|b| - 1] as int - 0x30;
    assert last == d && DigitsValue(front) == Some(m);
    assert DigitsValue(b) == Some(10 * m + last);
  }

  lemma AppendDigit(front: Bytes, m: nat, d: nat)
    requires DigitsValue(front) == Some(m) && d < 10
    ensures DigitsValue(front + [0x30 + d]) == Some(10 * m + d)
    ensures front != [] ==> (front + [0x30 + d])[0] == front[0]
  {
    var b := front + [0x30 + d];
    assert b[..|b| - 1] == front && b[|b| - 1] == 0x30 + d;
    LastDigit(b, m, d);
  }

  lemma PrintedDigit(n: nat)
    requires n < 10
    ensures Utf8.Encode(Print(n)) == [0x30 + n] && DigitsValue([0x30 + n]) == Some(n)
  {
    DigitByte((ZERO as int + n) as char);
    AppendDigit([], 0, n);
    assert [] + [0x30 + n] == [0x30 + n];
  }

  lemma PrintedStep(n: nat)
    requires n >= 10
    ensures Utf8.Encode(Print(n)) == Utf8.Encode(Print(n / 10)) + [0x30 + n % 10]
  {
    var c := (ZERO as int + n % 10) as char;
    DigitByte(c);
    Utf8.EncodeConcat(Print(n / 10), [c]);
  }

  lemma {:induction false} PrintedValue(n: nat)
    ensures DigitsValue(Utf8.Encode(Print(n))) == Some(n)
    ensures Utf8.Encode(Print(n))[0] != PLUS
  {
    if n < 10 {
      PrintedDigit(n);
    } else {
      PrintedStep(n);
      PrintedValue(n / 10);
      AppendDigit(Utf8.Encode(Print(n / 10)), n / 10, n % 10);
    }
  }

  /** Printing then parsing a 64-bit number gives it back. */
  lemma ParsePrint(n: U64)
    ensures ParseU64(Utf8.Encode(Print(n))) == Some(n)
  {
    PrintedValue(n);
  }

  // ---------------------------------------------------------------- what is printed and what is accepted

  function Digit(d: nat): char
    requires d < 10
  {
    ('0' as int + d) as char
  }

  /** Numbers are written in base ten, most significant digit first, without leading zeros. */
  lemma PrintDigits(n: nat, d: nat)
    requires d < 10
    ensures Print(if n == 0 then d else 10 * n + d) == (if n == 0 then [] else Print(n)) + [Digit(d)]
  {
    assert (10 * n + d) / 10 == n && (10 * n + d) % 10 == d;
  }

  function Zeros(k: nat): Bytes {
    seq(k, _ => 0x30)
  }

  /** A decimal number with a sign or not and any number of leading zeros. */
  function NumberText(plus: bool, zeros: nat, n: nat): Bytes {
    (if plus then [0x2B] else []) + (Zeros(zeros) + Utf8.Encode(Print(n)))
  }

  lemma {:induction false} ZerosInFront(k: nat, b: Bytes)
    ensures DigitsValue(Zeros(k) + b) == DigitsValue(b)
    decreases k + |b|
  {
    var all := Zeros(k) + b;
    if b != [] {
      var n := |b| - 1;
      assert all[..|all| - 1] == Zeros(k) + b[..n] && all[|all| - 1] == b[n];
      ZerosInFront(k, b[..n]);
    } else if k > 0 {
      assert all[..|all| - 1] == Zeros(k - 1) + [] && all[|all| - 1] == 0x30;
      ZerosInFront(k - 1, []);
    } else {
      assert all == b;
    }
  }

  lemma NextDigit(u: nat, d: nat)
    requires u > 0 && d < 10
    ensures Utf8.Encode(Print(10 * u + d)) == Utf8.Encode(Print(u)) + [0x30 + d]
  {
    assert (10 * u + d) / 10 == u && (10 * u + d) % 10 == d;
    PrintedStep(10 * u + d);
  }

  lemma OneMoreZero(k: nat, d: nat)
    requires d < 10
    ensures Zeros(k) + Utf8.Encode(Print(0)) == Zeros(k + 1) && Utf8.Encode(Print(d)) == [0x30 + d]
  {
    PrintedDigit(0);
    PrintedDigit(d);
    assert Zeros(k) + [0x30] == Zeros(k + 1);
  }

  lemma AppendToText(k: nat, u: nat, d: nat) returns (zeros: nat)
    requires d < 10
    ensures Zeros(k) + Utf8.Encode(Print(u)) + [0x30 + d] == Zeros(zeros) + Utf8.Encode(Print(10 * u + d))
  {
    if u == 0 {
      zeros := k + 1;
      OneMoreZero(k, d);
    } else {
      zeros := k;
      NextDigit(u, d);
    }
  }

  lemma TakeLastDigit(b: Bytes) returns (d: nat)
    requires b != [] && DigitsValue(b).Some?
    ensures d < 10 && b == b[..|b| - 1] + [0x30 + d]
    ensures DigitsValue(b[..|b| - 1]).Some? && DigitsValue(b).value == 10 * DigitsValue(b[..|b| - 1]).value + d
  {
    d := b[|b| - 1] as int - 0x30;
  }

  lemma {:induction false} DigitsWritten(b: Bytes) returns (zeros: nat)
    requires b != [] && DigitsValue(b).Some?
    ensures b == Zeros(zeros) + Utf8.Encode(Print(DigitsValue(b).value))
  {
    var front := b[..|b| - 1];
    var d := TakeLastDigit(b);
    if front == [] {
      zeros := 0;
      PrintedDigit(d);
    } else {
      var k := DigitsWritten(front);
      zeros := AppendToText(k, DigitsValue(front).value, d);
    }
  }

  lemma FirstIsDigit(b: Bytes)
    requires b != [] && DigitsValue(b).Some?
    ensures 0x30 <= b[0] < 0x3A
  {
    var zeros := DigitsWritten(b);
    var n := DigitsValue(b).value;
    if zeros == 0 {
      PrintedFirst(n);
      assert b == Utf8.Encode(Print(n));
    }
  }

  lemma {:induction false} PrintedFirst(n: nat)
    ensures var e := Utf8.Encode(Print(n)); e != [] && 0x30 <= e[0] < 0x3A
  {
    if n < 10 {
      PrintedDigit(n);
    } else {
      PrintedStep(n);
      PrintedFirst(n / 10);
    }
  }

  lemma WrittenParses(plus: bool, zeros: nat, n: U64)
    ensures ParseU64(NumberText(plus, zeros, n)) == Some(n)
  {
    var digits := Zeros(zeros) + Utf8.Encode(Print(n));
    PrintedValue(n);
    PrintedFirst(n);
    ZerosInFront(zeros, Utf8.Encode(Print(n)));
    FirstIsDigit(digits);
    if plus {
      assert NumberText(plus, zeros, n) == [0x2B] + digits;
      assert ([0x2B] + digits)[1..] == digits;
    } else {
      assert NumberText(plus, zeros, n) == digits;
    }
  }

  lemma ParsedIsText(b: Bytes) returns (plus: bool, zeros: nat)
    requires ParseU64(b).Some?
    ensures b == NumberText(plus, zeros, ParseU64(b).value)
  {
    plus := b[0] == 0x2B && |b| > 1;
    if plus {
      zeros := DigitsWritten(b[1..]);
      assert b == [0x2B] + b[1..];
    } else {
      zeros := DigitsWritten(b);
      assert b == [] + b;
    }
  }

  /** The parser accepts exactly the decimal numbers below 2^64, with at most one `+` in front and any
      leading zeros, and gives their values. */
  lemma ParseIff(b: Bytes, n: U64)
    ensures ParseU64(b) == Some(n) <==> exists plus, zeros :: b == NumberText(plus, zeros, n)
  {
    if ParseU64(b) == Some(n) {
      var plus, zeros := ParsedIsText(b);
    }
    if plus, zeros :| b == NumberText(plus, zeros, n) {
      WrittenParses(plus, zeros, n);
    }
  }
}
