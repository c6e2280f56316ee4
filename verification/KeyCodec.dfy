/** The stored key `value NUL "rg" N` and its parser. */
module KeyCodec {
  import opened ByteOrder
  import opened Decimal
  import opened Outcomes
  import Utf8

  const VALUE_RG_SEPARATOR: char := '\0'
  const RANGE_UPPER_BOUND_MARKER: char := '\U{1}'
  const ROW_GROUP_PREFIX := "rg"
  const MAX_UNICODE_CHAR: char := '\U{10FFFF}'

  /** Text after the value: NUL-free apart from its first character. */
  function Suffix(group: nat): string {
    [VALUE_RG_SEPARATOR] + ROW_GROUP_PREFIX + Print(group)
  }

  function KeyText(value: string, group: nat): string {
    value + Suffix(group)
  }

  function Key(value: string, group: nat): Bytes {
    Utf8.Encode(KeyText(value, group))
  }

  /** `iter().position(|b| b == 0)`. */
  function FirstNul(key: Bytes): (r: Option<nat>)
    ensures r.Some? ==> r.value < |key|
  {
    if key == [] then None
    else if key[0] == 0 then Some(0)
    else
      var rest := FirstNul(key[1..]);
      if rest.None? then None else Some(rest.value + 1)
  }

  /** `iter().rposition(|b| b == 0)`. */
  function LastNul(key: Bytes): (r: Option<nat>)
    ensures r.Some? ==> r.value < |key|
  {
    if key == [] then None
    else if key[|key| - 1] == 0 then Some(|key| - 1)
    else LastNul(key[..|key| - 1])
  }

  lemma {:induction false} FirstNulAt(a: Bytes, b: Bytes)
    requires 0 !in a
    ensures FirstNul(a + [0] + b) == Some(|a|)
  {
    if a != [] {
      assert (a + [0] + b)[1..] == a[1..] + [0] + b;
      FirstNulAt(a[1..], b);
    }
  }

  lemma {:induction false} LastNulAt(a: Bytes, b: Bytes)
    requires 0 !in b
    ensures LastNul(a + [0] + b) == Some(|a|)
  {
    if b != [] {
      var key := a + [0] + b;
      assert key[|key| - 1] == b[|b| - 1];
      assert key[..|key| - 1] == a + [0] + b[..|b| - 1];
      LastNulAt(a, b[..|b| - 1]);
    }
  }

  /** `Err`, `Ok(None)` and `Ok(Some(n))` of the parser. */
  datatype ParsedGroup = Malformed | NoGroup | Group(n: U64)

  const PREFIX_BYTES: Bytes := [0x72, 0x67]

  function ParseRowGroup(key: Bytes): ParsedGroup {
    match LastNul(key)
    case None => NoGroup
    case Some(pos) =>
      var section := key[pos + 1..];
      if PREFIX_BYTES <= section then
        match ParseU64(section[|PREFIX_BYTES|..])
        case Some(n) => Group(n)
        case None => Malformed
      else NoGroup
  }

  lemma EncodedMarker()
    ensures Utf8.Encode([VALUE_RG_SEPARATOR] + ROW_GROUP_PREFIX) == [0] + PREFIX_BYTES
  {
    Utf8.EncodeSingle(VALUE_RG_SEPARATOR);
    Utf8.EncodeSingle('r');
    Utf8.EncodeSingle('g');
    assert ROW_GROUP_PREFIX == ['r'] + ['g'];
    Utf8.EncodeConcat(['r'], ['g']);
    Utf8.EncodeConcat([VALUE_RG_SEPARATOR], ROW_GROUP_PREFIX);
  }

  lemma Regroup(v: Bytes, d: Bytes)
    ensures v + (([0] + PREFIX_BYTES) + d) == v + [0] + (PREFIX_BYTES + d)
  {
  }

  lemma EncodedKey(value: string, group: nat)
    ensures Key(value, group) == Utf8.Encode(value) + [0] + (PREFIX_BYTES + Utf8.Encode(Print(group)))
    ensures 0 !in PREFIX_BYTES + Utf8.Encode(Print(group))
  {
    var marker, digits := [VALUE_RG_SEPARATOR] + ROW_GROUP_PREFIX, Print(group);
    Utf8.NulFree(digits);
    assert Key(value, group) == Utf8.Encode(value) + (Utf8.Encode(marker) + Utf8.Encode(digits)) by {
      Utf8.EncodeConcat(marker, digits);
      Utf8.EncodeConcat(value, marker + digits);
    }
    EncodedMarker();
    Regroup(Utf8.Encode(value), Utf8.Encode(digits));
  }

  /** Parsing a stored key gives its row group, whatever characters the value holds. */
  lemma ParseKey(value: string, group: U64)
    ensures ParseRowGroup(Key(value, group)) == Group(group)
  {
    EncodedKey(value, group);
    var key, v, d := Key(value, group), Utf8.Encode(value), Utf8.Encode(Print(group));
    LastNulAt(v, PREFIX_BYTES + d);
    assert key[|v| + 1..] == PREFIX_BYTES + d;
    assert (PREFIX_BYTES + d)[|PREFIX_BYTES|..] == d;
    ParsePrint(group);
  }

  /** Distinct (value, row group) pairs are stored under distinct keys. */
  lemma KeyInjective(v: string, g: U64, w: string, h: U64)
    requires Key(v, g) == Key(w, h)
    ensures v == w && g == h
  {
    ParseKey(v, g);
    ParseKey(w, h);
    Utf8.EncodeInjective(KeyText(v, g), KeyText(w, h));
    assert v == KeyText(v, g)[..|KeyText(v, g)| - |Suffix(g)|];
    assert w == KeyText(w, h)[..|KeyText(w, h)| - |Suffix(h)|];
  }

  lemma {:induction false} NoNul(key: Bytes)
    requires 0 !in key
    ensures LastNul(key) == None
  {
    if key != [] {
      NoNul(key[..|key| - 1]);
    }
  }

  /** Parsing any bytes at all: what follows the last NUL decides, and nothing is found without a NUL. */
  lemma ParseAnyKey(front: Bytes, section: Bytes)
    requires 0 !in section
    ensures ParseRowGroup(section) == NoGroup
    ensures !([0x72, 0x67] <= section) ==> ParseRowGroup(front + [0] + section) == NoGroup
    ensures [0x72, 0x67] <= section ==>
              var number := ParseU64(section[2..]);
              ParseRowGroup(front + [0] + section) == if number.Some? then Group(number.value) else Malformed
  {
    NoNul(section);
    LastNulAt(front, section);
    assert (front + [0] + section)[|front| + 1..] == section;
  }
}
