/** `Indexer::index_file`: the triple loop that turns one column of one file into an FST. */
module IndexBuilder {
  import opened ByteOrder
  import opened Corpus
  import opened Decimal
  import opened FstSet
  import opened KeyCodec
  import opened Outcomes
  import Sorting
  import Utf8
  import Utf8Decoder

  function RowKeys(rows: seq<Row>, column: string, g: nat): set<string> {
    if rows == [] then {} else
      var cell := CellAt(rows[|rows| - 1], column);
      RowKeys(rows[..|rows| - 1], column, g) + if cell.Text? then {KeyText(cell.text, g)} else {}
  }

  function BatchKeys(group: RowGroup, column: string, g: nat): set<string> {
    if group == [] then {} else
      BatchKeys(group[..|group| - 1], column, g) + RowKeys(group[|group| - 1], column, g)
  }

  function GroupKeys(groups: seq<RowGroup>, column: string): set<string> {
    if groups == [] then {} else
      var g := |groups| - 1;
      GroupKeys(groups[..g], column) + BatchKeys(groups[g], column, g)
  }

  /** Every key text the file's column gives rise to. */
  function KeyTexts(file: DataFile, column: string): set<string> {
    if column in file.utf8Columns then GroupKeys(file.rowGroups, column) else {}
  }

  ghost function Encoded(texts: set<string>): set<Bytes> {
    set t | t in texts :: Utf8.Encode(t)
  }

  ghost function StoredKeys(file: DataFile, column: string): set<Bytes> {
    Encoded(KeyTexts(file, column))
  }

  /** The FST the builder is meant to write. */
  ghost function FstOf(file: DataFile, column: string): Fst {
    LessIsTotalOrder();
    Sorting.Sorted(StoredKeys(file, column), Less)
  }

  lemma {:induction false} RowKeysMember(rows: seq<Row>, column: string, g: nat, t: string)
    ensures t in RowKeys(rows, column, g)
       <==> exists row :: row in rows && CellAt(row, column).Text? && t == KeyText(CellAt(row, column).text, g)
  {
    if rows != [] {
      var n := |rows| - 1;
      RowKeysMember(rows[..n], column, g, t);
      assert forall row :: row in rows <==> row in rows[..n] || row == rows[n];
    }
  }

  lemma {:induction false} BatchKeysMember(group: RowGroup, column: string, g: nat, t: string)
    ensures t in BatchKeys(group, column, g)
       <==> exists row :: row in GroupRows(group) && CellAt(row, column).Text?
                          && t == KeyText(CellAt(row, column).text, g)
  {
    if group != [] {
      var n := |group| - 1;
      BatchKeysMember(group[..n], column, g, t);
      RowKeysMember(group[n], column, g, t);
      assert forall row :: row in GroupRows(group) <==> row in GroupRows(group[..n]) || row in group[n];
    }
  }

  lemma {:induction false} GroupKeysMember(groups: seq<RowGroup>, column: string, t: string)
    ensures t in GroupKeys(groups, column)
       <==> exists g, row :: 0 <= g < |groups| && row in GroupRows(groups[g]) && CellAt(row, column).Text?
                             && t == KeyText(CellAt(row, column).text, g)
  {
    if groups != [] {
      var n := |groups| - 1;
      GroupKeysMember(groups[..n], column, t);
      BatchKeysMember(groups[n], column, n, t);
      assert forall g :: 0 <= g < n ==> groups[..n][g] == groups[g];
    }
  }

  /** The stored keys are exactly the encodings of the non-null values, one per (value, row group). */
  lemma StoredKeysAreTheValues(file: DataFile, column: string, k: Bytes)
    ensures k in FstOf(file, column) <==> k in StoredKeys(file, column)
    ensures k in StoredKeys(file, column) <==> exists g: nat, v :: Holds(file, column, g, v) && k == Key(v, g)
  {
    if k in StoredKeys(file, column) {
      var t :| t in KeyTexts(file, column) && k == Utf8.Encode(t);
      GroupKeysMember(file.rowGroups, column, t);
      var g, row :| 0 <= g < |file.rowGroups| && row in GroupRows(file.rowGroups[g]) && CellAt(row, column).Text?
                    && t == KeyText(CellAt(row, column).text, g);
      assert Holds(file, column, g, CellAt(row, column).text);
    }
    if g: nat, v :| Holds(file, column, g, v) && k == Key(v, g) {
      var row :| row in GroupRows(file.rowGroups[g]) && CellAt(row, column) == Text(v);
      GroupKeysMember(file.rowGroups, column, KeyText(v, g));
      assert KeyText(v, g) in KeyTexts(file, column);
    }
  }

  /** The value and row group behind a stored key. */
  lemma StoredKeyOrigin(file: DataFile, column: string, k: Bytes) returns (g: nat, v: string)
    requires k in FstOf(file, column)
    ensures Holds(file, column, g, v) && k == Key(v, g)
  {
    StoredKeysAreTheValues(file, column, k);
    g, v :| Holds(file, column, g, v) && k == Key(v, g);
  }

  lemma KeyTextLiteral(v: string, g: nat)
    ensures KeyText(v, g) == v + "\0rg" + Print(g)
  {
  }

  /** The bytes in the FST are the UTF-8 of the value, a NUL, `rg` and the row-group number in decimal. */
  lemma StoredBytes(file: DataFile, column: string, k: Bytes)
    ensures k in FstOf(file, column)
       <==> exists g: nat, v :: Holds(file, column, g, v) && Utf8Decoder.Decode(k) == Some(v + "\0rg" + Print(g))
  {
    StoredKeysAreTheValues(file, column, k);
    forall g: nat, v ensures k == Key(v, g) <==> Utf8Decoder.Decode(k) == Some(v + "\0rg" + Print(g)) {
      KeyTextLiteral(v, g);
      Utf8Decoder.DecodeIff(k, v + "\0rg" + Print(g));
    }
  }

  lemma HeldIsStored(file: DataFile, column: string, g: nat, v: string)
    requires Holds(file, column, g, v)
    ensures Key(v, g) in FstOf(file, column)
  {
    StoredKeysAreTheValues(file, column, Key(v, g));
  }

  /** The column holds the same values in the same row groups of both files. */
  ghost predicate SameValues(a: DataFile, b: DataFile, column: string) {
    forall g: nat, v :: Holds(a, column, g, v) <==> Holds(b, column, g, v)
  }

  lemma HeldInBoth(a: DataFile, b: DataFile, column: string, g: nat, v: string)
    requires FstOf(a, column) == FstOf(b, column) && Holds(a, column, g, v)
    ensures Holds(b, column, g, v)
  {
    HeldIsStored(a, column, g, v);
    var g', v' := StoredKeyOrigin(b, column, Key(v, g));
    KeyInjective(v, g, v', g');
  }

  lemma StoredInBoth(a: DataFile, b: DataFile, column: string, k: Bytes)
    requires SameValues(a, b, column)
    ensures k in StoredKeys(a, column) <==> k in StoredKeys(b, column)
  {
    StoredKeysAreTheValues(a, column, k);
    StoredKeysAreTheValues(b, column, k);
    if g: nat, v :| Holds(a, column, g, v) && k == Key(v, g) {
      assert Holds(b, column, g, v);
    }
    if g: nat, v :| Holds(b, column, g, v) && k == Key(v, g) {
      assert Holds(a, column, g, v);
    }
  }

  /** Two files have the same FST for a column exactly when it holds the same values group by group. */
  lemma SameFstIff(a: DataFile, b: DataFile, column: string)
    ensures FstOf(a, column) == FstOf(b, column) <==> SameValues(a, b, column)
  {
    if FstOf(a, column) == FstOf(b, column) {
      forall g: nat, v ensures Holds(a, column, g, v) <==> Holds(b, column, g, v) {
        if Holds(a, column, g, v) {
          HeldInBoth(a, b, column, g, v);
        }
        if Holds(b, column, g, v) {
          HeldInBoth(b, a, column, g, v);
        }
      }
    }
    if SameValues(a, b, column) {
      forall k ensures k in StoredKeys(a, column) <==> k in StoredKeys(b, column) {
        StoredInBoth(a, b, column, k);
      }
      assert StoredKeys(a, column) == StoredKeys(b, column);
    }
  }

  ghost predicate HoldsPair(file: DataFile, column: string, pair: (nat, string)) {
    Holds(file, column, pair.0, pair.1)
  }

  function PairKey(pair: (nat, string)): Bytes { Key(pair.1, pair.0) }

  lemma {:induction false} ImageSize(pairs: set<(nat, string)>)
    requires forall p :: p in pairs ==> p.0 < U64_LIMIT
    ensures |set p | p in pairs :: PairKey(p)| == |pairs|
    decreases pairs
  {
    if pairs != {} {
      var p :| p in pairs;
      var rest := pairs - {p};
      ImageSize(rest);
      forall q | q in rest ensures PairKey(q) != PairKey(p) {
        if PairKey(q) == PairKey(p) {
          KeyInjective(q.1, q.0, p.1, p.0);
        }
      }
      assert (set q | q in pairs :: PairKey(q)) == (set q | q in rest :: PairKey(q)) + {PairKey(p)};
    }
  }

  lemma StoredKeyIsPairKey(file: DataFile, column: string, pairs: set<(nat, string)>, k: Bytes)
    requires forall p :: p in pairs <==> HoldsPair(file, column, p)
    ensures k in StoredKeys(file, column) <==> k in set p | p in pairs :: PairKey(p)
  {
    StoredKeysAreTheValues(file, column, k);
    if k in StoredKeys(file, column) {
      var g: nat, v :| Holds(file, column, g, v) && k == Key(v, g);
      var p := (g, v);
      assert HoldsPair(file, column, p);
      assert p in pairs && PairKey(p) == k;
    }
    if k in set p | p in pairs :: PairKey(p) {
      var p :| p in pairs && PairKey(p) == k;
      assert HoldsPair(file, column, p);
    }
  }

  /** The FST has one key per distinct (row group, value) pair: nothing is merged or repeated. */
  lemma FstSize(file: DataFile, column: string, pairs: set<(nat, string)>)
    requires forall p :: p in pairs <==> HoldsPair(file, column, p)
    ensures |FstOf(file, column)| == |pairs|
  {
    var image := set p | p in pairs :: PairKey(p);
    assert StoredKeys(file, column) == image by {
      forall k ensures k in StoredKeys(file, column) <==> k in image {
        StoredKeyIsPairKey(file, column, pairs, k);
      }
    }
    assert forall p :: p in pairs ==> p.0 < U64_LIMIT by {
      assert forall p :: p in pairs ==> HoldsPair(file, column, p);
    }
    ImageSize(pairs);
  }

  /** An FST is empty exactly when no row group holds a string in the column; a column the file does
      not have, or does not store as strings, gives an empty one. */
  lemma EmptyFst(file: DataFile, column: string)
    ensures FstOf(file, column) == [] <==> forall g: nat, v :: !Holds(file, column, g, v)
    ensures column !in file.utf8Columns ==> FstOf(file, column) == []
  {
    var fst := FstOf(file, column);
    if fst == [] {
      forall g: nat, v ensures !Holds(file, column, g, v) {
        StoredKeysAreTheValues(file, column, Key(v, g));
      }
    } else {
      StoredKeysAreTheValues(file, column, fst[0]);
    }
  }

  /** Fill the ordered key set over row groups, batches and values. */
  method GatherKeys(file: DataFile, column: string) returns (keys: set<string>)
    ensures keys == KeyTexts(file, column)
  {
    keys := {};
    for g := 0 to |file.rowGroups|
      invariant keys == if column in file.utf8Columns then GroupKeys(file.rowGroups[..g], column) else {}
    {
      var group := file.rowGroups[g];
      ghost var before := keys;
      for b := 0 to |group|
        invariant keys == before + if column in file.utf8Columns then BatchKeys(group[..b], column, g) else {}
      {
        if column in file.utf8Columns {
          var batch := group[b];
          ghost var beforeBatch := keys;
          for i := 0 to |batch|
            invariant keys == beforeBatch + RowKeys(batch[..i], column, g)
          {
            var cell := CellAt(batch[i], column);
            assert batch[..i + 1][..i] == batch[..i];
            if cell.Text? {
              var keyBuffer := cell.text;
              keyBuffer := keyBuffer + [VALUE_RG_SEPARATOR];
              keyBuffer := keyBuffer + ROW_GROUP_PREFIX;
              keyBuffer := keyBuffer + Print(g);
              assert keyBuffer == KeyText(cell.text, g);
              keys := keys + {keyBuffer};
            }
          }
          assert batch[..|batch|] == batch;
          assert group[..b + 1][..b] == group[..b];
        }
      }
      assert group[..|group|] == group;
      assert file.rowGroups[..g + 1][..g] == file.rowGroups[..g];
    }
    assert file.rowGroups[..|file.rowGroups|] == file.rowGroups;
  }

  /** The order of a `BTreeSet<String>`: Rust compares strings by their UTF-8 bytes. */
  predicate TextLess(a: string, b: string) {
    Less(Utf8.Encode(a), Utf8.Encode(b))
  }

  lemma TextLessIsTotalOrder()
    ensures Sorting.TotalOrder(TextLess)
  {
    forall a: string ensures !TextLess(a, a) {
      Irreflexive(Utf8.Encode(a));
    }
    forall a: string, b: string, c: string | TextLess(a, b) && TextLess(b, c) ensures TextLess(a, c) {
      Transitive(Utf8.Encode(a), Utf8.Encode(b), Utf8.Encode(c));
    }
    forall a: string, b: string ensures a == b || TextLess(a, b) || TextLess(b, a) {
      Total(Utf8.Encode(a), Utf8.Encode(b));
      if Utf8.Encode(a) == Utf8.Encode(b) {
        Utf8.EncodeInjective(a, b);
      }
    }
  }

  /** The next string an ordered set yields. */
  method FirstOf(left: set<string>) returns (first: string)
    requires left != {}
    ensures Sorting.IsLeast(first, left, TextLess)
  {
    assert exists t :: Sorting.IsLeast(t, left, TextLess) by {
      TextLessIsTotalOrder();
      var t := Sorting.LeastExists(left, TextLess);
    }
    first :| first in left && forall t :: t in left ==> t == first || TextLess(first, t);
  }

  lemma EncodedStep(done: set<string>, key: string)
    ensures Encoded(done + {key}) == Encoded(done) + {Utf8.Encode(key)}
  {
  }

  lemma FinishedFst(fst: Fst, file: DataFile, column: string)
    requires forall k :: k in fst <==> k in StoredKeys(file, column)
    ensures fst == FstOf(file, column)
  {
    LessIsTotalOrder();
    Sorting.SortedIs(fst, StoredKeys(file, column), Less);
  }

  /** Every key handed to the builder so far is below every key still waiting. */
  ghost predicate Below(keys: seq<Bytes>, left: set<string>) {
    forall k, t :: k in keys && t in left ==> Less(k, Utf8.Encode(t))
  }

  lemma StillBelow(keys: seq<Bytes>, left: set<string>, key: string)
    requires Below(keys, left) && Sorting.IsLeast(key, left, TextLess)
    ensures Below(keys + [Utf8.Encode(key)], left - {key})
  {
    var all := keys + [Utf8.Encode(key)];
    forall k, t | k in all && t in left - {key} ensures Less(k, Utf8.Encode(t)) {
      assert k in keys || k == Utf8.Encode(key);
      assert TextLess(key, t);
    }
  }

  /** Hand the next key in order to the set builder, which accepts it. */
  method FeedNext(builder: SetBuilder, left: set<string>) returns (key: string, accepted: bool)
    requires left != {} && Below(builder.keys, left)
    modifies builder
    ensures accepted && key in left
    ensures builder.keys == old(builder.keys) + [Utf8.Encode(key)]
    ensures Below(builder.keys, left - {key})
  {
    key := FirstOf(left);
    StillBelow(builder.keys, left, key);
    assert builder.keys != [] ==> builder.keys[|builder.keys| - 1] in builder.keys;
    accepted := builder.Insert(Utf8.Encode(key));
  }

  /** Whatever order the values arrived in, the set builder is fed in ascending byte order and refuses
      nothing, and the FST it finishes is the sorted key set. */
  method BuildFst(file: DataFile, column: string) returns (r: Result<Fst>)
    ensures r == Ok(FstOf(file, column))
  {
    var keys := GatherKeys(file, column);
    var builder := new SetBuilder();
    var left := keys;
    while left != {}
      invariant left <= keys && Below(builder.keys, left)
      invariant forall k :: k in builder.keys <==> k in Encoded(keys - left)
      decreases left
    {
      var key, accepted := FeedNext(builder, left);
      if !accepted {
        return Err;
      }
      EncodedStep(keys - left, key);
      assert keys - (left - {key}) == keys - left + {key};
      left := left - {key};
    }
    assert keys - left == keys;
    FinishedFst(builder.keys, file, column);
    r := Ok(builder.keys);
  }
}
