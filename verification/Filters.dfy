/** Filter expressions, their row-level meaning, and the equality filters the index can use. */
module Filters {
  import opened Corpus
  import opened Outcomes

  datatype Operator = Eq | NotEq | And | Or

  /** Literals are strings or the null string; any other expression is an arbitrary function of the row. */
  datatype Expr =
    | Column(name: string)
    | Literal(value: Option<string>)
    | Binary(left: Expr, op: Operator, right: Expr)
    | Other(eval: Row -> Cell)

  /** SQL's three-valued semantics; a cell that is not a truth value counts as unknown in a connective. */
  function Eval(e: Expr, row: Row): Cell {
    match e
    case Column(name) => CellAt(row, name)
    case Literal(Some(text)) => Text(text)
    case Literal(None) => Null
    case Other(eval) => eval(row)
    case Binary(l, op, r) =>
      var a, b := Eval(l, row), Eval(r, row);
      match op
      case Eq => if a == Null || b == Null then Null else Truth(a == b)
      case NotEq => if a == Null || b == Null then Null else Truth(a != b)
      case And => if a == Truth(false) || b == Truth(false) then Truth(false)
                  else if a == Truth(true) && b == Truth(true) then Truth(true) else Null
      case Or => if a == Truth(true) || b == Truth(true) then Truth(true)
                 else if a == Truth(false) && b == Truth(false) then Truth(false) else Null
  }

  /** When a comparison or connective is true and when it is false. */
  lemma ConnectiveMeaning(l: Expr, r: Expr, row: Row)
    ensures var a, b := Eval(l, row), Eval(r, row);
            && (Eval(Binary(l, And, r), row) == Truth(true) <==> a == Truth(true) && b == Truth(true))
            && (Eval(Binary(l, And, r), row) == Truth(false) <==> a == Truth(false) || b == Truth(false))
            && (Eval(Binary(l, Or, r), row) == Truth(true) <==> a == Truth(true) || b == Truth(true))
            && (Eval(Binary(l, Or, r), row) == Truth(false) <==> a == Truth(false) && b == Truth(false))
            && (Eval(Binary(l, Eq, r), row) == Truth(true) <==> a == b && a != Null)
            && (Eval(Binary(l, Eq, r), row) == Truth(false) <==> a != b && a != Null && b != Null)
            && (Eval(Binary(l, NotEq, r), row) == Truth(true) <==> Eval(Binary(l, Eq, r), row) == Truth(false))
            && (Eval(Binary(l, NotEq, r), row) == Truth(false) <==> Eval(Binary(l, Eq, r), row) == Truth(true))
  {
  }

  /** A row is kept when every filter is true of it. */
  ghost predicate Passes(filters: seq<Expr>, row: Row) {
    forall f :: f in filters ==> Eval(f, row) == Truth(true)
  }

  /** How a scalar prints: the null string prints as `NULL`. */
  function ScalarText(value: Option<string>): string {
    value.GetOr("NULL")
  }

  /** `column = literal`, in either order, as a column and the text to look up. */
  function ExtractEquality(e: Expr): Option<(string, string)> {
    match e
    case Binary(Column(name), Eq, Literal(value)) => Some((name, ScalarText(value)))
    case Binary(Literal(value), Eq, Column(name)) => Some((name, ScalarText(value)))
    case _ => None
  }

  predicate Compares(e: Expr, column: string, value: Option<string>) {
    && e.Binary?
    && (e == Binary(Column(column), e.op, Literal(value)) || e == Binary(Literal(value), e.op, Column(column)))
  }

  /** Equality with a literal is all that is extracted, in either order; the null string as the text `NULL`. */
  lemma ExtractedShapes(e: Expr)
    ensures ExtractEquality(e).Some? <==> e.Binary? && e.op == Eq && exists c, v :: Compares(e, c, v)
    ensures forall c :: e.Binary? && e.op == Eq && Compares(e, c, None) ==> ExtractEquality(e) == Some((c, "NULL"))
  {
    if ExtractEquality(e).Some? {
      var (column, _) := ExtractEquality(e).value;
      assert Compares(e, column, if e.left.Literal? then e.left.value else e.right.value);
    }
  }

  /** Of the comparisons of a column with a string exactly those are extracted that are true of the
      rows holding that string there and of no others. */
  lemma ExtractedIff(e: Expr, column: string, text: string)
    requires Compares(e, column, Some(text))
    ensures ExtractEquality(e) == Some((column, text))
       <==> forall row :: Eval(e, row) == Truth(true) <==> CellAt(row, column) == Text(text)
  {
    var row: Row := map[column := Text(text)];
    if e.op != Eq {
      assert CellAt(row, column) == Text(text) && Eval(e, row) != Truth(true);
    }
  }

  /** An extracted filter is true of exactly the rows that hold the extracted text in that column,
      except that a comparison with the null string, extracted as the text `NULL`, is true of none. */
  lemma ExtractedFilterMeaning(e: Expr, row: Row)
    requires ExtractEquality(e).Some?
    ensures var (column, text) := ExtractEquality(e).value;
            Eval(e, row) == Truth(true) <==> !Compares(e, column, None) && CellAt(row, column) == Text(text)
  {
  }
}
