/**
 * The record store as seen by the moderation layer: rows with two nullable
 * score columns, WHERE conditions evaluated in SQL's three-valued logic, and
 * selection and counting of the rows a condition keeps.
 */
module Store {
  import opened Wrappers

  /** One row of a moderated table: its ID, its other columns, and the two nullable scores. */
  datatype Row = Row(id: int, fields: map<string, string>, spamScore: Option<real>, moderationScore: Option<real>)

  /** The score columns a moderation condition compares. */
  datatype ScoreColumn = SpamScore | ModerationScore

  /** The WHERE conditions the moderation layer builds, and the ones callers pass in. */
  datatype Cond =
    | IsNull(col: ScoreColumn)
    | Less(col: ScoreColumn, bound: real)
    | AtLeast(col: ScoreColumn, bound: real)
    | IdIs(id: int)
    | FieldIs(name: string, text: string)
    | And(left: Cond, right: Cond)
    | Or(left: Cond, right: Cond)

  /** SQL truth values: a comparison with NULL is Unknown. */
  datatype Truth = True | False | Unknown

  function TruthAnd(a: Truth, b: Truth): Truth {
    if a == False || b == False then False
    else if a == True && b == True then True
    else Unknown
  }

  function TruthOr(a: Truth, b: Truth): Truth {
    if a == True || b == True then True
    else if a == False && b == False then False
    else Unknown
  }

  function Column(row: Row, col: ScoreColumn): Option<real> {
    match col
    case SpamScore => row.spamScore
    case ModerationScore => row.moderationScore
  }

  function FromBool(b: bool): Truth {
    if b then True else False
  }

  /** Three-valued evaluation of a condition on one row. */
  function Eval(c: Cond, row: Row): Truth {
    match c
    case IsNull(col) => FromBool(Column(row, col).None?)
    case Less(col, bound) =>
      if Column(row, col).None? then Unknown else FromBool(Column(row, col).value < bound)
    case AtLeast(col, bound) =>
      if Column(row, col).None? then Unknown else FromBool(Column(row, col).value >= bound)
    case IdIs(id) => FromBool(row.id == id)
    case FieldIs(name, text) =>
      if name !in row.fields then Unknown else FromBool(row.fields[name] == text)
    case And(l, r) => TruthAnd(Eval(l, row), Eval(r, row))
    case Or(l, r) => TruthOr(Eval(l, row), Eval(r, row))
  }

  /** A WHERE clause keeps a row only when its condition evaluates to True (not Unknown). */
  predicate Holds(c: Cond, row: Row) {
    Eval(c, row) == True
  }

  /** AND keeps a row iff both sides keep it; OR iff either side does (Unknown never keeps a row). */
  lemma HoldsConnectives(a: Cond, b: Cond, row: Row)
    ensures Holds(And(a, b), row) <==> Holds(a, row) && Holds(b, row)
    ensures Holds(Or(a, b), row) <==> Holds(a, row) || Holds(b, row)
  {
  }

  /** The comparisons in closed form: a comparison with NULL never holds, `IS NULL` does on NULL. */
  lemma HoldsComparisons(col: ScoreColumn, bound: real, row: Row)
    ensures Holds(IsNull(col), row) <==> Column(row, col).None?
    ensures Holds(Less(col, bound), row) <==> Column(row, col).Some? && Column(row, col).value < bound
    ensures Holds(AtLeast(col, bound), row) <==> Column(row, col).Some? && Column(row, col).value >= bound
  {
  }

  /** The rows of `rows` a WHERE clause keeps, each with all its copies. */
  function Select(rows: seq<Row>, c: Cond): (kept: seq<Row>)
    ensures |kept| <= |rows|
    ensures forall x :: x in kept ==> Holds(c, x)
    ensures forall x :: multiset(kept)[x] == if Holds(c, x) then multiset(rows)[x] else 0
  {
    if |rows| == 0 then []
    else
      assert rows == [rows[0]] + rows[1..];
      var rest := Select(rows[1..], c);
      if Holds(c, rows[0]) then [rows[0]] + rest else rest
  }

  /** `SELECT COUNT(*) ... WHERE c`: the number of rows the clause keeps. */
  function Count(rows: seq<Row>, c: Cond): (n: nat)
    ensures n <= |rows|
    ensures n == 0 <==> forall i :: 0 <= i < |rows| ==> !Holds(c, rows[i])
    ensures n == |rows| <==> forall i :: 0 <= i < |rows| ==> Holds(c, rows[i])
  {
    if |rows| == 0 then 0
    else
      var rest := Count(rows[1..], c);
      assert forall i :: 1 <= i < |rows| ==> rows[i] == rows[1..][i - 1];
      (if Holds(c, rows[0]) then 1 else 0) + rest
  }

  /** Counting agrees with selecting: the count is the length of the selection. */
  lemma {:induction false} CountIsSelectionSize(rows: seq<Row>, c: Cond)
    ensures Count(rows, c) == |Select(rows, c)|
  {
    if |rows| > 0 {
      CountIsSelectionSize(rows[1..], c);
    }
  }

  /** Left-to-right disjunction `first OR d[0] OR d[1] ...`, as SQL parses a run of ORs. */
  function Disjoin(first: Cond, rest: seq<Cond>): (c: Cond)
    ensures forall row :: Holds(c, row) <==>
      Holds(first, row) || exists i :: 0 <= i < |rest| && Holds(rest[i], row)
    decreases |rest|
  {
    if |rest| == 0 then first
    else
      var c := Disjoin(Or(first, rest[0]), rest[1..]);
      assert forall row :: Holds(Or(first, rest[0]), row) <==> Holds(first, row) || Holds(rest[0], row);
      assert forall row, i :: 1 <= i < |rest| && Holds(rest[i], row) ==> Holds(rest[1..][i - 1], row);
      c
  }
}
