/** QualifiedColumnName: a column name together with an optional table name.
    Both parts are whatever tokens the statement held; `Null` as the table
    stands for Python's None, an unqualified name.  The source patches the
    table part of these objects in place; the model builds new values. */
module Columns {
  import opened Values

  datatype Col = Col(name: Value, table: Value)

  /** `QualifiedColumnName.__eq__` as written.  The second test reads
      `other.col_name is not None` where the table was meant, so only the
      LEFT operand's qualification is looked at. */
  predicate ColEq(a: Col, b: Col)
  {
    ValueEq(a.name, b.name) && (a.table == Null || b.name == Null || ValueEq(a.table, b.table))
  }

  /** Python's `c in cols` on a tuple of column names: some element `e` with
      `c == e`, the searched name being the left operand. */
  predicate InColumns(c: Col, cols: seq<Col>)
  {
    exists i :: 0 <= i < |cols| && ColEq(c, cols[i])
  }

  /** `ensure_fully_qualified` for one name: an unqualified name takes the
      table in scope. */
  function Qualify(c: Col, table: Value): (q: Col)
    ensures q.name == c.name
    ensures q.table == (if c.table == Null then table else c.table)
  {
    if c.table == Null then c.(table := table) else c
  }

  function QualifyAll(cs: seq<Col>, table: Value): (qs: seq<Col>)
    ensures |qs| == |cs|
    ensures forall i :: 0 <= i < |cs| ==> qs[i] == Qualify(cs[i], table)
  {
    seq(|cs|, i requires 0 <= i < |cs| => Qualify(cs[i], table))
  }

  /** The parser's patch `if not qual.table_name: qual.table_name = table`:
      a falsy table part (None, "", 0) is replaced. */
  function PatchTable(c: Col, table: Value): (q: Col)
    ensures q.name == c.name
    ensures !Falsy(c.table) ==> q == c
    ensures Falsy(c.table) ==> q.table == table
  {
    if Falsy(c.table) then c.(table := table) else c
  }

  lemma ColEqReflexive(c: Col)
    ensures ColEq(c, c)
  {
  }

  /** An unqualified left operand equals every column of the same name,
      whatever table that column belongs to. */
  lemma UnqualifiedMatchesAnyTable(a: Col, b: Col)
    requires a.table == Null
    ensures ColEq(a, b) <==> ValueEq(a.name, b.name)
  {
  }

  /** A qualified left operand never equals an unqualified right operand
      (unless the column name itself is NULL). */
  lemma QualifiedNeverMatchesUnqualified(a: Col, b: Col)
    requires a.table != Null && b.table == Null && b.name != Null
    ensures !ColEq(a, b)
  {
  }

  /** The equality is not symmetric: `c == t.c` holds but `t.c == c` does not. */
  lemma ColEqAsymmetric()
    ensures ColEq(Col(Str("c"), Null), Col(Str("c"), Str("t")))
    ensures !ColEq(Col(Str("c"), Str("t")), Col(Str("c"), Null))
  {
  }

  /** After qualification against a table, a name found among columns that
      are all qualified with that table is one of them exactly. */
  lemma {:induction false} QualifiedMemberIsExact(c: Col, cols: seq<Col>, table: Value)
    requires forall i :: 0 <= i < |cols| ==> cols[i].table == table && cols[i].name != Null
    requires InColumns(c, cols)
    requires !IsNumeric(table) && forall i :: 0 <= i < |cols| ==> !IsNumeric(cols[i].name)
    ensures Qualify(c, table) in cols
  {
    var i :| 0 <= i < |cols| && ColEq(c, cols[i]);
    assert c.name == cols[i].name;
    assert c.table == Null || c.table == table;
    assert Qualify(c, table) == cols[i];
  }
}
