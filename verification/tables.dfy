/** A table's value: its name, declared columns, rows and default values,
    and the row-level operations of the source's Table class: the WHERE
    test, the row a statement inserts, the update of one row and the rows a
    delete keeps. */
module Tables {
  import opened Wrappers
  import opened Values
  import opened Columns

  /** The three column types CREATE TABLE accepts. */
  datatype ColType = Text | Integer | RealNum

  /** A row maps fully qualified column names to values. */
  type Row = map<Col, Value>

  datatype Table = Table(name: Value, columns: seq<(Col, ColType)>, rows: seq<Row>, defaults: map<Col, Value>)

  /** The declared column names, in declaration order. */
  function ColumnNames(t: Table): (cs: seq<Col>)
    ensures |cs| == |t.columns|
    ensures forall i :: 0 <= i < |cs| ==> cs[i] == t.columns[i].0
  {
    seq(|t.columns|, i requires 0 <= i < |t.columns| => t.columns[i].0)
  }

  /** `Table.__init__` followed by `set_default`: no rows yet.  Unzipping
      an empty column list raises in the source. */
  function NewTable(name: Value, columns: seq<(Col, ColType)>, defaults: map<Col, Value>): (r: Result<Table>)
    ensures r.Ok? <==> columns != []
    ensures r.Ok? ==> (r.value.rows == [] && r.value.name == name
                       && r.value.columns == columns && r.value.defaults == defaults)
  {
    if columns == [] then Err(Raised) else Ok(Table(name, columns, [], defaults))
  }

  // ---------------------------------------------------------------------
  // WHERE

  /** The operator of a WHERE clause.  The parser appends " NOT" to any
      operator followed by NOT; `IS NOT` is the only such form with a
      meaning, the others (`WithNot`) match no row. */
  datatype Op = Gt | Lt | Eq | Ne | Is | IsNot | WithNot(base: Op)

  datatype WhereClause = WhereClause(col: Col, op: Op, constant: Value)

  /** What the parser guarantees: IS and IS NOT go with NULL, and only they. */
  predicate WellFormed(w: WhereClause)
  {
    (w.op == Is || w.op == IsNot) <==> w.constant == Null
  }

  /** The comparison of a non-null value against the clause's constant. */
  predicate Compare(v: Value, op: Op, c: Value)
  {
    match op
    case Gt => Less(c, v)
    case Lt => Less(v, c)
    case Eq => ValueEq(v, c)
    case Ne => !ValueEq(v, c)
    case _ => false
  }

  /** `_row_match_where`.  Looking up a column the row lacks raises.  `is`
      is Python's identity test; the constant it is used with is None, for
      which identity is equality. */
  function RowMatchWhere(row: Row, w: Option<WhereClause>): (r: Result<bool>)
    ensures w.None? ==> r == Ok(true)
    ensures w.Some? ==> (r.Ok? <==> w.value.col in row)
    ensures w.Some? && r.Ok? && WellFormed(w.value) && w.value.op == Is ==>
      (r.value <==> row[w.value.col] == Null)
    ensures w.Some? && r.Ok? && WellFormed(w.value) && w.value.op == IsNot ==>
      (r.value <==> row[w.value.col] != Null)
    ensures w.Some? && r.Ok? && w.value.op != Is && w.value.op != IsNot && row[w.value.col] == Null ==>
      !r.value
    ensures w.Some? && r.Ok? && row[w.value.col] != Null && w.value.op != Is && w.value.op != IsNot ==>
      (r.value <==> Compare(row[w.value.col], w.value.op, w.value.constant))
  {
    if w.None? then Ok(true)
    else if w.value.col !in row then Err(Raised)
    else
      var v := row[w.value.col];
      var c := w.value.constant;
      if (w.value.op == IsNot && v != c) || (w.value.op == Is && v == c) then Ok(true)
      else if v == Null then Ok(false)
      else Ok(Compare(v, w.value.op, c))
  }

  /** The rows whose test comes out `matching`, in their order: with
      `matching == false` this is `Table.delete`'s comprehension, with `true`
      the filter of `select_rows`.  A test that raises makes the whole
      comprehension raise. */
  function KeepRows(rows: seq<Row>, w: Option<WhereClause>, matching: bool): (r: Result<seq<Row>>)
    ensures r.Err? <==> exists i :: 0 <= i < |rows| && RowMatchWhere(rows[i], w).Err?
    ensures r.Ok? ==> forall i :: 0 <= i < |r.value| ==> RowMatchWhere(r.value[i], w) == Ok(matching)
  {
    if rows == [] then Ok([])
    else
      var m :- RowMatchWhere(rows[0], w);
      var rest := KeepRows(rows[1..], w, matching);
      if rest.Err? then
        var i :| 0 <= i < |rows[1..]| && RowMatchWhere(rows[1..][i], w).Err?;
        assert RowMatchWhere(rows[i + 1], w).Err?;
        rest
      else
        Ok(if m == matching then [rows[0]] + rest.value else rest.value)
  }

  /** The kept rows are, as a multiset, exactly the rows whose test comes
      out `matching`. */
  lemma {:induction false} KeepRowsMultiset(rows: seq<Row>, w: Option<WhereClause>, matching: bool, x: Row)
    requires KeepRows(rows, w, matching).Ok?
    ensures multiset(KeepRows(rows, w, matching).value)[x] ==
      (if RowMatchWhere(x, w) == Ok(matching) then multiset(rows)[x] else 0)
  {
    if rows != [] {
      assert rows == [rows[0]] + rows[1..];
      assert RowMatchWhere(rows[0], w).Ok?;
      assert KeepRows(rows[1..], w, matching).Ok?;
      KeepRowsMultiset(rows[1..], w, matching, x);
    }
  }

  /** Keeping rows distributes over concatenation: the kept rows keep their
      original order. */
  lemma {:induction false} KeepRowsAppend(a: seq<Row>, b: seq<Row>, w: Option<WhereClause>, matching: bool)
    requires KeepRows(a + b, w, matching).Ok?
    ensures KeepRows(a, w, matching).Ok? && KeepRows(b, w, matching).Ok?
    ensures KeepRows(a + b, w, matching).value == KeepRows(a, w, matching).value + KeepRows(b, w, matching).value
  {
    if a == [] {
      assert a + b == b;
    } else {
      assert (a + b)[0] == a[0];
      assert (a + b)[1..] == a[1..] + b;
      KeepRowsAppend(a[1..], b, w, matching);
    }
  }

  /** After a delete, a filter on the same clause finds nothing. */
  lemma DeleteLeavesNoMatch(rows: seq<Row>, w: Option<WhereClause>)
    requires KeepRows(rows, w, false).Ok?
    ensures KeepRows(KeepRows(rows, w, false).value, w, true) == Ok([])
  {
    var kept := KeepRows(rows, w, false).value;
    var selected := KeepRows(kept, w, true);
    if selected.value != [] {
      var x := selected.value[0];
      assert RowMatchWhere(x, w) == Ok(true);
      KeepRowsMultiset(kept, w, true, x);
      assert false;
    }
  }

  /** The rows a delete keeps and those a filter on the same clause selects
      are, together, all the rows. */
  lemma DeletePartitions(rows: seq<Row>, w: Option<WhereClause>)
    requires KeepRows(rows, w, false).Ok?
    ensures KeepRows(rows, w, true).Ok?
    ensures multiset(KeepRows(rows, w, false).value) + multiset(KeepRows(rows, w, true).value) == multiset(rows)
  {
    var kept := KeepRows(rows, w, false).value;
    var both := KeepRows(rows, w, true);
    forall x
      ensures multiset(kept)[x] + multiset(both.value)[x] == multiset(rows)[x]
    {
      KeepRowsMultiset(rows, w, false, x);
      KeepRowsMultiset(rows, w, true, x);
      if x in rows {
        var i :| 0 <= i < |rows| && rows[i] == x;
        assert RowMatchWhere(x, w).Ok?;
      }
    }
  }

  // ---------------------------------------------------------------------
  // UPDATE

  datatype UpdateClause = UpdateClause(col: Col, constant: Value)

  /** Writing the clauses into one row, in order. */
  function ApplyClauses(row: Row, clauses: seq<UpdateClause>): Row
  {
    if clauses == [] then row
    else
      var n := |clauses| - 1;
      ApplyClauses(row, clauses[..n])[clauses[n].col := clauses[n].constant]
  }

  /** After the clauses are written the row has the columns it had and the
      ones the clauses name. */
  lemma {:induction false} ApplyClausesKeys(row: Row, clauses: seq<UpdateClause>)
    ensures var r := ApplyClauses(row, clauses);
      forall c :: c in r <==> c in row || exists i :: 0 <= i < |clauses| && clauses[i].col == c
  {
    if clauses != [] {
      var n := |clauses| - 1;
      var prefix := clauses[..n];
      ApplyClausesKeys(row, prefix);
      var r := ApplyClauses(row, clauses);
      forall c
        ensures c in r <==> c in row || exists i :: 0 <= i < |clauses| && clauses[i].col == c
      {
        if c in r && c !in row && c != clauses[n].col {
          var i :| 0 <= i < n && prefix[i].col == c;
          assert clauses[i].col == c;
        }
        if c !in row && exists i :: 0 <= i < |clauses| && clauses[i].col == c {
          var i :| 0 <= i < |clauses| && clauses[i].col == c;
          if i < n {
            assert prefix[i].col == c;
          }
        }
      }
    }
  }

  /** A column gets the constant of the last clause that names it. */
  lemma {:induction false} ApplyClausesLastWins(row: Row, clauses: seq<UpdateClause>)
    ensures var r := ApplyClauses(row, clauses);
      forall i :: 0 <= i < |clauses| && (forall j :: i < j < |clauses| ==> clauses[j].col != clauses[i].col) ==>
        clauses[i].col in r && r[clauses[i].col] == clauses[i].constant
  {
    if clauses != [] {
      var n := |clauses| - 1;
      var prefix := clauses[..n];
      ApplyClausesLastWins(row, prefix);
      var r := ApplyClauses(row, clauses);
      forall i | 0 <= i < |clauses| && (forall j :: i < j < |clauses| ==> clauses[j].col != clauses[i].col)
        ensures clauses[i].col in r && r[clauses[i].col] == clauses[i].constant
      {
        if i < n {
          assert prefix[i] == clauses[i];
          assert clauses[n].col != clauses[i].col;
          forall j | i < j < n
            ensures prefix[j].col != prefix[i].col
          {
            assert prefix[j] == clauses[j];
          }
        }
      }
    }
  }

  /** A column no clause names keeps its value. */
  lemma {:induction false} ApplyClausesUntouched(row: Row, clauses: seq<UpdateClause>)
    ensures var r := ApplyClauses(row, clauses);
      forall c :: c in row && (forall i :: 0 <= i < |clauses| ==> clauses[i].col != c) ==> c in r && r[c] == row[c]
  {
    if clauses != [] {
      var n := |clauses| - 1;
      var prefix := clauses[..n];
      ApplyClausesUntouched(row, prefix);
      var r := ApplyClauses(row, clauses);
      forall c | c in row && (forall i :: 0 <= i < |clauses| ==> clauses[i].col != c)
        ensures c in r && r[c] == row[c]
      {
        assert clauses[n].col != c;
        forall i | 0 <= i < n
          ensures prefix[i].col != c
        {
          assert prefix[i] == clauses[i];
        }
      }
    }
  }

  /** The effect of `Table.update` on one row: the clauses are written when
      the row matches. */
  function UpdateRow(row: Row, clauses: seq<UpdateClause>, w: Option<WhereClause>): (r: Result<Row>)
    ensures r.Ok? <==> RowMatchWhere(row, w).Ok?
    ensures r.Ok? && !RowMatchWhere(row, w).value ==> r.value == row
    ensures r.Ok? && RowMatchWhere(row, w).value ==> r.value == ApplyClauses(row, clauses)
  {
    var m :- RowMatchWhere(row, w);
    Ok(if m then ApplyClauses(row, clauses) else row)
  }

  /** The index of the first row whose predicate raises, or the number of
      rows when none does. */
  function FirstFailure(rows: seq<Row>, w: Option<WhereClause>): (k: nat)
    ensures k <= |rows|
    ensures forall i :: 0 <= i < k ==> RowMatchWhere(rows[i], w).Ok?
    ensures k < |rows| ==> RowMatchWhere(rows[k], w).Err?
  {
    if rows == [] || RowMatchWhere(rows[0], w).Err? then 0
    else
      assert forall i :: 0 < i < |rows| ==> rows[1..][i - 1] == rows[i];
      1 + FirstFailure(rows[1..], w)
  }

  /** `Table.update`: the rows are updated in order, in place; a row whose
      predicate raises stops the loop, leaving the rows before it updated
      and the rest as they were.  The rows afterwards, and whether the loop
      completed. */
  function UpdateRows(rows: seq<Row>, clauses: seq<UpdateClause>, w: Option<WhereClause>): (r: (seq<Row>, bool))
    ensures |r.0| == |rows|
    ensures r.1 <==> forall i :: 0 <= i < |rows| ==> RowMatchWhere(rows[i], w).Ok?
    ensures forall i :: 0 <= i < FirstFailure(rows, w) ==> r.0[i] == UpdateRow(rows[i], clauses, w).value
    ensures forall i :: FirstFailure(rows, w) <= i < |rows| ==> r.0[i] == rows[i]
  {
    var k := FirstFailure(rows, w);
    (seq(k, i requires 0 <= i < k => UpdateRow(rows[i], clauses, w).value) + rows[k..], k == |rows|)
  }

  // ---------------------------------------------------------------------
  // INSERT

  /** The set of names in a sequence of column names. */
  function ColSet(cs: seq<Col>): (s: set<Col>)
    ensures forall c :: c in s <==> c in cs
  {
    set i | 0 <= i < |cs| :: cs[i]
  }

  /** `dict(zip(keys, values))`. */
  function ZipMap(ks: seq<Col>, vs: seq<Value>): map<Col, Value>
    requires |ks| == |vs|
  {
    if ks == [] then map[]
    else
      var n := |ks| - 1;
      ZipMap(ks[..n], vs[..n])[ks[n] := vs[n]]
  }

  /** The keys of the zipped map are the names. */
  lemma {:induction false} ZipMapKeys(ks: seq<Col>, vs: seq<Value>)
    requires |ks| == |vs|
    ensures forall c :: c in ZipMap(ks, vs) <==> c in ks
  {
    if ks != [] {
      var n := |ks| - 1;
      ZipMapKeys(ks[..n], vs[..n]);
      assert ks == ks[..n] + [ks[n]];
    }
  }

  /** A name gets the value paired with its last occurrence. */
  lemma {:induction false} ZipMapLastWins(ks: seq<Col>, vs: seq<Value>)
    requires |ks| == |vs|
    ensures forall i :: 0 <= i < |ks| && (forall j :: i < j < |ks| ==> ks[j] != ks[i]) ==>
      ks[i] in ZipMap(ks, vs) && ZipMap(ks, vs)[ks[i]] == vs[i]
  {
    if ks != [] {
      var n := |ks| - 1;
      ZipMapLastWins(ks[..n], vs[..n]);
      var m := ZipMap(ks, vs);
      forall i | 0 <= i < |ks| && (forall j :: i < j < |ks| ==> ks[j] != ks[i])
        ensures ks[i] in m && m[ks[i]] == vs[i]
      {
        if i < n {
          assert ks[n] != ks[i];
          assert ks[..n][i] == ks[i] && vs[..n][i] == vs[i];
          forall j | i < j < n
            ensures ks[..n][j] != ks[..n][i]
          {
            assert ks[..n][j] == ks[j];
          }
        }
      }
    }
  }

  /** The columns an insert fills from its values: the listed ones, or all
      declared columns in order when none are listed. */
  function TargetColumns(t: Table, cols: seq<Col>): (ts: seq<Col>)
    ensures cols != [] ==> ts == cols
    ensures cols == [] ==> ts == ColumnNames(t)
  {
    if cols == [] then ColumnNames(t) else cols
  }

  /** The row `insert_new_row` builds: exactly as many values as target
      columns, and every declared column that is not a target filled from
      its default, or null. */
  function BuildRow(t: Table, contents: seq<Value>, cols: seq<Col>): (r: Result<Row>)
    ensures r.Ok? <==> |TargetColumns(t, cols)| == |contents|
    ensures r.Ok? ==> forall c :: c in r.value <==> c in TargetColumns(t, cols) || c in ColumnNames(t)
    ensures r.Ok? ==> forall i :: (0 <= i < |contents| &&
                                 forall j :: i < j < |contents| ==> TargetColumns(t, cols)[j] != TargetColumns(t, cols)[i])
                                ==> r.value[TargetColumns(t, cols)[i]] == contents[i]
    ensures r.Ok? ==> forall c :: c in ColumnNames(t) && c !in TargetColumns(t, cols) ==>
      r.value[c] == (if c in t.defaults then t.defaults[c] else Null)
  {
    var targets := TargetColumns(t, cols);
    if |targets| != |contents| then Err(Raised)
    else
      ZipMapKeys(targets, contents);
      ZipMapLastWins(targets, contents);
      Ok(ZipMap(targets, contents) + Fill(t, ColSet(ColumnNames(t)) - ColSet(targets)))
  }

  lemma FillStep(t: Table, base: map<Col, Value>, filled: set<Col>, c: Col)
    ensures (base + Fill(t, filled))[c := if c in t.defaults then t.defaults[c] else Null] == base + Fill(t, filled + {c})
  {
  }

  /** The columns `cs` each set to its default, or null. */
  function Fill(t: Table, cs: set<Col>): (m: map<Col, Value>)
    ensures m.Keys == cs
  {
    map c | c in cs :: if c in t.defaults then t.defaults[c] else Null
  }

  /** `insert_new_row`: the listed values, then its loop over the columns
      it must fill. */
  method NewRow(t: Table, contents: seq<Value>, cols: seq<Col>) returns (r: Result<Row>)
    ensures r == BuildRow(t, contents, cols)
  {
    var targets := TargetColumns(t, cols);
    if |targets| != |contents| {
      return Err(Raised);
    }
    var row := FillMissing(t, ZipMap(targets, contents), ColSet(ColumnNames(t)) - ColSet(targets));
    return Ok(row);
  }

  /** The loop of `insert_new_row` that gives each column in `missing` its
      default, or null. */
  method FillMissing(t: Table, base: map<Col, Value>, missing: set<Col>) returns (row: map<Col, Value>)
    ensures row == base + Fill(t, missing)
  {
    row := base;
    var todo := missing;
    ghost var filled: set<Col> := {};
    assert row == base + Fill(t, filled);
    while todo != {}
      invariant todo !! filled && todo + filled == missing
      invariant row == base + Fill(t, filled)
      decreases todo
    {
      var c :| c in todo;
      FillStep(t, base, filled, c);
      row := row[c := if c in t.defaults then t.defaults[c] else Null];
      todo := todo - {c};
      filled := filled + {c};
    }
  }

  /** The row `insert_new_default_row` builds: every declared column from
      its default; a column without one raises. */
  function DefaultRow(t: Table): (r: Result<Row>)
    ensures r.Ok? <==> forall c :: c in ColumnNames(t) ==> c in t.defaults
    ensures r.Ok? ==> forall c :: c in r.value <==> c in ColumnNames(t)
    ensures r.Ok? ==> forall c :: c in ColumnNames(t) ==> r.value[c] == t.defaults[c]
  {
    if forall c :: c in ColumnNames(t) ==> c in t.defaults then
      Ok(map c | c in ColSet(ColumnNames(t)) :: t.defaults[c])
    else Err(Raised)
  }

  /** `insert_new_default_row`'s loop collecting the defaults. */
  method NewDefaultRow(t: Table) returns (r: Result<Row>)
    ensures r == DefaultRow(t)
  {
    var names := ColumnNames(t);
    var contents: seq<Value> := [];
    var i := 0;
    while i < |names|
      invariant 0 <= i <= |names|
      invariant |contents| == i
      invariant forall k :: 0 <= k < i ==> names[k] in t.defaults && contents[k] == t.defaults[names[k]]
    {
      if names[i] !in t.defaults {
        return Err(Raised);
      }
      contents := contents + [t.defaults[names[i]]];
      i := i + 1;
    }
    var row := ZipMap(names, contents);
    ZipMapKeys(names, contents);
    ZipMapLastWins(names, contents);
    forall c | c in names
      ensures row[c] == t.defaults[c]
    {
      var k :| 0 <= k < |names| && names[k] == c;
      LastOccurrence(names, k);
      var l :| k <= l < |names| && names[l] == c && forall j :: l < j < |names| ==> names[j] != names[l];
    }
    assert row == DefaultRow(t).value;
    return Ok(row);
  }

  /** Every occurrence of a name has a last occurrence at or after it. */
  lemma {:induction false} LastOccurrence(cs: seq<Col>, k: nat)
    requires k < |cs|
    decreases |cs| - k
    ensures exists l :: k <= l < |cs| && cs[l] == cs[k] && forall j :: l < j < |cs| ==> cs[j] != cs[l]
  {
    if exists j :: k < j < |cs| && cs[j] == cs[k] {
      var j :| k < j < |cs| && cs[j] == cs[k];
      LastOccurrence(cs, j);
    } else {
      assert forall j :: k < j < |cs| ==> cs[j] != cs[k];
    }
  }
}
