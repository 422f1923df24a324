/** The Database class: the tables of one database file and the locks its
    connections hold.  Connections opened on the same file share one
    Database object, and its lock fields are what they coordinate through.
    Each table is kept as a value in the `tables` map; in the source every
    Table object is owned by exactly one such map. */
module Storage {
  import opened Wrappers
  import opened Values
  import opened Columns
  import opened Tables
  import opened Sorting
  import opened Query
  import opened Locks

  /** The tables of a database, by name. */
  type Catalog = map<Value, Table>

  // ---------------------------------------------------------------------
  // The table operations, on catalogs

  /** `create_new_table`: with IF NOT EXISTS an existing name leaves the
      catalog alone; without it the name must be new. */
  function CreateTableSpec(c: Catalog, name: Value, pairs: seq<(Col, ColType)>, notexists: bool,
                           defaults: map<Col, Value>): (r: Result<Catalog>)
    ensures name in c ==> (r.Ok? <==> notexists)
    ensures name in c && r.Ok? ==> r.value == c
    ensures name !in c ==> (r.Ok? <==> pairs != [])
    ensures r.Ok? ==> name in r.value && r.value.Keys == c.Keys + {name}
    ensures r.Ok? && name !in c ==> r.value[name].rows == [] && r.value[name].defaults == defaults
  {
    if name in c then (if notexists then Ok(c) else Err(Raised))
    else
      var t :- NewTable(name, pairs, defaults);
      Ok(c[name := t])
  }

  /** `insert_into`: the table must exist; the row it builds is appended. */
  function InsertSpec(c: Catalog, name: Value, contents: seq<Value>, cols: seq<Col>): (r: Result<Catalog>)
    ensures r.Ok? <==> name in c && BuildRow(c[name], contents, cols).Ok?
  {
    if name !in c then Err(Raised)
    else
      var row :- BuildRow(c[name], contents, cols);
      Ok(c[name := c[name].(rows := c[name].rows + [row])])
  }

  /** `insert_default_into`: a row of defaults is appended. */
  function InsertDefaultSpec(c: Catalog, name: Value): (r: Result<Catalog>)
    ensures r.Ok? <==> name in c && DefaultRow(c[name]).Ok?
  {
    if name !in c then Err(Raised)
    else
      var row :- DefaultRow(c[name]);
      Ok(c[name := c[name].(rows := c[name].rows + [row])])
  }

  /** `Database.update`: the catalog afterwards (the rows before a raising
      predicate stay updated) and whether the statement completed. */
  function UpdateSpec(c: Catalog, name: Value, clauses: seq<UpdateClause>, w: Option<WhereClause>): (r: (Catalog, bool))
    ensures name !in c ==> r == (c, false)
    ensures r.0.Keys == c.Keys
  {
    if name !in c then (c, false)
    else
      var (rows, ok) := UpdateRows(c[name].rows, clauses, w);
      (c[name := c[name].(rows := rows)], ok)
  }

  /** `Database.delete`: the table keeps the rows that do not match. */
  function DeleteSpec(c: Catalog, name: Value, w: Option<WhereClause>): (r: Result<Catalog>)
    ensures r.Ok? <==> name in c && KeepRows(c[name].rows, w, false).Ok?
  {
    if name !in c then Err(Raised)
    else
      var kept :- KeepRows(c[name].rows, w, false);
      Ok(c[name := c[name].(rows := kept)])
  }

  /** `Database.drop`: with IF EXISTS a missing name is ignored. */
  function DropSpec(c: Catalog, name: Value, ifexists: bool): (r: Result<Catalog>)
    ensures r.Ok? <==> ifexists || name in c
    ensures r.Ok? ==> name !in r.value && r.value.Keys == c.Keys - {name}
  {
    if name in c then Ok(c - {name})
    else if ifexists then Ok(c)
    else Err(Raised)
  }

  /** Dropping a table just created gives the catalog back. */
  lemma CreateThenDrop(c: Catalog, name: Value, pairs: seq<(Col, ColType)>, notexists: bool, defaults: map<Col, Value>)
    requires name !in c && pairs != []
    ensures CreateTableSpec(c, name, pairs, notexists, defaults).Ok?
    ensures DropSpec(CreateTableSpec(c, name, pairs, notexists, defaults).value, name, false) == Ok(c)
  {
    var c1 := CreateTableSpec(c, name, pairs, notexists, defaults).value;
    assert c1 - {name} == c;
  }

  /** CREATE TABLE IF NOT EXISTS and DROP TABLE IF EXISTS can be repeated. */
  lemma CreateAndDropIdempotent(c: Catalog, name: Value, pairs: seq<(Col, ColType)>, defaults: map<Col, Value>,
                                pairs': seq<(Col, ColType)>, defaults': map<Col, Value>)
    ensures var r := CreateTableSpec(c, name, pairs, true, defaults);
      r.Ok? ==> CreateTableSpec(r.value, name, pairs', true, defaults') == r
    ensures var r := DropSpec(c, name, true);
      r.Ok? && DropSpec(r.value, name, true) == r
  {
  }

  /** An insert appends exactly the row `insert_new_row` builds, to the
      named table only. */
  lemma InsertAppendsOneRow(c: Catalog, name: Value, contents: seq<Value>, cols: seq<Col>)
    requires InsertSpec(c, name, contents, cols).Ok?
    ensures var c1 := InsertSpec(c, name, contents, cols).value;
      c1.Keys == c.Keys
      && (forall n :: n in c && n != name ==> c1[n] == c[n])
      && c1[name].columns == c[name].columns && c1[name].defaults == c[name].defaults
      && c1[name].rows == c[name].rows + [BuildRow(c[name], contents, cols).value]
  {
  }

  /** Several value lists inserted in turn, stopping at the first that
      cannot be inserted; the lists before it stay inserted. */
  function InsertAll(c: Catalog, name: Value, cols: seq<Col>, lists: seq<seq<Value>>): (r: (Catalog, bool))
    ensures r.0.Keys == c.Keys
    ensures r.1 <==> lists == [] || (name in c && forall i :: 0 <= i < |lists| ==> BuildRow(c[name], lists[i], cols).Ok?)
    decreases |lists|
  {
    if lists == [] then (c, true)
    else
      var c1 := InsertSpec(c, name, lists[0], cols);
      if c1.Err? then (c, false)
      else
        InsertAppendsOneRow(c, name, lists[0], cols);
        BuildRowSameShape(c[name], c1.value[name], cols);
        var r := InsertAll(c1.value, name, cols, lists[1..]);
        assert r.1 <==> forall i :: 0 <= i < |lists| ==> BuildRow(c[name], lists[i], cols).Ok? by {
          if r.1 {
            forall i | 0 <= i < |lists| ensures BuildRow(c[name], lists[i], cols).Ok? {
              if i > 0 { assert lists[1..][i - 1] == lists[i]; }
            }
          } else {
            assert exists i :: 0 <= i < |lists[1..]| && !BuildRow(c1.value[name], lists[1..][i], cols).Ok?;
            var i :| 0 <= i < |lists[1..]| && !BuildRow(c1.value[name], lists[1..][i], cols).Ok?;
            assert !BuildRow(c[name], lists[i + 1], cols).Ok?;
          }
        }
        r
  }

  /** The row built from a list depends on the table's columns and
      defaults, not on its name or the rows it holds. */
  lemma BuildRowSameShape(t: Table, u: Table, cols: seq<Col>)
    requires t.columns == u.columns && t.defaults == u.defaults
    ensures forall contents {:trigger BuildRow(t, contents, cols)} ::
      BuildRow(t, contents, cols) == BuildRow(u, contents, cols)
  {
    assert ColumnNames(t) == ColumnNames(u);
    forall cs: set<Col> ensures Fill(t, cs) == Fill(u, cs) { }
  }

  /** The rows built from value lists that all fit the table, in order. */
  function BuiltRows(t: Table, lists: seq<seq<Value>>, cols: seq<Col>): (rows: seq<Row>)
    requires forall i :: 0 <= i < |lists| ==> BuildRow(t, lists[i], cols).Ok?
    ensures |rows| == |lists|
    ensures forall i :: 0 <= i < |lists| ==> rows[i] == BuildRow(t, lists[i], cols).value
    decreases |lists|
  {
    if lists == [] then []
    else
      assert forall i :: 0 <= i < |lists[1..]| ==> lists[1..][i] == lists[i + 1];
      [BuildRow(t, lists[0], cols).value] + BuiltRows(t, lists[1..], cols)
  }

  /** When every list fits the table, inserting them all appends their
      rows in order to the named table and changes nothing else. */
  lemma InsertAllAppends(c: Catalog, name: Value, cols: seq<Col>, lists: seq<seq<Value>>)
    requires name in c && forall i :: 0 <= i < |lists| ==> BuildRow(c[name], lists[i], cols).Ok?
    ensures InsertAll(c, name, cols, lists)
      == (c[name := c[name].(rows := c[name].rows + BuiltRows(c[name], lists, cols))], true)
  {
    InsertAllFrom(c, name, cols, lists, c[name]);
  }

  lemma {:induction false} InsertAllFrom(c: Catalog, name: Value, cols: seq<Col>, lists: seq<seq<Value>>, t: Table)
    requires name in c && c[name].columns == t.columns && c[name].defaults == t.defaults
    requires forall i :: 0 <= i < |lists| ==> BuildRow(t, lists[i], cols).Ok?
    ensures InsertAll(c, name, cols, lists)
      == (c[name := c[name].(rows := c[name].rows + BuiltRows(t, lists, cols))], true)
    decreases |lists|
  {
    if lists == [] {
      assert c[name].rows + [] == c[name].rows;
      assert c[name := c[name]] == c;
    } else {
      var row := BuildRow(t, lists[0], cols).value;
      var c1 := c[name := c[name].(rows := c[name].rows + [row])];
      InsertAllStep(c, name, cols, lists, t);
      assert forall i :: 0 <= i < |lists[1..]| ==> lists[1..][i] == lists[i + 1];
      InsertAllFrom(c1, name, cols, lists[1..], t);
      InsertAllJoin(c, name, cols, lists, t);
    }
  }

  /** The first list of several goes in as a single insert would put it. */
  lemma InsertAllStep(c: Catalog, name: Value, cols: seq<Col>, lists: seq<seq<Value>>, t: Table)
    requires name in c && c[name].columns == t.columns && c[name].defaults == t.defaults
    requires lists != [] && BuildRow(t, lists[0], cols).Ok?
    ensures InsertAll(c, name, cols, lists)
      == InsertAll(c[name := c[name].(rows := c[name].rows + [BuildRow(t, lists[0], cols).value])], name, cols, lists[1..])
  {
    BuildRowSameShape(t, c[name], cols);
  }

  lemma InsertAllJoin(c: Catalog, name: Value, cols: seq<Col>, lists: seq<seq<Value>>, t: Table)
    requires name in c
    requires lists != [] && forall i :: 0 <= i < |lists| ==> BuildRow(t, lists[i], cols).Ok?
    ensures var c1 := c[name := c[name].(rows := c[name].rows + [BuildRow(t, lists[0], cols).value])];
      c1[name := c1[name].(rows := c1[name].rows + BuiltRows(t, lists[1..], cols))]
      == c[name := c[name].(rows := c[name].rows + BuiltRows(t, lists, cols))]
  {
    var row := BuildRow(t, lists[0], cols).value;
    var more := BuiltRows(t, lists[1..], cols);
    assert BuiltRows(t, lists, cols) == [row] + more;
    AppendAssoc(c[name].rows, [row], more);
  }

  /** An update changes the rows of the named table only, keeps their
      number, and when it completes every row is the one-row update. */
  lemma UpdateKeepsShape(c: Catalog, name: Value, clauses: seq<UpdateClause>, w: Option<WhereClause>)
    requires name in c
    ensures var (c1, ok) := UpdateSpec(c, name, clauses, w);
      (forall n :: n in c && n != name ==> c1[n] == c[n])
      && c1[name].columns == c[name].columns
      && |c1[name].rows| == |c[name].rows|
      && (ok ==> forall i :: 0 <= i < |c[name].rows| ==>
                   c1[name].rows[i] == UpdateRow(c[name].rows[i], clauses, w).value)
      && (!ok ==> exists i :: 0 <= i < |c[name].rows| && RowMatchWhere(c[name].rows[i], w).Err?
                             && c1[name].rows[i..] == c[name].rows[i..])
  {
    var (c1, ok) := UpdateSpec(c, name, clauses, w);
    var k := FirstFailure(c[name].rows, w);
    if ok {
      assert k == |c[name].rows|;
    } else {
      assert k < |c[name].rows|;
      assert c1[name].rows[k..] == c[name].rows[k..];
    }
  }

  /** A delete leaves the named table with the rows that did not match, in
      order: every row either stays or matched. */
  lemma DeleteKeepsNonMatching(c: Catalog, name: Value, w: Option<WhereClause>)
    requires DeleteSpec(c, name, w).Ok?
    ensures var c1 := DeleteSpec(c, name, w).value;
      (forall n :: n in c && n != name ==> c1[n] == c[n])
      && (forall i :: 0 <= i < |c1[name].rows| ==> RowMatchWhere(c1[name].rows[i], w) == Ok(false))
      && (forall x :: multiset(c1[name].rows)[x] ==
            (if RowMatchWhere(x, w) == Ok(false) then multiset(c[name].rows)[x] else 0))
  {
    var kept := KeepRows(c[name].rows, w, false).value;
    forall x
      ensures multiset(kept)[x] == (if RowMatchWhere(x, w) == Ok(false) then multiset(c[name].rows)[x] else 0)
    {
      KeepRowsMultiset(c[name].rows, w, false, x);
    }
  }

  // ---------------------------------------------------------------------
  // The loops of Table.update and Table.select_rows

  /** The inner loop of `Table.update`: the clauses written into one row in
      order. */
  method WriteClauses(row: Row, clauses: seq<UpdateClause>) returns (r: Row)
    ensures r == ApplyClauses(row, clauses)
  {
    r := row;
    for j := 0 to |clauses|
      invariant r == ApplyClauses(row, clauses[..j])
    {
      assert clauses[..j + 1][..j] == clauses[..j];
      r := r[clauses[j].col := clauses[j].constant];
    }
    assert clauses[..|clauses|] == clauses;
  }

  /** `Table.select_rows`. */
  method SelectRows(t: Table, output: seq<Col>, keys: seq<OrderKey>, w: Option<WhereClause>, distinct: bool)
    returns (r: Result<seq<seq<Value>>>)
    ensures r == SelectSpec(t, output, keys, w, distinct)
  {
    var declared := ColumnNames(t);
    var expanded := ExpandStar(output, declared);
    if !AllExist(expanded, declared) || !AllExist(OrderCols(keys), declared) {
      return Err(Raised);
    }
    var filtered := KeepRows(t.rows, w, true);
    if filtered.Err? {
      return Err(filtered.error);
    }
    var sorted := SortRows(filtered.value, QualifyKeys(keys, t.name));
    if sorted.Err? {
      return Err(sorted.error);
    }
    var tuples := Project(sorted.value, QualifyAll(expanded, t.name));
    if tuples.Err? || !distinct {
      return tuples;
    }
    var uniques := RemoveDuplicates(tuples.value);
    return Ok(uniques);
  }

  // ---------------------------------------------------------------------
  // The Database class

  class Database {
    var tables: Catalog
    var shared: set<int>
    var reserved: Option<int>
    var exclusive: Option<int>

    /** The three lock fields together. */
    function Locks(): LockState
      reads this
    {
      LockState(shared, reserved, exclusive)
    }

    constructor ()
      ensures tables == map[] && Locks() == NoLocks
    {
      tables := map[];
      shared := {};
      reserved := None;
      exclusive := None;
    }

    /** `copy.deepcopy` of a database: the same tables and locks. */
    constructor Copy(other: Database)
      ensures tables == other.tables && Locks() == other.Locks()
    {
      tables := other.tables;
      shared := other.shared;
      reserved := other.reserved;
      exclusive := other.exclusive;
    }

    method AddReservedLock(id: int) returns (ok: bool)
      modifies this
      ensures ok <==> AddReserved(old(Locks()), id).Some?
      ensures Locks() == (if ok then AddReserved(old(Locks()), id).value else old(Locks()))
      ensures tables == old(tables)
    {
      if reserved.None? && exclusive.None? {
        reserved := Some(id);
        ok := true;
      } else if reserved == Some(id) {
        ok := true;
      } else if exclusive == Some(id) {
        ok := true;
      } else {
        ok := false;
      }
    }

    method ReleaseReservedLock(id: int)
      modifies this
      ensures Locks() == ReleaseReserved(old(Locks()), id) && tables == old(tables)
    {
      if reserved == Some(id) {
        reserved := None;
      }
    }

    method AddSharedLock(id: int) returns (ok: bool)
      modifies this
      ensures ok <==> AddShared(old(Locks()), id).Some?
      ensures Locks() == (if ok then AddShared(old(Locks()), id).value else old(Locks()))
      ensures tables == old(tables)
    {
      if exclusive != Some(id) && exclusive.Some? {
        return false;
      }
      shared := shared + {id};
      ok := true;
    }

    method RemoveSharedLock(id: int)
      modifies this
      ensures Locks() == RemoveShared(old(Locks()), id) && tables == old(tables)
    {
      if id in shared {
        shared := shared - {id};
      }
    }

    method ReleaseExclusiveLock(id: int)
      modifies this
      ensures Locks() == ReleaseExclusive(old(Locks()), id) && tables == old(tables)
    {
      if exclusive == Some(id) {
        exclusive := None;
      }
    }

    method AddExclusiveLock(id: int) returns (ok: bool)
      modifies this
      ensures ok <==> AddExclusive(old(Locks()), id).Some?
      ensures Locks() == (if ok then AddExclusive(old(Locks()), id).value else old(Locks()))
      ensures tables == old(tables)
    {
      if exclusive.Some? && exclusive != Some(id) {
        return false;
      }
      if reserved.Some? && reserved != Some(id) {
        return false;
      }
      if |shared| == 0 || (|shared| == 1 && id in shared) {
        assert shared <= {id} by {
          if |shared| == 1 { assert |shared - {id}| == 0; }
        }
        exclusive := Some(id);
        ok := true;
      } else {
        assert !(shared <= {id});
        ok := false;
      }
    }

    /** `Database.commit`. */
    method CommitLocks(id: int, needsExclusive: bool) returns (ok: bool)
      modifies this
      ensures ok <==> Commit(old(Locks()), id, needsExclusive).Some?
      ensures Locks() == (if ok then Commit(old(Locks()), id, needsExclusive).value else old(Locks()))
      ensures tables == old(tables)
    {
      if needsExclusive {
        ok := AddExclusiveLock(id);
        if !ok {
          return;
        }
      }
      ReleaseExclusiveLock(id);
      RemoveSharedLock(id);
      ReleaseReservedLock(id);
      ok := true;
    }

    /** `create_new_table`. */
    method CreateNewTable(name: Value, pairs: seq<(Col, ColType)>, notexists: bool, defaults: map<Col, Value>)
      returns (ok: bool)
      modifies this
      ensures var r := CreateTableSpec(old(tables), name, pairs, notexists, defaults);
        ok == r.Ok? && tables == (if ok then r.value else old(tables))
      ensures Locks() == old(Locks())
    {
      if notexists && name in tables {
        return true;
      }
      if name in tables || pairs == [] {
        return false;
      }
      tables := tables[name := Table(name, pairs, [], defaults)];
      ok := true;
    }

    /** `insert_into`, through `insert_new_row`. */
    method InsertInto(name: Value, contents: seq<Value>, cols: seq<Col>) returns (ok: bool)
      modifies this
      ensures var r := InsertSpec(old(tables), name, contents, cols);
        ok == r.Ok? && tables == (if ok then r.value else old(tables))
      ensures Locks() == old(Locks())
    {
      if name !in tables {
        return false;
      }
      var t := tables[name];
      var row := NewRow(t, contents, cols);
      if row.Err? {
        return false;
      }
      tables := tables[name := t.(rows := t.rows + [row.value])];
      ok := true;
    }

    /** `insert_default_into`, through `insert_new_default_row`. */
    method InsertDefaultInto(name: Value) returns (ok: bool)
      modifies this
      ensures var r := InsertDefaultSpec(old(tables), name);
        ok == r.Ok? && tables == (if ok then r.value else old(tables))
      ensures Locks() == old(Locks())
    {
      if name !in tables {
        return false;
      }
      var t := tables[name];
      var row := NewDefaultRow(t);
      if row.Err? {
        return false;
      }
      tables := tables[name := t.(rows := t.rows + [row.value])];
      ok := true;
    }

    /** `Database.update` and `Table.update`: the rows are rewritten one by
      one; a predicate that raises stops the loop. */
    method Update(name: Value, clauses: seq<UpdateClause>, w: Option<WhereClause>) returns (ok: bool)
      modifies this
      ensures (tables, ok) == UpdateSpec(old(tables), name, clauses, w)
      ensures Locks() == old(Locks())
    {
      if name !in tables {
        return false;
      }
      var t := tables[name];
      var rows := t.rows;
      var i := 0;
      while i < |rows|
        invariant 0 <= i <= |rows| == |t.rows|
        invariant forall k :: 0 <= k < i ==> RowMatchWhere(t.rows[k], w).Ok?
        invariant forall k :: 0 <= k < i ==> rows[k] == UpdateRow(t.rows[k], clauses, w).value
        invariant rows[i..] == t.rows[i..]
        invariant tables == old(tables) && Locks() == old(Locks())
      {
        assert rows[i] == t.rows[i] by { assert rows[i..][0] == t.rows[i..][0]; }
        var m := RowMatchWhere(rows[i], w);
        if m.Err? {
          tables := tables[name := t.(rows := rows)];
          assert FirstFailure(t.rows, w) == i;
          assert rows == UpdateRows(t.rows, clauses, w).0;
          return false;
        }
        if m.value {
          var updated := WriteClauses(rows[i], clauses);
          rows := rows[i := updated];
        }
        assert rows[i + 1..] == t.rows[i + 1..] by {
          forall k | i + 1 <= k < |rows| ensures rows[k] == t.rows[k] {
            assert t.rows[i..][k - i] == t.rows[k];
          }
        }
        i := i + 1;
      }
      assert FirstFailure(t.rows, w) == |t.rows|;
      assert rows == UpdateRows(t.rows, clauses, w).0;
      tables := tables[name := t.(rows := rows)];
      ok := true;
    }

    /** `Database.delete` and `Table.delete`. */
    method Delete(name: Value, w: Option<WhereClause>) returns (ok: bool)
      modifies this
      ensures var r := DeleteSpec(old(tables), name, w);
        ok == r.Ok? && tables == (if ok then r.value else old(tables))
      ensures Locks() == old(Locks())
    {
      if name !in tables {
        return false;
      }
      var kept := KeepRows(tables[name].rows, w, false);
      if kept.Err? {
        return false;
      }
      tables := tables[name := tables[name].(rows := kept.value)];
      ok := true;
    }

    /** `Database.drop`. */
    method Drop(name: Value, ifexists: bool) returns (ok: bool)
      modifies this
      ensures var r := DropSpec(old(tables), name, ifexists);
        ok == r.Ok? && tables == (if ok then r.value else old(tables))
      ensures Locks() == old(Locks())
    {
      if name in tables {
        tables := tables - {name};
        return true;
      }
      ok := ifexists;
    }

    /** `Database.select`: a LEFT OUTER JOIN builds its rows first. */
    method Select(from: FromJoin, output: seq<Col>, keys: seq<OrderKey>, w: Option<WhereClause>, distinct: bool)
      returns (r: Result<seq<seq<Value>>>)
      ensures r == DbSelect(tables, from, output, keys, w, distinct)
    {
      match from
      case From(name) =>
        if name !in tables {
          return Err(Raised);
        }
        r := SelectRows(tables[name], output, keys, w, distinct);
      case LeftJoin(left, right, lcol, rcol) =>
        if left !in tables {
          return Err(Raised);
        }
        if Falsy(right) {
          r := SelectRows(tables[left], output, keys, w, distinct);
          return;
        }
        if right !in tables {
          return Err(Raised);
        }
        var l := tables[left];
        var rt := tables[right];
        var combined := Join(l.rows, rt.rows, lcol, rcol);
        if combined.Err? {
          return Err(combined.error);
        }
        var joined := Table(Str(""), l.columns + rt.columns, combined.value, map[]);
        r := SelectRows(joined, output, keys, w, distinct);
    }
  }
}
