/** The Connection class: a handle on a shared Database that runs SQL
    statements against it.  Inside a transaction its writes go to a private
    copy of the database, which COMMIT publishes.  Every method is proved to
    do what the `Engine` functions say. */
module Connections {
  import opened Wrappers
  import opened Values
  import opened Columns
  import opened Tables
  import opened Sorting
  import opened Query
  import opened Locks
  import opened Tokenizer
  import opened Parser
  import opened Statements
  import opened Storage
  import opened Engine
  import opened Substitution

  /** The statements `executemany` runs: one per value set, its values
      substituted into the placeholders. */
  function Substituted(statement: string, valueSets: seq<seq<Value>>): (r: seq<string>)
    ensures |r| == |valueSets|
    ensures forall i :: 0 <= i < |valueSets| ==> r[i] == SubstituteAll(statement, valueSets[i])
  {
    seq(|valueSets|, i requires 0 <= i < |valueSets| => SubstituteAll(statement, valueSets[i]))
  }

  class Connection {
    /** The shared database this connection was opened on. */
    const database: Database
    /** The connection's id, the holder name its locks are taken under. */
    const id: int
    var inTransaction: bool
    /** The transaction's copy of the database. */
    var temp: Database?
    var needsExclusive: bool
    /** View name to the tokens of its query. */
    var views: map<Value, Tokens>
    var collations: map<Value, Collation>

    /** A copy exists exactly while a transaction is open, is never the
        shared database itself, and only an open transaction is marked as
        writing. */
    ghost predicate Valid()
      reads this
    {
      (inTransaction <==> temp != null) && temp != database
      && (needsExclusive ==> inTransaction)
    }

    /** What the `Engine` functions see of this connection and its database. */
    function Snapshot(): State
      reads this, database, temp
    {
      State(Db(database.tables, database.Locks()),
            Session(if temp != null then Some(temp.tables) else None, needsExclusive, views))
    }

    /** `Connection.__init__`, given the database the file name designates
        and the connection's id. */
    constructor (database: Database, id: int)
      ensures Valid() && this.database == database && this.id == id
      ensures !inTransaction && !needsExclusive && views == map[] && collations == map[]
    {
      this.database := database;
      this.id := id;
      inTransaction := false;
      temp := null;
      needsExclusive := false;
      views := map[];
      collations := map[];
    }

    /** `create_collation`. */
    method CreateCollation(name: Value, f: Collation)
      modifies this
      ensures collations == old(collations)[name := f]
      ensures inTransaction == old(inTransaction) && temp == old(temp)
      ensures needsExclusive == old(needsExclusive) && views == old(views)
    {
      collations := collations[name := f];
    }

    /** The database INSERT, UPDATE, DELETE, DROP and SELECT work on. */
    function Working(): Database
      reads this
      requires Valid()
    {
      if temp != null then temp else database
    }

    // -------------------------------------------------------------------
    // Transactions

    /** `begin`, after BEGIN. */
    method Begin(ts: Tokens) returns (r: Result<Rows>)
      requires Valid()
      modifies this, database
      ensures Valid() && Outcome(Snapshot(), r) == ExecBegin(old(Snapshot()), id, ts)
      ensures collations == old(collations)
      ensures temp == old(temp) || fresh(temp)
    {
      if ts == [] {
        return Err(Raised);
      }
      var mode := ts[0];
      if mode == Str("IMMEDIATE") {
        var ok := database.AddReservedLock(id);
        if !ok {
          return Err(Raised);
        }
      } else if mode == Str("EXCLUSIVE") {
        var ok := database.AddExclusiveLock(id);
        if !ok {
          return Err(Raised);
        }
      }
      var r1 := if mode in {Str("DEFERRED"), Str("IMMEDIATE"), Str("EXCLUSIVE")} then ts[1..] else ts;
      if Expect(r1, "TRANSACTION").Err? || inTransaction {
        return Err(Raised);
      }
      inTransaction := true;
      temp := new Database.Copy(database);
      return Ok([]);
    }

    /** `commit`, after COMMIT. */
    method Commit(ts: Tokens) returns (r: Result<Rows>)
      requires Valid()
      modifies this, database
      ensures Valid() && Outcome(Snapshot(), r) == ExecCommit(old(Snapshot()), id, ts)
      ensures collations == old(collations)
      ensures temp == old(temp) || temp == null
    {
      if Expect(ts, "TRANSACTION").Err? || !inTransaction {
        return Err(Raised);
      }
      var ok := database.CommitLocks(id, needsExclusive);
      if !ok {
        return Err(Raised);
      }
      inTransaction := false;
      database.tables := temp.tables;
      temp := null;
      needsExclusive := false;
      return Ok([]);
    }

    /** `rollback`, after ROLLBACK. */
    method Rollback(ts: Tokens) returns (r: Result<Rows>)
      requires Valid()
      modifies this, database
      ensures Valid() && Outcome(Snapshot(), r) == ExecRollback(old(Snapshot()), id, ts)
      ensures collations == old(collations)
      ensures temp == old(temp) || temp == null
    {
      if !inTransaction || Expect(ts, "TRANSACTION").Err? {
        return Err(Raised);
      }
      database.ReleaseExclusiveLock(id);
      database.ReleaseReservedLock(id);
      database.RemoveSharedLock(id);
      inTransaction := false;
      needsExclusive := false;
      temp := null;
      return Ok([]);
    }

    // -------------------------------------------------------------------
    // Definitions

    /** `create`, after CREATE. */
    method Create(ts: Tokens) returns (r: Result<Rows>)
      requires Valid()
      modifies this, database
      ensures Valid() && Outcome(Snapshot(), r) == ExecCreate(old(Snapshot()), ts)
      ensures collations == old(collations) && temp == old(temp)
    {
      if ts == [] {
        return Err(Raised);
      }
      if ts[0] == Str("TABLE") {
        var parsed := ParseCreateTable(ts);
        if parsed.Err? {
          return Err(parsed.error);
        }
        var c := parsed.value;
        var ok := database.CreateNewTable(c.name, c.pairs, c.notexists, c.defaults);
        return Status(ok);
      }
      var parsed := ParseCreateView(ts);
      if parsed.Err? {
        return Err(parsed.error);
      }
      views := views[parsed.value.0 := parsed.value.1];
      return Ok([]);
    }

    /** `drop`, after DROP. */
    method Drop(ts: Tokens) returns (r: Result<Rows>)
      requires Valid()
      modifies database, temp
      ensures Valid() && Outcome(Snapshot(), r) == ExecDrop(old(Snapshot()), ts)
    {
      var parsed := ParseDrop(ts);
      if parsed.Err? {
        return Err(parsed.error);
      }
      var db := Working();
      var ok := db.Drop(parsed.value.0, parsed.value.1);
      return Status(ok);
    }

    // -------------------------------------------------------------------
    // Writes

    /** The locks INSERT, UPDATE and DELETE take first. */
    method TakeWriteLocks() returns (ok: bool)
      requires Valid()
      modifies this, database
      ensures Valid() && (Snapshot(), ok) == WriteLocks(old(Snapshot()), id)
      ensures collations == old(collations) && temp == old(temp) && inTransaction == old(inTransaction)
    {
      if inTransaction {
        needsExclusive := true;
        ok := database.AddReservedLock(id);
      } else {
        ok := database.AddReservedLock(id);
        if !ok {
          return;
        }
        ok := database.AddExclusiveLock(id);
        if !ok {
          return;
        }
        database.ReleaseReservedLock(id);
        database.ReleaseExclusiveLock(id);
      }
    }

    /** `insert`, after INSERT. */
    method Insert(ts: Tokens) returns (r: Result<Rows>)
      requires Valid()
      modifies this, database, temp
      ensures Valid() && Outcome(Snapshot(), r) == ExecInsert(old(Snapshot()), id, ts)
      ensures collations == old(collations) && temp == old(temp)
    {
      var ok := TakeWriteLocks();
      if !ok {
        return Err(Raised);
      }
      var target := ParseInsertTarget(ts);
      if target.Err? {
        return Err(target.error);
      }
      var db := Working();
      match target.value
      case DefaultRowInto(name) =>
        ok := db.InsertDefaultInto(name);
        return Status(ok);
      case ValuesInto(name, cols, lists) =>
        ok := InsertValueLists(db, name, cols, lists);
        return Status(ok);
    }

    /** The VALUES loop of `insert`: each list read and inserted in turn. */
    method InsertValueLists(db: Database, name: Value, cols: seq<Col>, lists: Tokens) returns (ok: bool)
      modifies db
      ensures (db.tables, ok) == InsertLists(old(db.tables), name, cols, lists)
      ensures db.Locks() == old(db.Locks())
    {
      var rest := lists;
      while rest != []
        invariant InsertLists(old(db.tables), name, cols, lists) == InsertLists(db.tables, name, cols, rest)
        invariant db.Locks() == old(db.Locks())
        decreases |rest|
      {
        var list := ParseParenList(rest);
        if list.Err? {
          return false;
        }
        var (items, more) := list.value;
        if cols != [] && |items| != |cols| {
          return false;
        }
        ok := db.InsertInto(name, items, cols);
        if !ok {
          return false;
        }
        if more == [] {
          return true;
        }
        if !StartsWith(more, ",") {
          return false;
        }
        rest := more[1..];
      }
      return true;
    }

    /** `update`, after UPDATE. */
    method Update(ts: Tokens) returns (r: Result<Rows>)
      requires Valid()
      modifies this, database, temp
      ensures Valid() && Outcome(Snapshot(), r) == ExecUpdate(old(Snapshot()), id, ts)
      ensures collations == old(collations) && temp == old(temp)
    {
      var ok := TakeWriteLocks();
      if !ok {
        return Err(Raised);
      }
      var u := ParseUpdate(ts);
      if u.Err? {
        return Err(u.error);
      }
      var db := Working();
      ok := db.Update(u.value.table, u.value.clauses, u.value.w);
      return Status(ok);
    }

    /** `delete`, after DELETE. */
    method Delete(ts: Tokens) returns (r: Result<Rows>)
      requires Valid()
      modifies this, database, temp
      ensures Valid() && Outcome(Snapshot(), r) == ExecDelete(old(Snapshot()), id, ts)
      ensures collations == old(collations) && temp == old(temp)
    {
      var ok := TakeWriteLocks();
      if !ok {
        return Err(Raised);
      }
      var d := ParseDelete(ts);
      if d.Err? {
        return Err(d.error);
      }
      var db := Working();
      ok := db.Delete(d.value.0, d.value.1);
      return Status(ok);
    }

    // -------------------------------------------------------------------
    // Reads

    /** `select`, after SELECT. */
    method Select(ts: Tokens) returns (r: Result<Rows>)
      requires Valid()
      modifies database
      ensures Valid() && Outcome(Snapshot(), r) == ExecSelect(old(Snapshot()), id, collations, ts)
    {
      var ok := database.AddSharedLock(id);
      if !ok {
        return Err(Raised);
      }
      if !inTransaction {
        database.RemoveSharedLock(id);
      }
      var q := ParseSelect(ts, views.Keys, collations);
      if q.Err? {
        return Err(q.error);
      }
      var s := q.value;
      var db := Working();
      var rows := db.Select(s.from, s.output, s.keys, s.w, s.distinct);
      if rows.Err? {
        return Err(rows.error);
      }
      r := AggregateRows(rows.value, s.aggs);
    }

    // -------------------------------------------------------------------
    // Dispatch

    /** `execute`. */
    method Execute(statement: string) returns (r: Result<Rows>)
      requires Valid()
      modifies this, database, temp
      ensures Valid() && Outcome(Snapshot(), r) == Exec(old(Snapshot()), id, old(collations), statement)
      ensures collations == old(collations)
      ensures temp == null || temp == old(temp) || fresh(temp)
    {
      var tokens := Tokenize(statement);
      if tokens.Err? {
        return Err(tokens.error);
      }
      var all := tokens.value;
      if all == [] || all[|all| - 1] != Str(";") {
        return Err(Raised);
      }
      var ts := all[..|all| - 1];
      if ts == [] {
        return Err(Raised);
      }
      var k, rest := ts[0], ts[1..];
      if k == Str("CREATE") {
        r := Create(rest);
      } else if k == Str("INSERT") {
        r := Insert(rest);
      } else if k == Str("UPDATE") {
        r := Update(rest);
      } else if k == Str("DELETE") {
        r := Delete(rest);
      } else if k == Str("SELECT") {
        r := Select(rest);
      } else if k == Str("DROP") {
        r := Drop(rest);
      } else if k == Str("ROLLBACK") {
        r := Rollback(rest);
      } else if k == Str("BEGIN") {
        r := Begin(rest);
      } else if k == Str("COMMIT") {
        r := Commit(rest);
      } else {
        r := Err(Raised);
      }
    }

    /** `executemany`: each value set substituted into the statement, and
        the results run in turn until one raises; it returns nothing. */
    method ExecuteMany(statement: string, valueSets: seq<seq<Value>>) returns (r: Result<Rows>)
      requires Valid()
      modifies this, database, temp
      ensures Valid()
      ensures r.Ok? ==> r.value == []
      ensures Outcome(Snapshot(), r) == ExecAll(old(Snapshot()), id, old(collations), Substituted(statement, valueSets))
    {
      var statements := Substituted(statement, valueSets);
      for i := 0 to |valueSets|
        invariant Valid() && collations == old(collations)
        invariant temp == null || temp == old(temp) || fresh(temp)
        invariant ExecAll(old(Snapshot()), id, collations, statements)
               == ExecAll(Snapshot(), id, collations, statements[i..])
      {
        var s := Substitute(statement, valueSets[i]);
        assert statements[i..][0] == s && statements[i..][1..] == statements[i + 1..];
        r := Execute(s);
        if r.Err? {
          return;
        }
      }
      return Ok([]);
    }
  }
}
