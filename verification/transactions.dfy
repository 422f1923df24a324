/** What the statements promise about transactions and locks: a connection
    inside a transaction works on its own copy of the tables until COMMIT
    publishes it, ROLLBACK drops it, and no statement breaks the lock
    compatibility the Database keeps. */
module Transactions {
  import opened Wrappers
  import opened Values
  import opened Columns
  import opened Tables
  import opened Sorting
  import opened Query
  import opened Locks
  import opened Tokenizer
  import opened Parser
  import opened Statements
  import opened Storage
  import opened Engine

  // ---------------------------------------------------------------------
  // The shape of each statement's effect

  /** A write changes the locks as `WriteLocks` says and, besides that,
      at most the tables it works on. */
  lemma InsertShape(st: State, id: int, ts: Tokens)
    ensures var o := ExecInsert(st, id, ts);
      o.st == WithTarget(WriteLocks(st, id).0, Target(o.st))
  {
  }

  lemma UpdateShape(st: State, id: int, ts: Tokens)
    ensures var o := ExecUpdate(st, id, ts);
      o.st == WithTarget(WriteLocks(st, id).0, Target(o.st))
  {
  }

  lemma DeleteShape(st: State, id: int, ts: Tokens)
    ensures var o := ExecDelete(st, id, ts);
      o.st == WithTarget(WriteLocks(st, id).0, Target(o.st))
  {
  }

  /** DROP takes no lock and changes at most the tables it works on. */
  lemma DropShape(st: State, ts: Tokens)
    ensures var o := ExecDrop(st, ts);
      o.st == WithTarget(st, Target(o.st))
  {
  }

  /** A SELECT changes the locks as `ReadLocks` says and nothing else. */
  lemma SelectShape(st: State, id: int, collations: map<Value, Collation>, ts: Tokens)
    ensures var o := ExecSelect(st, id, collations, ts);
      o.st == (if ReadLocks(st, id).Some? then WithLocks(st, ReadLocks(st, id).value) else st)
  {
  }

  /** CREATE changes the shared tables or the views, and nothing else. */
  lemma CreateShape(st: State, ts: Tokens)
    ensures var o := ExecCreate(st, ts);
      o.st.db.locks == st.db.locks && o.st.session.temp == st.session.temp
      && o.st.session.needsExclusive == st.session.needsExclusive
  {
  }

  /** In a transaction a write marks it as writing, then asks for reserved;
      outside one it runs the autocommit sequence and marks nothing. */
  lemma WriteLocksShape(st: State, id: int)
    ensures var (st1, _) := WriteLocks(st, id);
      st1.db.tables == st.db.tables && st1.session.temp == st.session.temp
      && st1.session.views == st.session.views
      && st1.session.needsExclusive == (st.session.needsExclusive || InTransaction(st))
  {
  }

  const Keywords := {Str("INSERT"), Str("UPDATE"), Str("DELETE"), Str("SELECT"), Str("DROP"),
                     Str("CREATE"), Str("BEGIN"), Str("COMMIT"), Str("ROLLBACK")}

  /** Which statement the dispatch runs. */
  lemma Dispatch(st: State, id: int, collations: map<Value, Collation>, ts: Tokens)
    requires ts != []
    ensures var o := ExecTokens(st, id, collations, ts);
      var k := ts[0];
      var rest := ts[1..];
      (k == Str("INSERT") ==> o == ExecInsert(st, id, rest))
      && (k == Str("UPDATE") ==> o == ExecUpdate(st, id, rest))
      && (k == Str("DELETE") ==> o == ExecDelete(st, id, rest))
      && (k == Str("SELECT") ==> o == ExecSelect(st, id, collations, rest))
      && (k == Str("DROP") ==> o == ExecDrop(st, rest))
      && (k == Str("CREATE") ==> o == ExecCreate(st, rest))
      && (k == Str("BEGIN") ==> o == ExecBegin(st, id, rest))
      && (k == Str("COMMIT") ==> o == ExecCommit(st, id, rest))
      && (k == Str("ROLLBACK") ==> o == ExecRollback(st, id, rest))
      && (k !in Keywords ==> o == Fail(st))
  {
  }

  lemma AutocommitKeepsConsistent(s: LockState, id: int)
    requires Consistent(s)
    ensures Consistent(AutocommitWrite(s, id).0)
    ensures Consistent(AutocommitRead(s, id).0)
  {
    ConsistentPreserved(s, id);
    var r := AddReserved(s, id);
    if r.Some? {
      ConsistentPreserved(r.value, id);
      var x := AddExclusive(r.value, id);
      if x.Some? {
        ConsistentPreserved(x.value, id);
        ConsistentPreserved(ReleaseReserved(x.value, id), id);
      }
    }
    var sh := AddShared(s, id);
    if sh.Some? {
      ConsistentPreserved(sh.value, id);
    }
  }

  lemma CommitKeepsConsistent(s: LockState, id: int, needsExclusive: bool)
    requires Consistent(s)
    ensures Commit(s, id, needsExclusive).Some? ==> Consistent(Commit(s, id, needsExclusive).value)
    ensures Consistent(Rollback(s, id))
  {
    ConsistentPreserved(s, id);
    var u := if needsExclusive then AddExclusive(s, id) else Some(s);
    if u.Some? {
      ConsistentPreserved(u.value, id);
      var a := ReleaseExclusive(u.value, id);
      ConsistentPreserved(a, id);
      ConsistentPreserved(RemoveShared(a, id), id);
    }
    var b := ReleaseExclusive(s, id);
    ConsistentPreserved(b, id);
    ConsistentPreserved(ReleaseReserved(b, id), id);
  }

  /** The locks a write or a read takes keep the lock state consistent. */
  lemma StatementLocksKeepConsistent(st: State, id: int)
    requires Consistent(st.db.locks)
    ensures Consistent(WriteLocks(st, id).0.db.locks)
    ensures ReadLocks(st, id).Some? ==> Consistent(ReadLocks(st, id).value)
  {
    ConsistentPreserved(st.db.locks, id);
    AutocommitKeepsConsistent(st.db.locks, id);
  }

  /** Only a connection with an open transaction is marked as writing. */
  lemma TokensKeepCoherent(st: State, id: int, collations: map<Value, Collation>, ts: Tokens)
    requires Coherent(st)
    ensures Coherent(ExecTokens(st, id, collations, ts).st)
  {
    if ts != [] {
      Dispatch(st, id, collations, ts);
      var k, rest := ts[0], ts[1..];
      WriteLocksShape(st, id);
      if k == Str("INSERT") {
        InsertShape(st, id, rest);
      } else if k == Str("UPDATE") {
        UpdateShape(st, id, rest);
      } else if k == Str("DELETE") {
        DeleteShape(st, id, rest);
      } else if k == Str("SELECT") {
        SelectShape(st, id, collations, rest);
      } else if k == Str("DROP") {
        DropShape(st, rest);
      } else if k == Str("CREATE") {
        CreateShape(st, rest);
      }
    }
  }

  lemma ExecKeepsCoherent(st: State, id: int, collations: map<Value, Collation>, statement: string)
    requires Coherent(st)
    ensures Coherent(Exec(st, id, collations, statement).st)
  {
    var t := Lex(statement);
    if t.Ok? && t.value != [] {
      TokensKeepCoherent(st, id, collations, t.value[..|t.value| - 1]);
    }
  }

  /** No statement, whether it succeeds or raises part-way, leaves a
      connection holding exclusive beside another's shared or reserved lock. */
  lemma TokensKeepLocksConsistent(st: State, id: int, collations: map<Value, Collation>, ts: Tokens)
    requires Consistent(st.db.locks)
    ensures Consistent(ExecTokens(st, id, collations, ts).st.db.locks)
  {
    if ts != [] {
      Dispatch(st, id, collations, ts);
      var k, rest := ts[0], ts[1..];
      StatementLocksKeepConsistent(st, id);
      if k == Str("INSERT") {
        InsertShape(st, id, rest);
      } else if k == Str("UPDATE") {
        UpdateShape(st, id, rest);
      } else if k == Str("DELETE") {
        DeleteShape(st, id, rest);
      } else if k == Str("SELECT") {
        SelectShape(st, id, collations, rest);
      } else if k == Str("DROP") {
        DropShape(st, rest);
      } else if k == Str("CREATE") {
        CreateShape(st, rest);
      } else if k == Str("BEGIN") {
        ConsistentPreserved(st.db.locks, id);
      } else if k == Str("COMMIT") || k == Str("ROLLBACK") {
        CommitKeepsConsistent(st.db.locks, id, st.session.needsExclusive);
      }
    }
  }

  lemma ExecKeepsLocksConsistent(st: State, id: int, collations: map<Value, Collation>, statement: string)
    requires Consistent(st.db.locks)
    ensures Consistent(Exec(st, id, collations, statement).st.db.locks)
  {
    var t := Lex(statement);
    if t.Ok? && t.value != [] {
      TokensKeepLocksConsistent(st, id, collations, t.value[..|t.value| - 1]);
    }
  }

  // ---------------------------------------------------------------------
  // Isolation

  /** Inside a transaction, every statement but CREATE and COMMIT leaves the
      shared tables alone: its writes go to the connection's copy. */
  lemma TokensIsolated(st: State, id: int, collations: map<Value, Collation>, ts: Tokens)
    requires InTransaction(st)
    requires ts != [] ==> ts[0] != Str("CREATE") && ts[0] != Str("COMMIT")
    ensures ExecTokens(st, id, collations, ts).st.db.tables == st.db.tables
  {
    if ts != [] {
      Dispatch(st, id, collations, ts);
      var k, rest := ts[0], ts[1..];
      WriteLocksShape(st, id);
      if k == Str("INSERT") {
        InsertShape(st, id, rest);
      } else if k == Str("UPDATE") {
        UpdateShape(st, id, rest);
      } else if k == Str("DELETE") {
        DeleteShape(st, id, rest);
      } else if k == Str("SELECT") {
        SelectShape(st, id, collations, rest);
      } else if k == Str("DROP") {
        DropShape(st, rest);
      }
    }
  }

  lemma TransactionIsolated(st: State, id: int, collations: map<Value, Collation>, statement: string)
    requires InTransaction(st)
    requires var t := Lex(statement);
      t.Ok? && t.value != [] ==> t.value[0] != Str("CREATE") && t.value[0] != Str("COMMIT")
    ensures Exec(st, id, collations, statement).st.db.tables == st.db.tables
  {
    var t := Lex(statement);
    if t.Ok? && t.value != [] {
      TokensIsolated(st, id, collations, t.value[..|t.value| - 1]);
    }
  }

  /** Outside a transaction nothing but BEGIN opens one, and inside one
      nothing but COMMIT and ROLLBACK closes it. */
  lemma TransactionBoundaries(st: State, id: int, collations: map<Value, Collation>, ts: Tokens)
    ensures var o := ExecTokens(st, id, collations, ts);
      InTransaction(o.st) != InTransaction(st) ==>
        ts != [] && ts[0] in {Str("BEGIN"), Str("COMMIT"), Str("ROLLBACK")}
    ensures var o := ExecTokens(st, id, collations, ts);
      InTransaction(o.st) && !InTransaction(st) ==> o.st.session.temp == Some(o.st.db.tables)
  {
    if ts != [] {
      Dispatch(st, id, collations, ts);
      var k, rest := ts[0], ts[1..];
      WriteLocksShape(st, id);
      if k == Str("INSERT") {
        InsertShape(st, id, rest);
      } else if k == Str("UPDATE") {
        UpdateShape(st, id, rest);
      } else if k == Str("DELETE") {
        DeleteShape(st, id, rest);
      } else if k == Str("SELECT") {
        SelectShape(st, id, collations, rest);
      } else if k == Str("DROP") {
        DropShape(st, rest);
      } else if k == Str("CREATE") {
        CreateShape(st, rest);
      }
    }
  }

  /** A SELECT changes neither the tables nor the connection's own state;
      only its shared lock stays behind inside a transaction. */
  lemma SelectIsReadOnly(st: State, id: int, collations: map<Value, Collation>, ts: Tokens)
    ensures var o := ExecTokens(st, id, collations, [Str("SELECT")] + ts);
      o.st.db.tables == st.db.tables && o.st.session == st.session
      && (o.result.Ok? ==> o.st.db.locks.shared == if InTransaction(st) then st.db.locks.shared + {id} else st.db.locks.shared - {id})
  {
    assert ([Str("SELECT")] + ts)[1..] == ts;
    SelectShape(st, id, collations, ts);
  }

  // ---------------------------------------------------------------------
  // BEGIN, COMMIT, ROLLBACK

  /** BEGIN while a transaction is open raises without touching the tables
      or the connection's state, though a lock asked for by IMMEDIATE or
      EXCLUSIVE stays granted. */
  lemma NestedBeginFails(st: State, id: int, collations: map<Value, Collation>, mode: Value)
    requires InTransaction(st)
    ensures var o := ExecTokens(st, id, collations, [Str("BEGIN"), mode, Str("TRANSACTION")]);
      o.result.Err? && o.st.db.tables == st.db.tables && o.st.session == st.session
    ensures var o := ExecTokens(st, id, collations, [Str("BEGIN"), Str("TRANSACTION")]);
      o == Outcome(st, Err(Raised))
  {
  }

  /** BEGIN TRANSACTION outside a transaction opens one on a copy of the
      shared tables and takes no lock; IMMEDIATE also takes reserved and
      EXCLUSIVE exclusive, and each of those raises when refused. */
  lemma BeginOpens(st: State, id: int, collations: map<Value, Collation>)
    requires !InTransaction(st)
    ensures var o := ExecTokens(st, id, collations, [Str("BEGIN"), Str("TRANSACTION")]);
      o.result.Ok? && o.st.db == st.db && o.st.session.temp == Some(st.db.tables)
    ensures var o := ExecTokens(st, id, collations, [Str("BEGIN"), Str("IMMEDIATE"), Str("TRANSACTION")]);
      (o.result.Ok? <==> AddReserved(st.db.locks, id).Some?)
      && (o.result.Ok? ==> o.st.db.locks.reserved == Some(id) || o.st.db.locks.exclusive == Some(id))
    ensures var o := ExecTokens(st, id, collations, [Str("BEGIN"), Str("EXCLUSIVE"), Str("TRANSACTION")]);
      (o.result.Ok? <==> AddExclusive(st.db.locks, id).Some?)
      && (o.result.Ok? ==> o.st.db.locks.exclusive == Some(id))
  {
    assert [Str("IMMEDIATE"), Str("TRANSACTION")][1..] == [Str("TRANSACTION")];
    assert [Str("EXCLUSIVE"), Str("TRANSACTION")][1..] == [Str("TRANSACTION")];
  }

  /** COMMIT publishes the transaction's copy as the shared tables and
      leaves the connection holding no lock, others' reserved and exclusive
      locks as they were.  It raises exactly when the transaction wrote and
      exclusive is refused, and then nothing changes. */
  lemma CommitPublishes(st: State, id: int, collations: map<Value, Collation>)
    requires InTransaction(st)
    ensures var o := ExecTokens(st, id, collations, [Str("COMMIT"), Str("TRANSACTION")]);
      (o.result.Err? <==> st.session.needsExclusive && AddExclusive(st.db.locks, id).None?)
      && (o.result.Err? ==> o.st == st)
      && (o.result.Ok? ==>
            o.st.db.tables == st.session.temp.value && !InTransaction(o.st) && !o.st.session.needsExclusive
            && HoldsNothing(o.st.db.locks, id)
            && o.st.db.locks.shared == st.db.locks.shared - {id}
            && (HeldByOther(st.db.locks.reserved, id) ==> o.st.db.locks.reserved == st.db.locks.reserved))
  {
    CommitReleases(st.db.locks, id, st.session.needsExclusive);
  }

  /** ROLLBACK drops the transaction's copy, keeps the shared tables and
      leaves the connection holding no lock. */
  lemma RollbackDiscards(st: State, id: int, collations: map<Value, Collation>)
    requires InTransaction(st)
    ensures var o := ExecTokens(st, id, collations, [Str("ROLLBACK"), Str("TRANSACTION")]);
      o.result.Ok? && o.st.db.tables == st.db.tables && !InTransaction(o.st) && !o.st.session.needsExclusive
      && o.st.session.views == st.session.views
      && HoldsNothing(o.st.db.locks, id) && o.st.db.locks.shared == st.db.locks.shared - {id}
      && (HeldByOther(st.db.locks.exclusive, id) ==> o.st.db.locks.exclusive == st.db.locks.exclusive)
  {
    RollbackReleases(st.db.locks, id);
  }

  /** COMMIT and ROLLBACK with no transaction open raise and change nothing. */
  lemma IdleEndFails(st: State, id: int, collations: map<Value, Collation>, ts: Tokens)
    requires !InTransaction(st)
    ensures ExecTokens(st, id, collations, [Str("COMMIT")] + ts) == Outcome(st, Err(Raised))
    ensures ExecTokens(st, id, collations, [Str("ROLLBACK")] + ts) == Outcome(st, Err(Raised))
  {
    assert ([Str("COMMIT")] + ts)[1..] == ts;
    assert ([Str("ROLLBACK")] + ts)[1..] == ts;
  }

  /** A transaction that is opened and rolled back by a connection holding
      no lock leaves everything as it found it. */
  lemma {:induction false} BeginRollbackRestores(st: State, id: int, collations: map<Value, Collation>)
    requires !InTransaction(st) && Coherent(st) && HoldsNothing(st.db.locks, id)
    ensures var o1 := ExecTokens(st, id, collations, [Str("BEGIN"), Str("TRANSACTION")]);
      var o2 := ExecTokens(o1.st, id, collations, [Str("ROLLBACK"), Str("TRANSACTION")]);
      o1.result.Ok? && o2 == Outcome(st, Ok([]))
  {
    var o1 := ExecTokens(st, id, collations, [Str("BEGIN"), Str("TRANSACTION")]);
    assert o1.st == st.(session := st.session.(temp := Some(st.db.tables)));
    RollbackReleases(st.db.locks, id);
    assert Rollback(st.db.locks, id) == st.db.locks;
  }

  /** A table created inside a transaction goes to the shared tables at
      once, and is gone again after COMMIT when the copy lacks it. */
  lemma CreatedTableLostAtCommit(st: State, id: int, collations: map<Value, Collation>, ts: Tokens)
    requires InTransaction(st) && !st.session.needsExclusive
    requires ts != [] && ts[0] == Str("TABLE")
    requires ParseCreateTable(ts).Ok? && ParseCreateTable(ts).value.name !in st.session.temp.value
    ensures var o1 := ExecTokens(st, id, collations, [Str("CREATE")] + ts);
      var o2 := ExecTokens(o1.st, id, collations, [Str("COMMIT"), Str("TRANSACTION")]);
      var name := ParseCreateTable(ts).value.name;
      (o1.result.Ok? ==> name in o1.st.db.tables)
      && o2.result.Ok? && name !in o2.st.db.tables
  {
    var o1 := ExecTokens(st, id, collations, [Str("CREATE")] + ts);
    assert o1 == ExecCreate(st, ts) by {
      assert ([Str("CREATE")] + ts)[1..] == ts;
      Dispatch(st, id, collations, [Str("CREATE")] + ts);
    }
    CreateShape(st, ts);
    assert o1.result.Ok? ==> ParseCreateTable(ts).value.name in o1.st.db.tables;
    var end := [Str("COMMIT"), Str("TRANSACTION")];
    assert ExecTokens(o1.st, id, collations, end) == ExecCommit(o1.st, id, [Str("TRANSACTION")]) by {
      assert end[1..] == [Str("TRANSACTION")];
      Dispatch(o1.st, id, collations, end);
    }
  }

  // ---------------------------------------------------------------------
  // Writes

  /** An INSERT of one value list by a connection outside a transaction,
      with no lock held anywhere, appends the row the table builds from it
      and leaves no lock behind. */
  lemma AutocommitInsertAppends(st: State, id: int, collations: map<Value, Collation>, name: Value, items: seq<Value>)
    requires !InTransaction(st) && st.db.locks == NoLocks
    requires items != []
    requires name in st.db.tables && BuildRow(st.db.tables[name], items, []).Ok?
    ensures var o := ExecTokens(st, id, collations, [Str("INSERT")] + ([Str("INTO"), name, Str("VALUES")] + ([Str("(")] + ItemTokens(items))));
      o.result == Ok([]) && o.st.session == st.session && o.st.db.locks == NoLocks
      && o.st.db.tables.Keys == st.db.tables.Keys
      && o.st.db.tables[name].rows == st.db.tables[name].rows + [BuildRow(st.db.tables[name], items, []).value]
  {
    var lists := [Str("(")] + ItemTokens(items);
    var ts := [Str("INTO"), name, Str("VALUES")] + lists;
    assert ([Str("INSERT")] + ts)[1..] == ts;
    InsertValuesOutcome(st, id, name, items);
    Dispatch(st, id, collations, [Str("INSERT")] + ts);
  }

  lemma InsertValuesOutcome(st: State, id: int, name: Value, items: seq<Value>)
    requires !InTransaction(st) && st.db.locks == NoLocks
    requires items != [] && InsertSpec(st.db.tables, name, items, []).Ok?
    ensures ExecInsert(st, id, [Str("INTO"), name, Str("VALUES")] + ([Str("(")] + ItemTokens(items)))
         == Outcome(WithTarget(st, InsertSpec(st.db.tables, name, items, []).value), Ok([]))
  {
    assert WriteLocks(st, id) == (st, true);
    ParseValuesTarget(name, [Str("(")] + ItemTokens(items));
    InsertOneList(st.db.tables, name, [], items);
  }

  lemma ParseValuesTarget(name: Value, lists: Tokens)
    ensures ParseInsertTarget([Str("INTO"), name, Str("VALUES")] + lists) == Ok(ValuesInto(name, [], lists))
  {
    var ts := [Str("INTO"), name, Str("VALUES")] + lists;
    assert ts[1..][1..] == [Str("VALUES")] + lists;
    assert ([Str("VALUES")] + lists)[1..] == lists;
  }

  lemma InsertOneList(c: Catalog, name: Value, cols: seq<Col>, items: seq<Value>)
    requires items != [] && InsertSpec(c, name, items, cols).Ok?
    ensures InsertLists(c, name, cols, [Str("(")] + ItemTokens(items)) == (InsertSpec(c, name, items, cols).value, true)
  {
    ParseParenListRoundTrip(items, []);
    assert [Str("(")] + ItemTokens(items) + [] == [Str("(")] + ItemTokens(items);
  }

  /** Inside a transaction a write that is refused the reserved lock still
      marks the transaction as writing, so its COMMIT will ask for
      exclusive; the tables and the copy are untouched. */
  lemma RefusedWriteMarksTransaction(st: State, id: int, collations: map<Value, Collation>, k: Value, ts: Tokens)
    requires InTransaction(st) && Consistent(st.db.locks) && HeldByOther(st.db.locks.reserved, id)
    requires k in {Str("INSERT"), Str("UPDATE"), Str("DELETE")}
    ensures var o := ExecTokens(st, id, collations, [k] + ts);
      o.result.Err? && o.st.session.needsExclusive
      && o.st.db == st.db && o.st.session.temp == st.session.temp
  {
    assert ([k] + ts)[1..] == ts;
    AddReservedGrant(st.db.locks, id);
  }

  /** An INSERT, UPDATE or DELETE inside a transaction never changes the
      shared tables, whatever it does to the copy. */
  lemma WritesGoToCopy(st: State, id: int, collations: map<Value, Collation>, k: Value, ts: Tokens)
    requires InTransaction(st)
    requires k in {Str("INSERT"), Str("UPDATE"), Str("DELETE"), Str("DROP")}
    ensures var o := ExecTokens(st, id, collations, [k] + ts);
      o.st.db.tables == st.db.tables && InTransaction(o.st) && o.st.session.views == st.session.views
  {
    assert ([k] + ts)[1..] == ts;
    Dispatch(st, id, collations, [k] + ts);
    WriteLocksShape(st, id);
    if k == Str("INSERT") {
      InsertShape(st, id, ts);
    } else if k == Str("UPDATE") {
      UpdateShape(st, id, ts);
    } else if k == Str("DELETE") {
      DeleteShape(st, id, ts);
    } else {
      DropShape(st, ts);
    }
  }

  // ---------------------------------------------------------------------
  // Sequences of statements

  /** Running two batches one after the other is running them together;
      the second batch is skipped once a statement of the first raises. */
  lemma {:induction false} ExecAllAppend(st: State, id: int, collations: map<Value, Collation>, a: seq<string>, b: seq<string>)
    decreases |a|
    ensures var o := ExecAll(st, id, collations, a);
      ExecAll(st, id, collations, a + b) == (if o.result.Err? then o else ExecAll(o.st, id, collations, b))
  {
    if a == [] {
      assert a + b == b;
    } else {
      assert (a + b)[0] == a[0];
      assert (a + b)[1..] == a[1..] + b;
      var o := Exec(st, id, collations, a[0]);
      if o.result.Ok? {
        ExecAllAppend(o.st, id, collations, a[1..], b);
      }
    }
  }

  /** A batch that starts with a failing statement is that statement's
      outcome. */
  lemma ExecAllFirstFails(st: State, id: int, collations: map<Value, Collation>, s: string, b: seq<string>)
    requires Exec(st, id, collations, s).result.Err?
    ensures ExecAll(st, id, collations, [s] + b) == Exec(st, id, collations, s)
  {
    assert ([s] + b)[0] == s;
  }

  /** A batch stops at its first failing statement: what it returns is
      that statement's outcome. */
  lemma {:induction false} ExecAllStopsAtFailure(st: State, id: int, collations: map<Value, Collation>, a: seq<string>, s: string, b: seq<string>)
    requires ExecAll(st, id, collations, a).result.Ok?
    requires Exec(ExecAll(st, id, collations, a).st, id, collations, s).result.Err?
    ensures ExecAll(st, id, collations, a + [s] + b) == Exec(ExecAll(st, id, collations, a).st, id, collations, s)
  {
    var o := ExecAll(st, id, collations, a);
    var tail := [s] + b;
    AppendAssoc(a, [s], b);
    ExecAllAppend(st, id, collations, a, tail);
    ExecAllFirstFails(o.st, id, collations, s, b);
  }

  /** A statement without its final ";" raises and changes nothing. */
  lemma SemicolonRequired(st: State, id: int, collations: map<Value, Collation>, statement: string)
    requires Lex(statement).Ok?
    requires Lex(statement).value == [] || Lex(statement).value[|Lex(statement).value| - 1] != Str(";")
    ensures Exec(st, id, collations, statement) == Outcome(st, Err(Raised))
  {
  }
}
