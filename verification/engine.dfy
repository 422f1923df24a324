/** What one statement does, as `Connection.execute` runs it: to the shared
    database (its tables and locks) and to the connection's own state (the
    transaction's private copy of the tables, whether the transaction wrote,
    and the views it defined).  A statement that raises part-way keeps the
    effects of the steps that ran before the raise, as the source does. */
module Engine {
  import opened Wrappers
  import opened Values
  import opened Columns
  import opened Tables
  import opened Sorting
  import opened Query
  import opened Locks
  import opened Tokenizer
  import opened Parser
  import opened Statements
  import opened Storage

  /** The rows a statement returns. */
  type Rows = seq<seq<Value>>

  /** The parts of the shared Database a statement reads and writes. */
  datatype Db = Db(tables: Catalog, locks: LockState)

  /** A connection's own state.  `temp` is the private copy of the tables
      a transaction works on; it is present exactly while a transaction is
      open. */
  datatype Session = Session(temp: Option<Catalog>, needsExclusive: bool, views: map<Value, Tokens>)

  datatype State = State(db: Db, session: Session)

  /** The state after a statement, and what it returned or that it raised. */
  datatype Outcome = Outcome(st: State, result: Result<Rows>)

  predicate InTransaction(st: State)
  {
    st.session.temp.Some?
  }

  /** A connection only marks a transaction as writing while one is open. */
  predicate Coherent(st: State)
  {
    st.session.needsExclusive ==> InTransaction(st)
  }

  function Fail(st: State): Outcome
  {
    Outcome(st, Err(Raised))
  }

  function Done(st: State): Outcome
  {
    Outcome(st, Ok([]))
  }

  function Status(ok: bool): Result<Rows>
  {
    if ok then Ok([]) else Err(Raised)
  }

  /** The tables INSERT, UPDATE, DELETE, DROP and SELECT work on: the
      transaction's copy while one is open, the shared tables otherwise. */
  function Target(st: State): Catalog
  {
    if st.session.temp.Some? then st.session.temp.value else st.db.tables
  }

  function WithTarget(st: State, c: Catalog): (r: State)
    ensures Target(r) == c && r.db.locks == st.db.locks
    ensures r.session.needsExclusive == st.session.needsExclusive && r.session.views == st.session.views
    ensures InTransaction(r) == InTransaction(st)
    ensures InTransaction(st) ==> r.db.tables == st.db.tables
    ensures !InTransaction(st) ==> r.session == st.session
  {
    if st.session.temp.Some? then st.(session := st.session.(temp := Some(c)))
    else st.(db := st.db.(tables := c))
  }

  function WithLocks(st: State, l: LockState): State
  {
    st.(db := st.db.(locks := l))
  }

  // ---------------------------------------------------------------------
  // Transactions

  /** `begin`, after BEGIN: DEFERRED takes no lock, IMMEDIATE reserved and
      EXCLUSIVE exclusive; the lock is taken before TRANSACTION is checked
      and before the check that no transaction is open. */
  function ExecBegin(st: State, id: int, ts: Tokens): Outcome
  {
    if ts == [] then Fail(st)
    else
      var mode := ts[0];
      var granted :=
        if mode == Str("IMMEDIATE") then AddReserved(st.db.locks, id)
        else if mode == Str("EXCLUSIVE") then AddExclusive(st.db.locks, id)
        else Some(st.db.locks);
      if granted.None? then Fail(st)
      else
        var st1 := WithLocks(st, granted.value);
        var r1 := if mode in {Str("DEFERRED"), Str("IMMEDIATE"), Str("EXCLUSIVE")} then ts[1..] else ts;
        if Expect(r1, "TRANSACTION").Err? || InTransaction(st1) then Fail(st1)
        else Done(st1.(session := st1.session.(temp := Some(st1.db.tables))))
  }

  /** `commit`, after COMMIT: the locks are released (after an upgrade to
      exclusive when the transaction wrote) and the copy replaces the
      shared tables. */
  function ExecCommit(st: State, id: int, ts: Tokens): Outcome
  {
    if Expect(ts, "TRANSACTION").Err? || !InTransaction(st) then Fail(st)
    else
      var l := Commit(st.db.locks, id, st.session.needsExclusive);
      if l.None? then Fail(st)
      else Done(State(Db(st.session.temp.value, l.value), st.session.(temp := None, needsExclusive := false)))
  }

  /** `rollback`, after ROLLBACK: the copy is dropped and the locks released. */
  function ExecRollback(st: State, id: int, ts: Tokens): Outcome
  {
    if !InTransaction(st) || Expect(ts, "TRANSACTION").Err? then Fail(st)
    else Done(State(st.db.(locks := Rollback(st.db.locks, id)), st.session.(temp := None, needsExclusive := false)))
  }

  // ---------------------------------------------------------------------
  // Definitions

  /** `create`, after CREATE.  A table is always created in the shared
      tables, even inside a transaction; a view is kept by the connection. */
  function ExecCreate(st: State, ts: Tokens): Outcome
  {
    if ts == [] then Fail(st)
    else if ts[0] == Str("TABLE") then
      var parsed := ParseCreateTable(ts);
      if parsed.Err? then Outcome(st, Err(parsed.error))
      else
        var c := parsed.value;
        var created := CreateTableSpec(st.db.tables, c.name, c.pairs, c.notexists, c.defaults);
        if created.Err? then Fail(st)
        else Done(st.(db := st.db.(tables := created.value)))
    else
      var parsed := ParseCreateView(ts);
      if parsed.Err? then Outcome(st, Err(parsed.error))
      else Done(st.(session := st.session.(views := st.session.views[parsed.value.0 := parsed.value.1])))
  }

  /** `drop`, after DROP. */
  function ExecDrop(st: State, ts: Tokens): Outcome
  {
    var parsed := ParseDrop(ts);
    if parsed.Err? then Outcome(st, Err(parsed.error))
    else
      var dropped := DropSpec(Target(st), parsed.value.0, parsed.value.1);
      if dropped.Err? then Fail(st)
      else Done(WithTarget(st, dropped.value))
  }

  // ---------------------------------------------------------------------
  // Writes

  /** The locks INSERT, UPDATE and DELETE take before reading further.  In
      a transaction the transaction is marked as writing, then reserved is
      asked for; outside one, the autocommit sequence.  The state after the
      steps that ran, and whether all were granted. */
  function WriteLocks(st: State, id: int): (State, bool)
  {
    if InTransaction(st) then
      var st1 := st.(session := st.session.(needsExclusive := true));
      var r := AddReserved(st.db.locks, id);
      if r.None? then (st1, false) else (WithLocks(st1, r.value), true)
    else
      var (l, ok) := AutocommitWrite(st.db.locks, id);
      (WithLocks(st, l), ok)
  }

  /** The VALUES loop of `insert`: each list is read and inserted in turn,
      so the lists before a failing one stay inserted.  The check that a
      list is as long as the named columns is also made by the row builder,
      with the same outcome. */
  function InsertLists(c: Catalog, name: Value, cols: seq<Col>, ts: Tokens): (r: (Catalog, bool))
    decreases |ts|
    ensures r.0.Keys == c.Keys
  {
    if ts == [] then (c, true)
    else
      var list := ParseParenList(ts);
      if list.Err? then (c, false)
      else
        var (items, rest) := list.value;
        var c1 := InsertSpec(c, name, items, cols);
        if c1.Err? then (c, false)
        else if rest == [] then (c1.value, true)
        else if !StartsWith(rest, ",") then (c1.value, false)
        else InsertLists(c1.value, name, cols, rest[1..])
  }

  /** The spelling of value lists: each in parentheses, separated by
      commas. */
  function ListsTokens(lists: seq<seq<Value>>): Tokens
    requires forall i :: 0 <= i < |lists| ==> lists[i] != []
    decreases |lists|
  {
    if lists == [] then []
    else
      [Str("(")] + ItemTokens(lists[0])
      + if |lists| == 1 then [] else [Str(",")] + ListsTokens(lists[1..])
  }

  /** Reading spelled-out value lists inserts them one after another, as
      `InsertAll` does on the lists themselves: all of them, or those
      before the first one that does not fit. */
  lemma {:induction false} InsertListsRoundTrip(c: Catalog, name: Value, cols: seq<Col>, lists: seq<seq<Value>>)
    requires forall i :: 0 <= i < |lists| ==> lists[i] != []
    ensures InsertLists(c, name, cols, ListsTokens(lists)) == InsertAll(c, name, cols, lists)
    decreases |lists|
  {
    if lists != [] {
      var tail: Tokens := if |lists| == 1 then [] else [Str(",")] + ListsTokens(lists[1..]);
      assert ListsTokens(lists) == [Str("(")] + ItemTokens(lists[0]) + tail;
      ParseParenListRoundTrip(lists[0], tail);
      var c1 := InsertSpec(c, name, lists[0], cols);
      if c1.Ok? && |lists| > 1 {
        assert tail[1..] == ListsTokens(lists[1..]);
        InsertListsRoundTrip(c1.value, name, cols, lists[1..]);
      }
    }
  }

  /** `insert`, after INSERT. */
  function ExecInsert(st: State, id: int, ts: Tokens): Outcome
  {
    var (st1, granted) := WriteLocks(st, id);
    if !granted then Fail(st1)
    else
      var target := ParseInsertTarget(ts);
      if target.Err? then Outcome(st1, Err(target.error))
      else match target.value
        case DefaultRowInto(name) =>
          var c := InsertDefaultSpec(Target(st1), name);
          if c.Err? then Fail(st1) else Done(WithTarget(st1, c.value))
        case ValuesInto(name, cols, lists) =>
          var (c, ok) := InsertLists(Target(st1), name, cols, lists);
          Outcome(WithTarget(st1, c), Status(ok))
  }

  /** `update`, after UPDATE. */
  function ExecUpdate(st: State, id: int, ts: Tokens): Outcome
  {
    var (st1, granted) := WriteLocks(st, id);
    if !granted then Fail(st1)
    else
      var u := ParseUpdate(ts);
      if u.Err? then Outcome(st1, Err(u.error))
      else
        var (c, ok) := UpdateSpec(Target(st1), u.value.table, u.value.clauses, u.value.w);
        Outcome(WithTarget(st1, c), Status(ok))
  }

  /** `delete`, after DELETE. */
  function ExecDelete(st: State, id: int, ts: Tokens): Outcome
  {
    var (st1, granted) := WriteLocks(st, id);
    if !granted then Fail(st1)
    else
      var d := ParseDelete(ts);
      if d.Err? then Outcome(st1, Err(d.error))
      else
        var c := DeleteSpec(Target(st1), d.value.0, d.value.1);
        if c.Err? then Fail(st1) else Done(WithTarget(st1, c.value))
  }

  // ---------------------------------------------------------------------
  // Reads

  /** The lock a SELECT takes: in a transaction a shared lock that is kept,
      outside one a shared lock taken and dropped. */
  function ReadLocks(st: State, id: int): Option<LockState>
  {
    if InTransaction(st) then AddShared(st.db.locks, id)
    else
      var (l, ok) := AutocommitRead(st.db.locks, id);
      if ok then Some(l) else None
  }

  /** `select`, after SELECT: the rows, aggregated when a min or max was
      asked for. */
  function ExecSelect(st: State, id: int, collations: map<Value, Collation>, ts: Tokens): Outcome
  {
    var l := ReadLocks(st, id);
    if l.None? then Fail(st)
    else
      var st1 := WithLocks(st, l.value);
      var q := ParseSelect(ts, st.session.views.Keys, collations);
      if q.Err? then Outcome(st1, Err(q.error))
      else
        var s := q.value;
        var rows := DbSelect(Target(st1), s.from, s.output, s.keys, s.w, s.distinct);
        Outcome(st1, if rows.Err? then Err(rows.error) else AggregateSpec(rows.value, s.aggs))
  }

  // ---------------------------------------------------------------------
  // Dispatch

  /** The dispatch of `execute` on the first token, the statement's final
      ";" already removed.  The builder's own check of that first token
      always passes, so each builder is given the tokens after it. */
  function ExecTokens(st: State, id: int, collations: map<Value, Collation>, ts: Tokens): Outcome
  {
    if ts == [] then Fail(st)
    else
      var k := ts[0];
      var rest := ts[1..];
      if k == Str("CREATE") then ExecCreate(st, rest)
      else if k == Str("INSERT") then ExecInsert(st, id, rest)
      else if k == Str("UPDATE") then ExecUpdate(st, id, rest)
      else if k == Str("DELETE") then ExecDelete(st, id, rest)
      else if k == Str("SELECT") then ExecSelect(st, id, collations, rest)
      else if k == Str("DROP") then ExecDrop(st, rest)
      else if k == Str("ROLLBACK") then ExecRollback(st, id, rest)
      else if k == Str("BEGIN") then ExecBegin(st, id, rest)
      else if k == Str("COMMIT") then ExecCommit(st, id, rest)
      else Fail(st)
  }

  /** `Connection.execute`: tokenize, remove the final ";" (which must be
      there), dispatch. */
  function Exec(st: State, id: int, collations: map<Value, Collation>, statement: string): Outcome
  {
    var tokens := Lex(statement);
    if tokens.Err? then Outcome(st, Err(tokens.error))
    else if tokens.value == [] || tokens.value[|tokens.value| - 1] != Str(";") then Fail(st)
    else ExecTokens(st, id, collations, tokens.value[..|tokens.value| - 1])
  }

  /** Statements run one after another until one raises; when none does,
      nothing is returned. */
  function ExecAll(st: State, id: int, collations: map<Value, Collation>, statements: seq<string>): (o: Outcome)
    ensures o.result.Ok? ==> o.result.value == []
    ensures statements == [] ==> o == Done(st)
    decreases |statements|
  {
    if statements == [] then Done(st)
    else
      var o := Exec(st, id, collations, statements[0]);
      if o.result.Err? then o else ExecAll(o.st, id, collations, statements[1..])
  }
}
