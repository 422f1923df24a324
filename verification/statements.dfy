/** The statement builders of `Connection.execute`, after the keyword that
    chose them: CREATE TABLE, CREATE VIEW, INSERT, UPDATE, DELETE, SELECT
    and DROP.  Each reads what its statement names and leaves the database
    to the caller.  As in the source, tokens left after a complete UPDATE,
    DELETE, DROP or CREATE TABLE are ignored. */
module Statements {
  import opened Wrappers
  import opened Values
  import opened Columns
  import opened Tables
  import opened Sorting
  import opened Query
  import opened Parser

  /** What CREATE TABLE names. */
  datatype CreateTable = CreateTable(name: Value, pairs: seq<(Col, ColType)>, notexists: bool, defaults: map<Col, Value>)

  /** `create_table`, after CREATE. */
  function ParseCreateTable(ts: Tokens): (r: Result<CreateTable>)
    ensures r.Ok? ==> r.value.pairs != []
    ensures r.Ok? ==> forall i :: 0 <= i < |r.value.pairs| ==> r.value.pairs[i].0.table == r.value.name
    ensures r.Ok? ==> forall c :: c in r.value.defaults ==> c in Names(r.value.pairs)
    ensures r.Ok? ==> (r.value.notexists <==> |ts| >= 2 && ts[1] == Str("IF"))
  {
    var r1 :- Expect(ts, "TABLE");
    var notexists :- FirstIs(r1, "IF");
    var r2 :- if notexists then
        (var b :- Expect(r1[1..], "NOT");
         Expect(b, "EXISTS"))
      else Ok(r1);
    var (name, r3) :- Pop(r2);
    var r4 :- Expect(r3, "(");
    var (pairs, defaults, _) :- ParseColumnDefs(r4, name);
    Ok(CreateTable(name, pairs, notexists, defaults))
  }

  /** `create_view`, after CREATE: the tokens after AS are kept as the
      view's query. */
  function ParseCreateView(ts: Tokens): (r: Result<(Value, Tokens)>)
    ensures r.Ok? <==> |ts| >= 3 && ts[0] == Str("VIEW") && ts[2] == Str("AS")
    ensures r.Ok? ==> r.value == (ts[1], ts[3..])
  {
    var r1 :- Expect(ts, "VIEW");
    var (name, r2) :- Pop(r1);
    var r3 :- Expect(r2, "AS");
    assert r3 == ts[3..];
    Ok((name, r3))
  }

  /** The target of an INSERT: DEFAULT VALUES, or the listed columns (none
      listed: all, in order) and the tokens of the value lists. */
  datatype InsertTarget =
    | DefaultRowInto(table: Value)
    | ValuesInto(table: Value, cols: seq<Col>, lists: Tokens)

  /** Column names written after INSERT INTO t, qualified with `t`. */
  function QualifyNames(names: seq<Value>, table: Value): (cs: seq<Col>)
    ensures |cs| == |names|
    ensures forall i :: 0 <= i < |names| ==> cs[i] == Col(names[i], table)
  {
    seq(|names|, i requires 0 <= i < |names| => Col(names[i], table))
  }

  /** `insert`, after INSERT and its locks, up to the value lists. */
  function ParseInsertTarget(ts: Tokens): (r: Result<InsertTarget>)
    ensures r.Ok? && r.value.ValuesInto? ==> |r.value.lists| < |ts|
  {
    var r1 :- Expect(ts, "INTO");
    var (name, r2) :- Pop(r1);
    var isDefault :- FirstIs(r2, "DEFAULT");
    if isDefault then
      var r3 :- Expect(r2, "DEFAULT");
      var r4 :- Expect(r3, "VALUES");
      Ok(DefaultRowInto(name))
    else
      var (cols, r3) :- if r2[0] == Str("(") then
          (var (names, r) :- ParseParenList(r2);
           Ok((QualifyNames(names, name), r)))
        else Ok(([], r2));
      var r4 :- Expect(r3, "VALUES");
      Ok(ValuesInto(name, cols, r4))
  }

  /** What UPDATE names. */
  datatype Update = Update(table: Value, clauses: seq<UpdateClause>, w: Option<WhereClause>)

  /** `update`, after UPDATE and its locks. */
  function ParseUpdate(ts: Tokens): (r: Result<Update>)
    ensures r.Ok? ==> |ts| >= 2 && r.value.table == ts[0] && ts[1] == Str("SET")
    ensures r.Ok? && !Falsy(r.value.table) ==>
      (forall i :: 0 <= i < |r.value.clauses| ==> !Falsy(r.value.clauses[i].col.table))
      && (r.value.w.Some? ==> !Falsy(r.value.w.value.col.table))
  {
    var (name, r1) :- Pop(ts);
    var r2 :- Expect(r1, "SET");
    var (clauses, r3) :- ParseSetClauses(r2, name);
    var (w, _) :- ParseWhere(r3, name);
    Ok(Update(name, clauses, w))
  }

  /** `delete`, after DELETE and its locks: the table and the predicate. */
  function ParseDelete(ts: Tokens): (r: Result<(Value, Option<WhereClause>)>)
    ensures r.Ok? ==> |ts| >= 2 && ts[0] == Str("FROM") && r.value.0 == ts[1]
    ensures r.Ok? && |ts| == 2 ==> r.value.1.None?
  {
    var r1 :- Expect(ts, "FROM");
    var (name, r2) :- Pop(r1);
    var (w, _) :- ParseWhere(r2, name);
    Ok((name, w))
  }

  /** `drop`, after DROP: the table and IF EXISTS. */
  function ParseDrop(ts: Tokens): (r: Result<(Value, bool)>)
    ensures |ts| >= 2 && ts[0] == Str("TABLE") && ts[1] != Str("IF") ==> r == Ok((ts[1], false))
    ensures |ts| >= 4 && ts[0] == Str("TABLE") && ts[1] == Str("IF") && ts[2] == Str("EXISTS") ==> r == Ok((ts[3], true))
    ensures r.Ok? ==> |ts| >= 2 && ts[0] == Str("TABLE")
  {
    var r1 :- Expect(ts, "TABLE");
    var ifexists :- FirstIs(r1, "IF");
    var r2 :- if ifexists then
        Expect(r1[1..], "EXISTS")
      else Ok(r1);
    var (name, _) :- Pop(r2);
    Ok((name, ifexists))
  }

  /** What a SELECT asks for. */
  datatype Select = Select(distinct: bool, output: seq<Col>, aggs: seq<Aggregate>, from: FromJoin,
                           w: Option<WhereClause>, keys: seq<OrderKey>)

  /** The table a FROM clause names first: the one WHERE columns default to. */
  function LeftName(from: FromJoin): Value
  {
    match from
    case From(t) => t
    case LeftJoin(l, _, _, _) => l
  }

  /** `select`, after SELECT and its lock: DISTINCT, the projection, FROM
      (a view name stops here), WHERE, and ORDER BY, which is required. */
  function ParseSelect(ts: Tokens, views: set<Value>, collations: map<Value, Collation>): (r: Result<Select>)
    ensures r.Ok? ==> |r.value.output| == |r.value.aggs| && r.value.output != [] && r.value.keys != []
    ensures r.Ok? ==> ts != [] && (r.value.distinct <==> ts[0] == Str("DISTINCT"))
  {
    var distinct :- FirstIs(ts, "DISTINCT");
    var r1 := if distinct then ts[1..] else ts;
    var (output, aggs, r2) :- ParseProjection(r1);
    if r2 == [] then Err(Raised)
    else if r2[0] in views then Err(ViewNotModelled)
    else
      var (from, r3) :- ParseFromJoin(r2);
      var (w, r4) :- ParseWhere(r3, LeftName(from));
      var r5 :- Expect(r4, "ORDER");
      var r6 :- Expect(r5, "BY");
      var keys :- ParseOrderBy(r6, collations);
      Ok(Select(distinct, output, aggs, from, w, keys))
  }

  /** The tokens of an optional WHERE clause. */
  function WhereTokens(w: Option<WhereClause>): Tokens
  {
    if w.None? then [] else [Str("WHERE")] + ColumnTokens(w.value.col) + OpTokens(w.value.op) + [w.value.constant]
  }

  /** What the WHERE parser reads back. */
  predicate Readable(w: Option<WhereClause>)
  {
    w.Some? ==> WellFormed(w.value) && Spellable(w.value.op) && !Falsy(w.value.col.table)
                && (!w.value.op.WithNot? && w.value.op != IsNot ==> w.value.constant != Str("NOT"))
  }

  /** Reading the spelling of an optional WHERE clause gives it back. */
  lemma ParseWhereTokens(w: Option<WhereClause>, table: Value)
    requires Readable(w)
    ensures ParseWhere(WhereTokens(w), table) == Ok((w, []))
  {
    if w.Some? {
      var wt := WhereTokens(w);
      assert wt == [Str("WHERE")] + ColumnTokens(w.value.col) + OpTokens(w.value.op) + [w.value.constant] + [];
      ParseWhereRoundTrip(w.value, table, []);
    }
  }

  /** Reading the spelling of an UPDATE gives back its table, clauses and
      predicate, when every column is qualified. */
  lemma ParseUpdateRoundTrip(u: Update)
    requires u.clauses != [] && forall i :: 0 <= i < |u.clauses| ==> !Falsy(u.clauses[i].col.table)
    requires Readable(u.w)
    ensures ParseUpdate([u.table, Str("SET")] + SetTokens(u.clauses) + WhereTokens(u.w)) == Ok(u)
  {
    var wt := WhereTokens(u.w);
    var body := SetTokens(u.clauses) + wt;
    var ts := [u.table, Str("SET")] + SetTokens(u.clauses) + wt;
    assert ts == [u.table] + ([Str("SET")] + body);
    assert Pop(ts) == Ok((u.table, [Str("SET")] + body));
    assert Expect([Str("SET")] + body, "SET") == Ok(body);
    assert ParseSetClauses(body, u.table) == Ok((u.clauses, wt)) by {
      ParseSetClausesRoundTrip(u.clauses, u.table, wt);
    }
    ParseWhereTokens(u.w, u.table);
  }

  /** Reading the spelling of a DELETE gives back its table and predicate,
      when the predicate's column is qualified. */
  lemma ParseDeleteRoundTrip(table: Value, w: Option<WhereClause>)
    requires Readable(w)
    ensures ParseDelete([Str("FROM"), table] + WhereTokens(w)) == Ok((table, w))
  {
    var wt := WhereTokens(w);
    var ts := [Str("FROM"), table] + wt;
    assert ts[1..][1..] == wt;
    if w.Some? {
      assert wt == [Str("WHERE")] + ColumnTokens(w.value.col) + OpTokens(w.value.op) + [w.value.constant] + [];
      ParseWhereRoundTrip(w.value, table, []);
    }
  }

  /** The tokens of CREATE TABLE after CREATE. */
  function CreateTableTokens(name: Value, defs: seq<ColumnDef>, notexists: bool): Tokens
    requires defs != []
  {
    [Str("TABLE")] + (if notexists then [Str("IF"), Str("NOT"), Str("EXISTS")] else [])
    + ([name, Str("(")] + DefsTokens(defs))
  }

  /** Reading the spelling of a CREATE TABLE gives back the table's name,
      IF NOT EXISTS, the columns with their types qualified with the table,
      and the defaults.  A table named IF needs IF NOT EXISTS before it. */
  lemma ParseCreateTableRoundTrip(name: Value, defs: seq<ColumnDef>, notexists: bool, rest: Tokens)
    requires defs != [] && (!notexists ==> name != Str("IF"))
    ensures ParseCreateTable(CreateTableTokens(name, defs, notexists) + rest)
      == Ok(CreateTable(name, DefPairs(defs, name), notexists, DefDefaults(defs, name)))
  {
    var ie: Tokens := if notexists then [Str("IF"), Str("NOT"), Str("EXISTS")] else [];
    var body := DefsTokens(defs) + rest;
    var r2 := [name] + ([Str("(")] + body);
    var r1 := ie + r2;
    var ts := CreateTableTokens(name, defs, notexists) + rest;
    CreateTableTokensSplit(name, defs, notexists, rest);
    assert Expect(ts, "TABLE") == Ok(r1) by {
      ExpectCons("TABLE", r1);
    }
    assert FirstIs(r1, "IF") == Ok(notexists);
    if notexists {
      assert r1[1..] == [Str("NOT")] + ([Str("EXISTS")] + r2);
      ExpectCons("NOT", [Str("EXISTS")] + r2);
      ExpectCons("EXISTS", r2);
    } else {
      assert r1 == r2;
    }
    CreateTableBody(name, defs, rest);
  }

  lemma CreateTableTokensSplit(name: Value, defs: seq<ColumnDef>, notexists: bool, rest: Tokens)
    requires defs != []
    ensures var ie: Tokens := if notexists then [Str("IF"), Str("NOT"), Str("EXISTS")] else [];
      CreateTableTokens(name, defs, notexists) + rest
      == [Str("TABLE")] + (ie + ([name] + ([Str("(")] + (DefsTokens(defs) + rest))))
  {
    var ie: Tokens := if notexists then [Str("IF"), Str("NOT"), Str("EXISTS")] else [];
    var r2 := [name] + ([Str("(")] + (DefsTokens(defs) + rest));
    AppendAssoc([name, Str("(")], DefsTokens(defs), rest);
    AppendAssoc([Str("TABLE")] + ie, [name, Str("(")] + DefsTokens(defs), rest);
    AppendAssoc([Str("TABLE")], ie, r2);
  }

  /** The part of CREATE TABLE from the table's name on. */
  lemma CreateTableBody(name: Value, defs: seq<ColumnDef>, rest: Tokens)
    requires defs != []
    ensures var body := DefsTokens(defs) + rest;
      Pop([name] + ([Str("(")] + body)) == Ok((name, [Str("(")] + body))
      && Expect([Str("(")] + body, "(") == Ok(body)
      && ParseColumnDefs(body, name) == Ok((DefPairs(defs, name), DefDefaults(defs, name), rest))
  {
    var body := DefsTokens(defs) + rest;
    PopCons(name, [Str("(")] + body);
    ExpectCons("(", body);
    ParseColumnDefsRoundTrip(defs, name, rest);
  }

  /** The tokens of INSERT after INSERT, up to the value lists: INTO, the
      table, the column names in parentheses when there are any, VALUES. */
  function InsertValuesTokens(name: Value, names: seq<Value>): Tokens
  {
    [Str("INTO"), name] + (if names == [] then [] else [Str("(")] + ItemTokens(names)) + [Str("VALUES")]
  }

  /** Reading INSERT INTO t [(c, ...)] VALUES gives back the table, the
      named columns qualified with it (none when no list is written) and
      the tokens of the value lists. */
  lemma ParseInsertValuesRoundTrip(name: Value, names: seq<Value>, lists: Tokens)
    requires names != [] ==> names[0] != Str("DEFAULT")
    ensures ParseInsertTarget(InsertValuesTokens(name, names) + lists) == Ok(ValuesInto(name, QualifyNames(names, name), lists))
  {
    var cl: Tokens := if names == [] then [] else [Str("(")] + ItemTokens(names);
    var r3 := [Str("VALUES")] + lists;
    var r2 := cl + r3;
    assert InsertValuesTokens(name, names) + lists == [Str("INTO")] + ([name] + r2) by {
      AppendAssoc([Str("INTO"), name] + cl, [Str("VALUES")], lists);
      AppendAssoc([Str("INTO"), name], cl, r3);
    }
    ExpectCons("INTO", [name] + r2);
    PopCons(name, r2);
    if names != [] {
      assert r2[0] == Str("(");
      assert r2 == [Str("(")] + ItemTokens(names) + r3;
      ParseParenListRoundTrip(names, r3);
    } else {
      assert r2 == r3;
      assert QualifyNames(names, name) == [];
    }
    ExpectCons("VALUES", lists);
  }

  /** Reading INSERT INTO t DEFAULT VALUES gives back the table. */
  lemma ParseInsertDefaultRoundTrip(name: Value, rest: Tokens)
    ensures ParseInsertTarget([Str("INTO"), name, Str("DEFAULT"), Str("VALUES")] + rest) == Ok(DefaultRowInto(name))
  {
    var r2 := [Str("DEFAULT")] + ([Str("VALUES")] + rest);
    assert [Str("INTO"), name, Str("DEFAULT"), Str("VALUES")] + rest == [Str("INTO")] + ([name] + r2);
    ExpectCons("INTO", [name] + r2);
    PopCons(name, r2);
    ExpectCons("DEFAULT", [Str("VALUES")] + rest);
    ExpectCons("VALUES", rest);
  }

  /** The tokens of a SELECT after SELECT. */
  function SelectTokens(distinct: bool, cols: seq<Col>, aggs: seq<Aggregate>, from: FromJoin,
                        w: Option<WhereClause>, ks: seq<KeySpelling>): Tokens
    requires |cols| == |aggs| && cols != [] && ks != []
  {
    (if distinct then [Str("DISTINCT")] else [])
    + (ProjectionTokens(cols, aggs) + (FromTokens(from) + (WhereTokens(w) + ([Str("ORDER"), Str("BY")] + OrderTokens(ks)))))
  }

  /** What follows FROM, read back: the FROM clause, the WHERE clause with
      the left table in scope, and the ORDER BY keys. */
  lemma ParseSelectTail(from: FromJoin, w: Option<WhereClause>, ks: seq<KeySpelling>, collations: map<Value, Collation>)
    requires ks != [] && Registered(ks, collations) && Readable(w)
    ensures var r3 := WhereTokens(w) + ([Str("ORDER"), Str("BY")] + OrderTokens(ks));
      ParseFromJoin(FromTokens(from) + r3) == Ok((from, r3))
      && ParseWhere(r3, LeftName(from)) == Ok((w, [Str("ORDER"), Str("BY")] + OrderTokens(ks)))
      && Expect([Str("ORDER"), Str("BY")] + OrderTokens(ks), "ORDER") == Ok([Str("BY")] + OrderTokens(ks))
      && Expect([Str("BY")] + OrderTokens(ks), "BY") == Ok(OrderTokens(ks))
      && ParseOrderBy(OrderTokens(ks), collations) == Ok(KeysOf(ks, collations))
  {
    var r4 := [Str("ORDER"), Str("BY")] + OrderTokens(ks);
    SelectFromPart(from, WhereTokens(w) + r4, w, r4);
    SelectWherePart(w, LeftName(from), r4);
    SelectOrderPart(ks, collations);
  }

  lemma SelectFromPart(from: FromJoin, r3: Tokens, w: Option<WhereClause>, r4: Tokens)
    requires r4 != [] && r4[0] == Str("ORDER") && r3 == WhereTokens(w) + r4
    ensures ParseFromJoin(FromTokens(from) + r3) == Ok((from, r3))
  {
    assert r3 != [] && r3[0] != Str("LEFT") && r3[0] != Str(".") by {
      if w.Some? {
        assert r3[0] == Str("WHERE");
      } else {
        assert r3 == r4;
      }
    }
    ParseFromJoinRoundTrip(from, r3);
  }

  lemma SelectWherePart(w: Option<WhereClause>, table: Value, r4: Tokens)
    requires Readable(w) && r4 != [] && r4[0] == Str("ORDER")
    ensures ParseWhere(WhereTokens(w) + r4, table) == Ok((w, r4))
  {
    if w.Some? {
      assert WhereTokens(w) + r4 == [Str("WHERE")] + ColumnTokens(w.value.col) + OpTokens(w.value.op) + [w.value.constant] + r4;
      ParseWhereRoundTrip(w.value, table, r4);
    } else {
      assert WhereTokens(w) + r4 == r4;
    }
  }

  lemma SelectOrderPart(ks: seq<KeySpelling>, collations: map<Value, Collation>)
    requires ks != [] && Registered(ks, collations)
    ensures Expect([Str("ORDER"), Str("BY")] + OrderTokens(ks), "ORDER") == Ok([Str("BY")] + OrderTokens(ks))
    ensures Expect([Str("BY")] + OrderTokens(ks), "BY") == Ok(OrderTokens(ks))
    ensures ParseOrderBy(OrderTokens(ks), collations) == Ok(KeysOf(ks, collations))
  {
    assert [Str("ORDER"), Str("BY")] + OrderTokens(ks) == [Str("ORDER")] + ([Str("BY")] + OrderTokens(ks));
    ExpectCons("ORDER", [Str("BY")] + OrderTokens(ks));
    ExpectCons("BY", OrderTokens(ks));
    ParseOrderByRoundTrip(ks, collations);
  }

  /** Reading the spelling of a SELECT gives back DISTINCT, the output
      columns with their min/max markers, the FROM clause, the WHERE clause
      and the ORDER BY keys with their registered collations.  The table
      named first must not be a view, and without DISTINCT the first output
      token must not read DISTINCT. */
  lemma ParseSelectRoundTrip(distinct: bool, cols: seq<Col>, aggs: seq<Aggregate>, from: FromJoin,
                             w: Option<WhereClause>, ks: seq<KeySpelling>,
                             views: set<Value>, collations: map<Value, Collation>)
    requires |cols| == |aggs| && cols != [] && ks != []
    requires forall i :: 0 <= i < |cols| ==> Projectable(cols[i], aggs[i])
    requires !distinct ==> OutputTokens(cols[0], aggs[0])[0] != Str("DISTINCT")
    requires LeftName(from) !in views && Registered(ks, collations) && Readable(w)
    ensures ParseSelect(SelectTokens(distinct, cols, aggs, from, w, ks), views, collations)
      == Ok(Select(distinct, cols, aggs, from, w, KeysOf(ks, collations)))
  {
    var r3 := WhereTokens(w) + ([Str("ORDER"), Str("BY")] + OrderTokens(ks));
    var r2 := FromTokens(from) + r3;
    var r1 := ProjectionTokens(cols, aggs) + r2;
    var ts := SelectTokens(distinct, cols, aggs, from, w, ks);
    assert ParseProjection(r1) == Ok((cols, aggs, r2)) by {
      ParseProjectionRoundTrip(cols, aggs, r2);
    }
    assert r2 != [] && r2[0] == LeftName(from);
    ParseSelectTail(from, w, ks, collations);
    if distinct {
      assert ts == [Str("DISTINCT")] + r1;
      assert ts[1..] == r1;
    } else {
      assert ts == r1;
      assert r1[0] == OutputTokens(cols[0], aggs[0])[0] by {
        assert ProjectionTokens(cols, aggs)[0] == OutputTokens(cols[0], aggs[0])[0];
      }
    }
  }
}
