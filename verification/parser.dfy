/** The clause builders of `Connection.execute`.  The source pops tokens
    from the front of one shared list; here each builder takes the tokens
    and returns what it built with the tokens it left, or fails where the
    source raises (a pop from an empty list, `tokens[0]` on an empty list, a
    `pop_and_check` mismatch, a failed `assert`, a missing collation). */
module Parser {
  import opened Wrappers
  import opened Values
  import opened Columns
  import opened Tables
  import opened Sorting
  import opened Query

  type Tokens = seq<Value>

  /** `tokens.pop(0)`. */
  function Pop(ts: Tokens): (r: Result<(Value, Tokens)>)
    ensures r.Ok? <==> ts != []
    ensures r.Ok? ==> ts == [r.value.0] + r.value.1
  {
    if ts == [] then Err(Raised) else Ok((ts[0], ts[1..]))
  }

  /** `pop_and_check(tokens, w)`. */
  function Expect(ts: Tokens, w: string): (r: Result<Tokens>)
    ensures r.Ok? <==> ts != [] && ts[0] == Str(w)
    ensures r.Ok? ==> ts == [Str(w)] + r.value
  {
    if ts != [] && ts[0] == Str(w) then Ok(ts[1..]) else Err(Raised)
  }

  /** `tokens[0] == w`, which raises on an empty list. */
  function FirstIs(ts: Tokens, w: string): (r: Result<bool>)
    ensures r.Ok? <==> ts != []
    ensures r.Ok? ==> (r.value <==> ts[0] == Str(w))
  {
    if ts == [] then Err(Raised) else Ok(ts[0] == Str(w))
  }

  /** `tokens and tokens[0] == w`. */
  predicate StartsWith(ts: Tokens, w: string)
  {
    ts != [] && ts[0] == Str(w)
  }

  // ---------------------------------------------------------------------
  // Column names

  /** `get_qualified_column_name`: `name`, or `table . name`. */
  function ParseColumn(ts: Tokens): (r: Result<(Col, Tokens)>)
    ensures r.Ok? ==> |r.value.1| < |ts|
    ensures ts != [] && !StartsWith(ts[1..], ".") ==> r == Ok((Col(ts[0], Null), ts[1..]))
    ensures |ts| >= 3 && ts[1] == Str(".") ==> r == Ok((Col(ts[2], ts[0]), ts[3..]))
  {
    var (first, rest) :- Pop(ts);
    if StartsWith(rest, ".") then
      var (name, rest') :- Pop(rest[1..]);
      Ok((Col(name, first), rest'))
    else Ok((Col(first, Null), rest))
  }

  /** The tokens that spell a column name. */
  function ColumnTokens(c: Col): Tokens
  {
    if c.table == Null then [c.name] else [c.table, Str("."), c.name]
  }

  /** Parsing the spelling of a column name gives it back, unless an
      unqualified name is followed by a dot. */
  lemma ParseColumnRoundTrip(c: Col, rest: Tokens)
    requires c.table == Null ==> !StartsWith(rest, ".")
    ensures ParseColumn(ColumnTokens(c) + rest) == Ok((c, rest))
  {
    var ts := ColumnTokens(c) + rest;
    if c.table == Null {
      assert ts[1..] == rest;
    } else {
      assert ts[1] == Str(".") && ts[3..] == rest;
    }
  }

  // ---------------------------------------------------------------------
  // WHERE

  /** The operator a token names, before an optional NOT. */
  function OpOf(v: Value): (r: Result<Op>)
    ensures r.Ok? <==> v in {Str(">"), Str("<"), Str("="), Str("!="), Str("IS")}
    ensures r.Ok? ==> r.value in {Gt, Lt, Eq, Ne, Is}
  {
    if v == Str(">") then Ok(Gt)
    else if v == Str("<") then Ok(Lt)
    else if v == Str("=") then Ok(Eq)
    else if v == Str("!=") then Ok(Ne)
    else if v == Str("IS") then Ok(Is)
    else Err(Raised)
  }

  /** Appending " NOT" to the operator text: only "IS NOT" means something. */
  function Negate(op: Op): Op
  {
    if op == Is then IsNot else WithNot(op)
  }

  /** An operator token and an optional NOT after it; some token must
      follow the operator. */
  function ParseOperator(ts: Tokens): (r: Result<(Op, Tokens)>)
    ensures r.Ok? ==> |r.value.1| < |ts|
    ensures r.Ok? ==> r.value.0 in {Gt, Lt, Eq, Ne, Is, IsNot, WithNot(Gt), WithNot(Lt), WithNot(Eq), WithNot(Ne)}
  {
    var (token, r1) :- Pop(ts);
    var base :- OpOf(token);
    var negated :- FirstIs(r1, "NOT");
    if negated then Ok((Negate(base), r1[1..])) else Ok((base, r1))
  }

  /** `get_where_clause`: nothing unless the next token is WHERE; then a
      column (given the table in scope when it names none), an operator, an
      optional NOT and a constant.  NULL goes with IS and IS NOT, and they
      with NULL only. */
  function ParseWhere(ts: Tokens, table: Value): (r: Result<(Option<WhereClause>, Tokens)>)
    ensures r.Ok? ==> |r.value.1| <= |ts|
    ensures !StartsWith(ts, "WHERE") ==> r == Ok((None, ts))
    ensures r.Ok? && StartsWith(ts, "WHERE") ==> r.value.0.Some? && |r.value.1| < |ts|
    ensures r.Ok? && r.value.0.Some? ==> WellFormed(r.value.0.value)
    ensures r.Ok? && r.value.0.Some? && !Falsy(table) ==> !Falsy(r.value.0.value.col.table)
  {
    if !StartsWith(ts, "WHERE") then Ok((None, ts))
    else
      var (c, r1) :- ParseColumn(ts[1..]);
      var (op, r2) :- ParseOperator(r1);
      var (constant, r3) :- Pop(r2);
      if constant == Null && op != Is && op != IsNot then Err(Raised)
      else if (op == Is || op == IsNot) && constant != Null then Err(Raised)
      else Ok((Some(WhereClause(PatchTable(c, table), op, constant)), r3))
  }

  /** The tokens that spell an operator. */
  function OpTokens(op: Op): Tokens
  {
    match op
    case Gt => [Str(">")]
    case Lt => [Str("<")]
    case Eq => [Str("=")]
    case Ne => [Str("!=")]
    case Is => [Str("IS")]
    case IsNot => [Str("IS"), Str("NOT")]
    case WithNot(b) => OpTokens(b) + [Str("NOT")]
  }

  /** The operators a WHERE clause can spell: a base one, IS NOT, or one of
      the four comparisons followed by NOT. */
  predicate Spellable(op: Op)
  {
    op in {Gt, Lt, Eq, Ne, Is, IsNot, WithNot(Gt), WithNot(Lt), WithNot(Eq), WithNot(Ne)}
  }

  /** Parsing the spelling of an operator gives it back, when a token other
      than NOT follows an operator spelled without NOT. */
  lemma ParseOperatorRoundTrip(op: Op, rest: Tokens)
    requires Spellable(op) && rest != []
    requires !op.WithNot? && op != IsNot ==> rest[0] != Str("NOT")
    ensures ParseOperator(OpTokens(op) + rest) == Ok((op, rest))
  {
    var negated := op.WithNot? || op == IsNot;
    var base := if op == IsNot then Is else if op.WithNot? then op.base else op;
    var tok := OpTokens(base)[0];
    assert OpTokens(base) == [tok] && OpOf(tok) == Ok(base);
    var r1 := if negated then [Str("NOT")] + rest else rest;
    if negated {
      assert OpTokens(op) == [tok] + [Str("NOT")];
      AppendAssoc([tok], [Str("NOT")], rest);
    } else {
      assert OpTokens(op) == [tok];
    }
    assert ([tok] + r1)[1..] == r1;
    if negated {
      assert Negate(base) == op;
      assert r1[1..] == rest;
    }
  }

  /** Parsing the spelling of a well-formed WHERE clause whose column is
      qualified gives the clause back.  A constant that reads NOT after an
      operator without NOT would be taken for the negation. */
  lemma ParseWhereRoundTrip(w: WhereClause, table: Value, rest: Tokens)
    requires WellFormed(w) && Spellable(w.op) && !Falsy(w.col.table)
    requires !w.op.WithNot? && w.op != IsNot ==> w.constant != Str("NOT")
    ensures ParseWhere([Str("WHERE")] + ColumnTokens(w.col) + OpTokens(w.op) + [w.constant] + rest, table)
      == Ok((Some(w), rest))
  {
    var r2 := [w.constant] + rest;
    var r1 := OpTokens(w.op) + r2;
    var ts := [Str("WHERE")] + ColumnTokens(w.col) + OpTokens(w.op) + [w.constant] + rest;
    assert ts == [Str("WHERE")] + (ColumnTokens(w.col) + r1) by {
      AppendAssoc([Str("WHERE")] + ColumnTokens(w.col) + OpTokens(w.op), [w.constant], rest);
      AppendAssoc([Str("WHERE")] + ColumnTokens(w.col), OpTokens(w.op), r2);
      AppendAssoc([Str("WHERE")], ColumnTokens(w.col), r1);
    }
    ParseColumnRoundTrip(w.col, r1);
    ParseOperatorRoundTrip(w.op, r2);
    assert r2[1..] == rest;
    ParseWhereStep(ts, table, w, r1, r2, rest);
  }

  /** The WHERE clause read from its column, operator and constant. */
  lemma ParseWhereStep(ts: Tokens, table: Value, w: WhereClause, r1: Tokens, r2: Tokens, rest: Tokens)
    requires WellFormed(w) && !Falsy(w.col.table)
    requires ts != [] && ts[0] == Str("WHERE") && ParseColumn(ts[1..]) == Ok((w.col, r1))
    requires ParseOperator(r1) == Ok((w.op, r2)) && r2 != [] && r2[0] == w.constant && r2[1..] == rest
    ensures ParseWhere(ts, table) == Ok((Some(w), rest))
  {
    assert PatchTable(w.col, table) == w.col;
  }

  // ---------------------------------------------------------------------
  // UPDATE ... SET

  /** The SET loop of `update`: clauses `col = constant` while tokens
      remain.  After a clause a comma continues, WHERE stops, and any other
      token also continues, without being consumed. */
  function ParseSetClauses(ts: Tokens, table: Value): (r: Result<(seq<UpdateClause>, Tokens)>)
    decreases |ts|
    ensures r.Ok? ==> |r.value.1| <= |ts|
    ensures r.Ok? ==> r.value.1 == [] || r.value.1[0] == Str("WHERE")
    ensures r.Ok? ==> forall i :: 0 <= i < |r.value.0| && !Falsy(table) ==> !Falsy(r.value.0[i].col.table)
  {
    if ts == [] then Ok(([], ts))
    else
      var (clause, r3) :- ParseSetClause(ts, table);
      if r3 == [] || r3[0] == Str("WHERE") then Ok(([clause], r3))
      else
        var (more, r4) :- ParseSetClauses(if r3[0] == Str(",") then r3[1..] else r3, table);
        Ok(([clause] + more, r4))
  }

  /** One turn of the SET loop: a column (given `table` when unqualified),
      "=", and the constant. */
  function ParseSetClause(ts: Tokens, table: Value): (r: Result<(UpdateClause, Tokens)>)
    ensures r.Ok? ==> |r.value.1| + 3 <= |ts|
    ensures r.Ok? && !Falsy(table) ==> !Falsy(r.value.0.col.table)
  {
    var (c, r1) :- ParseColumn(ts);
    var r2 :- Expect(r1, "=");
    var (constant, r3) :- Pop(r2);
    Ok((UpdateClause(PatchTable(c, table), constant), r3))
  }

  /** The tokens that spell SET clauses separated by commas. */
  function SetTokens(cs: seq<UpdateClause>): Tokens
  {
    if cs == [] then []
    else ColumnTokens(cs[0].col) + [Str("="), cs[0].constant] + (if |cs| == 1 then [] else [Str(",")] + SetTokens(cs[1..]))
  }

  /** A qualified clause reads back as itself, leaving `tail`. */
  lemma ParseSetClauseRoundTrip(c: UpdateClause, tail: Tokens, table: Value)
    requires !Falsy(c.col.table)
    ensures ParseSetClause(ColumnTokens(c.col) + ([Str("="), c.constant] + tail), table) == Ok((c, tail))
  {
    var r1 := [Str("="), c.constant] + tail;
    ParseColumnRoundTrip(c.col, r1);
    assert r1[1..] == [c.constant] + tail;
    assert ([c.constant] + tail)[1..] == tail;
    assert PatchTable(c.col, table) == c.col;
  }

  /** One qualified clause at the end of the clauses, before WHERE or the end. */
  lemma ParseSetClausesLast(cs: seq<UpdateClause>, rest: Tokens, table: Value)
    requires |cs| == 1 && !Falsy(cs[0].col.table)
    requires rest == [] || rest[0] == Str("WHERE")
    ensures ParseSetClauses(ColumnTokens(cs[0].col) + ([Str("="), cs[0].constant] + rest), table) == Ok((cs, rest))
  {
    ParseSetClauseRoundTrip(cs[0], rest, table);
    assert [cs[0]] == cs;
  }

  /** A turn of the SET loop that ends on a comma continues after it. */
  lemma ParseSetClausesAfterComma(ts: Tokens, table: Value, cs: seq<UpdateClause>, tail: Tokens, rest: Tokens)
    requires ts != [] && cs != [] && ParseSetClause(ts, table) == Ok((cs[0], tail))
    requires tail != [] && tail[0] == Str(",")
    requires ParseSetClauses(tail[1..], table) == Ok((cs[1..], rest))
    ensures ParseSetClauses(ts, table) == Ok((cs, rest))
  {
    assert [cs[0]] + cs[1..] == cs;
  }

  /** A qualified clause followed by a comma and the clauses that parse
      from what follows. */
  lemma ParseSetClausesComma(cs: seq<UpdateClause>, more: Tokens, rest: Tokens, table: Value)
    requires |cs| > 1 && !Falsy(cs[0].col.table)
    requires ParseSetClauses(more, table) == Ok((cs[1..], rest))
    ensures ParseSetClauses(ColumnTokens(cs[0].col) + ([Str("="), cs[0].constant] + ([Str(",")] + more)), table) == Ok((cs, rest))
  {
    var tail := [Str(",")] + more;
    var ts := ColumnTokens(cs[0].col) + ([Str("="), cs[0].constant] + tail);
    ParseSetClauseRoundTrip(cs[0], tail, table);
    assert tail[1..] == more by {}
    assert ts != [] by { assert |ts| >= 3; }
    ParseSetClausesAfterComma(ts, table, cs, tail, rest);
  }

  /** The spelling of SET clauses, split after its first clause. */
  lemma SetTokensSplit(cs: seq<UpdateClause>, rest: Tokens)
    requires cs != []
    ensures |cs| == 1 ==> SetTokens(cs) + rest == ColumnTokens(cs[0].col) + ([Str("="), cs[0].constant] + rest)
    ensures |cs| > 1 ==>
      SetTokens(cs) + rest == ColumnTokens(cs[0].col) + ([Str("="), cs[0].constant] + ([Str(",")] + (SetTokens(cs[1..]) + rest)))
  {
    var col := ColumnTokens(cs[0].col);
    var eq := [Str("="), cs[0].constant];
    if |cs| == 1 {
      assert SetTokens(cs) == col + eq + [];
      AppendAssoc(col, eq, rest);
    } else {
      var more := [Str(",")] + SetTokens(cs[1..]);
      assert SetTokens(cs) == col + eq + more;
      AppendAssoc(col, eq, more);
      AppendAssoc(eq, more, rest);
      AppendAssoc(col, eq + more, rest);
      AppendAssoc([Str(",")], SetTokens(cs[1..]), rest);
    }
  }

  /** Parsing the spelling of qualified SET clauses gives them back, up to
      the WHERE or the end. */
  lemma {:induction false} ParseSetClausesRoundTrip(cs: seq<UpdateClause>, table: Value, rest: Tokens)
    requires cs != [] && forall i :: 0 <= i < |cs| ==> !Falsy(cs[i].col.table)
    requires rest == [] || rest[0] == Str("WHERE")
    ensures ParseSetClauses(SetTokens(cs) + rest, table) == Ok((cs, rest))
  {
    SetTokensSplit(cs, rest);
    if |cs| == 1 {
      ParseSetClausesLast(cs, rest, table);
    } else {
      ParseSetClausesRoundTrip(cs[1..], table, rest);
      ParseSetClausesComma(cs, SetTokens(cs[1..]) + rest, rest, table);
    }
  }

  /** The SET loop reads `a = 1 b = 2` as two clauses, as if a comma stood
      between them. */
  lemma SetClausesNeedNoComma(a: Value, b: Value, x: Value, y: Value, table: Value)
    requires b != Str(",") && b != Str("WHERE")
    ensures ParseSetClauses([a, Str("="), x, b, Str("="), y], table)
      == Ok(([UpdateClause(Col(a, table), x), UpdateClause(Col(b, table), y)], []))
  {
    var ts := [a, Str("="), x, b, Str("="), y];
    assert ts[1..] == [Str("="), x, b, Str("="), y];
    assert ts[1..][1..] == [x, b, Str("="), y];
    assert ts[1..][1..][1..] == [b, Str("="), y];
    assert ParseColumn(ts) == Ok((Col(a, Null), ts[1..]));
    assert Expect(ts[1..], "=") == Ok(ts[1..][1..]);
    assert Pop(ts[1..][1..]) == Ok((x, [b, Str("="), y]));
    var us := [b, Str("="), y];
    assert ts[1..][1..][1..] == us;
    assert us[1..] == [Str("="), y];
    assert us[1..][1..] == [y];
    assert us[1..][1..][1..] == [];
    assert ParseSetClauses(us, table) == Ok(([UpdateClause(Col(b, table), y)], []));
    assert PatchTable(Col(a, Null), table) == Col(a, table);
    assert !(us == [] || us[0] == Str("WHERE"));
    assert ParseSetClauses(ts, table) == Ok(([UpdateClause(Col(a, table), x)] + [UpdateClause(Col(b, table), y)], []));
    assert [UpdateClause(Col(a, table), x)] + [UpdateClause(Col(b, table), y)] == [UpdateClause(Col(a, table), x), UpdateClause(Col(b, table), y)];
  }

  // ---------------------------------------------------------------------
  // Parenthesised lists

  /** The items of a list after its "(": `item , item , ... )`. */
  function ParseItems(ts: Tokens): (r: Result<(seq<Value>, Tokens)>)
    decreases |ts|
    ensures r.Ok? ==> |r.value.1| < |ts| && r.value.0 != []
  {
    var (item, r1) :- Pop(ts);
    var (sep, r2) :- Pop(r1);
    if sep == Str(")") then Ok(([item], r2))
    else if sep != Str(",") then Err(Raised)
    else
      var (more, r3) :- ParseItems(r2);
      Ok(([item] + more, r3))
  }

  /** `get_comma_seperated_contents`: a parenthesised, comma-separated list
      of single tokens, at least one. */
  function ParseParenList(ts: Tokens): (r: Result<(seq<Value>, Tokens)>)
    ensures r.Ok? ==> |r.value.1| < |ts| && r.value.0 != []
  {
    var r1 :- Expect(ts, "(");
    ParseItems(r1)
  }

  function ItemTokens(items: seq<Value>): Tokens
    requires items != []
  {
    [items[0]] + if |items| == 1 then [Str(")")] else [Str(",")] + ItemTokens(items[1..])
  }

  /** Parsing a spelled-out list gives its items back. */
  lemma {:induction false} ParseParenListRoundTrip(items: seq<Value>, rest: Tokens)
    requires items != []
    ensures ParseParenList([Str("(")] + ItemTokens(items) + rest) == Ok((items, rest))
  {
    assert ([Str("(")] + ItemTokens(items) + rest)[1..] == ItemTokens(items) + rest;
    ParseItemsRoundTrip(items, rest);
  }

  lemma {:induction false} ParseItemsRoundTrip(items: seq<Value>, rest: Tokens)
    requires items != []
    ensures ParseItems(ItemTokens(items) + rest) == Ok((items, rest))
  {
    var ts := ItemTokens(items) + rest;
    assert ts[0] == items[0];
    if |items| == 1 {
      assert ts[1..][0] == Str(")");
      assert ts[1..][1..] == rest;
      assert items == [items[0]];
    } else {
      assert ts[1..][0] == Str(",");
      assert ts[1..][1..] == ItemTokens(items[1..]) + rest;
      ParseItemsRoundTrip(items[1..], rest);
      assert [items[0]] + items[1..] == items;
    }
  }

  // ---------------------------------------------------------------------
  // CREATE TABLE

  /** The names of column definitions. */
  function Names(defs: seq<(Col, ColType)>): (cs: seq<Col>)
    ensures |cs| == |defs| && forall i :: 0 <= i < |defs| ==> cs[i] == defs[i].0
  {
    if defs == [] then [] else [defs[0].0] + Names(defs[1..])
  }

  function TypeOf(v: Value): (r: Result<ColType>)
    ensures r.Ok? <==> v in {Str("TEXT"), Str("INTEGER"), Str("REAL")}
  {
    if v == Str("TEXT") then Ok(Text)
    else if v == Str("INTEGER") then Ok(Integer)
    else if v == Str("REAL") then Ok(RealNum)
    else Err(Raised)
  }

  /** The column definitions of `create_table` after the "(": each a name
      (qualified with the new table), a type, and an optional DEFAULT value;
      separated by commas and closed by ")".  A later default for the same
      column wins. */
  function ParseColumnDefs(ts: Tokens, table: Value): (r: Result<(seq<(Col, ColType)>, map<Col, Value>, Tokens)>)
    decreases |ts|
    ensures r.Ok? ==> |r.value.2| < |ts| && r.value.0 != []
    ensures r.Ok? ==> forall i :: 0 <= i < |r.value.0| ==> r.value.0[i].0.table == table
    ensures r.Ok? ==> forall c :: c in r.value.1 ==> c in Names(r.value.0)
  {
    var (name, r1) :- Pop(ts);
    var (typeToken, r2) :- Pop(r1);
    var colType :- TypeOf(typeToken);
    var col := Col(name, table);
    var hasDefault :- FirstIs(r2, "DEFAULT");
    var (defaults, r3) :- if hasDefault then
        (var (v, r) :- Pop(r2[1..]); Ok((map[col := v], r)))
      else Ok((map[], r2));
    var (sep, r4) :- Pop(r3);
    if sep == Str(")") then Ok(([(col, colType)], defaults, r4))
    else if sep != Str(",") then Err(Raised)
    else
      var (more, moreDefaults, r5) :- ParseColumnDefs(r4, table);
      assert ([(col, colType)] + more)[1..] == more;
      Ok(([(col, colType)] + more, defaults + moreDefaults, r5))
  }

  /** A column definition as written: a name, a type and an optional
      DEFAULT value. */
  datatype ColumnDef = ColumnDef(name: Value, ctype: ColType, default: Option<Value>)

  function TypeToken(t: ColType): Value
  {
    match t
    case Text => Str("TEXT")
    case Integer => Str("INTEGER")
    case RealNum => Str("REAL")
  }

  /** The tokens of one definition, without its separator. */
  function DefTokens(def: ColumnDef): Tokens
  {
    [def.name, TypeToken(def.ctype)] + (if def.default.Some? then [Str("DEFAULT"), def.default.value] else [])
  }

  /** The tokens of the definitions after the "(": comma separated, closed
      by ")". */
  function DefsTokens(defs: seq<ColumnDef>): Tokens
    requires defs != []
  {
    DefTokens(defs[0]) + if |defs| == 1 then [Str(")")] else [Str(",")] + DefsTokens(defs[1..])
  }

  /** The column names and types the definitions declare for `table`. */
  function DefPairs(defs: seq<ColumnDef>, table: Value): (pairs: seq<(Col, ColType)>)
    ensures |pairs| == |defs|
    ensures forall i :: 0 <= i < |defs| ==> pairs[i] == (Col(defs[i].name, table), defs[i].ctype)
  {
    seq(|defs|, i requires 0 <= i < |defs| => (Col(defs[i].name, table), defs[i].ctype))
  }

  /** The defaults the definitions give, a later one for the same name
      replacing an earlier one. */
  function DefDefaults(defs: seq<ColumnDef>, table: Value): map<Col, Value>
  {
    if defs == [] then map[]
    else
      (if defs[0].default.Some? then map[Col(defs[0].name, table) := defs[0].default.value] else map[])
      + DefDefaults(defs[1..], table)
  }

  /** The first definition read: name, type, DEFAULT and value when there is
      one, leaving the separator. */
  lemma ParseDefHead(def: ColumnDef, sep: Value, tail: Tokens, table: Value)
    requires sep == Str(")") || sep == Str(",")
    ensures var r2 := (if def.default.Some? then [Str("DEFAULT"), def.default.value] else []) + ([sep] + tail);
      var ts := [def.name, TypeToken(def.ctype)] + r2;
      Pop(ts) == Ok((def.name, [TypeToken(def.ctype)] + r2))
      && Pop([TypeToken(def.ctype)] + r2) == Ok((TypeToken(def.ctype), r2))
      && TypeOf(TypeToken(def.ctype)) == Ok(def.ctype)
      && FirstIs(r2, "DEFAULT") == Ok(def.default.Some?)
      && (def.default.Some? ==> Pop(r2[1..]) == Ok((def.default.value, [sep] + tail)))
  {
    var r2 := (if def.default.Some? then [Str("DEFAULT"), def.default.value] else []) + ([sep] + tail);
    assert ([def.name, TypeToken(def.ctype)] + r2)[1..] == [TypeToken(def.ctype)] + r2;
    assert ([TypeToken(def.ctype)] + r2)[1..] == r2;
    if def.default.Some? {
      assert r2[1..] == [def.default.value] + ([sep] + tail);
    }
  }

  /** Parsing one definition and what follows its separator. */
  lemma ParseColumnDefsStep(def: ColumnDef, sep: Value, tail: Tokens, table: Value)
    requires sep == Str(")") || sep == Str(",")
    ensures var col := Col(def.name, table);
      var dm := if def.default.Some? then map[col := def.default.value] else map[];
      var r := ParseColumnDefs(DefTokens(def) + ([sep] + tail), table);
      (sep == Str(")") ==> r == Ok(([(col, def.ctype)], dm, tail)))
      && (sep == Str(",") && ParseColumnDefs(tail, table).Ok? ==>
          var (more, moreDefaults, r5) := ParseColumnDefs(tail, table).value;
          r == Ok(([(col, def.ctype)] + more, dm + moreDefaults, r5)))
  {
    var d: Tokens := if def.default.Some? then [Str("DEFAULT"), def.default.value] else [];
    ParseDefHead(def, sep, tail, table);
    assert DefTokens(def) + ([sep] + tail) == [def.name, TypeToken(def.ctype)] + (d + ([sep] + tail)) by {
      AppendAssoc([def.name, TypeToken(def.ctype)], d, [sep] + tail);
    }
    assert ([sep] + tail)[1..] == tail;
  }

  /** The spelling of definitions, split after the first one's separator. */
  lemma DefsTokensSplit(defs: seq<ColumnDef>, rest: Tokens)
    requires defs != []
    ensures |defs| == 1 ==> DefsTokens(defs) + rest == DefTokens(defs[0]) + ([Str(")")] + rest)
    ensures |defs| > 1 ==> DefsTokens(defs) + rest == DefTokens(defs[0]) + ([Str(",")] + (DefsTokens(defs[1..]) + rest))
  {
    if |defs| == 1 {
      AppendAssoc(DefTokens(defs[0]), [Str(")")], rest);
    } else {
      AppendAssoc(DefTokens(defs[0]), [Str(",")] + DefsTokens(defs[1..]), rest);
      AppendAssoc([Str(",")], DefsTokens(defs[1..]), rest);
    }
  }

  /** Parsing the spelling of column definitions gives back their names and
      types, qualified with the table, and their defaults. */
  lemma {:induction false} ParseColumnDefsRoundTrip(defs: seq<ColumnDef>, table: Value, rest: Tokens)
    requires defs != []
    ensures ParseColumnDefs(DefsTokens(defs) + rest, table) == Ok((DefPairs(defs, table), DefDefaults(defs, table), rest))
  {
    var pair := (Col(defs[0].name, table), defs[0].ctype);
    var dm := if defs[0].default.Some? then map[Col(defs[0].name, table) := defs[0].default.value] else map[];
    assert DefDefaults(defs, table) == dm + DefDefaults(defs[1..], table);
    if |defs| == 1 {
      assert ParseColumnDefs(DefsTokens(defs) + rest, table) == Ok(([pair], dm, rest)) by {
        DefsTokensSplit(defs, rest);
        ParseColumnDefsStep(defs[0], Str(")"), rest, table);
      }
      assert DefPairs(defs, table) == [pair];
      assert DefDefaults(defs[1..], table) == map[] by {
        assert defs[1..] == [];
      }
      assert dm + map[] == dm;
    } else {
      var tail := DefsTokens(defs[1..]) + rest;
      var more := DefPairs(defs[1..], table);
      var moreDefaults := DefDefaults(defs[1..], table);
      assert ParseColumnDefs(tail, table) == Ok((more, moreDefaults, rest)) by {
        ParseColumnDefsRoundTrip(defs[1..], table, rest);
      }
      assert ParseColumnDefs(DefsTokens(defs) + rest, table) == Ok(([pair] + more, dm + moreDefaults, rest)) by {
        DefsTokensSplit(defs, rest);
        ParseColumnDefsStep(defs[0], Str(","), tail, table);
      }
      assert DefPairs(defs, table) == [pair] + more;
    }
  }

  // ---------------------------------------------------------------------
  // SELECT

  /** `get_from_join_clause`: a table name, optionally followed by
      `LEFT OUTER JOIN right ON lcol = rcol`.  Some token must follow the
      first name. */
  function ParseFromJoin(ts: Tokens): (r: Result<(FromJoin, Tokens)>)
    ensures r.Ok? ==> |r.value.1| < |ts|
    ensures |ts| >= 2 && ts[1] != Str("LEFT") ==> r == Ok((From(ts[0]), ts[1..]))
  {
    var (left, r1) :- Pop(ts);
    var isJoin :- FirstIs(r1, "LEFT");
    if !isJoin then Ok((From(left), r1))
    else
      var r2 :- Expect(r1[1..], "OUTER");
      var r3 :- Expect(r2, "JOIN");
      var (right, r4) :- Pop(r3);
      var r5 :- Expect(r4, "ON");
      var (lcol, r6) :- ParseColumn(r5);
      var r7 :- Expect(r6, "=");
      var (rcol, r8) :- ParseColumn(r7);
      Ok((LeftJoin(left, right, lcol, rcol), r8))
  }

  /** The tokens of a FROM clause. */
  function FromTokens(f: FromJoin): Tokens
  {
    match f
    case From(t) => [t]
    case LeftJoin(l, r, lcol, rcol) =>
      [l, Str("LEFT"), Str("OUTER"), Str("JOIN"), r, Str("ON")] + ColumnTokens(lcol) + [Str("=")] + ColumnTokens(rcol)
  }

  /** Parsing the spelling of a FROM clause gives it back: a plain FROM
      when some token other than LEFT follows, a LEFT OUTER JOIN with its
      tables and ON columns when an unqualified right column is not
      followed by a dot. */
  lemma ParseFromJoinRoundTrip(f: FromJoin, rest: Tokens)
    requires f.From? ==> rest != [] && rest[0] != Str("LEFT")
    requires f.LeftJoin? && f.rcol.table == Null ==> !StartsWith(rest, ".")
    ensures ParseFromJoin(FromTokens(f) + rest) == Ok((f, rest))
  {
    if f.LeftJoin? {
      JoinTokensSplit(f, rest);
      ParseLeftJoin(f, rest);
    } else {
      assert (FromTokens(f) + rest)[1..] == rest;
    }
  }

  /** The spelling of a LEFT OUTER JOIN, one token at a time. */
  function JoinTail(f: FromJoin, rest: Tokens): Tokens
    requires f.LeftJoin?
  {
    [Str("LEFT")] + ([Str("OUTER")] + ([Str("JOIN")] + ([f.right] + ([Str("ON")]
    + (ColumnTokens(f.lcol) + ([Str("=")] + (ColumnTokens(f.rcol) + rest)))))))
  }

  lemma JoinTokensSplit(f: FromJoin, rest: Tokens)
    requires f.LeftJoin?
    ensures FromTokens(f) + rest == [f.left] + JoinTail(f, rest)
  {
    var kw := [Str("LEFT"), Str("OUTER"), Str("JOIN"), f.right, Str("ON")];
    var x := ColumnTokens(f.lcol) + ([Str("=")] + (ColumnTokens(f.rcol) + rest));
    assert JoinTail(f, rest) == kw + x;
    assert FromTokens(f) == [f.left] + kw + ColumnTokens(f.lcol) + [Str("=")] + ColumnTokens(f.rcol);
    var r7 := ColumnTokens(f.rcol) + rest;
    AppendAssoc([f.left] + kw + ColumnTokens(f.lcol) + [Str("=")], ColumnTokens(f.rcol), rest);
    AppendAssoc([f.left] + kw + ColumnTokens(f.lcol), [Str("=")], r7);
    AppendAssoc([f.left] + kw, ColumnTokens(f.lcol), [Str("=")] + r7);
    AppendAssoc([f.left], kw, x);
  }

  lemma ParseLeftJoin(f: FromJoin, rest: Tokens)
    requires f.LeftJoin?
    requires f.rcol.table == Null ==> !StartsWith(rest, ".")
    ensures ParseFromJoin([f.left] + JoinTail(f, rest)) == Ok((f, rest))
  {
    var r7 := ColumnTokens(f.rcol) + rest;
    var r5 := ColumnTokens(f.lcol) + ([Str("=")] + r7);
    var r3 := [f.right] + ([Str("ON")] + r5);
    var r1 := JoinTail(f, rest);
    PopCons(f.left, r1);
    assert FirstIs(r1, "LEFT") == Ok(true);
    ExpectCons("OUTER", [Str("JOIN")] + r3);
    assert r1[1..] == [Str("OUTER")] + ([Str("JOIN")] + r3);
    ExpectCons("JOIN", r3);
    PopCons(f.right, [Str("ON")] + r5);
    ExpectCons("ON", r5);
    ParseColumnRoundTrip(f.lcol, [Str("=")] + r7);
    ExpectCons("=", r7);
    ParseColumnRoundTrip(f.rcol, rest);
  }

  lemma PopCons(x: Value, t: Tokens)
    ensures Pop([x] + t) == Ok((x, t))
  {
    assert ([x] + t)[1..] == t;
  }

  lemma ExpectCons(w: string, t: Tokens)
    ensures Expect([Str(w)] + t, w) == Ok(t)
  {
    assert ([Str(w)] + t)[1..] == t;
  }

  /** The projection list of `select` up to and including FROM: columns,
      or `max(col)` / `min(col)` (lower case), separated by commas. */
  function ParseProjection(ts: Tokens): (r: Result<(seq<Col>, seq<Aggregate>, Tokens)>)
    decreases |ts|
    ensures r.Ok? ==> |r.value.2| < |ts| && |r.value.0| == |r.value.1| && r.value.0 != []
  {
    var (col, agg, r1) :- ParseOutput(ts);
    var (sep, r5) :- Pop(r1);
    if sep == Str("FROM") then Ok(([col], [agg], r5))
    else if sep != Str(",") then Err(Raised)
    else
      var (cols, aggs, r6) :- ParseProjection(r5);
      Ok(([col] + cols, [agg] + aggs, r6))
  }

  /** One output column: `max(col)`, `min(col)` or a plain column. */
  function ParseOutput(ts: Tokens): (r: Result<(Col, Aggregate, Tokens)>)
    ensures r.Ok? ==> |r.value.2| < |ts|
  {
    var isMax :- FirstIs(ts, "max");
    var isMin := ts[0] == Str("min");
    if isMax || isMin then
      var r2 :- Expect(ts[1..], "(");
      var (c, r3) :- ParseColumn(r2);
      var r4 :- Expect(r3, ")");
      Ok((c, if isMin then Min else Max, r4))
    else
      var (c, r2) :- ParseColumn(ts);
      Ok((c, Plain, r2))
  }

  /** The tokens of one output column: the column, or `min(col)` or
      `max(col)`. */
  function OutputTokens(c: Col, agg: Aggregate): Tokens
  {
    match agg
    case Plain => ColumnTokens(c)
    case Min => [Str("min"), Str("(")] + ColumnTokens(c) + [Str(")")]
    case Max => [Str("max"), Str("(")] + ColumnTokens(c) + [Str(")")]
  }

  /** The tokens of a projection list, comma separated and ended by FROM. */
  function ProjectionTokens(cols: seq<Col>, aggs: seq<Aggregate>): Tokens
    requires |cols| == |aggs| && cols != []
  {
    OutputTokens(cols[0], aggs[0])
    + if |cols| == 1 then [Str("FROM")] else [Str(",")] + ProjectionTokens(cols[1..], aggs[1..])
  }

  /** A plain output column must not start with a token read as `max` or
      `min`. */
  predicate Projectable(c: Col, agg: Aggregate)
  {
    agg == Plain ==> ColumnTokens(c)[0] != Str("max") && ColumnTokens(c)[0] != Str("min")
  }

  /** Reading one output column gives it back with its marker. */
  lemma ParseOutputRoundTrip(c: Col, agg: Aggregate, after: Tokens)
    requires Projectable(c, agg) && !StartsWith(after, ".")
    ensures ParseOutput(OutputTokens(c, agg) + after) == Ok((c, agg, after))
  {
    var ts := OutputTokens(c, agg) + after;
    if agg == Plain {
      ParseColumnRoundTrip(c, after);
      assert ts[0] == ColumnTokens(c)[0];
    } else {
      var name := if agg == Min then Str("min") else Str("max");
      var inner := ColumnTokens(c) + ([Str(")")] + after);
      assert ts == [name] + ([Str("(")] + inner) by {
        AppendAssoc([name, Str("(")] + ColumnTokens(c), [Str(")")], after);
        AppendAssoc([name, Str("(")], ColumnTokens(c), [Str(")")] + after);
      }
      assert ts[1..] == [Str("(")] + inner;
      ExpectCons("(", inner);
      ParseColumnRoundTrip(c, [Str(")")] + after);
      ExpectCons(")", after);
    }
  }

  /** One turn of the projection loop, once an output column is read: FROM
      ends the list. */
  lemma ParseProjectionTurn(ts: Tokens, c: Col, agg: Aggregate, tail: Tokens)
    requires ParseOutput(ts) == Ok((c, agg, [Str("FROM")] + tail))
    ensures ParseProjection(ts) == Ok(([c], [agg], tail))
  {
    PopCons(Str("FROM"), tail);
  }

  /** One turn of the projection loop, once an output column is read: a
      comma continues the list. */
  lemma ParseProjectionComma(ts: Tokens, c: Col, agg: Aggregate, tail: Tokens,
                             cols: seq<Col>, aggs: seq<Aggregate>, rest: Tokens)
    requires ParseOutput(ts) == Ok((c, agg, [Str(",")] + tail))
    requires ParseProjection(tail) == Ok((cols, aggs, rest))
    ensures ParseProjection(ts) == Ok(([c] + cols, [agg] + aggs, rest))
  {
    PopCons(Str(","), tail);
  }

  /** The spelling of a projection list, split after its first column. */
  lemma ProjectionTokensSplit(cols: seq<Col>, aggs: seq<Aggregate>, rest: Tokens)
    requires |cols| == |aggs| && cols != []
    ensures var sep := if |cols| == 1 then Str("FROM") else Str(",");
      var tail := if |cols| == 1 then rest else ProjectionTokens(cols[1..], aggs[1..]) + rest;
      ProjectionTokens(cols, aggs) + rest == OutputTokens(cols[0], aggs[0]) + ([sep] + tail)
  {
    var head := OutputTokens(cols[0], aggs[0]);
    if |cols| == 1 {
      AppendAssoc(head, [Str("FROM")], rest);
    } else {
      AppendAssoc(head, [Str(",")] + ProjectionTokens(cols[1..], aggs[1..]), rest);
      AppendAssoc([Str(",")], ProjectionTokens(cols[1..], aggs[1..]), rest);
    }
  }

  /** Parsing the spelling of a projection list gives back its columns and
      their min/max markers, in order. */
  lemma {:induction false} ParseProjectionRoundTrip(cols: seq<Col>, aggs: seq<Aggregate>, rest: Tokens)
    requires |cols| == |aggs| && cols != []
    requires forall i :: 0 <= i < |cols| ==> Projectable(cols[i], aggs[i])
    ensures ParseProjection(ProjectionTokens(cols, aggs) + rest) == Ok((cols, aggs, rest))
  {
    if |cols| == 1 {
      ProjectionOne(cols, aggs, rest);
    } else {
      ParseProjectionRoundTrip(cols[1..], aggs[1..], rest);
      ProjectionMore(cols, aggs, rest);
    }
  }

  /** A projection list of one column reads back. */
  lemma ProjectionOne(cols: seq<Col>, aggs: seq<Aggregate>, rest: Tokens)
    requires |cols| == |aggs| == 1 && Projectable(cols[0], aggs[0])
    ensures ParseProjection(ProjectionTokens(cols, aggs) + rest) == Ok((cols, aggs, rest))
  {
    ProjectionTokensSplit(cols, aggs, rest);
    ParseOutputRoundTrip(cols[0], aggs[0], [Str("FROM")] + rest);
    ParseProjectionTurn(ProjectionTokens(cols, aggs) + rest, cols[0], aggs[0], rest);
    assert [cols[0]] == cols && [aggs[0]] == aggs;
  }

  /** A projection list of several columns reads back when the list after
      its first column does. */
  lemma ProjectionMore(cols: seq<Col>, aggs: seq<Aggregate>, rest: Tokens)
    requires |cols| == |aggs| > 1 && Projectable(cols[0], aggs[0])
    requires ParseProjection(ProjectionTokens(cols[1..], aggs[1..]) + rest) == Ok((cols[1..], aggs[1..], rest))
    ensures ParseProjection(ProjectionTokens(cols, aggs) + rest) == Ok((cols, aggs, rest))
  {
    var tail := ProjectionTokens(cols[1..], aggs[1..]) + rest;
    ProjectionTokensSplit(cols, aggs, rest);
    ParseOutputRoundTrip(cols[0], aggs[0], [Str(",")] + tail);
    ProjectionCons(ProjectionTokens(cols, aggs) + rest, cols, aggs, tail, rest);
  }

  /** The first column, a comma, then a list that reads back. */
  lemma ProjectionCons(ts: Tokens, cols: seq<Col>, aggs: seq<Aggregate>, tail: Tokens, rest: Tokens)
    requires |cols| == |aggs| > 1
    requires ParseOutput(ts) == Ok((cols[0], aggs[0], [Str(",")] + tail))
    requires ParseProjection(tail) == Ok((cols[1..], aggs[1..], rest))
    ensures ParseProjection(ts) == Ok((cols, aggs, rest))
  {
    ParseProjectionComma(ts, cols[0], aggs[0], tail, cols[1..], aggs[1..], rest);
    assert [cols[0]] + cols[1..] == cols && [aggs[0]] + aggs[1..] == aggs;
  }

  /** The ORDER BY list, which runs to the end of the statement: columns,
      each with an optional `COLLATE name` (a registered collation) and an
      optional DESC, separated by commas. */
  function ParseOrderBy(ts: Tokens, collations: map<Value, Collation>): (r: Result<seq<OrderKey>>)
    decreases |ts|
    ensures r.Ok? ==> r.value != []
    ensures r.Ok? ==> forall i :: 0 <= i < |r.value| && r.value[i].collate.Some? ==>
      exists n :: n in collations && collations[n] == r.value[i].collate.value
  {
    var (col, r1) :- ParseColumn(ts);
    var (collate, r2) :- ParseCollate(r1, collations);
    if r2 == [] then Ok([OrderKey(col, collate, false)])
    else
      var descend := r2[0] == Str("DESC");
      var r3 := if descend then r2[1..] else r2;
      var key := OrderKey(col, collate, descend);
      if r3 == [] then Ok([key])
      else
        var r4 :- Expect(r3, ",");
        var more :- ParseOrderBy(r4, collations);
        Ok([key] + more)
  }

  /** An optional `COLLATE name` after an ORDER BY column: the function
      registered under the name, which must exist. */
  function ParseCollate(ts: Tokens, collations: map<Value, Collation>): (r: Result<(Option<Collation>, Tokens)>)
    ensures !StartsWith(ts, "COLLATE") ==> r == Ok((None, ts))
    ensures StartsWith(ts, "COLLATE") ==>
      (r.Ok? <==> |ts| >= 2 && ts[1] in collations)
      && (r.Ok? ==> r.value == (Some(collations[ts[1]]), ts[2..]))
  {
    if StartsWith(ts, "COLLATE") then
      var (name, r) :- Pop(ts[1..]);
      if name in collations then Ok((Some(collations[name]), r)) else Err(Raised)
    else Ok((None, ts))
  }

  /** A single qualified ORDER BY column, optionally DESC, gives one key
      without a collation. */
  lemma OrderBySingle(col: Col, descend: bool, collations: map<Value, Collation>)
    requires col.table != Null
    ensures var r := ParseOrderBy(ColumnTokens(col) + (if descend then [Str("DESC")] else []), collations);
      r.Ok? && |r.value| == 1 && r.value[0].col == col && r.value[0].collate.None? && r.value[0].descend == descend
  {
    var d: Tokens := if descend then [Str("DESC")] else [];
    ParseColumnRoundTrip(col, d);
    if descend {
      assert d[1..] == [];
    }
  }

  /** A collation name that was never registered raises. */
  lemma OrderByUnknownCollation(col: Col, name: Value, collations: map<Value, Collation>)
    requires col.table != Null && name !in collations
    ensures ParseOrderBy(ColumnTokens(col) + [Str("COLLATE"), name], collations).Err?
  {
    ParseColumnRoundTrip(col, [Str("COLLATE"), name]);
  }

  /** An ORDER BY key as written: a column, the name of a collation, and
      DESC. */
  datatype KeySpelling = KeySpelling(col: Col, collation: Option<Value>, descend: bool)

  function KeyTokens(k: KeySpelling): Tokens
  {
    ColumnTokens(k.col) + (if k.collation.Some? then [Str("COLLATE"), k.collation.value] else [])
    + (if k.descend then [Str("DESC")] else [])
  }

  /** The tokens of an ORDER BY list, comma separated. */
  function OrderTokens(ks: seq<KeySpelling>): Tokens
    requires ks != []
  {
    KeyTokens(ks[0]) + if |ks| == 1 then [] else [Str(",")] + OrderTokens(ks[1..])
  }

  /** Every collation the keys name is registered. */
  predicate Registered(ks: seq<KeySpelling>, collations: map<Value, Collation>)
  {
    forall i :: 0 <= i < |ks| && ks[i].collation.Some? ==> ks[i].collation.value in collations
  }

  /** The key a spelling stands for: its collation looked up by name. */
  function KeyOf(k: KeySpelling, collations: map<Value, Collation>): OrderKey
    requires k.collation.Some? ==> k.collation.value in collations
  {
    OrderKey(k.col, if k.collation.Some? then Some(collations[k.collation.value]) else None, k.descend)
  }

  function KeysOf(ks: seq<KeySpelling>, collations: map<Value, Collation>): (keys: seq<OrderKey>)
    requires Registered(ks, collations)
    ensures |keys| == |ks| && forall i :: 0 <= i < |ks| ==> keys[i] == KeyOf(ks[i], collations)
  {
    seq(|ks|, i requires 0 <= i < |ks| && Registered(ks, collations) => KeyOf(ks[i], collations))
  }

  /** Reading one key, up to the end or the comma after it. */
  lemma ParseOrderKey(k: KeySpelling, tail: Tokens, collations: map<Value, Collation>)
    requires k.collation.Some? ==> k.collation.value in collations
    requires tail == [] || tail[0] == Str(",")
    ensures var r := ParseOrderBy(KeyTokens(k) + tail, collations);
      (tail == [] ==> r == Ok([KeyOf(k, collations)]))
      && (tail != [] && ParseOrderBy(tail[1..], collations).Ok? ==>
          r == Ok([KeyOf(k, collations)] + ParseOrderBy(tail[1..], collations).value))
  {
    var r1 := KeyRest(k, tail);
    KeyTokensSplit(k, tail);
    KeyColumn(k, tail);
    KeyCollate(k, tail, collations);
    ParseOrderByStep(KeyTokens(k) + tail, k.col, r1, KeyOf(k, collations).collate, k.descend, tail, collations);
  }

  /** What follows a key's column: its COLLATE part, its DESC, then `tail`. */
  function KeyRest(k: KeySpelling, tail: Tokens): Tokens
  {
    (if k.collation.Some? then [Str("COLLATE"), k.collation.value] else [])
    + ((if k.descend then [Str("DESC")] else []) + tail)
  }

  lemma KeyTokensSplit(k: KeySpelling, tail: Tokens)
    ensures KeyTokens(k) + tail == ColumnTokens(k.col) + KeyRest(k, tail)
  {
    var c: Tokens := if k.collation.Some? then [Str("COLLATE"), k.collation.value] else [];
    var d: Tokens := if k.descend then [Str("DESC")] else [];
    AppendAssoc(ColumnTokens(k.col) + c, d, tail);
    AppendAssoc(ColumnTokens(k.col), c, d + tail);
  }

  /** The column of a key reads back, before what follows it. */
  lemma KeyColumn(k: KeySpelling, tail: Tokens)
    requires tail == [] || tail[0] == Str(",")
    ensures ParseColumn(ColumnTokens(k.col) + KeyRest(k, tail)) == Ok((k.col, KeyRest(k, tail)))
  {
    var r1 := KeyRest(k, tail);
    if k.col.table == Null {
      assert !StartsWith(r1, ".") by {
        if r1 != [] {
          assert r1[0] == Str("COLLATE") || r1[0] == Str("DESC") || r1[0] == Str(",");
        }
      }
    }
    ParseColumnRoundTrip(k.col, r1);
  }

  /** The COLLATE part of a key reads back as its registered collation. */
  lemma KeyCollate(k: KeySpelling, tail: Tokens, collations: map<Value, Collation>)
    requires k.collation.Some? ==> k.collation.value in collations
    requires tail == [] || tail[0] == Str(",")
    ensures ParseCollate(KeyRest(k, tail), collations)
      == Ok((KeyOf(k, collations).collate, if k.descend then [Str("DESC")] + tail else tail))
  {
    var r1 := KeyRest(k, tail);
    var d: Tokens := if k.descend then [Str("DESC")] else [];
    assert d + tail == (if k.descend then [Str("DESC")] + tail else tail);
    if k.collation.Some? {
      assert r1[1] == k.collation.value && r1[2..] == d + tail;
    } else {
      assert r1 == d + tail;
      assert !StartsWith(d + tail, "COLLATE") by {
        if d + tail != [] {
          assert (d + tail)[0] == Str("DESC") || (d + tail)[0] == Str(",");
        }
      }
    }
  }

  /** The rest of one turn of the ORDER BY loop, once the column and the
      collation are read: DESC if present, then the end or a comma. */
  lemma ParseOrderByStep(ts: Tokens, col: Col, r1: Tokens, collate: Option<Collation>, descend: bool, tail: Tokens,
                         collations: map<Value, Collation>)
    requires ParseColumn(ts) == Ok((col, r1))
    requires ParseCollate(r1, collations) == Ok((collate, if descend then [Str("DESC")] + tail else tail))
    requires tail == [] || tail[0] == Str(",")
    ensures var r := ParseOrderBy(ts, collations);
      (tail == [] ==> r == Ok([OrderKey(col, collate, descend)]))
      && (tail != [] && ParseOrderBy(tail[1..], collations).Ok? ==>
          r == Ok([OrderKey(col, collate, descend)] + ParseOrderBy(tail[1..], collations).value))
  {
    if descend {
      assert ([Str("DESC")] + tail)[1..] == tail;
    }
  }

  /** Parsing the spelling of an ORDER BY list gives back its keys, each
      with its column, its registered collation and its direction, in
      order. */
  lemma {:induction false} ParseOrderByRoundTrip(ks: seq<KeySpelling>, collations: map<Value, Collation>)
    requires ks != [] && Registered(ks, collations)
    ensures ParseOrderBy(OrderTokens(ks), collations) == Ok(KeysOf(ks, collations))
  {
    assert ks[0].collation.Some? ==> ks[0].collation.value in collations;
    if |ks| == 1 {
      assert OrderTokens(ks) == KeyTokens(ks[0]) + [];
      ParseOrderKey(ks[0], [], collations);
      assert KeysOf(ks, collations) == [KeyOf(ks[0], collations)];
    } else {
      var tail := [Str(",")] + OrderTokens(ks[1..]);
      assert tail[1..] == OrderTokens(ks[1..]);
      KeysOfTail(ks, collations);
      ParseOrderByRoundTrip(ks[1..], collations);
      ParseOrderKey(ks[0], tail, collations);
    }
  }

  lemma KeysOfTail(ks: seq<KeySpelling>, collations: map<Value, Collation>)
    requires |ks| > 1 && Registered(ks, collations)
    ensures Registered(ks[1..], collations)
    ensures KeysOf(ks, collations) == [KeyOf(ks[0], collations)] + KeysOf(ks[1..], collations)
  {
    assert forall i :: 0 <= i < |ks[1..]| ==> ks[1..][i] == ks[i + 1];
  }
}
