/** Query execution: the LEFT OUTER JOIN of `Database.select`, and
    `select_rows` (star expansion, column checks, filter, sort, projection,
    DISTINCT), and the min/max aggregation applied to a SELECT's result. */
module Query {
  import opened Wrappers
  import opened Values
  import opened Columns
  import opened Tables
  import opened Sorting

  // ---------------------------------------------------------------------
  // LEFT OUTER JOIN

  /** The left row extended with every column of `template` set to null:
      `dict(left_row)` updated from `zip(right_row.keys(), repeat(None))`. */
  function Pad(l: Row, template: Row): (r: Row)
    ensures forall c :: c in r <==> c in l || c in template
    ensures forall c :: c in template ==> r[c] == Null
    ensures forall c :: c in l && c !in template ==> r[c] == l[c]
  {
    l + map c | c in template.Keys :: Null
  }

  /** A right row whose key is not null and equals the left key. */
  predicate KeysMatch(lv: Value, rr: Row, rcol: Col)
  {
    rcol in rr && rr[rcol] != Null && ValueEq(lv, rr[rcol])
  }

  /** The combined rows for a left row whose key `lv` is not null: one per
      matching right row, in right-table order, right values overriding
      left ones.  Reading a right row without the key column raises. */
  function MatchRows(l: Row, lv: Value, right: seq<Row>, rcol: Col): (r: Result<seq<Row>>)
    ensures r.Err? <==> exists j :: 0 <= j < |right| && rcol !in right[j]
    ensures r.Err? ==> r == Err(Raised)
    ensures r.Ok? ==> forall m :: m in r.value <==>
      exists j :: 0 <= j < |right| && KeysMatch(lv, right[j], rcol) && m == l + right[j]
    ensures r.Ok? ==> (r.value == [] <==> forall j :: 0 <= j < |right| ==> !KeysMatch(lv, right[j], rcol))
  {
    if right == [] then Ok([])
    else if rcol !in right[0] then Err(Raised)
    else
      var rest := MatchRows(l, lv, right[1..], rcol);
      if rest.Err? then
        var j :| 0 <= j < |right[1..]| && rcol !in right[1..][j];
        assert rcol !in right[j + 1];
        rest
      else
        assert forall j :: 0 <= j < |right[1..]| ==> right[1..][j] == right[j + 1];
        Ok(if KeysMatch(lv, right[0], rcol) then [l + right[0]] + rest.value else rest.value)
  }

  /** The first step of `MatchRows`: the first right row, then the rest. */
  lemma MatchRowsCons(l: Row, lv: Value, xs: seq<Row>, rcol: Col)
    requires xs != [] && MatchRows(l, lv, xs, rcol).Ok?
    ensures rcol in xs[0] && MatchRows(l, lv, xs[1..], rcol).Ok?
    ensures MatchRows(l, lv, xs, rcol).value ==
      (if KeysMatch(lv, xs[0], rcol) then [l + xs[0]] else []) + MatchRows(l, lv, xs[1..], rcol).value
  {
  }

  /** `MatchRows` on a first right row holding the key, and a rest that
      raises nothing. */
  lemma MatchRowsStep(l: Row, lv: Value, xs: seq<Row>, rcol: Col)
    requires xs != [] && rcol in xs[0] && MatchRows(l, lv, xs[1..], rcol).Ok?
    ensures MatchRows(l, lv, xs, rcol) ==
      Ok((if KeysMatch(lv, xs[0], rcol) then [l + xs[0]] else []) + MatchRows(l, lv, xs[1..], rcol).value)
  {
    var rest := MatchRows(l, lv, xs[1..], rcol).value;
    assert [] + rest == rest;
  }

  /** The combined rows follow the right table: those for two runs of right
      rows are those for the first run, then those for the second. */
  lemma {:induction false} MatchRowsAppend(l: Row, lv: Value, a: seq<Row>, b: seq<Row>, rcol: Col)
    requires MatchRows(l, lv, a + b, rcol).Ok?
    ensures MatchRows(l, lv, a, rcol).Ok? && MatchRows(l, lv, b, rcol).Ok?
    ensures MatchRows(l, lv, a + b, rcol).value == MatchRows(l, lv, a, rcol).value + MatchRows(l, lv, b, rcol).value
  {
    if a == [] {
      assert a + b == b;
    } else {
      var head: seq<Row> := if KeysMatch(lv, a[0], rcol) then [l + a[0]] else [];
      assert (a + b)[0] == a[0] && (a + b)[1..] == a[1..] + b;
      MatchRowsCons(l, lv, a + b, rcol);
      MatchRowsAppend(l, lv, a[1..], b, rcol);
      var x := MatchRows(l, lv, a[1..], rcol).value;
      var y := MatchRows(l, lv, b, rcol).value;
      MatchRowsStep(l, lv, a, rcol);
      AppendAssoc(head, x, y);
    }
  }

  /** One right row gives one combined row when its key matches, and none
      otherwise. */
  lemma MatchRowsOne(l: Row, lv: Value, rr: Row, rcol: Col)
    ensures MatchRows(l, lv, [rr], rcol) ==
      if rcol !in rr then Err(Raised) else Ok(if KeysMatch(lv, rr, rcol) then [l + rr] else [])
  {
    assert [rr][1..] == [];
    assert MatchRows(l, lv, [], rcol) == Ok([]);
    assert [l + rr] + [] == [l + rr];
  }

  /** A matching right row that occurs twice is combined twice. */
  lemma MatchRowsTwice(l: Row, lv: Value, rr: Row, rcol: Col)
    requires KeysMatch(lv, rr, rcol)
    ensures MatchRows(l, lv, [rr, rr], rcol) == Ok([l + rr, l + rr])
  {
    MatchRowsOne(l, lv, rr, rcol);
    assert [rr, rr] == [rr] + [rr];
    MatchRowsAppend(l, lv, [rr], [rr], rcol);
    assert [l + rr] + [l + rr] == [l + rr, l + rr];
  }

  /** What one left row contributes to the join.  A null left key stops the
      inner loop at the first right row; the padding then takes its columns
      from that first row, and otherwise from the last one. */
  function JoinRow(l: Row, right: seq<Row>, lcol: Col, rcol: Col): (r: Result<seq<Row>>)
    requires right != []
    ensures r.Ok? ==> |r.value| >= 1 && lcol in l
    ensures r.Err? ==> r == Err(Raised)
    ensures lcol in l && l[lcol] == Null ==> (r.Ok? <==> rcol in right[0])
    ensures r.Ok? && l[lcol] == Null ==> r.value == [Pad(l, right[0])]
  {
    if lcol !in l then Err(Raised)
    else if l[lcol] == Null then
      if rcol !in right[0] then Err(Raised) else Ok([Pad(l, right[0])])
    else
      var ms :- MatchRows(l, l[lcol], right, rcol);
      if ms == [] then Ok([Pad(l, right[|right| - 1])]) else Ok(ms)
  }

  /** The rows of a LEFT OUTER JOIN, left row by left row.  With an empty
      right table the source reads a loop variable that was never bound. */
  function JoinSpec(left: seq<Row>, right: seq<Row>, lcol: Col, rcol: Col): (r: Result<seq<Row>>)
    ensures r.Ok? ==> |r.value| >= |left|
    ensures r.Err? ==> r == Err(Raised)
    ensures left != [] && right == [] ==> r.Err?
  {
    if left == [] then Ok([])
    else if right == [] then Err(Raised)
    else
      var a :- JoinRow(left[0], right, lcol, rcol);
      var b :- JoinSpec(left[1..], right, lcol, rcol);
      Ok(a + b)
  }

  lemma JoinSpecUnfold(left: seq<Row>, right: seq<Row>, lcol: Col, rcol: Col)
    requires left != [] && right != []
    ensures JoinRow(left[0], right, lcol, rcol).Err? ==> JoinSpec(left, right, lcol, rcol) == Err(Raised)
    ensures JoinRow(left[0], right, lcol, rcol).Ok? ==>
      JoinSpec(left, right, lcol, rcol) == Prepend(JoinRow(left[0], right, lcol, rcol).value, JoinSpec(left[1..], right, lcol, rcol))
  {
  }

  /** The inner loop of `Database.select` for one left row. */
  method JoinLeftRow(l: Row, right: seq<Row>, lcol: Col, rcol: Col) returns (r: Result<seq<Row>>)
    ensures right != [] ==> r == JoinRow(l, right, lcol, rcol)
    ensures right == [] ==> r == Err(Raised)
  {
    if lcol !in l {
      return Err(Raised);
    }
    var lv := l[lcol];
    var combined: seq<Row> := [];
    var rightRow: Option<Row> := None;
    var found := false;
    var j := 0;
    PrependEmpty(MatchRows(l, lv, right, rcol));
    assert right[0..] == right;
    while j < |right|
      invariant 0 <= j <= |right|
      invariant lv != Null ==> MatchRows(l, lv, right, rcol) == Prepend(combined, MatchRows(l, lv, right[j..], rcol))
      invariant found <==> combined != []
      invariant lv == Null ==> j == 0 && combined == []
      invariant j > 0 ==> rightRow == Some(right[j - 1])
      invariant right == [] ==> rightRow.None?
    {
      assert right[j..][0] == right[j] && right[j..][1..] == right[j + 1..];
      var rr := right[j];
      rightRow := Some(rr);
      if rcol !in rr {
        return Err(Raised);
      }
      var rv := rr[rcol];
      if lv == Null {
        break;
      }
      j := j + 1;
      if rv == Null {
        continue;
      }
      if ValueEq(lv, rv) {
        PrependAppend(combined, [l + rr], MatchRows(l, lv, right[j..], rcol));
        combined := combined + [l + rr];
        found := true;
      }
    }
    if rightRow.None? {
      return Err(Raised);
    }
    if lv == Null || !found {
      assert lv != Null ==> j == |right| && right[j..] == [];
      return Ok([Pad(l, rightRow.value)]);
    }
    assert j == |right| && right[j..] == [];
    assert combined + [] == combined;
    return Ok(combined);
  }

  /** The nested loops of `Database.select`. */
  method Join(left: seq<Row>, right: seq<Row>, lcol: Col, rcol: Col) returns (r: Result<seq<Row>>)
    ensures r == JoinSpec(left, right, lcol, rcol)
  {
    var combined: seq<Row> := [];
    var i := 0;
    PrependEmpty(JoinSpec(left, right, lcol, rcol));
    while i < |left|
      invariant 0 <= i <= |left|
      invariant JoinSpec(left, right, lcol, rcol) == Prepend(combined, JoinSpec(left[i..], right, lcol, rcol))
    {
      assert left[i..][0] == left[i] && left[i..][1..] == left[i + 1..];
      if right != [] {
        JoinSpecUnfold(left[i..], right, lcol, rcol);
      }
      var rows := JoinLeftRow(left[i], right, lcol, rcol);
      if rows.Err? {
        return Err(Raised);
      }
      PrependAppend(combined, rows.value, JoinSpec(left[i + 1..], right, lcol, rcol));
      combined := combined + rows.value;
      i := i + 1;
    }
    assert left[i..] == [];
    assert combined + [] == combined;
    return Ok(combined);
  }

  /** The join keeps the order of the left rows: joining two runs of left
      rows is joining each and concatenating. */
  lemma {:induction false} JoinSpecAppend(a: seq<Row>, b: seq<Row>, right: seq<Row>, lcol: Col, rcol: Col)
    requires right != []
    requires JoinSpec(a + b, right, lcol, rcol).Ok?
    ensures JoinSpec(a, right, lcol, rcol).Ok? && JoinSpec(b, right, lcol, rcol).Ok?
    ensures JoinSpec(a + b, right, lcol, rcol).value == JoinSpec(a, right, lcol, rcol).value + JoinSpec(b, right, lcol, rcol).value
  {
    if a == [] {
      assert a + b == b;
    } else {
      assert (a + b)[0] == a[0] && (a + b)[1..] == a[1..] + b;
      JoinSpecAppend(a[1..], b, right, lcol, rcol);
      assert JoinRow(a[0], right, lcol, rcol).value + (JoinSpec(a[1..], right, lcol, rcol).value + JoinSpec(b, right, lcol, rcol).value)
        == (JoinRow(a[0], right, lcol, rcol).value + JoinSpec(a[1..], right, lcol, rcol).value) + JoinSpec(b, right, lcol, rcol).value;
    }
  }

  /** What a left row with a non-null key contributes: the combination with
      every right row whose key equals it and is not null, one per such row
      in right-table order (MatchRowsAppend, MatchRowsOne), or, when there
      is none, the left row with all right columns null. */
  lemma JoinRowMatches(l: Row, right: seq<Row>, lcol: Col, rcol: Col)
    requires right != [] && lcol in l && l[lcol] != Null
    requires JoinRow(l, right, lcol, rcol).Ok?
    ensures (exists j :: 0 <= j < |right| && KeysMatch(l[lcol], right[j], rcol)) ==>
      forall m :: m in JoinRow(l, right, lcol, rcol).value <==>
        exists j :: 0 <= j < |right| && KeysMatch(l[lcol], right[j], rcol) && m == l + right[j]
    ensures (forall j :: 0 <= j < |right| ==> !KeysMatch(l[lcol], right[j], rcol)) ==>
      JoinRow(l, right, lcol, rcol).value == [Pad(l, right[|right| - 1])]
    ensures (exists j :: 0 <= j < |right| && KeysMatch(l[lcol], right[j], rcol)) ==>
      JoinRow(l, right, lcol, rcol) == MatchRows(l, l[lcol], right, rcol)
  {
    var ms := MatchRows(l, l[lcol], right, rcol).value;
    if exists j :: 0 <= j < |right| && KeysMatch(l[lcol], right[j], rcol) {
      var j :| 0 <= j < |right| && KeysMatch(l[lcol], right[j], rcol);
      assert l + right[j] in ms;
    }
  }

  // ---------------------------------------------------------------------
  // select_rows

  /** `expand_star_column`: every column named `*` (whatever its table
      part) is replaced by all declared columns, in order. */
  function ExpandStar(cols: seq<Col>, declared: seq<Col>): (r: seq<Col>)
    ensures forall c :: c in r ==> c in declared || (c in cols && c.name != Str("*"))
    ensures forall c :: c in cols && c.name != Str("*") ==> c in r
    ensures (exists c :: c in cols && c.name == Str("*")) ==> forall d :: d in declared ==> d in r
    ensures (forall c :: c in cols ==> c.name != Str("*")) ==> r == cols
  {
    if cols == [] then []
    else
      var rest := ExpandStar(cols[1..], declared);
      assert forall c :: c in cols <==> c == cols[0] || c in cols[1..];
      assert cols == [cols[0]] + cols[1..];
      (if cols[0].name == Str("*") then declared else [cols[0]]) + rest
  }

  /** `check_columns_exist`: each name equals some declared column, the
      name being the left operand of the asymmetric equality. */
  predicate AllExist(cols: seq<Col>, declared: seq<Col>)
  {
    forall i :: 0 <= i < |cols| ==> InColumns(cols[i], declared)
  }

  /** One output tuple: the row's values at the output columns, in order. */
  function Tuple(row: Row, cols: seq<Col>): (t: seq<Value>)
    requires forall j :: 0 <= j < |cols| ==> cols[j] in row
    ensures |t| == |cols| && forall j :: 0 <= j < |cols| ==> t[j] == row[cols[j]]
  {
    seq(|cols|, j requires 0 <= j < |cols| => row[cols[j]])
  }

  /** `generate_tuples`: one tuple per row, in row order.  A column a row
      lacks raises (in the source, when the generator reaches that row). */
  function Project(rows: seq<Row>, cols: seq<Col>): (r: Result<seq<seq<Value>>>)
    ensures r.Ok? <==> forall i, j :: 0 <= i < |rows| && 0 <= j < |cols| ==> cols[j] in rows[i]
    ensures r.Ok? ==> |r.value| == |rows| && forall i :: 0 <= i < |rows| ==> r.value[i] == Tuple(rows[i], cols)
  {
    if forall i, j :: 0 <= i < |rows| && 0 <= j < |cols| ==> cols[j] in rows[i] then
      Ok(seq(|rows|, i requires 0 <= i < |rows| => Tuple(rows[i], cols)))
    else Err(Raised)
  }

  /** Python's `==` on two tuples, element by element; a set of tuples finds
      a member by this equality (equal numbers hash alike). */
  predicate TupleEq(a: seq<Value>, b: seq<Value>)
  {
    |a| == |b| && forall i :: 0 <= i < |a| ==> ValueEq(a[i], b[i])
  }

  lemma TupleEqIsEquivalence(a: seq<Value>, b: seq<Value>, c: seq<Value>)
    ensures TupleEq(a, a)
    ensures TupleEq(a, b) ==> TupleEq(b, a)
    ensures TupleEq(a, b) && TupleEq(b, c) ==> TupleEq(a, c)
  {
  }

  /** Some member of `s` equals `t`. */
  predicate Seen(t: seq<Value>, s: seq<seq<Value>>)
  {
    exists i :: 0 <= i < |s| && TupleEq(s[i], t)
  }

  /** No two members are equal. */
  predicate Distinct(r: seq<seq<Value>>)
  {
    forall i, j :: 0 <= i < j < |r| ==> !TupleEq(r[i], r[j])
  }

  /** Every member of `ts` has an equal in `r`. */
  predicate Covers(r: seq<seq<Value>>, ts: seq<seq<Value>>)
  {
    forall k :: 0 <= k < |ts| ==> Seen(ts[k], r)
  }

  /** `ts[k]` equals none of the tuples before it. */
  predicate FirstOccurrence(ts: seq<seq<Value>>, k: int)
    requires 0 <= k < |ts|
  {
    forall m :: 0 <= m < k ==> !TupleEq(ts[m], ts[k])
  }

  /** The `i`-th member of `r` is the first occurrence of its value in
      `ts`, and the positions of those occurrences increase with `i`. */
  predicate FromFirsts(r: seq<seq<Value>>, ts: seq<seq<Value>>, pos: seq<int>)
  {
    |pos| == |r| &&
    (forall i :: 0 <= i < |r| ==> 0 <= pos[i] < |ts| && ts[pos[i]] == r[i] && FirstOccurrence(ts, pos[i])) &&
    (forall i, j :: 0 <= i < j < |r| ==> pos[i] < pos[j])
  }

  /** The first occurrence of each tuple, in order: the specification of
      `remove_duplicates`. */
  function Dedup(ts: seq<seq<Value>>): (r: seq<seq<Value>>)
    ensures |r| <= |ts|
  {
    if ts == [] then []
    else
      var d := Dedup(ts[..|ts| - 1]);
      if Seen(ts[|ts| - 1], d) then d else d + [ts[|ts| - 1]]
  }

  /** The result of `Dedup` holds no two equal tuples, and every input tuple
      has an equal in it. */
  lemma {:induction false} DedupDistinctCovers(ts: seq<seq<Value>>)
    ensures Distinct(Dedup(ts)) && Covers(Dedup(ts), ts)
  {
    if ts != [] {
      var n := |ts| - 1;
      var d := Dedup(ts[..n]);
      DedupDistinctCovers(ts[..n]);
      assert forall k :: 0 <= k < n ==> ts[..n][k] == ts[k];
      if Seen(ts[n], d) {
        forall k | 0 <= k < |ts|
          ensures Seen(ts[k], d)
        {
          if k < n {
            assert Seen(ts[..n][k], d);
          }
        }
      } else {
        var r := d + [ts[n]];
        forall k | 0 <= k < |ts|
          ensures Seen(ts[k], r)
        {
          if k == n {
            assert r[|d|] == ts[n] && TupleEq(ts[n], ts[n]);
          } else {
            assert Seen(ts[..n][k], d);
            var i :| 0 <= i < |d| && TupleEq(d[i], ts[k]);
            assert r[i] == d[i];
          }
        }
        forall i, j | 0 <= i < j < |r|
          ensures !TupleEq(r[i], r[j])
        {
          if j == |d| {
            assert r[i] == d[i] && r[j] == ts[n];
          } else {
            assert r[i] == d[i] && r[j] == d[j];
          }
        }
      }
    }
  }

  lemma FirstOccurrencePrefix(ts: seq<seq<Value>>, n: int, k: int)
    requires 0 <= k < n <= |ts|
    ensures FirstOccurrence(ts[..n], k) == FirstOccurrence(ts, k)
  {
    assert forall m :: 0 <= m <= k ==> ts[..n][m] == ts[m];
  }

  /** A tuple `Dedup` appends equals none before it. */
  lemma AppendedIsFirst(ts: seq<seq<Value>>)
    requires ts != [] && !Seen(ts[|ts| - 1], Dedup(ts[..|ts| - 1]))
    ensures FirstOccurrence(ts, |ts| - 1)
  {
    var n := |ts| - 1;
    var d := Dedup(ts[..n]);
    DedupDistinctCovers(ts[..n]);
    forall m | 0 <= m < n
      ensures !TupleEq(ts[m], ts[n])
    {
      assert ts[..n][m] == ts[m];
      assert Seen(ts[..n][m], d);
      var i :| 0 <= i < |d| && TupleEq(d[i], ts[m]);
      if TupleEq(ts[m], ts[n]) {
        TupleEqIsEquivalence(d[i], ts[m], ts[n]);
      }
    }
  }

  /** First occurrences in a prefix of the tuples are first occurrences
      in the whole, at positions before the prefix ends. */
  lemma FromFirstsWiden(d: seq<seq<Value>>, ts: seq<seq<Value>>, n: int, p: seq<int>)
    requires 0 <= n <= |ts| && FromFirsts(d, ts[..n], p)
    ensures FromFirsts(d, ts, p) && forall i :: 0 <= i < |p| ==> p[i] < n
  {
    forall i | 0 <= i < |d|
      ensures p[i] < n && ts[p[i]] == d[i] && FirstOccurrence(ts, p[i])
    {
      FirstOccurrencePrefix(ts, n, p[i]);
    }
  }

  /** A first occurrence after all the recorded ones extends the record. */
  lemma FromFirstsExtend(d: seq<seq<Value>>, ts: seq<seq<Value>>, n: int, p: seq<int>)
    requires 0 <= n < |ts| && FromFirsts(d, ts, p) && forall i :: 0 <= i < |p| ==> p[i] < n
    requires FirstOccurrence(ts, n)
    ensures FromFirsts(d + [ts[n]], ts, p + [n])
  {
  }

  /** Each tuple `Dedup` keeps is the first occurrence of its value, and
      they appear in input order. */
  lemma {:induction false} DedupFirsts(ts: seq<seq<Value>>) returns (pos: seq<int>)
    ensures FromFirsts(Dedup(ts), ts, pos)
  {
    if ts == [] {
      pos := [];
    } else {
      var n := |ts| - 1;
      var d := Dedup(ts[..n]);
      var p := DedupFirsts(ts[..n]);
      FromFirstsWiden(d, ts, n, p);
      if Seen(ts[n], d) {
        pos := p;
      } else {
        AppendedIsFirst(ts);
        FromFirstsExtend(d, ts, n, p);
        pos := p + [n];
      }
    }
  }

  /** `remove_duplicates`: walk the tuples, keeping each one not seen yet. */
  method RemoveDuplicates(tuples: seq<seq<Value>>) returns (uniques: seq<seq<Value>>)
    ensures uniques == Dedup(tuples)
  {
    var seen: seq<seq<Value>> := [];
    uniques := [];
    var i := 0;
    while i < |tuples|
      invariant 0 <= i <= |tuples|
      invariant uniques == Dedup(tuples[..i]) && seen == uniques
    {
      assert tuples[..i + 1][..i] == tuples[..i];
      var row := tuples[i];
      assert tuples[..i + 1][i] == row;
      if Seen(row, seen) {
        i := i + 1;
        continue;
      }
      seen := seen + [row];
      uniques := uniques + [row];
      i := i + 1;
    }
    assert tuples[..i] == tuples;
  }

  // ---------------------------------------------------------------------
  // Table.select_rows and Database.select

  /** The column of each ORDER BY key. */
  function OrderCols(keys: seq<OrderKey>): (cs: seq<Col>)
    ensures |cs| == |keys| && forall i :: 0 <= i < |keys| ==> cs[i] == keys[i].col
  {
    seq(|keys|, i requires 0 <= i < |keys| => keys[i].col)
  }

  /** The ORDER BY keys with their columns qualified by the table in scope. */
  function QualifyKeys(keys: seq<OrderKey>, table: Value): (qs: seq<OrderKey>)
    ensures |qs| == |keys|
    ensures forall i :: 0 <= i < |keys| ==> qs[i] == keys[i].(col := Qualify(keys[i].col, table))
  {
    seq(|keys|, i requires 0 <= i < |keys| => keys[i].(col := Qualify(keys[i].col, table)))
  }

  /** The matching rows in ORDER BY order, before projection. */
  function SortedMatches(t: Table, keys: seq<OrderKey>, w: Option<WhereClause>): Result<seq<Row>>
  {
    var matching :- KeepRows(t.rows, w, true);
    SortSpec(matching, QualifyKeys(keys, t.name))
  }

  /** `Table.select_rows`: expand `*`, check that the output and ORDER BY
      columns exist, qualify them, filter, sort, project, and with DISTINCT
      keep first occurrences. */
  function SelectSpec(t: Table, output: seq<Col>, keys: seq<OrderKey>, w: Option<WhereClause>, distinct: bool): Result<seq<seq<Value>>>
  {
    var declared := ColumnNames(t);
    var expanded := ExpandStar(output, declared);
    if !AllExist(expanded, declared) || !AllExist(OrderCols(keys), declared) then Err(Raised)
    else
      var sorted :- SortedMatches(t, keys, w);
      var tuples :- Project(sorted, QualifyAll(expanded, t.name));
      Ok(if distinct then Dedup(tuples) else tuples)
  }

  /** The output columns a SELECT produces, once `*` is expanded. */
  function OutputColumns(t: Table, output: seq<Col>): seq<Col>
  {
    QualifyAll(ExpandStar(output, ColumnNames(t)), t.name)
  }

  /** What `select_rows` returns without DISTINCT: exactly the matching
      rows, each once per occurrence, sorted by the ORDER BY keys (ties
      keeping whatever order `tie` already held among the matching rows),
      projected onto the output columns in order. */
  lemma SelectOrdered(t: Table, output: seq<Col>, keys: seq<OrderKey>, w: Option<WhereClause>, tie: (Row, Row) -> bool)
    requires SelectSpec(t, output, keys, w, false).Ok?
    requires forall j :: 0 <= j < |keys| ==> WeakOrder(QualifyKeys(keys, t.name)[j])
    requires KeepRows(t.rows, w, true).Ok? && SortedBy(KeepRows(t.rows, w, true).value, [], tie)
    ensures SortedMatches(t, keys, w).Ok?
    ensures var s := SortedMatches(t, keys, w).value;
      multiset(s) == multiset(KeepRows(t.rows, w, true).value)
      && SortedBy(s, QualifyKeys(keys, t.name), tie)
      && SelectSpec(t, output, keys, w, false) == Project(s, OutputColumns(t, output))
  {
    SortSpecSorted(KeepRows(t.rows, w, true).value, QualifyKeys(keys, t.name), tie);
  }

  /** With DISTINCT the result is the plain result with later duplicates
      dropped: no two tuples are equal and every plain tuple has an equal. */
  lemma SelectDistinct(t: Table, output: seq<Col>, keys: seq<OrderKey>, w: Option<WhereClause>)
    ensures SelectSpec(t, output, keys, w, true).Ok? <==> SelectSpec(t, output, keys, w, false).Ok?
    ensures SelectSpec(t, output, keys, w, true).Ok? ==>
      var plain := SelectSpec(t, output, keys, w, false).value;
      var d := SelectSpec(t, output, keys, w, true).value;
      d == Dedup(plain) && Distinct(d) && Covers(d, plain)
  {
    SelectSpecDedups(t, output, keys, w);
    if SelectSpec(t, output, keys, w, false).Ok? {
      DedupDistinctCovers(SelectSpec(t, output, keys, w, false).value);
    }
  }

  /** DISTINCT changes only the last step of `select_rows`. */
  lemma SelectSpecDedups(t: Table, output: seq<Col>, keys: seq<OrderKey>, w: Option<WhereClause>)
    ensures SelectSpec(t, output, keys, w, true).Ok? <==> SelectSpec(t, output, keys, w, false).Ok?
    ensures SelectSpec(t, output, keys, w, false).Ok? ==>
      SelectSpec(t, output, keys, w, true).value == Dedup(SelectSpec(t, output, keys, w, false).value)
  {
  }

  /** A SELECT with the predicate of a DELETE just run finds nothing. */
  lemma SelectAfterDelete(t: Table, output: seq<Col>, keys: seq<OrderKey>, w: Option<WhereClause>, distinct: bool)
    requires KeepRows(t.rows, w, false).Ok?
    ensures var d := t.(rows := KeepRows(t.rows, w, false).value);
      SelectSpec(d, output, keys, w, distinct).Ok? ==> SelectSpec(d, output, keys, w, distinct) == Ok([])
  {
    var d := t.(rows := KeepRows(t.rows, w, false).value);
    DeleteLeavesNoMatch(t.rows, w);
    assert ColumnNames(d) == ColumnNames(t);
  }

  /** The FROM part of a SELECT: one table, or a LEFT OUTER JOIN. */
  datatype FromJoin = From(table: Value) | LeftJoin(left: Value, right: Value, lcol: Col, rcol: Col)

  /** The table a LEFT OUTER JOIN reads from: named by the empty string,
      the left columns then the right ones, no defaults. */
  function JoinTable(l: Table, r: Table, lcol: Col, rcol: Col): (t: Result<Table>)
    ensures t.Ok? <==> JoinSpec(l.rows, r.rows, lcol, rcol).Ok?
    ensures t.Ok? ==> t.value.columns == l.columns + r.columns && t.value.name == Str("")
    ensures t.Ok? ==> t.value.rows == JoinSpec(l.rows, r.rows, lcol, rcol).value
  {
    var rows :- JoinSpec(l.rows, r.rows, lcol, rcol);
    Ok(Table(Str(""), l.columns + r.columns, rows, map[]))
  }

  /** `Database.select`: the left table must exist; a join also needs the
      right one (a falsy right name means no join). */
  function DbSelect(tables: map<Value, Table>, from: FromJoin, output: seq<Col>, keys: seq<OrderKey>,
                    w: Option<WhereClause>, distinct: bool): (r: Result<seq<seq<Value>>>)
    ensures from.From? ==>
      r == (if from.table in tables then SelectSpec(tables[from.table], output, keys, w, distinct) else Err(Raised))
  {
    match from
    case From(name) =>
      if name !in tables then Err(Raised) else SelectSpec(tables[name], output, keys, w, distinct)
    case LeftJoin(left, right, lcol, rcol) =>
      if left !in tables then Err(Raised)
      else if Falsy(right) then SelectSpec(tables[left], output, keys, w, distinct)
      else if right !in tables then Err(Raised)
      else
        var joined :- JoinTable(tables[left], tables[right], lcol, rcol);
        SelectSpec(joined, output, keys, w, distinct)
  }

  // ---------------------------------------------------------------------
  // min / max aggregation

  /** What the projection list asked of each output column. */
  datatype Aggregate = Plain | Min | Max

  /** `x` beats the running value: strictly smaller for `min`, strictly
      larger for `max` and for a plain column. */
  predicate Better(isMin: bool, x: Value, y: Value)
  {
    if isMin then Less(x, y) else Less(y, x)
  }

  lemma BetterOrder(isMin: bool, x: Value, y: Value, z: Value)
    ensures Better(isMin, x, y) ==> !Better(isMin, y, x)
    ensures Better(isMin, x, y) && Better(isMin, y, z) ==> Better(isMin, x, z)
    ensures Better(isMin, x, z) ==> Better(isMin, x, y) || Better(isMin, y, z)
  {
    if Better(isMin, x, y) {
      if isMin { LessAsymmetric(x, y); } else { LessAsymmetric(y, x); }
    }
    if Better(isMin, x, y) && Better(isMin, y, z) {
      if isMin { LessTransitive(x, y, z); } else { LessTransitive(z, y, x); }
    }
    if Better(isMin, x, z) {
      if isMin { LessNegativelyTransitive(x, y, z); } else { LessNegativelyTransitive(z, y, x); }
    }
  }

  /** The running extreme after scanning `col` front to back, starting from
      its first value and replacing it only by a strictly better one. */
  function Extreme(col: seq<Value>, isMin: bool): Value
    requires col != []
  {
    if |col| == 1 then col[0]
    else
      var b := Extreme(col[..|col| - 1], isMin);
      if Better(isMin, col[|col| - 1], b) then col[|col| - 1] else b
  }

  /** The extreme is a value of the column, nothing beats it, and it is its
      first such value: every earlier value is strictly worse. */
  lemma {:induction false} ExtremeIsFirstBest(col: seq<Value>, isMin: bool) returns (k0: nat)
    requires col != []
    ensures k0 < |col| && col[k0] == Extreme(col, isMin)
    ensures forall k :: 0 <= k < |col| ==> !Better(isMin, col[k], Extreme(col, isMin))
    ensures forall k :: 0 <= k < k0 ==> Better(isMin, Extreme(col, isMin), col[k])
  {
    var n := |col| - 1;
    if n == 0 {
      k0 := 0;
      if Better(isMin, col[0], col[0]) {
        BetterOrder(isMin, col[0], col[0], col[0]);
      }
    } else {
      var p := col[..n];
      var b := Extreme(p, isMin);
      var j := ExtremeIsFirstBest(p, isMin);
      assert forall k :: 0 <= k < n ==> p[k] == col[k];
      var x := col[n];
      if Better(isMin, x, b) {
        k0 := n;
        forall k | 0 <= k < |col|
          ensures !Better(isMin, col[k], x)
        {
          BetterOrder(isMin, x, col[k], x);
          if k < n {
            BetterOrder(isMin, col[k], x, b);
          }
        }
        forall k | 0 <= k < n
          ensures Better(isMin, x, col[k])
        {
          BetterOrder(isMin, x, col[k], b);
        }
      } else {
        k0 := j;
      }
    }
  }

  /** One column of the tuples. */
  function Column(rows: seq<seq<Value>>, i: nat): (col: seq<Value>)
    requires forall k :: 0 <= k < |rows| ==> i < |rows[k]|
    ensures |col| == |rows| && forall k :: 0 <= k < |rows| ==> col[k] == rows[k][i]
  {
    seq(|rows|, k requires 0 <= k < |rows| => rows[k][i])
  }

  predicate HasAggregate(aggs: seq<Aggregate>)
  {
    exists i :: 0 <= i < |aggs| && aggs[i] != Plain
  }

  /** A SELECT's result after aggregation: unchanged unless some column is
      `min` or `max`; otherwise one tuple of running extremes, `min` for
      the `min` columns and maximum for all others.  An empty result, or a
      tuple shorter than the projection list, raises. */
  function AggregateSpec(rows: seq<seq<Value>>, aggs: seq<Aggregate>): (r: Result<seq<seq<Value>>>)
    ensures !HasAggregate(aggs) ==> r == Ok(rows)
    ensures HasAggregate(aggs) ==> (r.Ok? <==> rows != [] && forall k :: 0 <= k < |rows| ==> |aggs| <= |rows[k]|)
    ensures r.Err? ==> r == Err(Raised)
  {
    if !HasAggregate(aggs) then Ok(rows)
    else if rows == [] || exists k :: 0 <= k < |rows| && |rows[k]| < |aggs| then Err(Raised)
    else Ok([seq(|aggs|, i requires 0 <= i < |aggs| => Extreme(Column(rows, i), aggs[i] == Min))])
  }

  /** The aggregate of each column is a value of that column that no value
      of the column beats. */
  lemma AggregateIsExtreme(rows: seq<seq<Value>>, aggs: seq<Aggregate>, i: nat)
    requires HasAggregate(aggs) && AggregateSpec(rows, aggs).Ok? && i < |aggs|
    ensures |AggregateSpec(rows, aggs).value| == 1
    ensures var v := AggregateSpec(rows, aggs).value[0][i];
      (exists k :: 0 <= k < |rows| && rows[k][i] == v)
      && forall k :: 0 <= k < |rows| ==> !Better(aggs[i] == Min, rows[k][i], v)
  {
    var k0 := ExtremeIsFirstBest(Column(rows, i), aggs[i] == Min);
  }

  /** Scanning one more tuple extends the running extreme by one step. */
  lemma ExtremeSnoc(rows: seq<seq<Value>>, i: nat, k: nat, isMin: bool)
    requires 0 < k < |rows| && forall m :: 0 <= m <= k ==> i < |rows[m]|
    ensures var b := Extreme(Column(rows[..k], i), isMin);
      Extreme(Column(rows[..k + 1], i), isMin) == if Better(isMin, rows[k][i], b) then rows[k][i] else b
  {
    assert Column(rows[..k + 1], i)[..k] == Column(rows[..k], i);
  }

  /** The loop over the tuples for one column. */
  method ColumnExtreme(rows: seq<seq<Value>>, i: nat, isMin: bool) returns (r: Result<Value>)
    ensures r.Ok? <==> rows != [] && forall k :: 0 <= k < |rows| ==> i < |rows[k]|
    ensures r.Ok? ==> r.value == Extreme(Column(rows, i), isMin)
  {
    if rows == [] || |rows[0]| <= i {
      return Err(Raised);
    }
    var best := rows[0][i];
    BetterOrder(isMin, best, best, best);
    var k := 0;
    while k < |rows|
      invariant 0 <= k <= |rows|
      invariant forall m :: 0 <= m < k ==> i < |rows[m]|
      invariant k == 0 ==> best == rows[0][i]
      invariant k > 0 ==> best == Extreme(Column(rows[..k], i), isMin)
    {
      if |rows[k]| <= i {
        return Err(Raised);
      }
      if k > 0 {
        ExtremeSnoc(rows, i, k, isMin);
      }
      if Better(isMin, rows[k][i], best) {
        best := rows[k][i];
      }
      k := k + 1;
    }
    assert rows[..k] == rows;
    return Ok(best);
  }

  /** A column that some tuple lacks makes the aggregation raise. */
  lemma AggregateSpecShort(rows: seq<seq<Value>>, aggs: seq<Aggregate>, i: nat)
    requires HasAggregate(aggs) && i < |aggs|
    requires !(rows != [] && forall k :: 0 <= k < |rows| ==> i < |rows[k]|)
    ensures AggregateSpec(rows, aggs) == Err(Raised)
  {
    if rows != [] {
      var k :| 0 <= k < |rows| && |rows[k]| <= i;
      assert |rows[k]| < |aggs|;
    }
  }

  /** The running extremes of every column make up the one aggregated tuple. */
  lemma AggregateSpecTuple(rows: seq<seq<Value>>, aggs: seq<Aggregate>, aggregated: seq<Value>)
    requires HasAggregate(aggs) && rows != [] && forall k :: 0 <= k < |rows| ==> |aggs| <= |rows[k]|
    requires |aggregated| == |aggs|
    requires forall m :: 0 <= m < |aggs| ==> aggregated[m] == Extreme(Column(rows, m), aggs[m] == Min)
    ensures AggregateSpec(rows, aggs) == Ok([aggregated])
  {
    assert aggregated == seq(|aggs|, i requires 0 <= i < |aggs| => Extreme(Column(rows, i), aggs[i] == Min));
  }

  /** The aggregation loop of the SELECT statement: one running extreme
      per column. */
  method AggregateRows(rows: seq<seq<Value>>, aggs: seq<Aggregate>) returns (r: Result<seq<seq<Value>>>)
    ensures r == AggregateSpec(rows, aggs)
  {
    if !HasAggregate(aggs) {
      return Ok(rows);
    }
    var aggregated: seq<Value> := [];
    var i := 0;
    while i < |aggs|
      invariant 0 <= i <= |aggs| && |aggregated| == i
      invariant i > 0 ==> rows != [] && forall k :: 0 <= k < |rows| ==> i <= |rows[k]|
      invariant forall m :: 0 <= m < i ==> aggregated[m] == Extreme(Column(rows, m), aggs[m] == Min)
    {
      var v := ColumnExtreme(rows, i, aggs[i] == Min);
      if v.Err? {
        AggregateSpecShort(rows, aggs, i);
        return Err(Raised);
      }
      aggregated := aggregated + [v.value];
      i := i + 1;
    }
    AggregateSpecTuple(rows, aggs, aggregated);
    return Ok([aggregated]);
  }
}
