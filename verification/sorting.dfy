/** `sort_rows`: ORDER BY with several keys, each ascending or descending,
    compared by value or through a user collation.  The source sorts once
    per key, last key first, with Python's stable `sorted`; the model's
    stable sort is an insertion sort, which yields the same order whenever
    the key's comparison is a strict weak order. */
module Sorting {
  import opened Wrappers
  import opened Values
  import opened Columns
  import opened Tables

  /** A collation registered with `create_collation`: negative when its
      first argument sorts first. */
  type Collation = (Value, Value) -> int

  datatype OrderKey = OrderKey(col: Col, collate: Option<Collation>, descend: bool)

  /** Whether value `x` sorts strictly before value `y` under the key,
      ignoring its direction. */
  predicate ValueBefore(k: OrderKey, x: Value, y: Value)
  {
    if k.collate.Some? then k.collate.value(x, y) < 0 else Less(x, y)
  }

  /** Whether row `a` sorts strictly before row `b` under the key; DESC
      reverses the comparison. */
  predicate Before(k: OrderKey, a: Row, b: Row)
  {
    k.col in a && k.col in b &&
    if k.descend then ValueBefore(k, b[k.col], a[k.col]) else ValueBefore(k, a[k.col], b[k.col])
  }

  /** The key's comparison is a strict weak order: asymmetric, and when
      `x` is before `z`, every `y` is after `x` or before `z`. */
  ghost predicate WeakOrder(k: OrderKey)
  {
    (forall x, y :: ValueBefore(k, x, y) ==> !ValueBefore(k, y, x))
    && (forall x, y, z {:trigger ValueBefore(k, x, y), ValueBefore(k, y, z)} {:trigger ValueBefore(k, x, z), ValueBefore(k, x, y)} {:trigger ValueBefore(k, x, z), ValueBefore(k, y, z)} ::
          ValueBefore(k, x, z) ==> ValueBefore(k, x, y) || ValueBefore(k, y, z))
  }

  /** Comparing by value, without a collation, is always a strict weak order. */
  lemma ValueKeyIsWeakOrder(k: OrderKey)
    requires k.collate.None?
    ensures WeakOrder(k)
  {
    forall x, y | ValueBefore(k, x, y)
      ensures !ValueBefore(k, y, x)
    {
      LessAsymmetric(x, y);
    }
    forall x, y, z | ValueBefore(k, x, z)
      ensures ValueBefore(k, x, y) || ValueBefore(k, y, z)
    {
      LessNegativelyTransitive(x, y, z);
    }
  }

  /** Stable insertion: `x` goes before the first row it sorts strictly
      before, that is after every row it ties with. */
  function Insert(k: OrderKey, x: Row, s: seq<Row>): (r: seq<Row>)
    ensures multiset(r) == multiset(s) + multiset{x}
  {
    if s == [] then [x]
    else if Before(k, x, s[0]) then [x] + s
    else
      assert s == [s[0]] + s[1..];
      [s[0]] + Insert(k, x, s[1..])
  }

  /** Python's stable `sorted` on one key. */
  function StableSort(k: OrderKey, rows: seq<Row>): (r: seq<Row>)
    ensures multiset(r) == multiset(rows)
  {
    if rows == [] then []
    else
      var n := |rows| - 1;
      assert rows == rows[..n] + [rows[n]];
      Insert(k, rows[n], StableSort(k, rows[..n]))
  }

  /** Some row lacks the key's column. */
  predicate KeyMissing(k: OrderKey, rows: seq<Row>)
  {
    exists i :: 0 <= i < |rows| && k.col !in rows[i]
  }

  /** One pass of `sort_rows`.  Without a collation every row's key is read
      before sorting; with one, keys are read only by comparisons, which a
      single row never makes.  A missing column raises. */
  function SortByKey(rows: seq<Row>, k: OrderKey): (r: Result<seq<Row>>)
    ensures r.Err? <==> KeyMissing(k, rows) && (if k.collate.None? then |rows| >= 1 else |rows| >= 2)
    ensures r.Err? ==> r == Err(Raised)
    ensures r.Ok? ==> multiset(r.value) == multiset(rows)
  {
    if KeyMissing(k, rows) && (if k.collate.None? then |rows| >= 1 else |rows| >= 2) then Err(Raised)
    else Ok(StableSort(k, rows))
  }

  /** The order `sort_rows` produces: sort by the last key, then by the one
      before it, and so on to the first. */
  function SortSpec(rows: seq<Row>, keys: seq<OrderKey>): (r: Result<seq<Row>>)
    ensures r.Err? ==> r == Err(Raised)
    ensures r.Ok? ==> multiset(r.value) == multiset(rows)
  {
    if keys == [] then Ok(rows)
    else
      var s :- SortSpec(rows, keys[1..]);
      SortByKey(s, keys[0])
  }

  /** `sort_rows`.  The source reverses the key list in place and then
      walks it forwards; here the walk goes backwards over the keys. */
  method SortRows(rows: seq<Row>, keys: seq<OrderKey>) returns (r: Result<seq<Row>>)
    ensures r == SortSpec(rows, keys)
  {
    var current := rows;
    var i := |keys|;
    assert keys[i..] == [];
    while i > 0
      invariant 0 <= i <= |keys|
      invariant SortSpec(rows, keys[i..]) == Ok(current)
    {
      assert keys[i - 1..][1..] == keys[i..];
      var next := SortByKey(current, keys[i - 1]);
      if next.Err? {
        assert SortSpec(rows, keys[i - 1..]).Err?;
        SortSpecErrFromSuffix(rows, keys, i - 1);
        return next;
      }
      current := next.value;
      i := i - 1;
    }
    return Ok(current);
  }

  /** A pass that raises makes the whole sort raise. */
  lemma {:induction false} SortSpecErrFromSuffix(rows: seq<Row>, keys: seq<OrderKey>, i: nat)
    requires i <= |keys| && SortSpec(rows, keys[i..]).Err?
    ensures SortSpec(rows, keys).Err?
    decreases i
  {
    if i > 0 {
      assert keys[i - 1..][1..] == keys[i..];
      assert SortSpec(rows, keys[i - 1..]).Err?;
      SortSpecErrFromSuffix(rows, keys, i - 1);
    } else {
      assert keys[0..] == keys;
    }
  }

  // ---------------------------------------------------------------------
  // The order produced

  /** The lexicographic order of the keys, the first key dominant; rows
      that tie on every key are ordered by `tie`. */
  predicate LexBefore(keys: seq<OrderKey>, a: Row, b: Row, tie: (Row, Row) -> bool)
  {
    if keys == [] then tie(a, b)
    else Before(keys[0], a, b) || (!Before(keys[0], b, a) && LexBefore(keys[1..], a, b, tie))
  }

  /** No row is strictly before one that precedes it. */
  predicate SortedBy(s: seq<Row>, keys: seq<OrderKey>, tie: (Row, Row) -> bool)
  {
    forall i, j :: 0 <= i < j < |s| ==> !LexBefore(keys, s[j], s[i], tie)
  }

  /** Putting a row in front of a sorted sequence keeps it sorted when no
      row of the sequence is before it. */
  lemma SortedCons(y: Row, t: seq<Row>, keys: seq<OrderKey>, tie: (Row, Row) -> bool)
    requires SortedBy(t, keys, tie)
    requires forall j :: 0 <= j < |t| ==> !LexBefore(keys, t[j], y, tie)
    ensures SortedBy([y] + t, keys, tie)
  {
    var r := [y] + t;
    forall i, j | 0 <= i < j < |r|
      ensures !LexBefore(keys, r[j], r[i], tie)
    {
      assert r[j] == t[j - 1];
      if i > 0 { assert r[i] == t[i - 1]; }
    }
  }

  /** A row before the first of a sorted sequence is before all of it. */
  lemma {:induction false} BeforeFirstBeforeAll(k: OrderKey, rest: seq<OrderKey>, tie: (Row, Row) -> bool, x: Row, s: seq<Row>)
    requires WeakOrder(k)
    requires forall i :: 0 <= i < |s| ==> k.col in s[i]
    requires SortedBy(s, [k] + rest, tie)
    requires s != [] && Before(k, x, s[0])
    ensures forall j :: 0 <= j < |s| ==> Before(k, x, s[j]) && !Before(k, s[j], x)
  {
    var keys := [k] + rest;
    assert keys[0] == k && keys[1..] == rest;
    forall j | 0 <= j < |s|
      ensures Before(k, x, s[j]) && !Before(k, s[j], x)
    {
      if j > 0 {
        assert !LexBefore(keys, s[j], s[0], tie);
        assert !Before(k, s[j], s[0]);
        var a, b, c := x[k.col], s[j][k.col], s[0][k.col];
        if k.descend {
          assert ValueBefore(k, c, a);
          assert ValueBefore(k, c, b) || ValueBefore(k, b, a);
        } else {
          assert ValueBefore(k, a, c);
          assert ValueBefore(k, a, b) || ValueBefore(k, b, c);
        }
      }
    }
  }

  lemma {:induction false} InsertSorted(k: OrderKey, rest: seq<OrderKey>, tie: (Row, Row) -> bool, x: Row, s: seq<Row>)
    requires WeakOrder(k)
    requires k.col in x && forall i :: 0 <= i < |s| ==> k.col in s[i]
    requires SortedBy(s, [k] + rest, tie)
    requires forall i :: 0 <= i < |s| ==> !LexBefore(rest, x, s[i], tie)
    ensures SortedBy(Insert(k, x, s), [k] + rest, tie)
  {
    var keys := [k] + rest;
    assert keys[0] == k && keys[1..] == rest;
    if s == [] {
    } else if Before(k, x, s[0]) {
      BeforeFirstBeforeAll(k, rest, tie, x, s);
      SortedCons(x, s, keys, tie);
    } else {
      assert SortedBy(s[1..], keys, tie) by {
        forall i, j | 0 <= i < j < |s[1..]|
          ensures !LexBefore(keys, s[1..][j], s[1..][i], tie)
        {
          assert s[1..][i] == s[i + 1] && s[1..][j] == s[j + 1];
        }
      }
      InsertSorted(k, rest, tie, x, s[1..]);
      var t := Insert(k, x, s[1..]);
      forall j | 0 <= j < |t|
        ensures !LexBefore(keys, t[j], s[0], tie)
      {
        assert t[j] in multiset(t);
        assert t[j] in multiset(s[1..]) + multiset{x};
        if t[j] != x {
          var m :| 0 <= m < |s[1..]| && s[1..][m] == t[j];
          assert s[m + 1] == t[j];
        }
      }
      SortedCons(s[0], t, keys, tie);
    }
  }

  /** A stable sort on key `k` of rows already in the order of the keys
      after it leaves them in the order of all the keys: the new key
      decides, ties keep the order they had. */
  lemma {:induction false} StableSortSorted(k: OrderKey, rest: seq<OrderKey>, tie: (Row, Row) -> bool, rows: seq<Row>)
    requires WeakOrder(k)
    requires forall i :: 0 <= i < |rows| ==> k.col in rows[i]
    requires SortedBy(rows, rest, tie)
    ensures SortedBy(StableSort(k, rows), [k] + rest, tie)
  {
    if rows != [] {
      var n := |rows| - 1;
      var prefix := rows[..n];
      assert SortedBy(prefix, rest, tie) by {
        forall i, j | 0 <= i < j < |prefix|
          ensures !LexBefore(rest, prefix[j], prefix[i], tie)
        {
          assert prefix[i] == rows[i] && prefix[j] == rows[j];
        }
      }
      StableSortSorted(k, rest, tie, prefix);
      var s := StableSort(k, prefix);
      forall i | 0 <= i < |s|
        ensures k.col in s[i] && !LexBefore(rest, rows[n], s[i], tie)
      {
        assert s[i] in multiset(prefix);
        var m :| 0 <= m < n && prefix[m] == s[i];
      }
      InsertSorted(k, rest, tie, rows[n], s);
    }
  }

  /** A sequence of at most one row is sorted in every order. */
  lemma ShortIsSorted(s: seq<Row>, keys: seq<OrderKey>, tie: (Row, Row) -> bool)
    requires |s| <= 1
    ensures SortedBy(s, keys, tie)
  {
  }

  /** The ORDER BY promise: when every key compares as a strict weak order,
      a sort that goes through returns a permutation of its rows sorted by
      the keys lexicographically, the first key dominant, DESC reversing
      only its own key; rows that tie on every key keep the order `tie`
      they were in before. */
  lemma {:induction false} SortSpecSorted(rows: seq<Row>, keys: seq<OrderKey>, tie: (Row, Row) -> bool)
    requires forall j :: 0 <= j < |keys| ==> WeakOrder(keys[j])
    requires SortedBy(rows, [], tie)
    requires SortSpec(rows, keys).Ok?
    ensures multiset(SortSpec(rows, keys).value) == multiset(rows)
    ensures SortedBy(SortSpec(rows, keys).value, keys, tie)
  {
    if keys != [] {
      var s := SortSpec(rows, keys[1..]).value;
      SortSpecSorted(rows, keys[1..], tie);
      if |s| <= 1 {
        ShortIsSorted(SortSpec(rows, keys).value, keys, tie);
      } else {
        assert !KeyMissing(keys[0], s);
        StableSortSorted(keys[0], keys[1..], tie, s);
        assert [keys[0]] + keys[1..] == keys;
      }
    }
  }
}
