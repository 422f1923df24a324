/** The placeholder substitution of `Connection.executemany`: for each value
    of a value set, in order, the first `?` left in the statement text is
    replaced by the value's text.  A text value is wrapped in single quotes,
    with no escaping; any other value is written as Python's `str` writes it. */
module Substitution {
  import opened Wrappers
  import opened Values
  import opened Tokenizer

  /** Python's `str` of an int. */
  function IntText(i: int): string
  {
    if i < 0 then "-" + NatDigits(-i) else NatDigits(i)
  }

  /** The text a value is written as in the statement. */
  function Render(v: Value): string
  {
    match v
    case Null => "None"
    case Int(i) => IntText(i)
    case Str(s) => "'" + s + "'"
    case Real(w, f) => w + "." + f
  }

  /** The number of `?` in a text. */
  function Marks(s: string): nat
  {
    if s == [] then 0 else (if s[0] == '?' then 1 else 0) + Marks(s[1..])
  }

  /** The position of the first `?`, or the length when there is none. */
  function FirstMark(s: string): (i: nat)
    ensures i <= |s|
    ensures forall k :: 0 <= k < i ==> s[k] != '?'
    ensures i < |s| ==> s[i] == '?'
  {
    if s == [] || s[0] == '?' then 0 else 1 + FirstMark(s[1..])
  }

  /** `s.replace("?", rep, 1)`. */
  function ReplaceFirst(s: string, rep: string): string
  {
    var i := FirstMark(s);
    if i == |s| then s else s[..i] + rep + s[i + 1..]
  }

  /** The statement once every value of one set has been substituted. */
  function SubstituteAll(s: string, vs: seq<Value>): string
    decreases |vs|
  {
    if vs == [] then s else SubstituteAll(ReplaceFirst(s, Render(vs[0])), vs[1..])
  }

  /** The inner loop of `executemany`. */
  method Substitute(statement: string, values: seq<Value>) returns (r: string)
    ensures r == SubstituteAll(statement, values)
  {
    r := statement;
    for i := 0 to |values|
      invariant SubstituteAll(statement, values) == SubstituteAll(r, values[i..])
    {
      assert values[i..][1..] == values[i + 1..];
      r := ReplaceFirst(r, Render(values[i]));
    }
    assert values[|values|..] == [];
  }

  /** Placeholders filled from left to right in one pass over the text:
      the i-th `?` of the statement gets the i-th value, and `?` beyond the
      values stay. */
  function FillMarks(s: string, vs: seq<Value>): string
  {
    if s == [] then []
    else if s[0] == '?' && vs != [] then Render(vs[0]) + FillMarks(s[1..], vs[1..])
    else [s[0]] + FillMarks(s[1..], vs)
  }

  lemma {:induction false} MarksAppend(a: string, b: string)
    ensures Marks(a + b) == Marks(a) + Marks(b)
  {
    if a == [] {
      assert a + b == b;
    } else {
      assert (a + b)[0] == a[0];
      assert (a + b)[1..] == a[1..] + b;
      MarksAppend(a[1..], b);
    }
  }

  /** Replacing the first `?` removes it and adds the marks of the text
      put in its place; without a `?` the text is left as it was. */
  lemma ReplaceFirstMarks(s: string, rep: string)
    ensures Marks(s) == 0 ==> ReplaceFirst(s, rep) == s
    ensures Marks(s) > 0 ==> Marks(ReplaceFirst(s, rep)) == Marks(s) - 1 + Marks(rep)
  {
    var i := FirstMark(s);
    assert Marks(s) == Marks(s[i..]) by {
      MarksNone(s[..i]);
      assert s == s[..i] + s[i..];
      MarksAppend(s[..i], s[i..]);
    }
    if i < |s| {
      assert Marks(s[i..]) == 1 + Marks(s[i + 1..]) by {
        assert s[i..][0] == '?' && s[i..][1..] == s[i + 1..];
      }
      assert Marks(ReplaceFirst(s, rep)) == Marks(rep) + Marks(s[i + 1..]) by {
        MarksNone(s[..i]);
        MarksAppend(s[..i] + rep, s[i + 1..]);
        MarksAppend(s[..i], rep);
      }
    }
  }

  lemma {:induction false} MarksNone(s: string)
    requires forall k :: 0 <= k < |s| ==> s[k] != '?'
    ensures Marks(s) == 0
  {
    if s != [] {
      MarksNone(s[1..]);
    }
  }

  /** A text without `?` is left alone by substitution. */
  lemma {:induction false} SubstituteWithoutMarks(p: string, t: string, vs: seq<Value>)
    requires forall k :: 0 <= k < |p| ==> p[k] != '?'
    decreases |vs|
    ensures SubstituteAll(p + t, vs) == p + SubstituteAll(t, vs)
  {
    if vs != [] {
      var rep := Render(vs[0]);
      ReplaceFirstAfter(p, t, rep);
      SubstituteWithoutMarks(p, ReplaceFirst(t, rep), vs[1..]);
    }
  }

  lemma ReplaceFirstAfter(p: string, t: string, rep: string)
    requires forall k :: 0 <= k < |p| ==> p[k] != '?'
    ensures ReplaceFirst(p + t, rep) == p + ReplaceFirst(t, rep)
  {
    var i := FirstMark(t);
    var s := p + t;
    assert FirstMark(s) == |p| + i by {
      FirstMarkAfter(p, t);
    }
    if i < |t| {
      assert s[..|p| + i] == p + t[..i];
      assert s[|p| + i + 1..] == t[i + 1..];
      assert (p + t[..i]) + rep + t[i + 1..] == p + (t[..i] + rep + t[i + 1..]);
    }
  }

  lemma {:induction false} FirstMarkAfter(p: string, t: string)
    requires forall k :: 0 <= k < |p| ==> p[k] != '?'
    ensures FirstMark(p + t) == |p| + FirstMark(t)
  {
    if p != [] {
      assert (p + t)[1..] == p[1..] + t;
      FirstMarkAfter(p[1..], t);
    } else {
      assert p + t == t;
    }
  }

  lemma {:induction false} FillWithoutMarks(p: string, t: string, vs: seq<Value>)
    requires forall k :: 0 <= k < |p| ==> p[k] != '?'
    ensures FillMarks(p + t, vs) == p + FillMarks(t, vs)
  {
    if p != [] {
      assert (p + t)[1..] == p[1..] + t;
      FillWithoutMarks(p[1..], t, vs);
      assert [p[0]] + p[1..] == p;
    } else {
      assert p + t == t;
    }
  }

  lemma {:induction false} FillNoValues(s: string)
    ensures FillMarks(s, []) == s
  {
    if s != [] {
      FillNoValues(s[1..]);
      assert [s[0]] + s[1..] == s;
    }
  }

  /** When no value's text holds a `?`, substituting one value at a time
      is filling the placeholders from left to right. */
  lemma {:induction false} SubstituteIsFill(s: string, vs: seq<Value>)
    requires forall j :: 0 <= j < |vs| ==> Marks(Render(vs[j])) == 0
    decreases |vs|
    ensures SubstituteAll(s, vs) == FillMarks(s, vs)
  {
    if vs == [] {
      FillNoValues(s);
    } else {
      var i := FirstMark(s);
      var rep := Render(vs[0]);
      if i == |s| {
        assert SubstituteAll(s, vs) == s by {
          assert ReplaceFirst(s, rep) == s;
          assert s + [] == s;
          SubstituteWithoutMarks(s, [], vs[1..]);
          EmptyStaysEmpty(vs[1..]);
        }
        assert FillMarks(s, vs) == s by {
          assert s + [] == s;
          FillWithoutMarks(s, [], vs);
          assert FillMarks([], vs) == [];
        }
      } else {
        var t := s[i + 1..];
        var p := s[..i] + rep;
        assert SubstituteAll(s, vs) == p + SubstituteAll(t, vs[1..]) by {
          MarksFree(rep, vs[0]);
          PrefixAndValueFree(s, rep);
          assert ReplaceFirst(s, rep) == p + t;
          SubstituteWithoutMarks(p, t, vs[1..]);
        }
        assert FillMarks(s, vs) == p + FillMarks(t, vs[1..]) by {
          assert s == s[..i] + (['?'] + t);
          assert forall k :: 0 <= k < i ==> s[..i][k] == s[k];
          FillAfterPrefix(s[..i], t, vs);
        }
        SubstituteIsFill(t, vs[1..]);
      }
    }
  }

  /** Filling goes through a prefix without `?` unchanged and puts the
      first value at the `?` after it. */
  lemma FillAfterPrefix(p: string, t: string, vs: seq<Value>)
    requires forall k :: 0 <= k < |p| ==> p[k] != '?'
    requires vs != []
    ensures FillMarks(p + (['?'] + t), vs) == p + (Render(vs[0]) + FillMarks(t, vs[1..]))
  {
    FillWithoutMarks(p, ['?'] + t, vs);
    assert (['?'] + t)[1..] == t;
  }

  lemma PrefixAndValueFree(s: string, rep: string)
    requires forall k :: 0 <= k < |rep| ==> rep[k] != '?'
    ensures var p := s[..FirstMark(s)] + rep; forall k :: 0 <= k < |p| ==> p[k] != '?'
  {
    var i := FirstMark(s);
    var p := s[..i] + rep;
    forall k | 0 <= k < |p|
      ensures p[k] != '?'
    {
      if k >= i {
        assert p[k] == rep[k - i];
      }
    }
  }

  lemma {:induction false} EmptyStaysEmpty(vs: seq<Value>)
    decreases |vs|
    ensures SubstituteAll([], vs) == []
  {
    if vs != [] {
      assert ReplaceFirst([], Render(vs[0])) == [];
      EmptyStaysEmpty(vs[1..]);
    }
  }

  /** A text of no marks has no `?` at any position. */
  lemma MarksFree(rep: string, v: Value)
    requires rep == Render(v) && Marks(rep) == 0
    ensures forall k :: 0 <= k < |rep| ==> rep[k] != '?'
  {
    forall k | 0 <= k < |rep|
      ensures rep[k] != '?'
    {
      assert Marks(rep) >= Marks([rep[k]]) by {
        assert rep == rep[..k] + [rep[k]] + rep[k + 1..];
        MarksAppend(rep[..k] + [rep[k]], rep[k + 1..]);
        MarksAppend(rep[..k], [rep[k]]);
      }
    }
  }

  /** A text value holding a `?` is not substituted as a placeholder fill
      would: the next value replaces the `?` inside the quotes. */
  lemma MarkInsideValue()
    ensures SubstituteAll("??", [Str("?"), Int(1)]) == "'1'?"
    ensures FillMarks("??", [Str("?"), Int(1)]) == "'?'1"
  {
    var vs := [Str("?"), Int(1)];
    assert Render(Int(1)) == "1" by {
      assert NatDigits(1) == "1";
    }
    assert SubstituteAll("??", vs) == "'1'?" by {
      assert ReplaceFirst("??", "'?'") == "'?'?" by {
        assert FirstMark("??") == 0;
        assert "??"[..0] == [] && "??"[1..] == "?";
        assert [] + "'?'" + "?" == "'?'?";
      }
      assert ReplaceFirst("'?'?", "1") == "'1'?" by {
        assert FirstMark("'?'?") == 1 by {
          assert "'?'?"[1..] == "?'?";
        }
        assert "'?'?"[..1] == "'" && "'?'?"[2..] == "'?";
        assert "'" + "1" + "'?" == "'1'?";
      }
      assert Render(Str("?")) == "'?'";
      assert vs[0] == Str("?") && vs[1..] == [Int(1)] && [Int(1)][1..] == [];
      assert SubstituteAll("??", vs) == SubstituteAll("'?'?", [Int(1)]);
      assert SubstituteAll("'?'?", [Int(1)]) == SubstituteAll("'1'?", []);
    }
    assert FillMarks("??", vs) == "'?'1" by {
      assert "??"[1..] == "?" && "?"[1..] == [];
      assert FillMarks("?", [Int(1)]) == "1" + FillMarks([], []);
    }
  }

  /** A text value without quotes in it reads back as the same text. */
  lemma RenderedTextReadsBack(s: string, rest: string)
    requires forall k :: 0 <= k < |s| ==> s[k] != '\''
    requires rest != [] && rest[0] != '\''
    ensures Lex(Render(Str(s)) + rest) == Prepend([Str(s)], Lex(rest))
  {
    EscapeWithoutQuote(s);
    LexQuoted(s, '\'', rest);
  }

  lemma {:induction false} EscapeWithoutQuote(s: string)
    requires forall k :: 0 <= k < |s| ==> s[k] != '\''
    ensures Escape(s, '\'') == s
  {
    if s != [] {
      EscapeWithoutQuote(s[1..]);
      assert [s[0]] + s[1..] == s;
    }
  }

  /** A natural number reads back as the same number. */
  lemma RenderedNatReadsBack(n: nat, rest: string)
    requires rest != [] && !IsDigit(rest[0]) && rest[0] != '.'
    ensures Lex(Render(Int(n)) + rest) == Prepend([Int(n)], Lex(rest))
  {
    LexNat(n, rest);
  }

  /** None is written as the word None, which reads back as a text token,
      not as NULL. */
  lemma NullReadsBackAsWord(rest: string)
    requires rest == [] || !IsWordChar(rest[0])
    ensures Lex(Render(Null) + rest) == Prepend([Str("None")], Lex(rest))
  {
    LexWord("None", rest);
  }
}
