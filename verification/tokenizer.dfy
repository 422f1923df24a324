/** The tokenizer: a statement string becomes a sequence of tokens.  Words,
    punctuation and quoted texts all become `Str` tokens (the source keeps
    them all as Python strings), the word NULL becomes `Null`, a digit run an
    `Int` and `digits.digits` a `Real`. */
module Tokenizer {
  import opened Wrappers
  import opened Values

  /** Python's `string.whitespace`. */
  const Whitespace: set<char> := {' ', '\t', '\n', '\r', '\U{B}', '\U{C}'}

  const Punctuation: string := "(),;*.><="

  predicate IsLetter(c: char) { 'a' <= c <= 'z' || 'A' <= c <= 'Z' }

  predicate IsWordStart(c: char) { IsLetter(c) || c == '_' }

  predicate IsWordChar(c: char) { IsWordStart(c) || IsDigit(c) }

  predicate IsQuote(c: char) { c == '\'' || c == '"' }

  datatype CharClass = Space | WordChars | Digits

  predicate InClass(c: char, k: CharClass)
  {
    match k
    case Space => c in Whitespace
    case WordChars => IsWordChar(c)
    case Digits => IsDigit(c)
  }

  /** `collect_characters`: the length of the longest prefix of `q` whose
      characters all belong to the class. */
  function Span(q: string, k: CharClass): (n: nat)
    ensures n <= |q|
    ensures forall i :: 0 <= i < n ==> InClass(q[i], k)
    ensures n < |q| ==> !InClass(q[n], k)
  {
    if q == [] || !InClass(q[0], k) then 0 else 1 + Span(q[1..], k)
  }

  /** `remove_word`: a word, or the null token for NULL. */
  function RemoveWord(q: string): (r: (Value, string))
    requires q != [] && IsWordStart(q[0])
    ensures |r.1| < |q|
  {
    var n := Span(q, WordChars);
    (if q[..n] == "NULL" then Null else Str(q[..n]), q[n..])
  }

  /** `remove_number`: a digit run, and when a dot follows, a second digit
      run after it.  The source indexes the character after the first run
      unguarded, so a number that ends the input raises. */
  function RemoveNumber(q: string): (r: Result<(Value, string)>)
    requires q != [] && IsDigit(q[0])
    ensures r.Ok? ==> |r.value.1| < |q|
  {
    var n := Span(q, Digits);
    var rest := q[n..];
    if rest == [] then Err(Raised)
    else if rest[0] == '.' then
      var m := Span(rest[1..], Digits);
      Ok((Real(q[..n], rest[1..][..m]), rest[1..][m..]))
    else Ok((Int(DigitsValue(q[..n])), rest))
  }

  // ---------------------------------------------------------------------
  // `remove_text`

  /** Python's `s.find(d, start)`: the first index at or after `start`
      holding `d`, or -1. */
  function PyFind(s: string, d: char, start: nat): (i: int)
    ensures -1 <= i < |s|
    decreases |s| - start
  {
    if start >= |s| then -1 else if s[start] == d then start else PyFind(s, d, start + 1)
  }

  /** `find` fails exactly when no `d` is left from `start` on. */
  lemma {:induction false} PyFindMissing(s: string, d: char, start: nat)
    requires forall j :: start <= j < |s| ==> s[j] != d
    ensures PyFind(s, d, start) == -1
    decreases |s| - start
  {
    if start < |s| {
      PyFindMissing(s, d, start + 1);
    }
  }

  /** Python's `s[i]` for `i >= -1`: a negative index counts from the end;
      outside the string it raises. */
  function PyIndex(s: string, i: int): Option<char>
    requires i >= -1
  {
    if i == -1 then (if s == [] then None else Some(s[|s| - 1]))
    else if i < |s| then Some(s[i]) else None
  }

  /** Python's `s[:i]` for `i >= -1`. */
  function PyPrefix(s: string, i: int): string
    requires i >= -1
  {
    if i == -1 then (if s == [] then [] else s[..|s| - 1])
    else if i <= |s| then s[..i] else s
  }

  /** Python's `s[i:]` for `i >= 0`. */
  function PySuffix(s: string, i: nat): string
  {
    if i <= |s| then s[i..] else []
  }

  /** The variables of the escape loop: the text left after the opening
      quote and the index of the quote last found. */
  datatype TextLoop = TextLoop(query: string, idx: int)

  function TextLoopStart(q: string): TextLoop
    requires q != []
  {
    TextLoop(q[1..], PyFind(q[1..], q[0], 0))
  }

  /** The loop test `query[end_quote_index + 1] == delimiter`; `None` when
      the index is out of range (IndexError). */
  function TextLoopGuard(st: TextLoop, d: char): Option<bool>
  {
    if st.idx < -1 then None
    else
      var c := PyIndex(st.query, st.idx + 1);
      if c.None? then None else Some(c.value == d)
  }

  /** One turn of the loop as written: drop the character at the index,
      then search again from the next position.  When the previous search
      failed the index is -1, and the slices read the text from its end. */
  function TextLoopStep(st: TextLoop, d: char): TextLoop
    requires st.idx >= -1
  {
    var q := PyPrefix(st.query, st.idx) + PySuffix(st.query, st.idx + 1);
    TextLoop(q, PyFind(q, d, st.idx + 1))
  }

  /** The escape loop of `remove_text` from the text `q` and the index `i`
      of the quote last found, then the text `query[:end_quote_index]` and
      the rest `query[end_quote_index + 1:]`.  A loop test out of range
      raises.  Every turn is the source's (ScanLoopIsTextLoop), except one:
      when the search after an escaped quote fails (index -1) and the text
      left begins with the delimiter, the source goes round again, splicing
      the text's end before its start; from there it may cycle for ever
      (`'''x`, TextLoopNeverExits) or stop later with a misread text
      (`'''x;`, TextLoopWrapsAround).  The model raises at that test in
      either case.  A search that fails without an escape before it, or
      after one when the text left does not begin with the delimiter, ends
      the loop as in the source: the text is everything but the last
      character and the whole text is left over. */
  function ScanLoop(q: string, i: int, d: char): (r: Result<(string, string)>)
    requires -1 <= i < |q|
    ensures r.Ok? ==> |r.value.1| <= |q|
    decreases |q|
  {
    if i == -1 then
      if q == [] || q[0] == d then Err(Raised) else Ok((q[..|q| - 1], q))
    else if i + 1 == |q| then Err(Raised)
    else if q[i + 1] != d then Ok((q[..i], q[i + 1..]))
    else
      var q' := q[..i] + q[i + 1..];
      ScanLoop(q', PyFind(q', d, i + 1), d)
  }

  /** Each turn of ScanLoop is a turn of the loop as written: it raises
      where the loop test is out of range, returns the source's slices where
      the test is false, and otherwise goes on from the state the source's
      turn leaves; only a true test at index -1 is cut short. */
  lemma ScanLoopIsTextLoop(st: TextLoop, d: char)
    requires -1 <= st.idx < |st.query|
    ensures TextLoopGuard(st, d).None? ==> ScanLoop(st.query, st.idx, d) == Err(Raised)
    ensures TextLoopGuard(st, d) == Some(false) ==>
      ScanLoop(st.query, st.idx, d) == Ok((PyPrefix(st.query, st.idx), PySuffix(st.query, st.idx + 1)))
    ensures TextLoopGuard(st, d) == Some(true) && st.idx >= 0 ==>
      var next := TextLoopStep(st, d);
      -1 <= next.idx < |next.query| && ScanLoop(st.query, st.idx, d) == ScanLoop(next.query, next.idx, d)
  {
    var q, i := st.query, st.idx;
    TextLoopGuardInRange(st, d);
    if i + 1 < |q| && q[i + 1] != d {
      ScanLoopStops(q, i, d);
    } else if 0 <= i && i + 1 < |q| {
      EscapeTurnShrinks(st, d);
      ScanLoopEscapes(q, i, d);
    }
  }

  /** For an index in range the loop test reads the character after it. */
  lemma TextLoopGuardInRange(st: TextLoop, d: char)
    requires -1 <= st.idx < |st.query|
    ensures TextLoopGuard(st, d) == if st.idx + 1 < |st.query| then Some(st.query[st.idx + 1] == d) else None
  {
  }

  /** A false loop test ends the scan with the source's slices. */
  lemma ScanLoopStops(q: string, i: int, d: char)
    requires -1 <= i && i + 1 < |q| && q[i + 1] != d
    ensures ScanLoop(q, i, d) == Ok((PyPrefix(q, i), PySuffix(q, i + 1)))
  {
    if i == -1 {
      assert PyPrefix(q, i) == q[..|q| - 1] && PySuffix(q, 0) == q;
    } else {
      assert PyPrefix(q, i) == q[..i] && PySuffix(q, i + 1) == q[i + 1..];
    }
  }

  /** A true loop test at a found quote removes it and searches on. */
  lemma ScanLoopEscapes(q: string, i: int, d: char)
    requires 0 <= i && i + 1 < |q| && q[i + 1] == d
    ensures var next := TextLoopStep(TextLoop(q, i), d);
      -1 <= next.idx < |next.query| && ScanLoop(q, i, d) == ScanLoop(next.query, next.idx, d)
  {
    EscapeTurnShrinks(TextLoop(q, i), d);
    assert PyPrefix(q, i) + PySuffix(q, i + 1) == q[..i] + q[i + 1..];
  }

  /** An escape turn removes one character and leaves an index in range. */
  lemma EscapeTurnShrinks(st: TextLoop, d: char)
    requires 0 <= st.idx && st.idx + 1 < |st.query|
    ensures var next := TextLoopStep(st, d);
      |next.query| == |st.query| - 1 && -1 <= next.idx < |next.query|
  {
    var q, i := st.query, st.idx;
    assert PyPrefix(q, i) == q[..i] && PySuffix(q, i + 1) == q[i + 1..];
  }

  /** The body of a quoted text, read after its opening quote `d`: a doubled
      `d` stands for one `d`, a single `d` ends the text.  A closing quote
      that is the last character of the input raises, as does an opening
      quote that ends the input.  A text never closed is read as written:
      all but its last character, with the whole text left to tokenize. */
  function ScanText(q: string, d: char): (r: Result<(string, string)>)
    ensures r.Ok? ==> |r.value.1| <= |q|
    ensures (forall i :: 0 <= i < |q| ==> q[i] != d) ==>
      r == if q == [] then Err(Raised) else Ok((q[..|q| - 1], q))
    ensures q != [] && q[0] == d ==>
      (|q| == 1 ==> r == Err(Raised)) && (|q| >= 2 && q[1] != d ==> r == Ok(([], q[1..])))
  {
    ScanUnclosed(q, d);
    ScanOpenedByDelimiter(q, d);
    ScanLoop(q, PyFind(q, d, 0), d)
  }

  /** With no delimiter in the text, `find` gives -1 and the loop test
      reads the text's first character. */
  lemma ScanUnclosed(q: string, d: char)
    ensures (forall i :: 0 <= i < |q| ==> q[i] != d) ==>
      ScanLoop(q, PyFind(q, d, 0), d) == if q == [] then Err(Raised) else Ok((q[..|q| - 1], q))
  {
    if forall i :: 0 <= i < |q| ==> q[i] != d {
      PyFindMissing(q, d, 0);
    }
  }

  /** A delimiter first closes an empty text, unless it is doubled or ends
      the input. */
  lemma ScanOpenedByDelimiter(q: string, d: char)
    ensures q != [] && q[0] == d ==>
      (|q| == 1 ==> ScanLoop(q, PyFind(q, d, 0), d) == Err(Raised))
      && (|q| >= 2 && q[1] != d ==> ScanLoop(q, PyFind(q, d, 0), d) == Ok(([], q[1..])))
  {
    if q != [] && q[0] == d {
      assert PyFind(q, d, 0) == 0;
    }
  }

  /** `remove_text`: the delimiter is the first character. */
  function RemoveText(q: string): (r: Result<(Value, string)>)
    requires q != [] && IsQuote(q[0])
    ensures r.Ok? ==> |r.value.1| < |q|
  {
    var scanned :- ScanText(q[1..], q[0]);
    Ok((Str(scanned.0), scanned.1))
  }

  /** One turn of the tokenizer's loop: the tokens it appends (none for
      whitespace) and the input left.  Every branch consumes something; a
      character no branch accepts raises. */
  function NextLexeme(q: string): (r: Result<(seq<Value>, string)>)
    requires q != []
    ensures r.Ok? ==> |r.value.1| < |q|
  {
    if q[0] in Whitespace then Ok(([], q[Span(q, Space)..]))
    else if IsWordStart(q[0]) then
      var w := RemoveWord(q);
      Ok(([w.0], w.1))
    else if |q| >= 2 && q[..2] == "!=" then Ok(([Str("!=")], q[2..]))
    else if q[0] in Punctuation then Ok(([Str([q[0]])], q[1..]))
    else if IsQuote(q[0]) then
      var t :- RemoveText(q);
      Ok(([t.0], t.1))
    else if IsDigit(q[0]) then
      var n :- RemoveNumber(q);
      Ok(([n.0], n.1))
    else Err(Raised)
  }

  /** The token sequence of a whole string: the specification of Tokenize. */
  function Lex(q: string): Result<seq<Value>>
    decreases |q|
  {
    if q == [] then Ok([])
    else
      var step :- NextLexeme(q);
      var rest :- Lex(step.1);
      Ok(step.0 + rest)
  }

  /** Lex takes one lexeme and goes on with what is left. */
  lemma LexUnfold(q: string)
    requires q != []
    ensures NextLexeme(q).Err? ==> Lex(q) == Err(NextLexeme(q).error)
    ensures NextLexeme(q).Ok? ==> Lex(q) == Prepend(NextLexeme(q).value.0, Lex(NextLexeme(q).value.1))
  {
  }

  /** A quote starts a text: the turn is `remove_text`'s. */
  lemma NextLexemeText(q: string)
    requires q != [] && IsQuote(q[0])
    ensures RemoveText(q).Err? ==> NextLexeme(q) == Err(RemoveText(q).error)
    ensures RemoveText(q).Ok? ==> NextLexeme(q) == Ok(([RemoveText(q).value.0], RemoveText(q).value.1))
  {
    assert !(q[0] in Whitespace) && !IsWordStart(q[0]) && !(q[0] in Punctuation);
    assert |q| >= 2 ==> q[..2][0] == q[0];
  }

  /** `tokenize`: the source's loop, shrinking the input and appending to
      the token list until the input is used up. */
  method Tokenize(query: string) returns (r: Result<seq<Value>>)
    ensures r == Lex(query)
  {
    var tokens: seq<Value> := [];
    var q := query;
    assert Prepend(tokens, Lex(q)) == Lex(query) by {
      if Lex(q).Ok? { assert tokens + Lex(q).value == Lex(q).value; }
    }
    while q != []
      invariant Lex(query) == Prepend(tokens, Lex(q))
      decreases |q|
    {
      LexUnfold(q);
      var step := NextLexeme(q);
      if step.Ok? { PrependAppend(tokens, step.value.0, Lex(step.value.1)); }
      if q[0] in Whitespace {
        assert tokens + step.value.0 == tokens;
        q := q[Span(q, Space)..];
        continue;
      }
      if IsWordStart(q[0]) {
        var w := RemoveWord(q);
        assert step == Ok(([w.0], w.1));
        tokens, q := tokens + [w.0], w.1;
        continue;
      }
      if |q| >= 2 && q[..2] == "!=" {
        tokens, q := tokens + [Str("!=")], q[2..];
        continue;
      }
      if q[0] in Punctuation {
        tokens, q := tokens + [Str([q[0]])], q[1..];
        continue;
      }
      if IsQuote(q[0]) {
        var t := RemoveText(q);
        if t.Err? { return Err(t.error); }
        assert step == Ok(([t.value.0], t.value.1));
        tokens, q := tokens + [t.value.0], t.value.1;
        continue;
      }
      if IsDigit(q[0]) {
        var n := RemoveNumber(q);
        if n.Err? { return Err(n.error); }
        assert step == Ok(([n.value.0], n.value.1));
        tokens, q := tokens + [n.value.0], n.value.1;
        continue;
      }
      return Err(Raised);
    }
    assert tokens + [] == tokens;
    return Ok(tokens);
  }

  // ---------------------------------------------------------------------
  // Properties of the token sequence

  /** A whitespace run is dropped whatever follows it. */
  lemma {:induction false} SpanSpaceAppend(ws: string, rest: string)
    requires forall i :: 0 <= i < |ws| ==> ws[i] in Whitespace
    ensures Span(ws + rest, Space) == |ws| + Span(rest, Space)
  {
    if ws == [] {
      assert ws + rest == rest;
    } else {
      assert (ws + rest)[0] == ws[0];
      assert (ws + rest)[1..] == ws[1..] + rest;
      SpanSpaceAppend(ws[1..], rest);
    }
  }

  lemma LexSkipsWhitespace(ws: string, rest: string)
    requires forall i :: 0 <= i < |ws| ==> ws[i] in Whitespace
    ensures Lex(ws + rest) == Lex(rest)
  {
    if ws == [] {
      assert ws + rest == rest;
    } else {
      SpanSpaceAppend(ws, rest);
      var q := ws + rest;
      assert q[0] == ws[0];
      var after := rest[Span(rest, Space)..];
      assert q[Span(q, Space)..] == after;
      LexUnfold(q);
      assert NextLexeme(q) == Ok(([], after));
      PrependEmpty(Lex(after));
      if rest != [] && rest[0] in Whitespace {
        LexUnfold(rest);
        assert NextLexeme(rest) == Ok(([], after));
      } else {
        assert Span(rest, Space) == 0;
        assert after == rest;
      }
    }
  }

  lemma {:induction false} SpanWordAppend(w: string, rest: string)
    requires forall i :: 0 <= i < |w| ==> IsWordChar(w[i])
    requires rest == [] || !IsWordChar(rest[0])
    ensures Span(w + rest, WordChars) == |w|
  {
    if w != [] {
      assert (w + rest)[1..] == w[1..] + rest;
      SpanWordAppend(w[1..], rest);
    }
  }

  /** A word followed by a non-word character is one token; the word NULL is
      the null token. */
  lemma LexWord(w: string, rest: string)
    requires w != [] && IsWordStart(w[0])
    requires forall i :: 0 <= i < |w| ==> IsWordChar(w[i])
    requires rest == [] || !IsWordChar(rest[0])
    ensures Lex(w + rest) == Prepend([if w == "NULL" then Null else Str(w)], Lex(rest))
  {
    var q := w + rest;
    var tok := if w == "NULL" then Null else Str(w);
    assert NextLexeme(q) == Ok(([tok], rest)) by {
      SpanWordAppend(w, rest);
      assert q[0] == w[0];
      assert q[..|w|] == w && q[|w|..] == rest;
      assert RemoveWord(q) == (tok, rest);
    }
    LexUnfold(q);
  }

  lemma LexNull(rest: string)
    requires rest == [] || !IsWordChar(rest[0])
    ensures Lex("NULL" + rest) == Prepend([Null], Lex(rest))
  {
    LexWord("NULL", rest);
  }

  /** Doubling every `d` in a text: the escape a quoted literal uses. */
  function Escape(s: string, d: char): string
  {
    if s == [] then [] else (if s[0] == d then [d, d] else [s[0]]) + Escape(s[1..], d)
  }

  /** The literal a text is written as: quoted, inner quotes doubled. */
  function Quote(s: string, d: char): string
  {
    [d] + Escape(s, d) + [d]
  }

  /** The closing quote: the loop test sees the character after it. */
  lemma ScanClosing(a: string, d: char, rest: string)
    requires rest != [] && rest[0] != d
    ensures var q := a + [d] + rest; ScanLoop(q, PyFind(q, d, |a|), d) == Ok((a, rest))
  {
    var q := a + [d] + rest;
    assert q[|a|] == d && q[|a| + 1] == rest[0];
    assert PyFind(q, d, |a|) == |a|;
    assert q[..|a|] == a && q[|a| + 1..] == rest;
  }

  /** The spelling of a text after the part `a` already read, split at the
      text's first character. */
  lemma EscapeSplit(a: string, s: string, d: char, rest: string)
    requires s != []
    ensures var q := a + Escape(s, d) + [d] + rest;
      var q' := a + [s[0]] + Escape(s[1..], d) + [d] + rest;
      |q| > |a| + 1 && q[|a|] == s[0]
      && (s[0] != d ==> q == q')
      && (s[0] == d ==> q[|a| + 1] == d && q[..|a|] + q[|a| + 1..] == q')
  {
    var head := if s[0] == d then [d, d] else [s[0]];
    var e := Escape(s[1..], d);
    assert Escape(s, d) == head + e;
    var t := e + [d] + rest;
    Regroup(a, head, e, [d], rest);
    Regroup(a, [s[0]], e, [d], rest);
    if s[0] == d {
      SpliceDoubled(a, d, t);
    } else {
      LookAt(a, s[0], t);
    }
  }

  /** Removing the first of two equal characters after `a`. */
  lemma SpliceDoubled(a: string, c: char, t: string)
    ensures var q := a + [c, c] + t;
      |q| > |a| + 1 && q[|a|] == c && q[|a| + 1] == c && q[..|a|] + q[|a| + 1..] == a + [c] + t
  {
    var q := a + [c, c] + t;
    assert q[..|a|] == a;
    assert q[|a| + 1..] == [c] + t;
  }

  lemma LookAt(a: string, c: char, t: string)
    ensures var q := a + [c] + t; |q| > |a| && q[|a|] == c
  {
  }

  lemma Regroup(a: string, h: string, e: string, x: string, y: string)
    ensures a + (h + e) + x + y == a + h + (e + x + y)
    ensures a + h + e + x + y == a + h + (e + x + y)
  {
  }

  /** The scan of a text whose escapes have been read up to `a`: the rest
      of the text spelled with its quotes doubled, then the closing quote. */
  lemma {:induction false} ScanEscapedFrom(a: string, s: string, d: char, rest: string, q: string)
    requires rest != [] && rest[0] != d
    requires q == a + Escape(s, d) + [d] + rest
    ensures ScanLoop(q, PyFind(q, d, |a|), d) == Ok((a + s, rest))
    decreases |s|
  {
    if s == [] {
      ScanClosingEscaped(a, s, d, rest, q);
    } else {
      var a' := a + [s[0]];
      var q' := a' + Escape(s[1..], d) + [d] + rest;
      assert a' + s[1..] == a + s && |a'| == |a| + 1;
      ScanEscapedStep(a, s, d, rest, q, q');
      ScanEscapedFrom(a', s[1..], d, rest, q');
    }
  }

  /** The end of the text: only the closing quote is left to read. */
  lemma ScanClosingEscaped(a: string, s: string, d: char, rest: string, q: string)
    requires s == [] && rest != [] && rest[0] != d
    requires q == a + Escape(s, d) + [d] + rest
    ensures ScanLoop(q, PyFind(q, d, |a|), d) == Ok((a + s, rest))
  {
    assert q == a + [d] + rest;
    ScanClosing(a, d, rest);
    assert a + s == a;
  }

  /** One character of the text, read by the scan: a doubled quote is one
      escape turn, any other character is passed over by the search. */
  lemma ScanEscapedStep(a: string, s: string, d: char, rest: string, q: string, q': string)
    requires s != []
    requires q == a + Escape(s, d) + [d] + rest
    requires q' == a + [s[0]] + Escape(s[1..], d) + [d] + rest
    ensures ScanLoop(q, PyFind(q, d, |a|), d) == ScanLoop(q', PyFind(q', d, |a| + 1), d)
  {
    EscapeSplit(a, s, d, rest);
    if s[0] == d {
      assert PyFind(q, d, |a|) == |a|;
      ScanLoopEscapes(q, |a|, d);
      assert PyPrefix(q, |a|) + PySuffix(q, |a| + 1) == q';
    } else {
      assert PyFind(q, d, |a|) == PyFind(q', d, |a| + 1);
    }
  }

  lemma ScanEscaped(s: string, d: char, rest: string)
    requires rest != [] && rest[0] != d
    ensures ScanText(Escape(s, d) + [d] + rest, d) == Ok((s, rest))
  {
    var q := Escape(s, d) + [d] + rest;
    assert [] + Escape(s, d) + [d] + rest == q;
    ScanEscapedFrom([], s, d, rest, q);
    assert [] + s == s;
    assert ScanLoop(q, PyFind(q, d, 0), d) == Ok((s, rest));
    assert d in q by { assert q[|Escape(s, d)|] == d; }
  }

  /** Round trip: a quoted literal reads back as the text it quotes, with
      each doubled quote standing for one quote character. */
  lemma LexQuoted(s: string, d: char, rest: string)
    requires IsQuote(d)
    requires rest != [] && rest[0] != d
    ensures Lex(Quote(s, d) + rest) == Prepend([Str(s)], Lex(rest))
  {
    RemoveTextQuoted(s, d, rest);
    LexText(Quote(s, d) + rest, Str(s), rest);
  }

  /** `remove_text` reads a quoted literal back. */
  lemma RemoveTextQuoted(s: string, d: char, rest: string)
    requires IsQuote(d)
    requires rest != [] && rest[0] != d
    ensures var q := Quote(s, d) + rest; q != [] && IsQuote(q[0]) && RemoveText(q) == Ok((Str(s), rest))
  {
    var q := Quote(s, d) + rest;
    assert q[0] == d;
    assert q[1..] == Escape(s, d) + [d] + rest;
    ScanEscaped(s, d, rest);
  }

  /** A text that `remove_text` reads is one token, then the rest is lexed. */
  lemma LexText(q: string, t: Value, rest: string)
    requires q != [] && IsQuote(q[0]) && RemoveText(q) == Ok((t, rest))
    ensures Lex(q) == Prepend([t], Lex(rest))
  {
    NextLexemeText(q);
    LexUnfold(q);
  }

  /** The decimal digits of a natural number, most significant first. */
  function NatDigits(n: nat): (ds: string)
    ensures ds != []
    ensures forall i :: 0 <= i < |ds| ==> IsDigit(ds[i])
  {
    if n < 10 then [('0' as int + n) as char]
    else NatDigits(n / 10) + [('0' as int + n % 10) as char]
  }

  lemma {:induction false} NatDigitsValue(n: nat)
    ensures DigitsValue(NatDigits(n)) == n
  {
    var ds := NatDigits(n);
    if n >= 10 {
      NatDigitsValue(n / 10);
      assert ds[..|ds| - 1] == NatDigits(n / 10);
    }
  }

  lemma {:induction false} SpanDigitsAppend(ds: string, rest: string)
    requires forall i :: 0 <= i < |ds| ==> IsDigit(ds[i])
    requires rest == [] || !IsDigit(rest[0])
    ensures Span(ds + rest, Digits) == |ds|
  {
    if ds != [] {
      assert (ds + rest)[1..] == ds[1..] + rest;
      SpanDigitsAppend(ds[1..], rest);
    }
  }

  /** Round trip: the decimal form of a natural number reads back as that
      integer when a character other than a digit or a dot follows it. */
  lemma LexNat(n: nat, rest: string)
    requires rest != [] && !IsDigit(rest[0]) && rest[0] != '.'
    ensures Lex(NatDigits(n) + rest) == Prepend([Int(n)], Lex(rest))
  {
    var ds := NatDigits(n);
    var q := ds + rest;
    SpanDigitsAppend(ds, rest);
    assert q[..|ds|] == ds && q[|ds|..] == rest;
    NatDigitsValue(n);
    assert IsDigit(q[0]);
    assert !(q[0] in Whitespace) && !IsWordStart(q[0]) && !(q[0] in Punctuation) && !IsQuote(q[0]);
    assert q[..2] != "!=";
  }

  /** A character that no branch accepts makes the whole input fail. */
  lemma LexRejects(q: string)
    requires q != []
    requires !(q[0] in Whitespace) && !IsWordChar(q[0]) && !IsQuote(q[0]) && !(q[0] in Punctuation)
    requires q[0] != '!' || |q| < 2 || q[1] != '='
    ensures Lex(q).Err?
  {
    assert NextLexeme(q).Err? by {
      assert !IsWordStart(q[0]) && !IsDigit(q[0]);
      assert |q| >= 2 ==> q[..2][0] == q[0] && q[..2][1] == q[1];
    }
    LexUnfold(q);
  }

  /** A punctuation mark is a token of its own, whatever follows it. */
  lemma LexPunctuation(c: char, rest: string)
    requires c in Punctuation
    ensures Lex([c] + rest) == Prepend([Str([c])], Lex(rest))
  {
    var q := [c] + rest;
    assert NextLexeme(q) == Ok(([Str([c])], rest)) by {
      assert q[0] == c && q[1..] == rest;
      assert !(c in Whitespace) && !IsWordStart(c) && c != '!';
      assert |q| >= 2 ==> q[..2][0] == c;
    }
    LexUnfold(q);
  }

  // ---------------------------------------------------------------------
  // Unclosed texts, and the state where the escape loop cycles

  function TextLoopIterate(st: TextLoop, d: char, n: nat): TextLoop
    requires st.idx >= -1
    decreases n
  {
    if n == 0 then st
    else
      var next := TextLoopStep(st, d);
      if next.idx < -1 then next else TextLoopIterate(next, d, n - 1)
  }

  /** The escape loop of `remove_text` never ends on the input `'''x`: after
      one turn the search fails (index -1), and the next turn rebuilds the
      state it started from.  `tokenize` therefore does not terminate on a
      statement ending in `'''x`. */
  lemma TextLoopCycles()
    ensures var s0 := TextLoopStart("'''x");
      s0 == TextLoop("''x", 0)
      && TextLoopGuard(s0, '\'') == Some(true)
      && TextLoopStep(s0, '\'') == TextLoop("'x", -1)
      && TextLoopGuard(TextLoopStep(s0, '\''), '\'') == Some(true)
      && TextLoopStep(TextLoopStep(s0, '\''), '\'') == s0
  {
    var s0 := TextLoop("''x", 0);
    assert ("'''x")[1..] == "''x";
    assert PyFind("''x", '\'', 0) == 0;
    assert PyPrefix("''x", 0) + PySuffix("''x", 1) == "'x";
    assert PyFind("'x", '\'', 1) == -1;
    assert PyPrefix("'x", -1) + PySuffix("'x", 0) == "''x";
  }

  /** A loop whose steps swap two states keeps alternating between them. */
  lemma {:induction false} TextLoopPeriodic(a: TextLoop, b: TextLoop, d: char, k: nat)
    requires a.idx >= -1 && b.idx >= -1
    requires TextLoopStep(a, d) == b && TextLoopStep(b, d) == a
    ensures TextLoopIterate(a, d, 2 * k) == a && TextLoopIterate(a, d, 2 * k + 1) == b
  {
    if k > 0 {
      TextLoopPeriodic(a, b, d, k - 1);
      assert TextLoopIterate(a, d, 2 * k) == TextLoopIterate(b, d, 2 * k - 1) == TextLoopIterate(a, d, 2 * (k - 1));
      assert TextLoopIterate(a, d, 2 * k + 1) == TextLoopIterate(b, d, 2 * k) == TextLoopIterate(a, d, 2 * (k - 1) + 1);
    } else {
      assert TextLoopIterate(b, d, 0) == b;
    }
  }

  /** However many turns it has taken, the loop test still holds. */
  lemma TextLoopNeverExits(n: nat)
    ensures TextLoopIterate(TextLoop("''x", 0), '\'', 2 * n) == TextLoop("''x", 0)
    ensures TextLoopGuard(TextLoopIterate(TextLoop("''x", 0), '\'', 2 * n), '\'') == Some(true)
    ensures TextLoopGuard(TextLoopIterate(TextLoop("''x", 0), '\'', 2 * n + 1), '\'') == Some(true)
  {
    var s0 := TextLoop("''x", 0);
    var s1 := TextLoop("'x", -1);
    assert TextLoopStep(s0, '\'') == s1 && TextLoopStep(s1, '\'') == s0
        && TextLoopGuard(s0, '\'') == Some(true) && TextLoopGuard(s1, '\'') == Some(true) by {
      TextLoopCycles();
      assert TextLoopStart("'''x") == s0 by {
        assert ("'''x")[1..] == "''x";
      }
    }
    TextLoopPeriodic(s0, s1, '\'', n);
  }

  /** A turn of the loop as written that removes an escaped quote: the
      test is true at a quote the search found. */
  predicate IsEscapeTurn(st: TextLoop, d: char)
  {
    st.idx >= 0 && TextLoopGuard(st, d) == Some(true)
  }

  /** The first `n` turns of the loop as written, from `st`, all remove an
      escaped quote. */
  predicate EscapeTurns(st: TextLoop, d: char, n: nat)
    requires st.idx >= -1
    decreases n
  {
    n == 0 || (IsEscapeTurn(st, d) && EscapeTurns(TextLoopStep(st, d), d, n - 1))
  }

  /** After escape turns only, the modelled scan is where the loop as
      written is. */
  lemma {:induction false} ScanLoopRun(st: TextLoop, d: char, n: nat)
    requires -1 <= st.idx < |st.query| && EscapeTurns(st, d, n)
    ensures var e := TextLoopIterate(st, d, n);
      -1 <= e.idx < |e.query| && ScanLoop(st.query, st.idx, d) == ScanLoop(e.query, e.idx, d)
    decreases n
  {
    if n > 0 {
      EscapeTurnsUncons(st, d, n);
      TextLoopGuardInRange(st, d);
      ScanLoopEscapes(st.query, st.idx, d);
      ScanLoopRun(TextLoopStep(st, d), d, n - 1);
    }
  }

  /** The first of `n > 0` escape turns, and the rest. */
  lemma EscapeTurnsUncons(st: TextLoop, d: char, n: nat)
    requires n > 0 && st.idx >= -1 && EscapeTurns(st, d, n)
    ensures IsEscapeTurn(st, d) && EscapeTurns(TextLoopStep(st, d), d, n - 1)
    ensures TextLoopIterate(st, d, n) == TextLoopIterate(TextLoopStep(st, d), d, n - 1)
  {
  }

  /** The loop as written always leaves its escape turns: each one removes
      a character, so within as many turns as the text is long it reaches
      a test that is false, out of range, or true at index -1. */
  lemma {:induction false} ScanLoopEnds(st: TextLoop, d: char) returns (n: nat)
    requires -1 <= st.idx < |st.query|
    ensures n <= |st.query| && EscapeTurns(st, d, n) && !IsEscapeTurn(TextLoopIterate(st, d, n), d)
  {
    n := EscapeTurnsEnd(st, d);
    EscapeTurnsThenStop(st, d, n);
  }

  /** Exactly `n` escape turns, then a turn that is not one. */
  predicate EscapeTurnsThen(st: TextLoop, d: char, n: nat)
    requires st.idx >= -1
    decreases n
  {
    if n == 0 then !IsEscapeTurn(st, d)
    else IsEscapeTurn(st, d) && EscapeTurnsThen(TextLoopStep(st, d), d, n - 1)
  }

  /** The number of escape turns from `st`, by induction on the text. */
  lemma {:induction false} EscapeTurnsEnd(st: TextLoop, d: char) returns (n: nat)
    requires -1 <= st.idx < |st.query|
    ensures n <= |st.query| && EscapeTurnsThen(st, d, n)
    decreases |st.query|, 1
  {
    if !IsEscapeTurn(st, d) {
      n := 0;
    } else {
      n := EscapeTurnsFrom(st, d);
    }
  }

  /** The same, from a state whose loop test is an escape. */
  lemma {:induction false} EscapeTurnsFrom(st: TextLoop, d: char) returns (n: nat)
    requires -1 <= st.idx < |st.query| && IsEscapeTurn(st, d)
    ensures n <= |st.query| && EscapeTurnsThen(st, d, n)
    decreases |st.query|, 0
  {
    var next := EscapeTurnNext(st, d);
    var m := EscapeTurnsEnd(next, d);
    n := m + 1;
  }

  /** The state after an escape turn: a shorter text, an index in range,
      and exactly `m` escape turns from there are `m + 1` from `st`. */
  lemma EscapeTurnNext(st: TextLoop, d: char) returns (next: TextLoop)
    requires -1 <= st.idx < |st.query| && IsEscapeTurn(st, d)
    ensures |next.query| < |st.query| && -1 <= next.idx < |next.query|
    ensures forall m: nat :: EscapeTurnsThen(next, d, m) ==> EscapeTurnsThen(st, d, m + 1)
  {
    next := TextLoopStep(st, d);
    EscapeTurnInRange(st, d);
  }

  /** Exactly `n` escape turns are `n` escape turns, after which the loop
      test is not an escape. */
  lemma {:induction false} EscapeTurnsThenStop(st: TextLoop, d: char, n: nat)
    requires st.idx >= -1 && EscapeTurnsThen(st, d, n)
    ensures EscapeTurns(st, d, n) && !IsEscapeTurn(TextLoopIterate(st, d, n), d)
    decreases n
  {
    if n == 0 {
      assert TextLoopIterate(st, d, 0) == st;
    } else {
      var next := EscapeTurnsThenNext(st, d, n);
      EscapeTurnsThenStop(next, d, n - 1);
    }
  }

  /** The state after the first of exactly `n > 0` escape turns, from
      which the rest follow. */
  lemma EscapeTurnsThenNext(st: TextLoop, d: char, n: nat) returns (next: TextLoop)
    requires n > 0 && st.idx >= -1 && EscapeTurnsThen(st, d, n)
    ensures next.idx >= -1 && EscapeTurnsThen(next, d, n - 1)
    ensures EscapeTurns(next, d, n - 1) && !IsEscapeTurn(TextLoopIterate(next, d, n - 1), d) ==>
      EscapeTurns(st, d, n) && !IsEscapeTurn(TextLoopIterate(st, d, n), d)
  {
    next := TextLoopStep(st, d);
    if EscapeTurns(next, d, n - 1) {
      EscapeTurnsCons(st, d, n - 1);
    }
  }

  /** An escape turn removes one character and leaves an index in range. */
  lemma EscapeTurnInRange(st: TextLoop, d: char)
    requires -1 <= st.idx < |st.query| && IsEscapeTurn(st, d)
    ensures var next := TextLoopStep(st, d);
      |next.query| == |st.query| - 1 && -1 <= next.idx < |next.query|
  {
    TextLoopGuardInRange(st, d);
    EscapeTurnShrinks(st, d);
  }

  /** An escape turn followed by `m` more is `m + 1` escape turns. */
  lemma EscapeTurnsCons(st: TextLoop, d: char, m: nat)
    requires IsEscapeTurn(st, d) && EscapeTurns(TextLoopStep(st, d), d, m)
    ensures EscapeTurns(st, d, m + 1)
    ensures TextLoopIterate(st, d, m + 1) == TextLoopIterate(TextLoopStep(st, d), d, m)
  {
  }

  /** The scan against the loop as written, over every text: once the
      escape turns are done, a false test gives the source's slices, an
      out-of-range test raises as the source does, and a true test at index
      -1 (the search after an escaped quote failed: the closing quote is
      missing) raises where the source would splice the text's end before
      its start and go round again. */
  lemma ScanTextFollowsLoop(q: string, d: char, n: nat)
    requires EscapeTurns(TextLoop(q, PyFind(q, d, 0)), d, n)
    ensures var e := TextLoopIterate(TextLoop(q, PyFind(q, d, 0)), d, n);
      (TextLoopGuard(e, d).None? ==> ScanText(q, d) == Err(Raised))
      && (TextLoopGuard(e, d) == Some(false) ==>
            ScanText(q, d) == Ok((PyPrefix(e.query, e.idx), PySuffix(e.query, e.idx + 1))))
      && (TextLoopGuard(e, d) == Some(true) && e.idx == -1 ==> ScanText(q, d) == Err(Raised))
  {
    ScanTextIsLoop(q, d);
    ScanLoopFollowsLoop(TextLoop(q, PyFind(q, d, 0)), d, n);
  }

  /** The same, from any state of the loop. */
  lemma ScanLoopFollowsLoop(st: TextLoop, d: char, n: nat)
    requires -1 <= st.idx < |st.query| && EscapeTurns(st, d, n)
    ensures var e := TextLoopIterate(st, d, n);
      var r := ScanLoop(st.query, st.idx, d);
      (TextLoopGuard(e, d).None? ==> r == Err(Raised))
      && (TextLoopGuard(e, d) == Some(false) ==> r == Ok((PyPrefix(e.query, e.idx), PySuffix(e.query, e.idx + 1))))
      && (TextLoopGuard(e, d) == Some(true) && e.idx == -1 ==> r == Err(Raised))
  {
    ScanLoopRun(st, d, n);
    var e := TextLoopIterate(st, d, n);
    ScanLoopIsTextLoop(e, d);
    TextLoopGuardInRange(e, d);
  }

  /** Every text, put together: the loop as written takes at most as many
      escape turns as the text is long, and at the test that follows the
      modelled scan gives the source's slices (false test), raises as the
      source does (test out of range), or raises where the source would
      wrap around (true test at index -1). */
  lemma ScanTextOutcome(q: string, d: char) returns (n: nat)
    ensures var e := TextLoopIterate(TextLoop(q, PyFind(q, d, 0)), d, n);
      n <= |q| && EscapeTurns(TextLoop(q, PyFind(q, d, 0)), d, n) && !IsEscapeTurn(e, d)
      && (TextLoopGuard(e, d).None? ==> ScanText(q, d) == Err(Raised))
      && (TextLoopGuard(e, d) == Some(false) ==>
            ScanText(q, d) == Ok((PyPrefix(e.query, e.idx), PySuffix(e.query, e.idx + 1))))
      && (TextLoopGuard(e, d) == Some(true) ==> e.idx == -1 && ScanText(q, d) == Err(Raised))
  {
    n := ScanLoopEnds(TextLoop(q, PyFind(q, d, 0)), d);
    ScanTextFollowsLoop(q, d, n);
  }

  lemma ScanTextIsLoop(q: string, d: char)
    ensures ScanText(q, d) == ScanLoop(q, PyFind(q, d, 0), d)
  {
  }

  /** On `'''x;` the loop as written wraps around at index -1 once and then
      stops at a false test: the source reads the empty text and leaves
      `x'x;`, while the modelled scan raises. */
  lemma TextLoopWrapsAround()
    ensures var s0 := TextLoop("''x;", 0);
      s0 == TextLoopStart("'''x;")
      && IsEscapeTurn(s0, '\'')
      && TextLoopIterate(s0, '\'', 1) == TextLoop("'x;", -1)
      && TextLoopGuard(TextLoop("'x;", -1), '\'') == Some(true)
      && TextLoopIterate(s0, '\'', 2) == TextLoop("'x'x;", 0)
      && TextLoopGuard(TextLoop("'x'x;", 0), '\'') == Some(false)
      && PyPrefix("'x'x;", 0) == [] && PySuffix("'x'x;", 1) == "x'x;"
    ensures ScanText("''x;", '\'') == Err(Raised)
  {
    WrapStart();
    WrapFirstTurn();
    WrapSecondTurn();
    IterateTwice(TextLoop("''x;", 0), '\'');
    WrapScanRaises();
  }

  /** The text of `'''x;` after its opening quote, and its first loop
      test: a quote follows the quote found at index 0. */
  lemma WrapStart()
    ensures TextLoop("''x;", 0) == TextLoopStart("'''x;") && IsEscapeTurn(TextLoop("''x;", 0), '\'')
  {
    assert ("'''x;")[1..] == "''x;";
    assert PyFind("''x;", '\'', 0) == 0;
  }

  /** The escaped quote is removed and the search fails; the test at
      index -1 reads the last character. */
  lemma WrapFirstTurn()
    ensures TextLoopStep(TextLoop("''x;", 0), '\'') == TextLoop("'x;", -1)
    ensures TextLoopGuard(TextLoop("'x;", -1), '\'') == Some(true)
  {
    assert PyPrefix("''x;", 0) + PySuffix("''x;", 1) == "'x;";
    assert PyFind("'x;", '\'', 1) == -1 by {
      assert PyFind("'x;", '\'', 2) == -1;
    }
  }

  /** At index -1 the slices splice the text's end before its start, and
      the test that follows is false. */
  lemma WrapSecondTurn()
    ensures TextLoopStep(TextLoop("'x;", -1), '\'') == TextLoop("'x'x;", 0)
    ensures TextLoopGuard(TextLoop("'x'x;", 0), '\'') == Some(false)
    ensures PyPrefix("'x'x;", 0) == [] && PySuffix("'x'x;", 1) == "x'x;"
  {
    assert PyPrefix("'x;", -1) + PySuffix("'x;", 0) == "'x'x;";
    assert PyFind("'x'x;", '\'', 0) == 0;
    assert ("'x'x;")[1..] == "x'x;";
  }

  /** One and two turns of the loop. */
  lemma IterateTwice(st: TextLoop, d: char)
    requires st.idx >= -1
    ensures TextLoopIterate(st, d, 1) == TextLoopStep(st, d)
    ensures TextLoopIterate(st, d, 2) == TextLoopStep(TextLoopStep(st, d), d)
  {
    var next := TextLoopStep(st, d);
    assert TextLoopIterate(st, d, 2) == TextLoopIterate(next, d, 1);
  }

  /** The modelled scan of `'''x;` raises at the true test at index -1. */
  lemma WrapScanRaises()
    ensures ScanText("''x;", '\'') == Err(Raised)
  {
    assert PyFind("''x;", '\'', 0) == 0;
    assert ("''x;")[..0] + ("''x;")[1..] == "'x;";
    assert PyFind("'x;", '\'', 1) == -1;
    assert ScanLoop("'x;", -1, '\'') == Err(Raised);
  }

  /** In that state the model's scan raises instead of looping. */
  lemma ScanTextRejectsUnclosed()
    ensures ScanText("''x", '\'') == Err(Raised)
    ensures Lex("'''x").Err?
  {
    var q := "'''x";
    assert PyFind("''x", '\'', 0) == 0;
    assert ("''x")[..0] + ("''x")[1..] == "'x";
    assert PyFind("'x", '\'', 1) == -1;
    assert ScanLoop("'x", -1, '\'') == Err(Raised);
    assert q[1..] == "''x";
    assert RemoveText(q).Err?;
    assert q[..2] != "!=" && !(q[0] in Punctuation) && !(q[0] in Whitespace);
    assert NextLexeme(q).Err?;
    LexUnfold(q);
  }

  /** A quote whose text holds no second quote, as written: the token is
      the text without its last character, and the whole text is then
      tokenized again. */
  lemma RemoveTextUnclosed(d: char, t: string)
    requires IsQuote(d) && t != []
    requires forall i :: 0 <= i < |t| ==> t[i] != d
    ensures RemoveText([d] + t) == Ok((Str(t[..|t| - 1]), t))
  {
    assert ([d] + t)[0] == d && ([d] + t)[1..] == t;
  }

  lemma LexSemicolon()
    ensures Lex(";") == Ok([Str(";")])
  {
    assert Punctuation[3] == ';';
    LexPunctuation(';', []);
    assert [';'] + [] == ";";
    assert Lex([]) == Ok([]);
    assert [Str([';'])] + [] == [Str(";")];
  }

  lemma LexWordSemicolon()
    ensures Lex("x;") == Ok([Str("x"), Str(";")])
  {
    LexSemicolon();
    LexWord("x", ";");
    assert "x" + ";" == "x;";
    assert [Str("x")] + [Str(";")] == [Str("x"), Str(";")];
  }

  /** So `'x;` gives the tokens x, x and ;, and the statement goes on. */
  lemma LexUnclosedText()
    ensures Lex("'x;") == Ok([Str("x"), Str("x"), Str(";")])
  {
    var q := "'x;";
    assert NextLexeme(q) == Ok(([Str("x")], "x;")) by {
      RemoveTextUnclosed('\'', "x;");
      assert [q[0]] + "x;" == q && ("x;")[..1] == "x";
      assert RemoveText(q) == Ok((Str("x"), "x;"));
      assert q[..2] != "!=" && !(q[0] in Punctuation) && !(q[0] in Whitespace) && !IsWordStart(q[0]);
    }
    LexUnfold(q);
    LexWordSemicolon();
    assert [Str("x")] + [Str("x"), Str(";")] == [Str("x"), Str("x"), Str(";")];
  }
}
