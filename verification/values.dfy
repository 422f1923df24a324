/** The values that flow through the engine.  In the source a token and a
    value stored in a row are the same Python object: a `str` (a word, a
    punctuation mark or a quoted text alike), an `int`, a `float` or `None`. */
module Values {

  datatype Value =
    | Null                              // None, from the word NULL
    | Int(i: int)                       // a run of digits
    | Str(s: string)                    // a word, a punctuation mark or a quoted text
    | Real(whole: string, frac: string) // `digits.digits`, kept as its two digit strings

  predicate IsDigit(c: char) { '0' <= c <= '9' }

  /** The number a string of decimal digits denotes (most significant first). */
  function DigitsValue(ds: string): int
  {
    if ds == [] then 0 else DigitsValue(ds[..|ds| - 1]) * 10 + (ds[|ds| - 1] as int - '0' as int)
  }

  function Pow10(k: nat): (p: nat)
    ensures p >= 1
  {
    if k == 0 then 1 else 10 * Pow10(k - 1)
  }

  predicate IsNumeric(v: Value) { v.Int? || v.Real? }

  /** The exact number a numeric value stands for; a `Real` is read as the
      decimal fraction `whole.frac` (the source's binary rounding is not kept). */
  function NumOf(v: Value): real
    requires IsNumeric(v)
  {
    match v
    case Int(i) => i as real
    case Real(w, f) => DigitsValue(w) as real + DigitsValue(f) as real / Pow10(|f|) as real
  }

  /** Python's `==` on two values: numbers compare by value across int and
      float, everything else compares structurally (None equals only None). */
  predicate ValueEq(a: Value, b: Value)
  {
    if IsNumeric(a) && IsNumeric(b) then NumOf(a) == NumOf(b) else a == b
  }

  /** Python's truth test `not x`: None, 0, 0.0 and "" are false. */
  predicate Falsy(v: Value)
  {
    match v
    case Null => true
    case Int(i) => i == 0
    case Str(s) => s == ""
    case Real(_, _) => NumOf(v) == 0.0
  }

  /** Python compares strings by code points, a proper prefix first. */
  predicate StrLess(s: string, t: string)
  {
    if s == [] then t != []
    else if t == [] then false
    else if s[0] != t[0] then s[0] < t[0]
    else StrLess(s[1..], t[1..])
  }

  function Rank(v: Value): nat
  {
    match v
    case Null => 0
    case Int(_) => 1
    case Real(_, _) => 1
    case Str(_) => 2
  }

  /** The order `<` the engine uses on values.  On two numbers and on two
      strings it is Python's `<`; across kinds Python raises TypeError, and
      the model instead ranks None below numbers below strings. */
  predicate Less(a: Value, b: Value)
  {
    if a.Str? && b.Str? then StrLess(a.s, b.s)
    else if IsNumeric(a) && IsNumeric(b) then NumOf(a) < NumOf(b)
    else Rank(a) < Rank(b)
  }

  lemma {:induction false} StrLessIrreflexive(s: string)
    ensures !StrLess(s, s)
  {
    if s != [] {
      StrLessIrreflexive(s[1..]);
    }
  }

  lemma {:induction false} StrLessTransitive(s: string, t: string, u: string)
    requires StrLess(s, t) && StrLess(t, u)
    ensures StrLess(s, u)
  {
    if s != [] && t != [] && u != [] && s[0] == t[0] && t[0] == u[0] {
      StrLessTransitive(s[1..], t[1..], u[1..]);
    }
  }

  /** Two strings neither of which is below the other are equal. */
  lemma {:induction false} StrLessTrichotomy(s: string, t: string)
    ensures StrLess(s, t) || StrLess(t, s) || s == t
  {
    if s != [] && t != [] && s[0] == t[0] {
      StrLessTrichotomy(s[1..], t[1..]);
      if s[1..] == t[1..] {
        assert s == [s[0]] + s[1..] && t == [t[0]] + t[1..];
      }
    }
  }

  lemma LessIrreflexive(a: Value)
    ensures !Less(a, a)
  {
    if a.Str? { StrLessIrreflexive(a.s); }
  }

  lemma LessTransitive(a: Value, b: Value, c: Value)
    requires Less(a, b) && Less(b, c)
    ensures Less(a, c)
  {
    if a.Str? && b.Str? && c.Str? { StrLessTransitive(a.s, b.s, c.s); }
  }

  /** Values that are not ordered either way are exactly those Python calls
      equal: the incomparability of `Less` is `ValueEq`. */
  lemma LessIncomparableIsEq(a: Value, b: Value)
    ensures !Less(a, b) && !Less(b, a) <==> ValueEq(a, b)
  {
    if a.Str? && b.Str? {
      StrLessTrichotomy(a.s, b.s);
      if a.s == b.s { StrLessIrreflexive(a.s); }
    }
  }

  /** `Less` is a strict weak order: when `a < c`, any `b` lies above `a`
      or below `c`. */
  lemma LessNegativelyTransitive(a: Value, b: Value, c: Value)
    requires Less(a, c)
    ensures Less(a, b) || Less(b, c)
  {
    if a.Str? && b.Str? && c.Str? && !StrLess(a.s, b.s) {
      StrLessTrichotomy(a.s, b.s);
      if a.s != b.s {
        StrLessTransitive(b.s, a.s, c.s);
      }
    }
  }

  lemma LessAsymmetric(a: Value, b: Value)
    requires Less(a, b)
    ensures !Less(b, a)
  {
    if Less(b, a) {
      LessTransitive(a, b, a);
      LessIrreflexive(a);
    }
  }
}
