/**
 What the reader makes of text that the printer never writes: blanks, other escapes, fractions
 and exponents, and bytes that start no value.
 */
module JsonLeniency {
  import opened CText
  import opened Decimal
  import opened JsonParser
  import opened JsonPrinter

  /** Between values the cursor passes over spaces, tabs, carriage returns and newlines, and nothing else. */
  lemma {:induction false} BlanksPassed(s: string, p: nat)
    requires p <= |s|
    ensures var q := SkipBlanks(s, p);
            && (forall i :: p <= i < q ==> s[i] == ' ' || s[i] == '\t' || s[i] == '\r' || s[i] == '\n')
            && (q < |s| ==> s[q] != ' ' && s[q] != '\t' && s[q] != '\r' && s[q] != '\n')
            && Value(s, p) == Value(s, q) && (q == |s| ==> Value(s, p) == (Null, q))
    decreases |s| - p
  {
    if IsBlank(At(s, p)) {
      BlanksPassed(s, p + 1);
    }
  }

  /** A backslash stands for a newline, tab or carriage return in front of `n`, `t` or `r`, and before anything else for nothing. */
  lemma {:induction false} EscapeRead(s: string, p: nat, c: char, rest: string)
    requires c != NUL && Occurs(s, p, ['\\', c]) && StringBody(s, p + 2) == rest
    ensures c == 'n' ==> StringBody(s, p) == "\n" + rest
    ensures c == 't' ==> StringBody(s, p) == "\t" + rest
    ensures c == 'r' ==> StringBody(s, p) == "\r" + rest
    ensures c != 'n' && c != 't' && c != 'r' ==> StringBody(s, p) == [c] + rest
    ensures StringStop(s, p) == StringStop(s, p + 2)
  {
    OccursAt(s, p, ['\\', c], 0);
    OccursAt(s, p, ['\\', c], 1);
  }

  // ---- Fractions and exponents ----

  /** A point and digits stand from `w` to `f`, or nothing does. */
  ghost predicate Fraction(s: string, w: nat, f: nat) {
    w == f <= |s| || (w < f <= |s| && s[w] == '.' && AllDigits(s[w + 1..f]))
  }

  /** A mark, perhaps a sign, and digits stand from `f` to `e`, or nothing does. */
  ghost predicate Exponent(s: string, f: nat, e: nat) {
    f == e <= |s| ||
    (f < e <= |s| && (s[f] == 'e' || s[f] == 'E')
     && (if f + 1 < e && (s[f + 1] == '+' || s[f + 1] == '-') then AllDigits(s[f + 2..e]) else AllDigits(s[f + 1..e])))
  }

  lemma {:induction false} RunSkipped(s: string, p: nat, q: nat)
    requires p <= q <= |s| && AllDigits(s[p..q]) && !IsDigit(At(s, q))
    ensures SkipDigits(s, p) == q
    decreases q - p
  {
    if p < q {
      assert s[p] == s[p..q][0];
      assert s[p + 1..q] == s[p..q][1..];
      RunSkipped(s, p + 1, q);
    }
  }

  lemma {:induction false} FractionSkipped(s: string, w: nat, f: nat)
    requires Fraction(s, w, f) && !IsDigit(At(s, f)) && (w == f ==> At(s, f) != '.')
    ensures FractionEnd(s, w) == f
  {
    if w < f {
      RunSkipped(s, w + 1, f);
    }
  }

  /** What may follow a number: no digit, and no sign right behind a bare mark. */
  predicate Ends(s: string, f: nat, e: nat)
    requires e <= |s|
  {
    !ExtendsNumber(At(s, e)) && (e == f + 1 ==> At(s, e) != '+' && At(s, e) != '-')
  }

  lemma {:induction false} ExponentSkipped(s: string, f: nat, e: nat)
    requires Exponent(s, f, e) && Ends(s, f, e)
    ensures ExponentEnd(s, f) == e
  {
    if f < e {
      var signed := f + 1 < e && (s[f + 1] == '+' || s[f + 1] == '-');
      RunSkipped(s, if signed then f + 2 else f + 1, e);
      if f + 1 < e && !signed {
        assert s[f + 1] == s[f + 1..e][0];
      }
    }
  }

  /** A number with a fraction or an exponent is kept whole, whatever its digits. */
  lemma {:induction false} FloatRead(s: string, p: nat, d: nat, w: nat, f: nat, e: nat)
    requires d < |s| && (p == d || (p + 1 == d && s[p] == '-'))
    requires d < w <= f <= e <= |s| && w < e && AllDigits(s[d..w])
    requires Fraction(s, w, f) && Exponent(s, f, e) && Ends(s, f, e)
    ensures Value(s, p) == (Float(s[p..e]), e)
  {
    assert IsDigit(s[d]) by { assert s[d] == s[d..w][0]; }
    RunSkipped(s, d, w);
    FractionSkipped(s, w, f);
    ExponentSkipped(s, f, e);
    NumberValue(s, p);
    FloatAt(s, p, d, w, f, e);
  }

  lemma {:induction false} FloatAt(s: string, p: nat, d: nat, w: nat, f: nat, e: nat)
    requires p <= d <= w <= f <= e <= |s| && p < e && SkipSign(s, p) == d && SkipDigits(s, d) == w
    requires FractionEnd(s, w) == f && ExponentEnd(s, f) == e && (At(s, w) == '.' || At(s, w) == 'e' || At(s, w) == 'E')
    ensures Number(s, p) == (Float(s[p..e]), e)
  {
  }

  /** A byte that starts no value is passed over, with null in its place. */
  lemma {:induction false} MalformedSkipped(s: string, p: nat)
    requires p < |s| && s[p] != NUL && !IsBlank(s[p])
    requires s[p] != '"' && s[p] != '{' && s[p] != '[' && s[p] != '-' && s[p] != '.' && s[p] != 'e' && s[p] != 'E'
    requires !('0' <= s[p] <= '9') && !Occurs(s, p, "true") && !Occurs(s, p, "false") && !Occurs(s, p, "null")
    ensures Value(s, p) == (Null, p + 1)
  {
    assert Value(s, p) == ValueAt(s, p) == Scalar(s, p) == Number(s, p);
  }
}
