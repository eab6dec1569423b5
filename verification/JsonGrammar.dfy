/**
 The reader as a grammar, rule by rule and in terms of the characters, for every text: what it
 makes of each kind of value, which separators it insists on, and where it stops. Every colon,
 comma and closing bracket may be missing.
 */
module JsonGrammar {
  import opened CText
  import opened Decimal
  import opened JsonParser
  import opened JsonPrinter
  import opened JsonLeniency

  predicate Blank(c: char) { c == ' ' || c == '\t' || c == '\r' || c == '\n' }

  /** `q` is the first place at or behind `p` without a blank. */
  ghost predicate FirstSolid(s: string, p: nat, q: nat) {
    p <= q <= |s| && (forall i :: p <= i < q ==> Blank(s[i])) && (q < |s| ==> !Blank(s[q]))
  }

  /** The end of the text. */
  predicate Over(s: string, p: nat) { p >= |s| || s[p] == '\0' }

  predicate Stands(s: string, p: nat, c: char) { p < |s| && s[p] == c }

  /** Behind the character if it is there. */
  function Past(s: string, p: nat, c: char): nat { if Stands(s, p, c) then p + 1 else p }

  lemma {:induction false} SolidOnly(s: string, p: nat, q: nat)
    requires FirstSolid(s, p, q)
    ensures q == SkipBlanks(s, p)
    decreases q - p
  {
    if p < q {
      SolidOnly(s, p + 1, q);
    }
  }

  lemma {:induction false} SolidIff(s: string, p: nat, q: nat)
    requires p <= |s|
    ensures FirstSolid(s, p, q) <==> q == SkipBlanks(s, p)
  {
    BlanksPassed(s, p);
    if FirstSolid(s, p, q) {
      SolidOnly(s, p, q);
    }
  }

  // ---- Strings ----

  /** A string goes on over every character but a quote; a backslash takes the next one along. */
  lemma {:induction false} StringRule(s: string, p: nat)
    requires p <= |s|
    ensures Over(s, p) || Stands(s, p, '"') ==> StringBody(s, p) == "" && StringStop(s, p) == p
    ensures !Over(s, p) && s[p] != '"' && s[p] != '\\' ==>
              StringBody(s, p) == [s[p]] + StringBody(s, p + 1) && StringStop(s, p) == StringStop(s, p + 1)
    ensures Stands(s, p, '\\') && Over(s, p + 1) ==> StringBody(s, p) == "" && StringStop(s, p) == p + 1
    ensures Stands(s, p, '\\') && !Over(s, p + 1) ==>
              && StringBody(s, p) == (if s[p + 1] == 'n' then "\n" else if s[p + 1] == 't' then "\t"
                                      else if s[p + 1] == 'r' then "\r" else [s[p + 1]]) + StringBody(s, p + 2)
              && StringStop(s, p) == StringStop(s, p + 2)
  {
  }

  /** A value at a quote is that string; the closing quote may be missing at the end of the text. */
  lemma {:induction false} StringValue(s: string, p: nat)
    requires Stands(s, p, '"')
    ensures Value(s, p) == (Str(StringBody(s, p + 1)), Past(s, StringStop(s, p + 1), '"'))
  {
  }

  // ---- Arrays ----

  /** A value at a bracket: the elements, and the closing bracket if there is one. */
  lemma {:induction false} ArrayRule(s: string, p: nat, f: nat)
    requires Stands(s, p, '[') && FirstSolid(s, p + 1, f)
    ensures var r := Elements(s, f);
            Value(s, p) == (Arr(r.0), Past(s, r.1, ']'))
  {
    SolidIff(s, p + 1, f);
    ArrayIsGeneric(s, p);
    assert Value(s, p) == ValueAt(s, p) == Array(s, p);
  }

  /** Elements end at a closing bracket or the end of the text, with or without a comma before it. */
  lemma {:induction false} ElementsStop(s: string, p: nat)
    requires p <= |s| && (Over(s, p) || s[p] == ']')
    ensures Elements(s, p) == ([], p)
  {
  }

  /** Otherwise there is an element, and one comma or none with blanks around it. */
  lemma {:induction false} ElementsGoOn(s: string, p: nat, v: Json, q: nat, comma: nat, next: nat)
    requires !Over(s, p) && s[p] != ']' && Value(s, p) == (v, q)
    requires FirstSolid(s, q, comma) && FirstSolid(s, Past(s, comma, ','), next)
    ensures var r := Elements(s, next);
            Elements(s, p) == ([v] + r.0, r.1)
  {
    SolidIff(s, q, comma);
    SolidIff(s, Past(s, comma, ','), next);
    assert Element(s, p) == (v, next);
  }

  // ---- Objects ----

  lemma {:induction false} ObjectRule(s: string, p: nat, f: nat)
    requires Stands(s, p, '{') && FirstSolid(s, p + 1, f)
    ensures var r := Fields(s, f, map[]);
            Value(s, p) == (Obj(r.0), Past(s, r.1, '}'))
  {
    SolidIff(s, p + 1, f);
    assert Value(s, p) == ValueAt(s, p) == Object(s, p);
  }

  /** Members end at the first thing that is not a quote: a closing brace, the end of the text, or anything else. */
  lemma {:induction false} FieldsStop(s: string, p: nat, f: nat, acc: map<string, Json>)
    requires FirstSolid(s, p, f) && !Stands(s, f, '"')
    ensures Fields(s, p, acc) == (acc, f)
  {
    SolidIff(s, p, f);
  }

  /** At a quote there is a key, one colon or none, a value, and one comma or none; a key read again is overwritten. */
  lemma {:induction false} FieldsGoOn(s: string, p: nat, f: nat, acc: map<string, Json>, colon: nat, v: Json, q: nat, comma: nat)
    requires FirstSolid(s, p, f) && Stands(s, f, '"')
    requires FirstSolid(s, Past(s, StringStop(s, f + 1), '"'), colon) && Value(s, Past(s, colon, ':')) == (v, q)
    requires FirstSolid(s, q, comma)
    ensures Fields(s, p, acc) == Fields(s, Past(s, comma, ','), acc[StringBody(s, f + 1) := v])
  {
    SolidOnly(s, p, f);
    MemberIs(s, f, colon, v, q, comma);
  }

  lemma {:induction false} MemberIs(s: string, f: nat, colon: nat, v: Json, q: nat, comma: nat)
    requires Stands(s, f, '"') && FirstSolid(s, Past(s, StringStop(s, f + 1), '"'), colon)
    requires Value(s, Past(s, colon, ':')) == (v, q) && FirstSolid(s, q, comma)
    ensures Member(s, f) == (StringBody(s, f + 1), v, Past(s, comma, ','))
  {
    SolidOnly(s, StringEnd(s, f), colon);
    SolidOnly(s, q, comma);
  }

  // ---- Numbers and words ----

  /** The words, wherever they stand and whatever follows them. */
  lemma {:induction false} WordRule(s: string, p: nat)
    ensures Occurs(s, p, "true") ==> Value(s, p) == (Bool(true), p + 4)
    ensures Occurs(s, p, "false") ==> Value(s, p) == (Bool(false), p + 5)
    ensures Occurs(s, p, "null") ==> Value(s, p) == (Null, p + 4)
  {
    if Occurs(s, p, "true") { KeywordValue(s, p, "true"); }
    if Occurs(s, p, "false") { KeywordValue(s, p, "false"); }
    if Occurs(s, p, "null") { KeywordValue(s, p, "null"); }
  }

  predicate NumberStart(c: char) { '0' <= c <= '9' || c == '-' || c == '.' || c == 'e' || c == 'E' }

  lemma {:induction false} NumberAhead(s: string, p: nat)
    requires p < |s| && NumberStart(s[p])
    ensures Value(s, p) == Number(s, p)
  {
    if Occurs(s, p, "true") { OccursAt(s, p, "true", 0); }
    if Occurs(s, p, "false") { OccursAt(s, p, "false", 0); }
    if Occurs(s, p, "null") { OccursAt(s, p, "null", 0); }
    assert Value(s, p) == ValueAt(s, p) == Scalar(s, p);
  }

  /**
   A sign or none, digits or none, then a fraction and an exponent or neither: with one of them
   the text is kept whole, without it is an integer. A lone sign is zero.
   */
  lemma {:induction false} NumberRule(s: string, p: nat, w: nat, f: nat, e: nat)
    requires p < |s| && NumberStart(s[p])
    requires var d := Past(s, p, '-'); d <= w <= f <= e <= |s| && p < e && AllDigits(s[d..w])
    requires Fraction(s, w, f) && Exponent(s, f, e) && Ends(s, f, e)
    ensures var d := Past(s, p, '-');
            var n := Accumulate(s[d..w]);
            Value(s, p) == (if w < e then Float(s[p..e]) else if s[p] == '-' then Int(-n) else Int(n), e)
  {
    var d := Past(s, p, '-');
    NumberAhead(s, p);
    NumberParts(s, d, w, f, e);
    if w < e {
      FloatAt(s, p, d, w, f, e);
    } else {
      IntegerHere(s, p, d, w);
    }
  }

  lemma {:induction false} NumberParts(s: string, d: nat, w: nat, f: nat, e: nat)
    requires d <= w <= f <= e <= |s| && AllDigits(s[d..w]) && Fraction(s, w, f) && Exponent(s, f, e) && Ends(s, f, e)
    ensures SkipDigits(s, d) == w && FractionEnd(s, w) == f && ExponentEnd(s, f) == e
    ensures w < e ==> At(s, w) == '.' || At(s, w) == 'e' || At(s, w) == 'E'
    ensures w == e ==> !ExtendsNumber(At(s, w))
  {
    RunSkipped(s, d, w);
    FractionSkipped(s, w, f);
    ExponentSkipped(s, f, e);
  }

  lemma {:induction false} IntegerHere(s: string, p: nat, d: nat, w: nat)
    requires p < |s| && d == Past(s, p, '-') && p < w <= |s| && SkipDigits(s, d) == w && !ExtendsNumber(At(s, w))
    ensures Number(s, p) == (if s[p] == '-' then Int(-Accumulate(s[d..w])) else Int(Accumulate(s[d..w])), w)
  {
  }
}
