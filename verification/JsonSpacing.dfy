/**
 The reader on text with spaces, tabs, carriage returns and newlines in it, as a person or a
 formatter writes it: wherever they stand between the tokens of a printed value, the value
 is read back.
 */
module JsonSpacing {
  import opened CText
  import opened Decimal
  import opened JsonParser
  import opened JsonPrinter

  // ---- Tokens ----

  /** The tokens that the printed form of a value is made of. */
  function Tokens(v: Stored): (r: seq<string>)
    ensures |r| > 0
    decreases v, 1
  {
    match v
    case SIntArr(xs) => ["["] + Separated(IntTokens(xs)) + ["]"]
    case SArr(vs) => ["["] + Separated(AllTokens(vs)) + ["]"]
    case SObj(es) => ["{"] + Separated(EntryTokens(es)) + ["}"]
    case _ => [Print(v)]
  }

  /** Lists of tokens with a comma between them. */
  function Separated(parts: seq<seq<string>>): seq<string> {
    if parts == [] then []
    else if |parts| == 1 then parts[0]
    else parts[0] + [","] + Separated(parts[1..])
  }

  function IntTokens(xs: seq<Int64>): (r: seq<seq<string>>)
    ensures |r| == |xs|
  {
    if xs == [] then [] else [[DecInt(xs[0])]] + IntTokens(xs[1..])
  }

  function AllTokens(vs: seq<Stored>): (r: seq<seq<string>>)
    ensures |r| == |vs|
    decreases vs, 0
  {
    if vs == [] then [] else [Tokens(vs[0])] + AllTokens(vs[1..])
  }

  function EntryTokens(es: seq<Entry>): (r: seq<seq<string>>)
    ensures |r| == |es|
    decreases es, 0
  {
    if es == [] then [] else [[Quoted(es[0].key), ":"] + Tokens(es[0].value)] + EntryTokens(es[1..])
  }

  function Joined(tokens: seq<string>): string {
    if tokens == [] then "" else tokens[0] + Joined(tokens[1..])
  }

  // ---- Gaps ----

  /** What may stand between tokens. */
  predicate IsGap(s: string) {
    forall i :: 0 <= i < |s| ==> s[i] == ' ' || s[i] == '\t' || s[i] == '\r' || s[i] == '\n'
  }

  /** The tokens, each with a gap before it. */
  function Spaced(gaps: seq<string>, tokens: seq<string>): string
    requires |gaps| == |tokens|
  {
    if tokens == [] then "" else gaps[0] + tokens[0] + Spaced(gaps[1..], tokens[1..])
  }

  /** The tokens stand in `s` from `p` to `q`, with nothing but gaps in front of them. */
  ghost predicate Spread(s: string, p: nat, tokens: seq<string>, q: nat)
    decreases |tokens|
  {
    if tokens == [] then q == p <= |s|
    else exists r: nat :: p <= r <= |s| && IsGap(s[p..r]) && Occurs(s, r, tokens[0])
                          && Spread(s, r + |tokens[0]|, tokens[1..], q)
  }

  lemma {:induction false} GapSkipped(s: string, p: nat, r: nat)
    requires p <= r <= |s| && IsGap(s[p..r])
    ensures SkipBlanks(s, p) == SkipBlanks(s, r)
    decreases r - p
  {
    if p < r {
      assert s[p] == s[p..r][0];
      assert s[p + 1..r] == s[p..r][1..];
      GapSkipped(s, p + 1, r);
    }
  }

  lemma {:induction false} SpreadBounds(s: string, p: nat, tokens: seq<string>, q: nat)
    requires Spread(s, p, tokens, q)
    ensures p <= q <= |s|
    decreases |tokens|
  {
    if tokens != [] {
      var r: nat :| p <= r <= |s| && IsGap(s[p..r]) && Occurs(s, r, tokens[0])
                    && Spread(s, r + |tokens[0]|, tokens[1..], q);
      SpreadBounds(s, r + |tokens[0]|, tokens[1..], q);
    }
  }

  /** The first token and the rest. */
  lemma {:induction false} SpreadFirst(s: string, p: nat, tokens: seq<string>, q: nat) returns (r: nat)
    requires tokens != [] && Spread(s, p, tokens, q)
    ensures p <= r <= |s| && SkipBlanks(s, p) == SkipBlanks(s, r)
    ensures Occurs(s, r, tokens[0]) && Spread(s, r + |tokens[0]|, tokens[1..], q) && r + |tokens[0]| <= q <= |s|
  {
    r :| p <= r <= |s| && IsGap(s[p..r]) && Occurs(s, r, tokens[0])
         && Spread(s, r + |tokens[0]|, tokens[1..], q);
    GapSkipped(s, p, r);
    SpreadBounds(s, r + |tokens[0]|, tokens[1..], q);
  }

  /** Where one list of tokens ends and the next begins. */
  lemma {:induction false} SpreadSplit(s: string, p: nat, a: seq<string>, b: seq<string>, q: nat) returns (m: nat)
    requires Spread(s, p, a + b, q)
    ensures p <= m <= q <= |s| && Spread(s, p, a, m) && Spread(s, m, b, q)
    decreases |a|
  {
    SpreadBounds(s, p, a + b, q);
    if a == [] {
      assert a + b == b;
      m := p;
    } else {
      var r: nat :| p <= r <= |s| && IsGap(s[p..r]) && Occurs(s, r, (a + b)[0])
                    && Spread(s, r + |(a + b)[0]|, (a + b)[1..], q);
      assert (a + b)[0] == a[0] && (a + b)[1..] == a[1..] + b;
      m := SpreadSplit(s, r + |a[0]|, a[1..], b, q);
    }
  }

  // ---- Reading ----

  /** Wherever the tokens are spread in `s` with nothing behind that extends a number, they are read as `j`. */
  ghost predicate SpacedReads(s: string, tokens: seq<string>, j: Json) {
    && tokens != [] && tokens[0] != "" && IsHead(tokens[0][0])
    && forall p: nat, q: nat :: Spread(s, p, tokens, q) && q <= |s| && !ExtendsNumber(At(s, q)) ==> Value(s, p) == (j, q)
  }

  /** A token that is no blank is found behind the gap, which does not extend a number. */
  lemma {:induction false} TokenFound(s: string, p: nat, tokens: seq<string>, q: nat) returns (r: nat)
    requires tokens != [] && tokens[0] != "" && !IsBlank(tokens[0][0]) && Spread(s, p, tokens, q)
    ensures p <= r < q <= |s| && SkipBlanks(s, p) == r && At(s, r) == tokens[0][0] && Occurs(s, r, tokens[0])
    ensures Spread(s, r + |tokens[0]|, tokens[1..], q)
    ensures !ExtendsNumber(tokens[0][0]) ==> !ExtendsNumber(At(s, p))
  {
    r :| p <= r <= |s| && IsGap(s[p..r]) && Occurs(s, r, tokens[0])
         && Spread(s, r + |tokens[0]|, tokens[1..], q);
    GapSkipped(s, p, r);
    SpreadBounds(s, r + |tokens[0]|, tokens[1..], q);
    OccursAt(s, r, tokens[0], 0);
    if p < r {
      assert s[p] == s[p..r][0];
    }
  }

  /** A single token that closes something. */
  lemma {:induction false} CloseFound(s: string, p: nat, close: string, q: nat)
    requires |close| == 1 && !IsBlank(close[0]) && !ExtendsNumber(close[0]) && Spread(s, p, [close], q)
    ensures p < q <= |s| && SkipBlanks(s, p) == q - 1 && At(s, q - 1) == close[0] && !ExtendsNumber(At(s, p))
  {
    var r := TokenFound(s, p, [close], q);
    assert [close][1..] == [];
  }

  lemma {:induction false} SeparatedFirst(parts: seq<seq<string>>, close: string)
    requires parts != []
    ensures Separated(parts) + [close] ==
              parts[0] + if |parts| == 1 then [close] else [","] + (Separated(parts[1..]) + [close])
  {
    if |parts| > 1 {
      assert parts[0] + [","] + Separated(parts[1..]) + [close] == parts[0] + ([","] + (Separated(parts[1..]) + [close]));
    }
  }

  /** What is behind a part of a list: the closing bracket, or a comma and the other parts. */
  lemma {:induction false} NextPart(s: string, m: nat, parts: seq<seq<string>>, close: string, q: nat) returns (r: nat)
    requires parts != [] && (close == "]" || close == "}")
    requires Spread(s, m, if |parts| == 1 then [close] else [","] + (Separated(parts[1..]) + [close]), q)
    ensures m <= r < q <= |s| && SkipBlanks(s, m) == r && !ExtendsNumber(At(s, m))
    ensures |parts| == 1 ==> r == q - 1 && At(s, r) == close[0]
    ensures |parts| > 1 ==> At(s, r) == ',' && Spread(s, r + 1, Separated(parts[1..]) + [close], q)
  {
    if |parts| == 1 {
      CloseFound(s, m, close, q);
      r := q - 1;
    } else {
      var tail := Separated(parts[1..]) + [close];
      assert ([","] + tail)[1..] == tail;
      r := TokenFound(s, m, [","] + tail, q);
    }
  }

  /** The first part of a list: where it ends, and what is behind it. */
  lemma {:induction false} FirstPart(s: string, p: nat, parts: seq<seq<string>>, close: string, q: nat) returns (m: nat, r: nat)
    requires parts != [] && (close == "]" || close == "}") && Spread(s, p, Separated(parts) + [close], q)
    ensures p <= m <= r < q <= |s| && Spread(s, p, parts[0], m) && SkipBlanks(s, m) == r && !ExtendsNumber(At(s, m))
    ensures |parts| == 1 ==> r == q - 1 && At(s, r) == close[0]
    ensures |parts| > 1 ==> At(s, r) == ',' && Spread(s, r + 1, Separated(parts[1..]) + [close], q)
  {
    SeparatedFirst(parts, close);
    var tail := if |parts| == 1 then [close] else [","] + (Separated(parts[1..]) + [close]);
    m := SpreadSplit(s, p, parts[0], tail, q);
    r := NextPart(s, m, parts, close, q);
  }

  // Arrays

  lemma {:induction false} ElementsSpaced(parts: seq<seq<string>>, js: seq<Json>, s: string, p: nat, q: nat)
    requires |parts| == |js| && forall i :: 0 <= i < |parts| ==> SpacedReads(s, parts[i], js[i])
    requires Spread(s, p, Separated(parts) + ["]"], q)
    ensures p < q <= |s| && Elements(s, SkipBlanks(s, p)) == (js, q - 1) && At(s, q - 1) == ']'
    decreases |parts|
  {
    if parts == [] {
      assert Separated(parts) + ["]"] == ["]"];
      CloseFound(s, p, "]", q);
    } else {
      var b, next := ElementsNext(parts, js[0], s, p, q);
      if |parts| == 1 {
        assert js == [js[0]] + [];
      } else {
        ElementsSpaced(parts[1..], js[1..], s, next, q);
        assert js == [js[0]] + js[1..];
      }
    }
  }

  /** Past the first element, over the comma if there is one. */
  lemma {:induction false} ElementsNext(parts: seq<seq<string>>, j: Json, s: string, p: nat, q: nat) returns (b: nat, next: nat)
    requires parts != [] && SpacedReads(s, parts[0], j) && Spread(s, p, Separated(parts) + ["]"], q)
    ensures p <= b < next <= q <= |s| && SkipBlanks(s, p) == b
    ensures var r := Elements(s, SkipBlanks(s, next)); Elements(s, b) == ([j] + r.0, r.1)
    ensures |parts| == 1 ==> next == q - 1 && At(s, next) == ']' && Elements(s, b) == ([j] + [], next)
    ensures |parts| > 1 ==> Spread(s, next, Separated(parts[1..]) + ["]"], q)
  {
    var m, r := FirstPart(s, p, parts, "]", q);
    b := TokenFound(s, p, parts[0], m);
    next := if |parts| == 1 then r else r + 1;
    ElementAt(s, p, b, m, r, j);
    assert Element(s, b) == (j, SkipBlanks(s, next));
    if |parts| == 1 {
      assert Elements(s, r) == ([], r);
    }
  }

  lemma {:induction false} ElementAt(s: string, p: nat, b: nat, m: nat, r: nat, j: Json)
    requires p <= b < m <= r < |s| && SkipBlanks(s, p) == b && IsHead(At(s, b)) && SkipBlanks(s, m) == r
    requires Value(s, p) == (j, m)
    ensures Element(s, b) == (j, SkipBlanks(s, if At(s, r) == ',' then r + 1 else r))
  {
    assert Value(s, b) == Value(s, p);
  }

  lemma {:induction false} ArraySpaced(parts: seq<seq<string>>, js: seq<Json>, s: string, p: nat, q: nat)
    requires |parts| == |js| && forall i :: 0 <= i < |parts| ==> SpacedReads(s, parts[i], js[i])
    requires Spread(s, p, ["["] + Separated(parts) + ["]"], q)
    ensures q <= |s| && Value(s, p) == (Arr(js), q)
  {
    var tail := Separated(parts) + ["]"];
    assert ["["] + Separated(parts) + ["]"] == ["["] + tail && (["["] + tail)[1..] == tail;
    var r := TokenFound(s, p, ["["] + tail, q);
    ElementsSpaced(parts, js, s, r + 1, q);
    ArrayAt(s, p, r, q, js);
  }

  lemma {:induction false} ArrayAt(s: string, p: nat, r: nat, q: nat, js: seq<Json>)
    requires p <= r < q <= |s| && SkipBlanks(s, p) == r && At(s, r) == '[' && At(s, q - 1) == ']'
    requires Elements(s, SkipBlanks(s, r + 1)) == (js, q - 1)
    ensures Value(s, p) == (Arr(js), q)
  {
    ArrayIsGeneric(s, r);
    assert Value(s, p) == ValueAt(s, r) == Array(s, r);
  }

  // Objects

  /** Key, colon, value and what is behind them, at the places where they were found. */
  lemma {:induction false} MemberAt(s: string, b: nat, after: nat, c: nat, m: nat, r: nat, j: Json)
    requires b < after <= c < m <= r < |s| && StringEnd(s, b) == after
    requires SkipBlanks(s, after) == c && At(s, c) == ':' && Value(s, c + 1) == (j, m) && SkipBlanks(s, m) == r
    ensures Member(s, b) == (StringBody(s, b + 1), j, if At(s, r) == ',' then r + 1 else r)
  {
  }

  /** One member in front of a delimiter. */
  lemma {:induction false} MemberSpaced(key: string, value: seq<string>, j: Json, s: string, p: nat, m: nat, r: nat) returns (b: nat)
    requires NulFree(key) && SpacedReads(s, value, j)
    requires Spread(s, p, [Quoted(key)] + ([":"] + value), m)
    requires m <= r < |s| && SkipBlanks(s, m) == r && !ExtendsNumber(At(s, m))
    ensures p <= b < |s| && SkipBlanks(s, p) == b && At(s, b) == '"'
    ensures Member(s, b) == (key, j, if At(s, r) == ',' then r + 1 else r)
  {
    var rest := [":"] + value;
    assert ([Quoted(key)] + rest)[1..] == rest;
    b := TokenFound(s, p, [Quoted(key)] + rest, m);
    QuotedRoundTrip(key, s, b);
    var after := b + |Quoted(key)|;
    var c := ColonSpaced(value, j, s, after, m);
    MemberAt(s, b, after, c, m, r, j);
  }

  lemma {:induction false} ColonSpaced(value: seq<string>, j: Json, s: string, p: nat, m: nat) returns (c: nat)
    requires SpacedReads(s, value, j) && Spread(s, p, [":"] + value, m) && m <= |s| && !ExtendsNumber(At(s, m))
    ensures p <= c < m && SkipBlanks(s, p) == c && At(s, c) == ':' && Value(s, c + 1) == (j, m)
  {
    assert ([":"] + value)[1..] == value;
    c := TokenFound(s, p, [":"] + value, m);
    var t := TokenFound(s, c + 1, value, m);
  }

  lemma {:induction false} EntryTokensFirst(es: seq<Entry>)
    requires es != []
    ensures EntryTokens(es)[0] == [Quoted(es[0].key)] + ([":"] + Tokens(es[0].value))
    ensures EntryTokens(es)[1..] == EntryTokens(es[1..])
  {
  }

  /** The first member of an object: where it starts and where what is behind it does. */
  lemma {:induction false} FirstMember(es: seq<Entry>, s: string, p: nat, q: nat) returns (b: nat, r: nat)
    requires es != [] && NulFree(es[0].key) && SpacedReads(s, Tokens(es[0].value), Abs(es[0].value))
    requires Spread(s, p, Separated(EntryTokens(es)) + ["}"], q)
    ensures p <= b < r < q <= |s| && SkipBlanks(s, p) == b && At(s, b) == '"'
    ensures Member(s, b) == (es[0].key, Abs(es[0].value), if |es| > 1 then r + 1 else r)
    ensures |es| == 1 ==> r == q - 1 && At(s, r) == '}'
    ensures |es| > 1 ==> Spread(s, r + 1, Separated(EntryTokens(es[1..])) + ["}"], q)
  {
    EntryTokensFirst(es);
    var m;
    m, r := FirstPart(s, p, EntryTokens(es), "}", q);
    b := MemberSpaced(es[0].key, Tokens(es[0].value), Abs(es[0].value), s, p, m, r);
  }

  ghost predicate EntryReads(s: string, e: Entry) { NulFree(e.key) && SpacedReads(s, Tokens(e.value), Abs(e.value)) }

  ghost predicate EntriesRead(s: string, es: seq<Entry>) { forall i :: 0 <= i < |es| ==> EntryReads(s, es[i]) }

  /** Past the first member. */
  lemma {:induction false} FieldsNext(es: seq<Entry>, s: string, p: nat, acc: map<string, Json>, q: nat) returns (r: nat)
    requires es != [] && EntryReads(s, es[0]) && Spread(s, p, Separated(EntryTokens(es)) + ["}"], q)
    ensures p < r < q <= |s|
    ensures var more := acc[es[0].key := Abs(es[0].value)];
            if |es| == 1 then r == q - 1 && At(s, r) == '}' && Fields(s, p, acc) == (more, r)
            else Spread(s, r + 1, Separated(EntryTokens(es[1..])) + ["}"], q) && Fields(s, p, acc) == Fields(s, r + 1, more)
  {
    var b;
    b, r := FirstMember(es, s, p, q);
    FieldsStart(s, p, b, acc);
    if |es| == 1 {
      FieldsStop(s, r, acc[es[0].key := Abs(es[0].value)]);
    }
  }

  lemma {:induction false} FieldsSpaced(es: seq<Entry>, s: string, p: nat, acc: map<string, Json>, q: nat)
    requires es != [] && EntriesRead(s, es)
    requires Spread(s, p, Separated(EntryTokens(es)) + ["}"], q)
    ensures p < q <= |s| && Fields(s, p, acc) == (AbsInto(acc, es), q - 1) && At(s, q - 1) == '}'
    decreases |es|
  {
    var r := FieldsNext(es, s, p, acc, q);
    var more := acc[es[0].key := Abs(es[0].value)];
    if |es| == 1 {
      assert AbsInto(more, []) == more && es[1..] == [];
    } else {
      FieldsSpaced(es[1..], s, r + 1, more, q);
    }
  }

  lemma {:induction false} FieldsStart(s: string, p: nat, b: nat, acc: map<string, Json>)
    requires p <= b < |s| && SkipBlanks(s, p) == b && At(s, b) == '"'
    ensures Fields(s, p, acc) == var (k, v, n) := Member(s, b); Fields(s, n, acc[k := v])
  {
    assert At(s, p) != NUL && At(s, p) != '}' by {
      if !IsBlank(At(s, p)) { assert b == p; }
    }
  }

  /** The object routine skips blanks before its loop does. */
  lemma {:induction false} BodySpaced(es: seq<Entry>, s: string, p: nat, q: nat)
    requires EntriesRead(s, es)
    requires Spread(s, p, Separated(EntryTokens(es)) + ["}"], q)
    ensures p < q <= |s| && At(s, q - 1) == '}'
    ensures Fields(s, SkipBlanks(s, p), map[]) == (AbsInto(map[], es), q - 1)
  {
    if es == [] {
      assert Separated(EntryTokens(es)) + ["}"] == ["}"];
      CloseFound(s, p, "}", q);
      FieldsStop(s, q - 1, map[]);
    } else {
      var b, r := FirstMember(es, s, p, q);
      FieldsSpaced(es, s, p, map[], q);
      FieldsStart(s, p, b, map[]);
      FieldsStart(s, b, b, map[]);
    }
  }

  lemma {:induction false} ObjectSpaced(es: seq<Entry>, s: string, p: nat, q: nat)
    requires EntriesRead(s, es)
    requires Spread(s, p, ["{"] + Separated(EntryTokens(es)) + ["}"], q)
    ensures q <= |s| && Value(s, p) == (Obj(AbsInto(map[], es)), q)
  {
    var tail := Separated(EntryTokens(es)) + ["}"];
    assert ["{"] + Separated(EntryTokens(es)) + ["}"] == ["{"] + tail && (["{"] + tail)[1..] == tail;
    var r := TokenFound(s, p, ["{"] + tail, q);
    BodySpaced(es, s, r + 1, q);
    ObjectAt(s, p, r, q, AbsInto(map[], es));
  }

  lemma {:induction false} ObjectAt(s: string, p: nat, r: nat, q: nat, fields: map<string, Json>)
    requires p <= r < q <= |s| && SkipBlanks(s, p) == r && At(s, r) == '{' && At(s, q - 1) == '}'
    requires Fields(s, SkipBlanks(s, r + 1), map[]) == (fields, q - 1)
    ensures Value(s, p) == (Obj(fields), q)
  {
    assert Value(s, p) == ValueAt(s, r) == Object(s, r);
  }

  // Whole trees

  lemma {:induction false} TokensHead(v: Stored)
    ensures Tokens(v)[0] != "" && IsHead(Tokens(v)[0][0])
  {
    PrintHead(v);
  }

  lemma {:induction false} TokensAt(vs: seq<Stored>, i: nat)
    requires i < |vs|
    ensures |AbsAll(vs)| == |vs| && AllTokens(vs)[i] == Tokens(vs[i]) && AbsAll(vs)[i] == Abs(vs[i])
    decreases |vs|
  {
    if |vs| > 1 {
      TokensAt(vs[1..], if i > 0 then i - 1 else 0);
    }
  }

  lemma {:induction false} IntTokensAt(xs: seq<Int64>, i: nat)
    requires i < |xs|
    ensures IntTokens(xs)[i] == Tokens(SInt(xs[i])) && Ints(xs)[i] == Abs(SInt(xs[i]))
    decreases |xs|
  {
    if i > 0 {
      IntTokensAt(xs[1..], i - 1);
    }
  }

  lemma {:induction false} ScalarSpaced(v: Stored, s: string, p: nat, q: nat)
    requires NulFreeTree(v) && !v.SIntArr? && !v.SArr? && !v.SObj? && q <= |s|
    requires Spread(s, p, Tokens(v), q) && (v.SInt? ==> !ExtendsNumber(At(s, q)))
    ensures Value(s, p) == (Abs(v), q)
  {
    PrintHead(v);
    var r := TokenFound(s, p, [Print(v)], q);
    assert [Print(v)][1..] == [];
    PrintedRead(v, s, r);
    assert Value(s, p) == Value(s, r);
  }

  lemma {:induction false} IntsSpaced(xs: seq<Int64>, s: string)
    ensures forall i :: 0 <= i < |xs| ==> SpacedReads(s, IntTokens(xs)[i], Ints(xs)[i])
  {
    forall i | 0 <= i < |xs| ensures SpacedReads(s, IntTokens(xs)[i], Ints(xs)[i]) {
      IntTokensAt(xs, i);
      var v := SInt(xs[i]);
      TokensHead(v);
      forall p: nat, q: nat | Spread(s, p, Tokens(v), q) && q <= |s| && !ExtendsNumber(At(s, q))
        ensures Value(s, p) == (Abs(v), q)
      {
        ScalarSpaced(v, s, p, q);
      }
    }
  }

  lemma {:induction false} TreeSpacedReads(v: Stored, s: string)
    requires NulFreeTree(v)
    ensures SpacedReads(s, Tokens(v), Abs(v))
    decreases v, 1
  {
    TokensHead(v);
    forall p: nat, q: nat | Spread(s, p, Tokens(v), q) && q <= |s| && !ExtendsNumber(At(s, q))
      ensures Value(s, p) == (Abs(v), q)
    {
      SpreadRead(v, s, p, q);
    }
  }

  /** The tokens of a value, spread in any text with any gaps, are read as the value and no further. */
  lemma {:induction false} SpreadRead(v: Stored, s: string, p: nat, q: nat)
    requires NulFreeTree(v) && Spread(s, p, Tokens(v), q) && q <= |s|
    requires v.SInt? ==> !ExtendsNumber(At(s, q))
    ensures Value(s, p) == (Abs(v), q)
    decreases v, 0
  {
    match v
    case SIntArr(xs) =>
      IntsSpaced(xs, s);
      ArraySpaced(IntTokens(xs), Ints(xs), s, p, q);
    case SArr(vs) =>
      if vs != [] { TokensAt(vs, 0); }
      forall i | 0 <= i < |vs| ensures SpacedReads(s, AllTokens(vs)[i], AbsAll(vs)[i]) {
        TokensAt(vs, i);
        TreeSpacedReads(vs[i], s);
      }
      ArraySpaced(AllTokens(vs), AbsAll(vs), s, p, q);
    case SObj(es) =>
      forall i | 0 <= i < |es| ensures EntryReads(s, es[i]) {
        TreeSpacedReads(es[i].value, s);
      }
      ObjectSpaced(es, s, p, q);
    case _ => ScalarSpaced(v, s, p, q);
  }

  // ---- Spaced text ----

  lemma {:induction false} SpacedIsSpread(gaps: seq<string>, tokens: seq<string>, s: string, p: nat)
    requires |gaps| == |tokens| && forall i :: 0 <= i < |gaps| ==> IsGap(gaps[i])
    requires Occurs(s, p, Spaced(gaps, tokens))
    ensures Spread(s, p, tokens, p + |Spaced(gaps, tokens)|)
    decreases |tokens|
  {
    if tokens != [] {
      var rest := Spaced(gaps[1..], tokens[1..]);
      var r := p + |gaps[0]|;
      OccursThree(s, p, gaps[0], tokens[0], rest);
      OccursAppend(s, r, tokens[0], rest);
      OccursSlice(s, p, gaps[0]);
      SpacedIsSpread(gaps[1..], tokens[1..], s, r + |tokens[0]|);
      assert p <= r <= |s| && IsGap(s[p..r]) && Occurs(s, r, tokens[0]);
    }
  }

  /**
   The inverse law for text with spaces, tabs, carriage returns and newlines: whatever gaps are
   put before the tokens of a printed value, wherever it stands and whatever follows that does
   not extend a number, it is read back and consumed exactly.
   */
  lemma {:induction false} SpacedRoundTrip(v: Stored, gaps: seq<string>, s: string, p: nat)
    requires NulFreeTree(v) && |gaps| == |Tokens(v)|
    requires forall i, k :: 0 <= i < |gaps| && 0 <= k < |gaps[i]| ==>
               gaps[i][k] == ' ' || gaps[i][k] == '\t' || gaps[i][k] == '\r' || gaps[i][k] == '\n'
    requires Occurs(s, p, Spaced(gaps, Tokens(v)))
    requires v.SInt? ==> !ExtendsNumber(At(s, p + |Spaced(gaps, Tokens(v))|))
    ensures Value(s, p) == (Abs(v), p + |Spaced(gaps, Tokens(v))|)
  {
    SpacedIsSpread(gaps, Tokens(v), s, p);
    SpreadRead(v, s, p, p + |Spaced(gaps, Tokens(v))|);
  }

  // The tokens are those of the printed text

  lemma {:induction false} JoinedAppend(a: seq<string>, b: seq<string>)
    ensures Joined(a + b) == Joined(a) + Joined(b)
    decreases |a|
  {
    if a == [] {
      assert a + b == b;
    } else {
      assert (a + b)[1..] == a[1..] + b;
      JoinedAppend(a[1..], b);
      assert a[0] + (Joined(a[1..]) + Joined(b)) == a[0] + Joined(a[1..]) + Joined(b);
    }
  }

  lemma {:induction false} JoinedOne(t: string)
    ensures Joined([t]) == t
  {
    assert [t][1..] == [] && t + "" == t;
  }

  lemma {:induction false} JoinedSeparated(parts: seq<seq<string>>, texts: seq<string>)
    requires |parts| == |texts| && forall i :: 0 <= i < |parts| ==> Joined(parts[i]) == texts[i]
    ensures Joined(Separated(parts)) == JoinComma(texts)
    decreases |parts|
  {
    if |parts| > 1 {
      JoinedSeparated(parts[1..], texts[1..]);
      JoinedAppend(parts[0] + [","], Separated(parts[1..]));
      JoinedAppend(parts[0], [","]);
      JoinedOne(",");
    }
  }

  lemma {:induction false} JoinedBracketed(open: string, parts: seq<seq<string>>, texts: seq<string>, close: string)
    requires |parts| == |texts| && forall i :: 0 <= i < |parts| ==> Joined(parts[i]) == texts[i]
    ensures Joined([open] + Separated(parts) + [close]) == open + JoinComma(texts) + close
  {
    JoinedSeparated(parts, texts);
    JoinedAppend([open] + Separated(parts), [close]);
    JoinedAppend([open], Separated(parts));
    JoinedOne(open);
    JoinedOne(close);
  }

  lemma {:induction false} EntryJoined(es: seq<Entry>, i: nat)
    requires i < |es| && Joined(Tokens(es[i].value)) == Print(es[i].value)
    ensures Joined(EntryTokens(es)[i]) == PrintEntries(es)[i]
    decreases |es|
  {
    if i > 0 {
      EntryJoined(es[1..], i - 1);
    } else {
      var value := Tokens(es[0].value);
      JoinedAppend([Quoted(es[0].key), ":"], value);
      JoinedAppend([Quoted(es[0].key)], [":"]);
      JoinedOne(Quoted(es[0].key));
      JoinedOne(":");
      assert [Quoted(es[0].key)] + [":"] == [Quoted(es[0].key), ":"];
    }
  }

  /** Without gaps they are the printed text. */
  lemma {:induction false} TokensArePrint(v: Stored)
    ensures Joined(Tokens(v)) == Print(v)
    decreases v
  {
    match v
    case SIntArr(xs) =>
      forall i | 0 <= i < |xs| ensures Joined(IntTokens(xs)[i]) == DecAll(xs)[i] {
        IntTokensAt(xs, i);
        IntElement(xs, i);
        JoinedOne(DecInt(xs[i]));
      }
      JoinedBracketed("[", IntTokens(xs), DecAll(xs), "]");
    case SArr(vs) =>
      forall i | 0 <= i < |vs| ensures Joined(AllTokens(vs)[i]) == PrintAll(vs)[i] {
        TokensAt(vs, i);
        TreeElement(vs, i);
        TokensArePrint(vs[i]);
      }
      JoinedBracketed("[", AllTokens(vs), PrintAll(vs), "]");
    case SObj(es) =>
      forall i | 0 <= i < |es| ensures Joined(EntryTokens(es)[i]) == PrintEntries(es)[i] {
        TokensArePrint(es[i].value);
        EntryJoined(es, i);
      }
      JoinedBracketed("{", EntryTokens(es), PrintEntries(es), "}");
    case _ => JoinedOne(Print(v));
  }
}
