/**
 Keys go into the builder's text unescaped. Which runs of adds are then read back: a key that
 is not clean spoils every run it is in, whatever stands around it. The argument counts
 backslashes: to be read, a key with quotes and backslashes needs a literal with more of them
 than any literal of the text has, except inside string values, where no colon follows.
 */
module JsonBuilderKeys {
  import opened CText
  import opened Decimal
  import opened JsonParser
  import opened JsonPrinter
  import opened JsonBuilder

  // ---- Backslashes ----

  /** The backslashes in what is read of a literal from `p` on. */
  function Slashes(s: string, p: nat): nat
    requires p <= |s|
    decreases |s| - p
  {
    var c := At(s, p);
    if c == NUL || c == '"' then 0
    else if c != '\\' then Slashes(s, p + 1)
    else if At(s, p + 1) == NUL then 1
    else (if At(s, p + 1) == '\\' then 2 else 1) + Slashes(s, p + 2)
  }

  /** How many a literal needs to be read as `t`. */
  function Needs(t: string): nat {
    if t == "" then 0 else (if t[0] == '\\' then 2 else if t[0] == '"' then 1 else 0) + Needs(t[1..])
  }

  /** How many `t` has. */
  function Has(t: string): nat {
    if t == "" then 0 else (if t[0] == '\\' then 1 else 0) + Has(t[1..])
  }

  lemma {:induction false} BodyNeeds(s: string, p: nat)
    requires p <= |s|
    ensures Needs(StringBody(s, p)) <= Slashes(s, p)
    decreases |s| - p
  {
    var c, body := At(s, p), StringBody(s, p);
    if c != NUL && c != '"' {
      if c != '\\' {
        BodyNeeds(s, p + 1);
        assert body[1..] == StringBody(s, p + 1);
      } else if At(s, p + 1) != NUL {
        BodyNeeds(s, p + 2);
        assert body[1..] == StringBody(s, p + 2);
      }
    }
  }

  /** A key that is not clean needs more than it has. */
  lemma {:induction false} DirtyNeeds(k: string)
    requires NulFree(k)
    ensures Needs(k) >= Has(k) && (!CleanKey(k) ==> Needs(k) > Has(k))
  {
    if k != "" {
      DirtyNeeds(k[1..]);
      assert forall i :: 1 <= i < |k| ==> k[i] == k[1..][i - 1];
    }
  }

  lemma {:induction false} TailHas(k: string, j: nat)
    requires j <= |k|
    ensures Has(k[j..]) <= Has(k)
  {
    if j > 0 {
      TailHas(k[1..], j - 1);
      assert k[1..][j - 1..] == k[j..];
    }
  }

  // ---- Literals that start in or behind a key ----

  /** No quote, no backslash and no terminator. */
  predicate Bare(t: string) { forall i :: 0 <= i < |t| ==> t[i] != '"' && t[i] != '\\' && t[i] != NUL }

  lemma {:induction false} BareRun(s: string, p: nat, t: string)
    requires Bare(t) && Occurs(s, p, t)
    ensures Slashes(s, p) == Slashes(s, p + |t|)
    decreases |t|
  {
    if t != "" {
      OccursAt(s, p, t, 0);
      assert t == t[..1] + t[1..];
      OccursAppend(s, p, t[..1], t[1..]);
      BareRun(s, p + 1, t[1..]);
    }
  }

  /** What stands behind a value: a comma and the quote of the next key, or the brace at the end. */
  predicate Edge(s: string, e: nat) {
    e < |s| && if s[e] == ',' then At(s, e + 1) == '"' else s[e] == '}' && e + 1 == |s|
  }

  lemma {:induction false} EdgeEnds(s: string, e: nat)
    requires Edge(s, e)
    ensures Slashes(s, e) == 0
  {
  }

  /** From the colon on a literal ends before it meets a backslash. */
  lemma {:induction false} FromColon(s: string, c: nat, x: string)
    requires c <= |s| && At(s, c) == ':' && Occurs(s, c + 1, x) && Edge(s, c + 1 + |x|)
    requires Bare(x) || (x != "" && x[0] == '"')
    ensures Slashes(s, c) == 0
  {
    if Bare(x) {
      BareRun(s, c + 1, x);
      EdgeEnds(s, c + 1 + |x|);
    } else {
      OccursAt(s, c + 1, x, 0);
    }
  }

  lemma {:induction false} OccursTail(s: string, p: nat, u: string, n: nat)
    requires n <= |u| && Occurs(s, p, u + "\"")
    ensures Occurs(s, p + n, u[n..] + "\"")
  {
    assert u + "\"" == u[..n] + (u[n..] + "\"");
    OccursAppend(s, p, u[..n], u[n..] + "\"");
  }

  /** From inside a key on a literal meets the backslashes of the rest of the key at most. */
  lemma {:induction false} FromKey(s: string, p: nat, u: string, x: string)
    requires NulFree(u) && Occurs(s, p, u + "\"") && p + |u| + 1 <= |s| && At(s, p + |u| + 1) == ':'
    requires Occurs(s, p + |u| + 2, x) && Edge(s, p + |u| + 2 + |x|) && (Bare(x) || (x != "" && x[0] == '"'))
    ensures Slashes(s, p) <= Has(u)
    decreases |u|
  {
    OccursAt(s, p, u + "\"", 0);
    if u != "" && u[0] != '"' {
      OccursAt(s, p, u + "\"", 1);
      if u[0] != '\\' {
        OccursTail(s, p, u, 1);
        FromKey(s, p + 1, u[1..], x);
      } else if |u| == 1 {
        FromColon(s, p + 2, x);
      } else {
        OccursTail(s, p, u, 2);
        FromKey(s, p + 2, u[2..], x);
        assert u[1..][1..] == u[2..];
      }
    }
  }

  // ---- Literals that start in a string value ----

  /** From a quote inside the written string a literal runs to the closing quote. */
  lemma {:induction false} FromInside(t: string, s: string, p: nat, q: nat)
    requires NulFree(t) && Occurs(s, p, Escape(t) + "\"") && p <= q < p + |Escape(t)| && At(s, q) == '"'
    ensures StringStop(s, q + 1) == p + |Escape(t)|
    decreases |t|
  {
    var x := EscapeChar(t[0]);
    EscapeSplit(t, s, p);
    if q >= p + |x| {
      FromInside(t[1..], s, p + |x|, q);
    } else {
      OccursAt(s, p, x, q - p);
      assert t[0] == '"' && q + 1 == p + |x|;
      StringRoundTrip(t[1..], s, p + |x|);
    }
  }

  /** A literal behind which no colon stands is a key without a value. */
  lemma {:induction false} NoValue(s: string, q: nat)
    requires q < |s| && At(s, q) == '"' && (At(s, StringEnd(s, q)) == ',' || At(s, StringEnd(s, q)) == '}')
    ensures Member(s, q).1 == Null
  {
    var c := StringEnd(s, q);
    assert SkipBlanks(s, c) == c && SkipChar(s, c, ':') == c;
    NothingThere(s, c);
  }

  lemma {:induction false} NothingThere(s: string, c: nat)
    requires c < |s| && (s[c] == ',' || s[c] == '}')
    ensures Value(s, c).0 == Null
  {
    if Occurs(s, c, "true") { OccursAt(s, c, "true", 0); }
    if Occurs(s, c, "false") { OccursAt(s, c, "false", 0); }
    if Occurs(s, c, "null") { OccursAt(s, c, "null", 0); }
    assert SkipBlanks(s, c) == c && NumberEnd(s, c) == c;
    assert ValueAt(s, c) == Scalar(s, c) == Number(s, c);
  }

  // ---- No literal of a built text ----

  /** A literal from the quote at `q` reads at most `most` backslashes, or is a key without a value. */
  predicate Harmless(s: string, q: nat, most: nat)
    requires q < |s|
  {
    Slashes(s, q + 1) <= most || Member(s, q).1 == Null
  }

  predicate NulFreeAdd(a: Add) { NulFree(a.key) && (a.AddString? ==> NulFree(a.s)) }

  lemma {:induction false} IntBare(n: int)
    ensures Bare(DecInt(n))
  {
    var t := DecInt(n);
    var digits := Dec(Magnitude(n));
    assert forall i :: 0 <= i < |digits| ==> IsDigit(digits[i]);
    assert forall i :: 0 <= i < |t| ==> t[i] == '-' || t[i] in digits;
  }

  lemma {:induction false} BareAppend(x: string, y: string)
    requires Bare(x) && Bare(y)
    ensures Bare(x + y)
  {
  }

  lemma {:induction false} IntsBare(xs: seq<int>)
    ensures Bare(JoinComma(DecAll(xs)))
  {
    if xs != [] {
      IntBare(xs[0]);
      IntsBare(xs[1..]);
      assert DecAll(xs)[1..] == DecAll(xs[1..]);
      BareAppend(DecInt(xs[0]), ",");
      BareAppend(DecInt(xs[0]) + ",", JoinComma(DecAll(xs[1..])));
    }
  }

  /** A value is written without quotes or as a string. */
  lemma {:induction false} ValueBare(a: Add)
    requires !a.AddString?
    ensures Bare(ValueText(a))
  {
    match a
    case AddInt(_, n) => IntBare(n);
    case AddBool(_, b) =>
    case AddIntList(_, xs) =>
      IntsBare(xs);
      BareAppend("[", JoinComma(DecAll(xs)));
      BareAppend("[" + JoinComma(DecAll(xs)), "]");
  }

  lemma {:induction false} ValueStarts(a: Add)
    ensures Bare(ValueText(a)) || (ValueText(a) != "" && ValueText(a)[0] == '"')
  {
    if !a.AddString? {
      ValueBare(a);
    }
  }

  /** From a quote in a string value on. */
  lemma {:induction false} InValue(t: string, s: string, v: nat, q: nat, most: nat)
    requires NulFree(t) && Occurs(s, v, Quoted(t)) && Edge(s, v + |Quoted(t)|)
    requires v <= q < v + |Quoted(t)| && At(s, q) == '"'
    ensures Harmless(s, q, most)
  {
    var close := v + 1 + |Escape(t)|;
    assert Quoted(t) == "\"" + (Escape(t) + "\"");
    OccursAppend(s, v, "\"", Escape(t) + "\"");
    OccursAppend(s, v + 1, Escape(t), "\"");
    OccursAt(s, close, "\"", 0);
    if q == close {
      EdgeEnds(s, q + 1);
    } else {
      if q == v {
        StringRoundTrip(t, s, v + 1);
      } else {
        FromInside(t, s, v + 1, q);
      }
      NoValue(s, q);
    }
  }

  /** From a quote in front of a key or in it on. */
  lemma {:induction false} InKey(k: string, j: nat, x: string, s: string, p: nat)
    requires j <= |k| && NulFree(k) && Occurs(s, p, k + "\"") && p + |k| + 1 <= |s| && At(s, p + |k| + 1) == ':'
    requires Occurs(s, p + |k| + 2, x) && Edge(s, p + |k| + 2 + |x|) && (Bare(x) || (x != "" && x[0] == '"'))
    ensures Slashes(s, p + j) <= Has(k)
  {
    var u := k[j..];
    TailHas(k, j);
    OccursTail(s, p, k, j);
    assert p + j + |u| == p + |k|;
    FromKey(s, p + j, u, x);
  }

  /** From a quote in the text of a member on. */
  lemma {:induction false} InMember(a: Add, s: string, p: nat, q: nat, most: nat)
    requires NulFreeAdd(a) && Has(a.key) <= most
    requires var m := MemberText(a.key, ValueText(a));
             Occurs(s, p, m) && Edge(s, p + |m|) && p <= q < p + |m| && At(s, q) == '"'
    ensures Harmless(s, q, most)
  {
    var k, x := a.key, ValueText(a);
    MemberParts(k, x, s, p);
    ValueStarts(a);
    var v := p + |k| + 3;
    if q < v - 1 {
      InQuotedKey(k, x, s, p, q);
    } else if a.AddString? {
      InValue(a.s, s, v, q, most);
    } else {
      ValueBare(a);
      OccursAt(s, v, x, q - v);
    }
  }

  lemma {:induction false} InQuotedKey(k: string, x: string, s: string, p: nat, q: nat)
    requires NulFree(k) && Occurs(s, p + 1, k + "\"") && p + |k| + 2 <= |s| && At(s, p + |k| + 2) == ':'
    requires Occurs(s, p + |k| + 3, x) && Edge(s, p + |k| + 3 + |x|) && (Bare(x) || (x != "" && x[0] == '"'))
    requires p <= q <= p + |k| + 1
    ensures Slashes(s, q + 1) <= Has(k)
  {
    if q <= p + |k| {
      InKey(k, q - p, x, s, p + 1);
    } else {
      FromColon(s, q + 1, x);
    }
  }

  /** The members from some place to the end of the text. */
  ghost predicate Ending(adds: seq<Add>, s: string, p: nat) {
    var text := JoinComma(Members(adds)) + "}";
    Occurs(s, p, text) && p + |text| == |s|
  }

  lemma {:induction false} NextEnding(adds: seq<Add>, s: string, p: nat)
    requires adds != [] && Ending(adds, s, p)
    ensures var m := MemberText(adds[0].key, ValueText(adds[0]));
            && Occurs(s, p, m) && Edge(s, p + |m|)
            && (|adds| > 1 ==> Ending(adds[1..], s, p + |m| + 1))
  {
    var parts := Members(adds);
    var e := p + |parts[0]|;
    ListStep(parts, "}", s, p);
    assert parts[1..] == Members(adds[1..]);
    if |adds| > 1 {
      ListStep(parts[1..], "}", s, e + 1);
      MemberParts(adds[1].key, ValueText(adds[1]), s, e + 1);
    }
  }

  /** So there is no quote in the text from which a literal reads more, and has a value. */
  lemma {:induction false} AllHarmless(adds: seq<Add>, s: string, p: nat, q: nat, most: nat)
    requires adds != [] && Ending(adds, s, p) && p <= q < |s| && At(s, q) == '"'
    requires forall i :: 0 <= i < |adds| ==> NulFreeAdd(adds[i]) && Has(adds[i].key) <= most
    ensures Harmless(s, q, most)
    decreases |adds|
  {
    var e := p + |MemberText(adds[0].key, ValueText(adds[0]))|;
    NextEnding(adds, s, p);
    if q < e {
      InMember(adds[0], s, p, q, most);
    } else {
      assert q > e;
      AllHarmless(adds[1..], s, e + 1, q, most);
    }
  }

  // ---- What is read of it ----

  /** A key that is read was read as a literal, and has the value read behind it. */
  ghost predicate ReadAt(s: string, k: string, v: Json, q: nat) {
    q < |s| && At(s, q) == '"' && StringBody(s, q + 1) == k && Member(s, q).1 == v
  }

  lemma {:induction false} FieldsOrigin(s: string, p: nat, acc: map<string, Json>, k: string)
    requires p <= |s| && k in Fields(s, p, acc).0
    ensures var v := Fields(s, p, acc).0[k]; (k in acc && acc[k] == v) || exists q :: p <= q && ReadAt(s, k, v, q)
    decreases |s| - p
  {
    var b := SkipBlanks(s, p);
    if At(s, p) != NUL && At(s, p) != '}' && At(s, b) == '"' {
      var (key, v, q) := Member(s, b);
      FieldsOrigin(s, q, acc[key := v], k);
      assert key == k ==> ReadAt(s, k, v, b);
    }
  }

  lemma {:induction false} LastWritesNotNull(adds: seq<Add>, i: nat)
    requires i < |adds|
    ensures adds[i].key in LastWrites(adds) && LastWrites(adds)[adds[i].key] != Null
    decreases |adds|
  {
    var n := |adds| - 1;
    if i < n {
      LastWritesNotNull(adds[..n], i);
    }
  }

  /** Of the keys one has the most backslashes; if one is not clean, then one such. */
  lemma {:induction false} MostSlashes(adds: seq<Add>, d: nat) returns (i: nat)
    requires d < |adds| && !CleanKey(adds[d].key) && forall j :: 0 <= j < |adds| ==> NulFree(adds[j].key)
    ensures i < |adds| && !CleanKey(adds[i].key)
    ensures forall j :: 0 <= j < |adds| ==> Has(adds[j].key) <= Has(adds[i].key)
  {
    i := d;
    for n := 0 to |adds|
      invariant i < |adds| && !CleanKey(adds[i].key)
      invariant forall j :: 0 <= j < n ==> Has(adds[j].key) <= Has(adds[i].key)
    {
      if Has(adds[n].key) > Has(adds[i].key) {
        CleanHasNone(adds[n].key);
        i := n;
      }
    }
  }

  lemma {:induction false} CleanHasNone(k: string)
    requires Has(k) > 0
    ensures !CleanKey(k)
  {
    if k[0] != '\\' {
      CleanHasNone(k[1..]);
      assert forall i :: 1 <= i < |k| ==> k[i] == k[1..][i - 1];
    }
  }

  lemma {:induction false} BuiltEnding(adds: seq<Add>)
    ensures Ending(adds, BuiltText(adds), 1) && BuiltText(adds)[0] == '{'
  {
    var text := JoinComma(Members(adds)) + "}";
    assert BuiltText(adds) == "{" + text;
  }

  /** A key that is not clean, with the most backslashes, is not read, or read without a value. */
  lemma {:induction false} DirtyIsNull(adds: seq<Add>, i: nat)
    requires i < |adds| && !CleanKey(adds[i].key) && forall j :: 0 <= j < |adds| ==> NulFreeAdd(adds[j])
    requires forall j :: 0 <= j < |adds| ==> Has(adds[j].key) <= Has(adds[i].key)
    ensures Value(BuiltText(adds), 0).0 != Obj(LastWrites(adds))
  {
    var s, k := BuiltText(adds), adds[i].key;
    BuiltEnding(adds);
    LastWritesNotNull(adds, i);
    assert Value(s, 0) == ValueAt(s, 0) == Object(s, 0);
    var fields := Fields(s, SkipBlanks(s, 1), map[]).0;
    if k in fields {
      FieldsOrigin(s, SkipBlanks(s, 1), map[], k);
      var q :| 1 <= q && ReadAt(s, k, fields[k], q);
      ReadWithoutValue(adds, i, q, fields[k]);
    }
  }

  lemma {:induction false} ReadWithoutValue(adds: seq<Add>, i: nat, q: nat, v: Json)
    requires i < |adds| && !CleanKey(adds[i].key) && forall j :: 0 <= j < |adds| ==> NulFreeAdd(adds[j])
    requires forall j :: 0 <= j < |adds| ==> Has(adds[j].key) <= Has(adds[i].key)
    requires 1 <= q && ReadAt(BuiltText(adds), adds[i].key, v, q)
    ensures v == Null
  {
    BuiltEnding(adds);
    AllHarmless(adds, BuiltText(adds), 1, q, Has(adds[i].key));
    HarmlessRead(BuiltText(adds), adds[i].key, v, q);
  }

  lemma {:induction false} HarmlessRead(s: string, k: string, v: Json, q: nat)
    requires ReadAt(s, k, v, q) && Harmless(s, q, Has(k)) && NulFree(k) && !CleanKey(k)
    ensures v == Null
  {
    TooFew(k, s, q + 1);
  }

  /** No literal with so few backslashes is read as the key. */
  lemma {:induction false} TooFew(k: string, s: string, p: nat)
    requires NulFree(k) && !CleanKey(k) && p <= |s| && StringBody(s, p) == k
    ensures Slashes(s, p) > Has(k)
  {
    BodyNeeds(s, p);
    DirtyNeeds(k);
  }

  /**
   For all runs without terminators in keys and strings: the text is read back as the map of
   the last writes exactly when every key is clean.
   */
  lemma {:induction false} BuiltTextParsesIff(adds: seq<Add>)
    requires forall i :: 0 <= i < |adds| ==> NulFreeAdd(adds[i])
    ensures Value(BuiltText(adds), 0).0 == Obj(LastWrites(adds)) <==> forall i :: 0 <= i < |adds| ==> CleanKey(adds[i].key)
  {
    if forall i :: 0 <= i < |adds| ==> CleanKey(adds[i].key) {
      BuiltRead(adds);
    } else {
      var d :| 0 <= d < |adds| && !CleanKey(adds[d].key);
      var i := MostSlashes(adds, d);
      DirtyIsNull(adds, i);
    }
  }
}
