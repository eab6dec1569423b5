/**
 The runtime's JSON printer and the inverse law that ties it to the reader: parsing printed
 text gives back the value and consumes exactly that text.
 */
module JsonPrinter {
  import opened CText
  import opened Decimal
  import opened JsonParser

  /**
   A float-free value as it lies in memory. An object is the list of its entries in the order
   in which the table hands out its keys, so the laws below hold for every such order.
   */
  datatype Stored =
    | SNull
    | SBool(b: bool)
    | SInt(n: Int64)
    | SStr(s: string)
    | SIntArr(xs: seq<Int64>)
    | SArr(vs: seq<Stored>)
    | SObj(es: seq<Entry>)

  datatype Entry = Entry(key: string, value: Stored)

  /** The value a stored tree stands for. */
  function Abs(v: Stored): Json
    decreases v, 1
  {
    match v
    case SNull => Null
    case SBool(b) => Bool(b)
    case SInt(n) => Int(n)
    case SStr(s) => Str(s)
    case SIntArr(xs) => Arr(Ints(xs))
    case SArr(vs) => Arr(AbsAll(vs))
    case SObj(es) => Obj(AbsInto(map[], es))
  }

  function AbsAll(vs: seq<Stored>): seq<Json>
    decreases vs, 0
  {
    if vs == [] then [] else [Abs(vs[0])] + AbsAll(vs[1..])
  }

  function AbsInto(acc: map<string, Json>, es: seq<Entry>): map<string, Json>
    decreases es, 0
  {
    if es == [] then acc else AbsInto(acc[es[0].key := Abs(es[0].value)], es[1..])
  }

  // ---- Printed text ----

  function EscapeChar(c: char): (t: string)
    ensures 1 <= |t| <= 2
  {
    match c
    case '"' => "\\\""
    case '\\' => "\\\\"
    case '\n' => "\\n"
    case '\r' => "\\r"
    case '\t' => "\\t"
    case _ => [c]
  }

  function Escape(s: string): (t: string)
    ensures |s| <= |t| <= 2 * |s|
  {
    if s == "" then "" else EscapeChar(s[0]) + Escape(s[1..])
  }

  function Quoted(s: string): string { "\"" + Escape(s) + "\"" }

  function JoinComma(parts: seq<string>): string {
    if parts == [] then ""
    else if |parts| == 1 then parts[0]
    else parts[0] + "," + JoinComma(parts[1..])
  }

  function Print(v: Stored): string
    decreases v, 1
  {
    match v
    case SNull => "null"
    case SBool(b) => if b then "true" else "false"
    case SInt(n) => DecInt(n)
    case SStr(s) => Quoted(s)
    case SIntArr(xs) => "[" + JoinComma(DecAll(xs)) + "]"
    case SArr(vs) => "[" + JoinComma(PrintAll(vs)) + "]"
    case SObj(es) => "{" + JoinComma(PrintEntries(es)) + "}"
  }

  function DecAll(xs: seq<int>): (r: seq<string>)
    ensures |r| == |xs|
  {
    if xs == [] then [] else [DecInt(xs[0])] + DecAll(xs[1..])
  }

  function PrintAll(vs: seq<Stored>): (r: seq<string>)
    ensures |r| == |vs|
    decreases vs, 0
  {
    if vs == [] then [] else [Print(vs[0])] + PrintAll(vs[1..])
  }

  function PrintEntries(es: seq<Entry>): (r: seq<string>)
    ensures |r| == |es|
    decreases es, 0
  {
    if es == [] then [] else [Quoted(es[0].key) + ":" + Print(es[0].value)] + PrintEntries(es[1..])
  }

  /** Every string in the tree is a C string. */
  predicate NulFreeTree(v: Stored)
    decreases v
  {
    match v
    case SStr(s) => NulFree(s)
    case SArr(vs) => forall i :: 0 <= i < |vs| ==> NulFreeTree(vs[i])
    case SObj(es) => forall i :: 0 <= i < |es| ==> NulFree(es[i].key) && NulFreeTree(es[i].value)
    case _ => true
  }

  // ---- Parsing printed text ----

  /** One escaped character is read back as the character. */
  lemma {:induction false} EscapeCharRead(c: char, s: string, p: nat)
    requires c != NUL && Occurs(s, p, EscapeChar(c))
    ensures var q := p + |EscapeChar(c)|;
            StringBody(s, p) == [c] + StringBody(s, q) && StringStop(s, p) == StringStop(s, q)
  {
    var e := EscapeChar(c);
    OccursAt(s, p, e, 0);
    if |e| == 2 {
      OccursAt(s, p, e, 1);
      assert At(s, p) == '\\' && Unescape(At(s, p + 1)) == c;
    } else {
      assert At(s, p) == c && c != '\\' && c != '"';
    }
  }

  lemma {:induction false} EscapeSplit(t: string, s: string, p: nat)
    requires t != "" && Occurs(s, p, Escape(t) + "\"")
    ensures Occurs(s, p, EscapeChar(t[0])) && Occurs(s, p + |EscapeChar(t[0])|, Escape(t[1..]) + "\"")
  {
    EscapedThen(EscapeChar(t[0]), Escape(t[1..]), s, p);
  }

  lemma {:induction false} EscapedThen(x: string, rest: string, s: string, p: nat)
    requires Occurs(s, p, x + rest + "\"")
    ensures Occurs(s, p, x) && Occurs(s, p + |x|, rest + "\"")
  {
    OccursThree(s, p, x, rest, "\"");
  }

  /** Escaping is undone by the string reader, which stops at the closing quote. */
  lemma {:induction false} StringRoundTrip(t: string, s: string, p: nat)
    requires NulFree(t) && Occurs(s, p, Escape(t) + "\"")
    ensures StringBody(s, p) == t && StringStop(s, p) == p + |Escape(t)|
    decreases |t|
  {
    if t == "" {
      assert Escape(t) + "\"" == "\"";
      OccursAt(s, p, "\"", 0);
    } else {
      EscapeSplit(t, s, p);
      EscapeCharRead(t[0], s, p);
      StringRoundTrip(t[1..], s, p + |EscapeChar(t[0])|);
      assert [t[0]] + t[1..] == t;
    }
  }

  lemma {:induction false} QuotedParts(t: string, s: string, p: nat)
    requires Occurs(s, p, Quoted(t))
    ensures At(s, p) == '"' && Occurs(s, p + 1, Escape(t) + "\"") && At(s, p + 1 + |Escape(t)|) == '"'
  {
    OccursThree(s, p, "\"", Escape(t), "\"");
    OccursAt(s, p, "\"", 0);
    OccursAt(s, p + 1, Escape(t) + "\"", |Escape(t)|);
  }

  lemma {:induction false} QuotedRoundTrip(t: string, s: string, p: nat)
    requires NulFree(t) && Occurs(s, p, Quoted(t))
    ensures At(s, p) == '"' && StringBody(s, p + 1) == t && StringEnd(s, p) == p + |Quoted(t)|
  {
    QuotedParts(t, s, p);
    StringRoundTrip(t, s, p + 1);
  }

  /** A character that would continue the lexeme of an integer. */
  predicate ExtendsNumber(c: char) { IsDigit(c) || c == '.' || c == 'e' || c == 'E' }

  /** A run of digits followed by something else is scanned exactly. */
  lemma {:induction false} DigitsScanned(t: string, s: string, p: nat)
    requires AllDigits(t) && Occurs(s, p, t) && !IsDigit(At(s, p + |t|))
    ensures SkipDigits(s, p) == p + |t|
    decreases |t|
  {
    if t != "" {
      OccursAt(s, p, t, 0);
      assert t == t[..1] + t[1..];
      OccursAppend(s, p, t[..1], t[1..]);
      DigitsScanned(t[1..], s, p + 1);
    }
  }

  lemma {:induction false} IntRoundTrip(n: int, s: string, p: nat)
    requires Occurs(s, p, DecInt(n)) && !ExtendsNumber(At(s, p + |DecInt(n)|))
    ensures Value(s, p) == (Int(n), p + |DecInt(n)|)
  {
    var digits := Dec(Magnitude(n));
    var d := if n < 0 then p + 1 else p;
    if n < 0 {
      OccursAppend(s, p, "-", digits);
      OccursAt(s, p, "-", 0);
    }
    OccursAt(s, d, digits, 0);
    DigitsScanned(digits, s, d);
    OccursSlice(s, d, digits);
    AccumulateDec(Magnitude(n));
    assert SkipSign(s, p) == d;
    assert IntegerAt(s, p) == n;
    NumberValue(s, p);
    assert Number(s, p) == (Int(n), d + |digits|);
  }

  /** Characters printed text may start with: no blank, separator, closing bracket or NUL. */
  predicate IsHead(c: char) {
    !IsBlank(c) && c != ',' && c != ':' && c != ']' && c != '}' && c != NUL
  }

  lemma {:induction false} PrintHead(v: Stored)
    ensures |Print(v)| > 0 && IsHead(Print(v)[0])
  {
    match v
    case SInt(n) =>
      assert n >= 0 ==> IsDigit(Dec(n)[0]);
    case _ =>
  }

  predicate IsDelimiter(c: char) { c == ',' || c == ']' || c == '}' }

  /** Wherever `x` stands in `s` in front of a delimiter, it is read as `j` and no further. */
  ghost predicate ReadsAs(s: string, x: string, j: Json) {
    && |x| > 0 && IsHead(x[0])
    && forall q: nat :: Occurs(s, q, x) && IsDelimiter(At(s, q + |x|)) ==> Value(s, q) == (j, q + |x|)
  }

  /** Splits the text of a non-empty list at its first element. */
  lemma {:induction false} ListStep(parts: seq<string>, close: string, s: string, p: nat)
    requires parts != [] && |close| == 1 && Occurs(s, p, JoinComma(parts) + close)
    ensures Occurs(s, p, parts[0]) && p + |parts[0]| < |s|
    ensures At(s, p + |parts[0]|) == if |parts| == 1 then close[0] else ','
    ensures |parts| == 1 ==> |JoinComma(parts)| == |parts[0]|
    ensures |parts| > 1 ==> Occurs(s, p + |parts[0]| + 1, JoinComma(parts[1..]) + close)
    ensures |parts| > 1 ==> |JoinComma(parts)| == |parts[0]| + 1 + |JoinComma(parts[1..])|
  {
    var x, rest := parts[0], parts[1..];
    if rest == [] {
      HeadThen(x, close, s, p);
    } else {
      FirstOfTwo(x, JoinComma(rest), close, s, p);
    }
  }

  lemma {:induction false} FirstOfTwo(x: string, y: string, close: string, s: string, p: nat)
    requires Occurs(s, p, x + "," + y + close)
    ensures Occurs(s, p, x) && p + |x| < |s| && At(s, p + |x|) == ',' && Occurs(s, p + |x| + 1, y + close)
  {
    var tail := y + close;
    JoinTwo(x, y, close);
    HeadThen(x, "," + tail, s, p);
    OccursAppend(s, p + |x|, ",", tail);
  }

  lemma {:induction false} JoinTwo(x: string, y: string, close: string)
    ensures x + "," + y + close == x + ("," + (y + close))
  {
  }

  /** A text and what is behind it. */
  lemma {:induction false} HeadThen(x: string, tail: string, s: string, p: nat)
    requires tail != "" && Occurs(s, p, x + tail)
    ensures Occurs(s, p, x) && Occurs(s, p + |x|, tail) && p + |x| < |s| && At(s, p + |x|) == tail[0]
  {
    OccursAppend(s, p, x, tail);
    OccursAt(s, p + |x|, tail, 0);
  }

  lemma {:induction false} ListEmpty(close: string, s: string, p: nat)
    requires |close| == 1 && Occurs(s, p, JoinComma([]) + close)
    ensures p < |s| && At(s, p) == close[0]
  {
    assert JoinComma([]) + close == close;
    OccursAt(s, p, close, 0);
  }

  lemma {:induction false} BracketOpen(open: string, body: string, close: string, s: string, p: nat)
    requires |open| == 1 && |close| == 1 && Occurs(s, p, open + body + close)
    ensures p + 2 + |body| <= |s|
    ensures At(s, p) == open[0] && Occurs(s, p + 1, body + close) && At(s, p + 1 + |body|) == close[0]
  {
    OccursThree(s, p, open, body, close);
    OccursAppend(s, p + 1, body, close);
    OccursAt(s, p, open, 0);
    OccursAt(s, p + 1 + |body|, close, 0);
  }

  // Arrays

  /** Past one element: over the comma if there is one, and on to what follows. */
  lemma {:induction false} ElementsStep(s: string, p: nat, v: Json, next: nat)
    requires p < next < |s| && IsHead(At(s, p))
    requires Value(s, p) == (v, next)
    requires At(s, next) == ']' || (At(s, next) == ',' && SkipBlanks(s, next + 1) == next + 1)
    ensures var r := Elements(s, if At(s, next) == ',' then next + 1 else next);
            Elements(s, p) == ([v] + r.0, r.1)
  {
    assert SkipBlanks(s, next) == next;
    assert Element(s, p) == (v, if At(s, next) == ',' then next + 1 else next);
  }

  /** The first element of a printed list, and the character behind it. */
  lemma {:induction false} HeadRead(parts: seq<string>, close: string, j: Json, s: string, p: nat)
    requires parts != [] && ReadsAs(s, parts[0], j) && (close == "]" || close == "}")
    requires Occurs(s, p, JoinComma(parts) + close)
    ensures var next := p + |parts[0]|;
            p < next < |s| && IsHead(At(s, p)) && Value(s, p) == (j, next)
  {
    ListStep(parts, close, s, p);
    OccursAt(s, p, parts[0], 0);
  }

  lemma {:induction false} LastElement(s: string, p: nat, v: Json, next: nat)
    requires p < next < |s| && IsHead(At(s, p)) && Value(s, p) == (v, next) && At(s, next) == ']'
    ensures Elements(s, p) == ([v], next)
  {
    ElementsStep(s, p, v, next);
    assert Elements(s, next) == ([], next);
    assert [v] + [] == [v];
  }

  /** Reads the first element of a printed array and splits the text behind it. */
  lemma {:induction false} FirstElementRead(parts: seq<string>, js: seq<Json>, s: string, p: nat) returns (next: nat)
    requires |parts| == |js| > 0 && forall i :: 0 <= i < |parts| ==> ReadsAs(s, parts[i], js[i])
    requires Occurs(s, p, JoinComma(parts) + "]")
    ensures p < next <= |s| && SkipBlanks(s, p) == p
    ensures |parts| == 1 ==> Elements(s, p) == ([js[0]], p + |JoinComma(parts)|)
    ensures |parts| > 1 ==> Occurs(s, next, JoinComma(parts[1..]) + "]")
    ensures |parts| > 1 ==> next + |JoinComma(parts[1..])| == p + |JoinComma(parts)|
    ensures |parts| > 1 ==> Elements(s, p) == ([js[0]] + Elements(s, next).0, Elements(s, next).1)
  {
    HeadRead(parts, "]", js[0], s, p);
    ListStep(parts, "]", s, p);
    var comma := p + |parts[0]|;
    next := comma + 1;
    if |parts| == 1 {
      LastElement(s, p, js[0], comma);
    } else {
      HeadRead(parts[1..], "]", js[1], s, next);
      ElementsStep(s, p, js[0], comma);
    }
  }

  /** A printed list is read element by element up to its closing bracket. */
  lemma {:induction false} ElementsRead(parts: seq<string>, js: seq<Json>, s: string, p: nat)
    requires |parts| == |js| && forall i :: 0 <= i < |parts| ==> ReadsAs(s, parts[i], js[i])
    requires Occurs(s, p, JoinComma(parts) + "]")
    ensures Elements(s, p) == (js, p + |JoinComma(parts)|)
    ensures SkipBlanks(s, p) == p
    decreases |parts|
  {
    if parts == [] {
      ListEmpty("]", s, p);
    } else {
      var next := FirstElementRead(parts, js, s, p);
      if |parts| == 1 {
        assert js == [js[0]];
      } else {
        ElementsRead(parts[1..], js[1..], s, next);
        assert [js[0]] + js[1..] == js;
      }
    }
  }

  lemma {:induction false} ArrayValue(s: string, p: nat)
    requires p < |s| && s[p] == '[' && SkipBlanks(s, p + 1) == p + 1
    ensures var r := Elements(s, p + 1); Value(s, p) == (Arr(r.0), SkipChar(s, r.1, ']'))
  {
    ArrayIsGeneric(s, p);
    assert Value(s, p) == ValueAt(s, p) == Array(s, p);
  }

  lemma {:induction false} ArrayRead(parts: seq<string>, js: seq<Json>, s: string, p: nat)
    requires |parts| == |js| && forall i :: 0 <= i < |parts| ==> ReadsAs(s, parts[i], js[i])
    requires Occurs(s, p, "[" + JoinComma(parts) + "]")
    ensures Value(s, p) == (Arr(js), p + |JoinComma(parts)| + 2)
  {
    BracketOpen("[", JoinComma(parts), "]", s, p);
    ElementsRead(parts, js, s, p + 1);
    ArrayValue(s, p);
  }

  // Objects

  /** Past one member of an object. */
  lemma {:induction false} FieldsStep(s: string, p: nat, acc: map<string, Json>, k: string, v: Json, colon: nat, next: nat)
    requires p < colon < next < |s| && At(s, p) == '"' && At(s, colon) == ':'
    requires StringBody(s, p + 1) == k && StringEnd(s, p) == colon
    requires Value(s, colon + 1) == (v, next)
    requires At(s, next) == '}' || At(s, next) == ','
    ensures Fields(s, p, acc) == Fields(s, if At(s, next) == ',' then next + 1 else next, acc[k := v])
  {
    assert SkipBlanks(s, p) == p && SkipBlanks(s, colon) == colon && SkipBlanks(s, next) == next;
    assert Member(s, p) == (k, v, if At(s, next) == ',' then next + 1 else next);
  }

  /** A raw member text `"key":value`, the key already in the form that stands between the quotes. */
  function MemberText(raw: string, x: string): string { "\"" + raw + "\":" + x }

  /** `raw` between quotes is read back as `k`. */
  ghost predicate KeyReadsAs(s: string, raw: string, k: string) {
    forall q: nat :: Occurs(s, q, raw + "\"") ==> StringBody(s, q) == k && StringStop(s, q) == q + |raw|
  }

  lemma {:induction false} MemberParts(raw: string, x: string, s: string, p: nat)
    requires Occurs(s, p, MemberText(raw, x))
    ensures At(s, p) == '"' && Occurs(s, p + 1, raw + "\"") && Occurs(s, p + |raw| + 3, x)
    ensures At(s, p + |raw| + 1) == '"' && At(s, p + |raw| + 2) == ':'
  {
    assert MemberText(raw, x) == "\"" + (raw + "\"" + (":" + x));
    OccursAppend(s, p, "\"", raw + "\"" + (":" + x));
    OccursAppend(s, p + 1, raw + "\"", ":" + x);
    OccursAppend(s, p + 1, raw, "\"");
    OccursAppend(s, p + |raw| + 2, ":", x);
    OccursAt(s, p, "\"", 0);
    OccursAt(s, p + 1 + |raw|, "\"", 0);
    OccursAt(s, p + |raw| + 2, ":", 0);
  }

  /** A member as written: its raw key, its value text, and what both are read as. */
  datatype Field = Field(raw: string, key: string, text: string, value: Json) {
    function Member(): string { MemberText(raw, text) }
  }

  ghost predicate FieldReads(s: string, f: Field) {
    KeyReadsAs(s, f.raw, f.key) && ReadsAs(s, f.text, f.value)
  }

  /** One printed member in front of a delimiter: key, value and where it ends. */
  lemma {:induction false} MemberRead(f: Field, s: string, p: nat, acc: map<string, Json>)
    requires FieldReads(s, f) && Occurs(s, p, f.Member())
    requires var next := p + |f.Member()|; At(s, next) == '}' || At(s, next) == ','
    ensures var next := p + |f.Member()|;
            Fields(s, p, acc) == Fields(s, if At(s, next) == ',' then next + 1 else next, acc[f.key := f.value])
    ensures SkipBlanks(s, p) == p
  {
    MemberParts(f.raw, f.text, s, p);
    KeyEnds(f.raw, f.key, s, p);
    var colon := p + |f.raw| + 2;
    FieldsStep(s, p, acc, f.key, f.value, colon, colon + 1 + |f.text|);
  }

  lemma {:induction false} KeyEnds(raw: string, key: string, s: string, p: nat)
    requires KeyReadsAs(s, raw, key) && Occurs(s, p + 1, raw + "\"") && At(s, p + |raw| + 1) == '"'
    ensures StringBody(s, p + 1) == key && StringEnd(s, p) == p + |raw| + 2
  {
    assert StringStop(s, p + 1) == p + 1 + |raw|;
  }

  lemma {:induction false} ObjectValue(s: string, p: nat)
    requires p < |s| && s[p] == '{' && SkipBlanks(s, p + 1) == p + 1
    ensures var r := Fields(s, p + 1, map[]); Value(s, p) == (Obj(r.0), SkipChar(s, r.1, '}'))
  {
    assert Value(s, p) == ValueAt(s, p) == Object(s, p);
  }

  /** Members in the order written, a later one replacing an earlier one of the same key. */
  function Updates(acc: map<string, Json>, fs: seq<Field>): map<string, Json>
    decreases |fs|
  {
    if fs == [] then acc else Updates(acc[fs[0].key := fs[0].value], fs[1..])
  }

  function MemberTexts(fs: seq<Field>): (r: seq<string>)
    ensures |r| == |fs|
  {
    if fs == [] then [] else [fs[0].Member()] + MemberTexts(fs[1..])
  }

  lemma {:induction false} MemberTextAt(fs: seq<Field>, i: nat)
    requires i < |fs|
    ensures MemberTexts(fs)[i] == fs[i].Member()
    decreases |fs|
  {
    if i > 0 {
      MemberTextAt(fs[1..], i - 1);
    }
  }

  /** Reads the first member of a printed object and splits the text behind it. */
  lemma {:induction false} FirstMemberRead(fs: seq<Field>, s: string, p: nat, acc: map<string, Json>) returns (next: nat)
    requires fs != [] && FieldReads(s, fs[0])
    requires Occurs(s, p, JoinComma(MemberTexts(fs)) + "}")
    ensures next <= |s| && SkipBlanks(s, p) == p
    ensures |fs| == 1 ==> Fields(s, p, acc) == (acc[fs[0].key := fs[0].value], p + |JoinComma(MemberTexts(fs))|)
    ensures |fs| > 1 ==> Occurs(s, next, JoinComma(MemberTexts(fs[1..])) + "}")
    ensures |fs| > 1 ==> next + |JoinComma(MemberTexts(fs[1..]))| == p + |JoinComma(MemberTexts(fs))|
    ensures |fs| > 1 ==> Fields(s, p, acc) == Fields(s, next, acc[fs[0].key := fs[0].value])
  {
    var parts := MemberTexts(fs);
    ListStep(parts, "}", s, p);
    assert parts[1..] == MemberTexts(fs[1..]);
    next := p + |parts[0]| + 1;
    MemberRead(fs[0], s, p, acc);
    if |fs| == 1 {
      FieldsStop(s, p + |parts[0]|, acc[fs[0].key := fs[0].value]);
    }
  }

  lemma {:induction false} FieldsStop(s: string, p: nat, acc: map<string, Json>)
    requires p < |s| && s[p] == '}'
    ensures Fields(s, p, acc) == (acc, p)
  {
  }

  lemma {:induction false} FieldsRead(fs: seq<Field>, s: string, p: nat, acc: map<string, Json>)
    requires forall i :: 0 <= i < |fs| ==> FieldReads(s, fs[i])
    requires Occurs(s, p, JoinComma(MemberTexts(fs)) + "}")
    ensures Fields(s, p, acc) == (Updates(acc, fs), p + |JoinComma(MemberTexts(fs))|)
    ensures SkipBlanks(s, p) == p
    decreases |fs|
  {
    if fs == [] {
      ListEmpty("}", s, p);
      FieldsStop(s, p, acc);
    } else {
      var next := FirstMemberRead(fs, s, p, acc);
      if |fs| > 1 {
        FieldsRead(fs[1..], s, next, acc[fs[0].key := fs[0].value]);
      }
    }
  }

  lemma {:induction false} ObjectRead(fs: seq<Field>, s: string, p: nat)
    requires forall i :: 0 <= i < |fs| ==> FieldReads(s, fs[i])
    requires Occurs(s, p, "{" + JoinComma(MemberTexts(fs)) + "}")
    ensures Value(s, p) == (Obj(Updates(map[], fs)), p + |JoinComma(MemberTexts(fs))| + 2)
  {
    BracketOpen("{", JoinComma(MemberTexts(fs)), "}", s, p);
    FieldsRead(fs, s, p + 1, map[]);
    ObjectValue(s, p);
  }

  // Whole trees

  lemma {:induction false} KeywordValue(s: string, p: nat, word: string)
    requires Occurs(s, p, word) && word in ["true", "false", "null"]
    ensures Value(s, p) == (if word == "null" then Null else Bool(word == "true"), p + |word|)
  {
    OccursAt(s, p, word, 0);
    if Occurs(s, p, "true") { OccursAt(s, p, "true", 0); }
    if Occurs(s, p, "false") { OccursAt(s, p, "false", 0); }
    assert Value(s, p) == ValueAt(s, p) == Scalar(s, p);
  }

  lemma {:induction false} QuotedValue(t: string, s: string, p: nat)
    requires NulFree(t) && Occurs(s, p, Quoted(t))
    ensures Value(s, p) == (Str(t), p + |Quoted(t)|)
  {
    QuotedRoundTrip(t, s, p);
    assert Value(s, p) == ValueAt(s, p);
  }

  lemma {:induction false} IntReadsAs(n: Int64, s: string)
    ensures ReadsAs(s, DecInt(n), Int(n))
  {
    PrintHead(SInt(n));
    forall q: nat | Occurs(s, q, DecInt(n)) && IsDelimiter(At(s, q + |DecInt(n)|))
      ensures Value(s, q) == (Int(n), q + |DecInt(n)|)
    {
      IntRoundTrip(n, s, q);
    }
  }

  /** The texts and values of integer elements, index by index. */
  lemma {:induction false} IntElement(xs: seq<int>, i: nat)
    requires i < |xs|
    ensures DecAll(xs)[i] == DecInt(xs[i]) && Ints(xs)[i] == Int(xs[i])
  {
    if i > 0 {
      IntElement(xs[1..], i - 1);
    }
  }

  lemma {:induction false} IntArrayRead(xs: seq<Int64>, s: string, p: nat)
    requires Occurs(s, p, "[" + JoinComma(DecAll(xs)) + "]")
    ensures Value(s, p) == (Arr(Ints(xs)), p + |JoinComma(DecAll(xs))| + 2)
  {
    forall i | 0 <= i < |xs|
      ensures ReadsAs(s, DecAll(xs)[i], Ints(xs)[i])
    {
      IntElement(xs, i);
      IntReadsAs(xs[i], s);
    }
    ArrayRead(DecAll(xs), Ints(xs), s, p);
  }

  /** The entries of an object as members: escaped keys and printed values. */
  function EntryFields(es: seq<Entry>): (r: seq<Field>)
    ensures |r| == |es|
  {
    seq(|es|, i requires 0 <= i < |es| => Field(Escape(es[i].key), es[i].key, Print(es[i].value), Abs(es[i].value)))
  }

  lemma {:induction false} EntryLists(es: seq<Entry>, acc: map<string, Json>)
    ensures MemberTexts(EntryFields(es)) == PrintEntries(es)
    ensures Updates(acc, EntryFields(es)) == AbsInto(acc, es)
    decreases |es|
  {
    if es != [] {
      assert EntryFields(es)[1..] == EntryFields(es[1..]);
      EntryLists(es[1..], acc[es[0].key := Abs(es[0].value)]);
      assert MemberText(Escape(es[0].key), Print(es[0].value)) == Quoted(es[0].key) + ":" + Print(es[0].value);
    }
  }

  lemma {:induction false} TreeElement(vs: seq<Stored>, i: nat)
    requires i < |vs|
    ensures |AbsAll(vs)| == |vs| && PrintAll(vs)[i] == Print(vs[i]) && AbsAll(vs)[i] == Abs(vs[i])
  {
    if |vs| > 1 {
      TreeElement(vs[1..], if i > 0 then i - 1 else 0);
    }
  }

  // ---- The reader's accumulator ----

  const INT64_MIN: int := -INT64_MAX - 1

  /** The digits printed for `n` never take the reader's 64-bit accumulator out of range. */
  ghost predicate Fits(n: Int64) { FitsAccumulator(Dec(Magnitude(n))) }

  /** So it is for every number of a tree. */
  ghost predicate AllFit(v: Stored)
    decreases v
  {
    match v
    case SInt(n) => Fits(n)
    case SIntArr(xs) => forall i :: 0 <= i < |xs| ==> Fits(xs[i])
    case SArr(vs) => forall i :: 0 <= i < |vs| ==> AllFit(vs[i])
    case SObj(es) => forall i :: 0 <= i < |es| ==> AllFit(es[i].value)
    case _ => true
  }

  predicate MinFree(v: Stored)
    decreases v
  {
    match v
    case SInt(n) => n != INT64_MIN
    case SIntArr(xs) => forall i :: 0 <= i < |xs| ==> xs[i] != INT64_MIN
    case SArr(vs) => forall i :: 0 <= i < |vs| ==> MinFree(vs[i])
    case SObj(es) => forall i :: 0 <= i < |es| ==> MinFree(es[i].value)
    case _ => true
  }

  lemma {:induction false} ListFitsIff(xs: seq<Int64>)
    ensures (forall i :: 0 <= i < |xs| ==> Fits(xs[i])) <==> (forall i :: 0 <= i < |xs| ==> xs[i] != INT64_MIN)
  {
    forall i | 0 <= i < |xs| ensures Fits(xs[i]) <==> xs[i] != INT64_MIN {
      AccumulatorFits(xs[i]);
    }
  }

  /** Exactly the trees without the least integer are read back without overflow. */
  lemma {:induction false} AllFitIff(v: Stored)
    ensures AllFit(v) <==> MinFree(v)
    decreases v
  {
    match v
    case SInt(n) => AccumulatorFits(n);
    case SIntArr(xs) => ListFitsIff(xs);
    case SArr(vs) =>
      forall i | 0 <= i < |vs| ensures AllFit(vs[i]) <==> MinFree(vs[i]) {
        AllFitIff(vs[i]);
      }
    case SObj(es) =>
      forall i | 0 <= i < |es| ensures AllFit(es[i].value) <==> MinFree(es[i].value) {
        AllFitIff(es[i].value);
      }
    case _ =>
  }

  /**
   The inverse law: printed text, standing anywhere in any text whose next character cannot
   continue a number, parses to the value it was printed from and is consumed exactly. The C
   reader does so without overflow exactly when the tree does not hold the least integer.
   */
  lemma {:induction false} RoundTrip(v: Stored, s: string, p: nat)
    requires NulFreeTree(v) && Occurs(s, p, Print(v))
    requires v.SInt? ==> !ExtendsNumber(At(s, p + |Print(v)|))
    ensures Value(s, p) == (Abs(v), p + |Print(v)|)
    ensures AllFit(v) <==> MinFree(v)
  {
    PrintedRead(v, s, p);
    AllFitIff(v);
  }

  lemma {:induction false} PrintedRead(v: Stored, s: string, p: nat)
    requires NulFreeTree(v) && Occurs(s, p, Print(v))
    requires v.SInt? ==> !ExtendsNumber(At(s, p + |Print(v)|))
    ensures Value(s, p) == (Abs(v), p + |Print(v)|)
    decreases v, 0
  {
    match v
    case SNull => KeywordValue(s, p, "null");
    case SBool(b) => KeywordValue(s, p, if b then "true" else "false");
    case SInt(n) => IntRoundTrip(n, s, p);
    case SStr(t) => QuotedValue(t, s, p);
    case SIntArr(xs) => IntArrayRead(xs, s, p);
    case SArr(vs) => ArrayOfTrees(vs, s, p);
    case SObj(es) => ObjectOfTrees(es, s, p);
  }

  lemma {:induction false} TreesReadAs(vs: seq<Stored>, s: string)
    requires forall i :: 0 <= i < |vs| ==> NulFreeTree(vs[i])
    ensures forall i :: 0 <= i < |vs| ==> ReadsAs(s, Print(vs[i]), Abs(vs[i]))
    decreases vs, 2
  {
    forall i | 0 <= i < |vs| ensures ReadsAs(s, Print(vs[i]), Abs(vs[i])) {
      TreeReadsAs(vs[i], s);
    }
  }

  lemma {:induction false} EntriesReadAs(es: seq<Entry>, s: string)
    requires forall i :: 0 <= i < |es| ==> NulFreeTree(es[i].value)
    ensures forall i :: 0 <= i < |es| ==> ReadsAs(s, Print(es[i].value), Abs(es[i].value))
    decreases es, 2
  {
    forall i | 0 <= i < |es| ensures ReadsAs(s, Print(es[i].value), Abs(es[i].value)) {
      TreeReadsAs(es[i].value, s);
    }
  }

  lemma {:induction false} TreeReadsAs(v: Stored, s: string)
    requires NulFreeTree(v)
    ensures ReadsAs(s, Print(v), Abs(v))
    decreases v, 1
  {
    PrintHead(v);
    forall q: nat | Occurs(s, q, Print(v)) && IsDelimiter(At(s, q + |Print(v)|))
      ensures Value(s, q) == (Abs(v), q + |Print(v)|)
    {
      PrintedRead(v, s, q);
    }
  }

  lemma {:induction false} ArrayOfTrees(vs: seq<Stored>, s: string, p: nat)
    requires forall i :: 0 <= i < |vs| ==> NulFreeTree(vs[i])
    requires Occurs(s, p, "[" + JoinComma(PrintAll(vs)) + "]")
    ensures Value(s, p) == (Arr(AbsAll(vs)), p + |JoinComma(PrintAll(vs))| + 2)
    decreases vs, 3
  {
    TreesReadAs(vs, s);
    if vs != [] {
      TreeElement(vs, 0);
    }
    forall i | 0 <= i < |vs|
      ensures ReadsAs(s, PrintAll(vs)[i], AbsAll(vs)[i])
    {
      TreeElement(vs, i);
    }
    ArrayRead(PrintAll(vs), AbsAll(vs), s, p);
  }

  lemma {:induction false} EscapedKeyReadsAs(k: string, s: string)
    requires NulFree(k)
    ensures KeyReadsAs(s, Escape(k), k)
  {
    forall q: nat | Occurs(s, q, Escape(k) + "\"")
      ensures StringBody(s, q) == k && StringStop(s, q) == q + |Escape(k)|
    {
      StringRoundTrip(k, s, q);
    }
  }

  lemma {:induction false} ObjectOfTrees(es: seq<Entry>, s: string, p: nat)
    requires forall i :: 0 <= i < |es| ==> NulFree(es[i].key) && NulFreeTree(es[i].value)
    requires Occurs(s, p, "{" + JoinComma(PrintEntries(es)) + "}")
    ensures Value(s, p) == (Obj(AbsInto(map[], es)), p + |JoinComma(PrintEntries(es))| + 2)
    decreases es, 3
  {
    EntriesReadAs(es, s);
    EntryLists(es, map[]);
    forall i | 0 <= i < |es|
      ensures FieldReads(s, EntryFields(es)[i])
    {
      EscapedKeyReadsAs(es[i].key, s);
    }
    ObjectRead(EntryFields(es), s, p);
  }

  /** The whole-text form: `jsonParse(jsonStringify(v))` is `v`. */
  lemma {:induction false} ParsePrinted(v: Stored)
    requires NulFreeTree(v)
    ensures Value(Print(v), 0) == (Abs(v), |Print(v)|)
    ensures AllFit(v) <==> MinFree(v)
  {
    RoundTrip(v, Print(v), 0);
  }

  // ---- Printed text is one line ----

  predicate Plain(t: string) { forall i :: 0 <= i < |t| ==> t[i] != '\n' && t[i] != '\r' && t[i] != '\t' }

  lemma {:induction false} EscapePlain(s: string)
    ensures Plain(Escape(s))
  {
    if s != "" {
      EscapePlain(s[1..]);
    }
  }

  lemma {:induction false} DecPlain(n: int)
    ensures Plain(DecInt(n))
  {
  }

  lemma {:induction false} JoinPlain(parts: seq<string>)
    requires forall i :: 0 <= i < |parts| ==> Plain(parts[i])
    ensures Plain(JoinComma(parts))
  {
    if |parts| > 1 {
      JoinPlain(parts[1..]);
    }
  }

  lemma {:induction false} DecAllPlain(xs: seq<int>)
    ensures forall i :: 0 <= i < |xs| ==> Plain(DecAll(xs)[i])
  {
    if xs != [] {
      DecPlain(xs[0]);
      DecAllPlain(xs[1..]);
    }
  }

  lemma {:induction false} PrintAllPlain(vs: seq<Stored>)
    ensures forall i :: 0 <= i < |vs| ==> Plain(PrintAll(vs)[i])
    decreases vs, 0
  {
    if vs != [] {
      PrintPlain(vs[0]);
      PrintAllPlain(vs[1..]);
    }
  }

  lemma {:induction false} PrintEntriesPlain(es: seq<Entry>)
    ensures forall i :: 0 <= i < |es| ==> Plain(PrintEntries(es)[i])
    decreases es, 0
  {
    if es != [] {
      EscapePlain(es[0].key);
      PrintPlain(es[0].value);
      PrintEntriesPlain(es[1..]);
    }
  }

  /** Whatever the strings in a tree hold, its text has no newline, no carriage return and no tab. */
  lemma {:induction false} PrintPlain(v: Stored)
    ensures Plain(Print(v))
    decreases v, 1
  {
    match v
    case SNull =>
    case SBool(_) =>
    case SInt(n) => DecPlain(n);
    case SStr(s) => EscapePlain(s);
    case SIntArr(xs) =>
      DecAllPlain(xs);
      JoinPlain(DecAll(xs));
    case SArr(vs) =>
      PrintAllPlain(vs);
      JoinPlain(PrintAll(vs));
    case SObj(es) =>
      PrintEntriesPlain(es);
      JoinPlain(PrintEntries(es));
  }
}
