/**
 The runtime's JSON reader: a recursive-descent parser over NUL-terminated text with a
 speculative path for arrays of integers. It accepts every input. Malformed bytes are
 skipped, an escape yields the escaped character, and there are no `\u` escapes.

 The functions say what each routine returns and where it leaves the cursor; the methods are
 the routines themselves, with the source's loops.
 */
module JsonParser {
  import opened CText
  import opened Decimal

  /**
   A parsed value. An array is its elements however it is stored, an object is a map. A number
   with a fraction or exponent is kept as its lexeme, because turning it into a double is left
   to the C library.
   */
  datatype Json =
    | Null
    | Bool(b: bool)
    | Int(n: int)
    | Float(lexeme: string)
    | Str(s: string)
    | Arr(elems: seq<Json>)
    | Obj(fields: map<string, Json>)

  predicate IsBlank(c: char) { c == ' ' || c == '\t' || c == '\r' || c == '\n' }

  function SkipBlanks(s: string, p: nat): (q: nat)
    requires p <= |s|
    ensures p <= q <= |s|
    ensures !IsBlank(At(s, q))
    ensures !IsBlank(At(s, p)) ==> q == p
    ensures IsBlank(At(s, p)) ==> q > p
    decreases |s| - p
  {
    if IsBlank(At(s, p)) then SkipBlanks(s, p + 1) else p
  }

  function SkipDigits(s: string, p: nat): (q: nat)
    requires p <= |s|
    ensures p <= q <= |s|
    ensures AllDigits(s[p..q])
    ensures !IsDigit(At(s, q))
    decreases |s| - p
  {
    if IsDigit(At(s, p)) then
      var q := SkipDigits(s, p + 1);
      assert s[p..q] == [s[p]] + s[p + 1..q];
      q
    else p
  }

  // ---- Strings ----

  function Unescape(c: char): (r: char) {
    match c
    case 'n' => '\n'
    case 't' => '\t'
    case 'r' => '\r'
    case _ => c
  }

  /** The decoded text from `p` up to the closing quote or the end of the input. */
  function StringBody(s: string, p: nat): (r: string)
    requires p <= |s|
    decreases |s| - p
  {
    var c := At(s, p);
    if c == NUL || c == '"' then ""
    else if c != '\\' then [c] + StringBody(s, p + 1)
    else if At(s, p + 1) == NUL then ""
    else [Unescape(At(s, p + 1))] + StringBody(s, p + 2)
  }

  /** Where scanning that text stops. */
  function StringStop(s: string, p: nat): (q: nat)
    requires p <= |s|
    ensures p <= q <= |s|
    decreases |s| - p
  {
    var c := At(s, p);
    if c == NUL || c == '"' then p
    else if c != '\\' then StringStop(s, p + 1)
    else if At(s, p + 1) == NUL then p + 1
    else StringStop(s, p + 2)
  }

  /** A whole string literal, the cursor being on its opening quote. */
  function StringEnd(s: string, p: nat): (q: nat)
    requires p < |s|
    ensures p < q <= |s|
  {
    var q := StringStop(s, p + 1);
    if At(s, q) == '"' then q + 1 else q
  }

  // ---- Numbers ----

  function SkipSign(s: string, p: nat): (q: nat)
    requires p <= |s|
    ensures p <= q <= |s|
  {
    if At(s, p) == '-' then p + 1 else p
  }

  /** End of the longest `-? digits (. digits)? ([eE] [+-]? digits)?`, every digit run possibly empty. */
  function NumberEnd(s: string, p: nat): (q: nat)
    requires p <= |s|
    ensures p <= q <= |s|
  {
    ExponentEnd(s, FractionEnd(s, SkipDigits(s, SkipSign(s, p))))
  }

  function FractionEnd(s: string, p: nat): (q: nat)
    requires p <= |s|
    ensures p <= q <= |s|
  {
    if At(s, p) == '.' then SkipDigits(s, p + 1) else p
  }

  function ExponentEnd(s: string, p: nat): (q: nat)
    requires p <= |s|
    ensures p <= q <= |s|
  {
    if At(s, p) != 'e' && At(s, p) != 'E' then p
    else if At(s, p + 1) == '+' || At(s, p + 1) == '-' then SkipDigits(s, p + 2)
    else SkipDigits(s, p + 1)
  }

  /** The signed integer whose optional sign is at `p`. */
  function IntegerAt(s: string, p: nat): (n: int)
    requires p <= |s|
  {
    var d := SkipSign(s, p);
    var n := Accumulate(s[d..SkipDigits(s, d)]);
    if At(s, p) == '-' then -n else n
  }

  function Number(s: string, p: nat): (r: (Json, nat))
    requires p < |s|
    ensures p < r.1 <= |s|
  {
    var whole := SkipDigits(s, SkipSign(s, p));
    var end := NumberEnd(s, p);
    if end == p then (Null, p + 1)
    else if At(s, whole) == '.' || At(s, whole) == 'e' || At(s, whole) == 'E' then (Float(s[p..end]), end)
    else (Int(IntegerAt(s, p)), end)
  }

  // ---- Values ----

  function SkipChar(s: string, p: nat, c: char): (q: nat)
    requires p <= |s| && c != NUL
    ensures p <= q <= |s|
  {
    if At(s, p) == c then p + 1 else p
  }

  /** One value: what is returned and where the cursor ends. */
  function Value(s: string, p0: nat): (r: (Json, nat))
    requires p0 <= |s|
    ensures p0 <= r.1 <= |s|
    ensures At(s, p0) != NUL ==> p0 < r.1
    decreases |s| - p0, 2
  {
    var p := SkipBlanks(s, p0);
    if At(s, p) == NUL then (Null, p) else ValueAt(s, p)
  }

  /** The dispatch on the first character that is not blank. */
  function ValueAt(s: string, p: nat): (r: (Json, nat))
    requires p < |s|
    ensures p < r.1 <= |s|
    decreases |s| - p, 1
  {
    if s[p] == '"' then (Str(StringBody(s, p + 1)), StringEnd(s, p))
    else if s[p] == '{' then Object(s, p)
    else if s[p] == '[' then Array(s, p)
    else Scalar(s, p)
  }

  /** The literals, then numbers. */
  function Scalar(s: string, p: nat): (r: (Json, nat))
    requires p < |s|
    ensures p < r.1 <= |s|
  {
    if Occurs(s, p, "true") then (Bool(true), p + 4)
    else if Occurs(s, p, "false") then (Bool(false), p + 5)
    else if Occurs(s, p, "null") then (Null, p + 4)
    else Number(s, p)
  }

  /** An object, the cursor being on its opening brace. */
  function Object(s: string, p: nat): (r: (Json, nat))
    requires p < |s|
    ensures p < r.1 <= |s|
    decreases |s| - p, 0
  {
    var (fields, q) := Fields(s, SkipBlanks(s, p + 1), map[]);
    (Obj(fields), SkipChar(s, q, '}'))
  }

  /** An array, the cursor being on its opening bracket: the fast path first, then the generic one. */
  function Array(s: string, p: nat): (r: (Json, nat))
    requires p < |s|
    ensures p < r.1 <= |s|
    decreases |s| - p, 0
  {
    var first := SkipBlanks(s, p + 1);
    if At(s, first) == ']' then (Arr([]), first + 1)
    else
      match FastInts(s, first)
      case Some(xs, q) => (Arr(Ints(xs)), q + 1)
      case None =>
        var (elems, q) := Elements(s, first);
        (Arr(elems), SkipChar(s, q, ']'))
  }

  /** The loop over the members of an object, `acc` holding those read so far. */
  function Fields(s: string, p0: nat, acc: map<string, Json>): (r: (map<string, Json>, nat))
    requires p0 <= |s|
    ensures p0 <= r.1 <= |s|
    decreases |s| - p0, 4
  {
    if At(s, p0) == NUL || At(s, p0) == '}' then (acc, p0)
    else
      var p := SkipBlanks(s, p0);
      if At(s, p) != '"' then (acc, p)
      else
        var (key, v, q) := Member(s, p);
        Fields(s, q, acc[key := v])
  }

  /** One member, from its opening quote to past the comma behind it. */
  function Member(s: string, p: nat): (r: (string, Json, nat))
    requires p < |s|
    ensures p < r.2 <= |s|
    decreases |s| - p, 3
  {
    var colon := SkipBlanks(s, StringEnd(s, p));
    var (v, q) := Value(s, SkipChar(s, colon, ':'));
    (StringBody(s, p + 1), v, SkipChar(s, SkipBlanks(s, q), ','))
  }

  /** The generic loop over the elements of an array. */
  function Elements(s: string, p: nat): (r: (seq<Json>, nat))
    requires p <= |s|
    ensures p <= r.1 <= |s|
    decreases |s| - p, 4
  {
    if At(s, p) == NUL || At(s, p) == ']' then ([], p)
    else
      var (v, q) := Element(s, p);
      var (vs, e) := Elements(s, q);
      ([v] + vs, e)
  }

  /** One element, to the first character of the next. */
  function Element(s: string, p: nat): (r: (Json, nat))
    requires p < |s| && At(s, p) != NUL
    ensures p < r.1 <= |s|
    decreases |s| - p, 3
  {
    var (v, q) := Value(s, p);
    (v, SkipBlanks(s, SkipChar(s, SkipBlanks(s, q), ',')))
  }

  // ---- The integer fast path ----

  datatype FastResult = None | Some(xs: seq<int>, stop: nat)

  /** Where one element of the fast path ends, if it is an integer followed by `,` or `]`. */
  function FastElement(s: string, p0: nat): (r: FastResult)
    requires p0 <= |s|
    ensures r.Some? ==> p0 < r.stop <= |s| && (At(s, r.stop) == ',' || At(s, r.stop) == ']')
  {
    var p := SkipBlanks(s, p0);
    var d := SkipSign(s, p);
    var q := SkipBlanks(s, SkipDigits(s, d));
    if !IsDigit(At(s, d)) then None
    else if At(s, q) != ',' && At(s, q) != ']' then None
    else Some([IntegerAt(s, p)], q)
  }

  /** The speculative loop: all elements as integers and the position of the closing bracket. */
  function FastInts(s: string, p: nat): (r: FastResult)
    requires p <= |s|
    ensures r.Some? ==> p <= r.stop < |s| && At(s, r.stop) == ']'
    decreases |s| - p
  {
    if At(s, p) == NUL then None
    else if At(s, p) == ']' then Some([], p)
    else
      match FastElement(s, p)
      case None => None
      case Some(x, q) => Prepend(x, FastInts(s, SkipChar(s, q, ',')))
  }

  function Prepend(xs: seq<int>, r: FastResult): FastResult {
    match r
    case None => None
    case Some(ys, e) => Some(xs + ys, e)
  }

  function Ints(xs: seq<int>): (r: seq<Json>)
    ensures |r| == |xs|
  {
    if xs == [] then [] else [Int(xs[0])] + Ints(xs[1..])
  }

  /** A number that is only digits is read the same way by the fast loop and by the general one. */
  lemma {:induction false} FastElementIsValue(s: string, p0: nat)
    requires p0 <= |s| && FastElement(s, p0).Some?
    ensures var q := Value(s, p0).1;
            Value(s, p0).0 == Int(FastElement(s, p0).xs[0]) && SkipBlanks(s, q) == FastElement(s, p0).stop
  {
    var p := SkipBlanks(s, p0);
    var w := SkipDigits(s, SkipSign(s, p));
    NumberValue(s, p);
    assert NumberEnd(s, p) == w > p;
    assert Value(s, p0) == Value(s, p);
  }

  /** A digit or a sign starts nothing but a number. */
  lemma {:induction false} NumberValue(s: string, p: nat)
    requires p < |s| && (IsDigit(s[p]) || s[p] == '-')
    ensures Value(s, p) == Number(s, p)
  {
    if Occurs(s, p, "true") { OccursAt(s, p, "true", 0); }
    if Occurs(s, p, "false") { OccursAt(s, p, "false", 0); }
    if Occurs(s, p, "null") { OccursAt(s, p, "null", 0); }
    assert ValueAt(s, p) == Scalar(s, p) == Number(s, p);
  }

  /**
   The speculation is safe: whenever the fast path succeeds, the generic loop started at the
   same place reads the same elements and stops at the same bracket.
   */
  lemma {:induction false} FastIsGeneric(s: string, p: nat)
    requires p <= |s| && FastInts(s, p).Some?
    ensures Elements(s, SkipBlanks(s, p)) == (Ints(FastInts(s, p).xs), FastInts(s, p).stop)
    decreases |s| - p
  {
    if At(s, p) != ']' {
      var x := FastElement(s, p);
      var next := SkipChar(s, x.stop, ',');
      var b := SkipBlanks(s, p);
      FastIsGeneric(s, next);
      assert FastElement(s, b) == x;
      FastElementIsValue(s, b);
      var xs := FastInts(s, next).xs;
      assert (x.xs + xs)[1..] == xs;
    }
  }

  /** Hence an array is always what the generic loop makes of it. */
  lemma {:induction false} ArrayIsGeneric(s: string, p: nat)
    requires p < |s|
    ensures var r := Elements(s, SkipBlanks(s, p + 1));
            Array(s, p) == (Arr(r.0), SkipChar(s, r.1, ']'))
  {
    var first := SkipBlanks(s, p + 1);
    if At(s, first) != ']' && FastInts(s, first).Some? {
      FastIsGeneric(s, first);
    }
  }

  // ---- The routines ----

  method ReadBlanks(s: string, p0: nat) returns (p: nat)
    requires p0 <= |s|
    ensures p == SkipBlanks(s, p0)
  {
    p := p0;
    while IsBlank(At(s, p))
      invariant p0 <= p <= |s| && SkipBlanks(s, p) == SkipBlanks(s, p0)
      decreases |s| - p
    {
      p := p + 1;
    }
  }

  /** Blanks, then the character `c` if it is there. */
  method ReadSeparator(s: string, p0: nat, c: char) returns (p: nat)
    requires p0 <= |s| && c != NUL
    ensures p == SkipChar(s, SkipBlanks(s, p0), c)
  {
    p := ReadBlanks(s, p0);
    if At(s, p) == c {
      p := p + 1;
    }
  }

  method ReadDigits(s: string, p0: nat) returns (p: nat)
    requires p0 <= |s|
    ensures p == SkipDigits(s, p0)
  {
    p := p0;
    while IsDigit(At(s, p))
      invariant p0 <= p <= |s| && SkipDigits(s, p) == SkipDigits(s, p0)
      decreases |s| - p
    {
      p := p + 1;
    }
  }

  /** The accumulator loop shared by the fast path and the general number branch. */
  method ReadMagnitude(s: string, d: nat) returns (n: int, p: nat)
    requires d <= |s|
    ensures p == SkipDigits(s, d) && n == Accumulate(s[d..p])
  {
    p, n := d, 0;
    while IsDigit(At(s, p))
      invariant d <= p <= |s| && SkipDigits(s, p) == SkipDigits(s, d)
      invariant AllDigits(s[d..p]) && n == Accumulate(s[d..p])
      decreases |s| - p
    {
      assert s[d..p + 1][..p - d] == s[d..p];
      n := n * 10 + DigitValue(At(s, p));
      p := p + 1;
    }
  }

  method ReadInteger(s: string, p0: nat) returns (n: int, p: nat)
    requires p0 <= |s|
    ensures n == IntegerAt(s, p0) && p == SkipDigits(s, SkipSign(s, p0))
  {
    var neg := At(s, p0) == '-';
    n, p := ReadMagnitude(s, if neg then p0 + 1 else p0);
    if neg {
      n := -n;
    }
  }

  /** The pre-scan that sizes the buffer. */
  method MeasureString(s: string, p: nat) returns (len: nat)
    requires p <= |s|
    ensures len == |StringBody(s, p)|
  {
    var scan := p;
    len := 0;
    while At(s, scan) != NUL && At(s, scan) != '"'
      invariant scan <= |s| && len + |StringBody(s, scan)| == |StringBody(s, p)|
      decreases |s| - scan
    {
      if At(s, scan) == '\\' {
        scan := scan + 1;
        if At(s, scan) == NUL { break; }
      }
      scan := scan + 1;
      len := len + 1;
    }
  }

  /** The decoding loop: fills `buf` with exactly the measured text. */
  method DecodeString(s: string, p0: nat, buf: array<char>) returns (len: nat, p: nat)
    requires p0 <= |s| && |StringBody(s, p0)| <= buf.Length
    modifies buf
    ensures p == StringStop(s, p0) && len == |StringBody(s, p0)| && buf[..len] == StringBody(s, p0)
  {
    ghost var body := StringBody(s, p0);
    len, p := 0, p0;
    while At(s, p) != NUL && At(s, p) != '"'
      invariant p <= |s| && len <= |body|
      invariant buf[..len] == body[..len] && body[len..] == StringBody(s, p)
      invariant StringStop(s, p) == StringStop(s, p0)
      decreases |s| - p
    {
      var c := At(s, p);
      if c == '\\' {
        p := p + 1;
        if At(s, p) == NUL { break; }
        c := Unescape(At(s, p));
      }
      p := p + 1;
      assert body[len..] == [c] + StringBody(s, p);
      assert body[len] == c && body[len + 1..] == body[len..][1..] == StringBody(s, p);
      buf[len] := c;
      len := len + 1;
    }
  }

  /**
   Measures, allocates one character more than measured, and decodes into that buffer: the
   decoding fills all of it but the last character, which takes the terminator.
   */
  method ReadString(s: string, p0: nat) returns (text: string, p: nat)
    requires p0 < |s|
    ensures text == StringBody(s, p0 + 1) && p == StringEnd(s, p0)
  {
    var maxLen := MeasureString(s, p0 + 1);
    var buf := new char[maxLen + 1];
    var len;
    len, p := DecodeString(s, p0 + 1, buf);
    if At(s, p) == '"' {
      p := p + 1;
    }
    assert len == maxLen;
    buf[len] := NUL;
    text := buf[..len];
  }

  /** One round of the speculative loop. */
  method ReadFastElement(s: string, p0: nat) returns (r: FastResult)
    requires p0 <= |s|
    ensures r == FastElement(s, p0)
  {
    var p := ReadBlanks(s, p0);
    var d := if At(s, p) == '-' then p + 1 else p;
    if !IsDigit(At(s, d)) { return None; }
    var n;
    n, p := ReadInteger(s, p);
    p := ReadBlanks(s, p);
    if At(s, p) != ',' && At(s, p) != ']' { return None; }
    return Some([n], p);
  }

  lemma {:induction false} PrependTwice(xs: seq<int>, ys: seq<int>, r: FastResult)
    ensures Prepend(xs, Prepend(ys, r)) == Prepend(xs + ys, r)
  {
    if r.Some? {
      assert xs + (ys + r.xs) == xs + ys + r.xs;
    }
  }

  method FastRound(s: string, p: nat, xs: seq<int>) returns (ok: bool, p': nat, xs': seq<int>)
    requires p <= |s| && At(s, p) != NUL && At(s, p) != ']'
    ensures !ok ==> FastInts(s, p) == None
    ensures ok ==> p < p' <= |s| && Prepend(xs', FastInts(s, p')) == Prepend(xs, FastInts(s, p))
  {
    p', xs' := p, xs;
    var x := ReadFastElement(s, p);
    if x.None? { return false, p, xs; }
    p' := if At(s, x.stop) == ',' then x.stop + 1 else x.stop;
    assert p' == SkipChar(s, x.stop, ',');
    PrependTwice(xs, x.xs, FastInts(s, p'));
    return true, p', xs + x.xs;
  }

  /** The speculative loop; on failure the caller restores its saved cursor. */
  method ReadFastInts(s: string, p0: nat) returns (r: FastResult)
    requires p0 <= |s|
    ensures r == FastInts(s, p0)
  {
    var p, xs, ok := p0, [], true;
    while At(s, p) != NUL && At(s, p) != ']'
      invariant p0 <= p <= |s|
      invariant Prepend(xs, FastInts(s, p)) == FastInts(s, p0)
      decreases |s| - p
    {
      ok, p, xs := FastRound(s, p, xs);
      if !ok { return None; }
    }
    if At(s, p) == ']' {
      assert xs + [] == xs;
      return Some(xs, p);
    }
    return None;
  }

  method ReadExponent(s: string, p: nat) returns (present: bool, q: nat)
    requires p <= |s|
    ensures q == ExponentEnd(s, p) && present == (At(s, p) == 'e' || At(s, p) == 'E')
  {
    present, q := false, p;
    if At(s, p) == 'e' || At(s, p) == 'E' {
      present, q := true, p + 1;
      if At(s, q) == '+' || At(s, q) == '-' {
        q := q + 1;
      }
      q := ReadDigits(s, q);
    }
  }

  /** The number branch; a byte that starts nothing is skipped so that callers make progress. */
  method ReadNumber(s: string, p: nat) returns (v: Json, q: nat)
    requires p < |s|
    ensures (v, q) == Number(s, p)
  {
    q := if At(s, p) == '-' then p + 1 else p;
    q := ReadDigits(s, q);
    var isFloat := At(s, q) == '.';
    if isFloat {
      q := ReadDigits(s, q + 1);
    }
    var exponent;
    exponent, q := ReadExponent(s, q);
    if q == p {
      return Null, p + 1;
    }
    if isFloat || exponent {
      v := Float(s[p..q]);
    } else {
      var n, _ := ReadInteger(s, p);
      v := Int(n);
    }
  }

  /** `json_parse_value`: total, and the cursor stays inside the text and its terminator. */
  method ReadValue(s: string, p0: nat) returns (v: Json, p: nat)
    requires p0 <= |s|
    ensures (v, p) == Value(s, p0)
    decreases |s| - p0, 2
  {
    p := ReadBlanks(s, p0);
    if At(s, p) == NUL { return Null, p; }
    v, p := ReadValueAt(s, p);
  }

  method ReadValueAt(s: string, p0: nat) returns (v: Json, p: nat)
    requires p0 < |s|
    ensures (v, p) == ValueAt(s, p0)
    decreases |s| - p0, 1
  {
    if s[p0] == '"' {
      var text;
      text, p := ReadString(s, p0);
      return Str(text), p;
    }
    if s[p0] == '{' {
      v, p := ReadObject(s, p0);
      return;
    }
    if s[p0] == '[' {
      v, p := ReadArray(s, p0);
      return;
    }
    if Occurs(s, p0, "true") { return Bool(true), p0 + 4; }
    if Occurs(s, p0, "false") { return Bool(false), p0 + 5; }
    if Occurs(s, p0, "null") { return Null, p0 + 4; }
    v, p := ReadNumber(s, p0);
  }

  method ReadObject(s: string, p0: nat) returns (v: Json, p: nat)
    requires p0 < |s|
    ensures (v, p) == Object(s, p0)
    decreases |s| - p0, 0
  {
    p := ReadBlanks(s, p0 + 1);
    var fields;
    fields, p := ReadFields(s, p);
    return Obj(fields), SkipChar(s, p, '}');
  }

  /** Speculates on integers only and falls back to the saved position when that fails. */
  method ReadArray(s: string, p0: nat) returns (v: Json, p: nat)
    requires p0 < |s|
    ensures (v, p) == Array(s, p0)
    decreases |s| - p0, 0
  {
    p := ReadBlanks(s, p0 + 1);
    if At(s, p) == ']' { return Arr([]), p + 1; }
    var fast := ReadFastInts(s, p);
    if fast.Some? { return Arr(Ints(fast.xs)), fast.stop + 1; }
    var elems;
    elems, p := ReadElements(s, p);
    return Arr(elems), SkipChar(s, p, ']');
  }

  method ReadMember(s: string, p0: nat) returns (key: string, v: Json, p: nat)
    requires p0 < |s|
    ensures (key, v, p) == Member(s, p0)
    decreases |s| - p0, 3
  {
    key, p := ReadString(s, p0);
    p := ReadSeparator(s, p, ':');
    v, p := ReadValue(s, p);
    p := ReadSeparator(s, p, ',');
  }

  method ReadFields(s: string, p0: nat) returns (fields: map<string, Json>, p: nat)
    requires p0 <= |s|
    ensures (fields, p) == Fields(s, p0, map[])
    decreases |s| - p0, 4
  {
    p, fields := p0, map[];
    while At(s, p) != NUL && At(s, p) != '}'
      invariant p0 <= p <= |s| && Fields(s, p, fields) == Fields(s, p0, map[])
      decreases |s| - p
    {
      p := ReadBlanks(s, p);
      if At(s, p) != '"' { return; }
      var key, v;
      key, v, p := ReadMember(s, p);
      fields := fields[key := v];
    }
  }

  method ReadElement(s: string, p0: nat) returns (v: Json, p: nat)
    requires p0 < |s| && At(s, p0) != NUL
    ensures (v, p) == Element(s, p0)
    decreases |s| - p0, 3
  {
    v, p := ReadValue(s, p0);
    p := ReadSeparator(s, p, ',');
    p := ReadBlanks(s, p);
  }

  method ReadElements(s: string, p0: nat) returns (elems: seq<Json>, p: nat)
    requires p0 <= |s|
    ensures (elems, p) == Elements(s, p0)
    decreases |s| - p0, 4
  {
    p, elems := p0, [];
    assert elems + Elements(s, p).0 == Elements(s, p).0;
    while At(s, p) != NUL && At(s, p) != ']'
      invariant p0 <= p <= |s|
      invariant elems + Elements(s, p).0 == Elements(s, p0).0
      invariant Elements(s, p).1 == Elements(s, p0).1
      decreases |s| - p
    {
      var v, q := ReadElement(s, p);
      assert elems + ([v] + Elements(s, q).0) == elems + [v] + Elements(s, q).0;
      elems, p := elems + [v], q;
    }
    assert elems + [] == elems;
  }
}
