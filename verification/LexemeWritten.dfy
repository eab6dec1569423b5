/**
 Literals as they are written: strings with escapes and interpolations, characters, raw
 strings, integers in every radix and floats. Each lemma says for a way of writing that the
 token is read there, with this end, and where it can be said that there is no other way.
 */
module LexemeWritten {
  import opened Wrappers
  import opened Lexemes
  import opened LexemeText

  /** `w` stands in `s` from `p` on. */
  predicate Here(s: string, p: nat, w: string) { p + |w| <= |s| && s[p..p + |w|] == w }

  lemma {:induction false} HereAppend(s: string, p: nat, u: string, w: string)
    ensures Here(s, p, u + w) <==> Here(s, p, u) && Here(s, p + |u|, w)
  {
    if p + |u| + |w| <= |s| {
      var x := s[p..p + |u| + |w|];
      assert x[..|u|] == s[p..p + |u|] && x[|u|..] == s[p + |u|..p + |u| + |w|];
      assert x == x[..|u|] + x[|u|..];
    }
  }

  lemma {:induction false} HereOne(s: string, p: nat, c: char)
    ensures Here(s, p, [c]) <==> p < |s| && s[p] == c
  {
    if p < |s| {
      assert s[p..p + 1] == [s[p]];
    }
  }

  lemma {:induction false} HereFirst(s: string, p: nat, c: char, w: string)
    ensures Here(s, p, [c] + w) <==> p < |s| && s[p] == c && Here(s, p + 1, w)
  {
    HereAppend(s, p, [c], w);
    HereOne(s, p, c);
  }

  lemma {:induction false} HereSlice(s: string, p: nat, q: nat)
    requires p <= q <= |s|
    ensures Here(s, p, s[p..q])
  {
  }

  // ---- Hexadecimal digits ----

  /** The digits, in both cases of the letters. */
  lemma {:induction false} HexIff(c: char, v: nat)
    ensures HexValue(c) == Some(v) <==> v < 16 && (c == "0123456789abcdef"[v] || c == "0123456789ABCDEF"[v])
  {
  }

  predicate AllHex(ds: string) { forall i :: 0 <= i < |ds| ==> HexValue(ds[i]).Some? }

  ghost function Power(base: nat, n: nat): nat { if n == 0 then 1 else base * Power(base, n - 1) }

  lemma {:induction false} NumberFirst(c: char, ds: string, v: nat)
    requires HexValue(c) == Some(v)
    ensures NumberOf([c] + ds, 16) == v * Power(16, |ds|) + NumberOf(ds, 16)
    decreases |ds|
  {
    var w := [c] + ds;
    if ds == [] {
      assert w[..0] == [];
    } else {
      var n := |ds| - 1;
      assert w[..|w| - 1] == [c] + ds[..n];
      NumberFirst(c, ds[..n], v);
      var x := HexValue(ds[n]);
      Shifted(v, Power(16, n), NumberOf(ds[..n], 16), if x.Some? then x.value else 0);
    }
  }

  lemma {:induction false} Shifted(v: nat, p: nat, m: nat, x: nat)
    ensures (v * p + m) * 16 + x == v * (16 * p) + (m * 16 + x)
  {
  }

  /** Exactly `n` digits, and the number they write. */
  lemma {:induction false} HexRunIs(s: string, p: nat, n: nat, v: nat)
    requires p <= |s|
    ensures p + n <= |s| && AllHex(s[p..p + n]) ==>
            HexRun(s, p, n, v) == Some((p + n, v * Power(16, n) + NumberOf(s[p..p + n], 16)))
    ensures !(p + n <= |s| && AllHex(s[p..p + n])) ==> HexRun(s, p, n, v) == None
    decreases n
  {
    if n > 0 {
      if p < |s| && HexValue(s[p]).Some? {
        var d := HexValue(s[p]).value;
        HexRunIs(s, p + 1, n - 1, v * 16 + d);
        if p + n <= |s| {
          AllHexStep(s, p, n);
          NumberFirst(s[p], s[p + 1..p + n], d);
          Fold(v, d, Power(16, n - 1));
        }
      } else if p + n <= |s| {
        assert s[p..p + n][0] == s[p];
      }
    }
  }

  lemma {:induction false} AllHexStep(s: string, p: nat, n: nat)
    requires 0 < n && p + n <= |s| && HexValue(s[p]).Some?
    ensures s[p..p + n] == [s[p]] + s[p + 1..p + n]
    ensures AllHex(s[p..p + n]) <==> AllHex(s[p + 1..p + n])
  {
    var u := s[p + 1..p + n];
    assert s[p..p + n] == [s[p]] + u;
    forall i | 0 <= i < |u| ensures u[i] == s[p..p + n][i + 1] {
    }
  }

  lemma {:induction false} Fold(v: nat, d: nat, p: nat)
    ensures (v * 16 + d) * p == v * (16 * p) + d * p
  {
  }

  // ---- Escapes ----

  datatype Escape = Short(c: char) | Two(digits: string) | Braced(digits: string) | Eight(digits: string)

  /** The number of characters behind the backslash. */
  function Width(x: Escape): nat {
    match x
    case Short(_) => 1
    case Two(ds) => |ds| + 1
    case Braced(ds) => |ds| + 3
    case Eight(ds) => |ds| + 1
  }

  /** Unicode scalar values. */
  predicate IsCharacter(n: nat) { n <= 0xD7FF || 0xE000 <= n <= 0x10FFFF }

  /**
   An escape stands behind the backslash: one of seven letters, `x` and two digits, `u` and at
   most six digits in braces, or `U` and eight digits; digits make up the number of a character.
   */
  predicate EscapeAt(s: string, p: nat, x: Escape) {
    p < |s| &&
    match x
    case Short(c) => s[p] == c && OneLetter(c)
    case Two(ds) => s[p] == 'x' && Here(s, p + 1, ds) && |ds| == 2 && AllHex(ds)
    case Braced(ds) => s[p] == 'u' && BracesAt(s, p + 1, ds) && IsCharacter(NumberOf(ds, 16))
    case Eight(ds) => s[p] == 'U' && Here(s, p + 1, ds) && |ds| == 8 && AllHex(ds) && IsCharacter(NumberOf(ds, 16))
  }

  predicate OneLetter(c: char) { c == 'n' || c == 't' || c == 'r' || c == '\\' || c == '"' || c == '\'' || c == '0' }

  predicate BracesAt(s: string, p: nat, ds: string) {
    CharAt(s, p) == '{' && Here(s, p + 1, ds) && |ds| <= 6 && AllHex(ds) && CharAt(s, p + 1 + |ds|) == '}'
  }

  lemma {:induction false} Below256(ds: string)
    requires |ds| == 2 && AllHex(ds)
    ensures NumberOf(ds, 16) < 256
  {
    var u := ds[..1];
    assert u[..0] == [];
    assert NumberOf(u, 16) == HexValue(u[0]).value;
  }

  lemma {:induction false} FixedRead(s: string, p: nat, n: nat)
    requires p <= |s|
    ensures IfScalar(HexRun(s, p, n, 0)) ==
            if p + n <= |s| && AllHex(s[p..p + n]) && IsCharacter(NumberOf(s[p..p + n], 16)) then Some(p + n) else None
  {
    HexRunIs(s, p, n, 0);
  }

  lemma {:induction false} FixedEscapeRead(s: string, p: nat, x: Escape)
    requires EscapeAt(s, p, x) && (x.Two? || x.Eight?)
    ensures EscapeEnd(s, p) == Some(p + |x.digits| + 1)
  {
    FixedRead(s, p + 1, |x.digits|);
    if x.Two? {
      Below256(x.digits);
    }
  }

  /** Digits up to a brace. */
  lemma {:induction false} BracedRead(s: string, p: nat, n: nat, v: nat, ds: string)
    requires |ds| <= n && AllHex(ds) && Here(s, p, ds) && CharAt(s, p + |ds|) == '}'
    ensures BracedHex(s, p, n, v) == Some((p + |ds|, v * Power(16, |ds|) + NumberOf(ds, 16)))
    decreases n
  {
    if ds != [] {
      var d := HexValue(ds[0]).value;
      assert ds == [ds[0]] + ds[1..];
      HereFirst(s, p, ds[0], ds[1..]);
      assert HexValue('}').None?;
      BracedRead(s, p + 1, n - 1, v * 16 + d, ds[1..]);
      NumberFirst(ds[0], ds[1..], d);
      Fold(v, d, Power(16, |ds| - 1));
    }
  }

  lemma {:induction false} UnicodeEscape(s: string, p: nat)
    requires p < |s| && s[p] == 'u'
    ensures EscapeEnd(s, p) == UnicodeEnd(s, p + 1)
  {
  }

  lemma {:induction false} BracesRead(s: string, p: nat, ds: string, n: nat)
    requires n == 6 && BracesAt(s, p, ds)
    ensures p < |s| && UnicodeEnd(s, p) == if IsCharacter(NumberOf(ds, 16)) then Some(p + |ds| + 2) else None
  {
    BracedRead(s, p + 1, n, 0, ds);
    UnicodeRead(s, p, p + 1 + |ds|, NumberOf(ds, 16));
  }

  lemma {:induction false} UnicodeRead(s: string, p: nat, q: nat, v: nat)
    requires p <= |s| && CharAt(s, p) == '{' && BracedHex(s, p + 1, 6, 0) == Some((q, v)) && CharAt(s, q) == '}'
    ensures UnicodeEnd(s, p) == if IsCharacter(v) then Some(q + 1) else None
  {
  }

  /** What the braces hold when they are read. */
  lemma {:induction false} BracedFound(s: string, p: nat, n: nat, v: nat) returns (ds: string)
    requires p <= |s| && BracedHex(s, p, n, v).Some? && CharAt(s, BracedHex(s, p, n, v).value.0) == '}'
    ensures |ds| <= n && AllHex(ds) && Here(s, p, ds) && CharAt(s, p + |ds|) == '}'
    decreases n
  {
    if n == 0 || CharAt(s, p) == '}' {
      ds := [];
    } else {
      var rest := BracedFound(s, p + 1, n - 1, v * 16 + HexValue(CharAt(s, p)).value);
      HereFirst(s, p, s[p], rest);
      ds := [s[p]] + rest;
    }
  }

  lemma {:induction false} EscapeRead(s: string, p: nat, x: Escape)
    requires EscapeAt(s, p, x)
    ensures EscapeEnd(s, p) == Some(p + Width(x))
  {
    match x
    case Short(_) =>
    case Braced(ds) =>
      UnicodeEscape(s, p);
      BracesRead(s, p + 1, ds, 6);
    case Two(_) => FixedEscapeRead(s, p, x);
    case Eight(_) => FixedEscapeRead(s, p, x);
  }

  lemma {:induction false} FixedFound(s: string, p: nat, n: nat) returns (ds: string)
    requires p <= |s| && IfScalar(HexRun(s, p, n, 0)).Some?
    ensures |ds| == n && AllHex(ds) && IsCharacter(NumberOf(ds, 16)) && Here(s, p, ds)
  {
    FixedRead(s, p, n);
    ds := s[p..p + n];
  }

  lemma {:induction false} UnicodeFound(s: string, p: nat, n: nat) returns (ds: string)
    requires n == 6 && p <= |s| && UnicodeEnd(s, p).Some?
    ensures BracesAt(s, p, ds) && IsCharacter(NumberOf(ds, 16))
  {
    ds := BracedFound(s, p + 1, n, 0);
    BracesRead(s, p, ds, n);
  }

  lemma {:induction false} EscapeFound(s: string, p: nat) returns (x: Escape)
    requires p <= |s| && EscapeEnd(s, p).Some?
    ensures EscapeAt(s, p, x)
  {
    var c := CharAt(s, p);
    if c == 'x' {
      var ds := FixedFound(s, p + 1, 2);
      x := Two(ds);
    } else if c == 'u' {
      UnicodeEscape(s, p);
      var ds := UnicodeFound(s, p + 1, 6);
      x := Braced(ds);
    } else if c == 'U' {
      var ds := FixedFound(s, p + 1, 8);
      x := Eight(ds);
    } else {
      x := Short(c);
    }
  }

  /** An escape ends at `e` exactly when one is written from `p` to there. */
  lemma {:induction false} EscapeIff(s: string, p: nat, e: nat)
    requires p <= |s|
    ensures EscapeEnd(s, p) == Some(e) <==> exists x :: EscapeAt(s, p, x) && e == p + Width(x)
  {
    if EscapeEnd(s, p).Some? {
      var x := EscapeFound(s, p);
      EscapeRead(s, p, x);
    }
    forall x | EscapeAt(s, p, x) ensures EscapeEnd(s, p) == Some(p + Width(x)) {
      EscapeRead(s, p, x);
    }
  }

  // ---- Strings ----

  /** How many braces are open behind `u` if `d` are in front of it; none if one closes too many. */
  function Depth(u: string, d: nat): Option<nat> {
    if u == [] then Some(d)
    else if u[0] == '{' then Depth(u[1..], d + 1)
    else if u[0] == '}' then (if d == 0 then None else Depth(u[1..], d - 1))
    else Depth(u[1..], d)
  }

  datatype Piece = Plain(c: char) | Escaped(x: Escape) | Code(text: string)

  function Size(x: Piece): nat {
    match x
    case Plain(_) => 1
    case Escaped(e) => Width(e) + 1
    case Code(u) => |u| + 3
  }

  /**
   A piece of a string: a character that ends nothing, an escape, or a dollar sign and code
   with balanced braces between braces.
   */
  predicate PieceAt(s: string, p: nat, x: Piece) {
    p < |s| &&
    match x
    case Plain(c) => s[p] == c && c != '"' && c != '\n' && c != '\\' && !(c == '$' && CharAt(s, p + 1) == '{')
    case Escaped(e) => s[p] == '\\' && EscapeAt(s, p + 1, e)
    case Code(u) => s[p] == '$' && CharAt(s, p + 1) == '{' && CodeAt(s, p + 2, u)
  }

  predicate CodeAt(s: string, p: nat, u: string) {
    Here(s, p, u) && Depth(u, 0) == Some(0) && CharAt(s, p + |u|) == '}'
  }

  /** Pieces side by side from `p` to `q`. */
  predicate Pieces(s: string, p: nat, xs: seq<Piece>, q: nat)
    decreases |xs|
  {
    if xs == [] then p == q else PieceAt(s, p, xs[0]) && Pieces(s, p + Size(xs[0]), xs[1..], q)
  }

  predicate HasCode(xs: seq<Piece>) { exists i :: 0 <= i < |xs| && xs[i].Code? }

  lemma {:induction false} HasCodeFirst(xs: seq<Piece>)
    requires xs != []
    ensures HasCode(xs) <==> xs[0].Code? || HasCode(xs[1..])
  {
    if HasCode(xs) && !xs[0].Code? {
      var i :| 0 <= i < |xs| && xs[i].Code?;
      assert xs[1..][i - 1].Code?;
    }
    if HasCode(xs[1..]) {
      var i :| 0 <= i < |xs[1..]| && xs[1..][i].Code?;
      assert xs[i + 1].Code?;
    }
  }

  lemma {:induction false} InterpRead(s: string, p: nat, u: string, d: nat)
    requires Here(s, p, u) && Depth(u, d) == Some(0) && CharAt(s, p + |u|) == '}'
    ensures InterpEnd(s, p, d + 1) == p + |u| + 1
    decreases |u|
  {
    if u != [] {
      assert u == [u[0]] + u[1..];
      HereFirst(s, p, u[0], u[1..]);
      InterpRead(s, p + 1, u[1..], if u[0] == '{' then d + 1 else if u[0] == '}' then d - 1 else d);
    }
  }

  lemma {:induction false} InterpFound(s: string, p: nat, d: nat) returns (u: string)
    requires p <= |s| && InterpEnd(s, p, d + 1) < |s|
    ensures Here(s, p, u) && Depth(u, d) == Some(0) && CharAt(s, p + |u|) == '}' && InterpEnd(s, p, d + 1) == p + |u| + 1
    decreases |s| - p
  {
    if s[p] == '}' && d == 0 {
      u := [];
    } else {
      var rest := InterpFound(s, p + 1, if s[p] == '{' then d + 1 else if s[p] == '}' then d - 1 else d);
      u := [s[p]] + rest;
      HereFirst(s, p, s[p], rest);
      assert u[1..] == rest;
    }
  }

  lemma {:induction false} PieceRead(s: string, p: nat, x: Piece, interp: bool)
    requires PieceAt(s, p, x)
    ensures StringEnd(s, p, interp) == StringEnd(s, p + Size(x), interp || x.Code?)
  {
    match x
    case Plain(_) => StringEndChar(s, p, interp);
    case Escaped(e) =>
      StringEndEscape(s, p, interp);
      EscapeRead(s, p + 1, e);
    case Code(u) =>
      StringEndInterp(s, p, interp);
      InterpRead(s, p + 2, u, 0);
  }

  lemma {:induction false} PiecesRead(s: string, p: nat, xs: seq<Piece>, q: nat, interp: bool)
    requires Pieces(s, p, xs, q) && CharAt(s, q) == '"'
    ensures StringEnd(s, p, interp) == Some((q + 1, interp || HasCode(xs)))
    decreases |xs|
  {
    if xs != [] {
      PieceRead(s, p, xs[0], interp);
      PiecesRead(s, p + Size(xs[0]), xs[1..], q, interp || xs[0].Code?);
      HasCodeFirst(xs);
    }
  }

  lemma {:induction false} PieceFound(s: string, p: nat, interp: bool) returns (x: Piece)
    requires p < |s| && s[p] != '"' && StringEnd(s, p, interp).Some?
    ensures PieceAt(s, p, x)
  {
    if s[p] == '$' && CharAt(s, p + 1) == '{' {
      StringEndInterp(s, p, interp);
      var u := InterpFound(s, p + 2, 0);
      x := Code(u);
    } else if s[p] == '\\' {
      StringEndEscape(s, p, interp);
      var e := EscapeFound(s, p + 1);
      x := Escaped(e);
    } else {
      x := Plain(s[p]);
    }
  }

  lemma {:induction false} PiecesFound(s: string, p: nat, interp: bool) returns (xs: seq<Piece>, q: nat)
    requires StringEnd(s, p, interp).Some?
    ensures Pieces(s, p, xs, q) && CharAt(s, q) == '"'
    decreases |s| - p
  {
    if s[p] == '"' {
      xs, q := [], p;
    } else {
      var x := PieceFound(s, p, interp);
      PieceRead(s, p, x, interp);
      assert Size(x) > 0;
      var rest;
      rest, q := PiecesFound(s, p + Size(x), interp || x.Code?);
      PiecesMore(s, p, x, rest, q);
      xs := [x] + rest;
    }
  }

  lemma {:induction false} PiecesMore(s: string, p: nat, x: Piece, xs: seq<Piece>, q: nat)
    requires PieceAt(s, p, x) && Pieces(s, p + Size(x), xs, q)
    ensures Pieces(s, p, [x] + xs, q)
  {
    assert ([x] + xs)[1..] == xs;
  }

  /** The pieces of a string from `p` on, and the quote before `b`. */
  predicate StringText(s: string, p: nat, xs: seq<Piece>, b: nat) {
    b > 0 && Pieces(s, p, xs, b - 1) && CharAt(s, b - 1) == '"'
  }

  lemma {:induction false} StringFound(s: string, p: nat, b: nat, interp: bool)
    requires StringEnd(s, p, false) == Some((b, interp))
    ensures exists xs :: StringText(s, p, xs, b) && interp == HasCode(xs)
  {
    var xs, q := PiecesFound(s, p, false);
    PiecesRead(s, p, xs, q, false);
    assert StringText(s, p, xs, b);
  }

  lemma {:induction false} StringRead(s: string, p: nat, xs: seq<Piece>, b: nat)
    requires StringText(s, p, xs, b)
    ensures StringEnd(s, p, false) == Some((b, HasCode(xs)))
  {
    PiecesRead(s, p, xs, b - 1, false);
  }

  /**
   A string ends at `b` exactly when it is written in pieces up to a quote before `b`; with code
   in it, and only then, it is an interpolated one.
   */
  lemma {:induction false} StringIff(s: string, p: nat, b: nat, interp: bool)
    ensures StringEnd(s, p, false) == Some((b, interp)) <==> exists xs :: StringText(s, p, xs, b) && interp == HasCode(xs)
  {
    if StringEnd(s, p, false) == Some((b, interp)) {
      StringFound(s, p, b, interp);
    }
    forall xs | StringText(s, p, xs, b) ensures StringEnd(s, p, false) == Some((b, HasCode(xs))) {
      StringRead(s, p, xs, b);
    }
  }

  // ---- Characters and raw strings ----

  /** A backslash, an escape and an apostrophe. */
  predicate EscapeTicked(s: string, p: nat, x: Escape, b: nat) {
    && CharAt(s, p) == '\\' && EscapeAt(s, p + 1, x)
    && CharAt(s, p + 1 + Width(x)) == '\'' && b == p + Width(x) + 2
  }

  lemma {:induction false} TickedFound(s: string, p: nat, byte: bool, b: nat)
    requires p < |s| && s[p] == '\\' && QuotedEnd(s, p, byte) == Some(b)
    ensures exists x :: EscapeTicked(s, p, x, b)
  {
    var x := EscapeFound(s, p + 1);
    EscapeRead(s, p + 1, x);
    assert EscapeTicked(s, p, x, b);
  }

  lemma {:induction false} TickedRead(s: string, p: nat, byte: bool, x: Escape, b: nat)
    requires EscapeTicked(s, p, x, b)
    ensures p < |s| && s[p] == '\\' && QuotedEnd(s, p, byte) == Some(b)
  {
    EscapeRead(s, p + 1, x);
  }

  /** A character or an escape and an apostrophe; a byte that is not escaped is at most 127. */
  ghost predicate QuotedText(s: string, p: nat, byte: bool, b: nat) {
    || (b == p + 2 <= |s| && s[p] != '\\' && s[p] != '\'' && s[p + 1] == '\'' && (byte ==> s[p] as int <= 127))
    || exists x :: EscapeTicked(s, p, x, b)
  }

  lemma {:induction false} QuotedIff(s: string, p: nat, byte: bool, b: nat)
    requires p <= |s|
    ensures QuotedEnd(s, p, byte) == Some(b) <==> QuotedText(s, p, byte, b)
  {
    if p < |s| && s[p] == '\\' && QuotedEnd(s, p, byte) == Some(b) {
      TickedFound(s, p, byte, b);
    }
    forall x | EscapeTicked(s, p, x, b) ensures s[p] == '\\' && QuotedEnd(s, p, byte) == Some(b) {
      TickedRead(s, p, byte, x, b);
    }
  }

  /** The end of a raw string: a quote, or a quote and a hash. */
  predicate RawMark(s: string, k: nat, hashes: nat) {
    k < |s| && s[k] == '"' && (hashes == 1 ==> k + 1 < |s| && s[k + 1] == '#')
  }

  lemma {:induction false} RawEndIs(s: string, p: nat, hashes: nat)
    requires hashes <= 1
    ensures RawEnd(s, p, hashes).Some? ==>
            var b := RawEnd(s, p, hashes).value;
            p + 1 + hashes <= b && RawMark(s, b - 1 - hashes, hashes)
            && forall k :: p <= k < b - 1 - hashes ==> !RawMark(s, k, hashes)
    ensures RawEnd(s, p, hashes).None? ==> forall k :: p <= k ==> !RawMark(s, k, hashes)
    decreases |s| - p
  {
    if p < |s| {
      assert HashEnd(s, p + 1, 0) == p + 1;
      assert HashEnd(s, p + 2, 0) == p + 2;
      assert RawMark(s, p, hashes) <==> s[p] == '"' && HashEnd(s, p + 1, hashes) == p + 1 + hashes;
      if !RawMark(s, p, hashes) {
        RawEndIs(s, p + 1, hashes);
      }
    }
  }

  /** From `r` and a quote, or `r`, a hash and a quote, to the first fitting mark. */
  ghost predicate RawText(s: string, a: nat, b: nat, hashes: nat) {
    && hashes <= 1 && a + 1 + hashes < |s| && s[a] == 'r' && s[a + 1 + hashes] == '"' && (hashes == 1 ==> s[a + 1] == '#')
    && a + 3 + 2 * hashes <= b && RawMark(s, b - 1 - hashes, hashes)
    && forall k :: a + 2 + hashes <= k < b - 1 - hashes ==> !RawMark(s, k, hashes)
  }

  lemma {:induction false} RawIff(s: string, a: nat, b: nat)
    ensures IsRaw(s, a, b) <==> RawText(s, a, b, 0) || RawText(s, a, b, 1)
  {
    if a + 1 < |s| {
      RawEndIs(s, a + 2, 0);
      RawEndIs(s, a + 3, 1);
    }
  }

  // ---- Numbers ----

  /** The digits of each radix and the underscore. */
  predicate RunChar(c: char, r: Radix) {
    c == '_' || '0' <= c <= '1' ||
    match r
    case Decimal => '2' <= c <= '9'
    case Hex => '2' <= c <= '9' || 'a' <= c <= 'f' || 'A' <= c <= 'F'
    case Octal => '2' <= c <= '7'
    case Binary => false
  }

  /** The digits and underscores from `p` on, all of them. */
  ghost predicate Run(s: string, p: nat, q: nat, r: Radix) {
    p <= q <= |s| && (forall k :: p <= k < q ==> RunChar(s[k], r)) && (q == |s| || !RunChar(s[q], r))
  }

  lemma {:induction false} InRunIff(c: char, r: Radix)
    ensures InRun(c, r) <==> RunChar(c, r)
  {
  }

  lemma {:induction false} RunEndIs(s: string, p: nat, r: Radix)
    requires p <= |s|
    ensures Run(s, p, RunEnd(s, p, r), r)
    decreases |s| - p
  {
    if p < |s| {
      InRunIff(s[p], r);
      if InRun(s[p], r) {
        RunEndIs(s, p + 1, r);
      }
    }
  }

  lemma {:induction false} RunOnly(s: string, p: nat, q: nat, r: Radix)
    requires Run(s, p, q, r)
    ensures q == RunEnd(s, p, r)
    decreases q - p
  {
    if p < |s| {
      InRunIff(s[p], r);
      if p < q {
        RunOnly(s, p + 1, q, r);
      }
    }
  }

  lemma {:induction false} RunIff(s: string, p: nat, q: nat, r: Radix)
    requires p <= |s|
    ensures q == RunEnd(s, p, r) <==> Run(s, p, q, r)
  {
    RunEndIs(s, p, r);
    if Run(s, p, q, r) {
      RunOnly(s, p, q, r);
    }
  }

  /** `ds` is `w` without its underscores. */
  predicate Squeezed(w: string, ds: string)
    decreases |w|
  {
    if w == [] then ds == []
    else if w[0] == '_' then Squeezed(w[1..], ds)
    else ds != [] && ds[0] == w[0] && Squeezed(w[1..], ds[1..])
  }

  lemma {:induction false} DigitsFirst(w: string)
    requires w != []
    ensures Digits(w) == (if w[0] == '_' then [] else [w[0]]) + Digits(w[1..])
    decreases |w|
  {
    var n := |w| - 1;
    if n == 0 {
      assert w[..0] == [] && w[1..] == [];
    } else {
      var front, behind := w[..n], w[1..];
      DigitsFirst(front);
      assert front[1..] == behind[..n - 1] && front[0] == w[0] && behind[n - 1] == w[n];
      DigitsLast(behind);
      DigitsLast(w);
      Regrouped(if w[0] == '_' then [] else [w[0]], Digits(front[1..]), if w[n] == '_' then [] else [w[n]]);
    }
  }

  lemma {:induction false} DigitsLast(w: string)
    requires w != []
    ensures Digits(w) == Digits(w[..|w| - 1]) + if w[|w| - 1] == '_' then [] else [w[|w| - 1]]
  {
  }

  lemma {:induction false} Regrouped(x: string, y: string, z: string)
    ensures x + y + z == x + (y + z)
  {
  }

  lemma {:induction false} DigitsIff(w: string, ds: string)
    ensures ds == Digits(w) <==> Squeezed(w, ds)
    decreases |w|
  {
    if w != [] {
      DigitsFirst(w);
      if w[0] == '_' {
        DigitsIff(w[1..], ds);
      } else if ds != [] {
        DigitsIff(w[1..], ds[1..]);
        assert ds == [ds[0]] + ds[1..];
      }
    }
  }

  /** A number in some base, most significant digit first. */
  function Written(n: nat, base: nat): string
    requires 2 <= base <= 16
  {
    if n < base then ["0123456789abcdef"[n]] else Written(n / base, base) + ["0123456789abcdef"[n % base]]
  }

  function Zeros(z: nat): string { if z == 0 then [] else Zeros(z - 1) + ['0'] }

  lemma {:induction false} NumberLast(ds: string, base: nat, v: nat)
    requires v < 16
    ensures NumberOf(ds + ["0123456789abcdef"[v]], base) == NumberOf(ds, base) * base + v
  {
    var c := "0123456789abcdef"[v];
    var w := ds + [c];
    HexIff(c, v);
    assert w[..|w| - 1] == ds && w[|w| - 1] == c;
  }

  lemma {:induction false} ZerosNumber(z: nat, base: nat)
    ensures NumberOf(Zeros(z), base) == 0
  {
    if z > 0 {
      ZerosNumber(z - 1, base);
      assert "0123456789abcdef"[0] == '0';
      NumberLast(Zeros(z - 1), base, 0);
    }
  }

  lemma {:induction false} Parts(n: nat, base: nat)
    requires 2 <= base <= n
    ensures n / base < n && 0 <= n % base < base && n / base * base + n % base == n
  {
  }

  /** The digits of every number, leading zeros or not, are read as that number. */
  lemma {:induction false} WrittenNumber(z: nat, n: nat, base: nat)
    requires 2 <= base <= 16
    ensures NumberOf(Zeros(z) + Written(n, base), base) == n
    decreases n
  {
    if n < base {
      ZerosNumber(z, base);
      NumberLast(Zeros(z), base, n);
    } else {
      Parts(n, base);
      WrittenNumber(z, n / base, base);
      WrittenStep(Zeros(z), Written(n / base, base), base, n / base, n % base);
    }
  }

  lemma {:induction false} WrittenStep(zeros: string, front: string, base: nat, m: nat, v: nat)
    requires v < 16 && NumberOf(zeros + front, base) == m
    ensures NumberOf(zeros + (front + ["0123456789abcdef"[v]]), base) == m * base + v
  {
    NumberLast(zeros + front, base, v);
    assert zeros + (front + ["0123456789abcdef"[v]]) == zeros + front + ["0123456789abcdef"[v]];
  }

  /** Digits behind an optional prefix; less than two to the power of sixty-three. */
  ghost predicate Whole(s: string, p: nat, b: nat, r: Radix, base: nat) {
    Run(s, p, b, r) && exists ds :: Squeezed(s[p..b], ds) && ds != [] && NumberOf(ds, base) < 9223372036854775808
  }

  /** A point and a digit or an underscore at `q`, in a number that is not itself behind a point. */
  predicate PointAt(s: string, a: nat, q: nat) {
    (a == 0 || (a <= |s| && s[a - 1] != '.')) && q + 1 < |s| && s[q] == '.' && ('0' <= s[q + 1] <= '9' || s[q + 1] == '_')
  }

  lemma {:induction false} WholeIff(s: string, p: nat, b: nat, r: Radix)
    requires p <= b <= |s|
    ensures Whole(s, p, b, r, Base(r)) <==> b == RunEnd(s, p, r) && IntegerOk(Digits(s[p..b]), r)
  {
    RunIff(s, p, b, r);
    DigitsIff(s[p..b], Digits(s[p..b]));
    forall ds | Squeezed(s[p..b], ds) ensures ds == Digits(s[p..b]) {
      DigitsIff(s[p..b], ds);
    }
  }

  /** Integers, in the four radixes. */
  ghost predicate IntegerText(s: string, a: nat, b: nat) {
    a < b <= |s| && '0' <= s[a] <= '9' &&
    if s[a] == '0' && CharAt(s, a + 1) in "xX" then Whole(s, a + 2, b, Hex, 16)
    else if s[a] == '0' && CharAt(s, a + 1) in "oO" then Whole(s, a + 2, b, Octal, 8)
    else if s[a] == '0' && CharAt(s, a + 1) in "bB" then Whole(s, a + 2, b, Binary, 2)
    else Whole(s, a, b, Decimal, 10) && !PointAt(s, a, b)
  }

  lemma {:induction false} RadixIff(c: char)
    ensures RadixOf(c) == Some(Hex) <==> c in "xX"
    ensures RadixOf(c) == Some(Octal) <==> c in "oO"
    ensures RadixOf(c) == Some(Binary) <==> c in "bB"
    ensures RadixOf(c) != Some(Decimal)
  {
  }

  lemma {:induction false} LoneZeroIsWhole(s: string, a: nat)
    requires a < |s| && LoneZero(s, a)
    ensures RunEnd(s, a, Decimal) == a + 1 && IntegerOk(Digits(s[a..a + 1]), Decimal)
    ensures !FloatFollows(s, a, a + 1)
  {
    assert RunEnd(s, a + 1, Decimal) == a + 1;
    var w := s[a..a + 1];
    DigitsFirst(w);
    assert w[1..] == [] && Digits(w) == ['0'];
    assert "0123456789abcdef"[0] == '0';
    NumberLast([], 10, 0);
    assert [] + ['0'] == ['0'];
  }

  lemma {:induction false} PrefixedIff(s: string, a: nat, b: nat)
    requires a < b <= |s| && s[a] == '0' && RadixOf(CharAt(s, a + 1)).Some?
    ensures IsInteger(s, a, b) <==> IntegerText(s, a, b)
  {
    RadixIff(CharAt(s, a + 1));
    if a + 2 <= b {
      WholeIff(s, a + 2, b, RadixOf(CharAt(s, a + 1)).value);
    }
  }

  lemma {:induction false} PointIff(s: string, a: nat, q: nat)
    requires a < |s|
    ensures FloatFollows(s, a, q) <==> PointAt(s, a, q)
  {
    InRunIff(CharAt(s, q + 1), Decimal);
  }

  lemma {:induction false} IntegerIff(s: string, a: nat, b: nat)
    ensures IsInteger(s, a, b) <==> IntegerText(s, a, b)
  {
    if a < b <= |s| {
      RadixIff(CharAt(s, a + 1));
      if s[a] == '0' && RadixOf(CharAt(s, a + 1)).Some? {
        PrefixedIff(s, a, b);
      } else {
        WholeIff(s, a, b, Decimal);
        PointIff(s, a, b);
        if LoneZero(s, a) {
          LoneZeroIsWhole(s, a);
        }
      }
    }
  }

  // ---- Floats ----

  /** Digits, a point, digits, an exponent up to `e` and a suffix. */
  ghost predicate FloatText(s: string, a: nat, q: nat, f: nat, e: nat, b: nat) {
    && Run(s, a, q, Decimal) && PointAt(s, a, q) && Run(s, q + 1, f, Decimal) && ExponentText(s, f, e) && e <= |s|
    && SuffixText(s, e, b)
  }

  /** `f32` or `f64` if it is there. */
  predicate SuffixText(s: string, e: nat, b: nat) {
    if Here(s, e, "f32") || Here(s, e, "f64") then b == e + 3 else b == e
  }

  predicate Exponent(c: char) { c == 'e' || c == 'E' }

  predicate Sign(c: char) { c == '+' || c == '-' }

  /** `e` or `E`, a sign or none, and digits or none. */
  ghost predicate ExponentText(s: string, f: nat, e: nat) {
    if Exponent(CharAt(s, f)) then Run(s, if Sign(CharAt(s, f + 1)) then f + 2 else f + 1, e, Decimal) else e == f
  }

  lemma {:induction false} ExponentIff(s: string, f: nat, e: nat)
    requires f <= |s|
    ensures e == ExponentEnd(s, f) <==> ExponentText(s, f, e)
  {
    if Exponent(CharAt(s, f)) {
      RunIff(s, if Sign(CharAt(s, f + 1)) then f + 2 else f + 1, e, Decimal);
    }
  }

  lemma {:induction false} NoUnderscore(s: string, p: nat)
    requires p <= |s|
    ensures CharAt(s, RunEnd(s, p, Decimal)) != '_'
    decreases |s| - p
  {
    if p < |s| && InRun(s[p], Decimal) {
      NoUnderscore(s, p + 1);
    }
  }

  lemma {:induction false} Here3(s: string, p: nat, c: char, d: char, e: char)
    ensures Here(s, p, [c, d, e]) <==> p + 3 <= |s| && s[p] == c && s[p + 1] == d && s[p + 2] == e
  {
    if p + 3 <= |s| {
      assert s[p..p + 3] == [s[p], s[p + 1], s[p + 2]];
    }
  }

  lemma {:induction false} SuffixIff(s: string, e: nat, b: nat)
    requires e <= |s| && CharAt(s, e) != '_'
    ensures b == FloatSuffixEnd(s, e) <==> SuffixText(s, e, b)
  {
    Here3(s, e, 'f', '3', '2');
    Here3(s, e, 'f', '6', '4');
  }

  lemma {:induction false} EndsPlain(s: string, f: nat)
    requires f <= |s| && CharAt(s, f) != '_'
    ensures CharAt(s, ExponentEnd(s, f)) != '_'
  {
    if Exponent(CharAt(s, f)) {
      NoUnderscore(s, if Sign(CharAt(s, f + 1)) then f + 2 else f + 1);
    }
  }

  lemma {:induction false} SuffixBehind(s: string, f: nat, e: nat, b: nat)
    requires f <= |s| && CharAt(s, f) != '_' && e == ExponentEnd(s, f)
    ensures b == FloatSuffixEnd(s, e) <==> SuffixText(s, e, b)
  {
    EndsPlain(s, f);
    SuffixIff(s, e, b);
  }

  /** Such parts, whose digits and signs the float parser takes when underscores are left out. */
  ghost predicate FloatWith(s: string, a: nat, q: nat, f: nat, e: nat, b: nat, rules: Rules) {
    FloatText(s, a, q, f, e, b) && exists ds :: Squeezed(s[a..e], ds) && rules.floatOk(ds)
  }

  /** Floats begin with a digit and have such parts. */
  lemma {:induction false} FloatIff(s: string, a: nat, b: nat, rules: Rules)
    ensures IsFloat(s, a, b, rules) <==>
            a < |s| && '0' <= s[a] <= '9' && exists q: nat, f: nat, e: nat :: FloatWith(s, a, q, f, e, b, rules)
  {
    if IsFloat(s, a, b, rules) {
      FloatHasParts(s, a, b, rules);
    }
    forall q: nat, f: nat, e: nat | a < |s| && '0' <= s[a] <= '9' && FloatWith(s, a, q, f, e, b, rules)
      ensures IsFloat(s, a, b, rules)
    {
      PartsAreFloat(s, a, q, f, e, b, rules);
    }
  }

  lemma {:induction false} FloatHasParts(s: string, a: nat, b: nat, rules: Rules)
    requires IsFloat(s, a, b, rules)
    ensures exists q: nat, f: nat, e: nat :: FloatWith(s, a, q, f, e, b, rules)
  {
    var q := RunEnd(s, a, Decimal);
    var f := RunEnd(s, q + 1, Decimal);
    var e := ExponentEnd(s, f);
    var ds := Digits(s[a..e]);
    assert e == FloatTextEnd(s, q) && b == FloatSuffixEnd(s, e) && rules.floatOk(ds);
    PointIff(s, a, q);
    EndsAreParts(s, a, q, f, e, b);
    DigitsIff(s[a..e], ds);
    assert FloatWith(s, a, q, f, e, b, rules);
  }

  lemma {:induction false} EndsAreParts(s: string, a: nat, q: nat, f: nat, e: nat, b: nat)
    requires a < |s| && q == RunEnd(s, a, Decimal) && PointAt(s, a, q) && f == RunEnd(s, q + 1, Decimal)
    requires e == ExponentEnd(s, f) && b == FloatSuffixEnd(s, e)
    ensures FloatText(s, a, q, f, e, b)
  {
    RunEndIs(s, a, Decimal);
    RunEndIs(s, q + 1, Decimal);
    NoUnderscore(s, q + 1);
    EndsTail(s, f, e, b);
  }

  lemma {:induction false} EndsTail(s: string, f: nat, e: nat, b: nat)
    requires f <= |s| && CharAt(s, f) != '_' && e == ExponentEnd(s, f) && b == FloatSuffixEnd(s, e)
    ensures ExponentText(s, f, e) && SuffixText(s, e, b)
  {
    ExponentIff(s, f, e);
    SuffixBehind(s, f, e, b);
  }

  lemma {:induction false} NotLone(s: string, a: nat, q: nat)
    requires a < |s| && '0' <= s[a] <= '9' && Run(s, a, q, Decimal) && PointAt(s, a, q)
    ensures a < q && !LoneZero(s, a) && RadixOf(CharAt(s, a + 1)).None?
  {
    InRunIff(CharAt(s, a + 1), Decimal);
    InRunIff(s[a], Decimal);
    assert s[a + 1] == '.' || RunChar(s[a + 1], Decimal);
  }

  lemma {:induction false} PartsAreFloat(s: string, a: nat, q: nat, f: nat, e: nat, b: nat, rules: Rules)
    requires a < |s| && '0' <= s[a] <= '9' && FloatWith(s, a, q, f, e, b, rules)
    ensures IsFloat(s, a, b, rules)
  {
    var ds :| Squeezed(s[a..e], ds) && rules.floatOk(ds);
    NotLone(s, a, q);
    PointIff(s, a, q);
    DigitsIff(s[a..e], ds);
    PartsAreEnds(s, a, q, f, e, b);
  }

  lemma {:induction false} PartsAreEnds(s: string, a: nat, q: nat, f: nat, e: nat, b: nat)
    requires FloatText(s, a, q, f, e, b)
    ensures a <= |s| && q == RunEnd(s, a, Decimal) && q < |s| && e == FloatTextEnd(s, q) && b == FloatSuffixEnd(s, e)
  {
    RunIff(s, a, q, Decimal);
    FractionEnds(s, q, f, e, b);
  }

  lemma {:induction false} FractionEnds(s: string, q: nat, f: nat, e: nat, b: nat)
    requires q < |s| && Run(s, q + 1, f, Decimal) && ExponentText(s, f, e) && SuffixText(s, e, b)
    ensures e == FloatTextEnd(s, q) && b == FloatSuffixEnd(s, e)
  {
    RunIff(s, q + 1, f, Decimal);
    NoUnderscore(s, q + 1);
    TailEnds(s, f, e, b);
  }

  lemma {:induction false} TailEnds(s: string, f: nat, e: nat, b: nat)
    requires f <= |s| && CharAt(s, f) != '_' && ExponentText(s, f, e) && SuffixText(s, e, b)
    ensures e == ExponentEnd(s, f) && b == FloatSuffixEnd(s, e)
  {
    ExponentIff(s, f, e);
    SuffixBehind(s, f, e, b);
  }

  // ---- All kinds of tokens ----

  ghost predicate QuoteText(s: string, a: nat, b: nat, interp: bool) {
    a < |s| && s[a] == '"' && exists xs :: StringText(s, a + 1, xs, b) && interp == HasCode(xs)
  }

  /** An apostrophe, then a character or an escape, and an apostrophe. */
  ghost predicate TickText(s: string, p: nat, b: nat, byte: bool) {
    p < |s| && s[p] == '\'' && QuotedText(s, p + 1, byte, b)
  }

  /** What is written from `a` to `b` for each kind of token. */
  ghost predicate TokenText(s: string, k: Kind, a: nat, b: nat, rules: Rules) {
    match k
    case Whitespace => a < |s| && b == a + 1 && (s[a] == ' ' || s[a] == '\t' || s[a] == '\r')
    case Newline => a < |s| && b == a + 1 && s[a] == '\n'
    case Comment => LineText(s, a, b) || BlockText(s, a, b)
    case DocComment => DocText(s, a, b)
    case Op(op) => SpellsAt(s, a, b, op) && Longest(s, a, b) && !(s[a] == '/' && (CharAt(s, a + 1) == '/' || CharAt(s, a + 1) == '*'))
    case Str => QuoteText(s, a, b, false)
    case InterpStr => QuoteText(s, a, b, true)
    case RawStr => RawText(s, a, b, 0) || RawText(s, a, b, 1)
    case Char => TickText(s, a, b, false)
    case Byte => a < |s| && s[a] == 'b' && TickText(s, a + 1, b, true)
    case Integer => IntegerText(s, a, b)
    case Float => a < |s| && '0' <= s[a] <= '9' && exists q: nat, f: nat, e: nat :: FloatWith(s, a, q, f, e, b, rules)
    case Eof => a == b == |s|
    case _ => WordOf(s, k, a, b, rules)
  }

  lemma {:induction false} QuoteIff(s: string, a: nat, b: nat, interp: bool)
    ensures a < |s| && s[a] == '"' && StringEnd(s, a + 1, false) == Some((b, interp)) <==> QuoteText(s, a, b, interp)
  {
    StringIff(s, a + 1, b, interp);
  }

  lemma {:induction false} TickIff(s: string, p: nat, b: nat, byte: bool)
    ensures p < |s| && s[p] == '\'' && QuotedEnd(s, p + 1, byte) == Some(b) <==> TickText(s, p, b, byte)
  {
    if p < |s| {
      QuotedIff(s, p + 1, byte, b);
    }
  }

  /**
   A token of a kind goes from `a` to `b` exactly when such a text stands there. The lexer finds
   the one cutting of a text into these.
   */
  lemma {:induction false} TokenIff(s: string, k: Kind, a: nat, b: nat, rules: Rules)
    ensures Lexeme(s, k, a, b, rules) <==> TokenText(s, k, a, b, rules)
  {
    match k
    case Whitespace =>
    case Newline =>
    case Comment =>
      LineIff(s, a, b);
      BlockIff(s, a, b);
    case DocComment => BlockIff(s, a, b);
    case Op(op) => OperatorIff(s, a, b, op);
    case Str => QuoteIff(s, a, b, false);
    case InterpStr => QuoteIff(s, a, b, true);
    case RawStr => RawIff(s, a, b);
    case Char => TickIff(s, a, b, false);
    case Byte => TickIff(s, a + 1, b, true);
    case Integer => IntegerIff(s, a, b);
    case Float => FloatIff(s, a, b, rules);
    case Eof =>
    case _ => WordIff(s, k, a, b, rules);
  }
}
