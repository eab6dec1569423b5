/**
 The lexer as it runs: a cursor over the characters of a text, moved by one reading method
 for each family of tokens. Line and column are not kept.
 */
module Lexer {
  import opened Wrappers
  import opened Lexemes

  class Lexer {
    const chars: string
    const rules: Rules
    var pos: nat
    var start: nat

    constructor (chars: string, rules: Rules)
      ensures this.chars == chars && this.rules == rules && pos == 0
    {
      this.chars, this.rules, pos, start := chars, rules, 0, 0;
    }

    function Peek(): char
      reads this`pos
    {
      CharAt(chars, pos)
    }

    function PeekNext(): char
      reads this`pos
    {
      CharAt(chars, pos + 1)
    }

    method Bump()
      modifies this`pos
      ensures pos == old(pos) + 1
    {
      pos := pos + 1;
    }

    /** At the start of a token that begins with `c`. */
    ghost predicate Ready(c: char)
      reads this`pos, this`start
    {
      pos == start < |chars| && chars[pos] == c
    }

    // ---- Operators ----

    method ReadSlash() returns (op: Operator)
      requires Ready('/')
      modifies this`pos
      ensures Munched(chars, start, pos, op)
    {
      Bump();
      if Peek() == '=' { Bump(); op := SlashEquals; } else { op := Slash; }
    }

    method ReadPlus() returns (op: Operator)
      requires Ready('+')
      modifies this`pos
      ensures Munched(chars, start, pos, op)
    {
      Bump();
      if Peek() == '+' { Bump(); op := PlusPlus; }
      else if Peek() == '=' { Bump(); op := PlusEquals; }
      else { op := Plus; }
    }

    method ReadMinus() returns (op: Operator)
      requires Ready('-')
      modifies this`pos
      ensures Munched(chars, start, pos, op)
    {
      Bump();
      if Peek() == '-' { Bump(); op := MinusMinus; }
      else if Peek() == '=' { Bump(); op := MinusEquals; }
      else if Peek() == '>' { Bump(); op := ThinArrow; }
      else { op := Minus; }
    }

    method ReadStar() returns (op: Operator)
      requires Ready('*')
      modifies this`pos
      ensures Munched(chars, start, pos, op)
    {
      Bump();
      if Peek() == '=' { Bump(); op := StarEquals; } else { op := Star; }
    }

    method ReadPercent() returns (op: Operator)
      requires Ready('%')
      modifies this`pos
      ensures Munched(chars, start, pos, op)
    {
      Bump();
      if Peek() == '=' { Bump(); op := PercentEquals; } else { op := Percent; }
    }

    method ReadEquals() returns (op: Operator)
      requires Ready('=')
      modifies this`pos
      ensures Munched(chars, start, pos, op)
    {
      Bump();
      if Peek() == '=' { Bump(); op := EqualsEquals; }
      else if Peek() == '>' { Bump(); op := FatArrow; }
      else { op := Equals; }
    }

    method ReadBang() returns (op: Operator)
      requires Ready('!')
      modifies this`pos
      ensures Munched(chars, start, pos, op)
    {
      Bump();
      if Peek() == '=' { Bump(); op := BangEquals; }
      else if Peek() == '?' { Bump(); op := QuestionQuestion; }
      else { op := Bang; }
    }

    method ReadLess() returns (op: Operator)
      requires Ready('<')
      modifies this`pos
      ensures Munched(chars, start, pos, op)
    {
      Bump();
      if Peek() == '=' { Bump(); op := LessEquals; }
      else if Peek() == '<' {
        Bump();
        if Peek() == '=' { Bump(); op := LessLessEquals; } else { op := LessLess; }
      } else { op := Less; }
    }

    method ReadGreater() returns (op: Operator)
      requires Ready('>')
      modifies this`pos
      ensures Munched(chars, start, pos, op)
    {
      Bump();
      if Peek() == '=' { Bump(); op := GreaterEquals; }
      else if Peek() == '>' {
        Bump();
        if Peek() == '>' {
          Bump();
          if Peek() == '=' { Bump(); op := GreaterGreaterGreaterEquals; } else { op := GreaterGreaterGreater; }
        } else if Peek() == '=' { Bump(); op := GreaterGreaterEquals; }
        else { op := GreaterGreater; }
      } else { op := Greater; }
    }

    method ReadAmpersand() returns (op: Operator)
      requires Ready('&')
      modifies this`pos
      ensures Munched(chars, start, pos, op)
    {
      Bump();
      if Peek() == '&' { Bump(); op := AmpAmp; }
      else if Peek() == '=' { Bump(); op := AmpersandEquals; }
      else { op := Ampersand; }
    }

    method ReadBar() returns (op: Operator)
      requires Ready('|')
      modifies this`pos
      ensures Munched(chars, start, pos, op)
    {
      Bump();
      if Peek() == '|' { Bump(); op := BarBar; }
      else if Peek() == '=' { Bump(); op := BarEquals; }
      else { op := Bar; }
    }

    method ReadCaret() returns (op: Operator)
      requires Ready('^')
      modifies this`pos
      ensures Munched(chars, start, pos, op)
    {
      Bump();
      if Peek() == '=' { Bump(); op := CaretEquals; } else { op := Caret; }
    }

    method ReadDot() returns (op: Operator)
      requires Ready('.')
      modifies this`pos
      ensures Munched(chars, start, pos, op)
    {
      Bump();
      if Peek() == '.' {
        Bump();
        if Peek() == '.' { Bump(); op := DotDotDot; } else { op := DotDot; }
      } else { op := Dot; }
    }

    method ReadColon() returns (op: Operator)
      requires Ready(':')
      modifies this`pos
      ensures Munched(chars, start, pos, op)
    {
      Bump();
      if Peek() == ':' { Bump(); op := ColonColon; }
      else if Peek() == '=' { Bump(); op := FatArrow; }
      else { op := Colon; }
    }

    method ReadQuestion() returns (op: Operator)
      requires Ready('?')
      modifies this`pos
      ensures Munched(chars, start, pos, op)
    {
      Bump();
      if Peek() == '?' { Bump(); op := QuestionQuestion; }
      else if Peek() == ':' { Bump(); op := QuestionColon; }
      else { op := Question; }
    }

    // ---- Words and comments ----

    method ReadWord()
      requires start == pos < |chars|
      modifies this`pos
      ensures pos == WordEnd(chars, start)
    {
      while WordChar(Peek())
        invariant start <= pos <= |chars| && WordEnd(chars, pos) == WordEnd(chars, start)
        decreases |chars| - pos
      {
        Bump();
      }
    }

    method ReadLineComment()
      requires start == pos && pos + 2 <= |chars|
      modifies this`pos
      ensures pos == LineEnd(chars, start + 2)
    {
      Bump();
      Bump();
      while pos < |chars| && Peek() != '\n'
        invariant start + 2 <= pos <= |chars| && LineEnd(chars, pos) == LineEnd(chars, start + 2)
      {
        Bump();
      }
    }

    method ReadBlockComment() returns (doc: bool)
      requires start == pos && pos + 2 <= |chars| && chars[start] == '/' && chars[start + 1] == '*'
      modifies this`pos
      ensures IsBlockComment(chars, doc, start, pos)
    {
      Bump();
      Bump();
      doc := Peek() == '*';
      if doc {
        Bump();
      }
      ghost var begin := pos;
      while pos < |chars|
        invariant begin <= pos <= |chars| && CommentEnd(chars, pos) == CommentEnd(chars, begin)
      {
        if Peek() == '*' && PeekNext() == '/' {
          Bump();
          Bump();
          return;
        }
        Bump();
      }
    }

    // ---- Escapes, strings, characters ----

    method ReadHexDigit() returns (d: Option<nat>)
      modifies this`pos
      ensures d == HexValue(CharAt(chars, old(pos))) && pos == old(pos) + 1
    {
      d := HexValue(Peek());
      Bump();
    }

    method ReadHex(n: nat) returns (r: Option<nat>)
      requires pos <= |chars|
      modifies this`pos
      ensures pos >= old(pos)
      ensures r.Some? ==> HexRun(chars, old(pos), n, 0) == Some((pos, r.value))
      ensures r.None? ==> HexRun(chars, old(pos), n, 0).None?
    {
      var v: nat, i := 0, 0;
      while i < n
        invariant 0 <= i <= n && old(pos) <= pos <= |chars|
        invariant HexRun(chars, pos, n - i, v) == HexRun(chars, old(pos), n, 0)
      {
        var d := ReadHexDigit();
        if d.None? { return None; }
        v, i := v * 16 + d.value, i + 1;
      }
      r := Some(v);
    }

    method ReadBraced() returns (ok: bool)
      requires pos <= |chars|
      modifies this`pos
      ensures pos >= old(pos)
      ensures ok ==> UnicodeEnd(chars, old(pos)) == Some(pos)
      ensures !ok ==> UnicodeEnd(chars, old(pos)).None?
    {
      if Peek() != '{' { return false; }
      Bump();
      ghost var begin := pos;
      var v: nat, count := 0, 0;
      while Peek() != '}' && count < 6
        invariant 0 <= count <= 6 && begin <= pos <= |chars|
        invariant BracedHex(chars, pos, 6 - count, v) == BracedHex(chars, begin, 6, 0)
        decreases 6 - count
      {
        var d := ReadHexDigit();
        if d.None? { return false; }
        v, count := v * 16 + d.value, count + 1;
      }
      if Peek() != '}' { return false; }
      Bump();
      ok := Scalar(v);
    }

    method ReadEscape() returns (ok: bool)
      requires pos <= |chars|
      modifies this`pos
      ensures pos >= old(pos)
      ensures ok ==> EscapeEnd(chars, old(pos)) == Some(pos)
      ensures !ok ==> EscapeEnd(chars, old(pos)).None?
    {
      var ch := Peek();
      Bump();
      if ch == 'n' || ch == 't' || ch == 'r' || ch == '\\' || ch == '"' || ch == '\'' || ch == '0' {
        return true;
      }
      if ch == 'x' {
        var v := ReadHex(2);
        return v.Some? && Scalar(v.value);
      }
      if ch == 'u' {
        ok := ReadBraced();
        return;
      }
      if ch == 'U' {
        var v := ReadHex(8);
        return v.Some? && Scalar(v.value);
      }
      return false;
    }

    method SkipInterpolation()
      requires pos <= |chars|
      modifies this`pos
      ensures pos == InterpEnd(chars, old(pos), 1)
    {
      var depth := 1;
      while pos < |chars| && depth > 0
        invariant old(pos) <= pos <= |chars| && depth >= 1
        invariant InterpEnd(chars, pos, depth) == InterpEnd(chars, old(pos), 1)
        decreases |chars| - pos
      {
        var c := Peek();
        if c == '{' { depth := depth + 1; }
        if c == '}' {
          if depth == 1 {
            Bump();
            return;
          }
          depth := depth - 1;
        }
        Bump();
      }
    }

    /** One character of a string, escape or interpolation. */
    method ReadStringItem(before: bool) returns (ok: bool, interp: bool)
      requires pos < |chars| && chars[pos] != '"'
      modifies this`pos
      ensures ok ==> old(pos) < pos <= |chars| && StringEnd(chars, pos, interp) == StringEnd(chars, old(pos), before)
      ensures !ok ==> pos >= old(pos) && StringEnd(chars, old(pos), before).None?
    {
      ok, interp := true, before;
      var ch := Peek();
      if ch == '\n' { return false, before; }
      if ch == '$' && PeekNext() == '{' {
        StringEndInterp(chars, pos, interp);
        interp := true;
        Bump();
        Bump();
        SkipInterpolation();
      } else if ch == '\\' {
        StringEndEscape(chars, pos, interp);
        Bump();
        if pos >= |chars| { return false, before; }
        ok := ReadEscape();
      } else {
        StringEndChar(chars, pos, interp);
        Bump();
      }
    }

    method ReadString() returns (r: Option<bool>)
      requires Ready('"')
      modifies this`pos
      ensures pos > start
      ensures r.Some? ==> StringEnd(chars, start + 1, false) == Some((pos, r.value))
      ensures r.None? ==> StringEnd(chars, start + 1, false).None?
    {
      Bump();
      var interp := false;
      while pos < |chars| && Peek() != '"'
        invariant start < pos <= |chars| && StringEnd(chars, pos, interp) == StringEnd(chars, start + 1, false)
        decreases |chars| - pos
      {
        var ok;
        ok, interp := ReadStringItem(interp);
        if !ok { return None; }
      }
      if pos >= |chars| { return None; }
      Bump();
      r := Some(interp);
    }

    method CountHashes(n: nat) returns (p: nat)
      ensures p == HashEnd(chars, pos + 1, n)
    {
      p := pos + 1;
      var h := 0;
      while h < n && CharAt(chars, p) == '#'
        invariant 0 <= h <= n && p == pos + 1 + h && HashEnd(chars, p, n - h) == HashEnd(chars, pos + 1, n)
      {
        h, p := h + 1, p + 1;
      }
    }

    method ReadRawString() returns (ok: bool)
      requires start == pos < |chars| && RawStart(chars, start)
      modifies this`pos
      ensures pos > start
      ensures ok ==> IsRaw(chars, start, pos)
      ensures !ok ==> forall b :: !IsRaw(chars, start, b)
    {
      Bump();
      var hashes := 0;
      if Peek() == '#' {
        Bump();
        hashes := 1;
      }
      Bump();
      ghost var begin := pos;
      while pos < |chars|
        invariant begin <= pos && RawEnd(chars, pos, hashes) == RawEnd(chars, begin, hashes)
        decreases |chars| - pos
      {
        if Peek() == '"' {
          var check := CountHashes(hashes);
          if check == pos + 1 + hashes {
            pos := check;
            return true;
          }
        }
        Bump();
      }
      return false;
    }

    method ReadQuoted(byte: bool) returns (ok: bool)
      requires start <= pos < |chars|
      modifies this`pos
      ensures pos > old(pos)
      ensures ok ==> QuotedEnd(chars, old(pos) + 1, byte) == Some(pos)
      ensures !ok ==> QuotedEnd(chars, old(pos) + 1, byte).None?
    {
      Bump();
      if pos < |chars| && Peek() == '\\' {
        Bump();
        var escaped := ReadEscape();
        if !escaped { return false; }
      } else {
        var ch := Peek();
        if ch == '\'' || (byte && ch as nat > 127) { return false; }
        Bump();
      }
      if Peek() != '\'' { return false; }
      Bump();
      return true;
    }

    // ---- Numbers ----

    method ReadRun(r: Radix)
      requires pos <= |chars|
      modifies this`pos
      ensures pos == RunEnd(chars, old(pos), r)
    {
      while InRun(Peek(), r)
        invariant old(pos) <= pos <= |chars| && RunEnd(chars, pos, r) == RunEnd(chars, old(pos), r)
        decreases |chars| - pos
      {
        Bump();
      }
    }

    /** A suffix is read and given back, so only an underscore before a missing suffix would be taken. */
    method ReadIntSuffix()
      modifies this`pos
      ensures CharAt(chars, old(pos)) != '_' ==> pos == old(pos)
    {
      var begin := pos;
      if Peek() == '_' {
        Bump();
      }
      var n := SuffixLength(chars, pos);
      if n > 0 {
        pos := begin;
      }
    }

    method ReadFloatSuffix()
      requires pos <= |chars|
      modifies this`pos
      ensures pos == FloatSuffixEnd(chars, old(pos))
    {
      if Peek() == '_' {
        Bump();
      }
      if Peek() == 'f' && ((PeekNext() == '3' && CharAt(chars, pos + 2) == '2') || (PeekNext() == '6' && CharAt(chars, pos + 2) == '4')) {
        Bump();
        Bump();
        Bump();
      }
    }

    method ReadRadix(r: Radix) returns (ok: bool)
      requires start == pos && start + 2 <= |chars|
      modifies this`pos
      ensures pos == RunEnd(chars, start + 2, r) && ok == IntegerOk(Digits(chars[start + 2..pos]), r)
    {
      Bump();
      Bump();
      ReadRun(r);
      ok := IntegerOk(Digits(chars[start + 2..pos]), r);
    }

    /** Behind the run of digits of a float: point, fraction, exponent and suffix. */
    method ReadFraction() returns (ok: bool)
      requires start < pos < |chars|
      modifies this`pos
      ensures pos == FloatSuffixEnd(chars, FloatTextEnd(chars, old(pos)))
      ensures ok == rules.floatOk(Digits(chars[start..FloatTextEnd(chars, old(pos))]))
    {
      Bump();
      ReadRun(Decimal);
      if Peek() == 'e' || Peek() == 'E' {
        Bump();
        if Peek() == '+' || Peek() == '-' {
          Bump();
        }
        ReadRun(Decimal);
      }
      var end := pos;
      ReadFloatSuffix();
      ok := rules.floatOk(Digits(chars[start..end]));
    }

    /** What the text says a number is: the kind and end of it, if it is one. */
    ghost predicate NumberRead(r: Option<Kind>)
      reads this`pos, this`start
    {
      && (r.Some? ==> (r.value == Integer && IsInteger(chars, start, pos)) || (r.value == Float && IsFloat(chars, start, pos, rules)))
      && (r.None? ==> forall b :: !IsInteger(chars, start, b) && !IsFloat(chars, start, b, rules))
    }

    method ReadNumber() returns (r: Option<Kind>)
      requires start == pos < |chars| && Digit(chars[start])
      modifies this`pos
      ensures pos > start && NumberRead(r)
    {
      if Peek() == '0' && RadixOf(PeekNext()).Some? {
        var ok := ReadRadix(RadixOf(PeekNext()).value);
        return if ok then Some(Integer) else None;
      }
      if LoneZero(chars, pos) {
        Bump();
        return Some(Integer);
      }
      ReadRun(Decimal);
      RunStops(chars, start, Decimal);
      if FloatFollows(chars, start, pos) {
        var ok := ReadFraction();
        return if ok then Some(Float) else None;
      }
      ReadIntSuffix();
      var ok := IntegerOk(Digits(chars[start..pos]), Decimal);
      return if ok then Some(Integer) else None;
    }

    // ---- Dispatch ----

    /** A token from `start` to the cursor, or none that starts there. */
    ghost predicate Outcome(r: Option<Kind>)
      reads this`pos, this`start
    {
      && pos > start
      && (r.Some? ==> Lexeme(chars, r.value, start, pos, rules))
      && (r.None? ==> NoLexeme(chars, start, rules))
    }

    method ReadSign() returns (op: Operator)
      requires start == pos < |chars| && LeadOf(chars, start) == Sign
      modifies this`pos
      ensures Munched(chars, start, pos, op)
    {
      var c := Peek();
      if c == '/' { op := ReadSlash(); }
      else if c == '+' { op := ReadPlus(); }
      else if c == '-' { op := ReadMinus(); }
      else if c == '*' { op := ReadStar(); }
      else if c == '%' { op := ReadPercent(); }
      else if c == '=' { op := ReadEquals(); }
      else if c == '!' { op := ReadBang(); }
      else if c == '<' { op := ReadLess(); }
      else if c == '>' { op := ReadGreater(); }
      else if c == '&' { op := ReadAmpersand(); }
      else if c == '|' { op := ReadBar(); }
      else if c == '^' { op := ReadCaret(); }
      else if c == '.' { op := ReadDot(); }
      else if c == ':' { op := ReadColon(); }
      else if c == '?' { op := ReadQuestion(); }
      else {
        op := Op1(c).value;
        Bump();
      }
    }

    method ReadComment() returns (k: Kind)
      requires start == pos < |chars| && CommentStart(chars, start)
      modifies this`pos
      ensures pos > start && Lexeme(chars, k, start, pos, rules)
    {
      if PeekNext() == '/' {
        ReadLineComment();
        k := Comment;
      } else {
        var doc := ReadBlockComment();
        k := if doc then DocComment else Comment;
      }
    }

    /** Literals that start with a quote or a digit, or with a prefix and a quote. */
    method ReadLiteral() returns (r: Option<Kind>)
      requires start == pos < |chars|
      requires LeadOf(chars, start) in {Quote, Raw, Tick, ByteTick, Number}
      modifies this`pos
      ensures Outcome(r)
    {
      NoOther(chars, start, rules);
      var lead := LeadOf(chars, start);
      if lead == Quote {
        var interp := ReadString();
        r := if interp.None? then None else if interp.value then Some(InterpStr) else Some(Str);
      } else if lead == Raw {
        var ok := ReadRawString();
        r := if ok then Some(RawStr) else None;
      } else if lead == Tick {
        var ok := ReadQuoted(false);
        r := if ok then Some(Char) else None;
      } else if lead == ByteTick {
        Bump();
        var ok := ReadQuoted(true);
        r := if ok then Some(Byte) else None;
      } else {
        r := ReadNumber();
      }
    }

    /** `next_token` before the end of the text. */
    method ReadToken() returns (r: Option<Kind>)
      requires start == pos < |chars|
      modifies this`pos
      ensures Outcome(r)
    {
      var lead := LeadOf(chars, start);
      if lead == Break {
        Bump();
        r := Some(Newline);
      } else if lead == Space {
        Bump();
        r := Some(Whitespace);
      } else if lead == LineRemark || lead == BlockRemark {
        var k := ReadComment();
        r := Some(k);
      } else if lead == Word {
        ReadWord();
        r := Some(WordKind(chars[start..pos], rules));
      } else if lead == Sign {
        var op := ReadSign();
        r := Some(Op(op));
      } else if lead == Nothing {
        NoOther(chars, start, rules);
        Bump();
        r := None;
      } else {
        r := ReadLiteral();
      }
    }

    /** `next_token` */
    method NextToken() returns (r: Option<Token>)
      modifies this
      ensures start == old(pos)
      ensures old(pos) >= |chars| ==> pos == start && r == Some(Token(Eof, start, start))
      ensures old(pos) < |chars| ==>
                && pos > start
                && (r.Some? ==> && r.value.from == start && r.value.to == pos && r.value.kind != Eof
                                && Lexeme(chars, r.value.kind, start, pos, rules))
                && (r.None? ==> NoLexeme(chars, start, rules))
    {
      start := pos;
      if pos >= |chars| {
        return Some(Token(Eof, start, pos));
      }
      var k := ReadToken();
      r := if k.None? then None else Some(Token(k.value, start, pos));
    }
  }

  /** Only kinds that the first characters allow. */
  lemma {:induction false} NoOther(s: string, a: nat, rules: Rules)
    requires a <= |s|
    ensures forall k, b :: Lexeme(s, k, a, b, rules) ==> Leads(s, k, a)
  {
    forall k, b | Lexeme(s, k, a, b, rules) ensures Leads(s, k, a) {
      LexemeLeads(s, k, a, b, rules);
    }
  }

  /** No token starts here. */
  ghost predicate NoLexeme(s: string, a: nat, rules: Rules) { forall k, b :: !Lexeme(s, k, a, b, rules) }

  lemma {:induction false} RunStops(s: string, p: nat, r: Radix)
    requires p <= |s|
    ensures !InRun(CharAt(s, RunEnd(s, p, r)), r) && (p < |s| && InRun(s[p], r) ==> RunEnd(s, p, r) > p)
    decreases |s| - p
  {
    if p < |s| && InRun(s[p], r) {
      RunStops(s, p + 1, r);
    }
  }

  // ---- The loop ----

  /** Tokens side by side from the start of the text to `p`. */
  ghost predicate TilesTo(s: string, all: seq<Token>, p: nat, rules: Rules) {
    && p <= |s| && (if all == [] then p == 0 else all[0].from == 0 && all[|all| - 1].to == p)
    && SideBySide(all)
    && (forall i :: 0 <= i < |all| ==> all[i].from < all[i].to)
    && AllLexemes(s, all, rules)
  }

  lemma {:induction false} TilesMore(s: string, all: seq<Token>, t: Token, rules: Rules)
    requires TilesTo(s, all, t.from, rules) && t.from < t.to <= |s| && Lexeme(s, t.kind, t.from, t.to, rules)
    ensures TilesTo(s, all + [t], t.to, rules)
  {
    SideBySideMore(all, t);
    AllLexemesMore(s, all, t, rules);
  }

  lemma {:induction false} TilesDone(s: string, all: seq<Token>, rules: Rules)
    requires TilesTo(s, all, |s|, rules)
    ensures Tiles(s, all + [Token(Eof, |s|, |s|)], rules)
  {
    SideBySideMore(all, Token(Eof, |s|, |s|));
    AllLexemesMore(s, all, Token(Eof, |s|, |s|), rules);
  }

  lemma {:induction false} LexemeInBounds(s: string, k: Kind, a: nat, b: nat, rules: Rules)
    requires a < |s| && Lexeme(s, k, a, b, rules)
    ensures b <= |s|
  {
    if k == RawStr {
      RawInBounds(s, a + 2, 0);
      RawInBounds(s, a + 3, 1);
    }
  }

  lemma {:induction false} RawInBounds(s: string, p: nat, n: nat)
    ensures RawEnd(s, p, n).Some? ==> RawEnd(s, p, n).value <= |s|
    decreases |s| - p
  {
    if p < |s| {
      RawInBounds(s, p + 1, n);
      HashInBounds(s, p + 1, n);
    }
  }

  lemma {:induction false} HashInBounds(s: string, p: nat, n: nat)
    ensures p <= |s| ==> HashEnd(s, p, n) <= |s|
    decreases n
  {
    if n > 0 {
      HashInBounds(s, p + 1, n - 1);
    }
  }

  /** A tiling of the text starts with the tokens found so far. */
  lemma {:induction false} PrefixAgrees(s: string, all: seq<Token>, p: nat, other: seq<Token>, rules: Rules, i: nat)
    requires TilesTo(s, all, p, rules) && Tiles(s, other, rules) && i < |all|
    ensures i + 1 < |other| && all[i] == other[i]
    decreases i
  {
    if i > 0 {
      PrefixAgrees(s, all, p, other, rules, i - 1);
      assert Touch(all, i - 1) && Touch(other, i - 1);
    }
    TilesInBounds(s, other, rules, i);
    assert TokenAt(s, all, i, rules) && TokenAt(s, other, i, rules);
    LexemeOnce(s, all[i].from, all[i].kind, all[i].to, other[i].kind, other[i].to, rules);
  }

  /** In a tiling a token starts where the tokens found so far end. */
  lemma {:induction false} NextInTiling(s: string, all: seq<Token>, p: nat, rules: Rules, other: seq<Token>)
    requires TilesTo(s, all, p, rules) && Tiles(s, other, rules)
    ensures exists k, b :: Lexeme(s, k, p, b, rules)
  {
    if all != [] {
      PrefixAgrees(s, all, p, other, rules, |all| - 1);
      assert Touch(other, |all| - 1);
    }
    var t := other[|all|];
    assert t.from == p && TokenAt(s, other, |all|, rules);
    assert Lexeme(s, t.kind, p, t.to, rules);
  }

  /** Where no token starts the text has no tiling. */
  lemma {:induction false} NoTiling(s: string, all: seq<Token>, p: nat, rules: Rules, other: seq<Token>)
    requires TilesTo(s, all, p, rules) && NoLexeme(s, p, rules)
    ensures !Tiles(s, other, rules)
  {
    if Tiles(s, other, rules) {
      NextInTiling(s, all, p, rules, other);
    }
  }

  lemma {:induction false} NoTilings(s: string, all: seq<Token>, p: nat, rules: Rules)
    requires TilesTo(s, all, p, rules) && NoLexeme(s, p, rules)
    ensures forall other :: !Tiles(s, other, rules)
  {
    forall other ensures !Tiles(s, other, rules) {
      NoTiling(s, all, p, rules, other);
    }
  }

  /**
   `tokenize`: it ends on every text. It succeeds exactly when the text can be cut into
   tokens, and then gives the tokens of that tiling other than blanks, newlines and comments.
   */
  method Tokenize(s: string, rules: Rules) returns (ok: bool, tokens: seq<Token>, ghost all: seq<Token>)
    ensures ok ==> Tiles(s, all, rules) && tokens == Solid(all)
    ensures !ok ==> forall other :: !Tiles(s, other, rules)
  {
    var lexer := new Lexer(s, rules);
    ok, tokens, all := true, [], [];
    var done := false;
    while !done
      invariant lexer.chars == s && lexer.rules == rules && fresh(lexer)
      invariant !done && ok ==> TilesTo(s, all, lexer.pos, rules) && tokens == Solid(all)
      invariant done && ok ==> Tiles(s, all, rules) && tokens == Solid(all)
      invariant !ok ==> forall other :: !Tiles(s, other, rules)
      decreases if done then 0 else 1, if lexer.pos < |s| then |s| - lexer.pos else 0
    {
      var t := lexer.NextToken();
      if t.None? {
        if ok {
          NoTilings(s, all, lexer.start, rules);
        }
        ok := false;
        lexer.pos := lexer.pos + 1;
      } else {
        if t.value.kind == Eof {
          if ok { TilesDone(s, all, rules); }
          done := true;
        } else if ok {
          LexemeInBounds(s, t.value.kind, t.value.from, t.value.to, rules);
          TilesMore(s, all, t.value, rules);
        }
        assert (all + [t.value])[..|all|] == all;
        all := all + [t.value];
        if !Trivia(t.value.kind) {
          tokens := tokens + [t.value];
        }
      }
    }
  }
}
