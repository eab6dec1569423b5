/**
 What the tokens of the language look like: for every kind of token, which stretch of the
 text it is. Positions are offsets in characters; behind the last character a NUL is read.
 */
module Lexemes {
  import opened Wrappers

  datatype Operator =
    | Plus | Minus | Star | Slash | Percent | Equals | EqualsEquals | Bang | BangEquals | Less | LessEquals
    | Greater | GreaterEquals | AmpAmp | BarBar | Caret | Tilde | Ampersand | Bar | LessLess | GreaterGreater
    | GreaterGreaterGreater | PlusPlus | MinusMinus | PlusEquals | MinusEquals | StarEquals | SlashEquals
    | PercentEquals | AmpersandEquals | BarEquals | CaretEquals | LessLessEquals | GreaterGreaterEquals
    | GreaterGreaterGreaterEquals | Dot | DotDot | DotDotDot | Colon | ColonColon | Semicolon | Comma | At
    | Question | QuestionQuestion | QuestionColon | FatArrow | ThinArrow | Backslash
    | LParen | RParen | LBrace | RBrace | LBracket | RBracket

  // ---- Operators ----

  function Op1(c: char): Option<Operator> {
    match c
    case '+' => Some(Plus)
    case '-' => Some(Minus)
    case '*' => Some(Star)
    case '/' => Some(Slash)
    case '%' => Some(Percent)
    case '=' => Some(Equals)
    case '!' => Some(Bang)
    case '<' => Some(Less)
    case '>' => Some(Greater)
    case '&' => Some(Ampersand)
    case '|' => Some(Bar)
    case '^' => Some(Caret)
    case '~' => Some(Tilde)
    case '\\' => Some(Backslash)
    case '.' => Some(Dot)
    case ':' => Some(Colon)
    case ';' => Some(Semicolon)
    case ',' => Some(Comma)
    case '@' => Some(At)
    case '?' => Some(Question)
    case '(' => Some(LParen)
    case ')' => Some(RParen)
    case '{' => Some(LBrace)
    case '}' => Some(RBrace)
    case '[' => Some(LBracket)
    case ']' => Some(RBracket)
    case _ => None
  }

  function Op2(c: char, d: char): Option<Operator> {
    if d == '=' then
      match c
      case '+' => Some(PlusEquals)
      case '-' => Some(MinusEquals)
      case '*' => Some(StarEquals)
      case '/' => Some(SlashEquals)
      case '%' => Some(PercentEquals)
      case '=' => Some(EqualsEquals)
      case '!' => Some(BangEquals)
      case '<' => Some(LessEquals)
      case '>' => Some(GreaterEquals)
      case '&' => Some(AmpersandEquals)
      case '|' => Some(BarEquals)
      case '^' => Some(CaretEquals)
      case ':' => Some(FatArrow)
      case _ => None
    else if c == d then
      match c
      case '+' => Some(PlusPlus)
      case '-' => Some(MinusMinus)
      case '<' => Some(LessLess)
      case '>' => Some(GreaterGreater)
      case '&' => Some(AmpAmp)
      case '|' => Some(BarBar)
      case '.' => Some(DotDot)
      case ':' => Some(ColonColon)
      case '?' => Some(QuestionQuestion)
      case _ => None
    else if c == '-' && d == '>' then Some(ThinArrow)
    else if c == '=' && d == '>' then Some(FatArrow)
    else if c == '!' && d == '?' then Some(QuestionQuestion)
    else if c == '?' && d == ':' then Some(QuestionColon)
    else None
  }

  function Op3(c: char, d: char, e: char): Option<Operator> {
    if c == '<' && d == '<' && e == '=' then Some(LessLessEquals)
    else if c == '>' && d == '>' && e == '>' then Some(GreaterGreaterGreater)
    else if c == '>' && d == '>' && e == '=' then Some(GreaterGreaterEquals)
    else if c == '.' && d == '.' && e == '.' then Some(DotDotDot)
    else None
  }

  function Op4(c: char, d: char, e: char, f: char): Option<Operator> {
    if c == '>' && d == '>' && e == '>' && f == '=' then Some(GreaterGreaterGreaterEquals) else None
  }

  /** The operator spelled by `n` characters. */
  function OpAt(s: string, p: nat, n: nat): Option<Operator>
    requires p + n <= |s|
  {
    if n == 1 then Op1(s[p])
    else if n == 2 then Op2(s[p], s[p + 1])
    else if n == 3 then Op3(s[p], s[p + 1], s[p + 2])
    else if n == 4 then Op4(s[p], s[p + 1], s[p + 2], s[p + 3])
    else None
  }

  /** The longest operator at `a` ends at `b`. */
  predicate Munched(s: string, a: nat, b: nat, op: Operator) {
    && a < b <= |s| && OpAt(s, a, b - a) == Some(op)
    && forall n :: b - a < n <= |s| - a ==> OpAt(s, a, n).None?
  }

  // ---- Characters ----

  function CharAt(s: string, p: nat): char { if p < |s| then s[p] else '\0' }

  predicate Digit(c: char) { '0' <= c <= '9' }

  predicate WordStart(c: char) { 'a' <= c <= 'z' || 'A' <= c <= 'Z' || c == '_' }

  predicate WordChar(c: char) { WordStart(c) || Digit(c) }

  predicate Blank(c: char) { c == ' ' || c == '\t' || c == '\r' }

  function HexValue(c: char): Option<nat> {
    if Digit(c) then Some(c as nat - '0' as nat)
    else if 'a' <= c <= 'f' then Some(c as nat - 'a' as nat + 10)
    else if 'A' <= c <= 'F' then Some(c as nat - 'A' as nat + 10)
    else None
  }

  /** Numbers that are characters. */
  predicate Scalar(n: nat) { n < 0xD800 || 0xE000 <= n < 0x11_0000 }

  // ---- Words, comments ----

  /** Where the word characters from `p` on end. */
  function WordEnd(s: string, p: nat): (q: nat)
    requires p <= |s|
    ensures p <= q <= |s|
    decreases |s| - p
  {
    if p < |s| && WordChar(s[p]) then WordEnd(s, p + 1) else p
  }

  function LineEnd(s: string, p: nat): (q: nat)
    requires p <= |s|
    ensures p <= q <= |s|
    decreases |s| - p
  {
    if p < |s| && s[p] != '\n' then LineEnd(s, p + 1) else p
  }

  /** Behind the first `*` `/` at or behind `p`, or the end of the text. */
  function CommentEnd(s: string, p: nat): (q: nat)
    requires p <= |s|
    ensures p <= q <= |s|
    decreases |s| - p
  {
    if p == |s| then p
    else if s[p] == '*' && CharAt(s, p + 1) == '/' then p + 2
    else CommentEnd(s, p + 1)
  }

  // ---- Strings ----

  /** Behind `n` hexadecimal digits, and the number they make behind `v`. */
  function HexRun(s: string, p: nat, n: nat, v: nat): (r: Option<(nat, nat)>)
    requires p <= |s|
    ensures r.Some? ==> p <= r.value.0 <= |s|
    decreases n, |s|
  {
    if n == 0 then Some((p, v))
    else if HexValue(CharAt(s, p)).None? then None
    else HexRun(s, p + 1, n - 1, v * 16 + HexValue(CharAt(s, p)).value)
  }

  /** Up to `n` digits before a closing brace. */
  function BracedHex(s: string, p: nat, n: nat, v: nat): (r: Option<(nat, nat)>)
    requires p <= |s|
    ensures r.Some? ==> p <= r.value.0 <= |s|
    decreases n, |s|
  {
    if n == 0 || CharAt(s, p) == '}' then Some((p, v))
    else if HexValue(CharAt(s, p)).None? then None
    else BracedHex(s, p + 1, n - 1, v * 16 + HexValue(CharAt(s, p)).value)
  }

  function IfScalar(r: Option<(nat, nat)>): Option<nat> {
    if r.None? || !Scalar(r.value.1) then None else Some(r.value.0)
  }

  function UnicodeEnd(s: string, p: nat): (r: Option<nat>)
    requires p <= |s|
    ensures r.Some? ==> p < r.value <= |s|
  {
    if CharAt(s, p) != '{' then None
    else
      var r := BracedHex(s, p + 1, 6, 0);
      if r.None? || CharAt(s, r.value.0) != '}' || !Scalar(r.value.1) then None else Some(r.value.0 + 1)
  }

  /** Behind an escape whose letter is at `p`. */
  function EscapeEnd(s: string, p: nat): (r: Option<nat>)
    requires p <= |s|
    ensures r.Some? ==> p < r.value <= |s|
  {
    var c := CharAt(s, p);
    if c == 'n' || c == 't' || c == 'r' || c == '\\' || c == '"' || c == '\'' || c == '0' then Some(p + 1)
    else if c == 'x' then IfScalar(HexRun(s, p + 1, 2, 0))
    else if c == 'u' then UnicodeEnd(s, p + 1)
    else if c == 'U' then IfScalar(HexRun(s, p + 1, 8, 0))
    else None
  }

  /** Behind the brace that closes `depth` open ones, or the end of the text. */
  function InterpEnd(s: string, p: nat, depth: nat): (q: nat)
    requires p <= |s|
    ensures p <= q <= |s|
    decreases |s| - p
  {
    if p == |s| || depth == 0 then p
    else if s[p] == '{' then InterpEnd(s, p + 1, depth + 1)
    else if s[p] == '}' then (if depth == 1 then p + 1 else InterpEnd(s, p + 1, depth - 1))
    else InterpEnd(s, p + 1, depth)
  }

  /** Behind the quote that closes a string from `p` on, and whether it has an interpolation. */
  function StringEnd(s: string, p: nat, interp: bool): (r: Option<(nat, bool)>)
    ensures r.Some? ==> p < r.value.0 <= |s| && s[r.value.0 - 1] == '"'
    decreases |s| - p
  {
    if p >= |s| then None
    else if s[p] == '"' then Some((p + 1, interp))
    else if s[p] == '\n' then None
    else if s[p] == '$' && CharAt(s, p + 1) == '{' then StringEnd(s, InterpEnd(s, p + 2, 1), true)
    else if s[p] == '\\' then
      var e := EscapeEnd(s, p + 1);
      if e.None? then None else StringEnd(s, e.value, interp)
    else StringEnd(s, p + 1, interp)
  }

  lemma {:induction false} StringEndInterp(s: string, p: nat, interp: bool)
    requires p < |s| && s[p] == '$' && CharAt(s, p + 1) == '{'
    ensures StringEnd(s, p, interp) == StringEnd(s, InterpEnd(s, p + 2, 1), true)
  {
  }

  lemma {:induction false} StringEndEscape(s: string, p: nat, interp: bool)
    requires p < |s| && s[p] == '\\'
    ensures EscapeEnd(s, p + 1).None? ==> StringEnd(s, p, interp).None?
    ensures EscapeEnd(s, p + 1).Some? ==> StringEnd(s, p, interp) == StringEnd(s, EscapeEnd(s, p + 1).value, interp)
  {
  }

  lemma {:induction false} StringEndChar(s: string, p: nat, interp: bool)
    requires p < |s| && s[p] != '"' && s[p] != '\n' && s[p] != '\\' && !(s[p] == '$' && CharAt(s, p + 1) == '{')
    ensures StringEnd(s, p, interp) == StringEnd(s, p + 1, interp)
  {
  }

  function HashEnd(s: string, p: nat, n: nat): (q: nat)
    ensures p <= q <= p + n
    decreases n
  {
    if n > 0 && CharAt(s, p) == '#' then HashEnd(s, p + 1, n - 1) else p
  }

  /** Behind the first quote at or behind `p` that `n` hashes follow. */
  function RawEnd(s: string, p: nat, n: nat): (r: Option<nat>)
    ensures r.Some? ==> p < r.value
    decreases |s| - p
  {
    if p >= |s| then None
    else if s[p] == '"' && HashEnd(s, p + 1, n) == p + 1 + n then Some(p + 1 + n)
    else RawEnd(s, p + 1, n)
  }

  /** Behind a quoted character from `p` on; a byte is at most 127 unless escaped. */
  function QuotedEnd(s: string, p: nat, byte: bool): (r: Option<nat>)
    requires p <= |s|
    ensures r.Some? ==> p < r.value <= |s|
  {
    if p < |s| && s[p] == '\\' then
      var e := EscapeEnd(s, p + 1);
      if e.None? || CharAt(s, e.value) != '\'' then None else Some(e.value + 1)
    else if CharAt(s, p) == '\'' || (byte && CharAt(s, p) as nat > 127) || CharAt(s, p + 1) != '\'' then None
    else Some(p + 2)
  }

  // ---- Numbers ----

  datatype Radix = Decimal | Hex | Octal | Binary

  predicate InRun(c: char, r: Radix) {
    c == '_' ||
    match r
    case Decimal => Digit(c)
    case Hex => HexValue(c).Some?
    case Octal => '0' <= c <= '7'
    case Binary => c == '0' || c == '1'
  }

  function RunEnd(s: string, p: nat, r: Radix): (q: nat)
    requires p <= |s|
    ensures p <= q <= |s|
    decreases |s| - p
  {
    if p < |s| && InRun(s[p], r) then RunEnd(s, p + 1, r) else p
  }

  function Base(r: Radix): nat {
    match r
    case Decimal => 10
    case Hex => 16
    case Octal => 8
    case Binary => 2
  }

  /** The text without underscores. */
  function Digits(s: string): string {
    if s == [] then [] else Digits(s[..|s| - 1]) + if s[|s| - 1] == '_' then [] else [s[|s| - 1]]
  }

  function NumberOf(ds: string, base: nat): nat {
    if ds == [] then 0
    else
      var v := HexValue(ds[|ds| - 1]);
      NumberOf(ds[..|ds| - 1], base) * base + if v.Some? then v.value else 0
  }

  /** `i64` parsing: there is a digit and the number fits. */
  predicate IntegerOk(ds: string, r: Radix) { ds != [] && NumberOf(ds, Base(r)) < 0x8000_0000_0000_0000 }

  function RadixOf(c: char): Option<Radix> {
    if c == 'x' || c == 'X' then Some(Hex)
    else if c == 'o' || c == 'O' then Some(Octal)
    else if c == 'b' || c == 'B' then Some(Binary)
    else None
  }

  /** A zero that no digit, point or underscore follows. */
  predicate LoneZero(s: string, a: nat) {
    var c := CharAt(s, a + 1);
    CharAt(s, a) == '0' && !Digit(c) && c != '.' && c != '_' && RadixOf(c).None?
  }

  /** A point and a digit behind the run, unless the number is itself behind a point. */
  predicate FloatFollows(s: string, a: nat, q: nat) {
    !(0 < a <= |s| && s[a - 1] == '.') && CharAt(s, q) == '.' && (Digit(CharAt(s, q + 1)) || CharAt(s, q + 1) == '_')
  }

  function ExponentEnd(s: string, p: nat): (q: nat)
    requires p <= |s|
    ensures p <= q <= |s|
  {
    if CharAt(s, p) == 'e' || CharAt(s, p) == 'E' then
      RunEnd(s, if CharAt(s, p + 1) == '+' || CharAt(s, p + 1) == '-' then p + 2 else p + 1, Decimal)
    else p
  }

  /** The text of a float ends here; `q` is where its point is. */
  function FloatTextEnd(s: string, q: nat): (e: nat)
    requires q < |s|
    ensures q < e <= |s|
  {
    ExponentEnd(s, RunEnd(s, q + 1, Decimal))
  }

  function FloatSuffixEnd(s: string, p: nat): (q: nat)
    requires p <= |s|
    ensures p <= q <= |s|
  {
    var b := if CharAt(s, p) == '_' then p + 1 else p;
    if CharAt(s, b) == 'f' && ((CharAt(s, b + 1) == '3' && CharAt(s, b + 2) == '2') || (CharAt(s, b + 1) == '6' && CharAt(s, b + 2) == '4'))
    then b + 3 else b
  }

  /** The length of an integer suffix, zero if there is none. */
  function SuffixLength(s: string, p: nat): (n: nat)
    ensures n <= 4
  {
    var c, d, e := CharAt(s, p), CharAt(s, p + 1), CharAt(s, p + 2);
    if c != 'u' && c != 'i' then 0
    else if d == '8' then 2
    else if (d == '1' && e == '6') || (d == '3' && e == '2') || (d == '6' && e == '4') then 3
    else if d == 's' && e == 'i' && CharAt(s, p + 3) == 'z' then 4
    else 0
  }

  // ---- Tokens ----

  datatype Kind =
    | Integer | Float | Str | InterpStr | RawStr | Char | Byte | Bool | Ident | Keyword | Underscore
    | Op(op: Operator) | Comment | DocComment | Whitespace | Newline | Eof

  datatype Token = Token(kind: Kind, from: nat, to: nat)

  /** The table of keywords, and which texts the float parser takes as finite numbers. */
  datatype Rules = Rules(keywords: set<string>, floatOk: string -> bool)

  function WordKind(text: string, rules: Rules): Kind {
    if text == "_" then Underscore
    else if text == "true" || text == "false" then Bool
    else if text in rules.keywords then Keyword
    else Ident
  }

  predicate CommentStart(s: string, a: nat) { CharAt(s, a) == '/' && (CharAt(s, a + 1) == '/' || CharAt(s, a + 1) == '*') }

  predicate RawStart(s: string, a: nat) {
    CharAt(s, a) == 'r' && (CharAt(s, a + 1) == '"' || (CharAt(s, a + 1) == '#' && CharAt(s, a + 2) == '"'))
  }

  predicate ByteStart(s: string, a: nat) { CharAt(s, a) == 'b' && CharAt(s, a + 1) == '\'' }

  predicate IsWord(s: string, k: Kind, a: nat, b: nat, rules: Rules) {
    a < b <= |s| && WordStart(s[a]) && !RawStart(s, a) && !ByteStart(s, a) && b == WordEnd(s, a) && k == WordKind(s[a..b], rules)
  }

  predicate IsLineComment(s: string, a: nat, b: nat) {
    a + 2 <= |s| && s[a] == '/' && s[a + 1] == '/' && b == LineEnd(s, a + 2)
  }

  /** A doc comment starts with two stars, and the second one cannot be the one that closes it. */
  predicate IsBlockComment(s: string, doc: bool, a: nat, b: nat) {
    a + 2 <= |s| && s[a] == '/' && s[a + 1] == '*' &&
    if CharAt(s, a + 2) == '*' then doc && b == CommentEnd(s, a + 3) else !doc && b == CommentEnd(s, a + 2)
  }

  predicate IsInteger(s: string, a: nat, b: nat) {
    a < b <= |s| && Digit(s[a]) &&
    var r := RadixOf(CharAt(s, a + 1));
    if s[a] == '0' && r.Some? then
      a + 2 <= |s| && b == RunEnd(s, a + 2, r.value) && IntegerOk(Digits(s[a + 2..b]), r.value)
    else if LoneZero(s, a) then b == a + 1
    else b == RunEnd(s, a, Decimal) && !FloatFollows(s, a, b) && IntegerOk(Digits(s[a..b]), Decimal)
  }

  predicate IsFloat(s: string, a: nat, b: nat, rules: Rules) {
    a < b <= |s| && Digit(s[a]) && !(s[a] == '0' && RadixOf(CharAt(s, a + 1)).Some?) && !LoneZero(s, a) &&
    var q := RunEnd(s, a, Decimal);
    && q < |s| && FloatFollows(s, a, q) && b == FloatSuffixEnd(s, FloatTextEnd(s, q))
    && rules.floatOk(Digits(s[a..FloatTextEnd(s, q)]))
  }

  /** The characters from `a` to `b` are a token of that kind. */
  predicate Lexeme(s: string, k: Kind, a: nat, b: nat, rules: Rules) {
    match k
    case Whitespace => a < |s| && b == a + 1 && Blank(s[a])
    case Newline => a < |s| && b == a + 1 && s[a] == '\n'
    case Comment => IsLineComment(s, a, b) || IsBlockComment(s, false, a, b)
    case DocComment => IsBlockComment(s, true, a, b)
    case Ident => IsWord(s, k, a, b, rules)
    case Keyword => IsWord(s, k, a, b, rules)
    case Bool => IsWord(s, k, a, b, rules)
    case Underscore => IsWord(s, k, a, b, rules)
    case Op(op) => !CommentStart(s, a) && Munched(s, a, b, op)
    case Str => a < |s| && s[a] == '"' && StringEnd(s, a + 1, false) == Some((b, false))
    case InterpStr => a < |s| && s[a] == '"' && StringEnd(s, a + 1, false) == Some((b, true))
    case RawStr => IsRaw(s, a, b)
    case Char => a < |s| && s[a] == '\'' && QuotedEnd(s, a + 1, false) == Some(b)
    case Byte => a + 1 < |s| && s[a] == 'b' && s[a + 1] == '\'' && QuotedEnd(s, a + 2, true) == Some(b)
    case Integer => IsInteger(s, a, b)
    case Float => IsFloat(s, a, b, rules)
    case Eof => a == b == |s|
  }

  /** `r`, no hash or one, and a quote; the same behind the first fitting quote. */
  predicate IsRaw(s: string, a: nat, b: nat) {
    && a + 1 < |s| && s[a] == 'r'
    && ((s[a + 1] == '"' && RawEnd(s, a + 2, 0) == Some(b))
        || (s[a + 1] == '#' && CharAt(s, a + 2) == '"' && RawEnd(s, a + 3, 1) == Some(b)))
  }

  predicate Trivia(k: Kind) { k == Whitespace || k == Newline || k == Comment }

  // ---- Tilings ----

  /** Token `i` ends where the next one starts. */
  predicate Touch(all: seq<Token>, i: nat)
    requires i + 1 < |all|
  {
    all[i].to == all[i + 1].from
  }

  predicate SideBySide(all: seq<Token>) { forall i: nat :: i < |all| - 1 ==> Touch(all, i) }

  lemma {:induction false} SideBySideMore(all: seq<Token>, t: Token)
    requires SideBySide(all) && (all != [] ==> all[|all| - 1].to == t.from)
    ensures SideBySide(all + [t])
  {
    forall i: nat | i < |all| ensures Touch(all + [t], i) {
      assert i < |all| - 1 ==> Touch(all, i);
    }
  }

  ghost predicate TokenAt(s: string, all: seq<Token>, i: nat, rules: Rules)
    requires i < |all|
  {
    Lexeme(s, all[i].kind, all[i].from, all[i].to, rules)
  }

  ghost predicate AllLexemes(s: string, all: seq<Token>, rules: Rules) {
    forall i: nat :: i < |all| ==> TokenAt(s, all, i, rules)
  }

  lemma {:induction false} AllLexemesMore(s: string, all: seq<Token>, t: Token, rules: Rules)
    requires AllLexemes(s, all, rules) && Lexeme(s, t.kind, t.from, t.to, rules)
    ensures AllLexemes(s, all + [t], rules)
  {
    forall i: nat | i <= |all| ensures TokenAt(s, all + [t], i, rules) {
      assert i < |all| ==> TokenAt(s, all, i, rules);
    }
  }

  /** Tokens side by side from the start of the text to its end. */
  ghost predicate Tiles(s: string, all: seq<Token>, rules: Rules) {
    && all != [] && all[0].from == 0 && all[|all| - 1] == Token(Eof, |s|, |s|)
    && SideBySide(all) && (forall i :: 0 <= i < |all| - 1 ==> all[i].from < all[i].to)
    && AllLexemes(s, all, rules)
  }

  function Solid(all: seq<Token>): seq<Token> {
    if all == [] then []
    else Solid(all[..|all| - 1]) + if Trivia(all[|all| - 1].kind) then [] else [all[|all| - 1]]
  }

  // ---- A text has one tiling ----

  /** What the first characters of a token say about its kind. */
  datatype Lead = Space | Break | LineRemark | BlockRemark | Quote | Raw | Tick | ByteTick | Number | Word | Sign | End | Nothing

  function LeadOf(s: string, a: nat): Lead {
    if a >= |s| then End
    else if s[a] == '\n' then Break
    else if Blank(s[a]) then Space
    else if CommentStart(s, a) then (if CharAt(s, a + 1) == '/' then LineRemark else BlockRemark)
    else if s[a] == '"' then Quote
    else if RawStart(s, a) then Raw
    else if s[a] == '\'' then Tick
    else if Digit(s[a]) then Number
    else if ByteStart(s, a) then ByteTick
    else if WordStart(s[a]) then Word
    else if Op1(s[a]).Some? then Sign
    else Nothing
  }

  predicate Leads(s: string, k: Kind, a: nat) {
    var l := LeadOf(s, a);
    match k
    case Whitespace => l == Space
    case Newline => l == Break
    case Comment => l == LineRemark || l == BlockRemark
    case DocComment => l == BlockRemark
    case Ident => l == Word
    case Keyword => l == Word
    case Bool => l == Word
    case Underscore => l == Word
    case Op(_) => l == Sign
    case Str => l == Quote
    case InterpStr => l == Quote
    case RawStr => l == Raw
    case Char => l == Tick
    case Byte => l == ByteTick
    case Integer => l == Number
    case Float => l == Number
    case Eof => l == End
  }

  lemma {:induction false} LexemeLeads(s: string, k: Kind, a: nat, b: nat, rules: Rules)
    requires a <= |s| && Lexeme(s, k, a, b, rules)
    ensures Leads(s, k, a)
  {
    if k.Op? {
      SignLeads(s, a, b, k.op);
    }
  }

  lemma {:induction false} LongOperators(c: char, d: char, e: char, f: char)
    ensures Op2(c, d).Some? || Op3(c, d, e).Some? || Op4(c, d, e, f).Some? ==> Op1(c).Some?
  {
  }

  lemma {:induction false} SignIsNoOther(c: char)
    requires Op1(c).Some?
    ensures c != '\n' && !Blank(c) && c != '"' && c != '\'' && !Digit(c) && !WordStart(c)
  {
  }

  /** Operators of any length start with one of length one. */
  lemma {:induction false} SignLeads(s: string, a: nat, b: nat, op: Operator)
    requires !CommentStart(s, a) && Munched(s, a, b, op)
    ensures LeadOf(s, a) == Sign
  {
    LongOperators(s[a], CharAt(s, a + 1), CharAt(s, a + 2), CharAt(s, a + 3));
    SignIsNoOther(s[a]);
  }

  lemma {:induction false} MunchedOnce(s: string, a: nat, b: nat, op: Operator, b2: nat, op2: Operator)
    requires Munched(s, a, b, op) && Munched(s, a, b2, op2)
    ensures b == b2 && op == op2
  {
  }

  /** At each place there is at most one token. */
  lemma {:induction false} LexemeOnce(s: string, a: nat, k: Kind, b: nat, k2: Kind, b2: nat, rules: Rules)
    requires a <= |s| && Lexeme(s, k, a, b, rules) && Lexeme(s, k2, a, b2, rules)
    ensures k == k2 && b == b2
  {
    LexemeLeads(s, k, a, b, rules);
    LexemeLeads(s, k2, a, b2, rules);
    if k.Op? {
      MunchedOnce(s, a, b, k.op, b2, k2.op);
    }
  }

  lemma {:induction false} TilesInBounds(s: string, all: seq<Token>, rules: Rules, i: nat)
    requires Tiles(s, all, rules) && i < |all|
    ensures all[i].from <= all[i].to <= |s| && (i < |all| - 1 ==> all[i].from < |s|)
    decreases |all| - i
  {
    if i < |all| - 1 {
      assert Touch(all, i);
      TilesInBounds(s, all, rules, i + 1);
    }
  }

  lemma {:induction false} TilesAgree(s: string, all: seq<Token>, other: seq<Token>, rules: Rules, i: nat)
    requires Tiles(s, all, rules) && Tiles(s, other, rules) && i < |all|
    ensures i < |other| && all[i] == other[i]
    decreases i
  {
    if i > 0 {
      TilesAgree(s, all, other, rules, i - 1);
      TilesInBounds(s, all, rules, i - 1);
      assert Touch(all, i - 1) && Touch(other, i - 1);
    }
    TilesInBounds(s, all, rules, i);
    assert TokenAt(s, all, i, rules) && TokenAt(s, other, i, rules);
    LexemeOnce(s, all[i].from, all[i].kind, all[i].to, other[i].kind, other[i].to, rules);
  }

  /** Whatever finds a tiling of a text finds the same one. */
  lemma {:induction false} TilingUnique(s: string, all: seq<Token>, other: seq<Token>, rules: Rules)
    requires Tiles(s, all, rules) && Tiles(s, other, rules)
    ensures all == other
  {
    TilesAgree(s, all, other, rules, |all| - 1);
    TilesAgree(s, other, all, rules, |other| - 1);
    forall i | 0 <= i < |all| ensures all[i] == other[i] {
      TilesAgree(s, all, other, rules, i);
    }
  }

  // ---- What the parser gets ----

  lemma {:induction false} TilesOrdered(s: string, all: seq<Token>, rules: Rules, i: nat, j: nat)
    requires Tiles(s, all, rules) && i < j < |all|
    ensures all[i].to <= all[j].from
    decreases j - i
  {
    assert Touch(all, i);
    if i + 1 < j {
      TilesOrdered(s, all, rules, i + 1, j);
      TilesInBounds(s, all, rules, i + 1);
    }
  }

  ghost predicate InOrder(ts: seq<Token>) { forall i, j :: 0 <= i < j < |ts| ==> ts[i].to <= ts[j].from }

  lemma {:induction false} SolidMembers(all: seq<Token>)
    ensures forall t :: t in Solid(all) <==> t in all && !Trivia(t.kind)
    decreases |all|
  {
    if all != [] {
      SolidMembers(all[..|all| - 1]);
      assert all == all[..|all| - 1] + [all[|all| - 1]];
    }
  }

  lemma {:induction false} SolidInOrder(all: seq<Token>)
    requires InOrder(all)
    ensures InOrder(Solid(all))
    decreases |all|
  {
    if all != [] {
      var n := |all| - 1;
      var ts := Solid(all[..n]);
      SolidInOrder(all[..n]);
      SolidMembers(all[..n]);
      forall i | 0 <= i < |ts| ensures ts[i].to <= all[n].from {
        assert ts[i] in all[..n];
        var j :| 0 <= j < n && all[j] == ts[i];
      }
    }
  }

  /** A place inside a token that is kept, or inside a blank, a newline or a comment. */
  ghost predicate Covered(all: seq<Token>, p: nat) {
    exists t :: t in all && t.from <= p < t.to && (t in Solid(all) || Trivia(t.kind))
  }

  /**
   The tokens left when blanks, newlines and comments are dropped: in order, apart from each
   other, in bounds, with the end of the text last; every place between them is inside a
   blank, a newline or a comment.
   */
  lemma {:induction false} SolidTokens(s: string, all: seq<Token>, rules: Rules)
    requires Tiles(s, all, rules)
    ensures InOrder(Solid(all)) && Solid(all) != [] && Solid(all)[|Solid(all)| - 1] == Token(Eof, |s|, |s|)
    ensures forall t :: t in Solid(all) ==> t.from <= t.to <= |s|
    ensures forall p :: 0 <= p < |s| ==> Covered(all, p)
  {
    forall i, j | 0 <= i < j < |all| ensures all[i].to <= all[j].from {
      TilesOrdered(s, all, rules, i, j);
    }
    SolidInOrder(all);
    forall t | t in Solid(all) ensures t.from <= t.to <= |s| {
      SolidInBounds(s, all, rules, t);
    }
    forall p | 0 <= p < |s| ensures Covered(all, p) {
      PlaceCovered(s, all, rules, p);
    }
  }

  lemma {:induction false} SolidInBounds(s: string, all: seq<Token>, rules: Rules, t: Token)
    requires Tiles(s, all, rules) && t in Solid(all)
    ensures t.from <= t.to <= |s|
  {
    SolidMembers(all);
    var i :| 0 <= i < |all| && all[i] == t;
    TilesInBounds(s, all, rules, i);
  }

  lemma {:induction false} PlaceCovered(s: string, all: seq<Token>, rules: Rules, p: nat)
    requires Tiles(s, all, rules) && p < |s|
    ensures Covered(all, p)
  {
    SolidMembers(all);
    var i := Covering(s, all, rules, p, |all| - 1);
    assert all[i] in all;
  }

  lemma {:induction false} Covering(s: string, all: seq<Token>, rules: Rules, p: nat, n: nat) returns (i: nat)
    requires Tiles(s, all, rules) && n < |all| && p < all[n].from
    ensures i < |all| && all[i].from <= p < all[i].to
    decreases n
  {
    if n > 0 && p < all[n - 1].from {
      i := Covering(s, all, rules, p, n - 1);
    } else {
      i := n - 1;
      assert Touch(all, i);
    }
  }
}
