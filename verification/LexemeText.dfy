/**
 The tokens, spelled out: how each operator is written, which stretches of text are dropped
 between tokens, which characters make up a word, and where no token starts. The characters
 stand here as they are, not as the predicates that the lexer asks.
 */
module LexemeText {
  import opened Wrappers
  import opened Lexemes

  // ---- Operators ----

  /** How an operator is written; two of them can be written in two ways. */
  predicate Spells(w: string, op: Operator) {
    match op
    case Plus => w == "+"
    case Minus => w == "-"
    case Star => w == "*"
    case Slash => w == "/"
    case Percent => w == "%"
    case Equals => w == "="
    case EqualsEquals => w == "=="
    case Bang => w == "!"
    case BangEquals => w == "!="
    case Less => w == "<"
    case LessEquals => w == "<="
    case Greater => w == ">"
    case GreaterEquals => w == ">="
    case AmpAmp => w == "&&"
    case BarBar => w == "||"
    case Caret => w == "^"
    case Tilde => w == "~"
    case Ampersand => w == "&"
    case Bar => w == "|"
    case LessLess => w == "<<"
    case GreaterGreater => w == ">>"
    case GreaterGreaterGreater => w == ">>>"
    case PlusPlus => w == "++"
    case MinusMinus => w == "--"
    case PlusEquals => w == "+="
    case MinusEquals => w == "-="
    case StarEquals => w == "*="
    case SlashEquals => w == "/="
    case PercentEquals => w == "%="
    case AmpersandEquals => w == "&="
    case BarEquals => w == "|="
    case CaretEquals => w == "^="
    case LessLessEquals => w == "<<="
    case GreaterGreaterEquals => w == ">>="
    case GreaterGreaterGreaterEquals => w == ">>>="
    case Dot => w == "."
    case DotDot => w == ".."
    case DotDotDot => w == "..."
    case Colon => w == ":"
    case ColonColon => w == "::"
    case Semicolon => w == ";"
    case Comma => w == ","
    case At => w == "@"
    case Question => w == "?"
    case QuestionQuestion => w == "??" || w == "!?"
    case QuestionColon => w == "?:"
    case FatArrow => w == "=>" || w == ":="
    case ThinArrow => w == "->"
    case Backslash => w == "\\"
    case LParen => w == "("
    case RParen => w == ")"
    case LBrace => w == "{"
    case RBrace => w == "}"
    case LBracket => w == "["
    case RBracket => w == "]"
  }

  lemma {:induction false} SpellsOne(c: char, op: Operator)
    ensures Op1(c) == Some(op) <==> Spells([c], op)
  {
    OneSpelled(c);
    if Spells([c], op) {
      OneFound(c, op);
    }
  }

  lemma {:induction false} OneSpelled(c: char)
    ensures Op1(c).Some? ==> Spells([c], Op1(c).value)
  {
  }

  lemma {:induction false} OneFound(c: char, op: Operator)
    requires Spells([c], op)
    ensures Op1(c) == Some(op)
  {
  }

  lemma {:induction false} SpellsTwo(c: char, d: char, op: Operator)
    ensures Op2(c, d) == Some(op) <==> Spells([c, d], op)
  {
    TwoSpelled(c, d);
    if Spells([c, d], op) {
      TwoFound(c, d, op);
    }
  }

  lemma {:induction false} TwoSpelled(c: char, d: char)
    ensures Op2(c, d).Some? ==> Spells([c, d], Op2(c, d).value)
  {
  }

  lemma {:induction false} TwoFound(c: char, d: char, op: Operator)
    requires Spells([c, d], op)
    ensures Op2(c, d) == Some(op)
  {
  }

  lemma {:induction false} SpellsThree(c: char, d: char, e: char, op: Operator)
    ensures Op3(c, d, e) == Some(op) <==> Spells([c, d, e], op)
  {
  }

  lemma {:induction false} SpellsFour(c: char, d: char, e: char, f: char, op: Operator)
    ensures Op4(c, d, e, f) == Some(op) <==> Spells([c, d, e, f], op)
  {
  }

  lemma {:induction false} SpellsLength(w: string, op: Operator)
    requires Spells(w, op)
    ensures 1 <= |w| <= 4
  {
  }

  /** An operator is found where it is written, and only there. */
  lemma {:induction false} SpelledIff(s: string, p: nat, n: nat, op: Operator)
    requires p + n <= |s|
    ensures OpAt(s, p, n) == Some(op) <==> Spells(s[p..p + n], op)
  {
    var w := s[p..p + n];
    if n == 1 {
      assert w == [s[p]];
      SpellsOne(s[p], op);
    } else if n == 2 {
      assert w == [s[p], s[p + 1]];
      SpellsTwo(s[p], s[p + 1], op);
    } else if n == 3 {
      assert w == [s[p], s[p + 1], s[p + 2]];
      SpellsThree(s[p], s[p + 1], s[p + 2], op);
    } else if n == 4 {
      assert w == [s[p], s[p + 1], s[p + 2], s[p + 3]];
      SpellsFour(s[p], s[p + 1], s[p + 2], s[p + 3], op);
    } else if Spells(w, op) {
      SpellsLength(w, op);
    }
  }

  /** Nothing longer from `a` on is written like an operator. */
  ghost predicate Longest(s: string, a: nat, b: nat) {
    forall q, op :: b < q <= |s| ==> !SpellsAt(s, a, q, op)
  }

  predicate SpellsAt(s: string, a: nat, b: nat, op: Operator) { a < b <= |s| && Spells(s[a..b], op) }

  lemma {:induction false} MunchedLongest(s: string, a: nat, b: nat, op: Operator)
    requires Munched(s, a, b, op)
    ensures Longest(s, a, b)
  {
    forall q, other | b < q <= |s| ensures !SpellsAt(s, a, q, other) {
      assert OpAt(s, a, q - a).None?;
      NotSpelled(s, a, q, other);
    }
  }

  lemma {:induction false} NotSpelled(s: string, a: nat, q: nat, op: Operator)
    requires a < q <= |s| && OpAt(s, a, q - a).None?
    ensures !SpellsAt(s, a, q, op)
  {
    SpelledIff(s, a, q - a, op);
  }

  lemma {:induction false} NoneLonger(s: string, a: nat, b: nat, n: nat)
    requires a < b <= |s| && Longest(s, a, b) && b - a < n <= |s| - a
    ensures OpAt(s, a, n).None?
  {
    if OpAt(s, a, n).Some? {
      SpelledIff(s, a, n, OpAt(s, a, n).value);
      assert SpellsAt(s, a, a + n, OpAt(s, a, n).value);
    }
  }

  lemma {:induction false} MunchedSpells(s: string, a: nat, b: nat, op: Operator)
    requires Munched(s, a, b, op)
    ensures SpellsAt(s, a, b, op)
  {
    SpelledIff(s, a, b - a, op);
  }

  lemma {:induction false} SpellsMunched(s: string, a: nat, b: nat, op: Operator)
    requires SpellsAt(s, a, b, op) && Longest(s, a, b)
    ensures Munched(s, a, b, op)
  {
    SpelledIff(s, a, b - a, op);
    forall n | b - a < n <= |s| - a ensures OpAt(s, a, n).None? {
      NoneLonger(s, a, b, n);
    }
  }

  /** The operator at a place is the longest one written there. */
  lemma {:induction false} OperatorIff(s: string, a: nat, b: nat, op: Operator)
    ensures Munched(s, a, b, op) <==> SpellsAt(s, a, b, op) && Longest(s, a, b)
  {
    if Munched(s, a, b, op) {
      MunchedSpells(s, a, b, op);
      MunchedLongest(s, a, b, op);
    } else if SpellsAt(s, a, b, op) && Longest(s, a, b) {
      SpellsMunched(s, a, b, op);
    }
  }

  // ---- What is dropped ----

  predicate MarkAt(s: string, k: nat) { k + 1 < |s| && s[k] == '*' && s[k + 1] == '/' }

  /** `b` is behind the first closing mark at or behind `p`, or the end of a text without one. */
  ghost predicate ClosesAt(s: string, p: nat, b: nat) {
    || (p + 2 <= b && MarkAt(s, b - 2) && forall k: nat :: p <= k < b - 2 ==> !MarkAt(s, k))
    || (p <= b == |s| && forall k: nat :: p <= k ==> !MarkAt(s, k))
  }

  lemma {:induction false} CommentEndCloses(s: string, p: nat)
    requires p <= |s|
    ensures ClosesAt(s, p, CommentEnd(s, p))
    decreases |s| - p
  {
    if p < |s| && !MarkAt(s, p) {
      CommentEndCloses(s, p + 1);
    }
  }

  lemma {:induction false} ClosesOnce(s: string, p: nat, b: nat, c: nat)
    requires ClosesAt(s, p, b) && ClosesAt(s, p, c)
    ensures b == c
  {
    if p + 2 <= b && MarkAt(s, b - 2) && p + 2 <= c && MarkAt(s, c - 2) {
      var k: nat := (if b < c then b else c) - 2;
      assert MarkAt(s, k);
    }
  }

  /** Two slashes and the rest of the line. */
  ghost predicate LineText(s: string, a: nat, b: nat) {
    && a + 2 <= b <= |s| && s[a] == '/' && s[a + 1] == '/' && (b == |s| || s[b] == '\n')
    && forall k :: a <= k < b ==> s[k] != '\n'
  }

  /** A slash and one star; a second star makes it a doc comment. */
  ghost predicate BlockText(s: string, a: nat, b: nat) {
    && a + 2 <= |s| && s[a] == '/' && s[a + 1] == '*' && (a + 2 == |s| || s[a + 2] != '*') && ClosesAt(s, a + 2, b)
  }

  ghost predicate DocText(s: string, a: nat, b: nat) {
    && a + 3 <= |s| && s[a] == '/' && s[a + 1] == '*' && s[a + 2] == '*' && ClosesAt(s, a + 3, b)
  }

  /** A blank, a newline or a comment that is no doc comment. */
  ghost predicate GapText(s: string, a: nat, b: nat) {
    || (a < |s| && b == a + 1 && (s[a] == ' ' || s[a] == '\t' || s[a] == '\r' || s[a] == '\n'))
    || LineText(s, a, b) || BlockText(s, a, b)
  }

  lemma {:induction false} LineEndStops(s: string, p: nat)
    requires p <= |s|
    ensures LineEnd(s, p) == |s| || s[LineEnd(s, p)] == '\n'
    ensures forall k :: p <= k < LineEnd(s, p) ==> s[k] != '\n'
    decreases |s| - p
  {
    if p < |s| && s[p] != '\n' {
      LineEndStops(s, p + 1);
    }
  }

  lemma {:induction false} LineIff(s: string, a: nat, b: nat)
    ensures IsLineComment(s, a, b) <==> LineText(s, a, b)
  {
    if a + 2 <= |s| && s[a] == '/' && s[a + 1] == '/' {
      LineEndStops(s, a + 2);
    }
  }

  lemma {:induction false} CommentEndIff(s: string, p: nat, b: nat)
    requires p <= |s|
    ensures b == CommentEnd(s, p) <==> ClosesAt(s, p, b)
  {
    CommentEndCloses(s, p);
    if ClosesAt(s, p, b) {
      ClosesOnce(s, p, b, CommentEnd(s, p));
    }
  }

  lemma {:induction false} BlockIff(s: string, a: nat, b: nat)
    ensures IsBlockComment(s, false, a, b) <==> BlockText(s, a, b)
    ensures IsBlockComment(s, true, a, b) <==> DocText(s, a, b)
  {
    if a + 2 <= |s| {
      CommentEndIff(s, a + 2, b);
    }
    if a + 3 <= |s| {
      CommentEndIff(s, a + 3, b);
    }
  }

  /** The tokens that are dropped are these stretches, and doc comments are none of them. */
  lemma {:induction false} GapIff(s: string, a: nat, b: nat, rules: Rules)
    ensures (exists k :: Trivia(k) && Lexeme(s, k, a, b, rules)) <==> GapText(s, a, b)
    ensures Lexeme(s, DocComment, a, b, rules) <==> DocText(s, a, b)
  {
    LineIff(s, a, b);
    BlockIff(s, a, b);
    if exists k :: Trivia(k) && Lexeme(s, k, a, b, rules) {
      var k :| Trivia(k) && Lexeme(s, k, a, b, rules);
      GapOfTrivia(s, k, a, b, rules);
    }
    if GapText(s, a, b) {
      TriviaOfGap(s, a, b, rules);
    }
  }

  lemma {:induction false} GapOfTrivia(s: string, k: Kind, a: nat, b: nat, rules: Rules)
    requires Trivia(k) && Lexeme(s, k, a, b, rules)
    ensures GapText(s, a, b)
  {
    LineIff(s, a, b);
    BlockIff(s, a, b);
  }

  lemma {:induction false} TriviaOfGap(s: string, a: nat, b: nat, rules: Rules)
    requires GapText(s, a, b)
    ensures Lexeme(s, Whitespace, a, b, rules) || Lexeme(s, Newline, a, b, rules) || Lexeme(s, Comment, a, b, rules)
    ensures exists k :: Trivia(k) && Lexeme(s, k, a, b, rules)
  {
    LineIff(s, a, b);
    BlockIff(s, a, b);
    assert Trivia(Whitespace) && Trivia(Newline) && Trivia(Comment);
  }

  lemma {:induction false} DroppedIff(s: string, t: Token, rules: Rules)
    requires t.from <= |s| && Lexeme(s, t.kind, t.from, t.to, rules)
    ensures Trivia(t.kind) <==> GapText(s, t.from, t.to)
  {
    GapIff(s, t.from, t.to, rules);
    if GapText(s, t.from, t.to) {
      var k :| Trivia(k) && Lexeme(s, k, t.from, t.to, rules);
      LexemeOnce(s, t.from, t.kind, t.to, k, t.to, rules);
    }
  }

  /** The parser gets every token of a text but those stretches. */
  lemma {:induction false} SolidIff(s: string, all: seq<Token>, rules: Rules, t: Token)
    requires Tiles(s, all, rules)
    ensures t in Solid(all) <==> t in all && !GapText(s, t.from, t.to)
  {
    SolidMembers(all);
    if t in all {
      var i :| 0 <= i < |all| && all[i] == t;
      TilesInBounds(s, all, rules, i);
      assert TokenAt(s, all, i, rules);
      DroppedIff(s, t, rules);
    }
  }

  ghost predicate InToken(ts: seq<Token>, p: nat) { exists t :: t in ts && t.from <= p < t.to }

  ghost predicate InGap(s: string, p: nat) { exists a: nat, b: nat :: a <= p < b && GapText(s, a, b) }

  /** Every place of the text is in a token that the parser gets, or in such a stretch. */
  lemma {:induction false} PlaceKept(s: string, all: seq<Token>, rules: Rules, p: nat)
    requires Tiles(s, all, rules) && p < |s|
    ensures InToken(Solid(all), p) || InGap(s, p)
  {
    PlaceCovered(s, all, rules, p);
    var t :| t in all && t.from <= p < t.to && (t in Solid(all) || Trivia(t.kind));
    SolidIff(s, all, rules, t);
  }

  // ---- Words ----

  predicate WordLetter(c: char) { 'a' <= c <= 'z' || 'A' <= c <= 'Z' || c == '_' }

  predicate InWord(c: char) { WordLetter(c) || '0' <= c <= '9' }

  /** The word characters from `a` on, not fewer, that begin with a letter or an underscore. */
  ghost predicate WordText(s: string, a: nat, b: nat) {
    a < b <= |s| && WordLetter(s[a]) && (forall k :: a <= k < b ==> InWord(s[k])) && (b == |s| || !InWord(s[b]))
  }

  /** `r` before a quote, or before a hash and a quote; `b` before an apostrophe. */
  predicate Prefixed(s: string, a: nat) {
    || (a + 1 < |s| && s[a] == 'r' && s[a + 1] == '"')
    || (a + 2 < |s| && s[a] == 'r' && s[a + 1] == '#' && s[a + 2] == '"')
    || (a + 1 < |s| && s[a] == 'b' && s[a + 1] == '\'')
  }

  lemma {:induction false} WordEndStops(s: string, p: nat)
    requires p <= |s|
    ensures WordEnd(s, p) == |s| || !InWord(s[WordEnd(s, p)])
    ensures forall k :: p <= k < WordEnd(s, p) ==> InWord(s[k])
    decreases |s| - p
  {
    if p < |s| && WordChar(s[p]) {
      WordEndStops(s, p + 1);
    }
  }

  /** Words, with the four kinds of them. */
  ghost predicate WordOf(s: string, k: Kind, a: nat, b: nat, rules: Rules) {
    && WordText(s, a, b) && !Prefixed(s, a)
    && k == if s[a..b] == "_" then Underscore else if s[a..b] == "true" || s[a..b] == "false" then Bool
            else if s[a..b] in rules.keywords then Keyword else Ident
  }

  lemma {:induction false} WordIff(s: string, k: Kind, a: nat, b: nat, rules: Rules)
    ensures IsWord(s, k, a, b, rules) <==> WordOf(s, k, a, b, rules)
  {
    if a < |s| {
      WordEndStops(s, a);
    }
  }

  // ---- Where no token starts ----

  /** Characters that begin a token: gaps, quotes, words, digits and operators. */
  predicate Begins(c: char) {
    c in " \t\r\n\"'" || InWord(c) || c in "+-*/%=!<>&|^~\\.:;,@?" || c in "(){}[]"
  }

  /** Any other character begins none, so a text with a token there cannot be cut into tokens. */
  lemma {:induction false} ForeignStops(s: string, k: Kind, a: nat, b: nat, rules: Rules)
    requires a < |s| && Lexeme(s, k, a, b, rules)
    ensures Begins(s[a])
  {
    LexemeLeads(s, k, a, b, rules);
    SignBegins(s[a]);
  }

  lemma {:induction false} SignBegins(c: char)
    ensures Op1(c).Some? ==> c in "+-*/%=!<>&|^~\\.:;,@?" || c in "(){}[]"
  {
  }
}
