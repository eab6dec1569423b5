/**
 The line conventions that the reader and the writer of `tinox.toml` share: how a text falls
 into lines, how a line is trimmed, and how `key = "value"` is taken apart.
 */
module TomlLines {
  import opened Wrappers
  import opened Packages

  // ---- Lines ----

  /** `str::lines`: ends at newlines, without them and without one carriage return before them. */
  function Lines(text: string): seq<string> { LinesFrom(text, []) }

  function StripCr(line: string): string {
    if line != [] && line[|line| - 1] == '\r' then line[..|line| - 1] else line
  }

  /** The lines of what is read so far of a line and the rest of the text. */
  function LinesFrom(text: string, line: string): seq<string>
    decreases |text|
  {
    if text == [] then (if line == [] then [] else [line])
    else if text[0] == '\n' then [StripCr(line)] + LinesFrom(text[1..], [])
    else LinesFrom(text[1..], line + [text[0]])
  }

  /** Each line with a newline behind it. */
  function Terminated(ls: seq<string>): string {
    if ls == [] then [] else ls[0] + ['\n'] + Terminated(ls[1..])
  }

  predicate OneLine(s: string) { '\n' !in s }

  function StripCrs(ls: seq<string>): (r: seq<string>)
    ensures |r| == |ls|
  {
    seq(|ls|, i requires 0 <= i < |ls| => StripCr(ls[i]))
  }

  lemma {:induction false} LinesOfLine(rest: string, more: string, line: string)
    requires OneLine(more)
    ensures LinesFrom(more + ['\n'] + rest, line) == [StripCr(line + more)] + LinesFrom(rest, [])
    decreases |more|
  {
    var text := more + ['\n'] + rest;
    if more == [] {
      assert text[1..] == rest && line + more == line;
    } else {
      assert text[1..] == more[1..] + ['\n'] + rest;
      LinesOfLine(rest, more[1..], line + [more[0]]);
      assert line + [more[0]] + more[1..] == line + more;
    }
  }

  lemma {:induction false} LinesOfTerminated(ls: seq<string>)
    requires forall i :: 0 <= i < |ls| ==> OneLine(ls[i])
    ensures Lines(Terminated(ls)) == StripCrs(ls)
    decreases |ls|
  {
    if ls != [] {
      LinesOfTerminated(ls[1..]);
      LinesOfLine(Terminated(ls[1..]), ls[0], []);
      assert [] + ls[0] == ls[0];
      assert StripCrs(ls) == [StripCr(ls[0])] + StripCrs(ls[1..]);
    }
  }

  lemma {:induction false} TerminatedAppend(xs: seq<string>, ys: seq<string>)
    ensures Terminated(xs + ys) == Terminated(xs) + Terminated(ys)
    decreases |xs|
  {
    if xs == [] {
      assert xs + ys == ys;
    } else {
      assert (xs + ys)[1..] == xs[1..] + ys;
      TerminatedAppend(xs[1..], ys);
    }
  }

  lemma {:induction false} LinesAreOneLine(text: string, line: string)
    requires OneLine(line)
    ensures forall l :: l in LinesFrom(text, line) ==> OneLine(l)
    decreases |text|
  {
    if text != [] {
      if text[0] == '\n' {
        LinesAreOneLine(text[1..], []);
      } else {
        LinesAreOneLine(text[1..], line + [text[0]]);
      }
    }
  }

  // ---- Trimming ----

  /** Unicode white space. */
  predicate White(c: char) {
    var n := c as int;
    || 9 <= n <= 13 || n == 0x20 || n == 0x85 || n == 0xA0 || n == 0x1680 || 0x2000 <= n <= 0x200A
    || n == 0x2028 || n == 0x2029 || n == 0x202F || n == 0x205F || n == 0x3000
  }

  function TrimStart(s: string): string { if s != [] && White(s[0]) then TrimStart(s[1..]) else s }

  function TrimEnd(s: string): string { if s != [] && White(s[|s| - 1]) then TrimEnd(s[..|s| - 1]) else s }

  function Trim(s: string): string { TrimEnd(TrimStart(s)) }

  function QuoteStart(s: string): string { if s != [] && s[0] == '"' then QuoteStart(s[1..]) else s }

  function QuoteEnd(s: string): string { if s != [] && s[|s| - 1] == '"' then QuoteEnd(s[..|s| - 1]) else s }

  /** `trim_matches('"')` */
  function Unquote(s: string): string { QuoteEnd(QuoteStart(s)) }

  /** Starts and ends with something other than white space. */
  predicate Tight(s: string) { s != [] && !White(s[0]) && !White(s[|s| - 1]) }

  lemma {:induction false} TrimTight(s: string)
    requires Tight(s)
    ensures Trim(s) == s
  {
  }

  /** The reader does not see the carriage return that the line splitter may have left. */
  lemma {:induction false} TrimCr(s: string)
    ensures Trim(StripCr(s)) == Trim(s)
    decreases |s|
  {
    if s != [] && s[|s| - 1] == '\r' {
      var n := |s| - 1;
      if White(s[0]) {
        assert TrimStart(s) == TrimStart(s[1..]);
        if n > 0 {
          TrimCr(s[1..]);
          assert StripCr(s)[1..] == StripCr(s[1..]);
          assert TrimStart(StripCr(s)) == TrimStart(StripCr(s)[1..]);
        } else {
          assert s[1..] == [] == StripCr(s);
        }
      } else {
        assert s[..n][0] == s[0];
        assert TrimEnd(s) == TrimEnd(s[..n]);
      }
    }
  }

  // ---- Settings ----

  /** `split_once('=')`: the text before the first `=` and behind it. */
  function SplitAt(line: string, key: string): Option<(string, string)>
    decreases |line|
  {
    if line == [] then None
    else if line[0] == '=' then Some((key, line[1..]))
    else SplitAt(line[1..], key + [line[0]])
  }

  /** `parse_toml_kv` */
  function Setting(line: string): Option<(string, string)> {
    var kv := SplitAt(line, []);
    if kv.None? then None else Some((Trim(kv.value.0), Unquote(Trim(kv.value.1))))
  }

  function Format(key: string, v: string): string { key + " = \"" + v + "\"" }

  predicate PlainKey(key: string) { Tight(key) && '=' !in key && key[0] != '[' }

  /** No newline and no quote at either end. */
  predicate PlainValue(v: string) { OneLine(v) && (v != [] ==> v[0] != '"' && v[|v| - 1] != '"') }

  lemma {:induction false} SplitFirst(key: string, before: string, rest: string)
    requires '=' !in key
    ensures SplitAt(key + (['='] + rest), before) == Some((before + key, rest))
    decreases |key|
  {
    var line := key + (['='] + rest);
    if key == [] {
      assert line == ['='] + rest && line[1..] == rest && before + key == before;
    } else {
      assert line[1..] == key[1..] + (['='] + rest);
      SplitFirst(key[1..], before + [key[0]], rest);
      assert before + [key[0]] + key[1..] == before + key;
    }
  }

  lemma {:induction false} UnquoteValue(v: string)
    requires PlainValue(v)
    ensures Unquote(['"'] + v + ['"']) == v
  {
    var q := ['"'] + v + ['"'];
    assert q[1..] == v + ['"'];
    if v == [] {
      assert q[1..][1..] == [];
      assert QuoteStart(q) == QuoteStart(q[1..]) == QuoteStart(q[1..][1..]);
    } else {
      var r := q[1..];
      assert QuoteStart(q) == QuoteStart(r) == r;
      assert r[..|v|] == v;
      assert QuoteEnd(r) == QuoteEnd(r[..|v|]) == v;
    }
  }

  lemma {:induction false} TrimAround(x: string)
    requires Tight(x)
    ensures Trim(x + [' ']) == x && Trim([' '] + x) == x
  {
    var after, before := x + [' '], [' '] + x;
    assert after[0] == x[0] && after[..|x|] == x;
    assert TrimEnd(after) == TrimEnd(after[..|x|]) == x;
    assert before[1..] == x;
    assert TrimStart(before) == TrimStart(before[1..]) == x;
  }

  /** A key, an equals sign between blanks and anything that does not begin or end with white space. */
  lemma {:induction false} KeyRead(key: string, q: string, line: string)
    requires PlainKey(key) && Tight(q) && line == (key + [' ']) + (['='] + ([' '] + q))
    ensures Trim(line) == line && line[0] == key[0] && Setting(line) == Some((key, Unquote(q)))
  {
    assert line[0] == key[0] && line[|line| - 1] == q[|q| - 1];
    TrimTight(line);
    SplitFirst(key + [' '], [], [' '] + q);
    assert [] + (key + [' ']) == key + [' '];
    TrimAround(key);
    TrimAround(q);
  }

  /** What is written for a key and a value is read back as that key and what is in the quotes. */
  lemma {:induction false} FormatKeyRead(key: string, v: string)
    requires PlainKey(key)
    ensures Trim(Format(key, v)) == Format(key, v) && Format(key, v)[0] == key[0]
    ensures Setting(Format(key, v)) == Some((key, Unquote(['"'] + v + ['"'])))
  {
    var q := ['"'] + v + ['"'];
    assert Format(key, v) == (key + [' ']) + (['='] + ([' '] + q));
    KeyRead(key, q, Format(key, v));
  }

  /** And so as the value, if that has no quote at either end. */
  lemma {:induction false} FormatRead(key: string, v: string)
    requires PlainKey(key) && PlainValue(v)
    ensures Trim(Format(key, v)) == Format(key, v) && Format(key, v)[0] == key[0]
    ensures Setting(Format(key, v)) == Some((key, v))
  {
    FormatKeyRead(key, v);
    UnquoteValue(v);
  }

  lemma {:induction false} FormatOneLine(key: string, v: string)
    requires OneLine(key) && OneLine(v)
    ensures OneLine(Format(key, v)) && StripCr(Format(key, v)) == Format(key, v)
  {
    var line := Format(key, v);
    assert line[|line| - 1] == '"';
  }
}
