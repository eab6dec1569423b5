/**
 The printer as it runs: recursive writes into a buffer that doubles when it is full and is
 kept NUL-terminated, proved to leave exactly the text that `JsonPrinter.Print` describes.
 */
module JsonOutput {
  import opened CText
  import opened Decimal
  import opened JsonPrinter

  /** The growing output buffer; its capacity is the length of the array. */
  class Output {
    var buf: array<char>
    var len: nat

    ghost predicate Valid()
      reads this, buf
    {
      len < buf.Length && buf[len] == NUL
    }

    ghost function Text(): string
      requires Valid()
      reads this, buf
    {
      buf[..len]
    }

    constructor ()
      ensures Valid() && fresh(buf) && Text() == ""
    {
      buf := new char[256](_ => NUL);
      len := 0;
    }

    /** `realloc` to twice the capacity until `need` more characters and the terminator fit. */
    method Reserve(need: nat)
      requires Valid()
      modifies this
      ensures Valid() && Text() == old(Text()) && len + need + 1 < buf.Length
      ensures buf == old(buf) || fresh(buf)
    {
      var cap := buf.Length;
      while len + need + 1 >= cap
        invariant cap >= buf.Length
        decreases len + need + 2 - cap
      {
        cap := cap * 2;
      }
      if cap > buf.Length {
        var bigger := new char[cap](i reads this, buf => if 0 <= i < buf.Length then buf[i] else NUL);
        assert bigger[..len] == buf[..len];
        buf := bigger;
      }
    }

    /** `json_append` */
    method Append(s: string)
      requires Valid()
      modifies this, buf
      ensures Valid() && Text() == old(Text()) + s
      ensures buf == old(buf) || fresh(buf)
    {
      Reserve(|s|);
      CopyInto(buf, len, s);
      len := len + |s|;
      buf[len] := NUL;
    }

    /** `json_append_str`: the string between quotes, escaped character by character. */
    method AppendString(s: string)
      requires Valid()
      modifies this, buf
      ensures Valid() && Text() == old(Text()) + Quoted(s)
      ensures buf == old(buf) || fresh(buf)
    {
      ghost var before := Text();
      Append("\"");
      for k := 0 to |s|
        invariant Valid() && (buf == old(buf) || fresh(buf))
        invariant Text() == before + "\"" + Escape(s[..k])
      {
        EscapeSnoc(before + "\"", s, k);
        Append(EscapeChar(s[k]));
      }
      assert s[..|s|] == s;
      Append("\"");
      Regroup(before, "\"", Escape(s), "\"");
    }

    /** `json_stringify_value` */
    method Stringify(v: Stored)
      requires Valid()
      modifies this, buf
      ensures Valid() && Text() == old(Text()) + Print(v)
      ensures buf == old(buf) || fresh(buf)
      decreases v, 1
    {
      match v
      case SNull => Append("null");
      case SBool(b) => Append(if b then "true" else "false");
      case SInt(n) => Append(DecInt(n));
      case SStr(s) => AppendString(s);
      case SIntArr(xs) => StringifyInts(xs);
      case SArr(vs) => StringifyArray(vs);
      case SObj(es) => StringifyObject(es);
    }

    /** The comma in front of every element but the first. */
    method Separator(i: nat)
      requires Valid()
      modifies this, buf
      ensures Valid() && Text() == old(Text()) + (if i > 0 then "," else "")
      ensures buf == old(buf) || fresh(buf)
    {
      if i > 0 {
        Append(",");
      } else {
        assert Text() + "" == Text();
      }
    }

    /** One integer through the digit-pair writer and its 24-character buffer. */
    method AppendFast(n: Int64)
      requires Valid()
      modifies this, buf
      ensures Valid() && Text() == old(Text()) + DecInt(n)
      ensures buf == old(buf) || fresh(buf)
    {
      Int64Length(n);
      var nbuf := new char[24];
      var nlen := FastWrite(n, nbuf, 0);
      var digits := nbuf[..nlen];
      assert digits == DecInt(n);
      Append(digits);
    }

    method StringifyInts(xs: seq<Int64>)
      requires Valid()
      modifies this, buf
      ensures Valid() && Text() == old(Text()) + ("[" + JoinComma(DecAll(xs)) + "]")
      ensures buf == old(buf) || fresh(buf)
    {
      ghost var before, parts := Text(), DecAll(xs);
      Append("[");
      for i := 0 to |xs|
        invariant Valid() && (buf == old(buf) || fresh(buf))
        invariant Text() == before + "[" + JoinComma(parts[..i])
      {
        ghost var sofar := before + "[";
        IntElement(xs, i);
        JoinSnoc(sofar, parts, i);
        Separator(i);
        AppendFast(xs[i]);
      }
      assert parts[..|xs|] == parts;
      Append("]");
      Regroup(before, "[", JoinComma(parts), "]");
    }

    method StringifyArray(vs: seq<Stored>)
      requires Valid()
      modifies this, buf
      ensures Valid() && Text() == old(Text()) + ("[" + JoinComma(PrintAll(vs)) + "]")
      ensures buf == old(buf) || fresh(buf)
      decreases vs, 0
    {
      ghost var before, parts := Text(), PrintAll(vs);
      Append("[");
      for i := 0 to |vs|
        invariant Valid() && (buf == old(buf) || fresh(buf))
        invariant Text() == before + "[" + JoinComma(parts[..i])
      {
        ghost var sofar := before + "[";
        TreeElement(vs, i);
        JoinSnoc(sofar, parts, i);
        Separator(i);
        Stringify(vs[i]);
      }
      assert parts[..|vs|] == parts;
      Append("]");
      Regroup(before, "[", JoinComma(parts), "]");
    }

    method StringifyEntry(e: Entry)
      requires Valid()
      modifies this, buf
      ensures Valid() && Text() == old(Text()) + (Quoted(e.key) + ":" + Print(e.value))
      ensures buf == old(buf) || fresh(buf)
      decreases e, 2
    {
      ghost var t := Text();
      AppendString(e.key);
      Append(":");
      Stringify(e.value);
      Regroup(t, Quoted(e.key), ":", Print(e.value));
    }

    method StringifyObject(es: seq<Entry>)
      requires Valid()
      modifies this, buf
      ensures Valid() && Text() == old(Text()) + ("{" + JoinComma(PrintEntries(es)) + "}")
      ensures buf == old(buf) || fresh(buf)
      decreases es, 0
    {
      ghost var before, parts := Text(), PrintEntries(es);
      Append("{");
      for i := 0 to |es|
        invariant Valid() && (buf == old(buf) || fresh(buf))
        invariant Text() == before + "{" + JoinComma(parts[..i])
      {
        ghost var sofar := before + "{";
        EntryElement(es, i);
        JoinSnoc(sofar, parts, i);
        Separator(i);
        StringifyEntry(es[i]);
      }
      assert parts[..|es|] == parts;
      Append("}");
      Regroup(before, "{", JoinComma(parts), "}");
    }
  }

  lemma {:induction false} Regroup(a: string, b: string, c: string, d: string)
    ensures a + b + c + d == a + (b + c + d)
  {
  }

  /** `memcpy` of a string into a buffer. */
  method CopyInto(b: array<char>, at: nat, s: string)
    requires at + |s| <= b.Length
    modifies b
    ensures b[..at + |s|] == old(b[..at]) + s
    ensures b[at + |s|..] == old(b[at + |s|..])
  {
    for k := 0 to |s|
      invariant b[..at + k] == old(b[..at]) + s[..k]
      invariant b[at + |s|..] == old(b[at + |s|..])
    {
      b[at + k] := s[k];
    }
  }

  /** Escaping one character more appends its escape. */
  lemma {:induction false} EscapeSnoc(sofar: string, s: string, k: nat)
    requires k < |s|
    ensures sofar + Escape(s[..k]) + EscapeChar(s[k]) == sofar + Escape(s[..k + 1])
    decreases k
  {
    var c, t := EscapeChar(s[0]), s[..k + 1];
    if k == 0 {
      assert t[1..] == "" && sofar + "" + c == sofar + (c + "");
    } else {
      EscapeSnoc(sofar + c, s[1..], k - 1);
      assert t[1..] == s[1..][..k] && s[..k][1..] == s[1..][..k - 1];
      assert sofar + (c + Escape(s[1..][..k - 1])) == sofar + c + Escape(s[1..][..k - 1]);
      assert sofar + (c + Escape(s[1..][..k])) == sofar + c + Escape(s[1..][..k]);
    }
  }

  /** Joining one part more appends it, after a comma unless it is the first. */
  lemma {:induction false} JoinSnoc(sofar: string, parts: seq<string>, i: nat)
    requires i < |parts|
    ensures sofar + JoinComma(parts[..i]) + (if i > 0 then "," else "") + parts[i] == sofar + JoinComma(parts[..i + 1])
    decreases i
  {
    var x := parts[0];
    if i == 0 {
      assert parts[..1] == [x];
      assert sofar + "" + "" + x == sofar + x;
    } else if i == 1 {
      assert parts[..1] == [x];
      assert parts[..2] == [x, parts[1]];
      assert [x, parts[1]][1..] == [parts[1]];
      assert sofar + x + "," + parts[1] == sofar + (x + "," + parts[1]);
    } else {
      var rest := parts[1..];
      JoinSnoc(sofar + x + ",", rest, i - 1);
      assert parts[..i][1..] == rest[..i - 1];
      assert parts[..i + 1][1..] == rest[..i];
      assert sofar + (x + "," + JoinComma(rest[..i - 1])) == sofar + x + "," + JoinComma(rest[..i - 1]);
      assert sofar + (x + "," + JoinComma(rest[..i])) == sofar + x + "," + JoinComma(rest[..i]);
    }
  }

  lemma {:induction false} EntryElement(es: seq<Entry>, i: nat)
    requires i < |es|
    ensures PrintEntries(es)[i] == Quoted(es[i].key) + ":" + Print(es[i].value)
  {
    if i > 0 {
      EntryElement(es[1..], i - 1);
    }
  }
}
