/**
 The incremental object builder: members are written straight into a buffer that is grown by
 a precomputed bound before each write, and keys go in without escaping.
 */
module JsonBuilder {
  import opened CText
  import opened Decimal
  import opened JsonParser
  import opened JsonPrinter
  import opened JsonOutput

  /** One call that adds a member. */
  datatype Add =
    | AddInt(key: string, n: Int64)
    | AddBool(key: string, b: bool)
    | AddString(key: string, s: string)
    | AddIntList(key: string, xs: seq<Int64>)

  /** The text written for the value of a member. */
  function ValueText(a: Add): string {
    match a
    case AddInt(_, n) => DecInt(n)
    case AddBool(_, b) => if b then "true" else "false"
    case AddString(_, s) => Quoted(s)
    case AddIntList(_, xs) => "[" + JoinComma(DecAll(xs)) + "]"
  }

  /** The value a member is meant to have. */
  function Meaning(a: Add): Json {
    match a
    case AddInt(_, n) => Int(n)
    case AddBool(_, b) => Bool(b)
    case AddString(_, s) => Str(s)
    case AddIntList(_, xs) => Arr(Ints(xs))
  }

  function Members(adds: seq<Add>): (r: seq<string>)
    ensures |r| == |adds|
  {
    seq(|adds|, i requires 0 <= i < |adds| => MemberText(adds[i].key, ValueText(adds[i])))
  }

  /** The finished text of a whole run. */
  function BuiltText(adds: seq<Add>): string { "{" + JoinComma(Members(adds)) + "}" }

  /** The object a run describes: of two members with one key the later wins. */
  function LastWrites(adds: seq<Add>): map<string, Json> {
    if adds == [] then map[]
    else
      var last := adds[|adds| - 1];
      LastWrites(adds[..|adds| - 1])[last.key := Meaning(last)]
  }

  class Builder {
    var buf: array<char>
    var len: nat
    var first: bool

    ghost predicate Valid()
      reads this, buf
    {
      len <= buf.Length && buf.Length > 0
    }

    ghost function Text(): string
      requires Valid()
      reads this, buf
    {
      buf[..len]
    }

    constructor ()
      ensures Valid() && fresh(buf) && Text() == "{" && first
    {
      buf := new char[256];
      len := 1;
      first := true;
      new;
      buf[0] := '{';
    }

    /** `jb_grow` */
    method Grow(need: nat)
      requires Valid()
      modifies this`buf
      ensures Valid() && Text() == old(Text()) && len + need <= buf.Length
      ensures buf == old(buf) || fresh(buf)
    {
      if len + need <= buf.Length { return; }
      var cap := buf.Length;
      while cap < len + need
        invariant cap >= buf.Length
        decreases len + need - cap
      {
        cap := cap * 2;
      }
      var bigger := new char[cap](i reads this, buf => if 0 <= i < buf.Length then buf[i] else NUL);
      assert bigger[..len] == buf[..len];
      buf := bigger;
    }

    /** Writes text for which room has been made. */
    method Put(s: string)
      requires Valid() && len + |s| <= buf.Length
      modifies this`len, buf
      ensures Valid() && buf == old(buf) && len == old(len) + |s| && Text() == old(Text()) + s
    {
      CopyInto(buf, len, s);
      len := len + |s|;
    }

    /** `jb_key`: four characters besides the key are enough for comma, quotes and colon. */
    method Key(key: string)
      requires Valid()
      modifies this, buf
      ensures Valid() && !first
      ensures Text() == old(Text()) + Lead(old(first)) + ("\"" + key + "\":")
      ensures buf == old(buf) || fresh(buf)
    {
      Grow(|key| + 4);
      ghost var t := Text();
      if !first {
        Put(",");
      } else {
        assert t + "" == t;
      }
      first := false;
      Put("\"");
      Put(key);
      Put("\":");
      Regroup(t + Lead(old(first)), "\"", key, "\":");
    }

    method AppendInt(key: string, n: Int64)
      requires Valid()
      modifies this, buf
      ensures Valid() && !first
      ensures Text() == old(Text()) + Lead(old(first)) + MemberText(key, DecInt(n))
      ensures buf == old(buf) || fresh(buf)
    {
      Key(key);
      ghost var t := Text();
      Grow(21);
      PutInt(n);
      Tail(old(Text()) + Lead(old(first)), key, DecInt(n));
    }

    /** `fast_i64_write` at the end of the text. */
    method PutInt(n: Int64)
      requires Valid() && len + 20 <= buf.Length
      modifies this`len, buf
      ensures Valid() && buf == old(buf) && len == old(len) + |DecInt(n)| <= old(len) + 20
      ensures Text() == old(Text()) + DecInt(n)
    {
      Int64Length(n);
      var k := FastWrite(n, buf, len);
      len := len + k;
    }

    method AppendBool(key: string, b: bool)
      requires Valid()
      modifies this, buf
      ensures Valid() && !first
      ensures Text() == old(Text()) + Lead(old(first)) + MemberText(key, if b then "true" else "false")
      ensures buf == old(buf) || fresh(buf)
    {
      Key(key);
      if b {
        Grow(4);
        Put("true");
      } else {
        Grow(5);
        Put("false");
      }
      Tail(old(Text()) + Lead(old(first)), key, if b then "true" else "false");
    }

    method AppendString(key: string, s: string)
      requires Valid()
      modifies this, buf
      ensures Valid() && !first
      ensures Text() == old(Text()) + Lead(old(first)) + MemberText(key, Quoted(s))
      ensures buf == old(buf) || fresh(buf)
    {
      Key(key);
      Grow(|s| * 2 + 2);
      PutQuoted(s);
      Tail(old(Text()) + Lead(old(first)), key, Quoted(s));
    }

    /** Two characters per input character and the quotes: the worst case fits. */
    method PutQuoted(s: string)
      requires Valid() && len + |s| * 2 + 2 <= buf.Length
      modifies this`len, buf
      ensures Valid() && buf == old(buf) && Text() == old(Text()) + Quoted(s)
    {
      ghost var t := Text();
      Put("\"");
      for k := 0 to |s|
        invariant Valid() && buf == old(buf) && len <= old(len) + 1 + 2 * k
        invariant Text() == t + "\"" + Escape(s[..k])
      {
        EscapeSnoc(t + "\"", s, k);
        Put(EscapeChar(s[k]));
      }
      assert s[..|s|] == s;
      Put("\"");
      Regroup(t, "\"", Escape(s), "\"");
    }

    method AppendIntList(key: string, xs: seq<Int64>)
      requires Valid()
      modifies this, buf
      ensures Valid() && !first
      ensures Text() == old(Text()) + Lead(old(first)) + MemberText(key, "[" + JoinComma(DecAll(xs)) + "]")
      ensures buf == old(buf) || fresh(buf)
    {
      Key(key);
      Grow(|xs| * 21 + 4);
      PutInts(xs);
      Tail(old(Text()) + Lead(old(first)), key, "[" + JoinComma(DecAll(xs)) + "]");
    }

    /** Twenty characters and a comma per element, and the brackets: the worst case fits. */
    method PutInts(xs: seq<Int64>)
      requires Valid() && len + |xs| * 21 + 4 <= buf.Length
      modifies this`len, buf
      ensures Valid() && buf == old(buf) && Text() == old(Text()) + ("[" + JoinComma(DecAll(xs)) + "]")
    {
      ghost var t, parts := Text(), DecAll(xs);
      Put("[");
      for i := 0 to |xs|
        invariant Valid() && buf == old(buf) && len <= old(len) + 1 + 21 * i
        invariant Text() == t + "[" + JoinComma(parts[..i])
      {
        IntElement(xs, i);
        JoinSnoc(t + "[", parts, i);
        if i > 0 {
          Put(",");
        } else {
          assert Text() + "" == Text();
        }
        PutInt(xs[i]);
      }
      assert parts[..|xs|] == parts;
      Put("]");
      Regroup(t, "[", JoinComma(parts), "]");
    }

    /** `jsonBuilderFinish`: closes the object and terminates the text. */
    method Finish() returns (text: string)
      requires Valid()
      modifies this, buf
      ensures text == old(Text()) + "}"
    {
      Grow(2);
      Put("}");
      buf[len] := NUL;
      text := buf[..len];
    }

    method Apply(a: Add)
      requires Valid()
      modifies this, buf
      ensures Valid() && !first
      ensures Text() == old(Text()) + Lead(old(first)) + MemberText(a.key, ValueText(a))
      ensures buf == old(buf) || fresh(buf)
    {
      match a
      case AddInt(k, n) => AppendInt(k, n);
      case AddBool(k, b) => AppendBool(k, b);
      case AddString(k, s) => AppendString(k, s);
      case AddIntList(k, xs) => AppendIntList(k, xs);
    }
  }

  function Lead(first: bool): string { if first then "" else "," }

  lemma {:induction false} Tail(t: string, key: string, x: string)
    ensures t + ("\"" + key + "\":") + x == t + MemberText(key, x)
  {
    assert t + ("\"" + key + "\":") + x == t + ("\"" + key + "\":" + x);
  }

  /** A whole run: no write leaves the buffer, and the text is that of the members in order. */
  method Build(adds: seq<Add>) returns (text: string)
    ensures text == BuiltText(adds)
  {
    var b := new Builder();
    ghost var parts := Members(adds);
    for i := 0 to |adds|
      invariant b.Valid() && fresh(b) && fresh(b.buf) && b.first == (i == 0)
      invariant b.Text() == "{" + JoinComma(parts[..i])
    {
      JoinSnoc("{", parts, i);
      b.Apply(adds[i]);
    }
    assert parts[..|adds|] == parts;
    text := b.Finish();
  }

  // ---- Reading a built text back ----

  /** A key that may stand between quotes unescaped. */
  predicate CleanKey(k: string) {
    forall i :: 0 <= i < |k| ==> k[i] != '"' && k[i] != '\\' && k[i] != NUL
  }

  lemma {:induction false} CleanKeyScanned(k: string, s: string, q: nat)
    requires CleanKey(k) && Occurs(s, q, k + "\"")
    ensures StringBody(s, q) == k && StringStop(s, q) == q + |k|
    decreases |k|
  {
    OccursAppend(s, q, k, "\"");
    if k == "" {
      OccursAt(s, q, "\"", 0);
    } else {
      OccursAt(s, q, k, 0);
      assert k + "\"" == k[..1] + (k[1..] + "\"");
      OccursAppend(s, q, k[..1], k[1..] + "\"");
      CleanKeyScanned(k[1..], s, q + 1);
    }
  }

  lemma {:induction false} CleanKeyReadsAs(k: string, s: string)
    requires CleanKey(k)
    ensures KeyReadsAs(s, k, k)
  {
    forall q: nat | Occurs(s, q, k + "\"")
      ensures StringBody(s, q) == k && StringStop(s, q) == q + |k|
    {
      CleanKeyScanned(k, s, q);
    }
  }

  predicate CString(a: Add) { CleanKey(a.key) && (a.AddString? ==> NulFree(a.s)) }

  lemma {:induction false} AddReadsAs(a: Add, s: string)
    requires a.AddString? ==> NulFree(a.s)
    ensures ReadsAs(s, ValueText(a), Meaning(a))
  {
    match a
    case AddInt(_, n) => TreeReadsAs(SInt(n), s);
    case AddBool(_, b) => TreeReadsAs(SBool(b), s);
    case AddString(_, t) => TreeReadsAs(SStr(t), s);
    case AddIntList(_, xs) => TreeReadsAs(SIntArr(xs), s);
  }

  /** Folding members from the front or from the back gives the same map. */
  lemma {:induction false} UpdatesSnoc(acc: map<string, Json>, fs: seq<Field>)
    requires fs != []
    ensures var n := |fs| - 1; Updates(acc, fs) == Updates(acc, fs[..n])[fs[n].key := fs[n].value]
    decreases |fs|
  {
    if |fs| > 1 {
      UpdatesSnoc(acc[fs[0].key := fs[0].value], fs[1..]);
      var n := |fs| - 1;
      assert fs[1..][..n - 1] == fs[..n][1..];
    }
  }

  /** The members of a run as the reader sees them: each key stands for itself. */
  function AddFields(adds: seq<Add>): (r: seq<Field>)
    ensures |r| == |adds|
  {
    seq(|adds|, i requires 0 <= i < |adds| => Field(adds[i].key, adds[i].key, ValueText(adds[i]), Meaning(adds[i])))
  }

  lemma {:induction false} LastWritesAreUpdates(adds: seq<Add>)
    ensures Updates(map[], AddFields(adds)) == LastWrites(adds)
    decreases |adds|
  {
    if adds != [] {
      var n := |adds| - 1;
      LastWritesAreUpdates(adds[..n]);
      UpdatesSnoc(map[], AddFields(adds));
      assert AddFields(adds)[..n] == AddFields(adds[..n]);
    }
  }

  lemma {:induction false} MembersAsTexts(adds: seq<Add>)
    ensures MemberTexts(AddFields(adds)) == Members(adds)
  {
    forall i | 0 <= i < |adds|
      ensures MemberTexts(AddFields(adds))[i] == Members(adds)[i]
    {
      MemberTextAt(AddFields(adds), i);
    }
  }

  ghost predicate AddFits(a: Add) {
    match a
    case AddInt(_, n) => Fits(n)
    case AddIntList(_, xs) => forall i :: 0 <= i < |xs| ==> Fits(xs[i])
    case _ => true
  }

  predicate AddMinFree(a: Add) {
    match a
    case AddInt(_, n) => n != INT64_MIN
    case AddIntList(_, xs) => forall i :: 0 <= i < |xs| ==> xs[i] != INT64_MIN
    case _ => true
  }

  lemma {:induction false} AddFitsIff(a: Add)
    ensures AddFits(a) <==> AddMinFree(a)
  {
    match a
    case AddInt(_, n) => AccumulatorFits(n);
    case AddIntList(_, xs) => ListFitsIff(xs);
    case _ =>
  }

  /**
   Every run with clean keys is read back as the map of its last writes, and by the C reader
   without overflow exactly when no least integer was added.
   */
  lemma {:induction false} BuiltTextParses(adds: seq<Add>)
    requires forall i :: 0 <= i < |adds| ==> CString(adds[i])
    ensures Value(BuiltText(adds), 0) == (Obj(LastWrites(adds)), |BuiltText(adds)|)
    ensures forall i :: 0 <= i < |adds| ==> (AddFits(adds[i]) <==> AddMinFree(adds[i]))
  {
    forall i | 0 <= i < |adds| ensures AddFits(adds[i]) <==> AddMinFree(adds[i]) {
      AddFitsIff(adds[i]);
    }
    BuiltRead(adds);
  }

  lemma {:induction false} BuiltRead(adds: seq<Add>)
    requires forall i :: 0 <= i < |adds| ==> CString(adds[i])
    ensures Value(BuiltText(adds), 0) == (Obj(LastWrites(adds)), |BuiltText(adds)|)
  {
    var s := BuiltText(adds);
    MembersAsTexts(adds);
    forall i | 0 <= i < |adds|
      ensures FieldReads(s, AddFields(adds)[i])
    {
      CleanKeyReadsAs(adds[i].key, s);
      AddReadsAs(adds[i], s);
    }
    ObjectRead(AddFields(adds), s, 0);
    LastWritesAreUpdates(adds);
  }

  // ---- Keys that are not clean ----

  /** The length of the run of backslashes a string starts with. */
  function Backslashes(u: string): (n: nat)
    ensures n <= |u| && (forall i :: 0 <= i < n ==> u[i] == '\\') && (n < |u| ==> u[n] != '\\')
  {
    if u != "" && u[0] == '\\' then Backslashes(u[1..]) + 1 else 0
  }

  /** The reader turns every two backslashes of a run into one. */
  lemma {:induction false} BackslashesRead(s: string, r: nat, j: nat)
    requires r + 2 * j <= |s| && forall i :: r <= i < r + 2 * j ==> s[i] == '\\'
    ensures |StringBody(s, r)| >= j && StringBody(s, r)[j..] == StringBody(s, r + 2 * j)
    decreases j
  {
    if j > 0 {
      BackslashesRead(s, r + 2, j - 1);
      assert StringBody(s, r) == ['\\'] + StringBody(s, r + 2);
      assert StringBody(s, r)[j..] == StringBody(s, r + 2)[j - 1..];
    }
  }

  /** Text that starts with a backslash is never read back as itself. */
  lemma {:induction false} BackslashMisread(u: string, s: string, r: nat)
    requires u != "" && u[0] == '\\' && NulFree(u) && Occurs(s, r, u + "\"")
    ensures StringBody(s, r) != u
  {
    var n := Backslashes(u);
    var j := n / 2;
    var t := u + "\"";
    forall i | r <= i < r + n ensures s[i] == '\\' {
      assert s[r + (i - r)] == t[i - r];
    }
    BackslashesRead(s, r, j);
    OccursAt(s, r, t, 2 * j);
    OccursAt(s, r, t, n);
    assert StringBody(s, r + 2 * j) == "" || StringBody(s, r + 2 * j)[0] != '\\';
    assert u[j..] != "" && u[j..][0] == u[j] == '\\';
  }

  /** A key with a quote or a backslash is never read back as itself. */
  lemma {:induction false} DirtyKeyMisread(k: string, s: string, q: nat)
    requires NulFree(k) && !CleanKey(k) && Occurs(s, q, k + "\"")
    ensures StringBody(s, q) != k
    decreases |k|
  {
    OccursAt(s, q, k + "\"", 0);
    if k[0] == '\\' {
      BackslashMisread(k, s, q);
    } else if k[0] != '"' {
      PlainCharRead(k, s, q);
      DirtyKeyMisread(k[1..], s, q + 1);
      assert StringBody(s, q)[1..] == StringBody(s, q + 1);
    }
  }

  lemma {:induction false} PlainCharRead(k: string, s: string, q: nat)
    requires k != "" && k[0] != '"' && k[0] != '\\' && k[0] != NUL && Occurs(s, q, k + "\"")
    ensures Occurs(s, q + 1, k[1..] + "\"") && StringBody(s, q) == [k[0]] + StringBody(s, q + 1)
  {
    OccursAt(s, q, k + "\"", 0);
    assert k + "\"" == k[..1] + (k[1..] + "\"");
    OccursAppend(s, q, k[..1], k[1..] + "\"");
  }

  /** No member read later removes a key. */
  lemma {:induction false} FieldsKeepKeys(s: string, p: nat, acc: map<string, Json>)
    requires p <= |s|
    ensures acc.Keys <= Fields(s, p, acc).0.Keys
    decreases |s| - p
  {
    var b := SkipBlanks(s, p);
    if At(s, p) != NUL && At(s, p) != '}' && At(s, b) == '"' {
      var (key, v, q) := Member(s, b);
      FieldsKeepKeys(s, q, acc[key := v]);
    }
  }

  /** The key read from a built text is that of the first member text. */
  lemma {:induction false} FirstKeyRead(s: string)
    requires |s| >= 2 && s[0] == '{' && s[1] == '"'
    ensures Value(s, 0).0.Obj? && StringBody(s, 2) in Value(s, 0).0.fields
  {
    assert Value(s, 0) == ValueAt(s, 0) == Object(s, 0);
    assert SkipBlanks(s, 1) == 1;
    var (key, v, q) := Member(s, 1);
    assert Fields(s, 1, map[]) == Fields(s, q, map[][key := v]);
    FieldsKeepKeys(s, q, map[][key := v]);
  }

  /**
   Keys are written unescaped, so a one-member text is read back as that member exactly when
   its key has neither quotes nor backslashes.
   */
  lemma {:induction false} OneMemberParses(a: Add)
    requires NulFree(a.key) && (a.AddString? ==> NulFree(a.s))
    ensures Value(BuiltText([a]), 0).0 == Obj(map[a.key := Meaning(a)]) <==> CleanKey(a.key)
  {
    var k, s := a.key, BuiltText([a]);
    if CleanKey(k) {
      BuiltRead([a]);
      assert [a][..0] == [];
    } else {
      var x := ValueText(a);
      assert Members([a]) == [MemberText(k, x)];
      assert s == "{" + (MemberText(k, x) + "}");
      assert Occurs(s, 1, MemberText(k, x)) by {
        assert Occurs(s, 0, "{" + (MemberText(k, x) + "}"));
        OccursAppend(s, 0, "{", MemberText(k, x) + "}");
        OccursAppend(s, 1, MemberText(k, x), "}");
      }
      MemberParts(k, x, s, 1);
      DirtyKeyMisread(k, s, 2);
      FirstKeyRead(s);
    }
  }
}
