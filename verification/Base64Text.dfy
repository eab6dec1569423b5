/**
 Base64 text, spelled out: which letter stands where in an encoding, which characters the
 decoder passes over, and which it refuses.
 */
module Base64Text {
  import opened Wrappers
  import opened Powers
  import opened Base64

  /** The alphabet of RFC 4648. */
  const TABLE: string := "ABCDEFGHIJKLMNOP" + "QRSTUVWXYZabcdef" + "ghijklmnopqrstuv" + "wxyz0123456789+/"

  /** Byte `i`, zero behind the last one. */
  function ByteAt(x: seq<Byte>, i: nat): Byte { if i < |x| then x[i] else 0 }

  /**
   The four characters of a group with `n` bytes: six bits a letter, from the top; two padding
   signs behind a single byte, one behind a pair.
   */
  function Letters(a: Byte, b: Byte, c: Byte, n: nat): string {
    [TABLE[a / 4], TABLE[a % 4 * 16 + b / 16],
     if n > 1 then TABLE[b % 16 * 4 + c / 64] else '=', if n > 2 then TABLE[c % 64] else '=']
  }

  /** An encoding is its groups, four characters for three bytes, missing bytes as zero. */
  lemma {:induction false} GroupLetters(x: seq<Byte>, k: nat)
    requires 3 * k < |x|
    ensures |Encode(x)| == (|x| + 2) / 3 * 4 && 4 * k + 4 <= |Encode(x)|
    ensures Encode(x)[4 * k..4 * k + 4] ==
            Letters(ByteAt(x, 3 * k), ByteAt(x, 3 * k + 1), ByteAt(x, 3 * k + 2), |x| - 3 * k)
  {
    GroupStands(x, Encode(x), 0, k);
  }

  lemma {:induction false} GroupStands(x: seq<Byte>, e: string, i: nat, k: nat)
    requires i == 0 && 3 * k < |x| && e == EncodeFrom(x, i)
    ensures |e| == (|x| + 2) / 3 * 4 && 4 * k + 4 <= |e|
    ensures e[4 * k..4 * k + 4] == Letters(ByteAt(x, 3 * k), ByteAt(x, 3 * k + 1), ByteAt(x, 3 * k + 2), |x| - 3 * k)
  {
    var j := 3 * k;
    QuadStands(x, i, k, j);
    GroupIs(x, j, ByteAt(x, j), ByteAt(x, j + 1), ByteAt(x, j + 2));
    QuadLetters(Group(x, j), ByteAt(x, j), ByteAt(x, j + 1), ByteAt(x, j + 2), |x| - j);
  }

  lemma {:induction false} GroupIs(x: seq<Byte>, j: nat, a: Byte, b: Byte, c: Byte)
    requires j < |x| && a == ByteAt(x, j) && b == ByteAt(x, j + 1) && c == ByteAt(x, j + 2)
    ensures Group(x, j) == a * 65536 + b * 256 + c
  {
  }

  lemma {:induction false} QuadLetters(v: nat, a: Byte, b: Byte, c: Byte, n: nat)
    requires v == a * 65536 + b * 256 + c
    ensures Quad(v, n) == Letters(a, b, c, n)
  {
    var s0: Sextet, s1: Sextet, s2: Sextet, s3: Sextet := a / 4, a % 4 * 16 + b / 16, b % 16 * 4 + c / 64, c % 64;
    Unpacked(a, b, c);
    QuadTable(v, n, s0, s1, s2, s3);
  }

  lemma {:induction false} QuadTable(v: nat, n: nat, s0: Sextet, s1: Sextet, s2: Sextet, s3: Sextet)
    requires v / 262144 % 64 == s0 && v / 4096 % 64 == s1 && v / 64 % 64 == s2 && v % 64 == s3
    ensures Quad(v, n) == [TABLE[s0], TABLE[s1], if n > 1 then TABLE[s2] else '=', if n > 2 then TABLE[s3] else '=']
  {
    InTable(s0);
    InTable(s1);
    InTable(s2);
    InTable(s3);
  }

  lemma {:induction false} InTable(v: Sextet)
    ensures Letter(v) == TABLE[v]
  {
    LetterIsTable(v);
  }

  lemma {:induction false} QuadStands(x: seq<Byte>, i: nat, k: nat, j: nat)
    requires j == i + 3 * k < |x|
    ensures 4 * k + 4 <= |EncodeFrom(x, i)|
    ensures EncodeFrom(x, i)[4 * k..4 * k + 4] == Quad(Group(x, j), |x| - j)
    decreases k
  {
    var q, rest := Quad(Group(x, i), |x| - i), EncodeFrom(x, i + 3);
    assert EncodeFrom(x, i) == q + rest;
    if k == 0 {
      assert (q + rest)[0..4] == q;
    } else {
      QuadStands(x, i + 3, k - 1, j);
      SliceBehind(q, rest, 4 * (k - 1));
    }
  }

  lemma {:induction false} SliceBehind(q: string, rest: string, p: nat)
    requires |q| == 4 && p + 4 <= |rest|
    ensures (q + rest)[p + 4..p + 8] == rest[p..p + 4]
  {
  }

  // ---- Gaps ----

  /** The characters of `e` with a gap before each of them and one at the end. */
  function Weave(e: string, gaps: seq<string>): string
    requires |gaps| == |e| + 1
  {
    if e == [] then gaps[0] else gaps[0] + [e[0]] + Weave(e[1..], gaps[1..])
  }

  /** Space, tab, newline, form feed and carriage return. */
  predicate Gap(g: string) { forall i :: 0 <= i < |g| ==> g[i] in [' ', '\t', '\n', 12 as char, '\r'] }

  /** Every byte sequence is decoded from its encoding, with gaps of any size at any places. */
  lemma {:induction false} WovenDecoded(x: seq<Byte>, gaps: seq<string>)
    requires |gaps| == |Encode(x)| + 1 && forall i :: 0 <= i < |gaps| ==> Gap(gaps[i])
    ensures Decode(Weave(Encode(x), gaps)) == Some(x)
  {
    NoSpace(x, 0);
    StripWoven(Encode(x), gaps);
    DecodeEncoded(x, Weave(Encode(x), gaps));
  }

  lemma {:induction false} StripWoven(e: string, gaps: seq<string>)
    requires |gaps| == |e| + 1 && forall i :: 0 <= i < |gaps| ==> Gap(gaps[i])
    requires forall i :: 0 <= i < |e| ==> !IsSpace(e[i])
    ensures Strip(Weave(e, gaps)) == e
    decreases |e|
  {
    if e == [] {
      StripGap(gaps[0], []);
      assert gaps[0] + [] == gaps[0];
    } else {
      var rest := Weave(e[1..], gaps[1..]);
      StripWoven(e[1..], gaps[1..]);
      assert Weave(e, gaps) == gaps[0] + ([e[0]] + rest);
      StripGap(gaps[0], [e[0]] + rest);
      StripOne(e[0], rest);
    }
  }

  lemma {:induction false} StripGap(g: string, rest: string)
    requires Gap(g)
    ensures Strip(g + rest) == Strip(rest)
    decreases |g|
  {
    if g == [] {
      assert g + rest == rest;
    } else {
      assert (g + rest)[1..] == g[1..] + rest;
      StripGap(g[1..], rest);
    }
  }

  lemma {:induction false} StripOne(c: char, rest: string)
    ensures Strip([c] + rest) == (if IsSpace(c) then [] else [c]) + Strip(rest)
  {
    assert ([c] + rest)[1..] == rest;
  }

  // ---- Foreign characters ----

  /** Letters of the alphabet and gap characters. */
  predicate Ours(t: string) {
    forall i :: 0 <= i < |t| ==>
      t[i] in TABLE || Gap([t[i]])
  }

  lemma {:induction false} AlphabetValue(c: char)
    ensures Value(c).Some? <==> c in TABLE
  {
    if Value(c).Some? {
      InTable(Value(c).value);
      assert TABLE[Value(c).value] == c;
    }
    if c in TABLE {
      var v :| 0 <= v < |TABLE| && TABLE[v] == c;
      InTable(v);
      ValueOfLetter(v);
    }
  }

  /** The first character that is no letter, no gap and no padding makes the decoder fail. */
  lemma {:induction false} ForeignRefused(t: string, c: char, rest: string)
    requires Ours(t) && !Ours([c]) && c != '='
    ensures Decode(t + [c] + rest) == None
  {
    var s := Strip(t) + ([c] + Strip(rest));
    AlphabetValue(c);
    ForeignSolid(c);
    StripAppend(t, [c] + rest);
    StripOne(c, rest);
    assert t + [c] + rest == t + ([c] + rest);
    assert [c] + Strip(rest) == Strip([c] + rest);
    LettersLeft(t);
    FailsAt(s, 0, |Strip(t)|);
  }

  lemma {:induction false} ForeignSolid(c: char)
    requires !Ours([c])
    ensures !IsSpace(c) && c !in TABLE
  {
    var t := [c];
    var i :| 0 <= i < |t| && !(t[i] in TABLE || Gap([t[i]]));
    assert t[i] == c;
  }

  lemma {:induction false} StripAppend(t: string, u: string)
    ensures Strip(t + u) == Strip(t) + Strip(u)
    decreases |t|
  {
    if t == [] {
      assert t + u == u;
    } else {
      assert (t + u)[1..] == t[1..] + u;
      StripAppend(t[1..], u);
    }
  }

  lemma {:induction false} LettersLeft(t: string)
    requires Ours(t)
    ensures forall i :: 0 <= i < |Strip(t)| ==> Value(Strip(t)[i]).Some?
    decreases |t|
  {
    if t != [] {
      assert Ours(t[1..]);
      LettersLeft(t[1..]);
      AlphabetValue(t[0]);
      assert Gap([t[0]]) ==> [t[0]][0] in [' ', '\t', '\n', 12 as char, '\r'];
    }
  }

  lemma {:induction false} FailsAt(s: string, i: nat, n: nat)
    requires i <= n < |s| && s[n] != '=' && Value(s[n]).None?
    requires forall j :: i <= j < n ==> Value(s[j]).Some?
    ensures DecodeFrom(s, i) == None
    decreases n - i
  {
    if i + 3 < n {
      QuadGood(s, i);
      FailsAt(s, i + 4, n);
    } else {
      QuadBad(s, i, n);
    }
  }

  lemma {:induction false} QuadGood(s: string, i: nat)
    requires i + 3 < |s| && forall j :: i <= j <= i + 3 ==> Value(s[j]).Some?
    ensures ReadQuad(s, i).More?
  {
    assert Value('=').None?;
    assert Value(s[i]).Some? && Value(s[i + 1]).Some? && Value(s[i + 2]).Some? && Value(s[i + 3]).Some?;
  }

  lemma {:induction false} QuadBad(s: string, i: nat, n: nat)
    requires i <= n <= i + 3 && n < |s| && s[n] != '=' && Value(s[n]).None?
    requires (i < n ==> Value(s[i]).Some?) && (i + 1 < n ==> Value(s[i + 1]).Some?) && (i + 2 < n ==> Value(s[i + 2]).Some?)
    ensures ReadQuad(s, i) == Bad
  {
    if i + 2 < n {
      assert s[i + 2] != '=';
    }
  }
}
