/**
 Base64 with padding, as in section 4 of RFC 4648: the runtime's encoder and the package
 manager's decoder, which undo each other although they were written apart.
 */
module Base64 {
  import opened Wrappers
  import opened Powers

  type Sextet = v: int | 0 <= v < 64

  // ---- The encoder ----

  /** Letter `v` of the alphabet in table 1 of RFC 4648. */
  function Letter(v: Sextet): char {
    if v < 26 then 'A' + v as char
    else if v < 52 then 'a' + (v - 26) as char
    else if v < 62 then '0' + (v - 52) as char
    else if v == 62 then '+' else '/'
  }

  /** It is the encoder's table of letters, here in four rows of sixteen. */
  lemma {:induction false} LetterIsTable(v: Sextet)
    ensures v < 16 ==> Letter(v) == "ABCDEFGHIJKLMNOP"[v]
    ensures 16 <= v < 32 ==> Letter(v) == "QRSTUVWXYZabcdef"[v - 16]
    ensures 32 <= v < 48 ==> Letter(v) == "ghijklmnopqrstuv"[v - 32]
    ensures 48 <= v ==> Letter(v) == "wxyz0123456789+/"[v - 48]
  {
  }

  /** Four letters of a 24-bit group of `n` bytes, the last ones padding. */
  function Quad(v: nat, n: nat): (r: string)
    ensures |r| == 4
  {
    [Letter(v / 262144 % 64), Letter(v / 4096 % 64),
     if n > 1 then Letter(v / 64 % 64) else '=',
     if n > 2 then Letter(v % 64) else '=']
  }

  /** The group at `i`, missing bytes as zero. */
  function Group(x: seq<Byte>, i: nat): nat
    requires i < |x|
  {
    x[i] * 65536 + (if i + 1 < |x| then x[i + 1] * 256 else 0) + (if i + 2 < |x| then x[i + 2] as int else 0)
  }

  function EncodeFrom(x: seq<Byte>, i: nat): (r: string)
    ensures |r| == if i < |x| then 4 * ((|x| - i + 2) / 3) else 0
    decreases |x| - i
  {
    if i >= |x| then [] else Quad(Group(x, i), |x| - i) + EncodeFrom(x, i + 3)
  }

  /** `tinox_b64_encode` */
  function Encode(x: seq<Byte>): string { EncodeFrom(x, 0) }

  /** The encoder as it runs, into a buffer of the length it computed. */
  method EncodeBytes(x: seq<Byte>) returns (out: array<char>)
    ensures fresh(out) && out[..] == Encode(x)
  {
    out := new char[4 * ((|x| + 2) / 3)];
    var i, o := 0, 0;
    while i < |x|
      invariant 0 <= i && 0 <= o && o + |EncodeFrom(x, i)| == out.Length
      invariant out[..o] + EncodeFrom(x, i) == Encode(x)
    {
      o := PutQuad(x, i, out, o);
      i := i + 3;
    }
    assert out[..o] == out[..];
  }

  method PutFour(out: array<char>, o: nat, c0: char, c1: char, c2: char, c3: char) returns (next: nat)
    requires o + 4 <= out.Length
    modifies out
    ensures next == o + 4 && out[..next] == old(out[..o]) + [c0, c1, c2, c3]
  {
    out[o], out[o + 1], out[o + 2], out[o + 3] := c0, c1, c2, c3;
    next := o + 4;
  }

  lemma {:induction false} Assoc(x: string, y: string, z: string)
    ensures x + y + z == x + (y + z)
  {
  }

  method PutQuad(x: seq<Byte>, i: nat, out: array<char>, o: nat) returns (next: nat)
    requires i < |x| && o + |EncodeFrom(x, i)| == out.Length
    modifies out
    ensures next + |EncodeFrom(x, i + 3)| == out.Length
    ensures out[..next] + EncodeFrom(x, i + 3) == old(out[..o]) + EncodeFrom(x, i)
  {
    var v, n := Group(x, i), |x| - i;
    ghost var before, quad, rest := out[..o], Quad(v, n), EncodeFrom(x, i + 3);
    next := PutFour(out, o, Letter(v / 262144 % 64), Letter(v / 4096 % 64),
                    if n > 1 then Letter(v / 64 % 64) else '=', if n > 2 then Letter(v % 64) else '=');
    Assoc(before, quad, rest);
  }

  // ---- The decoder ----

  predicate IsSpace(c: char) { c == ' ' || c == '\t' || c == '\n' || c as int == 12 || c == '\r' }

  function Strip(t: string): string {
    if t == [] then [] else (if IsSpace(t[0]) then [] else [t[0]]) + Strip(t[1..])
  }

  function Value(c: char): (r: Option<Sextet>) {
    if 'A' <= c <= 'Z' then Some(c as int - 'A' as int)
    else if 'a' <= c <= 'z' then Some(c as int - 'a' as int + 26)
    else if '0' <= c <= '9' then Some(c as int - '0' as int + 52)
    else if c == '+' then Some(62)
    else if c == '/' then Some(63)
    else None
  }

  /** The bytes packed into neighbouring letters; the left shifts drop what leaves eight bits. */
  function First(c0: Sextet, c1: Sextet): Byte { c0 * 4 + c1 / 16 }
  function Second(c1: Sextet, c2: Sextet): Byte { c1 * 16 % 256 + c2 / 4 }
  function Third(c2: Sextet, c3: Sextet): Byte { c2 * 64 % 256 + c3 }

  /** What one round of the decoder reads at `i`: the bytes it yields and whether it goes on. */
  datatype Round = Bad | Last(bytes: seq<Byte>) | More(bytes: seq<Byte>)

  function ReadQuad(t: string, i: nat): Round
    requires i < |t|
  {
    if Value(t[i]).None? || i + 1 >= |t| || Value(t[i + 1]).None? then Bad
    else
      var c0, c1 := Value(t[i]).value, Value(t[i + 1]).value;
      if i + 2 >= |t| || t[i + 2] == '=' then Last([First(c0, c1)])
      else if Value(t[i + 2]).None? then Bad
      else
        var c2 := Value(t[i + 2]).value;
        if i + 3 >= |t| || t[i + 3] == '=' then Last([First(c0, c1), Second(c1, c2)])
        else if Value(t[i + 3]).None? then Bad
        else More([First(c0, c1), Second(c1, c2), Third(c2, Value(t[i + 3]).value)])
  }

  function DecodeFrom(t: string, i: nat): Option<seq<Byte>>
    decreases |t| - i
  {
    if i >= |t| then Some([])
    else match ReadQuad(t, i)
      case Bad => None
      case Last(bytes) => Some(bytes)
      case More(bytes) =>
        var rest := DecodeFrom(t, i + 4);
        if rest.None? then None else Some(bytes + rest.value)
  }

  /** `base64_decode`: white space is dropped first. */
  function Decode(t: string): Option<seq<Byte>> { DecodeFrom(Strip(t), 0) }

  method StripSpace(t: string) returns (clean: string)
    ensures clean == Strip(t)
  {
    clean := [];
    for i := 0 to |t|
      invariant clean + Strip(t[i..]) == Strip(t)
    {
      StripNext(clean, t[i], t[i + 1..]);
      assert t[i..] == [t[i]] + t[i + 1..];
      if !IsSpace(t[i]) {
        clean := clean + [t[i]];
      }
    }
  }

  lemma {:induction false} StripNext(clean: string, c: char, rest: string)
    ensures clean + Strip([c] + rest) == if IsSpace(c) then clean + Strip(rest) else clean + [c] + Strip(rest)
  {
    assert ([c] + rest)[1..] == rest;
    assert clean + ([c] + Strip(rest)) == clean + [c] + Strip(rest);
  }

  /** Result of the rest of the loop, put behind what is already there. */
  function Behind(out: seq<Byte>, rest: Option<seq<Byte>>): Option<seq<Byte>> {
    if rest.None? then None else Some(out + rest.value)
  }

  /** The decoder as it runs. */
  method DecodeText(t: string) returns (r: Option<seq<Byte>>)
    ensures r == Decode(t)
  {
    var clean := StripSpace(t);
    var out: seq<Byte>, i := [], 0;
    BehindNothing(DecodeFrom(clean, 0));
    while i < |clean|
      invariant 0 <= i && Behind(out, DecodeFrom(clean, i)) == Decode(t)
      decreases |clean| - i
    {
      match ReadQuad(clean, i)
      case Bad => return None;
      case Last(bytes) => return Some(out + bytes);
      case More(bytes) =>
        BehindTwice(out, bytes, DecodeFrom(clean, i + 4));
        out, i := out + bytes, i + 4;
    }
    assert out + [] == out;
    return Some(out);
  }

  lemma {:induction false} BehindTwice(out: seq<Byte>, bytes: seq<Byte>, rest: Option<seq<Byte>>)
    ensures Behind(out, Behind(bytes, rest)) == Behind(out + bytes, rest)
  {
    if rest.Some? {
      assert out + (bytes + rest.value) == out + bytes + rest.value;
    }
  }

  lemma {:induction false} BehindNothing(rest: Option<seq<Byte>>)
    ensures Behind([], rest) == rest
  {
    if rest.Some? {
      assert [] + rest.value == rest.value;
    }
  }

  // ---- Decoding undoes encoding ----

  /** The decoder's ranges are the encoder's alphabet. */
  lemma {:induction false} ValueOfLetter(v: Sextet)
    ensures Value(Letter(v)) == Some(v) && Letter(v) != '=' && !IsSpace(Letter(v))
  {
  }

  lemma {:induction false} Digits(x: nat, s: Sextet)
    ensures (x * 64 + s) / 64 == x && (x * 64 + s) % 64 == s
  {
  }

  /** Four sextets are read back from the number they make up. */
  lemma {:induction false} Sextets(s0: Sextet, s1: Sextet, s2: Sextet, s3: Sextet)
    ensures var v := ((s0 * 64 + s1) * 64 + s2) * 64 + s3;
            v / 262144 % 64 == s0 && v / 4096 % 64 == s1 && v / 64 % 64 == s2 && v % 64 == s3
  {
    var v := ((s0 * 64 + s1) * 64 + s2) * 64 + s3;
    Digits((s0 * 64 + s1) * 64 + s2, s3);
    Digits(s0 * 64 + s1, s2);
    Digits(s0, s1);
    assert v / 64 / 64 == v / 4096;
    assert v / 64 / 64 / 64 == v / 262144;
  }

  /** The sextets of a group of three bytes. */
  lemma {:induction false} Unpacked(a: Byte, b: Byte, c: Byte)
    ensures var v := a * 65536 + b * 256 + c;
            && v / 262144 % 64 == a / 4 && v / 4096 % 64 == a % 4 * 16 + b / 16
            && v / 64 % 64 == b % 16 * 4 + c / 64 && v % 64 == c % 64
  {
    Sextets(a / 4, a % 4 * 16 + b / 16, b % 16 * 4 + c / 64, c % 64);
    assert a == a / 4 * 4 + a % 4 && b == b / 16 * 16 + b % 16 && c == c / 64 * 64 + c % 64;
  }

  lemma {:induction false} PackedFirst(high: nat, low: nat)
    requires low < 16
    ensures (high * 16 + low) / 16 == high
  {
  }

  lemma {:induction false} PackedSecond(x: nat, b: Byte)
    ensures (x % 4 * 16 + b / 16) * 16 % 256 == b / 16 * 16 && (b % 16 * 4) / 4 == b % 16
  {
    assert (x % 4 * 16 + b / 16) * 16 == x % 4 * 256 + b / 16 * 16;
  }

  lemma {:induction false} PackedThird(x: nat, c: Byte)
    requires x < 16
    ensures (x * 4 + c / 64) / 4 == x && (x * 4 + c / 64) * 64 % 256 == c / 64 * 64
  {
    assert (x * 4 + c / 64) * 64 == x * 256 + c / 64 * 64;
  }

  /** The decoder's shifts put the bytes together again. */
  lemma {:induction false} Packed(a: Byte, b: Byte, c: Byte)
    ensures First(a / 4, a % 4 * 16 + b / 16) == a
    ensures Second(a % 4 * 16 + b / 16, b % 16 * 4 + c / 64) == b
    ensures Third(b % 16 * 4 + c / 64, c % 64) == c
  {
    PackedFirst(a % 4, b / 16);
    PackedSecond(a % 4, b);
    PackedSecond(b, c);
    PackedThird(b % 16, c);
  }

  /** What the decoder reads from four letters, or from fewer and padding. */
  lemma {:induction false} LettersRead(t: string, i: nat, s0: Sextet, s1: Sextet, s2: Sextet, s3: Sextet, n: nat)
    requires 0 < n && i + 4 <= |t| && t[i] == Letter(s0) && t[i + 1] == Letter(s1)
    requires t[i + 2] == (if n > 1 then Letter(s2) else '=') && t[i + 3] == (if n > 2 then Letter(s3) else '=')
    ensures ReadQuad(t, i) ==
            if n == 1 then Last([First(s0, s1)])
            else if n == 2 then Last([First(s0, s1), Second(s1, s2)])
            else More([First(s0, s1), Second(s1, s2), Third(s2, s3)])
  {
    ValueOfLetter(s0);
    ValueOfLetter(s1);
    ValueOfLetter(s2);
    ValueOfLetter(s3);
  }

  /** What the decoder reads where a group was written. */
  lemma {:induction false} QuadRead(t: string, i: nat, a: Byte, b: Byte, c: Byte, n: nat)
    requires 0 < n && i + 4 <= |t| && t[i..i + 4] == Quad(a * 65536 + b * 256 + c, n)
    ensures ReadQuad(t, i) == if n == 1 then Last([a]) else if n == 2 then Last([a, b]) else More([a, b, c])
  {
    var q := t[i..i + 4];
    assert t[i] == q[0] && t[i + 1] == q[1] && t[i + 2] == q[2] && t[i + 3] == q[3];
    Unpacked(a, b, c);
    LettersRead(t, i, a / 4, a % 4 * 16 + b / 16, b % 16 * 4 + c / 64, c % 64, n);
    Packed(a, b, c);
  }

  lemma {:induction false} EncodedStep(x: seq<Byte>, i: nat, t: string, p: nat)
    requires i < |x| && p <= |t| && t[p..] == EncodeFrom(x, i)
    ensures p + 4 <= |t| && t[p..p + 4] == Quad(Group(x, i), |x| - i) && t[p + 4..] == EncodeFrom(x, i + 3)
  {
    var u := t[p..];
    assert u[..4] == t[p..p + 4] && u[4..] == t[p + 4..];
  }

  lemma {:induction false} GroupRead(x: seq<Byte>, i: nat, t: string, p: nat)
    requires i < |x| && p + 4 <= |t| && t[p..p + 4] == Quad(Group(x, i), |x| - i)
    ensures ReadQuad(t, p) == if i + 3 > |x| then Last(x[i..]) else More(x[i..i + 3])
  {
    var n := |x| - i;
    var a, b, c: Byte := x[i], if n > 1 then x[i + 1] else 0, if n > 2 then x[i + 2] else 0;
    QuadRead(t, p, a, b, c, n);
    if n == 1 {
      assert x[i..] == [a];
    } else if n == 2 {
      assert x[i..] == [a, b];
    } else {
      assert x[i..i + 3] == [a, b, c];
    }
  }

  /** Decoding from the letters of byte `i` on gives the bytes from there on. */
  lemma {:induction false} DecodeEncodedFrom(x: seq<Byte>, i: nat, t: string, p: nat)
    requires i <= |x| && p <= |t| && t[p..] == EncodeFrom(x, i)
    ensures DecodeFrom(t, p) == Some(x[i..])
    decreases |x| - i
  {
    if i == |x| {
      assert x[i..] == [];
    } else {
      EncodedStep(x, i, t, p);
      GroupRead(x, i, t, p);
      if i + 3 <= |x| {
        DecodeEncodedFrom(x, i + 3, t, p + 4);
        assert x[i..i + 3] + x[i + 3..] == x[i..];
      }
    }
  }

  /** Every byte sequence survives, however white space is put into its encoding. */
  lemma {:induction false} DecodeEncoded(x: seq<Byte>, t: string)
    requires Strip(t) == Encode(x)
    ensures Decode(t) == Some(x)
  {
    assert Strip(t)[0..] == Strip(t) && x[0..] == x;
    DecodeEncodedFrom(x, 0, Strip(t), 0);
  }

  /** The encoder itself writes none. */
  lemma {:induction false} EncodedIsClean(x: seq<Byte>)
    ensures Strip(Encode(x)) == Encode(x)
  {
    NoSpace(x, 0);
    StripClean(Encode(x));
  }

  lemma {:induction false} StripClean(t: string)
    requires forall k :: 0 <= k < |t| ==> !IsSpace(t[k])
    ensures Strip(t) == t
  {
    if t != [] {
      StripClean(t[1..]);
    }
  }

  lemma {:induction false} NoSpace(x: seq<Byte>, i: nat)
    ensures forall k :: 0 <= k < |EncodeFrom(x, i)| ==> !IsSpace(EncodeFrom(x, i)[k])
    decreases |x| - i
  {
    if i < |x| {
      NoSpace(x, i + 3);
      QuadClean(Group(x, i), |x| - i);
    }
  }

  lemma {:induction false} QuadClean(v: nat, n: nat)
    ensures forall k :: 0 <= k < 4 ==> !IsSpace(Quad(v, n)[k])
  {
    ValueOfLetter(v / 262144 % 64);
    ValueOfLetter(v / 4096 % 64);
    ValueOfLetter(v / 64 % 64);
    ValueOfLetter(v % 64);
  }

  lemma {:induction false} RoundTrip(x: seq<Byte>)
    ensures Decode(Encode(x)) == Some(x)
  {
    EncodedIsClean(x);
    DecodeEncoded(x, Encode(x));
  }
}
