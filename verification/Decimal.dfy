/**
 Decimal text of 64-bit integers: what `%lld` prints, what the runtime's digit-pair writer
 produces, and what its digit accumulator reads back.
 */
module Decimal {

  const INT64_MAX: int := 0x7fff_ffff_ffff_ffff
  const TWO64: int := 0x1_0000_0000_0000_0000

  type Int64 = x: int | -INT64_MAX - 1 <= x <= INT64_MAX

  predicate IsDigit(c: char) { '0' <= c <= '9' }

  function DigitValue(c: char): (d: int)
    ensures IsDigit(c) <==> 0 <= d < 10
  {
    c as int - '0' as int
  }

  function DigitChar(d: nat): (c: char)
    requires d < 10
    ensures IsDigit(c) && DigitValue(c) == d
  {
    ('0' as int + d) as char
  }

  /** The digits in order, for the reader and for the writer. */
  lemma {:induction false} DigitIs(c: char, d: nat)
    requires d < 10
    ensures IsDigit(c) && DigitValue(c) == d <==> c == "0123456789"[d]
    ensures DigitChar(d) == "0123456789"[d]
  {
  }

  predicate AllDigits(t: string) { forall i :: 0 <= i < |t| ==> IsDigit(t[i]) }

  /** Canonical decimal of a natural number. */
  function Dec(n: nat): (t: string)
    ensures |t| > 0 && AllDigits(t)
  {
    if n < 10 then [DigitChar(n)] else Dec(n / 10) + [DigitChar(n % 10)]
  }

  /** Canonical decimal of an integer. */
  function DecInt(v: int): (t: string)
    ensures |t| > 0
  {
    if v < 0 then "-" + Dec(-v) else Dec(v)
  }

  function Magnitude(v: int): nat { if v < 0 then -v else v }

  /** The accumulator `val = val * 10 + digit` run over a whole run of digits. */
  function Accumulate(t: string): (n: int)
    requires AllDigits(t)
    ensures n >= 0
  {
    if t == "" then 0 else Accumulate(t[..|t| - 1]) * 10 + DigitValue(t[|t| - 1])
  }

  /** Reading back what was printed. */
  lemma {:induction false} AccumulateDec(n: nat)
    ensures Accumulate(Dec(n)) == n
  {
    if n < 10 {
      assert Dec(n)[..0] == "";
    } else {
      AccumulateDec(n / 10);
      assert Dec(n)[..|Dec(n)| - 1] == Dec(n / 10);
    }
  }

  /** No canonical decimal has a leading zero, except zero itself. */
  lemma {:induction false} NoLeadingZero(n: nat)
    requires n > 0
    ensures Dec(n)[0] != '0'
  {
    if n >= 10 {
      NoLeadingZero(n / 10);
    }
  }

  /** The accumulator never passes the value it ends with, so it overflows only if that value does. */
  lemma {:induction false} AccumulatePrefix(t: string, k: nat)
    requires AllDigits(t) && k <= |t|
    ensures Accumulate(t[..k]) <= Accumulate(t)
  {
    if k < |t| {
      AccumulatePrefix(t[..|t| - 1], k);
      assert t[..|t| - 1][..k] == t[..k];
    } else {
      assert t[..k] == t;
    }
  }

  function AccumulatorAfter(t: string, k: nat): int
    requires AllDigits(t) && k <= |t|
  {
    Accumulate(t[..k])
  }

  /** No step of the accumulation leaves int64. */
  ghost predicate FitsAccumulator(t: string)
    requires AllDigits(t)
  {
    forall k :: 0 <= k <= |t| ==> AccumulatorAfter(t, k) <= INT64_MAX
  }

  /**
   Parsing the digits printed for `v` stays inside int64 at every step exactly when `v` is not
   the least int64, whose magnitude the positive accumulator cannot hold.
   */
  lemma {:induction false} AccumulatorFits(v: Int64)
    ensures FitsAccumulator(Dec(Magnitude(v))) <==> v != -INT64_MAX - 1
  {
    var n := Magnitude(v);
    var t := Dec(n);
    AccumulateDec(n);
    assert t[..|t|] == t;
    assert AccumulatorAfter(t, |t|) == n;
    forall k | 0 <= k <= |t|
      ensures AccumulatorAfter(t, k) <= n
    {
      AccumulatePrefix(t, k);
    }
  }

  ghost function Pow10(k: nat): nat {
    if k == 0 then 1 else 10 * Pow10(k - 1)
  }

  lemma {:induction false} DecLength(n: nat, k: nat)
    requires k > 0 && n < Pow10(k)
    ensures |Dec(n)| <= k
  {
    if n >= 10 {
      assert Pow10(k) == 10 * Pow10(k - 1);
      assert k != 1;
      DecLength(n / 10, k - 1);
    }
  }

  /** Every int64 prints in at most twenty characters. */
  lemma {:induction false} Int64Length(v: Int64)
    ensures |Dec(Magnitude(v))| <= 19
    ensures |DecInt(v)| <= 20
  {
    assert Pow10(19) == 10_000_000_000_000_000_000 by {
      assert Pow10(3) == 1000;
      assert Pow10(6) == 1_000_000;
      assert Pow10(9) == 1_000_000_000;
      assert Pow10(12) == 1_000_000_000_000;
      assert Pow10(15) == 1_000_000_000_000_000;
      assert Pow10(18) == 1_000_000_000_000_000_000;
    }
    DecLength(Magnitude(v), 19);
  }

  // ---- The digit-pair writer ----

  /** The two digits of every number below one hundred, one pair after the other. */
  const DIGIT_PAIRS: seq<char> :=
    seq(200, i requires 0 <= i < 200 => if i % 2 == 0 then DigitChar(i / 20) else DigitChar(i / 2 % 10))

  function AsUnsigned(v: Int64): (u: nat) { if v < 0 then v + TWO64 else v }

  function NegateUnsigned(u: nat): (r: int)
    requires u < TWO64
  {
    (TWO64 - u) % TWO64
  }

  function Reverse(t: string): (r: string)
    ensures |r| == |t|
  {
    if t == "" then "" else Reverse(t[1..]) + [t[0]]
  }

  lemma {:induction false} ReverseAppend(t: string, u: string)
    ensures Reverse(t + u) == Reverse(u) + Reverse(t)
  {
    if t == "" {
      assert t + u == u;
    } else {
      ReverseAppend(t[1..], u);
      assert (t + u)[1..] == t[1..] + u;
    }
  }

  lemma {:induction false} ReverseAt(t: string, k: nat)
    requires k < |t|
    ensures Reverse(t)[k] == t[|t| - 1 - k]
  {
    if k < |t| - 1 {
      ReverseAt(t[1..], k);
    }
  }

  /** Two digits at a time: the last pair of a number is its remainder modulo one hundred. */
  lemma {:induction false} DecPair(u: nat)
    requires u >= 100
    ensures Dec(u) == Dec(u / 100) + [DigitChar(u % 100 / 10), DigitChar(u % 100 % 10)]
  {
    assert u / 10 / 10 == u / 100;
    assert u / 10 % 10 == u % 100 / 10;
    assert u % 10 == u % 100 % 10;
  }

  /** Appending a pair low digit first puts it, in reading order, in front of what is there. */
  lemma {:induction false} ReversePair(done: string, v: nat)
    requires v < 100
    ensures Reverse(done + [DigitChar(v % 10), DigitChar(v / 10)])
         == [DigitChar(v / 10), DigitChar(v % 10)] + Reverse(done)
  {
    var pair := [DigitChar(v % 10), DigitChar(v / 10)];
    ReverseAppend(done, pair);
    assert pair[1..] == [DigitChar(v / 10)];
    assert pair[1..][1..] == "";
    assert Reverse(pair) == [DigitChar(v / 10), DigitChar(v % 10)];
  }

  /** One round of the pair loop keeps the digits to write followed by those written. */
  lemma {:induction false} PairStep(done: string, u: nat)
    requires u >= 100
    ensures |Dec(u / 100)| + 2 == |Dec(u)|
    ensures Dec(u / 100) + Reverse(done + [DigitChar(u % 100 % 10), DigitChar(u % 100 / 10)]) == Dec(u) + Reverse(done)
  {
    var pair := [DigitChar(u % 100 / 10), DigitChar(u % 100 % 10)];
    DecPair(u);
    ReversePair(done, u % 100);
    assert Dec(u / 100) + pair + Reverse(done) == Dec(u / 100) + (pair + Reverse(done));
  }

  method PutPair(tmp: array<char>, n: nat, v: nat)
    requires n + 2 <= tmp.Length && v < 100
    modifies tmp
    ensures tmp[..n + 2] == old(tmp[..n]) + [DigitChar(v % 10), DigitChar(v / 10)]
  {
    var d := v * 2;
    tmp[n] := DIGIT_PAIRS[d + 1];
    tmp[n + 1] := DIGIT_PAIRS[d];
  }

  /** The digits of `u`, pair by pair, low end first. */
  method WritePairs(tmp: array<char>, u: nat) returns (n: nat)
    requires |Dec(u)| < tmp.Length
    modifies tmp
    ensures n == |Dec(u)| && Reverse(tmp[..n]) == Dec(u)
  {
    var uval := u;
    n := 0;
    while uval >= 100
      invariant n + |Dec(uval)| == |Dec(u)|
      invariant Dec(uval) + Reverse(tmp[..n]) == Dec(u)
    {
      PairStep(tmp[..n], uval);
      PutPair(tmp, n, uval % 100);
      n := n + 2;
      uval := uval / 100;
    }
    ghost var done := tmp[..n];
    if uval >= 10 {
      ReversePair(done, uval);
      PutPair(tmp, n, uval);
      n := n + 2;
    } else {
      tmp[n] := DigitChar(uval);
      assert tmp[..n + 1] == done + [DigitChar(uval)];
      ReverseAppend(done, [DigitChar(uval)]);
      n := n + 1;
    }
  }

  /** The final loop: the scratch buffer back to front. */
  method CopyReversed(tmp: array<char>, n: nat, buf: array<char>, at: nat)
    requires n <= tmp.Length && at + n <= buf.Length && tmp != buf
    modifies buf
    ensures buf[..at + n] == old(buf[..at]) + Reverse(tmp[..n]) && buf[at + n..] == old(buf[at + n..])
  {
    ghost var text := Reverse(tmp[..n]);
    var i := 0;
    while i < n
      invariant 0 <= i <= n
      invariant buf[..at + i] == old(buf[..at]) + text[..i] && buf[at + n..] == old(buf[at + n..])
    {
      ReverseAt(tmp[..n], i);
      buf[at + i] := tmp[n - 1 - i];
      i := i + 1;
    }
  }

  /** The path for numbers from 0 to 99. */
  method WriteShort(val: nat, buf: array<char>, at: nat) returns (n: nat)
    requires val < 100 && at + |Dec(val)| <= buf.Length
    modifies buf
    ensures n == |Dec(val)|
    ensures buf[..at + n] == old(buf[..at]) + Dec(val) && buf[at + n..] == old(buf[at + n..])
  {
    if val < 10 {
      buf[at] := DigitChar(val);
      return 1;
    }
    var d := val * 2;
    assert Dec(val) == [DigitChar(val / 10), DigitChar(val % 10)];
    buf[at] := DIGIT_PAIRS[d];
    buf[at + 1] := DIGIT_PAIRS[d + 1];
    return 2;
  }

  method PutSign(tmp: array<char>, n: nat) returns (next: nat)
    requires n < tmp.Length
    modifies tmp
    ensures next == n + 1 && Reverse(tmp[..next]) == "-" + Reverse(old(tmp[..n]))
  {
    tmp[n] := '-';
    next := n + 1;
    ReverseAppend(old(tmp[..n]), "-");
    assert tmp[..next] == old(tmp[..n]) + "-";
  }

  /** The scratch text: digits low end first, then the sign. */
  method FillScratch(val: Int64, tmp: array<char>) returns (n: nat)
    requires tmp.Length == 21
    modifies tmp
    ensures n <= 20 && Reverse(tmp[..n]) == DecInt(val)
  {
    Int64Length(val);
    var neg := val < 0;
    var uval := if neg then NegateUnsigned(AsUnsigned(val)) else AsUnsigned(val);
    n := WritePairs(tmp, uval);
    if neg {
      n := PutSign(tmp, n);
    }
  }

  /** The path for negative numbers and numbers of three digits or more. */
  method WriteLong(val: Int64, buf: array<char>, at: nat) returns (n: nat)
    requires at + |DecInt(val)| <= buf.Length
    modifies buf
    ensures n == |DecInt(val)|
    ensures buf[..at + n] == old(buf[..at]) + DecInt(val) && buf[at + n..] == old(buf[at + n..])
  {
    var tmp := new char[21];
    n := FillScratch(val, tmp);
    assert n == |Reverse(tmp[..n])|;
    CopyReversed(tmp, n, buf, at);
  }

  /**
   `fast_i64_write`: the decimal of `val` at `buf[at..]`. Only as much room is demanded as the
   text takes, which is at most twenty characters.
   */
  method FastWrite(val: Int64, buf: array<char>, at: nat) returns (n: nat)
    requires at + |DecInt(val)| <= buf.Length
    modifies buf
    ensures n == |DecInt(val)| <= 20
    ensures buf[..at + n] == old(buf[..at]) + DecInt(val) && buf[at + n..] == old(buf[at + n..])
  {
    Int64Length(val);
    if AsUnsigned(val) < 100 {
      n := WriteShort(val, buf, at);
    } else {
      n := WriteLong(val, buf, at);
    }
  }
}
