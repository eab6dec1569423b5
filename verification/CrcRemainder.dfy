/**
 What the checksum is: the complement of a remainder of polynomials over the integers modulo
 two, as section 8 of RFC 1952 has it through the frame check sequence of ISO 3309. Nothing in
 the statements is taken from the routine. A polynomial is the set of its exponents.
 */
module CrcRemainder {
  import opened Powers
  import opened Crc32

  type Poly = set<nat>

  /** A sum, in which equal terms cancel. */
  function Plus(a: Poly, b: Poly): Poly { (a - b) + (b - a) }

  function TimesX(a: Poly): Poly { set e | e in a :: e + 1 }

  /** A multiple of `g`; the quotient is its coefficients, lowest first. */
  function Times(q: seq<bool>, g: Poly): Poly {
    if q == [] then {} else Plus(if q[0] then g else {}, TimesX(Times(q[1..], g)))
  }

  // ---- The statement ----

  /** Bit `i` of a number, the lowest being bit 0. */
  predicate Bit(n: nat, i: nat) { (n / Pow2(i)) % 2 == 1 }

  /** The bits of a message in the order sent: byte by byte, the lowest of each first. */
  function MessageBits(data: seq<Byte>): (r: seq<bool>)
    ensures |r| == 8 * |data|
  {
    seq(8 * |data|, i requires 0 <= i < 8 * |data| => Bit(data[i / 8], i % 8))
  }

  /** A polynomial from its coefficients, highest first. */
  function OfBits(bits: seq<bool>): Poly { set i | 0 <= i < |bits| && bits[i] :: |bits| - 1 - i }

  /** The message with 32 zeros behind it and its first 32 bits complemented. */
  function Dividend(bits: seq<bool>): Poly {
    Plus(set e | e in OfBits(bits) :: e + 32, Preset(|bits|))
  }

  function Preset(n: nat): Poly { set j {:trigger j - n} | n <= j < n + 32 }

  /** What a checksum says of the remainder: its lowest bit is the coefficient of degree 31, complemented. */
  function Remainder(crc: nat): Poly { set i | 0 <= i < 32 && !Bit(crc, i) :: 31 - i }

  // ---- Sums ----

  lemma {:induction false} TimesXPlus(a: Poly, b: Poly)
    ensures TimesX(Plus(a, b)) == Plus(TimesX(a), TimesX(b))
  {
    forall e: nat ensures e in TimesX(Plus(a, b)) <==> e in Plus(TimesX(a), TimesX(b)) {
      if e > 0 {
        InTimesX(a, e - 1);
        InTimesX(b, e - 1);
        InTimesX(Plus(a, b), e - 1);
      }
    }
  }

  lemma {:induction false} InTimesX(a: Poly, e: nat)
    ensures e + 1 in TimesX(a) <==> e in a
  {
  }

  lemma {:induction false} PlusTwice(a: Poly, b: Poly, c: Poly)
    ensures Plus(Plus(a, b), c) == Plus(a, Plus(b, c))
  {
  }

  // ---- One step ----

  /** A bit more makes the dividend a degree longer. */
  lemma {:induction false} DividendStep(bits: seq<bool>, b: bool)
    ensures Dividend(bits + [b]) == Plus(TimesX(Dividend(bits)), if b then {32} else {})
  {
    var more := bits + [b];
    forall e: nat ensures e in Dividend(more) <==> e in Plus(TimesX(Dividend(bits)), if b then {32} else {}) {
      InDividend(more, e);
      if e > 0 {
        InDividend(bits, e - 1);
        InTimesX(Dividend(bits), e - 1);
      }
    }
  }

  lemma {:induction false} InOfBits(bits: seq<bool>, e: nat)
    ensures e in OfBits(bits) <==> e < |bits| && bits[|bits| - 1 - e]
  {
    if e < |bits| && bits[|bits| - 1 - e] {
      var i := |bits| - 1 - e;
      assert 0 <= i < |bits| && bits[i] && |bits| - 1 - i == e;
    }
  }

  lemma {:induction false} InDividend(bits: seq<bool>, e: nat)
    ensures e in Dividend(bits) <==>
              ((32 <= e < |bits| + 32 && bits[|bits| + 31 - e]) != (|bits| <= e < |bits| + 32))
  {
    if e >= 32 {
      InOfBits(bits, e - 32);
      if e - 32 in OfBits(bits) {
        assert e in set f | f in OfBits(bits) :: f + 32;
      }
    }
  }

  /** A number from its hexadecimal digits, lowest first. */
  function FromHex(ds: seq<nat>): nat {
    if ds == [] then 0 else ds[0] + 16 * FromHex(ds[1..])
  }

  /** The bits of a digit. */
  function DigitBits(d: nat): (r: seq<bool>)
    ensures |r| == 4
  {
    [d % 2 == 1, d / 2 % 2 == 1, d / 4 % 2 == 1, d / 8 % 2 == 1]
  }

  function HexBits(ds: seq<nat>): (r: seq<bool>)
    ensures |r| == 4 * |ds|
  {
    if ds == [] then [] else DigitBits(ds[0]) + HexBits(ds[1..])
  }

  lemma {:induction false} FourBits(n: nat, k: nat, a: nat, b: nat, c: nat, d: nat, rest: nat)
    requires k >= 4 && a < 2 && b < 2 && c < 2 && d < 2 && n == a + 2 * b + 4 * c + 8 * d + 16 * rest
    ensures ToBits(n, k) == [a == 1, b == 1, c == 1, d == 1] + ToBits(rest, k - 4)
  {
    var mid := c + 2 * d + 4 * rest;
    TwoBits(n, k, a, b, mid);
    TwoBits(mid, k - 2, c, d, rest);
    FourInFront([a == 1, b == 1, c == 1, d == 1], ToBits(rest, k - 4));
  }

  lemma {:induction false} DigitSum(d: nat)
    requires d < 16
    ensures d == d % 2 + 2 * (d / 2 % 2) + 4 * (d / 4 % 2) + 8 * (d / 8 % 2)
  {
  }

  lemma {:induction false} TwoBits(n: nat, k: nat, b: nat, c: nat, rest: nat)
    requires k >= 2 && b < 2 && c < 2 && n == b + 2 * c + 4 * rest
    ensures ToBits(n, k) == [b == 1] + ([c == 1] + ToBits(rest, k - 2))
  {
    OneBit(n, k, b, c + 2 * rest);
    OneBit(c + 2 * rest, k - 1, c, rest);
  }

  lemma {:induction false} OneBit(n: nat, k: nat, b: nat, rest: nat)
    requires k > 0 && b < 2 && n == b + 2 * rest
    ensures ToBits(n, k) == [b == 1] + ToBits(rest, k - 1)
  {
    assert n / 2 == rest;
  }

  lemma {:induction false} FourInFront(w: seq<bool>, r: seq<bool>)
    requires |w| == 4
    ensures [w[0]] + ([w[1]] + ([w[2]] + ([w[3]] + r))) == w + r
  {
  }

  lemma {:induction false} HexIsBits(ds: seq<nat>)
    requires forall i :: 0 <= i < |ds| ==> ds[i] < 16
    ensures ToBits(FromHex(ds), 4 * |ds|) == HexBits(ds)
  {
    if ds != [] {
      HexIsBits(ds[1..]);
      var d := ds[0];
      DigitSum(d);
      FourBits(FromHex(ds), 4 * |ds|, d % 2, d / 2 % 2, d / 4 % 2, d / 8 % 2, FromHex(ds[1..]));
    }
  }

  /** The terms of a polynomial whose coefficients are those digits. */
  function HexTerms(ds: seq<nat>): Poly {
    if ds == [] then {} else DigitTerms(ds[0], 4 * (|ds| - 1)) + HexTerms(ds[1..])
  }

  function DigitTerms(d: nat, low: nat): Poly {
    (if d % 2 == 1 then {low + 3} else {}) + (if d / 2 % 2 == 1 then {low + 2} else {})
    + (if d / 4 % 2 == 1 then {low + 1} else {}) + (if d / 8 % 2 == 1 then {low} else {})
  }

  lemma {:induction false} InDigitTerms(d: nat, low: nat, e: nat)
    ensures e in DigitTerms(d, low) <==> low <= e < low + 4 && DigitBits(d)[low + 3 - e]
  {
  }

  lemma {:induction false} TermsJoin(w: seq<bool>, r: seq<bool>, a: Poly, b: Poly)
    requires forall e: nat :: e in a <==> |r| <= e < |r| + |w| && w[|r| + |w| - 1 - e]
    requires b == OfBits(r)
    ensures OfBits(w + r) == a + b
  {
    forall e: nat ensures e in OfBits(w + r) <==> e in a + b {
      InOfBits(w + r, e);
      InOfBits(r, e);
    }
  }

  lemma {:induction false} HexIsTerms(ds: seq<nat>)
    ensures OfBits(HexBits(ds)) == HexTerms(ds)
  {
    if ds != [] {
      var low := 4 * (|ds| - 1);
      HexIsTerms(ds[1..]);
      var a := DigitTerms(ds[0], low);
      forall e: nat ensures e in a <==> low <= e < low + 4 && DigitBits(ds[0])[low + 3 - e] {
        InDigitTerms(ds[0], low, e);
      }
      TermsJoin(DigitBits(ds[0]), HexBits(ds[1..]), a, HexTerms(ds[1..]));
    }
  }

  /** One more digit. */
  lemma {:induction false} HexCons(d: nat, ds: seq<nat>)
    ensures FromHex([d] + ds) == d + 16 * FromHex(ds)
    ensures HexTerms([d] + ds) == DigitTerms(d, 4 * |ds|) + HexTerms(ds)
  {
    assert ([d] + ds)[1..] == ds;
  }

  lemma {:induction false} HexTwo(d: nat, d': nat, ds: seq<nat>)
    ensures FromHex([d] + ([d'] + ds)) == d + 16 * d' + 256 * FromHex(ds)
    ensures HexTerms([d] + ([d'] + ds)) == DigitTerms(d, 4 * |ds| + 4) + (DigitTerms(d', 4 * |ds|) + HexTerms(ds))
  {
    HexCons(d', ds);
    HexCons(d, [d'] + ds);
  }

  /** Two more digits, and their terms. */
  lemma {:induction false} MoreDigits(d: nat, d': nat, ds: seq<nat>, t: Poly) returns (r: seq<nat>)
    requires d < 16 && d' < 16 && forall i :: 0 <= i < |ds| ==> ds[i] < 16
    requires t == DigitTerms(d, 4 * |ds| + 4) + DigitTerms(d', 4 * |ds|)
    ensures |r| == |ds| + 2 && forall i :: 0 <= i < |r| ==> r[i] < 16
    ensures FromHex(r) == d + 16 * d' + 256 * FromHex(ds) && HexTerms(r) == t + HexTerms(ds)
  {
    HexTwo(d, d', ds);
    r := [d] + ([d'] + ds);
  }

  lemma {:induction false} TermsOfED()
    ensures DigitTerms(0xD, 4) + DigitTerms(0xE, 0) == {7, 5, 4, 2, 1, 0}
  {
  }

  lemma {:induction false} TermsOfB8()
    ensures DigitTerms(8, 12) + DigitTerms(0xB, 8) == {12, 11, 10, 8}
  {
  }

  lemma {:induction false} TermsOf83()
    ensures DigitTerms(3, 20) + DigitTerms(8, 16) == {23, 22, 16}
  {
  }

  lemma {:induction false} TermsOf20()
    ensures DigitTerms(0, 28) + DigitTerms(2, 24) == {26}
  {
  }

  lemma {:induction false} AllTerms(a: Poly, b: Poly, c: Poly, d: Poly)
    requires a == {26} && b == {23, 22, 16} && c == {12, 11, 10, 8} && d == {7, 5, 4, 2, 1, 0}
    ensures a + (b + (c + d)) == {26, 23, 22, 16, 12, 11, 10, 8, 7, 5, 4, 2, 1, 0}
  {
  }

  lemma {:induction false} PolynomialDigits(a: Poly, b: Poly, c: Poly, d: Poly) returns (ds: seq<nat>)
    requires a == DigitTerms(0, 28) + DigitTerms(2, 24) && b == DigitTerms(3, 20) + DigitTerms(8, 16)
    requires c == DigitTerms(8, 12) + DigitTerms(0xB, 8) && d == DigitTerms(0xD, 4) + DigitTerms(0xE, 0)
    ensures |ds| == 8 && forall i :: 0 <= i < |ds| ==> ds[i] < 16
    ensures FromHex(ds) == 0xEDB88320 && HexTerms(ds) == a + (b + (c + d))
  {
    var low := MoreDigits(0xD, 0xE, [], d);
    assert d + HexTerms([]) == d;
    assert FromHex(low) == 0xED;
    ds := HighDigits(low, a, b, c);
  }

  lemma {:induction false} HighDigits(low: seq<nat>, a: Poly, b: Poly, c: Poly) returns (ds: seq<nat>)
    requires |low| == 2 && FromHex(low) == 0xED && forall i :: 0 <= i < |low| ==> low[i] < 16
    requires a == DigitTerms(0, 28) + DigitTerms(2, 24) && b == DigitTerms(3, 20) + DigitTerms(8, 16)
    requires c == DigitTerms(8, 12) + DigitTerms(0xB, 8)
    ensures |ds| == 8 && forall i :: 0 <= i < |ds| ==> ds[i] < 16
    ensures FromHex(ds) == 0xEDB88320 && HexTerms(ds) == a + (b + (c + HexTerms(low)))
  {
    ds := MoreDigits(8, 0xB, low, c);
    ds := MoreDigits(3, 8, ds, b);
    ds := MoreDigits(0, 2, ds, a);
  }

  /** The polynomial that the register holds, the terms of degree 31 being shifted out first. */
  lemma {:induction false} PolynomialBits()
    ensures OfBits(POLYNOMIAL) == {26, 23, 22, 16, 12, 11, 10, 8, 7, 5, 4, 2, 1, 0}
  {
    var a, b, c, d := {26}, {23, 22, 16}, {12, 11, 10, 8}, {7, 5, 4, 2, 1, 0};
    TermsOf20();
    TermsOf83();
    TermsOfB8();
    TermsOfED();
    var ds := PolynomialDigits(a, b, c, d);
    AllTerms(a, b, c, d);
    HexIsBits(ds);
    HexIsTerms(ds);
  }

  /** One bit of the message: the register times x, with the bit added and the divisor taken off if need be. */
  lemma {:induction false} RegisterStep(c: Word, c': Word, p: Word, b: bool, g: Poly)
    requires g == {32} + OfBits(p)
    requires forall i :: 0 <= i < 32 ==> c'[i] == ((i < 31 && c[i + 1]) != (c[0] != b && p[i]))
    ensures OfBits(c') == Plus(Plus(TimesX(OfBits(c)), if b then {32} else {}), if c[0] != b then g else {})
  {
    var x, t, m := TimesX(OfBits(c)), if b then {32} else {}, if c[0] != b then g else {};
    forall e: nat ensures e in OfBits(c') <==> e in Plus(Plus(x, t), m) {
      InOfBits(c', e);
      TermTimesX(c, e);
      InOfBits(p, e);
      InThree(x, t, m, e);
    }
  }

  lemma {:induction false} InThree(a: Poly, b: Poly, c: Poly, e: nat)
    ensures e in Plus(Plus(a, b), c) <==> (((e in a) != (e in b)) != (e in c))
  {
  }

  lemma {:induction false} ShiftBit(d: Word, i: nat)
    requires i < 32
    ensures Shift(d)[i] == ((i < 31 && d[i + 1]) != (d[0] && POLYNOMIAL[i]))
  {
  }

  lemma {:induction false} TermTimesX(c: Word, e: nat)
    ensures e in TimesX(OfBits(c)) <==> 0 < e <= 32 && c[32 - e]
  {
    if e > 0 {
      InOfBits(c, e - 1);
      InTimesX(OfBits(c), e - 1);
    }
  }

  // ---- The whole message ----

  lemma {:induction false} FeedOne(c: Word, bits: seq<bool>, b: bool)
    ensures FeedBits(c, bits + [b]) == Shift(AddBit(FeedBits(c, bits), b))
    decreases |bits|
  {
    if bits == [] {
      assert [b][1..] == [] && bits + [b] == [b];
    } else {
      assert (bits + [b])[1..] == bits[1..] + [b];
      FeedOne(Shift(AddBit(c, bits[0])), bits[1..], b);
    }
  }

  /** The divisor, and the step that a message bit more makes. */
  lemma {:induction false} FeedStep(bits: seq<bool>, b: bool, g: Poly)
    requires g == {32, 26, 23, 22, 16, 12, 11, 10, 8, 7, 5, 4, 2, 1, 0}
    ensures var c := FeedBits(Ones(), bits);
            OfBits(FeedBits(Ones(), bits + [b])) ==
              Plus(Plus(TimesX(OfBits(c)), if b then {32} else {}), if c[0] != b then g else {})
  {
    var c := FeedBits(Ones(), bits);
    FeedOne(Ones(), bits, b);
    forall i | 0 <= i < 32
      ensures Shift(AddBit(c, b))[i] == ((i < 31 && c[i + 1]) != (c[0] != b && POLYNOMIAL[i]))
    {
      ShiftBit(AddBit(c, b), i);
    }
    PolynomialBits();
    assert g == {32} + OfBits(POLYNOMIAL);
    RegisterStep(c, FeedBits(Ones(), bits + [b]), POLYNOMIAL, b, g);
  }

  lemma {:induction false} FeedAppend(c: Word, x: seq<bool>, y: seq<bool>)
    ensures FeedBits(c, x + y) == FeedBits(FeedBits(c, x), y)
    decreases |x|
  {
    if x == [] {
      assert x + y == y;
    } else {
      assert (x + y)[1..] == x[1..] + y;
      FeedAppend(Shift(AddBit(c, x[0])), x[1..], y);
    }
  }

  lemma {:induction false} StartIsPreset()
    ensures Dividend([]) == Plus(OfBits(Ones()), Times([], {}))
  {
    forall e: nat ensures e in Dividend([]) <==> e in OfBits(Ones()) {
      InDividend([], e);
      InOfBits(Ones(), e);
    }
  }

  /** The register is what is left of the dividend after taking off a multiple of the divisor. */
  lemma {:induction false} RegisterIsRemainder(bits: seq<bool>, g: Poly) returns (q: seq<bool>)
    requires g == {32, 26, 23, 22, 16, 12, 11, 10, 8, 7, 5, 4, 2, 1, 0}
    ensures Dividend(bits) == Plus(OfBits(FeedBits(Ones(), bits)), Times(q, g))
    decreases |bits|
  {
    q := [];
    if bits == [] {
      StartIsPreset();
    } else {
      var n := |bits| - 1;
      var b, c := bits[n], FeedBits(Ones(), bits[..n]);
      q := RegisterIsRemainder(bits[..n], g);
      assert bits == bits[..n] + [b];
      DividendStep(bits[..n], b);
      FeedStep(bits[..n], b, g);
      Quotient(OfBits(c), q, if b then {32} else {}, c[0] != b, g);
      q := [c[0] != b] + q;
    }
  }

  lemma {:induction false} Quotient(r: Poly, q: seq<bool>, b: Poly, more: bool, g: Poly)
    ensures Plus(TimesX(Plus(r, Times(q, g))), b) ==
            Plus(Plus(Plus(TimesX(r), b), if more then g else {}), Times([more] + q, g))
  {
    assert ([more] + q)[1..] == q;
    TimesXPlus(r, Times(q, g));
    Cancel(TimesX(r), TimesX(Times(q, g)), b, if more then g else {});
  }

  lemma {:induction false} Cancel(r: Poly, t: Poly, b: Poly, m: Poly)
    ensures Plus(Plus(r, t), b) == Plus(Plus(Plus(r, b), m), Plus(m, t))
  {
  }

  // ---- Bits of numbers ----

  lemma {:induction false} HalfOfQuotient(n: nat, m: nat)
    requires m > 0
    ensures n / 2 / m == n / (2 * m)
  {
    var q, r := n / 2 / m, n / 2 % m;
    assert n / 2 == m * q + r;
    assert n == 2 * m * q + (2 * r + n % 2);
    QuotientOf(n, 2 * m, q, 2 * r + n % 2);
  }

  lemma {:induction false} QuotientOf(n: nat, d: nat, q: nat, r: nat)
    requires r < d && n == d * q + r
    ensures n / d == q
  {
    OneQuotient(d, n / d, n % d, q, r);
  }

  lemma {:induction false} OneQuotient(d: nat, p: nat, s: nat, q: nat, r: nat)
    requires s < d && r < d && d * p + s == d * q + r
    ensures p == q
  {
    var k := p - q;
    assert d * k == r - s;
    if k >= 1 {
      AtLeast(d, k);
    } else if k <= -1 {
      AtLeast(d, -k);
    }
  }

  lemma {:induction false} AtLeast(d: nat, k: int)
    requires k >= 1
    ensures d * k >= d
  {
  }

  lemma {:induction false} BitOf(n: nat, k: nat, i: nat)
    requires i < k
    ensures ToBits(n, k)[i] == Bit(n, i)
    decreases i
  {
    if i > 0 {
      HalfOfQuotient(n, Pow2(i - 1));
      BitOf(n / 2, k - 1, i - 1);
    }
  }

  lemma {:induction false} SameBits(n: nat, m: nat, k: nat)
    requires n < Pow2(k) && m < Pow2(k) && ToBits(n, k) == ToBits(m, k)
    ensures n == m
  {
    if k > 0 {
      assert ToBits(n, k)[0] == ToBits(m, k)[0];
      assert ToBits(n, k)[1..] == ToBits(m, k)[1..];
      SameBits(n / 2, m / 2, k - 1);
    }
  }

  // ---- The theorem ----

  lemma {:induction false} ByteBehind(data: seq<Byte>)
    requires data != []
    ensures MessageBits(data) == MessageBits(data[..|data| - 1]) + ByteBits(data[|data| - 1])
  {
    var n := |data| - 1;
    var x, y := MessageBits(data), MessageBits(data[..n]) + ByteBits(data[n]);
    forall i | 0 <= i < 8 * |data| ensures x[i] == y[i] {
      if i >= 8 * n {
        assert i / 8 == n && i % 8 == i - 8 * n;
        BitOf(data[n], 8, i - 8 * n);
      }
    }
  }

  lemma {:induction false} RegisterIsFeed(data: seq<Byte>)
    ensures Register(data) == FeedBits(Ones(), MessageBits(data))
  {
    if data != [] {
      var n := |data| - 1;
      RegisterIsFeed(data[..n]);
      ByteBehind(data);
      FeedAppend(Ones(), MessageBits(data[..n]), ByteBits(data[n]));
    }
  }

  lemma {:induction false} CrcBits(data: seq<Byte>)
    ensures Remainder(Crc(data)) == OfBits(Register(data))
  {
    var w := Register(data);
    var v: Word := Xor(w, Ones());
    BitsRoundTrip(v);
    forall e: nat ensures e in Remainder(Crc(data)) <==> e in OfBits(w) {
      InOfBits(w, e);
      if e < 32 {
        BitOf(FromBits(v), 32, 31 - e);
        assert e == 31 - (31 - e);
      }
    }
  }

  /**
   The checksum of every message is a remainder of the dividend by the polynomial with these
   exponents, complemented.
   */
  lemma {:induction false} CrcIsRemainder(data: seq<Byte>) returns (q: seq<bool>)
    ensures Dividend(MessageBits(data)) ==
              Plus(Remainder(Crc(data)), Times(q, {32, 26, 23, 22, 16, 12, 11, 10, 8, 7, 5, 4, 2, 1, 0}))
  {
    RegisterIsFeed(data);
    CrcBits(data);
    q := RegisterIsRemainder(MessageBits(data), {32, 26, 23, 22, 16, 12, 11, 10, 8, 7, 5, 4, 2, 1, 0});
  }

  // Only one remainder is left by a division

  lemma {:induction false} SumOfMultiples(a: seq<bool>, b: seq<bool>, g: Poly) returns (q: seq<bool>)
    ensures Plus(Times(a, g), Times(b, g)) == Times(q, g)
  {
    if a == [] {
      q := b;
    } else if b == [] {
      q := a;
    } else {
      var r := SumOfMultiples(a[1..], b[1..], g);
      q := [a[0] != b[0]] + r;
      assert q[1..] == r;
      TimesXPlus(Times(a[1..], g), Times(b[1..], g));
      Regroup(if a[0] then g else {}, TimesX(Times(a[1..], g)), if b[0] then g else {}, TimesX(Times(b[1..], g)));
    }
  }

  lemma {:induction false} Regroup(a: Poly, x: Poly, b: Poly, y: Poly)
    ensures Plus(Plus(a, x), Plus(b, y)) == Plus(Plus(a, b), Plus(x, y))
  {
  }

  /** A multiple of a polynomial of degree 32 is nothing or has a degree of at least 32. */
  lemma {:induction false} MultipleIsLong(q: seq<bool>, g: Poly) returns (e: nat)
    requires 32 in g && forall i :: i in g ==> i <= 32
    ensures Times(q, g) == {} || (e in Times(q, g) && e >= 32)
  {
    e := 32;
    if q != [] {
      var f := MultipleIsLong(q[1..], g);
      if f in Times(q[1..], g) && f >= 32 {
        e := f + 1;
        InTimesX(Times(q[1..], g), f);
      } else {
        assert TimesX(Times(q[1..], g)) == {};
      }
    }
  }

  lemma {:induction false} RemainderUnique(d: Poly, r: Poly, r': Poly, q: seq<bool>, q': seq<bool>, g: Poly)
    requires 32 in g && forall i :: i in g ==> i <= 32
    requires forall i :: i in r || i in r' ==> i < 32
    requires d == Plus(r, Times(q, g)) && d == Plus(r', Times(q', g))
    ensures r == r'
  {
    var s := SumOfMultiples(q, q', g);
    CancelBoth(d, r, r', Times(q, g), Times(q', g));
    var e := MultipleIsLong(s, g);
  }

  lemma {:induction false} CancelBoth(d: Poly, r: Poly, r': Poly, t: Poly, t': Poly)
    requires d == Plus(r, t) && d == Plus(r', t')
    ensures Plus(t, t') == Plus(r, r')
    ensures Plus(t, t') == {} ==> r == r'
  {
    forall e: nat ensures e in Plus(t, t') <==> e in Plus(r, r') {
      assert e in d <==> e in Plus(r, t);
      assert e in d <==> e in Plus(r', t');
    }
    if Plus(r, r') == {} {
      forall e: nat ensures e in r <==> e in r' {
        assert e !in Plus(r, r');
      }
    }
  }

  lemma {:induction false} SameRemainder(n: nat, m: nat)
    requires n < 0x1_0000_0000 && m < 0x1_0000_0000 && Remainder(n) == Remainder(m)
    ensures n == m
  {
    WordRange();
    forall i | 0 <= i < 32 ensures ToBits(n, 32)[i] == ToBits(m, 32)[i] {
      BitOf(n, 32, i);
      BitOf(m, 32, i);
      assert 31 - i in Remainder(n) <==> !Bit(n, i);
      assert 31 - i in Remainder(m) <==> !Bit(m, i);
    }
    SameBits(n, m, 32);
  }

  /** And it is the only 32-bit number that is one. */
  lemma {:induction false} CrcIff(data: seq<Byte>, crc: nat)
    requires crc < 0x1_0000_0000
    ensures crc == Crc(data) <==>
              exists q :: Dividend(MessageBits(data)) ==
                Plus(Remainder(crc), Times(q, {32, 26, 23, 22, 16, 12, 11, 10, 8, 7, 5, 4, 2, 1, 0}))
  {
    var g := {32, 26, 23, 22, 16, 12, 11, 10, 8, 7, 5, 4, 2, 1, 0};
    var d := Dividend(MessageBits(data));
    var q := CrcIsRemainder(data);
    if q' :| d == Plus(Remainder(crc), Times(q', g)) {
      RemainderUnique(d, Remainder(crc), Remainder(Crc(data)), q', q, g);
      SameRemainder(crc, Crc(data));
    }
  }
}
