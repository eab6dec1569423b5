/**
 The CRC-32 of the runtime's zip writer, computed a byte at a time through a table, and the
 definition it implements: section 8 of RFC 1952 (reflected polynomial EDB88320, register
 preset to ones and complemented at the end) taken one message bit at a time. A 32-bit word
 is its bits, least significant first, so that a right shift drops the first bit.
 */
module Crc32 {
  import opened Powers

  type Word = w: seq<bool> | |w| == 32 witness Zeros(32)

  function Zeros(n: nat): (r: seq<bool>)
    ensures |r| == n
  {
    seq(n, _ => false)
  }

  /** The `k` low bits of a number. */
  function ToBits(n: nat, k: nat): (r: seq<bool>)
    ensures |r| == k
    decreases k, n
  {
    if k == 0 then [] else [n % 2 == 1] + ToBits(n / 2, k - 1)
  }

  /** The number with the given bits. */
  function FromBits(w: seq<bool>): (n: nat)
    ensures n < Pow2(|w|)
  {
    if w == [] then 0 else (if w[0] then 1 else 0) + 2 * FromBits(w[1..])
  }

  lemma {:induction false} BitsRoundTrip(w: seq<bool>)
    ensures ToBits(FromBits(w), |w|) == w
  {
    if w != [] {
      BitsRoundTrip(w[1..]);
      assert FromBits(w) / 2 == FromBits(w[1..]);
    }
  }

  function Xor(a: Word, b: Word): Word {
    seq(32, i requires 0 <= i < 32 => a[i] != b[i])
  }

  const POLYNOMIAL: Word := ToBits(0xEDB88320, 32)

  function Ones(): Word { seq(32, _ => true) }

  /** One shift of the register, with the polynomial folded in when a one drops out. */
  function Shift(c: Word): Word {
    if c[0] then Xor(POLYNOMIAL, c[1..] + [false]) else c[1..] + [false]
  }

  /** `n` shifts. */
  function Shifts(c: Word, n: nat): Word
    decreases n
  {
    if n == 0 then c else Shifts(Shift(c), n - 1)
  }

  // ---- The definition ----

  /** Adds one message bit to the lowest bit of the register. */
  function AddBit(c: Word, b: bool): Word { c[0 := (c[0] != b)] }

  /** Message bits, each added to the register before one shift. */
  function FeedBits(c: Word, bits: seq<bool>): Word
    decreases |bits|
  {
    if bits == [] then c else FeedBits(Shift(AddBit(c, bits[0])), bits[1..])
  }

  /** The register after a whole message, each byte fed from its lowest bit. */
  function Register(data: seq<Byte>): Word {
    if data == [] then Ones()
    else FeedBits(Register(data[..|data| - 1]), ByteBits(data[|data| - 1]))
  }

  /** The checksum as a 32-bit number. */
  function Crc(data: seq<Byte>): (n: nat)
    ensures n < 0x1_0000_0000
  {
    WordRange();
    FromBits(Xor(Register(data), Ones()))
  }

  lemma {:induction false} WordRange()
    ensures Pow2(8) == 256 && Pow2(32) == 0x1_0000_0000
  {
    assert Pow2(8) == 256 && Pow2(16) == 65536 && Pow2(24) == 0x100_0000;
  }

  // ---- Why the table works ----

  /** A shift is linear over exclusive or, whatever the polynomial. */
  lemma {:induction false} ShiftLinear(a: Word, b: Word)
    ensures Shift(Xor(a, b)) == Xor(Shift(a), Shift(b))
  {
  }

  lemma {:induction false} ShiftsLinear(a: Word, b: Word, n: nat)
    ensures Shifts(Xor(a, b), n) == Xor(Shifts(a, n), Shifts(b, n))
    decreases n
  {
    if n > 0 {
      ShiftLinear(a, b);
      ShiftsLinear(Shift(a), Shift(b), n - 1);
    }
  }

  /** Shifting out zeros only moves the register down. */
  lemma {:induction false} ZeroShifts(x: Word, n: nat)
    requires n <= 32 && forall i :: 0 <= i < n ==> !x[i]
    ensures Shifts(x, n) == x[n..] + Zeros(n)
    decreases n
  {
    if n == 0 {
      assert x[0..] + Zeros(0) == x;
    } else {
      var y := Shift(x);
      assert y == x[1..] + [false];
      ZeroShifts(y, n - 1);
      ZeroBehind(x, y, n);
    }
  }

  lemma {:induction false} ZeroBehind(x: Word, y: Word, n: nat)
    requires 0 < n <= 32 && y == x[1..] + [false]
    ensures y[n - 1..] + Zeros(n - 1) == x[n..] + Zeros(n)
  {
    var s, t := y[n - 1..] + Zeros(n - 1), x[n..] + Zeros(n);
    forall i | 0 <= i < 32 ensures s[i] == t[i] {
    }
    assert |s| == |t| == 32;
  }

  /** A few bits as a word. */
  function Pad(bits: seq<bool>): Word
    requires |bits| <= 32
  {
    bits + Zeros(32 - |bits|)
  }

  /** Adding whole bits first and shifting afterwards is feeding them one by one. */
  lemma {:induction false} FeedIsShifts(c: Word, bits: seq<bool>)
    requires |bits| <= 32
    ensures Shifts(Xor(c, Pad(bits)), |bits|) == FeedBits(c, bits)
    decreases |bits|
  {
    if bits == [] {
      assert Xor(c, Pad([])) == c;
    } else {
      var rest := bits[1..];
      var c', high := AddBit(c, bits[0]), Pad([false] + rest);
      assert Xor(c, Pad(bits)) == Xor(c', high);
      ShiftLinear(c', high);
      assert Shift(high) == Pad(rest);
      FeedIsShifts(Shift(c'), rest);
    }
  }

  lemma {:induction false} SplitLow(x: Word)
    ensures Xor(Pad(x[..8]), Zeros(8) + x[8..]) == x
  {
  }

  /** One table step is eight bit steps. */
  lemma {:induction false} TableStep(c: Word, bits: seq<bool>)
    requires |bits| == 8
    ensures var x := Xor(c, Pad(bits));
            Xor(TableEntry(x[..8]), c[8..] + Zeros(8)) == FeedBits(c, bits)
  {
    var x := Xor(c, Pad(bits));
    var high := Zeros(8) + x[8..];
    SplitLow(x);
    ShiftsLinear(Pad(x[..8]), high, |bits|);
    ZeroShifts(high, |bits|);
    HighKept(c, bits);
    FeedIsShifts(c, bits);
  }

  /** Eight bits do not reach behind the first eight of the register. */
  lemma {:induction false} HighKept(c: Word, bits: seq<bool>)
    requires |bits| == 8
    ensures Xor(c, Pad(bits))[8..] == c[8..]
  {
  }

  // ---- The routine ----

  /** The inner loop of the table construction: one shift for each bit of the index. */
  method MakeEntry(bits: seq<bool>) returns (c: Word)
    requires |bits| <= 32
    ensures c == TableEntry(bits)
  {
    c := Pad(bits);
    for k := 0 to |bits|
      invariant Shifts(c, |bits| - k) == TableEntry(bits)
    {
      c := Shift(c);
    }
  }

  function TableEntry(bits: seq<bool>): Word
    requires |bits| <= 32
  {
    Shifts(Pad(bits), |bits|)
  }

  function ByteBits(b: nat): (bits: seq<bool>)
    ensures |bits| == 8
  {
    ToBits(b, 8)
  }

  ghost predicate Tabulated(table: array<Word>, n: nat)
    requires n <= table.Length
    reads table
  {
    forall i :: 0 <= i < n ==> table[i] == TableEntry(ByteBits(i))
  }

  method PutEntry(table: array<Word>, i: nat)
    requires i < table.Length && Tabulated(table, i)
    modifies table
    ensures Tabulated(table, i + 1)
  {
    var c := MakeEntry(ByteBits(i));
    table[i] := c;
  }

  method BuildTable() returns (table: array<Word>)
    ensures fresh(table) && table.Length == 256 && Tabulated(table, 256)
  {
    table := new Word[256];
    for i := 0 to 256
      invariant Tabulated(table, i)
    {
      PutEntry(table, i);
    }
  }

  /** `table[(crc ^ b) & 0xFF] ^ (crc >> 8)` */
  method TableUpdate(table: array<Word>, c: Word, b: Byte) returns (r: Word)
    requires table.Length == 256 && Tabulated(table, 256)
    ensures r == FeedBits(c, ByteBits(b))
  {
    var bits := ByteBits(b);
    TableStep(c, bits);
    var low := Xor(c, Pad(bits))[..8];
    BitsRoundTrip(low);
    WordRange();
    var i := FromBits(low);
    r := Xor(table[i], c[8..] + Zeros(8));
  }

  /** The table-driven routine computes the bit-at-a-time CRC of every message. */
  method TableCrc(data: seq<Byte>) returns (crc: nat)
    ensures crc == Crc(data)
  {
    var table := BuildTable();
    var c: Word := Ones();
    for i := 0 to |data|
      invariant Tabulated(table, 256) && c == Register(data[..i])
    {
      assert data[..i + 1][..i] == data[..i];
      c := TableUpdate(table, c, data[i]);
    }
    assert data[..|data|] == data;
    crc := FromBits(Xor(c, Ones()));
  }
}
