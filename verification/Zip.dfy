/**
 The zip store of the runtime: a writer and a reader of uncompressed archives, byte for byte
 as in sections 4.3.7 (local file header), 4.3.12 (central directory) and 4.3.16 (end of
 central directory) of PKWARE's APPNOTE, and the add, replace and remove operations that
 rewrite a whole file. A file is a byte sequence.
 */
module Zip {
  import opened Powers
  import opened Crc32

  const TWO16: int := 0x1_0000
  const TWO32: int := 0x1_0000_0000
  const LOCAL_SIG: int := 0x04034b50
  const CENTRAL_SIG: int := 0x02014b50
  const END_SIG: int := 0x06054b50

  type Bytes = seq<Byte>

  /** A stored member. The reader and the writer treat the data as exactly these bytes. */
  datatype Member = Member(name: Bytes, data: Bytes)

  // ---- Little-endian words ----

  /** The `n` low bytes of a number, lowest first. */
  function ToLe(v: nat, n: nat): (b: Bytes)
    ensures |b| == n
    decreases n
  {
    if n == 0 then [] else [v % 256] + ToLe(v / 256, n - 1)
  }

  /** The number in `b[p..q]`. */
  function FromLe(b: Bytes, p: nat, q: nat): nat
    requires q <= |b|
    decreases q - p
  {
    if p >= q then 0 else b[p] as int + 256 * FromLe(b, p + 1, q)
  }

  function Rd16(b: Bytes, p: nat): nat
    requires p + 2 <= |b|
  {
    FromLe(b, p, p + 2)
  }

  function Rd32(b: Bytes, p: nat): nat
    requires p + 4 <= |b|
  {
    FromLe(b, p, p + 4)
  }

  function Pow256(n: nat): nat {
    if n == 0 then 1 else 256 * Pow256(n - 1)
  }

  /** `t` stands in `b` at position `p`. */
  ghost predicate Has(b: Bytes, p: nat, t: Bytes) {
    p + |t| <= |b| && forall k :: 0 <= k < |t| ==> b[p + k] == t[k]
  }

  lemma {:induction false} HasAppend(b: Bytes, p: nat, t: Bytes, u: Bytes)
    ensures Has(b, p, t + u) <==> Has(b, p, t) && Has(b, p + |t|, u)
  {
    var w := t + u;
    if Has(b, p, w) {
      forall k | 0 <= k < |t| ensures b[p + k] == t[k] { assert w[k] == t[k]; }
      forall k | 0 <= k < |u| ensures b[p + |t| + k] == u[k] { assert w[|t| + k] == u[k]; }
    }
    if Has(b, p, t) && Has(b, p + |t|, u) {
      forall k | 0 <= k < |w| ensures b[p + k] == w[k] {
        if k >= |t| {
          assert b[p + |t| + (k - |t|)] == u[k - |t|];
        }
      }
    }
  }

  lemma {:induction false} HasThree(b: Bytes, p: nat, x: Bytes, y: Bytes, z: Bytes)
    requires Has(b, p, x + (y + z))
    ensures Has(b, p, x) && Has(b, p + |x|, y) && Has(b, p + |x| + |y|, z)
  {
    HasAppend(b, p, x, y + z);
    HasAppend(b, p + |x|, y, z);
  }

  lemma {:induction false} HasSlice(b: Bytes, p: nat, t: Bytes)
    requires Has(b, p, t)
    ensures b[p..p + |t|] == t
  {
  }

  /** A number is read back from where it was written. */
  lemma {:induction false} LeRoundTrip(v: nat, n: nat, b: Bytes, p: nat)
    requires v < Pow256(n) && Has(b, p, ToLe(v, n))
    ensures FromLe(b, p, p + n) == v
    decreases n
  {
    if n > 0 {
      HasAppend(b, p, [v % 256], ToLe(v / 256, n - 1));
      assert b[p + 0] == [v % 256][0];
      LeRoundTrip(v / 256, n - 1, b, p + 1);
    }
  }

  /** A field of a fixed-layout header. */
  datatype Field = W16(v: nat) | W32(v: nat)

  function Width(f: Field): nat { if f.W16? then 2 else 4 }

  function Enc(f: Field): (b: Bytes)
    ensures |b| == Width(f)
  {
    match f
    case W16(v) => ToLe(v, 2)
    case W32(v) => ToLe(v, 4)
  }

  /** Where field `i` of a header starts. */
  function Offset(fs: seq<Field>, i: nat): nat
    requires i <= |fs|
  {
    if i == 0 then 0 else Offset(fs, i - 1) + Width(fs[i - 1])
  }

  /** The first `n` fields, one after the other. */
  function EncodeFirst(fs: seq<Field>, n: nat): (b: Bytes)
    requires n <= |fs|
    ensures |b| == Offset(fs, n)
  {
    if n == 0 then [] else EncodeFirst(fs, n - 1) + Enc(fs[n - 1])
  }

  function Encode(fs: seq<Field>): (b: Bytes)
    ensures |b| == Offset(fs, |fs|)
  {
    EncodeFirst(fs, |fs|)
  }

  lemma {:induction false} FieldAt(fs: seq<Field>, n: nat, i: nat, b: Bytes, p: nat)
    requires i < n <= |fs| && Has(b, p, EncodeFirst(fs, n))
    ensures Has(b, p + Offset(fs, i), Enc(fs[i]))
    decreases n
  {
    var before, last := EncodeFirst(fs, n - 1), Enc(fs[n - 1]);
    assert EncodeFirst(fs, n) == before + last;
    HasAppend(b, p, before, last);
    if i < n - 1 {
      FieldAt(fs, n - 1, i, b, p);
    }
  }

  predicate InRange(f: Field) { f.v < if f.W16? then TWO16 else TWO32 }

  /** What the reader finds at field `i` of a header. */
  lemma {:induction false} ReadField(fs: seq<Field>, i: nat, b: Bytes, p: nat)
    requires i < |fs| && Has(b, p, Encode(fs)) && InRange(fs[i])
    ensures p + Offset(fs, i) + Width(fs[i]) <= |b|
    ensures fs[i].W16? ==> Rd16(b, p + Offset(fs, i)) == fs[i].v
    ensures fs[i].W32? ==> Rd32(b, p + Offset(fs, i)) == fs[i].v
  {
    var q := p + Offset(fs, i);
    FieldAt(fs, |fs|, i, b, p);
    assert Pow256(2) == TWO16 && Pow256(3) == 0x100_0000 && Pow256(4) == TWO32;
    match fs[i]
    case W16(v) => LeRoundTrip(v, 2, b, q);
    case W32(v) => LeRoundTrip(v, 4, b, q);
  }

  // ---- The written archive ----

  /** Numbers as C's unsigned types hold them. */
  function Wrap16(x: nat): (r: nat)
    ensures r < TWO16 && (r == x <==> x < TWO16)
  {
    x % 0x1_0000
  }

  function Wrap32(x: nat): (r: nat)
    ensures r < TWO32 && (r == x <==> x < TWO32)
  {
    x % 0x1_0000_0000
  }

  /** `(uint16_t)strlen(name)`: what of a name is written. */
  function Cut(name: Bytes): (r: Bytes)
    ensures |r| == Wrap16(|name|)
  {
    name[..Wrap16(|name|)]
  }

  predicate Sized(m: Member) { |m.data| < TWO32 }

  /** Signature, version, flags, method, time, date, checksum, sizes, name and extra length. */
  function LocalHeader(m: Member): (fs: seq<Field>)
    ensures |fs| == 11
  {
    [W32(LOCAL_SIG), W16(20), W16(0), W16(0), W16(0), W16(0x21),
     W32(Crc(m.data)), W32(|m.data|), W32(|m.data|), W16(|Cut(m.name)|), W16(0)]
  }

  lemma {:induction false} LocalLayout(fs: seq<Field>)
    requires |fs| == 11 && fs[0].W32? && fs[1].W16? && fs[2].W16? && fs[3].W16? && fs[4].W16? && fs[5].W16?
    requires fs[6].W32? && fs[7].W32? && fs[8].W32? && fs[9].W16? && fs[10].W16?
    ensures Offset(fs, 0) == 0 && Offset(fs, 3) == 8 && Offset(fs, 6) == 14 && Offset(fs, 7) == 18
    ensures Offset(fs, 8) == 22 && Offset(fs, 9) == 26 && Offset(fs, 10) == 28 && Offset(fs, 11) == 30
  {
    assert Offset(fs, 1) == 4;
    assert Offset(fs, 2) == 6;
    assert Offset(fs, 4) == 10;
    assert Offset(fs, 5) == 12;
  }

  function Local(m: Member): (r: Bytes)
    ensures |r| == 30 + |Cut(m.name)| + |m.data|
  {
    LocalLayout(LocalHeader(m));
    Encode(LocalHeader(m)) + (Cut(m.name) + m.data)
  }

  /** Blocks one after the other. */
  function Flat(blocks: seq<Bytes>): Bytes {
    if blocks == [] then [] else Flat(blocks[..|blocks| - 1]) + blocks[|blocks| - 1]
  }

  function LocalBlocks(ms: seq<Member>): (r: seq<Bytes>)
    ensures |r| == |ms|
  {
    seq(|ms|, i requires 0 <= i < |ms| => Local(ms[i]))
  }

  /** A central directory header; `offset` is where the local header starts. */
  function CentralRecord(crc: nat, size: nat, length: nat, offset: nat): (fs: seq<Field>)
    ensures |fs| == 17
  {
    [W32(CENTRAL_SIG), W16(20), W16(20), W16(0), W16(0), W16(0), W16(0x21), W32(crc), W32(size), W32(size),
     W16(length), W16(0), W16(0), W16(0), W16(0), W32(0), W32(offset)]
  }

  function CentralHeader(m: Member, offset: nat): (fs: seq<Field>)
    ensures |fs| == 17
  {
    CentralRecord(Crc(m.data), |m.data|, |Cut(m.name)|, offset)
  }

  function Central(m: Member, offset: nat): Bytes {
    Encode(CentralHeader(m, offset)) + Cut(m.name)
  }

  /** The writer's 32-bit cursor, `i` blocks after it was at `base`. */
  function Cursor(base: nat, blocks: seq<Bytes>, i: nat): (r: nat)
    requires base < TWO32 && i <= |blocks|
    ensures r < TWO32
    decreases i
  {
    if i == 0 then base else Wrap32(Cursor(base, blocks, i - 1) + |blocks[i - 1]|)
  }

  /** Where member `i` starts. */
  function Start(ms: seq<Member>, i: nat): (r: nat)
    requires i <= |ms|
    ensures r < TWO32
  {
    Cursor(0, LocalBlocks(ms), i)
  }

  function CentralBlocks(ms: seq<Member>): (r: seq<Bytes>)
    ensures |r| == |ms|
  {
    seq(|ms|, i requires 0 <= i < |ms| => Central(ms[i], Start(ms, i)))
  }

  /** Signature, disk numbers, entry counts, size and start of the index, comment length. */
  function EndRecord(count: nat, size: nat, start: nat): (fs: seq<Field>)
    ensures |fs| == 8
  {
    [W32(END_SIG), W16(0), W16(0), W16(count), W16(count), W32(size), W32(start), W16(0)]
  }

  function EndHeader(ms: seq<Member>): (fs: seq<Field>)
    ensures |fs| == 8
  {
    EndRecord(Wrap16(|ms|), Wrap32(|Flat(CentralBlocks(ms))|), Start(ms, |ms|))
  }

  function End(ms: seq<Member>): Bytes { Encode(EndHeader(ms)) }

  /** `tinox_zip_write` */
  function Written(ms: seq<Member>): Bytes {
    Flat(LocalBlocks(ms)) + (Flat(CentralBlocks(ms)) + End(ms))
  }

  // ---- The reader ----

  /** The C string at the start of a buffer: everything before the first NUL. */
  function CStr(s: Bytes): (r: Bytes)
    ensures |r| <= |s| && r == s[..|r|]
    ensures (forall i :: 0 <= i < |s| ==> s[i] != 0) ==> r == s
  {
    if s == [] || s[0] == 0 then [] else [s[0]] + CStr(s[1..])
  }

  function DataOffset(b: Bytes, pos: nat): (r: nat)
    requires pos + 30 <= |b|
    ensures r >= pos + 30
  {
    pos + 30 + Rd16(b, pos + 26) + Rd16(b, pos + 28)
  }

  /** The member at a header, if it is stored and its two sizes agree. */
  function MemberAt(b: Bytes, pos: nat): seq<Member>
    requires pos + 30 <= |b| && DataOffset(b, pos) + Rd32(b, pos + 18) <= |b|
  {
    var data := DataOffset(b, pos);
    var size := Rd32(b, pos + 18);
    if Rd16(b, pos + 8) == 0 && Rd32(b, pos + 22) == size then
      [Member(CStr(b[pos + 30..pos + 30 + Rd16(b, pos + 26)]), b[data..data + size])]
    else []
  }

  /** The members from `pos` on, up to the first place that is not a complete local header. */
  function ParseFrom(b: Bytes, pos: nat): seq<Member>
    decreases |b| - pos, 2
  {
    if pos + 30 > |b| then [] else ParseSigned(b, pos)
  }

  function ParseSigned(b: Bytes, pos: nat): seq<Member>
    requires pos + 30 <= |b|
    decreases |b| - pos, 1
  {
    if Rd32(b, pos) != LOCAL_SIG then [] else ParseHeader(b, pos)
  }

  function ParseHeader(b: Bytes, pos: nat): seq<Member>
    requires pos + 30 <= |b|
    decreases |b| - pos, 0
  {
    var next := DataOffset(b, pos) + Rd32(b, pos + 18);
    if next > |b| then [] else MemberAt(b, pos) + ParseFrom(b, next)
  }

  /** `tinox_zip_parse` */
  function Parse(b: Bytes): seq<Member> { ParseFrom(b, 0) }

  /** One round of the reader's loop. */
  method ReadMember(b: Bytes, pos: nat) returns (more: bool, ms: seq<Member>, next: nat)
    requires pos + 30 <= |b|
    ensures more ==> pos < next && ParseFrom(b, pos) == ms + ParseFrom(b, next)
    ensures !more ==> ParseFrom(b, pos) == []
  {
    more, ms, next := false, [], pos;
    if Rd32(b, pos) != LOCAL_SIG { return; }
    var end := DataOffset(b, pos) + Rd32(b, pos + 18);
    assert ParseFrom(b, pos) == ParseSigned(b, pos) == ParseHeader(b, pos);
    if end > |b| { return; }
    more, ms, next := true, MemberAt(b, pos), end;
  }

  lemma {:induction false} Regroup(x: seq<Member>, y: seq<Member>, z: seq<Member>)
    ensures x + (y + z) == x + y + z
  {
  }

  /** The reader as it runs. */
  method ParseArchive(b: Bytes) returns (ms: seq<Member>)
    ensures ms == Parse(b)
  {
    ms := [];
    var pos := 0;
    while pos + 30 <= |b|
      invariant ms + ParseFrom(b, pos) == Parse(b)
      decreases |b| - pos
    {
      var more, m, next := ReadMember(b, pos);
      if !more { break; }
      Regroup(ms, m, ParseFrom(b, next));
      ms, pos := ms + m, next;
    }
    assert ms + [] == ms;
  }

  // ---- Reading what was written ----

  predicate CName(m: Member) { forall i :: 0 <= i < |m.name| ==> m.name[i] != 0 }

  /** The fields the reader uses, where the writer put them. */
  lemma {:induction false} LocalFields(m: Member, b: Bytes, p: nat)
    requires Sized(m) && Has(b, p, Encode(LocalHeader(m)))
    ensures p + 30 <= |b| && Rd32(b, p) == LOCAL_SIG && Rd16(b, p + 8) == 0
    ensures Rd32(b, p + 18) == Rd32(b, p + 22) == |m.data|
    ensures Rd16(b, p + 26) == |Cut(m.name)| && Rd16(b, p + 28) == 0
  {
    var fs := LocalHeader(m);
    LocalLayout(fs);
    ReadField(fs, 0, b, p);
    ReadField(fs, 3, b, p);
    ReadField(fs, 7, b, p);
    ReadField(fs, 8, b, p);
    ReadField(fs, 9, b, p);
    ReadField(fs, 10, b, p);
  }

  lemma {:induction false} LocalParts(m: Member, b: Bytes, p: nat)
    requires Has(b, p, Local(m))
    ensures Has(b, p, Encode(LocalHeader(m))) && Has(b, p + 30, Cut(m.name)) && Has(b, p + 30 + |Cut(m.name)|, m.data)
  {
    var header := Encode(LocalHeader(m));
    LocalLayout(LocalHeader(m));
    assert |header| == 30;
    HasThree(b, p, header, Cut(m.name), m.data);
  }

  /** The fields the reader uses and the bytes behind them, for a member at `p`. */
  ghost predicate LaidOut(b: Bytes, p: nat, name: Bytes, data: Bytes) {
    && p + 30 <= |b| && Rd32(b, p) == LOCAL_SIG && Rd16(b, p + 8) == 0
    && Rd32(b, p + 18) == Rd32(b, p + 22) == |data| && Rd16(b, p + 26) == |name| && Rd16(b, p + 28) == 0
    && Has(b, p + 30, name) && Has(b, p + 30 + |name|, data)
  }

  lemma {:induction false} LocalLaidOut(m: Member, b: Bytes, p: nat)
    requires Sized(m) && Has(b, p, Local(m))
    ensures LaidOut(b, p, Cut(m.name), m.data)
  {
    LocalParts(m, b, p);
    LocalFields(m, b, p);
  }

  /** What the reader makes of a member so laid out. */
  lemma {:induction false} LaidOutRead(b: Bytes, p: nat, name: Bytes, data: Bytes)
    requires LaidOut(b, p, name, data) && CStr(name) == name
    ensures ParseFrom(b, p) == [Member(name, data)] + ParseFrom(b, p + 30 + |name| + |data|)
  {
    LaidOutMember(b, p, name, data);
    HeaderRead(b, p);
  }

  lemma {:induction false} LaidOutMember(b: Bytes, p: nat, name: Bytes, data: Bytes)
    requires LaidOut(b, p, name, data) && CStr(name) == name
    ensures DataOffset(b, p) == p + 30 + |name| && DataOffset(b, p) + Rd32(b, p + 18) <= |b|
    ensures MemberAt(b, p) == [Member(name, data)]
  {
    HasSlice(b, p + 30, name);
    HasSlice(b, p + 30 + |name|, data);
  }

  lemma {:induction false} HeaderRead(b: Bytes, p: nat)
    requires p + 30 <= |b| && Rd32(b, p) == LOCAL_SIG
    ensures ParseFrom(b, p) == ParseHeader(b, p)
  {
    assert ParseFrom(b, p) == ParseSigned(b, p);
  }

  /** Wherever `block` stands, it is read as the member `m`. */
  ghost predicate ReadsAs(b: Bytes, block: Bytes, m: Member) {
    forall p: nat :: Has(b, p, block) ==> ParseFrom(b, p) == [m] + ParseFrom(b, p + |block|)
  }

  ghost predicate AlwaysLaidOut(b: Bytes, block: Bytes, name: Bytes, data: Bytes) {
    forall p: nat :: Has(b, p, block) ==> LaidOut(b, p, name, data)
  }

  lemma {:induction false} BlockReadsAs(b: Bytes, block: Bytes, name: Bytes, data: Bytes)
    requires |block| == 30 + |name| + |data| && CStr(name) == name && AlwaysLaidOut(b, block, name, data)
    ensures ReadsAs(b, block, Member(name, data))
  {
    forall p: nat | Has(b, p, block)
      ensures ParseFrom(b, p) == [Member(name, data)] + ParseFrom(b, p + |block|)
    {
      LaidOutRead(b, p, name, data);
    }
  }

  lemma {:induction false} LocalReadsAs(m: Member, b: Bytes)
    requires Sized(m) && CName(m)
    ensures ReadsAs(b, Local(m), Member(Cut(m.name), m.data))
  {
    forall p: nat | Has(b, p, Local(m))
      ensures LaidOut(b, p, Cut(m.name), m.data)
    {
      LocalLaidOut(m, b, p);
    }
    CutIsCName(m);
    BlockReadsAs(b, Local(m), Cut(m.name), m.data);
  }

  lemma {:induction false} CutIsCName(m: Member)
    requires CName(m)
    ensures CStr(Cut(m.name)) == Cut(m.name)
  {
  }

  /** The members as the archive keeps them: names cut to their 16-bit length. */
  function CutNames(ms: seq<Member>): (r: seq<Member>)
    ensures |r| == |ms|
  {
    seq(|ms|, i requires 0 <= i < |ms| => Member(Cut(ms[i].name), ms[i].data))
  }

  lemma {:induction false} FlatAt(blocks: seq<Bytes>, n: nat, b: Bytes, p: nat)
    requires n < |blocks| && Has(b, p, Flat(blocks))
    ensures Has(b, p + |Flat(blocks[..n])|, blocks[n])
    decreases |blocks|
  {
    var k := |blocks| - 1;
    HasAppend(b, p, Flat(blocks[..k]), blocks[k]);
    if n < k {
      FlatAt(blocks[..k], n, b, p);
      assert blocks[..k][..n] == blocks[..n];
    }
  }

  lemma {:induction false} FlatLength(blocks: seq<Bytes>, n: nat)
    requires n < |blocks|
    ensures |Flat(blocks[..n + 1])| == |Flat(blocks[..n])| + |blocks[n]|
  {
    assert blocks[..n + 1][..n] == blocks[..n];
  }

  lemma {:induction false} BlockStep(blocks: seq<Bytes>, m: Member, b: Bytes, n: nat)
    requires n < |blocks| && Has(b, 0, Flat(blocks)) && ReadsAs(b, blocks[n], m)
    ensures ParseFrom(b, |Flat(blocks[..n])|) == [m] + ParseFrom(b, |Flat(blocks[..n + 1])|)
  {
    FlatAt(blocks, n, b, 0);
    FlatLength(blocks, n);
  }

  lemma {:induction false} MembersFrom(ms: seq<Member>, n: nat, more: seq<Member>)
    requires n < |ms|
    ensures [ms[n]] + (ms[n + 1..] + more) == ms[n..] + more
  {
    assert [ms[n]] + ms[n + 1..] == ms[n..];
  }

  /** A run of blocks is read member by member. */
  lemma {:induction false} BlocksRead(blocks: seq<Bytes>, ms: seq<Member>, b: Bytes, n: nat)
    requires |blocks| == |ms| && n <= |ms| && Has(b, 0, Flat(blocks))
    requires forall i :: 0 <= i < |ms| ==> ReadsAs(b, blocks[i], ms[i])
    ensures ParseFrom(b, |Flat(blocks[..n])|) == ms[n..] + ParseFrom(b, |Flat(blocks)|)
    decreases |ms| - n
  {
    if n == |ms| {
      assert blocks[..n] == blocks;
      assert ms[n..] + ParseFrom(b, |Flat(blocks)|) == ParseFrom(b, |Flat(blocks)|);
    } else {
      BlocksRead(blocks, ms, b, n + 1);
      BlockStep(blocks, ms[n], b, n);
      MembersFrom(ms, n, ParseFrom(b, |Flat(blocks)|));
    }
  }

  lemma {:induction false} CentralSignature(m: Member, offset: nat, b: Bytes, p: nat)
    requires Has(b, p, Central(m, offset))
    ensures p + 4 <= |b| && Rd32(b, p) == CENTRAL_SIG
  {
    var fs := CentralHeader(m, offset);
    HasAppend(b, p, Encode(fs), Cut(m.name));
    ReadField(fs, 0, b, p);
  }

  lemma {:induction false} EndSignature(ms: seq<Member>, b: Bytes, p: nat)
    requires Has(b, p, End(ms))
    ensures p + 4 <= |b| && Rd32(b, p) == END_SIG
  {
    EndRecordSignature(Wrap16(|ms|), Wrap32(|Flat(CentralBlocks(ms))|), Start(ms, |ms|), b, p);
  }

  lemma {:induction false} EndRecordSignature(count: nat, size: nat, start: nat, b: Bytes, p: nat)
    requires count < TWO16 && size < TWO32 && start < TWO32 && Has(b, p, Encode(EndRecord(count, size, start)))
    ensures p + 4 <= |b| && Rd32(b, p) == END_SIG
  {
    ReadField(EndRecord(count, size, start), 0, b, p);
  }

  lemma {:induction false} NoHeader(b: Bytes, p: nat)
    requires p + 4 <= |b| && Rd32(b, p) != LOCAL_SIG
    ensures ParseFrom(b, p) == []
  {
    if p + 30 <= |b| {
      assert ParseFrom(b, p) == ParseSigned(b, p) == [];
    }
  }

  /** What follows the local part does not look like another member. */
  lemma {:induction false} NoHeaderBehind(ms: seq<Member>, b: Bytes, p: nat)
    requires Has(b, p, Flat(CentralBlocks(ms)) + End(ms))
    ensures ParseFrom(b, p) == []
  {
    HasAppend(b, p, Flat(CentralBlocks(ms)), End(ms));
    if ms == [] {
      EndSignature(ms, b, p);
    } else {
      FlatAt(CentralBlocks(ms), 0, b, p);
      CentralSignature(ms[0], Start(ms, 0), b, p);
    }
    NoHeader(b, p);
  }

  /**
   Reading an archive that was written gives back the members, names cut to 16-bit lengths:
   the same members in the same order, and nothing more.
   */
  lemma {:induction false} ParseWritten(ms: seq<Member>)
    requires forall i :: 0 <= i < |ms| ==> Sized(ms[i]) && CName(ms[i])
    ensures Parse(Written(ms)) == CutNames(ms)
  {
    var b, blocks := Written(ms), LocalBlocks(ms);
    HasAppend(b, 0, Flat(blocks), Flat(CentralBlocks(ms)) + End(ms));
    forall i | 0 <= i < |ms|
      ensures ReadsAs(b, blocks[i], CutNames(ms)[i])
    {
      LocalReadsAs(ms[i], b);
    }
    BlocksRead(blocks, CutNames(ms), b, 0);
    NoHeaderBehind(ms, b, |Flat(blocks)|);
    assert CutNames(ms)[0..] + [] == CutNames(ms);
  }

  /** Hence the round trip holds exactly when every name is shorter than 65536 bytes. */
  lemma {:induction false} RoundTripIff(ms: seq<Member>)
    requires forall i :: 0 <= i < |ms| ==> Sized(ms[i]) && CName(ms[i])
    ensures Parse(Written(ms)) == ms <==> forall i :: 0 <= i < |ms| ==> |ms[i].name| < TWO16
  {
    ParseWritten(ms);
    forall i | 0 <= i < |ms|
      ensures CutNames(ms)[i] == ms[i] <==> |ms[i].name| < TWO16
    {
      CutIff(ms[i].name);
    }
    assert CutNames(ms) == ms <==> forall i :: 0 <= i < |ms| ==> CutNames(ms)[i] == ms[i];
  }

  lemma {:induction false} CutIff(name: Bytes)
    ensures Cut(name) == name <==> |name| < TWO16
  {
  }

  /** It can go wrong: of a name of 65536 bytes nothing is written, and the member comes back without one. */
  lemma {:induction false} LongNameLost(m: Member)
    requires |m.name| == TWO16 && Sized(m) && CName(m)
    ensures Parse(Written([m])) == [Member([], m.data)] && [Member([], m.data)] != [m]
  {
    ParseWritten([m]);
    assert Wrap16(TWO16) == 0;
    assert Cut(m.name) == [];
    assert CutNames([m]) == [Member([], m.data)];
  }
}
