/**
 The bytes of an archive, spelled out: what each header holds at which offset, and how the
 reader goes from one header to the next. Nothing here is said through the field layouts of
 the writer or the constants of the reader.
 */
module ZipBytes {
  import opened Powers
  import opened Crc32
  import opened Zip
  import opened ZipStore

  function Low16(x: nat): Bytes { [x % 256, x / 256 % 256] }

  function Low32(x: nat): Bytes { [x % 256, x / 256 % 256, x / 65536 % 256, x / 16777216 % 256] }

  lemma {:induction false} ToLe16(x: nat)
    ensures ToLe(x, 2) == Low16(x)
  {
    assert ToLe(x / 256, 1) == [x / 256 % 256] + ToLe(x / 256 / 256, 0);
  }

  lemma {:induction false} ToLe32(x: nat)
    ensures ToLe(x, 4) == Low32(x)
  {
    var y := x / 65536;
    assert x / 256 / 256 == y && y / 256 == x / 16777216;
    ToLe16(y);
    assert ToLe(x, 4) == [x % 256] + ([x / 256 % 256] + ToLe(y, 2));
  }

  // ---- What is written ----

  function Plain(f: Field): Bytes { if f.W16? then Low16(f.v) else Low32(f.v) }

  lemma {:induction false} FieldBytes(fs: seq<Field>, rest: Bytes, i: nat)
    requires i < |fs|
    ensures var b, q := Encode(fs) + rest, Offset(fs, i);
            q + Width(fs[i]) <= |b| && b[q..q + Width(fs[i])] == Plain(fs[i])
  {
    var b := Encode(fs) + rest;
    assert Has(b, 0, Encode(fs));
    FieldAt(fs, |fs|, i, b, 0);
    HasSlice(b, Offset(fs, i), Enc(fs[i]));
    ToLe16(fs[i].v);
    ToLe32(fs[i].v);
  }

  /** A local file header, byte for byte, then what of the name its length field holds, then the data. */
  lemma {:induction false} LocalBytesAre(m: Member)
    ensures var b, n := Local(m), |m.name| % 65536;
            && |b| == 30 + n + |m.data|
            && b[0..4] == [0x50, 0x4B, 0x03, 0x04] && b[4..6] == [20, 0] && b[6..8] == [0, 0] && b[8..10] == [0, 0]
            && b[10..12] == [0, 0] && b[12..14] == [0x21, 0] && b[14..18] == Low32(Crc(m.data))
            && b[18..22] == Low32(|m.data|) && b[22..26] == Low32(|m.data|)
            && b[26..28] == Low16(n) && b[28..30] == [0, 0]
            && b[30..30 + n] == m.name[..n] && b[30 + n..] == m.data
  {
    var fs, rest := LocalHeader(m), Cut(m.name) + m.data;
    LocalLayout(fs);
    LocalOffsets(fs);
    assert Local(m) == Encode(fs) + rest;
    FirstFields(fs, rest);
    FieldBytes(fs, rest, 6);
    FieldBytes(fs, rest, 7);
    FieldBytes(fs, rest, 8);
    FieldBytes(fs, rest, 9);
    FieldBytes(fs, rest, 10);
  }

  lemma {:induction false} LocalOffsets(fs: seq<Field>)
    requires |fs| == 11 && fs[0].W32? && fs[1].W16? && fs[2].W16? && fs[3].W16? && fs[4].W16? && fs[5].W16?
    ensures Offset(fs, 1) == 4 && Offset(fs, 2) == 6 && Offset(fs, 4) == 10 && Offset(fs, 5) == 12
  {
    assert Offset(fs, 1) == 4;
    assert Offset(fs, 2) == 6;
    assert Offset(fs, 3) == 8;
    assert Offset(fs, 4) == 10;
  }

  lemma {:induction false} FirstFields(fs: seq<Field>, rest: Bytes)
    requires |fs| == 11 && Offset(fs, 11) == 30
    requires Offset(fs, 0) == 0 && Offset(fs, 1) == 4 && Offset(fs, 2) == 6 && Offset(fs, 3) == 8
    requires Offset(fs, 4) == 10 && Offset(fs, 5) == 12
    requires fs[0] == W32(0x04034b50) && fs[1] == W16(20) && fs[2] == fs[3] == fs[4] == W16(0) && fs[5] == W16(0x21)
    ensures var b := Encode(fs) + rest;
            && b[0..4] == [0x50, 0x4B, 0x03, 0x04] && b[4..6] == [20, 0] && b[6..8] == [0, 0] && b[8..10] == [0, 0]
            && b[10..12] == [0, 0] && b[12..14] == [0x21, 0]
  {
    FieldBytes(fs, rest, 0);
    FieldBytes(fs, rest, 1);
    FieldBytes(fs, rest, 2);
    FieldBytes(fs, rest, 3);
    FieldBytes(fs, rest, 4);
    FieldBytes(fs, rest, 5);
  }

  /** A central directory header, with both sizes, and the name. */
  lemma {:induction false} CentralBytesAre(m: Member, offset: nat)
    ensures var b, n := Central(m, offset), |m.name| % 65536;
            && |b| == 46 + n
            && b[0..4] == [0x50, 0x4B, 0x01, 0x02] && b[4..6] == [20, 0] && b[6..8] == [20, 0] && b[8..10] == [0, 0]
            && b[10..12] == [0, 0] && b[12..14] == [0, 0] && b[14..16] == [0x21, 0] && b[16..20] == Low32(Crc(m.data))
            && b[20..24] == Low32(|m.data|) && b[24..28] == Low32(|m.data|) && b[28..30] == Low16(n)
            && b[30..32] == [0, 0] && b[32..34] == [0, 0] && b[34..36] == [0, 0] && b[36..38] == [0, 0]
            && b[38..42] == [0, 0, 0, 0] && b[42..46] == Low32(offset) && b[46..] == m.name[..n]
  {
    var fs, name := CentralHeader(m, offset), Cut(m.name);
    CentralOffsets(fs);
    assert Central(m, offset) == Encode(fs) + name;
    CentralStart(fs, name);
    CentralMiddle(fs, name);
    CentralEnd(fs, name);
  }

  ghost predicate CentralShape(fs: seq<Field>) {
    && |fs| == 17 && Offset(fs, 17) == 46
    && Offset(fs, 0) == 0 && Offset(fs, 1) == 4 && Offset(fs, 2) == 6 && Offset(fs, 3) == 8 && Offset(fs, 4) == 10
    && Offset(fs, 5) == 12 && Offset(fs, 6) == 14 && Offset(fs, 7) == 16 && Offset(fs, 8) == 20 && Offset(fs, 9) == 24
    && Offset(fs, 10) == 28 && Offset(fs, 11) == 30 && Offset(fs, 12) == 32 && Offset(fs, 13) == 34
    && Offset(fs, 14) == 36 && Offset(fs, 15) == 38 && Offset(fs, 16) == 42
  }

  lemma {:induction false} CentralOffsets(fs: seq<Field>)
    requires |fs| == 17 && fs[0].W32? && fs[7].W32? && fs[8].W32? && fs[9].W32? && fs[15].W32? && fs[16].W32?
    requires fs[1].W16? && fs[2].W16? && fs[3].W16? && fs[4].W16? && fs[5].W16? && fs[6].W16?
    requires fs[10].W16? && fs[11].W16? && fs[12].W16? && fs[13].W16? && fs[14].W16?
    ensures CentralShape(fs)
  {
    assert Offset(fs, 1) == 4;
    assert Offset(fs, 2) == 6;
    assert Offset(fs, 3) == 8;
    assert Offset(fs, 4) == 10;
    assert Offset(fs, 5) == 12;
    assert Offset(fs, 6) == 14;
    assert Offset(fs, 7) == 16;
    assert Offset(fs, 8) == 20;
    assert Offset(fs, 9) == 24;
    assert Offset(fs, 10) == 28;
    assert Offset(fs, 11) == 30;
    assert Offset(fs, 12) == 32;
    assert Offset(fs, 13) == 34;
    assert Offset(fs, 14) == 36;
    assert Offset(fs, 15) == 38;
    assert Offset(fs, 16) == 42;
  }

  lemma {:induction false} CentralStart(fs: seq<Field>, rest: Bytes)
    requires CentralShape(fs) && fs[0] == W32(0x02014b50) && fs[1] == fs[2] == W16(20)
    requires fs[3] == fs[4] == fs[5] == W16(0) && fs[6] == W16(0x21)
    ensures var b := Encode(fs) + rest;
            && b[0..4] == [0x50, 0x4B, 0x01, 0x02] && b[4..6] == [20, 0] && b[6..8] == [20, 0] && b[8..10] == [0, 0]
            && b[10..12] == [0, 0] && b[12..14] == [0, 0] && b[14..16] == [0x21, 0]
  {
    FieldBytes(fs, rest, 0);
    FieldBytes(fs, rest, 1);
    FieldBytes(fs, rest, 2);
    FieldBytes(fs, rest, 3);
    FieldBytes(fs, rest, 4);
    FieldBytes(fs, rest, 5);
    FieldBytes(fs, rest, 6);
  }

  lemma {:induction false} CentralMiddle(fs: seq<Field>, rest: Bytes)
    requires CentralShape(fs) && fs[7].W32? && fs[8].W32? && fs[9].W32? && fs[10].W16?
    ensures var b := Encode(fs) + rest;
            && b[16..20] == Low32(fs[7].v) && b[20..24] == Low32(fs[8].v) && b[24..28] == Low32(fs[9].v)
            && b[28..30] == Low16(fs[10].v)
  {
    FieldBytes(fs, rest, 7);
    FieldBytes(fs, rest, 8);
    FieldBytes(fs, rest, 9);
    FieldBytes(fs, rest, 10);
  }

  lemma {:induction false} CentralEnd(fs: seq<Field>, rest: Bytes)
    requires CentralShape(fs) && fs[11] == fs[12] == fs[13] == fs[14] == W16(0) && fs[15] == W32(0) && fs[16].W32?
    ensures var b := Encode(fs) + rest;
            && b[30..32] == [0, 0] && b[32..34] == [0, 0] && b[34..36] == [0, 0] && b[36..38] == [0, 0]
            && b[38..42] == [0, 0, 0, 0] && b[42..46] == Low32(fs[16].v) && b[46..] == rest
  {
    FieldBytes(fs, rest, 11);
    FieldBytes(fs, rest, 12);
    FieldBytes(fs, rest, 13);
    FieldBytes(fs, rest, 14);
    FieldBytes(fs, rest, 15);
    FieldBytes(fs, rest, 16);
  }

  /** The end record: the number of members twice, the size of the index and where it starts. */
  lemma {:induction false} EndBytesAre(ms: seq<Member>)
    ensures var b := End(ms);
            && |b| == 22 && b[0..4] == [0x50, 0x4B, 0x05, 0x06] && b[4..6] == [0, 0] && b[6..8] == [0, 0]
            && b[8..10] == Low16(|ms| % 65536) && b[10..12] == Low16(|ms| % 65536)
            && b[12..16] == Low32(|Flat(CentralBlocks(ms))| % 4294967296)
            && b[16..20] == Low32(|Flat(LocalBlocks(ms))| % 4294967296) && b[20..22] == [0, 0]
  {
    StartOfIndex(ms);
    EndIsRecord(ms);
    EndRecordBytes(|ms| % 65536, |Flat(CentralBlocks(ms))| % 4294967296, |Flat(LocalBlocks(ms))| % 4294967296);
  }

  lemma {:induction false} StartOfIndex(ms: seq<Member>)
    ensures Start(ms, |ms|) == |Flat(LocalBlocks(ms))| % 4294967296
  {
    CursorAtEnd(LocalBlocks(ms));
  }

  lemma {:induction false} CursorAtEnd(blocks: seq<Bytes>)
    ensures Cursor(0, blocks, |blocks|) == |Flat(blocks)| % 4294967296
  {
    CursorIsLength(0, blocks, |blocks|);
    assert blocks[..|blocks|] == blocks;
  }

  lemma {:induction false} EndIsRecord(ms: seq<Member>)
    ensures End(ms) == Encode(EndRecord(|ms| % 65536, |Flat(CentralBlocks(ms))| % 4294967296, Start(ms, |ms|)))
  {
  }

  lemma {:induction false} EndRecordBytes(count: nat, size: nat, start: nat)
    ensures var b := Encode(EndRecord(count, size, start));
            && |b| == 22 && b[0..4] == [0x50, 0x4B, 0x05, 0x06] && b[4..6] == [0, 0] && b[6..8] == [0, 0]
            && b[8..10] == Low16(count) && b[10..12] == Low16(count)
            && b[12..16] == Low32(size) && b[16..20] == Low32(start) && b[20..22] == [0, 0]
  {
    var fs := EndRecord(count, size, start);
    EndLayout(fs);
    EndOffsets(fs);
    assert Encode(fs) + [] == Encode(fs);
    FieldBytes(fs, [], 0);
    FieldBytes(fs, [], 1);
    FieldBytes(fs, [], 2);
    FieldBytes(fs, [], 3);
    FieldBytes(fs, [], 4);
    FieldBytes(fs, [], 5);
    FieldBytes(fs, [], 6);
    FieldBytes(fs, [], 7);
  }

  lemma {:induction false} EndOffsets(fs: seq<Field>)
    requires |fs| == 8 && fs[0].W32? && fs[1].W16? && fs[2].W16? && fs[3].W16? && fs[4].W16?
    requires fs[5].W32? && fs[6].W32?
    ensures Offset(fs, 1) == 4 && Offset(fs, 2) == 6 && Offset(fs, 3) == 8 && Offset(fs, 7) == 20
  {
    assert Offset(fs, 1) == 4;
    assert Offset(fs, 2) == 6;
    assert Offset(fs, 3) == 8;
    assert Offset(fs, 4) == 10;
    assert Offset(fs, 5) == 12;
    assert Offset(fs, 6) == 16;
  }

  // ---- What is read ----

  function At16(b: Bytes, p: nat): nat
    requires p + 2 <= |b|
  {
    b[p] as int + 256 * b[p + 1] as int
  }

  function At32(b: Bytes, p: nat): nat
    requires p + 4 <= |b|
  {
    b[p] as int + 256 * b[p + 1] as int + 65536 * b[p + 2] as int + 16777216 * b[p + 3] as int
  }

  lemma {:induction false} ReadWords(b: Bytes, p: nat)
    ensures p + 2 <= |b| ==> Rd16(b, p) == At16(b, p)
    ensures p + 4 <= |b| ==> Rd32(b, p) == At32(b, p)
  {
    if p + 2 <= |b| {
      assert FromLe(b, p + 1, p + 2) == b[p + 1] as int;
    }
    if p + 4 <= |b| {
      assert FromLe(b, p + 3, p + 4) == b[p + 3] as int;
      assert FromLe(b, p + 2, p + 4) == b[p + 2] as int + 256 * b[p + 3] as int;
      assert FromLe(b, p + 1, p + 4) == b[p + 1] as int + 256 * (b[p + 2] as int + 256 * b[p + 3] as int);
    }
  }

  lemma {:induction false} SignatureBytes(b: Bytes, p: nat)
    requires p + 4 <= |b|
    ensures At32(b, p) == 0x04034b50 <==> b[p..p + 4] == [0x50, 0x4B, 0x03, 0x04]
  {
    var q := b[p..p + 4];
    assert q[0] == b[p] && q[1] == b[p + 1] && q[2] == b[p + 2] && q[3] == b[p + 3];
  }

  /** The name of a member ends at the first NUL of its field. */
  lemma {:induction false} CStrEnds(s: Bytes)
    ensures forall k :: 0 <= k < |CStr(s)| ==> s[k] != 0
    ensures |CStr(s)| < |s| ==> s[|CStr(s)|] == 0
  {
    if s != [] && s[0] != 0 {
      CStrEnds(s[1..]);
    }
  }

  /** The member at a header with these fields, if there is room for it, and what follows its data. */
  function HeaderSays(b: Bytes, p: nat, how: nat, size: nat, whole: nat, n: nat, extra: nat): seq<Member> {
    var data := p + 30 + n + extra;
    if data + size > |b| then []
    else if how != 0 || whole != size then ParseFrom(b, data + size)
    else [Member(CStr(b[p + 30..p + 30 + n]), b[data..data + size])] + ParseFrom(b, data + size)
  }

  lemma {:induction false} HeaderStep(b: Bytes, p: nat, how: nat, size: nat, whole: nat, n: nat, extra: nat)
    requires p + 30 <= |b| && Rd16(b, p + 8) == how && Rd32(b, p + 18) == size && Rd32(b, p + 22) == whole
    requires Rd16(b, p + 26) == n && Rd16(b, p + 28) == extra
    ensures ParseHeader(b, p) == HeaderSays(b, p, how, size, whole, n, extra)
  {
  }

  /**
   One step of the reader, at any place of any bytes: it stops without the four signature bytes
   or where the data would pass the end; a member that is not stored, or whose sizes differ, is
   passed over; the next header is looked for right behind the data.
   */
  lemma {:induction false} ReaderStep(b: Bytes, p: nat)
    ensures ParseFrom(b, p) ==
            if p + 30 > |b| || b[p..p + 4] != [0x50, 0x4B, 0x03, 0x04] then []
            else HeaderSays(b, p, At16(b, p + 8), At32(b, p + 18), At32(b, p + 22), At16(b, p + 26), At16(b, p + 28))
  {
    if p + 30 <= |b| {
      SignatureBytes(b, p);
      ReadWords(b, p);
      if b[p..p + 4] == [0x50, 0x4B, 0x03, 0x04] {
        HeaderRead(b, p);
        ReadWords(b, p + 8);
        ReadWords(b, p + 18);
        ReadWords(b, p + 22);
        ReadWords(b, p + 26);
        ReadWords(b, p + 28);
        HeaderStep(b, p, Rd16(b, p + 8), Rd32(b, p + 18), Rd32(b, p + 22), Rd16(b, p + 26), Rd16(b, p + 28));
      } else {
        NoHeader(b, p);
      }
    }
  }

  // ---- What an addition writes ----

  /**
   An addition writes the members of other names, in their order, and then the new one; of content
   of four gigabytes or more it keeps what the 32-bit length leaves of its beginning.
   */
  lemma {:induction false} AdditionIs(ms: seq<Member>, name: Bytes, content: Bytes)
    ensures var r, n := Rewritten(ms, AddFile(name, content)), |content| % 4294967296;
            && r != [] && r[|r| - 1] == Member(name, content[..n])
            && (forall m :: m in r[..|r| - 1] <==> m in ms && m.name != name)
            && |r| <= |ms| + 1
  {
    var kept := Without(ms, name);
    var r := Rewritten(ms, AddFile(name, content));
    assert r[..|r| - 1] == kept;
    WithoutKeeps(ms, name);
    WithoutShort(ms, name);
  }

  lemma {:induction false} WithoutShort(ms: seq<Member>, name: Bytes)
    ensures |Without(ms, name)| <= |ms|
  {
    if ms != [] {
      WithoutShort(ms[..|ms| - 1], name);
    }
  }
}
