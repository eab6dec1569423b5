/**
 The zip operations on top of the format: the writing loop with its 32-bit cursor, the index
 it leaves at the end of the file, and runs of add, replace and remove on one path.
 */
module ZipStore {
  import opened Powers
  import opened Crc32
  import opened Zip

  // ---- The writing loop ----

  lemma {:induction false} WrapTwice(x: nat, y: nat)
    ensures Wrap32(Wrap32(x) + y) == Wrap32(x + y)
  {
  }

  lemma {:induction false} WrapGap(start: nat, size: nat)
    requires start < TWO32
    ensures Wrap32(Wrap32(start + size) + TWO32 - start) == Wrap32(size)
  {
  }

  /** The cursor counts the bytes written, in 32 bits. */
  lemma {:induction false} CursorIsLength(base: nat, blocks: seq<Bytes>, n: nat)
    requires base < TWO32 && n <= |blocks|
    ensures Cursor(base, blocks, n) == Wrap32(base + |Flat(blocks[..n])|)
    decreases n
  {
    if n > 0 {
      CursorIsLength(base, blocks, n - 1);
      FlatLength(blocks, n - 1);
      WrapTwice(base + |Flat(blocks[..n - 1])|, |blocks[n - 1]|);
    }
  }

  /** A 32-bit difference of cursors is the number of bytes between them. */
  lemma {:induction false} CursorSpan(base: nat, blocks: seq<Bytes>)
    requires base < TWO32
    ensures Wrap32(Cursor(base, blocks, |blocks|) + TWO32 - base) == Wrap32(|Flat(blocks)|)
  {
    CursorIsLength(base, blocks, |blocks|);
    assert blocks[..|blocks|] == blocks;
    WrapGap(base, |Flat(blocks)|);
  }

  /** Writing one block. */
  method Advance(ghost base: nat, ghost blocks: seq<Bytes>, ghost n: nat, out: Bytes, cursor: nat, bytes: Bytes)
    returns (r: Bytes, next: nat)
    requires base < TWO32 && n < |blocks| && bytes == blocks[n]
    requires out == Flat(blocks[..n]) && cursor == Cursor(base, blocks, n)
    ensures r == Flat(blocks[..n + 1]) && next == Cursor(base, blocks, n + 1)
  {
    assert blocks[..n + 1][..n] == blocks[..n];
    r, next := out + bytes, Wrap32(cursor + |bytes|);
  }

  /** Name and data behind a header whose checksum was computed by the table routine. */
  method LocalBytes(m: Member) returns (bytes: Bytes, crc: nat)
    ensures bytes == Local(m) && crc == Crc(m.data)
  {
    crc := TableCrc(m.data);
    var name := Cut(m.name);
    var header := [W32(LOCAL_SIG), W16(20), W16(0), W16(0), W16(0), W16(0x21),
                   W32(crc), W32(|m.data|), W32(|m.data|), W16(|name|), W16(0)];
    assert header == LocalHeader(m);
    bytes := Encode(header) + (name + m.data);
  }

  method CentralBytes(m: Member, crc: nat, offset: nat) returns (bytes: Bytes)
    requires crc == Crc(m.data)
    ensures bytes == Central(m, offset)
  {
    var name := Cut(m.name);
    var header := CentralRecord(crc, |m.data|, |name|, offset);
    bytes := Encode(header) + name;
  }

  /**
   The blocks and checksums from `n` on are those of the members. The three steps keep the
   bytes of a header out of proofs that only pass from one member to the next.
   */
  ghost predicate AreLocals(ms: seq<Member>, blocks: seq<Bytes>, sums: seq<nat>, n: nat)
    requires |blocks| == |sums| == |ms|
    decreases |ms| - n, 2
  {
    n < |ms| ==> IsLocalAt(ms, blocks, sums, n)
  }

  ghost predicate IsLocalAt(ms: seq<Member>, blocks: seq<Bytes>, sums: seq<nat>, n: nat)
    requires |blocks| == |sums| == |ms| && n < |ms|
    decreases |ms| - n, 1
  {
    HasLocal(ms, blocks, sums, n)
  }

  ghost predicate HasLocal(ms: seq<Member>, blocks: seq<Bytes>, sums: seq<nat>, n: nat)
    requires |blocks| == |sums| == |ms| && n < |ms|
    decreases |ms| - n, 0
  {
    blocks[n] == Local(ms[n]) && sums[n] == Crc(ms[n].data) && AreLocals(ms, blocks, sums, n + 1)
  }

  function Checksums(ms: seq<Member>): (r: seq<nat>)
    ensures |r| == |ms|
  {
    seq(|ms|, i requires 0 <= i < |ms| => Crc(ms[i].data))
  }

  lemma {:induction false} LocalBlocksAre(ms: seq<Member>, n: nat)
    ensures AreLocals(ms, LocalBlocks(ms), Checksums(ms), n)
    decreases |ms| - n
  {
    if n < |ms| {
      LocalBlocksAre(ms, n + 1);
      assert HasLocal(ms, LocalBlocks(ms), Checksums(ms), n);
      assert IsLocalAt(ms, LocalBlocks(ms), Checksums(ms), n);
    }
  }

  /** One round of the first loop. */
  method NextLocal(ms: seq<Member>, ghost blocks: seq<Bytes>, ghost sums: seq<nat>, n: nat) returns (bytes: Bytes, crc: nat)
    requires |blocks| == |sums| == |ms| && n < |ms| && AreLocals(ms, blocks, sums, n)
    ensures bytes == blocks[n] && crc == sums[n] && AreLocals(ms, blocks, sums, n + 1)
  {
    assert IsLocalAt(ms, blocks, sums, n);
    assert HasLocal(ms, blocks, sums, n);
    bytes, crc := LocalBytes(ms[n]);
  }

  /** Where each block starts, and its checksum. */
  ghost predicate NotedAt(blocks: seq<Bytes>, sums: seq<nat>, offsets: seq<nat>, crcs: seq<nat>, i: nat)
    requires i < |offsets| == |crcs| == |sums| == |blocks|
  {
    offsets[i] == Cursor(0, blocks, i) && crcs[i] == sums[i]
  }

  ghost predicate Noted(blocks: seq<Bytes>, sums: seq<nat>, offsets: seq<nat>, crcs: seq<nat>) {
    |offsets| == |crcs| == |sums| == |blocks| && forall i: nat :: i < |blocks| ==> NotedAt(blocks, sums, offsets, crcs, i)
  }

  /** The first loop: local headers and data, remembering checksums and where each member starts. */
  method WriteLocals(ms: seq<Member>, ghost blocks: seq<Bytes>, ghost sums: seq<nat>, offsets: array<nat>, crcs: array<nat>)
    returns (out: Bytes, cursor: nat)
    requires |blocks| == |sums| == |ms| && AreLocals(ms, blocks, sums, 0)
    requires offsets.Length == crcs.Length == |ms| && offsets != crcs
    modifies offsets, crcs
    ensures out == Flat(blocks) && cursor == Cursor(0, blocks, |ms|)
    ensures Noted(blocks, sums, offsets[..], crcs[..])
  {
    out, cursor := [], 0;
    for i := 0 to |ms|
      invariant out == Flat(blocks[..i]) && cursor == Cursor(0, blocks, i) && AreLocals(ms, blocks, sums, i)
      invariant forall j :: 0 <= j < i ==> offsets[j] == Cursor(0, blocks, j) && crcs[j] == sums[j]
    {
      var bytes, crc := NextLocal(ms, blocks, sums, i);
      offsets[i], crcs[i] := cursor, crc;
      out, cursor := Advance(0, blocks, i, out, cursor, bytes);
    }
    assert blocks[..|ms|] == blocks;
    assert forall i: nat :: i < |ms| ==> NotedAt(blocks, sums, offsets[..], crcs[..], i);
  }

  lemma {:induction false} CentralBlockAt(ms: seq<Member>, i: nat)
    requires i < |ms|
    ensures CentralBlocks(ms)[i] == Central(ms[i], Start(ms, i))
  {
  }

  /** What the first loop leaves for the second. */
  ghost predicate Remembered(ms: seq<Member>, offsets: seq<nat>, crcs: seq<nat>) {
    |offsets| == |crcs| == |ms| && forall i: nat :: i < |ms| ==> RememberedAt(ms, offsets, crcs, i)
  }

  ghost predicate RememberedAt(ms: seq<Member>, offsets: seq<nat>, crcs: seq<nat>, i: nat)
    requires i < |offsets| == |crcs| == |ms|
  {
    offsets[i] == Start(ms, i) && crcs[i] == Crc(ms[i].data)
  }

  lemma {:induction false} FirstRemembers(ms: seq<Member>, offsets: seq<nat>, crcs: seq<nat>)
    requires Noted(LocalBlocks(ms), Checksums(ms), offsets, crcs)
    ensures Remembered(ms, offsets, crcs)
  {
    forall i: nat | i < |ms| ensures RememberedAt(ms, offsets, crcs, i) {
      assert NotedAt(LocalBlocks(ms), Checksums(ms), offsets, crcs, i);
    }
  }

  /** The first `n` entries of the central directory are written. */
  ghost predicate CentralsDone(ms: seq<Member>, n: nat, base: nat, out: Bytes, cursor: nat)
    requires base < TWO32
  {
    n <= |ms| && out == Flat(CentralBlocks(ms)[..n]) && cursor == Cursor(base, CentralBlocks(ms), n)
  }

  /** One round of the second loop. */
  method NextCentral(ms: seq<Member>, offsets: array<nat>, crcs: array<nat>, i: nat, ghost base: nat, out: Bytes, cursor: nat)
    returns (r: Bytes, next: nat)
    requires base < TWO32 && i < |ms| && Remembered(ms, offsets[..], crcs[..]) && CentralsDone(ms, i, base, out, cursor)
    ensures CentralsDone(ms, i + 1, base, r, next)
  {
    assert RememberedAt(ms, offsets[..], crcs[..], i);
    var bytes := CentralBytes(ms[i], crcs[i], offsets[i]);
    CentralBlockAt(ms, i);
    r, next := Advance(base, CentralBlocks(ms), i, out, cursor, bytes);
  }

  lemma {:induction false} AllCentrals(ms: seq<Member>, base: nat, out: Bytes, cursor: nat)
    requires base < TWO32 && CentralsDone(ms, |ms|, base, out, cursor)
    ensures out == Flat(CentralBlocks(ms)) && IndexSpan(ms, base, cursor)
  {
    assert CentralBlocks(ms)[..|ms|] == CentralBlocks(ms);
    CursorSpan(base, CentralBlocks(ms));
  }

  /** The difference of cursors around the index is its size in 32 bits. */
  ghost predicate IndexSpan(ms: seq<Member>, start: nat, cursor: nat) {
    start <= cursor + TWO32 && Wrap32(cursor + TWO32 - start) == Wrap32(|Flat(CentralBlocks(ms))|)
  }

  /** The second loop: the central directory. */
  method WriteCentrals(ms: seq<Member>, offsets: array<nat>, crcs: array<nat>, start: nat) returns (out: Bytes, cursor: nat)
    requires start < TWO32 && Remembered(ms, offsets[..], crcs[..])
    ensures out == Flat(CentralBlocks(ms)) && CentralsDone(ms, |ms|, start, out, cursor) && IndexSpan(ms, start, cursor)
  {
    out, cursor := [], start;
    for i := 0 to |ms|
      invariant CentralsDone(ms, i, start, out, cursor)
    {
      out, cursor := NextCentral(ms, offsets, crcs, i, start, out, cursor);
    }
    AllCentrals(ms, start, out, cursor);
  }

  /** The end record; the size of the index is a 32-bit difference of cursors. */
  method WriteEnd(ms: seq<Member>, start: nat, cursor: nat) returns (bytes: Bytes)
    requires start == Start(ms, |ms|) && IndexSpan(ms, start, cursor)
    ensures bytes == End(ms)
  {
    var indexSize := Wrap32(cursor + TWO32 - start);
    EndWritten(ms, start, indexSize);
    bytes := Encode(EndRecord(Wrap16(|ms|), indexSize, start));
  }

  /** The central directory and the end record. */
  method WriteIndex(ms: seq<Member>, offsets: array<nat>, crcs: array<nat>, start: nat) returns (bytes: Bytes)
    requires start == Start(ms, |ms|) && Remembered(ms, offsets[..], crcs[..])
    ensures bytes == Flat(CentralBlocks(ms)) + End(ms)
  {
    var centrals, cursor := WriteCentrals(ms, offsets, crcs, start);
    var end := WriteEnd(ms, start, cursor);
    bytes := centrals + end;
  }

  /** `tinox_zip_write` as it runs. */
  method WriteArchive(ms: seq<Member>) returns (bytes: Bytes)
    ensures bytes == Written(ms)
  {
    var offsets, crcs := new nat[|ms|], new nat[|ms|];
    LocalBlocksAre(ms, 0);
    var locals, start := WriteLocals(ms, LocalBlocks(ms), Checksums(ms), offsets, crcs);
    FirstRemembers(ms, offsets[..], crcs[..]);
    var index := WriteIndex(ms, offsets, crcs, start);
    bytes := locals + index;
  }

  lemma {:induction false} EndWritten(ms: seq<Member>, start: nat, size: nat)
    requires start == Start(ms, |ms|) && size == Wrap32(|Flat(CentralBlocks(ms))|)
    ensures Encode(EndRecord(Wrap16(|ms|), size, start)) == End(ms)
  {
  }

  // ---- The index ----

  lemma {:induction false} EndLayout(fs: seq<Field>)
    requires |fs| == 8 && fs[0].W32? && fs[1].W16? && fs[2].W16? && fs[3].W16? && fs[4].W16?
    requires fs[5].W32? && fs[6].W32? && fs[7].W16?
    ensures Offset(fs, 4) == 10 && Offset(fs, 5) == 12 && Offset(fs, 6) == 16 && Offset(fs, 8) == 22
  {
    assert Offset(fs, 1) == 4;
    assert Offset(fs, 2) == 6;
    assert Offset(fs, 3) == 8;
    assert Offset(fs, 4) == 10;
    assert Offset(fs, 5) == 12;
    assert Offset(fs, 6) == 16;
    assert Offset(fs, 7) == 20;
  }

  lemma {:induction false} CentralLayout(fs: seq<Field>)
    requires |fs| == 17 && fs[0].W32? && fs[7].W32? && fs[8].W32? && fs[9].W32? && fs[15].W32? && fs[16].W32?
    requires fs[1].W16? && fs[2].W16? && fs[3].W16? && fs[4].W16? && fs[5].W16? && fs[6].W16?
    requires fs[10].W16? && fs[11].W16? && fs[12].W16? && fs[13].W16? && fs[14].W16?
    ensures Offset(fs, 0) == 0 && Offset(fs, 7) == 16 && Offset(fs, 9) == 24 && Offset(fs, 10) == 28
    ensures Offset(fs, 16) == 42 && Offset(fs, 17) == 46
  {
    assert Offset(fs, 1) == 4;
    assert Offset(fs, 2) == 6;
    assert Offset(fs, 4) == 10;
    assert Offset(fs, 6) == 14;
    assert Offset(fs, 8) == 20;
    assert Offset(fs, 10) == 28;
    assert Offset(fs, 12) == 32;
    assert Offset(fs, 14) == 36;
    assert Offset(fs, 16) == 42;
  }

  /** An end record at `e`, the last 22 bytes of the file. */
  ghost predicate EndsAt(b: Bytes, e: nat, count: nat, size: nat, start: nat) {
    && |b| == e + 22 && Rd32(b, e) == END_SIG && Rd16(b, e + 10) == count
    && Rd32(b, e + 12) == size && Rd32(b, e + 16) == start
  }

  lemma {:induction false} EndFields(b: Bytes, e: nat, count: nat, size: nat, start: nat)
    requires |b| == e + 22 && Has(b, e, Encode(EndRecord(count, size, start)))
    requires count < TWO16 && size < TWO32 && start < TWO32
    ensures EndsAt(b, e, count, size, start)
  {
    var fs := EndRecord(count, size, start);
    EndLayout(fs);
    ReadField(fs, 0, b, e);
    ReadField(fs, 4, b, e);
    ReadField(fs, 5, b, e);
    ReadField(fs, 6, b, e);
  }

  /** Three parts one after the other. */
  ghost predicate Parts(b: Bytes, x: Bytes, y: Bytes, z: Bytes) {
    |b| == |x| + |y| + |z| && Has(b, 0, x) && Has(b, |x|, y) && Has(b, |x| + |y|, z)
  }

  lemma {:induction false} PartsOf(x: Bytes, y: Bytes, z: Bytes)
    ensures Parts(x + (y + z), x, y, z)
  {
    HasThree(x + (y + z), 0, x, y, z);
  }

  lemma {:induction false} EndBehind(x: Bytes, y: Bytes, b: Bytes, count: nat, size: nat, start: nat)
    requires count < TWO16 && size < TWO32 && start < TWO32
    requires Parts(b, x, y, Encode(EndRecord(count, size, start)))
    ensures EndsAt(b, |x| + |y|, count, size, start)
  {
    EndLayout(EndRecord(count, size, start));
    EndFields(b, |x| + |y|, count, size, start);
  }

  lemma {:induction false} EndOf(x: Bytes, y: Bytes, count: nat, size: nat, start: nat)
    requires count < TWO16 && size < TWO32 && start < TWO32
    ensures EndsAt(x + (y + Encode(EndRecord(count, size, start))), |x| + |y|, count, size, start)
  {
    var z := Encode(EndRecord(count, size, start));
    PartsOf(x, y, z);
    EndBehind(x, y, x + (y + z), count, size, start);
  }

  /** What a reader that starts from the end of the file finds there. */
  lemma {:induction false} EndOfArchive(ms: seq<Member>)
    ensures EndsAt(Written(ms), |Flat(LocalBlocks(ms))| + |Flat(CentralBlocks(ms))|,
                   Wrap16(|ms|), Wrap32(|Flat(CentralBlocks(ms))|), Start(ms, |ms|))
  {
    EndOf(Flat(LocalBlocks(ms)), Flat(CentralBlocks(ms)), Wrap16(|ms|),
          Wrap32(|Flat(CentralBlocks(ms))|), Start(ms, |ms|));
  }

  lemma {:induction false} CentralFields(b: Bytes, p: nat, crc: nat, size: nat, length: nat, offset: nat)
    requires Has(b, p, Encode(CentralRecord(crc, size, length, offset)))
    requires crc < TWO32 && size < TWO32 && length < TWO16 && offset < TWO32
    ensures p + 46 <= |b| && Rd32(b, p) == CENTRAL_SIG && Rd32(b, p + 16) == crc
    ensures Rd32(b, p + 24) == size && Rd16(b, p + 28) == length && Rd32(b, p + 42) == offset
  {
    var fs := CentralRecord(crc, size, length, offset);
    CentralLayout(fs);
    ReadField(fs, 0, b, p);
    ReadField(fs, 7, b, p);
    ReadField(fs, 9, b, p);
    ReadField(fs, 10, b, p);
    ReadField(fs, 16, b, p);
  }

  lemma {:induction false} FlatGrows(blocks: seq<Bytes>, n: nat)
    requires n <= |blocks|
    ensures |Flat(blocks[..n])| <= |Flat(blocks)|
    decreases |blocks| - n
  {
    if n < |blocks| {
      FlatLength(blocks, n);
      FlatGrows(blocks, n + 1);
    } else {
      assert blocks[..n] == blocks;
    }
  }

  /** Under four gigabytes the cursor is the position. */
  lemma {:induction false} CursorIsPosition(blocks: seq<Bytes>, n: nat)
    requires n <= |blocks| && |Flat(blocks)| < TWO32
    ensures Cursor(0, blocks, n) == |Flat(blocks[..n])|
  {
    FlatGrows(blocks, n);
    CursorIsLength(0, blocks, n);
  }

  lemma {:induction false} BlocksInArchive(xs: seq<Bytes>, ys: seq<Bytes>, z: Bytes, b: Bytes, i: nat)
    requires i < |xs| && i < |ys| && Parts(b, Flat(xs), Flat(ys), z)
    ensures Has(b, |Flat(xs[..i])|, xs[i]) && Has(b, |Flat(xs)| + |Flat(ys[..i])|, ys[i])
  {
    FlatAt(xs, i, b, 0);
    FlatAt(ys, i, b, |Flat(xs)|);
  }

  /** An index entry at `p` for a member: its name, checksum, size and offset. */
  ghost predicate EntryAt(b: Bytes, p: nat, m: Member, offset: nat) {
    && p + 46 <= |b| && Rd32(b, p) == CENTRAL_SIG && Has(b, p + 46, Cut(m.name))
    && Rd32(b, p + 16) == Crc(m.data) && Rd32(b, p + 24) == |m.data| && Rd16(b, p + 28) == |Cut(m.name)|
    && Rd32(b, p + 42) == offset
  }

  lemma {:induction false} CentralEntry(m: Member, offset: nat, b: Bytes, p: nat)
    requires Sized(m) && offset < TWO32 && Has(b, p, Central(m, offset))
    ensures EntryAt(b, p, m, offset)
  {
    var fs := CentralHeader(m, offset);
    CentralLayout(fs);
    HasAppend(b, p, Encode(fs), Cut(m.name));
    CentralFields(b, p, Crc(m.data), |m.data|, |Cut(m.name)|, offset);
  }

  ghost predicate AlwaysEntry(b: Bytes, block: Bytes, m: Member, offset: nat) {
    forall p: nat :: Has(b, p, block) ==> EntryAt(b, p, m, offset)
  }

  lemma {:induction false} BlocksAlways(m: Member, offset: nat, b: Bytes)
    requires Sized(m) && offset < TWO32
    ensures AlwaysLaidOut(b, Local(m), Cut(m.name), m.data) && AlwaysEntry(b, Central(m, offset), m, offset)
  {
    forall p: nat | Has(b, p, Local(m)) ensures LaidOut(b, p, Cut(m.name), m.data) {
      LocalLaidOut(m, b, p);
    }
    forall p: nat | Has(b, p, Central(m, offset)) ensures EntryAt(b, p, m, offset) {
      CentralEntry(m, offset, b, p);
    }
  }

  lemma {:induction false} EntryInArchive(xs: seq<Bytes>, ys: seq<Bytes>, z: Bytes, b: Bytes, m: Member, i: nat)
    requires i < |xs| && i < |ys| && |Flat(xs)| < TWO32 && Parts(b, Flat(xs), Flat(ys), z)
    requires AlwaysLaidOut(b, xs[i], Cut(m.name), m.data) && AlwaysEntry(b, ys[i], m, Cursor(0, xs, i))
    ensures EntryAt(b, |Flat(xs)| + |Flat(ys[..i])|, m, Cursor(0, xs, i))
    ensures LaidOut(b, Cursor(0, xs, i), Cut(m.name), m.data)
  {
    BlocksInArchive(xs, ys, z, b, i);
    CursorIsPosition(xs, i);
  }

  lemma {:induction false} EntryLocates(xs: seq<Bytes>, ys: seq<Bytes>, z: Bytes, b: Bytes, m: Member, i: nat)
    requires i < |xs| && i < |ys| && |Flat(xs)| < TWO32 && Parts(b, Flat(xs), Flat(ys), z)
    requires Sized(m) && xs[i] == Local(m) && ys[i] == Central(m, Cursor(0, xs, i))
    ensures EntryAt(b, |Flat(xs)| + |Flat(ys[..i])|, m, Cursor(0, xs, i))
    ensures LaidOut(b, Cursor(0, xs, i), Cut(m.name), m.data)
  {
    BlocksAlways(m, Cursor(0, xs, i), b);
    EntryInArchive(xs, ys, z, b, m, i);
  }

  lemma {:induction false} EntryOf(xs: seq<Bytes>, ys: seq<Bytes>, z: Bytes, m: Member, i: nat)
    requires i < |xs| && i < |ys| && |Flat(xs)| < TWO32
    requires Sized(m) && xs[i] == Local(m) && ys[i] == Central(m, Cursor(0, xs, i))
    ensures var b := Flat(xs) + (Flat(ys) + z);
            && EntryAt(b, |Flat(xs)| + |Flat(ys[..i])|, m, Cursor(0, xs, i))
            && LaidOut(b, Cursor(0, xs, i), Cut(m.name), m.data)
  {
    PartsOf(Flat(xs), Flat(ys), z);
    EntryLocates(xs, ys, z, Flat(xs) + (Flat(ys) + z), m, i);
  }

  /**
   The index is right while the archive stays under four gigabytes: entry `i` of the central
   directory names member `i`, carries its checksum and size, and points at its local header,
   behind which its name and data stand.
   */
  lemma {:induction false} IndexLocates(ms: seq<Member>, i: nat)
    requires i < |ms| && Sized(ms[i]) && |Written(ms)| < TWO32
    ensures EntryAt(Written(ms), |Flat(LocalBlocks(ms))| + |Flat(CentralBlocks(ms)[..i])|, ms[i], Start(ms, i))
    ensures LaidOut(Written(ms), Start(ms, i), Cut(ms[i].name), ms[i].data)
  {
    EntryOf(LocalBlocks(ms), CentralBlocks(ms), End(ms), ms[i], i);
  }

  // ---- Runs on one path ----

  datatype File = Missing | Present(bytes: Bytes)

  datatype Op = AddFile(name: Bytes, content: Bytes) | RemoveFile(name: Bytes)

  function ParseFile(f: File): seq<Member> { if f.Missing? then [] else Parse(f.bytes) }

  /** The members without those of the given name. */
  function Without(ms: seq<Member>, name: Bytes): seq<Member> {
    if ms == [] then []
    else
      var n := |ms| - 1;
      Without(ms[..n], name) + if ms[n].name == name then [] else [ms[n]]
  }

  /** `(uint32_t)strlen(content)`: what of new content is kept. */
  function Stored(content: Bytes): Bytes {
    content[..Wrap32(|content|)]
  }

  /** The list an operation writes. */
  function Rewritten(ms: seq<Member>, op: Op): seq<Member> {
    match op
    case AddFile(name, content) => Without(ms, name) + [Member(name, Stored(content))]
    case RemoveFile(name) => Without(ms, name)
  }

  /** The copying loop of both operations. */
  method KeepOthers(ms: seq<Member>, name: Bytes) returns (kept: seq<Member>)
    ensures kept == Without(ms, name)
  {
    kept := [];
    for i := 0 to |ms|
      invariant kept == Without(ms[..i], name)
    {
      assert ms[..i + 1][..i] == ms[..i];
      if ms[i].name != name {
        kept := kept + [ms[i]];
      }
    }
    assert ms[..|ms|] == ms;
  }

  method ReadArchive(f: File) returns (ms: seq<Member>)
    ensures ms == ParseFile(f)
  {
    ms := [];
    if f.Present? {
      ms := ParseArchive(f.bytes);
    }
  }

  /** `zipAddFile` and `zipRemoveFile`: parse, change the list, write the whole file. */
  method Apply(f: File, op: Op) returns (r: File)
    ensures r == Present(Written(Rewritten(ParseFile(f), op)))
  {
    var before := ReadArchive(f);
    var ms := KeepOthers(before, op.name);
    if op.AddFile? {
      ms := ms + [Member(op.name, Stored(op.content))];
    }
    var bytes := WriteArchive(ms);
    r := Present(bytes);
  }

  function After(ops: seq<Op>): File {
    if ops == [] then Missing
    else Present(Written(Rewritten(ParseFile(After(ops[..|ops| - 1])), ops[|ops| - 1])))
  }

  datatype Found = None | Some(data: Bytes)

  /** The first member of a name. */
  function Find(ms: seq<Member>, name: Bytes): Found {
    if ms == [] then None else if ms[0].name == name then Some(ms[0].data) else Find(ms[1..], name)
  }

  function Extracted(r: Found): Bytes { if r.Some? then CStr(r.data) else [] }

  /** `zipExtractFile`: the first member of that name, as a C string. */
  method Extract(f: File, name: Bytes) returns (content: Bytes)
    ensures content == Extracted(Find(ParseFile(f), name))
  {
    var ms := ReadArchive(f);
    for i := 0 to |ms|
      invariant Find(ms[i..], name) == Find(ms, name)
    {
      if ms[i].name == name {
        return CStr(ms[i].data);
      }
    }
    return [];
  }

  /** What a run means. */
  function Contents(ops: seq<Op>): map<Bytes, Bytes> {
    if ops == [] then map[] else Updated(Contents(ops[..|ops| - 1]), ops[|ops| - 1])
  }

  function Updated(m: map<Bytes, Bytes>, op: Op): map<Bytes, Bytes> {
    match op
    case AddFile(name, content) => m[name := content]
    case RemoveFile(name) => m - {name}
  }

  function Lookup(m: map<Bytes, Bytes>, name: Bytes): Found {
    if name in m then Some(m[name]) else None
  }

  predicate CString(s: Bytes) { forall i :: 0 <= i < |s| ==> s[i] != 0 }

  /** A C string name under 64 KiB and C string content under 4 GiB. */
  predicate Ordinary(op: Op) {
    && CString(op.name) && |op.name| < TWO16
    && (op.AddFile? ==> CString(op.content) && |op.content| < TWO32)
  }

  ghost predicate Storable(ms: seq<Member>) {
    forall i :: 0 <= i < |ms| ==> Sized(ms[i]) && CName(ms[i]) && CString(ms[i].data) && |ms[i].name| < TWO16
  }

  ghost predicate Distinct(ms: seq<Member>) {
    forall i, j :: 0 <= i < j < |ms| ==> ms[i].name != ms[j].name
  }

  lemma {:induction false} FindLast(ms: seq<Member>, x: Member, name: Bytes)
    ensures Find(ms + [x], name) == if Find(ms, name).Some? then Find(ms, name) else if x.name == name then Some(x.data) else None
    decreases |ms|
  {
    if ms == [] {
      assert ms + [x] == [x];
    } else {
      assert (ms + [x])[1..] == ms[1..] + [x];
      FindLast(ms[1..], x, name);
    }
  }

  lemma {:induction false} FindWithout(ms: seq<Member>, gone: Bytes, name: Bytes)
    ensures Find(Without(ms, gone), name) == if name == gone then None else Find(ms, name)
    decreases |ms|
  {
    if ms != [] {
      var n := |ms| - 1;
      var r := Without(ms[..n], gone);
      FindWithout(ms[..n], gone, name);
      assert ms[..n] + [ms[n]] == ms;
      FindLast(ms[..n], ms[n], name);
      FindLast(r, ms[n], name);
      assert r + [] == r;
    }
  }

  lemma {:induction false} FoundIff(ms: seq<Member>, name: Bytes)
    ensures Find(ms, name).Some? <==> exists i :: 0 <= i < |ms| && ms[i].name == name
    decreases |ms|
  {
    if ms != [] {
      FoundIff(ms[1..], name);
      if Find(ms[1..], name).Some? {
        var i :| 0 <= i < |ms[1..]| && ms[1..][i].name == name;
        assert ms[i + 1].name == name;
      }
      forall i | 0 <= i < |ms| && ms[i].name == name && ms[0].name != name
        ensures Find(ms[1..], name).Some?
      {
        assert ms[1..][i - 1].name == name;
      }
    }
  }

  lemma {:induction false} WithoutKeeps(ms: seq<Member>, gone: Bytes)
    ensures forall x :: x in Without(ms, gone) <==> x in ms && x.name != gone
    decreases |ms|
  {
    if ms != [] {
      var n := |ms| - 1;
      WithoutKeeps(ms[..n], gone);
      assert ms == ms[..n] + [ms[n]];
    }
  }

  lemma {:induction false} WithoutDistinct(ms: seq<Member>, gone: Bytes)
    requires Distinct(ms)
    ensures Distinct(Without(ms, gone))
    decreases |ms|
  {
    if ms != [] {
      var n := |ms| - 1;
      WithoutDistinct(ms[..n], gone);
      WithoutKeeps(ms[..n], gone);
    }
  }

  /** One operation, on what each name finds. */
  lemma {:induction false} RewrittenFind(ms: seq<Member>, op: Op, name: Bytes)
    requires Ordinary(op)
    ensures Find(Rewritten(ms, op), name) ==
            if name != op.name then Find(ms, name) else if op.AddFile? then Some(op.content) else None
  {
    FindWithout(ms, op.name, name);
    if op.AddFile? {
      StoredWhole(op.content);
      FindLast(Without(ms, op.name), Member(op.name, op.content), name);
    }
  }

  lemma {:induction false} StoredWhole(content: Bytes)
    requires |content| < TWO32
    ensures Stored(content) == content
  {
  }

  lemma {:induction false} RewrittenGood(ms: seq<Member>, op: Op)
    requires Storable(ms) && Distinct(ms) && Ordinary(op)
    ensures Storable(Rewritten(ms, op)) && Distinct(Rewritten(ms, op))
  {
    WithoutDistinct(ms, op.name);
    WithoutKeeps(ms, op.name);
    if op.AddFile? {
      StoredWhole(op.content);
    }
  }

  lemma {:induction false} ReadBack(ms: seq<Member>)
    requires Storable(ms)
    ensures ParseFile(Present(Written(ms))) == ms
  {
    RoundTripIff(ms);
  }

  /** The member list after a run, as if it were never written to a file. */
  function Members(ops: seq<Op>): seq<Member> {
    if ops == [] then [] else Rewritten(Members(ops[..|ops| - 1]), ops[|ops| - 1])
  }

  /**
   Writing and reading the file between the operations of a run changes nothing, and the list
   has one member for each name.
   */
  lemma {:induction false} RunsKeepMembers(ops: seq<Op>)
    requires forall i :: 0 <= i < |ops| ==> Ordinary(ops[i])
    ensures ParseFile(After(ops)) == Members(ops) && Storable(Members(ops)) && Distinct(Members(ops))
    decreases |ops|
  {
    if ops != [] {
      var n := |ops| - 1;
      RunsKeepMembers(ops[..n]);
      RewrittenGood(Members(ops[..n]), ops[n]);
      ReadBack(Members(ops));
    }
  }

  lemma {:induction false} MembersRefineMap(ops: seq<Op>, name: Bytes)
    requires forall i :: 0 <= i < |ops| ==> Ordinary(ops[i])
    ensures Find(Members(ops), name) == Lookup(Contents(ops), name)
    decreases |ops|
  {
    if ops != [] {
      var n := |ops| - 1;
      MembersRefineMap(ops[..n], name);
      RewrittenFind(Members(ops[..n]), ops[n], name);
    }
  }

  /** After any run each name finds what was last added under it, if it was not removed since. */
  lemma {:induction false} RunsRefineMap(ops: seq<Op>, name: Bytes)
    requires forall i :: 0 <= i < |ops| ==> Ordinary(ops[i])
    ensures Find(ParseFile(After(ops)), name) == Lookup(Contents(ops), name)
  {
    RunsKeepMembers(ops);
    MembersRefineMap(ops, name);
  }

  lemma {:induction false} ContentsAreStrings(ops: seq<Op>)
    requires forall i :: 0 <= i < |ops| ==> Ordinary(ops[i])
    ensures forall k :: k in Contents(ops) ==> CString(Contents(ops)[k])
    decreases |ops|
  {
    if ops != [] {
      ContentsAreStrings(ops[..|ops| - 1]);
    }
  }

  /** Hence extracting gives the content last added under the name, whole. */
  lemma {:induction false} ExtractIsLastContent(ops: seq<Op>, name: Bytes)
    requires forall i :: 0 <= i < |ops| ==> Ordinary(ops[i])
    ensures Extracted(Find(ParseFile(After(ops)), name)) == if name in Contents(ops) then Contents(ops)[name] else []
  {
    RunsRefineMap(ops, name);
    ContentsAreStrings(ops);
  }

  function Names(ms: seq<Member>): set<Bytes> { set x | x in ms :: x.name }

  lemma {:induction false} DistinctCount(ms: seq<Member>)
    requires Distinct(ms)
    ensures |Names(ms)| == |ms|
    decreases |ms|
  {
    if ms != [] {
      var n := |ms| - 1;
      DistinctCount(ms[..n]);
      assert ms == ms[..n] + [ms[n]];
      assert Names(ms) == Names(ms[..n]) + {ms[n].name};
    }
  }

  /** `zipEntryCount`: as many members as names with content. */
  lemma {:induction false} CountIsNames(ops: seq<Op>)
    requires forall i :: 0 <= i < |ops| ==> Ordinary(ops[i])
    ensures |ParseFile(After(ops))| == |Contents(ops)|
  {
    var ms, m := Members(ops), Contents(ops);
    RunsKeepMembers(ops);
    DistinctCount(ms);
    forall k ensures k in Names(ms) <==> k in m {
      MembersRefineMap(ops, k);
      FoundIff(ms, k);
      NameListed(ms, k);
    }
    assert Names(ms) == m.Keys;
  }

  lemma {:induction false} NameListed(ms: seq<Member>, name: Bytes)
    ensures name in Names(ms) <==> exists i :: 0 <= i < |ms| && ms[i].name == name
  {
    if name in Names(ms) {
      var x :| x in ms && x.name == name;
      var i :| 0 <= i < |ms| && ms[i] == x;
    }
    forall i | 0 <= i < |ms| && ms[i].name == name ensures name in Names(ms) {
      assert ms[i] in ms;
    }
  }
}
