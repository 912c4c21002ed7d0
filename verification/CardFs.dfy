/** The memory card's file system (hle_memcard_format and hle_memcard_write_file): one directory frame
    for each of fifteen blocks, and files as chains of blocks in ascending order. */
module CardFs {
  import opened Options
  import opened Words
  import opened MemCard

  const BLOCK_SIZE: nat := 8192
  const BLOCKS: nat := 15

  // ---- directory frames ----

  function Zeros(n: nat): (z: Bytes)
    ensures |z| == n
  {
    seq<Byte>(n, _ => 0)
  }

  /** A frame's 127 bytes with their checksum behind them. */
  function Sealed(body: Bytes): Bytes {
    body + [XorAll(0, body)]
  }

  function FreeFrame(): (f: Bytes)
    ensures |f| == SECTOR_SIZE
  {
    Sealed([0xA0, 0, 0, 0, 0, 0, 0, 0, 0xFF, 0xFF] + Zeros(117))
  }

  function HeaderFrame(): (f: Bytes)
    ensures |f| == SECTOR_SIZE
  {
    ['M' as int as Byte, 'C' as int as Byte] + Zeros(125) + [0x0E]
  }

  /** A file on the card: its name as a C string, its bytes, and the blocks they are in. */
  datatype File = File(name: Bytes, data: Bytes, blocks: seq<nat>)

  /** strncpy into twenty bytes. */
  function NameField(name: Bytes): (n: Bytes)
    ensures |n| == 20
  {
    if |name| >= 20 then name[..20] else name + Zeros(20 - |name|)
  }

  function StateByte(k: nat, n: nat): Byte {
    if k == 0 then 0x51 else if k + 1 == n then 0x53 else 0x52
  }

  /** The number a frame stores for its successor: one less than the block's, or 0xFFFF at the end. */
  function NextNumber(blocks: seq<nat>, k: nat): Half
    requires k < |blocks| && forall i :: 0 <= i < |blocks| ==> 1 <= blocks[i] <= BLOCKS
  {
    if k + 1 < |blocks| then blocks[k + 1] - 1 else 0xFFFF
  }

  function Le32(v: Word): (b: Bytes)
    ensures |b| == 4
  {
    [v % 0x100, v / 0x100 % 0x100, v / 0x1_0000 % 0x100, v / 0x100_0000]
  }

  ghost predicate FileOk(f: File) {
    && 0 < |f.data| <= BLOCKS * BLOCK_SIZE && |f.blocks| == (|f.data| + BLOCK_SIZE - 1) / BLOCK_SIZE
    && (forall i :: 0 <= i < |f.blocks| ==> 1 <= f.blocks[i] <= BLOCKS)
    && (forall i, j :: 0 <= i < j < |f.blocks| ==> f.blocks[i] < f.blocks[j])
  }

  ghost function FrameBody(f: File, k: nat): (b: Bytes)
    requires FileOk(f) && k < |f.blocks|
    ensures |b| == 127
  {
    var next := NextNumber(f.blocks, k);
    [StateByte(k, |f.blocks|), 0, 0, 0] + Le32(|f.data|) + [next % 0x100, next / 0x100]
    + (if k == 0 then NameField(f.name) else Zeros(20)) + Zeros(97)
  }

  ghost function DirFrame(f: File, k: nat): (b: Bytes)
    requires FileOk(f) && k < |f.blocks|
    ensures |b| == SECTOR_SIZE
  {
    Sealed(FrameBody(f, k))
  }

  function Min(a: nat, b: nat): nat {
    if a < b then a else b
  }

  /** The part of the data that goes into the k-th block. */
  function Chunk(data: Bytes, k: nat): (c: Bytes)
    requires k * BLOCK_SIZE <= |data|
    ensures |c| <= BLOCK_SIZE
  {
    data[k * BLOCK_SIZE..Min(k * BLOCK_SIZE + BLOCK_SIZE, |data|)]
  }

  // ---- what a card holds ----

  /** A used block: its directory frame, and the bytes at its start. */
  datatype Slot = Slot(frame: Bytes, payload: Bytes)

  type Layout = map<nat, Slot>

  ghost predicate SlotOk(s: Slot) {
    |s.frame| == SECTOR_SIZE && |s.payload| <= BLOCK_SIZE && s.frame[0] in {0x51, 0x52, 0x53}
  }

  ghost predicate LayoutOk(l: Layout) {
    forall b {:trigger l[b]} :: b in l ==> 1 <= b <= BLOCKS && SlotOk(l[b])
  }

  /** One block of the card: as the layout says, or free. */
  ghost predicate BlockIs(card: Bytes, l: Layout, b: nat)
    requires |card| == CARD_SIZE && LayoutOk(l) && 1 <= b <= BLOCKS
  {
    if b in l then Sector(card, b) == l[b].frame
        && card[b * BLOCK_SIZE..b * BLOCK_SIZE + |l[b].payload|] == l[b].payload
    else Sector(card, b) == FreeFrame()
  }

  ghost predicate Holds(card: Bytes, l: Layout) {
    && |card| == CARD_SIZE && LayoutOk(l) && Sector(card, 0) == HeaderFrame()
    && forall b {:trigger BlockIs(card, l, b)} :: 1 <= b <= BLOCKS ==> BlockIs(card, l, b)
  }

  /** The first n blocks of a file, added to a layout. */
  ghost function WithBlocks(l: Layout, f: File, n: nat): Layout
    requires FileOk(f) && n <= |f.blocks|
  {
    if n == 0 then l
    else WithBlocks(l, f, n - 1)[f.blocks[n - 1] := Slot(DirFrame(f, n - 1), ChunkOf(f, n - 1))]
  }

  ghost function ChunkOf(f: File, k: nat): (c: Bytes)
    requires FileOk(f) && k < |f.blocks|
    ensures |c| <= BLOCK_SIZE
  {
    Chunk(f.data, k)
  }

  ghost predicate FilesOk(files: seq<File>) {
    && (forall i :: 0 <= i < |files| ==> FileOk(files[i]))
    && forall i, j {:trigger Apart(files[i], files[j])} :: 0 <= i < j < |files| ==> Apart(files[i], files[j])
  }

  /** The files share no block. */
  ghost predicate Apart(f: File, g: File) {
    forall b :: b in f.blocks ==> b !in g.blocks
  }

  ghost function LayoutOf(files: seq<File>): Layout
    requires FilesOk(files)
  {
    if files == [] then map[]
    else
      var last := files[|files| - 1];
      WithBlocks(LayoutOf(files[..|files| - 1]), last, |last.blocks|)
  }

  /** The card holds exactly these files: each block is free, or belongs to one place of one chain. */
  ghost predicate CardHolds(card: Bytes, files: seq<File>) {
    FilesOk(files) && Holds(card, LayoutOf(files))
  }

  // ---- formatting ----

  /** The image after formatting, byte for byte: header frame, free frames, zeros. */
  ghost predicate IsFormatted(card: Bytes) {
    && |card| == CARD_SIZE && Sector(card, 0) == HeaderFrame()
       && (forall b :: 1 <= b <= BLOCKS ==> Sector(card, b) == FreeFrame())
    && forall k :: (BLOCKS + 1) * SECTOR_SIZE <= k < CARD_SIZE ==> card[k] == 0
  }

  /** hle_memcard_format */
  method Format(card: array<Byte>)
    requires card.Length == CARD_SIZE
    modifies card
    ensures IsFormatted(card[..]) && CardHolds(card[..], [])
  {
    CopyIn(card, 0, Zeros(CARD_SIZE));
    CopyIn(card, 0, HeaderFrame());
    HeaderPut(Zeros(CARD_SIZE), card[..]);
    for i := 1 to BLOCKS + 1
      invariant Sector(card[..], 0) == HeaderFrame()
      invariant forall b :: 1 <= b < i ==> Sector(card[..], b) == FreeFrame()
      invariant forall k :: i * SECTOR_SIZE <= k < CARD_SIZE ==> card[..][k] == 0
    {
      ghost var before := card[..];
      CopyIn(card, i * SECTOR_SIZE, FreeFrame());
      forall b | 0 <= b < BLOCKS + 1 ensures Sector(card[..], b) == if b == i then FreeFrame() else Sector(before, b) {
        PutSector(before, i, FreeFrame(), b);
      }
      forall k | (i + 1) * SECTOR_SIZE <= k < CARD_SIZE ensures card[..][k] == 0 {
        PutAt(before, i * SECTOR_SIZE, FreeFrame(), k);
      }
    }
  }

  lemma HeaderPut(before: Bytes, card: Bytes)
    requires |before| == CARD_SIZE && card == Put(before, 0, HeaderFrame())
    ensures Sector(card, 0) == HeaderFrame() && forall k :: SECTOR_SIZE <= k < CARD_SIZE ==> card[k] == before[k]
  {
    PutSector(before, 0, HeaderFrame(), 0);
    forall k | SECTOR_SIZE <= k < CARD_SIZE ensures card[k] == before[k] {
      PutAt(before, 0, HeaderFrame(), k);
    }
  }

  // ---- one block ----

  lemma PutInside(card: Bytes, at: nat, frame: Bytes, off: nat, piece: Bytes)
    requires at + |frame| <= |card| && off + |piece| <= |frame|
    ensures Put(Put(card, at, frame), at + off, piece) == Put(card, at, Put(frame, off, piece))
  {
    var a, b := Put(Put(card, at, frame), at + off, piece), Put(card, at, Put(frame, off, piece));
    forall k | 0 <= k < |card| ensures a[k] == b[k] {
      PutAt(Put(card, at, frame), at + off, piece, k);
      PutAt(card, at, frame, k);
      PutAt(card, at, Put(frame, off, piece), k);
      if at <= k < at + |frame| {
        PutAt(frame, off, piece, k - at);
      }
    }
  }

  /** The bytes of a frame as the code lays them down, one field after another. */
  ghost function Laid(f: File, k: nat): (b: Bytes)
    requires FileOk(f) && k < |f.blocks|
    ensures |b| == SECTOR_SIZE
  {
    var next := NextNumber(f.blocks, k);
    var a := Put(Zeros(SECTOR_SIZE), 0, [StateByte(k, |f.blocks|)]);
    var b := Put(Put(a, 4, Le32(|f.data|)), 8, [next % 0x100, next / 0x100]);
    if k == 0 then Put(b, 10, NameField(f.name)) else b
  }

  /** A byte of the frame comes from the last field that covers it. */
  lemma LaidAt(f: File, k: nat, i: nat)
    requires FileOk(f) && k < |f.blocks| && i < 127
    ensures Laid(f, k)[i] == FrameBody(f, k)[i]
  {
    var next := NextNumber(f.blocks, k);
    var kind, size, link := [StateByte(k, |f.blocks|)], Le32(|f.data|), [next % 0x100, next / 0x100];
    var a := Put(Zeros(SECTOR_SIZE), 0, kind);
    var b := Put(a, 4, size);
    var c := Put(b, 8, link);
    PutAt(Zeros(SECTOR_SIZE), 0, kind, i);
    PutAt(a, 4, size, i);
    PutAt(b, 8, link, i);
    if k == 0 {
      PutAt(c, 10, NameField(f.name), i);
    }
    BodyAt(kind[0], size, link, if k == 0 then NameField(f.name) else Zeros(20), i);
  }

  /** The bytes of a frame's body by their place. */
  lemma BodyAt(kind: Byte, size: Bytes, link: Bytes, name: Bytes, i: nat)
    requires |size| == 4 && |link| == 2 && |name| == 20 && i < 127
    ensures ([kind, 0, 0, 0] + size + link + name + Zeros(97))[i]
         == if i == 0 then kind else if 4 <= i < 8 then size[i - 4] else if 8 <= i < 10 then link[i - 8]
            else if 10 <= i < 30 then name[i - 10] else 0
  {
  }

  lemma LaidIsBody(f: File, k: nat)
    requires FileOk(f) && k < |f.blocks|
    ensures Laid(f, k)[..127] == FrameBody(f, k) && Put(Laid(f, k), 127, [XorAll(0, FrameBody(f, k))]) == DirFrame(f, k)
  {
    var laid, body := Laid(f, k), FrameBody(f, k);
    forall i | 0 <= i < 127 ensures laid[i] == body[i] {
      LaidAt(f, k, i);
    }
    assert laid[..127] == body;
  }

  /** The fields of a frame, stored one after another over zeros. */
  method LayDown(card: array<Byte>, ghost f: File, name: Bytes, size: Word, blocks: seq<nat>, k: nat)
    requires card.Length == CARD_SIZE && FileOk(f) && f.name == name && |f.data| == size && f.blocks == blocks
      && k < |blocks|
    modifies card
    ensures card[..] == Put(old(card[..]), blocks[k] * SECTOR_SIZE, Laid(f, k))
  {
    hide Zeros, Le32, NameField, StateByte, NextNumber, Put;
    var at, next := blocks[k] * SECTOR_SIZE, NextNumber(blocks, k);
    var kind, link := [StateByte(k, |blocks|)], [next % 0x100, next / 0x100];
    ghost var was := card[..];
    ghost var a := Zeros(SECTOR_SIZE);
    CopyIn(card, at, Zeros(SECTOR_SIZE));
    PutInside(was, at, a, 0, kind);
    ghost var b := Put(a, 0, kind);
    CopyIn(card, at + 0, kind);
    PutInside(was, at, b, 4, Le32(size));
    ghost var c := Put(b, 4, Le32(size));
    CopyIn(card, at + 4, Le32(size));
    PutInside(was, at, c, 8, link);
    ghost var d := Put(c, 8, link);
    CopyIn(card, at + 8, link);
    if k == 0 {
      PutInside(was, at, d, 10, NameField(name));
      CopyIn(card, at + 10, NameField(name));
    }
  }

  lemma PutSlice(card: Bytes, at: nat, frame: Bytes, n: nat)
    requires at + |frame| <= |card| && n <= |frame|
    ensures Put(card, at, frame)[at..at + n] == frame[..n]
  {
  }

  method WriteDir(card: array<Byte>, ghost f: File, name: Bytes, size: Word, blocks: seq<nat>, k: nat)
    requires card.Length == CARD_SIZE && FileOk(f) && f.name == name && |f.data| == size && f.blocks == blocks
      && k < |blocks|
    modifies card
    ensures card[..] == Put(old(card[..]), blocks[k] * SECTOR_SIZE, DirFrame(f, k))
  {
    var at := blocks[k] * SECTOR_SIZE;
    ghost var was := card[..];
    LayDown(card, f, name, size, blocks, k);
    LaidIsBody(f, k);
    PutSlice(was, at, Laid(f, k), 127);
    assert card[at..at + 127] == card[..][at..at + 127];
    var chk := FrameChecksum(card, at);
    PutInside(was, at, Laid(f, k), 127, [chk]);
    CopyIn(card, at + 127, [chk]);
  }

  method FrameChecksum(card: array<Byte>, at: nat) returns (chk: Byte)
    requires at + SECTOR_SIZE <= card.Length
    ensures chk == XorAll(0, card[at..at + 127])
  {
    chk := 0;
    for c := 0 to 127
      invariant chk == XorAll(0, card[at..at + c])
    {
      assert card[at..at + c + 1] == card[at..at + c] + [card[at + c]];
      XorAppend(0, card[at..at + c], card[at + c]);
      chk := XorB(chk, card[at + c]);
    }
  }

  /** A block written to a card: its directory frame, then its data. */
  ghost function BlockPut(card: Bytes, b: nat, s: Slot): (r: Bytes)
    requires |card| == CARD_SIZE && 1 <= b <= BLOCKS && SlotOk(s)
    ensures |r| == CARD_SIZE
  {
    Put(Put(card, b * SECTOR_SIZE, s.frame), b * BLOCK_SIZE, s.payload)
  }

  lemma BlockSectors(card: Bytes, b: nat, s: Slot, c: nat)
    requires |card| == CARD_SIZE && 1 <= b <= BLOCKS && SlotOk(s) && c <= BLOCKS
    ensures Sector(BlockPut(card, b, s), c) == if c == b then s.frame else Sector(card, c)
  {
    var mid := Put(card, b * SECTOR_SIZE, s.frame);
    PutSector(card, b, s.frame, c);
    var r := BlockPut(card, b, s);
    forall k | 0 <= k < SECTOR_SIZE ensures Sector(r, c)[k] == Sector(mid, c)[k] {
      PutAt(mid, b * BLOCK_SIZE, s.payload, c * SECTOR_SIZE + k);
    }
  }

  lemma BlockData(card: Bytes, b: nat, s: Slot, c: nat, n: nat)
    requires |card| == CARD_SIZE && 1 <= b <= BLOCKS && SlotOk(s) && 1 <= c <= BLOCKS && c != b && n <= BLOCK_SIZE
    ensures BlockPut(card, b, s)[c * BLOCK_SIZE..c * BLOCK_SIZE + n] == card[c * BLOCK_SIZE..c * BLOCK_SIZE + n]
  {
    var mid, r := Put(card, b * SECTOR_SIZE, s.frame), BlockPut(card, b, s);
    var a, b' := r[c * BLOCK_SIZE..c * BLOCK_SIZE + n], card[c * BLOCK_SIZE..c * BLOCK_SIZE + n];
    forall k | 0 <= k < n ensures a[k] == b'[k] {
      PutAt(mid, b * BLOCK_SIZE, s.payload, c * BLOCK_SIZE + k);
      PutAt(card, b * SECTOR_SIZE, s.frame, c * BLOCK_SIZE + k);
    }
  }

  lemma BlockOwnData(card: Bytes, b: nat, s: Slot)
    requires |card| == CARD_SIZE && 1 <= b <= BLOCKS && SlotOk(s)
    ensures BlockPut(card, b, s)[b * BLOCK_SIZE..b * BLOCK_SIZE + |s.payload|] == s.payload
  {
  }

  /** Writing a block puts it into the layout and leaves every other block as it was. */
  lemma BlockAdded(card: Bytes, l: Layout, b: nat, s: Slot)
    requires Holds(card, l) && 1 <= b <= BLOCKS && SlotOk(s)
    ensures Holds(BlockPut(card, b, s), l[b := s])
  {
    hide Sector, HeaderFrame, FreeFrame, BlockPut;
    var r, m := BlockPut(card, b, s), l[b := s];
    BlockSectors(card, b, s, 0);
    forall c | 1 <= c <= BLOCKS ensures BlockIs(r, m, c) {
      BlockSectors(card, b, s, c);
      assert BlockIs(card, l, c);
      if c == b {
        BlockOwnData(card, b, s);
      } else if c in l {
        BlockData(card, b, s, c, |l[c].payload|);
      }
    }
  }

  lemma DirSlotOk(f: File, k: nat)
    requires FileOk(f) && k < |f.blocks|
    ensures SlotOk(Slot(DirFrame(f, k), ChunkOf(f, k)))
  {
    assert DirFrame(f, k)[0] == StateByte(k, |f.blocks|);
  }

  // ---- free blocks ----

  /** The frame's first four bytes, as a little-endian number. */
  function StateWord(f: Bytes): int
    requires |f| == SECTOR_SIZE
  {
    f[0] as int + 0x100 * (f[1] as int) + 0x1_0000 * (f[2] as int) + 0x100_0000 * (f[3] as int)
  }

  predicate IsFree(f: Bytes)
    requires |f| == SECTOR_SIZE
  {
    0xA0 <= StateWord(f) <= 0xA3
  }

  /** A block is free exactly when no file uses it. */
  lemma FreeExact(card: Bytes, l: Layout, b: nat)
    requires Holds(card, l) && 1 <= b <= BLOCKS
    ensures IsFree(Sector(card, b)) <==> b !in l
  {
    assert BlockIs(card, l, b);
    if b in l {
      assert l[b].frame[0] in {0x51, 0x52, 0x53};
    } else {
      var f := FreeFrame();
      assert f[0] == 0xA0 && f[1] == 0 && f[2] == 0 && f[3] == 0;
    }
  }

  /** The blocks up to n that no file uses, in ascending order. */
  function FreeList(used: set<nat>, n: nat): (free: seq<nat>)
    ensures |free| <= n
    ensures forall i :: 0 <= i < |free| ==> 1 <= free[i] <= n && free[i] !in used
    ensures forall i, j :: 0 <= i < j < |free| ==> free[i] < free[j]
  {
    if n == 0 then [] else FreeList(used, n - 1) + if n in used then [] else [n]
  }

  method FindFree(card: array<Byte>, ghost l: Layout) returns (free: seq<nat>)
    requires card.Length == CARD_SIZE && Holds(card[..], l)
    ensures free == FreeList(l.Keys, BLOCKS)
  {
    free := [];
    for b := 1 to BLOCKS + 1
      invariant free == FreeList(l.Keys, b - 1)
    {
      FreeExact(card[..], l, b);
      if IsFree(card[..][b * SECTOR_SIZE..(b + 1) * SECTOR_SIZE]) {
        free := free + [b];
      }
    }
  }

  // ---- writing a file ----

  ghost predicate HasBlock(f: File, b: nat) {
    b in f.blocks
  }

  /** Some file is in the block. */
  ghost predicate Used(files: seq<File>, b: nat) {
    exists i {:trigger HasBlock(files[i], b)} :: 0 <= i < |files| && HasBlock(files[i], b)
  }

  lemma UsedByOneMore(files: seq<File>, b: nat)
    requires files != []
    ensures Used(files, b) <==> Used(files[..|files| - 1], b) || HasBlock(files[|files| - 1], b)
  {
    var init := files[..|files| - 1];
    if Used(files, b) {
      var i :| 0 <= i < |files| && HasBlock(files[i], b);
      assert i < |init| ==> HasBlock(init[i], b);
    }
    if Used(init, b) {
      var i :| 0 <= i < |init| && HasBlock(init[i], b);
      assert HasBlock(files[i], b);
    }
  }

  lemma {:induction false} LayoutKey(files: seq<File>, b: nat)
    requires FilesOk(files)
    ensures b in LayoutOf(files) <==> Used(files, b)
    decreases |files|
  {
    if files != [] {
      var init, last := files[..|files| - 1], files[|files| - 1];
      LayoutKey(init, b);
      WithKey(LayoutOf(init), last, |last.blocks|, b);
      UsedByOneMore(files, b);
      assert last.blocks[..|last.blocks|] == last.blocks;
    }
  }

  lemma {:induction false} WithKey(l: Layout, f: File, n: nat, b: nat)
    requires FileOk(f) && n <= |f.blocks|
    ensures b in WithBlocks(l, f, n) <==> b in l || b in f.blocks[..n]
    decreases n
  {
    hide FileOk, DirFrame, ChunkOf;
    if n > 0 {
      WithKey(l, f, n - 1, b);
      assert f.blocks[..n] == f.blocks[..n - 1] + [f.blocks[n - 1]];
    }
  }

  lemma FilesAppend(files: seq<File>, f: File)
    requires FilesOk(files) && FileOk(f) && forall b :: b in f.blocks ==> b !in LayoutOf(files)
    ensures FilesOk(files + [f]) && LayoutOf(files + [f]) == WithBlocks(LayoutOf(files), f, |f.blocks|)
  {
    var more := files + [f];
    forall i, j | 0 <= i < j < |more| ensures Apart(more[i], more[j]) {
      if j < |files| {
        assert Apart(files[i], files[j]);
      } else {
        NewIsApart(files, f, i);
      }
    }
    assert more[..|more| - 1] == files;
  }

  lemma NewIsApart(files: seq<File>, f: File, i: nat)
    requires FilesOk(files) && i < |files| && forall b :: b in f.blocks ==> b !in LayoutOf(files)
    ensures Apart(files[i], f)
  {
    forall b | b in files[i].blocks ensures b !in f.blocks {
      assert HasBlock(files[i], b);
      LayoutKey(files, b);
    }
  }

  /** The file that a successful call puts on the card. */
  ghost function NewFile(files: seq<File>, name: Bytes, data: Bytes): File
    requires FilesOk(files)
  {
    var n := (|data| + BLOCK_SIZE - 1) / BLOCK_SIZE;
    var free := FreeList(LayoutOf(files).Keys, BLOCKS);
    File(name, data, if n <= |free| then free[..n] else free)
  }

  lemma NewFileOk(files: seq<File>, name: Bytes, data: Bytes, n: nat)
    requires FilesOk(files) && data != [] && n == (|data| + BLOCK_SIZE - 1) / BLOCK_SIZE
      && n <= |FreeList(LayoutOf(files).Keys, BLOCKS)|
    ensures FileOk(NewFile(files, name, data)) && |NewFile(files, name, data).blocks| == n
    ensures forall b :: b in NewFile(files, name, data).blocks ==> b !in LayoutOf(files)
  {
    BlocksFit(|data|, n);
  }

  lemma BlocksFit(size: nat, n: nat)
    requires n == (size + BLOCK_SIZE - 1) / BLOCK_SIZE
    ensures n <= BLOCKS <==> size <= BLOCKS * BLOCK_SIZE
    ensures forall k: nat :: k < n ==> k * BLOCK_SIZE < size
    ensures size > 0 ==> n > 0
  {
  }

  /** hle_memcard_write_file: the file goes into the first free blocks, or, with a null argument, no
      bytes, or too few free blocks, nothing changes. */
  method WriteFile(card: array<Byte>, ghost files: seq<File>, name: Option<Bytes>, data: Option<Bytes>, size: nat)
    returns (rc: int)
    requires card.Length == CARD_SIZE && CardHolds(card[..], files)
    requires data.Some? ==> size <= |data.value|
    modifies card
    ensures rc == 0 <==> name.Some? && data.Some? && size > 0
                         && (size + BLOCK_SIZE - 1) / BLOCK_SIZE <= |FreeList(LayoutOf(files).Keys, BLOCKS)|
    ensures rc == 0 || (rc == -1 && card[..] == old(card[..]))
    ensures rc == 0 ==> FilesOk(files) && CardHolds(card[..], files + [NewFile(files, name.value, data.value[..size])])
  {
    if name.None? || data.None? || size == 0 { return -1; }
    var needed := (size + BLOCK_SIZE - 1) / BLOCK_SIZE;
    BlocksFit(size, needed);
    if needed > BLOCKS { return -1; }
    ghost var l := LayoutOf(files);
    var free := FindFree(card, l);
    if |free| < needed { return -1; }
    var bytes, chain := data.value[..size], free[..needed];
    ghost var f := NewFile(files, name.value, bytes);
    NewFileOk(files, name.value, bytes, needed);
    WriteBlocks(card, l, f, name.value, bytes, chain);
    FilesAppend(files, f);
    return 0;
  }

  method WriteBlocks(card: array<Byte>, ghost l: Layout, ghost f: File, name: Bytes, data: Bytes, blocks: seq<nat>)
    requires card.Length == CARD_SIZE && FileOk(f) && f == File(name, data, blocks) && Holds(card[..], l)
    modifies card
    ensures Holds(card[..], WithBlocks(l, f, |blocks|))
  {
    for i := 0 to |blocks|
      invariant Holds(card[..], WithBlocks(l, f, i))
    {
      WriteBlock(card, WithBlocks(l, f, i), f, name, data, blocks, i);
    }
  }

  method WriteBlock(card: array<Byte>, ghost l: Layout, ghost f: File, name: Bytes, data: Bytes, blocks: seq<nat>,
      k: nat)
    requires card.Length == CARD_SIZE && FileOk(f) && f == File(name, data, blocks) && k < |blocks|
      && Holds(card[..], l)
    modifies card
    ensures Holds(card[..], l[blocks[k] := Slot(DirFrame(f, k), ChunkOf(f, k))])
  {
    ghost var was := card[..];
    DirSlotOk(f, k);
    BlockAdded(was, l, blocks[k], Slot(DirFrame(f, k), ChunkOf(f, k)));
    WriteDir(card, f, name, |data|, blocks, k);
    BlocksFit(|data|, |blocks|);
    CopyIn(card, blocks[k] * BLOCK_SIZE, Chunk(data, k));
  }

  // ---- reading back ----

  /** What a file's chain leads to from a block on, with so many bytes still to come: the block's bytes,
      then the chain from the frame's successor number, until it says 0xFFFF. */
  function ChainBytes(card: Bytes, b: nat, left: nat): Bytes
    requires |card| == CARD_SIZE && b <= BLOCKS
    decreases left
  {
    var frame := Sector(card, b);
    var next := frame[8] as int + 0x100 * (frame[9] as int);
    var here := card[b * BLOCK_SIZE..b * BLOCK_SIZE + Min(left, BLOCK_SIZE)];
    if next + 1 > BLOCKS || left <= BLOCK_SIZE then here else here + ChainBytes(card, next + 1, left - BLOCK_SIZE)
  }

  /** A file read through its first directory frame: the size it gives, and the chain. */
  function ReadFile(card: Bytes, first: nat): Bytes
    requires |card| == CARD_SIZE && first <= BLOCKS
  {
    var frame := Sector(card, first);
    ChainBytes(card, first, frame[4] as int + 0x100 * (frame[5] as int) + 0x1_0000 * (frame[6] as int)
        + 0x100_0000 * (frame[7] as int))
  }

  lemma FrameBytes(f: File, k: nat, size: Word, next: Half)
    requires FileOk(f) && k < |f.blocks| && size == |f.data| && next == NextNumber(f.blocks, k)
    ensures DirFrame(f, k)[4..8] == Le32(size) && DirFrame(f, k)[8..10] == [next % 0x100, next / 0x100]
  {
    hide Le32;
  }

  lemma FrameFields(f: File, k: nat)
    requires FileOk(f) && k < |f.blocks|
    ensures var frame := DirFrame(f, k);
            && frame[4] as int + 0x100 * (frame[5] as int) + 0x1_0000 * (frame[6] as int)
               + 0x100_0000 * (frame[7] as int) == |f.data|
            && frame[8] as int + 0x100 * (frame[9] as int) == NextNumber(f.blocks, k)
  {
    hide DirFrame, NextNumber;
    var frame, next, size := DirFrame(f, k), NextNumber(f.blocks, k), |f.data|;
    FrameBytes(f, k, size, next);
    assert frame[4] == frame[4..8][0] && frame[5] == frame[4..8][1] && frame[6] == frame[4..8][2];
    assert frame[7] == frame[4..8][3] && frame[8] == frame[8..10][0] && frame[9] == frame[8..10][1];
    FourBytes(size, size % 0x100, size / 0x100 % 0x100, size / 0x1_0000 % 0x100, size / 0x100_0000);
  }

  /** The card has the file's k-th frame and data in its k-th block. */
  ghost predicate BlockHas(card: Bytes, f: File, k: nat)
    requires |card| == CARD_SIZE && FileOk(f) && k < |f.blocks|
  {
    Sector(card, f.blocks[k]) == DirFrame(f, k)
    && card[f.blocks[k] * BLOCK_SIZE..f.blocks[k] * BLOCK_SIZE + |ChunkOf(f, k)|] == ChunkOf(f, k)
  }

  ghost predicate HasFile(card: Bytes, f: File)
    requires |card| == CARD_SIZE && FileOk(f)
  {
    forall k: nat {:trigger BlockHas(card, f, k)} :: k < |f.blocks| ==> BlockHas(card, f, k)
  }

  lemma ChainUnfold(card: Bytes, b: nat, left: nat, next: Half, chunk: Bytes)
    requires |card| == CARD_SIZE && b <= BLOCKS
      && Sector(card, b)[8] as int + 0x100 * (Sector(card, b)[9] as int) == next
    requires |chunk| == Min(left, BLOCK_SIZE) && card[b * BLOCK_SIZE..b * BLOCK_SIZE + |chunk|] == chunk
    ensures ChainBytes(card, b, left)
         == if next + 1 > BLOCKS || left <= BLOCK_SIZE then chunk
            else chunk + ChainBytes(card, next + 1, left - BLOCK_SIZE)
  {
  }

  lemma DataSplit(data: Bytes, k: nat, from: nat)
    requires from == k * BLOCK_SIZE < |data|
    ensures |Chunk(data, k)| == Min(|data| - from, BLOCK_SIZE)
    ensures data[from..] == if |data| - from <= BLOCK_SIZE then Chunk(data, k)
      else Chunk(data, k) + data[from + BLOCK_SIZE..]
  {
  }

  lemma ChainNumbers(f: File, k: nat, from: nat)
    requires FileOk(f) && k < |f.blocks| && from == k * BLOCK_SIZE
    ensures from < |f.data| && 1 <= f.blocks[k] <= BLOCKS
    ensures k + 1 == |f.blocks| <==> |f.data| - from <= BLOCK_SIZE
    ensures k + 1 < |f.blocks| ==> NextNumber(f.blocks, k) + 1 == f.blocks[k + 1] && f.blocks[k + 1] <= BLOCKS
  {
    BlocksFit(|f.data|, |f.blocks|);
    LastBlock(|f.data|, |f.blocks|, k);
  }

  /** Block b of the card names this successor and begins with these bytes. */
  ghost predicate Reads(card: Bytes, b: nat, next: Half, chunk: Bytes)
    requires |card| == CARD_SIZE
  {
    b <= BLOCKS && Sector(card, b)[8] as int + 0x100 * (Sector(card, b)[9] as int) == next
    && |chunk| <= BLOCK_SIZE && card[b * BLOCK_SIZE..b * BLOCK_SIZE + |chunk|] == chunk
  }

  lemma BlockReads(card: Bytes, f: File, k: nat)
    requires |card| == CARD_SIZE && FileOk(f) && k < |f.blocks| && BlockHas(card, f, k)
    ensures Reads(card, f.blocks[k], NextNumber(f.blocks, k), ChunkOf(f, k))
  {
    FrameFields(f, k);
  }

  /** One block of the chain: its data, and what follows if it is not the last. */
  lemma ChainStep(card: Bytes, b: nat, next: Half, chunk: Bytes, left: nat, last: bool, rest: Bytes)
    requires |card| == CARD_SIZE && Reads(card, b, next, chunk) && |chunk| == Min(left, BLOCK_SIZE)
      && (last <==> left <= BLOCK_SIZE)
    requires !last ==> next + 1 <= BLOCKS && ChainBytes(card, next + 1, left - BLOCK_SIZE) == rest
    ensures b <= BLOCKS && ChainBytes(card, b, left) == if last then chunk else chunk + rest
  {
    ChainUnfold(card, b, left, next, chunk);
  }

  lemma {:induction false} ChainIsData(card: Bytes, f: File, k: nat, from: nat)
    requires |card| == CARD_SIZE && FileOk(f) && HasFile(card, f) && k < |f.blocks| && from == k * BLOCK_SIZE
    ensures from < |f.data| && f.blocks[k] <= BLOCKS && ChainBytes(card, f.blocks[k], |f.data| - from) == f.data[from..]
    decreases |f.blocks| - k
  {
    hide BlockHas, Reads, ChainBytes, Sector, Chunk, NextNumber;
    ChainNumbers(f, k, from);
    assert BlockHas(card, f, k);
    BlockReads(card, f, k);
    DataSplit(f.data, k, from);
    var last, rest := k + 1 == |f.blocks|, [];
    if !last {
      ChainIsData(card, f, k + 1, from + BLOCK_SIZE);
      rest := f.data[from + BLOCK_SIZE..];
    }
    ChainStep(card, f.blocks[k], NextNumber(f.blocks, k), ChunkOf(f, k), |f.data| - from, last, rest);
  }

  lemma LastBlock(size: nat, n: nat, k: nat)
    requires n == (size + BLOCK_SIZE - 1) / BLOCK_SIZE && k < n
    ensures k + 1 == n <==> size - k * BLOCK_SIZE <= BLOCK_SIZE
  {
  }

  lemma {:induction false} LayoutHasFile(files: seq<File>, i: nat, k: nat)
    requires FilesOk(files) && i < |files| && k < |files[i].blocks|
    ensures var f := files[i];
            f.blocks[k] in LayoutOf(files) && LayoutOf(files)[f.blocks[k]] == Slot(DirFrame(f, k), ChunkOf(f, k))
    decreases |files|
  {
    var init, last := files[..|files| - 1], files[|files| - 1];
    if i < |init| {
      LayoutHasFile(init, i, k);
      assert Apart(files[i], last);
      WithOthers(LayoutOf(init), last, |last.blocks|, files[i].blocks[k]);
    } else {
      WithOwn(LayoutOf(init), last, |last.blocks|, k);
    }
  }

  lemma {:induction false} WithOthers(l: Layout, f: File, n: nat, b: nat)
    requires FileOk(f) && n <= |f.blocks| && b in l && b !in f.blocks
    ensures b in WithBlocks(l, f, n) && WithBlocks(l, f, n)[b] == l[b]
    decreases n
  {
    if n > 0 {
      WithOthers(l, f, n - 1, b);
    }
  }

  lemma {:induction false} WithOwn(l: Layout, f: File, n: nat, k: nat)
    requires FileOk(f) && k < n <= |f.blocks|
    ensures f.blocks[k] in WithBlocks(l, f, n)
      && WithBlocks(l, f, n)[f.blocks[k]] == Slot(DirFrame(f, k), ChunkOf(f, k))
    decreases n
  {
    if k < n - 1 {
      WithOwn(l, f, n - 1, k);
    }
  }

  lemma CardHasFile(card: Bytes, files: seq<File>, i: nat)
    requires CardHolds(card, files) && i < |files|
    ensures HasFile(card, files[i])
  {
    hide Sector, LayoutOf, DirFrame, ChunkOf;
    var f, l := files[i], LayoutOf(files);
    forall k: nat | k < |f.blocks| ensures BlockHas(card, f, k) {
      LayoutHasFile(files, i, k);
      assert BlockIs(card, l, f.blocks[k]);
    }
  }

  lemma ReadIsData(card: Bytes, f: File)
    requires |card| == CARD_SIZE && FileOk(f) && HasFile(card, f)
    ensures |f.blocks| > 0 && ReadFile(card, f.blocks[0]) == f.data
  {
    BlocksFit(|f.data|, |f.blocks|);
    assert BlockHas(card, f, 0);
    FrameFields(f, 0);
    ChainIsData(card, f, 0, 0);
    assert f.data[0..] == f.data;
  }

  /** Every file ever written since the card was formatted reads back as its exact bytes. */
  lemma FilesReadBack(card: Bytes, files: seq<File>, i: nat)
    requires CardHolds(card, files) && i < |files|
    ensures |files[i].blocks| > 0 && ReadFile(card, files[i].blocks[0]) == files[i].data
  {
    CardHasFile(card, files, i);
    ReadIsData(card, files[i]);
  }

  /** Each block is free, or is one place of the chain of one file, whose blocks ascend; every frame's
      last byte is the exclusive-or of the others. */
  lemma BlocksAccounted(card: Bytes, files: seq<File>, b: nat)
    requires CardHolds(card, files) && 1 <= b <= BLOCKS
    ensures IsFree(Sector(card, b)) <==> !Used(files, b)
    ensures forall i, j ::
              0 <= i < |files| && 0 <= j < |files| && HasBlock(files[i], b) && HasBlock(files[j], b) ==> i == j
    ensures Sector(card, b)[127] == XorAll(0, Sector(card, b)[..127])
  {
    var l := LayoutOf(files);
    FreeExact(card, l, b);
    LayoutKey(files, b);
    forall i, j | 0 <= i < j < |files| && HasBlock(files[i], b) ensures !HasBlock(files[j], b) {
      assert Apart(files[i], files[j]);
    }
    assert BlockIs(card, l, b);
    if b in l {
      var i :| 0 <= i < |files| && HasBlock(files[i], b);
      var k :| 0 <= k < |files[i].blocks| && files[i].blocks[k] == b;
      LayoutHasFile(files, i, k);
      SealedOk(FrameBody(files[i], k));
    } else {
      SealedOk([0xA0, 0, 0, 0, 0, 0, 0, 0, 0xFF, 0xFF] + Zeros(117));
    }
  }

  lemma SealedOk(body: Bytes)
    requires |body| == 127
    ensures Sealed(body)[127] == XorAll(0, Sealed(body)[..127])
  {
    assert Sealed(body)[..127] == body;
  }

  // ---- room ----

  /** How many of the blocks up to n are used. */
  function UsedUpTo(used: set<nat>, n: nat): set<nat> {
    set b | b in used && 1 <= b <= n
  }

  lemma {:induction false} FreeCount(used: set<nat>, n: nat)
    ensures |FreeList(used, n)| + |UsedUpTo(used, n)| == n
  {
    if n == 0 {
      assert UsedUpTo(used, 0) == {};
    } else {
      FreeCount(used, n - 1);
      assert UsedUpTo(used, n) == UsedUpTo(used, n - 1) + if n in used then {n} else {};
    }
  }

  /** The blocks of all files together. */
  ghost function Occupied(files: seq<File>): nat {
    if files == [] then 0 else Occupied(files[..|files| - 1]) + |files[|files| - 1].blocks|
  }

  lemma NotBefore(f: File, n: nat)
    requires FileOk(f) && 0 < n <= |f.blocks|
    ensures f.blocks[n - 1] in f.blocks && f.blocks[n - 1] !in f.blocks[..n - 1]
  {
  }

  lemma OneMoreKey(l: Layout, b: nat, s: Slot)
    requires b !in l
    ensures |l[b := s].Keys| == |l.Keys| + 1
  {
    assert l[b := s].Keys == l.Keys + {b};
  }

  lemma {:induction false} KeysWithBlocks(l: Layout, f: File, n: nat)
    requires FileOk(f) && n <= |f.blocks| && forall b :: b in f.blocks ==> b !in l
    ensures |WithBlocks(l, f, n).Keys| == |l.Keys| + n
    decreases n
  {
    hide FileOk, DirFrame, ChunkOf;
    if n > 0 {
      KeysWithBlocks(l, f, n - 1);
      WithKey(l, f, n - 1, f.blocks[n - 1]);
      NotBefore(f, n);
      OneMoreKey(WithBlocks(l, f, n - 1), f.blocks[n - 1], Slot(DirFrame(f, n - 1), ChunkOf(f, n - 1)));
    }
  }

  lemma {:induction false} OccupiedExact(files: seq<File>)
    requires FilesOk(files)
    ensures |LayoutOf(files).Keys| == Occupied(files)
    decreases |files|
  {
    if files != [] {
      var init, last := files[..|files| - 1], files[|files| - 1];
      OccupiedExact(init);
      forall b | b in last.blocks ensures b !in LayoutOf(init) {
        LayoutKey(init, b);
        forall i | 0 <= i < |init| ensures !HasBlock(init[i], b) { assert Apart(files[i], last); }
      }
      KeysWithBlocks(LayoutOf(init), last, |last.blocks|);
    }
  }

  lemma BlocksInRange(files: seq<File>, b: nat)
    requires FilesOk(files) && b in LayoutOf(files)
    ensures 1 <= b <= BLOCKS
  {
    LayoutKey(files, b);
    var i :| 0 <= i < |files| && HasBlock(files[i], b);
  }

  /** The free blocks are the fifteen less those of the files. */
  lemma RoomExact(files: seq<File>)
    requires FilesOk(files)
    ensures |FreeList(LayoutOf(files).Keys, BLOCKS)| == BLOCKS - Occupied(files)
  {
    var used := LayoutOf(files).Keys;
    forall b | b in used ensures 1 <= b <= BLOCKS { BlocksInRange(files, b); }
    assert UsedUpTo(used, BLOCKS) == used;
    FreeCount(used, BLOCKS);
    OccupiedExact(files);
  }

  // ---- sequences of calls ----

  datatype Op = FormatCard | Store(name: Option<Bytes>, data: Option<Bytes>, size: nat)

  /** The caller's buffer has the bytes it says. */
  predicate OpOk(op: Op) {
    op.Store? && op.data.Some? ==> op.size <= |op.data.value|
  }

  predicate OpsOk(ops: seq<Op>) {
    forall i :: 0 <= i < |ops| ==> OpOk(ops[i])
  }

  function BlocksFor(size: nat): nat {
    (size + BLOCK_SIZE - 1) / BLOCK_SIZE
  }

  /** The call stores its file: it names one, has bytes, and they fit beside the files already there. */
  ghost predicate Accepted(files: seq<File>, op: Op) {
    op.Store? && op.name.Some? && op.data.Some? && op.size > 0 && BlocksFor(op.size) + Occupied(files) <= BLOCKS
  }

  ghost function Stored(files: seq<File>, op: Op): File
    requires FilesOk(files) && OpOk(op) && op.Store? && op.name.Some? && op.data.Some?
  {
    NewFile(files, op.name.value, op.data.value[..op.size])
  }

  lemma StoredOk(files: seq<File>, op: Op)
    requires FilesOk(files) && OpOk(op) && Accepted(files, op)
    ensures FilesOk(files + [Stored(files, op)]) && FileOk(Stored(files, op))
  {
    RoomExact(files);
    NewFileOk(files, op.name.value, op.data.value[..op.size], BlocksFor(op.size));
    FilesAppend(files, Stored(files, op));
  }

  ghost function AfterOp(files: seq<File>, op: Op): (r: seq<File>)
    requires FilesOk(files) && OpOk(op)
    ensures FilesOk(r)
  {
    if op.FormatCard? then []
    else if Accepted(files, op) then StoredOk(files, op); files + [Stored(files, op)]
    else files
  }

  /** The files on a fresh card after the calls. */
  ghost function AfterOps(ops: seq<Op>): (r: seq<File>)
    requires OpsOk(ops)
    ensures FilesOk(r)
    decreases |ops|
  {
    if ops == [] then [] else AfterOp(AfterOps(ops[..|ops| - 1]), ops[|ops| - 1])
  }

  method Perform(card: array<Byte>, ghost files: seq<File>, op: Op) returns (rc: int)
    requires card.Length == CARD_SIZE && CardHolds(card[..], files) && OpOk(op)
    modifies card
    ensures CardHolds(card[..], AfterOp(files, op))
    ensures rc == if op.FormatCard? || Accepted(files, op) then 0 else -1
  {
    match op
    case FormatCard =>
      Format(card);
      rc := 0;
    case Store(name, data, size) =>
      RoomExact(files);
      rc := WriteFile(card, files, name, data, size);
  }

  /** Any sequence of calls, from a reset on: the card always holds exactly the files it should. */
  method PerformAll(card: array<Byte>, ops: seq<Op>)
    requires card.Length == CARD_SIZE && OpsOk(ops)
    modifies card
    ensures CardHolds(card[..], AfterOps(ops))
  {
    Format(card);
    for i := 0 to |ops|
      invariant CardHolds(card[..], AfterOps(ops[..i]))
    {
      assert ops[..i + 1][..i] == ops[..i];
      var rc := Perform(card, AfterOps(ops[..i]), ops[i]);
    }
    assert ops[..|ops|] == ops;
  }

  /** Calls that do not format leave the files that are there. */
  lemma {:induction false} FilesStay(ops: seq<Op>, i: nat)
    requires OpsOk(ops) && i <= |ops| && forall k :: i <= k < |ops| ==> ops[k].Store?
    ensures AfterOps(ops[..i]) <= AfterOps(ops)
    decreases |ops|
  {
    if i == |ops| {
      assert ops[..i] == ops;
    } else {
      var init := ops[..|ops| - 1];
      FilesStay(init, i);
      assert init[..i] == ops[..i];
    }
  }

  lemma StoredStays(ops: seq<Op>, i: nat, before: seq<File>)
    requires OpsOk(ops) && i < |ops| && before == AfterOps(ops[..i]) && Accepted(before, ops[i])
      && forall k :: i < k < |ops| ==> ops[k].Store?
    ensures |before| < |AfterOps(ops)| && AfterOps(ops)[|before|] == Stored(before, ops[i])
  {
    assert ops[..i + 1][..i] == ops[..i];
    FilesStay(ops, i + 1);
    assert AfterOps(ops[..i + 1]) == before + [Stored(before, ops[i])];
  }

  lemma FirstBlock(files: seq<File>, op: Op)
    requires FilesOk(files) && OpOk(op) && Accepted(files, op)
    ensures var free, f := FreeList(LayoutOf(files).Keys, BLOCKS), Stored(files, op);
            free != [] && f.blocks != [] && f.blocks[0] == free[0] && f.data == op.data.value[..op.size]
  {
    RoomExact(files);
    BlocksFit(op.size, BlocksFor(op.size));
    assert |op.data.value[..op.size]| == op.size;
  }

  /** Over every sequence of calls: a file that was stored, with no formatting after it, reads back as its
      exact bytes, from the block that was the first free one when it was stored. */
  lemma StoredReadsBack(card: Bytes, ops: seq<Op>, i: nat, before: seq<File>)
    requires OpsOk(ops) && CardHolds(card, AfterOps(ops)) && i < |ops| && before == AfterOps(ops[..i])
      && Accepted(before, ops[i])
    requires forall k :: i < k < |ops| ==> ops[k].Store?
    ensures var free := FreeList(LayoutOf(before).Keys, BLOCKS);
      free != [] && ReadFile(card, free[0]) == ops[i].data.value[..ops[i].size]
  {
    StoredStays(ops, i, before);
    FilesReadBack(card, AfterOps(ops), |before|);
    FirstBlock(before, ops[i]);
  }
}
