/** The memory card image (source/hle/hle_memcard.c): sectors, checksums, and writing into place. */
module MemCard {
  import opened Words

  type Bytes = seq<Byte>

  const SECTOR_SIZE: nat := 128
  const TOTAL_SECTORS: nat := 1024
  const CARD_SIZE: nat := 131072

  function XorB(a: Byte, b: Byte): Byte {
    assert Pow2(8) == 0x100;
    BitOpsFit(a, b, 8);
    BitXor(a, b)
  }

  /** The running exclusive-or of some bytes. */
  function XorAll(acc: Byte, data: Bytes): Byte
    decreases |data|
  {
    if data == [] then acc else XorAll(XorB(acc, data[0]), data[1..])
  }

  lemma {:induction false} XorAppend(acc: Byte, data: Bytes, b: Byte)
    ensures XorAll(acc, data + [b]) == XorB(XorAll(acc, data), b)
    decreases |data|
  {
    if data == [] {
      assert [b][1..] == [];
    } else {
      assert (data + [b])[1..] == data[1..] + [b];
      XorAppend(XorB(acc, data[0]), data[1..], b);
    }
  }

  /** The sector number's two bytes and the data, exclusive-ored. */
  function Checksum(sector: Half, data: Bytes): Byte {
    XorAll(XorB(sector / 0x100, sector % 0x100), data)
  }

  function Sector(card: Bytes, n: nat): (s: Bytes)
    requires |card| == CARD_SIZE && n < TOTAL_SECTORS
    ensures |s| == SECTOR_SIZE
  {
    card[n * SECTOR_SIZE..(n + 1) * SECTOR_SIZE]
  }

  /** The image with some bytes written over it. */
  function Put(card: Bytes, at: nat, data: Bytes): (r: Bytes)
    requires at + |data| <= |card|
    ensures |r| == |card|
  {
    card[..at] + data + card[at + |data|..]
  }

  lemma PutAt(card: Bytes, at: nat, data: Bytes, k: nat)
    requires at + |data| <= |card| && k < |card|
    ensures Put(card, at, data)[k] == if at <= k < at + |data| then data[k - at] else card[k]
  {
  }

  /** Writing a sector changes that sector and no other. */
  lemma PutSector(card: Bytes, n: nat, data: Bytes, m: nat)
    requires |card| == CARD_SIZE && n < TOTAL_SECTORS && |data| == SECTOR_SIZE && m < TOTAL_SECTORS
    ensures Sector(Put(card, n * SECTOR_SIZE, data), m) == if m == n then data else Sector(card, m)
  {
    var r := Put(card, n * SECTOR_SIZE, data);
    forall k | 0 <= k < SECTOR_SIZE ensures Sector(r, m)[k] == (if m == n then data else Sector(card, m))[k] {
      PutAt(card, n * SECTOR_SIZE, data, m * SECTOR_SIZE + k);
    }
  }

  /** A store of one byte more extends what is written. */
  lemma PutNext(card: Bytes, at: nat, data: Bytes, k: nat)
    requires at + |data| <= |card| && k < |data|
    ensures Put(card, at, data[..k])[at + k := data[k]] == Put(card, at, data[..k + 1])
  {
  }

  method CalcSectorChecksum(sector: Half, data: Bytes) returns (chk: Byte)
    ensures chk == Checksum(sector, data)
  {
    chk := XorB(sector / 0x100, sector % 0x100);
    for i := 0 to |data|
      invariant chk == XorAll(XorB(sector / 0x100, sector % 0x100), data[..i])
    {
      assert data[..i + 1] == data[..i] + [data[i]];
      XorAppend(XorB(sector / 0x100, sector % 0x100), data[..i], data[i]);
      chk := XorB(chk, data[i]);
    }
    assert data[..|data|] == data;
  }

  /** memcpy into the image. */
  method CopyIn(card: array<Byte>, at: nat, data: Bytes)
    requires at + |data| <= card.Length
    modifies card
    ensures card[..] == Put(old(card[..]), at, data)
  {
    for k := 0 to |data|
      invariant card[..] == Put(old(card[..]), at, data[..k])
    {
      PutNext(old(card[..]), at, data, k);
      card[at + k] := data[k];
    }
    assert data[..|data|] == data;
  }
}
