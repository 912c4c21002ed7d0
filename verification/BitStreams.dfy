/** Bit sequences, lowest bit first, and their packing into bytes and GIF data sub-blocks. */
module BitStreams {
  import opened Words
  import opened Seqs

  type Bits = seq<bool>

  function BitsOf(v: nat, n: nat): (r: Bits)
    ensures |r| == n
    decreases n, v
  {
    if n == 0 then [] else [v % 2 == 1] + BitsOf(v / 2, n - 1)
  }

  function ValueOf(b: Bits): (v: nat)
    ensures v < Pow2(|b|)
  {
    if b == [] then 0 else (if b[0] then 1 else 0) + 2 * ValueOf(b[1..])
  }

  lemma {:induction false} ValueBits(v: nat, n: nat)
    requires v < Pow2(n)
    ensures ValueOf(BitsOf(v, n)) == v
    decreases n
  {
    if n > 0 {
      assert BitsOf(v, n)[1..] == BitsOf(v / 2, n - 1);
      ValueBits(v / 2, n - 1);
    }
  }

  lemma {:induction false} BitsValue(b: Bits)
    ensures BitsOf(ValueOf(b), |b|) == b
  {
    if b != [] {
      BitsValue(b[1..]);
    }
  }

  /** A value put above the n bits of another. */
  lemma {:induction false} BitsJoin(a: nat, n: nat, b: nat, k: nat)
    requires a < Pow2(n)
    ensures BitsOf(a + b * Pow2(n), n + k) == BitsOf(a, n) + BitsOf(b, k)
    decreases n
  {
    if n == 0 {
      assert b * Pow2(0) == b;
      EmptySum(BitsOf(b, k));
    } else {
      var c := b * Pow2(n - 1);
      assert b * Pow2(n) == 2 * c;
      BitsJoin(a / 2, n - 1, b, k);
      Regroup([a % 2 == 1], BitsOf(a / 2, n - 1), BitsOf(b, k));
    }
  }

  function Zeros(n: nat): (r: Bits)
    ensures |r| == n
  {
    if n == 0 then [] else [false] + Zeros(n - 1)
  }

  lemma {:induction false} ZeroBits(n: nat)
    ensures BitsOf(0, n) == Zeros(n)
  {
    if n > 0 {
      ZeroBits(n - 1);
    }
  }

  // ---- bytes ----

  function Unpack(bytes: seq<Byte>): Bits {
    if bytes == [] then [] else BitsOf(bytes[0], 8) + Unpack(bytes[1..])
  }

  lemma {:induction false} UnpackAppend(bytes: seq<Byte>, b: Byte)
    ensures Unpack(bytes + [b]) == Unpack(bytes) + BitsOf(b, 8)
  {
    if bytes == [] {
      assert [b][1..] == [];
    } else {
      UnpackAppend(bytes[1..], b);
      TailOfSum(bytes, [b]);
      Regroup(BitsOf(bytes[0], 8), Unpack(bytes[1..]), BitsOf(b, 8));
    }
  }

  lemma {:induction false} UnpackLength(bytes: seq<Byte>)
    ensures |Unpack(bytes)| == 8 * |bytes|
  {
    if bytes != [] {
      UnpackLength(bytes[1..]);
    }
  }

  /** Zero bits that fill the last byte. */
  function Padding(n: nat): nat {
    (8 - n % 8) % 8
  }

  /** The bytes of a bit sequence, the last one filled with zeros. */
  ghost predicate PackedAs(bits: Bits, bytes: seq<Byte>) {
    Unpack(bytes) == bits + Zeros(Padding(|bits|))
  }

  /** There is only one such packing. */
  lemma {:induction false} UnpackInjective(a: seq<Byte>, b: seq<Byte>)
    requires Unpack(a) == Unpack(b)
    ensures a == b
  {
    UnpackLength(a);
    UnpackLength(b);
    if a != [] {
      assert Pow2(8) == 0x100;
      var x, y := Unpack(a[1..]), Unpack(b[1..]);
      assert (BitsOf(a[0], 8) + x)[..8] == BitsOf(a[0], 8) && (BitsOf(a[0], 8) + x)[8..] == x;
      assert (BitsOf(b[0], 8) + y)[..8] == BitsOf(b[0], 8) && (BitsOf(b[0], 8) + y)[8..] == y;
      ValueBits(a[0], 8);
      ValueBits(b[0], 8);
      UnpackInjective(a[1..], b[1..]);
    }
  }

  // ---- data sub-blocks ----

  /** Runs of at most 255 bytes behind their length, and a zero length at the end. */
  function Blocked(bytes: seq<Byte>): seq<Byte> {
    if bytes == [] then [0]
    else
      var n := if |bytes| < 255 then |bytes| else 255;
      [n] + bytes[..n] + Blocked(bytes[n..])
  }

  /** What a reader of sub-blocks collects up to the terminator or the end of its input. */
  function Unblock(blocks: seq<Byte>): seq<Byte> {
    if blocks == [] || blocks[0] == 0 || |blocks| < 1 + blocks[0] as int then []
    else blocks[1..1 + blocks[0] as int] + Unblock(blocks[1 + blocks[0] as int..])
  }

  lemma {:induction false} UnblockBlocked(bytes: seq<Byte>)
    ensures Unblock(Blocked(bytes)) == bytes
  {
    if bytes != [] {
      var n := if |bytes| < 255 then |bytes| else 255;
      var blocks := Blocked(bytes);
      UnblockBlocked(bytes[n..]);
      assert blocks[0] == n && blocks[1..1 + n] == bytes[..n] && blocks[1 + n..] == Blocked(bytes[n..]);
    }
  }
}
