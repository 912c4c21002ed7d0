/** The LZSS stream decoders (source/src/main.rs, source/lzss_ref.py, tools/fitmod.py): four loops
    over mutable state, each proved against one account of what a stream means. */
module Lzss {
  import opened Options
  import opened Words
  import opened Seqs

  type Bytes = seq<Byte>

  /** The largest expanded size the decoders accept. */
  const MAX_SIZE: nat := 0x80_0000

  /** The expanded size in the little-endian header. */
  function Header(src: Bytes): Word
    requires |src| >= 4
  {
    src[0] as int + 0x100 * (src[1] as int) + 0x1_0000 * (src[2] as int) + 0x100_0000 * (src[3] as int)
  }

  /** The offset of a match: twelve bits, the high four from the second byte. */
  function Offset(b1: Byte, b2: Byte): nat {
    BitOr(b1, BitAnd(b2, 0xF) * 0x100)
  }

  function Length(b2: Byte): nat {
    b2 / 0x10 + 3
  }

  lemma OffsetSum(b1: Byte, b2: Byte)
    ensures Offset(b1, b2) == b2 % 0x10 * 0x100 + b1
  {
    assert Pow2(4) == 0x10 && Pow2(8) == 0x100;
    LowBits(b2, 4);
    BitOrDisjoint(b1, BitAnd(b2, 0xF), 8);
  }

  // ---- what a stream means ----

  /** The byte off places back; the buffer before its start and after its end reads as zero. */
  function Back(out: Bytes, off: nat): Byte {
    if 0 < off <= |out| then out[|out| - off] else 0
  }

  /** A match, byte by byte: later bytes may copy earlier ones of the same match. */
  function Copy(out: Bytes, off: nat, n: nat): (r: Bytes)
    ensures |r| == |out| + n && out <= r
    decreases n
  {
    if n == 0 then out else Copy(out + [Back(out, off)], off, n - 1)
  }

  function Min(a: nat, b: nat): nat {
    if a < b then a else b
  }

  /** What a decoder returns: the expanded bytes, and how many input bytes it read. */
  datatype Decoded = Decoded(out: Bytes, used: nat)

  /** Decoding goes on from the input index i, with the control byte's remaining bits in ctrl and
      left of its eight tokens to come. A strict decoder refuses a match that reaches before the
      start of the output. */
  ghost function Decode(strict: bool, src: Bytes, size: nat, out: Bytes, i: nat, ctrl: Byte, left: nat): Option<Decoded>
    decreases |src| - i
  {
    if |out| >= size then Some(Decoded(out, i))
    else if left == 0 then
      if i >= |src| then None else Decode(strict, src, size, out, i + 1, src[i], 8)
    else if ctrl % 2 == 1 then
      if i + 1 >= |src| then None
      else
        var off, len := Offset(src[i], src[i + 1]), Length(src[i + 1]);
        if strict && off > |out| then None
        else Decode(strict, src, size, Copy(out, off, Min(len, size - |out|)), i + 2, ctrl / 2, left - 1)
    else if i >= |src| then None
    else Decode(strict, src, size, out + [src[i]], i + 1, ctrl / 2, left - 1)
  }

  /** The whole stream: a header with an acceptable size, then the groups. */
  ghost function Stream(strict: bool, src: Bytes): Option<Decoded> {
    if |src| < 4 || Header(src) == 0 || Header(src) > MAX_SIZE then None
    else Decode(strict, src, Header(src), [], 4, 0, 0)
  }

  ghost function OutOf(d: Option<Decoded>): Option<Bytes> {
    match d
    case Some(v) => Some(v.out)
    case None => None
  }

  // ---- the loops ----

  /** The buffer holds out in its first pos bytes, and zeros after. */
  ghost predicate Holds(dst: seq<Byte>, pos: nat, out: Bytes) {
    pos <= |dst| && dst[..pos] == out && forall k :: pos <= k < |dst| ==> dst[k] == 0
  }

  lemma HoldsNext(dst: seq<Byte>, pos: nat, out: Bytes, dst': seq<Byte>, b: Byte)
    requires Holds(dst, pos, out) && pos < |dst| && dst' == dst[pos := b]
    ensures Holds(dst', pos + 1, out + [b])
  {
  }

  lemma HoldsBack(dst: seq<Byte>, pos: nat, out: Bytes, off: nat)
    requires Holds(dst, pos, out) && pos < |dst| && off <= pos
    ensures Back(out, off) == dst[pos - off]
  {
    if off > 0 {
      assert out[|out| - off] == dst[..pos][pos - off];
    }
  }

  /** The copy loop of the strict forms: from sp on, one byte at a time, stopping at the size. */
  method CopyMatch(dst: array<Byte>, pos0: nat, sp: nat, len: nat, ghost out: Bytes) returns (pos: nat)
    requires Holds(dst[..], pos0, out) && sp <= pos0 < dst.Length
    modifies dst
    ensures pos == pos0 + Min(len, dst.Length - pos0)
    ensures Holds(dst[..], pos, Copy(out, pos0 - sp, Min(len, dst.Length - pos0)))
  {
    pos := pos0;
    ghost var now := out;
    ghost var n := Min(len, dst.Length - pos0);
    var k := 0;
    while k < len && pos < dst.Length
      invariant k <= n && pos == pos0 + k
      invariant Holds(dst[..], pos, now) && Copy(now, pos0 - sp, n - k) == Copy(out, pos0 - sp, n)
    {
      HoldsBack(dst[..], pos, now, pos0 - sp);
      HoldsNext(dst[..], pos, now, dst[..][pos := dst[sp + k]], dst[sp + k]);
      now := now + [dst[sp + k]];
      dst[pos] := dst[sp + k];
      pos, k := pos + 1, k + 1;
    }
  }

  /** The copy loop of the tolerant form: a negative index reads as zero. */
  method CopyTolerant(dst: array<Byte>, pos0: nat, sp: int, len: nat, ghost out: Bytes) returns (pos: nat)
    requires Holds(dst[..], pos0, out) && sp <= pos0 < dst.Length
    modifies dst
    ensures pos == pos0 + Min(len, dst.Length - pos0)
    ensures Holds(dst[..], pos, Copy(out, pos0 - sp, Min(len, dst.Length - pos0)))
  {
    pos := pos0;
    ghost var now := out;
    ghost var n := Min(len, dst.Length - pos0);
    var k := 0;
    while k < len && pos < dst.Length
      invariant k <= n && pos == pos0 + k
      invariant Holds(dst[..], pos, now) && Copy(now, pos0 - sp, n - k) == Copy(out, pos0 - sp, n)
    {
      var b: Byte := if sp + k < 0 then 0 else dst[sp + k];
      if sp + k >= 0 {
        HoldsBack(dst[..], pos, now, pos0 - sp);
      }
      HoldsNext(dst[..], pos, now, dst[..][pos := b], b);
      now := now + [b];
      dst[pos] := b;
      pos, k := pos + 1, k + 1;
    }
  }

  /** Between groups, what is left of the control byte no longer matters. */
  lemma GroupDone(strict: bool, src: Bytes, size: nat, out: Bytes, i: nat, ctrl: Byte, left: nat)
    requires left == 0 || |out| >= size
    ensures Decode(strict, src, size, out, i, ctrl, left) == Decode(strict, src, size, out, i, 0, 0)
  {
  }

  /** One control byte's tokens, as every strict form reads them. */
  method Group(src: Bytes, dst: array<Byte>, pos0: nat, i0: nat, ctrl0: Byte, ghost out0: Bytes)
    returns (ok: bool, pos: nat, i: nat, ghost out: Bytes)
    requires Holds(dst[..], pos0, out0)
    modifies dst
    ensures ok ==> pos <= dst.Length && i >= i0 && Holds(dst[..], pos, out)
    ensures ok ==> Decode(true, src, dst.Length, out, i, 0, 0) == Decode(true, src, dst.Length, out0, i0, ctrl0, 8)
    ensures !ok ==> Decode(true, src, dst.Length, out0, i0, ctrl0, 8) == None
  {
    hide Copy, Offset, Length;
    var ctrl, t := ctrl0, 0;
    ok, pos, i, out := false, pos0, i0, out0;
    while t < 8 && pos < dst.Length
      invariant t <= 8 && i0 <= i && !ok && Holds(dst[..], pos, out)
      invariant Decode(true, src, dst.Length, out, i, ctrl, 8 - t) == Decode(true, src, dst.Length, out0, i0, ctrl0, 8)
    {
      if ctrl % 2 == 1 {
        if i + 1 >= |src| { return; }
        var off, len := Offset(src[i], src[i + 1]), Length(src[i + 1]);
        i := i + 2;
        if off > pos { return; }
        ghost var n := Min(len, dst.Length - pos);
        pos := CopyMatch(dst, pos, pos - off, len, out);
        out := Copy(out, off, n);
      } else {
        if i >= |src| { return; }
        HoldsNext(dst[..], pos, out, dst[..][pos := src[i]], src[i]);
        dst[pos] := src[i];
        out := out + [src[i]];
        pos, i := pos + 1, i + 1;
      }
      ctrl, t := ctrl / 2, t + 1;
    }
    GroupDone(true, src, dst.Length, out, i, ctrl, 8 - t);
    ok := true;
  }

  /** The tolerant form's tokens: no match is refused. */
  method GroupTolerant(src: Bytes, dst: array<Byte>, pos0: nat, i0: nat, ctrl0: Byte, ghost out0: Bytes)
    returns (ok: bool, pos: nat, i: nat, ghost out: Bytes)
    requires Holds(dst[..], pos0, out0)
    modifies dst
    ensures ok ==> pos <= dst.Length && i >= i0 && Holds(dst[..], pos, out)
    ensures ok ==> Decode(false, src, dst.Length, out, i, 0, 0) == Decode(false, src, dst.Length, out0, i0, ctrl0, 8)
    ensures !ok ==> Decode(false, src, dst.Length, out0, i0, ctrl0, 8) == None
  {
    hide Copy, Offset, Length;
    var ctrl, t := ctrl0, 0;
    ok, pos, i, out := false, pos0, i0, out0;
    while t < 8 && pos < dst.Length
      invariant t <= 8 && i0 <= i && !ok && Holds(dst[..], pos, out)
      invariant Decode(false, src, dst.Length, out, i, ctrl, 8 - t)
        == Decode(false, src, dst.Length, out0, i0, ctrl0, 8)
    {
      if ctrl % 2 == 1 {
        if i + 1 >= |src| { return; }
        var off, len := Offset(src[i], src[i + 1]), Length(src[i + 1]);
        i := i + 2;
        ghost var n := Min(len, dst.Length - pos);
        pos := CopyTolerant(dst, pos, pos - off, len, out);
        out := Copy(out, off, n);
      } else {
        if i >= |src| { return; }
        HoldsNext(dst[..], pos, out, dst[..][pos := src[i]], src[i]);
        dst[pos] := src[i];
        out := out + [src[i]];
        pos, i := pos + 1, i + 1;
      }
      ctrl, t := ctrl / 2, t + 1;
    }
    GroupDone(false, src, dst.Length, out, i, ctrl, 8 - t);
    ok := true;
  }

  /** lzss_decode_used: strict, and reports how much input it read. */
  method DecodeUsed(src: Bytes) returns (r: Option<Decoded>)
    ensures r == Stream(true, src)
  {
    if |src| < 4 { return None; }
    var size: nat := Header(src);
    if size == 0 || size > MAX_SIZE { return None; }
    var dst := new Byte[size](_ => 0);
    var pos: nat, i: nat := 0, 4;
    ghost var out: Bytes := [];
    while pos < size
      invariant pos <= size && Holds(dst[..], pos, out)
      invariant Decode(true, src, size, out, i, 0, 0) == Stream(true, src)
      decreases |src| - i
    {
      if i >= |src| { return None; }
      var ok;
      ok, pos, i, out := Group(src, dst, pos, i + 1, src[i], out);
      if !ok { return None; }
    }
    assert dst[..] == dst[..pos];
    return Some(Decoded(dst[..], i));
  }

  /** lzss_decode, and line for line ref_decode, the Python reference form. */
  method DecodeStrict(src: Bytes) returns (r: Option<Bytes>)
    ensures r == OutOf(Stream(true, src))
  {
    if |src| < 4 { return None; }
    var size: nat := Header(src);
    if size == 0 || size > MAX_SIZE { return None; }
    var dst := new Byte[size](_ => 0);
    var pos: nat, i: nat := 0, 4;
    ghost var out: Bytes := [];
    while pos < size
      invariant pos <= size && Holds(dst[..], pos, out)
      invariant Decode(true, src, size, out, i, 0, 0) == Stream(true, src)
      decreases |src| - i
    {
      if i >= |src| { return None; }
      var ok;
      ok, pos, i, out := Group(src, dst, pos, i + 1, src[i], out);
      if !ok { return None; }
    }
    assert dst[..] == dst[..pos];
    return Some(dst[..]);
  }

  /** lzss_decode_tolerant: reads before the start of the output are zeros. */
  method DecodeTolerant(src: Bytes) returns (r: Option<Bytes>)
    ensures r == OutOf(Stream(false, src))
  {
    if |src| < 4 { return None; }
    var size: nat := Header(src);
    if size == 0 || size > MAX_SIZE { return None; }
    var dst := new Byte[size](_ => 0);
    var pos: nat, i: nat := 0, 4;
    ghost var out: Bytes := [];
    while pos < size
      invariant pos <= size && Holds(dst[..], pos, out)
      invariant Decode(false, src, size, out, i, 0, 0) == Stream(false, src)
      decreases |src| - i
    {
      if i >= |src| { return None; }
      var ok;
      ok, pos, i, out := GroupTolerant(src, dst, pos, i + 1, src[i], out);
      if !ok { return None; }
    }
    assert dst[..] == dst[..pos];
    return Some(dst[..]);
  }

  // ---- the form that appends (tools/fitmod.py) ----

  /** The append form has no buffer to bound a match: a last match may run past the size. Offset
      zero would read the byte about to be written, an IndexError that the code turns into None. */
  ghost function Append(src: Bytes, size: nat, out: Bytes, i: nat, ctrl: Byte, left: nat): Option<Bytes>
    decreases |src| - i
  {
    if |out| >= size then Some(out)
    else if left == 0 then
      if i >= |src| then None else Append(src, size, out, i + 1, src[i], 8)
    else if ctrl % 2 == 1 then
      if i + 1 >= |src| then None
      else
        var off, len := Offset(src[i], src[i + 1]), Length(src[i + 1]);
        if off == 0 || off > |out| then None
        else Append(src, size, Copy(out, off, len), i + 2, ctrl / 2, left - 1)
    else if i >= |src| then None
    else Append(src, size, out + [src[i]], i + 1, ctrl / 2, left - 1)
  }

  lemma AppendDone(src: Bytes, size: nat, out: Bytes, i: nat, ctrl: Byte, left: nat)
    requires left == 0 || |out| >= size
    ensures Append(src, size, out, i, ctrl, left) == Append(src, size, out, i, 0, 0)
  {
  }

  lemma HalfDiv(a: nat, p: nat)
    requires p >= 1
    ensures a / p / 2 == a / (2 * p)
  {
    var q, r := a / p, a % p;
    assert a == p * q + r;
    assert p * q == (2 * p) * (q / 2) + p * (q % 2);
    if q % 2 == 1 {
      DivModUnique(a, 2 * p, q / 2, p + r);
    } else {
      DivModUnique(a, 2 * p, q / 2, r);
    }
  }

  /** Testing bit n with a mask of that one bit. */
  lemma {:induction false} TestBit(a: nat, n: nat)
    ensures BitAnd(a, Pow2(n)) != 0 <==> a / Pow2(n) % 2 == 1
    decreases n
  {
    if n == 0 {
      assert Pow2(0) == 1;
      LowBits(a, 1);
      assert Pow2(1) == 2;
    } else {
      TestBit(a / 2, n - 1);
      ModDouble(a, Pow2(n - 1));
      if a == 0 {
        assert a / Pow2(n) == 0;
      }
    }
  }

  method AppendGroup(src: Bytes, size: nat, ctl: Byte, i0: nat, out0: Bytes) returns (ok: bool, out: Bytes, i: nat)
    ensures ok ==> i >= i0 && Append(src, size, out, i, 0, 0) == Append(src, size, out0, i0, ctl, 8)
    ensures !ok ==> Append(src, size, out0, i0, ctl, 8) == None
  {
    hide BitAnd, Copy, Offset, Length;
    ok, out, i := false, out0, i0;
    ghost var rest := ctl;
    var b := 0;
    while b < 8 && |out| < size
      invariant b <= 8 && i0 <= i && !ok && rest == ctl / Pow2(b)
      invariant Append(src, size, out, i, rest, 8 - b) == Append(src, size, out0, i0, ctl, 8)
    {
      TestBit(ctl, b);
      HalfDiv(ctl, Pow2(b));
      if BitAnd(ctl, Pow2(b)) != 0 {
        if i + 1 >= |src| { return; }
        var off, len := Offset(src[i], src[i + 1]), Length(src[i + 1]);
        i := i + 2;
        if off > |out| || off == 0 { return; }
        out := AppendMatch(out, off, len);
      } else {
        if i >= |src| { return; }
        out, i := out + [src[i]], i + 1;
      }
      rest, b := rest / 2, b + 1;
    }
    AppendDone(src, size, out, i, rest, 8 - b);
    ok := true;
  }

  method AppendMatch(out0: Bytes, off: nat, len: nat) returns (out: Bytes)
    requires 0 < off <= |out0|
    ensures out == Copy(out0, off, len)
  {
    out := out0;
    var s := |out| - off;
    for k := 0 to len
      invariant |out| == |out0| + k && Copy(out, off, len - k) == Copy(out0, off, len)
    {
      assert Back(out, off) == out[s + k];
      out := out + [out[s + k]];
    }
  }

  ghost function AppendStream(src: Bytes): Option<Bytes>
    requires |src| >= 4
  {
    var size := Header(src) % 0x40_0000;
    if size == 0 || size > 0x20_0000 then None else Append(src, size, [], 4, 0, 0)
  }

  /** unlzss; the header's top bits are masked off. Shorter inputs raise before this point. */
  method Unlzss(src: Bytes) returns (r: Option<Bytes>)
    requires |src| >= 4
    ensures r == AppendStream(src)
  {
    assert Pow2(16) == 0x1_0000 by { Pow2Is16(); }
    assert Pow2(22) == 0x40_0000;
    LowBits(Header(src), 22);
    var size := BitAnd(Header(src), 0x3F_FFFF);
    if size == 0 || size > 0x20_0000 { return None; }
    var out: Bytes, i: nat := [], 4;
    while |out| < size
      invariant Append(src, size, out, i, 0, 0) == Append(src, size, [], 4, 0, 0)
      decreases |src| - i
    {
      if i >= |src| { return None; }
      var ok;
      ok, out, i := AppendGroup(src, size, src[i], i + 1, out);
      if !ok { return None; }
    }
    return Some(out);
  }

  // ---- matches ----

  /** A match with a positive offset continues the output with period off. */
  lemma {:induction false} CopyPeriodic(out: Bytes, off: nat, n: nat, k: nat)
    requires 0 < off <= |out| && |out| <= k < |out| + n
    ensures Copy(out, off, n)[k] == Copy(out, off, n)[k - off]
    decreases n
  {
    var next := out + [Back(out, off)];
    var r := Copy(next, off, n - 1);
    if k == |out| {
      assert r[k] == next[k] && r[k - off] == next[k - off];
    } else {
      CopyPeriodic(next, off, n - 1, k);
    }
  }

  /** A match with offset zero, or from before the start, extends the output with zeros until it
      reaches bytes of the output. */
  lemma {:induction false} CopyZeros(out: Bytes, off: nat, n: nat, k: nat)
    requires (off == 0 || off > k) && |out| <= k < |out| + n
    ensures Copy(out, off, n)[k] == 0
    decreases n
  {
    var next := out + [Back(out, off)];
    if k == |out| {
      assert Copy(next, off, n - 1)[k] == next[k];
    } else {
      CopyZeros(next, off, n - 1, k);
    }
  }

  lemma {:induction false} CopySplit(out: Bytes, off: nat, m: nat, n: nat)
    ensures Copy(out, off, m + n) == Copy(Copy(out, off, m), off, n)
    decreases m
  {
    if m > 0 {
      CopySplit(out + [Back(out, off)], off, m - 1, n);
    }
  }

  // ---- the forms agree ----

  /** Some match of the stream reaches before the start of the output. */
  ghost predicate Early(src: Bytes, size: nat, out: Bytes, i: nat, ctrl: Byte, left: nat)
    decreases |src| - i
  {
    if |out| >= size then false
    else if left == 0 then i < |src| && Early(src, size, out, i + 1, src[i], 8)
    else if ctrl % 2 == 1 then
      i + 1 < |src| &&
      var off, len := Offset(src[i], src[i + 1]), Length(src[i + 1]);
      (off > |out| || Early(src, size, Copy(out, off, Min(len, size - |out|)), i + 2, ctrl / 2, left - 1))
    else i < |src| && Early(src, size, out + [src[i]], i + 1, ctrl / 2, left - 1)
  }

  /** The strict forms refuse exactly the streams with such a match; on all others they and the
      tolerant form agree. */
  lemma {:induction false} StrictExact(src: Bytes, size: nat, out: Bytes, i: nat, ctrl: Byte, left: nat)
    ensures Decode(true, src, size, out, i, ctrl, left)
         == if Early(src, size, out, i, ctrl, left) then None else Decode(false, src, size, out, i, ctrl, left)
    decreases |src| - i
  {
    if |out| < size && i < |src| {
      if left == 0 {
        StrictExact(src, size, out, i + 1, src[i], 8);
      } else if ctrl % 2 == 0 {
        StrictExact(src, size, out + [src[i]], i + 1, ctrl / 2, left - 1);
      } else if i + 1 < |src| {
        var off, len := Offset(src[i], src[i + 1]), Length(src[i + 1]);
        if off <= |out| {
          StrictExact(src, size, Copy(out, off, Min(len, size - |out|)), i + 2, ctrl / 2, left - 1);
        }
      }
    }
  }

  /** Some match of the stream has offset zero. */
  ghost predicate ZeroOffset(src: Bytes, size: nat, out: Bytes, i: nat, ctrl: Byte, left: nat)
    decreases |src| - i
  {
    if |out| >= size then false
    else if left == 0 then i < |src| && ZeroOffset(src, size, out, i + 1, src[i], 8)
    else if ctrl % 2 == 1 then
      i + 1 < |src| &&
      var off, len := Offset(src[i], src[i + 1]), Length(src[i + 1]);
      (off == 0 || ZeroOffset(src, size, Copy(out, off, Min(len, size - |out|)), i + 2, ctrl / 2, left - 1))
    else i < |src| && ZeroOffset(src, size, out + [src[i]], i + 1, ctrl / 2, left - 1)
  }

  /** The append form against the strict one, from the same place in the stream. */
  ghost predicate AppendsAlike(src: Bytes, size: nat, out: Bytes, i: nat, ctrl: Byte, left: nat)
    requires |out| <= size
  {
    var a, d := Append(src, size, out, i, ctrl, left), Decode(true, src, size, out, i, ctrl, left);
    && (a.Some? <==> d.Some? && !ZeroOffset(src, size, out, i, ctrl, left))
    && (a.Some? ==> |a.value| >= size && d.value.out == a.value[..size])
  }

  lemma AppendsCut(src: Bytes, size: nat, out: Bytes, i: nat, ctrl: Byte, left: nat, off: nat, len: nat, n: nat)
    requires |out| < size && i + 1 < |src| && left > 0 && ctrl % 2 == 1
    requires off == Offset(src[i], src[i + 1]) && len == Length(src[i + 1]) && n == size - |out| < len
      && 0 < off <= |out|
    ensures AppendsAlike(src, size, out, i, ctrl, left)
  {
    hide Offset, Length, Copy;
    var whole, cut := Copy(out, off, len), Copy(out, off, n);
    CopySplit(out, off, n, len - n);
    assert cut <= whole;
    CutMatch(src, size, whole, cut, i + 2, ctrl / 2, left - 1);
  }

  lemma AppendsFit(src: Bytes, size: nat, out: Bytes, i: nat, ctrl: Byte, left: nat, off: nat, len: nat)
    requires |out| < size && i + 1 < |src| && left > 0 && ctrl % 2 == 1
    requires off == Offset(src[i], src[i + 1]) && len == Length(src[i + 1]) && len <= size - |out| && 0 < off <= |out|
    requires AppendsAlike(src, size, Copy(out, off, len), i + 2, ctrl / 2, left - 1)
    ensures AppendsAlike(src, size, out, i, ctrl, left)
  {
  }

  lemma AppendsFails(src: Bytes, size: nat, out: Bytes, i: nat, ctrl: Byte, left: nat)
    requires |out| < size && i + 1 < |src| && left > 0 && ctrl % 2 == 1
    requires !(0 < Offset(src[i], src[i + 1]) <= |out|)
    ensures AppendsAlike(src, size, out, i, ctrl, left)
  {
  }

  lemma AppendsMatch(src: Bytes, size: nat, out: Bytes, i: nat, ctrl: Byte, left: nat)
    requires |out| < size && i + 1 < |src| && left > 0 && ctrl % 2 == 1
    requires var off, len := Offset(src[i], src[i + 1]), Length(src[i + 1]);
             0 < off <= |out| && len <= size - |out| ==>
               AppendsAlike(src, size, Copy(out, off, len), i + 2, ctrl / 2, left - 1)
    ensures AppendsAlike(src, size, out, i, ctrl, left)
  {
    var off, len := Offset(src[i], src[i + 1]), Length(src[i + 1]);
    if !(0 < off <= |out|) {
      AppendsFails(src, size, out, i, ctrl, left);
    } else if len > size - |out| {
      AppendsCut(src, size, out, i, ctrl, left, off, len, size - |out|);
    } else {
      AppendsFit(src, size, out, i, ctrl, left, off, len);
    }
  }

  /** The append form succeeds exactly where the strict forms do on streams without a zero offset,
      and then its first size bytes are theirs. */
  lemma {:induction false} AppendExact(src: Bytes, size: nat, out: Bytes, i: nat, ctrl: Byte, left: nat)
    requires |out| <= size
    ensures var a, d := Append(src, size, out, i, ctrl, left), Decode(true, src, size, out, i, ctrl, left);
            && (a.Some? <==> d.Some? && !ZeroOffset(src, size, out, i, ctrl, left))
            && (a.Some? ==> |a.value| >= size && d.value.out == a.value[..size])
    decreases |src| - i
  {
    if |out| < size && i < |src| {
      if left == 0 {
        AppendExact(src, size, out, i + 1, src[i], 8);
      } else if ctrl % 2 == 0 {
        AppendExact(src, size, out + [src[i]], i + 1, ctrl / 2, left - 1);
      } else if i + 1 < |src| {
        var off, len := Offset(src[i], src[i + 1]), Length(src[i + 1]);
        if 0 < off <= |out| && len <= size - |out| {
          AppendExact(src, size, Copy(out, off, len), i + 2, ctrl / 2, left - 1);
        }
        AppendsMatch(src, size, out, i, ctrl, left);
      }
    }
  }

  /** A last match that is cut: both forms stop, with the same first size bytes. */
  lemma CutMatch(src: Bytes, size: nat, whole: Bytes, cut: Bytes, i: nat, ctrl: Byte, left: nat)
    requires |cut| == size && cut <= whole
    ensures Append(src, size, whole, i, ctrl, left) == Some(whole) && whole[..size] == cut
    ensures Decode(true, src, size, cut, i, ctrl, left) == Some(Decoded(cut, i))
    ensures !ZeroOffset(src, size, cut, i, ctrl, left)
  {
  }

  /** On whole streams: strict and tolerant differ only by early matches, and up to the append
      form's size limit strict and append differ only by zero offsets and a tail past the size. */
  lemma FormsAgree(src: Bytes)
    requires |src| >= 4
    ensures Stream(true, src) == if Early(src, Header(src), [], 4, 0, 0) then None else Stream(false, src)
    ensures Header(src) <= 0x20_0000 ==>
              (AppendStream(src).Some? <==> Stream(true, src).Some? && !ZeroOffset(src, Header(src), [], 4, 0, 0))
    ensures Header(src) <= 0x20_0000 && AppendStream(src).Some? ==>
              |AppendStream(src).value| >= Header(src)
                  && Stream(true, src).value.out == AppendStream(src).value[..Header(src)]
  {
    StrictExact(src, Header(src), [], 4, 0, 0);
    AppendExact(src, Header(src), [], 4, 0, 0);
  }

  // ---- only the bytes read matter ----

  lemma {:induction false} UsedBounds(strict: bool, src: Bytes, size: nat, out: Bytes, i: nat, ctrl: Byte, left: nat)
    requires i <= |src| && |out| <= size && Decode(strict, src, size, out, i, ctrl, left).Some?
    ensures var d := Decode(strict, src, size, out, i, ctrl, left).value;
            i <= d.used <= |src| && |d.out| == size && out <= d.out
    decreases |src| - i
  {
    if |out| < size {
      if left == 0 {
        UsedBounds(strict, src, size, out, i + 1, src[i], 8);
      } else if ctrl % 2 == 0 {
        UsedBounds(strict, src, size, out + [src[i]], i + 1, ctrl / 2, left - 1);
      } else {
        var off, len := Offset(src[i], src[i + 1]), Length(src[i + 1]);
        UsedBounds(strict, src, size, Copy(out, off, Min(len, size - |out|)), i + 2, ctrl / 2, left - 1);
      }
    }
  }

  /** Inputs that agree on the bytes read decode alike, whatever follows. */
  lemma {:induction false} UsedSuffices(strict: bool, src: Bytes, src': Bytes, size: nat, out: Bytes, i: nat,
      ctrl: Byte, left: nat)
    requires i <= |src| && |out| <= size && Decode(strict, src, size, out, i, ctrl, left).Some?
    requires var used := Decode(strict, src, size, out, i, ctrl, left).value.used;
             used <= |src'| && forall k :: 0 <= k < used && k < |src| ==> src'[k] == src[k]
    ensures Decode(strict, src', size, out, i, ctrl, left) == Decode(strict, src, size, out, i, ctrl, left)
    decreases |src| - i
  {
    UsedBounds(strict, src, size, out, i, ctrl, left);
    if |out| < size {
      if left == 0 {
        UsedBounds(strict, src, size, out, i + 1, src[i], 8);
        UsedSuffices(strict, src, src', size, out, i + 1, src[i], 8);
      } else if ctrl % 2 == 0 {
        UsedBounds(strict, src, size, out + [src[i]], i + 1, ctrl / 2, left - 1);
        UsedSuffices(strict, src, src', size, out + [src[i]], i + 1, ctrl / 2, left - 1);
      } else {
        var off, len := Offset(src[i], src[i + 1]), Length(src[i + 1]);
        var next := Copy(out, off, Min(len, size - |out|));
        UsedBounds(strict, src, size, next, i + 2, ctrl / 2, left - 1);
        UsedSuffices(strict, src, src', size, next, i + 2, ctrl / 2, left - 1);
      }
    }
  }

  /** An input cut before the last byte read does not decode. */
  lemma {:induction false} UsedNeeded(strict: bool, src: Bytes, m: nat, size: nat, out: Bytes, i: nat, ctrl: Byte,
      left: nat)
    requires i <= m <= |src| && |out| <= size && Decode(strict, src, size, out, i, ctrl, left).Some?
    requires m < Decode(strict, src, size, out, i, ctrl, left).value.used
    ensures Decode(strict, src[..m], size, out, i, ctrl, left) == None
    decreases |src| - i
  {
    if |out| < size && i < m {
      if left == 0 {
        UsedNeeded(strict, src, m, size, out, i + 1, src[i], 8);
      } else if ctrl % 2 == 0 {
        UsedNeeded(strict, src, m, size, out + [src[i]], i + 1, ctrl / 2, left - 1);
      } else if i + 1 < m {
        var off, len := Offset(src[i], src[i + 1]), Length(src[i + 1]);
        UsedNeeded(strict, src, m, size, Copy(out, off, Min(len, size - |out|)), i + 2, ctrl / 2, left - 1);
      }
    }
  }

  /** The count of input bytes is exact: any input that begins with those bytes decodes to the same
      output with the same count, and no shorter beginning decodes. */
  lemma UsedIsExact(strict: bool, src: Bytes, src': Bytes)
    requires Stream(strict, src).Some?
    ensures var used := Stream(strict, src).value.used;
            && 4 <= used <= |src| && |Stream(strict, src).value.out| == Header(src)
            && (src[..used] <= src' ==> Stream(strict, src') == Stream(strict, src))
            && (src' < src[..used] ==> Stream(strict, src') == None)
  {
    var size := Header(src);
    var used := Stream(strict, src).value.used;
    UsedBounds(strict, src, size, [], 4, 0, 0);
    if src[..used] <= src' {
      assert forall k :: 0 <= k < used ==> src'[k] == src[..used][k];
      UsedSuffices(strict, src, src', size, [], 4, 0, 0);
    } else if src' < src[..used] && |src'| >= 4 {
      assert src' == src[..|src'|];
      UsedNeeded(strict, src, |src'|, size, [], 4, 0, 0);
    }
  }

  // ---- packing ----

  datatype Token = Literal(b: Byte) | Match(off: nat, len: nat)

  /** Twelve bits of offset and four of length; the match starts inside the output. */
  ghost predicate Fits(t: Token, at: nat) {
    t.Match? ==> t.off < 0x1000 && 3 <= t.len <= 18 && t.off <= at
  }

  /** The output after one token; a match is cut at the size. */
  ghost function Expand(out: Bytes, t: Token, size: nat): Bytes
    requires |out| <= size
  {
    match t
    case Literal(b) => out + [b]
    case Match(off, len) => Copy(out, off, Min(len, size - |out|))
  }

  /** The tokens fit, each begins before the size is reached, and the last one reaches it. */
  ghost predicate WellFormed(tokens: seq<Token>, out: Bytes, size: nat)
    requires |out| <= size
    decreases |tokens|
  {
    if tokens == [] then |out| == size
    else |out| < size && Fits(tokens[0], |out|) && WellFormed(tokens[1..], Expand(out, tokens[0], size), size)
  }

  /** What the tokens mean. */
  ghost function Meaning(tokens: seq<Token>, out: Bytes, size: nat): Bytes
    requires |out| <= size && WellFormed(tokens, out, size)
    decreases |tokens|
  {
    if tokens == [] then out else Meaning(tokens[1..], Expand(out, tokens[0], size), size)
  }

  function TokenBytes(t: Token): (r: Bytes)
    requires t.Match? ==> t.off < 0x1000 && 3 <= t.len <= 18
  {
    match t
    case Literal(b) => [b]
    case Match(off, len) => [off % 0x100, off / 0x100 + (len - 3) * 0x10]
  }

  ghost predicate Encodable(tokens: seq<Token>) {
    forall t <- tokens :: t.Match? ==> t.off < 0x1000 && 3 <= t.len <= 18
  }

  function Payload(tokens: seq<Token>): Bytes
    requires Encodable(tokens)
    decreases |tokens|
  {
    if tokens == [] then [] else TokenBytes(tokens[0]) + Payload(tokens[1..])
  }

  /** One bit a token, the first token lowest; a set bit says match. */
  function Control(tokens: seq<Token>): (c: nat)
    ensures c < Pow2(|tokens|)
    decreases |tokens|
  {
    if tokens == [] then 0 else (if tokens[0].Match? then 1 else 0) + 2 * Control(tokens[1..])
  }

  function ControlByte(tokens: seq<Token>): Byte
    requires |tokens| <= 8
  {
    PowMono(|tokens|, 8);
    assert Pow2(8) == 0x100;
    Control(tokens)
  }

  lemma {:induction false} PowMono(m: nat, n: nat)
    requires m <= n
    ensures Pow2(m) <= Pow2(n)
    decreases n
  {
    if m < n {
      PowMono(m, n - 1);
    }
  }

  /** Groups of eight tokens, each behind its control byte. */
  function Pack(tokens: seq<Token>): Bytes
    requires Encodable(tokens)
    decreases |tokens|
  {
    if tokens == [] then []
    else
      var n := Min(8, |tokens|);
      [ControlByte(tokens[..n])] + Payload(tokens[..n]) + Pack(tokens[n..])
  }

  function HeaderBytes(size: Word): Bytes {
    [size % 0x100, size / 0x100 % 0x100, size / 0x1_0000 % 0x100, size / 0x100_0000]
  }

  function PackStream(tokens: seq<Token>, size: Word): Bytes
    requires Encodable(tokens)
  {
    HeaderBytes(size) + Pack(tokens)
  }

  /** A match's two bytes read back as its offset and length. */
  lemma MatchReads(off: nat, len: nat)
    requires off < 0x1000 && 3 <= len <= 18
    ensures var b := TokenBytes(Match(off, len)); Offset(b[0], b[1]) == off && Length(b[1]) == len
  {
    var b0: Byte, b1: Byte := off % 0x100, off / 0x100 + (len - 3) * 0x10;
    OffsetSum(b0, b1);
    DivModUnique(b1, 0x10, len - 3, off / 0x100);
    DivModUnique(off, 0x100, off / 0x100, off % 0x100);
  }

  /** The input goes on at i with the bytes p. */
  ghost predicate At(src: Bytes, i: nat, p: Bytes) {
    i + |p| <= |src| && src[i..i + |p|] == p
  }

  lemma AtSplit(src: Bytes, i: nat, p: Bytes, q: Bytes)
    requires At(src, i, p + q)
    ensures At(src, i, p) && At(src, i + |p|, q)
  {
    assert src[i..i + |p + q|][..|p|] == p;
    assert src[i..i + |p + q|][|p|..] == q;
  }

  lemma AtIndex(src: Bytes, i: nat, p: Bytes, k: nat)
    requires At(src, i, p) && k < |p|
    ensures i + k < |src| && src[i + k] == p[k]
  {
    assert src[i..i + |p|][k] == src[i + k];
  }

  lemma ControlBits(group: seq<Token>)
    requires 0 < |group| <= 8
    ensures ControlByte(group) % 2 == 1 <==> group[0].Match?
    ensures ControlByte(group) / 2 == ControlByte(group[1..])
  {
  }

  lemma ReadToken(src: Bytes, size: nat, out: Bytes, i: nat, t: Token, ctrl: Byte, left: nat)
    requires |out| < size && left > 0 && Fits(t, |out|) && At(src, i, TokenBytes(t)) && (ctrl % 2 == 1 <==> t.Match?)
    ensures Decode(true, src, size, out, i, ctrl, left)
         == Decode(true, src, size, Expand(out, t, size), i + |TokenBytes(t)|, ctrl / 2, left - 1)
  {
    AtIndex(src, i, TokenBytes(t), 0);
    if t.Match? {
      AtIndex(src, i, TokenBytes(t), 1);
      MatchReads(t.off, t.len);
    }
  }

  lemma ReadTokenTo(src: Bytes, size: nat, out: Bytes, i: nat, t: Token, ctrl: Byte, left: nat, next: Bytes, i': nat,
      ctrl': Byte)
    requires |out| < size && left > 0 && Fits(t, |out|) && At(src, i, TokenBytes(t)) && (ctrl % 2 == 1 <==> t.Match?)
    requires next == Expand(out, t, size) && i' == i + |TokenBytes(t)| && ctrl' == ctrl / 2
    ensures Decode(true, src, size, out, i, ctrl, left) == Decode(true, src, size, next, i', ctrl', left - 1)
  {
    ReadToken(src, size, out, i, t, ctrl, left);
  }

  lemma GroupBytes(group: seq<Token>, rest: seq<Token>)
    requires group != [] && Encodable(group) && Encodable(rest)
    ensures Payload(group) + Pack(rest) == TokenBytes(group[0]) + (Payload(group[1..]) + Pack(rest))
    ensures (group + rest)[0] == group[0] && (group + rest)[1..] == group[1..] + rest
  {
    TailOfSum(group, rest);
    var a, c := TokenBytes(group[0]), Payload(group[1..]);
    Regroup(a, c, Pack(rest));
  }

  lemma WellFormedNext(tokens: seq<Token>, out: Bytes, size: nat)
    requires |out| <= size && tokens != [] && WellFormed(tokens, out, size)
    ensures |out| < size && Fits(tokens[0], |out|) && WellFormed(tokens[1..], Expand(out, tokens[0], size), size)
    ensures Meaning(tokens, out, size) == Meaning(tokens[1..], Expand(out, tokens[0], size), size)
  {
  }

  lemma FirstBytes(src: Bytes, i: nat, group: seq<Token>, rest: seq<Token>) returns (i': nat)
    requires group != [] && Encodable(group) && Encodable(rest) && At(src, i, Payload(group) + Pack(rest))
    ensures At(src, i, TokenBytes(group[0])) && i' == i + |TokenBytes(group[0])|
      && At(src, i', Payload(group[1..]) + Pack(rest))
    ensures i' + |Payload(group[1..]) + Pack(rest)| == i + |Payload(group) + Pack(rest)|
  {
    GroupBytes(group, rest);
    AtSplit(src, i, TokenBytes(group[0]), Payload(group[1..]) + Pack(rest));
    i' := i + |TokenBytes(group[0])|;
  }

  /** Reading the first token of a group. */
  lemma FirstOfGroup(src: Bytes, size: nat, out: Bytes, i: nat, group: seq<Token>, rest: seq<Token>, left: nat)
    returns (next: Bytes, i': nat)
    requires |out| <= size && group != [] && WellFormed(group + rest, out, size) && Encodable(group) && Encodable(rest)
    requires |group| <= left <= 8 && At(src, i, Payload(group) + Pack(rest))
    ensures Encodable(group[1..]) && |next| <= size && WellFormed(group[1..] + rest, next, size)
    ensures Meaning(group + rest, out, size) == Meaning(group[1..] + rest, next, size)
    ensures At(src, i', Payload(group[1..]) + Pack(rest))
      && i' + |Payload(group[1..]) + Pack(rest)| == i + |Payload(group) + Pack(rest)|
    ensures Decode(true, src, size, out, i, ControlByte(group), left)
      == Decode(true, src, size, next, i', ControlByte(group[1..]), left - 1)
  {
    TailOfSum(group, rest);
    WellFormedNext(group + rest, out, size);
    ControlBits(group);
    i' := FirstBytes(src, i, group, rest);
    next := Expand(out, group[0], size);
    ReadTokenTo(src, size, out, i, group[0], ControlByte(group), left, next, i', ControlByte(group[1..]));
  }

  lemma NothingPacked()
    ensures Payload([]) == [] && Pack([]) == []
  {
  }

  lemma RoomLeft(tokens: seq<Token>, out: Bytes, size: nat)
    requires |out| <= size && tokens != [] && WellFormed(tokens, out, size)
    ensures |out| < size
  {
  }

  lemma GroupEnds(src: Bytes, size: nat, out: Bytes, i: nat, rest: seq<Token>, left: nat, end: nat)
    requires |out| <= size && WellFormed(rest, out, size) && Encodable(rest)
    requires if rest == [] then end == i
             else left == 0 && Decode(true, src, size, out, i, 0, 0) == Some(Decoded(Meaning(rest, out, size), end))
    ensures Decode(true, src, size, out, i, ControlByte([]), left) == Some(Decoded(Meaning(rest, out, size), end))
  {
  }

  /** The tokens of one group, then the rest: decoding follows them. */
  lemma {:induction false} GroupReads(src: Bytes, size: nat, out: Bytes, i: nat, group: seq<Token>, rest: seq<Token>,
      left: nat, end: nat)
    requires |out| <= size && WellFormed(group + rest, out, size) && Encodable(group) && Encodable(rest)
    requires |group| <= left <= 8 && (rest != [] ==> |group| == left)
    requires At(src, i, Payload(group) + Pack(rest)) && end == i + |Payload(group) + Pack(rest)|
    ensures Decode(true, src, size, out, i, ControlByte(group), left)
      == Some(Decoded(Meaning(group + rest, out, size), end))
    decreases |group| + |rest|, if group == [] then 3 else 1
  {
    hide *;
    if group == [] {
      EmptySum(rest);
      EmptySum(Pack(rest));
      NothingPacked();
      if rest != [] {
        RoomLeft(rest, out, size);
        NextGroupReads(src, size, out, i, rest, end);
      }
      GroupEnds(src, size, out, i, rest, left, end);
    } else {
      var next, i' := FirstOfGroup(src, size, out, i, group, rest, left);
      GroupReads(src, size, next, i', group[1..], rest, left - 1, end);
    }
  }

  lemma PackBytes(tokens: seq<Token>, n: nat)
    requires tokens != [] && Encodable(tokens) && n == Min(8, |tokens|)
    ensures tokens[..n] + tokens[n..] == tokens
    ensures Pack(tokens) == [ControlByte(tokens[..n])] + (Payload(tokens[..n]) + Pack(tokens[n..]))
  {
  }

  lemma {:induction false} NextGroupReads(src: Bytes, size: nat, out: Bytes, i: nat, tokens: seq<Token>, end: nat)
    requires |out| < size && tokens != [] && WellFormed(tokens, out, size) && Encodable(tokens)
    requires At(src, i, Pack(tokens)) && end == i + |Pack(tokens)|
    ensures Decode(true, src, size, out, i, 0, 0) == Some(Decoded(Meaning(tokens, out, size), end))
    decreases |tokens|, 2
  {
    var n := Min(8, |tokens|);
    var group, rest := tokens[..n], tokens[n..];
    PackBytes(tokens, n);
    AtSplit(src, i, [ControlByte(group)], Payload(group) + Pack(rest));
    AtIndex(src, i, [ControlByte(group)], 0);
    GroupReads(src, size, out, i + 1, group, rest, 8, end);
  }

  lemma HeaderReads(size: Word, rest: Bytes)
    ensures Header(HeaderBytes(size) + rest) == size
  {
    FourBytes(size, size % 0x100, size / 0x100 % 0x100, size / 0x1_0000 % 0x100, size / 0x100_0000);
  }

  lemma PackedAt(head: Bytes, body: Bytes, trail: Bytes)
    ensures At(head + body + trail, |head|, body)
  {
  }

  /** Packing and decoding: every well-formed token list decodes to its meaning, and the decoder
      reads the packed stream to its end and nothing that may follow it. */
  lemma PackDecodes(tokens: seq<Token>, size: Word, trail: Bytes)
    requires 0 < size <= MAX_SIZE && Encodable(tokens) && WellFormed(tokens, [], size)
    ensures Stream(true, PackStream(tokens, size) + trail)
      == Some(Decoded(Meaning(tokens, [], size), |PackStream(tokens, size)|))
  {
    var head := HeaderBytes(size);
    var body := Pack(tokens);
    var src := head + body + trail;
    Regroup(head, body, trail);
    HeaderReads(size, body + trail);
    PackedAt(head, body, trail);
    NextGroupReads(src, size, [], 4, tokens, 4 + |body|);
  }

  // ---- what was read ----

  /** The bytes s spell the tokens, left of them under the control bits ctrl, the others behind control
      bytes of their own. */
  ghost predicate Spells(s: Bytes, tokens: seq<Token>, ctrl: Byte, left: nat)
    requires Encodable(tokens)
    decreases |tokens|, if left == 0 then 1 else 0
  {
    if tokens == [] then s == []
    else if left == 0 then s != [] && Spells(s[1..], tokens, s[0], 8)
    else
      && (ctrl % 2 == 1 <==> tokens[0].Match?) && TokenBytes(tokens[0]) <= s
      && Spells(s[|TokenBytes(tokens[0])|..], tokens[1..], ctrl / 2, left - 1)
  }

  lemma MatchBounds(b1: Byte, b2: Byte)
    ensures Offset(b1, b2) < 0x1000 && 3 <= Length(b2) <= 18
  {
    OffsetSum(b1, b2);
  }

  lemma MatchSpelled(b1: Byte, b2: Byte)
    ensures Offset(b1, b2) < 0x1000 && 3 <= Length(b2) <= 18
      && TokenBytes(Match(Offset(b1, b2), Length(b2))) == [b1, b2]
  {
    MatchBounds(b1, b2);
    OffsetSum(b1, b2);
    DivModUnique(Offset(b1, b2), 0x100, b2 % 0x10, b1);
  }

  /** From i on, the tokens are what was read and what it means. */
  ghost predicate Read(src: Bytes, size: nat, out: Bytes, i: nat, ctrl: Byte, left: nat, d: Decoded,
      tokens: seq<Token>) {
    && |out| <= size && Encodable(tokens) && WellFormed(tokens, out, size) && Meaning(tokens, out, size) == d.out
    && i <= d.used <= |src| && Spells(src[i..d.used], tokens, ctrl, left)
  }

  lemma SpelledFirst(src: Bytes, i: nat, n: nat, used: nat, t: Token, more: seq<Token>, ctrl: Byte, left: nat)
    requires i + n <= used <= |src| && left > 0 && Encodable([t]) && Encodable(more)
      && Spells(src[i + n..used], more, ctrl / 2, left - 1)
    requires (ctrl % 2 == 1 <==> t.Match?) && TokenBytes(t) == src[i..i + n]
    ensures Encodable([t] + more) && Spells(src[i..used], [t] + more, ctrl, left)
  {
    assert ([t] + more)[1..] == more;
    assert src[i..used][n..] == src[i + n..used] && src[i..used][..n] == src[i..i + n];
  }

  lemma ReadFirst(src: Bytes, size: nat, out: Bytes, i: nat, ctrl: Byte, left: nat, d: Decoded, t: Token, n: nat,
      more: seq<Token>)
    requires |out| < size && left > 0 && i + n <= |src| && Encodable([t]) && Fits(t, |out|)
    requires (ctrl % 2 == 1 <==> t.Match?) && TokenBytes(t) == src[i..i + n]
    requires Read(src, size, Expand(out, t, size), i + n, ctrl / 2, left - 1, d, more)
    ensures Read(src, size, out, i, ctrl, left, d, [t] + more)
  {
    SpelledFirst(src, i, n, d.used, t, more, ctrl, left);
    assert ([t] + more)[1..] == more;
  }

  lemma ReadControl(src: Bytes, size: nat, out: Bytes, i: nat, ctrl: Byte, d: Decoded, tokens: seq<Token>)
    requires |out| < size && i < |src| && Read(src, size, out, i + 1, src[i], 8, d, tokens)
    ensures Read(src, size, out, i, ctrl, 0, d, tokens)
  {
    assert src[i..d.used][1..] == src[i + 1..d.used] && src[i..d.used][0] == src[i];
  }

  lemma ReadNothing(src: Bytes, size: nat, out: Bytes, i: nat, ctrl: Byte, left: nat, d: Decoded)
    requires |out| == size && i <= |src| && Decode(true, src, size, out, i, ctrl, left) == Some(d)
    ensures Read(src, size, out, i, ctrl, left, d, [])
  {
  }

  lemma ControlNext(src: Bytes, size: nat, out: Bytes, i: nat, ctrl: Byte, d: Decoded)
    requires |out| < size && i <= |src| && Decode(true, src, size, out, i, ctrl, 0) == Some(d)
    ensures i < |src| && Decode(true, src, size, out, i + 1, src[i], 8) == Some(d)
  {
  }

  /** The token that is read next. */
  lemma FirstToken(src: Bytes, size: nat, out: Bytes, i: nat, ctrl: Byte, left: nat, d: Decoded)
    returns (t: Token, n: nat)
    requires |out| < size && left > 0 && Decode(true, src, size, out, i, ctrl, left) == Some(d)
    ensures 0 < n && i + n <= |src| && Encodable([t]) && Fits(t, |out|) && (ctrl % 2 == 1 <==> t.Match?)
      && TokenBytes(t) == src[i..i + n]
    ensures |Expand(out, t, size)| <= size
    ensures Decode(true, src, size, Expand(out, t, size), i + n, ctrl / 2, left - 1) == Some(d)
  {
    if ctrl % 2 == 1 {
      t, n := Match(Offset(src[i], src[i + 1]), Length(src[i + 1])), 2;
      MatchSpelled(src[i], src[i + 1]);
    } else {
      t, n := Literal(src[i]), 1;
    }
  }

  /** Conversely, whatever a strict decoder accepts is the meaning of well-formed tokens, which the bytes
      it read spell. */
  lemma {:induction false} DecodeHasTokens(src: Bytes, size: nat, out: Bytes, i: nat, ctrl: Byte, left: nat, d: Decoded)
    returns (tokens: seq<Token>)
    requires |out| <= size && i <= |src| && Decode(true, src, size, out, i, ctrl, left) == Some(d)
    ensures Read(src, size, out, i, ctrl, left, d, tokens)
    decreases |src| - i
  {
    hide *;
    if |out| == size {
      ReadNothing(src, size, out, i, ctrl, left, d);
      tokens := [];
    } else if left == 0 {
      ControlNext(src, size, out, i, ctrl, d);
      tokens := DecodeHasTokens(src, size, out, i + 1, src[i], 8, d);
      ReadControl(src, size, out, i, ctrl, d, tokens);
    } else {
      var t, n := FirstToken(src, size, out, i, ctrl, left, d);
      var more := DecodeHasTokens(src, size, Expand(out, t, size), i + n, ctrl / 2, left - 1, d);
      ReadFirst(src, size, out, i, ctrl, left, d, t, n, more);
      tokens := [t] + more;
    }
  }

  /** The bytes are the packing of the tokens, up to the bits of the last control byte that no token
      uses. */
  ghost predicate PackedAs(s: Bytes, tokens: seq<Token>)
    requires Encodable(tokens)
    decreases |tokens|
  {
    if tokens == [] then s == []
    else
      var n := Min(8, |tokens|);
      s != [] && s[0] % Pow2(n) == ControlByte(tokens[..n]) && Payload(tokens[..n]) <= s[1..]
          && PackedAs(s[1..][|Payload(tokens[..n])|..], tokens[n..])
  }

  lemma ControlFirst(tokens: seq<Token>, ctrl: Byte, n: nat)
    requires 0 < n <= |tokens| && n <= 8 && (ctrl % 2 == 1 <==> tokens[0].Match?)
    requires ctrl / 2 % Pow2(n - 1) == Control(tokens[1..][..n - 1])
    ensures ctrl % Pow2(n) == Control(tokens[..n])
  {
    assert tokens[..n][1..] == tokens[1..][..n - 1];
    ModDouble(ctrl, Pow2(n - 1));
  }

  lemma PayloadFirst(s: Bytes, tokens: seq<Token>, n: nat, bytes: Bytes, rest: Bytes)
    requires 0 < n <= |tokens| && Encodable(tokens) && bytes == TokenBytes(tokens[0])
      && rest == Payload(tokens[1..][..n - 1])
    requires bytes <= s && rest <= s[|bytes|..]
    ensures Payload(tokens[..n]) == bytes + rest && bytes + rest <= s
    ensures s[|bytes + rest|..] == s[|bytes|..][|rest|..] && tokens[1..][n - 1..] == tokens[n..]
  {
    assert tokens[..n][1..] == tokens[1..][..n - 1];
    assert s == bytes + s[|bytes|..];
  }

  /** The group that the control bits cover, and what is behind it. */
  lemma {:induction false} GroupSpelled(s: Bytes, tokens: seq<Token>, ctrl: Byte, left: nat, n: nat)
    requires left <= 8 && Encodable(tokens) && Spells(s, tokens, ctrl, left) && n == Min(left, |tokens|)
    ensures ctrl % Pow2(n) == Control(tokens[..n]) && Payload(tokens[..n]) <= s
    ensures Spells(s[|Payload(tokens[..n])|..], tokens[n..], 0, 0)
    decreases n
  {
    if n == 0 {
      assert s[0..] == s && tokens[0..] == tokens;
    } else {
      var bytes := TokenBytes(tokens[0]);
      GroupSpelled(s[|bytes|..], tokens[1..], ctrl / 2, left - 1, n - 1);
      ControlFirst(tokens, ctrl, n);
      PayloadFirst(s, tokens, n, bytes, Payload(tokens[1..][..n - 1]));
    }
  }

  lemma {:induction false} SpelledIsPacked(s: Bytes, tokens: seq<Token>)
    requires Encodable(tokens) && Spells(s, tokens, 0, 0)
    ensures PackedAs(s, tokens)
    decreases |tokens|
  {
    if tokens != [] {
      var n := Min(8, |tokens|);
      GroupSpelled(s[1..], tokens, s[0], 8, n);
      SpelledIsPacked(s[1..][|Payload(tokens[..n])|..], tokens[n..]);
    }
  }

  lemma ChangedLater(s: Bytes, c: Byte, bytes: Bytes, tail: Bytes, packed: Bytes, k: nat, v: Byte)
    requires s == [c] + (bytes + tail) && k < |tail| && packed == tail[k := v]
    ensures [c] + (bytes + packed) == s[1 + |bytes| + k := v]
  {
  }

  lemma PackedHead(s: Bytes, tokens: seq<Token>, n: nat) returns (c: Byte, bytes: Bytes, tail: Bytes)
    requires tokens != [] && Encodable(tokens) && PackedAs(s, tokens) && n == Min(8, |tokens|)
    ensures s == [c] + (bytes + tail) && PackedAs(tail, tokens[n..])
      && Pack(tokens) == [ControlByte(tokens[..n])] + (bytes + Pack(tokens[n..]))
    ensures n == 8 ==> c == ControlByte(tokens[..n])
  {
    hide *;
    PackedUnfold(s, tokens, n);
    PackBytes(tokens, n);
    Pow2Is8();
    c, bytes := s[0], Payload(tokens[..n]);
    tail := s[1..][|bytes|..];
    assert s[1..] == bytes + tail;
  }

  lemma PackedUnfold(s: Bytes, tokens: seq<Token>, n: nat)
    requires tokens != [] && Encodable(tokens) && PackedAs(s, tokens) && n == Min(8, |tokens|)
    ensures n <= 8 && n <= |tokens| && s != [] && s[0] % Pow2(n) == ControlByte(tokens[..n])
    ensures Encodable(tokens[..n]) && Encodable(tokens[n..])
    ensures Payload(tokens[..n]) <= s[1..] && PackedAs(s[1..][|Payload(tokens[..n])|..], tokens[n..])
  {
    hide Pack, Payload, ControlByte, Control, Pow2;
  }

  lemma Pow2Is8()
    ensures Pow2(8) == 0x100
  {
    assert Pow2(4) == 0x10;
  }

  lemma PackedNone(s: Bytes, tokens: seq<Token>)
    requires tokens == [] && PackedAs(s, tokens)
    ensures s == [] && Pack(tokens) == []
  {
  }

  /** Such bytes differ from the packing in the last control byte only. */
  lemma {:induction false} PackedDiffers(s: Bytes, tokens: seq<Token>) returns (at: nat, v: Byte)
    requires tokens != [] && Encodable(tokens) && PackedAs(s, tokens)
    ensures at < |s| && Pack(tokens) == s[at := v]
    decreases |tokens|
  {
    hide Payload, ControlByte, Control, Pow2, Pack, PackedAs;
    var n := Min(8, |tokens|);
    var c, bytes, tail := PackedHead(s, tokens, n);
    if tokens[n..] == [] {
      PackedNone(tail, tokens[n..]);
      at, v := 0, ControlByte(tokens[..n]);
    } else {
      var k;
      k, v := PackedDiffers(tail, tokens[n..]);
      at := 1 + |bytes| + k;
      ChangedLater(s, c, bytes, tail, Pack(tokens[n..]), k, v);
    }
  }

  /** Every stream that the strict decoder accepts is the packing of well-formed tokens that mean what it
      gave, up to the spare bits of the last control byte. */
  lemma StreamIsPacked(src: Bytes, d: Decoded) returns (tokens: seq<Token>)
    requires Stream(true, src) == Some(d)
    ensures Encodable(tokens) && WellFormed(tokens, [], Header(src)) && Meaning(tokens, [], Header(src)) == d.out
    ensures 4 <= d.used <= |src| && src[..4] == HeaderBytes(Header(src)) && PackedAs(src[4..d.used], tokens)
  {
    tokens := DecodeHasTokens(src, Header(src), [], 4, 0, 0, d);
    SpelledIsPacked(src[4..d.used], tokens);
    HeaderUnique(src, Header(src));
  }

  lemma HeaderUnique(src: Bytes, size: Word)
    requires |src| >= 4 && size == Header(src)
    ensures src[..4] == HeaderBytes(size)
  {
    var b0: nat, b1: nat, b2: nat, b3: nat := src[0], src[1], src[2], src[3];
    HeaderDigits(size, b0, b1, b2, b3);
  }

  lemma HeaderDigits(size: Word, b0: nat, b1: nat, b2: nat, b3: nat)
    requires b0 < 0x100 && b1 < 0x100 && b2 < 0x100 && b3 < 0x100
      && size == b0 + 0x100 * b1 + 0x1_0000 * b2 + 0x100_0000 * b3
    ensures size % 0x100 == b0 && size / 0x100 % 0x100 == b1 && size / 0x1_0000 % 0x100 == b2 && size / 0x100_0000 == b3
  {
    var q, w := b1 + 0x100 * (b2 + 0x100 * b3), b2 + 0x100 * b3;
    DivModUnique(size, 0x100, q, b0);
    DivModUnique(q, 0x100, w, b1);
    DivModUnique(w, 0x100, b3, b2);
    DivModUnique(size, 0x1_0000, w, b0 + 0x100 * b1);
    DivModUnique(size, 0x100_0000, b3, b0 + 0x100 * b1 + 0x1_0000 * b2);
  }
}
