/** The GIF writer's LZW encoder (tools/frames2gif.py), against a decoder written from Appendix F
    of the GIF89a specification. The decoder's table is one entry behind the encoder's. */
module GifLzw {
  import opened Words
  import opened Seqs
  import opened BitStreams

  type Bytes = seq<Byte>

  /** A code and the number of bits it is written with. */
  datatype Code = Code(value: nat, width: nat)

  // ---- the code list an encoder writes ----

  /** The encoder between two indices: the strings added since the last clear code, the code width,
      and the string matched so far. */
  datatype Enc = Enc(entries: seq<Bytes>, size: nat, w: Bytes)

  function Clear(m: nat): nat {
    Pow2(m)
  }

  function Eoi(m: nat): nat {
    Pow2(m) + 1
  }

  /** The next code to be assigned. */
  function Next(m: nat, entries: seq<Bytes>): nat {
    Pow2(m) + 2 + |entries|
  }

  function Fresh(m: nat): Enc {
    Enc([], m + 1, [])
  }

  /** The table holds the one-byte strings and the added ones. */
  predicate InTable(e: Enc, s: Bytes) {
    |s| == 1 || s in e.entries
  }

  function IndexIn(entries: seq<Bytes>, s: Bytes): (i: nat)
    requires s in entries
    ensures i < |entries| && entries[i] == s
  {
    if entries[0] == s then 0 else 1 + IndexIn(entries[1..], s)
  }

  function CodeOf(m: nat, entries: seq<Bytes>, s: Bytes): nat
    requires |s| == 1 || s in entries
  {
    if |s| == 1 then s[0] else Pow2(m) + 2 + IndexIn(entries, s)
  }

  /** The encoder takes one more index: the codes it writes, and its next state. */
  function Take(m: nat, e: Enc, c: Byte): (seq<Code>, Enc)
    requires e.w != [] ==> InTable(e, e.w)
  {
    var wc := e.w + [c];
    if InTable(e, wc) then ([], e.(w := wc))
    else
      var code := Code(CodeOf(m, e.entries, e.w), e.size);
      if Next(m, e.entries) < 4096 then
        var entries := e.entries + [wc];
        ([code], Enc(entries, Wider(m, entries, e.size), [c]))
      else ([code, Code(Clear(m), e.size)], Fresh(m).(w := [c]))
  }

  ghost predicate Matched(e: Enc) {
    e.w != [] ==> InTable(e, e.w)
  }

  lemma TakeMatched(m: nat, e: Enc, c: Byte)
    requires Matched(e)
    ensures Matched(Take(m, e, c).1) && Take(m, e, c).1.w != []
  {
  }

  /** After the clear code and all of s. */
  ghost function Run(m: nat, s: Bytes): (r: (seq<Code>, Enc))
    ensures Matched(r.1)
    decreases |s|
  {
    if s == [] then ([Code(Clear(m), m + 1)], Fresh(m))
    else
      var (codes, e) := Run(m, s[..|s| - 1]);
      TakeMatched(m, e, s[|s| - 1]);
      var (more, e') := Take(m, e, s[|s| - 1]);
      (codes + more, e')
  }

  /** The string left over, then the end code, both with the width at hand. */
  ghost function Finish(m: nat, e: Enc): seq<Code>
    requires Matched(e)
  {
    (if e.w != [] then [Code(CodeOf(m, e.entries, e.w), e.size)] else []) + [Code(Eoi(m), e.size)]
  }

  ghost function Codes(m: nat, s: Bytes): seq<Code> {
    Run(m, s).0 + Finish(m, Run(m, s).1)
  }

  function CodeBits(codes: seq<Code>): Bits
    decreases |codes|
  {
    if codes == [] then []
    else CodeBits(codes[..|codes| - 1]) + BitsOf(codes[|codes| - 1].value, codes[|codes| - 1].width)
  }

  lemma {:induction false} CodeBitsAppend(a: seq<Code>, b: seq<Code>)
    ensures CodeBits(a + b) == CodeBits(a) + CodeBits(b)
    decreases |b|
  {
    if b == [] {
      assert a + b == a;
    } else {
      var n := |b| - 1;
      assert (a + b)[..|a + b| - 1] == a + b[..n];
      CodeBitsAppend(a, b[..n]);
      Regroup(CodeBits(a), CodeBits(b[..n]), BitsOf(b[n].value, b[n].width));
    }
  }

  // ---- the encoder ----

  /** The bytes written and the bits still held back are the bits of the codes so far. */
  ghost predicate Holds(out: Bytes, bits: nat, nbits: nat, codes: seq<Code>) {
    bits < Pow2(nbits) && Unpack(out) + BitsOf(bits, nbits) == CodeBits(codes)
  }

  lemma Accumulate(out: Bytes, bits: nat, nbits: nat, codes: seq<Code>, code: nat, size: nat)
    requires Holds(out, bits, nbits, codes) && code < Pow2(size)
    ensures BitOr(bits, code * Pow2(nbits)) == bits + code * Pow2(nbits)
    ensures Holds(out, bits + code * Pow2(nbits), nbits + size, codes + [Code(code, size)])
  {
    BitOrDisjoint(bits, code, nbits);
    BitsJoin(bits, nbits, code, size);
    assert CodeBits([Code(code, size)]) == [] + BitsOf(code, size);
    CodeBitsAppend(codes, [Code(code, size)]);
    Regroup(Unpack(out), BitsOf(bits, nbits), BitsOf(code, size));
    PowSum(bits, nbits, code, size);
  }

  lemma {:induction false} PowSum(bits: nat, nbits: nat, code: nat, size: nat)
    requires bits < Pow2(nbits) && code < Pow2(size)
    ensures bits + code * Pow2(nbits) < Pow2(nbits + size)
    decreases nbits
  {
    if nbits == 0 {
      assert code * Pow2(0) == code;
    } else {
      var c := code * Pow2(nbits - 1);
      assert code * Pow2(nbits) == 2 * c;
      PowSum(bits / 2, nbits - 1, code, size);
    }
  }

  lemma LowByte(bits: nat, nbits: nat)
    requires bits < Pow2(nbits) && nbits >= 8
    ensures BitAnd(bits, 0xFF) == bits % 0x100
    ensures BitsOf(bits, nbits) == BitsOf(bits % 0x100, 8) + BitsOf(bits / 0x100, nbits - 8)
  {
    hide BitAnd, BitsOf;
    assert Pow2(8) == 0x100;
    LowBits(bits, 8);
    BitsJoin(bits % 0x100, 8, bits / 0x100, nbits - 8);
  }

  lemma Drain(out: Bytes, bits: nat, nbits: nat, codes: seq<Code>)
    requires Holds(out, bits, nbits, codes) && nbits >= 8
    ensures BitAnd(bits, 0xFF) == bits % 0x100
    ensures Holds(out + [bits % 0x100], bits / 0x100, nbits - 8, codes)
  {
    var lo: Byte, hi := bits % 0x100, bits / 0x100;
    LowByte(bits, nbits);
    UnpackAppend(out, lo);
    Regroup(Unpack(out), BitsOf(lo, 8), BitsOf(hi, nbits - 8));
    HighPart(bits, nbits);
  }

  lemma HighPart(bits: nat, nbits: nat)
    requires nbits >= 8 && bits < Pow2(nbits)
    ensures bits / 0x100 < Pow2(nbits - 8)
  {
    PowEight(nbits - 8);
  }

  lemma PowEight(n: nat)
    ensures Pow2(n + 8) == 0x100 * Pow2(n)
  {
    assert Pow2(n + 2) == 4 * Pow2(n);
    assert Pow2(n + 4) == 4 * Pow2(n + 2);
    assert Pow2(n + 6) == 4 * Pow2(n + 4);
    assert Pow2(n + 8) == 4 * Pow2(n + 6);
  }

  /** emit: put a code above the bits held back, and write the full bytes. */
  method Emit(out0: Bytes, bits0: nat, nbits0: nat, code: nat, size: nat, ghost codes: seq<Code>)
    returns (out: Bytes, bits: nat, nbits: nat)
    requires Holds(out0, bits0, nbits0, codes) && code < Pow2(size)
    ensures Holds(out, bits, nbits, codes + [Code(code, size)]) && nbits < 8
  {
    Accumulate(out0, bits0, nbits0, codes, code, size);
    out, bits, nbits := out0, BitOr(bits0, code * Pow2(nbits0)), nbits0 + size;
    while nbits >= 8
      invariant Holds(out, bits, nbits, codes + [Code(code, size)])
    {
      Drain(out, bits, nbits, codes + [Code(code, size)]);
      out, bits, nbits := out + [BitAnd(bits, 0xFF)], bits / 0x100, nbits - 8;
    }
  }

  lemma {:induction false} PowUpTo(m: nat, n: nat)
    requires m <= n
    ensures Pow2(m) <= Pow2(n)
    decreases n
  {
    if m < n {
      PowUpTo(m, n - 1);
    }
  }

  lemma {:induction false} PadBits(bits: nat, nbits: nat, n: nat)
    requires bits < Pow2(nbits) && nbits <= n
    ensures BitsOf(bits, n) == BitsOf(bits, nbits) + Zeros(n - nbits)
    decreases n
  {
    if nbits == 0 {
      ZeroBits(n);
      EmptySum(Zeros(n));
    } else {
      PadBits(bits / 2, nbits - 1, n - 1);
      Regroup([bits % 2 == 1], BitsOf(bits / 2, nbits - 1), Zeros(n - nbits));
    }
  }

  lemma LastByte(bits: nat, nbits: nat)
    requires bits < Pow2(nbits) && nbits <= 8
    ensures bits < 0x100 && BitAnd(bits, 0xFF) == bits
  {
    assert Pow2(8) == 0x100;
    PowUpTo(nbits, 8);
    LowBits(bits, 8);
  }

  lemma PadOf(n: nat, nbits: nat)
    requires nbits < 8
    ensures Padding(8 * n + nbits) == if nbits > 0 then 8 - nbits else 0
  {
  }

  lemma PackedWith(u: Bits, b: Bits, z: Bits, stream: Bits, bytes: Bytes)
    requires u + b == stream && Unpack(bytes) == u + (b + z) && z == Zeros(Padding(|stream|))
    ensures PackedAs(stream, bytes)
  {
    Regroup(u, b, z);
  }

  /** The last partial byte, filled with zeros. */
  lemma Flush(out: Bytes, bits: nat, nbits: nat, codes: seq<Code>)
    requires Holds(out, bits, nbits, codes) && nbits < 8
    ensures bits < 0x100 && BitAnd(bits, 0xFF) == bits
    ensures PackedAs(CodeBits(codes), if nbits > 0 then out + [bits] else out)
  {
    LastByte(bits, nbits);
    FlushPad(Unpack(out), BitsOf(bits, nbits), CodeBits(codes), out, nbits);
    if nbits > 0 {
      UnpackAppend(out, bits);
      PadBits(bits, nbits, 8);
      PackedWith(Unpack(out), BitsOf(bits, nbits), Zeros(8 - nbits), CodeBits(codes), out + [bits]);
    } else {
      WholeBytes(out, BitsOf(bits, 0), CodeBits(codes));
    }
  }

  lemma FlushPad(u: Bits, b: Bits, stream: Bits, out: Bytes, nbits: nat)
    requires u == Unpack(out) && u + b == stream && |b| == nbits < 8
    ensures Padding(|stream|) == if nbits > 0 then 8 - nbits else 0
  {
    UnpackLength(out);
    PadOf(|out|, nbits);
  }

  lemma WholeBytes(out: Bytes, b: Bits, stream: Bits)
    requires Unpack(out) + b == stream && b == [] && Padding(|stream|) == 0
    ensures PackedAs(stream, out)
  {
    assert Unpack(out) == stream;
    assert stream + Zeros(0) == stream;
  }

  // ---- the encoder's state ----

  /** What lzw keeps between indices, besides the bits: the code for every string of the table. */
  ghost predicate TableOf(m: nat, table: map<Bytes, nat>, e: Enc) {
    && (forall s {:trigger s in table} :: s in table <==> (|s| == 1 && s[0] < Pow2(m)) || s in e.entries)
    && forall s {:trigger table[s]} :: s in table ==> table[s] == CodeOf(m, e.entries, s)
  }

  /** Added strings are longer than one byte, and all bytes are below the clear code. */
  ghost predicate EntriesOk(m: nat, e: Enc) {
    (forall s {:trigger Small(m, s)} :: s in e.entries ==> |s| >= 2 && Small(m, s)) && Small(m, e.w)
  }

  /** All bytes are roots of the table. */
  ghost predicate Small(m: nat, s: Bytes) {
    forall k :: 0 <= k < |s| ==> s[k] < Pow2(m)
  }

  /** Codes assigned so far fit the current width, and never exceed twelve bits. */
  ghost predicate WidthOk(m: nat, e: Enc) {
    2 <= m <= 8 && m + 1 <= e.size <= 12 && Next(m, e.entries) <= Pow2(e.size) && (e.size > m + 1 ==> e.entries != [])
  }

  ghost predicate EncOk(m: nat, e: Enc) {
    Matched(e) && EntriesOk(m, e) && WidthOk(m, e)
  }

  lemma PowersOfTwo()
    ensures Pow2(2) == 4 && Pow2(8) == 0x100 && Pow2(11) == 0x800 && Pow2(12) == 0x1000
  {
  }

  lemma FreshOk(m: nat)
    requires 2 <= m <= 8
    ensures EncOk(m, Fresh(m))
  {
    PowersOfTwo();
    PowUpTo(2, m);
    assert Pow2(m + 1) == 2 * Pow2(m);
  }

  lemma SmallAppend(m: nat, s: Bytes, c: Byte)
    requires Small(m, s) && c < Pow2(m)
    ensures Small(m, s + [c]) && Small(m, [c])
  {
    forall k | 0 <= k < |s + [c]| ensures (s + [c])[k] < Pow2(m) {
      if k < |s| {
        assert (s + [c])[k] == s[k];
      }
    }
  }

  lemma TakeOk(m: nat, e: Enc, c: Byte)
    requires EncOk(m, e) && c < Pow2(m)
    ensures EncOk(m, Take(m, e, c).1)
  {
    var wc := e.w + [c];
    SmallAppend(m, e.w, c);
    if !InTable(e, wc) {
      assert |e.w| >= 1;
      if Next(m, e.entries) < 4096 {
        AddOk(m, e, c);
      } else {
        ClearedOk(m, c);
      }
    }
  }

  /** The width after one more entry. */
  function Wider(m: nat, entries: seq<Bytes>, size: nat): nat {
    if Next(m, entries) > Pow2(size) && size < 12 then size + 1 else size
  }

  lemma AddOk(m: nat, e: Enc, c: Byte)
    requires EncOk(m, e) && c < Pow2(m) && |e.w| >= 1 && Next(m, e.entries) < 4096
    ensures var entries := e.entries + [e.w + [c]]; EncOk(m, Enc(entries, Wider(m, entries, e.size), [c]))
  {
    var wc := e.w + [c];
    var entries := e.entries + [wc];
    var e' := Enc(entries, Wider(m, entries, e.size), [c]);
    assert Next(m, entries) == Next(m, e.entries) + 1;
    assert EntriesOk(m, e') by {
      SmallAppend(m, e.w, c);
      AddedOk(m, e, wc);
    }
    assert WidthOk(m, e') by {
      GrowWidth(m, e);
    }
  }

  lemma ClearedOk(m: nat, c: Byte)
    requires 2 <= m <= 8 && c < Pow2(m)
    ensures EncOk(m, Fresh(m).(w := [c]))
  {
    FreshOk(m);
  }

  lemma AddedOk(m: nat, e: Enc, wc: Bytes)
    requires EntriesOk(m, e) && Small(m, wc) && |wc| >= 2
    ensures forall s {:trigger Small(m, s)} :: s in e.entries + [wc] ==> |s| >= 2 && Small(m, s)
  {
    forall s | s in e.entries + [wc] ensures |s| >= 2 && Small(m, s) {
      assert s in e.entries || s == wc;
      assert s in e.entries ==> Small(m, s);
    }
  }

  lemma GrowWidth(m: nat, e: Enc)
    requires WidthOk(m, e) && Next(m, e.entries) < 4096
    ensures var n := Next(m, e.entries) + 1;
            n <= Pow2(if n > Pow2(e.size) && e.size < 12 then e.size + 1 else e.size)
  {
    PowersOfTwo();
    assert Pow2(e.size + 1) == 2 * Pow2(e.size);
  }

  lemma {:induction false} RunOk(m: nat, s: Bytes)
    requires 2 <= m <= 8 && Small(m, s)
    ensures EncOk(m, Run(m, s).1) && (s != [] ==> Run(m, s).1.w != [])
    decreases |s|
  {
    if s == [] {
      FreshOk(m);
    } else {
      var init, e := s[..|s| - 1], Run(m, s[..|s| - 1]).1;
      RunOk(m, init);
      TakeOk(m, e, s[|s| - 1]);
      TakeMatched(m, e, s[|s| - 1]);
    }
  }

  /** Every code fits the width it is written with. */
  lemma CodeFits(m: nat, e: Enc)
    requires EncOk(m, e) && e.w != []
    ensures CodeOf(m, e.entries, e.w) < Next(m, e.entries) <= Pow2(e.size)
  {
  }

  lemma MarksFit(m: nat, e: Enc)
    requires EncOk(m, e)
    ensures Clear(m) < Eoi(m) < Pow2(e.size)
  {
  }

  // ---- the loop ----

  /** The table of the first n one-byte strings. */
  function RootsBelow(n: nat): (table: map<Bytes, nat>)
    requires n <= 0x100
    ensures forall s {:trigger s in table} :: s in table <==> |s| == 1 && s[0] < n
    ensures forall s {:trigger table[s]} :: s in table ==> table[s] == s[0]
  {
    assert forall s: Bytes :: |s| == 1 ==> s == [s[0]];
    if n == 0 then map[] else RootsBelow(n - 1)[[n - 1] := n - 1]
  }

  function Roots(m: nat): (table: map<Bytes, nat>)
    requires m <= 8
    ensures TableOf(m, table, Fresh(m))
  {
    PowersOfTwo();
    PowUpTo(m, 8);
    RootsBelow(Pow2(m))
  }

  lemma {:induction false} IndexKeeps(entries: seq<Bytes>, wc: Bytes, s: Bytes)
    requires s in entries
    ensures IndexIn(entries + [wc], s) == IndexIn(entries, s)
  {
    TailOfSum(entries, [wc]);
    if entries[0] != s {
      IndexKeeps(entries[1..], wc, s);
    }
  }

  lemma {:induction false} IndexNew(entries: seq<Bytes>, wc: Bytes)
    requires wc !in entries
    ensures IndexIn(entries + [wc], wc) == |entries|
  {
    if entries == [] {
      EmptySum([wc]);
    } else {
      TailOfSum(entries, [wc]);
      IndexNew(entries[1..], wc);
    }
  }

  lemma TableGrows(m: nat, table: map<Bytes, nat>, e: Enc, e': Enc, wc: Bytes)
    requires TableOf(m, table, e) && wc !in table && |wc| >= 2 && e'.entries == e.entries + [wc]
    ensures TableOf(m, table[wc := Next(m, e.entries)], e')
  {
    var table' := table[wc := Next(m, e.entries)];
    IndexNew(e.entries, wc);
    forall s | s in table' ensures table'[s] == CodeOf(m, e'.entries, s) {
      if s != wc && |s| != 1 {
        IndexKeeps(e.entries, wc, s);
      }
    }
  }

  /** What the loop variables stand for: the codes written so far, and the encoder's state. */
  ghost predicate Encoding(m: nat, codes: seq<Code>, e: Enc, out: Bytes, bits: nat, nbits: nat, size: nat, nxt: nat,
      table: map<Bytes, nat>, w: Bytes) {
    && Holds(out, bits, nbits, codes) && nbits < 8
    && w == e.w && size == e.size && nxt == Next(m, e.entries) && TableOf(m, table, e) && EncOk(m, e)
  }

  lemma RunNext(m: nat, s: Bytes, c: Byte)
    ensures Run(m, s + [c]) == (Run(m, s).0 + Take(m, Run(m, s).1, c).0, Take(m, Run(m, s).1, c).1)
  {
    InitLast(s, c);
  }

  lemma NoCodes(codes: seq<Code>)
    ensures codes + [] == codes
  {
  }

  lemma TwoCodes(codes: seq<Code>, a: Code, b: Code)
    ensures codes + [a] + [b] == codes + [a, b]
  {
  }

  /** The string is in the table: match on. */
  lemma MatchOn(m: nat, e: Enc, c: Byte, table: map<Bytes, nat>)
    requires TableOf(m, table, e) && EncOk(m, e) && c < Pow2(m) && e.w + [c] in table
    ensures Take(m, e, c) == ([], e.(w := e.w + [c])) && TableOf(m, table, e.(w := e.w + [c]))
      && EncOk(m, e.(w := e.w + [c]))
  {
    TakeOk(m, e, c);
  }

  lemma NotInTable(m: nat, e: Enc, c: Byte, table: map<Bytes, nat>)
    requires TableOf(m, table, e) && EncOk(m, e) && c < Pow2(m) && e.w + [c] !in table
    ensures |e.w| >= 1 && !InTable(e, e.w + [c]) && e.w in table
      && table[e.w] == CodeOf(m, e.entries, e.w) < Pow2(e.size)
  {
    SmallAppend(m, e.w, c);
    assert (e.w + [c])[|e.w|] == c;
    CodeFits(m, e);
  }

  /** One pass of the loop. */
  method TakeIndex(m: nat, ghost codes: seq<Code>, ghost e: Enc, c: Byte,
                   out0: Bytes, bits0: nat, nbits0: nat, size0: nat, nxt0: nat, table0: map<Bytes, nat>, w0: Bytes)
    returns (out: Bytes, bits: nat, nbits: nat, size: nat, nxt: nat, table: map<Bytes, nat>, w: Bytes)
    requires 2 <= m <= 8 && c < Pow2(m) && Encoding(m, codes, e, out0, bits0, nbits0, size0, nxt0, table0, w0)
    ensures Encoding(m, codes + Take(m, e, c).0, Take(m, e, c).1, out, bits, nbits, size, nxt, table, w)
  {
    out, bits, nbits, size, nxt, table := out0, bits0, nbits0, size0, nxt0, table0;
    w := w0 + [c];
    if w in table {
      MatchOn(m, e, c, table);
      NoCodes(codes);
      return;
    }
    NotInTable(m, e, c, table);
    TakeOk(m, e, c);
    out, bits, nbits := Emit(out, bits, nbits, table[w0], size, codes);
    if nxt < 4096 {
      TableGrows(m, table, e, Take(m, e, c).1, w);
      table, nxt := table[w := nxt], nxt + 1;
      if nxt > Pow2(size) && size < 12 {
        size := size + 1;
      }
    } else {
      MarksFit(m, e);
      out, bits, nbits := Emit(out, bits, nbits, Clear(m), size, codes + [Code(table[w0], size)]);
      TwoCodes(codes, Code(table[w0], size), Code(Clear(m), size));
      table, nxt, size := Roots(m), Eoi(m) + 1, m + 1;
    }
    w := [c];
  }

  /** The empty table, and the clear code that every image begins with. */
  method Begin(m: nat) returns (out: Bytes, bits: nat, nbits: nat, size: nat, nxt: nat, table: map<Bytes, nat>)
    requires 2 <= m <= 8
    ensures Encoding(m, [Code(Clear(m), m + 1)], Fresh(m), out, bits, nbits, size, nxt, table, [])
  {
    size, nxt, table := m + 1, Eoi(m) + 1, Roots(m);
    FreshOk(m);
    MarksFit(m, Fresh(m));
    NothingHeld();
    out, bits, nbits := Emit([], 0, 0, Clear(m), size, []);
    EmptySum([Code(Clear(m), m + 1)]);
  }

  /** lzw: the data sub-blocks of one image. */
  method Lzw(indices: Bytes, m: nat) returns (blocks: Bytes)
    requires 2 <= m <= 8 && Small(m, indices)
    ensures PackedAs(CodeBits(Codes(m, indices)), Unblock(blocks)) && blocks == Blocked(Unblock(blocks))
  {
    var out, bits, nbits, size, nxt, table := Begin(m);
    var w: Bytes := [];
    ghost var codes, e := [Code(Clear(m), m + 1)], Fresh(m);
    for k := 0 to |indices|
      invariant (codes, e) == Run(m, indices[..k])
      invariant Encoding(m, codes, e, out, bits, nbits, size, nxt, table, w)
    {
      assert indices[..k + 1] == indices[..k] + [indices[k]];
      RunNext(m, indices[..k], indices[k]);
      out, bits, nbits, size, nxt, table, w :=
          TakeIndex(m, codes, e, indices[k], out, bits, nbits, size, nxt, table, w);
      codes, e := codes + Take(m, e, indices[k]).0, Take(m, e, indices[k]).1;
    }
    assert indices[..|indices|] == indices;
    out := Terminate(m, codes, e, out, bits, nbits, size, nxt, table, w);
    blocks := SubBlocks(out);
    UnblockBlocked(out);
  }

  lemma NothingHeld()
    ensures Holds([], 0, 0, [])
  {
  }

  /** The string left over, the end code, and the last partial byte. */
  method Terminate(m: nat, ghost codes: seq<Code>, ghost e: Enc,
                   out0: Bytes, bits0: nat, nbits0: nat, size: nat, nxt: nat, table: map<Bytes, nat>, w: Bytes)
                       returns (out: Bytes)
    requires 2 <= m <= 8 && Encoding(m, codes, e, out0, bits0, nbits0, size, nxt, table, w)
    ensures PackedAs(CodeBits(codes + Finish(m, e)), out)
  {
    var bits, nbits;
    out, bits, nbits := out0, bits0, nbits0;
    ghost var last := [];
    MarksFit(m, e);
    if w != [] {
      InTheTable(m, e, table);
      CodeFits(m, e);
      out, bits, nbits := Emit(out, bits, nbits, table[w], size, codes);
      last := [Code(table[w], size)];
    } else {
      NoCodes(codes);
    }
    out, bits, nbits := Emit(out, bits, nbits, Eoi(m), size, codes + last);
    Regroup(codes, last, [Code(Eoi(m), size)]);
    Flush(out, bits, nbits, codes + Finish(m, e));
    if nbits > 0 {
      out := out + [BitAnd(bits, 0xFF)];
    }
  }

  lemma InTheTable(m: nat, e: Enc, table: map<Bytes, nat>)
    requires EncOk(m, e) && TableOf(m, table, e) && e.w != []
    ensures e.w in table && table[e.w] == CodeOf(m, e.entries, e.w)
  {
    assert e.w[0] < Pow2(m);
  }

  /** Runs of at most 255 bytes behind their length, then the terminator. */
  method SubBlocks(out: Bytes) returns (blocks: Bytes)
    ensures blocks == Blocked(out)
  {
    blocks := [];
    var i := 0;
    while i < |out|
      invariant i <= |out| && blocks + Blocked(out[i..]) == Blocked(out)
    {
      var n := if |out| - i < 255 then |out| - i else 255;
      assert out[i..][..n] == out[i..i + n] && out[i..][n..] == out[i + n..];
      Regroup(blocks, [n] + out[i..i + n], Blocked(out[i + n..]));
      blocks := blocks + ([n] + out[i..i + n]);
      i := i + n;
    }
    assert out[i..] == [];
    blocks := blocks + [0];
  }
}
