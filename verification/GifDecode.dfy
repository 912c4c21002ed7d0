/** The decoder of Appendix F of the GIF89a specification, and the round trip: what lzw writes
    decodes to what it was given, for every byte sequence. */
module GifDecode {
  import opened Options
  import opened Words
  import opened Seqs
  import opened BitStreams
  import opened GifLzw

  /** The decoder between two codes: its table's added strings, the width of the next code, and the
      string of the code before, if there was one since the last clear code. */
  datatype Dec = Dec(entries: seq<Bytes>, size: nat, prev: Option<Bytes>)

  /** How decoding stops: at the end code, for lack of bits, or at a code not in the table. */
  datatype End = Ended | RanOut | BadCode

  datatype Image = Image(data: Bytes, end: End)

  function Start(m: nat): Dec {
    Dec([], m + 1, None)
  }

  /** The string of a code that is in the table. */
  function StringOf(m: nat, entries: seq<Bytes>, code: nat): Option<Bytes> {
    if code < Pow2(m) && code < 0x100 then Some([code])
    else if Pow2(m) + 2 <= code < Next(m, entries) then Some(entries[code - Pow2(m) - 2])
    else None
  }

  /** Adding a string: nothing is added past twelve bits, and the width grows when the next free
      code needs another bit. */
  function Add(m: nat, d: Dec, s: Bytes): Dec {
    if Next(m, d.entries) >= 4096 then d
    else
      var entries := d.entries + [s];
      d.(entries := entries, size := if Next(m, entries) == Pow2(d.size) && d.size < 12 then d.size + 1 else d.size)
  }

  /** A code that is neither clear nor end: the string it stands for, and the decoder after it. The
      code about to be assigned stands for the old string and its own first byte. */
  function Feed(m: nat, d: Dec, code: nat): Option<(Bytes, Dec)> {
    match (StringOf(m, d.entries, code), d.prev)
    case (Some(s), None) => Some((s, d.(prev := Some(s))))
    case (Some(s), Some(o)) => if s == [] then None else Some((s, Add(m, d, o + [s[0]]).(prev := Some(s))))
    case (None, Some(o)) =>
      if o != [] && code == Next(m, d.entries) then
        var s := o + [o[0]];
        Some((s, Add(m, d, s).(prev := Some(s))))
      else None
    case (None, None) => None
  }

  function Decode(m: nat, d: Dec, bits: Bits): Image
    decreases |bits|
  {
    if |bits| < d.size || d.size == 0 then Image([], RanOut)
    else
      var code, rest := ValueOf(bits[..d.size]), bits[d.size..];
      if code == Clear(m) then Decode(m, Start(m), rest)
      else if code == Eoi(m) then Image([], Ended)
      else
        match Feed(m, d, code)
        case None => Image([], BadCode)
        case Some((s, d')) =>
          var more := Decode(m, d', rest);
          Image(s + more.data, more.end)
  }

  // ---- reading what was written ----

  function After(done: Bytes, rest: Image): Image {
    Image(done + rest.data, rest.end)
  }

  /** The bits take the decoder from d to d', and it puts out the bytes done. */
  ghost predicate Reads(m: nat, d: Dec, bits: Bits, done: Bytes, d': Dec) {
    forall more: Bits {:trigger Decode(m, d, bits + more)} ::
        Decode(m, d, bits + more) == After(done, Decode(m, d', more))
  }

  lemma ReadsNothing(m: nat, d: Dec)
    ensures Reads(m, d, [], [], d)
  {
    forall more: Bits ensures Decode(m, d, [] + more) == After([], Decode(m, d, more)) {
      EmptySum(more);
      EmptySum(Decode(m, d, more).data);
    }
  }

  lemma ReadsChain(m: nat, d: Dec, b: Bits, s: Bytes, d': Dec, b': Bits, s': Bytes, d'': Dec)
    requires Reads(m, d, b, s, d') && Reads(m, d', b', s', d'')
    ensures Reads(m, d, b + b', s + s', d'')
  {
    forall more: Bits ensures Decode(m, d, (b + b') + more) == After(s + s', Decode(m, d'', more)) {
      Regroup(b, b', more);
      Regroup(s, s', Decode(m, d'', more).data);
      assert Decode(m, d, b + (b' + more)) == After(s, Decode(m, d', b' + more));
    }
  }

  lemma FirstCode(m: nat, d: Dec, code: nat, more: Bits)
    requires code < Pow2(d.size) && d.size > 0
    ensures var bits := BitsOf(code, d.size) + more;
            |bits| >= d.size && ValueOf(bits[..d.size]) == code && bits[d.size..] == more
  {
    var bits := BitsOf(code, d.size) + more;
    assert bits[..d.size] == BitsOf(code, d.size);
    ValueBits(code, d.size);
  }

  lemma ReadsCode(m: nat, d: Dec, code: nat, s: Bytes, d': Dec)
    requires code < Pow2(d.size) && d.size > 0 && code != Clear(m) && code != Eoi(m)
      && Feed(m, d, code) == Some((s, d'))
    ensures Reads(m, d, BitsOf(code, d.size), s, d')
  {
    forall more: Bits ensures Decode(m, d, BitsOf(code, d.size) + more) == After(s, Decode(m, d', more)) {
      FirstCode(m, d, code, more);
    }
  }

  lemma ReadsClear(m: nat, d: Dec)
    requires Clear(m) < Pow2(d.size) && d.size > 0
    ensures Reads(m, d, BitsOf(Clear(m), d.size), [], Start(m))
  {
    forall more: Bits ensures Decode(m, d, BitsOf(Clear(m), d.size) + more) == After([], Decode(m, Start(m), more)) {
      FirstCode(m, d, Clear(m), more);
      EmptySum(Decode(m, Start(m), more).data);
    }
  }

  // ---- encoder and decoder in step ----

  /** The decoder's table is one entry behind: that entry is the old string and the first byte of
      the string being matched. Their widths agree. */
  ghost predicate InStep(e: Enc, d: Dec) {
    && d.size == e.size
    && if e.entries == [] then d.entries == [] && d.prev == None
       else d.prev.Some? && d.prev.value != [] && e.w != [] && e.entries == d.entries + [d.prev.value + [e.w[0]]]
  }

  lemma Known(m: nat, e: Enc)
    requires EncOk(m, e) && e.w != []
    ensures StringOf(m, e.entries, CodeOf(m, e.entries, e.w)) == Some(e.w)
  {
    PowersOfTwo();
    PowUpTo(m, 8);
    if |e.w| == 1 {
      assert e.w[0] < Pow2(m) && e.w == [e.w[0]];
    }
  }

  /** Reading the code of the matched string: the decoder learns the pending entry, even when it is
      the very string that was matched. */
  lemma ReadMatched(m: nat, e: Enc, d: Dec)
    requires EncOk(m, e) && e.w != [] && InStep(e, d)
    ensures Feed(m, d, CodeOf(m, e.entries, e.w))
         == Some((e.w, Dec(e.entries, if e.entries != [] && Next(m, e.entries) == Pow2(d.size)
            && d.size < 12 then d.size + 1 else d.size, Some(e.w))))
  {
    var code := CodeOf(m, e.entries, e.w);
    Known(m, e);
    if e.entries != [] {
      var o := d.prev.value;
      PowersOfTwo();
      PowUpTo(e.size, 12);
      if code == Next(m, d.entries) {
        assert e.entries[|d.entries|] == o + [e.w[0]];
        assert e.w == o + [e.w[0]];
        assert e.w[0] == o[0];
      } else {
        assert StringOf(m, d.entries, code) == Some(e.w);
      }
    }
  }

  /** What one index makes the encoder write, the decoder reads: it puts out the strings matched, and
      stays in step. */
  lemma TakeReads(m: nat, e: Enc, d: Dec, c: Byte) returns (done: Bytes, d': Dec)
    requires EncOk(m, e) && c < Pow2(m) && InStep(e, d)
    ensures Reads(m, d, CodeBits(Take(m, e, c).0), done, d') && InStep(Take(m, e, c).1, d')
    ensures done + Take(m, e, c).1.w == e.w + [c]
  {
    var wc := e.w + [c];
    if InTable(e, wc) {
      done, d' := [], d;
      ReadsNothing(m, d);
      EmptySum(wc);
    } else {
      assert e.w != [] by { assert |wc| != 1; }
      var code := CodeOf(m, e.entries, e.w);
      d' := Dec(e.entries, if e.entries != [] && Next(m, e.entries) == Pow2(d.size)
          && d.size < 12 then d.size + 1 else d.size, Some(e.w));
      done := e.w;
      CodeFits(m, e);
      CodeIsData(m, e);
      ReadMatched(m, e, d);
      ReadsCode(m, d, code, e.w, d');
      OneCode(code, e.size);
      if Next(m, e.entries) < 4096 {
        WidthsAgree(m, e, wc);
      } else {
        FullTable(m, e);
        TwoCodeBits(code, Clear(m), e.size);
        ReadsClear(m, d');
        ReadsChain(m, d, BitsOf(code, d.size), e.w, d', BitsOf(Clear(m), d'.size), [], Start(m));
        NoBytes(e.w);
        d' := Start(m);
      }
    }
  }

  lemma NoBytes(s: Bytes)
    ensures s + [] == s
  {
  }

  lemma CodeIsData(m: nat, e: Enc)
    requires EncOk(m, e) && e.w != []
    ensures CodeOf(m, e.entries, e.w) != Clear(m) && CodeOf(m, e.entries, e.w) != Eoi(m)
  {
    if |e.w| == 1 {
      assert e.w[0] < Pow2(m);
    }
  }

  lemma OneCode(code: nat, size: nat)
    ensures CodeBits([Code(code, size)]) == BitsOf(code, size)
  {
    assert CodeBits([Code(code, size)][..0]) == [];
    EmptySum(BitsOf(code, size));
  }

  lemma TwoCodeBits(a: nat, b: nat, size: nat)
    ensures CodeBits([Code(a, size), Code(b, size)]) == BitsOf(a, size) + BitsOf(b, size)
  {
    OneCode(a, size);
    assert [Code(a, size), Code(b, size)][..1] == [Code(a, size)];
  }

  /** The encoder's width after adding an entry is the decoder's after learning the one before. */
  lemma WidthsAgree(m: nat, e: Enc, wc: Bytes)
    requires EncOk(m, e) && Next(m, e.entries) < 4096
    ensures Wider(m, e.entries + [wc], e.size)
         == if e.entries != [] && Next(m, e.entries) == Pow2(e.size) && e.size < 12 then e.size + 1 else e.size
  {
    PowersOfTwo();
    PowUpTo(2, m);
    assert Pow2(m + 1) == 2 * Pow2(m);
    if e.entries == [] {
      assert e.size == m + 1;
    }
  }

  lemma FullTable(m: nat, e: Enc)
    requires EncOk(m, e) && Next(m, e.entries) >= 4096
    ensures e.size == 12 && Clear(m) < Pow2(12)
  {
    PowersOfTwo();
    if e.size < 12 {
      PowUpTo(e.size, 11);
    }
    PowUpTo(m, 8);
  }

  // ---- whole images ----

  /** After the clear code and the codes of s, the decoder has put out all of s but the string that
      is still being matched. */
  lemma {:induction false} RunReads(m: nat, s: Bytes) returns (done: Bytes, d: Dec)
    requires 2 <= m <= 8 && Small(m, s)
    ensures Reads(m, Start(m), CodeBits(Run(m, s).0), done, d) && InStep(Run(m, s).1, d)
    ensures done + Run(m, s).1.w == s
    decreases |s|
  {
    if s == [] {
      FreshOk(m);
      MarksFit(m, Fresh(m));
      OneCode(Clear(m), m + 1);
      ReadsClear(m, Start(m));
      done, d := [], Start(m);
    } else {
      var init, c := s[..|s| - 1], s[|s| - 1];
      var (codes, e) := Run(m, init);
      RunOk(m, init);
      var before, d0 := RunReads(m, init);
      var now;
      now, d := TakeReads(m, e, d0, c);
      CodeBitsAppend(codes, Take(m, e, c).0);
      ReadsChain(m, Start(m), CodeBits(codes), before, d0, CodeBits(Take(m, e, c).0), now, d);
      done := before + now;
      Rejoin(s, before, e.w, c, now, Take(m, e, c).1.w);
    }
  }

  lemma Rejoin(s: Bytes, before: Bytes, w: Bytes, c: Byte, now: Bytes, w': Bytes)
    requires s != [] && before + w == s[..|s| - 1] && c == s[|s| - 1] && now + w' == w + [c]
    ensures before + now + w' == s
  {
    Regroup(before, now, w');
    Regroup(before, w, [c]);
  }

  /** After the last data code the decoder's width can be one bit ahead of the encoder's: when the
      entry it learns from that code takes the last code of the width. With J data codes since the
      last clear code, that is 2^m + 1 + J == 2^size below twelve bits. */
  ghost predicate OneBitAhead(m: nat, e: Enc) {
    e.w != [] && e.entries != [] && Next(m, e.entries) == Pow2(e.size) && e.size < 12
  }

  lemma EndCodeReads(m: nat, d: Dec, size: nat, pad: nat)
    requires 0 < size <= d.size <= size + 1 && Eoi(m) < Pow2(size)
    ensures Decode(m, d, BitsOf(Eoi(m), size) + Zeros(pad))
      == Image([], if d.size > size && pad == 0 then RanOut else Ended)
  {
    if d.size == size {
      FirstCode(m, d, Eoi(m), Zeros(pad));
    } else if pad > 0 {
      PadBits(Eoi(m), size, size + 1);
      assert Zeros(1) == [false] + Zeros(0);
      assert Zeros(pad) == Zeros(1) + Zeros(pad - 1);
      Regroup(BitsOf(Eoi(m), size), Zeros(1), Zeros(pad - 1));
      FirstCode(m, d, Eoi(m), Zeros(pad - 1));
    }
  }

  lemma FinishReads(m: nat, e: Enc, d: Dec, pad: nat)
    requires EncOk(m, e) && InStep(e, d)
    ensures Decode(m, d, CodeBits(Finish(m, e)) + Zeros(pad))
      == Image(e.w, if OneBitAhead(m, e) && pad == 0 then RanOut else Ended)
  {
    MarksFit(m, e);
    OneCode(Eoi(m), e.size);
    if e.w == [] {
      EmptySum([Code(Eoi(m), e.size)]);
      EndCodeReads(m, d, e.size, pad);
    } else {
      var code := CodeOf(m, e.entries, e.w);
      var d' := Dec(e.entries, if e.entries != [] && Next(m, e.entries) == Pow2(d.size)
          && d.size < 12 then d.size + 1 else d.size, Some(e.w));
      CodeFits(m, e);
      CodeIsData(m, e);
      ReadMatched(m, e, d);
      ReadsCode(m, d, code, e.w, d');
      TwoCodeBits(code, Eoi(m), e.size);
      assert Finish(m, e) == [Code(code, e.size), Code(Eoi(m), e.size)];
      Regroup(BitsOf(code, e.size), BitsOf(Eoi(m), e.size), Zeros(pad));
      EndCodeReads(m, d', e.size, pad);
      NoBytes(e.w);
    }
  }

  lemma ReadsThen(m: nat, d: Dec, bits: Bits, done: Bytes, d': Dec, last: Bits, z: Bits, data: Bytes, end: End)
    requires Reads(m, d, bits, done, d') && Decode(m, d', last + z) == Image(data, end)
    ensures Decode(m, d, (bits + last) + z) == Image(done + data, end)
  {
    Regroup(bits, last, z);
  }

  lemma PadsNothing(n: nat)
    ensures Padding(n) == 0 <==> n % 8 == 0
  {
  }

  /** The round trip: the sub-blocks that lzw writes for s decode to s. The decoder also meets the end
      code, except when its width is one bit ahead and no padding bit is left to complete it. */
  lemma RoundTrip(m: nat, s: Bytes, blocks: Bytes)
    requires 2 <= m <= 8 && Small(m, s) && PackedAs(CodeBits(Codes(m, s)), Unblock(blocks))
    ensures Decode(m, Start(m), Unpack(Unblock(blocks)))
         == Image(s, if OneBitAhead(m, Run(m, s).1) && |CodeBits(Codes(m, s))| % 8 == 0 then RanOut else Ended)
  {
    var codes, e := Run(m, s).0, Run(m, s).1;
    var stream, last := CodeBits(Codes(m, s)), CodeBits(Finish(m, e));
    var pad := Padding(|stream|);
    RunOk(m, s);
    var done, d := RunReads(m, s);
    CodeBitsAppend(codes, Finish(m, e));
    FinishReads(m, e, d, pad);
    PadsNothing(|stream|);
    var end := if OneBitAhead(m, e) && pad == 0 then RanOut else Ended;
    ReadsThen(m, Start(m), CodeBits(codes), done, d, last, Zeros(pad), e.w, end);
  }

  // ---- when the end code is lost ----

  /** The data codes written before the last one: every index that does not extend a string. */
  ghost function DataCodes(m: nat, s: Bytes): nat {
    if s == [] then 0
    else
      var init := s[..|s| - 1];
      DataCodes(m, init) + if InTable(Run(m, init).1, Run(m, init).1.w + [s[|s| - 1]]) then 0 else 1
  }

  /** The entries since the last clear code, the width and the bits written, after n data codes: each adds
      an entry, or clears the table. */
  datatype Tally = Tally(entries: nat, size: nat, bits: nat)

  function Tallied(m: nat, t: Tally): Tally {
    var next := Pow2(m) + 2 + t.entries;
    if next < 4096 then Tally(t.entries + 1, if next + 1 > Pow2(t.size)
        && t.size < 12 then t.size + 1 else t.size, t.bits + t.size)
    else Tally(0, m + 1, t.bits + 2 * t.size)
  }

  function TallyAfter(m: nat, n: nat): Tally {
    if n == 0 then Tally(0, m + 1, m + 1) else Tallied(m, TallyAfter(m, n - 1))
  }

  lemma TakeTallied(m: nat, e: Enc, c: Byte, bits: nat)
    requires Matched(e)
    ensures var (codes, e') := Take(m, e, c);
            Tally(|e'.entries|, e'.size, bits + |CodeBits(codes)|)
            == if InTable(e, e.w + [c]) then Tally(|e.entries|, e.size, bits)
               else Tallied(m, Tally(|e.entries|, e.size, bits))
  {
    if !InTable(e, e.w + [c]) {
      assert e.w != [] by { assert |e.w + [c]| != 1; }
      OneCode(CodeOf(m, e.entries, e.w), e.size);
      TwoCodeBits(CodeOf(m, e.entries, e.w), Clear(m), e.size);
    }
  }

  /** Only the number of data codes matters for where the stream stands. */
  lemma {:induction false} RunTallied(m: nat, s: Bytes)
    ensures var (codes, e) := Run(m, s); Tally(|e.entries|, e.size, |CodeBits(codes)|) == TallyAfter(m, DataCodes(m, s))
    decreases |s|
  {
    hide Pow2, BitsOf, CodeBits;
    if s == [] {
      OneCode(Clear(m), m + 1);
    } else {
      var init, c := s[..|s| - 1], s[|s| - 1];
      RunTallied(m, init);
      TakeTallied(m, Run(m, init).1, c, |CodeBits(Run(m, init).0)|);
      CodeBitsAppend(Run(m, init).0, Take(m, Run(m, init).1, c).0);
    }
  }

  /** The decoder ends one bit ahead on a byte boundary. */
  predicate Loses(m: nat, t: Tally) {
    t.entries > 0 && Pow2(m) + 2 + t.entries == Pow2(t.size) && t.size < 12 && (t.bits + 2 * t.size) % 8 == 0
  }

  lemma FinishBits(m: nat, e: Enc)
    requires Matched(e) && e.w != []
    ensures |CodeBits(Finish(m, e))| == 2 * e.size
  {
    TwoCodeBits(CodeOf(m, e.entries, e.w), Eoi(m), e.size);
    assert Finish(m, e) == [Code(CodeOf(m, e.entries, e.w), e.size), Code(Eoi(m), e.size)];
  }

  lemma EndsWithBytes(m: nat, s: Bytes)
    requires s != []
    ensures Run(m, s).1.w != []
  {
    TakeMatched(m, Run(m, s[..|s| - 1]).1, s[|s| - 1]);
  }

  /** Whether the decoder runs out of bits at the end depends on the number of data codes alone. */
  lemma LosesExact(m: nat, s: Bytes)
    requires s != []
    ensures OneBitAhead(m, Run(m, s).1) && |CodeBits(Codes(m, s))| % 8 == 0
      <==> Loses(m, TallyAfter(m, DataCodes(m, s)))
  {
    RunTallied(m, s);
    EndsWithBytes(m, s);
    LosesAt(m, Run(m, s).0, Run(m, s).1, TallyAfter(m, DataCodes(m, s)));
  }

  lemma LosesAt(m: nat, codes: seq<Code>, e: Enc, t: Tally)
    requires Matched(e) && e.w != [] && Tally(|e.entries|, e.size, |CodeBits(codes)|) == t
    ensures OneBitAhead(m, e) && |CodeBits(codes + Finish(m, e))| % 8 == 0 <==> Loses(m, t)
  {
    FinishBits(m, e);
    CodeBitsAppend(codes, Finish(m, e));
    assert |CodeBits(codes + Finish(m, e))| == t.bits + 2 * t.size;
  }

  // ---- an image that loses it ----

  function LongestOf(entries: seq<Bytes>): nat {
    if entries == [] then 1
    else
      var l, n := LongestOf(entries[..|entries| - 1]), |entries[|entries| - 1]|;
      if n > l then n else l
  }

  lemma {:induction false} LongestIs(entries: seq<Bytes>, w: Bytes)
    requires w in entries || |w| <= 1
    ensures |w| <= LongestOf(entries)
    decreases |entries|
  {
    if entries != [] {
      var init := entries[..|entries| - 1];
      if w in init || |w| <= 1 { LongestIs(init, w); }
    }
  }

  /** More zeros make one more data code, for the strings of the table end somewhere. */
  lemma {:induction false} OneMoreCode(m: nat, s: Bytes) returns (s': Bytes)
    requires s != []
    ensures s' != [] && DataCodes(m, s') == DataCodes(m, s) + 1
    decreases LongestOf(Run(m, s).1.entries) - |Run(m, s).1.w|
  {
    var e := Run(m, s).1;
    s' := s + [0];
    RunNext(m, s, 0);
    assert s'[..|s|] == s;
    if InTable(e, e.w + [0]) {
      LongestIs(e.entries, e.w + [0]);
      s' := OneMoreCode(m, s');
    }
  }

  lemma {:induction false} SomeImage(m: nat, n: nat) returns (s: Bytes)
    ensures s != [] && DataCodes(m, s) == n
  {
    if n == 0 {
      s := [0];
      assert s[..0] == [];
    } else {
      s := SomeImage(m, n - 1);
      s := OneMoreCode(m, s);
    }
  }

  /** Some codes of one width. */
  lemma {:induction false} Stretch(m: nat, n: nat, k: nat, t: Tally, p: nat, t': Tally)
    requires t == TallyAfter(m, n) && p == Pow2(t.size) <= 4096 && Pow2(m) + 2 + t.entries + k <= p
    requires t'.entries == t.entries + k && t'.size == t.size && t'.bits == t.bits + k * t.size
    ensures TallyAfter(m, n + k) == t'
  {
    if k > 0 {
      OneLess(k, t.size);
      Stretch(m, n, k - 1, t, p, Tally(t'.entries - 1, t.size, t'.bits - t.size));
    }
  }

  lemma OneLess(k: nat, size: nat)
    requires k > 0
    ensures k * size == (k - 1) * size + size && (k - 1) * size >= 0
  {
    MulMono(size, 0, k - 1);
    assert size * (k - 1) == (k - 1) * size;
  }

  lemma Powers()
    ensures Pow2(8) == 256 && Pow2(9) == 512 && Pow2(10) == 1024 && Pow2(11) == 2048 && Pow2(12) == 4096
  {
  }

  /** From a clear code on, with eight-bit indices: up to the last code of ten bits. */
  lemma ToTenBits(n: nat, b: nat)
    requires TallyAfter(8, n) == Tally(0, 9, b)
    ensures TallyAfter(8, n + 766) == Tally(766, 10, b + 7405)
  {
    Powers();
    Stretch(8, n, 254, Tally(0, 9, b), 512, Tally(254, 9, b + 2286));
    assert TallyAfter(8, n + 255) == Tally(255, 10, b + 2295);
    Stretch(8, n + 255, 511, Tally(255, 10, b + 2295), 1024, Tally(766, 10, b + 7405));
  }

  /** A whole table: 3839 data codes, the last with a clear code behind it. */
  lemma WholeTable(n: nat, b: nat)
    requires TallyAfter(8, n) == Tally(0, 9, b)
    ensures TallyAfter(8, n + 3839) == Tally(0, 9, b + 43267)
  {
    Powers();
    ToTenBits(n, b);
    assert TallyAfter(8, n + 767) == Tally(767, 11, b + 7415);
    Stretch(8, n + 767, 1023, Tally(767, 11, b + 7415), 2048, Tally(1790, 11, b + 18668));
    assert TallyAfter(8, n + 1791) == Tally(1791, 12, b + 18679);
    Stretch(8, n + 1791, 2047, Tally(1791, 12, b + 18679), 4096, Tally(3838, 12, b + 43243));
  }

  lemma LostAfter(start: nat, n: nat)
    requires start == 0 && n == start + 8444
    ensures Loses(8, TallyAfter(8, n))
  {
    Powers();
    WholeTable(start, 9);
    WholeTable(start + 3839, 43276);
    ToTenBits(start + 7678, 86543);
  }

  lemma LostImage(n: nat) returns (s: Bytes)
    requires n == 8444
    ensures DataCodes(8, s) == n && OneBitAhead(8, Run(8, s).1) && |CodeBits(Codes(8, s))| % 8 == 0
  {
    s := SomeImage(8, n);
    LostAfter(n - 8444, n);
    LosesExact(8, s);
  }

  /** With eight-bit indices, as the program calls it: two whole tables and 766 codes more, and the end
      code is not read. There are such images. */
  lemma EndCodeLost() returns (s: Bytes)
    ensures DataCodes(8, s) == 8444 && OneBitAhead(8, Run(8, s).1) && |CodeBits(Codes(8, s))| % 8 == 0
  {
    s := LostImage(8444);
  }
}
