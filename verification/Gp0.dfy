/** How the software GPU cuts the GP0 word stream into packets (gpu_gp0_write and get_cmd_word_count in
    source/hle/hle_gpu.c), and what the packets mean. */
module Gp0 {
  import opened Words
  import opened GpuLine
  import Seqs

  datatype Phase = Idle | Header1 | Header2 | Data | Accumulate

  datatype Rect = Rect(x: nat, y: nat, w: nat, h: nat)

  /** What a packet does: put a pixel, change a drawing setting, or execute a buffered command. */
  datatype Event = Pixel(at: nat, color: Half) | Setting(v: Word) | Execute(words: seq<Word>)

  datatype Port = Port(phase: Phase, buf: seq<Word>, total: nat, blit: Rect, left: nat, log: seq<Event>)

  function Cmd(v: Word): (c: Byte) {
    v / 0x100_0000
  }

  function Low(v: Word): Half {
    v % 0x1_0000
  }

  function High(v: Word): Half {
    v / 0x1_0000
  }

  /** Whether bit n of a command byte is set. */
  function Bit(c: Byte, n: nat): bool {
    c / Pow2(n) % 2 == 1
  }

  function One(b: bool): nat {
    if b then 1 else 0
  }

  /** The five high bits of each of three color bytes. */
  function Color15(v: Word): Half {
    v / 0x8_0000 % 0x20 * 0x400 + v / 0x800 % 0x20 * 0x20 + v / 8 % 0x20
  }

  // ---- word counts ----

  function PolyCount(cmd: Byte): (n: nat)
    ensures 4 <= n <= 12
  {
    var verts := if Bit(cmd, 3) then 4 else 3;
    var perVert := 1 + One(Bit(cmd, 2)) + One(Bit(cmd, 4));
    1 + verts * perVert - One(Bit(cmd, 4))
  }

  function WordCount(w0: Word): (n: nat)
    ensures 1 <= n <= 12
  {
    var cmd := Cmd(w0);
    if cmd == 0x02 then 3
    else if cmd == 0x80 then 4
    else if cmd == 0xC0 then 3
    else if 0x20 <= cmd <= 0x3F then PolyCount(cmd)
    else if 0x40 <= cmd <= 0x5F then 3 + One(Bit(cmd, 4))
    else if 0x60 <= cmd <= 0x7F then 2 + One(Bit(cmd, 2)) + One(w0 / 0x800_0000 % 4 == 0)
    else 1
  }

  // ---- rectangles ----

  predicate RectOk(r: Rect) {
    r.x < WIDTH && r.y < HEIGHT && 1 <= r.w <= WIDTH && 1 <= r.h <= HEIGHT
  }

  function Area(r: Rect): nat {
    r.w * r.h
  }

  function Corner(v: Word, r: Rect): Rect {
    r.(x := v % 0x400, y := High(v) % 0x200)
  }

  function Extent(v: Word, r: Rect): Rect {
    var w, h := v % 0x400, High(v) % 0x200;
    r.(w := if w == 0 then WIDTH else w, h := if h == 0 then HEIGHT else h)
  }

  function RectOf(corner: Word, size: Word): (r: Rect)
    ensures RectOk(r) && Area(r) >= 1
  {
    var r := Extent(size, Corner(corner, Rect(0, 0, 0, 0)));
    MulMono(r.w, 1, r.h);
    r
  }

  /** The row and the column of pixel k in rows of w, written without division to keep proofs small. */
  function Row(k: nat, w: nat): nat
    requires w > 0
    decreases k
  {
    if k < w then 0 else 1 + Row(k - w, w)
  }

  function Column(k: nat, w: nat): (c: nat)
    requires w > 0
    ensures c < w
    decreases k
  {
    if k < w then k else Column(k - w, w)
  }

  /** They are the quotient and the remainder. */
  lemma {:induction false} RowAndColumn(k: nat, w: nat)
    requires w > 0
    ensures Row(k, w) == k / w && Column(k, w) == k % w && k == w * Row(k, w) + Column(k, w)
    decreases k
  {
    if k < w {
      DivModUnique(k, w, 0, k);
    } else {
      RowAndColumn(k - w, w);
      assert w * (1 + Row(k - w, w)) == w + w * Row(k - w, w);
      DivModUnique(k, w, Row(k, w), Column(k, w));
    }
  }

  /** Where the k-th pixel of a rectangle goes, row by row, wrapping at both edges of the VRAM. */
  function At(r: Rect, k: nat): (p: nat)
    requires RectOk(r)
    ensures p < WIDTH * HEIGHT
  {
    (r.y + Row(k, r.w)) % HEIGHT * WIDTH + (r.x + Column(k, r.w)) % WIDTH
  }

  /** The half of a data word that holds the k-th pixel. */
  function HalfOf(v: Word, k: nat): Half {
    if k % 2 == 0 then Low(v) else High(v)
  }

  // ---- the port, a word at a time ----

  function Put(p: Port, e: Event): Port {
    p.(log := p.log + [e])
  }

  /** Between words the port holds at most eleven words of a command, or an image with pixels to come. */
  predicate PortOk(p: Port) {
    && p.blit.x < WIDTH && p.blit.y < HEIGHT
    && match p.phase
       case Data => RectOk(p.blit) && 1 <= p.left <= Area(p.blit)
       case Accumulate => 1 <= |p.buf| < p.total <= 12
       case _ => true
  }

  /** One half of a data word, if the image is not complete. */
  function PutPixel(p: Port, v: Word, half: nat): Port
    requires RectOk(p.blit) && p.left <= Area(p.blit)
  {
    if p.left == 0 then p
    else Put(p, Pixel(At(p.blit, Area(p.blit) - p.left), HalfOf(v, half))).(left := p.left - 1)
  }

  function PutPair(p: Port, v: Word): Port
    requires RectOk(p.blit) && p.left <= Area(p.blit)
  {
    var q := PutPixel(PutPixel(p, v, 0), v, 1);
    if q.left == 0 then q.(phase := Idle) else q
  }

  /** The command is executed when its last word is there. */
  function Buffered(p: Port): Port {
    if |p.buf| >= p.total then Put(p, Execute(p.buf)).(buf := [], total := 0, phase := Idle)
    else p.(phase := Accumulate)
  }

  function Extended(p: Port, v: Word): Port {
    var blit := Extent(v, p.blit);
    p.(blit := blit, left := Area(blit), phase := if Area(blit) > 0 then Data else Idle)
  }

  function Begin(p: Port, v: Word): Port {
    var cmd := Cmd(v);
    if cmd == 0xA0 then p.(phase := Header1)
    else if cmd == 0x00 || cmd == 0x01 || cmd == 0x1F then p
    else if cmd >= 0xE0 then Put(p, Setting(v))
    else Buffered(p.(buf := [v], total := WordCount(v)))
  }

  function Write(p: Port, v: Word): (q: Port)
    requires PortOk(p)
    ensures PortOk(q)
  {
    match p.phase
    case Header1 => p.(blit := Corner(v, p.blit), phase := Header2)
    case Header2 => Extended(p, v)
    case Data => PutPair(p, v)
    case Idle => Begin(p, v)
    case Accumulate => Buffered(p.(buf := p.buf + [v]))
  }

  /** Every run keeps the buffer within its words. */
  function Run(p: Port, words: seq<Word>): (q: Port)
    requires PortOk(p)
    ensures PortOk(q)
    decreases |words|
  {
    if words == [] then p else Write(Run(p, words[..|words| - 1]), words[|words| - 1])
  }

  // ---- packets ----

  predicate IsImage(v: Word) {
    Cmd(v) == 0xA0
  }

  predicate Ignored(v: Word) {
    Cmd(v) == 0x00 || Cmd(v) == 0x01 || Cmd(v) == 0x1F
  }

  /** How many words the packet that begins these words has; for an image, once its size is known. */
  function Size(words: seq<Word>): (n: nat)
    requires words != []
    ensures n >= 1
  {
    if IsImage(words[0]) then
      if |words| < 3 then 3 else 3 + (Area(RectOf(words[1], words[2])) + 1) / 2
    else if Ignored(words[0]) || Cmd(words[0]) >= 0xE0 then 1
    else WordCount(words[0])
  }

  predicate IsPacket(words: seq<Word>) {
    words != [] && |words| == Size(words)
  }

  /** The beginning of a packet, or nothing. */
  predicate Unfinished(words: seq<Word>) {
    words == [] || |words| < Size(words)
  }

  function Least(a: nat, b: nat): nat {
    if a < b then a else b
  }

  /** The pixels an image has put once the given words are there. */
  function Pixels(words: seq<Word>): (events: seq<Event>)
    requires |words| >= 3
    ensures |events| == Least(2 * (|words| - 3), Area(RectOf(words[1], words[2])))
  {
    var r := RectOf(words[1], words[2]);
    seq(Least(2 * (|words| - 3), Area(r)), k requires 0 <= k < Least(2 * (|words| - 3), Area(r)) =>
      Pixel(At(r, k), HalfOf(words[3 + k / 2], k)))
  }

  /** What a packet, or the beginning of one, does. */
  function Meaning(words: seq<Word>): seq<Event> {
    if words == [] || Ignored(words[0]) then []
    else if IsImage(words[0]) then (if |words| < 3 then [] else Pixels(words))
    else if Cmd(words[0]) >= 0xE0 then [Setting(words[0])]
    else if |words| < WordCount(words[0]) then [] else [Execute(words)]
  }

  function Flatten(packets: seq<seq<Word>>): seq<Word>
    decreases |packets|
  {
    if packets == [] then [] else Flatten(packets[..|packets| - 1]) + packets[|packets| - 1]
  }

  function Meanings(packets: seq<seq<Word>>): seq<Event>
    decreases |packets|
  {
    if packets == [] then [] else Meanings(packets[..|packets| - 1]) + Meaning(packets[|packets| - 1])
  }

  predicate ArePackets(packets: seq<seq<Word>>) {
    forall k :: 0 <= k < |packets| ==> IsPacket(packets[k])
  }

  // ---- one packet at a time ----

  /** The port has taken in these words of an unfinished packet, and nothing else of it. */
  predicate Holds(p: Port, words: seq<Word>) {
    if words == [] then p.phase == Idle
    else if IsImage(words[0]) then
      if |words| == 1 then p.phase == Header1
      else if |words| == 2 then p.phase == Header2 && p.blit == Corner(words[1], p.blit)
      else
        var r := RectOf(words[1], words[2]);
        p.phase == Data && p.blit == r && p.left == Area(r) - 2 * (|words| - 3)
    else p.phase == Accumulate && p.buf == words && p.total == WordCount(words[0])
  }

  /** The state after some words: a whole packet leaves the port idle. */
  predicate Stands(p: Port, words: seq<Word>) {
    if Unfinished(words) then Holds(p, words) else p.phase == Idle
  }

  lemma FirstWord(p: Port, v: Word)
    requires PortOk(p) && p.phase == Idle
    ensures Stands(Write(p, v), [v])
    ensures Write(p, v).log == p.log + Meaning([v])
  {
  }

  lemma SizeFirst(words: seq<Word>, v: Word)
    requires words != [] && Unfinished(words) && (IsImage(words[0]) ==> |words| >= 3)
    ensures (words + [v])[0] == words[0] && Size(words + [v]) == Size(words)
  {
  }

  lemma CommandWord(p: Port, words: seq<Word>, v: Word)
    requires PortOk(p) && words != [] && Unfinished(words) && !IsImage(words[0]) && Holds(p, words)
    ensures Stands(Write(p, v), words + [v])
    ensures Write(p, v).log == p.log + Meaning(words + [v]) && Meaning(words) == []
  {
    SizeFirst(words, v);
  }

  lemma HeaderWord(p: Port, words: seq<Word>, v: Word)
    requires PortOk(p) && 1 <= |words| <= 2 && IsImage(words[0]) && Holds(p, words)
    ensures Stands(Write(p, v), words + [v])
    ensures Write(p, v).log == p.log && Meaning(words) == Meaning(words + [v]) == []
  {
    var more := words + [v];
    assert more[0] == words[0];
    if |words| == 2 {
      assert more[1] == words[1] && more[2] == v;
    }
  }

  /** The pixel an image puts k-th. */
  function PixelAt(words: seq<Word>, k: nat): Event
    requires |words| >= 3 && k / 2 < |words| - 3
  {
    Pixel(At(RectOf(words[1], words[2]), k), HalfOf(words[3 + k / 2], k))
  }

  lemma MorePixels(words: seq<Word>, v: Word, n: nat, area: nat)
    requires |words| >= 3 && n == 2 * (|words| - 3) < area && area == Area(RectOf(words[1], words[2]))
    ensures Pixels(words + [v]) == Pixels(words) + [PixelAt(words + [v], n)] + if n + 1 < area
      then [PixelAt(words + [v], n + 1)] else []
  {
    var more := words + [v];
    var last := if n + 1 < area then [PixelAt(more, n + 1)] else [];
    var both := Pixels(words) + [PixelAt(more, n)] + last;
    assert more[1] == words[1] && more[2] == words[2];
    assert |Pixels(words)| == n && |both| == |Pixels(more)|;
    forall k | 0 <= k < |both| ensures Pixels(more)[k] == both[k] {
      if k < n {
        assert more[3 + k / 2] == words[3 + k / 2];
      }
    }
  }

  lemma PairEvents(p: Port, v: Word, n: nat)
    requires PortOk(p) && p.phase == Data && n == Area(p.blit) - p.left && n % 2 == 0
    ensures var q := PutPair(p, v);
            && q.blit == p.blit && q.phase == (if q.left == 0 then Idle else Data)
            && q.left == (if p.left >= 2 then p.left - 2 else 0)
            && q.log == p.log + [Pixel(At(p.blit, n), HalfOf(v, 0))] + if n + 1 < Area(p.blit)
               then [Pixel(At(p.blit, n + 1), HalfOf(v, 1))] else []
  {
  }

  lemma DataWord(p: Port, words: seq<Word>, v: Word)
    requires PortOk(p) && |words| >= 3 && Unfinished(words) && IsImage(words[0]) && Holds(p, words)
    ensures Stands(Write(p, v), words + [v])
    ensures Grows(Meaning(words), Meaning(words + [v]), p.log, Write(p, v).log)
  {
    var more := words + [v];
    var r := RectOf(words[1], words[2]);
    var n := 2 * (|words| - 3);
    SizeFirst(words, v);
    assert more[1] == words[1] && more[2] == words[2] && more[3 + n / 2] == v;
    MorePixels(words, v, n, Area(r));
    PairEvents(p, v, n);
    var one, two := PixelAt(more, n), if n + 1 < Area(r) then [PixelAt(more, n + 1)] else [];
    Seqs.Regroup(p.log, [one], two);
    Seqs.Regroup(Meaning(words), [one], two);
    GrowsBy(Meaning(words), Meaning(more), p.log, Write(p, v).log, [one] + two);
  }

  ghost predicate Grows(before: seq<Event>, after: seq<Event>, log: seq<Event>, log': seq<Event>) {
    exists added :: log' == log + added && after == before + added
  }

  /** One more word of a packet does exactly what that word adds to the meaning of the packet. */
  lemma OneWord(p: Port, words: seq<Word>, v: Word)
    requires PortOk(p) && Unfinished(words) && Holds(p, words)
    ensures Stands(Write(p, v), words + [v])
    ensures Grows(Meaning(words), Meaning(words + [v]), p.log, Write(p, v).log)
  {
    var q := Write(p, v);
    if words == [] {
      FirstWord(p, v);
      assert words + [v] == [v];
      GrowsBy(Meaning(words), Meaning([v]), p.log, q.log, Meaning([v]));
    } else if !IsImage(words[0]) {
      CommandWord(p, words, v);
      GrowsBy(Meaning(words), Meaning(words + [v]), p.log, q.log, Meaning(words + [v]));
    } else if |words| <= 2 {
      HeaderWord(p, words, v);
      GrowsBy(Meaning(words), Meaning(words + [v]), p.log, q.log, []);
    } else {
      DataWord(p, words, v);
    }
  }

  lemma GrowsBy(before: seq<Event>, after: seq<Event>, log: seq<Event>, log': seq<Event>, added: seq<Event>)
    requires log' == log + added && after == before + added
    ensures Grows(before, after, log, log')
  {
  }

  lemma GrowsThen(before: seq<Event>, after: seq<Event>, log: seq<Event>, log': seq<Event>)
    requires Grows(before, after, log + before, log')
    ensures log' == log + after
  {
    var added :| log' == log + before + added && after == before + added;
    Seqs.Regroup(log, before, added);
  }

  // ---- whole streams ----

  lemma RunOne(p: Port, words: seq<Word>, v: Word)
    requires PortOk(p)
    ensures Run(p, words + [v]) == Write(Run(p, words), v)
  {
    Seqs.InitLast(words, v);
  }

  lemma {:induction false} RunSum(p: Port, a: seq<Word>, b: seq<Word>)
    requires PortOk(p)
    ensures Run(p, a + b) == Run(Run(p, a), b)
    decreases |b|
  {
    if b == [] {
      assert a + b == a;
    } else {
      var init, v := b[..|b| - 1], b[|b| - 1];
      Seqs.InitAndLast(b);
      Seqs.Regroup(a, init, [v]);
      RunSum(p, a, init);
      RunOne(p, a + init, v);
      RunOne(Run(p, a), init, v);
    }
  }

  /** Every beginning of an unfinished packet, or of a packet that is just finished, is unfinished. */
  predicate OnePacket(words: seq<Word>) {
    Unfinished(words) || IsPacket(words)
  }

  lemma OnePacketInit(words: seq<Word>)
    requires words != [] && OnePacket(words)
    ensures Unfinished(words[..|words| - 1])
  {
    var init := words[..|words| - 1];
    if init != [] {
      assert init[0] == words[0];
      if |init| >= 3 {
        assert init[1] == words[1] && init[2] == words[2];
      }
    }
  }

  /** From idle, the words of one packet, or of its beginning, do exactly what they mean. */
  lemma {:induction false} RunPacket(p: Port, words: seq<Word>)
    requires PortOk(p) && p.phase == Idle && OnePacket(words)
    ensures Stands(Run(p, words), words)
    ensures Run(p, words).log == p.log + Meaning(words)
    decreases |words|
  {
    if words == [] {
      assert p.log + [] == p.log;
    } else {
      var init, v := words[..|words| - 1], words[|words| - 1];
      Seqs.InitAndLast(words);
      OnePacketInit(words);
      RunPacket(p, init);
      OneWord(Run(p, init), init, v);
      GrowsThen(Meaning(init), Meaning(words), p.log, Run(p, words).log);
    }
  }

  /** Any packets one after the other are executed as exactly those packets, in order, and leave the
      port idle. */
  lemma {:induction false} PacketsInOrder(p: Port, packets: seq<seq<Word>>)
    requires PortOk(p) && p.phase == Idle && ArePackets(packets)
    ensures Run(p, Flatten(packets)).phase == Idle
    ensures Run(p, Flatten(packets)).log == p.log + Meanings(packets)
    decreases |packets|
  {
    if packets == [] {
      assert p.log + [] == p.log;
    } else {
      var init, last := packets[..|packets| - 1], packets[|packets| - 1];
      PacketsInOrder(p, init);
      var q := Run(p, Flatten(init));
      RunSum(p, Flatten(init), last);
      RunPacket(q, last);
      Seqs.Regroup(p.log, Meanings(init), Meaning(last));
    }
  }

  /** Every stream of words is some packets and the beginning of one more, and does what they mean. */
  lemma {:induction false} EveryStream(p: Port, words: seq<Word>) returns (packets: seq<seq<Word>>, rest: seq<Word>)
    requires PortOk(p) && p.phase == Idle
    ensures words == Flatten(packets) + rest && ArePackets(packets) && Unfinished(rest)
    ensures Holds(Run(p, words), rest)
    ensures Run(p, words).log == p.log + Meanings(packets) + Meaning(rest)
    decreases |words|
  {
    packets, rest := Cut(words);
    PacketsInOrder(p, packets);
    RunSum(p, Flatten(packets), rest);
    RunPacket(Run(p, Flatten(packets)), rest);
  }

  lemma {:induction false} Cut(words: seq<Word>) returns (packets: seq<seq<Word>>, rest: seq<Word>)
    ensures words == Flatten(packets) + rest && ArePackets(packets) && Unfinished(rest)
    decreases |words|
  {
    if words == [] {
      packets, rest := [], [];
    } else {
      var init, v := words[..|words| - 1], words[|words| - 1];
      Seqs.InitAndLast(words);
      packets, rest := Cut(init);
      Seqs.Regroup(Flatten(packets), rest, [v]);
      GrowsOnePacket(rest, v);
      if Unfinished(rest + [v]) {
        rest := rest + [v];
      } else {
        Seqs.InitLast(packets, rest + [v]);
        packets, rest := packets + [rest + [v]], [];
        assert Flatten(packets) + [] == Flatten(packets);
      }
    }
  }

  lemma GrowsOnePacket(rest: seq<Word>, v: Word)
    requires Unfinished(rest)
    ensures OnePacket(rest + [v])
  {
    var more := rest + [v];
    if rest != [] {
      assert more[0] == rest[0];
      if |rest| >= 3 {
        assert more[1] == rest[1] && more[2] == rest[2];
      }
    }
  }

  // ---- only one way to cut a stream ----

  lemma PacketAtFront(a: seq<Word>, x: seq<Word>, b: seq<Word>, y: seq<Word>)
    requires IsPacket(a) && IsPacket(b) && a + x == b + y
    ensures a == b && x == y
  {
    SizeOfFront(a, x);
    SizeOfFront(b, y);
    assert a == (a + x)[..|a|] && b == (b + y)[..|b|];
    assert x == (a + x)[|a|..] && y == (b + y)[|b|..];
  }

  lemma SizeOfFront(a: seq<Word>, x: seq<Word>)
    requires IsPacket(a)
    ensures a + x != [] && Size(a + x) == |a|
  {
    var all := a + x;
    assert all[0] == a[0];
    if |a| >= 3 {
      assert all[1] == a[1] && all[2] == a[2];
    }
  }

  lemma {:induction false} FlattenFront(packets: seq<seq<Word>>)
    requires packets != []
    ensures Flatten(packets) == packets[0] + Flatten(packets[1..])
    decreases |packets|
  {
    var init, last := packets[..|packets| - 1], packets[|packets| - 1];
    if init == [] {
      assert packets[1..] == [];
      assert Flatten(init) == [];
    } else {
      FlattenFront(init);
      var rest := packets[1..];
      assert init[1..] == rest[..|rest| - 1] && rest[|rest| - 1] == last;
      Seqs.Regroup(packets[0], Flatten(init[1..]), last);
    }
  }

  /** A stream is cut into packets in one way only. */
  lemma {:induction false} CutIsUnique(ps: seq<seq<Word>>, x: seq<Word>, qs: seq<seq<Word>>, y: seq<Word>)
    requires ArePackets(ps) && ArePackets(qs) && Unfinished(x) && Unfinished(y)
    requires Flatten(ps) + x == Flatten(qs) + y
    ensures ps == qs && x == y
    decreases |ps|
  {
    assert ps == [] ==> Flatten(ps) + x == x;
    assert qs == [] ==> Flatten(qs) + y == y;
    if ps == [] && qs == [] {
    } else if ps == [] {
      FlattenFront(qs);
      Seqs.Regroup(qs[0], Flatten(qs[1..]), y);
      SizeOfFront(qs[0], Flatten(qs[1..]) + y);
    } else if qs == [] {
      FlattenFront(ps);
      Seqs.Regroup(ps[0], Flatten(ps[1..]), x);
      SizeOfFront(ps[0], Flatten(ps[1..]) + x);
    } else {
      FlattenFront(ps);
      FlattenFront(qs);
      Seqs.Regroup(ps[0], Flatten(ps[1..]), x);
      Seqs.Regroup(qs[0], Flatten(qs[1..]), y);
      PacketAtFront(ps[0], Flatten(ps[1..]) + x, qs[0], Flatten(qs[1..]) + y);
      CutIsUnique(ps[1..], x, qs[1..], y);
      assert ps == [ps[0]] + ps[1..] && qs == [qs[0]] + qs[1..];
    }
  }
}
