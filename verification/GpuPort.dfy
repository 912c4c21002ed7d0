/** The GP0 port, the VRAM and the read-back register as the C file keeps them (gpu_gp0_write,
    exec_cmd_buf, exec_fill, exec_copy and gpu_get_read_latch in source/hle/hle_gpu.c). */
module GpuPort {
  import opened Words
  import opened GpuLine
  import opened Gp0
  import opened Blits
  import Seqs

  /** The drawing of polygons, lines and rectangles, given everything the port has seen: the last event is
      the command itself. */
  type Raster = (seq<Event>, Vram) -> Vram

  function Blank(): Vram {
    seq<Half>(WIDTH * HEIGHT, _ => 0)
  }

  predicate Draws(cmd: Byte) {
    0x20 <= cmd <= 0x7F
  }

  /** The VRAM after a command. */
  function Executed(raster: Raster, log: seq<Event>, words: seq<Word>, v: Vram): Vram {
    if |words| >= 3 && Cmd(words[0]) == 0x02 then Filled(v, words)
    else if |words| >= 4 && Cmd(words[0]) == 0x80 then
      var src := RectOf(words[1], words[3]);
      Copied(v, src, Moved(src, words[2]), Area(src))
    else if |words| >= 1 && Draws(Cmd(words[0])) then raster(log, v)
    else v
  }

  function Effect(raster: Raster, log: seq<Event>, e: Event, v: Vram): Vram {
    match e
    case Pixel(at, color) => if at < |v| then v[at := color] else v
    case Setting(_) => v
    case Execute(words) => Executed(raster, log, words, v)
  }

  /** The VRAM is a function of what the port has been told. */
  function Canvas(raster: Raster, log: seq<Event>): Vram
    decreases |log|
  {
    if log == [] then Blank()
    else Effect(raster, log, log[|log| - 1], Canvas(raster, log[..|log| - 1]))
  }

  lemma CanvasGrows(raster: Raster, log: seq<Event>, e: Event)
    ensures Canvas(raster, log + [e]) == Effect(raster, log + [e], e, Canvas(raster, log))
  {
    Seqs.InitLast(log, e);
  }

  /** A new request for a read-back replaces the one before. */
  function Requested(d: Reader, e: Event): Reader {
    match e
    case Execute(words) => if |words| >= 3 && Cmd(words[0]) == 0xC0 then Request(words, d.latch) else d
    case _ => d
  }

  /** The last event of a write, if it is a request, restarts the reader. */
  function Replies(d: Reader, before: seq<Event>, after: seq<Event>): Reader {
    if |after| == |before| + 1 then Requested(d, after[|before|]) else d
  }

  lemma {:induction false} CanvasOfPixels(raster: Raster, log: seq<Event>, pixels: seq<Event>)
    requires forall k :: 0 <= k < |pixels| ==> pixels[k].Pixel? && pixels[k].at < WIDTH * HEIGHT
    ensures Canvas(raster, log + pixels) == Painted(Canvas(raster, log), pixels)
    decreases |pixels|
  {
    if pixels == [] {
      assert log + pixels == log;
    } else {
      var init, last := pixels[..|pixels| - 1], pixels[|pixels| - 1];
      Seqs.InitAndLast(pixels);
      Seqs.Regroup(log, init, [last]);
      CanvasOfPixels(raster, log, init);
      CanvasGrows(raster, log + init, last);
    }
  }

  lemma RequestAfterImage(p: Port, image: seq<Word>, request: seq<Word>)
    requires PortOk(p) && p.phase == Idle && IsPacket(image) && IsImage(image[0])
    requires |request| == 3 && Cmd(request[0]) == 0xC0
    ensures Run(p, image + request).phase == Idle
    ensures Run(p, image + request).log == p.log + Pixels(image) + [Execute(request)]
  {
    assert IsPacket(request) && Meaning(request) == [Execute(request)];
    RunSum(p, image, request);
    RunPacket(p, image);
    RunPacket(Run(p, image), request);
  }

  lemma RequestReplies(d: Reader, before: seq<Event>, request: seq<Word>)
    requires |request| == 3 && Cmd(request[0]) == 0xC0
    ensures Replies(d, before, before + [Execute(request)]) == Request(request, d.latch)
  {
    assert (before + [Execute(request)])[|before|] == Execute(request);
  }

  lemma CanvasOfImage(raster: Raster, log: seq<Event>, image: seq<Word>, request: seq<Word>)
    requires |image| >= 3 && |request| == 3 && Cmd(request[0]) == 0xC0
    ensures Canvas(raster, log + Pixels(image) + [Execute(request)]) == Painted(Canvas(raster, log), Pixels(image))
  {
    CanvasGrows(raster, log + Pixels(image), Execute(request));
    CanvasOfPixels(raster, log, Pixels(image));
  }

  /** An image sent to the port and asked back from the same rectangle comes back word for word, but for
      the high half of an odd last word, whatever was drawn before and whatever was still to be read. */
  lemma SentComesBack(raster: Raster, p: Port, image: seq<Word>, request: seq<Word>, earlier: Reader, q: Port,
      d: Reader, v: Vram, n: nat)
    requires PortOk(p) && p.phase == Idle && IsPacket(image) && IsImage(image[0]) && n == |image| - 3
    requires |request| == 3 && Cmd(request[0]) == 0xC0 && request[1] == image[1] && request[2] == image[2]
    requires q == Run(p, image + request) && v == Canvas(raster, q.log)
    requires d == Replies(earlier, p.log + Pixels(image), q.log)
    ensures q.phase == Idle && ReaderOk(d) && AfterReads(d, n).left == 0
    ensures forall j {:trigger Kept(image, j, Area(RectOf(image[1], image[2])))} :: 0 <= j < n ==>
      ReadAll(d, v, n)[j] == Kept(image, j, Area(RectOf(image[1], image[2])))
  {
    RequestAfterImage(p, image, request);
    RequestReplies(earlier, p.log + Pixels(image), request);
    CanvasOfImage(raster, p.log, image, request);
    UploadReadsBack(Canvas(raster, p.log), image, request, earlier.latch, n);
  }

  /** Pixel k is the first of a row. */
  predicate RowStarts(r: Rect, row: nat, k: nat)
    requires r.w > 0
  {
    Row(k, r.w) == row && Column(k, r.w) == 0
  }

  /** The place of the pixel in a row and a column, computed as the loops do. */
  lemma PlaceOf(r: Rect, k: nat, row: nat, column: nat)
    requires RectOk(r) && column < r.w && RowStarts(r, row, k)
    ensures At(r, k + column) == (r.y + row) % HEIGHT * WIDTH + (r.x + column) % WIDTH
  {
    RowAndColumn(k, r.w);
    RowAndColumn(k + column, r.w);
    DivModUnique(k + column, r.w, row, column);
  }

  lemma LastRow(r: Rect, k: nat)
    requires RectOk(r) && RowStarts(r, r.h, k)
    ensures k == Area(r)
  {
    RowAndColumn(k, r.w);
  }

  lemma NextRow(r: Rect, row: nat, k: nat)
    requires RectOk(r) && row < r.h && RowStarts(r, row, k)
    ensures RowStarts(r, row + 1, k + r.w) && k + r.w <= Area(r)
  {
    RowAndColumn(k, r.w);
    RowAndColumn(k + r.w, r.w);
    assert r.w * (row + 1) == r.w * row + r.w;
    DivModUnique(k + r.w, r.w, row + 1, 0);
    MulMono(r.w, row + 1, r.h);
  }

  /** The place of a pixel, by division. */
  method Place(r: Rect, done: nat) returns (at: nat)
    requires RectOk(r)
    ensures at == At(r, done)
  {
    RowAndColumn(done, r.w);
    var dx := (r.x + done % r.w) % 0x400;
    var dy := (r.y + done / r.w) % 0x200;
    at := dy * WIDTH + dx;
  }

  class Gpu {
    const raster: Raster
    const vram: array<Half>
    const buf: array<Word>
    var phase: Phase
    var got: nat
    var total: nat
    var blit: Rect
    var left: nat
    var reader: Reader
    var log: seq<Event>

    ghost predicate Shape()
      reads this
    {
      vram.Length == WIDTH * HEIGHT && buf.Length == 16 && (buf as object) != vram && got <= 16 && ReaderOk(reader)
    }

    ghost function State(): Port
      requires Shape()
      reads this, buf
    {
      Port(phase, buf[..got], total, blit, left, log)
    }

    ghost predicate Valid()
      reads this, buf, vram
    {
      && Shape() && PortOk(State()) && vram[..] == Canvas(raster, log)
      && (phase == Accumulate ==> total == WordCount(buf[0])) && (phase != Accumulate ==> got == 0)
    }

    constructor (r: Raster)
      ensures Valid() && fresh(vram) && fresh(buf) && raster == r
      ensures phase == Idle && log == [] && reader.left == 0
    {
      raster := r;
      vram := new Half[WIDTH * HEIGHT](_ => 0);
      buf := new Word[16](_ => 0);
      phase, got, total, blit, left := Idle, 0, 0, Rect(0, 0, 0, 0), 0;
      reader := Reader(Rect(0, 0, 0, 0), 0, 0, 0);
      log := [];
    }

    /** One pixel of a fill. */
    method FillPixel(r: Rect, at: nat, color: Half, ghost v: Vram, ghost values: seq<Half>, ghost k: nat)
      requires Shape() && RectOk(r) && k < |values| && values[k] == color && at == At(r, k)
      requires vram[..] == Written(v, r, values, k)
      modifies vram
      ensures vram[..] == Written(v, r, values, k + 1)
    {
      vram[at] := color;
    }

    /** One row of a fill. */
    method FillRow(r: Rect, dy: nat, color: Half, ghost v: Vram, ghost values: seq<Half>, ghost k: nat)
      requires Shape() && RectOk(r) && RowStarts(r, dy, k) && k + r.w <= |values|
      requires forall i :: 0 <= i < |values| ==> values[i] == color
      requires vram[..] == Written(v, r, values, k)
      modifies vram
      ensures vram[..] == Written(v, r, values, k + r.w)
    {
      var py := (r.y + dy) % 0x200;
      for dx := 0 to r.w
        invariant vram[..] == Written(v, r, values, k + dx)
      {
        var px := (r.x + dx) % 0x400;
        PlaceOf(r, k, dy, dx);
        FillPixel(r, py * WIDTH + px, color, v, values, k + dx);
      }
    }

    /** The rows of a fill. */
    method FillRows(r: Rect, color: Half, ghost v: Vram, ghost values: seq<Half>)
      requires Shape() && RectOk(r) && |values| == Area(r) && vram[..] == v
      requires forall i :: 0 <= i < |values| ==> values[i] == color
      modifies vram
      ensures vram[..] == Written(v, r, values, Area(r))
    {
      ghost var k: nat := 0;
      for dy := 0 to r.h
        invariant RowStarts(r, dy, k) && k <= |values| && vram[..] == Written(v, r, values, k)
      {
        NextRow(r, dy, k);
        FillRow(r, dy, color, v, values, k);
        k := k + r.w;
      }
      LastRow(r, k);
    }

    /** exec_fill */
    method Fill(words: seq<Word>)
      requires Shape() && |words| >= 3
      modifies vram
      ensures vram[..] == Filled(old(vram[..]), words)
    {
      ghost var r := FillRect(words);
      FillRows(FillRect(words), Color15(words[0]), vram[..], seq<Half>(Area(r), _ => Color15(words[0])));
    }

    method CopyPixel(src: Rect, dst: Rect, from: nat, to: nat, ghost v: Vram, ghost k: nat)
      requires Shape() && RectOk(src) && RectOk(dst) && from == At(src, k) && to == At(dst, k)
      requires vram[..] == Copied(v, src, dst, k)
      modifies vram
      ensures vram[..] == Copied(v, src, dst, k + 1)
    {
      vram[to] := vram[from];
    }

    /** One row of a copy. */
    method CopyLine(src: Rect, dst: Rect, row: nat, ghost v: Vram, ghost k: nat)
      requires Shape() && RectOk(src) && RectOk(dst) && dst.w == src.w && RowStarts(src, row, k)
      requires vram[..] == Copied(v, src, dst, k)
      modifies vram
      ensures vram[..] == Copied(v, src, dst, k + src.w)
    {
      hide At, Copied, Row, Column;
      var spy, dpy := (src.y + row) % 0x200, (dst.y + row) % 0x200;
      for col := 0 to src.w
        invariant vram[..] == Copied(v, src, dst, k + col)
      {
        var spx, dpx := (src.x + col) % 0x400, (dst.x + col) % 0x400;
        PlaceOf(src, k, row, col);
        PlaceOf(dst, k, row, col);
        CopyPixel(src, dst, spy * WIDTH + spx, dpy * WIDTH + dpx, v, k + col);
      }
    }

    /** exec_copy */
    method Copy(src: Rect, dst: Rect)
      requires Shape() && RectOk(src) && RectOk(dst) && dst.w == src.w && dst.h == src.h
      modifies vram
      ensures vram[..] == Copied(old(vram[..]), src, dst, Area(src))
    {
      ghost var v: Vram := vram[..];
      ghost var k: nat := 0;
      for row := 0 to src.h
        invariant RowStarts(src, row, k) && vram[..] == Copied(v, src, dst, k)
      {
        NextRow(src, row, k);
        CopyLine(src, dst, row, v, k);
        k := k + src.w;
      }
      LastRow(src, k);
    }

    /** The pictures the rasteriser makes are put into the VRAM as a whole. */
    method Rasterize()
      requires Shape()
      modifies vram
      ensures vram[..] == raster(log, old(vram[..]))
    {
      var picture := raster(log, vram[..]);
      forall i | 0 <= i < vram.Length {
        vram[i] := picture[i];
      }
    }

    /** exec_cmd_buf */
    method Exec()
      requires Shape() && vram[..] == Canvas(raster, log) && 1 <= got == WordCount(buf[0])
      modifies this`log, this`reader, vram
      ensures Shape() && vram[..] == Canvas(raster, log)
      ensures log == old(log) + [Execute(buf[..got])] && reader == Requested(old(reader), Execute(buf[..got]))
    {
      var words := buf[..got];
      var cmd := Cmd(words[0]);
      CanvasGrows(raster, log, Execute(words));
      log := log + [Execute(words)];
      if cmd == 0xC0 {
        var r := RectOf(words[1], words[2]);
        reader := Reader(r, 0, Area(r), reader.latch);
      } else if cmd == 0x02 {
        Fill(words);
      } else if cmd == 0x80 {
        var src := RectOf(words[1], words[3]);
        Copy(src, Moved(src, words[2]));
      } else if Draws(cmd) {
        Rasterize();
      }
    }

    method Put(at: nat, color: Half)
      requires Shape() && vram[..] == Canvas(raster, log) && at < vram.Length
      modifies this`log, vram
      ensures Shape() && vram[..] == Canvas(raster, log) && log == old(log) + [Pixel(at, color)]
    {
      CanvasGrows(raster, log, Pixel(at, color));
      vram[at] := color;
      log := log + [Pixel(at, color)];
    }

    /** One half of a data word. */
    method PutHalf(v: Word, half: nat)
      requires Shape() && RectOk(blit) && left <= Area(blit) && vram[..] == Canvas(raster, log)
      modifies this`left, this`log, vram
      ensures Shape() && vram[..] == Canvas(raster, log) && left <= Area(blit)
      ensures State() == PutPixel(old(State()), v, half)
    {
      if left > 0 {
        var done := Area(blit) - left;
        var at := Place(blit, done);
        Put(at, if half % 2 == 0 then v % 0x1_0000 else v / 0x1_0000);
        left := left - 1;
      }
    }

    /** One more word of a command, executed when it is the last. */
    method Gather(v: Word)
      requires Shape() && vram[..] == Canvas(raster, log) && PortOk(State().(phase := Idle))
      requires got < total <= 12 && total == WordCount(if got == 0 then v else buf[0])
      modifies this`got, this`total, this`phase, this`log, this`reader, vram, buf
      ensures Valid() && State() == Buffered(old(State()).(buf := old(buf[..got]) + [v]))
      ensures reader == Replies(old(reader), old(log), log)
    {
      buf[got] := v;
      got := got + 1;
      assert buf[..got] == old(buf[..got]) + [v];
      if got >= total {
        Exec();
        got, total, phase := 0, 0, Idle;
      } else {
        phase := Accumulate;
      }
    }

    /** A word of image data. */
    method DataWord(v: Word)
      requires Valid() && phase == Data
      modifies this`left, this`log, this`phase, vram
      ensures Valid() && State() == PutPair(old(State()), v)
      ensures reader == Replies(reader, old(log), log)
    {
      PutHalf(v, 0);
      PutHalf(v, 1);
      if left == 0 { phase := Idle; }
    }

    /** A word that begins a packet. */
    method FirstWord(v: Word)
      requires Valid() && phase == Idle
      modifies this`got, this`total, this`phase, this`log, this`reader, vram, buf
      ensures Valid() && State() == Begin(old(State()), v)
      ensures reader == Replies(old(reader), old(log), log)
    {
      var cmd := Cmd(v);
      if cmd == 0xA0 {
        phase := Header1;
      } else if cmd == 0x00 || cmd == 0x01 || cmd == 0x1F {
      } else if cmd / 0x20 == 7 {
        CanvasGrows(raster, log, Setting(v));
        log := log + [Setting(v)];
      } else {
        total := WordCount(v);
        assert buf[..got] + [v] == [v];
        Gather(v);
      }
    }

    /** gpu_gp0_write */
    method Gp0Write(v: Word)
      requires Valid()
      modifies this, vram, buf
      ensures Valid() && State() == Write(old(State()), v)
      ensures reader == Replies(old(reader), old(log), log)
    {
      match phase {
        case Header1 =>
          blit := Corner(v, blit);
          phase := Header2;
        case Header2 =>
          blit := Extent(v, blit);
          left := Area(blit);
          phase := if left > 0 then Data else Idle;
        case Data => DataWord(v);
        case Idle => FirstWord(v);
        case Accumulate => Gather(v);
      }
    }

    /** The next pixel of the rectangle that is read back. */
    method NextHalf() returns (h: Half)
      requires Valid() && reader.left > 0
      modifies this`reader
      ensures Valid() && h == NextPixel(old(reader), vram[..]) && reader == Advance(old(reader))
    {
      var at := Place(reader.rect, reader.done);
      h := vram[at];
      reader := reader.(done := reader.done + 1, left := reader.left - 1);
    }

    /** gpu_get_read_latch */
    method ReadLatch() returns (w: Word)
      requires Valid()
      modifies this`reader
      ensures Valid() && w == ReadWord(old(reader), vram[..]) && reader == AfterRead(old(reader))
    {
      if reader.left == 0 { return reader.latch; }
      var high: Half := 0;
      var low := NextHalf();
      if reader.left > 0 {
        high := NextHalf();
      }
      w := low + 0x1_0000 * high;
    }
  }
}
