/** How the drawing commands of the software GPU take their words from the command buffer (exec_poly,
    exec_rect and exec_line in source/hle/hle_gpu.c). */
module GpuDraw {
  import opened Words
  import opened Gp0
  import opened GpuLine
  import Seqs

  /** The words that describe one corner of a polygon: a shaded polygon has a color word for each, a
      textured one a texture word. */
  datatype Corner3 = Corner3(color: Word, place: Word, texture: Word)

  datatype Vertex = Vertex(x: int, y: int, u: Byte, v: Byte, color: nat)

  /** The flags of a polygon command. */
  datatype Shape = Shape(quad: bool, shaded: bool, textured: bool)

  function ShapeOf(cmd: Byte): Shape {
    Shape(Bit(cmd, 3), Bit(cmd, 4), Bit(cmd, 2))
  }

  function Corners(shape: Shape): nat {
    if shape.quad then 4 else 3
  }

  // ---- the packet format ----

  /** The words of corner i: the first corner's color is in the command word. */
  function CornerWords(shape: Shape, i: nat, c: Corner3): seq<Word> {
    (if shape.shaded && i > 0 then [c.color] else []) + [c.place] + (if shape.textured then [c.texture] else [])
  }

  function PolyWords(shape: Shape, corners: seq<Corner3>): seq<Word>
    decreases |corners|
  {
    if corners == [] then []
    else
      var last := |corners| - 1;
      PolyWords(shape, corners[..last]) + CornerWords(shape, last, corners[last])
  }

  /** A corner has no word for what its shape does not use. */
  predicate Plain(shape: Shape, i: nat, c: Corner3, w0: Word) {
    && (!shape.shaded || i == 0 ==> c.color == w0)
    && (!shape.textured ==> c.texture == 0)
  }

  lemma CornerUnique(shape: Shape, i: nat, c: Corner3, d: Corner3, w0: Word)
    requires Plain(shape, i, c, w0) && Plain(shape, i, d, w0) && CornerWords(shape, i, c) == CornerWords(shape, i, d)
    ensures c == d
  {
    var a, b := CornerWords(shape, i, c), CornerWords(shape, i, d);
    var k := if shape.shaded && i > 0 then 1 else 0;
    assert a[k] == c.place && b[k] == d.place;
    assert shape.textured ==> a[k + 1] == c.texture && b[k + 1] == d.texture;
    assert k == 1 ==> a[0] == c.color && b[0] == d.color;
  }

  /** A packet describes one list of corners only. */
  lemma {:induction false} PolyUnique(shape: Shape, a: seq<Corner3>, b: seq<Corner3>, w0: Word)
    requires |a| == |b| && PolyWords(shape, a) == PolyWords(shape, b)
    requires forall i :: 0 <= i < |a| ==> Plain(shape, i, a[i], w0) && Plain(shape, i, b[i], w0)
    ensures a == b
    decreases |a|
  {
    if a != [] {
      var last := |a| - 1;
      var x, y := PolyWords(shape, a[..last]), PolyWords(shape, b[..last]);
      var u, v := CornerWords(shape, last, a[last]), CornerWords(shape, last, b[last]);
      assert |u| == |v| && |x| == |y|;
      assert x == (x + u)[..|x|] && y == (y + v)[..|y|] && u == (x + u)[|x|..] && v == (y + v)[|y|..];
      CornerUnique(shape, last, a[last], b[last], w0);
      PolyUnique(shape, a[..last], b[..last], w0);
      Seqs.InitAndLast(a);
      Seqs.InitAndLast(b);
    }
  }

  // ---- reading it ----

  function Narrow(x: int): int {
    (x + 0x8000) % 0x1_0000 - 0x8000
  }

  function Signed16(h: Half): int {
    if h < 0x8000 then h else h - 0x1_0000
  }

  function VertexOf(c: Corner3, dx: int, dy: int): Vertex {
    Vertex(Narrow(Signed16(Low(c.place)) + dx), Narrow(Signed16(High(c.place)) + dy),
      c.texture % 0x100, c.texture / 0x100 % 0x100, c.color % 0x100_0000)
  }

  lemma CornerCount(shape: Shape, i: nat, c: Corner3)
    ensures |CornerWords(shape, i, c)| == 1 + One(shape.shaded && i > 0) + One(shape.textured)
  {
  }

  lemma {:induction false} PolyLength(shape: Shape, corners: seq<Corner3>)
    ensures |PolyWords(shape, corners)| + One(shape.shaded && corners != [])
      == |corners| * (1 + One(shape.shaded) + One(shape.textured))
    decreases |corners|
  {
    if corners != [] {
      var last := |corners| - 1;
      PolyLength(shape, corners[..last]);
      CornerCount(shape, last, corners[last]);
    }
  }

  /** Announced and used: a polygon packet has as many words as the word count says. */
  lemma PolyCountExact(w0: Word, corners: seq<Corner3>)
    requires 0x20 <= Cmd(w0) <= 0x3F && |corners| == Corners(ShapeOf(Cmd(w0)))
    ensures |[w0] + PolyWords(ShapeOf(Cmd(w0)), corners)| == WordCount(w0)
  {
    PolyLength(ShapeOf(Cmd(w0)), corners);
  }

  /** What the loop has taken is the packet of the corners it has seen. */
  predicate Taken(shape: Shape, corners: seq<Corner3>, words: seq<Word>, idx: nat) {
    1 <= idx <= |words| && words[1..idx] == PolyWords(shape, corners)
  }

  lemma TakeCorner(shape: Shape, corners: seq<Corner3>, words: seq<Word>, idx: nat, c: Corner3)
    requires Taken(shape, corners, words, idx)
    requires idx + |CornerWords(shape, |corners|, c)| <= |words|
    requires words[idx..idx + |CornerWords(shape, |corners|, c)|] == CornerWords(shape, |corners|, c)
    ensures Taken(shape, corners + [c], words, idx + |CornerWords(shape, |corners|, c)|)
  {
    var more := CornerWords(shape, |corners|, c);
    assert words[1..idx + |more|] == words[1..idx] + words[idx..idx + |more|];
    assert (corners + [c])[..|corners|] == corners;
  }

  /** There are always enough words for the corners that are left. */
  predicate Enough(shape: Shape, i: nat, idx: nat, total: nat) {
    idx + One(shape.shaded && i > 0) == 1 + i * (1 + One(shape.shaded) + One(shape.textured))
    && total == 1 + Corners(shape) * (1 + One(shape.shaded) + One(shape.textured)) - One(shape.shaded)
  }

  lemma EnoughForCorner(shape: Shape, i: nat, idx: nat, total: nat, next: nat)
    requires Enough(shape, i, idx, total) && i < Corners(shape)
    requires next == idx + One(shape.shaded && i > 0) + 1 + One(shape.textured)
    ensures next <= total && Enough(shape, i + 1, next, total)
  {
  }

  lemma CornerRead(shape: Shape, i: nat, c: Corner3, words: seq<Word>, at: nat, next: nat)
    requires next == at + One(shape.shaded && i > 0) + 1 + One(shape.textured) <= |words|
    requires shape.shaded && i > 0 ==> c.color == words[at]
    requires c.place == words[at + One(shape.shaded && i > 0)]
    requires shape.textured ==> c.texture == words[next - 1]
    ensures words[at..next] == CornerWords(shape, i, c)
  {
  }

  /** The palette comes with the first corner's texture word and the page with the second's; without
      texture they stay. */
  function PageOf(shape: Shape, corners: seq<Corner3>, i: nat, page: Half): Half {
    if shape.textured && i < |corners| then High(corners[i].texture) else page
  }

  /** One pass of that loop. */
  method ReadCorner(words: seq<Word>, shape: Shape, i: nat, at: nat) returns (c: Corner3, idx: nat)
    requires words != [] && i < Corners(shape) && Enough(shape, i, at, |words|)
    ensures at <= idx <= |words| && words[at..idx] == CornerWords(shape, i, c) && idx == at + |CornerWords(shape, i, c)|
    ensures Enough(shape, i + 1, idx, |words|) && Plain(shape, i, c, words[0])
  {
    EnoughForCorner(shape, i, at, |words|, at + One(shape.shaded && i > 0) + 1 + One(shape.textured));
    idx := at;
    var color, texture := words[0], 0;
    if i > 0 && shape.shaded {
      color := words[idx];
      idx := idx + 1;
    }
    var place := words[idx];
    idx := idx + 1;
    if shape.textured {
      texture := words[idx];
      idx := idx + 1;
    }
    c := Corner3(color, place, texture);
    CornerRead(shape, i, c, words, at, idx);
    CornerCount(shape, i, c);
  }

  /** What the loop has after some corners: they are read, and the vertices, the palette and the page are theirs. */
  ghost predicate Reading(words: seq<Word>, shape: Shape, dx: int, dy: int, oldClut: Half, oldPage: Half,
    corners: seq<Corner3>, verts: seq<Vertex>, clut: Half, page: Half, idx: nat)
  {
    words != [] && |corners| == |verts| && Taken(shape, corners, words, idx)
    && clut == PageOf(shape, corners, 0, oldClut) && page == PageOf(shape, corners, 1, oldPage)
    && forall k ::
         0 <= k < |corners| ==> Plain(shape, k, corners[k], words[0]) && verts[k] == VertexOf(corners[k], dx, dy)
  }

  lemma ReadingStarts(words: seq<Word>, shape: Shape, dx: int, dy: int, oldClut: Half, oldPage: Half)
    requires words != [] && 0x20 <= Cmd(words[0]) <= 0x3F && |words| == WordCount(words[0])
      && shape == ShapeOf(Cmd(words[0]))
    ensures Reading(words, shape, dx, dy, oldClut, oldPage, [], [], oldClut, oldPage, 1) && Enough(shape, 0, 1, |words|)
  {
  }

  lemma ReadingGoesOn(words: seq<Word>, shape: Shape, dx: int, dy: int, oldClut: Half, oldPage: Half,
    corners: seq<Corner3>, verts: seq<Vertex>, clut: Half, page: Half, idx: nat,
    c: Corner3, clut': Half, page': Half, next: nat)
    requires Reading(words, shape, dx, dy, oldClut, oldPage, corners, verts, clut, page, idx)
    requires idx <= next <= |words| && words[idx..next] == CornerWords(shape, |corners|, c)
      && Plain(shape, |corners|, c, words[0])
    requires clut' == if shape.textured && |corners| == 0 then High(c.texture) else clut
    requires page' == if shape.textured && |corners| == 1 then High(c.texture) else page
    ensures Reading(words, shape, dx, dy, oldClut, oldPage, corners + [c], verts + [VertexOf(c, dx, dy)], clut',
      page', next)
  {
    hide CornerWords, PolyWords, Taken, Plain, VertexOf, High;
    TakeCorner(shape, corners, words, idx, c);
  }

  lemma ReadingEnds(words: seq<Word>, shape: Shape, dx: int, dy: int, oldClut: Half, oldPage: Half,
    corners: seq<Corner3>, verts: seq<Vertex>, clut: Half, page: Half, idx: nat)
    requires Reading(words, shape, dx, dy, oldClut, oldPage, corners, verts, clut, page, idx)
    requires |corners| == Corners(shape) && Enough(shape, |corners|, idx, |words|)
    ensures words == [words[0]] + PolyWords(shape, corners) && idx == |words|
    ensures clut == PageOf(shape, corners, 0, oldClut) && page == PageOf(shape, corners, 1, oldPage)
    ensures forall i :: 0 <= i < |corners| ==> Plain(shape, i, corners[i], words[0])
    ensures |verts| == |corners| && forall i :: 0 <= i < |corners| ==> verts[i] == VertexOf(corners[i], dx, dy)
  {
    hide Plain, PageOf, CornerWords, PolyWords, VertexOf, High;
    assert idx == |words| && words[1..idx] == words[1..];
    Seqs.HeadTail(words);
  }

  /** The loop of exec_poly over the corners: it reads every word after the first exactly once, in order,
      and none beyond the last. */
  method ReadPoly(words: seq<Word>, dx: int, dy: int, oldClut: Half, oldPage: Half)
    returns (corners: seq<Corner3>, verts: seq<Vertex>, clut: Half, page: Half, idx: nat)
    requires words != [] && 0x20 <= Cmd(words[0]) <= 0x3F && |words| == WordCount(words[0])
    ensures words == [words[0]] + PolyWords(ShapeOf(Cmd(words[0])), corners) && idx == |words|
    ensures |corners| == |verts| == Corners(ShapeOf(Cmd(words[0])))
    ensures forall i :: 0 <= i < |corners| ==> Plain(ShapeOf(Cmd(words[0])), i, corners[i], words[0])
    ensures clut == PageOf(ShapeOf(Cmd(words[0])), corners, 0, oldClut)
    ensures page == PageOf(ShapeOf(Cmd(words[0])), corners, 1, oldPage)
    ensures forall i :: 0 <= i < |corners| ==> verts[i] == VertexOf(corners[i], dx, dy)
  {
    hide Reading, Taken, Enough, Plain, PageOf, CornerWords, PolyWords, VertexOf, High, WordCount;
    var w0 := words[0];
    var shape := ShapeOf(Cmd(w0));
    var n := Corners(shape);
    idx := 1;
    corners, verts, clut, page := [], [], oldClut, oldPage;
    ReadingStarts(words, shape, dx, dy, oldClut, oldPage);
    for i := 0 to n
      invariant |corners| == |verts| == i && Enough(shape, i, idx, |words|)
      invariant Reading(words, shape, dx, dy, oldClut, oldPage, corners, verts, clut, page, idx)
    {
      ghost var at, clut0, page0 := idx, clut, page;
      var c: Corner3;
      c, idx := ReadCorner(words, shape, i, idx);
      if shape.textured && i == 0 { clut := High(c.texture); }
      if shape.textured && i == 1 { page := High(c.texture); }
      ReadingGoesOn(words, shape, dx, dy, oldClut, oldPage, corners, verts, clut0, page0, at, c, clut, page, idx);
      corners := corners + [c];
      verts := verts + [VertexOf(c, dx, dy)];
    }
    ReadingEnds(words, shape, dx, dy, oldClut, oldPage, corners, verts, clut, page, idx);
  }

  // ---- rectangles and lines ----

  datatype Sprite = Sprite(x: int, y: int, texture: Word, w: Half, h: Half)

  function SizeCode(w0: Word): nat {
    w0 / 0x800_0000 % 4
  }

  /** The words after the command word. */
  function SpriteWords(w0: Word, place: Word, texture: Word, size: Word): seq<Word> {
    [place] + (if Bit(Cmd(w0), 2) then [texture] else []) + (if SizeCode(w0) == 0 then [size] else [])
  }

  /** The word consumption of exec_rect. */
  method ReadRect(words: seq<Word>) returns (place: Word, texture: Word, size: Word, w: Half, h: Half, idx: nat)
    requires words != [] && 0x60 <= Cmd(words[0]) <= 0x7F && |words| == WordCount(words[0])
    ensures words == [words[0]] + SpriteWords(words[0], place, texture, size) && idx == |words|
    ensures (w, h) == match SizeCode(words[0]) case 0 => (Low(size), High(size)) case 1 => (1, 1) case 2 =>
      (8, 8) case _ => (16, 16)
  {
    var w0 := words[0];
    place := words[1];
    idx := 2;
    texture, size, w, h := 0, 0, 0, 0;
    if Bit(Cmd(w0), 2) {
      texture := words[idx];
      idx := idx + 1;
    }
    var code := w0 / 0x800_0000 % 4;
    if code == 0 {
      size := words[idx];
      idx := idx + 1;
      w, h := Low(size), High(size);
    } else if code == 1 {
      w, h := 1, 1;
    } else if code == 2 {
      w, h := 8, 8;
    } else {
      w, h := 16, 16;
    }
  }

  // ---- lines ----

  /** The drawing settings that lines use: the drawing area, the offset and the blending mode. */
  datatype Settings = Settings(left: nat, top: nat, right: nat, bottom: nat, dx: int, dy: int, mode: nat)

  type Fifth = x: nat | x < 32

  function AtMost31(v: int): Fifth {
    if v > 31 then 31 else if v < 0 then 0 else v
  }

  /** One color component of gpu_blend_pixel: half of both, the sum, the difference, a quarter on top. */
  function BlendPart(mode: nat, back: Fifth, front: Fifth): Fifth {
    match mode
    case 0 => (back as int + front) / 2
    case 1 => AtMost31(back as int + front)
    case 2 => AtMost31(back as int - front)
    case 3 => AtMost31(back as int + front / 4)
    case _ => front
  }

  function Blend(mode: nat, back: Half, front: Half): Half {
    BlendPart(mode, back % 32, front % 32) + BlendPart(mode, back / 32 % 32, front / 32 % 32) * 32
    + BlendPart(mode, back / 1024 % 32, front / 1024 % 32) * 1024 + front / 0x8000 * 0x8000
  }

  function PenOf(w0: Word, s: Settings): Pen {
    Pen(s.left, s.top, s.right, s.bottom, Color15(w0), (back: Half, front: Half) =>
        Blend(s.mode, back, front), Bit(Cmd(w0), 1))
  }

  /** Where a position word puts an end of the line: 16-bit sums with the drawing offset. */
  function EndAt(w: Word, s: Settings): Point {
    Point(Narrow(Signed16(Low(w)) + s.dx), Narrow(Signed16(High(w)) + s.dy))
  }

  lemma NarrowApart(a: Half, b: Half, d: int)
    requires Narrow(Signed16(a) + d) == Narrow(Signed16(b) + d)
    ensures a == b
  {
  }

  /** Different position words are different ends, whatever the offset. */
  lemma EndsApart(a: Word, b: Word, s: Settings)
    requires EndAt(a, s) == EndAt(b, s)
    ensures a == b
  {
    NarrowApart(Low(a), Low(b), s.dx);
    NarrowApart(High(a), High(b), s.dy);
  }

  /** A line packet: its color, its ends, and for a shaded line the color of the second end before it. */
  function LineWords(w0: Word, from: Word, color: Word, to: Word): seq<Word> {
    [w0, from] + (if Bit(Cmd(w0), 4) then [color] else []) + [to]
  }

  /** exec_line: the pen and the ends from the packet, then the loop. The ghost parameters name what the
      packet was made of: the line that is drawn joins its two ends if and only if it is not shaded, or
      its second color happens to be the word of its second end. */
  method DrawLine(words: seq<Word>, s: Settings, vram: array<Half>, ghost from: Word, ghost color: Word, ghost to: Word)
    returns (ghost points: seq<Point>)
    requires words != [] && 0x40 <= Cmd(words[0]) <= 0x5F && words == LineWords(words[0], from, color, to)
      && vram.Length == WIDTH * HEIGHT
    modifies vram
    ensures vram[..] == DrawAll(old(vram[..]), PenOf(words[0], s), points)
    ensures IsLine(points, EndAt(from, s), EndAt(if Bit(Cmd(words[0]), 4) then color else to, s))
    ensures IsLine(points, EndAt(from, s), EndAt(to, s)) <==> !Bit(Cmd(words[0]), 4) || color == to
  {
    var p, q := EndAt(words[1], s), EndAt(words[2], s);
    points := ExecLine(vram, PenOf(words[0], s), p, q);
    LineExact(words[0], from, color, to, s, points);
  }

  /** A line has one second end. */
  lemma LineExact(w0: Word, from: Word, color: Word, to: Word, s: Settings, points: seq<Point>)
    requires 0x40 <= Cmd(w0) <= 0x5F
    requires IsLine(points, EndAt(LineWords(w0, from, color, to)[1], s), EndAt(LineWords(w0, from, color, to)[2], s))
    ensures |LineWords(w0, from, color, to)| == WordCount(w0)
    ensures IsLine(points, EndAt(from, s), EndAt(to, s)) <==> !Bit(Cmd(w0), 4) || color == to
  {
    var words := LineWords(w0, from, color, to);
    if Bit(Cmd(w0), 4) {
      assert words == [w0, from, color, to];
      if IsLine(points, EndAt(from, s), EndAt(to, s)) {
        EndsApart(color, to, s);
      }
    } else {
      assert words == [w0, from, to];
    }
  }

  /** The whole VRAM, no offset. */
  const FULL: Settings := Settings(0, 0, 1023, 511, 0, 0, 0)

  lemma StrayBits()
    ensures Cmd(0x5000_FF00) == 0x50 && Bit(0x50, 4) && !Bit(0x50, 1) && Color15(0x5000_FF00) == 0x3E0
  {
    assert Pow2(4) == 16 && Pow2(1) == 2;
  }

  lemma SmallEnd(w: Word, s: Settings)
    requires w < 0x8000 && s.dx == 0 && s.dy == 0
    ensures EndAt(w, s) == Point(w, 0)
  {
    assert Low(w) == w && High(w) == 0;
  }

  lemma LastDrawn(v: Vram, pen: Pen, points: seq<Point>, r: Point)
    requires points != [] && points[|points| - 1] == r && Inside(pen, r) && !pen.semi
    ensures r.y * WIDTH + r.x < WIDTH * HEIGHT && DrawAll(v, pen, points)[r.y * WIDTH + r.x] == pen.color
  {
    DrawLast(v, pen, points[..|points| - 1], r);
    assert points == points[..|points| - 1] + [r];
  }

  lemma LineReaches(points: seq<Point>, p: Point, q: Point)
    requires IsLine(points, p, q)
    ensures |points| == Max(Abs(q.x - p.x), Abs(q.y - p.y)) + 1 && points[|points| - 1] == q
  {
  }

  lemma StrayPen(w0: Word, pen: Pen)
    requires pen == PenOf(w0, FULL) && Cmd(w0) == 0x50 && !Bit(0x50, 1)
    ensures Inside(pen, Point(255, 0)) && !pen.semi && pen.color == Color15(w0)
  {
  }

  /** A green shaded line from (0, 0) to (10, 0) whose second color is red, the number 255: it is drawn to
      (255, 0), and paints a pixel that is not on the line. */
  lemma ShadedStray(w0: Word, v: Vram, points: seq<Point>, pen: Pen)
    requires w0 == 0x5000_FF00 && pen == PenOf(w0, FULL)
    requires IsLine(points, EndAt(LineWords(w0, 0, 0xFF, 10)[1], FULL), EndAt(LineWords(w0, 0, 0xFF, 10)[2], FULL))
    ensures EndAt(10, FULL) == Point(10, 0) && !IsLine(points, EndAt(0, FULL), EndAt(10, FULL))
    ensures |points| == 256 && points[255] == Point(255, 0) && DrawAll(v, pen, points)[255] == 0x3E0
  {
    StrayBits();
    LineExact(w0, 0, 0xFF, 10, FULL, points);
    ShadedWords(w0, 0, 0xFF, 10);
    SmallEnd(0, FULL);
    SmallEnd(0xFF, FULL);
    SmallEnd(10, FULL);
    StrayPaints(w0, v, points, pen);
  }

  lemma ShadedWords(w0: Word, from: Word, color: Word, to: Word)
    requires Bit(Cmd(w0), 4)
    ensures LineWords(w0, from, color, to)[1] == from && LineWords(w0, from, color, to)[2] == color
  {
    assert LineWords(w0, from, color, to) == [w0, from, color, to];
  }

  lemma StrayPaints(w0: Word, v: Vram, points: seq<Point>, pen: Pen)
    requires w0 == 0x5000_FF00 && pen == PenOf(w0, FULL) && IsLine(points, Point(0, 0), Point(255, 0))
    ensures |points| == 256 && points[255] == Point(255, 0) && DrawAll(v, pen, points)[255] == 0x3E0
  {
    StrayBits();
    StrayPen(w0, pen);
    LineReaches(points, Point(0, 0), Point(255, 0));
    LastDrawn(v, pen, points, Point(255, 0));
  }
}
