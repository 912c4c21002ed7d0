/** Rectangles moved in and out of the VRAM and within it (image upload, read-back, fill and copy in
    source/hle/hle_gpu.c). All of them visit a rectangle row by row and wrap at the edges. */
module Blits {
  import opened Words
  import opened GpuLine
  import opened Gp0

  // ---- the wrapped rectangle ----

  lemma RowInside(r: Rect, k: nat)
    requires RectOk(r) && k < Area(r)
    ensures Row(k, r.w) < r.h && Column(k, r.w) < r.w && k == r.w * Row(k, r.w) + Column(k, r.w)
  {
    RowAndColumn(k, r.w);
    if Row(k, r.w) >= r.h {
      MulMono(r.w, r.h, Row(k, r.w));
    }
  }

  lemma WrapInjective(base: nat, a: nat, b: nat, size: nat)
    requires a < size && b < size && (base + a) % size == (base + b) % size
    ensures a == b
  {
    var q := (base + a) / size - (base + b) / size;
    assert size * q == a - b by {
      assert base + a == size * ((base + a) / size) + (base + a) % size;
      assert base + b == size * ((base + b) / size) + (base + b) % size;
    }
    SmallMultiple(size, q);
  }

  lemma SplitUnique(y: nat, x: nat, y': nat, x': nat)
    requires x < WIDTH && x' < WIDTH && y * WIDTH + x == y' * WIDTH + x'
    ensures y == y' && x == x'
  {
  }

  /** No two pixels of a rectangle go to the same place, however it wraps. */
  lemma AtInjective(r: Rect, i: nat, j: nat)
    requires RectOk(r) && i < Area(r) && j < Area(r) && At(r, i) == At(r, j)
    ensures i == j
  {
    RowInside(r, i);
    RowInside(r, j);
    SplitUnique((r.y + Row(i, r.w)) % HEIGHT, (r.x + Column(i, r.w)) % WIDTH, (r.y + Row(j, r.w)) % HEIGHT,
        (r.x + Column(j, r.w)) % WIDTH);
    WrapInjective(r.x, Column(i, r.w), Column(j, r.w), WIDTH);
    WrapInjective(r.y, Row(i, r.w), Row(j, r.w), HEIGHT);
  }

  predicate InRect(r: Rect, at: nat)
    requires RectOk(r)
  {
    exists k: nat {:trigger At(r, k)} :: k < Area(r) && At(r, k) == at
  }

  // ---- writing values ----

  /** The first n pixels of a rectangle, written in order. */
  function Written(v: Vram, r: Rect, values: seq<Half>, n: nat): Vram
    requires RectOk(r) && n <= |values|
    decreases n
  {
    if n == 0 then v else Written(v, r, values, n - 1)[At(r, n - 1) := values[n - 1]]
  }

  /** Each value is where its pixel is, and everything else is as it was. */
  lemma {:induction false} WrittenExact(v: Vram, r: Rect, values: seq<Half>, n: nat)
    requires RectOk(r) && n <= |values| && n <= Area(r)
    ensures forall k: nat {:trigger At(r, k)} :: k < n ==> Written(v, r, values, n)[At(r, k)] == values[k]
    ensures forall at: nat {:trigger v[at]} ::
              at < |v| && (forall k: nat {:trigger At(r, k)} :: k < n ==> At(r, k) != at)
              ==> Written(v, r, values, n)[at] == v[at]
    decreases n
  {
    if n > 0 {
      WrittenExact(v, r, values, n - 1);
      forall k: nat | k < n ensures Written(v, r, values, n)[At(r, k)] == values[k] {
        if k < n - 1 && At(r, k) == At(r, n - 1) {
          AtInjective(r, k, n - 1);
        }
      }
    }
  }

  // ---- upload ----

  /** The pixels an image upload puts, in order. */
  function Painted(v: Vram, events: seq<Event>): Vram
    requires forall k :: 0 <= k < |events| ==> events[k].Pixel? && events[k].at < |v|
    decreases |events|
  {
    if events == [] then v
    else
      var last := events[|events| - 1];
      Painted(v, events[..|events| - 1])[last.at := last.color]
  }

  function PixelsOf(image: seq<Word>, n: nat): (values: seq<Half>)
    requires |image| >= 3 && n <= 2 * (|image| - 3)
    ensures |values| == n
  {
    seq(n, k requires 0 <= k < n => HalfOf(image[3 + k / 2], k))
  }

  lemma PixelsWord(image: seq<Word>, n: nat, k: nat)
    requires |image| >= 3 && k < n <= 2 * (|image| - 3)
    ensures PixelsOf(image, n)[k] == HalfOf(image[3 + k / 2], k)
  {
  }

  /** An upload writes the halves of its data words over its rectangle. */
  lemma {:induction false} UploadWrites(v: Vram, image: seq<Word>, n: nat)
    requires |image| >= 3 && n <= |Pixels(image)|
    ensures Painted(v, Pixels(image)[..n])
      == Written(v, RectOf(image[1], image[2]), PixelsOf(image, |Pixels(image)|), n)
    decreases n
  {
    if n > 0 {
      UploadWrites(v, image, n - 1);
      assert Pixels(image)[..n][..n - 1] == Pixels(image)[..n - 1];
      PixelsWord(image, |Pixels(image)|, n - 1);
    }
  }

  // ---- read-back ----

  /** A rectangle on its way to the CPU; a read without one gives the latch. */
  datatype Reader = Reader(rect: Rect, done: nat, left: nat, latch: Word)

  function Request(words: seq<Word>, latch: Word): Reader
    requires |words| >= 3
  {
    var r := RectOf(words[1], words[2]);
    Reader(r, 0, Area(r), latch)
  }

  predicate ReaderOk(d: Reader) {
    d.left == 0 || (RectOk(d.rect) && d.done + d.left == Area(d.rect))
  }

  function NextPixel(d: Reader, v: Vram): Half
    requires ReaderOk(d)
  {
    if d.left == 0 then 0 else v[At(d.rect, d.done)]
  }

  function Advance(d: Reader): Reader {
    if d.left == 0 then d else d.(done := d.done + 1, left := d.left - 1)
  }

  /** gpu_get_read_latch: two pixels a word; past the end the high half is zero. */
  function ReadWord(d: Reader, v: Vram): Word
    requires ReaderOk(d)
  {
    if d.left == 0 then d.latch else NextPixel(d, v) + 0x1_0000 * NextPixel(Advance(d), v)
  }

  function AfterRead(d: Reader): (d': Reader)
    requires ReaderOk(d)
    ensures ReaderOk(d')
  {
    Advance(Advance(d))
  }

  function ReadAll(d: Reader, v: Vram, n: nat): (words: seq<Word>)
    requires ReaderOk(d)
    ensures |words| == n
    decreases n
  {
    if n == 0 then [] else [ReadWord(d, v)] + ReadAll(AfterRead(d), v, n - 1)
  }

  function AfterReads(d: Reader, n: nat): (d': Reader)
    requires ReaderOk(d)
    ensures ReaderOk(d')
    decreases n
  {
    if n == 0 then d else AfterReads(AfterRead(d), n - 1)
  }

  /** Where the reader stands after j words. */
  lemma {:induction false} ReadsAt(d: Reader, v: Vram, n: nat, j: nat)
    requires ReaderOk(d) && d.left > 0 && 2 * j < d.left && j < n
    ensures var here := d.(done := d.done + 2 * j, left := d.left - 2 * j);
            ReaderOk(here) && ReadAll(d, v, n)[j] == ReadWord(here, v)
    decreases j
  {
    if j > 0 {
      ReadsAt(AfterRead(d), v, n - 1, j - 1);
    } else {
      assert d.(done := d.done, left := d.left) == d;
    }
  }

  lemma {:induction false} ReadsEnd(d: Reader, n: nat)
    requires ReaderOk(d) && n == (d.left + 1) / 2
    ensures AfterReads(d, n).left == 0
    decreases n
  {
    if n > 0 {
      ReadsEnd(AfterRead(d), n - 1);
    }
  }

  /** The high half of an odd last word is lost. */
  function Kept(image: seq<Word>, j: nat, area: nat): Word
    requires 3 + j < |image|
  {
    if 2 * j + 1 < area then image[3 + j] else Low(image[3 + j])
  }

  lemma UploadedPixel(v: Vram, image: seq<Word>, k: nat)
    requires IsPacket(image) && IsImage(image[0]) && k < Area(RectOf(image[1], image[2]))
    ensures Painted(v, Pixels(image))[At(RectOf(image[1], image[2]), k)] == HalfOf(image[3 + k / 2], k)
  {
    var r := RectOf(image[1], image[2]);
    var n := |Pixels(image)|;
    assert n == Area(r);
    UploadWrites(v, image, n);
    assert Pixels(image)[..n] == Pixels(image);
    WrittenExact(v, r, PixelsOf(image, n), n);
    PixelsWord(image, n, k);
  }

  lemma HalfUploaded(v: Vram, image: seq<Word>, r: Rect, u: Vram, j: nat, half: nat, k: nat)
    requires IsPacket(image) && IsImage(image[0]) && r == RectOf(image[1], image[2]) && 3 + j < |image|
    requires u == Painted(v, Pixels(image)) && half < 2 && k == 2 * j + half && k < Area(r)
    ensures u[At(r, k)] == if half == 0 then Low(image[3 + j]) else High(image[3 + j])
  {
    assert k / 2 == j;
    UploadedPixel(v, image, k);
  }

  lemma WordReadsBack(v: Vram, image: seq<Word>, d: Reader, u: Vram, j: nat, k: nat)
    requires IsPacket(image) && IsImage(image[0]) && d.rect == RectOf(image[1], image[2]) && 3 + j < |image|
    requires k == 2 * j && d.done == k && d.left > 0 && k + d.left == Area(d.rect) && u == Painted(v, Pixels(image))
    ensures ReadWord(d, u) == Kept(image, j, Area(d.rect))
  {
    hide Painted, Pixels, At, RectOf, IsPacket, IsImage;
    HalfUploaded(v, image, d.rect, u, j, 0, k);
    if d.left > 1 { HalfUploaded(v, image, d.rect, u, j, 1, k + 1); }
  }

  /** An uploaded image, read back from the same rectangle, is the same words, but for the high half of
      an odd last word, and then the read is over. */
  lemma UploadReadsBack(v: Vram, image: seq<Word>, request: seq<Word>, latch: Word, n: nat)
    requires IsPacket(image) && IsImage(image[0]) && n == |image| - 3
    requires |request| == 3 && request[1] == image[1] && request[2] == image[2]
    ensures forall j {:trigger Kept(image, j, Area(RectOf(image[1], image[2])))} :: 0 <= j < n ==>
      ReadAll(Request(request, latch), Painted(v, Pixels(image)), n)[j]
          == Kept(image, j, Area(RectOf(image[1], image[2])))
    ensures AfterReads(Request(request, latch), n).left == 0
  {
    var r := RectOf(image[1], image[2]);
    var d := Request(request, latch);
    forall j | 0 <= j < n ensures ReadAll(d, Painted(v, Pixels(image)), n)[j] == Kept(image, j, Area(r)) {
      ReadsAt(d, Painted(v, Pixels(image)), n, j);
      WordReadsBack(v, image, d.(done := 2 * j, left := d.left - 2 * j), Painted(v, Pixels(image)), j, 2 * j);
    }
    ReadsEnd(d, n);
  }

  /** An upload changes nothing outside its rectangle. */
  lemma UploadStaysInside(v: Vram, image: seq<Word>, at: nat)
    requires IsPacket(image) && IsImage(image[0]) && at < |v| && !InRect(RectOf(image[1], image[2]), at)
    ensures Painted(v, Pixels(image))[at] == v[at]
  {
    var r := RectOf(image[1], image[2]);
    var n := |Pixels(image)|;
    UploadWrites(v, image, n);
    assert Pixels(image)[..n] == Pixels(image);
    WrittenExact(v, r, PixelsOf(image, n), n);
    assert forall k: nat {:trigger At(r, k)} :: k < n ==> At(r, k) != at;
  }

  // ---- copy ----

  function Moved(r: Rect, corner: Word): (m: Rect)
    requires RectOk(r)
    ensures RectOk(m) && m.w == r.w && m.h == r.h
  {
    Corner(corner, r)
  }

  /** exec_copy: pixel by pixel, reading what earlier writes have left. */
  function Copied(v: Vram, src: Rect, dst: Rect, n: nat): Vram
    requires RectOk(src) && RectOk(dst)
    decreases n
  {
    if n == 0 then v
    else
      var u := Copied(v, src, dst, n - 1);
      u[At(dst, n - 1) := u[At(src, n - 1)]]
  }

  /** Pixel k of the source as it was before the copy. */
  function SourceValues(v: Vram, src: Rect, n: nat): (values: seq<Half>)
    requires RectOk(src)
    ensures |values| == n
  {
    seq(n, k requires 0 <= k < n => v[At(src, k)])
  }

  /** The copy a caller means: the destination gets the source as it was. */
  function Meant(v: Vram, src: Rect, dst: Rect): Vram
    requires RectOk(src) && RectOk(dst)
  {
    Written(v, dst, SourceValues(v, src, Area(dst)), Area(dst))
  }

  /** Some pixel is read after it has been overwritten. */
  ghost predicate Clobbers(src: Rect, dst: Rect, n: nat)
    requires RectOk(src) && RectOk(dst)
  {
    exists k: nat, m: nat {:trigger At(dst, k), At(src, m)} :: k < m < n && At(dst, k) == At(src, m)
  }

  lemma {:induction false} CleanCopy(v: Vram, src: Rect, dst: Rect, n: nat, area: nat)
    requires RectOk(src) && RectOk(dst) && n <= area == Area(dst) && !Clobbers(src, dst, area)
    ensures Copied(v, src, dst, n) == Written(v, dst, SourceValues(v, src, area), n)
    decreases n
  {
    hide Row, Column, At;
    if n > 0 {
      CleanCopy(v, src, dst, n - 1, area);
      WrittenExact(v, dst, SourceValues(v, src, area), n - 1);
      var at := At(src, n - 1);
      forall k: nat | k < n - 1 ensures At(dst, k) != at {
      }
      assert Written(v, dst, SourceValues(v, src, area), n - 1)[at] == v[at];
    }
  }

  /** The value was in the source before the copy, at or before pixel k. */
  ghost predicate FromSource(v: Vram, src: Rect, k: nat, value: Half)
    requires RectOk(src)
  {
    exists j: nat {:trigger At(src, j)} :: j <= k && value == v[At(src, j)]
  }

  /** Every pixel of a copy in progress was a pixel of the source before, or is where it was. */
  ghost predicate Origins(v: Vram, src: Rect, dst: Rect, n: nat, u: Vram)
    requires RectOk(src) && RectOk(dst)
  {
    && (forall k: nat {:trigger At(dst, k)} :: k < n ==> FromSource(v, src, k, u[At(dst, k)]))
    && forall at: nat {:trigger u[at]} ::
         at < |u| && (forall k: nat {:trigger At(dst, k)} :: k < n ==> At(dst, k) != at) ==> u[at] == v[at]
  }

  lemma {:induction false} CopyOrigins(v: Vram, src: Rect, dst: Rect, n: nat)
    requires RectOk(src) && RectOk(dst) && n <= Area(dst)
    ensures Origins(v, src, dst, n, Copied(v, src, dst, n))
    decreases n
  {
    hide At;
    if n > 0 {
      CopyOrigins(v, src, dst, n - 1);
      OriginsGoOn(v, src, dst, n - 1, Copied(v, src, dst, n - 1));
    }
  }

  lemma SameSource(v: Vram, src: Rect, j: nat, k: nat, value: Half)
    requires RectOk(src) && j <= k && FromSource(v, src, j, value)
    ensures FromSource(v, src, k, value)
  {
  }

  /** The pixel about to be copied comes from the source, directly or by an earlier write. */
  lemma NextOrigin(v: Vram, src: Rect, dst: Rect, n: nat, u: Vram, at: nat)
    requires RectOk(src) && RectOk(dst) && Origins(v, src, dst, n, u) && at == At(src, n)
    ensures FromSource(v, src, n, u[at])
  {
    if m: nat :| m < n && At(dst, m) == at {
      SameSource(v, src, m, n, u[at]);
    } else {
      assert u[at] == v[at];
      assert At(src, n) == at;
    }
  }

  lemma OriginsGoOn(v: Vram, src: Rect, dst: Rect, n: nat, u: Vram)
    requires RectOk(src) && RectOk(dst) && n < Area(dst) && Origins(v, src, dst, n, u)
    ensures Origins(v, src, dst, n + 1, u[At(dst, n) := u[At(src, n)]])
  {
    var to, value := At(dst, n), u[At(src, n)];
    NextOrigin(v, src, dst, n, u, At(src, n));
    var u' := u[to := value];
    forall k: nat | k < n + 1 ensures FromSource(v, src, k, u'[At(dst, k)]) {
      if k < n {
        if At(dst, k) == to { AtInjective(dst, k, n); }
      }
    }
    forall at: nat | at < |u'| && (forall k: nat {:trigger At(dst, k)} :: k < n + 1 ==> At(dst, k) != at)
        ensures u'[at] == v[at] {
      assert At(dst, n) != at;
    }
  }

  /** A pixel once written stays, for no other goes there. */
  lemma {:induction false} CopyStays(v: Vram, src: Rect, dst: Rect, m: nat, n: nat)
    requires RectOk(src) && RectOk(dst) && m < n <= Area(dst)
    ensures Copied(v, src, dst, n)[At(dst, m)] == Copied(v, src, dst, m)[At(src, m)]
    decreases n
  {
    if m < n - 1 {
      CopyStays(v, src, dst, m, n - 1);
      if At(dst, m) == At(dst, n - 1) { AtInjective(dst, m, n - 1); }
    }
  }

  function Dot(at: nat): Vram
    requires at < WIDTH * HEIGHT
  {
    seq<Half>(WIDTH * HEIGHT, k => if k == at then 1 else 0)
  }

  lemma ClobberedCopy(src: Rect, dst: Rect, k: nat, m: nat)
    requires RectOk(src) && RectOk(dst) && src.w == dst.w && src.h == dst.h
    requires k < m < Area(dst) && At(dst, k) == At(src, m)
    ensures var v := Dot(At(src, m)); Copied(v, src, dst, Area(dst)) != Meant(v, src, dst)
  {
    var v := Dot(At(src, m));
    var n := Area(dst);
    CopyOrigins(v, src, dst, m);
    var j: nat :| j <= k && Copied(v, src, dst, m)[At(dst, k)] == v[At(src, j)];
    if At(src, j) == At(src, m) { AtInjective(src, j, m); }
    CopyStays(v, src, dst, m, n);
    WrittenExact(v, dst, SourceValues(v, src, n), n);
    assert Meant(v, src, dst)[At(dst, m)] == 1;
  }

  /** A copy gives the destination the source as it was, whatever the VRAM holds, if and only if no
      pixel is read after it has been overwritten. */
  lemma CopyExact(src: Rect, dst: Rect)
    requires RectOk(src) && RectOk(dst) && src.w == dst.w && src.h == dst.h
    ensures (forall v: Vram {:trigger Meant(v, src, dst)} :: Copied(v, src, dst, Area(dst)) == Meant(v, src, dst))
       <==> !Clobbers(src, dst, Area(dst))
  {
    if Clobbers(src, dst, Area(dst)) {
      var k: nat, m: nat :| k < m < Area(dst) && At(dst, k) == At(src, m);
      ClobberedCopy(src, dst, k, m);
      var v := Dot(At(src, m));
      assert Copied(v, src, dst, Area(dst)) != Meant(v, src, dst);
    } else {
      forall v: Vram ensures Copied(v, src, dst, Area(dst)) == Meant(v, src, dst) {
        CleanCopy(v, src, dst, Area(dst), Area(dst));
      }
    }
  }

  /** Two sums agree around an edge when the steps make up for where they began. */
  lemma MeetAround(x: nat, i: nat, y: nat, j: nat, size: nat)
    requires size > 0
    ensures (x + i) % size == (y + j) % size <==> (j - i) % size == (x - y) % size
  {
    SameRemainder(x + i, y + j, size);
    SameRemainder(x - y, j - i, size);
    assert (x - y) - (j - i) == (x + i) - (y + j);
  }

  lemma SameRemainder(a: int, b: int, size: nat)
    requires size > 0
    ensures a % size == b % size <==> (a - b) % size == 0
  {
    var p, q := a / size, b / size;
    assert a == size * p + a % size && b == size * q + b % size;
    if a % size == b % size {
      assert a - b == size * (p - q) by { assert size * (p - q) == size * p - size * q; }
      DivModUnique(a - b, size, p - q, 0);
    }
    if (a - b) % size == 0 {
      var d := (a - b) / size;
      assert a - b == size * d;
      assert size * (q + d) == size * q + size * d;
      DivModUnique(a, size, q + d, b % size);
    }
  }

  /** A step of less than the whole way around: forward, or back. */
  lemma StepAround(d: int, diff: int, size: nat)
    requires -(size as int) < d < size
    ensures d % size == diff % size <==> d == diff % size || d == diff % size - size
  {
    if d >= 0 { DivModUnique(d, size, 0, d); } else { DivModUnique(d, size, -1, d + size); }
  }

  predicate StepsBy(d: int, from: nat, to: nat, size: nat)
    requires size > 0
  {
    d == (to - from) % size || d == (to - from) % size - size
  }

  /** Two places from two corners are the same around an edge. */
  predicate Meet(x: nat, i: nat, y: nat, j: nat, size: nat)
    requires size > 0
  {
    (x + i) % size == (y + j) % size
  }

  lemma SamePlace(r: Rect, q: Rect, k: nat, m: nat)
    requires RectOk(r) && RectOk(q)
    ensures At(r, k) == At(q, m) <==>
              Meet(r.y, Row(k, r.w), q.y, Row(m, q.w), HEIGHT) && Meet(r.x, Column(k, r.w), q.x, Column(m, q.w), WIDTH)
  {
    hide Row, Column;
    if At(r, k) == At(q, m) {
      SplitUnique((r.y + Row(k, r.w)) % HEIGHT, (r.x + Column(k, r.w)) % WIDTH, (q.y + Row(m, q.w)) % HEIGHT,
          (q.x + Column(m, q.w)) % WIDTH);
    }
  }

  lemma SameWay(x: nat, i: nat, y: nat, j: nat, size: nat)
    requires i < size && j < size
    ensures Meet(x, i, y, j, size) <==> StepsBy(j - i, y, x, size)
  {
    MeetAround(x, i, y, j, size);
    StepAround(j - i, x - y, size);
  }

  lemma SameRows(src: Rect, dst: Rect, k: nat, m: nat, w: nat, i: nat, a: nat, j: nat, b: nat)
    requires RectOk(src) && RectOk(dst) && src.w == dst.w == w && i < HEIGHT && j < HEIGHT && a < WIDTH && b < WIDTH
    requires i == Row(k, w) && a == Column(k, w) && j == Row(m, w) && b == Column(m, w)
    ensures At(dst, k) == At(src, m) <==> StepsBy(j - i, src.y, dst.y, HEIGHT) && StepsBy(b - a, src.x, dst.x, WIDTH)
  {
    SamePlace(dst, src, k, m);
    SpotRows(src, dst, i, a, j, b);
  }

  /** Pixel k of the destination is pixel m of the source when m is as far from k in the rectangle as the
      destination is from the source, one way around or the other. */
  lemma SameSpot(src: Rect, dst: Rect, k: nat, m: nat, w: nat)
    requires RectOk(src) && RectOk(dst) && src.w == dst.w == w && src.h == dst.h && k < Area(dst) && m < Area(src)
    ensures At(dst, k) == At(src, m) <==>
              StepsBy(Row(m, w) - Row(k, w), src.y, dst.y, HEIGHT)
                  && StepsBy(Column(m, w) - Column(k, w), src.x, dst.x, WIDTH)
    ensures Row(k, w) < dst.h && Row(m, w) < src.h
  {
    hide At, Row, Column, StepsBy;
    RowInside(dst, k);
    RowInside(src, m);
    SameRows(src, dst, k, m, w, Row(k, w), Column(k, w), Row(m, w), Column(m, w));
  }

  lemma SpotRows(src: Rect, dst: Rect, i: nat, a: nat, j: nat, b: nat)
    requires i < HEIGHT && j < HEIGHT && a < WIDTH && b < WIDTH
    ensures Meet(dst.y, i, src.y, j, HEIGHT) && Meet(dst.x, a, src.x, b, WIDTH) <==>
              StepsBy(j - i, src.y, dst.y, HEIGHT) && StepsBy(b - a, src.x, dst.x, WIDTH)
  {
    SameWay(dst.y, i, src.y, j, HEIGHT);
    SameWay(dst.x, a, src.x, b, WIDTH);
  }

  lemma PixelNumber(r: Rect, i: nat, j: nat) returns (k: nat)
    requires RectOk(r) && i < r.h && j < r.w
    ensures k < Area(r) && Row(k, r.w) == i && Column(k, r.w) == j
  {
    k := i * r.w + j;
    RowAndColumn(k, r.w);
    DivModUnique(k, r.w, i, j);
    MulMono(r.w, i + 1, r.h);
    assert (i + 1) * r.w == i * r.w + r.w;
  }

  lemma RowOrder(w: nat, i: nat, a: nat, j: nat, b: nat)
    requires i < j && a < w
    ensures w * i + a < w * j + b
  {
    MulMono(w, i + 1, j);
    assert w * (i + 1) == w * i + w;
  }

  lemma LaterPixel(w: nat, k: nat, m: nat)
    requires w > 0
    ensures k < m <==> Row(k, w) < Row(m, w) || (Row(k, w) == Row(m, w) && Column(k, w) < Column(m, w))
  {
    RowAndColumn(k, w);
    RowAndColumn(m, w);
    if Row(k, w) < Row(m, w) {
      RowOrder(w, Row(k, w), Column(k, w), Row(m, w), Column(m, w));
    } else if Row(m, w) < Row(k, w) {
      RowOrder(w, Row(m, w), Column(m, w), Row(k, w), Column(k, w));
    }
  }

  /** Moved b rows down and a columns to the right, the rectangle overlaps itself and lies below, or level
      and to the right. */
  predicate Follows(r: Rect, b: int, a: int) {
    -(r.h as int) < b < r.h && -(r.w as int) < a < r.w && (b > 0 || (b == 0 && a > 0))
  }

  /** The destination follows into the source, directly or around an edge. */
  predicate FollowsInto(src: Rect, dst: Rect) {
    var b, a := (dst.y - src.y) % HEIGHT, (dst.x - src.x) % WIDTH;
    Follows(src, b, a) || Follows(src, b, a - WIDTH) || Follows(src, b - HEIGHT, a)
        || Follows(src, b - HEIGHT, a - WIDTH)
  }

  /** Whether a copy reads what it has overwritten is a test on the two corners, however the rectangles
      wrap. */
  lemma ClobbersExact(src: Rect, dst: Rect)
    requires RectOk(src) && RectOk(dst) && src.w == dst.w && src.h == dst.h
    ensures Clobbers(src, dst, Area(dst)) <==> FollowsInto(src, dst)
  {
    if Clobbers(src, dst, Area(dst)) {
      var k: nat, m: nat :| k < m < Area(dst) && At(dst, k) == At(src, m);
      ClobberFollows(src, dst, k, m);
    }
    if FollowsInto(src, dst) {
      var b, a := WayAround(src, dst);
      var k, m := FollowClobbers(src, dst, b, a);
    }
  }

  lemma WayAround(src: Rect, dst: Rect) returns (b: int, a: int)
    requires FollowsInto(src, dst)
    ensures Follows(src, b, a) && StepsBy(b, src.y, dst.y, HEIGHT) && StepsBy(a, src.x, dst.x, WIDTH)
  {
    b, a := (dst.y - src.y) % HEIGHT, (dst.x - src.x) % WIDTH;
    if !Follows(src, b, a) && !Follows(src, b, a - WIDTH) { b := b - HEIGHT; }
    if !Follows(src, b, a) { a := a - WIDTH; }
  }

  lemma ClobberFollows(src: Rect, dst: Rect, k: nat, m: nat)
    requires RectOk(src) && RectOk(dst) && src.w == dst.w && src.h == dst.h && k < m < Area(dst)
      && At(dst, k) == At(src, m)
    ensures FollowsInto(src, dst)
  {
    SameSpot(src, dst, k, m, src.w);
    LaterPixel(src.w, k, m);
    assert Follows(src, Row(m, src.w) - Row(k, src.w), Column(m, src.w) - Column(k, src.w));
  }

  lemma FollowClobbers(src: Rect, dst: Rect, b: int, a: int) returns (k: nat, m: nat)
    requires RectOk(src) && RectOk(dst) && src.w == dst.w && src.h == dst.h
    requires Follows(src, b, a) && StepsBy(b, src.y, dst.y, HEIGHT) && StepsBy(a, src.x, dst.x, WIDTH)
    ensures k < m < Area(dst) && At(dst, k) == At(src, m)
  {
    var i, j := if b >= 0 then 0 else -b, if a >= 0 then 0 else -a;
    k := PixelNumber(dst, i, j);
    m := PixelNumber(src, i + b, j + a);
    LaterPixel(src.w, k, m);
    SameSpot(src, dst, k, m, src.w);
  }

  /** Two by one pixels moved one to the right, over the edge: the first pixel ends up in all three
      places, the second is lost. */
  lemma Smears(v: Vram, src: Rect, dst: Rect)
    requires src == Rect(1022, 0, 2, 1) && dst == Rect(1023, 0, 2, 1)
    ensures At(src, 0) == 1022 && At(src, 1) == At(dst, 0) == 1023 && At(dst, 1) == 0
    ensures Meant(v, src, dst) == v[1023 := v[1022]][0 := v[1023]]
    ensures Copied(v, src, dst, Area(dst)) == v[1023 := v[1022]][0 := v[1022]]
  {
  }

  // ---- fill ----

  /** The rectangle of a fill: its left edge is a multiple of sixteen. */
  function FillRect(words: seq<Word>): (r: Rect)
    requires |words| >= 3
    ensures RectOk(r) && r.x % 16 == 0
  {
    var r := RectOf(words[1], words[2]);
    r.(x := r.x / 16 * 16)
  }

  function Filled(v: Vram, words: seq<Word>): Vram
    requires |words| >= 3
  {
    var r := FillRect(words);
    Written(v, r, seq<Half>(Area(r), _ => Color15(words[0])), Area(r))
  }

  /** A fill colors its rectangle and nothing else. */
  lemma FillExact(v: Vram, words: seq<Word>, at: nat)
    requires |words| >= 3 && at < |v|
    ensures Filled(v, words)[at] == if InRect(FillRect(words), at) then Color15(words[0]) else v[at]
  {
    var r := FillRect(words);
    WrittenExact(v, r, seq<Half>(Area(r), _ => Color15(words[0])), Area(r));
  }
}
