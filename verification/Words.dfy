/** 32-bit machine words as integers in [0, 2^32), with wrap-around written out,
    and bitwise operations on natural numbers of any width. */
module Words {
  type Word = x: int | 0 <= x < 0x1_0000_0000
  type Half = x: int | 0 <= x < 0x1_0000
  type Byte = x: int | 0 <= x < 0x100

  function Wrap(x: int): Word {
    x % 0x1_0000_0000
  }

  /** The two's complement reading of a word. */
  function Signed(w: Word): int {
    if w < 0x8000_0000 then w else w - 0x1_0000_0000
  }

  function SignExtend8(b: Byte): Word {
    if b < 0x80 then b else b + 0xFFFF_FF00
  }

  function SignExtend16(h: Half): Word {
    if h < 0x8000 then h else h + 0xFFFF_0000
  }

  function Pow2(n: nat): (p: nat)
    ensures p >= 1
  {
    if n == 0 then 1 else 2 * Pow2(n - 1)
  }

  function BitAnd(a: nat, b: nat): (r: nat)
    ensures r <= a && r <= b
    decreases a
  {
    if a == 0 then 0 else (if a % 2 == 1 && b % 2 == 1 then 1 else 0) + 2 * BitAnd(a / 2, b / 2)
  }

  function BitOr(a: nat, b: nat): (r: nat)
    ensures a <= r && b <= r
    decreases a + b
  {
    if a == 0 && b == 0 then 0 else (if a % 2 == 1 || b % 2 == 1 then 1 else 0) + 2 * BitOr(a / 2, b / 2)
  }

  function BitXor(a: nat, b: nat): (r: nat)
    decreases a + b
  {
    if a == 0 && b == 0 then 0 else (if a % 2 != b % 2 then 1 else 0) + 2 * BitXor(a / 2, b / 2)
  }

  /** Or and exclusive-or never need more bits than their operands. */
  lemma {:induction false} BitOpsFit(a: nat, b: nat, n: nat)
    requires a < Pow2(n) && b < Pow2(n)
    ensures BitOr(a, b) < Pow2(n) && BitXor(a, b) < Pow2(n)
  {
    if n > 0 {
      BitOpsFit(a / 2, b / 2, n - 1);
    }
  }

  /** Or-ing in a value shifted above every bit of a is addition. */
  lemma {:induction false} BitOrDisjoint(a: nat, b: nat, n: nat)
    requires a < Pow2(n)
    ensures BitOr(a, b * Pow2(n)) == a + b * Pow2(n)
    decreases n
  {
    if n == 0 {
      assert b * Pow2(0) == b;
      BitOrZero(b);
    } else {
      var c := b * Pow2(n - 1);
      assert b * Pow2(n) == 2 * c;
      BitOrDisjoint(a / 2, b, n - 1);
    }
  }

  lemma {:induction false} BitOrZero(b: nat)
    ensures BitOr(0, b) == b
  {
    if b > 0 {
      BitOrZero(b / 2);
    }
  }

  lemma Pow2Is5()
    ensures Pow2(5) == 0x20
  {
  }

  lemma Pow2Is16()
    ensures Pow2(16) == 0x1_0000
  {
    assert Pow2(8) == 0x100;
  }

  lemma Pow2Is32()
    ensures Pow2(32) == 0x1_0000_0000
  {
    assert Pow2(8) == 0x100;
    assert Pow2(16) == 0x1_0000;
    assert Pow2(24) == 0x100_0000;
  }

  function AndW(a: Word, b: Word): Word {
    BitAnd(a, b)
  }

  function OrW(a: Word, b: Word): Word {
    Pow2Is32();
    BitOpsFit(a, b, 32);
    BitOr(a, b)
  }

  function XorW(a: Word, b: Word): Word {
    Pow2Is32();
    BitOpsFit(a, b, 32);
    BitXor(a, b)
  }

  function NotW(a: Word): Word {
    0xFFFF_FFFF - a
  }

  function ShlW(a: Word, s: nat): Word {
    Wrap(a * Pow2(s))
  }

  function ShrW(a: Word, s: nat): (r: Word)
  {
    DivShrinks(a, Pow2(s));
    a / Pow2(s)
  }

  /** Arithmetic shift: the signed value divided by 2^s, rounded down. */
  function SarW(a: Word, s: nat): Word {
    Wrap(Signed(a) / Pow2(s))
  }

  lemma DivShrinks(a: nat, d: nat)
    requires d >= 1
    ensures 0 <= a / d <= a
  {
    var q := a / d;
    assert a == q * d + a % d;
    MulMono(q, 1, d);
  }

  function Flag(b: bool): Word {
    if b then 1 else 0
  }

  /** Quotient rounded toward zero, as C and the hardware divide signed numbers. */
  function TruncDiv(a: int, b: int): int
    requires b != 0
  {
    if a >= 0 then (if b > 0 then a / b else -(a / -b))
    else (if b > 0 then -(-a / b) else -a / -b)
  }

  lemma SmallMultiple(d: int, x: int)
    requires d > 0 && -d < d * x < d
    ensures x == 0
  {
    if x >= 1 {
      MulMono(d, 1, x);
    } else if x <= -1 {
      MulMono(d, x, -1);
    }
  }

  lemma MulMono(d: int, x: int, y: int)
    requires d >= 0 && x <= y
    ensures d * x <= d * y
  {
  }

  /** Quotient and remainder are determined by the division identity. */
  lemma DivModUnique(a: int, d: int, q: int, r: int)
    requires d > 0 && 0 <= r < d && a == d * q + r
    ensures a / d == q && a % d == r
  {
    assert d * (a / d - q) == r - a % d;
    SmallMultiple(d, a / d - q);
  }

  lemma {:induction false} AndZero(a: nat)
    ensures BitAnd(a, 0) == 0
  {
    if a > 0 {
      AndZero(a / 2);
    }
  }

  lemma ModDouble(a: nat, p: int)
    requires p >= 1
    ensures a % (2 * p) == a % 2 + 2 * (a / 2 % p)
    ensures a / (2 * p) == a / 2 / p
  {
    var q, r := a / 2 / p, a / 2 % p;
    assert a / 2 == p * q + r;
    assert 2 * (p * q) == 2 * p * q;
    DivModUnique(a, 2 * p, q, 2 * r + a % 2);
  }

  /** Masking with 2^n - 1 keeps the remainder modulo 2^n. */
  lemma {:induction false} LowBits(a: nat, n: nat)
    ensures BitAnd(a, Pow2(n) - 1) == a % Pow2(n)
    decreases n
  {
    if n == 0 {
      AndZero(a);
    } else {
      var p := Pow2(n - 1);
      var m := 2 * p - 1;
      assert m % 2 == 1 && m / 2 == p - 1;
      LowBits(a / 2, n - 1);
      ModDouble(a, p);
      if a == 0 {
        assert a % (2 * p) == 0;
      }
    }
  }

  lemma SmallRemainder(a: nat, d: nat)
    requires a < d
    ensures a % d == a && a / d == 0
  {
  }

  lemma MaskFits(a: nat, n: nat, p: nat, m: nat)
    requires p == Pow2(n) && m == p - 1 && a < p
    ensures BitAnd(a, m) == a
  {
    LowBits(a, n);
    SmallRemainder(a, p);
  }

  /** The four bytes of a word put together again. */
  lemma FourBytes(size: Word, a: nat, b: nat, c: nat, d: nat)
    requires a == size % 0x100 && b == size / 0x100 % 0x100 && c == size / 0x1_0000 % 0x100 && d == size / 0x100_0000
    ensures a + 0x100 * b + 0x1_0000 * c + 0x100_0000 * d == size
  {
    DivTwice(size, 0x100, 0x1_0000);
    DivTwice(size, 0x1_0000, 0x100_0000);
  }

  lemma DivTwice(x: nat, m: nat, n: nat)
    requires (m == 0x100 && n == 0x1_0000) || (m == 0x1_0000 && n == 0x100_0000)
    ensures x / m / 0x100 == x / n
  {
    DivModUnique(x, n, x / m / 0x100, m * (x / m % 0x100) + x % m);
  }

  lemma ShiftBy16(h: Half)
    ensures ShlW(h, 16) == h * 0x1_0000
  {
    Pow2Is16();
    var v: int := h;
    assert v * Pow2(16) == v * 0x1_0000;
  }
}
