/** MIPS I as the recompiler's decoder presents it (source/src/decoder.rs), and the meaning of
    every instruction that is not a control transfer. Instructions of one shape share a
    constructor; the operation enumerations keep the decoder's names. */
module Mips {
  import opened Words

  type Reg = x: int | 0 <= x < 32

  datatype ShiftOp = Sll | Srl | Sra
  datatype AluOp = Add | Addu | Sub | Subu | And | Or | Xor | Nor | Slt | Sltu
  datatype ImmOp = Addi | Addiu | Slti | Sltiu | Andi | Ori | Xori
  datatype LoadOp = Lb | Lh | Lw | Lbu | Lhu | Lwl | Lwr
  datatype StoreOp = Sb | Sh | Sw | Swl | Swr
  datatype BranchOp = Beq | Bne | Blez | Bgtz | Bltz | Bgez | Bltzal | Bgezal

  datatype Inst =
    | Nop
    | Shift(shOp: ShiftOp, rd: Reg, rt: Reg, sa: Reg)
    | ShiftV(shOp: ShiftOp, rd: Reg, rt: Reg, rs: Reg)
    | Jr(rs: Reg)
    | Jalr(rd: Reg, rs: Reg)
    | Syscall
    | Break(code: Word)
    | Mfhi(rd: Reg)
    | Mthi(rs: Reg)
    | Mflo(rd: Reg)
    | Mtlo(rs: Reg)
    | Mult(rs: Reg, rt: Reg)
    | Multu(rs: Reg, rt: Reg)
    | Div(rs: Reg, rt: Reg)
    | Divu(rs: Reg, rt: Reg)
    | Alu(aluOp: AluOp, rs: Reg, rt: Reg, rd: Reg)
    | Imm(immOp: ImmOp, rs: Reg, rt: Reg, imm: Half)
    | Lui(rt: Reg, imm: Half)
    | Branch(brOp: BranchOp, rs: Reg, rt: Reg, imm: Half)
    | J(target: Word)
    | Jal(target: Word)
    | Load(ldOp: LoadOp, rs: Reg, rt: Reg, imm: Half)
    | Store(stOp: StoreOp, rs: Reg, rt: Reg, imm: Half)
    | Cop(word: Word)
    | Unknown(word: Word)

  predicate IsControlFlow(i: Inst) {
    i.Branch? || i.J? || i.Jal? || i.Jr? || i.Jalr? || i.Syscall? || i.Break?
  }

  /** Branches and jumps own a delay slot; syscall and break do not. */
  predicate HasSlot(i: Inst) {
    i.Branch? || i.J? || i.Jal? || i.Jr? || i.Jalr?
  }

  predicate Links(op: BranchOp) {
    op == Bltzal || op == Bgezal
  }

  function SignedImm(imm: Half): int {
    if imm < 0x8000 then imm else imm - 0x1_0000
  }

  function BranchTarget(pc: Word, imm: Half): Word {
    Wrap(pc + 4 + SignedImm(imm) * 4)
  }

  /** The 26-bit index times four, in the 256 MB region of pc+4: the two or-ed parts share no bit. */
  function JumpTarget(pc: Word, index: Word): Word {
    Wrap(pc + 4) / 0x1000_0000 * 0x1000_0000 + index * 4 % 0x1000_0000
  }

  /** A loaded image: the decoded instruction at each word address from base on. */
  datatype Image = Image(base: Word, insts: map<int, Inst>) {
    /** Addresses up to two words past any instruction do not wrap around. */
    ghost predicate Valid() {
      forall a <- insts :: base <= a < 0xFFFF_FFF8
    }

    /** The range and alignment test every address goes through before it is decoded. */
    predicate In(a: int) {
      a in insts
    }

    function At(a: int): Inst
      requires In(a)
    {
      insts[a]
    }
  }

  predicate InRange(base: Word, count: nat, a: int) {
    base <= a < base + 4 * count && (a - base) % 4 == 0
  }

  /** The image of a decoded program text. */
  function Loaded(base: Word, text: seq<Inst>): Image {
    Image(base, map a: int | base <= a < base + 4 * |text| && InRange(base, |text|, a) :: text[(a - base) / 4])
  }

  // ---- processor state ----

  /** Everything behind the bus: RAM and device registers, in any encoding. */
  type Bus = map<int, int>

  datatype Cpu = Cpu(r: seq<Word>, hi: Word, lo: Word, bus: Bus) {
    /** Register 0 is hardwired to zero. */
    predicate Valid() {
      |r| == 32 && r[0] == 0
    }

    function Set(d: Reg, v: Word): (c: Cpu)
      requires Valid()
      ensures c.Valid()
      ensures d != 0 ==> c.r[d] == v
      ensures forall k :: 0 <= k < 32 && (k != d || d == 0) ==> c.r[k] == r[k]
      ensures c.hi == hi && c.lo == lo && c.bus == bus
    {
      if d == 0 then this else this.(r := r[d := v])
    }
  }

  type GoodCpu = c: Cpu | c.Valid() witness Cpu(seq(32, _ => 0), 0, 0, map[])

  datatype Got8 = Got8(v: Byte, bus: Bus)
  datatype Got16 = Got16(v: Half, bus: Bus)
  datatype Got32 = Got32(v: Word, bus: Bus)

  /** The world outside the translated words: bus accesses (a read may disturb a device),
      operating-system services, coprocessors, and code outside the translated region. */
  datatype Env = Env(
    read8: (Bus, Word) -> Got8,
    read16: (Bus, Word) -> Got16,
    read32: (Bus, Word) -> Got32,
    write8: (Bus, Word, Word) -> Bus,
    write16: (Bus, Word, Word) -> Bus,
    write32: (Bus, Word, Word) -> Bus,
    syscall: GoodCpu -> GoodCpu,
    brk: (Word, GoodCpu) -> GoodCpu,
    cop: (Word, GoodCpu) -> GoodCpu,
    unknown: (Word, GoodCpu) -> GoodCpu,
    external: (Word, GoodCpu) -> GoodCpu)

  // ---- unaligned accesses (little-endian), as the runtime header defines them ----

  /** Bits of the register a LWL at byte offset o leaves alone: the low 24 - 8*o. */
  function LoadLeft(w: Word, o: nat, v: Word): Word
    requires o < 4
  {
    Wrap(ShlW(w, 8 * (3 - o)) + v % Pow2(8 * (3 - o)))
  }

  /** LWR keeps the high 8*o bits of the register. */
  function LoadRight(w: Word, o: nat, v: Word): Word
    requires o < 4
  {
    Wrap(w / Pow2(8 * o) + v / Pow2(32 - 8 * o) * Pow2(32 - 8 * o))
  }

  /** SWL keeps the high 24 - 8*o bits of the memory word. */
  function StoreLeft(w: Word, o: nat, v: Word): Word
    requires o < 4
  {
    Wrap(w / Pow2(8 * (o + 1)) * Pow2(8 * (o + 1)) + v / Pow2(8 * (3 - o)))
  }

  /** SWR keeps the low 8*o bits of the memory word. */
  function StoreRight(w: Word, o: nat, v: Word): Word
    requires o < 4
  {
    Wrap(v * Pow2(8 * o) + w % Pow2(8 * o))
  }

  // ---- instruction meaning ----

  function ShiftVal(op: ShiftOp, v: Word, s: nat): Word {
    match op
    case Sll => ShlW(v, s)
    case Srl => ShrW(v, s)
    case Sra => SarW(v, s)
  }

  function AluVal(op: AluOp, a: Word, b: Word): Word {
    match op
    case Add => Wrap(a + b)
    case Addu => Wrap(a + b)
    case Sub => Wrap(a - b)
    case Subu => Wrap(a - b)
    case And => AndW(a, b)
    case Or => OrW(a, b)
    case Xor => XorW(a, b)
    case Nor => NotW(OrW(a, b))
    case Slt => Flag(Signed(a) < Signed(b))
    case Sltu => Flag(a < b)
  }

  function ImmVal(op: ImmOp, a: Word, imm: Half): Word {
    match op
    case Addi => Wrap(a + SignedImm(imm))
    case Addiu => Wrap(a + SignedImm(imm))
    case Slti => Flag(Signed(a) < SignedImm(imm))
    case Sltiu => Flag(a < SignExtend16(imm))
    case Andi => AndW(a, imm)
    case Ori => OrW(a, imm)
    case Xori => XorW(a, imm)
  }

  function LoadVal(env: Env, op: LoadOp, bus: Bus, a: Word, old_: Word): Got32 {
    match op
    case Lb => var g := env.read8(bus, a); Got32(SignExtend8(g.v), g.bus)
    case Lbu => var g := env.read8(bus, a); Got32(g.v, g.bus)
    case Lh => var g := env.read16(bus, a); Got32(SignExtend16(g.v), g.bus)
    case Lhu => var g := env.read16(bus, a); Got32(g.v, g.bus)
    case Lw => env.read32(bus, a)
    case Lwl => var g := env.read32(bus, a / 4 * 4); Got32(LoadLeft(g.v, a % 4, old_), g.bus)
    case Lwr => var g := env.read32(bus, a / 4 * 4); Got32(LoadRight(g.v, a % 4, old_), g.bus)
  }

  function StoreBus(env: Env, op: StoreOp, bus: Bus, a: Word, v: Word): Bus {
    match op
    case Sb => env.write8(bus, a, v)
    case Sh => env.write16(bus, a, v)
    case Sw => env.write32(bus, a, v)
    case Swl => var g := env.read32(bus, a / 4 * 4); env.write32(g.bus, a / 4 * 4, StoreLeft(g.v, a % 4, v))
    case Swr => var g := env.read32(bus, a / 4 * 4); env.write32(g.bus, a / 4 * 4, StoreRight(g.v, a % 4, v))
  }

  /** A signed quotient that does not fit a word. */
  predicate DivOverflows(a: Word, b: Word) {
    a == 0x8000_0000 && b == 0xFFFF_FFFF
  }

  /** HI and LO after a division; the zero-divisor values are the R3000A's. */
  function DivHiLo(signed: bool, a: Word, b: Word): (Word, Word) {
    if b == 0 then (a, if signed && Signed(a) < 0 then 1 else 0xFFFF_FFFF)
    else if signed then
      var q := TruncDiv(Signed(a), Signed(b));
      (Wrap(Signed(a) - q * Signed(b)), Wrap(q))
    else (Wrap(a - a / b * b), ShrinkDiv(a, b))
  }

  function ShrinkDiv(a: Word, b: Word): Word
    requires b != 0
  {
    DivShrinks(a, b);
    a / b
  }

  /** The effect of one instruction that is not a control transfer. */
  function ExecPlain(env: Env, ins: Inst, c: GoodCpu): GoodCpu
    requires !IsControlFlow(ins)
  {
    match ins
    case Nop => c
    case Shift(op, rd, rt, sa) => c.Set(rd, ShiftVal(op, c.r[rt], sa))
    case ShiftV(op, rd, rt, rs) => c.Set(rd, ShiftVal(op, c.r[rt], c.r[rs] % 32))
    case Mfhi(rd) => c.Set(rd, c.hi)
    case Mthi(rs) => c.(hi := c.r[rs])
    case Mflo(rd) => c.Set(rd, c.lo)
    case Mtlo(rs) => c.(lo := c.r[rs])
    case Mult(rs, rt) =>
      var p := Signed(c.r[rs]) * Signed(c.r[rt]);
      c.(lo := Wrap(p), hi := Wrap(p / 0x1_0000_0000))
    case Multu(rs, rt) =>
      var p := (c.r[rs] as int) * c.r[rt];
      c.(lo := Wrap(p), hi := Wrap(p / 0x1_0000_0000))
    case Div(rs, rt) =>
      var (h, l) := DivHiLo(true, c.r[rs], c.r[rt]);
      c.(hi := h, lo := l)
    case Divu(rs, rt) =>
      var (h, l) := DivHiLo(false, c.r[rs], c.r[rt]);
      c.(hi := h, lo := l)
    case Alu(op, rs, rt, rd) => c.Set(rd, AluVal(op, c.r[rs], c.r[rt]))
    case Imm(op, rs, rt, imm) => c.Set(rt, ImmVal(op, c.r[rs], imm))
    case Lui(rt, imm) => c.Set(rt, imm * 0x1_0000)
    case Load(op, rs, rt, imm) =>
      var g := LoadVal(env, op, c.bus, Wrap(c.r[rs] + SignedImm(imm)), c.r[rt]);
      c.(bus := g.bus).Set(rt, g.v)
    case Store(op, rs, rt, imm) =>
      c.(bus := StoreBus(env, op, c.bus, Wrap(c.r[rs] + SignedImm(imm)), c.r[rt]))
    case Cop(w) => env.cop(w, c)
    case Unknown(w) => env.unknown(w, c)
    case _ => c
  }

  predicate Taken(op: BranchOp, a: Word, b: Word) {
    match op
    case Beq => a == b
    case Bne => a != b
    case Blez => Signed(a) <= 0
    case Bgtz => Signed(a) > 0
    case Bltz => Signed(a) < 0
    case Bgez => Signed(a) >= 0
    case Bltzal => Signed(a) < 0
    case Bgezal => Signed(a) >= 0
  }
}
