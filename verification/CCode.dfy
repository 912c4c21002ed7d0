/** The C statements written for one plain instruction (emit_plain), as syntax with a C
    meaning of their own, and the proof that they do what the instruction does. */
module CCode {
  import opened Words
  import opened Mips

  datatype BinOp = CAdd | CSub | CAnd | COr | CXor | CShl | CShr | CSar | CSLt | CULt

  /** uint32_t expressions over the global register file. CSar and CSLt cast to int32_t. */
  datatype Expr =
    | R(n: Reg)
    | Hi
    | Lo
    | Lit(w: Word)
    | Simm(raw: Half) // (int32_t)(int16_t)0x....
    | Not(e: Expr)
    | Bin(op: BinOp, a: Expr, b: Expr)

  /** The statement forms emit_plain writes. Address operands are r[rs] + simm. */
  datatype Simple =
    | Nothing
    | SetReg(d: Reg, e: Expr)
    | SetHi(e: Expr)
    | SetLo(e: Expr)
    | MulStmt(signed: bool, rs: Reg, rt: Reg)
    | DivStmt(signed: bool, rs: Reg, rt: Reg) // guarded by if (r[rt] != 0u)
    | LoadTo(d: Reg, ld: LoadOp, address: Expr)
    | LoadDiscard(address: Expr) // LW(...); with no destination
    | StoreFrom(st: StoreOp, address: Expr, src: Reg)
    | CopStub(word: Word)
    | UnknownStub(word: Word)

  function Eval(e: Expr, c: GoodCpu): Word {
    match e
    case R(n) => c.r[n]
    case Hi => c.hi
    case Lo => c.lo
    case Lit(w) => w
    case Simm(raw) => SignExtend16(raw)
    case Not(x) => NotW(Eval(x, c))
    case Bin(op, x, y) => EvalBin(op, Eval(x, c), Eval(y, c))
  }

  function EvalBin(op: BinOp, a: Word, b: Word): Word {
    match op
    case CAdd => Wrap(a + b)
    case CSub => Wrap(a - b)
    case CAnd => AndW(a, b)
    case COr => OrW(a, b)
    case CXor => XorW(a, b)
    case CShl => ShlW(a, b)
    case CShr => ShrW(a, b)
    case CSar => SarW(a, b)
    case CSLt => Flag(Signed(a) < Signed(b))
    case CULt => Flag(a < b)
  }

  /** C's / and % on int32_t (both truncate) or uint32_t. INT_MIN / -1 is undefined in C; this
      reading of it is never relied on. */
  function ExecDiv(signed: bool, a: Word, b: Word, c: GoodCpu): GoodCpu {
    if b == 0 then c
    else if signed then
      var q := TruncDiv(Signed(a), Signed(b));
      c.(lo := Wrap(q), hi := Wrap(Signed(a) - Signed(b) * q))
    else c.(lo := ShrinkDiv(a, b), hi := a % b)
  }

  function Exec(env: Env, s: Simple, c: GoodCpu): GoodCpu {
    match s
    case Nothing => c
    case SetReg(d, e) => c.Set(d, Eval(e, c))
    case SetHi(e) => c.(hi := Eval(e, c))
    case SetLo(e) => c.(lo := Eval(e, c))
    case MulStmt(signed, rs, rt) =>
      var p := if signed then Signed(c.r[rs]) * Signed(c.r[rt]) else (c.r[rs] as int) * c.r[rt];
      c.(lo := Wrap(p), hi := Wrap(p / 0x1_0000_0000))
    case DivStmt(signed, rs, rt) => ExecDiv(signed, c.r[rs], c.r[rt], c)
    case LoadTo(d, ld, address) =>
      var g := LoadVal(env, ld, c.bus, Eval(address, c), c.r[d]);
      c.(bus := g.bus).Set(d, g.v)
    case LoadDiscard(address) => c.(bus := LoadVal(env, Lw, c.bus, Eval(address, c), 0).bus)
    case StoreFrom(st, address, src) => c.(bus := StoreBus(env, st, c.bus, Eval(address, c), c.r[src]))
    case CopStub(w) => env.cop(w, c)
    case UnknownStub(w) => env.unknown(w, c)
  }

  // ---- emit_plain ----

  function Assign(d: Reg, e: Expr): Simple {
    if d != 0 then SetReg(d, e) else Nothing
  }

  function Addr(rs: Reg, imm: Half): Expr {
    Bin(CAdd, R(rs), Simm(imm))
  }

  function ShiftCode(op: ShiftOp): BinOp {
    match op
    case Sll => CShl
    case Srl => CShr
    case Sra => CSar
  }

  function AluCode(op: AluOp, a: Expr, b: Expr): Expr {
    match op
    case Add => Bin(CAdd, a, b)
    case Addu => Bin(CAdd, a, b)
    case Sub => Bin(CSub, a, b)
    case Subu => Bin(CSub, a, b)
    case And => Bin(CAnd, a, b)
    case Or => Bin(COr, a, b)
    case Xor => Bin(CXor, a, b)
    case Nor => Not(Bin(COr, a, b))
    case Slt => Bin(CSLt, a, b)
    case Sltu => Bin(CULt, a, b)
  }

  function ImmCode(op: ImmOp, a: Expr, imm: Half): Expr {
    match op
    case Addi => Bin(CAdd, a, Simm(imm))
    case Addiu => Bin(CAdd, a, Simm(imm))
    case Slti => Bin(CSLt, a, Simm(imm))
    case Sltiu => Bin(CULt, a, Simm(imm))
    case Andi => Bin(CAnd, a, Lit(imm))
    case Ori => Bin(COr, a, Lit(imm))
    case Xori => Bin(CXor, a, Lit(imm))
  }

  function EmitPlain(ins: Inst): Simple
    requires !IsControlFlow(ins)
  {
    match ins
    case Nop => Nothing
    case Shift(op, rd, rt, sa) => Assign(rd, Bin(ShiftCode(op), R(rt), Lit(sa)))
    case ShiftV(op, rd, rt, rs) => Assign(rd, Bin(ShiftCode(op), R(rt), Bin(CAnd, R(rs), Lit(31))))
    case Mfhi(rd) => Assign(rd, Hi)
    case Mthi(rs) => SetHi(R(rs))
    case Mflo(rd) => Assign(rd, Lo)
    case Mtlo(rs) => SetLo(R(rs))
    case Mult(rs, rt) => MulStmt(true, rs, rt)
    case Multu(rs, rt) => MulStmt(false, rs, rt)
    case Div(rs, rt) => DivStmt(true, rs, rt)
    case Divu(rs, rt) => DivStmt(false, rs, rt)
    case Alu(op, rs, rt, rd) => Assign(rd, AluCode(op, R(rs), R(rt)))
    case Imm(op, rs, rt, imm) => Assign(rt, ImmCode(op, R(rs), imm))
    case Lui(rt, imm) => Assign(rt, Bin(CShl, Lit(imm), Lit(16)))
    case Load(op, rs, rt, imm) =>
      if rt != 0 then LoadTo(rt, op, Addr(rs, imm))
      else if op == Lw then LoadDiscard(Addr(rs, imm))
      else Nothing
    case Store(op, rs, rt, imm) => StoreFrom(op, Addr(rs, imm), rt)
    case Cop(w) => CopStub(w)
    case Unknown(w) => UnknownStub(w)
    case _ => Nothing
  }

  // ---- correctness ----

  /** What a division leaves in (HI, LO) is already there. */
  predicate DivAlready(signed: bool, rs: Reg, rt: Reg, c: GoodCpu) {
    DivHiLo(signed, c.r[rs], c.r[rt]) == (c.hi, c.lo)
  }

  /** When the emitted statement agrees with the instruction: a zero divisor must not be seen
      (the C skips the division), and a load other than LW into $0 must not disturb the bus
      (the C skips the read). */
  predicate PlainOk(env: Env, ins: Inst, c: GoodCpu) {
    match ins
    case Div(rs, rt) => c.r[rt] != 0 || DivAlready(true, rs, rt, c)
    case Divu(rs, rt) => c.r[rt] != 0 || DivAlready(false, rs, rt, c)
    case Load(op, rs, rt, imm) =>
      rt == 0 && op != Lw ==>
        LoadVal(env, op, c.bus, Wrap(c.r[rs] + SignedImm(imm)), 0).bus == c.bus
    case _ => true
  }

  /** INT_MIN / -1, which the emitter's own comment leaves open. */
  predicate DivUndefined(ins: Inst, c: GoodCpu) {
    ins.Div? && DivOverflows(c.r[ins.rs], c.r[ins.rt])
  }

  lemma SimmIsSigned(a: Word, raw: Half)
    ensures Wrap(a + SignExtend16(raw)) == Wrap(a + SignedImm(raw))
    ensures Signed(SignExtend16(raw)) == SignedImm(raw)
  {
  }

  /** The emitted statement and the instruction agree exactly when PlainOk holds. */
  ghost predicate Exact(env: Env, ins: Inst, c: GoodCpu)
    requires !IsControlFlow(ins)
  {
    Exec(env, EmitPlain(ins), c) == ExecPlain(env, ins, c) <==> PlainOk(env, ins, c)
  }

  lemma AssignExact(env: Env, ins: Inst, d: Reg, e: Expr, v: Word, c: GoodCpu)
    requires !IsControlFlow(ins) && PlainOk(env, ins, c)
    requires EmitPlain(ins) == Assign(d, e) && ExecPlain(env, ins, c) == c.Set(d, v)
    requires Eval(e, c) == v
    ensures Exact(env, ins, c)
  {
  }

  lemma ImmExact(env: Env, op: ImmOp, rs: Reg, rt: Reg, imm: Half, c: GoodCpu)
    ensures Exact(env, Imm(op, rs, rt, imm), c)
  {
    SimmIsSigned(c.r[rs], imm);
    AssignExact(env, Imm(op, rs, rt, imm), rt, ImmCode(op, R(rs), imm), ImmVal(op, c.r[rs], imm), c);
  }

  lemma LuiExact(env: Env, rt: Reg, imm: Half, c: GoodCpu)
    ensures Exact(env, Lui(rt, imm), c)
  {
    hide ShlW, Exact;
    ShiftBy16(imm);
    AssignExact(env, Lui(rt, imm), rt, Bin(CShl, Lit(imm), Lit(16)), imm * 0x1_0000, c);
  }

  lemma AluExact(env: Env, op: AluOp, rs: Reg, rt: Reg, rd: Reg, c: GoodCpu)
    ensures Exact(env, Alu(op, rs, rt, rd), c)
  {
    assert Eval(Bin(COr, R(rs), R(rt)), c) == OrW(c.r[rs], c.r[rt]);
    AssignExact(env, Alu(op, rs, rt, rd), rd, AluCode(op, R(rs), R(rt)), AluVal(op, c.r[rs], c.r[rt]), c);
  }

  lemma ShiftExact(env: Env, op: ShiftOp, rd: Reg, rt: Reg, sa: Reg, c: GoodCpu)
    ensures Exact(env, Shift(op, rd, rt, sa), c)
  {
    AssignExact(env, Shift(op, rd, rt, sa), rd, Bin(ShiftCode(op), R(rt), Lit(sa)), ShiftVal(op, c.r[rt], sa), c);
  }

  lemma ShiftVExact(env: Env, op: ShiftOp, rd: Reg, rt: Reg, rs: Reg, c: GoodCpu)
    ensures Exact(env, ShiftV(op, rd, rt, rs), c)
  {
    assert Pow2(5) == 32;
    LowBits(c.r[rs], 5);
    assert Eval(Bin(CAnd, R(rs), Lit(31)), c) == c.r[rs] % 32;
    AssignExact(env, ShiftV(op, rd, rt, rs), rd, Bin(ShiftCode(op), R(rt), Bin(CAnd, R(rs), Lit(31))),
                ShiftVal(op, c.r[rt], c.r[rs] % 32), c);
  }

  lemma SignedDivExact(env: Env, rs: Reg, rt: Reg, c: GoodCpu)
    requires !DivUndefined(Div(rs, rt), c)
    ensures Exact(env, Div(rs, rt), c)
  {
    var a, b := c.r[rs], c.r[rt];
    if b != 0 {
      var q := TruncDiv(Signed(a), Signed(b));
      MulCommutes(q, Signed(b));
      assert DivHiLo(true, a, b) == (Wrap(Signed(a) - Signed(b) * q), Wrap(q));
      assert ExecDiv(true, a, b, c) == c.(lo := Wrap(q), hi := Wrap(Signed(a) - Signed(b) * q));
    }
  }

  lemma MulCommutes(a: int, b: int)
    ensures a * b == b * a
  {
  }

  lemma UnsignedDivExact(env: Env, rs: Reg, rt: Reg, c: GoodCpu)
    ensures Exact(env, Divu(rs, rt), c)
  {
    var a: int, b: int := c.r[rs], c.r[rt];
    if b != 0 {
      assert a - a / b * b == a % b;
    }
  }

  lemma AddrExact(rs: Reg, imm: Half, c: GoodCpu)
    ensures Eval(Addr(rs, imm), c) == Wrap(c.r[rs] + SignedImm(imm))
  {
    SimmIsSigned(c.r[rs], imm);
    assert Eval(Simm(imm), c) == SignExtend16(imm) && Eval(R(rs), c) == c.r[rs];
  }

  lemma LoadExact(env: Env, op: LoadOp, rs: Reg, rt: Reg, imm: Half, c: GoodCpu)
    ensures Exact(env, Load(op, rs, rt, imm), c)
  {
    AddrExact(rs, imm, c);
    var ins := Load(op, rs, rt, imm);
    if rt != 0 {
      assert EmitPlain(ins) == LoadTo(rt, op, Addr(rs, imm));
    } else if op == Lw {
      assert EmitPlain(ins) == LoadDiscard(Addr(rs, imm));
    } else {
      assert EmitPlain(ins) == Nothing;
    }
  }

  lemma StoreExact(env: Env, op: StoreOp, rs: Reg, rt: Reg, imm: Half, c: GoodCpu)
    ensures Exact(env, Store(op, rs, rt, imm), c)
  {
    AddrExact(rs, imm, c);
  }

  lemma MoveExact(env: Env, ins: Inst, c: GoodCpu)
    requires ins.Nop? || ins.Mfhi? || ins.Mthi? || ins.Mflo? || ins.Mtlo? || ins.Mult? || ins.Multu? || ins.Cop?
      || ins.Unknown?
    ensures Exact(env, ins, c)
  {
  }

  /** The emitted statement has exactly the instruction's effect on registers, HI/LO and the bus
      if and only if PlainOk holds. */
  lemma EmitPlainExact(env: Env, ins: Inst, c: GoodCpu)
    requires !IsControlFlow(ins) && !DivUndefined(ins, c)
    ensures Exec(env, EmitPlain(ins), c) == ExecPlain(env, ins, c) <==> PlainOk(env, ins, c)
  {
    assert Exact(env, ins, c) by {
      match ins
      case Shift(op, rd, rt, sa) => ShiftExact(env, op, rd, rt, sa, c);
      case ShiftV(op, rd, rt, rs) => ShiftVExact(env, op, rd, rt, rs, c);
      case Alu(op, rs, rt, rd) => AluExact(env, op, rs, rt, rd, c);
      case Imm(op, rs, rt, imm) => ImmExact(env, op, rs, rt, imm, c);
      case Lui(rt, imm) => LuiExact(env, rt, imm, c);
      case Load(op, rs, rt, imm) => LoadExact(env, op, rs, rt, imm, c);
      case Store(op, rs, rt, imm) => StoreExact(env, op, rs, rt, imm, c);
      case Div(rs, rt) => SignedDivExact(env, rs, rt, c);
      case Divu(rs, rt) => UnsignedDivExact(env, rs, rt, c);
      case _ => MoveExact(env, ins, c);
    }
  }

  /** A zero divisor shows the difference: DIVU of 7 by 0 leaves the remainder 7 in HI on the
      hardware, and the emitted statement leaves HI alone. */
  lemma DivideByZeroDiffers(env: Env, c: GoodCpu)
    requires c.r[4] == 7 && c.r[5] == 0 && c.hi != 7
    ensures Exec(env, EmitPlain(Divu(4, 5)), c) != ExecPlain(env, Divu(4, 5), c)
  {
    EmitPlainExact(env, Divu(4, 5), c);
  }
}
