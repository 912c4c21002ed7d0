/** The emitted program does what the original code does: every step of the delay-slot machine is
    matched by one or more steps of the generated C, as long as the step meets Ok. */
module Recompile {
  import opened Words
  import opened Mips
  import opened CCode
  import opened Emitter
  import opened Machines
  import opened Simulation
  import opened Layout
  import opened Runs
  import opened Seqs

  // ---- what a step must satisfy ----

  /** The slot is a plain word of the image, and its emitted statement is exact. */
  ghost predicate SlotOk(b: Build, env: Env, pc: Word, c: GoodCpu)
    requires b.img.In(pc)
  {
    var slot := SlotInst(b.img, pc);
    && b.img.In(pc + 4)
    && !IsControlFlow(RawSlot(b.img, pc))
    && PlainOk(env, slot, c) && !DivUndefined(slot, c)
  }

  /** A jump inside its own chunk must not land on a word written inside a branch's block. */
  ghost predicate JumpOk(b: Build, pc: Word, t: Word)
  {
    t in b.Region() && b.Key(t) == b.Key(pc) ==> !Consumed(b.Context(b.Key(pc)), t)
  }

  /** Calls and computed jumps resolve only starts; other reachable words are not entry points. */
  ghost predicate EntryOk(b: Build, t: Word) {
    t in b.Region() ==> t in b.starts
  }

  /** What the instruction's kind asks of the step; flow that continues needs a reachable word. */
  ghost predicate InsOk(b: Build, env: Env, pc: Word, c: GoodCpu, stack: seq<Word>)
    requires b.img.In(pc)
  {
    match b.img.At(pc)
    case Syscall => Wrap(pc + 4) in b.Region() && b.Key(Wrap(pc + 4)) == b.Key(pc)
    case Break(_) => Wrap(pc + 4) in b.Region() && b.Key(Wrap(pc + 4)) == b.Key(pc)
    case Branch(op, rs, rt, imm) =>
      var taken := Taken(op, c.r[rs], c.r[rt]);
      && (Links(op) ==> rs != 31 && !taken)
      && if taken then JumpOk(b, pc, BranchTarget(pc, imm)) else Wrap(pc + 8) in b.Region()
    case J(index) => JumpOk(b, pc, JumpTarget(pc, index))
    case Jal(index) => EntryOk(b, JumpTarget(pc, index))
    case Jr(rs) =>
      var closes := rs == 31 && stack != [] && c.r[31] == stack[|stack| - 1];
      if pc in b.jr then c.r[rs] == b.jr[pc] && !closes && JumpOk(b, pc, b.jr[pc])
      else if rs == 31 then closes
      else ExecPlain(env, SlotInst(b.img, pc), c).r[rs] == c.r[rs] && EntryOk(b, c.r[rs])
    case Jalr(rd, rs) =>
      && EntryOk(b, c.r[rs])
      && (pc in b.jr ==> c.r[rs] == b.jr[pc] && b.jr[pc] in b.starts)
    case _ => PlainOk(env, b.img.At(pc), c) && !DivUndefined(b.img.At(pc), c) && Wrap(pc + 4) in b.Region()
  }

  /** The conditions under which the emitted code follows one step of the original. */
  ghost predicate Ok(b: Build, env: Env, m: MState) {
    && m.Running? && m.pc in b.Region() && b.img.In(m.pc)
    && (HasSlot(b.img.At(m.pc)) ==> SlotOk(b, env, m.pc, Linked(b.img.At(m.pc), m.pc, m.cpu)))
    && InsOk(b, env, m.pc, m.cpu, m.stack)
    && var m' := MStep(b.img, env, b.Region(), m);
    m'.Running? ==> m'.pc in b.Region()
  }

  // ---- up to and through the delay slot ----

  function BeforeLocal(x: Ctx, pc: Word, v: Local): Local
    requires x.img.In(pc)
  {
    var ins := x.img.At(pc);
    var c := Linked(ins, pc, v.cpu);
    match ins
    case Branch(op, rs, rt, _) => Local(c, Taken(op, c.r[rs], c.r[rt]), v.tmp)
    case Jalr(_, rs) => Local(c, v.cond, if pc in x.jr then v.tmp else v.cpu.r[rs])
    case _ => Local(c, v.cond, v.tmp)
  }

  lemma LinkValue(env: Env, d: Reg, pc: Word, v: Local)
    ensures IsLine(Link(d, pc))
    ensures RunLine(env, Link(d, pc), v) == v.(cpu := v.cpu.Set(d, Wrap(pc + 8)))
  {
    if d != 0 {
      RunOne(env, Do(SetReg(d, Lit(Wrap(pc + 8)))), v);
    }
  }

  lemma BeforeValue(x: Ctx, env: Env, pc: Word, v: Local)
    requires x.img.In(pc) && HasSlot(x.img.At(pc))
    ensures IsLine(BeforeSlot(x, pc))
    ensures RunLine(env, BeforeSlot(x, pc), v) == BeforeLocal(x, pc, v)
  {
    hide Eval, Taken;
    match x.img.At(pc)
    case Branch(op, rs, rt, _) =>
      var link := if Links(op) then Link(31, pc) else [];
      LinkValue(env, 31, pc, v);
      RunLineAppend(env, link, [SetCond(op, rs, rt)], v);
      RunOne(env, SetCond(op, rs, rt), RunLine(env, link, v));
    case Jal(_) => LinkValue(env, 31, pc, v);
    case Jalr(rd, rs) =>
      var save := if pc in x.jr then [] else [SetTmp(rs)];
      RunLineAppend(env, save, Link(rd, pc), v);
      RunOne(env, SetTmp(rs), v);
      LinkValue(env, rd, pc, RunLine(env, save, v));
    case _ =>
  }

  lemma SlotValue(b: Build, env: Env, x: Ctx, pc: Word, v: Local)
    requires x.img == b.img && b.img.In(pc) && SlotOk(b, env, pc, v.cpu)
    ensures IsLine(SlotCode(x, pc))
    ensures RunLine(env, SlotCode(x, pc), v) == v.(cpu := ExecPlain(env, SlotInst(b.img, pc), v.cpu))
  {
    var slot := SlotInst(b.img, pc);
    var mark := if Wrap(pc + 4) in x.own then [Label(Wrap(pc + 4))] else [];
    RunLineAppend(env, mark, [Do(EmitPlain(slot))], v);
    RunOne(env, Label(Wrap(pc + 4)), v);
    RunOne(env, Do(EmitPlain(slot)), v);
    EmitPlainExact(env, slot, v.cpu);
  }

  /** From its label to the end of its delay slot, a unit with a slot is straight-line code that
      links, decides and executes the slot, in that order. */
  lemma SlotLine(b: Build, env: Env, x: Ctx, pc: Word, v: Local)
    requires x.img == b.img && b.img.In(pc) && HasSlot(b.img.At(pc))
    requires SlotOk(b, env, pc, Linked(b.img.At(pc), pc, v.cpu))
    ensures var line := [Label(pc)] + BeforeSlot(x, pc) + SlotCode(x, pc);
            && IsLine(line) && line != []
            && RunLine(env, line, v) == BeforeLocal(x, pc, v).(cpu := SlotDone(b.img, env, pc, v.cpu))
  {
    var head := [Label(pc)] + BeforeSlot(x, pc);
    BeforeValue(x, env, pc, v);
    SlotValue(b, env, x, pc, BeforeLocal(x, pc, v));
    RunOne(env, Label(pc), v);
    RunLineAppend(env, [Label(pc)], BeforeSlot(x, pc), v);
    RunLineAppend(env, head, SlotCode(x, pc), v);
  }

  /** Linking first does not change the decision when the tested register is not the link. */
  lemma CondSaved(ins: Inst, pc: Word, c: GoodCpu)
    requires ins.Branch? && (Links(ins.brOp) ==> ins.rs != 31)
    ensures Taken(ins.brOp, Linked(ins, pc, c).r[ins.rs], Linked(ins, pc, c).r[ins.rt])
      == Taken(ins.brOp, c.r[ins.rs], c.r[ins.rt])
  {
  }

  // ---- exits ----

  lemma TakenExit(b: Build, p: Program, env: Env, pc: Word, t: Word, rest: seq<Stmt>, v: Local, stack: seq<Word>,
      next: Word)
    requires Ready(b, p) && pc in b.Region() && b.img.In(pc) && v.cond
    requires JumpOk(b, pc, t) && (t in b.Region() && b.Key(t) != b.Key(pc) ==> t in b.starts)
    ensures ExitsBy(PlanOf(b), p, env, b.Key(pc), TakenCode(b.Context(b.Key(pc)), t), rest, v, stack, t, next,
      Land(env, b.Region(), t, v.cpu, stack))
  {
    OwnMeans(b, b.Key(pc), t);
    if t in b.Context(b.Key(pc)).own {
      GotoArrives(b, p, b.Key(pc), t);
    }
  }

  lemma NotTakenExit(b: Build, p: Program, env: Env, pc: Word, t: Word, v: Local, stack: seq<Word>, next: Word)
    requires Ready(b, p) && pc in b.Region() && b.img.In(pc) && !v.cond && b.img.At(pc).Branch?
    requires next == Wrap(pc + 8) && next in b.Region() && !IsControlFlow(RawSlot(b.img, pc))
    ensures var x := b.Context(b.Key(pc));
            ExitsBy(PlanOf(b), p, env, b.Key(pc), TakenCode(x, t), HandOff(x, next) + After(b, pc), v, stack, t, next,
                Running(next, v.cpu, stack))
  {
    NoWrap(b.img, pc);
    Onward(b, pc, next);
  }

  lemma CallExit(b: Build, p: Program, env: Env, pc: Word, t: Word, s: Stmt, v: Local, stack: seq<Word>, next: Word)
    requires Ready(b, p) && pc in b.Region() && b.img.In(pc) && (b.img.At(pc).Jal? || b.img.At(pc).Jalr?)
    requires next == Wrap(pc + 8) && !IsControlFlow(RawSlot(b.img, pc)) && EntryOk(b, t)
    requires (s == Call(t) && t in b.starts) || s == Dispatch(t) || (s == DispatchTmp && v.tmp == t)
    ensures var x := b.Context(b.Key(pc));
            ExitsBy(PlanOf(b), p, env, b.Key(pc), s, HandOff(x, next) + After(b, pc), v, stack, t, next,
                    Land(env, b.Region(), t, v.cpu, stack + [next]))
  {
    NoWrap(b.img, pc);
    if next in b.Region() {
      Onward(b, pc, next);
    }
  }

  lemma JumpExit(b: Build, p: Program, env: Env, pc: Word, t: Word, rest: seq<Stmt>, v: Local, stack: seq<Word>,
      next: Word)
    requires Ready(b, p) && pc in b.Region() && t != pc
    requires JumpOk(b, pc, t) && (t in b.Region() && b.Key(t) != b.Key(pc) ==> t in b.starts)
    ensures var post := Transfer(b.Context(b.Key(pc)), t, pc);
            |post| == 1 && ExitsBy(PlanOf(b), p, env, b.Key(pc), post[0], rest, v, stack, t, next,
                Land(env, b.Region(), t, v.cpu, stack))
  {
    OwnMeans(b, b.Key(pc), t);
    if t in b.Context(b.Key(pc)).own {
      GotoArrives(b, p, b.Key(pc), t);
    }
  }

  // ---- units ----

  /** The activation is at the unit of pc, with the calls of stack suspended under it. */
  ghost predicate Here(b: Build, p: Program, under: seq<Frame>, f: Frame, pc: Word, stack: seq<Word>)
    requires b.Valid()
  {
    pc in b.Region() && b.img.In(pc) && f.chunk == b.Key(pc) && RestIs(p, f, From(b, pc, 0))
        && StackRel(PlanOf(b), p, under, stack)
  }

  /** The registers, decision and saved target when the slot is done. */
  function SlotLocal(b: Build, env: Env, f: Frame, pc: Word, c: GoodCpu): Local
    requires b.img.In(pc)
  {
    var ins := b.img.At(pc);
    var c' := Linked(ins, pc, c);
    Local(SlotDone(b.img, env, pc, c),
          if ins.Branch? then Taken(ins.brOp, c'.r[ins.rs], c'.r[ins.rt]) else f.cond,
          if ins.Jalr? && pc !in b.jr then c.r[ins.rs] else f.tmp)
  }

  lemma SlotLineHook(b: Build, env: Env, f: Frame, pc: Word, c: GoodCpu, line: seq<Stmt>, hook: seq<Stmt>)
    requires b.img.In(pc) && HasSlot(b.img.At(pc)) && SlotOk(b, env, pc, Linked(b.img.At(pc), pc, c))
    requires var x := b.Context(b.Key(pc)); line == [Label(pc)] + BeforeSlot(x, pc) + SlotCode(x, pc)
    requires hook == [] || hook == [ParkTick]
    ensures IsLine(line + hook) && line + hook != []
    ensures RunLine(env, line + hook, Local(c, f.cond, f.tmp)) == SlotLocal(b, env, f, pc, c)
  {
    var v := Local(c, f.cond, f.tmp);
    SlotLine(b, env, b.Context(b.Key(pc)), pc, v);
    RunLineAppend(env, line, hook, v);
    RunOne(env, ParkTick, RunLine(env, line, v));
  }

  /** Running a unit with a slot, given how it leaves; a jump to itself passes the park hook. */
  lemma SlotUnitRuns(b: Build, p: Program, env: Env, under: seq<Frame>, f: Frame, pc: Word, c: GoodCpu,
      stack: seq<Word>, t: Word, hook: seq<Stmt>, post: seq<Stmt>, m: MState)
    returns (n: nat)
    requires Ready(b, p) && Here(b, p, under, f, pc, stack) && HasSlot(b.img.At(pc))
    requires SlotOk(b, env, pc, Linked(b.img.At(pc), pc, c))
    requires (hook == [] || hook == [ParkTick]) && AfterSlot(b.Context(b.Key(pc)), pc) + After(b, pc) == hook + post
    requires Exits(PlanOf(b), p, env, b.Key(pc), post, SlotLocal(b, env, f, pc, c), stack, t, Wrap(pc + 8), m)
    requires m.Running? ==> m.pc in b.Region()
    ensures n >= 1 && Match(PlanOf(b), p, m, CSteps(p, env, CState(under + [f], c), n))
  {
    var x := b.Context(b.Key(pc));
    var line := [Label(pc)] + BeforeSlot(x, pc) + SlotCode(x, pc);
    PlanIsOk(b, p);
    SlotUnitLayout(b, pc);
    Regroup(line, hook, post);
    SlotLineHook(b, env, f, pc, c, line, hook);
    n := UnitRuns(PlanOf(b), p, env, under, f, line + hook, post, c, stack, t, Wrap(pc + 8), m);
  }

  lemma BranchExits(b: Build, p: Program, env: Env, pc: Word, v: Local, stack: seq<Word>, t: Word, m: MState)
    requires Ready(b, p) && pc in b.Region() && b.img.In(pc) && b.img.At(pc).Branch?
      && !IsControlFlow(RawSlot(b.img, pc))
    requires t == BranchTarget(pc, b.img.At(pc).imm)
    requires if v.cond then JumpOk(b, pc, t) else Wrap(pc + 8) in b.Region()
    requires m == Land(env, b.Region(), if v.cond then t else Wrap(pc + 8), v.cpu, stack)
    ensures Exits(PlanOf(b), p, env, b.Key(pc), AfterSlot(b.Context(b.Key(pc)), pc) + After(b, pc), v, stack, t,
      Wrap(pc + 8), m)
  {
    var x := b.Context(b.Key(pc));
    var rest := HandOff(x, Wrap(pc + 8)) + After(b, pc);
    BranchLayout(b, pc, t);
    if v.cond {
      if t in b.Region() && b.Key(t) != b.Key(pc) { CrossingEdge(b, pc, t); }
      TakenExit(b, p, env, pc, t, rest, v, stack, Wrap(pc + 8));
    } else {
      NotTakenExit(b, p, env, pc, t, v, stack, Wrap(pc + 8));
    }
    ExitsIntro(PlanOf(b), p, env, b.Key(pc), TakenCode(x, t), rest, v, stack, t, Wrap(pc + 8), m);
  }

  lemma CallExits(b: Build, p: Program, env: Env, pc: Word, v: Local, stack: seq<Word>, t: Word, m: MState)
    requires Ready(b, p) && pc in b.Region() && b.img.In(pc) && !IsControlFlow(RawSlot(b.img, pc)) && EntryOk(b, t)
    requires (b.img.At(pc).Jal? && t == JumpTarget(pc, b.img.At(pc).target))
          || (b.img.At(pc).Jalr? && if pc in b.jr then t == b.jr[pc] && t in b.starts else v.tmp == t)
    requires m == Land(env, b.Region(), t, v.cpu, stack + [Wrap(pc + 8)])
    ensures Exits(PlanOf(b), p, env, b.Key(pc), AfterSlot(b.Context(b.Key(pc)), pc) + After(b, pc), v, stack, t,
      Wrap(pc + 8), m)
  {
    var x := b.Context(b.Key(pc));
    var s := if b.img.At(pc).Jal? then CallCode(x, t) else if pc !in b.jr then DispatchTmp else Call(t);
    CallLayout(b, pc, s);
    CallExit(b, p, env, pc, t, s, v, stack, Wrap(pc + 8));
    ExitsIntro(PlanOf(b), p, env, b.Key(pc), s, HandOff(x, Wrap(pc + 8)) + After(b, pc), v, stack, t, Wrap(pc + 8), m);
  }

  lemma JumpLandsWell(b: Build, pc: Word, t: Word)
    requires b.Valid() && pc in b.Region() && b.img.In(pc) && JumpsTo(b, pc, t) && t in b.Region()
      && b.Key(t) != b.Key(pc)
    ensures t in b.starts
  {
    if b.img.At(pc).J? { CrossingEdge(b, pc, t); } else { ResolvedStart(b, pc); }
  }

  lemma JumpExits(b: Build, p: Program, env: Env, pc: Word, v: Local, stack: seq<Word>, t: Word, m: MState)
    requires Ready(b, p) && pc in b.Region() && b.img.In(pc) && JumpsTo(b, pc, t) && t != pc
    requires JumpOk(b, pc, t) && m == Land(env, b.Region(), t, v.cpu, stack)
    ensures Exits(PlanOf(b), p, env, b.Key(pc), AfterSlot(b.Context(b.Key(pc)), pc) + After(b, pc), v, stack, t,
      Wrap(pc + 8), m)
  {
    JumpLayout(b, pc, t);
    if t in b.Region() && b.Key(t) != b.Key(pc) { JumpLandsWell(b, pc, t); }
    JumpExit(b, p, env, pc, t, After(b, pc), v, stack, Wrap(pc + 8));
    ExitsIntro(PlanOf(b), p, env, b.Key(pc), Transfer(b.Context(b.Key(pc)), t, pc)[0], After(b, pc), v, stack, t,
        Wrap(pc + 8), m);
  }

  lemma ParkExits(b: Build, p: Program, env: Env, pc: Word, v: Local, stack: seq<Word>)
    requires Ready(b, p) && pc in b.Region() && b.img.In(pc) && JumpsTo(b, pc, pc) && JumpOk(b, pc, pc)
    ensures AfterSlot(b.Context(b.Key(pc)), pc) + After(b, pc) == [ParkTick] + ([Goto(pc)] + After(b, pc))
    ensures Exits(PlanOf(b), p, env, b.Key(pc), [Goto(pc)] + After(b, pc), v, stack, pc, Wrap(pc + 8),
      Running(pc, v.cpu, stack))
  {
    ParkLayout(b, pc);
    GotoArrives(b, p, b.Key(pc), pc);
    ExitsIntro(PlanOf(b), p, env, b.Key(pc), Goto(pc), After(b, pc), v, stack, pc, Wrap(pc + 8),
        Running(pc, v.cpu, stack));
  }

  lemma ReturnExits(b: Build, p: Program, env: Env, pc: Word, v: Local, stack: seq<Word>, t: Word)
    requires Ready(b, p) && pc in b.Region() && b.img.In(pc) && b.img.At(pc) == Jr(31) && pc !in b.jr
    ensures Exits(PlanOf(b), p, env, b.Key(pc), AfterSlot(b.Context(b.Key(pc)), pc) + After(b, pc), v, stack, t,
      Wrap(pc + 8), ReturnTo(v.cpu, stack))
  {
    ReturnLayout(b, pc, 31, Return);
    ExitsIntro(PlanOf(b), p, env, b.Key(pc), Return, After(b, pc), v, stack, t, Wrap(pc + 8), ReturnTo(v.cpu, stack));
  }

  lemma ComputedExits(b: Build, p: Program, env: Env, pc: Word, rs: Reg, v: Local, stack: seq<Word>, t: Word, m: MState)
    requires Ready(b, p) && pc in b.Region() && b.img.In(pc) && b.img.At(pc) == Jr(rs) && rs != 31 && pc !in b.jr
    requires v.cpu.r[rs] == t && EntryOk(b, t) && m == Land(env, b.Region(), t, v.cpu, stack)
    ensures Exits(PlanOf(b), p, env, b.Key(pc), AfterSlot(b.Context(b.Key(pc)), pc) + After(b, pc), v, stack, t,
      Wrap(pc + 8), m)
  {
    ReturnLayout(b, pc, rs, DispatchRegReturn(rs));
    ExitsIntro(PlanOf(b), p, env, b.Key(pc), DispatchRegReturn(rs), After(b, pc), v, stack, t, Wrap(pc + 8), m);
  }

  lemma LineOfTwo(env: Env, pc: Word, s: Stmt, v: Local)
    requires InLine(s)
    ensures IsLine([Label(pc), s]) && [Label(pc), s] != []
    ensures RunLine(env, [Label(pc), s], v) == LineStep(env, s, v)
  {
    assert [Label(pc), s] == [Label(pc)] + [s];
    RunLineAppend(env, [Label(pc)], [s], v);
    RunOne(env, Label(pc), v);
    RunOne(env, s, v);
  }

  /** A unit of one statement after its label, continuing at next. */
  lemma FallUnit(b: Build, p: Program, env: Env, under: seq<Frame>, f: Frame, pc: Word, s: Stmt, post: seq<Stmt>,
      c: GoodCpu, c': GoodCpu, stack: seq<Word>, next: Word)
    returns (n: nat)
    requires Ready(b, p) && Here(b, p, under, f, pc, stack) && InLine(s) && next in b.Region()
    requires From(b, pc, 0) == [Label(pc), s] + post && Continues(PlanOf(b), b.Key(pc), post, next)
    requires LineStep(env, s, Local(c, f.cond, f.tmp)).cpu == c'
    ensures n >= 1 && Match(PlanOf(b), p, Running(next, c', stack), CSteps(p, env, CState(under + [f], c), n))
  {
    PlanIsOk(b, p);
    LineOfTwo(env, pc, s, Local(c, f.cond, f.tmp));
    n := UnitRuns(PlanOf(b), p, env, under, f, [Label(pc), s], post, c, stack, next, next, Running(next, c', stack));
  }

  /** A plain instruction, and the hand-off when the next word starts another chunk. */
  lemma PlainUnit(b: Build, p: Program, env: Env, under: seq<Frame>, f: Frame, pc: Word, c: GoodCpu, stack: seq<Word>)
    returns (n: nat)
    requires Ready(b, p) && Here(b, p, under, f, pc, stack) && !IsControlFlow(b.img.At(pc))
      && Wrap(pc + 4) in b.Region()
    requires PlainOk(env, b.img.At(pc), c) && !DivUndefined(b.img.At(pc), c)
    ensures n >= 1
    ensures Match(PlanOf(b), p, Running(Wrap(pc + 4), ExecPlain(env, b.img.At(pc), c), stack),
      CSteps(p, env, CState(under + [f], c), n))
  {
    var ins, next := b.img.At(pc), Wrap(pc + 4);
    NoWrap(b.img, pc);
    PlainUnitLayout(b, pc);
    EmitPlainExact(env, ins, c);
    Onward(b, pc, next);
    n := FallUnit(b, p, env, under, f, pc, Do(EmitPlain(ins)), HandOff(b.Context(b.Key(pc)), next) + After(b, pc), c,
                  ExecPlain(env, ins, c), stack, next);
  }

  lemma TrapContinues(b: Build, pc: Word)
    requires b.Valid() && pc in b.Region() && b.img.In(pc) && !HasSlot(b.img.At(pc))
    requires Wrap(pc + 4) in b.Region() && b.Key(Wrap(pc + 4)) == b.Key(pc)
    ensures Continues(PlanOf(b), b.Key(pc), After(b, pc), Wrap(pc + 4))
  {
    NoWrap(b.img, pc);
    NextAfter(b, pc, Wrap(pc + 4));
  }

  lemma TrapLine(env: Env, s: Stmt, v: Local)
    requires s.SyscallStub? || s.BreakStub?
    ensures InLine(s) && LineStep(env, s, v).cpu == if s.SyscallStub? then env.syscall(v.cpu)
      else env.brk(s.code, v.cpu)
  {
  }

  /** syscall and break: the handler's effect, then the next word, which must be in the chunk. */
  lemma TrapUnit(b: Build, p: Program, env: Env, under: seq<Frame>, f: Frame, pc: Word, s: Stmt, c: GoodCpu,
      c': GoodCpu, stack: seq<Word>)
    returns (n: nat)
    requires Ready(b, p) && Here(b, p, under, f, pc, stack)
    requires (b.img.At(pc).Syscall? && s == SyscallStub && c' == env.syscall(c))
          || (b.img.At(pc).Break? && s == BreakStub(b.img.At(pc).code) && c' == env.brk(s.code, c))
    requires Wrap(pc + 4) in b.Region() && b.Key(Wrap(pc + 4)) == b.Key(pc)
    ensures n >= 1
    ensures Match(PlanOf(b), p, Running(Wrap(pc + 4), c', stack), CSteps(p, env, CState(under + [f], c), n))
  {
    TrapLayout(b, pc, s);
    TrapContinues(b, pc);
    TrapLine(env, s, Local(c, f.cond, f.tmp));
    n := FallUnit(b, p, env, under, f, pc, s, After(b, pc), c, c', stack, Wrap(pc + 4));
  }

  lemma BranchUnit(b: Build, p: Program, env: Env, under: seq<Frame>, f: Frame, pc: Word, c: GoodCpu, stack: seq<Word>,
                   taken: bool, t: Word, m: MState) returns (n: nat)
    requires Ready(b, p) && Here(b, p, under, f, pc, stack) && b.img.At(pc).Branch?
    requires SlotOk(b, env, pc, Linked(b.img.At(pc), pc, c))
    requires taken == Taken(b.img.At(pc).brOp, c.r[b.img.At(pc).rs], c.r[b.img.At(pc).rt])
      && t == BranchTarget(pc, b.img.At(pc).imm)
    requires Links(b.img.At(pc).brOp) ==> b.img.At(pc).rs != 31
    requires if taken then JumpOk(b, pc, t) else Wrap(pc + 8) in b.Region()
    requires m == Land(env, b.Region(), if taken then t else Wrap(pc + 8), SlotDone(b.img, env, pc, c), stack)
    requires m.Running? ==> m.pc in b.Region()
    ensures n >= 1 && Match(PlanOf(b), p, m, CSteps(p, env, CState(under + [f], c), n))
  {
    var post := AfterSlot(b.Context(b.Key(pc)), pc) + After(b, pc);
    CondSaved(b.img.At(pc), pc, c);
    BranchExits(b, p, env, pc, SlotLocal(b, env, f, pc, c), stack, t, m);
    EmptySum(post);
    n := SlotUnitRuns(b, p, env, under, f, pc, c, stack, t, [], post, m);
  }

  lemma CallUnit(b: Build, p: Program, env: Env, under: seq<Frame>, f: Frame, pc: Word, c: GoodCpu, stack: seq<Word>,
      t: Word, m: MState)
    returns (n: nat)
    requires Ready(b, p) && Here(b, p, under, f, pc, stack)
    requires (b.img.At(pc).Jal? && t == JumpTarget(pc, b.img.At(pc).target))
          || (b.img.At(pc).Jalr? && t == c.r[b.img.At(pc).rs] && (pc in b.jr ==> t == b.jr[pc] && t in b.starts))
    requires SlotOk(b, env, pc, Linked(b.img.At(pc), pc, c)) && EntryOk(b, t)
    requires m == Land(env, b.Region(), t, SlotDone(b.img, env, pc, c), stack + [Wrap(pc + 8)])
    requires m.Running? ==> m.pc in b.Region()
    ensures n >= 1 && Match(PlanOf(b), p, m, CSteps(p, env, CState(under + [f], c), n))
  {
    var post := AfterSlot(b.Context(b.Key(pc)), pc) + After(b, pc);
    CallExits(b, p, env, pc, SlotLocal(b, env, f, pc, c), stack, t, m);
    EmptySum(post);
    n := SlotUnitRuns(b, p, env, under, f, pc, c, stack, t, [], post, m);
  }

  lemma JumpUnit(b: Build, p: Program, env: Env, under: seq<Frame>, f: Frame, pc: Word, c: GoodCpu, stack: seq<Word>,
      t: Word, m: MState)
    returns (n: nat)
    requires Ready(b, p) && Here(b, p, under, f, pc, stack) && JumpsTo(b, pc, t)
    requires SlotOk(b, env, pc, Linked(b.img.At(pc), pc, c)) && JumpOk(b, pc, t)
    requires m == Land(env, b.Region(), t, SlotDone(b.img, env, pc, c), stack)
    requires m.Running? ==> m.pc in b.Region()
    ensures n >= 1 && Match(PlanOf(b), p, m, CSteps(p, env, CState(under + [f], c), n))
  {
    var v := SlotLocal(b, env, f, pc, c);
    if t == pc {
      ParkExits(b, p, env, pc, v, stack);
      n := SlotUnitRuns(b, p, env, under, f, pc, c, stack, t, [ParkTick], [Goto(pc)] + After(b, pc), m);
    } else {
      var post := AfterSlot(b.Context(b.Key(pc)), pc) + After(b, pc);
      JumpExits(b, p, env, pc, v, stack, t, m);
      EmptySum(post);
      n := SlotUnitRuns(b, p, env, under, f, pc, c, stack, t, [], post, m);
    }
  }

  /** jr through a register that discovery did not resolve: a return, or a computed jump. */
  lemma ReturnUnit(b: Build, p: Program, env: Env, under: seq<Frame>, f: Frame, pc: Word, c: GoodCpu, stack: seq<Word>,
      rs: Reg, m: MState)
    returns (n: nat)
    requires Ready(b, p) && Here(b, p, under, f, pc, stack) && b.img.At(pc) == Jr(rs) && pc !in b.jr
    requires SlotOk(b, env, pc, Linked(b.img.At(pc), pc, c))
    requires var c' := SlotDone(b.img, env, pc, c);
             if rs == 31 then m == ReturnTo(c', stack)
             else c'.r[rs] == c.r[rs] && EntryOk(b, c.r[rs]) && m == Land(env, b.Region(), c.r[rs], c', stack)
    requires m.Running? ==> m.pc in b.Region()
    ensures n >= 1 && Match(PlanOf(b), p, m, CSteps(p, env, CState(under + [f], c), n))
  {
    var post := AfterSlot(b.Context(b.Key(pc)), pc) + After(b, pc);
    if rs == 31 {
      ReturnExits(b, p, env, pc, SlotLocal(b, env, f, pc, c), stack, c.r[rs]);
    } else {
      ComputedExits(b, p, env, pc, rs, SlotLocal(b, env, f, pc, c), stack, c.r[rs], m);
    }
    EmptySum(post);
    n := SlotUnitRuns(b, p, env, under, f, pc, c, stack, c.r[rs], [], post, m);
  }

  // ---- one step of the original ----

  /** What Ok says of each kind of step, and where the step goes. */
  lemma PlainFacts(b: Build, env: Env, m: MState)
    requires b.Valid() && Ok(b, env, m) && !IsControlFlow(b.img.At(m.pc))
    ensures PlainOk(env, b.img.At(m.pc), m.cpu) && !DivUndefined(b.img.At(m.pc), m.cpu) && Wrap(m.pc + 4) in b.Region()
    ensures MStep(b.img, env, b.Region(), m) == Running(Wrap(m.pc + 4), ExecPlain(env, b.img.At(m.pc), m.cpu), m.stack)
  {
  }

  lemma TrapFacts(b: Build, env: Env, m: MState, c': GoodCpu)
    requires b.Valid() && Ok(b, env, m)
    requires (b.img.At(m.pc).Syscall? && c' == env.syscall(m.cpu))
      || (b.img.At(m.pc).Break? && c' == env.brk(b.img.At(m.pc).code, m.cpu))
    ensures Wrap(m.pc + 4) in b.Region() && b.Key(Wrap(m.pc + 4)) == b.Key(m.pc)
    ensures MStep(b.img, env, b.Region(), m) == Running(Wrap(m.pc + 4), c', m.stack)
  {
  }

  lemma BranchFacts(b: Build, env: Env, m: MState, taken: bool, t: Word)
    requires b.Valid() && Ok(b, env, m) && b.img.At(m.pc).Branch?
    requires taken == Taken(b.img.At(m.pc).brOp, m.cpu.r[b.img.At(m.pc).rs], m.cpu.r[b.img.At(m.pc).rt])
      && t == BranchTarget(m.pc, b.img.At(m.pc).imm)
    ensures SlotOk(b, env, m.pc, Linked(b.img.At(m.pc), m.pc, m.cpu))
    ensures Links(b.img.At(m.pc).brOp) ==> b.img.At(m.pc).rs != 31
    ensures if taken then JumpOk(b, m.pc, t) else Wrap(m.pc + 8) in b.Region()
    ensures MStep(b.img, env, b.Region(), m)
         == Land(env, b.Region(), if taken then t else Wrap(m.pc + 8), SlotDone(b.img, env, m.pc, m.cpu), m.stack)
  {
  }

  lemma CallFacts(b: Build, env: Env, m: MState, t: Word)
    requires b.Valid() && Ok(b, env, m)
    requires (b.img.At(m.pc).Jal? && t == JumpTarget(m.pc, b.img.At(m.pc).target))
      || (b.img.At(m.pc).Jalr? && t == m.cpu.r[b.img.At(m.pc).rs])
    ensures SlotOk(b, env, m.pc, Linked(b.img.At(m.pc), m.pc, m.cpu)) && EntryOk(b, t)
    ensures b.img.At(m.pc).Jalr? && m.pc in b.jr ==> t == b.jr[m.pc] && t in b.starts
    ensures MStep(b.img, env, b.Region(), m)
      == Land(env, b.Region(), t, SlotDone(b.img, env, m.pc, m.cpu), m.stack + [Wrap(m.pc + 8)])
  {
  }

  lemma JumpFacts(b: Build, env: Env, m: MState, t: Word)
    requires b.Valid() && Ok(b, env, m) && JumpsTo(b, m.pc, t)
    ensures SlotOk(b, env, m.pc, Linked(b.img.At(m.pc), m.pc, m.cpu)) && JumpOk(b, m.pc, t)
    ensures MStep(b.img, env, b.Region(), m) == Land(env, b.Region(), t, SlotDone(b.img, env, m.pc, m.cpu), m.stack)
  {
  }

  lemma ReturnFacts(b: Build, env: Env, m: MState, rs: Reg)
    requires b.Valid() && Ok(b, env, m) && b.img.At(m.pc) == Jr(rs) && m.pc !in b.jr
    ensures SlotOk(b, env, m.pc, Linked(b.img.At(m.pc), m.pc, m.cpu))
    ensures var c, c', m' := m.cpu, SlotDone(b.img, env, m.pc, m.cpu), MStep(b.img, env, b.Region(), m);
            if rs == 31 then m' == ReturnTo(c', m.stack)
            else c'.r[rs] == c.r[rs] && EntryOk(b, c.r[rs]) && m' == Land(env, b.Region(), c.r[rs], c', m.stack)
  {
  }

  lemma SlotStep(b: Build, p: Program, env: Env, under: seq<Frame>, f: Frame, m: MState, m': MState) returns (n: nat)
    requires Ready(b, p) && Ok(b, env, m) && Here(b, p, under, f, m.pc, m.stack) && HasSlot(b.img.At(m.pc))
    requires m' == MStep(b.img, env, b.Region(), m)
    ensures n >= 1 && Match(PlanOf(b), p, m', CSteps(p, env, CState(under + [f], m.cpu), n))
  {
    hide Match, CSteps, MStep, PlanOf, Here, SlotOk, EntryOk, JumpOk, ReturnTo, SlotDone, Linked, BranchTarget,
        JumpTarget, Taken;
    var pc, c, ins := m.pc, m.cpu, b.img.At(m.pc);
    if ins.Branch? {
      var taken, t := Taken(ins.brOp, c.r[ins.rs], c.r[ins.rt]), BranchTarget(pc, ins.imm);
      BranchFacts(b, env, m, taken, t);
      n := BranchUnit(b, p, env, under, f, pc, c, m.stack, taken, t, m');
    } else if ins.Jal? || ins.Jalr? {
      var t := if ins.Jal? then JumpTarget(pc, ins.target) else c.r[ins.rs];
      CallFacts(b, env, m, t);
      n := CallUnit(b, p, env, under, f, pc, c, m.stack, t, m');
    } else if ins.Jr? && pc !in b.jr {
      ReturnFacts(b, env, m, ins.rs);
      n := ReturnUnit(b, p, env, under, f, pc, c, m.stack, ins.rs, m');
    } else {
      var t := if ins.J? then JumpTarget(pc, ins.target) else b.jr[pc];
      JumpFacts(b, env, m, t);
      n := JumpUnit(b, p, env, under, f, pc, c, m.stack, t, m');
    }
  }

  lemma TrapStep(b: Build, p: Program, env: Env, under: seq<Frame>, f: Frame, m: MState, m': MState, s: Stmt,
      c': GoodCpu)
    returns (n: nat)
    requires Ready(b, p) && Ok(b, env, m) && Here(b, p, under, f, m.pc, m.stack)
    requires (b.img.At(m.pc).Syscall? && s == SyscallStub && c' == env.syscall(m.cpu))
          || (b.img.At(m.pc).Break? && s == BreakStub(b.img.At(m.pc).code) && c' == env.brk(s.code, m.cpu))
    requires m' == MStep(b.img, env, b.Region(), m)
    ensures n >= 1 && Match(PlanOf(b), p, m', CSteps(p, env, CState(under + [f], m.cpu), n))
  {
    var pc, c, stack := m.pc, m.cpu, m.stack;
    TrapFacts(b, env, m, c');
    n := TrapUnit(b, p, env, under, f, pc, s, c, c', stack);
  }

  lemma PlainStep(b: Build, p: Program, env: Env, under: seq<Frame>, f: Frame, m: MState, m': MState) returns (n: nat)
    requires Ready(b, p) && Ok(b, env, m) && Here(b, p, under, f, m.pc, m.stack) && !IsControlFlow(b.img.At(m.pc))
    requires m' == MStep(b.img, env, b.Region(), m)
    ensures n >= 1 && Match(PlanOf(b), p, m', CSteps(p, env, CState(under + [f], m.cpu), n))
  {
    PlainFacts(b, env, m);
    n := PlainUnit(b, p, env, under, f, m.pc, m.cpu, m.stack);
  }

  /** Every step of the original that meets Ok is matched by at least one step of the generated
      C, ending in corresponding states: same registers, HI/LO, bus, place and open calls. */
  lemma StepSimulated(b: Build, p: Program, env: Env, m: MState, t: CState) returns (n: nat)
    requires Ready(b, p) && Ok(b, env, m) && Match(PlanOf(b), p, m, t)
    ensures n >= 1 && Match(PlanOf(b), p, MStep(b.img, env, b.Region(), m), CSteps(p, env, t, n))
  {
    var under, f := t.frames[..|t.frames| - 1], t.frames[|t.frames| - 1];
    InitAndLast(t.frames);
    assert t == CState(under + [f], m.cpu);
    if HasSlot(b.img.At(m.pc)) {
      n := SlotStep(b, p, env, under, f, m, MStep(b.img, env, b.Region(), m));
    } else if b.img.At(m.pc).Syscall? {
      n := TrapStep(b, p, env, under, f, m, MStep(b.img, env, b.Region(), m), SyscallStub, env.syscall(m.cpu));
    } else if b.img.At(m.pc).Break? {
      var code := b.img.At(m.pc).code;
      n := TrapStep(b, p, env, under, f, m, MStep(b.img, env, b.Region(), m), BreakStub(code), env.brk(code, m.cpu));
    } else {
      n := PlainStep(b, p, env, under, f, m, MStep(b.img, env, b.Region(), m));
    }
  }

  // ---- whole runs ----

  ghost function OkSteps(b: Build, env: Env): MState -> bool {
    (m: MState) => m.Halted? || Ok(b, env, m)
  }

  ghost function Related(b: Build, p: Program): (MState, CState) -> bool
    requires b.Valid()
  {
    var g := PlanOf(b);
    (m: MState, t: CState) => Match(g, p, m, t)
  }

  /** The first n steps of the original meet Ok; a machine that halted takes no more steps. */
  ghost predicate RunOk(b: Build, env: Env, m: MState, n: nat) {
    Always(MMachine(b.img, env, b.Region()), OkSteps(b, env), m, n)
  }

  lemma StepOrRest(b: Build, p: Program, env: Env, m: MState, t: CState)
    requires Ready(b, p) && Match(PlanOf(b), p, m, t) && (m.Halted? || Ok(b, env, m))
    ensures Reaches(CMachine(p, env), Related(b, p), MStep(b.img, env, b.Region(), m), t)
  {
    var k: nat;
    if m.Halted? {
      StepThen(p, env, t, t, 0);
      k := 1;
    } else {
      k := StepSimulated(b, p, env, m, t);
    }
    assert Related(b, p)(MStep(b.img, env, b.Region(), m), Iterate(CMachine(p, env), t, k));
  }

  lemma EveryStepSimulated(b: Build, p: Program, env: Env)
    requires Ready(b, p)
    ensures Simulates(MMachine(b.img, env, b.Region()), OkSteps(b, env), CMachine(p, env), Related(b, p))
  {
    forall m, t | Related(b, p)(m, t) && OkSteps(b, env)(m)
      ensures Reaches(CMachine(p, env), Related(b, p), MStep(b.img, env, b.Region(), m), t)
    {
      StepOrRest(b, p, env, m, t);
    }
  }

  /** The recompiled program preserves meaning: started at a start with the host's return address
      open, any run of the original whose steps meet Ok is matched by the generated C, however
      long; when the original returns to its host, the C region returns with the same machine. */
  lemma MeaningPreserved(b: Build, p: Program, env: Env, entry: Word, host: Word, cpu: GoodCpu, n: nat)
    requires Ready(b, p) && entry in b.starts && RunOk(b, env, Running(entry, cpu, [host]), n)
    ensures exists k: nat ::
              k >= n && Match(PlanOf(b), p, Iterate(MMachine(b.img, env, b.Region()), Running(entry, cpu, [host]), n),
                              Iterate(CMachine(p, env), RegionStart(p, env, entry, cpu), k))
  {
    var m, t := Running(entry, cpu, [host]), RegionStart(p, env, entry, cpu);
    PlanIsOk(b, p);
    EnterArrives(PlanOf(b), p, [], entry, cpu, [host]);
    EveryStepSimulated(b, p, env);
    assert Related(b, p)(m, t);
    var k := RunFollowed(MMachine(b.img, env, b.Region()), OkSteps(b, env), CMachine(p, env), Related(b, p), m, t, n);
  }
}
