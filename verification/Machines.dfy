/** The emitted program as a whole (emit), the meaning of its C functions, and the meaning of the
    original code on a machine with branch delay slots. */
module Machines {
  import opened Words
  import opened Mips
  import opened CCode
  import opened Emitter
  import opened Runs
  import Split

  /** The generated source: the addresses the dispatcher knows and one body per chunk. */
  datatype Program = Program(starts: set<Word>, code: map<Word, seq<Stmt>>) {
    function Code(chunk: Word): seq<Stmt> {
      if chunk in code then code[chunk] else []
    }
  }

  // ---- C side ----

  /** One activation of a chunk function: next statement and the block-local temporaries. A frame
      whose index is past its code returns; f(); return; leaves its frame like that. */
  datatype Frame = Frame(chunk: Word, i: nat, cond: bool, tmp: Word)

  /** The innermost activation is last; no activation left means the region returned. */
  datatype CState = CState(frames: seq<Frame>, cpu: GoodCpu)

  /** The three BIOS call gates, intercepted by the dispatcher. */
  const GATES: set<Word> := {0xA0, 0xB0, 0xC0}

  function Enter(frames: seq<Frame>, a: Word, cpu: GoodCpu): CState {
    CState(frames + [Frame(a, 0, false, 0)], cpu)
  }

  /** xenolift_dispatch: gates first, then the switch over starts, then the unresolved case. */
  function DispatchTo(p: Program, env: Env, frames: seq<Frame>, a: Word, cpu: GoodCpu): CState {
    if a in GATES then CState(frames, env.external(a, cpu))
    else if a in p.starts then Enter(frames, a, cpu)
    else CState(frames, env.external(a, cpu))
  }

  /** The statement s of the innermost activation f. */
  function Perform(p: Program, env: Env, under: seq<Frame>, f: Frame, s: Stmt, cpu: GoodCpu): CState {
    var code := p.Code(f.chunk);
    var on := f.(i := f.i + 1);
    var next := under + [on];
    var leaving := under + [f.(i := |code|)];
    match s
    case Label(_) => CState(next, cpu)
    case Do(st) => CState(next, Exec(env, st, cpu))
    case SetCond(op, rs, rt) => CState(under + [on.(cond := Taken(op, cpu.r[rs], cpu.r[rt]))], cpu)
    case SetTmp(rs) => CState(under + [on.(tmp := cpu.r[rs])], cpu)
    case Goto(a) => CState(under + [f.(i := FindLabel(code, a))], cpu)
    case IfGoto(a) => CState(if f.cond then under + [f.(i := FindLabel(code, a))] else next, cpu)
    case IfTailCall(a) => if f.cond then Enter(leaving, a, cpu) else CState(next, cpu)
    case IfDispatchReturn(a) => if f.cond then DispatchTo(p, env, leaving, a, cpu) else CState(next, cpu)
    case Call(a) => Enter(next, a, cpu)
    case TailCall(a) => Enter(leaving, a, cpu)
    case Dispatch(a) => DispatchTo(p, env, next, a, cpu)
    case DispatchTmp => DispatchTo(p, env, next, f.tmp, cpu)
    case DispatchReturn(a) => DispatchTo(p, env, leaving, a, cpu)
    case DispatchRegReturn(rs) => DispatchTo(p, env, leaving, cpu.r[rs], cpu)
    case Return => CState(under, cpu)
    case ParkTick => CState(next, cpu)
    case SyscallStub => CState(next, env.syscall(cpu))
    case BreakStub(k) => CState(next, env.brk(k, cpu))
  }

  /** One step of the innermost activation; running off the end of a function returns. */
  function StepTop(p: Program, env: Env, under: seq<Frame>, f: Frame, cpu: GoodCpu): CState {
    if f.i >= |p.Code(f.chunk)| then CState(under, cpu) else Perform(p, env, under, f, p.Code(f.chunk)[f.i], cpu)
  }

  function CStep(p: Program, env: Env, s: CState): CState {
    if s.frames == [] then s
    else StepTop(p, env, s.frames[..|s.frames| - 1], s.frames[|s.frames| - 1], s.cpu)
  }

  function CMachine(p: Program, env: Env): CState -> CState {
    (s: CState) => CStep(p, env, s)
  }

  function CSteps(p: Program, env: Env, s: CState, n: nat): CState {
    Iterate(CMachine(p, env), s, n)
  }

  /** xenolift_region: call the entry function, or dispatch to it. */
  function RegionStart(p: Program, env: Env, entry: Word, cpu: GoodCpu): CState {
    if entry in p.starts then Enter([], entry, cpu) else DispatchTo(p, env, [], entry, cpu)
  }

  // ---- MIPS side ----

  /** The processor with its delay slots, and the return addresses of the calls still open (the
      innermost last, the host's own at the bottom). */
  datatype MState = Running(pc: Word, cpu: GoodCpu, stack: seq<Word>) | Halted(cpu: GoodCpu)

  /** Control comes back to the innermost open call; returning to the host ends the run. */
  function ReturnTo(cpu: GoodCpu, stack: seq<Word>): MState {
    if |stack| <= 1 then Halted(cpu) else Running(stack[|stack| - 1], cpu, stack[..|stack| - 1])
  }

  /** Control arrives at pc. Code outside the region is a black box that returns to the innermost
      open call. */
  function Land(env: Env, region: set<Word>, pc: Word, cpu: GoodCpu, stack: seq<Word>): MState {
    if pc in region then Running(pc, cpu, stack) else ReturnTo(env.external(pc, cpu), stack)
  }

  /** The delay slot. Control flow in a slot is unpredictable on the hardware; it reads as a nop. */
  function SlotInst(img: Image, pc: Word): Inst
    requires img.In(pc)
  {
    var raw := RawSlot(img, pc);
    if IsControlFlow(raw) then Nop else raw
  }

  /** The link register as a transfer writes it, before the slot executes. */
  function Linked(ins: Inst, pc: Word, c: GoodCpu): GoodCpu {
    match ins
    case Branch(op, _, _, _) => if Links(op) then c.Set(31, Wrap(pc + 8)) else c
    case Jal(_) => c.Set(31, Wrap(pc + 8))
    case Jalr(rd, _) => c.Set(rd, Wrap(pc + 8))
    case _ => c
  }

  /** The registers after the link and the slot. */
  function SlotDone(img: Image, env: Env, pc: Word, c: GoodCpu): GoodCpu
    requires img.In(pc)
  {
    ExecPlain(env, SlotInst(img, pc), Linked(img.At(pc), pc, c))
  }

  /** One instruction, together with its delay slot when it has one: the decision and the target
      are taken from the registers before the slot executes. */
  function MStep(img: Image, env: Env, region: set<Word>, m: MState): MState {
    if m.Halted? || m.pc !in region || !img.In(m.pc) then m
    else
      var pc, c, stack := m.pc, m.cpu, m.stack;
      var ins := img.At(pc);
      var c', after := SlotDone(img, env, pc, c), Wrap(pc + 8);
      match ins
      case Syscall => Land(env, region, Wrap(pc + 4), env.syscall(c), stack)
      case Break(k) => Land(env, region, Wrap(pc + 4), env.brk(k, c), stack)
      case Branch(op, rs, rt, imm) =>
        if Taken(op, c.r[rs], c.r[rt]) then
          Land(env, region, BranchTarget(pc, imm), c', if Links(op) then stack + [after] else stack)
        else Land(env, region, after, c', stack)
      case J(index) => Land(env, region, JumpTarget(pc, index), c', stack)
      case Jal(index) => Land(env, region, JumpTarget(pc, index), c', stack + [after])
      case Jr(rs) =>
        if rs == 31 && stack != [] && c.r[31] == stack[|stack| - 1] then ReturnTo(c', stack)
        else Land(env, region, c.r[rs], c', stack)
      case Jalr(_, rs) => Land(env, region, c.r[rs], c', stack + [after])
      case _ => Land(env, region, Wrap(pc + 4), ExecPlain(env, ins, c), stack)
  }

  function MMachine(img: Image, env: Env, region: set<Word>): MState -> MState {
    (m: MState) => MStep(img, env, region, m)
  }

  // ---- the build ----

  /** Everything emit works from, with the starts its split loop found. */
  datatype Build = Build(img: Image, visited: seq<Word>, functions: set<Word>, jr: map<Word, Word>, starts: set<Word>) {
    function Region(): set<Word> {
      Split.Elems(visited)
    }

    function Key(pc: Word): Word {
      Split.ChunkKey(starts, img.base, pc)
    }

    ghost function Words(key: Word): seq<Word> {
      Split.ChunkWords(visited, starts, img.base, key)
    }

    ghost function Context(key: Word): Ctx {
      Ctx(img, starts, Split.Elems(Words(key)), jr, Region())
    }

    ghost predicate Valid() {
      && img.Valid()
      && Split.Spaced(visited)
      && (forall pc :: pc in visited ==> img.In(pc))
      && Split.IsSplit(img, visited, Split.InitialStarts(visited, functions, jr), starts)
    }

    ghost predicate IsProgram(p: Program)
      requires Valid()
    {
      && p.starts == starts
      && p.code.Keys == (set pc | pc in visited :: Key(pc))
      && forall key {:trigger IsBody(key, p.code[key])} :: key in p.code ==> IsBody(key, p.code[key])
    }

    /** The chunk's code is the body of its words. */
    ghost predicate IsBody(key: Word, code: seq<Stmt>) {
      GoodWords(Context(key), Words(key)) && code == Body(Context(key), Words(key))
    }
  }

  lemma WordsAreGood(b: Build, key: Word)
    requires b.Valid()
    ensures GoodWords(b.Context(key), b.Words(key))
    ensures forall pc :: pc in b.Words(key) <==> pc in b.visited && b.Key(pc) == key
  {
    Split.ChunkPartition(b.visited, b.starts, b.img.base, key);
    forall i | 0 <= i < |b.Words(key)| ensures b.img.In(b.Words(key)[i]) {
      assert b.Words(key)[i] in b.visited;
    }
  }

  lemma ChunkIsGood(b: Build, key: Word, x: Ctx, words: seq<Word>)
    requires b.Valid() && words == b.Words(key) && x == Ctx(b.img, b.starts, Split.Elems(words), b.jr, b.Region())
    ensures GoodWords(x, words) && x == b.Context(key)
  {
    WordsAreGood(b, key);
  }

  lemma BodyOfChunk(b: Build, key: Word, x: Ctx, words: seq<Word>, body: seq<Stmt>)
    requires words == b.Words(key) && x == b.Context(key) && GoodWords(x, words) && body == Body(x, words)
    ensures b.IsBody(key, body)
  {
  }

  /** emit: split, assign words to chunks, and write every chunk's body. */
  method Emit(img: Image, visited: seq<Word>, functions: set<Word>, jr: map<Word, Word>)
    returns (p: Program, ghost b: Build)
    requires img.Valid() && Split.Spaced(visited) && forall pc :: pc in visited ==> img.In(pc)
    ensures b == Build(img, visited, functions, jr, p.starts) && b.Valid() && b.IsProgram(p)
  {
    hide GoodWords, Body, Split.Closed, Split.Forced, Split.Spaced, Split.InitialStarts;
    var starts := Split.SplitStarts(img, visited, functions, jr);
    var chunks := Split.AssignChunks(visited, starts, img.base);
    b := Build(img, visited, functions, jr, starts);
    var code: map<Word, seq<Stmt>> := map[];
    var todo := chunks.Keys;
    while todo != {}
      invariant todo <= chunks.Keys && code.Keys == chunks.Keys - todo
      invariant forall key {:trigger b.IsBody(key, code[key])} :: key in code ==> b.IsBody(key, code[key])
      decreases todo
    {
      var key :| key in todo;
      var words := chunks[key];
      var x := Ctx(img, starts, Split.Elems(words), jr, Split.Elems(visited));
      ChunkIsGood(b, key, x, words);
      var body := EmitBody(x, words);
      BodyOfChunk(b, key, x, words, body);
      code := code[key := body];
      todo := todo - {key};
    }
    p := Program(starts, code);
  }
}
