/** How the generated C keeps step with the original machine: the relation between the two states,
    and the moves that every unit shares (straight-line code, entering, unwinding, dispatching). */
module Simulation {
  import opened Words
  import opened Mips
  import opened CCode
  import opened Emitter
  import opened Machines
  import opened Runs
  import opened Seqs

  /** The layout of the generated code, address by address: the reachable words, the starts, the
      chunk each word is in, and the statements from the word's unit to the end of its chunk. */
  datatype Plan = Plan(region: set<Word>, starts: set<Word>, key: map<Word, Word>, resume: map<Word, seq<Stmt>>)

  /** Every start is a reachable word and the first of its chunk; the BIOS gates lie outside. */
  ghost predicate PlanOk(g: Plan, p: Program) {
    && g.key.Keys == g.region && g.resume.Keys == g.region
    && p.starts == g.starts <= g.region
    && GATES !! g.region
    && (forall a <- g.starts :: g.key[a] == a && g.resume[a] == p.Code(a))
    && (forall a <- g.region :: g.resume[a] != [])
  }

  // ---- the relation ----

  ghost predicate RestIs(p: Program, f: Frame, s: seq<Stmt>) {
    f.i <= |p.Code(f.chunk)| && p.Code(f.chunk)[f.i..] == s
  }

  /** The activation is about to execute the unit of pc. */
  ghost predicate AtWord(g: Plan, p: Program, f: Frame, pc: Word) {
    pc in g.key && pc in g.resume && f.chunk == g.key[pc] && RestIs(p, f, g.resume[pc])
  }

  /** The activation resumes at ra when its callee returns. */
  ghost predicate Resumes(g: Plan, p: Program, f: Frame, ra: Word) {
    || AtWord(g, p, f, ra)
    || (ra in g.starts && f.i < |p.Code(f.chunk)| && p.Code(f.chunk)[f.i] == TailCall(ra))
  }

  /** The suspended activations against the open calls: a frame whose code is used up belongs to
      a tail call and stands for nothing; any other frame waits for the innermost open call. */
  ghost predicate StackRel(g: Plan, p: Program, frames: seq<Frame>, stack: seq<Word>)
    decreases |frames|
  {
    if frames == [] then |stack| == 1
    else
      var n, k := |frames| - 1, |stack| - 1;
      || (frames[n].i == |p.Code(frames[n].chunk)| && StackRel(g, p, frames[..n], stack))
      || (k >= 1 && (stack[k] in g.region ==> Resumes(g, p, frames[n], stack[k]))
         && StackRel(g, p, frames[..n], stack[..k]))
  }

  ghost predicate Match(g: Plan, p: Program, m: MState, t: CState) {
    match m
    case Halted(c) => t == CState([], c)
    case Running(pc, c, stack) =>
      && t.frames != [] && t.cpu == c
      && AtWord(g, p, t.frames[|t.frames| - 1], pc)
      && StackRel(g, p, t.frames[..|t.frames| - 1], stack)
  }

  lemma MatchTop(g: Plan, p: Program, under: seq<Frame>, f: Frame, pc: Word, c: GoodCpu, stack: seq<Word>)
    requires AtWord(g, p, f, pc) && StackRel(g, p, under, stack)
    ensures Match(g, p, Running(pc, c, stack), CState(under + [f], c))
  {
    InitLast(under, f);
  }

  lemma PushTail(g: Plan, p: Program, under: seq<Frame>, f: Frame, stack: seq<Word>)
    requires StackRel(g, p, under, stack) && f.i == |p.Code(f.chunk)|
    ensures StackRel(g, p, under + [f], stack)
  {
    InitLast(under, f);
  }

  lemma PushCall(g: Plan, p: Program, under: seq<Frame>, f: Frame, stack: seq<Word>, ra: Word)
    requires StackRel(g, p, under, stack)
    requires ra in g.region ==> Resumes(g, p, f, ra)
    ensures StackRel(g, p, under + [f], stack + [ra])
  {
    StackNonEmpty(g, p, under, stack);
    InitLast(under, f);
    InitLast(stack, ra);
  }

  lemma {:induction false} StackNonEmpty(g: Plan, p: Program, frames: seq<Frame>, stack: seq<Word>)
    requires StackRel(g, p, frames, stack)
    ensures |stack| >= 1
    decreases |frames|
  {
    if frames != [] {
      var n := |frames| - 1;
      if frames[n].i == |p.Code(frames[n].chunk)| && StackRel(g, p, frames[..n], stack) {
        StackNonEmpty(g, p, frames[..n], stack);
      }
    }
  }

  /** The innermost suspended activation belongs to a tail call, or waits for the innermost call. */
  lemma TopOfStack(g: Plan, p: Program, under: seq<Frame>, f: Frame, stack: seq<Word>) returns (tail: bool)
    requires StackRel(g, p, under + [f], stack)
    ensures tail ==> f.i == |p.Code(f.chunk)| && StackRel(g, p, under, stack)
    ensures !tail ==> |stack| >= 2 && StackRel(g, p, under, stack[..|stack| - 1])
    ensures !tail && stack[|stack| - 1] in g.region ==> Resumes(g, p, f, stack[|stack| - 1])
  {
    InitLast(under, f);
    tail := f.i == |p.Code(f.chunk)| && StackRel(g, p, under, stack);
  }

  // ---- single C steps ----

  lemma StepOnTop(p: Program, env: Env, under: seq<Frame>, f: Frame, cpu: GoodCpu)
    ensures CStep(p, env, CState(under + [f], cpu)) == StepTop(p, env, under, f, cpu)
  {
    InitLast(under, f);
  }

  lemma StepThen(p: Program, env: Env, s: CState, s': CState, n: nat)
    requires CStep(p, env, s) == s'
    ensures CSteps(p, env, s, n + 1) == CSteps(p, env, s', n)
  {
  }

  lemma PopStep(p: Program, env: Env, under: seq<Frame>, f: Frame, c: GoodCpu, n: nat)
    requires f.i == |p.Code(f.chunk)|
    ensures CSteps(p, env, CState(under + [f], c), n + 1) == CSteps(p, env, CState(under, c), n)
  {
    StepOnTop(p, env, under, f, c);
  }

  lemma TailCallStep(p: Program, env: Env, under: seq<Frame>, f: Frame, a: Word, c: GoodCpu)
    requires f.i < |p.Code(f.chunk)| && p.Code(f.chunk)[f.i] == TailCall(a)
    ensures CSteps(p, env, CState(under + [f], c), 1) == Enter(under + [f.(i := |p.Code(f.chunk)|)], a, c)
  {
    StepOnTop(p, env, under, f, c);
    assert CSteps(p, env, CState(under + [f], c), 1) == CSteps(p, env, CStep(p, env, CState(under + [f], c)), 0);
  }

  lemma RestHead(p: Program, f: Frame, st: Stmt, rest: seq<Stmt>)
    requires RestIs(p, f, [st] + rest)
    ensures f.i < |p.Code(f.chunk)| && p.Code(f.chunk)[f.i] == st
    ensures RestIs(p, f.(i := f.i + 1), rest)
  {
    DropHead(p.Code(f.chunk), f.i, st, rest);
  }

  // ---- arriving ----

  /** Calling or tail-calling a start arrives at it. */
  lemma EnterArrives(g: Plan, p: Program, frames: seq<Frame>, a: Word, c: GoodCpu, stack: seq<Word>)
    requires PlanOk(g, p) && a in g.starts && StackRel(g, p, frames, stack)
    ensures Match(g, p, Running(a, c, stack), Enter(frames, a, c))
  {
    var f := Frame(a, 0, false, 0);
    assert p.Code(a)[0..] == p.Code(a);
    MatchTop(g, p, frames, f, a, c, stack);
  }

  /** An activation that resumes at ra gets there, by falling into it or by a tail call. */
  lemma HandOver(g: Plan, p: Program, env: Env, under: seq<Frame>, f: Frame, ra: Word, c: GoodCpu, stack: seq<Word>)
    returns (n: nat)
    requires PlanOk(g, p) && StackRel(g, p, under, stack) && Resumes(g, p, f, ra)
    ensures n <= 1 && Match(g, p, Running(ra, c, stack), CSteps(p, env, CState(under + [f], c), n))
  {
    if AtWord(g, p, f, ra) {
      n := 0;
      MatchTop(g, p, under, f, ra, c, stack);
    } else {
      var gone := f.(i := |p.Code(f.chunk)|);
      TailCallStep(p, env, under, f, ra, c);
      PushTail(g, p, under, gone, stack);
      EnterArrives(g, p, under + [gone], ra, c, stack);
      n := 1;
    }
  }

  /** When a callee is done, the C returns unwind to where the innermost open call resumes. */
  lemma {:induction false} Unwind(g: Plan, p: Program, env: Env, frames: seq<Frame>, c: GoodCpu, stack: seq<Word>)
    returns (n: nat)
    requires PlanOk(g, p) && StackRel(g, p, frames, stack)
    requires ReturnTo(c, stack).Running? ==> ReturnTo(c, stack).pc in g.region
    ensures Match(g, p, ReturnTo(c, stack), CSteps(p, env, CState(frames, c), n))
    decreases |frames|
  {
    if frames == [] {
      n := 0;
    } else {
      var under, f := frames[..|frames| - 1], frames[|frames| - 1];
      InitAndLast(frames);
      var tail := TopOfStack(g, p, under, f, stack);
      if tail {
        n := Unwind(g, p, env, under, c, stack);
        PopStep(p, env, under, f, c, n);
        n := n + 1;
      } else {
        n := HandOver(g, p, env, under, f, stack[|stack| - 1], c, stack[..|stack| - 1]);
      }
    }
  }

  /** The generated dispatcher enters a start, and treats everything else as outside code. */
  lemma DispatchArrives(g: Plan, p: Program, env: Env, frames: seq<Frame>, a: Word, c: GoodCpu, stack: seq<Word>)
    returns (n: nat)
    requires PlanOk(g, p) && StackRel(g, p, frames, stack) && (a in g.region ==> a in g.starts)
    requires var m := Land(env, g.region, a, c, stack); m.Running? ==> m.pc in g.region
    ensures Match(g, p, Land(env, g.region, a, c, stack), CSteps(p, env, DispatchTo(p, env, frames, a, c), n))
  {
    if a in g.region {
      EnterArrives(g, p, frames, a, c, stack);
      n := 0;
    } else {
      n := Unwind(g, p, env, frames, env.external(a, c), stack);
    }
  }

  // ---- straight-line statements ----

  datatype Local = Local(cpu: GoodCpu, cond: bool, tmp: Word)

  predicate InLine(s: Stmt) {
    s.Label? || s.Do? || s.SetCond? || s.SetTmp? || s.SyscallStub? || s.BreakStub? || s.ParkTick?
  }

  predicate IsLine(line: seq<Stmt>) {
    forall k :: 0 <= k < |line| ==> InLine(line[k])
  }

  function LineStep(env: Env, s: Stmt, v: Local): Local {
    match s
    case Do(st) => v.(cpu := Exec(env, st, v.cpu))
    case SetCond(op, rs, rt) => v.(cond := Taken(op, v.cpu.r[rs], v.cpu.r[rt]))
    case SetTmp(rs) => v.(tmp := v.cpu.r[rs])
    case SyscallStub => v.(cpu := env.syscall(v.cpu))
    case BreakStub(k) => v.(cpu := env.brk(k, v.cpu))
    case _ => v
  }

  function RunLine(env: Env, line: seq<Stmt>, v: Local): Local
    decreases |line|
  {
    if line == [] then v else RunLine(env, line[1..], LineStep(env, line[0], v))
  }

  lemma {:induction false} RunLineAppend(env: Env, x: seq<Stmt>, y: seq<Stmt>, v: Local)
    ensures RunLine(env, x + y, v) == RunLine(env, y, RunLine(env, x, v))
    decreases |x|
  {
    if x == [] {
      EmptySum(y);
    } else {
      TailOfSum(x, y);
      RunLineAppend(env, x[1..], y, LineStep(env, x[0], v));
    }
  }

  lemma RunOne(env: Env, s: Stmt, v: Local)
    ensures RunLine(env, [s], v) == LineStep(env, s, v)
  {
    assert [s][1..] == [];
  }

  function Moved(f: Frame, n: nat, v: Local): Frame {
    f.(i := f.i + n, cond := v.cond, tmp := v.tmp)
  }

  lemma InLineStep(p: Program, env: Env, under: seq<Frame>, f: Frame, c: GoodCpu, s: Stmt, rest: seq<Stmt>)
    requires InLine(s) && RestIs(p, f, [s] + rest)
    ensures var v := LineStep(env, s, Local(c, f.cond, f.tmp));
            CStep(p, env, CState(under + [f], c)) == CState(under + [Moved(f, 1, v)], v.cpu)
                && RestIs(p, Moved(f, 1, v), rest)
  {
    RestHead(p, f, s, rest);
    StepOnTop(p, env, under, f, c);
  }

  /** A run of labels, assignments, saved temporaries and hooks executes statement by statement. */
  lemma {:induction false} LineRuns(p: Program, env: Env, under: seq<Frame>, f: Frame, c: GoodCpu, line: seq<Stmt>,
      rest: seq<Stmt>)
    requires IsLine(line) && RestIs(p, f, line + rest)
    ensures var v := RunLine(env, line, Local(c, f.cond, f.tmp));
            var f' := Moved(f, |line|, v);
            CSteps(p, env, CState(under + [f], c), |line|) == CState(under + [f'], v.cpu) && RestIs(p, f', rest)
    decreases |line|
  {
    if line == [] {
      EmptySum(rest);
    } else {
      var v := LineStep(env, line[0], Local(c, f.cond, f.tmp));
      var on := Moved(f, 1, v);
      HeadTail(line);
      Regroup([line[0]], line[1..], rest);
      InLineStep(p, env, under, f, c, line[0], line[1..] + rest);
      StepThen(p, env, CState(under + [f], c), CState(under + [on], v.cpu), |line| - 1);
      LineRuns(p, env, under, on, v.cpu, line[1..], rest);
    }
  }

  // ---- leaving a unit ----

  /** Code that goes on at next: its unit is what follows, or it is handed over to. */
  ghost predicate Continues(g: Plan, key: Word, rest: seq<Stmt>, next: Word) {
    || (next in g.key && next in g.resume && g.key[next] == key && rest == g.resume[next])
    || (next in g.starts && rest != [] && rest[0] == TailCall(next))
  }

  /** A goto to t in this chunk finds t's unit. */
  ghost predicate GotoOk(g: Plan, p: Program, key: Word, t: Word) {
    && t in g.region && t in g.key && t in g.resume && g.key[t] == key
    && p.Code(key)[FindLabel(p.Code(key), t)..] == g.resume[t]
  }

  /** Calls and computed jumps resolve only starts; other reachable words are not entry points. */
  ghost predicate EntryOnly(g: Plan, t: Word) {
    t in g.region ==> t in g.starts
  }

  /** Statement s, with rest behind it, takes the machine to m: t is the address transferred to,
      and next the address after the unit. */
  ghost predicate ExitsBy(g: Plan, p: Program, env: Env, key: Word, s: Stmt, rest: seq<Stmt>, v: Local,
      stack: seq<Word>, t: Word, next: Word, m: MState)
  {
    var landing := Land(env, g.region, t, v.cpu, stack);
    var calling := Land(env, g.region, t, v.cpu, stack + [next]);
    var awaits := next in g.region ==> Continues(g, key, rest, next);
    var falls := Continues(g, key, rest, next) && m == Running(next, v.cpu, stack);
    match s
    case Goto(a) => a == t && GotoOk(g, p, key, t) && m == landing
    case TailCall(a) => a == t && t in g.starts && m == landing
    case DispatchReturn(a) => a == t && EntryOnly(g, t) && m == landing
    case DispatchRegReturn(rs) => v.cpu.r[rs] == t && EntryOnly(g, t) && m == landing
    case IfGoto(a) => if v.cond then a == t && GotoOk(g, p, key, t) && m == landing else falls
    case IfTailCall(a) => if v.cond then a == t && t in g.starts && m == landing else falls
    case IfDispatchReturn(a) => if v.cond then a == t && EntryOnly(g, t) && m == landing else falls
    case Call(a) => a == t && t in g.starts && awaits && m == calling
    case Dispatch(a) => a == t && EntryOnly(g, t) && awaits && m == calling
    case DispatchTmp => v.tmp == t && EntryOnly(g, t) && awaits && m == calling
    case Return => m == ReturnTo(v.cpu, stack)
    case _ => false
  }

  /** The statements left after a unit's straight-line part take the machine to m. */
  ghost predicate Exits(g: Plan, p: Program, env: Env, key: Word, post: seq<Stmt>, v: Local, stack: seq<Word>, t: Word,
      next: Word, m: MState) {
    || (Continues(g, key, post, next) && m == Running(next, v.cpu, stack))
    || (post != [] && ExitsBy(g, p, env, key, post[0], post[1..], v, stack, t, next, m))
  }

  lemma ExitsIntro(g: Plan, p: Program, env: Env, key: Word, s: Stmt, rest: seq<Stmt>, v: Local, stack: seq<Word>,
      t: Word, next: Word, m: MState)
    requires ExitsBy(g, p, env, key, s, rest, v, stack, t, next, m)
    ensures Exits(g, p, env, key, [s] + rest, v, stack, t, next, m)
  {
    TailOfOne(s, rest);
  }

  lemma ContinuesResumes(g: Plan, p: Program, f: Frame, rest: seq<Stmt>, next: Word)
    requires RestIs(p, f, rest) && Continues(g, f.chunk, rest, next)
    ensures Resumes(g, p, f, next)
  {
    if rest != [] && rest[0] == TailCall(next) {
      HeadTail(rest);
      RestHead(p, f, rest[0], rest[1..]);
    }
  }

  lemma StepPerforms(p: Program, env: Env, under: seq<Frame>, f: Frame, s: Stmt, rest: seq<Stmt>, c: GoodCpu)
    requires RestIs(p, f, [s] + rest)
    ensures CStep(p, env, CState(under + [f], c)) == Perform(p, env, under, f, s, c)
    ensures RestIs(p, f.(i := f.i + 1), rest)
  {
    RestHead(p, f, s, rest);
    StepOnTop(p, env, under, f, c);
  }

  // The state one exit step leads to, by kind.

  lemma ExitByGoto(g: Plan, p: Program, env: Env, under: seq<Frame>, f: Frame, t: Word, c: GoodCpu, stack: seq<Word>)
    requires PlanOk(g, p) && StackRel(g, p, under, stack) && GotoOk(g, p, f.chunk, t)
    ensures Match(g, p, Land(env, g.region, t, c, stack), CState(under + [f.(i := FindLabel(p.Code(f.chunk), t))], c))
  {
    MatchTop(g, p, under, f.(i := FindLabel(p.Code(f.chunk), t)), t, c, stack);
  }

  lemma ExitByTailCall(g: Plan, p: Program, env: Env, under: seq<Frame>, f: Frame, t: Word, c: GoodCpu,
      stack: seq<Word>)
    requires PlanOk(g, p) && StackRel(g, p, under, stack) && t in g.starts
    ensures Match(g, p, Land(env, g.region, t, c, stack), Enter(under + [f.(i := |p.Code(f.chunk)|)], t, c))
  {
    PushTail(g, p, under, f.(i := |p.Code(f.chunk)|), stack);
    EnterArrives(g, p, under + [f.(i := |p.Code(f.chunk)|)], t, c, stack);
  }

  lemma ExitByDispatch(g: Plan, p: Program, env: Env, under: seq<Frame>, f: Frame, t: Word, c: GoodCpu,
      stack: seq<Word>)
    returns (n: nat)
    requires PlanOk(g, p) && StackRel(g, p, under, stack) && EntryOnly(g, t)
    requires var m := Land(env, g.region, t, c, stack); m.Running? ==> m.pc in g.region
    ensures Match(g, p, Land(env, g.region, t, c, stack),
      CSteps(p, env, DispatchTo(p, env, under + [f.(i := |p.Code(f.chunk)|)], t, c), n))
  {
    PushTail(g, p, under, f.(i := |p.Code(f.chunk)|), stack);
    n := DispatchArrives(g, p, env, under + [f.(i := |p.Code(f.chunk)|)], t, c, stack);
  }

  lemma PushAwaiting(g: Plan, p: Program, under: seq<Frame>, on: Frame, rest: seq<Stmt>, stack: seq<Word>, ra: Word)
    requires StackRel(g, p, under, stack) && RestIs(p, on, rest)
      && (ra in g.region ==> Continues(g, on.chunk, rest, ra))
    ensures StackRel(g, p, under + [on], stack + [ra])
  {
    if ra in g.region {
      ContinuesResumes(g, p, on, rest, ra);
    }
    PushCall(g, p, under, on, stack, ra);
  }

  lemma ExitByCall(g: Plan, p: Program, env: Env, under: seq<Frame>, on: Frame, rest: seq<Stmt>, c: GoodCpu,
                   stack: seq<Word>, t: Word, next: Word)
    requires PlanOk(g, p) && StackRel(g, p, under, stack) && RestIs(p, on, rest)
    requires next in g.region ==> Continues(g, on.chunk, rest, next)
    requires t in g.starts
    ensures Match(g, p, Land(env, g.region, t, c, stack + [next]), Enter(under + [on], t, c))
  {
    PushAwaiting(g, p, under, on, rest, stack, next);
    EnterArrives(g, p, under + [on], t, c, stack + [next]);
  }

  lemma ExitByDispatchedCall(g: Plan, p: Program, env: Env, under: seq<Frame>, on: Frame, rest: seq<Stmt>, c: GoodCpu,
                             stack: seq<Word>, t: Word, next: Word) returns (n: nat)
    requires PlanOk(g, p) && StackRel(g, p, under, stack) && RestIs(p, on, rest)
    requires next in g.region ==> Continues(g, on.chunk, rest, next)
    requires EntryOnly(g, t)
    requires var m := Land(env, g.region, t, c, stack + [next]); m.Running? ==> m.pc in g.region
    ensures Match(g, p, Land(env, g.region, t, c, stack + [next]),
      CSteps(p, env, DispatchTo(p, env, under + [on], t, c), n))
  {
    PushAwaiting(g, p, under, on, rest, stack, next);
    n := DispatchArrives(g, p, env, under + [on], t, c, stack + [next]);
  }

  lemma ExitByFalling(g: Plan, p: Program, env: Env, under: seq<Frame>, f: Frame, rest: seq<Stmt>, c: GoodCpu,
                      stack: seq<Word>, next: Word) returns (n: nat)
    requires PlanOk(g, p) && StackRel(g, p, under, stack) && RestIs(p, f, rest) && Continues(g, f.chunk, rest, next)
    ensures Match(g, p, Running(next, c, stack), CSteps(p, env, CState(under + [f], c), n))
  {
    ContinuesResumes(g, p, f, rest, next);
    n := HandOver(g, p, env, under, f, next, c, stack);
  }

  lemma CallLands(g: Plan, p: Program, env: Env, under: seq<Frame>, f: Frame, s: Stmt, rest: seq<Stmt>, c: GoodCpu,
        stack: seq<Word>, t: Word, next: Word, m: MState) returns (n: nat)
    requires s.Call? || s.Dispatch? || s.DispatchTmp?
    requires PlanOk(g, p) && StackRel(g, p, under, stack) && RestIs(p, f.(i := f.i + 1), rest)
    requires ExitsBy(g, p, env, f.chunk, s, rest, Local(c, f.cond, f.tmp), stack, t, next, m)
    requires m.Running? ==> m.pc in g.region
    ensures Match(g, p, m, CSteps(p, env, Perform(p, env, under, f, s, c), n))
  {
    hide PlanOk, StackRel, AtWord;
    var on := f.(i := f.i + 1);
    if s.Call? {
      ExitByCall(g, p, env, under, on, rest, c, stack, t, next);
      n := 0;
    } else {
      n := ExitByDispatchedCall(g, p, env, under, on, rest, c, stack, t, next);
    }
  }

  lemma BranchLands(g: Plan, p: Program, env: Env, under: seq<Frame>, f: Frame, s: Stmt, rest: seq<Stmt>, c: GoodCpu,
        stack: seq<Word>, t: Word, next: Word, m: MState) returns (n: nat)
    requires s.IfGoto? || s.IfTailCall? || s.IfDispatchReturn?
    requires PlanOk(g, p) && StackRel(g, p, under, stack) && RestIs(p, f.(i := f.i + 1), rest)
    requires ExitsBy(g, p, env, f.chunk, s, rest, Local(c, f.cond, f.tmp), stack, t, next, m)
    requires m.Running? ==> m.pc in g.region
    ensures Match(g, p, m, CSteps(p, env, Perform(p, env, under, f, s, c), n))
  {
    hide PlanOk, StackRel, AtWord;
    if !f.cond {
      n := ExitByFalling(g, p, env, under, f.(i := f.i + 1), rest, c, stack, next);
    } else if s.IfGoto? {
      ExitByGoto(g, p, env, under, f, t, c, stack);
      n := 0;
    } else if s.IfTailCall? {
      ExitByTailCall(g, p, env, under, f, t, c, stack);
      n := 0;
    } else {
      n := ExitByDispatch(g, p, env, under, f, t, c, stack);
    }
  }

  lemma JumpLands(g: Plan, p: Program, env: Env, under: seq<Frame>, f: Frame, s: Stmt, rest: seq<Stmt>, c: GoodCpu,
        stack: seq<Word>, t: Word, next: Word, m: MState) returns (n: nat)
    requires s.Goto? || s.TailCall? || s.DispatchReturn? || s.DispatchRegReturn? || s.Return?
    requires PlanOk(g, p) && StackRel(g, p, under, stack) && RestIs(p, f.(i := f.i + 1), rest)
    requires ExitsBy(g, p, env, f.chunk, s, rest, Local(c, f.cond, f.tmp), stack, t, next, m)
    requires m.Running? ==> m.pc in g.region
    ensures Match(g, p, m, CSteps(p, env, Perform(p, env, under, f, s, c), n))
  {
    hide PlanOk, StackRel, AtWord;
    if s.Goto? {
      ExitByGoto(g, p, env, under, f, t, c, stack);
      n := 0;
    } else if s.TailCall? {
      ExitByTailCall(g, p, env, under, f, t, c, stack);
      n := 0;
    } else if s.Return? {
      n := Unwind(g, p, env, under, c, stack);
    } else {
      n := ExitByDispatch(g, p, env, under, f, t, c, stack);
    }
  }

  /** A unit's exit takes the C to the state the original machine moves to. */
  lemma ExitRuns(g: Plan, p: Program, env: Env, under: seq<Frame>, f: Frame, post: seq<Stmt>, c: GoodCpu,
      stack: seq<Word>, t: Word, next: Word, m: MState)
    returns (n: nat)
    requires PlanOk(g, p) && StackRel(g, p, under, stack) && RestIs(p, f, post)
    requires Exits(g, p, env, f.chunk, post, Local(c, f.cond, f.tmp), stack, t, next, m)
    requires m.Running? ==> m.pc in g.region
    ensures Match(g, p, m, CSteps(p, env, CState(under + [f], c), n))
  {
    hide PlanOk, StackRel, AtWord, Perform, Match;
    if Continues(g, f.chunk, post, next) && m == Running(next, c, stack) {
      n := ExitByFalling(g, p, env, under, f, post, c, stack, next);
    } else {
      var s, rest := post[0], post[1..];
      HeadTail(post);
      StepPerforms(p, env, under, f, s, rest, c);
      if s.Call? || s.Dispatch? || s.DispatchTmp? {
        n := CallLands(g, p, env, under, f, s, rest, c, stack, t, next, m);
      } else if s.IfGoto? || s.IfTailCall? || s.IfDispatchReturn? {
        n := BranchLands(g, p, env, under, f, s, rest, c, stack, t, next, m);
      } else {
        n := JumpLands(g, p, env, under, f, s, rest, c, stack, t, next, m);
      }
      StepThen(p, env, CState(under + [f], c), Perform(p, env, under, f, s, c), n);
      n := n + 1;
    }
  }

  /** A whole unit: its straight-line part, then its exit. */
  lemma UnitRuns(g: Plan, p: Program, env: Env, under: seq<Frame>, f: Frame, line: seq<Stmt>, post: seq<Stmt>,
      c: GoodCpu, stack: seq<Word>, t: Word, next: Word, m: MState)
    returns (n: nat)
    requires PlanOk(g, p) && StackRel(g, p, under, stack) && RestIs(p, f, line + post) && IsLine(line) && line != []
    requires Exits(g, p, env, f.chunk, post, RunLine(env, line, Local(c, f.cond, f.tmp)), stack, t, next, m)
    requires m.Running? ==> m.pc in g.region
    ensures n >= 1 && Match(g, p, m, CSteps(p, env, CState(under + [f], c), n))
  {
    hide PlanOk, StackRel, Exits, RunLine, IsLine, Match, CStep, CMachine, RestIs;
    LineRuns(p, env, under, f, c, line, post);
    var v := RunLine(env, line, Local(c, f.cond, f.tmp));
    var f' := Moved(f, |line|, v);
    var l := ExitRuns(g, p, env, under, f', post, v.cpu, stack, t, next, m);
    IterateAdd(CMachine(p, env), CState(under + [f], c), |line|, l);
    n := |line| + l;
  }
}
