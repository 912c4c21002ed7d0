/** Where the emitted code stops following the original: for the conditions a step must meet, what
    the generated C does when one fails, and that each condition is no stronger than it has to be. */
module Limits {
  import opened Words
  import opened Mips
  import opened CCode
  import opened Emitter
  import opened Machines
  import opened Simulation
  import opened Layout
  import opened Recompile
  import opened Options
  import opened Discovery
  import opened Seqs
  import opened Runs
  import Split

  // ---- traps ----

  /** Where the chunk goes on behind a trap: nowhere, or at its next word, whichever that is. */
  lemma AfterTrap(b: Build, pc: Word)
    requires b.Valid() && pc in b.Region() && b.img.In(pc) && (b.img.At(pc).Syscall? || b.img.At(pc).Break?)
    ensures After(b, pc) == []
         || exists w {:trigger From(b, w, 0)} ::
              w in b.Region() && b.Key(w) == b.Key(pc) && w > pc && After(b, pc) == From(b, w, 0)
  {
    var key := b.Key(pc);
    WordsAreGood(b, key);
    var words, x := b.Words(key), b.Context(key);
    var j := IndexOf(words, pc) + 1;
    if j < |words| {
      IndexUnique(words, j);
      assert words[j] in words;
      FromAt(b, words[j], 0, key, j);
      FromAt(b, pc, 1, key, j);
    }
  }

  lemma PlaceOf(b: Build, p: Program, f: Frame, a: Word, key: Word, rest: seq<Stmt>)
    requires b.Valid() && a in b.Region() && key == b.Key(a) && rest == From(b, a, 0)
    ensures AtWord(PlanOf(b), p, f, a) <==> f.chunk == key && RestIs(p, f, rest)
  {
  }

  lemma MatchedTop(g: Plan, p: Program, under: seq<Frame>, f: Frame, pc: Word, c: GoodCpu, stack: seq<Word>)
    ensures Match(g, p, Running(pc, c, stack), CState(under + [f], c))
      <==> AtWord(g, p, f, pc) && StackRel(g, p, under, stack)
  {
    InitLast(under, f);
  }

  lemma TrapSteps(b: Build, env: Env, pc: Word, c: GoodCpu, stack: seq<Word>, c': GoodCpu)
    requires pc in b.Region() && b.img.In(pc) && Wrap(pc + 4) in b.Region()
    requires (b.img.At(pc).Syscall? && c' == env.syscall(c))
      || (b.img.At(pc).Break? && c' == env.brk(b.img.At(pc).code, c))
    ensures MStep(b.img, env, b.Region(), Running(pc, c, stack)) == Running(Wrap(pc + 4), c', stack)
  {
  }

  lemma TrapRuns(p: Program, env: Env, under: seq<Frame>, f: Frame, pc: Word, c: GoodCpu, s: Stmt, after: seq<Stmt>,
      c': GoodCpu)
    requires RestIs(p, f, [Label(pc), s] + after)
    requires (s == SyscallStub && c' == env.syscall(c)) || (s.BreakStub? && c' == env.brk(s.code, c))
    ensures CSteps(p, env, CState(under + [f], c), 2) == CState(under + [f.(i := f.i + 2)], c')
      && RestIs(p, f.(i := f.i + 2), after)
  {
    hide CSteps, RunLine;
    var line, v := [Label(pc), s], Local(c, f.cond, f.tmp);
    RunLineAppend(env, [Label(pc)], [s], v);
    assert [Label(pc)] + [s] == line;
    RunOne(env, Label(pc), v);
    RunOne(env, s, v);
    LineRuns(p, env, under, f, c, line, after);
  }

  /** After a syscall or break the C is at the next word if and only if that word is in the same chunk:
      no hand-off is written behind a trap. Otherwise the activation is at what follows in its chunk. */
  lemma TrapExact(b: Build, p: Program, env: Env, under: seq<Frame>, f: Frame, pc: Word, c: GoodCpu, stack: seq<Word>,
      s: Stmt, c': GoodCpu)
    requires Ready(b, p) && Here(b, p, under, f, pc, stack) && Wrap(pc + 4) in b.Region()
    requires (b.img.At(pc).Syscall? && s == SyscallStub && c' == env.syscall(c))
          || (b.img.At(pc).Break? && s == BreakStub(b.img.At(pc).code) && c' == env.brk(s.code, c))
    ensures CSteps(p, env, CState(under + [f], c), 2) == CState(under + [f.(i := f.i + 2)], c')
    ensures RestIs(p, f.(i := f.i + 2), After(b, pc))
    ensures MStep(b.img, env, b.Region(), Running(pc, c, stack)) == Running(Wrap(pc + 4), c', stack)
    ensures Match(PlanOf(b), p, Running(Wrap(pc + 4), c', stack), CState(under + [f.(i := f.i + 2)], c'))
      <==> b.Key(Wrap(pc + 4)) == b.Key(pc)
  {
    TrapLayout(b, pc, s);
    TrapRuns(p, env, under, f, pc, c, s, After(b, pc), c');
    TrapSteps(b, env, pc, c, stack, c');
    TrapPlaced(b, p, f.(i := f.i + 2), pc, Wrap(pc + 4));
    MatchedTop(PlanOf(b), p, under, f.(i := f.i + 2), Wrap(pc + 4), c', stack);
  }

  lemma TrapPlaced(b: Build, p: Program, on: Frame, pc: Word, next: Word)
    requires b.Valid() && pc in b.Region() && b.img.In(pc) && (b.img.At(pc).Syscall? || b.img.At(pc).Break?)
    requires next == Wrap(pc + 4) && next in b.Region() && on.chunk == b.Key(pc) && RestIs(p, on, After(b, pc))
    ensures AtWord(PlanOf(b), p, on, next) <==> b.Key(next) == on.chunk
  {
    if b.Key(next) == on.chunk {
      NoWrap(b.img, pc);
      NextAfter(b, pc, next);
      PlaceOf(b, p, on, next, b.Key(next), After(b, pc));
    } else {
      PlaceOf(b, p, on, next, b.Key(next), From(b, next, 0));
    }
  }

  // ---- jumps onto a consumed slot ----

  lemma NotItsLabel(units: seq<seq<Stmt>>, lens: seq<nat>, words: seq<Word>, j: nat, m: nat)
    requires LabelledUnits(units, lens, words) && Split.Spaced(words) && j <= m < m + 1 < |words|
    requires lens[m] == 2 && (m > 0 ==> lens[m - 1] == 1)
    ensures |lens| == |units| == |words| && 1 <= lens[j] <= 2
    ensures j < m ==> words[m + 1] !in Labels(units[j]) && j + lens[j] <= m
  {
    assert LabelledUnit(units, lens, words, j);
  }

  /** Code is found where a label stands in the middle of a unit. */
  lemma {:induction false} JoinFindsInside(units: seq<seq<Stmt>>, lens: seq<nat>, words: seq<Word>, j: nat, m: nat,
                                           pre: seq<Stmt>, post: seq<Stmt>)
    requires LabelledUnits(units, lens, words) && Split.Spaced(words)
    requires j <= m && m + 1 < |words| && lens[m] == 2 && (m > 0 ==> lens[m - 1] == 1)
    requires units[m] == pre + ([Label(words[m + 1])] + post) && words[m + 1] !in Labels(pre)
    ensures var code := Join(units, lens, j);
            var i := FindLabel(code, words[m + 1]);
            i < |code| && code[i..] == [Label(words[m + 1])] + post + Join(units, lens, m + 2)
    decreases m - j
  {
    hide Split.Spaced, Labels, FindLabel, LabelledUnits;
    NotItsLabel(units, lens, words, j, m);
    var code := Join(units, lens, j);
    var a := words[m + 1];
    if j < m {
      var rest := Join(units, lens, j + lens[j]);
      JoinFindsInside(units, lens, words, j + lens[j], m, pre, post);
      FindPast(units[j], rest, a);
      var i := FindLabel(rest, a);
      DropSum(units[j], rest, i);
    } else {
      FindInside(pre, Label(a), post, Join(units, lens, m + 2), a);
    }
  }

  lemma FindInside(pre: seq<Stmt>, l: Stmt, post: seq<Stmt>, rest: seq<Stmt>, a: Word)
    requires l == Label(a) && a !in Labels(pre)
    ensures var code := (pre + ([l] + post)) + rest;
            FindLabel(code, a) == |pre| && |pre| < |code| && code[|pre|..] == [l] + post + rest
  {
    var tail := [l] + post + rest;
    Regroup(pre, [l] + post, rest);
    FindPast(pre, tail, a);
    DropSum(pre, tail, 0);
    assert tail[0] == l;
  }

  /** The unit of a transfer that consumed its slot, cut at the slot's label. */
  lemma SlotUnitCut(x: Ctx, pc: Word) returns (pre: seq<Stmt>)
    requires x.img.Valid() && x.img.In(pc) && Consumes(x, pc)
    ensures pre == [Label(pc)] + BeforeSlot(x, pc) && Labels(pre) == [pc]
    ensures Unit(x, pc) == pre + ([Label(Wrap(pc + 4))] + ([Do(EmitPlain(RawSlot(x.img, pc)))] + AfterSlot(x, pc)))
  {
    pre := [Label(pc)] + BeforeSlot(x, pc);
    BeforeHasNoLabels(x, pc);
    LabelsAppend([Label(pc)], BeforeSlot(x, pc));
    var l, s, post := [Label(Wrap(pc + 4))], [Do(EmitPlain(RawSlot(x.img, pc)))], AfterSlot(x, pc);
    assert SlotCode(x, pc) == l + s;
    RegroupFour(pre, l, s, post);
    Regroup(pre, l + s, post);
    Regroup(l, s, post);
  }

  lemma BeforeHasNoLabels(x: Ctx, pc: Word)
    requires x.img.In(pc) && HasSlot(x.img.At(pc))
    ensures Labels(BeforeSlot(x, pc)) == []
  {
    match x.img.At(pc)
    case Branch(op, rs, rt, _) => LabelsAppend(if Links(op) then Link(31, pc) else [], [SetCond(op, rs, rt)]);
    case Jalr(rd, rs) => LabelsAppend(if pc in x.jr then [] else [SetTmp(rs)], Link(rd, pc));
    case _ =>
  }

  lemma ConsumedAt(x: Ctx, words: seq<Word>, pc: Word) returns (m: nat)
    requires GoodWords(x, words) && pc in words && x.img.In(pc) && Consumes(x, pc)
    ensures m + 1 < |words| && m == IndexOf(words, pc) && words[m] == pc && words[m + 1] == Wrap(pc + 4)
    ensures Lens(x, words)[m] == 2 && (m > 0 ==> Lens(x, words)[m - 1] == 1)
  {
    m := IndexOf(words, pc);
    NoWrap(x.img, pc);
    NextWord(x, words, m, pc + 4);
    if m > 0 {
      ControlFlowNotConsumed(x, pc);
      NotConsumed(x, words, m);
    }
  }

  lemma SlotUnitAt(x: Ctx, words: seq<Word>, pc: Word, m: nat) returns (pre: seq<Stmt>)
    requires GoodWords(x, words) && m + 1 < |words| && words[m] == pc && words[m + 1] == Wrap(pc + 4) && Consumes(x, pc)
    ensures words[m + 1] !in Labels(pre)
    ensures Units(x, words)[m] == pre
      + ([Label(words[m + 1])] + ([Do(EmitPlain(RawSlot(x.img, pc)))] + AfterSlot(x, pc)))
  {
    pre := SlotUnitCut(x, pc);
    NoWrap(x.img, pc);
  }

  lemma SlotLabelFound(x: Ctx, words: seq<Word>, pc: Word)
    requires GoodWords(x, words) && pc in words && x.img.In(pc) && Consumes(x, pc)
    ensures var t, code := Wrap(pc + 4), Body(x, words);
            code[FindLabel(code, t)..]
            == [Label(t), Do(EmitPlain(RawSlot(x.img, pc)))]
               + (AfterSlot(x, pc) + Join(Units(x, words), Lens(x, words), IndexOf(words, pc) + UnitLen(x, pc)))
  {
    hide LabelledUnits, Labels, FindLabel, Units, Lens, Join, AfterSlot;
    var m := ConsumedAt(x, words, pc);
    UnitsAreLabelled(x, words);
    var pre := SlotUnitAt(x, words, pc, m);
    var s, post := [Do(EmitPlain(RawSlot(x.img, pc)))], AfterSlot(x, pc);
    JoinFindsInside(Units(x, words), Lens(x, words), words, 0, m, pre, s + post);
    PairCode(Label(Wrap(pc + 4)), s[0], post, Join(Units(x, words), Lens(x, words), m + 2));
  }

  lemma SlotCodeFound(x: Ctx, words: seq<Word>, pc: Word, code: seq<Stmt>, after: seq<Stmt>)
    requires GoodWords(x, words) && pc in words && x.img.In(pc) && Consumes(x, pc) && code == Body(x, words)
    requires after == Join(Units(x, words), Lens(x, words), IndexOf(words, pc) + UnitLen(x, pc))
    ensures code[FindLabel(code, Wrap(pc + 4))..]
      == [Label(Wrap(pc + 4)), Do(EmitPlain(RawSlot(x.img, pc)))] + (AfterSlot(x, pc) + after)
  {
    SlotLabelFound(x, words, pc);
  }

  lemma CodeOf(b: Build, p: Program, pc: Word)
    requires Ready(b, p) && pc in b.Region()
    ensures var x, words := b.Context(b.Key(pc)), b.Words(b.Key(pc));
            b.Valid() && GoodWords(x, words) && pc in words && p.Code(b.Key(pc)) == Body(x, words) && x.img == b.img
  {
    WordsAreGood(b, b.Key(pc));
    assert b.Key(pc) in p.code && b.IsBody(b.Key(pc), p.code[b.Key(pc)]);
  }

  lemma AfterAt(b: Build, pc: Word)
    requires b.Valid() && pc in b.Region() && b.img.In(pc)
    ensures var x, words := b.Context(b.Key(pc)), b.Words(b.Key(pc));
            GoodWords(x, words) && pc in words
                && After(b, pc) == Join(Units(x, words), Lens(x, words), IndexOf(words, pc) + UnitLen(x, pc))
  {
    WordsAreGood(b, b.Key(pc));
  }

  /** A goto onto a consumed slot lands inside its branch's block: the slot, and then that
      branch's transfer, whatever was decided when the branch last ran. */
  lemma ConsumedGoto(b: Build, p: Program, pc: Word)
    requires Ready(b, p) && pc in b.Region() && b.img.In(pc) && Consumes(b.Context(b.Key(pc)), pc)
    ensures p.Code(b.Key(pc))[FindLabel(p.Code(b.Key(pc)), Wrap(pc + 4))..]
         == [Label(Wrap(pc + 4)), Do(EmitPlain(RawSlot(b.img, pc)))]
            + (AfterSlot(b.Context(b.Key(pc)), pc) + After(b, pc))
  {
    hide *;
    CodeOf(b, p, pc);
    AfterAt(b, pc);
    SlotCodeFound(b.Context(b.Key(pc)), b.Words(b.Key(pc)), pc, p.Code(b.Key(pc)), After(b, pc));
  }

  lemma PairCode(l: Stmt, s: Stmt, post: seq<Stmt>, rest: seq<Stmt>)
    ensures [l] + ([s] + post) + rest == [l, s] + (post + rest)
  {
  }

  lemma ControlFlowNotConsumed(x: Ctx, pc: Word)
    requires x.img.Valid() && x.img.In(pc) && IsControlFlow(x.img.At(pc))
    ensures !Consumed(x, pc)
  {
    if pc >= 4 && x.img.In(pc - 4) {
      NoWrap(x.img, pc - 4);
    }
  }

  /** The two ways on after a slot: as the end of its branch, or as a plain word reached by a jump. */
  lemma TransfersDiffer(x: Ctx, pc: Word, rest: seq<Stmt>)
    requires x.img.Valid() && x.img.In(pc) && HasSlot(x.img.At(pc))
    ensures var ins, next := x.img.At(pc), Wrap(pc + 8);
            AfterSlot(x, pc) + rest == HandOff(x, next) + rest <==>
              ((ins.J? && JumpTarget(pc, ins.target) == next) || (ins.Jr? && pc in x.jr && x.jr[pc] == next))
              && next !in x.own && next in x.visited && next in x.starts
  {
    SameTail(AfterSlot(x, pc), HandOff(x, Wrap(pc + 8)), rest);
  }

  lemma SameTail(a: seq<Stmt>, c: seq<Stmt>, rest: seq<Stmt>)
    ensures a + rest == c + rest <==> a == c
  {
    if a + rest == c + rest {
      assert |a + rest| == |a| + |rest| && |c + rest| == |c| + |rest|;
      assert (a + rest)[..|a|] == a && (c + rest)[..|c|] == c;
    }
  }

  lemma GotoMeans(b: Build, p: Program, key: Word, t: Word)
    requires b.Valid() && t in b.Region() && b.Key(t) == key
    ensures GotoOk(PlanOf(b), p, key, t) <==> p.Code(key)[FindLabel(p.Code(key), t)..] == From(b, t, 0)
  {
    hide From, FindLabel;
  }

  /** The goto lands right exactly when the slot's two ways on are the same code. */
  lemma GotoLands(b: Build, p: Program, key: Word, pc: Word, t: Word)
    requires Ready(b, p) && pc in b.Region() && t in b.Region() && b.Key(t) == key && b.Key(pc) == key && b.img.In(pc)
    requires t == Wrap(pc + 4) && Consumes(b.Context(key), pc)
    ensures GotoOk(PlanOf(b), p, key, t) <==>
              AfterSlot(b.Context(key), pc) + After(b, pc) == HandOff(b.Context(key), Wrap(pc + 8)) + After(b, pc)
  {
    hide After, AfterSlot, HandOff, Unit, FindLabel, From, GotoOk, PlanOf;
    NoWrap(b.img, pc);
    GotoMeans(b, p, key, t);
    ConsumedGoto(b, p, pc);
    SlotThenAfter(b, pc, t);
    PlainUnitLayout(b, t);
    SamePrefix([Label(t), Do(EmitPlain(RawSlot(b.img, pc)))], AfterSlot(b.Context(key), pc) + After(b, pc),
               HandOff(b.Context(key), Wrap(pc + 8)) + After(b, pc));
  }

  /** A start is never inside another start's chunk. */
  lemma StartElsewhere(b: Build, p: Program, pc: Word, next: Word)
    requires Ready(b, p) && pc in b.Region() && next in b.starts && pc < next
    ensures next in b.Region() && next !in b.Context(b.Key(pc)).own
  {
    StartFirst(b, next);
    OwnerExists(b, pc);
    OwnMeans(b, b.Key(pc), next);
  }

  /** So a jump inside its chunk lands right exactly when its target is not a consumed slot, except
      for one coincidence: the slot's owner jumps to the word after the slot, in another chunk. */
  lemma JumpExact(b: Build, p: Program, key: Word, pc: Word, t: Word)
    requires Ready(b, p) && pc in b.Region() && t in b.Region() && b.Key(t) == key && b.Key(pc) == key && b.img.In(pc)
    requires t == Wrap(pc + 4) && Consumes(b.Context(key), pc)
    ensures GotoOk(PlanOf(b), p, key, t) <==> JumpsTo(b, pc, Wrap(pc + 8)) && Wrap(pc + 8) in b.starts
  {
    NoWrap(b.img, pc);
    GotoLands(b, p, key, pc, t);
    TransfersDiffer(b.Context(key), pc, After(b, pc));
    if Wrap(pc + 8) in b.starts {
      StartElsewhere(b, p, pc, Wrap(pc + 8));
    }
  }

  lemma SamePrefix(a: seq<Stmt>, c: seq<Stmt>, d: seq<Stmt>)
    ensures a + c == a + d <==> c == d
  {
    assert (a + c)[|a|..] == c && (a + d)[|a|..] == d;
  }

  /** The chunk goes on the same way behind a transfer and behind its consumed slot. */
  lemma SlotThenAfter(b: Build, pc: Word, t: Word)
    requires b.Valid() && pc in b.Region() && t in b.Region() && b.Key(t) == b.Key(pc) && b.img.In(pc)
    requires t == pc + 4 && Consumes(b.Context(b.Key(pc)), pc)
    ensures After(b, pc) == After(b, t) && b.img.In(t) && b.img.At(t) == RawSlot(b.img, pc)
  {
    AfterAt(b, pc);
    AfterAt(b, t);
    SlotIndex(b.Context(b.Key(pc)), b.Words(b.Key(pc)), pc, t);
  }

  lemma SlotIndex(x: Ctx, words: seq<Word>, pc: Word, t: Word)
    requires GoodWords(x, words) && pc in words && t in words && t == pc + 4 && Consumes(x, pc)
    ensures IndexOf(words, pc) + UnitLen(x, pc) == IndexOf(words, t) + UnitLen(x, t)
  {
    NoWrap(x.img, pc);
    NextWord(x, words, IndexOf(words, pc), t);
    IndexUnique(words, IndexOf(words, pc) + 1);
  }

  // ---- register jumps and linking branches ----

  /** A unit with a slot runs up to its transfer: the link, the decision and the slot are done. */
  lemma ReachTransfer(b: Build, p: Program, env: Env, under: seq<Frame>, f: Frame, pc: Word, c: GoodCpu)
    returns (n: nat, f': Frame)
    requires b.Valid() && pc in b.Region() && b.img.In(pc) && HasSlot(b.img.At(pc)) && RestIs(p, f, From(b, pc, 0))
    requires SlotOk(b, env, pc, Linked(b.img.At(pc), pc, c))
    ensures CSteps(p, env, CState(under + [f], c), n) == CState(under + [f'], SlotDone(b.img, env, pc, c))
    ensures f' == Moved(f, n, SlotLocal(b, env, f, pc, c))
    ensures RestIs(p, f', AfterSlot(b.Context(b.Key(pc)), pc) + After(b, pc))
  {
    var x := b.Context(b.Key(pc));
    var line := [Label(pc)] + BeforeSlot(x, pc) + SlotCode(x, pc);
    SlotUnitLayout(b, pc);
    SlotLineHook(b, env, f, pc, c, line, []);
    assert line + [] == line;
    LineRuns(p, env, under, f, c, line, AfterSlot(x, pc) + After(b, pc));
    n, f' := |line|, Moved(f, |line|, SlotLocal(b, env, f, pc, c));
  }

  lemma {:induction false} IterateStep(p: Program, env: Env, s: CState, n: nat)
    ensures CSteps(p, env, s, n + 1) == CStep(p, env, CSteps(p, env, s, n))
    decreases n
  {
    if n == 0 {
      assert CSteps(p, env, s, 1) == CSteps(p, env, CStep(p, env, s), 0);
    } else {
      IterateStep(p, env, CStep(p, env, s), n - 1);
    }
  }

  /** Having run up to the statement st, one more step performs it. */
  lemma ThenPerform(p: Program, env: Env, s: CState, k: nat, under: seq<Frame>, f: Frame, cpu: GoodCpu, st: Stmt,
      rest: seq<Stmt>)
    requires CSteps(p, env, s, k) == CState(under + [f], cpu) && RestIs(p, f, [st] + rest)
    ensures CSteps(p, env, s, k + 1) == Perform(p, env, under, f, st, cpu)
  {
    IterateStep(p, env, s, k);
    RestHead(p, f, st, rest);
    StepOnTop(p, env, under, f, cpu);
  }

  lemma ThenDispatch(p: Program, env: Env, s: CState, k: nat, under: seq<Frame>, f: Frame, v: Local, rs: Reg,
      rest: seq<Stmt>)
    returns (n: nat)
    requires CSteps(p, env, s, k) == CState(under + [Moved(f, k, v)], v.cpu)
      && RestIs(p, Moved(f, k, v), [DispatchRegReturn(rs)] + rest)
    requires v.cond == f.cond && v.tmp == f.tmp
    ensures CSteps(p, env, s, n) == DispatchTo(p, env, under + [f.(i := |p.Code(f.chunk)|)], v.cpu.r[rs], v.cpu)
  {
    n := k + 1;
    ThenPerform(p, env, s, k, under, Moved(f, k, v), v.cpu, DispatchRegReturn(rs), rest);
    assert Moved(f, k, v).(i := |p.Code(f.chunk)|) == f.(i := |p.Code(f.chunk)|);
  }

  lemma ThenReturn(p: Program, env: Env, s: CState, k: nat, under: seq<Frame>, f: Frame, cpu: GoodCpu, rest: seq<Stmt>)
    returns (n: nat)
    requires CSteps(p, env, s, k) == CState(under + [f], cpu) && RestIs(p, f, [Return] + rest)
    ensures CSteps(p, env, s, n) == CState(under, cpu)
  {
    n := k + 1;
    ThenPerform(p, env, s, k, under, f, cpu, Return, rest);
  }

  /** An unresolved jump through a register dispatches to what the register holds after the slot. */
  lemma JumpReadsLate(b: Build, p: Program, env: Env, under: seq<Frame>, f: Frame, pc: Word, c: GoodCpu, rs: Reg)
    returns (n: nat)
    requires b.Valid() && pc in b.Region() && b.img.In(pc) && b.img.At(pc) == Jr(rs) && rs != 31 && pc !in b.jr
    requires RestIs(p, f, From(b, pc, 0)) && SlotOk(b, env, pc, c)
    ensures var c' := SlotDone(b.img, env, pc, c);
            CSteps(p, env, CState(under + [f], c), n)
            == DispatchTo(p, env, under + [f.(i := |p.Code(f.chunk)|)], c'.r[rs], c')
  {
    var k, f' := ReachTransfer(b, p, env, under, f, pc, c);
    ReturnLayout(b, pc, rs, DispatchRegReturn(rs));
    n := ThenDispatch(p, env, CState(under + [f], c), k, under, f, SlotLocal(b, env, f, pc, c), rs, After(b, pc));
  }

  /** An unresolved jr ra always returns to the suspended activation, whatever r31 holds. */
  lemma ReturnIgnoresRa(b: Build, p: Program, env: Env, under: seq<Frame>, f: Frame, pc: Word, c: GoodCpu)
    returns (n: nat)
    requires b.Valid() && pc in b.Region() && b.img.In(pc) && b.img.At(pc) == Jr(31) && pc !in b.jr
    requires RestIs(p, f, From(b, pc, 0)) && SlotOk(b, env, pc, c)
    ensures CSteps(p, env, CState(under + [f], c), n) == CState(under, SlotDone(b.img, env, pc, c))
  {
    var k, f' := ReachTransfer(b, p, env, under, f, pc, c);
    ReturnLayout(b, pc, 31, Return);
    n := ThenReturn(p, env, CState(under + [f], c), k, under, f', SlotDone(b.img, env, pc, c), After(b, pc));
  }

  // ---- counting activations ----

  /** The activations that wait for a callee: those of tail calls are used up. */
  function Waiting(p: Program, frames: seq<Frame>): nat {
    if frames == [] then 0
    else Waiting(p, frames[..|frames| - 1]) + if frames[|frames| - 1].i == |p.Code(frames[|frames| - 1].chunk)| then 0
      else 1
  }

  /** All calls that are open return into the region, but for the host's. */
  predicate ReturnsInside(region: set<Word>, stack: seq<Word>) {
    forall i :: 0 < i < |stack| ==> stack[i] in region
  }

  /** Then there is one waiting activation for every open call. */
  lemma {:induction false} CountExact(g: Plan, p: Program, frames: seq<Frame>, stack: seq<Word>)
    requires PlanOk(g, p) && StackRel(g, p, frames, stack) && ReturnsInside(g.region, stack)
    ensures |stack| == 1 + Waiting(p, frames)
    decreases |frames|
  {
    if frames != [] {
      var n, k := |frames| - 1, |stack| - 1;
      if frames[n].i == |p.Code(frames[n].chunk)| && StackRel(g, p, frames[..n], stack) {
        CountExact(g, p, frames[..n], stack);
      } else {
        CountExact(g, p, frames[..n], stack[..k]);
      }
    }
  }

  lemma UsedUpNeverResumes(g: Plan, p: Program, f: Frame, ra: Word)
    requires PlanOk(g, p) && f.i == |p.Code(f.chunk)|
    ensures !Resumes(g, p, f, ra) && !AtWord(g, p, f, ra)
  {
  }

  /** So a machine with another number of open calls is not matched. */
  lemma CallsDiffer(g: Plan, p: Program, under: seq<Frame>, f: Frame, c: GoodCpu, stack: seq<Word>, m: MState)
    requires PlanOk(g, p) && StackRel(g, p, under, stack) && ReturnsInside(g.region, stack)
    requires m.Running? && ReturnsInside(g.region, m.stack) && |m.stack| != |stack|
    ensures !Match(g, p, m, CState(under + [f], c))
  {
    InitLast(under, f);
    CountExact(g, p, under, stack);
    if StackRel(g, p, under, m.stack) { CountExact(g, p, under, m.stack); }
  }

  /** Nor is a machine that is still inside a function by the C that has left it. */
  lemma LeftBehind(g: Plan, p: Program, under: seq<Frame>, c: GoodCpu, stack: seq<Word>, m: MState)
    requires PlanOk(g, p) && StackRel(g, p, under, stack) && ReturnsInside(g.region, stack)
    requires m.Running? && ReturnsInside(g.region, m.stack) && |m.stack| >= |stack|
    ensures !Match(g, p, m, CState(under, c))
  {
    CountExact(g, p, under, stack);
    if under != [] {
      var n := |under| - 1;
      if StackRel(g, p, under[..n], m.stack) { CountExact(g, p, under[..n], m.stack); }
      if under[n].i == |p.Code(under[n].chunk)| { UsedUpNeverResumes(g, p, under[n], m.pc); }
    }
  }

  /** Nor by an activation that is used up. */
  lemma UsedUpUnmatched(g: Plan, p: Program, under: seq<Frame>, f: Frame, c: GoodCpu, m: MState)
    requires PlanOk(g, p) && f.i == |p.Code(f.chunk)| && m.Running?
    ensures !Match(g, p, m, CState(under + [f], c))
  {
    InitLast(under, f);
    UsedUpNeverResumes(g, p, f, m.pc);
  }

  // ---- branches ----

  /** The state a branch leaves, with the activation on just behind the transfer statement. */
  ghost function BranchLeaves(b: Build, p: Program, env: Env, under: seq<Frame>, on: Frame, pc: Word, c': GoodCpu,
      t: Word): CState
  {
    var code := p.Code(on.chunk);
    var gone := under + [on.(i := |code|)];
    if !on.cond then CState(under + [on], c')
    else if t in b.Region() && b.Key(t) == b.Key(pc) then CState(under + [on.(i := FindLabel(code, t))], c')
    else if t in b.starts then Enter(gone, t, c')
    else DispatchTo(p, env, gone, t, c')
  }

  lemma TakenPerforms(b: Build, p: Program, env: Env, under: seq<Frame>, f: Frame, on: Frame, pc: Word, c: GoodCpu,
      t: Word)
    requires b.Valid() && on == f.(i := f.i + 1)
    ensures Perform(p, env, under, f, TakenCode(b.Context(b.Key(pc)), t), c)
      == BranchLeaves(b, p, env, under, on, pc, c, t)
  {
    OwnMeans(b, b.Key(pc), t);
    assert on.(i := |p.Code(on.chunk)|) == f.(i := |p.Code(f.chunk)|);
    assert on.(i := FindLabel(p.Code(on.chunk), t)) == f.(i := FindLabel(p.Code(f.chunk), t));
  }

  lemma LeaveBranch(b: Build, p: Program, env: Env, s: CState, k: nat, under: seq<Frame>, f: Frame, pc: Word,
      c: GoodCpu, t: Word, st: Stmt, rest: seq<Stmt>)
    returns (n: nat, on: Frame)
    requires b.Valid() && st == TakenCode(b.Context(b.Key(pc)), t)
    requires CSteps(p, env, s, k) == CState(under + [f], c) && RestIs(p, f, [st] + rest)
    ensures on.cond == f.cond && on.chunk == f.chunk && RestIs(p, on, rest)
    ensures CSteps(p, env, s, n) == BranchLeaves(b, p, env, under, on, pc, c, t)
  {
    n, on := k + 1, f.(i := f.i + 1);
    RestHead(p, f, st, rest);
    ThenPerform(p, env, s, k, under, f, c, st, rest);
    TakenPerforms(b, p, env, under, f, on, pc, c, t);
  }

  lemma BranchReaches(b: Build, p: Program, env: Env, under: seq<Frame>, f: Frame, pc: Word, c: GoodCpu,
      linked: GoodCpu, c': GoodCpu, st: Stmt, rest: seq<Stmt>)
    returns (k: nat, on: Frame)
    requires b.Valid() && pc in b.Region() && b.img.In(pc) && b.img.At(pc).Branch?
    requires linked == Linked(b.img.At(pc), pc, c) && c' == SlotDone(b.img, env, pc, c)
    requires RestIs(p, f, From(b, pc, 0)) && SlotOk(b, env, pc, linked)
    requires AfterSlot(b.Context(b.Key(pc)), pc) + After(b, pc) == [st] + rest
    ensures on.cond == Taken(b.img.At(pc).brOp, linked.r[b.img.At(pc).rs], linked.r[b.img.At(pc).rt])
    ensures on.chunk == f.chunk && RestIs(p, on, [st] + rest)
    ensures CSteps(p, env, CState(under + [f], c), k) == CState(under + [on], c')
  {
    k, on := ReachTransfer(b, p, env, under, f, pc, c);
  }

  /** A branch runs to the state just named: it has linked, decided, and executed its slot. It decides on
      the registers after the link. */
  lemma BranchRuns(b: Build, p: Program, env: Env, under: seq<Frame>, f: Frame, pc: Word, c: GoodCpu, t: Word,
      linked: GoodCpu, c': GoodCpu, st: Stmt, rest: seq<Stmt>)
    returns (n: nat, on: Frame)
    requires b.Valid() && pc in b.Region() && b.img.In(pc) && b.img.At(pc).Branch?
      && st == TakenCode(b.Context(b.Key(pc)), t)
    requires linked == Linked(b.img.At(pc), pc, c) && c' == SlotDone(b.img, env, pc, c)
    requires RestIs(p, f, From(b, pc, 0)) && SlotOk(b, env, pc, linked)
    requires AfterSlot(b.Context(b.Key(pc)), pc) + After(b, pc) == [st] + rest
    ensures on.cond == Taken(b.img.At(pc).brOp, linked.r[b.img.At(pc).rs], linked.r[b.img.At(pc).rt])
    ensures on.chunk == f.chunk && RestIs(p, on, rest)
    ensures CSteps(p, env, CState(under + [f], c), n) == BranchLeaves(b, p, env, under, on, pc, c', t)
  {
    var k, f' := BranchReaches(b, p, env, under, f, pc, c, linked, c', st, rest);
    n, on := LeaveBranch(b, p, env, CState(under + [f], c), k, under, f', pc, c', t, st, rest);
  }

  /** The same with nothing to be named beforehand. */
  lemma BranchGoes(b: Build, p: Program, env: Env, under: seq<Frame>, f: Frame, pc: Word, c: GoodCpu, t: Word)
    returns (n: nat, on: Frame, rest: seq<Stmt>)
    requires b.Valid() && pc in b.Region() && b.img.In(pc) && b.img.At(pc).Branch?
      && t == BranchTarget(pc, b.img.At(pc).imm)
    requires RestIs(p, f, From(b, pc, 0)) && SlotOk(b, env, pc, Linked(b.img.At(pc), pc, c))
    ensures var linked := Linked(b.img.At(pc), pc, c);
      on.cond == Taken(b.img.At(pc).brOp, linked.r[b.img.At(pc).rs], linked.r[b.img.At(pc).rt])
    ensures rest == HandOff(b.Context(b.Key(pc)), Wrap(pc + 8)) + After(b, pc) && on.chunk == f.chunk
      && RestIs(p, on, rest)
    ensures CSteps(p, env, CState(under + [f], c), n)
      == BranchLeaves(b, p, env, under, on, pc, SlotDone(b.img, env, pc, c), t)
  {
    var x := b.Context(b.Key(pc));
    rest := HandOff(x, Wrap(pc + 8)) + After(b, pc);
    BranchLayout(b, pc, t);
    n, on := BranchRuns(b, p, env, under, f, pc, c, t, Linked(b.img.At(pc), pc, c), SlotDone(b.img, env, pc, c),
        TakenCode(x, t), rest);
  }

  // ---- linking branches ----

  lemma OneStep(p: Program, env: Env, s: CState)
    ensures CSteps(p, env, s, 1) == CStep(p, env, s)
  {
    assert CSteps(p, env, s, 1) == CSteps(p, env, CStep(p, env, s), 0);
  }

  lemma StepsAdd(p: Program, env: Env, s: CState, n: nat, t: CState, k: nat, u: CState) returns (m: nat)
    requires CSteps(p, env, s, n) == t && CSteps(p, env, t, k) == u
    ensures m == n + k && CSteps(p, env, s, m) == u
  {
    m := n + k;
    IterateAdd(CMachine(p, env), s, n, k);
  }

  lemma GoneUnmatched(g: Plan, p: Program, env: Env, under: seq<Frame>, gone: Frame, c: GoodCpu, stack: seq<Word>,
      m: MState)
    requires PlanOk(g, p) && StackRel(g, p, under, stack) && ReturnsInside(g.region, stack)
      && gone.i == |p.Code(gone.chunk)|
    requires m.Running? && ReturnsInside(g.region, m.stack) && |m.stack| >= |stack|
    ensures !Match(g, p, m, CState(under + [gone], c)) && !Match(g, p, m, CStep(p, env, CState(under + [gone], c)))
  {
    UsedUpUnmatched(g, p, under, gone, c, m);
    StepOnTop(p, env, under, gone, c);
    LeftBehind(g, p, under, c, stack, m);
  }

  /** The top activation is at a label, or past its code: a step changes no registers and no call. */
  lemma LabelUnmatched(g: Plan, p: Program, env: Env, under: seq<Frame>, f: Frame, c: GoodCpu, stack: seq<Word>,
      m: MState)
    requires PlanOk(g, p) && StackRel(g, p, under, stack) && ReturnsInside(g.region, stack)
    requires f.i < |p.Code(f.chunk)| ==> p.Code(f.chunk)[f.i].Label?
    requires m.Running? && ReturnsInside(g.region, m.stack) && |m.stack| == |stack| + 1
    ensures !Match(g, p, m, CState(under + [f], c)) && !Match(g, p, m, CStep(p, env, CState(under + [f], c)))
  {
    CallsDiffer(g, p, under, f, c, stack, m);
    StepOnTop(p, env, under, f, c);
    CallsDiffer(g, p, under, f.(i := f.i + 1), c, stack, m);
    LeftBehind(g, p, under, c, stack, m);
  }

  lemma EnteredUnmatched(b: Build, p: Program, env: Env, under: seq<Frame>, gone: Frame, t: Word, c: GoodCpu,
      stack: seq<Word>, m: MState)
    requires Ready(b, p) && StackRel(PlanOf(b), p, under, stack) && ReturnsInside(b.Region(), stack)
      && gone.i == |p.Code(gone.chunk)| && t in b.starts
    requires m.Running? && ReturnsInside(b.Region(), m.stack) && |m.stack| == |stack| + 1
    ensures !Match(PlanOf(b), p, m, Enter(under + [gone], t, c))
      && !Match(PlanOf(b), p, m, CStep(p, env, Enter(under + [gone], t, c)))
  {
    PlanIsOk(b, p);
    PushTail(PlanOf(b), p, under, gone, stack);
    StartPlan(b, p, t);
    UnitThenAfter(b, t);
    LabelUnmatched(PlanOf(b), p, env, under + [gone], Frame(t, 0, false, 0), c, stack, m);
  }

  lemma CallOpened(g: Plan, p: Program, under: seq<Frame>, stack: seq<Word>, ra: Word, calls: seq<Word>)
    requires StackRel(g, p, under, stack) && calls == stack + [ra] && ReturnsInside(g.region, calls)
    ensures ReturnsInside(g.region, stack) && |calls| == |stack| + 1 && |stack| >= 1 && ra in g.region
    ensures forall c: GoodCpu :: ReturnTo(c, calls) == Running(ra, c, stack)
  {
    StackNonEmpty(g, p, under, stack);
    InitLast(stack, ra);
    assert forall i :: 0 < i < |stack| ==> stack[i] == calls[i];
    assert calls[|stack|] == ra;
  }

  lemma LinkOut(b: Build, p: Program, env: Env, under: seq<Frame>, gone: Frame, c: GoodCpu, stack: seq<Word>, t: Word,
      ra: Word)
    requires Ready(b, p) && StackRel(PlanOf(b), p, under, stack) && ReturnsInside(b.Region(), stack + [ra])
    requires t !in b.Region() && t !in b.starts && gone.i == |p.Code(gone.chunk)|
    ensures var m, s := Land(env, b.Region(), t, c, stack + [ra]), DispatchTo(p, env, under + [gone], t, c);
            !Match(PlanOf(b), p, m, s) && !Match(PlanOf(b), p, m, CStep(p, env, s))
  {
    PlanIsOk(b, p);
    CallOpened(PlanOf(b), p, under, stack, ra, stack + [ra]);
    GoneUnmatched(PlanOf(b), p, env, under, gone, env.external(t, c), stack, Running(ra, env.external(t, c), stack));
  }

  lemma LinkIn(b: Build, p: Program, env: Env, under: seq<Frame>, on: Frame, c: GoodCpu, stack: seq<Word>, t: Word,
      ra: Word, s: CState)
    requires Ready(b, p) && StackRel(PlanOf(b), p, under, stack) && ReturnsInside(b.Region(), stack + [ra])
      && t in b.Region()
    requires s == CState(under + [on.(i := FindLabel(p.Code(on.chunk), t))], c)
          || (t in b.starts && s == Enter(under + [on.(i := |p.Code(on.chunk)|)], t, c))
    ensures !Match(PlanOf(b), p, Running(t, c, stack + [ra]), s)
      && !Match(PlanOf(b), p, Running(t, c, stack + [ra]), CStep(p, env, s))
  {
    PlanIsOk(b, p);
    CallOpened(PlanOf(b), p, under, stack, ra, stack + [ra]);
    if s == CState(under + [on.(i := FindLabel(p.Code(on.chunk), t))], c) {
      LabelUnmatched(PlanOf(b), p, env, under, on.(i := FindLabel(p.Code(on.chunk), t)), c, stack,
          Running(t, c, stack + [ra]));
    } else {
      EnteredUnmatched(b, p, env, under, on.(i := |p.Code(on.chunk)|), t, c, stack, Running(t, c, stack + [ra]));
    }
  }

  /** What a taken linking branch leaves does not match the machine, which has opened a call; nor does
      it one step later. */
  lemma LinkUnmatched(b: Build, p: Program, env: Env, under: seq<Frame>, on: Frame, pc: Word, c: GoodCpu,
      stack: seq<Word>, t: Word, ra: Word, s: CState)
    requires Ready(b, p) && StackRel(PlanOf(b), p, under, stack) && ReturnsInside(b.Region(), stack + [ra])
    requires pc in b.Region() && b.img.In(pc) && b.img.At(pc).Branch? && t == BranchTarget(pc, b.img.At(pc).imm)
    requires on.cond && s == BranchLeaves(b, p, env, under, on, pc, c, t)
    ensures var m := Land(env, b.Region(), t, c, stack + [ra]);
      !Match(PlanOf(b), p, m, s) && !Match(PlanOf(b), p, m, CStep(p, env, s))
  {
    if t in b.Region() {
      if b.Key(t) != b.Key(pc) { CrossingEdge(b, pc, t); }
      LinkIn(b, p, env, under, on, c, stack, t, ra, s);
    } else {
      LinkOut(b, p, env, under, on.(i := |p.Code(on.chunk)|), c, stack, t, ra);
    }
  }

  /** A linking branch about to execute, in any activation, that tests another register than its link. */
  ghost predicate AtLink(b: Build, p: Program, env: Env, under: seq<Frame>, f: Frame, pc: Word, c: GoodCpu,
      stack: seq<Word>)
    requires b.Valid()
  {
    && Here(b, p, under, f, pc, stack) && b.img.At(pc).Branch? && Links(b.img.At(pc).brOp) && b.img.At(pc).rs != 31
    && SlotOk(b, env, pc, Linked(b.img.At(pc), pc, c)) && ReturnsInside(b.Region(), stack + [Wrap(pc + 8)])
  }

  predicate TakenAt(b: Build, pc: Word, c: GoodCpu)
    requires b.img.In(pc) && b.img.At(pc).Branch?
  {
    Taken(b.img.At(pc).brOp, c.r[b.img.At(pc).rs], c.r[b.img.At(pc).rt])
  }

  lemma LinkSteps(b: Build, env: Env, pc: Word, c: GoodCpu, stack: seq<Word>, t: Word, c': GoodCpu)
    requires pc in b.Region() && b.img.In(pc) && b.img.At(pc).Branch? && Links(b.img.At(pc).brOp)
    requires t == BranchTarget(pc, b.img.At(pc).imm) && c' == SlotDone(b.img, env, pc, c)
    ensures MStep(b.img, env, b.Region(), Running(pc, c, stack))
         == if TakenAt(b, pc, c) then Land(env, b.Region(), t, c', stack + [Wrap(pc + 8)])
            else Land(env, b.Region(), Wrap(pc + 8), c', stack)
  {
  }

  /** Falling through, the C is at the next word at once or after a hand-off. */
  lemma FallsThrough(g: Plan, p: Program, env: Env, under: seq<Frame>, on: Frame, c: GoodCpu, stack: seq<Word>,
      next: Word, rest: seq<Stmt>, s: CState)
    requires PlanOk(g, p) && StackRel(g, p, under, stack) && RestIs(p, on, rest) && Continues(g, on.chunk, rest, next)
      && s == CState(under + [on], c)
    ensures Match(g, p, Running(next, c, stack), s) || Match(g, p, Running(next, c, stack), CStep(p, env, s))
  {
    ContinuesResumes(g, p, on, rest, next);
    var n := HandOver(g, p, env, under, on, next, c, stack);
    OneStep(p, env, s);
  }

  lemma BranchContinues(b: Build, pc: Word, next: Word, rest: seq<Stmt>)
    requires b.Valid() && pc in b.Region() && b.img.In(pc) && b.img.At(pc).Branch? && next == Wrap(pc + 8)
      && next in b.Region()
    requires !IsControlFlow(RawSlot(b.img, pc)) && rest == HandOff(b.Context(b.Key(pc)), next) + After(b, pc)
    ensures Continues(PlanOf(b), b.Key(pc), rest, next)
  {
    NoWrap(b.img, pc);
    Onward(b, pc, next);
  }

  /** A linking branch is followed, where it leaves its block or one step on, if and only if it is not
      taken. One way only for later steps: the C could come by other calls to a matching place. */
  lemma LinkExact(b: Build, p: Program, env: Env, under: seq<Frame>, f: Frame, pc: Word, c: GoodCpu, stack: seq<Word>,
      m: MState)
    returns (n: nat, on: Frame)
    requires Ready(b, p) && AtLink(b, p, env, under, f, pc, c, stack)
      && m == MStep(b.img, env, b.Region(), Running(pc, c, stack))
    ensures CSteps(p, env, CState(under + [f], c), n)
         == BranchLeaves(b, p, env, under, on, pc, SlotDone(b.img, env, pc, c), BranchTarget(pc, b.img.At(pc).imm))
    ensures on.cond == TakenAt(b, pc, c)
    ensures Match(PlanOf(b), p, m, CSteps(p, env, CState(under + [f], c), n))
            || Match(PlanOf(b), p, m, CSteps(p, env, CState(under + [f], c), n + 1))
       <==> !TakenAt(b, pc, c)
  {
    var start, t := CState(under + [f], c), BranchTarget(pc, b.img.At(pc).imm);
    var c' := SlotDone(b.img, env, pc, c);
    var rest: seq<Stmt>;
    n, on, rest := BranchGoes(b, p, env, under, f, pc, c, t);
    CondSaved(b.img.At(pc), pc, c);
    var s := CSteps(p, env, start, n);
    IterateStep(p, env, start, n);
    LinkSteps(b, env, pc, c, stack, t, c');
    CallOpened(PlanOf(b), p, under, stack, Wrap(pc + 8), stack + [Wrap(pc + 8)]);
    if TakenAt(b, pc, c) {
      LinkUnmatched(b, p, env, under, on, pc, c', stack, t, Wrap(pc + 8), s);
    } else {
      PlanIsOk(b, p);
      BranchContinues(b, pc, Wrap(pc + 8), rest);
      FallsThrough(PlanOf(b), p, env, under, on, c', stack, Wrap(pc + 8), rest, s);
    }
  }

  lemma SelfTest(ins: Inst, pc: Word, c: GoodCpu)
    requires ins.Branch? && Links(ins.brOp) && ins.rs == 31
    ensures var linked := Linked(ins, pc, c);
            && Taken(ins.brOp, linked.r[31], linked.r[ins.rt])
               == (if ins.brOp == Bltzal then Wrap(pc + 8) >= 0x8000_0000 else Wrap(pc + 8) < 0x8000_0000)
            && (Taken(ins.brOp, linked.r[31], linked.r[ins.rt]) == Taken(ins.brOp, c.r[31], c.r[ins.rt])
                <==> (c.r[31] >= 0x8000_0000 <==> Wrap(pc + 8) >= 0x8000_0000))
  {
  }

  /** The link is written before the test, so a linking branch that tests r31 tests its own return
      address: the C decides as the machine does if and only if the two tests agree. */
  lemma LinkTestsItself(b: Build, p: Program, env: Env, under: seq<Frame>, f: Frame, pc: Word, c: GoodCpu,
      linked: GoodCpu)
    returns (n: nat, on: Frame)
    requires b.Valid() && pc in b.Region() && b.img.In(pc) && b.img.At(pc).Branch? && Links(b.img.At(pc).brOp)
      && b.img.At(pc).rs == 31
    requires RestIs(p, f, From(b, pc, 0)) && linked == Linked(b.img.At(pc), pc, c) && SlotOk(b, env, pc, linked)
    ensures CSteps(p, env, CState(under + [f], c), n)
         == BranchLeaves(b, p, env, under, on, pc, SlotDone(b.img, env, pc, c), BranchTarget(pc, b.img.At(pc).imm))
    ensures on.cond == if b.img.At(pc).brOp == Bltzal then Wrap(pc + 8) >= 0x8000_0000 else Wrap(pc + 8) < 0x8000_0000
    ensures on.cond == TakenAt(b, pc, c) <==> (c.r[31] >= 0x8000_0000 <==> Wrap(pc + 8) >= 0x8000_0000)
  {
    var rest;
    n, on, rest := BranchGoes(b, p, env, under, f, pc, c, BranchTarget(pc, b.img.At(pc).imm));
    SelfTest(b.img.At(pc), pc, c);
  }

  /** A taken branch inside its chunk is a goto: the same activation is at the target. */
  lemma TakenArrives(b: Build, p: Program, env: Env, under: seq<Frame>, f: Frame, pc: Word, c: GoodCpu, t: Word,
      c': GoodCpu)
    returns (n: nat, g: Frame)
    requires Ready(b, p) && pc in b.Region() && b.img.In(pc) && b.img.At(pc).Branch?
      && t == BranchTarget(pc, b.img.At(pc).imm)
    requires RestIs(p, f, From(b, pc, 0)) && f.chunk == b.Key(pc) && SlotOk(b, env, pc, Linked(b.img.At(pc), pc, c))
    requires TakenAt(b, pc, c) && (Links(b.img.At(pc).brOp) ==> b.img.At(pc).rs != 31)
      && c' == SlotDone(b.img, env, pc, c)
    requires t in b.Region() && b.Key(t) == b.Key(pc) && !Consumed(b.Context(b.Key(pc)), t)
    ensures g.chunk == f.chunk && g.i == FindLabel(p.Code(f.chunk), t) && RestIs(p, g, From(b, t, 0))
    ensures CSteps(p, env, CState(under + [f], c), n) == CState(under + [g], c')
  {
    var on: Frame, rest: seq<Stmt>;
    n, on, rest := BranchGoes(b, p, env, under, f, pc, c, t);
    CondSaved(b.img.At(pc), pc, c);
    g := on.(i := FindLabel(p.Code(on.chunk), t));
    GotoArrives(b, p, b.Key(pc), t);
  }

  /** The function a taken linking branch enters returns past its caller: where the machine is back at the
      word after the slot, the C has left the activation that branched, and does not match. */
  lemma LinkReturnLost(b: Build, p: Program, env: Env, under: seq<Frame>, f: Frame, pc: Word, c: GoodCpu,
      stack: seq<Word>, t: Word, c': GoodCpu, c'': GoodCpu)
    returns (n: nat)
    requires Ready(b, p) && AtLink(b, p, env, under, f, pc, c, stack) && TakenAt(b, pc, c)
    requires t == BranchTarget(pc, b.img.At(pc).imm) && c' == SlotDone(b.img, env, pc, c) && c'.r[31] == Wrap(pc + 8)
    requires t in b.Region() && b.Key(t) == b.Key(pc) && !Consumed(b.Context(b.Key(pc)), t)
    requires b.img.In(t) && b.img.At(t) == Jr(31) && t !in b.jr && SlotOk(b, env, t, c')
      && c'' == SlotDone(b.img, env, t, c')
    ensures MStep(b.img, env, b.Region(), MStep(b.img, env, b.Region(), Running(pc, c, stack)))
      == Running(Wrap(pc + 8), c'', stack)
    ensures CSteps(p, env, CState(under + [f], c), n) == CState(under, c'')
    ensures !Match(PlanOf(b), p, Running(Wrap(pc + 8), c'', stack), CState(under, c''))
  {
    var n1, g := TakenArrives(b, p, env, under, f, pc, c, t, c');
    var n2 := ReturnIgnoresRa(b, p, env, under, g, t, c');
    n := StepsAdd(p, env, CState(under + [f], c), n1, CState(under + [g], c'), n2, CState(under, c''));
    PlanIsOk(b, p);
    CallOpened(PlanOf(b), p, under, stack, Wrap(pc + 8), stack + [Wrap(pc + 8)]);
    LeftBehind(PlanOf(b), p, under, c'', stack, Running(Wrap(pc + 8), c'', stack));
    LinkReturns(b, env, pc, c, stack, t, c', c'');
  }

  lemma LinkReturns(b: Build, env: Env, pc: Word, c: GoodCpu, stack: seq<Word>, t: Word, c': GoodCpu, c'': GoodCpu)
    requires pc in b.Region() && b.img.In(pc) && b.img.At(pc).Branch? && Links(b.img.At(pc).brOp) && TakenAt(b, pc, c)
      && stack != []
    requires t == BranchTarget(pc, b.img.At(pc).imm) && c' == SlotDone(b.img, env, pc, c) && c'.r[31] == Wrap(pc + 8)
    requires t in b.Region() && b.img.In(t) && b.img.At(t) == Jr(31) && c'' == SlotDone(b.img, env, t, c')
    ensures MStep(b.img, env, b.Region(), MStep(b.img, env, b.Region(), Running(pc, c, stack)))
      == Running(Wrap(pc + 8), c'', stack)
  {
    LinkSteps(b, env, pc, c, stack, t, c');
    InitLast(stack, Wrap(pc + 8));
  }

  // ---- register jumps ----

  /** A plain instruction leaves every register but the one it names; stubs may write any. */
  lemma SlotLeaves(env: Env, slot: Inst, rs: Reg, c: GoodCpu)
    requires !IsControlFlow(slot) && !IsStub(slot) && (Writes(slot) != Some(rs) || rs == 0)
    ensures ExecPlain(env, slot, c).r[rs] == c.r[rs]
  {
  }

  /** An unresolved jump through a register other than r31, about to execute. */
  ghost predicate AtJump(b: Build, p: Program, env: Env, under: seq<Frame>, f: Frame, pc: Word, c: GoodCpu,
      stack: seq<Word>, rs: Reg)
    requires b.Valid()
  {
    Here(b, p, under, f, pc, stack) && b.img.At(pc) == Jr(rs) && pc !in b.jr && SlotOk(b, env, pc, c)
  }

  lemma EnterElsewhere(b: Build, p: Program, frames: seq<Frame>, x: Word, y: Word, c: GoodCpu, stack: seq<Word>)
    requires Ready(b, p) && x in b.starts && y in b.Region() && x != y
    ensures !Match(PlanOf(b), p, Running(y, c, stack), Enter(frames, x, c))
  {
    hide StackRel, After, Unit;
    StartFirst(b, x);
    StartPlan(b, p, x);
    InitLast(frames, Frame(x, 0, false, 0));
    FirstLabel(b, x);
    FirstLabel(b, y);
  }

  lemma FirstLabel(b: Build, pc: Word)
    requires b.Valid() && pc in b.Region()
    ensures From(b, pc, 0) != [] && From(b, pc, 0)[0] == Label(pc)
  {
    UnitThenAfter(b, pc);
  }

  /** Where the dispatcher goes matches a machine at the start y if and only if it is asked for y. */
  lemma DispatchExact(b: Build, p: Program, env: Env, under: seq<Frame>, gone: Frame, x: Word, y: Word, c: GoodCpu,
      stack: seq<Word>)
    requires Ready(b, p) && StackRel(PlanOf(b), p, under, stack) && gone.i == |p.Code(gone.chunk)| && y in b.starts
    ensures Match(PlanOf(b), p, Running(y, c, stack), DispatchTo(p, env, under + [gone], x, c)) <==> x == y
  {
    PlanIsOk(b, p);
    PushTail(PlanOf(b), p, under, gone, stack);
    if x == y {
      EnterArrives(PlanOf(b), p, under + [gone], y, c, stack);
    } else if x in b.starts {
      EnterElsewhere(b, p, under + [gone], x, y, c, stack);
    } else {
      UsedUpUnmatched(PlanOf(b), p, under, gone, env.external(x, c), Running(y, c, stack));
    }
  }

  /** Nor does an entered function match a machine that came back from outside code. */
  lemma EnteredInside(g: Plan, p: Program, frames: seq<Frame>, x: Word, c: GoodCpu, stack: seq<Word>, cpu: GoodCpu)
    requires PlanOk(g, p) && StackRel(g, p, frames, stack) && ReturnsInside(g.region, stack)
    ensures !Match(g, p, ReturnTo(cpu, stack), Enter(frames, x, c))
  {
    InitLast(frames, Frame(x, 0, false, 0));
    CountExact(g, p, frames, stack);
    if |stack| > 1 {
      var calls := stack[..|stack| - 1];
      if StackRel(g, p, frames, calls) { CountExact(g, p, frames, calls); }
    }
  }

  /** A state that matches the return from outside code matches another landing only if that is outside
      code as well, and leaves the same. */
  lemma OutsideMatched(g: Plan, p: Program, env: Env, w: CState, x: Word, y: Word, c: GoodCpu, stack: seq<Word>)
    requires PlanOk(g, p) && ReturnsInside(g.region, stack) && stack != []
      && Match(g, p, ReturnTo(env.external(x, c), stack), w)
    ensures Match(g, p, Land(env, g.region, y, c, stack), w)
      <==> y !in g.region && env.external(x, c) == env.external(y, c)
  {
    if y in g.region && |stack| > 1 {
      var k := |w.frames| - 1;
      CountExact(g, p, w.frames[..k], stack[..|stack| - 1]);
      if StackRel(g, p, w.frames[..k], stack) { CountExact(g, p, w.frames[..k], stack); }
    }
  }

  /** After a dispatch to outside code the C comes back to where the innermost open call returns. */
  lemma OutsideReturns(b: Build, p: Program, env: Env, s: CState, k: nat, under: seq<Frame>, gone: Frame, c: GoodCpu,
      stack: seq<Word>)
    returns (n: nat, w: CState)
    requires Ready(b, p) && StackRel(PlanOf(b), p, under, stack) && ReturnsInside(b.Region(), stack)
      && gone.i == |p.Code(gone.chunk)|
    requires CSteps(p, env, s, k) == CState(under + [gone], c)
    ensures stack != [] && w == CSteps(p, env, s, n) && Match(PlanOf(b), p, ReturnTo(c, stack), w)
  {
    PlanIsOk(b, p);
    StackNonEmpty(PlanOf(b), p, under, stack);
    PushTail(PlanOf(b), p, under, gone, stack);
    var l := Unwind(PlanOf(b), p, env, under + [gone], c, stack);
    w := CSteps(p, env, CState(under + [gone], c), l);
    n := StepsAdd(p, env, s, k, CState(under + [gone], c), l, w);
  }

  /** The machine jumps to y, the C dispatches to x, and one of them is a start. */
  lemma LateStart(b: Build, p: Program, env: Env, under: seq<Frame>, gone: Frame, x: Word, y: Word, c: GoodCpu,
      stack: seq<Word>)
    requires Ready(b, p) && StackRel(PlanOf(b), p, under, stack) && gone.i == |p.Code(gone.chunk)|
    requires y in b.starts || (x in b.starts && ReturnsInside(b.Region(), stack))
    ensures Match(PlanOf(b), p, Land(env, b.Region(), y, c, stack), DispatchTo(p, env, under + [gone], x, c))
      <==> x == y
  {
    PlanIsOk(b, p);
    if y in b.starts {
      StartFirst(b, y);
      DispatchExact(b, p, env, under, gone, x, y, c, stack);
    } else {
      PushTail(PlanOf(b), p, under, gone, stack);
      if y in b.Region() {
        EnterElsewhere(b, p, under + [gone], x, y, c, stack);
      } else {
        EnteredInside(PlanOf(b), p, under + [gone], x, c, stack, env.external(y, c));
      }
    }
  }

  /** The C reads the register of an unresolved jump after the slot, the machine before: say x and y. If y
      or x is a start, the jump is followed, where it leaves its block, if and only if x is y. If neither is,
      the C runs outside code and comes back to the innermost open call; then the jump is followed if and
      only if y is outside the region too and the two calls of outside code change the same. */
  lemma JumpLateExact(b: Build, p: Program, env: Env, under: seq<Frame>, f: Frame, pc: Word, c: GoodCpu,
      stack: seq<Word>, rs: Reg, c': GoodCpu, x: Word, y: Word)
    returns (n: nat, w: CState)
    requires Ready(b, p) && AtJump(b, p, env, under, f, pc, c, stack, rs) && rs != 31
      && c' == SlotDone(b.img, env, pc, c)
    requires x == c'.r[rs] && y == c.r[rs] && (y in b.starts || ReturnsInside(b.Region(), stack))
    ensures w == CSteps(p, env, CState(under + [f], c), n)
    ensures if y in b.starts || x in b.starts then w == DispatchTo(p, env, under + [f.(i := |p.Code(f.chunk)|)], x, c')
            else Match(PlanOf(b), p, ReturnTo(env.external(x, c'), stack), w)
    ensures Match(PlanOf(b), p, MStep(b.img, env, b.Region(), Running(pc, c, stack)), w)
       <==> if y in b.starts || x in b.starts then x == y
            else y !in b.Region() && env.external(x, c') == env.external(y, c')
  {
    var gone := f.(i := |p.Code(f.chunk)|);
    n := JumpReadsLate(b, p, env, under, f, pc, c, rs);
    w := CSteps(p, env, CState(under + [f], c), n);
    LateSteps(b, env, pc, c, stack, rs, c');
    if y in b.starts || x in b.starts {
      LateStart(b, p, env, under, gone, x, y, c', stack);
    } else {
      PlanIsOk(b, p);
      n, w := OutsideReturns(b, p, env, CState(under + [f], c), n, under, gone, env.external(x, c'), stack);
      OutsideMatched(PlanOf(b), p, env, w, x, y, c', stack);
    }
  }

  lemma LateSteps(b: Build, env: Env, pc: Word, c: GoodCpu, stack: seq<Word>, rs: Reg, c': GoodCpu)
    requires pc in b.Region() && b.img.In(pc) && b.img.At(pc) == Jr(rs) && rs != 31 && c' == SlotDone(b.img, env, pc, c)
    ensures MStep(b.img, env, b.Region(), Running(pc, c, stack)) == Land(env, b.Region(), c.r[rs], c', stack)
  {
  }

  lemma ReturnArrives(b: Build, p: Program, env: Env, under: seq<Frame>, f: Frame, pc: Word, c: GoodCpu,
      stack: seq<Word>, c': GoodCpu)
    returns (n: nat, w: CState)
    requires Ready(b, p) && AtJump(b, p, env, under, f, pc, c, stack, 31) && ReturnsInside(b.Region(), stack)
      && c' == SlotDone(b.img, env, pc, c)
    ensures stack != [] && w == CSteps(p, env, CState(under + [f], c), n) && Match(PlanOf(b), p, ReturnTo(c', stack), w)
  {
    PlanIsOk(b, p);
    StackNonEmpty(PlanOf(b), p, under, stack);
    var n1 := ReturnIgnoresRa(b, p, env, under, f, pc, c);
    var n2 := Unwind(PlanOf(b), p, env, under, c', stack);
    w := CSteps(p, env, CState(under, c'), n2);
    n := StepsAdd(p, env, CState(under + [f], c), n1, CState(under, c'), n2, w);
  }

  lemma ReturnSteps(b: Build, env: Env, pc: Word, c: GoodCpu, stack: seq<Word>, c': GoodCpu)
    requires pc in b.Region() && b.img.In(pc) && b.img.At(pc) == Jr(31) && stack != []
      && c' == SlotDone(b.img, env, pc, c)
    ensures MStep(b.img, env, b.Region(), Running(pc, c, stack))
         == if c.r[31] == stack[|stack| - 1] then ReturnTo(c', stack) else Land(env, b.Region(), c.r[31], c', stack)
  {
  }

  /** The machine comes back from an unresolved jr ra where the C does if and only if r31 holds the return
      address of the innermost open call; but for code outside the region that changes nothing. */
  lemma ReturnExact(b: Build, p: Program, env: Env, under: seq<Frame>, f: Frame, pc: Word, c: GoodCpu,
      stack: seq<Word>, c': GoodCpu)
    returns (n: nat, w: CState)
    requires Ready(b, p) && AtJump(b, p, env, under, f, pc, c, stack, 31) && ReturnsInside(b.Region(), stack)
      && c' == SlotDone(b.img, env, pc, c)
    ensures stack != [] && w == CSteps(p, env, CState(under + [f], c), n) && Match(PlanOf(b), p, ReturnTo(c', stack), w)
    ensures Match(PlanOf(b), p, MStep(b.img, env, b.Region(), Running(pc, c, stack)), w)
       <==> c.r[31] == stack[|stack| - 1] || (c.r[31] !in b.Region() && env.external(c.r[31], c') == c')
  {
    n, w := ReturnArrives(b, p, env, under, f, pc, c, stack, c');
    ReturnSteps(b, env, pc, c, stack, c');
    PlanIsOk(b, p);
    ReturnMatched(PlanOf(b), p, env, w, c.r[31], c', stack);
  }

  /** A state that matches the return matches a jump to ra only if they are the same. */
  lemma ReturnMatched(g: Plan, p: Program, env: Env, w: CState, ra: Word, c: GoodCpu, stack: seq<Word>)
    requires PlanOk(g, p) && ReturnsInside(g.region, stack) && stack != [] && Match(g, p, ReturnTo(c, stack), w)
    ensures var m := if ra == stack[|stack| - 1] then ReturnTo(c, stack) else Land(env, g.region, ra, c, stack);
            Match(g, p, m, w) <==> ra == stack[|stack| - 1] || (ra !in g.region && env.external(ra, c) == c)
  {
    if ra != stack[|stack| - 1] && ra in g.region && |stack| > 1 {
      var k := |w.frames| - 1;
      CountExact(g, p, w.frames[..k], stack[..|stack| - 1]);
      if StackRel(g, p, w.frames[..k], stack) { CountExact(g, p, w.frames[..k], stack); }
    }
  }
}
