/** Where everything is in an emitted program: the facts about chunks, units, labels and starts
    that the step-by-step proof uses. */
module Layout {
  import opened Options
  import opened Words
  import opened Mips
  import opened CCode
  import opened Emitter
  import opened Machines
  import opened Simulation
  import opened Seqs
  import Split

  /** A build and its output: every start is a reachable word, and the BIOS gates lie outside. */
  ghost predicate Ready(b: Build, p: Program) {
    && b.Valid() && b.IsProgram(p)
    && b.starts <= b.Region()
    && GATES !! b.Region()
  }

  ghost function IndexOf(words: seq<Word>, a: Word): (i: nat)
    requires a in words
    ensures i < |words| && words[i] == a
  {
    if words[0] == a then 0 else 1 + IndexOf(words[1..], a)
  }

  /** The units of pc's chunk from the given word on. */
  ghost function From(b: Build, pc: Word, skip: nat): seq<Stmt>
    requires b.Valid() && pc in b.Region()
  {
    var key := b.Key(pc);
    WordsAreGood(b, key);
    var x, words := b.Context(key), b.Words(key);
    Join(Units(x, words), Lens(x, words), IndexOf(words, pc) + skip)
  }

  /** What follows the unit of pc in its chunk. */
  ghost function After(b: Build, pc: Word): seq<Stmt>
    requires b.Valid() && pc in b.Region()
  {
    WordsAreGood(b, b.Key(pc));
    From(b, pc, UnitLen(b.Context(b.Key(pc)), pc))
  }

  ghost function PlanOf(b: Build): Plan
    requires b.Valid()
  {
    Plan(b.Region(), b.starts, map a | a in b.Region() :: b.Key(a), map a | a in b.Region() :: From(b, a, 0))
  }

  lemma UnitThenAfter(b: Build, pc: Word)
    requires b.Valid() && pc in b.Region()
    ensures b.img.In(pc) && From(b, pc, 0) == Unit(b.Context(b.Key(pc)), pc) + After(b, pc)
  {
    var key := b.Key(pc);
    WordsAreGood(b, key);
    var x, words := b.Context(key), b.Words(key);
    var i := IndexOf(words, pc);
    assert Units(x, words)[i] == Unit(x, pc) && Lens(x, words)[i] == UnitLen(x, pc);
  }

  lemma OwnMeans(b: Build, key: Word, a: Word)
    requires b.Valid()
    ensures a in b.Context(key).own <==> a in b.Region() && b.Key(a) == key
  {
    WordsAreGood(b, key);
  }

  // ---- starts ----

  lemma {:induction false} OwnerAbove(starts: set<Word>, s: Word, pc: Word)
    requires s in starts && s <= pc
    ensures Split.Owner(starts, pc).Some?
    decreases pc - s
  {
    if pc !in starts {
      OwnerAbove(starts, s, pc - 1);
    }
  }

  /** A reachable word has a start at or below it, and that start names its chunk. */
  lemma OwnerExists(b: Build, pc: Word)
    requires b.Valid() && pc in b.Region()
    ensures Split.Owner(b.starts, pc) == Some(b.Key(pc))
    ensures b.Key(pc) in b.starts && b.Key(pc) <= pc
  {
    var v0 := b.visited[0];
    var initial := Split.InitialStarts(b.visited, b.functions, b.jr);
    var s :| s in initial && s <= v0;
    OwnerAbove(b.starts, s, pc);
  }

  /** The words of a start's chunk begin with the start. */
  lemma StartFirst(b: Build, a: Word)
    requires b.Valid() && a in b.starts && a in b.Region()
    ensures b.Key(a) == a && a in b.Words(a) && IndexOf(b.Words(a), a) == 0
  {
    WordsAreGood(b, a);
    var words := b.Words(a);
    var i := IndexOf(words, a);
    if i > 0 {
      assert words[0] in words;
      OwnerExists(b, words[0]);
    }
  }

  /** An edge that leaves its chunk lands on a start. */
  lemma CrossingEdge(b: Build, pc: Word, t: Word)
    requires b.Valid() && pc in b.Region() && t in b.Region() && b.img.In(pc)
    requires Split.Edge(b.img.At(pc), pc, t) && b.Key(t) != b.Key(pc)
    ensures t in b.starts
  {
    OwnerExists(b, pc);
    OwnerExists(b, t);
    assert Split.EdgesOk(b.img, b.Region(), b.starts, pc);
  }

  /** Resolved register jumps to reachable words land on starts. */
  lemma ResolvedStart(b: Build, pc: Word)
    requires b.Valid() && pc in b.jr && b.jr[pc] in b.Region()
    ensures b.jr[pc] in b.starts
  {
    assert b.jr[pc] in Split.InitialStarts(b.visited, b.functions, b.jr);
  }

  lemma StartPlan(b: Build, p: Program, a: Word)
    requires Ready(b, p) && a in b.starts
    ensures b.Key(a) == a && From(b, a, 0) == p.Code(a)
  {
    StartFirst(b, a);
    WordsAreGood(b, a);
    assert b.IsBody(a, p.code[a]);
  }

  lemma PlanIsOk(b: Build, p: Program)
    requires Ready(b, p)
    ensures PlanOk(PlanOf(b), p)
  {
    forall a | a in b.starts ensures b.Key(a) == a && From(b, a, 0) == p.Code(a) {
      StartPlan(b, p, a);
    }
    forall a | a in b.Region() ensures From(b, a, 0) != [] {
      UnitThenAfter(b, a);
    }
  }

  // ---- moving inside a chunk ----

  /** The next listed word is the next one the chunk owns. */
  lemma FollowingWord(x: Ctx, words: seq<Word>, j: nat, next: Word)
    requires GoodWords(x, words) && j < |words| && next in words
    requires next == words[j] as int + 4 || (next == words[j] as int + 8 && Wrap(words[j] + 4) !in words)
    ensures j + 1 < |words| && words[j + 1] == next
  {
    NoWrap(x.img, words[j]);
    assert words[j + 1] in words;
  }

  lemma IndexUnique(words: seq<Word>, j: nat)
    requires Split.Spaced(words) && j < |words|
    ensures IndexOf(words, words[j]) == j
  {
    var i := IndexOf(words, words[j]);
  }

  ghost predicate Follows(img: Image, pc: Word, next: Word)
    requires img.In(pc)
  {
    if HasSlot(img.At(pc)) then next == pc + 8 && !IsControlFlow(RawSlot(img, pc)) else next == pc + 4
  }

  lemma NextIndex(x: Ctx, words: seq<Word>, j: nat, next: Word)
    requires GoodWords(x, words) && j < |words| && next in words && Follows(x.img, words[j], next)
    ensures j + UnitLen(x, words[j]) < |words| && words[j + UnitLen(x, words[j])] == next
  {
    NoWrap(x.img, words[j]);
    if UnitLen(x, words[j]) == 2 {
      NextWord(x, words, j, words[j] + 4);
      NextWord(x, words, j + 1, next);
    } else {
      FollowingWord(x, words, j, next);
    }
  }

  lemma FromAt(b: Build, pc: Word, skip: nat, key: Word, k: nat)
    requires b.Valid() && pc in b.Region() && key == b.Key(pc)
    requires pc in b.Words(key) && k == IndexOf(b.Words(key), pc) + skip
    requires GoodWords(b.Context(key), b.Words(key))
    ensures From(b, pc, skip) == Join(Units(b.Context(key), b.Words(key)), Lens(b.Context(key), b.Words(key)), k)
  {
    WordsAreGood(b, key);
  }

  /** Code that continues past a unit inside the chunk continues with the right word. */
  lemma NextAfter(b: Build, pc: Word, next: Word)
    requires b.Valid() && pc in b.Region() && b.img.In(pc) && Follows(b.img, pc, next)
    requires next in b.Region() && b.Key(next) == b.Key(pc)
    ensures After(b, pc) == From(b, next, 0)
  {
    var key := b.Key(pc);
    WordsAreGood(b, key);
    var words, x := b.Words(key), b.Context(key);
    var j := IndexOf(words, pc);
    var k := j + UnitLen(x, pc);
    NextIndex(x, words, j, next);
    IndexUnique(words, k);
    FromAt(b, pc, UnitLen(x, pc), key, k);
    FromAt(b, next, 0, key, k);
  }

  /** A goto inside the chunk arrives at a word that is not a consumed slot. */
  lemma GotoArrives(b: Build, p: Program, key: Word, a: Word)
    requires Ready(b, p) && a in b.Region() && b.Key(a) == key
    requires !Consumed(b.Context(key), a)
    ensures GotoOk(PlanOf(b), p, key, a)
  {
    WordsAreGood(b, key);
    var words := b.Words(key);
    assert key in p.code && b.IsBody(key, p.code[key]);
    GotoFinds(b.Context(key), words, IndexOf(words, a));
  }

  /** After a unit whose flow continues, the code goes on at the following address: it is the
      next unit of the chunk, or it starts another chunk and is handed over to. */
  lemma Onward(b: Build, pc: Word, next: Word)
    requires b.Valid() && pc in b.Region() && b.img.In(pc)
    requires next in b.Region() && Follows(b.img, pc, next)
    requires Split.FallthroughOf(b.img.At(pc), pc) == Some(next)
    ensures Continues(PlanOf(b), b.Key(pc), HandOff(b.Context(b.Key(pc)), next) + After(b, pc), next)
  {
    OwnMeans(b, b.Key(pc), next);
    if b.Key(next) == b.Key(pc) {
      NextAfter(b, pc, next);
      EmptySum(After(b, pc));
    } else {
      CrossingEdge(b, pc, next);
    }
  }

  // ---- units as line and rest ----

  /** A unit with a slot: the part up to the slot's end, then the transfer. */
  lemma SlotUnitLayout(b: Build, pc: Word)
    requires b.Valid() && pc in b.Region() && b.img.In(pc) && HasSlot(b.img.At(pc))
    ensures var x := b.Context(b.Key(pc));
            From(b, pc, 0) == ([Label(pc)] + BeforeSlot(x, pc) + SlotCode(x, pc)) + (AfterSlot(x, pc) + After(b, pc))
  {
    var x := b.Context(b.Key(pc));
    UnitThenAfter(b, pc);
    Regroup([Label(pc)] + BeforeSlot(x, pc) + SlotCode(x, pc), AfterSlot(x, pc), After(b, pc));
  }

  lemma PlainUnitLayout(b: Build, pc: Word)
    requires b.Valid() && pc in b.Region() && b.img.In(pc) && !IsControlFlow(b.img.At(pc))
    ensures From(b, pc, 0) == [Label(pc), Do(EmitPlain(b.img.At(pc)))]
      + (HandOff(b.Context(b.Key(pc)), Wrap(pc + 4)) + After(b, pc))
  {
    var x := b.Context(b.Key(pc));
    UnitThenAfter(b, pc);
    Regroup([Label(pc), Do(EmitPlain(b.img.At(pc)))], HandOff(x, Wrap(pc + 4)), After(b, pc));
  }

  /** The transfers, written as their first statement and what is behind it. */
  lemma BranchLayout(b: Build, pc: Word, t: Word)
    requires b.Valid() && pc in b.Region() && b.img.In(pc) && b.img.At(pc).Branch?
      && t == BranchTarget(pc, b.img.At(pc).imm)
    ensures var x := b.Context(b.Key(pc));
            AfterSlot(x, pc) + After(b, pc) == [TakenCode(x, t)] + (HandOff(x, Wrap(pc + 8)) + After(b, pc))
  {
    var x := b.Context(b.Key(pc));
    Regroup([TakenCode(x, t)], HandOff(x, Wrap(pc + 8)), After(b, pc));
  }

  lemma CallLayout(b: Build, pc: Word, s: Stmt)
    requires b.Valid() && pc in b.Region() && b.img.In(pc)
    requires var x := b.Context(b.Key(pc));
             || (b.img.At(pc).Jal? && s == CallCode(x, JumpTarget(pc, b.img.At(pc).target)))
             || (b.img.At(pc).Jalr? && s == if pc !in b.jr then DispatchTmp
                else if b.jr[pc] in b.starts then Call(b.jr[pc]) else DispatchReturn(b.jr[pc]))
    ensures var x := b.Context(b.Key(pc));
            AfterSlot(x, pc) + After(b, pc) == [s] + (HandOff(x, Wrap(pc + 8)) + After(b, pc))
  {
    var x := b.Context(b.Key(pc));
    Regroup([s], HandOff(x, Wrap(pc + 8)), After(b, pc));
  }

  /** J, and jr to a target that discovery resolved. */
  predicate JumpsTo(b: Build, pc: Word, t: Word)
    requires b.img.In(pc)
  {
    (b.img.At(pc).J? && t == JumpTarget(pc, b.img.At(pc).target)) || (b.img.At(pc).Jr? && pc in b.jr && b.jr[pc] == t)
  }

  lemma JumpLayout(b: Build, pc: Word, t: Word)
    requires b.Valid() && pc in b.Region() && b.img.In(pc) && JumpsTo(b, pc, t) && t != pc
    ensures var x := b.Context(b.Key(pc));
            var post := Transfer(x, t, pc);
            |post| == 1 && AfterSlot(x, pc) + After(b, pc) == [post[0]] + After(b, pc)
  {
    var x := b.Context(b.Key(pc));
    var post := Transfer(x, t, pc);
    assert AfterSlot(x, pc) == post == [post[0]];
  }

  lemma ParkLayout(b: Build, pc: Word)
    requires b.Valid() && pc in b.Region() && b.img.In(pc) && JumpsTo(b, pc, pc)
    ensures AfterSlot(b.Context(b.Key(pc)), pc) + After(b, pc) == [ParkTick] + ([Goto(pc)] + After(b, pc))
  {
    var x := b.Context(b.Key(pc));
    OwnMeans(b, b.Key(pc), pc);
    assert AfterSlot(x, pc) == [ParkTick, Goto(pc)];
    PairThen(ParkTick, Goto(pc), After(b, pc));
  }

  lemma ReturnLayout(b: Build, pc: Word, rs: Reg, s: Stmt)
    requires b.Valid() && pc in b.Region() && b.img.In(pc) && b.img.At(pc) == Jr(rs) && pc !in b.jr
    requires s == if rs == 31 then Return else DispatchRegReturn(rs)
    ensures AfterSlot(b.Context(b.Key(pc)), pc) + After(b, pc) == [s] + After(b, pc)
  {
  }

  lemma TrapLayout(b: Build, pc: Word, s: Stmt)
    requires b.Valid() && pc in b.Region() && b.img.In(pc)
    requires (b.img.At(pc).Syscall? && s == SyscallStub) || (b.img.At(pc).Break? && s == BreakStub(b.img.At(pc).code))
    ensures From(b, pc, 0) == [Label(pc), s] + After(b, pc)
  {
    UnitThenAfter(b, pc);
  }
}
