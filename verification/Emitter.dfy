/** Translation of one chunk into C statements (step 3 of emit): labels, plain statements, gotos,
    calls, tail calls, dispatches and returns, in the order emit_body writes them. */
module Emitter {
  import opened Words
  import opened Mips
  import opened CCode
  import opened Seqs
  import Split

  datatype Stmt =
    | Label(a: Word)
    | Do(s: Simple)
    | SetCond(op: BranchOp, rs: Reg, rt: Reg) // uint32_t __c = (...) ? 1u : 0u;
    | SetTmp(rs: Reg) // uint32_t __t = r[rs];
    | Goto(a: Word)
    | IfGoto(a: Word) // if (__c) goto L_a;
    | IfTailCall(a: Word) // if (__c) { fn_a(); return; }
    | IfDispatchReturn(a: Word) // if (__c) DISPATCH(a);
    | Call(a: Word) // fn_a();
    | TailCall(a: Word) // fn_a(); return;
    | Dispatch(a: Word) // xenolift_dispatch(a);
    | DispatchTmp // xenolift_dispatch(__t);
    | DispatchReturn(a: Word) // DISPATCH(a): xenolift_dispatch(a); return;
    | DispatchRegReturn(rs: Reg) // DISPATCH(r[rs]);
    | Return
    | ParkTick
    | SyscallStub
    | BreakStub(code: Word)

  /** What emit_body reads: the image, all starts, the chunk's own words, resolved register
      jumps, and all reachable words. */
  datatype Ctx = Ctx(img: Image, starts: set<Word>, own: set<Word>, jr: map<Word, Word>, visited: set<Word>)

  /** The instruction in the delay slot; a word past the image reads as a nop. */
  function RawSlot(img: Image, pc: Word): Inst
    requires img.In(pc)
  {
    if img.In(pc + 4) then img.At(pc + 4) else Nop
  }

  /** Near a word of the image, addresses do not wrap around. */
  lemma NoWrap(img: Image, pc: Word)
    requires img.Valid() && img.In(pc)
    ensures Wrap(pc + 4) == pc + 4 && Wrap(pc + 8) == pc + 8
  {
  }

  /** The slot is written inside its branch's block: it belongs to the chunk and is plain. */
  predicate Consumes(x: Ctx, pc: Word)
    requires x.img.In(pc)
  {
    HasSlot(x.img.At(pc)) && Wrap(pc + 4) in x.own && !IsControlFlow(RawSlot(x.img, pc))
  }

  /** The word at a is written inside the block of the branch before it. */
  predicate Consumed(x: Ctx, a: Word)
  {
    a >= 4 && x.img.In(a - 4) && a - 4 in x.own && Consumes(x, a - 4)
  }

  function SlotCode(x: Ctx, pc: Word): seq<Stmt>
    requires x.img.In(pc)
  {
    var raw := RawSlot(x.img, pc);
    var slot := if IsControlFlow(raw) then Nop else raw;
    (if Wrap(pc + 4) in x.own && !IsControlFlow(raw) then [Label(Wrap(pc + 4))] else []) + [Do(EmitPlain(slot))]
  }

  function Transfer(x: Ctx, t: Word, pc: Word): seq<Stmt> {
    if t in x.own then (if t == pc then [ParkTick, Goto(t)] else [Goto(t)])
    else if t in x.starts then [TailCall(t)]
    else [DispatchReturn(t)]
  }

  function TakenCode(x: Ctx, t: Word): Stmt {
    if t in x.own then IfGoto(t) else if t in x.starts then IfTailCall(t) else IfDispatchReturn(t)
  }

  function CallCode(x: Ctx, t: Word): Stmt {
    if t in x.starts then Call(t) else Dispatch(t)
  }

  /** Flow that continues straight into another chunk is handed over by a tail call. */
  function HandOff(x: Ctx, next: Word): seq<Stmt> {
    if next !in x.own && next in x.visited then [TailCall(next)] else []
  }

  function Link(d: Reg, pc: Word): seq<Stmt> {
    if d != 0 then [Do(SetReg(d, Lit(Wrap(pc + 8))))] else []
  }

  /** What a unit with a slot does before its slot: link, and save what the slot may clobber. */
  function BeforeSlot(x: Ctx, pc: Word): seq<Stmt>
    requires x.img.In(pc) && HasSlot(x.img.At(pc))
  {
    match x.img.At(pc)
    case Branch(op, rs, rt, _) => (if Links(op) then Link(31, pc) else []) + [SetCond(op, rs, rt)]
    case Jal(_) => Link(31, pc)
    case Jalr(rd, rs) => (if pc in x.jr then [] else [SetTmp(rs)]) + Link(rd, pc)
    case _ => []
  }

  /** The transfer after the slot, and the hand-off when flow can continue past the unit. */
  function AfterSlot(x: Ctx, pc: Word): seq<Stmt>
    requires x.img.In(pc) && HasSlot(x.img.At(pc))
  {
    match x.img.At(pc)
    case Branch(_, _, _, imm) => [TakenCode(x, BranchTarget(pc, imm))] + HandOff(x, Wrap(pc + 8))
    case J(index) => Transfer(x, JumpTarget(pc, index), pc)
    case Jal(index) => [CallCode(x, JumpTarget(pc, index))] + HandOff(x, Wrap(pc + 8))
    case Jr(rs) =>
      if pc in x.jr then Transfer(x, x.jr[pc], pc) else if rs == 31 then [Return] else [DispatchRegReturn(rs)]
    case Jalr(_, _) =>
      [if pc !in x.jr then DispatchTmp
       else if x.jr[pc] in x.starts then Call(x.jr[pc]) else DispatchReturn(x.jr[pc])]
      + HandOff(x, Wrap(pc + 8))
    case _ => []
  }

  /** The statements for the word at pc, with its delay slot if it has one. */
  function Unit(x: Ctx, pc: Word): (code: seq<Stmt>)
    requires x.img.In(pc)
    ensures |code| >= 1 && code[0] == Label(pc)
  {
    var ins := x.img.At(pc);
    if HasSlot(ins) then [Label(pc)] + BeforeSlot(x, pc) + SlotCode(x, pc) + AfterSlot(x, pc)
    else if ins.Syscall? then [Label(pc), SyscallStub]
    else if ins.Break? then [Label(pc), BreakStub(ins.code)]
    else [Label(pc), Do(EmitPlain(ins))] + HandOff(x, Wrap(pc + 4))
  }

  function UnitLen(x: Ctx, pc: Word): nat
    requires x.img.In(pc)
  {
    if Consumes(x, pc) then 2 else 1
  }

  ghost predicate GoodWords(x: Ctx, words: seq<Word>) {
    && x.img.Valid()
    && Split.Spaced(words)
    && (forall i :: 0 <= i < |words| ==> x.img.In(words[i]))
    && x.own == Split.Elems(words)
  }

  ghost function Units(x: Ctx, words: seq<Word>): seq<seq<Stmt>>
    requires GoodWords(x, words)
  {
    seq(|words|, i requires 0 <= i < |words| => Unit(x, words[i]))
  }

  ghost function Lens(x: Ctx, words: seq<Word>): seq<nat>
    requires GoodWords(x, words)
  {
    seq(|words|, i requires 0 <= i < |words| => UnitLen(x, words[i]))
  }

  /** Concatenate units from the j-th on, where unit i accounts for lens[i] words. */
  ghost function Join(units: seq<seq<Stmt>>, lens: seq<nat>, j: nat): seq<Stmt>
    requires |lens| == |units|
    decreases |units| - j
  {
    if j >= |units| then []
    else units[j] + Join(units, lens, j + if lens[j] == 2 then 2 else 1)
  }

  /** The whole body of a chunk. */
  ghost function Body(x: Ctx, words: seq<Word>): seq<Stmt>
    requires GoodWords(x, words)
  {
    Join(Units(x, words), Lens(x, words), 0)
  }

  lemma JoinStep(units: seq<seq<Stmt>>, lens: seq<nat>, o: seq<Stmt>, j: nat, n: nat)
    requires |lens| == |units| && j < |units| && n == lens[j] && 1 <= n <= 2
    ensures o + Join(units, lens, j) == (o + units[j]) + Join(units, lens, j + n)
  {
    Regroup(o, units[j], Join(units, lens, j + n));
  }

  /** emit_body: the loop over a chunk's words, skipping slots that were consumed. */
  method EmitBody(x: Ctx, words: seq<Word>) returns (o: seq<Stmt>)
    requires GoodWords(x, words)
    ensures o == Body(x, words)
  {
    hide Unit, Consumes, Split.Spaced, Split.Elems;
    ghost var units, lens := Units(x, words), Lens(x, words);
    o := [];
    var i := 0;
    while i < |words|
      invariant 0 <= i
      invariant o + Join(units, lens, i) == Join(units, lens, 0)
      decreases |words| - i
    {
      var pc := words[i];
      JoinStep(units, lens, o, i, UnitLen(x, pc));
      o := o + Unit(x, pc);
      i := i + UnitLen(x, pc);
    }
  }

  // ---- labels ----

  ghost function Labels(code: seq<Stmt>): seq<Word> {
    if code == [] then []
    else (if code[0].Label? then [code[0].a] else []) + Labels(code[1..])
  }

  lemma {:induction false} LabelsAppend(a: seq<Stmt>, b: seq<Stmt>)
    ensures Labels(a + b) == Labels(a) + Labels(b)
  {
    if a == [] {
      EmptySum(b);
    } else {
      TailOfSum(a, b);
      LabelsAppend(a[1..], b);
    }
  }

  ghost predicate NoLabelIn(code: seq<Stmt>) {
    forall k :: 0 <= k < |code| ==> !code[k].Label?
  }

  lemma NoLabels(code: seq<Stmt>)
    requires NoLabelIn(code)
    ensures Labels(code) == []
  {
  }

  lemma SlotLabels(x: Ctx, pc: Word)
    requires x.img.In(pc) && HasSlot(x.img.At(pc))
    ensures Labels(SlotCode(x, pc)) == if Consumes(x, pc) then [Wrap(pc + 4)] else []
  {
    var code := SlotCode(x, pc);
    NoLabels([code[|code| - 1]]);
    if Consumes(x, pc) {
      assert code[1..] == [code[1]];
    } else {
      assert code == [code[0]];
    }
  }

  lemma MiddleLabels(a: Word, b: seq<Stmt>, c: seq<Stmt>, d: seq<Stmt>)
    requires NoLabelIn(b) && NoLabelIn(d)
    ensures Labels([Label(a)] + b + c + d) == [a] + Labels(c)
  {
    LabelsAppend([Label(a)] + b + c, d);
    LabelsAppend([Label(a)] + b, c);
    LabelsAppend([Label(a)], b);
    NoLabels(b);
    NoLabels(d);
    assert Labels([Label(a)]) == [a] by { assert [Label(a)][1..] == []; }
  }

  /** A unit defines the label of its word, and of its slot when it consumes it. */
  lemma UnitLabels(x: Ctx, pc: Word)
    requires x.img.In(pc)
    ensures Labels(Unit(x, pc)) == [pc] + if UnitLen(x, pc) == 2 then [Wrap(pc + 4)] else []
  {
    if HasSlot(x.img.At(pc)) {
      MiddleLabels(pc, BeforeSlot(x, pc), SlotCode(x, pc), AfterSlot(x, pc));
      SlotLabels(x, pc);
    } else {
      var code := Unit(x, pc);
      NoLabels(code[1..]);
    }
  }

  /** In addresses a word apart, the word four above is the next one. */
  lemma NextWord(x: Ctx, words: seq<Word>, j: nat, next: Word)
    requires GoodWords(x, words) && j < |words| && next in words && next == words[j] as int + 4
    ensures j + 1 < |words| && words[j + 1] == next
  {
    assert words[j + 1] in words;
  }

  /** The labels unit i defines. */
  ghost predicate LabelledUnit(units: seq<seq<Stmt>>, lens: seq<nat>, words: seq<Word>, i: nat)
    requires i < |units| == |lens| == |words|
  {
    && 1 <= lens[i] <= 2
    && (lens[i] == 2 ==> i + 1 < |words|)
    && Labels(units[i]) == [words[i]] + if lens[i] == 2 then [words[i + 1]] else []
  }

  ghost predicate LabelledUnits(units: seq<seq<Stmt>>, lens: seq<nat>, words: seq<Word>) {
    && |units| == |lens| == |words|
    && forall i :: 0 <= i < |words| ==> LabelledUnit(units, lens, words, i)
  }

  lemma UnitLabelled(x: Ctx, words: seq<Word>, i: nat)
    requires GoodWords(x, words) && i < |words|
    ensures UnitLen(x, words[i]) == 2 ==> i + 1 < |words|
    ensures Labels(Unit(x, words[i])) == [words[i]] + if UnitLen(x, words[i]) == 2 then [words[i + 1]] else []
  {
    hide Unit, Labels;
    UnitLabels(x, words[i]);
    if UnitLen(x, words[i]) == 2 {
      NoWrap(x.img, words[i]);
      NextWord(x, words, i, words[i] + 4);
    }
  }

  lemma UnitsAreLabelled(x: Ctx, words: seq<Word>)
    requires GoodWords(x, words)
    ensures LabelledUnits(Units(x, words), Lens(x, words), words)
  {
    var units, lens := Units(x, words), Lens(x, words);
    forall i | 0 <= i < |words|
      ensures LabelledUnit(units, lens, words, i)
    {
      UnitLabelled(x, words, i);
    }
  }

  lemma {:induction false} JoinLabels(units: seq<seq<Stmt>>, lens: seq<nat>, words: seq<Word>, j: nat)
    requires LabelledUnits(units, lens, words) && j <= |words|
    ensures Labels(Join(units, lens, j)) == words[j..]
    decreases |words| - j
  {
    if j < |words| {
      assert LabelledUnit(units, lens, words, j);
      JoinLabels(units, lens, words, j + lens[j]);
      LabelsAppend(units[j], Join(units, lens, j + lens[j]));
      assert words[j..] == [words[j]] + words[j + 1..];
      assert lens[j] == 2 ==> words[j + 1..] == [words[j + 1]] + words[j + 2..];
    }
  }

  /** Every translated word gets its label exactly once, in address order: no C label is
      missing and none is defined twice. */
  lemma LabelsAreWords(x: Ctx, words: seq<Word>)
    requires GoodWords(x, words)
    ensures Labels(Body(x, words)) == words
  {
    UnitsAreLabelled(x, words);
    JoinLabels(Units(x, words), Lens(x, words), words, 0);
  }

  // ---- goto ----

  /** The statement index a goto continues at: the label's place, or past the end if missing. */
  function FindLabel(code: seq<Stmt>, a: Word): (i: nat)
    ensures i <= |code|
    ensures i < |code| ==> code[i] == Label(a)
  {
    if code == [] then 0 else if code[0] == Label(a) then 0 else 1 + FindLabel(code[1..], a)
  }

  lemma {:induction false} FindPast(unit: seq<Stmt>, rest: seq<Stmt>, a: Word)
    requires a !in Labels(unit)
    ensures FindLabel(unit + rest, a) == |unit| + FindLabel(rest, a)
  {
    if unit == [] {
      EmptySum(rest);
    } else {
      TailOfSum(unit, rest);
      FindPast(unit[1..], rest, a);
    }
  }

  lemma LabelElsewhere(units: seq<seq<Stmt>>, lens: seq<nat>, words: seq<Word>, j: nat, m: nat)
    requires LabelledUnits(units, lens, words) && Split.Spaced(words) && j < m < |words| && lens[m - 1] == 1
    ensures 1 <= lens[j] <= 2 && j + lens[j] <= m && words[m] !in Labels(units[j])
  {
    assert LabelledUnit(units, lens, words, j);
  }

  /** A goto to a word that is not skipped over finds the place where its unit begins. */
  lemma {:induction false} JoinFinds(units: seq<seq<Stmt>>, lens: seq<nat>, words: seq<Word>, j: nat, m: nat)
    requires LabelledUnits(units, lens, words) && Split.Spaced(words)
    requires j <= m < |words| && |units[m]| > 0 && units[m][0] == Label(words[m])
    requires m > 0 ==> lens[m - 1] == 1
    ensures var code := Join(units, lens, j);
            var i := FindLabel(code, words[m]);
            i < |code| && code[i..] == Join(units, lens, m)
    decreases m - j
  {
    hide Split.Spaced, Labels;
    var code := Join(units, lens, j);
    if j < m {
      LabelElsewhere(units, lens, words, j, m);
      var rest := Join(units, lens, j + lens[j]);
      JoinFinds(units, lens, words, j + lens[j], m);
      FindPast(units[j], rest, words[m]);
      assert code == units[j] + rest;
      var i := FindLabel(rest, words[m]);
      DropSum(units[j], rest, i);
    } else {
      assert code[0] == units[m][0];
      assert code[0..] == code;
    }
  }

  lemma NotConsumed(x: Ctx, words: seq<Word>, m: nat)
    requires GoodWords(x, words) && 0 < m < |words| && !Consumed(x, words[m])
    ensures Lens(x, words)[m - 1] == 1
  {
    if Consumes(x, words[m - 1]) {
      NoWrap(x.img, words[m - 1]);
      NextWord(x, words, m - 1, words[m - 1] + 4);
    }
  }

  lemma UnitBegins(x: Ctx, words: seq<Word>, m: nat)
    requires GoodWords(x, words) && m < |words|
    ensures Units(x, words)[m] != [] && Units(x, words)[m][0] == Label(words[m])
  {
  }

  /** A goto to a word of the chunk that is not a consumed slot continues with its unit. */
  lemma GotoFinds(x: Ctx, words: seq<Word>, m: nat)
    requires GoodWords(x, words) && m < |words| && !Consumed(x, words[m])
    ensures var code := Body(x, words);
            var i := FindLabel(code, words[m]);
            i < |code| && code[i..] == Join(Units(x, words), Lens(x, words), m)
  {
    UnitsAreLabelled(x, words);
    if m > 0 {
      NotConsumed(x, words, m);
    }
    UnitBegins(x, words, m);
    JoinFinds(Units(x, words), Lens(x, words), words, 0, m);
  }
}
