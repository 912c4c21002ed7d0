/** Small texts on which the emitted code and the original part ways, one for every condition that the
    theorems about the recompiler make. Each statement is about every discovery of the text and every
    program emitted from it. */
module Witnesses {
  import opened Options
  import opened Words
  import opened Mips
  import opened CCode
  import opened Emitter
  import opened Machines
  import opened Simulation
  import opened Layout
  import opened Recompile
  import opened Limits
  import opened Discovery
  import opened Discovered
  import opened Runs
  import opened Seqs
  import Pipeline
  import Split

  const BASE: Word := 0x8001_0000

  /** The text loaded at BASE, a discovery of it from these roots, and what was emitted. */
  ghost predicate Made(text: seq<Inst>, roots: set<Word>, f: Found, b: Build, p: Program) {
    0 < |text| <= 16 && IsDiscovery(Loaded(BASE, text), roots, f) && Built(Loaded(BASE, text), f, b, p)
  }

  /** There is such a program for every text: discovery and emission make one. */
  method Make(text: seq<Inst>, extra: seq<Word>) returns (p: Program, ghost f: Found, ghost b: Build)
    requires 0 < |text| <= 16
    ensures Made(text, {BASE} + (set a | a in extra && Loaded(BASE, text).In(a)), f, b, p)
  {
    p, f, b := Pipeline.Translate(BASE, text, BASE, extra);
  }

  // ---- words by their place in the text ----

  function At(i: nat): Word
    requires i <= 32
  {
    BASE + 4 * i
  }

  predicate Holds(img: Image, i: nat, ins: Inst) {
    i <= 16 && img.In(At(i)) && img.At(At(i)) == ins
  }

  lemma WordAt(text: seq<Inst>, i: nat)
    requires i < |text| <= 16
    ensures Holds(Loaded(BASE, text), i, text[i])
  {
    assert InRange(BASE, |text|, At(i));
  }

  lemma TextIsValid(text: seq<Inst>)
    requires |text| <= 16
    ensures Loaded(BASE, text).Valid()
  {
  }

  lemma OnlyText(text: seq<Inst>, a: int) returns (i: nat)
    requires |text| <= 16 && Loaded(BASE, text).In(a)
    ensures i < |text| && a == At(i) && Loaded(BASE, text).At(a) == text[i]
  {
    i := (a - BASE) / 4;
  }

  predicate WalkedAt(f: Found, i: nat) {
    i <= 16 && At(i) in f.order
  }

  predicate VisitedAt(f: Found, i: nat) {
    i <= 16 && At(i) in f.visited
  }

  lemma NotBehind(text: seq<Inst>, i: nat)
    requires i < |text| <= 16 && (i > 0 ==> !IsControlFlow(text[i - 1]))
    ensures !Behind(Loaded(BASE, text), At(i))
  {
    var a, before: int := At(i), BASE + 4 * i - 4;
    if Behind(Loaded(BASE, text), a) {
      var k := OnlyText(text, before);
      assert false;
    }
  }

  lemma RootWalked(text: seq<Inst>, roots: set<Word>, f: Found, i: nat)
    requires i < |text| <= 16 && IsDiscovery(Loaded(BASE, text), roots, f) && At(i) in roots
      && (i > 0 ==> !IsControlFlow(text[i - 1]))
    ensures WalkedAt(f, i)
  {
    WordAt(text, i);
    TextIsValid(text);
    NotBehind(text, i);
    NotMarked(Loaded(BASE, text), roots, f, At(i));
  }

  /** Where a walked word leads is visited, and walked if it stands behind no transfer. */
  lemma LedWalked(text: seq<Inst>, roots: set<Word>, f: Found, i: nat, j: nat)
    requires i < |text| <= 16 && j < |text| && IsDiscovery(Loaded(BASE, text), roots, f) && WalkedAt(f, i)
      && Leads(Loaded(BASE, text), f.jr, At(i), At(j))
    ensures VisitedAt(f, j) && (j == 0 || !IsControlFlow(text[j - 1]) ==> WalkedAt(f, j))
  {
    WordAt(text, j);
    TextIsValid(text);
    WalkedClosed(Loaded(BASE, text), roots, f, At(i), At(j));
    if j == 0 || !IsControlFlow(text[j - 1]) {
      NotBehind(text, j);
      NotMarked(Loaded(BASE, text), roots, f, At(j));
    }
  }

  lemma SlotVisited(text: seq<Inst>, roots: set<Word>, f: Found, i: nat)
    requires i + 1 < |text| <= 16 && IsDiscovery(Loaded(BASE, text), roots, f) && WalkedAt(f, i)
      && IsControlFlow(text[i])
    ensures VisitedAt(f, i) && VisitedAt(f, i + 1)
  {
    WordAt(text, i);
    WordAt(text, i + 1);
    assert Settled(Loaded(BASE, text), f, {}, At(i));
  }

  // ---- texts of one function ----

  /** No word writes the register of a register jump behind it. */
  predicate JumpsUnknown(text: seq<Inst>) {
    forall i, j :: 0 <= j < i < |text| && (text[i].Jr? || text[i].Jalr?) ==> Writes(text[j]) != Some(text[i].rs)
  }

  predicate NoCalls(text: seq<Inst>) {
    forall i :: 0 <= i < |text| ==> !text[i].Jal? && !text[i].Jalr?
  }

  ghost predicate AllVisited(text: seq<Inst>, f: Found) {
    forall i: nat {:trigger VisitedAt(f, i)} :: i < |text| ==> VisitedAt(f, i)
  }

  lemma {:induction false} Unknown(img: Image, h: Word, n: nat, r: Reg)
    requires Straight(img, h, n) && forall i :: 0 <= i < n ==> Writes(img.At(h + 4 * i)) != Some(r)
    ensures r !in ConstsAfter(img, h, n)
  {
    if n > 0 { Unknown(img, h, n - 1, r); }
  }

  lemma StaysUnknown(text: seq<Inst>, h: Word, n: nat, a: Word)
    requires |text| <= 16 && JumpsUnknown(text) && JumpsByRegister(Loaded(BASE, text), a) && a == h + 4 * n
      && Straight(Loaded(BASE, text), h, n)
    ensures Loaded(BASE, text).At(a).rs !in ConstsAfter(Loaded(BASE, text), h, n)
  {
    var img := Loaded(BASE, text);
    var i := OnlyText(text, a);
    forall k | 0 <= k < n ensures Writes(img.At(h + 4 * k)) != Some(img.At(a).rs) {
      var j := OnlyText(text, h + 4 * k);
      assert j < i;
    }
    Unknown(img, h, n, img.At(a).rs);
  }

  lemma NoneResolved(text: seq<Inst>, roots: set<Word>, f: Found)
    requires |text| <= 16 && IsDiscovery(Loaded(BASE, text), roots, f) && JumpsUnknown(text)
    ensures f.jr == map[]
  {
    var img := Loaded(BASE, text);
    forall a | a in f.jr ensures false {
      assert JumpRecorded(img, f, a) && Decided(img, roots, f, a);
      var h: Word, n: nat :| Decides(img, h, n, a, Some(f.jr[a]));
      StaysUnknown(text, h, n, a);
    }
  }

  lemma OneEntry(text: seq<Inst>, f: Found)
    requires |text| <= 16 && IsDiscovery(Loaded(BASE, text), {BASE}, f) && NoCalls(text)
    ensures f.functions == {BASE}
  {
    var img := Loaded(BASE, text);
    forall t ensures t in f.functions <==> t == BASE {
      FunctionsExact(img, {BASE}, f, t);
      if w :| w in f.order && Enters(img, f.jr, w, t) {
        var i := OnlyText(text, w);
        assert false;
      }
    }
  }

  lemma {:induction false} OwnerIsFirst(a: Word)
    requires BASE <= a
    ensures Split.Owner({BASE}, a) == Some(BASE)
    decreases a
  {
    if a > BASE { OwnerIsFirst(a - 1); }
  }

  /** A text with one root, no call and no resolved jump is one chunk. */
  lemma OneChunk(text: seq<Inst>, f: Found, b: Build, p: Program)
    requires Made(text, {BASE}, f, b, p) && f.functions == {BASE} && f.jr == map[] && VisitedAt(f, 0)
    ensures b.starts == {BASE} && Ready(b, p)
    ensures forall pc :: pc in b.Region() ==> b.Key(pc) == BASE
  {
    var img := Loaded(BASE, text);
    TextIsValid(text);
    forall pc | pc in b.Region() ensures BASE <= pc && img.In(pc) && Split.Owner({BASE}, pc) == Some(BASE) {
      VisitedExact(img, {BASE}, f, pc);
      var i := OnlyText(text, pc);
      OwnerIsFirst(pc);
    }
    assert At(0) == BASE && BASE in b.visited && b.visited[0] in b.Region();
    assert Split.InitialStarts(b.visited, {BASE}, map[]) == {BASE};
    forall pc | pc in b.Region() ensures Split.EdgesOk(img, b.Region(), {BASE}, pc) {
    }
    assert Split.Closed(img, b.Region(), {BASE});
  }

  /** Everything a literal proof needs of a word. */
  ghost predicate Plain(b: Build, i: nat, ins: Inst) {
    Holds(b.img, i, ins) && At(i) in b.Region() && b.Key(At(i)) == BASE
  }

  ghost predicate Whole(text: seq<Inst>, b: Build, p: Program) {
    && |text| <= 16 && Ready(b, p) && b.starts == {BASE} && b.jr == map[]
    && forall i: nat {:trigger text[i]} :: i < |text| ==> Plain(b, i, text[i])
  }

  lemma AllFound(text: seq<Inst>, f: Found, b: Build, p: Program)
    requires Made(text, {BASE}, f, b, p) && JumpsUnknown(text) && NoCalls(text) && AllVisited(text, f)
    ensures Whole(text, b, p)
  {
    OneEntry(text, f);
    NoneResolved(text, {BASE}, f);
    assert VisitedAt(f, 0);
    OneChunk(text, f, b, p);
    forall i: nat | i < |text| ensures Plain(b, i, text[i]) {
      WordAt(text, i);
      assert VisitedAt(f, i);
    }
  }

  /** The program entered by its host. */
  lemma Entered(b: Build, p: Program, env: Env, c: GoodCpu, host: Word) returns (f: Frame)
    requires Ready(b, p) && BASE in b.starts && BASE in b.Region() && b.img.In(BASE)
    ensures f == Frame(BASE, 0, false, 0) && Here(b, p, [], f, BASE, [host])
      && RegionStart(p, env, BASE, c) == CState([] + [f], c)
  {
    f := Frame(BASE, 0, false, 0);
    StartPlan(b, p, BASE);
    assert p.Code(BASE)[0..] == p.Code(BASE);
    EmptySum([f]);
  }

  // ---- a taken linking branch ----

  /** bltzal r8, to 3; nop; nop; 3: jr ra; nop. */
  function LinkText(): seq<Inst> {
    [Branch(Bltzal, 8, 0, 2), Nop, Nop, Jr(31), Nop]
  }

  lemma LinkLeads(jr: map<Word, Word>)
    ensures Leads(Loaded(BASE, LinkText()), jr, At(0), At(3)) && Leads(Loaded(BASE, LinkText()), jr, At(0), At(2))
  {
    WordAt(LinkText(), 0);
  }

  lemma LinkShape(text: seq<Inst>)
    requires text == LinkText()
    ensures JumpsUnknown(text) && NoCalls(text)
  {
  }

  lemma LinkVisited(text: seq<Inst>, f: Found)
    requires text == LinkText() && IsDiscovery(Loaded(BASE, text), {BASE}, f)
    ensures AllVisited(text, f)
  {
    RootWalked(text, {BASE}, f, 0);
    LinkLeads(f.jr);
    LedWalked(text, {BASE}, f, 0, 3);
    LedWalked(text, {BASE}, f, 0, 2);
    SlotVisited(text, {BASE}, f, 0);
    SlotVisited(text, {BASE}, f, 3);
  }

  /** The build without its text. */
  ghost predicate LinkWhole(b: Build, p: Program) {
    && Ready(b, p) && b.starts == {BASE} && b.jr == map[]
    && Plain(b, 0, Branch(Bltzal, 8, 0, 2)) && Plain(b, 1, Nop) && Plain(b, 2, Nop) && Plain(b, 3, Jr(31))
       && Plain(b, 4, Nop)
  }

  lemma LinkPlain(text: seq<Inst>, b: Build, p: Program)
    requires text == LinkText() && Whole(text, b, p)
    ensures LinkWhole(b, p)
  {
    assert text[0].Branch? && text[1].Nop? && text[2].Nop? && text[3].Jr? && text[4].Nop?;
  }

  lemma LinkFound(text: seq<Inst>, f: Found, b: Build, p: Program)
    requires text == LinkText() && Made(text, {BASE}, f, b, p)
    ensures LinkWhole(b, p)
  {
    LinkVisited(text, f);
    LinkShape(text);
    AllFound(text, f, b, p);
    LinkPlain(text, b, p);
  }

  lemma RawNext(img: Image, i: nat, ins: Inst, slot: Inst)
    requires Holds(img, i, ins) && Holds(img, i + 1, slot)
    ensures img.In(At(i) + 4) && RawSlot(img, At(i)) == slot && Wrap(At(i) + 4) == At(i + 1)
  {
    var next: int := At(i) + 4;
    assert next == At(i + 1);
  }

  lemma NopSlot(b: Build, env: Env, i: nat, ins: Inst, c: GoodCpu)
    requires Plain(b, i, ins) && Plain(b, i + 1, Nop)
    ensures SlotOk(b, env, At(i), c) && SlotDone(b.img, env, At(i), c) == Linked(ins, At(i), c)
  {
    RawNext(b.img, i, ins, Nop);
  }

  /** Nothing is written inside a block that ends with a word that has no slot. */
  lemma FreeWord(b: Build, i: nat, ins: Inst)
    requires Plain(b, i, ins) && !HasSlot(ins)
    ensures !Consumed(b.Context(BASE), At(i + 1))
  {
    assert At(i + 1) - 4 == At(i);
  }

  /** What LinkReturnLost needs, without the program. */
  ghost predicate LinkSetting(b: Build, p: Program, env: Env, f: Frame, pc: Word, c: GoodCpu, stack: seq<Word>,
      t: Word, c': GoodCpu)
  {
    && Ready(b, p) && AtLink(b, p, env, [], f, pc, c, stack) && TakenAt(b, pc, c)
    && t == BranchTarget(pc, b.img.At(pc).imm) && c' == SlotDone(b.img, env, pc, c) && c'.r[31] == Wrap(pc + 8)
    && t in b.Region() && b.Key(t) == b.Key(pc) && !Consumed(b.Context(b.Key(pc)), t)
    && b.img.In(t) && b.img.At(t) == Jr(31) && t !in b.jr && SlotOk(b, env, t, c') && c' == SlotDone(b.img, env, t, c')
  }

  lemma LinkTaken(b: Build, env: Env, c: GoodCpu, c': GoodCpu)
    requires Plain(b, 0, Branch(Bltzal, 8, 0, 2)) && Plain(b, 1, Nop) && c.r[8] >= 0x8000_0000 && c' == c.Set(31, At(2))
    ensures TakenAt(b, BASE, c) && BranchTarget(BASE, 2) == At(3) && c' == SlotDone(b.img, env, BASE, c)
      && c'.r[31] == Wrap(BASE + 8)
    ensures SlotOk(b, env, BASE, Linked(b.img.At(BASE), BASE, c))
  {
    NopSlot(b, env, 0, Branch(Bltzal, 8, 0, 2), c);
    NopSlot(b, env, 0, Branch(Bltzal, 8, 0, 2), c');
  }

  lemma LinkTarget(b: Build, env: Env, c: GoodCpu)
    requires b.Valid() && Plain(b, 0, Branch(Bltzal, 8, 0, 2)) && Plain(b, 2, Nop) && Plain(b, 3, Jr(31))
      && Plain(b, 4, Nop) && b.jr == map[]
    ensures var t := At(3);
            && t in b.Region() && b.Key(t) == b.Key(BASE) && !Consumed(b.Context(b.Key(BASE)), t)
            && b.img.In(t) && b.img.At(t) == Jr(31) && t !in b.jr && SlotOk(b, env, t, c)
               && c == SlotDone(b.img, env, t, c)
  {
    NopSlot(b, env, 3, Jr(31), c);
    FreeWord(b, 2, Nop);
  }

  lemma LinkReady(b: Build, p: Program, env: Env, f: Frame, c: GoodCpu, host: Word)
    requires b.Valid() && Here(b, p, [], f, BASE, [host]) && SlotOk(b, env, BASE, Linked(b.img.At(BASE), BASE, c))
    requires b.img.At(BASE) == Branch(Bltzal, 8, 0, 2) && Wrap(BASE + 8) in b.Region()
    ensures AtLink(b, p, env, [], f, BASE, c, [host])
  {
    assert ReturnsInside(b.Region(), [host] + [Wrap(BASE + 8)]);
  }

  lemma LinkIsSet(b: Build, p: Program, env: Env, c: GoodCpu, c': GoodCpu, host: Word) returns (f: Frame)
    requires LinkWhole(b, p) && c.r[8] >= 0x8000_0000 && c' == c.Set(31, At(2))
    ensures LinkSetting(b, p, env, f, BASE, c, [host], At(3), c') && RegionStart(p, env, BASE, c) == CState([] + [f], c)
  {
    assert Wrap(BASE + 8) == At(2) && At(0) == BASE;
    LinkTaken(b, env, c, c');
    LinkTarget(b, env, c');
    f := Entered(b, p, env, c, host);
    LinkReady(b, p, env, f, c, host);
  }

  lemma LinkSetLost(b: Build, p: Program, env: Env, f: Frame, c: GoodCpu, stack: seq<Word>, t: Word, c': GoodCpu,
      next: Word)
    returns (n: nat)
    requires LinkSetting(b, p, env, f, BASE, c, stack, t, c') && next == Wrap(BASE + 8)
    ensures MStep(b.img, env, b.Region(), MStep(b.img, env, b.Region(), Running(BASE, c, stack)))
      == Running(next, c', stack)
    ensures CSteps(p, env, CState([] + [f], c), n) == CState([], c')
  {
    n := LinkReturnLost(b, p, env, [], f, BASE, c, stack, t, c', c');
  }

  lemma LinkRuns(b: Build, p: Program, env: Env, c: GoodCpu, c': GoodCpu, host: Word) returns (n: nat)
    requires LinkWhole(b, p) && c.r[8] >= 0x8000_0000 && c' == c.Set(31, At(2))
    ensures MStep(b.img, env, b.Region(), MStep(b.img, env, b.Region(), Running(BASE, c, [host])))
      == Running(At(2), c', [host])
    ensures CSteps(p, env, RegionStart(p, env, BASE, c), n) == CState([], c')
  {
    var fr := LinkIsSet(b, p, env, c, c', host);
    n := LinkSetLost(b, p, env, fr, c, [host], At(3), c', At(2));
  }

  /** bltzal r8 with r8 negative: the original comes back to the word after the slot, and the C has
      returned to its host. */
  lemma LinkLost(f: Found, b: Build, p: Program, env: Env, c: GoodCpu, host: Word) returns (n: nat)
    requires Made(LinkText(), {BASE}, f, b, p) && c.r[8] >= 0x8000_0000
    ensures MStep(b.img, env, b.Region(), MStep(b.img, env, b.Region(), Running(BASE, c, [host])))
      == Running(At(2), c.Set(31, At(2)), [host])
    ensures CSteps(p, env, RegionStart(p, env, BASE, c), n) == CState([], c.Set(31, At(2)))
  {
    LinkFound(LinkText(), f, b, p);
    n := LinkRuns(b, p, env, c, c.Set(31, At(2)), host);
  }

  // ---- register jumps ----

  ghost predicate PairWhole(b: Build, p: Program, jump: Inst, slot: Inst) {
    Ready(b, p) && b.starts == {BASE} && b.jr == map[] && Plain(b, 0, jump) && Plain(b, 1, slot)
  }

  lemma PairFound(text: seq<Inst>, f: Found, b: Build, p: Program, jump: Inst, slot: Inst)
    requires text == [jump, slot] && jump.Jr? && !IsControlFlow(slot) && Made(text, {BASE}, f, b, p)
    ensures PairWhole(b, p, jump, slot)
  {
    RootWalked(text, {BASE}, f, 0);
    SlotVisited(text, {BASE}, f, 0);
    AllFound(text, f, b, p);
    assert text[0] == jump && text[1] == slot;
  }

  lemma PairSlot(b: Build, env: Env, rs: Reg, slot: Inst, c: GoodCpu)
    requires b.Valid() && Plain(b, 0, Jr(rs)) && Plain(b, 1, slot) && !IsControlFlow(slot) && PlainOk(env, slot, c)
      && !DivUndefined(slot, c)
    ensures SlotOk(b, env, BASE, c) && SlotDone(b.img, env, BASE, c) == ExecPlain(env, slot, c)
  {
    RawNext(b.img, 0, Jr(rs), slot);
  }

  /** The dispatcher knows no such address: outside code runs, and the host gets control back. */
  lemma DispatchEnds(p: Program, env: Env, gone: Frame, a: Word, c: GoodCpu)
    requires gone.i == |p.Code(gone.chunk)| && a !in p.starts
    ensures CStep(p, env, DispatchTo(p, env, [] + [gone], a, c)) == CState([], env.external(a, c))
  {
    StepOnTop(p, env, [], gone, env.external(a, c));
  }

  lemma PairReady(b: Build, p: Program, env: Env, rs: Reg, slot: Inst, c: GoodCpu, host: Word) returns (fr: Frame)
    requires PairWhole(b, p, Jr(rs), slot) && !IsControlFlow(slot) && PlainOk(env, slot, c) && !DivUndefined(slot, c)
    ensures AtJump(b, p, env, [], fr, BASE, c, [host], rs) && RegionStart(p, env, BASE, c) == CState([] + [fr], c)
    ensures SlotDone(b.img, env, BASE, c) == ExecPlain(env, slot, c)
  {
    assert At(0) == BASE;
    fr := Entered(b, p, env, c, host);
    PairSlot(b, env, rs, slot, c);
  }

  lemma JumpSteps(b: Build, env: Env, c: GoodCpu, c': GoodCpu, stack: seq<Word>, rs: Reg)
    requires BASE in b.Region() && b.img.In(BASE) && b.img.At(BASE) == Jr(rs) && rs != 31
      && c' == SlotDone(b.img, env, BASE, c) && c.r[rs] in b.Region()
    ensures MStep(b.img, env, b.Region(), Running(BASE, c, stack)) == Running(c.r[rs], c', stack)
  {
  }

  lemma ThenEnds(p: Program, env: Env, s: CState, k: nat, gone: Frame, t: Word, c: GoodCpu) returns (n: nat)
    requires CSteps(p, env, s, k) == DispatchTo(p, env, [] + [gone], t, c) && gone.i == |p.Code(gone.chunk)|
      && t !in p.starts
    ensures CSteps(p, env, s, n) == CState([], env.external(t, c))
  {
    DispatchEnds(p, env, gone, t, c);
    IterateStep(p, env, s, k);
    n := k + 1;
  }

  lemma LateSteps(b: Build, p: Program, env: Env, fr: Frame, c: GoodCpu, c': GoodCpu, stack: seq<Word>, rs: Reg,
      t: Word)
    returns (n: nat)
    requires Ready(b, p) && AtJump(b, p, env, [], fr, BASE, c, stack, rs) && rs != 31
      && c' == SlotDone(b.img, env, BASE, c)
    requires t == c'.r[rs] && t !in p.starts
    ensures CSteps(p, env, CState([] + [fr], c), n) == CState([], env.external(t, c'))
  {
    var k := JumpReadsLate(b, p, env, [], fr, BASE, c, rs);
    n := ThenEnds(p, env, CState([] + [fr], c), k, fr.(i := |p.Code(fr.chunk)|), t, c');
  }

  lemma Bumped(env: Env, r: Reg, c: GoodCpu, c': GoodCpu)
    requires c.r[r] == BASE && c' == c.Set(r, At(1)) && r != 0
    ensures ExecPlain(env, Imm(Addiu, r, r, 4), c) == c' && c'.r[r] == At(1)
  {
  }

  lemma LateRuns(b: Build, p: Program, env: Env, c: GoodCpu, c': GoodCpu, host: Word) returns (n: nat)
    requires PairWhole(b, p, Jr(8), Imm(Addiu, 8, 8, 4)) && c.r[8] == BASE && c' == c.Set(8, At(1))
    ensures MStep(b.img, env, b.Region(), Running(BASE, c, [host])) == Running(BASE, c', [host])
    ensures CSteps(p, env, RegionStart(p, env, BASE, c), n) == CState([], env.external(At(1), c'))
  {
    var fr := PairReady(b, p, env, 8, Imm(Addiu, 8, 8, 4), c, host);
    Bumped(env, 8, c, c');
    n := LateSteps(b, p, env, fr, c, c', [host], 8, At(1));
    JumpSteps(b, env, c, c', [host], 8);
  }

  /** jr r8; addiu r8, r8, 4 with r8 at the jump: the original is at the jump again, the C has left for
      outside code at the word after it. */
  lemma LateJump(f: Found, b: Build, p: Program, env: Env, c: GoodCpu, host: Word) returns (n: nat)
    requires Made([Jr(8), Imm(Addiu, 8, 8, 4)], {BASE}, f, b, p) && c.r[8] == BASE
    ensures MStep(b.img, env, b.Region(), Running(BASE, c, [host])) == Running(BASE, c.Set(8, At(1)), [host])
    ensures CSteps(p, env, RegionStart(p, env, BASE, c), n) == CState([], env.external(At(1), c.Set(8, At(1))))
  {
    PairFound([Jr(8), Imm(Addiu, 8, 8, 4)], f, b, p, Jr(8), Imm(Addiu, 8, 8, 4));
    n := LateRuns(b, p, env, c, c.Set(8, At(1)), host);
  }

  lemma ReturnStuck(b: Build, p: Program, env: Env, fr: Frame, c: GoodCpu, stack: seq<Word>) returns (n: nat)
    requires Ready(b, p) && AtJump(b, p, env, [], fr, BASE, c, stack, 31) && c == SlotDone(b.img, env, BASE, c)
    requires c.r[31] == BASE && stack != [] && stack[|stack| - 1] != BASE
    ensures MStep(b.img, env, b.Region(), Running(BASE, c, stack)) == Running(BASE, c, stack)
    ensures CSteps(p, env, CState([] + [fr], c), n) == CState([], c)
  {
    ReturnSteps(b, env, BASE, c, stack, c);
    n := ReturnIgnoresRa(b, p, env, [], fr, BASE, c);
  }

  lemma ReturnRuns(b: Build, p: Program, env: Env, c: GoodCpu, host: Word) returns (n: nat)
    requires PairWhole(b, p, Jr(31), Nop) && c.r[31] == BASE && host != BASE
    ensures MStep(b.img, env, b.Region(), Running(BASE, c, [host])) == Running(BASE, c, [host])
    ensures CSteps(p, env, RegionStart(p, env, BASE, c), n) == CState([], c)
  {
    var stack := [host];
    assert stack[|stack| - 1] == host;
    var fr := PairReady(b, p, env, 31, Nop, c, host);
    n := ReturnStuck(b, p, env, fr, c, stack);
  }

  /** jr ra; nop with r31 at the jump and another host: the original jumps to itself for ever, the C
      returns. */
  lemma OwnReturn(f: Found, b: Build, p: Program, env: Env, c: GoodCpu, host: Word) returns (n: nat)
    requires Made([Jr(31), Nop], {BASE}, f, b, p) && c.r[31] == BASE && host != BASE
    ensures MStep(b.img, env, b.Region(), Running(BASE, c, [host])) == Running(BASE, c, [host])
    ensures CSteps(p, env, RegionStart(p, env, BASE, c), n) == CState([], c)
  {
    PairFound([Jr(31), Nop], f, b, p, Jr(31), Nop);
    n := ReturnRuns(b, p, env, c, host);
  }

  // ---- a resolved call out of the image ----

  function FarText(): seq<Inst> {
    [Lui(8, 1), Jalr(31, 8), Nop]
  }

  lemma FarFacts(img: Image)
    requires img == Loaded(BASE, FarText())
    ensures img.Valid() && Holds(img, 0, Lui(8, 1)) && Holds(img, 1, Jalr(31, 8)) && Holds(img, 2, Nop)
    ensures forall a :: img.In(a) ==> a == At(0) || a == At(1) || a == At(2)
  {
    var text := FarText();
    WordAt(text, 0);
    WordAt(text, 1);
    WordAt(text, 2);
    TextIsValid(text);
    forall a | img.In(a) ensures a == At(0) || a == At(1) || a == At(2) { var i := OnlyText(text, a); }
  }

  /** A walk that comes to the call came from the lui. */
  lemma FarHead(img: Image, f: Found, h: Word, n: nat)
    requires img == Loaded(BASE, FarText()) && Decides(img, h, n, At(1), Recorded(f.jr, At(1)))
      && Headed(img, {BASE}, f.jr, f.order, h)
    requires forall w :: w in f.order ==> img.In(w)
    ensures Recorded(f.jr, At(1)) == Some(0x1_0000)
  {
    FarFacts(img);
    if n > 0 {
      assert h == At(0) && n == 1;
      assert ConstsAfter(img, h, n) == TrackConsts(Lui(8, 1), ConstsAfter(img, h, 0));
    } else {
      assert false;
    }
  }

  lemma FarRecorded(img: Image, f: Found)
    requires img == Loaded(BASE, FarText()) && IsDiscovery(img, {BASE}, f)
    ensures At(1) in f.order && Recorded(f.jr, At(1)) == Some(0x1_0000) && forall w :: w in f.order ==> img.In(w)
  {
    FarFacts(img);
    RootWalked(FarText(), {BASE}, f, 0);
    LedWalked(FarText(), {BASE}, f, 0, 1);
    forall w | w in f.order ensures img.In(w) { assert Settled(img, f, {}, w); }
    assert Decided(img, {BASE}, f, At(1));
    var h: Word, n: nat :| Decides(img, h, n, At(1), Recorded(f.jr, At(1))) && Headed(img, {BASE}, f.jr, f.order, h);
    FarHead(img, f, h, n);
  }

  /** lui r8, 1; jalr r8: the far address becomes a start, without a body. */
  lemma FarCall(f: Found, b: Build, p: Program)
    requires Made(FarText(), {BASE}, f, b, p)
    ensures 0x1_0000 in b.starts && 0x1_0000 !in p.code && !Ready(b, p)
  {
    FarRecorded(Loaded(BASE, FarText()), f);
    FarStart(Loaded(BASE, FarText()), f, b, p);
  }

  /** Its register is sure all the same: only the lui leads to the call. */
  lemma FarSure(f: Found)
    requires IsDiscovery(Loaded(BASE, FarText()), {BASE}, f)
    ensures Pipeline.Sure(Loaded(BASE, FarText()), {BASE}, f, At(1))
  {
    hide IsDiscovery, Loaded;
    var img := Loaded(BASE, FarText());
    FarFacts(img);
    FarRecorded(img, f);
    FarLeads(img, f);
    assert ConstsAfter(img, At(0), 1) == TrackConsts(Lui(8, 1), ConstsAfter(img, At(0), 0));
    assert Pipeline.OnlyOn(img, {BASE}, f, At(0), 0);
    assert Decides(img, At(0), 1, At(1), Some(f.jr[At(1)])) && Pipeline.Undisturbed(img, {BASE}, f, At(0), 1);
  }

  lemma FarLeads(img: Image, f: Found)
    requires img == Loaded(BASE, FarText()) && Recorded(f.jr, At(1)) == Some(0x1_0000)
    requires forall w :: w in f.order ==> img.In(w)
    ensures forall w {:trigger Leads(img, f.jr, w, At(1))} :: w in f.order && Leads(img, f.jr, w, At(1)) ==> w == At(0)
  {
    FarFacts(img);
  }

  lemma FarStart(img: Image, f: Found, b: Build, p: Program)
    requires img == Loaded(BASE, FarText()) && IsDiscovery(img, {BASE}, f) && Built(img, f, b, p)
    requires At(1) in f.order && Recorded(f.jr, At(1)) == Some(0x1_0000)
    ensures 0x1_0000 in b.starts && 0x1_0000 !in p.code && !Ready(b, p)
  {
    FarFacts(img);
    assert Settled(img, f, {}, At(1)) && 0x1_0000 in f.functions;
    forall pc | pc in f.visited ensures img.In(pc) { VisitedExact(img, {BASE}, f, pc); }
    Bodiless(b, p, 0x1_0000, BASE);
  }

  lemma {:induction false} OwnerAtLeast(starts: set<Word>, s: Word, a: Word)
    requires s in starts && s <= a
    ensures Split.Owner(starts, a).Some? && Split.Owner(starts, a).value >= s
    decreases a
  {
    if a !in starts { OwnerAtLeast(starts, s, a - 1); }
  }

  /** A function entry below the words' first start is a start without a body. */
  lemma Bodiless(b: Build, p: Program, t: Word, first: Word)
    requires b.Valid() && b.IsProgram(p) && t in b.functions && t < first && first in b.functions
      && forall pc <- b.Region() :: first <= pc
    ensures t in b.starts && t !in p.code && !Ready(b, p)
  {
    assert b.functions <= Split.InitialStarts(b.visited, b.functions, b.jr);
    forall pc | pc in b.visited ensures b.Key(pc) != t {
      assert pc in b.Region();
      OwnerAtLeast(b.starts, first, pc);
    }
  }

  // ---- a jump onto a slot ----

  /** j 3; addiu r9; nop; 3: j 1; nop. */
  function OntoText(): seq<Inst> {
    [J(0x4003), Imm(Addiu, 9, 9, 1), Nop, J(0x4001), Nop]
  }

  ghost predicate OntoHeld(img: Image) {
    && img.Valid() && Holds(img, 0, J(0x4003)) && Holds(img, 1, Imm(Addiu, 9, 9, 1)) && Holds(img, 2, Nop)
       && Holds(img, 3, J(0x4001)) && Holds(img, 4, Nop)
  }

  lemma OntoFacts(text: seq<Inst>)
    requires text == OntoText()
    ensures OntoHeld(Loaded(BASE, text))
  {
    WordAt(text, 0);
    WordAt(text, 1);
    WordAt(text, 2);
    WordAt(text, 3);
    WordAt(text, 4);
    TextIsValid(text);
  }

  lemma OntoLeads(img: Image, jr: map<Word, Word>)
    requires OntoHeld(img)
    ensures Succs(img, jr, At(0)) == {At(3)} && Succs(img, jr, At(3)) == {At(1)} && Succs(img, jr, At(1)) == {At(2)}
    ensures Marked(img, At(0)) == {At(1)} && Marked(img, At(3)) == {At(4)}
  {
    JumpLeads(img, jr, 0, 0x4003, 3);
    JumpLeads(img, jr, 3, 0x4001, 1);
    hide JumpTarget, Marked;
    assert Wrap(At(1) + 4) == At(2);
  }

  lemma JumpLeads(img: Image, jr: map<Word, Word>, i: nat, index: nat, j: nat)
    requires i < 16 && j < 16 && index < 0x400_0000 && Holds(img, i, J(index)) && img.In(At(i + 1))
    requires JumpTarget(At(i), index) == At(j)
    ensures Succs(img, jr, At(i)) == {At(j)} && Marked(img, At(i)) == {At(i + 1)}
  {
  }

  lemma ThirdWord(img: Image, entry: Word, f: Found, w0: Word, w1: Word, w2: Word)
    requires IsDiscovery(img, {entry}, f) && |f.order| > 2 && w0 == f.order[0] && w1 == f.order[1] && w2 == f.order[2]
    ensures w2 == entry || w2 in Succs(img, f.jr, w0) || w2 in Succs(img, f.jr, w1)
    ensures w2 != w0 && w2 != w1 && w2 !in Marked(img, w0)
  {
    assert GroundedAt(img, {entry}, f, 2) && f.order[..2] == [w0, w1];
    assert Apart(img, f.order, 0, 2) && Apart(img, f.order, 1, 2);
  }

  lemma OntoFound(text: seq<Inst>, f: Found)
    requires text == OntoText() && IsDiscovery(Loaded(BASE, text), {BASE}, f)
      && Leads(Loaded(BASE, text), f.jr, At(0), At(3))
    ensures At(0) in f.order && At(3) in f.order
  {
    RootWalked(text, {BASE}, f, 0);
    LedWalked(text, {BASE}, f, 0, 3);
  }

  /** Only the two jumps are walked. */
  lemma OntoWalked(img: Image, f: Found)
    requires img == Loaded(BASE, OntoText()) && IsDiscovery(img, {BASE}, f)
    ensures f.order == [At(0), At(3)]
  {
    OntoFacts(OntoText());
    OntoLeads(img, f.jr);
    OntoFound(OntoText(), f);
    assert At(0) == BASE;
    TwoWords(img, f, At(3), At(1));
  }

  lemma TwoWords(img: Image, f: Found, w: Word, s: Word)
    requires IsDiscovery(img, {BASE}, f) && BASE in f.order && w in f.order && w != BASE && s != BASE
    requires Succs(img, f.jr, BASE) == {w} && Succs(img, f.jr, w) == {s} && Marked(img, BASE) == {s}
    ensures f.order == [BASE, w]
  {
    assert GroundedAt(img, {BASE}, f, 0) && f.order[..0] == [];
    if |f.order| > 1 { SecondWord(img, BASE, f); }
    if |f.order| > 2 { ThirdWord(img, BASE, f, f.order[0], f.order[1], f.order[2]); }
  }

  /** The search misses the word behind a slot that is jumped onto. */
  lemma MissedWord(f: Found)
    requires IsDiscovery(Loaded(BASE, OntoText()), {BASE}, f)
    ensures var img := Loaded(BASE, OntoText());
      Leads(img, f.jr, At(0), At(3)) && Leads(img, f.jr, At(3), At(1)) && Leads(img, f.jr, At(1), At(2))
    ensures f.visited == {At(0), At(1), At(3), At(4)}
  {
    var img := Loaded(BASE, OntoText());
    OntoFacts(OntoText());
    OntoLeads(img, f.jr);
    OntoWalked(img, f);
    JustSlots(img, f, At(0), At(3), At(1), At(4));
  }

  lemma JustSlots(img: Image, f: Found, w: Word, w': Word, s: Word, s': Word)
    requires img.Valid() && IsDiscovery(img, {BASE}, f) && f.order == [w, w'] && Marked(img, w) == {s}
      && Marked(img, w') == {s'}
    ensures f.visited == {w, s, w', s'}
  {
    assert w in f.order && w' in f.order && Marks(img, w, s) && Marks(img, w', s');
    forall v ensures v in f.visited <==> v in {w, s, w', s'} {
      VisitedExact(img, {BASE}, f, v);
      if v in f.visited && v !in f.order { var u :| u in f.order && Marks(img, u, v); }
    }
  }

  // ---- a trap before another function ----

  function TrapText(): seq<Inst> {
    [Syscall, Jr(31), Nop]
  }

  ghost predicate TrapWhole(b: Build, p: Program) {
    && Ready(b, p) && BASE in b.starts && At(1) in b.starts && Holds(b.img, 0, Syscall) && At(0) in b.Region()
       && At(1) in b.Region()
  }

  lemma TrapImage(text: seq<Inst>, img: Image)
    requires text == TrapText() && img == Loaded(BASE, text)
    ensures img.Valid() && Holds(img, 0, Syscall) && img.In(At(1))
    ensures forall a :: img.In(a) ==> a >= BASE && !img.At(a).Jalr?
  {
    WordAt(text, 0);
    WordAt(text, 1);
    TextIsValid(text);
    forall a | img.In(a) ensures a >= BASE && !img.At(a).Jalr? { var i := OnlyText(text, a); }
  }

  lemma TrapFound(f: Found, b: Build, p: Program)
    requires Made(TrapText(), {BASE, At(1)}, f, b, p)
    ensures TrapWhole(b, p)
  {
    TrapImage(TrapText(), b.img);
    TrapReady(b.img, f, b, p);
  }

  lemma TrapReady(img: Image, f: Found, b: Build, p: Program)
    requires IsDiscovery(img, {BASE, At(1)}, f) && Built(img, f, b, p) && img.Valid() && Holds(img, 0, Syscall)
      && img.In(At(1))
    requires forall a :: img.In(a) ==> a >= BASE && !img.At(a).Jalr?
    ensures TrapWhole(b, p)
  {
    forall a | a in f.visited ensures a !in GATES { VisitedExact(img, {BASE, At(1)}, f, a); }
    assert At(0) == BASE;
    ReadyExact(img, {BASE, At(1)}, f, b, p);
    assert BASE in b.functions && At(1) in b.functions;
    assert b.functions <= Split.InitialStarts(b.visited, b.functions, b.jr);
  }

  /** The chunk of the trap is the trap alone. */
  lemma TrapAlone(b: Build, p: Program)
    requires TrapWhole(b, p)
    ensures After(b, At(0)) == [] && b.Key(At(0)) == BASE && b.Key(At(1)) == At(1)
  {
    StartFirst(b, BASE);
    StartFirst(b, At(1));
    forall w | w in b.Region() && w > BASE ensures b.Key(w) != BASE {
      SpacedBase(b.visited, BASE, w);
      OwnerAtLeast(b.starts, At(1), w);
    }
    Limits.AfterTrap(b, BASE);
  }

  lemma SpacedBase(visited: seq<Word>, a: Word, w: Word)
    requires Split.Spaced(visited) && a in visited && w in visited && w > a
    ensures w >= a + 4
  {
  }

  lemma TrapEnters(b: Build, p: Program, env: Env, c: GoodCpu, host: Word) returns (fr: Frame)
    requires TrapWhole(b, p)
    ensures Here(b, p, [], fr, BASE, [host]) && RegionStart(p, env, BASE, c) == CState([] + [fr], c) && fr.chunk == BASE
  {
    fr := Entered(b, p, env, c, host);
  }

  lemma UsedUpReturns(p: Program, env: Env, s: CState, k: nat, fr: Frame, c: GoodCpu) returns (n: nat)
    requires CSteps(p, env, s, k) == CState([] + [fr], c) && RestIs(p, fr, [])
    ensures CSteps(p, env, s, n) == CState([], c)
  {
    assert |p.Code(fr.chunk)[fr.i..]| == 0;
    StepOnTop(p, env, [], fr, c);
    IterateStep(p, env, s, k);
    n := k + 1;
  }

  lemma TrapLeaves(b: Build, p: Program, env: Env, fr: Frame, pc: Word, c: GoodCpu, stack: seq<Word>, c': GoodCpu)
    returns (n: nat)
    requires Ready(b, p) && Here(b, p, [], fr, pc, stack) && Wrap(pc + 4) in b.Region() && b.img.At(pc) == Syscall
      && After(b, pc) == [] && c' == env.syscall(c)
    ensures MStep(b.img, env, b.Region(), Running(pc, c, stack)) == Running(Wrap(pc + 4), c', stack)
    ensures CSteps(p, env, CState([] + [fr], c), n) == CState([], c')
  {
    TrapExact(b, p, env, [], fr, pc, c, stack, SyscallStub, c');
    n := UsedUpReturns(p, env, CState([] + [fr], c), 2, fr.(i := fr.i + 2), c');
  }

  lemma TrapRunsOut(b: Build, p: Program, env: Env, c: GoodCpu, host: Word) returns (n: nat)
    requires TrapWhole(b, p)
    ensures MStep(b.img, env, b.Region(), Running(BASE, c, [host])) == Running(At(1), env.syscall(c), [host])
    ensures CSteps(p, env, RegionStart(p, env, BASE, c), n) == CState([], env.syscall(c))
  {
    TrapAlone(b, p);
    var fr := TrapEnters(b, p, env, c, host);
    assert At(0) == BASE && Wrap(BASE + 4) == At(1);
    n := TrapLeaves(b, p, env, fr, BASE, c, [host], env.syscall(c));
  }

  /** syscall, and a function at the next word: the original goes on there, the C returns. */
  lemma TrapLost(f: Found, b: Build, p: Program, env: Env, c: GoodCpu, host: Word) returns (n: nat)
    requires Made(TrapText(), {BASE, At(1)}, f, b, p)
    ensures MStep(b.img, env, b.Region(), Running(BASE, c, [host])) == Running(At(1), env.syscall(c), [host])
    ensures CSteps(p, env, RegionStart(p, env, BASE, c), n) == CState([], env.syscall(c))
  {
    TrapFound(f, b, p);
    n := TrapRunsOut(b, p, env, c, host);
  }

  // ---- a goto onto a slot ----

  /** j 4; addiu r9, r9, 1; 2: jr ra; nop; 4: beq r0, r0, 1; nop; 6: j 2; nop. */
  function LoopText(): seq<Inst> {
    [J(0x4004), Imm(Addiu, 9, 9, 1), Jr(31), Nop, Branch(Beq, 0, 0, 0xFFFC), Nop, J(0x4002), Nop]
  }

  lemma LoopLeads(text: seq<Inst>, jr: map<Word, Word>)
    requires text == LoopText()
    ensures var img := Loaded(BASE, text);
      Leads(img, jr, At(0), At(4)) && Leads(img, jr, At(4), At(6)) && Leads(img, jr, At(6), At(2))
  {
    WordAt(text, 0);
    WordAt(text, 4);
    WordAt(text, 6);
    LoopTargets(Loaded(BASE, text), jr);
  }

  lemma LoopTargets(img: Image, jr: map<Word, Word>)
    requires Holds(img, 0, J(0x4004)) && Holds(img, 4, Branch(Beq, 0, 0, 0xFFFC)) && Holds(img, 6, J(0x4002))
    ensures Leads(img, jr, At(0), At(4)) && Leads(img, jr, At(4), At(6)) && Leads(img, jr, At(6), At(2))
  {
  }

  lemma LoopShape(text: seq<Inst>)
    requires text == LoopText()
    ensures JumpsUnknown(text) && NoCalls(text)
  {
  }

  lemma LoopWalked(text: seq<Inst>, f: Found)
    requires text == LoopText() && IsDiscovery(Loaded(BASE, text), {BASE}, f)
    ensures WalkedAt(f, 0) && WalkedAt(f, 2) && WalkedAt(f, 4) && WalkedAt(f, 6)
  {
    LoopLeads(text, f.jr);
    RootWalked(text, {BASE}, f, 0);
    LedWalked(text, {BASE}, f, 0, 4);
    LedWalked(text, {BASE}, f, 4, 6);
    LedWalked(text, {BASE}, f, 6, 2);
  }

  lemma LoopVisited(text: seq<Inst>, f: Found)
    requires text == LoopText() && IsDiscovery(Loaded(BASE, text), {BASE}, f)
    ensures AllVisited(text, f)
  {
    LoopWalked(text, f);
    SlotVisited(text, {BASE}, f, 0);
    SlotVisited(text, {BASE}, f, 2);
    SlotVisited(text, {BASE}, f, 4);
    SlotVisited(text, {BASE}, f, 6);
  }

  ghost predicate LoopWhole(b: Build, p: Program) {
    Ready(b, p) && b.starts == {BASE} && b.jr == map[] && LoopWords(b)
  }

  ghost predicate LoopWords(b: Build) {
    && Plain(b, 0, J(0x4004)) && Plain(b, 1, Imm(Addiu, 9, 9, 1)) && Plain(b, 2, Jr(31)) && Plain(b, 3, Nop)
    && Plain(b, 4, Branch(Beq, 0, 0, 0xFFFC)) && Plain(b, 5, Nop)
  }

  lemma LoopPlain(text: seq<Inst>, b: Build, p: Program)
    requires text == LoopText() && Whole(text, b, p)
    ensures LoopWhole(b, p)
  {
    assert text[0].J? && text[1].Imm? && text[2].Jr? && text[3].Nop? && text[4].Branch? && text[5].Nop?;
  }

  lemma LoopFound(text: seq<Inst>, f: Found, b: Build, p: Program)
    requires text == LoopText() && Made(text, {BASE}, f, b, p)
    ensures LoopWhole(b, p)
  {
    LoopVisited(text, f);
    LoopShape(text);
    AllFound(text, f, b, p);
    LoopPlain(text, b, p);
  }

  function Bump(c: GoodCpu): GoodCpu {
    c.Set(9, Wrap(c.r[9] as int + 1))
  }

  /** The activation is at the label of the branch. */
  ghost predicate AtBranch(b: Build, p: Program, g: Frame)
    requires b.Valid()
  {
    At(4) in b.Region() && g.chunk == BASE && RestIs(p, g, From(b, At(4), 0))
  }

  lemma LoopTarget()
    ensures JumpTarget(At(0), 0x4004) == At(4) && At(4) != At(0)
  {
  }

  lemma LoopSlot(b: Build, env: Env, c: GoodCpu)
    requires Plain(b, 0, J(0x4004)) && Plain(b, 1, Imm(Addiu, 9, 9, 1))
    ensures SlotOk(b, env, At(0), c) && SlotDone(b.img, env, At(0), c) == Bump(c) && JumpTarget(At(0), 0x4004) == At(4)
  {
    RawNext(b.img, 0, J(0x4004), Imm(Addiu, 9, 9, 1));
    LoopTarget();
  }

  lemma LoopBranch(b: Build, env: Env, c: GoodCpu)
    requires Plain(b, 4, Branch(Beq, 0, 0, 0xFFFC)) && Plain(b, 5, Nop)
    ensures SlotOk(b, env, At(4), c) && SlotDone(b.img, env, At(4), c) == c && BranchTarget(At(4), 0xFFFC) == At(1)
    ensures Linked(b.img.At(At(4)), At(4), c) == c
  {
    NopSlot(b, env, 4, Branch(Beq, 0, 0, 0xFFFC), c);
  }

  lemma GotoPerforms(b: Build, p: Program, env: Env, s: CState, k: nat, under: seq<Frame>, f: Frame, t: Word,
      c: GoodCpu, rest: seq<Stmt>)
    returns (n: nat, g: Frame)
    requires CSteps(p, env, s, k) == CState(under + [f], c) && RestIs(p, f, [Goto(t)] + rest)
    ensures n == k + 1 && g == f.(i := FindLabel(p.Code(f.chunk), t)) && CSteps(p, env, s, n) == CState(under + [g], c)
  {
    n, g := k + 1, f.(i := FindLabel(p.Code(f.chunk), t));
    ThenPerform(p, env, s, k, under, f, c, Goto(t), rest);
  }

  lemma GotoCode(b: Build, pc: Word, t: Word)
    requires b.Valid() && pc in b.Region() && t in b.Region() && b.Key(t) == b.Key(pc) && b.img.In(pc)
      && JumpsTo(b, pc, t) && t != pc
    ensures AfterSlot(b.Context(b.Key(pc)), pc) + After(b, pc) == [Goto(t)] + After(b, pc)
    ensures AfterSlot(b.Context(b.Key(pc)), pc) == [Goto(t)]
  {
    OwnMeans(b, b.Key(pc), t);
  }

  /** A jump inside its chunk, to a word that is no consumed slot. */
  lemma JumpRuns(b: Build, p: Program, env: Env, under: seq<Frame>, f: Frame, pc: Word, c: GoodCpu, t: Word,
      c': GoodCpu)
    returns (n: nat, g: Frame)
    requires Ready(b, p) && pc in b.Region() && b.img.In(pc) && b.img.At(pc).J?
      && t == JumpTarget(pc, b.img.At(pc).target) && t != pc
    requires RestIs(p, f, From(b, pc, 0)) && f.chunk == b.Key(pc) && SlotOk(b, env, pc, c)
      && c' == SlotDone(b.img, env, pc, c)
    requires t in b.Region() && b.Key(t) == b.Key(pc) && !Consumed(b.Context(b.Key(pc)), t)
    ensures g.chunk == f.chunk && RestIs(p, g, From(b, t, 0))
      && CSteps(p, env, CState(under + [f], c), n) == CState(under + [g], c')
  {
    var k, f' := ReachTransfer(b, p, env, under, f, pc, c);
    GotoCode(b, pc, t);
    n, g := GotoPerforms(b, p, env, CState(under + [f], c), k, under, f', t, c', After(b, pc));
    GotoArrives(b, p, b.Key(pc), t);
  }

  lemma SlotReaches(b: Build, p: Program, env: Env, under: seq<Frame>, g: Frame, a: Word, slot: Inst, c: GoodCpu,
      c': GoodCpu, rest: seq<Stmt>)
    returns (h: Frame)
    requires !IsControlFlow(slot) && RestIs(p, g, [Label(a), Do(EmitPlain(slot))] + rest)
    requires PlainOk(env, slot, c) && !DivUndefined(slot, c) && c' == ExecPlain(env, slot, c)
    ensures h.chunk == g.chunk && RestIs(p, h, rest)
      && CSteps(p, env, CState(under + [g], c), 2) == CState(under + [h], c')
  {
    var line, v := [Label(a), Do(EmitPlain(slot))], Local(c, g.cond, g.tmp);
    SlotLineRuns(env, a, slot, v);
    LineRuns(p, env, under, g, c, line, rest);
    h := Moved(g, 2, RunLine(env, line, v));
  }

  /** A goto onto a consumed slot executes the slot and is at the slot owner's goto. */
  lemma SlotRuns(b: Build, p: Program, env: Env, under: seq<Frame>, g: Frame, pc: Word, c: GoodCpu, t: Word,
      slot: Inst, c': GoodCpu)
    returns (h: Frame)
    requires Ready(b, p) && pc in b.Region() && b.img.In(pc) && Consumes(b.Context(b.Key(pc)), pc)
      && g.chunk == b.Key(pc)
    requires g.i == FindLabel(p.Code(g.chunk), Wrap(pc + 4)) && AfterSlot(b.Context(b.Key(pc)), pc) == [Goto(t)]
    requires slot == RawSlot(b.img, pc) && PlainOk(env, slot, c) && !DivUndefined(slot, c)
      && c' == ExecPlain(env, slot, c)
    ensures h.chunk == g.chunk && h.i == FindLabel(p.Code(h.chunk), t)
      && CSteps(p, env, CState(under + [g], c), 3) == CState(under + [h], c')
  {
    ConsumedGoto(b, p, pc);
    var on := SlotReaches(b, p, env, under, g, Wrap(pc + 4), slot, c, c', [Goto(t)] + After(b, pc));
    var n;
    n, h := GotoPerforms(b, p, env, CState(under + [g], c), 2, under, on, t, c', After(b, pc));
  }

  lemma SlotLineRuns(env: Env, a: Word, slot: Inst, v: Local)
    requires !IsControlFlow(slot) && PlainOk(env, slot, v.cpu) && !DivUndefined(slot, v.cpu)
    ensures var line := [Label(a), Do(EmitPlain(slot))];
      IsLine(line) && RunLine(env, line, v) == v.(cpu := ExecPlain(env, slot, v.cpu))
  {
    var line := [Label(a), Do(EmitPlain(slot))];
    assert line == [Label(a)] + [Do(EmitPlain(slot))];
    RunLineAppend(env, [Label(a)], [Do(EmitPlain(slot))], v);
    RunOne(env, Label(a), v);
    RunOne(env, Do(EmitPlain(slot)), v);
    EmitPlainExact(env, slot, v.cpu);
  }

  lemma LoopEnters(b: Build, p: Program, env: Env, f: Frame, c: GoodCpu) returns (n: nat, g: Frame)
    requires LoopWhole(b, p) && f.chunk == BASE && RestIs(p, f, From(b, At(0), 0))
    ensures AtBranch(b, p, g) && CSteps(p, env, CState([] + [f], c), n) == CState([] + [g], Bump(c))
  {
    LoopJump(b, env, c);
    n, g := JumpRuns(b, p, env, [], f, At(0), c, At(4), Bump(c));
  }

  lemma LoopJump(b: Build, env: Env, c: GoodCpu)
    requires LoopWords(b)
    ensures At(0) in b.Region() && b.img.In(At(0)) && b.img.At(At(0)) == J(0x4004) && JumpTarget(At(0), 0x4004) == At(4)
    ensures SlotOk(b, env, At(0), c) && SlotDone(b.img, env, At(0), c) == Bump(c)
    ensures At(4) in b.Region() && b.Key(At(4)) == b.Key(At(0)) == BASE && !Consumed(b.Context(b.Key(At(0))), At(4))
  {
    LoopSlot(b, env, c);
    FreeWord(b, 3, Nop);
  }

  lemma SlotIsConsumed(b: Build, p: Program)
    requires LoopWhole(b, p)
    ensures Consumes(b.Context(BASE), At(0)) && AfterSlot(b.Context(BASE), At(0)) == [Goto(At(4))]
    ensures b.img.In(At(0)) && RawSlot(b.img, At(0)) == Imm(Addiu, 9, 9, 1) && Wrap(At(0) + 4) == At(1)
      && b.Key(At(0)) == BASE && At(0) in b.Region()
  {
    SlotRaw(b);
    LoopTarget();
    OwnsSlot(b, BASE, At(0), At(1), At(4), 0x4004);
  }

  lemma OwnsSlot(b: Build, key: Word, pc: Word, slot: Word, t: Word, index: Word)
    requires b.Valid() && pc in b.Region() && slot in b.Region() && t in b.Region()
      && b.Key(pc) == b.Key(slot) == b.Key(t) == key
    requires b.img.In(pc) && b.img.At(pc) == J(index) && t == JumpTarget(pc, index) && t != pc && slot == Wrap(pc + 4)
      && !IsControlFlow(RawSlot(b.img, pc))
    ensures Consumes(b.Context(key), pc) && AfterSlot(b.Context(key), pc) == [Goto(t)]
  {
    OwnMeans(b, key, slot);
    GotoCode(b, pc, t);
  }

  lemma SlotRaw(b: Build)
    requires LoopWords(b)
    ensures b.img.In(At(0)) && b.img.At(At(0)) == J(0x4004) && At(1) in b.Region() && At(4) in b.Region()
      && b.Key(At(1)) == b.Key(At(4)) == BASE
    ensures RawSlot(b.img, At(0)) == Imm(Addiu, 9, 9, 1) && Wrap(At(0) + 4) == At(1) && b.Key(At(0)) == BASE
      && At(0) in b.Region()
  {
    RawNext(b.img, 0, J(0x4004), Imm(Addiu, 9, 9, 1));
  }

  lemma BranchTurns(b: Build, p: Program, env: Env, g: Frame, c: GoodCpu) returns (n: nat, on: Frame)
    requires LoopWhole(b, p) && AtBranch(b, p, g)
    ensures on.chunk == BASE && on.i == FindLabel(p.Code(BASE), At(1))
      && CSteps(p, env, CState([] + [g], c), n) == CState([] + [on], c)
  {
    LoopBranch(b, env, c);
    var left: Frame, rest: seq<Stmt>;
    n, left, rest := BranchGoes(b, p, env, [], g, At(4), c, At(1));
    on := left.(i := FindLabel(p.Code(left.chunk), At(1)));
  }

  lemma OneTurn(b: Build, p: Program, env: Env, on: Frame, pc: Word, slot: Word, c: GoodCpu, t: Word) returns (h: Frame)
    requires Ready(b, p) && pc in b.Region() && b.img.In(pc) && Consumes(b.Context(b.Key(pc)), pc)
      && AfterSlot(b.Context(b.Key(pc)), pc) == [Goto(t)]
    requires on.chunk == b.Key(pc) && on.i == FindLabel(p.Code(on.chunk), slot) && slot == Wrap(pc + 4)
      && RawSlot(b.img, pc) == Imm(Addiu, 9, 9, 1)
    ensures h.chunk == on.chunk && h.i == FindLabel(p.Code(h.chunk), t)
      && CSteps(p, env, CState([] + [on], c), 3) == CState([] + [h], Bump(c))
  {
    hide Ready, AfterSlot, Consumes, CSteps, FindLabel, RawSlot;
    h := SlotRuns(b, p, env, [], on, pc, c, t, Imm(Addiu, 9, 9, 1), Bump(c));
  }

  lemma SlotTurns(b: Build, p: Program, env: Env, on: Frame, c: GoodCpu) returns (h: Frame)
    requires LoopWhole(b, p) && on.chunk == BASE && on.i == FindLabel(p.Code(BASE), At(1))
    ensures h.chunk == BASE && h.i == FindLabel(p.Code(BASE), At(4))
      && CSteps(p, env, CState([] + [on], c), 3) == CState([] + [h], Bump(c))
  {
    SlotIsConsumed(b, p);
    h := OneTurn(b, p, env, on, At(0), At(1), c, At(4));
  }

  lemma BackAtBranch(b: Build, p: Program, h: Frame)
    requires LoopWhole(b, p) && h.chunk == BASE && h.i == FindLabel(p.Code(BASE), At(4))
    ensures AtBranch(b, p, h)
  {
    FreeWord(b, 3, Nop);
    GotoArrives(b, p, BASE, At(4));
  }

  /** Once around: the branch goes onto the slot, and the slot's jump comes back to the branch. */
  lemma LoopTurns(b: Build, p: Program, env: Env, g: Frame, c: GoodCpu) returns (n: nat, h: Frame)
    requires LoopWhole(b, p) && AtBranch(b, p, g)
    ensures n >= 3 && AtBranch(b, p, h) && CSteps(p, env, CState([] + [g], c), n) == CState([] + [h], Bump(c))
  {
    var k, on := BranchTurns(b, p, env, g, c);
    h := SlotTurns(b, p, env, on, c);
    BackAtBranch(b, p, h);
    n := StepsAdd(p, env, CState([] + [g], c), k, CState([] + [on], c), 3, CState([] + [h], Bump(c)));
  }

  lemma {:induction false} LoopGoesOn(b: Build, p: Program, env: Env, g: Frame, c: GoodCpu, k: nat)
    returns (n: nat, h: Frame, c': GoodCpu)
    requires LoopWhole(b, p) && AtBranch(b, p, g)
    ensures n >= k && AtBranch(b, p, h) && CSteps(p, env, CState([] + [g], c), n) == CState([] + [h], c')
    decreases k
  {
    if k == 0 {
      n, h, c' := 0, g, c;
    } else {
      var first, on := LoopTurns(b, p, env, g, c);
      var rest;
      rest, h, c' := LoopGoesOn(b, p, env, on, Bump(c), k - 1);
      n := StepsAdd(p, env, CState([] + [g], c), first, CState([] + [on], Bump(c)), rest, CState([] + [h], c'));
    }
  }

  /** A C state with no activation left stays as it is. */
  lemma {:induction false} EndedStays(p: Program, env: Env, s: CState, k: nat)
    requires s.frames == []
    ensures CSteps(p, env, s, k) == s
    decreases k
  {
    if k > 0 { EndedStays(p, env, CStep(p, env, s), k - 1); }
  }

  lemma LaterRunning(p: Program, env: Env, s: CState, k: nat, n: nat)
    requires n >= k && CSteps(p, env, s, n).frames != []
    ensures CSteps(p, env, s, k).frames != []
  {
    var left: nat := n - k;
    IterateAdd(CMachine(p, env), s, k, left);
    if CSteps(p, env, s, k).frames == [] { EndedStays(p, env, CSteps(p, env, s, k), left); }
  }

  lemma LoopRuns(b: Build, p: Program, env: Env, c: GoodCpu, host: Word, k: nat)
    requires LoopWhole(b, p)
    ensures CSteps(p, env, RegionStart(p, env, BASE, c), k).frames != []
  {
    assert At(0) == BASE;
    var fr := Entered(b, p, env, c, host);
    var n1, g := LoopEnters(b, p, env, fr, c);
    var n2, h, c' := LoopGoesOn(b, p, env, g, Bump(c), k);
    var n := StepsAdd(p, env, CState([] + [fr], c), n1, CState([] + [g], Bump(c)), n2, CState([] + [h], c'));
    LaterRunning(p, env, CState([] + [fr], c), k, n);
  }

  lemma JumpStep(b: Build, env: Env, c: GoodCpu, stack: seq<Word>)
    requires LoopWords(b)
    ensures MStep(b.img, env, b.Region(), Running(At(0), c, stack)) == Running(At(4), Bump(c), stack)
  {
    LoopSlot(b, env, c);
  }

  lemma BranchStep(b: Build, env: Env, c: GoodCpu, stack: seq<Word>)
    requires LoopWords(b)
    ensures MStep(b.img, env, b.Region(), Running(At(4), c, stack)) == Running(At(1), c, stack)
  {
    hide MStep;
    LoopBranch(b, env, c);
    AlwaysTaken(b, env, At(4), 0xFFFC, c, stack, At(1));
  }

  lemma AlwaysTaken(b: Build, env: Env, pc: Word, imm: Half, c: GoodCpu, stack: seq<Word>, t: Word)
    requires pc in b.Region() && b.img.In(pc) && b.img.At(pc) == Branch(Beq, 0, 0, imm)
      && SlotDone(b.img, env, pc, c) == c
    requires t == BranchTarget(pc, imm) && t in b.Region()
    ensures MStep(b.img, env, b.Region(), Running(pc, c, stack)) == Running(t, c, stack)
  {
  }

  lemma SlotStep(b: Build, env: Env, c: GoodCpu, stack: seq<Word>)
    requires LoopWords(b)
    ensures MStep(b.img, env, b.Region(), Running(At(1), c, stack)) == Running(At(2), Bump(c), stack)
  {
    assert Wrap(At(1) + 4) == At(2);
    PlainSteps(b, env, At(1), c, stack);
  }

  lemma PlainSteps(b: Build, env: Env, pc: Word, c: GoodCpu, stack: seq<Word>)
    requires pc in b.Region() && b.img.In(pc) && b.img.At(pc) == Imm(Addiu, 9, 9, 1) && Wrap(pc + 4) in b.Region()
    ensures MStep(b.img, env, b.Region(), Running(pc, c, stack)) == Running(Wrap(pc + 4), Bump(c), stack)
  {
  }

  lemma HomeStep(b: Build, env: Env, c: GoodCpu, host: Word)
    requires LoopWords(b) && c.r[31] == host
    ensures MStep(b.img, env, b.Region(), Running(At(2), c, [host])) == Halted(c)
  {
    NopSlot(b, env, 2, Jr(31), c);
    ReturnStepsAt(b, env, At(2), c, [host]);
  }

  lemma ReturnStepsAt(b: Build, env: Env, pc: Word, c: GoodCpu, stack: seq<Word>)
    requires pc in b.Region() && b.img.In(pc) && b.img.At(pc) == Jr(31) && stack == [c.r[31]]
      && c == SlotDone(b.img, env, pc, c)
    ensures MStep(b.img, env, b.Region(), Running(pc, c, stack)) == Halted(c)
  {
    ReturnSteps(b, env, pc, c, stack, c);
  }

  lemma FourSteps(step: MState -> MState, m0: MState, m1: MState, m2: MState, m3: MState, m4: MState)
    requires step(m0) == m1 && step(m1) == m2 && step(m2) == m3 && step(m3) == m4
    ensures Iterate(step, m0, 4) == m4
  {
    assert Iterate(step, m0, 4) == Iterate(step, m1, 3) == Iterate(step, m2, 2) == Iterate(step, m3, 1)
        == Iterate(step, m4, 0);
  }

  lemma LoopMachine(b: Build, p: Program, env: Env, c: GoodCpu, host: Word)
    requires LoopWords(b) && c.r[31] == host
    ensures Iterate(MMachine(b.img, env, b.Region()), Running(BASE, c, [host]), 4) == Halted(Bump(Bump(c)))
  {
    var c', c'' := Bump(c), Bump(Bump(c));
    JumpStep(b, env, c, [host]);
    BranchStep(b, env, c', [host]);
    SlotStep(b, env, c', [host]);
    HomeStep(b, env, c'', host);
    assert At(0) == BASE;
    FourSteps(MMachine(b.img, env, b.Region()), Running(BASE, c, [host]), Running(At(4), c', [host]),
              Running(At(1), c', [host]), Running(At(2), c'', [host]), Halted(c''));
  }

  /** j 4; addiu r9; 2: jr ra; nop; 4: b 1; nop ...: the original returns after four steps, the C never. */
  lemma LoopLost(f: Found, b: Build, p: Program, env: Env, c: GoodCpu, host: Word, k: nat)
    requires Made(LoopText(), {BASE}, f, b, p) && c.r[31] == host
    ensures Iterate(MMachine(b.img, env, b.Region()), Running(BASE, c, [host]), 4) == Halted(Bump(Bump(c)))
    ensures CSteps(p, env, RegionStart(p, env, BASE, c), k).frames != []
  {
    LoopFound(LoopText(), f, b, p);
    LoopMachine(b, p, env, c, host);
    LoopRuns(b, p, env, c, host, k);
  }
}
