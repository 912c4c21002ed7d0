/** Discovery (source/src/discovery.rs): the worklist walk that marks reachable words, function
    entries and register jumps whose target a per-walk constant map can prove. */
module Discovery {
  import opened Options
  import opened Words
  import opened Mips
  import opened Emitter

  // ---- constant tracking ----

  type Consts = map<Reg, Word>

  function Put(c: Consts, r: Reg, v: Word): Consts {
    if r != 0 then c[r := v] else c
  }

  function PutOrForget(c: Consts, r: Reg, v: Option<Word>): Consts {
    match v
    case Some(w) => Put(c, r, w)
    case None => c - {r}
  }

  function Lookup(c: Consts, r: Reg): Option<Word> {
    if r in c then Some(c[r]) else None
  }

  /** $zero reads as the constant 0 in the three-register forms. */
  function Operand(c: Consts, r: Reg): Option<Word> {
    if r == 0 then Some(0) else Lookup(c, r)
  }

  /** The register written by an instruction that is not tracked, if any. */
  function Writes(ins: Inst): Option<Reg> {
    match ins
    case Shift(_, rd, _, _) => Some(rd)
    case ShiftV(_, rd, _, _) => Some(rd)
    case Mfhi(rd) => Some(rd)
    case Mflo(rd) => Some(rd)
    case Alu(_, _, _, rd) => Some(rd)
    case Imm(_, _, rt, _) => Some(rt)
    case Lui(rt, _) => Some(rt)
    case Load(_, _, rt, _) => Some(rt)
    case _ => None
  }

  function Forget(c: Consts, ins: Inst): Consts {
    match Writes(ins)
    case Some(r) => c - {r}
    case None => c
  }

  function ImmResult(op: ImmOp, v: Word, imm: Half): Option<Word> {
    match op
    case Addi => Some(Wrap(v + SignedImm(imm)))
    case Addiu => Some(Wrap(v + SignedImm(imm)))
    case Andi => Some(AndW(v, imm))
    case Ori => Some(OrW(v, imm))
    case Xori => Some(XorW(v, imm))
    case Slti => None
    case Sltiu => None
  }

  /** The constant map after one instruction. */
  function TrackConsts(ins: Inst, c: Consts): Consts {
    match ins
    case Lui(rt, imm) => Put(c, rt, imm * 0x1_0000)
    case Imm(op, rs, rt, imm) =>
      (match Lookup(c, rs)
       case Some(v) => PutOrForget(c, rt, ImmResult(op, v, imm))
       case None => c - {rt})
    case Shift(op, rd, rt, sa) =>
      (match Lookup(c, rt)
       case Some(v) => if op == Sra then c - {rd} else Put(c, rd, ShiftVal(op, v, sa))
       case None => c - {rd})
    case Alu(op, rs, rt, rd) =>
      (match (Operand(c, rs), Operand(c, rt))
       case (Some(x), Some(y)) => Put(c, rd, AluVal(op, x, y))
       case _ => c - {rd})
    case _ => Forget(c, ins)
  }

  /** Every known register holds its constant, and $zero is never recorded. */
  ghost predicate Knows(k: Consts, c: GoodCpu) {
    0 !in k && forall r <- k :: c.r[r] == k[r]
  }

  /** Stubs run outside code that may write any register. */
  predicate IsStub(ins: Inst) {
    ins.Cop? || ins.Unknown?
  }

  lemma SetKnows(k: Consts, c: GoodCpu, d: Reg, v: Word)
    requires Knows(k, c)
    ensures Knows(Put(k, d, v), c.Set(d, v)) && Knows(k - {d}, c.Set(d, v))
  {
  }

  lemma SameRegsKnows(k: Consts, c: GoodCpu, c': GoodCpu)
    requires Knows(k, c) && c'.r == c.r
    ensures Knows(k, c')
  {
  }

  lemma TrackAlu(env: Env, ins: Inst, k: Consts, c: GoodCpu)
    requires Knows(k, c) && (ins.Alu? || ins.Shift?)
    ensures Knows(TrackConsts(ins, k), ExecPlain(env, ins, c))
  {
    if ins.Alu? {
      SetKnows(k, c, ins.rd, AluVal(ins.aluOp, c.r[ins.rs], c.r[ins.rt]));
    } else {
      SetKnows(k, c, ins.rd, ShiftVal(ins.shOp, c.r[ins.rt], ins.sa));
    }
  }

  lemma TrackImm(env: Env, ins: Inst, k: Consts, c: GoodCpu)
    requires Knows(k, c) && ins.Imm?
    ensures Knows(TrackConsts(ins, k), ExecPlain(env, ins, c))
  {
    SetKnows(k, c, ins.rt, ImmVal(ins.immOp, c.r[ins.rs], ins.imm));
  }

  lemma TrackLoad(env: Env, ins: Inst, k: Consts, c: GoodCpu)
    requires Knows(k, c) && ins.Load?
    ensures Knows(TrackConsts(ins, k), ExecPlain(env, ins, c))
  {
    var g := LoadVal(env, ins.ldOp, c.bus, Wrap(c.r[ins.rs] + SignedImm(ins.imm)), c.r[ins.rt]);
    SameRegsKnows(k, c, c.(bus := g.bus));
    SetKnows(k, c.(bus := g.bus), ins.rt, g.v);
  }

  /** Tracking is sound across every instruction that is not a stub. */
  lemma TrackSound(env: Env, ins: Inst, k: Consts, c: GoodCpu)
    requires Knows(k, c) && !IsControlFlow(ins) && !IsStub(ins)
    ensures Knows(TrackConsts(ins, k), ExecPlain(env, ins, c))
  {
    if ins.Imm? {
      TrackImm(env, ins, k, c);
    } else if ins.Alu? || ins.Shift? {
      TrackAlu(env, ins, k, c);
    } else if ins.Load? {
      TrackLoad(env, ins, k, c);
    } else if ins.ShiftV? {
      SetKnows(k, c, ins.rd, ShiftVal(ins.shOp, c.r[ins.rt], c.r[ins.rs] % 32));
    } else if ins.Lui? {
      SetKnows(k, c, ins.rt, ins.imm * 0x1_0000);
    } else if ins.Mfhi? {
      SetKnows(k, c, ins.rd, c.hi);
    } else if ins.Mflo? {
      SetKnows(k, c, ins.rd, c.lo);
    } else {
      SameRegsKnows(k, c, ExecPlain(env, ins, c));
    }
  }

  /** All there is to know of the registers. */
  function AllOf(c: GoodCpu): Consts {
    map r: Reg | 0 < r < 32 :: c.r[r]
  }

  lemma AllKnown(c: GoodCpu)
    ensures Knows(AllOf(c), c)
  {
  }

  lemma KnowsAll(c: GoodCpu, c': GoodCpu)
    requires Knows(AllOf(c), c')
    ensures c'.r == c.r
  {
    forall r: Reg ensures c'.r[r] == c.r[r] {
      assert r > 0 ==> r in AllOf(c);
    }
  }

  ghost predicate KeepsTrack(env: Env, ins: Inst, k: Consts, c: GoodCpu)
    requires !IsControlFlow(ins)
  {
    Knows(k, c) ==> Knows(TrackConsts(ins, k), ExecPlain(env, ins, c))
  }

  ghost predicate Survives(env: Env, ins: Inst)
    requires !IsControlFlow(ins)
  {
    forall k: Consts, c: GoodCpu {:trigger KeepsTrack(env, ins, k, c)} :: KeepsTrack(env, ins, k, c)
  }

  lemma StubTracks(ins: Inst, k: Consts)
    requires IsStub(ins)
    ensures TrackConsts(ins, k) == k
  {
  }

  lemma StubWrites(env: Env, ins: Inst, c: GoodCpu)
    requires IsStub(ins) && Survives(env, ins)
    ensures ExecPlain(env, ins, c).r == c.r
  {
    AllKnown(c);
    StubTracks(ins, AllOf(c));
    assert KeepsTrack(env, ins, AllOf(c), c);
    KnowsAll(c, ExecPlain(env, ins, c));
  }

  /** The map survives a stub, whatever it knows, if and only if the stub writes no register at all:
      tracking does not forget anything across one. */
  lemma StubExact(env: Env, ins: Inst)
    requires IsStub(ins)
    ensures Survives(env, ins) <==> forall c: GoodCpu {:trigger ExecPlain(env, ins, c)} ::
      ExecPlain(env, ins, c).r == c.r
  {
    if Survives(env, ins) {
      forall c: GoodCpu ensures ExecPlain(env, ins, c).r == c.r {
        StubWrites(env, ins, c);
      }
    } else {
      var k: Consts, c: GoodCpu :| !KeepsTrack(env, ins, k, c);
      StubTracks(ins, k);
      assert ExecPlain(env, ins, c).r != c.r;
    }
  }

  // ---- straight-line stretches ----

  /** The n words from h on are plain instructions of the image. */
  ghost predicate Straight(img: Image, h: Word, n: nat) {
    forall i :: 0 <= i < n ==> img.In(h + 4 * i) && !IsControlFlow(img.At(h + 4 * i))
  }

  /** The tracked constants after the n words from h on. */
  ghost function ConstsAfter(img: Image, h: Word, n: nat): Consts
    requires Straight(img, h, n)
  {
    if n == 0 then map[] else TrackConsts(img.At(h + 4 * (n - 1)), ConstsAfter(img, h, n - 1))
  }

  /** The processor after executing them. */
  ghost function RunPlain(img: Image, env: Env, h: Word, n: nat, c: GoodCpu): GoodCpu
    requires Straight(img, h, n)
  {
    if n == 0 then c else ExecPlain(env, img.At(h + 4 * (n - 1)), RunPlain(img, env, h, n - 1, c))
  }

  /** What the walk knows at its end holds in every execution that enters at its head. */
  lemma {:induction false} WalkSound(img: Image, env: Env, h: Word, n: nat, c: GoodCpu)
    requires Straight(img, h, n)
    requires forall i :: 0 <= i < n ==> !IsStub(img.At(h + 4 * i))
    ensures Knows(ConstsAfter(img, h, n), RunPlain(img, env, h, n, c))
  {
    hide TrackConsts, ExecPlain;
    if n > 0 {
      WalkSound(img, env, h, n - 1, c);
      TrackSound(env, img.At(h + 4 * (n - 1)), ConstsAfter(img, h, n - 1), RunPlain(img, env, h, n - 1, c));
    }
  }

  // ---- the walk's result ----

  /** Where the walk goes on after the word at a: resolved register jumps included. */
  function Succs(img: Image, jr: map<Word, Word>, a: Word): set<Word> {
    if !img.In(a) then {}
    else
      var known := if a in jr then {jr[a]} else {};
      match img.At(a)
      case Branch(_, _, _, imm) => {BranchTarget(a, imm), Wrap(a + 8)}
      case J(t) => {JumpTarget(a, t)}
      case Jal(t) => {JumpTarget(a, t), Wrap(a + 8)}
      case Jr(_) => known
      case Jalr(_, _) => known + {Wrap(a + 8)}
      case _ => {Wrap(a + 4)}
  }

  /** Function entries that the transfer at a adds: a valid jal target, or any resolved jalr target. */
  function Entries(img: Image, jr: map<Word, Word>, a: Word): set<Word> {
    if !img.In(a) then {}
    else
      match img.At(a)
      case Jal(t) => if img.In(JumpTarget(a, t)) then {JumpTarget(a, t)} else {}
      case Jalr(_, _) => if a in jr then {jr[a]} else {}
      case _ => {}
  }

  /** The word marked along with the transfer at a. */
  function Marked(img: Image, a: Word): set<Word> {
    if img.In(a) && IsControlFlow(img.At(a)) && img.In(a + 4) then {Wrap(a + 4)} else {}
  }

  /** What has been found so far; order lists the walked words as they were walked. */
  datatype Found = Found(order: seq<Word>, visited: set<Word>, functions: set<Word>, jr: map<Word, Word>)

  predicate Leads(img: Image, jr: map<Word, Word>, w: Word, a: Word) {
    a in Succs(img, jr, w)
  }

  predicate Marks(img: Image, w: Word, v: Word) {
    v in Marked(img, w)
  }

  predicate Enters(img: Image, jr: map<Word, Word>, w: Word, t: Word) {
    t in Entries(img, jr, w)
  }

  /** The address is a root, or follows a word that was walked. */
  ghost predicate Grounded(img: Image, roots: set<Word>, jr: map<Word, Word>, order: seq<Word>, a: Word) {
    a in roots || exists w {:trigger Leads(img, jr, w, a)} :: w in order && Leads(img, jr, w, a)
  }

  predicate IsTransfer(img: Image, w: Word) {
    img.In(w) && IsControlFlow(img.At(w))
  }

  predicate JumpsByRegister(img: Image, a: Word) {
    img.In(a) && (img.At(a).Jr? || img.At(a).Jalr?)
  }

  /** The address is where a walk can begin: a root, or where a walked transfer leads. */
  ghost predicate Headed(img: Image, roots: set<Word>, jr: map<Word, Word>, order: seq<Word>, h: Word) {
    h in roots || exists w {:trigger Leads(img, jr, w, h)} :: w in order && IsTransfer(img, w) && Leads(img, jr, w, h)
  }

  /** A walk from h goes straight on for n words to the register jump at a, where its constants say t
      of the jump's register. */
  ghost predicate Decides(img: Image, h: Word, n: nat, a: Word, t: Option<Word>) {
    JumpsByRegister(img, a) && a == h + 4 * n && Straight(img, h, n)
        && Lookup(ConstsAfter(img, h, n), img.At(a).rs) == t
  }

  function Recorded(jr: map<Word, Word>, a: Word): Option<Word> {
    if a in jr then Some(jr[a]) else None
  }

  /** What is recorded of a walked register jump, or that nothing is, is what some walk knew. */
  ghost predicate Decided(img: Image, roots: set<Word>, f: Found, a: Word) {
    exists h: Word, n: nat {:trigger Decides(img, h, n, a, Recorded(f.jr, a))} ::
      Decides(img, h, n, a, Recorded(f.jr, a)) && Headed(img, roots, f.jr, f.order, h)
  }

  ghost predicate DecisionsOk(img: Image, roots: set<Word>, f: Found) {
    forall a {:trigger Decided(img, roots, f, a)} :: a in f.order && JumpsByRegister(img, a)
        ==> Decided(img, roots, f, a)
  }

  ghost predicate AllHeaded(img: Image, roots: set<Word>, f: Found, pending: set<Word>) {
    forall p {:trigger Headed(img, roots, f.jr, f.order, p)} :: p in pending ==> Headed(img, roots, f.jr, f.order, p)
  }

  /** A visited word was walked, or marked as the slot of a walked transfer. */
  ghost predicate Accounted(img: Image, order: seq<Word>, v: Word) {
    v in order || exists w {:trigger Marks(img, w, v)} :: w in order && Marks(img, w, v)
  }

  /** A function entry is a root or was added by a walked transfer. */
  ghost predicate EntryGrounded(img: Image, roots: set<Word>, jr: map<Word, Word>, order: seq<Word>, t: Word) {
    t in roots || exists w {:trigger Enters(img, jr, w, t)} :: w in order && Enters(img, jr, w, t)
  }

  /** A walked word is a word of the image; what it marks is visited, what it enters is a function,
      and what it leads to is visited, pending, or no word of the image. */
  ghost predicate Settled(img: Image, f: Found, pending: set<Word>, w: Word) {
    && img.In(w) && w in f.visited && Marked(img, w) <= f.visited && Entries(img, f.jr, w) <= f.functions
    && forall s: Word {:trigger Leads(img, f.jr, w, s)} ::
         Leads(img, f.jr, w, s) && img.In(s) ==> s in f.visited || s in pending
  }

  /** Words are walked once each, and never after a transfer that marked them as its slot. */
  predicate Apart(img: Image, order: seq<Word>, i: nat, j: nat)
    requires i < j < |order|
  {
    order[i] != order[j] && order[j] !in Marked(img, order[i])
  }

  ghost predicate GroundedAt(img: Image, roots: set<Word>, f: Found, i: nat)
    requires i < |f.order|
  {
    Grounded(img, roots, f.jr, f.order[..i], f.order[i])
  }

  /** A target is recorded for a walked register jump only. */
  predicate JumpRecorded(img: Image, f: Found, a: Word) {
    a in f.order && JumpsByRegister(img, a)
  }

  ghost predicate WordsOk(img: Image, roots: set<Word>, f: Found, pending: set<Word>) {
    && (forall w {:trigger Settled(img, f, pending, w)} :: w in f.order ==> Settled(img, f, pending, w))
    && (forall i: nat, j: nat {:trigger Apart(img, f.order, i, j)} :: i < j < |f.order| ==> Apart(img, f.order, i, j))
    && roots <= f.functions && (forall r :: r in roots && img.In(r) ==> r in f.visited || r in pending)
  }

  ghost predicate GroundsOk(img: Image, roots: set<Word>, f: Found, pending: set<Word>) {
    && (forall i: nat {:trigger GroundedAt(img, roots, f, i)} :: i < |f.order| ==> GroundedAt(img, roots, f, i))
    && (forall p {:trigger Grounded(img, roots, f.jr, f.order, p)} ::
          p in pending ==> Grounded(img, roots, f.jr, f.order, p))
    && (forall v {:trigger Accounted(img, f.order, v)} :: v in f.visited ==> Accounted(img, f.order, v))
    && (forall t {:trigger EntryGrounded(img, roots, f.jr, f.order, t)} ::
          t in f.functions ==> EntryGrounded(img, roots, f.jr, f.order, t))
    && (forall a {:trigger JumpRecorded(img, f, a)} :: a in f.jr ==> JumpRecorded(img, f, a))
  }

  /** The invariant of the search, with the pending addresses still to be looked at. */
  ghost predicate Inv(img: Image, roots: set<Word>, f: Found, pending: set<Word>) {
    WordsOk(img, roots, f, pending) && GroundsOk(img, roots, f, pending)
  }

  /** Looking at an address that is no word of the image, or was visited, changes nothing. */
  lemma SkipKeeps(img: Image, roots: set<Word>, f: Found, pending: set<Word>, a: Word)
    requires Inv(img, roots, f, pending + {a}) && (!img.In(a) || a in f.visited)
    ensures Inv(img, roots, f, pending)
  {
    forall w | w in f.order ensures Settled(img, f, pending, w) {
      assert Settled(img, f, pending + {a}, w);
    }
    forall p | p in pending ensures Grounded(img, roots, f.jr, f.order, p) {
      assert p in pending + {a};
    }
  }

  /** The effect of walking the word at a. */
  function Walked(img: Image, f: Found, a: Word, jr: map<Word, Word>): Found {
    Found(f.order + [a], f.visited + {a} + Marked(img, a), f.functions + Entries(img, jr, a), jr)
  }

  /** A resolution recorded at a does not touch the other words. */
  ghost predicate Extends(img: Image, f: Found, a: Word, jr: map<Word, Word>) {
    jr == f.jr || (a !in f.jr && jr.Keys == f.jr.Keys + {a} && (forall w <- f.jr :: jr[w] == f.jr[w])
        && JumpsByRegister(img, a))
  }

  lemma SameSuccs(img: Image, roots: set<Word>, f: Found, a: Word, jr: map<Word, Word>, w: Word)
    requires Extends(img, f, a, jr) && w != a
    ensures Succs(img, jr, w) == Succs(img, f.jr, w) && Entries(img, jr, w) == Entries(img, f.jr, w)
  {
  }

  lemma GroundedKeeps(img: Image, roots: set<Word>, f: Found, a: Word, jr: map<Word, Word>, order: seq<Word>,
      order': seq<Word>, p: Word)
    requires Extends(img, f, a, jr) && a !in order && order <= order'
    requires Grounded(img, roots, f.jr, order, p)
    ensures Grounded(img, roots, jr, order', p)
  {
    if p !in roots {
      var w :| w in order && Leads(img, f.jr, w, p);
      SameSuccs(img, roots, f, a, jr, w);
      assert w in order' && Leads(img, jr, w, p);
    }
  }

  lemma NotWalked(img: Image, roots: set<Word>, f: Found, pending: set<Word>, a: Word)
    requires WordsOk(img, roots, f, pending) && a !in f.visited
    ensures a !in f.order && forall i :: 0 <= i < |f.order| ==> a !in Marked(img, f.order[i])
  {
    forall w | w in f.order ensures w != a && a !in Marked(img, w) {
      assert Settled(img, f, pending, w);
    }
  }

  lemma JumpsVisited(img: Image, roots: set<Word>, f: Found, pending: set<Word>)
    requires Inv(img, roots, f, pending)
    ensures f.jr.Keys <= f.visited
  {
    forall a | a in f.jr ensures a in f.visited {
      assert JumpRecorded(img, f, a);
      assert Settled(img, f, pending, a);
    }
  }

  lemma WordsKeep(img: Image, roots: set<Word>, f: Found, pending: set<Word>, a: Word, jr: map<Word, Word>)
    requires WordsOk(img, roots, f, pending + {a}) && img.In(a) && a !in f.visited && Extends(img, f, a, jr)
    ensures WordsOk(img, roots, Walked(img, f, a, jr), pending + Succs(img, jr, a))
  {
    var f' := Walked(img, f, a, jr);
    NotWalked(img, roots, f, pending + {a}, a);
    forall w | w in f'.order ensures Settled(img, f', pending + Succs(img, jr, a), w) {
      if w != a {
        assert Settled(img, f, pending + {a}, w);
        SettledKeeps(img, roots, f, pending, a, jr, w);
      }
    }
    forall i: nat, j: nat | i < j < |f'.order| ensures Apart(img, f'.order, i, j) {
      if j < |f.order| { assert Apart(img, f.order, i, j); }
    }
  }

  lemma SettledKeeps(img: Image, roots: set<Word>, f: Found, pending: set<Word>, a: Word, jr: map<Word, Word>, w: Word)
    requires Settled(img, f, pending + {a}, w) && w != a && Extends(img, f, a, jr)
    ensures Settled(img, Walked(img, f, a, jr), pending + Succs(img, jr, a), w)
  {
    SameSuccs(img, roots, f, a, jr, w);
    forall s: Word | Leads(img, jr, w, s) && img.In(s) ensures s in f.visited + {a} || s in pending {
      assert Leads(img, f.jr, w, s);
    }
  }

  lemma GroundsKeep(img: Image, roots: set<Word>, f: Found, pending: set<Word>, a: Word, jr: map<Word, Word>)
    requires Inv(img, roots, f, pending + {a}) && img.In(a) && a !in f.visited && Extends(img, f, a, jr)
    ensures GroundsOk(img, roots, Walked(img, f, a, jr), pending + Succs(img, jr, a))
  {
    var f', n := Walked(img, f, a, jr), |f.order|;
    NotWalked(img, roots, f, pending + {a}, a);
    assert a in f'.order;
    forall i: nat | i < n + 1 ensures GroundedAt(img, roots, f', i) {
      assert f'.order[..i] == f.order[..i];
      assert if i < n then GroundedAt(img, roots, f, i)
             else f.order[..i] == f.order && Grounded(img, roots, f.jr, f.order, a);
      GroundedKeeps(img, roots, f, a, jr, f.order[..i], f.order[..i], f'.order[i]);
    }
    forall p | p in pending + Succs(img, jr, a) ensures Grounded(img, roots, jr, f'.order, p) {
      if p in Succs(img, jr, a) {
        assert Leads(img, jr, a, p);
      } else {
        GroundedKeeps(img, roots, f, a, jr, f.order, f'.order, p);
      }
    }
    forall v | v in f'.visited ensures Accounted(img, f'.order, v) {
      AccountedKeeps(img, f, a, jr, v);
    }
    forall t | t in f'.functions ensures EntryGrounded(img, roots, jr, f'.order, t) {
      EntryKeeps(img, roots, f, a, jr, t);
    }
    forall d | d in jr ensures JumpRecorded(img, f', d) {
      if d in f.jr { assert JumpRecorded(img, f, d); }
    }
  }

  lemma HeadedKeeps(img: Image, roots: set<Word>, f: Found, a: Word, jr: map<Word, Word>, p: Word)
    requires Extends(img, f, a, jr) && a !in f.order && Headed(img, roots, f.jr, f.order, p)
    ensures Headed(img, roots, jr, f.order + [a], p)
  {
    if p !in roots {
      var w :| w in f.order && IsTransfer(img, w) && Leads(img, f.jr, w, p);
      SameSuccs(img, roots, f, a, jr, w);
      assert w in f.order + [a] && Leads(img, jr, w, p);
    }
  }

  /** What was decided before stays decided. */
  lemma DecidedKeeps(img: Image, roots: set<Word>, f: Found, a: Word, jr: map<Word, Word>, d: Word)
    requires Extends(img, f, a, jr) && a !in f.order && d != a && Decided(img, roots, f, d)
    ensures Decided(img, roots, Walked(img, f, a, jr), d)
  {
    var h: Word, n: nat :| Decides(img, h, n, d, Recorded(f.jr, d)) && Headed(img, roots, f.jr, f.order, h);
    HeadedKeeps(img, roots, f, a, jr, h);
    assert Decides(img, h, n, d, Recorded(jr, d));
  }

  /** Walking the word at a, which a walk from h came to, keeps the decisions. */
  lemma DecisionsKeep(img: Image, roots: set<Word>, f: Found, pending: set<Word>, h: Word, n: nat, a: Word,
      jr: map<Word, Word>)
    requires DecisionsOk(img, roots, f) && AllHeaded(img, roots, f, pending) && Headed(img, roots, f.jr, f.order, h)
    requires Extends(img, f, a, jr) && a !in f.order && img.In(a)
    requires JumpsByRegister(img, a) ==> Decides(img, h, n, a, Recorded(jr, a))
    ensures DecisionsOk(img, roots, Walked(img, f, a, jr)) && Headed(img, roots, jr, f.order + [a], h)
    ensures AllHeaded(img, roots, Walked(img, f, a, jr), pending + if IsControlFlow(img.At(a)) then Succs(img, jr, a)
      else {})
  {
    var f' := Walked(img, f, a, jr);
    assert a in f'.order;
    HeadedKeeps(img, roots, f, a, jr, h);
    forall d | d in f'.order && JumpsByRegister(img, d) ensures Decided(img, roots, f', d) {
      if d != a {
        assert Decided(img, roots, f, d);
        DecidedKeeps(img, roots, f, a, jr, d);
      }
    }
    forall p | p in pending + (if IsControlFlow(img.At(a)) then Succs(img, jr, a) else {})
        ensures Headed(img, roots, jr, f'.order, p) {
      if p in pending { HeadedKeeps(img, roots, f, a, jr, p); } else { assert Leads(img, jr, a, p); }
    }
  }

  lemma AccountedKeeps(img: Image, f: Found, a: Word, jr: map<Word, Word>, v: Word)
    requires v in f.visited ==> Accounted(img, f.order, v)
    requires v in Walked(img, f, a, jr).visited
    ensures Accounted(img, f.order + [a], v)
  {
    assert a in f.order + [a];
    if v in f.visited && v !in f.order {
      var w :| w in f.order && Marks(img, w, v);
      assert w in f.order + [a] && Marks(img, w, v);
    } else if v in Marked(img, a) {
      assert Marks(img, a, v);
    }
  }

  lemma EntryKeeps(img: Image, roots: set<Word>, f: Found, a: Word, jr: map<Word, Word>, t: Word)
    requires Extends(img, f, a, jr) && a !in f.order
    requires t in f.functions ==> EntryGrounded(img, roots, f.jr, f.order, t)
    requires t in Walked(img, f, a, jr).functions
    ensures EntryGrounded(img, roots, jr, f.order + [a], t)
  {
    assert a in f.order + [a];
    if t in f.functions && t !in roots {
      var w :| w in f.order && Enters(img, f.jr, w, t);
      SameSuccs(img, roots, f, a, jr, w);
      assert w in f.order + [a] && Enters(img, jr, w, t);
    } else if t !in roots {
      assert Enters(img, jr, a, t);
    }
  }

  /** Walking one more word keeps the invariant, with its successors now pending. */
  lemma WalkKeeps(img: Image, roots: set<Word>, f: Found, pending: set<Word>, a: Word, jr: map<Word, Word>)
    requires Inv(img, roots, f, pending + {a}) && img.In(a) && a !in f.visited && Extends(img, f, a, jr)
    ensures Inv(img, roots, Walked(img, f, a, jr), pending + Succs(img, jr, a))
  {
    WordsKeep(img, roots, f, pending, a, jr);
    GroundsKeep(img, roots, f, pending, a, jr);
  }

  /** Where the walk starts: the entry point if it is a word of the image, else the image's base,
      and every seeded address that is a word of the image. */
  function Roots(img: Image, entry: Word, extra: seq<Word>): set<Word> {
    (if img.In(entry) then {entry} else {img.base}) + set a | a in extra && img.In(a)
  }

  /** A finished discovery: the invariant with nothing left to look at. */
  ghost predicate IsDiscovery(img: Image, roots: set<Word>, f: Found) {
    Inv(img, roots, f, {}) && DecisionsOk(img, roots, f)
  }

  function Elems(q: seq<Word>): set<Word> {
    set a | a in q
  }

  lemma StartKeeps(img: Image, roots: set<Word>)
    ensures Inv(img, roots, Found([], {}, roots, map[]), roots)
    ensures DecisionsOk(img, roots, Found([], {}, roots, map[]))
      && AllHeaded(img, roots, Found([], {}, roots, map[]), roots)
  {
  }

  /** The queue entries a transfer adds, in the order the walk adds them. */
  function Pushes(img: Image, jr: map<Word, Word>, a: Word): (q: seq<Word>)
    requires img.In(a)
    ensures Elems(q) == Succs(img, jr, a)
  {
    match img.At(a)
    case Branch(_, _, _, imm) => [BranchTarget(a, imm), Wrap(a + 8)]
    case J(t) => [JumpTarget(a, t)]
    case Jal(t) => [JumpTarget(a, t), Wrap(a + 8)]
    case Jr(_) => if a in jr then [jr[a]] else []
    case Jalr(_, _) => (if a in jr then [jr[a]] else []) + [Wrap(a + 8)]
    case _ => [Wrap(a + 4)]
  }

  /** The resolution recorded when the walk ends at a knowing consts. */
  function JumpsAfter(img: Image, jr: map<Word, Word>, a: Word, consts: Consts): map<Word, Word>
    requires img.In(a)
  {
    var ins := img.At(a);
    if (ins.Jr? || ins.Jalr?) && ins.rs in consts then jr[a := consts[ins.rs]] else jr
  }

  lemma JumpsExtend(img: Image, f: Found, h: Word, n: nat, a: Word)
    requires Straight(img, h, n) && a == h + 4 * n && img.In(a) && a !in f.jr
    ensures var jr := JumpsAfter(img, f.jr, a, ConstsAfter(img, h, n));
            Extends(img, f, a, jr) && (JumpsByRegister(img, a) ==> Decides(img, h, n, a, Recorded(jr, a)))
  {
  }

  /** A transfer ends the walk: mark its slot, record what is known of its target, queue where
      control continues. */
  method EndWalk(img: Image, a: Word, consts: Consts, visited: set<Word>, functions: set<Word>, jr: map<Word, Word>)
    returns (visited': set<Word>, functions': set<Word>, jr': map<Word, Word>, more: seq<Word>)
    requires img.Valid() && img.In(a) && IsControlFlow(img.At(a)) && a !in jr
    ensures jr' == JumpsAfter(img, jr, a, consts)
    ensures visited' == visited + {a} + Marked(img, a) && functions' == functions + Entries(img, jr', a)
    ensures more == Pushes(img, jr', a)
  {
    NoWrap(img, a);
    visited', functions', jr' := visited + {a}, functions, jr;
    if img.In(a + 4) {
      visited' := visited' + {Wrap(a + 4)};
    }
    match img.At(a) {
      case Jal(index) =>
        if img.In(JumpTarget(a, index)) {
          functions' := functions' + {JumpTarget(a, index)};
        }
      case Jr(rs) =>
        if rs in consts {
          jr' := jr[a := consts[rs]];
        }
      case Jalr(_, rs) =>
        if rs in consts {
          jr' := jr[a := consts[rs]];
          functions' := functions' + {consts[rs]};
        }
      case _ =>
    }
    more := Pushes(img, jr', a);
  }

  /** The decisions so far, the queue, and the head of the walk in progress. */
  ghost predicate Heads(img: Image, roots: set<Word>, f: Found, pending: set<Word>, h: Word) {
    DecisionsOk(img, roots, f) && AllHeaded(img, roots, f, pending) && Headed(img, roots, f.jr, f.order, h)
  }

  lemma PlainHeads(img: Image, roots: set<Word>, f: Found, pending: set<Word>, h: Word, a: Word)
    requires Inv(img, roots, f, pending + {a}) && Heads(img, roots, f, pending, h) && img.In(a) && a !in f.visited
      && !IsControlFlow(img.At(a))
    ensures Heads(img, roots, Found(f.order + [a], f.visited + {a}, f.functions, f.jr), pending, h)
  {
    NotWalked(img, roots, f, pending + {a}, a);
    DecisionsKeep(img, roots, f, pending, h, 0, a, f.jr);
    assert Walked(img, f, a, f.jr) == Found(f.order + [a], f.visited + {a}, f.functions, f.jr);
    assert pending + {} == pending;
  }

  lemma PlainKeeps(img: Image, roots: set<Word>, f: Found, pending: set<Word>, a: Word)
    requires img.Valid() && Inv(img, roots, f, pending + {a}) && img.In(a) && a !in f.visited
      && !IsControlFlow(img.At(a))
    ensures a as int + 4 < 0x1_0000_0000
    ensures Inv(img, roots, Found(f.order + [a], f.visited + {a}, f.functions, f.jr), pending + {a + 4})
  {
    NoWrap(img, a);
    WalkKeeps(img, roots, f, pending, a, f.jr);
    assert Walked(img, f, a, f.jr) == Found(f.order + [a], f.visited + {a}, f.functions, f.jr);
  }

  lemma EndKeeps(img: Image, roots: set<Word>, f: Found, pending: set<Word>, h: Word, n: nat, a: Word)
    requires Inv(img, roots, f, pending + {a}) && img.In(a) && a !in f.visited
    requires Straight(img, h, n) && a == h + 4 * n && IsControlFlow(img.At(a)) && Heads(img, roots, f, pending, h)
    ensures a !in f.jr
    ensures var jr := JumpsAfter(img, f.jr, a, ConstsAfter(img, h, n));
            Inv(img, roots, Walked(img, f, a, jr), pending + Succs(img, jr, a))
            && DecisionsOk(img, roots, Walked(img, f, a, jr))
               && AllHeaded(img, roots, Walked(img, f, a, jr), pending + Succs(img, jr, a))
  {
    JumpsVisited(img, roots, f, pending + {a});
    NotWalked(img, roots, f, pending + {a}, a);
    JumpsExtend(img, f, h, n, a);
    DecisionsKeep(img, roots, f, pending, h, n, a, JumpsAfter(img, f.jr, a, ConstsAfter(img, h, n)));
    WalkKeeps(img, roots, f, pending, a, JumpsAfter(img, f.jr, a, ConstsAfter(img, h, n)));
  }

  /** The words of the image that are not visited yet. */
  ghost function Left(img: Image, visited: set<Word>): set<int> {
    set a | a in img.insts && !(0 <= a < 0x1_0000_0000 && a in visited)
  }

  lemma LeftShrinks(img: Image, visited: set<Word>, a: Word, more: set<Word>)
    requires img.In(a) && a !in visited
    ensures Left(img, visited + {a} + more) < Left(img, visited)
  {
    assert a as int in Left(img, visited);
  }

  /** What the plain word at a changes. */
  ghost function Stepped(img: Image, f: Found, a: Word): (f': Found)
    requires img.In(a) && a !in f.visited
    ensures Left(img, f'.visited) < Left(img, f.visited)
  {
    LeftShrinks(img, f.visited, a, {});
    assert f.visited + {a} + {} == f.visited + {a};
    Found(f.order + [a], f.visited + {a}, f.functions, f.jr)
  }

  /** A whole walk from a with the given constants: what is found, and what it queues. */
  ghost function WalkFrom(img: Image, f: Found, a: Word, consts: Consts): (Found, seq<Word>)
    decreases Left(img, f.visited)
  {
    if !img.In(a) || a in f.visited then (f, [])
    else if IsControlFlow(img.At(a)) then
      var jr := JumpsAfter(img, f.jr, a, consts);
      (Walked(img, f, a, jr), Pushes(img, jr, a))
    else WalkFrom(img, Stepped(img, f, a), Wrap(a + 4), TrackConsts(img.At(a), consts))
  }

  lemma WalkFromPlain(img: Image, f: Found, start: Word, n: nat, a: Word)
    requires img.Valid() && Straight(img, start, n) && a == start + 4 * n && img.In(a) && a !in f.visited
      && !IsControlFlow(img.At(a))
    ensures a as int + 4 < 0x1_0000_0000 && Straight(img, start, n + 1)
    ensures WalkFrom(img, f, a, ConstsAfter(img, start, n))
      == WalkFrom(img, Stepped(img, f, a), a + 4, ConstsAfter(img, start, n + 1))
  {
    NoWrap(img, a);
    OneMore(img, start, n, a);
  }

  lemma WalkFromEnd(img: Image, roots: set<Word>, f: Found, pending: set<Word>, start: Word, n: nat, a: Word)
    requires Inv(img, roots, f, pending + {a}) && Straight(img, start, n) && a == start + 4 * n
      && Heads(img, roots, f, pending, start)
    requires !img.In(a) || a in f.visited || IsControlFlow(img.At(a))
    ensures var (f', more) := WalkFrom(img, f, a, ConstsAfter(img, start, n));
            && Inv(img, roots, f', pending + Elems(more)) && DecisionsOk(img, roots, f')
               && AllHeaded(img, roots, f', pending + Elems(more))
            && (Left(img, f'.visited) < Left(img, f.visited) || (f' == f && more == []))
  {
    if !img.In(a) || a in f.visited {
      SkipKeeps(img, roots, f, pending, a);
      assert pending + Elems([]) == pending;
    } else {
      EndKeeps(img, roots, f, pending, start, n, a);
      LeftShrinks(img, f.visited, a, Marked(img, a));
    }
  }

  lemma {:induction false} WalkFromKeeps(img: Image, roots: set<Word>, f: Found, pending: set<Word>, start: Word,
      n: nat, a: Word)
    requires img.Valid() && Inv(img, roots, f, pending + {a}) && Straight(img, start, n) && a == start + 4 * n
      && Heads(img, roots, f, pending, start)
    ensures var (f', more) := WalkFrom(img, f, a, ConstsAfter(img, start, n));
            && Inv(img, roots, f', pending + Elems(more)) && DecisionsOk(img, roots, f')
               && AllHeaded(img, roots, f', pending + Elems(more))
            && (Left(img, f'.visited) < Left(img, f.visited) || (f' == f && more == []))
    decreases Left(img, f.visited)
  {
    if !img.In(a) || a in f.visited || IsControlFlow(img.At(a)) {
      WalkFromEnd(img, roots, f, pending, start, n, a);
    } else {
      WalkFromPlain(img, f, start, n, a);
      PlainKeeps(img, roots, f, pending, a);
      PlainHeads(img, roots, f, pending, start, a);
      WalkFromKeeps(img, roots, Stepped(img, f, a), pending, start, n + 1, a + 4);
    }
  }

  lemma OneMore(img: Image, h: Word, n: nat, a: Word)
    requires Straight(img, h, n) && a == h + 4 * n && img.In(a) && !IsControlFlow(img.At(a))
    ensures Straight(img, h, n + 1) && ConstsAfter(img, h, n + 1) == TrackConsts(img.At(a), ConstsAfter(img, h, n))
  {
  }

  /** One walk: straight on from start until a transfer, a word seen before, or the image's end. */
  method Walk(img: Image, start: Word, ghost f0: Found, visited0: set<Word>, functions0: set<Word>, jr0: map<Word,
      Word>)
    returns (visited: set<Word>, functions: set<Word>, jr: map<Word, Word>, more: seq<Word>, ghost order: seq<Word>)
    requires img.Valid() && f0 == Found(f0.order, visited0, functions0, jr0) && jr0.Keys <= visited0
    ensures (Found(order, visited, functions, jr), more) == WalkFrom(img, f0, start, map[])
  {
    var a, consts: Consts := start, map[];
    visited, functions, jr, more, order := visited0, functions0, jr0, [], f0.order;
    while img.In(a) && a !in visited
      invariant jr.Keys <= visited
      invariant WalkFrom(img, Found(order, visited, functions, jr), a, consts) == WalkFrom(img, f0, start, map[])
      decreases Left(img, visited)
    {
      ghost var f := Found(order, visited, functions, jr);
      NoWrap(img, a);
      if IsControlFlow(img.At(a)) {
        visited, functions, jr, more := EndWalk(img, a, consts, visited, functions, jr);
        order := order + [a];
        return;
      }
      assert Stepped(img, f, a) == Found(order + [a], visited + {a}, functions, jr);
      visited, order := visited + {a}, order + [a];
      consts := TrackConsts(img.At(a), consts);
      a := a + 4;
    }
  }

  lemma TakeFront(q: seq<Word>)
    requires q != []
    ensures Elems(q) == Elems(q[1..]) + {q[0]}
  {
    assert q == [q[0]] + q[1..];
  }

  lemma ElemsSum(q: seq<Word>, more: seq<Word>)
    ensures Elems(q + more) == Elems(q) + Elems(more)
  {
  }

  /** The queue before the first walk: the entry point or the base, then the valid seeds. */
  method Seed(img: Image, entry: Word, extra: seq<Word>) returns (q: seq<Word>, functions: set<Word>)
    ensures functions == Elems(q) == Roots(img, entry, extra)
  {
    q := [if img.In(entry) then entry else img.base];
    functions := {q[0]};
    for i := 0 to |extra|
      invariant functions == Elems(q) == Roots(img, entry, extra[..i])
    {
      assert extra[..i + 1] == extra[..i] + [extra[i]];
      if img.In(extra[i]) {
        ElemsSum(q, [extra[i]]);
        q := q + [extra[i]];
        functions := functions + {extra[i]};
      }
    }
    assert extra[..|extra|] == extra;
  }

  /** The worklist: take addresses from the front, queue continuations at the back. */
  method Discover(img: Image, entry: Word, extra: seq<Word>)
    returns (visited: set<Word>, functions: set<Word>, jr: map<Word, Word>, ghost order: seq<Word>)
    requires img.Valid()
    ensures IsDiscovery(img, Roots(img, entry, extra), Found(order, visited, functions, jr))
  {
    ghost var roots := Roots(img, entry, extra);
    var q: seq<Word>;
    q, functions := Seed(img, entry, extra);
    visited, jr, order := {}, map[], [];
    StartKeeps(img, roots);
    while q != []
      invariant Inv(img, roots, Found(order, visited, functions, jr), Elems(q))
      invariant DecisionsOk(img, roots, Found(order, visited, functions, jr))
        && AllHeaded(img, roots, Found(order, visited, functions, jr), Elems(q))
      decreases Left(img, visited), |q|
    {
      var more: seq<Word>;
      ghost var f := Found(order, visited, functions, jr);
      TakeFront(q);
      JumpsVisited(img, roots, f, Elems(q));
      assert Headed(img, roots, f.jr, f.order, q[0]);
      WalkFromKeeps(img, roots, f, Elems(q[1..]), q[0], 0, q[0]);
      visited, functions, jr, more, order := Walk(img, q[0], f, visited, functions, jr);
      ElemsSum(q[1..], more);
      q := q[1..] + more;
    }
    assert Elems(q) == {};
  }
}
