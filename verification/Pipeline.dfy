/** Discovery and emission together: what the search establishes about the words it walked is what the
    emitted code needs, and only facts of the execution are left as conditions on a run. */
module Pipeline {
  import opened Options
  import opened Words
  import opened Mips
  import opened CCode
  import opened Emitter
  import opened Machines
  import opened Layout
  import opened Recompile
  import opened Discovery
  import opened Discovered
  import opened Runs
  import Simulation
  import Split

  // ---- what the image has to be like ----

  /** Flow out of the word stays in the image, and its delay slot is a plain word. */
  predicate Inside(img: Image, w: Word) {
    img.In(w) && img.In(w + 4)
    && (HasSlot(img.At(w)) ==> !IsControlFlow(img.At(w + 4)))
    && (img.At(w).Branch? || img.At(w).Jal? || img.At(w).Jalr? ==> img.In(w + 8))
  }

  ghost predicate WordSuits(img: Image, f: Found, w: Word) {
    Inside(img, w) && (IsTrap(img, w) ==> Wrap(w + 4) in f.order)
  }

  /** The image suits the recompiler: nothing reachable jumps onto a delay slot, the walked words stay
      inside the image, the words after traps were walked, and the entries are words of the image. */
  ghost predicate Suits(img: Image, roots: set<Word>, f: Found, s: iset<Word>) {
    && img.Valid() && IsDiscovery(img, roots, f) && Reachable(img, roots, f.jr, s) && NoneBehind(img, roots, f.jr, s)
    && (forall w {:trigger WordSuits(img, f, w)} :: w in f.order ==> WordSuits(img, f, w))
    && (forall r <- roots :: img.In(r)) && (forall a <- f.jr :: img.In(a) && img.At(a).Jalr? ==> img.In(f.jr[a]))
    && GATES !! f.visited
  }

  // ---- what is left to the execution ----

  /** Of the walked words only p leads to a, and falls through to it. */
  ghost predicate OnlyFrom(img: Image, roots: set<Word>, f: Found, p: Word, a: Word) {
    && p + 4 == a && img.In(p) && !IsControlFlow(img.At(p)) && a !in roots
    && forall w {:trigger Leads(img, f.jr, w, a)} :: w in f.order && Leads(img, f.jr, w, a) ==> w == p
  }

  ghost predicate OnlyOn(img: Image, roots: set<Word>, f: Found, h: Word, i: nat) {
    h + 4 * (i + 1) < 0x1_0000_0000 && OnlyFrom(img, roots, f, h + 4 * i, h + 4 * (i + 1))
  }

  /** Nothing that was walked leads into the middle of the n words from h on, and no stub is among them. */
  ghost predicate Undisturbed(img: Image, roots: set<Word>, f: Found, h: Word, n: nat) {
    && Straight(img, h, n) && NoStubs(img, h, n)
    && forall i: nat {:trigger OnlyOn(img, roots, f, h, i)} :: i < n ==> OnlyOn(img, roots, f, h, i)
  }

  /** Such a stretch decided the target recorded for the register jump at a. */
  ghost predicate Sure(img: Image, roots: set<Word>, f: Found, a: Word) {
    a in f.jr && exists h: Word, n: nat {:trigger Decides(img, h, n, a, Some(f.jr[a]))} ::
      Decides(img, h, n, a, Some(f.jr[a])) && Undisturbed(img, roots, f, h, n)
  }

  /** The step is one the emitted code follows, given a walked word: the statements are exact, traps stay
      in their chunk, linking branches are not taken, and a register that is jumped through holds what the
      emitted code takes it to hold, unless that is sure. */
  ghost predicate Acts(b: Build, env: Env, m: MState, sure: bool)
  {
    && m.Running? && b.img.In(m.pc)
    && var pc, c := m.pc, m.cpu;
    && (HasSlot(b.img.At(pc)) ==>
          PlainOk(env, SlotInst(b.img, pc), Linked(b.img.At(pc), pc, c))
              && !DivUndefined(SlotInst(b.img, pc), Linked(b.img.At(pc), pc, c)))
    && match b.img.At(pc)
       case Syscall => b.Key(Wrap(pc + 4)) == b.Key(pc)
       case Break(_) => b.Key(Wrap(pc + 4)) == b.Key(pc)
       case Branch(op, rs, rt, _) => Links(op) ==> rs != 31 && !Taken(op, c.r[rs], c.r[rt])
       case J(_) => true
       case Jal(_) => true
       case Jr(rs) =>
         var closes := rs == 31 && m.stack != [] && c.r[31] == m.stack[|m.stack| - 1];
         if pc in b.jr then (sure || c.r[rs] == b.jr[pc]) && !closes
         else if rs == 31 then closes
         else ExecPlain(env, SlotInst(b.img, pc), c).r[rs] == c.r[rs] && EntryOk(b, c.r[rs])
       case Jalr(_, rs) => if pc in b.jr then sure || c.r[rs] == b.jr[pc] else EntryOk(b, c.r[rs])
       case _ => PlainOk(env, b.img.At(pc), c) && !DivUndefined(b.img.At(pc), c)
  }

  /** The machine is at a walked word, and its calls return to walked words. */
  ghost predicate AtWalked(f: Found, m: MState) {
    m.Running? ==> m.pc in f.order && m.stack != [] && forall i :: 0 < i < |m.stack| ==> m.stack[i] in f.order
  }

  // ---- starts ----

  lemma EdgeWalked(img: Image, roots: set<Word>, f: Found, s: iset<Word>, pc: Word, t: Word)
    requires Suits(img, roots, f, s) && pc in f.visited && t in f.visited && img.In(pc) && Split.Edge(img.At(pc), pc, t)
    ensures t in f.order
  {
    VisitedExact(img, roots, f, t);
    VisitedExact(img, roots, f, pc);
    if pc in f.order {
      assert !IsTrap(img, pc) && Leads(img, f.jr, pc, t);
      Complete(img, roots, f, s, pc, t);
    } else {
      var w :| w in f.order && Marks(img, w, pc);
      SlotEdge(img, roots, f, w, pc, t);
    }
  }

  /** A word visited as a slot only goes on to the word after it, which is no slot. */
  lemma SlotEdge(img: Image, roots: set<Word>, f: Found, w: Word, pc: Word, t: Word)
    requires img.Valid() && IsDiscovery(img, roots, f) && w in f.order && WordSuits(img, f, w) && pc !in f.order
      && Marks(img, w, pc)
    requires img.In(pc) && t in f.visited && Split.Edge(img.At(pc), pc, t)
    ensures t in f.order
  {
    NoWrap(img, w);
    assert pc == w + 4 && HasSlot(img.At(w)) && !IsControlFlow(img.At(pc));
    NoWrap(img, pc);
    assert t == pc + 4;
    NotMarked(img, roots, f, t);
  }

  lemma FirstWalked(img: Image, roots: set<Word>, f: Found, visited: seq<Word>)
    requires img.Valid() && IsDiscovery(img, roots, f) && Split.Spaced(visited) && Split.Elems(visited) == f.visited
      && visited != []
    ensures visited[0] in f.order
  {
    var v := visited[0];
    VisitedExact(img, roots, f, v);
    if v !in f.order {
      var w :| w in f.order && Marks(img, w, v);
      VisitedExact(img, roots, f, w);
      NoWrap(img, w);
      FirstIsLeast(visited, w);
      assert false;
    }
  }

  lemma FirstIsLeast(visited: seq<Word>, w: Word)
    requires Split.Spaced(visited) && w in Split.Elems(visited)
    ensures visited[0] <= w
  {
  }

  lemma EntriesWalked(img: Image, roots: set<Word>, f: Found, s: iset<Word>, t: Word)
    requires Suits(img, roots, f, s) && (t in f.functions || exists a :: a in f.jr && f.jr[a] == t && t in f.visited)
    ensures t in f.order
  {
    if t in f.functions {
      FunctionsVisited(img, roots, f);
      VisitedExact(img, roots, f, t);
      FunctionsExact(img, roots, f, t);
      if t in roots {
        Complete(img, roots, f, s, t, t);
      } else {
        var w :| w in f.order && Enters(img, f.jr, w, t);
        assert Leads(img, f.jr, w, t);
        Complete(img, roots, f, s, w, t);
      }
    } else {
      var a :| a in f.jr && f.jr[a] == t;
      VisitedExact(img, roots, f, t);
      assert JumpRecorded(img, f, a) && Leads(img, f.jr, a, t);
      Complete(img, roots, f, s, a, t);
    }
  }

  /** Every start is a walked word: the walked words are closed under the splitter's edges. */
  lemma StartsWalked(img: Image, roots: set<Word>, f: Found, s: iset<Word>, b: Build, p: Program, t: Word)
    requires Suits(img, roots, f, s) && Built(img, f, b, p) && t in b.starts
    ensures t in f.order
  {
    var walked := set w | w in f.order;
    var initial := Split.InitialStarts(b.visited, b.functions, b.jr);
    if b.visited != [] { FirstWalked(img, roots, f, b.visited); }
    forall i | i in initial ensures i in walked {
      if b.visited == [] || i != b.visited[0] { EntriesWalked(img, roots, f, s, i); }
    }
    forall pc | pc in b.Region() ensures Split.EdgesOk(img, b.Region(), walked, pc) {
      forall u: Word | u in b.Region() && Split.Edge(img.At(pc), pc, u) ensures u in walked {
        EdgeWalked(img, roots, f, s, pc, u);
      }
    }
    assert Split.Closed(img, b.Region(), walked);
  }

  // ---- one step ----

  /** Where a walked word other than a trap leads is walked, or no reachable word at all; nothing of it is
      a consumed slot. */
  lemma LedTo(img: Image, roots: set<Word>, f: Found, s: iset<Word>, b: Build, p: Program, w: Word, t: Word)
    requires Suits(img, roots, f, s) && Built(img, f, b, p) && w in f.order && !IsTrap(img, w) && Leads(img, f.jr, w, t)
    ensures t in b.Region() <==> img.In(t)
    ensures t in b.Region() ==> t in f.order
    ensures JumpOk(b, w, t)
  {
    VisitedExact(img, roots, f, t);
    if img.In(t) { Complete(img, roots, f, s, w, t); VisitedExact(img, roots, f, t); }
    InReach(img, roots, f, s, w);
    assert !Behind(img, t);
  }

  /** A transfer to t lands on a walked word, or returns to one. */
  lemma Lands(b: Build, f: Found, env: Env, t: Word, c: GoodCpu, stack: seq<Word>)
    requires t in b.Region() ==> t in f.order
    requires stack != [] && forall i :: 0 < i < |stack| ==> stack[i] in f.order
    requires forall w :: w in f.order ==> w in b.Region()
    ensures var m := Land(env, b.Region(), t, c, stack); AtWalked(f, m) && (m.Running? ==> m.pc in b.Region())
  {
  }

  lemma OrderInRegion(img: Image, roots: set<Word>, f: Found, b: Build, p: Program)
    requires img.Valid() && IsDiscovery(img, roots, f) && Built(img, f, b, p)
    ensures forall w :: w in f.order ==> w in b.Region() && img.In(w)
  {
    forall w | w in f.order ensures w in b.Region() && img.In(w) { VisitedExact(img, roots, f, w); }
  }

  lemma EntryLands(img: Image, roots: set<Word>, f: Found, s: iset<Word>, b: Build, p: Program, t: Word)
    requires Suits(img, roots, f, s) && Built(img, f, b, p) && EntryOk(b, t)
    ensures t in b.Region() ==> t in f.order
  {
    if t in b.Region() { StartsWalked(img, roots, f, s, b, p, t); }
  }

  /** What every step needs: the word and its calls are walked, and walked words are in the region. */
  ghost predicate Placed(f: Found, b: Build, m: MState) {
    && m.Running? && m.pc in f.order && b.img.In(m.pc) && WordSuits(b.img, f, m.pc) && b.img.Valid()
    && m.stack != [] && (forall i :: 0 < i < |m.stack| ==> m.stack[i] in f.order)
    && forall w :: w in f.order ==> w in b.Region()
  }

  lemma IsPlaced(img: Image, roots: set<Word>, f: Found, s: iset<Word>, b: Build, p: Program, m: MState)
    requires Suits(img, roots, f, s) && Built(img, f, b, p) && AtWalked(f, m) && m.Running?
    ensures Placed(f, b, m)
  {
    OrderInRegion(img, roots, f, b, p);
    assert WordSuits(img, f, m.pc);
  }

  /** Control may go to t: no consumed slot, and walked if it is a reachable word. */
  ghost predicate MayGo(f: Found, b: Build, pc: Word, t: Word) {
    JumpOk(b, pc, t) && (t in b.Region() ==> t in f.order)
  }

  lemma PlainStep(f: Found, b: Build, env: Env, m: MState, next: Word)
    requires Placed(f, b, m) && Acts(b, env, m, false) && !IsControlFlow(b.img.At(m.pc)) && next == Wrap(m.pc + 4)
      && next in b.Region() && next in f.order
    ensures Ok(b, env, m) && AtWalked(f, MStep(b.img, env, b.Region(), m))
  {
    Lands(b, f, env, next, ExecPlain(env, b.img.At(m.pc), m.cpu), m.stack);
  }

  lemma TrapStep(f: Found, b: Build, env: Env, m: MState)
    requires Placed(f, b, m) && Acts(b, env, m, false) && IsTrap(b.img, m.pc)
    ensures Ok(b, env, m) && AtWalked(f, MStep(b.img, env, b.Region(), m))
  {
    var c' := if b.img.At(m.pc).Syscall? then env.syscall(m.cpu) else env.brk(b.img.At(m.pc).code, m.cpu);
    Lands(b, f, env, Wrap(m.pc + 4), c', m.stack);
  }

  lemma BranchStep(f: Found, b: Build, env: Env, m: MState, t: Word, next: Word)
    requires Placed(f, b, m) && Acts(b, env, m, false) && b.img.At(m.pc).Branch?
    requires t == BranchTarget(m.pc, b.img.At(m.pc).imm) && next == Wrap(m.pc + 8)
    requires MayGo(f, b, m.pc, t) && next in b.Region() && next in f.order
    ensures Ok(b, env, m) && AtWalked(f, MStep(b.img, env, b.Region(), m))
  {
    var c' := SlotDone(b.img, env, m.pc, m.cpu);
    Lands(b, f, env, t, c', m.stack);
    Lands(b, f, env, next, c', m.stack);
  }

  lemma CallStep(f: Found, b: Build, env: Env, m: MState, t: Word, next: Word)
    requires Placed(f, b, m) && Acts(b, env, m, false) && (b.img.At(m.pc).Jal? || b.img.At(m.pc).Jalr?)
    requires t == (if b.img.At(m.pc).Jal? then JumpTarget(m.pc, b.img.At(m.pc).target) else m.cpu.r[b.img.At(m.pc).rs])
      && next == Wrap(m.pc + 8)
    requires next in f.order && EntryOk(b, t) && (t in b.Region() ==> t in f.order)
    requires b.img.At(m.pc).Jalr? && m.pc in b.jr ==> b.jr[m.pc] in b.starts
    ensures Ok(b, env, m) && AtWalked(f, MStep(b.img, env, b.Region(), m))
  {
    Lands(b, f, env, t, SlotDone(b.img, env, m.pc, m.cpu), m.stack + [next]);
  }

  lemma JumpStep(f: Found, b: Build, env: Env, m: MState, t: Word)
    requires Placed(f, b, m) && Acts(b, env, m, false) && JumpsTo(b, m.pc, t) && MayGo(f, b, m.pc, t)
    ensures Ok(b, env, m) && AtWalked(f, MStep(b.img, env, b.Region(), m))
  {
    Lands(b, f, env, t, SlotDone(b.img, env, m.pc, m.cpu), m.stack);
  }

  lemma RegisterStep(f: Found, b: Build, env: Env, m: MState, rs: Reg)
    requires Placed(f, b, m) && Acts(b, env, m, false) && b.img.At(m.pc) == Jr(rs) && m.pc !in b.jr
    requires rs == 31 || (EntryOk(b, m.cpu.r[rs]) && (m.cpu.r[rs] in b.Region() ==> m.cpu.r[rs] in f.order))
    ensures Ok(b, env, m) && AtWalked(f, MStep(b.img, env, b.Region(), m))
  {
    if rs != 31 { Lands(b, f, env, m.cpu.r[rs], SlotDone(b.img, env, m.pc, m.cpu), m.stack); }
    assert |m.stack| > 1 ==> m.stack[|m.stack| - 1] in f.order;
  }

  /** Fallthrough of a walked word is walked. */
  lemma FallsOn(img: Image, roots: set<Word>, f: Found, s: iset<Word>, b: Build, p: Program, w: Word, next: Word)
    requires Suits(img, roots, f, s) && Built(img, f, b, p) && w in f.order && img.In(w)
      && Split.FallthroughOf(img.At(w), w) == Some(next)
    ensures next in b.Region() && next in f.order
  {
    assert WordSuits(img, f, w) && Leads(img, f.jr, w, next);
    NoWrap(img, w);
    LedTo(img, roots, f, s, b, p, w, next);
  }

  lemma BranchActs(img: Image, roots: set<Word>, f: Found, s: iset<Word>, b: Build, p: Program, env: Env, m: MState)
    requires Suits(img, roots, f, s) && Built(img, f, b, p) && AtWalked(f, m) && Acts(b, env, m, false)
      && img.At(m.pc).Branch?
    ensures Ok(b, env, m) && AtWalked(f, MStep(img, env, b.Region(), m))
  {
    var t, next := BranchTarget(m.pc, img.At(m.pc).imm), Wrap(m.pc + 8);
    assert Leads(img, f.jr, m.pc, t);
    FallsOn(img, roots, f, s, b, p, m.pc, next);
    LedTo(img, roots, f, s, b, p, m.pc, t);
    IsPlaced(img, roots, f, s, b, p, m);
    BranchStep(f, b, env, m, t, next);
  }

  lemma CallActs(img: Image, roots: set<Word>, f: Found, s: iset<Word>, b: Build, p: Program, env: Env, m: MState)
    requires Suits(img, roots, f, s) && Built(img, f, b, p) && AtWalked(f, m) && Acts(b, env, m, false)
      && (img.At(m.pc).Jal? || img.At(m.pc).Jalr?)
    ensures Ok(b, env, m) && AtWalked(f, MStep(img, env, b.Region(), m))
  {
    var next := Wrap(m.pc + 8);
    var t := if img.At(m.pc).Jal? then JumpTarget(m.pc, img.At(m.pc).target) else m.cpu.r[img.At(m.pc).rs];
    FallsOn(img, roots, f, s, b, p, m.pc, next);
    WalkedIsEmittable(img, roots, f, b, p, m.pc);
    EntryLands(img, roots, f, s, b, p, t);
    IsPlaced(img, roots, f, s, b, p, m);
    CallStep(f, b, env, m, t, next);
  }

  lemma JumpActs(img: Image, roots: set<Word>, f: Found, s: iset<Word>, b: Build, p: Program, env: Env, m: MState)
    requires Suits(img, roots, f, s) && Built(img, f, b, p) && AtWalked(f, m) && Acts(b, env, m, false)
      && (img.At(m.pc).J? || img.At(m.pc).Jr?)
    ensures Ok(b, env, m) && AtWalked(f, MStep(img, env, b.Region(), m))
  {
    IsPlaced(img, roots, f, s, b, p, m);
    if img.At(m.pc).J? || m.pc in f.jr {
      var t := if img.At(m.pc).J? then JumpTarget(m.pc, img.At(m.pc).target) else f.jr[m.pc];
      assert Leads(img, f.jr, m.pc, t);
      LedTo(img, roots, f, s, b, p, m.pc, t);
      JumpStep(f, b, env, m, t);
    } else {
      var rs := img.At(m.pc).rs;
      if rs != 31 { EntryLands(img, roots, f, s, b, p, m.cpu.r[rs]); }
      RegisterStep(f, b, env, m, rs);
    }
  }

  /** A step of the execution at a walked word meets every condition of the emitter, and leads to a walked
      word again. */
  lemma StepActs(img: Image, roots: set<Word>, f: Found, s: iset<Word>, b: Build, p: Program, env: Env, m: MState)
    requires Suits(img, roots, f, s) && Built(img, f, b, p) && AtWalked(f, m) && Acts(b, env, m, false)
    ensures Ok(b, env, m) && AtWalked(f, MStep(img, env, b.Region(), m))
  {
    if !IsControlFlow(img.At(m.pc)) {
      FallsOn(img, roots, f, s, b, p, m.pc, Wrap(m.pc + 4));
      IsPlaced(img, roots, f, s, b, p, m);
      PlainStep(f, b, env, m, Wrap(m.pc + 4));
    } else if IsTrap(img, m.pc) {
      IsPlaced(img, roots, f, s, b, p, m);
      TrapStep(f, b, env, m);
    } else if img.At(m.pc).Branch? {
      BranchActs(img, roots, f, s, b, p, env, m);
    } else if img.At(m.pc).Jal? || img.At(m.pc).Jalr? {
      CallActs(img, roots, f, s, b, p, env, m);
    } else {
      JumpActs(img, roots, f, s, b, p, env, m);
    }
  }

  // ---- registers that are sure ----

  /** A function begins at no such place. */
  lemma NoFunction(img: Image, roots: set<Word>, f: Found, p: Word, a: Word)
    requires IsDiscovery(img, roots, f) && OnlyFrom(img, roots, f, p, a)
    ensures a !in f.functions && forall d :: d in f.jr ==> f.jr[d] != a
  {
    FunctionsExact(img, roots, f, a);
    forall w | w in f.order && Enters(img, f.jr, w, a) ensures false {
      assert Leads(img, f.jr, w, a);
    }
    forall d | d in f.jr ensures f.jr[d] != a {
      assert JumpRecorded(img, f, d);
      if f.jr[d] == a { assert Leads(img, f.jr, d, a); }
    }
  }

  /** If it was visited, so was the word before it. */
  lemma VisitedBefore(img: Image, roots: set<Word>, f: Found, p: Word, a: Word)
    requires img.Valid() && IsDiscovery(img, roots, f) && OnlyFrom(img, roots, f, p, a) && a in f.visited
    ensures p in f.visited
  {
    VisitedExact(img, roots, f, a);
    VisitedExact(img, roots, f, p);
    if i: nat :| i < |f.order| && f.order[i] == a {
      assert GroundedAt(img, roots, f, i);
      var w :| w in f.order[..i] && Leads(img, f.jr, w, a);
    } else {
      var w :| w in f.order && Marks(img, w, a);
      NoWrap(img, w);
    }
  }

  /** An edge to it comes from the word before it. */
  lemma EdgeFrom(img: Image, roots: set<Word>, f: Found, s: iset<Word>, p: Word, a: Word, pc: Word)
    requires Suits(img, roots, f, s) && OnlyFrom(img, roots, f, p, a) && pc in f.visited && img.In(pc)
      && Split.Edge(img.At(pc), pc, a)
    ensures pc == p
  {
    VisitedExact(img, roots, f, pc);
    if pc in f.order {
      assert Leads(img, f.jr, pc, a);
    } else {
      var w :| w in f.order && Marks(img, w, pc);
      assert WordSuits(img, f, w);
      NoWrap(img, w);
      NoWrap(img, pc);
    }
  }

  /** No start stands between neighbours of the visited words. */
  lemma NoneBetween(visited: seq<Word>, p: Word, a: Word, starts: set<Word>)
    requires Split.Spaced(visited) && p in visited && a in visited && p + 4 == a && starts <= Split.Elems(visited) - {a}
    ensures Split.Owner(starts, p) == Split.Owner(starts, a)
  {
    forall t: Word | p < t <= a ensures t !in starts {
      if t in starts {
        var i, j :| 0 <= i < |visited| && visited[i] == p && 0 <= j < |visited| && visited[j] == t;
        assert j != i && (j > i || visited[j] as int + 4 <= visited[i]);
      }
    }
    Split.OwnerShared(starts, p, a);
  }

  /** Without one of them, the starts still part no more words than before. */
  lemma StillShared(starts: set<Word>, fewer: set<Word>, a: Word, c: Word)
    requires fewer <= starts && Split.Owner(starts, a) == Split.Owner(starts, c)
    ensures Split.Owner(fewer, a) == Split.Owner(fewer, c)
  {
    if a <= c {
      Split.OwnerShared(starts, a, c);
      Split.OwnerShared(fewer, a, c);
    } else {
      Split.OwnerShared(starts, c, a);
      Split.OwnerShared(fewer, c, a);
    }
  }

  /** Nor does a chunk begin there: without it the starts are closed as well, and they are the least. */
  lemma NoStart(img: Image, roots: set<Word>, f: Found, s: iset<Word>, b: Build, p: Program, before: Word, a: Word)
    requires Suits(img, roots, f, s) && Built(img, f, b, p) && OnlyFrom(img, roots, f, before, a)
    ensures a !in b.starts
  {
    var fewer, initial := b.starts - {a}, Split.InitialStarts(b.visited, b.functions, b.jr);
    NoFunction(img, roots, f, before, a);
    ReadyExact(img, roots, f, b, p);
    if a in f.visited {
      VisitedBefore(img, roots, f, before, a);
      FirstIsLeast(b.visited, before);
    }
    assert initial <= fewer;
    forall pc | pc in b.Region() ensures Split.EdgesOk(img, b.Region(), fewer, pc) {
      assert Split.EdgesOk(img, b.Region(), b.starts, pc);
      forall t: Word | t in b.Region() && Split.Edge(img.At(pc), pc, t)
          ensures t in fewer || Split.Owner(fewer, t) == Split.Owner(fewer, pc) {
        if t == a {
          EdgeFrom(img, roots, f, s, before, a, pc);
          NoneBetween(b.visited, before, a, fewer);
        } else if t !in b.starts {
          StillShared(b.starts, fewer, t, pc);
        }
      }
    }
    assert Split.Closed(img, b.Region(), fewer);
  }

  /** The address of an open call's return is one where a walked transfer leads. */
  ghost predicate LedBack(img: Image, f: Found, a: Word) {
    exists w {:trigger Leads(img, f.jr, w, a)} :: w in f.order && IsTransfer(img, w) && Leads(img, f.jr, w, a)
  }

  ghost predicate CallsLed(img: Image, f: Found, stack: seq<Word>) {
    forall i {:trigger stack[i]} :: 0 < i < |stack| ==> LedBack(img, f, stack[i])
  }

  /** In the middle of an undisturbed stretch the registers hold what the walk knew there. */
  ghost predicate Tracks(img: Image, roots: set<Word>, f: Found, pc: Word, c: GoodCpu) {
    forall h: Word, i: nat {:trigger Undisturbed(img, roots, f, h, i)} ::
      Undisturbed(img, roots, f, h, i) && h + 4 * i == pc ==> Knows(ConstsAfter(img, h, i), c)
  }

  /** What every step keeps. */
  ghost predicate OnTrack(img: Image, roots: set<Word>, f: Found, m: MState) {
    AtWalked(f, m) && (m.Running? ==> CallsLed(img, f, m.stack) && Tracks(img, roots, f, m.pc, m.cpu))
  }

  /** So a register that is sure holds the recorded target. */
  lemma SureHolds(img: Image, roots: set<Word>, f: Found, m: MState)
    requires OnTrack(img, roots, f, m) && m.Running? && Sure(img, roots, f, m.pc)
    ensures JumpsByRegister(img, m.pc) && m.cpu.r[img.At(m.pc).rs] == f.jr[m.pc]
  {
    var h: Word, n: nat :| Decides(img, h, n, m.pc, Some(f.jr[m.pc])) && Undisturbed(img, roots, f, h, n);
    KnownHolds(ConstsAfter(img, h, n), m.cpu, img.At(m.pc).rs, f.jr[m.pc]);
  }

  lemma SureActs(b: Build, env: Env, m: MState)
    requires Acts(b, env, m, true) && (m.pc in b.jr && JumpsByRegister(b.img, m.pc)
      ==> m.cpu.r[b.img.At(m.pc).rs] == b.jr[m.pc])
    ensures Acts(b, env, m, false)
  {
  }

  /** Control comes to q from pc: led there, through a start, or back from a call. */
  ghost predicate ComesTo(b: Build, f: Found, pc: Word, q: Word) {
    Leads(b.img, f.jr, pc, q) || q in b.starts || LedBack(b.img, f, q)
  }

  lemma LandsAt(b: Build, f: Found, env: Env, pc: Word, t: Word, c: GoodCpu, stack: seq<Word>)
    requires CallsLed(b.img, f, stack) && (t in b.Region() ==> Leads(b.img, f.jr, pc, t) || t in b.starts)
    ensures var m := Land(env, b.Region(), t, c, stack);
            m.Running? ==> ComesTo(b, f, pc, m.pc) && CallsLed(b.img, f, m.stack)
  {
  }

  lemma ReturnsLed(b: Build, f: Found, pc: Word, c: GoodCpu, stack: seq<Word>)
    requires CallsLed(b.img, f, stack)
    ensures var m := ReturnTo(c, stack); m.Running? ==> ComesTo(b, f, pc, m.pc) && CallsLed(b.img, f, m.stack)
  {
  }

  lemma CallLed(img: Image, f: Found, stack: seq<Word>, pc: Word, next: Word)
    requires CallsLed(img, f, stack) && pc in f.order && IsTransfer(img, pc) && Leads(img, f.jr, pc, next)
    ensures CallsLed(img, f, stack + [next])
  {
  }

  /** Every step comes to its next word in one of these ways. */
  ghost predicate Comes(b: Build, f: Found, pc: Word, m: MState) {
    m.Running? ==> ComesTo(b, f, pc, m.pc) && CallsLed(b.img, f, m.stack)
  }

  lemma FlowComes(f: Found, b: Build, env: Env, m: MState)
    requires Placed(f, b, m) && CallsLed(b.img, f, m.stack) && (IsTrap(b.img, m.pc) || !IsControlFlow(b.img.At(m.pc)))
    ensures Comes(b, f, m.pc, MStep(b.img, env, b.Region(), m))
  {
    hide ComesTo, ExecPlain, CallsLed, WordSuits;
    var pc, c, ins := m.pc, m.cpu, b.img.At(m.pc);
    assert Leads(b.img, f.jr, pc, Wrap(pc + 4));
    var c' := if ins.Syscall? then env.syscall(c) else if ins.Break? then env.brk(ins.code, c)
        else ExecPlain(env, ins, c);
    LandsAt(b, f, env, pc, Wrap(pc + 4), c', m.stack);
  }

  lemma CallComes(f: Found, b: Build, env: Env, m: MState, t: Word)
    requires Placed(f, b, m) && CallsLed(b.img, f, m.stack) && (b.img.At(m.pc).Jal? || b.img.At(m.pc).Jalr?)
    requires t == if b.img.At(m.pc).Jal? then JumpTarget(m.pc, b.img.At(m.pc).target) else m.cpu.r[b.img.At(m.pc).rs]
    requires (m.pc in f.jr && t == f.jr[m.pc]) || EntryOk(b, t)
    ensures Comes(b, f, m.pc, MStep(b.img, env, b.Region(), m))
  {
    hide ComesTo, ExecPlain, CallsLed, WordSuits;
    CallLed(b.img, f, m.stack, m.pc, Wrap(m.pc + 8));
    LandsAt(b, f, env, m.pc, t, SlotDone(b.img, env, m.pc, m.cpu), m.stack + [Wrap(m.pc + 8)]);
  }

  lemma JumpComes(f: Found, b: Build, env: Env, m: MState)
    requires Placed(f, b, m) && b.jr == f.jr && Acts(b, env, m, false) && CallsLed(b.img, f, m.stack)
    requires b.img.At(m.pc).Branch? || b.img.At(m.pc).J? || b.img.At(m.pc).Jr?
    ensures Comes(b, f, m.pc, MStep(b.img, env, b.Region(), m))
  {
    hide ComesTo, ExecPlain, CallsLed, WordSuits, PlainOk, DivUndefined, SlotInst, RawSlot, Linked, SlotDone;
    var pc, c, ins := m.pc, m.cpu, b.img.At(m.pc);
    var c' := SlotDone(b.img, env, pc, c);
    if ins.Branch? {
      LandsAt(b, f, env, pc, BranchTarget(pc, ins.imm), c', m.stack);
      LandsAt(b, f, env, pc, Wrap(pc + 8), c', m.stack);
    } else if ins.J? {
      LandsAt(b, f, env, pc, JumpTarget(pc, ins.target), c', m.stack);
    } else if ins.rs == 31 && c.r[31] == m.stack[|m.stack| - 1] {
      ReturnsLed(b, f, pc, c', m.stack);
    } else {
      LandsAt(b, f, env, pc, c.r[ins.rs], c', m.stack);
    }
  }

  lemma StepComes(f: Found, b: Build, env: Env, m: MState)
    requires Placed(f, b, m) && b.jr == f.jr && Acts(b, env, m, false) && CallsLed(b.img, f, m.stack)
    requires b.img.At(m.pc).Jal? ==> EntryOk(b, JumpTarget(m.pc, b.img.At(m.pc).target))
    ensures Comes(b, f, m.pc, MStep(b.img, env, b.Region(), m))
  {
    hide Comes, CallsLed, WordSuits, PlainOk, DivUndefined, MStep;
    var ins := b.img.At(m.pc);
    if ins.Jal? || ins.Jalr? {
      CallComes(f, b, env, m, if ins.Jal? then JumpTarget(m.pc, ins.target) else m.cpu.r[ins.rs]);
    } else if ins.Branch? || ins.J? || ins.Jr? {
      JumpComes(f, b, env, m);
    } else {
      FlowComes(f, b, env, m);
    }
  }

  /** Into the middle of an undisturbed stretch it comes from the word before. */
  lemma ComesFrom(img: Image, roots: set<Word>, f: Found, s: iset<Word>, b: Build, p: Program, pc: Word, before: Word,
      a: Word)
    requires Suits(img, roots, f, s) && Built(img, f, b, p) && pc in f.order && ComesTo(b, f, pc, a)
      && OnlyFrom(img, roots, f, before, a)
    ensures pc == before
  {
    NoStart(img, roots, f, s, b, p, before, a);
    if LedBack(img, f, a) && !Leads(img, f.jr, pc, a) {
      var w :| w in f.order && IsTransfer(img, w) && Leads(img, f.jr, w, a);
      assert false;
    }
  }

  lemma UndisturbedBefore(img: Image, roots: set<Word>, f: Found, h: Word, n: nat)
    requires n > 0 && Undisturbed(img, roots, f, h, n)
    ensures Undisturbed(img, roots, f, h, n - 1)
    ensures h + 4 * n < 0x1_0000_0000 && OnlyFrom(img, roots, f, h + 4 * (n - 1), h + 4 * n)
      && !IsStub(img.At(h + 4 * (n - 1)))
    ensures ConstsAfter(img, h, n) == TrackConsts(img.At(h + 4 * (n - 1)), ConstsAfter(img, h, n - 1))
  {
    assert OnlyOn(img, roots, f, h, n - 1);
  }

  lemma InBuild(img: Image, roots: set<Word>, f: Found, s: iset<Word>, b: Build, p: Program, a: Word)
    requires Suits(img, roots, f, s) && Built(img, f, b, p) && a in f.order
    ensures a in b.Region() && img.In(a) && b.img == img && b.jr == f.jr
    ensures img.At(a).Jal? ==> EntryOk(b, JumpTarget(a, img.At(a).target))
  {
    OrderInRegion(img, roots, f, b, p);
    WalkedIsEmittable(img, roots, f, b, p, a);
  }

  lemma PlainMoves(img: Image, env: Env, region: set<Word>, m: MState, next: Word)
    requires m.Running? && m.pc in region && img.In(m.pc) && !IsControlFlow(img.At(m.pc)) && next == Wrap(m.pc + 4)
      && next in region
    ensures MStep(img, env, region, m) == Running(next, ExecPlain(env, img.At(m.pc), m.cpu), m.stack)
  {
  }

  lemma NothingKnown(img: Image, h: Word, c: GoodCpu)
    requires Straight(img, h, 0)
    ensures Knows(ConstsAfter(img, h, 0), c)
  {
  }

  /** So what the walk knew is known after the step as well. */
  lemma TracksOn(img: Image, roots: set<Word>, f: Found, s: iset<Word>, b: Build, p: Program, env: Env, m: MState,
      m': MState)
    requires Suits(img, roots, f, s) && Built(img, f, b, p) && m.Running? && m.pc in f.order
      && Tracks(img, roots, f, m.pc, m.cpu)
    requires m' == MStep(img, env, b.Region(), m) && m'.Running? && m'.pc in f.order && Comes(b, f, m.pc, m')
    ensures Tracks(img, roots, f, m'.pc, m'.cpu)
  {
    hide Suits, Built, ComesTo, MStep, TrackConsts, ExecPlain, ConstsAfter, OnlyFrom;
    InBuild(img, roots, f, s, b, p, m.pc);
    InBuild(img, roots, f, s, b, p, m'.pc);
    forall h: Word, i: nat | Undisturbed(img, roots, f, h, i) && h + 4 * i == m'.pc
        ensures Knows(ConstsAfter(img, h, i), m'.cpu) {
      if i == 0 {
        NothingKnown(img, h, m'.cpu);
      } else {
        UndisturbedBefore(img, roots, f, h, i);
        ComesFrom(img, roots, f, s, b, p, m.pc, h + 4 * (i - 1), m'.pc);
        PlainMoves(img, env, b.Region(), m, m'.pc);
        TrackSound(env, img.At(m.pc), ConstsAfter(img, h, i - 1), m.cpu);
      }
    }
  }

  /** Every step keeps what the walks knew, and so meets the conditions on sure registers too. */
  lemma StepKeepsTrack(img: Image, roots: set<Word>, f: Found, s: iset<Word>, b: Build, p: Program, env: Env, m: MState)
    requires Suits(img, roots, f, s) && Built(img, f, b, p) && OnTrack(img, roots, f, m) && m.Running?
      && Acts(b, env, m, Sure(img, roots, f, m.pc))
    ensures Ok(b, env, m) && OnTrack(img, roots, f, MStep(img, env, b.Region(), m))
  {
    hide Suits, Built, Tracks, CallsLed, ComesTo, MStep, ExecPlain, Ok, Sure, Acts, WordSuits;
    var m' := MStep(img, env, b.Region(), m);
    InBuild(img, roots, f, s, b, p, m.pc);
    if Sure(img, roots, f, m.pc) {
      SureHolds(img, roots, f, m);
      SureActs(b, env, m);
    }
    StepActs(img, roots, f, s, b, p, env, m);
    IsPlaced(img, roots, f, s, b, p, m);
    StepComes(f, b, env, m);
    if m'.Running? { TracksOn(img, roots, f, s, b, p, env, m, m'); }
  }

  /** A run begins on track at every function entry. */
  lemma EntryOnTrack(img: Image, roots: set<Word>, f: Found, s: iset<Word>, b: Build, p: Program, entry: Word,
      host: Word, cpu: GoodCpu)
    requires Suits(img, roots, f, s) && Built(img, f, b, p) && entry in f.functions
    ensures OnTrack(img, roots, f, Running(entry, cpu, [host]))
  {
    EntriesWalked(img, roots, f, s, entry);
    forall h: Word, i: nat | Undisturbed(img, roots, f, h, i) && h + 4 * i == entry
        ensures Knows(ConstsAfter(img, h, i), cpu) {
      if i > 0 {
        UndisturbedBefore(img, roots, f, h, i);
        NoFunction(img, roots, f, h + 4 * (i - 1), entry);
      }
    }
  }

  // ---- whole runs ----

  ghost function ActSteps(roots: set<Word>, f: Found, b: Build, env: Env): MState -> bool {
    (m: MState) => m.Halted? || Acts(b, env, m, Sure(b.img, roots, f, m.pc))
  }

  lemma StaysHalted(img: Image, env: Env, region: set<Word>, m: MState)
    requires m.Halted?
    ensures MStep(img, env, region, m) == m
  {
  }

  lemma {:induction false} RunActs(img: Image, roots: set<Word>, f: Found, s: iset<Word>, b: Build, p: Program,
      env: Env, m: MState, n: nat)
    requires Suits(img, roots, f, s) && Built(img, f, b, p) && OnTrack(img, roots, f, m)
    requires Always(MMachine(img, env, b.Region()), ActSteps(roots, f, b, env), m, n)
    ensures RunOk(b, env, m, n)
    decreases n
  {
    hide Suits, OnTrack, Ok, Acts, MStep, Sure;
    if n > 0 {
      var m' := MStep(img, env, b.Region(), m);
      if m.Running? { StepKeepsTrack(img, roots, f, s, b, p, env, m); } else { StaysHalted(img, env, b.Region(), m); }
      RunActs(img, roots, f, s, b, p, env, m', n - 1);
      assert OkSteps(b, env)(m);
    }
  }

  /** From any function entry that discovery found in an image that suits, every run of the original that
      meets the execution's conditions, however long, is followed by the emitted code. Of resolved jumps
      whose walk was undisturbed nothing is asked. */
  lemma PipelinePreserves(img: Image, roots: set<Word>, f: Found, s: iset<Word>, b: Build, p: Program,
                          env: Env, entry: Word, host: Word, cpu: GoodCpu, n: nat)
    requires Suits(img, roots, f, s) && Built(img, f, b, p) && entry in f.functions
    requires Always(MMachine(img, env, f.visited), ActSteps(roots, f, b, env), Running(entry, cpu, [host]), n)
    ensures exists k: nat ::
              k >= n && Simulation.Match(PlanOf(b), p,
                          Iterate(MMachine(img, env, f.visited), Running(entry, cpu, [host]), n),
                          Iterate(CMachine(p, env), RegionStart(p, env, entry, cpu), k))
  {
    ReadyExact(img, roots, f, b, p);
    assert entry in Split.InitialStarts(b.visited, b.functions, b.jr);
    EntryOnTrack(img, roots, f, s, b, p, entry, host, cpu);
    RunActs(img, roots, f, s, b, p, env, Running(entry, cpu, [host]), n);
    MeaningPreserved(b, p, env, entry, host, cpu, n);
  }

  // ---- the program ----

  /** The visited words in address order, as the set of the original iterates. */
  method InOrder(base: Word, text: seq<Inst>, visited: set<Word>) returns (words: seq<Word>)
    requires base + 4 * |text| <= 0xFFFF_FFF8 && forall a <- visited :: Loaded(base, text).In(a)
    ensures Split.Spaced(words) && Split.Elems(words) == visited
  {
    words := [];
    for i := 0 to |text|
      invariant Split.Ascending(words) && forall w :: w in words <==> w in visited && w < base + 4 * i
    {
      var a: Word := base + 4 * i;
      assert forall k :: 0 <= k < |words| ==> words[k] in words;
      if a in visited {
        words := words + [a];
      }
      forall w: Word | w in visited && w < base + 4 * (i + 1) ensures w < a || w == a {
        assert InRange(base, |text|, w);
      }
    }
    forall w | w in visited ensures w in words { assert InRange(base, |text|, w); }
    Split.LoadedIsSpaced(base, text, words);
  }

  lemma LoadedValid(base: Word, text: seq<Inst>)
    requires base + 4 * |text| <= 0xFFFF_FFF8
    ensures Loaded(base, text).Valid()
  {
  }

  /** The translation of a loaded text: discover, then emit. */
  method Translate(base: Word, text: seq<Inst>, entry: Word, extra: seq<Word>)
    returns (p: Program, ghost f: Found, ghost b: Build)
    requires base + 4 * |text| <= 0xFFFF_FFF8
    ensures var img := Loaded(base, text);
            img.Valid() && IsDiscovery(img, Roots(img, entry, extra), f) && Built(img, f, b, p)
  {
    var img := Loaded(base, text);
    LoadedValid(base, text);
    var visited, functions, jr;
    ghost var order;
    visited, functions, jr, order := Discover(img, entry, extra);
    f := Found(order, visited, functions, jr);
    forall v | v in visited ensures img.In(v) { VisitedExact(img, Roots(img, entry, extra), f, v); }
    var words := InOrder(base, text, visited);
    p, b := Emit(img, words, functions, jr);
  }
}
