/** What a finished discovery promises its users: the emitter, and whoever trusts a resolved jump. */
module Discovered {
  import opened Options
  import opened Words
  import opened Mips
  import opened Emitter
  import opened Machines
  import opened Discovery
  import opened Runs
  import Split
  import Layout
  import Recompile

  // ---- which words are found ----

  /** Every address a walked word leads to, and every root, is visited if it is a word of the image. */
  lemma WalkedClosed(img: Image, roots: set<Word>, f: Found, w: Word, s: Word)
    requires IsDiscovery(img, roots, f) && img.In(s)
    requires s in roots || (w in f.order && s in Succs(img, f.jr, w))
    ensures s in f.visited
  {
    if s !in roots {
      assert Settled(img, f, {}, w);
      assert Leads(img, f.jr, w, s);
    }
  }

  /** The visited words are exactly the walked ones and the slots of walked transfers. */
  lemma VisitedExact(img: Image, roots: set<Word>, f: Found, v: Word)
    requires img.Valid() && IsDiscovery(img, roots, f)
    ensures v in f.visited <==> v in f.order || exists w :: w in f.order && Marks(img, w, v)
    ensures v in f.visited ==> img.In(v)
  {
    if v in f.order {
      assert Settled(img, f, {}, v);
    }
    forall w | w in f.order && Marks(img, w, v) ensures v in f.visited && img.In(v) {
      assert Settled(img, f, {}, w);
      NoWrap(img, w);
    }
    assert v in f.visited ==> Accounted(img, f.order, v);
  }

  /** The function entries are exactly the roots, the valid jal targets and the resolved jalr
      targets of walked words. */
  lemma FunctionsExact(img: Image, roots: set<Word>, f: Found, t: Word)
    requires IsDiscovery(img, roots, f)
    ensures t in f.functions <==> t in roots || exists w :: w in f.order && Enters(img, f.jr, w, t)
  {
    forall w | w in f.order && Enters(img, f.jr, w, t) ensures t in f.functions {
      assert Settled(img, f, {}, w);
    }
    assert t in f.functions ==> EntryGrounded(img, roots, f.jr, f.order, t);
  }

  /** A set of addresses that execution cannot leave: it has the roots, and all that its words lead to. */
  ghost predicate Reachable(img: Image, roots: set<Word>, jr: map<Word, Word>, s: iset<Word>) {
    && (forall r <- roots :: r in s)
    && forall w, a {:trigger Leads(img, jr, w, a)} :: w in s && Leads(img, jr, w, a) ==> a in s
  }

  /** Nothing is walked that execution cannot reach: every such set has all walked words. */
  lemma {:induction false} WalkedReachable(img: Image, roots: set<Word>, f: Found, s: iset<Word>, i: nat)
    requires IsDiscovery(img, roots, f) && Reachable(img, roots, f.jr, s) && i <= |f.order|
    ensures forall k :: 0 <= k < i ==> f.order[k] in s
  {
    if i > 0 {
      WalkedReachable(img, roots, f, s, i - 1);
      assert GroundedAt(img, roots, f, i - 1);
      if f.order[i - 1] !in roots {
        var w :| w in f.order[..i - 1] && Leads(img, f.jr, w, f.order[i - 1]);
        assert w in s;
      }
    }
  }

  // ---- when everything is walked ----

  /** The word after a transfer of the image. */
  predicate Behind(img: Image, a: Word) {
    a >= 4 && IsTransfer(img, a - 4)
  }

  predicate IsTrap(img: Image, w: Word) {
    img.In(w) && (img.At(w).Syscall? || img.At(w).Break?)
  }

  /** No root lies behind a transfer, and no word of s but a trap leads to one that does: nothing jumps
      onto a delay slot. */
  ghost predicate NoneBehind(img: Image, roots: set<Word>, jr: map<Word, Word>, s: iset<Word>) {
    && (forall r <- roots :: !Behind(img, r))
    && forall w, a {:trigger Leads(img, jr, w, a)} ::
         w in s && !IsTrap(img, w) && Leads(img, jr, w, a) ==> !Behind(img, a)
  }

  lemma NotMarked(img: Image, roots: set<Word>, f: Found, a: Word)
    requires img.Valid() && IsDiscovery(img, roots, f) && a in f.visited && !Behind(img, a)
    ensures a in f.order
  {
    VisitedExact(img, roots, f, a);
    if a !in f.order {
      var w :| w in f.order && Marks(img, w, a);
      NoWrap(img, w);
      assert false;
    }
  }

  lemma InReach(img: Image, roots: set<Word>, f: Found, s: iset<Word>, w: Word)
    requires IsDiscovery(img, roots, f) && Reachable(img, roots, f.jr, s) && w in f.order
    ensures w in s
  {
    WalkedReachable(img, roots, f, s, |f.order|);
  }

  /** If nothing reachable jumps onto a delay slot, the search misses nothing: every root, and every
      address that a walked word leads to, is walked if it is a word of the image, but for the words
      after traps. The converse does not hold: a word behind a transfer is walked after all if the
      search comes to it before it comes to the transfer. */
  lemma Complete(img: Image, roots: set<Word>, f: Found, s: iset<Word>, w: Word, a: Word)
    requires img.Valid() && IsDiscovery(img, roots, f) && Reachable(img, roots, f.jr, s)
      && NoneBehind(img, roots, f.jr, s)
    requires img.In(a) && (a in roots || (w in f.order && !IsTrap(img, w) && Leads(img, f.jr, w, a)))
    ensures a in f.order
  {
    WalkedClosed(img, roots, f, w, a);
    if a !in roots { InReach(img, roots, f, s, w); }
    NotMarked(img, roots, f, a);
  }

  /** So without traps the walked words are the words of the image in the least set of addresses that
      has the roots and all that its words lead to. */
  lemma WalkedIsLeast(img: Image, roots: set<Word>, f: Found, s: iset<Word>, a: Word)
    requires img.Valid() && IsDiscovery(img, roots, f) && Reachable(img, roots, f.jr, s)
      && NoneBehind(img, roots, f.jr, s)
    requires forall w :: w in s ==> !IsTrap(img, w)
    ensures a in f.order <==>
              && img.In(a)
              && forall r: iset<Word> {:trigger Reachable(img, roots, f.jr, r)} ::
                   Reachable(img, roots, f.jr, r) ==> a in r
  {
    if a in f.order {
      assert Settled(img, f, {}, a);
      forall r: iset<Word> | Reachable(img, roots, f.jr, r) ensures a in r { InReach(img, roots, f, r, a); }
    }
    var found: iset<Word> := iset w: Word | w in f.order || !img.In(w);
    forall r | r in roots ensures r in found {
      if img.In(r) { Complete(img, roots, f, s, r, r); }
    }
    forall w: Word, t: Word | w in found && Leads(img, f.jr, w, t) ensures t in found {
      if img.In(t) {
        InReach(img, roots, f, s, w);
        Complete(img, roots, f, s, w, t);
      }
    }
    assert Reachable(img, roots, f.jr, found);
  }

  /** The same, said of the image alone: what its words lead to and what its constants can resolve. */
  ghost predicate CleanImage(img: Image, roots: set<Word>) {
    && (forall r <- roots :: !Behind(img, r))
    && (forall w, a {:trigger Leads(img, map[], w, a)} ::
          !IsTrap(img, w) && Leads(img, map[], w, a) ==> !Behind(img, a))
    && forall h: Word, n: nat, a: Word, t: Word {:trigger Decides(img, h, n, a, Some(t))} ::
       Decides(img, h, n, a, Some(t)) ==> !Behind(img, t)
  }

  lemma CleanIsEnough(img: Image, roots: set<Word>, f: Found, all: iset<Word>)
    requires IsDiscovery(img, roots, f) && CleanImage(img, roots) && forall a: Word :: a in all
    ensures Reachable(img, roots, f.jr, all) && NoneBehind(img, roots, f.jr, all)
  {
    forall w: Word, a: Word | !IsTrap(img, w) && Leads(img, f.jr, w, a) ensures !Behind(img, a) {
      if w in f.jr && f.jr[w] == a && JumpsByRegister(img, w) {
        assert JumpRecorded(img, f, w) && Decided(img, roots, f, w);
        var h: Word, n: nat :| Decides(img, h, n, w, Some(a)) && Headed(img, roots, f.jr, f.order, h);
      } else {
        assert Leads(img, map[], w, a);
      }
    }
  }

  // ---- code after a trap ----

  /** The word after a syscall or break is visited as if it were a slot, so it is walked only if
      some walk came to it before the trap's. */
  lemma AfterTrap(img: Image, roots: set<Word>, f: Found, i: nat)
    requires img.Valid() && IsDiscovery(img, roots, f) && i < |f.order|
    requires img.In(f.order[i]) && (img.At(f.order[i]).Syscall? || img.At(f.order[i]).Break?) && img.In(f.order[i] + 4)
    ensures f.order[i] + 4 in f.visited
    ensures f.order[i] + 4 in f.order <==> f.order[i] + 4 in f.order[..i]
  {
    var a := f.order[i];
    NoWrap(img, a);
    assert Settled(img, f, {}, a);
    forall j: nat | i < j < |f.order| ensures f.order[j] != a + 4 {
      assert Apart(img, f.order, i, j);
    }
    if a + 4 in f.order {
      var j :| 0 <= j < |f.order| && f.order[j] == a + 4;
      assert f.order[..i][j] == a + 4;
    }
  }

  /** So code that only the trap leads to is not found: that is so whenever no root is the word after the
      trap and no other word of the image leads there. */
  lemma TrapCutsOff(img: Image, roots: set<Word>, f: Found, a: Word)
    requires img.Valid() && IsDiscovery(img, roots, f) && a in f.order && IsTrap(img, a) && img.In(a + 4)
      && Wrap(a + 4) !in roots
    requires forall w {:trigger Leads(img, f.jr, w, Wrap(a + 4))} ::
               w in f.order && Leads(img, f.jr, w, Wrap(a + 4)) ==> w == a
    ensures Wrap(a + 4) !in f.order
  {
    NoWrap(img, a);
    if j: nat :| j < |f.order| && f.order[j] == Wrap(a + 4) {
      assert GroundedAt(img, roots, f, j);
      var w :| w in f.order[..j] && Leads(img, f.jr, w, Wrap(a + 4));
      var i :| 0 <= i < j && f.order[i] == w;
      AfterTrap(img, roots, f, i);
      FirstPlace(img, f, i, j);
    }
  }

  lemma FirstPlace(img: Image, f: Found, i: nat, j: nat)
    requires i < j < |f.order| && Wrap(f.order[i] as int + 4) == f.order[j] && Apart(img, f.order, i, j)
    ensures f.order[j] !in Marked(img, f.order[i])
  {
  }

  /** With one root, the second word walked follows the first, and is not its slot. */
  lemma SecondWord(img: Image, entry: Word, f: Found)
    requires IsDiscovery(img, {entry}, f) && |f.order| > 1
    ensures f.order[1] in Succs(img, f.jr, entry) && f.order[1] !in Marked(img, entry)
  {
    assert GroundedAt(img, {entry}, f, 0) && f.order[..0] == [];
    assert GroundedAt(img, {entry}, f, 1) && f.order[..1] == [entry];
    assert Apart(img, f.order, 0, 1);
  }

  /** An entry point that is a trap ends the whole search: nothing after it is walked, although
      execution goes on there. */
  lemma TrapEndsSearch(img: Image, entry: Word, f: Found)
    requires img.Valid() && img.In(entry) && img.At(entry).Syscall? && img.In(entry + 4)
    requires IsDiscovery(img, {entry}, f)
    ensures f.order == [entry] && f.visited == {entry, Wrap(entry + 4)}
    ensures Leads(img, f.jr, entry, Wrap(entry + 4))
  {
    NoWrap(img, entry);
    assert entry in f.visited;
    assert Accounted(img, f.order, entry);
    assert |f.order| > 0;
    assert GroundedAt(img, {entry}, f, 0) && f.order[..0] == [];
    if |f.order| > 1 {
      SecondWord(img, entry, f);
      assert false;
    }
    assert f.order == [entry];
    assert Settled(img, f, {}, entry);
    forall v | v in f.visited ensures v in {entry, Wrap(entry + 4)} {
      assert Accounted(img, f.order, v);
    }
  }

  // ---- resolved jumps ----

  /** The word i words on from h is a word of the region. */
  predicate WordOn(region: set<Word>, h: Word, i: nat) {
    h + 4 * i < 0x1_0000_0000 && Wrap(h + 4 * i) in region
  }

  /** The n words from h on, and the word after them, are words of the region. */
  ghost predicate Through(region: set<Word>, h: Word, n: nat) {
    forall i: nat {:trigger WordOn(region, h, i)} :: i <= n ==> WordOn(region, h, i)
  }

  lemma StretchOfNone(img: Image, env: Env, region: set<Word>, h: Word, c: GoodCpu, stack: seq<Word>)
    requires Straight(img, h, 0)
    ensures Iterate(MMachine(img, env, region), Running(h, c, stack), 0)
      == Running(h, RunPlain(img, env, h, 0, c), stack)
  {
  }

  /** The machine executes a straight stretch word by word. */
  lemma {:induction false} StretchRuns(img: Image, env: Env, region: set<Word>, h: Word, n: nat, c: GoodCpu,
      stack: seq<Word>)
    requires Straight(img, h, n) && Through(region, h, n)
    ensures h + 4 * n < 0x1_0000_0000
    ensures Iterate(MMachine(img, env, region), Running(h, c, stack), n)
      == Running(h + 4 * n, RunPlain(img, env, h, n, c), stack)
  {
    hide MMachine, Iterate, RunPlain;
    assert WordOn(region, h, n);
    if n == 0 {
      StretchOfNone(img, env, region, h, c, stack);
    } else {
      StretchRuns(img, env, region, h, n - 1, c, stack);
      assert WordOn(region, h, n - 1);
      LastWord(img, env, region, h, n, c, stack);
      var before := Running(h + 4 * (n - 1), RunPlain(img, env, h, n - 1, c), stack);
      var after := Running(h + 4 * n, RunPlain(img, env, h, n, c), stack);
      IterateJoin(MMachine(img, env, region), Running(h, c, stack), n - 1, before, 1, after);
    }
  }

  lemma LastWord(img: Image, env: Env, region: set<Word>, h: Word, n: nat, c: GoodCpu, stack: seq<Word>)
    requires n > 0 && Straight(img, h, n) && WordOn(region, h, n - 1) && WordOn(region, h, n)
    ensures Iterate(MMachine(img, env, region), Running(h + 4 * (n - 1), RunPlain(img, env, h, n - 1, c), stack), 1)
         == Running(h + 4 * n, RunPlain(img, env, h, n, c), stack)
  {
    var a: Word := h + 4 * (n - 1);
    assert Wrap(a) == a && Wrap(a + 4) == h + 4 * n;
    LastStep(img, env, region, a, RunPlain(img, env, h, n - 1, c), stack);
  }

  lemma LastStep(img: Image, env: Env, region: set<Word>, a: Word, c: GoodCpu, stack: seq<Word>)
    requires a in region && img.In(a) && !IsControlFlow(img.At(a)) && Wrap(a + 4) in region
    ensures Iterate(MMachine(img, env, region), Running(a, c, stack), 1)
      == Running(Wrap(a + 4), ExecPlain(env, img.At(a), c), stack)
  {
    var m := Running(a, c, stack);
    assert Iterate(MMachine(img, env, region), m, 1)
        == Iterate(MMachine(img, env, region), MStep(img, env, region, m), 0);
  }

  ghost predicate NoStubs(img: Image, h: Word, n: nat)
    requires Straight(img, h, n)
  {
    forall i :: 0 <= i < n ==> !IsStub(img.At(h + 4 * i))
  }

  /** The machine is at a, with v in the register. */
  predicate HoldsAt(m: MState, a: Word, r: Reg, v: Word) {
    m.Running? && m.pc == a && m.cpu.r[r] == v
  }

  lemma KnownHolds(k: Consts, c: GoodCpu, r: Reg, v: Word)
    requires Knows(k, c) && Lookup(k, r) == Some(v)
    ensures c.r[r] == v
  {
  }

  /** The recorded target of a register jump is what the register holds, in every execution that
      enters at the head of the walk that recorded it: a root, or where a walked transfer leads. Only
      coprocessor stubs and unknown words on the way could spoil it. */
  lemma ResolvedTargetHolds(img: Image, roots: set<Word>, f: Found, a: Word) returns (h: Word, n: nat)
    requires img.Valid() && IsDiscovery(img, roots, f) && a in f.jr
    ensures Headed(img, roots, f.jr, f.order, h) && h + 4 * n == a && Straight(img, h, n)
    ensures img.In(a) && (img.At(a).Jr? || img.At(a).Jalr?)
    ensures NoStubs(img, h, n) ==> forall env: Env, region: set<Word>, c: GoodCpu, stack: seq<Word>
              {:trigger Iterate(MMachine(img, env, region), Running(h, c, stack), n)} ::
              Through(region, h, n) ==> HoldsAt(Iterate(MMachine(img, env, region), Running(h, c, stack), n), a,
                  img.At(a).rs, f.jr[a])
  {
    assert JumpRecorded(img, f, a);
    assert Decided(img, roots, f, a);
    h, n :| Decides(img, h, n, a, Some(f.jr[a])) && Headed(img, roots, f.jr, f.order, h);
    if NoStubs(img, h, n) {
      forall env: Env, region: set<Word>, c: GoodCpu, stack: seq<Word> | Through(region, h, n)
        ensures HoldsAt(Iterate(MMachine(img, env, region), Running(h, c, stack), n), a, img.At(a).rs, f.jr[a])
      {
        StretchRuns(img, env, region, h, n, c, stack);
        WalkSound(img, env, h, n, c);
        KnownHolds(ConstsAfter(img, h, n), RunPlain(img, env, h, n, c), img.At(a).rs, f.jr[a]);
      }
    }
  }

  // ---- what the emitter gets ----

  /** The emitter ran on the result of a discovery. */
  ghost predicate Built(img: Image, f: Found, b: Build, p: Program) {
    b.img == img && Split.Elems(b.visited) == f.visited && b.functions == f.functions && b.jr == f.jr && b.Valid()
        && b.IsProgram(p)
  }

  /** Every function entry is a visited word exactly when the roots and the resolved jalr targets are
      words of the image: discovery records the latter without looking. */
  lemma FunctionsVisited(img: Image, roots: set<Word>, f: Found)
    requires IsDiscovery(img, roots, f) && img.Valid()
    ensures f.functions <= f.visited <==>
              (forall r <- roots :: img.In(r)) && forall a <- f.jr :: img.In(a) && img.At(a).Jalr? ==> img.In(f.jr[a])
  {
    if f.functions <= f.visited {
      forall r | r in roots ensures img.In(r) { VisitedExact(img, roots, f, r); }
      forall a | a in f.jr && img.In(a) && img.At(a).Jalr? ensures img.In(f.jr[a]) {
        assert JumpRecorded(img, f, a);
        assert Enters(img, f.jr, a, f.jr[a]);
        FunctionsExact(img, roots, f, f.jr[a]);
        VisitedExact(img, roots, f, f.jr[a]);
      }
    } else {
      var t :| t in f.functions && t !in f.visited;
      FunctionsExact(img, roots, f, t);
      if t !in roots {
        var w :| w in f.order && Enters(img, f.jr, w, t);
        EntryVisited(img, roots, f, w, t);
      } else {
        assert img.In(t) ==> t in f.visited;
      }
    }
  }

  /** An entry that a walked word adds is visited unless it is a resolved jalr target outside the image. */
  lemma EntryVisited(img: Image, roots: set<Word>, f: Found, w: Word, t: Word)
    requires IsDiscovery(img, roots, f) && w in f.order && Enters(img, f.jr, w, t)
    ensures t in f.visited || (w in f.jr && img.In(w) && img.At(w).Jalr? && f.jr[w] == t && !img.In(t))
  {
    assert Settled(img, f, {}, w);
    if img.In(t) {
      WalkedClosed(img, roots, f, w, t);
    }
  }

  lemma InitialVisited(visited: seq<Word>, functions: set<Word>, jr: map<Word, Word>)
    ensures Split.InitialStarts(visited, functions, jr) <= Split.Elems(visited) <==> functions <= Split.Elems(visited)
  {
  }

  lemma AllStartsClosed(img: Image, visited: set<Word>)
    requires forall pc <- visited :: img.In(pc)
    ensures Split.Closed(img, visited, visited)
  {
    forall pc | pc in visited ensures Split.EdgesOk(img, visited, visited, pc) {
    }
  }

  /** The splitter's starts are reachable words exactly when the function entries are. */
  lemma StartsInRegion(b: Build)
    requires b.Valid()
    ensures b.starts <= b.Region() <==> b.functions <= b.Region()
  {
    InitialVisited(b.visited, b.functions, b.jr);
    AllStartsClosed(b.img, b.Region());
  }

  /** So an emitted discovery is ready for execution exactly when its roots and resolved jalr targets
      are words of the image (given that no BIOS gate is among the words). */
  lemma ReadyExact(img: Image, roots: set<Word>, f: Found, b: Build, p: Program)
    requires img.Valid() && IsDiscovery(img, roots, f) && Built(img, f, b, p) && GATES !! f.visited
    ensures Layout.Ready(b, p) <==>
              (forall r <- roots :: img.In(r)) && forall a <- f.jr :: img.In(a) && img.At(a).Jalr? ==> img.In(f.jr[a])
  {
    FunctionsVisited(img, roots, f);
    StartsInRegion(b);
  }

  /** Discovery meets the emitter's needs at every word it walked: the word after a plain one and
      the return point of a branch or call are reachable words if they are in the image at all, and
      the targets of calls are starts if they are reachable words. */
  lemma WalkedIsEmittable(img: Image, roots: set<Word>, f: Found, b: Build, p: Program, pc: Word)
    requires img.Valid() && IsDiscovery(img, roots, f) && Built(img, f, b, p) && pc in f.order && img.In(pc)
    ensures !IsControlFlow(img.At(pc)) && img.In(pc + 4) ==> Wrap(pc + 4) in b.Region()
    ensures (img.At(pc).Branch? || img.At(pc).Jal? || img.At(pc).Jalr?) && img.In(pc + 8) ==> Wrap(pc + 8) in b.Region()
    ensures img.At(pc).Jal? ==> Recompile.EntryOk(b, JumpTarget(pc, img.At(pc).target))
    ensures img.At(pc).Jalr? && pc in b.jr ==> b.jr[pc] in b.starts
    ensures (img.At(pc).Jr? || img.At(pc).Jalr?) && pc in b.jr && img.In(b.jr[pc]) ==> b.jr[pc] in b.Region()
  {
    NoWrap(img, pc);
    assert Settled(img, f, {}, pc);
    assert b.functions <= b.starts;
    if !IsControlFlow(img.At(pc)) && img.In(pc + 4) {
      WalkedClosed(img, roots, f, pc, pc + 4);
    }
    if (img.At(pc).Branch? || img.At(pc).Jal? || img.At(pc).Jalr?) && img.In(pc + 8) {
      WalkedClosed(img, roots, f, pc, pc + 8);
    }
    if img.At(pc).Jal? && JumpTarget(pc, img.At(pc).target) in f.visited {
      VisitedExact(img, roots, f, JumpTarget(pc, img.At(pc).target));
    }
    if (img.At(pc).Jr? || img.At(pc).Jalr?) && pc in b.jr && img.In(b.jr[pc]) {
      WalkedClosed(img, roots, f, pc, b.jr[pc]);
    }
  }
}
