/** Chunk splitting (steps 1 and 2 of emit): the set of addresses that must start a C function,
    and the assignment of every reachable word to the function it lives in. */
module Split {
  import opened Options
  import opened Words
  import opened Mips

  /** A BTreeSet of addresses, as its ascending iteration order. */
  predicate Ascending(s: seq<Word>) {
    forall i, j :: 0 <= i < j < |s| ==> s[i] < s[j]
  }

  /** Ascending, with at least a word between neighbours. */
  predicate Spaced(s: seq<Word>) {
    forall i, j :: 0 <= i < j < |s| ==> s[i] as int + 4 <= s[j]
  }

  /** Ascending addresses inside a loaded image are a word apart. */
  lemma LoadedIsSpaced(base: Word, text: seq<Inst>, s: seq<Word>)
    requires Ascending(s) && forall i :: 0 <= i < |s| ==> Loaded(base, text).In(s[i])
    ensures Spaced(s)
  {
    forall i, j | 0 <= i < j < |s| ensures s[i] as int + 4 <= s[j] {
      assert InRange(base, |text|, s[i]) && InRange(base, |text|, s[j]);
      WordsApart(base, s[i], s[j]);
    }
  }

  lemma WordsApart(base: int, a: int, b: int)
    requires (a - base) % 4 == 0 && (b - base) % 4 == 0 && a < b
    ensures a + 4 <= b
  {
  }

  function Elems(s: seq<Word>): set<Word> {
    set a | a in s
  }

  /** Where execution continues after the instruction when no taken path is followed. */
  function FallthroughOf(ins: Inst, pc: Word): Option<Word> {
    if !IsControlFlow(ins) then Some(Wrap(pc + 4))
    else if ins.Branch? || ins.Jal? || ins.Jalr? then Some(Wrap(pc + 8))
    else None
  }

  /** The target of a transfer that is known from the instruction alone. */
  function StaticTarget(ins: Inst, pc: Word): Option<Word> {
    match ins
    case J(t) => Some(JumpTarget(pc, t))
    case Jal(t) => Some(JumpTarget(pc, t))
    case Branch(_, _, _, imm) => Some(BranchTarget(pc, imm))
    case _ => None
  }

  ghost predicate Edge(ins: Inst, pc: Word, t: Word) {
    StaticTarget(ins, pc) == Some(t) || FallthroughOf(ins, pc) == Some(t)
  }

  /** The greatest start at or below a. */
  function Owner(starts: set<Word>, a: Word): (o: Option<Word>)
    ensures o.Some? ==> o.value in starts && o.value <= a
    decreases a
  {
    if a in starts then Some(a) else if a == 0 then None else Owner(starts, a - 1)
  }

  /** Two addresses share an owner exactly when no start separates them. */
  lemma {:induction false} OwnerShared(starts: set<Word>, a: Word, b: Word)
    requires a <= b
    ensures Owner(starts, a) == Owner(starts, b) <==> forall s: Word :: a < s <= b ==> s !in starts
    decreases b - a
  {
    if a < b && b !in starts {
      OwnerShared(starts, a, b - 1);
    }
  }

  /** Every edge between reachable words stays in one chunk or lands on a start. */
  ghost predicate EdgesOk(img: Image, visited: set<Word>, starts: set<Word>, pc: Word)
    requires img.In(pc)
  {
    forall t: Word {:trigger Edge(img.At(pc), pc, t)} :: t in visited && Edge(img.At(pc), pc, t)
        ==> t in starts || Owner(starts, t) == Owner(starts, pc)
  }

  ghost predicate Closed(img: Image, visited: set<Word>, starts: set<Word>)
    requires forall pc <- visited :: img.In(pc)
  {
    forall pc {:trigger EdgesOk(img, visited, starts, pc)} :: pc in visited ==> EdgesOk(img, visited, starts, pc)
  }

  /** The starts before splitting: function entries, resolved register-jump targets that are
      reachable, and the first reachable word when no start is at or below it. */
  function InitialStarts(visited: seq<Word>, functions: set<Word>, jrTargets: map<Word, Word>): set<Word> {
    var s := functions + set pc | pc in jrTargets && jrTargets[pc] in visited :: jrTargets[pc];
    if |visited| > 0 && forall a :: a in s ==> visited[0] < a then s + {visited[0]} else s
  }

  /** A transfer that crosses chunks under some starts crosses them under any superset. */
  lemma MustStart(img: Image, visited: set<Word>, starts: set<Word>, closed: set<Word>, pc: Word, t: Word)
    requires forall a <- visited :: img.In(a)
    requires pc in visited && t in visited && Edge(img.At(pc), pc, t)
    requires Owner(starts, t) != Owner(starts, pc)
    requires starts <= closed && Closed(img, visited, closed)
    ensures t in closed
  {
    assert EdgesOk(img, visited, closed, pc);
    if t <= pc {
      OwnerShared(starts, t, pc);
      OwnerShared(closed, t, pc);
    } else {
      OwnerShared(starts, pc, t);
      OwnerShared(closed, pc, t);
    }
  }

  /** Every closed superset of the initial starts has these starts too. */
  ghost predicate Forced(img: Image, visited: set<Word>, initial: set<Word>, starts: set<Word>)
    requires forall pc <- visited :: img.In(pc)
  {
    forall closed: set<Word> {:trigger Closed(img, visited, closed)} ::
      initial <= closed && Closed(img, visited, closed) ==> starts <= closed
  }

  /** The least set of starts that contains the initial ones and is closed. */
  ghost predicate IsSplit(img: Image, visited: seq<Word>, initial: set<Word>, starts: set<Word>)
    requires forall pc <- Elems(visited) :: img.In(pc)
  {
    initial <= starts && Closed(img, Elems(visited), starts) && Forced(img, Elems(visited), initial, starts)
  }

  lemma StartForced(img: Image, visited: set<Word>, initial: set<Word>, starts: set<Word>, pc: Word, t: Word)
    requires forall a <- visited :: img.In(a)
    requires pc in visited && t in visited && Edge(img.At(pc), pc, t)
    requires Owner(starts, t) != Owner(starts, pc)
    requires Forced(img, visited, initial, starts)
    ensures Forced(img, visited, initial, starts + {t})
  {
    forall closed: set<Word> | initial <= closed && Closed(img, visited, closed)
      ensures starts + {t} <= closed
    {
      MustStart(img, visited, starts, closed, pc, t);
    }
  }

  /** One edge of the pass: its target becomes a start when it is reached from another chunk. */
  method Consider(img: Image, visited: seq<Word>, ghost initial: set<Word>, starts: set<Word>, pc: Word,
      edge: Option<Word>)
    returns (after: set<Word>, grew: bool)
    requires (forall a <- Elems(visited) :: img.In(a)) && pc in visited
    requires edge.Some? ==> Edge(img.At(pc), pc, edge.value)
    requires Forced(img, Elems(visited), initial, starts)
    ensures Forced(img, Elems(visited), initial, after)
    ensures starts <= after <= starts + Elems(visited)
    ensures if grew then Elems(visited) - after < Elems(visited) - starts else after == starts
    ensures !grew && edge.Some? && edge.value in visited ==>
              edge.value in starts || Owner(starts, edge.value) == Owner(starts, pc)
  {
    after, grew := starts, false;
    if edge.Some? && edge.value in visited && edge.value !in starts {
      if Owner(starts, edge.value) != Owner(starts, pc) {
        StartForced(img, Elems(visited), initial, starts, pc, edge.value);
        after, grew := starts + {edge.value}, true;
      }
    }
  }

  /** One pass over the reachable words. */
  method Pass(img: Image, visited: seq<Word>, ghost initial: set<Word>, before: set<Word>)
    returns (starts: set<Word>, changed: bool)
    requires forall pc <- Elems(visited) :: img.In(pc)
    requires Forced(img, Elems(visited), initial, before)
    ensures before <= starts <= before + Elems(visited)
    ensures Forced(img, Elems(visited), initial, starts)
    ensures if changed then Elems(visited) - starts < Elems(visited) - before
            else starts == before && Closed(img, Elems(visited), starts)
  {
    starts, changed := before, false;
    for k := 0 to |visited|
      invariant before <= starts <= before + Elems(visited)
      invariant if changed then Elems(visited) - starts < Elems(visited) - before else starts == before
      invariant !changed ==> forall j :: 0 <= j < k ==> EdgesOk(img, Elems(visited), starts, visited[j])
      invariant Forced(img, Elems(visited), initial, starts)
    {
      var pc := visited[k];
      var ins := img.At(pc);
      var grew, grewToo;
      starts, grew := Consider(img, visited, initial, starts, pc, StaticTarget(ins, pc));
      starts, grewToo := Consider(img, visited, initial, starts, pc, FallthroughOf(ins, pc));
      changed := changed || grew || grewToo;
    }
    if !changed {
      AllEdgesOk(img, visited, starts);
    }
  }

  /** The split loop: repeat passes over the reachable words until one changes nothing. */
  method SplitStarts(img: Image, visited: seq<Word>, functions: set<Word>, jrTargets: map<Word, Word>)
    returns (starts: set<Word>)
    requires forall pc <- Elems(visited) :: img.In(pc)
    ensures IsSplit(img, visited, InitialStarts(visited, functions, jrTargets), starts)
    ensures starts <= InitialStarts(visited, functions, jrTargets) + Elems(visited)
  {
    var initial := InitialStarts(visited, functions, jrTargets);
    starts := initial;
    var changed := true;
    while changed
      invariant initial <= starts <= initial + Elems(visited)
      invariant !changed ==> Closed(img, Elems(visited), starts)
      invariant Forced(img, Elems(visited), initial, starts)
      decreases Elems(visited) - starts, changed
    {
      starts, changed := Pass(img, visited, initial, starts);
    }
  }

  lemma AllEdgesOk(img: Image, visited: seq<Word>, starts: set<Word>)
    requires forall pc <- Elems(visited) :: img.In(pc)
    requires forall j :: 0 <= j < |visited| ==> EdgesOk(img, Elems(visited), starts, visited[j])
    ensures Closed(img, Elems(visited), starts)
  {
    forall pc | pc in Elems(visited) ensures EdgesOk(img, Elems(visited), starts, pc) {
      var j :| 0 <= j < |visited| && visited[j] == pc;
    }
  }

  // ---- chunk assignment ----

  /** The key a word is filed under; the fallback is never taken when a start is at or below it. */
  function ChunkKey(starts: set<Word>, base: Word, pc: Word): Word {
    match Owner(starts, pc)
    case Some(s) => s
    case None => base
  }

  /** The words of one chunk, in ascending order. */
  function ChunkWords(visited: seq<Word>, starts: set<Word>, base: Word, key: Word): seq<Word> {
    if visited == [] then []
    else
      var rest := ChunkWords(visited[..|visited| - 1], starts, base, key);
      var pc := visited[|visited| - 1];
      if ChunkKey(starts, base, pc) == key then rest + [pc] else rest
  }

  /** Splitting partitions the reachable words: each is in its owner's chunk and no other, and
      a chunk lists its words in ascending order. */
  lemma {:induction false} ChunkPartition(visited: seq<Word>, starts: set<Word>, base: Word, key: Word)
    requires Spaced(visited)
    ensures Spaced(ChunkWords(visited, starts, base, key))
    ensures forall pc ::
              pc in ChunkWords(visited, starts, base, key) <==> pc in visited && ChunkKey(starts, base, pc) == key
  {
    if visited != [] {
      var n := |visited| - 1;
      ChunkPartition(visited[..n], starts, base, key);
      assert visited == visited[..n] + [visited[n]];
      var rest := ChunkWords(visited[..n], starts, base, key);
      forall i | 0 <= i < |rest| ensures rest[i] as int + 4 <= visited[n] {
        assert rest[i] in visited[..n];
      }
    }
  }

  method AssignChunks(visited: seq<Word>, starts: set<Word>, base: Word) returns (chunks: map<Word, seq<Word>>)
    ensures chunks.Keys == set pc | pc in visited :: ChunkKey(starts, base, pc)
    ensures forall key <- chunks :: chunks[key] == ChunkWords(visited, starts, base, key)
  {
    chunks := map[];
    for k := 0 to |visited|
      invariant chunks.Keys == set pc | pc in visited[..k] :: ChunkKey(starts, base, pc)
      invariant forall key: Word :: ChunkWords(visited[..k], starts, base, key) == if key in chunks then chunks[key]
        else []
    {
      var pc := visited[k];
      var key := ChunkKey(starts, base, pc);
      assert visited[..k + 1][..k] == visited[..k];
      assert visited[..k + 1] == visited[..k] + [pc];
      chunks := chunks[key := (if key in chunks then chunks[key] else []) + [pc]];
    }
    assert visited[..|visited|] == visited;
  }
}
