/** Facts about sequences of anything, proved once away from their uses. */
module Seqs {
  lemma TailOfSum<T>(a: seq<T>, b: seq<T>)
    requires a != []
    ensures a + b != [] && (a + b)[0] == a[0] && (a + b)[1..] == a[1..] + b
  {
  }

  lemma EmptySum<T>(b: seq<T>)
    ensures [] + b == b
  {
  }

  lemma TailOfOne<T>(a: T, b: seq<T>)
    ensures ([a] + b)[0] == a && ([a] + b)[1..] == b
  {
  }

  lemma HeadTail<T>(a: seq<T>)
    requires a != []
    ensures a == [a[0]] + a[1..]
  {
  }

  lemma Regroup<T>(a: seq<T>, b: seq<T>, c: seq<T>)
    ensures (a + b) + c == a + (b + c)
  {
  }

  lemma RegroupFour<T>(a: seq<T>, b: seq<T>, c: seq<T>, d: seq<T>)
    ensures (a + b + c) + d == (a + b) + (c + d)
  {
  }

  lemma PairThen<T>(a: T, b: T, c: seq<T>)
    ensures [a, b] + c == [a] + ([b] + c)
  {
  }

  lemma DropSum<T>(a: seq<T>, b: seq<T>, i: nat)
    requires i <= |b|
    ensures (a + b)[|a| + i..] == b[i..]
  {
  }

  lemma DropHead<T>(s: seq<T>, i: nat, a: T, rest: seq<T>)
    requires i <= |s| && s[i..] == [a] + rest
    ensures i < |s| && s[i] == a && s[i + 1..] == rest
  {
    assert s[i..][0] == s[i];
    assert s[i..][1..] == s[i + 1..];
  }

  lemma InitLast<T>(s: seq<T>, a: T)
    ensures (s + [a])[..|s + [a]| - 1] == s && (s + [a])[|s + [a]| - 1] == a
  {
  }

  lemma InitAndLast<T>(s: seq<T>)
    requires s != []
    ensures s == s[..|s| - 1] + [s[|s| - 1]]
  {
  }
}
