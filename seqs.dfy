/** Facts about sequences that the proofs of the other modules use with
    their own commands in place of the type parameter; stated once, generically,
    so that no proof has to reason about the literal commands themselves. */
module Seqs {

  lemma Reassociate<T>(a: seq<T>, b: seq<T>, c: seq<T>)
    ensures (a + b) + c == a + (b + c)
  {
  }

  lemma AppendThree<T>(s: seq<T>, a: T, b: T, c: T)
    ensures ((s + [a]) + [b]) + [c] == s + [a, b, c]
  {
  }

  lemma CutAround<T>(s: seq<T>, k: nat)
    requires k < |s|
    ensures s == (s[..k] + [s[k]]) + s[k + 1..]
  {
  }

  lemma SnocAt<T>(init: seq<T>, last: T, k: nat)
    requires k <= |init|
    ensures (init + [last])[k] == if k < |init| then init[k] else last
  {
  }

  lemma SliceOfFront<T>(front: seq<T>, back: seq<T>, i: nat, j: nat)
    requires i <= j <= |front|
    ensures (front + back)[i..j] == front[i..j]
  {
  }

  lemma SliceOfBack<T>(front: seq<T>, back: seq<T>)
    ensures (front + back)[|front|..|front| + |back|] == back
  {
  }

  lemma SliceAfter<T>(front: seq<T>, back: seq<T>, n: nat)
    requires n <= |back|
    ensures (front + back)[|front|..|front| + n] == back[..n]
  {
  }

  lemma PrefixSnoc<T>(x: seq<T>, cs: seq<T>, j: nat)
    requires j < |cs|
    ensures x + cs[..j] + [cs[j]] == x + cs[..j + 1]
  {
    assert cs[..j + 1] == cs[..j] + [cs[j]];
  }

  lemma NotInBoth<T>(x: T, a: seq<T>, b: seq<T>)
    requires x !in a && x !in b
    ensures x !in a + b
  {
  }

  lemma NotInEither<T>(x: T, a: seq<T>, b: seq<T>, c: seq<T>)
    requires x !in a && x !in b && x !in c
    ensures x !in a + b + c
  {
  }
}
