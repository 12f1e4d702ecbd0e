/** Facts about sequences that the byte-string, tokenizer and model proofs
    share, and the number of occurrences of an element. */
module Seqs {
  /** The number of elements of `s` equal to `x`. */
  function Count<T(==)>(s: seq<T>, x: T): (n: nat)
    ensures n == multiset(s)[x]
    ensures n <= |s|
    ensures n == 0 <==> x !in s
    decreases |s|
  {
    if s == [] then 0
    else
      var last := s[|s| - 1];
      assert s == s[..|s| - 1] + [last];
      Count(s[..|s| - 1], x) + if last == x then 1 else 0
  }

  lemma CountAppend<T>(a: seq<T>, c: seq<T>, x: T)
    ensures Count(a + c, x) == Count(a, x) + Count(c, x)
  {
    assert multiset(a + c) == multiset(a) + multiset(c);
  }

  /** Moving the head of `q` to the end of `s` keeps the concatenation. */
  lemma ShiftOne<T>(s: seq<T>, q: seq<T>)
    requires |q| >= 1
    ensures s + q == (s + [q[0]]) + q[1..]
  {
  }

  lemma DropPrefix<T>(s: seq<T>, q: seq<T>)
    ensures (s + q)[|s|..] == q
  {
  }

  lemma LastOfCons<T>(x: T, s: seq<T>)
    requires |s| >= 1
    ensures ([x] + s)[|s|] == s[|s| - 1]
  {
  }

  lemma LastOfAppend<T>(a: seq<T>, b: seq<T>)
    requires |b| >= 1
    ensures (a + b)[|a + b| - 1] == b[|b| - 1]
  {
  }

  /** Cutting at offset `k` of the slice from `p`. */
  lemma SliceOfSlice<T>(s: seq<T>, p: nat, k: nat)
    requires p + k < |s|
    ensures s[p..][..k] == s[p..p + k] && s[p..][k + 1..] == s[p + k + 1..]
  {
  }

  lemma TakeThenDrop<T>(s: seq<T>, a: nat, b: nat)
    requires a <= b <= |s|
    ensures s[..b][a..] == s[a..b]
  {
  }

  lemma Associate<T>(a: seq<T>, b: seq<T>, x: T, c: seq<T>)
    ensures a + b + [x] + c == a + (b + [x] + c)
  {
  }
}
