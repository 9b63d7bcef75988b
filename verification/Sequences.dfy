// Sequences: concatenation of parts, and what is left of a sequence when elements are left out.

module Sequences {

  function Concat<T>(parts: seq<seq<T>>): seq<T> {
    if parts == [] then [] else parts[0] + Concat(parts[1..])
  }

  lemma PrefixSplits<T>(a: seq<T>, b: seq<T>)
    requires a <= b
    ensures b == a + b[|a|..]
  {
  }

  lemma PrefixExtends<T>(x: seq<T>, a: seq<T>, b: seq<T>)
    requires a <= b
    ensures x + a <= x + b
  {
  }

  lemma PrefixTransitive<T>(a: seq<T>, b: seq<T>, c: seq<T>)
    requires a <= b <= c
    ensures a <= c
  {
  }

  lemma Associates<T>(a: seq<T>, b: seq<T>, c: seq<T>)
    ensures a + (b + c) == a + b + c
  {
  }

  /** `a` is obtained from `b` by leaving elements out. */
  predicate Subsequence<T(==)>(a: seq<T>, b: seq<T>)
    decreases |b|
  {
    a == [] ||
    (b != [] && (Subsequence(a, b[..|b| - 1]) ||
                 (a[|a| - 1] == b[|b| - 1] && Subsequence(a[..|a| - 1], b[..|b| - 1]))))
  }

  lemma SubsequenceBoth<T>(a: seq<T>, b: seq<T>, x: T)
    requires Subsequence(a, b)
    ensures Subsequence(a + [x], b + [x]) && Subsequence(a, b + [x])
  {
    assert (a + [x])[..|a + [x]| - 1] == a && (b + [x])[..|b + [x]| - 1] == b;
  }

  lemma {:induction false} SubsequencePrepend<T>(x: seq<T>, a: seq<T>, b: seq<T>)
    requires Subsequence(x, b)
    ensures Subsequence(x, a + b)
    decreases |b|
  {
    if x != [] {
      var front, last := b[..|b| - 1], b[|b| - 1];
      assert a + b == (a + front) + [last];
      if Subsequence(x, front) {
        SubsequencePrepend(x, a, front);
        SubsequenceBoth(x, a + front, last);
      } else {
        SubsequencePrepend(x[..|x| - 1], a, front);
        SubsequenceBoth(x[..|x| - 1], a + front, last);
        assert x[..|x| - 1] + [last] == x;
      }
    }
  }

  lemma {:induction false} SubsequenceExtend<T>(x: seq<T>, a: seq<T>, b: seq<T>)
    requires Subsequence(x, a)
    ensures Subsequence(x, a + b)
    decreases |b|
  {
    if b == [] {
      assert a + b == a;
    } else {
      var front, last := b[..|b| - 1], b[|b| - 1];
      assert a + b == (a + front) + [last];
      SubsequenceExtend(x, a, front);
      SubsequenceBoth(x, a + front, last);
    }
  }

  lemma SubsequenceOfPrefix<T>(x: seq<T>, a: seq<T>, b: seq<T>)
    requires Subsequence(x, a) && a <= b
    ensures Subsequence(x, b)
  {
    assert b == a + b[|a|..];
    SubsequenceExtend(x, a, b[|a|..]);
  }

  lemma {:induction false} PrefixOfSubsequence<T>(x: seq<T>, a: seq<T>, b: seq<T>)
    requires x <= a && Subsequence(a, b)
    ensures Subsequence(x, b)
    decreases |b|
  {
    if x != [] && |x| < |a| {
      var front, last := b[..|b| - 1], b[|b| - 1];
      assert b == front + [last];
      if Subsequence(a, front) {
        PrefixOfSubsequence(x, a, front);
      } else {
        PrefixOfSubsequence(x, a[..|a| - 1], front);
      }
      SubsequenceBoth(x, front, last);
    } else if x != [] {
      assert x == a;
    }
  }
}
