/** Sums and maps over sequences, and the fact that neither depends on the
    order of the elements: the batch results arrive in completion order, and
    every count the batch reports is one of these sums. */
module Seqs {

  /** `sum(f(x) for x in s)`. */
  function Sum<T>(s: seq<T>, f: T -> nat): nat {
    if s == [] then 0 else Sum(s[..|s| - 1], f) + f(s[|s| - 1])
  }

  /** `[g(x) for x in s]`. */
  function Map<A, B>(s: seq<A>, g: A -> B): seq<B> {
    seq(|s|, i requires 0 <= i < |s| => g(s[i]))
  }

  lemma {:induction false} SumConcat<T>(a: seq<T>, b: seq<T>, f: T -> nat)
    ensures Sum(a + b, f) == Sum(a, f) + Sum(b, f)
    decreases |b|
  {
    if b == [] {
      assert a + b == a;
    } else {
      var n := |b| - 1;
      assert (a + b)[..|a + b| - 1] == a + b[..n];
      SumConcat(a, b[..n], f);
    }
  }

  /** In a permutation `b` of a non-empty `a`, the last element of `a`
      stands at some position `j`, and what is left on either side is a
      permutation of the rest of `a`. */
  lemma MatchLast<T>(a: seq<T>, b: seq<T>) returns (j: nat)
    requires multiset(a) == multiset(b) && a != []
    ensures j < |b| && b[j] == a[|a| - 1]
    ensures multiset(a[..|a| - 1]) == multiset(b[..j] + b[j + 1..])
  {
    var n := |a| - 1;
    var x := a[n];
    assert a == a[..n] + [x];
    assert x in multiset(b);
    j :| 0 <= j < |b| && b[j] == x;
    assert b == b[..j] + [x] + b[j + 1..];
    calc {
      multiset(a[..n]);
      multiset(a) - multiset{x};
      multiset(b) - multiset{x};
      multiset(b[..j] + b[j + 1..]);
    }
  }

  /** Taking the element at `j` out of `b` takes its weight out of the sum. */
  lemma SumRemoveAt<T>(b: seq<T>, j: nat, f: T -> nat)
    requires j < |b|
    ensures Sum(b, f) == Sum(b[..j] + b[j + 1..], f) + f(b[j])
  {
    var x := b[j];
    assert b == b[..j] + ([x] + b[j + 1..]);
    SumConcat(b[..j], [x] + b[j + 1..], f);
    SumConcat([x], b[j + 1..], f);
    SumConcat(b[..j], b[j + 1..], f);
    assert Sum([x], f) == f(x) by {
      assert [x][..0] == [];
    }
  }

  /** A sum does not depend on the order of the elements summed. */
  lemma {:induction false} SumPermutation<T>(a: seq<T>, b: seq<T>, f: T -> nat)
    requires multiset(a) == multiset(b)
    ensures Sum(a, f) == Sum(b, f)
    decreases |a|
  {
    if a == [] {
      assert |b| == |multiset(b)| == 0;
    } else {
      var j := MatchLast(a, b);
      SumPermutation(a[..|a| - 1], b[..j] + b[j + 1..], f);
      SumRemoveAt(b, j, f);
    }
  }

  /** Summing `f` and `g` separately is summing `h` when `h` is their
      pointwise sum. */
  lemma {:induction false} SumPointwise<T>(s: seq<T>, f: T -> nat, g: T -> nat, h: T -> nat)
    requires forall x :: f(x) + g(x) == h(x)
    ensures Sum(s, f) + Sum(s, g) == Sum(s, h)
    decreases |s|
  {
    if s != [] {
      SumPointwise(s[..|s| - 1], f, g, h);
    }
  }

  /** Counting (summing a weight of at most one) gives at most the length. */
  lemma {:induction false} SumOfIndicator<T>(s: seq<T>, f: T -> nat)
    requires forall x :: f(x) <= 1
    ensures Sum(s, f) <= |s|
    decreases |s|
  {
    if s != [] {
      SumOfIndicator(s[..|s| - 1], f);
    }
  }

  /** Mapping a permutation gives a permutation of the mapped sequence. */
  lemma {:induction false} MapPermutation<A, B>(a: seq<A>, b: seq<A>, g: A -> B)
    requires multiset(a) == multiset(b)
    ensures multiset(Map(a, g)) == multiset(Map(b, g))
    decreases |a|
  {
    if a == [] {
      assert |b| == |multiset(b)| == 0;
      assert Map(a, g) == Map(b, g) == [];
    } else {
      var n := |a| - 1;
      var j := MatchLast(a, b);
      var rest := b[..j] + b[j + 1..];
      MapPermutation(a[..n], rest, g);
      var mb := Map(b, g);
      assert Map(a, g) == Map(a[..n], g) + [g(a[n])];
      assert Map(rest, g) == mb[..j] + mb[j + 1..];
      assert mb == mb[..j] + [g(a[n])] + mb[j + 1..];
    }
  }
}
