/** Sums over sequences and over finite sets of keys. */
module Folds {

  function Sum<T>(xs: seq<T>, f: T -> int): int {
    if xs == [] then 0 else Sum(xs[..|xs| - 1], f) + f(xs[|xs| - 1])
  }

  lemma SumStep<T>(xs: seq<T>, x: T, f: T -> int)
    ensures Sum(xs + [x], f) == Sum(xs, f) + f(x)
  {
    assert (xs + [x])[..|xs|] == xs;
  }

  lemma {:induction false} SumRemove<T>(xs: seq<T>, i: nat, f: T -> int)
    requires i < |xs|
    ensures Sum(xs, f) == Sum(xs[..i] + xs[i + 1..], f) + f(xs[i])
  {
    var n := |xs| - 1;
    if i == n {
      assert xs[..i] + xs[i + 1..] == xs[..n];
    } else {
      SumRemove(xs[..n], i, f);
      var rest := xs[..n][..i] + xs[..n][i + 1..];
      assert xs[..i] + xs[i + 1..] == rest + [xs[n]];
      SumStep(rest, xs[n], f);
    }
  }

  lemma PrefixStep<T>(xs: seq<T>, i: nat)
    requires i < |xs|
    ensures xs[..i + 1] == xs[..i] + [xs[i]]
  {
  }

  lemma SumFirst<T>(xs: seq<T>, f: T -> int)
    requires xs != []
    ensures Sum(xs, f) == f(xs[0]) + Sum(xs[1..], f)
  {
    SumRemove(xs, 0, f);
    assert xs[..0] + xs[1..] == xs[1..];
  }

  lemma {:induction false} SumUpdate<T>(xs: seq<T>, k: nat, x: T, f: T -> int)
    requires k < |xs|
    ensures Sum(xs[k := x], f) == Sum(xs, f) - f(xs[k]) + f(x)
  {
    var n := |xs| - 1;
    if k == n {
      assert xs[k := x][..n] == xs[..n];
    } else {
      SumUpdate(xs[..n], k, x, f);
      assert xs[k := x][..n] == xs[..n][k := x];
    }
  }

  /** The order of the elements does not matter to any sum over them. */
  lemma {:induction false} SumPermutation<T>(xs: seq<T>, ys: seq<T>, f: T -> int)
    requires multiset(xs) == multiset(ys)
    ensures Sum(xs, f) == Sum(ys, f)
    decreases |xs|
  {
    if xs == [] {
      assert |multiset(ys)| == 0;
    } else {
      var n := |xs| - 1;
      assert xs == xs[..n] + [xs[n]];
      var i, rest := TakeOne(xs[..n], xs[n], ys);
      SumPermutation(xs[..n], rest, f);
      SumRemove(ys, i, f);
    }
  }

  lemma TakeOne<T>(xs: seq<T>, x: T, ys: seq<T>) returns (i: nat, rest: seq<T>)
    requires multiset(xs + [x]) == multiset(ys)
    ensures i < |ys| && ys[i] == x && rest == ys[..i] + ys[i + 1..]
    ensures multiset(xs) == multiset(rest)
  {
    assert x in multiset(xs + [x]);
    assert x in multiset(ys);
    i :| 0 <= i < |ys| && ys[i] == x;
    rest := ys[..i] + ys[i + 1..];
    WithoutOne(ys, i);
    assert multiset(xs) == multiset(xs + [x]) - multiset{x};
  }

  lemma WithoutOne<T>(ys: seq<T>, i: nat)
    requires i < |ys|
    ensures multiset(ys[..i] + ys[i + 1..]) == multiset(ys) - multiset{ys[i]}
  {
    assert ys == ys[..i] + [ys[i]] + ys[i + 1..];
  }

  lemma {:induction false} SumMonotone<T>(xs: seq<T>, f: T -> int, g: T -> int)
    requires forall x :: x in xs ==> f(x) <= g(x)
    ensures Sum(xs, f) <= Sum(xs, g)
  {
    if xs != [] {
      SumMonotone(xs[..|xs| - 1], f, g);
    }
  }

  lemma {:induction false} SumCombine<T>(xs: seq<T>, f: T -> int, g: T -> int, plus: T -> int, minus: T -> int)
    requires forall x :: f(x) == g(x) + plus(x) - minus(x)
    ensures Sum(xs, f) == Sum(xs, g) + Sum(xs, plus) - Sum(xs, minus)
  {
    if xs != [] {
      SumCombine(xs[..|xs| - 1], f, g, plus, minus);
    }
  }

  lemma {:induction false} SumBound<T>(xs: seq<T>, f: T -> int, s: nat)
    requires forall x :: x in xs ==> 0 <= f(x) <= s
    ensures 0 <= Sum(xs, f) <= |xs| * s
  {
    if xs != [] {
      SumBound(xs[..|xs| - 1], f, s);
    }
  }

  ghost function SumOver<K>(keys: set<K>, f: K -> int): int {
    if keys == {} then 0
    else
      var k :| k in keys;
      f(k) + SumOver(keys - {k}, f)
  }

  lemma {:induction false} SumOverTake<K>(keys: set<K>, k: K, f: K -> int)
    requires k in keys
    ensures SumOver(keys, f) == f(k) + SumOver(keys - {k}, f)
    decreases keys
  {
    var c :| c in keys && SumOver(keys, f) == f(c) + SumOver(keys - {c}, f);
    if c != k {
      SumOverTake(keys - {c}, k, f);
      SumOverTake(keys - {k}, c, f);
      assert keys - {c} - {k} == keys - {k} - {c};
    }
  }

  lemma {:induction false} SumOverAgree<K>(keys: set<K>, f: K -> int, g: K -> int)
    requires forall k :: k in keys ==> f(k) == g(k)
    ensures SumOver(keys, f) == SumOver(keys, g)
  {
    if keys != {} {
      var k :| k in keys;
      SumOverTake(keys, k, f);
      SumOverTake(keys, k, g);
      SumOverAgree(keys - {k}, f, g);
    }
  }

  /** Changing one key by x changes the sum by x. */
  lemma SumOverBump<K>(keys: set<K>, k: K, x: int, f: K -> int, g: K -> int)
    requires k in keys && g(k) == f(k) + x
    requires forall j :: j in keys && j != k ==> f(j) == g(j)
    ensures SumOver(keys, g) == SumOver(keys, f) + x
  {
    SumOverTake(keys, k, f);
    SumOverTake(keys, k, g);
    SumOverAgree(keys - {k}, f, g);
  }

  /** What a set of keys carries is at most what a set around it does. */
  lemma {:induction false} SumOverMonotone<K>(small: set<K>, big: set<K>, f: K -> int, g: K -> int)
    requires small <= big
    requires forall k :: k in small ==> f(k) <= g(k)
    requires forall k :: k in big ==> 0 <= g(k)
    ensures SumOver(small, f) <= SumOver(big, g)
    decreases big
  {
    if big != {} {
      var k :| k in big;
      SumOverTake(big, k, g);
      if k in small {
        SumOverTake(small, k, f);
      } else {
        assert small - {k} == small;
      }
      SumOverMonotone(small - {k}, big - {k}, f, g);
    }
  }

  lemma {:induction false} SumOverZero<K>(keys: set<K>, f: K -> int)
    requires forall k :: k in keys ==> f(k) == 0
    ensures SumOver(keys, f) == 0
  {
    if keys != {} {
      var k :| k in keys;
      SumOverTake(keys, k, f);
      SumOverZero(keys - {k}, f);
    }
  }

  ghost predicate NoDuplicates<T>(xs: seq<T>) {
    forall i, j :: 0 <= i < j < |xs| ==> xs[i] != xs[j]
  }

  /** Over distinct keys, summing along a sequence is summing over the set. */
  lemma {:induction false} SumIsSumOver<K>(xs: seq<K>, keys: set<K>, f: K -> int)
    requires NoDuplicates(xs) && forall k :: k in xs <==> k in keys
    ensures Sum(xs, f) == SumOver(keys, f)
  {
    if xs != [] {
      var n := |xs| - 1;
      assert xs[n] in xs;
      SumOverTake(keys, xs[n], f);
      forall k
        ensures k in xs[..n] <==> k in keys - {xs[n]}
      {
      }
      SumIsSumOver(xs[..n], keys - {xs[n]}, f);
    } else {
      assert keys == {};
    }
  }

  /** Two orders of the same distinct elements are permutations of one another. */
  lemma {:induction false} OrdersArePermutations<T>(xs: seq<T>, ys: seq<T>)
    requires NoDuplicates(xs) && NoDuplicates(ys) && forall x :: x in xs <==> x in ys
    ensures multiset(xs) == multiset(ys)
  {
    forall x
      ensures multiset(xs)[x] == multiset(ys)[x]
    {
      OnceEach(xs, x);
      OnceEach(ys, x);
    }
  }

  lemma {:induction false} OnceEach<T>(xs: seq<T>, x: T)
    requires NoDuplicates(xs)
    ensures multiset(xs)[x] == if x in xs then 1 else 0
  {
    if xs != [] {
      var n := |xs| - 1;
      assert xs == xs[..n] + [xs[n]];
      OnceEach(xs[..n], x);
    }
  }

  /* ----- Subsequences ----- */

  /** xs is what is left of ys when some of its elements are taken out. */
  predicate IsSubsequence<T(==)>(xs: seq<T>, ys: seq<T>) {
    if ys == [] then xs == []
    else
      var n := |ys| - 1;
      || IsSubsequence(xs, ys[..n])
      || (xs != [] && xs[|xs| - 1] == ys[n] && IsSubsequence(xs[..|xs| - 1], ys[..n]))
  }

  lemma {:induction false} SubsequenceExtends<T>(xs: seq<T>, ys: seq<T>, more: seq<T>)
    requires IsSubsequence(xs, ys)
    ensures IsSubsequence(xs + more, ys + more)
  {
    if more == [] {
      assert xs + more == xs && ys + more == ys;
    } else {
      var n := |more| - 1;
      SubsequenceExtends(xs, ys, more[..n]);
      assert (xs + more)[..|xs| + n] == xs + more[..n];
      assert (ys + more)[..|ys| + n] == ys + more[..n];
    }
  }

  lemma {:induction false} SubsequencePrefix<T>(xs: seq<T>, more: seq<T>, ys: seq<T>)
    requires IsSubsequence(xs + more, ys)
    ensures IsSubsequence(xs, ys)
    decreases |ys|
  {
    if more == [] {
      assert xs + more == xs;
    } else if ys != [] {
      var n := |ys| - 1;
      if IsSubsequence(xs + more, ys[..n]) {
        SubsequencePrefix(xs, more, ys[..n]);
      } else {
        assert (xs + more)[..|xs + more| - 1] == xs + more[..|more| - 1];
        SubsequencePrefix(xs, more[..|more| - 1], ys[..n]);
      }
    }
  }

  /** Taking elements out never adds to a sum of terms that are not negative. */
  lemma {:induction false} SubsequenceSum<T>(xs: seq<T>, ys: seq<T>, f: T -> int)
    requires IsSubsequence(xs, ys) && forall y :: 0 <= f(y)
    ensures Sum(xs, f) <= Sum(ys, f)
    decreases |ys|
  {
    if ys != [] {
      var n := |ys| - 1;
      if IsSubsequence(xs, ys[..n]) {
        SubsequenceSum(xs, ys[..n], f);
      } else {
        SubsequenceSum(xs[..|xs| - 1], ys[..n], f);
      }
    }
  }

  lemma {:induction false} SumAppend<T>(xs: seq<T>, ys: seq<T>, f: T -> int)
    ensures Sum(xs + ys, f) == Sum(xs, f) + Sum(ys, f)
  {
    if ys == [] {
      assert xs + ys == xs;
    } else {
      var n := |ys| - 1;
      SumAppend(xs, ys[..n], f);
      assert xs + ys == (xs + ys[..n]) + [ys[n]];
      SumStep(xs + ys[..n], ys[n], f);
    }
  }

  lemma {:induction false} SumOfMember<T>(xs: seq<T>, x: T, f: T -> int)
    requires x in xs && f(x) >= 1 && forall y :: 0 <= f(y)
    ensures Sum(xs, f) >= 1
  {
    var n := |xs| - 1;
    if x == xs[n] {
      SumNotNegative(xs[..n], f);
    } else {
      SumOfMember(xs[..n], x, f);
    }
  }

  lemma {:induction false} SumNotNegative<T>(xs: seq<T>, f: T -> int)
    requires forall y :: 0 <= f(y)
    ensures 0 <= Sum(xs, f)
  {
    if xs != [] {
      SumNotNegative(xs[..|xs| - 1], f);
    }
  }
}
