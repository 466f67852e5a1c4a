/**
 The array built-ins the component builds its new collections with:
 `Array.prototype.filter` and `Array.prototype.map`, on immutable sequences.
 Also the order-keeping relation "is a subsequence of" and the facts about
 permutations that the shuffle needs.
 */
module Lists {

  /** `xs.filter(keep)`: the elements of `xs` that `keep` accepts, in order,
      each accepted value as many times as it occurs in `xs`. */
  function Filter<T(==,!new)>(xs: seq<T>, keep: T -> bool): (r: seq<T>)
    ensures |r| <= |xs|
    ensures forall k :: 0 <= k < |r| ==> keep(r[k]) && r[k] in xs
    ensures forall k :: 0 <= k < |xs| && keep(xs[k]) ==> xs[k] in r
    ensures forall x :: multiset(r)[x] == if keep(x) then multiset(xs)[x] else 0
  {
    if xs == [] then []
    else
      assert xs == [xs[0]] + xs[1..];
      (if keep(xs[0]) then [xs[0]] else []) + Filter(xs[1..], keep)
  }

  /** `xs.map(f)`: one result per element, in the same positions. */
  function Map<T, U>(xs: seq<T>, f: T -> U): (r: seq<U>)
    ensures |r| == |xs|
    ensures forall k :: 0 <= k < |xs| ==> r[k] == f(xs[k])
  {
    if xs == [] then [] else [f(xs[0])] + Map(xs[1..], f)
  }

  /** `r` is `xs` with some elements left out and the rest in their order. */
  ghost predicate IsSubsequence<T>(r: seq<T>, xs: seq<T>)
    decreases |xs|
  {
    r == []
    || (xs != []
        && ((r[0] == xs[0] && IsSubsequence(r[1..], xs[1..])) || IsSubsequence(r, xs[1..])))
  }

  /** Every element of a subsequence occurs in the sequence. */
  lemma {:induction false} SubsequenceMembers<T>(r: seq<T>, xs: seq<T>)
    requires IsSubsequence(r, xs)
    ensures forall k :: 0 <= k < |r| ==> r[k] in xs
    decreases |xs|
  {
    if r != [] {
      if r[0] == xs[0] && IsSubsequence(r[1..], xs[1..]) {
        SubsequenceMembers(r[1..], xs[1..]);
        assert forall k :: 1 <= k < |r| ==> r[k] == r[1..][k - 1];
      } else {
        SubsequenceMembers(r, xs[1..]);
      }
    }
  }

  /** Filtering keeps the relative order of what it keeps. */
  lemma {:induction false} FilterIsSubsequence<T(!new)>(xs: seq<T>, keep: T -> bool)
    ensures IsSubsequence(Filter(xs, keep), xs)
  {
    if xs != [] {
      FilterIsSubsequence(xs[1..], keep);
      var rest := Filter(xs[1..], keep);
      if keep(xs[0]) {
        assert Filter(xs, keep) == [xs[0]] + rest;
        assert ([xs[0]] + rest)[1..] == rest;
      } else {
        assert Filter(xs, keep) == rest;
      }
    }
  }

  /** Filtering with a test every element passes changes nothing. */
  lemma {:induction false} FilterKeepsAll<T(!new)>(xs: seq<T>, keep: T -> bool)
    requires forall k :: 0 <= k < |xs| ==> keep(xs[k])
    ensures Filter(xs, keep) == xs
  {
    if xs != [] {
      FilterKeepsAll(xs[1..], keep);
      assert [xs[0]] + xs[1..] == xs;
    }
  }

  /** `xs` without the element at position `j`. */
  function RemovedAt<T>(xs: seq<T>, j: nat): (r: seq<T>)
    requires j < |xs|
    ensures |r| == |xs| - 1
  {
    xs[..j] + xs[j + 1..]
  }

  /** Taking out the element at position `j` takes exactly one copy of it
      out of the multiset. */
  lemma RemoveAt<T>(ys: seq<T>, j: nat)
    requires j < |ys|
    ensures multiset(ys) == multiset(RemovedAt(ys, j)) + multiset{ys[j]}
  {
    assert ys == ys[..j] + [ys[j]] + ys[j + 1..];
  }

  /** Mapping commutes with taking out a position. */
  lemma MapRemovedAt<T, U>(ys: seq<T>, j: nat, f: T -> U)
    requires j < |ys|
    ensures Map(RemovedAt(ys, j), f) == RemovedAt(Map(ys, f), j)
  {
    var l, r := Map(RemovedAt(ys, j), f), RemovedAt(Map(ys, f), j);
    forall k | 0 <= k < |l| ensures l[k] == r[k] {
      if k < j {
        assert RemovedAt(ys, j)[k] == ys[k] && r[k] == Map(ys, f)[k];
      } else {
        assert RemovedAt(ys, j)[k] == ys[k + 1] && r[k] == Map(ys, f)[k + 1];
      }
    }
  }

  /** The map of `ys` is the map of `ys` without position `j`, plus the image
      of `ys[j]`. */
  lemma MapRemoveAt<T, U>(ys: seq<T>, j: nat, f: T -> U)
    requires j < |ys|
    ensures multiset(Map(ys, f)) == multiset(Map(RemovedAt(ys, j), f)) + multiset{f(ys[j])}
  {
    MapRemovedAt(ys, j, f);
    RemoveAt(Map(ys, f), j);
  }

  /** Two permutations of each other stay permutations of each other when
      one copy of the same element is taken out of each. */
  lemma PermutationWithout<T>(xs: seq<T>, ys: seq<T>, j: nat)
    requires multiset(xs) == multiset(ys) && xs != [] && j < |ys| && ys[j] == xs[0]
    ensures multiset(xs[1..]) == multiset(RemovedAt(ys, j))
  {
    RemoveAt(ys, j);
    RemoveAt(xs, 0);
    assert RemovedAt(xs, 0) == xs[1..];
    var a, b := multiset(xs[1..]), multiset(RemovedAt(ys, j));
    forall z ensures a[z] == b[z] {
      assert (a + multiset{xs[0]})[z] == (b + multiset{xs[0]})[z];
    }
  }

  /** Mapping two permutations of each other gives two permutations of each
      other: the multiset of a map depends only on the multiset of its input. */
  lemma {:induction false} MapOfPermutation<T, U>(xs: seq<T>, ys: seq<T>, f: T -> U)
    requires multiset(xs) == multiset(ys)
    ensures multiset(Map(xs, f)) == multiset(Map(ys, f))
  {
    if xs == [] {
      assert |ys| == |multiset(ys)| == 0;
    } else {
      assert xs[0] in multiset(ys);
      var j :| 0 <= j < |ys| && ys[j] == xs[0];
      PermutationWithout(xs, ys, j);
      MapOfPermutation(xs[1..], RemovedAt(ys, j), f);
      MapRemoveAt(ys, j, f);
      MapRemoveAt(xs, 0, f);
      assert RemovedAt(xs, 0) == xs[1..];
    }
  }

  /** The position the next draw picks among `n` remaining elements. */
  function DrawIndex(draws: seq<nat>, n: nat): (j: nat)
    requires n > 0
    ensures j < n
  {
    if draws == [] then 0 else draws[0] % n
  }

  /** The draws left once the first has been used. */
  function LaterDraws(draws: seq<nat>): (r: seq<nat>)
    ensures |r| <= |draws|
  {
    if draws == [] then [] else draws[1..]
  }

  /** One outcome of shuffling `xs`. Each draw picks, modulo the number of
      elements left, the element to place next; missing draws pick the first.
      The draws stand for whatever random choices produced the order. */
  function Shuffle<T>(xs: seq<T>, draws: seq<nat>): (r: seq<T>)
    ensures |r| == |xs|
    decreases |xs|
  {
    if xs == [] then []
    else
      var j := DrawIndex(draws, |xs|);
      [xs[j]] + Shuffle(RemovedAt(xs, j), LaterDraws(draws))
  }

  /** Whatever the draws, the shuffle only reorders. */
  lemma {:induction false} ShuffleIsPermutation<T>(xs: seq<T>, draws: seq<nat>)
    ensures multiset(Shuffle(xs, draws)) == multiset(xs)
    decreases |xs|
  {
    if xs != [] {
      var j := DrawIndex(draws, |xs|);
      RemoveAt(xs, j);
      ShuffleIsPermutation(RemovedAt(xs, j), LaterDraws(draws));
      assert Shuffle(xs, draws) == [xs[j]] + Shuffle(RemovedAt(xs, j), LaterDraws(draws));
    }
  }

  lemma SmallModulo(j: nat, n: nat)
    requires j < n
    ensures j % n == j
  {
  }

  /** A first draw `j` below the length places `xs[j]` first. */
  lemma ShuffleFirstDraw<T>(xs: seq<T>, j: nat, rest: seq<nat>)
    requires j < |xs|
    ensures Shuffle(xs, [j] + rest) == [xs[j]] + Shuffle(RemovedAt(xs, j), rest)
  {
    var draws := [j] + rest;
    SmallModulo(j, |xs|);
    assert DrawIndex(draws, |xs|) == j;
    assert LaterDraws(draws) == rest;
  }

  /** Every permutation of `xs` is the outcome of some draws, so the shuffle
      can produce any order and nothing but reorderings. */
  lemma {:induction false} ShuffleReachesEveryPermutation<T>(xs: seq<T>, ys: seq<T>)
    requires multiset(ys) == multiset(xs)
    ensures exists draws :: Shuffle(xs, draws) == ys
  {
    if xs == [] {
      assert |ys| == |multiset(ys)| == 0;
      assert Shuffle(xs, []) == ys;
    } else {
      assert ys != [] by { assert |ys| == |multiset(ys)| == |multiset(xs)| == |xs|; }
      assert ys[0] in multiset(xs);
      var j :| 0 <= j < |xs| && xs[j] == ys[0];
      PermutationWithout(ys, xs, j);
      ShuffleReachesEveryPermutation(RemovedAt(xs, j), ys[1..]);
      var rest :| Shuffle(RemovedAt(xs, j), rest) == ys[1..];
      ShuffleFirstDraw(xs, j, rest);
      assert Shuffle(xs, [j] + rest) == [ys[0]] + ys[1..] == ys;
    }
  }
}
