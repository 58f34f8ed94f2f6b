/** What a comparator is and what it means for a sequence to be ordered by one. */
module Comparators {

  /** A three-way comparison: negative puts the left element first, positive the right one. */
  type Comparator<-T> = (T, T) -> int

  /** `c` behaves as a total preorder on the elements of `xs`: the sign of a
      comparison flips when its arguments are swapped, and "not after" is transitive.
      The engine never checks this; a sort under a comparator that violates it has
      no well-defined result. */
  ghost predicate TotalPreorderOn<T>(c: Comparator<T>, xs: seq<T>) {
    && (forall x, y | x in xs && y in xs :: c(x, y) < 0 <==> c(y, x) > 0)
    && (forall x, y, z | x in xs && y in xs && z in xs :: c(x, y) <= 0 && c(y, z) <= 0 ==> c(x, z) <= 0)
  }

  /** Every element of `xs` is "not after" every later one under `c`. */
  ghost predicate SortedBy<T>(c: Comparator<T>, xs: seq<T>) {
    forall i, j :: 0 <= i < j < |xs| ==> c(xs[i], xs[j]) <= 0
  }

  /** Every rule of `rules` ties on `(l, r)`. */
  ghost predicate AllTie<T>(rules: seq<Comparator<T>>, l: T, r: T) {
    forall i :: 0 <= i < |rules| ==> rules[i](l, r) == 0
  }

  /** Rule `i` is the first rule of `rules` that does not tie on `(l, r)`. */
  ghost predicate Decides<T>(rules: seq<Comparator<T>>, l: T, r: T, i: int) {
    && 0 <= i < |rules|
    && rules[i](l, r) != 0
    && forall j :: 0 <= j < i ==> rules[j](l, r) == 0
  }

  /** Comparators that agree on every pair order the same sequences. */
  lemma SameVerdicts<T>(c: Comparator<T>, d: Comparator<T>, xs: seq<T>, ys: seq<T>)
    requires forall l, r :: c(l, r) == d(l, r)
    ensures TotalPreorderOn(c, xs) <==> TotalPreorderOn(d, xs)
    ensures SortedBy(c, ys) <==> SortedBy(d, ys)
  {
  }

  /** Under `c`, no two different elements of `xs` are each "not after" the other. */
  ghost predicate StrictOn<T>(c: Comparator<T>, xs: seq<T>) {
    forall x, y | x in xs && y in xs :: c(x, y) <= 0 && c(y, x) <= 0 ==> x == y
  }

  /** When no two different elements are each "not after" the other, the ordered
      arrangement of a collection is unique: two ordered permutations of the same
      elements are equal. */
  lemma SortedPermutationUnique<T>(c: Comparator<T>, ys: seq<T>, zs: seq<T>)
    requires multiset(ys) == multiset(zs)
    requires StrictOn(c, ys)
    requires SortedBy(c, ys) && SortedBy(c, zs)
    ensures ys == zs
  {
    SortedUniqueWithin(c, ys, zs);
  }

  lemma {:induction false} SortedUniqueWithin<T>(c: Comparator<T>, ys: seq<T>, zs: seq<T>)
    requires multiset(ys) == multiset(zs)
    requires StrictOn(c, ys)
    requires SortedBy(c, ys) && SortedBy(c, zs)
    ensures ys == zs
    decreases |ys|
  {
    SameLength(ys, zs);
    if |ys| > 0 {
      SortedHeadsAgree(c, ys, zs);
      TailPermutation(ys, zs);
      StrictTail(c, ys);
      SortedTail(c, ys);
      SortedTail(c, zs);
      SortedUniqueWithin(c, ys[1..], zs[1..]);
      assert ys == [ys[0]] + ys[1..] && zs == [zs[0]] + zs[1..];
    }
  }

  /** Permutations have the same length. */
  lemma SameLength<T>(ys: seq<T>, zs: seq<T>)
    requires multiset(ys) == multiset(zs)
    ensures |ys| == |zs|
  {
    assert |ys| == |multiset(ys)| && |zs| == |multiset(zs)|;
  }

  /** Two ordered permutations of strictly ordered elements start alike. */
  lemma SortedHeadsAgree<T>(c: Comparator<T>, ys: seq<T>, zs: seq<T>)
    requires 0 < |ys| && 0 < |zs|
    requires multiset(ys) == multiset(zs)
    requires StrictOn(c, ys)
    requires SortedBy(c, ys) && SortedBy(c, zs)
    ensures ys[0] == zs[0]
  {
    assert ys[0] in multiset(zs) && zs[0] in multiset(ys);
  }

  /** Dropping the first element keeps the order strict. */
  lemma StrictTail<T>(c: Comparator<T>, xs: seq<T>)
    requires 0 < |xs| && StrictOn(c, xs)
    ensures StrictOn(c, xs[1..])
  {
    forall x | x in xs[1..] ensures x in xs {
      var k :| 0 <= k < |xs[1..]| && xs[1..][k] == x;
      assert xs[k + 1] == x;
    }
  }

  /** Dropping the first element keeps a sequence ordered. */
  lemma SortedTail<T>(c: Comparator<T>, xs: seq<T>)
    requires 0 < |xs| && SortedBy(c, xs)
    ensures SortedBy(c, xs[1..])
  {
    forall i, j | 0 <= i < j < |xs| - 1 ensures c(xs[1..][i], xs[1..][j]) <= 0 {
      assert c(xs[i + 1], xs[j + 1]) <= 0;
    }
  }

  /** Permutations that start with the same element stay permutations without it. */
  lemma TailPermutation<T>(ys: seq<T>, zs: seq<T>)
    requires |ys| > 0 && |zs| > 0 && ys[0] == zs[0]
    requires multiset(ys) == multiset(zs)
    ensures multiset(ys[1..]) == multiset(zs[1..])
  {
    assert ys == [ys[0]] + ys[1..];
    assert zs == [zs[0]] + zs[1..];
    assert multiset(ys[1..]) == multiset(ys) - multiset{ys[0]};
    assert multiset(zs[1..]) == multiset(zs) - multiset{zs[0]};
  }

  /** An element of a permutation of `ys` is an element of `ys`. */
  lemma ElementOfPermutation<T>(xs: seq<T>, ys: seq<T>, k: int)
    requires multiset(xs) == multiset(ys) && 0 <= k < |xs|
    ensures xs[k] in ys
  {
    assert xs[k] in multiset(xs);
  }
}
