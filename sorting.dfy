/** The sort the executors hand the composed comparator to. The library delegates
    to the host's `Array.prototype.sort`; this insertion sort stands in for it and
    is specified only by what the executors rely on: the result is a permutation
    of the input, ordered by the comparator whenever that comparator is a total
    preorder on the elements, and an input already ordered under such a comparator
    is left as it is, as a stable sort leaves it. */
module Sorting {
  import opened Comparators

  /** Exchanges two neighbouring elements. */
  method SwapAdjacent<T>(a: array<T>, k: int)
    requires 0 <= k && k + 1 < a.Length
    modifies a
    ensures a[..] == old(a[..])[k := old(a[k + 1])][k + 1 := old(a[k])]
    ensures multiset(a[..]) == multiset(old(a[..]))
  {
    a[k], a[k + 1] := a[k + 1], a[k];
  }

  /** `s` with its element at `i` moved to position `j`, the elements `s[j..i]`
      each shifted one place right. */
  function Inserted<T>(s: seq<T>, i: int, j: int): (r: seq<T>)
    requires 0 <= j <= i < |s|
    ensures |r| == |s| && r[j] == s[i]
  {
    seq(|s|, k requires 0 <= k < |s| =>
      if k < j || i < k then s[k] else if k == j then s[i] else s[k - 1])
  }

  /** Moving an element is a permutation. */
  lemma InsertedPermutation<T>(s: seq<T>, i: int, j: int)
    requires 0 <= j <= i < |s|
    ensures multiset(Inserted(s, i, j)) == multiset(s)
  {
    assert s == s[..j] + s[j..i] + [s[i]] + s[i + 1..];
    assert Inserted(s, i, j) == s[..j] + [s[i]] + s[j..i] + s[i + 1..];
  }

  /** Moving an element to where it already is changes nothing. */
  lemma InsertedInPlace<T>(s: seq<T>, i: int)
    requires 0 <= i < |s|
    ensures Inserted(s, i, i) == s
  {
  }

  /** One more step left: swapping the moved element with its left neighbour. */
  lemma InsertedStep<T>(s: seq<T>, i: int, j: int)
    requires 0 < j <= i < |s|
    ensures Inserted(s, i, j)[j - 1] == s[j - 1]
    ensures Inserted(s, i, j)[j - 1 := s[i]][j := s[j - 1]] == Inserted(s, i, j - 1)
  {
  }

  /** Where each element of `s` lands once the element at `i` has moved to `j`. */
  lemma InsertedAt<T>(s: seq<T>, i: int, j: int, k: int)
    requires 0 <= j <= i < |s| && 0 <= k < |s|
    ensures k < j || i < k ==> Inserted(s, i, j)[k] == s[k]
    ensures j < k <= i ==> Inserted(s, i, j)[k] == s[k - 1]
  {
  }

  /** Any two positions of the prefix `..i+1` are ordered once the element has moved. */
  lemma InsertedPair<T>(c: Comparator<T>, s: seq<T>, input: seq<T>, i: int, j: int, p: int, q: int)
    requires TotalPreorderOn(c, input) && multiset(s) == multiset(input)
    requires 0 <= j <= i < |s| && SortedBy(c, s[..i])
    requires forall k :: j <= k < i ==> c(s[k], s[i]) > 0
    requires j == 0 || c(s[j - 1], s[i]) <= 0
    requires 0 <= p < q <= i
    ensures c(Inserted(s, i, j)[p], Inserted(s, i, j)[q]) <= 0
  {
    InsertedAt(s, i, j, p);
    InsertedAt(s, i, j, q);
    if q < j {
      assert s[..i][p] == s[p] && s[..i][q] == s[q];
    } else if q == j {
      ElementOfPermutation(s, input, p);
      ElementOfPermutation(s, input, j - 1);
      ElementOfPermutation(s, input, i);
      if p < j - 1 {
        assert s[..i][p] == s[p] && s[..i][j - 1] == s[j - 1];
      }
    } else if p == j {
      ElementOfPermutation(s, input, q - 1);
      ElementOfPermutation(s, input, i);
      assert c(s[q - 1], s[i]) > 0;
    } else if p < j {
      assert s[..i][p] == s[p] && s[..i][q - 1] == s[q - 1];
    } else {
      assert s[..i][p - 1] == s[p - 1] && s[..i][q - 1] == s[q - 1];
    }
  }

  /** Inserting the element at `i` after everything in the ordered prefix that is
      not after it, and before everything that is, orders the prefix `..i+1`. */
  lemma InsertedSorted<T>(c: Comparator<T>, s: seq<T>, input: seq<T>, i: int, j: int)
    requires TotalPreorderOn(c, input) && multiset(s) == multiset(input)
    requires 0 <= j <= i < |s| && SortedBy(c, s[..i])
    requires forall k :: j <= k < i ==> c(s[k], s[i]) > 0
    requires j == 0 || c(s[j - 1], s[i]) <= 0
    ensures SortedBy(c, Inserted(s, i, j)[..i + 1])
  {
    var t := Inserted(s, i, j)[..i + 1];
    forall p, q | 0 <= p < q < |t| ensures c(t[p], t[q]) <= 0 {
      InsertedPair(c, s, input, i, j, p, q);
    }
  }

  /** One round of insertion sort keeps its three invariants: the array is a
      permutation of the input, its prefix is ordered when the comparator is a total
      preorder, and an ordered input is left as it is. */
  lemma InsertKeeps<T>(c: Comparator<T>, s: seq<T>, input: seq<T>, i: int, j: int)
    requires 0 <= j <= i < |s| && multiset(s) == multiset(input)
    requires TotalPreorderOn(c, input) ==> SortedBy(c, s[..i])
    requires SortedBy(c, input) ==> s == input
    requires forall k :: j <= k < i ==> c(s[k], s[i]) > 0
    requires j == 0 || c(s[j - 1], s[i]) <= 0
    ensures multiset(Inserted(s, i, j)) == multiset(input)
    ensures TotalPreorderOn(c, input) ==> SortedBy(c, Inserted(s, i, j)[..i + 1])
    ensures SortedBy(c, input) ==> Inserted(s, i, j) == input
  {
    InsertedPermutation(s, i, j);
    if TotalPreorderOn(c, input) {
      InsertedSorted(c, s, input, i, j);
    }
    if SortedBy(c, input) {
      assert i == 0 || c(s[i - 1], s[i]) <= 0;
      InsertedInPlace(s, i);
    }
  }

  /** Inserts `a[i]` into the prefix `a[..i]`: moves it left past every element that
      belongs after it, and returns the position it comes to rest at. */
  method Insert<T>(a: array<T>, c: Comparator<T>, i: int) returns (j: int)
    requires 0 <= i < a.Length
    modifies a
    ensures 0 <= j <= i && a[..] == Inserted(old(a[..]), i, j)
    ensures forall k :: j <= k < i ==> c(old(a[..])[k], old(a[i])) > 0
    ensures j == 0 || c(old(a[..])[j - 1], old(a[i])) <= 0
  {
    ghost var start := a[..];
    j := i;
    while 0 < j && c(a[j - 1], a[j]) > 0
      invariant 0 <= j <= i && a[..] == Inserted(start, i, j)
      invariant forall k :: j <= k < i ==> c(start[k], start[i]) > 0
    {
      InsertedStep(start, i, j);
      assert a[j] == start[i] && a[j - 1] == start[j - 1];
      SwapAdjacent(a, j - 1);
      j := j - 1;
    }
  }

  /** An ordered prefix that is the whole sequence. */
  lemma SortedWhole<T>(c: Comparator<T>, s: seq<T>, n: int)
    requires n == |s| && SortedBy(c, s[..n])
    ensures SortedBy(c, s)
  {
    assert s[..n] == s;
  }

  /** Sorts `a` in place under `c`. */
  method InsertionSort<T>(a: array<T>, c: Comparator<T>)
    modifies a
    ensures multiset(a[..]) == multiset(old(a[..]))
    ensures TotalPreorderOn(c, old(a[..])) ==> SortedBy(c, a[..])
    ensures TotalPreorderOn(c, old(a[..])) && SortedBy(c, old(a[..])) ==> a[..] == old(a[..])
  {
    ghost var input := a[..];
    ghost var preorder := TotalPreorderOn(c, input);
    ghost var presorted := SortedBy(c, input);
    var i := 0;
    while i < a.Length
      invariant 0 <= i <= a.Length
      invariant multiset(a[..]) == multiset(input)
      invariant preorder ==> SortedBy(c, a[..i])
      invariant presorted ==> a[..] == input
    {
      ghost var s := a[..];
      var j := Insert(a, c, i);
      InsertKeeps(c, s, input, i, j);
      i := i + 1;
    }
    if preorder {
      SortedWhole(c, a[..], i);
    }
  }

  /** Sorts a copy of `xs`, as `xs.slice(0).sort(c)` and `[...xs].sort(c)` do. */
  method SortedCopy<T>(xs: seq<T>, c: Comparator<T>) returns (ys: seq<T>)
    ensures multiset(ys) == multiset(xs)
    ensures TotalPreorderOn(c, xs) ==> SortedBy(c, ys)
    ensures TotalPreorderOn(c, xs) && SortedBy(c, xs) ==> ys == xs
  {
    var a := new T[|xs|](k requires 0 <= k < |xs| => xs[k]);
    assert a[..] == xs;
    InsertionSort(a, c);
    ys := a[..];
  }
}
