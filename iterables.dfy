/** The builder of src/fluentSort.js, a sibling of src/fluent-sort.js with two
    primitives of its own: `composeSort` folds the rules with `reduce`, and
    `selectorToComparator` accepts only functions and tests keys with `===` before
    `<`. `fluentSort(arr)` gives an `Iterable`; `sortBy*` on it and `thenBy*` on a
    `SortedIterable` return new `SortedIterable`s that all hold the caller's array. */
module Iterables {
  import opened Values
  import opened Comparators
  import Utils
  import Sorting

  /** The `reduce` over the rules from index `i` on, carrying the verdict so far:
      once it is non-zero it is passed along, otherwise the next rule is asked. */
  function Reduce<T>(rules: seq<Comparator<T>>, l: T, r: T, acc: int, i: nat): int
    decreases |rules| - i
  {
    if i >= |rules| then acc
    else Reduce(rules, l, r, if acc != 0 then acc else rules[i](l, r), i + 1)
  }

  /** The fold gives the same verdict as the first-non-zero scan of src/utils/index.js. */
  lemma {:induction false} ReduceAgreesWithScan<T>(rules: seq<Comparator<T>>, l: T, r: T, acc: int, i: nat)
    ensures Reduce(rules, l, r, acc, i) == if acc != 0 then acc else Utils.ScanFrom(rules, l, r, i)
    decreases |rules| - i
  {
    if i < |rules| {
      ReduceAgreesWithScan(rules, l, r, if acc != 0 then acc else rules[i](l, r), i + 1);
    }
  }

  /** The comparator this file's `composeSort` returns. */
  function Reduced<T>(rules: seq<Comparator<T>>): Comparator<T> {
    (l, r) => Reduce(rules, l, r, 0, 0)
  }

  /** This file's `composeSort`: the same checks as src/utils/index.js, and a
      comparator that agrees with the loop-based one on every pair. */
  function ComposeSort<T(!new)>(comparators: ArrayArg<seq<Comparator<T>>>): (res: Result<Comparator<T>>)
    ensures res.Ok? <==> comparators.IsArray? && |comparators.elements| > 0
    ensures comparators.NotArray? ==> res.Err? && res.error == NotAnArray
    ensures comparators.IsArray? && |comparators.elements| == 0 ==> res.Err? && res.error == NoComparators
    ensures res.Ok? ==> forall l, r :: res.value(l, r) == Utils.Composed(comparators.elements)(l, r)
  {
    if Utils.CheckArray(comparators).Fail? then Err(NotAnArray)
    else if |comparators.elements| == 0 then Err(NoComparators)
    else
      ReducedIsComposed(comparators.elements);
      Ok(Reduced(comparators.elements))
  }

  lemma ReducedIsComposed<T(!new)>(rules: seq<Comparator<T>>)
    ensures forall l, r :: Reduced(rules)(l, r) == Utils.Composed(rules)(l, r)
  {
    forall l, r {
      ReduceAgreesWithScan(rules, l, r, 0, 0);
    }
  }

  /** The comparator this file's `selectorToComparator` builds: 0 when the keys
      are strictly equal, -1 when the left key is below, 1 otherwise. */
  function StrictKeyComparator(key: Record -> Key): Comparator<Record> {
    (l, r) => if key(l) == key(r) then 0 else if KeyLess(key(l), key(r)) then -1 else 1
  }

  /** This file's `selectorToComparator`: only a function is accepted. */
  function SelectorToComparator(fieldSelector: SelectorArg): (res: Result<Comparator<Record>>)
    ensures res.Ok? <==> fieldSelector.KeyFunction?
    ensures res.Err? ==> res.error == NotAFunction
    ensures res.Ok? ==> forall l, r :: fieldSelector.key(l).Some? && fieldSelector.key(r).Some?
                                       ==> res.value(l, r) == Utils.KeyComparator(fieldSelector.key)(l, r)
    ensures res.Ok? ==> forall l, r :: fieldSelector.key(l).None? && fieldSelector.key(r).None?
                                       ==> res.value(l, r) == 0
    ensures res.Ok? ==> forall l, r :: fieldSelector.key(l).None? != fieldSelector.key(r).None?
                                       ==> res.value(l, r) == 1
    ensures res.Ok? ==> res.value == StrictKeyComparator(fieldSelector.key)
  {
    match fieldSelector
    case KeyFunction(key) => Ok(StrictKeyComparator(key))
    case _ => Err(NotAFunction)
  }

  /** With keys present the strict comparator is a total preorder on the elements. */
  lemma StrictKeyComparatorPreorder(key: Record -> Key, xs: seq<Record>)
    requires forall x | x in xs :: key(x).Some?
    ensures TotalPreorderOn(StrictKeyComparator(key), xs)
  {
  }

  /** With a missing key the strict comparator puts each element after the other:
      `undefined` is not `===` to a number and not `<` it in either order, so both
      orders answer 1. The comparator of src/utils/index.js answers 0 both ways. */
  lemma StrictKeyComparatorAbsentKey(key: Record -> Key, l: Record, r: Record)
    requires key(l).None? && key(r).Some?
    ensures StrictKeyComparator(key)(l, r) == 1 && StrictKeyComparator(key)(r, l) == 1
    ensures Utils.KeyComparator(key)(l, r) == 0 && Utils.KeyComparator(key)(r, l) == 0
  {
  }

  datatype SortedIterable = SortedIterable(data: array<Record>, sortComparators: seq<Comparator<Record>>) {

    /** `thenBy(comparator)`: a new `SortedIterable` on the same array whose rules
        are the receiver's followed by `comparator`. */
    function ThenBy(comparator: FnArg<Comparator<Record>>): (res: Result<SortedIterable>)
      ensures res.Ok? <==> comparator.IsFunction?
      ensures res.Err? ==> res.error == NotAFunction
      ensures res.Ok? ==> res.value.data == data && res.value.sortComparators == sortComparators + [comparator.fn]
      ensures res.Ok? ==> Utils.BreaksTiesWith(res.value.sortComparators, sortComparators, comparator.fn)
    {
      if Utils.CheckFunction(comparator).Fail? then Err(NotAFunction)
      else
        var res := NewSortedIterable(IsArray(data), IsArray(AsFunctionArgs(sortComparators) + [comparator]));
        assert res.value.sortComparators == sortComparators + [comparator.fn];
        Utils.AppendBreaksTies(sortComparators, comparator.fn);
        res
    }

    /** `thenByDescending(comparator)`: appends the negated comparator. */
    function ThenByDescending(comparator: FnArg<Comparator<Record>>): (res: Result<SortedIterable>)
      ensures res.Ok? <==> comparator.IsFunction?
      ensures res.Err? ==> res.error == NotAFunction
      ensures res.Ok? ==> res.value.data == data
      ensures res.Ok? ==> res.value.sortComparators == sortComparators + [Utils.Negated(comparator.fn)]
    {
      if Utils.CheckFunction(comparator).Fail? then Err(NotAFunction)
      else ThenBy(IsFunction(Utils.NegateComparator(comparator).value))
    }

    /** `thenByField(selector)`: the selector must be a function; appends its comparator. */
    function ThenByField(selector: SelectorArg): (res: Result<SortedIterable>)
      ensures res.Ok? <==> selector.KeyFunction?
      ensures res.Err? ==> res.error == NotAFunction
      ensures res.Ok? ==> res.value.data == data
      ensures res.Ok? ==> res.value.sortComparators == sortComparators + [StrictKeyComparator(selector.key)]
    {
      if !selector.KeyFunction? then Err(NotAFunction)
      else ThenBy(IsFunction(SelectorToComparator(selector).value))
    }

    /** `thenByFieldDescending(selector)`: appends the negated selector comparator. */
    function ThenByFieldDescending(selector: SelectorArg): (res: Result<SortedIterable>)
      ensures res.Ok? <==> selector.KeyFunction?
      ensures res.Err? ==> res.error == NotAFunction
      ensures res.Ok? ==> res.value.data == data
      ensures res.Ok? ==> res.value.sortComparators == sortComparators + [Utils.Negated(StrictKeyComparator(selector.key))]
    {
      if !selector.KeyFunction? then Err(NotAFunction)
      else ThenByDescending(IsFunction(SelectorToComparator(selector).value))
    }

    /** `result()`: sorts a copy of the shared array; the array keeps its order. */
    method Result() returns (res: Result<seq<Record>>)
      ensures res.Ok? <==> |sortComparators| > 0
      ensures res.Err? ==> res.error == NoComparators
      ensures res.Ok? ==> multiset(res.value) == multiset(data[..])
      ensures res.Ok? && TotalPreorderOn(Utils.Composed(sortComparators), data[..])
              ==> SortedBy(Utils.Composed(sortComparators), res.value)
      ensures res.Ok? && TotalPreorderOn(Utils.Composed(sortComparators), data[..]) && SortedBy(Utils.Composed(sortComparators), data[..])
              ==> res.value == data[..]
    {
      var resultArr := data[..];
      var composed := ComposeSort(IsArray(sortComparators));
      if composed.Err? {
        return Err(composed.error);
      }
      var sorted := Sorting.SortedCopy(resultArr, composed.value);
      SameVerdicts(composed.value, Utils.Composed(sortComparators), resultArr, sorted);
      SameVerdicts(composed.value, Utils.Composed(sortComparators), resultArr, resultArr);
      return Ok(sorted);
    }

    /** `sortInPlace()`: sorts the shared array itself and returns it. */
    method SortInPlace() returns (res: Result<array<Record>>)
      modifies data
      ensures res.Ok? <==> |sortComparators| > 0
      ensures res.Err? ==> res.error == NoComparators && data[..] == old(data[..])
      ensures res.Ok? ==> res.value == data && multiset(data[..]) == multiset(old(data[..]))
      ensures res.Ok? && TotalPreorderOn(Utils.Composed(sortComparators), old(data[..]))
              ==> SortedBy(Utils.Composed(sortComparators), data[..])
      ensures res.Ok? && TotalPreorderOn(Utils.Composed(sortComparators), old(data[..])) && SortedBy(Utils.Composed(sortComparators), old(data[..]))
              ==> data[..] == old(data[..])
    {
      var composed := ComposeSort(IsArray(sortComparators));
      if composed.Err? {
        return Err(composed.error);
      }
      ghost var before := data[..];
      Sorting.InsertionSort(data, composed.value);
      SameVerdicts(composed.value, Utils.Composed(sortComparators), before, data[..]);
      SameVerdicts(composed.value, Utils.Composed(sortComparators), before, before);
      return Ok(data);
    }
  }

  /** The `SortedIterable` constructor: the data must be an array, the rules an
      array, and every rule a function. */
  function NewSortedIterable(arr: ArrayArg<array<Record>>, comparators: ArrayArg<seq<FnArg<Comparator<Record>>>>): (res: Result<SortedIterable>)
    ensures res.Ok? <==> arr.IsArray? && comparators.IsArray?
                         && forall i :: 0 <= i < |comparators.elements| ==> comparators.elements[i].IsFunction?
    ensures arr.NotArray? || comparators.NotArray? ==> res.Err? && res.error == NotAnArray
    ensures arr.IsArray? && comparators.IsArray? && res.Err? ==> res.error == NotAFunction
    ensures res.Ok? ==> res.value.data == arr.elements && AsFunctionArgs(res.value.sortComparators) == comparators.elements
  {
    if Utils.CheckArray(arr).Fail? || Utils.CheckArray(comparators).Fail? then Err(NotAnArray)
    else if exists i :: 0 <= i < |comparators.elements| && comparators.elements[i].NotFunction? then Err(NotAFunction)
    else
      var cs := comparators.elements;
      var rules: seq<Comparator<Record>> := seq(|cs|, i requires 0 <= i < |cs| => cs[i].fn);
      assert AsFunctionArgs(rules) == cs;
      Ok(SortedIterable(arr.elements, rules))
  }

  datatype Iterable = Iterable(data: array<Record>) {

    /** `sortBy(comparator)`: a `SortedIterable` on the same array with the single
        rule `comparator`; the constructor rejects a non-function. */
    function SortBy(comparator: FnArg<Comparator<Record>>): (res: Result<SortedIterable>)
      ensures res.Ok? <==> comparator.IsFunction?
      ensures res.Err? ==> res.error == NotAFunction
      ensures res.Ok? ==> res.value.data == data && res.value.sortComparators == [comparator.fn]
    {
      var res := NewSortedIterable(IsArray(data), IsArray([comparator]));
      assert [comparator][0] == comparator;
      assert res.Ok? ==> AsFunctionArgs(res.value.sortComparators) == [comparator];
      res
    }

    /** `sortByDescending(comparator)`: the single rule is the negated comparator. */
    function SortByDescending(comparator: FnArg<Comparator<Record>>): (res: Result<SortedIterable>)
      ensures res.Ok? <==> comparator.IsFunction?
      ensures res.Err? ==> res.error == NotAFunction
      ensures res.Ok? ==> res.value.data == data && res.value.sortComparators == [Utils.Negated(comparator.fn)]
    {
      var negated := Utils.NegateComparator(comparator);
      if negated.Err? then Err(negated.error)
      else SortBy(IsFunction(negated.value))
    }

    /** `sortByField(selector)`: the single rule is the selector comparator. */
    function SortByField(selector: SelectorArg): (res: Result<SortedIterable>)
      ensures res.Ok? <==> selector.KeyFunction?
      ensures res.Err? ==> res.error == NotAFunction
      ensures res.Ok? ==> res.value.data == data && res.value.sortComparators == [StrictKeyComparator(selector.key)]
    {
      var adapted := SelectorToComparator(selector);
      if adapted.Err? then Err(adapted.error)
      else SortBy(IsFunction(adapted.value))
    }

    /** `sortByFieldDescending(selector)`: the single rule is the negated selector comparator. */
    function SortByFieldDescending(selector: SelectorArg): (res: Result<SortedIterable>)
      ensures res.Ok? <==> selector.KeyFunction?
      ensures res.Err? ==> res.error == NotAFunction
      ensures res.Ok? ==> res.value.data == data
      ensures res.Ok? ==> res.value.sortComparators == [Utils.Negated(StrictKeyComparator(selector.key))]
    {
      var adapted := SelectorToComparator(selector);
      if adapted.Err? then Err(adapted.error)
      else SortByDescending(IsFunction(adapted.value))
    }
  }

  /** The `Iterable` constructor: rejects a non-array. */
  function NewIterable(arr: ArrayArg<array<Record>>): (res: Result<Iterable>)
    ensures res.Ok? <==> arr.IsArray?
    ensures res.Err? ==> res.error == NotAnArray
    ensures res.Ok? ==> res.value.data == arr.elements
  {
    if Utils.CheckArray(arr).Fail? then Err(NotAnArray)
    else Ok(Iterable(arr.elements))
  }

  /** `fluentSort(arr)`: checks for an array, then builds the `Iterable` on that same array. */
  function FluentSort(arr: ArrayArg<array<Record>>): (res: Result<Iterable>)
    ensures res.Ok? <==> arr.IsArray?
    ensures res.Err? ==> res.error == NotAnArray
    ensures res.Ok? ==> res.value.data == arr.elements
  {
    if Utils.CheckArray(arr).Fail? then Err(NotAnArray)
    else NewIterable(arr)
  }
}
