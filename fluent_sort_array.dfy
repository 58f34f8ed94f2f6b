/** The mutable builder of src/index.js. `withFluentSorting` turns the caller's
    own array into a builder: the wrapper aliases that array, every rule-adding call
    updates the wrapper's rule list in place and returns the same wrapper, and
    `result` sorts the caller's array in place. */
module FluentSortArrays {
  import opened Values
  import opened Comparators
  import opened Utils
  import Sorting

  /** The rule a `descending` flag selects: the comparator itself, or its negation. */
  function Directed(c: Comparator<Record>, descending: bool): Comparator<Record> {
    if descending then Negated(c) else c
  }

  /** An array with sorting rules attached. */
  class FluentSortArray {
    /** The caller's array itself, not a copy. */
    const data: array<Record>
    /** The rule list (`__comparators`): rule 0 decides first. Callers can overwrite
        it with a non-array value, which the model keeps as `NotArray`. */
    var comparators: ArrayArg<seq<Comparator<Record>>>

    constructor (arr: array<Record>)
      ensures data == arr && comparators == IsArray([])
    {
      data := arr;
      comparators := IsArray([]);
    }

    /** `sortBy(comparator, descending)`: discards every earlier rule and keeps the
        one given, negated when `descending` is set. */
    method SortBy(comparator: FnArg<Comparator<Record>>, descending: bool) returns (res: Result<FluentSortArray>)
      modifies this
      ensures res.Ok? <==> comparator.IsFunction?
      ensures res.Err? ==> res.error == NotAFunction && comparators == old(comparators)
      ensures res.Ok? ==> res.value == this && comparators == IsArray([Directed(comparator.fn, descending)])
      ensures res.Ok? ==> forall l, r :: Composed(comparators.elements)(l, r) == Directed(comparator.fn, descending)(l, r)
      ensures unchanged(data)
    {
      if CheckFunction(comparator).Fail? {
        return Err(NotAFunction);
      }
      var rule := comparator.fn;
      if descending {
        rule := NegateComparator(comparator).value;
      }
      comparators := IsArray([rule]);
      return Ok(this);
    }

    /** `sortByAscending(comparator)`. */
    method SortByAscending(comparator: FnArg<Comparator<Record>>) returns (res: Result<FluentSortArray>)
      modifies this
      ensures res.Ok? <==> comparator.IsFunction?
      ensures res.Err? ==> res.error == NotAFunction && comparators == old(comparators)
      ensures res.Ok? ==> res.value == this && comparators == IsArray([comparator.fn])
      ensures unchanged(data)
    {
      res := SortBy(comparator, false);
    }

    /** `sortByDescending(comparator)`. */
    method SortByDescending(comparator: FnArg<Comparator<Record>>) returns (res: Result<FluentSortArray>)
      modifies this
      ensures res.Ok? <==> comparator.IsFunction?
      ensures res.Err? ==> res.error == NotAFunction && comparators == old(comparators)
      ensures res.Ok? ==> res.value == this && comparators == IsArray([Negated(comparator.fn)])
      ensures unchanged(data)
    {
      res := SortBy(comparator, true);
    }

    /** `sortByField(selector, descending)`: the selector is adapted first, so a bad
        selector fails before any state changes. */
    method SortByField(selector: SelectorArg, descending: bool) returns (res: Result<FluentSortArray>)
      modifies this
      ensures res.Ok? <==> !selector.NotSelector?
      ensures res.Err? ==> res.error == NotASelector && comparators == old(comparators)
      ensures res.Ok? ==> res.value == this
      ensures res.Ok? ==> comparators == IsArray([Directed(SelectorToComparator(selector).value, descending)])
      ensures unchanged(data)
    {
      var adapted := SelectorToComparator(selector);
      if adapted.Err? {
        return Err(adapted.error);
      }
      res := SortBy(IsFunction(adapted.value), descending);
    }

    /** `sortByFieldAscending(selector)`. */
    method SortByFieldAscending(selector: SelectorArg) returns (res: Result<FluentSortArray>)
      modifies this
      ensures res.Ok? <==> !selector.NotSelector?
      ensures res.Err? ==> res.error == NotASelector && comparators == old(comparators)
      ensures res.Ok? ==> res.value == this && comparators == IsArray([SelectorToComparator(selector).value])
      ensures unchanged(data)
    {
      res := SortByField(selector, false);
    }

    /** `sortByFieldDescending(selector)`. */
    method SortByFieldDescending(selector: SelectorArg) returns (res: Result<FluentSortArray>)
      modifies this
      ensures res.Ok? <==> !selector.NotSelector?
      ensures res.Err? ==> res.error == NotASelector && comparators == old(comparators)
      ensures res.Ok? ==> res.value == this && comparators == IsArray([Negated(SelectorToComparator(selector).value)])
      ensures unchanged(data)
    {
      res := SortByField(selector, true);
    }

    /** `thenBy(comparator, descending)`: appends one rule to the list in place. A
        non-function fails first; a rule list that is not an array fails on `push`. */
    method ThenBy(comparator: FnArg<Comparator<Record>>, descending: bool) returns (res: Result<FluentSortArray>)
      modifies this
      ensures res.Ok? <==> comparator.IsFunction? && old(comparators).IsArray?
      ensures res.Err? ==> comparators == old(comparators)
      ensures res.Err? ==> res.error == if comparator.NotFunction? then NotAFunction else TypeError
      ensures res.Ok? ==> res.value == this
      ensures res.Ok? ==> comparators == IsArray(old(comparators).elements + [Directed(comparator.fn, descending)])
      ensures res.Ok? ==> BreaksTiesWith(comparators.elements, old(comparators).elements, Directed(comparator.fn, descending))
      ensures unchanged(data)
    {
      if CheckFunction(comparator).Fail? {
        return Err(NotAFunction);
      }
      var rule := comparator.fn;
      if descending {
        rule := NegateComparator(comparator).value;
      }
      if comparators.NotArray? {
        return Err(TypeError);
      }
      AppendBreaksTies(comparators.elements, rule);
      comparators := IsArray(comparators.elements + [rule]);
      return Ok(this);
    }

    /** `thenByAscending(comparator)`. */
    method ThenByAscending(comparator: FnArg<Comparator<Record>>) returns (res: Result<FluentSortArray>)
      modifies this
      ensures res.Ok? <==> comparator.IsFunction? && old(comparators).IsArray?
      ensures res.Err? ==> comparators == old(comparators)
      ensures res.Err? ==> res.error == if comparator.NotFunction? then NotAFunction else TypeError
      ensures res.Ok? ==> res.value == this && comparators == IsArray(old(comparators).elements + [comparator.fn])
      ensures unchanged(data)
    {
      res := ThenBy(comparator, false);
    }

    /** `thenByDescending(comparator)`. */
    method ThenByDescending(comparator: FnArg<Comparator<Record>>) returns (res: Result<FluentSortArray>)
      modifies this
      ensures res.Ok? <==> comparator.IsFunction? && old(comparators).IsArray?
      ensures res.Err? ==> comparators == old(comparators)
      ensures res.Err? ==> res.error == if comparator.NotFunction? then NotAFunction else TypeError
      ensures res.Ok? ==> res.value == this && comparators == IsArray(old(comparators).elements + [Negated(comparator.fn)])
      ensures unchanged(data)
    {
      res := ThenBy(comparator, true);
    }

    /** `thenByField(selector, descending)`. */
    method ThenByField(selector: SelectorArg, descending: bool) returns (res: Result<FluentSortArray>)
      modifies this
      ensures res.Ok? <==> !selector.NotSelector? && old(comparators).IsArray?
      ensures res.Err? ==> comparators == old(comparators)
      ensures res.Err? ==> res.error == if selector.NotSelector? then NotASelector else TypeError
      ensures res.Ok? ==> res.value == this
      ensures res.Ok? ==>
        comparators == IsArray(old(comparators).elements + [Directed(SelectorToComparator(selector).value, descending)])
      ensures res.Ok? ==>
        BreaksTiesWith(comparators.elements, old(comparators).elements, Directed(SelectorToComparator(selector).value, descending))
      ensures unchanged(data)
    {
      var adapted := SelectorToComparator(selector);
      if adapted.Err? {
        return Err(adapted.error);
      }
      res := ThenBy(IsFunction(adapted.value), descending);
    }

    /** `thenByFieldAscending(selector)`: as written it passes `descending = true`,
        so it appends the negated selector comparator, exactly as
        `thenByFieldDescending` does. */
    method ThenByFieldAscending(selector: SelectorArg) returns (res: Result<FluentSortArray>)
      modifies this
      ensures res.Ok? <==> !selector.NotSelector? && old(comparators).IsArray?
      ensures res.Err? ==> comparators == old(comparators)
      ensures res.Err? ==> res.error == if selector.NotSelector? then NotASelector else TypeError
      ensures res.Ok? ==> res.value == this
      ensures res.Ok? ==> comparators == IsArray(old(comparators).elements + [Negated(SelectorToComparator(selector).value)])
      ensures unchanged(data)
    {
      res := ThenByField(selector, true);
    }

    /** `thenByFieldAscending` as its name promises: appends the selector
        comparator itself, so a tie of the earlier rules is broken by the smaller key. */
    method ThenByFieldAscendingCorrected(selector: SelectorArg) returns (res: Result<FluentSortArray>)
      modifies this
      ensures res.Ok? <==> !selector.NotSelector? && old(comparators).IsArray?
      ensures res.Err? ==> comparators == old(comparators)
      ensures res.Err? ==> res.error == if selector.NotSelector? then NotASelector else TypeError
      ensures res.Ok? ==> res.value == this
      ensures res.Ok? ==> comparators == IsArray(old(comparators).elements + [SelectorToComparator(selector).value])
      ensures res.Ok? ==> BreaksTiesWith(comparators.elements, old(comparators).elements, SelectorToComparator(selector).value)
      ensures unchanged(data)
    {
      res := ThenByField(selector, false);
    }

    /** `thenByFieldDescending(selector)`. */
    method ThenByFieldDescending(selector: SelectorArg) returns (res: Result<FluentSortArray>)
      modifies this
      ensures res.Ok? <==> !selector.NotSelector? && old(comparators).IsArray?
      ensures res.Err? ==> comparators == old(comparators)
      ensures res.Err? ==> res.error == if selector.NotSelector? then NotASelector else TypeError
      ensures res.Ok? ==> res.value == this
      ensures res.Ok? ==> comparators == IsArray(old(comparators).elements + [Negated(SelectorToComparator(selector).value)])
      ensures unchanged(data)
    {
      res := ThenByField(selector, true);
    }

    /** `result()`: composes the rules (failing on a non-array or empty list before
        touching the array) and sorts the caller's array in place. */
    method Result() returns (res: Result<array<Record>>)
      modifies data
      ensures res.Ok? <==> comparators.IsArray? && |comparators.elements| > 0
      ensures res.Err? ==> res.error == (if comparators.NotArray? then NotAnArray else NoComparators)
      ensures res.Err? ==> data[..] == old(data[..])
      ensures res.Ok? ==> res.value == data && multiset(data[..]) == multiset(old(data[..]))
      ensures res.Ok? && TotalPreorderOn(Composed(comparators.elements), old(data[..]))
              ==> SortedBy(Composed(comparators.elements), data[..])
      ensures res.Ok? && TotalPreorderOn(Composed(comparators.elements), old(data[..])) && SortedBy(Composed(comparators.elements), old(data[..]))
              ==> data[..] == old(data[..])
    {
      var composed := ComposeSort(comparators);
      if composed.Err? {
        return Err(composed.error);
      }
      Sorting.InsertionSort(data, composed.value);
      return Ok(data);
    }
  }

  /** `withFluentSorting(arr)`: rejects a non-array; otherwise attaches an empty
      rule list to the caller's array and hands back that same array. */
  method WithFluentSorting(arr: ArrayArg<array<Record>>) returns (res: Result<FluentSortArray>)
    ensures res.Ok? <==> arr.IsArray?
    ensures res.Err? ==> res.error == NotAnArray
    ensures res.Ok? ==> fresh(res.value) && res.value.data == arr.elements && res.value.comparators == IsArray([])
  {
    if CheckArray(arr).Fail? {
      return Err(NotAnArray);
    }
    var wrapper := new FluentSortArray(arr.elements);
    return Ok(wrapper);
  }

  /** The rule `thenByFieldAscending` appends puts an element with the smaller key
      after one with the larger key: it sorts that key descending. */
  lemma ThenByFieldAscendingSortsDescending(key: Record -> Key, l: Record, r: Record)
    requires KeyLess(key(l), key(r))
    ensures Directed(SelectorToComparator(KeyFunction(key)).value, true)(l, r) > 0
  {
    KeyComparatorThreeWay(key, l, r);
  }

  /** The rule the corrected `thenByFieldAscending` appends puts the element with
      the smaller key first. */
  lemma ThenByFieldAscendingCorrectedSortsAscending(key: Record -> Key, l: Record, r: Record)
    requires KeyLess(key(l), key(r))
    ensures Directed(SelectorToComparator(KeyFunction(key)).value, false)(l, r) < 0
  {
    KeyComparatorThreeWay(key, l, r);
  }
}
