/** The builder of src/fluent-sort.js. `fluentSort(arr)` gives an
    `OrderableInitiator`; `sortBy*` on it and `thenBy*` on an `Orderable` return
    new `Orderable`s. Each of them holds a reference to the caller's array (never a
    copy) and a rule list of its own. `result` sorts a copy; `sortInPlace` sorts the
    shared array, which every `Orderable` built from the same call sees.
    Its `composeSort` and `negateComparator` are line for line those of
    src/utils/index.js and are modelled by `Utils.ComposeSort` and
    `Utils.NegateComparator`; only its `selectorToComparator` differs. */
module Orderables {
  import opened Values
  import opened Comparators
  import Utils
  import Sorting

  /** This file's `selectorToComparator`: a string becomes a field lookup, a function
      is used as the key; anything else fails the function check. */
  function SelectorToComparator(fieldSelector: SelectorArg): (res: Result<Comparator<Record>>)
    ensures res.Ok? <==> !fieldSelector.NotSelector?
    ensures res.Err? ==> res.error == NotAFunction
    ensures res.Ok? ==> forall l, r :: res.value(l, r) == Utils.SelectorToComparator(fieldSelector).value(l, r)
  {
    match fieldSelector
    case FieldName(name) => Ok(Utils.KeyComparator(Utils.FieldKey(name)))
    case KeyFunction(key) => Ok(Utils.KeyComparator(key))
    case NotSelector => Err(NotAFunction)
  }

  datatype Orderable = Orderable(data: array<Record>, sortComparators: seq<Comparator<Record>>) {

    /** `thenBy(comparator)`: a new `Orderable` on the same array whose rules are
        the receiver's followed by `comparator`. */
    function ThenBy(comparator: FnArg<Comparator<Record>>): (res: Result<Orderable>)
      ensures res.Ok? <==> comparator.IsFunction?
      ensures res.Err? ==> res.error == NotAFunction
      ensures res.Ok? ==> res.value.data == data && res.value.sortComparators == sortComparators + [comparator.fn]
      ensures res.Ok? ==> Utils.BreaksTiesWith(res.value.sortComparators, sortComparators, comparator.fn)
    {
      if Utils.CheckFunction(comparator).Fail? then Err(NotAFunction)
      else
        var res := NewOrderable(IsArray(data), IsArray(AsFunctionArgs(sortComparators) + [comparator]));
        assert res.value.sortComparators == sortComparators + [comparator.fn];
        Utils.AppendBreaksTies(sortComparators, comparator.fn);
        res
    }

    /** `thenByDescending(comparator)`: appends the negated comparator. */
    function ThenByDescending(comparator: FnArg<Comparator<Record>>): (res: Result<Orderable>)
      ensures res.Ok? <==> comparator.IsFunction?
      ensures res.Err? ==> res.error == NotAFunction
      ensures res.Ok? ==> res.value.data == data && res.value.sortComparators == sortComparators + [Utils.Negated(comparator.fn)]
    {
      var negated := Utils.NegateComparator(comparator);
      if negated.Err? then Err(negated.error)
      else ThenBy(IsFunction(negated.value))
    }

    /** `thenByField(selector)`: appends the selector comparator. */
    function ThenByField(selector: SelectorArg): (res: Result<Orderable>)
      ensures res.Ok? <==> !selector.NotSelector?
      ensures res.Err? ==> res.error == NotAFunction
      ensures res.Ok? ==> res.value.data == data
      ensures res.Ok? ==> res.value.sortComparators == sortComparators + [SelectorToComparator(selector).value]
    {
      var adapted := SelectorToComparator(selector);
      if adapted.Err? then Err(adapted.error)
      else ThenBy(IsFunction(adapted.value))
    }

    /** `thenByFieldDescending(selector)`: appends the negated selector comparator. */
    function ThenByFieldDescending(selector: SelectorArg): (res: Result<Orderable>)
      ensures res.Ok? <==> !selector.NotSelector?
      ensures res.Err? ==> res.error == NotAFunction
      ensures res.Ok? ==> res.value.data == data
      ensures res.Ok? ==> res.value.sortComparators == sortComparators + [Utils.Negated(SelectorToComparator(selector).value)]
    {
      var adapted := SelectorToComparator(selector);
      if adapted.Err? then Err(adapted.error)
      else ThenByDescending(IsFunction(adapted.value))
    }

    /** `result()`: sorts a copy of the shared array; the array keeps its order. */
    method Result() returns (res: Result<seq<Record>>)
      ensures res.Ok? <==> |sortComparators| > 0
      ensures res.Err? ==> res.error == NoComparators
      ensures res.Ok? ==> multiset(res.value) == multiset(data[..])
      ensures res.Ok? && TotalPreorderOn(Utils.Composed(sortComparators), data[..])
              ==> SortedBy(Utils.Composed(sortComparators), res.value)
      ensures res.Ok? && TotalPreorderOn(Utils.Composed(sortComparators), data[..]) && SortedBy(Utils.Composed(sortComparators), data[..])
              ==> res.value == data[..]
    {
      var resultArr := data[..];
      var composed := Utils.ComposeSort(IsArray(sortComparators));
      if composed.Err? {
        return Err(composed.error);
      }
      var sorted := Sorting.SortedCopy(resultArr, composed.value);
      return Ok(sorted);
    }

    /** `sortInPlace()`: sorts the shared array itself and returns it. */
    method SortInPlace() returns (res: Result<array<Record>>)
      modifies data
      ensures res.Ok? <==> |sortComparators| > 0
      ensures res.Err? ==> res.error == NoComparators && data[..] == old(data[..])
      ensures res.Ok? ==> res.value == data && multiset(data[..]) == multiset(old(data[..]))
      ensures res.Ok? && TotalPreorderOn(Utils.Composed(sortComparators), old(data[..]))
              ==> SortedBy(Utils.Composed(sortComparators), data[..])
      ensures res.Ok? && TotalPreorderOn(Utils.Composed(sortComparators), old(data[..])) && SortedBy(Utils.Composed(sortComparators), old(data[..]))
              ==> data[..] == old(data[..])
    {
      var composed := Utils.ComposeSort(IsArray(sortComparators));
      if composed.Err? {
        return Err(composed.error);
      }
      Sorting.InsertionSort(data, composed.value);
      return Ok(data);
    }
  }

  /** The `Orderable` constructor: the data must be an array, the rules an array,
      and every rule a function. */
  function NewOrderable(arr: ArrayArg<array<Record>>, comparators: ArrayArg<seq<FnArg<Comparator<Record>>>>): (res: Result<Orderable>)
    ensures res.Ok? <==> arr.IsArray? && comparators.IsArray?
                         && forall i :: 0 <= i < |comparators.elements| ==> comparators.elements[i].IsFunction?
    ensures arr.NotArray? || comparators.NotArray? ==> res.Err? && res.error == NotAnArray
    ensures arr.IsArray? && comparators.IsArray? && res.Err? ==> res.error == NotAFunction
    ensures res.Ok? ==> res.value.data == arr.elements && AsFunctionArgs(res.value.sortComparators) == comparators.elements
  {
    if Utils.CheckArray(arr).Fail? || Utils.CheckArray(comparators).Fail? then Err(NotAnArray)
    else if exists i :: 0 <= i < |comparators.elements| && comparators.elements[i].NotFunction? then Err(NotAFunction)
    else
      var cs := comparators.elements;
      var rules: seq<Comparator<Record>> := seq(|cs|, i requires 0 <= i < |cs| => cs[i].fn);
      assert AsFunctionArgs(rules) == cs;
      Ok(Orderable(arr.elements, rules))
  }

  datatype OrderableInitiator = OrderableInitiator(data: array<Record>) {

    /** `sortBy(comparator)`: an `Orderable` on the same array with the single rule
        `comparator`; the constructor's function check rejects a non-function. */
    function SortBy(comparator: FnArg<Comparator<Record>>): (res: Result<Orderable>)
      ensures res.Ok? <==> comparator.IsFunction?
      ensures res.Err? ==> res.error == NotAFunction
      ensures res.Ok? ==> res.value.data == data && res.value.sortComparators == [comparator.fn]
    {
      var res := NewOrderable(IsArray(data), IsArray([comparator]));
      assert [comparator][0] == comparator;
      assert res.Ok? ==> AsFunctionArgs(res.value.sortComparators) == [comparator];
      res
    }

    /** `sortByDescending(comparator)`: the single rule is the negated comparator. */
    function SortByDescending(comparator: FnArg<Comparator<Record>>): (res: Result<Orderable>)
      ensures res.Ok? <==> comparator.IsFunction?
      ensures res.Err? ==> res.error == NotAFunction
      ensures res.Ok? ==> res.value.data == data && res.value.sortComparators == [Utils.Negated(comparator.fn)]
    {
      var negated := Utils.NegateComparator(comparator);
      if negated.Err? then Err(negated.error)
      else SortBy(IsFunction(negated.value))
    }

    /** `sortByField(selector)`: the single rule is the selector comparator. */
    function SortByField(selector: SelectorArg): (res: Result<Orderable>)
      ensures res.Ok? <==> !selector.NotSelector?
      ensures res.Err? ==> res.error == NotAFunction
      ensures res.Ok? ==> res.value.data == data && res.value.sortComparators == [SelectorToComparator(selector).value]
    {
      var adapted := SelectorToComparator(selector);
      if adapted.Err? then Err(adapted.error)
      else SortBy(IsFunction(adapted.value))
    }

    /** `sortByFieldDescending(selector)`: the single rule is the negated selector comparator. */
    function SortByFieldDescending(selector: SelectorArg): (res: Result<Orderable>)
      ensures res.Ok? <==> !selector.NotSelector?
      ensures res.Err? ==> res.error == NotAFunction
      ensures res.Ok? ==> res.value.data == data
      ensures res.Ok? ==> res.value.sortComparators == [Utils.Negated(SelectorToComparator(selector).value)]
    {
      var adapted := SelectorToComparator(selector);
      if adapted.Err? then Err(adapted.error)
      else SortByDescending(IsFunction(adapted.value))
    }
  }

  /** The `OrderableInitiator` constructor: rejects a non-array. */
  function NewOrderableInitiator(arr: ArrayArg<array<Record>>): (res: Result<OrderableInitiator>)
    ensures res.Ok? <==> arr.IsArray?
    ensures res.Err? ==> res.error == NotAnArray
    ensures res.Ok? ==> res.value.data == arr.elements
  {
    if Utils.CheckArray(arr).Fail? then Err(NotAnArray)
    else Ok(OrderableInitiator(arr.elements))
  }

  /** `fluentSort(arr)`: checks for an array, then builds the initiator on that same array. */
  function FluentSort(arr: ArrayArg<array<Record>>): (res: Result<OrderableInitiator>)
    ensures res.Ok? <==> arr.IsArray?
    ensures res.Err? ==> res.error == NotAnArray
    ensures res.Ok? ==> res.value.data == arr.elements
  {
    if Utils.CheckArray(arr).Fail? then Err(NotAnArray)
    else NewOrderableInitiator(arr)
  }

  /** Every `Orderable` built by a chain of calls from `fluentSort(arr)` holds the
      caller's `arr` itself, so `sortInPlace` on any of them reorders `arr`. */
  lemma ChainSharesCallerArray(arr: array<Record>, c: FnArg<Comparator<Record>>, d: FnArg<Comparator<Record>>)
    requires c.IsFunction? && d.IsFunction?
    ensures FluentSort(IsArray(arr)).Ok?
    ensures FluentSort(IsArray(arr)).value.SortBy(c).Ok?
    ensures FluentSort(IsArray(arr)).value.SortBy(c).value.ThenBy(d).Ok?
    ensures FluentSort(IsArray(arr)).value.SortBy(c).value.ThenBy(d).value.data == arr
    ensures FluentSort(IsArray(arr)).value.SortBy(c).value.ThenBy(d).value.sortComparators == [c.fn, d.fn]
  {
  }

  /** Sorting in place through an `Orderable` derived from `fluentSort(arr)`
      reorders the caller's own array. */
  method SortInPlaceThroughChain(arr: array<Record>, c: Comparator<Record>, d: Comparator<Record>) returns (res: Result<array<Record>>)
    modifies arr
    ensures res.Ok? && res.value == arr
    ensures multiset(arr[..]) == multiset(old(arr[..]))
    ensures TotalPreorderOn(Utils.Composed([c, d]), old(arr[..])) ==> SortedBy(Utils.Composed([c, d]), arr[..])
  {
    var initiator := FluentSort(IsArray(arr)).value;
    var ordered := initiator.SortBy(IsFunction(c)).value.ThenBy(IsFunction(d)).value;
    assert ordered.sortComparators == [c, d];
    res := ordered.SortInPlace();
  }
}
