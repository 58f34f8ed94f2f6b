# fluent-sort in Dafny

fluent-sort is a multi-key sort builder for JavaScript arrays. A caller starts a
chain on an array, adds sort rules one at a time and then asks for the result:

- `sortBy*` installs the first rule;
- each `thenBy*` adds a rule consulted only when every earlier rule ties;
- `*Descending` variants negate a rule;
- `*Field` variants turn a key selector into a rule.

The composed comparator returns the verdict of the first rule that does not tie.

The repository holds three prototypes of the same engine, each modelled in its own module:

- src/index.js is a mutable builder that updates the caller's array and its rule list in place;
- src/pure.js is a persistent builder whose wrappers are values;
- src/fluent-sort.js and src/fluentSort.js are two persistent builders that share the caller's array.

All of them use the comparator primitives of src/utils/index.js. src/fluent-sort.js carries its own copy of them, and src/fluentSort.js has a fold-based variant.

Modules:

- `Values`: the JavaScript values the library receives, made explicit:
  - an argument that should be an array, a function or a selector is a tagged value that may be something else;
  - elements are records `map<string, int>`;
  - a key read from an element is `Option<int>`, where `None` is `undefined`;
  - `KeyLess` is JavaScript's `<` on such keys;
  - thrown exceptions are `Error` variants returned in a `Result`.
- `Comparators`: what a comparator is (`(T, T) -> int`), when it is a total preorder on some elements, when a sequence is ordered by it, and the uniqueness of an ordered arrangement under a strict order.
- `Sorting`: an in-place insertion sort standing in for the host's `Array.prototype.sort`. It is specified by what the executors rely on:
  - the result is a permutation of the input;
  - it is ordered whenever the comparator is a total preorder on the elements;
  - an input that is already ordered under a total preorder stays as it is, which is what a stable sort guarantees (ECMAScript requires `Array.prototype.sort` to be stable since its 2019 edition).
- `Utils`: src/utils/index.js, covering the argument guards, `composeSort` (first non-zero verdict), `negateComparator` and `selectorToComparator`, and the laws they satisfy. src/fluent-sort.js repeats `composeSort` and `negateComparator` line for line, so its module reuses these.
- `FluentSortArrays`: src/index.js as a class.
  - `data` is the caller's array itself.
  - `comparators` is the rule list, which callers may overwrite with a non-array.
  - Builder methods update `comparators` and return the same object.
  - `Result` sorts `data` in place.
- `PureFluentSort`: src/pure.js as a datatype whose builder functions return new wrappers. `SortedResult` sorts a copy. The module also proves the intelligence-then-agility test of the wrapper's test suite for the standalone builder (see "## Left out" on construction).
- `Orderables`: src/fluent-sort.js. `Orderable` and `OrderableInitiator` are values holding a reference to the caller's array. `Result` sorts a copy and `SortInPlace` sorts the shared array.
- `Iterables`: src/fluentSort.js, with the `reduce`-based `composeSort` (proved to agree with the loop-based one) and the strict-equality `selectorToComparator`.

A string selector is a single property lookup `x[name]` (src/utils/index.js:57-58, src/fluent-sort.js:64).

Scores such as 7.5 in the test data are not integers. The test scenario therefore stores every score doubled, which keeps every comparison as it was.

## Model

| member | source | states |
|---|---|---|
| Utils.CheckArray | src/utils/index.js:16-20 | passes exactly on an array, otherwise fails with "not an array" |
| Utils.CheckFunction | src/utils/index.js:22-26 | passes exactly on a function, otherwise fails with "not a function" |
| Utils.ScanFrom | src/utils/index.js:35-41 | the loop from rule `i` on yields 0 exactly when every remaining rule ties |
| Utils.ComposeSort | src/utils/index.js:28-43 | fails on a non-array and on an empty list; otherwise returns the comparator that answers the first non-zero verdict of the rules in order (`Composed`, whose meaning `ComposedFirstNonZero` states), which ties exactly when every rule ties |
| Utils.ComposedFirstNonZero | src/utils/index.js:35-39 | the composed comparator returns the verdict of the first rule that does not tie |
| Utils.ComposedZeroIff | src/utils/index.js:35-41 | the composed comparator returns 0 if and only if every rule returns 0 |
| Utils.ComposeSortSingle | src/utils/index.js:28-43 | composing a one-rule list gives that rule's verdict on every pair |
| Utils.AppendBreaksTies | src/utils/index.js:34-42 | appending a rule keeps every verdict of the earlier rules and decides only their ties, by the new rule |
| Utils.LexicographicPreorder | src/utils/index.js:35-39 | consulting one total preorder and falling back to another on ties gives a total preorder |
| Utils.ComposedPreorder | src/utils/index.js:34-42 | if every rule is a total preorder on the elements, so is the composed comparator, so the sort is well defined |
| Utils.NegateComparator | src/utils/index.js:45-51 | fails with `NotAFunction` on a non-function; otherwise the result is `Negated(comparator)`, the value `-1 * comparator(l, r)`, so it is negative exactly where the comparator is positive and zero exactly where it is zero |
| Utils.NegateInvolution | src/utils/index.js:45-51 | negating twice gives back the original comparator on every pair |
| Utils.NegatedPreorder | src/utils/index.js:48-50 | the negation of a total preorder is a total preorder |
| Utils.NegatedReverses | src/utils/index.js:48-50 | a sequence ordered by a total preorder, reversed, is ordered by its negation |
| Utils.SelectorToComparator | src/utils/index.js:53-71 | fails unless given a string or a function; otherwise returns the three-way key comparison (`KeyComparator`) on `x[name]` for a string and on the function's result for a function, which only answers -1, 0 or 1 and flips sign when its arguments are swapped |
| Utils.KeyComparatorSigns | src/utils/index.js:62-70 | the selector comparator lies in -1..1 and is antisymmetric for every key, absent ones included |
| Utils.FieldSelectorReadsField | src/utils/index.js:57-58 | a string selector compares like the key function reading that single field |
| Utils.KeyComparatorThreeWay | src/utils/index.js:62-70 | -1 exactly when the left key is below, 1 exactly when above, 0 when neither, and 0 on an element against itself |
| Utils.KeyComparatorPreorder | src/utils/index.js:62-70 | when every element has its key, the selector comparator is a total preorder |
| Utils.AbsentKeyBreaksPreorder | src/utils/index.js:63-69 | with a missing field the selector comparator is not transitive, shown on three concrete records |
| Sorting.InsertionSort | src/index.js:139 | the array ends as a permutation of its old contents, ordered when the comparator is a total preorder on them, and unchanged when they are already ordered under such a comparator |
| Sorting.SortedCopy | src/pure.js:93 | returns a permutation of the input, ordered when the comparator is a total preorder on it, and the input itself when it is already ordered under such a comparator |
| FluentSortArrays.WithFluentSorting | src/index.js:145-152 | fails on a non-array; otherwise a wrapper whose data is the caller's own array, with an empty rule list |
| FluentSortArrays.FluentSortArray.SortBy | src/index.js:19-27 | fails on a non-function before any change; otherwise the rule list is exactly the comparator (negated when descending), earlier rules are discarded, the same wrapper is returned and the array is untouched |
| FluentSortArrays.FluentSortArray.SortByAscending | src/index.js:34-36 | the rule list becomes exactly the comparator |
| FluentSortArrays.FluentSortArray.SortByDescending | src/index.js:43-45 | the rule list becomes exactly the negated comparator |
| FluentSortArrays.FluentSortArray.SortByField | src/index.js:52-54 | a non-selector fails before any change; otherwise the rule list is exactly the selector comparator, negated when descending |
| FluentSortArrays.FluentSortArray.SortByFieldAscending | src/index.js:61-63 | the rule list becomes exactly the selector comparator |
| FluentSortArrays.FluentSortArray.SortByFieldDescending | src/index.js:70-72 | the rule list becomes exactly the negated selector comparator |
| FluentSortArrays.FluentSortArray.ThenBy | src/index.js:79-87 | a non-function fails first and a non-array rule list fails on `push`, both without change; otherwise exactly one rule is appended, earlier rules are kept, the new rule only breaks their ties, and the same wrapper is returned |
| FluentSortArrays.FluentSortArray.ThenByAscending | src/index.js:94-96 | fails with `NotAFunction` on a non-function, else with `TypeError` when the rule list is not an array, leaving it unchanged; otherwise appends exactly the comparator |
| FluentSortArrays.FluentSortArray.ThenByDescending | src/index.js:103-105 | fails with `NotAFunction` on a non-function, else with `TypeError` when the rule list is not an array, leaving it unchanged; otherwise appends exactly the negated comparator |
| FluentSortArrays.FluentSortArray.ThenByField | src/index.js:112-114 | a non-selector fails before any change, then a non-array rule list fails; otherwise appends the selector comparator (negated when descending), which only breaks the earlier rules' ties |
| FluentSortArrays.FluentSortArray.ThenByFieldAscending | src/index.js:121-123 | fails with `NotASelector` on a non-selector, else with `TypeError` when the rule list is not an array, leaving it unchanged; as written, otherwise appends the negated selector comparator, exactly as `thenByFieldDescending` does |
| FluentSortArrays.ThenByFieldAscendingSortsDescending | src/index.js:121-123 | the rule `thenByFieldAscending` appends puts the element with the smaller key after the other one |
| FluentSortArrays.FluentSortArray.ThenByFieldAscendingCorrected | src/index.js:121-123 | fails with `NotASelector` on a non-selector, else with `TypeError` when the rule list is not an array, leaving it unchanged; corrected, otherwise appends the selector comparator itself, which only breaks the earlier rules' ties |
| FluentSortArrays.ThenByFieldAscendingCorrectedSortsAscending | src/index.js:121-123 | the rule the corrected method appends puts the element with the smaller key first |
| FluentSortArrays.FluentSortArray.ThenByFieldDescending | src/index.js:130-132 | fails with `NotASelector` on a non-selector, else with `TypeError` when the rule list is not an array, leaving it unchanged; otherwise appends exactly the negated selector comparator |
| FluentSortArrays.FluentSortArray.Result | src/index.js:138-142 | a non-array or empty rule list fails and leaves the array as it was; otherwise the caller's array is returned, holding a permutation of its old contents, ordered by the composed rules when they form a total preorder, and unchanged when already ordered under such rules |
| PureFluentSort.PureFluentSortArray.SortComparing | src/pure.js:14-21 | fails on a non-function; otherwise a new wrapper with the same elements whose only rule orders exactly as the comparator |
| PureFluentSort.PureFluentSortArray.ThenComparing | src/pure.js:23-30 | a non-function fails first, then a missing rule list; otherwise a new wrapper with the same elements, the receiver's rules and one more, which only breaks their ties |
| PureFluentSort.PureFluentSortArray.SortBy | src/pure.js:37-42 | fails on a non-selector; otherwise a new wrapper with the same elements and exactly the one selector rule |
| PureFluentSort.PureFluentSortArray.SortByDescending | src/pure.js:49-56 | fails on a non-selector; otherwise the one rule is the negated selector comparator |
| PureFluentSort.PureFluentSortArray.ThenBy | src/pure.js:63-71 | a missing rule list fails first (it is spread before the selector is adapted), then a non-selector; otherwise the receiver's rules followed by the selector rule, which only breaks their ties |
| PureFluentSort.PureFluentSortArray.ThenByDescending | src/pure.js:78-86 | as `ThenBy`, with the negated selector rule appended |
| PureFluentSort.PureFluentSortArray.SortedResult | src/pure.js:92-94 | fails with "not an array" on a missing rule list and with "no comparators" on an empty one; otherwise a permutation of the elements, ordered when the rules form a total preorder, equal to them when already ordered under such rules |
| PureFluentSort.SortByThenByOrder | src/pure.js:37-71 | after `sortBy(k1).thenBy(k2)`, a smaller first key comes first, equal first keys are ordered by the second key, and equal key pairs tie |
| PureFluentSort.ComposedTwoKeys | src/utils/index.js:35-41 | under "first key, then second key" two elements tie exactly when both keys tie, and the lexicographically smaller pair comes first |
| PureFluentSort.Monster | src/pure.test.js:5-52 | a monster record reads back the id, intelligence and agility it was built with |
| PureFluentSort.FieldNameRules | src/pure.js:37-71 | for field names `a` and `b`, the rules `sortBy(a).thenBy(b)` installs read field `a` and then field `b` |
| PureFluentSort.SortByThenByFields | src/pure.js:37-94 | `sortBy(a).thenBy(b).sortedResult()` on field names always succeeds with a permutation of the elements, ordered by field `a` and then field `b` whenever those rules form a total preorder on them |
| PureFluentSort.MonstersByIntelligenceThenAgility | src/pure.test.js:149-154 | the order the test expects is an arrangement of those six monsters |
| PureFluentSort.ExpectedScoresRead | src/pure.test.js:149-154 | along the expected order, the (intelligence, agility) pairs are (4,4), (10,20), (16,6), (16,10), (16,15), (30,15) in doubled units |
| PureFluentSort.ScoredPreorder | src/utils/index.js:35-41 | on any arrangement of records scored like the expected order, every record carries both keys, so "intelligence, then agility" is a total preorder there |
| PureFluentSort.ScoredStrictly | src/utils/index.js:35-41 | along records scored like the expected order, "intelligence, then agility" puts each record strictly before every later one and ties a record only with itself |
| PureFluentSort.OnlyOrder | src/pure.test.js:143-155 | every arrangement of those monsters ordered by intelligence, then agility, is the expected one |
| PureFluentSort.IntelligenceThenAgility | src/pure.test.js:143-155 | on a standalone wrapper of the six monsters, `sortBy("intelligence").thenBy("agility").sortedResult()` gives the unimpressive, fast, slow, strong, mediocre and smart monster, in that order |
| Orderables.SelectorToComparator | src/fluent-sort.js:59-80 | a string reads one field and a function is the key; anything else fails the function check; it compares exactly as the selector comparator of src/utils/index.js |
| Orderables.NewOrderable | src/fluent-sort.js:152-161 | succeeds exactly when the data and the rules are arrays and every rule is a function; non-arrays fail with "not an array", a non-function rule with "not a function"; the result holds the caller's array and exactly those rules |
| Orderables.Orderable.ThenBy | src/fluent-sort.js:92-96 | fails on a non-function; otherwise a new `Orderable` on the same array with the receiver's rules and one more, which only breaks their ties |
| Orderables.Orderable.ThenByDescending | src/fluent-sort.js:103-105 | appends the negated comparator |
| Orderables.Orderable.ThenByField | src/fluent-sort.js:112-114 | appends the selector comparator; a non-selector fails with "not a function" |
| Orderables.Orderable.ThenByFieldDescending | src/fluent-sort.js:121-123 | appends the negated selector comparator |
| Orderables.Orderable.Result | src/fluent-sort.js:129-135 | fails on an empty rule list; otherwise a permutation of the shared array, ordered when the rules form a total preorder; the array itself is not modified |
| Orderables.Orderable.SortInPlace | src/fluent-sort.js:141-145 | fails on an empty rule list and leaves the array as it was; otherwise the shared array is reordered into a permutation of itself, ordered when the rules form a total preorder, and returned |
| Orderables.OrderableInitiator.SortBy | src/fluent-sort.js:174-176 | the constructor rejects a non-function; otherwise an `Orderable` on the same array with exactly that rule |
| Orderables.OrderableInitiator.SortByDescending | src/fluent-sort.js:183-185 | the single rule is the negated comparator |
| Orderables.OrderableInitiator.SortByField | src/fluent-sort.js:192-194 | the single rule is the selector comparator |
| Orderables.OrderableInitiator.SortByFieldDescending | src/fluent-sort.js:201-203 | the single rule is the negated selector comparator |
| Orderables.NewOrderableInitiator | src/fluent-sort.js:209-215 | fails on a non-array; otherwise holds the caller's array |
| Orderables.FluentSort | src/fluent-sort.js:218-222 | fails on a non-array; otherwise an initiator on the caller's array |
| Orderables.ChainSharesCallerArray | src/fluent-sort.js:152-161 | an `Orderable` built by `fluentSort(arr).sortBy(c).thenBy(d)` holds `arr` itself and the rules `[c, d]` |
| Orderables.SortInPlaceThroughChain | src/fluent-sort.js:141-145 | `sortInPlace` through such a chain reorders the caller's own array into a permutation of itself, ordered when the rules form a total preorder |
| Iterables.ReduceAgreesWithScan | src/fluentSort.js:19-24 | the `reduce` fold passes a non-zero verdict along and otherwise gives the first-non-zero scan of src/utils/index.js |
| Iterables.ReducedIsComposed | src/fluentSort.js:19-24 | the fold-based comparator agrees with the loop-based one on every pair |
| Iterables.ComposeSort | src/fluentSort.js:13-25 | fails on a non-array and on an empty list; otherwise a comparator equal on every pair to the loop-based composition |
| Iterables.SelectorToComparator | src/fluentSort.js:35-47 | accepts only a function; returns the strict-equality comparison: where both keys are present it compares exactly as the selector comparator of src/utils/index.js, two absent keys tie, and one absent key makes it answer 1 in both orders |
| Iterables.StrictKeyComparatorPreorder | src/fluentSort.js:38-46 | when every element has its key, the strict selector comparator is a total preorder |
| Iterables.StrictKeyComparatorAbsentKey | src/fluentSort.js:42-45 | with a missing key it answers 1 in both orders, where the selector comparator of src/utils/index.js answers 0 |
| Iterables.SortedIterable.ThenBy | src/fluentSort.js:50-54 | fails on a non-function; otherwise a new `SortedIterable` on the same array with the receiver's rules and one more, which only breaks their ties |
| Iterables.SortedIterable.ThenByDescending | src/fluentSort.js:56-60 | fails on a non-function; otherwise appends the negated comparator |
| Iterables.SortedIterable.ThenByField | src/fluentSort.js:62-66 | fails unless the selector is a function; otherwise appends the strict selector comparator |
| Iterables.SortedIterable.ThenByFieldDescending | src/fluentSort.js:68-72 | fails unless the selector is a function; otherwise appends the negated strict selector comparator |
| Iterables.SortedIterable.Result | src/fluentSort.js:74-80 | fails on an empty rule list; otherwise a permutation of the shared array, ordered when the rules form a total preorder; the array is not modified |
| Iterables.SortedIterable.SortInPlace | src/fluentSort.js:82-86 | fails on an empty rule list and leaves the array as it was; otherwise reorders the shared array into a permutation of itself, ordered when the rules form a total preorder and kept as it is when already ordered under one, and returns it |
| Iterables.NewSortedIterable | src/fluentSort.js:88-97 | succeeds exactly when the data and the rules are arrays and every rule is a function, so `sortBy(true)` fails; the result holds the caller's array |
| Iterables.Iterable.SortBy | src/fluentSort.js:101-103 | the constructor rejects a non-function; otherwise a `SortedIterable` on the same array with exactly that rule |
| Iterables.Iterable.SortByDescending | src/fluentSort.js:105-107 | the single rule is the negated comparator |
| Iterables.Iterable.SortByField | src/fluentSort.js:109-111 | only a function selector is accepted; the single rule is the strict selector comparator |
| Iterables.Iterable.SortByFieldDescending | src/fluentSort.js:113-115 | the single rule is the negated strict selector comparator |
| Iterables.NewIterable | src/fluentSort.js:117-123 | fails on a non-array; otherwise holds the caller's array |
| Iterables.FluentSort | src/fluentSort.js:126-130 | fails on a non-array; otherwise an `Iterable` on the caller's array |

## Findings

| source | as written | input that shows it | evidently intended | confidence | as-written member | corrected member |
|---|---|---|---|---|---|---|
| src/index.js:121-123 | `thenByFieldAscending` calls `thenByField(selector, true)`, so it appends the negated selector comparator, as `thenByFieldDescending` does | two elements tied by the earlier rules whose keys are 1 and 2: the appended rule puts the element with key 2 first | `thenByField(selector, false)`: the selector comparator itself, smaller key first | not executed; the name says ascending, while the doc comment above it says descending | FluentSortArrays.FluentSortArray.ThenByFieldAscending, FluentSortArrays.ThenByFieldAscendingSortsDescending | FluentSortArrays.FluentSortArray.ThenByFieldAscendingCorrected, FluentSortArrays.ThenByFieldAscendingCorrectedSortsAscending |

## Left out

- The host sort algorithm: `Array.prototype.sort` is the platform's own, so its stability and complexity are not modelled. An insertion sort stands in for it. The executors are specified by what holds of any conforming host sort: the result is a permutation; it is ordered when the comparator is a total preorder; and, by stability, an input already ordered under a total preorder is left as it is. Under a comparator that is not a total preorder the model promises nothing beyond the permutation, since the host's order is then implementation-defined.
- Sorting.InsertionSort: the order it promises holds only when the composed comparator is a total preorder on the elements, because the library never checks the comparator and a host sort under an inconsistent one has no defined result.
- Floating-point keys, `NaN` and non-numeric keys: keys are integers or absent, because integer keys give the comparator laws their meaning. The test fixture stores its scores doubled.
- A key of any type other than an integer, and a two-argument function passed where a selector is expected: selectors are modelled as functions from a record to an integer key.
- JavaScript object machinery: `__proto__` reassignment and prototype lookup. `withFluentSorting` is modelled as a fresh wrapper around the caller's array, and a pure wrapper holds its elements as a sequence.
- The methods src/pure.js would inherit (`sortByField*`, `thenByField*`, `result`, the two-argument `sortBy`): src/pure.js extends the default export of src/index.js, which is the function `withFluentSorting` rather than the class `FluentSortArray`. The pure builder is modelled standalone, with only the methods the file declares, and its construction through that function is not modelled. As written, the implicit super call of `new PureFluentSortArray(...xs)` runs `withFluentSorting(xs[0])`: for a record element that throws "not an array" (src/index.js:146), and for an array element it yields that array with `__comparators = []`, not a wrapper of `xs`. So the standalone builder the model describes, and the test scenario proved about it, are what src/pure.js declares its methods to do, not what its constructor produces.
- Rule lists holding non-functions after construction: a caller can overwrite a field with an arbitrary array. For `FluentSortArrays` and `PureFluentSort` only the whole rule list being replaced by a non-array is modelled. `Orderable` and `SortedIterable` expose `data` and `sortComparators` as public fields (src/fluent-sort.js, src/fluentSort.js), but the model holds them as an array reference and a sequence of functions that callers cannot replace, so reassigning either field is not modelled.
- Error message text: errors are variants.
- Methods the tests call that the sources do not declare (`executeCompositeSort`, `.descending()`, `fromArray`, `makeFluent`): they do not exist in the modelled code.
- demo.js, src/blah.js, the build configuration and the test runner: scripts and tooling, not part of the engine.
