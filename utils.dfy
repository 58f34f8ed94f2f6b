/** The comparator primitives of src/utils/index.js, shared by the mutable
    builder (src/index.js) and the pure builder (src/pure.js). */
module Utils {
  import opened Values
  import opened Comparators

  /** `checkArray`: passes on an array, throws on anything else. */
  function CheckArray<A>(v: ArrayArg<A>): (c: Check)
    ensures c.Pass? <==> v.IsArray?
    ensures c.Fail? ==> c.error == NotAnArray
  {
    if v.IsArray? then Pass else Fail(NotAnArray)
  }

  /** `checkFunction`: passes on a function, throws on anything else. */
  function CheckFunction<F>(v: FnArg<F>): (c: Check)
    ensures c.Pass? <==> v.IsFunction?
    ensures c.Fail? ==> c.error == NotAFunction
  {
    if v.IsFunction? then Pass else Fail(NotAFunction)
  }

  /** The loop of the composed comparator, from index `i` on: the verdict of the
      first rule that does not tie, 0 when every remaining rule ties. */
  function ScanFrom<T>(rules: seq<Comparator<T>>, l: T, r: T, i: nat): (v: int)
    decreases |rules| - i
    ensures v == 0 <==> forall j :: i <= j < |rules| ==> rules[j](l, r) == 0
  {
    if i >= |rules| then 0
    else if rules[i](l, r) != 0 then rules[i](l, r)
    else ScanFrom(rules, l, r, i + 1)
  }

  /** The comparator `composeSort` returns for a rule list. */
  function Composed<T>(rules: seq<Comparator<T>>): Comparator<T> {
    (l, r) => ScanFrom(rules, l, r, 0)
  }

  /** `composeSort`: rejects a non-array and an empty list, otherwise returns the
      comparator that scans the rules in priority order. */
  function ComposeSort<T(!new)>(comparators: ArrayArg<seq<Comparator<T>>>): (res: Result<Comparator<T>>)
    ensures res.Ok? <==> comparators.IsArray? && |comparators.elements| > 0
    ensures comparators.NotArray? ==> res.Err? && res.error == NotAnArray
    ensures comparators.IsArray? && |comparators.elements| == 0 ==> res.Err? && res.error == NoComparators
    ensures res.Ok? ==> forall l, r :: res.value(l, r) == 0 <==> AllTie(comparators.elements, l, r)
    ensures res.Ok? ==> res.value == Composed(comparators.elements)
  {
    if CheckArray(comparators).Fail? then Err(NotAnArray)
    else if |comparators.elements| == 0 then Err(NoComparators)
    else Ok(Composed(comparators.elements))
  }

  /** The comparator `negateComparator` returns. */
  function Negated<T>(c: Comparator<T>): Comparator<T> {
    (l, r) => -1 * c(l, r)
  }

  /** `negateComparator`: rejects a non-function, otherwise flips the comparator. */
  function NegateComparator<T(!new)>(comparator: FnArg<Comparator<T>>): (res: Result<Comparator<T>>)
    ensures res.Ok? <==> comparator.IsFunction?
    ensures res.Err? ==> res.error == NotAFunction
    ensures res.Ok? ==> forall l, r :: res.value(l, r) < 0 <==> comparator.fn(l, r) > 0
    ensures res.Ok? ==> forall l, r :: res.value(l, r) == 0 <==> comparator.fn(l, r) == 0
    ensures res.Ok? ==> res.value == Negated(comparator.fn)
  {
    if CheckFunction(comparator).Fail? then Err(NotAFunction)
    else Ok(Negated(comparator.fn))
  }

  /** The comparator `selectorToComparator` builds from a key function:
      -1 when the left key is below the right one, 1 when above, 0 otherwise. */
  function KeyComparator(key: Record -> Key): Comparator<Record> {
    (l, r) => if KeyLess(key(l), key(r)) then -1 else if KeyLess(key(r), key(l)) then 1 else 0
  }

  /** The key function a string selector stands for: the single lookup `x[name]`. */
  function FieldKey(name: string): Record -> Key {
    x => Field(x, name)
  }

  /** `selectorToComparator`: a string reads one field, a function is the key
      itself, anything else is rejected. */
  function SelectorToComparator(fieldSelector: SelectorArg): (res: Result<Comparator<Record>>)
    ensures res.Ok? <==> !fieldSelector.NotSelector?
    ensures res.Err? ==> res.error == NotASelector
    ensures res.Ok? ==> forall l, r :: -1 <= res.value(l, r) <= 1
    ensures res.Ok? ==> forall l, r :: res.value(l, r) == -res.value(r, l)
    ensures res.Ok? ==>
      res.value == KeyComparator(if fieldSelector.FieldName? then FieldKey(fieldSelector.name) else fieldSelector.key)
  {
    match fieldSelector
    case NotSelector => Err(NotASelector)
    case FieldName(name) => KeyComparatorSigns(FieldKey(name)); Ok(KeyComparator(FieldKey(name)))
    case KeyFunction(key) => KeyComparatorSigns(key); Ok(KeyComparator(key))
  }

  // ---------------------------------------------------------------------------
  // The composed comparator

  lemma {:induction false} ScanFromReachesDecider<T>(rules: seq<Comparator<T>>, l: T, r: T, k: nat, i: int)
    requires Decides(rules, l, r, i) && k <= i
    ensures ScanFrom(rules, l, r, k) == rules[i](l, r)
    decreases i - k
  {
    if k < i {
      ScanFromReachesDecider(rules, l, r, k + 1, i);
    }
  }

  /** The composed comparator returns the verdict of the first rule that does not tie. */
  lemma ComposedFirstNonZero<T>(rules: seq<Comparator<T>>, l: T, r: T, i: int)
    requires Decides(rules, l, r, i)
    ensures Composed(rules)(l, r) == rules[i](l, r)
  {
    ScanFromReachesDecider(rules, l, r, 0, i);
  }

  /** The composed comparator ties exactly when every rule ties. */
  lemma ComposedZeroIff<T>(rules: seq<Comparator<T>>, l: T, r: T)
    ensures Composed(rules)(l, r) == 0 <==> AllTie(rules, l, r)
  {
  }

  /** Composing one rule gives back that rule. */
  lemma ComposeSortSingle<T(!new)>(c: Comparator<T>, l: T, r: T)
    ensures ComposeSort(IsArray([c])).Ok?
    ensures ComposeSort(IsArray([c])).value(l, r) == c(l, r)
  {
  }

  lemma {:induction false} ScanFromAppend<T>(rules: seq<Comparator<T>>, c: Comparator<T>, l: T, r: T, k: nat)
    requires k <= |rules|
    ensures ScanFrom(rules + [c], l, r, k)
         == if ScanFrom(rules, l, r, k) != 0 then ScanFrom(rules, l, r, k) else c(l, r)
    decreases |rules| - k
  {
    if k < |rules| {
      assert (rules + [c])[k] == rules[k];
      ScanFromAppend(rules, c, l, r, k + 1);
    } else {
      assert (rules + [c])[k] == c;
    }
  }

  /** `after` orders like `before` wherever `before` decides, and falls back to
      `c` exactly where every rule of `before` ties: the meaning of a `thenBy`. */
  ghost predicate BreaksTiesWith<T(!new)>(after: seq<Comparator<T>>, before: seq<Comparator<T>>, c: Comparator<T>) {
    forall l, r :: ScanFrom(after, l, r, 0)
                == if ScanFrom(before, l, r, 0) != 0 then ScanFrom(before, l, r, 0) else c(l, r)
  }

  /** Appending a rule only breaks the ties of the rules before it. */
  lemma AppendBreaksTies<T(!new)>(rules: seq<Comparator<T>>, c: Comparator<T>)
    ensures BreaksTiesWith(rules + [c], rules, c)
  {
    forall l, r {
      ScanFromAppend(rules, c, l, r, 0);
    }
  }

  /** If `e` consults `c` first and `d` on a tie, and both are total preorders on
      `xs`, so is `e`: lexicographic combination keeps the comparator laws. */
  lemma LexicographicPreorder<T>(c: Comparator<T>, d: Comparator<T>, e: Comparator<T>, xs: seq<T>)
    requires TotalPreorderOn(c, xs) && TotalPreorderOn(d, xs)
    requires forall x, y | x in xs && y in xs :: e(x, y) == if c(x, y) != 0 then c(x, y) else d(x, y)
    ensures TotalPreorderOn(e, xs)
  {
    forall x, y, z | x in xs && y in xs && z in xs && e(x, y) <= 0 && e(y, z) <= 0
      ensures e(x, z) <= 0
    {
      assert c(x, y) <= 0 && c(y, z) <= 0;
      assert c(x, z) <= 0;
      if c(x, z) == 0 {
        assert c(z, x) == 0;
      }
    }
  }

  lemma {:induction false} SuffixPreorder<T>(rules: seq<Comparator<T>>, xs: seq<T>, k: nat)
    requires forall i :: 0 <= i < |rules| ==> TotalPreorderOn(rules[i], xs)
    ensures TotalPreorderOn((l, r) => ScanFrom(rules, l, r, k), xs)
    decreases |rules| - k
  {
    if k < |rules| {
      SuffixPreorder(rules, xs, k + 1);
      LexicographicPreorder(rules[k], (l, r) => ScanFrom(rules, l, r, k + 1), (l, r) => ScanFrom(rules, l, r, k), xs);
    }
  }

  /** Composing rules that are each a total preorder on the elements gives a total
      preorder, so the executors' sort is well defined. */
  lemma ComposedPreorder<T>(rules: seq<Comparator<T>>, xs: seq<T>)
    requires forall i :: 0 <= i < |rules| ==> TotalPreorderOn(rules[i], xs)
    ensures TotalPreorderOn(Composed(rules), xs)
  {
    SuffixPreorder(rules, xs, 0);
  }

  // ---------------------------------------------------------------------------
  // Negation

  /** Negating twice gives back the original comparator. */
  lemma NegateInvolution<T(!new)>(c: Comparator<T>, l: T, r: T)
    ensures NegateComparator(IsFunction(c)).Ok?
    ensures NegateComparator(IsFunction(NegateComparator(IsFunction(c)).value)).Ok?
    ensures NegateComparator(IsFunction(NegateComparator(IsFunction(c)).value)).value(l, r) == c(l, r)
  {
  }

  /** The negation of a total preorder is a total preorder (the reverse one). */
  lemma NegatedPreorder<T>(c: Comparator<T>, xs: seq<T>)
    requires TotalPreorderOn(c, xs)
    ensures TotalPreorderOn(Negated(c), xs)
  {
    var n := Negated(c);
    forall x, y, z | x in xs && y in xs && z in xs && n(x, y) <= 0 && n(y, z) <= 0
      ensures n(x, z) <= 0
    {
      assert c(y, x) <= 0 && c(z, y) <= 0;
    }
  }

  /** A sequence ordered by a comparator is ordered by its negation when reversed. */
  lemma NegatedReverses<T>(c: Comparator<T>, xs: seq<T>)
    requires TotalPreorderOn(c, xs) && SortedBy(c, xs)
    ensures SortedBy(Negated(c), seq(|xs|, k requires 0 <= k < |xs| => xs[|xs| - 1 - k]))
  {
    var ys := seq(|xs|, k requires 0 <= k < |xs| => xs[|xs| - 1 - k]);
    forall i, j | 0 <= i < j < |ys|
      ensures Negated(c)(ys[i], ys[j]) <= 0
    {
      var p, q := |xs| - 1 - j, |xs| - 1 - i;
      assert xs[p] in xs && xs[q] in xs;
      assert c(xs[p], xs[q]) <= 0;
    }
  }

  // ---------------------------------------------------------------------------
  // Selectors

  /** The selector comparator only answers -1, 0 or 1, and swapping its arguments
      flips its sign, whatever the keys are (absent ones included). */
  lemma KeyComparatorSigns(key: Record -> Key)
    ensures forall l, r :: -1 <= KeyComparator(key)(l, r) <= 1
    ensures forall l, r :: KeyComparator(key)(l, r) == -KeyComparator(key)(r, l)
  {
    forall l, r
      ensures KeyComparator(key)(l, r) == -KeyComparator(key)(r, l)
    {
      var a, b := key(l), key(r);
      assert KeyLess(a, b) ==> !KeyLess(b, a);
    }
  }

  /** A string selector is the key function reading that one field. */
  lemma FieldSelectorReadsField(name: string, l: Record, r: Record)
    ensures SelectorToComparator(FieldName(name)).Ok?
    ensures SelectorToComparator(FieldName(name)).value(l, r)
         == SelectorToComparator(KeyFunction(x => Field(x, name))).value(l, r)
  {
  }

  /** The selector comparator puts the smaller key first, the larger key last, and
      ties on keys that are equal or not comparable. */
  lemma KeyComparatorThreeWay(key: Record -> Key, l: Record, r: Record)
    ensures KeyComparator(key)(l, r) == -1 <==> KeyLess(key(l), key(r))
    ensures KeyComparator(key)(l, r) == 1 <==> KeyLess(key(r), key(l))
    ensures KeyComparator(key)(l, r) == 0 <==> !KeyLess(key(l), key(r)) && !KeyLess(key(r), key(l))
    ensures KeyComparator(key)(l, l) == 0
  {
  }

  /** When every element has its key, the selector comparator is a total preorder. */
  lemma KeyComparatorPreorder(key: Record -> Key, xs: seq<Record>)
    requires forall x | x in xs :: key(x).Some?
    ensures TotalPreorderOn(KeyComparator(key), xs)
  {
  }

  /** A missing field ties with everything, so with absent keys the selector
      comparator is not transitive: 1 ties with `undefined`, `undefined` ties
      with 0, yet 1 comes after 0. */
  lemma AbsentKeyBreaksPreorder()
    ensures !TotalPreorderOn(KeyComparator(FieldKey("f")), [map["f" := 1], map[], map["f" := 0]])
  {
    var c := KeyComparator(FieldKey("f"));
    var xs: seq<Record> := [map["f" := 1], map[], map["f" := 0]];
    assert xs[0] in xs && xs[1] in xs && xs[2] in xs;
    var k := FieldKey("f");
    assert k(xs[0]) == Some(1) && k(xs[1]) == None && k(xs[2]) == Some(0);
    assert c(xs[0], xs[1]) == 0 && c(xs[1], xs[2]) == 0 && c(xs[0], xs[2]) == 1;
  }
}
