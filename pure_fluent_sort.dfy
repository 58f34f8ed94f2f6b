/** The persistent builder of src/pure.js, modelled standalone. Every rule-adding
    call builds a new wrapper from a copy of the receiver's elements and a new rule
    list; the receiver is a value and never changes. A standalone wrapper made from
    elements alone has no rule list yet (`__comparators` is `undefined`), which the
    model keeps as `NotArray`. */
module PureFluentSort {
  import opened Values
  import opened Comparators
  import opened Utils
  import Sorting

  datatype PureFluentSortArray = PureFluentSortArray(items: seq<Record>, comparators: ArrayArg<seq<Comparator<Record>>>) {

    /** `sortComparing(comparator)`: a new wrapper whose only rule is `comparator`. */
    function SortComparing(comparator: FnArg<Comparator<Record>>): (res: Result<PureFluentSortArray>)
      ensures res.Ok? <==> comparator.IsFunction?
      ensures res.Err? ==> res.error == NotAFunction
      ensures res.Ok? ==> res.value.items == items && res.value.comparators == IsArray([comparator.fn])
      ensures res.Ok? ==> forall l, r :: Composed(res.value.comparators.elements)(l, r) == comparator.fn(l, r)
    {
      if CheckFunction(comparator).Fail? then Err(NotAFunction)
      else Ok(PureFluentSortArray(items, IsArray([comparator.fn])))
    }

    /** `thenComparing(comparator)`: a new wrapper whose rules are the receiver's
        followed by `comparator`. Spreading a rule list that is not an array fails. */
    function ThenComparing(comparator: FnArg<Comparator<Record>>): (res: Result<PureFluentSortArray>)
      ensures res.Ok? <==> comparator.IsFunction? && comparators.IsArray?
      ensures res.Err? ==> res.error == if comparator.NotFunction? then NotAFunction else TypeError
      ensures res.Ok? ==> res.value.items == items
      ensures res.Ok? ==> res.value.comparators == IsArray(comparators.elements + [comparator.fn])
      ensures res.Ok? ==> BreaksTiesWith(res.value.comparators.elements, comparators.elements, comparator.fn)
    {
      if CheckFunction(comparator).Fail? then Err(NotAFunction)
      else if comparators.NotArray? then Err(TypeError)
      else
        AppendBreaksTies(comparators.elements, comparator.fn);
        Ok(PureFluentSortArray(items, IsArray(comparators.elements + [comparator.fn])))
    }

    /** `sortBy(selector)`: a new wrapper whose only rule is the selector comparator. */
    function SortBy(selector: SelectorArg): (res: Result<PureFluentSortArray>)
      ensures res.Ok? <==> !selector.NotSelector?
      ensures res.Err? ==> res.error == NotASelector
      ensures res.Ok? ==> res.value.items == items
      ensures res.Ok? ==> res.value.comparators == IsArray([SelectorToComparator(selector).value])
    {
      var adapted := SelectorToComparator(selector);
      if adapted.Err? then Err(adapted.error)
      else Ok(PureFluentSortArray(items, IsArray([adapted.value])))
    }

    /** `sortByDescending(selector)`: the only rule is the negated selector comparator. */
    function SortByDescending(selector: SelectorArg): (res: Result<PureFluentSortArray>)
      ensures res.Ok? <==> !selector.NotSelector?
      ensures res.Err? ==> res.error == NotASelector
      ensures res.Ok? ==> res.value.items == items
      ensures res.Ok? ==> res.value.comparators == IsArray([Negated(SelectorToComparator(selector).value)])
    {
      var adapted := SelectorToComparator(selector);
      if adapted.Err? then Err(adapted.error)
      else Ok(PureFluentSortArray(items, IsArray([NegateComparator(IsFunction(adapted.value)).value])))
    }

    /** `thenBy(selector)`: the receiver's rules followed by the selector comparator.
        The receiver's rule list is spread before the selector is adapted, so a
        missing rule list fails first. */
    function ThenBy(selector: SelectorArg): (res: Result<PureFluentSortArray>)
      ensures res.Ok? <==> comparators.IsArray? && !selector.NotSelector?
      ensures res.Err? ==> res.error == if comparators.NotArray? then TypeError else NotASelector
      ensures res.Ok? ==> res.value.items == items
      ensures res.Ok? ==>
        res.value.comparators == IsArray(comparators.elements + [SelectorToComparator(selector).value])
      ensures res.Ok? ==>
        BreaksTiesWith(res.value.comparators.elements, comparators.elements, SelectorToComparator(selector).value)
    {
      if comparators.NotArray? then Err(TypeError)
      else
        var adapted := SelectorToComparator(selector);
        if adapted.Err? then Err(adapted.error)
        else
          AppendBreaksTies(comparators.elements, adapted.value);
          Ok(PureFluentSortArray(items, IsArray(comparators.elements + [adapted.value])))
    }

    /** `thenByDescending(selector)`: the receiver's rules followed by the negated
        selector comparator. */
    function ThenByDescending(selector: SelectorArg): (res: Result<PureFluentSortArray>)
      ensures res.Ok? <==> comparators.IsArray? && !selector.NotSelector?
      ensures res.Err? ==> res.error == if comparators.NotArray? then TypeError else NotASelector
      ensures res.Ok? ==> res.value.items == items
      ensures res.Ok? ==>
        res.value.comparators == IsArray(comparators.elements + [Negated(SelectorToComparator(selector).value)])
      ensures res.Ok? ==>
        BreaksTiesWith(res.value.comparators.elements, comparators.elements, Negated(SelectorToComparator(selector).value))
    {
      if comparators.NotArray? then Err(TypeError)
      else
        var adapted := SelectorToComparator(selector);
        if adapted.Err? then Err(adapted.error)
        else
          var rule := NegateComparator(IsFunction(adapted.value)).value;
          AppendBreaksTies(comparators.elements, rule);
          Ok(PureFluentSortArray(items, IsArray(comparators.elements + [rule])))
    }

    /** `sortedResult()`: sorts a copy of the elements under the composed rules,
        failing on a missing or empty rule list; the wrapper keeps its own order. */
    method SortedResult() returns (res: Result<seq<Record>>)
      ensures res.Ok? <==> comparators.IsArray? && |comparators.elements| > 0
      ensures res.Err? ==> res.error == if comparators.NotArray? then NotAnArray else NoComparators
      ensures res.Ok? ==> multiset(res.value) == multiset(items)
      ensures res.Ok? && TotalPreorderOn(Composed(comparators.elements), items)
              ==> SortedBy(Composed(comparators.elements), res.value)
      ensures res.Ok? && TotalPreorderOn(Composed(comparators.elements), items) && SortedBy(Composed(comparators.elements), items)
              ==> res.value == items
    {
      var copy := items;
      var composed := ComposeSort(comparators);
      if composed.Err? {
        return Err(composed.error);
      }
      var sorted := Sorting.SortedCopy(copy, composed.value);
      return Ok(sorted);
    }
  }

  /** Sorting a wrapper built by `sortBy(selector).thenBy(selector')` yields the
      elements ordered by the first key and, among equal first keys, by the second:
      for two elements whose first keys differ, the one with the smaller key comes
      first; for equal first keys, the smaller second key comes first. */
  lemma SortByThenByOrder(w: PureFluentSortArray, first: Record -> Key, second: Record -> Key, l: Record, r: Record)
    requires w.SortBy(KeyFunction(first)).Ok?
    requires w.SortBy(KeyFunction(first)).value.ThenBy(KeyFunction(second)).Ok?
    ensures var rules := w.SortBy(KeyFunction(first)).value.ThenBy(KeyFunction(second)).value.comparators.elements;
      && (KeyLess(first(l), first(r)) ==> Composed(rules)(l, r) < 0)
      && (first(l) == first(r) && KeyLess(second(l), second(r)) ==> Composed(rules)(l, r) < 0)
      && (first(l) == first(r) && second(l) == second(r) ==> Composed(rules)(l, r) == 0)
  {
    var rules := w.SortBy(KeyFunction(first)).value.ThenBy(KeyFunction(second)).value.comparators.elements;
    assert rules == [KeyComparator(first), KeyComparator(second)];
    KeyComparatorThreeWay(first, l, r);
    KeyComparatorThreeWay(second, l, r);
  }

  /** The six monsters of the wrapper's test suite, keyed by `id`, `intelligence`
      and `agility`. Scores are stored doubled so that 7.5 is an integer; doubling
      keeps every comparison as it was. */
  function Monsters(): (ms: seq<Record>)
    ensures |ms| == 6
  {
    [ Monster(0, 16, 10), Monster(1, 10, 20), Monster(2, 16, 15),
      Monster(3, 4, 4), Monster(4, 16, 6), Monster(5, 30, 15) ]
  }

  /** A monster record with its id, intelligence and agility. */
  function Monster(id: int, intelligence: int, agility: int): (m: Record)
    ensures Field(m, "id") == Some(id)
    ensures FieldKey("intelligence")(m) == Some(intelligence)
    ensures FieldKey("agility")(m) == Some(agility)
  {
    map["id" := id, "intelligence" := intelligence, "agility" := agility]
  }

  /** The order the wrapper sorts the monsters into: the unimpressive, fast, slow,
      strong, mediocre and smart monster. */
  function MonstersByIntelligenceThenAgility(): (ms: seq<Record>)
    ensures multiset(ms) == multiset(Monsters())
  {
    var m := Monsters();
    RearrangedSix(m);
    [m[3], m[1], m[4], m[0], m[2], m[5]]
  }

  /** Listing the six elements of `m` in another order keeps the same elements. */
  lemma RearrangedSix<T>(m: seq<T>)
    requires |m| == 6
    ensures multiset([m[3], m[1], m[4], m[0], m[2], m[5]]) == multiset(m)
  {
    var once := [m[3], m[1], m[2], m[0], m[4], m[5]];
    var twice := [m[3], m[1], m[4], m[0], m[2], m[5]];
    assert m == [] + [m[0]] + [m[1], m[2]] + [m[3]] + [m[4], m[5]];
    assert once == [] + [m[3]] + [m[1], m[2]] + [m[0]] + [m[4], m[5]];
    assert once == [m[3], m[1]] + [m[2]] + [m[0]] + [m[4]] + [m[5]];
    assert twice == [m[3], m[1]] + [m[4]] + [m[0]] + [m[2]] + [m[5]];
    Transposed([], m[0], [m[1], m[2]], m[3], [m[4], m[5]]);
    Transposed([m[3], m[1]], m[2], [m[0]], m[4], [m[5]]);
  }

  /** Exchanging two elements keeps the same elements. */
  lemma Transposed<T>(p: seq<T>, x: T, q: seq<T>, y: T, r: seq<T>)
    ensures multiset(p + [x] + q + [y] + r) == multiset(p + [y] + q + [x] + r)
  {
  }

  /** The rules `sortBy("intelligence").thenBy("agility")` installs. */
  function IntelligenceThenAgilityRules(): seq<Comparator<Record>> {
    [KeyComparator(FieldKey("intelligence")), KeyComparator(FieldKey("agility"))]
  }

  /** The (doubled) intelligence and agility of each monster in the expected order;
      both rise lexicographically along it. */
  function ExpectedScores(): seq<(int, int)> {
    [(4, 4), (10, 20), (16, 6), (16, 10), (16, 15), (30, 15)]
  }

  /** `e` holds, position by position, records with the expected scores. */
  ghost predicate ScoredAsExpected(e: seq<Record>) {
    && |e| == 6
    && forall i :: 0 <= i < 6 ==>
         FieldKey("intelligence")(e[i]) == Some(ExpectedScores()[i].0)
         && FieldKey("agility")(e[i]) == Some(ExpectedScores()[i].1)
  }

  lemma ExpectedScoresRead()
    ensures ScoredAsExpected(MonstersByIntelligenceThenAgility())
  {
    var e := MonstersByIntelligenceThenAgility();
    var m := Monsters();
    var scores := ExpectedScores();
    assert e == [m[3], m[1], m[4], m[0], m[2], m[5]];
    forall i | 0 <= i < 6
      ensures FieldKey("intelligence")(e[i]) == Some(scores[i].0)
      ensures FieldKey("agility")(e[i]) == Some(scores[i].1)
    {
      if i == 0 {
        assert e[0] == Monster(3, 4, 4) && scores[0] == (4, 4);
      } else if i == 1 {
        assert e[1] == Monster(1, 10, 20) && scores[1] == (10, 20);
      } else if i == 2 {
        assert e[2] == Monster(4, 16, 6) && scores[2] == (16, 6);
      } else if i == 3 {
        assert e[3] == Monster(0, 16, 10) && scores[3] == (16, 10);
      } else if i == 4 {
        assert e[4] == Monster(2, 16, 15) && scores[4] == (16, 15);
      } else {
        assert e[5] == Monster(5, 30, 15) && scores[5] == (30, 15);
      }
    }
  }

  /** Along records scored as expected, the rules put an earlier record strictly
      before a later one and tie a record only with itself. */
  lemma ScoredStrictly(e: seq<Record>, i: int, j: int)
    requires ScoredAsExpected(e)
    requires 0 <= i < 6 && 0 <= j < 6
    ensures Composed(IntelligenceThenAgilityRules())(e[i], e[j]) < 0 <==> i < j
    ensures Composed(IntelligenceThenAgilityRules())(e[i], e[j]) == 0 <==> i == j
  {
    ComposedTwoKeys(FieldKey("intelligence"), FieldKey("agility"), e[i], e[j]);
  }

  /** On a permutation of records scored as expected, every record has both keys,
      so the rules form a total preorder there. */
  lemma ScoredPreorder(e: seq<Record>, xs: seq<Record>)
    requires ScoredAsExpected(e)
    requires multiset(xs) == multiset(e)
    ensures TotalPreorderOn(Composed(IntelligenceThenAgilityRules()), xs)
  {
    var intelligence, agility := FieldKey("intelligence"), FieldKey("agility");
    forall x | x in xs ensures intelligence(x).Some? && agility(x).Some? {
      assert x in multiset(e);
      var i :| 0 <= i < 6 && e[i] == x;
    }
    KeyComparatorPreorder(intelligence, xs);
    KeyComparatorPreorder(agility, xs);
    ComposedPreorder(IntelligenceThenAgilityRules(), xs);
  }

  /** Any ordered arrangement of records scored as expected is that arrangement. */
  lemma OnlyOrder(e: seq<Record>, ys: seq<Record>)
    requires ScoredAsExpected(e)
    requires multiset(ys) == multiset(e)
    requires SortedBy(Composed(IntelligenceThenAgilityRules()), ys)
    ensures ys == e
  {
    var order := Composed(IntelligenceThenAgilityRules());
    assert SortedBy(order, e) by {
      forall i, j | 0 <= i < j < |e| ensures order(e[i], e[j]) <= 0 {
        ScoredStrictly(e, i, j);
      }
    }
    assert StrictOn(order, e) by {
      forall x, y | x in e && y in e && order(x, y) <= 0 && order(y, x) <= 0 ensures x == y {
        var i :| 0 <= i < 6 && e[i] == x;
        var j :| 0 <= j < 6 && e[j] == y;
        ScoredStrictly(e, i, j);
        ScoredStrictly(e, j, i);
      }
    }
    SortedPermutationUnique(order, e, ys);
  }

  /** `sortBy(a).thenBy(b).sortedResult()` on a standalone wrapper of `xs`, for two
      field names: it succeeds with a permutation of `xs`, ordered first by the field
      `a` and then by the field `b` whenever those rules form a total preorder on `xs`. */
  method SortByThenByFields(xs: seq<Record>, a: string, b: string) returns (res: Result<seq<Record>>)
    ensures res.Ok? && multiset(res.value) == multiset(xs)
    ensures TotalPreorderOn(Composed([KeyComparator(FieldKey(a)), KeyComparator(FieldKey(b))]), xs)
            ==> SortedBy(Composed([KeyComparator(FieldKey(a)), KeyComparator(FieldKey(b))]), res.value)
  {
    var byFirst := PureFluentSortArray(xs, NotArray).SortBy(FieldName(a));
    var w := byFirst.value.ThenBy(FieldName(b));
    FieldNameRules(a, b);
    res := w.value.SortedResult();
  }

  /** Sorting the monsters by the field `intelligence` and then by the field
      `agility` gives the unimpressive, fast, slow, strong, mediocre and smart
      monster, in that order. */
  method IntelligenceThenAgility() returns (res: Result<seq<Record>>)
    ensures res == Ok(MonstersByIntelligenceThenAgility())
  {
    var ms := Monsters();
    res := SortByThenByFields(ms, "intelligence", "agility");
    var e := MonstersByIntelligenceThenAgility();
    ExpectedScoresRead();
    ScoredPreorder(e, ms);
    OnlyOrder(e, res.value);
  }

  /** The rules `sortBy(a).thenBy(b)` installs for two field names compare the
      field `a` and then the field `b`. */
  lemma FieldNameRules(a: string, b: string)
    ensures [SelectorToComparator(FieldName(a)).value] + [SelectorToComparator(FieldName(b)).value]
         == [KeyComparator(FieldKey(a)), KeyComparator(FieldKey(b))]
  {
  }

  /** Under the rules "first key, then second key", two elements tie exactly when
      both keys agree, and otherwise the lexicographically smaller pair comes first. */
  lemma ComposedTwoKeys(first: Record -> Key, second: Record -> Key, l: Record, r: Record)
    ensures Composed([KeyComparator(first), KeyComparator(second)])(l, r) < 0
            <==> KeyLess(first(l), first(r)) || (!KeyLess(first(r), first(l)) && KeyLess(second(l), second(r)))
    ensures Composed([KeyComparator(first), KeyComparator(second)])(l, r) == 0
            <==> !KeyLess(first(l), first(r)) && !KeyLess(first(r), first(l))
                 && !KeyLess(second(l), second(r)) && !KeyLess(second(r), second(l))
  {
    var rules := [KeyComparator(first), KeyComparator(second)];
    assert ScanFrom(rules, l, r, 2) == 0;
    assert ScanFrom(rules, l, r, 1) == rules[1](l, r);
    assert ScanFrom(rules, l, r, 0) == if rules[0](l, r) != 0 then rules[0](l, r) else rules[1](l, r);
    assert Composed(rules)(l, r) == ScanFrom(rules, l, r, 0);
    KeyComparatorThreeWay(first, l, r);
    KeyComparatorThreeWay(second, l, r);
  }
}
