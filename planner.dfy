/** The planner behind the "Calcola combinazione ottimale" button (app.py,
    lines 42-67): parse the session bounds, load every exam's dates, form
    every combination of one date per exam, keep the well-spaced ones, score
    them and sort them by descending score. */
module Planner {
  import opened Results
  import opened Calendar
  import opened DateParser
  import opened Sequences
  import opened CartesianProduct
  import opened Spacing
  import opened Ranking
  import opened Loading

  /** `describe_combination(combo)`: each exam's name with its date. */
  type Assignment = seq<(string, Day)>

  function Describe(names: seq<string>, combo: seq<Day>): Assignment
    requires |combo| <= |names|
  {
    seq(|combo|, i requires 0 <= i < |combo| => (names[i], combo[i]))
  }

  function Sum(xs: seq<int>): int {
    if xs == [] then 0 else Sum(xs[..|xs| - 1]) + xs[|xs| - 1]
  }

  /** `sum(exams[i]['importance'] for i in range(len(combo)))`. */
  function Score(importances: seq<int>, combo: seq<Day>): int
    requires |combo| <= |importances|
  {
    Sum(importances[..|combo|])
  }

  /** Every combination has one date per exam. */
  predicate OnePerExam(combos: seq<seq<Day>>, n: nat) {
    forall i :: 0 <= i < |combos| ==> |combos[i]| == n
  }

  /** `scored_combinations` before the sort. */
  function ScoreAll(names: seq<string>, importances: seq<int>, combos: seq<seq<Day>>): seq<Scored<Assignment>>
    requires |names| == |importances| && OnePerExam(combos, |names|)
  {
    seq(|combos|, i requires 0 <= i < |combos| =>
      Scored(Describe(names, combos[i]), Score(importances, combos[i])))
  }

  /** `is_valid_combination(combo, k)` as a condition on combinations. */
  function ValidWith(k: int): seq<Day> -> bool {
    combo => ValidCombination(combo, k)
  }

  /** `valid_combinations`, each of which has one date per exam. */
  function ValidCombinations(options: seq<seq<Day>>, k: int): (r: seq<seq<Day>>)
    ensures OnePerExam(r, |options|)
  {
    FilterProductOnePerExam(options, ValidWith(k));
    Filter(Product(options), ValidWith(k))
  }

  lemma FilterProductOnePerExam(options: seq<seq<Day>>, p: seq<Day> -> bool)
    ensures OnePerExam(Filter(Product(options), p), |options|)
  {
    var valid := Filter(Product(options), p);
    forall i | 0 <= i < |valid| ensures |valid[i]| == |options| {
      FilterMembers(Product(options), p, valid[i]);
      ProductMembers(options, valid[i]);
    }
  }

  /** `scored_combinations` after the sort at line 67. */
  function Ranked(names: seq<string>, importances: seq<int>, options: seq<seq<Day>>, k: int): seq<Scored<Assignment>>
    requires |names| == |importances| == |options|
  {
    SortByScore(ScoreAll(names, importances, ValidCombinations(options, k)))
  }

  /** What the button computes from the form: the error the first failing
      `parse_date` raises, or the ranked combinations. */
  function PlanSpec(names: seq<string>, importances: seq<int>, entries: seq<seq<string>>,
                    startText: string, endText: string, k: int): Result<seq<Scored<Assignment>>, ParseError>
    requires |names| == |importances| == |entries|
  {
    match ParseDate(startText)
    case Err(e) => Err(e)
    case Ok(start) =>
      match ParseDate(endText)
      case Err(e) => Err(e)
      case Ok(end) =>
        match LoadAll(entries, start, end)
        case Err(e) => Err(e)
        case Ok(options) => Ok(Ranked(names, importances, options, k))
  }

  /** A combination is kept exactly when it takes each exam's date from that
      exam's list and every two of its dates are at least `k` days apart;
      the kept ones stay in the order `product` yields them. */
  lemma ValidCombinationsMembers(options: seq<seq<Day>>, k: int, c: seq<Day>)
    ensures c in ValidCombinations(options, k) <==>
      |c| == |options| && (forall i :: 0 <= i < |options| ==> c[i] in options[i]) && PairwiseApart(c, k)
  {
    FilterMembers(Product(options), ValidWith(k), c);
    ProductMembers(options, c);
    ValidIffPairwiseApart(c, k);
  }

  lemma ValidCombinationsInOrder(options: seq<seq<Day>>, k: int)
    ensures IsSubsequence(ValidCombinations(options, k), Product(options))
  {
    FilterIsSubsequence(Product(options), ValidWith(k));
  }

  /** The sum at line 64 runs over `range(len(combo))`, and every combination
      is as long as the list of exams, so every score is the total importance
      of all exams. */
  lemma ScoresAllEqual(names: seq<string>, importances: seq<int>, combos: seq<seq<Day>>)
    requires |names| == |importances| && OnePerExam(combos, |names|)
    ensures forall i :: 0 <= i < |combos| ==> ScoreAll(names, importances, combos)[i].score == Sum(importances)
  {
    assert importances[..|importances|] == importances;
  }

  /** So the sort leaves the valid combinations in the order `product` yields them. */
  lemma RankedInProductOrder(names: seq<string>, importances: seq<int>, options: seq<seq<Day>>, k: int)
    requires |names| == |importances| == |options|
    ensures Ranked(names, importances, options, k)
        == ScoreAll(names, importances, ValidCombinations(options, k))
  {
    var scored := ScoreAll(names, importances, ValidCombinations(options, k));
    ScoresAllEqual(names, importances, ValidCombinations(options, k));
    SortByScoreEqualScores(scored, Sum(importances));
  }

  /** The sort puts no entry above one with a higher score and loses or adds
      no entry. */
  lemma RankedSorted(names: seq<string>, importances: seq<int>, options: seq<seq<Day>>, k: int)
    requires |names| == |importances| == |options|
    ensures var scored := ScoreAll(names, importances, ValidCombinations(options, k));
      NonIncreasing(Ranked(names, importances, options, k)) &&
      multiset(Ranked(names, importances, options, k)) == multiset(scored)
  {
    SortByScoreSorts(ScoreAll(names, importances, ValidCombinations(options, k)));
  }

  /** The first ranked entry (the one the page shows as optimal) is the first
      valid combination in `product` order, scored with the total importance. */
  lemma RankedFirst(names: seq<string>, importances: seq<int>, options: seq<seq<Day>>, k: int, i: nat)
    requires |names| == |importances| == |options|
    requires i < |Product(options)| && ValidCombination(Product(options)[i], k)
    requires forall j :: 0 <= j < i ==> !ValidCombination(Product(options)[j], k)
    ensures |Product(options)[i]| == |names|
    ensures Ranked(names, importances, options, k) != []
    ensures Ranked(names, importances, options, k)[0]
         == Scored(Describe(names, Product(options)[i]), Sum(importances))
  {
    ProductMembers(options, Product(options)[i]);
    FilterFirst(Product(options), ValidWith(k), i);
    RankedInProductOrder(names, importances, options, k);
    ScoresAllEqual(names, importances, ValidCombinations(options, k));
  }

  /** Nothing is ranked exactly when no combination is valid; in particular
      when some exam keeps no date inside the session. */
  lemma RankedEmpty(names: seq<string>, importances: seq<int>, options: seq<seq<Day>>, k: int)
    requires |names| == |importances| == |options|
    ensures Ranked(names, importances, options, k) == [] <==>
      forall i :: 0 <= i < |Product(options)| ==> !ValidCombination(Product(options)[i], k)
    ensures (exists i :: 0 <= i < |options| && options[i] == []) ==> Ranked(names, importances, options, k) == []
  {
    RankedInProductOrder(names, importances, options, k);
    FilterNone(Product(options), ValidWith(k));
    ProductEmpty(options);
  }

  /** Two exams, Math (importance 9) on 12 July and Physics (importance 7) on
      20 or 25 July 2025, at least 3 days apart: both combinations are valid,
      both score 16, and the tie keeps the order `product` yields. */
  lemma {:induction false} RankedExample()
    ensures var jul12, jul20, jul25 := Date(2025, 7, 12), Date(2025, 7, 20), Date(2025, 7, 25);
      Ranked(["Math", "Physics"], [9, 7], [[jul12], [jul20, jul25]], 3)
      == [Scored([("Math", jul12), ("Physics", jul20)], 16),
          Scored([("Math", jul12), ("Physics", jul25)], 16)]
  {
    var jul12, jul20, jul25: Day := Date(2025, 7, 12), Date(2025, 7, 20), Date(2025, 7, 25);
    var options: seq<seq<Day>> := [[jul12], [jul20, jul25]];
    var names, importances := ["Math", "Physics"], [9, 7];
    ProductOfTwo(jul12, jul20, jul25);
    var p: seq<seq<Day>> := Product(options);
    SortTwo(jul12, jul20);
    SortTwo(jul12, jul25);
    assert DaysBetween(jul12, jul20) == 8 && DaysBetween(jul12, jul25) == 13;
    assert ValidCombinations(options, 3) == p by {
      assert ValidWith(3)(p[0]) && ValidWith(3)(p[1]);
      assert p[1..][1..] == [];
      assert Filter(p[1..], ValidWith(3)) == [p[1]] + Filter(p[1..][1..], ValidWith(3));
    }
    RankedInProductOrder(names, importances, options, 3);
    var scored := ScoreAll(names, importances, p);
    assert importances[..2] == importances && Sum(importances) == 16;
    assert Describe(names, p[0]) == [("Math", jul12), ("Physics", jul20)];
    assert Describe(names, p[1]) == [("Math", jul12), ("Physics", jul25)];
    assert |scored| == 2 && scored[0].score == 16 && scored[1].score == 16;
  }

  /** Two exams whose only dates are one day apart, with at least 3 days
      wanted between exams: nothing is ranked. */
  lemma {:induction false} RankedExampleTooClose()
    ensures var jul12, jul13 := Date(2025, 7, 12), Date(2025, 7, 13);
      Ranked(["Math", "Physics"], [9, 7], [[jul12], [jul13]], 3) == []
  {
    var jul12, jul13: Day := Date(2025, 7, 12), Date(2025, 7, 13);
    var options: seq<seq<Day>> := [[jul12], [jul13]];
    ProductOfOne(jul12, jul13);
    SortTwo(jul12, jul13);
    assert DaysBetween(jul12, jul13) == 1;
    RankedEmpty(["Math", "Physics"], [9, 7], options, 3);
  }

  /** The product of a one-date list and a list of one date. */
  lemma ProductOfOne(a: Day, b: Day)
    ensures Product([[a], [b]]) == [[a, b]]
  {
    var ls: seq<seq<Day>> := [[a], [b]];
    var e: seq<Day> := [];
    assert ls[1..][1..] == [] && Product(ls[1..][1..]) == [e];
    ExtendOne(b, [e]);
    PrependOne(b, e);
    assert [b] + e == [b] && Product(ls[1..]) == [[b]];
    ExtendOne(a, [[b]]);
    PrependOne(a, [b]);
    assert [a] + [b] == [a, b];
  }

  /** The product of a one-date list and a list of two dates. */
  lemma ProductOfTwo(a: Day, b: Day, c: Day)
    ensures Product([[a], [b, c]]) == [[a, b], [a, c]]
  {
    var ls: seq<seq<Day>> := [[a], [b, c]];
    var e: seq<Day> := [];
    assert ls[1..][1..] == [] && Product(ls[1..][1..]) == [e];
    assert [b, c][1..] == [c];
    assert Extend([b, c], [e]) == Prepend(b, [e]) + Extend([c], [e]);
    ExtendOne(c, [e]);
    PrependOne(b, e);
    PrependOne(c, e);
    assert [b] + e == [b] && [c] + e == [c];
    assert Product(ls[1..]) == [[b], [c]];
    ExtendOne(a, [[b], [c]]);
    var q := Prepend(a, [[b], [c]]);
    assert |q| == 2 && q[0] == [a] + [b] && q[1] == [a] + [c];
    assert [a] + [b] == [a, b] && [a] + [c] == [a, c];
  }

  lemma ExtendOne(x: Day, tails: seq<seq<Day>>)
    ensures Extend([x], tails) == Prepend(x, tails)
  {
    assert [x][1..] == [];
  }

  lemma PrependOne(x: Day, t: seq<Day>)
    ensures Prepend(x, [t]) == [[x] + t]
  {
    var q := Prepend(x, [t]);
    assert |q| == 1 && q[0] == [x] + t;
  }

  /** Two dates already in order are left as they are by `sorted`. */
  lemma SortTwo(a: Day, b: Day)
    requires Le(a, b)
    ensures SortDates([a, b]) == [a, b]
  {
    assert [a, b][1..] == [b] && [b][1..] == [];
    assert SortDates([b]) == Insert(b, []) == [b];
  }

  function Names(exams: seq<Exam>): seq<string> {
    seq(|exams|, i requires 0 <= i < |exams| => exams[i].name)
  }

  function Importances(exams: seq<Exam>): seq<int> {
    seq(|exams|, i requires 0 <= i < |exams| => exams[i].importance)
  }

  function Entries(exams: seq<Exam>): seq<seq<string>> {
    seq(|exams|, i requires 0 <= i < |exams| => exams[i].entries)
  }

  /** Lines 45-47 for every exam in turn; an exam whose entries do not parse
      stops the loop, leaving it and the exams after it as they were, and
      `loaded` counts the exams before it. Each
      exam in `exams` is a distinct object, as the form builds a new
      dictionary per exam. */
  method LoadExams(exams: seq<Exam>, start: Day, end: Day)
      returns (r: Result<seq<seq<Day>>, ParseError>, loaded: nat)
    requires forall i, j :: 0 <= i < j < |exams| ==> exams[i] != exams[j]
    modifies exams
    ensures r == LoadAll(Entries(exams), start, end)
    ensures loaded == LoadedCount(Entries(exams), start, end)
    ensures forall i :: 0 <= i < loaded ==> Loaded(exams[i].entries, start, end) == Ok(exams[i].dates)
    ensures forall i :: loaded <= i < |exams| ==> exams[i].dates == old(exams[i].dates)
  {
    ghost var es := Entries(exams);
    var options, failure;
    options, loaded, failure := LoadUntilFailure(exams, start, end);
    LoadedPrefix(es, start, end, loaded, options);
    if failure.Some? {
      LoadStep(es, start, end, loaded, options);
      LoadedCountAt(es, start, end, loaded);
      MapAllPrefix(es, LoadExam(start, end), loaded + 1, |es|);
      assert es[..|es|] == es;
      r := Err(failure.value);
    } else {
      assert es[..loaded] == es;
      LoadedCountAt(es, start, end, loaded);
      r := Ok(options);
    }
  }

  /** The loop at line 45 itself: exams are loaded in turn until one fails. */
  method LoadUntilFailure(exams: seq<Exam>, start: Day, end: Day)
      returns (options: seq<seq<Day>>, loaded: nat, failure: Option<ParseError>)
    requires forall i, j :: 0 <= i < j < |exams| ==> exams[i] != exams[j]
    modifies exams
    ensures loaded <= |exams|
    ensures LoadAll(Entries(exams)[..loaded], start, end) == Ok(options)
    ensures failure.None? ==> loaded == |exams|
    ensures failure.Some? ==>
      loaded < |exams| && LoadAll(Entries(exams)[..loaded + 1], start, end) == Err(failure.value)
    ensures forall i :: 0 <= i < loaded ==> exams[i].dates == options[i]
    ensures forall i :: loaded <= i < |exams| ==> exams[i].dates == old(exams[i].dates)
  {
    ghost var es := Entries(exams);
    options, loaded, failure := [], 0, None;
    while loaded < |exams| && failure.None?
      invariant loaded <= |exams| && |options| == loaded
      invariant LoadAll(es[..loaded], start, end) == Ok(options)
      decreases |exams| - loaded, if failure.None? then 1 else 0
      invariant failure.Some? ==> loaded < |exams| && LoadAll(es[..loaded + 1], start, end) == Err(failure.value)
      invariant forall i :: 0 <= i < loaded ==> exams[i].dates == options[i]
      invariant forall i :: loaded <= i < |exams| ==> exams[i].dates == old(exams[i].dates)
    {
      var next;
      next, failure := LoadNext(exams, start, end, loaded, options);
      if failure.None? {
        options, loaded := next, loaded + 1;
      }
    }
  }

  /** One pass of the loop at line 45: the next exam is loaded. */
  method LoadNext(exams: seq<Exam>, start: Day, end: Day, loaded: nat, options: seq<seq<Day>>)
      returns (next: seq<seq<Day>>, failure: Option<ParseError>)
    requires forall i, j :: 0 <= i < j < |exams| ==> exams[i] != exams[j]
    requires loaded < |exams| && LoadAll(Entries(exams)[..loaded], start, end) == Ok(options)
    modifies exams[loaded]
    ensures forall i :: 0 <= i < |exams| && i != loaded ==> exams[i].dates == old(exams[i].dates)
    ensures failure.None? ==>
      next == options + [exams[loaded].dates] && LoadAll(Entries(exams)[..loaded + 1], start, end) == Ok(next)
    ensures failure.Some? ==>
      LoadAll(Entries(exams)[..loaded + 1], start, end) == Err(failure.value) &&
      exams[loaded].dates == old(exams[loaded].dates)
  {
    failure := exams[loaded].LoadDates(start, end);
    forall i | 0 <= i < |exams| && i != loaded
      ensures exams[i].dates == old(exams[i].dates)
    {
      assert exams[i] != exams[loaded];
    }
    LoadStep(Entries(exams), start, end, loaded, options);
    next := options + [exams[loaded].dates];
  }

  /** The lists loaded so far are those of the exams they belong to. */
  lemma LoadedPrefix(es: seq<seq<string>>, start: Day, end: Day, n: nat, options: seq<seq<Day>>)
    requires n <= |es| && LoadAll(es[..n], start, end) == Ok(options)
    ensures |options| == n
    ensures forall i :: 0 <= i < n ==> Loaded(es[i], start, end) == Ok(options[i])
  {
    LoadAllOk(es[..n], start, end);
    assert forall i :: 0 <= i < n ==> es[..n][i] == es[i];
  }

  /** Line 62: the loop over the combinations calling `is_valid_combination`. */
  method KeepValid(combos: seq<seq<Day>>, minDistance: int) returns (valid: seq<seq<Day>>)
    ensures valid == Filter(combos, ValidWith(minDistance))
  {
    valid := [];
    var m := 0;
    while m < |combos|
      invariant m <= |combos|
      invariant valid == Filter(combos[..m], ValidWith(minDistance))
    {
      var ok := IsValidCombination(combos[m], minDistance);
      FilterAppend(combos[..m], [combos[m]], ValidWith(minDistance));
      assert combos[..m + 1] == combos[..m] + [combos[m]];
      if ok {
        valid := valid + [combos[m]];
      }
      m := m + 1;
    }
    assert combos[..|combos|] == combos;
  }

  /** Lines 49-50 and 62-67 on the loaded date lists: the product, the valid
      combinations, their scores, and the sort of `scored_combinations` in
      place. */
  method RankCombinations(names: seq<string>, importances: seq<int>, options: seq<seq<Day>>, minDistance: int)
    returns (ranked: seq<Scored<Assignment>>)
    requires |names| == |importances| == |options|
    ensures ranked == Ranked(names, importances, options, minDistance)
  {
    var valid := KeepValid(Product(options), minDistance);
    assert valid == ValidCombinations(options, minDistance);
    var scored := ScoreAll(names, importances, valid);
    var ranking := new Scored<Assignment>[|scored|](i requires 0 <= i < |scored| => scored[i]);
    assert ranking[..] == scored;
    SortByScoreInPlace(ranking);
    ranked := ranking[..];
  }

  /** Lines 42-67. */
  method Plan(exams: seq<Exam>, startText: string, endText: string, minDistance: int)
    returns (r: Result<seq<Scored<Assignment>>, ParseError>)
    requires forall i, j :: 0 <= i < j < |exams| ==> exams[i] != exams[j]
    modifies exams
    ensures r == PlanSpec(Names(exams), Importances(exams), Entries(exams), startText, endText, minDistance)
    ensures ParseDate(startText).Err? || ParseDate(endText).Err? ==>
      forall i :: 0 <= i < |exams| ==> exams[i].dates == old(exams[i].dates)
    ensures ParseDate(startText).Ok? && ParseDate(endText).Ok? ==>
      var start, end := ParseDate(startText).value, ParseDate(endText).value;
      var loaded := LoadedCount(Entries(exams), start, end);
      (forall i :: 0 <= i < loaded ==> Loaded(exams[i].entries, start, end) == Ok(exams[i].dates)) &&
      (forall i :: loaded <= i < |exams| ==> exams[i].dates == old(exams[i].dates))
  {
    var startDate := ParseDate(startText);
    if startDate.Err? {
      return Err(startDate.error);
    }
    var endDate := ParseDate(endText);
    if endDate.Err? {
      return Err(endDate.error);
    }
    var lists, loadedExams := LoadExams(exams, startDate.value, endDate.value);
    if lists.Err? {
      return Err(lists.error);
    }
    var ranked := RankCombinations(Names(exams), Importances(exams), lists.value, minDistance);
    r := Ok(ranked);
  }

  /** Loading one more exam: `LoadAll` on the next prefix is the previous
      lists plus this exam's, or this exam's error. */
  lemma LoadStep(es: seq<seq<string>>, start: Day, end: Day, n: nat, options: seq<seq<Day>>)
    requires n < |es| && LoadAll(es[..n], start, end) == Ok(options)
    ensures Loaded(es[n], start, end).Err? ==>
      LoadAll(es[..n + 1], start, end) == Err(Loaded(es[n], start, end).error)
    ensures Loaded(es[n], start, end).Ok? ==>
      LoadAll(es[..n + 1], start, end) == Ok(options + [Loaded(es[n], start, end).value])
  {
    assert es[..n + 1][..n] == es[..n] && es[..n + 1][n] == es[n];
  }
}
