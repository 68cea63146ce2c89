/** `is_valid_combination(combo, min_distance)` (app.py, lines 52-57): the dates of a
    combination, put in ascending order with `sorted`, must be at least
    `min_distance` days apart from one to the next. */
module Spacing {
  import opened Calendar

  /** Ascending by `<=` on dates. */
  ghost predicate Sorted(s: seq<Date>) {
    forall i, j :: 0 <= i < j < |s| ==> Le(s[i], s[j])
  }

  /** `x` put in front of the first element of `s` that is not smaller. */
  function Insert(x: Day, s: seq<Day>): seq<Day> {
    if s == [] || Le(x, s[0]) then [x] + s else [s[0]] + Insert(x, s[1..])
  }

  /** `sorted(combo)`. */
  function SortDates(c: seq<Day>): seq<Day> {
    if c == [] then [] else Insert(c[0], SortDates(c[1..]))
  }

  lemma {:induction false} InsertMultiset(x: Day, s: seq<Day>)
    ensures multiset(Insert(x, s)) == multiset(s) + multiset{x}
  {
    if s != [] && !Le(x, s[0]) {
      InsertMultiset(x, s[1..]);
      assert s == [s[0]] + s[1..];
    }
  }

  /** Every date `Insert(x, s)` holds is `x` or comes from `s`. */
  lemma InsertMembers(x: Day, s: seq<Day>, y: Day)
    ensures y in Insert(x, s) <==> y == x || y in s
  {
    InsertMultiset(x, s);
    assert y in Insert(x, s) <==> y in multiset(Insert(x, s));
  }

  lemma {:induction false} InsertSorted(x: Day, s: seq<Day>)
    requires Sorted(s)
    ensures Sorted(Insert(x, s))
  {
    if s != [] && !Le(x, s[0]) {
      var r := Insert(x, s[1..]);
      assert Sorted(s[1..]);
      InsertSorted(x, s[1..]);
      forall y | y in r ensures Le(s[0], y) {
        InsertMembers(x, s[1..], y);
      }
      var c := [s[0]] + r;
      forall i, j | 0 <= i < j < |c| ensures Le(c[i], c[j]) {
        if i > 0 {
          assert c[i] == r[i - 1] && c[j] == r[j - 1];
        } else {
          assert c[j] == r[j - 1] && c[j] in r;
        }
      }
    }
  }

  /** `sorted` returns its argument's dates, each as often, in ascending order. */
  lemma {:induction false} SortDatesSorts(c: seq<Day>)
    ensures Sorted(SortDates(c)) && multiset(SortDates(c)) == multiset(c)
  {
    if c != [] {
      SortDatesSorts(c[1..]);
      InsertMultiset(c[0], SortDates(c[1..]));
      InsertSorted(c[0], SortDates(c[1..]));
      assert c == [c[0]] + c[1..];
    }
  }

  /** There is only one ascending arrangement of a collection of dates. */
  lemma {:induction false} SortedUnique(a: seq<Day>, b: seq<Day>)
    requires Sorted(a) && Sorted(b) && multiset(a) == multiset(b)
    ensures a == b
  {
    if a == [] {
      assert |b| == |multiset(b)| == 0;
    } else {
      assert b != [] by {
        assert |b| == |multiset(b)| == |multiset(a)| == |a|;
      }
      SortedFirst(a, b);
      SortedFirst(b, a);
      assert a[0] == b[0] by {
        LeTotalOrder();
      }
      DropFirst(a, b);
      assert Sorted(a[1..]) && Sorted(b[1..]);
      SortedUnique(a[1..], b[1..]);
    }
  }

  /** The first of an ascending sequence is no later than anything in another
      sequence with the same dates. */
  lemma SortedFirst(a: seq<Day>, b: seq<Day>)
    requires Sorted(a) && a != [] && b != [] && multiset(a) == multiset(b)
    ensures Le(a[0], b[0])
  {
    assert b[0] in multiset(a);
    var j :| 0 <= j < |a| && a[j] == b[0];
    if j > 0 {
      assert Le(a[0], a[j]);
    }
  }

  lemma DropFirst(a: seq<Day>, b: seq<Day>)
    requires a != [] && b != [] && a[0] == b[0] && multiset(a) == multiset(b)
    ensures multiset(a[1..]) == multiset(b[1..])
  {
    var ta, tb := multiset(a[1..]), multiset(b[1..]);
    assert a == [a[0]] + a[1..] && b == [b[0]] + b[1..];
    assert multiset(a) == multiset{a[0]} + ta;
    assert multiset(b) == multiset{a[0]} + tb;
    forall z ensures ta[z] == tb[z] {
      assert multiset(a)[z] == multiset{a[0]}[z] + ta[z];
      assert multiset(b)[z] == multiset{a[0]}[z] + tb[z];
    }
    assert ta == tb;
  }

  /** So `sorted` depends only on which dates there are, not on their order. */
  lemma SortDatesOrderFree(a: seq<Day>, b: seq<Day>)
    requires multiset(a) == multiset(b)
    ensures SortDates(a) == SortDates(b)
  {
    SortDatesSorts(a);
    SortDatesSorts(b);
    SortedUnique(SortDates(a), SortDates(b));
  }

  /** Consecutive dates of `s` are at least `k` days apart. */
  predicate Spaced(s: seq<Day>, k: int) {
    forall i :: 1 <= i < |s| ==> DaysBetween(s[i - 1], s[i]) >= k
  }

  /** What `is_valid_combination(combo, k)` returns. */
  predicate ValidCombination(combo: seq<Day>, k: int) {
    Spaced(SortDates(combo), k)
  }

  /** `is_valid_combination`: a loop over the sorted dates that returns
      `False` at the first gap shorter than `min_distance`. */
  method IsValidCombination(combo: seq<Day>, minDistance: int) returns (ok: bool)
    ensures ok == ValidCombination(combo, minDistance)
  {
    var sortedDates := SortDates(combo);
    var i := 1;
    while i < |sortedDates|
      invariant 1 <= i
      invariant forall m :: 1 <= m < i && m < |sortedDates| ==> DaysBetween(sortedDates[m - 1], sortedDates[m]) >= minDistance
    {
      if DaysBetween(sortedDates[i - 1], sortedDates[i]) < minDistance {
        return false;
      }
      i := i + 1;
    }
    return true;
  }

  /** How many days lie between two dates, whichever comes first. */
  function Distance(a: Day, b: Day): nat {
    if DaysBetween(a, b) >= 0 then DaysBetween(a, b) else -DaysBetween(a, b)
  }

  /** `ok` holds of every two elements of `c`, taken in their order. */
  predicate AllPairs<T>(c: seq<T>, ok: (T, T) -> bool) {
    forall i, j :: 0 <= i < j < |c| ==> ok(c[i], c[j])
  }

  /** `ok` holds between `x` and every element of `s`. */
  predicate AllWith<T(==)>(x: T, s: seq<T>, ok: (T, T) -> bool) {
    forall y :: y in s ==> ok(x, y)
  }

  /** Two dates at least `k` days apart. */
  function FarApart(k: int): (Day, Day) -> bool {
    (a: Day, b: Day) => Distance(a, b) >= k
  }

  /** Every two exams of the combination are at least `k` days apart. */
  predicate PairwiseApart(c: seq<Day>, k: int) {
    AllPairs(c, FarApart(k))
  }

  /** `x` is at least `k` days away from every date in `s`. */
  predicate AllApart(x: Day, s: seq<Day>, k: int) {
    AllWith(x, s, FarApart(k))
  }

  /** All pairs of `[x] + s` are the pairs of `s` and those that start at `x`. */
  lemma ConsPairs<T>(x: T, s: seq<T>, ok: (T, T) -> bool)
    ensures AllPairs([x] + s, ok) <==> AllPairs(s, ok) && AllWith(x, s, ok)
  {
    var c := [x] + s;
    if AllPairs(c, ok) {
      forall i, j | 0 <= i < j < |s| ensures ok(s[i], s[j]) {
        assert c[i + 1] == s[i] && c[j + 1] == s[j];
      }
      forall y | y in s ensures ok(x, y) {
        var j :| 0 <= j < |s| && s[j] == y;
        assert c[0] == x && c[j + 1] == y;
      }
    }
    if AllPairs(s, ok) && AllWith(x, s, ok) {
      forall i, j | 0 <= i < j < |c| ensures ok(c[i], c[j]) {
        if i > 0 {
          assert c[i] == s[i - 1] && c[j] == s[j - 1];
        } else {
          assert c[j] == s[j - 1] && c[j] in s;
        }
      }
    }
  }

  lemma ConsApart(x: Day, s: seq<Day>, k: int)
    ensures PairwiseApart([x] + s, k) <==> PairwiseApart(s, k) && AllApart(x, s, k)
  {
    ConsPairs(x, s, FarApart(k));
  }

  lemma DistanceSymmetric(a: Day, b: Day, k: int)
    ensures FarApart(k)(a, b) == FarApart(k)(b, a)
  {
  }

  lemma AllApartCons(x: Day, h: Day, t: seq<Day>, k: int)
    ensures AllApart(x, [h] + t, k) <==> FarApart(k)(x, h) && AllApart(x, t, k)
  {
    assert forall y :: y in [h] + t <==> y == h || y in t;
  }

  lemma {:induction false} InsertApart(x: Day, s: seq<Day>, k: int)
    ensures PairwiseApart(Insert(x, s), k) <==> PairwiseApart([x] + s, k)
  {
    if s != [] && !Le(x, s[0]) {
      var h, t := s[0], s[1..];
      var r := Insert(x, t);
      assert s == [h] + t;
      assert Insert(x, s) == [h] + r;
      ConsApart(h, r, k);
      InsertApart(x, t, k);
      ConsApart(x, t, k);
      assert AllApart(h, r, k) <==> FarApart(k)(h, x) && AllApart(h, t, k) by {
        forall y ensures y in r <==> y == x || y in t {
          InsertMembers(x, t, y);
        }
      }
      ConsApart(x, s, k);
      ConsApart(h, t, k);
      AllApartCons(x, h, t, k);
      DistanceSymmetric(x, h, k);
    }
  }

  /** Sorting changes nothing about which dates are apart. */
  lemma {:induction false} SortDatesApart(c: seq<Day>, k: int)
    ensures PairwiseApart(SortDates(c), k) <==> PairwiseApart(c, k)
  {
    if c != [] {
      var x, t := c[0], c[1..];
      var rest := SortDates(t);
      assert SortDates(c) == Insert(x, rest);
      assert c == [x] + t;
      InsertApart(x, rest, k);
      ConsApart(x, rest, k);
      SortDatesApart(t, k);
      SortDatesKeepsApart(x, t, k);
      ConsApart(x, t, k);
    }
  }

  lemma SortDatesKeepsApart(x: Day, t: seq<Day>, k: int)
    ensures AllApart(x, SortDates(t), k) == AllApart(x, t, k)
  {
    SortDatesSorts(t);
    forall y ensures y in SortDates(t) <==> y in t {
      assert y in multiset(SortDates(t)) <==> y in multiset(t);
    }
  }

  /** Along ascending dates with gaps of at least `k >= 0`, any later date is at
      least `k` days after any earlier one. */
  lemma {:induction false} SpacedChain(s: seq<Day>, k: int, i: nat, j: nat)
    requires Sorted(s) && Spaced(s, k) && k >= 0 && i < j < |s|
    ensures DaysBetween(s[i], s[j]) >= k
    decreases j - i
  {
    if j > i + 1 {
      SpacedChain(s, k, i, j - 1);
    }
  }

  lemma {:induction false} SortedSpacedIffApart(s: seq<Day>, k: int)
    requires Sorted(s)
    ensures Spaced(s, k) <==> PairwiseApart(s, k)
  {
    if Spaced(s, k) {
      forall i, j | 0 <= i < j < |s| ensures FarApart(k)(s[i], s[j]) {
        if k >= 0 {
          SpacedChain(s, k, i, j);
        }
      }
    }
    if PairwiseApart(s, k) {
      forall i | 1 <= i < |s| ensures DaysBetween(s[i - 1], s[i]) >= k {
        LeIffOrdinalLe(s[i - 1], s[i]);
        assert FarApart(k)(s[i - 1], s[i]);
      }
    }
  }

  /** The loop's verdict in plain words: a combination is valid exactly when
      every two of its exams are at least `k` days apart. */
  lemma ValidIffPairwiseApart(c: seq<Day>, k: int)
    ensures ValidCombination(c, k) <==> PairwiseApart(c, k)
  {
    SortDatesSorts(c);
    SortedSpacedIffApart(SortDates(c), k);
    SortDatesApart(c, k);
  }

  /** Validity does not depend on the order of the dates in the combination. */
  lemma ValidOrderFree(a: seq<Day>, b: seq<Day>, k: int)
    requires multiset(a) == multiset(b)
    ensures ValidCombination(a, k) == ValidCombination(b, k)
  {
    SortDatesOrderFree(a, b);
  }

  /** With no minimum distance, or at most one exam, every combination is valid. */
  lemma ValidTrivially(c: seq<Day>, k: int)
    requires k <= 0 || |c| <= 1
    ensures ValidCombination(c, k)
  {
    var s := SortDates(c);
    SortDatesSorts(c);
    assert |s| == |multiset(s)| == |multiset(c)| == |c|;
    forall i | 1 <= i < |s| ensures DaysBetween(s[i - 1], s[i]) >= k {
      LeIffOrdinalLe(s[i - 1], s[i]);
    }
  }
}
