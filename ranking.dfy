/** `scored_combinations.sort(key=lambda x: x[1], reverse=True)` (app.py, line 67):
    Python's list sort is stable also when `reverse=True`, so the result is the
    list ordered by non-increasing score, with entries of equal score left in
    the order they had before. */
module Ranking {
  import opened Sequences

  /** An entry of `scored_combinations`: a described combination and its score. */
  datatype Scored<T> = Scored(item: T, score: int)

  /** Scores never go up from one entry to a later one. */
  predicate NonIncreasing<T>(s: seq<Scored<T>>) {
    forall i, j :: 0 <= i < j < |s| ==> s[i].score >= s[j].score
  }

  /** The entries that have score `v`. */
  function HasScore<T>(v: int): Scored<T> -> bool {
    (e: Scored<T>) => e.score == v
  }

  /** `x` placed after every entry of `t` whose score is at least its own. */
  function InsertByScore<T>(t: seq<Scored<T>>, x: Scored<T>): seq<Scored<T>> {
    if t == [] || t[|t| - 1].score >= x.score then t + [x]
    else InsertByScore(t[..|t| - 1], x) + [t[|t| - 1]]
  }

  /** The stable sort by descending score, one entry at a time from the left. */
  function SortByScore<T>(s: seq<Scored<T>>): seq<Scored<T>> {
    if s == [] then [] else InsertByScore(SortByScore(s[..|s| - 1]), s[|s| - 1])
  }

  lemma {:induction false} InsertByScoreMultiset<T>(t: seq<Scored<T>>, x: Scored<T>)
    ensures multiset(InsertByScore(t, x)) == multiset(t) + multiset{x}
  {
    if t != [] && t[|t| - 1].score < x.score {
      var init, last := t[..|t| - 1], t[|t| - 1];
      InsertByScoreMultiset(init, x);
      assert t == init + [last];
    }
  }

  /** Scores of at least `v` stay so when `x`, also scoring at least `v`, is inserted. */
  lemma {:induction false} InsertByScoreAbove<T>(t: seq<Scored<T>>, x: Scored<T>, v: int)
    requires forall i :: 0 <= i < |t| ==> t[i].score >= v
    requires x.score >= v
    ensures forall i :: 0 <= i < |InsertByScore(t, x)| ==> InsertByScore(t, x)[i].score >= v
  {
    if t != [] && t[|t| - 1].score < x.score {
      var init, last := t[..|t| - 1], t[|t| - 1];
      assert forall i :: 0 <= i < |init| ==> init[i] == t[i];
      InsertByScoreAbove(init, x, v);
    }
  }

  lemma AppendOrdered<T>(r: seq<Scored<T>>, last: Scored<T>)
    requires NonIncreasing(r)
    requires forall i :: 0 <= i < |r| ==> r[i].score >= last.score
    ensures NonIncreasing(r + [last])
  {
    var c := r + [last];
    forall i, j | 0 <= i < j < |c| ensures c[i].score >= c[j].score {
      assert c[i] == r[i];
    }
  }

  lemma {:induction false} InsertByScoreOrdered<T>(t: seq<Scored<T>>, x: Scored<T>)
    requires NonIncreasing(t)
    ensures NonIncreasing(InsertByScore(t, x))
  {
    if t != [] && t[|t| - 1].score < x.score {
      var init, last := t[..|t| - 1], t[|t| - 1];
      assert forall i :: 0 <= i < |init| ==> init[i] == t[i];
      InsertByScoreOrdered(init, x);
      InsertByScoreAbove(init, x, last.score);
      AppendOrdered(InsertByScore(init, x), last);
    }
  }

  /** The sorted list has the same entries, each as often, by descending score. */
  lemma {:induction false} SortByScoreSorts<T>(s: seq<Scored<T>>)
    ensures NonIncreasing(SortByScore(s)) && multiset(SortByScore(s)) == multiset(s)
  {
    if s != [] {
      var init, last := s[..|s| - 1], s[|s| - 1];
      SortByScoreSorts(init);
      InsertByScoreOrdered(SortByScore(init), last);
      InsertByScoreMultiset(SortByScore(init), last);
      assert s == init + [last];
    }
  }

  lemma {:induction false} InsertByScoreStable<T>(t: seq<Scored<T>>, x: Scored<T>, v: int)
    ensures Filter(InsertByScore(t, x), HasScore(v))
         == Filter(t, HasScore(v)) + (if x.score == v then [x] else [])
  {
    var p := HasScore<T>(v);
    if t == [] || t[|t| - 1].score >= x.score {
      FilterAppend(t, [x], p);
    } else {
      var init, last := t[..|t| - 1], t[|t| - 1];
      InsertByScoreStable(init, x, v);
      FilterAppend(InsertByScore(init, x), [last], p);
      FilterAppend(init, [last], p);
      assert t == init + [last];
    }
  }

  /** Stability: the entries of any one score keep their relative order. */
  lemma {:induction false} SortByScoreStable<T>(s: seq<Scored<T>>, v: int)
    ensures Filter(SortByScore(s), HasScore(v)) == Filter(s, HasScore(v))
  {
    if s != [] {
      var init, last := s[..|s| - 1], s[|s| - 1];
      SortByScoreStable(init, v);
      InsertByScoreStable(SortByScore(init), last, v);
      FilterAppend(init, [last], HasScore(v));
      assert s == init + [last];
    }
  }

  /** When every entry has the same score the sort changes nothing. */
  lemma {:induction false} SortByScoreEqualScores<T>(s: seq<Scored<T>>, v: int)
    requires forall i :: 0 <= i < |s| ==> s[i].score == v
    ensures SortByScore(s) == s
  {
    if s != [] {
      var init := s[..|s| - 1];
      SortByScoreEqualScores(init, v);
      assert s == init + [s[|s| - 1]];
    }
  }

  /** The shifting step of the insertion sort: an entry that scores less than
      `x` moves one place to the right. */
  lemma InsertByScoreShift<T>(t: seq<Scored<T>>, x: Scored<T>, j: nat)
    requires 0 < j <= |t| && t[j - 1].score < x.score
    ensures InsertByScore(t[..j], x) + t[j..] == InsertByScore(t[..j - 1], x) + t[j - 1..]
  {
    assert t[..j][..j - 1] == t[..j - 1];
    assert t[j - 1..] == [t[j - 1]] + t[j..];
  }

  /** The array during the insertion step: `t[..j]`, then the slot `j`
      holding `y`, then `t[j..]` moved one place right, then the rest. */
  function Gap<T>(t: seq<T>, j: nat, y: T, rest: seq<T>): seq<T>
    requires j <= |t|
  {
    t[..j] + [y] + t[j..] + rest
  }

  /** Copying the entry left of the slot into it moves the slot one place left. */
  lemma GapShift<T>(t: seq<T>, j: nat, y: T, rest: seq<T>)
    requires 0 < j <= |t|
    ensures Gap(t, j, y, rest)[j - 1] == t[j - 1]
    ensures Gap(t, j, y, rest)[j := t[j - 1]] == Gap(t, j - 1, t[j - 1], rest)
  {
    var g, h := Gap(t, j, y, rest), Gap(t, j - 1, t[j - 1], rest);
    assert |g| == |h|;
    forall m | 0 <= m < |g| ensures g[j := t[j - 1]][m] == h[m] {
      if m < j - 1 {
        assert g[m] == t[m] && h[m] == t[m];
      } else if m == j - 1 {
        assert h[m] == t[j - 1];
      } else if m == j {
        assert h[m] == t[j - 1];
      } else if m <= |t| {
        assert g[m] == t[m - 1] && h[m] == t[m - 1];
      } else {
        assert g[m] == rest[m - |t| - 1] && h[m] == rest[m - |t| - 1];
      }
    }
  }

  /** One step of the insertion sort: `a[i]` moves left past the entries of
      `a[..i]` that score strictly less than it. */
  method InsertInPlace<T>(a: array<Scored<T>>, i: nat)
    requires i < a.Length
    modifies a
    ensures a[..i + 1] == InsertByScore(old(a[..i]), old(a[i]))
    ensures a[i + 1..] == old(a[i + 1..])
  {
    var x := a[i];
    ghost var t, rest := a[..i], a[i + 1..];
    var j := i;
    ghost var y := x;
    assert a[..] == Gap(t, j, y, rest) by {
      assert a[..] == a[..i] + [x] + a[i + 1..];
    }
    assert InsertByScore(t[..j], x) + t[j..] == InsertByScore(t, x) by {
      assert t[..j] == t && t[j..] == [];
    }
    while j > 0 && a[j - 1].score < x.score
      invariant 0 <= j <= i
      invariant a[..] == Gap(t, j, y, rest)
      invariant InsertByScore(t[..j], x) + t[j..] == InsertByScore(t, x)
    {
      GapShift(t, j, y, rest);
      InsertByScoreShift(t, x, j);
      a[j] := a[j - 1];
      j, y := j - 1, t[j - 1];
    }
    a[j] := x;
    InsertByScoreRest(t, x, j);
    GapFill(t, j, y, x, rest);
  }

  lemma InsertByScoreRest<T>(t: seq<Scored<T>>, x: Scored<T>, j: nat)
    requires j <= |t| && InsertByScore(t[..j], x) + t[j..] == InsertByScore(t, x)
    requires j == 0 || t[j - 1].score >= x.score
    ensures InsertByScore(t, x) == t[..j] + [x] + t[j..]
  {
    var u := t[..j];
    assert j > 0 ==> u[|u| - 1] == t[j - 1];
    assert InsertByScore(u, x) == u + [x];
  }

  lemma GapFill<T>(t: seq<T>, j: nat, y: T, x: T, rest: seq<T>)
    requires j <= |t|
    ensures Gap(t, j, y, rest)[j := x][..|t| + 1] == t[..j] + [x] + t[j..]
    ensures Gap(t, j, y, rest)[j := x][|t| + 1..] == rest
  {
    var g := Gap(t, j, y, rest)[j := x];
    assert g == t[..j] + [x] + t[j..] + rest;
  }

  /** What one pass of the outer loop of the insertion sort keeps: the
      sorted prefix grows by one and the rest is untouched. */
  lemma SortStep<T>(s: seq<Scored<T>>, i: nat, before: seq<Scored<T>>, after: seq<Scored<T>>)
    requires i < |s| == |before| == |after|
    requires before[..i] == SortByScore(s[..i]) && before[i..] == s[i..]
    requires after[..i + 1] == InsertByScore(before[..i], before[i])
    requires after[i + 1..] == before[i + 1..]
    ensures after[..i + 1] == SortByScore(s[..i + 1]) && after[i + 1..] == s[i + 1..]
  {
    assert before[i] == s[i];
    assert s[..i + 1][..i] == s[..i] && s[..i + 1][i] == s[i];
  }

  /** `list.sort` on the entries: an insertion sort in place. */
  method SortByScoreInPlace<T>(a: array<Scored<T>>)
    modifies a
    ensures a[..] == SortByScore(old(a[..]))
  {
    ghost var s := a[..];
    if a.Length == 0 {
      return;
    }
    var i := 1;
    assert s[..1] == [] + [s[0]];
    while i < a.Length
      invariant 1 <= i <= a.Length
      invariant a[..i] == SortByScore(s[..i])
      invariant a[i..] == s[i..]
    {
      ghost var before := a[..];
      InsertInPlace(a, i);
      SortStep(s, i, before, a[..]);
      i := i + 1;
    }
    assert s[..a.Length] == s;
  }
}
