/** List comprehensions with a condition, `[x for x in s if p(x)]`, and what
    they keep: exactly the elements that pass, in their original order
    (app.py, lines 46, 47 and 62); and comprehensions whose element
    expression may raise (app.py, line 46). */
module Sequences {
  import opened Results

  /** `[x for x in s if p(x)]`. */
  function Filter<T>(s: seq<T>, p: T -> bool): (r: seq<T>)
    ensures |r| <= |s|
  {
    if s == [] then [] else (if p(s[0]) then [s[0]] else []) + Filter(s[1..], p)
  }

  /** `r` is `s` with some elements left out, the rest in their order. */
  ghost predicate IsSubsequence<T>(r: seq<T>, s: seq<T>)
    decreases |s|
  {
    if r == [] then true
    else if s == [] then false
    else (r[0] == s[0] && IsSubsequence(r[1..], s[1..])) || IsSubsequence(r, s[1..])
  }

  /** Filtering a concatenation filters each side. */
  lemma {:induction false} FilterAppend<T>(a: seq<T>, b: seq<T>, p: T -> bool)
    ensures Filter(a + b, p) == Filter(a, p) + Filter(b, p)
  {
    if a == [] {
      assert a + b == b;
    } else {
      var head := if p(a[0]) then [a[0]] else [];
      assert (a + b)[0] == a[0] && (a + b)[1..] == a[1..] + b;
      assert Filter(a + b, p) == head + Filter(a[1..] + b, p);
      FilterAppend(a[1..], b, p);
      assert Filter(a, p) == head + Filter(a[1..], p);
    }
  }

  /** The comprehension keeps an element exactly when it is in `s` and passes `p`. */
  lemma {:induction false} FilterMembers<T>(s: seq<T>, p: T -> bool, x: T)
    ensures x in Filter(s, p) <==> x in s && p(x)
  {
    if s != [] {
      FilterMembers(s[1..], p, x);
      assert s == [s[0]] + s[1..];
    }
  }

  /** It keeps every copy of an element that passes and none of one that fails. */
  lemma {:induction false} FilterCounts<T>(s: seq<T>, p: T -> bool, x: T)
    ensures multiset(Filter(s, p))[x] == if p(x) then multiset(s)[x] else 0
  {
    if s != [] {
      FilterCounts(s[1..], p, x);
      assert s == [s[0]] + s[1..];
    }
  }

  /** It keeps the relative order of what it keeps. */
  lemma {:induction false} FilterIsSubsequence<T>(s: seq<T>, p: T -> bool)
    ensures IsSubsequence(Filter(s, p), s)
    decreases |s|
  {
    if s != [] {
      FilterIsSubsequence(s[1..], p);
      if p(s[0]) {
        assert Filter(s, p)[0] == s[0] && Filter(s, p)[1..] == Filter(s[1..], p);
      } else {
        assert Filter(s, p) == Filter(s[1..], p);
      }
    }
  }

  /** When everything passes, nothing is dropped. */
  lemma {:induction false} FilterAll<T>(s: seq<T>, p: T -> bool)
    requires forall i :: 0 <= i < |s| ==> p(s[i])
    ensures Filter(s, p) == s
  {
    if s != [] {
      FilterAll(s[1..], p);
      assert [s[0]] + s[1..] == s;
    }
  }

  /** The first element kept is the first element of `s` that passes. */
  lemma {:induction false} FilterFirst<T>(s: seq<T>, p: T -> bool, i: nat)
    requires i < |s| && p(s[i]) && forall j :: 0 <= j < i ==> !p(s[j])
    ensures Filter(s, p) != [] && Filter(s, p)[0] == s[i]
  {
    if i > 0 {
      FilterFirst(s[1..], p, i - 1);
    }
  }

  /** Nothing is kept when nothing passes. */
  lemma {:induction false} FilterNone<T>(s: seq<T>, p: T -> bool)
    ensures Filter(s, p) == [] <==> forall i :: 0 <= i < |s| ==> !p(s[i])
  {
    if s != [] {
      FilterNone(s[1..], p);
      assert forall i :: 1 <= i < |s| ==> s[i] == s[1..][i - 1];
    }
  }

  /** `[f(x) for x in xs]` where `f` may raise: the results in order, or the
      error of the first element that fails, after which nothing more runs. */
  function MapAll<A, B, E>(xs: seq<A>, f: A -> Result<B, E>): (r: Result<seq<B>, E>)
    ensures r.Ok? ==> |r.value| == |xs|
  {
    if xs == [] then Ok([])
    else match MapAll(xs[..|xs| - 1], f)
      case Err(e) => Err(e)
      case Ok(prev) =>
        match f(xs[|xs| - 1])
        case Err(e) => Err(e)
        case Ok(y) => Ok(prev + [y])
  }

  /** It succeeds exactly when every element succeeds, and then holds each
      element's result at that element's place. */
  lemma {:induction false} MapAllOk<A, B, E>(xs: seq<A>, f: A -> Result<B, E>)
    ensures MapAll(xs, f).Ok? <==> forall i :: 0 <= i < |xs| ==> f(xs[i]).Ok?
    ensures MapAll(xs, f).Ok? ==> forall i :: 0 <= i < |xs| ==> MapAll(xs, f).value[i] == f(xs[i]).value
  {
    if xs != [] {
      var init := xs[..|xs| - 1];
      MapAllOk(init, f);
      assert forall i :: 0 <= i < |init| ==> init[i] == xs[i];
    }
  }

  /** When it fails, the error is the one of the first element that fails. */
  lemma {:induction false} MapAllFirstFailure<A, B, E>(xs: seq<A>, f: A -> Result<B, E>, i: nat)
    requires i < |xs| && f(xs[i]).Err?
    requires forall j :: 0 <= j < i ==> f(xs[j]).Ok?
    ensures MapAll(xs, f) == Err(f(xs[i]).error)
  {
    var init := xs[..|xs| - 1];
    if i < |init| {
      assert forall j :: 0 <= j <= i ==> init[j] == xs[j];
      MapAllFirstFailure(init, f, i);
    } else {
      assert forall j :: 0 <= j < |init| ==> init[j] == xs[j];
      MapAllOk(init, f);
    }
  }

  /** On a prefix: a success extends a successful prefix, and a failure stays
      the same failure whatever follows. */
  lemma {:induction false} MapAllPrefix<A, B, E>(xs: seq<A>, f: A -> Result<B, E>, m: nat, n: nat)
    requires m <= n <= |xs|
    ensures MapAll(xs[..n], f).Ok? ==>
      MapAll(xs[..m], f).Ok? && MapAll(xs[..m], f).value == MapAll(xs[..n], f).value[..m]
    ensures MapAll(xs[..m], f).Err? ==> MapAll(xs[..n], f) == MapAll(xs[..m], f)
    decreases n
  {
    if m < n {
      MapAllPrefix(xs, f, m, n - 1);
      assert xs[..n][..n - 1] == xs[..n - 1];
    }
  }

  /** How many elements, from the first, succeed: where `MapAll` stops. */
  function CountOk<A, B, E>(xs: seq<A>, f: A -> Result<B, E>): (n: nat)
    ensures n <= |xs|
    ensures forall i :: 0 <= i < n ==> f(xs[i]).Ok?
    ensures n < |xs| ==> f(xs[n]).Err?
  {
    if xs == [] || f(xs[0]).Err? then 0
    else
      var rest := xs[1..];
      assert forall i :: 1 <= i < |xs| ==> xs[i] == rest[i - 1];
      1 + CountOk(rest, f)
  }

  /** `MapAll` succeeds exactly when every element does; otherwise it fails with
      the error of the element right after those that succeed. */
  lemma MapAllCount<A, B, E>(xs: seq<A>, f: A -> Result<B, E>)
    ensures MapAll(xs, f).Ok? <==> CountOk(xs, f) == |xs|
    ensures CountOk(xs, f) < |xs| ==> MapAll(xs, f) == Err(f(xs[CountOk(xs, f)]).error)
  {
    MapAllOk(xs, f);
    if CountOk(xs, f) < |xs| {
      MapAllFirstFailure(xs, f, CountOk(xs, f));
    }
  }
}
