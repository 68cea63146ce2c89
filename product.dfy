/** `list(itertools.product(*lists))`: every way of taking one element from
    each list, in the order `product` yields them (the first list varies
    slowest, as in nested loops; app.py, line 50). */
module CartesianProduct {

  /** `[[x] + t for t in tails]`. */
  function Prepend<T>(x: T, tails: seq<seq<T>>): seq<seq<T>> {
    seq(|tails|, i requires 0 <= i < |tails| => [x] + tails[i])
  }

  /** `[[x] + t for x in xs for t in tails]`. */
  function Extend<T>(xs: seq<T>, tails: seq<seq<T>>): seq<seq<T>> {
    if xs == [] then [] else Prepend(xs[0], tails) + Extend(xs[1..], tails)
  }

  /** `list(product(*ls))`. */
  function Product<T>(ls: seq<seq<T>>): seq<seq<T>> {
    if ls == [] then [[]] else Extend(ls[0], Product(ls[1..]))
  }

  /** The product of the lengths of the lists. */
  function Count<T>(ls: seq<seq<T>>): nat {
    if ls == [] then 1 else |ls[0]| * Count(ls[1..])
  }

  lemma {:induction false} ExtendLength<T>(xs: seq<T>, tails: seq<seq<T>>)
    ensures |Extend(xs, tails)| == |xs| * |tails|
  {
    if xs != [] {
      ExtendLength(xs[1..], tails);
      assert |xs| * |tails| == |tails| + (|xs| - 1) * |tails|;
    }
  }

  /** There are as many combinations as the product of the list lengths. */
  lemma {:induction false} ProductLength<T>(ls: seq<seq<T>>)
    ensures |Product(ls)| == Count(ls)
  {
    if ls != [] {
      ProductLength(ls[1..]);
      ExtendLength(ls[0], Product(ls[1..]));
    }
  }

  /** So there is no combination at all exactly when some list is empty. */
  lemma {:induction false} ProductEmpty<T>(ls: seq<seq<T>>)
    ensures Product(ls) == [] <==> exists i :: 0 <= i < |ls| && ls[i] == []
  {
    ProductLength(ls);
    CountZero(ls);
  }

  lemma {:induction false} CountZero<T>(ls: seq<seq<T>>)
    ensures Count(ls) == 0 <==> exists i :: 0 <= i < |ls| && ls[i] == []
  {
    if ls != [] {
      CountZero(ls[1..]);
      if ls[0] != [] && Count(ls[1..]) == 0 {
        var i :| 0 <= i < |ls[1..]| && ls[1..][i] == [];
        assert ls[i + 1] == [];
      }
      if exists i :: 0 <= i < |ls| && ls[i] == [] {
        var i :| 0 <= i < |ls| && ls[i] == [];
        if i > 0 {
          assert ls[1..][i - 1] == [];
        }
      }
    }
  }

  lemma {:induction false} ExtendMembers<T>(xs: seq<T>, tails: seq<seq<T>>, c: seq<T>)
    ensures c in Extend(xs, tails) <==> c != [] && c[0] in xs && c[1..] in tails
  {
    if xs != [] {
      ExtendMembers(xs[1..], tails, c);
      assert xs == [xs[0]] + xs[1..];
      if c != [] && c[0] == xs[0] && c[1..] in tails {
        var i :| 0 <= i < |tails| && tails[i] == c[1..];
        assert Prepend(xs[0], tails)[i] == c;
      }
    }
  }

  /** A sequence is a combination exactly when it takes its `i`-th element
      from the `i`-th list, for every list. */
  lemma {:induction false} ProductMembers<T>(ls: seq<seq<T>>, c: seq<T>)
    ensures c in Product(ls) <==> |c| == |ls| && forall i :: 0 <= i < |ls| ==> c[i] in ls[i]
  {
    if ls == [] {
    } else {
      ExtendMembers(ls[0], Product(ls[1..]), c);
      if c != [] {
        ProductMembers(ls[1..], c[1..]);
        if |c| == |ls| && forall i :: 0 <= i < |ls| ==> c[i] in ls[i] {
          assert forall i :: 0 <= i < |ls[1..]| ==> c[1..][i] in ls[1..][i] by {
            forall i | 0 <= i < |ls[1..]| ensures c[1..][i] in ls[1..][i] {
              assert c[i + 1] in ls[i + 1];
            }
          }
        }
        if c in Product(ls) {
          assert forall i :: 0 <= i < |ls| ==> c[i] in ls[i] by {
            forall i | 0 <= i < |ls| ensures c[i] in ls[i] {
              if i > 0 {
                assert c[1..][i - 1] in ls[1..][i - 1];
              }
            }
          }
        }
      }
    }
  }

  /** Every combination has one element per list. */
  lemma ProductLengths<T>(ls: seq<seq<T>>)
    ensures forall c :: c in Product(ls) ==> |c| == |ls|
  {
    forall c | c in Product(ls) ensures |c| == |ls| {
      ProductMembers(ls, c);
    }
  }

  lemma MulStep(a: int, t: int)
    requires a >= 1 && t >= 0
    ensures a * t == (a - 1) * t + t && (a - 1) * t >= 0
  {
  }

  lemma {:induction false} ExtendIndex<T>(xs: seq<T>, tails: seq<seq<T>>, i: nat, j: nat)
    requires i < |xs| && j < |tails|
    ensures i * |tails| + j < |Extend(xs, tails)|
    ensures Extend(xs, tails)[i * |tails| + j] == [xs[i]] + tails[j]
  {
    var t := |tails|;
    var e, rest := Extend(xs, tails), Extend(xs[1..], tails);
    assert e == Prepend(xs[0], tails) + rest;
    if i == 0 {
      assert e[j] == Prepend(xs[0], tails)[j];
    } else {
      ExtendIndex(xs[1..], tails, i - 1, j);
      MulStep(i, t);
      var m := (i - 1) * t + j;
      assert i * t + j == t + m;
      assert e[t + m] == rest[m];
    }
  }

  /** The order of `product`: the combinations whose first element is the
      `i`-th of the first list form the `i`-th block, and inside a block they
      follow the order of the product of the remaining lists. */
  lemma ProductIndex<T>(ls: seq<seq<T>>, i: nat, j: nat)
    requires ls != [] && i < |ls[0]| && j < |Product(ls[1..])|
    ensures i * |Product(ls[1..])| + j < |Product(ls)|
    ensures Product(ls)[i * |Product(ls[1..])| + j] == [ls[0][i]] + Product(ls[1..])[j]
  {
    ExtendIndex(ls[0], Product(ls[1..]), i, j);
  }

  /** The first combination takes the first element of every list. */
  lemma {:induction false} ProductFirst<T>(ls: seq<seq<T>>)
    requires forall i :: 0 <= i < |ls| ==> ls[i] != []
    ensures Product(ls) != [] && Product(ls)[0] == seq(|ls|, i requires 0 <= i < |ls| => ls[i][0])
  {
    if ls != [] {
      ProductFirst(ls[1..]);
      ExtendIndex(ls[0], Product(ls[1..]), 0, 0);
      assert ls[1..] != [] ==> ls[1..][0] == ls[1];
    }
  }
}
