/** The string operations `parse_date` and the blank-entry test rely on:
    `str.isspace`, `str.lower`, `str.strip` and `str.split()` with no
    separator (split on runs of whitespace, dropping empty pieces), as
    used at app.py, lines 15 and 46. */
module PyText {

  /** The characters Python's `str.isspace()` accepts. */
  predicate IsSpace(c: char) {
    c == ' ' || ('\t' <= c <= '\r') || ('\U{1C}' <= c <= '\U{1F}')
    || c == '\U{85}' || c == '\U{A0}' || c == '\U{1680}'
    || ('\U{2000}' <= c <= '\U{200A}') || c == '\U{2028}' || c == '\U{2029}'
    || c == '\U{202F}' || c == '\U{205F}' || c == '\U{3000}'
  }

  predicate AllSpace(s: string) {
    forall i :: 0 <= i < |s| ==> IsSpace(s[i])
  }

  predicate NoSpace(s: string) {
    forall i :: 0 <= i < |s| ==> !IsSpace(s[i])
  }

  function LowerChar(c: char): char {
    if 'A' <= c <= 'Z' then (c as int + 32) as char else c
  }

  /** `s.lower()` on the ASCII letters. */
  function Lower(s: string): (r: string)
    ensures |r| == |s|
    ensures forall i :: 0 <= i < |s| ==> r[i] == LowerChar(s[i])
  {
    seq(|s|, i requires 0 <= i < |s| => LowerChar(s[i]))
  }

  /** The first position at or after `i` that does not hold whitespace. */
  function SkipSpace(s: string, i: nat): (n: nat)
    requires i <= |s|
    ensures i <= n <= |s| && (n == |s| || !IsSpace(s[n]))
    ensures forall k :: i <= k < n ==> IsSpace(s[k])
    decreases |s| - i
  {
    if i < |s| && IsSpace(s[i]) then SkipSpace(s, i + 1) else i
  }

  /** The end of the text before the whitespace that ends at `j`. */
  function SkipSpaceBack(s: string, j: nat): (n: nat)
    requires j <= |s|
    ensures n <= j && (n == 0 || !IsSpace(s[n - 1]))
    ensures forall k :: n <= k < j ==> IsSpace(s[k])
  {
    if j > 0 && IsSpace(s[j - 1]) then SkipSpaceBack(s, j - 1) else j
  }

  /** `s.strip()`: without its leading and trailing whitespace. */
  function Strip(s: string): (t: string)
    ensures exists i, j :: 0 <= i <= j <= |s| && t == s[i..j] && AllSpace(s[..i]) && AllSpace(s[j..])
    ensures t == [] || (!IsSpace(t[0]) && !IsSpace(t[|t| - 1]))
    ensures t == [] <==> AllSpace(s)
  {
    var i := SkipSpace(s, 0);
    if i == |s| then
      assert AllSpace(s[..i]) && AllSpace(s[i..]);
      []
    else
      var j := SkipSpaceBack(s, |s|);
      assert j > i;
      assert AllSpace(s[..i]) && AllSpace(s[j..]);
      s[i..j]
  }

  /** `s.split()`: the maximal runs of non-whitespace characters, in order.
      A character that is not whitespace either starts a new token or, when
      the character after it is not whitespace either, joins the token that
      the rest of the string begins with. */
  function Split(s: string): (r: seq<string>)
    ensures s != [] && !IsSpace(s[0]) ==> r != [] && r[0] != [] && r[0][0] == s[0]
  {
    if s == [] then []
    else if IsSpace(s[0]) then Split(s[1..])
    else if |s| > 1 && !IsSpace(s[1]) then
      var r := Split(s[1..]);
      [[s[0]] + r[0]] + r[1..]
    else [[s[0]]] + Split(s[1..])
  }

  /** Every token of a split is a non-empty run of non-whitespace characters. */
  lemma {:induction false} SplitTokensAreWords(s: string)
    ensures forall k :: 0 <= k < |Split(s)| ==> Split(s)[k] != [] && NoSpace(Split(s)[k])
  {
    if s != [] {
      SplitTokensAreWords(s[1..]);
    }
  }

  /** Whitespace in front of a string does not change its split. */
  lemma {:induction false} SplitAfterSpace(p: string, s: string)
    requires AllSpace(p)
    ensures Split(p + s) == Split(s)
  {
    if p != [] {
      assert (p + s)[1..] == p[1..] + s;
      SplitAfterSpace(p[1..], s);
    } else {
      assert p + s == s;
    }
  }

  /** Splitting at a place where whitespace starts splits the two sides apart. */
  lemma {:induction false} SplitJoin(s: string, p: string)
    requires p == [] || IsSpace(p[0])
    ensures Split(s + p) == Split(s) + Split(p)
  {
    if s == [] {
      assert s + p == p;
    } else {
      SplitJoin(s[1..], p);
      SplitJoinStep(s, p);
    }
  }

  /** One step of `SplitJoin`: from the rest of `s` to all of it. */
  lemma {:induction false} SplitJoinStep(s: string, p: string)
    requires p == [] || IsSpace(p[0])
    requires s != [] && Split(s[1..] + p) == Split(s[1..]) + Split(p)
    ensures Split(s + p) == Split(s) + Split(p)
  {
    var sp := s + p;
    assert sp[0] == s[0] && sp[1..] == s[1..] + p;
    if IsSpace(s[0]) {
    } else if |s| > 1 && !IsSpace(s[1]) {
      assert sp[1] == s[1];
      SplitJoinInWord(s, p, sp);
    } else {
      assert |s| > 1 ==> sp[1] == s[1];
      assert |s| == 1 ==> s[1..] == [] && (|sp| > 1 ==> sp[1] == p[0]);
      SplitJoinWordEnd(s, p, sp);
    }
  }

  lemma {:induction false} SplitJoinInWord(s: string, p: string, sp: string)
    requires |s| > 1 && !IsSpace(s[0]) && !IsSpace(s[1])
    requires sp == s + p && sp[0] == s[0] && sp[1] == s[1] && sp[1..] == s[1..] + p
    requires Split(s[1..] + p) == Split(s[1..]) + Split(p)
    ensures Split(sp) == Split(s) + Split(p)
  {
    var r := Split(s[1..]);
    assert Split(sp) == [[s[0]] + (r + Split(p))[0]] + (r + Split(p))[1..];
    assert (r + Split(p))[1..] == r[1..] + Split(p);
  }

  lemma {:induction false} SplitJoinWordEnd(s: string, p: string, sp: string)
    requires s != [] && !IsSpace(s[0]) && (|s| == 1 || IsSpace(s[1]))
    requires sp == s + p && sp[0] == s[0] && sp[1..] == s[1..] + p
    requires |sp| > 1 ==> IsSpace(sp[1])
    requires Split(s[1..] + p) == Split(s[1..]) + Split(p)
    ensures Split(sp) == Split(s) + Split(p)
  {
    assert sp != [] && !IsSpace(sp[0]);
    assert Split(sp) == [[sp[0]]] + Split(sp[1..]);
    assert Split(s) == [[s[0]]] + Split(s[1..]);
    assert Split(sp) == [[s[0]]] + (Split(s[1..]) + Split(p));
  }

  /** A string of whitespace has no tokens. */
  lemma SplitAllSpace(p: string)
    requires AllSpace(p)
    ensures Split(p) == []
  {
    SplitAfterSpace(p, []);
    assert p + [] == p;
  }

  /** Whitespace after a string does not change its split. */
  lemma SplitBeforeSpace(s: string, p: string)
    requires AllSpace(p)
    ensures Split(s + p) == Split(s)
  {
    SplitJoin(s, p);
    SplitAllSpace(p);
  }

  /** A single word splits into itself. */
  lemma {:induction false} SplitOneWord(w: string)
    requires w != [] && NoSpace(w)
    ensures Split(w) == [w]
  {
    if |w| > 1 {
      assert !IsSpace(w[1]);
      assert NoSpace(w[1..]) by {
        forall i | 0 <= i < |w[1..]| ensures !IsSpace(w[1..][i]) {
          assert w[1..][i] == w[i + 1];
        }
      }
      SplitOneWord(w[1..]);
      assert [w[0]] + w[1..] == w;
    } else {
      assert w[1..] == [];
      assert [w[0]] == w;
    }
  }

  /** Splitting a word, one separator and more text yields that word first. */
  lemma SplitWordThen(w: string, sep: char, rest: string)
    requires w != [] && NoSpace(w) && IsSpace(sep)
    ensures Split(w + [sep] + rest) == [w] + Split(rest)
  {
    assert w + [sep] + rest == w + ([sep] + rest);
    SplitJoin(w, [sep] + rest);
    SplitOneWord(w);
    assert ([sep] + rest)[1..] == rest;
  }

  /** Three words joined by single blanks split back into the three words. */
  lemma SplitThreeWords(a: string, b: string, c: string)
    requires a != [] && b != [] && c != [] && NoSpace(a) && NoSpace(b) && NoSpace(c)
    ensures Split(a + " " + b + " " + c) == [a, b, c]
  {
    assert a + " " + b + " " + c == a + [' '] + (b + [' '] + c);
    SplitWordThen(a, ' ', b + [' '] + c);
    SplitWordThen(b, ' ', c);
    SplitOneWord(c);
  }

  /** `s.strip().split()` is `s.split()`: the strip cannot change any token. */
  lemma SplitOfStrip(s: string)
    ensures Split(Strip(s)) == Split(s)
  {
    var i, j :| 0 <= i <= j <= |s| && Strip(s) == s[i..j] && AllSpace(s[..i]) && AllSpace(s[j..]);
    assert s == s[..i] + (s[i..j] + s[j..]);
    SplitAfterSpace(s[..i], s[i..j] + s[j..]);
    SplitBeforeSpace(s[i..j], s[j..]);
  }

  predicate NoCapitals(s: string) {
    forall i :: 0 <= i < |s| ==> !('A' <= s[i] <= 'Z')
  }

  /** `lower()` leaves a string without upper-case ASCII letters as it is. */
  lemma LowerWithoutCapitals(s: string)
    requires NoCapitals(s)
    ensures Lower(s) == s
  {
  }

  /** `lower()` works character by character, so it distributes over concatenation. */
  lemma LowerConcat(s: string, u: string)
    ensures Lower(s + u) == Lower(s) + Lower(u)
  {
  }

  /** `lower()` keeps whitespace where it is. */
  lemma LowerKeepsSpace(s: string)
    ensures AllSpace(s) ==> AllSpace(Lower(s))
    ensures Lower(s) == [] <==> s == []
  {
  }
}
