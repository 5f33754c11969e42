/** `Array.prototype.filter` on sequences, and what it keeps. */
module Lists {

  /** `s.filter(keep)`: the elements that satisfy `keep`, in their order. */
  function Keep<T(!new)>(s: seq<T>, keep: T -> bool): (r: seq<T>)
    ensures |r| <= |s|
    ensures forall x :: x in r <==> x in s && keep(x)
  {
    if s == [] then []
    else
      var init := Keep(s[..|s| - 1], keep);
      var last := s[|s| - 1];
      assert s == s[..|s| - 1] + [last];
      if keep(last) then init + [last] else init
  }

  /** `a` is `b` with some elements left out and the rest in the same order. */
  predicate SubsequenceOf<T(==)>(a: seq<T>, b: seq<T>)
    decreases |b|
  {
    if a == [] then true
    else if b == [] then false
    else
      || (a[|a| - 1] == b[|b| - 1] && SubsequenceOf(a[..|a| - 1], b[..|b| - 1]))
      || SubsequenceOf(a, b[..|b| - 1])
  }

  /** Filtering keeps the relative order of what it keeps. */
  lemma {:induction false} KeepIsSubsequence<T(!new)>(s: seq<T>, keep: T -> bool)
    ensures SubsequenceOf(Keep(s, keep), s)
  {
    if s != [] {
      KeepIsSubsequence(s[..|s| - 1], keep);
      var r := Keep(s, keep);
      if keep(s[|s| - 1]) {
        assert r[..|r| - 1] == Keep(s[..|s| - 1], keep);
      }
    }
  }

  /** Two successive filters are one filter by both conditions. */
  lemma {:induction false} KeepKeep<T(!new)>(s: seq<T>, f: T -> bool, g: T -> bool, both: T -> bool)
    requires forall x :: both(x) == (f(x) && g(x))
    ensures Keep(Keep(s, f), g) == Keep(s, both)
  {
    if s != [] {
      var init := s[..|s| - 1];
      var last := s[|s| - 1];
      KeepKeep(init, f, g, both);
      if f(last) {
        assert Keep(s, f) == Keep(init, f) + [last];
        assert Keep(s, f)[..|Keep(s, f)| - 1] == Keep(init, f);
      }
    }
  }

  /** A filter that every element passes changes nothing. */
  lemma {:induction false} KeepEverything<T(!new)>(s: seq<T>, keep: T -> bool)
    requires forall i :: 0 <= i < |s| ==> keep(s[i])
    ensures Keep(s, keep) == s
  {
    if s != [] {
      KeepEverything(s[..|s| - 1], keep);
      assert s == s[..|s| - 1] + [s[|s| - 1]];
    }
  }

  /** Filtering a concatenation filters each part. */
  lemma {:induction false} KeepAppend<T(!new)>(a: seq<T>, b: seq<T>, keep: T -> bool)
    ensures Keep(a + b, keep) == Keep(a, keep) + Keep(b, keep)
  {
    if b == [] {
      assert a + b == a;
    } else {
      assert (a + b)[..|a + b| - 1] == a + b[..|b| - 1];
      KeepAppend(a, b[..|b| - 1], keep);
    }
  }

  /** Filters that agree on every element keep the same elements. */
  lemma {:induction false} KeepSame<T(!new)>(s: seq<T>, f: T -> bool, g: T -> bool)
    requires forall x :: f(x) == g(x)
    ensures Keep(s, f) == Keep(s, g)
  {
    if s != [] {
      KeepSame(s[..|s| - 1], f, g);
    }
  }
}
