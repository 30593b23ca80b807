/**
 * Python's `sorted(...)` and `list.sort(key=...)`, modelled as insertion sort
 * under a total preorder, and Python's ordering of strings.
 *
 * Python's sort is stable; the modelled code only ever sorts sequences whose
 * order came from iterating a `set` or `dict`, so the order among equal keys is
 * left unspecified here and only "sorted" and "a permutation" are promised.
 */
module Sorting {
  import opened Sets

  /** `le` is total and transitive: what a sort key comparison provides. */
  ghost predicate TotalPreorder<T(!new)>(le: (T, T) -> bool)
  {
    && (forall a, b :: le(a, b) || le(b, a))
    && (forall a, b, c :: le(a, b) && le(b, c) ==> le(a, c))
  }

  ghost predicate SortedBy<T>(s: seq<T>, le: (T, T) -> bool)
  {
    forall i, j | 0 <= i < j < |s| :: le(s[i], s[j])
  }

  /** Inserts `x` into the sorted sequence `s`, before the first element it does not exceed. */
  function Insert<T(!new)>(x: T, s: seq<T>, le: (T, T) -> bool): (r: seq<T>)
    requires TotalPreorder(le)
    requires SortedBy(s, le)
    ensures SortedBy(r, le)
    ensures multiset(r) == multiset(s) + multiset{x}
    ensures |r| == |s| + 1
  {
    if s == [] then [x]
    else if le(x, s[0]) then [x] + s
    else
      var r' := Insert(x, s[1..], le);
      assert s == [s[0]] + s[1..];
      assert forall k | 0 <= k < |r'| :: le(s[0], r'[k]) by {
        forall k | 0 <= k < |r'| ensures le(s[0], r'[k]) {
          assert r'[k] in multiset(r');
          if r'[k] != x {
            assert r'[k] in multiset(s[1..]);
            var j :| 0 <= j < |s[1..]| && s[1..][j] == r'[k];
            assert s[j + 1] == r'[k];
          }
        }
      }
      [s[0]] + r'
  }

  /** A sorted permutation of `s`. */
  function SortBy<T(!new)>(s: seq<T>, le: (T, T) -> bool): (r: seq<T>)
    requires TotalPreorder(le)
    ensures SortedBy(r, le)
    ensures multiset(r) == multiset(s)
    ensures |r| == |s|
  {
    if s == [] then []
    else
      assert s == [s[0]] + s[1..];
      Insert(s[0], SortBy(s[1..], le), le)
  }

  /** Python's ordering of `str` values: lexicographic by code point, a proper
      prefix coming first. */
  predicate LexLe(a: string, b: string)
  {
    a == [] || (b != [] && (a[0] < b[0] || (a[0] == b[0] && LexLe(a[1..], b[1..]))))
  }

  lemma {:induction false} LexLeTotal(a: string, b: string)
    ensures LexLe(a, b) || LexLe(b, a)
  {
    if a != [] && b != [] && a[0] == b[0] {
      LexLeTotal(a[1..], b[1..]);
    }
  }

  lemma {:induction false} LexLeTransitive(a: string, b: string, c: string)
    requires LexLe(a, b) && LexLe(b, c)
    ensures LexLe(a, c)
  {
    if a != [] && a[0] == b[0] && b[0] == c[0] {
      LexLeTransitive(a[1..], b[1..], c[1..]);
    }
  }

  lemma {:induction false} LexLeAntisymmetric(a: string, b: string)
    requires LexLe(a, b) && LexLe(b, a)
    ensures a == b
  {
    if a != [] && b != [] {
      LexLeAntisymmetric(a[1..], b[1..]);
      assert a == [a[0]] + a[1..] && b == [b[0]] + b[1..];
    }
  }

  lemma {:induction false} LexLeIsTotalPreorder()
    ensures TotalPreorder(LexLe)
  {
    forall a, b ensures LexLe(a, b) || LexLe(b, a) {
      LexLeTotal(a, b);
    }
    forall a, b, c | LexLe(a, b) && LexLe(b, c) ensures LexLe(a, c) {
      LexLeTransitive(a, b, c);
    }
  }

  /** Python's `sorted(s)` for a set of strings: each element once, in order. */
  method SortedStrings(s: set<string>) returns (r: seq<string>)
    ensures SortedBy(r, LexLe)
    ensures |r| == |s|
    ensures forall x :: x in r <==> x in s
    ensures Distinct(r)
  {
    LexLeIsTotalPreorder();
    r := [];
    var rest := s;
    while rest != {}
      invariant rest <= s
      invariant SortedBy(r, LexLe)
      invariant forall x :: x in r <==> x in s - rest
      invariant |r| == |s - rest|
      invariant multiset(r) == multiset(s - rest)
      decreases rest
    {
      var x :| x in rest;
      assert s - (rest - {x}) == (s - rest) + {x};
      assert multiset((s - rest) + {x}) == multiset(s - rest) + multiset{x};
      var r' := Insert(x, r, LexLe);
      forall y ensures y in r' <==> y in r || y == x {
        assert y in r' <==> y in multiset(r');
        assert y in r <==> y in multiset(r);
      }
      r := r';
      rest := rest - {x};
    }
    assert s - rest == s;
    SetOrderDistinct(r, s);
  }
}
