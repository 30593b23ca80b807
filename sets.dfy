/**
 * Picking an element of a non-empty set, as iterating a Python `set` or the
 * keys of a `dict` does: which element comes first is left open.
 */
module Sets {

  /** Some element of `s`, for proofs. */
  lemma {:induction false} Elem<T>(s: set<T>) returns (x: T)
    requires s != {}
    ensures x in s
  {
    x :| x in s;
  }

  /** Some element of `s`, for specification functions. */
  ghost function Any<T>(s: set<T>): (x: T)
    requires s != {}
    ensures x in s
  {
    var x :| x in s;
    x
  }

  /** The smallest element of a non-empty finite set of reals. */
  ghost function SetMin(s: set<real>): (m: real)
    requires s != {}
    ensures m in s
    ensures forall y | y in s :: m <= y
    decreases |s|
  {
    var x := Any(s);
    var rest := s - {x};
    assert forall y | y in s :: y == x || y in rest;
    if rest == {} then x
    else
      var m' := SetMin(rest);
      if x <= m' then x else m'
  }

  /** No element occurs twice in `q`. */
  ghost predicate Distinct<T>(q: seq<T>)
  {
    forall i, j | 0 <= i < j < |q| :: q[i] != q[j]
  }

  /** A sequence holding each element of a set exactly once has no repeats. */
  lemma {:induction false} SetOrderDistinct<T>(q: seq<T>, s: set<T>)
    requires multiset(q) == multiset(s)
    ensures Distinct(q)
  {
    forall i, j | 0 <= i < j < |q| ensures q[i] != q[j] {
      RepeatCounted(q, i, j);
    }
  }

  /** An element found at two positions occurs at least twice. */
  lemma {:induction false} RepeatCounted<T>(q: seq<T>, i: nat, j: nat)
    requires i < j < |q|
    ensures q[i] == q[j] ==> multiset(q)[q[i]] >= 2
  {
    assert q == q[..j] + q[j..];
    assert q[i] in q[..j] && q[j] == q[j..][0];
    assert multiset(q)[q[i]] == multiset(q[..j])[q[i]] + multiset(q[j..])[q[i]];
  }

  lemma {:induction false} DistinctCount<T>(q: seq<T>, x: T)
    requires Distinct(q)
    ensures multiset(q)[x] <= 1
  {
    if q != [] {
      assert q == [q[0]] + q[1..];
      assert Distinct(q[1..]) by {
        forall i, j | 0 <= i < j < |q[1..]| ensures q[1..][i] != q[1..][j] {
          assert q[1..][i] == q[i + 1] && q[1..][j] == q[j + 1];
        }
      }
      DistinctCount(q[1..], x);
      if q[0] == x {
        assert x !in q[1..];
      }
    }
  }

  /** Reordering keeps a sequence free of repeats. */
  lemma {:induction false} DistinctByMultiset<T>(a: seq<T>, b: seq<T>)
    requires multiset(a) == multiset(b) && Distinct(a)
    ensures Distinct(b)
  {
    forall i, j | 0 <= i < j < |b| ensures b[i] != b[j] {
      if b[i] == b[j] {
        var x := b[i];
        assert b[..j + 1] == b[..i + 1] + b[i + 1..j + 1];
        assert b[..i + 1][i] == x && b[i + 1..j + 1][j - i - 1] == x;
        assert multiset(b[..j + 1])[x] >= 2;
        assert b == b[..j + 1] + b[j + 1..];
        DistinctCount(a, x);
      }
    }
  }

  /** The elements of `s` in some order, each once: iterating a Python `set`. */
  method Enumerate<T>(s: set<T>) returns (q: seq<T>)
    ensures forall x :: x in q <==> x in s
    ensures |q| == |s|
    ensures Distinct(q)
  {
    q := [];
    var rest := s;
    while rest != {}
      invariant rest <= s
      invariant forall x :: x in q <==> x in s - rest
      invariant |q| + |rest| == |s|
      invariant Distinct(q)
      decreases rest
    {
      ghost var some := Elem(rest);
      var x :| x in rest;
      q := q + [x];
      rest := rest - {x};
    }
  }

  /** The elements of a sequence, as a set. */
  function Elements<T>(q: seq<T>): set<T>
  {
    set x | x in q
  }

  /** A sequence whose members are exactly those of `s` has `s` as its elements. */
  lemma {:induction false} ElementsOf<T>(q: seq<T>, s: set<T>)
    requires forall x :: x in q <==> x in s
    ensures Elements(q) == s
  {
  }
}
