/**
 * The arithmetic of meetup/services/optimizer.py: rounding to one decimal,
 * the maximum and the sum of journey times, and the four per-station scores.
 *
 * `easy_home` is +infinity when no return journey is known; a score is
 * therefore a real or infinity.
 */
module Scores {
  import opened Wrappers

  datatype Score = Finite(value: real) | Infinite

  /** Python's `<=` on floats, with +infinity above every finite value. */
  predicate ScoreLe(a: Score, b: Score)
  {
    b.Infinite? || (a.Finite? && a.value <= b.value)
  }

  lemma {:induction false} ScoreLeTransitive(a: Score, b: Score, c: Score)
    requires ScoreLe(a, b) && ScoreLe(b, c)
    ensures ScoreLe(a, c)
  {
  }

  // ---------------------------------------------------------------------------
  // round(x, 1)
  // ---------------------------------------------------------------------------

  /** The integer nearest to `t`, halves going to the even neighbour. */
  function RoundHalfEven(t: real): (k: int)
    ensures -0.5 <= k as real - t <= 0.5
    ensures k as real - t == 0.5 || t - k as real == 0.5 ==> k % 2 == 0
  {
    var f := t.Floor;
    var frac := t - f as real;
    if frac < 0.5 then f
    else if frac > 0.5 then f + 1
    else if f % 2 == 0 then f
    else f + 1
  }

  lemma {:induction false} RoundHalfEvenMonotone(s: real, t: real)
    requires s <= t
    ensures RoundHalfEven(s) <= RoundHalfEven(t)
  {
    var fs, ft := s.Floor, t.Floor;
    if fs == ft {
      assert s - fs as real <= t - ft as real;
    } else {
      assert fs < ft;
    }
  }

  lemma {:induction false} RoundHalfEvenOfInt(k: int)
    ensures RoundHalfEven(k as real) == k
  {
    assert (k as real).Floor == k;
  }

  /** `round(x, 1)`: the nearest multiple of 0.1, ties to even. */
  function Round1(x: real): (r: real)
    ensures -0.05 <= r - x <= 0.05
    ensures (r * 10.0).Floor as real == r * 10.0
    ensures r - x == 0.05 || x - r == 0.05 ==> (r * 10.0).Floor % 2 == 0
  {
    var k := RoundHalfEven(x * 10.0);
    TenthsNear(x, k);
    k as real / 10.0
  }

  /** An integer within a half of `10 x` gives a tenth within 0.05 of `x`. */
  lemma {:induction false} TenthsNear(x: real, k: int)
    requires -0.5 <= k as real - x * 10.0 <= 0.5
    requires k as real - x * 10.0 == 0.5 || x * 10.0 - k as real == 0.5 ==> k % 2 == 0
    ensures -0.05 <= k as real / 10.0 - x <= 0.05
    ensures (k as real / 10.0 * 10.0).Floor as real == k as real / 10.0 * 10.0
    ensures k as real / 10.0 - x == 0.05 || x - k as real / 10.0 == 0.05 ==> (k as real / 10.0 * 10.0).Floor % 2 == 0
  {
    var r := k as real / 10.0;
    assert r * 10.0 == k as real;
    assert (r - x) * 10.0 == k as real - x * 10.0;
  }

  /** Rounding never reorders two values. */
  lemma {:induction false} Round1Monotone(x: real, y: real)
    requires x <= y
    ensures Round1(x) <= Round1(y)
  {
    RoundHalfEvenMonotone(x * 10.0, y * 10.0);
  }

  /** A rounded value rounds to itself. */
  lemma {:induction false} Round1Idempotent(x: real)
    ensures Round1(Round1(x)) == Round1(x)
  {
    var k := RoundHalfEven(x * 10.0);
    assert Round1(x) * 10.0 == k as real;
    RoundHalfEvenOfInt(k);
  }

  /** `round(score, 1)`, where `round(inf, 1)` is `inf`. */
  function RoundScore(s: Score): (r: Score)
    ensures r.Infinite? <==> s.Infinite?
    ensures r.Finite? ==> -0.05 <= r.value - s.value <= 0.05
  {
    if s.Infinite? then Infinite else Finite(Round1(s.value))
  }

  lemma {:induction false} RoundScoreMonotone(a: Score, b: Score)
    requires ScoreLe(a, b)
    ensures ScoreLe(RoundScore(a), RoundScore(b))
  {
    if a.Finite? && b.Finite? {
      Round1Monotone(a.value, b.value);
    }
  }

  // ---------------------------------------------------------------------------
  // max, sum and the known return times
  // ---------------------------------------------------------------------------

  /** `max(xs)`. */
  function MaxOf(xs: seq<real>): (m: real)
    requires |xs| > 0
    ensures m in xs
    ensures forall k | 0 <= k < |xs| :: xs[k] <= m
  {
    var last := xs[|xs| - 1];
    if |xs| == 1 then last
    else
      var init := xs[..|xs| - 1];
      var m' := MaxOf(init);
      assert forall k | 0 <= k < |init| :: init[k] == xs[k];
      if last > m' then last else m'
  }

  /** `sum(xs)`. */
  function SumOf(xs: seq<real>): real
  {
    if xs == [] then 0.0 else SumOf(xs[..|xs| - 1]) + xs[|xs| - 1]
  }

  lemma {:induction false} SumNonNegative(xs: seq<real>)
    requires forall k | 0 <= k < |xs| :: xs[k] >= 0.0
    ensures SumOf(xs) >= 0.0
  {
    if xs != [] {
      var init := xs[..|xs| - 1];
      assert forall k | 0 <= k < |init| :: init[k] == xs[k];
      SumNonNegative(init);
    }
  }

  /** With no negative journey, the total is at least the longest one. */
  lemma {:induction false} MaxAtMostSum(xs: seq<real>)
    requires |xs| > 0
    requires forall k | 0 <= k < |xs| :: xs[k] >= 0.0
    ensures MaxOf(xs) <= SumOf(xs)
  {
    if |xs| > 1 {
      var init := xs[..|xs| - 1];
      assert forall k | 0 <= k < |init| :: init[k] == xs[k];
      MaxAtMostSum(init);
      SumNonNegative(init);
    }
  }

  /** `[t for t in ts if t is not None]`. */
  function Known(ts: seq<Option<real>>): (r: seq<real>)
    ensures forall x :: x in r <==> Some(x) in ts
    ensures |r| <= |ts|
  {
    if ts == [] then []
    else
      var init := ts[..|ts| - 1];
      assert ts == init + [ts[|ts| - 1]];
      var r' := Known(init);
      if ts[|ts| - 1].Some? then r' + [ts[|ts| - 1].value] else r'
  }

  /** `Known` is exactly the comprehension: it keeps each known time once per
      occurrence and in order, as filtering a concatenation filters each part,
      and drops every `None`. */
  lemma {:induction false} KnownFilters(a: seq<Option<real>>, b: seq<Option<real>>, x: real)
    ensures Known(a + b) == Known(a) + Known(b)
    ensures Known([Some(x)]) == [x] && Known([None]) == []
    decreases |b|
  {
    if b == [] {
      assert a + b == a;
    } else {
      var init := b[..|b| - 1];
      KnownFilters(a, init, x);
      assert a + b == (a + init) + [b[|b| - 1]];
      assert (a + b)[..|a + b| - 1] == a + init;
      assert b[..|b| - 1] == init;
    }
    var none: seq<Option<real>> := [None];
    assert [Some(x)][..0] == [] && none[..0] == [];
  }

  // ---------------------------------------------------------------------------
  // The four scores of a station, from rounded journey times
  // ---------------------------------------------------------------------------

  /** `score_quick_arrival`: the latest arrival. */
  function QuickArrival(outbound: seq<real>): Score
    requires |outbound| > 0
  {
    Finite(MaxOf(outbound))
  }

  /** `score_efficiency`: the group's total travel time. */
  function Efficiency(outbound: seq<real>): Score
  {
    Finite(SumOf(outbound))
  }

  /** `score_easy_home`: the longest known trip home, or +infinity. */
  function EasyHome(homeward: seq<Option<real>>): Score
  {
    var known := Known(homeward);
    if known == [] then Infinite else Finite(MaxOf(known))
  }

  /** `score_fairness`: the longest trip there plus the longest known trip home
      (0 when none is known). */
  function Fairness(outbound: seq<real>, homeward: seq<Option<real>>): Score
    requires |outbound| > 0
  {
    var known := Known(homeward);
    Finite(MaxOf(outbound) + (if known == [] then 0.0 else MaxOf(known)))
  }

  /** `easy_home` is infinite exactly when no trip home is known, and otherwise
      bounds every known trip home and is one of them. */
  lemma {:induction false} EasyHomeSpec(homeward: seq<Option<real>>)
    ensures EasyHome(homeward).Infinite? <==> forall k | 0 <= k < |homeward| :: homeward[k].None?
    ensures EasyHome(homeward).Finite? ==>
              Some(EasyHome(homeward).value) in homeward &&
              forall k | 0 <= k < |homeward| && homeward[k].Some? :: homeward[k].value <= EasyHome(homeward).value
  {
    var known := Known(homeward);
    if known == [] {
      forall k | 0 <= k < |homeward| ensures homeward[k].None? {
        assert homeward[k] in homeward;
      }
    } else {
      var x := known[0];
      assert Some(x) in homeward;
      forall k | 0 <= k < |homeward| && homeward[k].Some? ensures homeward[k].value <= EasyHome(homeward).value {
        assert homeward[k] in homeward;
        assert homeward[k].value in known;
      }
    }
  }

  /** `fairness` is `quick_arrival` plus the finite part of `easy_home`. */
  lemma {:induction false} FairnessSplits(outbound: seq<real>, homeward: seq<Option<real>>)
    requires |outbound| > 0
    ensures var home := EasyHome(homeward);
            Fairness(outbound, homeward).value ==
            QuickArrival(outbound).value + (if home.Infinite? then 0.0 else home.value)
  {
  }

  /** For trips that take no negative time: the latest arrival is at most the
      total, and fairness is at least the latest arrival. */
  lemma {:induction false} ScoreOrder(outbound: seq<real>, homeward: seq<Option<real>>)
    requires |outbound| > 0
    requires forall k | 0 <= k < |outbound| :: outbound[k] >= 0.0
    requires forall k | 0 <= k < |homeward| && homeward[k].Some? :: homeward[k].value >= 0.0
    ensures QuickArrival(outbound).value <= Efficiency(outbound).value
    ensures QuickArrival(outbound).value <= Fairness(outbound, homeward).value
  {
    MaxAtMostSum(outbound);
    var known := Known(homeward);
    if known != [] {
      assert Some(MaxOf(known)) in homeward;
    }
  }
}
