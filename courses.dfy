/** Course records and the credit sums the classification engine aggregates over.
    A record carries its credit value, an integer percentage score and the
    academic level (Level 5 is the second year, Level 6 the final year). */
module Courses {

  datatype Level = Level5 | Level6

  datatype Course = Course(credits: nat, score: int, level: Level)

  /** The two program structures the engine distinguishes. */
  datatype Program = ThreePlusOne | TwoPlusTwo

  /** What the entry form admits: 15, 30 or 45 credits and a score in [0, 100]. */
  predicate ValidCourse(c: Course) {
    (c.credits == 15 || c.credits == 30 || c.credits == 45) && 0 <= c.score <= 100
  }

  /** No course of the list has a negative score. */
  predicate NoNegativeScore(cs: seq<Course>) {
    forall i :: 0 <= i < |cs| ==> cs[i].score >= 0
  }

  predicate IsFailing(c: Course) { c.score < 30 }

  predicate IsCompensatable(c: Course) { 30 <= c.score < 40 }

  predicate IsPassing(c: Course) { c.score >= 40 }

  /** The averaging weight of a course: its credits in units of 15; never
      negative, and positive exactly when the course carries credits. */
  function Weight(c: Course): (w: real)
    ensures w >= 0.0
    ensures w > 0.0 <==> c.credits > 0
  {
    c.credits as real / 15.0
  }

  /** A course's weighted contribution to an average: weight times score. */
  function Contribution(c: Course): real {
    Weight(c) * c.score as real
  }

  /** The credit sum of a list: with the credit values the entry form allows,
      between 15 and 45 credits per course. */
  function TotalCredits(cs: seq<Course>): (r: nat)
    ensures (forall i :: 0 <= i < |cs| ==> ValidCourse(cs[i])) ==> 15 * |cs| <= r <= 45 * |cs|
  {
    if cs == [] then 0
    else
      assert forall i :: 0 < i < |cs| ==> cs[1..][i - 1] == cs[i];
      cs[0].credits + TotalCredits(cs[1..])
  }

  /** The sum of the course weights: never negative (`TotalWeightIsCredits`
      relates it to the credit sum). */
  function TotalWeight(cs: seq<Course>): (r: real)
    ensures r >= 0.0
  {
    if cs == [] then 0.0 else Weight(cs[0]) + TotalWeight(cs[1..])
  }

  /** The sum of the weighted contributions; `WeightedSumAtLeast` and
      `WeightedSumAtMost` bound it by the scores. */
  function WeightedSum(cs: seq<Course>): real {
    if cs == [] then 0.0 else Contribution(cs[0]) + WeightedSum(cs[1..])
  }

  /** The courses of `cs` that satisfy `p`, in their original order: each
      course that satisfies `p` is kept as often as it occurs, and no other. */
  function Where(cs: seq<Course>, p: Course -> bool): (r: seq<Course>)
    ensures |r| <= |cs|
    ensures forall c :: multiset(r)[c] == if p(c) then multiset(cs)[c] else 0
    ensures forall c :: c in r <==> c in cs && p(c)
  {
    if cs == [] then []
    else
      assert cs == [cs[0]] + cs[1..];
      if p(cs[0]) then [cs[0]] + Where(cs[1..], p)
      else Where(cs[1..], p)
  }

  /** Credits of courses scoring below 30: part of the total, and zero when
      no course fails (`WhereNoCredits` gives the converse). */
  function FailCredits(cs: seq<Course>): (r: nat)
    ensures r <= TotalCredits(cs)
    ensures (forall i :: 0 <= i < |cs| ==> !IsFailing(cs[i])) ==> r == 0
  {
    WhereCredits(cs, IsFailing);
    WhereNoCredits(cs, IsFailing);
    TotalCredits(Where(cs, IsFailing))
  }

  /** Credits of courses scoring in [30, 40): part of the total, and zero
      when no course is compensatable (`WhereNoCredits` gives the converse). */
  function CompensationCredits(cs: seq<Course>): (r: nat)
    ensures r <= TotalCredits(cs)
    ensures (forall i :: 0 <= i < |cs| ==> !IsCompensatable(cs[i])) ==> r == 0
  {
    WhereCredits(cs, IsCompensatable);
    WhereNoCredits(cs, IsCompensatable);
    TotalCredits(Where(cs, IsCompensatable))
  }

  /** The courses of one level that may enter the best-credits selection:
      the passing courses of that level, each as often as it was entered. */
  function Eligible(cs: seq<Course>, lvl: Level): (r: seq<Course>)
    ensures forall c :: multiset(r)[c] == if c.level == lvl && IsPassing(c) then multiset(cs)[c] else 0
    ensures forall c :: c in r <==> c in cs && c.level == lvl && IsPassing(c)
  {
    Where(cs, (c: Course) => c.level == lvl && IsPassing(c))
  }

  /** The credit-weighted average; only defined for a positive total weight,
      and never negative when no score is. */
  function WeightedAverage(cs: seq<Course>): (r: real)
    requires TotalWeight(cs) != 0.0
    ensures NoNegativeScore(cs) ==> r >= 0.0
  {
    NonNegativeSum(cs);
    WeightedSum(cs) / TotalWeight(cs)
  }

  /** The weighted average over every submitted course: 0 when no course
      carries credits, and a percentage when every score is one. */
  function OverallAverage(cs: seq<Course>): (r: real)
    ensures TotalCredits(cs) == 0 ==> r == 0.0
    ensures (forall i :: 0 <= i < |cs| ==> 0 <= cs[i].score <= 100) ==> 0.0 <= r <= 100.0
  {
    ZeroWeightIffNoCredits(cs);
    if TotalWeight(cs) > 0.0 then
      PercentageAverage(cs);
      WeightedAverage(cs)
    else 0.0
  }

  // ---------------------------------------------------------------------------
  // Lemmas about the sums

  /** The total weight is the total credit count in units of 15. */
  lemma {:induction false} TotalWeightIsCredits(cs: seq<Course>)
    ensures TotalWeight(cs) * 15.0 == TotalCredits(cs) as real
  {
    if cs != [] {
      TotalWeightIsCredits(cs[1..]);
    }
  }

  /** A list weighs nothing exactly when it carries no credits. */
  lemma ZeroWeightIffNoCredits(cs: seq<Course>)
    ensures TotalWeight(cs) >= 0.0
    ensures TotalWeight(cs) == 0.0 <==> TotalCredits(cs) == 0
  {
    TotalWeightIsCredits(cs);
  }

  /** A filtered list carries no credits exactly when no course that passes
      the filter does. */
  lemma {:induction false} WhereNoCredits(cs: seq<Course>, p: Course -> bool)
    ensures TotalCredits(Where(cs, p)) == 0 <==> forall i :: 0 <= i < |cs| && p(cs[i]) ==> cs[i].credits == 0
  {
    if cs != [] {
      WhereNoCredits(cs[1..], p);
      assert forall i :: 0 < i < |cs| ==> cs[1..][i - 1] == cs[i];
    }
  }

  /** Filtering never adds credits. */
  lemma {:induction false} WhereCredits(cs: seq<Course>, p: Course -> bool)
    ensures TotalCredits(Where(cs, p)) <= TotalCredits(cs)
  {
    if cs != [] {
      WhereCredits(cs[1..], p);
    }
  }

  /** Every credit is failing, compensatable or passing, and in exactly one of these. */
  lemma {:induction false} CreditsPartition(cs: seq<Course>)
    ensures TotalCredits(cs)
         == FailCredits(cs) + CompensationCredits(cs) + TotalCredits(Where(cs, IsPassing))
  {
    if cs != [] {
      CreditsPartition(cs[1..]);
    }
  }

  lemma MulMonotone(w: real, a: real, b: real)
    requires w >= 0.0 && a <= b
    ensures a * w <= b * w
  {
  }

  /** One more course keeps the weighted sum above k times the weight ... */
  lemma StepLower(k: real, w: real, sc: real, rest: real, sum: real)
    requires w >= 0.0 && k <= sc && k * rest <= sum
    ensures k * (w + rest) <= w * sc + sum
  {
    MulMonotone(w, k, sc);
    assert k * (w + rest) == k * w + k * rest;
  }

  /** ... and below m times the weight. */
  lemma StepUpper(m: real, w: real, sc: real, rest: real, sum: real)
    requires w >= 0.0 && sc <= m && sum <= m * rest
    ensures w * sc + sum <= m * (w + rest)
  {
    MulMonotone(w, sc, m);
    assert m * (w + rest) == m * w + m * rest;
  }

  /** k * t <= x <= m * t with t > 0 puts x / t between k and m. */
  lemma QuotientBounds(x: real, t: real, k: real, m: real)
    requires t > 0.0 && k * t <= x <= m * t
    ensures k <= x / t <= m
  {
    var q := x / t;
    assert q * t == x;
    if q < k {
      MulMonotone(t, q, k);
    }
    if q > m {
      MulMonotone(t, m, q);
    }
  }

  /** With no negative score the weighted sum is not negative. */
  lemma NonNegativeSum(cs: seq<Course>)
    ensures NoNegativeScore(cs) ==> WeightedSum(cs) >= 0.0
  {
    if NoNegativeScore(cs) {
      WeightedSumAtLeast(cs, 0);
    }
  }

  /** If every score is at least lo, the weighted sum is at least lo times the
      total weight. */
  lemma {:induction false} WeightedSumAtLeast(cs: seq<Course>, lo: int)
    requires forall i :: 0 <= i < |cs| ==> lo <= cs[i].score
    ensures lo as real * TotalWeight(cs) <= WeightedSum(cs)
  {
    if cs != [] {
      WeightedSumAtLeast(cs[1..], lo);
      StepLower(lo as real, Weight(cs[0]), cs[0].score as real, TotalWeight(cs[1..]), WeightedSum(cs[1..]));
    }
  }

  /** If every score is at most hi, the weighted sum is at most hi times the
      total weight. */
  lemma {:induction false} WeightedSumAtMost(cs: seq<Course>, hi: int)
    requires forall i :: 0 <= i < |cs| ==> cs[i].score <= hi
    ensures WeightedSum(cs) <= hi as real * TotalWeight(cs)
  {
    if cs != [] {
      WeightedSumAtMost(cs[1..], hi);
      StepUpper(hi as real, Weight(cs[0]), cs[0].score as real, TotalWeight(cs[1..]), WeightedSum(cs[1..]));
    }
  }

  /** A weighted average lies between the lowest and the highest score averaged. */
  lemma AverageBounds(cs: seq<Course>, lo: int, hi: int)
    requires TotalWeight(cs) != 0.0
    requires forall i :: 0 <= i < |cs| ==> lo <= cs[i].score <= hi
    ensures lo as real <= WeightedAverage(cs) <= hi as real
  {
    var x, t := WeightedSum(cs), TotalWeight(cs);
    assert lo as real * t <= x by { WeightedSumAtLeast(cs, lo); }
    assert x <= hi as real * t by { WeightedSumAtMost(cs, hi); }
    QuotientBounds(x, t, lo as real, hi as real);
    assert WeightedAverage(cs) == x / t;
  }

  /** An average of percentage scores is a percentage. */
  lemma PercentageAverage(cs: seq<Course>)
    requires TotalWeight(cs) != 0.0
    ensures (forall i :: 0 <= i < |cs| ==> 0 <= cs[i].score <= 100) ==> 0.0 <= WeightedAverage(cs) <= 100.0
  {
    if forall i :: 0 <= i < |cs| ==> 0 <= cs[i].score <= 100 {
      AverageBounds(cs, 0, 100);
    }
  }
}
