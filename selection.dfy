/** The best-credits selection: courses already sorted by descending score are
    admitted greedily, whole, as long as the running credit total stays within
    the 105-credit cap; a course that would overflow is skipped and later
    (smaller) courses may still be admitted. */
module Selection {
  import opened Courses

  /** The credit cap of the selection. */
  const Cap: nat := 105

  /** Sorted by score, highest first: the first course then has the highest
      score, and a list of at most one course is always sorted. */
  predicate DescendingByScore(ms: seq<Course>): (b: bool)
    ensures b ==> forall j :: 0 <= j < |ms| ==> ms[j].score <= ms[0].score
    ensures |ms| <= 1 ==> b
  {
    forall i, j :: 0 <= i < j < |ms| ==> ms[i].score >= ms[j].score
  }

  /** `ms` is one of the orders a descending sort of `pool` may produce;
      equal scores may come in any order. */
  predicate IsArrangement(ms: seq<Course>, pool: seq<Course>): (b: bool)
    ensures b ==> |ms| == |pool|
  {
    assert |multiset(ms)| == |ms| && |multiset(pool)| == |pool|;
    multiset(ms) == multiset(pool) && DescendingByScore(ms)
  }

  /** The admit/skip decision for each course of `ms`, given `used` credits
      already admitted. */
  function Mask(ms: seq<Course>, used: nat): (m: seq<bool>)
    ensures |m| == |ms|
  {
    if ms == [] then []
    else if used + ms[0].credits <= Cap then [true] + Mask(ms[1..], used + ms[0].credits)
    else [false] + Mask(ms[1..], used)
  }

  /** The courses of `ms` whose decision is true, in order. */
  function Pick(ms: seq<Course>, m: seq<bool>): (r: seq<Course>)
    requires |m| == |ms|
    ensures |r| <= |ms|
  {
    if ms == [] then []
    else if m[0] then [ms[0]] + Pick(ms[1..], m[1..])
    else Pick(ms[1..], m[1..])
  }

  /** The courses the selection admits from a sorted list: never more than
      the cap in credits, and always the first (best) course when it fits. */
  function Admitted(ms: seq<Course>): (r: seq<Course>)
    ensures TotalCredits(r) <= Cap
    ensures ms != [] && ms[0].credits <= Cap ==> r != [] && r[0] == ms[0]
  {
    WithinCap(ms, 0);
    Pick(ms, Mask(ms, 0))
  }

  /** Credits of the courses of `ms` that `m` admits. */
  function CreditsPicked(ms: seq<Course>, m: seq<bool>): nat
    requires |m| == |ms|
  {
    TotalCredits(Pick(ms, m))
  }

  // ---------------------------------------------------------------------------
  // The selection loop

  /** Walks the sorted courses once, accumulating the credits, the weighted
      score sum and the total weight of the courses it admits. The engine runs
      this loop once for "3+1" and once per level for "2+2". */
  method SelectBest(ms: seq<Course>) returns (creditsUsed: nat, weightedSum: real, totalWeight: real)
    ensures creditsUsed == TotalCredits(Admitted(ms)) <= Cap
    ensures weightedSum == WeightedSum(Admitted(ms))
    ensures totalWeight == TotalWeight(Admitted(ms))
  {
    creditsUsed, weightedSum, totalWeight := 0, 0.0, 0.0;
    ghost var pending := Admitted(ms);  // the courses still to be admitted
    for i := 0 to |ms|
      invariant creditsUsed <= Cap
      invariant pending == Pick(ms[i..], Mask(ms[i..], creditsUsed))
      invariant creditsUsed + TotalCredits(pending) == TotalCredits(Admitted(ms))
      invariant weightedSum + WeightedSum(pending) == WeightedSum(Admitted(ms))
      invariant totalWeight + TotalWeight(pending) == TotalWeight(Admitted(ms))
    {
      AdmitStep(ms, i, creditsUsed);
      var row := ms[i];
      if creditsUsed + row.credits <= Cap {
        weightedSum := weightedSum + Contribution(row);
        totalWeight := totalWeight + Weight(row);
        creditsUsed := creditsUsed + row.credits;
        pending := pending[1..];
      }
    }
    assert ms[|ms|..] == [];
  }

  /** One step of the selection, as the loop takes it: the course is admitted
      and heads the pending list when it fits, and is skipped otherwise. */
  lemma AdmitStep(ms: seq<Course>, i: nat, used: nat)
    requires i < |ms|
    ensures var pending := Pick(ms[i..], Mask(ms[i..], used));
      if used + ms[i].credits <= Cap then
        && pending != [] && pending[0] == ms[i]
        && pending[1..] == Pick(ms[i + 1..], Mask(ms[i + 1..], used + ms[i].credits))
      else
        pending == Pick(ms[i + 1..], Mask(ms[i + 1..], used))
  {
    assert ms[i..][1..] == ms[i + 1..];
  }

  // ---------------------------------------------------------------------------
  // What the selection promises

  /** Starting from `used` credits within the cap, the admitted credits never
      take the total over the cap. */
  lemma {:induction false} WithinCap(ms: seq<Course>, used: nat)
    requires used <= Cap
    ensures used + CreditsPicked(ms, Mask(ms, used)) <= Cap
  {
    if ms != [] {
      if Mask(ms, used)[0] {
        WithinCap(ms[1..], used + ms[0].credits);
      } else {
        WithinCap(ms[1..], used);
      }
    }
  }

  /** Admitted courses are taken whole from the list, each at most as often
      as it occurs there. */
  lemma {:induction false} PickIsSubMultiset(ms: seq<Course>, m: seq<bool>)
    requires |m| == |ms|
    ensures multiset(Pick(ms, m)) <= multiset(ms)
  {
    if ms != [] {
      PickIsSubMultiset(ms[1..], m[1..]);
      assert ms == [ms[0]] + ms[1..];
      assert multiset(ms) == multiset{ms[0]} + multiset(ms[1..]);
    }
  }

  /** The greedy rule, both directions: a course is admitted exactly when the
      credits admitted before it, plus its own, stay within the cap; so every
      skipped course would have pushed the running total past 105. */
  lemma {:induction false} GreedyRule(ms: seq<Course>, used: nat, i: nat)
    requires i < |ms|
    ensures Mask(ms, used)[i]
        <==> used + CreditsPicked(ms[..i], Mask(ms, used)[..i]) + ms[i].credits <= Cap
  {
    var m := Mask(ms, used);
    if i > 0 {
      var used' := if m[0] then used + ms[0].credits else used;
      assert m[1..] == Mask(ms[1..], used');
      GreedyRule(ms[1..], used', i - 1);
      assert ms[..i][1..] == ms[1..][..i - 1];
      assert m[..i][1..] == m[1..][..i - 1];
      assert ms[..i][0] == ms[0] && m[..i][0] == m[0];
      assert ms[1..][i - 1] == ms[i];
    }
  }

  /** Every admitted course comes from the sorted list, so it passes (score at
      least 40) and has the right level whenever the list holds only such courses. */
  lemma AdmittedFromList(ms: seq<Course>)
    ensures multiset(Admitted(ms)) <= multiset(ms)
    ensures forall c :: c in Admitted(ms) ==> c in ms
    ensures TotalCredits(Admitted(ms)) <= Cap
  {
    PickIsSubMultiset(ms, Mask(ms, 0));
    WithinCap(ms, 0);
    forall c | c in Admitted(ms) ensures c in ms {
      assert c in multiset(Admitted(ms));
    }
  }

  /** The selection admits some weight exactly when the list holds a course
      with a positive credit value no greater than the cap. */
  lemma {:induction false} AdmittedWeighs(ms: seq<Course>)
    ensures TotalWeight(Admitted(ms)) > 0.0
        <==> exists i :: 0 <= i < |ms| && 0 < ms[i].credits <= Cap
  {
    if ms != [] {
      var c := ms[0];
      if 0 < c.credits <= Cap {
        ZeroWeightIffNoCredits(Pick(ms[1..], Mask(ms[1..], c.credits)));
        assert Weight(c) > 0.0;
      } else {
        assert Admitted(ms) == (if c.credits == 0 then [c] else []) + Admitted(ms[1..]);
        assert TotalWeight(Admitted(ms)) == TotalWeight(Admitted(ms[1..]));
        AdmittedWeighs(ms[1..]);
        if exists i :: 0 <= i < |ms| && 0 < ms[i].credits <= Cap {
          var i :| 0 <= i < |ms| && 0 < ms[i].credits <= Cap;
          assert ms[1..][i - 1] == ms[i];
        }
      }
    }
  }

  /** With credit values the entry form allows, a non-empty sorted list always
      has its first course admitted, so it never weighs nothing. */
  lemma NonEmptyListWeighs(ms: seq<Course>)
    requires forall i :: 0 <= i < |ms| ==> ValidCourse(ms[i])
    ensures TotalWeight(Admitted(ms)) > 0.0 <==> ms != []
  {
    AdmittedWeighs(ms);
    if ms != [] {
      assert 0 < ms[0].credits <= Cap;
    }
  }
}
