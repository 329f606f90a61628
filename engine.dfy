/** The classification engine: from a learner's course records and the program
    structure to a verdict, through the ordered eligibility rules, the
    best-credits selection and the banding of the final average. */
module Engine {
  import opened Courses
  import opened Selection
  import opened Banding

  datatype Option<T> = None | Some(value: T)

  /** Every outcome of the engine, each with the figures its message reports. */
  datatype Verdict =
    | NoCourses                                    // nothing was entered
    | SevereShortfall(total: nat)                  // under 60 credits: no award at all
    | OrdinaryDegree(overall: real)                // at most 30 failed credits, overall average >= 40
    | Certificate(total: nat)                      // 60 to 119 credits
    | UncompensatedFail(failCredits: nat)          // a failure that cannot be compensated: Diploma
    | DiplomaExcessCompensation(compCredits: nat)  // too many compensated credits, 120 reached
    | CertificateExcessCompensation(compCredits: nat)  // too many compensated credits, 60 reached
    | ExcessCompensationNoAward                    // too many compensated credits, under 60
    | NoUsableCourses                              // "3+1": the selection admitted nothing
    | LevelInsufficient                            // "2+2": one level's selection admitted nothing
    | Classified(average: real, band: Band, note: Note)

  /** The condition under which the early Ordinary-degree exception fires. */
  predicate OrdinaryRule(cs: seq<Course>): (r: bool)
    ensures r ==> exists i :: 0 <= i < |cs| && IsFailing(cs[i]) && cs[i].credits > 0
    ensures r ==> TotalCredits(cs) - FailCredits(cs) >= 90
  {
    WhereNoCredits(cs, IsFailing);
    var fail := FailCredits(cs);
    TotalCredits(cs) >= 120 && fail > 0 && fail <= 30 && OverallAverage(cs) >= 40.0
  }

  /** The eligibility rules, in their order, with the branches exactly as the
      engine has them; None means no rule fired and the final average decides.
      Four branches can never be taken and carry `assert false`: the second
      shortfall branch, the inner Ordinary branch, and the Certificate and
      no-award branches for excess compensation. The postconditions give the
      same rules as a table of disjoint cases. */
  function EarlyVerdict(cs: seq<Course>): (r: Option<Verdict>)
    ensures cs == [] ==> r == Some(NoCourses)
    ensures cs != [] && TotalCredits(cs) < 60 ==> r == Some(SevereShortfall(TotalCredits(cs)))
    ensures cs != [] && OrdinaryRule(cs) ==> r == Some(OrdinaryDegree(OverallAverage(cs)))
    ensures cs != [] && 60 <= TotalCredits(cs) < 120 ==> r == Some(Certificate(TotalCredits(cs)))
    ensures cs != [] && TotalCredits(cs) >= 120 && FailCredits(cs) > 0 && !OrdinaryRule(cs)
            ==> r == Some(UncompensatedFail(FailCredits(cs)))
    ensures cs != [] && TotalCredits(cs) >= 120 && FailCredits(cs) == 0 && CompensationCredits(cs) > 30
            ==> r == Some(DiplomaExcessCompensation(CompensationCredits(cs)))
    ensures r == None
        <==> cs != [] && TotalCredits(cs) >= 120 && FailCredits(cs) == 0 && CompensationCredits(cs) <= 30
  {
    if cs == [] then Some(NoCourses)
    else
      var total := TotalCredits(cs);
      var fail := FailCredits(cs);
      if total < 60 then Some(SevereShortfall(total))
      else
        var avgAll := OverallAverage(cs);
        if OrdinaryRule(cs) then Some(OrdinaryDegree(avgAll))
        else if total < 120 then
          if total >= 60 then Some(Certificate(total))
          else assert false; Some(SevereShortfall(total))
        else if fail > 0 then
          if fail <= 30 && avgAll >= 40.0 then assert false; Some(OrdinaryDegree(avgAll))
          else Some(UncompensatedFail(fail))
        else
          var comp := CompensationCredits(cs);
          if comp > 30 then
            if total >= 120 then Some(DiplomaExcessCompensation(comp))
            else if total >= 60 then assert false; Some(CertificateExcessCompensation(comp))
            else assert false; Some(ExcessCompensationNoAward)
          else None
  }

  /** The verdict for a final average: its band and borderline note. */
  function Graded(average: real): (v: Verdict)
    ensures v.Classified? && v.average == average
    ensures Rank(v.band) >= 1 <==> average >= 40.0
    ensures v.note.MayRaiseTo? ==> v.note.band != Fail && average < Threshold(v.note.band)
  {
    Classified(average, BandOf(average), NoteOf(average))
  }

  /** The "2+2" final average: Level 6 counts three times as much as Level 5. */
  function CombinedAverage(level5: real, level6: real): (r: real)
    ensures level5 <= level6 ==> level5 <= r <= level6
    ensures level6 <= level5 ==> level6 <= r <= level5
  {
    (level5 + 3.0 * level6) / 4.0
  }

  /** The verdict once no eligibility rule fired, given the sorted eligible
      courses of each level. */
  function SelectionVerdict(program: Program, order5: seq<Course>, order6: seq<Course>): (v: Verdict)
    ensures v.Classified? || v == (if program == ThreePlusOne then NoUsableCourses else LevelInsufficient)
    ensures v.Classified? ==> v.band == BandOf(v.average)
  {
    if program == ThreePlusOne then
      var a := Admitted(order6);
      if TotalWeight(a) == 0.0 then NoUsableCourses
      else Graded(WeightedAverage(a))
    else
      var a5, a6 := Admitted(order5), Admitted(order6);
      if TotalWeight(a5) == 0.0 || TotalWeight(a6) == 0.0 then LevelInsufficient
      else Graded(CombinedAverage(WeightedAverage(a5), WeightedAverage(a6)))
  }

  /** The orders in which the engine may see each level's eligible courses;
      neither holds more courses than were submitted. */
  predicate Sorted(cs: seq<Course>, order5: seq<Course>, order6: seq<Course>): (b: bool)
    ensures b ==> |order5| <= |cs| && |order6| <= |cs|
  {
    IsArrangement(order5, Eligible(cs, Level5)) && IsArrangement(order6, Eligible(cs, Level6))
  }

  /** The whole classification, for one tie order of each level's sort. */
  function Classification(cs: seq<Course>, program: Program, order5: seq<Course>, order6: seq<Course>): (v: Verdict)
    requires Sorted(cs, order5, order6)
    ensures v.Classified? ==> TotalCredits(cs) >= 120 && FailCredits(cs) == 0 && CompensationCredits(cs) <= 30
    ensures v == NoUsableCourses ==> program == ThreePlusOne
    ensures v == LevelInsufficient ==> program == TwoPlusTwo
  {
    match EarlyVerdict(cs)
    case Some(v) => v
    case None => SelectionVerdict(program, order5, order6)
  }

  /** The engine: the early rules, then the selection loop once per level
      the program uses, then the banding. */
  method Classify(cs: seq<Course>, program: Program, order5: seq<Course>, order6: seq<Course>)
    returns (v: Verdict)
    requires Sorted(cs, order5, order6)
    ensures v == Classification(cs, program, order5, order6)
  {
    var early := EarlyVerdict(cs);
    if early.Some? {
      return early.value;
    }
    v := ClassifyBySelection(program, order5, order6);
  }

  /** The part of the engine after the early rules: the selection loop once
      per level the program uses, then the banding. */
  method ClassifyBySelection(program: Program, order5: seq<Course>, order6: seq<Course>)
    returns (v: Verdict)
    ensures v == SelectionVerdict(program, order5, order6)
  {
    var finalAverage: real;
    if program == ThreePlusOne {
      var creditsUsed, weightedSum, totalWeight := SelectBest(order6);
      if totalWeight == 0.0 {
        return NoUsableCourses;
      }
      finalAverage := weightedSum / totalWeight;
    } else {
      var l5CreditsUsed, l5WeightedSum, l5TotalWeight := SelectBest(order5);
      var l6CreditsUsed, l6WeightedSum, l6TotalWeight := SelectBest(order6);
      if l5TotalWeight == 0.0 || l6TotalWeight == 0.0 {
        return LevelInsufficient;
      }
      var l5Average := l5WeightedSum / l5TotalWeight;
      var l6Average := l6WeightedSum / l6TotalWeight;
      finalAverage := (l5Average + 3.0 * l6Average) / 4.0;
    }
    v := Graded(finalAverage);
  }

  // ---------------------------------------------------------------------------
  // What the engine promises

  /** What the rules can report: a severe shortfall only under 60 credits, the
      Ordinary degree exactly under the early exception, and never a
      Certificate or "no award" for excess compensation. */
  lemma UnreachableBranches(cs: seq<Course>)
    ensures EarlyVerdict(cs).Some? && EarlyVerdict(cs).value.SevereShortfall? ==> TotalCredits(cs) < 60
    ensures EarlyVerdict(cs).Some? && EarlyVerdict(cs).value.OrdinaryDegree? <==> cs != [] && OrdinaryRule(cs)
    ensures EarlyVerdict(cs) != Some(ExcessCompensationNoAward)
    ensures EarlyVerdict(cs).Some? ==> !EarlyVerdict(cs).value.CertificateExcessCompensation?
  {
  }

  /** What a sorted order of one level's eligible courses holds. */
  lemma OrderMembers(cs: seq<Course>, lvl: Level, order: seq<Course>)
    requires IsArrangement(order, Eligible(cs, lvl))
    ensures forall i :: 0 <= i < |order| ==>
              order[i] in cs && order[i].level == lvl && order[i].score >= 40
    ensures order == [] <==> Eligible(cs, lvl) == []
  {
    forall i | 0 <= i < |order|
      ensures order[i] in cs && order[i].level == lvl && order[i].score >= 40
    {
      assert order[i] in multiset(order);
      assert order[i] in Eligible(cs, lvl);
    }
    assert |multiset(order)| == |order|;
    assert |multiset(Eligible(cs, lvl))| == |Eligible(cs, lvl)|;
  }

  /** Every admitted course of a level's sorted order is a submitted course
      scoring at least 40. */
  lemma AdmittedPass(cs: seq<Course>, lvl: Level, order: seq<Course>)
    requires IsArrangement(order, Eligible(cs, lvl))
    ensures forall j :: 0 <= j < |Admitted(order)| ==>
              Admitted(order)[j] in cs && Admitted(order)[j].level == lvl && 40 <= Admitted(order)[j].score
  {
    OrderMembers(cs, lvl, order);
    AdmittedFromList(order);
    var a := Admitted(order);
    forall j | 0 <= j < |a| ensures a[j] in cs && a[j].level == lvl && 40 <= a[j].score {
      assert a[j] in a;
      var k :| 0 <= k < |order| && order[k] == a[j];
    }
  }

  /** The highest score of a list, or 40 when every score is below that. */
  lemma HighestScore(a: seq<Course>) returns (hi: int)
    ensures 40 <= hi
    ensures forall j :: 0 <= j < |a| ==> a[j].score <= hi
    ensures hi == 40 || exists j :: 0 <= j < |a| && a[j].score == hi
  {
    hi := 40;
    for i := 0 to |a|
      invariant 40 <= hi
      invariant forall j :: 0 <= j < i ==> a[j].score <= hi
      invariant hi == 40 || exists j :: 0 <= j < i && a[j].score == hi
    {
      if a[i].score > hi {
        hi := a[i].score;
      }
    }
  }

  /** The average of one level's selection lies in [40, 100]: at least 40
      because only passing courses are admitted, at most 100 when every score
      is a percentage. */
  lemma SelectionAverageBounds(cs: seq<Course>, lvl: Level, order: seq<Course>)
    requires IsArrangement(order, Eligible(cs, lvl))
    requires TotalWeight(Admitted(order)) != 0.0
    ensures 40.0 <= WeightedAverage(Admitted(order))
    ensures (forall i :: 0 <= i < |cs| ==> cs[i].score <= 100) ==> WeightedAverage(Admitted(order)) <= 100.0
  {
    AdmittedPass(cs, lvl, order);
    var a := Admitted(order);
    var hi := HighestScore(a);
    if (forall i :: 0 <= i < |cs| ==> cs[i].score <= 100) && hi != 40 {
      var j :| 0 <= j < |a| && a[j].score == hi;
      assert a[j] in cs;
    }
    AverageBounds(a, 40, hi);
  }

  /** Once the full classification is reached the result is never Fail: the
      final average is at least 40, and at most 100 for percentage scores. */
  lemma {:induction false} ClassifiedNeverFails(cs: seq<Course>, program: Program, order5: seq<Course>, order6: seq<Course>)
    requires Sorted(cs, order5, order6)
    ensures var v := Classification(cs, program, order5, order6);
      v.Classified? ==> v.band != Fail && 40.0 <= v.average
    ensures var v := Classification(cs, program, order5, order6);
      v.Classified? && (forall i :: 0 <= i < |cs| ==> cs[i].score <= 100) ==> v.average <= 100.0
  {
    if EarlyVerdict(cs).None? {
      SelectionNeverFails(cs, program, order5, order6);
    }
  }

  /** The same for the verdict of the selection alone. */
  lemma SelectionNeverFails(cs: seq<Course>, program: Program, order5: seq<Course>, order6: seq<Course>)
    requires Sorted(cs, order5, order6)
    ensures var v := SelectionVerdict(program, order5, order6);
      v.Classified? ==> v.band != Fail && 40.0 <= v.average
    ensures var v := SelectionVerdict(program, order5, order6);
      v.Classified? && (forall i :: 0 <= i < |cs| ==> cs[i].score <= 100) ==> v.average <= 100.0
  {
    if SelectionVerdict(program, order5, order6).Classified? {
      SelectionAverageBounds(cs, Level6, order6);
      if program == TwoPlusTwo {
        SelectionAverageBounds(cs, Level5, order5);
      }
    }
  }

  /** With valid records, a level's selection weighs nothing exactly when the
      level has no passing course. */
  lemma {:induction false} LevelWeighs(cs: seq<Course>, lvl: Level, order: seq<Course>)
    requires IsArrangement(order, Eligible(cs, lvl))
    requires forall i :: 0 <= i < |cs| ==> ValidCourse(cs[i])
    ensures TotalWeight(Admitted(order)) == 0.0 <==> Eligible(cs, lvl) == []
  {
    OrderMembers(cs, lvl, order);
    forall i | 0 <= i < |order| ensures ValidCourse(order[i]) {
      var k :| 0 <= k < |cs| && cs[k] == order[i];
    }
    NonEmptyListWeighs(order);
  }

  /** "3+1": with valid records, "no usable courses" is the verdict exactly when
      no rule fired and there is no passing Level 6 course. */
  lemma {:induction false} NoUsableCoursesIff(cs: seq<Course>, order5: seq<Course>, order6: seq<Course>)
    requires Sorted(cs, order5, order6)
    requires forall i :: 0 <= i < |cs| ==> ValidCourse(cs[i])
    ensures Classification(cs, ThreePlusOne, order5, order6) == NoUsableCourses
        <==> EarlyVerdict(cs) == None && Eligible(cs, Level6) == []
  {
    assert Classification(cs, ThreePlusOne, order5, order6) == NoUsableCourses
        <==> EarlyVerdict(cs) == None && TotalWeight(Admitted(order6)) == 0.0;
    LevelWeighs(cs, Level6, order6);
  }

  /** "2+2": with valid records, "Level 5 or Level 6 insufficient" is the verdict
      exactly when no rule fired and one of the levels has no passing course. */
  lemma {:induction false} LevelInsufficientIff(cs: seq<Course>, order5: seq<Course>, order6: seq<Course>)
    requires Sorted(cs, order5, order6)
    requires forall i :: 0 <= i < |cs| ==> ValidCourse(cs[i])
    ensures Classification(cs, TwoPlusTwo, order5, order6) == LevelInsufficient
        <==> EarlyVerdict(cs) == None && (Eligible(cs, Level5) == [] || Eligible(cs, Level6) == [])
  {
    assert Classification(cs, TwoPlusTwo, order5, order6) == LevelInsufficient
        <==> EarlyVerdict(cs) == None
             && (TotalWeight(Admitted(order5)) == 0.0 || TotalWeight(Admitted(order6)) == 0.0);
    LevelWeighs(cs, Level5, order5);
    LevelWeighs(cs, Level6, order6);
  }
}
