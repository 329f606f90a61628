/** Concrete course lists that pin down how the selection and the banding
    behave at their edges. */
module Scenarios {
  import opened Courses
  import opened Selection
  import opened Banding
  import opened Engine

  /** Four 30-credit Level 6 courses scoring 90, 80, 70 and 60, already sorted:
      the selection admits whole courses only, so the 60 is dropped entirely
      (it would take the total to 120) and the average is exactly 80, not the
      540/7 (about 77.14) that keeping 15 of its 30 credits would give. */
  lemma WholeCoursesOnly(ms: seq<Course>)
    requires ms == [Course(30, 90, Level6), Course(30, 80, Level6),
                    Course(30, 70, Level6), Course(30, 60, Level6)]
    ensures Admitted(ms) == ms[..3]
    ensures TotalWeight(Admitted(ms)) == 6.0 && WeightedAverage(Admitted(ms)) == 80.0
    ensures TotalWeight(ms[..3] + [Course(15, 60, Level6)]) == 7.0
    ensures WeightedAverage(ms[..3] + [Course(15, 60, Level6)]) == 540.0 / 7.0
  {
    assert ms[1..][1..] == ms[2..] && ms[2..][1..] == ms[3..] && ms[3..][1..] == [];
    assert Mask(ms[3..], 90) == [false];
    assert Mask(ms[2..], 60) == [true, false];
    assert Mask(ms[1..], 30) == [true, true, false];
    assert Mask(ms, 0) == [true, true, true, false];
    var kept := ms[..3];
    assert kept[1..] == ms[1..3] && ms[1..3][1..] == ms[2..3] && ms[2..3][1..] == [];
    assert Pick(ms[3..], [false]) == [];
    assert Pick(ms[2..], [true, false]) == ms[2..3];
    assert Pick(ms[1..], [true, true, false]) == ms[1..3];
    assert Admitted(ms) == kept;
    assert TotalWeight(ms[2..3]) == 2.0 && WeightedSum(ms[2..3]) == 140.0;
    assert TotalWeight(ms[1..3]) == 4.0 && WeightedSum(ms[1..3]) == 300.0;
    assert TotalWeight(kept) == 6.0 && WeightedSum(kept) == 480.0;
    PartialDiscardAverage(kept, Course(15, 60, Level6));
  }

  /** The 90, 80 and 70 at 30 credits with 15 credits of the 60 kept: the
      average a partial discard of the lowest 15 credits would give. */
  lemma PartialDiscardAverage(kept: seq<Course>, part: Course)
    requires kept == [Course(30, 90, Level6), Course(30, 80, Level6), Course(30, 70, Level6)]
    requires part == Course(15, 60, Level6)
    ensures TotalWeight(kept + [part]) == 7.0 && WeightedSum(kept + [part]) == 540.0
    ensures WeightedAverage(kept + [part]) == 540.0 / 7.0
  {
    var split := kept + [part];
    assert split[1..] == kept[1..] + [part] && split[1..][1..] == kept[2..] + [part];
    assert split[1..][1..][1..] == [part] && [part][1..] == [];
    assert TotalWeight([part]) == 1.0 && WeightedSum([part]) == 60.0;
    assert TotalWeight(split[1..][1..]) == 3.0 && WeightedSum(split[1..][1..]) == 200.0;
    assert TotalWeight(split[1..]) == 5.0 && WeightedSum(split[1..]) == 360.0;
  }

  /** The selection depends on how courses with equal scores are ordered:
      after 75 credits, a 15-credit and a 30-credit course both scoring 50
      tie. Taking the 15 first leaves room for a later 15-credit 45; taking the
      30 first fills the cap. Both orders are sorted by descending score, and
      the averages differ (525/7 against 530/7). */
  lemma TieOrderMatters(first: seq<Course>, second: seq<Course>)
    requires first == [Course(45, 90, Level6), Course(30, 80, Level6),
                       Course(15, 50, Level6), Course(30, 50, Level6), Course(15, 45, Level6)]
    requires second == [first[0], first[1], first[3], first[2], first[4]]
    ensures DescendingByScore(first) && DescendingByScore(second)
    ensures multiset(first) == multiset(second)
    ensures TotalWeight(Admitted(first)) == 7.0 && WeightedAverage(Admitted(first)) == 75.0
    ensures TotalWeight(Admitted(second)) == 7.0 && WeightedAverage(Admitted(second)) == 530.0 / 7.0
  {
    BothOrdersSorted(first, second);
    ShorterCourseFirst(first);
    LongerCourseFirst(second);
  }

  /** Swapping the two tied courses gives another descending order of the
      same courses. */
  lemma BothOrdersSorted(first: seq<Course>, second: seq<Course>)
    requires first == [Course(45, 90, Level6), Course(30, 80, Level6),
                       Course(15, 50, Level6), Course(30, 50, Level6), Course(15, 45, Level6)]
    requires second == [first[0], first[1], first[3], first[2], first[4]]
    ensures DescendingByScore(first) && DescendingByScore(second)
    ensures multiset(first) == multiset(second)
  {
    var head, tail := first[..2], first[4..];
    assert first == head + [first[2], first[3]] + tail;
    assert second == head + [first[3], first[2]] + tail;
    assert multiset([first[2], first[3]]) == multiset([first[3], first[2]]);
  }

  /** The 15-credit 50 first: 45 + 30 + 15 admitted, the 30 skipped (it would
      make 120), the final 15-credit 45 admitted (exactly 105). */
  lemma ShorterCourseFirst(ms: seq<Course>)
    requires ms == [Course(45, 90, Level6), Course(30, 80, Level6),
                    Course(15, 50, Level6), Course(30, 50, Level6), Course(15, 45, Level6)]
    ensures Admitted(ms) == [ms[0], ms[1], ms[2], ms[4]]
    ensures TotalWeight(Admitted(ms)) == 7.0 && WeightedSum(Admitted(ms)) == 525.0
    ensures WeightedAverage(Admitted(ms)) == 75.0
  {
    assert ms[1..][1..] == ms[2..] && ms[2..][1..] == ms[3..];
    assert ms[3..][1..] == ms[4..] && ms[4..][1..] == [];
    assert Mask(ms[4..], 90) == [true];
    assert Mask(ms[3..], 90) == [false, true];
    assert Mask(ms[2..], 75) == [true, false, true];
    assert Mask(ms[1..], 45) == [true, true, false, true];
    assert Mask(ms, 0) == [true, true, true, false, true];
    var a := [ms[0], ms[1], ms[2], ms[4]];
    assert Pick(ms[4..], [true]) == [ms[4]];
    assert Pick(ms[3..], [false, true]) == [ms[4]];
    assert Pick(ms[2..], [true, false, true]) == a[2..];
    assert Pick(ms[1..], [true, true, false, true]) == a[1..];
    assert Admitted(ms) == a;
    assert a[1..][1..] == a[2..] && a[2..][1..] == a[3..] && a[3..][1..] == [];
    assert TotalWeight(a[3..]) == 1.0 && WeightedSum(a[3..]) == 45.0;
    assert TotalWeight(a[2..]) == 2.0 && WeightedSum(a[2..]) == 95.0;
    assert TotalWeight(a[1..]) == 4.0 && WeightedSum(a[1..]) == 255.0;
  }

  /** The 30-credit 50 first: 45 + 30 + 30 admitted (exactly 105), both
      15-credit courses after it skipped. */
  lemma LongerCourseFirst(ms: seq<Course>)
    requires ms == [Course(45, 90, Level6), Course(30, 80, Level6),
                    Course(30, 50, Level6), Course(15, 50, Level6), Course(15, 45, Level6)]
    ensures Admitted(ms) == ms[..3]
    ensures TotalWeight(Admitted(ms)) == 7.0 && WeightedSum(Admitted(ms)) == 530.0
    ensures WeightedAverage(Admitted(ms)) == 530.0 / 7.0
  {
    assert ms[1..][1..] == ms[2..] && ms[2..][1..] == ms[3..];
    assert ms[3..][1..] == ms[4..] && ms[4..][1..] == [];
    assert Mask(ms[4..], 105) == [false];
    assert Mask(ms[3..], 105) == [false, false];
    assert Mask(ms[2..], 75) == [true, false, false];
    assert Mask(ms[1..], 45) == [true, true, false, false];
    assert Mask(ms, 0) == [true, true, true, false, false];
    var b := ms[..3];
    assert Pick(ms[4..], [false]) == [];
    assert Pick(ms[3..], [false, false]) == [];
    assert Pick(ms[2..], [true, false, false]) == b[2..];
    assert Pick(ms[1..], [true, true, false, false]) == b[1..];
    assert Admitted(ms) == b;
    assert b[1..][1..] == b[2..] && b[2..][1..] == [];
    assert TotalWeight(b[2..]) == 2.0 && WeightedSum(b[2..]) == 100.0;
    assert TotalWeight(b[1..]) == 4.0 && WeightedSum(b[1..]) == 260.0;
  }

  /** The band boundaries: 70 is a first with no note, 69.5 an upper second
      that may be raised to a first, 48 a third that may be raised, 40 a third. */
  lemma BoundaryAverages()
    ensures Graded(70.0) == Classified(70.0, First, NoNote)
    ensures Graded(69.5) == Classified(69.5, UpperSecond, MayRaiseTo(First))
    ensures Graded(48.0) == Classified(48.0, Third, MayRaiseTo(LowerSecond))
    ensures Graded(40.0) == Classified(40.0, Third, NoNote)
    ensures Graded(CombinedAverage(50.0, 70.0)) == Classified(65.0, UpperSecond, NoNote)
  {
  }
}
