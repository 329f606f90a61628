# Degree classification engine

A Dafny model of the classification engine of a degree calculator, the function
`calculate_degree_classification`. The engine takes a learner's course records
and a program structure ("3+1" or "2+2"). Each record has a credit value, an
integer percentage score and a level: Level 5 is the second year and Level 6 the
final year. The engine returns one verdict:

1. No courses entered.
2. Fewer than 60 credits: no award at all.
3. The early Ordinary-degree exception: at least 120 credits, 1 to 30 failed
   credits (score below 30), and an overall credit-weighted average of at least 40.
4. 60 to 119 credits: a Certificate of Higher Education.
5. Any other failure: a Diploma of Higher Education.
6. More than 30 compensated credits (score 30 to 39): a Diploma.
7. Otherwise the final average decides. Passing courses (score at least 40) are
   sorted by descending score and admitted greedily, as whole courses, while the
   running total stays within 105 credits. "3+1" uses Level 6 only. "2+2" runs
   the selection once per level and combines the two averages as
   (L5 + 3 x L6) / 4. The final average is banded as First (70+), 2:1 (60+),
   2:2 (50+), Third (40+) or Fail. A "may be raised" note is added in
   [68, 70), [58, 60) and [48, 50).

Layout:

- `courses.dfy` (module `Courses`): records, credit and weight sums, filters and
  averages. Weights are exact reals, `credits / 15`.
- `selection.dfy` (module `Selection`): the greedy 105-credit selection. The
  pure specification is `Mask` (the admit or skip decision per course) with
  `Pick` and `Admitted`. The loop itself is the method `SelectBest`.
- `banding.dfy` (module `Banding`): bands, thresholds and the borderline note.
- `engine.dfy` (module `Engine`): the verdict datatype, the ordered rules
  (`EarlyVerdict`), the specification `Classification` and the method
  `Classify`, which runs the selection loops.
- `scenarios.dfy` (module `Scenarios`): concrete lists that pin down edge behaviour.

The descending sort is pandas' default `sort_values`, which is not stable. The
model therefore takes each level's sorted eligible courses as an argument:
`order5` and `order6` may be any arrangement of that level's passing courses
sorted by descending score (`Engine.Sorted`). `Scenarios.TieOrderMatters` shows
that the tie order can change the final average.

Behaviour that differs from what a reader of the rules might expect; the model
follows the code in each case:

- For "3+1" one might expect the lowest 15 credits to be discarded, splitting a
  course if needed. The code instead runs the same whole-course greedy selection
  with the 105-credit cap that "2+2" uses (app.py:158-167).
  `Scenarios.WholeCoursesOnly` shows the difference: 90, 80, 70 and 60 at 30
  credits each average exactly 80, not the 540/7 (about 77.14) that keeping
  15 of the 60's 30 credits would give.
- Ties in score are not kept in input order: the sort gives no such guarantee,
  so the model admits every tie order.
- The engine returns only the verdict. It builds no calculation trace and does
  not validate its input.

Three guarded parts of the rule pipeline can never be taken. They are kept in
`EarlyVerdict` exactly as written, each dead branch carrying `assert false`,
which the verifier discharges:

- the second severe-shortfall message (app.py:130-131);
- the inner Ordinary-degree branch (app.py:135-136);
- the Certificate and no-award outcomes for excess compensation (app.py:145-148).

## Model

| member | source | states |
|---|---|---|
| `Courses.TotalCredits` | app.py:109 | the credit sum of the submitted courses; with the credit values the form allows it lies between 15 and 45 per course |
| `Courses.Weight` | app.py:164 | the averaging weight of a course, its credits divided by 15: never negative, and positive exactly when the course carries credits |
| `Courses.Contribution` | app.py:165 | a course's share of a weighted sum, its weight times its score (bounded by `WeightedSumAtLeast` and `WeightedSumAtMost`) |
| `Courses.TotalWeight` | app.py:119 | the sum of credits/15 over a list; never negative (`TotalWeightIsCredits` shows 15 times it is the credit total) |
| `Courses.WeightedSum` | app.py:118 | the sum of weight times score over a list, as in the overall and the per-level sums (bounded by `WeightedSumAtLeast` and `WeightedSumAtMost`) |
| `Courses.WeightedAverage` | app.py:120 | the weighted sum divided by the total weight, defined only when the weight is non-zero; never negative when no score is (`AverageBounds` gives the full bounds) |
| `Courses.Where` | app.py:111 | the filter keeps each course that satisfies the condition exactly as often as it occurs in the input, and no other course |
| `Courses.FailCredits` | app.py:111 | the credits of courses scoring below 30; never more than the total, and zero when no course fails |
| `Courses.CompensationCredits` | app.py:141 | the credits of courses scoring 30 to 39; never more than the total, and zero when no course scores in that range |
| `Courses.WhereNoCredits` | app.py:111 | a filtered credit sum is zero exactly when every course satisfying the filter carries no credits, both directions |
| `Courses.OverallAverage` | app.py:118-120 | the credit-weighted average of every submitted course; 0 when no course carries credits, and between 0 and 100 when every score is a percentage |
| `Courses.Eligible` | app.py:153-154 | the courses of one level scoring at least 40, each kept as often as it was entered, and no other course |
| `Courses.TotalWeightIsCredits` | app.py:119 | the total weight is the total credit count divided by 15 |
| `Courses.ZeroWeightIffNoCredits` | app.py:120 | the total weight is non-negative, and it is zero exactly when the courses carry no credits |
| `Courses.WhereCredits` | app.py:111 | a filtered list never has more credits than the whole list |
| `Courses.CreditsPartition` | app.py:141 | every credit is failing (below 30), compensated (30 to 39) or passing (40 and above), so the three sums add up to the total |
| `Courses.WeightedSumAtLeast` | app.py:118-119 | when every score is at least lo, the weighted sum is at least lo times the total weight |
| `Courses.WeightedSumAtMost` | app.py:118-119 | when every score is at most hi, the weighted sum is at most hi times the total weight |
| `Courses.AverageBounds` | app.py:120 | a weighted average lies between the lowest and the highest averaged score |
| `Courses.NonNegativeSum` | app.py:118 | with no negative score, the weighted sum is not negative |
| `Courses.PercentageAverage` | app.py:118-120 | a weighted average of percentage scores is itself between 0 and 100 |
| `Selection.Mask` | app.py:162-167 | one admit or skip decision per course of the sorted list; `GreedyRule` states what each decision is |
| `Selection.Pick` | app.py:164-167 | the courses whose decision is admit, in list order: never more of them than the list holds (`PickIsSubMultiset` states that each is a whole course of the list) |
| `Selection.Admitted` | app.py:162-167 | the courses the selection admits: at most 105 credits in total, and always the first (highest-scoring) course when it fits alone |
| `Selection.DescendingByScore` | app.py:155 | a list sorted by descending score: its first course has the highest score, and a list of at most one course is always sorted |
| `Selection.IsArrangement` | app.py:155 | one order a descending sort may produce: the same courses with the same multiplicities (so the same length), sorted by descending score, in any tie order |
| `Selection.SelectBest` | app.py:158-167 | the loop's credits used, weighted sum and total weight are those of the greedily admitted courses, and the credits used stay within 105 |
| `Selection.AdmitStep` | app.py:163-167 | one loop step: a course that fits heads the courses still to be admitted and the running total grows by its credits; a course that does not fit is skipped and the total is unchanged |
| `Selection.WithinCap` | app.py:163 | starting within the cap, the credits admitted never take the running total past 105 |
| `Selection.PickIsSubMultiset` | app.py:162-167 | admitted courses are whole courses of the sorted list, each admitted at most as often as it occurs there |
| `Selection.GreedyRule` | app.py:162-167 | a course is admitted if and only if the credits admitted before it plus its own stay within 105, so every skipped course would have overflowed the cap when it was reached |
| `Selection.AdmittedFromList` | app.py:153-167 | every admitted course comes from the sorted eligible list, and the admitted credits total at most 105 |
| `Selection.AdmittedWeighs` | app.py:169 | the selection admits positive weight exactly when the list holds a course with a positive credit value of at most 105 |
| `Selection.NonEmptyListWeighs` | app.py:205 | with the credit values the entry form allows (15, 30, 45), the selection admits positive weight exactly when the sorted list is non-empty |
| `Banding.BandOf` | app.py:215-224 | the band of an average: the average is at least the band's threshold and below the threshold of the band above |
| `Banding.NoteOf` | app.py:227-233 | a note is given exactly when the average is a Third, 2:2 or 2:1 within two marks below the next band's threshold, and it names that next band; never for First or Fail |
| `Banding.BandIsHighestReached` | app.py:215-224 | the band awarded is the highest band whose threshold (40, 50, 60, 70) the average reaches, in both directions |
| `Banding.BandMonotone` | app.py:215-224 | a higher average never earns a lower band |
| `Banding.NoteBelowThreshold` | app.py:228-233 | a note never appears at or above the threshold it names, and it names the band directly above the one awarded |
| `Engine.OrdinaryRule` | app.py:123 | the early Ordinary-degree exception holds only when some failing course carries credits and at least 90 credits are not failed |
| `Engine.EarlyVerdict` | app.py:105-148 | the four dead branches (app.py:131, 136, 146, 148) are proved unreachable by `assert false`; and as a table of disjoint cases: empty input gives "no courses"; under 60 credits gives the severe shortfall whatever the scores; the early Ordinary rule gives the Ordinary degree; 60 to 119 credits gives the Certificate; any other failure with 120 credits gives the Diploma; more than 30 compensated credits gives the Diploma; no rule fires exactly when there are at least 120 credits, no failed credit and at most 30 compensated credits |
| `Engine.UnreachableBranches` | app.py:130-148 | the outcomes those branches would give: the severe shortfall is reported only under 60 credits; the Ordinary degree is given exactly when the early exception holds; excess compensation never yields the Certificate or "no award" |
| `Engine.Graded` | app.py:214-237 | the graded verdict carries the final average; its band is above Fail exactly when the average is at least 40; a note stays below the threshold it names |
| `Engine.CombinedAverage` | app.py:212 | the "2+2" final average lies between the Level 5 and the Level 6 averages |
| `Engine.Sorted` | app.py:155-193 | the descending sorts at app.py:155 ("3+1"), app.py:180 (Level 5) and app.py:193 (Level 6): each level's order is a permutation of that level's passing courses sorted by descending score, in any tie order; neither holds more courses than were submitted |
| `Engine.SelectionVerdict` | app.py:158-212 | after the early rules, the verdict is a graded classification whose band is that of its average, or "no usable courses" for "3+1", or "level insufficient" for "2+2" |
| `Engine.Classification` | app.py:104-237 | the whole classification: a graded verdict is given only with at least 120 credits, no failed credit and at most 30 compensated credits; "no usable courses" only for "3+1" and "level insufficient" only for "2+2" |
| `Engine.Classify` | app.py:104-237 | the method's verdict, computed with the selection loops, is the specification `Classification` for the same records and sort orders |
| `Engine.ClassifyBySelection` | app.py:158-237 | the selection loops once per level the program uses, then the banding, give `SelectionVerdict` for the same sort orders |
| `Engine.OrderMembers` | app.py:176-180 | every course of a level's sorted order is a submitted course of that level scoring at least 40, and the order is empty exactly when the level has no passing course |
| `Engine.AdmittedPass` | app.py:153-167 | every course a level's selection admits is a submitted course of that level scoring at least 40 |
| `Engine.SelectionAverageBounds` | app.py:172 | a level's selection average is at least 40, and at most 100 when every score is a percentage |
| `Engine.ClassifiedNeverFails` | app.py:214-224 | once the full classification is reached the band is never Fail and the final average is at least 40 (at most 100 for percentage scores) |
| `Engine.LevelWeighs` | app.py:205 | with valid records, a level's selection weighs nothing exactly when that level has no passing course |
| `Engine.SelectionNeverFails` | app.py:158-224 | a graded verdict of the selection is never Fail, its average is at least 40, and at most 100 for percentage scores |
| `Engine.NoUsableCoursesIff` | app.py:169-170 | "3+1" with valid records: "no usable courses" is returned exactly when no rule fired and there is no passing Level 6 course |
| `Engine.LevelInsufficientIff` | app.py:205-206 | "2+2" with valid records: "Level 5 or Level 6 insufficient" is returned exactly when no rule fired and one level has no passing course |
| `Scenarios.WholeCoursesOnly` | app.py:162-167 | four 30-credit courses at 90, 80, 70, 60: the 60 is skipped whole and the average is exactly 80, where keeping 15 of its credits would give 540/7 |
| `Scenarios.PartialDiscardAverage` | app.py:172 | the contrast figure for `WholeCoursesOnly`: averaging 90, 80 and 70 at 30 credits with only 15 credits of the 60 would give 540/7, about 77.14, which the selection never produces |
| `Scenarios.TieOrderMatters` | app.py:155 | two orders of the same courses, both sorted by descending score, admit different courses and give averages 75 and 530/7 |
| `Scenarios.BothOrdersSorted` | app.py:155 | swapping two courses with equal scores gives another descending order of the same courses |
| `Scenarios.ShorterCourseFirst` | app.py:162-167 | with the 15-credit tie first, a later 15-credit course still fits and is admitted after a skipped 30 |
| `Scenarios.LongerCourseFirst` | app.py:162-167 | with the 30-credit tie first, the cap is reached at exactly 105 and both later courses are skipped |
| `Scenarios.BoundaryAverages` | app.py:215-233 | 70 is a First without a note; 69.5 a 2:1 that may be raised to a First; 48 a Third that may be raised to a 2:2; 40 a Third; (50 + 3 x 70) / 4 = 65 a 2:1 without a note |

## Left out

- The Streamlit page, the entry form, the editable table, row deletion, the session's course list and the "credits still needed" hint (app.py:1-101, app.py:239-249): user interface and session state, not part of the engine.
- The pandas DataFrame: records are a sequence of `Course` values, and masks and filters are `Where`.
- The message texts and the two-decimal formatting of averages: verdicts are a datatype carrying the reported figures (total credits, failed or compensated credits, the average, band and note).
- Floating-point rounding: weights and averages are exact reals. Scores and credits are integers, so every average the code computes is an exact rational up to float rounding.
- The tie order of pandas' sort: every order sorted by descending score is admitted, as an argument to `Engine.Classify`.
- Program strings other than "3+1": the code treats any other string as "2+2"; the model has exactly the two program variants the form offers.
- Negative credit values: `Course.credits` is a natural number. The form offers 15, 30 and 45 only; an edited table could hold other integers, and non-negative ones are modelled.
