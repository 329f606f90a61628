/** Mapping a final average to a degree band, and the borderline note that a
    band may be raised when the average falls just below the next threshold. */
module Banding {

  datatype Band = First | UpperSecond | LowerSecond | Third | Fail

  /** Either no note, or "may be raised to" the named band. */
  datatype Note = NoNote | MayRaiseTo(band: Band)

  /** Position of a band in the order Fail < Third < 2:2 < 2:1 < First. */
  function Rank(b: Band): nat {
    match b
    case Fail => 0
    case Third => 1
    case LowerSecond => 2
    case UpperSecond => 3
    case First => 4
  }

  /** The lowest average that earns a band; Fail has none. */
  function Threshold(b: Band): real
    requires b != Fail
  {
    match b
    case Third => 40.0
    case LowerSecond => 50.0
    case UpperSecond => 60.0
    case First => 70.0
  }

  /** The band one step above `b`. */
  function Above(b: Band): (r: Band)
    requires b != First
    ensures Rank(r) == Rank(b) + 1
  {
    match b
    case Fail => Third
    case Third => LowerSecond
    case LowerSecond => UpperSecond
    case UpperSecond => First
  }

  /** The band of an average: the average lies between the band's threshold
      and the threshold of the band above. */
  function BandOf(average: real): (r: Band)
    ensures r != Fail ==> average >= Threshold(r)
    ensures r != First ==> average < Threshold(Above(r))
  {
    if average >= 70.0 then First
    else if average >= 60.0 then UpperSecond
    else if average >= 50.0 then LowerSecond
    else if average >= 40.0 then Third
    else Fail
  }

  /** The borderline note: within two marks below the threshold of the band
      above, for the bands Third, 2:2 and 2:1 (never for Fail, never for First). */
  function NoteOf(average: real): (r: Note)
    ensures var b := BandOf(average);
      r == if b != First && b != Fail && average >= Threshold(Above(b)) - 2.0
           then MayRaiseTo(Above(b)) else NoNote
  {
    if 68.0 <= average < 70.0 then MayRaiseTo(First)
    else if 58.0 <= average < 60.0 then MayRaiseTo(UpperSecond)
    else if 48.0 <= average < 50.0 then MayRaiseTo(LowerSecond)
    else NoNote
  }

  // ---------------------------------------------------------------------------
  // What the banding promises

  /** The band is the highest one whose threshold the average reaches. */
  lemma BandIsHighestReached(average: real, b: Band)
    requires b != Fail
    ensures Rank(b) <= Rank(BandOf(average)) <==> average >= Threshold(b)
  {
  }

  /** A higher average never earns a lower band. */
  lemma BandMonotone(a: real, b: real)
    requires a <= b
    ensures Rank(BandOf(a)) <= Rank(BandOf(b))
  {
  }

  /** The note never appears at or above the threshold it names, and it
      always names the band directly above the one awarded. */
  lemma NoteBelowThreshold(average: real)
    ensures NoteOf(average).MayRaiseTo? ==>
              && NoteOf(average).band != Fail
              && average < Threshold(NoteOf(average).band)
              && NoteOf(average).band == Above(BandOf(average))
  {
  }
}
