/** The profile page's colouring of a grade by performance band. */
module ProfilePage {

  /** `getGradeClass`: the CSS class of a grade. */
  function GradeClass(grade: real): (c: string)
    ensures c in {"excellent", "good", "average", "poor"}
    ensures c == "excellent" <==> grade >= 90.0
    ensures c == "good" <==> 75.0 <= grade < 90.0
    ensures c == "average" <==> 60.0 <= grade < 75.0
    ensures c == "poor" <==> grade < 60.0
  {
    if grade >= 90.0 then "excellent"
    else if grade >= 75.0 then "good"
    else if grade >= 60.0 then "average"
    else "poor"
  }

  /** The order of the bands, from "poor" up to "excellent". */
  function BandRank(c: string): nat
  {
    if c == "excellent" then 3 else if c == "good" then 2 else if c == "average" then 1 else 0
  }

  /** A higher grade never gets a lower band. */
  lemma GradeClassMonotone(a: real, b: real)
    requires a <= b
    ensures BandRank(GradeClass(a)) <= BandRank(GradeClass(b))
  {
  }
}
