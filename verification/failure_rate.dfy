/** The pass/fail split behind the failure-rate pie chart. The section and
    record queries come in as values. */
module FailureRate {
  import opened Common

  /** The chart's two counters. */
  datatype ChartData = ChartData(passing: nat, failing: nat)

  /** The passing mark. */
  const PassMark: real := 75.0

  /** `initial_grade >= 75`: `null` compares as 0 and `undefined` as NaN,
      so neither passes. */
  predicate Passing(grade: Value) {
    grade.Num? && grade.n >= PassMark
  }

  /** `initial_grade < 75`: `null` compares as 0 and so fails; `undefined`
      compares as NaN and is in neither group. */
  predicate Failing(grade: Value) {
    grade == Null || (grade.Num? && grade.n < PassMark)
  }

  /** fetchSectionData: an empty section code or subject id, a section that
      is not found, or a record query without data leaves the chart as it
      was; otherwise the two filters are counted. */
  function FetchSectionData(chart: ChartData, sectionCode: string, subjectId: string,
                            section: Option<int>, grades: Option<seq<Value>>): (r: ChartData)
    ensures sectionCode == "" || subjectId == "" || section == None || grades == None ==> r == chart
    ensures sectionCode != "" && subjectId != "" && section.Some? && grades.Some? ==>
              r.passing == |Filter(grades.value, Passing)|
              && r.failing == |Filter(grades.value, Failing)|
              && r.passing + r.failing <= |grades.value|
  {
    if sectionCode == "" || subjectId == "" then chart
    else if section == None then chart
    else if grades == None then chart
    else
      var gs := grades.value;
      PassFailDisjoint(gs);
      ChartData(|Filter(gs, Passing)|, |Filter(gs, Failing)|)
  }

  /** No grade both passes and fails, so the two counts never exceed the
      number of rows; when every grade is present they add up to it. */
  lemma {:induction false} PassFailDisjoint(gs: seq<Value>)
    ensures |Filter(gs, Passing)| + |Filter(gs, Failing)| <= |gs|
    ensures (forall i :: 0 <= i < |gs| ==> gs[i] != Undefined) ==>
              |Filter(gs, Passing)| + |Filter(gs, Failing)| == |gs|
  {
    if |gs| > 0 {
      PassFailDisjoint(gs[1..]);
      var passing, failing := Filter(gs[1..], Passing), Filter(gs[1..], Failing);
      assert |Filter(gs, Passing)| == |passing| + (if Passing(gs[0]) then 1 else 0);
      assert |Filter(gs, Failing)| == |failing| + (if Failing(gs[0]) then 1 else 0);
    }
  }

  /** A grade of exactly 75 passes; just below fails. */
  lemma BoundaryPasses()
    ensures Passing(Num(75.0)) && !Failing(Num(75.0))
    ensures Failing(Num(74.999)) && !Passing(Num(74.999))
  {
  }
}
