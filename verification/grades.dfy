/** The grade engine: category percentages, their weighted shares, the
    initial (unrounded) grade and the quarterly (rounded) grade of one
    student's score record. Scores are `real`, which abstracts away IEEE-754
    rounding. */
module Grades {
  import opened Common

  /** The five written-work topic scores; `None` is a column still `null`. */
  type TopicScores = s: seq<Option<real>> | |s| == 5 witness [None, None, None, None, None]

  /** Ten numeric columns (the written-work maxima, the performance tasks, or
      their maxima). */
  type TenScores = s: seq<real> | |s| == 10 witness [0.0, 0.0, 0.0, 0.0, 0.0, 0.0, 0.0, 0.0, 0.0, 0.0]

  /** One student's raw scores for one class record. */
  datatype ScoreRecord = ScoreRecord(
    topics: TopicScores,  // topic1..topic5
    wwMax: TenScores,     // wwMax1..wwMax10
    pt: TenScores,        // pt1..pt10
    ptMax: TenScores,     // ptMax1..ptMax10
    qa1: real,
    qaMax1: real)

  /** The category weights: written work, performance tasks, quality assessment. */
  const WrittenWeight: real := 0.4
  const TaskWeight: real := 0.4
  const QualityWeight: real := 0.2

  /** Sum of numeric columns. */
  function Total(s: seq<real>): real {
    if |s| == 0 then 0.0 else s[0] + Total(s[1..])
  }

  /** Sum of topic columns; JavaScript's `null + n` is `n`, so a `null`
      topic adds nothing. */
  function TopicTotal(ts: seq<Option<real>>): real {
    if |ts| == 0 then 0.0 else ts[0].GetOr(0.0) + TopicTotal(ts[1..])
  }

  /** `max ? score / max * 100 : 0`: a zero maximum yields 0 rather than a
      division fault. */
  function Percentage(score: real, max: real): (p: real)
    ensures max == 0.0 ==> p == 0.0
    ensures max != 0.0 ==> p * max == score * 100.0
    ensures 0.0 <= score <= max ==> 0.0 <= p <= 100.0
    ensures 0.0 < max < score ==> p > 100.0
  {
    if max != 0.0 then score / max * 100.0 else 0.0
  }

  /** Written-work percentage (calculateWWPS): five topics over ten maxima. */
  function WrittenPercent(rec: ScoreRecord): (p: real)
    ensures Total(rec.wwMax) == 0.0 ==> p == 0.0
    ensures Total(rec.wwMax) != 0.0 ==> p * Total(rec.wwMax) == TopicTotal(rec.topics) * 100.0
    ensures 0.0 <= TopicTotal(rec.topics) <= Total(rec.wwMax) ==> 0.0 <= p <= 100.0
  {
    Percentage(TopicTotal(rec.topics), Total(rec.wwMax))
  }

  /** Performance-task percentage (calculatePTPS). */
  function TaskPercent(rec: ScoreRecord): (p: real)
    ensures Total(rec.ptMax) == 0.0 ==> p == 0.0
    ensures Total(rec.ptMax) != 0.0 ==> p * Total(rec.ptMax) == Total(rec.pt) * 100.0
    ensures 0.0 <= Total(rec.pt) <= Total(rec.ptMax) ==> 0.0 <= p <= 100.0
  {
    Percentage(Total(rec.pt), Total(rec.ptMax))
  }

  /** Quality-assessment percentage (calculateQATS). */
  function QualityPercent(rec: ScoreRecord): (p: real)
    ensures rec.qaMax1 == 0.0 ==> p == 0.0
    ensures rec.qaMax1 != 0.0 ==> p * rec.qaMax1 == rec.qa1 * 100.0
    ensures 0.0 <= rec.qa1 <= rec.qaMax1 ==> 0.0 <= p <= 100.0
  {
    Percentage(rec.qa1, rec.qaMax1)
  }

  /** Weighted performance-task share (calculatePTWS): at most 40 points
      when the percentage is within range. */
  function TaskWeighted(rec: ScoreRecord): (w: real)
    ensures w == TaskPercent(rec) * 0.4
    ensures Total(rec.ptMax) != 0.0 ==> w * Total(rec.ptMax) == Total(rec.pt) * 40.0
    ensures 0.0 <= TaskPercent(rec) <= 100.0 ==> 0.0 <= w <= 40.0
    ensures w == 0.0 <==> TaskPercent(rec) == 0.0
  {
    TaskPercent(rec) * TaskWeight
  }

  /** Weighted quality-assessment share (calculateQAWS): at most 20 points
      when the percentage is within range. */
  function QualityWeighted(rec: ScoreRecord): (w: real)
    ensures w == QualityPercent(rec) * 0.2
    ensures rec.qaMax1 != 0.0 ==> w * rec.qaMax1 == rec.qa1 * 20.0
    ensures 0.0 <= QualityPercent(rec) <= 100.0 ==> 0.0 <= w <= 20.0
    ensures w == 0.0 <==> QualityPercent(rec) == 0.0
  {
    QualityPercent(rec) * QualityWeight
  }

  /** The unrounded composite (calculateInitialGrade); it is not clamped. */
  function InitialGrade(rec: ScoreRecord): (g: real)
    ensures g == WrittenPercent(rec) * 0.4 + TaskPercent(rec) * 0.4 + QualityPercent(rec) * 0.2
    ensures g == WrittenPercent(rec) * WrittenWeight + TaskWeighted(rec) + QualityWeighted(rec)
    ensures (0.0 <= WrittenPercent(rec) <= 100.0 && 0.0 <= TaskPercent(rec) <= 100.0
             && 0.0 <= QualityPercent(rec) <= 100.0) ==> 0.0 <= g <= 100.0
  {
    WrittenPercent(rec) * WrittenWeight + TaskPercent(rec) * TaskWeight
    + QualityPercent(rec) * QualityWeight
  }

  /** ECMAScript `Math.round`: the integer nearest to `x`, ties toward
      positive infinity. */
  function JsRound(x: real): (n: int)
    ensures n as real - 0.5 <= x < n as real + 0.5
  {
    (x + 0.5).Floor
  }

  /** The rounded grade (calculateQuarterlyGrade). */
  function QuarterlyGrade(rec: ScoreRecord): (q: int)
    ensures q as real - 0.5 <= InitialGrade(rec) < q as real + 0.5
  {
    JsRound(InitialGrade(rec))
  }

  /** Nearest integer is unique: any `n` within half a unit below-inclusive
      of `x` is the rounded value. */
  lemma JsRoundUnique(x: real, n: int)
    requires n as real - 0.5 <= x < n as real + 0.5
    ensures JsRound(x) == n
  {
    var m := JsRound(x);
    assert m as real - 0.5 <= x < m as real + 0.5;
    assert n - 1 < m < n + 1;
  }

  /** A half rounds up, also for negative values (-2.5 rounds to -2). */
  lemma JsRoundHalfUp(k: int)
    ensures JsRound(k as real + 0.5) == k + 1
    ensures JsRound(k as real - 0.5) == k
  {
    JsRoundUnique(k as real + 0.5, k + 1);
    JsRoundUnique(k as real - 0.5, k);
  }

  /** Replacing a `null` topic by an explicit 0 does not change the topic
      sum: ungraded and zero are indistinguishable to the engine. */
  lemma {:induction false} NullTopicIsZero(ts: seq<Option<real>>, i: int)
    requires 0 <= i < |ts| && ts[i] == None
    ensures TopicTotal(ts[i := Some(0.0)]) == TopicTotal(ts)
  {
    if i > 0 {
      assert ts[i := Some(0.0)][1..] == ts[1..][i - 1 := Some(0.0)];
      NullTopicIsZero(ts[1..], i - 1);
    } else {
      assert ts[i := Some(0.0)][1..] == ts[1..];
    }
  }

  /** Consequently the written-work percentage treats a `null` topic as 0. */
  lemma NullTopicPercent(rec: ScoreRecord, i: int)
    requires 0 <= i < 5 && rec.topics[i] == None
    ensures WrittenPercent(rec.(topics := rec.topics[i := Some(0.0)])) == WrittenPercent(rec)
  {
    NullTopicIsZero(rec.topics, i);
  }

  /** Column-wise bounds carry over to the sums. */
  lemma {:induction false} TotalBounded(a: seq<real>, b: seq<real>)
    requires |a| == |b|
    requires forall i :: 0 <= i < |a| ==> 0.0 <= a[i] <= b[i]
    ensures 0.0 <= Total(a) <= Total(b)
  {
    if |a| > 0 {
      TotalBounded(a[1..], b[1..]);
    }
  }

  /** A sum of zero columns is zero. */
  lemma {:induction false} TotalOfZeros(a: seq<real>)
    requires forall i :: 0 <= i < |a| ==> a[i] == 0.0
    ensures Total(a) == 0.0
  {
    if |a| > 0 {
      TotalOfZeros(a[1..]);
    }
  }

  /** When every task score lies between 0 and its own maximum, the
      performance-task percentage lies in [0, 100]. */
  lemma TaskPercentInRange(rec: ScoreRecord)
    requires forall i :: 0 <= i < 10 ==> 0.0 <= rec.pt[i] <= rec.ptMax[i]
    ensures 0.0 <= TaskPercent(rec) <= 100.0
  {
    TotalBounded(rec.pt, rec.ptMax);
  }

  /** When each category's score sum lies between 0 and its maximum sum, the
      initial grade lies in [0, 100] and so does the quarterly grade. */
  lemma GradeInRange(rec: ScoreRecord)
    requires 0.0 <= TopicTotal(rec.topics) <= Total(rec.wwMax)
    requires 0.0 <= Total(rec.pt) <= Total(rec.ptMax)
    requires 0.0 <= rec.qa1 <= rec.qaMax1
    ensures 0.0 <= InitialGrade(rec) <= 100.0
    ensures 0 <= QuarterlyGrade(rec) <= 100
  {
  }

  /** Every maximum zero: every category, the initial grade and the
      quarterly grade are 0, whatever the scores. */
  lemma AllMaximaZero(rec: ScoreRecord)
    requires forall i :: 0 <= i < 10 ==> rec.wwMax[i] == 0.0 && rec.ptMax[i] == 0.0
    requires rec.qaMax1 == 0.0
    ensures WrittenPercent(rec) == 0.0 && TaskPercent(rec) == 0.0 && QualityPercent(rec) == 0.0
    ensures InitialGrade(rec) == 0.0
    ensures QuarterlyGrade(rec) == 0
  {
    TotalOfZeros(rec.wwMax);
    TotalOfZeros(rec.ptMax);
    JsRoundUnique(0.0, 0);
  }

  /** Topics 80, 70 and 90 written against five maxima of 20, no task
      points out of 100, and a quality assessment of 18 out of 20. */
  const OverScored: ScoreRecord := ScoreRecord(
    [Some(80.0), Some(70.0), Some(90.0), None, None],
    [20.0, 20.0, 20.0, 20.0, 20.0, 0.0, 0.0, 0.0, 0.0, 0.0],
    [0.0, 0.0, 0.0, 0.0, 0.0, 0.0, 0.0, 0.0, 0.0, 0.0],
    [10.0, 10.0, 10.0, 10.0, 10.0, 10.0, 10.0, 10.0, 10.0, 10.0],
    18.0, 20.0)

  /** The written-work percentage of the record above. */
  lemma OverScoredWritten()
    ensures WrittenPercent(OverScored) == 240.0
  {
    assert TopicTotal(OverScored.topics) == 240.0;
    assert Total(OverScored.wwMax) == 100.0;
  }

  /** The performance-task percentage of the record above. */
  lemma OverScoredTasks()
    ensures TaskPercent(OverScored) == 0.0
  {
    assert Total(OverScored.pt) == 0.0;
  }

  /** The grade is not clamped: the record above has a written-work
      percentage of 240 and an initial grade of 114. */
  lemma UnclampedGrade()
    ensures WrittenPercent(OverScored) == 240.0
    ensures QualityPercent(OverScored) == 90.0 && QualityWeighted(OverScored) == 18.0
    ensures InitialGrade(OverScored) == 114.0 && QuarterlyGrade(OverScored) == 114
  {
    OverScoredWritten();
    OverScoredTasks();
    JsRoundUnique(114.0, 114);
  }
}
