/** The records store's local logic: counting missed activities, building
    the seeded score rows for a section's students, and reading back a
    student's initial grade. Database rows come in as values. */
module Records {
  import opened Common

  /** A records row as a column-name map; a column the row lacks reads as
      `undefined`. */
  type Row = map<string, Value>

  function Column(row: Row, name: string): Value {
    if name in row then row[name] else Undefined
  }

  /** The sixteen activity columns a missed activity is looked for in. */
  const ActivityColumns: seq<string> := [
    "topic1", "topic2", "topic3", "topic4", "topic5",
    "pt1", "pt2", "pt3", "pt4", "pt5", "pt6", "pt7", "pt8", "pt9", "pt10",
    "qa1"
  ]

  /** One entry of the missed-activities report. */
  datatype Missed = Missed(studentId: Value, missedCount: nat)

  /** `record[column] === null`, as a filter test over column names. */
  function IsNullIn(row: Row): string -> bool {
    c => Column(row, c) == Null
  }

  /** Number of `columns` whose value in `row` is exactly `null`. */
  function CountNull(row: Row, columns: seq<string>): (n: nat)
    ensures n == |Filter(columns, IsNullIn(row))|
    ensures n <= |columns|
    ensures n == 0 <==> forall i :: 0 <= i < |columns| ==> Column(row, columns[i]) != Null
    ensures n == |columns| <==> forall i :: 0 <= i < |columns| ==> Column(row, columns[i]) == Null
  {
    if |columns| == 0 then 0
    else (if Column(row, columns[0]) == Null then 1 else 0) + CountNull(row, columns[1..])
  }

  /** countMissedActivities: an error yields `null`; otherwise one entry per
      row, in row order, with the row's student_id and its count of null
      activity columns. */
  function CountMissedActivities(rows: Result<seq<Row>>): (r: Option<seq<Missed>>)
    ensures rows.Err? <==> r == None
    ensures rows.Ok? ==> |r.value| == |rows.value|
    ensures rows.Ok? ==> forall i :: 0 <= i < |rows.value| ==>
              r.value[i].studentId == Column(rows.value[i], "student_id")
              && r.value[i].missedCount == |Filter(ActivityColumns, IsNullIn(rows.value[i]))|
              && r.value[i].missedCount <= 16
              && (r.value[i].missedCount == 0
                  <==> forall c :: c in ActivityColumns ==> Column(rows.value[i], c) != Null)
  {
    match rows
    case Err(_) => None
    case Ok(rs) =>
      Some(seq(|rs|, i requires 0 <= i < |rs| =>
             Missed(Column(rs[i], "student_id"), CountNull(rs[i], ActivityColumns))))
  }

  /** The strict `=== null` test: a column that is `undefined` or 0 is not
      missed, whichever columns are checked. */
  lemma OnlyNullIsMissed(row: Row, c: string, columns: seq<string>)
    requires Column(row, c) != Null
    ensures CountNull(row[c := Num(0.0)], columns) == CountNull(row, columns)
    ensures CountNull(row - {c}, columns) == CountNull(row, columns)
  {
    CountNullSame(row[c := Num(0.0)], row, columns);
    CountNullSame(row - {c}, row, columns);
  }

  /** Rows that agree on which columns are null have the same count. */
  lemma {:induction false} CountNullSame(a: Row, b: Row, columns: seq<string>)
    requires forall i :: 0 <= i < |columns| ==> (Column(a, columns[i]) == Null <==> Column(b, columns[i]) == Null)
    ensures CountNull(a, columns) == CountNull(b, columns)
  {
    if |columns| > 0 {
      CountNullSame(a, b, columns[1..]);
    }
  }

  /** A student of the section. */
  datatype Student = Student(id: int)

  /** An entry of the bundled topics list. */
  datatype TopicItem = TopicItem(subject: string, topics: seq<string>)

  /** A seeded score row. */
  datatype NewRecord = NewRecord(
    studentId: int,
    topics: seq<Option<int>>,   // topic1..topic5
    pts: seq<int>,              // pt1..pt10
    qa1: int,
    classRecordId: int)

  /** Lowest seeded score of pt1..pt10; every highest is 100. */
  const TaskFloors: seq<int> := [50, 50, 70, 50, 70, 20, 70, 70, 50, 50]
  const QualityFloor: int := 50
  const TopicFloor: int := 50
  const ScoreCeiling: int := 100

  /** getRandomScore: `Math.floor(r * (max - min + 1)) + min` for a draw
      `r` of `Math.random()`. */
  function RandomScore(r: real, min: int, max: int): (n: int)
    requires 0.0 <= r < 1.0 && min <= max
    ensures min <= n <= max
  {
    var span := (max - min + 1) as real;
    assert 0.0 <= r * span < span;
    (r * span).Floor + min
  }

  /** Every draw of `Math.random()` lies in [0, 1). The draw used for the
      k-th score of the i-th student is `rand(i, k)`: k = 0..9 for pt1..pt10,
      10 for qa1, 11 + j for topic j + 1. */
  ghost predicate UnitDraws(rand: (nat, nat) -> real) {
    forall i: nat, k: nat :: 0.0 <= rand(i, k) < 1.0
  }

  /** The topics of the first entry whose subject is `name` (exact match),
      or none. */
  function FindTopics(items: seq<TopicItem>, name: Option<string>): (ts: seq<string>)
    ensures name == None ==> ts == []
    ensures (forall i :: 0 <= i < |items| ==> Some(items[i].subject) != name) ==> ts == []
    ensures forall i :: (0 <= i < |items| && Some(items[i].subject) == name
                         && forall j :: 0 <= j < i ==> Some(items[j].subject) != name) ==> ts == items[i].topics
  {
    if |items| == 0 then []
    else if Some(items[0].subject) == name then items[0].topics
    else FindTopics(items[1..], name)
  }

  /** `subjectTitle || localStorage.getItem("selectedSubjectName")`. */
  function SubjectName(subjectTitle: Option<string>, stored: Option<string>): (r: Option<string>)
    ensures subjectTitle.Some? && subjectTitle.value != "" ==> r == subjectTitle
    ensures subjectTitle == None || subjectTitle == Some("") ==> r == stored
  {
    if subjectTitle.Some? && subjectTitle.value != "" then subjectTitle else stored
  }

  /** The topic column `k` (0-based): seeded when k < min(5, |topics|) and
      topic k is a non-empty name, `null` otherwise. */
  function SeedTopic(topics: seq<string>, k: nat, draw: real): Option<int>
    requires 0.0 <= draw < 1.0
  {
    if k < 5 && k < |topics| && topics[k] != "" then Some(RandomScore(draw, TopicFloor, ScoreCeiling))
    else None
  }

  /** The row built for one student. */
  function BuildRecord(i: nat, student: Student, classRecordId: int, topics: seq<string>,
                       rand: (nat, nat) -> real): (rec: NewRecord)
    requires UnitDraws(rand)
    ensures rec.studentId == student.id && rec.classRecordId == classRecordId
    ensures |rec.topics| == 5 && |rec.pts| == 10
    ensures forall k :: 0 <= k < 5 ==>
              (rec.topics[k].Some? <==> k < |topics| && topics[k] != "")
    ensures forall k :: 0 <= k < 5 && rec.topics[k].Some? ==> TopicFloor <= rec.topics[k].value <= ScoreCeiling
    ensures forall k :: 0 <= k < 10 ==> TaskFloors[k] <= rec.pts[k] <= ScoreCeiling
    ensures QualityFloor <= rec.qa1 <= ScoreCeiling
  {
    NewRecord(
      student.id,
      seq(5, k requires 0 <= k < 5 => SeedTopic(topics, k, rand(i, 11 + k))),
      seq(10, k requires 0 <= k < 10 => RandomScore(rand(i, k), TaskFloors[k], ScoreCeiling)),
      RandomScore(rand(i, 10), QualityFloor, ScoreCeiling),
      classRecordId)
  }

  /** addRecordsForSection: a failed student query or a failed insert yields
      `null`; otherwise exactly one row per student, in order. */
  function AddRecordsForSection(
    students: Result<seq<Student>>, classRecordId: int,
    subjectTitle: Option<string>, stored: Option<string>, topicsData: seq<TopicItem>,
    rand: (nat, nat) -> real, insertError: Option<string>): (r: Option<seq<NewRecord>>)
    requires UnitDraws(rand)
    ensures students.Err? || insertError.Some? ==> r == None
    ensures students.Ok? && insertError == None ==>
              r.Some? && |r.value| == |students.value|
              && forall i :: 0 <= i < |r.value| ==>
                   r.value[i].studentId == students.value[i].id
                   && r.value[i].classRecordId == classRecordId
                   && r.value[i] == BuildRecord(i, students.value[i], classRecordId,
                                                FindTopics(topicsData, SubjectName(subjectTitle, stored)), rand)
  {
    match students
    case Err(_) => None
    case Ok(ss) =>
      var topics := FindTopics(topicsData, SubjectName(subjectTitle, stored));
      var built := seq(|ss|, i requires 0 <= i < |ss| => BuildRecord(i, ss[i], classRecordId, topics, rand));
      if insertError.Some? then None else Some(built)
  }

  /** fetchInitialGradeByStudentId: an error yields `null`; otherwise the
      first row's initial_grade, or 0 when there is no row or the value is
      falsy. */
  function FetchInitialGrade(rows: Result<seq<Value>>): (g: Option<real>)
    ensures rows.Err? <==> g == None
    ensures rows.Ok? && |rows.value| > 0 && rows.value[0].Truthy() ==> g == Some(rows.value[0].n)
    ensures rows.Ok? && (|rows.value| == 0 || !rows.value[0].Truthy()) ==> g == Some(0.0)
  {
    match rows
    case Err(_) => None
    case Ok(vs) => if |vs| > 0 && vs[0].Truthy() then Some(vs[0].n) else Some(0.0)
  }

  /** A non-zero grade comes back exactly when the first row's grade is
      truthy; a 0 cannot tell a missing row from a `null`, `undefined` or
      zero grade. */
  lemma InitialGradeNonZeroIff(rows: seq<Value>)
    ensures FetchInitialGrade(Ok(rows)).value != 0.0 <==> |rows| > 0 && rows[0].Truthy()
    ensures FetchInitialGrade(Ok(rows)) == FetchInitialGrade(Ok(rows[..if |rows| > 0 then 1 else 0]))
  {
  }
}
