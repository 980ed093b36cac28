/** The admin's teacher list: teacher rows merged with their assigned
    subjects, grouped by user id. The two queries come in as values. */
module TeacherList {
  import opened Common

  /** A subject as attached to a teacher. */
  datatype Subject = Subject(id: int, title: string)

  /** A row of the assignment query: who teaches which subject. */
  datatype Assignment = Assignment(userId: int, subjectId: int, title: string)

  /** An assignment row as the query returns it: `subjectTitle` is `None`
      when the embedded subject join is `null`. */
  datatype AssignmentRow = AssignmentRow(userId: int, subjectId: int, subjectTitle: Option<string>)

  /** A teacher row; `subjects` is absent until the merge adds it. */
  datatype TeacherInfo = TeacherInfo(
    id: int,
    firstname: string,
    lastname: string,
    email: string,
    phone: string,
    completeAddress: string,
    imagePath: string,
    subjects: Option<seq<Subject>>)

  /** The store's state. */
  datatype State = State(userInfo: seq<TeacherInfo>, teacherCount: nat)

  /** How fetchTeachersInfo's promise settles: with the value it returns,
      or rejected by the TypeError of reading `title` through a `null`
      subject join. */
  datatype Outcome = Returned(value: Option<seq<TeacherInfo>>) | Rejected

  /** The assignment rows with their subject titles read out. */
  function Titled(rows: seq<AssignmentRow>): (r: seq<Assignment>)
    ensures |r| == |rows|
  {
    seq(|rows|, i requires 0 <= i < |rows| =>
          Assignment(rows[i].userId, rows[i].subjectId, rows[i].subjectTitle.GetOr("")))
  }

  /** The subjects of the assignment rows whose user is `userId`, in row
      order. */
  function SubjectsOf(rows: seq<Assignment>, userId: int): (r: seq<Subject>)
    ensures |r| <= |rows|
    ensures forall s :: s in r <==> exists a :: a in rows && a.userId == userId && s == Subject(a.subjectId, a.title)
  {
    if |rows| == 0 then []
    else
      var rest := SubjectsOf(rows[1..], userId);
      if rows[0].userId == userId then [Subject(rows[0].subjectId, rows[0].title)] + rest else rest
  }

  /** Some assignment row belongs to `userId`. */
  predicate Names(rows: seq<Assignment>, userId: int) {
    exists a :: a in rows && a.userId == userId
  }

  /** A row added at the end names its own user and no other. */
  lemma NamesAppend(rows: seq<Assignment>, a: Assignment, userId: int)
    ensures Names(rows + [a], userId) <==> Names(rows, userId) || a.userId == userId
  {
    if Names(rows, userId) {
      var b :| b in rows && b.userId == userId;
      assert b in rows + [a];
    }
    if a.userId == userId {
      assert a in rows + [a];
    }
  }

  /** The forEach that builds subjectsMap: each row appended to its user's
      list, creating the list on first sight. */
  function GroupByUser(rows: seq<Assignment>): (m: map<int, seq<Subject>>)
    ensures forall u :: u in m ==> |m[u]| > 0
    ensures |rows| > 0 ==> rows[|rows| - 1].userId in m
    ensures forall u :: u in m ==> Names(rows, u)
    decreases |rows|
  {
    if |rows| == 0 then map[]
    else
      var m := GroupByUser(rows[..|rows| - 1]);
      var a := rows[|rows| - 1];
      var prior := if a.userId in m then m[a.userId] else [];
      assert forall b :: b in rows[..|rows| - 1] ==> b in rows;
      m[a.userId := prior + [Subject(a.subjectId, a.title)]]
  }

  /** The map holds a user exactly when some row names it, and the user's
      list is that user's rows in order. */
  lemma {:induction false} GroupByUserSpec(rows: seq<Assignment>, userId: int)
    ensures userId in GroupByUser(rows) <==> Names(rows, userId)
    ensures userId in GroupByUser(rows) ==> GroupByUser(rows)[userId] == SubjectsOf(rows, userId)
    ensures userId !in GroupByUser(rows) ==> SubjectsOf(rows, userId) == []
    decreases |rows|
  {
    if |rows| > 0 {
      var init := rows[..|rows| - 1];
      var a := rows[|rows| - 1];
      assert rows == init + [a];
      GroupByUserSpec(init, userId);
      NamesAppend(init, a, userId);
      SubjectsOfAppend(init, a, userId);
    }
  }

  /** Appending a row extends only its own user's subjects. */
  lemma {:induction false} SubjectsOfAppend(rows: seq<Assignment>, a: Assignment, userId: int)
    ensures SubjectsOf(rows + [a], userId) ==
              SubjectsOf(rows, userId) + (if a.userId == userId then [Subject(a.subjectId, a.title)] else [])
  {
    if |rows| == 0 {
      assert rows + [a] == [a];
    } else {
      assert (rows + [a])[1..] == rows[1..] + [a];
      SubjectsOfAppend(rows[1..], a, userId);
    }
  }

  /** `subjectsMap[teacher.id] || []`. */
  function Lookup(m: map<int, seq<Subject>>, id: int): (r: seq<Subject>)
    ensures id in m ==> r == m[id]
    ensures id !in m ==> r == []
  {
    if id in m then m[id] else []
  }

  /** fetchTeachersInfo: a failed teacher query empties the list and returns
      `null`; a failed subject query keeps the teacher rows as they came;
      an assignment row with a `null` subject join makes the grouping throw
      after teacherCount is set, leaving the list as it was; otherwise each
      teacher gets the subjects assigned to it, in row order. */
  function FetchTeachersInfo(st: State, teachers: Result<seq<TeacherInfo>>,
                             assignments: Result<seq<AssignmentRow>>): (r: (State, Outcome))
    ensures teachers.Err? ==> r.0 == st.(userInfo := []) && r.1 == Returned(None)
    ensures teachers.Ok? ==> r.0.teacherCount == |teachers.value|
    ensures teachers.Ok? && assignments.Err? ==>
              r.0.userInfo == teachers.value && r.1 == Returned(Some(teachers.value))
    ensures teachers.Ok? && assignments.Ok?
            && (exists i :: 0 <= i < |assignments.value| && assignments.value[i].subjectTitle == None) ==>
              r.0 == st.(teacherCount := |teachers.value|) && r.1 == Rejected
    ensures teachers.Ok? && assignments.Ok?
            && (forall i :: 0 <= i < |assignments.value| ==> assignments.value[i].subjectTitle.Some?) ==>
              r.1 == Returned(Some(r.0.userInfo))
              && |r.0.userInfo| == |teachers.value|
              && forall i :: 0 <= i < |teachers.value| ==>
                   r.0.userInfo[i] == teachers.value[i].(subjects := Some(SubjectsOf(Titled(assignments.value), teachers.value[i].id)))
  {
    match teachers
    case Err(_) => (st.(userInfo := []), Returned(None))
    case Ok(ts) =>
      match assignments
      case Err(_) => (State(ts, |ts|), Returned(Some(ts)))
      case Ok(raw) =>
        if exists i :: 0 <= i < |raw| && raw[i].subjectTitle == None then
          (st.(teacherCount := |ts|), Rejected)
        else
          var rows := Titled(raw);
          var m := GroupByUser(rows);
          var merged := seq(|ts|, i requires 0 <= i < |ts| => ts[i].(subjects := Some(Lookup(m, ts[i].id))));
          MergeMatchesRows(ts, rows, m, merged);
          (State(merged, |ts|), Returned(Some(merged)))
  }

  lemma MergeMatchesRows(ts: seq<TeacherInfo>, rows: seq<Assignment>, m: map<int, seq<Subject>>,
                         merged: seq<TeacherInfo>)
    requires m == GroupByUser(rows)
    requires |merged| == |ts|
    requires forall i :: 0 <= i < |ts| ==> merged[i] == ts[i].(subjects := Some(Lookup(m, ts[i].id)))
    ensures forall i :: 0 <= i < |ts| ==> merged[i] == ts[i].(subjects := Some(SubjectsOf(rows, ts[i].id)))
  {
    forall i | 0 <= i < |ts|
      ensures Lookup(m, ts[i].id) == SubjectsOf(rows, ts[i].id)
    {
      GroupByUserSpec(rows, ts[i].id);
    }
  }

  /** Number of subjects attached across `infos`. */
  function SubjectTotal(infos: seq<TeacherInfo>): nat {
    if |infos| == 0 then 0
    else (if infos[0].subjects.Some? then |infos[0].subjects.value| else 0) + SubjectTotal(infos[1..])
  }

  /** Number of assignment rows whose user is one of `ids`. */
  function RowsFor(rows: seq<Assignment>, ids: seq<int>): nat {
    if |rows| == 0 then 0
    else (if rows[0].userId in ids then 1 else 0) + RowsFor(rows[1..], ids)
  }

  /** Ids of the teacher rows. */
  function Ids(ts: seq<TeacherInfo>): (ids: seq<int>)
    ensures |ids| == |ts| && forall i :: 0 <= i < |ts| ==> ids[i] == ts[i].id
  {
    if |ts| == 0 then [] else [ts[0].id] + Ids(ts[1..])
  }

  /** When teacher ids are distinct, the subjects attached across all
      teachers are exactly the assignment rows that belong to some teacher. */
  lemma {:induction false} SubjectsConserved(ts: seq<TeacherInfo>, rows: seq<Assignment>)
    requires forall i, j :: 0 <= i < j < |ts| ==> ts[i].id != ts[j].id
    ensures var infos := seq(|ts|, i requires 0 <= i < |ts| => ts[i].(subjects := Some(SubjectsOf(rows, ts[i].id))));
            SubjectTotal(infos) == RowsFor(rows, Ids(ts))
  {
    var infos := seq(|ts|, i requires 0 <= i < |ts| => ts[i].(subjects := Some(SubjectsOf(rows, ts[i].id))));
    if |ts| == 0 {
      RowsForNone(rows, []);
    } else {
      var rest := ts[1..];
      SubjectsConserved(rest, rows);
      var restInfos := seq(|rest|, i requires 0 <= i < |rest| => rest[i].(subjects := Some(SubjectsOf(rows, rest[i].id))));
      assert infos[1..] == restInfos;
      assert Ids(ts) == [ts[0].id] + Ids(rest);
      assert ts[0].id !in Ids(rest);
      RowsForSplit(rows, ts[0].id, Ids(rest));
    }
  }

  /** Rows for no ids at all count zero. */
  lemma {:induction false} RowsForNone(rows: seq<Assignment>, ids: seq<int>)
    requires |ids| == 0
    ensures RowsFor(rows, ids) == 0
  {
    if |rows| > 0 {
      RowsForNone(rows[1..], ids);
    }
  }

  /** Counting rows for one more id adds that id's subjects. */
  lemma {:induction false} RowsForSplit(rows: seq<Assignment>, id: int, ids: seq<int>)
    requires id !in ids
    ensures RowsFor(rows, [id] + ids) == |SubjectsOf(rows, id)| + RowsFor(rows, ids)
  {
    if |rows| > 0 {
      RowsForSplit(rows[1..], id, ids);
    }
  }
}
