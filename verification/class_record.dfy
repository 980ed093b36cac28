/** The class-record store: its list, count, student roster, loading flag
    and error, and how each action moves them. Database answers and the
    stored teacher id come in as values. */
module ClassRecordStore {
  import opened Common

  /** A class record as the store holds it. The plain listing fills only
      the table's own columns; the detailed listing adds the joined ones. */
  datatype ClassRecord = ClassRecord(
    id: int,
    quarter: string,
    subjectName: Option<string>,
    section: Option<string>,
    handledBy: Option<string>,
    studentCount: Option<nat>)

  /** A row of the detailed query: the class record with its embedded
      joins. A join the database returns as `null` (no matching subject,
      section or user) is `None`; `recordIds` are the ids of its score rows. */
  datatype DetailedRow = DetailedRow(
    id: int,
    quarter: string,
    subjectTitle: Option<string>,
    sectionCode: Option<string>,
    recordIds: seq<int>,
    email: Option<string>)

  /** A student as the roster holds it. */
  datatype Student = Student(id: int, firstname: string, lastname: string)

  /** A score row joined with its student; the join is `None` when the
      database returns it as `null`. */
  datatype RecordRow = RecordRow(student: Option<Student>, sectionId: int)

  /** A roster entry: the student's fields, if any, plus the row's section
      id. Spreading a `null` join adds no fields, so such an entry holds
      only the section id. */
  datatype RosterEntry = RosterEntry(student: Option<Student>, sectionId: int)

  datatype State = State(
    classRecords: seq<ClassRecord>,
    students: seq<RosterEntry>,
    loading: bool,
    error: Option<string>,
    classRecordCount: nat)

  /** What addClassRecord did besides changing the state. */
  datatype AddEffects = AddEffects(
    inserted: bool,
    storedId: Option<int>,
    linkAttempted: bool,
    navigatedTo: Option<string>)

  const MissingTeacherMessage: string := "Teacher ID not found in local storage."
  const MissingRecentMessage: string := "Failed to fetch recent class record ID."
  const AfterAddPath: string := "/newrecords"

  /** The entry step of every action: loading on, error cleared. */
  function Begin(st: State): (s: State)
    ensures s.loading && s.error == None
    ensures s.classRecords == st.classRecords && s.students == st.students
    ensures s.classRecordCount == st.classRecordCount
  {
    st.(loading := true, error := None)
  }


  /** fetchClassRecords: on success the list and its count are replaced;
      on failure only the error is set. */
  function FetchClassRecords(st: State, rows: Result<seq<ClassRecord>>): (s: State)
    ensures !s.loading && s.students == st.students
    ensures rows.Err? ==> s.error == Some(rows.message)
                          && s.classRecords == st.classRecords && s.classRecordCount == st.classRecordCount
    ensures rows.Ok? ==> s.error == None && s.classRecords == rows.value
                         && s.classRecordCount == |s.classRecords|
  {
    var b := Begin(st);
    match rows
    case Err(m) => b.(error := Some(m), loading := false)
    case Ok(rs) => b.(classRecords := rs, classRecordCount := |rs|, loading := false)
  }

  /** The count field agrees with the list it counts. */
  predicate CountInSync(st: State) {
    st.classRecordCount == |st.classRecords|
  }

  /** Every embedded join of the row is present. */
  predicate Joined(row: DetailedRow) {
    row.subjectTitle.Some? && row.sectionCode.Some? && row.email.Some?
  }

  /** One detailed row as the list shows it. Reading `title`, `code` or
      `email` through a `null` join throws a TypeError, shown as `None`. */
  function Detail(row: DetailedRow): (c: Option<ClassRecord>)
    ensures c.Some? <==> Joined(row)
    ensures c.Some? ==> c.value.id == row.id && c.value.quarter == row.quarter
                        && c.value.studentCount == Some(|row.recordIds|)
                        && c.value.subjectName == row.subjectTitle && c.value.section == row.sectionCode
                        && c.value.handledBy == row.email
  {
    if Joined(row) then
      Some(ClassRecord(row.id, row.quarter, row.subjectTitle, row.sectionCode, row.email,
                       Some(|row.recordIds|)))
    else None
  }

  /** fetchAllClassRecordsWithDetails: on success each row, in the order
      returned, becomes a record counting its score rows; the count field
      is left as it was. A row with a `null` join makes the mapping throw
      before anything is stored, so the action rejects with loading still
      set. */
  function FetchAllClassRecordsWithDetails(st: State, rows: Result<seq<DetailedRow>>): (s: State)
    ensures s.students == st.students && s.classRecordCount == st.classRecordCount
    ensures rows.Err? ==> !s.loading && s.error == Some(rows.message) && s.classRecords == st.classRecords
    ensures rows.Ok? && (exists i :: 0 <= i < |rows.value| && !Joined(rows.value[i])) ==>
              s.loading && s.error == None && s.classRecords == st.classRecords
    ensures rows.Ok? && (forall i :: 0 <= i < |rows.value| ==> Joined(rows.value[i])) ==>
              !s.loading && s.error == None && |s.classRecords| == |rows.value|
              && forall i :: 0 <= i < |rows.value| ==>
                   Detail(rows.value[i]) == Some(s.classRecords[i])
                   && s.classRecords[i].id == rows.value[i].id
                   && s.classRecords[i].quarter == rows.value[i].quarter
                   && s.classRecords[i].studentCount == Some(|rows.value[i].recordIds|)
                   && s.classRecords[i].subjectName == rows.value[i].subjectTitle
                   && s.classRecords[i].section == rows.value[i].sectionCode
                   && s.classRecords[i].handledBy == rows.value[i].email
  {
    var b := Begin(st);
    match rows
    case Err(m) => b.(error := Some(m), loading := false)
    case Ok(rs) =>
      if forall i :: 0 <= i < |rs| ==> Joined(rs[i]) then
        b.(classRecords := seq(|rs|, i requires 0 <= i < |rs| => Detail(rs[i]).value), loading := false)
      else b
  }

  /** fetchStudentsByClassRecord: on success the roster is the rows'
      students, each with its row's section id, in row order; a `null`
      student join does not throw and leaves an entry with only the section
      id. */
  function FetchStudentsByClassRecord(st: State, rows: Result<seq<RecordRow>>): (s: State)
    ensures !s.loading && s.classRecords == st.classRecords && s.classRecordCount == st.classRecordCount
    ensures rows.Err? ==> s.error == Some(rows.message) && s.students == st.students
    ensures rows.Ok? ==>
              s.error == None && |s.students| == |rows.value|
              && forall i :: 0 <= i < |rows.value| ==>
                   s.students[i] == RosterEntry(rows.value[i].student, rows.value[i].sectionId)
  {
    var b := Begin(st);
    match rows
    case Err(m) => b.(error := Some(m), loading := false)
    case Ok(rs) =>
      b.(students := seq(|rs|, i requires 0 <= i < |rs| => RosterEntry(rs[i].student, rs[i].sectionId)),
         loading := false)
  }

  /** addClassRecord. Without a (non-empty) stored teacher id it stops with
      an error before touching the database. Otherwise it inserts, reads
      back the newest id, links section and subject, and navigates to the
      new-records page whether or not a step failed; the first failing step
      names the error. The newest id is stored, and the section-subject
      link tried, only once the read-back found a row. The list itself is
      not changed. */
  function AddClassRecord(st: State, teacherId: Option<string>, insertError: Option<string>,
                          recent: Result<Option<int>>, linkError: Option<string>): (r: (State, AddEffects))
    ensures !r.0.loading && r.0.classRecords == st.classRecords && r.0.students == st.students
    ensures r.0.classRecordCount == st.classRecordCount
    ensures teacherId == None || teacherId == Some("") ==>
              r.0.error == Some(MissingTeacherMessage) && r.1 == AddEffects(false, None, false, None)
    ensures teacherId.Some? && teacherId.value != "" ==>
              r.1.inserted && r.1.navigatedTo == Some(AfterAddPath)
              && (r.0.error == None <==> insertError == None && recent.Ok? && recent.value.Some? && linkError == None)
              && (r.1.storedId.Some? <==> insertError == None && recent.Ok? && recent.value.Some?)
    ensures teacherId.Some? && teacherId.value != "" && insertError.Some? ==> r.0.error == insertError
    ensures (teacherId.Some? && teacherId.value != "" && insertError == None && recent == Ok(None)) ==>
              r.0.error == Some(MissingRecentMessage)
    ensures (teacherId.Some? && teacherId.value != "" && insertError == None && recent.Err?) ==>
              r.0.error == Some(recent.message)
    ensures (teacherId.Some? && teacherId.value != "" && insertError == None
             && recent.Ok? && recent.value.Some?) ==>
              r.0.error == linkError && r.1.storedId == recent.value && r.1.linkAttempted
    ensures r.1.linkAttempted <==> r.1.storedId.Some?
  {
    var b := Begin(st);
    if teacherId == None || teacherId == Some("") then
      (b.(error := Some(MissingTeacherMessage), loading := false), AddEffects(false, None, false, None))
    else
      var (err, stored, linked) :=
        if insertError.Some? then (insertError, None, false)
        else match recent
             case Err(m) => (Some(m), None, false)
             case Ok(None) => (Some(MissingRecentMessage), None, false)
             case Ok(Some(id)) => (linkError, Some(id), true);
      (b.(error := err, loading := false), AddEffects(true, stored, linked, Some(AfterAddPath)))
  }

  /** `record.id !== classRecordId`. */
  predicate Keeps(classRecordId: int, c: ClassRecord) {
    c.id != classRecordId
  }

  /** deleteClassRecord: on success the record with that id is gone, every
      other record stays in order, and the count follows the list; on
      failure the list and count stay and the error is set. */
  function DeleteClassRecord(st: State, classRecordId: int, deleteError: Option<string>): (s: State)
    ensures !s.loading && s.students == st.students
    ensures deleteError.Some? ==> s.error == deleteError && s.classRecords == st.classRecords
                                  && s.classRecordCount == st.classRecordCount
    ensures deleteError == None ==>
              s.error == None
              && (forall c :: c in s.classRecords <==> c in st.classRecords && c.id != classRecordId)
              && Subsequence(s.classRecords, st.classRecords)
              && s.classRecordCount == |s.classRecords|
  {
    var b := Begin(st);
    if deleteError.Some? then b.(error := deleteError, loading := false)
    else
      var kept := Filter(st.classRecords, c => Keeps(classRecordId, c));
      b.(classRecords := kept, classRecordCount := |kept|, loading := false)
  }

  /** A successful delete of an id that is not listed keeps the list. */
  lemma DeleteAbsentKeepsList(st: State, classRecordId: int)
    requires forall i :: 0 <= i < |st.classRecords| ==> st.classRecords[i].id != classRecordId
    ensures DeleteClassRecord(st, classRecordId, None).classRecords == st.classRecords
  {
  }

  /** Deleting the same id twice is deleting it once. */
  lemma DeleteIdempotent(st: State, classRecordId: int)
    ensures var once := DeleteClassRecord(st, classRecordId, None);
            DeleteClassRecord(once, classRecordId, None) == once.(error := None, loading := false)
  {
    var once := DeleteClassRecord(st, classRecordId, None);
    DeleteAbsentKeepsList(once, classRecordId);
  }

  /** A successful delete removes exactly the records with that id. */
  lemma {:induction false} DeleteCount(records: seq<ClassRecord>, classRecordId: int)
    ensures |Filter(records, c => Keeps(classRecordId, c))| + Occurrences(records, classRecordId) == |records|
  {
    if |records| > 0 {
      DeleteCount(records[1..], classRecordId);
      assert records == [records[0]] + records[1..];
      FilterAppend([records[0]], records[1..], c => Keeps(classRecordId, c));
    }
  }

  /** Number of records with the given id. */
  function Occurrences(records: seq<ClassRecord>, classRecordId: int): nat {
    if |records| == 0 then 0
    else (if records[0].id == classRecordId then 1 else 0) + Occurrences(records[1..], classRecordId)
  }

  /** When ids are unique and the id is listed, the count drops by one. */
  lemma DeleteListedDropsOne(st: State, classRecordId: int)
    requires forall i, j :: 0 <= i < j < |st.classRecords| ==> st.classRecords[i].id != st.classRecords[j].id
    requires exists i :: 0 <= i < |st.classRecords| && st.classRecords[i].id == classRecordId
    ensures DeleteClassRecord(st, classRecordId, None).classRecordCount == |st.classRecords| - 1
  {
    DeleteCount(st.classRecords, classRecordId);
    var i :| 0 <= i < |st.classRecords| && st.classRecords[i].id == classRecordId;
    OccursOnce(st.classRecords, classRecordId, i);
  }

  /** With unique ids, a listed id occurs exactly once. */
  lemma {:induction false} OccursOnce(records: seq<ClassRecord>, classRecordId: int, i: nat)
    requires forall a, b :: 0 <= a < b < |records| ==> records[a].id != records[b].id
    requires i < |records| && records[i].id == classRecordId
    ensures Occurrences(records, classRecordId) == 1
  {
    if i == 0 {
      OccursNever(records[1..], classRecordId);
    } else {
      OccursOnce(records[1..], classRecordId, i - 1);
    }
  }

  /** An id no record carries occurs zero times. */
  lemma {:induction false} OccursNever(records: seq<ClassRecord>, classRecordId: int)
    requires forall a :: 0 <= a < |records| ==> records[a].id != classRecordId
    ensures Occurrences(records, classRecordId) == 0
  {
    if |records| > 0 {
      OccursNever(records[1..], classRecordId);
    }
  }

  /** fetchClassRecords leaves the count in step with the list: a success
      brings it back in step, a failure keeps it as it was. */
  lemma FetchClassRecordsSyncs(st: State, rows: Result<seq<ClassRecord>>)
    ensures rows.Ok? ==> CountInSync(FetchClassRecords(st, rows))
    ensures CountInSync(FetchClassRecords(st, rows)) <==> rows.Ok? || CountInSync(st)
  {
  }

  /** deleteClassRecord leaves the count in step with the list in the same
      way. */
  lemma DeleteSyncs(st: State, classRecordId: int, deleteError: Option<string>)
    ensures deleteError == None ==> CountInSync(DeleteClassRecord(st, classRecordId, deleteError))
    ensures CountInSync(DeleteClassRecord(st, classRecordId, deleteError)) <==> deleteError == None || CountInSync(st)
  {
  }

  /** The roster fetch and adding a record touch neither the list nor the
      count. */
  lemma OtherActionsKeepSync(st: State, rows: Result<seq<RecordRow>>, teacherId: Option<string>,
                             insertError: Option<string>, recent: Result<Option<int>>, linkError: Option<string>)
    ensures CountInSync(FetchStudentsByClassRecord(st, rows)) <==> CountInSync(st)
    ensures CountInSync(AddClassRecord(st, teacherId, insertError, recent, linkError).0) <==> CountInSync(st)
  {
  }

  /** The detailed listing replaces the list but not the count, so after a
      successful load the count is right only when it happened to equal the
      number of rows already. */
  lemma DetailsLeaveCountStale(st: State, rows: seq<DetailedRow>)
    requires forall i :: 0 <= i < |rows| ==> Joined(rows[i])
    ensures CountInSync(FetchAllClassRecordsWithDetails(st, Ok(rows))) <==> st.classRecordCount == |rows|
  {
  }

  /** A concrete stale count: one listed record, then a detailed load of
      two rows, leaves the count at 1. */
  lemma DetailsBreakSync()
    ensures var st := State([ClassRecord(1, "1st", None, None, None, None)], [], false, None, 1);
            var rows := [DetailedRow(1, "1st", Some("Math"), Some("A"), [], Some("t@x")),
                         DetailedRow(2, "2nd", Some("Math"), Some("A"), [], Some("t@x"))];
            CountInSync(st) && !CountInSync(FetchAllClassRecordsWithDetails(st, Ok(rows)))
  {
  }
}
