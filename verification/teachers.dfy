/** The teacher directory: each user row shaped with its subject titles and
    avatar, the case-insensitive search, and pagination by eight. */
module Teachers {
  import opened Common
  import opened Text

  /** A row of the users table. */
  datatype Teacher = Teacher(
    id: int,
    firstname: string,
    lastname: string,
    email: string,
    imagePath: Option<string>,
    phone: string,
    completeAddress: string)

  /** A teacher as the directory shows it. */
  datatype TeacherView = TeacherView(teacher: Teacher, subjects: seq<string>, avatar: string)

  /** What the two per-teacher lookups returned: the assignment query failed,
      the subject-title query failed, or the titles found. */
  datatype SubjectLookup = AssignmentsFailed | TitlesFailed | Titles(titles: seq<string>)

  /** Stands for the bundled default avatar image's URL. */
  const DefaultAvatar: string := "/assets/avatar.png"

  const ItemsPerPage: nat := 8

  /** `teacher.image_path || avatar`. */
  function Avatar(t: Teacher): (a: string)
    ensures t.imagePath.Some? && t.imagePath.value != "" ==> a == t.imagePath.value
    ensures t.imagePath == None || t.imagePath == Some("") ==> a == DefaultAvatar
  {
    if t.imagePath.Some? && t.imagePath.value != "" then t.imagePath.value else DefaultAvatar
  }

  /** One teacher with its lookups applied: either failure leaves no
      subjects. */
  function Shape(t: Teacher, lookup: SubjectLookup): (v: TeacherView)
    ensures v.teacher == t && v.avatar == Avatar(t)
    ensures lookup.Titles? ==> v.subjects == lookup.titles
    ensures !lookup.Titles? ==> v.subjects == []
  {
    match lookup
    case Titles(ts) => TeacherView(t, ts, Avatar(t))
    case _ => TeacherView(t, [], Avatar(t))
  }

  /** initializeTeachers: a failed or empty user query keeps the current
      list; otherwise each user row is shaped, in order. */
  function Initialize(current: seq<TeacherView>, fetched: Result<seq<Teacher>>,
                      lookup: Teacher -> SubjectLookup): (r: seq<TeacherView>)
    ensures fetched.Err? || |fetched.value| == 0 ==> r == current
    ensures fetched.Ok? && |fetched.value| > 0 ==>
              |r| == |fetched.value|
              && forall i :: 0 <= i < |r| ==> r[i] == Shape(fetched.value[i], lookup(fetched.value[i]))
  {
    if fetched.Err? || |fetched.value| == 0 then current
    else seq(|fetched.value|, i requires 0 <= i < |fetched.value| =>
               Shape(fetched.value[i], lookup(fetched.value[i])))
  }

  /** Both failed lookups look alike to the directory: a teacher shows no
      subjects, as with an empty title list. */
  lemma LookupFailuresAlike(t: Teacher)
    ensures Shape(t, AssignmentsFailed) == Shape(t, TitlesFailed) == Shape(t, Titles([]))
  {
  }

  /** Shaping keeps the user rows: reading the teacher back out of each
      entry of a fresh list gives the fetched rows, in order. */
  lemma InitializeKeepsRows(current: seq<TeacherView>, fetched: seq<Teacher>, lookup: Teacher -> SubjectLookup)
    requires |fetched| > 0
    ensures var r := Initialize(current, Ok(fetched), lookup);
            seq(|r|, i requires 0 <= i < |r| => r[i].teacher) == fetched
  {
  }

  /** The search rule: the lower-cased "first last" or the lower-cased
      email contains the lower-cased query. */
  predicate Matches(v: TeacherView, query: string) {
    Contains(ToLower(v.teacher.firstname + " " + v.teacher.lastname), ToLower(query))
    || Contains(ToLower(v.teacher.email), ToLower(query))
  }

  /** filteredTeachers: an empty query shows everyone. */
  function Search(teachers: seq<TeacherView>, query: string): (r: seq<TeacherView>)
    ensures query == "" ==> r == teachers
    ensures forall v :: v in r <==> v in teachers && Matches(v, query)
    ensures Subsequence(r, teachers)
    ensures forall v :: multiset(r)[v] == (if Matches(v, query) then multiset(teachers)[v] else 0)
  {
    FilterMultiset(teachers, v => Matches(v, query));
    if query == "" then
      EmptyQueryMatchesAll(teachers);
      teachers
    else Filter(teachers, v => Matches(v, query))
  }

  /** An empty query matches every teacher, so the short cut for it agrees
      with the filter. */
  lemma EmptyQueryMatchesAll(teachers: seq<TeacherView>)
    ensures Filter(teachers, v => Matches(v, "")) == teachers
  {
    forall v: TeacherView
      ensures Matches(v, "")
    {
      ContainsEmpty(ToLower(v.teacher.email));
    }
  }

  /** `Math.ceil(n / 8)`. */
  function TotalPages(n: nat): (pages: nat)
    ensures pages * ItemsPerPage >= n
    ensures pages > 0 ==> (pages - 1) * ItemsPerPage < n
  {
    (n + ItemsPerPage - 1) / ItemsPerPage
  }

  /** Resolves a `slice` bound: a negative index counts from the end, and
      the result is clamped to [0, len]. */
  function SliceIndex(k: int, len: nat): (i: nat)
    ensures i <= len
    ensures 0 <= k <= len ==> i == k
  {
    if k < 0 then (if len + k < 0 then 0 else len + k)
    else if k > len then len
    else k
  }

  /** `Array.prototype.slice(start, end)`. */
  function JsSlice<T>(s: seq<T>, start: int, end: int): (r: seq<T>)
    ensures 0 <= start <= end <= |s| ==> r == s[start..end]
    ensures 0 <= start && |s| <= start ==> r == []
  {
    var a := SliceIndex(start, |s|);
    var b := SliceIndex(end, |s|);
    if a < b then s[a..b] else []
  }

  /** paginatedTeachers: page `page` (1-based) is the slice from
      (page - 1) * 8 to (page - 1) * 8 + 8. */
  function Page<T>(s: seq<T>, page: int): (r: seq<T>)
    ensures |r| <= ItemsPerPage
    ensures 1 <= page <= TotalPages(|s|) ==>
              0 < |r| && r == s[(page - 1) * ItemsPerPage .. Min(page * ItemsPerPage, |s|)]
    ensures page > TotalPages(|s|) ==> r == []
    ensures page == 0 ==> r == []
  {
    var start := (page - 1) * ItemsPerPage;
    JsSlice(s, start, start + ItemsPerPage)
  }

  function Min(a: int, b: int): int {
    if a <= b then a else b
  }

  /** Pages 1..k laid end to end. */
  function PagesUpTo<T>(s: seq<T>, k: nat): seq<T> {
    if k == 0 then [] else PagesUpTo(s, k - 1) + Page(s, k)
  }

  /** The first k pages are the first min(8k, |s|) items. */
  lemma {:induction false} PagesUpToPrefix<T>(s: seq<T>, k: nat)
    requires k <= TotalPages(|s|)
    ensures PagesUpTo(s, k) == s[..Min(k * ItemsPerPage, |s|)]
  {
    if k > 0 {
      PagesUpToPrefix(s, k - 1);
      var lo := (k - 1) * ItemsPerPage;
      var hi := Min(k * ItemsPerPage, |s|);
      assert Min((k - 1) * ItemsPerPage, |s|) == lo;
      assert s[..lo] + s[lo..hi] == s[..hi];
    }
  }

  /** Pages 1..totalPages, concatenated, are exactly the filtered list. */
  lemma PagesCoverList<T>(s: seq<T>)
    ensures PagesUpTo(s, TotalPages(|s|)) == s
  {
    PagesUpToPrefix(s, TotalPages(|s|));
    assert s[..|s|] == s;
  }
}
