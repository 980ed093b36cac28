/** Where a subject's topic names come from: the topics table first, then
    the bundled topics JSON, matched by subject name case-insensitively.
    The database and the HTTP fetch come in as values. */
module Topics {
  import opened Common
  import opened Text

  /** A JSON value as the HTTP client decodes it. */
  datatype Json =
    | JNull
    | JBool(b: bool)
    | JNum(n: real)
    | JStr(s: string)
    | JArr(items: seq<Json>)
    | JObj(fields: map<string, Json>)
  {
    /** JavaScript truthiness (NaN is not modelled). */
    predicate Truthy() {
      match this
      case JNull => false
      case JBool(b) => b
      case JNum(n) => n != 0.0
      case JStr(s) => s != ""
      case JArr(_) => true
      case JObj(_) => true
    }

    /** `typeof v === 'object'`, which holds for `null` too. */
    predicate IsObjectType() {
      JNull? || JArr? || JObj?
    }

    /** Property access `v[key]`: `None` stands for `undefined`. */
    function Get(key: string): (r: Option<Json>)
      ensures !JObj? ==> r == None
      ensures JObj? ==> (r.Some? <==> key in fields)
    {
      if JObj? && key in fields then Some(fields[key]) else None
    }
  }

  /** The two filters of the topics query. */
  datatype TopicsQuery = TopicsQuery(subjectId: int, classRecordId: Option<int>)

  /** `classRecordId || null`: 0, `null` and `undefined` all become `null`. */
  function ClassRecordFilter(classRecordId: Option<int>): (f: Option<int>)
    ensures f == None <==> classRecordId == None || classRecordId == Some(0)
    ensures f.Some? ==> f == classRecordId
  {
    if classRecordId.Some? && classRecordId.value != 0 then classRecordId else None
  }

  /** fetchTopicsFromSupabase: the query for the subject and the filtered
      class record; an error gives no topics, otherwise the titles in row
      order. */
  function FetchTopicsFromDb(subjectId: int, classRecordId: Option<int>,
                             db: TopicsQuery -> Result<seq<string>>): (r: seq<string>)
    ensures db(TopicsQuery(subjectId, ClassRecordFilter(classRecordId))).Err? ==> r == []
    ensures db(TopicsQuery(subjectId, ClassRecordFilter(classRecordId))).Ok? ==>
              r == db(TopicsQuery(subjectId, ClassRecordFilter(classRecordId))).value
  {
    match db(TopicsQuery(subjectId, ClassRecordFilter(classRecordId)))
    case Err(_) => []
    case Ok(titles) => titles
  }

  /** fetchTopicsFromJson: an array is taken as the list; any other truthy
      object becomes a one-item list; anything else, or a failed fetch,
      gives the empty list. */
  function FetchTopicsFromJson(response: Result<Json>): (r: seq<Json>)
    ensures response.Err? ==> r == []
    ensures response.Ok? && response.value.JArr? ==> r == response.value.items
    ensures response.Ok? && response.value.JObj? ==> r == [response.value]
    ensures response.Ok? && !response.value.JArr? && !response.value.JObj? ==> r == []
  {
    match response
    case Err(_) => []
    case Ok(data) =>
      if data.JArr? then data.items
      else if data.Truthy() && data.IsObjectType() then [data]
      else []
  }

  /** The normalised list is a fixed point: normalising it again, as an
      array response, gives it back. */
  lemma FetchTopicsFromJsonIdempotent(response: Result<Json>)
    ensures FetchTopicsFromJson(Ok(JArr(FetchTopicsFromJson(response)))) == FetchTopicsFromJson(response)
  {
  }

  /** The `find` test: a truthy item whose `subject` is a non-empty string
      equal to `subjectName` once both are lower-cased. */
  predicate SubjectMatches(item: Json, subjectName: string) {
    item.Truthy()
    && var subject := item.Get("subject");
       subject.Some? && subject.value.Truthy() && subject.value.JStr?
       && ToLower(subject.value.s) == ToLower(subjectName)
  }

  /** `Array.prototype.find` with `SubjectMatches`. */
  function FindSubject(items: seq<Json>, subjectName: string): (r: Option<nat>)
    ensures r.Some? ==> r.value < |items| && SubjectMatches(items[r.value], subjectName)
                        && forall j :: 0 <= j < r.value ==> !SubjectMatches(items[j], subjectName)
    ensures r == None <==> forall j :: 0 <= j < |items| ==> !SubjectMatches(items[j], subjectName)
  {
    if |items| == 0 then None
    else if SubjectMatches(items[0], subjectName) then Some(0)
    else match FindSubject(items[1..], subjectName)
         case None => None
         case Some(k) => Some(k + 1)
  }

  /** The topics of the matched JSON item: its `topics` when that is an
      array, otherwise none. */
  function TopicsFromJson(items: seq<Json>, subjectName: string): (r: seq<Json>)
    ensures FindSubject(items, subjectName) == None ==> r == []
    ensures FindSubject(items, subjectName).Some? ==>
              var topics := items[FindSubject(items, subjectName).value].Get("topics");
              if topics.Some? && topics.value.JArr? then r == topics.value.items else r == []
  {
    match FindSubject(items, subjectName)
    case None => []
    case Some(k) =>
      var topics := items[k].Get("topics");
      if topics.Some? && topics.value.JArr? then topics.value.items else []
  }

  /** getTopicsForSubject: with a subject id (0 included) whose table
      lookup finds topics, those titles; otherwise the JSON fallback. The
      titles are returned as JSON strings so both sources share one type. */
  function GetTopicsForSubject(subjectName: string, subjectId: Option<int>, classRecordId: Option<int>,
                               db: TopicsQuery -> Result<seq<string>>, response: Result<Json>): (r: seq<Json>)
    ensures subjectId.Some? && |FetchTopicsFromDb(subjectId.value, classRecordId, db)| > 0 ==>
              |r| == |FetchTopicsFromDb(subjectId.value, classRecordId, db)|
              && forall i :: 0 <= i < |r| ==> r[i] == JStr(FetchTopicsFromDb(subjectId.value, classRecordId, db)[i])
    ensures subjectId == None || |FetchTopicsFromDb(subjectId.value, classRecordId, db)| == 0 ==>
              r == TopicsFromJson(FetchTopicsFromJson(response), subjectName)
  {
    if subjectId.Some? && |FetchTopicsFromDb(subjectId.value, classRecordId, db)| > 0 then
      var titles := FetchTopicsFromDb(subjectId.value, classRecordId, db);
      seq(|titles|, i requires 0 <= i < |titles| => JStr(titles[i]))
    else TopicsFromJson(FetchTopicsFromJson(response), subjectName)
  }

  /** When the table has topics for the subject, the JSON file plays no
      part: any two responses give the same result. */
  lemma JsonNotConsulted(subjectName: string, subjectId: int, classRecordId: Option<int>,
                         db: TopicsQuery -> Result<seq<string>>, r1: Result<Json>, r2: Result<Json>)
    requires |FetchTopicsFromDb(subjectId, classRecordId, db)| > 0
    ensures GetTopicsForSubject(subjectName, Some(subjectId), classRecordId, db, r1)
         == GetTopicsForSubject(subjectName, Some(subjectId), classRecordId, db, r2)
  {
  }

  /** Without a subject id the table is not consulted: any two databases
      give the same result. */
  lemma DbNotConsultedWithoutId(subjectName: string, classRecordId: Option<int>,
                                db1: TopicsQuery -> Result<seq<string>>, db2: TopicsQuery -> Result<seq<string>>,
                                response: Result<Json>)
    ensures GetTopicsForSubject(subjectName, None, classRecordId, db1, response)
         == GetTopicsForSubject(subjectName, None, classRecordId, db2, response)
  {
  }

  /** A zero class record id queries the same rows as no class record id. */
  lemma ZeroClassRecordIsNull(subjectId: int, db: TopicsQuery -> Result<seq<string>>)
    ensures FetchTopicsFromDb(subjectId, Some(0), db) == FetchTopicsFromDb(subjectId, None, db)
  {
  }

  /** The match ignores the case of the requested name. */
  lemma {:induction false} FindIgnoresCase(items: seq<Json>, subjectName: string)
    ensures FindSubject(items, subjectName) == FindSubject(items, ToLower(subjectName))
  {
    ToLowerIdempotent(subjectName);
    if |items| > 0 {
      FindIgnoresCase(items[1..], subjectName);
    }
  }

  /** An empty subject name matches nothing: a matching subject must be a
      non-empty string, and lower-casing keeps its length. */
  lemma EmptyNameMatchesNothing(items: seq<Json>)
    ensures TopicsFromJson(items, "") == []
  {
  }

  /** A bundled file holding one subject object (not wrapped in an array)
      is still searched. */
  lemma SingleObjectIsSearched(subject: string, topics: seq<Json>)
    requires subject != ""
    ensures var obj := JObj(map["subject" := JStr(subject), "topics" := JArr(topics)]);
            GetTopicsForSubject(subject, None, None, _ => Ok([]), Ok(obj)) == topics
  {
    var obj := JObj(map["subject" := JStr(subject), "topics" := JArr(topics)]);
    assert SubjectMatches(obj, subject);
  }
}
