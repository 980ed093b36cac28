/** The streamed AI replies: each chunk's content is formatted on its own
    and appended to the panel's text. The stream itself is a given
    sequence of chunk contents. */
module Chat {
  import opened Common
  import opened Text
  import opened Markup

  /** `chunk.choices[0]?.delta?.content || ""`: a missing content reads as
      the empty string. */
  function Content(chunk: Option<string>): (c: string)
    ensures chunk.Some? ==> c == chunk.value
    ensures chunk == None ==> c == ""
  {
    chunk.GetOr("")
  }

  /** The `for await` loop: `text += format(content)` for each chunk. */
  function Stream(text: string, chunks: seq<Option<string>>, format: string -> string): (r: string)
    ensures |text| <= |r| && r[..|text|] == text
    decreases |chunks|
  {
    if |chunks| == 0 then text
    else
      var next := text + format(Content(chunks[0]));
      var r := Stream(next, chunks[1..], format);
      assert r[..|next|] == next;
      assert next[..|text|] == text;
      r
  }

  /** The formatted contents laid end to end, in stream order. */
  function FormattedAll(chunks: seq<Option<string>>, format: string -> string): string {
    if |chunks| == 0 then "" else format(Content(chunks[0])) + FormattedAll(chunks[1..], format)
  }

  /** The contents laid end to end: the whole reply. */
  function Joined(chunks: seq<Option<string>>): string {
    if |chunks| == 0 then "" else Content(chunks[0]) + Joined(chunks[1..])
  }

  /** The loop leaves the old text followed by every formatted chunk. */
  lemma {:induction false} StreamIsConcat(text: string, chunks: seq<Option<string>>, format: string -> string)
    ensures Stream(text, chunks, format) == text + FormattedAll(chunks, format)
    decreases |chunks|
  {
    if |chunks| > 0 {
      var head := format(Content(chunks[0]));
      StreamIsConcat(text + head, chunks[1..], format);
      assert text + head + FormattedAll(chunks[1..], format) == text + (head + FormattedAll(chunks[1..], format));
    }
  }

  /** analyzeSubjectPerformance and analyzeSectionDistribution. The
      completion request is awaited first: when it fails (`created` is
      `None`) the call rejects before the reset and the previous analysis
      stays. Otherwise the analysis is cleared, then each chunk is formatted
      and appended, so the previous analysis plays no part. */
  function Analyze(previous: string, created: Option<seq<Option<string>>>): (r: string)
    ensures created == None ==> r == previous
    ensures created.Some? ==> r == FormattedAll(created.value, FormatResponse)
  {
    match created
    case None => previous
    case Some(chunks) =>
      StreamIsConcat("", chunks, FormatResponse);
      Stream("", chunks, FormatResponse)
  }

  /** Once the request succeeds, two runs that start from different
      analyses end the same; a failed request changes nothing. */
  lemma AnalyzeResets(p1: string, p2: string, created: Option<seq<Option<string>>>)
    ensures created.Some? ==> Analyze(p1, created) == Analyze(p2, created)
    ensures created.None? ==> Analyze(p1, created) == p1
  {
  }

  /** startChat of the student chat: the content is never cleared, so a run
      appends to whatever was there. */
  function StudentChat(content: string, chunks: seq<Option<string>>): (r: string)
    ensures r == content + FormattedAll(chunks, FormatResponse)
    ensures |content| <= |r| && r[..|content|] == content
  {
    StreamIsConcat(content, chunks, FormatResponse);
    Stream(content, chunks, FormatResponse)
  }

  /** startChat of the teacher chat: newlines only, appended. */
  function TeacherChat(content: string, chunks: seq<Option<string>>): (r: string)
    ensures r == content + FormattedAll(chunks, FormatNewlinesOnly)
    ensures |content| <= |r| && r[..|content|] == content
  {
    StreamIsConcat(content, chunks, FormatNewlinesOnly);
    Stream(content, chunks, FormatNewlinesOnly)
  }

  /** No formatted reply contains a newline. */
  lemma {:induction false} NoNewlineInReply(chunks: seq<Option<string>>)
    ensures '\n' !in FormattedAll(chunks, FormatResponse)
    ensures '\n' !in FormattedAll(chunks, FormatNewlinesOnly)
  {
    if |chunks| > 0 {
      NoNewlineInReply(chunks[1..]);
    }
  }

  /** For the newline-only format, chunking does not matter: the streamed
      text is the whole reply formatted at once. */
  lemma {:induction false} NewlinesChunkingInvisible(chunks: seq<Option<string>>)
    ensures FormattedAll(chunks, FormatNewlinesOnly) == ReplaceNewlines(Joined(chunks))
  {
    if |chunks| > 0 {
      NewlinesChunkingInvisible(chunks[1..]);
      ReplaceNewlinesAppend(Content(chunks[0]), Joined(chunks[1..]));
    }
  }

  /** Hence the teacher chat ends as the old content followed by the whole
      reply with its newlines replaced. */
  lemma TeacherChatIsWholeReply(content: string, chunks: seq<Option<string>>)
    ensures TeacherChat(content, chunks) == content + ReplaceNewlines(Joined(chunks))
  {
    NewlinesChunkingInvisible(chunks);
  }

  /** For the star markup chunking does matter: an italic span split over
      two chunks stays raw, while the same reply in one chunk is marked
      up. */
  lemma SplitMarkupStaysRaw(a: char)
    requires a != '*' && !IsLineTerminator(a)
    ensures Analyze("", Some([Some(['*', a]), Some(['*'])])) == ['*', a, '*']
    ensures FormatResponse(['*', a, '*']) == "<em>" + [a] + "</em>"
  {
    var first, second := ['*', a], ['*'];
    assert FormatResponse(first) == first by {
      assert CountChar(first, '*') <= 1 by {
        assert first[1..] == [a];
        assert CountChar([a], '*') == 0;
      }
      SingleStarKept(first);
      NewlineFreeUnchanged(first);
    }
    assert FormatResponse(second) == second by {
      SingleStarKept(second);
      NewlineFreeUnchanged(second);
    }
    var chunks := [Some(first), Some(second)];
    assert FormattedAll(chunks, FormatResponse) == first + second by {
      var tail := [Some(second)];
      assert chunks[1..] == tail;
      assert tail[1..] == [];
      assert FormattedAll(tail, FormatResponse) == FormatResponse(second) + "";
      assert FormattedAll(chunks, FormatResponse) == FormatResponse(first) + FormattedAll(tail, FormatResponse);
    }
    assert first + second == ['*', a, '*'];
    assert FormatResponse(['*', a, '*']) == "<em>" + [a] + "</em>" by {
      assert ['*', a, '*'] == "*" + [a] + "*";
      assert PlainText([a]) by { assert |[a]| == 1 && [a][0] == a; }
      Italic([a]);
    }
  }

  /** `topic && topic.trim() !== ""`. */
  predicate IsValidTopicName(topic: string) {
    topic != "" && Trim(topic) != ""
  }

  /** validTopicNames: the names that are not blank, in order. */
  function ValidTopicNames(topicNames: seq<string>): (r: seq<string>)
    ensures Subsequence(r, topicNames)
    ensures forall t :: t in r <==> t in topicNames && exists i :: 0 <= i < |t| && !IsWhitespace(t[i])
    ensures forall t :: multiset(r)[t] ==
              (if exists i :: 0 <= i < |t| && !IsWhitespace(t[i]) then multiset(topicNames)[t] else 0)
  {
    var r := Filter(topicNames, IsValidTopicName);
    FilterMultiset(topicNames, IsValidTopicName);
    forall t: string
      ensures IsValidTopicName(t) <==> exists i :: 0 <= i < |t| && !IsWhitespace(t[i])
    {
      TrimEmptyIff(t);
    }
    r
  }
}
