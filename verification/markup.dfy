/** The reply formatter of the AI panels: newlines become `<br>`, and
    `***x***`, `**x**`, `*x*` become strong/emphasis markup. Each global
    lazy-regex replacement is a left-to-right scan that, at each position,
    takes the shortest match there, and otherwise copies one character. */
module Markup {
  import opened Common
  import opened Text

  /** What the regex `.` refuses to match: the ECMAScript line terminators. */
  predicate IsLineTerminator(c: char) {
    c == '\n' || c == '\r' || c == '\U{2028}' || c == '\U{2029}'
  }

  /** `replace(/\n/g, "<br>")`. */
  function ReplaceNewlines(s: string): (r: string)
    ensures '\n' !in r
  {
    if |s| == 0 then ""
    else (if s[0] == '\n' then "<br>" else [s[0]]) + ReplaceNewlines(s[1..])
  }

  /** Each newline grows the text by three characters, and no '*' is added
      or lost. */
  lemma {:induction false} ReplaceNewlinesCounts(s: string)
    ensures |ReplaceNewlines(s)| == |s| + 3 * CountChar(s, '\n')
    ensures CountChar(ReplaceNewlines(s), '*') == CountChar(s, '*')
  {
    if |s| > 0 {
      var head := if s[0] == '\n' then "<br>" else [s[0]];
      ReplaceNewlinesCounts(s[1..]);
      CountCharAppend(head, ReplaceNewlines(s[1..]), '*');
    }
  }

  /** Counting distributes over concatenation. */
  lemma {:induction false} CountCharAppend(a: string, b: string, c: char)
    ensures CountChar(a + b, c) == CountChar(a, c) + CountChar(b, c)
  {
    if |a| == 0 {
      assert a + b == b;
    } else {
      assert (a + b)[1..] == a[1..] + b;
      CountCharAppend(a[1..], b, c);
    }
  }

  /** A string without newlines passes through. */
  lemma {:induction false} NewlineFreeUnchanged(s: string)
    requires '\n' !in s
    ensures ReplaceNewlines(s) == s
  {
    if |s| > 0 {
      NewlineFreeUnchanged(s[1..]);
      assert s == [s[0]] + s[1..];
    }
  }

  /** Replacing newlines piece by piece is replacing them in the whole. */
  lemma {:induction false} ReplaceNewlinesAppend(a: string, b: string)
    ensures ReplaceNewlines(a + b) == ReplaceNewlines(a) + ReplaceNewlines(b)
  {
    if |a| == 0 {
      assert a + b == b;
    } else {
      var head := if a[0] == '\n' then "<br>" else [a[0]];
      assert (a + b)[1..] == a[1..] + b;
      assert ReplaceNewlines(a + b) == head + ReplaceNewlines(a[1..] + b);
      ReplaceNewlinesAppend(a[1..], b);
      assert ReplaceNewlines(a) == head + ReplaceNewlines(a[1..]);
    }
  }

  /** `d` occurs in `s` at index `i`. */
  predicate RunAt(s: string, d: string, i: int) {
    0 <= i && i + |d| <= |s| && s[i..i + |d|] == d
  }

  /** The lazy body can take index `j` of `t` and go on: it holds no line
      terminator and no closing run starts there. */
  predicate Passes(t: string, d: string, j: int) {
    0 <= j < |t| && !IsLineTerminator(t[j]) && !RunAt(t, d, j)
  }

  /** Index `m` of `t` holds a line terminator. */
  predicate BreakAt(t: string, m: int) {
    0 <= m < |t| && IsLineTerminator(t[m])
  }

  /** The lazy `(.*?)` followed by the closing delimiter, tried from index
      `k` of `t`: the first index where `d` starts, provided no line
      terminator comes before it. */
  function FindClose(t: string, d: string, k: nat): (r: Option<nat>)
    requires k <= |t| && |d| > 0
    ensures r.Some? ==>
              k <= r.value && RunAt(t, d, r.value)
              && forall j :: k <= j < r.value ==> Passes(t, d, j)
    ensures r.None? ==>
              forall j :: k <= j && RunAt(t, d, j) ==> exists m :: k <= m < j && BreakAt(t, m)
    decreases |t| - k
  {
    if RunAt(t, d, k) then Some(k)
    else if k == |t| then None
    else if IsLineTerminator(t[k]) then assert BreakAt(t, k); None
    else FindClose(t, d, k + 1)
  }

  /** A match of `d(.*?)d` at the start of `t`, as the length of the
      captured text: the body runs up to the first closing run, and it may
      not hold a line terminator. */
  function MatchAt(t: string, d: string): (r: Option<nat>)
    requires |d| > 0
    ensures !RunAt(t, d, 0) ==> r == None
    ensures r.Some? ==>
              RunAt(t, d, 0) && RunAt(t, d, |d| + r.value)
              && forall j :: |d| <= j < |d| + r.value ==> Passes(t, d, j)
    ensures r.None? && RunAt(t, d, 0) ==>
              forall j :: |d| <= j && RunAt(t, d, j) ==> exists m :: |d| <= m < j && BreakAt(t, m)
  {
    if RunAt(t, d, 0) then
      match FindClose(t, d, |d|)
      case Some(c) => Some(c - |d|)
      case None => None
    else None
  }

  /** One position of the scan over `s`: where a match starts, the markup
      around the captured text and the length of the match; otherwise the
      first character and a step of one. */
  function ScanStep(s: string, d: string, open: string, close: string): (r: (string, nat))
    requires |d| > 0 && |s| > 0
    ensures 0 < r.1 <= |s|
    ensures forall c :: c in r.0 ==> c in s[..r.1] || c in open || c in close
  {
    match MatchAt(s, d)
    case Some(k) =>
      var body := s[|d|..|d| + k];
      assert forall c :: c in body ==> c in s[..2 * |d| + k] by {
        forall c | c in body
          ensures c in s[..2 * |d| + k]
        {
          var i :| 0 <= i < k && body[i] == c;
          assert s[..2 * |d| + k][|d| + i] == c;
        }
      }
      (open + body + close, 2 * |d| + k)
    case None =>
      assert s[..1][0] == s[0];
      ([s[0]], 1)
  }

  /** `replace(/d(.*?)d/g, open + "$1" + close)`: a left-to-right scan
      that, where a match starts, emits the markup around the captured
      text and skips the match, and otherwise copies one character. */
  function ReplaceLazy(s: string, d: string, open: string, close: string): (r: string)
    requires |d| > 0
    ensures forall c :: c in r ==> c in s || c in open || c in close
    ensures |s| == 0 ==> r == ""
    ensures MatchAt(s, d).Some? ==>
              var m := open + s[|d|..|d| + MatchAt(s, d).value] + close;
              |m| <= |r| && r[..|m|] == m
    decreases |s|
  {
    if |s| == 0 then ""
    else
      var step := ScanStep(s, d, open, close);
      var rest := ReplaceLazy(s[step.1..], d, open, close);
      StepThenRest(s, step.1, step.0, rest, open, close);
      step.0 + rest
  }

  /** The characters of a step and of the scan after it come from the text
      or the markup, and the step leads the output. */
  lemma StepThenRest(s: string, n: nat, out: string, rest: string, open: string, close: string)
    requires n <= |s|
    requires forall c :: c in out ==> c in s[..n] || c in open || c in close
    requires forall c :: c in rest ==> c in s[n..] || c in open || c in close
    ensures forall c :: c in out + rest ==> c in s || c in open || c in close
    ensures (out + rest)[..|out|] == out
  {
    assert s == s[..n] + s[n..];
  }

  /** The bold-italic pass: each `***`-delimited span becomes strong
      emphasis. */
  function Triple(s: string): (r: string)
    ensures '*' !in s ==> r == s
    ensures forall c :: c in r ==> c in s || c in "<strong><em>" || c in "</em></strong>"
  {
    var r := ReplaceLazy(s, "***", "<strong><em>", "</em></strong>");
    assert '*' !in s ==> r == s by {
      if '*' !in s { NoDelimiterUnchanged(s, "***", "<strong><em>", "</em></strong>"); }
    }
    r
  }

  /** The bold pass: each `**`-delimited span becomes strong. */
  function Double(s: string): (r: string)
    ensures '*' !in s ==> r == s
    ensures forall c :: c in r ==> c in s || c in "<strong>" || c in "</strong>"
  {
    var r := ReplaceLazy(s, "**", "<strong>", "</strong>");
    assert '*' !in s ==> r == s by {
      if '*' !in s { NoDelimiterUnchanged(s, "**", "<strong>", "</strong>"); }
    }
    r
  }

  /** The italic pass: each `*`-delimited span becomes emphasis. */
  function Single(s: string): (r: string)
    ensures '*' !in s ==> r == s
    ensures forall c :: c in r ==> c in s || c in "<em>" || c in "</em>"
  {
    var r := ReplaceLazy(s, "*", "<em>", "</em>");
    assert '*' !in s ==> r == s by {
      if '*' !in s { NoDelimiterUnchanged(s, "*", "<em>", "</em>"); }
    }
    r
  }

  /** formatResponse of the analytics and student-chat panels. */
  function FormatResponse(s: string): (r: string)
    ensures '\n' !in r
  {
    var t := ReplaceNewlines(s);
    assert '\n' !in "<strong><em>" && '\n' !in "</em></strong>";
    assert '\n' !in "<strong>" && '\n' !in "</strong>" && '\n' !in "<em>" && '\n' !in "</em>";
    Single(Double(Triple(t)))
  }

  /** FormatResponse as its four passes. */
  lemma FormatPasses(s: string, a: string, b: string, c: string, d: string)
    requires ReplaceNewlines(s) == a && Triple(a) == b && Double(b) == c && Single(c) == d
    ensures FormatResponse(s) == d
  {
  }

  /** formatResponse of the teacher chat: newlines only. */
  function FormatNewlinesOnly(s: string): (r: string)
    ensures '\n' !in r
    ensures |r| == |s| + 3 * CountChar(s, '\n')
  {
    ReplaceNewlinesCounts(s);
    ReplaceNewlines(s)
  }

  /** Where nothing matches, the scan copies its input. */
  lemma {:induction false} NoMatchUnchanged(s: string, d: string, open: string, close: string)
    requires |d| > 0
    requires forall i :: 0 <= i < |s| ==> MatchAt(s[i..], d) == None
    ensures ReplaceLazy(s, d, open, close) == s
  {
    if |s| > 0 {
      assert s[0..] == s;
      forall i | 0 <= i < |s| - 1
        ensures MatchAt(s[1..][i..], d) == None
      {
        assert s[1..][i..] == s[i + 1..];
      }
      ReplaceNoMatch(s, d, open, close);
      NoMatchUnchanged(s[1..], d, open, close);
      assert s == [s[0]] + s[1..];
    }
  }

  /** A string without the delimiter's first character is left alone. */
  lemma NoDelimiterUnchanged(s: string, d: string, open: string, close: string)
    requires |d| > 0 && d[0] !in s
    ensures ReplaceLazy(s, d, open, close) == s
  {
    forall i | 0 <= i < |s|
      ensures MatchAt(s[i..], d) == None
    {
      if |d| <= |s[i..]| { assert s[i..][0..|d|][0] == s[i]; }
    }
    NoMatchUnchanged(s, d, open, close);
  }

  /** A string holding no run of `d` is left alone. */
  lemma NoRunUnchanged(s: string, d: string, open: string, close: string)
    requires |d| > 0
    requires forall i :: !RunAt(s, d, i)
    ensures ReplaceLazy(s, d, open, close) == s
  {
    forall i | 0 <= i < |s|
      ensures MatchAt(s[i..], d) == None
    {
      assert !RunAt(s, d, i);
      assert |d| <= |s[i..]| ==> s[i..][0..|d|] == s[i..i + |d|];
    }
    NoMatchUnchanged(s, d, open, close);
  }

  /** Text without '*' and without newlines is returned as it is. */
  lemma PlainTextUnchanged(s: string)
    requires '*' !in s && '\n' !in s
    ensures FormatResponse(s) == s
  {
    NewlineFreeUnchanged(s);
    StarFreePasses(s);
  }

  /** Two '*' at different places count at least two. */
  lemma {:induction false} TwoStars(s: string, i: nat, j: nat)
    requires i < j < |s| && s[i] == '*' && s[j] == '*'
    ensures CountChar(s, '*') >= 2
  {
    if i > 0 {
      TwoStars(s[1..], i - 1, j - 1);
    } else {
      assert '*' in s[1..] by { assert s[1..][j - 1] == '*'; }
    }
  }

  /** With at most one '*', no delimiter pattern can match anywhere: each
      needs an opening and a closing run. */
  lemma OneStarNoMatch(s: string, d: string, open: string, close: string)
    requires |d| > 0 && d[0] == '*' && CountChar(s, '*') <= 1
    ensures ReplaceLazy(s, d, open, close) == s
  {
    forall i | 0 <= i < |s|
      ensures MatchAt(s[i..], d) == None
    {
      var m := MatchAt(s[i..], d);
      if m.Some? {
        var u := s[i..];
        assert u[|d| + m.value..2 * |d| + m.value] == d;
        assert s[i] == '*';
        assert s[i + |d| + m.value] == u[|d| + m.value];
        TwoStars(s, i, i + |d| + m.value);
      }
    }
    NoMatchUnchanged(s, d, open, close);
  }

  /** A reply with a single '*' keeps it: only the newlines change. */
  lemma SingleStarKept(s: string)
    requires CountChar(s, '*') <= 1
    ensures FormatResponse(s) == ReplaceNewlines(s)
  {
    var t := ReplaceNewlines(s);
    ReplaceNewlinesCounts(s);
    OneStarNoMatch(t, "***", "<strong><em>", "</em></strong>");
    OneStarNoMatch(t, "**", "<strong>", "</strong>");
    OneStarNoMatch(t, "*", "<em>", "</em>");
  }

  /** Text with no '*' and no line terminator: what `(.*?)` can capture
      between two runs without meeting a delimiter. */
  predicate PlainText(x: string) {
    forall i :: 0 <= i < |x| ==> x[i] != '*' && !IsLineTerminator(x[i])
  }

  /** The lazy body stops at the first closing run when nothing before it
      is a '*' or a line terminator. */
  lemma {:induction false} CloseAfter(x: string, d: string, k: nat)
    requires |d| > 0 && d[0] == '*' && |d| <= k <= |d| + |x|
    requires PlainText(x)
    ensures FindClose(d + x + d, d, k) == Some(|d| + |x|)
    decreases |d| + |x| - k
  {
    var t := d + x + d;
    if k < |d| + |x| {
      assert t[k] == x[k - |d|];
      assert !RunAt(t, d, k) by {
        if k + |d| <= |t| { assert t[k..k + |d|][0] == t[k]; }
      }
      CloseAfter(x, d, k + 1);
    } else {
      assert t[k..k + |d|] == d;
    }
  }

  /** One step of the scan at a position where a match starts. */
  lemma {:induction false} ReplaceAtMatch(s: string, d: string, open: string, close: string, k: nat)
    requires |d| > 0 && MatchAt(s, d) == Some(k)
    ensures ReplaceLazy(s, d, open, close)
         == open + s[|d|..|d| + k] + close + ReplaceLazy(s[2 * |d| + k..], d, open, close)
  {
    var head := open + s[|d|..|d| + k] + close;
    assert ScanStep(s, d, open, close) == (head, 2 * |d| + k);
    var rest := ReplaceLazy(s[2 * |d| + k..], d, open, close);
    assert ReplaceLazy(s, d, open, close) == head + rest;
  }

  /** One step of the scan at a position where no match starts: the
      character is copied and the scan moves on by one. */
  lemma {:induction false} ReplaceNoMatch(s: string, d: string, open: string, close: string)
    requires |d| > 0 && |s| > 0 && MatchAt(s, d) == None
    ensures ReplaceLazy(s, d, open, close) == [s[0]] + ReplaceLazy(s[1..], d, open, close)
  {
    assert ScanStep(s, d, open, close) == ([s[0]], 1);
    var rest := ReplaceLazy(s[1..], d, open, close);
    assert ReplaceLazy(s, d, open, close) == [s[0]] + rest;
  }

  /** The delimiter-wrapped text is replaced by the markup around it. */
  lemma WrappedReplaced(x: string, d: string, open: string, close: string)
    requires |d| > 0 && d[0] == '*'
    requires PlainText(x)
    ensures ReplaceLazy(d + x + d, d, open, close) == open + x + close
  {
    var s := d + x + d;
    assert MatchAt(s, d) == Some(|x|) by {
      assert s[0..|d|] == d;
      CloseAfter(x, d, |d|);
    }
    ReplaceAtMatch(s, d, open, close, |x|);
    assert s[|d|..|d| + |x|] == x;
    var rest := s[2 * |d| + |x|..];
    assert ReplaceLazy(rest, d, open, close) == [] by {
      assert |rest| == 0;
    }
  }

  /** Plain text has neither '*' nor a newline. */
  lemma PlainBody(x: string)
    requires PlainText(x)
    ensures '*' !in x && '\n' !in x
  {
  }

  /** Wrapping newline-free text in a newline-free delimiter leaves nothing
      for the newline pass. */
  lemma WrappedNewlineFree(x: string, d: string)
    requires '\n' !in x && '\n' !in d
    ensures ReplaceNewlines(d + x + d) == d + x + d
  {
    assert '\n' !in d + x + d;
    NewlineFreeUnchanged(d + x + d);
  }

  /** The three star passes leave star-free text alone. */
  lemma StarFreePasses(s: string)
    requires '*' !in s
    ensures Triple(s) == s && Double(s) == s && Single(s) == s
  {
    NoDelimiterUnchanged(s, "***", "<strong><em>", "</em></strong>");
    NoDelimiterUnchanged(s, "**", "<strong>", "</strong>");
    NoDelimiterUnchanged(s, "*", "<em>", "</em>");
  }

  /** Markup around star-free text is star-free. */
  lemma MarkupStarFree(x: string, open: string, close: string)
    requires '*' !in x && '*' !in open && '*' !in close
    ensures '*' !in open + x + close
  {
  }

  /** `***x***` becomes bold italic. */
  lemma BoldItalic(x: string)
    requires PlainText(x)
    ensures FormatResponse("***" + x + "***") == "<strong><em>" + x + "</em></strong>"
  {
    var s := "***" + x + "***";
    var out := "<strong><em>" + x + "</em></strong>";
    PlainBody(x);
    assert ReplaceNewlines(s) == s by { WrappedNewlineFree(x, "***"); }
    assert Triple(s) == out by { WrappedReplaced(x, "***", "<strong><em>", "</em></strong>"); }
    assert Double(out) == out && Single(out) == out by {
      MarkupStarFree(x, "<strong><em>", "</em></strong>");
    }
    FormatPasses(s, s, out, out, out);
  }

  /** `**x**` becomes bold, with no stray emphasis. */
  lemma Bold(x: string)
    requires PlainText(x)
    ensures FormatResponse("**" + x + "**") == "<strong>" + x + "</strong>"
  {
    if |x| == 0 {
      assert "**" + x + "**" == "****" && "<strong>" + x + "</strong>" == "<strong></strong>";
      EmptyBold();
      return;
    }
    var s := "**" + x + "**";
    var out := "<strong>" + x + "</strong>";
    PlainBody(x);
    assert ReplaceNewlines(s) == s by { WrappedNewlineFree(x, "**"); }
    assert Triple(s) == s by {
      NoTripleInBold(x);
      NoRunUnchanged(s, "***", "<strong><em>", "</em></strong>");
    }
    assert Double(s) == out by { WrappedReplaced(x, "**", "<strong>", "</strong>"); }
    assert Single(out) == out by { MarkupStarFree(x, "<strong>", "</strong>"); }
    FormatPasses(s, s, s, out, out);
  }

  /** "****" holds runs of three stars, but none of them closes, so only
      the bold pass matches, with an empty body. */
  lemma EmptyBold()
    ensures FormatResponse("****") == "<strong></strong>"
  {
    var s := "****";
    var out := "<strong></strong>";
    assert ReplaceNewlines(s) == s by { NewlineFreeUnchanged(s); }
    assert Triple(s) == s by { FourStarsNoTriple(); }
    assert Double(s) == out by { FourStarsBold(); }
    assert Single(out) == out by { EmptyStrongKept(); }
    FormatPasses(s, s, s, out, out);
  }

  /** The italic pass leaves an empty strong element alone. */
  lemma EmptyStrongKept()
    ensures Single("<strong></strong>") == "<strong></strong>"
  {
    var out := "<strong></strong>";
    MarkupStarFree("", "<strong>", "</strong>");
    assert "<strong>" + "" + "</strong>" == out;
    NoDelimiterUnchanged(out, "*", "<em>", "</em>");
  }

  /** No run of three stars in "****" is closed by another. */
  lemma FourStarsNoTriple()
    ensures Triple("****") == "****"
  {
    var s := "****";
    forall i | 0 <= i < |s|
      ensures MatchAt(s[i..], "***") == None
    {
      if i == 0 {
        FourStarsNoClose();
      } else if i == 1 {
        assert s[1..] == "***";
        assert FindClose("***", "***", 3) == None;
      } else {
        assert |s[i..]| < 3;
      }
    }
    NoMatchUnchanged(s, "***", "<strong><em>", "</em></strong>");
  }

  /** After the opening run of "****" only one star is left. */
  lemma FourStarsNoClose()
    ensures FindClose("****", "***", 3) == None
  {
    assert FindClose("****", "***", 4) == None;
  }

  /** The bold pass turns "****" into an empty strong element. */
  lemma FourStarsBold()
    ensures Double("****") == "<strong></strong>"
  {
    var s := "****";
    assert MatchAt(s, "**") == Some(0) by {
      assert s[0..2] == "**" && s[2..4] == "**";
    }
    ReplaceAtMatch(s, "**", "<strong>", "</strong>", 0);
    assert s[2..2] == [] && s[4..] == [];
  }

  /** "**" is too short for a bold run pair, so the italic pass matches it
      with an empty body. */
  lemma EmptyItalic()
    ensures FormatResponse("**") == "<em></em>"
  {
    var s := "**";
    assert ReplaceNewlines(s) == s by { NewlineFreeUnchanged(s); }
    assert Triple(s) == s by { NoDelimiterFits(s, "***", "<strong><em>", "</em></strong>"); }
    assert Double(s) == s by { TwoStarsNoDouble(); }
    assert Single(s) == "<em></em>" by { TwoStarsItalic(); }
    FormatPasses(s, s, s, s, "<em></em>");
  }

  /** "**" opens a bold run with nothing left to close it. */
  lemma TwoStarsNoDouble()
    ensures Double("**") == "**"
  {
    var s := "**";
    forall i | 0 <= i < |s|
      ensures MatchAt(s[i..], "**") == None
    {
      if i == 0 {
        assert FindClose(s, "**", 2) == None;
      } else {
        assert |s[i..]| < 2;
      }
    }
    NoMatchUnchanged(s, "**", "<strong>", "</strong>");
  }

  /** The italic pass turns "**" into an empty em element. */
  lemma TwoStarsItalic()
    ensures Single("**") == "<em></em>"
  {
    var s := "**";
    assert MatchAt(s, "*") == Some(0) by {
      assert s[0..1] == "*" && s[1..2] == "*";
    }
    ReplaceAtMatch(s, "*", "<em>", "</em>", 0);
    assert s[1..1] == [] && s[2..] == [];
  }

  /** A text shorter than two delimiters has no match. */
  lemma NoDelimiterFits(s: string, d: string, open: string, close: string)
    requires |d| > 0 && |s| < 2 * |d|
    ensures ReplaceLazy(s, d, open, close) == s
  {
    forall i | 0 <= i < |s|
      ensures MatchAt(s[i..], d) == None
    {
    }
    NoMatchUnchanged(s, d, open, close);
  }

  /** `**x**` with a non-empty star-free `x` holds no run of three stars. */
  lemma NoTripleInBold(x: string)
    requires |x| > 0 && '*' !in x
    ensures forall i :: !RunAt("**" + x + "**", "***", i)
  {
    var s := "**" + x + "**";
    forall i
      ensures !RunAt(s, "***", i)
    {
      if 0 <= i && i + 3 <= |s| {
        var r := s[i..i + 3];
        assert r[0] == s[i] && r[1] == s[i + 1] && r[2] == s[i + 2];
        if i == 0 {
          assert s[2] == x[0];
        } else if i <= |x| {
          assert s[i + 1] == x[i - 1];
        } else {
          assert s[i] == x[i - 2];
        }
      }
    }
  }

  /** `*x*` becomes italic. */
  lemma Italic(x: string)
    requires PlainText(x)
    ensures FormatResponse("*" + x + "*") == "<em>" + x + "</em>"
  {
    if |x| == 0 {
      assert "*" + x + "*" == "**" && "<em>" + x + "</em>" == "<em></em>";
      EmptyItalic();
      return;
    }
    var s := "*" + x + "*";
    var out := "<em>" + x + "</em>";
    PlainBody(x);
    assert ReplaceNewlines(s) == s by { WrappedNewlineFree(x, "*"); }
    NoDoubleStar(s);
    assert Triple(s) == s by { NoRunUnchanged(s, "***", "<strong><em>", "</em></strong>"); }
    assert Double(s) == s by { NoRunUnchanged(s, "**", "<strong>", "</strong>"); }
    assert Single(s) == out by { WrappedReplaced(x, "*", "<em>", "</em>"); }
    FormatPasses(s, s, s, s, out);
  }

  /** A string with no two adjacent stars has no run of two or three. */
  lemma NoDoubleStar(s: string)
    requires forall i :: 0 <= i < |s| - 1 ==> !(s[i] == '*' && s[i + 1] == '*')
    ensures forall i :: !RunAt(s, "**", i)
    ensures forall i :: !RunAt(s, "***", i)
  {
    forall i
      ensures !RunAt(s, "**", i) && !RunAt(s, "***", i)
    {
      if 0 <= i && i + 2 <= |s| {
        var r := s[i..i + 2];
        assert r[0] == s[i] && r[1] == s[i + 1];
      }
      if 0 <= i && i + 3 <= |s| {
        var r := s[i..i + 3];
        assert r[0] == s[i] && r[1] == s[i + 1];
      }
    }
  }

  /** The lazy body cannot cross a line terminator other than the newline
      (newlines are already `<br>` by then): `*a`, terminator, `b*` keeps
      its stars. */
  lemma NoMatchAcrossLines(a: char, t: char, b: char)
    requires a != '*' && b != '*' && a != '\n' && b != '\n'
    requires IsLineTerminator(t) && t != '\n'
    ensures FormatResponse(['*', a, t, b, '*']) == ['*', a, t, b, '*']
  {
    var s := ['*', a, t, b, '*'];
    assert ReplaceNewlines(s) == s by {
      assert '\n' !in s;
      NewlineFreeUnchanged(s);
    }
    NoDoubleStar(s);
    assert Triple(s) == s && Double(s) == s by {
      NoRunUnchanged(s, "***", "<strong><em>", "</em></strong>");
      NoRunUnchanged(s, "**", "<strong>", "</strong>");
    }
    TerminatorStopsItalic(a, t, b);
    FormatPasses(s, s, s, s, s);
  }

  /** The single-star pass over `*a`, terminator, `b*` finds no match. */
  lemma TerminatorStopsItalic(a: char, t: char, b: char)
    requires a != '*' && b != '*' && IsLineTerminator(t)
    ensures Single(['*', a, t, b, '*']) == ['*', a, t, b, '*']
  {
    var s := ['*', a, t, b, '*'];
    forall i | 0 <= i < |s|
      ensures MatchAt(s[i..], "*") == None
    {
      if i == 0 {
        assert s[1..2][0] == a && s[2..3][0] == t;
        assert FindClose(s, "*", 1) == None;
      } else if i < 4 {
        assert s[i..][0..1][0] == s[i];
      } else {
        assert s[i..] == "*";
      }
    }
    NoMatchUnchanged(s, "*", "<em>", "</em>");
  }
}
