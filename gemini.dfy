/** The generative-AI helpers: JSON extraction from a model reply, the
    generators' configuration and fallback rules, the input limits, and the
    facts the resume prompt is built from. The model itself and JSON.parse are
    parameters: `reply` is the model's text or the call's error, and
    `parse(s)` is JSON.parse of s, None where it throws. */
module Gemini {
  import opened Wrappers
  import opened Text
  import opened Numbers
  import opened Records

  const NotConfigured: string := "Gemini API not configured"

  /** The client exists only for a key that is present, non-empty and not the placeholder. */
  predicate Configured(apiKey: Option<string>) {
    apiKey.Some? && apiKey.value != "" && apiKey.value != "YOUR_API_KEY"
  }

  const Open: string := "```json\n"
  const Close: string := "\n```"

  /** An opening fence at i, and none before it. */
  predicate FirstOpen(text: string, i: int) {
    OccursAt(text, Open, i) && forall k :: 0 <= k < i ==> !OccursAt(text, Open, k)
  }

  /** A closing fence at j, at or after the end of the opening fence at i, and none between. */
  predicate FirstCloseAfter(text: string, i: int, j: int) {
    i + |Open| <= j && OccursAt(text, Close, j) && forall k :: i + |Open| <= k < j ==> !OccursAt(text, Close, k)
  }

  lemma FirstOpenUnique(text: string, i: int, i': int)
    requires FirstOpen(text, i) && FirstOpen(text, i')
    ensures i == i'
  {
  }

  /** The capture of /```json\n([\s\S]*?)\n```/: the text between the first opening fence and
      the first closing fence after it; none when either fence is missing. */
  function FencedBlock(text: string): (r: Option<string>)
    ensures r.Some? ==>
              exists i, j :: FirstOpen(text, i) && FirstCloseAfter(text, i, j) && r.value == text[i + |Open|..j]
    ensures r.None? <==>
              (forall i :: 0 <= i ==> !OccursAt(text, Open, i))
              || (exists i :: FirstOpen(text, i) && forall k :: i + |Open| <= k ==> !OccursAt(text, Close, k))
  {
    match FindFrom(text, Open, 0)
    case None => None
    case Some(i) =>
      assert FirstOpen(text, i);
      match FindFrom(text, Close, i + |Open|)
      case None => None
      case Some(j) =>
        assert FirstCloseAfter(text, i, j);
        assert forall i' :: FirstOpen(text, i') ==> i' == i by {
          forall i' | FirstOpen(text, i') ensures i' == i {
            FirstOpenUnique(text, i, i');
          }
        }
        Some(text[i + |Open|..j])
  }

  /** parseJsonFromText: a non-empty fenced block that parses wins; otherwise the whole
      text is parsed; None (the null result) when both fail. */
  function ParseJsonFromText<J>(text: string, parse: string -> Option<J>): (r: Option<J>)
    ensures r.None? ==> parse(text).None?
    ensures r.Some? ==> r == parse(text) || (FencedBlock(text).Some? && r == parse(FencedBlock(text).value))
    ensures FencedBlock(text).Some? && FencedBlock(text).value != "" && parse(FencedBlock(text).value).Some? ==>
              r == parse(FencedBlock(text).value)
  {
    var block := FencedBlock(text);
    if block.Some? && block.value != "" && parse(block.value).Some? then parse(block.value)
    else parse(text)
  }

  /** Without a usable block the whole reply is what gets parsed. */
  lemma FallsBackToWholeText<J>(text: string, parse: string -> Option<J>)
    requires FencedBlock(text).None? || FencedBlock(text).value == "" || parse(FencedBlock(text).value).None?
    ensures ParseJsonFromText(text, parse) == parse(text)
  {
  }

  lemma CloseNotAcrossBoundary(c: string, rest: string, k: nat)
    requires |c| <= k + |Close| - 1 && k < |c|
    ensures !OccursAt(c + Close + rest, Close, k)
  {
    var t := c + Close + rest;
    var d := |c| - k;
    assert t[k + d] == '\n' && Close[d] == '`';
    assert k + |Close| <= |t| ==> t[k..k + |Close|][d] != Close[d];
  }

  /** Text without a backtick holds no opening fence, whatever follows it. */
  lemma NoOpenInPreamble(pre: string, rest: string)
    requires '`' !in pre
    ensures forall k :: 0 <= k < |pre| ==> !OccursAt(pre + rest, Open, k)
  {
    var t := pre + rest;
    forall k | 0 <= k < |pre|
      ensures !OccursAt(t, Open, k)
    {
      assert t[k] == pre[k];
      assert k + |Open| <= |t| ==> t[k..k + |Open|][0] != Open[0];
    }
  }

  /** After the text p, the first closing fence is the one that ends the block c. */
  lemma CloseEndsBlock(p: string, c: string, rest: string)
    requires !Contains(c, Close)
    ensures OccursAt(p + c + Close + rest, Close, |p| + |c|)
    ensures forall k :: |p| <= k < |p| + |c| ==> !OccursAt(p + c + Close + rest, Close, k)
  {
    var t := p + c + Close + rest;
    var body := c + Close + rest;
    var start := |p|;
    assert t == p + body;
    forall k | start <= k < start + |c|
      ensures !OccursAt(t, Close, k)
    {
      if k + |Close| <= start + |c| {
        assert t[k..k + |Close|] == c[k - start..k - start + |Close|];
        assert !OccursAt(c, Close, k - start);
      } else {
        assert t[k..k + |Close|] == body[k - start..k - start + |Close|];
        CloseNotAcrossBoundary(c, rest, k - start);
      }
    }
    assert t[start + |c|..start + |c| + |Close|] == Close;
  }

  lemma MiddleSlice(a: string, b: string, c: string)
    ensures (a + b + c)[|a|..|a| + |b|] == b
  {
  }

  /** The capture is fixed by the first opening fence and the first closing fence after it. */
  lemma BlockBetweenFirstFences(text: string, i: int, j: int)
    requires FirstOpen(text, i) && FirstCloseAfter(text, i, j)
    ensures FencedBlock(text) == Some(text[i + |Open|..j])
  {
    assert FindFrom(text, Open, 0) == Some(i);
    assert FindFrom(text, Close, i + |Open|) == Some(j);
  }

  /** A reply holding one fenced block yields the parse of the block, whenever the block is
      non-empty, holds no closing fence and parses, and the text before the fence (the
      model's preamble) has no backtick. */
  lemma PreambleRoundTrip<J>(pre: string, c: string, rest: string, parse: string -> Option<J>)
    requires '`' !in pre && c != "" && !Contains(c, Close) && parse(c).Some?
    ensures ParseJsonFromText(pre + Open + c + Close + rest, parse) == parse(c)
  {
    var t := pre + Open + c + Close + rest;
    var start := |pre| + |Open|;
    assert t == pre + (Open + c + Close + rest);
    NoOpenInPreamble(pre, Open + c + Close + rest);
    assert t[|pre|..start] == Open;
    assert FirstOpen(t, |pre|);
    CloseEndsBlock(pre + Open, c, rest);
    assert FirstCloseAfter(t, |pre|, start + |c|);
    BlockBetweenFirstFences(t, |pre|, start + |c|);
    MiddleSlice(pre + Open, c, Close + rest);
    assert t == pre + Open + c + (Close + rest);
  }

  /** A reply that begins with its fenced block is the case without a preamble. */
  lemma FencedRoundTrip<J>(c: string, rest: string, parse: string -> Option<J>)
    requires c != "" && !Contains(c, Close) && parse(c).Some?
    ensures ParseJsonFromText(Open + c + Close + rest, parse) == parse(c)
  {
    PreambleRoundTrip("", c, rest, parse);
    assert "" + Open + c + Close + rest == Open + c + Close + rest;
  }

  /** generateQuiz and generateEventIdeas: an error when unconfigured or when the call fails,
      otherwise the parsed list, or [] when the reply does not parse. */
  function GenerateList<J>(configured: bool, reply: Result<string>, parse: string -> Option<seq<J>>): (r: Result<seq<J>>)
    ensures !configured ==> r == Err(NotConfigured)
    ensures configured && reply.Err? ==> r == Err(reply.message)
    ensures configured && reply.Ok? && ParseJsonFromText(reply.value, parse).None? ==> r == Ok([])
    ensures configured && reply.Ok? && ParseJsonFromText(reply.value, parse).Some? ==>
              r == Ok(ParseJsonFromText(reply.value, parse).value)
  {
    if !configured then Err(NotConfigured)
    else if reply.Err? then Err(reply.message)
    else Ok(ParseJsonFromText(reply.value, parse).GetOr([]))
  }

  /** generateLearningPath and analyzePlagiarism: as above, but an unparsable reply is passed
      on as null (None). */
  function GenerateObject<J>(configured: bool, reply: Result<string>, parse: string -> Option<J>): (r: Result<Option<J>>)
    ensures !configured ==> r == Err(NotConfigured)
    ensures configured && reply.Err? ==> r == Err(reply.message)
    ensures configured && reply.Ok? ==> r == Ok(ParseJsonFromText(reply.value, parse))
  {
    if !configured then Err(NotConfigured)
    else if reply.Err? then Err(reply.message)
    else Ok(ParseJsonFromText(reply.value, parse))
  }

  const TutorContextLimit: nat := 30000
  const PlagiarismContentLimit: nat := 20000

  /** The context part of the tutor prompt: present only for a non-empty document, whose
      first 30,000 characters it carries between the markers. */
  function ContextSection(context: Option<string>): (s: string)
    ensures context.None? || context.value == "" ==> s == ""
    ensures context.Some? && context.value != "" ==>
              s == "\n\nHere is some context from a document they uploaded. Use this to inform your answer:\n---CONTEXT---\n"
                   + Truncate(context.value, TutorContextLimit) + "\n---END CONTEXT---"
  {
    if context.Some? && context.value != "" then
      "\n\nHere is some context from a document they uploaded. Use this to inform your answer:\n---CONTEXT---\n"
      + Truncate(context.value, TutorContextLimit) + "\n---END CONTEXT---"
    else ""
  }

  /** What generateTutorResponse asks the model: the student's question and the context part. */
  datatype TutorPrompt = TutorPrompt(question: string, contextSection: string)

  /** generateTutorResponse: the model's text, the call's error, or the configuration error. */
  function GenerateTutorResponse(configured: bool, question: string, context: Option<string>, reply: Result<string>): (r: Result<string>)
    ensures !configured ==> r == Err(NotConfigured)
    ensures configured ==> r == reply
  {
    if !configured then Err(NotConfigured) else reply
  }

  function TutorPromptFor(question: string, context: Option<string>): TutorPrompt {
    TutorPrompt(question, ContextSection(context))
  }

  /** However long the document, the prompt carries at most 30,000 of its characters, and
      those are the document's first ones. */
  lemma TutorContextBounded(question: string, context: Option<string>)
    requires context.Some? && context.value != ""
    ensures var s := TutorPromptFor(question, context).contextSection;
            var doc := Truncate(context.value, TutorContextLimit);
            |doc| <= TutorContextLimit && doc <= context.value && Contains(s, doc)
  {
    var pre := "\n\nHere is some context from a document they uploaded. Use this to inform your answer:\n---CONTEXT---\n";
    var doc := Truncate(context.value, TutorContextLimit);
    var s := ContextSection(context);
    assert s == pre + doc + "\n---END CONTEXT---";
    assert s[|pre|..|pre| + |doc|] == doc;
    assert OccursAt(s, doc, |pre|);
  }

  /** The content analyzePlagiarism puts into its prompt. */
  function PlagiarismContent(content: string): (c: string)
    ensures |c| <= PlagiarismContentLimit && c <= content
    ensures |content| <= PlagiarismContentLimit ==> c == content
  {
    Truncate(content, PlagiarismContentLimit)
  }

  /** The plagiarism page's own cut to 50,000 characters never changes what reaches the model,
      since the helper keeps only the first 20,000. */
  lemma PageLimitIsInert(content: string)
    ensures PlagiarismContent(Truncate(content, 50000)) == PlagiarismContent(content)
  {
    TruncateTwice(content, 50000, PlagiarismContentLimit);
  }

  /** What the resume helper reads of a learning path; every field may be missing. */
  datatype PathSummary = PathSummary(title: Option<string>, topics: Option<seq<string>>, progress: Option<int>)

  /** `paths.flatMap(p => p.topics || [])` */
  function AllTopics(paths: seq<PathSummary>): (r: seq<string>)
    ensures forall s :: s in r <==> exists k :: 0 <= k < |paths| && paths[k].topics.Some? && s in paths[k].topics.value
  {
    if paths == [] then []
    else
      var rest := AllTopics(paths[..|paths| - 1]);
      var last := paths[|paths| - 1];
      assert forall k :: 0 <= k < |paths| - 1 ==> paths[..|paths| - 1][k] == paths[k];
      rest + last.topics.GetOr([])
  }

  /** The topics keep the order of the paths: the flattening distributes over concatenation,
      and one path contributes its own topics, or none when they are missing. */
  lemma {:induction false} AllTopicsAppend(xs: seq<PathSummary>, ys: seq<PathSummary>)
    ensures AllTopics(xs + ys) == AllTopics(xs) + AllTopics(ys)
    ensures forall p :: AllTopics([p]) == p.topics.GetOr([])
  {
    if ys != [] {
      var n := |ys| - 1;
      assert (xs + ys)[..|xs + ys| - 1] == xs + ys[..n];
      AllTopicsAppend(xs, ys[..n]);
    } else {
      assert xs + ys == xs;
    }
    forall p ensures AllTopics([p]) == p.topics.GetOr([]) {
      assert [p][..0] == [];
    }
  }

  /** The first index of x in xs. */
  function IndexOf(xs: seq<string>, x: string): (i: nat)
    requires x in xs
    ensures i < |xs| && xs[i] == x && x !in xs[..i]
  {
    if xs[0] == x then 0 else 1 + IndexOf(xs[1..], x)
  }

  lemma {:induction false} IndexOfInPrefix(xs: seq<string>, n: nat, x: string)
    requires n <= |xs| && x in xs[..n]
    ensures IndexOf(xs, x) == IndexOf(xs[..n], x)
  {
    if xs[0] != x {
      assert xs[1..][..n - 1] == xs[..n][1..];
      IndexOfInPrefix(xs[1..], n - 1, x);
    }
  }

  /** `[...new Set(xs)]`: each element once, in the order of first occurrence. */
  function Dedup(xs: seq<string>): (r: seq<string>)
    ensures forall x :: x in r <==> x in xs
    ensures forall i, j :: 0 <= i < j < |r| ==> r[i] != r[j]
    ensures forall i, j :: 0 <= i < j < |r| ==> IndexOf(xs, r[i]) < IndexOf(xs, r[j])
  {
    if xs == [] then []
    else
      var n := |xs| - 1;
      var d := Dedup(xs[..n]);
      var x := xs[n];
      assert forall y :: y in d ==> y in xs[..n] && IndexOf(xs, y) == IndexOf(xs[..n], y) by {
        forall y | y in d ensures y in xs[..n] && IndexOf(xs, y) == IndexOf(xs[..n], y) {
          IndexOfInPrefix(xs, n, y);
        }
      }
      if x in d then d
      else
        assert IndexOf(xs, x) == n;
        d + [x]
  }

  /** The resume's skills: the distinct topics of all paths in first-occurrence order. */
  function Skills(paths: seq<PathSummary>): (r: seq<string>)
    ensures forall s :: s in r <==> exists k :: 0 <= k < |paths| && paths[k].topics.Some? && s in paths[k].topics.value
    ensures forall i, j :: 0 <= i < j < |r| ==> r[i] != r[j]
    ensures forall s :: s in r ==> s in AllTopics(paths)
    ensures forall i, j :: 0 <= i < j < |r| ==> IndexOf(AllTopics(paths), r[i]) < IndexOf(AllTopics(paths), r[j])
  {
    Dedup(AllTopics(paths))
  }

  /** Titles of the paths whose progress is exactly 100, in input order. */
  function CompletedTitles(paths: seq<PathSummary>): (r: seq<Option<string>>)
    ensures |r| <= |paths|
    ensures forall t :: t in r ==> exists k :: 0 <= k < |paths| && paths[k].progress == Some(100) && paths[k].title == t
  {
    if paths == [] then []
    else
      var n := |paths| - 1;
      var rest := CompletedTitles(paths[..n]);
      assert forall k :: 0 <= k < n ==> paths[..n][k] == paths[k];
      rest + (if paths[n].progress == Some(100) then [paths[n].title] else [])
  }

  /** Every completed path contributes its title. */
  lemma {:induction false} CompletedPathListed(paths: seq<PathSummary>, k: nat)
    requires k < |paths| && paths[k].progress == Some(100)
    ensures paths[k].title in CompletedTitles(paths)
  {
    var n := |paths| - 1;
    if k < n {
      assert paths[..n][k] == paths[k];
      CompletedPathListed(paths[..n], k);
    }
  }

  /** The selection keeps input order: it distributes over concatenation. */
  lemma {:induction false} CompletedTitlesAppend(xs: seq<PathSummary>, ys: seq<PathSummary>)
    ensures CompletedTitles(xs + ys) == CompletedTitles(xs) + CompletedTitles(ys)
  {
    if ys != [] {
      var n := |ys| - 1;
      assert (xs + ys)[..|xs + ys| - 1] == xs + ys[..n];
      CompletedTitlesAppend(xs, ys[..n]);
    } else {
      assert xs + ys == xs;
    }
  }

  /** `q.percentage && q.percentage >= 80` */
  predicate IsTopQuiz(q: QuizSubmission) {
    q.percentage.Some? && AtLeast(q.percentage.value, 80)
  }

  /** `${q.quiz_topic} (${q.percentage.toFixed(0)}%)`; a missing topic prints as "undefined".
      For the positive percentages listed, toFixed(0) rounds like Math.round. */
  function TopQuizLine(q: QuizSubmission): string
    requires IsTopQuiz(q)
  {
    q.quizTopic.GetOr("undefined") + " (" + IntToString(Round(q.percentage.value)) + "%)"
  }

  function TopQuizzes(subs: seq<QuizSubmission>): (r: seq<string>)
    ensures |r| <= |subs|
    ensures forall t :: t in r ==> exists k :: 0 <= k < |subs| && IsTopQuiz(subs[k]) && t == TopQuizLine(subs[k])
  {
    if subs == [] then []
    else
      var n := |subs| - 1;
      var rest := TopQuizzes(subs[..n]);
      assert forall k :: 0 <= k < n ==> subs[..n][k] == subs[k];
      rest + (if IsTopQuiz(subs[n]) then [TopQuizLine(subs[n])] else [])
  }

  /** Every submission at 80% or more is listed. */
  lemma {:induction false} TopQuizListed(subs: seq<QuizSubmission>, k: nat)
    requires k < |subs| && IsTopQuiz(subs[k])
    ensures TopQuizLine(subs[k]) in TopQuizzes(subs)
  {
    var n := |subs| - 1;
    if k < n {
      assert subs[..n][k] == subs[k];
      TopQuizListed(subs[..n], k);
    }
  }

  /** A listed quiz's rounded percentage is at least 80. */
  lemma TopQuizRoundsHigh(q: QuizSubmission)
    requires IsTopQuiz(q)
    ensures Round(q.percentage.value) >= 80
  {
    var p := q.percentage.value;
    var r := Round(p);
    if r < 80 {
      assert 2 * p.num < p.den * (2 * r + 1);
      assert p.den * 160 <= 2 * p.num;
      LessByPositiveFactor(p.den, 160, 2 * r + 1);
    }
  }

  lemma {:induction false} TopQuizzesAppend(xs: seq<QuizSubmission>, ys: seq<QuizSubmission>)
    ensures TopQuizzes(xs + ys) == TopQuizzes(xs) + TopQuizzes(ys)
  {
    if ys != [] {
      var n := |ys| - 1;
      assert (xs + ys)[..|xs + ys| - 1] == xs + ys[..n];
      TopQuizzesAppend(xs, ys[..n]);
    } else {
      assert xs + ys == xs;
    }
  }

  /** Array.prototype.join prints a missing element as the empty string. */
  function OrEmpty(xs: seq<Option<string>>): (r: seq<string>)
    ensures |r| == |xs|
    ensures forall i :: 0 <= i < |xs| ==> r[i] == xs[i].GetOr("")
  {
    seq(|xs|, i requires 0 <= i < |xs| => xs[i].GetOr(""))
  }

  /** The facts the resume prompt states, as printed. */
  datatype ResumeFacts = ResumeFacts(skills: string, completedPaths: string, topQuizzes: string, additionalInfo: string)

  function ResumeFactsFor(paths: seq<PathSummary>, subs: seq<QuizSubmission>, additionalInfo: string): (f: ResumeFacts)
    ensures Skills(paths) == [] ==> f.skills == "No specific skills tracked yet."
    ensures Skills(paths) != [] ==> f.skills == Join(Skills(paths), ", ")
    ensures CompletedTitles(paths) == [] ==> f.completedPaths == "None"
    ensures CompletedTitles(paths) != [] ==> f.completedPaths == Join(OrEmpty(CompletedTitles(paths)), "; ")
    ensures TopQuizzes(subs) == [] ==> f.topQuizzes == "None"
    ensures TopQuizzes(subs) != [] ==> f.topQuizzes == Join(TopQuizzes(subs), "; ")
    ensures f.additionalInfo == if additionalInfo == "" then "None" else additionalInfo
  {
    var skills := Skills(paths);
    var done := CompletedTitles(paths);
    var top := TopQuizzes(subs);
    ResumeFacts(
      if |skills| > 0 then Join(skills, ", ") else "No specific skills tracked yet.",
      if |done| > 0 then Join(OrEmpty(done), "; ") else "None",
      if |top| > 0 then Join(top, "; ") else "None",
      if additionalInfo == "" then "None" else additionalInfo)
  }

  /** Every skill appears in the printed skills line. */
  lemma SkillsPrinted(paths: seq<PathSummary>, subs: seq<QuizSubmission>, info: string, k: nat)
    requires k < |Skills(paths)|
    ensures Contains(ResumeFactsFor(paths, subs, info).skills, Skills(paths)[k])
  {
    JoinContainsEach(Skills(paths), ", ", k);
  }

  /** generateResume: the configuration error, the call's error, or the model's text. */
  function GenerateResume(configured: bool, reply: Result<string>): (r: Result<string>)
    ensures !configured ==> r == Err(NotConfigured)
    ensures configured ==> r == reply
  {
    if !configured then Err(NotConfigured) else reply
  }
}
