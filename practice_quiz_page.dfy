/** The practice quiz: generate questions for a topic, answer them one at a
    time, score and save the attempt, show the results. */
module PracticeQuizPage {
  import opened Wrappers
  import opened Numbers
  import opened Records

  /** The answer array with `answer` written at index i. JavaScript pads a write past
      the end with holes, which read as undefined (None here). */
  function WriteAt(answers: seq<Option<string>>, i: nat, answer: string): (r: seq<Option<string>>)
    ensures |r| == if i < |answers| then |answers| else i + 1
    ensures r[i] == Some(answer)
    ensures forall j :: 0 <= j < |r| && j != i ==> r[j] == if j < |answers| then answers[j] else None
  {
    if i < |answers| then answers[i := Some(answer)]
    else answers + seq(i - |answers|, _ => None) + [Some(answer)]
  }

  /** `userAnswers[i] === quiz[i].correct_answer`; an unanswered slot never matches. */
  predicate IsCorrect(quiz: seq<Question>, answers: seq<Option<string>>, i: nat)
    requires i < |quiz|
  {
    i < |answers| && answers[i] == Some(quiz[i].correctAnswer)
  }

  /** The number of correctly answered questions among the first n. */
  function CountCorrect(quiz: seq<Question>, answers: seq<Option<string>>, n: nat): (c: nat)
    requires n <= |quiz|
    ensures c <= n
  {
    if n == 0 then 0
    else CountCorrect(quiz, answers, n - 1) + (if IsCorrect(quiz, answers, n - 1) then 1 else 0)
  }

  /** The score of an attempt. */
  function Score(quiz: seq<Question>, answers: seq<Option<string>>): nat {
    CountCorrect(quiz, answers, |quiz|)
  }

  function CorrectBelow(quiz: seq<Question>, answers: seq<Option<string>>, n: nat): set<nat>
    requires n <= |quiz|
  {
    set i: nat | i < n && IsCorrect(quiz, answers, i)
  }

  lemma {:induction false} CountIsCardinality(quiz: seq<Question>, answers: seq<Option<string>>, n: nat)
    requires n <= |quiz|
    ensures CountCorrect(quiz, answers, n) == |CorrectBelow(quiz, answers, n)|
  {
    if n > 0 {
      CountIsCardinality(quiz, answers, n - 1);
      var below := CorrectBelow(quiz, answers, n - 1);
      if IsCorrect(quiz, answers, n - 1) {
        assert CorrectBelow(quiz, answers, n) == below + {n - 1};
      } else {
        assert CorrectBelow(quiz, answers, n) == below;
      }
    }
  }

  /** The score is the number of questions whose answer equals the correct answer. */
  lemma ScoreCountsCorrectAnswers(quiz: seq<Question>, answers: seq<Option<string>>)
    ensures Score(quiz, answers) == |set i: nat | i < |quiz| && IsCorrect(quiz, answers, i)|
    ensures Score(quiz, answers) <= |quiz|
  {
    CountIsCardinality(quiz, answers, |quiz|);
  }

  lemma {:induction false} CountFullIff(quiz: seq<Question>, answers: seq<Option<string>>, n: nat)
    requires n <= |quiz|
    ensures CountCorrect(quiz, answers, n) == n <==> forall i :: 0 <= i < n ==> IsCorrect(quiz, answers, i)
  {
    if n > 0 {
      CountFullIff(quiz, answers, n - 1);
    }
  }

  /** A full score means every question was answered correctly, and conversely. */
  lemma ScoreFullIff(quiz: seq<Question>, answers: seq<Option<string>>)
    ensures Score(quiz, answers) == |quiz| <==> forall i :: 0 <= i < |quiz| ==> IsCorrect(quiz, answers, i)
  {
    CountFullIff(quiz, answers, |quiz|);
  }

  /** Earlier answers decide the count of the earlier questions alone. */
  lemma {:induction false} CountIgnoresLaterAnswers(quiz: seq<Question>, a: seq<Option<string>>, b: seq<Option<string>>, n: nat)
    requires n <= |quiz|
    requires forall i :: 0 <= i < n ==> (IsCorrect(quiz, a, i) <==> IsCorrect(quiz, b, i))
    ensures CountCorrect(quiz, a, n) == CountCorrect(quiz, b, n)
  {
    if n > 0 {
      CountIgnoresLaterAnswers(quiz, a, b, n - 1);
    }
  }

  /** The quiz_submissions row a finished attempt inserts. */
  datatype NewSubmission = NewSubmission(
    userId: string,
    answers: seq<Option<string>>,
    score: nat,
    totalPossible: nat,
    percentage: Ratio,
    quizTitle: string,
    quizTopic: string)

  /** The row for an attempt: its answers and score, the question count as the total, the
      percentage (score / count) * 100, and a title naming the topic. */
  function SubmissionFor(userId: string, topic: string, quiz: seq<Question>, answers: seq<Option<string>>): (s: NewSubmission)
    requires |quiz| > 0
    ensures s.totalPossible == |quiz| && s.score <= s.totalPossible && s.answers == answers
    ensures s.percentage.num * |quiz| == 100 * s.score * s.percentage.den
    ensures s.quizTitle == "Practice Quiz: " + topic && s.quizTopic == topic && s.userId == userId
  {
    NewSubmission(userId, answers, Score(quiz, answers), |quiz|,
      Fraction(100 * Score(quiz, answers), |quiz|), "Practice Quiz: " + topic, topic)
  }

  /** The saved percentage is 100 exactly when every question was answered correctly,
      and it never exceeds 100. */
  lemma PercentageFullIff(userId: string, topic: string, quiz: seq<Question>, answers: seq<Option<string>>)
    requires |quiz| > 0
    ensures var p := SubmissionFor(userId, topic, quiz, answers).percentage;
            (p.num == 100 * p.den <==> forall i :: 0 <= i < |quiz| ==> IsCorrect(quiz, answers, i))
            && p.num <= 100 * p.den
  {
    ScoreFullIff(quiz, answers);
    ScoreCountsCorrectAnswers(quiz, answers);
  }

  /** The quiz session state. */
  class QuizSession {
    var topic: string
    var generating: bool
    var quiz: Option<seq<Question>>
    var index: nat
    var answers: seq<Option<string>>
    var showResults: bool

    /** A held quiz is never empty and the index stays on one of its questions. */
    predicate Valid()
      reads this
    {
      (quiz.Some? ==> |quiz.value| > 0 && index < |quiz.value|) && (quiz.None? ==> index == 0)
    }

    constructor ()
      ensures Valid()
      ensures topic == "" && !generating && quiz.None? && index == 0 && answers == [] && !showResults
    {
      topic, generating, quiz, index, answers, showResults := "", false, None, 0, [], false;
    }

    /** handleGenerateQuiz. `ai` is the generator's list (already `[]` when its text
        did not parse) or its error. */
    method GenerateQuiz(ai: Result<seq<Question>>)
      requires Valid()
      modifies this
      ensures Valid()
      ensures topic == old(topic)
      ensures old(topic) == "" ==>
                generating == old(generating) && quiz == old(quiz) && index == old(index)
                && answers == old(answers) && showResults == old(showResults)
      ensures old(topic) != "" ==>
                !generating && !showResults && answers == [] && index == 0
                && quiz == if ai.Ok? && ai.value != [] then Some(ai.value) else None
    {
      if topic == "" {
        return;
      }
      generating := true;
      quiz := None;
      showResults := false;
      answers := [];
      index := 0;
      if ai.Ok? && ai.value != [] {
        quiz := Some(ai.value);
      }
      generating := false;
    }

    /** calculateScore: the forEach loop over the questions. */
    method CalculateScore(seen: seq<Option<string>>) returns (score: nat)
      ensures quiz.None? ==> score == 0
      ensures quiz.Some? ==> score == Score(quiz.value, seen)
    {
      if quiz.None? {
        return 0;
      }
      var q := quiz.value;
      score := 0;
      var i := 0;
      while i < |q|
        invariant 0 <= i <= |q|
        invariant score == CountCorrect(q, seen, i)
      {
        if i < |seen| && seen[i] == Some(q[i].correctAnswer) {
          score := score + 1;
        }
        i := i + 1;
      }
    }

    /** handleQuizSubmission, as seen by a render whose answer array was `seen`. `save` is the
        store's answer to the insert; the results are shown whatever it says. */
    method SubmitWith(seen: seq<Option<string>>, user: Option<string>, save: Status)
      returns (sent: Option<NewSubmission>)
      requires Valid()
      modifies this
      ensures Valid()
      ensures topic == old(topic) && generating == old(generating) && quiz == old(quiz)
      ensures index == old(index) && answers == old(answers)
      ensures sent == if quiz.None? || user.None? then None else Some(SubmissionFor(user.value, topic, quiz.value, seen))
      ensures showResults == (old(showResults) || sent.Some?)
    {
      if quiz.None? || user.None? {
        return None;
      }
      var score := CalculateScore(seen);
      var q := quiz.value;
      sent := Some(NewSubmission(user.value, seen, score, |q|, Fraction(100 * score, |q|), "Practice Quiz: " + topic, topic));
      showResults := true;
    }

    /** handleAnswer with the delayed step taken at once and on the updated answers: record
        the answer at the current index, then move to the next question, or, on the last one,
        submit. */
    method Answer(answer: string, user: Option<string>, save: Status) returns (sent: Option<NewSubmission>)
      requires Valid()
      modifies this
      ensures Valid()
      ensures answers == WriteAt(old(answers), old(index), answer)
      ensures topic == old(topic) && generating == old(generating) && quiz == old(quiz)
      ensures quiz.Some? && old(index) < |quiz.value| - 1 ==>
                index == old(index) + 1 && sent.None? && showResults == old(showResults)
      ensures !(quiz.Some? && old(index) < |quiz.value| - 1) ==>
                index == old(index)
                && sent == (if quiz.None? || user.None? then None else Some(SubmissionFor(user.value, topic, quiz.value, answers)))
                && showResults == (old(showResults) || sent.Some?)
    {
      answers := WriteAt(answers, index, answer);
      if quiz.Some? && index < |quiz.value| - 1 {
        index := index + 1;
        sent := None;
      } else {
        sent := SubmitWith(answers, user, save);
      }
    }

    /** handleAnswer as written: the delayed callback calls the handleQuizSubmission of the
        render that created it, whose answer array does not yet hold the answer just given. */
    method AnswerAsWritten(answer: string, user: Option<string>, save: Status) returns (sent: Option<NewSubmission>)
      requires Valid()
      modifies this
      ensures Valid()
      ensures answers == WriteAt(old(answers), old(index), answer)
      ensures topic == old(topic) && generating == old(generating) && quiz == old(quiz)
      ensures quiz.Some? && old(index) < |quiz.value| - 1 ==>
                index == old(index) + 1 && sent.None? && showResults == old(showResults)
      ensures !(quiz.Some? && old(index) < |quiz.value| - 1) ==>
                index == old(index)
                && sent == (if quiz.None? || user.None? then None else Some(SubmissionFor(user.value, topic, quiz.value, old(answers))))
                && showResults == (old(showResults) || sent.Some?)
    {
      var captured := answers;
      answers := WriteAt(answers, index, answer);
      if quiz.Some? && index < |quiz.value| - 1 {
        index := index + 1;
        sent := None;
      } else {
        sent := SubmitWith(captured, user, save);
      }
    }

    /** resetQuiz */
    method ResetQuiz()
      modifies this
      ensures Valid()
      ensures quiz.None? && !showResults && answers == [] && index == 0 && topic == ""
      ensures generating == old(generating)
    {
      quiz, showResults, answers, index, topic := None, false, [], 0, "";
    }
  }

  /** With the answers given in order, the last answer sits past the end of the array the
      stale submission sees. When it is correct, the saved score is one short of the score
      the results screen computes from the updated answers. */
  lemma StaleSubmissionLosesLastPoint(quiz: seq<Question>, answers: seq<Option<string>>)
    requires |quiz| > 0 && |answers| == |quiz| - 1
    ensures var last := |quiz| - 1;
            Score(quiz, WriteAt(answers, last, quiz[last].correctAnswer)) == Score(quiz, answers) + 1
  {
    var last := |quiz| - 1;
    var updated := WriteAt(answers, last, quiz[last].correctAnswer);
    forall i | 0 <= i < last
      ensures IsCorrect(quiz, answers, i) <==> IsCorrect(quiz, updated, i)
    {
      assert updated[i] == answers[i];
    }
    CountIgnoresLaterAnswers(quiz, answers, updated, last);
    assert !IsCorrect(quiz, answers, last);
    assert IsCorrect(quiz, updated, last);
  }

  /** The corrected answer step saves the full score for a quiz answered correctly throughout. */
  lemma AllCorrectScoresFull(quiz: seq<Question>, answers: seq<Option<string>>)
    requires |answers| == |quiz|
    requires forall i :: 0 <= i < |quiz| ==> answers[i] == Some(quiz[i].correctAnswer)
    ensures Score(quiz, answers) == |quiz|
  {
    ScoreFullIff(quiz, answers);
  }
}
