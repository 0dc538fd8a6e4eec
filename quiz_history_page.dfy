/** The participant's quiz history: one row per saved attempt with a coloured
    percentage badge. */
module QuizHistoryPage {
  import opened Wrappers
  import opened Numbers
  import opened Records
  import PracticeQuizPage

  datatype BadgeVariant = Default | Secondary | Destructive

  /** getScoreBadgeVariant: inclusive lower bounds 80 and 50. */
  function BadgeFor(percentage: Ratio): (b: BadgeVariant)
    ensures b == Default <==> AtLeast(percentage, 80)
    ensures b == Secondary <==> AtLeast(percentage, 50) && !AtLeast(percentage, 80)
    ensures b == Destructive <==> !AtLeast(percentage, 50)
  {
    if AtLeast(percentage, 80) then Default
    else if AtLeast(percentage, 50) then Secondary
    else Destructive
  }

  function Rank(b: BadgeVariant): nat {
    match b
    case Destructive => 0
    case Secondary => 1
    case Default => 2
  }

  /** A higher percentage never gets a worse badge. */
  lemma BadgeMonotone(p: Ratio, q: Ratio)
    requires p.num * q.den <= q.num * p.den
    ensures Rank(BadgeFor(p)) <= Rank(BadgeFor(q))
  {
    if AtLeast(p, 80) {
      assert 80 * p.den * q.den <= p.num * q.den;
      LessOrEqualByPositiveFactor(p.den, 80 * q.den, q.num);
    }
    if AtLeast(p, 50) {
      assert 50 * p.den * q.den <= p.num * q.den;
      LessOrEqualByPositiveFactor(p.den, 50 * q.den, q.num);
    }
  }

  lemma LessOrEqualByPositiveFactor(d: int, x: int, y: int)
    requires d > 0 && d * x <= d * y
    ensures x <= y
  {
    if x > y {
      LessByPositiveFactor(d, y, x);
    }
  }

  /** `submission.percentage ?? 0` */
  function ShownPercentage(s: QuizSubmission): (p: Ratio)
    ensures s.percentage.Some? ==> p == s.percentage.value
    ensures s.percentage.None? ==> p.num == 0
  {
    s.percentage.GetOr(FromInt(0))
  }

  /** A submission without a percentage is badged as a failing one. */
  lemma MissingPercentageIsDestructive(s: QuizSubmission)
    requires s.percentage.None?
    ensures BadgeFor(ShownPercentage(s)) == Destructive
  {
  }

  /** `quiz_title || quiz_topic`: an absent or empty title falls back to the topic. */
  function ShownTitle(s: QuizSubmission): (t: Option<string>)
    ensures s.quizTitle.Some? && s.quizTitle.value != "" ==> t == s.quizTitle
    ensures s.quizTitle.None? || s.quizTitle.value == "" ==> t == s.quizTopic
  {
    if s.quizTitle.Some? && s.quizTitle.value != "" then s.quizTitle else s.quizTopic
  }

  /** fetchSubmissions: the rows replace the list; an error keeps the list shown. */
  function AfterFetch(shown: seq<QuizSubmission>, fetched: Result<seq<QuizSubmission>>): (r: seq<QuizSubmission>)
    ensures fetched.Err? ==> r == shown
    ensures fetched.Ok? ==> r == fetched.value
  {
    if fetched.Ok? then fetched.value else shown
  }

  /** A practice attempt answered correctly throughout shows the top badge in the history;
      one with no correct answer shows the failing badge. */
  lemma PracticeAttemptBadges(userId: string, topic: string, quiz: seq<Question>, answers: seq<Option<string>>)
    requires |quiz| > 0
    ensures var p := PracticeQuizPage.SubmissionFor(userId, topic, quiz, answers).percentage;
            ((forall i :: 0 <= i < |quiz| ==> PracticeQuizPage.IsCorrect(quiz, answers, i)) ==> BadgeFor(p) == Default)
            && (PracticeQuizPage.Score(quiz, answers) == 0 ==> BadgeFor(p) == Destructive)
  {
    PracticeQuizPage.PercentageFullIff(userId, topic, quiz, answers);
  }
}
