/** The organiser's test generator: have the AI write questions for a titled
    topic, then save them as a draft quiz. */
module TestGeneratorPage {
  import opened Wrappers
  import opened Records

  /** The quizzes row a save inserts. */
  datatype NewQuiz = NewQuiz(
    title: string,
    topic: string,
    difficulty: string,
    questions: seq<Question>,
    createdBy: string,
    aiGenerated: bool,
    totalMarks: nat,
    isPublished: bool)

  /** The saved quiz: one mark per question, AI-generated, saved as an unpublished draft. */
  function QuizRecord(title: string, topic: string, difficulty: string, questions: seq<Question>, userId: string): (q: NewQuiz)
    ensures q.totalMarks == |q.questions| && q.questions == questions
    ensures q.aiGenerated && !q.isPublished
    ensures q.title == title && q.topic == topic && q.difficulty == difficulty && q.createdBy == userId
  {
    NewQuiz(title, topic, difficulty, questions, userId, true, |questions|, false)
  }

  class TestGenerator {
    var title: string
    var topic: string
    var difficulty: string
    var generating: bool
    var saving: bool
    var preview: Option<seq<Question>>

    /** A previewed quiz is never empty. */
    predicate Valid()
      reads this
    {
      preview.Some? ==> preview.value != []
    }

    constructor ()
      ensures Valid()
      ensures title == "" && topic == "" && difficulty == "medium" && !generating && !saving && preview.None?
    {
      title, topic, difficulty := "", "", "medium";
      generating, saving, preview := false, false, None;
    }

    /** handleGenerate: needs both a topic and a title; an empty or failed answer leaves no preview. */
    method Generate(ai: Result<seq<Question>>)
      requires Valid()
      modifies this
      ensures Valid()
      ensures title == old(title) && topic == old(topic) && difficulty == old(difficulty) && saving == old(saving)
      ensures old(topic) == "" || old(title) == "" ==> preview == old(preview) && generating == old(generating)
      ensures old(topic) != "" && old(title) != "" ==>
                !generating && preview == if ai.Ok? && ai.value != [] then Some(ai.value) else None
    {
      if topic == "" || title == "" {
        return;
      }
      generating := true;
      preview := None;
      if ai.Ok? && ai.value != [] {
        preview := Some(ai.value);
      }
      generating := false;
    }

    /** handleSaveQuiz: nothing without a preview or a user. A confirmed save clears the
        preview, title and topic; a failed one keeps them. `saving` ends false either way. */
    method SaveQuiz(user: Option<string>, outcome: Status) returns (sent: Option<NewQuiz>)
      requires Valid()
      modifies this
      ensures Valid()
      ensures difficulty == old(difficulty) && generating == old(generating)
      ensures old(preview).None? || user.None? ==>
                sent.None? && preview == old(preview) && title == old(title) && topic == old(topic) && saving == old(saving)
      ensures old(preview).Some? && user.Some? ==>
                !saving && sent == Some(QuizRecord(old(title), old(topic), difficulty, old(preview).value, user.value))
      ensures old(preview).Some? && user.Some? && outcome.Success? ==> preview.None? && title == "" && topic == ""
      ensures old(preview).Some? && user.Some? && outcome.Failure? ==>
                preview == old(preview) && title == old(title) && topic == old(topic)
    {
      if preview.None? || user.None? {
        return None;
      }
      saving := true;
      sent := Some(QuizRecord(title, topic, difficulty, preview.value, user.value));
      if outcome.Success? {
        preview, title, topic := None, "", "";
      }
      saving := false;
    }
  }

  /** Generating and then saving sends exactly the generated questions, with as many marks,
      under the title and topic the organiser typed. */
  method GenerateThenSave(page: TestGenerator, ai: Result<seq<Question>>, user: string, outcome: Status)
    returns (sent: Option<NewQuiz>)
    requires page.Valid() && page.title != "" && page.topic != "" && ai.Ok? && ai.value != []
    modifies page
    ensures sent.Some? && sent.value.questions == ai.value && sent.value.totalMarks == |ai.value|
    ensures sent.value.title == old(page.title) && sent.value.topic == old(page.topic)
  {
    page.Generate(ai);
    sent := page.SaveQuiz(Some(user), outcome);
  }
}
