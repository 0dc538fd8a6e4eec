/** The rows of the hosted store, as the type declarations of the client
    library describe them. Timestamps are kept as the strings the store sends. */
module Records {
  import opened Wrappers
  import opened Numbers

  datatype Role = Admin | Moderator | Member

  datatype Profile = Profile(
    id: string,
    email: string,
    firstName: string,
    lastName: string,
    collegeName: Option<string>,
    avatarUrl: Option<string>,
    role: Role,
    createdAt: string,
    updatedAt: string)

  datatype Resource = Resource(title: string, kind: string, url: string)

  /** A module of a learning path as the AI describes it. */
  datatype ModuleInfo = ModuleInfo(name: string, duration: int, topics: seq<string>, resources: seq<Resource>)

  /** A module once it is stored in a path, with its completion flag. */
  datatype Milestone = Milestone(info: ModuleInfo, completed: bool)

  datatype Difficulty = Beginner | Intermediate | Advanced

  /** A learning_paths row apart from its milestone list. */
  datatype PathRow = PathRow(
    id: string,
    userId: string,
    title: string,
    description: Option<string>,
    topics: seq<string>,
    difficulty: Difficulty,
    estimatedDuration: Option<int>,
    progress: int,
    aiGenerated: bool)

  /** A whole learning_paths row; a missing milestone list is None. */
  datatype LearningPath = LearningPath(row: PathRow, milestones: Option<seq<Milestone>>)

  datatype QuestionKind = MultipleChoice | TrueFalse

  datatype Question = Question(
    text: string,
    kind: QuestionKind,
    options: seq<string>,
    correctAnswer: string,
    explanation: string)

  /** A quiz_submissions row. An answer slot the user never filled is None. */
  datatype QuizSubmission = QuizSubmission(
    id: string,
    quizId: Option<string>,
    userId: string,
    answers: seq<Option<string>>,
    score: Option<int>,
    totalPossible: Option<int>,
    percentage: Option<Ratio>,
    submittedAt: string,
    quizTitle: Option<string>,
    quizTopic: Option<string>)

  /** A tasks row (a personal calendar entry). */
  datatype Task = Task(
    id: nat,
    userId: string,
    title: string,
    start: string,
    end: string,
    description: Option<string>,
    completed: bool,
    createdAt: string)

  /** A community_events row. */
  datatype CommunityEvent = CommunityEvent(
    id: nat,
    title: string,
    description: Option<string>,
    start: string,
    end: string,
    createdBy: string)
}
