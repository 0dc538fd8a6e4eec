# gdg-connect page logic in Dafny

gdg-connect is a community web app written in React. Participants follow AI-generated learning paths, take practice quizzes, keep a calendar of tasks, ask an AI tutor and check documents for plagiarism. Organisers plan community events, generate tests and manage roles.

This project models the decision rules and list updates inside the page event handlers, together with the helpers of the generative-AI wrapper (`src/lib/gemini.ts`), and proves properties of them.

## How the model is organised

Each core source file has one module:

| module | source file |
|---|---|
| `PracticeQuizPage` | `src/pages/participant/PracticeQuizPage.tsx` |
| `LearningPathDetailPage` | `src/pages/participant/LearningPathDetailPage.tsx` |
| `LearningPathPage` | `src/pages/participant/LearningPathPage.tsx` |
| `LearningPathsPage` | `src/pages/participant/LearningPathsPage.tsx` |
| `TaskManagerPage` | `src/pages/participant/TaskManagerPage.tsx` |
| `EventCalendarPage` | `src/pages/organizer/EventCalendarPage.tsx` |
| `TestGeneratorPage` | `src/pages/organizer/TestGeneratorPage.tsx` |
| `PlagiarismChecker` | `src/pages/PlagiarismChecker.tsx` |
| `QuizHistoryPage` | `src/pages/participant/QuizHistoryPage.tsx` |
| `UserManagementPage` | `src/pages/UserManagementPage.tsx` |
| `AITutorPage` | `src/pages/participant/AITutorPage.tsx` |
| `Gemini` | `src/lib/gemini.ts` |

Five shared modules support them:
- `Wrappers` defines `Option`, `Result` and `Status`.
- `Text` models the JavaScript string built-ins the pages use.
- `Numbers` holds exact rationals, `Math.round` and the progress percentage.
- `Records` holds the row shapes of `src/lib/supabase.ts`.
- `LearningPaths` holds the milestone logic shared by the two module-toggle handlers.

A page whose handlers update React state step by step is a `class`. Its fields are that state, and each handler is a `method`:
- The answer of every database or AI call is a parameter: `Result` for a value, `Status` for success or failure.
- The method returns the payload it sends to the store or the AI, so its contract can say what is sent.
- Pure rules are functions, and lemmas state their properties.

A milestone list is an `array`. The toggle handlers copy the list with `[...milestones]`, which copies references to the same milestone objects. Writing a cell of the array is therefore the in-place flip that the old state also sees.

Percentages that the code computes in floating point are exact rationals here (`Numbers.Ratio`). `Math.round` is `floor(x + 1/2)`.

## Model

| member | source | states |
|---|---|---|
| Text.TrimStart | src/pages/participant/AITutorPage.tsx:38-40 | the result is the longest suffix of the input that does not start with whitespace |
| Text.TrimEnd | src/pages/participant/AITutorPage.tsx:38-40 | the result is the longest prefix of the input that does not end with whitespace |
| Text.TrimEmptyIff | src/pages/participant/LearningPathsPage.tsx:65 | `s.trim()` is empty exactly when `s` is all whitespace |
| Text.TrimIsInfix | src/pages/participant/AITutorPage.tsx:40 | the trimmed text is a contiguous piece of the input |
| Text.TrimIdempotent | src/pages/participant/AITutorPage.tsx:40 | trimming twice is trimming once |
| Text.ToLower | src/pages/participant/LearningPathDetailPage.tsx:72-74 | lower-casing keeps the length and maps every character through the ASCII lower-case map |
| Text.ToLowerIdempotent | src/pages/participant/LearningPathDetailPage.tsx:72-74 | lower-casing twice is lower-casing once |
| Text.FindFrom | src/lib/gemini.ts:27 | returns the first occurrence of the pattern at or after the start index, or None when there is no such occurrence |
| Text.Truncate | src/pages/PlagiarismChecker.tsx:119 | `substring(0, n)` is a prefix of at most n characters, and the whole string when it is short enough |
| Text.TruncateTwice | src/lib/gemini.ts:120 | cutting to m and then to a smaller n is cutting to n |
| Text.JoinContainsEach | src/pages/participant/LearningPathPage.tsx:62 | every item of `join(sep)` occurs in the joined string |
| Text.ParseNatToString | src/pages/organizer/EventCalendarPage.tsx:128 | reading back the decimal rendering of a number gives the number |
| Text.NatToStringInjective | src/pages/participant/TaskManagerPage.tsx:80-89 | distinct numbers render as distinct decimal strings |
| Numbers.Round | src/pages/participant/LearningPathDetailPage.tsx:53 | `Math.round(x)` is the integer r with r - 1/2 <= x < r + 1/2 |
| Numbers.RoundUnique | src/pages/PlagiarismChecker.tsx:29 | no other integer satisfies that bound |
| Numbers.ProgressPercent | src/pages/participant/LearningPathDetailPage.tsx:52-53 | `Math.round(completed / total * 100)` lies in [0, 100] |
| Numbers.ProgressMonotone | src/pages/participant/LearningPathDetailPage.tsx:52-53 | more completed milestones never give a lower progress |
| Numbers.ProgressFullIff | src/pages/participant/LearningPathDetailPage.tsx:52-53 | with fewer than 200 milestones, progress is 100 exactly when all are completed |
| Numbers.ProgressZeroIff | src/pages/participant/LearningPathDetailPage.tsx:52-53 | with at most 200 milestones, progress is 0 exactly when none is completed |
| Numbers.ProgressFullWithOneOpen | src/pages/participant/LearningPathDetailPage.tsx:53 | 199 completed of 200 already round to 100, so the bound is needed |
| Numbers.ProgressZeroWithOneDone | src/pages/participant/LearningPathDetailPage.tsx:53 | 1 completed of 201 rounds to 0, so the bound is needed |
| LearningPaths.CompletedCount | src/pages/participant/LearningPathDetailPage.tsx:52 | the completed count never exceeds the number of milestones |
| LearningPaths.CountExtremes | src/pages/participant/LearningPathDetailPage.tsx:52 | the count equals the length exactly when all are completed, and is 0 exactly when none are |
| LearningPaths.Flip | src/pages/participant/LearningPathDetailPage.tsx:49-50 | only milestone k changes, and only in its `completed` flag, which is negated |
| LearningPaths.FlipTwice | src/pages/participant/LearningPathDetailPage.tsx:50 | toggling the same module twice restores the list |
| LearningPaths.CountAfterFlip | src/pages/participant/LearningPathDetailPage.tsx:50-52 | one flip moves the completed count by exactly one, in the direction of the flip |
| LearningPaths.Progress | src/pages/participant/LearningPathDetailPage.tsx:52-53 | the new progress lies in [0, 100] |
| LearningPaths.ProgressExtremes | src/pages/participant/LearningPathDetailPage.tsx:52-53 | with under 200 milestones, progress is 100 exactly when all are completed and 0 exactly when none are |
| LearningPaths.ProgressAfterFlip | src/pages/participant/LearningPathDetailPage.tsx:50-53 | ticking a module never lowers the progress, and unticking never raises it |
| LearningPaths.StoredRow | src/pages/participant/LearningPathPage.tsx:73-81 | the row shown after an insert carries the sent user, title, topics, progress and duration under the new id |
| LearningPaths.InitialMilestones | src/pages/participant/LearningPathPage.tsx:70 | one milestone per AI module, in order, carrying that module, and none completed |
| LearningPaths.InitialProgressAgrees | src/pages/participant/LearningPathPage.tsx:67-70 | progress 0 agrees with an all-open milestone list |
| LearningPaths.TitleOr | src/pages/participant/LearningPathPage.tsx:62 | `title \|\| fallback`: an absent or empty title gives the fallback, any other gives the title |
| LearningPathDetailPage.DetailView.constructor | src/pages/participant/LearningPathDetailPage.tsx:21-40 | the page holds exactly the fetched path, or nothing when the fetch found none |
| LearningPathDetailPage.DetailView.ToggleModuleCompletion | src/pages/participant/LearningPathDetailPage.tsx:46-69 | a no-op without a path or a milestone list. Otherwise it sends the list with milestone k flipped and the recomputed progress. On success the flags stay flipped and the progress is updated. On failure the flag is flipped back and the flags end as they started |
| LearningPathDetailPage.ToggleKeepsProgressConsistent | src/pages/participant/LearningPathDetailPage.tsx:46-69 | whatever the store answers, a toggle keeps the held progress equal to the rounded share of completed milestones |
| LearningPathDetailPage.ResourceIconFor | src/pages/participant/LearningPathDetailPage.tsx:71-76 | case-insensitive, and the first match wins. Video gives the video icon and nothing else does. Article or blog without video gives the article icon. Docs or documentation without the earlier words gives the docs icon. A type mentioning none of them gets the default icon |
| LearningPathDetailPage.ResourceIconIgnoresCase | src/pages/participant/LearningPathDetailPage.tsx:72-74 | the icon of a type equals the icon of its lower-cased form |
| LearningPathDetailPage.VideoGetsVideoIcon | src/pages/participant/LearningPathDetailPage.tsx:72 | the AI type "Video" gets the video icon |
| LearningPathDetailPage.ArticleGetsArticleIcon | src/pages/participant/LearningPathDetailPage.tsx:73 | the AI type "Article" gets the article icon |
| LearningPathDetailPage.DocumentationGetsDocsIcon | src/pages/participant/LearningPathDetailPage.tsx:74 | the AI type "Documentation" gets the documentation icon |
| LearningPathDetailPage.InteractiveTutorialMentionsNothing | src/pages/participant/LearningPathDetailPage.tsx:72-74 | "interactive tutorial" mentions none of video, article, blog, docs or documentation |
| LearningPathDetailPage.InteractiveTutorialGetsPlainIcon | src/pages/participant/LearningPathDetailPage.tsx:71-76 | the AI type "Interactive Tutorial" gets the default icon |
| LearningPathPage.RemoveAll | src/pages/participant/LearningPathPage.tsx:50 | `filter(i => i !== x)` keeps exactly the elements other than x |
| LearningPathPage.RemoveAbsent | src/pages/participant/LearningPathPage.tsx:50 | removing an absent element changes nothing |
| LearningPathPage.RemoveKeepsOrder | src/pages/participant/LearningPathPage.tsx:50 | the remaining elements keep their relative order |
| LearningPathPage.RemoveKeepsDistinct | src/pages/participant/LearningPathPage.tsx:50 | removal from a duplicate-free list leaves it duplicate-free |
| LearningPathPage.ToggleInterest | src/pages/participant/LearningPathPage.tsx:48-52 | a present interest is removed, an absent one is appended at the end, and the interest is selected afterwards exactly when it was not before |
| LearningPathPage.ToggleKeepsDistinct | src/pages/participant/LearningPathPage.tsx:49-51 | the interest list never gains a duplicate |
| LearningPathPage.ToggleTwiceAbsent | src/pages/participant/LearningPathPage.tsx:49-51 | toggling an absent interest twice gives the original list back |
| LearningPathPage.RemoveAppend | src/pages/participant/LearningPathPage.tsx:50 | the filter distributes over concatenation |
| LearningPathPage.NewPathFromInterests | src/pages/participant/LearningPathPage.tsx:60-71 | the inserted row has the selected interests as topics, beginner difficulty, 20 hours, progress 0, `ai_generated`, the AI's description and resources, one open milestone per AI module, and the AI title or the fallback |
| LearningPathPage.FallbackTitleNamesInterests | src/pages/participant/LearningPathPage.tsx:62 | the fallback title names every selected interest |
| LearningPathPage.NewPathProgressAgrees | src/pages/participant/LearningPathPage.tsx:67-70 | a generated path's progress agrees with its milestones |
| LearningPathPage.ResourceIconFor | src/pages/participant/LearningPathPage.tsx:114-119 | case-insensitive, and the first match wins. Video gives the video icon; article or blog without video gives the article icon. The documentation icon goes exactly to a type that mentions "docs" and none of video, article or blog. Everything else gets the default icon |
| LearningPathPage.IconsAgreeUnlessDocumentation | src/pages/participant/LearningPathPage.tsx:117 | this page and the detail page disagree exactly on types that mention "documentation" but none of "docs", video, article or blog |
| LearningPathPage.DocumentationGetsPlainIcon | src/pages/participant/LearningPathPage.tsx:117-118 | the AI type "Documentation" gets the default icon on this page |
| LearningPathPage.DocumentationIconsDiffer | src/lib/gemini.ts:80 | the two pages give the prompt's "Documentation" type different icons |
| LearningPathPage.PathPage.constructor | src/pages/participant/LearningPathPage.tsx:26-46 | the page holds the fetched path, or nothing when there is no row, with no interest selected |
| LearningPathPage.PathPage.InterestChange | src/pages/participant/LearningPathPage.tsx:48-52 | the selection becomes its toggle and nothing else changes |
| LearningPathPage.PathPage.Generate | src/pages/participant/LearningPathPage.tsx:54-89 | nothing without a selected interest or a user. A row is sent only when the AI answer parsed and has a module list, and it is the row above. The page shows the stored row with fresh milestone cells only when the insert succeeds; otherwise the held path is kept. `generating` ends false |
| LearningPathPage.PathPage.ToggleModuleCompletion | src/pages/participant/LearningPathPage.tsx:91-112 | as on the detail page, but the flipped flag stays flipped when the update fails, and the progress changes only on success |
| LearningPathPage.FailedToggleBreaksConsistency | src/pages/participant/LearningPathPage.tsx:107-108 | a failed update on a single open module leaves the flags and the held progress out of step |
| LearningPathsPage.NewPathFromTopic | src/pages/participant/LearningPathsPage.tsx:74-84 | the inserted row has exactly `[topic]` as topics, beginner difficulty, 20 hours, progress 0, no top-level resources, every milestone open, and the title fallback "Learning Path for " + topic |
| LearningPathsPage.TopicPathIsSingleInterestPath | src/pages/participant/LearningPathsPage.tsx:74-84 | that row is the single-path page's row for the one interest `topic`, without resources |
| LearningPathsPage.PathsPage.FetchPaths | src/pages/participant/LearningPathsPage.tsx:42-58 | the rows replace the list, and an error keeps it |
| LearningPathsPage.PathsPage.GeneratePath | src/pages/participant/LearningPathsPage.tsx:64-100 | a whitespace-only topic or a missing user is a no-op. Missing path data or modules sends nothing. On a successful insert the topic is cleared and the dialog closed; on any failure both are kept. `generating` ends false |
| PracticeQuizPage.WriteAt | src/pages/participant/PracticeQuizPage.tsx:58-59 | the answer lands at the index. Every other position keeps its answer, and positions past the old end read as unanswered |
| PracticeQuizPage.CountCorrect | src/pages/participant/PracticeQuizPage.tsx:74-79 | the count over the first n questions is at most n |
| PracticeQuizPage.CountIsCardinality | src/pages/participant/PracticeQuizPage.tsx:74-79 | the count is the size of the set of correctly answered indices |
| PracticeQuizPage.ScoreCountsCorrectAnswers | src/pages/participant/PracticeQuizPage.tsx:74-79 | the score is the number of indices whose answer equals the correct answer, so it lies in [0, number of questions] |
| PracticeQuizPage.ScoreFullIff | src/pages/participant/PracticeQuizPage.tsx:74-79 | full score exactly when every question is answered correctly |
| PracticeQuizPage.CountIgnoresLaterAnswers | src/pages/participant/PracticeQuizPage.tsx:75-78 | the count of the first n questions depends only on their own answers |
| PracticeQuizPage.SubmissionFor | src/pages/participant/PracticeQuizPage.tsx:81-89 | the row records the answers, a score of at most the total, the question count as `total_possible`, percentage = score / count * 100, and the title "Practice Quiz: " + topic |
| PracticeQuizPage.PercentageFullIff | src/pages/participant/PracticeQuizPage.tsx:86 | the saved percentage is 100 exactly when every answer is correct, and never above 100 |
| PracticeQuizPage.QuizSession.GenerateQuiz | src/pages/participant/PracticeQuizPage.tsx:35-55 | an empty topic changes nothing. Otherwise answers, index and results are reset, and an empty or failed generation leaves no quiz |
| PracticeQuizPage.QuizSession.CalculateScore | src/pages/participant/PracticeQuizPage.tsx:101-110 | the loop returns 0 without a quiz and the score of the given answers otherwise |
| PracticeQuizPage.QuizSession.SubmitWith | src/pages/participant/PracticeQuizPage.tsx:71-99 | nothing without a quiz or a user. Otherwise it sends the submission for the answers it sees, and the results are shown whatever the store answers |
| PracticeQuizPage.QuizSession.Answer | src/pages/participant/PracticeQuizPage.tsx:57-69 | only the current position of the answer array is written. Before the last question the index advances by one; on the last question the updated answers are submitted. The index stays on a question |
| PracticeQuizPage.QuizSession.AnswerAsWritten | src/pages/participant/PracticeQuizPage.tsx:57-69 | as above, but the submission sees the answer array from before the final answer |
| PracticeQuizPage.QuizSession.ResetQuiz | src/pages/participant/PracticeQuizPage.tsx:112-118 | quiz, results, answers, index and topic return to their initial values |
| PracticeQuizPage.StaleSubmissionLosesLastPoint | src/pages/participant/PracticeQuizPage.tsx:62-67 | when the last answer is correct, the stale array scores one less than the updated one |
| PracticeQuizPage.AllCorrectScoresFull | src/pages/participant/PracticeQuizPage.tsx:74-79 | answers that are all correct give the full score |
| TaskManagerPage.Merge | src/pages/participant/TaskManagerPage.tsx:78-97 | all personal tasks in order, then all community events in order; the length is the sum |
| TaskManagerPage.MergeKinds | src/pages/participant/TaskManagerPage.tsx:81-94 | exactly the personal entries are editable and non-community, and every entry keeps the numeric id of its row |
| TaskManagerPage.TaskAndCommunityIdsDiffer | src/pages/participant/TaskManagerPage.tsx:78-89 | a `task-` id never equals a `community-` id |
| TaskManagerPage.TaskIdInjective | src/pages/participant/TaskManagerPage.tsx:80 | equal task ids come from equal row ids |
| TaskManagerPage.CommunityIdInjective | src/pages/participant/TaskManagerPage.tsx:89 | equal community ids come from equal row ids |
| TaskManagerPage.MergeIdsDistinct | src/pages/participant/TaskManagerPage.tsx:78-97 | rows with distinct ids in each table give entries with distinct ids |
| TaskManagerPage.Find | src/pages/participant/TaskManagerPage.tsx:117 | finds an entry with the id, or None exactly when no entry has it |
| TaskManagerPage.FindById | src/pages/participant/TaskManagerPage.tsx:117 | with distinct ids, looking up an entry's id finds that entry |
| TaskManagerPage.ClassName | src/pages/participant/TaskManagerPage.tsx:175 | community first, then completed personal tasks, then the empty class |
| TaskManagerPage.MergedClassNames | src/pages/participant/TaskManagerPage.tsx:175 | on the merged calendar a community event is never shown as completed, and a task is shown as completed exactly when its row is |
| TaskManagerPage.FormOf | src/pages/participant/TaskManagerPage.tsx:123 | the form copies the entry's fields, with a missing description as '' and a missing flag as false |
| TaskManagerPage.TaskCalendar.FetchEvents | src/pages/participant/TaskManagerPage.tsx:66-103 | the calendar is replaced by the merge only when there is a user and both reads succeed |
| TaskManagerPage.TaskCalendar.Select | src/pages/participant/TaskManagerPage.tsx:110-114 | a blank, open task over the range, no selection, and the dialog for tasks open |
| TaskManagerPage.TaskCalendar.EventClick | src/pages/participant/TaskManagerPage.tsx:116-127 | an unknown id does nothing. A community entry opens the read-only dialog without touching the form. A personal one loads the form and opens the dialog for tasks |
| TaskManagerPage.TaskCalendar.SaveTask | src/pages/participant/TaskManagerPage.tsx:129-155 | nothing without a user or a title. A selected personal task is updated by its `originalId`; otherwise a task is inserted for the user. The dialog closes |
| TaskManagerPage.TaskCalendar.DeleteTask | src/pages/participant/TaskManagerPage.tsx:157-167 | refuses without a selection or for a community event. Deletes the selected `originalId`, and the dialog closes only on success |
| TaskManagerPage.EditRoundTrip | src/pages/participant/TaskManagerPage.tsx:116-136 | clicking a fetched task and saving sends an update of that task's id with its own fields |
| EventCalendarPage.Project | src/pages/organizer/EventCalendarPage.tsx:127-132 | one entry per event, in order, with the id in decimal and title, start and end copied |
| EventCalendarPage.ProjectionIdsFaithful | src/pages/organizer/EventCalendarPage.tsx:127-128 | distinct events give distinct entry ids, and each entry id reads back as its event's id |
| EventCalendarPage.FindByText | src/pages/organizer/EventCalendarPage.tsx:79 | the lookup matches on the decimal form of the id, and gives None exactly when no event matches |
| EventCalendarPage.ClickFindsProjected | src/pages/organizer/EventCalendarPage.tsx:79-129 | clicking the entry drawn for event k finds event k |
| EventCalendarPage.FormOf | src/pages/organizer/EventCalendarPage.tsx:82 | the form copies the fields, with a missing description as '' |
| EventCalendarPage.EventCalendar.FetchEvents | src/pages/organizer/EventCalendarPage.tsx:56-66 | the rows replace the list, and an error keeps it |
| EventCalendarPage.EventCalendar.Select | src/pages/organizer/EventCalendarPage.tsx:72-76 | a blank form over the range, no selection, and the dialog open |
| EventCalendarPage.EventCalendar.EventClick | src/pages/organizer/EventCalendarPage.tsx:78-85 | a found event is selected and loaded into the form, and an unknown id does nothing |
| EventCalendarPage.EventCalendar.SaveEvent | src/pages/organizer/EventCalendarPage.tsx:87-113 | nothing without a user or a title. A selected event is updated by its id; otherwise an event is inserted with `created_by` set to the user. The dialog closes |
| EventCalendarPage.EventCalendar.DeleteEvent | src/pages/organizer/EventCalendarPage.tsx:115-125 | requires a selection, and the dialog closes only when the delete succeeds |
| EventCalendarPage.EditRoundTrip | src/pages/organizer/EventCalendarPage.tsx:78-94 | clicking an event's entry and saving sends an update of that event with its own fields |
| TestGeneratorPage.QuizRecord | src/pages/organizer/TestGeneratorPage.tsx:56-65 | the saved quiz carries the questions, one mark per question, `ai_generated` and `is_published = false` |
| TestGeneratorPage.TestGenerator.Generate | src/pages/organizer/TestGeneratorPage.tsx:32-50 | needs both title and topic. An empty or failed generation leaves no preview, and a preview is never empty |
| TestGeneratorPage.TestGenerator.SaveQuiz | src/pages/organizer/TestGeneratorPage.tsx:52-77 | nothing without a preview or a user. Otherwise it sends the record. Success clears preview, title and topic; failure keeps them. `saving` ends false |
| TestGeneratorPage.GenerateThenSave | src/pages/organizer/TestGeneratorPage.tsx:32-77 | generating then saving sends exactly the generated questions with as many marks, under the typed title and topic |
| PlagiarismChecker.KeepPositive | src/pages/PlagiarismChecker.tsx:131 | keeps exactly the sources with a positive match |
| PlagiarismChecker.SourcesFound | src/pages/PlagiarismChecker.tsx:127-131 | at most three sources, each with 0 < match <= 95. Only candidates appear, and every candidate with a positive match is kept |
| PlagiarismChecker.SourceCount | src/pages/PlagiarismChecker.tsx:128-131 | the number of sources is 0 below similarity 2, 1 from 2, 2 from 4 and 3 from 10 |
| PlagiarismChecker.SourcesDescending | src/pages/PlagiarismChecker.tsx:128-131 | the sources keep the fixed order, so their matches never increase down the list |
| PlagiarismChecker.SummaryOf | src/pages/PlagiarismChecker.tsx:175-181 | high exactly above 75, low exactly at 25 or below, moderate in between, all exclusive on the similarity itself |
| PlagiarismChecker.ColourOf | src/pages/PlagiarismChecker.tsx:29-33 | on the rounded value: red exactly above 75, orange exactly in 51-75, green exactly at 25 or below |
| PlagiarismChecker.ColourMonotone | src/pages/PlagiarismChecker.tsx:29-33 | a higher similarity never gets a cooler colour |
| PlagiarismChecker.RoundMonotone | src/pages/PlagiarismChecker.tsx:29 | `Math.round` is monotone |
| PlagiarismChecker.SummaryMatchesColourOnIntegers | src/pages/PlagiarismChecker.tsx:29-33 | for a whole-number similarity, high goes with red and low with green |
| PlagiarismChecker.SummaryAndColourPartAtFraction | src/pages/PlagiarismChecker.tsx:33 | 75.4 reads as high similarity while the ring stays orange |
| PlagiarismChecker.SourceLinesContainEach | src/pages/PlagiarismChecker.tsx:158-160 | the source block has a line for every source |
| PlagiarismChecker.RecommendationLinesContainEach | src/pages/PlagiarismChecker.tsx:162-164 | the recommendation block has a line for every recommendation |
| PlagiarismChecker.ReportStartsWithFile | src/pages/PlagiarismChecker.tsx:153-154 | the report text begins with the line naming the checked file |
| PlagiarismChecker.ReportListsSource | src/pages/PlagiarismChecker.tsx:153-164 | every matched source has its line somewhere in the report |
| PlagiarismChecker.ReportListsRecommendation | src/pages/PlagiarismChecker.tsx:153-164 | every recommendation has its line somewhere in the report |
| PlagiarismChecker.AppendSourceLines | src/pages/PlagiarismChecker.tsx:158-160 | the first `forEach` appends exactly the source lines, in order |
| PlagiarismChecker.AppendRecommendationLines | src/pages/PlagiarismChecker.tsx:162-164 | the second `forEach` appends exactly the recommendation lines, in order |
| PlagiarismChecker.Checker.OnDrop | src/pages/PlagiarismChecker.tsx:77-91 | a file over 5 MiB, or no file, changes nothing. An accepted file replaces the previous one and clears the result |
| PlagiarismChecker.Checker.CheckPlagiarism | src/pages/PlagiarismChecker.tsx:104-148 | nothing without a file. Unreadable or empty content sends nothing. Otherwise it sends the first 50,000 characters, and the result is the analysis with its derived sources. `isLoading` ends false |
| PlagiarismChecker.Checker.DownloadReport | src/pages/PlagiarismChecker.tsx:150-168 | no report without a result and a file; otherwise the report text above |
| PlagiarismChecker.Checker.ClearFile | src/pages/PlagiarismChecker.tsx:170-173 | file and result are both cleared |
| QuizHistoryPage.BadgeFor | src/pages/participant/QuizHistoryPage.tsx:38-42 | `default` exactly at 80 or above, `secondary` exactly in [50, 80), `destructive` exactly below 50 |
| QuizHistoryPage.BadgeMonotone | src/pages/participant/QuizHistoryPage.tsx:38-42 | a higher percentage never gets a worse badge |
| QuizHistoryPage.ShownPercentage | src/pages/participant/QuizHistoryPage.tsx:77 | a missing percentage is shown as 0 |
| QuizHistoryPage.MissingPercentageIsDestructive | src/pages/participant/QuizHistoryPage.tsx:77 | a missing percentage gets the `destructive` badge |
| QuizHistoryPage.ShownTitle | src/pages/participant/QuizHistoryPage.tsx:74 | the title when it is non-empty, otherwise the topic |
| QuizHistoryPage.AfterFetch | src/pages/participant/QuizHistoryPage.tsx:26-30 | an error keeps the shown list, and a success replaces it |
| QuizHistoryPage.PracticeAttemptBadges | src/pages/participant/QuizHistoryPage.tsx:38-42 | an all-correct practice attempt gets the top badge, and one with score 0 gets `destructive` |
| UserManagementPage.ViewFor | src/pages/UserManagementPage.tsx:48-61 | access is denied exactly when the viewer is not an admin or moderator (a missing profile included), and access is decided before the loading state |
| UserManagementPage.DeniedBeforeLoading | src/pages/UserManagementPage.tsx:48-61 | a signed-out viewer or a member is denied, even while loading |
| UserManagementPage.RoleMenu | src/pages/UserManagementPage.tsx:96-98 | the menu offers every role except the user's own |
| UserManagementPage.RoleMenuOrder | src/pages/UserManagementPage.tsx:96-98 | the items come in the order admin, moderator, member, skipping the user's own role |
| UserManagementPage.RoleMenuHasTwo | src/pages/UserManagementPage.tsx:96-98 | exactly two different options for each role |
| UserManagementPage.BadgeMarksStaff | src/pages/UserManagementPage.tsx:85 | the `default` badge marks exactly the roles that may open the page |
| UserManagementPage.ApplyRoleChange | src/pages/UserManagementPage.tsx:38-39 | the named user's role becomes the new role, and every other profile stays as it was |
| UserManagementPage.RoleChangeTouchesOnlyRole | src/pages/UserManagementPage.tsx:39 | only the `role` field of the named user changes |
| UserManagementPage.RoleChangeIdempotent | src/pages/UserManagementPage.tsx:39 | repeating a role change changes nothing more |
| AITutorPage.UserMessageText | src/pages/participant/AITutorPage.tsx:40-41 | the trimmed input, or "Uploaded: " + the file name when it is blank; never empty |
| AITutorPage.ReplyText | src/pages/participant/AITutorPage.tsx:59-62 | the tutor's text, or "Sorry, I encountered an error: " followed by the error message |
| AITutorPage.TutorChat.AttachFile | src/pages/participant/AITutorPage.tsx:24-29 | the first dropped file becomes the attachment |
| AITutorPage.TutorChat.SendMessage | src/pages/participant/AITutorPage.tsx:37-68 | blank input with no file does nothing. Otherwise earlier messages are kept, the user message is appended and the input cleared. A failed file read appends nothing more and keeps the file. Otherwise it sends the trimmed question with the file's text and appends exactly one tutor message; the file is cleared and loading ends false |
| Gemini.FencedBlock | src/lib/gemini.ts:27 | the capture runs from the end of the first opening fence to the first closing fence at or after it. There is no capture exactly when the text has no opening fence, or no closing fence after the first one |
| Gemini.BlockBetweenFirstFences | src/lib/gemini.ts:27 | the first opening fence and the first closing fence after it determine the capture |
| Gemini.ParseJsonFromText | src/lib/gemini.ts:26-41 | a non-empty captured block that parses wins. None only when the whole text does not parse. Any result is the parse of the whole text or of the fenced block |
| Gemini.FallsBackToWholeText | src/lib/gemini.ts:28-36 | a missing, empty or unparsable block falls back to parsing the whole text |
| Gemini.PreambleRoundTrip | src/lib/gemini.ts:26-31 | a reply with a preamble, then one fenced block, then anything, yields the parse of the block. This needs a non-empty block with no closing fence that parses, and a preamble without a backtick |
| Gemini.FencedRoundTrip | src/lib/gemini.ts:26-31 | a reply that opens with a fenced block (anything may follow) yields the parse of the block, when the block is non-empty, holds no closing fence and parses |
| Gemini.GenerateList | src/lib/gemini.ts:43-57 | without a client it fails with "Gemini API not configured", and a failed call passes its error on. An unparsable reply gives `[]`; otherwise the parsed list |
| Gemini.GenerateObject | src/lib/gemini.ts:59-123 | without a client it fails with "Gemini API not configured", and a failed call passes its error on. Otherwise the parsed object, or null |
| Gemini.ContextSection | src/lib/gemini.ts:109-111 | the context part is empty for a missing or empty document, and otherwise carries its first 30,000 characters between the markers |
| Gemini.GenerateTutorResponse | src/lib/gemini.ts:101-115 | fails with "Gemini API not configured" without a client, and otherwise returns the call's outcome |
| Gemini.TutorContextBounded | src/lib/gemini.ts:110 | the prompt carries a prefix of the document of at most 30,000 characters |
| Gemini.PlagiarismContent | src/lib/gemini.ts:120 | the content in the prompt is a prefix of at most 20,000 characters, and the whole content when it is short enough |
| Gemini.PageLimitIsInert | src/lib/gemini.ts:120 | the plagiarism page's own cut to 50,000 characters never changes what reaches the model |
| Gemini.AllTopics | src/lib/gemini.ts:134 | `flatMap(p => p.topics \|\| [])` holds exactly the topics of the paths |
| Gemini.AllTopicsAppend | src/lib/gemini.ts:134 | the flattening is the in-order concatenation: it distributes over concatenation, and one path gives its own topics or none |
| Gemini.IndexOf | src/lib/gemini.ts:134 | the index of the first occurrence |
| Gemini.Dedup | src/lib/gemini.ts:134 | `[...new Set(xs)]` holds each element of xs exactly once, in first-occurrence order |
| Gemini.Skills | src/lib/gemini.ts:134 | the skills are distinct, and a skill is listed exactly when some path has it as a topic. They come in the order of their first occurrence among the paths' topics |
| Gemini.CompletedTitles | src/lib/gemini.ts:135 | every listed title is the title of a path at progress exactly 100 |
| Gemini.CompletedPathListed | src/lib/gemini.ts:135 | every path at progress 100 contributes its title |
| Gemini.CompletedTitlesAppend | src/lib/gemini.ts:135 | the selection keeps input order: it distributes over concatenation |
| Gemini.TopQuizzes | src/lib/gemini.ts:136 | every listed line is the line of a submission with a percentage of at least 80 |
| Gemini.TopQuizListed | src/lib/gemini.ts:136 | every submission at 80% or more contributes its line |
| Gemini.TopQuizRoundsHigh | src/lib/gemini.ts:136 | a listed quiz shows a rounded percentage of at least 80 |
| Gemini.TopQuizzesAppend | src/lib/gemini.ts:136 | the selection keeps input order: it distributes over concatenation |
| Gemini.OrEmpty | src/lib/gemini.ts:150 | `join` prints a missing title as the empty string |
| Gemini.ResumeFactsFor | src/lib/gemini.ts:146-154 | skills joined with ", " or "No specific skills tracked yet."; completed paths and top quizzes joined with "; " or "None"; empty additional information as "None" |
| Gemini.SkillsPrinted | src/lib/gemini.ts:147 | every skill appears in the printed skills line |
| Gemini.GenerateResume | src/lib/gemini.ts:125-131 | fails with "Gemini API not configured" without a client, and otherwise returns the call's outcome |

## Left out

- Database reads and writes and the generative-AI calls are not modelled as code. Each handler takes the outcome as a `Result` or `Status` parameter and returns what it sends. The file read in the plagiarism checker and the tutor is a parameter too.
- After a successful insert or update, the store is taken to echo back what was sent. `StoredRow` is that echo, and a successful toggle stores the sent progress.
- Server-side ordering (`order('created_at')`, `order('submitted_at')`) and the `PGRST116` error-code filter are not modelled. A fetch either replaces the list or keeps it.
- Refetches after a save or delete are not chained to the handler. The model has them as separate `FetchEvents`, `FetchPaths` and `AfterFetch` steps.
- Toasts, dialogs apart from their open flags, the loading flags of fetches, rendering, routing and the React re-render semantics are not modelled.
- `setTimeout` runs at once in `PracticeQuizPage.QuizSession.Answer` and `AnswerAsWritten`: the 500 ms delay itself is not modelled. Only its effect, which answer array the submission sees, is.
- The `numQuestions` and `difficulty` inputs of the quiz pages only reach the prompt and are not modelled.
- Prompt wording is not modelled beyond the parts that carry data: the context section and the resume facts. `JSON.parse` is the uninterpreted parameter `parse`, and the model's text is the parameter `reply`.
- Gemini.Configured: the model, `GoogleGenerativeAI` and the generation and safety settings are external. The client is represented only by whether it exists.
- Gemini.ResumeFactsFor: the candidate's name, email and college lines of the resume prompt are not modelled.
- Gemini.TopQuizLine: `toFixed(0)` is modelled as `Math.round`. The two agree on the positive percentages that are listed. Float rendering of non-integers is not modelled.
- PlagiarismChecker.Analysis: the AI's `similarity_percentage` and `confidence_score` are taken to be whole numbers. A fractional score, such as a confidence of 87.5, is not represented. The source's report would print it with its decimals ("Confidence Score: 87.5/100"), and its summary and ring would read the raw fractional similarity. So ReportText and HeadBody render only whole-number scores. SummaryOf and ColourOf take a rational, but on a checked file they only ever see the whole-number similarity.
- PlagiarismChecker.ScaledMatch: `similarity * 0.6` is taken as the exact value 6 * similarity / 10, on the whole-number similarity above. Binary floating-point rounding of the products is not modelled.
- Numbers.Round: percentages are exact rationals, not IEEE doubles.
- Text.ToLower: lower-cases ASCII letters only. The full Unicode case mapping of `toLowerCase` is not modelled.
- Text.Truncate: strings are sequences of Unicode scalar values, while JavaScript lengths and `substring` indices count UTF-16 code units. For characters outside the Basic Multilingual Plane, which take two code units each, the cuts of Truncate, Gemini.ContextSection (30,000), Gemini.PlagiarismContent (20,000) and PlagiarismChecker.Checker.CheckPlagiarism (50,000) keep up to twice as much text as the source. A source cut that splits a surrogate pair cannot be represented. Text.Contains, Text.ToLower and Text.Trim are unaffected: the whitespace set lies in the Basic Multilingual Plane, lower-casing is ASCII only, and substring search gives the same answers on well-formed UTF-16. No Unicode normalisation is modelled.
- `toFixed(1)` and the date format of the quiz-history table are not modelled. Neither are the date shown in the report (the parameter `date` of `DownloadReport`) or the download itself (`saveAs`).
- The `CircularProgress` SVG dash geometry (`src/pages/PlagiarismChecker.tsx:22-27`) is floating-point drawing and is not modelled. So are the tutor's voice toggle and scrolling.
- When a thrown value is not an `Error`, the tutor page shows a fixed message instead of `error.message`. `ReplyText` takes the message as given.
- `handleDeletePath` of `src/pages/participant/LearningPathsPage.tsx` is not part of this model, and neither is the page's rendering of the list.
- The AITutorPage.TutorChat.SendMessage request and Gemini.ContextSection are separate. The page passes the document text, and the helper decides whether it is included.

## Findings

| source | as written | input that shows it | evidently intended | confidence | as-written member | corrected member |
|---|---|---|---|---|---|---|
| src/pages/participant/PracticeQuizPage.tsx:62-66 | The delayed callback calls the `handleQuizSubmission` of the render that created it. That closure's `userAnswers` does not hold the answer just given, so the saved row's answers and score miss the last question. | A one-question quiz answered correctly: the results screen shows 1/1, but the row is saved with answers `[]`, score 0 and percentage 0. | Submit the updated answer array. | high, not executed | PracticeQuizPage.QuizSession.AnswerAsWritten (PracticeQuizPage.StaleSubmissionLosesLastPoint) | PracticeQuizPage.QuizSession.Answer |
| src/pages/participant/LearningPathPage.tsx:117 | `getResourceIcon` tests only `docs`. The learning-path prompt (`src/lib/gemini.ts:80`) asks for the type "Documentation", and on this page it gets the default icon. | A resource of type "Documentation". | Test `docs` or `documentation`, as the detail page does at `src/pages/participant/LearningPathDetailPage.tsx:74`. | medium, not executed | LearningPathPage.ResourceIconFor (LearningPathPage.DocumentationIconsDiffer) | LearningPathDetailPage.ResourceIconFor (LearningPathDetailPage.DocumentationGetsDocsIcon) |
