/** What the learning-path pages share: the milestone list with one flag
    flipped, the number of completed milestones, the rounded progress
    percentage stored with a path, the path the AI describes and the row the
    pages insert for it. */
module LearningPaths {
  import opened Wrappers
  import opened Text
  import opened Records
  import opened Numbers

  /** `milestones.filter(m => m.completed).length` */
  function CompletedCount(ms: seq<Milestone>): (n: nat)
    ensures n <= |ms|
  {
    if ms == [] then 0
    else CompletedCount(ms[..|ms| - 1]) + (if ms[|ms| - 1].completed then 1 else 0)
  }

  predicate AllCompleted(ms: seq<Milestone>) {
    forall i :: 0 <= i < |ms| ==> ms[i].completed
  }

  predicate NoneCompleted(ms: seq<Milestone>) {
    forall i :: 0 <= i < |ms| ==> !ms[i].completed
  }

  /** The count reaches the length exactly when every milestone is completed,
      and is zero exactly when none is. */
  lemma {:induction false} CountExtremes(ms: seq<Milestone>)
    ensures CompletedCount(ms) == |ms| <==> AllCompleted(ms)
    ensures CompletedCount(ms) == 0 <==> NoneCompleted(ms)
  {
    if ms != [] {
      var n := |ms| - 1;
      CountExtremes(ms[..n]);
      assert forall i :: 0 <= i < n ==> ms[..n][i] == ms[i];
    }
  }

  /** Milestone k with its completion flag negated and everything else as it was. */
  function Flip(ms: seq<Milestone>, k: nat): (r: seq<Milestone>)
    requires k < |ms|
    ensures |r| == |ms|
    ensures r[k].completed == !ms[k].completed && r[k].info == ms[k].info
    ensures forall j :: 0 <= j < |ms| && j != k ==> r[j] == ms[j]
  {
    ms[k := ms[k].(completed := !ms[k].completed)]
  }

  /** Flipping the same milestone twice restores the list. */
  lemma FlipTwice(ms: seq<Milestone>, k: nat)
    requires k < |ms|
    ensures Flip(Flip(ms, k), k) == ms
  {
    assert Flip(Flip(ms, k), k)[k] == ms[k];
  }

  /** Flipping one milestone moves the completed count by exactly one. */
  lemma {:induction false} CountAfterFlip(ms: seq<Milestone>, k: nat)
    requires k < |ms|
    ensures CompletedCount(Flip(ms, k)) == if ms[k].completed then CompletedCount(ms) - 1 else CompletedCount(ms) + 1
  {
    var f := Flip(ms, k);
    var n := |ms| - 1;
    if k == n {
      assert f[..n] == ms[..n];
    } else {
      assert f[..n] == Flip(ms[..n], k);
      CountAfterFlip(ms[..n], k);
    }
  }

  /** `Math.round((completedCount / milestones.length) * 100)` */
  function Progress(ms: seq<Milestone>): (p: int)
    requires ms != []
    ensures 0 <= p <= 100
  {
    ProgressPercent(CompletedCount(ms), |ms|)
  }

  /** With fewer than 200 milestones, progress is 100 exactly when every milestone is completed
      and 0 exactly when none is. */
  lemma ProgressExtremes(ms: seq<Milestone>)
    requires 0 < |ms| < 200
    ensures Progress(ms) == 100 <==> AllCompleted(ms)
    ensures Progress(ms) == 0 <==> NoneCompleted(ms)
  {
    CountExtremes(ms);
    ProgressFullIff(CompletedCount(ms), |ms|);
    ProgressZeroIff(CompletedCount(ms), |ms|);
  }

  /** Marking a milestone completed never lowers the progress; unmarking never raises it. */
  lemma ProgressAfterFlip(ms: seq<Milestone>, k: nat)
    requires k < |ms|
    ensures !ms[k].completed ==> Progress(ms) <= Progress(Flip(ms, k))
    ensures ms[k].completed ==> Progress(Flip(ms, k)) <= Progress(ms)
  {
    CountAfterFlip(ms, k);
    var c, c' := CompletedCount(ms), CompletedCount(Flip(ms, k));
    if ms[k].completed {
      ProgressMonotone(c', c, |ms|);
    } else {
      ProgressMonotone(c, c', |ms|);
    }
  }

  /** The store's own invariant for a path: its progress is the rounded share of completed milestones. */
  predicate ProgressAgrees(progress: int, ms: seq<Milestone>) {
    ms != [] ==> progress == Progress(ms)
  }

  /** The parsed AI answer for a learning path; a field the AI left out is None. */
  datatype PathData = PathData(
    title: Option<string>,
    description: Option<string>,
    modules: Option<seq<ModuleInfo>>,
    recommendedResources: Option<seq<Resource>>)

  /** The learning_paths row a page inserts for a generated path. */
  datatype NewPath = NewPath(
    userId: string,
    title: string,
    description: Option<string>,
    topics: seq<string>,
    difficulty: Difficulty,
    estimatedDuration: int,
    progress: int,
    aiGenerated: bool,
    resources: Option<seq<Resource>>,
    milestones: seq<Milestone>)

  /** The row the store holds once it has accepted a new path under the given id. */
  function StoredRow(id: string, p: NewPath): (row: PathRow)
    ensures row.id == id && row.userId == p.userId && row.title == p.title && row.topics == p.topics
    ensures row.progress == p.progress && row.estimatedDuration == Some(p.estimatedDuration)
  {
    PathRow(id, p.userId, p.title, p.description, p.topics, p.difficulty, Some(p.estimatedDuration), p.progress, p.aiGenerated)
  }

  /** The update a module toggle sends: the whole milestone list and the new progress, for one path id. */
  datatype PathUpdate = PathUpdate(id: string, milestones: seq<Milestone>, progress: int)

  /** `modules.map(m => ({ ...m, completed: false }))` */
  function InitialMilestones(modules: seq<ModuleInfo>): (ms: seq<Milestone>)
    ensures |ms| == |modules|
    ensures forall i :: 0 <= i < |ms| ==> ms[i].info == modules[i]
    ensures NoneCompleted(ms)
  {
    seq(|modules|, i requires 0 <= i < |modules| => Milestone(modules[i], false))
  }

  /** A new path starts at progress 0, which agrees with its all-open milestone list. */
  lemma InitialProgressAgrees(modules: seq<ModuleInfo>)
    ensures ProgressAgrees(0, InitialMilestones(modules))
  {
    var ms := InitialMilestones(modules);
    CountExtremes(ms);
    if ms != [] {
      RoundUnique(Fraction(0, |ms|), 0);
    }
  }

  /** `pathData.title || fallback`: an absent or empty title falls back. */
  function TitleOr(title: Option<string>, fallback: string): (t: string)
    ensures title.Some? && title.value != "" ==> t == title.value
    ensures title.None? || title.value == "" ==> t == fallback
  {
    if title.Some? && title.value != "" then title.value else fallback
  }

  /** The icon a resource link gets. */
  datatype ResourceIcon = VideoIcon | ArticleIcon | DocsIcon | PlainIcon
}
