/** The page that lists the user's learning paths and generates a new one for a
    typed topic. */
module LearningPathsPage {
  import opened Wrappers
  import opened Text
  import opened Records
  import opened LearningPaths
  import LearningPathPage

  /** The row handleGeneratePath inserts: exactly the typed topic as topics, a beginner
      path of 20 hours at progress 0 with every module open and no top-level resources. */
  function NewPathFromTopic(userId: string, topic: string, data: PathData): (p: NewPath)
    requires data.modules.Some?
    ensures p.userId == userId && p.topics == [topic]
    ensures p.title == TitleOr(data.title, "Learning Path for " + topic)
    ensures p.description == data.description && p.resources.None?
    ensures p.difficulty == Beginner && p.estimatedDuration == 20 && p.progress == 0 && p.aiGenerated
    ensures |p.milestones| == |data.modules.value| && NoneCompleted(p.milestones)
    ensures forall i :: 0 <= i < |p.milestones| ==> p.milestones[i].info == data.modules.value[i]
  {
    NewPath(userId, TitleOr(data.title, "Learning Path for " + topic), data.description,
      [topic], Beginner, 20, 0, true, None, InitialMilestones(data.modules.value))
  }

  /** The row built here is the one the single-path page builds for the one interest
      `topic`, except that it carries no resources. */
  lemma TopicPathIsSingleInterestPath(userId: string, topic: string, data: PathData)
    requires data.modules.Some?
    ensures NewPathFromTopic(userId, topic, data)
            == LearningPathPage.NewPathFromInterests(userId, [topic], data).(resources := None)
  {
    assert Join([topic], ", ") == topic;
  }

  /** The page state: the listed paths, the topic field, the generating flag and whether
      the generate dialog is open. */
  class PathsPage {
    var paths: seq<LearningPath>
    var topic: string
    var generating: bool
    var dialogOpen: bool

    constructor ()
      ensures paths == [] && topic == "" && !generating && !dialogOpen
    {
      paths, topic, generating, dialogOpen := [], "", false, false;
    }

    /** fetchLearningPaths: the store's rows replace the list; an error keeps it. */
    method FetchPaths(fetched: Result<seq<LearningPath>>)
      modifies this
      ensures paths == if fetched.Ok? then fetched.value else old(paths)
      ensures topic == old(topic) && generating == old(generating) && dialogOpen == old(dialogOpen)
    {
      if fetched.Ok? {
        paths := fetched.value;
      }
    }

    /** handleGeneratePath. `ai` is the generator's answer (None when its text did not parse)
        and `insert` the store's answer to the insert. Returns the row sent to the store. */
    method GeneratePath(user: Option<string>, ai: Result<Option<PathData>>, insert: Status)
      returns (sent: Option<NewPath>)
      modifies this
      ensures paths == old(paths)
      ensures AllWhitespace(old(topic)) || user.None? ==>
                sent.None? && topic == old(topic) && generating == old(generating) && dialogOpen == old(dialogOpen)
      ensures !AllWhitespace(old(topic)) && user.Some? ==> !generating
      ensures sent.Some? <==>
                (!AllWhitespace(old(topic)) && user.Some? && ai.Ok? && ai.value.Some? && ai.value.value.modules.Some?)
      ensures sent.Some? ==> sent.value == NewPathFromTopic(user.value, old(topic), ai.value.value)
      ensures sent.Some? && insert.Success? ==> topic == "" && !dialogOpen
      ensures !(sent.Some? && insert.Success?) ==> topic == old(topic) && dialogOpen == old(dialogOpen)
    {
      TrimEmptyIff(topic);
      sent := None;
      if Trim(topic) == "" || user.None? {
        return;
      }
      generating := true;
      if ai.Ok? && ai.value.Some? && ai.value.value.modules.Some? {
        var newPath := NewPathFromTopic(user.value, topic, ai.value.value);
        sent := Some(newPath);
        if insert.Success? {
          dialogOpen := false;
          topic := "";
        }
      }
      generating := false;
    }
  }
}
