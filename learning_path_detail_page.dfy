/** The page that shows one stored learning path and lets the user tick its
    modules off. */
module LearningPathDetailPage {
  import opened Wrappers
  import opened Text
  import opened Records
  import opened LearningPaths

  /** The page state. `milestones` stands for the milestone objects of the loaded
      path; the handler copies the list by reference, so writing a cell is the
      in-place change of the shared object. A path without a milestone list has
      `milestones == null`. */
  class DetailView {
    var path: Option<PathRow>
    var milestones: array?<Milestone>

    /** The learning path the page holds, if any. */
    function Shown(): Option<LearningPath>
      reads this, milestones
    {
      if path.None? then None
      else Some(LearningPath(path.value, if milestones == null then None else Some(milestones[..])))
    }

    /** The state once fetchLearningPath has stored what the store returned. */
    constructor (fetched: Option<LearningPath>)
      ensures Shown() == fetched
      ensures milestones != null ==> fresh(milestones)
    {
      if fetched.None? {
        path, milestones := None, null;
      } else {
        path := Some(fetched.value.row);
        match fetched.value.milestones
        case None =>
          milestones := null;
        case Some(ms) =>
          var cells := new Milestone[|ms|](i requires 0 <= i < |ms| => ms[i]);
          assert cells[..] == ms;
          milestones := cells;
      }
    }

    /** toggleModuleCompletion: flip milestone k, send the list and the recomputed
        progress, and flip the milestone back when the store reports an error. */
    method ToggleModuleCompletion(k: nat, update: Status) returns (sent: Option<PathUpdate>)
      requires path.Some? && milestones != null ==> k < milestones.Length
      modifies this, milestones
      ensures milestones == old(milestones)
      ensures sent.Some? <==> old(path).Some? && milestones != null
      ensures sent.Some? ==> sent.value == PathUpdate(old(path).value.id, Flip(old(milestones[..]), k), Progress(Flip(old(milestones[..]), k)))
      ensures milestones != null && sent.Some? && update.Success? ==> milestones[..] == Flip(old(milestones[..]), k)
      ensures milestones != null && (sent.None? || update.Failure?) ==> milestones[..] == old(milestones[..])
      ensures path == if sent.Some? && update.Success? then Some(old(path).value.(progress := sent.value.progress)) else old(path)
    {
      if path.None? || milestones == null {
        return None;
      }
      var before := milestones[..];
      milestones[k] := milestones[k].(completed := !milestones[k].completed);
      var updated := milestones[..];
      assert updated == Flip(before, k);
      var newProgress := Progress(updated);
      sent := Some(PathUpdate(path.value.id, updated, newProgress));
      if update.Failure? {
        milestones[k] := milestones[k].(completed := !milestones[k].completed);
        assert milestones[..] == Flip(updated, k);
        FlipTwice(before, k);
      } else {
        path := Some(path.value.(progress := newProgress));
      }
    }

    /** Whether the held path's progress agrees with its milestones. */
    predicate ProgressConsistent()
      reads this, milestones
    {
      path.Some? && milestones != null ==> ProgressAgrees(path.value.progress, milestones[..])
    }
  }

  /** A toggle keeps the held progress in step with the milestones, whatever the store answers. */
  method ToggleKeepsProgressConsistent(view: DetailView, k: nat, update: Status)
    requires view.path.Some? && view.milestones != null ==> k < view.milestones.Length
    requires view.ProgressConsistent()
    modifies view, view.milestones
    ensures view.ProgressConsistent()
  {
    var _ := view.ToggleModuleCompletion(k, update);
  }

  /** getResourceIcon: the first of video, article/blog, docs/documentation that the
      lower-cased type mentions decides the icon. */
  function ResourceIconFor(kind: string): (icon: ResourceIcon)
    ensures icon == VideoIcon <==> Contains(ToLower(kind), "video")
    ensures icon == ArticleIcon <==>
              (!Contains(ToLower(kind), "video") && (Contains(ToLower(kind), "article") || Contains(ToLower(kind), "blog")))
    ensures icon == DocsIcon <==>
              (!Contains(ToLower(kind), "video") && !Contains(ToLower(kind), "article") && !Contains(ToLower(kind), "blog")
               && (Contains(ToLower(kind), "docs") || Contains(ToLower(kind), "documentation")))
    ensures icon == PlainIcon <==>
              (!Contains(ToLower(kind), "video") && !Contains(ToLower(kind), "article") && !Contains(ToLower(kind), "blog")
               && !Contains(ToLower(kind), "docs") && !Contains(ToLower(kind), "documentation"))
  {
    var t := ToLower(kind);
    if Contains(t, "video") then VideoIcon
    else if Contains(t, "article") || Contains(t, "blog") then ArticleIcon
    else if Contains(t, "docs") || Contains(t, "documentation") then DocsIcon
    else PlainIcon
  }

  /** The classification ignores letter case. */
  lemma ResourceIconIgnoresCase(kind: string)
    ensures ResourceIconFor(kind) == ResourceIconFor(ToLower(kind))
  {
    ToLowerIdempotent(kind);
  }

  /** The resource types the learning-path prompt asks the AI for get their intended icons. */
  lemma VideoGetsVideoIcon(kind: string)
    requires kind == "Video"
    ensures ResourceIconFor(kind) == VideoIcon
  {
    ToLowerOfCapitalised(kind);
    assert ToLower(kind) == "video";
    assert OccursAt("video", "video", 0);
  }

  lemma ArticleGetsArticleIcon(kind: string)
    requires kind == "Article"
    ensures ResourceIconFor(kind) == ArticleIcon
  {
    ToLowerOfCapitalised(kind);
    assert ToLower(kind) == "article";
    NotContainsMissingChar("article", "video", 'v');
    assert OccursAt("article", "article", 0);
  }

  lemma DocumentationGetsDocsIcon(kind: string)
    requires kind == "Documentation"
    ensures ResourceIconFor(kind) == DocsIcon
  {
    ToLowerOfCapitalised(kind);
    assert ToLower(kind) == "documentation";
    DocumentationMentions(ToLower(kind));
  }

  /** "interactive tutorial" mentions none of the keywords: its only `v` is followed
      by `e`, its `r`s by `a` and `i`, and it has no `b` or `d`. */
  lemma InteractiveTutorialMentionsNothing(t: string)
    requires t == "interactive tutorial"
    ensures !Contains(t, "video") && !Contains(t, "article") && !Contains(t, "blog")
    ensures !Contains(t, "docs") && !Contains(t, "documentation")
  {
    NotContainsMissingPair(t, "video", 0);
    NotContainsMissingPair(t, "article", 1);
    NotContainsMissingChar(t, "blog", 'b');
    NotContainsMissingChar(t, "docs", 'd');
    NotContainsMissingChar(t, "documentation", 'd');
  }

  lemma InteractiveTutorialGetsPlainIcon(kind: string)
    requires kind == "Interactive Tutorial"
    ensures ResourceIconFor(kind) == PlainIcon
  {
    var t := ToLower(kind);
    assert t == "interactive tutorial" by {
      assert |t| == 20;
      assert forall i :: 0 <= i < 20 ==> t[i] == LowerChar(kind[i]);
    }
    InteractiveTutorialMentionsNothing(t);
  }
}
