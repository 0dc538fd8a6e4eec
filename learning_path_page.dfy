/** The page that holds the user's single learning path: pick interests,
    generate a path for them, tick modules off. */
module LearningPathPage {
  import opened Wrappers
  import opened Text
  import opened Records
  import opened LearningPaths
  import Numbers
  import LearningPathDetailPage

  /** `list.filter(i => i !== x)` */
  function RemoveAll(xs: seq<string>, x: string): (r: seq<string>)
    ensures x !in r
    ensures forall y :: y in r <==> y in xs && y != x
    ensures |r| <= |xs|
  {
    if xs == [] then []
    else (if xs[0] == x then [] else [xs[0]]) + RemoveAll(xs[1..], x)
  }

  /** Removing an element that is not there changes nothing. */
  lemma {:induction false} RemoveAbsent(xs: seq<string>, x: string)
    requires x !in xs
    ensures RemoveAll(xs, x) == xs
  {
    if xs != [] {
      RemoveAbsent(xs[1..], x);
    }
  }

  /** The other elements keep their relative order: if y comes before z in the list,
      it still comes before z once x is removed. */
  lemma {:induction false} RemoveKeepsOrder(xs: seq<string>, x: string, i: nat, j: nat)
    requires i < j < |xs| && xs[i] != x && xs[j] != x
    ensures exists i', j' :: 0 <= i' < j' < |RemoveAll(xs, x)| && RemoveAll(xs, x)[i'] == xs[i] && RemoveAll(xs, x)[j'] == xs[j]
  {
    var rest := RemoveAll(xs[1..], x);
    assert xs[j] == xs[1..][j - 1];
    if i == 0 {
      assert xs[j] in rest;
      var j0 :| 0 <= j0 < |rest| && rest[j0] == xs[j];
      assert RemoveAll(xs, x) == [xs[0]] + rest;
      assert RemoveAll(xs, x)[0] == xs[i] && RemoveAll(xs, x)[j0 + 1] == xs[j];
    } else {
      assert xs[i] == xs[1..][i - 1];
      RemoveKeepsOrder(xs[1..], x, i - 1, j - 1);
      var i0, j0 :| 0 <= i0 < j0 < |rest| && rest[i0] == xs[i] && rest[j0] == xs[j];
      var head := if xs[0] == x then [] else [xs[0]];
      assert RemoveAll(xs, x) == head + rest;
      assert RemoveAll(xs, x)[|head| + i0] == xs[i];
      assert RemoveAll(xs, x)[|head| + j0] == xs[j];
    }
  }

  /** Removal keeps a duplicate-free list duplicate-free. */
  lemma {:induction false} RemoveKeepsDistinct(xs: seq<string>, x: string)
    requires Distinct(xs)
    ensures Distinct(RemoveAll(xs, x))
  {
    if xs != [] {
      assert Distinct(xs[1..]) by {
        forall i, j | 0 <= i < j < |xs[1..]| ensures xs[1..][i] != xs[1..][j] {
          assert xs[1..][i] == xs[i + 1] && xs[1..][j] == xs[j + 1];
        }
      }
      RemoveKeepsDistinct(xs[1..], x);
      var rest := RemoveAll(xs[1..], x);
      if xs[0] != x {
        assert xs[0] !in xs[1..];
        assert xs[0] !in rest;
        var r := [xs[0]] + rest;
        forall i, j | 0 <= i < j < |r| ensures r[i] != r[j] {
          if i == 0 {
            assert r[j] == rest[j - 1];
          } else {
            assert r[i] == rest[i - 1] && r[j] == rest[j - 1];
          }
        }
      }
    }
  }

  predicate Distinct(xs: seq<string>) {
    forall i, j :: 0 <= i < j < |xs| ==> xs[i] != xs[j]
  }

  /** handleInterestChange: a selected interest is removed, any other is appended. */
  function ToggleInterest(selected: seq<string>, interest: string): (r: seq<string>)
    ensures interest in selected ==> r == RemoveAll(selected, interest)
    ensures interest !in selected ==> r == selected + [interest]
    ensures interest in r <==> interest !in selected
  {
    if interest in selected then RemoveAll(selected, interest) else selected + [interest]
  }

  /** Toggling never introduces a duplicate. */
  lemma ToggleKeepsDistinct(selected: seq<string>, interest: string)
    requires Distinct(selected)
    ensures Distinct(ToggleInterest(selected, interest))
  {
    if interest in selected {
      RemoveKeepsDistinct(selected, interest);
    }
  }

  /** Toggling an interest that was not selected twice gives the list back. */
  lemma ToggleTwiceAbsent(selected: seq<string>, interest: string)
    requires interest !in selected
    ensures ToggleInterest(ToggleInterest(selected, interest), interest) == selected
  {
    var once := selected + [interest];
    assert RemoveAll(once, interest) == RemoveAll(selected, interest) + RemoveAll([interest], interest) by {
      RemoveAppend(selected, [interest], interest);
    }
    RemoveAbsent(selected, interest);
  }

  lemma {:induction false} RemoveAppend(xs: seq<string>, ys: seq<string>, x: string)
    ensures RemoveAll(xs + ys, x) == RemoveAll(xs, x) + RemoveAll(ys, x)
  {
    if xs != [] {
      assert (xs + ys)[1..] == xs[1..] + ys;
      RemoveAppend(xs[1..], ys, x);
    } else {
      assert xs + ys == ys;
    }
  }

  /** The row generateLearningPath inserts: the interests as topics, a beginner path of
      20 hours at progress 0 with every module open, the AI's resources, and a title that
      falls back to one naming the interests. */
  function NewPathFromInterests(userId: string, interests: seq<string>, data: PathData): (p: NewPath)
    requires data.modules.Some?
    ensures p.userId == userId && p.topics == interests
    ensures p.title == TitleOr(data.title, "Learning Path for " + Join(interests, ", "))
    ensures p.description == data.description && p.resources == data.recommendedResources
    ensures p.difficulty == Beginner && p.estimatedDuration == 20 && p.progress == 0 && p.aiGenerated
    ensures p.milestones == InitialMilestones(data.modules.value)
  {
    NewPath(userId, TitleOr(data.title, "Learning Path for " + Join(interests, ", ")), data.description,
      interests, Beginner, 20, 0, true, data.recommendedResources, InitialMilestones(data.modules.value))
  }

  /** The fallback title names every selected interest. */
  lemma FallbackTitleNamesInterests(userId: string, interests: seq<string>, data: PathData, k: nat)
    requires data.modules.Some? && k < |interests|
    requires data.title.None? || data.title.value == ""
    ensures Contains(NewPathFromInterests(userId, interests, data).title, interests[k])
  {
    var j := Join(interests, ", ");
    var t := "Learning Path for " + j;
    JoinContainsEach(interests, ", ", k);
    var i :| 0 <= i <= |j| - |interests[k]| && OccursAt(j, interests[k], i);
    assert t[18 + i..18 + i + |interests[k]|] == j[i..i + |interests[k]|];
    assert OccursAt(t, interests[k], 18 + i);
  }

  /** A freshly generated path is consistent: progress 0 agrees with its open milestones. */
  lemma NewPathProgressAgrees(userId: string, interests: seq<string>, data: PathData)
    requires data.modules.Some?
    ensures var p := NewPathFromInterests(userId, interests, data); ProgressAgrees(p.progress, p.milestones)
  {
    InitialProgressAgrees(data.modules.value);
  }

  /** getResourceIcon on this page: the documentation branch tests only "docs". */
  function ResourceIconFor(kind: string): (icon: ResourceIcon)
    ensures icon == VideoIcon <==> Contains(ToLower(kind), "video")
    ensures icon == ArticleIcon <==>
              (!Contains(ToLower(kind), "video") && (Contains(ToLower(kind), "article") || Contains(ToLower(kind), "blog")))
    ensures icon == PlainIcon <==>
              (!Contains(ToLower(kind), "video") && !Contains(ToLower(kind), "article")
               && !Contains(ToLower(kind), "blog") && !Contains(ToLower(kind), "docs"))
    ensures icon == DocsIcon <==>
              (!Contains(ToLower(kind), "video") && !Contains(ToLower(kind), "article")
               && !Contains(ToLower(kind), "blog") && Contains(ToLower(kind), "docs"))
  {
    var t := ToLower(kind);
    if Contains(t, "video") then VideoIcon
    else if Contains(t, "article") || Contains(t, "blog") then ArticleIcon
    else if Contains(t, "docs") then DocsIcon
    else PlainIcon
  }

  /** The two pages agree on every type except those that mention "documentation" but not
      "docs" (and none of the earlier words). */
  lemma IconsAgreeUnlessDocumentation(kind: string)
    ensures ResourceIconFor(kind) != LearningPathDetailPage.ResourceIconFor(kind) <==>
              (var t := ToLower(kind);
               !Contains(t, "video") && !Contains(t, "article") && !Contains(t, "blog")
               && !Contains(t, "docs") && Contains(t, "documentation"))
  {
  }

  /** The resource type "Documentation", which the learning-path prompt offers, gets no
      documentation icon on this page. */
  lemma DocumentationGetsPlainIcon(kind: string)
    requires kind == "Documentation"
    ensures ResourceIconFor(kind) == PlainIcon
  {
    ToLowerOfCapitalised(kind);
    assert ToLower(kind) == "documentation";
    DocumentationMentions(ToLower(kind));
  }

  /** The two pages give "Documentation" different icons; the detail page's is the intended one. */
  lemma DocumentationIconsDiffer()
    ensures ResourceIconFor("Documentation") == PlainIcon
    ensures LearningPathDetailPage.ResourceIconFor("Documentation") == DocsIcon
  {
    DocumentationGetsPlainIcon("Documentation");
    LearningPathDetailPage.DocumentationGetsDocsIcon("Documentation");
  }

  /** The page state: the loaded path (milestone objects as array cells, as on the detail
      page), the selected interests and the generating flag. */
  class PathPage {
    var path: Option<PathRow>
    var milestones: array?<Milestone>
    var selected: seq<string>
    var generating: bool

    /** The state once fetchLearningPath has stored what the store returned (nothing
        when there is no row). */
    constructor (fetched: Option<LearningPath>)
      ensures selected == [] && !generating
      ensures path == if fetched.Some? then Some(fetched.value.row) else None
      ensures fetched.Some? && fetched.value.milestones.Some? <==> milestones != null
      ensures milestones != null ==> fresh(milestones) && milestones[..] == fetched.value.milestones.value
    {
      selected, generating := [], false;
      if fetched.None? {
        path, milestones := None, null;
      } else {
        path := Some(fetched.value.row);
        match fetched.value.milestones
        case None =>
          milestones := null;
        case Some(ms) =>
          var cells := new Milestone[|ms|](i requires 0 <= i < |ms| => ms[i]);
          assert cells[..] == ms;
          milestones := cells;
      }
    }

    /** handleInterestChange */
    method InterestChange(interest: string)
      modifies this
      ensures selected == ToggleInterest(old(selected), interest)
      ensures path == old(path) && milestones == old(milestones) && generating == old(generating)
    {
      selected := ToggleInterest(selected, interest);
    }

    /** generateLearningPath. `ai` is what the generator returned (None when its text did not
        parse); `insert` is the store's answer, the new row's id on success. The page shows
        the stored path only when both steps succeed. */
    method Generate(user: Option<string>, ai: Result<Option<PathData>>, insert: Result<string>)
      returns (sent: Option<NewPath>)
      modifies this
      ensures selected == old(selected)
      ensures generating == if |old(selected)| == 0 || user.None? then old(generating) else false
      ensures sent.Some? <==>
                (|selected| > 0 && user.Some? && ai.Ok? && ai.value.Some? && ai.value.value.modules.Some?)
      ensures sent.Some? ==> sent.value == NewPathFromInterests(user.value, selected, ai.value.value)
      ensures sent.Some? && insert.Ok? ==>
                path == Some(StoredRow(insert.value, sent.value)) && milestones != null
                && fresh(milestones) && milestones[..] == sent.value.milestones
      ensures !(sent.Some? && insert.Ok?) ==> path == old(path) && milestones == old(milestones)
    {
      sent := None;
      if |selected| == 0 || user.None? {
        return;
      }
      generating := true;
      if ai.Ok? && ai.value.Some? && ai.value.value.modules.Some? {
        var newPath := NewPathFromInterests(user.value, selected, ai.value.value);
        sent := Some(newPath);
        if insert.Ok? {
          var ms := newPath.milestones;
          var cells := new Milestone[|ms|](i requires 0 <= i < |ms| => ms[i]);
          assert cells[..] == ms;
          path, milestones := Some(StoredRow(insert.value, newPath)), cells;
        }
      }
      generating := false;
    }

    /** toggleModuleCompletion on this page: as on the detail page, but a failed update
        leaves the flipped flag in place and the progress as it was. */
    method ToggleModuleCompletion(k: nat, update: Status) returns (sent: Option<PathUpdate>)
      requires path.Some? && milestones != null ==> k < milestones.Length
      modifies this, milestones
      ensures milestones == old(milestones) && selected == old(selected) && generating == old(generating)
      ensures sent.Some? <==> old(path).Some? && milestones != null
      ensures sent.Some? ==> sent.value == PathUpdate(old(path).value.id, Flip(old(milestones[..]), k), Progress(Flip(old(milestones[..]), k)))
      ensures milestones != null && sent.Some? ==> milestones[..] == Flip(old(milestones[..]), k)
      ensures milestones != null && sent.None? ==> milestones[..] == old(milestones[..])
      ensures path == if sent.Some? && update.Success? then Some(old(path).value.(progress := sent.value.progress)) else old(path)
    {
      if path.None? || milestones == null {
        return None;
      }
      var before := milestones[..];
      milestones[k] := milestones[k].(completed := !milestones[k].completed);
      var updated := milestones[..];
      assert updated == Flip(before, k);
      var newProgress := Progress(updated);
      sent := Some(PathUpdate(path.value.id, updated, newProgress));
      if update.Success? {
        path := Some(path.value.(progress := newProgress));
      }
    }

    predicate ProgressConsistent()
      reads this, milestones
    {
      path.Some? && milestones != null ==> ProgressAgrees(path.value.progress, milestones[..])
    }
  }

  /** Without the revert, a failed update leaves the shown flags out of step with the held
      progress: for a single open module, the flag reads completed while progress stays 0. */
  method FailedToggleBreaksConsistency(page: PathPage, update: Status)
    requires page.path.Some? && page.milestones != null && page.milestones.Length == 1
    requires !page.milestones[0].completed && page.path.value.progress == 0
    requires update.Failure?
    modifies page, page.milestones
    ensures !page.ProgressConsistent()
  {
    var _ := page.ToggleModuleCompletion(0, update);
    var ms := page.milestones[..];
    assert CompletedCount(ms) == 1 by {
      assert ms[..0] == [];
    }
    Numbers.RoundUnique(Numbers.Fraction(100, 1), 100);
  }
}
