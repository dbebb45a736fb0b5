/**
 * The decision between stories is exact: which story is selected, when a run escalates, and when it
 * reports completion.
 */
module SelectDecision {
  import opened Common
  import opened DependencyGraph
  import opened Orchestrator
  import opened OrchestratorRuns
  import opened RunSafety
  import Sorting

  function BacklogGraph(stories: seq<RuntimeStory>): Graph {
    GraphOf(DepsOf(stories))
  }

  lemma SelectionOrderIsTotal(collate: Collation)
    requires Sorting.TotalOrder(collate)
    ensures Sorting.TotalOrder(SelectionOrder(collate))
  {
    var leq := SelectionOrder(collate);
    assert forall a, b :: collate(a, b) || collate(b, a);
    forall a: SelectionKey, b: SelectionKey
      ensures leq(a, b) || leq(b, a)
      ensures leq(a, b) && leq(b, a) ==> a == b
    {
      assert collate(a.storyId, b.storyId) || collate(b.storyId, a.storyId);
    }
    forall a: SelectionKey, b: SelectionKey, c: SelectionKey | leq(a, b) && leq(b, c)
      ensures leq(a, c)
    {
    }
  }

  /** The chosen story is the least runnable one; there is no choice exactly when nothing is runnable. */
  lemma SelectsTheLeastRunnable(stories: seq<RuntimeStory>, collate: Collation)
    requires Sorting.TotalOrder(collate)
    ensures
      var choice := SelectNextRuntimeStory(stories, collate);
      if choice.None? then forall s | s in stories :: !Runnable(s, DoneIds(stories))
      else exists s | s in stories ::
             && choice == Some(s.storyId) && Runnable(s, DoneIds(stories))
             && forall t | t in stories && Runnable(t, DoneIds(stories)) :: Precedes(KeyOf(s), KeyOf(t), collate)
  {
    var done := DoneIds(stories);
    var order := SelectionOrder(collate);
    var candidates := Filter(stories, s => Runnable(s, done));
    if candidates != [] {
      SelectionOrderIsTotal(collate);
      Sorting.HeadIsLeast(candidates, KeyOf, order);
      var s := Sorting.Sort(candidates, KeyOf, order)[0];
      forall t | t in stories && Runnable(t, done)
        ensures Precedes(KeyOf(s), KeyOf(t), collate)
      {
        assert t in candidates && order(KeyOf(s), KeyOf(t));
      }
    }
  }

  /** Todo or ready, and for each dependency some story with that id is done. */
  ghost predicate CanRun(stories: seq<RuntimeStory>, s: RuntimeStory) {
    && (s.status == Todo || s.status == Ready)
    && forall d | d in s.dependsOn :: exists t | t in stories :: t.storyId == d && t.status == Done
  }

  /** Priority counts first, then the order index, then the id. */
  ghost predicate NotAfter(s: RuntimeStory, t: RuntimeStory, collate: Collation) {
    if s.priority != t.priority then s.priority < t.priority
    else if s.orderIndex != t.orderIndex then s.orderIndex < t.orderIndex
    else collate(s.storyId, t.storyId)
  }

  /** The selection in terms of the fields of stories only. */
  lemma SelectionByFields(stories: seq<RuntimeStory>, collate: Collation)
    requires Sorting.TotalOrder(collate)
    ensures
      var choice := SelectNextRuntimeStory(stories, collate);
      if choice.None? then forall s | s in stories :: !CanRun(stories, s)
      else exists s | s in stories ::
             && choice == Some(s.storyId) && CanRun(stories, s)
             && forall t | t in stories && CanRun(stories, t) :: NotAfter(s, t, collate)
  {
    SelectsTheLeastRunnable(stories, collate);
    forall s
      ensures Runnable(s, DoneIds(stories)) <==> CanRun(stories, s)
    {
    }
    forall s: RuntimeStory, t: RuntimeStory
      ensures Precedes(KeyOf(s), KeyOf(t), collate) <==> NotAfter(s, t, collate)
    {
    }
  }

  lemma {:induction false} StatusLookup(stories: seq<RuntimeStory>, i: nat)
    requires i < |stories| && Distinct(StoryIds(stories))
    ensures stories[i].storyId in StatusById(stories)
    ensures StatusById(stories)[stories[i].storyId] == stories[i].status
  {
    var n := |stories| - 1;
    if i < n {
      assert StoryIds(stories[..n]) == StoryIds(stories)[..n];
      assert StoryIds(stories)[i] != StoryIds(stories)[n];
      StatusLookup(stories[..n], i);
    }
  }

  lemma {:induction false} StatusKeys(stories: seq<RuntimeStory>)
    ensures forall id | id in StatusById(stories) :: id in StoryIds(stories)
  {
    if stories != [] {
      var n := |stories| - 1;
      StatusKeys(stories[..n]);
      assert StoryIds(stories) == StoryIds(stories[..n]) + [stories[n].storyId];
    }
  }

  function SelectableIds(stories: seq<RuntimeStory>): set<StoryId> {
    set s | s in stories && Selectable(s) :: s.storyId
  }

  lemma IndexOf(stories: seq<RuntimeStory>, s: RuntimeStory) returns (i: nat)
    requires s in stories
    ensures i < |stories| && stories[i] == s && StoryIds(stories)[i] == s.storyId
  {
    i :| 0 <= i < |stories| && stories[i] == s;
  }

  /** The status a story waits on: a dependency is done, selectable, blocked or escalated, or missing. */
  lemma DependencyCases(stories: seq<RuntimeStory>, d: StoryId)
    requires ProperIds(stories) && forall s | s in stories :: Settled(s.status)
    ensures d in StoryIds(stories) ==>
              || d in DoneIds(stories)
              || d in SelectableIds(stories)
              || (d in StatusById(stories) && (StatusById(stories)[d] == Blocked || StatusById(stories)[d] == Escalated))
    ensures d in StatusById(stories) && (StatusById(stories)[d] == Blocked || StatusById(stories)[d] == Escalated) ==>
              d in StoryIds(stories) && d !in DoneIds(stories) && d !in SelectableIds(stories)
  {
    StatusKeys(stories);
    if d in StoryIds(stories) {
      var i :| 0 <= i < |stories| && StoryIds(stories)[i] == d;
      StatusLookup(stories, i);
      assert stories[i] in stories;
      forall s | s in stories && s.storyId == d
        ensures s == stories[i]
      {
        var j := IndexOf(stories, s);
      }
    }
  }

  /** Somebody waits exactly if a todo or ready story depends on one that is blocked or escalated. */
  lemma WaitingByFields(stories: seq<RuntimeStory>)
    requires ProperIds(stories)
    ensures HasBlockedOrEscalatedDependency(stories) <==>
              exists s, t | s in stories && t in stories ::
                && (s.status == Todo || s.status == Ready) && t.storyId in s.dependsOn
                && (t.status == Blocked || t.status == Escalated)
  {
    if HasBlockedOrEscalatedDependency(stories) {
      var s :| s in stories && WaitsForHuman(s, StatusById(stories));
      var d :| d in s.dependsOn && d in StatusById(stories) && (StatusById(stories)[d] == Blocked || StatusById(stories)[d] == Escalated);
      var t := StoryOfStatus(stories, d);
    }
    if s, t :| && s in stories && t in stories && (s.status == Todo || s.status == Ready) && t.storyId in s.dependsOn
               && (t.status == Blocked || t.status == Escalated) {
      var j := IndexOf(stories, t);
      StatusLookup(stories, j);
      assert WaitsForHuman(s, StatusById(stories));
    }
  }

  /** On an acyclic backlog without dangling dependencies, an undecided story is runnable or waits for a human. */
  lemma {:induction false} SomethingRunsOrWaits(stories: seq<RuntimeStory>)
    requires ProperIds(stories) && forall s | s in stories :: Settled(s.status)
    requires Acyclic(BacklogGraph(stories)) && NoDangling(BacklogGraph(stories))
    requires SelectableIds(stories) != {}
    ensures (exists s | s in stories :: Runnable(s, DoneIds(stories))) || HasBlockedOrEscalatedDependency(stories)
    ensures (forall s | s in stories :: s.status == Todo || s.status == Ready || s.status == Done) ==>
              exists s | s in stories :: Runnable(s, DoneIds(stories))
  {
    var g := BacklogGraph(stories);
    DepsOfLookup(stories);
    var waiting := SelectableIds(stories);
    forall id | id in waiting
      ensures id in g
    {
      var s :| s in stories && s.storyId == id;
      var i := IndexOf(stories, s);
    }
    var id := LowestMember(g, waiting);
    var s :| s in stories && Selectable(s) && s.storyId == id;
    var i := IndexOf(stories, s);
    assert g[id] == s.dependsOn;
    if !Runnable(s, DoneIds(stories)) {
      var d :| d in s.dependsOn && d !in DoneIds(stories);
      assert d in g && d !in waiting;
      DependencyCases(stories, d);
      assert WaitsForHuman(s, StatusById(stories));
      var t := StoryOfStatus(stories, d);
    }
  }

  lemma StoryOfStatus(stories: seq<RuntimeStory>, d: StoryId) returns (s: RuntimeStory)
    requires ProperIds(stories) && d in StatusById(stories)
    ensures s in stories && s.storyId == d && s.status == StatusById(stories)[d]
  {
    StatusKeys(stories);
    var j :| 0 <= j < |stories| && StoryIds(stories)[j] == d;
    StatusLookup(stories, j);
    s := stories[j];
  }

  ghost predicate NothingRunnable(stories: seq<RuntimeStory>) {
    forall s | s in stories :: !Runnable(s, DoneIds(stories))
  }

  /** What the three outcomes between stories depend on. */
  lemma BetweenDecision(st: TrackerState, collate: Collation)
    requires Sorting.TotalOrder(collate)
    requires WellShaped(st) && BetweenStories(st) && st.iterationsUsed < st.runIterationBudget
    ensures
      var d := DecideNextAction(st, collate);
      if SelectableIds(st.stories) == {} then d.action == StopRun && d.reason == Some(AllStoriesComplete)
      else if !NothingRunnable(st.stories) then
        d.action == SelectNextStory && d.storyId == SelectNextRuntimeStory(st.stories, collate) && d.reason.None?
      else if HasBlockedOrEscalatedDependency(st.stories) then d.action == EscalateHuman && d.reason == Some(BlockedDependency)
      else d.action == StopRun && d.reason == Some(AllStoriesComplete)
  {
    var stories := st.stories;
    SelectsTheLeastRunnable(stories, collate);
    forall s | s in stories
      ensures s.storyId != ""
    {
      var i := IndexOf(stories, s);
    }
    if SelectableIds(stories) == {} {
      forall s | s in stories
        ensures !Selectable(s)
      {
        assert Selectable(s) ==> s.storyId in SelectableIds(stories);
      }
    } else {
      var s :| s in stories && Selectable(s);
      assert s.status != Done;
    }
  }

  /**
   * Between stories, with run budget left, on an acyclic backlog without dangling dependencies:
   * select the least runnable story if there is one; escalate exactly when stories remain to be
   * done but none can run; report completion exactly when none remain.
   */
  lemma {:induction false} SelectDecisionIsExact(st: TrackerState, collate: Collation)
    requires Sorting.TotalOrder(collate)
    requires WellShaped(st) && BetweenStories(st) && st.iterationsUsed < st.runIterationBudget
    requires Acyclic(BacklogGraph(st.stories)) && NoDangling(BacklogGraph(st.stories))
    ensures
      var d, done := DecideNextAction(st, collate), DoneIds(st.stories);
      && (d.action == SelectNextStory <==> !NothingRunnable(st.stories))
      && (d.action == SelectNextStory ==>
            exists s | s in st.stories ::
              && d.storyId == Some(s.storyId) && Runnable(s, done)
              && forall t | t in st.stories && Runnable(t, done) :: Precedes(KeyOf(s), KeyOf(t), collate))
      && (d.action == EscalateHuman <==> SelectableIds(st.stories) != {} && NothingRunnable(st.stories))
      && (d.action == StopRun <==> SelectableIds(st.stories) == {})
      && (d.action == StopRun ==> d.reason == Some(AllStoriesComplete))
  {
    BetweenDecision(st, collate);
    SelectsTheLeastRunnable(st.stories, collate);
    if SelectableIds(st.stories) == {} {
      RunnableIsSelectable(st.stories);
    } else {
      SomethingRunsOrWaits(st.stories);
    }
  }

  /** For instance a single story whose only dependency is not in the backlog. */
  lemma CompletionOverOneStory(st: TrackerState, s: RuntimeStory, collate: Collation)
    requires Sorting.TotalOrder(collate)
    requires WellShaped(st) && BetweenStories(st) && st.iterationsUsed < st.runIterationBudget
    requires st.stories == [s] && s.status == Todo && |s.dependsOn| == 1 && s.dependsOn[0] != s.storyId
    ensures DecideNextAction(st, collate).reason == Some(AllStoriesComplete)
    ensures !(forall t | t in st.stories :: t.status == Done)
  {
    assert s in st.stories && s.storyId in SelectableIds(st.stories);
    assert StoryIds(st.stories) == [s.storyId];
    assert s.dependsOn[0] in s.dependsOn && DoneIds(st.stories) == {};
    assert forall d | d in s.dependsOn :: d == s.dependsOn[0];
    CompletionOverUnfinishedWork(st, collate);
  }

  lemma RunnableIsSelectable(stories: seq<RuntimeStory>)
    ensures SelectableIds(stories) == {} ==> NothingRunnable(stories)
  {
    forall s | s in stories && Selectable(s)
      ensures s.storyId in SelectableIds(stories)
    {
    }
  }

  /**
   * In general completion is reported over unfinished work exactly when every story still to be
   * done has an unfinished dependency, and each of those is missing or itself still to be done.
   */
  lemma {:induction false} CompletionOverUnfinishedWork(st: TrackerState, collate: Collation)
    requires Sorting.TotalOrder(collate)
    requires WellShaped(st) && BetweenStories(st) && st.iterationsUsed < st.runIterationBudget
    requires SelectableIds(st.stories) != {}
    ensures
      DecideNextAction(st, collate).reason == Some(AllStoriesComplete) <==>
      forall s | s in st.stories && Selectable(s) ::
        && !DependenciesDone(s, DoneIds(st.stories))
        && forall d | d in s.dependsOn && d !in DoneIds(st.stories) ::
             d !in StoryIds(st.stories) || d in SelectableIds(st.stories)
  {
    var stories := st.stories;
    BetweenDecision(st, collate);
    forall id {
      DependencyCases(stories, id);
    }
    if NothingRunnable(stories) {
      if HasBlockedOrEscalatedDependency(stories) {
        var s :| s in stories && WaitsForHuman(s, StatusById(stories));
        var b :| b in s.dependsOn && b in StatusById(stories) && (StatusById(stories)[b] == Blocked || StatusById(stories)[b] == Escalated);
        assert b in StoryIds(stories) && b !in SelectableIds(stories) && b !in DoneIds(stories);
      } else {
        forall s, b | s in stories && Selectable(s) && b in s.dependsOn && b !in DoneIds(stories)
          ensures b !in StoryIds(stories) || b in SelectableIds(stories)
        {
          assert !WaitsForHuman(s, StatusById(stories));
        }
        assert forall s | s in stories && Selectable(s) :: !Runnable(s, DoneIds(stories));
      }
    }
  }
}
