/**
 * What holds in every state of every run: conservation of attempts and of the log, dependency
 * safety, and the finality of an escalation.
 */
module RunSafety {
  import opened Common
  import opened DependencyGraph
  import opened Orchestrator
  import opened OrchestratorRuns

  // ----- conservation -----

  predicate Is(e: Entry, action: Action, id: StoryId) {
    e.decision.action == action && e.decision.storyId == Some(id)
  }

  function Developed(history: seq<Entry>, id: StoryId): nat {
    if history == [] then 0
    else
      var n := |history| - 1;
      Developed(history[..n], id) + if Is(history[n], DevelopPatch, id) then 1 else 0
  }

  function Decisions(history: seq<Entry>): seq<RuntimeDecision> {
    seq(|history|, i requires 0 <= i < |history| => history[i].decision)
  }

  lemma TickLogs(st: TrackerState, result: ActionResult, collate: Collation)
    ensures
      var d := DecideNextAction(st, collate);
      var after := AdvanceTrackerState(st, d, result);
      && d.tick == st.iterationsUsed
      && after.decisionLog == st.decisionLog + [d]
      && after.iterationsUsed == st.iterationsUsed + 1
      && after.runIterationBudget == st.runIterationBudget
  {
  }

  ghost predicate LogMatches(start: TrackerState, run: Run) {
    && run.now.decisionLog == start.decisionLog + Decisions(run.history)
    && run.now.iterationsUsed == start.iterationsUsed + |run.history|
    && forall i | 0 <= i < |run.history| :: run.history[i].decision.tick == start.iterationsUsed + i
  }

  lemma LogExtends(start: TrackerState, run: Run, next: Run)
    requires LogMatches(start, run)
    requires |next.history| == |run.history| + 1 && next.history[..|run.history|] == run.history
    requires next.history[|run.history|].decision.tick == run.now.iterationsUsed
    requires next.now.decisionLog == run.now.decisionLog + [next.history[|run.history|].decision]
    requires next.now.iterationsUsed == run.now.iterationsUsed + 1
    ensures LogMatches(start, next)
  {
    assert Decisions(next.history) == Decisions(run.history) + [next.history[|run.history|].decision];
    forall i | 0 <= i < |run.history|
      ensures next.history[i] == run.history[i]
    {
      assert next.history[..|run.history|][i] == run.history[i];
    }
  }

  /** The log is append-only and grows exactly as the tick counter does. */
  lemma {:induction false} LogIsConserved(start: TrackerState, events: seq<Event>, collate: Collation)
    ensures LogMatches(start, Execute(start, events, collate))
  {
    if events != [] {
      var n := |events| - 1;
      LogIsConserved(start, events[..n], collate);
      var run := Execute(start, events[..n], collate);
      if events[n].Tick? {
        TickLogs(run.now, events[n].result, collate);
        LogExtends(start, run, Step(run, events[n], collate));
      }
    }
  }

  lemma {:induction false} StepCountsAttempts(run: Run, event: Event, collate: Collation, i: nat)
    requires WellShaped(run.now) && i < |run.now.stories|
    ensures
      var s, next := run.now.stories[i], Step(run, event, collate);
      && |next.now.stories| == |run.now.stories|
      && next.now.stories[i].attempts - s.attempts == Developed(next.history, s.storyId) - Developed(run.history, s.storyId)
      && next.now.stories[i].attempts <= Max(s.attempts, s.attemptBudget)
  {
    var st, next := run.now, Step(run, event, collate);
    if event.Tick? {
      assert next.history[..|run.history|] == run.history;
      if Halted(st) {
        TickHalted(st, event.result, collate);
      } else if BetweenStories(st) {
        var k := TickBetween(st, event.result, collate);
      } else {
        var k: nat :| ActiveAt(st, k);
        TickInFlight(st, k, event.result, collate);
        TickMovesPhase(st, k, event.result, collate);
        assert StoryIds(st.stories)[i] == st.stories[i].storyId && StoryIds(st.stories)[k] == st.stories[k].storyId;
      }
    }
  }

  /** Attempts are spent only by `develop_patch`, one each, and never beyond the budget. */
  lemma {:induction false} AttemptsAreConserved(start: TrackerState, events: seq<Event>, collate: Collation, i: nat)
    requires WellFormedStart(start) && i < |start.stories|
    ensures
      var run := Execute(start, events, collate);
      && |run.now.stories| == |start.stories|
      && run.now.stories[i].attempts == start.stories[i].attempts + Developed(run.history, start.stories[i].storyId)
      && run.now.stories[i].attempts <= Max(start.stories[i].attempts, start.stories[i].attemptBudget)
  {
    if events != [] {
      var n := |events| - 1;
      AttemptsAreConserved(start, events[..n], collate, i);
      RunKeepsShape(start, events[..n], collate);
      StepCountsAttempts(Execute(start, events[..n], collate), events[n], collate, i);
    }
  }

  // ----- dependency safety -----

  ghost predicate DoneIsClosed(stories: seq<RuntimeStory>) {
    forall s | s in stories && s.status == Done :: DependenciesDone(s, DoneIds(stories))
  }

  lemma {:induction false} StepKeepsDoneClosed(run: Run, event: Event, collate: Collation)
    requires WellShaped(run.now) && DoneIsClosed(run.now.stories)
    ensures DoneIsClosed(Step(run, event, collate).now.stories)
  {
    var st, after := run.now, Step(run, event, collate).now;
    StepKeepsShape(run, event, collate);
    if event.Tick? && !Halted(st) {
      var k: nat;
      if BetweenStories(st) {
        k := TickBetween(st, event.result, collate);
      } else {
        k :| ActiveAt(st, k);
        TickInFlight(st, k, event.result, collate);
      }
      forall s | s in after.stories && s.status == Done
        ensures DependenciesDone(s, DoneIds(after.stories))
      {
        var i :| 0 <= i < |after.stories| && after.stories[i] == s;
        if i != k {
          assert s == st.stories[i] && s in st.stories;
        } else if BetweenStories(st) {
          assert s in st.stories;
        }
      }
    } else if event.Tick? {
      TickHalted(st, event.result, collate);
    }
  }

  /** A dependency-closed set of done stories stays dependency-closed and only grows. */
  lemma {:induction false} DoneStaysClosed(start: TrackerState, events: seq<Event>, collate: Collation)
    requires WellFormedStart(start) && DoneIsClosed(start.stories)
    ensures DoneIsClosed(Execute(start, events, collate).now.stories)
    ensures DoneIds(start.stories) <= DoneIds(Execute(start, events, collate).now.stories)
  {
    RunKeepsShape(start, events, collate);
    if events != [] {
      var n := |events| - 1;
      DoneStaysClosed(start, events[..n], collate);
      RunKeepsShape(start, events[..n], collate);
      StepKeepsDoneClosed(Execute(start, events[..n], collate), events[n], collate);
    }
  }

  ghost predicate MarkedBefore(history: seq<Entry>, n: nat, id: StoryId)
    requires n <= |history|
  {
    exists j | 0 <= j < n :: Is(history[j], MarkStoryDone, id)
  }

  /** `mark_story_done` entries: each after its dependencies, none twice, none for a story done at the start. */
  ghost predicate MarksAreOrdered(start: TrackerState, history: seq<Entry>) {
    forall i | 0 <= i < |history| && history[i].decision.action == MarkStoryDone ::
      exists k | 0 <= k < |start.stories| ::
        && Is(history[i], MarkStoryDone, start.stories[k].storyId)
        && start.stories[k].storyId !in DoneIds(start.stories)
        && !MarkedBefore(history, i, start.stories[k].storyId)
        && forall d | d in start.stories[k].dependsOn :: d in DoneIds(start.stories) || MarkedBefore(history, i, d)
  }

  ghost predicate DoneMeansMarked(start: TrackerState, run: Run) {
    forall id :: id in DoneIds(run.now.stories) <==>
                 id in DoneIds(start.stories) || MarkedBefore(run.history, |run.history|, id)
  }

  lemma NotDoneAt(stories: seq<RuntimeStory>, k: nat)
    requires ProperIds(stories) && k < |stories| && stories[k].status != Done
    ensures stories[k].storyId !in DoneIds(stories)
  {
    forall s | s in stories && s.status == Done
      ensures s.storyId != stories[k].storyId
    {
      var i :| 0 <= i < |stories| && stories[i] == s;
      assert StoryIds(stories)[i] == s.storyId && StoryIds(stories)[k] == stories[k].storyId;
    }
  }

  lemma MarkedExtends(history: seq<Entry>, e: Entry, id: StoryId)
    ensures MarkedBefore(history + [e], |history| + 1, id) <==>
            MarkedBefore(history, |history|, id) || Is(e, MarkStoryDone, id)
    ensures forall n: nat | n <= |history| :: MarkedBefore(history + [e], n, id) <==> MarkedBefore(history, n, id)
  {
    var h := history + [e];
    assert h[|history|] == e;
    forall n: nat | n <= |history|
      ensures MarkedBefore(h, n, id) <==> MarkedBefore(history, n, id)
    {
      if MarkedBefore(history, n, id) {
        var j :| 0 <= j < n && Is(history[j], MarkStoryDone, id);
        assert Is(h[j], MarkStoryDone, id);
      }
      if MarkedBefore(h, n, id) {
        var j :| 0 <= j < n && Is(h[j], MarkStoryDone, id);
        assert Is(history[j], MarkStoryDone, id);
      }
    }
    if MarkedBefore(history, |history|, id) {
      var j :| 0 <= j < |history| && Is(history[j], MarkStoryDone, id);
      assert Is(h[j], MarkStoryDone, id);
    }
    if MarkedBefore(h, |h|, id) {
      var j :| 0 <= j < |h| && Is(h[j], MarkStoryDone, id);
      assert j < |history| ==> Is(history[j], MarkStoryDone, id);
    }
  }

  /** What a tick does to the done set and to the marks, whatever phase it happens in. */
  lemma {:induction false} TickMarks(st: TrackerState, result: ActionResult, collate: Collation) returns (k: nat)
    requires WellShaped(st)
    ensures
      var d := DecideNextAction(st, collate);
      var after := AdvanceTrackerState(st, d, result);
      if d.action != MarkStoryDone then DoneIds(after.stories) == DoneIds(st.stories)
      else
        && k < |st.stories| && d.storyId == Some(st.stories[k].storyId)
        && DoneIds(after.stories) == DoneIds(st.stories) + {st.stories[k].storyId}
        && st.stories[k].storyId !in DoneIds(st.stories)
        && DependenciesDone(st.stories[k], DoneIds(st.stories))
  {
    var d := DecideNextAction(st, collate);
    var after := AdvanceTrackerState(st, d, result);
    k := 0;
    if Halted(st) {
      TickHalted(st, result, collate);
    } else if BetweenStories(st) {
      k := TickBetween(st, result, collate);
      if after.state == Contract {
        UpdateKeepsDone(st.stories, k, after.stories[k]);
      }
    } else {
      k :| ActiveAt(st, k);
      InFlightTickMarks(st, k, result, collate);
    }
  }

  lemma InFlightTickMarks(st: TrackerState, k: nat, result: ActionResult, collate: Collation)
    requires WellShaped(st) && ActiveAt(st, k)
    ensures
      var d := DecideNextAction(st, collate);
      var after := AdvanceTrackerState(st, d, result);
      if d.action != MarkStoryDone then DoneIds(after.stories) == DoneIds(st.stories)
      else
        && d.storyId == Some(st.stories[k].storyId)
        && DoneIds(after.stories) == DoneIds(st.stories) + {st.stories[k].storyId}
        && st.stories[k].storyId !in DoneIds(st.stories)
        && DependenciesDone(st.stories[k], DoneIds(st.stories))
  {
    TickInFlight(st, k, result, collate);
    TickMovesPhase(st, k, result, collate);
    UpdateKeepsDone(st.stories, k, StoryAfter(st.stories[k], DecideNextAction(st, collate).action, result));
    NotDoneAt(st.stories, k);
  }

  lemma MarkAppended(start: TrackerState, run: Run, next: Run, e: Entry, k: nat)
    requires SameBacklog(start.stories, run.now.stories)
    requires MarksAreOrdered(start, run.history) && DoneMeansMarked(start, run)
    requires next.history == run.history + [e]
    requires if e.decision.action != MarkStoryDone then DoneIds(next.now.stories) == DoneIds(run.now.stories)
             else
               var s := run.now.stories;
               && k < |s| && e.decision.storyId == Some(s[k].storyId)
               && DoneIds(next.now.stories) == DoneIds(s) + {s[k].storyId}
               && s[k].storyId !in DoneIds(s)
               && DependenciesDone(s[k], DoneIds(s))
    ensures MarksAreOrdered(start, next.history) && DoneMeansMarked(start, next)
  {
    forall id {
      MarkedExtends(run.history, e, id);
    }
    MarksStayOrdered(start, run, next, e, k);
    DoneStaysMarked(start, run, next, e);
  }

  lemma DoneStaysMarked(start: TrackerState, run: Run, next: Run, e: Entry)
    requires DoneMeansMarked(start, run) && |next.history| == |run.history| + 1
    requires forall id :: MarkedBefore(next.history, |next.history|, id) <==>
                          MarkedBefore(run.history, |run.history|, id) || Is(e, MarkStoryDone, id)
    requires if e.decision.action != MarkStoryDone then DoneIds(next.now.stories) == DoneIds(run.now.stories)
             else e.decision.storyId.Some? && DoneIds(next.now.stories) == DoneIds(run.now.stories) + {e.decision.storyId.value}
    ensures DoneMeansMarked(start, next)
  {
    forall id
      ensures id in DoneIds(next.now.stories) <==> id in DoneIds(run.now.stories) || Is(e, MarkStoryDone, id)
    {
    }
  }

  lemma MarksStayOrdered(start: TrackerState, run: Run, next: Run, e: Entry, k: nat)
    requires SameBacklog(start.stories, run.now.stories)
    requires MarksAreOrdered(start, run.history) && DoneMeansMarked(start, run)
    requires next.history == run.history + [e]
    requires forall id, n: nat | n <= |run.history| :: MarkedBefore(next.history, n, id) <==> MarkedBefore(run.history, n, id)
    requires e.decision.action == MarkStoryDone ==>
               var s := run.now.stories;
               && k < |s| && e.decision.storyId == Some(s[k].storyId)
               && s[k].storyId !in DoneIds(s)
               && DependenciesDone(s[k], DoneIds(s))
    ensures MarksAreOrdered(start, next.history)
  {
    forall i | 0 <= i < |next.history| && next.history[i].decision.action == MarkStoryDone
      ensures exists k | 0 <= k < |start.stories| ::
                && Is(next.history[i], MarkStoryDone, start.stories[k].storyId)
                && start.stories[k].storyId !in DoneIds(start.stories)
                && !MarkedBefore(next.history, i, start.stories[k].storyId)
                && forall d | d in start.stories[k].dependsOn ::
                     d in DoneIds(start.stories) || MarkedBefore(next.history, i, d)
    {
      if i < |run.history| {
        assert next.history[i] == run.history[i];
      } else {
        assert Is(next.history[i], MarkStoryDone, start.stories[k].storyId);
      }
    }
  }

  lemma {:induction false} StepOrdersMarks(start: TrackerState, run: Run, event: Event, collate: Collation)
    requires WellShaped(run.now) && SameBacklog(start.stories, run.now.stories)
    requires MarksAreOrdered(start, run.history) && DoneMeansMarked(start, run)
    ensures MarksAreOrdered(start, Step(run, event, collate).history)
    ensures DoneMeansMarked(start, Step(run, event, collate))
  {
    if event.Tick? {
      var k := TickMarks(run.now, event.result, collate);
      MarkAppended(start, run, Step(run, event, collate),
                   Entry(DecideNextAction(run.now, collate), event.result), k);
    }
  }

  /** The order in which stories are marked done is a topological order of the stories done by the run. */
  lemma {:induction false} MarksFormATopologicalOrder(start: TrackerState, events: seq<Event>, collate: Collation)
    requires WellFormedStart(start)
    ensures MarksAreOrdered(start, Execute(start, events, collate).history)
    ensures DoneMeansMarked(start, Execute(start, events, collate))
  {
    if events != [] {
      var n := |events| - 1;
      MarksFormATopologicalOrder(start, events[..n], collate);
      RunKeepsShape(start, events[..n], collate);
      StepOrdersMarks(start, Execute(start, events[..n], collate), events[n], collate);
    }
  }

  predicate NeedsHuman(s: RuntimeStory) {
    s.status == Blocked || s.status == Escalated
  }

  /**
   * A set of stories that keeps itself out: nobody in it is done, and each is blocked or escalated,
   * or waits for another member or for a story that is not in the backlog.
   */
  ghost predicate Stuck(stories: seq<RuntimeStory>, members: set<StoryId>) {
    && members !! DoneIds(stories)
    && forall s | s in stories && s.storyId in members ::
         NeedsHuman(s) || exists d | d in s.dependsOn :: d in members || d !in StoryIds(stories)
  }

  lemma StuckIsNotWorkedOn(st: TrackerState, members: set<StoryId>, k: nat)
    requires Stuck(st.stories, members) && k < |st.stories|
    requires Runnable(st.stories[k], DoneIds(st.stories)) || ActiveAt(st, k)
    ensures st.stories[k].storyId !in members
  {
    DoneAreStories(st.stories);
  }

  lemma DoneAreStories(stories: seq<RuntimeStory>)
    ensures forall id | id in DoneIds(stories) :: id in StoryIds(stories)
  {
    forall s | s in stories
      ensures s.storyId in StoryIds(stories)
    {
      var i :| 0 <= i < |stories| && stories[i] == s;
      assert StoryIds(stories)[i] == s.storyId;
    }
  }

  /** Stories of the set are as they were. */
  ghost predicate Untouched(before: seq<RuntimeStory>, after: seq<RuntimeStory>, members: set<StoryId>) {
    && |before| == |after|
    && forall i | 0 <= i < |before| && before[i].storyId in members :: after[i] == before[i]
  }

  lemma {:induction false} StepLeavesStuckAlone(run: Run, event: Event, collate: Collation, members: set<StoryId>)
    requires WellShaped(run.now) && Stuck(run.now.stories, members)
    ensures Stuck(Step(run, event, collate).now.stories, members)
    ensures Untouched(run.now.stories, Step(run, event, collate).now.stories, members)
    ensures forall i, id | |run.history| <= i < |Step(run, event, collate).history| && id in members ::
              Step(run, event, collate).history[i].decision.storyId != Some(id)
  {
    var st, next := run.now, Step(run, event, collate);
    StepKeepsShape(run, event, collate);
    if event.Tick? {
      if Halted(st) {
        TickHalted(st, event.result, collate);
      } else {
        var k: nat;
        if BetweenStories(st) {
          k := TickBetween(st, event.result, collate);
          if next.history[|run.history|].decision.action == SelectNextStory {
            UpdateKeepsDone(st.stories, k, next.now.stories[k]);
            StuckIsNotWorkedOn(st, members, k);
          }
        } else {
          k :| ActiveAt(st, k);
          TickInFlight(st, k, event.result, collate);
          UpdateKeepsDone(st.stories, k, next.now.stories[k]);
          StuckIsNotWorkedOn(st, members, k);
        }
      }
    }
    UntouchedStaysStuck(st.stories, next.now.stories, members);
  }

  lemma UntouchedStaysStuck(before: seq<RuntimeStory>, after: seq<RuntimeStory>, members: set<StoryId>)
    requires Stuck(before, members) && Untouched(before, after, members) && SameBacklog(before, after)
    ensures Stuck(after, members)
  {
    SameBacklogKeepsIds(before, after);
    forall s | s in after && s.storyId in members
      ensures s in before
    {
      var i :| 0 <= i < |after| && after[i] == s;
    }
  }

  lemma {:induction false} StuckStoriesAreNeverTouched(
    start: TrackerState, events: seq<Event>, collate: Collation, members: set<StoryId>)
    requires WellFormedStart(start) && Stuck(start.stories, members)
    ensures
      var run := Execute(start, events, collate);
      && Stuck(run.now.stories, members)
      && Untouched(start.stories, run.now.stories, members)
      && forall i, id | 0 <= i < |run.history| && id in members :: run.history[i].decision.storyId != Some(id)
  {
    if events != [] {
      var n := |events| - 1;
      StuckStoriesAreNeverTouched(start, events[..n], collate, members);
      RunKeepsShape(start, events[..n], collate);
      StepLeavesStuckAlone(Execute(start, events[..n], collate), events[n], collate, members);
    }
  }

  function DepsOf(stories: seq<RuntimeStory>): seq<StoryDep> {
    seq(|stories|, i requires 0 <= i < |stories| => StoryDep(stories[i].storyId, stories[i].dependsOn))
  }

  lemma DepsOfLookup(stories: seq<RuntimeStory>)
    requires Distinct(StoryIds(stories))
    ensures forall id :: id in GraphOf(DepsOf(stories)) <==> id in StoryIds(stories)
    ensures forall i | 0 <= i < |stories| ::
              stories[i].storyId in GraphOf(DepsOf(stories)) && GraphOf(DepsOf(stories))[stories[i].storyId] == stories[i].dependsOn
  {
    var deps := DepsOf(stories);
    assert Ids(deps) == StoryIds(stories);
    GraphOfKeys(deps);
    forall i | 0 <= i < |stories|
      ensures stories[i].storyId in GraphOf(deps) && GraphOf(deps)[stories[i].storyId] == stories[i].dependsOn
    {
      GraphOfLookup(deps, i);
    }
  }

  /** What blocks a walk: it closes a cycle, or its last story needs a human or has a missing dependency. */
  ghost predicate DeadEnd(stories: seq<RuntimeStory>, walk: seq<StoryId>)
    requires walk != []
  {
    var last := walk[|walk| - 1];
    || last in walk[..|walk| - 1]
    || exists s | s in stories && s.storyId == last :: NeedsHuman(s) || exists d | d in s.dependsOn :: d !in StoryIds(stories)
  }

  /** A dependency walk through stories that are not done, into a dead end. */
  ghost predicate LeadsNowhere(stories: seq<RuntimeStory>, walk: seq<StoryId>) {
    && IsChain(GraphOf(DepsOf(stories)), walk)
    && (forall id | id in walk :: id !in DoneIds(stories))
    && DeadEnd(stories, walk)
  }

  ghost predicate HasDeadEnd(stories: seq<RuntimeStory>, id: StoryId) {
    exists walk :: LeadsNowhere(stories, walk) && walk[0] == id
  }

  ghost predicate IsStuck(stories: seq<RuntimeStory>, id: StoryId) {
    exists members :: Stuck(stories, members) && id in members
  }

  /** The greatest stuck set. */
  ghost function StuckIds(stories: seq<RuntimeStory>): set<StoryId> {
    set id | id in StoryIds(stories) && IsStuck(stories, id)
  }

  lemma StuckIdsAreStuck(stories: seq<RuntimeStory>)
    ensures Stuck(stories, StuckIds(stories))
    ensures forall members | Stuck(stories, members) :: forall id | id in members && id in StoryIds(stories) :: id in StuckIds(stories)
  {
    forall s | s in stories && s.storyId in StuckIds(stories)
      ensures NeedsHuman(s) || exists d | d in s.dependsOn :: d in StuckIds(stories) || d !in StoryIds(stories)
    {
      var members :| Stuck(stories, members) && s.storyId in members;
      if !NeedsHuman(s) {
        var d :| d in s.dependsOn && (d in members || d !in StoryIds(stories));
        assert d in StuckIds(stories) || d !in StoryIds(stories);
      }
    }
    forall id | id in StuckIds(stories)
      ensures id !in DoneIds(stories)
    {
    }
  }

  /** The stories of a walk into a dead end are stuck together. */
  lemma WalkIsStuck(stories: seq<RuntimeStory>, walk: seq<StoryId>)
    requires ProperIds(stories) && LeadsNowhere(stories, walk)
    ensures Stuck(stories, set id | id in walk) && walk[0] in StoryIds(stories)
  {
    var g := GraphOf(DepsOf(stories));
    DepsOfLookup(stories);
    ChainStaysInGraph(g, walk);
    var members := set id | id in walk;
    forall s | s in stories && s.storyId in members
      ensures NeedsHuman(s) || exists d | d in s.dependsOn :: d in members || d !in StoryIds(stories)
    {
      var k :| 0 <= k < |stories| && stories[k] == s;
      var i :| 0 <= i < |walk| && walk[i] == s.storyId;
      if i < |walk| - 1 {
        assert Edge(g, walk[i], walk[i + 1]);
      } else if walk[|walk| - 1] in walk[..|walk| - 1] {
        var j :| 0 <= j < |walk| - 1 && walk[j] == walk[i];
        assert Edge(g, walk[j], walk[j + 1]);
      } else {
        var t :| t in stories && t.storyId == walk[i] && (NeedsHuman(t) || exists d | d in t.dependsOn :: d !in StoryIds(stories));
        SameStory(stories, s, t);
      }
    }
  }

  lemma SameStory(stories: seq<RuntimeStory>, s: RuntimeStory, t: RuntimeStory)
    requires Distinct(StoryIds(stories)) && s in stories && t in stories && s.storyId == t.storyId
    ensures s == t
  {
    var i :| 0 <= i < |stories| && stories[i] == s;
    var j :| 0 <= j < |stories| && stories[j] == t;
    assert StoryIds(stories)[i] == StoryIds(stories)[j];
  }

  /** From a member of a stuck set, following what each waits for runs into a dead end. */
  lemma {:induction false} StuckLeadsNowhere(stories: seq<RuntimeStory>, members: set<StoryId>, walk: seq<StoryId>)
    returns (whole: seq<StoryId>)
    requires ProperIds(stories) && Stuck(stories, members)
    requires IsChain(GraphOf(DepsOf(stories)), walk) && Distinct(walk) && forall id | id in walk :: id in members
    ensures LeadsNowhere(stories, whole) && whole[0] == walk[0]
    decreases |StoryIds(stories)| - |walk|
  {
    var g, n := GraphOf(DepsOf(stories)), |walk| - 1;
    DepsOfLookup(stories);
    ChainStaysInGraph(g, walk);
    var k :| 0 <= k < |stories| && StoryIds(stories)[k] == walk[n];
    var s := stories[k];
    assert s in stories && s.storyId in members;
    whole := walk;
    if !NeedsHuman(s) && forall d | d in s.dependsOn :: d in StoryIds(stories) {
      var d :| d in s.dependsOn && d in members;
      assert Edge(g, walk[n], d);
      whole := walk + [d];
      ChainSnoc(g, walk, d);
      if d in walk {
        assert whole[..|whole| - 1] == walk;
      } else {
        ChainStaysInGraph(g, whole);
        FitsTheBacklog(stories, whole);
        whole := StuckLeadsNowhere(stories, members, whole);
      }
    }
  }

  lemma FitsTheBacklog(stories: seq<RuntimeStory>, ids: seq<StoryId>)
    requires Distinct(ids) && forall id | id in ids :: id in StoryIds(stories)
    ensures |ids| <= |StoryIds(stories)|
  {
    var all := set id | id in StoryIds(stories);
    DistinctIsNoLongerThanItsRange(ids, all);
    SetOfIsSmall(StoryIds(stories));
  }

  lemma {:induction false} SetOfIsSmall(ids: seq<StoryId>)
    ensures |set id | id in ids| <= |ids|
  {
    if ids != [] {
      SetOfIsSmall(ids[1..]);
      assert (set id | id in ids) == (set id | id in ids[1..]) + {ids[0]};
    }
  }

  /** Being stuck is having a dead end ahead. */
  lemma StuckIffDeadEnd(stories: seq<RuntimeStory>, id: StoryId)
    requires ProperIds(stories)
    ensures id in StuckIds(stories) <==> HasDeadEnd(stories, id)
  {
    DepsOfLookup(stories);
    if HasDeadEnd(stories, id) {
      var walk :| LeadsNowhere(stories, walk) && walk[0] == id;
      WalkIsStuck(stories, walk);
      assert id in set x | x in walk;
    }
    if id in StuckIds(stories) {
      var members :| Stuck(stories, members) && id in members;
      var walk := StuckLeadsNowhere(stories, members, [id]);
    }
  }

  /** No story on or behind an unfinished cycle, a missing dependency or a story that needs a human is ever acted on. */
  lemma {:induction false} CyclesAndMissingDependenciesBlock(
    start: TrackerState, events: seq<Event>, collate: Collation, walk: seq<StoryId>)
    requires WellFormedStart(start) && LeadsNowhere(start.stories, walk)
    ensures
      var run := Execute(start, events, collate);
      && walk[0] !in DoneIds(run.now.stories)
      && forall i | 0 <= i < |run.history| :: run.history[i].decision.storyId != Some(walk[0])
  {
    WalkIsStuck(start.stories, walk);
    StuckStoriesAreNeverTouched(start, events, collate, set id | id in walk);
    assert walk[0] in set id | id in walk;
  }

  /** Done stories open the way: a story behind a cycle of them is runnable, although no walk avoids the cycle. */
  lemma DoneCycleDoesNotBlock(a: RuntimeStory, b: RuntimeStory, c: RuntimeStory)
    requires a.status == Done && b.status == Done && c.status == Todo
    requires ProperIds([a, b, c])
    requires a.dependsOn == [b.storyId] && b.dependsOn == [a.storyId] && c.dependsOn == [a.storyId]
    ensures
      var stories := [a, b, c];
      && IsChain(GraphOf(DepsOf(stories)), [c.storyId, a.storyId, b.storyId, a.storyId])
      && DoneIsClosed(stories) && Runnable(c, DoneIds(stories)) && !HasDeadEnd(stories, c.storyId)
  {
    var stories := [a, b, c];
    var g := GraphOf(DepsOf(stories));
    DepsOfLookup(stories);
    assert stories[0] == a && stories[1] == b && stories[2] == c;
    assert g[a.storyId] == [b.storyId] && g[b.storyId] == [a.storyId] && g[c.storyId] == [a.storyId];
    assert a in stories && b in stories && c in stories;
    assert {a.storyId, b.storyId} <= DoneIds(stories);
    RunnableHasNoDeadEnd(stories, 2);
  }

  lemma RunnableHasNoDeadEnd(stories: seq<RuntimeStory>, k: nat)
    requires ProperIds(stories) && k < |stories| && Runnable(stories[k], DoneIds(stories))
    ensures !HasDeadEnd(stories, stories[k].storyId)
  {
    StuckIffDeadEnd(stories, stories[k].storyId);
    DoneAreStories(stories);
    assert stories[k] in stories;
  }

  // ----- finality of an escalation -----

  /** After the first escalation there are only stops, and at most one select that names no story. */
  ghost predicate EscalationIsFinal(run: Run) {
    forall i, j | 0 <= i < j < |run.history| && run.history[i].decision.action == EscalateHuman ::
      && run.history[j].decision.storyId.None?
      && (run.history[j].decision.action == StopRun || (run.history[j].decision.action == SelectNextStory && j == i + 1))
  }

  ghost predicate EscalationHalts(run: Run) {
    && (forall i | 0 <= i < |run.history| && run.history[i].decision.action == EscalateHuman ::
          run.now.state == Stopped || (run.now.state == Gate && i == |run.history| - 1))
  }

  lemma {:induction false} NothingIsDevelopedAfterEscalation(start: TrackerState, events: seq<Event>, collate: Collation)
    requires WellFormedStart(start)
    ensures EscalationIsFinal(Execute(start, events, collate))
    ensures EscalationHalts(Execute(start, events, collate))
  {
    if events != [] {
      var n := |events| - 1;
      NothingIsDevelopedAfterEscalation(start, events[..n], collate);
      RunKeepsShape(start, events[..n], collate);
      if events[n].Tick? {
        TickKeepsEscalationFinal(Execute(start, events[..n], collate), events[n].result, collate);
      }
    }
  }

  lemma {:induction false} TickKeepsEscalationFinal(run: Run, result: ActionResult, collate: Collation)
    requires WellShaped(run.now) && EscalationIsFinal(run) && EscalationHalts(run)
    ensures EscalationIsFinal(Step(run, Tick(result), collate)) && EscalationHalts(Step(run, Tick(result), collate))
  {
    var st := run.now;
    if Halted(st) {
      TickHalted(st, result, collate);
    } else if BetweenStories(st) {
      var k := TickBetween(st, result, collate);
    } else {
      var k: nat :| ActiveAt(st, k);
      TickMovesPhase(st, k, result, collate);
    }
  }

  /** Without anybody setting it, the human gate flag stays as it was at the start. */
  lemma {:induction false} NobodyClearsTheGate(start: TrackerState, events: seq<Event>, collate: Collation)
    requires forall e | e in events :: e.Tick?
    ensures Execute(start, events, collate).now.humanGateCleared == start.humanGateCleared
  {
    if events != [] {
      var n := |events| - 1;
      NobodyClearsTheGate(start, events[..n], collate);
      var st := Execute(start, events[..n], collate).now;
      assert events[n] in events;
      AdvanceKeepsTheRest(st, DecideNextAction(st, collate), events[n].result);
    }
  }

  /** So the tick after an escalation waits for the human gate, unless the run budget is spent. */
  lemma EscalationAwaitsTheHuman(start: TrackerState, events: seq<Event>, result: ActionResult, collate: Collation)
    requires WellFormedStart(start) && !start.humanGateCleared && forall e | e in events :: e.Tick?
    requires
      var run := Execute(start, events, collate);
      && run.history != [] && run.history[|run.history| - 1].decision.action == EscalateHuman
      && run.now.iterationsUsed < run.now.runIterationBudget
    ensures
      var next := Step(Execute(start, events, collate), Tick(result), collate);
      var d := next.history[|next.history| - 1].decision;
      && d.action == StopRun && d.storyId.None? && d.reason == Some(AwaitingHumanGate)
      && next.now.state == Stopped && next.now.stopReason == Some(AwaitingHumanGate)
      && !next.now.humanGateCleared && next.now.stories == Execute(start, events, collate).now.stories
  {
    var run := Execute(start, events, collate);
    NobodyClearsTheGate(start, events, collate);
    EscalatedIsAtTheGate(start, events, collate);
    TickHalted(run.now, result, collate);
  }

  lemma {:induction false} EscalatedIsAtTheGate(start: TrackerState, events: seq<Event>, collate: Collation)
    requires WellFormedStart(start) && forall e | e in events :: e.Tick?
    requires
      var run := Execute(start, events, collate);
      run.history != [] && run.history[|run.history| - 1].decision.action == EscalateHuman
    ensures Execute(start, events, collate).now.state == Gate
  {
    var n := |events| - 1;
    var run := Execute(start, events[..n], collate);
    RunKeepsShape(start, events[..n], collate);
    assert events[n] in events;
    if Halted(run.now) {
      TickHalted(run.now, events[n].result, collate);
    } else if BetweenStories(run.now) {
      var k := TickBetween(run.now, events[n].result, collate);
    } else {
      var k: nat :| ActiveAt(run.now, k);
      TickMovesPhase(run.now, k, events[n].result, collate);
    }
  }

  // ----- one round per story -----

  ghost predicate SelectedOnce(run: Run) {
    forall i, j, id | 0 <= i < j < |run.history| && Is(run.history[i], SelectNextStory, id) ::
      !Is(run.history[j], SelectNextStory, id)
  }

  /** A story that has been selected cannot be selected again, unless nothing can. */
  ghost predicate SelectedAreTaken(run: Run) {
    Halted(run.now) ||
    forall i, k | 0 <= i < |run.history| && 0 <= k < |run.now.stories| && Is(run.history[i], SelectNextStory, run.now.stories[k].storyId) ::
      !Selectable(run.now.stories[k])
  }

  /** No story is selected twice. */
  lemma {:induction false} StoriesAreSelectedOnce(start: TrackerState, events: seq<Event>, collate: Collation)
    requires WellFormedStart(start)
    ensures SelectedOnce(Execute(start, events, collate)) && SelectedAreTaken(Execute(start, events, collate))
  {
    if events != [] {
      var n := |events| - 1;
      StoriesAreSelectedOnce(start, events[..n], collate);
      RunKeepsShape(start, events[..n], collate);
      if events[n].Tick? {
        TickSelectsOnce(Execute(start, events[..n], collate), events[n].result, collate);
      }
    }
  }

  lemma {:induction false} TickSelectsOnce(run: Run, result: ActionResult, collate: Collation)
    requires WellShaped(run.now) && SelectedOnce(run) && SelectedAreTaken(run)
    ensures SelectedOnce(Step(run, Tick(result), collate)) && SelectedAreTaken(Step(run, Tick(result), collate))
  {
    if Halted(run.now) {
      HaltedTickSelectsOnce(run, result, collate);
    } else if BetweenStories(run.now) {
      BetweenTickSelectsOnce(run, result, collate);
    } else {
      InFlightTickSelectsOnce(run, result, collate);
    }
  }

  lemma HaltedTickSelectsOnce(run: Run, result: ActionResult, collate: Collation)
    requires Halted(run.now) && SelectedOnce(run) && SelectedAreTaken(run)
    ensures SelectedOnce(Step(run, Tick(result), collate)) && SelectedAreTaken(Step(run, Tick(result), collate))
  {
    TickHalted(run.now, result, collate);
    OthersSelectNothing(run, Step(run, Tick(result), collate), Entry(DecideNextAction(run.now, collate), result));
  }

  lemma BetweenTickSelectsOnce(run: Run, result: ActionResult, collate: Collation)
    requires WellShaped(run.now) && BetweenStories(run.now) && SelectedOnce(run) && SelectedAreTaken(run)
    ensures SelectedOnce(Step(run, Tick(result), collate)) && SelectedAreTaken(Step(run, Tick(result), collate))
  {
    var e, next := Entry(DecideNextAction(run.now, collate), result), Step(run, Tick(result), collate);
    var k := TickBetween(run.now, result, collate);
    if e.decision.action == SelectNextStory {
      SelectIsNew(run, k, next, e);
    } else {
      OthersSelectNothing(run, next, e);
    }
  }

  lemma InFlightTickSelectsOnce(run: Run, result: ActionResult, collate: Collation)
    requires WellShaped(run.now) && InFlight(run.now) && SelectedOnce(run) && SelectedAreTaken(run)
    ensures SelectedOnce(Step(run, Tick(result), collate)) && SelectedAreTaken(Step(run, Tick(result), collate))
  {
    var k: nat :| ActiveAt(run.now, k);
    TickInFlight(run.now, k, result, collate);
    WorkedOnIsTaken(run.now, k, DecideNextAction(run.now, collate).action, result);
    OthersSelectNothing(run, Step(run, Tick(result), collate), Entry(DecideNextAction(run.now, collate), result));
  }

  /** Working on a story never makes it selectable. */
  lemma WorkedOnIsTaken(st: TrackerState, k: nat, action: Action, result: ActionResult)
    requires ActiveAt(st, k)
    ensures !Selectable(StoryAfter(st.stories[k], action, result))
    ensures StoryAfter(st.stories[k], action, result).storyId == st.stories[k].storyId
  {
  }

  lemma OthersSelectNothing(run: Run, next: Run, e: Entry)
    requires SelectedOnce(run) && SelectedAreTaken(run) && next.history == run.history + [e]
    requires e.decision.action != SelectNextStory || e.decision.storyId.None?
    requires Halted(run.now) ==> Halted(next.now)
    requires |next.now.stories| == |run.now.stories|
    requires forall i | 0 <= i < |run.now.stories| ::
               && next.now.stories[i].storyId == run.now.stories[i].storyId
               && (next.now.stories[i] == run.now.stories[i] || !Selectable(next.now.stories[i]))
    ensures SelectedOnce(next) && SelectedAreTaken(next)
  {
  }

  lemma SelectIsNew(run: Run, k: nat, next: Run, e: Entry)
    requires ProperIds(run.now.stories) && SelectedOnce(run) && SelectedAreTaken(run) && !Halted(run.now)
    requires k < |run.now.stories| && Selectable(run.now.stories[k])
    requires next.history == run.history + [e] && Is(e, SelectNextStory, run.now.stories[k].storyId)
    requires Halted(next.now) || (exists s: RuntimeStory | s.storyId == run.now.stories[k].storyId ::
               !Selectable(s) && next.now.stories == run.now.stories[k := s])
    ensures SelectedOnce(next) && SelectedAreTaken(next)
  {
    assert forall i | 0 <= i < |run.history| :: !Is(run.history[i], SelectNextStory, run.now.stories[k].storyId);
    forall i | 0 <= i < |run.now.stories| && i != k
      ensures run.now.stories[i].storyId != run.now.stories[k].storyId
    {
      assert StoryIds(run.now.stories)[i] != StoryIds(run.now.stories)[k];
    }
  }

  // ----- done only through a passed validation and a checkpoint -----

  ghost predicate PassedAt(history: seq<Entry>, n: int, id: StoryId) {
    && 0 <= n < |history|
    && Is(history[n], RunValidation, id)
    && history[n].result.validationPassed == Some(true)
  }

  ghost predicate CheckpointedAt(history: seq<Entry>, n: int, id: StoryId) {
    0 <= n < |history| && Is(history[n], WriteCheckpoint, id) && PassedAt(history, n - 1, id)
  }

  ghost predicate DoneIsEarned(run: Run) {
    var st, n := run.now, |run.history|;
    && (forall i | 0 <= i < n && run.history[i].decision.action == MarkStoryDone ::
          run.history[i].decision.storyId.Some? && CheckpointedAt(run.history, i - 1, run.history[i].decision.storyId.value))
    && (st.state == Validate && st.lastValidationPassed == Some(true) ==>
          st.activeStoryId.Some? && PassedAt(run.history, n - 1, st.activeStoryId.value))
    && (st.state == Checkpoint ==> st.activeStoryId.Some? && CheckpointedAt(run.history, n - 1, st.activeStoryId.value))
  }

  lemma MoveEarnsDone(run: Run, k: nat, next: Run, e: Entry)
    requires ActiveAt(run.now, k) && DoneIsEarned(run)
    requires next.history == run.history + [e]
    requires PhaseMove(run.now, run.now.stories[k], e.decision.action, e.result, next.now)
    requires e.decision.action != StopRun ==> e.decision.storyId == run.now.activeStoryId
    requires e.decision.action != MarkStoryDone ==> next.now.activeStoryId == run.now.activeStoryId
    ensures DoneIsEarned(next)
  {
    var h, h' := run.history, next.history;
    forall n: int, id
      ensures CheckpointedAt(h, n, id) ==> CheckpointedAt(h', n, id)
      ensures PassedAt(h, n, id) ==> PassedAt(h', n, id)
    {
      CheckpointsStay(h, e, n, id);
    }
    forall i | 0 <= i < |h'| && h'[i].decision.action == MarkStoryDone
      ensures h'[i].decision.storyId.Some? && CheckpointedAt(h', i - 1, h'[i].decision.storyId.value)
    {
      if i < |h| {
        assert CheckpointedAt(h, i - 1, h[i].decision.storyId.value);
      }
    }
  }

  lemma CheckpointsStay(h: seq<Entry>, e: Entry, n: int, id: StoryId)
    ensures CheckpointedAt(h, n, id) ==> CheckpointedAt(h + [e], n, id)
    ensures PassedAt(h, n, id) ==> PassedAt(h + [e], n, id)
  {
  }

  lemma IdleStepEarnsDone(run: Run, next: Run, e: Entry)
    requires DoneIsEarned(run) && next.history == run.history + [e]
    requires e.decision.action != MarkStoryDone
    requires next.now.state != Validate && next.now.state != Checkpoint
    ensures DoneIsEarned(next)
  {
    var h, h' := run.history, next.history;
    assert forall i | 0 <= i < |h| :: h'[i] == h[i];
    forall i | 0 <= i < |h'| && h'[i].decision.action == MarkStoryDone
      ensures h'[i].decision.storyId.Some? && CheckpointedAt(h', i - 1, h'[i].decision.storyId.value)
    {
      assert CheckpointedAt(h, i - 1, h[i].decision.storyId.value);
    }
  }

  /** Every `mark_story_done` directly follows the checkpoint of a validation whose verdict was true. */
  lemma {:induction false} DoneOnlyAfterPassedValidation(start: TrackerState, events: seq<Event>, collate: Collation)
    requires WellFormedStart(start)
    ensures DoneIsEarned(Execute(start, events, collate))
  {
    if events != [] {
      var n := |events| - 1;
      DoneOnlyAfterPassedValidation(start, events[..n], collate);
      RunKeepsShape(start, events[..n], collate);
      if events[n].Tick? {
        TickEarnsDone(Execute(start, events[..n], collate), events[n].result, collate);
      }
    }
  }

  lemma {:induction false} TickEarnsDone(run: Run, result: ActionResult, collate: Collation)
    requires WellShaped(run.now) && DoneIsEarned(run)
    ensures DoneIsEarned(Step(run, Tick(result), collate))
  {
    var st, next := run.now, Step(run, Tick(result), collate);
    var e := Entry(DecideNextAction(st, collate), result);
    if Halted(st) {
      TickHalted(st, result, collate);
      IdleStepEarnsDone(run, next, e);
    } else if BetweenStories(st) {
      var k := TickBetween(st, result, collate);
      IdleStepEarnsDone(run, next, e);
    } else {
      var k: nat :| ActiveAt(st, k);
      TickInFlight(st, k, result, collate);
      TickMovesPhase(st, k, result, collate);
      MoveEarnsDone(run, k, next, e);
    }
  }
}
