/**
 * Whole runs of the orchestrator: any sequence of ticks with arbitrary results, between which
 * somebody may set or clear the human gate.  The shape every reachable state keeps.
 */
module OrchestratorRuns {
  import opened Common
  import opened DependencyGraph
  import opened Orchestrator
  import Sorting

  type Collation = (StoryId, StoryId) -> bool

  datatype Event = Tick(result: ActionResult) | SetGateCleared(cleared: bool)

  /** A decision together with the result it was advanced with. */
  datatype Entry = Entry(decision: RuntimeDecision, result: ActionResult)

  datatype Run = Run(now: TrackerState, history: seq<Entry>)

  function Step(run: Run, event: Event, collate: Collation): Run {
    match event
    case Tick(result) =>
      var decision := DecideNextAction(run.now, collate);
      Run(AdvanceTrackerState(run.now, decision, result), run.history + [Entry(decision, result)])
    case SetGateCleared(cleared) => run.(now := run.now.(humanGateCleared := cleared))
  }

  function Execute(start: TrackerState, events: seq<Event>, collate: Collation): Run {
    if events == [] then Run(start, [])
    else
      var n := |events| - 1;
      Step(Execute(start, events[..n], collate), events[n], collate)
  }

  // ----- shape of reachable states -----

  predicate Settled(status: StoryStatus) {
    status == Todo || status == Ready || status == Done || status == Blocked || status == Escalated
  }

  predicate BetweenStories(st: TrackerState) {
    st.state == Idle || st.state == Select
  }

  predicate Halted(st: TrackerState) {
    st.state == Gate || st.state == Stopped
  }

  predicate InFlight(st: TrackerState) {
    !BetweenStories(st) && !Halted(st)
  }

  function StoryIds(stories: seq<RuntimeStory>): seq<StoryId> {
    seq(|stories|, i requires 0 <= i < |stories| => stories[i].storyId)
  }

  ghost predicate ProperIds(stories: seq<RuntimeStory>) {
    Distinct(StoryIds(stories)) && forall i | 0 <= i < |stories| :: stories[i].storyId != ""
  }

  ghost predicate WellFormedStart(st: TrackerState) {
    && BetweenStories(st)
    && st.activeStoryId.None?
    && ProperIds(st.stories)
    && forall i | 0 <= i < |st.stories| :: Settled(st.stories[i].status)
  }

  /** The status of the story being worked on, in each phase of its life. */
  predicate StatusFits(state: OrchestratorState, last: Option<bool>, status: StoryStatus) {
    match state
    case Contract => status == InProgress
    case Develop => last.None? && (status == InProgress || status == Debugging)
    case Validate =>
      if last.None? then status == InProgress || status == Debugging
      else status == (if last.value then Passed else InProgress)
    case Debug => status == Debugging
    case Checkpoint => status == Checkpointed
    case _ => false
  }

  /** Story number `k` is the one being worked on, and the only one. */
  ghost predicate ActiveAt(st: TrackerState, k: nat) {
    && InFlight(st)
    && k < |st.stories|
    && st.activeStoryId == Some(st.stories[k].storyId)
    && StatusFits(st.state, st.lastValidationPassed, st.stories[k].status)
    && (st.state == Contract ==> st.lastValidationPassed.None?)
    && (forall i | 0 <= i < |st.stories| && i != k :: Settled(st.stories[i].status))
    && DependenciesDone(st.stories[k], DoneIds(st.stories))
  }

  ghost predicate WellShaped(st: TrackerState) {
    && ProperIds(st.stories)
    && (BetweenStories(st) ==>
          st.activeStoryId.None? && forall i | 0 <= i < |st.stories| :: Settled(st.stories[i].status))
    && (InFlight(st) ==> exists k :: ActiveAt(st, k))
  }

  /** What the story being worked on becomes. */
  function StoryAfter(s: RuntimeStory, action: Action, result: ActionResult): RuntimeStory {
    match action
    case SelectNextStory => s.(status := InProgress)
    case IssueContract => s.(status := InProgress)
    case DevelopPatch => s.(attempts := s.attempts + 1)
    case RunValidation => s.(status := if result.validationPassed == Some(true) then Passed else InProgress)
    case WriteCheckpoint => s.(status := Checkpointed)
    case RouteDebugger => s.(status := Debugging)
    case MarkStoryDone => s.(status := Done)
    case EscalateHuman => s.(status := Escalated, blockedReason := Some(AttemptBudgetExceeded))
    case _ => s
  }

  lemma {:induction false} FindIsUnique(stories: seq<RuntimeStory>, k: nat)
    requires k < |stories| && Distinct(StoryIds(stories))
    ensures FindStory(stories, stories[k].storyId) == Some(stories[k])
  {
    if k > 0 {
      assert StoryIds(stories)[0] != StoryIds(stories)[k];
      assert StoryIds(stories[1..]) == StoryIds(stories)[1..];
      FindIsUnique(stories[1..], k - 1);
    }
  }

  lemma PatchIsUpdate(stories: seq<RuntimeStory>, k: nat, patch: RuntimeStory -> RuntimeStory)
    requires k < |stories| && Distinct(StoryIds(stories))
    ensures PatchStory(stories, stories[k].storyId, patch) == stories[k := patch(stories[k])]
  {
    var r := PatchStory(stories, stories[k].storyId, patch);
    forall i | 0 <= i < |r|
      ensures r[i] == stories[k := patch(stories[k])][i]
    {
      assert StoryIds(stories)[i] == stories[i].storyId && StoryIds(stories)[k] == stories[k].storyId;
    }
  }

  /** A selected story is runnable, and it is the only thing the decision depends on. */
  lemma SelectedIsRunnable(stories: seq<RuntimeStory>, collate: Collation) returns (k: nat)
    requires SelectNextRuntimeStory(stories, collate).Some?
    ensures k < |stories| && SelectNextRuntimeStory(stories, collate) == Some(stories[k].storyId)
    ensures Runnable(stories[k], DoneIds(stories))
  {
    var done := DoneIds(stories);
    var candidates := Filter(stories, s => Runnable(s, done));
    var sorted := Sorting.Sort(candidates, KeyOf, SelectionOrder(collate));
    Sorting.SortKeepsElements(candidates, KeyOf, SelectionOrder(collate));
    assert sorted[0] in candidates;
    k :| 0 <= k < |stories| && stories[k] == sorted[0];
  }

  /** An active story is selected by this decision and result. */
  predicate Selects(d: RuntimeDecision, result: ActionResult) {
    d.action == SelectNextStory && d.storyId.Some? && d.storyId.value != "" && result.success
  }

  /**
   * What a tick does to each field besides the stories and the log, in any state and for any
   * decision; above all, no tick touches the human gate flag.
   */
  lemma AdvanceKeepsTheRest(st: TrackerState, d: RuntimeDecision, result: ActionResult)
    ensures
      var after := AdvanceTrackerState(st, d, result);
      && after.humanGateCleared == st.humanGateCleared
      && after.runIterationBudget == st.runIterationBudget
      && after.activeStoryId ==
           (if Selects(d, result) then d.storyId
            else if d.action == MarkStoryDone then None
            else st.activeStoryId)
      && after.lastValidationPassed ==
           (if Selects(d, result) || d.action in {DevelopPatch, RetryDevelop, MarkStoryDone} then None
            else if d.action == RunValidation then result.validationPassed
            else st.lastValidationPassed)
      && after.stopReason ==
           (if d.action == SelectNextStory && !Selects(d, result) then
              Some(if result.error.Some? then ErrorText(result.error.value) else SelectFailed)
            else if d.action == EscalateHuman then Some(d.reason.GetOr(EscalatedByDefault))
            else if d.action == StopRun then Some(d.reason.GetOr(StoppedByDefault))
            else st.stopReason)
  {
  }

  /** A phase that needs an active story stops the run when there is none, and touches nothing else. */
  lemma NoActiveStoryStops(st: TrackerState, result: ActionResult, collate: Collation)
    requires st.iterationsUsed < st.runIterationBudget
    requires st.state == Develop || st.state == Validate || st.state == Debug || st.state == Checkpoint
    requires st.activeStoryId.None? || st.activeStoryId == Some("")
             || forall i | 0 <= i < |st.stories| :: st.stories[i].storyId != st.activeStoryId.value
    ensures
      var d := DecideNextAction(st, collate);
      var after := AdvanceTrackerState(st, d, result);
      && d.action == StopRun && d.storyId.None? && d.reason == Some(NoActiveStory)
      && after.state == Stopped && after.stopReason == Some(NoActiveStory) && after.stories == st.stories
  {
    if st.activeStoryId.Some? {
      NothingFound(st.stories, st.activeStoryId.value);
    }
  }

  lemma {:induction false} NothingFound(stories: seq<RuntimeStory>, id: StoryId)
    requires id == "" || forall i | 0 <= i < |stories| :: stories[i].storyId != id
    ensures id != "" ==> FindStory(stories, id).None?
  {
    if stories != [] && id != "" {
      assert stories[0].storyId != id;
      NothingFound(stories[1..], id);
    }
  }

  lemma TickBetween(st: TrackerState, result: ActionResult, collate: Collation) returns (k: nat)
    requires WellShaped(st) && BetweenStories(st)
    ensures
      var d := DecideNextAction(st, collate);
      var after := AdvanceTrackerState(st, d, result);
      if d.action == SelectNextStory then
        && k < |st.stories| && Runnable(st.stories[k], DoneIds(st.stories))
        && d.storyId == Some(st.stories[k].storyId)
        && after.activeStoryId == (if result.success then d.storyId else None)
        && after.lastValidationPassed == (if result.success then None else st.lastValidationPassed)
        && after.state == (if result.success then Contract else Stopped)
        && after.stories == (if result.success
                             then st.stories[k := StoryAfter(st.stories[k], SelectNextStory, result)]
                             else st.stories)
      else
        && d.storyId.None?
        && after.stories == st.stories
        && (d.action == StopRun || d.action == EscalateHuman)
        && after.state == (if d.action == StopRun then Stopped else Gate)
        && after.stopReason == d.reason && after.activeStoryId.None?
        && after.lastValidationPassed == st.lastValidationPassed
    ensures AdvanceTrackerState(st, DecideNextAction(st, collate), result).humanGateCleared == st.humanGateCleared
  {
    k := 0;
    AdvanceKeepsTheRest(st, DecideNextAction(st, collate), result);
    var d := DecideNextAction(st, collate);
    if d.action == SelectNextStory {
      DecisionIsTheChoice(st, collate);
      k := SelectedIsRunnable(st.stories, collate);
      PatchIsUpdate(st.stories, k, (s: RuntimeStory) => s.(status := InProgress));
      AdvanceSelects(st, k, d, result);
    } else {
      BetweenEnds(st, collate);
      AdvanceEnds(st, d, result);
    }
  }

  lemma BetweenEnds(st: TrackerState, collate: Collation)
    requires BetweenStories(st) && DecideNextAction(st, collate).action != SelectNextStory
    ensures
      var d := DecideNextAction(st, collate);
      d.storyId.None? && d.reason.Some? && (d.action == StopRun || d.action == EscalateHuman)
  {
  }

  lemma AdvanceEnds(st: TrackerState, d: RuntimeDecision, result: ActionResult)
    requires st.activeStoryId.None? && d.storyId.None? && d.reason.Some?
    requires d.action == StopRun || d.action == EscalateHuman
    ensures
      var after := AdvanceTrackerState(st, d, result);
      && after.stories == st.stories && after.stopReason == d.reason
      && after.state == (if d.action == StopRun then Stopped else Gate)
  {
  }

  lemma DecisionIsTheChoice(st: TrackerState, collate: Collation)
    requires BetweenStories(st) && DecideNextAction(st, collate).action == SelectNextStory
    ensures DecideNextAction(st, collate).storyId == SelectNextRuntimeStory(st.stories, collate)
    ensures SelectNextRuntimeStory(st.stories, collate).Some?
  {
  }

  lemma AdvanceSelects(st: TrackerState, k: nat, d: RuntimeDecision, result: ActionResult)
    requires ProperIds(st.stories) && k < |st.stories|
    requires d.action == SelectNextStory && d.storyId == Some(st.stories[k].storyId)
    requires SetStatus(st.stories, st.stories[k].storyId, InProgress)
          == st.stories[k := StoryAfter(st.stories[k], SelectNextStory, result)]
    ensures
      var after := AdvanceTrackerState(st, d, result);
      && after.activeStoryId == (if result.success then d.storyId else st.activeStoryId)
      && after.lastValidationPassed == (if result.success then None else st.lastValidationPassed)
      && after.state == (if result.success then Contract else Stopped)
      && after.stories == (if result.success
                           then st.stories[k := StoryAfter(st.stories[k], SelectNextStory, result)]
                           else st.stories)
  {
  }

  lemma TickInFlight(st: TrackerState, k: nat, result: ActionResult, collate: Collation)
    requires ProperIds(st.stories) && ActiveAt(st, k)
    ensures
      var d := DecideNextAction(st, collate);
      var after := AdvanceTrackerState(st, d, result);
      && d.action != SelectNextStory
      && after.stories == st.stories[k := StoryAfter(st.stories[k], d.action, result)]
      && (d.action != StopRun ==> d.storyId == st.activeStoryId)
      && (d.action == StopRun ==> d.storyId.None? && d.reason == Some(RunBudgetExhausted))
  {
    InFlightDecision(st, k, collate);
    AdvanceTouchesOne(st, k, DecideNextAction(st, collate), result);
  }

  lemma InFlightDecision(st: TrackerState, k: nat, collate: Collation)
    requires ProperIds(st.stories) && ActiveAt(st, k)
    ensures
      var d := DecideNextAction(st, collate);
      && d.action != SelectNextStory
      && (d.action != StopRun ==> d.storyId == st.activeStoryId)
      && (d.action == StopRun ==> d.storyId.None? && d.reason == Some(RunBudgetExhausted))
      && (d.action == EscalateHuman ==> d.reason == Some(AttemptBudgetExceeded))
  {
    FindIsUnique(st.stories, k);
    assert ActiveStory(st) == Some(st.stories[k]);
  }

  lemma AdvanceTouchesOne(st: TrackerState, k: nat, d: RuntimeDecision, result: ActionResult)
    requires ProperIds(st.stories) && k < |st.stories| && st.activeStoryId == Some(st.stories[k].storyId)
    requires d.action != SelectNextStory && (d.action != StopRun ==> d.storyId == st.activeStoryId)
    requires d.action == EscalateHuman ==> d.reason == Some(AttemptBudgetExceeded)
    ensures AdvanceTrackerState(st, d, result).stories == st.stories[k := StoryAfter(st.stories[k], d.action, result)]
  {
    var s, after := st.stories[k], AdvanceTrackerState(st, d, result);
    FindIsUnique(st.stories, k);
    match d.action {
      case DevelopPatch =>
        PatchIsUpdate(st.stories, k, (t: RuntimeStory) => t.(attempts := s.attempts + 1));
        assert after.stories == PatchStory(st.stories, s.storyId, (t: RuntimeStory) => t.(attempts := s.attempts + 1));
      case EscalateHuman =>
        PatchIsUpdate(st.stories, k, (t: RuntimeStory) => t.(status := Escalated, blockedReason := d.reason));
      case _ =>
        PatchIsUpdate(st.stories, k, (t: RuntimeStory) => t.(status := StoryAfter(s, d.action, result).status));
    }
  }

  /** Which phase an action is taken in, and which it leads to. */
  ghost predicate PhaseMove(st: TrackerState, s: RuntimeStory, action: Action, result: ActionResult, after: TrackerState) {
    match action
    case IssueContract => st.state == Contract && after.state == Develop && after.lastValidationPassed.None?
    case DevelopPatch =>
      && st.state == Develop && s.attempts < s.attemptBudget
      && after.state == Validate && after.lastValidationPassed.None?
    case RunValidation =>
      && st.state == Validate && st.lastValidationPassed.None?
      && after.state == Validate && after.lastValidationPassed == result.validationPassed
    case WriteCheckpoint => st.state == Validate && st.lastValidationPassed == Some(true) && after.state == Checkpoint
    case RouteDebugger =>
      && st.state == Validate && st.lastValidationPassed == Some(false) && s.attempts < s.attemptBudget
      && after.state == Debug
    case RetryDevelop => st.state == Debug && after.state == Develop && after.lastValidationPassed.None?
    case MarkStoryDone => st.state == Checkpoint && after.state == Select && after.activeStoryId.None?
    case EscalateHuman =>
      && (st.state == Develop || (st.state == Validate && st.lastValidationPassed == Some(false)))
      && s.attempts >= s.attemptBudget && after.state == Gate
    case StopRun => st.iterationsUsed >= st.runIterationBudget && after.state == Stopped
    case SelectNextStory => false
  }

  lemma TickMovesPhase(st: TrackerState, k: nat, result: ActionResult, collate: Collation)
    requires ProperIds(st.stories) && ActiveAt(st, k)
    ensures
      var d := DecideNextAction(st, collate);
      var after := AdvanceTrackerState(st, d, result);
      && PhaseMove(st, st.stories[k], d.action, result, after)
      && (d.action != MarkStoryDone ==> after.activeStoryId == st.activeStoryId)
      && (d.action in {IssueContract, WriteCheckpoint, RouteDebugger, EscalateHuman, StopRun} ==>
            after.lastValidationPassed == st.lastValidationPassed)
      && after.humanGateCleared == st.humanGateCleared
      && after.stopReason ==
           (if d.action == EscalateHuman then Some(AttemptBudgetExceeded)
            else if d.action == StopRun then Some(RunBudgetExhausted)
            else st.stopReason)
  {
    FindIsUnique(st.stories, k);
    assert ActiveStory(st) == Some(st.stories[k]);
    InFlightDecision(st, k, collate);
    AdvanceKeepsTheRest(st, DecideNextAction(st, collate), result);
  }

  lemma TickHalted(st: TrackerState, result: ActionResult, collate: Collation)
    requires Halted(st)
    ensures
      var d := DecideNextAction(st, collate);
      var after := AdvanceTrackerState(st, d, result);
      && (d.action == StopRun || d.action == SelectNextStory)
      && d.storyId.None?
      && after.stories == st.stories
      && after.state == Stopped && after.humanGateCleared == st.humanGateCleared
      && after.activeStoryId == st.activeStoryId && after.lastValidationPassed == st.lastValidationPassed
      && (if st.iterationsUsed >= st.runIterationBudget then after.stopReason == Some(RunBudgetExhausted)
          else if st.state == Stopped then after.stopReason == Some(st.stopReason.GetOr(AlreadyStopped))
          else if !st.humanGateCleared then after.stopReason == Some(AwaitingHumanGate)
          else d.action == SelectNextStory
               && after.stopReason == Some(if result.error.Some? then ErrorText(result.error.value) else SelectFailed))
  {
  }

  /** Only ids, dependencies, ordering and budgets of the stories are fixed; these never change. */
  ghost predicate SameBacklog(a: seq<RuntimeStory>, b: seq<RuntimeStory>) {
    && |a| == |b|
    && forall i | 0 <= i < |a| ::
         && a[i].storyId == b[i].storyId && a[i].dependsOn == b[i].dependsOn
         && a[i].priority == b[i].priority && a[i].orderIndex == b[i].orderIndex
         && a[i].attemptBudget == b[i].attemptBudget
  }

  lemma SameBacklogKeepsIds(a: seq<RuntimeStory>, b: seq<RuntimeStory>)
    requires SameBacklog(a, b)
    ensures StoryIds(a) == StoryIds(b) && (ProperIds(a) ==> ProperIds(b))
  {
  }

  lemma UpdateKeepsDone(stories: seq<RuntimeStory>, k: nat, s: RuntimeStory)
    requires k < |stories| && stories[k].status != Done && s.storyId == stories[k].storyId
    ensures DoneIds(stories) <= DoneIds(stories[k := s])
    ensures DoneIds(stories[k := s]) <= DoneIds(stories) + (if s.status == Done then {s.storyId} else {})
  {
    var after := stories[k := s];
    forall id | id in DoneIds(stories)
      ensures id in DoneIds(after)
    {
      var x :| x in stories && x.status == Done && x.storyId == id;
      var i :| 0 <= i < |stories| && stories[i] == x;
      assert after[i] == x;
    }
    forall x | x in after && x.status == Done
      ensures x.storyId in DoneIds(stories) + (if s.status == Done then {s.storyId} else {})
    {
      var i :| 0 <= i < |after| && after[i] == x;
      assert i != k ==> x in stories;
    }
  }

  /** One step keeps the shape and the backlog, and never takes a story back out of `done`. */
  lemma StepKeepsShape(run: Run, event: Event, collate: Collation)
    requires WellShaped(run.now)
    ensures WellShaped(Step(run, event, collate).now)
    ensures SameBacklog(run.now.stories, Step(run, event, collate).now.stories)
    ensures DoneIds(run.now.stories) <= DoneIds(Step(run, event, collate).now.stories)
  {
    var st, after := run.now, Step(run, event, collate).now;
    match event {
      case SetGateCleared(cleared) =>
        GateFlagKeepsShape(st, cleared);
      case Tick(result) =>
        if Halted(st) {
          TickHalted(st, result, collate);
        } else if BetweenStories(st) {
          var k := TickBetween(st, result, collate);
          if after.state == Contract {
            SelectionKeepsShape(st, k, result, after);
          }
        } else {
          var k: nat :| ActiveAt(st, k);
          InFlightStepKeepsShape(st, k, result, collate);
        }
    }
  }

  lemma SelectionKeepsShape(st: TrackerState, k: nat, result: ActionResult, after: TrackerState)
    requires WellShaped(st) && BetweenStories(st) && k < |st.stories| && Runnable(st.stories[k], DoneIds(st.stories))
    requires after.stories == st.stories[k := StoryAfter(st.stories[k], SelectNextStory, result)]
    requires after.state == Contract && after.lastValidationPassed.None?
    requires after.activeStoryId == Some(st.stories[k].storyId)
    ensures WellShaped(after)
    ensures SameBacklog(st.stories, after.stories)
    ensures DoneIds(st.stories) <= DoneIds(after.stories)
  {
    UpdateKeepsDone(st.stories, k, after.stories[k]);
    SameBacklogKeepsIds(st.stories, after.stories);
    assert ActiveAt(after, k);
  }

  lemma GateFlagKeepsShape(st: TrackerState, cleared: bool)
    requires WellShaped(st)
    ensures WellShaped(st.(humanGateCleared := cleared))
  {
    if InFlight(st) {
      var k: nat :| ActiveAt(st, k);
      assert ActiveAt(st.(humanGateCleared := cleared), k);
    }
  }

  lemma {:induction false} InFlightStepKeepsShape(st: TrackerState, k: nat, result: ActionResult, collate: Collation)
    requires WellShaped(st) && ActiveAt(st, k)
    ensures
      var d := DecideNextAction(st, collate);
      var after := AdvanceTrackerState(st, d, result);
      && WellShaped(after)
      && SameBacklog(st.stories, after.stories)
      && DoneIds(st.stories) <= DoneIds(after.stories)
      && (InFlight(after) ==> ActiveAt(after, k))
  {
    var d := DecideNextAction(st, collate);
    TickInFlight(st, k, result, collate);
    TickMovesPhase(st, k, result, collate);
    MoveKeepsShape(st, k, d.action, result, AdvanceTrackerState(st, d, result));
  }

  lemma MoveKeepsShape(st: TrackerState, k: nat, action: Action, result: ActionResult, after: TrackerState)
    requires WellShaped(st) && ActiveAt(st, k)
    requires after.stories == st.stories[k := StoryAfter(st.stories[k], action, result)]
    requires PhaseMove(st, st.stories[k], action, result, after)
    requires action != MarkStoryDone ==> after.activeStoryId == st.activeStoryId
    ensures WellShaped(after)
    ensures SameBacklog(st.stories, after.stories)
    ensures DoneIds(st.stories) <= DoneIds(after.stories)
    ensures InFlight(after) ==> ActiveAt(after, k)
  {
    UpdateKeepsDone(st.stories, k, after.stories[k]);
    SameBacklogKeepsIds(st.stories, after.stories);
    assert InFlight(after) ==> ActiveAt(after, k);
  }

  lemma {:induction false} RunKeepsShape(start: TrackerState, events: seq<Event>, collate: Collation)
    requires WellFormedStart(start)
    ensures WellShaped(Execute(start, events, collate).now)
    ensures SameBacklog(start.stories, Execute(start, events, collate).now.stories)
    ensures DoneIds(start.stories) <= DoneIds(Execute(start, events, collate).now.stories)
  {
    if events != [] {
      var n := |events| - 1;
      RunKeepsShape(start, events[..n], collate);
      StepKeepsShape(Execute(start, events[..n], collate), events[n], collate);
    }
  }
}
