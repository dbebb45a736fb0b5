/**
 * Orchestrator v0: one decision per tick, and the state it leads to.
 * Both functions are pure, as in the source; every step returns a new state.
 */
module Orchestrator {
  import opened Common
  import opened DependencyGraph
  import Sorting

  datatype OrchestratorState =
    Idle | Select | Contract | Develop | Validate | Debug | Checkpoint | Gate | Stopped

  datatype StoryStatus =
    Todo | Ready | InProgress | Validating | Debugging | Passed | Checkpointed | Blocked | Escalated | Done

  datatype Action =
    | SelectNextStory | IssueContract | DevelopPatch | RunValidation | WriteCheckpoint
    | MarkStoryDone | RouteDebugger | RetryDevelop | EscalateHuman | StopRun

  datatype Reason =
    | RunBudgetExhausted | AllStoriesComplete | BlockedDependency | NoActiveStory
    | AttemptBudgetExceeded | AwaitingHumanGate | AlreadyStopped | SelectFailed
    | EscalatedByDefault | StoppedByDefault | ErrorText(text: string)

  datatype RuntimeStory = RuntimeStory(
    storyId: StoryId,
    dependsOn: seq<StoryId>,
    status: StoryStatus,
    priority: int,
    orderIndex: int,
    attempts: int,
    attemptBudget: int,
    blockedReason: Option<Reason>)

  datatype RuntimeDecision = RuntimeDecision(
    action: Action,
    storyId: Option<StoryId>,
    reason: Option<Reason>,
    tick: int)

  datatype TrackerState = TrackerState(
    state: OrchestratorState,
    runIterationBudget: int,
    iterationsUsed: int,
    stories: seq<RuntimeStory>,
    activeStoryId: Option<StoryId>,
    lastValidationPassed: Option<bool>,
    humanGateCleared: bool,
    stopReason: Option<Reason>,
    decisionLog: seq<RuntimeDecision>)

  datatype ActionResult = ActionResult(success: bool, validationPassed: Option<bool>, error: Option<string>)

  /** A string id counts as present only when it is neither null nor empty. */
  predicate Truthy(id: Option<StoryId>) {
    id.Some? && id.value != ""
  }

  // ----- story selection -----

  predicate Selectable(s: RuntimeStory) {
    s.status == Todo || s.status == Ready
  }

  function DoneIds(stories: seq<RuntimeStory>): set<StoryId> {
    set s | s in stories && s.status == Done :: s.storyId
  }

  predicate DependenciesDone(s: RuntimeStory, done: set<StoryId>) {
    forall d | d in s.dependsOn :: d in done
  }

  predicate Runnable(s: RuntimeStory, done: set<StoryId>) {
    Selectable(s) && DependenciesDone(s, done)
  }

  datatype SelectionKey = SelectionKey(priority: int, orderIndex: int, storyId: StoryId)

  function KeyOf(s: RuntimeStory): SelectionKey {
    SelectionKey(s.priority, s.orderIndex, s.storyId)
  }

  /** Ascending priority, then order index, then id; `collate` stands for `localeCompare`. */
  predicate Precedes(a: SelectionKey, b: SelectionKey, collate: (StoryId, StoryId) -> bool) {
    || a.priority < b.priority
    || (&& a.priority == b.priority
        && (a.orderIndex < b.orderIndex || (a.orderIndex == b.orderIndex && collate(a.storyId, b.storyId))))
  }

  function SelectionOrder(collate: (StoryId, StoryId) -> bool): (SelectionKey, SelectionKey) -> bool {
    (a: SelectionKey, b: SelectionKey) => Precedes(a, b, collate)
  }

  function SelectNextRuntimeStory(stories: seq<RuntimeStory>, collate: (StoryId, StoryId) -> bool): Option<StoryId> {
    var done := DoneIds(stories);
    var candidates := Filter(stories, s => Runnable(s, done));
    if candidates == [] then None
    else
      Sorting.SortKeepsElements(candidates, KeyOf, SelectionOrder(collate));
      Some(Sorting.Sort(candidates, KeyOf, SelectionOrder(collate))[0].storyId)
  }

  /** `statusById`: a later duplicate id replaces an earlier one. */
  function StatusById(stories: seq<RuntimeStory>): map<StoryId, StoryStatus> {
    if stories == [] then map[]
    else
      var last := stories[|stories| - 1];
      StatusById(stories[..|stories| - 1])[last.storyId := last.status]
  }

  predicate WaitsForHuman(s: RuntimeStory, statusById: map<StoryId, StoryStatus>) {
    && Selectable(s)
    && exists d | d in s.dependsOn :: d in statusById && (statusById[d] == Blocked || statusById[d] == Escalated)
  }

  predicate HasBlockedOrEscalatedDependency(stories: seq<RuntimeStory>) {
    exists s | s in stories :: WaitsForHuman(s, StatusById(stories))
  }

  // ----- core decision -----

  function FindStory(stories: seq<RuntimeStory>, id: StoryId): Option<RuntimeStory> {
    if stories == [] then None
    else if stories[0].storyId == id then Some(stories[0])
    else FindStory(stories[1..], id)
  }

  function ActiveStory(st: TrackerState): Option<RuntimeStory> {
    if Truthy(st.activeStoryId) then FindStory(st.stories, st.activeStoryId.value) else None
  }

  function DecideNextAction(st: TrackerState, collate: (StoryId, StoryId) -> bool): RuntimeDecision {
    var tick := st.iterationsUsed;
    if st.iterationsUsed >= st.runIterationBudget then
      RuntimeDecision(StopRun, None, Some(RunBudgetExhausted), tick)
    else
      var active := ActiveStory(st);
      match st.state
      case Idle | Select =>
        if forall s | s in st.stories :: s.status == Done then
          RuntimeDecision(StopRun, None, Some(AllStoriesComplete), tick)
        else
          var next := SelectNextRuntimeStory(st.stories, collate);
          if Truthy(next) then RuntimeDecision(SelectNextStory, next, None, tick)
          else if HasBlockedOrEscalatedDependency(st.stories) then
            RuntimeDecision(EscalateHuman, None, Some(BlockedDependency), tick)
          else RuntimeDecision(StopRun, None, Some(AllStoriesComplete), tick)
      case Contract =>
        RuntimeDecision(IssueContract, if active.Some? then Some(active.value.storyId) else None, None, tick)
      case Develop =>
        if active.None? then RuntimeDecision(StopRun, None, Some(NoActiveStory), tick)
        else if active.value.attempts < active.value.attemptBudget then
          RuntimeDecision(DevelopPatch, Some(active.value.storyId), None, tick)
        else RuntimeDecision(EscalateHuman, Some(active.value.storyId), Some(AttemptBudgetExceeded), tick)
      case Validate =>
        if active.None? then RuntimeDecision(StopRun, None, Some(NoActiveStory), tick)
        else if st.lastValidationPassed.None? then
          RuntimeDecision(RunValidation, Some(active.value.storyId), None, tick)
        else if st.lastValidationPassed.value then
          RuntimeDecision(WriteCheckpoint, Some(active.value.storyId), None, tick)
        else if active.value.attempts < active.value.attemptBudget then
          RuntimeDecision(RouteDebugger, Some(active.value.storyId), None, tick)
        else RuntimeDecision(EscalateHuman, Some(active.value.storyId), Some(AttemptBudgetExceeded), tick)
      case Debug =>
        if active.None? then RuntimeDecision(StopRun, None, Some(NoActiveStory), tick)
        else RuntimeDecision(RetryDevelop, Some(active.value.storyId), None, tick)
      case Checkpoint =>
        if active.None? then RuntimeDecision(StopRun, None, Some(NoActiveStory), tick)
        else RuntimeDecision(MarkStoryDone, Some(active.value.storyId), None, tick)
      case Gate =>
        if st.humanGateCleared then RuntimeDecision(SelectNextStory, None, None, tick)
        else RuntimeDecision(StopRun, None, Some(AwaitingHumanGate), tick)
      case Stopped =>
        RuntimeDecision(StopRun, None, Some(st.stopReason.GetOr(AlreadyStopped)), tick)
  }

  // ----- state advancement -----

  function PatchStory(stories: seq<RuntimeStory>, id: StoryId, patch: RuntimeStory -> RuntimeStory): (r: seq<RuntimeStory>)
    ensures |r| == |stories|
    ensures forall i | 0 <= i < |r| ::
              r[i] == if stories[i].storyId == id then patch(stories[i]) else stories[i]
  {
    seq(|stories|, i requires 0 <= i < |stories| =>
      if stories[i].storyId == id then patch(stories[i]) else stories[i])
  }

  function SetStatus(stories: seq<RuntimeStory>, id: StoryId, status: StoryStatus): seq<RuntimeStory> {
    if id == "" then stories else PatchStory(stories, id, (s: RuntimeStory) => s.(status := status))
  }

  function AdvanceTrackerState(st: TrackerState, decision: RuntimeDecision, result: ActionResult): TrackerState {
    var logged := st.(decisionLog := st.decisionLog + [decision], iterationsUsed := st.iterationsUsed + 1);
    var activeId := decision.storyId.GetOr(st.activeStoryId.GetOr(""));
    match decision.action
    case SelectNextStory =>
      if !Truthy(decision.storyId) || !result.success then
        logged.(state := Stopped,
                stopReason := Some(if result.error.Some? then ErrorText(result.error.value) else SelectFailed))
      else
        logged.(state := Contract,
                activeStoryId := decision.storyId,
                lastValidationPassed := None,
                stories := SetStatus(st.stories, decision.storyId.value, InProgress))
    case IssueContract =>
      logged.(state := Develop, stories := SetStatus(st.stories, activeId, InProgress))
    case DevelopPatch =>
      var active := FindStory(st.stories, activeId);
      logged.(state := Validate,
              lastValidationPassed := None,
              stories := if activeId != "" && active.Some? then
                           PatchStory(st.stories, activeId,
                                      (s: RuntimeStory) => s.(attempts := active.value.attempts + 1))
                         else st.stories)
    case RunValidation =>
      logged.(lastValidationPassed := result.validationPassed,
              stories := SetStatus(st.stories, activeId,
                                   if result.validationPassed == Some(true) then Passed else InProgress))
    case WriteCheckpoint =>
      logged.(state := Checkpoint, stories := SetStatus(st.stories, activeId, Checkpointed))
    case RouteDebugger =>
      logged.(state := Debug, stories := SetStatus(st.stories, activeId, Debugging))
    case RetryDevelop =>
      logged.(state := Develop, lastValidationPassed := None)
    case MarkStoryDone =>
      logged.(state := Select,
              activeStoryId := None,
              lastValidationPassed := None,
              stories := SetStatus(st.stories, activeId, Done))
    case EscalateHuman =>
      logged.(state := Gate,
              stopReason := Some(decision.reason.GetOr(EscalatedByDefault)),
              stories := if activeId == "" then st.stories
                         else PatchStory(st.stories, activeId,
                                         (s: RuntimeStory) => s.(status := Escalated, blockedReason := decision.reason)))
    case StopRun =>
      logged.(state := Stopped, stopReason := Some(decision.reason.GetOr(StoppedByDefault)))
  }
}
