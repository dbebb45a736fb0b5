/**
 * A run whose validators eventually say yes ends with every story done that is not stuck, within a
 * tick bound that is attained.
 */
module RunLiveness {
  import opened Common
  import opened DependencyGraph
  import opened Orchestrator
  import opened OrchestratorRuns
  import opened RunSafety
  import opened SelectDecision
  import Sorting

  // ----- the potential of a run -----

  /** Ticks a story not yet started may still need: select, contract, and four per attempt; none if done or stuck. */
  function RestWeight(s: RuntimeStory, stuck: set<StoryId>): int {
    if s.status == Done || s.storyId in stuck then 0 else 4 * (s.attemptBudget - s.attempts) + 2
  }

  function FullWeight(stuck: set<StoryId>): RuntimeStory -> int {
    (s: RuntimeStory) => RestWeight(s, stuck)
  }

  function PhaseWeight(state: OrchestratorState, last: Option<bool>, remaining: int): int {
    match state
    case Contract => 4 * remaining + 1
    case Develop => 4 * remaining
    case Validate => if last.None? then 4 * remaining + 3 else if last.value then 2 else 4 * remaining + 2
    case Debug => 4 * remaining + 1
    case _ => 1
  }

  function Weight(st: TrackerState, stuck: set<StoryId>): RuntimeStory -> int {
    (s: RuntimeStory) =>
      if st.activeStoryId == Some(s.storyId)
      then PhaseWeight(st.state, st.lastValidationPassed, s.attemptBudget - s.attempts)
      else RestWeight(s, stuck)
  }

  /** Ticks still needed at most, the last one included. */
  function Potential(st: TrackerState, stuck: set<StoryId>): int {
    Sum(st.stories, Weight(st, stuck)) + 1
  }

  /** The bound of the theorem: (4 * remaining attempts + 2) per unfinished story that is not stuck, plus one. */
  ghost function TickBound(stories: seq<RuntimeStory>): int {
    Sum(stories, FullWeight(StuckIds(stories))) + 1
  }

  ghost predicate AttemptsLeft(st: TrackerState, stuck: set<StoryId>, s: RuntimeStory) {
    if st.activeStoryId == Some(s.storyId) then
      && s.attempts <= s.attemptBudget
      && (st.state == Contract || st.state == Develop || st.state == Debug || st.lastValidationPassed == Some(false) ==>
            st.state == Checkpoint || s.attempts < s.attemptBudget)
    else
      s.storyId in stuck || s.status == Done || (Selectable(s) && s.attempts < s.attemptBudget)
  }

  ghost predicate Live(st: TrackerState, stuck: set<StoryId>) {
    && WellShaped(st) && !Halted(st)
    && stuck == StuckIds(st.stories)
    && forall i | 0 <= i < |st.stories| :: AttemptsLeft(st, stuck, st.stories[i])
  }

  /**
   * The run has ended with exactly the stories done that are not stuck: at the gate if some story
   * is `waiting` for a blocked or escalated one, and otherwise as complete.
   */
  ghost predicate Finished(st: TrackerState, stuck: set<StoryId>, waiting: bool) {
    && st.state == (if waiting then Gate else Stopped)
    && st.stopReason == Some(if waiting then BlockedDependency else AllStoriesComplete)
    && forall s | s in st.stories :: s.status == Done <==> s.storyId !in stuck
  }

  /**
   * Selecting works, every validation has a verdict, and the last attempt allowed gets a true one.
   * Results of other ticks are arbitrary.
   */
  ghost predicate Cooperative(st: TrackerState, result: ActionResult, collate: Collation) {
    var action := DecideNextAction(st, collate).action;
    && (action == SelectNextStory ==> result.success)
    && (action == RunValidation ==>
          && result.validationPassed.Some?
          && forall s | s in st.stories && st.activeStoryId == Some(s.storyId) && s.attempts >= s.attemptBudget ::
               result.validationPassed == Some(true))
  }

  /** As late as possible: only the last attempt allowed gets a true verdict. */
  ghost predicate Grudging(st: TrackerState, result: ActionResult, collate: Collation) {
    var action := DecideNextAction(st, collate).action;
    && (action == SelectNextStory ==> result.success)
    && (action == RunValidation ==>
          forall s | s in st.stories && st.activeStoryId == Some(s.storyId) ::
            result.validationPassed == Some(s.attempts >= s.attemptBudget))
  }

  lemma {:induction false} SumDiffersAtOne<T>(a: seq<T>, b: seq<T>, f: T -> int, g: T -> int, k: nat)
    requires |a| == |b| && k < |a|
    requires forall i | 0 <= i < |a| && i != k :: f(a[i]) == g(b[i])
    ensures Sum(b, g) - Sum(a, f) == g(b[k]) - f(a[k])
  {
    if k == 0 {
      SumAgrees(a[1..], b[1..], f, g);
    } else {
      SumDiffersAtOne(a[1..], b[1..], f, g, k - 1);
    }
  }

  lemma {:induction false} SumAgrees<T>(a: seq<T>, b: seq<T>, f: T -> int, g: T -> int)
    requires |a| == |b| && forall i | 0 <= i < |a| :: f(a[i]) == g(b[i])
    ensures Sum(a, f) == Sum(b, g)
  {
    if a != [] {
      SumAgrees(a[1..], b[1..], f, g);
    }
  }

  lemma {:induction false} SumIsNonNegative<T>(a: seq<T>, f: T -> int)
    requires forall i | 0 <= i < |a| :: f(a[i]) >= 0
    ensures Sum(a, f) >= 0
    ensures forall i | 0 <= i < |a| :: f(a[i]) <= Sum(a, f)
  {
    if a != [] {
      SumIsNonNegative(a[1..], f);
      forall i | 0 <= i < |a|
        ensures f(a[i]) <= Sum(a, f)
      {
        if i > 0 {
          assert f(a[1..][i - 1]) <= Sum(a[1..], f);
        }
      }
    }
  }

  lemma PotentialIsPositive(st: TrackerState, stuck: set<StoryId>)
    requires Live(st, stuck)
    ensures Potential(st, stuck) >= 1
  {
    forall i | 0 <= i < |st.stories|
      ensures Weight(st, stuck)(st.stories[i]) >= 0
    {
      WeightIsNonNegative(st, stuck, st.stories[i]);
    }
    SumIsNonNegative(st.stories, Weight(st, stuck));
  }

  lemma WeightIsNonNegative(st: TrackerState, stuck: set<StoryId>, s: RuntimeStory)
    requires AttemptsLeft(st, stuck, s)
    ensures Weight(st, stuck)(s) >= 0
  {
  }

  /** A story that can be worked on is not stuck, and working on it changes nothing for those that are. */
  lemma WorkKeepsStuckIds(st: TrackerState, k: nat, after: TrackerState)
    requires WellShaped(st) && k < |st.stories| && (Runnable(st.stories[k], DoneIds(st.stories)) || ActiveAt(st, k))
    requires |after.stories| == |st.stories| && after.stories == st.stories[k := after.stories[k]]
    requires SameBacklog(st.stories, after.stories) && !NeedsHuman(after.stories[k])
    requires DoneIds(st.stories) <= DoneIds(after.stories)
    ensures StuckIds(after.stories) == StuckIds(st.stories)
    ensures st.stories[k].storyId !in StuckIds(st.stories)
    ensures Untouched(st.stories, after.stories, StuckIds(st.stories))
  {
    var a, b, id := st.stories, after.stories, st.stories[k].storyId;
    SameBacklogKeepsIds(a, b);
    StuckIdsAreStuck(a);
    StuckIsNotWorkedOn(st, StuckIds(a), k);
    forall i | 0 <= i < |a| && a[i].storyId == id
      ensures i == k
    {
      assert StoryIds(a)[i] == StoryIds(a)[k];
    }
    UpdateKeepsDone(a, k, b[k]);
    forall members
      ensures Stuck(a, members) ==> Stuck(b, members)
      ensures Stuck(b, members) ==> Stuck(a, members)
    {
      if Stuck(a, members) {
        StuckIsNotWorkedOn(st, members, k);
        UntouchedStaysStuck(a, b, members);
      }
      if Stuck(b, members) {
        StuckBefore(a, k, b, members);
      }
    }
  }

  lemma StuckBefore(a: seq<RuntimeStory>, k: nat, b: seq<RuntimeStory>, members: set<StoryId>)
    requires k < |a| && |a| == |b| && b == a[k := b[k]] && SameBacklog(a, b) && !NeedsHuman(b[k])
    requires StoryIds(a) == StoryIds(b) && DoneIds(a) <= DoneIds(b) && Stuck(b, members)
    ensures Stuck(a, members)
  {
    forall s | s in a && s.storyId in members
      ensures NeedsHuman(s) || exists d | d in s.dependsOn :: d in members || d !in StoryIds(a)
    {
      var i :| 0 <= i < |a| && a[i] == s;
      assert b[i] in b;
    }
  }

  /** The story being worked on: what one move does to its weight. */
  lemma WeightDrops(st: TrackerState, stuck: set<StoryId>, s: RuntimeStory, action: Action, result: ActionResult, after: TrackerState)
    requires st.activeStoryId == Some(s.storyId) && AttemptsLeft(st, stuck, s)
    requires StatusFits(st.state, st.lastValidationPassed, s.status)
    requires action == RunValidation ==>
               result.validationPassed.Some? && (s.attempts >= s.attemptBudget ==> result.validationPassed == Some(true))
    requires PhaseMove(st, s, action, result, after) && action != StopRun
    requires st.state == Contract ==> st.lastValidationPassed.None?
    requires action != MarkStoryDone ==> after.activeStoryId == st.activeStoryId
    requires action == WriteCheckpoint ==> after.lastValidationPassed == st.lastValidationPassed
    ensures !Halted(after) && AttemptsLeft(after, stuck, StoryAfter(s, action, result))
    ensures action != EscalateHuman && !NeedsHuman(StoryAfter(s, action, result))
    ensures Weight(after, stuck)(StoryAfter(s, action, result)) < Weight(st, stuck)(s)
    ensures (action == RunValidation ==> result.validationPassed == Some(s.attempts >= s.attemptBudget)) ==>
              Weight(after, stuck)(StoryAfter(s, action, result)) == Weight(st, stuck)(s) - 1
  {
  }

  /** All other stories keep their weight and their remaining attempts. */
  lemma OthersKeepWeight(st: TrackerState, stuck: set<StoryId>, k: nat, after: TrackerState, s: RuntimeStory)
    requires ProperIds(st.stories) && k < |st.stories|
    requires forall i | 0 <= i < |st.stories| :: AttemptsLeft(st, stuck, st.stories[i])
    requires after.stories == st.stories[k := s]
    requires st.activeStoryId.None? || st.activeStoryId == Some(st.stories[k].storyId)
    requires after.activeStoryId.None? || after.activeStoryId == Some(st.stories[k].storyId)
    ensures forall i | 0 <= i < |st.stories| && i != k ::
              && Weight(after, stuck)(after.stories[i]) == Weight(st, stuck)(st.stories[i])
              && AttemptsLeft(after, stuck, after.stories[i])
  {
    forall i | 0 <= i < |st.stories| && i != k
      ensures Weight(after, stuck)(after.stories[i]) == Weight(st, stuck)(st.stories[i])
      ensures AttemptsLeft(after, stuck, after.stories[i])
    {
      assert StoryIds(st.stories)[i] == st.stories[i].storyId && StoryIds(st.stories)[k] == st.stories[k].storyId;
      assert AttemptsLeft(st, stuck, st.stories[i]);
    }
  }

  /** A move in flight costs at least one tick of the potential, exactly one if its verdict is grudging. */
  lemma {:induction false} MoveProgresses(
    st: TrackerState, stuck: set<StoryId>, k: nat, action: Action, result: ActionResult, after: TrackerState)
    requires Live(st, stuck) && ActiveAt(st, k)
    requires action == RunValidation ==>
               && result.validationPassed.Some?
               && (st.stories[k].attempts >= st.stories[k].attemptBudget ==> result.validationPassed == Some(true))
    requires after.stories == st.stories[k := StoryAfter(st.stories[k], action, result)]
    requires PhaseMove(st, st.stories[k], action, result, after)
    requires action != MarkStoryDone ==> after.activeStoryId == st.activeStoryId
    requires action == WriteCheckpoint ==> after.lastValidationPassed == st.lastValidationPassed
    requires action != StopRun
    requires WellShaped(after) && SameBacklog(st.stories, after.stories) && DoneIds(st.stories) <= DoneIds(after.stories)
    ensures Live(after, stuck) && Untouched(st.stories, after.stories, stuck)
    ensures Potential(after, stuck) < Potential(st, stuck)
    ensures (action == RunValidation ==>
               result.validationPassed == Some(st.stories[k].attempts >= st.stories[k].attemptBudget)) ==>
              Potential(after, stuck) == Potential(st, stuck) - 1
  {
    assert AttemptsLeft(st, stuck, st.stories[k]);
    WeightDrops(st, stuck, st.stories[k], action, result, after);
    WorkKeepsStuckIds(st, k, after);
    OthersKeepWeight(st, stuck, k, after, after.stories[k]);
    SumDiffersAtOne(st.stories, after.stories, Weight(st, stuck), Weight(after, stuck), k);
  }

  lemma SelectingCostsOne(st: TrackerState, stuck: set<StoryId>, s: RuntimeStory, result: ActionResult, after: TrackerState)
    requires st.activeStoryId.None? && AttemptsLeft(st, stuck, s) && Selectable(s) && s.storyId !in stuck
    requires after.state == Contract && after.activeStoryId == Some(s.storyId) && after.lastValidationPassed.None?
    ensures AttemptsLeft(after, stuck, StoryAfter(s, SelectNextStory, result))
    ensures Weight(after, stuck)(StoryAfter(s, SelectNextStory, result)) == Weight(st, stuck)(s) - 1
  {
  }

  lemma {:induction false} SelectProgresses(
    st: TrackerState, stuck: set<StoryId>, k: nat, result: ActionResult, after: TrackerState)
    requires Live(st, stuck) && BetweenStories(st) && k < |st.stories|
    requires WellShaped(after) && SameBacklog(st.stories, after.stories) && DoneIds(st.stories) <= DoneIds(after.stories)
    requires Runnable(st.stories[k], DoneIds(st.stories))
    requires after.stories == st.stories[k := StoryAfter(st.stories[k], SelectNextStory, result)]
    requires after.state == Contract && after.activeStoryId == Some(st.stories[k].storyId) && after.lastValidationPassed.None?
    ensures Live(after, stuck) && Untouched(st.stories, after.stories, stuck)
    ensures Potential(after, stuck) == Potential(st, stuck) - 1
  {
    WorkKeepsStuckIds(st, k, after);
    SelectingCostsOne(st, stuck, st.stories[k], result, after);
    OthersKeepWeight(st, stuck, k, after, after.stories[k]);
    SumDiffersAtOne(st.stories, after.stories, Weight(st, stuck), Weight(after, stuck), k);
  }

  lemma {:induction false} NothingWeighsNothing(stories: seq<RuntimeStory>, f: RuntimeStory -> int)
    requires forall s | s in stories :: f(s) == 0
    ensures Sum(stories, f) == 0
  {
    if stories != [] {
      NothingWeighsNothing(stories[1..], f);
    }
  }

  /** Between stories, nothing is runnable exactly when everything that is not done is stuck. */
  lemma NothingRunnableIffRestIsStuck(st: TrackerState)
    requires WellShaped(st) && BetweenStories(st)
    ensures NothingRunnable(st.stories) <==> forall s | s in st.stories :: s.status == Done <==> s.storyId !in StuckIds(st.stories)
  {
    var stories := st.stories;
    StuckIdsAreStuck(stories);
    forall s | s in stories
      ensures Settled(s.status) && s.storyId in StoryIds(stories)
      ensures Runnable(s, DoneIds(stories)) ==> s.storyId !in StuckIds(stories)
      ensures s.status == Done ==> s.storyId in DoneIds(stories)
    {
      var i := IndexOf(stories, s);
      if Runnable(s, DoneIds(stories)) {
        StuckIsNotWorkedOn(st, StuckIds(stories), i);
      }
    }
    if NothingRunnable(stories) {
      var rest := set s | s in stories && s.storyId !in DoneIds(stories) :: s.storyId;
      assert Stuck(stories, rest);
      forall s | s in stories && s.status != Done
        ensures s.storyId in rest
      {
        var i := IndexOf(stories, s);
        NotDoneAt(stories, i);
      }
    }
  }

  /** Between stories a run goes on selecting until the rest is stuck, and then ends. */
  lemma {:induction false} LiveSelects(st: TrackerState, collate: Collation)
    requires WellShaped(st) && BetweenStories(st) && st.iterationsUsed < st.runIterationBudget
    requires Sorting.TotalOrder(collate)
    ensures
      var d := DecideNextAction(st, collate);
      if forall s | s in st.stories :: s.status == Done <==> s.storyId !in StuckIds(st.stories) then
        if HasBlockedOrEscalatedDependency(st.stories)
        then d.action == EscalateHuman && d.reason == Some(BlockedDependency)
        else d.action == StopRun && d.reason == Some(AllStoriesComplete)
      else d.action == SelectNextStory
  {
    NothingRunnableIffRestIsStuck(st);
    BetweenDecision(st, collate);
    if s :| s in st.stories && WaitsForHuman(s, StatusById(st.stories)) {
      assert s.storyId in SelectableIds(st.stories);
    }
    RunnableIsSelectable(st.stories);
  }

  lemma {:induction false} TickProgresses(st: TrackerState, stuck: set<StoryId>, result: ActionResult, collate: Collation)
    requires Sorting.TotalOrder(collate)
    requires Live(st, stuck) && Cooperative(st, result, collate) && st.iterationsUsed < st.runIterationBudget
    ensures
      var after := AdvanceTrackerState(st, DecideNextAction(st, collate), result);
      && SameBacklog(st.stories, after.stories) && Untouched(st.stories, after.stories, stuck)
      && if Halted(after) then
           Finished(after, stuck, HasBlockedOrEscalatedDependency(st.stories)) && Potential(st, stuck) == 1
         else
           && Live(after, stuck) && Potential(after, stuck) < Potential(st, stuck)
           && (Grudging(st, result, collate) ==> Potential(after, stuck) == Potential(st, stuck) - 1)
  {
    var d := DecideNextAction(st, collate);
    var after := AdvanceTrackerState(st, d, result);
    StepKeepsShape(Run(st, []), Tick(result), collate);
    if BetweenStories(st) {
      LiveSelects(st, collate);
      var k := TickBetween(st, result, collate);
      if d.action == SelectNextStory {
        SelectProgresses(st, stuck, k, result, after);
      } else {
        NothingWeighsNothing(st.stories, Weight(st, stuck));
      }
    } else {
      var k: nat :| ActiveAt(st, k);
      assert st.stories[k] in st.stories;
      TickInFlight(st, k, result, collate);
      TickMovesPhase(st, k, result, collate);
      MoveProgresses(st, stuck, k, d.action, result, after);
    }
  }

  // ----- runs -----

  function TickCount(events: seq<Event>): nat {
    if events == [] then 0
    else TickCount(events[..|events| - 1]) + if events[|events| - 1].Tick? then 1 else 0
  }

  ghost predicate AllCooperate(start: TrackerState, events: seq<Event>, collate: Collation) {
    forall i | 0 <= i < |events| && events[i].Tick? ::
      Cooperative(Execute(start, events[..i], collate).now, events[i].result, collate)
  }

  ghost predicate AllGrudge(start: TrackerState, events: seq<Event>, collate: Collation) {
    forall i | 0 <= i < |events| && events[i].Tick? ::
      Grudging(Execute(start, events[..i], collate).now, events[i].result, collate)
  }

  /** Any well-formed start in which unfinished stories have attempts left, unless they are stuck. */
  ghost predicate LiveStart(start: TrackerState) {
    && WellFormedStart(start)
    && forall s | s in start.stories && Selectable(s) && s.storyId !in StuckIds(start.stories) :: s.attempts < s.attemptBudget
  }

  ghost predicate FinishedAfter(start: TrackerState, events: seq<Event>, collate: Collation, n: nat)
    requires n <= |events|
  {
    Finished(Execute(start, events[..n], collate).now, StuckIds(start.stories), HasBlockedOrEscalatedDependency(start.stories))
  }

  ghost predicate FinishedBy(start: TrackerState, events: seq<Event>, collate: Collation) {
    exists n | 0 <= n <= |events| :: FinishedAfter(start, events, collate, n)
  }

  lemma StartPotential(start: TrackerState)
    requires LiveStart(start)
    ensures Live(start, StuckIds(start.stories)) && Potential(start, StuckIds(start.stories)) == TickBound(start.stories)
  {
    var stuck := StuckIds(start.stories);
    forall i | 0 <= i < |start.stories|
      ensures AttemptsLeft(start, stuck, start.stories[i])
    {
      var s := start.stories[i];
      assert s in start.stories && StoryIds(start.stories)[i] == s.storyId;
      if NeedsHuman(s) {
        NeedsHumanIsStuck(start.stories, i);
      }
    }
    SumAgrees(start.stories, start.stories, Weight(start, stuck), FullWeight(stuck));
  }

  lemma NeedsHumanIsStuck(stories: seq<RuntimeStory>, i: nat)
    requires ProperIds(stories) && i < |stories| && NeedsHuman(stories[i])
    ensures stories[i].storyId in StuckIds(stories)
  {
    var members := {stories[i].storyId};
    NotDoneAt(stories, i);
    forall s | s in stories && s.storyId in members
      ensures NeedsHuman(s)
    {
      SameStory(stories, s, stories[i]);
    }
    assert Stuck(stories, members) && StoryIds(stories)[i] in members;
  }

  lemma GateFlagKeepsLive(st: TrackerState, stuck: set<StoryId>, cleared: bool)
    requires Live(st, stuck)
    ensures
      var after := st.(humanGateCleared := cleared);
      Live(after, stuck) && Potential(after, stuck) == Potential(st, stuck)
  {
    var after := st.(humanGateCleared := cleared);
    StepKeepsShape(Run(st, []), SetGateCleared(cleared), (a, b) => true);
    forall i | 0 <= i < |st.stories|
      ensures AttemptsLeft(after, stuck, after.stories[i])
    {
      assert AttemptsLeft(st, stuck, st.stories[i]);
    }
    SumAgrees(st.stories, st.stories, Weight(st, stuck), Weight(after, stuck));
  }

  /** The same stories wait for a blocked or escalated one, as those involved are stuck and stay as they are. */
  lemma WaitingStays(a: seq<RuntimeStory>, b: seq<RuntimeStory>)
    requires ProperIds(a) && SameBacklog(a, b) && Untouched(a, b, StuckIds(a)) && StuckIds(b) == StuckIds(a)
    ensures HasBlockedOrEscalatedDependency(a) <==> HasBlockedOrEscalatedDependency(b)
  {
    SameBacklogKeepsIds(a, b);
    if HasBlockedOrEscalatedDependency(a) {
      WaitingCarriesOver(a, b);
    }
    if HasBlockedOrEscalatedDependency(b) {
      WaitingCarriesOver(b, a);
    }
  }

  lemma WaitingCarriesOver(a: seq<RuntimeStory>, b: seq<RuntimeStory>)
    requires ProperIds(a) && ProperIds(b) && |a| == |b|
    requires forall i | 0 <= i < |a| && a[i].storyId in StuckIds(a) :: b[i] == a[i]
    requires HasBlockedOrEscalatedDependency(a)
    ensures HasBlockedOrEscalatedDependency(b)
  {
    var s :| s in a && WaitsForHuman(s, StatusById(a));
    var d :| d in s.dependsOn && d in StatusById(a) && (StatusById(a)[d] == Blocked || StatusById(a)[d] == Escalated);
    StatusKeys(a);
    var j :| 0 <= j < |a| && StoryIds(a)[j] == d;
    StatusLookup(a, j);
    NeedsHumanIsStuck(a, j);
    var i := IndexOf(a, s);
    WaitingIsStuck(a, i, d);
    StatusLookup(b, j);
    assert b[i] in b && WaitsForHuman(b[i], StatusById(b));
  }

  lemma WaitingIsStuck(stories: seq<RuntimeStory>, i: nat, d: StoryId)
    requires ProperIds(stories) && i < |stories| && Selectable(stories[i])
    requires d in stories[i].dependsOn && d in StuckIds(stories)
    ensures stories[i].storyId in StuckIds(stories)
  {
    StuckIdsAreStuck(stories);
    NotDoneAt(stories, i);
    var members := StuckIds(stories) + {stories[i].storyId};
    forall s | s in stories && s.storyId in members
      ensures NeedsHuman(s) || exists e | e in s.dependsOn :: e in members || e !in StoryIds(stories)
    {
      if s.storyId == stories[i].storyId {
        SameStory(stories, s, stories[i]);
        assert d in s.dependsOn && d in members;
      } else {
        assert s.storyId in StuckIds(stories);
      }
    }
    assert Stuck(stories, members) && StoryIds(stories)[i] in members;
  }

  /** After `t` ticks the run is live and has paid one unit of potential per tick; exactly one if `tight`. */
  ghost predicate Paying(start: TrackerState, st: TrackerState, t: nat, tight: bool) {
    var stuck := StuckIds(start.stories);
    && Live(st, stuck)
    && SameBacklog(start.stories, st.stories) && Untouched(start.stories, st.stories, stuck)
    && st.runIterationBudget == start.runIterationBudget
    && st.iterationsUsed == start.iterationsUsed + t
    && Potential(st, stuck) + t <= TickBound(start.stories)
    && (tight ==> Potential(st, stuck) + t == TickBound(start.stories))
  }

  lemma {:induction false} TickPays(
    start: TrackerState, st: TrackerState, t: nat, tight: bool, result: ActionResult, collate: Collation)
    requires Sorting.TotalOrder(collate) && ProperIds(start.stories)
    requires Paying(start, st, t, tight) && t < start.runIterationBudget - start.iterationsUsed
    requires Cooperative(st, result, collate) && (tight ==> Grudging(st, result, collate))
    ensures
      var after := AdvanceTrackerState(st, DecideNextAction(st, collate), result);
      if Halted(after) then
        && Finished(after, StuckIds(start.stories), HasBlockedOrEscalatedDependency(start.stories))
        && (tight ==> t + 1 == TickBound(start.stories))
      else Paying(start, after, t + 1, tight)
  {
    var stuck, after := StuckIds(start.stories), AdvanceTrackerState(st, DecideNextAction(st, collate), result);
    TickProgresses(st, stuck, result, collate);
    TickLogs(st, result, collate);
    WaitingStays(start.stories, st.stories);
    UntouchedAddsUp(start.stories, st.stories, after.stories, stuck);
  }

  lemma UntouchedAddsUp(a: seq<RuntimeStory>, b: seq<RuntimeStory>, c: seq<RuntimeStory>, members: set<StoryId>)
    requires SameBacklog(a, b) && SameBacklog(b, c) && Untouched(a, b, members) && Untouched(b, c, members)
    ensures SameBacklog(a, c) && Untouched(a, c, members)
  {
  }

  lemma GrudgingIsCooperative(st: TrackerState, result: ActionResult, collate: Collation)
    requires WellShaped(st) && Grudging(st, result, collate)
    ensures Cooperative(st, result, collate)
  {
    if DecideNextAction(st, collate).action == RunValidation {
      if InFlight(st) {
        var k: nat :| ActiveAt(st, k);
        assert st.stories[k] in st.stories;
      } else if BetweenStories(st) {
        var k := TickBetween(st, result, collate);
      } else {
        TickHalted(st, result, collate);
      }
    }
  }

  lemma {:induction false} PrefixCooperates(start: TrackerState, events: seq<Event>, collate: Collation)
    requires events != []
    ensures AllCooperate(start, events, collate) ==> AllCooperate(start, events[..|events| - 1], collate)
    ensures AllGrudge(start, events, collate) ==> AllGrudge(start, events[..|events| - 1], collate)
  {
    var before := events[..|events| - 1];
    forall i | 0 <= i < |before|
      ensures before[..i] == events[..i] && before[i] == events[i]
    {
    }
  }

  /** As long as the run budget lasts, a cooperative run is finished or still paying off its potential. */
  lemma {:induction false} RunProgresses(start: TrackerState, events: seq<Event>, collate: Collation) returns (done: bool)
    requires Sorting.TotalOrder(collate) && LiveStart(start)
    requires AllCooperate(start, events, collate)
    requires TickCount(events) <= start.runIterationBudget - start.iterationsUsed
    ensures done ==> FinishedBy(start, events, collate)
    ensures !done ==> Paying(start, Execute(start, events, collate).now, TickCount(events), false)
  {
    if events == [] {
      StartPotential(start);
      done := false;
    } else {
      var n := |events| - 1;
      PrefixCooperates(start, events, collate);
      done := RunProgresses(start, events[..n], collate);
      if done {
        FinishedEarlier(start, events, collate);
      } else {
        EventPays(start, Execute(start, events[..n], collate), TickCount(events[..n]), false, events[n], collate);
        done := Halted(Execute(start, events, collate).now);
        if done {
          FinishedNow(start, events, collate);
        }
      }
    }
  }

  lemma {:induction false} EventPays(start: TrackerState, run: Run, t: nat, tight: bool, event: Event, collate: Collation)
    requires Sorting.TotalOrder(collate) && ProperIds(start.stories) && Paying(start, run.now, t, tight)
    requires event.Tick? ==> t < start.runIterationBudget - start.iterationsUsed
    requires event.Tick? ==> Cooperative(run.now, event.result, collate) && (tight ==> Grudging(run.now, event.result, collate))
    ensures
      var after, u := Step(run, event, collate).now, t + if event.Tick? then 1 else 0;
      if Halted(after) then
        && event.Tick? && Finished(after, StuckIds(start.stories), HasBlockedOrEscalatedDependency(start.stories))
        && (tight ==> u == TickBound(start.stories))
      else Paying(start, after, u, tight)
  {
    match event {
      case SetGateCleared(cleared) => GateFlagKeepsLive(run.now, StuckIds(start.stories), cleared);
      case Tick(result) => TickPays(start, run.now, t, tight, result, collate);
    }
  }

  /** A grudging run pays exactly one unit per tick and has not ended before the bound. */
  lemma {:induction false} GrudgingRunTakesItsTime(start: TrackerState, events: seq<Event>, collate: Collation)
    requires Sorting.TotalOrder(collate) && LiveStart(start)
    requires AllGrudge(start, events, collate)
    requires TickCount(events) <= start.runIterationBudget - start.iterationsUsed
    requires TickCount(events) < TickBound(start.stories)
    ensures !Halted(Execute(start, events, collate).now)
    ensures Paying(start, Execute(start, events, collate).now, TickCount(events), true)
  {
    if events == [] {
      StartPotential(start);
    } else {
      var n := |events| - 1;
      PrefixCooperates(start, events, collate);
      GrudgingRunTakesItsTime(start, events[..n], collate);
      var run := Execute(start, events[..n], collate);
      if events[n].Tick? {
        GrudgingIsCooperative(run.now, events[n].result, collate);
      }
      EventPays(start, run, TickCount(events[..n]), true, events[n], collate);
    }
  }

  lemma {:induction false} FinishedEarlier(start: TrackerState, events: seq<Event>, collate: Collation)
    requires events != [] && FinishedBy(start, events[..|events| - 1], collate)
    ensures FinishedBy(start, events, collate)
  {
    var before := events[..|events| - 1];
    var n :| 0 <= n <= |before| && FinishedAfter(start, before, collate, n);
    assert before[..n] == events[..n];
    assert FinishedAfter(start, events, collate, n);
  }

  lemma {:induction false} FinishedNow(start: TrackerState, events: seq<Event>, collate: Collation)
    requires Finished(Execute(start, events, collate).now, StuckIds(start.stories), HasBlockedOrEscalatedDependency(start.stories))
    ensures FinishedBy(start, events, collate)
  {
    assert events[..|events|] == events;
    assert FinishedAfter(start, events, collate, |events|);
  }

  /**
   * With run budget for the bound, a cooperative run ends within the bound, with exactly the
   * stories done that are not stuck; at the gate if a story waits for a blocked or escalated one,
   * otherwise as complete.
   */
  lemma {:induction false} EveryStoryGetsDone(start: TrackerState, events: seq<Event>, collate: Collation)
    requires Sorting.TotalOrder(collate) && LiveStart(start)
    requires start.runIterationBudget - start.iterationsUsed >= TickBound(start.stories)
    requires AllCooperate(start, events, collate)
    requires TickCount(events) == TickBound(start.stories)
    ensures FinishedBy(start, events, collate)
  {
    var done := RunProgresses(start, events, collate);
    if !done {
      PotentialIsPositive(Execute(start, events, collate).now, StuckIds(start.stories));
    }
  }

  /** On an acyclic backlog without dangling dependencies, blocked or escalated stories, nothing is stuck. */
  lemma NothingIsStuck(stories: seq<RuntimeStory>)
    requires ProperIds(stories) && forall s | s in stories :: Selectable(s) || s.status == Done
    requires Acyclic(BacklogGraph(stories)) && NoDangling(BacklogGraph(stories))
    ensures StuckIds(stories) == {} && !HasBlockedOrEscalatedDependency(stories)
  {
    StuckIdsAreStuck(stories);
    OnlyNothingIsStuck(stories, StuckIds(stories));
    NobodyWaits(stories);
  }

  lemma OnlyNothingIsStuck(stories: seq<RuntimeStory>, stuck: set<StoryId>)
    requires ProperIds(stories) && forall s | s in stories :: !NeedsHuman(s)
    requires Acyclic(BacklogGraph(stories)) && NoDangling(BacklogGraph(stories))
    requires Stuck(stories, stuck) && forall id | id in stuck :: id in StoryIds(stories)
    ensures stuck == {}
  {
    if stuck != {} {
      var id, d := LowestLacksADependency(stories, stuck);
    }
  }

  lemma LowestLacksADependency(stories: seq<RuntimeStory>, stuck: set<StoryId>) returns (id: StoryId, d: StoryId)
    requires ProperIds(stories) && forall s | s in stories :: !NeedsHuman(s)
    requires Acyclic(BacklogGraph(stories)) && stuck != {}
    requires Stuck(stories, stuck) && forall id | id in stuck :: id in StoryIds(stories)
    ensures id in BacklogGraph(stories) && d in BacklogGraph(stories)[id] && d !in BacklogGraph(stories)
  {
    var g := BacklogGraph(stories);
    DepsOfLookup(stories);
    id := LowestMember(g, stuck);
    var i :| 0 <= i < |stories| && StoryIds(stories)[i] == id;
    assert stories[i] in stories && g[id] == stories[i].dependsOn;
    d :| d in stories[i].dependsOn && (d in stuck || d !in StoryIds(stories));
  }

  lemma NobodyWaits(stories: seq<RuntimeStory>)
    requires ProperIds(stories) && forall s | s in stories :: !NeedsHuman(s)
    ensures !HasBlockedOrEscalatedDependency(stories)
  {
    forall d | d in StatusById(stories)
      ensures StatusById(stories)[d] != Blocked && StatusById(stories)[d] != Escalated
    {
      var s := StoryOfStatus(stories, d);
    }
  }

  /** On such a backlog every story gets done: (4 * remaining attempts + 2) ticks per unfinished story and one more. */
  lemma {:induction false} AcyclicBacklogGetsDone(start: TrackerState, events: seq<Event>, collate: Collation)
    requires Sorting.TotalOrder(collate) && WellFormedStart(start)
    requires Acyclic(BacklogGraph(start.stories)) && NoDangling(BacklogGraph(start.stories))
    requires forall s | s in start.stories :: s.status == Done || (Selectable(s) && s.attempts < s.attemptBudget)
    requires start.runIterationBudget - start.iterationsUsed >= Sum(start.stories, FullWeight({})) + 1
    requires AllCooperate(start, events, collate)
    requires TickCount(events) == Sum(start.stories, FullWeight({})) + 1
    ensures
      exists n | 0 <= n <= |events| ::
        var end := Execute(start, events[..n], collate).now;
        && end.state == Stopped && end.stopReason == Some(AllStoriesComplete)
        && forall s | s in end.stories :: s.status == Done
  {
    NothingIsStuck(start.stories);
    EveryStoryGetsDone(start, events, collate);
    var n :| 0 <= n <= |events| && FinishedAfter(start, events, collate, n);
    assert Execute(start, events[..n], collate).now.state == Stopped;
  }

  /** The bound is attained: a grudging run with any smaller run budget is stopped by it. */
  lemma {:induction false} SmallerBudgetIsExhausted(
    start: TrackerState, events: seq<Event>, last: ActionResult, collate: Collation)
    requires Sorting.TotalOrder(collate) && LiveStart(start)
    requires 0 <= start.runIterationBudget - start.iterationsUsed < TickBound(start.stories)
    requires AllGrudge(start, events, collate)
    requires TickCount(events) == start.runIterationBudget - start.iterationsUsed
    ensures !Halted(Execute(start, events, collate).now)
    ensures
      var end := Step(Execute(start, events, collate), Tick(last), collate).now;
      end.state == Stopped && end.stopReason == Some(RunBudgetExhausted)
  {
    GrudgingRunTakesItsTime(start, events, collate);
    SpentBudgetStops(Execute(start, events, collate).now, last, collate);
  }

  /** A verdict that is as late as allowed for the story in flight, if there is one. */
  lemma LateVerdict(st: TrackerState, collate: Collation) returns (result: ActionResult)
    requires ProperIds(st.stories)
    ensures Grudging(st, result, collate)
  {
    if s :| s in st.stories && st.activeStoryId == Some(s.storyId) {
      result := ActionResult(true, Some(s.attempts >= s.attemptBudget), None);
      forall t | t in st.stories && st.activeStoryId == Some(t.storyId)
        ensures t == s
      {
        SameStory(st.stories, s, t);
      }
    } else {
      result := ActionResult(true, None, None);
    }
  }

  /** From every well-formed start there are grudging runs of every length, so the bound is met and needed. */
  lemma {:induction false} GrudgingRunsExist(start: TrackerState, n: nat, collate: Collation) returns (events: seq<Event>)
    requires WellFormedStart(start)
    ensures TickCount(events) == n && AllCooperate(start, events, collate) && AllGrudge(start, events, collate)
  {
    events := [];
    if n > 0 {
      var before := GrudgingRunsExist(start, n - 1, collate);
      RunKeepsShape(start, before, collate);
      var st := Execute(start, before, collate).now;
      var result := LateVerdict(st, collate);
      GrudgingIsCooperative(st, result, collate);
      events := before + [Tick(result)];
      assert events[..|before|] == before;
      forall i | 0 <= i < |before|
        ensures events[..i] == before[..i] && events[i] == before[i]
      {
      }
    }
  }

  ghost predicate NamedBy(start: TrackerState, events: seq<Event>, collate: Collation, id: StoryId) {
    var history := Execute(start, events, collate).history;
    exists i | 0 <= i < |history| :: history[i].decision.storyId == Some(id)
  }

  /** Exactly the unfinished stories without a dead end ahead are ever acted on. */
  lemma {:induction false} ActedOnIffNoDeadEnd(start: TrackerState, collate: Collation, id: StoryId)
    requires Sorting.TotalOrder(collate) && LiveStart(start)
    requires start.runIterationBudget - start.iterationsUsed >= TickBound(start.stories)
    requires id in StoryIds(start.stories) && id !in DoneIds(start.stories)
    ensures (exists events :: NamedBy(start, events, collate, id)) <==> !HasDeadEnd(start.stories, id)
  {
    StuckIffDeadEnd(start.stories, id);
    if id in StuckIds(start.stories) {
      StuckIdsAreStuck(start.stories);
      forall events
        ensures !NamedBy(start, events, collate, id)
      {
        StuckStoriesAreNeverTouched(start, events, collate, StuckIds(start.stories));
      }
    } else {
      StartPotential(start);
      PotentialIsPositive(start, StuckIds(start.stories));
      var events := GrudgingRunsExist(start, TickBound(start.stories), collate);
      EveryStoryGetsDone(start, events, collate);
      var n :| 0 <= n <= |events| && FinishedAfter(start, events, collate, n);
      FinishedStoryWasNamed(start, events[..n], collate, id);
    }
  }

  lemma {:induction false} FinishedStoryWasNamed(start: TrackerState, events: seq<Event>, collate: Collation, id: StoryId)
    requires WellFormedStart(start) && id in StoryIds(start.stories) && id !in DoneIds(start.stories)
    requires id !in StuckIds(start.stories)
    requires Finished(Execute(start, events, collate).now, StuckIds(start.stories), HasBlockedOrEscalatedDependency(start.stories))
    ensures NamedBy(start, events, collate, id)
  {
    var run := Execute(start, events, collate);
    RunKeepsShape(start, events, collate);
    SameBacklogKeepsIds(start.stories, run.now.stories);
    var i :| 0 <= i < |run.now.stories| && StoryIds(run.now.stories)[i] == id;
    assert run.now.stories[i] in run.now.stories && id in DoneIds(run.now.stories);
    MarksFormATopologicalOrder(start, events, collate);
    assert MarkedBefore(run.history, |run.history|, id);
  }

  lemma SpentBudgetStops(st: TrackerState, last: ActionResult, collate: Collation)
    requires st.iterationsUsed >= st.runIterationBudget
    ensures
      var end := AdvanceTrackerState(st, DecideNextAction(st, collate), last);
      end.state == Stopped && end.stopReason == Some(RunBudgetExhausted)
  {
  }
}
