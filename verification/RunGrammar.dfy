/**
 * The decision log of every run, read together with the verdicts, as a formal language.
 *
 *   round(s) = select contract (develop verdict-less* failed debug retry)* develop verdict-less* passed checkpoint done
 *
 * where every entry names the same story `s`.
 */
module RunGrammar {
  import opened Common
  import opened DependencyGraph
  import opened Orchestrator
  import opened OrchestratorRuns
  import opened Regex
  import RunSafety

  /** What the grammar sees of a log entry; only validations carry a verdict. */
  datatype Mark = Mark(action: Action, storyId: Option<StoryId>, verdict: Option<bool>)

  function MarkOf(e: Entry): Mark {
    Mark(e.decision.action, e.decision.storyId,
         if e.decision.action == RunValidation then e.result.validationPassed else None)
  }

  function Marks(history: seq<Entry>): seq<Mark> {
    seq(|history|, i requires 0 <= i < |history| => MarkOf(history[i]))
  }

  function Same(): (Mark, Mark) -> bool {
    (a: Mark, b: Mark) => a == b
  }

  function Act(action: Action, s: StoryId): Mark {
    Mark(action, Some(s), None)
  }

  function Verdict(s: StoryId, verdict: Option<bool>): Mark {
    Mark(RunValidation, Some(s), verdict)
  }

  /** One attempt up to, and without, its verdict. */
  function Attempt(s: StoryId): Re<Mark> {
    Cat(One(Act(DevelopPatch, s)), Star(One(Verdict(s, None))))
  }

  function FailedAttempt(s: StoryId): Re<Mark> {
    Cat(Cat(Cat(Attempt(s), One(Verdict(s, Some(false)))), One(Act(RouteDebugger, s))), One(Act(RetryDevelop, s)))
  }

  function PassedAttempt(s: StoryId): Re<Mark> {
    Cat(Cat(Cat(Attempt(s), One(Verdict(s, Some(true)))), One(Act(WriteCheckpoint, s))), One(Act(MarkStoryDone, s)))
  }

  /** A story picked, contracted, and developed unsuccessfully any number of times. */
  function Opening(s: StoryId): Re<Mark> {
    Cat(Cat(One(Act(SelectNextStory, s)), One(Act(IssueContract, s))), Star(FailedAttempt(s)))
  }

  function Round(s: StoryId): Re<Mark> {
    Cat(Opening(s), PassedAttempt(s))
  }

  /** Complete rounds, one after the other. */
  ghost predicate Rounds(w: seq<Mark>) {
    w == [] || exists i, s | 0 <= i < |w| :: RoundsAt(w, i, s)
  }

  ghost predicate RoundsAt(w: seq<Mark>, i: nat, s: StoryId)
    requires i < |w|
  {
    Rounds(w[..i]) && Matches(Round(s), w[i..], Same())
  }

  /** A round cut short: some continuation completes it. */
  ghost predicate OpenRound(w: seq<Mark>, s: StoryId) {
    exists rest :: Matches(Round(s), w + rest, Same())
  }

  predicate IsStop(m: Mark) {
    m.action == StopRun && m.storyId.None?
  }

  ghost predicate Stops(w: seq<Mark>) {
    forall m | m in w :: IsStop(m)
  }

  predicate IdleSelect(m: Mark) {
    m.action == SelectNextStory && m.storyId.None?
  }

  /** How a run ends: stops only, or one escalation, then perhaps one select that names no story, then stops. */
  ghost predicate Ending(w: seq<Mark>) {
    || Stops(w)
    || (&& w[0].action == EscalateHuman
        && (Stops(w[1..]) || (|w| > 1 && IdleSelect(w[1]) && Stops(w[2..]))))
  }

  /** The language of all logs. */
  ghost predicate IsLog(w: seq<Mark>) {
    exists a: nat, b: nat :: CutAt(w, a, b)
  }

  ghost predicate CutAt(w: seq<Mark>, a: nat, b: nat) {
    && a <= b <= |w|
    && Rounds(w[..a])
    && (if a == b then Escalates(w[b..]) ==> w[b].storyId.None?
        else exists s :: OpenRound(w[a..b], s) && (Escalates(w[b..]) ==> w[b].storyId == Some(s) && GivesUp(w[a..b], s)))
    && Ending(w[b..])
  }

  predicate Escalates(ending: seq<Mark>) {
    ending != [] && ending[0].action == EscalateHuman
  }

  /** Where an escalation can cut a round: instead of the next attempt, or after a failed verdict. */
  ghost predicate GivesUp(w: seq<Mark>, s: StoryId) {
    || Matches(Opening(s), w, Same())
    || Matches(Cat(Opening(s), Cat(Attempt(s), One(Verdict(s, Some(false))))), w, Same())
  }

  /** No two selections name the same story, so no two rounds are of the same story. */
  ghost predicate SelectsOnce(w: seq<Mark>) {
    forall i, j | 0 <= i < j < |w| && w[i].action == SelectNextStory && w[j].action == SelectNextStory && w[i].storyId.Some? ::
      w[i].storyId != w[j].storyId
  }

  // ----- what the log looks like in each phase -----

  ghost predicate PhaseWords(phase: OrchestratorState, last: Option<bool>, s: StoryId, opening: seq<Mark>, attempt: seq<Mark>) {
    match phase
    case Contract => opening == [Act(SelectNextStory, s)] && attempt == []
    case Develop => Matches(Opening(s), opening, Same()) && attempt == []
    case Validate =>
      && Matches(Opening(s), opening, Same())
      && Matches(if last.None? then Attempt(s) else Cat(Attempt(s), One(Verdict(s, last))), attempt, Same())
    case Debug =>
      && Matches(Opening(s), opening, Same())
      && Matches(Cat(Cat(Attempt(s), One(Verdict(s, Some(false)))), One(Act(RouteDebugger, s))), attempt, Same())
    case Checkpoint =>
      && Matches(Opening(s), opening, Same())
      && Matches(Cat(Cat(Attempt(s), One(Verdict(s, Some(true)))), One(Act(WriteCheckpoint, s))), attempt, Same())
    case _ => false
  }

  ghost predicate LogAt(w: seq<Mark>, st: TrackerState, a: nat, m: nat, s: StoryId) {
    && a < m <= |w|
    && Rounds(w[..a])
    && PhaseWords(st.state, st.lastValidationPassed, s, w[a..m], w[m..])
  }

  /** At the gate the escalation is the last entry. */
  ghost predicate Cut(w: seq<Mark>, gate: bool) {
    exists a: nat, b: nat :: CutAt(w, a, b) && (gate ==> |w| == b + 1 && w[b].action == EscalateHuman)
  }

  ghost predicate Fits(w: seq<Mark>, st: TrackerState) {
    if BetweenStories(st) then Rounds(w)
    else if InFlight(st) then exists a: nat, m: nat :: LogAt(w, st, a, m, st.activeStoryId.GetOr(""))
    else Cut(w, st.state == Gate)
  }

  // ----- completions -----

  lemma FinishAttempt(s: StoryId, u: seq<Mark>)
    requires Matches(Cat(Attempt(s), One(Verdict(s, Some(true)))), u, Same())
    ensures Matches(PassedAttempt(s), u + [Act(WriteCheckpoint, s)] + [Act(MarkStoryDone, s)], Same())
  {
    var passed := Cat(Attempt(s), One(Verdict(s, Some(true))));
    CatOne(passed, Act(WriteCheckpoint, s), u, Act(WriteCheckpoint, s), Same());
    CatOne(Cat(passed, One(Act(WriteCheckpoint, s))), Act(MarkStoryDone, s),
           u + [Act(WriteCheckpoint, s)], Act(MarkStoryDone, s), Same());
  }

  lemma NewAttempt(s: StoryId)
    ensures Matches(Attempt(s), [Act(DevelopPatch, s)], Same())
  {
    CatStarNone(One(Act(DevelopPatch, s)), One(Verdict(s, None)), [Act(DevelopPatch, s)], Same());
  }

  function Ticks(s: StoryId): seq<Mark> {
    [Act(DevelopPatch, s), Verdict(s, Some(true)), Act(WriteCheckpoint, s), Act(MarkStoryDone, s)]
  }

  lemma QuickPass(s: StoryId)
    ensures Matches(PassedAttempt(s), Ticks(s), Same())
  {
    NewAttempt(s);
    var u := [Act(DevelopPatch, s)];
    CatOne(Attempt(s), Verdict(s, Some(true)), u, Verdict(s, Some(true)), Same());
    FinishAttempt(s, u + [Verdict(s, Some(true))]);
    assert u + [Verdict(s, Some(true))] + [Act(WriteCheckpoint, s)] + [Act(MarkStoryDone, s)] == Ticks(s);
  }

  lemma CloseRound(s: StoryId, opening: seq<Mark>, attempt: seq<Mark>, w: seq<Mark>, rest: seq<Mark>)
    requires Matches(Opening(s), opening, Same())
    requires Matches(PassedAttempt(s), attempt + rest, Same())
    requires w == opening + attempt
    ensures OpenRound(w, s)
  {
    CatMatches(Opening(s), PassedAttempt(s), opening, attempt + rest, Same());
    assert opening + (attempt + rest) == w + rest;
  }

  lemma RetriedOpening(s: StoryId, opening: seq<Mark>, attempt: seq<Mark>)
    requires Matches(Opening(s), opening, Same())
    requires Matches(Cat(Cat(Attempt(s), One(Verdict(s, Some(false)))), One(Act(RouteDebugger, s))), attempt, Same())
    ensures Matches(Opening(s), opening + (attempt + [Act(RetryDevelop, s)]), Same())
  {
    CatOne(Cat(Cat(Attempt(s), One(Verdict(s, Some(false)))), One(Act(RouteDebugger, s))),
           Act(RetryDevelop, s), attempt, Act(RetryDevelop, s), Same());
    CatStarSnoc(Cat(One(Act(SelectNextStory, s)), One(Act(IssueContract, s))), FailedAttempt(s),
                opening, attempt + [Act(RetryDevelop, s)], Same());
  }

  lemma ContractedOpening(s: StoryId)
    ensures Matches(Opening(s), [Act(SelectNextStory, s)] + [Act(IssueContract, s)], Same())
  {
    CatOne(One(Act(SelectNextStory, s)), Act(IssueContract, s), [Act(SelectNextStory, s)], Act(IssueContract, s), Same());
    CatStarNone(Cat(One(Act(SelectNextStory, s)), One(Act(IssueContract, s))), FailedAttempt(s),
                [Act(SelectNextStory, s)] + [Act(IssueContract, s)], Same());
  }

  /** In every phase the round under way can still be completed. */
  lemma EveryPhaseIsOpen(phase: OrchestratorState, last: Option<bool>, s: StoryId, opening: seq<Mark>, attempt: seq<Mark>)
    requires PhaseWords(phase, last, s, opening, attempt)
    ensures OpenRound(opening + attempt, s)
  {
    match phase {
      case Contract =>
        ContractedOpening(s);
        QuickPass(s);
        var u := [Act(SelectNextStory, s)] + [Act(IssueContract, s)];
        CatMatches(Opening(s), PassedAttempt(s), u, Ticks(s), Same());
        assert u + Ticks(s) == (opening + attempt) + ([Act(IssueContract, s)] + Ticks(s));
      case Develop =>
        QuickPass(s);
        assert attempt + Ticks(s) == Ticks(s);
        CloseRound(s, opening, attempt, opening + attempt, Ticks(s));
      case Validate =>
        if last.Some? && !last.value {
          assert last == Some(false);
          CatOne(Cat(Attempt(s), One(Verdict(s, Some(false)))), Act(RouteDebugger, s), attempt, Act(RouteDebugger, s), Same());
          FailedIsOpen(s, opening, attempt + [Act(RouteDebugger, s)]);
          var rest :| Matches(Round(s), opening + (attempt + [Act(RouteDebugger, s)]) + rest, Same());
          assert opening + (attempt + [Act(RouteDebugger, s)]) + rest == (opening + attempt) + ([Act(RouteDebugger, s)] + rest);
        } else {
          var passed, rest := attempt, [Act(WriteCheckpoint, s)] + [Act(MarkStoryDone, s)];
          assert last.Some? ==> last.value && last == Some(true);
          if last.None? {
            CatOne(Attempt(s), Verdict(s, Some(true)), attempt, Verdict(s, Some(true)), Same());
            passed, rest := attempt + [Verdict(s, Some(true))], [Verdict(s, Some(true))] + rest;
          }
          assert Matches(Cat(Attempt(s), One(Verdict(s, Some(true)))), passed, Same());
          FinishAttempt(s, passed);
          assert passed + [Act(WriteCheckpoint, s)] + [Act(MarkStoryDone, s)] == attempt + rest;
          CloseRound(s, opening, attempt, opening + attempt, rest);
        }
      case Debug =>
        FailedIsOpen(s, opening, attempt);
      case Checkpoint =>
        CatOne(Cat(Cat(Attempt(s), One(Verdict(s, Some(true)))), One(Act(WriteCheckpoint, s))),
               Act(MarkStoryDone, s), attempt, Act(MarkStoryDone, s), Same());
        CloseRound(s, opening, attempt, opening + attempt, [Act(MarkStoryDone, s)]);
    }
  }

  lemma FailedIsOpen(s: StoryId, opening: seq<Mark>, attempt: seq<Mark>)
    requires Matches(Opening(s), opening, Same())
    requires Matches(Cat(Cat(Attempt(s), One(Verdict(s, Some(false)))), One(Act(RouteDebugger, s))), attempt, Same())
    ensures OpenRound(opening + attempt, s)
  {
    RetriedOpening(s, opening, attempt);
    QuickPass(s);
    var u := opening + (attempt + [Act(RetryDevelop, s)]);
    CatMatches(Opening(s), PassedAttempt(s), u, Ticks(s), Same());
    assert u + Ticks(s) == (opening + attempt) + ([Act(RetryDevelop, s)] + Ticks(s));
  }

  // ----- steps -----

  /** A phase move extends the opening and the attempt as the grammar asks. */
  lemma MoveExtendsWords(
    st: TrackerState, story: RuntimeStory, action: Action, result: ActionResult, after: TrackerState,
    s: StoryId, opening: seq<Mark>, attempt: seq<Mark>, mark: Mark) returns (opening': seq<Mark>, attempt': seq<Mark>)
    requires PhaseMove(st, story, action, result, after)
    requires PhaseWords(st.state, st.lastValidationPassed, s, opening, attempt)
    requires st.state == Contract ==> st.lastValidationPassed.None?
    requires action != StopRun && action != EscalateHuman && action != MarkStoryDone
    requires action == WriteCheckpoint ==> after.lastValidationPassed == st.lastValidationPassed
    requires mark == Mark(action, Some(s), if action == RunValidation then result.validationPassed else None)
    ensures PhaseWords(after.state, after.lastValidationPassed, s, opening', attempt')
    ensures opening' + attempt' == opening + attempt + [mark]
    ensures |opening'| >= |opening|
  {
    opening', attempt' := opening, attempt + [mark];
    match action {
      case IssueContract =>
        ContractedOpening(s);
        opening', attempt' := opening + [mark], [];
      case DevelopPatch =>
        NewAttempt(s);
        assert attempt' == [mark];
      case RunValidation =>
        if result.validationPassed.None? {
          CatStarSnoc(One(Act(DevelopPatch, s)), One(Verdict(s, None)), attempt, [mark], Same());
        } else {
          CatOne(Attempt(s), mark, attempt, mark, Same());
        }
      case WriteCheckpoint =>
        CatOne(Cat(Attempt(s), One(Verdict(s, Some(true)))), mark, attempt, mark, Same());
      case RouteDebugger =>
        CatOne(Cat(Attempt(s), One(Verdict(s, Some(false)))), mark, attempt, mark, Same());
      case RetryDevelop =>
        RetriedOpening(s, opening, attempt);
        opening', attempt' := opening + (attempt + [mark]), [];
    }
  }

  lemma InFlightMoveFits(
    st: TrackerState, k: nat, action: Action, result: ActionResult, after: TrackerState, w: seq<Mark>, mark: Mark)
    requires ActiveAt(st, k) && Fits(w, st)
    requires PhaseMove(st, st.stories[k], action, result, after)
    requires action != StopRun ==> mark.storyId == st.activeStoryId
    requires action == StopRun ==> mark.storyId.None?
    requires mark.action == action && mark.verdict == if action == RunValidation then result.validationPassed else None
    requires action != MarkStoryDone ==> after.activeStoryId == st.activeStoryId
    requires action == WriteCheckpoint ==> after.lastValidationPassed == st.lastValidationPassed
    ensures Fits(w + [mark], after)
  {
    var s := st.stories[k].storyId;
    var a: nat, m: nat :| LogAt(w, st, a, m, s);
    if action == StopRun || action == EscalateHuman {
      RoundIsCut(w, st, a, m, s, mark);
    } else if action == MarkStoryDone {
      RoundIsFinished(w, st, a, m, s, mark);
    } else {
      assert w[a..m] + w[m..] == w[a..];
      var opening', attempt' :=
        MoveExtendsWords(st, st.stories[k], action, result, after, s, w[a..m], w[m..], mark);
      RoundIsExtended(w, after, a, s, opening', attempt', mark);
    }
  }

  lemma RoundIsCut(w: seq<Mark>, st: TrackerState, a: nat, m: nat, s: StoryId, mark: Mark)
    requires LogAt(w, st, a, m, s)
    requires || IsStop(mark)
             || (&& mark.action == EscalateHuman && mark.storyId == Some(s)
                 && (st.state == Develop || (st.state == Validate && st.lastValidationPassed == Some(false))))
    ensures Cut(w + [mark], mark.action == EscalateHuman)
  {
    var w' := w + [mark];
    EveryPhaseIsOpen(st.state, st.lastValidationPassed, s, w[a..m], w[m..]);
    assert w[a..m] + w[m..] == w[a..];
    if st.state == Validate && st.lastValidationPassed == Some(false) {
      CatMatches(Opening(s), Cat(Attempt(s), One(Verdict(s, Some(false)))), w[a..m], w[m..], Same());
    } else if st.state == Develop {
      assert w[a..] == w[a..m];
    }
    assert w'[..a] == w[..a] && w'[a..|w|] == w[a..] && w'[|w|..] == [mark];
    assert CutAt(w', a, |w|);
  }

  lemma RoundIsFinished(w: seq<Mark>, st: TrackerState, a: nat, m: nat, s: StoryId, mark: Mark)
    requires LogAt(w, st, a, m, s)
    requires st.state == Checkpoint && mark == Act(MarkStoryDone, s)
    ensures Rounds(w + [mark])
  {
    var w' := w + [mark];
    CatOne(Cat(Cat(Attempt(s), One(Verdict(s, Some(true)))), One(Act(WriteCheckpoint, s))), mark, w[m..], mark, Same());
    CatMatches(Opening(s), PassedAttempt(s), w[a..m], w[m..] + [mark], Same());
    assert w'[..a] == w[..a] && w[a..m] + (w[m..] + [mark]) == w'[a..];
    assert RoundsAt(w', a, s);
  }

  lemma RoundIsExtended(w: seq<Mark>, after: TrackerState, a: nat, s: StoryId, opening: seq<Mark>, attempt: seq<Mark>, mark: Mark)
    requires a <= |w| && opening != [] && Rounds(w[..a])
    requires opening + attempt == w[a..] + [mark]
    requires PhaseWords(after.state, after.lastValidationPassed, s, opening, attempt)
    requires after.activeStoryId == Some(s)
    ensures Fits(w + [mark], after)
  {
    var w' := w + [mark];
    var m := a + |opening|;
    assert w'[..a] == w[..a] && w'[a..] == opening + attempt;
    assert w'[a..m] == opening && w'[m..] == attempt;
    assert LogAt(w', after, a, m, after.activeStoryId.GetOr(""));
  }

  lemma StopOrEscalateFits(w: seq<Mark>, mark: Mark, gate: bool)
    requires Rounds(w) && mark.storyId.None?
    requires mark.action == if gate then EscalateHuman else StopRun
    ensures Cut(w + [mark], gate)
  {
    var w' := w + [mark];
    assert w'[..|w|] == w && w'[|w|..] == [mark];
    assert CutAt(w', |w|, |w|);
  }

  lemma SelectFits(w: seq<Mark>, s: StoryId, after: TrackerState)
    requires Rounds(w)
    requires after.state == Stopped || (after.state == Contract && after.activeStoryId == Some(s) && after.lastValidationPassed.None?)
    ensures Fits(w + [Act(SelectNextStory, s)], after)
  {
    var w' := w + [Act(SelectNextStory, s)];
    assert w'[..|w|] == w && w'[|w|..|w'|] == [Act(SelectNextStory, s)] && w'[|w'|..] == [];
    if after.state == Contract {
      assert LogAt(w', after, |w|, |w'|, after.activeStoryId.GetOr(""));
    } else {
      EveryPhaseIsOpen(Contract, None, s, w'[|w|..|w'|], []);
      assert w'[|w|..|w'|] + [] == w'[|w|..|w'|];
      assert CutAt(w', |w|, |w'|);
    }
  }

  lemma HaltedFits(w: seq<Mark>, mark: Mark, gate: bool)
    requires Cut(w, gate)
    requires IsStop(mark) || (gate && IdleSelect(mark))
    ensures Cut(w + [mark], false)
  {
    var w' := w + [mark];
    var a: nat, b: nat :| CutAt(w, a, b) && (gate ==> |w| == b + 1 && w[b].action == EscalateHuman);
    assert w'[..a] == w[..a] && w'[a..b] == w[a..b] && w'[b..] == w[b..] + [mark];
    EndingExtends(w[b..], mark, gate);
    assert CutAt(w', a, b);
  }

  lemma EndingExtends(u: seq<Mark>, mark: Mark, gate: bool)
    requires Ending(u)
    requires IsStop(mark) || (gate && IdleSelect(mark))
    requires gate ==> |u| == 1 && u[0].action == EscalateHuman
    ensures Ending(u + [mark])
  {
    if u != [] && u[0].action == EscalateHuman {
      assert (u + [mark])[1..] == u[1..] + [mark];
      assert |u| > 1 ==> (u + [mark])[2..] == u[2..] + [mark];
      assert |u| == 1 ==> (u + [mark])[2..] == [] && (u + [mark])[1] == mark;
    }
  }

  lemma TickFits(run: Run, result: ActionResult, collate: Collation)
    requires WellShaped(run.now) && Fits(Marks(run.history), run.now)
    ensures
      var next := Step(run, Tick(result), collate);
      Fits(Marks(next.history), next.now)
  {
    var st, next := run.now, Step(run, Tick(result), collate);
    var d := DecideNextAction(st, collate);
    var mark := MarkOf(Entry(d, result));
    assert Marks(next.history) == Marks(run.history) + [mark];
    if Halted(st) {
      TickHalted(st, result, collate);
      HaltedFits(Marks(run.history), mark, st.state == Gate);
    } else if BetweenStories(st) {
      var k := TickBetween(st, result, collate);
      if d.action == SelectNextStory {
        SelectFits(Marks(run.history), st.stories[k].storyId, next.now);
      } else {
        StopOrEscalateFits(Marks(run.history), mark, d.action == EscalateHuman);
      }
    } else {
      var k: nat :| ActiveAt(st, k);
      TickInFlight(st, k, result, collate);
      TickMovesPhase(st, k, result, collate);
      InFlightMoveFits(st, k, d.action, result, next.now, Marks(run.history), mark);
    }
  }

  lemma {:induction false} EveryRunFits(start: TrackerState, events: seq<Event>, collate: Collation)
    requires WellFormedStart(start)
    ensures Fits(Marks(Execute(start, events, collate).history), Execute(start, events, collate).now)
  {
    if events != [] {
      var n := |events| - 1;
      EveryRunFits(start, events[..n], collate);
      RunKeepsShape(start, events[..n], collate);
      var run := Execute(start, events[..n], collate);
      match events[n] {
        case SetGateCleared(cleared) =>
          GateFlagKeepsFit(Marks(run.history), run.now, cleared);
        case Tick(result) =>
          TickFits(run, result, collate);
      }
    }
  }

  lemma GateFlagKeepsFit(w: seq<Mark>, st: TrackerState, cleared: bool)
    requires Fits(w, st)
    ensures Fits(w, st.(humanGateCleared := cleared))
  {
    if InFlight(st) {
      var a: nat, m: nat :| LogAt(w, st, a, m, st.activeStoryId.GetOr(""));
      assert LogAt(w, st.(humanGateCleared := cleared), a, m, st.activeStoryId.GetOr(""));
    }
  }

  lemma SelectedOnceInMarks(start: TrackerState, events: seq<Event>, collate: Collation)
    requires WellFormedStart(start)
    ensures SelectsOnce(Marks(Execute(start, events, collate).history))
  {
    var history := Execute(start, events, collate).history;
    var w := Marks(history);
    RunSafety.StoriesAreSelectedOnce(start, events, collate);
    forall i, j | 0 <= i < j < |w| && w[i].action == SelectNextStory && w[j].action == SelectNextStory && w[i].storyId.Some?
      ensures w[i].storyId != w[j].storyId
    {
      assert RunSafety.Is(history[i], SelectNextStory, w[i].storyId.value);
    }
  }

  lemma FitsIsLog(w: seq<Mark>, st: TrackerState)
    requires Fits(w, st)
    ensures IsLog(w)
  {
    assert w[..|w|] == w && w[|w|..] == [];
    if BetweenStories(st) {
      assert CutAt(w, |w|, |w|);
    } else if InFlight(st) {
      var s := st.activeStoryId.GetOr("");
      var a: nat, m: nat :| LogAt(w, st, a, m, s);
      EveryPhaseIsOpen(st.state, st.lastValidationPassed, s, w[a..m], w[m..]);
      assert w[a..m] + w[m..] == w[a..|w|];
      assert CutAt(w, a, |w|);
    }
  }

  lemma RoundStartsWithSelect(s: StoryId, w: seq<Mark>)
    requires Matches(Round(s), w, Same())
    ensures w != [] && w[0] == Act(SelectNextStory, s)
  {
    var u, v := CatSplits(Opening(s), PassedAttempt(s), w, Same());
    var x, y := CatSplits(Cat(One(Act(SelectNextStory, s)), One(Act(IssueContract, s))), Star(FailedAttempt(s)), u, Same());
    var p, q := CatSplits(One(Act(SelectNextStory, s)), One(Act(IssueContract, s)), x, Same());
  }

  /** Two complete rounds of a log are of different stories. */
  lemma RoundsAreOfDistinctStories(w: seq<Mark>, a: nat, b: nat, c: nat, d: nat, s: StoryId, t: StoryId)
    requires SelectsOnce(w) && a <= b <= c <= d <= |w|
    requires Matches(Round(s), w[a..b], Same()) && Matches(Round(t), w[c..d], Same())
    ensures s != t
  {
    RoundStartsWithSelect(s, w[a..b]);
    RoundStartsWithSelect(t, w[c..d]);
    assert w[a] == w[a..b][0] && w[c] == w[c..d][0];
  }

  /**
   * Every log of every run is complete rounds, then at most one open round, then an ending; no
   * story has two rounds.
   */
  lemma EveryLogIsInTheGrammar(start: TrackerState, events: seq<Event>, collate: Collation)
    requires WellFormedStart(start)
    ensures IsLog(Marks(Execute(start, events, collate).history))
    ensures SelectsOnce(Marks(Execute(start, events, collate).history))
  {
    SelectedOnceInMarks(start, events, collate);
    EveryRunFits(start, events, collate);
    FitsIsLog(Marks(Execute(start, events, collate).history), Execute(start, events, collate).now);
  }
}
