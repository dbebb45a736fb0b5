/**
 * The gate for real API calls: open, run, close, with a read-back after every write.  File
 * operations succeed or fail as an outcome given with each step; runs interleave at their body.
 */
module GateControl {
  import opened Common

  /** The policy file: `enabled` is missing when its line is not found. */
  datatype Policy = Policy(enabled: Option<bool>, killSwitch: bool, ciOverride: bool)

  predicate IsOpen(p: Policy) {
    p.enabled == Some(true)
  }

  predicate IsGatedAllowed(p: Policy, ci: bool) {
    !p.killSwitch && !(p.ciOverride && ci) && p.enabled.GetOr(false)
  }

  /** A write takes, is silently dropped, throws without effect, or throws after it took. */
  datatype Write = Takes | Dropped | ThrowsBefore | ThrowsAfter

  datatype IO = IO(readOk: bool, write: Write, readBackOk: bool)

  /** `Threw`: the read-back itself failed, and the exception leaves the function. */
  datatype GateWrite = Result(verified: bool, actual: bool) | Threw

  function Written(p: Policy, wanted: bool, write: Write): Policy {
    if write == Takes || write == ThrowsAfter then p.(enabled := Some(wanted)) else p
  }

  function PolicyAfter(p: Policy, wanted: bool, io: IO): Policy {
    if !io.readOk || p.enabled.None? then p else Written(p, wanted, io.write)
  }

  function AnswerOf(p: Policy, wanted: bool, io: IO): GateWrite {
    if !io.readOk || p.enabled.None? || io.write == ThrowsBefore || io.write == ThrowsAfter then Result(false, false)
    else if !io.readBackOk then Threw
    else
      var actual := Written(p, wanted, io.write).enabled.GetOr(false);
      Result(actual == wanted, actual)
  }

  class PolicyFile {
    var content: Policy

    constructor (p: Policy)
      ensures content == p
    {
      content := p;
    }

    /** Writes, then believes only what it reads back; a verified answer means the file holds the value. */
    method SetGateEnabled(wanted: bool, io: IO) returns (answer: GateWrite)
      modifies this
      ensures content == PolicyAfter(old(content), wanted, io)
      ensures answer == AnswerOf(old(content), wanted, io)
      ensures answer.Result? && answer.verified ==> content.enabled == Some(wanted)
    {
      if !io.readOk {
        return Result(false, false);
      }
      if content.enabled.None? {
        return Result(false, false);
      }
      if io.write == Takes || io.write == ThrowsAfter {
        content := content.(enabled := Some(wanted));
      }
      if io.write == ThrowsBefore || io.write == ThrowsAfter {
        return Result(false, false);
      }
      if !io.readBackOk {
        return Threw;
      }
      var actual := content.enabled.GetOr(false);
      return Result(actual == wanted, actual);
    }
  }

  // ----- interleaved runs -----

  type RunId = nat

  /** A start runs up to the first `await`; a finish is everything after the body has ended. */
  datatype Event =
    | Start(run: RunId, budgetOk: bool, ci: bool, policyReadOk: bool, io: IO)
    | Finish(run: RunId, io: IO)

  datatype Machine = Machine(policy: Policy, running: set<RunId>, critical: bool)

  /** Budget, kill switch and CI are checked as if the gate were open already. */
  predicate Admitted(m: Machine, e: Event)
    requires e.Start?
  {
    e.run !in m.running && e.budgetOk && e.policyReadOk && IsGatedAllowed(m.policy.(enabled := Some(true)), e.ci)
  }

  function Next(m: Machine, e: Event): Machine {
    match e
    case Start(run, _, _, _, io) =>
      if !Admitted(m, e) then m
      else
        m.(policy := PolicyAfter(m.policy, true, io),
           running := if AnswerOf(m.policy, true, io) == Result(true, true) then m.running + {run} else m.running)
    case Finish(run, io) =>
      if run !in m.running then m
      else
        var answer := AnswerOf(m.policy, false, io);
        Machine(PolicyAfter(m.policy, false, io), m.running - {run}, m.critical || (answer.Result? && !answer.verified))
  }

  function Outcome(m: Machine, events: seq<Event>): Machine {
    if events == [] then m else Next(Outcome(m, events[..|events| - 1]), events[|events| - 1])
  }

  /** The gate is open only while some run is between its open and its close, or after a CRITICAL error. */
  predicate Contained(m: Machine) {
    IsOpen(m.policy) ==> m.running != {} || m.critical
  }

  /** Reads succeed, and a write that throws has had no effect. */
  predicate WellBehaved(e: Event) {
    e.io.readOk && e.io.readBackOk && e.io.write != ThrowsAfter && (e.Start? ==> e.policyReadOk)
  }

  /**
   * The steps that leave the gate open with nobody responsible: an opening write that took but
   * could not be confirmed, or a dropped closing write whose read-back failed.
   */
  predicate Leaks(m: Machine, e: Event) {
    && !m.critical && e.io.readOk
    && match e
       case Start(_, _, _, _, io) =>
         && m.running == {} && Admitted(m, e) && m.policy.enabled.Some?
         && (io.write == ThrowsAfter || (io.write == Takes && !io.readBackOk))
       case Finish(run, io) =>
         m.running == {run} && IsOpen(m.policy) && io.write == Dropped && !io.readBackOk
  }

  /** Exactly the leaking steps break the containment. */
  lemma ContainmentBreaksIffStepLeaks(m: Machine, e: Event)
    requires Contained(m)
    ensures Contained(Next(m, e)) <==> !Leaks(m, e)
  {
    var after := Next(m, e);
    match e {
      case Start(run, _, _, _, io) =>
        assert run in m.running + {run};
      case Finish(run, io) =>
        if run in m.running {
          assert m.running - {run} == {} <==> m.running == {run};
        }
    }
  }

  /** Both leaks happen: an opening write that throws after it took, and a dropped close that cannot be read back. */
  lemma LeaksHappen()
    ensures
      var closed, open := Machine(Policy(Some(false), false, false), {}, false), Machine(Policy(Some(true), false, false), {0}, false);
      var start, finish := Start(0, true, false, true, IO(true, ThrowsAfter, true)), Finish(0, IO(true, Dropped, false));
      && Contained(closed) && Leaks(closed, start) && !Contained(Next(closed, start))
      && Contained(open) && Leaks(open, finish) && !Contained(Next(open, finish))
  {
    assert {0} - {0} == {};
  }

  /** Every interleaving of runs over a well-behaved file keeps the gate contained. */
  lemma {:induction false} GateStaysContained(m: Machine, events: seq<Event>)
    requires Contained(m) && forall e | e in events :: WellBehaved(e)
    ensures Contained(Outcome(m, events))
  {
    if events != [] {
      var n := |events| - 1;
      GateStaysContained(m, events[..n]);
      assert WellBehaved(events[n]);
      ContainmentBreaksIffStepLeaks(Outcome(m, events[..n]), events[n]);
    }
  }

  /** When all runs have finished without a CRITICAL error, the gate is closed. */
  lemma QuietEndIsClosed(m: Machine, events: seq<Event>)
    requires Contained(m) && forall e | e in events :: WellBehaved(e)
    requires Outcome(m, events).running == {} && !Outcome(m, events).critical
    ensures !IsOpen(Outcome(m, events).policy)
  {
    GateStaysContained(m, events);
  }

  /** Nothing but a run's own start touches the switches, and a run starts only past all of them. */
  lemma {:induction false} RunsPassAllChecks(m: Machine, events: seq<Event>)
    ensures Outcome(m, events).policy.killSwitch == m.policy.killSwitch
    ensures Outcome(m, events).policy.ciOverride == m.policy.ciOverride
    ensures m.policy.killSwitch ==> Outcome(m, events).running <= m.running
    ensures m.policy.ciOverride && (forall e | e in events && e.Start? :: e.ci) ==> Outcome(m, events).running <= m.running
  {
    if events != [] {
      RunsPassAllChecks(m, events[..|events| - 1]);
      assert events[|events| - 1] in events;
    }
  }

  // ----- whether a run has the gate open -----

  /** What a step writes to the file, if its write takes. */
  function WriteOf(m: Machine, e: Event): Option<bool> {
    if !e.io.readOk || m.policy.enabled.None? || (e.io.write != Takes && e.io.write != ThrowsAfter) then None
    else
      match e
      case Start(_, _, _, _, _) => if Admitted(m, e) then Some(true) else None
      case Finish(run, _) => if run in m.running then Some(false) else None
  }

  /** The last write that took. */
  function LastWrite(m: Machine, events: seq<Event>): Option<bool> {
    if events == [] then None
    else
      var before, e := events[..|events| - 1], events[|events| - 1];
      var w := WriteOf(Outcome(m, before), e);
      if w.Some? then w else LastWrite(m, before)
  }

  lemma {:induction false} FileHoldsTheLastWrite(m: Machine, events: seq<Event>)
    ensures Outcome(m, events).policy.enabled == if LastWrite(m, events).Some? then LastWrite(m, events) else m.policy.enabled
  {
    if events != [] {
      FileHoldsTheLastWrite(m, events[..|events| - 1]);
    }
  }

  /**
   * A run that has started has the gate open; from then on, whatever overlaps with it, the gate is
   * open exactly if the last write that took since is not the close of some run.
   */
  lemma GateIsOpenUnlessClosedSince(m: Machine, e: Event, since: seq<Event>)
    requires e.Start? && e.run !in m.running && e.run in Next(m, e).running
    ensures IsOpen(Outcome(Next(m, e), since).policy) <==> LastWrite(Next(m, e), since) != Some(false)
  {
    var started := Next(m, e);
    StartOpens(m, e);
    FileHoldsTheLastWrite(started, since);
    match LastWrite(started, since) {
      case None =>
      case Some(value) => assert value == true || value == false;
    }
  }

  lemma StartOpens(m: Machine, e: Event)
    requires e.Start? && e.run !in m.running && e.run in Next(m, e).running
    ensures IsOpen(Next(m, e).policy)
  {
  }

  /** So the first of two overlapping runs to finish closes the gate under the other. */
  lemma FirstFinishClosesForAll(m: Machine, first: Event, second: Event, finish: Event)
    requires first.Start? && second.Start? && first.run != second.run && finish.Finish? && finish.run == first.run
    requires first.run !in m.running && first.run in Next(m, first).running
    requires second.run !in m.running && second.run in Next(Next(m, first), second).running
    requires finish.io.readOk && finish.io.write == Takes
    ensures
      var end := Next(Next(Next(m, first), second), finish);
      second.run in end.running && !IsOpen(end.policy)
  {
  }

  ghost predicate OneAtATime(m: Machine, events: seq<Event>) {
    forall n | 0 <= n <= |events| :: |Outcome(m, events[..n]).running| <= 1
  }

  /** Runs that follow each other have the gate open as long as they run, whatever the file does. */
  lemma {:induction false} SequentialRunsHaveTheGate(m: Machine, events: seq<Event>)
    requires OneAtATime(m, events) && (m.running != {} ==> IsOpen(m.policy))
    ensures Outcome(m, events).running != {} ==> IsOpen(Outcome(m, events).policy)
  {
    if events != [] {
      var n := |events| - 1;
      assert forall i | 0 <= i <= n :: events[..n][..i] == events[..i];
      SequentialRunsHaveTheGate(m, events[..n]);
      assert events[..|events|] == events && |Outcome(m, events[..|events|]).running| <= 1;
      assert |Outcome(m, events[..n]).running| <= 1;
      OneRunHasTheGate(Outcome(m, events[..n]), events[n]);
    }
  }

  lemma OneRunHasTheGate(m: Machine, e: Event)
    requires |m.running| <= 1 && |Next(m, e).running| <= 1
    requires m.running != {} ==> IsOpen(m.policy)
    ensures Next(m, e).running != {} ==> IsOpen(Next(m, e).policy)
  {
    if e.Finish? && e.run in m.running {
      var run := e.run;
      assert |m.running - {run}| == |m.running| - 1;
    }
  }

  // ----- when a run starts, and what a finish does, field by field -----

  /**
   * A run starts iff the budget allows it, the policy can be read, neither the kill switch nor the
   * CI override in CI forbids it, and the opening write is confirmed: the file can be read and has
   * the field, it can be read back, and the write took, or was dropped on a gate that was open.
   */
  lemma RunStartsIff(m: Machine, run: RunId, budgetOk: bool, ci: bool, policyReadOk: bool, io: IO)
    requires run !in m.running
    ensures
      run in Next(m, Start(run, budgetOk, ci, policyReadOk, io)).running <==>
        && budgetOk && policyReadOk
        && !m.policy.killSwitch && !(m.policy.ciOverride && ci)
        && io.readOk && m.policy.enabled.Some? && io.readBackOk
        && (io.write == Takes || (io.write == Dropped && m.policy.enabled == Some(true)))
  {
  }

  /** A start refused by the budget, the kill switch, the CI override or an unreadable policy changes nothing. */
  lemma RefusedStartChangesNothing(m: Machine, run: RunId, budgetOk: bool, ci: bool, policyReadOk: bool, io: IO)
    requires !budgetOk || !policyReadOk || m.policy.killSwitch || (m.policy.ciOverride && ci)
    ensures Next(m, Start(run, budgetOk, ci, policyReadOk, io)) == m
  {
  }

  /** The budget verdict of a run: without a ledger there is none to pass. */
  function BudgetVerdict(ceiling: Option<real>, spent: real, estimate: real): bool {
    ceiling.None? || MayStart(ceiling.value, spent, estimate)
  }

  /** So with a ledger no run starts once the ceiling is reached, nor one whose estimate would pass it. */
  lemma NothingStartsOverTheCeiling(
    m: Machine, run: RunId, ceiling: real, spent: real, estimate: real, ci: bool, policyReadOk: bool, io: IO)
    requires spent >= ceiling || spent + estimate > ceiling
    ensures Next(m, Start(run, BudgetVerdict(Some(ceiling), spent, estimate), ci, policyReadOk, io)) == m
  {
  }

  /** The file after a write of the gate, and the answer, by what read, write and read-back do. */
  lemma WriteByOutcomes(p: Policy, wanted: bool, io: IO)
    ensures
      PolicyAfter(p, wanted, io)
      == if io.readOk && p.enabled.Some? && (io.write == Takes || io.write == ThrowsAfter)
         then Policy(Some(wanted), p.killSwitch, p.ciOverride) else p
    ensures
      AnswerOf(p, wanted, io) == Threw <==>
        io.readOk && p.enabled.Some? && (io.write == Takes || io.write == Dropped) && !io.readBackOk
    ensures
      AnswerOf(p, wanted, io) == Result(true, wanted) <==>
        && io.readOk && p.enabled.Some? && io.readBackOk
        && (io.write == Takes || (io.write == Dropped && p.enabled == Some(wanted)))
    ensures
      AnswerOf(p, wanted, io).Result? && !AnswerOf(p, wanted, io).verified ==>
        AnswerOf(p, wanted, io).actual ==
          (io.readOk && p.enabled == Some(true) && !wanted && io.write == Dropped && io.readBackOk)
  {
    match p.enabled {
      case None =>
      case Some(value) => assert value == true || value == false;
    }
  }

  /**
   * A finish takes its run off, closes the file if its write takes, and is CRITICAL iff it comes to
   * an answer and that does not confirm the gate closed; a finish of a run that is not on changes nothing.
   */
  lemma FinishByFields(m: Machine, run: RunId, io: IO)
    ensures run !in m.running ==> Next(m, Finish(run, io)) == m
    ensures run in m.running ==>
              var after := Next(m, Finish(run, io));
              && after.running == m.running - {run}
              && after.policy == PolicyAfter(m.policy, false, io)
              && (after.critical <==>
                    || m.critical
                    || !io.readOk || m.policy.enabled.None? || io.write == ThrowsBefore || io.write == ThrowsAfter
                    || (io.readBackOk && io.write == Dropped && m.policy.enabled == Some(true)))
  {
    match m.policy.enabled {
      case None =>
      case Some(value) => assert value == true || value == false;
    }
  }

  /** What a start that does not run reports as `gateClosedVerified`. */
  function ReportedClosed(m: Machine, e: Event): bool
    requires e.Start?
  {
    if !Admitted(m, e) then true
    else
      var answer := AnswerOf(m.policy, true, e.io);
      answer.Result? && !answer.actual
  }

  /**
   * A start that does not run, over a well-behaved file, reports the gate closed and leaves it as
   * it was: the report is true exactly if the gate was closed before.
   */
  lemma RefusalReportIsAboutItself(m: Machine, e: Event)
    requires e.Start? && WellBehaved(e) && Next(m, e).running == m.running
    ensures ReportedClosed(m, e)
    ensures IsOpen(Next(m, e).policy) <==> IsOpen(m.policy)
    ensures Contained(m) && !m.critical && m.running == {} ==> !IsOpen(Next(m, e).policy)
  {
    if Admitted(m, e) {
      assert e.run in m.running + {e.run};
    }
  }

  /** While another run holds the gate, a start refused before its write and one whose write throws both misreport. */
  lemma RefusalCanMisreport()
    ensures
      var refused := Machine(Policy(Some(true), true, false), {0}, false);
      var admitted := Machine(Policy(Some(true), false, false), {0}, false);
      var e := Start(1, true, false, true, IO(true, ThrowsBefore, true));
      && Contained(refused) && !Admitted(refused, e) && ReportedClosed(refused, e) && IsOpen(Next(refused, e).policy)
      && Contained(admitted) && Admitted(admitted, e) && ReportedClosed(admitted, e) && IsOpen(Next(admitted, e).policy)
  {
    assert 0 in {0};
  }

  // ----- the ledger -----

  class BudgetLedger {
    const ceiling: real
    var spent: real

    constructor (ceiling: real, initial: real)
      ensures this.ceiling == ceiling && spent == initial
    {
      this.ceiling := ceiling;
      spent := initial;
    }

    method CanStart(estimate: real) returns (allowed: bool)
      ensures allowed <==> spent < ceiling && spent + estimate <= ceiling
      ensures allowed <==> MayStart(ceiling, spent, estimate)
    {
      if spent >= ceiling {
        return false;
      }
      return !(spent + estimate > ceiling);
    }

    method Record(usd: real)
      modifies this
      ensures spent == old(spent) + usd
    {
      spent := spent + usd;
    }
  }

  predicate MayStart(ceiling: real, spent: real, estimate: real) {
    spent < ceiling && spent + estimate <= ceiling
  }

  /** One run asks, runs if allowed, and records; runs follow each other. */
  datatype PaidRun = PaidRun(estimate: real, actual: real)

  function SpentAfter(ceiling: real, spent: real, runs: seq<PaidRun>): real {
    if runs == [] then spent
    else
      var before, r := SpentAfter(ceiling, spent, runs[..|runs| - 1]), runs[|runs| - 1];
      if MayStart(ceiling, before, r.estimate) then before + r.actual else before
  }

  /** With overruns of at most `slack` per run, spending never passes the ceiling by more than one overrun. */
  lemma {:induction false} SpendingStaysNearCeiling(ceiling: real, spent: real, runs: seq<PaidRun>, slack: real)
    requires spent <= ceiling + slack && slack >= 0.0
    requires forall r | r in runs :: r.actual <= r.estimate + slack
    ensures SpentAfter(ceiling, spent, runs) <= ceiling + slack
  {
    if runs != [] {
      SpendingStaysNearCeiling(ceiling, spent, runs[..|runs| - 1], slack);
      assert runs[|runs| - 1] in runs;
    }
  }

  // ----- overlapping runs on one ledger -----

  /** A run is checked when it begins and recorded when it ends; `open` holds those in between. */
  datatype LedgerEvent = Begin(run: PaidRun) | End(k: nat)

  datatype Ledger = Ledger(spent: real, open: seq<PaidRun>)

  function NextLedger(ceiling: real, l: Ledger, e: LedgerEvent): Ledger {
    match e
    case Begin(r) => if MayStart(ceiling, l.spent, r.estimate) then l.(open := l.open + [r]) else l
    case End(k) => if k < |l.open| then Ledger(l.spent + l.open[k].actual, l.open[..k] + l.open[k + 1..]) else l
  }

  function LedgerAfter(ceiling: real, l: Ledger, events: seq<LedgerEvent>): Ledger {
    if events == [] then l else NextLedger(ceiling, LedgerAfter(ceiling, l, events[..|events| - 1]), events[|events| - 1])
  }

  ghost predicate AtMostOpen(ceiling: real, l: Ledger, events: seq<LedgerEvent>, c: nat) {
    forall n | 0 <= n <= |events| :: |LedgerAfter(ceiling, l, events[..n]).open| <= c
  }

  /** What the open runs may still cost. */
  function Committed(open: seq<PaidRun>, slack: real): real {
    if open == [] then 0.0 else open[0].estimate + slack + Committed(open[1..], slack)
  }

  function Times(n: nat, x: real): real {
    if n == 0 then 0.0 else x + Times(n - 1, x)
  }

  lemma {:induction false} TimesIsNonNegative(n: nat, x: real)
    requires x >= 0.0
    ensures Times(n, x) >= 0.0
  {
    if n > 0 {
      TimesIsNonNegative(n - 1, x);
    }
  }

  predicate Bounded(r: PaidRun, largest: real, slack: real) {
    0.0 <= r.estimate + slack && r.estimate <= largest && r.actual <= r.estimate + slack
  }

  lemma {:induction false} CommittedAppend(a: seq<PaidRun>, b: seq<PaidRun>, slack: real)
    ensures Committed(a + b, slack) == Committed(a, slack) + Committed(b, slack)
  {
    if a == [] {
      assert a + b == b;
    } else {
      assert (a + b)[1..] == a[1..] + b;
      CommittedAppend(a[1..], b, slack);
    }
  }

  lemma {:induction false} CommittedIsBounded(open: seq<PaidRun>, largest: real, slack: real, c: nat)
    requires |open| <= c && forall r | r in open :: Bounded(r, largest, slack)
    requires largest + slack >= 0.0
    ensures Committed(open, slack) <= Times(c, largest + slack)
  {
    if open == [] {
      TimesIsNonNegative(c, largest + slack);
    } else {
      assert Bounded(open[0], largest, slack);
      CommittedIsBounded(open[1..], largest, slack, c - 1);
    }
  }

  lemma {:induction false} CommittedWithout(open: seq<PaidRun>, k: nat, slack: real)
    requires k < |open|
    ensures Committed(open, slack) == open[k].estimate + slack + Committed(open[..k] + open[k + 1..], slack)
  {
    assert open == open[..k] + open[k..] && open[k..][1..] == open[k + 1..];
    CommittedAppend(open[..k], open[k..], slack);
    CommittedAppend(open[..k], open[k + 1..], slack);
  }

  /** With at most `c` runs open: one overrun, and every further open run in full, above the ceiling at most. */
  function SpendingBound(ceiling: real, largest: real, slack: real, c: nat): real
    requires c >= 1
  {
    ceiling + slack + Times(c - 1, largest + slack)
  }

  lemma NextKeepsSpending(ceiling: real, l: Ledger, e: LedgerEvent, largest: real, slack: real, c: nat)
    requires c >= 1 && largest + slack >= 0.0
    requires forall r | r in l.open :: Bounded(r, largest, slack)
    requires e.Begin? ==> Bounded(e.run, largest, slack)
    requires |NextLedger(ceiling, l, e).open| <= c
    requires l.spent + Committed(l.open, slack) <= SpendingBound(ceiling, largest, slack, c)
    ensures
      var next := NextLedger(ceiling, l, e);
      && next.spent + Committed(next.open, slack) <= SpendingBound(ceiling, largest, slack, c)
      && forall r | r in next.open :: Bounded(r, largest, slack)
  {
    match e {
      case Begin(r) =>
        if MayStart(ceiling, l.spent, r.estimate) {
          CommittedAppend(l.open, [r], slack);
          CommittedIsBounded(l.open, largest, slack, c - 1);
          assert Committed([r], slack) == r.estimate + slack + Committed([r][1..], slack);
        }
      case End(k) =>
        if k < |l.open| {
          CommittedWithout(l.open, k, slack);
          assert l.open[k] in l.open;
        }
    }
  }

  /** Spending and what is still open stay within the bound in every interleaving of runs on one ledger. */
  lemma {:induction false} OverlappingSpendingIsBounded(
    ceiling: real, spent: real, events: seq<LedgerEvent>, largest: real, slack: real, c: nat)
    requires c >= 1 && spent <= ceiling + slack && largest + slack >= 0.0
    requires forall e | e in events && e.Begin? :: Bounded(e.run, largest, slack)
    requires AtMostOpen(ceiling, Ledger(spent, []), events, c)
    ensures
      var end := LedgerAfter(ceiling, Ledger(spent, []), events);
      && end.spent + Committed(end.open, slack) <= SpendingBound(ceiling, largest, slack, c)
      && forall r | r in end.open :: Bounded(r, largest, slack)
  {
    if events == [] {
      TimesIsNonNegative(c - 1, largest + slack);
    } else {
      var n, l := |events| - 1, Ledger(spent, []);
      assert forall i | 0 <= i <= n :: events[..n][..i] == events[..i];
      OverlappingSpendingIsBounded(ceiling, spent, events[..n], largest, slack, c);
      assert events[..|events|] == events && events[n] in events;
      assert |LedgerAfter(ceiling, l, events[..|events|]).open| <= c;
      NextKeepsSpending(ceiling, LedgerAfter(ceiling, l, events[..n]), events[n], largest, slack, c);
    }
  }

  function Copies(r: PaidRun, n: nat): seq<PaidRun> {
    seq(n, _ => r)
  }

  function Begins(r: PaidRun, n: nat): seq<LedgerEvent> {
    if n == 0 then [] else Begins(r, n - 1) + [Begin(r)]
  }

  function Ends(n: nat): seq<LedgerEvent> {
    if n == 0 then [] else Ends(n - 1) + [End(0)]
  }

  lemma {:induction false} AllBegin(ceiling: real, spent: real, r: PaidRun, n: nat)
    requires MayStart(ceiling, spent, r.estimate)
    ensures LedgerAfter(ceiling, Ledger(spent, []), Begins(r, n)) == Ledger(spent, Copies(r, n))
  {
    if n > 0 {
      AllBegin(ceiling, spent, r, n - 1);
      var events := Begins(r, n);
      assert events[..|events| - 1] == Begins(r, n - 1);
      assert Copies(r, n - 1) + [r] == Copies(r, n);
    }
  }

  lemma LedgerSnoc(ceiling: real, l: Ledger, events: seq<LedgerEvent>, e: LedgerEvent)
    ensures LedgerAfter(ceiling, l, events + [e]) == NextLedger(ceiling, LedgerAfter(ceiling, l, events), e)
  {
    assert (events + [e])[..|events|] == events;
  }

  lemma {:induction false} LedgerAppend(ceiling: real, l: Ledger, a: seq<LedgerEvent>, b: seq<LedgerEvent>)
    ensures LedgerAfter(ceiling, l, a + b) == LedgerAfter(ceiling, LedgerAfter(ceiling, l, a), b)
  {
    if b == [] {
      assert a + b == a;
    } else {
      var n := |b| - 1;
      LedgerAppend(ceiling, l, a, b[..n]);
      LedgerSnoc(ceiling, l, a + b[..n], b[n]);
      Regroup(a, b[..n], [b[n]]);
      assert b == b[..n] + [b[n]];
    }
  }

  /** When `k` of `n` runs have ended. */
  function Ended(spent: real, r: PaidRun, n: nat, k: nat): Ledger
    requires k <= n
  {
    Ledger(spent + Times(k, r.actual), Copies(r, n - k))
  }

  lemma {:induction false} AllEnd(ceiling: real, spent: real, r: PaidRun, n: nat, k: nat)
    requires k <= n
    ensures LedgerAfter(ceiling, Ledger(spent, Copies(r, n)), Ends(k)) == Ended(spent, r, n, k)
  {
    if k > 0 {
      AllEnd(ceiling, spent, r, n, k - 1);
      LedgerSnoc(ceiling, Ledger(spent, Copies(r, n)), Ends(k - 1), End(0));
      OneMoreEnded(ceiling, spent, r, n, k);
    }
  }

  lemma OneMoreEnded(ceiling: real, spent: real, r: PaidRun, n: nat, k: nat)
    requires 0 < k <= n
    ensures NextLedger(ceiling, Ended(spent, r, n, k - 1), End(0)) == Ended(spent, r, n, k)
  {
    var open := Copies(r, n - (k - 1));
    assert open[..0] + open[0 + 1..] == Copies(r, n - k);
  }

  /** The bound is attained: `c` runs that are each estimated at all that is left, begun together, all overrun. */
  lemma OverlappingSpendingIsAttained(ceiling: real, spent: real, slack: real, c: nat)
    requires spent < ceiling && c >= 1
    ensures
      var left := ceiling - spent;
      var events := Begins(PaidRun(left, left + slack), c) + Ends(c);
      LedgerAfter(ceiling, Ledger(spent, []), events).spent == SpendingBound(ceiling, left, slack, c)
  {
    var left := ceiling - spent;
    AllBeginAndEnd(ceiling, spent, PaidRun(left, left + slack), c);
    WhatIsLeft(ceiling, spent, slack, c);
  }

  lemma AllBeginAndEnd(ceiling: real, spent: real, r: PaidRun, c: nat)
    requires MayStart(ceiling, spent, r.estimate)
    ensures LedgerAfter(ceiling, Ledger(spent, []), Begins(r, c) + Ends(c)).spent == spent + Times(c, r.actual)
  {
    AllBegin(ceiling, spent, r, c);
    LedgerAppend(ceiling, Ledger(spent, []), Begins(r, c), Ends(c));
    AllEnd(ceiling, spent, r, c, c);
  }

  lemma WhatIsLeft(ceiling: real, spent: real, slack: real, c: nat)
    requires c >= 1
    ensures spent + Times(c, (ceiling - spent) + slack) == SpendingBound(ceiling, ceiling - spent, slack, c)
  {
  }
}
