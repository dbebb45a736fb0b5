/**
 * The exit gate over an untrusted patch, and the human gate of the harness core that looks at the
 * same files and the same write-set with the other glob matcher.
 */
module ExitGate {
  import opened Common
  import opened GlobCompiler

  datatype Stage = ResultValid | WriteSet | Spec | Validator | Regression | Assessor

  datatype StageResult = StageResult(stage: Stage, ok: bool, skipped: bool)

  /** The verdicts of the injected stages; a missing one passes through. */
  datatype Gates = Gates(
    writeSetOk: bool,
    specOk: bool,
    validator: Option<bool>,
    regression: Option<bool>,
    assessor: Option<bool>)

  datatype Verdict = Verdict(
    accepted: bool,
    rejectedWhole: bool,
    changedFiles: seq<string>,
    outOfWriteSet: seq<string>,
    stages: seq<StageResult>)

  predicate InWriteSet(file: string, writeSet: seq<string>) {
    exists g | g in writeSet :: GlobMatch(g, file)
  }

  predicate AllOk(stages: seq<StageResult>) {
    forall s | s in stages :: s.ok
  }

  function OutOfSet(files: seq<string>, inSet: string -> bool): seq<string> {
    Filter(files, Not(inSet))
  }

  lemma {:induction false} NothingOutside(files: seq<string>, inSet: string -> bool)
    ensures OutOfSet(files, inSet) == [] <==> forall f | f in files :: inSet(f)
  {
    var outside := OutOfSet(files, inSet);
    if outside != [] {
      assert outside[0] in files && Not(inSet)(outside[0]);
    } else {
      forall f | f in files
        ensures inSet(f)
      {
        assert Not(inSet)(f) ==> f in outside;
      }
    }
  }

  /** The verdict on six stages, of which the last four were run or skipped. */
  ghost predicate Stages(v: Verdict, ok: seq<bool>, skipped: bool)
    requires |ok| == 6
  {
    v.stages == [StageResult(ResultValid, ok[0], false), StageResult(WriteSet, ok[1], false),
                 StageResult(Spec, ok[2], skipped), StageResult(Validator, ok[3], skipped),
                 StageResult(Regression, ok[4], skipped), StageResult(Assessor, ok[5], skipped)]
  }

  /**
   * `diff` is the list of files parsed from the diff, or missing when the result carries none;
   * `inSet` says which files some glob of the write-set matches.  Accepted exactly if there is a
   * diff, every stage passes, and no file is out of the write-set; one file outside, and the rest
   * of the pipeline is skipped.
   */
  method RunExitGate(diff: Option<seq<string>>, inSet: string -> bool, gates: Gates) returns (v: Verdict)
    ensures v.changedFiles == diff.GetOr([]) && v.outOfWriteSet == OutOfSet(v.changedFiles, inSet)
    ensures v.rejectedWhole <==> diff.None? || exists f | f in diff.value :: !inSet(f)
    ensures v.accepted <==>
              && !v.rejectedWhole && gates.writeSetOk && gates.specOk
              && gates.validator.GetOr(true) && gates.regression.GetOr(true) && gates.assessor.GetOr(true)
    ensures v.rejectedWhole ==>
              Stages(v, [diff.Some?, diff.Some? && gates.writeSetOk && v.outOfWriteSet == [], false, false, false, false], true)
    ensures !v.rejectedWhole ==>
              Stages(v, [true, gates.writeSetOk, gates.specOk, gates.validator.GetOr(true),
                         gates.regression.GetOr(true), gates.assessor.GetOr(true)], false)
  {
    var stages := [StageResult(ResultValid, diff.Some?, false)];
    var changed := diff.GetOr([]);
    var outside := OutOfSet(changed, inSet);
    NothingOutside(changed, inSet);
    stages := stages + [StageResult(WriteSet, diff.Some? && gates.writeSetOk && outside == [], false)];
    if diff.None? || outside != [] {
      stages := stages + [StageResult(Spec, false, true)];
      stages := stages + [StageResult(Validator, false, true)];
      stages := stages + [StageResult(Regression, false, true)];
      stages := stages + [StageResult(Assessor, false, true)];
      return Verdict(false, true, changed, outside, stages);
    }
    stages := stages + [StageResult(Spec, gates.specOk, false)];
    stages := stages + [StageResult(Validator, gates.validator.GetOr(true), false)];
    stages := stages + [StageResult(Regression, gates.regression.GetOr(true), false)];
    stages := stages + [StageResult(Assessor, gates.assessor.GetOr(true), false)];
    AllOfSix(stages);
    v := Verdict(AllOk(stages) && outside == [], false, changed, outside, stages);
  }

  lemma AllOfSix(stages: seq<StageResult>)
    requires |stages| == 6
    ensures AllOk(stages) <==>
              stages[0].ok && stages[1].ok && stages[2].ok && stages[3].ok && stages[4].ok && stages[5].ok
  {
  }

  function WriteSetTest(writeSet: seq<string>): string -> bool {
    (f: string) => InWriteSet(f, writeSet)
  }

  // ----- the human gate of the harness core -----

  datatype GateAction = ApplyPatch | EscalateHuman | OtherAction

  datatype HumanGateReason = AttemptBudgetExceeded | Promotion | ScopeExpansion | SystemicFailure

  datatype GateContext = GateContext(changedFiles: Option<seq<string>>, allowedWriteSet: Option<seq<string>>, isPromotion: bool)

  predicate InHarnessWriteSet(file: string, writeSet: seq<string>) {
    exists g | g in writeSet :: MatchesGlob(file, g)
  }

  function CheckHumanGate(action: GateAction, systemicFailure: bool, context: GateContext): Option<HumanGateReason> {
    if action == EscalateHuman then Some(AttemptBudgetExceeded)
    else if context.isPromotion then Some(Promotion)
    else if && action == ApplyPatch && context.changedFiles.Some? && context.allowedWriteSet.Some?
            && exists f | f in context.changedFiles.value :: !InHarnessWriteSet(f, context.allowedWriteSet.value)
    then Some(ScopeExpansion)
    else if systemicFailure then Some(SystemicFailure)
    else None
  }

  /**
   * Each answer of the human gate in the order of its checks: an escalation first, then a promotion,
   * then a changed file that no glob of the write-set matches, then a systemic failure.
   */
  lemma HumanGateByCases(action: GateAction, systemic: bool, context: GateContext)
    ensures
      var outside :=
        action == ApplyPatch && context.changedFiles.Some? && context.allowedWriteSet.Some?
        && exists f :: f in context.changedFiles.value && forall g | g in context.allowedWriteSet.value :: !MatchesGlob(f, g);
      var answer := CheckHumanGate(action, systemic, context);
      && (answer == Some(AttemptBudgetExceeded) <==> action == EscalateHuman)
      && (answer == Some(Promotion) <==> action != EscalateHuman && context.isPromotion)
      && (answer == Some(ScopeExpansion) <==> action != EscalateHuman && !context.isPromotion && outside)
      && (answer == Some(SystemicFailure) <==> action != EscalateHuman && !context.isPromotion && !outside && systemic)
      && (answer.None? <==> action != EscalateHuman && !context.isPromotion && !outside && !systemic)
  {
    if context.changedFiles.Some? && context.allowedWriteSet.Some? {
      forall f
        ensures InHarnessWriteSet(f, context.allowedWriteSet.value) <==>
                  !forall g | g in context.allowedWriteSet.value :: !MatchesGlob(f, g)
      {
      }
    }
  }

  /**
   * No characters with another meaning in one of the two dialects, except the dot; and no split
   * mark, or only such as are harmless, which one path shows.
   */
  ghost predicate PathGlob(glob: string) {
    && SECTION[0] !in glob && (forall c | c in glob :: Plain(c, Loose))
    && (Unsplit(glob) || (Doubled(glob) && (forall c | c in glob :: Inert(c)) && exists z :: ShownHarmless(glob, z)))
  }

  predicate ShownHarmless(glob: string, z: char) {
    && z !in glob && z !in PLACEHOLDER && z != '*' && !IsLineTerminator(z)
    && MatchesGlob(Filled(glob, z), glob)
  }

  /** What the exit gate accepts, the human gate does not stop as a scope expansion. */
  lemma ExitGateAcceptanceIsInScope(files: seq<string>, writeSet: seq<string>, action: GateAction, systemic: bool, promotion: bool)
    requires forall g | g in writeSet :: PathGlob(g)
    requires forall f | f in files :: !HasLineTerminator(f)
    requires forall f | f in files :: WriteSetTest(writeSet)(f)
    ensures CheckHumanGate(action, systemic, GateContext(Some(files), Some(writeSet), promotion)) != Some(ScopeExpansion)
  {
    forall f | f in files
      ensures InHarnessWriteSet(f, writeSet)
    {
      InSetForBoth(f, writeSet);
    }
  }

  lemma InSetForBoth(file: string, writeSet: seq<string>)
    requires forall g | g in writeSet :: PathGlob(g)
    requires !HasLineTerminator(file) && InWriteSet(file, writeSet)
    ensures InHarnessWriteSet(file, writeSet)
  {
    var g :| g in writeSet && GlobMatch(g, file);
    if Unsplit(g) {
      ExitGateMatchImpliesHarnessMatch(g, file);
    } else {
      var z :| ShownHarmless(g, z);
      ImplicationIffFilledIsAccepted(g, z);
    }
  }

  /** With a trap in the write-set the human gate can stop what the exit gate accepts. */
  lemma TrapStopsAnAcceptedPatch(u: string, rest: string)
    requires u == "___DSTAR"
    requires rest != "" && rest[|rest| - 1] != '_' && !HasLineTerminator(rest)
    ensures InWriteSet(u + rest, [u + DOUBLE_STAR])
    ensures CheckHumanGate(ApplyPatch, false, GateContext(Some([u + rest]), Some([u + DOUBLE_STAR]), false)) == Some(ScopeExpansion)
  {
    TrapMakesTheMatchersDisagree(u, rest);
    var files, writeSet := [u + rest], [u + DOUBLE_STAR];
    assert u + DOUBLE_STAR in writeSet;
    forall g | g in writeSet
      ensures !MatchesGlob(u + rest, g)
    {
      assert g == u + DOUBLE_STAR;
    }
    assert u + rest in files && !InHarnessWriteSet(u + rest, writeSet);
  }
}
