/**
 * The cost-adjusted router: pick the model that maximises P(success) - lambda * cost over the
 * capable models of a registry.  Prices, rates and lambda (`weight` here) are real numbers.
 */
module ModelRouter {
  import opened Common
  import Sorting

  datatype TaskComplexity = Trivial | Small | Medium | Large | XLarge

  datatype ModelEntry = ModelEntry(
    name: string,
    isCli: bool,
    capabilities: seq<string>,
    outputPrice: Option<real>,
    contextWindow: Option<int>)

  datatype Task = Task(
    complexity: TaskComplexity,
    requiredCapability: string,
    domains: seq<string>,
    needsLongContext: bool)

  datatype ModelScore = ModelScore(model: string, pSuccess: real, cost: real, normCost: real, score: real)

  datatype Decision = Decision(model: string, scores: seq<ModelScore>)

  type Collation = (string, string) -> bool

  const SAFETY_NET_BOOST := 0.15
  const LONG_CONTEXT_TOKENS := 100_000

  function ComplexityNeed(c: TaskComplexity): real {
    match c
    case Trivial => 0.0
    case Small => 0.25
    case Medium => 0.5
    case Large => 0.75
    case XLarge => 1.0
  }

  function MaxOf(s: seq<real>): (m: real)
    requires s != []
    ensures m in s && forall x | x in s :: x <= m
  {
    if |s| == 1 then s[0]
    else
      var m := MaxOf(s[1..]);
      assert forall x | x in s :: x == s[0] || x in s[1..];
      if s[0] >= m then s[0] else m
  }

  function MinOf(s: seq<real>): (m: real)
    requires s != []
    ensures m in s && forall x | x in s :: m <= x
  {
    if |s| == 1 then s[0]
    else
      var m := MinOf(s[1..]);
      assert forall x | x in s :: x == s[0] || x in s[1..];
      if s[0] <= m then s[0] else m
  }

  function KnownPrices(models: seq<ModelEntry>): (prices: seq<real>)
    ensures forall p :: p in prices <==> exists m | m in models :: m.outputPrice == Some(p)
  {
    if models == [] then []
    else
      var rest := KnownPrices(models[1..]);
      assert forall m | m in models :: m == models[0] || m in models[1..];
      assert forall m | m in models[1..] :: m in models;
      assert models[0] in models;
      (if models[0].outputPrice.Some? then [models[0].outputPrice.value] else []) + rest
  }

  /** Strength by output price among the candidates; an unknown price counts as the middle. */
  function StrengthOf(m: ModelEntry, candidates: seq<ModelEntry>): real {
    var prices := KnownPrices(candidates);
    if m.outputPrice.None? then 0.5
    else if prices == [] then 1.0
    else Placed(m.outputPrice.value, Range(MinOf(prices), MaxOf(prices)))
  }

  datatype Range = Range(lo: real, hi: real)

  /** Where `p` lies in the range, from 0 to 1. */
  function Placed(p: real, r: Range): real {
    if r.hi == r.lo then 1.0 else (p - r.lo) / (r.hi - r.lo)
  }

  predicate LongContextCapable(m: ModelEntry) {
    "long-context" in m.capabilities || m.contextWindow.GetOr(0) >= LONG_CONTEXT_TOKENS
  }

  function Capped(x: real): real {
    if x < 1.0 then x else 1.0
  }

  function ComplexityMatch(strength: real, need: real): real {
    Capped((if strength >= need then 1.0 else 0.6 + 0.4 * (if need != 0.0 then strength / need else 1.0)) + SAFETY_NET_BOOST)
  }

  predicate CoversDomains(m: ModelEntry, task: Task) {
    task.domains == [] || exists d | d in task.domains :: d in m.capabilities
  }

  predicate FitsContext(m: ModelEntry, task: Task) {
    !task.needsLongContext || LongContextCapable(m)
  }

  /** The product of the three matches; a domain match is 1 or 0.75, a context match 1 or 0.5. */
  function SuccessOf(m: ModelEntry, task: Task, candidates: seq<ModelEntry>): real {
    var p := ComplexityMatch(StrengthOf(m, candidates), ComplexityNeed(task.complexity));
    var q := if CoversDomains(m, task) then p else p * 0.75;
    if FitsContext(m, task) then q else q * 0.5
  }

  function CostOf(m: ModelEntry, candidates: seq<ModelEntry>): real {
    var known := KnownPrices(candidates);
    m.outputPrice.GetOr((if known != [] then MaxOf(known) else 1.0) * 1.5)
  }

  function Costs(models: seq<ModelEntry>, candidates: seq<ModelEntry>): (costs: seq<real>)
    ensures |costs| == |models|
    ensures forall c :: c in costs <==> exists m | m in models :: c == CostOf(m, candidates)
  {
    var costs := seq(|models|, i requires 0 <= i < |models| => CostOf(models[i], candidates));
    assert forall m | m in models :: exists i | 0 <= i < |models| :: models[i] == m && costs[i] == CostOf(m, candidates);
    costs
  }

  function NormCostOf(m: ModelEntry, candidates: seq<ModelEntry>): real
    requires candidates != []
  {
    var maxCost := MaxOf(Costs(candidates, candidates));
    if maxCost == 0.0 then 0.0 else CostOf(m, candidates) / maxCost
  }

  /** What is known of a candidate before the cost weighs in. */
  datatype Estimate = Estimate(model: string, pSuccess: real, cost: real, normCost: real)

  function EstimateOf(m: ModelEntry, task: Task, candidates: seq<ModelEntry>): Estimate
    requires candidates != []
  {
    Estimate(m.name, SuccessOf(m, task, candidates), CostOf(m, candidates), NormCostOf(m, candidates))
  }

  function Estimates(task: Task, candidates: seq<ModelEntry>): seq<Estimate>
    requires candidates != []
  {
    seq(|candidates|, i requires 0 <= i < |candidates| => EstimateOf(candidates[i], task, candidates))
  }

  function Weigh(e: Estimate, weight: real): ModelScore {
    ModelScore(e.model, e.pSuccess, e.cost, e.normCost, e.pSuccess - weight * e.normCost)
  }

  function Scores(estimates: seq<Estimate>, weight: real): seq<ModelScore> {
    seq(|estimates|, i requires 0 <= i < |estimates| => Weigh(estimates[i], weight))
  }

  datatype RankKey = RankKey(score: real, model: string)

  function RankOf(s: ModelScore): RankKey {
    RankKey(s.score, s.model)
  }

  /** Highest score first, ties by name. */
  predicate RanksBefore(a: RankKey, b: RankKey, collate: Collation) {
    a.score > b.score || (a.score == b.score && collate(a.model, b.model))
  }

  function Ranking(collate: Collation): (RankKey, RankKey) -> bool {
    (a: RankKey, b: RankKey) => RanksBefore(a, b, collate)
  }

  predicate IsCandidate(m: ModelEntry, task: Task) {
    !m.isCli && task.requiredCapability in m.capabilities
  }

  function Candidates(task: Task, models: seq<ModelEntry>): seq<ModelEntry> {
    Filter(models, m => IsCandidate(m, task))
  }

  function SelectModel(task: Task, models: seq<ModelEntry>, weight: real, collate: Collation): Option<Decision> {
    var candidates := Candidates(task, models);
    if candidates == [] then None
    else
      var scores := Scores(Estimates(task, candidates), weight);
      var ranked := Sorting.Sort(scores, RankOf, Ranking(collate));
      Sorting.SortKeepsElements(scores, RankOf, Ranking(collate));
      Some(Decision(ranked[0].model, ranked))
  }

  // ----- success estimates -----

  lemma StrengthIsAFraction(m: ModelEntry, candidates: seq<ModelEntry>)
    requires m in candidates
    ensures 0.0 <= StrengthOf(m, candidates) <= 1.0
  {
    var prices := KnownPrices(candidates);
    if m.outputPrice.Some? {
      var p := m.outputPrice.value;
      assert p in prices;
      var lo, hi := MinOf(prices), MaxOf(prices);
      if hi != lo {
        FractionBounds(p - lo, hi - lo);
      }
    }
  }

  lemma FractionBounds(x: real, y: real)
    requires 0.0 <= x <= y && y > 0.0
    ensures 0.0 <= x / y <= 1.0
  {
  }

  /** Every estimate lies between 0.28125 and 1, whatever the prices are. */
  lemma SuccessIsBounded(m: ModelEntry, task: Task, candidates: seq<ModelEntry>)
    requires m in candidates
    ensures 0.28125 <= SuccessOf(m, task, candidates) <= 1.0
  {
    var strength, need := StrengthOf(m, candidates), ComplexityNeed(task.complexity);
    StrengthIsAFraction(m, candidates);
    if strength < need {
      FractionBounds(strength, need);
    }
    assert 0.75 <= ComplexityMatch(strength, need) <= 1.0;
  }

  /** All else equal, the dearer of two models is never estimated the less likely to succeed. */
  lemma DearerIsNoWeaker(m: ModelEntry, n: ModelEntry, task: Task, candidates: seq<ModelEntry>)
    requires m in candidates && n in candidates
    requires m.outputPrice.Some? && n.outputPrice.Some? && m.outputPrice.value <= n.outputPrice.value
    requires CoversDomains(m, task) ==> CoversDomains(n, task)
    requires FitsContext(m, task) ==> FitsContext(n, task)
    ensures SuccessOf(m, task, candidates) <= SuccessOf(n, task, candidates)
  {
    var weak, strong, need := StrengthOf(m, candidates), StrengthOf(n, candidates), ComplexityNeed(task.complexity);
    StrengthIsAFraction(m, candidates);
    StrengthIsAFraction(n, candidates);
    var prices := KnownPrices(candidates);
    assert m.outputPrice.value in prices && n.outputPrice.value in prices;
    var lo, hi := MinOf(prices), MaxOf(prices);
    if hi != lo {
      QuotientGrows(m.outputPrice.value - lo, n.outputPrice.value - lo, hi - lo);
    }
    assert weak <= strong;
    MatchGrows(weak, strong, need);
    SuccessIsBounded(m, task, candidates);
    SuccessIsBounded(n, task, candidates);
  }

  lemma MatchGrows(weak: real, strong: real, need: real)
    requires 0.0 <= weak <= strong && need >= 0.0
    ensures 0.75 <= ComplexityMatch(weak, need) <= ComplexityMatch(strong, need)
  {
    if weak < need {
      FractionBounds(weak, need);
      QuotientGrows(weak, strong, need);
    }
  }

  lemma QuotientGrows(x: real, y: real, d: real)
    requires x <= y && d > 0.0
    ensures x / d <= y / d
  {
  }

  /** The lower bound is attained: the cheapest of two models, when it covers neither domain nor context. */
  lemma SuccessBoundIsAttained(m: ModelEntry, n: ModelEntry, task: Task)
    requires m.outputPrice == Some(1.0) && n.outputPrice == Some(2.0)
    requires task.complexity != Trivial && !CoversDomains(m, task) && !FitsContext(m, task)
    ensures SuccessOf(m, task, [m, n]) == 0.28125
  {
    var prices := KnownPrices([m, n]);
    assert [m, n][1..] == [n] && [n][1..] == [];
    assert KnownPrices([n]) == [2.0];
    assert prices == [1.0, 2.0];
    assert prices[1..] == [2.0];
    assert StrengthOf(m, [m, n]) == 0.0;
    assert 0.0 / ComplexityNeed(task.complexity) == 0.0;
  }

  // ----- each factor by itself -----

  /** What a task needs, by complexity. */
  lemma NeedsAre()
    ensures ComplexityNeed(Trivial) == 0.0
    ensures ComplexityNeed(Small) == 0.25
    ensures ComplexityNeed(Medium) == 0.5
    ensures ComplexityNeed(Large) == 0.75
    ensures ComplexityNeed(XLarge) == 1.0
  {
  }

  /** The task names no domain, or one that is among the model's capabilities. */
  ghost predicate Covers(m: ModelEntry, task: Task) {
    task.domains == [] || exists d :: d in task.domains && d in m.capabilities
  }

  /** The task needs no long context, or the model says it can or has a window of 100000 tokens or more. */
  predicate CanHold(m: ModelEntry, task: Task) {
    || !task.needsLongContext
    || "long-context" in m.capabilities
    || (m.contextWindow.Some? && m.contextWindow.value >= 100_000)
  }

  /**
   * The success estimate, factor by factor: strong enough counts 1, and otherwise 0.75 and 0.4 of
   * the fraction reached, at most 1; an uncovered domain takes a quarter, a short context a half.
   */
  lemma SuccessByFactors(m: ModelEntry, task: Task, candidates: seq<ModelEntry>)
    requires m in candidates
    ensures
      var s, need, p := StrengthOf(m, candidates), ComplexityNeed(task.complexity), SuccessOf(m, task, candidates);
      && (s >= need && Covers(m, task) && CanHold(m, task) ==> p == 1.0)
      && (s >= need && !Covers(m, task) && CanHold(m, task) ==> p == 0.75)
      && (s >= need && Covers(m, task) && !CanHold(m, task) ==> p == 0.5)
      && (s >= need && !Covers(m, task) && !CanHold(m, task) ==> p == 0.375)
    ensures
      var s, need, p := StrengthOf(m, candidates), ComplexityNeed(task.complexity), SuccessOf(m, task, candidates);
      s < need ==>
        && need > 0.0
        && var partial := if 0.75 + 0.4 * (s / need) < 1.0 then 0.75 + 0.4 * (s / need) else 1.0;
           && (Covers(m, task) && CanHold(m, task) ==> p == partial)
           && (!Covers(m, task) && CanHold(m, task) ==> p == partial * 0.75)
           && (Covers(m, task) && !CanHold(m, task) ==> p == partial * 0.5)
           && (!Covers(m, task) && !CanHold(m, task) ==> p == partial * 0.75 * 0.5)
  {
    var s, need := StrengthOf(m, candidates), ComplexityNeed(task.complexity);
    StrengthIsAFraction(m, candidates);
    assert CoversDomains(m, task) <==> Covers(m, task);
    assert FitsContext(m, task) <==> CanHold(m, task);
    MatchByNeed(s, need);
  }

  lemma MatchByNeed(s: real, need: real)
    requires s >= 0.0 && need >= 0.0
    ensures s >= need ==> ComplexityMatch(s, need) == 1.0
    ensures s < need ==>
              ComplexityMatch(s, need) == if 0.75 + 0.4 * (s / need) < 1.0 then 0.75 + 0.4 * (s / need) else 1.0
  {
  }

  /**
   * Strength by price among the candidates: a half without a price, 1 if all known prices are the
   * same, and otherwise the model's place between the least and the greatest known price.
   */
  lemma StrengthByPrice(m: ModelEntry, candidates: seq<ModelEntry>) returns (lo: real, hi: real)
    requires m in candidates
    ensures m.outputPrice.None? ==> StrengthOf(m, candidates) == 0.5
    ensures m.outputPrice.Some? ==>
              && (exists c | c in candidates :: c.outputPrice == Some(lo))
              && (exists c | c in candidates :: c.outputPrice == Some(hi))
              && (forall c | c in candidates && c.outputPrice.Some? :: lo <= c.outputPrice.value <= hi)
              && StrengthOf(m, candidates) == (if hi == lo then 1.0 else (m.outputPrice.value - lo) / (hi - lo))
  {
    lo, hi := 0.0, 0.0;
    if m.outputPrice.Some? {
      var prices := KnownPrices(candidates);
      assert m.outputPrice.value in prices;
      lo, hi := MinOf(prices), MaxOf(prices);
    }
  }

  /** The cost of a model: its price, or one and a half times the greatest known one, or 1.5 if none is known. */
  lemma CostByPrice(m: ModelEntry, candidates: seq<ModelEntry>)
    ensures m.outputPrice.Some? ==> CostOf(m, candidates) == m.outputPrice.value
    ensures m.outputPrice.None? && (forall c | c in candidates :: c.outputPrice.None?) ==> CostOf(m, candidates) == 1.5
    ensures m.outputPrice.None? ==>
              forall c | c in candidates && c.outputPrice.Some? && IsDearest(c, candidates) ::
                CostOf(m, candidates) == c.outputPrice.value * 1.5
  {
    var known := KnownPrices(candidates);
    forall c | c in candidates && c.outputPrice.Some? && IsDearest(c, candidates)
      ensures known != [] && MaxOf(known) == c.outputPrice.value
    {
      assert c.outputPrice.value in known;
    }
  }

  ghost predicate IsDearest(c: ModelEntry, candidates: seq<ModelEntry>)
    requires c.outputPrice.Some?
  {
    forall d | d in candidates && d.outputPrice.Some? :: d.outputPrice.value <= c.outputPrice.value
  }

  /** The normalised cost is the share of the greatest cost of a candidate, 0 if that is 0. */
  lemma NormCostByCost(m: ModelEntry, candidates: seq<ModelEntry>) returns (dearest: ModelEntry)
    requires candidates != []
    ensures dearest in candidates && forall c | c in candidates :: CostOf(c, candidates) <= CostOf(dearest, candidates)
    ensures
      var most := CostOf(dearest, candidates);
      NormCostOf(m, candidates) == if most == 0.0 then 0.0 else CostOf(m, candidates) / most
  {
    var costs := Costs(candidates, candidates);
    assert costs != [] && MaxOf(costs) in costs;
    dearest :| dearest in candidates && MaxOf(costs) == CostOf(dearest, candidates);
    assert forall c | c in candidates :: CostOf(c, candidates) in costs;
  }

  /** Who is considered: models that are not command-line tools and have the capability; nobody else. */
  lemma CandidatesAre(task: Task, models: seq<ModelEntry>, m: ModelEntry)
    ensures m in Candidates(task, models) <==> m in models && !m.isCli && task.requiredCapability in m.capabilities
  {
    var test := (m: ModelEntry) => IsCandidate(m, task);
    assert test(m) <==> !m.isCli && task.requiredCapability in m.capabilities;
    FilterAgrees(models, (m: ModelEntry) => IsCandidate(m, task), test);
  }

  /** Every ranked score is that of a candidate, with its estimate and its costs. */
  lemma ScoresByCandidate(task: Task, models: seq<ModelEntry>, weight: real, collate: Collation, s: ModelScore)
    requires SelectModel(task, models, weight, collate).Some? && s in SelectModel(task, models, weight, collate).value.scores
    ensures exists m | m in Candidates(task, models) :: ScoreOf(s, m, task, Candidates(task, models))
  {
    var c := Candidates(task, models);
    var scores := Scores(Estimates(task, c), weight);
    Sorting.SortKeepsElements(scores, RankOf, Ranking(collate));
    var i :| 0 <= i < |scores| && scores[i] == s;
    ScoreAt(task, c, weight, i);
    assert c[i] in c;
  }

  /** And it is the estimate less lambda times the normalised cost. */
  lemma ScoreIsWeighed(task: Task, models: seq<ModelEntry>, weight: real, collate: Collation, s: ModelScore)
    requires SelectModel(task, models, weight, collate).Some? && s in SelectModel(task, models, weight, collate).value.scores
    ensures s.score == s.pSuccess - weight * s.normCost
  {
    var estimates := Estimates(task, Candidates(task, models));
    Sorting.SortKeepsElements(Scores(estimates, weight), RankOf, Ranking(collate));
    AllAreScored(estimates, weight, s);
  }

  lemma AllAreScored(estimates: seq<Estimate>, weight: real, s: ModelScore)
    requires s in Scores(estimates, weight)
    ensures ScoredAt(s, weight)
  {
    ScoresAreRescored(estimates, weight, weight);
    var i :| 0 <= i < |estimates| && Scores(estimates, weight)[i] == s;
    assert ScoredAt(Scores(estimates, weight)[i], weight);
  }

  ghost predicate ScoreOf(s: ModelScore, m: ModelEntry, task: Task, candidates: seq<ModelEntry>)
    requires candidates != []
  {
    && s.model == m.name && s.pSuccess == SuccessOf(m, task, candidates)
    && s.cost == CostOf(m, candidates) && s.normCost == NormCostOf(m, candidates)
  }

  lemma ScoreAt(task: Task, candidates: seq<ModelEntry>, weight: real, i: nat)
    requires i < |candidates|
    ensures ScoreOf(Scores(Estimates(task, candidates), weight)[i], candidates[i], task, candidates)
  {
    EstimateAt(task, candidates, i);
    WeighAt(Estimates(task, candidates), weight, i);
    WeighedEstimate(candidates[i], task, candidates, weight);
  }

  lemma EstimateAt(task: Task, candidates: seq<ModelEntry>, i: nat)
    requires i < |candidates|
    ensures Estimates(task, candidates)[i] == EstimateOf(candidates[i], task, candidates)
  {
  }

  lemma WeighAt(estimates: seq<Estimate>, weight: real, i: nat)
    requires i < |estimates|
    ensures Scores(estimates, weight)[i] == Weigh(estimates[i], weight)
  {
  }

  lemma WeighedEstimate(m: ModelEntry, task: Task, candidates: seq<ModelEntry>, weight: real)
    requires candidates != []
    ensures ScoreOf(Weigh(EstimateOf(m, task, candidates), weight), m, task, candidates)
  {
    WeighFields(EstimateOf(m, task, candidates), weight);
    EstimateFields(m, task, candidates);
  }

  lemma WeighFields(e: Estimate, weight: real)
    ensures
      var s := Weigh(e, weight);
      s.model == e.model && s.pSuccess == e.pSuccess && s.cost == e.cost && s.normCost == e.normCost
  {
  }

  lemma EstimateFields(m: ModelEntry, task: Task, candidates: seq<ModelEntry>)
    requires candidates != []
    ensures
      var e := EstimateOf(m, task, candidates);
      && e.model == m.name && e.pSuccess == SuccessOf(m, task, candidates)
      && e.cost == CostOf(m, candidates) && e.normCost == NormCostOf(m, candidates)
  {
  }

  /** There is no decision exactly if there is no candidate. */
  lemma DecidesIffThereIsACandidate(task: Task, models: seq<ModelEntry>, weight: real, collate: Collation)
    ensures SelectModel(task, models, weight, collate).None? <==>
              forall m | m in models :: m.isCli || task.requiredCapability !in m.capabilities
  {
    var c := Candidates(task, models);
    forall m {
      CandidatesAre(task, models, m);
    }
    if c != [] {
      CandidatesAre(task, models, c[0]);
    }
  }

  // ----- the winner -----

  lemma RankingIsTotal(collate: Collation)
    requires Sorting.TotalOrder(collate)
    ensures Sorting.TotalOrder(Ranking(collate))
  {
    var leq := Ranking(collate);
    forall a: RankKey, b: RankKey
      ensures leq(a, b) || leq(b, a)
      ensures leq(a, b) && leq(b, a) ==> a == b
    {
      assert collate(a.model, b.model) || collate(b.model, a.model);
    }
    forall a: RankKey, b: RankKey, c: RankKey | leq(a, b) && leq(b, c)
      ensures leq(a, c)
    {
    }
  }

  ghost predicate Wins(w: ModelScore, scores: seq<ModelScore>, collate: Collation) {
    w in scores && forall s | s in scores :: RanksBefore(RankOf(w), RankOf(s), collate)
  }

  /** The decision ranks every candidate's score exactly once, best first, and takes the first. */
  lemma DecisionIsTheArgmax(task: Task, models: seq<ModelEntry>, weight: real, collate: Collation)
    requires Sorting.TotalOrder(collate)
    requires SelectModel(task, models, weight, collate).Some?
    ensures
      var d := SelectModel(task, models, weight, collate).value;
      var scores := Scores(Estimates(task, Candidates(task, models)), weight);
      && d.scores != [] && multiset(d.scores) == multiset(scores)
      && Sorting.Sorted(d.scores, RankOf, Ranking(collate))
      && d.model == d.scores[0].model && Wins(d.scores[0], scores, collate)
      && forall s | s in scores ::
           s.score < d.scores[0].score || (s.score == d.scores[0].score && collate(d.model, s.model))
  {
    var scores := Scores(Estimates(task, Candidates(task, models)), weight);
    RankingIsTotal(collate);
    Sorting.HeadIsLeast(scores, RankOf, Ranking(collate));
    Sorting.SortKeepsElements(scores, RankOf, Ranking(collate));
    Sorting.SortSorts(scores, RankOf, Ranking(collate));
    var w := Sorting.Sort(scores, RankOf, Ranking(collate))[0];
    forall s | s in scores
      ensures RanksBefore(RankOf(w), RankOf(s), collate)
    {
      assert Ranking(collate)(RankOf(w), RankOf(s));
    }
  }

  /** Two score lists of the same candidates under different lambdas. */
  ghost predicate Rescored(a: seq<ModelScore>, low: real, b: seq<ModelScore>, high: real) {
    && |a| == |b|
    && (forall i | 0 <= i < |a| :: a[i].pSuccess == b[i].pSuccess && a[i].normCost == b[i].normCost)
    && (forall i | 0 <= i < |a| :: ScoredAt(a[i], low))
    && (forall i | 0 <= i < |b| :: ScoredAt(b[i], high))
  }

  ghost predicate ScoredAt(s: ModelScore, weight: real) {
    s.score == s.pSuccess - weight * s.normCost
  }

  lemma CheaperWinner(
    a: seq<ModelScore>, low: real, b: seq<ModelScore>, high: real, collate: Collation, dear: ModelScore, cheap: ModelScore)
    requires low < high && Rescored(a, low, b, high)
    requires Wins(dear, a, collate) && Wins(cheap, b, collate)
    ensures cheap.normCost <= dear.normCost
  {
    var i :| 0 <= i < |a| && a[i] == dear;
    var j :| 0 <= j < |b| && b[j] == cheap;
    assert a[j] in a && b[i] in b;
    Exchange(dear, a[j], b[i], cheap, low, high);
  }

  lemma ScoresAreRescored(estimates: seq<Estimate>, low: real, high: real)
    ensures Rescored(Scores(estimates, low), low, Scores(estimates, high), high)
  {
  }

  /** Raising lambda never selects a model with a higher normalised cost. */
  lemma RaisingLambdaNeverCostsMore(task: Task, models: seq<ModelEntry>, low: real, high: real, collate: Collation)
    requires Sorting.TotalOrder(collate) && low < high
    requires Candidates(task, models) != []
    ensures
      var one, two := SelectModel(task, models, low, collate), SelectModel(task, models, high, collate);
      && one.Some? && two.Some? && one.value.scores != [] && two.value.scores != []
      && two.value.scores[0].normCost <= one.value.scores[0].normCost
  {
    var c := Candidates(task, models);
    DecisionIsTheArgmax(task, models, low, collate);
    DecisionIsTheArgmax(task, models, high, collate);
    var estimates := Estimates(task, c);
    ScoresAreRescored(estimates, low, high);
    CheaperWinner(Scores(estimates, low), low, Scores(estimates, high), high, collate,
                  SelectModel(task, models, low, collate).value.scores[0],
                  SelectModel(task, models, high, collate).value.scores[0]);
  }

  /** Two candidates that each win under one lambda: the winner under the greater one costs no more. */
  lemma Exchange(dear: ModelScore, loser: ModelScore, dear': ModelScore, cheap: ModelScore, low: real, high: real)
    requires low < high
    requires ScoredAt(dear, low) && ScoredAt(loser, low) && ScoredAt(dear', high) && ScoredAt(cheap, high)
    requires dear'.pSuccess == dear.pSuccess && dear'.normCost == dear.normCost
    requires loser.pSuccess == cheap.pSuccess && loser.normCost == cheap.normCost
    requires dear.score >= loser.score && cheap.score >= dear'.score
    ensures cheap.normCost <= dear.normCost
  {
    var x, y := dear.normCost, cheap.normCost;
    assert (high - low) * (y - x) == high * y - high * x - low * y + low * x;
    if y > x {
      PositiveProduct(high - low, y - x);
    }
  }

  lemma PositiveProduct(a: real, b: real)
    requires a > 0.0 && b > 0.0
    ensures a * b > 0.0
  {
  }

  // ----- independence of the registry order -----

  ghost predicate SameMembers<T(!new)>(a: seq<T>, b: seq<T>) {
    forall x :: x in a <==> x in b
  }

  lemma ExtremesAgree(a: seq<real>, b: seq<real>)
    requires a != [] && b != [] && SameMembers(a, b)
    ensures MaxOf(a) == MaxOf(b) && MinOf(a) == MinOf(b)
  {
    assert MaxOf(a) in b && MaxOf(b) in a && MinOf(a) in b && MinOf(b) in a;
  }

  lemma PricesAgree(a: seq<ModelEntry>, b: seq<ModelEntry>)
    requires SameMembers(a, b)
    ensures SameMembers(KnownPrices(a), KnownPrices(b))
    ensures KnownPrices(a) == [] <==> KnownPrices(b) == []
    ensures KnownPrices(a) != [] ==> MaxOf(KnownPrices(a)) == MaxOf(KnownPrices(b)) && MinOf(KnownPrices(a)) == MinOf(KnownPrices(b))
  {
    var p, q := KnownPrices(a), KnownPrices(b);
    forall x
      ensures x in p <==> x in q
    {
    }
    if p != [] {
      assert p[0] in q;
      ExtremesAgree(p, q);
    }
    if q != [] {
      assert q[0] in p;
    }
  }

  lemma {:induction false} CostsAgree(a: seq<ModelEntry>, b: seq<ModelEntry>)
    requires SameMembers(a, b) && a != [] && b != []
    ensures forall m :: CostOf(m, a) == CostOf(m, b)
    ensures MaxOf(Costs(a, a)) == MaxOf(Costs(b, b))
  {
    PricesAgree(a, b);
    CostsIncluded(a, b);
    CostsIncluded(b, a);
    ExtremesAgree(Costs(a, a), Costs(b, b));
  }

  lemma CostsIncluded(a: seq<ModelEntry>, b: seq<ModelEntry>)
    requires forall m | m in a :: m in b
    requires forall m :: CostOf(m, a) == CostOf(m, b)
    ensures forall c | c in Costs(a, a) :: c in Costs(b, b)
  {
    forall c | c in Costs(a, a)
      ensures c in Costs(b, b)
    {
      var m :| m in a && c == CostOf(m, a);
      assert m in b && c == CostOf(m, b);
    }
  }

  lemma StrengthAgrees(m: ModelEntry, a: seq<ModelEntry>, b: seq<ModelEntry>)
    requires SameMembers(a, b)
    ensures StrengthOf(m, a) == StrengthOf(m, b)
  {
    PricesAgree(a, b);
    var p, q := KnownPrices(a), KnownPrices(b);
    if p != [] {
      assert Range(MinOf(p), MaxOf(p)) == Range(MinOf(q), MaxOf(q));
    }
  }

  lemma {:induction false} NormCostAgrees(m: ModelEntry, a: seq<ModelEntry>, b: seq<ModelEntry>)
    requires SameMembers(a, b) && a != [] && b != []
    ensures CostOf(m, a) == CostOf(m, b) && NormCostOf(m, a) == NormCostOf(m, b)
  {
    CostsAgree(a, b);
  }

  lemma {:induction false} EstimatesAgree(m: ModelEntry, task: Task, a: seq<ModelEntry>, b: seq<ModelEntry>)
    requires SameMembers(a, b) && a != [] && b != []
    ensures EstimateOf(m, task, a) == EstimateOf(m, task, b)
  {
    StrengthAgrees(m, a, b);
    NormCostAgrees(m, a, b);
  }

  lemma EstimateListsAgree(task: Task, a: seq<ModelEntry>, b: seq<ModelEntry>)
    requires SameMembers(a, b) && a != [] && b != []
    ensures forall e | e in Estimates(task, a) :: e in Estimates(task, b)
  {
    var x, y := Estimates(task, a), Estimates(task, b);
    forall i | 0 <= i < |a|
      ensures x[i] in y
    {
      assert a[i] in b;
      var j :| 0 <= j < |b| && b[j] == a[i];
      EstimatesAgree(a[i], task, a, b);
      assert y[j] == x[i];
    }
  }

  lemma ScoreListsAgree(a: seq<Estimate>, b: seq<Estimate>, weight: real)
    requires forall e | e in a :: e in b
    ensures forall s | s in Scores(a, weight) :: s in Scores(b, weight)
  {
    forall i | 0 <= i < |a|
      ensures Scores(a, weight)[i] in Scores(b, weight)
    {
      assert a[i] in b;
      var j :| 0 <= j < |b| && b[j] == a[i];
      assert Scores(b, weight)[j] == Scores(a, weight)[i];
    }
  }

  lemma WinnerIsUnique(a: seq<ModelScore>, b: seq<ModelScore>, collate: Collation, v: ModelScore, w: ModelScore)
    requires Sorting.TotalOrder(collate) && SameMembers(a, b)
    requires Wins(v, a, collate) && Wins(w, b, collate)
    ensures v.model == w.model && v.score == w.score
  {
    RankingIsTotal(collate);
    assert Ranking(collate)(RankOf(v), RankOf(w)) && Ranking(collate)(RankOf(w), RankOf(v));
  }

  /** The same models in another order give the same winner. */
  lemma {:induction false} RegistryOrderIsIrrelevant(task: Task, models: seq<ModelEntry>, shuffled: seq<ModelEntry>, weight: real, collate: Collation)
    requires Sorting.TotalOrder(collate) && SameMembers(models, shuffled)
    ensures
      var one, two := SelectModel(task, models, weight, collate), SelectModel(task, shuffled, weight, collate);
      if one.None? then two.None? else two.Some? && one.value.model == two.value.model
  {
    var a, b := Candidates(task, models), Candidates(task, shuffled);
    forall m
      ensures m in a <==> m in b
    {
      assert IsCandidate(m, task) <==> (m => IsCandidate(m, task))(m);
    }
    assert a != [] ==> a[0] in b;
    assert b != [] ==> b[0] in a;
    if a != [] {
      DecisionIsTheArgmax(task, models, weight, collate);
      DecisionIsTheArgmax(task, shuffled, weight, collate);
      var x, y := Estimates(task, a), Estimates(task, b);
      EstimateListsAgree(task, a, b);
      EstimateListsAgree(task, b, a);
      ScoreListsAgree(x, y, weight);
      ScoreListsAgree(y, x, weight);
      WinnerIsUnique(Scores(x, weight), Scores(y, weight), collate,
                     SelectModel(task, models, weight, collate).value.scores[0],
                     SelectModel(task, shuffled, weight, collate).value.scores[0]);
    }
  }
}
