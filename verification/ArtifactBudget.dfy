/**
 * Keeping a context packet within its token budget by deferring whole artifacts, and what that
 * means for the pinned zone.
 */
module ArtifactBudget {
  import opened Common
  import Sorting
  import ContextCompaction

  /** `priority` and `tokenCount` may be missing; they then count as 5 and 0. */
  datatype ArtifactRef = ArtifactRef(name: string, ref: string, tokenCount: Option<int>, priority: Option<int>, text: Option<string>)

  datatype Selection = Selection(kept: seq<ArtifactRef>, deferred: seq<ArtifactRef>)

  function PriorityOf(a: ArtifactRef): int {
    a.priority.GetOr(5)
  }

  function Cost(): ArtifactRef -> int {
    (a: ArtifactRef) => a.tokenCount.GetOr(0)
  }

  function AtMost(): (int, int) -> bool {
    (a: int, b: int) => a <= b
  }

  /** Lower priority numbers first, ties in their given order. */
  function Ordered(sections: seq<ArtifactRef>): seq<ArtifactRef> {
    Sorting.Sort(sections, PriorityOf, AtMost())
  }

  function Names(s: seq<ArtifactRef>): seq<string> {
    seq(|s|, i requires 0 <= i < |s| => s[i].name)
  }

  /** One after the other, whatever still fits is kept. */
  function Greedy(ordered: seq<ArtifactRef>, budget: int): Selection {
    if ordered == [] then Selection([], [])
    else
      var n := |ordered| - 1;
      var before, s := Greedy(ordered[..n], budget), ordered[n];
      if Sum(before.kept, Cost()) + Cost()(s) <= budget then Selection(before.kept + [s], before.deferred)
      else Selection(before.kept, before.deferred + [s])
  }

  method EnforceTokenBudget(sections: seq<ArtifactRef>, budget: int) returns (kept: seq<ArtifactRef>, deferred: seq<string>)
    ensures kept == Greedy(Ordered(sections), budget).kept
    ensures deferred == Names(Greedy(Ordered(sections), budget).deferred)
  {
    var ordered := Ordered(sections);
    kept, deferred := [], [];
    var used := 0;
    for i := 0 to |ordered|
      invariant kept == Greedy(ordered[..i], budget).kept
      invariant deferred == Names(Greedy(ordered[..i], budget).deferred)
      invariant used == Sum(kept, Cost())
    {
      var s := ordered[i];
      assert ordered[..i + 1][..i] == ordered[..i];
      var t := s.tokenCount.GetOr(0);
      if used + t <= budget {
        SumAppend(kept, [s], Cost());
        kept := kept + [s];
        used := used + t;
      } else {
        deferred := deferred + [s.name];
      }
    }
    assert ordered[..|ordered|] == ordered;
  }

  /** An artifact without a priority stands at 5, and without a count costs nothing. */
  lemma DefaultsAre(a: ArtifactRef)
    ensures PriorityOf(a) == if a.priority.Some? then a.priority.value else 5
    ensures Cost()(a) == if a.tokenCount.Some? then a.tokenCount.value else 0
  {
  }

  /** The order of the selection: by ascending priority, those of one priority in their given order, all of them. */
  lemma OrderedByPriority(sections: seq<ArtifactRef>, p: int)
    ensures
      var ordered := Ordered(sections);
      && multiset(ordered) == multiset(sections)
      && (forall i, j | 0 <= i < j < |ordered| :: PriorityOf(ordered[i]) <= PriorityOf(ordered[j]))
      && Filter(ordered, HasPriority(p)) == Filter(sections, HasPriority(p))
  {
    Sorting.SortKeepsElements(sections, PriorityOf, AtMost());
    Sorting.SortSorts(sections, PriorityOf, AtMost());
    forall i, j | 0 <= i < j < |Ordered(sections)|
      ensures PriorityOf(Ordered(sections)[i]) <= PriorityOf(Ordered(sections)[j])
    {
      assert AtMost()(PriorityOf(Ordered(sections)[i]), PriorityOf(Ordered(sections)[j]));
    }
    Sorting.SortKeepsTies(sections, PriorityOf, AtMost(), p);
    FilterAgrees(Ordered(sections), Sorting.HasKey(PriorityOf, p), HasPriority(p));
    FilterAgrees(sections, Sorting.HasKey(PriorityOf, p), HasPriority(p));
  }

  function HasPriority(p: int): ArtifactRef -> bool {
    (a: ArtifactRef) => PriorityOf(a) == p
  }

  lemma GreedySnoc(ordered: seq<ArtifactRef>, a: ArtifactRef, budget: int)
    ensures
      var r := Greedy(ordered, budget);
      Greedy(ordered + [a], budget)
      == if Sum(r.kept, Cost()) + Cost()(a) <= budget then Selection(r.kept + [a], r.deferred)
         else Selection(r.kept, r.deferred + [a])
  {
    assert (ordered + [a])[..|ordered|] == ordered;
  }

  /** Nothing is lost or duplicated, and what is kept fits. */
  lemma {:induction false} GreedyPartitions(ordered: seq<ArtifactRef>, budget: int)
    ensures
      var r := Greedy(ordered, budget);
      && multiset(r.kept) + multiset(r.deferred) == multiset(ordered)
      && (r.kept == [] || Sum(r.kept, Cost()) <= budget)
  {
    if ordered != [] {
      var n := |ordered| - 1;
      var r := Greedy(ordered[..n], budget);
      GreedyPartitions(ordered[..n], budget);
      assert ordered == ordered[..n] + [ordered[n]];
      GreedySnoc(ordered[..n], ordered[n], budget);
      SumAppend(r.kept, [ordered[n]], Cost());
      SumOfOne(ordered[n], Cost());
      OneMorePart(r.kept, r.deferred, ordered[..n], ordered[n]);
    }
  }

  lemma OneMorePart(kept: seq<ArtifactRef>, deferred: seq<ArtifactRef>, all: seq<ArtifactRef>, a: ArtifactRef)
    requires multiset(kept) + multiset(deferred) == multiset(all)
    ensures multiset(kept + [a]) + multiset(deferred) == multiset(all + [a])
    ensures multiset(kept) + multiset(deferred + [a]) == multiset(all + [a])
  {
  }

  /** A deferred artifact did not fit beside what had been kept before it; any other is kept at its turn. */
  lemma {:induction false} DeferredOnlyIfTooBig(ordered: seq<ArtifactRef>, budget: int, i: nat)
    requires i < |ordered|
    ensures
      var r, before := Greedy(ordered, budget), Greedy(ordered[..i], budget).kept;
      if Sum(before, Cost()) + Cost()(ordered[i]) <= budget then before + [ordered[i]] <= r.kept
      else before <= r.kept && ordered[i] in r.deferred
  {
    KeptGrows(ordered, i + 1, budget);
    var first := ordered[..i + 1];
    assert first[..i] == ordered[..i] && first[i] == ordered[i];
    var r, before := Greedy(first, budget), Greedy(ordered[..i], budget);
    if Sum(before.kept, Cost()) + Cost()(ordered[i]) > budget {
      assert r.deferred == before.deferred + [ordered[i]];
      assert r.deferred[|before.deferred|] == ordered[i];
    }
  }

  // ----- the pinned zone -----

  function BuildPinnedZone(sections: seq<ContextCompaction.PinnedSection>): (zone: seq<ArtifactRef>)
    ensures |zone| == |sections|
    ensures forall i | 0 <= i < |zone| ::
              && zone[i].name == sections[i].name && zone[i].text == Some(sections[i].text)
              && zone[i].ref == "pinned_zone:" + zone[i].name
              && 4 * Cost()(zone[i]) >= |sections[i].text| > 4 * Cost()(zone[i]) - 4
    ensures forall a | a in zone :: PriorityOf(a) == 0 && Cost()(a) >= 0
  {
    seq(|sections|, i requires 0 <= i < |sections| =>
      ArtifactRef(sections[i].name, "pinned_zone:" + sections[i].name,
                  Some(ContextCompaction.Quarter(|sections[i].text|)), Some(0), Some(sections[i].text)))
  }

  predicate IsUrgent(a: ArtifactRef) {
    PriorityOf(a) < 0
  }

  /** Artifacts of negative priority, and the others. */
  function Urgent(others: seq<ArtifactRef>): seq<ArtifactRef> {
    Filter(others, IsUrgent)
  }

  function NotUrgent(others: seq<ArtifactRef>): seq<ArtifactRef> {
    Filter(others, Not(IsUrgent))
  }

  /** The sort puts what is urgent first, whatever else there is, ties in their given order. */
  lemma {:induction false} UrgentSortsFirst(s: seq<ArtifactRef>)
    ensures Ordered(s) == Ordered(Urgent(s)) + Ordered(NotUrgent(s))
  {
    if s != [] {
      var urgent, rest := Ordered(Urgent(s[1..])), Ordered(NotUrgent(s[1..]));
      UrgentSortsFirst(s[1..]);
      Sorting.SortKeepsElements(Urgent(s[1..]), PriorityOf, AtMost());
      Sorting.SortKeepsElements(NotUrgent(s[1..]), PriorityOf, AtMost());
      assert Not(IsUrgent)(s[0]) == !IsUrgent(s[0]);
      if IsUrgent(s[0]) {
        InsertAmong(s[0], urgent, rest);
        assert Urgent(s) == [s[0]] + Urgent(s[1..]) && NotUrgent(s) == NotUrgent(s[1..]);
        assert ([s[0]] + Urgent(s[1..]))[1..] == Urgent(s[1..]);
      } else {
        InsertBehind(s[0], urgent, rest);
        assert NotUrgent(s) == [s[0]] + NotUrgent(s[1..]) && Urgent(s) == Urgent(s[1..]);
        assert ([s[0]] + NotUrgent(s[1..]))[1..] == NotUrgent(s[1..]);
      }
    }
  }

  lemma {:induction false} InsertAmong(a: ArtifactRef, front: seq<ArtifactRef>, rest: seq<ArtifactRef>)
    requires forall b | b in rest :: PriorityOf(a) <= PriorityOf(b)
    ensures Sorting.Insert(a, front + rest, PriorityOf, AtMost()) == Sorting.Insert(a, front, PriorityOf, AtMost()) + rest
  {
    if front == [] {
      assert front + rest == rest;
      InsertInFront(a, rest);
    } else if PriorityOf(a) <= PriorityOf(front[0]) {
      assert [a] + (front + rest) == ([a] + front) + rest;
    } else {
      assert (front + rest)[1..] == front[1..] + rest;
      InsertAmong(a, front[1..], rest);
    }
  }

  lemma {:induction false} InsertBehind(a: ArtifactRef, front: seq<ArtifactRef>, rest: seq<ArtifactRef>)
    requires forall b | b in front :: PriorityOf(b) < PriorityOf(a)
    ensures Sorting.Insert(a, front + rest, PriorityOf, AtMost()) == front + Sorting.Insert(a, rest, PriorityOf, AtMost())
  {
    if front == [] {
      assert front + rest == rest;
    } else {
      assert front[0] in front && (front + rest)[1..] == front[1..] + rest;
      InsertBehind(a, front[1..], rest);
    }
  }

  lemma {:induction false} ZoneSortsFirst(zone: seq<ArtifactRef>, others: seq<ArtifactRef>)
    requires forall a | a in zone :: PriorityOf(a) == 0
    requires forall a | a in others :: PriorityOf(a) >= 0
    ensures Ordered(zone + others) == zone + Ordered(others)
  {
    if zone == [] {
      assert zone + others == others && zone + Ordered(others) == Ordered(others);
    } else {
      assert (zone + others)[1..] == zone[1..] + others;
      ZoneSortsFirst(zone[1..], others);
      Sorting.SortKeepsElements(others, PriorityOf, AtMost());
      InsertInFront(zone[0], zone[1..] + Ordered(others));
      assert [zone[0]] + (zone[1..] + Ordered(others)) == zone + Ordered(others);
    }
  }

  lemma InsertInFront(a: ArtifactRef, rest: seq<ArtifactRef>)
    requires forall b | b in rest :: PriorityOf(a) <= PriorityOf(b)
    ensures Sorting.Insert(a, rest, PriorityOf, AtMost()) == [a] + rest
  {
    if rest != [] {
      assert rest[0] in rest;
    }
  }

  lemma {:induction false} KeptGrows(ordered: seq<ArtifactRef>, n: nat, budget: int)
    requires n <= |ordered|
    ensures Greedy(ordered[..n], budget).kept <= Greedy(ordered, budget).kept
    ensures Greedy(ordered[..n], budget).deferred <= Greedy(ordered, budget).deferred
    decreases |ordered|
  {
    if n < |ordered| {
      KeptGrows(ordered[..|ordered| - 1], n, budget);
      assert ordered[..|ordered| - 1][..n] == ordered[..n];
    } else {
      assert ordered[..n] == ordered;
    }
  }

  /** Artifacts of non-negative cost whose total fits are all kept. */
  lemma {:induction false} FittingPrefixIsKept(zone: seq<ArtifactRef>, budget: int)
    requires forall a | a in zone :: Cost()(a) >= 0
    requires zone != [] ==> Sum(zone, Cost()) <= budget
    ensures Greedy(zone, budget) == Selection(zone, [])
  {
    if zone != [] {
      var n := |zone| - 1;
      assert zone == zone[..n] + [zone[n]];
      SumAppend(zone[..n], [zone[n]], Cost());
      assert zone[n] in zone;
      FittingPrefixIsKept(zone[..n], budget);
    }
  }

  /** The pinned zone is kept exactly if it fits the budget by itself: priority 0 alone does not protect it. */
  lemma PinnedZoneIsKeptIffItFits(
    sections: seq<ContextCompaction.PinnedSection>, others: seq<ArtifactRef>, budget: int)
    requires sections != []
    requires forall a | a in others :: PriorityOf(a) > 0
    ensures
      var zone := BuildPinnedZone(sections);
      zone <= Greedy(Ordered(zone + others), budget).kept <==> Sum(zone, Cost()) <= budget
  {
    var zone := BuildPinnedZone(sections);
    var ordered := Ordered(zone + others);
    ZoneSortsFirst(zone, others);
    assert ordered[..|zone|] == zone;
    KeptGrows(ordered, |zone|, budget);
    if Sum(zone, Cost()) <= budget {
      FittingPrefixIsKept(zone, budget);
    } else {
      ZoneOverflows(zone, budget);
      LaterKeepsAreOthers(zone, Ordered(others), budget);
      Sorting.SortKeepsElements(others, PriorityOf, AtMost());
      ZoneCannotReappear(zone, others, Greedy(zone, budget).kept, Greedy(ordered, budget).kept);
    }
  }

  /** What is kept when the zone has had its turn, after the urgent artifacts and before all others. */
  function AtZone(zone: seq<ArtifactRef>, others: seq<ArtifactRef>, budget: int): Selection {
    Greedy(Ordered(Urgent(others)) + zone, budget)
  }

  /**
   * With other artifacts of any priority: the zone has its turn right after those of negative
   * priority, and nothing of it is deferred exactly if it fits beside what was kept of them.
   */
  lemma ZoneIsDeferredUnlessItFits(
    sections: seq<ContextCompaction.PinnedSection>, others: seq<ArtifactRef>, budget: int)
    requires sections != []
    ensures
      var zone, urgent := BuildPinnedZone(sections), Greedy(Ordered(Urgent(others)), budget);
      var all := Greedy(Ordered(zone + others), budget);
      && AtZone(zone, others, budget).kept <= all.kept && AtZone(zone, others, budget).deferred <= all.deferred
      && (AtZone(zone, others, budget) == Selection(urgent.kept + zone, urgent.deferred) <==>
            Sum(urgent.kept, Cost()) + Sum(zone, Cost()) <= budget)
  {
    var zone, front := BuildPinnedZone(sections), Ordered(Urgent(others));
    ZoneAfterUrgent(zone, others);
    Regroup(front, zone, Ordered(NotUrgent(others)));
    PrefixIsKept(front + zone, Ordered(NotUrgent(others)), Ordered(zone + others), budget);
    ZoneAtItsTurn(front, zone, budget);
  }

  lemma PrefixIsKept(first: seq<ArtifactRef>, rest: seq<ArtifactRef>, all: seq<ArtifactRef>, budget: int)
    requires all == first + rest
    ensures Greedy(first, budget).kept <= Greedy(all, budget).kept && Greedy(first, budget).deferred <= Greedy(all, budget).deferred
  {
    assert all[..|first|] == first;
    KeptGrows(all, |first|, budget);
  }

  lemma {:induction false} ZoneAfterUrgent(zone: seq<ArtifactRef>, others: seq<ArtifactRef>)
    requires forall a | a in zone :: PriorityOf(a) == 0
    ensures Ordered(zone + others) == Ordered(Urgent(others)) + (zone + Ordered(NotUrgent(others)))
  {
    UrgentSortsFirst(zone + others);
    FilterAppend(zone, others, IsUrgent);
    FilterAppend(zone, others, Not(IsUrgent));
    forall a | a in zone
      ensures !IsUrgent(a) && Not(IsUrgent)(a)
    {
    }
    FilterAll(zone, Not(IsUrgent));
    FilterNone(zone, IsUrgent);
    assert Urgent(zone + others) == Urgent(others) && NotUrgent(zone + others) == zone + NotUrgent(others);
    ZoneSortsFirst(zone, NotUrgent(others));
  }

  /** Artifacts of non-negative cost that follow others are all kept iff they fit beside what was kept of those. */
  lemma {:induction false} ZoneAtItsTurn(front: seq<ArtifactRef>, zone: seq<ArtifactRef>, budget: int)
    requires zone != [] && forall a | a in zone :: Cost()(a) >= 0
    ensures
      var before := Greedy(front, budget);
      Greedy(front + zone, budget) == Selection(before.kept + zone, before.deferred) <==>
        Sum(before.kept, Cost()) + Sum(zone, Cost()) <= budget
  {
    var n, before := |zone| - 1, Greedy(front, budget);
    OneMoreOfTheZone(front, zone, budget);
    SumAppend(before.kept, zone[..n], Cost());
    SumSnoc(zone, Cost());
    assert zone[n] in zone;
    if n == 0 {
      assert front + zone[..n] == front && before.kept + zone[..n] == before.kept;
    } else {
      assert forall a | a in zone[..n] :: a in zone;
      ZoneAtItsTurn(front, zone[..n], budget);
    }
  }

  lemma OneMoreOfTheZone(front: seq<ArtifactRef>, zone: seq<ArtifactRef>, budget: int)
    requires |zone| > 0
    ensures
      var n, before := |zone| - 1, Greedy(front, budget);
      Greedy(front + zone, budget) == Selection(before.kept + zone, before.deferred) <==>
        && Greedy(front + zone[..n], budget) == Selection(before.kept + zone[..n], before.deferred)
        && Sum(before.kept + zone[..n], Cost()) + Cost()(zone[n]) <= budget
  {
    var n, before := |zone| - 1, Greedy(front, budget);
    LastApart(front, zone);
    LastApart(before.kept, zone);
    GreedySnoc(front + zone[..n], zone[n], budget);
    if Greedy(front + zone, budget) == Selection(before.kept + zone, before.deferred) {
      ZoneWasKept(front, zone[..n], zone[n], budget);
    }
  }

  /** If the last artifact of a zone is kept and nothing is deferred, it fitted and nothing was deferred before. */
  lemma ZoneWasKept(front: seq<ArtifactRef>, zone: seq<ArtifactRef>, a: ArtifactRef, budget: int)
    requires
      var before := Greedy(front, budget);
      Greedy((front + zone) + [a], budget) == Selection((before.kept + zone) + [a], before.deferred)
    ensures
      var before := Greedy(front, budget);
      && Greedy(front + zone, budget) == Selection(before.kept + zone, before.deferred)
      && Sum(before.kept + zone, Cost()) + Cost()(a) <= budget
  {
    var before, r := Greedy(front, budget), Greedy(front + zone, budget);
    GreedySnoc(front + zone, a, budget);
    PrefixIsKept(front, zone, front + zone, budget);
    assert |r.deferred + [a]| > |before.deferred|;
    if Sum(r.kept, Cost()) + Cost()(a) <= budget {
      SameFront(r.kept, before.kept + zone, a);
    }
  }

  lemma LastApart(front: seq<ArtifactRef>, zone: seq<ArtifactRef>)
    requires zone != []
    ensures front + zone == (front + zone[..|zone| - 1]) + [zone[|zone| - 1]]
  {
  }

  lemma SameFront(a: seq<ArtifactRef>, b: seq<ArtifactRef>, last: ArtifactRef)
    requires a + [last] == b + [last]
    ensures a == b
  {
    assert (a + [last])[..|a|] == a && (b + [last])[..|b|] == b;
  }

  lemma ZoneCannotReappear(zone: seq<ArtifactRef>, others: seq<ArtifactRef>, before: seq<ArtifactRef>, all: seq<ArtifactRef>)
    requires forall a | a in zone :: PriorityOf(a) == 0
    requires forall a | a in others :: PriorityOf(a) > 0
    requires before <= all && |before| < |zone|
    requires forall i | |before| <= i < |all| :: all[i] in others
    ensures !(zone <= all)
  {
    var k := |before|;
    assert zone[k] in zone;
    assert k < |all| ==> all[k] != zone[k];
  }

  /** A zone that does not fit loses a member. */
  lemma {:induction false} ZoneOverflows(zone: seq<ArtifactRef>, budget: int)
    requires zone != [] && Sum(zone, Cost()) > budget
    ensures |Greedy(zone, budget).kept| < |zone|
  {
    GreedyPartitions(zone, budget);
    var r := Greedy(zone, budget);
    assert |multiset(r.kept) + multiset(r.deferred)| == |multiset(zone)|;
    if r.deferred == [] {
      assert multiset(r.deferred) == multiset{};
      assert multiset(r.kept) == multiset(zone);
      SumIsPermutationInvariant(r.kept, zone, Cost());
    }
  }

  /** What is kept after the zone has been offered comes from the other artifacts. */
  lemma {:induction false} LaterKeepsAreOthers(zone: seq<ArtifactRef>, rest: seq<ArtifactRef>, budget: int)
    ensures
      var before, all := Greedy(zone, budget).kept, Greedy(zone + rest, budget).kept;
      before <= all && forall i | |before| <= i < |all| :: all[i] in rest
  {
    if rest == [] {
      assert zone + rest == zone;
    } else {
      var n := |rest| - 1;
      LaterKeepsAreOthers(zone, rest[..n], budget);
      assert (zone + rest)[..|zone| + n] == zone + rest[..n];
      assert (zone + rest)[|zone| + n] == rest[n];
    }
  }
}
