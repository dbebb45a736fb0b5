/**
 * The failure bank in place: genes are objects that banking updates, and consolidation replaces
 * the list by merged copies.  Both are tied to the functions of FailureBank.
 */
module FailureBankStore {
  import opened Common
  import opened SignalTokens
  import opened FailureBank
  import Sorting

  class FailureGene {
    const id: string
    const matchingSignal: string
    const details: string
    var avoid: string
    var version: int
    var consolidatedCount: int
    var status: GeneStatus

    ghost function View(): Gene
      reads this
    {
      Gene(id, matchingSignal, avoid, version, consolidatedCount, status, details)
    }

    /** A spread copy with the given count. */
    constructor Copy(source: FailureGene, count: int)
      ensures View() == source.View().(consolidatedCount := count)
    {
      id, matchingSignal, details := source.id, source.matchingSignal, source.details;
      avoid, version, consolidatedCount, status := source.avoid, source.version, count, source.status;
    }
  }

  predicate TokenOccursIn(existing: FailureGene, gene: FailureGene) {
    exists t | t in Tokens(existing.matchingSignal) :: Includes(gene.matchingSignal, t)
  }

  ghost function Views(genes: seq<FailureGene>): (views: seq<Gene>)
    reads genes
    ensures |views| == |genes|
    ensures forall i | 0 <= i < |views| :: views[i] == genes[i].View()
  {
    seq(|genes|, i requires 0 <= i < |genes| reads genes => genes[i].View())
  }

  function IdOf(): FailureGene -> string {
    (g: FailureGene) => g.id
  }

  lemma {:induction false} InsertCommutes(x: FailureGene, genes: seq<FailureGene>, collate: Collation)
    ensures Views(Sorting.Insert(x, genes, IdOf(), collate)) == Sorting.Insert(x.View(), Views(genes), ById, collate)
  {
    if genes != [] {
      InsertCommutes(x, genes[1..], collate);
      assert Views(genes)[1..] == Views(genes[1..]);
    }
  }

  /** Sorting the objects by id is sorting their views by id. */
  lemma {:induction false} SortCommutes(genes: seq<FailureGene>, collate: Collation)
    ensures Views(Sorting.Sort(genes, IdOf(), collate)) == Sorting.Sort(Views(genes), ById, collate)
    ensures |Sorting.Sort(genes, IdOf(), collate)| == |genes|
  {
    Sorting.SortKeepsElements(genes, IdOf(), collate);
    if genes != [] {
      SortCommutes(genes[1..], collate);
      InsertCommutes(genes[0], Sorting.Sort(genes[1..], IdOf(), collate), collate);
      assert Views(genes)[1..] == Views(genes[1..]);
    }
  }

  method SortById(genes: seq<FailureGene>, collate: Collation) returns (sorted: seq<FailureGene>)
    ensures Views(sorted) == Sorting.Sort(Views(genes), ById, collate)
    ensures |sorted| == |genes|
  {
    SortCommutes(genes, collate);
    sorted := Sorting.Sort(genes, IdOf(), collate);
  }

  // ----- the quadratic loop, as indices still to be used -----

  /** The genes from index `i` on whose index is not used, in order. */
  ghost function Remaining(genes: seq<Gene>, i: nat, used: set<nat>): seq<Gene>
    requires i <= |genes|
    decreases |genes| - i
  {
    if i == |genes| then []
    else if i in used then Remaining(genes, i + 1, used)
    else [genes[i]] + Remaining(genes, i + 1, used)
  }

  lemma {:induction false} RemainingAgrees(genes: seq<Gene>, i: nat, used: set<nat>, used': set<nat>)
    requires i <= |genes|
    requires forall k: nat | i <= k < |genes| :: k in used <==> k in used'
    ensures Remaining(genes, i, used) == Remaining(genes, i, used')
    decreases |genes| - i
  {
    if i < |genes| {
      RemainingAgrees(genes, i + 1, used, used');
    }
  }

  lemma {:induction false} AllRemain(genes: seq<Gene>, i: nat)
    requires i <= |genes|
    ensures Remaining(genes, i, {}) == genes[i..]
    decreases |genes| - i
  {
    if i < |genes| {
      AllRemain(genes, i + 1);
    }
  }

  /** Marking exactly the sharing indices as used leaves the genes that do not share. */
  lemma {:induction false} UsedFilters(genes: seq<Gene>, base: Gene, j: nat, used: set<nat>, used': set<nat>, link: Link)
    requires j <= |genes|
    requires forall k: nat | j <= k < |genes| :: k in used' <==> k in used || Linked(base, genes[k], link)
    ensures Remaining(genes, j, used') == Unshared(base, Remaining(genes, j, used), link)
    decreases |genes| - j
  {
    assert Unshared(base, [], link) == [];
    if j < |genes| {
      UsedFilters(genes, base, j + 1, used, used', link);
      var rest, rest' := Remaining(genes, j + 1, used), Remaining(genes, j + 1, used');
      if j in used {
        assert Remaining(genes, j, used) == rest && Remaining(genes, j, used') == rest';
      } else {
        UnsharedCons(base, genes[j], rest, link);
        assert Remaining(genes, j, used) == [genes[j]] + rest;
        assert Remaining(genes, j, used') == if Linked(base, genes[j], link) then rest' else [genes[j]] + rest';
      }
    }
  }

  lemma UnsharedCons(base: Gene, g: Gene, rest: seq<Gene>, link: Link)
    ensures Unshared(base, [g] + rest, link) == if Linked(base, g, link) then Unshared(base, rest, link) else [g] + Unshared(base, rest, link)
  {
    assert ([g] + rest)[1..] == rest;
    assert Not(SharesWith(base, link))(g) == !Linked(base, g, link);
  }

  lemma AbsorbCons(base: Gene, g: Gene, rest: seq<Gene>, link: Link)
    ensures Absorb(base, [g] + rest, link) == Absorb(if Linked(base, g, link) then Take(base, g) else base, rest, link)
    ensures |Shared(base, [g] + rest, link)| == |Shared(base, rest, link)| + if Linked(base, g, link) then 1 else 0
  {
    assert ([g] + rest)[1..] == rest;
    assert SharesWith(base, link)(g) == Linked(base, g, link);
  }

  class WarningBank {
    var bank: seq<FailureGene>

    ghost predicate Valid()
      reads this
    {
      Distinct(bank)
    }

    ghost function Contents(): seq<Gene>
      reads this, bank
    {
      Views(bank)
    }

    constructor ()
      ensures Valid() && Contents() == []
    {
      bank := [];
    }

    /** The first active gene with a token that occurs in the new gene's signal. */
    method FindExisting(gene: FailureGene) returns (first: nat)
      ensures first == FirstCatch(Contents(), gene.View())
    {
      first := 0;
      ghost var views, view := Contents(), gene.View();
      while first < |bank| && !(bank[first].status == Active && TokenOccursIn(bank[first], gene))
        invariant first <= |bank|
        invariant forall j | 0 <= j < first :: !Catches(views[j], view)
      {
        first := first + 1;
      }
      FirstCatchIsUnique(views, view, first);
    }

    /** Strengthens the first active gene that catches the new one, or adds a copy, or answers that the bank is full. */
    method BankGene(gene: FailureGene, maxActive: int) returns (result: BankResult)
      requires Valid()
      modifies this, bank
      ensures Valid()
      ensures result == ResultOf(old(Contents()), old(gene.View()), maxActive)
      ensures Contents() == Banked(old(Contents()), old(gene.View()), maxActive)
      ensures old(bank) <= bank && forall g | g in bank[|old(bank)|..] :: fresh(g)
    {
      ghost var views, view := Contents(), gene.View();
      var active, archived := ActiveGenes();
      var first := FindExisting(gene);
      BankedCases(views, view, maxActive);
      if first < |bank| {
        Strengthen(first, gene);
        return Merged;
      }
      if |active| >= maxActive {
        return BankFull;
      }
      AddCopy(gene);
      return Added;
    }

    method AddCopy(gene: FailureGene)
      requires Valid()
      modifies this
      ensures Valid()
      ensures Contents() == old(Contents()) + [old(gene.View()).(consolidatedCount := 1)]
      ensures old(bank) <= bank && forall g | g in bank[|old(bank)|..] :: fresh(g)
    {
      ghost var views := Contents();
      var copy := new FailureGene.Copy(gene, 1);
      assert Views(bank) == views;
      ViewsAppend(bank, copy);
      bank := bank + [copy];
    }

    method Strengthen(k: nat, gene: FailureGene)
      requires Valid() && k < |bank|
      modifies bank[k]
      ensures Contents() == old(Contents())[k := Reinforce(old(bank[k].View()), old(gene.View()))]
    {
      var existing, avoid := bank[k], gene.avoid;
      ghost var views := Contents();
      existing.consolidatedCount := existing.consolidatedCount + 1;
      existing.version := existing.version + 1;
      if |avoid| > |existing.avoid| {
        existing.avoid := avoid;
      }
      forall i | 0 <= i < |bank| && i != k
        ensures bank[i].View() == views[i]
      {
        assert bank[i] != existing;
      }
    }

    method ActiveGenes() returns (active: seq<FailureGene>, archived: nat)
      ensures Views(active) == ActiveOf(Contents())
      ensures forall g | g in active :: g in bank
      ensures |active| + archived == |bank|
    {
      active, archived := [], 0;
      ghost var views := Contents();
      for i := 0 to |bank|
        invariant Views(active) == ActiveOf(views[..i])
        invariant forall g | g in active :: g in bank
        invariant |active| + archived == i
      {
        ActiveSnoc(views, i);
        if bank[i].status == Active {
          ViewsAppend(active, bank[i]);
          active := active + [bank[i]];
        } else {
          archived := archived + 1;
        }
      }
      assert views[..|bank|] == views;
    }

    /** Replaces the list by the merged copies of its active genes; no gene object is changed. */
    method Consolidate(collate: Collation) returns (merged: nat, archived: nat)
      modifies this
      ensures Valid() && forall g | g in bank :: fresh(g)
      ensures Contents() == Consolidated(old(Contents()), collate)
      ensures |bank| + merged + archived == |old(bank)|
    {
      var unsorted;
      unsorted, archived := ActiveGenes();
      var active := SortById(unsorted, collate);
      var result;
      result, merged := MergeLoop(active, ShareToken());
      bank := result;
    }
  }

  lemma ActiveSnoc(bank: seq<Gene>, i: nat)
    requires i < |bank|
    ensures ActiveOf(bank[..i + 1]) == if IsActive(bank[i]) then ActiveOf(bank[..i]) + [bank[i]] else ActiveOf(bank[..i])
  {
    assert bank[..i + 1] == bank[..i] + [bank[i]];
    FilterAppend(bank[..i], [bank[i]], IsActive);
  }

  lemma BankedCases(bank: seq<Gene>, gene: Gene, maxActive: int)
    ensures
      var k := FirstCatch(bank, gene);
      if k < |bank| then
        ResultOf(bank, gene, maxActive) == Merged && Banked(bank, gene, maxActive) == bank[k := Reinforce(bank[k], gene)]
      else if |ActiveOf(bank)| >= maxActive then
        ResultOf(bank, gene, maxActive) == BankFull && Banked(bank, gene, maxActive) == bank
      else
        ResultOf(bank, gene, maxActive) == Added && Banked(bank, gene, maxActive) == bank + [gene.(consolidatedCount := 1)]
  {
  }

  lemma {:induction false} FirstCatchIsUnique(bank: seq<Gene>, gene: Gene, k: nat)
    requires k <= |bank| && (k < |bank| ==> Catches(bank[k], gene))
    requires forall j | 0 <= j < k :: !Catches(bank[j], gene)
    ensures k == FirstCatch(bank, gene)
  {
    if k > 0 {
      assert !Catches(bank[0], gene);
      forall j | 0 <= j < k - 1
        ensures !Catches(bank[1..][j], gene)
      {
        assert !Catches(bank[j + 1], gene);
      }
      FirstCatchIsUnique(bank[1..], gene, k - 1);
    }
  }

  /** The body of the inner loop. */
  method AbsorbOne(base: FailureGene, g: FailureGene, link: Link) returns (took: bool)
    requires base != g
    modifies base
    ensures took == Linked(old(base.View()), g.View(), link)
    ensures base.View() == if took then Take(old(base.View()), g.View()) else old(base.View())
  {
    took := link(base.matchingSignal, g.matchingSignal);
    if took {
      base.consolidatedCount := base.consolidatedCount + g.consolidatedCount;
      base.version := base.version + 1;
      if |g.avoid| > |base.avoid| {
        base.avoid := g.avoid;
      }
    }
  }

  /** Where the inner loop is: what is left to do leads from `now` to the wanted end. */
  datatype Inner = Inner(now: Gene, used: set<nat>, merged: nat)

  ghost predicate InnerAt(genes: seq<Gene>, i: nat, j: nat, used0: set<nat>, at: Inner, link: Link) {
    && i < j <= |genes|
    && at.now.matchingSignal == genes[i].matchingSignal
    && Absorb(at.now, Remaining(genes, j, used0), link) == Absorb(genes[i], Remaining(genes, i + 1, used0), link)
    && at.merged + |Shared(genes[i], Remaining(genes, j, used0), link)| == |Shared(genes[i], Remaining(genes, i + 1, used0), link)|
    && (forall k: nat | i + 1 <= k < j :: k in at.used <==> k in used0 || Linked(genes[i], genes[k], link))
    && (forall k: nat | j <= k < |genes| :: k in at.used <==> k in used0)
  }

  function InnerNext(g: Gene, j: nat, at: Inner, link: Link): Inner {
    if j !in at.used && Linked(at.now, g, link) then Inner(Take(at.now, g), at.used + {j}, at.merged + 1) else at
  }

  lemma InnerStep(genes: seq<Gene>, i: nat, j: nat, used0: set<nat>, at: Inner, link: Link)
    requires j < |genes| && InnerAt(genes, i, j, used0, at, link)
    ensures InnerAt(genes, i, j + 1, used0, InnerNext(genes[j], j, at, link), link)
  {
    assert Linked(at.now, genes[j], link) == Linked(genes[i], genes[j], link);
    if j !in at.used {
      AbsorbCons(at.now, genes[j], Remaining(genes, j + 1, used0), link);
      AbsorbCons(genes[i], genes[j], Remaining(genes, j + 1, used0), link);
    }
  }

  lemma InnerEnd(genes: seq<Gene>, i: nat, used0: set<nat>, at: Inner, link: Link)
    requires InnerAt(genes, i, |genes|, used0, at, link)
    ensures at.now == Absorb(genes[i], Remaining(genes, i + 1, used0), link)
    ensures Remaining(genes, i + 1, at.used) == Unshared(genes[i], Remaining(genes, i + 1, used0), link)
    ensures at.merged == |Shared(genes[i], Remaining(genes, i + 1, used0), link)|
  {
    UsedFilters(genes, genes[i], i + 1, used0, at.used, link);
  }

  /** The body of the inner loop, for a gene that may be used already. */
  method InnerPass(active: seq<FailureGene>, i: nat, j: nat, ghost used0: set<nat>, base: FailureGene, used1: set<nat>, merged1: nat, link: Link)
    returns (used: set<nat>, merged: nat)
    requires j < |active| && base !in active
    requires InnerAt(Views(active), i, j, used0, Inner(base.View(), used1, merged1), link)
    modifies base
    ensures Views(active) == old(Views(active))
    ensures InnerAt(Views(active), i, j + 1, used0, Inner(base.View(), used, merged), link)
  {
    ghost var views := Views(active);
    InnerStep(views, i, j, used0, Inner(base.View(), used1, merged1), link);
    used, merged := used1, merged1;
    if j !in used {
      var took := AbsorbOne(base, active[j], link);
      if took {
        used := used + {j};
        merged := merged + 1;
      }
    }
    assert Views(active) == views;
  }

  /** The inner loop: `base` takes in every unused later gene that shares a token with it. */
  method AbsorbLoop(active: seq<FailureGene>, i: nat, used0: set<nat>, base: FailureGene, link: Link)
    returns (used: set<nat>, merged: nat)
    requires i < |active| && base !in active && base.View() == active[i].View()
    modifies base
    ensures base.View() == Absorb(active[i].View(), Remaining(Views(active), i + 1, used0), link)
    ensures Remaining(Views(active), i + 1, used) == Unshared(active[i].View(), Remaining(Views(active), i + 1, used0), link)
    ensures merged == |Shared(active[i].View(), Remaining(Views(active), i + 1, used0), link)|
  {
    ghost var views := Views(active);
    used, merged := used0, 0;
    for j := i + 1 to |active|
      invariant Views(active) == views
      invariant InnerAt(views, i, j, used0, Inner(base.View(), used, merged), link)
    {
      used, merged := InnerPass(active, i, j, used0, base, used, merged, link);
    }
    InnerEnd(views, i, used0, Inner(base.View(), used, merged), link);
  }

  lemma MergeStep(views: seq<Gene>, i: nat, used: set<nat>, link: Link)
    requires i < |views|
    ensures i in used ==> Remaining(views, i, used) == Remaining(views, i + 1, used)
    ensures i !in used ==>
              var rest := Remaining(views, i + 1, used + {i});
              && MergeAll(Remaining(views, i, used), link) == [Absorb(views[i], rest, link)] + MergeAll(Unshared(views[i], rest, link), link)
              && |Remaining(views, i, used)| == 1 + |Shared(views[i], rest, link)| + |Unshared(views[i], rest, link)|
  {
    if i !in used {
      RemainingAgrees(views, i + 1, used, used + {i});
      var rest := Remaining(views, i + 1, used + {i});
      assert Remaining(views, i, used) == [views[i]] + rest;
      assert ([views[i]] + rest)[1..] == rest;
      FilterPartitions(rest, SharesWith(views[i], link));
    }
  }

  /** Where the outer loop is: the outputs so far followed by the merge of what remains. */
  ghost predicate OuterAt(genes: seq<Gene>, i: nat, used: set<nat>, out: seq<Gene>, merged: nat, link: Link) {
    && i <= |genes|
    && out + MergeAll(Remaining(genes, i, used), link) == MergeAll(genes, link)
    && |out| + merged + |Remaining(genes, i, used)| == |genes|
  }

  lemma OuterStart(genes: seq<Gene>, link: Link)
    ensures OuterAt(genes, 0, {}, [], 0, link)
  {
    AllRemain(genes, 0);
    assert genes[0..] == genes;
  }

  lemma OuterStep(genes: seq<Gene>, i: nat, used: set<nat>, out: seq<Gene>, merged: nat, used': set<nat>, g: Gene, more: nat, link: Link)
    requires i < |genes| && i !in used && OuterAt(genes, i, used, out, merged, link)
    requires var rest := Remaining(genes, i + 1, used + {i});
             && g == Absorb(genes[i], rest, link) && more == |Shared(genes[i], rest, link)|
             && Remaining(genes, i + 1, used') == Unshared(genes[i], rest, link)
    ensures OuterAt(genes, i + 1, used', out + [g], merged + more, link)
  {
    MergeStep(genes, i, used, link);
    var tail := MergeAll(Remaining(genes, i + 1, used'), link);
    Reassociate(out, g, tail, MergeAll(Remaining(genes, i, used), link), MergeAll(genes, link));
  }

  lemma Reassociate(out: seq<Gene>, g: Gene, tail: seq<Gene>, rest: seq<Gene>, all: seq<Gene>)
    requires out + rest == all && rest == [g] + tail
    ensures (out + [g]) + tail == all
  {
  }

  lemma ViewsAppend(genes: seq<FailureGene>, g: FailureGene)
    ensures Views(genes + [g]) == Views(genes) + [g.View()]
  {
  }

  lemma OuterSkip(genes: seq<Gene>, i: nat, used: set<nat>, out: seq<Gene>, merged: nat, link: Link)
    requires i < |genes| && i in used && OuterAt(genes, i, used, out, merged, link)
    ensures OuterAt(genes, i + 1, used, out, merged, link)
  {
  }

  lemma OuterEnd(genes: seq<Gene>, used: set<nat>, out: seq<Gene>, merged: nat, link: Link)
    requires OuterAt(genes, |genes|, used, out, merged, link)
    ensures out == MergeAll(genes, link) && |out| + merged == |genes|
  {
    assert out + [] == out;
  }

  /** One output: a copy of the gene at `i` that takes in everything it shares a token with. */
  method MergeOne(active: seq<FailureGene>, i: nat, used0: set<nat>, link: Link)
    returns (base: FailureGene, used: set<nat>, merged: nat)
    requires i < |active|
    ensures fresh(base)
    ensures base.View() == Absorb(active[i].View(), Remaining(Views(active), i + 1, used0 + {i}), link)
    ensures Remaining(Views(active), i + 1, used) == Unshared(active[i].View(), Remaining(Views(active), i + 1, used0 + {i}), link)
    ensures merged == |Shared(active[i].View(), Remaining(Views(active), i + 1, used0 + {i}), link)|
  {
    ghost var views := Views(active);
    base := new FailureGene.Copy(active[i], active[i].consolidatedCount);
    assert Views(active) == views;
    used, merged := AbsorbLoop(active, i, used0 + {i}, base, link);
    assert Views(active) == views;
  }

  /** The body of the outer loop. */
  method OuterPass(active: seq<FailureGene>, i: nat, used0: set<nat>, result0: seq<FailureGene>, merged0: nat, link: Link)
    returns (result: seq<FailureGene>, used: set<nat>, merged: nat)
    requires i < |active| && OuterAt(Views(active), i, used0, Views(result0), merged0, link) && Distinct(result0)
    ensures Views(active) == old(Views(active))
    ensures OuterAt(Views(active), i + 1, used, Views(result), merged, link) && Distinct(result)
    ensures forall g | g in result :: g in result0 || fresh(g)
  {
    ghost var views, out := Views(active), Views(result0);
    result, used, merged := result0, used0, merged0;
    if i in used {
      OuterSkip(views, i, used, out, merged, link);
    } else {
      var copy, more;
      copy, used, more := MergeOne(active, i, used0, link);
      OuterStep(views, i, used0, out, merged0, used, copy.View(), more, link);
      assert Views(result0) == out;
      ViewsAppend(result0, copy);
      result, merged := result0 + [copy], merged0 + more;
    }
  }

  /** The outer loop over the sorted active genes. */
  method MergeLoop(active: seq<FailureGene>, link: Link) returns (result: seq<FailureGene>, merged: nat)
    ensures Views(result) == MergeAll(Views(active), link)
    ensures |result| + merged == |active|
    ensures Distinct(result) && forall g | g in result :: fresh(g)
  {
    var used: set<nat> := {};
    result, merged := [], 0;
    OuterStart(Views(active), link);
    assert Views(result) == [];
    for i := 0 to |active|
      invariant OuterAt(Views(active), i, used, Views(result), merged, link) && Distinct(result)
      invariant forall g | g in result :: fresh(g)
    {
      result, used, merged := OuterPass(active, i, used, result, merged, link);
    }
    OuterEnd(Views(active), used, Views(result), merged, link);
  }
}
