/**
 * Levels of stories, computed two more ways: the cockpit's memoised recursion with its waves, and
 * the board's pass over the post-order.  Both are compared with the height of the graph.
 */
module PipelineLevels {
  import opened Common
  import opened DependencyGraph
  import CriticalPath

  // ----- reference definition -----

  /**
   * The plain recursion without cache: 0 without dependencies, otherwise one more than the
   * highest present dependency.  Missing dependencies alone still make level 1.
   */
  ghost function Level(g: Graph, id: StoryId): nat
    requires Acyclic(g) && id in g
    decreases Height(g, id), 1
  {
    if g[id] == [] then 0 else 1 + Highest(g, id, g[id])
  }

  /** The highest level among `deps`, some dependencies of `id`; a missing one counts as 0. */
  ghost function Highest(g: Graph, id: StoryId, deps: seq<StoryId>): nat
    requires Acyclic(g) && id in g
    requires forall d | d in deps :: d in g[id]
    decreases Height(g, id), 0, |deps|
  {
    if deps == [] then 0
    else
      var rest, d := Highest(g, id, deps[..|deps| - 1]), deps[|deps| - 1];
      if d in g then
        HeightExceedsDependency(g, id, d);
        if Level(g, d) > rest then Level(g, d) else rest
      else rest
  }

  lemma {:induction false} HighestBounds(g: Graph, id: StoryId, deps: seq<StoryId>)
    requires Acyclic(g) && id in g
    requires forall d | d in deps :: d in g[id]
    ensures forall d | d in deps && d in g :: Level(g, d) <= Highest(g, id, deps)
    ensures Highest(g, id, deps) == 0 || exists d | d in deps :: d in g && Level(g, d) == Highest(g, id, deps)
  {
    if deps != [] {
      var n := |deps| - 1;
      HighestBounds(g, id, deps[..n]);
      assert forall d | d in deps :: d in deps[..n] || d == deps[n];
      if deps[n] in g {
        HeightExceedsDependency(g, id, deps[n]);
      }
    }
  }

  /**
   * The plain depth: 0 without dependencies; otherwise at least 1, above every present dependency,
   * and 1 above the highest of them or exactly 1.  Missing dependencies count as level 0.
   */
  lemma LevelByDependencies(g: Graph, id: StoryId)
    requires Acyclic(g) && id in g
    ensures g[id] == [] ==> Level(g, id) == 0
    ensures g[id] != [] ==> Level(g, id) >= 1 && forall d | d in g[id] && d in g :: Level(g, d) + 1 <= Level(g, id)
    ensures g[id] != [] && (forall d | d in g[id] :: d !in g) ==> Level(g, id) == 1
    ensures g[id] != [] ==>
              Level(g, id) == 1 || exists d | d in g[id] :: d in g && Level(g, d) + 1 == Level(g, id)
  {
    HighestBounds(g, id, g[id]);
  }

  lemma DependencyIsLower(g: Graph, id: StoryId, d: StoryId)
    requires Acyclic(g) && Edge(g, id, d)
    ensures Level(g, d) < Level(g, id)
  {
    HighestBounds(g, id, g[id]);
  }

  /** Without dangling dependencies the level is the height less one. */
  lemma {:induction false} LevelIsHeight(g: Graph, id: StoryId)
    requires Acyclic(g) && NoDangling(g) && id in g
    ensures Level(g, id) == Height(g, id) - 1
    decreases Height(g, id)
  {
    HighestBounds(g, id, g[id]);
    forall d | Edge(g, id, d)
      ensures Level(g, d) == Height(g, d) - 1 && Height(g, d) < Height(g, id)
    {
      HeightExceedsDependency(g, id, d);
      LevelIsHeight(g, d);
    }
    if g[id] != [] {
      assert Edge(g, id, g[id][0]);
    }
    if Height(g, id) > 1 {
      var d := HeightComesFromDependency(g, id);
    }
  }

  // ----- the memoised recursion -----

  /** What the recursion remembers. */
  datatype Memo = Memo(cache: map<StoryId, nat>, seen: set<StoryId>)

  datatype Computed = Computed(level: nat, memo: Memo)

  /** The recursion as a function of what is remembered, on any graph. */
  function LevelOf(g: Graph, m: Memo, id: StoryId): (r: Computed)
    requires id in g
    ensures m.seen <= r.memo.seen
    decreases g.Keys - m.seen, 0, 0
  {
    if id in m.cache then Computed(m.cache[id], m)
    else if id in m.seen then Computed(0, m)
    else
      var entered := m.(seen := m.seen + {id});
      if g[id] == [] then Computed(0, entered.(cache := entered.cache[id := 0]))
      else
        var inner := HighestOf(g, entered, g[id], 0);
        Computed(1 + inner.level, inner.memo.(cache := inner.memo.cache[id := 1 + inner.level]))
  }

  /** The greatest of `highest` and the levels of those of `deps` that are present, one after the other. */
  function HighestOf(g: Graph, m: Memo, deps: seq<StoryId>, highest: nat): (r: Computed)
    ensures m.seen <= r.memo.seen
    decreases g.Keys - m.seen, 1, |deps|
  {
    if deps == [] then Computed(highest, m)
    else if deps[0] in g then
      var r := LevelOf(g, m, deps[0]);
      HighestOf(g, r.memo, deps[1..], if r.level > highest then r.level else highest)
    else HighestOf(g, m, deps[1..], highest)
  }

  lemma OneLevel(g: Graph, m: Memo, deps: seq<StoryId>, k: nat, highest: nat)
    requires k < |deps|
    ensures
      HighestOf(g, m, deps[k..], highest)
      == if deps[k] in g then
           var r := LevelOf(g, m, deps[k]);
           HighestOf(g, r.memo, deps[k + 1..], if r.level > highest then r.level else highest)
         else HighestOf(g, m, deps[k + 1..], highest)
  {
    assert deps[k..][0] == deps[k] && deps[k..][1..] == deps[k + 1..];
  }

  /** The cache after one query after the other. */
  function Queried(g: Graph, ids: seq<StoryId>): map<StoryId, nat>
    requires forall id | id in ids :: id in g
  {
    if ids == [] then map[] else LevelOf(g, Memo(Queried(g, ids[..|ids| - 1]), {}), ids[|ids| - 1]).memo.cache
  }

  /** On a cycle the levels depend on which story is queried first. */
  lemma QueryOrderMattersOnACycle(g: Graph, a: StoryId, b: StoryId)
    requires a != b && g == map[a := [b], b := [a]]
    ensures Queried(g, [a, b]) == map[a := 2, b := 1]
  {
    FirstQuery(g, a, b);
    assert [a, b][..1] == [a];
    var m := Memo(map[b := 1][a := 2], {});
    assert LevelOf(g, m, b) == Computed(1, m);
    assert map[b := 1][a := 2] == map[a := 2, b := 1];
  }

  lemma FirstQuery(g: Graph, a: StoryId, b: StoryId)
    requires a != b && g == map[a := [b], b := [a]]
    ensures Queried(g, [a]) == map[b := 1][a := 2]
  {
    var start, in1 := Memo(map[], {}), Memo(map[], {a});
    var in2 := Memo(map[], {a} + {b});
    assert [a][..0] == [] && [a][1..] == [] && [b][1..] == [];
    assert start.(seen := start.seen + {a}) == in1;
    assert LevelOf(g, in2, a) == Computed(0, in2);
    assert HighestOf(g, in2, [a], 0) == Computed(0, in2);
    assert LevelOf(g, in1, b) == Computed(1, in2.(cache := map[b := 1]));
    assert HighestOf(g, in1, [b], 0) == Computed(1, in2.(cache := map[b := 1]));
    assert LevelOf(g, start, a).memo.cache == map[b := 1][a := 2];
  }

  class LevelCache {
    const byId: Graph
    var cache: map<StoryId, nat>
    var seen: set<StoryId>

    ghost predicate Valid()
      reads this
    {
      && cache.Keys <= byId.Keys && seen <= byId.Keys
      && (Acyclic(byId) ==> forall id | id in cache :: cache[id] == Level(byId, id))
    }

    ghost predicate Extends(before: map<StoryId, nat>)
      reads this
    {
      forall id | id in before :: id in cache && cache[id] == before[id]
    }

    constructor (g: Graph)
      ensures Valid() && byId == g && cache == map[]
    {
      byId := g;
      cache, seen := map[], {};
    }

    /** The recursive helper; stories seen but not cached are the ones being computed. */
    method Compute(id: StoryId) returns (level: nat)
      requires Valid() && id in byId
      requires Acyclic(byId) ==> forall s | s in seen - cache.Keys :: Height(byId, s) > Height(byId, id)
      modifies this
      ensures Valid() && Extends(old(cache))
      ensures old(seen) <= seen && seen - cache.Keys == old(seen - cache.Keys)
      ensures id in cache || id in old(seen)
      ensures id in cache ==> level == cache[id]
      ensures Acyclic(byId) ==> id in cache && level == Level(byId, id)
      ensures Computed(level, Memo(cache, seen)) == LevelOf(byId, old(Memo(cache, seen)), id)
      decreases byId.Keys - seen, 0
    {
      if id in cache {
        return cache[id];
      }
      assert Acyclic(byId) ==> id !in seen - cache.Keys;
      if id in seen {
        return 0;
      }
      ghost var stack := seen - cache.Keys;
      seen := seen + {id};
      if byId[id] == [] {
        cache := cache[id := 0];
        return 0;
      }
      var highest := HighestLevel(id, stack);
      level := 1 + highest;
      Store(id, level, stack);
    }

    /** The loop over the dependencies of the story entered last. */
    method HighestLevel(id: StoryId, ghost stack: set<StoryId>) returns (highest: nat)
      requires Valid() && id in byId && seen - cache.Keys == stack + {id} && id !in stack && stack <= byId.Keys
      requires Acyclic(byId) ==> forall s | s in stack :: Height(byId, s) > Height(byId, id)
      modifies this
      ensures Valid() && Extends(old(cache))
      ensures old(seen) <= seen && seen - cache.Keys == stack + {id}
      ensures Acyclic(byId) ==> highest == Highest(byId, id, byId[id])
      ensures Computed(highest, Memo(cache, seen)) == HighestOf(byId, old(Memo(cache, seen)), byId[id], 0)
      decreases byId.Keys - seen, 1
    {
      var deps := byId[id];
      highest := 0;
      ghost var entered := Memo(cache, seen);
      for k := 0 to |deps|
        invariant HighestOf(byId, Memo(cache, seen), deps[k..], highest) == HighestOf(byId, entered, deps, 0)
        invariant Valid() && Extends(old(cache))
        invariant old(seen) <= seen && seen - cache.Keys == stack + {id}
        invariant Acyclic(byId) ==> highest == Highest(byId, id, deps[..k])
      {
        assert deps[..k + 1][..k] == deps[..k];
        OneLevel(byId, Memo(cache, seen), deps, k, highest);
        if deps[k] in byId {
          if Acyclic(byId) {
            StackIsHigher(byId, stack, id, deps[k]);
          }
          var l := Compute(deps[k]);
          if l > highest {
            highest := l;
          }
        }
      }
      assert deps[..|deps|] == deps;
    }

    /** Stores the level of a story that was being computed. */
    method Store(id: StoryId, level: nat, ghost stack: set<StoryId>)
      requires Valid() && id in byId && seen - cache.Keys == stack + {id} && id !in stack
      requires Acyclic(byId) ==> level == Level(byId, id)
      modifies this
      ensures Valid() && seen == old(seen) && cache == old(cache)[id := level]
      ensures seen - cache.Keys == stack
    {
      cache := cache[id := level];
    }

    /** A top-level query starts with nothing seen. */
    method Query(id: StoryId) returns (level: nat)
      requires Valid() && id in byId
      modifies this
      ensures Valid() && Extends(old(cache)) && id in cache && level == cache[id]
      ensures Acyclic(byId) ==> level == Level(byId, id)
      ensures cache == LevelOf(byId, Memo(old(cache), {}), id).memo.cache
    {
      seen := {};
      level := Compute(id);
    }
  }

  // ----- waves -----

  type Waves = map<nat, seq<StoryId>>

  function LevelsIn(ids: seq<StoryId>, levels: map<StoryId, nat>): set<nat> {
    set id | id in ids && id in levels :: levels[id]
  }

  function AtLevel(levels: map<StoryId, nat>, l: nat): StoryId -> bool {
    (id: StoryId) => id in levels && levels[id] == l
  }

  /** There is a wave for each level that occurs; it lists the stories of that level, in backlog order. */
  ghost predicate GroupedBy(waves: Waves, ids: seq<StoryId>, levels: map<StoryId, nat>) {
    && (forall id | id in ids :: id in levels)
    && waves.Keys == LevelsIn(ids, levels)
    && (forall l | l in waves :: waves[l] == Filter(ids, AtLevel(levels, l)))
  }

  /** The waves group the backlog by one level per story; on an acyclic backlog, by the recursive depth. */
  ghost predicate WavesBy(stories: seq<StoryDep>, waves: Waves, levels: map<StoryId, nat>) {
    && levels.Keys == GraphOf(stories).Keys && GroupedBy(waves, Ids(stories), levels)
    && (Acyclic(GraphOf(stories)) ==> forall id | id in levels :: levels[id] == Level(GraphOf(stories), id))
  }

  /**
   * The waves of `derivePipeline`.  They group the backlog by one level per story on any graph;
   * on an acyclic one that level is the recursive depth, in whatever order stories are queried.
   */
  method DeriveWaves(stories: seq<StoryDep>) returns (waves: Waves)
    ensures forall id | id in Ids(stories) :: id in GraphOf(stories)
    ensures WavesBy(stories, waves, Queried(GraphOf(stories), Ids(stories)))
  {
    var g := GraphOf(stories);
    ghost var ids := Ids(stories);
    CriticalPath.EntriesAreKeys(stories);
    var c := new LevelCache(g);
    waves := map[];
    for k := 0 to |stories|
      invariant c.Valid() && c.byId == g
      invariant GroupedBy(waves, ids[..k], c.cache) && c.cache == Queried(g, ids[..k])
    {
      var id := stories[k].storyId;
      ghost var before := c.cache;
      QueriedSnoc(g, ids, k);
      var l := c.Query(id);
      WaveGrows(waves, ids[..k], before, c.cache, id);
      waves := waves[l := (if l in waves then waves[l] else []) + [id]];
    }
    assert ids[..|stories|] == ids;
    AllKeysAreQueried(stories, c.cache);
  }

  lemma QueriedSnoc(g: Graph, ids: seq<StoryId>, k: nat)
    requires k < |ids| && forall id | id in ids :: id in g
    ensures ids[..k + 1] == ids[..k] + [ids[k]]
    ensures Queried(g, ids[..k + 1]) == LevelOf(g, Memo(Queried(g, ids[..k]), {}), ids[k]).memo.cache
  {
    assert ids[..k + 1][..k] == ids[..k];
  }

  lemma AllKeysAreQueried(stories: seq<StoryDep>, levels: map<StoryId, nat>)
    requires levels.Keys <= GraphOf(stories).Keys && forall id | id in Ids(stories) :: id in levels
    ensures levels.Keys == GraphOf(stories).Keys
  {
    GraphOfKeys(stories);
  }

  lemma WaveGrows(waves: Waves, ids: seq<StoryId>, before: map<StoryId, nat>, after: map<StoryId, nat>, id: StoryId)
    requires GroupedBy(waves, ids, before) && id in after
    requires forall x | x in before :: x in after && after[x] == before[x]
    ensures GroupedBy(waves[after[id] := (if after[id] in waves then waves[after[id]] else []) + [id]], ids + [id], after)
  {
    GroupsSurviveExtension(waves, ids, before, after);
    GroupAppended(waves, ids, after, id);
  }

  lemma {:induction false} GroupsSurviveExtension(waves: Waves, ids: seq<StoryId>, before: map<StoryId, nat>, after: map<StoryId, nat>)
    requires GroupedBy(waves, ids, before)
    requires forall id | id in before :: id in after && after[id] == before[id]
    ensures GroupedBy(waves, ids, after)
  {
    forall l | l in waves
      ensures waves[l] == Filter(ids, AtLevel(after, l))
    {
      FilterAgrees(ids, AtLevel(before, l), AtLevel(after, l));
    }
    assert LevelsIn(ids, before) == LevelsIn(ids, after) by {
      assert forall id | id in ids :: before[id] == after[id];
    }
  }

  lemma LevelsSnoc(ids: seq<StoryId>, levels: map<StoryId, nat>, id: StoryId)
    requires id in levels
    ensures LevelsIn(ids + [id], levels) == LevelsIn(ids, levels) + {levels[id]}
  {
    var all := ids + [id];
    assert id in all && forall x | x in ids :: x in all;
    assert forall x | x in all :: x in ids || x == id;
  }

  lemma {:induction false} WaveContents(waves: Waves, ids: seq<StoryId>, levels: map<StoryId, nat>, id: StoryId, l: nat)
    requires GroupedBy(waves, ids, levels) && id in levels
    requires l in waves || l == levels[id]
    ensures Filter(ids + [id], AtLevel(levels, l))
         == (if l in waves then waves[l] else []) + (if l == levels[id] then [id] else [])
  {
    var p := AtLevel(levels, l);
    FilterAppend(ids, [id], p);
    FilterOne(id, p);
    if l !in waves {
      forall x | x in ids
        ensures !p(x)
      {
        assert levels[x] in LevelsIn(ids, levels);
      }
      FilterNone(ids, p);
    }
  }

  lemma FilterOne(id: StoryId, p: StoryId -> bool)
    ensures Filter([id], p) == if p(id) then [id] else []
  {
    assert [id][1..] == [];
  }

  lemma GroupAppended(waves: Waves, ids: seq<StoryId>, levels: map<StoryId, nat>, id: StoryId)
    requires GroupedBy(waves, ids, levels) && id in levels
    ensures GroupedBy(waves[levels[id] := (if levels[id] in waves then waves[levels[id]] else []) + [id]], ids + [id], levels)
  {
    var next := waves[levels[id] := (if levels[id] in waves then waves[levels[id]] else []) + [id]];
    LevelsSnoc(ids, levels, id);
    forall l | l in next
      ensures next[l] == Filter(ids + [id], AtLevel(levels, l))
    {
      WaveContents(waves, ids, levels, id, l);
    }
  }

  /** Every story is in the wave of its level and in no other. */
  lemma WavesPartitionTheStories(stories: seq<StoryDep>, waves: Waves, levels: map<StoryId, nat>)
    requires WavesBy(stories, waves, levels)
    ensures forall id | id in Ids(stories) :: id in levels && levels[id] in waves && id in waves[levels[id]]
    ensures forall l, id | l in waves && id in waves[l] :: id in Ids(stories) && id in levels && l == levels[id]
  {
    var ids := Ids(stories);
    forall id | id in ids
      ensures levels[id] in waves && id in waves[levels[id]]
    {
      assert levels[id] in LevelsIn(ids, levels);
      assert AtLevel(levels, levels[id])(id);
    }
  }

  /** Every present dependency is in a strictly earlier wave. */
  lemma {:induction false} WavesRespectDependencies(
    stories: seq<StoryDep>, waves: Waves, levels: map<StoryId, nat>, i: nat, d: StoryId, l: nat, m: nat)
    requires Acyclic(GraphOf(stories)) && Distinct(Ids(stories)) && WavesBy(stories, waves, levels)
    requires i < |stories| && d in stories[i].dependsOn
    requires l in waves && d in waves[l] && m in waves && stories[i].storyId in waves[m]
    ensures l < m
  {
    WavesPartitionTheStories(stories, waves, levels);
    GraphOfLookup(stories, i);
    DependencyIsLower(GraphOf(stories), stories[i].storyId, d);
  }

  // ----- the board's levels -----

  /** The inner loop over the dependencies; -1 when none has a level yet. */
  method HighestDefined(deps: seq<StoryId>, level: map<StoryId, nat>) returns (highest: int)
    ensures highest >= -1
    ensures forall d | d in deps && d in level :: level[d] <= highest
    ensures highest == -1 || exists d | d in deps :: d in level && level[d] == highest
  {
    highest := -1;
    for j := 0 to |deps|
      invariant highest >= -1
      invariant forall i | 0 <= i < j && deps[i] in level :: level[deps[i]] <= highest
      invariant highest == -1 || exists i | 0 <= i < j :: deps[i] in level && level[deps[i]] == highest
    {
      if deps[j] in level && level[deps[j]] > highest {
        highest := level[deps[j]];
      }
    }
  }

  /** The levels of the board: one pass over the post-order; undefined levels are ignored. */
  method BoardLevels(stories: seq<StoryDep>) returns (level: map<StoryId, nat>)
    ensures level.Keys == GraphOf(stories).Keys
    ensures Acyclic(GraphOf(stories)) ==>
              forall id | id in level :: level[id] == Height(GraphOf(stories), id) - 1
  {
    var g := GraphOf(stories);
    var order := CriticalPath.PostOrder(stories);
    assert forall id | id in order :: id in CriticalPath.SetOf(order);
    level := map[];
    for k := 0 to |order|
      invariant LevelsUpTo(g, order, k, level)
    {
      var highest := HighestDefined(g[order[k]], level);
      OneMoreLevel(g, order, k, level, highest);
      level := level[order[k] := highest + 1];
    }
    AllHaveLevels(stories, order, level);
  }

  lemma AllHaveLevels(stories: seq<StoryDep>, order: seq<StoryId>, level: map<StoryId, nat>)
    requires LevelsUpTo(GraphOf(stories), order, |order|, level)
    requires CriticalPath.SetOf(order) == GraphOf(stories).Keys
    ensures level.Keys == GraphOf(stories).Keys
    ensures Acyclic(GraphOf(stories)) ==>
              forall id | id in level :: level[id] == Height(GraphOf(stories), id) - 1
  {
    assert order[..|order|] == order;
  }

  /** The first `k` stories of the order have their levels; heights less one on an acyclic graph. */
  ghost predicate LevelsUpTo(g: Graph, order: seq<StoryId>, k: int, level: map<StoryId, nat>) {
    && 0 <= k <= |order|
    && level.Keys == CriticalPath.SetOf(order[..k]) && level.Keys <= g.Keys
    && (Acyclic(g) ==> forall id | id in level :: level[id] == Height(g, id) - 1)
  }

  lemma OneMoreLevel(g: Graph, order: seq<StoryId>, k: nat, level: map<StoryId, nat>, highest: int)
    requires k < |order| && order[k] in g && LevelsUpTo(g, order, k, level)
    requires Acyclic(g) ==> CriticalPath.DependenciesFirst(g, order)
    requires highest >= -1 && forall d | d in g[order[k]] && d in level :: level[d] <= highest
    requires highest == -1 || exists d | d in g[order[k]] :: d in level && level[d] == highest
    ensures LevelsUpTo(g, order, k + 1, level[order[k] := highest + 1])
  {
    assert order[..k + 1] == order[..k] + [order[k]];
    if Acyclic(g) {
      LevelFromDependencies(g, order, k, level, highest);
    }
  }

  /** Without dangling dependencies the memoised level and the longest-path table agree. */
  lemma {:induction false} LevelAgreesWithCriticalPath(g: Graph, order: seq<StoryId>, id: StoryId)
    requires Acyclic(g) && NoDangling(g) && id in order
    requires Distinct(order) && CriticalPath.DependenciesFirst(g, order)
    requires forall x | x in order :: x in g
    ensures id in CriticalPath.LongestTable(g, order)
    ensures Level(g, id) == CriticalPath.LongestTable(g, order)[id].length - 1
  {
    LevelIsHeight(g, id);
    CriticalPath.TableHoldsHeights(g, order);
  }

  lemma LevelFromDependencies(g: Graph, order: seq<StoryId>, k: nat, level: map<StoryId, nat>, highest: int)
    requires Acyclic(g) && CriticalPath.DependenciesFirst(g, order) && k < |order| && order[k] in g
    requires level.Keys == CriticalPath.SetOf(order[..k]) && level.Keys <= g.Keys
    requires forall id | id in level :: level[id] == Height(g, id) - 1
    requires forall d | d in g[order[k]] && d in level :: level[d] <= highest
    requires highest == -1 || exists d | d in g[order[k]] :: d in level && level[d] == highest
    ensures highest + 1 == Height(g, order[k]) - 1
  {
    var id := order[k];
    if highest >= 0 {
      var d :| d in g[id] && d in level && level[d] == highest;
      HeightExceedsDependency(g, id, d);
    }
    if Height(g, id) > 1 {
      var d := HeightComesFromDependency(g, id);
      assert Edge(g, order[k], d) && d in order[..k];
      assert d in level;
    }
  }
}
