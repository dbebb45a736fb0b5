/**
 * The longest dependency chain of a backlog: depth-first post-order, longest-path table, parent
 * walk.  The traversal is the one that the board's level computation uses as well.
 */
module CriticalPath {
  import opened Common
  import opened DependencyGraph

  function SetOf(s: seq<StoryId>): set<StoryId> {
    set id | id in s
  }

  /** Every present dependency of a story stands before it. */
  ghost predicate DependenciesFirst(g: Graph, order: seq<StoryId>) {
    forall i, d | 0 <= i < |order| && Edge(g, order[i], d) :: d in order[..i]
  }

  /** The two collections of the nested `dfs`. */
  datatype Trail = Trail(visited: set<StoryId>, order: seq<StoryId>)

  function Dfs(g: Graph, t: Trail, id: StoryId): (r: Trail)
    requires id in g
    ensures t.visited <= r.visited
    decreases g.Keys - t.visited, 0, 0
  {
    if id in t.visited then t
    else
      var inner := DfsAll(g, t.(visited := t.visited + {id}), g[id]);
      inner.(order := inner.order + [id])
  }

  /** One search after the other, for those of `deps` that are present. */
  function DfsAll(g: Graph, t: Trail, deps: seq<StoryId>): (r: Trail)
    ensures t.visited <= r.visited
    decreases g.Keys - t.visited, 1, |deps|
  {
    if deps == [] then t
    else DfsAll(g, if deps[0] in g then Dfs(g, t, deps[0]) else t, deps[1..])
  }

  lemma OneSearch(g: Graph, t: Trail, deps: seq<StoryId>, k: nat)
    requires k < |deps|
    ensures DfsAll(g, t, deps[k..]) == DfsAll(g, if deps[k] in g then Dfs(g, t, deps[k]) else t, deps[k + 1..])
  {
    assert deps[k..][0] == deps[k] && deps[k..][1..] == deps[k + 1..];
  }

  /** The post-order of a backlog. */
  function OrderOf(stories: seq<StoryDep>): seq<StoryId> {
    DfsAll(GraphOf(stories), Trail({}, []), Ids(stories)).order
  }

  /** The nested `dfs` as an object. */
  class Traversal {
    const graph: Graph
    var visited: set<StoryId>
    var order: seq<StoryId>

    ghost predicate Valid()
      reads this
    {
      && SetOf(order) <= visited <= graph.Keys
      && Distinct(order)
      && (Acyclic(graph) ==> DependenciesFirst(graph, order))
    }

    /** Stories entered and not left yet. */
    ghost function Stack(): set<StoryId>
      reads this
    {
      visited - SetOf(order)
    }

    constructor (g: Graph)
      ensures Valid() && graph == g && visited == {} && order == []
    {
      graph := g;
      visited, order := {}, [];
    }

    method Visit(id: StoryId)
      requires Valid() && id in graph
      requires Acyclic(graph) ==> forall s | s in Stack() :: Height(graph, s) > Height(graph, id)
      modifies this
      ensures Valid()
      ensures id in visited && old(visited) <= visited
      ensures old(order) <= order
      ensures Stack() == old(Stack())
      ensures Trail(visited, order) == Dfs(graph, old(Trail(visited, order)), id)
      decreases graph.Keys - visited
    {
      if id in visited {
        return;
      }
      ghost var stack := Stack();
      visited := visited + {id};
      assert Stack() == stack + {id};
      var deps := graph[id];
      ghost var entered := Trail(visited, order);
      for k := 0 to |deps|
        invariant Valid() && old(visited) + {id} <= visited && old(order) <= order
        invariant Stack() == stack + {id}
        invariant forall j | 0 <= j < k && deps[j] in graph :: deps[j] in visited
        invariant DfsAll(graph, Trail(visited, order), deps[k..]) == DfsAll(graph, entered, deps)
      {
        OneSearch(graph, Trail(visited, order), deps, k);
        if deps[k] in graph {
          if Acyclic(graph) {
            StackIsHigher(graph, stack, id, deps[k]);
          }
          Visit(deps[k]);
        }
      }
      VisitEnds(graph, visited, order, stack, id);
      order := order + [id];
    }
  }

  /** When all dependencies have been visited, the story goes behind them and leaves the stack. */
  lemma VisitEnds(g: Graph, visited: set<StoryId>, order: seq<StoryId>, stack: set<StoryId>, id: StoryId)
    requires id in g && visited - SetOf(order) == stack + {id} && id !in stack
    requires forall j | 0 <= j < |g[id]| && g[id][j] in g :: g[id][j] in visited
    requires Acyclic(g) ==> DependenciesFirst(g, order) && stack <= g.Keys && forall s | s in stack :: Height(g, s) > Height(g, id)
    ensures SetOf(order + [id]) == SetOf(order) + {id} && id !in order
    ensures visited - SetOf(order + [id]) == stack
    ensures Acyclic(g) ==> DependenciesFirst(g, order + [id])
  {
    assert id in visited - SetOf(order);
    if Acyclic(g) {
      forall d | Edge(g, id, d)
        ensures d in order
      {
        HeightExceedsDependency(g, id, d);
        assert d in visited && d !in stack + {id};
      }
      PostOrderExtends(g, order, id);
    }
  }

  lemma PostOrderExtends(g: Graph, order: seq<StoryId>, id: StoryId)
    requires DependenciesFirst(g, order)
    requires forall d | Edge(g, id, d) :: d in order
    ensures DependenciesFirst(g, order + [id])
  {
    var next := order + [id];
    forall i, d | 0 <= i < |next| && Edge(g, next[i], d)
      ensures d in next[..i]
    {
      assert next[..i] == order[..i];
      assert i < |order| ==> next[i] == order[i];
      assert order[..|order|] == order;
    }
  }

  /** All stories once; on an acyclic graph dependencies come first. */
  method PostOrder(stories: seq<StoryDep>) returns (order: seq<StoryId>)
    ensures order == OrderOf(stories)
    ensures Distinct(order) && SetOf(order) == GraphOf(stories).Keys
    ensures Acyclic(GraphOf(stories)) ==> DependenciesFirst(GraphOf(stories), order)
  {
    var g := GraphOf(stories);
    ghost var ids := Ids(stories);
    EntriesAreKeys(stories);
    var t := new Traversal(g);
    for k := 0 to |stories|
      invariant t.Valid() && t.graph == g && t.Stack() == {}
      invariant forall j | 0 <= j < k :: ids[j] in t.visited
      invariant DfsAll(g, Trail(t.visited, t.order), ids[k..]) == DfsAll(g, Trail({}, []), ids)
    {
      OneSearch(g, Trail(t.visited, t.order), ids, k);
      t.Visit(stories[k].storyId);
    }
    order := t.order;
    AllAreOrdered(stories, t.visited, order);
  }

  lemma EntriesAreKeys(stories: seq<StoryDep>)
    ensures |Ids(stories)| == |stories|
    ensures forall k | 0 <= k < |stories| :: Ids(stories)[k] == stories[k].storyId && Ids(stories)[k] in GraphOf(stories)
  {
    GraphOfKeys(stories);
  }

  lemma AllAreOrdered(stories: seq<StoryDep>, visited: set<StoryId>, order: seq<StoryId>)
    requires visited <= GraphOf(stories).Keys && visited - SetOf(order) == {} && SetOf(order) <= visited
    requires forall j | 0 <= j < |stories| :: Ids(stories)[j] in visited
    ensures SetOf(order) == GraphOf(stories).Keys
  {
    GraphOfKeys(stories);
    forall id | id in GraphOf(stories)
      ensures id in SetOf(order)
    {
      var j :| 0 <= j < |stories| && Ids(stories)[j] == id;
      assert stories[j].storyId == id && id !in visited - SetOf(order);
    }
  }

  // ----- the longest-path table -----

  /** `dp` and `parent` of one story. */
  datatype Cell = Cell(length: nat, parent: Option<StoryId>)

  type Table = map<StoryId, Cell>

  /** The inner loop over the dependencies of `id`; a story that lists itself reads its own cell. */
  function Relax(table: Table, id: StoryId, deps: seq<StoryId>): Cell {
    if deps == [] then Cell(1, None)
    else
      var n := |deps| - 1;
      var cell, dep := Relax(table, id, deps[..n]), deps[n];
      var seen := table[id := cell];
      if dep in seen && seen[dep].length + 1 > cell.length then Cell(seen[dep].length + 1, Some(dep)) else cell
  }

  function LongestTable(g: Graph, order: seq<StoryId>): Table
    requires forall id | id in order :: id in g
  {
    if order == [] then map[]
    else
      var n := |order| - 1;
      var table := LongestTable(g, order[..n]);
      table[order[n] := Relax(table, order[n], g[order[n]])]
  }

  method FillTable(g: Graph, order: seq<StoryId>) returns (table: Table)
    requires forall id | id in order :: id in g
    ensures table == LongestTable(g, order)
  {
    table := map[];
    for k := 0 to |order|
      invariant table == LongestTable(g, order[..k])
    {
      var id := order[k];
      assert order[..k + 1][..k] == order[..k];
      ghost var before := table;
      table := table[id := Cell(1, None)];
      var deps := g[id];
      for j := 0 to |deps|
        invariant table == before[id := Relax(before, id, deps[..j])]
      {
        assert deps[..j + 1][..j] == deps[..j];
        var dep := deps[j];
        if dep in table && table[dep].length + 1 > table[id].length {
          table := table[id := Cell(table[dep].length + 1, Some(dep))];
        }
      }
      assert deps[..|deps|] == deps;
    }
    assert order[..|order|] == order;
  }

  /** What a cell says: a parent is the story itself, or a tabulated dependency one shorter. */
  lemma {:induction false} RelaxIsJustified(table: Table, id: StoryId, deps: seq<StoryId>)
    requires id !in table
    ensures
      var cell := Relax(table, id, deps);
      if cell.parent.None? then cell.length == 1
      else
        && cell.parent.value in deps
        && (cell.parent == Some(id) || (cell.parent.value in table && cell.length == table[cell.parent.value].length + 1))
    ensures forall d | d in deps && d in table :: table[d].length + 1 <= Relax(table, id, deps).length
  {
    if deps != [] {
      RelaxIsJustified(table, id, deps[..|deps| - 1]);
    }
  }

  /** Without an entry for itself a story's parent is the first of its longest tabulated dependencies. */
  lemma {:induction false} ParentIsTheFirstLongest(table: Table, id: StoryId, deps: seq<StoryId>)
    requires id !in table && id !in deps && forall d | d in table :: table[d].length >= 1
    ensures (forall d | d in deps :: d !in table) ==> Relax(table, id, deps) == Cell(1, None)
    ensures (exists d | d in deps :: d in table) ==>
              exists k | 0 <= k < |deps| :: FirstLongestDependencyAt(table, deps, Relax(table, id, deps), k)
  {
    if deps != [] {
      var n := |deps| - 1;
      var before, dep := deps[..n], deps[n];
      var cell := Relax(table, id, before);
      assert dep in deps && forall d | d in deps :: d in before || d == dep;
      assert forall d | d in before :: d in deps;
      ParentIsTheFirstLongest(table, id, before);
      if dep in table && table[dep].length + 1 > cell.length {
        LongerTakesOver(table, id, deps);
        assert FirstLongestDependencyAt(table, deps, Relax(table, id, deps), n);
      } else {
        assert Relax(table, id, deps) == cell;
        if k :| 0 <= k < n && FirstLongestDependencyAt(table, before, cell, k) {
          assert forall j | 0 <= j < n :: before[j] == deps[j];
          assert FirstLongestDependencyAt(table, deps, cell, k);
        } else {
          assert forall d | d in before :: d !in table;
        }
      }
    }
  }

  lemma LongerTakesOver(table: Table, id: StoryId, deps: seq<StoryId>)
    requires id !in table && id !in deps && deps != []
    requires
      var n := |deps| - 1;
      deps[n] in table && table[deps[n]].length + 1 > Relax(table, id, deps[..n]).length
    ensures FirstLongestDependencyAt(table, deps, Relax(table, id, deps), |deps| - 1)
  {
    var n := |deps| - 1;
    var before := deps[..n];
    RelaxIsJustified(table, id, before);
    assert deps[n] in deps;
    forall j | 0 <= j < n && deps[j] in table
      ensures table[deps[j]].length < table[deps[n]].length
    {
      assert before[j] in before;
    }
  }

  ghost predicate FirstLongestDependencyAt(table: Table, deps: seq<StoryId>, cell: Cell, k: nat)
    requires k < |deps|
  {
    && deps[k] in table && cell == Cell(table[deps[k]].length + 1, Some(deps[k]))
    && (forall j | 0 <= j < k && deps[j] in table :: table[deps[j]].length < table[deps[k]].length)
    && (forall j | k <= j < |deps| && deps[j] in table :: table[deps[j]].length <= table[deps[k]].length)
  }

  ghost predicate Justified(g: Graph, order: seq<StoryId>, table: Table, i: nat)
    requires i < |order|
  {
    && order[i] in table
    && var cell := table[order[i]];
       if cell.parent.None? then cell.length == 1
       else
         && Edge(g, order[i], cell.parent.value)
         && (|| cell.parent == Some(order[i])
             || (&& cell.parent.value in order[..i] && cell.parent.value in table
                 && cell.length == table[cell.parent.value].length + 1))
  }

  /** A parent is the story itself or comes earlier in the order, cycles or not. */
  lemma {:induction false} TableIsJustified(g: Graph, order: seq<StoryId>)
    requires Distinct(order)
    requires forall id | id in order :: id in g
    ensures forall id :: id in LongestTable(g, order) <==> id in order
    ensures forall i | 0 <= i < |order| :: Justified(g, order, LongestTable(g, order), i)
  {
    if order != [] {
      var n := |order| - 1;
      var before, table := LongestTable(g, order[..n]), LongestTable(g, order);
      TableIsJustified(g, order[..n]);
      RelaxIsJustified(before, order[n], g[order[n]]);
      forall i | 0 <= i < |order|
        ensures Justified(g, order, table, i)
      {
        assert order[..n][..i] == order[..i];
        if i < n {
          assert Justified(g, order[..n], before, i);
          assert order[..n][i] == order[i] != order[n];
        }
      }
    }
  }

  /** The last entry of `id` in its own list at which nothing later makes the path longer. */
  ghost predicate OwnEntrySurvivesAt(table: Table, id: StoryId, deps: seq<StoryId>, k: nat)
    requires k < |deps|
  {
    && deps[k] == id
    && forall j | k < j < |deps| ::
         deps[j] != id && (deps[j] in table ==> table[deps[j]].length + 1 <= Relax(table, id, deps[..k + 1]).length)
  }

  ghost predicate OwnEntrySurvives(table: Table, id: StoryId, deps: seq<StoryId>) {
    exists k | 0 <= k < |deps| :: OwnEntrySurvivesAt(table, id, deps, k)
  }

  /** Exactly when a story becomes its own parent: it lists itself, and no later entry makes its path longer. */
  lemma {:induction false} OwnParentIffEntrySurvives(table: Table, id: StoryId, deps: seq<StoryId>)
    requires id !in table
    ensures Relax(table, id, deps).parent == Some(id) <==> OwnEntrySurvives(table, id, deps)
  {
    if deps != [] {
      var n := |deps| - 1;
      var before, dep := deps[..n], deps[n];
      OwnParentIffEntrySurvives(table, id, before);
      assert deps[..n + 1] == deps;
      if dep == id {
        assert OwnEntrySurvivesAt(table, id, deps, n);
      } else {
        LaterEntry(table, id, deps);
      }
    }
  }

  /** An entry after the own one decides by the same comparison as the inner loop. */
  lemma {:induction false} LaterEntry(table: Table, id: StoryId, deps: seq<StoryId>)
    requires id !in table && deps != [] && deps[|deps| - 1] != id
    ensures
      var n := |deps| - 1;
      var longer := deps[n] in table && table[deps[n]].length + 1 > Relax(table, id, deps[..n]).length;
      OwnEntrySurvives(table, id, deps) <==> OwnEntrySurvives(table, id, deps[..n]) && !longer
  {
    var n := |deps| - 1;
    var before := deps[..n];
    if OwnEntrySurvives(table, id, deps) {
      var k :| 0 <= k < |deps| && OwnEntrySurvivesAt(table, id, deps, k);
      assert before[..k + 1] == deps[..k + 1];
      assert OwnEntrySurvivesAt(table, id, before, k);
      LengthStays(table, id, before, k);
      assert deps[n] != id;
    }
    if OwnEntrySurvives(table, id, before) && !(deps[n] in table && table[deps[n]].length + 1 > Relax(table, id, before).length) {
      var k :| 0 <= k < |before| && OwnEntrySurvivesAt(table, id, before, k);
      assert before[..k + 1] == deps[..k + 1];
      LengthStays(table, id, before, k);
      forall j | k < j < |deps|
        ensures deps[j] != id && (deps[j] in table ==> table[deps[j]].length + 1 <= Relax(table, id, deps[..k + 1]).length)
      {
        if j < n {
          assert before[j] == deps[j];
        }
      }
      assert OwnEntrySurvivesAt(table, id, deps, k);
    }
  }

  lemma {:induction false} LengthStays(table: Table, id: StoryId, deps: seq<StoryId>, k: nat)
    requires id !in table && k < |deps| && OwnEntrySurvivesAt(table, id, deps, k)
    ensures Relax(table, id, deps).length == Relax(table, id, deps[..k + 1]).length
    decreases |deps|
  {
    if k == |deps| - 1 {
      assert deps[..k + 1] == deps;
    } else {
      var before := deps[..|deps| - 1];
      assert before[..k + 1] == deps[..k + 1];
      assert OwnEntrySurvivesAt(table, id, before, k);
      LengthStays(table, id, before, k);
    }
  }

  /** On an acyclic graph the table holds the heights. */
  lemma {:induction false} TableHoldsHeights(g: Graph, order: seq<StoryId>)
    requires Acyclic(g) && Distinct(order) && DependenciesFirst(g, order)
    requires forall id | id in order :: id in g
    ensures forall id | id in order :: id in LongestTable(g, order) && LongestTable(g, order)[id].length == Height(g, id)
  {
    AcyclicHasNoSelfDependency(g);
    if order != [] {
      var n := |order| - 1;
      var id, before := order[n], LongestTable(g, order[..n]);
      forall i, d | 0 <= i < n && Edge(g, order[..n][i], d)
        ensures d in order[..n][..i]
      {
        assert order[..n][..i] == order[..i];
      }
      TableHoldsHeights(g, order[..n]);
      TableIsJustified(g, order[..n]);
      RelaxIsJustified(before, id, g[id]);
      var cell := Relax(before, id, g[id]);
      if cell.parent.Some? {
        HeightExceedsDependency(g, id, cell.parent.value);
      }
      if Height(g, id) > 1 {
        var d := HeightComesFromDependency(g, id);
        assert Edge(g, order[n], d) && d in order[..n];
      }
    }
  }

  // ----- the walk along parents -----

  /** Where the walk is after `n` steps from `id`; `None` once it has ended. */
  function Walk(table: Table, id: StoryId, n: nat): Option<StoryId> {
    if n == 0 then Some(id)
    else
      var at := Walk(table, id, n - 1);
      if at.Some? && at.value in table then table[at.value].parent else None
  }

  ghost predicate WalkEnds(table: Table, id: StoryId) {
    exists n :: Walk(table, id, n).None?
  }

  /** A story that is its own parent holds the walk for ever. */
  lemma {:induction false} SelfParentNeverEnds(table: Table, id: StoryId, n: nat, x: StoryId, m: nat)
    requires Walk(table, id, n) == Some(x) && x in table && table[x].parent == Some(x)
    ensures Walk(table, id, n + m) == Some(x)
  {
    if m > 0 {
      SelfParentNeverEnds(table, id, n, x, m - 1);
    }
  }

  lemma {:induction false} EndedStaysEnded(table: Table, id: StoryId, n: nat, m: nat)
    requires Walk(table, id, n).None?
    ensures Walk(table, id, n + m).None?
  {
    if m > 0 {
      EndedStaysEnded(table, id, n, m - 1);
    }
  }

  /** A cell is written once, when its story's turn comes. */
  lemma {:induction false} CellIsRelaxed(g: Graph, order: seq<StoryId>, i: nat)
    requires Distinct(order) && i < |order|
    requires forall id | id in order :: id in g
    ensures forall id :: id in LongestTable(g, order) <==> id in order
    ensures LongestTable(g, order)[order[i]] == Relax(LongestTable(g, order[..i]), order[i], g[order[i]])
  {
    var n := |order| - 1;
    if n > 0 {
      CellIsRelaxed(g, order[..n], if i < n then i else 0);
    }
    assert i < n ==> order[..n][..i] == order[..i] && order[..n][i] == order[i];
  }

  lemma {:induction false} ParentIsSelfOrKnown(table: Table, id: StoryId, deps: seq<StoryId>)
    ensures
      var parent := Relax(table, id, deps).parent;
      parent.Some? ==> parent.value == id || parent.value in table
  {
    if deps != [] {
      ParentIsSelfOrKnown(table, id, deps[..|deps| - 1]);
    }
  }

  /** The walk visits some story that became its own parent. */
  ghost predicate MeetsSelfParent(table: Table, id: StoryId) {
    exists n, x :: Walk(table, id, n) == Some(x) && x in table && table[x].parent == Some(x)
  }

  lemma {:induction false} StepsShift(table: Table, id: StoryId, next: StoryId, n: nat)
    requires id in table && table[id].parent == Some(next)
    ensures Walk(table, id, n + 1) == Walk(table, next, n)
  {
    assert Walk(table, id, 1) == Some(next);
    if n > 0 {
      StepsShift(table, id, next, n - 1);
    }
  }

  lemma {:induction false} WalkDescends(g: Graph, order: seq<StoryId>, i: nat) returns (n: nat)
    requires Distinct(order) && i < |order|
    requires forall id | id in order :: id in g
    requires !MeetsSelfParent(LongestTable(g, order), order[i])
    ensures Walk(LongestTable(g, order), order[i], n).None?
    decreases i
  {
    var table, id := LongestTable(g, order), order[i];
    CellIsRelaxed(g, order, i);
    ParentIsSelfOrKnown(LongestTable(g, order[..i]), id, g[id]);
    assert Walk(table, id, 0) == Some(id);
    if table[id].parent.None? {
      n := 1;
      assert Walk(table, id, 1).None?;
    } else {
      var next := table[id].parent.value;
      if i > 0 {
        assert Distinct(order[..i]);
        CellIsRelaxed(g, order[..i], 0);
      }
      var j :| 0 <= j < i && order[j] == next;
      forall m: nat, x | Walk(table, next, m) == Some(x) && x in table && table[x].parent == Some(x)
        ensures false
      {
        StepsShift(table, id, next, m);
      }
      n := WalkDescends(g, order, j);
      StepsShift(table, id, next, n);
      n := n + 1;
    }
  }

  /** Exactly when the final loop terminates: no story on the walk became its own parent. */
  lemma WalkEndsIffNoSelfParent(g: Graph, order: seq<StoryId>, id: StoryId)
    requires Distinct(order) && id in order
    requires forall x | x in order :: x in g
    ensures WalkEnds(LongestTable(g, order), id) <==> !MeetsSelfParent(LongestTable(g, order), id)
  {
    var table := LongestTable(g, order);
    if MeetsSelfParent(table, id) {
      var n, x :| Walk(table, id, n) == Some(x) && x in table && table[x].parent == Some(x);
      forall m: nat
        ensures Walk(table, id, m).Some?
      {
        SelfParentNeverEnds(table, id, n, x, m);
        if Walk(table, id, m).None? {
          EndedStaysEnded(table, id, m, n);
        }
      }
    } else {
      var i :| 0 <= i < |order| && order[i] == id;
      var n := WalkDescends(g, order, i);
    }
  }

  /** A story whose last dependency is itself becomes its own parent, whatever else it depends on. */
  lemma SelfDependencyMakesAnEndlessWalk(g: Graph, order: seq<StoryId>, id: StoryId)
    requires Distinct(order) && id in order
    requires forall x | x in order :: x in g
    requires g[id] != [] && g[id][|g[id]| - 1] == id
    ensures !WalkEnds(LongestTable(g, order), id)
  {
    var i :| 0 <= i < |order| && order[i] == id;
    CellIsRelaxed(g, order, i);
    var table := LongestTable(g, order);
    assert Walk(table, id, 0) == Some(id) && table[id].parent == Some(id);
    WalkEndsIffNoSelfParent(g, order, id);
  }

  datatype Best = Best(id: StoryId, length: nat)

  /** The first story with the longest entry. */
  function Pick(stories: seq<StoryDep>, table: Table): Best {
    if stories == [] then Best("", 0)
    else
      var n := |stories| - 1;
      var before, id := Pick(stories[..n], table), stories[n].storyId;
      if id in table && table[id].length > before.length then Best(id, table[id].length) else before
  }

  ghost predicate LongestFrom(stories: seq<StoryDep>, table: Table, best: StoryId, length: nat) {
    && (forall s | s in stories :: s.storyId in table && table[s.storyId].length <= length)
    && (stories != [] ==> exists k | 0 <= k < |stories| :: FirstLongestAt(stories, table, best, length, k))
  }

  /** Story number `k` has the length, and no earlier one has it. */
  ghost predicate FirstLongestAt(stories: seq<StoryDep>, table: Table, best: StoryId, length: nat, k: nat)
    requires k < |stories|
  {
    && stories[k].storyId == best && best in table && table[best].length == length
    && forall j | 0 <= j < k :: stories[j].storyId in table ==> table[stories[j].storyId].length < length
  }

  lemma {:induction false} PickIsLongest(stories: seq<StoryDep>, table: Table)
    requires forall s | s in stories :: s.storyId in table && table[s.storyId].length >= 1
    ensures LongestFrom(stories, table, Pick(stories, table).id, Pick(stories, table).length)
  {
    if stories != [] {
      var n := |stories| - 1;
      var before, now := Pick(stories[..n], table), Pick(stories, table);
      PickIsLongest(stories[..n], table);
      assert stories[n] in stories;
      assert forall s | s in stories :: s in stories[..n] || s == stories[n];
      if table[stories[n].storyId].length > before.length {
        forall j | 0 <= j < n
          ensures stories[j].storyId in table && table[stories[j].storyId].length < now.length
        {
          assert stories[..n][j] in stories[..n];
        }
        assert FirstLongestAt(stories, table, now.id, now.length, n);
      } else {
        var k :| 0 <= k < n && FirstLongestAt(stories[..n], table, before.id, before.length, k);
        assert forall j | 0 <= j <= k :: stories[..n][j] == stories[j];
        assert FirstLongestAt(stories, table, now.id, now.length, k);
      }
    }
  }

  method PickLongest(stories: seq<StoryDep>, table: Table) returns (best: StoryId, length: nat)
    requires forall s | s in stories :: s.storyId in table && table[s.storyId].length >= 1
    ensures Best(best, length) == Pick(stories, table)
    ensures LongestFrom(stories, table, best, length)
  {
    best, length := "", 0;
    for k := 0 to |stories|
      invariant Best(best, length) == Pick(stories[..k], table)
    {
      assert stories[..k + 1][..k] == stories[..k];
      if table[stories[k].storyId].length > length {
        length := table[stories[k].storyId].length;
        best := stories[k].storyId;
      }
    }
    assert stories[..|stories|] == stories;
    PickIsLongest(stories, table);
  }

  /** The source's last loop runs for ever where the answer here is `Endless`. */
  datatype Answer = Path(ids: seq<StoryId>) | Endless

  /**
   * The last loop: from `best` along parents, a chain as long as the table says; it would go on
   * for ever, pushing the same story, exactly from a story that is its own parent.
   */
  method WalkParents(g: Graph, order: seq<StoryId>, table: Table, best: StoryId) returns (answer: Answer)
    requires Distinct(order) && best in order && best in table
    requires forall i | 0 <= i < |order| :: Justified(g, order, table, i)
    requires best in g
    ensures answer.Endless? <==> MeetsSelfParent(table, best)
    ensures answer.Path? ==>
              var path := answer.ids;
              |path| == table[best].length && IsChain(g, path) && Distinct(path) && path[0] == best
  {
    var path := [];
    var cur := Some(best);
    ghost var at :| 0 <= at < |order| && order[at] == best;
    while cur.Some?
      invariant WalkedTo(table, best, path, cur) && ChainTo(g, table, best, path, cur)
      invariant Distinct(path) && (cur.Some? ==> Unvisited(order, path, cur.value, at))
      decreases cur.Some?, at
    {
      assert Justified(g, order, table, at);
      var next := table[cur.value].parent;
      if next == cur {
        return Endless;
      }
      ghost var i := at;
      if next.Some? {
        at :| 0 <= at < i && order[at] == next.value;
      }
      WalkGoesOn(g, order, table, best, path, cur.value, next, i, at);
      path := path + [cur.value];
      cur := next;
    }
    WalkStaysInPath(table, best, path);
    answer := Path(path);
  }

  /** The path is the walk so far, and `cur` is where it goes next. */
  ghost predicate WalkedTo(table: Table, best: StoryId, path: seq<StoryId>, cur: Option<StoryId>) {
    && cur == Walk(table, best, |path|)
    && (cur.Some? ==> cur.value in table)
    && forall n: nat | n < |path| ::
         Walk(table, best, n) == Some(path[n]) && path[n] in table && table[path[n]].parent != Some(path[n])
  }

  /** The path is a chain; what is still to come is as long as the table says. */
  ghost predicate ChainTo(g: Graph, table: Table, best: StoryId, path: seq<StoryId>, cur: Option<StoryId>) {
    && |path| + (if cur.Some? && cur.value in table then table[cur.value].length else 0) == (if best in table then table[best].length else 0)
    && if path == [] then cur == Some(best)
       else IsChain(g, path) && path[0] == best && (cur.Some? ==> Edge(g, path[|path| - 1], cur.value))
  }

  /** Neither the story at `at` nor an earlier one of the order is on the path. */
  ghost predicate Unvisited(order: seq<StoryId>, path: seq<StoryId>, id: StoryId, at: int) {
    && 0 <= at < |order| && order[at] == id
    && id !in path && forall x | x in order[..at] :: x !in path
  }

  lemma EarlierIsUnvisited(order: seq<StoryId>, path: seq<StoryId>, id: StoryId, i: nat, at: nat)
    requires Distinct(order) && Unvisited(order, path, id, i) && at < i
    ensures Unvisited(order, path + [id], order[at], at)
  {
    assert forall x | x in order[..at] + [order[at]] :: x in order[..i] && x != order[i];
  }

  /** One turn of the loop: `id` goes onto the path, its parent comes next. */
  lemma WalkGoesOn(
    g: Graph, order: seq<StoryId>, table: Table, best: StoryId, path: seq<StoryId>,
    id: StoryId, next: Option<StoryId>, i: nat, at: nat)
    requires Distinct(order) && Distinct(path) && Unvisited(order, path, id, i) && Justified(g, order, table, i)
    requires WalkedTo(table, best, path, Some(id)) && ChainTo(g, table, best, path, Some(id)) && id in g
    requires next == table[id].parent && next != Some(id)
    requires next.Some? ==> at < i && order[at] == next.value
    ensures WalkedTo(table, best, path + [id], next) && Distinct(path + [id])
    ensures ChainTo(g, table, best, path + [id], next)
    ensures next.Some? ==> Unvisited(order, path + [id], next.value, at)
  {
    if next.Some? {
      EarlierIsUnvisited(order, path, id, i, at);
    }
    if path == [] {
      assert path + [id] == [id];
    } else {
      ChainSnoc(g, path, id);
    }
  }

  lemma WalkStaysInPath(table: Table, best: StoryId, path: seq<StoryId>)
    requires Walk(table, best, |path|).None?
    requires forall n: nat | n < |path| ::
               Walk(table, best, n) == Some(path[n]) && path[n] in table && table[path[n]].parent != Some(path[n])
    ensures !MeetsSelfParent(table, best)
  {
    forall n: nat, x | Walk(table, best, n) == Some(x) && x in table
      ensures table[x].parent != Some(x)
    {
      if n >= |path| {
        EndedStaysEnded(table, best, |path|, n - |path|);
      }
    }
  }

  /** The table of a backlog. */
  function TableOf(stories: seq<StoryDep>): Table
    requires forall id | id in OrderOf(stories) :: id in GraphOf(stories)
  {
    LongestTable(GraphOf(stories), OrderOf(stories))
  }

  /** The walk from the chosen story comes to story number `i` of the order, whose entry for itself survives. */
  ghost predicate OwnEntryReached(stories: seq<StoryDep>, n: nat, i: nat)
    requires forall id | id in OrderOf(stories) :: id in GraphOf(stories)
  {
    var g, order := GraphOf(stories), OrderOf(stories);
    && i < |order|
    && Walk(TableOf(stories), Pick(stories, TableOf(stories)).id, n) == Some(order[i])
    && OwnEntrySurvives(LongestTable(g, order[..i]), order[i], g[order[i]])
  }

  ghost predicate RunsForEver(stories: seq<StoryDep>) {
    && (forall id | id in OrderOf(stories) :: id in GraphOf(stories))
    && exists n, i :: OwnEntryReached(stories, n, i)
  }

  lemma MeetsIffOwnEntryReached(stories: seq<StoryDep>)
    requires forall id | id in OrderOf(stories) :: id in GraphOf(stories)
    requires Distinct(OrderOf(stories))
    ensures MeetsSelfParent(TableOf(stories), Pick(stories, TableOf(stories)).id) <==> RunsForEver(stories)
  {
    var g, order, table := GraphOf(stories), OrderOf(stories), TableOf(stories);
    var best := Pick(stories, table).id;
    TableIsJustified(g, order);
    if MeetsSelfParent(table, best) {
      var n, x :| Walk(table, best, n) == Some(x) && x in table && table[x].parent == Some(x);
      var i :| 0 <= i < |order| && order[i] == x;
      OwnParentAt(g, order, i);
      assert OwnEntryReached(stories, n, i);
    }
    if RunsForEver(stories) {
      var n, i :| OwnEntryReached(stories, n, i);
      OwnParentAt(g, order, i);
    }
  }

  lemma OwnParentAt(g: Graph, order: seq<StoryId>, i: nat)
    requires Distinct(order) && i < |order|
    requires forall id | id in order :: id in g
    ensures order[i] in LongestTable(g, order)
    ensures LongestTable(g, order)[order[i]].parent == Some(order[i]) <==>
              OwnEntrySurvives(LongestTable(g, order[..i]), order[i], g[order[i]])
  {
    CellIsRelaxed(g, order, i);
    if i > 0 {
      CellIsRelaxed(g, order[..i], 0);
    }
    assert order[i] !in order[..i];
    OwnParentIffEntrySurvives(LongestTable(g, order[..i]), order[i], g[order[i]]);
  }

  /** A backlog of one story runs for ever exactly if the story lists itself. */
  lemma OneStoryRunsForEverIffItListsItself(stories: seq<StoryDep>, a: StoryId, deps: seq<StoryId>)
    requires stories == [StoryDep(a, deps)]
    ensures RunsForEver(stories) <==> a in deps
  {
    var g := GraphOf(stories);
    OneStory(stories, a, deps);
    if a in deps {
      var table := LongestTable(g, [a]);
      assert [a][..0] == [] && LongestTable(g, []) == map[];
      assert table == map[a := Relax(map[], a, deps)];
      OwnEntrySurvivesAlone(a, deps);
      RelaxIsPositive(map[], a, deps);
      assert stories[..0] == [] && Pick([], table) == Best("", 0);
      assert Pick(stories, table).id == a;
      assert Walk(table, a, 0) == Some(a);
      assert OwnEntryReached(stories, 0, 0);
    } else {
      assert NoSelfDependency(g);
      NoSelfDependencyEnds(stories);
    }
  }

  lemma OneStory(stories: seq<StoryDep>, a: StoryId, deps: seq<StoryId>)
    requires stories == [StoryDep(a, deps)]
    ensures GraphOf(stories) == map[a := deps] && OrderOf(stories) == [a]
  {
    var g := map[a := deps];
    assert stories[..0] == [] && GraphOf(stories[..0]) == map[];
    assert GraphOf(stories) == g;
    assert Ids(stories) == [a] && [a][1..] == [];
    var start := Trail({}, []);
    var empty: seq<StoryId> := [];
    assert start.(visited := start.visited + {a}) == Trail({a}, []) && empty + [a] == [a];
    NothingNew(g, Trail({a}, []), deps);
    assert Dfs(g, start, a) == Trail({a}, [a]);
    assert DfsAll(g, start, [a]) == DfsAll(g, Trail({a}, [a]), []);
  }

  lemma {:induction false} NothingNew(g: Graph, t: Trail, deps: seq<StoryId>)
    requires g.Keys <= t.visited
    ensures DfsAll(g, t, deps) == t
  {
    if deps != [] {
      NothingNew(g, t, deps[1..]);
    }
  }

  /** With nothing tabulated, the last own entry survives. */
  lemma {:induction false} OwnEntrySurvivesAlone(a: StoryId, deps: seq<StoryId>)
    requires a in deps
    ensures OwnEntrySurvives(map[], a, deps)
  {
    var n := |deps| - 1;
    if deps[n] == a {
      assert OwnEntrySurvivesAt(map[], a, deps, n);
    } else {
      OwnEntrySurvivesAlone(a, deps[..n]);
      LaterEntry(map[], a, deps);
    }
  }

  /** Dependencies are searched in the order of their list, and stories in the order of the backlog. */
  lemma OrderOfAFork(stories: seq<StoryDep>, a: StoryId, b: StoryId, c: StoryId, d: StoryId)
    requires a != b && a != c && a != d && b != c && b != d && c != d
    requires stories == [StoryDep(a, [b, c]), StoryDep(b, []), StoryDep(c, []), StoryDep(d, [])]
    ensures OrderOf(stories) == [b, c, a, d]
  {
    var g := map[a := [b, c], b := [], c := [], d := []];
    GraphOfAFork(stories, a, b, c, d);
    var t0, t1 := Trail({}, []), Trail({a}, []);
    var t2, t3, t4, t5 := Trail({a, b}, [b]), Trail({a, b, c}, [b, c]), Trail({a, b, c}, [b, c, a]), Trail({a, b, c, d}, [b, c, a, d]);
    LeafIsAppended(g, t1, b, t2);
    LeafIsAppended(g, t2, c, t3);
    LeafIsAppended(g, t4, d, t5);
    assert [b, c][1..] == [c] && [c][1..] == [];
    assert DfsAll(g, t2, [c]) == DfsAll(g, t3, []);
    assert DfsAll(g, t1, [b, c]) == t3;
    assert t0.(visited := t0.visited + {a}) == t1 && [b, c] + [a] == [b, c, a];
    assert Dfs(g, t0, a) == t4;
    assert Ids(stories) == [a, b, c, d];
    assert [a, b, c, d][1..] == [b, c, d] && [b, c, d][1..] == [c, d] && [c, d][1..] == [d] && [d][1..] == [];
    assert DfsAll(g, t4, [d]) == DfsAll(g, t5, []);
    assert DfsAll(g, t4, [c, d]) == DfsAll(g, t4, [d]);
    assert DfsAll(g, t4, [b, c, d]) == DfsAll(g, t4, [c, d]);
  }

  lemma GraphOfAFork(stories: seq<StoryDep>, a: StoryId, b: StoryId, c: StoryId, d: StoryId)
    requires a != b && a != c && a != d && b != c && b != d && c != d
    requires stories == [StoryDep(a, [b, c]), StoryDep(b, []), StoryDep(c, []), StoryDep(d, [])]
    ensures GraphOf(stories) == map[a := [b, c], b := [], c := [], d := []]
  {
    var g := map[a := [b, c], b := [], c := [], d := []];
    assert Ids(stories) == [a, b, c, d];
    GraphOfKeys(stories);
    assert GraphOf(stories).Keys == g.Keys;
    GraphOfLookup(stories, 0);
    GraphOfLookup(stories, 1);
    GraphOfLookup(stories, 2);
    GraphOfLookup(stories, 3);
  }

  lemma LeafIsAppended(g: Graph, t: Trail, id: StoryId, after: Trail)
    requires id in g && g[id] == [] && id !in t.visited
    requires after == Trail(t.visited + {id}, t.order + [id])
    ensures Dfs(g, t, id) == after
  {
  }

  lemma NoSelfDependencyEnds(stories: seq<StoryDep>)
    requires NoSelfDependency(GraphOf(stories))
    ensures !RunsForEver(stories)
  {
  }

  /**
   * On any backlog: the source's walk goes on for ever exactly if it comes to a story that lists
   * itself with no later entry making its path longer; otherwise the result is a dependency chain
   * of distinct present stories, and on an acyclic backlog no chain is longer.
   */
  method ComputeCriticalPath(stories: seq<StoryDep>) returns (answer: Answer)
    ensures answer.Endless? <==> RunsForEver(stories)
    ensures stories == [] ==> answer == Path([])
    ensures NoSelfDependency(GraphOf(stories)) ==> answer.Path?
    ensures answer.Path? && stories != [] && "" !in Ids(stories) ==> answer.ids != []
    ensures answer.Path? && answer.ids != [] ==> IsChain(GraphOf(stories), answer.ids) && Distinct(answer.ids)
    ensures answer.Path? && answer.ids != [] && Acyclic(GraphOf(stories)) ==>
              forall c | IsChain(GraphOf(stories), c) :: |c| <= |answer.ids|
  {
    if NoSelfDependency(GraphOf(stories)) {
      NoSelfDependencyEnds(stories);
    }
    if stories == [] {
      return Path([]);
    }
    var g := GraphOf(stories);
    GraphOfKeys(stories);
    var order := PostOrder(stories);
    assert forall id | id in order :: id in SetOf(order);
    assert forall id | id in g :: id in SetOf(order);
    var table := FillTable(g, order);
    TableIsJustified(g, order);
    LengthsArePositive(g, order);
    StoriesAreKeys(stories);
    var best, length := PickLongest(stories, table);
    PickedIsAStory(stories, table, best, length);
    MeetsIffOwnEntryReached(stories);
    if Acyclic(g) {
      TableHoldsHeights(g, order);
      ChainsFitTheTable(stories, table, best, length);
    }
    if length <= 1 {
      ShortestIsNoWalk(g, order, best);
      answer := Path(if best != "" then [best] else []);
    } else {
      answer := WalkParents(g, order, table, best);
    }
  }

  lemma PickedIsAStory(stories: seq<StoryDep>, table: Table, best: StoryId, length: nat)
    requires stories != [] && LongestFrom(stories, table, best, length)
    ensures best in Ids(stories) && best in GraphOf(stories) && best in table && table[best].length == length
  {
    var k :| 0 <= k < |stories| && FirstLongestAt(stories, table, best, length, k);
    assert Ids(stories)[k] == best;
    GraphOfKeys(stories);
  }

  lemma StoriesAreKeys(stories: seq<StoryDep>)
    ensures forall s | s in stories :: s.storyId in GraphOf(stories) && s.storyId in Ids(stories)
  {
    GraphOfKeys(stories);
    forall s | s in stories
      ensures s.storyId in Ids(stories)
    {
      var j :| 0 <= j < |stories| && stories[j] == s;
      assert Ids(stories)[j] == s.storyId;
    }
  }

  /** A story whose path has length one has no parent. */
  lemma ShortestIsNoWalk(g: Graph, order: seq<StoryId>, best: StoryId)
    requires Distinct(order) && best in order && forall id | id in order :: id in g
    requires best in LongestTable(g, order) && LongestTable(g, order)[best].length <= 1
    ensures !MeetsSelfParent(LongestTable(g, order), best)
  {
    var table := LongestTable(g, order);
    var i :| 0 <= i < |order| && order[i] == best;
    CellIsRelaxed(g, order, i);
    ParentIsLonger(LongestTable(g, order[..i]), best, g[best]);
    assert Walk(table, best, 1) == table[best].parent == None;
    assert Walk(table, best, 0) == Some(best);
    WalkStaysInPath(table, best, [best]);
  }

  lemma {:induction false} ParentIsLonger(table: Table, id: StoryId, deps: seq<StoryId>)
    ensures Relax(table, id, deps).parent.Some? ==> Relax(table, id, deps).length >= 2
  {
    if deps != [] {
      ParentIsLonger(table, id, deps[..|deps| - 1]);
      RelaxIsPositive(table, id, deps[..|deps| - 1]);
    }
  }

  lemma {:induction false} ChainsFitTheTable(stories: seq<StoryDep>, table: Table, best: StoryId, length: nat)
    requires Acyclic(GraphOf(stories))
    requires forall id | id in GraphOf(stories) :: id in table && table[id].length == Height(GraphOf(stories), id)
    requires LongestFrom(stories, table, best, length)
    ensures forall c | IsChain(GraphOf(stories), c) :: |c| <= length
  {
    GraphOfKeys(stories);
    forall c | IsChain(GraphOf(stories), c)
      ensures |c| <= length
    {
      assert HasChain(GraphOf(stories), c[0], |c|);
      assert c[0] in Ids(stories);
      var j :| 0 <= j < |stories| && Ids(stories)[j] == c[0];
      assert stories[j] in stories && stories[j].storyId == c[0];
    }
  }

  lemma {:induction false} LengthsArePositive(g: Graph, order: seq<StoryId>)
    requires forall id | id in order :: id in g
    ensures forall id | id in LongestTable(g, order) :: LongestTable(g, order)[id].length >= 1
  {
    if order != [] {
      var n := |order| - 1;
      LengthsArePositive(g, order[..n]);
      RelaxIsPositive(LongestTable(g, order[..n]), order[n], g[order[n]]);
    }
  }

  lemma {:induction false} RelaxIsPositive(table: Table, id: StoryId, deps: seq<StoryId>)
    ensures Relax(table, id, deps).length >= 1
  {
    if deps != [] {
      RelaxIsPositive(table, id, deps[..|deps| - 1]);
    }
  }
}
