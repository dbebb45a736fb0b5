/**
 * Dependency graphs of stories: chains, acyclicity and height.  Acyclicity says that no
 * dependency chain returns to where it started; everything else is derived from that.
 */
module DependencyGraph {
  import opened Common

  type StoryId = string

  /** What the graph algorithms look at in a story; a missing `depends_on` is the empty list. */
  datatype StoryDep = StoryDep(storyId: StoryId, dependsOn: seq<StoryId>)

  type Graph = map<StoryId, seq<StoryId>>

  /** `new Map(stories.map(s => [s.story_id, s]))`: a later duplicate replaces an earlier one. */
  function GraphOf(stories: seq<StoryDep>): Graph {
    if stories == [] then map[]
    else
      var last := stories[|stories| - 1];
      GraphOf(stories[..|stories| - 1])[last.storyId := last.dependsOn]
  }

  function Ids(stories: seq<StoryDep>): seq<StoryId> {
    seq(|stories|, i requires 0 <= i < |stories| => stories[i].storyId)
  }

  lemma {:induction false} GraphOfKeys(stories: seq<StoryDep>)
    ensures forall id :: id in GraphOf(stories) <==> id in Ids(stories)
  {
    if stories != [] {
      var n := |stories| - 1;
      GraphOfKeys(stories[..n]);
      assert Ids(stories) == Ids(stories[..n]) + [stories[n].storyId];
    }
  }

  lemma {:induction false} GraphOfLookup(stories: seq<StoryDep>, i: nat)
    requires i < |stories|
    requires Distinct(Ids(stories))
    ensures stories[i].storyId in GraphOf(stories)
    ensures GraphOf(stories)[stories[i].storyId] == stories[i].dependsOn
  {
    var n := |stories| - 1;
    if i < n {
      assert Ids(stories[..n]) == Ids(stories)[..n];
      assert Ids(stories)[i] != Ids(stories)[n];
      GraphOfLookup(stories[..n], i);
    }
  }

  /** A dependency that is present in the graph. */
  ghost predicate Edge(g: Graph, a: StoryId, b: StoryId) {
    a in g && b in g && b in g[a]
  }

  /** A non-empty walk along dependencies through stories that are present. */
  ghost predicate IsChain(g: Graph, c: seq<StoryId>) {
    && |c| >= 1
    && c[0] in g
    && forall i | 0 <= i < |c| - 1 :: Edge(g, c[i], c[i + 1])
  }

  ghost predicate Acyclic(g: Graph) {
    forall c | IsChain(g, c) && |c| >= 2 :: c[0] != c[|c| - 1]
  }

  ghost predicate NoSelfDependency(g: Graph) {
    forall id | id in g :: id !in g[id]
  }

  /** Every dependency is a story of the backlog. */
  ghost predicate NoDangling(g: Graph) {
    forall id, d | id in g && d in g[id] :: d in g
  }

  lemma AcyclicHasNoSelfDependency(g: Graph)
    requires Acyclic(g)
    ensures NoSelfDependency(g)
  {
    forall id | id in g
      ensures id !in g[id]
    {
      assert id in g[id] ==> IsChain(g, [id, id]);
    }
  }

  lemma ChainStaysInGraph(g: Graph, c: seq<StoryId>)
    requires IsChain(g, c)
    ensures forall i | 0 <= i < |c| :: c[i] in g
  {
    forall i | 0 <= i < |c|
      ensures c[i] in g
    {
      if i > 0 {
        assert Edge(g, c[i - 1], c[i - 1 + 1]);
      }
    }
  }

  lemma ChainsAreDistinctWhenAcyclic(g: Graph, c: seq<StoryId>)
    requires Acyclic(g) && IsChain(g, c)
    ensures Distinct(c)
  {
    ChainStaysInGraph(g, c);
    forall i, j | 0 <= i < j < |c|
      ensures c[i] != c[j]
    {
      var d := c[i..j + 1];
      forall k | 0 <= k < |d| - 1
        ensures Edge(g, d[k], d[k + 1])
      {
        assert Edge(g, c[i + k], c[i + k + 1]);
      }
      assert IsChain(g, d);
      assert d[0] != d[|d| - 1];
    }
  }

  lemma ChainsAreBounded(g: Graph, c: seq<StoryId>)
    requires Acyclic(g) && IsChain(g, c)
    ensures |c| <= |g.Keys|
  {
    ChainsAreDistinctWhenAcyclic(g, c);
    ChainStaysInGraph(g, c);
    DistinctIsNoLongerThanItsRange(c, g.Keys);
  }

  lemma ChainTail(g: Graph, c: seq<StoryId>)
    requires IsChain(g, c) && |c| >= 2
    ensures IsChain(g, c[1..]) && Edge(g, c[0], c[1])
  {
    assert Edge(g, c[0], c[0 + 1]);
    forall i | 0 <= i < |c[1..]| - 1
      ensures Edge(g, c[1..][i], c[1..][i + 1])
    {
      assert Edge(g, c[i + 1], c[i + 1 + 1]);
    }
  }

  lemma ChainCons(g: Graph, a: StoryId, c: seq<StoryId>)
    requires IsChain(g, c) && Edge(g, a, c[0])
    ensures IsChain(g, [a] + c)
  {
    var d := [a] + c;
    forall i | 0 <= i < |d| - 1
      ensures Edge(g, d[i], d[i + 1])
    {
      if i > 0 {
        assert Edge(g, c[i - 1], c[i - 1 + 1]);
      }
    }
  }

  lemma ChainSnoc(g: Graph, c: seq<StoryId>, a: StoryId)
    requires IsChain(g, c) && Edge(g, c[|c| - 1], a)
    ensures IsChain(g, c + [a])
  {
    var d := c + [a];
    forall i | 0 <= i < |d| - 1
      ensures Edge(g, d[i], d[i + 1])
    {
      if i < |c| - 1 {
        assert Edge(g, c[i], c[i + 1]);
      }
    }
  }

  ghost predicate HasChain(g: Graph, id: StoryId, n: int) {
    exists c :: IsChain(g, c) && c[0] == id && |c| == n
  }

  /** The number of stories on a longest dependency chain that starts at `id`. */
  ghost function Height(g: Graph, id: StoryId): (h: nat)
    requires Acyclic(g) && id in g
    ensures h >= 1 && HasChain(g, id, h)
    ensures forall n | HasChain(g, id, n) :: n <= h
  {
    assert HasChain(g, id, 1) by {
      assert IsChain(g, [id]);
    }
    forall n | HasChain(g, id, n)
      ensures n <= |g.Keys|
    {
      var c :| IsChain(g, c) && c[0] == id && |c| == n;
      ChainsAreBounded(g, c);
    }
    LongestUpTo(g, id, |g.Keys|)
  }

  ghost function LongestUpTo(g: Graph, id: StoryId, bound: nat): (h: nat)
    requires HasChain(g, id, 1)
    requires forall n | HasChain(g, id, n) :: n <= bound
    ensures h >= 1 && HasChain(g, id, h)
    ensures forall n | HasChain(g, id, n) :: n <= h
  {
    if HasChain(g, id, bound) then bound else LongestUpTo(g, id, bound - 1)
  }

  lemma HeightExceedsDependency(g: Graph, a: StoryId, b: StoryId)
    requires Acyclic(g) && Edge(g, a, b)
    ensures Height(g, a) > Height(g, b)
  {
    assert HasChain(g, b, Height(g, b));
    var c :| IsChain(g, c) && c[0] == b && |c| == Height(g, b);
    ChainCons(g, a, c);
    assert HasChain(g, a, |c| + 1);
  }

  /** Stories under computation stand higher than a dependency of the last of them. */
  lemma StackIsHigher(g: Graph, stack: set<StoryId>, id: StoryId, d: StoryId)
    requires Acyclic(g) && stack <= g.Keys && Edge(g, id, d)
    requires forall s | s in stack :: Height(g, s) > Height(g, id)
    ensures forall s | s in stack + {id} :: Height(g, s) > Height(g, d)
  {
    HeightExceedsDependency(g, id, d);
  }

  /** The recursion equation: a height above one comes from some dependency. */
  lemma HeightComesFromDependency(g: Graph, a: StoryId) returns (b: StoryId)
    requires Acyclic(g) && a in g && Height(g, a) > 1
    ensures Edge(g, a, b) && Height(g, a) == Height(g, b) + 1
  {
    var c :| IsChain(g, c) && c[0] == a && |c| == Height(g, a);
    ChainTail(g, c);
    b := c[1];
    assert HasChain(g, b, |c[1..]|);
    HeightExceedsDependency(g, a, b);
  }

  /** In an acyclic graph every non-empty set of stories has one that waits for none of them. */
  lemma LowestMember(g: Graph, candidates: set<StoryId>) returns (id: StoryId)
    requires Acyclic(g) && candidates <= g.Keys && candidates != {}
    ensures id in candidates
    ensures forall d | d in g[id] :: d !in candidates
  {
    id :| id in candidates;
    while exists d :: d in candidates && Edge(g, id, d)
      invariant id in candidates
      decreases Height(g, id)
    {
      var d :| d in candidates && Edge(g, id, d);
      HeightExceedsDependency(g, id, d);
      id := d;
    }
  }
}
