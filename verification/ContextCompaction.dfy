/**
 * Context compaction: pinning and per-turn summaries first, then one summary for the whole
 * unpinned chain if that was not enough, then a sliding window over what is unpinned.
 */
module ContextCompaction {
  import opened Common
  import opened Text

  datatype Turn = Turn(role: string, content: string, tokenCount: int, pinned: bool)

  datatype ContextWindow = ContextWindow(turns: seq<Turn>, totalTokens: int)

  datatype Config = Config(
    level1NodeTokenThreshold: int,
    level2ChainTokenThreshold: int,
    keepFirstTurns: int,
    keepLastTurns: int,
    compressionRateFloor: real,
    slidingWindowMaxTurns: int)

  datatype PinnedSection = PinnedSection(name: string, text: string)

  const COMPACTED := " [compacted]"
  const CHAIN_COMPACTED := " [chain-compacted]"

  /** `Math.ceil(n / 4)` */
  function Quarter(n: nat): nat {
    (n + 3) / 4
  }

  /** `Math.floor(n * rate)` */
  function Scaled(n: nat, rate: real): int {
    (n as real * rate).Floor
  }

  /** `s.slice(0, n)` for a non-negative `n` */
  function Prefix(s: string, n: nat): string {
    if n < |s| then s[..n] else s
  }

  function Tokens(): Turn -> int {
    (t: Turn) => t.tokenCount
  }

  predicate IsPinned(t: Turn) {
    t.pinned
  }

  function Pinned(turns: seq<Turn>): seq<Turn> {
    Filter(turns, IsPinned)
  }

  predicate IsUnpinned(t: Turn) {
    !t.pinned
  }

  function Unpinned(turns: seq<Turn>): seq<Turn> {
    Filter(turns, IsUnpinned)
  }

  // ----- level 1 -----

  function SummarizeTurn(t: Turn, rate: real): Turn {
    var truncated := Prefix(t.content, Max(50, Scaled(|t.content|, rate)));
    var summary := if truncated != "" && truncated[|truncated| - 1] == ' ' then TrimEnd(truncated) else truncated;
    t.(content := summary + COMPACTED, tokenCount := Quarter(|summary| + 12))
  }

  predicate KeptByPosition(i: nat, n: nat, cfg: Config) {
    i < cfg.keepFirstTurns || i >= n - cfg.keepLastTurns
  }

  function CompressNode(t: Turn, i: nat, n: nat, cfg: Config): Turn {
    if t.pinned then t
    else if KeptByPosition(i, n, cfg) then t.(pinned := true)
    else if t.tokenCount > cfg.level1NodeTokenThreshold then SummarizeTurn(t, cfg.compressionRateFloor)
    else t
  }

  function CompressedNodes(turns: seq<Turn>, cfg: Config): seq<Turn> {
    seq(|turns|, i requires 0 <= i < |turns| => CompressNode(turns[i], i, |turns|, cfg))
  }

  function WindowOf(turns: seq<Turn>): ContextWindow {
    ContextWindow(turns, Sum(turns, Tokens()))
  }

  function CompressLargeNodes(window: ContextWindow, cfg: Config): ContextWindow {
    WindowOf(CompressedNodes(window.turns, cfg))
  }

  // ----- level 2 -----

  function Joined(turns: seq<Turn>): string {
    if turns == [] then ""
    else if |turns| == 1 then turns[0].content
    else turns[0].content + " " + Joined(turns[1..])
  }

  function MergeAndSummarize(turns: seq<Turn>, rate: real): seq<Turn> {
    if turns == [] then []
    else
      var combined := Joined(turns);
      var targetLen := Max(100, Scaled(|combined|, rate));
      [Turn("system", Prefix(combined, targetLen) + CHAIN_COMPACTED, Quarter(targetLen + 18), false)]
  }

  function CompressChain(window: ContextWindow, cfg: Config): ContextWindow {
    if window.totalTokens <= cfg.level2ChainTokenThreshold then window
    else WindowOf(Pinned(window.turns) + MergeAndSummarize(Unpinned(window.turns), cfg.compressionRateFloor))
  }

  // ----- sliding window -----

  /** Filters by a running index over the unpinned turns, as the source's `idx++` does. */
  function WithoutOldest(turns: seq<Turn>, excess: int, idx: nat): seq<Turn> {
    if turns == [] then []
    else if turns[0].pinned then [turns[0]] + WithoutOldest(turns[1..], excess, idx)
    else (if idx < excess then [] else [turns[0]]) + WithoutOldest(turns[1..], excess, idx + 1)
  }

  function ApplySlidingWindow(window: ContextWindow, cfg: Config): ContextWindow {
    var excess := |Unpinned(window.turns)| - cfg.slidingWindowMaxTurns;
    if excess <= 0 then window else WindowOf(WithoutOldest(window.turns, excess, 0))
  }

  // ----- the pipeline -----

  function InjectedTurns(sections: seq<PinnedSection>): seq<Turn> {
    seq(|sections|, i requires 0 <= i < |sections| =>
      Turn("system", sections[i].text, Quarter(|sections[i].text|), true))
  }

  function Inject(window: ContextWindow, sections: seq<PinnedSection>): ContextWindow {
    if sections == [] then window
    else
      var injected := InjectedTurns(sections);
      ContextWindow(injected + window.turns, Sum(injected, Tokens()) + window.totalTokens)
  }

  function CompactContextWindow(window: ContextWindow, cfg: Config, sections: seq<PinnedSection>): ContextWindow {
    var level1 := CompressLargeNodes(Inject(window, sections), cfg);
    var level2 := if level1.totalTokens > cfg.level2ChainTokenThreshold then CompressChain(level1, cfg) else level1;
    ApplySlidingWindow(level2, cfg)
  }

  predicate Level2Fires(window: ContextWindow, cfg: Config, sections: seq<PinnedSection>) {
    CompressLargeNodes(Inject(window, sections), cfg).totalTokens > cfg.level2ChainTokenThreshold
  }

  // ----- arithmetic -----

  lemma ScaledBound(n: nat, rate: real)
    requires rate <= 0.8
    ensures 5 * Scaled(n, rate) <= 4 * n
  {
    assert n as real * rate <= n as real * 0.8;
  }

  lemma {:induction false} TrimEndIsNoLonger(s: string)
    ensures |TrimEnd(s)| <= |s|
  {
    if s != "" {
      TrimEndIsNoLonger(s[..|s| - 1]);
    }
  }

  /** The count is a quarter of the text, rounded up, and only a pinned turn may be empty. */
  ghost predicate Honest(t: Turn) {
    (t.pinned || t.content != "") && t.tokenCount == Quarter(|t.content|)
  }

  ghost predicate AtLeastHonest(t: Turn) {
    (t.pinned || t.content != "") && t.tokenCount >= Quarter(|t.content|)
  }

  ghost predicate SaneConfig(cfg: Config) {
    cfg.compressionRateFloor <= 0.8 && cfg.level1NodeTokenThreshold >= 16
  }

  /** Summarising a turn above the threshold never raises its count. */
  lemma Level1NeverRaises(t: Turn, i: nat, n: nat, cfg: Config)
    requires Honest(t) && SaneConfig(cfg)
    ensures CompressNode(t, i, n, cfg).tokenCount <= t.tokenCount
    ensures AtLeastHonest(CompressNode(t, i, n, cfg))
  {
    ScaledBound(|t.content|, cfg.compressionRateFloor);
    var truncated := Prefix(t.content, Max(50, Scaled(|t.content|, cfg.compressionRateFloor)));
    TrimEndIsNoLonger(truncated);
  }

  /** A summary keeps role and pin, and a beginning of the text that does not end in a space, plus the marker. */
  lemma SummaryIsAPrefix(t: Turn, rate: real) returns (n: nat)
    ensures n <= |t.content| && n <= Max(50, Scaled(|t.content|, rate))
    ensures SummarizeTurn(t, rate).content == t.content[..n] + COMPACTED
    ensures n > 0 ==> t.content[n - 1] != ' '
    ensures SummarizeTurn(t, rate).role == t.role && SummarizeTurn(t, rate).pinned == t.pinned
  {
    var truncated := Prefix(t.content, Max(50, Scaled(|t.content|, rate)));
    n := |truncated|;
    if truncated != "" && truncated[|truncated| - 1] == ' ' {
      n := TrimEndIsAPrefix(truncated);
    }
  }

  lemma {:induction false} TrimEndIsAPrefix(s: string) returns (n: nat)
    ensures n <= |s| && TrimEnd(s) == s[..n] && (n > 0 ==> !IsSpace(s[n - 1]))
  {
    n := |s|;
    if s != "" && IsSpace(s[|s| - 1]) {
      n := TrimEndIsAPrefix(s[..|s| - 1]);
    }
  }

  /**
   * Exactly how much a summary keeps.  The target is the rate's share of the text, at least 50
   * characters and at most all of them; it is kept in full unless it ends in a space, and then
   * without its trailing white space.  The count is a quarter of that plus 12, rounded up.
   */
  lemma SummaryIsExact(t: Turn, rate: real) returns (target: nat, n: nat)
    ensures
      var share := (|t.content| as real * rate).Floor;
      var goal := if share > 50 then share else 50;
      target == if goal < |t.content| then goal else |t.content|
    ensures n <= target
    ensures target == 0 || t.content[target - 1] != ' ' ==> n == target
    ensures target > 0 && t.content[target - 1] == ' ' ==>
              (n == 0 || !IsSpace(t.content[n - 1])) && forall k | n <= k < target :: IsSpace(t.content[k])
    ensures
      var s := SummarizeTurn(t, rate);
      && s.role == t.role && s.pinned == t.pinned && s.content == t.content[..n] + " [compacted]"
      && 4 * s.tokenCount - 4 < n + 12 <= 4 * s.tokenCount
  {
    var truncated := Prefix(t.content, Max(50, Scaled(|t.content|, rate)));
    target := |truncated|;
    n := target;
    if truncated != "" && truncated[|truncated| - 1] == ' ' {
      n := TrimmedEnd(truncated);
    }
  }

  /** Where trimming the end stops: everything behind is white space. */
  lemma {:induction false} TrimmedEnd(s: string) returns (n: nat)
    ensures n <= |s| && TrimEnd(s) == s[..n]
    ensures n == 0 || !IsSpace(s[n - 1])
    ensures forall k | n <= k < |s| :: IsSpace(s[k])
  {
    n := |s|;
    if s != "" && IsSpace(s[|s| - 1]) {
      n := TrimmedEnd(s[..|s| - 1]);
    }
  }

  /**
   * What level 1 does to each turn: pinned turns stay, the first and last ones are only pinned, and
   * of the others exactly those above the threshold are summarised.
   */
  lemma Level1ByTurns(window: ContextWindow, cfg: Config, i: nat)
    requires i < |window.turns|
    ensures
      var before, after, n := window.turns[i], CompressLargeNodes(window, cfg).turns, |window.turns|;
      && |after| == n
      && (before.pinned ==> after[i] == before)
      && (!before.pinned && (i < cfg.keepFirstTurns || n - cfg.keepLastTurns <= i) ==>
            after[i] == Turn(before.role, before.content, before.tokenCount, true))
      && (!before.pinned && cfg.keepFirstTurns <= i < n - cfg.keepLastTurns ==>
            && !after[i].pinned
            && (before.tokenCount <= cfg.level1NodeTokenThreshold ==> after[i] == before)
            && (before.tokenCount > cfg.level1NodeTokenThreshold ==> after[i] == SummarizeTurn(before, cfg.compressionRateFloor)))
    ensures CompressLargeNodes(window, cfg).totalTokens == Sum(CompressLargeNodes(window, cfg).turns, Tokens())
  {
  }

  /** Where the text of turn `i` begins among the joined texts. */
  function Offset(turns: seq<Turn>, i: nat): nat
    requires i <= |turns|
  {
    if i == 0 then 0 else |turns[0].content| + 1 + Offset(turns[1..], i - 1)
  }

  /** The joined texts: each stands at its offset, in order, with one space between any two and nothing else. */
  lemma {:induction false} JoinedByOffsets(turns: seq<Turn>, i: nat)
    requires i < |turns|
    ensures
      var s, o := Joined(turns), Offset(turns, i);
      && o + |turns[i].content| <= |s| && s[o..o + |turns[i].content|] == turns[i].content
      && (i < |turns| - 1 ==> o + |turns[i].content| < |s| && s[o + |turns[i].content|] == ' ')
      && (i == |turns| - 1 ==> o + |turns[i].content| == |s|)
  {
    if i > 0 {
      JoinedByOffsets(turns[1..], i - 1);
      var head, rest := turns[0].content + " ", Joined(turns[1..]);
      assert Joined(turns) == head + rest;
      SliceBehind(head, rest, Offset(turns[1..], i - 1), |turns[i].content|);
    }
  }

  lemma SliceBehind(head: string, rest: string, o: nat, n: nat)
    requires o + n <= |rest|
    ensures (head + rest)[|head| + o..|head| + o + n] == rest[o..o + n]
    ensures o + n < |rest| ==> (head + rest)[|head| + o + n] == rest[o + n]
  {
  }

  /**
   * Exactly what the chain summary is: one system turn, unpinned, with as much of the joined texts
   * as the rate allows but at least 100 characters where there are as many.  Its count is that of
   * the allowance, whether or not there is text for it.
   */
  lemma ChainSummaryIsExact(turns: seq<Turn>, rate: real) returns (goal: nat, kept: nat)
    requires turns != []
    ensures
      var share := (|Joined(turns)| as real * rate).Floor;
      goal == if share > 100 then share else 100
    ensures kept == if goal < |Joined(turns)| then goal else |Joined(turns)|
    ensures |MergeAndSummarize(turns, rate)| == 1
    ensures
      var summary := MergeAndSummarize(turns, rate)[0];
      && summary.role == "system" && !summary.pinned
      && summary.content == Joined(turns)[..kept] + " [chain-compacted]"
      && 4 * summary.tokenCount - 4 < goal + 18 <= 4 * summary.tokenCount
  {
    goal := Max(100, Scaled(|Joined(turns)|, rate));
    kept := if goal < |Joined(turns)| then goal else |Joined(turns)|;
    QuarterRoundsUp(goal + 18);
    PrefixIsASlice(Joined(turns), goal);
    MergedTurn(turns, rate, goal);
  }

  lemma MergedTurn(turns: seq<Turn>, rate: real, goal: nat)
    requires turns != [] && goal == Max(100, Scaled(|Joined(turns)|, rate))
    ensures MergeAndSummarize(turns, rate)
         == [Turn("system", Prefix(Joined(turns), goal) + " [chain-compacted]", Quarter(goal + 18), false)]
  {
  }

  lemma QuarterRoundsUp(n: nat)
    ensures 4 * Quarter(n) - 4 < n <= 4 * Quarter(n)
  {
  }

  lemma PrefixIsASlice(s: string, n: nat)
    ensures Prefix(s, n) == s[..if n < |s| then n else |s|]
  {
  }

  /** Nothing to merge gives no summary. */
  lemma NothingToMerge(rate: real)
    ensures MergeAndSummarize([], rate) == []
  {
  }

  /**
   * When level 2 fires: strictly above its threshold.  Then the pinned turns come first, in order,
   * and the summary of the unpinned ones last; at the threshold or below nothing changes.
   */
  lemma ChainByThreshold(window: ContextWindow, cfg: Config)
    ensures window.totalTokens <= cfg.level2ChainTokenThreshold ==> CompressChain(window, cfg) == window
    ensures window.totalTokens > cfg.level2ChainTokenThreshold ==>
              CompressChain(window, cfg).turns
              == Filter(window.turns, (t: Turn) => t.pinned)
                 + MergeAndSummarize(Filter(window.turns, (t: Turn) => !t.pinned), cfg.compressionRateFloor)
  {
    FilterAgrees(window.turns, IsPinned, (t: Turn) => t.pinned);
    FilterAgrees(window.turns, IsUnpinned, (t: Turn) => !t.pinned);
  }

  /** Injected sections become pinned system turns with their text, counted by quarters rounded up. */
  lemma InjectionByTurns(window: ContextWindow, sections: seq<PinnedSection>, i: nat)
    requires i < |sections|
    ensures
      var all := Inject(window, sections);
      && |all.turns| == |sections| + |window.turns| && all.turns[|sections|..] == window.turns
      && all.turns[i].role == "system" && all.turns[i].content == sections[i].text && all.turns[i].pinned
      && 4 * all.turns[i].tokenCount - 4 < |sections[i].text| <= 4 * all.turns[i].tokenCount
  {
  }

  /** The chain summary is a beginning of the unpinned texts joined by spaces, plus its marker. */
  lemma {:induction false} ChainSummaryIsAPrefix(turns: seq<Turn>, rate: real) returns (n: nat)
    requires turns != []
    ensures n <= |Joined(turns)|
    ensures MergeAndSummarize(turns, rate)[0].content == Joined(turns)[..n] + CHAIN_COMPACTED
    ensures n == |Joined(turns)| || n >= 100
  {
    n := |Prefix(Joined(turns), Max(100, Scaled(|Joined(turns)|, rate)))|;
  }

  /** No turn that comes out counts fewer tokens than its text has. */
  lemma ChainSummaryIsHonest(turns: seq<Turn>, rate: real)
    ensures forall t | t in MergeAndSummarize(turns, rate) :: AtLeastHonest(t)
  {
  }

  lemma {:induction false} JoinedLength(turns: seq<Turn>)
    requires forall t | t in turns :: AtLeastHonest(t) && !t.pinned
    ensures |Joined(turns)| + 1 <= 5 * Sum(turns, Tokens()) || turns == []
  {
    if turns != [] {
      assert AtLeastHonest(turns[0]);
    }
    if |turns| > 1 {
      JoinedLength(turns[1..]);
    } else if |turns| == 1 {
      assert Sum(turns, Tokens()) == turns[0].tokenCount + Sum(turns[1..], Tokens());
    }
  }

  /** The chain summary costs at most 29 tokens more than the turns it replaces. */
  lemma ChainSummaryCost(turns: seq<Turn>, rate: real)
    requires rate <= 0.8
    requires forall t | t in turns :: AtLeastHonest(t) && !t.pinned
    ensures Sum(MergeAndSummarize(turns, rate), Tokens()) <= Sum(turns, Tokens()) + 29
  {
    if turns != [] {
      var combined := Joined(turns);
      JoinedLength(turns);
      ScaledBound(|combined|, rate);
      var summary := MergeAndSummarize(turns, rate);
      assert Sum(summary, Tokens()) == summary[0].tokenCount + Sum(summary[1..], Tokens());
    }
  }

  lemma {:induction false} PinnedPartition(turns: seq<Turn>)
    ensures multiset(Pinned(turns)) + multiset(Unpinned(turns)) == multiset(turns)
    ensures |Pinned(turns)| + |Unpinned(turns)| == |turns|
  {
    if turns != [] {
      PinnedPartition(turns[1..]);
      assert turns == [turns[0]] + turns[1..];
    }
  }

  lemma {:induction false} SumOfPartition(turns: seq<Turn>)
    ensures Sum(Pinned(turns), Tokens()) + Sum(Unpinned(turns), Tokens()) == Sum(turns, Tokens())
  {
    PinnedPartition(turns);
    SumAppend(Pinned(turns), Unpinned(turns), Tokens());
    SumIsPermutationInvariant(Pinned(turns) + Unpinned(turns), turns, Tokens());
  }

  lemma {:induction false} Level1Sum(turns: seq<Turn>, k: nat, cfg: Config)
    requires k <= |turns| && SaneConfig(cfg)
    requires forall t | t in turns :: Honest(t)
    ensures Sum(CompressedNodes(turns, cfg)[..k], Tokens()) <= Sum(turns[..k], Tokens())
  {
    if k > 0 {
      Level1Sum(turns, k - 1, cfg);
      var out := CompressedNodes(turns, cfg);
      assert out[..k] == out[..k - 1] + [out[k - 1]] && turns[..k] == turns[..k - 1] + [turns[k - 1]];
      SumAppend(out[..k - 1], [out[k - 1]], Tokens());
      SumAppend(turns[..k - 1], [turns[k - 1]], Tokens());
      Level1NeverRaises(turns[k - 1], k - 1, |turns|, cfg);
    }
  }

  lemma {:induction false} WindowOnlyDrops(turns: seq<Turn>, excess: int, idx: nat)
    requires forall t | t in turns :: AtLeastHonest(t)
    ensures Sum(WithoutOldest(turns, excess, idx), Tokens()) <= Sum(turns, Tokens())
    ensures forall t | t in WithoutOldest(turns, excess, idx) :: t in turns
  {
    if turns != [] {
      assert turns[0] in turns;
      if turns[0].pinned {
        WindowOnlyDrops(turns[1..], excess, idx);
        SumAppend([turns[0]], WithoutOldest(turns[1..], excess, idx), Tokens());
      } else {
        WindowOnlyDrops(turns[1..], excess, idx + 1);
        SumAppend([turns[0]], WithoutOldest(turns[1..], excess, idx + 1), Tokens());
        assert [] + WithoutOldest(turns[1..], excess, idx + 1) == WithoutOldest(turns[1..], excess, idx + 1);
      }
    }
  }

  lemma Level1IsHonest(turns: seq<Turn>, cfg: Config)
    requires SaneConfig(cfg) && forall t | t in turns :: Honest(t)
    ensures forall t | t in CompressedNodes(turns, cfg) :: AtLeastHonest(t)
    ensures Sum(CompressedNodes(turns, cfg), Tokens()) <= Sum(turns, Tokens())
  {
    var out := CompressedNodes(turns, cfg);
    forall i | 0 <= i < |out|
      ensures AtLeastHonest(out[i])
    {
      Level1NeverRaises(turns[i], i, |turns|, cfg);
    }
    Level1Sum(turns, |turns|, cfg);
    assert out[..|turns|] == out && turns[..|turns|] == turns;
  }

  /** The pipeline adds at most 29 tokens to the input and the injected sections. */
  lemma {:induction false} CompactionCost(window: ContextWindow, cfg: Config, sections: seq<PinnedSection>)
    requires SaneConfig(cfg)
    requires forall t | t in window.turns :: Honest(t)
    ensures
      var out := CompactContextWindow(window, cfg, sections);
      && out.totalTokens <= Sum(window.turns, Tokens()) + Sum(InjectedTurns(sections), Tokens()) + 29
      && forall t | t in out.turns :: AtLeastHonest(t)
  {
    var turns := Inject(window, sections).turns;
    assert forall t | t in turns :: t in InjectedTurns(sections) || t in window.turns;
    SumAppend(InjectedTurns(sections), window.turns, Tokens());
    Level1IsHonest(turns, cfg);
    ChainCost(CompressedNodes(turns, cfg), cfg.compressionRateFloor);
    PipelineIsWindowed(window, cfg, sections);
    var level2 := BeforeWindow(window, cfg, sections);
    WindowOnlyDrops(level2, |Unpinned(level2)| - cfg.slidingWindowMaxTurns, 0);
  }

  /** Level 2 on a whole window: at most 29 tokens more, and every count still honest. */
  lemma ChainCost(turns: seq<Turn>, rate: real)
    requires rate <= 0.8 && forall t | t in turns :: AtLeastHonest(t)
    ensures
      var out := Pinned(turns) + MergeAndSummarize(Unpinned(turns), rate);
      Sum(out, Tokens()) <= Sum(turns, Tokens()) + 29 && forall t | t in out :: AtLeastHonest(t)
  {
    ChainSummaryCost(Unpinned(turns), rate);
    ChainSummaryIsHonest(Unpinned(turns), rate);
    SumOfPartition(turns);
    SumAppend(Pinned(turns), MergeAndSummarize(Unpinned(turns), rate), Tokens());
  }

  /** The 29 is attained: one short turn that level 2 replaces by its summary. */
  lemma CompactionCostIsAttained()
    ensures
      exists window: ContextWindow, cfg: Config ::
        && SaneConfig(cfg) && (forall t | t in window.turns :: Honest(t))
        && CompactContextWindow(window, cfg, []).totalTokens == Sum(window.turns, Tokens()) + 29
  {
    var t := Turn("user", "x", 1, false);
    var window := ContextWindow([t], 1);
    var cfg := Config(16, 0, 0, 0, 0.3, 20);
    var level1 := CompressedNodes([t], cfg);
    assert level1 == [t];
    assert Sum([t], Tokens()) == 1 + Sum([], Tokens());
    assert Unpinned([t]) == [t] && Pinned([t]) == [];
    var summary := MergeAndSummarize([t], 0.3);
    assert (1 as real * 0.3).Floor == 0;
    assert summary[0].tokenCount == 30;
    assert [] + summary == summary;
    assert Sum(summary, Tokens()) == 30 + Sum(summary[1..], Tokens());
    assert Unpinned(summary) == summary;
    assert CompactContextWindow(window, cfg, []) == WindowOf(summary);
  }

  // ----- structure -----

  /** Pinned, or kept by position when the first `taken` places are gone. */
  predicate ProtectedAt(turns: seq<Turn>, i: nat, cfg: Config, taken: nat)
    requires i < |turns|
  {
    turns[i].pinned || i + taken < cfg.keepFirstTurns || i >= |turns| - cfg.keepLastTurns
  }

  /** The turns that are protected when the first `taken` places are gone, in order, with the pin flag set. */
  function Protected(turns: seq<Turn>, i: nat, cfg: Config, taken: nat): seq<Turn>
    requires i <= |turns|
    decreases |turns| - i
  {
    if i == |turns| then []
    else (if ProtectedAt(turns, i, cfg, taken) then [turns[i].(pinned := true)] else []) + Protected(turns, i + 1, cfg, taken)
  }

  lemma {:induction false} Level1Pins(turns: seq<Turn>, i: nat, cfg: Config)
    requires i <= |turns|
    ensures Pinned(CompressedNodes(turns, cfg)[i..]) == Protected(turns, i, cfg, 0)
    decreases |turns| - i
  {
    if i < |turns| {
      Level1Pins(turns, i + 1, cfg);
      var out := CompressedNodes(turns, cfg);
      assert out[i..] == [out[i]] + out[i + 1..];
      assert out[i..][1..] == out[i + 1..];
      assert [] + Pinned(out[i + 1..]) == Pinned(out[i + 1..]);
    }
  }

  lemma {:induction false} WindowKeepsPinned(turns: seq<Turn>, excess: int, idx: nat)
    ensures Pinned(WithoutOldest(turns, excess, idx)) == Pinned(turns)
  {
    if turns != [] {
      var next := if turns[0].pinned then idx else idx + 1;
      var rest := WithoutOldest(turns[1..], excess, next);
      WindowKeepsPinned(turns[1..], excess, next);
      assert ([turns[0]] + rest)[1..] == rest && [] + rest == rest;
    }
  }

  /** Exactly the newest unpinned turns remain. */
  lemma {:induction false} WindowKeepsNewest(turns: seq<Turn>, excess: int, idx: nat)
    ensures
      var unpinned := Unpinned(turns);
      var drop := Max(0, excess - idx);
      Unpinned(WithoutOldest(turns, excess, idx)) == if drop <= |unpinned| then unpinned[drop..] else []
  {
    if turns != [] {
      var t, next := turns[0], if turns[0].pinned then idx else idx + 1;
      var rest := WithoutOldest(turns[1..], excess, next);
      WindowKeepsNewest(turns[1..], excess, next);
      assert turns == [t] + turns[1..] && [] + rest == rest;
      UnpinnedCons(t, turns[1..]);
      UnpinnedCons(t, rest);
    }
  }

  lemma UnpinnedCons(t: Turn, rest: seq<Turn>)
    ensures Unpinned([t] + rest) == if t.pinned then Unpinned(rest) else [t] + Unpinned(rest)
  {
    assert ([t] + rest)[1..] == rest;
  }

  lemma {:induction false} PinnedIsPinned(turns: seq<Turn>)
    ensures Pinned(Pinned(turns)) == Pinned(turns) && Unpinned(Pinned(turns)) == []
  {
    FilterAll(Pinned(turns), IsPinned);
    PinnedPartition(Pinned(turns));
  }

  lemma ChainStructure(turns: seq<Turn>, rate: real)
    ensures
      var out := Pinned(turns) + MergeAndSummarize(Unpinned(turns), rate);
      Pinned(out) == Pinned(turns) && Unpinned(out) == MergeAndSummarize(Unpinned(turns), rate)
  {
    var summary := MergeAndSummarize(Unpinned(turns), rate);
    FilterAppend(Pinned(turns), summary, IsPinned);
    FilterAppend(Pinned(turns), summary, IsUnpinned);
    PinnedIsPinned(turns);
    FilterAll(summary, IsUnpinned);
    PinnedPartition(summary);
  }

  /** How many of `n` unpinned turns the window keeps. */
  function WindowSize(n: nat, cfg: Config): nat {
    if n <= cfg.slidingWindowMaxTurns then n else Max(0, cfg.slidingWindowMaxTurns)
  }

  /** What reaches the sliding window. */
  function BeforeWindow(window: ContextWindow, cfg: Config, sections: seq<PinnedSection>): seq<Turn> {
    var level1 := CompressedNodes(Inject(window, sections).turns, cfg);
    if Level2Fires(window, cfg, sections) then
      Pinned(level1) + MergeAndSummarize(Unpinned(level1), cfg.compressionRateFloor)
    else level1
  }

  /**
   * Pinned turns, injected sections and the first and last kept turns survive, unchanged but for
   * the pin flag and in the same order; the total is exact; of the unpinned turns exactly the
   * newest remain, all of them or as many as the window holds, and at most one if level 2 fired.
   */
  lemma CompactionStructure(window: ContextWindow, cfg: Config, sections: seq<PinnedSection>)
    ensures
      var out := CompactContextWindow(window, cfg, sections);
      var unpinned := Unpinned(BeforeWindow(window, cfg, sections));
      && Pinned(out.turns) == Protected(Inject(window, sections).turns, 0, cfg, 0)
      && out.totalTokens == Sum(out.turns, Tokens())
      && |Unpinned(out.turns)| ==
           (if |unpinned| <= cfg.slidingWindowMaxTurns then |unpinned|
            else if cfg.slidingWindowMaxTurns > 0 then cfg.slidingWindowMaxTurns
            else 0)
      && Unpinned(out.turns) == unpinned[|unpinned| - |Unpinned(out.turns)|..]
      && (Level2Fires(window, cfg, sections) ==> |Unpinned(out.turns)| <= 1)
  {
    PipelineIsWindowed(window, cfg, sections);
    BeforeWindowStructure(window, cfg, sections);
    SlidingStructure(BeforeWindow(window, cfg, sections), cfg);
  }

  lemma PipelineIsWindowed(window: ContextWindow, cfg: Config, sections: seq<PinnedSection>)
    ensures CompactContextWindow(window, cfg, sections)
         == ApplySlidingWindow(WindowOf(BeforeWindow(window, cfg, sections)), cfg)
  {
  }

  lemma BeforeWindowStructure(window: ContextWindow, cfg: Config, sections: seq<PinnedSection>)
    ensures
      var before := BeforeWindow(window, cfg, sections);
      && Pinned(before) == Protected(Inject(window, sections).turns, 0, cfg, 0)
      && (Level2Fires(window, cfg, sections) ==> |Unpinned(before)| <= 1)
  {
    var turns := Inject(window, sections).turns;
    var level1 := CompressedNodes(turns, cfg);
    Level1Pins(turns, 0, cfg);
    assert level1[0..] == level1;
    ChainStructure(level1, cfg.compressionRateFloor);
  }

  lemma SlidingStructure(turns: seq<Turn>, cfg: Config)
    ensures
      var out, unpinned := ApplySlidingWindow(WindowOf(turns), cfg), Unpinned(turns);
      && Pinned(out.turns) == Pinned(turns)
      && out.totalTokens == Sum(out.turns, Tokens())
      && |Unpinned(out.turns)| == WindowSize(|unpinned|, cfg)
      && Unpinned(out.turns) == unpinned[|unpinned| - |Unpinned(out.turns)|..]
  {
    var excess := |Unpinned(turns)| - cfg.slidingWindowMaxTurns;
    if excess > 0 {
      DroppingStructure(turns, excess);
    }
  }

  lemma DroppingStructure(turns: seq<Turn>, excess: int)
    requires excess > 0
    ensures
      var out, unpinned := WithoutOldest(turns, excess, 0), Unpinned(turns);
      && Pinned(out) == Pinned(turns)
      && |Unpinned(out)| == Max(0, |unpinned| - excess)
      && Unpinned(out) == unpinned[|unpinned| - |Unpinned(out)|..]
  {
    WindowKeepsPinned(turns, excess, 0);
    WindowKeepsNewest(turns, excess, 0);
  }

  // ----- when compaction adds tokens -----

  /** The unpinned turns that level 1 leaves, the only ones that level 2 and the window touch. */
  function Loose(window: ContextWindow, cfg: Config, sections: seq<PinnedSection>): seq<Turn> {
    Unpinned(CompressedNodes(Inject(window, sections).turns, cfg))
  }

  /** What the summary of `Loose` counts. */
  function SummaryCount(window: ContextWindow, cfg: Config, sections: seq<PinnedSection>): nat {
    Quarter(Max(100, Scaled(|Joined(Loose(window, cfg, sections))|, cfg.compressionRateFloor)) + 18)
  }

  /** Level 2 makes a summary, the window keeps it, and it counts more than all turns that are not protected. */
  predicate AddsTokens(window: ContextWindow, cfg: Config, sections: seq<PinnedSection>) {
    var turns := Inject(window, sections).turns;
    && Level2Fires(window, cfg, sections) && cfg.slidingWindowMaxTurns >= 1 && Loose(window, cfg, sections) != []
    && SummaryCount(window, cfg, sections) > Sum(turns, Tokens()) - Sum(Protected(turns, 0, cfg, 0), Tokens())
  }

  /** Exactly when compaction adds tokens to the input and the injected sections. */
  lemma CompactionAddsTokensIff(window: ContextWindow, cfg: Config, sections: seq<PinnedSection>)
    requires SaneConfig(cfg)
    requires forall t | t in window.turns :: Honest(t)
    ensures
      var turns := Inject(window, sections).turns;
      CompactContextWindow(window, cfg, sections).totalTokens > Sum(turns, Tokens()) <==> AddsTokens(window, cfg, sections)
  {
    var turns := Inject(window, sections).turns;
    var level1 := CompressedNodes(turns, cfg);
    InjectedIsHonest(window, sections);
    Level1IsHonest(turns, cfg);
    Level1Pins(turns, 0, cfg);
    assert level1[0..] == level1;
    SumOfPartition(level1);
    if Level2Fires(window, cfg, sections) {
      OutputOfLevel2(window, cfg, sections);
      UnpinnedCountsAreNonNegative(level1);
    } else {
      PipelineIsWindowed(window, cfg, sections);
      WindowOnlyDrops(level1, |Unpinned(level1)| - cfg.slidingWindowMaxTurns, 0);
    }
  }

  lemma InjectedIsHonest(window: ContextWindow, sections: seq<PinnedSection>)
    requires forall t | t in window.turns :: Honest(t)
    ensures forall t | t in Inject(window, sections).turns :: Honest(t)
  {
    assert forall t | t in Inject(window, sections).turns :: t in InjectedTurns(sections) || t in window.turns;
  }

  lemma {:induction false} UnpinnedCountsAreNonNegative(turns: seq<Turn>)
    requires forall t | t in turns :: AtLeastHonest(t)
    ensures Sum(Unpinned(turns), Tokens()) >= 0
  {
    if turns != [] {
      UnpinnedCountsAreNonNegative(turns[1..]);
      UnpinnedCons(turns[0], turns[1..]);
      assert turns == [turns[0]] + turns[1..] && AtLeastHonest(turns[0]);
      SumAppend([turns[0]], Unpinned(turns[1..]), Tokens());
      SumOfOne(turns[0], Tokens());
    }
  }

  /** When level 2 has fired: the protected turns, and the summary if there is one and the window keeps it. */
  lemma OutputOfLevel2(window: ContextWindow, cfg: Config, sections: seq<PinnedSection>)
    requires Level2Fires(window, cfg, sections)
    ensures
      CompactContextWindow(window, cfg, sections).totalTokens
      == Sum(Protected(Inject(window, sections).turns, 0, cfg, 0), Tokens())
         + if cfg.slidingWindowMaxTurns >= 1 && Loose(window, cfg, sections) != [] then SummaryCount(window, cfg, sections) else 0
  {
    var out := CompactContextWindow(window, cfg, sections);
    var summary := MergeAndSummarize(Loose(window, cfg, sections), cfg.compressionRateFloor);
    CompactionStructure(window, cfg, sections);
    SumOfPartition(out.turns);
    ChainStructure(CompressedNodes(Inject(window, sections).turns, cfg), cfg.compressionRateFloor);
    assert Unpinned(BeforeWindow(window, cfg, sections)) == summary;
    SuffixOfOne(summary, |Unpinned(out.turns)|);
    if summary != [] {
      SumOfOne(summary[0], Tokens());
    }
  }

  lemma SuffixOfOne(summary: seq<Turn>, n: nat)
    requires |summary| <= 1 && n <= |summary|
    ensures summary[|summary| - n..] == if n == 0 then [] else [summary[0]]
  {
  }

  // ----- what injection costs -----

  lemma {:induction false} KeptAfterSections(sections: seq<PinnedSection>, turns: seq<Turn>, i: nat, cfg: Config)
    requires i <= |turns|
    ensures Protected(InjectedTurns(sections) + turns, |sections| + i, cfg, 0)
         == Protected(turns, i, cfg, |sections|)
    decreases |turns| - i
  {
    if i < |turns| {
      KeptAfterSections(sections, turns, i + 1, cfg);
      assert (InjectedTurns(sections) + turns)[|sections| + i] == turns[i];
    }
  }

  lemma {:induction false} SectionsAreKept(sections: seq<PinnedSection>, turns: seq<Turn>, i: nat, cfg: Config)
    requires i <= |sections|
    ensures Protected(InjectedTurns(sections) + turns, i, cfg, 0)
         == InjectedTurns(sections)[i..] + Protected(InjectedTurns(sections) + turns, |sections|, cfg, 0)
    decreases |sections| - i
  {
    var injected := InjectedTurns(sections);
    if i < |sections| {
      SectionsAreKept(sections, turns, i + 1, cfg);
      assert (injected + turns)[i] == injected[i] && injected[i].(pinned := true) == injected[i];
      assert injected[i..] == [injected[i]] + injected[i + 1..];
    }
  }

  /**
   * Injected sections take the first places: what is pinned in the output is the sections and the
   * turns protected with that many places fewer, so a turn protected without the sections stays
   * protected with them exactly if it was pinned, is still among the first, or is among the last.
   */
  lemma InjectionTakesFirstPlaces(window: ContextWindow, cfg: Config, sections: seq<PinnedSection>)
    ensures Pinned(CompactContextWindow(window, cfg, sections).turns)
         == InjectedTurns(sections) + Protected(window.turns, 0, cfg, |sections|)
  {
    CompactionStructure(window, cfg, sections);
    if sections == [] {
      assert InjectedTurns(sections) + Protected(window.turns, 0, cfg, 0) == Protected(window.turns, 0, cfg, 0);
    } else {
      SectionsAreKept(sections, window.turns, 0, cfg);
      KeptAfterSections(sections, window.turns, 0, cfg);
    }
  }

  /** So pinning a section can cost the conversation its first turn. */
  lemma InjectionCanEvictTheFirstTurn()
    ensures
      var t := Turn("user", "goal", 1, false);
      var window, cfg := ContextWindow([t], 1), Config(16, 100, 1, 0, 0.3, 0);
      && CompactContextWindow(window, cfg, []).turns == [t.(pinned := true)]
      && Unpinned(CompactContextWindow(window, cfg, [PinnedSection("arch_decisions", "x")]).turns) == []
      && t.(pinned := true) !in CompactContextWindow(window, cfg, [PinnedSection("arch_decisions", "x")]).turns
  {
    var t := Turn("user", "goal", 1, false);
    var section := PinnedSection("arch_decisions", "x");
    var window, cfg := ContextWindow([t], 1), Config(16, 100, 1, 0, 0.3, 0);
    var p := t.(pinned := true);
    assert CompressedNodes([t], cfg) == [p];
    assert Sum([p], Tokens()) == 1 + Sum([], Tokens());
    assert Unpinned([p]) == [];
    CompactionStructure(window, cfg, [section]);
    var s := Turn("system", "x", 1, true);
    assert InjectedTurns([section]) == [s];
    var all := [s] + [t];
    assert all == [s, t] && Inject(window, [section]).turns == all;
    assert Protected(all, 2, cfg, 0) == [] && Protected(all, 1, cfg, 0) == [];
    assert Protected(all, 0, cfg, 0) == [s];
    var out := CompactContextWindow(window, cfg, [section]).turns;
    assert Pinned(out) == [s];
    assert IsPinned(p);
    assert p in out ==> p in Pinned(out);
  }
}
