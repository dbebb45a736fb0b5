/**
 * The failure bank on values: signal tokens, what `bankGene` and `consolidate` compute, and what
 * follows from that.  The in-place versions are in FailureBankStore.
 */
module SignalTokens {
  import opened Common
  import opened Text

  const SEPARATOR := '|'

  function Split(s: string): (parts: seq<string>)
    ensures |parts| >= 1
  {
    if s == "" then [""]
    else
      var rest := Split(s[1..]);
      if s[0] == SEPARATOR then [""] + rest else [[s[0]] + rest[0]] + rest[1..]
  }

  function Tokens(signal: string): seq<string> {
    var parts := Split(signal);
    seq(|parts|, i requires 0 <= i < |parts| => Trim(parts[i]))
  }

  predicate OccursAt(t: string, s: string, i: nat) {
    i + |t| <= |s| && s[i..i + |t|] == t
  }

  /** `s.includes(t)` */
  predicate Includes(s: string, t: string) {
    exists i | 0 <= i <= |s| :: OccursAt(t, s, i)
  }

  lemma SliceOfSlice(s: string, i: nat, j: nat, k: nat, l: nat)
    requires i <= j <= |s| && k <= l <= j - i
    ensures s[i..j][k..l] == s[i + k..i + l]
  {
    var a, b := s[i..j][k..l], s[i + k..i + l];
    assert |a| == |b| && forall m | 0 <= m < |a| :: a[m] == b[m];
  }

  lemma IncludesIsTransitive(s: string, t: string, u: string)
    requires Includes(s, t) && Includes(t, u)
    ensures Includes(s, u)
  {
    var i: nat :| i <= |s| && OccursAt(t, s, i);
    var j: nat :| j <= |t| && OccursAt(u, t, j);
    assert t == s[i..i + |t|] && u == t[j..j + |u|];
    SliceOfSlice(s, i, i + |t|, j, j + |u|);
    assert OccursAt(u, s, i + j);
  }

  lemma IncludesSlice(s: string, i: nat, j: nat)
    requires i <= j <= |s|
    ensures Includes(s, s[i..j])
  {
    assert OccursAt(s[i..j], s, i);
  }

  lemma {:induction false} TrimStartIsPart(s: string)
    ensures Includes(s, TrimStart(s))
  {
    IncludesSlice(s, 0, |s|);
    assert s[0..|s|] == s;
    if s != "" && IsSpace(s[0]) {
      TrimStartIsPart(s[1..]);
      IncludesSlice(s, 1, |s|);
      IncludesIsTransitive(s, s[1..], TrimStart(s));
    }
  }

  lemma {:induction false} TrimEndIsPart(s: string)
    ensures Includes(s, TrimEnd(s))
  {
    IncludesSlice(s, 0, |s|);
    assert s[0..|s|] == s;
    if s != "" && IsSpace(s[|s| - 1]) {
      TrimEndIsPart(s[..|s| - 1]);
      IncludesSlice(s, 0, |s| - 1);
      IncludesIsTransitive(s, s[..|s| - 1], TrimEnd(s));
    }
  }

  lemma {:induction false} PartsAreParts(s: string)
    ensures Split(s)[0] <= s
    ensures forall p | p in Split(s) :: Includes(s, p)
  {
    if s == "" {
      assert OccursAt("", s, 0);
    } else {
      PartsAreParts(s[1..]);
      FirstPartIsPrefix(s);
      forall p | p in Split(s)
        ensures Includes(s, p)
      {
        if p in Split(s[1..]) {
          PartOfTail(s, p);
        } else {
          PrefixIsPart(s, p);
        }
      }
    }
  }

  lemma FirstPartIsPrefix(s: string)
    requires s != "" && Split(s[1..])[0] <= s[1..]
    ensures Split(s)[0] <= s
    ensures forall p | p in Split(s) :: p in Split(s[1..]) || p == Split(s)[0]
  {
    var rest := Split(s[1..]);
    ConsPrefix(s[0], rest[0], s[1..]);
    assert s == [s[0]] + s[1..];
    AmongTheRest(Split(s)[0], rest);
  }

  lemma ConsPrefix(c: char, u: string, s: string)
    requires u <= s
    ensures [c] + u <= [c] + s
  {
  }

  lemma AmongTheRest(first: string, rest: seq<string>)
    requires rest != []
    ensures forall p | p in [first] + rest :: p in rest || p == first
    ensures forall p | p in [first] + rest[1..] :: p in rest || p == first
  {
    assert forall p | p in rest[1..] :: p in rest;
  }

  lemma PartOfTail(s: string, p: string)
    requires s != "" && Includes(s[1..], p)
    ensures Includes(s, p)
  {
    IncludesSlice(s, 1, |s|);
    assert s[1..|s|] == s[1..];
    IncludesIsTransitive(s, s[1..], p);
  }

  lemma PrefixIsPart(s: string, p: string)
    requires p <= s
    ensures Includes(s, p)
  {
    IncludesSlice(s, 0, |p|);
    assert s[0..|p|] == p;
  }

  // ----- what the tokens are, with the characters written out -----

  /** The parts with a bar between any two. */
  function JoinedByBars(parts: seq<string>): string {
    if parts == [] then "" else if |parts| == 1 then parts[0] else parts[0] + ("|" + JoinedByBars(parts[1..]))
  }

  lemma JoinedHead(c: char, parts: seq<string>)
    requires parts != []
    ensures JoinedByBars([[c] + parts[0]] + parts[1..]) == [c] + JoinedByBars(parts)
  {
    var all := [[c] + parts[0]] + parts[1..];
    assert all[1..] == parts[1..];
    if |parts| > 1 {
      assert ([c] + parts[0]) + ("|" + JoinedByBars(parts[1..])) == [c] + (parts[0] + ("|" + JoinedByBars(parts[1..])));
    }
  }

  /** No part contains a bar, and the parts joined by bars are the signal. */
  lemma {:induction false} SplitIsAtBars(s: string)
    ensures forall p | p in Split(s) :: '|' !in p
    ensures JoinedByBars(Split(s)) == s
  {
    if s != "" {
      var rest := Split(s[1..]);
      SplitIsAtBars(s[1..]);
      assert s == [s[0]] + s[1..];
      if s[0] == '|' {
        assert ([""] + rest)[1..] == rest;
      } else {
        JoinedHead(s[0], rest);
        assert forall p | p in rest[1..] :: p in rest;
        assert rest[0] in rest;
      }
    }
  }

  /** And nothing else is: parts without bars that join to the signal are its parts. */
  lemma {:induction false} OnlySplitIsAtBars(parts: seq<string>)
    requires parts != [] && forall p | p in parts :: '|' !in p
    ensures Split(JoinedByBars(parts)) == parts
    decreases |JoinedByBars(parts)|
  {
    if parts[0] == "" {
      EmptyFirstPart(parts);
      if |parts| > 1 {
        assert forall p | p in parts[1..] :: p in parts;
        OnlySplitIsAtBars(parts[1..]);
      }
    } else {
      var less := [parts[0][1..]] + parts[1..];
      FirstCharOff(parts, less);
      OnlySplitIsAtBars(less);
    }
  }

  lemma EmptyFirstPart(parts: seq<string>)
    requires parts != [] && parts[0] == ""
    ensures parts == [""] + parts[1..]
    ensures |parts| > 1 ==>
              var s := JoinedByBars(parts);
              s != "" && s[0] == '|' && s[1..] == JoinedByBars(parts[1..])
    ensures |parts| == 1 ==> JoinedByBars(parts) == "" && parts == [""]
  {
  }

  lemma FirstCharOff(parts: seq<string>, less: seq<string>)
    requires parts != [] && parts[0] != "" && less == [parts[0][1..]] + parts[1..]
    requires forall p | p in parts :: '|' !in p
    ensures forall p | p in less :: '|' !in p
    ensures
      var s := JoinedByBars(parts);
      s != "" && s[0] == parts[0][0] && s[0] != '|' && s[1..] == JoinedByBars(less)
    ensures [[parts[0][0]] + less[0]] + less[1..] == parts
  {
    var c := parts[0][0];
    assert [c] + less[0] == parts[0] && less[1..] == parts[1..];
    JoinedHead(c, less);
    assert parts[0] in parts && c in parts[0];
    forall p | p in less
      ensures '|' !in p
    {
      assert p == parts[0][1..] || p in parts[1..];
      assert forall d | d in parts[0][1..] :: d in parts[0];
    }
  }

  lemma {:induction false} JoinedAppend(a: seq<string>, b: seq<string>)
    requires a != [] && b != []
    ensures JoinedByBars(a + b) == JoinedByBars(a) + ("|" + JoinedByBars(b))
  {
    var tail := "|" + JoinedByBars(b);
    if |a| == 1 {
      assert (a + b)[1..] == b;
    } else {
      JoinedAppend(a[1..], b);
      assert (a + b)[1..] == a[1..] + b;
      Regroup(a[0], "|" + JoinedByBars(a[1..]), tail);
      Regroup("|", JoinedByBars(a[1..]), tail);
    }
  }

  /** `p` stands in `s` at `i`, between bars or the ends, with no bar inside. */
  predicate PieceAt(s: string, p: string, i: nat) {
    && i + |p| <= |s| && s[i..i + |p|] == p && '|' !in p
    && (i == 0 || s[i - 1] == '|')
    && (i + |p| == |s| || s[i + |p|] == '|')
  }

  ghost predicate IsPiece(s: string, p: string) {
    exists i :: PieceAt(s, p, i)
  }

  /** The parts of a signal are exactly its pieces between bars. */
  lemma PartsArePieces(s: string, p: string)
    ensures p in Split(s) <==> IsPiece(s, p)
  {
    if p in Split(s) {
      var k :| 0 <= k < |Split(s)| && Split(s)[k] == p;
      SplitIsAtBars(s);
      assert Split(s) == Split(s)[..k] + ([p] + Split(s)[k + 1..]);
      PartIsPiece(Split(s)[..k], p, Split(s)[k + 1..]);
    }
    if i :| PieceAt(s, p, i) {
      PieceIsPart(s, p, i);
    }
  }

  lemma PieceBetween(left: string, p: string, right: string)
    requires '|' !in p
    requires left == "" || left[|left| - 1] == '|'
    requires right == "" || right[0] == '|'
    ensures IsPiece(left + (p + right), p)
  {
    var s := left + (p + right);
    assert s[|left|..] == p + right && s[|left|..|left| + |p|] == p;
    assert right != "" ==> s[|left| + |p|] == right[0];
    assert PieceAt(s, p, |left|);
  }

  lemma PartIsPiece(before: seq<string>, p: string, after: seq<string>)
    requires '|' !in p
    ensures IsPiece(JoinedByBars(before + ([p] + after)), p)
  {
    JoinedAround(before, p, after);
    PieceBetween(Ahead(before), p, Behind(after));
  }

  /** Parts with the bar that follows them, and parts with the bar in front of them. */
  function Ahead(parts: seq<string>): string {
    if parts == [] then "" else JoinedByBars(parts) + "|"
  }

  function Behind(parts: seq<string>): string {
    if parts == [] then "" else "|" + JoinedByBars(parts)
  }

  lemma JoinedAround(before: seq<string>, p: string, after: seq<string>)
    ensures JoinedByBars(before + ([p] + after)) == Ahead(before) + (p + Behind(after))
  {
    JoinedBehind(p, after);
    if before == [] {
      assert before + ([p] + after) == [p] + after;
    } else {
      JoinedAppend(before, [p] + after);
      Regroup(JoinedByBars(before), "|", JoinedByBars([p] + after));
    }
  }

  lemma JoinedBehind(p: string, after: seq<string>)
    ensures JoinedByBars([p] + after) == p + Behind(after)
  {
    assert ([p] + after)[1..] == after;
    assert p + "" == p;
  }

  lemma PieceIsPart(s: string, p: string, i: nat)
    requires PieceAt(s, p, i)
    ensures p in Split(s)
  {
    var before := PartsBefore(s, i);
    var after := PartsAfter(s, i + |p|);
    ThreeSlices(s, i, i + |p|, Ahead(before), p, Behind(after));
    PartOfJoined(before, p, after);
  }

  lemma ThreeSlices(s: string, i: nat, j: nat, a: string, b: string, c: string)
    requires i <= j <= |s| && a == s[..i] && b == s[i..j] && c == s[j..]
    ensures a + (b + c) == s
  {
  }

  lemma PartsBefore(s: string, i: nat) returns (before: seq<string>)
    requires i <= |s| && (i == 0 || s[i - 1] == '|')
    ensures Ahead(before) == s[..i]
    ensures forall q | q in before :: '|' !in q
  {
    before := [];
    if i > 0 {
      SplitIsAtBars(s[..i - 1]);
      before := Split(s[..i - 1]);
      assert s[..i] == s[..i - 1] + "|";
    }
  }

  lemma PartsAfter(s: string, j: nat) returns (after: seq<string>)
    requires j <= |s| && (j == |s| || s[j] == '|')
    ensures Behind(after) == s[j..]
    ensures forall q | q in after :: '|' !in q
  {
    after := [];
    if j < |s| {
      SplitIsAtBars(s[j + 1..]);
      after := Split(s[j + 1..]);
      assert s[j..] == "|" + s[j + 1..];
    }
  }

  lemma PartOfJoined(before: seq<string>, p: string, after: seq<string>)
    requires '|' !in p && (forall q | q in before :: '|' !in q) && forall q | q in after :: '|' !in q
    ensures p in Split(Ahead(before) + (p + Behind(after)))
  {
    JoinedAround(before, p, after);
    var parts := before + ([p] + after);
    assert parts[|before|] == p;
    OnlySplitIsAtBars(parts);
  }

  /** The white space that JavaScript trims. */
  lemma SpacesAre(c: char)
    ensures IsSpace(c) <==>
              || c in "\t\n\U{0B}\U{0C}\r \U{A0}\U{1680}\U{2028}\U{2029}\U{202F}\U{205F}\U{3000}\U{FEFF}"
              || 0x2000 <= c as int <= 0x200A
  {
  }

  /** The trimmed text is a slice; what is cut off is white space, and the ends of what is left are not. */
  lemma TrimIsASlice(p: string) returns (i: nat, j: nat)
    ensures i <= j <= |p| && Trim(p) == p[i..j]
    ensures forall k | 0 <= k < i || j <= k < |p| :: IsSpace(p[k])
    ensures i < j ==> !IsSpace(p[i]) && !IsSpace(p[j - 1])
  {
    i := StartOfTrim(p);
    var n := EndOfTrim(p[i..]);
    j := i + n;
    assert p[i..][..n] == p[i..j];
    forall k | j <= k < |p|
      ensures IsSpace(p[k])
    {
      assert p[i..][k - i] == p[k];
    }
    assert i < j ==> p[i..][n - 1] == p[j - 1];
  }

  lemma {:induction false} StartOfTrim(p: string) returns (i: nat)
    ensures i <= |p| && TrimStart(p) == p[i..]
    ensures forall k | 0 <= k < i :: IsSpace(p[k])
    ensures i < |p| ==> !IsSpace(p[i])
  {
    i := 0;
    if p != "" && IsSpace(p[0]) {
      i := StartOfTrim(p[1..]);
      assert p[1..][i..] == p[i + 1..];
      forall k | 0 < k <= i
        ensures IsSpace(p[k])
      {
        assert p[1..][k - 1] == p[k];
      }
      i := i + 1;
    }
  }

  lemma {:induction false} EndOfTrim(p: string) returns (n: nat)
    ensures n <= |p| && TrimEnd(p) == p[..n]
    ensures forall k | n <= k < |p| :: IsSpace(p[k])
    ensures n > 0 ==> !IsSpace(p[n - 1])
  {
    n := |p|;
    if p != "" && IsSpace(p[|p| - 1]) {
      n := EndOfTrim(p[..|p| - 1]);
    }
  }

  /** The tokens are the trimmed pieces between bars. */
  lemma TokensAreTrimmedPieces(s: string, t: string)
    ensures t in Tokens(s) <==> exists p :: IsPiece(s, p) && t == Trim(p)
  {
    var parts := Split(s);
    if t in Tokens(s) {
      var i :| 0 <= i < |parts| && Tokens(s)[i] == t;
      PartsArePieces(s, parts[i]);
    }
    if p :| IsPiece(s, p) && t == Trim(p) {
      PartsArePieces(s, p);
      var i :| 0 <= i < |parts| && parts[i] == p;
      assert Tokens(s)[i] == t;
    }
  }

  /** Every token of a signal occurs in the signal. */
  lemma TokenOccurs(signal: string, t: string)
    requires t in Tokens(signal)
    ensures Includes(signal, t)
  {
    var parts := Split(signal);
    var i :| 0 <= i < |parts| && Trim(parts[i]) == t;
    PartsAreParts(signal);
    TrimStartIsPart(parts[i]);
    TrimEndIsPart(TrimStart(parts[i]));
    IncludesIsTransitive(parts[i], TrimStart(parts[i]), t);
    IncludesIsTransitive(signal, parts[i], t);
  }
}

module FailureBank {
  import opened Common
  import opened SignalTokens
  import opened Text
  import Sorting

  datatype GeneStatus = Active | Resolved | Superseded

  /** `details` stands for the descriptive fields, which are only ever copied. */
  datatype Gene = Gene(
    id: string,
    matchingSignal: string,
    avoid: string,
    version: int,
    consolidatedCount: int,
    status: GeneStatus,
    details: string)

  type Collation = (string, string) -> bool

  predicate IsActive(g: Gene) {
    g.status == Active
  }

  function ActiveOf(bank: seq<Gene>): seq<Gene> {
    Filter(bank, IsActive)
  }

  function Longer(a: string, b: string): string {
    if |b| > |a| then b else a
  }

  function Count(): Gene -> int {
    (g: Gene) => g.consolidatedCount
  }

  // ----- banking one gene -----

  datatype BankResult = Added | Merged | BankFull

  /** Some token of the banked gene occurs anywhere in the new gene's signal. */
  predicate Overlaps(existing: Gene, gene: Gene) {
    exists t | t in Tokens(existing.matchingSignal) :: Includes(gene.matchingSignal, t)
  }

  predicate Catches(existing: Gene, gene: Gene) {
    IsActive(existing) && Overlaps(existing, gene)
  }

  function FirstCatch(bank: seq<Gene>, gene: Gene): (k: nat)
    ensures k <= |bank|
    ensures k < |bank| ==> Catches(bank[k], gene)
    ensures forall j | 0 <= j < k :: !Catches(bank[j], gene)
  {
    if bank == [] then 0
    else if Catches(bank[0], gene) then 0
    else FirstCatch(bank[1..], gene) + 1
  }

  function Reinforce(existing: Gene, gene: Gene): Gene {
    existing.(consolidatedCount := existing.consolidatedCount + 1,
              version := existing.version + 1,
              avoid := Longer(existing.avoid, gene.avoid))
  }

  function ResultOf(bank: seq<Gene>, gene: Gene, maxActive: int): BankResult {
    if FirstCatch(bank, gene) < |bank| then Merged
    else if |ActiveOf(bank)| >= maxActive then BankFull
    else Added
  }

  function Banked(bank: seq<Gene>, gene: Gene, maxActive: int): seq<Gene> {
    var k := FirstCatch(bank, gene);
    match ResultOf(bank, gene, maxActive)
    case Merged => if k < |bank| then bank[k := Reinforce(bank[k], gene)] else bank
    case BankFull => bank
    case Added => bank + [gene.(consolidatedCount := 1)]
  }

  // ----- banking in terms of pieces and fields -----

  /** An active gene with a piece whose trimmed text occurs in the signal. */
  ghost predicate HasPieceIn(g: Gene, signal: string) {
    g.status == Active && exists p :: IsPiece(g.matchingSignal, p) && Includes(signal, Trim(p))
  }

  lemma CatchesByPieces(g: Gene, gene: Gene)
    ensures Catches(g, gene) <==> HasPieceIn(g, gene.matchingSignal)
  {
    forall t
      ensures t in Tokens(g.matchingSignal) <==> exists p :: IsPiece(g.matchingSignal, p) && t == Trim(p)
    {
      TokensAreTrimmedPieces(g.matchingSignal, t);
    }
    if HasPieceIn(g, gene.matchingSignal) {
      var p :| IsPiece(g.matchingSignal, p) && Includes(gene.matchingSignal, Trim(p));
      assert Trim(p) in Tokens(g.matchingSignal);
    }
  }

  /**
   * The answer: merged iff some active gene has a piece in the new signal; otherwise full iff the
   * maximum is reached, and added below it.
   */
  lemma AnswerByPieces(bank: seq<Gene>, gene: Gene, maxActive: int)
    ensures
      var found := exists g | g in bank :: HasPieceIn(g, gene.matchingSignal);
      && (ResultOf(bank, gene, maxActive) == Merged <==> found)
      && (ResultOf(bank, gene, maxActive) == BankFull <==> !found && |ActiveOf(bank)| >= maxActive)
      && (ResultOf(bank, gene, maxActive) == Added <==> !found && |ActiveOf(bank)| < maxActive)
  {
    forall i | 0 <= i < |bank|
      ensures Catches(bank[i], gene) <==> HasPieceIn(bank[i], gene.matchingSignal)
    {
      CatchesByPieces(bank[i], gene);
    }
    assert FirstCatch(bank, gene) < |bank| <==> exists i | 0 <= i < |bank| :: Catches(bank[i], gene);
    assert (exists g | g in bank :: HasPieceIn(g, gene.matchingSignal))
      <==> exists i | 0 <= i < |bank| :: HasPieceIn(bank[i], gene.matchingSignal);
  }

  /**
   * The new bank, field by field: the first gene with a piece in the new signal counts one more,
   * has one more version, and takes the new text if that is longer; a new gene starts with count one.
   */
  lemma BankByFields(bank: seq<Gene>, gene: Gene, maxActive: int)
    ensures
      var after, answer := Banked(bank, gene, maxActive), ResultOf(bank, gene, maxActive);
      && (answer == BankFull ==> after == bank)
      && (answer == Added ==>
            after == bank + [Gene(gene.id, gene.matchingSignal, gene.avoid, gene.version, 1, gene.status, gene.details)])
      && (answer == Merged ==>
            exists k | 0 <= k < |bank| ::
              && HasPieceIn(bank[k], gene.matchingSignal) && (forall j | 0 <= j < k :: !HasPieceIn(bank[j], gene.matchingSignal))
              && after == bank[k := Gene(bank[k].id, bank[k].matchingSignal,
                                         if |gene.avoid| > |bank[k].avoid| then gene.avoid else bank[k].avoid,
                                         bank[k].version + 1, bank[k].consolidatedCount + 1, bank[k].status, bank[k].details)])
  {
    forall g {
      CatchesByPieces(g, gene);
    }
    var k := FirstCatch(bank, gene);
    if k < |bank| {
      assert HasPieceIn(bank[k], gene.matchingSignal);
    }
  }

  // ----- a bank that only banking has filled -----

  /** A gene may be banked, or an active gene may leave `active` for good. */
  datatype Operation = Bank(gene: Gene) | Retire(index: nat, status: GeneStatus)

  function Apply(bank: seq<Gene>, op: Operation, maxActive: int): seq<Gene> {
    match op
    case Bank(gene) => Banked(bank, gene, maxActive)
    case Retire(k, status) =>
      if k < |bank| && status != Active then bank[k := bank[k].(status := status)] else bank
  }

  function Fill(ops: seq<Operation>, maxActive: int): seq<Gene> {
    if ops == [] then [] else Apply(Fill(ops[..|ops| - 1], maxActive), ops[|ops| - 1], maxActive)
  }

  /** How many calls answered `added` or `merged`. */
  function Accepted(ops: seq<Operation>, maxActive: int): nat {
    if ops == [] then 0
    else
      var before, op := ops[..|ops| - 1], ops[|ops| - 1];
      Accepted(before, maxActive)
      + if op.Bank? && ResultOf(Fill(before, maxActive), op.gene, maxActive) != BankFull then 1 else 0
  }

  /** No token of an active gene occurs in the signal of a later active gene. */
  ghost predicate NoOverlap(bank: seq<Gene>) {
    forall i, j | 0 <= i < j < |bank| && IsActive(bank[i]) && IsActive(bank[j]) :: !Overlaps(bank[i], bank[j])
  }

  lemma {:induction false} ActiveUpdate(bank: seq<Gene>, k: nat, g: Gene)
    requires k < |bank| && (IsActive(g) ==> IsActive(bank[k]))
    ensures |ActiveOf(bank[k := g])| <= |ActiveOf(bank)|
  {
    if k == 0 {
      assert bank[k := g][1..] == bank[1..];
    } else {
      assert bank[k := g][1..] == bank[1..][k - 1 := g];
      ActiveUpdate(bank[1..], k - 1, g);
    }
  }

  lemma BankedKeepsOrder(bank: seq<Gene>, gene: Gene, maxActive: nat)
    requires NoOverlap(bank) && |ActiveOf(bank)| <= maxActive
    ensures NoOverlap(Banked(bank, gene, maxActive))
    ensures |ActiveOf(Banked(bank, gene, maxActive))| <= maxActive
    ensures Sum(Banked(bank, gene, maxActive), Count())
         == Sum(bank, Count()) + if ResultOf(bank, gene, maxActive) == BankFull then 0 else 1
  {
    var k := FirstCatch(bank, gene);
    match ResultOf(bank, gene, maxActive) {
      case Merged =>
        var g := Reinforce(bank[k], gene);
        ActiveUpdate(bank, k, g);
        SumUpdate(bank, k, g, Count());
        UpdateKeepsNoOverlap(bank, k, g);
      case BankFull =>
      case Added =>
        var g := gene.(consolidatedCount := 1);
        FilterAppend(bank, [g], IsActive);
        SumAppend(bank, [g], Count());
        forall i | 0 <= i < |bank| && IsActive(bank[i])
          ensures !Overlaps(bank[i], g)
        {
          assert !Catches(bank[i], gene);
        }
    }
  }

  lemma UpdateKeepsNoOverlap(bank: seq<Gene>, k: nat, g: Gene)
    requires NoOverlap(bank) && k < |bank|
    requires g.matchingSignal == bank[k].matchingSignal && (IsActive(g) ==> IsActive(bank[k]))
    ensures NoOverlap(bank[k := g])
  {
    var next := bank[k := g];
    forall i, j | 0 <= i < j < |next| && IsActive(next[i]) && IsActive(next[j])
      ensures !Overlaps(next[i], next[j])
    {
      assert !Overlaps(bank[i], bank[j]);
    }
  }

  /** What every bank filled only by banking satisfies. */
  lemma {:induction false} BankingKeepsOrder(ops: seq<Operation>, maxActive: nat)
    ensures NoOverlap(Fill(ops, maxActive))
    ensures |ActiveOf(Fill(ops, maxActive))| <= maxActive
    ensures Sum(Fill(ops, maxActive), Count()) == Accepted(ops, maxActive)
  {
    if ops != [] {
      var before, op := ops[..|ops| - 1], ops[|ops| - 1];
      var bank := Fill(before, maxActive);
      BankingKeepsOrder(before, maxActive);
      match op {
        case Bank(gene) =>
          BankedKeepsOrder(bank, gene, maxActive);
        case Retire(k, status) =>
          if k < |bank| && status != Active {
            var g := bank[k].(status := status);
            ActiveUpdate(bank, k, g);
            SumUpdate(bank, k, g, Count());
            UpdateKeepsNoOverlap(bank, k, g);
          }
      }
    }
  }

  // ----- consolidation -----

  /** When two signals belong together; consolidation uses `ShareToken`, the merge works for any. */
  type Link = (string, string) -> bool

  predicate SharesToken(a: string, b: string) {
    exists t | t in Tokens(a) :: t in Tokens(b)
  }

  function ShareToken(): Link {
    (a: string, b: string) => SharesToken(a, b)
  }

  predicate Linked(a: Gene, b: Gene, link: Link) {
    link(a.matchingSignal, b.matchingSignal)
  }

  function Take(base: Gene, g: Gene): Gene {
    base.(consolidatedCount := base.consolidatedCount + g.consolidatedCount,
          version := base.version + 1,
          avoid := Longer(base.avoid, g.avoid))
  }

  /** `base` after taking in, one by one, the genes of `rest` that share a token with it. */
  function Absorb(base: Gene, rest: seq<Gene>, link: Link): Gene
    decreases |rest|
  {
    if rest == [] then base
    else Absorb(if Linked(base, rest[0], link) then Take(base, rest[0]) else base, rest[1..], link)
  }

  function SharesWith(base: Gene, link: Link): Gene -> bool {
    (g: Gene) => Linked(base, g, link)
  }

  function Shared(base: Gene, rest: seq<Gene>, link: Link): seq<Gene> {
    Filter(rest, SharesWith(base, link))
  }

  function Unshared(base: Gene, rest: seq<Gene>, link: Link): seq<Gene> {
    Filter(rest, Not(SharesWith(base, link)))
  }

  /** The merge as a recursion: absorb what the first gene shares, go on with what is left. */
  function MergeAll(genes: seq<Gene>, link: Link): seq<Gene>
    decreases |genes|
  {
    if genes == [] then []
    else [Absorb(genes[0], genes[1..], link)] + MergeAll(Unshared(genes[0], genes[1..], link), link)
  }

  function ById(g: Gene): string {
    g.id
  }

  function SortedActive(bank: seq<Gene>, collate: Collation): seq<Gene> {
    Sorting.Sort(ActiveOf(bank), ById, collate)
  }

  function Consolidated(bank: seq<Gene>, collate: Collation): seq<Gene> {
    MergeAll(SortedActive(bank, collate), ShareToken())
  }

  /** What is merged: the genes whose status is active, by id, those of one id in their given order. */
  lemma SortedActiveByFields(bank: seq<Gene>, collate: Collation, id: string)
    requires Sorting.TotalPreorder(collate)
    ensures
      var sorted := SortedActive(bank, collate);
      && multiset(sorted) == multiset(Filter(bank, (g: Gene) => g.status == Active))
      && (forall i, j | 0 <= i < j < |sorted| :: collate(sorted[i].id, sorted[j].id))
      && Filter(sorted, Sorting.HasKey(ById, id)) == Filter(ActiveOf(bank), Sorting.HasKey(ById, id))
  {
    FilterAgrees(bank, IsActive, (g: Gene) => g.status == Active);
    Sorting.SortKeepsElements(ActiveOf(bank), ById, collate);
    Sorting.SortSorts(ActiveOf(bank), ById, collate);
    Sorting.SortKeepsTies(ActiveOf(bank), ById, collate, id);
    forall i, j | 0 <= i < j < |SortedActive(bank, collate)|
      ensures collate(SortedActive(bank, collate)[i].id, SortedActive(bank, collate)[j].id)
    {
      assert collate(ById(SortedActive(bank, collate)[i]), ById(SortedActive(bank, collate)[j]));
    }
  }

  // ----- groups -----

  /** Who ends up with whom: each group is a gene followed by the later genes it absorbed. */
  function Groups(genes: seq<Gene>, link: Link): seq<seq<Gene>>
    decreases |genes|
  {
    if genes == [] then []
    else [[genes[0]] + Shared(genes[0], genes[1..], link)] + Groups(Unshared(genes[0], genes[1..], link), link)
  }

  function Flatten(groups: seq<seq<Gene>>): seq<Gene> {
    if groups == [] then [] else groups[0] + Flatten(groups[1..])
  }

  /** Every gene is in exactly one group. */
  lemma {:induction false} GroupsPartition(genes: seq<Gene>, link: Link)
    ensures multiset(Flatten(Groups(genes, link))) == multiset(genes)
    decreases |genes|
  {
    if genes != [] {
      var base, rest := genes[0], genes[1..];
      var left, group := Unshared(base, rest, link), [base] + Shared(base, rest, link);
      GroupsPartition(left, link);
      FilterPartitions(rest, SharesWith(base, link));
      FlattenCons(group, Groups(left, link));
      HeadAndTail(genes);
    }
  }

  lemma FlattenCons(group: seq<Gene>, groups: seq<seq<Gene>>)
    ensures multiset(Flatten([group] + groups)) == multiset(group) + multiset(Flatten(groups))
  {
    assert ([group] + groups)[1..] == groups;
  }

  lemma {:induction false} AbsorbKeepsIdentity(base: Gene, rest: seq<Gene>, link: Link)
    ensures
      var a := Absorb(base, rest, link);
      a.id == base.id && a.matchingSignal == base.matchingSignal && a.status == base.status && a.details == base.details
    decreases |rest|
  {
    if rest != [] {
      AbsorbKeepsIdentity(if Linked(base, rest[0], link) then Take(base, rest[0]) else base, rest[1..], link);
    }
  }

  /** `avoid` is the text of the first gene of the group whose text is longest. */
  ghost predicate FirstLongest(avoid: string, group: seq<Gene>) {
    exists k | 0 <= k < |group| :: FirstLongestAt(avoid, group, k)
  }

  ghost predicate FirstLongestAt(avoid: string, group: seq<Gene>, k: nat)
    requires k < |group|
  {
    && avoid == group[k].avoid
    && (forall j | 0 <= j < k :: |group[j].avoid| < |avoid|)
    && (forall j | k <= j < |group| :: |group[j].avoid| <= |avoid|)
  }

  /** What a group turns into: counts add up, and the first longest `avoid` wins. */
  ghost predicate Summarises(g: Gene, group: seq<Gene>, link: Link) {
    && group != []
    && g.id == group[0].id && g.matchingSignal == group[0].matchingSignal && g.status == group[0].status
    && g.details == group[0].details
    && g.consolidatedCount == Sum(group, Count())
    && g.version == group[0].version + |group| - 1
    && FirstLongest(g.avoid, group)
    && (forall k | 0 < k < |group| :: Linked(group[0], group[k], link))
  }

  lemma {:induction false} AbsorbSummarises(base: Gene, rest: seq<Gene>, link: Link)
    ensures
      var a, group := Absorb(base, rest, link), [base] + Shared(base, rest, link);
      && a.consolidatedCount == Sum(group, Count())
      && a.version == base.version + |group| - 1
      && FirstLongest(a.avoid, group)
    decreases |rest|
  {
    if rest == [] {
      assert FirstLongestAt(base.avoid, [base] + Shared(base, rest, link), 0);
    } else {
      var next := if Linked(base, rest[0], link) then Take(base, rest[0]) else base;
      AbsorbSummarises(next, rest[1..], link);
      FilterAgrees(rest[1..], SharesWith(next, link), SharesWith(base, link));
      var tail := Shared(base, rest[1..], link);
      var group := [base] + Shared(base, rest, link);
      var a := Absorb(base, rest, link);
      if Linked(base, rest[0], link) {
        assert group == [base] + ([rest[0]] + tail);
        TakenGroup(base, rest[0], tail, a);
      } else {
        assert group == [next] + tail;
      }
    }
  }

  /** A summary of a gene that has taken in another is one of both. */
  lemma TakenGroup(base: Gene, first: Gene, tail: seq<Gene>, a: Gene)
    requires a.consolidatedCount == Sum([Take(base, first)] + tail, Count())
    requires FirstLongest(a.avoid, [Take(base, first)] + tail)
    ensures
      var group := [base] + ([first] + tail);
      && a.consolidatedCount == Sum(group, Count())
      && FirstLongest(a.avoid, group)
  {
    var next, group := Take(base, first), [base] + ([first] + tail);
    assert group[1..] == [first] + tail && group[1..][1..] == tail && ([next] + tail)[1..] == tail;
    var k :| 0 <= k < |[next] + tail| && FirstLongestAt(a.avoid, [next] + tail, k);
    OneMoreInFront(base, first, tail, a.avoid, k);
  }

  lemma OneMoreInFront(base: Gene, first: Gene, tail: seq<Gene>, avoid: string, k: nat)
    requires k < |[Take(base, first)] + tail| && FirstLongestAt(avoid, [Take(base, first)] + tail, k)
    ensures FirstLongest(avoid, [base] + ([first] + tail))
  {
    var less, group := [Take(base, first)] + tail, [base] + ([first] + tail);
    assert forall j | 1 <= j < |less| :: group[j + 1] == less[j];
    assert group[0] == base && group[1] == first && less[0] == Take(base, first);
    var m := if k > 0 then k + 1 else if |first.avoid| > |base.avoid| then 1 else 0;
    forall j | 0 <= j < |group|
      ensures if j < m then |group[j].avoid| < |avoid| else |group[j].avoid| <= |avoid|
    {
      assert j > 1 ==> group[j] == less[j - 1];
    }
    assert FirstLongestAt(avoid, group, m);
  }

  /** Output `k` of the merge is the summary of group `k`. */
  lemma {:induction false} OutputsSummariseGroups(genes: seq<Gene>, link: Link)
    ensures AllSummarised(MergeAll(genes, link), Groups(genes, link), link)
    decreases |genes|
  {
    if genes != [] {
      var base, rest := genes[0], genes[1..];
      OutputsSummariseGroups(Unshared(base, rest, link), link);
      HeadIsSummarised(base, rest, link);
      SummaryCons(MergeAll(Unshared(base, rest, link), link), Groups(Unshared(base, rest, link), link),
                  Absorb(base, rest, link), [base] + Shared(base, rest, link), link);
    }
  }

  ghost predicate AllSummarised(out: seq<Gene>, groups: seq<seq<Gene>>, link: Link) {
    |out| == |groups| && forall k | 0 <= k < |groups| :: Summarises(out[k], groups[k], link)
  }

  lemma SummaryCons(out: seq<Gene>, groups: seq<seq<Gene>>, g: Gene, group: seq<Gene>, link: Link)
    requires AllSummarised(out, groups, link) && Summarises(g, group, link)
    ensures AllSummarised([g] + out, [group] + groups, link)
  {
  }

  lemma HeadIsSummarised(base: Gene, rest: seq<Gene>, link: Link)
    ensures Summarises(Absorb(base, rest, link), [base] + Shared(base, rest, link), link)
  {
    AbsorbSummarises(base, rest, link);
    AbsorbKeepsIdentity(base, rest, link);
    var group := [base] + Shared(base, rest, link);
    forall k | 0 < k < |group|
      ensures Linked(group[0], group[k], link)
    {
      assert group[k] in Shared(base, rest, link);
      assert SharesWith(base, link)(group[k]);
    }
  }

  /** The sum of occurrence counts is conserved. */
  lemma {:induction false} MergeConservesCounts(genes: seq<Gene>, link: Link)
    ensures Sum(MergeAll(genes, link), Count()) == Sum(genes, Count())
    decreases |genes|
  {
    if genes != [] {
      var base, rest := genes[0], genes[1..];
      MergeConservesCounts(Unshared(base, rest, link), link);
      AbsorbSummarises(base, rest, link);
      FilterPartitions(rest, SharesWith(base, link));
      SumAppend([base], Shared(base, rest, link), Count());
      SumAppend(Shared(base, rest, link), Unshared(base, rest, link), Count());
      SumIsPermutationInvariant(Shared(base, rest, link) + Unshared(base, rest, link), rest, Count());
      assert MergeAll(genes, link)[1..] == MergeAll(Unshared(base, rest, link), link);
    }
  }

  /** Two signals share a token iff they have pieces with the same trimmed text. */
  lemma SharingByPieces(a: string, b: string)
    ensures SharesToken(a, b) <==> exists p, q :: IsPiece(a, p) && IsPiece(b, q) && Trim(p) == Trim(q)
  {
    forall t
      ensures t in Tokens(a) <==> exists p :: IsPiece(a, p) && t == Trim(p)
      ensures t in Tokens(b) <==> exists p :: IsPiece(b, p) && t == Trim(p)
    {
      TokensAreTrimmedPieces(a, t);
      TokensAreTrimmedPieces(b, t);
    }
    if p, q :| IsPiece(a, p) && IsPiece(b, q) && Trim(p) == Trim(q) {
      assert Trim(p) in Tokens(a) && Trim(q) in Tokens(b);
    }
  }

  /** A gene joins the first group whose head it is linked to: it is linked to no earlier head. */
  lemma {:induction false} GroupsAreMaximal(genes: seq<Gene>, link: Link, k: nat, m: nat)
    requires k < m < |Groups(genes, link)|
    ensures Groups(genes, link)[k] != [] && genes != []
    ensures forall g | g in Groups(genes, link)[m] :: !Linked(Groups(genes, link)[k][0], g, link)
    decreases |genes|
  {
    var left := Unshared(genes[0], genes[1..], link);
    LaterGroups(genes, link, m);
    if k > 0 {
      LaterGroups(genes, link, k);
      GroupsAreMaximal(left, link, k - 1, m - 1);
    } else {
      GroupMembers(left, m - 1, link);
      LeftIsNotLinked(genes[0], genes[1..], link);
    }
  }

  lemma LaterGroups(genes: seq<Gene>, link: Link, m: nat)
    requires 0 < m < |Groups(genes, link)|
    ensures genes != [] && Groups(genes, link)[0][0] == genes[0]
    ensures m - 1 < |Groups(Unshared(genes[0], genes[1..], link), link)|
    ensures Groups(genes, link)[m] == Groups(Unshared(genes[0], genes[1..], link), link)[m - 1]
  {
  }

  lemma LeftIsNotLinked(base: Gene, rest: seq<Gene>, link: Link)
    ensures forall g | g in Unshared(base, rest, link) :: !Linked(base, g, link)
  {
    forall g | g in Unshared(base, rest, link)
      ensures !Linked(base, g, link)
    {
      assert Not(SharesWith(base, link))(g);
    }
  }

  // ----- outputs -----

  ghost predicate DisjointTokens(genes: seq<Gene>, link: Link) {
    forall i, j | 0 <= i < j < |genes| :: !Linked(genes[i], genes[j], link)
  }

  /** Every output carries id, signal and status of one of the inputs. */
  lemma {:induction false} OutputsComeFromInputs(genes: seq<Gene>, g: Gene, link: Link) returns (source: Gene)
    requires g in MergeAll(genes, link)
    ensures source in genes && g.id == source.id && g.matchingSignal == source.matchingSignal && g.status == source.status
    decreases |genes|
  {
    var base, rest := genes[0], genes[1..];
    AbsorbKeepsIdentity(base, rest, link);
    if g == MergeAll(genes, link)[0] {
      source := base;
    } else {
      source := OutputsComeFromInputs(Unshared(base, rest, link), g, link);
    }
  }

  lemma {:induction false} FilterKeepsSorted(genes: seq<Gene>, p: Gene -> bool, collate: Collation)
    requires Sorting.Sorted(genes, ById, collate)
    ensures Sorting.Sorted(Filter(genes, p), ById, collate)
  {
    if genes != [] {
      FilterKeepsSorted(genes[1..], p, collate);
      var r := Filter(genes[1..], p);
      forall j | 0 <= j < |r|
        ensures collate(genes[0].id, r[j].id)
      {
        assert r[j] in genes[1..];
      }
    }
  }

  /** Outputs are sorted by id, active, and pairwise disjoint in their tokens. */
  lemma {:induction false} OutputsAreSortedAndDisjoint(genes: seq<Gene>, collate: Collation, link: Link)
    requires Sorting.Sorted(genes, ById, collate)
    requires forall g | g in genes :: IsActive(g)
    ensures ProperOutputs(MergeAll(genes, link), collate, link)
    decreases |genes|
  {
    if genes != [] {
      var base, rest := genes[0], genes[1..];
      var left := Unshared(base, rest, link);
      FilterKeepsSorted(rest, Not(SharesWith(base, link)), collate);
      OutputsAreSortedAndDisjoint(left, collate, link);
      AbsorbKeepsIdentity(base, rest, link);
      HeadPrecedesOutputs(base, rest, collate, link);
      assert base in genes;
      OutputCons(Absorb(base, rest, link), MergeAll(left, link), collate, link);
    }
  }

  ghost predicate ProperOutputs(out: seq<Gene>, collate: Collation, link: Link) {
    && Sorting.Sorted(out, ById, collate)
    && DisjointTokens(out, link)
    && forall g | g in out :: IsActive(g)
  }

  lemma OutputCons(a: Gene, out: seq<Gene>, collate: Collation, link: Link)
    requires ProperOutputs(out, collate, link) && IsActive(a)
    requires Precedes(a, out, collate, link)
    ensures ProperOutputs([a] + out, collate, link)
  {
  }

  ghost predicate Precedes(a: Gene, out: seq<Gene>, collate: Collation, link: Link) {
    forall j | 0 <= j < |out| :: collate(a.id, out[j].id) && !Linked(a, out[j], link)
  }

  lemma {:induction false} HeadPrecedesOutputs(base: Gene, rest: seq<Gene>, collate: Collation, link: Link)
    requires forall g | g in rest :: collate(base.id, g.id)
    ensures Precedes(Absorb(base, rest, link), MergeAll(Unshared(base, rest, link), link), collate, link)
  {
    var a, r := Absorb(base, rest, link), MergeAll(Unshared(base, rest, link), link);
    AbsorbKeepsIdentity(base, rest, link);
    forall j | 0 <= j < |r|
      ensures collate(a.id, r[j].id) && !Linked(a, r[j], link)
    {
      var source := OutputsComeFromInputs(Unshared(base, rest, link), r[j], link);
      assert source in rest && !SharesWith(base, link)(source);
    }
  }

  /** Genes with pairwise disjoint tokens are left as they are. */
  lemma {:induction false} DisjointGenesAreKept(genes: seq<Gene>, link: Link)
    requires DisjointTokens(genes, link)
    ensures MergeAll(genes, link) == genes
  {
    if genes != [] {
      var base, rest := genes[0], genes[1..];
      forall g | g in rest
        ensures !Linked(base, g, link)
      {
        var j :| 0 <= j < |rest| && rest[j] == g;
        assert genes[j + 1] == g;
      }
      NothingToAbsorb(base, rest, link);
      FilterAll(rest, Not(SharesWith(base, link)));
      DisjointGenesAreKept(rest, link);
    }
  }

  lemma {:induction false} NothingToAbsorb(base: Gene, rest: seq<Gene>, link: Link)
    requires forall g | g in rest :: !Linked(base, g, link)
    ensures Absorb(base, rest, link) == base
  {
    if rest != [] {
      NothingToAbsorb(base, rest[1..], link);
    }
  }

  // ----- main results about consolidation -----

  /** Everything is accounted for, and outputs are sorted, active and disjoint. */
  lemma ConsolidationIsACorrectMerge(bank: seq<Gene>, collate: Collation)
    requires Sorting.TotalPreorder(collate)
    ensures
      var active, out := SortedActive(bank, collate), Consolidated(bank, collate);
      && multiset(Flatten(Groups(active, ShareToken()))) == multiset(ActiveOf(bank))
      && AllSummarised(out, Groups(active, ShareToken()), ShareToken())
      && Sum(out, Count()) == Sum(ActiveOf(bank), Count())
      && ProperOutputs(out, collate, ShareToken())
  {
    var active := SortedActive(bank, collate);
    Sorting.SortKeepsElements(ActiveOf(bank), ById, collate);
    Sorting.SortSorts(ActiveOf(bank), ById, collate);
    GroupsPartition(active, ShareToken());
    OutputsSummariseGroups(active, ShareToken());
    MergeConservesCounts(active, ShareToken());
    SumIsPermutationInvariant(active, ActiveOf(bank), Count());
    OutputsAreSortedAndDisjoint(active, collate, ShareToken());
  }

  /** Consolidating twice is consolidating once. */
  lemma ConsolidationIsIdempotent(bank: seq<Gene>, collate: Collation)
    requires Sorting.TotalPreorder(collate)
    ensures Consolidated(Consolidated(bank, collate), collate) == Consolidated(bank, collate)
  {
    var out := Consolidated(bank, collate);
    ConsolidationIsACorrectMerge(bank, collate);
    FilterAll(out, IsActive);
    Sorting.SortIsIdentityOnSorted(out, ById, collate);
    DisjointGenesAreKept(out, ShareToken());
  }

  lemma SharingIsOverlap(a: Gene, b: Gene)
    requires SharesToken(a.matchingSignal, b.matchingSignal)
    ensures Overlaps(a, b) && Overlaps(b, a)
  {
    var t :| t in Tokens(a.matchingSignal) && t in Tokens(b.matchingSignal);
    TokenOccurs(a.matchingSignal, t);
    TokenOccurs(b.matchingSignal, t);
  }

  lemma {:induction false} NoOverlapFiltered(bank: seq<Gene>)
    requires NoOverlap(bank)
    ensures forall i, j | 0 <= i < j < |ActiveOf(bank)| :: !Overlaps(ActiveOf(bank)[i], ActiveOf(bank)[j])
  {
    if bank != [] {
      NoOverlapFiltered(bank[1..]);
      var r := ActiveOf(bank[1..]);
      forall j | 0 <= j < |r| && IsActive(bank[0])
        ensures !Overlaps(bank[0], r[j])
      {
        assert r[j] in bank[1..];
        var i :| 0 <= i < |bank[1..]| && bank[1..][i] == r[j];
        assert !Overlaps(bank[0], bank[i + 1]);
      }
    }
  }

  ghost predicate PairwiseDisjoint(genes: seq<Gene>, link: Link) {
    forall i, j | 0 <= i < |genes| && 0 <= j < |genes| && i != j :: !Linked(genes[i], genes[j], link)
  }

  lemma {:induction false} InsertKeepsDisjoint(x: Gene, genes: seq<Gene>, collate: Collation, link: Link)
    requires DisjointTokens(genes, link) && forall g | g in genes :: !Linked(x, g, link) && !Linked(g, x, link)
    ensures DisjointTokens(Sorting.Insert(x, genes, ById, collate), link)
  {
    if genes == [] || collate(x.id, genes[0].id) {
    } else {
      InsertKeepsDisjoint(x, genes[1..], collate, link);
      var r := Sorting.Insert(x, genes[1..], ById, collate);
      Sorting.InsertKeepsElements(x, genes[1..], ById, collate);
      forall j | 0 <= j < |r|
        ensures !Linked(genes[0], r[j], link)
      {
        assert r[j] in multiset(r);
        assert r[j] in [x] + genes[1..];
        if r[j] != x {
          var i :| 0 <= i < |genes[1..]| && genes[1..][i] == r[j];
          assert genes[i + 1] == r[j];
        }
      }
    }
  }

  lemma {:induction false} SortKeepsDisjoint(genes: seq<Gene>, collate: Collation, link: Link)
    requires PairwiseDisjoint(genes, link)
    ensures DisjointTokens(Sorting.Sort(genes, ById, collate), link)
  {
    if genes != [] {
      assert PairwiseDisjoint(genes[1..], link);
      SortKeepsDisjoint(genes[1..], collate, link);
      Sorting.SortKeepsElements(genes[1..], ById, collate);
      forall g | g in genes[1..]
        ensures !Linked(genes[0], g, link) && !Linked(g, genes[0], link)
      {
        var i :| 0 <= i < |genes[1..]| && genes[1..][i] == g;
        assert genes[i + 1] == g;
      }
      InsertKeepsDisjoint(genes[0], Sorting.Sort(genes[1..], ById, collate), collate, link);
    }
  }

  /** A bank filled only by banking is already consolidated: there is nothing to merge. */
  lemma BankingLeavesNothingToConsolidate(ops: seq<Operation>, maxActive: nat, collate: Collation)
    ensures Consolidated(Fill(ops, maxActive), collate) == SortedActive(Fill(ops, maxActive), collate)
  {
    var bank := Fill(ops, maxActive);
    var active := ActiveOf(bank);
    BankingKeepsOrder(ops, maxActive);
    NoOverlapFiltered(bank);
    forall i, j | 0 <= i < |active| && 0 <= j < |active| && i != j
      ensures !Linked(active[i], active[j], ShareToken())
    {
      if SharesToken(active[i].matchingSignal, active[j].matchingSignal) {
        SharingIsOverlap(active[i], active[j]);
      }
    }
    SortKeepsDisjoint(active, collate, ShareToken());
    DisjointGenesAreKept(SortedActive(bank, collate), ShareToken());
  }

  // ----- a bank that is also consolidated -----

  /** What a caller does with a bank: `bank_full` asks for a consolidation. */
  datatype Use = Keep(op: Operation) | Consolidate

  function Used(uses: seq<Use>, maxActive: int, collate: Collation): seq<Gene> {
    if uses == [] then []
    else
      var bank := Used(uses[..|uses| - 1], maxActive, collate);
      match uses[|uses| - 1]
      case Keep(op) => Apply(bank, op, maxActive)
      case Consolidate => Consolidated(bank, collate)
  }

  ghost predicate NoSharing(bank: seq<Gene>) {
    forall i, j | 0 <= i < |bank| && 0 <= j < |bank| && i != j && IsActive(bank[i]) && IsActive(bank[j]) ::
      !SharesToken(bank[i].matchingSignal, bank[j].matchingSignal)
  }

  /** Under any interleaving of banking, retiring and consolidating, active genes share no token and stay within the maximum. */
  lemma {:induction false} ActiveGenesNeverShare(uses: seq<Use>, maxActive: nat, collate: Collation)
    requires Sorting.TotalPreorder(collate)
    ensures NoSharing(Used(uses, maxActive, collate))
    ensures |ActiveOf(Used(uses, maxActive, collate))| <= maxActive
  {
    if uses != [] {
      var n := |uses| - 1;
      var bank := Used(uses[..n], maxActive, collate);
      ActiveGenesNeverShare(uses[..n], maxActive, collate);
      match uses[n] {
        case Keep(op) => ApplyKeepsNoSharing(bank, op, maxActive);
        case Consolidate => ConsolidatedSharesNothing(bank, collate);
      }
    }
  }

  lemma ApplyKeepsNoSharing(bank: seq<Gene>, op: Operation, maxActive: nat)
    requires NoSharing(bank) && |ActiveOf(bank)| <= maxActive
    ensures NoSharing(Apply(bank, op, maxActive)) && |ActiveOf(Apply(bank, op, maxActive))| <= maxActive
  {
    match op {
      case Retire(k, status) =>
        if k < |bank| && status != Active {
          UpdateSharesNothing(bank, k, bank[k].(status := status));
        }
      case Bank(gene) =>
        var k := FirstCatch(bank, gene);
        match ResultOf(bank, gene, maxActive) {
          case Merged => UpdateSharesNothing(bank, k, Reinforce(bank[k], gene));
          case BankFull =>
          case Added =>
            var g := gene.(consolidatedCount := 1);
            FilterAppend(bank, [g], IsActive);
            AddedSharesNothing(bank, g, gene);
        }
    }
  }

  lemma UpdateSharesNothing(bank: seq<Gene>, k: nat, g: Gene)
    requires NoSharing(bank) && k < |bank|
    requires g.matchingSignal == bank[k].matchingSignal && (IsActive(g) ==> IsActive(bank[k]))
    ensures NoSharing(bank[k := g]) && |ActiveOf(bank[k := g])| <= |ActiveOf(bank)|
  {
    ActiveUpdate(bank, k, g);
  }

  lemma AddedSharesNothing(bank: seq<Gene>, g: Gene, gene: Gene)
    requires NoSharing(bank) && g.matchingSignal == gene.matchingSignal
    requires forall i | 0 <= i < |bank| :: !Catches(bank[i], gene)
    ensures NoSharing(bank + [g])
  {
    forall i | 0 <= i < |bank| && IsActive(bank[i])
      ensures !SharesToken(bank[i].matchingSignal, g.matchingSignal) && !SharesToken(g.matchingSignal, bank[i].matchingSignal)
    {
      NotCaughtSharesNothing(bank[i], g, gene);
    }
  }

  lemma NotCaughtSharesNothing(existing: Gene, g: Gene, gene: Gene)
    requires IsActive(existing) && !Catches(existing, gene) && g.matchingSignal == gene.matchingSignal
    ensures !SharesToken(existing.matchingSignal, g.matchingSignal) && !SharesToken(g.matchingSignal, existing.matchingSignal)
  {
    if SharesToken(existing.matchingSignal, g.matchingSignal) || SharesToken(g.matchingSignal, existing.matchingSignal) {
      SharingIsOverlap(existing, g);
    }
  }

  lemma ConsolidatedSharesNothing(bank: seq<Gene>, collate: Collation)
    requires Sorting.TotalPreorder(collate)
    ensures NoSharing(Consolidated(bank, collate))
    ensures |ActiveOf(Consolidated(bank, collate))| <= |ActiveOf(bank)|
  {
    var out := Consolidated(bank, collate);
    ConsolidationIsACorrectMerge(bank, collate);
    Sorting.SortKeepsElements(ActiveOf(bank), ById, collate);
    MergingOnlyShrinks(SortedActive(bank, collate), ShareToken());
    FilterAll(out, IsActive);
    forall i, j | 0 <= i < j < |out|
      ensures !SharesToken(out[i].matchingSignal, out[j].matchingSignal) && !SharesToken(out[j].matchingSignal, out[i].matchingSignal)
    {
      assert !Linked(out[i], out[j], ShareToken());
    }
  }

  lemma {:induction false} MergingOnlyShrinks(genes: seq<Gene>, link: Link)
    ensures |MergeAll(genes, link)| <= |genes|
    decreases |genes|
  {
    if genes != [] {
      MergingOnlyShrinks(Unshared(genes[0], genes[1..], link), link);
    }
  }

  // ----- escalation threshold -----

  /** Systemic means as many occurrences as the threshold, or more. */
  predicate IsSystemic(g: Gene, recurringThreshold: int) {
    g.consolidatedCount >= recurringThreshold
  }

  /** With positive counts, consolidation never takes a systemic gene below the threshold. */
  lemma SystemicStaysSystemic(genes: seq<Gene>, k: nat, g: Gene, threshold: int, link: Link)
    requires k < |Groups(genes, link)| && g in Groups(genes, link)[k] && IsSystemic(g, threshold)
    requires forall h | h in genes :: h.consolidatedCount >= 1
    ensures k < |MergeAll(genes, link)| && IsSystemic(MergeAll(genes, link)[k], threshold)
  {
    OutputsSummariseGroups(genes, link);
    GroupsPartition(genes, link);
    GroupMembers(genes, k, link);
    MemberIsAtMostSum(Groups(genes, link)[k], g);
  }

  lemma {:induction false} GroupMembers(genes: seq<Gene>, k: nat, link: Link)
    requires k < |Groups(genes, link)|
    ensures forall h | h in Groups(genes, link)[k] :: h in genes
    decreases |genes|
  {
    var base, rest := genes[0], genes[1..];
    if k > 0 {
      GroupMembers(Unshared(base, rest, link), k - 1, link);
      assert forall h | h in Unshared(base, rest, link) :: h in rest;
    }
    assert forall h | h in rest :: h in genes;
  }

  lemma {:induction false} MemberIsAtMostSum(group: seq<Gene>, g: Gene)
    requires g in group && forall h | h in group :: h.consolidatedCount >= 1
    ensures g.consolidatedCount <= Sum(group, Count())
    decreases |group|
  {
    if |group| > 1 {
      MemberIsAtMostSum(group[1..], if g in group[1..] then g else group[1]);
    }
  }
}
