/**
 * Globs compiled to regular expressions by string rewriting, once with escaping and once without,
 * against a direct matcher: `**` takes anything, `*` anything but a slash.
 */
module GlobCompiler {
  import opened Common
  import opened Regex

  // ----- string rewriting -----

  const DOUBLE_STAR := "**"
  const SECTION := "\U{A7}"
  const PLACEHOLDER := "___DSTAR___"
  const ANY_RUN := ".*"
  const SEGMENT_RUN := "[^/]*"

  /** `s.replace(/pattern/g, with)` for a literal pattern: leftmost occurrences, not overlapping. */
  function ReplaceAll(s: string, pattern: string, filler: string): string
    requires pattern != ""
  {
    if s == "" then ""
    else if pattern <= s then filler + ReplaceAll(s[|pattern|..], pattern, filler)
    else [s[0]] + ReplaceAll(s[1..], pattern, filler)
  }

  /** The characters that the exit gate escapes. */
  predicate IsSpecial(c: char) {
    || c == '.' || c == '+' || c == '^' || c == '$' || c == '{' || c == '}' || c == '(' || c == ')'
    || c == '|' || c == '[' || c == ']' || c == '\\'
  }

  function EscapeSpecials(s: string): string {
    if s == "" then ""
    else (if IsSpecial(s[0]) then ['\\', s[0]] else [s[0]]) + EscapeSpecials(s[1..])
  }

  /** The three replacements of the exit gate, on an escaped glob. */
  function Rewritten(escaped: string): string {
    ReplaceAll(ReplaceAll(ReplaceAll(escaped, DOUBLE_STAR, SECTION), "*", SEGMENT_RUN), SECTION, ANY_RUN)
  }

  /** The pattern text that the exit gate builds from a glob, without its anchors. */
  function StrictBody(glob: string): string {
    Rewritten(EscapeSpecials(glob))
  }

  /** The pattern text of the harness core's matcher, which does not escape. */
  function LooseBody(glob: string): string {
    ReplaceAll(ReplaceAll(ReplaceAll(glob, DOUBLE_STAR, PLACEHOLDER), "*", SEGMENT_RUN), PLACEHOLDER, ANY_RUN)
  }

  // ----- regular expressions, section 22.2.2 of ECMA-262 -----

  /** The atoms that occur: a character, any character, any character but a slash. */
  datatype Atom = Literal(c: char) | AnyChar | NotSlash

  predicate IsLineTerminator(c: char) {
    c == '\n' || c == '\r' || c == '\U{2028}' || c == '\U{2029}'
  }

  predicate Accepts(a: Atom, c: char) {
    match a
    case Literal(d) => c == d
    case AnyChar => !IsLineTerminator(c)
    case NotSlash => c != '/'
  }

  predicate HasLineTerminator(s: string) {
    exists c | c in s :: IsLineTerminator(c)
  }

  datatype Parsed = Parsed(atom: Atom, rest: string)

  /** One atom: an escaped special, the class `[^/]`, the dot, or a character that stands for itself. */
  function ParseAtom(s: string): (r: Option<Parsed>)
    requires s != ""
    ensures r.Some? ==> |r.value.rest| < |s|
  {
    if s[0] == '\\' then
      if |s| >= 2 && IsSpecial(s[1]) then Some(Parsed(Literal(s[1]), s[2..])) else None
    else if "[^/]" <= s then Some(Parsed(NotSlash, s[4..]))
    else if s[0] == '.' then Some(Parsed(AnyChar, s[1..]))
    else if IsSpecial(s[0]) || s[0] == '*' || s[0] == '?' then None
    else Some(Parsed(Literal(s[0]), s[1..]))
  }

  /** A sequence of atoms, each perhaps starred; `None` for text outside this fragment. */
  function Parse(s: string): Option<Re<Atom>>
    decreases |s|
  {
    if s == "" then Some(Empty)
    else
      var atom := ParseAtom(s);
      if atom.None? then None
      else
        var starred := atom.value.rest != "" && atom.value.rest[0] == '*';
        var rest := Parse(if starred then atom.value.rest[1..] else atom.value.rest);
        if rest.None? then None
        else Some(Cat(if starred then Star(One(atom.value.atom)) else One(atom.value.atom), rest.value))
  }

  /** `new RegExp('^' + body + '$').test(path)`: the whole path matches. */
  function TestAnchored(body: string, path: string): Option<bool> {
    var re := Parse(body);
    if re.None? then None else Some(Matches(re.value, path, Accepts))
  }

  /** The exit gate's `globMatch`. */
  predicate GlobMatch(glob: string, path: string) {
    TestAnchored(StrictBody(glob), path) == Some(true)
  }

  /** The harness core's `matchesGlob`. */
  predicate MatchesGlob(path: string, glob: string) {
    TestAnchored(LooseBody(glob), path) == Some(true)
  }

  // ----- the direct matcher -----

  /**
   * In the loose dialect a dot stands for any character; in the harness dialect, which is what the
   * unescaped pipeline makes of it, the placeholder written out also stands for `**`.
   */
  datatype Dialect = Strict | Loose | Harness

  /** The length of what stands for any text at the head of a glob, 0 if nothing does. */
  function AnyRun(glob: string, dialect: Dialect): (n: nat)
    ensures n <= |glob|
  {
    if DOUBLE_STAR <= glob then 2 else if dialect.Harness? && PLACEHOLDER <= glob then |PLACEHOLDER| else 0
  }

  function AtomOf(c: char, dialect: Dialect): Atom {
    if !dialect.Strict? && c == '.' then AnyChar else Literal(c)
  }

  predicate GlobAccepts(glob: string, path: string, dialect: Dialect)
    decreases |glob|, |path|
  {
    if glob == "" then path == ""
    else if AnyRun(glob, dialect) > 0 then
      || GlobAccepts(glob[AnyRun(glob, dialect)..], path, dialect)
      || (path != "" && !IsLineTerminator(path[0]) && GlobAccepts(glob, path[1..], dialect))
    else if glob[0] == '*' then
      || GlobAccepts(glob[1..], path, dialect)
      || (path != "" && path[0] != '/' && GlobAccepts(glob, path[1..], dialect))
    else path != "" && Accepts(AtomOf(glob[0], dialect), path[0]) && GlobAccepts(glob[1..], path[1..], dialect)
  }

  /** The regular expression a glob should become, as text and as syntax. */
  function Compiled(glob: string, dialect: Dialect): string {
    if glob == "" then ""
    else if AnyRun(glob, dialect) > 0 then ANY_RUN + Compiled(glob[AnyRun(glob, dialect)..], dialect)
    else if glob[0] == '*' then SEGMENT_RUN + Compiled(glob[1..], dialect)
    else (if dialect.Strict? && IsSpecial(glob[0]) then ['\\', glob[0]] else [glob[0]]) + Compiled(glob[1..], dialect)
  }

  function ReOf(glob: string, dialect: Dialect): Re<Atom> {
    if glob == "" then Empty
    else if AnyRun(glob, dialect) > 0 then Cat(Star(One(AnyChar)), ReOf(glob[AnyRun(glob, dialect)..], dialect))
    else if glob[0] == '*' then Cat(Star(One(NotSlash)), ReOf(glob[1..], dialect))
    else Cat(One(AtomOf(glob[0], dialect)), ReOf(glob[1..], dialect))
  }

  // ----- the characters, written out -----

  /** The characters that the exit gate escapes, and that stand for themselves nowhere in a pattern. */
  lemma SpecialsAre(c: char)
    ensures IsSpecial(c) <==> c in ".+^${}()|[]\\"
  {
  }

  lemma LineTerminatorsAre(c: char)
    ensures IsLineTerminator(c) <==> c in "\n\r\U{2028}\U{2029}"
  {
  }

  /** The section sign is no ordinary character: the exit gate reads it as `**`. */
  lemma SectionSignIsAWildcard(path: string)
    ensures GlobMatch("\U{A7}", path) <==> !HasLineTerminator(path)
  {
    var g := "\U{A7}";
    assert g[1..] == "" && !(DOUBLE_STAR <= g) && g[0] == SECTION[0] && SECTION <= g;
    assert EscapeSpecials(g) == g;
    assert ReplaceAll(g, DOUBLE_STAR, SECTION) == g && ReplaceAll(g, "*", SEGMENT_RUN) == g;
    ReplaceHit(SECTION, "", ANY_RUN);
    assert SECTION + "" == g && ANY_RUN + "" == ANY_RUN;
    assert StrictBody(g) == ANY_RUN;
    RunsParse("");
    assert TestAnchored(ANY_RUN, path) == Some(Matches(Cat(Star(One(AnyChar)), Empty), path, Accepts));
    AnyRunMatches(path);
  }

  lemma {:induction false} AnyRunMatches(path: string)
    ensures Matches(Cat(Star(One(AnyChar)), Empty), path, Accepts) <==> !HasLineTerminator(path)
  {
    StarOneThen(AnyChar, Empty, path, Accepts);
    if path != "" {
      AnyRunMatches(path[1..]);
      assert path == [path[0]] + path[1..];
    }
  }

  // ----- rewriting lemmas -----

  lemma ReplaceHit(pattern: string, s: string, filler: string)
    requires pattern != ""
    ensures ReplaceAll(pattern + s, pattern, filler) == filler + ReplaceAll(s, pattern, filler)
  {
    assert (pattern + s)[|pattern|..] == s;
  }

  lemma {:induction false} ReplaceSkips(u: string, s: string, pattern: string, filler: string)
    requires pattern != "" && pattern[0] !in u
    ensures ReplaceAll(u + s, pattern, filler) == u + ReplaceAll(s, pattern, filler)
  {
    if u == "" {
      assert u + s == s;
    } else {
      assert (u + s)[0] == u[0] && (u + s)[1..] == u[1..] + s;
      ReplaceSkips(u[1..], s, pattern, filler);
    }
  }

  lemma EscapeHead(s: string)
    ensures EscapeSpecials(s) == "" <==> s == ""
    ensures s != "" ==> (EscapeSpecials(s)[0] == '*' <==> s[0] == '*')
  {
  }

  lemma EscapeDoubleStar(glob: string)
    requires DOUBLE_STAR <= glob
    ensures EscapeSpecials(glob) == DOUBLE_STAR + EscapeSpecials(glob[2..])
  {
    assert EscapeSpecials(glob) == "*" + EscapeSpecials(glob[1..]);
    assert glob[1..][1..] == glob[2..];
  }

  lemma RewriteDoubleStar(s: string)
    ensures Rewritten(DOUBLE_STAR + s) == ANY_RUN + Rewritten(s)
  {
    var a := ReplaceAll(s, DOUBLE_STAR, SECTION);
    ReplaceHit(DOUBLE_STAR, s, SECTION);
    ReplaceSkips(SECTION, a, "*", SEGMENT_RUN);
    ReplaceHit(SECTION, ReplaceAll(a, "*", SEGMENT_RUN), ANY_RUN);
  }

  lemma RewriteSingleStar(s: string)
    requires s == "" || s[0] != '*'
    ensures Rewritten("*" + s) == SEGMENT_RUN + Rewritten(s)
  {
    var a := ReplaceAll(s, DOUBLE_STAR, SECTION);
    assert ("*" + s)[1..] == s;
    assert !(DOUBLE_STAR <= "*" + s);
    ReplaceHit("*", a, SEGMENT_RUN);
    ReplaceSkips(SEGMENT_RUN, ReplaceAll(a, "*", SEGMENT_RUN), SECTION, ANY_RUN);
  }

  lemma RewritePlain(u: string, s: string)
    requires '*' !in u && SECTION[0] !in u
    ensures Rewritten(u + s) == u + Rewritten(s)
  {
    var a := ReplaceAll(s, DOUBLE_STAR, SECTION);
    ReplaceSkips(u, s, DOUBLE_STAR, SECTION);
    ReplaceSkips(u, a, "*", SEGMENT_RUN);
    ReplaceSkips(u, ReplaceAll(a, "*", SEGMENT_RUN), SECTION, ANY_RUN);
  }

  /** The escape-and-replace pipeline produces the intended text for every glob without the section sign. */
  lemma {:induction false} StrictBodyIsCompiled(glob: string)
    requires SECTION[0] !in glob
    ensures StrictBody(glob) == Compiled(glob, Strict)
  {
    if glob == "" {
    } else if DOUBLE_STAR <= glob {
      var s := glob[2..];
      StrictBodyIsCompiled(s);
      EscapeDoubleStar(glob);
      RewriteDoubleStar(EscapeSpecials(s));
    } else if glob[0] == '*' {
      var s := glob[1..];
      StrictBodyIsCompiled(s);
      EscapeHead(s);
      assert s == "" || s[0] != '*';
      RewriteSingleStar(EscapeSpecials(s));
    } else {
      StrictBodyIsCompiled(glob[1..]);
      RewritePlain(if IsSpecial(glob[0]) then ['\\', glob[0]] else [glob[0]], EscapeSpecials(glob[1..]));
    }
  }

  // ----- parsing the compiled text -----

  predicate Plain(c: char, dialect: Dialect) {
    match dialect
    case Strict => c != '?'
    case _ => c == '.' || (!IsSpecial(c) && c != '?')
  }

  lemma CompiledHead(glob: string, dialect: Dialect)
    ensures Compiled(glob, dialect) == "" || Compiled(glob, dialect)[0] != '*'
  {
  }

  lemma ParseLiteral(u: string, atom: Atom, s: string)
    requires s == "" || s[0] != '*'
    requires u != "" && ParseAtom(u + s) == Some(Parsed(atom, s))
    ensures Parse(u + s) == if Parse(s).None? then None else Some(Cat(One(atom), Parse(s).value))
  {
  }

  lemma ParseStarred(text: string, atom: Atom, s: string)
    requires text != "" && ParseAtom(text) == Some(Parsed(atom, ['*'] + s))
    ensures Parse(text) == if Parse(s).None? then None else Some(Cat(Star(One(atom)), Parse(s).value))
  {
    assert (['*'] + s)[1..] == s;
  }

  lemma {:induction false} CompiledParses(glob: string, dialect: Dialect)
    requires forall c | c in glob :: Plain(c, dialect)
    ensures Parse(Compiled(glob, dialect)) == Some(ReOf(glob, dialect))
  {
    if glob == "" {
    } else if AnyRun(glob, dialect) > 0 {
      var rest := glob[AnyRun(glob, dialect)..];
      CompiledParses(rest, dialect);
      RunsParse(Compiled(rest, dialect));
    } else if glob[0] == '*' {
      CompiledParses(glob[1..], dialect);
      RunsParse(Compiled(glob[1..], dialect));
    } else {
      CompiledParses(glob[1..], dialect);
      CompiledHead(glob[1..], dialect);
      assert glob[0] in glob;
      LiteralParses(glob[0], Compiled(glob[1..], dialect), dialect);
    }
  }

  lemma RunsParse(s: string)
    requires Parse(s).Some?
    ensures Parse(ANY_RUN + s) == Some(Cat(Star(One(AnyChar)), Parse(s).value))
    ensures Parse(SEGMENT_RUN + s) == Some(Cat(Star(One(NotSlash)), Parse(s).value))
  {
    AnyRunAtom(s);
    ParseStarred(ANY_RUN + s, AnyChar, s);
    SegmentRunAtom(s);
    ParseStarred(SEGMENT_RUN + s, NotSlash, s);
  }

  lemma AnyRunAtom(s: string)
    ensures ANY_RUN + s != "" && ParseAtom(ANY_RUN + s) == Some(Parsed(AnyChar, ['*'] + s))
  {
    var w := ANY_RUN + s;
    assert w[0] == '.' && w[1..] == ['*'] + s;
    assert "[^/]"[0] == '[';
  }

  lemma SegmentRunAtom(s: string)
    ensures SEGMENT_RUN + s != "" && ParseAtom(SEGMENT_RUN + s) == Some(Parsed(NotSlash, ['*'] + s))
  {
    var w := SEGMENT_RUN + s;
    assert w[0] == '[' && w[4..] == ['*'] + s;
    assert "[^/]" <= w;
  }

  lemma LiteralParses(c: char, s: string, dialect: Dialect)
    requires Plain(c, dialect) && c != '*' && (s == "" || s[0] != '*')
    requires Parse(s).Some?
    ensures Parse((if dialect.Strict? && IsSpecial(c) then ['\\', c] else [c]) + s)
         == Some(Cat(One(AtomOf(c, dialect)), Parse(s).value))
  {
    if dialect.Strict? && IsSpecial(c) {
      assert (['\\', c] + s)[2..] == s;
      ParseLiteral(['\\', c], Literal(c), s);
    } else {
      assert ([c] + s)[1..] == s;
      ParseLiteral([c], AtomOf(c, dialect), s);
    }
  }

  // ----- matching -----

  lemma {:induction false} ReMatchesDirectly(glob: string, path: string, dialect: Dialect)
    ensures Matches(ReOf(glob, dialect), path, Accepts) <==> GlobAccepts(glob, path, dialect)
    decreases |glob|, |path|
  {
    if glob == "" {
    } else if AnyRun(glob, dialect) > 0 {
      var rest := glob[AnyRun(glob, dialect)..];
      StarOneThen(AnyChar, ReOf(rest, dialect), path, Accepts);
      ReMatchesDirectly(rest, path, dialect);
      if path != "" {
        ReMatchesDirectly(glob, path[1..], dialect);
      }
    } else if glob[0] == '*' {
      StarOneThen(NotSlash, ReOf(glob[1..], dialect), path, Accepts);
      ReMatchesDirectly(glob[1..], path, dialect);
      if path != "" {
        ReMatchesDirectly(glob, path[1..], dialect);
      }
    } else {
      OneThen(AtomOf(glob[0], dialect), ReOf(glob[1..], dialect), path, Accepts);
      if path != "" {
        ReMatchesDirectly(glob[1..], path[1..], dialect);
      }
    }
  }

  /** The exit gate's matcher is the direct matcher. */
  lemma GlobMatchIsDirect(glob: string, path: string)
    requires '?' !in glob && '\U{A7}' !in glob
    ensures TestAnchored(StrictBody(glob), path) == Some(GlobAccepts(glob, path, Strict))
    ensures GlobMatch(glob, path) <==> GlobAccepts(glob, path, Strict)
  {
    StrictBodyIsCompiled(glob);
    CompiledParses(glob, Strict);
    ReMatchesDirectly(glob, path, Strict);
  }

  /** On paths without line terminators what stands for any text can swallow any prefix. */
  lemma {:induction false} AnyRunTakesAnything(glob: string, path: string, n: nat, dialect: Dialect)
    requires n <= |path| && !HasLineTerminator(path) && AnyRun(glob, dialect) > 0
    requires GlobAccepts(glob[AnyRun(glob, dialect)..], path[n..], dialect)
    ensures GlobAccepts(glob, path, dialect)
    decreases n
  {
    if n == 0 {
      assert path[0..] == path;
    } else {
      assert path[1..][n - 1..] == path[n..];
      AnyRunTakesAnything(glob, path[1..], n - 1, dialect);
    }
  }

  lemma DoubleStarTakesAnything(glob: string, path: string, n: nat, dialect: Dialect)
    requires n <= |path| && !HasLineTerminator(path)
    requires GlobAccepts(glob, path[n..], dialect)
    ensures GlobAccepts(DOUBLE_STAR + glob, path, dialect)
  {
    assert (DOUBLE_STAR + glob)[2..] == glob;
    AnyRunTakesAnything(DOUBLE_STAR + glob, path, n, dialect);
  }

  // ----- the unescaped pipeline -----

  /** After the first two replacements. */
  function Marked(glob: string): string {
    if glob == "" then ""
    else if DOUBLE_STAR <= glob then PLACEHOLDER + Marked(glob[2..])
    else if glob[0] == '*' then SEGMENT_RUN + Marked(glob[1..])
    else [glob[0]] + Marked(glob[1..])
  }

  lemma {:induction false} TwoReplacementsMark(glob: string)
    ensures ReplaceAll(ReplaceAll(glob, DOUBLE_STAR, PLACEHOLDER), "*", SEGMENT_RUN) == Marked(glob)
  {
    if glob == "" {
    } else if DOUBLE_STAR <= glob {
      TwoReplacementsMark(glob[2..]);
      ReplaceSkips(PLACEHOLDER, ReplaceAll(glob[2..], DOUBLE_STAR, PLACEHOLDER), "*", SEGMENT_RUN);
    } else {
      TwoReplacementsMark(glob[1..]);
      var a := ReplaceAll(glob[1..], DOUBLE_STAR, PLACEHOLDER);
      if glob[0] == '*' {
        ReplaceHit("*", a, SEGMENT_RUN);
      } else {
        ReplaceSkips([glob[0]], a, "*", SEGMENT_RUN);
      }
    }
  }

  /**
   * The glob continues with the placeholder from its character `k` on, or breaks off into `**`
   * where at most three underscores are missing.
   */
  predicate Completes(k: nat, glob: string)
    requires k <= 11
    decreases 11 - k
  {
    || k == 11
    || (k >= 8 && DOUBLE_STAR <= glob)
    || (glob != "" && glob[0] == PLACEHOLDER[k] && Completes(k + 1, glob[1..]))
  }

  /** Text that the placeholder replacement mistakes: `___DSTAR___`, or `___DSTAR` with up to two underscores before `**`. */
  predicate Trap(glob: string) {
    Completes(0, glob)
  }

  predicate Clean(glob: string) {
    !Trap(glob) && (glob == "" || Clean(glob[1..]))
  }

  /** Only underscores overlap: a proper suffix of the placeholder that is also a prefix has at most three characters. */
  lemma PlaceholderBorders(k: nat)
    requires 0 < k < 11 && PLACEHOLDER[k..] <= PLACEHOLDER
    ensures k >= 8
  {
    var t := PLACEHOLDER[k..];
    assert t == PLACEHOLDER[..11 - k];
    assert t[0] == PLACEHOLDER[k];
  }

  lemma {:induction false} MarkedSuffix(k: nat, glob: string)
    requires k <= 11 && PLACEHOLDER[k..] <= Marked(glob)
    requires k == 0 ==> !(DOUBLE_STAR <= glob)
    ensures Completes(k, glob)
    decreases 11 - k
  {
    if k < 11 {
      var m, u := Marked(glob), PLACEHOLDER[k..];
      assert u[0] == PLACEHOLDER[k] && m[0] == u[0];
      if DOUBLE_STAR <= glob {
        BorderOfMark(k, Marked(glob[2..]));
      } else if glob[0] != '*' {
        TailOfPrefix(u, m);
        assert u[1..] == PLACEHOLDER[k + 1..] && m[1..] == Marked(glob[1..]);
        MarkedSuffix(k + 1, glob[1..]);
      }
    }
  }

  lemma TailOfPrefix(u: string, m: string)
    requires u != "" && u <= m
    ensures u[1..] <= m[1..]
  {
    assert forall i | 0 <= i < |u| - 1 :: u[1..][i] == m[1..][i];
  }

  lemma BorderOfMark(k: nat, rest: string)
    requires 0 < k < 11 && PLACEHOLDER[k..] <= PLACEHOLDER + rest
    ensures k >= 8
  {
    assert PLACEHOLDER[k..] <= PLACEHOLDER;
    PlaceholderBorders(k);
  }

  lemma UnderscoresOverlap(k: nat, rest: string)
    requires 8 <= k < 11
    ensures PLACEHOLDER[k..] <= PLACEHOLDER + rest
  {
    assert PLACEHOLDER[k..] == PLACEHOLDER[..11 - k];
  }

  lemma {:induction false} CompletionMarks(k: nat, glob: string)
    requires k <= 11 && Completes(k, glob)
    ensures PLACEHOLDER[k..] <= Marked(glob)
    decreases 11 - k
  {
    if k < 11 {
      if k >= 8 && DOUBLE_STAR <= glob {
        UnderscoresOverlap(k, Marked(glob[2..]));
      } else {
        CompletionMarks(k + 1, glob[1..]);
        assert PLACEHOLDER[k] != '*';
        assert PLACEHOLDER[k..] == [PLACEHOLDER[k]] + PLACEHOLDER[k + 1..];
        PrefixCons(PLACEHOLDER[k], PLACEHOLDER[k + 1..], Marked(glob[1..]));
      }
    }
  }

  lemma PrefixCons(c: char, u: string, s: string)
    requires u <= s
    ensures [c] + u <= [c] + s
  {
  }

  lemma {:induction false} MarkedPlain(u: string, s: string)
    requires '*' !in u
    ensures Marked(u + s) == u + Marked(s)
  {
    if u == "" {
      assert u + s == s;
    } else {
      MarkedPlain(u[1..], s);
      MarkedHead(u[0], u[1..] + s);
      ConcatCons(u, s);
      ConcatCons(u, Marked(s));
    }
  }

  lemma MarkedHead(c: char, s: string)
    requires c != '*'
    ensures Marked([c] + s) == [c] + Marked(s)
  {
    assert ([c] + s)[1..] == s && DOUBLE_STAR[0] == '*';
  }

  /** A trap, and only a trap, makes a placeholder start at a character of the glob itself. */
  lemma {:induction false} TrapIsMarked(glob: string)
    requires glob != "" && glob[0] != '*'
    ensures PLACEHOLDER <= Marked(glob) <==> Trap(glob)
  {
    assert PLACEHOLDER[0..] == PLACEHOLDER;
    if PLACEHOLDER <= Marked(glob) {
      MarkedSuffix(0, glob);
    }
    if Trap(glob) {
      CompletionMarks(0, glob);
    }
  }

  /** The placeholder pipeline produces the intended text exactly for the globs without a trap. */
  lemma {:induction false} LooseBodyIsCompiledIffClean(glob: string)
    ensures LooseBody(glob) == Compiled(glob, Loose) <==> Clean(glob)
  {
    TwoReplacementsMark(glob);
    MarkedBecomesCompiled(glob);
  }

  lemma {:induction false} MarkedBecomesCompiled(glob: string)
    ensures ReplaceAll(Marked(glob), PLACEHOLDER, ANY_RUN) == Compiled(glob, Loose) <==> Clean(glob)
  {
    if glob == "" {
    } else if DOUBLE_STAR <= glob {
      var s := glob[2..];
      MarkedBecomesCompiled(s);
      ReplaceHit(PLACEHOLDER, Marked(s), ANY_RUN);
      SameTail(ANY_RUN, ReplaceAll(Marked(s), PLACEHOLDER, ANY_RUN), Compiled(s, Loose));
      assert !Trap(glob) && !Trap(glob[1..]);
      assert glob[1..][1..] == s;
    } else if glob[0] == '*' {
      var s := glob[1..];
      MarkedBecomesCompiled(s);
      ReplaceSkips(SEGMENT_RUN, Marked(s), PLACEHOLDER, ANY_RUN);
      SameTail(SEGMENT_RUN, ReplaceAll(Marked(s), PLACEHOLDER, ANY_RUN), Compiled(s, Loose));
      assert !Trap(glob);
    } else {
      var s := glob[1..];
      MarkedBecomesCompiled(s);
      TrapIsMarked(glob);
      var m := Marked(glob);
      assert m == [glob[0]] + Marked(s) && m[1..] == Marked(s);
      if Trap(glob) {
        assert ReplaceAll(m, PLACEHOLDER, ANY_RUN)[0] == '.';
        assert Compiled(glob, Loose)[0] == '_';
      } else {
        SameTail([glob[0]], ReplaceAll(Marked(s), PLACEHOLDER, ANY_RUN), Compiled(s, Loose));
      }
    }
  }

  /** The glob begins the placeholder at its character `k` and breaks off into `**`, whose mark completes it. */
  predicate BreaksOff(k: nat, glob: string)
    requires k <= 11
    decreases 11 - k
  {
    && k < 11
    && (|| (k >= 8 && DOUBLE_STAR <= glob)
        || (glob != "" && glob[0] == PLACEHOLDER[k] && BreaksOff(k + 1, glob[1..])))
  }

  /** Scanning from the left, no mark of a `**` is split. */
  predicate Unsplit(glob: string) {
    if glob == "" then true
    else if AnyRun(glob, Harness) > 0 then Unsplit(glob[AnyRun(glob, Harness)..])
    else !BreaksOff(0, glob) && Unsplit(glob[1..])
  }

  lemma {:induction false} CompletesInTwoWays(k: nat, glob: string)
    requires k <= 11
    ensures Completes(k, glob) <==> BreaksOff(k, glob) || PLACEHOLDER[k..] <= glob
    decreases 11 - k
  {
    if k < 11 {
      if glob != "" && glob[0] == PLACEHOLDER[k] {
        CompletesInTwoWays(k + 1, glob[1..]);
        PrefixOfTail(PLACEHOLDER[k..], glob);
        assert PLACEHOLDER[k..][1..] == PLACEHOLDER[k + 1..];
      } else {
        assert !(PLACEHOLDER[k..] <= glob) by {
          assert PLACEHOLDER[k..][0] == PLACEHOLDER[k];
        }
      }
    }
  }

  lemma PrefixOfTail(u: string, s: string)
    requires u != "" && s != "" && u[0] == s[0]
    ensures u <= s <==> u[1..] <= s[1..]
  {
    if u[1..] <= s[1..] {
      assert u == [u[0]] + u[1..] && s == [s[0]] + s[1..];
    }
    if u <= s {
      TailOfPrefix(u, s);
    }
  }

  /** On exactly the unsplit globs the unescaped pipeline makes of a glob what the harness dialect says. */
  lemma {:induction false} LooseBodyIsHarnessIffUnsplit(glob: string)
    ensures LooseBody(glob) == Compiled(glob, Harness) <==> Unsplit(glob)
  {
    TwoReplacementsMark(glob);
    MarkedBecomesHarness(glob);
  }

  lemma {:induction false} MarkedBecomesHarness(glob: string)
    ensures ReplaceAll(Marked(glob), PLACEHOLDER, ANY_RUN) == Compiled(glob, Harness) <==> Unsplit(glob)
  {
    var n := AnyRun(glob, Harness);
    if glob == "" {
    } else if n > 0 {
      var s := glob[n..];
      MarkedBecomesHarness(s);
      MarkOfAnyRun(glob);
      ReplaceHit(PLACEHOLDER, Marked(s), ANY_RUN);
      SameTail(ANY_RUN, ReplaceAll(Marked(s), PLACEHOLDER, ANY_RUN), Compiled(s, Harness));
    } else if glob[0] == '*' {
      var s := glob[1..];
      MarkedBecomesHarness(s);
      ReplaceSkips(SEGMENT_RUN, Marked(s), PLACEHOLDER, ANY_RUN);
      SameTail(SEGMENT_RUN, ReplaceAll(Marked(s), PLACEHOLDER, ANY_RUN), Compiled(s, Harness));
    } else {
      var s := glob[1..];
      MarkedBecomesHarness(s);
      TrapIsMarked(glob);
      CompletesInTwoWays(0, glob);
      assert PLACEHOLDER[0..] == PLACEHOLDER;
      var m := Marked(glob);
      assert m == [glob[0]] + Marked(s) && m[1..] == Marked(s);
      if Trap(glob) {
        assert ReplaceAll(m, PLACEHOLDER, ANY_RUN)[0] == '.';
        assert Compiled(glob, Harness)[0] == '_';
      } else {
        SameTail([glob[0]], ReplaceAll(Marked(s), PLACEHOLDER, ANY_RUN), Compiled(s, Harness));
      }
    }
  }

  lemma MarkOfAnyRun(glob: string)
    requires AnyRun(glob, Harness) > 0
    ensures Marked(glob) == PLACEHOLDER + Marked(glob[AnyRun(glob, Harness)..])
  {
    if !(DOUBLE_STAR <= glob) {
      assert glob == PLACEHOLDER + glob[|PLACEHOLDER|..];
      MarkedPlain(PLACEHOLDER, glob[|PLACEHOLDER|..]);
    }
  }

  /** For unsplit globs the harness core's matcher is the direct matcher of the harness dialect. */
  lemma MatchesGlobIsHarness(glob: string, path: string)
    requires Unsplit(glob) && forall c | c in glob :: Plain(c, Harness)
    ensures MatchesGlob(path, glob) <==> GlobAccepts(glob, path, Harness)
  {
    LooseBodyIsHarnessIffUnsplit(glob);
    CompiledParses(glob, Harness);
    ReMatchesDirectly(glob, path, Harness);
  }

  lemma SameTail(u: string, a: string, b: string)
    ensures u + a == u + b <==> a == b
  {
    assert (u + a)[|u|..] == a && (u + b)[|u|..] == b;
  }

  /** For globs without traps the harness core's matcher is the direct matcher of its dialect. */
  lemma MatchesGlobIsDirect(glob: string, path: string)
    requires Clean(glob) && forall c | c in glob :: Plain(c, Loose)
    ensures TestAnchored(LooseBody(glob), path) == Some(GlobAccepts(glob, path, Loose))
    ensures MatchesGlob(path, glob) <==> GlobAccepts(glob, path, Loose)
  {
    LooseBodyIsCompiledIffClean(glob);
    CompiledParses(glob, Loose);
    ReMatchesDirectly(glob, path, Loose);
  }

  lemma {:induction false} HarnessAcceptsMore(glob: string, path: string)
    requires !HasLineTerminator(path) && GlobAccepts(glob, path, Strict)
    ensures GlobAccepts(glob, path, Harness)
    decreases |glob|, |path|
  {
    if glob == "" {
    } else if glob[0] == '*' {
      var rest := if DOUBLE_STAR <= glob then glob[2..] else glob[1..];
      if GlobAccepts(rest, path, Strict) {
        HarnessAcceptsMore(rest, path);
      } else {
        HarnessAcceptsMore(glob, path[1..]);
      }
    } else if AnyRun(glob, Harness) > 0 {
      var n := |PLACEHOLDER|;
      LiteralConsumes(glob, path, n);
      HarnessAcceptsMore(glob[n..], path[n..]);
      AnyRunTakesAnything(glob, path, n, Harness);
    } else {
      HarnessAcceptsMore(glob[1..], path[1..]);
    }
  }

  /** Plain characters at the head of a glob take as many from the path. */
  lemma {:induction false} LiteralConsumes(glob: string, path: string, n: nat)
    requires n <= |glob| && '*' !in glob[..n] && GlobAccepts(glob, path, Strict)
    ensures n <= |path| && path[..n] == glob[..n] && GlobAccepts(glob[n..], path[n..], Strict)
  {
    if n == 0 {
      assert glob[0..] == glob && path[0..] == path;
    } else {
      assert glob[0] == glob[..n][0];
      assert glob[1..][..n - 1] == glob[..n][1..];
      LiteralConsumes(glob[1..], path[1..], n - 1);
      assert glob[1..][n - 1..] == glob[n..] && path[1..][n - 1..] == path[n..];
    }
  }

  /** Whatever the exit gate accepts for a file, the harness core accepts too, as long as no mark is split. */
  lemma ExitGateMatchImpliesHarnessMatch(glob: string, path: string)
    requires Unsplit(glob) && SECTION[0] !in glob && forall c | c in glob :: Plain(c, Loose)
    requires !HasLineTerminator(path)
    ensures GlobMatch(glob, path) ==> MatchesGlob(path, glob)
  {
    assert '?' !in glob;
    assert forall c | c in glob :: Plain(c, Harness);
    GlobMatchIsDirect(glob, path);
    MatchesGlobIsHarness(glob, path);
    if GlobAccepts(glob, path, Strict) {
      HarnessAcceptsMore(glob, path);
    }
  }

  /** A clean glob is unsplit: what holds for unsplit globs holds for the clean ones. */
  lemma {:induction false} CleanIsUnsplit(glob: string)
    requires Clean(glob)
    ensures Unsplit(glob)
  {
    if glob != "" {
      CompletesInTwoWays(0, glob);
      assert PLACEHOLDER[0..] == PLACEHOLDER;
      if DOUBLE_STAR <= glob {
        assert glob[1..][1..] == glob[2..] && glob[1..] != "";
        CleanIsUnsplit(glob[2..]);
      } else {
        CleanIsUnsplit(glob[1..]);
      }
    }
  }

  // ----- what a trap does -----

  lemma {:induction false} LastLiteral(glob: string, c: char, path: string)
    requires c != '*' && c != '.'
    requires GlobAccepts(glob + [c], path, Loose)
    ensures path != "" && path[|path| - 1] == c
    decreases |glob|, |path|
  {
    var g := glob + [c];
    if glob == "" {
      assert g[1..] == "";
    } else if g[0] == '*' {
      var n := if DOUBLE_STAR <= g then 2 else 1;
      assert g[|glob|] == c;
      assert g[n..] == glob[n..] + [c];
      if GlobAccepts(g[n..], path, Loose) {
        LastLiteral(glob[n..], c, path);
      } else {
        LastLiteral(glob, c, path[1..]);
      }
    } else {
      assert g[1..] == glob[1..] + [c];
      LastLiteral(glob[1..], c, path[1..]);
    }
  }

  /** Where a placeholder can start early: `u**` then compiles to the pattern of `**v`. */
  lemma {:induction false} TrapCompilesToAnotherGlob(u: string, v: string)
    requires '*' !in u && '*' !in v && |v| < |PLACEHOLDER|
    requires u + PLACEHOLDER == PLACEHOLDER + v
    ensures LooseBody(u + DOUBLE_STAR) == Compiled(DOUBLE_STAR + v, Loose)
  {
    TwoReplacementsMark(u + DOUBLE_STAR);
    MarkedPlain(u, DOUBLE_STAR);
    MarkOfDoubleStar();
    ReplaceHit(PLACEHOLDER, v, ANY_RUN);
    TooShortToReplace(v);
    CompiledAfterDoubleStar(v);
  }

  lemma MarkOfDoubleStar()
    ensures Marked(DOUBLE_STAR) == PLACEHOLDER
  {
    assert DOUBLE_STAR[2..] == "";
    assert PLACEHOLDER + "" == PLACEHOLDER;
  }

  lemma CompiledAfterDoubleStar(s: string)
    requires '*' !in s
    ensures Compiled(DOUBLE_STAR + s, Loose) == ANY_RUN + s
  {
    assert (DOUBLE_STAR + s)[2..] == s;
    CompiledPlain(s);
  }

  lemma {:induction false} TooShortToReplace(s: string)
    requires |s| < |PLACEHOLDER|
    ensures ReplaceAll(s, PLACEHOLDER, ANY_RUN) == s
  {
    if s != "" {
      TooShortToReplace(s[1..]);
    }
  }

  lemma {:induction false} CompiledPlain(s: string)
    requires '*' !in s
    ensures Compiled(s, Loose) == s
  {
    if s != "" {
      CompiledPlain(s[1..]);
    }
  }

  /** A glob that compiles to the pattern of another glob matches as that one does. */
  lemma MatchesAsAnother(glob: string, other: string, path: string, dialect: Dialect)
    requires LooseBody(glob) == Compiled(other, dialect)
    requires forall c | c in other :: Plain(c, dialect)
    ensures MatchesGlob(path, glob) <==> GlobAccepts(other, path, dialect)
  {
    CompiledParses(other, dialect);
    ReMatchesDirectly(other, path, dialect);
  }

  lemma TrapSeparates(u: string, head: string, c: char, rest: string)
    requires '*' !in u && '*' !in head && c != '*' && c != '.' && |head| + 1 < |PLACEHOLDER|
    requires u + PLACEHOLDER == PLACEHOLDER + (head + [c])
    requires forall d | d in u + head + [c] :: Plain(d, Loose) && Plain(d, Strict) && d != SECTION[0]
    requires rest != "" && rest[|rest| - 1] != c && !HasLineTerminator(rest)
    ensures GlobMatch(u + DOUBLE_STAR, u + rest) && !MatchesGlob(u + rest, u + DOUBLE_STAR)
  {
    forall d | d in u
      ensures d != '?' && d != SECTION[0]
    {
      assert d in u + head + [c];
    }
    PrefixGlobMatches(u, rest);
    TrapCompilesToAnotherGlob(u, head + [c]);
    assert DOUBLE_STAR + (head + [c]) == (DOUBLE_STAR + head) + [c];
    MatchesAsAnother(u + DOUBLE_STAR, (DOUBLE_STAR + head) + [c], u + rest, Loose);
    if GlobAccepts((DOUBLE_STAR + head) + [c], u + rest, Loose) {
      LastLiteral(DOUBLE_STAR + head, c, u + rest);
    }
  }

  lemma PrefixGlobMatches(u: string, rest: string)
    requires '*' !in u && '?' !in u && SECTION[0] !in u && !HasLineTerminator(rest)
    ensures GlobMatch(u + DOUBLE_STAR, u + rest)
  {
    DoubleStarTakesAnything("", rest, |rest|, Strict);
    assert DOUBLE_STAR + "" == DOUBLE_STAR;
    LiteralPrefix(u, DOUBLE_STAR, rest);
    GlobMatchIsDirect(u + DOUBLE_STAR, u + rest);
  }

  /**
   * So the two matchers disagree under `___DSTAR**`: the exit gate accepts every file that begins
   * with `___DSTAR`, the harness core none of them that does not end in an underscore.
   */
  lemma TrapMakesTheMatchersDisagree(u: string, rest: string)
    requires u == "___DSTAR"
    requires rest != "" && rest[|rest| - 1] != '_' && !HasLineTerminator(rest)
    ensures GlobMatch(u + DOUBLE_STAR, u + rest) && !MatchesGlob(u + rest, u + DOUBLE_STAR)
  {
    var head := "DSTAR__";
    assert head + ['_'] == "DSTAR___";
    assert u + PLACEHOLDER == PLACEHOLDER + (head + ['_']);
    TrapSeparates(u, head, '_', rest);
  }

  /**
   * A split is not always harmful: the rest of the split mark may be completed to another
   * placeholder, so that what is left of the pattern is still in every file the exit gate accepts.
   */
  lemma SplitCanBeHarmless(u: string, v: string, path: string)
    requires u == "___DSTAR" && v == "DSTAR___"
    requires GlobMatch(u + (DOUBLE_STAR + v), path) && !HasLineTerminator(path)
    ensures !Unsplit(u + (DOUBLE_STAR + v)) && MatchesGlob(path, u + (DOUBLE_STAR + v))
  {
    var glob, other := u + (DOUBLE_STAR + v), DOUBLE_STAR + ("DSTAR" + DOUBLE_STAR);
    SplitMarkIsCompleted(u, v);
    SplitIsPlain(u, v);
    MatchesAsAnother(glob, other, path, Harness);
    GlobMatchIsDirect(glob, path);
    LiteralConsumes(glob, path, |u|);
    assert glob[..|u|] == u && path == u + path[|u|..];
    ContainsTheRest(u, path, path[|u|..]);
  }

  lemma SplitIsPlain(u: string, v: string)
    requires u == "___DSTAR" && v == "DSTAR___"
    ensures forall c | c in DOUBLE_STAR + ("DSTAR" + DOUBLE_STAR) :: Plain(c, Harness)
    ensures '?' !in u + (DOUBLE_STAR + v) && SECTION[0] !in u + (DOUBLE_STAR + v) && '*' !in u && '*' !in v
    ensures (u + (DOUBLE_STAR + v))[..|u|] == u
  {
  }

  lemma ContainsTheRest(u: string, path: string, rest: string)
    requires u == "___DSTAR" && path == u + rest && !HasLineTerminator(path)
    ensures GlobAccepts(DOUBLE_STAR + ("DSTAR" + DOUBLE_STAR), path, Harness)
  {
    var tail := path[3..];
    assert tail == "DSTAR" + rest;
    assert forall c | c in rest :: c in path;
    DoubleStarTakesAnything("", rest, |rest|, Strict);
    assert rest[|rest|..] == "" && DOUBLE_STAR + "" == DOUBLE_STAR;
    LiteralPrefix("DSTAR", DOUBLE_STAR, rest);
    DoubleStarTakesAnything("DSTAR" + DOUBLE_STAR, path, 3, Strict);
    HarnessAcceptsMore(DOUBLE_STAR + ("DSTAR" + DOUBLE_STAR), path);
  }

  lemma SplitMarkIsCompleted(u: string, v: string)
    requires u == "___DSTAR" && v == "DSTAR___"
    ensures LooseBody(u + (DOUBLE_STAR + v)) == Compiled(DOUBLE_STAR + ("DSTAR" + DOUBLE_STAR), Harness)
    ensures !Unsplit(u + (DOUBLE_STAR + v))
  {
    SplitIsPlain(u, v);
    TwoReplacementsMark(u + (DOUBLE_STAR + v));
    MarkBetween(u, v);
    MarksOverlap(u, v);
    BodyOfSplit();
    CompiledSplit();
    SplitBreaksOff(u, v);
  }

  lemma MarkBetween(u: string, v: string)
    requires '*' !in u && '*' !in v
    ensures Marked(u + (DOUBLE_STAR + v)) == u + (PLACEHOLDER + v)
  {
    MarkedPlain(u, DOUBLE_STAR + v);
    assert (DOUBLE_STAR + v)[2..] == v;
    MarkedPlain(v, "");
    assert v + "" == v;
  }

  lemma MarksOverlap(u: string, v: string)
    requires u == "___DSTAR" && v == "DSTAR___"
    ensures u + (PLACEHOLDER + v) == PLACEHOLDER + ("DSTAR" + PLACEHOLDER)
  {
    assert u + PLACEHOLDER == PLACEHOLDER + v && v + v == "DSTAR" + PLACEHOLDER;
    assert u + (PLACEHOLDER + v) == (u + PLACEHOLDER) + v == PLACEHOLDER + (v + v);
  }

  lemma BodyOfSplit()
    ensures ReplaceAll(PLACEHOLDER + ("DSTAR" + PLACEHOLDER), PLACEHOLDER, ANY_RUN) == ANY_RUN + ("DSTAR" + ANY_RUN)
  {
    ReplaceHit(PLACEHOLDER, "DSTAR" + PLACEHOLDER, ANY_RUN);
    ReplaceSkips("DSTAR", PLACEHOLDER, PLACEHOLDER, ANY_RUN);
    ReplaceHit(PLACEHOLDER, "", ANY_RUN);
    assert PLACEHOLDER + "" == PLACEHOLDER && ANY_RUN + "" == ANY_RUN;
  }

  lemma SplitBreaksOff(u: string, v: string)
    requires u == "___DSTAR" && v == "DSTAR___"
    ensures !Unsplit(u + (DOUBLE_STAR + v))
  {
    var glob := u + (DOUBLE_STAR + v);
    assert glob[..8] == u == PLACEHOLDER[0..8] && glob[8..] == DOUBLE_STAR + v;
    BreaksOffAfter(8, 0, glob);
    assert glob[0] == '_' && PLACEHOLDER[8] == '_' && glob[8] == '*';
  }

  lemma {:induction false} BreaksOffAfter(n: nat, k: nat, glob: string)
    requires k <= n && 8 <= n < 11 && |glob| >= n - k && DOUBLE_STAR <= glob[n - k..]
    requires glob[..n - k] == PLACEHOLDER[k..n]
    ensures BreaksOff(k, glob)
    decreases n - k
  {
    if k == n {
      assert glob[0..] == glob;
    } else {
      assert glob[0] == glob[..n - k][0] == PLACEHOLDER[k..n][0] == PLACEHOLDER[k];
      assert glob[1..][n - (k + 1)..] == glob[n - k..];
      assert glob[1..][..n - (k + 1)] == glob[..n - k][1..] == PLACEHOLDER[k..n][1..] == PLACEHOLDER[k + 1..n];
      BreaksOffAfter(n, k + 1, glob[1..]);
    }
  }

  lemma CompiledSplit()
    ensures Compiled(DOUBLE_STAR + ("DSTAR" + DOUBLE_STAR), Harness) == ANY_RUN + ("DSTAR" + ANY_RUN)
  {
    var t := "DSTAR" + DOUBLE_STAR;
    assert (DOUBLE_STAR + t)[2..] == t;
    CompiledLiteral("DSTAR", DOUBLE_STAR);
    assert DOUBLE_STAR[2..] == "" && ANY_RUN + "" == ANY_RUN;
  }

  lemma {:induction false} CompiledLiteral(u: string, s: string)
    requires '*' !in u && '_' !in u
    ensures Compiled(u + s, Harness) == u + Compiled(s, Harness)
  {
    if u == "" {
      assert u + s == s;
    } else {
      assert forall c | c in u[1..] :: c in u;
      CompiledLiteral(u[1..], s);
      CompiledChar(u[0], u[1..] + s);
      ConcatCons(u, s);
      ConcatCons(u, Compiled(s, Harness));
    }
  }

  lemma CompiledChar(c: char, s: string)
    requires c != '*' && c != '_'
    ensures Compiled([c] + s, Harness) == [c] + Compiled(s, Harness)
  {
    assert ([c] + s)[1..] == s && PLACEHOLDER[0] == '_' && DOUBLE_STAR[0] == '*';
  }

  lemma {:induction false} LiteralPrefix(u: string, glob: string, path: string)
    requires '*' !in u && GlobAccepts(glob, path, Strict)
    ensures GlobAccepts(u + glob, u + path, Strict)
  {
    if u == "" {
      assert u + glob == glob && u + path == path;
    } else {
      assert (u + glob)[1..] == u[1..] + glob && (u + path)[1..] == u[1..] + path;
      assert u[0] in u && (u + glob)[0] == u[0] && (u + path)[0] == u[0];
      LiteralPrefix(u[1..], glob, path);
    }
  }

  // ----- the exact globs for the implication, where every star is doubled -----

  /** Stars come in pairs. */
  predicate Doubled(glob: string) {
    if glob == "" then true
    else if DOUBLE_STAR <= glob then Doubled(glob[2..])
    else glob[0] != '*' && Doubled(glob[1..])
  }

  /** The glob that the placeholder pipeline makes of a glob with doubled stars. */
  function Read(glob: string): string {
    ReplaceAll(ReplaceAll(glob, DOUBLE_STAR, PLACEHOLDER), PLACEHOLDER, DOUBLE_STAR)
  }

  lemma {:induction false} NoStarIsLeft(glob: string)
    requires Doubled(glob)
    ensures '*' !in ReplaceAll(glob, DOUBLE_STAR, PLACEHOLDER)
  {
    if glob != "" {
      NoStarIsLeft(if DOUBLE_STAR <= glob then glob[2..] else glob[1..]);
    }
  }

  lemma {:induction false} NothingToReplace(s: string)
    requires '*' !in s
    ensures ReplaceAll(s, "*", SEGMENT_RUN) == s
  {
    if s != "" {
      assert s == [s[0]] + s[1..] && s[0] in s;
      NothingToReplace(s[1..]);
    }
  }

  lemma {:induction false} MarksReadAsStars(s: string)
    requires '*' !in s
    ensures Compiled(ReplaceAll(s, PLACEHOLDER, DOUBLE_STAR), Loose) == ReplaceAll(s, PLACEHOLDER, ANY_RUN)
  {
    if s == "" {
    } else if PLACEHOLDER <= s {
      var rest := ReplaceAll(s[|PLACEHOLDER|..], PLACEHOLDER, DOUBLE_STAR);
      MarksReadAsStars(s[|PLACEHOLDER|..]);
      assert (DOUBLE_STAR + rest)[2..] == rest;
    } else {
      MarksReadAsStars(s[1..]);
      LooseChar(s[0], ReplaceAll(s[1..], PLACEHOLDER, DOUBLE_STAR));
    }
  }

  lemma LooseChar(c: char, s: string)
    requires c != '*'
    ensures Compiled([c] + s, Loose) == [c] + Compiled(s, Loose)
  {
    assert ([c] + s)[1..] == s && DOUBLE_STAR[0] == '*';
  }

  lemma {:induction false} ReplacedChars(s: string, pattern: string, filler: string, c: char)
    requires pattern != "" && c in ReplaceAll(s, pattern, filler)
    ensures c in s || c in filler
  {
    if s != "" {
      var n := if pattern <= s then |pattern| else 1;
      if c in ReplaceAll(s[n..], pattern, filler) {
        ReplacedChars(s[n..], pattern, filler, c);
      }
      assert forall d | d in s[n..] :: d in s;
    }
  }

  /** A plain character other than the dot: it means itself in both dialects. */
  predicate Inert(c: char) {
    Plain(c, Loose) && c != '.' && c != SECTION[0] && !IsLineTerminator(c)
  }

  /** For globs with doubled stars the harness core's matcher is the direct matcher of what it reads, traps or not. */
  lemma MatchesGlobReads(glob: string, path: string)
    requires Doubled(glob) && forall c | c in glob :: Inert(c)
    ensures MatchesGlob(path, glob) <==> GlobAccepts(Read(glob), path, Loose)
  {
    LooseBodyReads(glob);
    forall c | c in Read(glob)
      ensures Plain(c, Loose)
    {
      CharOfRead(glob, c);
      assert c in PLACEHOLDER ==> Plain(c, Loose);
    }
    MatchesAsAnother(glob, Read(glob), path, Loose);
  }

  lemma LooseBodyReads(glob: string)
    requires Doubled(glob)
    ensures LooseBody(glob) == Compiled(Read(glob), Loose)
  {
    var marked := ReplaceAll(glob, DOUBLE_STAR, PLACEHOLDER);
    NoStarIsLeft(glob);
    NothingToReplace(marked);
    MarksReadAsStars(marked);
  }

  lemma CharOfRead(glob: string, c: char)
    requires c in Read(glob)
    ensures c in glob || c in PLACEHOLDER || c == '*'
  {
    ReplacedChars(ReplaceAll(glob, DOUBLE_STAR, PLACEHOLDER), PLACEHOLDER, DOUBLE_STAR, c);
    if c !in DOUBLE_STAR {
      ReplacedChars(glob, DOUBLE_STAR, PLACEHOLDER, c);
    }
  }

  lemma {:induction false} StarsStayDoubled(s: string)
    requires '*' !in s
    ensures Doubled(ReplaceAll(s, PLACEHOLDER, DOUBLE_STAR))
  {
    if s == "" {
    } else if PLACEHOLDER <= s {
      var rest := ReplaceAll(s[|PLACEHOLDER|..], PLACEHOLDER, DOUBLE_STAR);
      StarsStayDoubled(s[|PLACEHOLDER|..]);
      assert (DOUBLE_STAR + rest)[2..] == rest;
    } else {
      var rest := ReplaceAll(s[1..], PLACEHOLDER, DOUBLE_STAR);
      StarsStayDoubled(s[1..]);
      assert ([s[0]] + rest)[1..] == rest && s[0] in s && DOUBLE_STAR[0] == '*';
    }
  }

  /** The glob as a path, with one character for each `**`. */
  function Filled(glob: string, z: char): string {
    if glob == "" then ""
    else if DOUBLE_STAR <= glob then [z] + Filled(glob[2..], z)
    else [glob[0]] + Filled(glob[1..], z)
  }

  lemma {:induction false} FilledIsAccepted(glob: string, z: char)
    requires Doubled(glob) && !IsLineTerminator(z) && forall c | c in glob :: !IsLineTerminator(c)
    ensures GlobAccepts(glob, Filled(glob, z), Strict) && !HasLineTerminator(Filled(glob, z))
  {
    if glob == "" {
    } else if DOUBLE_STAR <= glob {
      var rest := Filled(glob[2..], z);
      FilledIsAccepted(glob[2..], z);
      assert ([z] + rest)[1..] == rest;
      assert GlobAccepts(glob, rest, Strict);
    } else {
      var rest := Filled(glob[1..], z);
      assert glob[0] in glob && forall c | c in glob[1..] :: c in glob;
      FilledIsAccepted(glob[1..], z);
      assert ([glob[0]] + rest)[1..] == rest;
    }
  }

  /**
   * If one glob accepts another as a path, a character it does not mention standing for each `**`,
   * it accepts every path of the other: only a `**` can have taken that character.
   */
  lemma {:induction false} AcceptingTheFilledIsAcceptingAll(q: string, p: string, path: string, z: char)
    requires Doubled(q) && Doubled(p) && z !in q && z != '*' && '.' !in q
    requires !HasLineTerminator(path) && GlobAccepts(p, path, Strict) && GlobAccepts(q, Filled(p, z), Loose)
    ensures GlobAccepts(q, path, Loose)
    decreases |q| + |p| + |path|
  {
    if DOUBLE_STAR <= q {
      if GlobAccepts(q[2..], Filled(p, z), Loose) {
        AcceptingTheFilledIsAcceptingAll(q[2..], p, path, z);
      } else {
        AnyRunCovers(q, p, path, z);
      }
    } else if q == "" {
      assert p == "";
    } else {
      assert q[0] in q;
      LiteralCovers(q, p, path, z);
    }
  }

  lemma {:induction false} AnyRunCovers(q: string, p: string, path: string, z: char)
    requires Doubled(q) && Doubled(p) && z !in q && z != '*' && '.' !in q
    requires !HasLineTerminator(path) && GlobAccepts(p, path, Strict) && GlobAccepts(q, Filled(p, z), Loose)
    requires DOUBLE_STAR <= q && !GlobAccepts(q[2..], Filled(p, z), Loose)
    ensures GlobAccepts(q, path, Loose)
    decreases |q| + |p| + |path|, 0
  {
    var filled := Filled(p, z);
    assert filled != "" && GlobAccepts(q, filled[1..], Loose);
    if DOUBLE_STAR <= p {
      assert filled[1..] == Filled(p[2..], z);
      var n := RunTakes(p, path);
      AcceptingTheFilledIsAcceptingAll(q, p[2..], path[n..], z);
      RunKeepsTaking(q, path, n);
    } else {
      assert filled[1..] == Filled(p[1..], z);
      AcceptingTheFilledIsAcceptingAll(q, p[1..], path[1..], z);
    }
  }

  /** How much of the path the leading `**` takes. */
  lemma {:induction false} RunTakes(p: string, path: string) returns (n: nat)
    requires DOUBLE_STAR <= p && GlobAccepts(p, path, Strict)
    ensures n <= |path| && GlobAccepts(p[2..], path[n..], Strict)
    decreases |path|
  {
    n := 0;
    if GlobAccepts(p[2..], path, Strict) {
      assert path[0..] == path;
    } else {
      n := RunTakes(p, path[1..]);
      assert path[1..][n..] == path[n + 1..];
      n := n + 1;
    }
  }

  lemma {:induction false} RunKeepsTaking(q: string, path: string, n: nat)
    requires DOUBLE_STAR <= q && n <= |path| && !HasLineTerminator(path) && GlobAccepts(q, path[n..], Loose)
    ensures GlobAccepts(q, path, Loose)
    decreases n
  {
    if n == 0 {
      assert path[0..] == path;
    } else {
      assert path[1..][n - 1..] == path[n..];
      RunKeepsTaking(q, path[1..], n - 1);
    }
  }

  lemma {:induction false} LiteralCovers(q: string, p: string, path: string, z: char)
    requires Doubled(q) && Doubled(p) && z !in q && z != '*' && '.' !in q
    requires !HasLineTerminator(path) && GlobAccepts(p, path, Strict) && GlobAccepts(q, Filled(p, z), Loose)
    requires q != "" && q[0] in q && !(DOUBLE_STAR <= q)
    ensures GlobAccepts(q, path, Loose)
    decreases |q| + |p| + |path|, 0
  {
    var filled := Filled(p, z);
    assert q[0] != '*' && q[0] != '.' && q[0] != z;
    assert filled != "" && filled[0] == q[0] && GlobAccepts(q[1..], filled[1..], Loose);
    assert p != "" && !(DOUBLE_STAR <= p) && filled[1..] == Filled(p[1..], z);
    assert forall c | c in q[1..] :: c in q;
    AcceptingTheFilledIsAcceptingAll(q[1..], p[1..], path[1..], z);
  }

  /**
   * Exactly when the exit gate's matches are the harness core's: for a glob with doubled stars, iff
   * the harness core accepts the glob itself as a path, an unused character standing for each `**`.
   */
  lemma ImplicationIffFilledIsAccepted(glob: string, z: char)
    requires Doubled(glob) && forall c | c in glob :: Inert(c)
    requires z !in glob && z !in PLACEHOLDER && z != '*' && !IsLineTerminator(z)
    ensures
      (forall path | !HasLineTerminator(path) && GlobMatch(glob, path) :: MatchesGlob(path, glob))
      <==> MatchesGlob(Filled(glob, z), glob)
  {
    assert '?' !in glob && SECTION[0] !in glob;
    FilledIsAccepted(glob, z);
    GlobMatchIsDirect(glob, Filled(glob, z));
    if MatchesGlob(Filled(glob, z), glob) {
      MatchesGlobReads(glob, Filled(glob, z));
      ReadIsDoubledAndInert(glob, z);
      forall path | !HasLineTerminator(path) && GlobMatch(glob, path)
        ensures MatchesGlob(path, glob)
      {
        GlobMatchIsDirect(glob, path);
        AcceptingTheFilledIsAcceptingAll(Read(glob), glob, path, z);
        MatchesGlobReads(glob, path);
      }
    }
  }

  lemma ReadIsDoubledAndInert(glob: string, z: char)
    requires Doubled(glob) && forall c | c in glob :: Inert(c)
    requires z !in glob && z !in PLACEHOLDER && z != '*'
    ensures Doubled(Read(glob)) && z !in Read(glob) && '.' !in Read(glob)
  {
    NoStarIsLeft(glob);
    StarsStayDoubled(ReplaceAll(glob, DOUBLE_STAR, PLACEHOLDER));
    forall c | c in Read(glob)
      ensures c != z && c != '.'
    {
      CharOfRead(glob, c);
    }
  }
}
