/**
 * Regular expressions over any alphabet and the words they match.  A symbol class `A` is related
 * to the letters `T` it accepts by a predicate.
 */
module Regex {

  datatype Re<A> =
    | Empty
    | One(symbol: A)
    | Cat(first: Re<A>, second: Re<A>)
    | Star(body: Re<A>)

  predicate Matches<A, T>(re: Re<A>, w: seq<T>, accepts: (A, T) -> bool)
    decreases re, |w|, 1
  {
    match re
    case Empty => |w| == 0
    case One(a) => |w| == 1 && accepts(a, w[0])
    case Cat(_, _) => exists i | 0 <= i <= |w| :: CatAt(re, w, i, accepts)
    case Star(_) => |w| == 0 || exists i | 0 < i <= |w| :: StarAt(re, w, i, accepts)
  }

  predicate CatAt<A, T>(re: Re<A>, w: seq<T>, i: nat, accepts: (A, T) -> bool)
    requires re.Cat? && i <= |w|
    decreases re, |w|, 0
  {
    Matches(re.first, w[..i], accepts) && Matches(re.second, w[i..], accepts)
  }

  predicate StarAt<A, T>(re: Re<A>, w: seq<T>, i: nat, accepts: (A, T) -> bool)
    requires re.Star? && 0 < i <= |w|
    decreases re, |w|, 0
  {
    Matches(re.body, w[..i], accepts) && Matches(re, w[i..], accepts)
  }

  lemma CatMatches<A, T>(first: Re<A>, second: Re<A>, u: seq<T>, v: seq<T>, accepts: (A, T) -> bool)
    requires Matches(first, u, accepts) && Matches(second, v, accepts)
    ensures Matches(Cat(first, second), u + v, accepts)
  {
    var w := u + v;
    assert w[..|u|] == u && w[|u|..] == v;
    assert CatAt(Cat(first, second), w, |u|, accepts);
  }

  lemma CatSplits<A, T>(first: Re<A>, second: Re<A>, w: seq<T>, accepts: (A, T) -> bool) returns (u: seq<T>, v: seq<T>)
    requires Matches(Cat(first, second), w, accepts)
    ensures w == u + v && Matches(first, u, accepts) && Matches(second, v, accepts)
  {
    var i: nat :| i <= |w| && CatAt(Cat(first, second), w, i, accepts);
    u, v := w[..i], w[i..];
  }

  lemma StarCons<A, T>(body: Re<A>, u: seq<T>, v: seq<T>, accepts: (A, T) -> bool)
    requires u != [] && Matches(body, u, accepts) && Matches(Star(body), v, accepts)
    ensures Matches(Star(body), u + v, accepts)
  {
    var w := u + v;
    assert w[..|u|] == u && w[|u|..] == v;
    assert StarAt(Star(body), w, |u|, accepts);
  }

  lemma StarSplits<A, T>(body: Re<A>, w: seq<T>, accepts: (A, T) -> bool) returns (u: seq<T>, v: seq<T>)
    requires w != [] && Matches(Star(body), w, accepts)
    ensures w == u + v && u != [] && Matches(body, u, accepts) && Matches(Star(body), v, accepts)
  {
    var i: nat :| 0 < i <= |w| && StarAt(Star(body), w, i, accepts);
    u, v := w[..i], w[i..];
  }

  lemma CatOne<A, T>(first: Re<A>, a: A, u: seq<T>, x: T, accepts: (A, T) -> bool)
    requires Matches(first, u, accepts) && accepts(a, x)
    ensures Matches(Cat(first, One(a)), u + [x], accepts)
  {
    CatMatches(first, One(a), u, [x], accepts);
  }

  /** A repetition of one symbol, followed by something: stop here, or take one letter and stay. */
  lemma StarOneThen<A, T>(a: A, rest: Re<A>, w: seq<T>, accepts: (A, T) -> bool)
    ensures Matches(Cat(Star(One(a)), rest), w, accepts) <==>
            || Matches(rest, w, accepts)
            || (w != [] && accepts(a, w[0]) && Matches(Cat(Star(One(a)), rest), w[1..], accepts))
  {
    var loop := Star(One(a));
    if Matches(Cat(loop, rest), w, accepts) {
      var u, v := CatSplits(loop, rest, w, accepts);
      if u != [] {
        var x, y := StarSplits(One(a), u, accepts);
        CatMatches(loop, rest, y, v, accepts);
        assert w[1..] == y + v;
      } else {
        assert v == w;
      }
    }
    if Matches(rest, w, accepts) {
      CatMatches(loop, rest, [], w, accepts);
      assert [] + w == w;
    }
    if w != [] && accepts(a, w[0]) && Matches(Cat(loop, rest), w[1..], accepts) {
      var u, v := CatSplits(loop, rest, w[1..], accepts);
      StarCons(One(a), [w[0]], u, accepts);
      CatMatches(loop, rest, [w[0]] + u, v, accepts);
      assert ([w[0]] + u) + v == w;
    }
  }

  lemma OneThen<A, T>(a: A, rest: Re<A>, w: seq<T>, accepts: (A, T) -> bool)
    ensures Matches(Cat(One(a), rest), w, accepts) <==> w != [] && accepts(a, w[0]) && Matches(rest, w[1..], accepts)
  {
    if Matches(Cat(One(a), rest), w, accepts) {
      var u, v := CatSplits(One(a), rest, w, accepts);
      assert v == w[1..];
    }
    if w != [] && accepts(a, w[0]) && Matches(rest, w[1..], accepts) {
      CatMatches(One(a), rest, [w[0]], w[1..], accepts);
      assert [w[0]] + w[1..] == w;
    }
  }

  /** A repetition may be extended at its end. */
  lemma {:induction false} StarSnoc<A, T>(body: Re<A>, u: seq<T>, v: seq<T>, accepts: (A, T) -> bool)
    requires Matches(Star(body), u, accepts) && Matches(body, v, accepts)
    ensures Matches(Star(body), u + v, accepts)
    decreases |u|
  {
    if v == [] {
      assert u + v == u;
    } else if u == [] {
      assert v + [] == v == u + v;
      StarCons(body, v, [], accepts);
    } else {
      var x, y := StarSplits(body, u, accepts);
      StarSnoc(body, y, v, accepts);
      StarCons(body, x, y + v, accepts);
      assert x + (y + v) == u + v;
    }
  }

  /** `r · body* · body` is part of `r · body*`. */
  lemma CatStarSnoc<A, T>(first: Re<A>, body: Re<A>, u: seq<T>, v: seq<T>, accepts: (A, T) -> bool)
    requires Matches(Cat(first, Star(body)), u, accepts) && Matches(body, v, accepts)
    ensures Matches(Cat(first, Star(body)), u + v, accepts)
  {
    var x, y := CatSplits(first, Star(body), u, accepts);
    StarSnoc(body, y, v, accepts);
    CatMatches(first, Star(body), x, y + v, accepts);
    assert x + (y + v) == u + v;
  }

  lemma CatStarNone<A, T>(first: Re<A>, body: Re<A>, u: seq<T>, accepts: (A, T) -> bool)
    requires Matches(first, u, accepts)
    ensures Matches(Cat(first, Star(body)), u, accepts)
  {
    CatMatches(first, Star(body), u, [], accepts);
    assert u + [] == u;
  }
}
