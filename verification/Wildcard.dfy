/** The coordinate wildcard matcher: a pattern byte `*` stands for any byte string, every
    other byte for itself. The matcher keeps only the latest star it passed. */
module Wildcard {
  import opened Common

  type Bytes = seq<Byte>

  const STAR: Byte := 42

  /** What a pattern means, independently of any matching strategy. */
  ghost predicate Denotes(pattern: Bytes, value: Bytes)
    decreases |pattern|
  {
    if pattern == [] then value == []
    else if pattern[0] == STAR then
      exists k :: 0 <= k <= |value| && Denotes(pattern[1..], value[k..])
    else value != [] && value[0] == pattern[0] && Denotes(pattern[1..], value[1..])
  }

  predicate AllStars(pattern: Bytes) {
    forall i :: 0 <= i < |pattern| ==> pattern[i] == STAR
  }

  /** The backtrack point: the index after the latest star, and the value index it was
      last extended to. */
  datatype Backtrack = NoStar | Star(index: nat, valueIndex: nat)

  ghost predicate Reachable(pattern: Bytes, value: Bytes, p: nat, v: nat, back: Backtrack) {
    && p <= |pattern| && v <= |value|
    && (back.Star? ==> back.index < p && back.valueIndex <= v && pattern[back.index] == STAR)
  }

  /** The outcome of the matcher from one of its loop states. */
  ghost predicate Outcome(pattern: Bytes, value: Bytes, p: nat, v: nat, back: Backtrack)
    requires Reachable(pattern, value, p, v, back)
    decreases |value| - (if back.Star? then back.valueIndex else 0), |value| - v, |pattern| - p
  {
    if v == |value| then AllStars(pattern[p..])
    else if p < |pattern| && pattern[p] == value[v] then
      Outcome(pattern, value, p + 1, v + 1, back)
    else if p < |pattern| && pattern[p] == STAR then
      Outcome(pattern, value, p + 1, v, Star(p, v))
    else if back.Star? then
      Outcome(pattern, value, back.index + 1, back.valueIndex + 1, back.(valueIndex := back.valueIndex + 1))
    else false
  }

  /** What is still open in a loop state: the rest matches here, or the latest star can
      swallow more. Earlier stars are not mentioned. */
  ghost predicate Open(pattern: Bytes, value: Bytes, p: nat, v: nat, back: Backtrack)
    requires Reachable(pattern, value, p, v, back)
  {
    || Denotes(pattern[p..], value[v..])
    || (back.Star? && exists k :: back.valueIndex < k <= |value| && Denotes(pattern[back.index + 1..], value[k..]))
  }

  /** Since the latest star the matcher has only consumed equal bytes. */
  ghost predicate SegmentMatched(pattern: Bytes, value: Bytes, p: nat, v: nat, back: Backtrack)
    requires Reachable(pattern, value, p, v, back)
  {
    back.Star? ==> pattern[back.index + 1..p] == value[back.valueIndex..v]
  }

  /** No `*` before the last byte of the value. Maven coordinates contain no `*` at all. */
  predicate NoInnerStar(value: Bytes) {
    forall i :: 0 <= i < |value| - 1 ==> value[i] != STAR
  }

  lemma {:induction false} OnlyStarsDenoteAtMostAStar(pattern: Bytes, value: Bytes)
    requires value == [] || value == [STAR]
    requires Denotes(pattern, value)
    ensures AllStars(pattern)
  {
    if pattern != [] {
      var k :| 0 <= k <= |value| && Denotes(pattern[1..], value[k..]);
      OnlyStarsDenoteAtMostAStar(pattern[1..], value[k..]);
      assert pattern == [pattern[0]] + pattern[1..];
    }
  }

  lemma {:induction false} StarsDenoteEmpty(pattern: Bytes)
    requires AllStars(pattern)
    ensures Denotes(pattern, [])
  {
    if pattern != [] {
      StarsDenoteEmpty(pattern[1..]);
      var value: Bytes := [];
      assert value[0..] == [];
    }
  }

  /** Star-free pattern bytes must be found literally. */
  lemma {:induction false} LiteralPrefix(literal: Bytes, rest: Bytes, value: Bytes)
    requires STAR !in literal && Denotes(literal + rest, value)
    ensures |literal| <= |value| && Denotes(rest, value[|literal|..])
  {
    if literal == [] {
      assert literal + rest == rest && value[0..] == value;
    } else {
      var pattern := literal + rest;
      assert pattern[0] == literal[0] && pattern[1..] == literal[1..] + rest;
      assert value != [] && Denotes(pattern[1..], value[1..]);
      LiteralPrefix(literal[1..], rest, value[1..]);
      assert value[1..][|literal| - 1..] == value[|literal|..];
    }
  }

  /** A match found by the loop is always a real one, whatever the value contains. */
  lemma {:induction false} OutcomeIsSound(pattern: Bytes, value: Bytes, p: nat, v: nat, back: Backtrack)
    requires Reachable(pattern, value, p, v, back) && Outcome(pattern, value, p, v, back)
    ensures Open(pattern, value, p, v, back)
    decreases |value| - (if back.Star? then back.valueIndex else 0), |value| - v, |pattern| - p
  {
    if v == |value| {
      StarsDenoteEmpty(pattern[p..]);
      assert value[v..] == [];
    } else if p < |pattern| && pattern[p] == value[v] {
      OutcomeIsSound(pattern, value, p + 1, v + 1, back);
      assert pattern[p..][1..] == pattern[p + 1..] && value[v..][1..] == value[v + 1..];
    } else if p < |pattern| && pattern[p] == STAR {
      OutcomeIsSound(pattern, value, p + 1, v, Star(p, v));
      StarSwallows(pattern, value, p, v);
    } else {
      OutcomeIsSound(pattern, value, back.index + 1, back.valueIndex + 1, back.(valueIndex := back.valueIndex + 1));
    }
  }

  lemma StarSwallows(pattern: Bytes, value: Bytes, p: nat, v: nat)
    requires p < |pattern| && pattern[p] == STAR && v <= |value|
    ensures Denotes(pattern[p..], value[v..])
       <==> exists k :: v <= k <= |value| && Denotes(pattern[p + 1..], value[k..])
  {
    assert pattern[p..][1..] == pattern[p + 1..];
    forall j | 0 <= j <= |value| - v ensures value[v..][j..] == value[v + j..] {}
    if k :| v <= k <= |value| && Denotes(pattern[p + 1..], value[k..]) {
      assert value[v..][k - v..] == value[k..];
    }
  }

  /** An alternative of the latest star lets the literals behind it match further right. */
  lemma SegmentShifts(pattern: Bytes, value: Bytes, p: nat, v: nat, back: Backtrack, k: nat)
    requires Reachable(pattern, value, p, v, back) && back.Star? && back.valueIndex < k <= |value|
    requires SegmentMatched(pattern, value, p, v, back) && v < |value| && NoInnerStar(value)
    requires Denotes(pattern[back.index + 1..], value[k..])
    ensures var shifted := k + (v - back.valueIndex);
            v < shifted <= |value| && Denotes(pattern[p..], value[shifted..])
  {
    var literal := pattern[back.index + 1..p];
    assert STAR !in literal by { assert literal == value[back.valueIndex..v]; }
    assert pattern[back.index + 1..] == literal + pattern[p..];
    LiteralPrefix(literal, pattern[p..], value[k..]);
    assert |literal| == v - back.valueIndex;
    assert value[k..][|literal|..] == value[k + |literal|..];
  }

  /** Keeping only the latest star loses no match. */
  lemma {:induction false} OutcomeIsComplete(pattern: Bytes, value: Bytes, p: nat, v: nat, back: Backtrack)
    requires Reachable(pattern, value, p, v, back) && SegmentMatched(pattern, value, p, v, back)
    requires NoInnerStar(value) && v < |value| && Open(pattern, value, p, v, back)
    ensures Outcome(pattern, value, p, v, back)
    decreases |value| - (if back.Star? then back.valueIndex else 0), |value| - v, |pattern| - p
  {
    if p < |pattern| && pattern[p] == value[v] {
      if v + 1 == |value| {
        LastByteConsumed(pattern, value, p, v, back);
      } else {
        LiteralStep(pattern, value, p, v, back);
        OutcomeIsComplete(pattern, value, p + 1, v + 1, back);
      }
    } else if p < |pattern| && pattern[p] == STAR {
      NewestStarSuffices(pattern, value, p, v, back);
      OutcomeIsComplete(pattern, value, p + 1, v, Star(p, v));
    } else if back.Star? {
      BacktrackKeepsAlternatives(pattern, value, p, v, back);
      if back.valueIndex + 1 == |value| {
        OnlyStarsDenoteAtMostAStar(pattern[back.index + 1..], value[|value|..]);
      } else {
        hide Open; hide Denotes;
        OutcomeIsComplete(pattern, value, back.index + 1, back.valueIndex + 1, back.(valueIndex := back.valueIndex + 1));
      }
    }
  }

  lemma LiteralStep(pattern: Bytes, value: Bytes, p: nat, v: nat, back: Backtrack)
    requires Reachable(pattern, value, p, v, back) && SegmentMatched(pattern, value, p, v, back)
    requires v < |value| && p < |pattern| && pattern[p] == value[v] != STAR
    requires Open(pattern, value, p, v, back)
    ensures SegmentMatched(pattern, value, p + 1, v + 1, back) && Open(pattern, value, p + 1, v + 1, back)
  {
    assert pattern[p..][1..] == pattern[p + 1..] && value[v..][1..] == value[v + 1..];
    if back.Star? {
      assert pattern[back.index + 1..p + 1] == pattern[back.index + 1..p] + [pattern[p]];
      assert value[back.valueIndex..v + 1] == value[back.valueIndex..v] + [value[v]];
    }
  }

  lemma NewestStarSuffices(pattern: Bytes, value: Bytes, p: nat, v: nat, back: Backtrack)
    requires Reachable(pattern, value, p, v, back) && SegmentMatched(pattern, value, p, v, back)
    requires NoInnerStar(value) && v < |value| && p < |pattern| && pattern[p] == STAR
    requires Open(pattern, value, p, v, back)
    ensures Open(pattern, value, p + 1, v, Star(p, v))
  {
    if !Denotes(pattern[p..], value[v..]) {
      var k :| back.valueIndex < k <= |value| && Denotes(pattern[back.index + 1..], value[k..]);
      SegmentShifts(pattern, value, p, v, back, k);
      StarSwallows(pattern, value, p, k + (v - back.valueIndex));
    }
    StarSwallows(pattern, value, p, v);
  }

  lemma BacktrackKeepsAlternatives(pattern: Bytes, value: Bytes, p: nat, v: nat, back: Backtrack)
    requires Reachable(pattern, value, p, v, back) && back.Star? && v < |value|
    requires p == |pattern| || (pattern[p] != value[v] && pattern[p] != STAR)
    requires Open(pattern, value, p, v, back)
    ensures back.valueIndex + 1 < |value| ==>
              Open(pattern, value, back.index + 1, back.valueIndex + 1, back.(valueIndex := back.valueIndex + 1))
    ensures back.valueIndex + 1 == |value| ==> Denotes(pattern[back.index + 1..], value[|value|..])
  {
    assert !Denotes(pattern[p..], value[v..]);
  }

  /** The last value byte may be a `*`: the pattern's star then consumes it as if literal. */
  lemma LastByteConsumed(pattern: Bytes, value: Bytes, p: nat, v: nat, back: Backtrack)
    requires Reachable(pattern, value, p, v, back) && SegmentMatched(pattern, value, p, v, back)
    requires NoInnerStar(value) && v + 1 == |value| && p < |pattern| && pattern[p] == value[v]
    requires Open(pattern, value, p, v, back)
    ensures AllStars(pattern[p + 1..])
  {
    assert pattern[p..][1..] == pattern[p + 1..] && value[v..] == [value[v]];
    if Denotes(pattern[p..], value[v..]) {
      if pattern[p] == STAR {
        OnlyStarsDenoteAtMostAStar(pattern[p..], value[v..]);
      } else {
        OnlyStarsDenoteAtMostAStar(pattern[p + 1..], value[v..][1..]);
      }
    } else {
      var k :| back.valueIndex < k <= |value| && Denotes(pattern[back.index + 1..], value[k..]);
      SegmentShifts(pattern, value, p, v, back, k);
      OnlyStarsDenoteAtMostAStar(pattern[p..], []);
    }
  }

  ghost predicate Matches(pattern: Bytes, value: Bytes) {
    Outcome(pattern, value, 0, 0, NoStar)
  }

  lemma MatchIsSound(pattern: Bytes, value: Bytes)
    requires Matches(pattern, value)
    ensures Denotes(pattern, value)
  {
    OutcomeIsSound(pattern, value, 0, 0, NoStar);
    assert pattern[0..] == pattern && value[0..] == value;
  }

  lemma MatchIsComplete(pattern: Bytes, value: Bytes)
    requires NoInnerStar(value) && Denotes(pattern, value)
    ensures Matches(pattern, value)
  {
    assert pattern[0..] == pattern && value[0..] == value;
    if value == [] {
      OnlyStarsDenoteAtMostAStar(pattern, value);
    } else {
      OutcomeIsComplete(pattern, value, 0, 0, NoStar);
    }
  }

  /** A value's own `*` swallows the pattern's star: the prefix up to it, starred, is missed. */
  lemma {:induction false} InnerStarIsMissed(value: Bytes, i: nat, p: nat)
    requires i < |value| - 1 && value[i] == STAR && p <= i + 1
    ensures !Outcome(value[..i + 1], value, p, p, NoStar)
    decreases i + 1 - p
  {
    if p <= i {
      InnerStarIsMissed(value, i, p + 1);
    }
  }

  lemma {:induction false} PrefixWithStar(pattern: Bytes, value: Bytes)
    requires pattern != [] && pattern[|pattern| - 1] == STAR && pattern <= value
    ensures Denotes(pattern, value)
  {
    if |pattern| == 1 {
      assert value[|value|..] == [];
    } else {
      PrefixWithStar(pattern[1..], value[1..]);
    }
  }

  /** Exactly the values without an inner `*` are matched correctly by every pattern. */
  lemma CorrectForEveryPatternIffNoInnerStar(value: Bytes)
    ensures (forall pattern :: Matches(pattern, value) <==> Denotes(pattern, value)) <==> NoInnerStar(value)
  {
    if NoInnerStar(value) {
      forall pattern ensures Matches(pattern, value) <==> Denotes(pattern, value) {
        if Matches(pattern, value) { MatchIsSound(pattern, value); }
        if Denotes(pattern, value) { MatchIsComplete(pattern, value); }
      }
    } else {
      var i: nat :| i < |value| - 1 && value[i] == STAR;
      var pattern := value[..i + 1];
      InnerStarIsMissed(value, i, 0);
      PrefixWithStar(pattern, value);
      assert !(Matches(pattern, value) <==> Denotes(pattern, value));
    }
  }

  method WildcardMatches(pattern: Bytes, value: Bytes) returns (matched: bool)
    ensures matched ==> Denotes(pattern, value)
    ensures NoInnerStar(value) ==> (matched <==> Denotes(pattern, value))
    ensures matched <==> Matches(pattern, value)
  {
    var patternIndex: nat, valueIndex: nat, back := 0, 0, NoStar;
    while valueIndex < |value|
      invariant Reachable(pattern, value, patternIndex, valueIndex, back)
      invariant Matches(pattern, value) <==> Outcome(pattern, value, patternIndex, valueIndex, back)
      decreases |value| - (if back.Star? then back.valueIndex else 0), |value| - valueIndex, |pattern| - patternIndex
    {
      if patternIndex < |pattern| && pattern[patternIndex] == value[valueIndex] {
        patternIndex, valueIndex := patternIndex + 1, valueIndex + 1;
      } else if patternIndex < |pattern| && pattern[patternIndex] == STAR {
        back := Star(patternIndex, valueIndex);
        patternIndex := patternIndex + 1;
      } else if back.Star? {
        back := back.(valueIndex := back.valueIndex + 1);
        patternIndex, valueIndex := back.index + 1, back.valueIndex;
      } else {
        if Denotes(pattern, value) && NoInnerStar(value) { MatchIsComplete(pattern, value); }
        return false;
      }
    }
    matched := forall i :: patternIndex <= i < |pattern| ==> pattern[i] == STAR;
    assert pattern == pattern[..patternIndex] + pattern[patternIndex..];
    if matched { MatchIsSound(pattern, value); }
    if Denotes(pattern, value) && NoInnerStar(value) { MatchIsComplete(pattern, value); }
  }
}
