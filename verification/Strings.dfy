/** Trimming, searching and splitting of ASCII text, as the standard library of the program does it. */
module Strings {
  import opened Common

  predicate IsSpace(c: char) { c == ' ' || '\t' <= c <= '\r' }

  predicate NoSpace(s: string) { forall i :: 0 <= i < |s| ==> !IsSpace(s[i]) }

  /** Text that trimming leaves alone. */
  predicate Tight(s: string) { s != "" ==> !IsSpace(s[0]) && !IsSpace(s[|s| - 1]) }

  function TrimStart(s: string): (t: string)
    ensures t == "" || !IsSpace(t[0])
  {
    if s != "" && IsSpace(s[0]) then TrimStart(s[1..]) else s
  }

  function TrimEnd(s: string): (t: string)
    ensures t == "" || !IsSpace(t[|t| - 1])
  {
    if s != "" && IsSpace(s[|s| - 1]) then TrimEnd(s[..|s| - 1]) else s
  }

  function Trim(s: string): string { TrimEnd(TrimStart(s)) }

  predicate At(s: string, pat: string, i: int) {
    0 <= i && i + |pat| <= |s| && s[i..i + |pat|] == pat
  }

  lemma StartsAt(s: string, pat: string, i: int)
    requires pat != ""
    ensures At(s, pat, i) ==> 0 <= i < |s| && s[i] == pat[0]
  {
    if At(s, pat, i) {
      assert s[i..i + |pat|][0] == s[i];
    }
  }

  lemma PairAt(s: string, pat: string, i: int)
    requires |pat| == 2
    ensures At(s, pat, i) <==> 0 <= i && i + 1 < |s| && s[i] == pat[0] && s[i + 1] == pat[1]
  {
    if 0 <= i && i + 1 < |s| {
      assert s[i..i + 2] == [s[i], s[i + 1]];
      assert pat == [pat[0], pat[1]];
    }
  }

  predicate Contains(s: string, pat: string) {
    exists i {:trigger At(s, pat, i)} :: 0 <= i <= |s| && At(s, pat, i)
  }

  /** The first occurrence from `start` on. */
  function FindFrom(s: string, pat: string, start: nat): (found: Option<nat>)
    ensures found.Some? ==> start <= found.value && At(s, pat, found.value)
    ensures found.Some? ==> forall i :: start <= i < found.value ==> !At(s, pat, i)
    ensures found.None? ==> forall i :: start <= i ==> !At(s, pat, i)
    decreases |s| - start
  {
    if start + |pat| > |s| then None
    else if At(s, pat, start) then Some(start)
    else if start < |s| then FindFrom(s, pat, start + 1)
    else None
  }

  function Find(s: string, pat: string): Option<nat> { FindFrom(s, pat, 0) }

  lemma FoundFirst(s: string, pat: string, i: nat)
    requires At(s, pat, i) && forall j :: 0 <= j < i ==> !At(s, pat, j)
    ensures Find(s, pat) == Some(i)
  {}

  lemma AbsentChar(s: string, pat: string, k: nat)
    requires k < |pat| && pat[k] !in s
    ensures Find(s, pat).None?
  {
    forall i ensures !At(s, pat, i) {
      assert 0 <= i && i + |pat| <= |s| ==> s[i..i + |pat|][k] == s[i + k];
    }
  }

  lemma AtTail(a: string, b: string, pat: string, i: nat)
    ensures At(a + b, pat, |a| + i) <==> At(b, pat, i)
  {
    if i + |pat| <= |b| {
      assert (a + b)[|a| + i..|a| + i + |pat|] == b[i..i + |pat|];
    }
  }

  lemma NotPrefix(a: string, b: string, k: nat)
    requires k < |a| && k < |b| && a[k] != b[k]
    ensures !(a <= b)
  {}

  /** The last occurrence that starts before `end`. */
  function FindLast(s: string, pat: string, end: nat): (found: Option<nat>)
    ensures found.Some? ==> found.value < end && At(s, pat, found.value)
    ensures found.Some? ==> forall i :: found.value < i < end ==> !At(s, pat, i)
    ensures found.None? ==> forall i :: 0 <= i < end ==> !At(s, pat, i)
  {
    if end == 0 then None
    else if At(s, pat, end - 1) then Some(end - 1)
    else FindLast(s, pat, end - 1)
  }

  function SplitOnce(s: string, pat: string): Option<(string, string)> {
    match Find(s, pat)
    case None => None
    case Some(i) => Some((s[..i], s[i + |pat|..]))
  }

  function RightSplitOnce(s: string, pat: string): Option<(string, string)> {
    match FindLast(s, pat, |s| + 1)
    case None => None
    case Some(i) => Some((s[..i], s[i + |pat|..]))
  }

  /** `s.split(c)`: one part more than there are separators. */
  function Split(s: string, c: char): (parts: seq<string>)
    ensures parts != []
  {
    if s == "" then [""]
    else
      var rest := Split(s[1..], c);
      if s[0] == c then [""] + rest else [[s[0]] + rest[0]] + rest[1..]
  }

  function Join(parts: seq<string>, c: char): string {
    if parts == [] then ""
    else if |parts| == 1 then parts[0]
    else parts[0] + [c] + Join(parts[1..], c)
  }

  lemma {:induction false} SplitOne(s: string, c: char)
    requires c !in s
    ensures Split(s, c) == [s]
  {
    if s != "" {
      SplitOne(s[1..], c);
      assert [s[0]] + s[1..] == s;
    }
  }

  lemma {:induction false} SplitFirst(head: string, c: char, rest: string)
    requires c !in head
    ensures Split(head + [c] + rest, c) == [head] + Split(rest, c)
  {
    var s := head + [c] + rest;
    if head == "" {
      assert s[1..] == rest;
    } else {
      SplitFirst(head[1..], c, rest);
      assert s[1..] == head[1..] + [c] + rest;
      assert [head[0]] + head[1..] == head;
    }
  }

  /** Parts without the separator survive joining and splitting. */
  lemma {:induction false} SplitOfJoin(parts: seq<string>, c: char)
    requires parts != [] && forall i :: 0 <= i < |parts| ==> c !in parts[i]
    ensures Split(Join(parts, c), c) == parts
  {
    if |parts| == 1 {
      SplitOne(parts[0], c);
    } else {
      SplitOfJoin(parts[1..], c);
      SplitFirst(parts[0], c, Join(parts[1..], c));
      assert [parts[0]] + parts[1..] == parts;
    }
  }

  lemma {:induction false} JoinLast(parts: seq<string>, c: char, tail: string)
    requires parts != []
    ensures Join(parts[..|parts| - 1] + [parts[|parts| - 1] + tail], c) == Join(parts, c) + tail
  {
    var longer := parts[..|parts| - 1] + [parts[|parts| - 1] + tail];
    if |parts| > 1 {
      JoinLast(parts[1..], c, tail);
      assert longer[0] == parts[0] && longer[1..] == parts[1..][..|parts| - 2] + [parts[|parts| - 1] + tail];
      assert parts[0] + [c] + (Join(parts[1..], c) + tail) == parts[0] + [c] + Join(parts[1..], c) + tail;
    }
  }

  /** A property of every character of every part, and of the separator, holds in the joined text. */
  lemma {:induction false} JoinKeepsSpaceFree(parts: seq<string>, c: char)
    requires !IsSpace(c) && forall i :: 0 <= i < |parts| ==> NoSpace(parts[i])
    ensures NoSpace(Join(parts, c))
  {
    if |parts| > 1 {
      JoinKeepsSpaceFree(parts[1..], c);
    }
  }

  lemma {:induction false} JoinKeepsOut(parts: seq<string>, c: char, x: char)
    requires x != c && forall i :: 0 <= i < |parts| ==> x !in parts[i]
    ensures x !in Join(parts, c)
  {
    if |parts| > 1 {
      JoinKeepsOut(parts[1..], c, x);
    }
  }

  lemma TrimTight(s: string)
    requires Tight(s)
    ensures TrimStart(s) == s && TrimEnd(s) == s && Trim(s) == s
  {}

  lemma {:induction false} TrimStartKeepsEnd(s: string)
    ensures |TrimStart(s)| <= |s|
    ensures TrimStart(s) == s || |TrimStart(s)| < |s|
  {
    if s != "" && IsSpace(s[0]) { TrimStartKeepsEnd(s[1..]); }
  }

  lemma {:induction false} TrimEndKeepsStart(s: string)
    ensures TrimEnd(s) <= s
  {
    if s != "" && IsSpace(s[|s| - 1]) { TrimEndKeepsStart(s[..|s| - 1]); }
  }

  lemma TrimOnlyShortens(s: string)
    ensures |Trim(s)| <= |s|
  {
    TrimStartKeepsEnd(s);
    TrimEndKeepsStart(TrimStart(s));
  }

  /** Trimming leaves exactly the tight texts alone. */
  lemma TrimIsTight(s: string)
    ensures Trim(s) == s <==> Tight(s)
  {
    if Trim(s) == s {
      TrimStartKeepsEnd(s);
      TrimEndKeepsStart(TrimStart(s));
    } else if Tight(s) {
      TrimTight(s);
    }
  }
}
