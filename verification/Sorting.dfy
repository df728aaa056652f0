/** Sorting a list by a key and dropping repetitions. */
module Sorting {

  /** Keys of one length, compared place by place. */
  predicate KeyLess(a: seq<nat>, b: seq<nat>) {
    a != [] && b != [] && (a[0] < b[0] || (a[0] == b[0] && KeyLess(a[1..], b[1..])))
  }

  lemma {:induction false} KeysAreOrdered(a: seq<nat>, b: seq<nat>, c: seq<nat>)
    requires |a| == |b| == |c|
    ensures KeyLess(a, b) || KeyLess(b, a) || a == b
    ensures KeyLess(a, b) && KeyLess(b, c) ==> KeyLess(a, c)
  {
    if a != [] {
      KeysAreOrdered(a[1..], b[1..], c[1..]);
      assert a == [a[0]] + a[1..] && b == [b[0]] + b[1..];
    }
  }

  ghost predicate Increasing<T>(items: seq<T>, key: T -> seq<nat>) {
    forall i, j :: 0 <= i < j < |items| ==> KeyLess(key(items[i]), key(items[j]))
  }

  function Insert<T>(items: seq<T>, x: T, key: T -> seq<nat>): seq<T> {
    if items == [] || KeyLess(key(x), key(items[0])) then [x] + items
    else if key(x) == key(items[0]) then items
    else [items[0]] + Insert(items[1..], x, key)
  }

  function SortUnique<T>(items: seq<T>, key: T -> seq<nat>): seq<T> {
    if items == [] then [] else Insert(SortUnique(items[..|items| - 1], key), items[|items| - 1], key)
  }

  /** Different items have different keys, all of one length. */
  ghost predicate Identifies<T(!new)>(key: T -> seq<nat>, length: nat) {
    && (forall x :: |key(x)| == length)
    && (forall x, y :: key(x) == key(y) ==> x == y)
  }

  lemma {:induction false} InsertKeeps<T(!new)>(items: seq<T>, x: T, key: T -> seq<nat>, length: nat)
    requires Identifies(key, length) && Increasing(items, key)
    ensures Increasing(Insert(items, x, key), key)
    ensures forall y :: y in Insert(items, x, key) <==> y in items || y == x
  {
    hide KeyLess;
    if items != [] {
      var (first, rest) := (items[0], items[1..]);
      assert items == [first] + rest;
      KeysAreOrdered(key(x), key(first), key(first));
      if KeyLess(key(x), key(first)) {
        forall i | 0 <= i < |items| ensures KeyLess(key(x), key(items[i])) {
          KeysAreOrdered(key(x), key(first), key(items[i]));
        }
      } else if key(x) != key(first) {
        InsertKeeps(rest, x, key, length);
        var inserted := Insert(rest, x, key);
        forall i | 0 <= i < |inserted| ensures KeyLess(key(first), key(inserted[i])) {
          assert inserted[i] in inserted;
        }
      }
    }
  }

  /** The same items, each once, in the order of their keys. */
  lemma {:induction false} SortUniqueSorts<T(!new)>(items: seq<T>, key: T -> seq<nat>, length: nat)
    requires Identifies(key, length)
    ensures Increasing(SortUnique(items, key), key)
    ensures forall y :: y in SortUnique(items, key) <==> y in items
  {
    hide Insert, KeyLess;
    if items != [] {
      var (init, last) := (items[..|items| - 1], items[|items| - 1]);
      assert items == init + [last];
      SortUniqueSorts(init, key, length);
      InsertKeeps(SortUnique(init, key), last, key, length);
    }
  }

  ghost predicate HasMatch<T, U(!new)>(x: T, others: seq<U>, related: (T, U) -> bool) {
    exists y :: y in others && related(x, y)
  }

  ghost predicate IsMatched<T(!new), U>(items: seq<T>, y: U, related: (T, U) -> bool) {
    exists x :: x in items && related(x, y)
  }

  /** Every item of one list is related to one of the other, and the other way round. */
  ghost predicate Matched<T(!new), U(!new)>(items: seq<T>, others: seq<U>, related: (T, U) -> bool) {
    (forall x :: x in items ==> HasMatch(x, others, related)) && (forall y :: y in others ==> IsMatched(items, y, related))
  }

  lemma IsMatch<T, U(!new)>(x: T, others: seq<U>, y: U, related: (T, U) -> bool)
    requires y in others && related(x, y)
    ensures HasMatch(x, others, related)
  {}

  lemma MatchesIn<T(!new), U>(items: seq<T>, x: T, y: U, related: (T, U) -> bool)
    requires x in items && related(x, y)
    ensures IsMatched(items, y, related)
  {}

  /** What holds place by place before sorting holds afterwards whatever the places. */
  lemma SortedStayMatched<T(!new), U(!new)>(items: seq<T>, others: seq<U>, related: (T, U) -> bool, key: T -> seq<nat>,
                                            length: nat)
    requires Identifies(key, length)
    requires |items| == |others| && forall i :: 0 <= i < |items| ==> related(items[i], others[i])
    ensures Matched(SortUnique(items, key), others, related)
    ensures SortUnique(items, key) == [] <==> others == []
  {
    hide SortUnique, Identifies, Increasing, HasMatch, IsMatched;
    SortUniqueSorts(items, key, length);
    var sorted := SortUnique(items, key);
    forall x | x in sorted ensures HasMatch(x, others, related) {
      var i :| 0 <= i < |items| && items[i] == x;
      IsMatch(x, others, others[i], related);
    }
    forall y | y in others ensures IsMatched(sorted, y, related) {
      var i :| 0 <= i < |others| && others[i] == y;
      MatchesIn(sorted, items[i], y, related);
    }
    if others != [] { assert items[0] in sorted; }
    if sorted != [] { assert sorted[0] in items; }
  }

  lemma MatchedByMore<T(!new), U(!new)>(items: seq<T>, others: seq<U>, related: (T, U) -> bool, more: (T, U) -> bool)
    requires Matched(items, others, related) && forall x, y :: related(x, y) ==> more(x, y)
    ensures Matched(items, others, more)
  {
    forall x | x in items ensures HasMatch(x, others, more) {
      assert HasMatch(x, others, related);
    }
    forall y | y in others ensures IsMatched(items, y, more) {
      assert IsMatched(items, y, related);
    }
  }

  lemma TakeMatch<T(!new), U(!new)>(items: seq<T>, others: seq<U>, related: (T, U) -> bool, x: T) returns (y: U)
    requires Matched(items, others, related) && x in items
    ensures y in others && related(x, y)
  {
    assert HasMatch(x, others, related);
    y :| y in others && related(x, y);
  }
}
