/** The children of every type of a scoped index, grouped by lowercased parent name and sorted.
    Names are ASCII, so both lowercasings of the program are one. */
module HierarchyIndex {
  import opened Text

  datatype Relation = Extends | Implements

  datatype TypeParent = TypeParent(parent: string, relation: Relation)

  datatype ClassFacts = ClassFacts(sourceClass: string, parents: seq<TypeParent>)

  datatype Jar = Jar(coordinate: string, relativePath: string, classFacts: seq<ClassFacts>)

  /** A child-to-parent fact, by its place in the jars. */
  datatype Edge = Edge(jar: nat, class_: nat, parent: nat)

  predicate IsEdge(jars: seq<Jar>, e: Edge) {
    e.jar < |jars| && e.class_ < |jars[e.jar].classFacts| && e.parent < |jars[e.jar].classFacts[e.class_].parents|
  }

  function Child(jars: seq<Jar>, e: Edge): string
    requires IsEdge(jars, e)
  {
    jars[e.jar].classFacts[e.class_].sourceClass
  }

  function Fact(jars: seq<Jar>, e: Edge): TypeParent
    requires IsEdge(jars, e)
  {
    jars[e.jar].classFacts[e.class_].parents[e.parent]
  }

  function ParentKey(jars: seq<Jar>, e: Edge): string
    requires IsEdge(jars, e)
  {
    Lower(Fact(jars, e).parent)
  }

  // ----- the order of a group -----

  /** JAR and class order. */
  predicate PlacedBefore(a: Edge, b: Edge) {
    a.jar < b.jar || (a.jar == b.jar && (a.class_ < b.class_ || (a.class_ == b.class_ && a.parent < b.parent)))
  }

  function After(e: Edge): Edge { Edge(e.jar, e.class_, e.parent + 1) }

  datatype SortKey = SortKey(child: string, path: string, relation: Relation)

  function KeyOf(jars: seq<Jar>, e: Edge): SortKey
    requires IsEdge(jars, e)
  {
    SortKey(Child(jars, e), jars[e.jar].relativePath, Fact(jars, e).relation)
  }

  predicate KeyLess(a: SortKey, b: SortKey) {
    || LexLess(a.child, b.child)
    || (a.child == b.child && LexLess(a.path, b.path))
    || (a.child == b.child && a.path == b.path && a.relation.Extends? && b.relation.Implements?)
  }

  /** The order a search reports children in: by key, equal keys in JAR and class order. */
  predicate Precedes(jars: seq<Jar>, a: Edge, b: Edge)
    requires IsEdge(jars, a) && IsEdge(jars, b)
  {
    KeyLess(KeyOf(jars, a), KeyOf(jars, b)) || (KeyOf(jars, a) == KeyOf(jars, b) && PlacedBefore(a, b))
  }

  /** By child name, then by JAR path, `extends` before `implements`, and at last as the JARs list them. */
  lemma PrecedesIff(jars: seq<Jar>, a: Edge, b: Edge)
    requires IsEdge(jars, a) && IsEdge(jars, b)
    ensures Precedes(jars, a, b) <==>
      var ((x, y), (p, q)) := ((Child(jars, a), Child(jars, b)), (jars[a.jar].relativePath, jars[b.jar].relativePath));
      var (r, s) := (Fact(jars, a).relation, Fact(jars, b).relation);
      || LexLess(x, y)
      || (x == y && LexLess(p, q))
      || (x == y && p == q && r == Extends && s == Implements)
      || (x == y && p == q && r == s
          && (a.jar < b.jar || (a.jar == b.jar && (a.class_ < b.class_ || (a.class_ == b.class_ && a.parent < b.parent)))))
  {
    hide LexLess;
  }

  predicate AllEdges(jars: seq<Jar>, edges: seq<Edge>) {
    forall i :: 0 <= i < |edges| ==> IsEdge(jars, edges[i])
  }

  predicate Sorted(jars: seq<Jar>, edges: seq<Edge>) {
    AllEdges(jars, edges) && forall i, j :: 0 <= i < j < |edges| ==> Precedes(jars, edges[i], edges[j])
  }

  lemma CompareTexts(a: string, b: string, c: string)
    ensures a == b || LexLess(a, b) || LexLess(b, a)
    ensures LexLess(a, b) && LexLess(b, c) ==> LexLess(a, c)
    ensures !(LexLess(a, b) && LexLess(b, a))
    ensures !LexLess(a, a)
  {
    LexTotal(a, b);
    LexIrreflexive(a);
    if LexLess(a, b) && LexLess(b, c) { LexTransitive(a, b, c); }
    if LexLess(a, b) && LexLess(b, a) { LexTransitive(a, b, a); }
  }

  lemma KeysAreOrdered(a: SortKey, b: SortKey, c: SortKey)
    ensures a == b || KeyLess(a, b) || KeyLess(b, a)
    ensures KeyLess(a, b) && KeyLess(b, c) ==> KeyLess(a, c)
    ensures !(KeyLess(a, b) && KeyLess(b, a))
  {
    CompareTexts(a.child, b.child, c.child);
    CompareTexts(a.path, b.path, c.path);
  }

  lemma PrecedesIsTransitive(jars: seq<Jar>, a: Edge, b: Edge, c: Edge)
    requires IsEdge(jars, a) && IsEdge(jars, b) && IsEdge(jars, c)
    requires Precedes(jars, a, b) && Precedes(jars, b, c)
    ensures Precedes(jars, a, c)
  {
    hide KeyLess;
    KeysAreOrdered(KeyOf(jars, a), KeyOf(jars, b), KeyOf(jars, c));
  }

  /** Stable insertion: behind every edge whose key is not greater. */
  function Insert(jars: seq<Jar>, edges: seq<Edge>, e: Edge): (inserted: seq<Edge>)
    requires AllEdges(jars, edges) && IsEdge(jars, e)
    ensures AllEdges(jars, inserted) && (forall x :: x in inserted <==> x in edges || x == e)
  {
    if edges == [] then [e]
    else
      var (init, last) := (edges[..|edges| - 1], edges[|edges| - 1]);
      assert edges == init + [last];
      if KeyLess(KeyOf(jars, e), KeyOf(jars, last)) then Insert(jars, init, e) + [last] else edges + [e]
  }

  lemma {:induction false} InsertKeepsSorted(jars: seq<Jar>, edges: seq<Edge>, e: Edge)
    requires Sorted(jars, edges) && IsEdge(jars, e)
    requires forall i :: 0 <= i < |edges| ==> PlacedBefore(edges[i], e)
    ensures Sorted(jars, Insert(jars, edges, e))
  {
    hide KeyLess, LexLess;
    if edges != [] {
      var (init, last) := (edges[..|edges| - 1], edges[|edges| - 1]);
      KeysAreOrdered(KeyOf(jars, e), KeyOf(jars, last), KeyOf(jars, e));
      if KeyLess(KeyOf(jars, e), KeyOf(jars, last)) {
        InsertKeepsSorted(jars, init, e);
        var inserted := Insert(jars, init, e);
        forall i | 0 <= i < |inserted| ensures Precedes(jars, inserted[i], last) {
          assert inserted[i] in inserted;
        }
      } else {
        forall i | 0 <= i < |edges| - 1 ensures Precedes(jars, edges[i], e) {
          PrecedesIsTransitive(jars, edges[i], last, e);
        }
      }
    }
  }

  /** What a stable sort by key makes of edges collected in JAR and class order. */
  function Sort(jars: seq<Jar>, edges: seq<Edge>): (sorted: seq<Edge>)
    requires AllEdges(jars, edges)
    ensures AllEdges(jars, sorted) && (forall x :: x in sorted <==> x in edges)
  {
    if edges == [] then []
    else
      assert edges == edges[..|edges| - 1] + [edges[|edges| - 1]];
      Insert(jars, Sort(jars, edges[..|edges| - 1]), edges[|edges| - 1])
  }

  predicate InJarOrder(edges: seq<Edge>) {
    forall i, j :: 0 <= i < j < |edges| ==> PlacedBefore(edges[i], edges[j])
  }

  lemma {:induction false} SortSorts(jars: seq<Jar>, edges: seq<Edge>)
    requires AllEdges(jars, edges) && InJarOrder(edges)
    ensures Sorted(jars, Sort(jars, edges))
  {
    if edges != [] {
      var (init, last) := (edges[..|edges| - 1], edges[|edges| - 1]);
      SortSorts(jars, init);
      var sorted := Sort(jars, init);
      forall i | 0 <= i < |sorted| ensures PlacedBefore(sorted[i], last) {
        assert sorted[i] in init;
      }
      InsertKeepsSorted(jars, sorted, last);
    }
  }

  // ----- grouping -----

  function Group(children: map<string, seq<Edge>>, key: string): seq<Edge> {
    if key in children then children[key] else []
  }

  ghost predicate Ordered(jars: seq<Jar>, children: map<string, seq<Edge>>) {
    forall key :: AllEdges(jars, Group(children, key)) && InJarOrder(Group(children, key))
  }

  /** Only facts before a place, each under its parent's key. */
  ghost predicate Belong(jars: seq<Jar>, children: map<string, seq<Edge>>, place: Edge) {
    forall key, e :: e in Group(children, key) ==>
      IsEdge(jars, e) && ParentKey(jars, e) == key && PlacedBefore(e, place)
  }

  /** Every fact before a place. */
  ghost predicate Complete(jars: seq<Jar>, children: map<string, seq<Edge>>, place: Edge) {
    forall e :: IsEdge(jars, e) && PlacedBefore(e, place) ==> e in Group(children, ParentKey(jars, e))
  }

  ghost predicate Collected(jars: seq<Jar>, children: map<string, seq<Edge>>, place: Edge) {
    Ordered(jars, children) && Belong(jars, children, place) && Complete(jars, children, place)
  }

  /** Each group holds exactly the facts of its parent, in the order to report them. */
  ghost predicate Indexes(jars: seq<Jar>, children: map<string, seq<Edge>>) {
    && (forall key :: Sorted(jars, Group(children, key)))
    && (forall key, e :: e in Group(children, key) <==> IsEdge(jars, e) && ParentKey(jars, e) == key)
  }

  function Add(children: map<string, seq<Edge>>, key: string, e: Edge): (next: map<string, seq<Edge>>)
    ensures next.Keys == children.Keys + {key}
    ensures next[key] == Group(children, key) + [e]
    ensures forall k :: k != key ==> Group(next, k) == Group(children, k)
  {
    children[key := Group(children, key) + [e]]
  }

  lemma AddKeepsOrder(jars: seq<Jar>, children: map<string, seq<Edge>>, e: Edge)
    requires IsEdge(jars, e) && Ordered(jars, children) && Belong(jars, children, e)
    ensures Ordered(jars, Add(children, ParentKey(jars, e), e))
  {
    hide Lower, Add, PlacedBefore;
    var key := ParentKey(jars, e);
    var group := Group(children, key);
    forall i | 0 <= i < |group| ensures PlacedBefore(group[i], e) {
      assert group[i] in Group(children, key);
    }
    assert InJarOrder(group + [e]);
  }

  lemma AddBelongs(jars: seq<Jar>, children: map<string, seq<Edge>>, e: Edge)
    requires IsEdge(jars, e) && Belong(jars, children, e)
    ensures Belong(jars, Add(children, ParentKey(jars, e), e), After(e))
  {
    hide Lower, Add;
    var next := Add(children, ParentKey(jars, e), e);
    forall k, x | x in Group(next, k)
      ensures IsEdge(jars, x) && ParentKey(jars, x) == k && PlacedBefore(x, After(e))
    {
      assert x == e || x in Group(children, k);
    }
  }

  lemma AddCompletes(jars: seq<Jar>, children: map<string, seq<Edge>>, e: Edge)
    requires IsEdge(jars, e) && Complete(jars, children, e)
    ensures Complete(jars, Add(children, ParentKey(jars, e), e), After(e))
  {
    hide Lower, Add;
    var (next, place) := (Add(children, ParentKey(jars, e), e), After(e));
    forall x | IsEdge(jars, x) && PlacedBefore(x, place) ensures x in Group(next, ParentKey(jars, x)) {
      if x != e {
        assert PlacedBefore(x, e);
        assert x in Group(children, ParentKey(jars, x));
      }
    }
  }

  lemma SamePlace(jars: seq<Jar>, children: map<string, seq<Edge>>, place: Edge, other: Edge)
    requires Collected(jars, children, place)
    requires forall e :: IsEdge(jars, e) ==> (PlacedBefore(e, place) <==> PlacedBefore(e, other))
    ensures Collected(jars, children, other)
  {}

  method BuildChildren(jars: seq<Jar>) returns (children: map<string, seq<Edge>>)
    ensures Indexes(jars, children)
  {
    hide Add, Ordered, Belong, Complete, Lower, Indexes;
    children := map[];
    NothingBefore(jars);
    for j := 0 to |jars|
      invariant Collected(jars, children, Edge(j, 0, 0))
    {
      for c := 0 to |jars[j].classFacts|
        invariant Collected(jars, children, Edge(j, c, 0))
      {
        for p := 0 to |jars[j].classFacts[c].parents|
          invariant Collected(jars, children, Edge(j, c, p))
        {
          var e := Edge(j, c, p);
          AddKeepsOrder(jars, children, e);
          AddBelongs(jars, children, e);
          AddCompletes(jars, children, e);
          children := Add(children, ParentKey(jars, e), e);
        }
        SamePlace(jars, children, Edge(j, c, |jars[j].classFacts[c].parents|), Edge(j, c + 1, 0));
      }
      SamePlace(jars, children, Edge(j, |jars[j].classFacts|, 0), Edge(j + 1, 0, 0));
    }
    children := SortGroups(jars, children);
  }

  lemma NothingBefore(jars: seq<Jar>)
    ensures Collected(jars, map[], Edge(0, 0, 0))
  {}

  lemma NothingToSort(jars: seq<Jar>)
    ensures Sorted(jars, [])
  {}

  method SortGroups(jars: seq<Jar>, collected: map<string, seq<Edge>>) returns (children: map<string, seq<Edge>>)
    requires Collected(jars, collected, Edge(|jars|, 0, 0))
    ensures Indexes(jars, children)
  {
    hide Sorted, Sort, InJarOrder;
    children := collected;
    var keys := collected.Keys;
    while keys != {}
      invariant keys <= children.Keys == collected.Keys
      invariant forall key :: AllEdges(jars, Group(collected, key))
      invariant forall key :: key in keys ==> children[key] == collected[key]
      invariant forall key :: key in children && key !in keys ==> Sorted(jars, children[key])
      invariant forall key, e :: key in children ==> (e in children[key] <==> e in collected[key])
    {
      var key :| key in keys;
      assert Group(collected, key) == collected[key];
      SortSorts(jars, collected[key]);
      children := children[key := Sort(jars, children[key])];
      keys := keys - {key};
    }
    forall key ensures Sorted(jars, Group(children, key)) {
      if key !in children { NothingToSort(jars); }
    }
    forall key, e ensures e in Group(children, key) <==> IsEdge(jars, e) && ParentKey(jars, e) == key {
      assert e in Group(children, key) <==> e in Group(collected, key);
      if IsEdge(jars, e) { assert PlacedBefore(e, Edge(|jars|, 0, 0)); }
    }
  }
}
