/** The breadth-first search over the grouped type hierarchy. */
module HierarchySearch {
  import opened Common
  import opened HierarchyIndex
  import opened Text

  datatype Match = Match(typeName: string, jar: nat, relation: Relation, depth: nat, path: seq<string>)

  /** A type to expand, with the chain that found it. */
  datatype Pending = Pending(name: string, path: seq<string>, depth: nat)

  datatype EdgeKey = EdgeKey(child: string, parent: string, coordinate: string)

  function KeyOfEdge(jars: seq<Jar>, e: Edge): EdgeKey
    requires IsEdge(jars, e)
  {
    EdgeKey(Lower(Child(jars, e)), ParentKey(jars, e), jars[e.jar].coordinate)
  }

  // ----- meaning -----

  /** Some fact makes `child` a direct child of `parent`, whatever the case of the parent's letters. */
  ghost predicate Recorded(jars: seq<Jar>, parent: string, child: string) {
    exists e :: IsEdge(jars, e) && ParentKey(jars, e) == Lower(parent) && Child(jars, e) == child
  }

  /** A repetition-free chain of recorded parent facts from the root. */
  ghost predicate Chain(jars: seq<Jar>, root: string, path: seq<string>) {
    && path != [] && path[0] == root
    && (forall i, j :: 0 <= i < j < |path| ==> path[i] != path[j])
    && (forall i {:trigger path[i]} :: 0 < i < |path| ==> Recorded(jars, path[i - 1], path[i]))
  }

  ghost predicate Sound(jars: seq<Jar>, root: string, m: Match) {
    && |m.path| == m.depth + 1 && m.depth > 0
    && m.path[m.depth] == m.typeName
    && Chain(jars, root, m.path)
    && (exists e :: IsEdge(jars, e) && e.jar == m.jar && Fact(jars, e).relation == m.relation
          && Child(jars, e) == m.typeName && ParentKey(jars, e) == Lower(m.path[m.depth - 1]))
  }

  /** The identity of the fact a match reports. */
  function KeyOfMatch(jars: seq<Jar>, m: Match): EdgeKey
    requires m.jar < |jars| && 0 < m.depth <= |m.path|
  {
    EdgeKey(Lower(m.typeName), Lower(m.path[m.depth - 1]), jars[m.jar].coordinate)
  }

  /** `n` facts lead from the root down to the type, names read without case. */
  ghost predicate Reaches(jars: seq<Jar>, root: string, name: string, n: nat)
    decreases n
  {
    if n == 0 then name == Lower(root)
    else exists e :: IsEdge(jars, e) && Lower(Child(jars, e)) == name && Reaches(jars, root, ParentKey(jars, e), n - 1)
  }

  predicate FirstReport(matches: seq<Match>, name: string, i: nat) {
    && i < |matches| && Lower(matches[i].typeName) == name
    && forall j :: 0 <= j < i ==> Lower(matches[j].typeName) != name
  }

  /** Names that differ only by case are one name. */
  ghost predicate CaseDistinct(jars: seq<Jar>, root: string) {
    forall e, f :: IsEdge(jars, e) && IsEdge(jars, f) ==>
      && (Lower(Child(jars, e)) == Lower(Child(jars, f)) ==> Child(jars, e) == Child(jars, f))
      && (Lower(Child(jars, e)) == Lower(root) ==> Child(jars, e) == root)
  }

  // ----- the search state -----

  /** Where each lowercased name was first found. */
  type Depths = map<string, nat>

  ghost predicate Within(first: Depths, name: string, depth: int) {
    name in first && first[name] <= depth
  }

  ghost predicate IsNode(jars: seq<Jar>, root: string, first: Depths, q: Pending) {
    && |q.path| == q.depth + 1 && q.path[q.depth] == q.name
    && Chain(jars, root, q.path)
    && (forall k :: 0 <= k < |q.path| ==> Within(first, Lower(q.path[k]), k))
  }

  ghost predicate Queued(jars: seq<Jar>, root: string, first: Depths, queue: seq<Pending>) {
    forall k :: 0 <= k < |queue| ==> IsNode(jars, root, first, queue[k])
  }

  predicate Layered(queue: seq<Pending>, depth: nat) {
    && (forall k :: 0 <= k < |queue| ==> depth <= queue[k].depth <= depth + 1)
    && (forall i, j :: 0 <= i < j < |queue| ==> queue[i].depth <= queue[j].depth)
  }

  ghost predicate Known(jars: seq<Jar>, first: Depths, visited: set<EdgeKey>) {
    forall key :: key in visited ==> key.parent in first && Within(first, key.child, first[key.parent] + 1)
  }

  ghost predicate Waits(queue: seq<Pending>, name: string, depth: nat) {
    exists k :: 0 <= k < |queue| && Lower(queue[k].name) == name && queue[k].depth == depth
  }

  ghost predicate Pends(first: Depths, queue: seq<Pending>, done: set<string>) {
    forall name :: name in first && name !in done ==> Waits(queue, name, first[name])
  }

  ghost predicate Settled(jars: seq<Jar>, first: Depths, e: Edge)
    requires IsEdge(jars, e)
  {
    ParentKey(jars, e) in first && Within(first, Lower(Child(jars, e)), first[ParentKey(jars, e)] + 1)
  }

  ghost predicate Expanded(jars: seq<Jar>, first: Depths, done: set<string>) {
    done <= first.Keys && forall e :: IsEdge(jars, e) && ParentKey(jars, e) in done ==> Settled(jars, first, e)
  }

  ghost predicate Reported(first: Depths, root: string, matches: seq<Match>) {
    && (forall i :: 0 <= i < |matches| ==> Within(first, Lower(matches[i].typeName), matches[i].depth))
    && (forall name :: name in first && name != Lower(root) ==> ReportedAt(first[name], name, matches))
  }

  ghost predicate ReportedAt(depth: nat, name: string, matches: seq<Match>) {
    exists i: nat :: FirstReport(matches, name, i) && matches[i].depth == depth
  }

  ghost predicate AllSound(jars: seq<Jar>, root: string, matches: seq<Match>) {
    forall i :: 0 <= i < |matches| ==> Sound(jars, root, matches[i])
  }

  ghost predicate OnceEach(jars: seq<Jar>, matches: seq<Match>)
    requires forall i :: 0 <= i < |matches| ==> matches[i].jar < |jars| && 0 < matches[i].depth <= |matches[i].path|
  {
    forall i, j :: 0 <= i < j < |matches| ==> KeyOfMatch(jars, matches[i]) != KeyOfMatch(jars, matches[j])
  }

  /** Each reported fact was visited, and once. */
  ghost predicate Accounted(jars: seq<Jar>, root: string, matches: seq<Match>, visited: set<EdgeKey>) {
    && AllSound(jars, root, matches)
    && OnceEach(jars, matches)
    && (forall i :: 0 <= i < |matches| ==> KeyOfMatch(jars, matches[i]) in visited)
  }

  // ----- discovering a name -----

  function Found(first: Depths, name: string, depth: nat): (found: Depths)
    ensures name in found && (name !in first ==> found[name] == depth)
    ensures found.Keys == first.Keys + {name}
    ensures forall x :: x in first ==> found[x] == first[x]
  {
    if name in first then first else first[name := depth]
  }

  lemma FoundKeepsQueue(jars: seq<Jar>, root: string, first: Depths, queue: seq<Pending>, name: string, depth: nat)
    requires Queued(jars, root, first, queue)
    ensures Queued(jars, root, Found(first, name, depth), queue)
  {
    hide Found, Chain, Lower;
  }

  lemma FoundKeepsExpanded(jars: seq<Jar>, first: Depths, done: set<string>, name: string, depth: nat)
    requires Expanded(jars, first, done)
    ensures Expanded(jars, Found(first, name, depth), done)
  {
    hide Found, Lower;
    forall e | IsEdge(jars, e) && ParentKey(jars, e) in done ensures Settled(jars, Found(first, name, depth), e) {
      assert Settled(jars, first, e);
    }
  }

  lemma ChainGrows(jars: seq<Jar>, root: string, path: seq<string>, child: string)
    requires Chain(jars, root, path) && Recorded(jars, path[|path| - 1], child) && child !in path
    ensures Chain(jars, root, path + [child])
  {
    hide Recorded;
    var longer := path + [child];
    forall i | 0 < i < |longer| ensures Recorded(jars, longer[i - 1], longer[i]) {
      if i < |path| { assert Recorded(jars, path[i - 1], path[i]); }
    }
  }

  lemma ExtendChain(jars: seq<Jar>, root: string, first: Depths, q: Pending, e: Edge)
    requires IsNode(jars, root, first, q) && IsEdge(jars, e)
    requires ParentKey(jars, e) == Lower(q.name) && Child(jars, e) !in q.path
    requires Lower(Child(jars, e)) in first ==> first[Lower(Child(jars, e))] <= q.depth + 1
    ensures IsNode(jars, root, Found(first, Lower(Child(jars, e)), q.depth + 1),
                   Pending(Child(jars, e), q.path + [Child(jars, e)], q.depth + 1))
  {
    assert Recorded(jars, q.name, Child(jars, e));
    hide Lower, Found, Recorded, IsEdge;
    ChainGrows(jars, root, q.path, Child(jars, e));
    hide Chain;
    var (found, path) := (Found(first, Lower(Child(jars, e)), q.depth + 1), q.path + [Child(jars, e)]);
    forall k | 0 <= k < |path| ensures Within(found, Lower(path[k]), k) {
      if k < |q.path| { assert Within(first, Lower(q.path[k]), k); }
    }
  }

  /** A name is reported when it is found. */
  lemma ReportNext(first: Depths, root: string, matches: seq<Match>, m: Match)
    requires Reported(first, root, matches)
    requires Lower(m.typeName) in first ==> first[Lower(m.typeName)] <= m.depth
    ensures Reported(Found(first, Lower(m.typeName), m.depth), root, matches + [m])
  {
    hide Lower, Found;
    var name := Lower(m.typeName);
    var (found, more) := (Found(first, name, m.depth), matches + [m]);
    forall x | x in found && x != Lower(root) ensures ReportedAt(found[x], x, more) {
      if x in first {
        assert ReportedAt(first[x], x, matches);
        var i: nat :| FirstReport(matches, x, i) && matches[i].depth == first[x];
        assert FirstReport(more, x, i) && more[i].depth == first[x];
      } else {
        assert forall j :: 0 <= j < |matches| ==> Within(first, Lower(matches[j].typeName), matches[j].depth);
        assert FirstReport(more, x, |matches|);
      }
    }
  }

  lemma AccountNext(jars: seq<Jar>, root: string, matches: seq<Match>, visited: set<EdgeKey>,
                    m: Match)
    requires Accounted(jars, root, matches, visited)
    requires Sound(jars, root, m) && KeyOfMatch(jars, m) !in visited
    ensures Accounted(jars, root, matches + [m], visited + {KeyOfMatch(jars, m)})
  {
    hide Sound, KeyOfMatch;
  }

  // ----- the whole search -----

  /** Every fact below a found name leads to a found name, at most one step further. */
  lemma {:induction false} WalksAreFound(jars: seq<Jar>, root: string, first: Depths, name: string, n: nat)
    requires Lower(root) in first && first[Lower(root)] == 0
    requires Expanded(jars, first, first.Keys)
    requires Reaches(jars, root, name, n)
    ensures Within(first, name, n)
    decreases n
  {
    if n > 0 {
      var e :| IsEdge(jars, e) && Lower(Child(jars, e)) == name && Reaches(jars, root, ParentKey(jars, e), n - 1);
      WalksAreFound(jars, root, first, ParentKey(jars, e), n - 1);
      assert Settled(jars, first, e);
    }
  }

  /** A reported chain is itself a walk, so no report can come before the shortest distance. */
  lemma {:induction false} ChainsAreWalks(jars: seq<Jar>, root: string, path: seq<string>, k: nat)
    requires Chain(jars, root, path) && k < |path|
    ensures Reaches(jars, root, Lower(path[k]), k)
    decreases k
  {
    if k > 0 {
      ChainsAreWalks(jars, root, path, k - 1);
      assert Recorded(jars, path[k - 1], path[k]);
    }
  }

  lemma FoundKeepsKnown(jars: seq<Jar>, first: Depths, visited: set<EdgeKey>, name: string, depth: nat)
    requires Known(jars, first, visited)
    ensures Known(jars, Found(first, name, depth), visited)
  {
    hide Found;
  }

  lemma FoundKeepsPending(first: Depths, queue: seq<Pending>, done: set<string>, current: string, q: Pending)
    requires Pends(first, queue, done + {current})
    ensures Pends(Found(first, Lower(q.name), q.depth), queue + [q], done + {current})
  {
    hide Lower;
    var found := Found(first, Lower(q.name), q.depth);
    forall name | name in found && name !in done + {current} ensures Waits(queue + [q], name, found[name]) {
      if name in first {
        assert Waits(queue, name, first[name]);
        var k :| 0 <= k < |queue| && Lower(queue[k].name) == name && queue[k].depth == first[name];
        assert (queue + [q])[k] == queue[k];
      } else {
        assert (queue + [q])[|queue|] == q;
      }
    }
  }

  /** The front of the queue was found at its own depth, unless it was expanded before. */
  lemma FrontDepth(jars: seq<Jar>, root: string, first: Depths, queue: seq<Pending>, done: set<string>)
    requires queue != [] && Layered(queue, queue[0].depth)
    requires Queued(jars, root, first, queue) && Pends(first, queue, done)
    ensures Within(first, Lower(queue[0].name), queue[0].depth)
    ensures Lower(queue[0].name) in done || first[Lower(queue[0].name)] == queue[0].depth
    ensures forall name :: name in first && name !in done ==> first[name] <= queue[0].depth + 1
    ensures Pends(first, queue[1..], done + {Lower(queue[0].name)})
  {
    hide Lower, Chain;
    var name := Lower(queue[0].name);
    assert IsNode(jars, root, first, queue[0]);
    forall x | x in first && x !in done ensures first[x] <= queue[0].depth + 1 {
      assert Waits(queue, x, first[x]);
    }
    if name !in done {
      assert Waits(queue, name, first[name]);
    }
    forall x | x in first && x !in done + {name} ensures Waits(queue[1..], x, first[x]) {
      assert Waits(queue, x, first[x]);
      var k :| 0 <= k < |queue| && Lower(queue[k].name) == x && queue[k].depth == first[x];
      assert queue[1..][k - 1] == queue[k];
    }
  }

  lemma FrontLayer(queue: seq<Pending>)
    requires queue != [] && Layered(queue, queue[0].depth)
    ensures Layered(queue[1..], queue[0].depth)
  {}

  lemma PushLayer(queue: seq<Pending>, q: Pending, depth: nat)
    requires Layered(queue, depth) && q.depth == depth + 1
    ensures Layered(queue + [q], depth)
  {}

  lemma NextLayer(queue: seq<Pending>, depth: nat)
    requires queue != [] && Layered(queue, depth)
    ensures Layered(queue, queue[0].depth) && depth <= queue[0].depth
  {
    assert forall k :: 0 < k < |queue| ==> queue[0].depth <= queue[k].depth;
  }

  ghost function AllKeys(jars: seq<Jar>): set<EdgeKey> {
    set j: nat, c: nat, p: nat | j < |jars| && c < |jars[j].classFacts| && p < |jars[j].classFacts[c].parents|
      :: KeyOfEdge(jars, Edge(j, c, p))
  }

  lemma KeyIsKnown(jars: seq<Jar>, e: Edge)
    requires IsEdge(jars, e)
    ensures KeyOfEdge(jars, e) in AllKeys(jars)
  {
    assert e == Edge(e.jar, e.class_, e.parent);
  }

  lemma FewerRemain<T>(all: set<T>, before: set<T>, after: set<T>)
    requires before <= after <= all && before != after
    ensures |all - after| < |all - before|
  {
    var x :| x in after && x !in before;
    assert all - after < all - before;
    SubsetIsSmaller(all - after, all - before, x);
  }

  lemma SubsetIsSmaller<T>(a: set<T>, b: set<T>, x: T)
    requires a <= b && x in b && x !in a
    ensures |a| < |b|
  {
    assert b == a + (b - a);
    assert |b| == |a| + |b - a|;
    assert x in b - a;
  }

  /** The state between two facts of the group of `front`. */
  ghost predicate Between(jars: seq<Jar>, root: string, transitive: bool, front: Pending,
                          queue: seq<Pending>, visited: set<EdgeKey>, matches: seq<Match>, first: Depths, done: set<string>) {
    && IsNode(jars, root, first, front)
    && Queued(jars, root, first, queue) && Layered(queue, front.depth)
    && (transitive ==> Pends(first, queue, done + {Lower(front.name)}))
    && Expanded(jars, first, done)
    && (forall name :: name in first ==> first[name] <= front.depth + 1)
    && (forall name :: name in done ==> first[name] <= front.depth)
    && (Lower(front.name) in done || first[Lower(front.name)] == front.depth)
    && Lower(root) in first && first[Lower(root)] == 0
    && Known(jars, first, visited) && visited <= AllKeys(jars)
    && Accounted(jars, root, matches, visited)
    && Reported(first, root, matches)
  }

  /** A fact whose key was visited, or whose child is on the chain, leads to a found name. */
  lemma SkippedIsSettled(jars: seq<Jar>, root: string, first: Depths, visited: set<EdgeKey>, done: set<string>,
                         front: Pending, e: Edge)
    requires IsNode(jars, root, first, front) && Known(jars, first, visited) && Expanded(jars, first, done)
    requires IsEdge(jars, e) && ParentKey(jars, e) == Lower(front.name)
    requires Lower(front.name) in done || first[Lower(front.name)] == front.depth
    requires KeyOfEdge(jars, e) in visited || Child(jars, e) in front.path
    ensures Settled(jars, first, e)
    ensures Known(jars, first, visited + {KeyOfEdge(jars, e)})
  {
    hide Lower, Chain;
    assert Within(first, Lower(front.path[front.depth]), front.depth);
    if KeyOfEdge(jars, e) !in visited && Lower(front.name) !in done {
      var k :| 0 <= k < |front.path| && front.path[k] == Child(jars, e);
      assert Within(first, Lower(front.path[k]), k);
    }
  }

  /** A fact seen for the first time, its child off the chain. */
  lemma NewIsSettled(jars: seq<Jar>, root: string, first: Depths, visited: set<EdgeKey>, done: set<string>,
                     front: Pending, e: Edge)
    requires IsNode(jars, root, first, front) && Known(jars, first, visited) && Expanded(jars, first, done)
    requires IsEdge(jars, e) && ParentKey(jars, e) == Lower(front.name)
    requires Lower(front.name) in done || first[Lower(front.name)] == front.depth
    requires forall name :: name in first ==> first[name] <= front.depth + 1
    ensures Settled(jars, Found(first, Lower(Child(jars, e)), front.depth + 1), e)
    ensures Known(jars, Found(first, Lower(Child(jars, e)), front.depth + 1), visited + {KeyOfEdge(jars, e)})
  {
    hide Lower, Chain, Found;
    assert Within(first, Lower(front.path[front.depth]), front.depth);
    if Lower(front.name) in done { assert Settled(jars, first, e); }
    FoundKeepsKnown(jars, first, visited, Lower(Child(jars, e)), front.depth + 1);
  }

  lemma StepSkips(jars: seq<Jar>, root: string, transitive: bool, front: Pending,
                  queue: seq<Pending>, visited: set<EdgeKey>, matches: seq<Match>, first: Depths, done: set<string>, e: Edge)
    requires Between(jars, root, transitive, front, queue, visited, matches, first, done)
    requires IsEdge(jars, e) && ParentKey(jars, e) == Lower(front.name)
    requires KeyOfEdge(jars, e) in visited || Child(jars, e) in front.path
    ensures Between(jars, root, transitive, front, queue, visited + {KeyOfEdge(jars, e)}, matches, first, done)
    ensures Settled(jars, first, e)
  {
    hide Lower, Chain, IsNode, Queued, Layered, Pends, Expanded, Known, AllSound, OnceEach, Reported;
    SkippedIsSettled(jars, root, first, visited, done, front, e);
    KeyIsKnown(jars, e);
  }

  function ChildOf(jars: seq<Jar>, front: Pending, e: Edge): Pending
    requires IsEdge(jars, e)
  {
    Pending(Child(jars, e), front.path + [Child(jars, e)], front.depth + 1)
  }

  function MatchOf(jars: seq<Jar>, front: Pending, e: Edge): Match
    requires IsEdge(jars, e)
  {
    Match(Child(jars, e), e.jar, Fact(jars, e).relation, front.depth + 1, front.path + [Child(jars, e)])
  }

  lemma MatchIsSound(jars: seq<Jar>, root: string, front: Pending, first: Depths, e: Edge)
    requires IsNode(jars, root, first, front) && IsEdge(jars, e)
    requires IsNode(jars, root, Found(first, Lower(Child(jars, e)), front.depth + 1), ChildOf(jars, front, e))
    requires ParentKey(jars, e) == Lower(front.name)
    ensures Sound(jars, root, MatchOf(jars, front, e))
    ensures KeyOfMatch(jars, MatchOf(jars, front, e)) == KeyOfEdge(jars, e)
  {
    hide Lower, Chain, Found;
    var m := MatchOf(jars, front, e);
    assert m.path[m.depth - 1] == front.path[front.depth] == front.name;
  }

  lemma StepReports(jars: seq<Jar>, root: string, transitive: bool, front: Pending,
                    queue: seq<Pending>, visited: set<EdgeKey>, matches: seq<Match>, first: Depths, done: set<string>, e: Edge,
                    matches': seq<Match>, queue': seq<Pending>)
    requires Between(jars, root, transitive, front, queue, visited, matches, first, done)
    requires IsEdge(jars, e) && ParentKey(jars, e) == Lower(front.name)
    requires KeyOfEdge(jars, e) !in visited && Child(jars, e) !in front.path
    requires matches' == matches + [MatchOf(jars, front, e)]
    requires queue' == if transitive then queue + [ChildOf(jars, front, e)] else queue
    ensures var found := Found(first, Lower(Child(jars, e)), front.depth + 1);
      && Between(jars, root, transitive, front, queue', visited + {KeyOfEdge(jars, e)}, matches', found, done)
      && Settled(jars, found, e)
  {
    hide Lower, Chain, Queued, Layered, Pends, Expanded, Known, Accounted, Reported, IsNode, Settled, Found, ReportedAt;
    var name := Lower(Child(jars, e));
    var found := Found(first, name, front.depth + 1);
    var q := ChildOf(jars, front, e);
    NewIsSettled(jars, root, first, visited, done, front, e);
    KeyIsKnown(jars, e);
    FoundKeepsQueue(jars, root, first, queue, name, front.depth + 1);
    NodeIsKept(jars, root, first, front, name, front.depth + 1);
    FoundKeepsExpanded(jars, first, done, name, front.depth + 1);
    NodeNames(jars, root, first, front);
    ExtendChain(jars, root, first, front, e);
    if transitive {
      FoundKeepsPending(first, queue, done, Lower(front.name), q);
      PushLayer(queue, q, front.depth);
      QueueOneMore(jars, root, found, queue, q);
    }
    MatchIsSound(jars, root, front, first, e);
    AccountNext(jars, root, matches, visited, MatchOf(jars, front, e));
    ReportNext(first, root, matches, MatchOf(jars, front, e));
    ExpandedIsFound(jars, first, done);
  }

  lemma ExpandedIsFound(jars: seq<Jar>, first: Depths, done: set<string>)
    requires Expanded(jars, first, done)
    ensures done <= first.Keys
  {}

  lemma NodeNames(jars: seq<Jar>, root: string, first: Depths, q: Pending)
    requires IsNode(jars, root, first, q)
    ensures Lower(q.name) in first
  {
    hide Lower, Chain;
    assert Within(first, Lower(q.path[q.depth]), q.depth);
  }

  lemma NodeIsKept(jars: seq<Jar>, root: string, first: Depths, q: Pending, name: string, depth: nat)
    requires IsNode(jars, root, first, q)
    ensures IsNode(jars, root, Found(first, name, depth), q)
  {
    hide Lower, Chain, Found;
  }

  lemma QueueOneMore(jars: seq<Jar>, root: string, first: Depths, queue: seq<Pending>, q: Pending)
    requires Queued(jars, root, first, queue) && IsNode(jars, root, first, q)
    ensures Queued(jars, root, first, queue + [q])
  {
    hide IsNode;
  }

  /** The state before a type is taken from the queue. */
  ghost predicate Waiting(jars: seq<Jar>, root: string, queue: seq<Pending>,
                          visited: set<EdgeKey>, matches: seq<Match>, first: Depths, done: set<string>, depth: nat) {
    && Queued(jars, root, first, queue) && Layered(queue, depth)
    && Pends(first, queue, done) && Expanded(jars, first, done)
    && (forall name :: name in done ==> first[name] <= depth)
    && Lower(root) in first && first[Lower(root)] == 0
    && Known(jars, first, visited) && visited <= AllKeys(jars)
    && Accounted(jars, root, matches, visited)
    && Reported(first, root, matches)
  }

  lemma Start(jars: seq<Jar>, root: string)
    ensures Waiting(jars, root, [Pending(root, [root], 0)], {}, [], map[Lower(root) := 0], {}, 0)
  {
    hide Lower;
    assert Waits([Pending(root, [root], 0)], Lower(root), 0) by {
      assert [Pending(root, [root], 0)][0].name == root;
    }
  }

  lemma Take(jars: seq<Jar>, root: string, transitive: bool, queue: seq<Pending>,
             visited: set<EdgeKey>, matches: seq<Match>, first: Depths, done: set<string>, depth: nat)
    requires Waiting(jars, root, queue, visited, matches, first, done, depth) && queue != []
    ensures depth <= queue[0].depth
    ensures Between(jars, root, transitive, queue[0], queue[1..], visited, matches, first, done)
  {
    hide Lower, Known, Accounted, Reported, IsNode, Settled, Chain;
    NextLayer(queue, depth);
    FrontDepth(jars, root, first, queue, done);
    FrontLayer(queue);
    ExpandedIsFound(jars, first, done);
  }

  /** Once the whole group is settled, the type is expanded. */
  lemma Finish(jars: seq<Jar>, children: map<string, seq<Edge>>, root: string, front: Pending,
               queue: seq<Pending>, visited: set<EdgeKey>, matches: seq<Match>, first: Depths, done: set<string>)
    requires Indexes(jars, children)
    requires Between(jars, root, true, front, queue, visited, matches, first, done)
    requires SettledUpTo(jars, first, Group(children, Lower(front.name)), |Group(children, Lower(front.name))|)
    ensures Waiting(jars, root, queue, visited, matches, first, done + {Lower(front.name)}, front.depth)
  {
    hide Lower, Known, Accounted, Reported, Settled, Chain, Sorted, Queued, Layered, Pends;
    NodeNames(jars, root, first, front);
    GroupIsExpanded(jars, children, first, done, Lower(front.name));
    assert Within(first, Lower(front.path[front.depth]), front.depth);
  }

  ghost predicate SettledUpTo(jars: seq<Jar>, first: Depths, edges: seq<Edge>, n: nat) {
    n <= |edges| && AllEdges(jars, edges) && forall k :: 0 <= k < n ==> Settled(jars, first, edges[k])
  }

  lemma SettleNext(jars: seq<Jar>, first: Depths, edges: seq<Edge>, n: nat, name: string, depth: nat)
    requires SettledUpTo(jars, first, edges, n) && n < |edges|
    requires Settled(jars, Found(first, name, depth), edges[n])
    ensures SettledUpTo(jars, Found(first, name, depth), edges, n + 1)
  {
    hide Lower, Found;
    forall k | 0 <= k < n ensures Settled(jars, Found(first, name, depth), edges[k]) {
      assert Settled(jars, first, edges[k]);
    }
  }

  lemma GroupIsExpanded(jars: seq<Jar>, children: map<string, seq<Edge>>, first: Depths, done: set<string>, name: string)
    requires Indexes(jars, children) && Expanded(jars, first, done) && name in first
    requires SettledUpTo(jars, first, Group(children, name), |Group(children, name)|)
    ensures Expanded(jars, first, done + {name})
  {
    hide Lower, Settled, Sorted;
    forall e | IsEdge(jars, e) && ParentKey(jars, e) in done + {name} ensures Settled(jars, first, e) {
      if ParentKey(jars, e) == name {
        assert e in Group(children, name);
      }
    }
  }

  /** Every type some facts below the root lead to is reported, at first at its shortest distance. */
  ghost predicate ReportsAll(jars: seq<Jar>, root: string, matches: seq<Match>, transitive: bool) {
    forall name, n: nat :: Reaches(jars, root, name, n) && name != Lower(root) && (transitive || n <= 1) ==>
      exists i: nat :: FirstReport(matches, name, i) && matches[i].depth <= n
  }

  lemma AllAreReported(jars: seq<Jar>, root: string, first: Depths, matches: seq<Match>)
    requires Lower(root) in first && first[Lower(root)] == 0
    requires Expanded(jars, first, first.Keys) && Reported(first, root, matches)
    ensures ReportsAll(jars, root, matches, true)
  {
    hide Lower, Expanded;
    forall name, n: nat | Reaches(jars, root, name, n) && name != Lower(root)
      ensures exists i: nat :: FirstReport(matches, name, i) && matches[i].depth <= n
    {
      WalksAreFound(jars, root, first, name, n);
      assert ReportedAt(first[name], name, matches);
    }
  }

  lemma ChildrenAreReported(jars: seq<Jar>, root: string, first: Depths, matches: seq<Match>, done: set<string>)
    requires Lower(root) in first && first[Lower(root)] == 0 && Lower(root) in done
    requires Expanded(jars, first, done) && Reported(first, root, matches)
    ensures ReportsAll(jars, root, matches, false)
  {
    hide Lower;
    forall name, n: nat | Reaches(jars, root, name, n) && name != Lower(root) && n <= 1
      ensures exists i: nat :: FirstReport(matches, name, i) && matches[i].depth <= n
    {
      var e :| IsEdge(jars, e) && Lower(Child(jars, e)) == name && Reaches(jars, root, ParentKey(jars, e), 0);
      assert Settled(jars, first, e);
      assert ReportedAt(first[name], name, matches);
    }
  }

  function Clamp(requested: Option<nat>, maxResults: nat): (limit: nat)
    requires maxResults > 0
    ensures 1 <= limit <= maxResults
    ensures match requested
      case None => limit == maxResults
      case Some(n) => if n <= maxResults then limit == n || limit == 1 > n else limit == maxResults
  {
    var n := if requested.Some? then requested.value else maxResults;
    if n < 1 then 1 else if n > maxResults then maxResults else n
  }

  lemma GroupHolds(jars: seq<Jar>, children: map<string, seq<Edge>>, first: Depths, name: string)
    requires Indexes(jars, children)
    ensures SettledUpTo(jars, first, Group(children, name), 0)
  {}

  lemma GroupMember(jars: seq<Jar>, children: map<string, seq<Edge>>, name: string, i: nat)
    requires Indexes(jars, children) && i < |Group(children, name)|
    ensures IsEdge(jars, Group(children, name)[i]) && ParentKey(jars, Group(children, name)[i]) == name
  {
    assert Group(children, name)[i] in Group(children, name);
  }

  lemma SettleSame(jars: seq<Jar>, first: Depths, edges: seq<Edge>, n: nat)
    requires SettledUpTo(jars, first, edges, n) && n < |edges| && Settled(jars, first, edges[n])
    ensures SettledUpTo(jars, first, edges, n + 1)
  {}

  lemma NothingElse(jars: seq<Jar>, children: map<string, seq<Edge>>, root: string,
                    front: Pending, queue: seq<Pending>, visited: set<EdgeKey>, matches: seq<Match>, first: Depths,
                    done: set<string>)
    requires Indexes(jars, children) && front.name == root
    requires Between(jars, root, false, front, queue, visited, matches, first, done)
    requires SettledUpTo(jars, first, Group(children, Lower(root)), |Group(children, Lower(root))|)
    ensures AllSound(jars, root, matches) && OnceEach(jars, matches)
    ensures ReportsAll(jars, root, matches, false)
  {
    hide Lower, Known, Reported, Settled, Chain, Sorted, Queued, Layered, Pends, ReportsAll;
    GroupIsExpanded(jars, children, first, done, Lower(root));
    ChildrenAreReported(jars, root, first, matches, done + {Lower(root)});
  }

  lemma NothingPends(first: Depths, done: set<string>)
    requires Pends(first, [], done)
    ensures first.Keys <= done
  {}

  lemma NothingLeft(jars: seq<Jar>, root: string, visited: set<EdgeKey>, matches: seq<Match>,
                    first: Depths, done: set<string>, depth: nat)
    requires Waiting(jars, root, [], visited, matches, first, done, depth)
    ensures AllSound(jars, root, matches) && OnceEach(jars, matches)
    ensures ReportsAll(jars, root, matches, true)
  {
    hide Lower, Known, Reported, Settled, Chain, Queued, Layered, ReportsAll;
    NothingPends(first, done);
    ExpandedIsFound(jars, first, done);
    assert done == first.Keys;
    AllAreReported(jars, root, first, matches);
  }

  // ----- the search as a function -----

  /** The types to expand, the facts seen, and all matches so far, whatever JARs are selected. */
  datatype Search = Search(queue: seq<Pending>, visited: set<EdgeKey>, all: seq<Match>)

  function SeeFact(jars: seq<Jar>, transitive: bool, front: Pending, s: Search, e: Edge): Search
    requires IsEdge(jars, e)
  {
    var key := KeyOfEdge(jars, e);
    if key in s.visited || Child(jars, e) in front.path then s.(visited := s.visited + {key})
    else Search(if transitive then s.queue + [ChildOf(jars, front, e)] else s.queue, s.visited + {key},
                s.all + [MatchOf(jars, front, e)])
  }

  function SeeFacts(jars: seq<Jar>, transitive: bool, front: Pending, s: Search, edges: seq<Edge>): Search
    requires AllEdges(jars, edges)
    decreases |edges|
  {
    if edges == [] then s else SeeFacts(jars, transitive, front, SeeFact(jars, transitive, front, s, edges[0]), edges[1..])
  }

  lemma {:induction false} SeeingProgresses(jars: seq<Jar>, transitive: bool, front: Pending, s: Search, edges: seq<Edge>)
    requires AllEdges(jars, edges) && s.visited <= AllKeys(jars)
    ensures var seen := SeeFacts(jars, transitive, front, s, edges);
      && s.visited <= seen.visited <= AllKeys(jars) && s.all <= seen.all
      && (seen.visited == s.visited ==> seen.queue == s.queue)
    decreases |edges|
  {
    hide Lower, AllKeys;
    if edges != [] {
      KeyIsKnown(jars, edges[0]);
      SeeingProgresses(jars, transitive, front, SeeFact(jars, transitive, front, s, edges[0]), edges[1..]);
    }
  }

  lemma GroupIsValid(jars: seq<Jar>, children: map<string, seq<Edge>>, name: string)
    requires Indexes(jars, children)
    ensures AllEdges(jars, Group(children, name)) && Sorted(jars, Group(children, name))
  {}

  lemma SeeingDecreases(jars: seq<Jar>, transitive: bool, front: Pending, s: Search, edges: seq<Edge>)
    requires AllEdges(jars, edges) && s.visited <= AllKeys(jars)
    ensures var seen := SeeFacts(jars, transitive, front, s, edges);
      && seen.visited <= AllKeys(jars)
      && (|AllKeys(jars) - seen.visited| < |AllKeys(jars) - s.visited| || (seen.visited == s.visited && seen.queue == s.queue))
  {
    hide Lower, AllKeys, SeeFacts;
    SeeingProgresses(jars, transitive, front, s, edges);
    var seen := SeeFacts(jars, transitive, front, s, edges);
    if seen.visited != s.visited { FewerRemain(AllKeys(jars), s.visited, seen.visited); }
  }

  /** All matches of the search that goes on from `s`, without selector and limit. */
  ghost function AllMatches(jars: seq<Jar>, children: map<string, seq<Edge>>, transitive: bool, s: Search): seq<Match>
    requires Indexes(jars, children) && s.visited <= AllKeys(jars)
    decreases |AllKeys(jars) - s.visited|, |s.queue|
  {
    if s.queue == [] then s.all
    else
      var (front, edges) := (s.queue[0], Group(children, Lower(s.queue[0].name)));
      GroupIsValid(jars, children, Lower(front.name));
      var seen := SeeFacts(jars, transitive, front, s.(queue := s.queue[1..]), edges);
      SeeingDecreases(jars, transitive, front, s.(queue := s.queue[1..]), edges);
      if !transitive then seen.all else AllMatches(jars, children, transitive, seen)
  }

  // ----- what it finds -----

  /** The fact's child is on a chain of recorded facts that leads to its parent. */
  ghost predicate ClosesCycle(jars: seq<Jar>, root: string, key: EdgeKey) {
    exists e, path ::
      && IsEdge(jars, e) && KeyOfEdge(jars, e) == key
      && Chain(jars, root, path) && Lower(path[|path| - 1]) == key.parent && Child(jars, e) in path
  }

  predicate IsReported(jars: seq<Jar>, all: seq<Match>, key: EdgeKey) {
    exists i :: 0 <= i < |all| && all[i].jar < |jars| && 0 < all[i].depth <= |all[i].path| && KeyOfMatch(jars, all[i]) == key
  }

  ghost predicate Covered(jars: seq<Jar>, root: string, visited: set<EdgeKey>, all: seq<Match>) {
    forall key :: key in visited ==> IsReported(jars, all, key) || ClosesCycle(jars, root, key)
  }

  ghost predicate DoneIsVisited(jars: seq<Jar>, done: set<string>, visited: set<EdgeKey>) {
    forall e :: IsEdge(jars, e) && ParentKey(jars, e) in done ==> KeyOfEdge(jars, e) in visited
  }

  /** Every fact below a reached type is reported, unless it closes a cycle. */
  ghost predicate ReportsFacts(jars: seq<Jar>, root: string, all: seq<Match>, transitive: bool) {
    forall e, n: nat :: IsEdge(jars, e) && Reaches(jars, root, ParentKey(jars, e), n) && (transitive || n == 0) ==>
      IsReported(jars, all, KeyOfEdge(jars, e)) || ClosesCycle(jars, root, KeyOfEdge(jars, e))
  }

  predicate SameParent(a: Match, b: Match) {
    a.depth == b.depth && a.depth < |a.path| && b.depth < |b.path| && a.path[..a.depth] == b.path[..b.depth]
  }

  /** Breadth first, and the children of one type by name. */
  predicate InOrder(all: seq<Match>) {
    && (forall i, j :: 0 <= i < j < |all| ==> all[i].depth <= all[j].depth)
    && (forall i, j :: 0 <= i < j < |all| && SameParent(all[i], all[j]) ==> !LexLess(all[j].typeName, all[i].typeName))
  }

  /** Everything that the search is for, without selector and limit. */
  ghost predicate IsFullSearch(jars: seq<Jar>, root: string, transitive: bool, all: seq<Match>) {
    && AllSound(jars, root, all) && OnceEach(jars, all) && InOrder(all)
    && ReportsAll(jars, root, all, transitive) && ReportsFacts(jars, root, all, transitive)
    && (!transitive ==> forall i :: 0 <= i < |all| ==> all[i].depth == 1)
  }

  /** The match is of a type that was expanded, no deeper than the next layer. */
  predicate OfExpanded(m: Match, depth: nat, done: set<string>) {
    0 < m.depth <= |m.path| && Lower(m.path[m.depth - 1]) in done && m.depth <= depth + 1
  }

  ghost predicate AllOfExpanded(all: seq<Match>, n: nat, depth: nat, done: set<string>) {
    n <= |all| && forall k :: 0 <= k < n ==> OfExpanded(all[k], depth, done)
  }

  predicate IsOneOf(jars: seq<Jar>, m: Match, front: Pending, edges: seq<Edge>, n: nat)
    requires n <= |edges| && AllEdges(jars, edges)
  {
    exists g :: 0 <= g < n && m == MatchOf(jars, front, edges[g])
  }

  /** The first `from` matches are of types that were expanded before, the others follow the first `n` facts of the group. */
  ghost predicate InTurn(jars: seq<Jar>, all: seq<Match>, from: nat, front: Pending, edges: seq<Edge>, n: nat, done: set<string>) {
    && n <= |edges| && AllEdges(jars, edges) && AllOfExpanded(all, from, front.depth, done)
    && (forall k :: from <= k < |all| ==> IsOneOf(jars, all[k], front, edges, n))
    && InOrder(all)
  }

  ghost predicate GroupIsVisited(jars: seq<Jar>, edges: seq<Edge>, n: nat, visited: set<EdgeKey>) {
    n <= |edges| && AllEdges(jars, edges) && forall g :: 0 <= g < n ==> KeyOfEdge(jars, edges[g]) in visited
  }

  // ----- one fact -----

  lemma SkippedIsCovered(jars: seq<Jar>, root: string, first: Depths, front: Pending, s: Search, e: Edge)
    requires Covered(jars, root, s.visited, s.all) && IsNode(jars, root, first, front)
    requires IsEdge(jars, e) && ParentKey(jars, e) == Lower(front.name)
    requires KeyOfEdge(jars, e) in s.visited || Child(jars, e) in front.path
    ensures Covered(jars, root, s.visited + {KeyOfEdge(jars, e)}, s.all)
  {
    hide Lower, Chain, IsReported;
    if KeyOfEdge(jars, e) !in s.visited {
      assert ClosesCycle(jars, root, KeyOfEdge(jars, e)) by {
        assert front.path[|front.path| - 1] == front.name;
      }
    }
  }

  lemma ReportedIsCovered(jars: seq<Jar>, root: string, front: Pending, s: Search, e: Edge)
    requires Covered(jars, root, s.visited, s.all) && IsEdge(jars, e)
    requires |front.path| == front.depth + 1 && KeyOfMatch(jars, MatchOf(jars, front, e)) == KeyOfEdge(jars, e)
    ensures Covered(jars, root, s.visited + {KeyOfEdge(jars, e)}, s.all + [MatchOf(jars, front, e)])
  {
    hide Lower, KeyOfMatch, ClosesCycle;
    var more := s.all + [MatchOf(jars, front, e)];
    assert more[|s.all|] == MatchOf(jars, front, e);
    forall key | key in s.visited && IsReported(jars, s.all, key) ensures IsReported(jars, more, key) {
      var i :| 0 <= i < |s.all| && s.all[i].jar < |jars| && 0 < s.all[i].depth <= |s.all[i].path|
        && KeyOfMatch(jars, s.all[i]) == key;
      assert more[i] == s.all[i];
    }
    assert IsReported(jars, more, KeyOfEdge(jars, e));
  }

  lemma OneOfMore(jars: seq<Jar>, m: Match, front: Pending, edges: seq<Edge>, n: nat)
    requires n < |edges| && AllEdges(jars, edges) && IsOneOf(jars, m, front, edges, n)
    ensures IsOneOf(jars, m, front, edges, n + 1)
  {
    var g :| 0 <= g < n && m == MatchOf(jars, front, edges[g]);
    assert m == MatchOf(jars, front, edges[g]);
  }

  lemma SkippedStaysInTurn(jars: seq<Jar>, all: seq<Match>, from: nat, front: Pending, edges: seq<Edge>, n: nat, done: set<string>)
    requires InTurn(jars, all, from, front, edges, n, done) && n < |edges|
    ensures InTurn(jars, all, from, front, edges, n + 1, done)
  {
    hide IsOneOf, InOrder, OfExpanded;
    forall k | from <= k < |all| ensures IsOneOf(jars, all[k], front, edges, n + 1) {
      OneOfMore(jars, all[k], front, edges, n);
    }
  }

  lemma ParentIsShared(a: Match, b: Match)
    ensures SameParent(a, b) && a.depth > 0 ==> a.path[a.depth - 1] == b.path[b.depth - 1]
  {
    if SameParent(a, b) && a.depth > 0 {
      assert a.path[..a.depth][a.depth - 1] == a.path[a.depth - 1];
    }
  }

  /** The next match comes after the others: they are not deeper, and those of the same type come by name. */
  lemma NextInTurn(jars: seq<Jar>, all: seq<Match>, from: nat, front: Pending, edges: seq<Edge>, n: nat, done: set<string>)
    requires InTurn(jars, all, from, front, edges, n, done) && n < |edges| && Sorted(jars, edges)
    requires |front.path| == front.depth + 1 && front.path[front.depth] == front.name && Lower(front.name) !in done
    ensures InTurn(jars, all + [MatchOf(jars, front, edges[n])], from, front, edges, n + 1, done)
  {
    hide Lower;
    var m := MatchOf(jars, front, edges[n]);
    var more := all + [m];
    assert m.path[m.depth - 1] == front.name;
    forall k | 0 <= k < |all|
      ensures all[k].depth <= m.depth && (SameParent(all[k], m) ==> !LexLess(m.typeName, all[k].typeName))
    {
      if k < from {
        assert OfExpanded(all[k], front.depth, done);
        ParentIsShared(all[k], m);
      } else {
        assert IsOneOf(jars, all[k], front, edges, n);
        var g :| 0 <= g < n && all[k] == MatchOf(jars, front, edges[g]);
        assert Precedes(jars, edges[g], edges[n]);
        NotBefore(Child(jars, edges[g]), Child(jars, edges[n]));
      }
    }
    forall k | from <= k < |more| ensures IsOneOf(jars, more[k], front, edges, n + 1) {
      if k < |all| { OneOfMore(jars, all[k], front, edges, n); }
    }
  }

  lemma NotBefore(a: string, b: string)
    ensures LexLess(a, b) || a == b ==> !LexLess(b, a)
  {
    LexIrreflexive(a);
    if LexLess(a, b) && LexLess(b, a) { LexTransitive(a, b, a); }
  }

  function NextDepths(jars: seq<Jar>, front: Pending, s: Search, first: Depths, e: Edge): Depths
    requires IsEdge(jars, e)
  {
    if KeyOfEdge(jars, e) in s.visited || Child(jars, e) in front.path then first
    else Found(first, Lower(Child(jars, e)), front.depth + 1)
  }

  lemma FactIsSeen(jars: seq<Jar>, root: string, transitive: bool, front: Pending, s: Search, edges: seq<Edge>, n: nat,
                   first: Depths, done: set<string>, from: nat)
    requires Between(jars, root, transitive, front, s.queue, s.visited, s.all, first, done)
    requires SettledUpTo(jars, first, edges, n) && n < |edges| && Sorted(jars, edges)
    requires ParentKey(jars, edges[n]) == Lower(front.name)
    requires Covered(jars, root, s.visited, s.all) && DoneIsVisited(jars, done, s.visited)
    requires GroupIsVisited(jars, edges, n, s.visited) && InTurn(jars, s.all, from, front, edges, n, done)
    ensures var (seen, next) := (SeeFact(jars, transitive, front, s, edges[n]), NextDepths(jars, front, s, first, edges[n]));
      && Between(jars, root, transitive, front, seen.queue, seen.visited, seen.all, next, done)
      && SettledUpTo(jars, next, edges, n + 1)
      && Covered(jars, root, seen.visited, seen.all) && DoneIsVisited(jars, done, seen.visited)
      && GroupIsVisited(jars, edges, n + 1, seen.visited) && InTurn(jars, seen.all, from, front, edges, n + 1, done)
  {
    hide Lower, Chain, Between, Settled, SettledUpTo, Covered, InTurn, Found, Sorted, KeyOfMatch, MatchOf, ChildOf;
    var e := edges[n];
    FrontIsNode(jars, root, transitive, front, s.queue, s.visited, s.all, first, done);
    if KeyOfEdge(jars, e) in s.visited || Child(jars, e) in front.path {
      StepSkips(jars, root, transitive, front, s.queue, s.visited, s.all, first, done, e);
      SettleSame(jars, first, edges, n);
      SkippedIsCovered(jars, root, first, front, s, e);
      SkippedStaysInTurn(jars, s.all, from, front, edges, n, done);
    } else {
      var seen := SeeFact(jars, transitive, front, s, e);
      StepReports(jars, root, transitive, front, s.queue, s.visited, s.all, first, done, e, seen.all, seen.queue);
      SettleNext(jars, first, edges, n, Lower(Child(jars, e)), front.depth + 1);
      MatchKey(jars, front, e);
      ReportedIsCovered(jars, root, front, s, e);
      NextInTurn(jars, s.all, from, front, edges, n, done);
    }
  }

  lemma FrontIsNode(jars: seq<Jar>, root: string, transitive: bool, front: Pending, queue: seq<Pending>, visited: set<EdgeKey>,
                    matches: seq<Match>, first: Depths, done: set<string>)
    requires Between(jars, root, transitive, front, queue, visited, matches, first, done)
    ensures IsNode(jars, root, first, front) && visited <= AllKeys(jars)
  {}

  lemma MatchKey(jars: seq<Jar>, front: Pending, e: Edge)
    requires IsEdge(jars, e) && ParentKey(jars, e) == Lower(front.name)
    requires |front.path| == front.depth + 1 && front.path[front.depth] == front.name
    ensures KeyOfMatch(jars, MatchOf(jars, front, e)) == KeyOfEdge(jars, e)
  {
    hide Lower;
    assert MatchOf(jars, front, e).path[front.depth] == front.name;
  }

  // ----- one type -----

  lemma {:induction false} FactsAreSeen(jars: seq<Jar>, root: string, transitive: bool, front: Pending, s: Search,
                                        edges: seq<Edge>, n: nat, first: Depths, done: set<string>, from: nat)
    returns (last: Depths)
    requires Between(jars, root, transitive, front, s.queue, s.visited, s.all, first, done)
    requires SettledUpTo(jars, first, edges, n) && Sorted(jars, edges)
    requires forall k :: 0 <= k < |edges| ==> ParentKey(jars, edges[k]) == Lower(front.name)
    requires Covered(jars, root, s.visited, s.all) && DoneIsVisited(jars, done, s.visited)
    requires GroupIsVisited(jars, edges, n, s.visited) && InTurn(jars, s.all, from, front, edges, n, done)
    ensures var seen := SeeFacts(jars, transitive, front, s, edges[n..]);
      && Between(jars, root, transitive, front, seen.queue, seen.visited, seen.all, last, done)
      && SettledUpTo(jars, last, edges, |edges|)
      && Covered(jars, root, seen.visited, seen.all) && DoneIsVisited(jars, done, seen.visited)
      && GroupIsVisited(jars, edges, |edges|, seen.visited) && InTurn(jars, seen.all, from, front, edges, |edges|, done)
    decreases |edges| - n
  {
    hide Lower, Between, SettledUpTo, Covered, InTurn, DoneIsVisited, GroupIsVisited, SeeFact, NextDepths, Sorted;
    UpToIsBounded(jars, first, edges, n);
    if n == |edges| {
      last := first;
    } else {
      FactIsSeen(jars, root, transitive, front, s, edges, n, first, done, from);
      last := FactsAreSeen(jars, root, transitive, front, SeeFact(jars, transitive, front, s, edges[n]), edges, n + 1,
                           NextDepths(jars, front, s, first, edges[n]), done, from);
      assert edges[n..][0] == edges[n] && edges[n..][1..] == edges[n + 1..];
    }
  }

  lemma UpToIsBounded(jars: seq<Jar>, first: Depths, edges: seq<Edge>, n: nat)
    requires SettledUpTo(jars, first, edges, n)
    ensures n <= |edges| && AllEdges(jars, edges)
  {}

  /** Taking a type from the queue and seeing all of its facts. */
  lemma TypeIsSeen(jars: seq<Jar>, children: map<string, seq<Edge>>, root: string, transitive: bool, s: Search, first: Depths,
                   done: set<string>, depth: nat)
    returns (last: Depths)
    requires Indexes(jars, children) && s.queue != []
    requires Waiting(jars, root, s.queue, s.visited, s.all, first, done, depth)
    requires Covered(jars, root, s.visited, s.all) && DoneIsVisited(jars, done, s.visited)
    requires InOrder(s.all) && AllOfExpanded(s.all, |s.all|, depth, done)
    ensures var (front, edges) := (s.queue[0], Group(children, Lower(s.queue[0].name)));
      AllEdges(jars, edges) &&
      var seen := SeeFacts(jars, transitive, front, s.(queue := s.queue[1..]), edges);
      && depth <= front.depth
      && Between(jars, root, transitive, front, seen.queue, seen.visited, seen.all, last, done)
      && SettledUpTo(jars, last, edges, |edges|)
      && Covered(jars, root, seen.visited, seen.all) && DoneIsVisited(jars, done, seen.visited)
      && GroupIsVisited(jars, edges, |edges|, seen.visited)
      && InTurn(jars, seen.all, |s.all|, front, edges, |edges|, done)
  {
    hide Lower, Between, Waiting, SettledUpTo, Covered, DoneIsVisited, InOrder, Indexes, Sorted, SeeFact, SeeFacts, AllEdges;
    var (front, edges) := (s.queue[0], Group(children, Lower(s.queue[0].name)));
    GroupIsValid(jars, children, Lower(front.name));
    Take(jars, root, transitive, s.queue, s.visited, s.all, first, done, depth);
    GroupHolds(jars, children, first, Lower(front.name));
    forall k | 0 <= k < |edges| ensures ParentKey(jars, edges[k]) == Lower(front.name) {
      GroupMember(jars, children, Lower(front.name), k);
    }
    assert edges[0..] == edges;
    last := FactsAreSeen(jars, root, transitive, front, s.(queue := s.queue[1..]), edges, 0, first, done, |s.all|);
  }

  lemma TurnEnds(jars: seq<Jar>, all: seq<Match>, from: nat, front: Pending, edges: seq<Edge>, done: set<string>)
    requires InTurn(jars, all, from, front, edges, |edges|, done)
    requires |front.path| == front.depth + 1 && front.path[front.depth] == front.name
    ensures InOrder(all) && AllOfExpanded(all, |all|, front.depth, done + {Lower(front.name)})
  {
    hide Lower, InOrder;
    forall k | 0 <= k < |all| ensures OfExpanded(all[k], front.depth, done + {Lower(front.name)}) {
      if k < from {
        assert OfExpanded(all[k], front.depth, done);
      } else {
        assert IsOneOf(jars, all[k], front, edges, |edges|);
        var g :| 0 <= g < |edges| && all[k] == MatchOf(jars, front, edges[g]);
        assert all[k].path[front.depth] == front.name;
      }
    }
  }

  lemma GroupIsDone(jars: seq<Jar>, children: map<string, seq<Edge>>, name: string, done: set<string>, visited: set<EdgeKey>)
    requires Indexes(jars, children) && DoneIsVisited(jars, done, visited)
    requires GroupIsVisited(jars, Group(children, name), |Group(children, name)|, visited)
    ensures DoneIsVisited(jars, done + {name}, visited)
  {
    hide Lower, Sorted;
    forall e | IsEdge(jars, e) && ParentKey(jars, e) in done + {name} ensures KeyOfEdge(jars, e) in visited {
      if ParentKey(jars, e) == name {
        assert e in Group(children, name);
      }
    }
  }

  // ----- the whole search finds everything -----

  lemma AllFactsAreReported(jars: seq<Jar>, root: string, first: Depths, done: set<string>, visited: set<EdgeKey>, all: seq<Match>)
    requires Lower(root) in first && first[Lower(root)] == 0 && Expanded(jars, first, first.Keys) && done == first.Keys
    requires Covered(jars, root, visited, all) && DoneIsVisited(jars, done, visited)
    ensures ReportsFacts(jars, root, all, true)
  {
    hide Lower, Expanded, IsReported, ClosesCycle;
    forall e, n: nat | IsEdge(jars, e) && Reaches(jars, root, ParentKey(jars, e), n)
      ensures IsReported(jars, all, KeyOfEdge(jars, e)) || ClosesCycle(jars, root, KeyOfEdge(jars, e))
    {
      WalksAreFound(jars, root, first, ParentKey(jars, e), n);
    }
  }

  lemma RootFactsAreReported(jars: seq<Jar>, root: string, done: set<string>, visited: set<EdgeKey>, all: seq<Match>)
    requires Lower(root) in done && Covered(jars, root, visited, all) && DoneIsVisited(jars, done, visited)
    ensures ReportsFacts(jars, root, all, false)
  {
    hide Lower, IsReported, ClosesCycle;
  }

  lemma NothingIsLeft(jars: seq<Jar>, root: string, s: Search, first: Depths, done: set<string>, depth: nat)
    requires s.queue == [] && Waiting(jars, root, s.queue, s.visited, s.all, first, done, depth)
    requires Covered(jars, root, s.visited, s.all) && DoneIsVisited(jars, done, s.visited) && InOrder(s.all)
    ensures IsFullSearch(jars, root, true, s.all)
  {
    NothingLeft(jars, root, s.visited, s.all, first, done, depth);
    hide Lower, Known, Reported, Settled, Chain, Queued, Layered, ReportsAll, Covered, DoneIsVisited, InOrder, ReportsFacts;
    NothingPends(first, done);
    ExpandedIsFound(jars, first, done);
    assert done == first.Keys;
    AllFactsAreReported(jars, root, first, done, s.visited, s.all);
  }

  lemma {:induction false} SearchIsFull(jars: seq<Jar>, children: map<string, seq<Edge>>, root: string, s: Search, first: Depths,
                                        done: set<string>, depth: nat)
    requires Indexes(jars, children) && s.visited <= AllKeys(jars)
    requires Waiting(jars, root, s.queue, s.visited, s.all, first, done, depth)
    requires Covered(jars, root, s.visited, s.all) && DoneIsVisited(jars, done, s.visited)
    requires InOrder(s.all) && AllOfExpanded(s.all, |s.all|, depth, done)
    ensures IsFullSearch(jars, root, true, AllMatches(jars, children, true, s))
    decreases |AllKeys(jars) - s.visited|, |s.queue|
  {
    hide Lower, Between, Waiting, SettledUpTo, Covered, DoneIsVisited, InOrder, Indexes, SeeFact, SeeFacts, AllKeys, InTurn,
         AllOfExpanded, GroupIsVisited, IsFullSearch, AllEdges;
    if s.queue == [] {
      NothingIsLeft(jars, root, s, first, done, depth);
    } else {
      var (front, edges) := (s.queue[0], Group(children, Lower(s.queue[0].name)));
      GroupIsValid(jars, children, Lower(front.name));
      var last := TypeIsSeen(jars, children, root, true, s, first, done, depth);
      SeeingDecreases(jars, true, front, s.(queue := s.queue[1..]), edges);
      var seen := SeeFacts(jars, true, front, s.(queue := s.queue[1..]), edges);
      FrontIsNode(jars, root, true, front, seen.queue, seen.visited, seen.all, last, done);
      Finish(jars, children, root, front, seen.queue, seen.visited, seen.all, last, done);
      TurnEnds(jars, seen.all, |s.all|, front, edges, done);
      GroupIsDone(jars, children, Lower(front.name), done, seen.visited);
      SearchIsFull(jars, children, root, seen, last, done + {Lower(front.name)}, front.depth);
    }
  }

  function Beginning(root: string): Search { Search([Pending(root, [root], 0)], {}, []) }

  lemma OnlyChildren(jars: seq<Jar>, all: seq<Match>, front: Pending, edges: seq<Edge>)
    requires InTurn(jars, all, 0, front, edges, |edges|, {}) && front.depth == 0
    ensures forall i :: 0 <= i < |all| ==> all[i].depth == 1
  {
    forall i | 0 <= i < |all| ensures all[i].depth == 1 {
      assert IsOneOf(jars, all[i], front, edges, |edges|);
    }
  }

  /** A search for the direct children. */
  lemma ChildSearchIsFull(jars: seq<Jar>, children: map<string, seq<Edge>>, root: string)
    requires Indexes(jars, children)
    ensures IsFullSearch(jars, root, false, AllMatches(jars, children, false, Beginning(root)))
  {
    hide Lower, Between, Waiting, SettledUpTo, Covered, Indexes, SeeFact, SeeFacts, AllKeys, InTurn, GroupIsVisited,
         AllSound, OnceEach, ReportsAll, ReportsFacts, InOrder, AllEdges, DoneIsVisited;
    var s := Beginning(root);
    Start(jars, root);
    NothingCovered(jars, root);
    var (front, edges) := (s.queue[0], Group(children, Lower(root)));
    GroupIsValid(jars, children, Lower(root));
    var last := TypeIsSeen(jars, children, root, false, s, map[Lower(root) := 0], {}, 0);
    var seen := SeeFacts(jars, false, front, s.(queue := s.queue[1..]), edges);
    NothingElse(jars, children, root, front, seen.queue, seen.visited, seen.all, last, {});
    OnlyChildren(jars, seen.all, front, edges);
    TurnEnds(jars, seen.all, 0, front, edges, {});
    GroupIsDone(jars, children, Lower(root), {}, seen.visited);
    RootFactsAreReported(jars, root, {} + {Lower(root)}, seen.visited, seen.all);
  }

  lemma NothingCovered(jars: seq<Jar>, root: string)
    ensures Covered(jars, root, {}, []) && DoneIsVisited(jars, {}, {}) && InOrder([]) && AllOfExpanded([], 0, 0, {})
  {}

  lemma AllMatchesAreFull(jars: seq<Jar>, children: map<string, seq<Edge>>, root: string, transitive: bool)
    requires Indexes(jars, children)
    ensures IsFullSearch(jars, root, transitive, AllMatches(jars, children, transitive, Beginning(root)))
  {
    hide Lower, Waiting, Indexes, IsFullSearch, AllMatches, Covered, DoneIsVisited, InOrder;
    if transitive {
      Start(jars, root);
      NothingCovered(jars, root);
      SearchIsFull(jars, children, root, Beginning(root), map[Lower(root) := 0], {}, 0);
    } else {
      ChildSearchIsFull(jars, children, root);
    }
  }

  // ----- selector and limit -----

  predicate IsSelected(m: Match, selector: Option<set<nat>>) {
    selector.None? || m.jar in selector.value
  }

  /** The matches of the selected JARs, in their order. */
  function Selected(all: seq<Match>, selector: Option<set<nat>>): seq<Match> {
    if all == [] then []
    else
      var last := all[|all| - 1];
      Selected(all[..|all| - 1], selector) + if IsSelected(last, selector) then [last] else []
  }

  function Cut(matches: seq<Match>, limit: nat): seq<Match> {
    if |matches| <= limit then matches else matches[..limit]
  }

  lemma CountOfMore<T>(s: seq<T>, last: T, x: T)
    ensures multiset(s + [last])[x] == multiset(s)[x] + if last == x then 1 else 0
  {}

  /** Selecting keeps each match of a selected JAR as often as it occurs, and no other. */
  lemma {:induction false} SelectedIsExact(all: seq<Match>, selector: Option<set<nat>>, m: Match)
    ensures multiset(Selected(all, selector))[m] == if IsSelected(m, selector) then multiset(all)[m] else 0
    decreases |all|
  {
    hide IsSelected;
    if all != [] {
      var (init, last) := (all[..|all| - 1], all[|all| - 1]);
      SelectedIsExact(init, selector, m);
      CountOfMore(init, last, m);
      CountOfMore(Selected(init, selector), last, m);
      assert all == init + [last] && Selected(init, selector) + [] == Selected(init, selector);
    }
  }

  /** Selecting keeps the order: earlier matches stay before later ones. */
  lemma {:induction false} SelectedKeepsOrder(all: seq<Match>, more: seq<Match>, selector: Option<set<nat>>)
    ensures Selected(all + more, selector) == Selected(all, selector) + Selected(more, selector)
    decreases |more|
  {
    hide Selected;
    if more == [] {
      assert all + more == all;
      NothingSelected(selector);
    } else {
      var (rest, last) := (more[..|more| - 1], more[|more| - 1]);
      SelectedKeepsOrder(all, rest, selector);
      SelectedNext(all + rest, last, selector);
      SelectedNext(rest, last, selector);
      assert more == rest + [last] && all + more == all + rest + [last];
    }
  }

  lemma SelectedNext(all: seq<Match>, m: Match, selector: Option<set<nat>>)
    ensures Selected(all + [m], selector)
              == Selected(all, selector) + if selector.None? || m.jar in selector.value then [m] else []
  {
    assert (all + [m])[..|all|] == all;
  }

  lemma {:induction false} SelectedOfMore(all: seq<Match>, more: seq<Match>, selector: Option<set<nat>>)
    requires all <= more
    ensures Selected(all, selector) <= Selected(more, selector)
    decreases |more|
  {
    if all != more {
      SelectedOfMore(all, more[..|more| - 1], selector);
    }
  }

  lemma {:induction false} SearchOnlyAdds(jars: seq<Jar>, children: map<string, seq<Edge>>, transitive: bool, s: Search)
    requires Indexes(jars, children) && s.visited <= AllKeys(jars)
    ensures s.all <= AllMatches(jars, children, transitive, s)
    decreases |AllKeys(jars) - s.visited|, |s.queue|
  {
    hide Lower, Indexes, SeeFacts, AllKeys;
    if s.queue != [] {
      var (front, edges) := (s.queue[0], Group(children, Lower(s.queue[0].name)));
      GroupIsValid(jars, children, Lower(front.name));
      SeeingDecreases(jars, transitive, front, s.(queue := s.queue[1..]), edges);
      SeeingProgresses(jars, transitive, front, s.(queue := s.queue[1..]), edges);
      if transitive {
        SearchOnlyAdds(jars, children, transitive, SeeFacts(jars, transitive, front, s.(queue := s.queue[1..]), edges));
      }
    }
  }

  lemma LimitIsReached(jars: seq<Jar>, children: map<string, seq<Edge>>, transitive: bool, s: Search, front: Pending,
                       rest: seq<Edge>, all: seq<Match>, selector: Option<set<nat>>, limit: nat)
    requires Indexes(jars, children) && AllEdges(jars, rest) && s.visited <= AllKeys(jars)
    requires |Selected(s.all, selector)| == limit
    requires var seen := SeeFacts(jars, transitive, front, s, rest);
      seen.visited <= AllKeys(jars) && all == if transitive then AllMatches(jars, children, transitive, seen) else seen.all
    ensures Selected(s.all, selector) == Cut(Selected(all, selector), limit)
  {
    hide Lower, Indexes, SeeFacts, AllKeys, AllMatches, Selected;
    var seen := SeeFacts(jars, transitive, front, s, rest);
    SeeingProgresses(jars, transitive, front, s, rest);
    if transitive { SearchOnlyAdds(jars, children, transitive, seen); }
    assert s.all <= all;
    SelectedOfMore(s.all, all, selector);
  }

  /** All matches, without selector and limit; an empty query has none. */
  ghost function WholeSearch(jars: seq<Jar>, children: map<string, seq<Edge>>, root: string, transitive: bool): (all: seq<Match>)
    requires Indexes(jars, children)
    ensures if root == "" then all == [] else IsFullSearch(jars, root, transitive, all)
  {
    hide Indexes, IsFullSearch, AllMatches;
    if root == "" then []
    else AllMatchesAreFull(jars, children, root, transitive); AllMatches(jars, children, transitive, Beginning(root))
  }

  /** Reports the matches of the selected JARs, in the order of the whole search, cut at the limit. */
  method SearchTypeHierarchy(jars: seq<Jar>, children: map<string, seq<Edge>>, root: string, transitive: bool,
                             selector: Option<set<nat>>, requested: Option<nat>, maxResults: nat)
    returns (matches: seq<Match>)
    requires Indexes(jars, children) && maxResults > 0
    ensures matches == Cut(Selected(WholeSearch(jars, children, root, transitive), selector), Clamp(requested, maxResults))
  {
    hide Indexes, Lower, AllKeys, SeeFact, SeeFacts, AllMatches, IsFullSearch, AllEdges, Sorted, Selected;
    matches := [];
    if root == "" {
      assert Selected([], selector) == [] by { NothingSelected(selector); }
      return;
    }
    var limit := Clamp(requested, maxResults);
    var queue := [Pending(root, [root], 0)];
    var visited: set<EdgeKey> := {};
    ghost var soFar: seq<Match> := [];
    ghost var all := WholeSearch(jars, children, root, transitive);
    NothingSelected(selector);
    while queue != []
      invariant visited <= AllKeys(jars) && all == AllMatches(jars, children, transitive, Search(queue, visited, soFar))
      invariant matches == Selected(soFar, selector) && |matches| < limit
      decreases |AllKeys(jars) - visited|, |queue|
    {
      var front := queue[0];
      ghost var s := Search(queue[1..], visited, soFar);
      SearchUnfolds(jars, children, transitive, Search(queue, visited, soFar));
      queue := queue[1..];
      var edges := Group(children, Lower(front.name));
      GroupIsValid(jars, children, Lower(front.name));
      ghost var seen := SeeFacts(jars, transitive, front, s, edges);
      SeeingDecreases(jars, transitive, front, s, edges);
      assert edges[0..] == edges;
      for i := 0 to |edges|
        invariant AllEdges(jars, edges[i..])
        invariant SeeFacts(jars, transitive, front, Search(queue, visited, soFar), edges[i..]) == seen
        invariant visited <= AllKeys(jars)
        invariant matches == Selected(soFar, selector) && |matches| < limit
      {
        var e := edges[i];
        GroupMember(jars, children, Lower(front.name), i);
        RestIsValid(jars, edges, i + 1);
        FactsUnfold(jars, transitive, front, Search(queue, visited, soFar), edges, i);
        KeyIsKnown(jars, e);
        var child := Child(jars, e);
        var key := KeyOfEdge(jars, e);
        var isNew := key !in visited;
        visited := visited + {key};
        if !isNew || child in front.path {
          continue;
        }
        var childPath := front.path + [child];
        ghost var m := MatchOf(jars, front, e);
        SelectedNext(soFar, m, selector);
        soFar := soFar + [m];
        if selector.None? || e.jar in selector.value {
          matches := matches + [Match(child, e.jar, Fact(jars, e).relation, front.depth + 1, childPath)];
          if |matches| == limit {
            ghost var now := Search(if transitive then queue + [ChildOf(jars, front, e)] else queue, visited, soFar);
            LimitIsReached(jars, children, transitive, now, front, edges[i + 1..], all, selector, limit);
            return;
          }
        }
        if transitive {
          queue := queue + [Pending(child, childPath, front.depth + 1)];
        }
      }
      NoFactsLeft(jars, transitive, front, Search(queue, visited, soFar), edges);
      if !transitive {
        return;
      }
    }
    NothingQueued(jars, children, transitive, Search(queue, visited, soFar));
  }

  lemma RestIsValid(jars: seq<Jar>, edges: seq<Edge>, i: nat)
    requires AllEdges(jars, edges) && i <= |edges|
    ensures AllEdges(jars, edges[i..])
  {}

  lemma NothingSelected(selector: Option<set<nat>>)
    ensures Selected([], selector) == []
  {}

  lemma SearchUnfolds(jars: seq<Jar>, children: map<string, seq<Edge>>, transitive: bool, s: Search)
    requires Indexes(jars, children) && s.visited <= AllKeys(jars) && s.queue != []
    ensures var edges := Group(children, Lower(s.queue[0].name));
      AllEdges(jars, edges) &&
      var seen := SeeFacts(jars, transitive, s.queue[0], s.(queue := s.queue[1..]), edges);
      && seen.visited <= AllKeys(jars)
      && AllMatches(jars, children, transitive, s) == if transitive then AllMatches(jars, children, transitive, seen) else seen.all
  {
    hide Lower, Indexes, SeeFacts, AllKeys;
    var edges := Group(children, Lower(s.queue[0].name));
    GroupIsValid(jars, children, Lower(s.queue[0].name));
    SeeingDecreases(jars, transitive, s.queue[0], s.(queue := s.queue[1..]), edges);
  }

  lemma FactsUnfold(jars: seq<Jar>, transitive: bool, front: Pending, s: Search, edges: seq<Edge>, i: nat)
    requires AllEdges(jars, edges) && i < |edges|
    ensures var e := edges[i];
      && SeeFacts(jars, transitive, front, s, edges[i..])
           == SeeFacts(jars, transitive, front, SeeFact(jars, transitive, front, s, e), edges[i + 1..])
      && SeeFact(jars, transitive, front, s, e) ==
           if KeyOfEdge(jars, e) in s.visited || Child(jars, e) in front.path then s.(visited := s.visited + {KeyOfEdge(jars, e)})
           else Search(if transitive then s.queue + [ChildOf(jars, front, e)] else s.queue, s.visited + {KeyOfEdge(jars, e)},
                       s.all + [MatchOf(jars, front, e)])
  {
    hide Lower;
    assert edges[i..][0] == edges[i] && edges[i..][1..] == edges[i + 1..];
  }

  lemma NoFactsLeft(jars: seq<Jar>, transitive: bool, front: Pending, s: Search, edges: seq<Edge>)
    requires AllEdges(jars, edges)
    ensures SeeFacts(jars, transitive, front, s, edges[|edges|..]) == s
  {}

  lemma NothingQueued(jars: seq<Jar>, children: map<string, seq<Edge>>, transitive: bool, s: Search)
    requires Indexes(jars, children) && s.visited <= AllKeys(jars) && s.queue == []
    ensures AllMatches(jars, children, transitive, s) == s.all
  {}

  /** The first report of a type gives its distance from the root: a walk of that length exists and none is shorter. */
  lemma FirstReportIsShortest(jars: seq<Jar>, root: string, matches: seq<Match>,
                              transitive: bool, name: string, i: nat, n: nat)
    requires AllSound(jars, root, matches) && ReportsAll(jars, root, matches, transitive)
    requires FirstReport(matches, name, i) && name != Lower(root)
    requires Reaches(jars, root, name, n) && (transitive || n <= 1)
    ensures Reaches(jars, root, name, matches[i].depth) && matches[i].depth <= n
  {
    hide Lower, Chain, Reaches;
    assert Sound(jars, root, matches[i]);
    ChainsAreWalks(jars, root, matches[i].path, matches[i].depth);
    var j: nat :| FirstReport(matches, name, j) && matches[j].depth <= n;
    assert i == j;
  }

  /** Without names that differ only by case, reports name exactly the types recorded below the root. */
  lemma NamesAreExact(jars: seq<Jar>, root: string, m: Match, e: Edge)
    requires CaseDistinct(jars, root) && Sound(jars, root, m) && IsEdge(jars, e)
    ensures Lower(m.typeName) != Lower(root)
    ensures Lower(Child(jars, e)) == Lower(m.typeName) ==> m.typeName == Child(jars, e)
  {
    hide Lower;
    assert m.path[0] == root != m.path[m.depth];
  }
}
