/** What enforcing the limits, making room and publishing leave behind, said of the cache before and after: everything fits or
    nothing is left to evict, the least recently used went first, and nothing went in vain. */
module CacheLimits {
  import opened Common
  import opened Ledger
  import opened CacheModel
  import opened CacheInvariant
  import opened CacheOperations
  import opened CachePublication

  predicate HasIndex(c: Cache, root: Path) { root in c.states && c.states[root].index.Some? }
  predicate HasRunner(c: Cache, root: Path) { root in c.states && c.states[root].runner.Some? }

  // ----- what shrinking keeps -----

  lemma SlotsShrink(env: Holders, before: Cache, after: Cache)
    requires Shrinks(env, before, after)
    ensures forall root :: root in IndexSlots(after.states) ==>
              root in IndexSlots(before.states) && IndexSlots(before.states)[root] == IndexSlots(after.states)[root]
    ensures forall root :: root in RunnerSlots(after.states) ==>
              root in RunnerSlots(before.states) && RunnerSlots(before.states)[root] == RunnerSlots(after.states)[root]
    ensures |IndexSlots(after.states)| <= |IndexSlots(before.states)|
    ensures |RunnerSlots(after.states)| <= |RunnerSlots(before.states)|
  {
    forall root | root in after.states ensures root in before.states && ShrinksState(env, before.states[root], after.states[root]) {}
    FewerKeys(IndexSlots(after.states), IndexSlots(before.states));
    FewerKeys(RunnerSlots(after.states), RunnerSlots(before.states));
  }

  lemma FewerReferenced<K>(fewer: map<K, Slot>, cached: map<K, Slot>, known: map<Id, Slot>, held: set<Id>, weight: Slot -> nat)
    requires forall k :: k in fewer ==> k in cached && cached[k] == fewer[k]
    ensures SumMap(Referenced(fewer, known, held), weight) <= SumMap(Referenced(cached, known, held), weight)
  {
    SumOfFewer(Referenced(fewer, known, held), Referenced(cached, known, held), weight);
  }

  /** Dropping references never takes memory. */
  lemma ShrinkingFrees(env: Holders, known: Known, before: Cache, after: Cache)
    requires Sound(before, env, known) && Sound(after, env, known) && Shrinks(env, before, after)
    ensures RetainedBytes(after, env) <= RetainedBytes(before, env)
  {
    hide RetainedBytes, Stamped, SumMap, Referenced;
    RetainedBytesAreExact(before, env, known);
    RetainedBytesAreExact(after, env, known);
    hide Accounted;
    SlotsShrink(env, before, after);
    FewerReferenced(IndexSlots(after.states), IndexSlots(before.states), known.indexes, env.indexes, BytesOf);
    FewerReferenced(RunnerSlots(after.states), RunnerSlots(before.states), known.runners, env.runners,
                    RunnerWeight(env.testResultBytes));
  }

  lemma NothingMoreToEvict(env: Holders, before: Cache, after: Cache, protectIndex: Option<Path>, protectRunner: Option<Path>)
    requires Shrinks(env, before, after) && NothingToEvict(before, env, protectIndex, protectRunner)
    ensures NothingToEvict(after, env, protectIndex, protectRunner)
  {
    forall root | root in after.states ensures root in before.states && ShrinksState(env, before.states[root], after.states[root]) {}
  }

  // ----- the least recently used first -----

  predicate UsedBefore(c: Cache, p: Path, q: Path) {
    p in c.states && q in c.states && c.states[p].lastUsed < c.states[q].lastUsed
  }

  /** The project keeps its runner although nobody builds it. */
  predicate KeepsIdleRunner(env: Holders, c: Cache, q: Path) {
    HasRunner(c, q) && !HasLiveMarker(env, c.states[q])
  }

  /** Whoever lost an index was used before whoever kept one without protection. */
  ghost predicate IndexesInOrder(before: Cache, after: Cache, protect: Option<Path>) {
    forall p, q :: HasIndex(before, p) && !HasIndex(after, p) && HasIndex(after, q) && protect != Some(q) ==> UsedBefore(before, p, q)
  }

  /** The same of runners, among projects that nobody builds. */
  ghost predicate RunnersInOrder(env: Holders, before: Cache, after: Cache, protect: Option<Path>) {
    forall p, q :: HasRunner(before, p) && !HasRunner(after, p) && KeepsIdleRunner(env, after, q) && protect != Some(q)
      ==> UsedBefore(before, p, q)
  }

  ghost predicate InOrder(env: Holders, before: Cache, after: Cache, protectIndex: Option<Path>, protectRunner: Option<Path>) {
    IndexesInOrder(before, after, protectIndex) && RunnersInOrder(env, before, after, protectRunner)
  }

  /** The counter counts the indexes that went. */
  predicate CountsIndexes(before: Cache, after: Cache) {
    after.evictions + |IndexSlots(after.states)| == before.evictions + |IndexSlots(before.states)|
  }

  /** Before the last index went, a limit was exceeded; and before the last runner went, too. */
  ghost predicate IsLastIndex(env: Holders, known: Known, before: Cache, last: Cache, after: Cache) {
    && Sound(last, env, known) && Shrinks(env, before, last) && Shrinks(env, last, after)
    && |IndexSlots(last.states)| == |IndexSlots(after.states)| + 1
  }

  ghost predicate IsLastRunner(env: Holders, known: Known, before: Cache, last: Cache, after: Cache) {
    && Sound(last, env, known) && Shrinks(env, before, last) && Shrinks(env, last, after)
    && |RunnerSlots(last.states)| == |RunnerSlots(after.states)| + 1
  }

  /** An index goes while there are too many of them or, with `extra`, too many bytes. */
  ghost predicate IndexMustGo(env: Holders, c: Cache, extra: nat) {
    |IndexSlots(c.states)| > c.limits.maxIndexes || RetainedBytes(c, env) + extra > c.limits.maxBytes
  }

  /** A runner goes while there are too many of them, or too many bytes and no index that could go. */
  ghost predicate RunnerMustGo(env: Holders, c: Cache, protectIndex: Option<Path>, extra: nat) {
    || |RunnerSlots(c.states)| > c.limits.maxRunners
    || (RetainedBytes(c, env) + extra > c.limits.maxBytes && forall q :: HasIndex(c, q) ==> protectIndex == Some(q))
  }

  ghost predicate NotInVain(env: Holders, known: Known, before: Cache, after: Cache, protectIndex: Option<Path>, extra: nat) {
    && (|IndexSlots(after.states)| < |IndexSlots(before.states)| ==>
          exists last :: IsLastIndex(env, known, before, last, after) && IndexMustGo(env, last, extra))
    && (|RunnerSlots(after.states)| < |RunnerSlots(before.states)| ==>
          exists last :: IsLastRunner(env, known, before, last, after) && RunnerMustGo(env, last, protectIndex, extra))
  }

  /** Evictions as they should be: in order, counted, and none in vain. */
  ghost predicate Evicts(env: Holders, known: Known, before: Cache, after: Cache, protectIndex: Option<Path>,
                         protectRunner: Option<Path>, extra: nat)
  {
    && Sound(after, env, known) && Shrinks(env, before, after)
    && InOrder(env, before, after, protectIndex, protectRunner)
    && CountsIndexes(before, after)
    && NotInVain(env, known, before, after, protectIndex, extra)
  }

  lemma ShrinkingKeepsProjects(env: Holders, before: Cache, after: Cache, q: Path)
    requires Shrinks(env, before, after)
    ensures HasIndex(after, q) ==> HasIndex(before, q)
    ensures KeepsIdleRunner(env, after, q) ==> KeepsIdleRunner(env, before, q)
    ensures forall p :: UsedBefore(after, p, q) ==> UsedBefore(before, p, q)
  {
    forall root | root in after.states ensures root in before.states && ShrinksState(env, before.states[root], after.states[root]) {}
  }

  lemma InOrderTransitive(env: Holders, a: Cache, b: Cache, c: Cache, protectIndex: Option<Path>, protectRunner: Option<Path>)
    requires Shrinks(env, a, b) && Shrinks(env, b, c)
    requires InOrder(env, a, b, protectIndex, protectRunner) && InOrder(env, b, c, protectIndex, protectRunner)
    ensures InOrder(env, a, c, protectIndex, protectRunner)
  {
    hide Shrinks, HasIndex, HasRunner, KeepsIdleRunner, UsedBefore;
    forall p, q | HasIndex(a, p) && !HasIndex(c, p) && HasIndex(c, q) && protectIndex != Some(q) ensures UsedBefore(a, p, q) {
      ShrinkingKeepsProjects(env, b, c, q);
      ShrinkingKeepsProjects(env, a, b, q);
    }
    forall p, q | HasRunner(a, p) && !HasRunner(c, p) && KeepsIdleRunner(env, c, q) && protectRunner != Some(q)
      ensures UsedBefore(a, p, q)
    {
      ShrinkingKeepsProjects(env, b, c, q);
      ShrinkingKeepsProjects(env, a, b, q);
    }
  }

  lemma NotInVainTransitive(env: Holders, known: Known, a: Cache, b: Cache, c: Cache, protectIndex: Option<Path>, extra: nat)
    requires Shrinks(env, a, b) && Shrinks(env, b, c)
    requires NotInVain(env, known, a, b, protectIndex, extra) && NotInVain(env, known, b, c, protectIndex, extra)
    ensures NotInVain(env, known, a, c, protectIndex, extra)
  {
    hide Sound, Shrinks, IndexMustGo, RunnerMustGo, IndexSlots, RunnerSlots;
    SlotsShrink(env, a, b);
    SlotsShrink(env, b, c);
    if |IndexSlots(c.states)| < |IndexSlots(b.states)| {
      var last :| IsLastIndex(env, known, b, last, c) && IndexMustGo(env, last, extra);
      ShrinksTransitive(env, a, b, last);
      assert IsLastIndex(env, known, a, last, c);
    } else if |IndexSlots(b.states)| < |IndexSlots(a.states)| {
      var last :| IsLastIndex(env, known, a, last, b) && IndexMustGo(env, last, extra);
      ShrinksTransitive(env, last, b, c);
      assert IsLastIndex(env, known, a, last, c);
    }
    if |RunnerSlots(c.states)| < |RunnerSlots(b.states)| {
      var last :| IsLastRunner(env, known, b, last, c) && RunnerMustGo(env, last, protectIndex, extra);
      ShrinksTransitive(env, a, b, last);
      assert IsLastRunner(env, known, a, last, c);
    } else if |RunnerSlots(b.states)| < |RunnerSlots(a.states)| {
      var last :| IsLastRunner(env, known, a, last, b) && RunnerMustGo(env, last, protectIndex, extra);
      ShrinksTransitive(env, last, b, c);
      assert IsLastRunner(env, known, a, last, c);
    }
  }

  lemma EvictsTransitive(env: Holders, known: Known, a: Cache, b: Cache, c: Cache, protectIndex: Option<Path>,
                         protectRunner: Option<Path>, extra: nat)
    requires Evicts(env, known, a, b, protectIndex, protectRunner, extra)
    requires Evicts(env, known, b, c, protectIndex, protectRunner, extra)
    ensures Evicts(env, known, a, c, protectIndex, protectRunner, extra)
  {
    hide Sound, Shrinks, InOrder, NotInVain, IndexSlots;
    ShrinksTransitive(env, a, b, c);
    InOrderTransitive(env, a, b, c, protectIndex, protectRunner);
    NotInVainTransitive(env, known, a, b, c, protectIndex, extra);
  }

  /** What takes no index and no runner evicts nothing. */
  lemma NothingEvicted(env: Holders, known: Known, before: Cache, after: Cache, protectIndex: Option<Path>,
                       protectRunner: Option<Path>, extra: nat)
    requires Sound(after, env, known) && Shrinks(env, before, after) && after.evictions == before.evictions
    requires IndexSlots(after.states) == IndexSlots(before.states) && RunnerSlots(after.states) == RunnerSlots(before.states)
    ensures Evicts(env, known, before, after, protectIndex, protectRunner, extra)
  {
    forall root ensures HasIndex(before, root) ==> HasIndex(after, root) {
      assert root in IndexSlots(before.states) <==> root in IndexSlots(after.states);
    }
    forall root ensures HasRunner(before, root) ==> HasRunner(after, root) {
      assert root in RunnerSlots(before.states) <==> root in RunnerSlots(after.states);
    }
    hide Sound, Shrinks, IndexSlots, RunnerSlots;
  }

  // ----- one eviction -----

  lemma DistinctTicks(c: Cache, p: Path, q: Path)
    requires Stamped(c) && p in c.states && q in c.states && p != q
    requires c.states[p].index.Some? || c.states[p].runner.Some?
    ensures c.states[p].lastUsed != c.states[q].lastUsed
  {
    assert StampedState(c, c.states[p]);
  }

  lemma SlotsAreProjects(c: Cache)
    ensures forall root :: root in IndexSlots(c.states) <==> HasIndex(c, root)
    ensures forall root :: root in RunnerSlots(c.states) <==> HasRunner(c, root)
  {}

  /** A project without protection that keeps its index was no less recent than the victim, and ticks are distinct. */
  lemma VictimWasUsedBefore(c: Cache, env: Holders, known: Known, victims: set<Path>, p: Path, q: Path)
    requires Sound(c, env, known) && victims <= c.states.Keys && IsLeastRecent(c, victims, p) && q in victims && p != q
    requires HasIndex(c, p) || HasRunner(c, p)
    ensures UsedBefore(c, p, q)
  {
    hide Accounted;
    DistinctTicks(c, p, q);
  }

  lemma EvictionIsCounted(c: Cache, env: Holders, root: Path)
    ensures ReleaseIndex(c, env, root).evictions == c.evictions
  {}

  lemma IndexEvictionCounts(c: Cache, env: Holders, protect: Option<Path>)
    requires EvictIndex(c, env, protect).Some?
    ensures var (after, victim) := (EvictIndex(c, env, protect).value, LeastRecent(c, IndexVictims(c, protect)));
            && CountsIndexes(c, after) && RunnerSlots(after.states) == RunnerSlots(c.states)
            && IndexSlots(after.states) == IndexSlots(c.states) - {victim}
  {
    var victim := LeastRecent(c, IndexVictims(c, protect));
    EvictIndexProgress(c, env, protect);
    ReleaseIndexSlots(c, env, victim);
    EvictionIsCounted(c, env, victim);
    hide ReleaseIndex, IndexSlots, RunnerSlots;
  }

  lemma IndexEvictionInOrder(c: Cache, env: Holders, known: Known, protect: Option<Path>, protectRunner: Option<Path>)
    requires Sound(c, env, known) && EvictIndex(c, env, protect).Some?
    ensures InOrder(env, c, EvictIndex(c, env, protect).value, protect, protectRunner)
  {
    hide Sound, EvictIndex, IndexSlots, RunnerSlots, UsedBefore, KeepsIdleRunner, IsLeastRecent, CountsIndexes;
    var victims := IndexVictims(c, protect);
    var after := EvictIndex(c, env, protect).value;
    SomeVictim(c, env, protect);
    IndexEvictionCounts(c, env, protect);
    SlotsAreProjects(c);
    SlotsAreProjects(after);
    forall p, q | HasIndex(c, p) && !HasIndex(after, p) && HasIndex(after, q) && protect != Some(q) ensures UsedBefore(c, p, q) {
      assert p in IndexSlots(c.states) && p !in IndexSlots(after.states) && q in IndexSlots(after.states);
      VictimWasUsedBefore(c, env, known, victims, p, q);
    }
    forall p ensures HasRunner(c, p) ==> HasRunner(after, p) {
      assert p in RunnerSlots(c.states) <==> p in RunnerSlots(after.states);
    }
  }

  lemma SomeVictim(c: Cache, env: Holders, protect: Option<Path>)
    requires EvictIndex(c, env, protect).Some?
    ensures IndexVictims(c, protect) != {}
  {}

  lemma RunnerReleaseKeepsMarkers(c: Cache, env: Holders, root: Path, q: Path)
    ensures KeepsIdleRunner(env, ReleaseRunner(c, root), q) ==> KeepsIdleRunner(env, c, q)
  {}

  lemma RunnerEvictionInOrder(c: Cache, env: Holders, known: Known, protectIndex: Option<Path>, protect: Option<Path>)
    requires Sound(c, env, known) && EvictRunner(c, env, protect).Some?
    ensures InOrder(env, c, EvictRunner(c, env, protect).value, protectIndex, protect)
    ensures CountsIndexes(c, EvictRunner(c, env, protect).value)
    ensures IndexSlots(EvictRunner(c, env, protect).value.states) == IndexSlots(c.states)
  {
    hide Sound;
    var victims := RunnerVictims(c, env, protect);
    var victim := LeastRecent(c, victims);
    var after := EvictRunner(c, env, protect).value;
    ReleaseRunnerSlots(c, victim);
    SlotsAreProjects(c);
    SlotsAreProjects(after);
    assert after.evictions == c.evictions;
    hide ReleaseRunner, IndexSlots, RunnerSlots, UsedBefore, IsLeastRecent;
    forall p, q | HasRunner(c, p) && !HasRunner(after, p) && KeepsIdleRunner(env, after, q) && protect != Some(q)
      ensures UsedBefore(c, p, q)
    {
      assert p in RunnerSlots(c.states) && p !in RunnerSlots(after.states) && q in RunnerSlots(after.states);
      RunnerReleaseKeepsMarkers(c, env, victim, q);
      VictimWasUsedBefore(c, env, known, victims, p, q);
    }
    forall p ensures HasIndex(c, p) ==> HasIndex(after, p) {
      assert p in IndexSlots(c.states) <==> p in IndexSlots(after.states);
    }
  }

  lemma OneIndexEvicted(c: Cache, env: Holders, known: Known, protectIndex: Option<Path>, protectRunner: Option<Path>, extra: nat)
    requires Sound(c, env, known) && EvictIndex(c, env, protectIndex).Some? && IndexMustGo(env, c, extra)
    ensures Evicts(env, known, c, EvictIndex(c, env, protectIndex).value, protectIndex, protectRunner, extra)
  {
    hide Sound, Shrinks, InOrder, IndexMustGo, RunnerMustGo, EvictIndex, EvictRunner, IndexSlots, RunnerSlots;
    var after := EvictIndex(c, env, protectIndex).value;
    EvictOneSound(c, env, known, protectIndex, protectRunner);
    IndexEvictionInOrder(c, env, known, protectIndex, protectRunner);
    IndexEvictionCounts(c, env, protectIndex);
    EvictIndexProgress(c, env, protectIndex);
    ShrinksReflexive(env, c);
    assert IsLastIndex(env, known, c, c, after);
  }

  lemma OneRunnerEvicted(c: Cache, env: Holders, known: Known, protectIndex: Option<Path>, protectRunner: Option<Path>, extra: nat)
    requires Sound(c, env, known) && EvictRunner(c, env, protectRunner).Some? && RunnerMustGo(env, c, protectIndex, extra)
    ensures Evicts(env, known, c, EvictRunner(c, env, protectRunner).value, protectIndex, protectRunner, extra)
  {
    hide Sound, Shrinks, InOrder, IndexMustGo, RunnerMustGo, EvictIndex, EvictRunner, IndexSlots, RunnerSlots;
    var after := EvictRunner(c, env, protectRunner).value;
    EvictOneSound(c, env, known, protectIndex, protectRunner);
    RunnerEvictionInOrder(c, env, known, protectIndex, protectRunner);
    EvictRunnerProgress(c, env, protectRunner);
    ShrinksReflexive(env, c);
    assert IsLastRunner(env, known, c, c, after);
  }

  // ----- the stages -----

  lemma EvictingOne(c: Cache, env: Holders, known: Known, protectIndex: Option<Path>, protectRunner: Option<Path>, extra: nat)
    requires Sound(c, env, known) && EvictOne(c, env, protectIndex, protectRunner).Some?
    requires RetainedBytes(c, env) + extra > c.limits.maxBytes
    ensures Evicts(env, known, c, EvictOne(c, env, protectIndex, protectRunner).value, protectIndex, protectRunner, extra)
  {
    hide Sound, RetainedBytes, Evicts, EvictRunner, ReleaseIndex;
    if EvictIndex(c, env, protectIndex).Some? {
      OneIndexEvicted(c, env, known, protectIndex, protectRunner, extra);
    } else {
      forall q | HasIndex(c, q) ensures protectIndex == Some(q) {
        assert q !in IndexVictims(c, protectIndex);
      }
      OneRunnerEvicted(c, env, known, protectIndex, protectRunner, extra);
    }
  }

  lemma {:induction false} MakingRoomEvicts(c: Cache, env: Holders, known: Known, protectIndex: Option<Path>,
                                            protectRunner: Option<Path>, extra: nat)
    requires Sound(c, env, known)
    ensures Evicts(env, known, c, MakeRoom(c, env, protectIndex, protectRunner, extra), protectIndex, protectRunner, extra)
    decreases Evictable(c)
  {
    hide Sound, RetainedBytes, Evicts, EvictOne, Shrinks, IndexSlots, RunnerSlots, Evictable;
    var after := MakeRoom(c, env, protectIndex, protectRunner, extra);
    ShrinksReflexive(env, c);
    NothingEvicted(env, known, c, c, protectIndex, protectRunner, extra);
    if after == c {
      return;
    }
    var next := EvictOne(c, env, protectIndex, protectRunner).value;
    EvictingOne(c, env, known, protectIndex, protectRunner, extra);
    StaysSound(env, known, c, next, protectIndex, protectRunner, extra);
    MakingRoomEvicts(next, env, known, protectIndex, protectRunner, extra);
    EvictsTransitive(env, known, c, next, after, protectIndex, protectRunner, extra);
  }

  lemma StaysSound(env: Holders, known: Known, before: Cache, after: Cache, protectIndex: Option<Path>,
                   protectRunner: Option<Path>, extra: nat)
    requires Evicts(env, known, before, after, protectIndex, protectRunner, extra)
    ensures Sound(after, env, known) && Shrinks(env, before, after)
  {}

  lemma {:induction false} CountingIndexesEvicts(c: Cache, env: Holders, known: Known, protect: Option<Path>)
    requires Sound(c, env, known)
    ensures var after := EnforceIndexCount(c, env, protect);
            && Evicts(env, known, c, after, protect, protect, 0)
            && (|IndexSlots(after.states)| <= c.limits.maxIndexes || forall q :: HasIndex(after, q) ==> protect == Some(q))
    decreases Evictable(c)
  {
    hide Sound, Evicts, Shrinks, IndexSlots, RunnerSlots;
    ShrinksReflexive(env, c);
    NothingEvicted(env, known, c, c, protect, protect, 0);
    if |IndexSlots(c.states)| > c.limits.maxIndexes {
      var next := EvictIndex(c, env, protect);
      if next.Some? {
        hide EvictIndex;
        OneIndexEvicted(c, env, known, protect, protect, 0);
        StaysSound(env, known, c, next.value, protect, protect, 0);
        EvictIndexProgress(c, env, protect);
        CountingIndexesEvicts(next.value, env, known, protect);
        EvictsTransitive(env, known, c, next.value, EnforceIndexCount(c, env, protect), protect, protect, 0);
        SameLimits(env, c, next.value);
      } else {
        forall q | HasIndex(c, q) ensures protect == Some(q) {
          assert q !in IndexVictims(c, protect);
        }
      }
    }
  }

  lemma SameLimits(env: Holders, before: Cache, after: Cache)
    requires Shrinks(env, before, after)
    ensures after.limits == before.limits
  {}

  /** Runners of projects that nobody builds, but for the protected one, are gone. */
  predicate NoRunnerLeft(c: Cache, env: Holders, protect: Option<Path>) {
    forall q :: q in c.states && c.states[q].runner.Some? && protect != Some(q) ==> HasLiveMarker(env, c.states[q])
  }

  lemma {:induction false} CountingRunnersEvicts(c: Cache, env: Holders, known: Known, protect: Option<Path>)
    requires Sound(c, env, known)
    ensures var after := EnforceRunnerCount(c, env, protect);
            && Evicts(env, known, c, after, protect, protect, 0)
            && (|RunnerSlots(after.states)| <= c.limits.maxRunners || NoRunnerLeft(after, env, protect))
    decreases Evictable(c)
  {
    hide Sound, Evicts, Shrinks, IndexSlots, RunnerSlots;
    ShrinksReflexive(env, c);
    NothingEvicted(env, known, c, c, protect, protect, 0);
    if |RunnerSlots(c.states)| > c.limits.maxRunners {
      var next := EvictRunner(c, env, protect);
      if next.Some? {
        hide EvictRunner, NoRunnerLeft;
        OneRunnerEvicted(c, env, known, protect, protect, 0);
        StaysSound(env, known, c, next.value, protect, protect, 0);
        EvictRunnerProgress(c, env, protect);
        CountingRunnersEvicts(next.value, env, known, protect);
        EvictsTransitive(env, known, c, next.value, EnforceRunnerCount(c, env, protect), protect, protect, 0);
        SameLimits(env, c, next.value);
      } else {
        forall q | q in c.states && c.states[q].runner.Some? && protect != Some(q) ensures HasLiveMarker(env, c.states[q]) {
          assert q !in RunnerVictims(c, env, protect);
        }
      }
    }
  }

  // ----- enforcing all limits -----

  /** Within the limits, or nothing is left to evict for them; and no project stays that nobody needs. */
  ghost predicate Enforced(c: Cache, env: Holders, protect: Option<Path>) {
    && (RetainedBytes(c, env) <= c.limits.maxBytes || NothingToEvict(c, env, protect, protect))
    && (|IndexSlots(c.states)| <= c.limits.maxIndexes || forall q :: HasIndex(c, q) ==> protect == Some(q))
    && (|RunnerSlots(c.states)| <= c.limits.maxRunners || NoRunnerLeft(c, env, protect))
    && (forall root :: root in c.states ==> HasIndex(c, root) || HasRunner(c, root) || HasLiveMarker(env, c.states[root]))
  }

  lemma ShrinkingStaysWithin(env: Holders, known: Known, before: Cache, after: Cache, protect: Option<Path>)
    requires Sound(before, env, known) && Sound(after, env, known) && Shrinks(env, before, after)
    ensures RetainedBytes(before, env) <= before.limits.maxBytes || NothingToEvict(before, env, protect, protect) ==>
              RetainedBytes(after, env) <= after.limits.maxBytes || NothingToEvict(after, env, protect, protect)
    ensures |IndexSlots(before.states)| <= before.limits.maxIndexes || (forall q :: HasIndex(before, q) ==> protect == Some(q)) ==>
              |IndexSlots(after.states)| <= after.limits.maxIndexes || (forall q :: HasIndex(after, q) ==> protect == Some(q))
  {
    ShrinkingFrees(env, known, before, after);
    SameLimits(env, before, after);
    SlotsShrink(env, before, after);
    if NothingToEvict(before, env, protect, protect) { NothingMoreToEvict(env, before, after, protect, protect); }
    forall q | HasIndex(after, q) ensures HasIndex(before, q) { assert q in IndexSlots(after.states); }
    hide *;
  }

  lemma IdleAreDropped(c: Cache, env: Holders, protect: Option<Path>)
    ensures var after := DropIdle(c, env);
            && after.evictions == c.evictions
            && (forall root :: root in after.states ==>
                  HasIndex(after, root) || HasRunner(after, root) || HasLiveMarker(env, after.states[root]))
            && (NoRunnerLeft(c, env, protect) ==> NoRunnerLeft(after, env, protect))
  {}

  lemma PruningIsNoEviction(c: Cache, env: Holders)
    ensures Prune(c, env).evictions == c.evictions
  {}

  /** Whatever it starts from, `enforce` ends within the limits or with nothing left to evict for them, evicts the least recently
      used first, nothing in vain, and counts the indexes it evicts. */
  lemma EnforcingLeaves(c: Cache, env: Holders, known: Known, protect: Option<Path>)
    requires Sound(c, env, known)
    ensures Enforced(Enforce(c, env, protect), env, protect)
    ensures Evicts(env, known, c, Enforce(c, env, protect), protect, protect, 0)
  {
    hide Sound, Shrinks, Evicts, RetainedBytes, IndexSlots, RunnerSlots, NothingToEvict, NoRunnerLeft, Prune, DropIdle,
         EnforceIndexCount, EnforceRunnerCount, MakeRoom, HasIndex, HasRunner;
    var pruned := Prune(c, env);
    PruneSound(c, env, known);
    PruneKeepsSlots(c, env);
    PruningIsNoEviction(c, env);
    NothingEvicted(env, known, c, pruned, protect, protect, 0);
    var counted := EnforceIndexCount(pruned, env, protect);
    CountingIndexesEvicts(pruned, env, known, protect);
    StaysSound(env, known, pruned, counted, protect, protect, 0);
    SameLimits(env, pruned, counted);
    EvictsTransitive(env, known, c, pruned, counted, protect, protect, 0);
    var sized := MakeRoom(counted, env, protect, protect, 0);
    MakingRoomEvicts(counted, env, known, protect, protect, 0);
    StaysSound(env, known, counted, sized, protect, protect, 0);
    MakeRoomFits(counted, env, protect, protect, 0);
    EvictsTransitive(env, known, c, counted, sized, protect, protect, 0);
    ShrinkingStaysWithin(env, known, counted, sized, protect);
    var fewer := EnforceRunnerCount(sized, env, protect);
    CountingRunnersEvicts(sized, env, known, protect);
    StaysSound(env, known, sized, fewer, protect, protect, 0);
    SameLimits(env, sized, fewer);
    EvictsTransitive(env, known, c, sized, fewer, protect, protect, 0);
    ShrinkingStaysWithin(env, known, sized, fewer, protect);
    var after := DropIdle(fewer, env);
    DropIdleSound(fewer, env, known);
    DroppingIdleKeepsSlots(fewer, env);
    IdleAreDropped(fewer, env, protect);
    SameLimits(env, fewer, after);
    NothingEvicted(env, known, fewer, after, protect, protect, 0);
    EvictsTransitive(env, known, c, fewer, after, protect, protect, 0);
    ShrinkingStaysWithin(env, known, fewer, after, protect);
  }

  /** A cache within all limits keeps every index and every runner. */
  lemma WithinLimitsNothingGoes(c: Cache, env: Holders, known: Known, protect: Option<Path>)
    requires Sound(c, env, known) && RetainedBytes(c, env) <= c.limits.maxBytes
    requires |IndexSlots(c.states)| <= c.limits.maxIndexes && |RunnerSlots(c.states)| <= c.limits.maxRunners
    ensures IndexSlots(Enforce(c, env, protect).states) == IndexSlots(c.states)
    ensures RunnerSlots(Enforce(c, env, protect).states) == RunnerSlots(c.states)
  {
    hide Sound, RetainedBytes, Enforce, Shrinks, IndexSlots, RunnerSlots, Enforced, InOrder;
    EnforcingLeaves(c, env, known, protect);
    var after := Enforce(c, env, protect);
    SlotsShrink(env, c, after);
    if |IndexSlots(after.states)| < |IndexSlots(c.states)| {
      var last :| IsLastIndex(env, known, c, last, after) && IndexMustGo(env, last, 0);
      ShrinkingFrees(env, known, c, last);
      SlotsShrink(env, c, last);
      SameLimits(env, c, last);
    }
    if |RunnerSlots(after.states)| < |RunnerSlots(c.states)| {
      var last :| IsLastRunner(env, known, c, last, after) && RunnerMustGo(env, last, protect, 0);
      ShrinkingFrees(env, known, c, last);
      SlotsShrink(env, c, last);
      SameLimits(env, c, last);
    }
    SameSlots(IndexSlots(after.states), IndexSlots(c.states));
    SameSlots(RunnerSlots(after.states), RunnerSlots(c.states));
  }

  lemma SameSlots(fewer: map<Path, Slot>, slots: map<Path, Slot>)
    requires |fewer| == |slots| && forall root :: root in fewer ==> root in slots && slots[root] == fewer[root]
    ensures fewer == slots
  {
    assert |fewer.Keys| == |fewer| && |slots.Keys| == |slots|;
    SubsetSize(slots.Keys - fewer.Keys, slots.Keys);
    assert slots.Keys == fewer.Keys + (slots.Keys - fewer.Keys);
  }

  // ----- reserving -----

  /** What a reservation leaves, the reservation itself taken away again. */
  function BeforeReserving(after: Cache, reply: Reserving): Cache {
    if reply.Reserved? && after.reservations != [] && after.nextId > 0 then
      after.(reservations := after.reservations[..|after.reservations| - 1], nextId := after.nextId - 1)
    else after
  }

  /** Reserving evicts in order and no more than the reserved bytes need; an old generation evicts nothing. */
  lemma ReservingEvicts(c: Cache, env: Holders, known: Known, root: Path, generation: nat, bytes: nat)
    requires Inv(c, env, known)
    ensures var (after, reply) := Reserve(c, env, root, generation, bytes);
            && Evicts(env, known, c, BeforeReserving(after, reply), None, Some(root), bytes)
            && (reply == ReserveStale <==> !IsCurrent(c, root, generation))
            && (reply == ReserveStale ==>
                  IndexSlots(after.states) == IndexSlots(c.states) && RunnerSlots(after.states) == RunnerSlots(c.states))
  {
    var pruned := Prune(c, env);
    PruneSound(c, env, known);
    PruneKeepsSlots(c, env);
    PruningIsNoEviction(c, env);
    PruningKeepsGenerations(c, env, root, generation);
    hide Sound, Shrinks, Evicts, RetainedBytes, IndexSlots, RunnerSlots, Prune, MakeRoom, Reserve, IsCurrent;
    NothingEvicted(env, known, c, pruned, None, Some(root), bytes);
    ReserveCases(c, env, root, generation, bytes);
    var room := MakeRoom(pruned, env, None, Some(root), bytes);
    MakingRoomEvicts(pruned, env, known, None, Some(root), bytes);
    EvictsTransitive(env, known, c, pruned, room, None, Some(root), bytes);
    var (after, reply) := Reserve(c, env, root, generation, bytes);
    if reply.Reserved? {
      assert after.reservations[..|after.reservations| - 1] == room.reservations;
    }
  }

  lemma PruningKeepsGenerations(c: Cache, env: Holders, root: Path, generation: nat)
    ensures IsCurrent(Prune(c, env), root, generation) <==> IsCurrent(c, root, generation)
  {}

  // ----- publishing -----

  lemma HeldStaysReferenced(cached: map<Path, Slot>, known: map<Id, Slot>, held: set<Id>, root: Path)
    requires root in cached && cached[root].id in held
    ensures Referenced(cached - {root}, known, held) == Referenced(cached, known, held)
  {
    forall id | id in CachedIds(cached) && id !in held ensures id in CachedIds(cached - {root}) {
      var k :| k in cached && cached[k].id == id;
      assert k in cached - {root};
    }
  }

  /** Releasing an index that somebody holds frees no memory. */
  lemma ReleasingHeldFreesNothing(c: Cache, env: Holders, known: Known, root: Path)
    requires Sound(c, env, known) && HasIndex(c, root) && c.states[root].index.value.index in env.indexes
    ensures RetainedBytes(ReleaseIndex(c, env, root), env) == RetainedBytes(c, env)
  {
    ReleaseIndexSound(c, env, known, root);
    ReleaseIndexSlots(c, env, root);
    var after := ReleaseIndex(c, env, root);
    assert IndexSlots(c.states)[root].id in env.indexes;
    hide ReleaseIndex, IndexSlots, RunnerSlots, Exact, Stamped, RetainedBytes, Referenced, SumMap;
    RetainedBytesAreExact(c, env, known);
    RetainedBytesAreExact(after, env, known);
    HeldStaysReferenced(IndexSlots(c.states), known.indexes, env.indexes, root);
  }

  lemma KeptMeans(pruned: Cache, env: Holders, known: Known, root: Path, entry: CachedIndex)
    requires Inv(pruned, env, known) && root in pruned.states && entry.index !in known.indexes
    ensures var (after, reply) := Kept(pruned, env, root, entry);
            && reply != PublishStale && (reply == Retained || reply == Uncached)
            && (reply == Uncached ==>
                  && NothingToEvict(after, env, Some(root), Some(root)) && !HasIndex(after, root)
                  && (entry.index in env.indexes ==> RetainedBytes(after, env) > pruned.limits.maxBytes))
  {
    hide Sound, Inv, Evicts, RetainedBytes, NothingToEvict, Enforce, ReleaseIndex, Shrinks, Stored, Spares;
    var stored := Stored(pruned, root, entry);
    var now := WithIndex(Forgetting(known, RetainedSlot(pruned, root)), entry.index, entry.bytes);
    InvIsSound(pruned, env, known);
    StoredSound(pruned, env, known, root, entry);
    EnforcingLeaves(stored, env, now, Some(root));
    var enforced := Enforce(stored, env, Some(root));
    StaysSound(env, now, stored, enforced, Some(root), Some(root), 0);
    SameLimits(env, stored, enforced);
    StoredIsKept(pruned, env, root, entry);
    ReleaseIndexSound(enforced, env, now, root);
    ReleasedIsGone(enforced, env, root);
    if RetainedBytes(enforced, env) > enforced.limits.maxBytes {
      NothingMoreToEvict(env, enforced, ReleaseIndex(enforced, env, root), Some(root), Some(root));
      if entry.index in env.indexes { ReleasingHeldFreesNothing(enforced, env, now, root); }
    }
  }

  lemma InvIsSound(c: Cache, env: Holders, known: Known)
    requires Inv(c, env, known)
    ensures Sound(c, env, known)
  {}

  /** Enforcing for the sake of a project keeps the index just stored. */
  lemma StoredIsKept(pruned: Cache, env: Holders, root: Path, entry: CachedIndex)
    requires root in pruned.states
    ensures var enforced := Enforce(Stored(pruned, root, entry), env, Some(root));
            HasIndex(enforced, root) && enforced.states[root].index == Some(entry)
    ensures Stored(pruned, root, entry).limits == pruned.limits
  {
    hide Enforce;
    EnforceSpares(Stored(pruned, root, entry), env, root);
  }

  lemma ReleasedIsGone(c: Cache, env: Holders, root: Path)
    ensures !HasIndex(ReleaseIndex(c, env, root), root)
  {}

  /** An index of an old generation is refused; one of a current generation is `Uncached` only because it is too large, which
      evicts nothing, or because everything is over the budget with nothing left to evict; otherwise it is retained. */
  lemma PublicationMeans(c: Cache, env: Holders, known: Known, root: Path, generation: nat, index: Id, bytes: nat,
                         project: Fingerprint)
    requires Inv(c, env, known) && index !in known.indexes
    ensures var (after, reply) := Publish(c, env, root, generation, index, bytes, project);
            && (reply == PublishStale <==> !IsCurrent(c, root, generation))
            && (reply == Uncached && bytes > c.limits.maxBytes ==>
                  IndexSlots(after.states) == IndexSlots(c.states) && RunnerSlots(after.states) == RunnerSlots(c.states))
            && (reply == Uncached && bytes <= c.limits.maxBytes ==>
                  && NothingToEvict(after, env, Some(root), Some(root)) && !HasIndex(after, root)
                  && (index in env.indexes ==> RetainedBytes(after, env) > c.limits.maxBytes))
            && (reply == Retained ==> bytes <= c.limits.maxBytes)
  {
    var pruned := Prune(c, env);
    PrunedInv(c, env, known);
    PruneKeepsSlots(c, env);
    PruningKeepsGenerations(c, env, root, generation);
    PublishCases(c, env, root, generation, index, bytes, project);
    if IsCurrent(pruned, root, generation) {
      assert pruned.limits == c.limits;
      if bytes <= c.limits.maxBytes {
        hide Publish, Inv, RetainedBytes, NothingToEvict, IndexSlots, RunnerSlots, Prune, Kept;
        KeptMeans(pruned, env, known, root, CachedIndex(index, project, bytes));
      } else {
        hide Publish, Inv, RetainedBytes, NothingToEvict, Prune, Kept;
        var state := pruned.states[root].(inFlight := None);
        SameIndexSlots(pruned.states, root, state);
        SameRunnerSlots(pruned.states, root, state);
      }
    } else {
      hide Publish, Inv, RetainedBytes;
    }
  }

  // ----- every operation that stores or drops something leaves the cache within its limits -----

  /** A failed build, whatever its generation, leaves the cache within its limits or with nothing left to evict. */
  lemma FailingEnforces(c: Cache, env: Holders, known: Known, root: Path, generation: nat)
    requires Inv(c, env, known)
    ensures Enforced(FinishFailed(c, env, root, generation), env, None)
  {
    hide Accounted, Enforce, Bounded, Enforced, Evicts;
    var cleared := c;
    if IsCurrent(c, root, generation) {
      var state := c.states[root].(inFlight := None);
      assert StampedState(c, c.states[root]);
      StateChangeSound(c, env, known, root, state);
      cleared := c.(states := c.states[root := state]);
    }
    EnforcingLeaves(cleared, env, known, None);
  }

  lemma DiscardingEnforces(c: Cache, env: Holders, known: Known, root: Path)
    requires Inv(c, env, known)
    ensures Enforced(DiscardProject(c, env, root), env, None)
  {
    hide Accounted, Stamped, Enforce, Enforced, Evicts, Succeeds;
    var invalid := Invalidate(c, env, root);
    InvalidateSound(c, env, known, root);
    ReleaseRunnerSound(invalid, env, known, root);
    EnforcingLeaves(ReleaseRunner(invalid, root), env, known, None);
  }

  lemma InstallingEnforces(c: Cache, env: Holders, known: Known, root: Path, runner: Id, fingerprint: Fingerprint)
    requires Inv(c, env, known) && runner !in known.runners && runner in env.runners
    ensures Enforced(InstallRunner(c, env, root, runner, fingerprint), env, Some(root))
  {
    hide Accounted, Stamped, Succeeds, Enforce, Enforced, Evicts;
    var invalid := if ChangesModel(c, root, fingerprint) then Invalidate(c, env, root) else c;
    if ChangesModel(c, root, fingerprint) { InvalidateSound(c, env, known, root); }
    var entered := Entry(invalid, root);
    EntrySound(invalid, env, known, root);
    var touched := Touch(entered, root);
    TouchSound(entered, env, known, root);
    var bare := ReleaseRunner(touched, root);
    ReleaseRunnerSound(touched, env, known, root);
    var installed := StoreRunner(bare, env, known, root, runner, fingerprint);
    EnforcingLeaves(installed, env, known.(runners := known.runners[runner := Slot(runner, fingerprint.estimatedBytes)]), Some(root));
  }
}
