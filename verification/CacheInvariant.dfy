/** What every operation of the project cache keeps. */
module CacheInvariant {
  import opened Common
  import opened Ledger
  import opened CacheModel

  /** Every index, runner and reservation the cache was ever given, with its charge. */
  datatype Known = Known(indexes: map<Id, Slot>, runners: map<Id, Slot>, reservations: map<Id, Slot>)

  const NO_SLOTS: map<Path, Slot> := map[]

  ghost predicate Accounted(c: Cache, env: Holders, known: Known) {
    && Exact(IndexSlots(c.states), c.released, known.indexes, env.indexes)
    && Exact(RunnerSlots(c.states), c.releasedRunners, known.runners, env.runners)
    && Exact(NO_SLOTS, c.reservations, known.reservations, env.reservations)
    && (forall id :: id in known.reservations ==> id < c.nextId)
  }

  predicate StampedState(c: Cache, state: ProjectState) {
    && 0 < state.generation <= c.nextGeneration
    && state.lastUsed <= c.tick
    && (state.inFlight.Some? ==>
          && state.inFlight.value.generation == state.generation
          && state.inFlight.value.cell < c.nextId && state.inFlight.value.owner < c.nextId
          && state.index.None?)
    && (state.lastUsed == 0 ==> state.index.None? && state.runner.None?)
  }

  /** Generations and ticks come from the counters, no two used projects share a tick, and no
      project retains an index beside a build marker. */
  ghost predicate Stamped(c: Cache) {
    && (forall root :: root in c.states ==> StampedState(c, c.states[root]))
    && (forall p, q :: p in c.states && q in c.states && p != q && c.states[p].lastUsed != 0 ==>
          c.states[p].lastUsed != c.states[q].lastUsed)
  }

  predicate Bounded(c: Cache) {
    |IndexSlots(c.states)| <= if c.limits.maxIndexes == 0 then 1 else c.limits.maxIndexes
  }

  ghost predicate Inv(c: Cache, env: Holders, known: Known) {
    Sound(c, env, known) && Bounded(c)
  }

  // ----- evictions only remove -----

  /** No project but the protected ones retains an index, or a runner while nobody builds. */
  predicate NothingToEvict(c: Cache, env: Holders, protectIndex: Option<Path>, protectRunner: Option<Path>) {
    forall root :: root in c.states ==>
      && (protectIndex != Some(root) ==> c.states[root].index.None?)
      && (protectRunner != Some(root) && c.states[root].runner.Some? ==>
            c.states[root].inFlight.Some? && Alive(env, c.states[root].inFlight.value))
  }

  predicate ShrinksState(env: Holders, before: ProjectState, after: ProjectState) {
    && after.generation == before.generation
    && after.fullRebuild == before.fullRebuild
    && after.lastUsed == before.lastUsed
    && (after.index == before.index || after.index.None?)
    && (after.runner == before.runner || after.runner.None?)
    && (after.inFlight == before.inFlight || after.inFlight.None?)
    && (before.inFlight.Some? && Alive(env, before.inFlight.value) ==> after.inFlight == before.inFlight)
  }

  predicate HasLiveMarker(env: Holders, state: ProjectState) {
    state.inFlight.Some? && Alive(env, state.inFlight.value)
  }

  /** Eviction and pruning drop indexes, runners, dead markers and idle projects; they never
      touch a generation, a tick or a marker that is still live. */
  ghost predicate Shrinks(env: Holders, before: Cache, after: Cache) {
    && after.limits == before.limits
    && after.nextGeneration == before.nextGeneration
    && after.tick == before.tick
    && after.nextId == before.nextId
    && (forall root :: root in after.states ==>
          root in before.states && ShrinksState(env, before.states[root], after.states[root]))
    && (forall root :: root in before.states && HasLiveMarker(env, before.states[root]) ==> root in after.states)
    && IndexSlots(after.states).Keys <= IndexSlots(before.states).Keys
  }

  lemma ShrinksReflexive(env: Holders, c: Cache)
    ensures Shrinks(env, c, c)
  {
  }

  lemma ShrinksTransitive(env: Holders, a: Cache, b: Cache, c: Cache)
    requires Shrinks(env, a, b) && Shrinks(env, b, c)
    ensures Shrinks(env, a, c)
  {
    forall root | root in c.states ensures root in a.states && ShrinksState(env, a.states[root], c.states[root]) {
      assert root in b.states;
    }
    forall root | root in a.states && HasLiveMarker(env, a.states[root]) ensures root in c.states {
      assert root in b.states && HasLiveMarker(env, b.states[root]);
    }
  }

  lemma ShrinkingKeepsStamps(env: Holders, before: Cache, after: Cache)
    requires Shrinks(env, before, after) && Stamped(before)
    ensures Stamped(after)
  {
    forall root | root in after.states ensures StampedState(after, after.states[root]) {
      assert StampedState(before, before.states[root]);
    }
  }

  lemma ShrinkingKeepsBound(env: Holders, before: Cache, after: Cache)
    requires Shrinks(env, before, after) && Bounded(before)
    ensures Bounded(after)
  {
    FewerKeys(IndexSlots(after.states), IndexSlots(before.states));
  }

  lemma FewerKeys<K, V>(small: map<K, V>, large: map<K, V>)
    requires small.Keys <= large.Keys
    ensures |small| <= |large|
  {
    SubsetSize(small.Keys, large.Keys);
    assert |small.Keys| == |small| && |large.Keys| == |large|;
  }

  /** The part of the invariant that evictions concern. */
  ghost predicate Sound(c: Cache, env: Holders, known: Known) {
    Accounted(c, env, known) && Stamped(c)
  }

  lemma PruneSound(c: Cache, env: Holders, known: Known)
    requires Sound(c, env, known)
    ensures Sound(Prune(c, env), env, known) && Shrinks(env, c, Prune(c, env))
  {
    PruneKeepsSlots(c, env);
    PruneKeepsExact(IndexSlots(c.states), c.released, known.indexes, env.indexes);
    PruneKeepsExact(RunnerSlots(c.states), c.releasedRunners, known.runners, env.runners);
    PruneKeepsExact(NO_SLOTS, c.reservations, known.reservations, env.reservations);
    assert env.reservations + CachedIds(NO_SLOTS) == env.reservations;
    assert Shrinks(env, c, Prune(c, env));
    ShrinkingKeepsStamps(env, c, Prune(c, env));
  }

  lemma ReleaseIndexSound(c: Cache, env: Holders, known: Known, root: Path)
    requires Sound(c, env, known)
    ensures Sound(ReleaseIndex(c, env, root), env, known) && Shrinks(env, c, ReleaseIndex(c, env, root))
  {
    if root in c.states && c.states[root].index.Some? {
      var state := c.states[root].(index := None);
      var entry := c.states[root].index.value;
      var dropped := c.(states := c.states[root := state], released := c.released + [Slot(entry.index, entry.bytes)]);
      ReleaseKeepsExact(IndexSlots(c.states), c.released, known.indexes, env.indexes, root);
      IndexSlotsAfterUpdate(c.states, root, state);
      SameRunnerSlots(c.states, root, state);
      assert Shrinks(env, c, dropped);
      ShrinkingKeepsStamps(env, c, dropped);
      PruneSound(dropped, env, known);
      ShrinksTransitive(env, c, dropped, Prune(dropped, env));
    }
  }

  lemma SameRunnerSlots(states: map<Path, ProjectState>, root: Path, state: ProjectState)
    requires root in states && state.runner.Some? == states[root].runner.Some?
    requires state.runner.Some? ==> RunnerSlot(state.runner.value) == RunnerSlot(states[root].runner.value)
    ensures RunnerSlots(states[root := state]) == RunnerSlots(states)
  {
  }

  lemma SameIndexSlots(states: map<Path, ProjectState>, root: Path, state: ProjectState)
    requires root in states && state.index == states[root].index
    ensures IndexSlots(states[root := state]) == IndexSlots(states)
  {
  }

  lemma ReleaseRunnerSound(c: Cache, env: Holders, known: Known, root: Path)
    requires Sound(c, env, known)
    ensures Sound(ReleaseRunner(c, root), env, known) && Shrinks(env, c, ReleaseRunner(c, root))
  {
    if root in c.states && c.states[root].runner.Some? {
      var state := c.states[root].(runner := None);
      ReleaseKeepsExact(RunnerSlots(c.states), c.releasedRunners, known.runners, env.runners, root);
      RunnerSlotsAfterUpdate(c.states, root, state);
      SameIndexSlots(c.states, root, state);
      ShrinkingKeepsStamps(env, c, ReleaseRunner(c, root));
    }
  }

  /** The statistics are in no book. */
  lemma CountsEvictions(c: Cache, env: Holders, known: Known, root: Path)
    requires Sound(c, env, known)
    ensures var after := ReleaseIndex(c, env, root); var counted := after.(evictions := after.evictions + 1);
            Sound(counted, env, known) && Shrinks(env, c, counted)
  {
    hide ReleaseIndex;
    ReleaseIndexSound(c, env, known, root);
  }

  lemma EvictOneSound(c: Cache, env: Holders, known: Known, protectIndex: Option<Path>, protectRunner: Option<Path>)
    requires Sound(c, env, known)
    ensures EvictIndex(c, env, protectIndex).Some? ==>
              var after := EvictIndex(c, env, protectIndex).value; Sound(after, env, known) && Shrinks(env, c, after)
    ensures EvictRunner(c, env, protectRunner).Some? ==>
              var after := EvictRunner(c, env, protectRunner).value; Sound(after, env, known) && Shrinks(env, c, after)
  {
    hide Sound; hide Shrinks; hide ReleaseIndex; hide ReleaseRunner;
    if EvictIndex(c, env, protectIndex).Some? {
      CountsEvictions(c, env, known, LeastRecent(c, IndexVictims(c, protectIndex)));
      ReleaseIndexSound(c, env, known, LeastRecent(c, IndexVictims(c, protectIndex)));
    }
    if EvictRunner(c, env, protectRunner).Some? {
      ReleaseRunnerSound(c, env, known, LeastRecent(c, RunnerVictims(c, env, protectRunner)));
    }
  }

  lemma EvictEitherSound(c: Cache, env: Holders, known: Known, protectIndex: Option<Path>, protectRunner: Option<Path>)
    requires Sound(c, env, known) && EvictOne(c, env, protectIndex, protectRunner).Some?
    ensures var after := EvictOne(c, env, protectIndex, protectRunner).value;
            Sound(after, env, known) && Shrinks(env, c, after)
  {
    EvictOneSound(c, env, known, protectIndex, protectRunner);
  }

  lemma {:induction false} MakeRoomSound(c: Cache, env: Holders, known: Known, protectIndex: Option<Path>,
                                        protectRunner: Option<Path>, extra: nat)
    requires Sound(c, env, known)
    ensures Sound(MakeRoom(c, env, protectIndex, protectRunner, extra), env, known)
    ensures Shrinks(env, c, MakeRoom(c, env, protectIndex, protectRunner, extra))
    decreases Evictable(c)
  {
    var after := MakeRoom(c, env, protectIndex, protectRunner, extra);
    if after == c {
      return;
    }
    var next := EvictOne(c, env, protectIndex, protectRunner).value;
    assert after == MakeRoom(next, env, protectIndex, protectRunner, extra);
    EvictEitherSound(c, env, known, protectIndex, protectRunner);
    MakeRoomSound(next, env, known, protectIndex, protectRunner, extra);
    ShrinksTransitive(env, c, next, after);
  }

  lemma {:induction false} EnforceIndexCountSound(c: Cache, env: Holders, known: Known, protect: Option<Path>)
    requires Sound(c, env, known)
    ensures var after := EnforceIndexCount(c, env, protect);
            Sound(after, env, known) && Shrinks(env, c, after) && Bounded(after)
    decreases Evictable(c)
  {
    hide Sound; hide Shrinks; hide IndexSlots;
    ShrinksReflexive(env, c);
    var next := EvictIndex(c, env, protect);
    if |IndexSlots(c.states)| <= c.limits.maxIndexes {
      assert EnforceIndexCount(c, env, protect) == c;
    } else if next.Some? {
      hide EvictIndex;
      EvictOneSound(c, env, known, protect, protect);
      EvictIndexProgress(c, env, protect);
      EnforceIndexCountSound(next.value, env, known, protect);
      ShrinksTransitive(env, c, next.value, EnforceIndexCount(c, env, protect));
    } else {
      OnlyProtectedLeft(c, protect);
    }
  }

  lemma OnlyProtectedLeft(c: Cache, protect: Option<Path>)
    requires IndexVictims(c, protect) == {}
    ensures |IndexSlots(c.states)| <= 1
  {
    var slots := IndexSlots(c.states);
    forall root | root in slots ensures protect == Some(root) {
      assert root !in IndexVictims(c, protect);
    }
    var only: set<Path> := if protect.Some? then {protect.value} else {};
    SubsetSize(slots.Keys, only);
    assert |slots.Keys| == |slots|;
  }

  lemma {:induction false} EnforceRunnerCountSound(c: Cache, env: Holders, known: Known, protect: Option<Path>)
    requires Sound(c, env, known)
    ensures var after := EnforceRunnerCount(c, env, protect);
            Sound(after, env, known) && Shrinks(env, c, after)
    decreases Evictable(c)
  {
    hide Sound; hide Shrinks; hide RunnerSlots;
    ShrinksReflexive(env, c);
    var next := EvictRunner(c, env, protect);
    if |RunnerSlots(c.states)| <= c.limits.maxRunners {
      assert EnforceRunnerCount(c, env, protect) == c;
    } else if next.Some? {
      hide EvictRunner;
      EvictOneSound(c, env, known, protect, protect);
      EvictRunnerProgress(c, env, protect);
      EnforceRunnerCountSound(next.value, env, known, protect);
      ShrinksTransitive(env, c, next.value, EnforceRunnerCount(c, env, protect));
    } else {
      assert EnforceRunnerCount(c, env, protect) == c;
    }
  }

  lemma DropIdleSound(c: Cache, env: Holders, known: Known)
    requires Sound(c, env, known)
    ensures Sound(DropIdle(c, env), env, known) && Shrinks(env, c, DropIdle(c, env))
  {
    DroppingIdleKeepsSlots(c, env);
    hide Exact, Stamped, Worthwhile;
    assert Shrinks(env, c, DropIdle(c, env)) by { DroppingIdleShrinks(c, env); }
    hide Shrinks;
    ShrinkingKeepsStamps(env, c, DropIdle(c, env));
  }

  lemma DroppingIdleKeepsSlots(c: Cache, env: Holders)
    ensures IndexSlots(DropIdle(c, env).states) == IndexSlots(c.states)
    ensures RunnerSlots(DropIdle(c, env).states) == RunnerSlots(c.states)
  {}

  lemma DroppingIdleShrinks(c: Cache, env: Holders)
    ensures Shrinks(env, c, DropIdle(c, env))
  {}

  /** `enforce` keeps the books and, whatever it was given, leaves at most `max_indexes`
      indexes, or the single protected one. */
  lemma EnforceSound(c: Cache, env: Holders, known: Known, protect: Option<Path>)
    requires Sound(c, env, known)
    ensures Inv(Enforce(c, env, protect), env, known) && Shrinks(env, c, Enforce(c, env, protect))
  {
    var pruned := Prune(c, env);
    PruneSound(c, env, known);
    var counted := EnforceIndexCount(pruned, env, protect);
    EnforceIndexCountSound(pruned, env, known, protect);
    var sized := MakeRoom(counted, env, protect, protect, 0);
    MakeRoomSound(counted, env, known, protect, protect, 0);
    var fewer := EnforceRunnerCount(sized, env, protect);
    EnforceRunnerCountSound(sized, env, known, protect);
    DropIdleSound(fewer, env, known);
    ShrinksTransitive(env, c, pruned, counted);
    ShrinksTransitive(env, c, counted, sized);
    ShrinkingKeepsBound(env, counted, sized);
    ShrinksTransitive(env, c, sized, fewer);
    ShrinkingKeepsBound(env, sized, fewer);
    ShrinksTransitive(env, c, fewer, DropIdle(fewer, env));
    ShrinkingKeepsBound(env, fewer, DropIdle(fewer, env));
  }
}
