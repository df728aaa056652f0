/** Every operation of the project cache keeps the invariant, and only moves generations
    forward. */
module CacheOperations {
  import opened Common
  import opened Ledger
  import opened CacheModel
  import opened CacheInvariant

  /** A project keeps its generation or gets one nobody was handed before, and with its
      generation it keeps a live marker; only `ending`, whose build publishes or fails, loses it.
      A marker that was dropped never comes back, and only a publication brings an index. */
  ghost predicate Succeeds(env: Holders, ending: Option<Path>, before: Cache, after: Cache) {
    && after.limits == before.limits
    && before.nextGeneration <= after.nextGeneration
    && before.nextId <= after.nextId
    && (forall root :: root in after.states ==>
          || (root in before.states && after.states[root].generation == before.states[root].generation)
          || before.nextGeneration < after.states[root].generation)
    && (forall root :: root in before.states && root in after.states && Some(root) != ending
          && after.states[root].generation == before.states[root].generation <= before.nextGeneration
          && HasLiveMarker(env, before.states[root])
          ==> after.states[root].inFlight == before.states[root].inFlight)
    && (forall root :: root in after.states && after.states[root].inFlight.Some? ==> OldOrNewMarker(before, after, root))
    && (forall root :: root in after.states && after.states[root].index.Some? && Some(root) != ending ==> OldIndex(before, after, root))
  }

  /** The project retained this index in this generation before. */
  predicate OldIndex(before: Cache, after: Cache, root: Path) {
    && root in before.states && root in after.states
    && before.states[root].index == after.states[root].index
    && before.states[root].generation == after.states[root].generation
  }

  /** The project had its marker before, or it is a new one, in a cell nobody was handed before. */
  predicate OldOrNewMarker(before: Cache, after: Cache, root: Path)
    requires root in after.states && after.states[root].inFlight.Some?
  {
    || (root in before.states && before.states[root].inFlight == after.states[root].inFlight)
    || before.nextId <= after.states[root].inFlight.value.cell
  }

  /** No generation of `root` from before is current any more. */
  predicate Renewed(before: Cache, after: Cache, root: Path) {
    root in after.states ==> before.nextGeneration < after.states[root].generation
  }

  lemma SucceedsTransitive(env: Holders, ending: Option<Path>, a: Cache, b: Cache, c: Cache)
    requires Succeeds(env, ending, a, b) && Succeeds(env, ending, b, c)
    ensures Succeeds(env, ending, a, c)
    ensures forall root :: Renewed(a, b, root) ==> Renewed(a, c, root)
  {
    forall root | root in c.states && c.states[root].inFlight.Some? ensures OldOrNewMarker(a, c, root) {
      assert OldOrNewMarker(b, c, root);
    }
    forall root | root in c.states && c.states[root].index.Some? && Some(root) != ending ensures OldIndex(a, c, root) {
      assert OldIndex(b, c, root);
    }
    forall root | root in c.states
      ensures (root in a.states && c.states[root].generation == a.states[root].generation) || a.nextGeneration < c.states[root].generation
      ensures Renewed(a, b, root) ==> a.nextGeneration < c.states[root].generation
    {
      if root in b.states && c.states[root].generation == b.states[root].generation {
        assert b.nextGeneration < b.states[root].generation ==> a.nextGeneration < c.states[root].generation;
      }
    }
  }

  lemma SucceedsItself(c: Cache, env: Holders)
    ensures forall ending :: Succeeds(env, ending, c, c)
  {
  }

  lemma ShrinkingSucceeds(env: Holders, before: Cache, after: Cache)
    requires Shrinks(env, before, after)
    ensures forall ending :: Succeeds(env, ending, before, after)
  {
    forall root | root in before.states && root in after.states && HasLiveMarker(env, before.states[root])
      ensures after.states[root].inFlight == before.states[root].inFlight
    {
      assert ShrinksState(env, before.states[root], after.states[root]);
    }
  }

  // ----- building blocks -----

  /** A state of the same generation keeps its marker, or loses it with the end of a build. */
  lemma StateChangeSucceeds(c: Cache, env: Holders, root: Path, state: ProjectState)
    requires root in c.states && state.generation == c.states[root].generation
    requires state.index == c.states[root].index || state.index.None?
    ensures var after := c.(states := c.states[root := state]);
            && (state.inFlight == c.states[root].inFlight ==> forall ending :: Succeeds(env, ending, c, after))
            && (state.inFlight.None? ==> Succeeds(env, Some(root), c, after))
  {
  }

  lemma StateChangeSound(c: Cache, env: Holders, known: Known, root: Path, state: ProjectState)
    requires Sound(c, env, known) && root in c.states && StampedState(c, state)
    requires state.index == c.states[root].index && state.lastUsed == c.states[root].lastUsed
    requires state.runner.Some? == c.states[root].runner.Some?
    requires state.runner.Some? ==> RunnerSlot(state.runner.value) == RunnerSlot(c.states[root].runner.value)
    ensures Sound(c.(states := c.states[root := state]), env, known)
    ensures IndexSlots(c.states[root := state]) == IndexSlots(c.states)
  {
    var after := c.(states := c.states[root := state]);
    SameIndexSlots(c.states, root, state);
    SameRunnerSlots(c.states, root, state);
    SameAccounts(c, after, env, known);
    assert Stamped(after) by {
      forall p | p in after.states ensures StampedState(after, after.states[p]) {
        if p != root { assert StampedState(c, c.states[p]); }
      }
    }
  }

  lemma TouchStamped(c: Cache, root: Path)
    requires Stamped(c)
    ensures Stamped(Touch(c, root))
  {
    var after := Touch(c, root);
    forall p | p in after.states ensures StampedState(after, after.states[p]) {
      assert StampedState(c, c.states[p]);
    }
    forall p, q | p in after.states && q in after.states && p != q && after.states[p].lastUsed != 0
      ensures after.states[p].lastUsed != after.states[q].lastUsed
    {
      assert StampedState(c, c.states[p]) && StampedState(c, c.states[q]);
    }
  }

  /** A change of one project's state that stores no other index or runner leaves the books. */
  lemma SameAccounts(c: Cache, after: Cache, env: Holders, known: Known)
    requires Accounted(c, env, known) && c.nextId <= after.nextId
    requires IndexSlots(after.states) == IndexSlots(c.states) && RunnerSlots(after.states) == RunnerSlots(c.states)
    requires after.released == c.released && after.releasedRunners == c.releasedRunners && after.reservations == c.reservations
    ensures Accounted(after, env, known)
  {
  }

  lemma TouchSucceeds(c: Cache, env: Holders, root: Path)
    ensures Succeeds(env, None, c, Touch(c, root))
  {
  }

  lemma TouchSlots(c: Cache, root: Path)
    ensures IndexSlots(Touch(c, root).states) == IndexSlots(c.states)
    ensures RunnerSlots(Touch(c, root).states) == RunnerSlots(c.states)
  {
    if root in c.states {
      var state := c.states[root].(lastUsed := c.tick + 1);
      SameIndexSlots(c.states, root, state);
      SameRunnerSlots(c.states, root, state);
      hide IndexSlots; hide RunnerSlots;
      assert Touch(c, root).states == c.states[root := state];
    }
  }

  lemma TouchSound(c: Cache, env: Holders, known: Known, root: Path)
    requires Sound(c, env, known)
    ensures Sound(Touch(c, root), env, known) && Succeeds(env, None, c, Touch(c, root))
    ensures IndexSlots(Touch(c, root).states) == IndexSlots(c.states)
  {
    hide Accounted; hide Stamped; hide Succeeds; hide IndexSlots; hide RunnerSlots;
    TouchStamped(c, root);
    TouchSucceeds(c, env, root);
    TouchSlots(c, root);
    SameAccounts(c, Touch(c, root), env, known);
  }

  lemma NewEntrySlots(states: map<Path, ProjectState>, root: Path, generation: nat)
    requires root !in states
    ensures IndexSlots(states[root := NewState(generation)]) == IndexSlots(states)
    ensures RunnerSlots(states[root := NewState(generation)]) == RunnerSlots(states)
  {
  }

  lemma EntryStamped(c: Cache, root: Path)
    requires Stamped(c)
    ensures Stamped(Entry(c, root))
  {
    var after := Entry(c, root);
    forall p | p in after.states ensures StampedState(after, after.states[p]) {
      if p in c.states { assert StampedState(c, c.states[p]); }
    }
  }

  lemma EntrySound(c: Cache, env: Holders, known: Known, root: Path)
    requires Sound(c, env, known)
    ensures Sound(Entry(c, root), env, known) && Succeeds(env, None, c, Entry(c, root))
    ensures IndexSlots(Entry(c, root).states) == IndexSlots(c.states)
  {
    hide Accounted;
    EntryStamped(c, root);
    hide Stamped;
    if root !in c.states { NewEntrySlots(c.states, root, c.nextGeneration + 1); }
    SameAccounts(c, Entry(c, root), env, known);
  }

  /** The project in its new generation, its index not yet released. */
  function Renew(c: Cache, root: Path): Cache
    requires root in c.states
  {
    c.(nextGeneration := c.nextGeneration + 1, invalidations := c.invalidations + 1,
       states := c.states[root := c.states[root].(generation := c.nextGeneration + 1, inFlight := None)])
  }

  lemma RenewSound(c: Cache, env: Holders, known: Known, root: Path)
    requires Sound(c, env, known) && root in c.states
    ensures Sound(Renew(c, root), env, known)
    ensures IndexSlots(Renew(c, root).states) == IndexSlots(c.states)
  {
    var after := Renew(c, root);
    SameIndexSlots(c.states, root, after.states[root]);
    SameRunnerSlots(c.states, root, after.states[root]);
    SameAccounts(c, after, env, known);
    assert Stamped(after) by {
      forall p | p in after.states ensures StampedState(after, after.states[p]) {
        assert StampedState(c, c.states[p]);
      }
    }
  }

  lemma InvalidateSound(c: Cache, env: Holders, known: Known, root: Path)
    requires Sound(c, env, known)
    ensures var after := Invalidate(c, env, root);
            Sound(after, env, known) && Succeeds(env, None, c, after) && Renewed(c, after, root) && (Bounded(c) ==> Bounded(after))
  {
    var after := Invalidate(c, env, root);
    InvalidateSucceeds(c, env, root);
    hide Succeeds;
    if root in c.states {
      var renewed := Renew(c, root);
      RenewSound(c, env, known, root);
      assert after == ReleaseIndex(renewed, env, root);
      ReleaseIndexSound(renewed, env, known, root);
      if Bounded(c) { ShrinkingKeepsBound(env, renewed, after); }
    } else {
      SameAccounts(c, after, env, known);
      forall p | p in after.states ensures StampedState(after, after.states[p]) {
        assert StampedState(c, c.states[p]);
      }
    }
  }

  lemma InvalidateSucceeds(c: Cache, env: Holders, root: Path)
    ensures Succeeds(env, None, c, Invalidate(c, env, root)) && Renewed(c, Invalidate(c, env, root), root)
  {
    hide Live, StrongIndexes, StrongRunners, Succeeds;
    InvalidateKeepsEntry(c, env, root);
    hide Invalidate;
    InvalidatedSucceeds(c, Invalidate(c, env, root), env, root);
  }

  /** All that an invalidation changes: the project gets a new generation and loses index and marker. Elsewhere it drops dead
      markers at most. */
  ghost predicate IsInvalidated(c: Cache, after: Cache, env: Holders, root: Path) {
    && after.limits == c.limits && after.nextGeneration == c.nextGeneration + 1 && after.nextId == c.nextId && after.tick == c.tick
    && after.states.Keys == c.states.Keys
    && (root in c.states ==>
          after.states[root] == c.states[root].(generation := after.nextGeneration, inFlight := None, index := None))
    && (forall p :: p in c.states && p != root ==>
          || after.states[p] == c.states[p]
          || (!HasLiveMarker(env, c.states[p]) && after.states[p] == c.states[p].(inFlight := None)))
  }

  lemma InvalidatedSucceeds(c: Cache, after: Cache, env: Holders, root: Path)
    requires IsInvalidated(c, after, env, root)
    ensures Succeeds(env, None, c, after) && Renewed(c, after, root)
  {}

  lemma InvalidateKeepsEntry(c: Cache, env: Holders, root: Path)
    ensures IsInvalidated(c, Invalidate(c, env, root), env, root)
  {
    hide Live, StrongIndexes, StrongRunners;
  }

  // ----- operations -----

  lemma FinishFailedSound(c: Cache, env: Holders, known: Known, root: Path, generation: nat)
    requires Inv(c, env, known)
    ensures Inv(FinishFailed(c, env, root, generation), env, known)
    ensures Succeeds(env, Some(root), c, FinishFailed(c, env, root, generation))
  {
    hide Accounted; hide Succeeds; hide Enforce; hide Bounded;
    var cleared := c;
    if IsCurrent(c, root, generation) {
      var state := c.states[root].(inFlight := None);
      assert StampedState(c, c.states[root]);
      StateChangeSound(c, env, known, root, state);
      StateChangeSucceeds(c, env, root, state);
      cleared := c.(states := c.states[root := state]);
    }
    EnforceSound(cleared, env, known, None);
    SucceedsItself(c, env);
    ShrinkingSucceeds(env, cleared, FinishFailed(c, env, root, generation));
    SucceedsTransitive(env, Some(root), c, cleared, FinishFailed(c, env, root, generation));
  }

  lemma DiscardProjectSound(c: Cache, env: Holders, known: Known, root: Path)
    requires Inv(c, env, known)
    ensures var after := DiscardProject(c, env, root);
            Inv(after, env, known) && Succeeds(env, None, c, after) && Renewed(c, after, root)
  {
    hide Accounted; hide Stamped;
    var invalid := Invalidate(c, env, root);
    InvalidateSound(c, env, known, root);
    var bare := ReleaseRunner(invalid, root);
    ReleaseRunnerSound(invalid, env, known, root);
    EnforceSound(bare, env, known, None);
    ShrinksTransitive(env, invalid, bare, DiscardProject(c, env, root));
    ShrinkingSucceeds(env, invalid, DiscardProject(c, env, root));
    SucceedsTransitive(env, None, c, invalid, DiscardProject(c, env, root));
  }

  lemma InvalidateAfterMavenSound(c: Cache, env: Holders, known: Known, root: Path)
    requires Inv(c, env, known)
    ensures var after := InvalidateAfterMaven(c, env, root);
            Inv(after, env, known) && Succeeds(env, None, c, after) && Renewed(c, after, root)
  {
    var invalid := Invalidate(c, env, root);
    InvalidateSound(c, env, known, root);
    if root in invalid.states && invalid.states[root].runner.Some? {
      var state := invalid.states[root];
      var revalidated := state.(runner := Some(state.runner.value.(revalidate := true)));
      assert InvalidateAfterMaven(c, env, root) == invalid.(states := invalid.states[root := revalidated]);
      MarkRevalidated(invalid, env, known, root, revalidated);
      SucceedsTransitive(env, None, c, invalid, InvalidateAfterMaven(c, env, root));
    }
  }

  lemma MarkRevalidated(c: Cache, env: Holders, known: Known, root: Path, state: ProjectState)
    requires Inv(c, env, known) && root in c.states && c.states[root].runner.Some?
    requires state == c.states[root].(runner := Some(c.states[root].runner.value.(revalidate := true)))
    ensures Inv(c.(states := c.states[root := state]), env, known) && Succeeds(env, None, c, c.(states := c.states[root := state]))
  {
    hide Accounted; hide Succeeds;
    assert StampedState(c, c.states[root]);
    StateChangeSound(c, env, known, root, state);
    StateChangeSucceeds(c, env, root, state);
  }

  lemma RequireFullRebuildSound(c: Cache, env: Holders, known: Known, root: Path)
    requires Inv(c, env, known)
    ensures Inv(RequireFullRebuild(c, root), env, known) && Succeeds(env, None, c, RequireFullRebuild(c, root))
  {
    var entered := Entry(c, root);
    EntrySound(c, env, known, root);
    assert StampedState(entered, entered.states[root]);
    hide Accounted; hide Succeeds;
    StateChangeSound(entered, env, known, root, entered.states[root].(fullRebuild := true));
    StateChangeSucceeds(entered, env, root, entered.states[root].(fullRebuild := true));
    SucceedsTransitive(env, None, c, entered, RequireFullRebuild(c, root));
  }

  lemma FinishFullRebuildSound(c: Cache, env: Holders, known: Known, root: Path, generation: nat)
    requires Inv(c, env, known)
    ensures var after := FinishFullRebuild(c, root, generation); Inv(after, env, known) && Succeeds(env, None, c, after)
  {
    hide Accounted; hide Succeeds;
    SucceedsItself(c, env);
    if IsCurrent(c, root, generation) {
      assert StampedState(c, c.states[root]);
      StateChangeSound(c, env, known, root, c.states[root].(fullRebuild := false));
      StateChangeSucceeds(c, env, root, c.states[root].(fullRebuild := false));
    }
  }

  /** Counters of hits, misses and evictions, and ids nobody was given, may move freely. */
  lemma StatisticsSound(c: Cache, after: Cache, env: Holders, known: Known)
    requires Sound(c, env, known) && c.nextId <= after.nextId
    requires after == c.(hits := after.hits, misses := after.misses, nextId := after.nextId)
    ensures Sound(after, env, known) && Succeeds(env, None, c, after)
  {
    SameAccounts(c, after, env, known);
    assert Stamped(after) by {
      forall root | root in after.states ensures StampedState(after, after.states[root]) {
        assert StampedState(c, c.states[root]);
      }
    }
  }

  lemma RecordHitSound(c: Cache, env: Holders, known: Known, root: Path)
    requires Inv(c, env, known)
    ensures Inv(RecordHit(c, root), env, known) && Succeeds(env, None, c, RecordHit(c, root))
  {
    hide Accounted; hide Stamped; hide Succeeds; hide IndexSlots;
    var counted := c.(hits := c.hits + 1);
    StatisticsSound(c, counted, env, known);
    TouchSound(counted, env, known, root);
    SucceedsTransitive(env, None, c, counted, Touch(counted, root));
  }

  /** A request may clone an index reference the cache itself holds. */
  lemma CloneIndex(c: Cache, env: Holders, known: Known, root: Path)
    requires Inv(c, env, known) && root in c.states && c.states[root].index.Some?
    ensures Inv(c, env.(indexes := env.indexes + {c.states[root].index.value.index}), known)
  {
    assert IndexSlots(c.states)[root].id == c.states[root].index.value.index;
    HoldersKeepExact(IndexSlots(c.states), c.released, known.indexes, env.indexes,
                     env.indexes + {c.states[root].index.value.index});
  }

  lemma CloneRunner(c: Cache, env: Holders, known: Known, root: Path)
    requires Inv(c, env, known) && root in c.states && c.states[root].runner.Some?
    ensures Inv(c, env.(runners := env.runners + {c.states[root].runner.value.runner}), known)
  {
    assert RunnerSlots(c.states)[root].id == c.states[root].runner.value.runner;
    HoldersKeepExact(RunnerSlots(c.states), c.releasedRunners, known.runners, env.runners,
                     env.runners + {c.states[root].runner.value.runner});
  }

  lemma RunnerSound(c: Cache, env: Holders, known: Known, root: Path)
    requires Inv(c, env, known)
    ensures Succeeds(env, None, c, Runner(c, root).0) && Inv(Runner(c, root).0, env, known)
    ensures Runner(c, root).1.Some? ==>
              Inv(Runner(c, root).0, env.(runners := env.runners + {Runner(c, root).1.value.runner}), known)
  {
    TouchSound(c, env, known, root);
    if Runner(c, root).1.Some? {
      CloneRunner(Touch(c, root), env, known, root);
    }
  }

  lemma LookupEntrySound(c: Cache, env: Holders, known: Known, root: Path)
    requires Inv(c, env, known)
    ensures Inv(Touch(Entry(c, root), root), env, known) && Succeeds(env, None, c, Touch(Entry(c, root), root))
  {
    hide Accounted; hide Stamped;
    EntrySound(c, env, known, root);
    TouchSound(Entry(c, root), env, known, root);
    SucceedsTransitive(env, None, c, Entry(c, root), Touch(Entry(c, root), root));
  }

  lemma LookupIndexSound(c: Cache, env: Holders, known: Known, root: Path, project: Fingerprint)
    requires Inv(c, env, known)
    ensures var (after, reply) := LookupIndex(c, env, root, project);
            && Succeeds(env, None, c, after) && Inv(after, env, known)
            && IsCurrent(after, root, reply.generation)
            && (reply.Cached? ==> Inv(after, env.(indexes := env.indexes + {reply.entry.index}), known))
  {
    hide Accounted; hide Stamped; hide Succeeds; hide Bounded;
    var touched := Touch(Entry(c, root), root);
    LookupEntrySound(c, env, known, root);
    var (after, reply) := LookupIndex(c, env, root, project);
    if reply.Cached? {
      hide Entry; hide Touch;
      CloneIndex(touched, env, known, root);
    } else {
      assert touched.states[root].index.None? || touched.states[root].index.value.project != project;
      hide Entry; hide Touch; hide Join; hide Invalidate;
      LookupMissSound(touched, env, known, root);
      SucceedsTransitive(env, None, c, touched, after);
    }
  }

  lemma LookupMissSound(touched: Cache, env: Holders, known: Known, root: Path)
    requires Inv(touched, env, known) && root in touched.states
    ensures var valid := if touched.states[root].index.Some? then Invalidate(touched, env, root) else touched;
            && root in valid.states
            && var (after, reply) := Join(valid.(misses := valid.misses + 1), root);
            Inv(after, env, known) && Succeeds(env, None, touched, after) && IsCurrent(after, root, reply.generation)
            && (touched.states[root].index.Some? ==> Renewed(touched, after, root))
  {
    hide Accounted; hide Stamped;
    var valid := if touched.states[root].index.Some? then Invalidate(touched, env, root) else touched;
    if touched.states[root].index.Some? {
      InvalidateSound(touched, env, known, root);
      InvalidateKeepsEntry(touched, env, root);
    }
    var counted := valid.(misses := valid.misses + 1);
    StatisticsSound(valid, counted, env, known);
    JoinSound(counted, env, known, root);
    SucceedsTransitive(env, None, touched, valid, counted);
    SucceedsTransitive(env, None, touched, counted, Join(counted, root).0);
  }

  lemma JoinSucceeds(c: Cache, env: Holders, root: Path)
    requires root in c.states && StampedState(c, c.states[root])
    ensures Succeeds(env, None, c, Join(c, root).0)
  {
  }

  lemma JoinSound(c: Cache, env: Holders, known: Known, root: Path)
    requires Inv(c, env, known) && root in c.states && c.states[root].index.None?
    ensures var (after, reply) := Join(c, root);
            && Inv(after, env, known) && Succeeds(env, None, c, after)
            && reply.Build? && IsCurrent(after, root, reply.generation)
  {
    hide Accounted; hide Succeeds;
    var state := c.states[root];
    assert StampedState(c, state);
    SucceedsItself(c, env);
    if !(state.inFlight.Some? && state.inFlight.value.generation == state.generation) {
      var numbered := c.(nextId := c.nextId + 1);
      StatisticsSound(c, numbered, env, known);
      StateChangeSound(numbered, env, known, root,
                       state.(inFlight := Some(InFlight(state.generation, c.nextId, c.nextId))));
      JoinSucceeds(c, env, root);
    }
  }

  lemma InvalidateGenerationSound(c: Cache, env: Holders, known: Known, root: Path, generation: nat)
    requires Inv(c, env, known)
    ensures var after := InvalidateGeneration(c, env, root, generation);
            Inv(after, env, known) && Succeeds(env, None, c, after) && (IsCurrent(c, root, generation) ==> Renewed(c, after, root))
  {
    InvalidateSound(c, env, known, root);
  }

  lemma InstallRunnerSound(c: Cache, env: Holders, known: Known, root: Path, runner: Id, fingerprint: Fingerprint)
    requires Inv(c, env, known) && runner !in known.runners && runner in env.runners
    ensures var after := InstallRunner(c, env, root, runner, fingerprint);
            var slot := Slot(runner, fingerprint.estimatedBytes);
            && Inv(after, env, known.(runners := known.runners[runner := slot]))
            && Succeeds(env, None, c, after) && (ChangesModel(c, root, fingerprint) ==> Renewed(c, after, root))
  {
    hide Accounted; hide Stamped; hide Succeeds; hide Enforce;
    SucceedsItself(c, env);
    var invalid := if ChangesModel(c, root, fingerprint) then Invalidate(c, env, root) else c;
    if ChangesModel(c, root, fingerprint) { InvalidateSound(c, env, known, root); }
    var entered := Entry(invalid, root);
    EntrySound(invalid, env, known, root);
    SucceedsTransitive(env, None, c, invalid, entered);
    var touched := Touch(entered, root);
    TouchSound(entered, env, known, root);
    SucceedsTransitive(env, None, c, entered, touched);
    var bare := ReleaseRunner(touched, root);
    ReleaseRunnerSound(touched, env, known, root);
    ShrinkingSucceeds(env, touched, bare);
    SucceedsTransitive(env, None, c, touched, bare);
    var installed := StoreRunner(bare, env, known, root, runner, fingerprint);
    SucceedsTransitive(env, None, c, bare, installed);
    var now := known.(runners := known.runners[runner := Slot(runner, fingerprint.estimatedBytes)]);
    EnforceSound(installed, env, now, Some(root));
    ShrinkingSucceeds(env, installed, Enforce(installed, env, Some(root)));
    SucceedsTransitive(env, None, c, installed, Enforce(installed, env, Some(root)));
  }

  lemma StoreRunnerStamped(bare: Cache, root: Path, runner: Option<RunnerEntry>)
    requires Stamped(bare) && root in bare.states && bare.states[root].lastUsed != 0
    ensures Stamped(bare.(states := bare.states[root := bare.states[root].(runner := runner)]))
  {
    var after := bare.(states := bare.states[root := bare.states[root].(runner := runner)]);
    forall p | p in after.states ensures StampedState(after, after.states[p]) {
      assert StampedState(bare, bare.states[p]);
    }
  }

  lemma StoreRunner(bare: Cache, env: Holders, known: Known, root: Path, runner: Id, fingerprint: Fingerprint) returns (installed: Cache)
    requires Sound(bare, env, known) && runner !in known.runners
    requires root in bare.states && bare.states[root].runner.None? && bare.states[root].lastUsed != 0
    ensures installed == bare.(states := bare.states[root := bare.states[root].(runner := Some(RunnerEntry(runner, fingerprint, false)))])
    ensures Sound(installed, env, known.(runners := known.runners[runner := Slot(runner, fingerprint.estimatedBytes)]))
    ensures Succeeds(env, None, bare, installed)
  {
    hide Succeeds; hide Stamped;
    var state := bare.states[root].(runner := Some(RunnerEntry(runner, fingerprint, false)));
    installed := bare.(states := bare.states[root := state]);
    assert root !in RunnerSlots(bare.states);
    StoreKeepsExact(RunnerSlots(bare.states), bare.releasedRunners, known.runners, env.runners, root,
                    Slot(runner, fingerprint.estimatedBytes));
    RunnerSlotsAfterUpdate(bare.states, root, state);
    SameIndexSlots(bare.states, root, state);
    StateChangeSucceeds(bare, env, root, state);
    StoreRunnerStamped(bare, root, state.runner);
  }

  lemma PrunedInv(c: Cache, env: Holders, known: Known)
    requires Inv(c, env, known)
    ensures Inv(Prune(c, env), env, known) && forall ending :: Succeeds(env, ending, c, Prune(c, env))
  {
    PruneSound(c, env, known);
    ShrinkingKeepsBound(env, c, Prune(c, env));
  }

  lemma RoomInv(c: Cache, env: Holders, known: Known, protectIndex: Option<Path>, protectRunner: Option<Path>, extra: nat)
    requires Inv(c, env, known)
    ensures var room := MakeRoom(c, env, protectIndex, protectRunner, extra); Inv(room, env, known) && Succeeds(env, None, c, room)
  {
    MakeRoomSound(c, env, known, protectIndex, protectRunner, extra);
    ShrinkingKeepsBound(env, c, MakeRoom(c, env, protectIndex, protectRunner, extra));
  }

  lemma ListReservation(c: Cache, env: Holders, known: Known, bytes: nat)
    requires Inv(c, env, known)
    ensures var slot := Slot(c.nextId, bytes);
            var after := c.(reservations := c.reservations + [slot], nextId := c.nextId + 1);
            && Succeeds(env, None, c, after)
            && Inv(after, env.(reservations := env.reservations + {c.nextId}),
                   known.(reservations := known.reservations[c.nextId := slot]))
  {
    var slot := Slot(c.nextId, bytes);
    var numbered := c.(nextId := c.nextId + 1);
    StatisticsSound(c, numbered, env, known);
    var held := env.reservations + {c.nextId};
    HoldersKeepExact(NO_SLOTS, c.reservations, known.reservations, env.reservations, held);
    ListKeepsExact(NO_SLOTS, c.reservations, known.reservations, held, slot);
    var after := numbered.(reservations := c.reservations + [slot]);
    assert Stamped(after) by {
      forall root | root in after.states ensures StampedState(after, after.states[root]) {
        assert StampedState(numbered, numbered.states[root]);
      }
    }
  }

  lemma ReserveCases(c: Cache, env: Holders, root: Path, generation: nat, bytes: nat)
    ensures var pruned := Prune(c, env);
            var room := MakeRoom(pruned, env, None, Some(root), bytes);
            var needed := RetainedBytes(room, env) + bytes;
            Reserve(c, env, root, generation, bytes) ==
              if !IsCurrent(pruned, root, generation) then (pruned, ReserveStale)
              else if needed > room.limits.maxBytes then (room, OverBudget(needed, room.limits.maxBytes))
              else (room.(reservations := room.reservations + [Slot(room.nextId, bytes)], nextId := room.nextId + 1),
                    Reserved(room.nextId))
  {
    hide RetainedBytes; hide Prune; hide MakeRoom;
  }

  lemma ReserveSound(c: Cache, env: Holders, known: Known, root: Path, generation: nat, bytes: nat)
    requires Inv(c, env, known)
    ensures var (after, reply) := Reserve(c, env, root, generation, bytes);
            && Succeeds(env, None, c, after)
            && (!reply.Reserved? ==> Inv(after, env, known))
            && (reply.Reserved? ==>
                  Inv(after, env.(reservations := env.reservations + {reply.reservation}),
                      known.(reservations := known.reservations[reply.reservation := Slot(reply.reservation, bytes)])))
  {
    hide *;
    ReserveCases(c, env, root, generation, bytes);
    var pruned := Prune(c, env);
    PrunedInv(c, env, known);
    if IsCurrent(pruned, root, generation) {
      var room := MakeRoom(pruned, env, None, Some(root), bytes);
      RoomInv(pruned, env, known, None, Some(root), bytes);
      SucceedsTransitive(env, None, c, pruned, room);
      ListReservation(room, env, known, bytes);
      var listed := room.(reservations := room.reservations + [Slot(room.nextId, bytes)], nextId := room.nextId + 1);
      SucceedsTransitive(env, None, c, room, listed);
    }
  }
}
