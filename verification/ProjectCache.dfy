/** The project cache as the object the server locks: every method updates the fields in place
    and is proved to do what the value model says. `env` is what requests hold at that moment. */
module ProjectCache {
  import opened Common
  import opened Ledger
  import opened CacheModel
  import opened CacheInvariant
  import opened CacheOperations
  import opened CachePublication

  class ProjectCache {
    const limits: Limits
    var states: map<Path, ProjectState>
    var released: seq<Slot>
    var releasedRunners: seq<Slot>
    var reservations: seq<Slot>
    var nextGeneration: nat
    var tick: nat
    var nextId: Id
    var hits: nat
    var misses: nat
    var evictions: nat
    var invalidations: nat

    ghost function View(): Cache
      reads this
    {
      Cache(limits, states, released, releasedRunners, reservations, nextGeneration, tick, nextId,
            hits, misses, evictions, invalidations)
    }

    constructor (limits: Limits, firstId: Id)
      ensures View() == Cache(limits, map[], [], [], [], 0, 0, firstId, 0, 0, 0, 0)
      ensures forall env :: Inv(View(), env, Known(map[], map[], map[]))
    {
      this.limits := limits;
      states, released, releasedRunners, reservations := map[], [], [], [];
      nextGeneration, tick, nextId := 0, 0, firstId;
      hits, misses, evictions, invalidations := 0, 0, 0, 0;
      new;
      assert IndexSlots(states) == map[] && RunnerSlots(states) == map[];
    }

    // ----- memory -----

    static method SumSlots(slots: map<Path, Slot>, weight: Slot -> nat) returns (sum: nat)
      ensures sum == SumMap(slots, weight)
    {
      sum := 0;
      var left := slots;
      while left != map[]
        invariant sum + SumMap(left, weight) == SumMap(slots, weight)
        decreases |left|
      {
        var root :| root in left;
        SumMapRemove(left, weight, root);
        RemovedKey(left, root);
        sum := sum + weight(left[root]);
        left := left - {root};
      }
    }

    method RetainedBytesNow(env: Holders) returns (bytes: nat)
      ensures bytes == RetainedBytes(View(), env)
    {
      var runnerBytes := SumSlots(RunnerSlots(states), RunnerWeight(env.testResultBytes));
      var indexBytes := SumSlots(IndexSlots(states), BytesOf);
      bytes := runnerBytes + indexBytes
        + SumSeq(Live(released, StrongIndexes(states, env)), BytesOf)
        + SumSeq(Live(releasedRunners, StrongRunners(states, env)), RunnerWeight(env.testResultBytes))
        + SumSeq(Live(reservations, env.reservations), BytesOf);
    }

    /** Forgets released memory nobody holds any more and markers of cancelled requests. */
    method PruneNow(env: Holders)
      modifies this
      ensures View() == Prune(old(View()), env)
    {
      hide Live, StrongIndexes, StrongRunners, PruneState;
      released := Live(released, StrongIndexes(states, env));
      releasedRunners := Live(releasedRunners, StrongRunners(states, env));
      states := map root | root in states :: PruneState(env, states[root]);
      reservations := Live(reservations, env.reservations);
      assert states == Prune(old(View()), env).states;
    }

    method ReleaseIndexOf(env: Holders, root: Path)
      modifies this
      ensures View() == ReleaseIndex(old(View()), env, root)
    {
      if root in states && states[root].index.Some? {
        var entry := states[root].index.value;
        states := states[root := states[root].(index := None)];
        released := released + [Slot(entry.index, entry.bytes)];
        PruneNow(env);
      }
    }

    method TakeRunner(root: Path)
      modifies this
      ensures View() == ReleaseRunner(old(View()), root)
    {
      if root in states && states[root].runner.Some? {
        releasedRunners := releasedRunners + [RunnerSlot(states[root].runner.value)];
        states := states[root := states[root].(runner := None)];
      }
    }

    method InvalidateProject(env: Holders, root: Path)
      modifies this
      ensures View() == Invalidate(old(View()), env, root)
    {
      nextGeneration := nextGeneration + 1;
      if root in states {
        states := states[root := states[root].(generation := nextGeneration, inFlight := None)];
        invalidations := invalidations + 1;
        assert View() == Renew(old(View()), root);
        hide ReleaseIndex;
        ReleaseIndexOf(env, root);
      }
    }

    // ----- eviction -----

    method LeastRecentlyUsed(victims: set<Path>) returns (victim: Path)
      requires victims <= states.Keys && victims != {}
      ensures IsLeastRecent(View(), victims, victim)
    {
      victim :| victim in victims;
      var left := victims - {victim};
      while left != {}
        invariant left <= victims && victim in victims
        invariant forall other :: other in victims - left ==> states[victim].lastUsed <= states[other].lastUsed
        decreases |left|
      {
        var other :| other in left;
        if states[other].lastUsed < states[victim].lastUsed {
          victim := other;
        }
        left := left - {other};
      }
    }

    /** No two used projects share a tick, so the victim does not depend on the map's order. */
    static lemma VictimIsUnique(c: Cache, env: Holders, known: Known, victims: set<Path>, p: Path, q: Path)
      requires Sound(c, env, known)
      requires victims <= c.states.Keys && IsLeastRecent(c, victims, p) && IsLeastRecent(c, victims, q)
      requires c.states[p].index.Some? || c.states[p].runner.Some?
      ensures p == q
    {
      hide Accounted;
      assert StampedState(c, c.states[p]);
    }

    method EvictLeastRecentlyUsedIndex(env: Holders, protect: Option<Path>, ghost known: Known) returns (evicted: bool)
      requires Sound(View(), env, known)
      modifies this
      ensures Sound(View(), env, known)
      ensures evicted == EvictIndex(old(View()), env, protect).Some?
      ensures View() == if evicted then EvictIndex(old(View()), env, protect).value else old(View())
    {
      hide Sound; hide Shrinks; hide ReleaseIndex; hide ReleaseRunner;
      ghost var before := View();
      var victims := IndexVictims(Cache(limits, states, released, releasedRunners, reservations, nextGeneration,
                                        tick, nextId, hits, misses, evictions, invalidations), protect);
      if victims == {} {
        return false;
      }
      var victim := LeastRecentlyUsed(victims);
      VictimIsUnique(before, env, known, victims, victim, LeastRecent(before, victims));
      EvictOneSound(before, env, known, protect, protect);
      ReleaseIndexOf(env, victim);
      evictions := evictions + 1;
      evicted := true;
    }

    method EvictLeastRecentlyUsedRunner(env: Holders, protect: Option<Path>, ghost known: Known) returns (evicted: bool)
      requires Sound(View(), env, known)
      modifies this
      ensures Sound(View(), env, known)
      ensures evicted == EvictRunner(old(View()), env, protect).Some?
      ensures View() == if evicted then EvictRunner(old(View()), env, protect).value else old(View())
    {
      hide Sound; hide Shrinks; hide ReleaseIndex; hide ReleaseRunner;
      ghost var before := View();
      var victims := RunnerVictims(Cache(limits, states, released, releasedRunners, reservations, nextGeneration,
                                         tick, nextId, hits, misses, evictions, invalidations), env, protect);
      if victims == {} {
        return false;
      }
      var victim := LeastRecentlyUsed(victims);
      VictimIsUnique(before, env, known, victims, victim, LeastRecent(before, victims));
      EvictOneSound(before, env, known, protect, protect);
      TakeRunner(victim);
      evicted := true;
    }

    /** The byte loop of `reserve` and `enforce`. */
    method EvictUntilFits(env: Holders, protectIndex: Option<Path>, protectRunner: Option<Path>, extra: nat, ghost known: Known)
      requires Sound(View(), env, known)
      modifies this
      ensures View() == MakeRoom(old(View()), env, protectIndex, protectRunner, extra)
      ensures Sound(View(), env, known)
    {
      ghost var before := View();
      hide Sound; hide EvictIndex; hide EvictRunner; hide RetainedBytes;
      var retained := RetainedBytesNow(env);
      while retained + extra > limits.maxBytes
        invariant Sound(View(), env, known) && retained == RetainedBytes(View(), env)
        invariant MakeRoom(View(), env, protectIndex, protectRunner, extra) == MakeRoom(before, env, protectIndex, protectRunner, extra)
        decreases Evictable(View())
      {
        ghost var current := View();
        var evicted := EvictLeastRecentlyUsedIndex(env, protectIndex, known);
        if !evicted {
          evicted := EvictLeastRecentlyUsedRunner(env, protectRunner, known);
        }
        if !evicted {
          return;
        }
        assert EvictOne(current, env, protectIndex, protectRunner) == Some(View());
        retained := RetainedBytesNow(env);
      }
    }

    method EnforceLimits(env: Holders, protect: Option<Path>, ghost known: Known)
      requires Sound(View(), env, known)
      modifies this
      ensures View() == Enforce(old(View()), env, protect)
      ensures Inv(View(), env, known)
    {
      EnforceSound(View(), env, known, protect);
      PruneSound(View(), env, known);
      hide Inv; hide Sound; hide RetainedBytes; hide MakeRoom; hide EnforceIndexCount; hide EnforceRunnerCount; hide Prune;
      PruneNow(env);
      EvictExcessIndexes(env, protect, known);
      EvictUntilFits(env, protect, protect, 0, known);
      EvictExcessRunners(env, protect, known);
      DropIdleProjects(env);
    }

    method DropIdleProjects(env: Holders)
      modifies this
      ensures View() == DropIdle(old(View()), env)
    {
      states := map root | root in states && Worthwhile(env, states[root]) :: states[root];
      assert states == DropIdle(old(View()), env).states;
    }

    method EvictExcessIndexes(env: Holders, protect: Option<Path>, ghost known: Known)
      requires Sound(View(), env, known)
      modifies this
      ensures View() == EnforceIndexCount(old(View()), env, protect)
      ensures Sound(View(), env, known)
    {
      ghost var before := View();
      hide Sound; hide EvictIndex;
      while |IndexSlots(states)| > limits.maxIndexes
        invariant Sound(View(), env, known)
        invariant EnforceIndexCount(View(), env, protect) == EnforceIndexCount(before, env, protect)
        decreases Evictable(View())
      {
        ghost var current := View();
        var evicted := EvictLeastRecentlyUsedIndex(env, protect, known);
        if !evicted {
          return;
        }
        EvictIndexProgress(current, env, protect);
      }
    }

    method EvictExcessRunners(env: Holders, protect: Option<Path>, ghost known: Known)
      requires Sound(View(), env, known)
      modifies this
      ensures View() == EnforceRunnerCount(old(View()), env, protect)
      ensures Sound(View(), env, known)
    {
      ghost var before := View();
      hide Sound; hide EvictRunner;
      while |RunnerSlots(states)| > limits.maxRunners
        invariant Sound(View(), env, known)
        invariant EnforceRunnerCount(View(), env, protect) == EnforceRunnerCount(before, env, protect)
        decreases Evictable(View())
      {
        ghost var current := View();
        var evicted := EvictLeastRecentlyUsedRunner(env, protect, known);
        if !evicted {
          return;
        }
        EvictRunnerProgress(current, env, protect);
      }
    }

    // ----- operations -----

    method TouchProject(root: Path)
      modifies this
      ensures View() == Touch(old(View()), root)
    {
      tick := tick + 1;
      if root in states {
        states := states[root := states[root].(lastUsed := tick)];
      }
    }

    method EnterProject(root: Path)
      modifies this
      ensures View() == Entry(old(View()), root)
      ensures root in states
    {
      nextGeneration := nextGeneration + 1;
      if root !in states {
        states := states[root := NewState(nextGeneration)];
      }
    }

    method LookUpIndex(env: Holders, root: Path, project: Fingerprint) returns (reply: Lookup)
      modifies this
      ensures (View(), reply) == LookupIndex(old(View()), env, root, project)
    {
      hide Invalidate;
      EnterProject(root);
      TouchProject(root);
      var state := states[root];
      if state.index.Some? {
        if state.index.value.project == project {
          return Cached(state.index.value, state.generation);
        }
        InvalidateProject(env, root);
        InvalidateKeepsEntry(Touch(Entry(old(View()), root), root), env, root);
      }
      misses := misses + 1;
      state := states[root];
      if state.inFlight.Some? && state.inFlight.value.generation == state.generation {
        return Build(state.inFlight.value.cell, state.inFlight.value.owner, state.generation);
      }
      var marker := InFlight(state.generation, nextId, nextId);
      nextId := nextId + 1;
      states := states[root := state.(inFlight := Some(marker))];
      reply := Build(marker.cell, marker.owner, marker.generation);
    }

    method GetRunner(root: Path) returns (entry: Option<RunnerEntry>)
      modifies this
      ensures (View(), entry) == Runner(old(View()), root)
    {
      entry := if root in states then states[root].runner else None;
      TouchProject(root);
    }

    /** A hit whose artifacts turned out current counts, and makes its project the most recently used one. */
    method HitRecorded(ghost env: Holders, root: Path, ghost known: Known)
      requires Inv(View(), env, known)
      modifies this
      ensures View() == RecordHit(old(View()), root)
      ensures Inv(View(), env, known)
      ensures IsMostRecent(states, root)
    {
      RecordHitSound(View(), env, known, root);
      HitIsMostRecent(View(), env, known, root);
      hide Inv, Touch, IsMostRecent;
      hits := hits + 1;
      TouchProject(root);
    }

    static ghost predicate IsMostRecent(states: map<Path, ProjectState>, root: Path) {
      root in states ==> forall other :: other in states && other != root ==> states[other].lastUsed < states[root].lastUsed
    }

    static lemma HitIsMostRecent(c: Cache, env: Holders, known: Known, root: Path)
      requires Inv(c, env, known)
      ensures IsMostRecent(RecordHit(c, root).states, root)
    {
      hide Accounted;
      forall other | other in c.states ensures c.states[other].lastUsed <= c.tick {
        assert StampedState(c, c.states[other]);
      }
    }

    method Install(env: Holders, root: Path, runner: Id, fingerprint: Fingerprint, ghost known: Known)
      requires Inv(View(), env, known) && runner !in known.runners && runner in env.runners
      modifies this
      ensures View() == InstallRunner(old(View()), env, root, runner, fingerprint)
      ensures Inv(View(), env, known.(runners := known.runners[runner := Slot(runner, fingerprint.estimatedBytes)]))
    {
      hide Inv; hide Sound; hide Enforce; hide Invalidate;
      ghost var before := View();
      InstallRunnerSound(before, env, known, root, runner, fingerprint);
      ghost var installed := BeforeEnforcing(before, env, known, root, runner, fingerprint);
      if root in states && states[root].runner.Some? && states[root].runner.value.fingerprint != fingerprint {
        InvalidateProject(env, root);
      }
      EnterProject(root);
      TouchProject(root);
      TakeRunner(root);
      states := states[root := states[root].(runner := Some(RunnerEntry(runner, fingerprint, false)))];
      EnforceLimits(env, Some(root), known.(runners := known.runners[runner := Slot(runner, fingerprint.estimatedBytes)]));
    }

    static lemma BeforeEnforcing(c: Cache, env: Holders, known: Known, root: Path, runner: Id, fingerprint: Fingerprint)
      returns (installed: Cache)
      requires Inv(c, env, known) && runner !in known.runners && runner in env.runners
      ensures var invalid := if ChangesModel(c, root, fingerprint) then Invalidate(c, env, root) else c;
              var bare := ReleaseRunner(Touch(Entry(invalid, root), root), root);
              && root in bare.states
              && installed == bare.(states :=
                   bare.states[root := bare.states[root].(runner := Some(RunnerEntry(runner, fingerprint, false)))])
      ensures Sound(installed, env, known.(runners := known.runners[runner := Slot(runner, fingerprint.estimatedBytes)]))
    {
      var invalid := if ChangesModel(c, root, fingerprint) then Invalidate(c, env, root) else c;
      InvalidateSound(c, env, known, root);
      EntrySound(invalid, env, known, root);
      TouchSound(Entry(invalid, root), env, known, root);
      var touched := Touch(Entry(invalid, root), root);
      ReleaseRunnerSound(touched, env, known, root);
      hide Accounted; hide Stamped; hide Invalidate;
      installed := StoreRunner(ReleaseRunner(touched, root), env, known, root, runner, fingerprint);
    }

    method Discard(env: Holders, root: Path, ghost known: Known)
      requires Inv(View(), env, known)
      modifies this
      ensures View() == DiscardProject(old(View()), env, root)
      ensures Inv(View(), env, known)
    {
      ghost var before := View();
      InvalidateSound(before, env, known, root);
      ReleaseRunnerSound(Invalidate(before, env, root), env, known, root);
      hide Sound; hide Inv;
      InvalidateProject(env, root);
      TakeRunner(root);
      EnforceLimits(env, None, known);
    }

    method MavenRan(env: Holders, root: Path)
      modifies this
      ensures View() == InvalidateAfterMaven(old(View()), env, root)
    {
      InvalidateProject(env, root);
      if root in states && states[root].runner.Some? {
        states := states[root := states[root].(runner := Some(states[root].runner.value.(revalidate := true)))];
      }
    }

    method ForceRebuild(root: Path)
      modifies this
      ensures View() == RequireFullRebuild(old(View()), root)
    {
      EnterProject(root);
      states := states[root := states[root].(fullRebuild := true)];
    }

    method RebuildDone(root: Path, generation: nat)
      modifies this
      ensures View() == FinishFullRebuild(old(View()), root, generation)
    {
      if root in states && states[root].generation == generation {
        states := states[root := states[root].(fullRebuild := false)];
      }
    }

    method InvalidateOnly(env: Holders, root: Path, generation: nat)
      modifies this
      ensures View() == InvalidateGeneration(old(View()), env, root, generation)
    {
      if root in states && states[root].generation == generation {
        InvalidateProject(env, root);
      }
    }

    method ReserveFor(env: Holders, root: Path, generation: nat, bytes: nat, ghost known: Known) returns (reply: Reserving)
      requires Inv(View(), env, known)
      modifies this
      ensures (View(), reply) == Reserve(old(View()), env, root, generation, bytes)
      ensures ReserveLeaves(View(), reply, env, known, bytes)
    {
      hide ReserveLeaves; hide Bounded; hide Sound; hide Shrinks; hide MakeRoom; hide RetainedBytes; hide Prune; hide Reserve;
      ReserveKeepsInv(View(), env, known, root, generation, bytes);
      ReserveCases(View(), env, root, generation, bytes);
      PruneSound(View(), env, known);
      PruneNow(env);
      if root !in states || states[root].generation != generation {
        return ReserveStale;
      }
      EvictUntilFits(env, None, Some(root), bytes, known);
      var retained := RetainedBytesNow(env);
      if retained + bytes > limits.maxBytes {
        return OverBudget(retained + bytes, limits.maxBytes);
      }
      reservations := reservations + [Slot(nextId, bytes)];
      reply := Reserved(nextId);
      nextId := nextId + 1;
    }

    /** `env` is what is held after the build's reservation was dropped. */
    method PublishIndex(env: Holders, root: Path, generation: nat, index: Id, bytes: nat, project: Fingerprint, ghost known: Known)
      returns (reply: Publication)
      requires Inv(View(), env, known) && index !in known.indexes
      modifies this
      ensures (View(), reply) == Publish(old(View()), env, root, generation, index, bytes, project)
      ensures Inv(View(), env, KnownAfter(known, Overwritten(old(View()), root, generation, bytes), reply, index, bytes))
    {
      hide Overwritten; hide KnownAfter; hide Forgetting; hide RetainedSlot; hide Bounded;
      hide Sound; hide Publish; hide Enforce; hide RetainedBytes; hide ReleaseIndex; hide Succeeds;
      ghost var before := View();
      PruneSound(before, env, known);
      PublishSound(before, env, known, root, generation, index, bytes, project);
      PublishCases(before, env, root, generation, index, bytes, project);
      ghost var pruned := Prune(before, env);
      if root in pruned.states {
        StoredSound(pruned, env, known, root, CachedIndex(index, project, bytes));
      }
      hide Prune; hide Shrinks;
      PruneNow(env);
      if root !in states || states[root].generation != generation {
        return PublishStale;
      }
      if bytes > limits.maxBytes {
        states := states[root := states[root].(inFlight := None)];
        released := released + [Slot(index, bytes)];
        return Uncached;
      }
      var entry := CachedIndex(index, project, bytes);
      tick := tick + 1;
      states := states[root := states[root].(inFlight := None, index := Some(entry), lastUsed := tick)];
      assert View() == Stored(pruned, root, entry);
      EnforceLimits(env, Some(root), WithIndex(Forgetting(known, RetainedSlot(pruned, root)), index, bytes));
      var retained := RetainedBytesNow(env);
      if retained > limits.maxBytes {
        ReleaseIndexOf(env, root);
        return Uncached;
      }
      reply := Retained;
    }

    method BuildFailed(env: Holders, root: Path, generation: nat, ghost known: Known)
      requires Inv(View(), env, known)
      modifies this
      ensures View() == FinishFailed(old(View()), env, root, generation)
      ensures Inv(View(), env, known)
    {
      ghost var before := View();
      if root in states && states[root].generation == generation {
        var state := states[root].(inFlight := None);
        assert StampedState(before, states[root]);
        StateChangeSound(before, env, known, root, state);
        states := states[root := state];
      }
      hide Accounted; hide Stamped; hide Enforce;
      EnforceLimits(env, None, known);
    }
  }
}
