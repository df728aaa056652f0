/** What the cache answers: an index exactly while it is retained for the asked model, one that was published in this very
    generation and not invalidated since; and what was installed, discarded or marked is found like that afterwards. */
module CacheAnswers {
  import opened Common
  import opened Ledger
  import opened CacheModel
  import opened CacheInvariant
  import opened CacheOperations
  import opened CachePublication
  import opened CacheLimits
  import opened CacheRuns

  // ----- lookups -----

  /** The project's build marker belongs to its generation. */
  predicate HasOwnMarker(c: Cache, root: Path) {
    root in c.states && c.states[root].inFlight.Some? && c.states[root].inFlight.value.generation == c.states[root].generation
  }

  /** A lookup answers with an index exactly if the project retains one for the asked model, and then with that one. Otherwise it
      counts a miss, leaves no index, and answers with the project's own marker if it has one, else with a new cell. */
  lemma LookupIsCachedIff(c: Cache, env: Holders, root: Path, project: Fingerprint)
    ensures var (after, reply) := LookupIndex(c, env, root, project);
            && (reply.Cached? <==> HasIndex(c, root) && c.states[root].index.value.project == project)
            && (reply.Cached? ==>
                  && reply == Cached(c.states[root].index.value, c.states[root].generation)
                  && after.misses == c.misses && after.states == c.states[root := c.states[root].(lastUsed := after.tick)])
            && (reply.Build? ==>
                  && after.misses == c.misses + 1 && root in after.states && after.states[root].index.None?
                  && (if root in c.states && c.states[root].index.None? then reply.generation == c.states[root].generation
                      else reply.generation > c.nextGeneration)
                  && (if HasOwnMarker(c, root) && c.states[root].index.None? then
                        reply.cell == c.states[root].inFlight.value.cell && reply.owner == c.states[root].inFlight.value.owner
                      else reply.cell >= c.nextId && reply.owner >= c.nextId))
  {
    hide Invalidate;
    var entered := Touch(Entry(c, root), root);
    InvalidateKeepsEntry(entered, env, root);
    if HasIndex(c, root) && c.states[root].index.value.project != project {
      InvalidationCountsNothing(entered, env, root);
    }
  }

  lemma InvalidationCountsNothing(c: Cache, env: Holders, root: Path)
    ensures Invalidate(c, env, root).misses == c.misses && Invalidate(c, env, root).hits == c.hits
    ensures Invalidate(c, env, root).evictions == c.evictions
    ensures Invalidate(c, env, root).invalidations == c.invalidations + if root in c.states then 1 else 0
  {}

  // ----- where indexes come from -----

  /** The event published the index that the project retains, in the project's generation. */
  predicate Published(w: World, event: Event, c: Cache, root: Path)
    requires HasIndex(c, root)
  {
    var entry := c.states[root].index.value;
    && event.Called? && event.operation.PublishIndex? && event.operation.root == root
    && event.operation.generation == c.states[root].generation
    && CachedIndex(event.operation.index, event.operation.fingerprint, event.operation.bytes) == entry
  }

  ghost predicate PublishedSince(worlds: seq<World>, events: seq<Event>, i: nat, n: nat, root: Path)
    requires |worlds| == |events| + 1 && n < |worlds| && HasIndex(worlds[n].cache, root)
  {
    && i < n && Published(worlds[i], events[i], worlds[n].cache, root)
    && PublishedAs(worlds[i], events[i]) == Retained
    && forall k :: i <= k < n ==> !Invalidates(worlds[k], events[k], root)
  }

  ghost function PublishedAs(w: World, event: Event): Publication {
    if event.Called? && event.operation.PublishIndex? then
      var o := event.operation;
      PublishResult(w, o.root, o.generation, o.index, o.bytes, o.fingerprint, o.reservation)
    else PublishStale
  }

  /** Publishing retains the new index, or leaves what was retained before. */
  lemma PublishedIndex(w: World, root: Path, generation: nat, index: Id, bytes: nat, fingerprint: Fingerprint, reservation: Id)
    requires InvW(w) && Allowed(w, PublishIndex(root, generation, index, bytes, fingerprint, reservation))
    ensures var after := After(w, PublishIndex(root, generation, index, bytes, fingerprint, reservation)).cache;
            HasIndex(after, root) ==>
              || OldIndex(w.cache, after, root)
              || (PublishResult(w, root, generation, index, bytes, fingerprint, reservation) == Retained
                  && IsCurrent(after, root, generation)
                  && after.states[root].index == Some(CachedIndex(index, fingerprint, bytes)))
  {
    hide Publish; hide RetainedBytes; hide Inv; hide Live; hide StrongIndexes; hide StrongRunners; hide Kept;
    var env := WithoutReservation(w.env, reservation);
    PublishCases(w.cache, env, root, generation, index, bytes, fingerprint);
    HoldersMoveSound(w, w.(env := env));
    var result := Publish(w.cache, env, root, generation, index, bytes, fingerprint);
    if result.1 == Retained {
      RetainedFits(w.cache, env, w.known, root, generation, index, bytes, fingerprint);
    } else {
      PublicationMeans(w.cache, env, w.known, root, generation, index, bytes, fingerprint);
      if IsCurrent(Prune(w.cache, env), root, generation) {
        KeptIsNotStale(Prune(w.cache, env), env, root, CachedIndex(index, fingerprint, bytes));
      }
    }
  }

  lemma KeptIsNotStale(pruned: Cache, env: Holders, root: Path, entry: CachedIndex)
    requires root in pruned.states
    ensures Kept(pruned, env, root, entry).1 != PublishStale
  {
    hide RetainedBytes; hide Enforce;
  }

  lemma FailedIndex(w: World, root: Path, generation: nat)
    requires InvW(w)
    ensures var after := After(w, BuildFailed(root, generation)).cache;
            HasIndex(after, root) ==> OldIndex(w.cache, after, root)
  {
    hide Accounted; hide Enforce; hide Succeeds; hide Bounded;
    var (c, env, cleared) := (w.cache, w.env, w.cache);
    if IsCurrent(c, root, generation) {
      var state := c.states[root].(inFlight := None);
      assert StampedState(c, c.states[root]);
      StateChangeSound(c, env, w.known, root, state);
      cleared := c.(states := c.states[root := state]);
    }
    EnforceSound(cleared, env, w.known, None);
    var after := Enforce(cleared, env, None);
    if root in after.states { assert ShrinksState(env, cleared.states[root], after.states[root]); }
  }

  /** An index is either the old one of the same generation, or was published just now. */
  lemma IndexInStep(w: World, event: Event, after: World, root: Path)
    requires InvW(w) && Step(w, event, after) && HasIndex(after.cache, root)
    ensures || OldIndex(w.cache, after.cache, root)
            || (Published(w, event, after.cache, root) && PublishedAs(w, event) == Retained)
  {
    hide InvW; hide After; hide PublishResult; hide Allowed; hide LookUpResult;
    if Ending(event) == Some(root) {
      match event.operation
      case PublishIndex(_, generation, index, bytes, fingerprint, reservation) =>
        PublishedIndex(w, root, generation, index, bytes, fingerprint, reservation);
      case BuildFailed(_, generation) => FailedIndex(w, root, generation);
    } else {
      StepSound(w, event, after);
    }
  }

  /** An index that stayed in its generation was not invalidated. */
  lemma OldIsNotInvalidated(w: World, event: Event, after: World, root: Path)
    requires InvW(w) && Step(w, event, after) && OldIndex(w.cache, after.cache, root)
    ensures !Invalidates(w, event, root)
  {
    hide After; hide Allowed; hide Invalidates; hide Succeeds;
    StepSound(w, event, after);
    StateIsStamped(w, root);
  }

  /** In every run, a retained index was published in the project's present generation, was retained then, and nothing has
      invalidated the project since. */
  lemma {:induction false} RetainedWasPublished(worlds: seq<World>, events: seq<Event>, n: nat, root: Path) returns (i: nat)
    requires IsRun(worlds, events) && n < |worlds| && HasIndex(worlds[n].cache, root)
    ensures PublishedSince(worlds, events, i, n, root)
    decreases n
  {
    hide InvW; hide Step; hide Invalidates; hide PublishedAs;
    NothingAtFirst(worlds[0], root);
    var (w, event) := (worlds[n - 1], events[n - 1]);
    RunSound(worlds, events, n - 1);
    assert Step(w, event, worlds[n]);
    IndexInStep(w, event, worlds[n], root);
    if OldIndex(w.cache, worlds[n].cache, root) {
      i := RetainedWasPublished(worlds, events, n - 1, root);
      OldIsNotInvalidated(w, event, worlds[n], root);
    } else {
      i := n - 1;
      PublishingInvalidatesNothing(w, event, root);
    }
  }

  lemma NothingAtFirst(w: World, root: Path)
    requires Fresh(w)
    ensures !HasIndex(w.cache, root)
  {}

  lemma PublishingInvalidatesNothing(w: World, event: Event, root: Path)
    requires event.Called? && event.operation.PublishIndex?
    ensures !Invalidates(w, event, root)
  {}

  /** In every run, a lookup that is answered with an index gets one that was built for the asked model in the generation it is
      answered with, and that nothing has invalidated since its publication. */
  lemma AnswersAreCurrent(worlds: seq<World>, events: seq<Event>, n: nat, root: Path, fingerprint: Fingerprint) returns (i: nat)
    requires IsRun(worlds, events) && n < |worlds| && LookUpResult(worlds[n], root, fingerprint).Cached?
    ensures i < n && events[i].Called? && events[i].operation.PublishIndex?
    ensures var (published, answer) := (events[i].operation, LookUpResult(worlds[n], root, fingerprint));
            && published.root == root && published.generation == answer.generation
            && answer.entry == CachedIndex(published.index, fingerprint, published.bytes)
            && PublishedAs(worlds[i], events[i]) == Retained
    ensures forall k :: i <= k < n ==> !Invalidates(worlds[k], events[k], root)
  {
    hide IsRun; hide Invalidates; hide PublishedAs; hide LookupIndex;
    LookupIsCachedIff(worlds[n].cache, worlds[n].env, root, fingerprint);
    i := RetainedWasPublished(worlds, events, n, root);
  }

  // ----- runners and rebuilds -----

  /** An installed runner is the one found afterwards; unless its model changed, its project keeps index and generation. */
  lemma InstalledIsFound(c: Cache, env: Holders, known: Known, root: Path, runner: Id, fingerprint: Fingerprint)
    requires Inv(c, env, known) && runner !in known.runners && runner in env.runners
    ensures var after := InstallRunner(c, env, root, runner, fingerprint);
            && Runner(after, root).1 == Some(RunnerEntry(runner, fingerprint, false))
            && (root in c.states && !ChangesModel(c, root, fingerprint) ==> IsCurrent(after, root, c.states[root].generation))
            && (HasIndex(c, root) && !ChangesModel(c, root, fingerprint) ==> after.states[root].index == c.states[root].index)
            && (ChangesModel(c, root, fingerprint) ==> after.states[root].index.None? && after.states[root].generation > c.nextGeneration)
  {
    hide Enforce; hide Invalidate; hide Inv;
    InvalidateKeepsEntry(c, env, root);
    var invalidated := if ChangesModel(c, root, fingerprint) then Invalidate(c, env, root) else c;
    var entered := ReleaseRunner(Touch(Entry(invalidated, root), root), root);
    var installed := entered.states[root].(runner := Some(RunnerEntry(runner, fingerprint, false)));
    EnforceSpares(entered.(states := entered.states[root := installed]), env, root);
  }

  /** A discarded project is gone with index, runner and marker. */
  lemma DiscardedIsGone(c: Cache, env: Holders, known: Known, root: Path)
    requires Inv(c, env, known)
    ensures root !in DiscardProject(c, env, root).states
  {
    hide Enforce; hide Invalidate; hide Accounted; hide Stamped; hide Shrinks; hide Succeeds;
    InvalidateKeepsEntry(c, env, root);
    InvalidateSound(c, env, known, root);
    var bare := ReleaseRunner(Invalidate(c, env, root), root);
    ReleaseRunnerSound(Invalidate(c, env, root), env, known, root);
    EnforcingLeaves(bare, env, known, None);
    EmptyIsDropped(bare, env, known, root);
  }

  lemma EmptyIsDropped(c: Cache, env: Holders, known: Known, root: Path)
    requires Sound(c, env, known) && Enforced(Enforce(c, env, None), env, None)
    requires root in c.states ==> c.states[root].index.None? && c.states[root].runner.None? && c.states[root].inFlight.None?
    ensures root !in Enforce(c, env, None).states
  {
    hide Enforce; hide RetainedBytes; hide Accounted; hide Stamped;
    EnforceSound(c, env, known, None);
    EmptyStaysEmpty(env, c, Enforce(c, env, None), root);
  }

  lemma EmptyStaysEmpty(env: Holders, before: Cache, after: Cache, root: Path)
    requires Shrinks(env, before, after)
    requires root in before.states ==>
               before.states[root].index.None? && before.states[root].runner.None? && before.states[root].inFlight.None?
    ensures root in after.states ==>
              after.states[root].index.None? && after.states[root].runner.None? && after.states[root].inFlight.None?
  {
    forall p | p in after.states ensures p in before.states && ShrinksState(env, before.states[p], after.states[p]) {}
  }

  /** After a Maven run the project is in a new generation without index, and its runner must be validated again. */
  lemma MavenRunIsRemembered(c: Cache, env: Holders, root: Path)
    requires root in c.states
    ensures var after := InvalidateAfterMaven(c, env, root);
            && root in after.states && after.states[root].index.None? && after.states[root].generation > c.nextGeneration
            && (c.states[root].runner.Some? ==>
                  after.states[root].runner == Some(c.states[root].runner.value.(revalidate := true)))
            && (c.states[root].runner.None? ==> after.states[root].runner.None?)
  {
    hide Invalidate;
    InvalidateKeepsEntry(c, env, root);
  }

  /** A demanded full rebuild is settled by the build of the current generation only, and survives invalidations. */
  lemma RebuildIsSettledOnce(c: Cache, env: Holders, root: Path, generation: nat)
    ensures var demanded := RequireFullRebuild(c, root);
            && root in demanded.states && demanded.states[root].fullRebuild
            && root in FinishFullRebuild(demanded, root, generation).states
            && FinishFullRebuild(demanded, root, generation).states[root].fullRebuild == !IsCurrent(demanded, root, generation)
            && Invalidate(demanded, env, root).states[root].fullRebuild
  {
    hide Invalidate;
    InvalidateKeepsEntry(RequireFullRebuild(c, root), env, root);
  }

  // ----- pruning -----

  predicate RetainsIndex(c: Cache, id: Id) {
    exists root :: root in c.states && c.states[root].index.Some? && c.states[root].index.value.index == id
  }

  predicate RetainsRunner(c: Cache, id: Id) {
    exists root :: root in c.states && c.states[root].runner.Some? && c.states[root].runner.value.runner == id
  }

  /** Pruning forgets exactly the released objects that nobody holds any more, the dropped reservations, and the markers whose
      cell is gone and whose owner is not locked. */
  lemma PruningIsExact(c: Cache, env: Holders)
    ensures var after := Prune(c, env);
      && (forall slot :: slot in after.released <==>
            slot in c.released && (slot.id in env.indexes || RetainsIndex(c, slot.id)))
      && (forall slot :: slot in after.releasedRunners <==>
            slot in c.releasedRunners && (slot.id in env.runners || RetainsRunner(c, slot.id)))
      && (forall slot :: slot in after.reservations <==> slot in c.reservations && slot.id in env.reservations)
      && after.states.Keys == c.states.Keys
      && (forall root :: root in c.states ==>
            var (old_, new_) := (c.states[root], after.states[root]);
            if old_.inFlight.Some? && old_.inFlight.value.cell !in env.cells && old_.inFlight.value.owner !in env.lockedOwners
            then new_ == old_.(inFlight := None) else new_ == old_)
      && after == c.(released := after.released, releasedRunners := after.releasedRunners, reservations := after.reservations,
                     states := after.states)
  {
    hide Live;
    StrongMeansRetained(c, env);
  }

  lemma StrongMeansRetained(c: Cache, env: Holders)
    ensures forall id :: id in StrongIndexes(c.states, env) <==> id in env.indexes || RetainsIndex(c, id)
    ensures forall id :: id in StrongRunners(c.states, env) <==> id in env.runners || RetainsRunner(c, id)
  {
    forall id ensures id in CachedIds(IndexSlots(c.states)) <==> RetainsIndex(c, id) {
      if RetainsIndex(c, id) {
        var root :| root in c.states && c.states[root].index.Some? && c.states[root].index.value.index == id;
        assert root in IndexSlots(c.states) && IndexSlots(c.states)[root].id == id;
      }
    }
    forall id ensures id in CachedIds(RunnerSlots(c.states)) <==> RetainsRunner(c, id) {
      if RetainsRunner(c, id) {
        var root :| root in c.states && c.states[root].runner.Some? && c.states[root].runner.value.runner == id;
        assert root in RunnerSlots(c.states) && RunnerSlots(c.states)[root].id == id;
      }
    }
  }
}
