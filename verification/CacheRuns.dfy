/** Runs of the project cache: operations of any requests, in any order, between which the
    requests drop references and finish blocking work as they like. */
module CacheRuns {
  import opened Common
  import opened Ledger
  import opened CacheModel
  import opened CacheInvariant
  import opened CacheOperations
  import opened CachePublication

  /** `lost`: the indexes that a publication stored over. The cache does not list them any more,
      and counts none of their holders. */
  datatype World = World(cache: Cache, env: Holders, known: Known, lost: map<Id, Slot>)

  datatype Operation =
    | GetRunner(root: Path)
    | Install(root: Path, runner: Id, fingerprint: Fingerprint)
    | Discard(root: Path)
    | MavenRan(root: Path)
    | ForceRebuild(root: Path)
    | RebuildDone(root: Path, generation: nat)
    | InvalidateOnly(root: Path, generation: nat)
    | LookUp(root: Path, fingerprint: Fingerprint)
    | Hit(root: Path)
    | ReserveFor(root: Path, generation: nat, bytes: nat)
    | PublishIndex(root: Path, generation: nat, index: Id, bytes: nat, fingerprint: Fingerprint, reservation: Id)
    | BuildFailed(root: Path, generation: nat)

  datatype Event =
    | Called(operation: Operation)
    | Elsewhere  // requests and blocking jobs drop references, take and free owner locks

  /** What the caller owes: freshly made objects that it holds. */
  predicate Allowed(w: World, operation: Operation) {
    match operation
    case Install(_, runner, _) => runner !in w.known.runners && runner in w.env.runners
    case PublishIndex(_, _, index, _, _, _) =>
      index !in w.known.indexes && index !in w.lost && index in w.env.indexes
    case _ => true
  }

  ghost function LookUpResult(w: World, root: Path, fingerprint: Fingerprint): Lookup {
    LookupIndex(w.cache, w.env, root, fingerprint).1
  }

  ghost function ReserveResult(w: World, root: Path, generation: nat, bytes: nat): Reserving {
    Reserve(w.cache, w.env, root, generation, bytes).1
  }

  /** The build hands its reservation in: it is dropped before anything else happens. */
  function WithoutReservation(env: Holders, reservation: Id): Holders {
    env.(reservations := env.reservations - {reservation})
  }

  ghost function PublishResult(w: World, root: Path, generation: nat, index: Id, bytes: nat, fingerprint: Fingerprint,
                               reservation: Id): Publication
  {
    Publish(w.cache, WithoutReservation(w.env, reservation), root, generation, index, bytes, fingerprint).1
  }

  /** The cache after a call, what its caller then holds, and what the cache was given. */
  ghost function After(w: World, operation: Operation): World {
    var (c, env, known) := (w.cache, w.env, w.known);
    match operation
    case GetRunner(root) =>
      var (after, entry) := Runner(c, root);
      w.(cache := after, env := if entry.Some? then env.(runners := env.runners + {entry.value.runner}) else env)
    case Install(root, runner, fingerprint) =>
      w.(cache := InstallRunner(c, env, root, runner, fingerprint),
         known := known.(runners := known.runners[runner := Slot(runner, fingerprint.estimatedBytes)]))
    case Discard(root) => w.(cache := DiscardProject(c, env, root))
    case MavenRan(root) => w.(cache := InvalidateAfterMaven(c, env, root))
    case ForceRebuild(root) => w.(cache := RequireFullRebuild(c, root))
    case RebuildDone(root, generation) => w.(cache := FinishFullRebuild(c, root, generation))
    case InvalidateOnly(root, generation) => w.(cache := InvalidateGeneration(c, env, root, generation))
    case LookUp(root, fingerprint) =>
      var (after, reply) := LookupIndex(c, env, root, fingerprint);
      w.(cache := after,
         env := match reply case Cached(entry, _) => env.(indexes := env.indexes + {entry.index})
                            case Build(cell, _, _) => env.(cells := env.cells + {cell}))
    case Hit(root) => w.(cache := RecordHit(c, root))
    case ReserveFor(root, generation, bytes) =>
      var (after, reply) := Reserve(c, env, root, generation, bytes);
      if reply.Reserved? then
        w.(cache := after, env := env.(reservations := env.reservations + {reply.reservation}),
           known := known.(reservations := known.reservations[reply.reservation := Slot(reply.reservation, bytes)]))
      else w.(cache := after)
    case PublishIndex(root, generation, index, bytes, fingerprint, reservation) =>
      var left := WithoutReservation(env, reservation);
      var (after, reply) := Publish(c, left, root, generation, index, bytes, fingerprint);
      var gone := Overwritten(c, root, generation, bytes);
      World(after, left, KnownAfter(known, gone, reply, index, bytes),
            if gone.Some? then w.lost[gone.value.id := gone.value] else w.lost)
    case BuildFailed(root, generation) => w.(cache := FinishFailed(c, env, root, generation))
  }

  /** Outside calls, a reference the cache knows can only be dropped: cloning needs a holder. */
  predicate HoldersMove(w: World, after: World) {
    && after.cache == w.cache && after.known == w.known && after.lost == w.lost
    && (forall id :: id in after.env.indexes && (id in w.known.indexes || id in w.lost) ==> id in w.env.indexes)
    && (forall id :: id in after.env.runners && id in w.known.runners ==> id in w.env.runners)
    && after.env.reservations <= w.env.reservations
    && after.env.cells <= w.env.cells
  }

  ghost predicate Step(w: World, event: Event, after: World) {
    match event
    case Called(operation) => Allowed(w, operation) && after == After(w, operation)
    case Elsewhere => HoldersMove(w, after)
  }

  predicate Fresh(w: World) {
    && w.cache == Cache(w.cache.limits, map[], [], [], [], 0, 0, w.cache.nextId, 0, 0, 0, 0)
    && w.known == Known(map[], map[], map[]) && w.lost == map[]
  }

  ghost predicate IsRun(worlds: seq<World>, events: seq<Event>) {
    && |worlds| == |events| + 1
    && Fresh(worlds[0])
    && forall i :: 0 <= i < |events| ==> Step(worlds[i], events[i], worlds[i + 1])
  }

  /** Stamps, bound and exact books of every object but the lost ones. */
  ghost predicate InvW(w: World) {
    Inv(w.cache, w.env, w.known) && w.known.indexes.Keys !! w.lost.Keys
  }

  /** `root` loses its generation in this event: its model changed, Maven ran, an artifact
      changed, or its runner could not be discovered again. */
  predicate Invalidates(w: World, event: Event, root: Path) {
    event.Called? && match event.operation
    case Install(r, _, fingerprint) => r == root && ChangesModel(w.cache, root, fingerprint)
    case Discard(r) => r == root
    case MavenRan(r) => r == root
    case InvalidateOnly(r, generation) => r == root && IsCurrent(w.cache, root, generation)
    case LookUp(r, fingerprint) => r == root && root in w.cache.states && w.cache.states[root].index.Some?
                                   && w.cache.states[root].index.value.project != fingerprint
    case _ => false
  }

  /** The project whose build publishes or fails in this event. */
  function Ending(event: Event): Option<Path> {
    if event.Called? && (event.operation.PublishIndex? || event.operation.BuildFailed?) then Some(event.operation.root)
    else None
  }

  // ----- every step keeps the invariant and moves generations forward -----

  lemma HoldersMoveSound(w: World, after: World)
    requires InvW(w) && HoldersMove(w, after)
    ensures InvW(after) && Succeeds(w.env, None, w.cache, after.cache)
  {
    HoldersKeepExact(IndexSlots(w.cache.states), w.cache.released, w.known.indexes, w.env.indexes, after.env.indexes);
    HoldersKeepExact(RunnerSlots(w.cache.states), w.cache.releasedRunners, w.known.runners, w.env.runners, after.env.runners);
    HoldersKeepExact(NO_SLOTS, w.cache.reservations, w.known.reservations, w.env.reservations, after.env.reservations);
  }

  lemma LookUpSound(w: World, root: Path, fingerprint: Fingerprint)
    requires InvW(w)
    ensures var after := After(w, LookUp(root, fingerprint));
            && InvW(after) && Succeeds(w.env, None, w.cache, after.cache)
            && (Invalidates(w, Called(LookUp(root, fingerprint)), root) ==> Renewed(w.cache, after.cache, root))
  {
    hide Stamped; hide Bounded; hide Exact;
    var (after, reply) := LookupIndex(w.cache, w.env, root, fingerprint);
    LookupIndexSound(w.cache, w.env, w.known, root, fingerprint);
    if reply.Build? {
      assert Accounted(after, w.env.(cells := w.env.cells + {reply.cell}), w.known);
    }
    if root in w.cache.states && w.cache.states[root].index.Some? && w.cache.states[root].index.value.project != fingerprint {
      var touched := Touch(Entry(w.cache, root), root);
      LookupEntrySound(w.cache, w.env, w.known, root);
      LookupMissSound(touched, w.env, w.known, root);
    }
  }

  lemma SameMarkers(env: Holders, left: Holders, root: Path, before: Cache, after: Cache)
    requires left.cells == env.cells && left.lockedOwners == env.lockedOwners
    ensures Succeeds(left, Some(root), before, after) <==> Succeeds(env, Some(root), before, after)
  {
  }

  lemma PublishStepSound(w: World, root: Path, generation: nat, index: Id, bytes: nat, fingerprint: Fingerprint, reservation: Id)
    requires InvW(w) && Allowed(w, PublishIndex(root, generation, index, bytes, fingerprint, reservation))
    ensures var after := After(w, PublishIndex(root, generation, index, bytes, fingerprint, reservation));
            InvW(after) && Succeeds(w.env, Some(root), w.cache, after.cache)
  {
    hide Publish; hide Exact; hide Stamped; hide Bounded; hide Succeeds;
    var left := w.(env := WithoutReservation(w.env, reservation));
    assert HoldersMove(w, left);
    HoldersMoveSound(w, left);
    SameMarkers(w.env, left.env, root, w.cache, After(w, PublishIndex(root, generation, index, bytes, fingerprint, reservation)).cache);
    PublishSound(w.cache, left.env, w.known, root, generation, index, bytes, fingerprint);
    if Overwritten(w.cache, root, generation, bytes).Some? { RetainedIsKnown(w.cache, w.env, w.known, root); }
  }

  lemma CallSound(w: World, operation: Operation)
    requires InvW(w) && Allowed(w, operation)
    ensures InvW(After(w, operation)) && Succeeds(w.env, Ending(Called(operation)), w.cache, After(w, operation).cache)
    ensures Invalidates(w, Called(operation), operation.root) ==> Renewed(w.cache, After(w, operation).cache, operation.root)
  {
    hide Accounted; hide Stamped; hide Bounded; hide Succeeds;
    hide InstallRunner; hide DiscardProject; hide InvalidateAfterMaven; hide RequireFullRebuild; hide FinishFullRebuild;
    hide InvalidateGeneration; hide LookupIndex; hide RecordHit; hide Reserve; hide Publish; hide FinishFailed; hide Runner;
    match operation {
      case GetRunner(root) => RunnerSound(w.cache, w.env, w.known, root);
      case Install(root, runner, fingerprint) => InstallRunnerSound(w.cache, w.env, w.known, root, runner, fingerprint);
      case Discard(root) => DiscardProjectSound(w.cache, w.env, w.known, root);
      case MavenRan(root) => InvalidateAfterMavenSound(w.cache, w.env, w.known, root);
      case ForceRebuild(root) => RequireFullRebuildSound(w.cache, w.env, w.known, root);
      case RebuildDone(root, generation) => FinishFullRebuildSound(w.cache, w.env, w.known, root, generation);
      case InvalidateOnly(root, generation) => InvalidateGenerationSound(w.cache, w.env, w.known, root, generation);
      case LookUp(root, fingerprint) => LookUpSound(w, root, fingerprint);
      case Hit(root) => RecordHitSound(w.cache, w.env, w.known, root);
      case ReserveFor(root, generation, bytes) => ReserveSound(w.cache, w.env, w.known, root, generation, bytes);
      case PublishIndex(root, generation, index, bytes, fingerprint, reservation) =>
        PublishStepSound(w, root, generation, index, bytes, fingerprint, reservation);
      case BuildFailed(root, generation) => FinishFailedSound(w.cache, w.env, w.known, root, generation);
    }
  }

  lemma StepSound(w: World, event: Event, after: World)
    requires InvW(w) && Step(w, event, after)
    ensures InvW(after) && Succeeds(w.env, Ending(event), w.cache, after.cache)
    ensures forall root :: Invalidates(w, event, root) ==> Renewed(w.cache, after.cache, root)
  {
    hide Inv; hide After; hide Succeeds;
    match event {
      case Called(operation) => CallSound(w, operation);
      case Elsewhere => HoldersMoveSound(w, after);
    }
  }

  lemma {:induction false} RunSound(worlds: seq<World>, events: seq<Event>, n: nat)
    requires IsRun(worlds, events) && n < |worlds|
    ensures InvW(worlds[n])
  {
    hide InvW; hide Step; hide Fresh;
    if n == 0 {
      FreshSound(worlds[0]);
    } else {
      RunSound(worlds, events, n - 1);
      StepSound(worlds[n - 1], events[n - 1], worlds[n]);
    }
  }

  lemma FreshSound(w: World)
    requires Fresh(w)
    ensures InvW(w)
  {
    assert IndexSlots(w.cache.states) == map[];
  }

  // ----- memory -----

  /** Everything the cache was ever given. */
  function AllKnown(w: World): Known {
    w.known.(indexes := w.known.indexes + w.lost)
  }

  /** The bytes of everything the cache was ever given and that is still in memory, each once. */
  ghost function MemoryInUse(w: World): nat {
    InMemoryBytes(w.cache, w.env, AllKnown(w))
  }

  /** The lost indexes that somebody still holds. */
  function Uncounted(w: World): map<Id, Slot> {
    map id | id in w.lost && id in w.env.indexes :: w.lost[id]
  }

  ghost function UncountedBytes(w: World): nat {
    SumMap(Uncounted(w), BytesOf)
  }

  /** The cache counts everything in memory once, but for what it lost. */
  lemma MemoryIsCountedOrLost(w: World)
    requires InvW(w)
    ensures MemoryInUse(w) == RetainedBytes(w.cache, w.env) + UncountedBytes(w)
  {
    hide RetainedBytes; hide SumMap; hide Stamped; hide Bounded;
    RetainedBytesAreExact(w.cache, w.env, w.known);
    var slots := IndexSlots(w.cache.states);
    var counted := Referenced(slots, w.known.indexes, w.env.indexes);
    assert forall id :: id in w.lost ==> id !in CachedIds(slots);
    assert Referenced(slots, AllKnown(w).indexes, w.env.indexes) == counted + Uncounted(w);
    SumOfDisjoint(counted, Uncounted(w), BytesOf);
  }

  // ----- the main results over runs -----

  /** In every run, at every moment: what the cache adds up is exactly what is in memory but for
      the indexes it lost, and it never retains more than `max_indexes` indexes (one, if that is
      zero). */
  lemma AccountingIsExactOverRuns(worlds: seq<World>, events: seq<Event>, n: nat)
    requires IsRun(worlds, events) && n < |worlds|
    ensures var w := worlds[n];
            && MemoryInUse(w) == RetainedBytes(w.cache, w.env) + UncountedBytes(w)
            && |IndexSlots(w.cache.states)| <= (if w.cache.limits.maxIndexes == 0 then 1 else w.cache.limits.maxIndexes)
  {
    RunSound(worlds, events, n);
    MemoryIsCountedOrLost(worlds[n]);
  }

  /** The index that a publication stores over in this event. */
  function StoredOver(w: World, event: Event): Option<Slot> {
    if event.Called? && event.operation.PublishIndex? then
      Overwritten(w.cache, event.operation.root, event.operation.generation, event.operation.bytes)
    else None
  }

  /** An earlier publication of the run stored over this index. */
  ghost predicate WasStoredOver(worlds: seq<World>, events: seq<Event>, n: nat, slot: Slot)
    requires |worlds| == |events| + 1
  {
    exists k :: 0 <= k < n && k < |events| && StoredOver(worlds[k], events[k]) == Some(slot)
  }

  lemma LostInStep(w: World, event: Event, after: World)
    requires Step(w, event, after)
    ensures var gone := StoredOver(w, event);
            after.lost == if gone.Some? then w.lost[gone.value.id := gone.value] else w.lost
  {
    hide InstallRunner; hide DiscardProject; hide InvalidateAfterMaven; hide LookupIndex; hide Reserve; hide Publish;
    hide FinishFailed;
  }

  /** A step stores over an index it knows, never over a lost one. */
  lemma StoredOverIsKnown(w: World, event: Event)
    requires InvW(w) && StoredOver(w, event).Some?
    ensures StoredOver(w, event).value.id !in w.lost
  {
    hide Exact; hide Stamped;
    RetainedIsKnown(w.cache, w.env, w.known, event.operation.root);
  }

  /** The lost indexes are those that publications of the run stored over. */
  lemma {:induction false} LostWereStoredOver(worlds: seq<World>, events: seq<Event>, n: nat, slot: Slot)
    requires IsRun(worlds, events) && n < |worlds|
    ensures (slot.id in worlds[n].lost && worlds[n].lost[slot.id] == slot) <==> WasStoredOver(worlds, events, n, slot)
    decreases n
  {
    hide Step; hide InvW; hide StoredOver;
    if n > 0 {
      LostWereStoredOver(worlds, events, n - 1, slot);
      RunSound(worlds, events, n - 1);
      LostInStep(worlds[n - 1], events[n - 1], worlds[n]);
      var gone := StoredOver(worlds[n - 1], events[n - 1]);
      if gone.Some? {
        StoredOverIsKnown(worlds[n - 1], events[n - 1]);
        if gone == Some(slot) { assert WasStoredOver(worlds, events, n, slot); }
      }
      if WasStoredOver(worlds, events, n - 1, slot) {
        var k :| 0 <= k < n - 1 && k < |events| && StoredOver(worlds[k], events[k]) == Some(slot);
        assert WasStoredOver(worlds, events, n, slot);
      }
    }
  }

  /** In every run, the cache's sum is the memory in use if and only if nobody still holds an
      index, of at least one byte, that a publication stored over. */
  lemma AccountingIsExactIff(worlds: seq<World>, events: seq<Event>, n: nat)
    requires IsRun(worlds, events) && n < |worlds|
    ensures var w := worlds[n];
            RetainedBytes(w.cache, w.env) == MemoryInUse(w) <==>
              (forall slot: Slot :: WasStoredOver(worlds, events, n, slot) && slot.id in w.env.indexes ==> slot.bytes == 0)
  {
    hide Step; hide RetainedBytes; hide InMemoryBytes; hide SumMap; hide WasStoredOver; hide InvW;
    var w := worlds[n];
    AccountingIsExactOverRuns(worlds, events, n);
    SumIsZeroIff(Uncounted(w), BytesOf);
    LostSlotsCarryTheirId(worlds, events, n);
    forall slot: Slot ensures (slot.id in w.lost && w.lost[slot.id] == slot) <==> WasStoredOver(worlds, events, n, slot) {
      LostWereStoredOver(worlds, events, n, slot);
    }
    if UncountedBytes(w) > 0 {
      var id :| id in Uncounted(w) && BytesOf(Uncounted(w)[id]) != 0;
      assert WasStoredOver(worlds, events, n, w.lost[id]);
    } else {
      forall slot: Slot | WasStoredOver(worlds, events, n, slot) && slot.id in w.env.indexes ensures slot.bytes == 0 {
        assert slot.id in Uncounted(w) && BytesOf(Uncounted(w)[slot.id]) == 0;
      }
    }
  }

  lemma {:induction false} LostSlotsCarryTheirId(worlds: seq<World>, events: seq<Event>, n: nat)
    requires IsRun(worlds, events) && n < |worlds|
    ensures forall id :: id in worlds[n].lost ==> worlds[n].lost[id].id == id
    decreases n
  {
    hide Step; hide StoredOver;
    if n > 0 {
      LostSlotsCarryTheirId(worlds, events, n - 1);
      LostInStep(worlds[n - 1], events[n - 1], worlds[n]);
    }
  }

  lemma {:induction false} LimitsAreFixed(worlds: seq<World>, events: seq<Event>, n: nat)
    requires IsRun(worlds, events) && n < |worlds|
    ensures worlds[n].cache.limits == worlds[0].cache.limits
  {
    hide InvW; hide Step; hide Fresh;
    if n != 0 {
      LimitsAreFixed(worlds, events, n - 1);
      RunSound(worlds, events, n - 1);
      StepSound(worlds[n - 1], events[n - 1], worlds[n]);
    }
  }

  /** A build that was granted its memory, and an index that was retained, fit the budget with
      everything in memory that is not lost. */
  lemma AcceptedFitsTheBudget(worlds: seq<World>, events: seq<Event>, n: nat)
    requires IsRun(worlds, events) && n < |events| && events[n].Called?
    ensures var allowed := worlds[0].cache.limits.maxBytes + UncountedBytes(worlds[n + 1]);
            match events[n].operation
            case ReserveFor(root, generation, bytes) =>
              ReserveResult(worlds[n], root, generation, bytes).Reserved? ==> MemoryInUse(worlds[n + 1]) <= allowed
            case PublishIndex(root, generation, index, bytes, fingerprint, reservation) =>
              PublishResult(worlds[n], root, generation, index, bytes, fingerprint, reservation) == Retained ==>
                MemoryInUse(worlds[n + 1]) <= allowed
            case _ => true
  {
    hide RetainedBytes; hide MemoryInUse; hide UncountedBytes; hide Reserve; hide Publish; hide Accounted; hide Stamped;
    hide Bounded;
    var w := worlds[n];
    RunSound(worlds, events, n);
    LimitsAreFixed(worlds, events, n);
    AccountingIsExactOverRuns(worlds, events, n + 1);
    assert Step(w, events[n], worlds[n + 1]);
    match events[n].operation {
      case ReserveFor(root, generation, bytes) =>
        ReservationFits(w.cache, w.env, w.known, root, generation, bytes);
      case PublishIndex(root, generation, index, bytes, fingerprint, reservation) =>
        var left := w.(env := WithoutReservation(w.env, reservation));
        HoldersMoveSound(w, left);
        if PublishResult(w, root, generation, index, bytes, fingerprint, reservation) == Retained {
          RetainedFits(w.cache, left.env, w.known, root, generation, index, bytes, fingerprint);
        }
      case _ =>
    }
  }

  ghost predicate Advances(w: World, event: Event, after: World) {
    && Succeeds(w.env, Ending(event), w.cache, after.cache)
    && forall root :: Invalidates(w, event, root) ==> Renewed(w.cache, after.cache, root)
  }

  ghost predicate AllAdvance(worlds: seq<World>, events: seq<Event>) {
    && |worlds| == |events| + 1
    && forall i :: 0 <= i < |events| ==> Advances(worlds[i], events[i], worlds[i + 1])
  }

  lemma RunAdvances(worlds: seq<World>, events: seq<Event>)
    requires IsRun(worlds, events)
    ensures AllAdvance(worlds, events)
  {
    forall i | 0 <= i < |events| ensures Advances(worlds[i], events[i], worlds[i + 1]) {
      RunSound(worlds, events, i);
      assert Step(worlds[i], events[i], worlds[i + 1]);
      hide InvW; hide Step; hide Succeeds;
      StepSound(worlds[i], events[i], worlds[i + 1]);
    }
  }

  /** A current generation was current all along and its project was never invalidated. */
  lemma {:induction false} CurrentSinceHandedOut(worlds: seq<World>, events: seq<Event>, i: nat, j: nat, root: Path, generation: nat)
    requires AllAdvance(worlds, events) && i <= j <= |events|
    requires generation <= worlds[i].cache.nextGeneration && IsCurrent(worlds[j].cache, root, generation)
    ensures forall k :: i <= k <= j ==> IsCurrent(worlds[k].cache, root, generation)
    ensures forall k :: i <= k < j ==> !Invalidates(worlds[k], events[k], root)
    decreases j
  {
    if i < j {
      GenerationsOnlyGrow(worlds, events, i, j - 1);
      assert Advances(worlds[j - 1], events[j - 1], worlds[j]);
      assert IsCurrent(worlds[j - 1].cache, root, generation) && !Invalidates(worlds[j - 1], events[j - 1], root);
      hide Advances; hide Invalidates;
      CurrentSinceHandedOut(worlds, events, i, j - 1, root, generation);
    }
  }

  lemma {:induction false} GenerationsOnlyGrow(worlds: seq<World>, events: seq<Event>, i: nat, j: nat)
    requires AllAdvance(worlds, events) && i <= j <= |events|
    ensures worlds[i].cache.nextGeneration <= worlds[j].cache.nextGeneration
    decreases j
  {
    if i < j {
      GenerationsOnlyGrow(worlds, events, i, j - 1);
      assert Advances(worlds[j - 1], events[j - 1], worlds[j]);
    }
  }

  /** A generation a lookup hands out has been given by the cache. */
  lemma HandedOutIsKnown(w: World, event: Event, after: World)
    requires InvW(w) && Step(w, event, after) && event.Called? && event.operation.LookUp?
    ensures LookUpResult(w, event.operation.root, event.operation.fingerprint).generation <= after.cache.nextGeneration
  {
    hide Invalidates;
    var lookup := event.operation;
    StepSound(w, event, after);
    LookupIndexSound(w.cache, w.env, w.known, lookup.root, lookup.fingerprint);
    assert StampedState(after.cache, after.cache.states[lookup.root]);
  }

  lemma AcceptedIsCurrent(w: World, root: Path, generation: nat, index: Id, bytes: nat, fingerprint: Fingerprint, reservation: Id)
    requires PublishResult(w, root, generation, index, bytes, fingerprint, reservation) != PublishStale
    ensures IsCurrent(w.cache, root, generation)
  {
    hide Enforce; hide RetainedBytes;
  }

  /** An index is published only for a generation that nothing invalidated since a lookup
      handed it out, although evictions may have dropped and recreated project states. */
  lemma PublicationIsNeverStale(worlds: seq<World>, events: seq<Event>, i: nat, j: nat)
    requires IsRun(worlds, events) && i < j < |events|
    requires events[i].Called? && events[i].operation.LookUp? && events[j].Called? && events[j].operation.PublishIndex?
    requires var lookup := events[i].operation;
             var publish := events[j].operation;
             && publish.root == lookup.root
             && publish.generation == LookUpResult(worlds[i], lookup.root, lookup.fingerprint).generation
             && PublishResult(worlds[j], publish.root, publish.generation, publish.index, publish.bytes,
                              publish.fingerprint, publish.reservation) != PublishStale
    ensures forall k :: i < k < j ==> !Invalidates(worlds[k], events[k], events[j].operation.root)
    ensures forall k :: i < k <= j ==> IsCurrent(worlds[k].cache, events[j].operation.root, events[j].operation.generation)
  {
    hide InvW; hide Step; hide After; hide LookUpResult; hide PublishResult; hide Invalidates; hide Fresh;
    var lookup, publish := events[i].operation, events[j].operation;
    assert Step(worlds[i], events[i], worlds[i + 1]);
    assert Step(worlds[j], events[j], worlds[j + 1]);
    RunSound(worlds, events, i);
    HandedOutIsKnown(worlds[i], events[i], worlds[i + 1]);
    AcceptedIsCurrent(worlds[j], publish.root, publish.generation, publish.index, publish.bytes, publish.fingerprint,
                      publish.reservation);
    RunAdvances(worlds, events);
    CurrentSinceHandedOut(worlds, events, i + 1, j, publish.root, publish.generation);
  }

  /** Operations of a build whose generation has passed leave the newer one alone: only
      `finish_failed` may evict, and that never touches a live marker or a generation. */
  lemma StaleBuildsChangeNothing(w: World, root: Path, generation: nat, index: Id, bytes: nat, fingerprint: Fingerprint)
    requires InvW(w) && !IsCurrent(w.cache, root, generation)
    ensures Publish(w.cache, w.env, root, generation, index, bytes, fingerprint) == (Prune(w.cache, w.env), PublishStale)
    ensures Reserve(w.cache, w.env, root, generation, bytes) == (Prune(w.cache, w.env), ReserveStale)
    ensures InvalidateGeneration(w.cache, w.env, root, generation) == w.cache
    ensures FinishFullRebuild(w.cache, root, generation) == w.cache
    ensures FinishFailed(w.cache, w.env, root, generation) == Enforce(w.cache, w.env, None)
    ensures Shrinks(w.env, w.cache, Enforce(w.cache, w.env, None))
    ensures forall p :: p in w.cache.states ==>
              && p in Prune(w.cache, w.env).states
              && Prune(w.cache, w.env).states[p].(inFlight := None) == w.cache.states[p].(inFlight := None)
              && (HasLiveMarker(w.env, w.cache.states[p]) ==> Prune(w.cache, w.env).states[p] == w.cache.states[p])
  {
    EnforceSound(w.cache, w.env, w.known, None);
    StaleOperations(w.cache, w.env, root, generation, index, bytes, fingerprint);
    PruningOnlyUnmarks(w.cache, w.env);
    hide *;
  }

  lemma StaleOperations(c: Cache, env: Holders, root: Path, generation: nat, index: Id, bytes: nat, fingerprint: Fingerprint)
    requires !IsCurrent(c, root, generation)
    ensures Publish(c, env, root, generation, index, bytes, fingerprint) == (Prune(c, env), PublishStale)
    ensures Reserve(c, env, root, generation, bytes) == (Prune(c, env), ReserveStale)
    ensures InvalidateGeneration(c, env, root, generation) == c
    ensures FinishFullRebuild(c, root, generation) == c
    ensures FinishFailed(c, env, root, generation) == Enforce(c, env, None)
  {
    hide RetainedBytes; hide Enforce; hide MakeRoom; hide Live; hide StrongIndexes; hide StrongRunners;
  }

  lemma PruningOnlyUnmarks(c: Cache, env: Holders)
    ensures forall p :: p in c.states ==>
              && p in Prune(c, env).states
              && Prune(c, env).states[p].(inFlight := None) == c.states[p].(inFlight := None)
              && (HasLiveMarker(env, c.states[p]) ==> Prune(c, env).states[p] == c.states[p])
  {
    hide Live; hide StrongIndexes; hide StrongRunners;
  }

  /** A live marker survives every operation that does not end its build, and every lookup of its
      project joins it: whatever the lookup's fingerprint, there is no index to answer with. */
  lemma LiveMarkerIsShared(w: World, root: Path, fingerprint: Fingerprint)
    requires InvW(w) && root in w.cache.states && HasLiveMarker(w.env, w.cache.states[root])
    ensures var marker := w.cache.states[root].inFlight.value;
            LookUpResult(w, root, fingerprint) == Build(marker.cell, marker.owner, w.cache.states[root].generation)
  {
    StateIsStamped(w, root);
    hide InvW;
  }

  lemma StateIsStamped(w: World, root: Path)
    requires InvW(w) && root in w.cache.states
    ensures StampedState(w.cache, w.cache.states[root])
  {}
}
