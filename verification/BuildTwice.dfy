/** A generation that is built twice. The first build is cancelled while it persists, and a request
    that waited in its cell builds again: it stores over the index that the first publication left,
    whose holders the cache counts no longer, or runs beside a build of the next round. */
module BuildTwice {
  import opened Common
  import opened Ledger
  import opened CacheModel
  import opened CacheInvariant
  import opened CacheOperations
  import opened CachePublication
  import opened CacheRuns
  import opened BuildProtocol
  import opened BuildRounds

  ghost predicate IsFragment(states: seq<System>, moves: seq<Move>) {
    && |states| == |moves| + 1
    && forall i :: 0 <= i < |moves| ==> Next(states[i], moves[i], states[i + 1])
  }

  /** Two requests in one cell, of which the first has published and still persists its build. */
  ghost predicate Succession(s: System, first: nat, waiter: nat) {
    && first in s.parties && waiter in s.parties
    && var (p, q) := (s.parties[first], s.parties[waiter]);
    && p.phase == Published && q.phase == Waiting
    && p.root == q.root && p.generation == q.generation && p.cell == q.cell && p.owner == q.owner
    && p.cell !in s.settled && IsCurrent(s.world.cache, q.root, q.generation)
  }

  /** With the first request gone, nobody else builds in its cell or holds its lock. */
  lemma SuccessorMayBuild(parties: map<nat, Party>, first: nat, waiter: nat, task: nat)
    requires Exclusive(parties) && first in parties && waiter in parties && task !in parties
    requires var (p, q) := (parties[first], parties[waiter]);
             p.phase == Published && q.phase == Waiting && p.cell == q.cell && p.owner == q.owner
    ensures var (left, q) := (AfterCancel(parties, first, false, task), parties[waiter]);
            && waiter in left && left[waiter] == q && IsIdle(left, q.cell)
            && q.owner !in LocksOf(left[waiter := q.(phase := Initializing)])
  {
  }

  /** Cancelled while it persists, a published build is built again by a request that waited in its
      cell, and the second publication stores over what the first one left. */
  lemma WaiterPublishesAgain(s: System, first: nat, waiter: nat, task: nat, index: Id, bytes: nat, fingerprint: Fingerprint,
                             reservation: Id)
    returns (states: seq<System>, moves: seq<Move>)
    requires SystemInv(s) && Succession(s, first, waiter) && task !in s.parties
    requires index !in s.world.known.indexes && index !in s.world.lost && index in s.world.env.indexes
    requires bytes <= s.world.cache.limits.maxBytes
    ensures moves == [Cancel(first, false, task), Begin(waiter), Acquire(waiter),
                      Publishes(waiter, index, bytes, fingerprint, reservation)]
    ensures IsFragment(states, moves) && states[0] == s
    ensures var gone := RetainedSlot(s.world.cache, s.parties[waiter].root);
            && states[4].world.lost == (if gone.Some? then s.world.lost[gone.value.id := gone.value] else s.world.lost)
            && states[4].world.env.indexes == s.world.env.indexes
  {
    hide SystemInv; hide Publish; hide CellsOf; hide LocksOf; hide IsFragment; hide Next; hide IsCurrent; hide RetainedSlot;
    var left, begun, locked := WaiterTakesOver(s, first, waiter, task);
    var q := s.parties[waiter];
    var published := PublishesOnce(locked, waiter, q, index, bytes, fingerprint, reservation);
    states := [s, left, begun, locked, published];
    moves := [Cancel(first, false, task), Begin(waiter), Acquire(waiter),
              Publishes(waiter, index, bytes, fingerprint, reservation)];
    FourMoves(states, moves);
  }

  lemma FourMoves(states: seq<System>, moves: seq<Move>)
    requires |states| == 5 && |moves| == 4
    requires Next(states[0], moves[0], states[1]) && Next(states[1], moves[1], states[2])
    requires Next(states[2], moves[2], states[3]) && Next(states[3], moves[3], states[4])
    ensures IsFragment(states, moves)
  {
    hide Next;
  }

  lemma WaiterTakesOver(s: System, first: nat, waiter: nat, task: nat) returns (left: System, begun: System, locked: System)
    requires SystemInv(s) && task !in s.parties && first in s.parties && waiter in s.parties
    requires var (p, q) := (s.parties[first], s.parties[waiter]);
             && p.phase == Published && q.phase == Waiting && p.cell == q.cell && p.owner == q.owner && p.cell !in s.settled
    ensures Next(s, Cancel(first, false, task), left) && Next(left, Begin(waiter), begun) && Next(begun, Acquire(waiter), locked)
    ensures locked.parties == AfterCancel(s.parties, first, false, task)[waiter := s.parties[waiter].(phase := Building)]
    ensures locked.world.cache == s.world.cache && locked.world.known == s.world.known && locked.world.lost == s.world.lost
    ensures locked.world.env.indexes == s.world.env.indexes
  {
    hide Next; hide InvW; hide Traced; hide LocksOf; hide CellsOf; hide IsCurrent; hide IsIdle;
    SuccessorMayBuild(s.parties, first, waiter, task);
    hide Exclusive;
    var q := s.parties[waiter];
    left := With(s, AfterCancel(s.parties, first, false, task));
    CancelMove(s, first, task);
    begun := Set(left, waiter, q.(phase := Initializing));
    BeginMove(left, waiter);
    locked := Set(begun, waiter, q.(phase := Building));
    AcquireMove(begun, waiter);
  }

  lemma CancelMove(s: System, id: nat, task: nat)
    requires id in s.parties && s.parties[id].phase == Published && task !in s.parties
    ensures Next(s, Cancel(id, false, task), With(s, AfterCancel(s.parties, id, false, task)))
  {
    hide With;
  }

  lemma BeginMove(s: System, id: nat)
    requires id in s.parties && s.parties[id].phase == Waiting && s.parties[id].cell !in s.settled
    requires IsIdle(s.parties, s.parties[id].cell)
    ensures Next(s, Begin(id), Set(s, id, s.parties[id].(phase := Initializing)))
  {
    hide Set; hide IsIdle;
  }

  lemma AcquireMove(s: System, id: nat)
    requires id in s.parties && s.parties[id].phase == Initializing && s.parties[id].owner !in LocksOf(s.parties)
    ensures Next(s, Acquire(id), Set(s, id, s.parties[id].(phase := Building)))
  {
    hide Set; hide LocksOf;
  }

  lemma PublishesOnce(s: System, id: nat, q: Party, index: Id, bytes: nat, fingerprint: Fingerprint, reservation: Id)
    returns (after: System)
    requires id in s.parties && s.parties[id] == q.(phase := Building) && IsCurrent(s.world.cache, q.root, q.generation)
    requires index !in s.world.known.indexes && index !in s.world.lost && index in s.world.env.indexes
    requires bytes <= s.world.cache.limits.maxBytes
    ensures Next(s, Publishes(id, index, bytes, fingerprint, reservation), after)
    ensures var gone := RetainedSlot(s.world.cache, q.root);
            && after.world.lost == (if gone.Some? then s.world.lost[gone.value.id := gone.value] else s.world.lost)
            && after.world.env.indexes == s.world.env.indexes
  {
    hide Publish; hide CellsOf; hide LocksOf;
    CurrentIsAccepted(s.world, q.root, q.generation, index, bytes, fingerprint, reservation);
    var operation := PublishIndex(q.root, q.generation, index, bytes, fingerprint, reservation);
    after := Set(s.(world := After(s.world, operation), ended := s.ended + {(q.root, q.cell)}), id, q.(phase := Published));
  }

  lemma CurrentIsAccepted(w: World, root: Path, generation: nat, index: Id, bytes: nat, fingerprint: Fingerprint, reservation: Id)
    requires IsCurrent(w.cache, root, generation)
    ensures PublishResult(w, root, generation, index, bytes, fingerprint, reservation) != PublishStale
  {
    hide Enforce; hide RetainedBytes;
  }

  // ----- from the start -----

  /** The first index a cache is given is retained if it fits. */
  lemma FirstIndexIsRetained(w: World, root: Path, generation: nat, index: Id, bytes: nat, fingerprint: Fingerprint, reservation: Id)
    requires InvW(w) && w.known == Known(map[], map[], map[]) && IsCurrent(w.cache, root, generation)
    requires bytes <= w.cache.limits.maxBytes
    ensures PublishResult(w, root, generation, index, bytes, fingerprint, reservation) == Retained
  {
    hide Publish; hide RetainedBytes; hide Stamped; hide Succeeds; hide Enforce; hide Exact;
    var env := WithoutReservation(w.env, reservation);
    var pruned := Prune(w.cache, env);
    var entry := CachedIndex(index, fingerprint, bytes);
    HoldersMoveSound(w, w.(env := env));
    PublishCases(w.cache, env, root, generation, index, bytes, fingerprint);
    PruneSound(w.cache, env, w.known);
    NothingRetained(pruned, env, root);
    StoredSound(pruned, env, w.known, root, entry);
    var known := WithIndex(w.known, index, bytes);
    var enforced := Enforce(Stored(pruned, root, entry), env, Some(root));
    EnforceSound(Stored(pruned, root, entry), env, known, Some(root));
    RetainedBytesAreExact(enforced, env, known);
    OnlyIndexWeighs(enforced, env, index, bytes);
  }

  lemma NothingRetained(c: Cache, env: Holders, root: Path)
    requires Accounted(c, env, Known(map[], map[], map[]))
    ensures RetainedSlot(c, root).None?
  {
    if RetainedSlot(c, root).Some? { RetainedIsKnown(c, env, Known(map[], map[], map[]), root); }
  }

  lemma OnlyIndexWeighs(c: Cache, env: Holders, index: Id, bytes: nat)
    ensures InMemoryBytes(c, env, WithIndex(Known(map[], map[], map[]), index, bytes)) <= bytes
  {
    var weighed := Referenced(IndexSlots(c.states), map[index := Slot(index, bytes)], env.indexes);
    if index in weighed {
      SumMapRemove(weighed, BytesOf, index);
      assert weighed - {index} == map[];
    } else {
      assert weighed == map[];
    }
    assert Referenced(RunnerSlots(c.states), map[], env.runners) == map[];
    assert Referenced(NO_SLOTS, map[], env.reservations) == map[];
  }

  /** An empty cache; somebody already made the two indexes that will be published. */
  function Beginning(limits: Limits): System {
    System(World(Cache(limits, map[], [], [], [], 0, 0, 0, 0, 0, 0, 0), Holders({1, 2}, {}, {}, {}, {}, map[]),
                 Known(map[], map[], map[]), map[]), map[], {}, {})
  }

  /** A lookup of a project that retains no index waits in a cell. */
  lemma Misses(s: System, id: nat, root: Path, fingerprint: Fingerprint) returns (after: System)
    requires SystemInv(s) && id !in s.parties && RetainedSlot(s.world.cache, root).None?
    ensures Next(s, Miss(id, root, fingerprint), after) && SystemInv(after)
    ensures var reply := LookUpResult(s.world, root, fingerprint);
            && reply.Build? && after.parties == s.parties[id := Party(root, reply.generation, reply.cell, reply.owner, Waiting)]
            && IsCurrent(after.world.cache, root, reply.generation)
            && after.world.cache.states[root].inFlight == Some(InFlight(reply.generation, reply.cell, reply.owner))
    ensures after.world.known == s.world.known && after.world.lost == s.world.lost && after.settled == s.settled
    ensures after.world.env.indexes == s.world.env.indexes && after.world.cache.limits == s.world.cache.limits
  {
    hide InvW; hide Traced; hide Exclusive; hide Invalidate;
    var reply := LookUpResult(s.world, root, fingerprint);
    var looked := s.(world := After(s.world, LookUp(root, fingerprint)));
    after := Set(looked, id, Party(root, reply.generation, reply.cell, reply.owner, Waiting));
    assert Next(s, Miss(id, root, fingerprint), after);
    MissLeavesMarker(s.world, root, fingerprint);
    MissKeepsInv(s, after, id, root, fingerprint);
  }

  lemma MarkedIsShared(s: System, id: nat, root: Path, fingerprint: Fingerprint)
    requires SystemInv(s) && id in s.parties && s.parties[id].root == root && !IsTask(s.parties[id])
    requires IsCurrent(s.world.cache, root, s.parties[id].generation) && Marked(s.world.cache, s.parties[id])
    ensures RetainedSlot(s.world.cache, root).None?
    ensures LookUpResult(s.world, root, fingerprint) == Build(s.parties[id].cell, s.parties[id].owner, s.parties[id].generation)
  {
    PartiesBackMarkers(s);
    StateIsStamped(s.world, root);
    LiveMarkerIsShared(s.world, root, fingerprint);
  }

  lemma Builds(s: System, p: Party) returns (begun: System, locked: System)
    requires SystemInv(s) && s.parties == map[0 := p, 1 := p] && p.phase == Waiting && p.cell !in s.settled
    ensures Next(s, Begin(0), begun) && Next(begun, Acquire(0), locked) && SystemInv(locked)
    ensures locked.parties == map[0 := p.(phase := Building), 1 := p] && locked.world.cache == s.world.cache
    ensures locked.world.known == s.world.known && locked.world.lost == s.world.lost && locked.settled == s.settled
    ensures locked.world.env.indexes == s.world.env.indexes
  {
    hide InvW; hide Traced; hide Exclusive;
    begun := Set(s, 0, p.(phase := Initializing));
    assert Next(s, Begin(0), begun);
    locked := Set(begun, 0, p.(phase := Building));
    assert Next(begun, Acquire(0), locked);
    NextKeepsInv(s, Begin(0), begun);
    NextKeepsInv(begun, Acquire(0), locked);
  }

  /** A party builds, the cache retains nothing of its project, and another one waits in the same cell. */
  ghost predicate Alone(s: System, p: Party) {
    && SystemInv(s) && s.parties == map[0 := p.(phase := Building), 1 := p.(phase := Waiting)]
    && IsCurrent(s.world.cache, p.root, p.generation) && s.settled == {}
    && s.world.known == Known(map[], map[], map[]) && s.world.lost == map[] && s.world.env.indexes == {1, 2}
  }

  /** Two requests wait in one cell, and the first of them comes to build. */
  lemma FirstBuilds(limits: Limits, root: Path, fingerprint: Fingerprint) returns (states: seq<System>, moves: seq<Move>, p: Party)
    ensures moves == [Miss(0, root, fingerprint), Miss(1, root, fingerprint), Begin(0), Acquire(0)]
    ensures IsFragment(states, moves) && states[0] == Beginning(limits)
    ensures Alone(states[4], p) && p.root == root && states[4].world.cache.limits == limits
  {
    hide InvW; hide Traced; hide After; hide LookUpResult; hide Exclusive; hide Next;
    var s0 := Beginning(limits);
    BeginningStarts(limits);
    StartInv(s0);
    var s1 := Misses(s0, 0, root, fingerprint);
    p := s1.parties[0];
    MarkedIsShared(s1, 0, root, fingerprint);
    var s2 := Misses(s1, 1, root, fingerprint);
    assert s2.parties == map[0 := p, 1 := p];
    var s3, s4 := Builds(s2, p);
    states, moves := [s0, s1, s2, s3, s4], [Miss(0, root, fingerprint), Miss(1, root, fingerprint), Begin(0), Acquire(0)];
  }

  /** The first request publishes index 1 and goes on to persist it; a third one looks it up. */
  lemma FirstIsLookedUp(s: System, root: Path, fingerprint: Fingerprint, p: Party) returns (published: System, shared: System)
    requires Alone(s, p) && p.root == root && 1 <= s.world.cache.limits.maxBytes
    ensures Next(s, Publishes(0, 1, 1, fingerprint, 0), published)
    ensures Next(published, Other(LookUp(root, fingerprint)), shared)
    ensures SystemInv(shared) && Succession(shared, 0, 1) && shared.parties[1].root == root && shared.parties.Keys == {0, 1}
    ensures RetainedSlot(shared.world.cache, root) == Some(Slot(1, 1))
    ensures 2 !in shared.world.known.indexes && shared.world.lost == map[] && shared.world.env.indexes == {1, 2}
    ensures shared.world.cache.limits == s.world.cache.limits
  {
    hide InvW; hide Traced; hide Publish; hide Exclusive;
    var publish := PublishIndex(root, p.generation, 1, 1, fingerprint, 0);
    published := Set(s.(world := After(s.world, publish), ended := s.ended + {(root, p.cell)}), 0, p.(phase := Published));
    FirstIsKept(s.world, root, p.generation, fingerprint);
    assert Next(s, Publishes(0, 1, 1, fingerprint, 0), published);
    PublishesKeepsInv(s, Publishes(0, 1, 1, fingerprint, 0), published);
    var lookup := LookUp(root, fingerprint);
    shared := published.(world := After(published.world, lookup));
    RetainedIsAnswered(published.world, root, fingerprint);
    assert Next(published, Other(lookup), shared);
    OtherKeepsInv(published, shared, lookup);
  }

  lemma FirstIsKept(w: World, root: Path, generation: nat, fingerprint: Fingerprint)
    requires InvW(w) && w.known == Known(map[], map[], map[]) && w.lost == map[] && IsCurrent(w.cache, root, generation)
    requires 1 <= w.cache.limits.maxBytes
    ensures PublishResult(w, root, generation, 1, 1, fingerprint, 0) == Retained
    ensures var after := After(w, PublishIndex(root, generation, 1, 1, fingerprint, 0));
            && IsCurrent(after.cache, root, generation) && after.cache.limits == w.cache.limits
            && after.cache.states[root].index == Some(CachedIndex(1, fingerprint, 1))
            && after.known.indexes.Keys == {1} && after.lost == map[] && after.env.indexes == w.env.indexes
  {
    hide Publish; hide RetainedBytes; hide Stamped; hide Exact;
    FirstIndexIsRetained(w, root, generation, 1, 1, fingerprint, 0);
    var env := WithoutReservation(w.env, 0);
    HoldersMoveSound(w, w.(env := env));
    RetainedFits(w.cache, env, w.known, root, generation, 1, 1, fingerprint);
    NothingRetained(w.cache, w.env, root);
    PublishSound(w.cache, env, w.known, root, generation, 1, 1, fingerprint);
  }

  lemma RetainedIsAnswered(w: World, root: Path, fingerprint: Fingerprint)
    requires root in w.cache.states && w.cache.states[root].index.Some?
    requires w.cache.states[root].index.value.project == fingerprint
    ensures LookUpResult(w, root, fingerprint).Cached?
    ensures var after := After(w, LookUp(root, fingerprint));
            && root in after.cache.states && after.cache.states[root].index == w.cache.states[root].index
            && after.cache.states[root].generation == w.cache.states[root].generation
            && after.env.indexes == w.env.indexes + {w.cache.states[root].index.value.index}
            && after.known == w.known && after.lost == w.lost && after.cache.limits == w.cache.limits
  {}

  /** An execution that ends with the second publication: index 1, which the third request still
      holds, is in no list of the cache, so the cache counts less than is in memory. */
  lemma SecondPublicationLosesTheFirst(limits: Limits, root: Path, fingerprint: Fingerprint)
    returns (states: seq<System>, moves: seq<Move>)
    requires 1 <= limits.maxBytes
    ensures IsExecution(states, moves) && |moves| == 10
    ensures moves[4] == Publishes(0, 1, 1, fingerprint, 0) && moves[9] == Publishes(1, 2, 1, fingerprint, 0)
    ensures var w := states[10].world; RetainedBytes(w.cache, w.env) < MemoryInUse(w)
  {
    hide SystemInv; hide Next; hide RetainedBytes; hide MemoryInUse; hide Beginning;
    var p;
    var (before: seq<System>, first: seq<Move>) := ([], []);
    before, first, p := FirstBuilds(limits, root, fingerprint);
    var published, shared := FirstIsLookedUp(before[4], root, fingerprint, p);
    var after, second := WaiterPublishesAgain(shared, 0, 1, 2, 2, 1, fingerprint, 0);
    states := before + [published] + after;
    moves := first + [Publishes(0, 1, 1, fingerprint, 0), Other(LookUp(root, fingerprint))] + second;
    Joined(before, first, published, Publishes(0, 1, 1, fingerprint, 0), Other(LookUp(root, fingerprint)), after, second);
    BeginningStarts(limits);
    ExecutionKeepsInv(states, moves, 10);
    assert states[10] == after[4];
    LostIsUncounted(after[4], 1);
  }

  lemma BeginningStarts(limits: Limits)
    ensures Start(Beginning(limits))
  {}

  lemma Joined(before: seq<System>, first: seq<Move>, published: System, publish: Move, lookup: Move, after: seq<System>,
               second: seq<Move>)
    requires IsFragment(before, first) && IsFragment(after, second) && |before| > 0
    requires Next(before[|before| - 1], publish, published) && Next(published, lookup, after[0])
    ensures IsFragment(before + [published] + after, first + [publish, lookup] + second)
  {
    hide Next;
    var (states, moves) := (before + [published] + after, first + [publish, lookup] + second);
    var n := |first|;
    forall i | 0 <= i < |moves| ensures Next(states[i], moves[i], states[i + 1]) {
      if i < n {
        assert states[i] == before[i] && moves[i] == first[i] && states[i + 1] == before[i + 1];
      } else if i >= n + 2 {
        assert states[i] == after[i - n - 2] && moves[i] == second[i - n - 2] && states[i + 1] == after[i - n - 1];
      }
    }
  }

  lemma LostIsUncounted(s: System, id: Id)
    requires SystemInv(s) && id in s.world.lost && id in s.world.env.indexes && s.world.lost[id].bytes > 0
    ensures RetainedBytes(s.world.cache, s.world.env) < MemoryInUse(s.world)
  {
    hide RetainedBytes; hide MemoryInUse; hide InvW; hide SumMap;
    MemoryIsCountedOrLost(s.world);
    SumIsZeroIff(Uncounted(s.world), BytesOf);
    assert id in Uncounted(s.world) && BytesOf(Uncounted(s.world)[id]) > 0;
  }

  // ----- two builds side by side -----

  /** An index larger than the whole budget is not retained: the project keeps its generation, but neither marker nor index. */
  lemma OversizedIsPublished(s: System, p: Party, bytes: nat, fingerprint: Fingerprint) returns (after: System)
    requires Alone(s, p) && bytes > s.world.cache.limits.maxBytes
    ensures Next(s, Publishes(0, 1, bytes, fingerprint, 0), after) && SystemInv(after)
    ensures after.parties == map[0 := p.(phase := Published), 1 := p.(phase := Waiting)]
    ensures IsCurrent(after.world.cache, p.root, p.generation) && !HasMarker(after.world.cache, p.root)
    ensures RetainedSlot(after.world.cache, p.root).None? && after.settled == {}
  {
    hide InvW; hide Publish; hide CellsOf; hide LocksOf; hide Traced; hide Exclusive; hide Synced;
    var operation := PublishIndex(p.root, p.generation, 1, bytes, fingerprint, 0);
    CurrentIsAccepted(s.world, p.root, p.generation, 1, bytes, fingerprint, 0);
    OversizedLeaves(s.world, p.root, p.generation, bytes, fingerprint);
    after := Set(s.(world := After(s.world, operation), ended := s.ended + {(p.root, p.cell)}), 0, p.(phase := Published));
    assert Next(s, Publishes(0, 1, bytes, fingerprint, 0), after);
    PublishesKeepsInv(s, Publishes(0, 1, bytes, fingerprint, 0), after);
  }

  lemma OversizedLeaves(w: World, root: Path, generation: nat, bytes: nat, fingerprint: Fingerprint)
    requires InvW(w) && w.known == Known(map[], map[], map[]) && IsCurrent(w.cache, root, generation)
    requires bytes > w.cache.limits.maxBytes
    ensures var after := After(w, PublishIndex(root, generation, 1, bytes, fingerprint, 0)).cache;
            IsCurrent(after, root, generation) && !HasMarker(after, root) && RetainedSlot(after, root).None?
  {
    hide Publish; hide RetainedBytes; hide Stamped; hide Exact;
    var env := WithoutReservation(w.env, 0);
    NothingRetained(w.cache, w.env, root);
    PublishCases(w.cache, env, root, generation, 1, bytes, fingerprint);
  }

  /** A lookup of a project without marker and index begins another round of the same generation. */
  lemma NextRound(s: System, id: nat, root: Path, generation: nat, fingerprint: Fingerprint) returns (after: System)
    requires SystemInv(s) && id !in s.parties && IsCurrent(s.world.cache, root, generation)
    requires !HasMarker(s.world.cache, root) && RetainedSlot(s.world.cache, root).None?
    ensures Next(s, Miss(id, root, fingerprint), after) && SystemInv(after) && after.settled == s.settled
    ensures var next := s.world.cache.nextId;
            after.parties == s.parties[id := Party(root, generation, next, next, Waiting)]
    ensures IsCurrent(after.world.cache, root, generation)
  {
    after := Misses(s, id, root, fingerprint);
    hide SystemInv; hide Next; hide After;
  }

  lemma Numbered(s: System, id: nat)
    requires SystemInv(s) && id in s.parties
    ensures s.parties[id].cell < s.world.cache.nextId && s.parties[id].owner < s.world.cache.nextId
  {
    hide InvW; hide Synced; hide Exclusive;
    assert KnownParty(s.world.cache, s.parties[id]);
  }

  /** The newcomer builds in its own cell, beside the one that still writes the on-disk cache. */
  lemma NewcomerBuilds(s: System, p: Party, q: Party) returns (begun: System, locked: System)
    requires SystemInv(s) && s.parties == map[0 := p.(phase := Published), 1 := p.(phase := Waiting), 2 := q]
    requires q.phase == Waiting && q.cell != p.cell && q.owner != p.owner && s.settled == {}
    ensures Next(s, Begin(2), begun) && Next(begun, Acquire(2), locked) && SystemInv(locked) && locked.settled == {}
    ensures locked.parties == map[0 := p.(phase := Published), 1 := p.(phase := Waiting), 2 := q.(phase := Building)]
    ensures locked.world.cache == s.world.cache
  {
    hide InvW; hide Traced; hide Exclusive; hide Synced;
    begun := Set(s, 2, q.(phase := Initializing));
    BeginMove(s, 2);
    locked := Set(begun, 2, q.(phase := Building));
    AcquireMove(begun, 2);
    hide Next;
    NextKeepsInv(s, Begin(2), begun);
    NextKeepsInv(begun, Acquire(2), locked);
  }

  /** Two parties at work for one generation, which is current, in different cells and under different locks. */
  ghost predicate SideBySide(s: System, i: nat, j: nat) {
    && i != j && IsIn(s, i, {Building}) && IsIn(s, j, {Building})
    && var (p, q) := (s.parties[i], s.parties[j]);
    && p.root == q.root && p.generation == q.generation && p.cell != q.cell && p.owner != q.owner
    && IsCurrent(s.world.cache, p.root, p.generation)
  }

  /** An execution that ends with two builds of one current generation at work side by side, neither of which has published
      or failed: an index that exceeds the budget ends the first round, a newcomer builds in the second one, and when the
      first request is cancelled, a waiter of the first round builds too, under the old lock. */
  lemma TwoBuildsSideBySide(limits: Limits, root: Path, fingerprint: Fingerprint)
    returns (states: seq<System>, moves: seq<Move>)
    ensures IsExecution(states, moves)
    ensures moves == [Miss(0, root, fingerprint), Miss(1, root, fingerprint), Begin(0), Acquire(0),
                      Publishes(0, 1, limits.maxBytes + 1, fingerprint, 0), Miss(2, root, fingerprint), Begin(2), Acquire(2),
                      Cancel(0, false, 3), Begin(1), Acquire(1)]
    ensures SideBySide(states[11], 1, 2)
  {
    hide SystemInv; hide Next; hide Beginning; hide After; hide LookUpResult; hide CellsOf; hide LocksOf; hide Publish;
    var p;
    states, moves, p := FirstBuilds(limits, root, fingerprint);
    var published := OversizedIsPublished(states[4], p, limits.maxBytes + 1, fingerprint);
    var missed := NextRound(published, 2, root, p.generation, fingerprint);
    Numbered(published, 0);
    var q := missed.parties[2];
    assert missed.parties == map[0 := p.(phase := Published), 1 := p.(phase := Waiting), 2 := q];
    var begun, locked := NewcomerBuilds(missed, p, q);
    var left, late, both := WaiterTakesOver(locked, 0, 1, 3);
    ElevenMoves(states, moves, [published, missed, begun, locked, left, late, both],
                [Publishes(0, 1, limits.maxBytes + 1, fingerprint, 0), Miss(2, root, fingerprint), Begin(2), Acquire(2),
                 Cancel(0, false, 3), Begin(1), Acquire(1)]);
    states := states + [published, missed, begun, locked, left, late, both];
    moves := moves + [Publishes(0, 1, limits.maxBytes + 1, fingerprint, 0), Miss(2, root, fingerprint), Begin(2), Acquire(2),
                      Cancel(0, false, 3), Begin(1), Acquire(1)];
    BeginningStarts(limits);
  }

  lemma ElevenMoves(before: seq<System>, first: seq<Move>, after: seq<System>, second: seq<Move>)
    requires IsFragment(before, first) && |before| > 0 && |after| == |second|
    requires forall i :: 0 <= i < |second| ==> Next((before[|before| - 1..] + after)[i], second[i], after[i])
    ensures IsFragment(before + after, first + second)
  {
    hide Next;
    var (states, moves, n) := (before + after, first + second, |first|);
    forall i | 0 <= i < |moves| ensures Next(states[i], moves[i], states[i + 1]) {
      if i < n {
        assert states[i] == before[i] && moves[i] == first[i] && states[i + 1] == before[i + 1];
      } else {
        assert states[i] == (before[n..] + after)[i - n] && moves[i] == second[i - n] && states[i + 1] == after[i - n];
      }
    }
  }
}
