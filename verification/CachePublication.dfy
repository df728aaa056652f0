/** Publishing and reserving: what enters the cache, what it costs, and what the answer of an
    operation promises. */
module CachePublication {
  import opened Common
  import opened Ledger
  import opened CacheModel
  import opened CacheInvariant
  import opened CacheOperations

  // ----- publish -----

  /** The project with the finished index stored, before the limits are enforced. */
  function Stored(c: Cache, root: Path, entry: CachedIndex): Cache
    requires root in c.states
  {
    c.(tick := c.tick + 1,
       states := c.states[root := c.states[root].(inFlight := None, index := Some(entry), lastUsed := c.tick + 1)])
  }

  function WithIndex(known: Known, index: Id, bytes: nat): Known {
    known.(indexes := known.indexes[index := Slot(index, bytes)])
  }

  /** The index the project retains, as it is charged. */
  function RetainedSlot(c: Cache, root: Path): Option<Slot> {
    if root in c.states && c.states[root].index.Some? then
      Some(Slot(c.states[root].index.value.index, c.states[root].index.value.bytes))
    else None
  }

  /** The index a publication stores over. It is in no list from then on, so the books forget it. */
  function Overwritten(c: Cache, root: Path, generation: nat, bytes: nat): Option<Slot> {
    if IsCurrent(c, root, generation) && bytes <= c.limits.maxBytes then RetainedSlot(c, root) else None
  }

  function Forgetting(known: Known, gone: Option<Slot>): Known {
    if gone.None? then known else known.(indexes := known.indexes - {gone.value.id})
  }

  lemma StoredStamped(c: Cache, root: Path, entry: CachedIndex)
    requires Stamped(c) && root in c.states
    ensures Stamped(Stored(c, root, entry))
  {
    var after := Stored(c, root, entry);
    forall p | p in after.states ensures StampedState(after, after.states[p]) {
      assert StampedState(c, c.states[p]);
    }
    forall p, q | p in after.states && q in after.states && p != q && after.states[p].lastUsed != 0
      ensures after.states[p].lastUsed != after.states[q].lastUsed
    {
      assert StampedState(c, c.states[p]) && StampedState(c, c.states[q]);
    }
  }

  lemma StoredSound(c: Cache, env: Holders, known: Known, root: Path, entry: CachedIndex)
    requires Sound(c, env, known) && root in c.states && entry.index !in known.indexes
    ensures Sound(Stored(c, root, entry), env, WithIndex(Forgetting(known, RetainedSlot(c, root)), entry.index, entry.bytes))
    ensures Succeeds(env, Some(root), c, Stored(c, root, entry))
  {
    hide Exact; hide Stamped; hide Succeeds;
    var after := Stored(c, root, entry);
    var slot := Slot(entry.index, entry.bytes);
    StoredStamped(c, root, entry);
    StoredSucceeds(c, env, root, entry);
    IndexSlotsAfterUpdate(c.states, root, after.states[root]);
    SameRunnerSlots(c.states, root, after.states[root]);
    if c.states[root].index.None? {
      StoreKeepsExact(IndexSlots(c.states), c.released, known.indexes, env.indexes, root, slot);
    } else {
      OverwriteForgets(IndexSlots(c.states), c.released, known.indexes, env.indexes, root, slot);
    }
  }

  lemma StoredSucceeds(c: Cache, env: Holders, root: Path, entry: CachedIndex)
    requires Stamped(c) && root in c.states
    ensures Succeeds(env, Some(root), c, Stored(c, root, entry))
  {}

  /** An index too large for the cache is only listed, so it counts while requests hold it. */
  lemma ListedOnlySound(c: Cache, env: Holders, known: Known, root: Path, index: Id, bytes: nat)
    requires Inv(c, env, known) && root in c.states && index !in known.indexes
    ensures var after := c.(states := c.states[root := c.states[root].(inFlight := None)],
                            released := c.released + [Slot(index, bytes)]);
            Inv(after, env, WithIndex(known, index, bytes)) && Succeeds(env, Some(root), c, after)
  {
    hide Exact; hide Succeeds;
    var state := c.states[root].(inFlight := None);
    assert StampedState(c, c.states[root]);
    StateChangeSound(c, env, known, root, state);
    StateChangeSucceeds(c, env, root, state);
    ListKeepsExact(IndexSlots(c.states), c.released, known.indexes, env.indexes, Slot(index, bytes));
    var cleared := c.(states := c.states[root := state]);
    ListedStaysStamped(cleared, Slot(index, bytes));
    ListedSucceeds(cleared, env, root, Slot(index, bytes), c);
  }

  lemma ListedSucceeds(c: Cache, env: Holders, root: Path, slot: Slot, before: Cache)
    requires Succeeds(env, Some(root), before, c)
    ensures Succeeds(env, Some(root), before, c.(released := c.released + [slot]))
  {
    forall p | p in c.states && c.states[p].inFlight.Some?
      ensures OldOrNewMarker(before, c.(released := c.released + [slot]), p)
    {
      assert OldOrNewMarker(before, c, p);
    }
    forall p | p in c.states && c.states[p].index.Some? && Some(p) != Some(root)
      ensures OldIndex(before, c.(released := c.released + [slot]), p)
    {
      assert OldIndex(before, c, p);
    }
  }

  /** `publish` past its generation and size checks. */
  ghost function Kept(pruned: Cache, env: Holders, root: Path, entry: CachedIndex): (Cache, Publication)
    requires root in pruned.states
  {
    var enforced := Enforce(Stored(pruned, root, entry), env, Some(root));
    if RetainedBytes(enforced, env) > enforced.limits.maxBytes then (ReleaseIndex(enforced, env, root), Uncached)
    else (enforced, Retained)
  }

  lemma ListedStaysStamped(c: Cache, slot: Slot)
    requires Stamped(c)
    ensures Stamped(c.(released := c.released + [slot]))
  {
    var after := c.(released := c.released + [slot]);
    forall p | p in after.states ensures StampedState(after, after.states[p]) {
      assert StampedState(c, c.states[p]);
    }
  }

  lemma PublishCases(c: Cache, env: Holders, root: Path, generation: nat, index: Id, bytes: nat, project: Fingerprint)
    ensures var pruned := Prune(c, env);
            var result := Publish(c, env, root, generation, index, bytes, project);
            && (!IsCurrent(pruned, root, generation) ==> result == (pruned, PublishStale))
            && (IsCurrent(pruned, root, generation) && bytes <= c.limits.maxBytes ==>
                  result == Kept(pruned, env, root, CachedIndex(index, project, bytes)))
            && (IsCurrent(pruned, root, generation) && bytes > c.limits.maxBytes ==>
                  result == (pruned.(states := pruned.states[root := pruned.states[root].(inFlight := None)],
                                     released := pruned.released + [Slot(index, bytes)]), Uncached))
  {
    hide RetainedBytes; hide Enforce;
  }

  /** What the books know after a publication: the new index, and no longer the one it stored over. */
  function KnownAfter(known: Known, gone: Option<Slot>, reply: Publication, index: Id, bytes: nat): Known {
    if reply == PublishStale then known else WithIndex(Forgetting(known, gone), index, bytes)
  }

  /** Whatever the project retains, publishing keeps the stamps, the bound and the books of
      everything but the index it stores over. */
  lemma PublishSound(c: Cache, env: Holders, known: Known, root: Path, generation: nat, index: Id, bytes: nat, project: Fingerprint)
    requires Inv(c, env, known) && index !in known.indexes
    ensures var (after, reply) := Publish(c, env, root, generation, index, bytes, project);
            && Inv(after, env, KnownAfter(known, Overwritten(c, root, generation, bytes), reply, index, bytes))
            && Succeeds(env, Some(root), c, after)
            && (reply == PublishStale ==> Overwritten(c, root, generation, bytes).None?)
  {
    hide Accounted; hide Stamped; hide Succeeds; hide Bounded; hide RetainedBytes; hide Publish; hide Enforce;
    var pruned := Prune(c, env);
    PrunedInv(c, env, known);
    PublishCases(c, env, root, generation, index, bytes, project);
    if IsCurrent(pruned, root, generation) {
      var (after, reply) := Publish(c, env, root, generation, index, bytes, project);
      if bytes > c.limits.maxBytes {
        ListedOnlySound(pruned, env, known, root, index, bytes);
      } else {
        KeptSound(pruned, env, known, root, CachedIndex(index, project, bytes));
        assert RetainedSlot(pruned, root) == RetainedSlot(c, root);
      }
      SucceedsTransitive(env, Some(root), c, pruned, after);
    }
  }

  lemma KeptSound(pruned: Cache, env: Holders, known: Known, root: Path, entry: CachedIndex)
    requires Inv(pruned, env, known) && entry.index !in known.indexes
    requires root in pruned.states
    ensures var (after, reply) := Kept(pruned, env, root, entry);
            && Inv(after, env, WithIndex(Forgetting(known, RetainedSlot(pruned, root)), entry.index, entry.bytes))
            && Succeeds(env, Some(root), pruned, after) && reply != PublishStale
  {
    hide Accounted; hide Stamped; hide Succeeds; hide Bounded; hide RetainedBytes; hide Enforce;
    var stored := Stored(pruned, root, entry);
    StoredSound(pruned, env, known, root, entry);
    EnforcedInv(stored, env, WithIndex(Forgetting(known, RetainedSlot(pruned, root)), entry.index, entry.bytes), root);
    SucceedsTransitive(env, Some(root), pruned, stored, Kept(pruned, env, root, entry).0);
  }

  lemma EnforcedInv(c: Cache, env: Holders, known: Known, root: Path)
    requires Sound(c, env, known)
    ensures var enforced := Enforce(c, env, Some(root));
            && Inv(enforced, env, known) && Succeeds(env, Some(root), c, enforced)
            && Inv(ReleaseIndex(enforced, env, root), env, known) && Succeeds(env, Some(root), c, ReleaseIndex(enforced, env, root))
  {
    var enforced := Enforce(c, env, Some(root));
    EnforceSound(c, env, known, Some(root));
    ReleaseIndexSound(enforced, env, known, root);
    ShrinkingKeepsBound(env, enforced, ReleaseIndex(enforced, env, root));
    ShrinksTransitive(env, c, enforced, ReleaseIndex(enforced, env, root));
    ShrinkingSucceeds(env, c, enforced);
    ShrinkingSucceeds(env, c, ReleaseIndex(enforced, env, root));
  }

  /** What publishing leaves is accounted for in full exactly when nobody holds an index that it
      stored over. */
  lemma PublishingIsExactIffUnheld(c: Cache, env: Holders, known: Known, root: Path, generation: nat, index: Id, bytes: nat,
                                   project: Fingerprint)
    requires Inv(c, env, known) && index !in known.indexes
    ensures var (after, reply) := Publish(c, env, root, generation, index, bytes, project);
            var gone := Overwritten(c, root, generation, bytes);
            Accounted(after, env, KnownAfter(known, None, reply, index, bytes)) <==>
              (gone.Some? ==> gone.value.id !in env.indexes)
  {
    hide Publish; hide Exact; hide Succeeds; hide Stamped; hide Bounded;
    PublishSound(c, env, known, root, generation, index, bytes, project);
    var (after, reply) := Publish(c, env, root, generation, index, bytes, project);
    var gone := Overwritten(c, root, generation, bytes);
    if gone.Some? {
      var counted := KnownAfter(known, gone, reply, index, bytes).indexes;
      RetainedIsKnown(c, env, known, root);
      RememberIsExactIffUnheld(IndexSlots(after.states), after.released, counted, env.indexes, gone.value);
      assert counted[gone.value.id := gone.value] == KnownAfter(known, None, reply, index, bytes).indexes;
    }
  }

  lemma RetainedIsKnown(c: Cache, env: Holders, known: Known, root: Path)
    requires Accounted(c, env, known) && RetainedSlot(c, root).Some?
    ensures var slot := RetainedSlot(c, root).value; slot.id in known.indexes && known.indexes[slot.id] == slot
  {
    assert IndexSlots(c.states)[root] == RetainedSlot(c, root).value;
  }

  /** An accepted index ends the project's marker. */
  lemma PublishUnmarks(c: Cache, env: Holders, known: Known, root: Path, generation: nat, index: Id, bytes: nat, project: Fingerprint)
    requires Inv(c, env, known) && index !in known.indexes
    requires Publish(c, env, root, generation, index, bytes, project).1 != PublishStale
    ensures var after := Publish(c, env, root, generation, index, bytes, project).0;
            root in after.states ==> after.states[root].inFlight.None?
  {
    hide Accounted; hide Stamped; hide Succeeds; hide Bounded; hide RetainedBytes; hide Publish; hide Enforce;
    PublishCases(c, env, root, generation, index, bytes, project);
    if bytes <= c.limits.maxBytes {
      var pruned := Prune(c, env);
      PrunedInv(c, env, known);
      var entry := CachedIndex(index, project, bytes);
      var now := WithIndex(Forgetting(known, RetainedSlot(pruned, root)), index, bytes);
      StoredSound(pruned, env, known, root, entry);
      var stored := Stored(pruned, root, entry);
      EnforceSound(stored, env, now, Some(root));
      ReleaseIndexSound(Enforce(stored, env, Some(root)), env, now, root);
      ShrinkingUnmarks(env, stored, Enforce(stored, env, Some(root)), root);
      ShrinkingUnmarks(env, Enforce(stored, env, Some(root)), ReleaseIndex(Enforce(stored, env, Some(root)), env, root), root);
    }
  }

  lemma ShrinkingUnmarks(env: Holders, before: Cache, after: Cache, root: Path)
    requires Shrinks(env, before, after)
    ensures root in after.states ==>
              root in before.states && (before.states[root].inFlight.None? ==> after.states[root].inFlight.None?)
  {
    if root in after.states { assert ShrinksState(env, before.states[root], after.states[root]); }
  }

  /** A failure reported in the project's generation ends its marker; any other leaves it, or drops it. */
  lemma FinishFailedUnmarks(c: Cache, env: Holders, known: Known, root: Path, generation: nat)
    requires Inv(c, env, known)
    ensures var after := FinishFailed(c, env, root, generation);
            root in after.states && after.states[root].inFlight.Some? ==>
              && !IsCurrent(c, root, generation) && root in c.states && after.states[root].inFlight == c.states[root].inFlight
  {
    hide Accounted; hide Succeeds; hide Enforce; hide Bounded;
    var cleared := c;
    if IsCurrent(c, root, generation) {
      var state := c.states[root].(inFlight := None);
      assert StampedState(c, c.states[root]);
      StateChangeSound(c, env, known, root, state);
      cleared := c.(states := c.states[root := state]);
    }
    EnforceSound(cleared, env, known, None);
    var after := FinishFailed(c, env, root, generation);
    if root in after.states { assert ShrinksState(env, cleared.states[root], after.states[root]); }
  }

  // ----- the protected project -----

  /** Eviction leaves the project it protects alone, but for a dead marker. */
  ghost predicate Spares(before: Cache, after: Cache, root: Path) {
    root in before.states ==>
      && root in after.states
      && after.states[root].(inFlight := None) == before.states[root].(inFlight := None)
  }

  lemma EvictionSpares(c: Cache, env: Holders, root: Path)
    ensures Spares(c, Prune(c, env), root)
    ensures EvictIndex(c, env, Some(root)).Some? ==> Spares(c, EvictIndex(c, env, Some(root)).value, root)
    ensures EvictRunner(c, env, Some(root)).Some? ==> Spares(c, EvictRunner(c, env, Some(root)).value, root)
  {
    hide Live, StrongIndexes, StrongRunners, CachedIds, IndexSlots, RunnerSlots;
    PruningSpares(c, env, root);
    IndexEvictionSpares(c, env, root);
  }

  lemma PruningSpares(c: Cache, env: Holders, root: Path)
    ensures Spares(c, Prune(c, env), root)
  {
    hide Live, StrongIndexes, StrongRunners;
  }

  lemma IndexEvictionSpares(c: Cache, env: Holders, root: Path)
    ensures EvictIndex(c, env, Some(root)).Some? ==> Spares(c, EvictIndex(c, env, Some(root)).value, root)
  {
    hide Live, StrongIndexes, StrongRunners;
  }

  lemma {:induction false} MakeRoomSpares(c: Cache, env: Holders, root: Path, extra: nat)
    ensures Spares(c, MakeRoom(c, env, Some(root), Some(root), extra), root)
    decreases Evictable(c)
  {
    hide RetainedBytes; hide EvictIndex; hide EvictRunner;
    EvictionSpares(c, env, root);
    var next := EvictOne(c, env, Some(root), Some(root));
    if next.Some? {
      MakeRoomSpares(next.value, env, root, extra);
    }
  }

  lemma {:induction false} EnforceIndexCountSpares(c: Cache, env: Holders, root: Path)
    ensures Spares(c, EnforceIndexCount(c, env, Some(root)), root)
    decreases Evictable(c)
  {
    EvictionSpares(c, env, root);
    var next := EvictIndex(c, env, Some(root));
    if |IndexSlots(c.states)| > c.limits.maxIndexes && next.Some? {
      EvictIndexProgress(c, env, Some(root));
      hide EvictIndex;
      EnforceIndexCountSpares(next.value, env, root);
    }
  }

  lemma {:induction false} EnforceRunnerCountSpares(c: Cache, env: Holders, root: Path)
    ensures Spares(c, EnforceRunnerCount(c, env, Some(root)), root)
    decreases Evictable(c)
  {
    EvictionSpares(c, env, root);
    var next := EvictRunner(c, env, Some(root));
    if |RunnerSlots(c.states)| > c.limits.maxRunners && next.Some? {
      EvictRunnerProgress(c, env, Some(root));
      hide EvictRunner;
      EnforceRunnerCountSpares(next.value, env, root);
    }
  }

  lemma EnforceSpares(c: Cache, env: Holders, root: Path)
    requires root in c.states && (c.states[root].index.Some? || c.states[root].runner.Some?)
    ensures Spares(c, Enforce(c, env, Some(root)), root)
  {
    EvictionSpares(c, env, root);
    var pruned := Prune(c, env);
    EnforceIndexCountSpares(pruned, env, root);
    var counted := EnforceIndexCount(pruned, env, Some(root));
    MakeRoomSpares(counted, env, root, 0);
    EnforceRunnerCountSpares(MakeRoom(counted, env, Some(root), Some(root), 0), env, root);
  }

  // ----- what the answers promise -----

  /** `Retained`: the index is in the cache under the generation it was built for and
      everything together fits the budget. */
  lemma RetainedFits(c: Cache, env: Holders, known: Known, root: Path, generation: nat, index: Id, bytes: nat, project: Fingerprint)
    requires Inv(c, env, known) && index !in known.indexes
    requires Publish(c, env, root, generation, index, bytes, project).1 == Retained
    ensures var after := Publish(c, env, root, generation, index, bytes, project).0;
            && RetainedBytes(after, env) <= c.limits.maxBytes
            && IsCurrent(after, root, generation)
            && after.states[root].index == Some(CachedIndex(index, project, bytes))
  {
    hide RetainedBytes; hide Accounted; hide Stamped; hide Publish; hide Enforce;
    PublishCases(c, env, root, generation, index, bytes, project);
    PruneSound(c, env, known);
    var pruned := Prune(c, env);
    var stored := Stored(pruned, root, CachedIndex(index, project, bytes));
    StoredSound(pruned, env, known, root, CachedIndex(index, project, bytes));
    EnforceSpares(stored, env, root);
    EnforceSound(stored, env, WithIndex(Forgetting(known, RetainedSlot(pruned, root)), index, bytes), Some(root));
    assert ShrinksState(env, stored.states[root], Enforce(stored, env, Some(root)).states[root]);
  }

  lemma {:induction false} LiveIgnoresStrangers(released: seq<Slot>, held: set<Id>, stranger: Id)
    requires forall i :: 0 <= i < |released| ==> released[i].id != stranger
    ensures Live(released, held + {stranger}) == Live(released, held)
  {
    if released != [] {
      LiveIgnoresStrangers(released[1..], held, stranger);
    }
  }

  lemma NoVictims(c: Cache, env: Holders, protectIndex: Option<Path>, protectRunner: Option<Path>)
    requires EvictOne(c, env, protectIndex, protectRunner).None?
    ensures NothingToEvict(c, env, protectIndex, protectRunner)
  {
    forall root | root in c.states
      ensures protectIndex != Some(root) ==> c.states[root].index.None?
      ensures protectRunner != Some(root) && c.states[root].runner.Some? ==> HasLiveMarker(env, c.states[root])
    {
      assert root !in IndexVictims(c, protectIndex) && root !in RunnerVictims(c, env, protectRunner);
    }
  }

  lemma {:induction false} MakeRoomFits(c: Cache, env: Holders, protectIndex: Option<Path>, protectRunner: Option<Path>, extra: nat)
    ensures var room := MakeRoom(c, env, protectIndex, protectRunner, extra);
            RetainedBytes(room, env) + extra <= room.limits.maxBytes
            || NothingToEvict(room, env, protectIndex, protectRunner)
    decreases Evictable(c)
  {
    hide RetainedBytes; hide NothingToEvict;
    var next := EvictOne(c, env, protectIndex, protectRunner);
    if next.Some? {
      hide EvictOne;
      MakeRoomFits(next.value, env, protectIndex, protectRunner, extra);
    } else {
      NoVictims(c, env, protectIndex, protectRunner);
    }
  }

  /** A granted reservation fits the budget together with everything that stays in memory; a
      refused one would not fit although nothing is left to evict. */
  lemma ReservationFits(c: Cache, env: Holders, known: Known, root: Path, generation: nat, bytes: nat)
    requires Inv(c, env, known)
    ensures var (after, reply) := Reserve(c, env, root, generation, bytes);
            && (reply.Reserved? ==>
                  && RetainedBytes(after, env.(reservations := env.reservations + {reply.reservation})) <= c.limits.maxBytes
                  && reply.reservation !in known.reservations
                  && RetainedBytes(after, env.(reservations := env.reservations + {reply.reservation}))
                       == RetainedBytes(after, env.(reservations := env.reservations - {reply.reservation})) + bytes)
            && (reply.OverBudget? ==>
                  && NothingToEvict(after, env, None, Some(root))
                  && reply.limit == c.limits.maxBytes
                  && reply.limit < reply.needed == RetainedBytes(after, env) + bytes)
  {
    var pruned := Prune(c, env);
    PruneSound(c, env, known);
    var room := MakeRoom(pruned, env, None, Some(root), bytes);
    MakeRoomSound(pruned, env, known, None, Some(root), bytes);
    MakeRoomFits(pruned, env, None, Some(root), bytes);
    var (after, reply) := Reserve(c, env, root, generation, bytes);
    if reply.Reserved? {
      assert room.limits == c.limits;
      ReservationAddsItsBytes(room, env, known, bytes);
    }
  }

  /** What a reservation leaves, its holder included. */
  ghost predicate ReserveLeaves(after: Cache, reply: Reserving, env: Holders, known: Known, bytes: nat) {
    if reply.Reserved? then
      Inv(after, env.(reservations := env.reservations + {reply.reservation}),
          known.(reservations := known.reservations[reply.reservation := Slot(reply.reservation, bytes)]))
    else Inv(after, env, known)
  }

  lemma ReserveKeepsInv(c: Cache, env: Holders, known: Known, root: Path, generation: nat, bytes: nat)
    requires Inv(c, env, known)
    ensures var (after, reply) := Reserve(c, env, root, generation, bytes); ReserveLeaves(after, reply, env, known, bytes)
  {
    hide Reserve; hide Inv; hide Succeeds;
    ReserveSound(c, env, known, root, generation, bytes);
  }

  lemma NextIdIsUnlisted(room: Cache, env: Holders, known: Known)
    requires Accounted(room, env, known)
    ensures forall i :: 0 <= i < |room.reservations| ==> room.reservations[i].id != room.nextId
  {
    forall i | 0 <= i < |room.reservations| ensures room.reservations[i].id != room.nextId {
      assert room.reservations[i].id in known.reservations;
    }
  }

  /** A reservation counts exactly while it is held. */
  lemma ListedReservationCounts(listed: seq<Slot>, held: set<Id>, slot: Slot)
    requires forall i :: 0 <= i < |listed| ==> listed[i].id != slot.id
    ensures SumSeq(Live(listed + [slot], held + {slot.id}), BytesOf) == SumSeq(Live(listed, held), BytesOf) + slot.bytes
    ensures SumSeq(Live(listed + [slot], held - {slot.id}), BytesOf) == SumSeq(Live(listed, held), BytesOf)
  {
    hide Live, SumSeq;
    var with, without := held + {slot.id}, held - {slot.id};
    LiveAppend(listed, slot, with);
    LiveAppend(listed, slot, without);
    LiveIgnoresStrangers(listed, held, slot.id);
    LiveIgnoresStrangers(listed, without, slot.id);
    assert without + {slot.id} == with;
    SumSeqAppend(Live(listed, with), slot, BytesOf);
    assert Live(listed, without) + [] == Live(listed, without);
  }

  lemma ReservationAddsItsBytes(room: Cache, env: Holders, known: Known, bytes: nat)
    requires Accounted(room, env, known)
    ensures var after := room.(reservations := room.reservations + [Slot(room.nextId, bytes)], nextId := room.nextId + 1);
            && RetainedBytes(after, env.(reservations := env.reservations + {room.nextId})) == RetainedBytes(room, env) + bytes
            && RetainedBytes(after, env.(reservations := env.reservations - {room.nextId})) == RetainedBytes(room, env)
  {
    NextIdIsUnlisted(room, env, known);
    hide Accounted, IndexSlots, RunnerSlots, SumMap, SumSeq, Live;
    ListedReservationCounts(room.reservations, env.reservations, Slot(room.nextId, bytes));
  }

  // ----- exact accounting -----

  /** The bytes of everything the cache was ever given and that is still in memory, each once. */
  ghost function InMemoryBytes(c: Cache, env: Holders, known: Known): nat {
    SumMap(Referenced(IndexSlots(c.states), known.indexes, env.indexes), BytesOf)
    + SumMap(Referenced(RunnerSlots(c.states), known.runners, env.runners), RunnerWeight(env.testResultBytes))
    + SumMap(Referenced(NO_SLOTS, known.reservations, env.reservations), BytesOf)
  }

  lemma RetainedBytesAreExact(c: Cache, env: Holders, known: Known)
    requires Accounted(c, env, known)
    ensures RetainedBytes(c, env) == InMemoryBytes(c, env, known)
  {
    StrongIsHeld(IndexSlots(c.states), c.released, known.indexes, env.indexes);
    StrongIsHeld(RunnerSlots(c.states), c.releasedRunners, known.runners, env.runners);
    ExactCountsEachOnce(IndexSlots(c.states), c.released, known.indexes, env.indexes, BytesOf);
    ExactCountsEachOnce(RunnerSlots(c.states), c.releasedRunners, known.runners, env.runners, RunnerWeight(env.testResultBytes));
    ExactCountsEachOnce(NO_SLOTS, c.reservations, known.reservations, env.reservations, BytesOf);
  }

  /** A released object is not cached, so its strong count is what holders have. */
  lemma StrongIsHeld(cached: map<Path, Slot>, released: seq<Slot>, known: map<Id, Slot>, held: set<Id>)
    requires Exact(cached, released, known, held)
    ensures Live(released, held + CachedIds(cached)) == Live(released, held)
  {
    SameLive(released, held, held + CachedIds(cached));
  }

  lemma {:induction false} SameLive(released: seq<Slot>, some: set<Id>, more: set<Id>)
    requires forall i :: 0 <= i < |released| ==> (released[i].id in some <==> released[i].id in more)
    ensures Live(released, some) == Live(released, more)
  {
    if released != [] {
      SameLive(released[1..], some, more);
    }
  }
}
