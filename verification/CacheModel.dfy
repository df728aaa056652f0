/** The project cache as a value: what each operation of `ProjectCache` does to the projects'
    states, to the lists of released objects and to the reservations. */
module CacheModel {
  import opened Common
  import opened Ledger

  type Path = string

  const RUNNER_BASE_BYTES: nat := 16 * 1024

  /** File stamps, as an opaque identity, and the bytes they are estimated to take. */
  datatype Fingerprint = Fingerprint(stamps: string, estimatedBytes: nat)

  datatype Limits = Limits(maxIndexes: nat, maxRunners: nat, maxBytes: nat)

  datatype RunnerEntry = RunnerEntry(runner: Id, fingerprint: Fingerprint, revalidate: bool)

  datatype CachedIndex = CachedIndex(index: Id, project: Fingerprint, bytes: nat)

  datatype InFlight = InFlight(generation: nat, cell: Id, owner: Id)

  datatype ProjectState = ProjectState(
    generation: nat,
    runner: Option<RunnerEntry>,
    index: Option<CachedIndex>,
    inFlight: Option<InFlight>,
    fullRebuild: bool,
    lastUsed: nat)

  datatype Cache = Cache(
    limits: Limits,
    states: map<Path, ProjectState>,
    released: seq<Slot>,
    releasedRunners: seq<Slot>,
    reservations: seq<Slot>,
    nextGeneration: nat,
    tick: nat,
    nextId: Id,  // identity of the next allocated cell, owner or reservation
    hits: nat,
    misses: nat,
    evictions: nat,
    invalidations: nat)

  /** What requests and blocking jobs hold outside the cache while it runs one operation: the
      objects with a strong reference elsewhere, and the owner locks that are taken. */
  datatype Holders = Holders(
    indexes: set<Id>,
    runners: set<Id>,
    reservations: set<Id>,
    cells: set<Id>,
    lockedOwners: set<Id>,
    testResultBytes: map<Id, nat>)

  datatype Lookup =
    | Cached(entry: CachedIndex, generation: nat)
    | Build(cell: Id, owner: Id, generation: nat)

  datatype Reserving = ReserveStale | OverBudget(needed: nat, limit: nat) | Reserved(reservation: Id)

  datatype Publication = PublishStale | Retained | Uncached

  function NewState(generation: nat): ProjectState {
    ProjectState(generation, None, None, None, false, 0)
  }

  predicate Alive(env: Holders, marker: InFlight) {
    marker.cell in env.cells || marker.owner in env.lockedOwners
  }

  // ----- memory -----

  function BytesOf(slot: Slot): nat { slot.bytes }

  /** A runner's own charge plus the test results it retains at this moment. */
  function RunnerWeight(testResultBytes: map<Id, nat>): Slot -> nat {
    (slot: Slot) => RUNNER_BASE_BYTES + slot.bytes + (if slot.id in testResultBytes then testResultBytes[slot.id] else 0)
  }

  function IndexSlots(states: map<Path, ProjectState>): map<Path, Slot> {
    map root | root in states && states[root].index.Some? ::
      Slot(states[root].index.value.index, states[root].index.value.bytes)
  }

  function RunnerSlot(entry: RunnerEntry): Slot { Slot(entry.runner, entry.fingerprint.estimatedBytes) }

  function RunnerSlots(states: map<Path, ProjectState>): map<Path, Slot> {
    map root | root in states && states[root].runner.Some? :: RunnerSlot(states[root].runner.value)
  }

  /** The indexes with a positive strong count. */
  function StrongIndexes(states: map<Path, ProjectState>, env: Holders): set<Id> {
    env.indexes + CachedIds(IndexSlots(states))
  }

  function StrongRunners(states: map<Path, ProjectState>, env: Holders): set<Id> {
    env.runners + CachedIds(RunnerSlots(states))
  }

  ghost function RetainedBytes(c: Cache, env: Holders): nat {
    SumMap(RunnerSlots(c.states), RunnerWeight(env.testResultBytes))
    + SumMap(IndexSlots(c.states), BytesOf)
    + SumSeq(Live(c.released, StrongIndexes(c.states, env)), BytesOf)
    + SumSeq(Live(c.releasedRunners, StrongRunners(c.states, env)), RunnerWeight(env.testResultBytes))
    + SumSeq(Live(c.reservations, env.reservations), BytesOf)
  }

  // ----- releasing -----

  function PruneState(env: Holders, state: ProjectState): ProjectState {
    if state.inFlight.Some? && !Alive(env, state.inFlight.value) then state.(inFlight := None) else state
  }

  function Prune(c: Cache, env: Holders): Cache {
    c.(released := Live(c.released, StrongIndexes(c.states, env)),
       releasedRunners := Live(c.releasedRunners, StrongRunners(c.states, env)),
       reservations := Live(c.reservations, env.reservations),
       states := map root | root in c.states :: PruneState(env, c.states[root]))
  }

  function ReleaseIndex(c: Cache, env: Holders, root: Path): Cache {
    if root !in c.states || c.states[root].index.None? then c
    else
      var entry := c.states[root].index.value;
      Prune(c.(states := c.states[root := c.states[root].(index := None)],
               released := c.released + [Slot(entry.index, entry.bytes)]), env)
  }

  function ReleaseRunner(c: Cache, root: Path): Cache {
    if root !in c.states || c.states[root].runner.None? then c
    else
      c.(states := c.states[root := c.states[root].(runner := None)],
         releasedRunners := c.releasedRunners + [RunnerSlot(c.states[root].runner.value)])
  }

  function Invalidate(c: Cache, env: Holders, root: Path): Cache {
    var generation := c.nextGeneration + 1;
    if root !in c.states then c.(nextGeneration := generation)
    else
      var state := c.states[root].(generation := generation, inFlight := None);
      ReleaseIndex(c.(nextGeneration := generation, invalidations := c.invalidations + 1,
                      states := c.states[root := state]), env, root)
  }

  // ----- eviction -----

  function IndexVictims(c: Cache, protect: Option<Path>): set<Path> {
    set root | root in c.states && c.states[root].index.Some? && protect != Some(root)
  }

  function RunnerVictims(c: Cache, env: Holders, protect: Option<Path>): set<Path> {
    set root | root in c.states && c.states[root].runner.Some? && protect != Some(root)
      && !(c.states[root].inFlight.Some? && Alive(env, c.states[root].inFlight.value))
  }

  predicate IsLeastRecent(c: Cache, victims: set<Path>, victim: Path)
    requires victims <= c.states.Keys
  {
    victim in victims && forall other :: other in victims ==> c.states[victim].lastUsed <= c.states[other].lastUsed
  }

  lemma {:induction false} LeastRecentExists(c: Cache, victims: set<Path>)
    requires victims <= c.states.Keys && victims != {}
    ensures exists victim :: IsLeastRecent(c, victims, victim)
    decreases victims
  {
    var any :| any in victims;
    var rest := victims - {any};
    if rest == {} {
      assert victims == {any};
      assert IsLeastRecent(c, victims, any);
    } else {
      LeastRecentExists(c, rest);
      var best :| IsLeastRecent(c, rest, best);
      var victim := if c.states[any].lastUsed <= c.states[best].lastUsed then any else best;
      assert IsLeastRecent(c, victims, victim);
    }
  }

  ghost function LeastRecent(c: Cache, victims: set<Path>): (victim: Path)
    requires victims <= c.states.Keys && victims != {}
    ensures IsLeastRecent(c, victims, victim)
  {
    LeastRecentExists(c, victims);
    var victim :| IsLeastRecent(c, victims, victim);
    victim
  }

  /** Nothing when no project but the protected one retains an index. */
  ghost function EvictIndex(c: Cache, env: Holders, protect: Option<Path>): Option<Cache> {
    var victims := IndexVictims(c, protect);
    if victims == {} then None
    else
      var after := ReleaseIndex(c, env, LeastRecent(c, victims));
      Some(after.(evictions := after.evictions + 1))
  }

  ghost function EvictRunner(c: Cache, env: Holders, protect: Option<Path>): Option<Cache> {
    var victims := RunnerVictims(c, env, protect);
    if victims == {} then None else Some(ReleaseRunner(c, LeastRecent(c, victims)))
  }

  /** How many evictions are still possible. */
  function Evictable(c: Cache): nat {
    |IndexSlots(c.states)| + |RunnerSlots(c.states)|
  }

  lemma RemovedKey<K, V>(m: map<K, V>, key: K)
    requires key in m
    ensures |m - {key}| == |m| - 1
  {
    assert m.Keys == (m - {key}).Keys + {key};
    assert |m.Keys| == |m| && |(m - {key}).Keys| == |m - {key}|;
  }

  lemma PruneKeepsSlots(c: Cache, env: Holders)
    ensures IndexSlots(Prune(c, env).states) == IndexSlots(c.states)
    ensures RunnerSlots(Prune(c, env).states) == RunnerSlots(c.states)
  {
    hide Alive, Live, StrongIndexes, StrongRunners, CachedIds;
    var states := Prune(c, env).states;
    assert IndexSlots(states) == IndexSlots(c.states) by {
      assert forall root :: root in states ==> states[root].index == c.states[root].index;
    }
    assert RunnerSlots(states) == RunnerSlots(c.states) by {
      assert forall root :: root in states ==> states[root].runner == c.states[root].runner;
    }
  }

  lemma IndexSlotsAfterUpdate(states: map<Path, ProjectState>, root: Path, state: ProjectState)
    ensures IndexSlots(states[root := state]) ==
            if state.index.Some? then IndexSlots(states)[root := Slot(state.index.value.index, state.index.value.bytes)]
            else IndexSlots(states) - {root}
  {
  }

  lemma RunnerSlotsAfterUpdate(states: map<Path, ProjectState>, root: Path, state: ProjectState)
    ensures RunnerSlots(states[root := state]) ==
            if state.runner.Some? then RunnerSlots(states)[root := RunnerSlot(state.runner.value)]
            else RunnerSlots(states) - {root}
  {
  }

  lemma ReleaseIndexSlots(c: Cache, env: Holders, root: Path)
    ensures IndexSlots(ReleaseIndex(c, env, root).states) == IndexSlots(c.states) - {root}
    ensures RunnerSlots(ReleaseIndex(c, env, root).states) == RunnerSlots(c.states)
  {
    if root in c.states && c.states[root].index.Some? {
      var state := c.states[root].(index := None);
      var entry := c.states[root].index.value;
      PruneKeepsSlots(c.(states := c.states[root := state], released := c.released + [Slot(entry.index, entry.bytes)]), env);
      IndexSlotsAfterUpdate(c.states, root, state);
      RunnerSlotsAfterUpdate(c.states, root, state);
      if state.runner.Some? { assert RunnerSlots(c.states)[root] == RunnerSlot(state.runner.value); }
    } else {
      assert root !in IndexSlots(c.states);
    }
  }

  lemma ReleaseRunnerSlots(c: Cache, root: Path)
    ensures RunnerSlots(ReleaseRunner(c, root).states) == RunnerSlots(c.states) - {root}
    ensures IndexSlots(ReleaseRunner(c, root).states) == IndexSlots(c.states)
  {
    if root in c.states && c.states[root].runner.Some? {
      var state := c.states[root].(runner := None);
      IndexSlotsAfterUpdate(c.states, root, state);
      RunnerSlotsAfterUpdate(c.states, root, state);
      if state.index.Some? { assert root in IndexSlots(c.states); }
    } else {
      assert root !in RunnerSlots(c.states);
    }
  }

  lemma EvictIndexProgress(c: Cache, env: Holders, protect: Option<Path>)
    requires EvictIndex(c, env, protect).Some?
    ensures var after := EvictIndex(c, env, protect).value;
            |IndexSlots(after.states)| == |IndexSlots(c.states)| - 1 && Evictable(after) == Evictable(c) - 1
  {
    var victim := LeastRecent(c, IndexVictims(c, protect));
    ReleaseIndexSlots(c, env, victim);
    RemovedKey(IndexSlots(c.states), victim);
  }

  lemma EvictRunnerProgress(c: Cache, env: Holders, protect: Option<Path>)
    requires EvictRunner(c, env, protect).Some?
    ensures var after := EvictRunner(c, env, protect).value;
            |RunnerSlots(after.states)| == |RunnerSlots(c.states)| - 1 && Evictable(after) == Evictable(c) - 1
  {
    var victim := LeastRecent(c, RunnerVictims(c, env, protect));
    ReleaseRunnerSlots(c, victim);
    RemovedKey(RunnerSlots(c.states), victim);
  }

  /** An index first, a runner of an idle project when no index is left to evict. */
  ghost function EvictOne(c: Cache, env: Holders, protectIndex: Option<Path>, protectRunner: Option<Path>): (after: Option<Cache>)
    ensures after.Some? ==> Evictable(after.value) < Evictable(c)
  {
    var byIndex := EvictIndex(c, env, protectIndex);
    if byIndex.Some? then EvictIndexProgress(c, env, protectIndex); byIndex
    else
      var byRunner := EvictRunner(c, env, protectRunner);
      if byRunner.Some? then EvictRunnerProgress(c, env, protectRunner); byRunner else None
  }

  /** Evicts until `extra` bytes fit or nothing is left to evict. */
  ghost function MakeRoom(c: Cache, env: Holders, protectIndex: Option<Path>, protectRunner: Option<Path>, extra: nat): Cache
    decreases Evictable(c)
  {
    if RetainedBytes(c, env) + extra <= c.limits.maxBytes then c
    else
      var after := EvictOne(c, env, protectIndex, protectRunner);
      if after.None? then c else MakeRoom(after.value, env, protectIndex, protectRunner, extra)
  }

  ghost function EnforceIndexCount(c: Cache, env: Holders, protect: Option<Path>): Cache
    decreases Evictable(c)
  {
    if |IndexSlots(c.states)| <= c.limits.maxIndexes then c
    else
      var after := EvictIndex(c, env, protect);
      if after.None? then c
      else
        EvictIndexProgress(c, env, protect);
        EnforceIndexCount(after.value, env, protect)
  }

  ghost function EnforceRunnerCount(c: Cache, env: Holders, protect: Option<Path>): Cache
    decreases Evictable(c)
  {
    if |RunnerSlots(c.states)| <= c.limits.maxRunners then c
    else
      var after := EvictRunner(c, env, protect);
      if after.None? then c
      else
        EvictRunnerProgress(c, env, protect);
        EnforceRunnerCount(after.value, env, protect)
  }

  predicate Worthwhile(env: Holders, state: ProjectState) {
    state.runner.Some? || state.index.Some? || (state.inFlight.Some? && Alive(env, state.inFlight.value))
  }

  function DropIdle(c: Cache, env: Holders): Cache {
    c.(states := map root | root in c.states && Worthwhile(env, c.states[root]) :: c.states[root])
  }

  ghost function Enforce(c: Cache, env: Holders, protect: Option<Path>): Cache {
    var counted := EnforceIndexCount(Prune(c, env), env, protect);
    var sized := MakeRoom(counted, env, protect, protect, 0);
    DropIdle(EnforceRunnerCount(sized, env, protect), env)
  }

  // ----- operations -----

  function Touch(c: Cache, root: Path): Cache {
    var tick := c.tick + 1;
    if root !in c.states then c.(tick := tick)
    else c.(tick := tick, states := c.states[root := c.states[root].(lastUsed := tick)])
  }

  /** The entry of `root`, created in a generation nobody was handed before. */
  function Entry(c: Cache, root: Path): (after: Cache)
    ensures root in after.states
  {
    var generation := c.nextGeneration + 1;
    if root in c.states then c.(nextGeneration := generation)
    else c.(nextGeneration := generation, states := c.states[root := NewState(generation)])
  }

  predicate IsCurrent(c: Cache, root: Path, generation: nat) {
    root in c.states && c.states[root].generation == generation
  }

  function Runner(c: Cache, root: Path): (Cache, Option<RunnerEntry>) {
    (Touch(c, root), if root in c.states then c.states[root].runner else None)
  }

  predicate ChangesModel(c: Cache, root: Path, fingerprint: Fingerprint) {
    root in c.states && c.states[root].runner.Some? && c.states[root].runner.value.fingerprint != fingerprint
  }

  ghost function InstallRunner(c: Cache, env: Holders, root: Path, runner: Id, fingerprint: Fingerprint): Cache {
    var invalidated := if ChangesModel(c, root, fingerprint) then Invalidate(c, env, root) else c;
    var entered := ReleaseRunner(Touch(Entry(invalidated, root), root), root);
    var installed := entered.states[root].(runner := Some(RunnerEntry(runner, fingerprint, false)));
    Enforce(entered.(states := entered.states[root := installed]), env, Some(root))
  }

  ghost function DiscardProject(c: Cache, env: Holders, root: Path): Cache {
    Enforce(ReleaseRunner(Invalidate(c, env, root), root), env, None)
  }

  function InvalidateAfterMaven(c: Cache, env: Holders, root: Path): Cache {
    var after := Invalidate(c, env, root);
    if root !in after.states || after.states[root].runner.None? then after
    else
      var state := after.states[root];
      after.(states := after.states[root := state.(runner := Some(state.runner.value.(revalidate := true)))])
  }

  function RequireFullRebuild(c: Cache, root: Path): Cache {
    var entered := Entry(c, root);
    entered.(states := entered.states[root := entered.states[root].(fullRebuild := true)])
  }

  function FinishFullRebuild(c: Cache, root: Path, generation: nat): Cache {
    if IsCurrent(c, root, generation) then
      c.(states := c.states[root := c.states[root].(fullRebuild := false)])
    else c
  }

  function InvalidateGeneration(c: Cache, env: Holders, root: Path, generation: nat): Cache {
    if IsCurrent(c, root, generation) then Invalidate(c, env, root) else c
  }

  function RecordHit(c: Cache, root: Path): Cache {
    Touch(c.(hits := c.hits + 1), root)
  }

  /** The marker of the current generation, allocating a fresh cell and owner without one. */
  function Join(c: Cache, root: Path): (Cache, Lookup)
    requires root in c.states
  {
    var state := c.states[root];
    if state.inFlight.Some? && state.inFlight.value.generation == state.generation then
      (c, Build(state.inFlight.value.cell, state.inFlight.value.owner, state.generation))
    else
      var marker := InFlight(state.generation, c.nextId, c.nextId);
      (c.(nextId := c.nextId + 1, states := c.states[root := state.(inFlight := Some(marker))]),
       Build(marker.cell, marker.owner, state.generation))
  }

  function LookupIndex(c: Cache, env: Holders, root: Path, project: Fingerprint): (Cache, Lookup) {
    var entered := Touch(Entry(c, root), root);
    var state := entered.states[root];
    if state.index.Some? && state.index.value.project == project then
      (entered, Cached(state.index.value, state.generation))
    else
      var valid := if state.index.Some? then Invalidate(entered, env, root) else entered;
      Join(valid.(misses := valid.misses + 1), root)
  }

  ghost function Reserve(c: Cache, env: Holders, root: Path, generation: nat, bytes: nat): (Cache, Reserving) {
    var pruned := Prune(c, env);
    if !IsCurrent(pruned, root, generation) then (pruned, ReserveStale)
    else
      var room := MakeRoom(pruned, env, None, Some(root), bytes);
      if RetainedBytes(room, env) + bytes > room.limits.maxBytes then
        (room, OverBudget(RetainedBytes(room, env) + bytes, room.limits.maxBytes))
      else
        (room.(reservations := room.reservations + [Slot(room.nextId, bytes)], nextId := room.nextId + 1),
         Reserved(room.nextId))
  }

  /** `env` is what is held after the build's reservation was dropped. */
  ghost function Publish(c: Cache, env: Holders, root: Path, generation: nat, index: Id, bytes: nat, project: Fingerprint)
    : (Cache, Publication)
  {
    var pruned := Prune(c, env);
    if !IsCurrent(pruned, root, generation) then (pruned, PublishStale)
    else
      var state := pruned.states[root];
      if bytes > pruned.limits.maxBytes then
        (pruned.(states := pruned.states[root := state.(inFlight := None)],
                 released := pruned.released + [Slot(index, bytes)]), Uncached)
      else
        var tick := pruned.tick + 1;
        var entry := CachedIndex(index, project, bytes);
        var stored := state.(inFlight := None, index := Some(entry), lastUsed := tick);
        var enforced := Enforce(pruned.(tick := tick, states := pruned.states[root := stored]), env, Some(root));
        if RetainedBytes(enforced, env) > enforced.limits.maxBytes then
          (ReleaseIndex(enforced, env, root), Uncached)
        else (enforced, Retained)
  }

  ghost function FinishFailed(c: Cache, env: Holders, root: Path, generation: nat): Cache {
    var cleared := if IsCurrent(c, root, generation) then
      c.(states := c.states[root := c.states[root].(inFlight := None)]) else c;
    Enforce(cleared, env, None)
  }
}
