/** Requests building one project's index through the cache. Whoever looks the index up waits in
    the cell that the project's marker names, and one of those who wait in it builds under the
    marker's owner lock. */
module BuildProtocol {
  import opened Common
  import opened Ledger
  import opened CacheModel
  import opened CacheInvariant
  import opened CacheOperations
  import opened CachePublication
  import opened CacheRuns

  datatype Phase =
    | Waiting       // holds the cell; somebody else runs its build, or nobody does yet
    | Initializing  // runs the cell's build future, waiting for the owner lock
    | Building      // holds the owner lock; the build's work runs
    | Published     // its index was accepted; writes the on-disk cache under the lock
    | Refused       // its index came too late; still holds the lock
    | Failing       // its work has failed and the lock is free; the cache was not told yet
    | Finished      // the outcome is known and the lock is free; the cell is not set yet
    | Answered      // has set the cell, and still holds it
    | Abandoned     // the request was cancelled; its blocking job still holds the lock
    | Notifying     // the status task of a cancelled request, waiting for the lock
    | Notified      // the same task, holding the lock for a moment

  /** A request that looked `root` up in `generation`, or the job or the status task it left behind. */
  datatype Party = Party(root: Path, generation: nat, cell: Id, owner: Id, phase: Phase)

  predicate IsTask(p: Party) { p.phase in {Notifying, Notified} }
  predicate HoldsCell(p: Party) { p.phase != Abandoned && !IsTask(p) }
  predicate HoldsLock(p: Party) { p.phase in {Building, Published, Refused, Abandoned, Notified} }
  predicate Initializes(p: Party) { p.phase in {Initializing, Building, Published, Refused, Failing, Finished} }

  /** The party runs a build that has neither published nor reported its failure. */
  predicate AtWork(p: Party) { p.phase in {Initializing, Building, Failing} }

  /** `ended`: the projects and cells of the builds that have published or reported a failure.
      `settled`: the cells whose outcome is set. */
  datatype System = System(world: World, parties: map<nat, Party>, ended: set<(Path, Id)>, settled: set<Id>)

  datatype Move =
    | Miss(id: nat, root: Path, fingerprint: Fingerprint)
    | Begin(id: nat)
    | Acquire(id: nat)
    | Publishes(id: nat, index: Id, bytes: nat, fingerprint: Fingerprint, reservation: Id)
    | Fails(id: nat)
    | Stops(id: nat)
    | MarkFailed(id: nat)
    | Settle(id: nat)
    | Leave(id: nat)
    | Cancel(id: nat, jobRuns: bool, task: nat)
    | Locks(id: nat)
    | Returns(id: nat)
    | Other(operation: Operation)
    | Drops

  function CellsOf(parties: map<nat, Party>): set<Id> {
    set i | i in parties && HoldsCell(parties[i]) :: parties[i].cell
  }

  function LocksOf(parties: map<nat, Party>): set<Id> {
    set i | i in parties && HoldsLock(parties[i]) :: parties[i].owner
  }

  /** The world in which the parties hold exactly their cells and locks. */
  function Held(w: World, parties: map<nat, Party>): World {
    w.(env := w.env.(cells := CellsOf(parties), lockedOwners := LocksOf(parties)))
  }

  ghost function With(s: System, parties: map<nat, Party>): System {
    s.(parties := parties, world := Held(s.world, parties))
  }

  ghost function Set(s: System, id: nat, p: Party): System {
    With(s, s.parties[id := p])
  }

  ghost function Remove(s: System, id: nat): System {
    With(s, s.parties - {id})
  }

  predicate IsIn(s: System, id: nat, phases: set<Phase>) {
    id in s.parties && s.parties[id].phase in phases
  }

  predicate HasEnded(ended: set<(Path, Id)>, p: Party) {
    (p.root, p.cell) in ended
  }

  /** Nobody else runs the build of this cell. */
  predicate IsIdle(parties: map<nat, Party>, cell: Id) {
    forall other :: other in parties && Initializes(parties[other]) ==> parties[other].cell != cell
  }

  function PublicationOf(p: Party, move: Move): Operation
    requires move.Publishes?
  {
    PublishIndex(p.root, p.generation, move.index, move.bytes, move.fingerprint, move.reservation)
  }

  ghost predicate Accepts(w: World, p: Party, move: Move)
    requires move.Publishes?
  {
    PublishResult(w, p.root, p.generation, move.index, move.bytes, move.fingerprint, move.reservation) != PublishStale
  }

  /** What a request leaves that is cancelled while it waits or builds: its blocking job, if one runs, and the task that will
      publish the status once the lock is free. */
  function AfterCancel(parties: map<nat, Party>, id: nat, jobRuns: bool, task: nat): map<nat, Party>
    requires id in parties
  {
    var p := parties[id];
    (if jobRuns && p.phase == Building then parties[id := p.(phase := Abandoned)] else parties - {id})
      [task := p.(phase := Notifying)]
  }

  ghost predicate Next(s: System, move: Move, after: System) {
    match move
    case Miss(id, root, fingerprint) =>
      var reply := LookUpResult(s.world, root, fingerprint);
      && id !in s.parties && reply.Build?
      && var looked := s.(world := After(s.world, LookUp(root, fingerprint)));
      after == Set(looked, id, Party(root, reply.generation, reply.cell, reply.owner, Waiting))
    case Begin(id) =>
      && IsIn(s, id, {Waiting}) && s.parties[id].cell !in s.settled && IsIdle(s.parties, s.parties[id].cell)
      && after == Set(s, id, s.parties[id].(phase := Initializing))
    case Acquire(id) =>
      && IsIn(s, id, {Initializing}) && s.parties[id].owner !in LocksOf(s.parties)
      && after == Set(s, id, s.parties[id].(phase := Building))
    case Publishes(id, _, _, _, _) =>
      && IsIn(s, id, {Building})
      && var p := s.parties[id];
      && Allowed(s.world, PublicationOf(p, move))
      && var handedIn := s.(world := After(s.world, PublicationOf(p, move)));
      after == if Accepts(s.world, p, move)
               then Set(handedIn.(ended := s.ended + {(p.root, p.cell)}), id, p.(phase := Published))
               else Set(handedIn, id, p.(phase := Refused))
    case Fails(id) =>
      && IsIn(s, id, {Building})
      && after == Set(s, id, s.parties[id].(phase := Failing))
    case Stops(id) =>
      && IsIn(s, id, {Building, Published, Refused})
      && var p := s.parties[id];
      && (p.phase == Building ==> !IsCurrent(s.world.cache, p.root, p.generation))
      && after == Set(s, id, p.(phase := Finished))
    case MarkFailed(id) =>
      && IsIn(s, id, {Failing})
      && var p := s.parties[id];
      && var told := s.(world := After(s.world, BuildFailed(p.root, p.generation)), ended := s.ended + {(p.root, p.cell)});
      after == Set(told, id, p.(phase := Finished))
    case Settle(id) =>
      && IsIn(s, id, {Finished})
      && after == Set(s.(settled := s.settled + {s.parties[id].cell}), id, s.parties[id].(phase := Answered))
    case Leave(id) =>
      && (IsIn(s, id, {Answered}) || (IsIn(s, id, {Waiting}) && s.parties[id].cell in s.settled))
      && after == Remove(s, id)
    case Cancel(id, jobRuns, task) =>
      && IsIn(s, id, {Waiting, Initializing, Building, Published, Failing}) && task !in s.parties
      && after == With(s, AfterCancel(s.parties, id, jobRuns, task))
    case Locks(id) =>
      && IsIn(s, id, {Notifying}) && s.parties[id].owner !in LocksOf(s.parties)
      && after == Set(s, id, s.parties[id].(phase := Notified))
    case Returns(id) =>
      && IsIn(s, id, {Abandoned, Notifying, Notified})
      && after == Remove(s, id)
    case Other(operation) =>
      && !operation.PublishIndex? && !operation.BuildFailed?
      && (operation.LookUp? ==> LookUpResult(s.world, operation.root, operation.fingerprint).Cached?)
      && Allowed(s.world, operation)
      && after == s.(world := After(s.world, operation))
    case Drops =>
      && after == s.(world := after.world)
      && HoldersMove(s.world, after.world)
      && after.world.env.cells == s.world.env.cells && after.world.env.lockedOwners == s.world.env.lockedOwners
  }

  predicate Start(s: System) {
    Fresh(s.world) && s.parties == map[] && s.ended == {} && s.world.env.cells == {} && s.world.env.lockedOwners == {}
  }

  ghost predicate IsExecution(states: seq<System>, moves: seq<Move>) {
    && |states| == |moves| + 1
    && Start(states[0])
    && forall i :: 0 <= i < |moves| ==> Next(states[i], moves[i], states[i + 1])
  }

  // ----- what holds of every execution -----

  predicate Synced(s: System) {
    s.world.env.cells == CellsOf(s.parties) && s.world.env.lockedOwners == LocksOf(s.parties)
  }

  predicate Exclusive(parties: map<nat, Party>) {
    && (forall i, j :: i in parties && j in parties && i != j && HoldsLock(parties[i]) && HoldsLock(parties[j])
          ==> parties[i].owner != parties[j].owner)
    && (forall i, j :: i in parties && j in parties && i != j && Initializes(parties[i]) && Initializes(parties[j])
          ==> parties[i].cell != parties[j].cell)
  }

  predicate HasMarker(c: Cache, root: Path) {
    root in c.states && c.states[root].inFlight.Some?
  }

  function MarkerOf(p: Party): InFlight { InFlight(p.generation, p.cell, p.owner) }

  /** The party's numbers were given by the cache, and its project's marker names its cell only together with its generation
      and owner. */
  predicate KnownParty(c: Cache, p: Party) {
    && p.cell < c.nextId && p.owner < c.nextId && p.generation <= c.nextGeneration
    && (HasMarker(c, p.root) && c.states[p.root].inFlight.value.cell == p.cell ==>
          c.states[p.root].inFlight.value == MarkerOf(p))
  }

  /** No marker names the cell of a build that has ended. */
  ghost predicate EndedIsUnmarked(c: Cache, ended: set<(Path, Id)>) {
    && (forall root :: HasMarker(c, root) ==> (root, c.states[root].inFlight.value.cell) !in ended)
    && (forall e :: e in ended ==> e.1 < c.nextId)
  }

  ghost predicate Traced(c: Cache, parties: map<nat, Party>, ended: set<(Path, Id)>) {
    (forall i :: i in parties ==> KnownParty(c, parties[i])) && EndedIsUnmarked(c, ended)
  }

  ghost predicate SystemInv(s: System) {
    InvW(s.world) && Synced(s) && Exclusive(s.parties) && Traced(s.world.cache, s.parties, s.ended)
  }

  lemma HeldKeepsInv(w: World, parties: map<nat, Party>)
    requires InvW(w)
    ensures InvW(Held(w, parties))
  {
  }

  /** Markers only go, or come in cells nobody was handed before. */
  lemma CacheMovesKeepTraces(env: Holders, ending: Option<Path>, c: Cache, after: Cache, parties: map<nat, Party>,
                             ended: set<(Path, Id)>)
    requires Traced(c, parties, ended) && Succeeds(env, ending, c, after)
    ensures Traced(after, parties, ended)
  {
    forall root | HasMarker(after, root) ensures OldOrNewMarker(c, after, root) {}
  }

  /** A build that publishes or fails in its project's generation leaves no marker there. */
  lemma EndingKeepsTraces(c: Cache, parties: map<nat, Party>, ended: set<(Path, Id)>, p: Party)
    requires Traced(c, parties, ended) && p.cell < c.nextId
    requires HasMarker(c, p.root) ==> c.states[p.root].inFlight.value.cell != p.cell
    ensures Traced(c, parties, ended + {(p.root, p.cell)})
  {
  }

  /** Parties that only change phase, leave, or leave a job or task behind are known as before. */
  lemma PhasesKeepTraces(c: Cache, parties: map<nat, Party>, after: map<nat, Party>, ended: set<(Path, Id)>)
    requires Traced(c, parties, ended)
    requires forall i :: i in after ==> exists j :: j in parties && after[i] == parties[j].(phase := after[i].phase)
    ensures Traced(c, after, ended)
  {
    forall i | i in after ensures KnownParty(c, after[i]) {
      var j :| j in parties && after[i] == parties[j].(phase := after[i].phase);
      assert KnownParty(c, parties[j]);
    }
  }

  // ----- lookups -----

  lemma MissLeavesMarker(w: World, root: Path, fingerprint: Fingerprint)
    requires InvW(w) && LookUpResult(w, root, fingerprint).Build?
    ensures var reply := LookUpResult(w, root, fingerprint);
            var after := After(w, LookUp(root, fingerprint)).cache;
            && IsCurrent(after, root, reply.generation) && reply.generation <= after.nextGeneration
            && reply.cell < after.nextId && reply.owner < after.nextId
            && after.states[root].inFlight == Some(InFlight(reply.generation, reply.cell, reply.owner))
  {
    hide Accounted; hide Invalidate; hide Succeeds;
    LookUpSound(w, root, fingerprint);
    var after := After(w, LookUp(root, fingerprint)).cache;
    LookupMarks(w.cache, w.env, root, fingerprint);
    assert StampedState(after, after.states[root]);
  }

  /** A miss leaves the marker of its answer, unless the project had one of another generation. */
  lemma LookupMarks(c: Cache, env: Holders, root: Path, fingerprint: Fingerprint)
    ensures var (after, reply) := LookupIndex(c, env, root, fingerprint);
            reply.Build? ==>
              && root in after.states && after.states[root].generation == reply.generation
              && after.states[root].inFlight == Some(InFlight(reply.generation, reply.cell, reply.owner))
  {
    hide Invalidate;
    var entered := Touch(Entry(c, root), root);
    InvalidateKeepsEntry(entered, env, root);
  }

  lemma MissKeepsInv(s: System, after: System, id: nat, root: Path, fingerprint: Fingerprint)
    requires SystemInv(s) && Next(s, Miss(id, root, fingerprint), after)
    ensures SystemInv(after)
  {
    hide InvW; hide After; hide LookUpResult; hide Succeeds; hide Exclusive; hide Traced; hide CellsOf; hide LocksOf;
    var looked := After(s.world, LookUp(root, fingerprint));
    LookUpSound(s.world, root, fingerprint);
    MissLeavesMarker(s.world, root, fingerprint);
    HeldKeepsInv(looked, after.parties);
    CacheMovesKeepTraces(s.world.env, None, s.world.cache, looked.cache, s.parties, s.ended);
    NewcomerIsKnown(looked.cache, s.parties, s.ended, id, after.parties[id]);
  }

  lemma NewcomerIsKnown(c: Cache, parties: map<nat, Party>, ended: set<(Path, Id)>, id: nat, p: Party)
    requires Traced(c, parties, ended) && Exclusive(parties) && id !in parties && p.phase == Waiting
    requires IsCurrent(c, p.root, p.generation) && p.generation <= c.nextGeneration
    requires p.cell < c.nextId && p.owner < c.nextId
    requires c.states[p.root].inFlight == Some(MarkerOf(p))
    ensures Traced(c, parties[id := p], ended) && Exclusive(parties[id := p])
  {
  }

  // ----- publications and failures -----

  lemma PublishesKeepsInv(s: System, move: Move, after: System)
    requires move.Publishes? && SystemInv(s) && Next(s, move, after)
    ensures SystemInv(after)
  {
    hide InvW; hide After; hide PublishResult; hide Allowed; hide Succeeds; hide Invalidates; hide CellsOf; hide LocksOf;
    hide Traced; hide Exclusive; hide KnownParty;
    var p := s.parties[move.id];
    PhaseStaysExclusive(s.parties, move.id, after.parties[move.id].phase);
    var operation := PublicationOf(p, move);
    CallSound(s.world, operation);
    HeldKeepsInv(After(s.world, operation), after.parties);
    CacheMovesKeepTraces(s.world.env, Some(p.root), s.world.cache, after.world.cache, s.parties, s.ended);
    PartyIsKnown(s, move.id);
    if Accepts(s.world, p, move) {
      PublicationUnmarks(s.world, p.root, p.generation, move.index, move.bytes, move.fingerprint, move.reservation);
      GrowingIds(s.world.env, Some(p.root), s.world.cache, after.world.cache);
      EndingKeepsTraces(after.world.cache, s.parties, s.ended, p);
    }
    PhasesKeepTraces(after.world.cache, s.parties, after.parties, after.ended);
  }

  lemma PartyIsKnown(s: System, id: nat)
    requires SystemInv(s) && id in s.parties
    ensures KnownParty(s.world.cache, s.parties[id]) && s.parties[id].cell < s.world.cache.nextId
  {
    hide InvW;
  }

  lemma GrowingIds(env: Holders, ending: Option<Path>, before: Cache, after: Cache)
    requires Succeeds(env, ending, before, after)
    ensures before.nextId <= after.nextId && before.nextGeneration <= after.nextGeneration
  {
  }

  /** An accepted index ends the project's marker. */
  lemma PublicationUnmarks(w: World, root: Path, generation: nat, index: Id, bytes: nat, fingerprint: Fingerprint, reservation: Id)
    requires InvW(w) && Allowed(w, PublishIndex(root, generation, index, bytes, fingerprint, reservation))
    requires PublishResult(w, root, generation, index, bytes, fingerprint, reservation) != PublishStale
    ensures !HasMarker(After(w, PublishIndex(root, generation, index, bytes, fingerprint, reservation)).cache, root)
  {
    hide Publish; hide RetainedBytes; hide Stamped; hide Exact; hide Succeeds; hide Enforce; hide Bounded;
    var env := WithoutReservation(w.env, reservation);
    HoldersMoveSound(w, w.(env := env));
    PublishUnmarks(w.cache, env, w.known, root, generation, index, bytes, fingerprint);
  }

  lemma FailureUnmarks(w: World, p: Party)
    requires InvW(w) && KnownParty(w.cache, p)
    ensures var after := After(w, BuildFailed(p.root, p.generation)).cache;
            HasMarker(after, p.root) ==> after.states[p.root].inFlight.value.cell != p.cell
  {
    hide Accounted; hide Enforce; hide Succeeds;
    FinishFailedUnmarks(w.cache, w.env, w.known, p.root, p.generation);
    if p.root in w.cache.states { assert StampedState(w.cache, w.cache.states[p.root]); }
  }

  lemma MarkFailedKeepsInv(s: System, after: System, id: nat)
    requires SystemInv(s) && Next(s, MarkFailed(id), after)
    ensures SystemInv(after)
  {
    hide InvW; hide After; hide Succeeds; hide Invalidates; hide Traced; hide Exclusive; hide CellsOf; hide LocksOf; hide KnownParty;
    var p := s.parties[id];
    PhaseStaysExclusive(s.parties, id, Finished);
    CallSound(s.world, BuildFailed(p.root, p.generation));
    HeldKeepsInv(After(s.world, BuildFailed(p.root, p.generation)), after.parties);
    CacheMovesKeepTraces(s.world.env, Some(p.root), s.world.cache, after.world.cache, s.parties, s.ended);
    PartyIsKnown(s, id);
    FailureUnmarks(s.world, p);
    GrowingIds(s.world.env, Some(p.root), s.world.cache, after.world.cache);
    EndingKeepsTraces(after.world.cache, s.parties, s.ended, p);
    PhasesKeepTraces(after.world.cache, s.parties, after.parties, after.ended);
  }

  // ----- the other moves -----

  lemma OtherKeepsInv(s: System, after: System, operation: Operation)
    requires SystemInv(s) && Next(s, Other(operation), after)
    ensures SystemInv(after)
  {
    hide InvW; hide After; hide Succeeds; hide Traced; hide Exclusive; hide Allowed; hide Invalidates;
    CallSound(s.world, operation);
    OtherHoldersUnchanged(s.world, operation);
    CacheMovesKeepTraces(s.world.env, None, s.world.cache, after.world.cache, s.parties, s.ended);
  }

  lemma OtherHoldersUnchanged(w: World, operation: Operation)
    requires !operation.PublishIndex? && !operation.BuildFailed?
    requires operation.LookUp? ==> LookUpResult(w, operation.root, operation.fingerprint).Cached?
    ensures After(w, operation).env.cells == w.env.cells && After(w, operation).env.lockedOwners == w.env.lockedOwners
  {
    hide InstallRunner; hide Reserve; hide LookupIndex; hide DiscardProject;
  }

  lemma PhaseStaysExclusive(parties: map<nat, Party>, id: nat, phase: Phase)
    requires Exclusive(parties) && id in parties
    requires var p := parties[id].(phase := phase);
             && (HoldsLock(p) && !HoldsLock(parties[id]) ==> p.owner !in LocksOf(parties))
             && (Initializes(p) && !Initializes(parties[id]) ==> IsIdle(parties, p.cell))
    ensures Exclusive(parties[id := parties[id].(phase := phase)])
  {
    forall i | i in parties && HoldsLock(parties[i]) ensures parties[i].owner in LocksOf(parties) {}
  }

  lemma FewerStayExclusive(parties: map<nat, Party>, id: nat)
    requires Exclusive(parties)
    ensures Exclusive(parties - {id})
  {}

  lemma TaskStaysExclusive(parties: map<nat, Party>, task: nat, p: Party)
    requires Exclusive(parties) && task !in parties && p.phase == Notifying
    ensures Exclusive(parties[task := p])
  {}

  predicate MovesOneParty(move: Move) {
    move.Begin? || move.Acquire? || move.Fails? || move.Stops? || move.Settle? || move.Leave? || move.Cancel? || move.Locks?
    || move.Returns?
  }

  predicate Derives(after: map<nat, Party>, parties: map<nat, Party>) {
    forall i :: i in after ==> exists j :: j in parties && after[i] == parties[j].(phase := after[i].phase)
  }

  lemma CancelStaysExclusive(parties: map<nat, Party>, id: nat, jobRuns: bool, task: nat)
    requires Exclusive(parties) && id in parties && task !in parties
    ensures Exclusive(AfterCancel(parties, id, jobRuns, task)) && Derives(AfterCancel(parties, id, jobRuns, task), parties)
  {
    hide Exclusive;
    var p := parties[id];
    if jobRuns && p.phase == Building {
      PhaseStaysExclusive(parties, id, Abandoned);
      TaskStaysExclusive(parties[id := p.(phase := Abandoned)], task, p.(phase := Notifying));
    } else {
      FewerStayExclusive(parties, id);
      TaskStaysExclusive(parties - {id}, task, p.(phase := Notifying));
    }
    forall i | i in AfterCancel(parties, id, jobRuns, task)
      ensures exists j :: j in parties && AfterCancel(parties, id, jobRuns, task)[i]
                                          == parties[j].(phase := AfterCancel(parties, id, jobRuns, task)[i].phase)
    {
      var from := if i == task then id else i;
      assert from in parties;
    }
  }

  lemma PartyMovesStayExclusive(s: System, move: Move, after: System)
    requires Exclusive(s.parties) && MovesOneParty(move) && Next(s, move, after)
    ensures Exclusive(after.parties) && Derives(after.parties, s.parties)
    ensures after.world == Held(s.world, after.parties) && after.ended == s.ended
  {
    hide After; hide LookUpResult; hide PublishResult; hide Allowed; hide HoldersMove; hide CellsOf; hide LocksOf;
    hide IsCurrent; hide Exclusive; hide Derives;
    if move.Cancel? {
      CancelStaysExclusive(s.parties, move.id, move.jobRuns, move.task);
    } else {
      FewerStayExclusive(s.parties, move.id);
      if move.id in after.parties {
        PhaseStaysExclusive(s.parties, move.id, after.parties[move.id].phase);
      }
      DerivesFromOne(after.parties, s.parties, move.id);
    }
  }

  lemma DerivesFromOne(after: map<nat, Party>, parties: map<nat, Party>, id: nat)
    requires id in parties
    requires after == parties - {id} || (id in after && after == parties[id := parties[id].(phase := after[id].phase)])
    ensures Derives(after, parties)
  {
    forall i | i in after ensures exists j :: j in parties && after[i] == parties[j].(phase := after[i].phase) {
      assert i in parties && after[i] == parties[i].(phase := after[i].phase);
    }
  }

  /** Moves of a single party outside the cache. */
  lemma PartyMovesKeepInv(s: System, move: Move, after: System)
    requires SystemInv(s) && MovesOneParty(move) && Next(s, move, after)
    ensures SystemInv(after)
  {
    hide InvW; hide Traced; hide Exclusive; hide CellsOf; hide LocksOf; hide Next;
    PartyMovesStayExclusive(s, move, after);
    HeldKeepsInv(s.world, after.parties);
    PhasesKeepTraces(s.world.cache, s.parties, after.parties, s.ended);
  }

  lemma DropsKeepsInv(s: System, after: System)
    requires SystemInv(s) && Next(s, Drops, after)
    ensures SystemInv(after)
  {
    HoldersMoveSound(s.world, after.world);
    hide InvW;
  }

  lemma NextKeepsInv(s: System, move: Move, after: System)
    requires SystemInv(s) && Next(s, move, after)
    ensures SystemInv(after)
  {
    hide SystemInv; hide Next;
    match move {
      case Miss(id, root, fingerprint) => MissKeepsInv(s, after, id, root, fingerprint);
      case Publishes(_, _, _, _, _) => PublishesKeepsInv(s, move, after);
      case MarkFailed(id) => MarkFailedKeepsInv(s, after, id);
      case Other(operation) => OtherKeepsInv(s, after, operation);
      case Drops => DropsKeepsInv(s, after);
      case _ => PartyMovesKeepInv(s, move, after);
    }
  }

  lemma StartInv(s: System)
    requires Start(s)
    ensures SystemInv(s)
  {
    hide InvW;
    FreshSound(s.world);
    assert CellsOf(s.parties) == {} && LocksOf(s.parties) == {};
  }

  lemma {:induction false} ExecutionKeepsInv(states: seq<System>, moves: seq<Move>, n: nat)
    requires IsExecution(states, moves) && n < |states|
    ensures SystemInv(states[n])
    decreases n
  {
    hide Next; hide SystemInv; hide Start;
    if n == 0 {
      StartInv(states[0]);
    } else {
      ExecutionKeepsInv(states, moves, n - 1);
      NextKeepsInv(states[n - 1], moves[n - 1], states[n]);
    }
  }
}
