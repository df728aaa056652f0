/** How far one build at a time goes. A generation is built in rounds, one for each cell: when a build has published or
    failed, the next lookup that misses waits in another cell. Requests of one round share cell and lock, and lookups join
    the build that runs, exactly as long as nobody begins in a cell whose build has already ended. */
module BuildRounds {
  import opened Common
  import opened Ledger
  import opened CacheModel
  import opened CacheInvariant
  import opened CacheOperations
  import opened CachePublication
  import opened CacheRuns
  import opened BuildProtocol

  predicate Marked(c: Cache, p: Party)
    requires IsCurrent(c, p.root, p.generation)
  {
    c.states[p.root].inFlight == Some(MarkerOf(p))
  }

  /** The party is in a round that has not ended. */
  predicate IsOpen(ended: set<(Path, Id)>, p: Party) {
    !IsTask(p) && !HasEnded(ended, p)
  }

  /** Parties of one generation whose rounds have not ended share cell and owner, the cache's marker names them, and no build
      of the project's generation is at work in a round that has ended. */
  predicate Agreed(c: Cache, parties: map<nat, Party>, ended: set<(Path, Id)>) {
    && (forall i, j :: i in parties && j in parties && IsOpen(ended, parties[i]) && IsOpen(ended, parties[j])
          && parties[i].root == parties[j].root && parties[i].generation == parties[j].generation
          ==> parties[i].cell == parties[j].cell && parties[i].owner == parties[j].owner)
    && (forall i :: i in parties && IsOpen(ended, parties[i]) && IsCurrent(c, parties[i].root, parties[i].generation)
          ==> Marked(c, parties[i]))
    && (forall i :: i in parties && AtWork(parties[i]) && IsCurrent(c, parties[i].root, parties[i].generation)
          ==> !HasEnded(ended, parties[i]))
  }

  /** Everybody but the status tasks keeps the marker of the round alive. */
  predicate Backed(env: Holders, parties: map<nat, Party>) {
    forall i :: i in parties && !IsTask(parties[i]) ==> Alive(env, MarkerOf(parties[i]))
  }

  predicate AllGiven(c: Cache, parties: map<nat, Party>) {
    forall i :: i in parties ==> parties[i].generation <= c.nextGeneration
  }

  lemma PartiesBackMarkers(s: System)
    requires Synced(s)
    ensures Backed(s.world.env, s.parties)
  {
    forall i | i in s.parties && !IsTask(s.parties[i]) ensures Alive(s.world.env, MarkerOf(s.parties[i])) {
      if HoldsCell(s.parties[i]) {
        assert s.parties[i].cell in CellsOf(s.parties);
      } else {
        assert s.parties[i].owner in LocksOf(s.parties);
      }
    }
  }

  lemma PartiesAreGiven(s: System)
    requires SystemInv(s)
    ensures AllGiven(s.world.cache, s.parties)
  {
    hide InvW; hide Synced; hide Exclusive;
    forall i | i in s.parties ensures s.parties[i].generation <= s.world.cache.nextGeneration {
      assert KnownParty(s.world.cache, s.parties[i]);
    }
  }

  /** Cache operations cannot separate the parties of a round, but for the round that ends. */
  lemma CacheMovesKeepAgreement(env: Holders, ending: Option<Path>, c: Cache, after: Cache, parties: map<nat, Party>,
                                ended: set<(Path, Id)>, now: set<(Path, Id)>)
    requires Agreed(c, parties, ended) && Backed(env, parties) && AllGiven(c, parties)
    requires Succeeds(env, ending, c, after) && ended <= now
    requires forall i :: i in parties && Some(parties[i].root) == ending && IsOpen(now, parties[i])
               ==> !IsCurrent(c, parties[i].root, parties[i].generation)
    requires forall i :: i in parties && AtWork(parties[i]) && IsCurrent(c, parties[i].root, parties[i].generation)
               ==> !HasEnded(now, parties[i])
    ensures Agreed(after, parties, now)
  {
    forall i | i in parties && IsCurrent(after, parties[i].root, parties[i].generation)
      ensures IsCurrent(c, parties[i].root, parties[i].generation)
      ensures IsOpen(now, parties[i]) ==> Marked(after, parties[i])
    {
      var p := parties[i];
      assert p.generation <= c.nextGeneration;
      if IsOpen(now, p) {
        assert IsOpen(ended, p) && Marked(c, p);
        assert HasLiveMarker(env, c.states[p.root]);
      }
    }
  }

  predicate ComesFrom(before: Party, after: Party) {
    after == before.(phase := after.phase) && (IsTask(before) ==> IsTask(after))
  }

  predicate GoesToWork(before: Party, after: Party) {
    !AtWork(before) && AtWork(after)
  }

  /** The party goes on, and does not go to work late. */
  predicate GoesOn(c: Cache, ended: set<(Path, Id)>, before: Party, after: Party) {
    && ComesFrom(before, after)
    && (GoesToWork(before, after) && IsCurrent(c, after.root, after.generation) ==> !HasEnded(ended, after))
  }

  /** Parties that change phase, leave, or leave a job or task behind disturb nobody, unless one goes to work late. */
  lemma PhasesKeepAgreement(c: Cache, parties: map<nat, Party>, after: map<nat, Party>, ended: set<(Path, Id)>)
    requires Agreed(c, parties, ended)
    requires forall i :: i in after ==> exists j :: j in parties && GoesOn(c, ended, parties[j], after[i])
    ensures Agreed(c, after, ended)
  {
  }

  // ----- every move keeps the agreement -----

  /** The round has not ended, or its generation has passed. */
  predicate BeginsInTime(s: System, id: nat) {
    id in s.parties && var p := s.parties[id]; HasEnded(s.ended, p) ==> !IsCurrent(s.world.cache, p.root, p.generation)
  }

  ghost predicate Agreeing(s: System) {
    SystemInv(s) && Agreed(s.world.cache, s.parties, s.ended)
  }

  lemma MissKeepsAgreement(s: System, after: System, id: nat, root: Path, fingerprint: Fingerprint)
    requires Agreeing(s) && Next(s, Miss(id, root, fingerprint), after)
    ensures Agreed(after.world.cache, after.parties, after.ended)
  {
    hide InvW; hide After; hide LookUpResult; hide Succeeds; hide Exclusive; hide Agreed; hide CellsOf; hide LocksOf; hide Traced;
    hide Backed; hide AllGiven;
    var looked := After(s.world, LookUp(root, fingerprint)).cache;
    LookUpSound(s.world, root, fingerprint);
    MissLeavesMarker(s.world, root, fingerprint);
    PartiesBackMarkers(s);
    PartiesAreGiven(s);
    NobodyEnds(s, s.ended);
    CacheMovesKeepAgreement(s.world.env, None, s.world.cache, looked, s.parties, s.ended, s.ended);
    NewcomerAgrees(looked, s.parties, s.ended, id, after.parties[id]);
  }

  lemma NobodyEnds(s: System, ended: set<(Path, Id)>)
    requires Agreed(s.world.cache, s.parties, ended)
    ensures forall i :: i in s.parties && AtWork(s.parties[i]) && IsCurrent(s.world.cache, s.parties[i].root, s.parties[i].generation)
              ==> !HasEnded(ended, s.parties[i])
  {}

  lemma NewcomerAgrees(c: Cache, parties: map<nat, Party>, ended: set<(Path, Id)>, id: nat, p: Party)
    requires Agreed(c, parties, ended) && id !in parties && p.phase == Waiting
    requires IsCurrent(c, p.root, p.generation) && Marked(c, p)
    ensures Agreed(c, parties[id := p], ended)
  {
    forall i | i in parties && IsOpen(ended, parties[i]) && parties[i].root == p.root && parties[i].generation == p.generation
      ensures parties[i].cell == p.cell && parties[i].owner == p.owner
    {
      assert Marked(c, parties[i]);
    }
  }

  /** The party that was at work ends its round: it is the only one at work there, and the round is the only open one of its
      generation. */
  lemma EndingKeepsAgreement(s: System, id: nat, phase: Phase, ending: Option<Path>, after: Cache)
    requires Agreeing(s) && id in s.parties && AtWork(s.parties[id]) && phase in {Published, Finished}
    requires Succeeds(s.world.env, ending, s.world.cache, after)
    requires var p := s.parties[id];
             ending == if IsCurrent(s.world.cache, p.root, p.generation) then Some(p.root) else None
    ensures var p := s.parties[id];
            Agreed(after, s.parties[id := p.(phase := phase)], s.ended + {(p.root, p.cell)})
  {
    hide InvW; hide Succeeds; hide Traced; hide CellsOf; hide LocksOf; hide Backed; hide AllGiven;
    var p, c := s.parties[id], s.world.cache;
    var parties, now := s.parties[id := p.(phase := phase)], s.ended + {(p.root, p.cell)};
    PartiesBackMarkers(s);
    PartiesAreGiven(s);
    PhaseKeepsBacking(s.world.env, c, s.parties, id, phase);
    forall i | i in parties && AtWork(parties[i]) && IsCurrent(c, parties[i].root, parties[i].generation)
      ensures !HasEnded(now, parties[i])
    {
      assert i != id && parties[i] == s.parties[i];
    }
    forall i | i in parties && Some(parties[i].root) == ending && IsOpen(now, parties[i])
      ensures !IsCurrent(c, parties[i].root, parties[i].generation)
    {
      assert i != id && parties[i] == s.parties[i];
    }
    OnePhaseKeepsAgreement(c, s.parties, id, phase, s.ended);
    CacheMovesKeepAgreement(s.world.env, ending, c, after, parties, s.ended, now);
  }

  lemma PhaseKeepsBacking(env: Holders, c: Cache, parties: map<nat, Party>, id: nat, phase: Phase)
    requires Backed(env, parties) && AllGiven(c, parties) && id in parties && !IsTask(parties[id])
    ensures Backed(env, parties[id := parties[id].(phase := phase)])
    ensures AllGiven(c, parties[id := parties[id].(phase := phase)])
  {
    assert Alive(env, MarkerOf(parties[id]));
  }

  lemma OnePhaseKeepsAgreement(c: Cache, parties: map<nat, Party>, id: nat, phase: Phase, ended: set<(Path, Id)>)
    requires Agreed(c, parties, ended) && id in parties
    requires var p := parties[id].(phase := phase);
             && (IsTask(parties[id]) ==> IsTask(p))
             && (AtWork(p) && !AtWork(parties[id]) && IsCurrent(c, p.root, p.generation) ==> !HasEnded(ended, p))
    ensures Agreed(c, parties[id := parties[id].(phase := phase)], ended)
  {
    var after := parties[id := parties[id].(phase := phase)];
    forall i | i in after ensures exists j :: j in parties && GoesOn(c, ended, parties[j], after[i]) {
      assert i in parties && GoesOn(c, ended, parties[i], after[i]);
    }
    hide Agreed;
    PhasesKeepAgreement(c, parties, after, ended);
  }

  lemma PublishesKeepsAgreement(s: System, move: Move, after: System)
    requires move.Publishes? && Agreeing(s) && Next(s, move, after)
    ensures Agreed(after.world.cache, after.parties, after.ended)
  {
    hide InvW; hide After; hide PublishResult; hide Allowed; hide Succeeds; hide Invalidates; hide CellsOf; hide LocksOf;
    hide Traced; hide Exclusive; hide Agreed; hide Synced; hide IsCurrent; hide AllGiven; hide Backed;
    var p := s.parties[move.id];
    var operation := PublicationOf(p, move);
    CallSound(s.world, operation);
    if Accepts(s.world, p, move) {
      AcceptedIsCurrent(s.world, p.root, p.generation, move.index, move.bytes, move.fingerprint, move.reservation);
      EndingKeepsAgreement(s, move.id, Published, Some(p.root), after.world.cache);
    } else {
      RefusalEndsNothing(s.world, p.root, p.generation, move.index, move.bytes, move.fingerprint, move.reservation);
      QuietStepKeepsAgreement(s, move.id, Refused, after.world.cache);
    }
  }

  /** A party goes on while the cache ends nobody's marker. */
  lemma QuietStepKeepsAgreement(s: System, id: nat, phase: Phase, after: Cache)
    requires Agreeing(s) && id in s.parties && !IsTask(s.parties[id]) && phase == Refused
    requires Succeeds(s.world.env, None, s.world.cache, after)
    ensures Agreed(after, s.parties[id := s.parties[id].(phase := phase)], s.ended)
  {
    hide InvW; hide Succeeds; hide Traced; hide CellsOf; hide LocksOf; hide Backed; hide Agreed; hide Exclusive; hide AllGiven;
    var parties := s.parties[id := s.parties[id].(phase := phase)];
    PartiesBackMarkers(s);
    PartiesAreGiven(s);
    PhaseKeepsBacking(s.world.env, s.world.cache, s.parties, id, phase);
    OnePhaseKeepsAgreement(s.world.cache, s.parties, id, phase, s.ended);
    NobodyEnds(s.(parties := parties), s.ended);
    CacheMovesKeepAgreement(s.world.env, None, s.world.cache, after, parties, s.ended, s.ended);
  }

  lemma RefusalEndsNothing(w: World, root: Path, generation: nat, index: Id, bytes: nat, fingerprint: Fingerprint, reservation: Id)
    requires InvW(w) && PublishResult(w, root, generation, index, bytes, fingerprint, reservation) == PublishStale
    ensures Succeeds(w.env, None, w.cache, After(w, PublishIndex(root, generation, index, bytes, fingerprint, reservation)).cache)
  {
    hide RetainedBytes; hide Stamped; hide Exact; hide Succeeds; hide Enforce; hide Bounded; hide Publish; hide Prune;
    var env := WithoutReservation(w.env, reservation);
    HoldersMoveSound(w, w.(env := env));
    PublishCases(w.cache, env, root, generation, index, bytes, fingerprint);
    PrunedInv(w.cache, env, w.known);
    KeptIsAccepted(w.cache, env, root, generation, index, bytes, fingerprint);
    SameHolders(env, w.env, w.cache, Prune(w.cache, env));
  }

  lemma KeptIsAccepted(c: Cache, env: Holders, root: Path, generation: nat, index: Id, bytes: nat, fingerprint: Fingerprint)
    ensures Publish(c, env, root, generation, index, bytes, fingerprint).1 == PublishStale ==>
              Publish(c, env, root, generation, index, bytes, fingerprint).0 == Prune(c, env)
  {
    hide Prune; hide RetainedBytes; hide Enforce;
  }

  lemma SameHolders(left: Holders, env: Holders, before: Cache, after: Cache)
    requires left.cells == env.cells && left.lockedOwners == env.lockedOwners && Succeeds(left, None, before, after)
    ensures Succeeds(env, None, before, after)
  {
  }

  /** Reporting the failure of a build whose generation has passed ends nobody's round. */
  lemma StaleFailureEndsNothing(w: World, root: Path, generation: nat)
    requires InvW(w) && !IsCurrent(w.cache, root, generation)
    ensures Succeeds(w.env, None, w.cache, After(w, BuildFailed(root, generation)).cache)
  {
    hide Accounted; hide Stamped; hide Bounded; hide Enforce; hide Succeeds; hide Shrinks;
    EnforceSound(w.cache, w.env, w.known, None);
    ShrinkingSucceeds(w.env, w.cache, Enforce(w.cache, w.env, None));
  }

  lemma MarkFailedKeepsAgreement(s: System, after: System, id: nat)
    requires Agreeing(s) && Next(s, MarkFailed(id), after)
    ensures Agreed(after.world.cache, after.parties, after.ended)
  {
    hide InvW; hide After; hide Succeeds; hide Invalidates; hide Agreed; hide Exclusive; hide CellsOf; hide LocksOf; hide Traced;
    hide Synced; hide IsCurrent;
    var p := s.parties[id];
    CallSound(s.world, BuildFailed(p.root, p.generation));
    if IsCurrent(s.world.cache, p.root, p.generation) {
      EndingKeepsAgreement(s, id, Finished, Some(p.root), after.world.cache);
    } else {
      StaleFailureEndsNothing(s.world, p.root, p.generation);
      EndingKeepsAgreement(s, id, Finished, None, after.world.cache);
    }
  }

  lemma OtherKeepsAgreement(s: System, after: System, operation: Operation)
    requires Agreeing(s) && Next(s, Other(operation), after)
    ensures Agreed(after.world.cache, after.parties, after.ended)
  {
    hide InvW; hide After; hide Succeeds; hide Agreed; hide Exclusive; hide Allowed; hide Invalidates; hide Traced; hide Backed;
    hide AllGiven;
    CallSound(s.world, operation);
    PartiesBackMarkers(s);
    PartiesAreGiven(s);
    NobodyEnds(s, s.ended);
    CacheMovesKeepAgreement(s.world.env, None, s.world.cache, after.world.cache, s.parties, s.ended, s.ended);
  }

  /** Where a party of the next state comes from, and whether it goes to work with this move. */
  lemma PartyMovesDerive(s: System, move: Move, after: System, i: nat) returns (j: nat)
    requires MovesOneParty(move) && Next(s, move, after) && i in after.parties
    ensures j in s.parties && ComesFrom(s.parties[j], after.parties[i])
    ensures GoesToWork(s.parties[j], after.parties[i]) ==> move == Begin(j)
  {
    hide After; hide LookUpResult; hide PublishResult; hide Allowed; hide HoldersMove; hide CellsOf; hide LocksOf; hide IsCurrent;
    hide IsIdle;
    j := if move.Cancel? && i == move.task then move.id else i;
  }

  lemma PartyMovesLeaveCache(s: System, move: Move, after: System)
    requires MovesOneParty(move) && Next(s, move, after)
    ensures after.world.cache == s.world.cache && after.ended == s.ended
  {
    hide After; hide LookUpResult; hide PublishResult; hide Allowed; hide HoldersMove; hide CellsOf; hide LocksOf; hide IsCurrent;
    hide IsIdle;
  }

  lemma PartyMovesKeepAgreement(s: System, move: Move, after: System)
    requires Agreeing(s) && MovesOneParty(move) && Next(s, move, after)
    requires move.Begin? ==> BeginsInTime(s, move.id)
    ensures Agreed(after.world.cache, after.parties, after.ended)
  {
    hide Next; hide SystemInv; hide Agreed; hide AtWork; hide IsTask;
    PartyMovesLeaveCache(s, move, after);
    forall i | i in after.parties ensures exists j :: j in s.parties && GoesOn(s.world.cache, s.ended, s.parties[j], after.parties[i]) {
      var j := PartyMovesDerive(s, move, after, i);
      assert GoesOn(s.world.cache, s.ended, s.parties[j], after.parties[i]);
    }
    PhasesKeepAgreement(s.world.cache, s.parties, after.parties, s.ended);
  }

  lemma NextKeepsAgreement(s: System, move: Move, after: System)
    requires Agreeing(s) && Next(s, move, after)
    requires move.Begin? ==> BeginsInTime(s, move.id)
    ensures Agreeing(after)
  {
    NextKeepsInv(s, move, after);
    match move {
      case Miss(id, root, fingerprint) => hide *; MissKeepsAgreement(s, after, id, root, fingerprint);
      case Publishes(_, _, _, _, _) => hide *; PublishesKeepsAgreement(s, move, after);
      case MarkFailed(id) => hide *; MarkFailedKeepsAgreement(s, after, id);
      case Other(operation) => hide *; OtherKeepsAgreement(s, after, operation);
      case Drops => hide SystemInv; hide Agreed; SameCache(s, after);
      case _ => hide SystemInv; hide Agreed; hide Next; PartyMovesKeepAgreement(s, move, after);
    }
  }

  lemma SameCache(s: System, after: System)
    requires Next(s, Drops, after)
    ensures after.world.cache == s.world.cache && after.parties == s.parties && after.ended == s.ended
  {}

  // ----- the main results -----

  /** No move so far begins in a cell whose build has already ended, unless its generation has passed. */
  ghost predicate Orderly(states: seq<System>, moves: seq<Move>, n: nat)
    requires |states| == |moves| + 1
  {
    forall k :: 0 <= k < n && k < |moves| && moves[k].Begin? ==> BeginsInTime(states[k], moves[k].id)
  }

  lemma {:induction false} OrderlyKeepsAgreement(states: seq<System>, moves: seq<Move>, n: nat)
    requires IsExecution(states, moves) && n < |states| && Orderly(states, moves, n)
    ensures Agreeing(states[n])
    decreases n
  {
    hide Next; hide SystemInv; hide BeginsInTime; hide Agreed;
    if n == 0 {
      StartInv(states[0]);
      NobodyToAgree(states[0]);
    } else {
      OrderlyKeepsAgreement(states, moves, n - 1);
      NextKeepsAgreement(states[n - 1], moves[n - 1], states[n]);
    }
  }

  lemma NobodyToAgree(s: System)
    requires s.parties == map[]
    ensures Agreed(s.world.cache, s.parties, s.ended)
  {}

  /** Whoever looks the project up now waits for this build. */
  ghost predicate IsJoined(w: World, p: Party) {
    forall fingerprint :: LookUpResult(w, p.root, fingerprint) == Build(p.cell, p.owner, p.generation)
  }

  /** Every build of a current generation that is at work is the one that lookups join. */
  ghost predicate BuildsAreJoined(s: System) {
    forall i :: i in s.parties && AtWork(s.parties[i]) && IsCurrent(s.world.cache, s.parties[i].root, s.parties[i].generation)
      ==> IsJoined(s.world, s.parties[i])
  }

  lemma JoinedIffMarked(s: System, i: nat)
    requires SystemInv(s) && i in s.parties && AtWork(s.parties[i])
    requires IsCurrent(s.world.cache, s.parties[i].root, s.parties[i].generation)
    ensures IsJoined(s.world, s.parties[i]) <==> Marked(s.world.cache, s.parties[i])
  {
    var p := s.parties[i];
    if Marked(s.world.cache, p) {
      PartiesBackMarkers(s);
      forall fingerprint ensures LookUpResult(s.world, p.root, fingerprint) == Build(p.cell, p.owner, p.generation) {
        LiveMarkerIsShared(s.world, p.root, fingerprint);
      }
    } else {
      var fingerprint := Fingerprint("", 0);
      UnmarkedIsNotJoined(s.world, p, fingerprint);
      assert LookUpResult(s.world, p.root, fingerprint) != Build(p.cell, p.owner, p.generation);
    }
  }

  /** A lookup answers with another cell, or with an index. */
  lemma UnmarkedIsNotJoined(w: World, p: Party, fingerprint: Fingerprint)
    requires InvW(w) && KnownParty(w.cache, p) && IsCurrent(w.cache, p.root, p.generation) && !Marked(w.cache, p)
    ensures LookUpResult(w, p.root, fingerprint) != Build(p.cell, p.owner, p.generation)
  {
    StateIsStamped(w, p.root);
    hide InvW;
  }

  /** In every execution, up to every moment: every lookup joined the builds at work in its generation if and only if nobody
      began in a cell whose build had already published or failed in that generation. */
  lemma BuildsAreJoinedIff(states: seq<System>, moves: seq<Move>, n: nat)
    requires IsExecution(states, moves) && n < |states|
    ensures (forall k :: 0 <= k <= n ==> BuildsAreJoined(states[k])) <==> Orderly(states, moves, n)
  {
    hide SystemInv; hide Next; hide IsJoined; hide Agreed; hide BuildsAreJoined; hide BeginsInTime;
    if Orderly(states, moves, n) {
      forall k | 0 <= k <= n ensures BuildsAreJoined(states[k]) {
        OrderlyKeepsAgreement(states, moves, k);
        AgreedAreJoined(states[k]);
      }
    } else {
      var k :| 0 <= k < n && k < |moves| && moves[k].Begin? && !BeginsInTime(states[k], moves[k].id);
      ExecutionKeepsInv(states, moves, k + 1);
      LateIsNotJoined(states[k], moves[k], states[k + 1]);
    }
  }

  lemma AgreedAreJoined(s: System)
    requires Agreeing(s)
    ensures BuildsAreJoined(s)
  {
    forall i | i in s.parties && AtWork(s.parties[i]) && IsCurrent(s.world.cache, s.parties[i].root, s.parties[i].generation)
      ensures IsJoined(s.world, s.parties[i])
    {
      assert IsOpen(s.ended, s.parties[i]);
      hide IsJoined; hide SystemInv;
      JoinedIffMarked(s, i);
    }
  }

  lemma LateIsNotJoined(s: System, move: Move, after: System)
    requires move.Begin? && Next(s, move, after) && SystemInv(after) && !BeginsInTime(s, move.id)
    ensures !BuildsAreJoined(after)
  {
    hide InvW; hide Exclusive; hide CellsOf; hide LocksOf; hide IsJoined;
    var p := after.parties[move.id];
    assert HasEnded(after.ended, p) && IsCurrent(after.world.cache, p.root, p.generation);
    assert !Marked(after.world.cache, p) by { assert Marked(after.world.cache, p) ==> HasMarker(after.world.cache, p.root); }
    hide Traced; hide Synced;
    JoinedIffMarked(after, move.id);
  }

  /** In every round of every such execution: two parties of a generation whose rounds have not ended share cell and owner, so
      at most one of them holds the lock and at most one runs the cell's build, and a lookup that misses joins them. */
  lemma OneBuildPerRound(states: seq<System>, moves: seq<Move>, n: nat, i: nat, j: nat)
    requires IsExecution(states, moves) && n < |states| && Orderly(states, moves, n)
    requires i in states[n].parties && j in states[n].parties
    requires var s := states[n];
             && IsOpen(s.ended, s.parties[i]) && IsOpen(s.ended, s.parties[j])
             && s.parties[i].root == s.parties[j].root && s.parties[i].generation == s.parties[j].generation
    ensures var p, q := states[n].parties[i], states[n].parties[j];
            && p.cell == q.cell && p.owner == q.owner
            && (HoldsLock(p) && HoldsLock(q) ==> i == j)
            && (Initializes(p) && Initializes(q) ==> i == j)
    ensures var p := states[n].parties[i];
            forall fingerprint ::
              var reply := LookUpResult(states[n].world, p.root, fingerprint);
              reply.Build? && reply.generation == p.generation ==> reply.cell == p.cell && reply.owner == p.owner
  {
    hide Next; hide InvW; hide Traced; hide Synced;
    OrderlyKeepsAgreement(states, moves, n);
    var s, p := states[n], states[n].parties[i];
    forall fingerprint |
      var reply := LookUpResult(s.world, p.root, fingerprint); reply.Build? && reply.generation == p.generation
      ensures var reply := LookUpResult(s.world, p.root, fingerprint); reply.cell == p.cell && reply.owner == p.owner
    {
      hide Exclusive; hide LookUpResult;
      MissJoinsRound(s, i, fingerprint);
    }
  }

  lemma MissJoinsRound(s: System, i: nat, fingerprint: Fingerprint)
    requires Agreeing(s) && i in s.parties && IsOpen(s.ended, s.parties[i])
    requires var reply := LookUpResult(s.world, s.parties[i].root, fingerprint);
             reply.Build? && reply.generation == s.parties[i].generation
    ensures var reply := LookUpResult(s.world, s.parties[i].root, fingerprint);
            reply.cell == s.parties[i].cell && reply.owner == s.parties[i].owner
  {
    hide InvW; hide After; hide LookUpResult; hide Succeeds; hide Exclusive; hide CellsOf; hide LocksOf; hide Traced;
    hide Backed; hide AllGiven; hide Synced;
    var p := s.parties[i];
    var looked := After(s.world, LookUp(p.root, fingerprint)).cache;
    LookUpSound(s.world, p.root, fingerprint);
    MissLeavesMarker(s.world, p.root, fingerprint);
    PartiesBackMarkers(s);
    PartiesAreGiven(s);
    NobodyEnds(s, s.ended);
    CacheMovesKeepAgreement(s.world.env, None, s.world.cache, looked, s.parties, s.ended, s.ended);
  }

  /** So a project's current generation has at most one build at work. */
  lemma OneBuildAtWork(states: seq<System>, moves: seq<Move>, n: nat, i: nat, j: nat)
    requires IsExecution(states, moves) && n < |states| && Orderly(states, moves, n)
    requires i in states[n].parties && j in states[n].parties && AtWork(states[n].parties[i]) && AtWork(states[n].parties[j])
    requires var (p, q) := (states[n].parties[i], states[n].parties[j]);
             p.root == q.root && p.generation == q.generation && IsCurrent(states[n].world.cache, p.root, p.generation)
    ensures i == j
  {
    hide Next; hide InvW; hide Traced; hide Synced;
    OrderlyKeepsAgreement(states, moves, n);
  }

  // ----- generations that have passed -----

  /** No move so far begins in a cell whose build has already ended, whatever became of its generation. */
  ghost predicate NeverLate(states: seq<System>, moves: seq<Move>, n: nat)
    requires |states| == |moves| + 1
  {
    forall k :: 0 <= k < n && k < |moves| && moves[k].Begin? ==>
      moves[k].id in states[k].parties && !HasEnded(states[k].ended, states[k].parties[moves[k].id])
  }

  predicate WorkIsOpen(s: System) {
    forall i :: i in s.parties && AtWork(s.parties[i]) ==> !HasEnded(s.ended, s.parties[i])
  }

  lemma NextKeepsWorkOpen(s: System, move: Move, after: System)
    requires SystemInv(s) && WorkIsOpen(s) && Next(s, move, after)
    requires move.Begin? ==> move.id in s.parties && !HasEnded(s.ended, s.parties[move.id])
    ensures WorkIsOpen(after)
  {
    hide InvW; hide After; hide PublishResult; hide Allowed; hide HoldersMove; hide CellsOf; hide LocksOf; hide IsCurrent;
    hide LookUpResult; hide IsIdle; hide Synced; hide Traced;
  }

  lemma {:induction false} NeverLateKeepsWorkOpen(states: seq<System>, moves: seq<Move>, n: nat)
    requires IsExecution(states, moves) && n < |states| && NeverLate(states, moves, n)
    ensures WorkIsOpen(states[n])
    decreases n
  {
    hide Next; hide SystemInv; hide HasEnded;
    if n > 0 {
      NeverLateKeepsWorkOpen(states, moves, n - 1);
      ExecutionKeepsInv(states, moves, n - 1);
      NextKeepsWorkOpen(states[n - 1], moves[n - 1], states[n]);
    }
  }

  /** If nobody ever begins late, no generation has two builds at work, not even one that has passed. */
  lemma OneBuildAtWorkEver(states: seq<System>, moves: seq<Move>, n: nat, i: nat, j: nat)
    requires IsExecution(states, moves) && n < |states| && NeverLate(states, moves, n)
    requires i in states[n].parties && j in states[n].parties && AtWork(states[n].parties[i]) && AtWork(states[n].parties[j])
    requires states[n].parties[i].root == states[n].parties[j].root
    requires states[n].parties[i].generation == states[n].parties[j].generation
    ensures i == j
  {
    hide Next; hide SystemInv; hide IsCurrent; hide Agreed;
    NeverLateKeepsWorkOpen(states, moves, n);
    OneBuildPerRound(states, moves, n, i, j);
  }
}
