/** Nobody waits forever: in whatever state requests share a build, all of them can come to their end. */
module BuildProgress {
  import opened Common
  import opened Ledger
  import opened CacheModel
  import opened CacheRuns
  import opened BuildProtocol

  /** The moves that take a party further, none of which needs a newcomer or a cancellation. */
  predicate MovesOn(move: Move) {
    move.Begin? || move.Acquire? || move.Fails? || move.Stops? || move.MarkFailed? || move.Settle? || move.Leave?
    || move.Locks? || move.Returns?
  }

  function StepsLeft(p: Party): nat {
    match p.phase
    case Waiting => 7
    case Initializing => 6
    case Building => 5
    case Published => 4
    case Refused => 4
    case Failing => 4
    case Finished => 3
    case Answered => 2
    case Abandoned => 1
    case Notifying => 2
    case Notified => 1
  }

  ghost function AllStepsLeft(parties: map<nat, Party>): nat { SumMap(parties, StepsLeft) }

  lemma FewerStepsLeft(parties: map<nat, Party>, id: nat, after: map<nat, Party>)
    requires id in parties
    requires after == parties - {id} || (exists p :: after == parties[id := p] && StepsLeft(p) < StepsLeft(parties[id]))
    ensures AllStepsLeft(after) < AllStepsLeft(parties)
  {
    hide StepsLeft;
    SumMapRemove(parties, StepsLeft, id);
    if after == parties - {id} {
      SomeStepIsLeft(parties[id]);
    } else {
      var p :| after == parties[id := p] && StepsLeft(p) < StepsLeft(parties[id]);
      SumMapRemove(after, StepsLeft, id);
      assert after - {id} == parties - {id};
    }
  }

  lemma SomeStepIsLeft(p: Party)
    ensures StepsLeft(p) > 0
  {}

  ghost predicate Advances(s: System, move: Move, after: System) {
    MovesOn(move) && Next(s, move, after) && AllStepsLeft(after.parties) < AllStepsLeft(s.parties)
  }

  lemma PhaseAdvances(s: System, move: Move, after: System, id: nat, phase: Phase)
    requires MovesOn(move) && Next(s, move, after) && id in s.parties
    requires after.parties == s.parties[id := s.parties[id].(phase := phase)]
    requires StepsLeft(s.parties[id].(phase := phase)) < StepsLeft(s.parties[id])
    ensures Advances(s, move, after)
  {
    hide Next, StepsLeft;
    FewerStepsLeft(s.parties, id, after.parties);
  }

  lemma LeavingAdvances(s: System, move: Move, after: System, id: nat)
    requires MovesOn(move) && Next(s, move, after) && id in s.parties && after.parties == s.parties - {id}
    ensures Advances(s, move, after)
  {
    hide Next, StepsLeft;
    FewerStepsLeft(s.parties, id, after.parties);
  }

  /** The parties that wait for nobody. */
  predicate IsFree(p: Party) { p.phase != Waiting && p.phase != Initializing }

  lemma FreeMovesOn(s: System, id: nat) returns (move: Move, after: System)
    requires id in s.parties && IsFree(s.parties[id])
    ensures Advances(s, move, after)
  {
    hide After, HoldersMove, CellsOf, LocksOf, Allowed, AllStepsLeft, Advances, LookUpResult, PublishResult;
    var p := s.parties[id];
    match p.phase {
      case Building =>
        move, after := Fails(id), Set(s, id, p.(phase := Failing));
        PhaseAdvances(s, move, after, id, Failing);
      case Failing =>
        move := MarkFailed(id);
        var told := s.(world := After(s.world, BuildFailed(p.root, p.generation)), ended := s.ended + {(p.root, p.cell)});
        after := Set(told, id, p.(phase := Finished));
        PhaseAdvances(s, move, after, id, Finished);
      case Finished =>
        move, after := Settle(id), Set(s.(settled := s.settled + {p.cell}), id, p.(phase := Answered));
        PhaseAdvances(s, move, after, id, Answered);
      case Answered =>
        move, after := Leave(id), Remove(s, id);
        LeavingAdvances(s, move, after, id);
      case _ =>
        if p.phase in {Published, Refused} {
          move, after := Stops(id), Set(s, id, p.(phase := Finished));
          PhaseAdvances(s, move, after, id, Finished);
        } else {
          move, after := Returns(id), Remove(s, id);
          LeavingAdvances(s, move, after, id);
        }
    }
  }

  /** Who waits for the lock waits for a party that is free. */
  lemma InitializingMovesOn(s: System, id: nat) returns (move: Move, after: System)
    requires id in s.parties && s.parties[id].phase == Initializing
    ensures Advances(s, move, after)
  {
    hide Next, AllStepsLeft, Advances, CellsOf;
    var p := s.parties[id];
    if p.owner in LocksOf(s.parties) {
      var holder :| holder in s.parties && HoldsLock(s.parties[holder]) && s.parties[holder].owner == p.owner;
      move, after := FreeMovesOn(s, holder);
    } else {
      move, after := Acquire(id), Set(s, id, p.(phase := Building));
      Acquires(s, id);
      PhaseAdvances(s, move, after, id, Building);
    }
  }

  lemma Acquires(s: System, id: nat)
    requires id in s.parties && s.parties[id].phase == Initializing && s.parties[id].owner !in LocksOf(s.parties)
    ensures Next(s, Acquire(id), Set(s, id, s.parties[id].(phase := Building)))
  {
    hide After, CellsOf, LocksOf;
  }

  /** Who waits for the outcome waits for whoever runs the build, or may run it. */
  lemma WaitingMovesOn(s: System, id: nat) returns (move: Move, after: System)
    requires id in s.parties && s.parties[id].phase == Waiting
    ensures Advances(s, move, after)
  {
    hide AllStepsLeft, Advances, CellsOf, LocksOf, After, HoldersMove, Allowed, LookUpResult, PublishResult;
    var p := s.parties[id];
    if p.cell in s.settled {
      move, after := Leave(id), Remove(s, id);
      LeavingAdvances(s, move, after, id);
    } else if IsIdle(s.parties, p.cell) {
      move, after := Begin(id), Set(s, id, p.(phase := Initializing));
      PhaseAdvances(s, move, after, id, Initializing);
    } else {
      var other :| other in s.parties && Initializes(s.parties[other]) && s.parties[other].cell == p.cell;
      if s.parties[other].phase == Initializing {
        move, after := InitializingMovesOn(s, other);
      } else {
        move, after := FreeMovesOn(s, other);
      }
    }
  }

  /** As long as anybody is left, somebody can move on. */
  lemma SomebodyMovesOn(s: System) returns (move: Move, after: System)
    requires s.parties != map[]
    ensures Advances(s, move, after)
  {
    hide Next, AllStepsLeft, Advances;
    var id :| id in s.parties;
    if s.parties[id].phase == Waiting {
      move, after := WaitingMovesOn(s, id);
    } else if s.parties[id].phase == Initializing {
      move, after := InitializingMovesOn(s, id);
    } else {
      move, after := FreeMovesOn(s, id);
    }
  }

  /** From whatever state, all requests, jobs and tasks can come to their end without a newcomer or a cancellation. */
  lemma {:induction false} EverybodyCanFinish(s: System) returns (states: seq<System>, moves: seq<Move>)
    ensures |states| == |moves| + 1 && states[0] == s && states[|moves|].parties == map[]
    ensures forall i :: 0 <= i < |moves| ==> MovesOn(moves[i]) && Next(states[i], moves[i], states[i + 1])
    decreases AllStepsLeft(s.parties)
  {
    hide Next, MovesOn, AllStepsLeft;
    if s.parties == map[] {
      states, moves := [s], [];
    } else {
      var move, after := SomebodyMovesOn(s);
      states, moves := EverybodyCanFinish(after);
      states, moves := [s] + states, [move] + moves;
    }
  }

  /** A build's index is accepted exactly if its generation is still current, which ends the build. */
  lemma AcceptedIff(s: System, move: Move, after: System)
    requires move.Publishes? && Next(s, move, after)
    ensures var p := s.parties[move.id];
      && after.parties == s.parties[move.id := after.parties[move.id]]
      && (after.parties[move.id].phase == Published <==> IsCurrent(s.world.cache, p.root, p.generation))
      && (after.parties[move.id].phase == Refused <==> !IsCurrent(s.world.cache, p.root, p.generation))
      && (after.ended == if IsCurrent(s.world.cache, p.root, p.generation) then s.ended + {(p.root, p.cell)} else s.ended)
  {
    hide After, Allowed, CellsOf, LocksOf, Publish;
    var p := s.parties[move.id];
    var env := WithoutReservation(s.world.env, move.reservation);
    StaleIff(s.world.cache, env, p.root, p.generation, move.index, move.bytes, move.fingerprint);
  }

  lemma StaleIff(c: Cache, env: Holders, root: Path, generation: nat, index: Id, bytes: nat, fingerprint: Fingerprint)
    ensures Publish(c, env, root, generation, index, bytes, fingerprint).1 == PublishStale <==> !IsCurrent(c, root, generation)
  {
    hide RetainedBytes, Enforce, ReleaseIndex, Live, StrongIndexes, StrongRunners, Alive;
  }

  // ----- the outcome of a cell is computed once -----

  predicate SettledIsOver(s: System) {
    forall i :: i in s.parties && Initializes(s.parties[i]) ==> s.parties[i].cell !in s.settled
  }

  lemma NextKeepsSettled(s: System, move: Move, after: System)
    requires Exclusive(s.parties) && SettledIsOver(s) && Next(s, move, after)
    ensures SettledIsOver(after) && s.settled <= after.settled
  {
    hide After, LookUpResult, PublishResult, Allowed, HoldersMove, CellsOf, LocksOf, IsIdle, IsCurrent;
    if move.Begin? {
      assert s.parties[move.id].cell !in s.settled;
    }
  }

  /** Once the outcome of a cell is set, it stays, and nobody ever runs a build of that cell again. */
  lemma {:induction false} SettledForGood(states: seq<System>, moves: seq<Move>, n: nat, k: nat, i: nat)
    requires IsExecution(states, moves) && n <= k < |states| && i in states[k].parties
    requires states[k].parties[i].cell in states[n].settled
    ensures states[k].parties[i].cell in states[k].settled && !Initializes(states[k].parties[i])
  {
    SettledIsOverAt(states, moves, k);
    SettledGrows(states, moves, n, k);
  }

  lemma {:induction false} SettledGrows(states: seq<System>, moves: seq<Move>, n: nat, k: nat)
    requires IsExecution(states, moves) && n <= k < |states|
    ensures states[n].settled <= states[k].settled
    decreases k
  {
    hide Next, SettledIsOver, SystemInv;
    if n < k {
      SettledGrows(states, moves, n, k - 1);
      SettledIsOverAt(states, moves, k - 1);
      ExecutionIsExclusive(states, moves, k - 1);
      NextKeepsSettled(states[k - 1], moves[k - 1], states[k]);
    }
  }

  lemma ExecutionIsExclusive(states: seq<System>, moves: seq<Move>, n: nat)
    requires IsExecution(states, moves) && n < |states|
    ensures Exclusive(states[n].parties)
  {
    hide IsExecution, Exclusive, InvW, Traced, Synced;
    ExecutionKeepsInv(states, moves, n);
  }

  lemma {:induction false} SettledIsOverAt(states: seq<System>, moves: seq<Move>, n: nat)
    requires IsExecution(states, moves) && n < |states|
    ensures SettledIsOver(states[n])
    decreases n
  {
    hide Next, Exclusive;
    if n > 0 {
      hide SettledIsOver;
      SettledIsOverAt(states, moves, n - 1);
      ExecutionIsExclusive(states, moves, n - 1);
      NextKeepsSettled(states[n - 1], moves[n - 1], states[n]);
    }
  }
}
