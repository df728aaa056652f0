/** Recovery of a damaged index cache database shared by several processes. The database at the
    path has incarnations: each deletion and creation makes a new one. A lock file serializes
    recovery and holds the epoch, the number of resets so far. */
module Recovery {
  import opened Common

  type Process = nat
  type Incarnation = nat

  /** Where a process is. `outer` is the epoch a write observed before it opened the database;
      a process that only reads has none. */
  datatype Phase =
    | Idle
    | ReadingEpoch                                                                          // shared lock
    | Ready(outer: Option<nat>)
    | Opening(outer: Option<nat>)                                                           // shared lock
    | Looking(outer: Option<nat>, epoch: nat)                                               // shared lock
    | Opened(outer: Option<nat>, inc: Incarnation)                                          // shared lock
    | Diagnosed(outer: Option<nat>, epoch: nat, inc: Incarnation)                           // shared lock
    | Using(outer: Option<nat>, inc: Incarnation)
    | Recovering(next: Option<nat>, observed: nat, diagnosis: Incarnation)
    | Locked(next: Option<nat>, observed: nat, diagnosis: Incarnation)                      // exclusive lock
    | Resetting(next: Option<nat>, observed: nat, diagnosis: Incarnation)                   // exclusive lock
    | Stamping(next: Option<nat>, observed: nat, diagnosis: Incarnation)                    // exclusive lock
    | Reopening(next: Option<nat>, observed: nat, diagnosis: Incarnation)                   // exclusive lock

  predicate Shared(p: Phase) {
    p.ReadingEpoch? || p.Opening? || p.Looking? || p.Opened? || p.Diagnosed?
  }

  predicate Exclusive(p: Phase) {
    p.Locked? || p.Resetting? || p.Stamping? || p.Reopening?
  }

  /** One deletion of the database: what was at the path, and what its process had diagnosed. */
  datatype Reset = Reset(process: Process, deleted: Option<Incarnation>, diagnosis: Incarnation)

  /** `born[k]` is the incarnation created in epoch `base + k`; `resets[k]` ended it. */
  datatype State = State(
    phases: map<Process, Phase>,
    epoch: nat,
    db: Option<Incarnation>,
    next: Incarnation,
    damaged: set<Incarnation>,
    base: nat,
    born: seq<Option<Incarnation>>,
    resets: seq<Reset>)

  predicate Init(s: State) {
    && (forall p :: p in s.phases ==> s.phases[p] == Idle)
    && s.epoch == s.base && s.resets == [] && s.born == [s.db]
    && (s.db.Some? ==> s.db.value < s.next)
  }

  predicate NoneExclusive(s: State) {
    forall p :: p in s.phases ==> !Exclusive(s.phases[p])
  }

  predicate NoneLocked(s: State) {
    forall p :: p in s.phases ==> !Exclusive(s.phases[p]) && !Shared(s.phases[p])
  }

  function To(s: State, p: Process, phase: Phase): State {
    s.(phases := s.phases[p := phase])
  }

  /** `try_open` creates the database when there is none. */
  function Created(s: State): State
    requires |s.born| > 0
  {
    if s.db.Some? then s
    else s.(db := Some(s.next), next := s.next + 1, born := s.born[..|s.born| - 1] + [Some(s.next)])
  }

  function Born(s: State, epoch: nat): Option<Incarnation> {
    if s.base <= epoch < s.base + |s.born| then s.born[epoch - s.base] else None
  }

  /** What process `p` does next when nothing fails. Damage is not a step of a process: it happens to a file. */
  ghost predicate Proceeds(s: State, p: Process, t: State)
    requires p in s.phases && |s.born| > 0
  {
    match s.phases[p]
    case Idle =>
      || t == To(s, p, Ready(None))
      || (NoneExclusive(s) && t == To(s, p, ReadingEpoch))
    case ReadingEpoch => t == To(s, p, Ready(Some(s.epoch)))
    case Ready(outer) => NoneExclusive(s) && t == To(s, p, Opening(outer))
    case Opening(outer) => t == To(s, p, Looking(outer, s.epoch))
    case Looking(outer, epoch) =>
      var made := Created(s);
      var inc := made.db.value;
      t == To(made, p, if inc in s.damaged then Diagnosed(outer, epoch, inc) else Opened(outer, inc))
    case Opened(outer, inc) => t == To(s, p, Using(outer, inc))
    case Diagnosed(outer, epoch, inc) => t == To(s, p, Recovering(outer, epoch, inc))
    case Using(outer, inc) =>
      || t == To(s, p, Idle)
      || (outer.None? && t == To(s, p, Ready(None)))
      || (outer.Some? && inc in s.damaged && t == To(s, p, Recovering(None, outer.value, inc)))
    case Recovering(next, observed, diagnosis) => NoneLocked(s) && t == To(s, p, Locked(next, observed, diagnosis))
    case Locked(next, observed, diagnosis) =>
      t == To(s, p, if s.epoch == observed then Resetting(next, observed, diagnosis) else Reopening(next, observed, diagnosis))
    case Resetting(next, observed, diagnosis) =>
      t == To(s.(db := None, resets := s.resets + [Reset(p, s.db, diagnosis)]), p, Stamping(next, observed, diagnosis))
    case Stamping(next, observed, diagnosis) =>
      t == To(s.(epoch := s.epoch + 1, born := s.born + [None]), p, Reopening(next, observed, diagnosis))
    case Reopening(next, observed, diagnosis) =>
      var made := Created(s);
      var inc := made.db.value;
      t == To(made, p, if inc !in s.damaged then Using(next, inc)
                       else if next.Some? then Recovering(None, next.value, inc) else Idle)
  }

  /** Locking, reading the epoch, opening, deleting and reopening can fail without telling of damage. The process gives
      up, having created the database or not. Once the database is deleted, its epoch is written. */
  predicate GivesUp(s: State, p: Process, t: State)
    requires p in s.phases && |s.born| > 0
  {
    && !s.phases[p].Stamping?
    && (t == To(s, p, Idle) || ((s.phases[p].Looking? || s.phases[p].Reopening?) && t == To(Created(s), p, Idle)))
  }

  ghost predicate Acts(s: State, p: Process, t: State)
    requires p in s.phases && |s.born| > 0
  {
    Proceeds(s, p, t) || GivesUp(s, p, t)
  }

  ghost predicate Next(s: State, t: State) {
    || (exists p :: p in s.phases && |s.born| > 0 && Acts(s, p, t))
    || (exists inc: Incarnation :: t == s.(damaged := s.damaged + {inc}))
  }

  ghost predicate IsExecution(states: seq<State>) {
    && states != [] && Init(states[0])
    && forall i :: 0 <= i < |states| - 1 ==> Next(states[i], states[i + 1])
  }

  // ----- the invariant -----

  predicate Stamps(s: State) {
    exists p :: p in s.phases && s.phases[p].Stamping?
  }

  /** An incarnation born in epoch `from` or later. */
  ghost predicate BornSince(s: State, inc: Incarnation, from: nat) {
    exists epoch: nat :: from <= epoch <= s.epoch && Born(s, epoch) == Some(inc)
  }

  predicate Observed(s: State, outer: Option<nat>) {
    outer.Some? ==> s.base <= outer.value <= s.epoch
  }

  ghost predicate PhaseOk(s: State, p: Phase) {
    match p
    case Ready(outer) => Observed(s, outer)
    case Opening(outer) => Observed(s, outer)
    case Looking(outer, epoch) => Observed(s, outer) && epoch == s.epoch
    case Opened(outer, inc) => Observed(s, outer) && s.db == Some(inc)
    case Diagnosed(outer, epoch, inc) => Observed(s, outer) && epoch == s.epoch && s.db == Some(inc)
    case Using(outer, inc) => Observed(s, outer) && BornSince(s, inc, if outer.Some? then outer.value else s.base)
    case Recovering(next, observed, diagnosis) => Diagnosis(s, next, observed, diagnosis)
    case Locked(next, observed, diagnosis) => Diagnosis(s, next, observed, diagnosis)
    case Resetting(next, observed, diagnosis) => Diagnosis(s, next, observed, diagnosis) && observed == s.epoch
    case Stamping(next, observed, diagnosis) => Diagnosis(s, next, observed, diagnosis) && observed == s.epoch && s.db.None?
    case Reopening(next, observed, diagnosis) => Diagnosis(s, next, observed, diagnosis) && observed < s.epoch
    case _ => true
  }

  ghost predicate Diagnosis(s: State, next: Option<nat>, observed: nat, diagnosis: Incarnation) {
    Observed(s, next) && s.base <= observed <= s.epoch && BornSince(s, diagnosis, observed)
  }

  predicate LocksOk(s: State) {
    forall p, q :: p in s.phases && q in s.phases && p != q && Exclusive(s.phases[p]) ==>
      !Exclusive(s.phases[q]) && !Shared(s.phases[q])
  }

  /** One incarnation per epoch, each with its own identity; every past epoch ended in a reset of
      exactly its incarnation, by a process that had diagnosed it. */
  ghost predicate HistoryOk(s: State) {
    && |s.born| == s.epoch - s.base + 1 && s.base <= s.epoch
    && |s.resets| == s.epoch - s.base + (if Stamps(s) then 1 else 0)
    && (forall k :: 0 <= k < |s.born| && s.born[k].Some? ==> s.born[k].value < s.next)
    && (forall j, k :: 0 <= j < k < |s.born| && s.born[j].Some? ==> s.born[j] != s.born[k])
    && (if Stamps(s) then s.db == None else s.db == s.born[|s.born| - 1])
    && (forall k :: 0 <= k < |s.resets| ==>
          s.resets[k].deleted == s.born[k] == Some(s.resets[k].diagnosis))
  }

  ghost predicate Inv(s: State) {
    LocksOk(s) && HistoryOk(s) && forall p :: p in s.phases ==> PhaseOk(s, s.phases[p])
  }

  // ----- every step keeps it -----

  /** Epochs only grow and births are not forgotten. */
  ghost predicate Extends(s: State, t: State) {
    && t.base == s.base && s.epoch <= t.epoch
    && forall epoch :: Born(s, epoch).Some? ==> Born(t, epoch) == Born(s, epoch)
  }

  lemma OthersStayOk(s: State, t: State, phase: Phase)
    requires PhaseOk(s, phase) && Extends(s, t) && !Exclusive(phase)
    requires Shared(phase) ==> t.epoch == s.epoch && (s.db.Some? ==> t.db == s.db)
    ensures PhaseOk(t, phase)
  {
    forall inc: nat, from: nat | BornSince(s, inc, from) ensures BornSince(t, inc, from) {
      var epoch: nat :| from <= epoch <= s.epoch && Born(s, epoch) == Some(inc);
      assert Born(t, epoch) == Some(inc);
    }
  }

  lemma CreationKeepsHistory(s: State)
    requires HistoryOk(s) && !Stamps(s)
    ensures HistoryOk(Created(s)) && Extends(s, Created(s)) && !Stamps(Created(s))
    ensures var t := Created(s); t.db.Some? && BornSince(t, t.db.value, t.epoch) && (s.db.Some? ==> t.db == s.db)
  {
    var t := Created(s);
    assert t.phases == s.phases;
    assert Born(t, t.epoch) == t.db;
  }

  /** A step of `p` that only changes its phase. */
  lemma PhaseStepKeepsInv(s: State, p: Process, phase: Phase)
    requires Inv(s) && p in s.phases && PhaseOk(s, phase) && !s.phases[p].Stamping? && !phase.Stamping?
    requires Exclusive(phase) && !Exclusive(s.phases[p]) ==> NoneLocked(s)
    requires Shared(phase) && !Shared(s.phases[p]) ==> NoneExclusive(s)
    ensures Inv(To(s, p, phase))
  {
    var t := To(s, p, phase);
    assert Stamps(t) == Stamps(s) by {
      if Stamps(s) {
        var q :| q in s.phases && s.phases[q].Stamping?;
        assert q in t.phases && t.phases[q].Stamping?;
      }
    }
    forall q | q in t.phases ensures PhaseOk(t, t.phases[q]) {
      assert PhaseOk(s, t.phases[q]);
      SamePhaseOk(s, t, t.phases[q]);
    }
  }

  lemma SamePhaseOk(s: State, t: State, phase: Phase)
    requires PhaseOk(s, phase) && t.base == s.base && t.epoch == s.epoch && t.born == s.born && t.db == s.db
    ensures PhaseOk(t, phase)
  {
    forall inc: nat, from: nat | BornSince(s, inc, from) ensures BornSince(t, inc, from) {
      var epoch: nat :| from <= epoch <= s.epoch && Born(s, epoch) == Some(inc);
      assert Born(t, epoch) == Some(inc);
    }
  }

  lemma ExclusiveAlone(s: State, p: Process)
    requires LocksOk(s) && p in s.phases && Exclusive(s.phases[p]) && !s.phases[p].Stamping?
    ensures !Stamps(s)
    ensures forall q :: q in s.phases && q != p ==> !Exclusive(s.phases[q]) && !Shared(s.phases[q])
  {
  }

  lemma SharedSeesNoReset(s: State, p: Process)
    requires LocksOk(s) && p in s.phases && Shared(s.phases[p])
    ensures !Stamps(s) && NoneExclusive(s)
  {
  }

  lemma CreationKeepsInv(s: State, p: Process)
    requires Inv(s) && p in s.phases && (s.phases[p].Looking? || s.phases[p].Reopening?)
    ensures var t := Created(s);
            && Inv(t) && Extends(s, t) && t.db.Some? && t.epoch == s.epoch && t.phases == s.phases
            && BornSince(t, t.db.value, t.epoch)
  {
    var t := Created(s);
    if s.phases[p].Looking? { SharedSeesNoReset(s, p); } else { ExclusiveAlone(s, p); }
    CreationKeepsHistory(s);
    forall q | q in t.phases ensures PhaseOk(t, t.phases[q]) {
      assert PhaseOk(s, s.phases[q]);
      if Exclusive(t.phases[q]) {
        assert q == p;
        DiagnosisPersists(s, t, t.phases[q].next, t.phases[q].observed, t.phases[q].diagnosis);
      } else {
        OthersStayOk(s, t, t.phases[q]);
      }
    }
  }

  lemma DiagnosisPersists(s: State, t: State, next: Option<nat>, observed: nat, diagnosis: Incarnation)
    requires Diagnosis(s, next, observed, diagnosis) && Extends(s, t)
    ensures Diagnosis(t, next, observed, diagnosis)
  {
    var epoch: nat :| observed <= epoch <= s.epoch && Born(s, epoch) == Some(diagnosis);
    assert Born(t, epoch) == Some(diagnosis);
  }

  lemma BornEarlierCounts(s: State, inc: Incarnation, from: nat, lower: nat)
    requires BornSince(s, inc, from) && lower <= from
    ensures BornSince(s, inc, lower)
  {
    var epoch: nat :| from <= epoch <= s.epoch && Born(s, epoch) == Some(inc);
    assert lower <= epoch;
  }

  lemma CurrentIsBorn(s: State)
    requires HistoryOk(s) && !Stamps(s) && s.db.Some?
    ensures BornSince(s, s.db.value, s.epoch)
  {
    assert Born(s, s.epoch) == s.db;
  }

  lemma LookingKeepsInv(s: State, p: Process, t: State)
    requires Inv(s) && p in s.phases && s.phases[p].Looking? && Proceeds(s, p, t)
    ensures Inv(t)
  {
    var made := Created(s);
    CreationKeepsInv(s, p);
    assert PhaseOk(made, made.phases[p]);
    PhaseStepKeepsInv(made, p, t.phases[p]);
  }

  lemma ReopeningKeepsInv(s: State, p: Process, t: State)
    requires Inv(s) && p in s.phases && s.phases[p].Reopening? && Proceeds(s, p, t)
    ensures Inv(t)
  {
    var made := Created(s);
    CreationKeepsInv(s, p);
    var now := made.phases[p];
    assert PhaseOk(made, now);
    BornEarlierCounts(made, made.db.value, made.epoch, if now.next.Some? then now.next.value else made.base);
    PhaseStepKeepsInv(made, p, t.phases[p]);
  }

  /** The phases of the others stay what they were. */
  lemma OthersKeepPhases(s: State, t: State, p: Process)
    requires Extends(s, t) && forall q :: q in s.phases ==> PhaseOk(s, s.phases[q])
    requires forall q :: q in t.phases && q != p ==>
               && q in s.phases && t.phases[q] == s.phases[q] && !Exclusive(s.phases[q])
               && (Shared(s.phases[q]) ==> t.epoch == s.epoch && (s.db.Some? ==> t.db == s.db))
    ensures forall q :: q in t.phases && q != p ==> PhaseOk(t, t.phases[q])
  {
    hide PhaseOk, Extends, Exclusive, Shared;
    forall q | q in t.phases && q != p ensures PhaseOk(t, t.phases[q]) {
      OthersStayOk(s, t, s.phases[q]);
    }
  }

  lemma ResettingKeepsLocks(s: State, p: Process, t: State)
    requires LocksOk(s) && p in s.phases && |s.born| > 0 && s.phases[p].Resetting? && Proceeds(s, p, t)
    ensures LocksOk(t)
  {}

  lemma ResettingKeepsHistory(s: State, p: Process, t: State)
    requires Inv(s) && p in s.phases && s.phases[p].Resetting? && Proceeds(s, p, t)
    ensures HistoryOk(t) && Extends(s, t)
    ensures PhaseOk(t, t.phases[p])
  {
    ExclusiveAlone(s, p);
    hide LocksOk, Exclusive, Shared;
    var now := s.phases[p];
    assert PhaseOk(s, now);
    var epoch: nat :| now.observed <= epoch <= s.epoch && Born(s, epoch) == Some(now.diagnosis);
    assert s.db == Some(now.diagnosis);
    assert t.phases[p].Stamping?;
    assert Extends(s, t);
    DiagnosisPersists(s, t, now.next, now.observed, now.diagnosis);
  }

  lemma ResettingKeepsInv(s: State, p: Process, t: State)
    requires Inv(s) && p in s.phases && s.phases[p].Resetting? && Proceeds(s, p, t)
    ensures Inv(t)
  {
    ExclusiveAlone(s, p);
    ResettingKeepsLocks(s, p, t);
    ResettingKeepsHistory(s, p, t);
    hide PhaseOk, Extends, LocksOk, HistoryOk;
    OthersKeepPhases(s, t, p);
  }

  lemma StampingKeepsInv(s: State, p: Process, t: State)
    requires Inv(s) && p in s.phases && s.phases[p].Stamping? && Proceeds(s, p, t)
    ensures Inv(t)
  {
    var now := s.phases[p];
    assert PhaseOk(s, now);
    assert Extends(s, t);
    assert !Stamps(t);
    assert t.born[|s.born|].None?;
    forall q | q in t.phases ensures PhaseOk(t, t.phases[q]) {
      if q == p {
        DiagnosisPersists(s, t, now.next, now.observed, now.diagnosis);
      } else {
        assert PhaseOk(s, s.phases[q]);
        OthersStayOk(s, t, t.phases[q]);
      }
    }
  }

  lemma OpenedKeepsInv(s: State, p: Process, t: State)
    requires Inv(s) && p in s.phases && (s.phases[p].Opened? || s.phases[p].Diagnosed?) && Proceeds(s, p, t)
    ensures Inv(t)
  {
    var now := s.phases[p];
    assert PhaseOk(s, now);
    SharedSeesNoReset(s, p);
    CurrentIsBorn(s);
    BornEarlierCounts(s, now.inc, s.epoch, if now.outer.Some? then now.outer.value else s.base);
    PhaseStepKeepsInv(s, p, t.phases[p]);
  }

  lemma UsingKeepsInv(s: State, p: Process, t: State)
    requires Inv(s) && p in s.phases && s.phases[p].Using? && Proceeds(s, p, t)
    ensures Inv(t)
  {
    assert PhaseOk(s, s.phases[p]);
    PhaseStepKeepsInv(s, p, t.phases[p]);
  }

  lemma LockingKeepsInv(s: State, p: Process, t: State)
    requires Inv(s) && p in s.phases && (s.phases[p].Recovering? || s.phases[p].Locked?) && Proceeds(s, p, t)
    ensures Inv(t)
  {
    assert PhaseOk(s, s.phases[p]);
    PhaseStepKeepsInv(s, p, t.phases[p]);
  }

  lemma StartingKeepsInv(s: State, p: Process, t: State)
    requires Inv(s) && p in s.phases && Proceeds(s, p, t)
    requires s.phases[p].Idle? || s.phases[p].ReadingEpoch? || s.phases[p].Ready? || s.phases[p].Opening?
    ensures Inv(t)
  {
    assert PhaseOk(s, s.phases[p]);
    PhaseStepKeepsInv(s, p, t.phases[p]);
  }

  /** Giving up drops the lock, and leaves at most a database that was missing before. */
  lemma GivingUpKeepsInv(s: State, p: Process, t: State)
    requires Inv(s) && p in s.phases && GivesUp(s, p, t)
    ensures Inv(t)
  {
    if t != To(s, p, Idle) {
      CreationKeepsInv(s, p);
      PhaseStepKeepsInv(Created(s), p, Idle);
    } else {
      PhaseStepKeepsInv(s, p, Idle);
    }
  }

  lemma ActsKeepsInv(s: State, p: Process, t: State)
    requires Inv(s) && p in s.phases && |s.born| > 0 && Acts(s, p, t)
    ensures Inv(t)
  {
    hide Inv; hide Proceeds; hide GivesUp;
    if GivesUp(s, p, t) {
      GivingUpKeepsInv(s, p, t);
      return;
    }
    match s.phases[p] {
      case Looking(_, _) => LookingKeepsInv(s, p, t);
      case Resetting(_, _, _) => ResettingKeepsInv(s, p, t);
      case Stamping(_, _, _) => StampingKeepsInv(s, p, t);
      case Reopening(_, _, _) => ReopeningKeepsInv(s, p, t);
      case Opened(_, _) => OpenedKeepsInv(s, p, t);
      case Diagnosed(_, _, _) => OpenedKeepsInv(s, p, t);
      case Using(_, _) => UsingKeepsInv(s, p, t);
      case Recovering(_, _, _) => LockingKeepsInv(s, p, t);
      case Locked(_, _, _) => LockingKeepsInv(s, p, t);
      case _ => StartingKeepsInv(s, p, t);
    }
  }

  lemma DamageKeepsInv(s: State, t: State)
    requires Inv(s) && t == s.(damaged := t.damaged)
    ensures Inv(t)
  {
    assert Stamps(t) == Stamps(s);
    forall q | q in t.phases ensures PhaseOk(t, t.phases[q]) {
      assert PhaseOk(s, s.phases[q]);
      SamePhaseOk(s, t, t.phases[q]);
    }
  }

  lemma InitInv(s: State)
    requires Init(s)
    ensures Inv(s)
  {
  }

  lemma {:induction false} ExecutionKeepsInv(states: seq<State>, n: nat)
    requires IsExecution(states) && n < |states|
    ensures Inv(states[n])
    decreases n
  {
    hide Inv; hide Acts;
    if n == 0 {
      InitInv(states[0]);
    } else {
      ExecutionKeepsInv(states, n - 1);
      var s, t := states[n - 1], states[n];
      assert Next(s, t);
      if p :| p in s.phases && |s.born| > 0 && Acts(s, p, t) {
        ActsKeepsInv(s, p, t);
      } else {
        DamageKeepsInv(s, t);
      }
    }
  }

  // ----- the main results -----

  /** In every execution, every reset deletes the incarnation that its own process diagnosed, and
      no incarnation is deleted twice: nobody deletes another's rebuilt database. */
  lemma ResetsAreOwnDiagnoses(states: seq<State>, n: nat)
    requires IsExecution(states) && n < |states|
    ensures var resets := states[n].resets;
            && (forall k :: 0 <= k < |resets| ==> resets[k].deleted == Some(resets[k].diagnosis))
            && (forall j, k :: 0 <= j < k < |resets| ==> resets[j].deleted != resets[k].deleted)
  {
    ExecutionKeepsInv(states, n);
  }

  ghost predicate ResetExactlyOnce(resets: seq<Reset>, inc: Incarnation) {
    exists k :: 0 <= k < |resets| && resets[k].deleted == Some(inc)
      && forall j :: 0 <= j < |resets| && resets[j].deleted == Some(inc) ==> j == k
  }

  /** However many processes diagnosed the same incarnation: when one of them has been through
      recovery, exactly one reset has deleted it. A write that diagnosed an incarnation younger
      than the epoch it had observed deletes nothing. */
  lemma DiagnosisIsResetOnce(states: seq<State>, n: nat, p: Process)
    requires IsExecution(states) && n < |states| && p in states[n].phases && states[n].phases[p].Reopening?
    ensures var (s, now) := (states[n], states[n].phases[p]);
            Born(s, now.observed) == Some(now.diagnosis) ==> ResetExactlyOnce(s.resets, now.diagnosis)
    ensures states[n].phases[p].observed < states[n].epoch
  {
    ExecutionKeepsInv(states, n);
    var (s, now) := (states[n], states[n].phases[p]);
    assert PhaseOk(s, now);
    if Born(s, now.observed) == Some(now.diagnosis) {
      var k := now.observed - s.base;
      assert s.resets[k].deleted == s.born[k];
    }
  }

  /** A process that opens the database diagnoses the incarnation of the very epoch it read. */
  lemma OpeningDiagnosesItsEpoch(states: seq<State>, n: nat, p: Process)
    requires IsExecution(states) && n < |states| && p in states[n].phases && states[n].phases[p].Diagnosed?
    ensures var (s, now) := (states[n], states[n].phases[p]); Born(s, now.epoch) == Some(now.inc) == s.db
  {
    ExecutionKeepsInv(states, n);
    var (s, now) := (states[n], states[n].phases[p]);
    assert PhaseOk(s, now);
    SharedSeesNoReset(s, p);
  }

  // ----- only damaged databases are deleted -----

  predicate DiagnosesDamage(s: State, phase: Phase) {
    match phase
    case Diagnosed(_, _, inc) => inc in s.damaged
    case Recovering(_, _, diagnosis) => diagnosis in s.damaged
    case Locked(_, _, diagnosis) => diagnosis in s.damaged
    case Resetting(_, _, diagnosis) => diagnosis in s.damaged
    case Stamping(_, _, diagnosis) => diagnosis in s.damaged
    case Reopening(_, _, diagnosis) => diagnosis in s.damaged
    case _ => true
  }

  predicate OnlyDamageIsDiagnosed(s: State) {
    && (forall p :: p in s.phases ==> DiagnosesDamage(s, s.phases[p]))
    && (forall k :: 0 <= k < |s.resets| ==> s.resets[k].diagnosis in s.damaged)
  }

  lemma CreatedKeeps(s: State)
    requires |s.born| > 0
    ensures var made := Created(s);
      && made.db.Some? && made.phases == s.phases && made.damaged == s.damaged && made.resets == s.resets
      && made.epoch == s.epoch && |made.born| == |s.born|
      && made.db == if s.db.Some? then s.db else Some(s.next)
  {}

  /** A step changes one process, and adds at most the reset of that process. */
  lemma ActsDiagnosesDamage(s: State, p: Process, t: State)
    requires OnlyDamageIsDiagnosed(s) && p in s.phases && |s.born| > 0 && Acts(s, p, t)
    ensures p in t.phases && DiagnosesDamage(t, t.phases[p])
    ensures t.damaged == s.damaged && t.phases == s.phases[p := t.phases[p]]
    ensures t.resets == s.resets
         || (|t.resets| == |s.resets| + 1 && t.resets[..|s.resets|] == s.resets && t.resets[|s.resets|].diagnosis in s.damaged)
  {
    hide Created;
    CreatedKeeps(s);
    assert DiagnosesDamage(s, s.phases[p]);
  }

  lemma NextDiagnosesDamage(s: State, t: State)
    requires OnlyDamageIsDiagnosed(s) && Next(s, t)
    ensures OnlyDamageIsDiagnosed(t) && s.damaged <= t.damaged
  {
    hide Acts;
    if p :| p in s.phases && |s.born| > 0 && Acts(s, p, t) {
      ActsDiagnosesDamage(s, p, t);
      forall q | q in t.phases ensures DiagnosesDamage(t, t.phases[q]) {
        if q != p { assert DiagnosesDamage(s, s.phases[q]); }
      }
      forall k | 0 <= k < |t.resets| ensures t.resets[k].diagnosis in t.damaged {
        if k < |s.resets| { assert t.resets[k] == s.resets[k]; }
      }
    } else {
      forall q | q in t.phases ensures DiagnosesDamage(t, t.phases[q]) {
        assert DiagnosesDamage(s, s.phases[q]);
      }
    }
  }

  lemma {:induction false} RunDiagnosesDamage(states: seq<State>, n: nat)
    requires IsExecution(states) && n < |states|
    ensures OnlyDamageIsDiagnosed(states[n])
    decreases n
  {
    if n > 0 {
      hide OnlyDamageIsDiagnosed, Next;
      RunDiagnosesDamage(states, n - 1);
      NextDiagnosesDamage(states[n - 1], states[n]);
    }
  }

  /** Whatever was deleted was damaged; as long as nothing is damaged nothing is deleted. */
  lemma OnlyDamagedAreDeleted(states: seq<State>, n: nat, k: nat)
    requires IsExecution(states) && n < |states| && k < |states[n].resets|
    ensures states[n].resets[k].deleted.Some? && states[n].resets[k].deleted.value in states[n].damaged
  {
    RunDiagnosesDamage(states, n);
    ResetsAreOwnDiagnoses(states, n);
  }

  // ----- every process gets on -----

  /** The process takes every step, and every step succeeds. */
  ghost predicate IsPathOf(path: seq<State>, p: Process, s: State, t: State) {
    && path != [] && path[0] == s && path[|path| - 1] == t
    && forall i :: 0 <= i < |path| - 1 ==> p in path[i].phases && |path[i].born| > 0 && Proceeds(path[i], p, path[i + 1])
  }

  lemma NoStepYet(p: Process, s: State)
    ensures IsPathOf([s], p, s, s)
  {}

  lemma OneStepOn(path: seq<State>, p: Process, s: State, t: State, next: State)
    requires IsPathOf(path, p, s, t) && p in t.phases && |t.born| > 0 && Proceeds(t, p, next)
    ensures IsPathOf(path + [next], p, s, next)
  {
    hide Proceeds;
  }

  lemma SomethingWasBorn(s: State)
    requires Inv(s)
    ensures |s.born| > 0
  {}

  /** How a process leaves recovery: with the database it reopened, or, that one being damaged, a write starts over from the
      epoch it had observed and a reader gives up. */
  function LeavesWith(s: State, next: Option<nat>, inc: Incarnation): Phase {
    if inc !in s.damaged then Using(next, inc)
    else if next.Some? then Recovering(None, next.value, inc)
    else Idle
  }

  /** A process whose diagnosis is of the present epoch rebuilds the database, in the next epoch, when nobody holds the lock;
      one that comes late leaves it alone. */
  lemma RecoveryEnds(states: seq<State>, n: nat, p: Process) returns (path: seq<State>, t: State)
    requires IsExecution(states) && n < |states| && p in states[n].phases && states[n].phases[p].Recovering?
    requires NoneLocked(states[n])
    ensures IsPathOf(path, p, states[n], t)
    ensures var (s, now) := (states[n], states[n].phases[p]);
      && t.db.Some? && t.phases == s.phases[p := LeavesWith(s, now.next, t.db.value)]
      && (if s.epoch == now.observed then
            t.epoch == s.epoch + 1 && t.db == Some(s.next) && t.resets == s.resets + [Reset(p, Some(now.diagnosis), now.diagnosis)]
          else t.epoch == s.epoch && t.resets == s.resets && (s.db.Some? ==> t.db == s.db))
  {
    hide Inv, IsPathOf, IsExecution;
    ExecutionKeepsInv(states, n);
    var (s, now) := (states[n], states[n].phases[p]);
    SomethingWasBorn(s);
    var locked := To(s, p, Locked(now.next, now.observed, now.diagnosis));
    NoStepYet(p, s);
    OneStepOn([s], p, s, s, locked);
    if s.epoch == now.observed {
      PresentDiagnosis(s, p);
      var resetting := To(locked, p, Resetting(now.next, now.observed, now.diagnosis));
      OneStepOn([s] + [locked], p, s, locked, resetting);
      path, t := ResetEnds([s] + [locked] + [resetting], p, s, resetting);
    } else {
      var reopening := To(locked, p, Reopening(now.next, now.observed, now.diagnosis));
      OneStepOn([s] + [locked], p, s, locked, reopening);
      path, t := ReopeningEnds([s] + [locked] + [reopening], p, s, reopening);
    }
  }

  lemma ResetEnds(before: seq<State>, p: Process, from: State, s: State) returns (path: seq<State>, t: State)
    requires IsPathOf(before, p, from, s) && |s.born| > 0 && p in s.phases && s.phases[p].Resetting?
    ensures IsPathOf(path, p, from, t)
    ensures var now := s.phases[p];
      && t.db == Some(s.next) && t.phases == s.phases[p := LeavesWith(s, now.next, s.next)]
      && t.epoch == s.epoch + 1 && t.resets == s.resets + [Reset(p, s.db, now.diagnosis)]
  {
    hide IsPathOf, Created;
    var now := s.phases[p];
    var deleted := To(s.(db := None, resets := s.resets + [Reset(p, s.db, now.diagnosis)]), p,
                      Stamping(now.next, now.observed, now.diagnosis));
    OneStepOn(before, p, from, s, deleted);
    var stamped := To(deleted.(epoch := s.epoch + 1, born := s.born + [None]), p,
                      Reopening(now.next, now.observed, now.diagnosis));
    OneStepOn(before + [deleted], p, from, deleted, stamped);
    path, t := ReopeningEnds(before + [deleted] + [stamped], p, from, stamped);
  }

  lemma ReopeningEnds(before: seq<State>, p: Process, from: State, s: State) returns (path: seq<State>, t: State)
    requires IsPathOf(before, p, from, s) && |s.born| > 0 && p in s.phases && s.phases[p].Reopening?
    ensures IsPathOf(path, p, from, t)
    ensures var inc := if s.db.Some? then s.db.value else s.next;
      && t.db == Some(inc) && t.phases == s.phases[p := LeavesWith(s, s.phases[p].next, inc)]
      && t.epoch == s.epoch && t.resets == s.resets
  {
    hide IsPathOf, Created;
    CreatedKeeps(s);
    var made := Created(s);
    t := To(made, p, LeavesWith(s, s.phases[p].next, made.db.value));
    OneStepOn(before, p, from, s, t);
    path := before + [t];
  }

  lemma PresentDiagnosis(s: State, p: Process)
    requires Inv(s) && p in s.phases && s.phases[p].Recovering? && s.phases[p].observed == s.epoch && NoneLocked(s)
    ensures s.db == Some(s.phases[p].diagnosis)
  {
    assert PhaseOk(s, s.phases[p]);
    var epoch: nat :| s.epoch <= epoch <= s.epoch && Born(s, epoch) == Some(s.phases[p].diagnosis);
  }

  /** Opening leads to the database at the path, created if there was none, and into recovery exactly if it is damaged. */
  lemma OpeningEnds(states: seq<State>, n: nat, p: Process) returns (path: seq<State>, t: State)
    requires IsExecution(states) && n < |states| && p in states[n].phases && states[n].phases[p].Ready?
    requires NoneExclusive(states[n])
    ensures IsPathOf(path, p, states[n], t)
    ensures var (s, outer) := (states[n], states[n].phases[p].outer);
      && t.db.Some? && (s.db.Some? ==> t.db == s.db) && t.epoch == s.epoch && t.resets == s.resets
      && t.phases == s.phases[p := if t.db.value in s.damaged then Recovering(outer, s.epoch, t.db.value)
                                   else Using(outer, t.db.value)]
  {
    hide Inv, IsPathOf, IsExecution, Created;
    ExecutionKeepsInv(states, n);
    var (s, outer) := (states[n], states[n].phases[p].outer);
    SomethingWasBorn(s);
    NoStepYet(p, s);
    var opening := To(s, p, Opening(outer));
    OneStepOn([s], p, s, s, opening);
    var looking := To(opening, p, Looking(outer, s.epoch));
    OneStepOn([s] + [opening], p, s, opening, looking);
    CreatedKeeps(looking);
    var inc := Created(looking).db.value;
    var seen := To(Created(looking), p, if inc in s.damaged then Diagnosed(outer, s.epoch, inc) else Opened(outer, inc));
    OneStepOn([s] + [opening] + [looking], p, s, looking, seen);
    t := To(seen, p, if inc in s.damaged then Recovering(outer, s.epoch, inc) else Using(outer, inc));
    OneStepOn([s] + [opening] + [looking] + [seen], p, s, seen, t);
    path := [s] + [opening] + [looking] + [seen] + [t];
  }
}
