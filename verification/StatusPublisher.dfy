/** The runtime status file: structural changes are written at once, cache hits are coalesced
    into one deferred write. Times are milliseconds of the monotonic clock. */
module StatusPublisher {
  import opened Common

  const HIT_PUBLICATION_DELAY := 1000

  datatype Publisher = Publisher(lastWritten: nat, dirty: bool, pending: bool, closed: bool)

  function Written(p: Publisher, now: nat): Publisher {
    p.(lastWritten := now, dirty := false)
  }

  /** The answer is the delay after which the caller must flush, if nobody is going to yet. */
  function RecordHitAt(p: Publisher, now: nat): (Publisher, Option<nat>) {
    if p.closed then (p, None)
    else if p.pending then (p.(dirty := true), None)
    else
      var elapsed := if now < p.lastWritten then 0 else now - p.lastWritten;
      (p.(dirty := true, pending := true),
       Some(if elapsed < HIT_PUBLICATION_DELAY then HIT_PUBLICATION_DELAY - elapsed else 0))
  }

  /** The answer says whether the status was written. */
  function FlushHits(p: Publisher, now: nat): (Publisher, bool) {
    var run := p.(pending := false);
    if p.closed || !p.dirty then (run, false) else (Written(run, now), true)
  }

  function UpdateCache(p: Publisher, now: nat): (Publisher, bool) {
    if p.closed then (p, false) else (Written(p, now), true)
  }

  /** The publisher behind its mutex; `file` is the number of hits the status file shows. */
  class RuntimeStatusPublisher {
    var lastWritten: nat
    var dirty: bool
    var pending: bool
    var closed: bool
    var file: Option<nat>

    ghost function View(): Publisher
      reads this
    {
      Publisher(lastWritten, dirty, pending, closed)
    }

    constructor Register(hits: nat, now: nat)
      ensures View() == Publisher(now, false, false, false) && file == Some(hits)
    {
      lastWritten, dirty, pending, closed := now, false, false, false;
      file := Some(hits);
    }

    method Write(hits: nat, now: nat)
      modifies this
      ensures View() == Written(old(View()), now) && file == Some(hits)
    {
      lastWritten := now;
      dirty := false;
      file := Some(hits);
    }

    method RecordHit(now: nat) returns (delay: Option<nat>)
      modifies this
      ensures (View(), delay) == RecordHitAt(old(View()), now) && file == old(file)
    {
      if closed {
        return None;
      }
      dirty := true;
      if pending {
        return None;
      }
      pending := true;
      var elapsed := if now < lastWritten then 0 else now - lastWritten;
      delay := Some(if elapsed < HIT_PUBLICATION_DELAY then HIT_PUBLICATION_DELAY - elapsed else 0);
    }

    method Flush(hits: nat, now: nat)
      modifies this
      ensures View() == FlushHits(old(View()), now).0
      ensures file == if FlushHits(old(View()), now).1 then Some(hits) else old(file)
    {
      pending := false;
      if closed || !dirty {
        return;
      }
      Write(hits, now);
    }

    method Update(hits: nat, now: nat)
      modifies this
      ensures View() == UpdateCache(old(View()), now).0
      ensures file == if UpdateCache(old(View()), now).1 then Some(hits) else old(file)
    {
      if closed {
        return;
      }
      Write(hits, now);
    }

    /** Removes the file; nothing may recreate it. */
    method Close()
      modifies this
      ensures View() == old(View()).(closed := true) && file == None
    {
      closed := true;
      file := None;
    }
  }

  // ----- timed runs -----

  /** `due`: when the deferred flush runs. `hitTimes[k]` is the time of hit `k`, and `shownAt[k]`
      the time of the first write that showed it. */
  datatype Run = Run(
    publisher: Publisher,
    now: nat,
    due: Option<nat>,
    hitTimes: seq<nat>,
    shownAt: seq<nat>,
    flushes: seq<nat>,  // times of the hit flushes that wrote
    writes: nat)

  datatype Event = Hit | FlushDue | Structural | CloseServer

  function Show(r: Run): Run {
    r.(shownAt := r.shownAt + Repeat(r.now, |r.hitTimes| - |r.shownAt|), writes := r.writes + 1)
  }

  function Repeat(time: nat, n: int): (times: seq<nat>)
    ensures |times| == if n < 0 then 0 else n
    ensures forall i :: 0 <= i < |times| ==> times[i] == time
  {
    if n <= 0 then [] else [time] + Repeat(time, n - 1)
  }

  function RunFlush(r: Run): Run {
    var (after, wrote) := FlushHits(r.publisher, r.now);
    var flushed := r.(publisher := after, due := None);
    if wrote then Show(flushed.(flushes := r.flushes + [r.now])) else flushed
  }

  /** A hit with no delay left is flushed by its own caller. */
  function Happens(r: Run, event: Event): Run {
    match event
    case Hit =>
      var (after, delay) := RecordHitAt(r.publisher, r.now);
      var hit := r.(publisher := after, hitTimes := r.hitTimes + [r.now]);
      if delay.None? then hit
      else if delay.value == 0 then RunFlush(hit)
      else hit.(due := Some(r.now + delay.value))
    case FlushDue => RunFlush(r)
    case Structural =>
      var (after, wrote) := UpdateCache(r.publisher, r.now);
      var updated := r.(publisher := after);
      if wrote then Show(updated) else updated
    case CloseServer => r.(publisher := r.publisher.(closed := true))
  }

  /** Time passes, but not beyond a flush that is due; a flush happens at its time. */
  predicate Step(r: Run, at: nat, event: Event, after: Run) {
    && r.now <= at
    && (r.due.Some? ==> at <= r.due.value)
    && (event.FlushDue? ==> r.due == Some(at))
    && after == Happens(r.(now := at), event)
  }

  predicate Start(r: Run) {
    r == Run(Publisher(r.now, false, false, false), r.now, None, [], [], [], 0)
  }

  predicate IsTimedRun(runs: seq<Run>, times: seq<nat>, events: seq<Event>) {
    && |runs| == |events| + 1 == |times| + 1
    && Start(runs[0])
    && forall i :: 0 <= i < |events| ==> Step(runs[i], times[i], events[i], runs[i + 1])
  }

  predicate Spaced(flushes: seq<nat>) {
    forall i :: 0 <= i < |flushes| - 1 ==> flushes[i] + HIT_PUBLICATION_DELAY <= flushes[i + 1]
  }

  function LastFlush(r: Run): int {
    if r.flushes == [] then -HIT_PUBLICATION_DELAY else r.flushes[|r.flushes| - 1]
  }

  predicate Inv(r: Run) {
    Timely(r) && (r.due.Some? ==> r.due.value <= r.publisher.lastWritten + HIT_PUBLICATION_DELAY)
  }

  predicate Timely(r: Run) {
    var p := r.publisher;
    && (p.pending <==> r.due.Some?)
    && p.lastWritten <= r.now
    && (r.due.Some? ==> r.now <= r.due.value <= r.now + HIT_PUBLICATION_DELAY)
    && |r.shownAt| <= |r.hitTimes|
    && (forall k :: 0 <= k < |r.hitTimes| ==> r.hitTimes[k] <= r.now)
    && (forall k :: 0 <= k < |r.shownAt| ==> r.hitTimes[k] <= r.shownAt[k] <= r.hitTimes[k] + HIT_PUBLICATION_DELAY)
    && (!p.closed ==>
          && (p.dirty <==> |r.shownAt| < |r.hitTimes|)
          && (p.dirty ==> p.pending)
          && (r.due.Some? ==> forall k :: |r.shownAt| <= k < |r.hitTimes| ==> r.due.value <= r.hitTimes[k] + HIT_PUBLICATION_DELAY))
    && Spaced(r.flushes)
    && LastFlush(r) <= p.lastWritten
    && (r.due.Some? ==> LastFlush(r) + HIT_PUBLICATION_DELAY <= r.due.value)
  }

  lemma TimePasses(r: Run, at: nat)
    requires Inv(r) && r.now <= at && (r.due.Some? ==> at <= r.due.value)
    ensures Inv(r.(now := at))
  {
  }

  lemma FlushKeepsInv(r: Run)
    requires Timely(r) && r.due == Some(r.now)
    ensures Inv(RunFlush(r))
  {
    var (after, wrote) := FlushHits(r.publisher, r.now);
    if wrote {
      var flushed := r.(publisher := after, due := None, flushes := r.flushes + [r.now]);
      forall i | 0 <= i < |flushed.flushes| - 1 ensures flushed.flushes[i] + HIT_PUBLICATION_DELAY <= flushed.flushes[i + 1] {
        if i == |r.flushes| - 1 { assert LastFlush(r) == r.flushes[i]; }
      }
    }
  }

  lemma StructuralKeepsInv(r: Run)
    requires Inv(r)
    ensures Inv(Happens(r, Structural))
  {
  }

  lemma HitSchedules(r: Run)
    requires Inv(r) && RecordHitAt(r.publisher, r.now).1.Some?
    ensures var (after, delay) := RecordHitAt(r.publisher, r.now);
            var scheduled := r.(publisher := after, hitTimes := r.hitTimes + [r.now], due := Some(r.now + delay.value));
            Timely(scheduled) && (delay.value > 0 ==> Inv(scheduled))
  {
  }

  lemma HitKeepsInv(r: Run)
    requires Inv(r)
    ensures Inv(Happens(r, Hit))
  {
    var (after, delay) := RecordHitAt(r.publisher, r.now);
    if delay.Some? {
      HitSchedules(r);
      var hit := r.(publisher := after, hitTimes := r.hitTimes + [r.now]);
      if delay.value == 0 {
        FlushKeepsInv(hit.(due := Some(r.now)));
        assert RunFlush(hit) == RunFlush(hit.(due := Some(r.now)));
      }
    }
  }

  lemma StepKeepsInv(r: Run, at: nat, event: Event, after: Run)
    requires Inv(r) && Step(r, at, event, after)
    ensures Inv(after)
  {
    TimePasses(r, at);
    var now := r.(now := at);
    match event {
      case Hit => HitKeepsInv(now);
      case FlushDue => FlushKeepsInv(now);
      case Structural => StructuralKeepsInv(now);
      case CloseServer =>
    }
  }

  lemma {:induction false} TimedRunKeepsInv(runs: seq<Run>, times: seq<nat>, events: seq<Event>, n: nat)
    requires IsTimedRun(runs, times, events) && n < |runs|
    ensures Inv(runs[n])
    decreases n
  {
    if n != 0 {
      TimedRunKeepsInv(runs, times, events, n - 1);
      assert Step(runs[n - 1], times[n - 1], events[n - 1], runs[n]);
      hide Inv; hide Step;
      StepKeepsInv(runs[n - 1], times[n - 1], events[n - 1], runs[n]);
    }
  }

  // ----- the main results -----

  /** While the publisher is open an unwritten hit always has a flush scheduled, no hit stays
      unwritten for longer than the delay, and no shown hit was shown later than that. */
  lemma HitsAreShownInTime(runs: seq<Run>, times: seq<nat>, events: seq<Event>, n: nat)
    requires IsTimedRun(runs, times, events) && n < |runs|
    ensures var r := runs[n];
            && |r.shownAt| <= |r.hitTimes|
            && (forall k :: 0 <= k < |r.shownAt| ==> r.shownAt[k] <= r.hitTimes[k] + HIT_PUBLICATION_DELAY)
            && (!r.publisher.closed ==>
                  && (|r.shownAt| < |r.hitTimes| ==> r.due.Some?)
                  && (forall k :: 0 <= k < |r.hitTimes| && r.hitTimes[k] + HIT_PUBLICATION_DELAY < r.now ==> k < |r.shownAt|))
  {
    TimedRunKeepsInv(runs, times, events, n);
  }

  /** A hit is shown at once exactly if no flush is scheduled and the last write was long enough ago; otherwise it waits no
      longer than until a delay after the last write. */
  lemma HitIsShownAtOnceIff(runs: seq<Run>, times: seq<nat>, events: seq<Event>, n: nat)
    requires IsTimedRun(runs, times, events) && n < |events| && events[n] == Hit && !runs[n].publisher.closed
    ensures var (before, after) := (runs[n], runs[n + 1]);
      && after.hitTimes == before.hitTimes + [times[n]]
      && (|after.shownAt| == |after.hitTimes| <==>
            before.due.None? && before.publisher.lastWritten + HIT_PUBLICATION_DELAY <= times[n])
      && (|after.shownAt| < |after.hitTimes| ==>
            after.due.Some? && after.due.value <= after.publisher.lastWritten + HIT_PUBLICATION_DELAY)
  {
    TimedRunKeepsInv(runs, times, events, n);
    TimedRunKeepsInv(runs, times, events, n + 1);
    assert Step(runs[n], times[n], events[n], runs[n + 1]);
  }

  /** An open publisher writes whenever it is told of a structural change, and at every flush that finds hits unwritten;
      each such write shows all hits so far. */
  lemma WritesShowEverything(runs: seq<Run>, times: seq<nat>, events: seq<Event>, n: nat)
    requires IsTimedRun(runs, times, events) && n < |events| && !runs[n].publisher.closed
    requires events[n] == Structural || events[n] == FlushDue
    ensures var (before, after) := (runs[n], runs[n + 1]);
      && after.hitTimes == before.hitTimes && |after.shownAt| == |after.hitTimes|
      && after.writes == before.writes + (if events[n] == Structural || |before.shownAt| < |before.hitTimes| then 1 else 0)
      && (events[n] == Structural ==> after.publisher.lastWritten == times[n])
  {
    TimedRunKeepsInv(runs, times, events, n);
    assert Step(runs[n], times[n], events[n], runs[n + 1]);
  }

  lemma {:induction false} SpacedApart(flushes: seq<nat>, i: nat, j: nat)
    requires Spaced(flushes) && i < j < |flushes|
    ensures flushes[i] + HIT_PUBLICATION_DELAY <= flushes[j]
    decreases j
  {
    if i < j - 1 {
      SpacedApart(flushes, i, j - 1);
    }
  }

  /** Any two hit flushes that write are at least the delay apart, whatever is written between. */
  lemma FlushesAreSpaced(runs: seq<Run>, times: seq<nat>, events: seq<Event>, n: nat, i: nat, j: nat)
    requires IsTimedRun(runs, times, events) && n < |runs| && i < j < |runs[n].flushes|
    ensures runs[n].flushes[i] + HIT_PUBLICATION_DELAY <= runs[n].flushes[j]
  {
    TimedRunKeepsInv(runs, times, events, n);
    SpacedApart(runs[n].flushes, i, j);
  }

  /** Nothing is written after the server closed the publisher. */
  lemma {:induction false} NothingAfterClose(runs: seq<Run>, times: seq<nat>, events: seq<Event>, i: nat, n: nat)
    requires IsTimedRun(runs, times, events) && i <= n < |runs| && runs[i].publisher.closed
    ensures runs[n].publisher.closed && runs[n].writes == runs[i].writes && runs[n].shownAt == runs[i].shownAt
    decreases n
  {
    if i < n {
      NothingAfterClose(runs, times, events, i, n - 1);
      assert Step(runs[n - 1], times[n - 1], events[n - 1], runs[n]);
    }
  }
}
