/** Deduplication of command events under the charged budget, and the event filter. */
module Deduplication {
  import opened Common
  import opened Text
  import opened Timestamps
  import opened EventLog

  // ----- meaning -----

  /** The events without an identity, which are never merged. */
  function Loose(events: seq<Event>): seq<Event> {
    if events == [] then []
    else Loose(events[..|events| - 1]) + if KeyOf(events[|events| - 1]).None? then [events[|events| - 1]] else []
  }

  function Unkeyed(survivors: seq<Event>, keys: seq<Option<Key>>): seq<Event>
    requires |keys| == |survivors|
  {
    if keys == [] then []
    else
      var last := |keys| - 1;
      Unkeyed(survivors[..last], keys[..last]) + if keys[last].None? then [survivors[last]] else []
  }

  ghost predicate AllBest(events: seq<Event>, survivors: seq<Event>, keys: seq<Option<Key>>) {
    && |keys| == |survivors|
    && forall i :: 0 <= i < |keys| && keys[i].Some? ==> Best(events, keys[i].value, survivors[i])
  }

  predicate DistinctKeys(keys: seq<Option<Key>>) {
    forall i, j :: 0 <= i < j < |keys| && keys[i].Some? ==> keys[i] != keys[j]
  }

  predicate KeysCover(events: seq<Event>, keys: seq<Option<Key>>) {
    forall e :: e in events && KeyOf(e).Some? ==> KeyOf(e) in keys
  }

  /** One survivor per identity, the best of its group; events without one stay, in order. */
  ghost predicate Deduplicated(events: seq<Event>, survivors: seq<Event>, keys: seq<Option<Key>>) {
    && AllBest(events, survivors, keys) && DistinctKeys(keys) && KeysCover(events, keys)
    && Unkeyed(survivors, keys) == Loose(events)
  }

  /** Identity keys charged while deduplicating. */
  function KeyTotal(sizes: Sizes, keys: seq<Option<Key>>): nat {
    if keys == [] then 0
    else
      var last := keys[|keys| - 1];
      KeyTotal(sizes, keys[..|keys| - 1]) + if last.Some? then KeyBytes(sizes, last.value) else 0
  }

  // ----- one event -----

  lemma NoneYet()
    ensures Deduplicated([], [], [])
  {}

  lemma KeepLoose(events: seq<Event>, survivors: seq<Event>, keys: seq<Option<Key>>, e: Event)
    requires Deduplicated(events, survivors, keys) && KeyOf(e).None?
    ensures Deduplicated(events + [e], survivors + [e], keys + [None])
  {
    hide KeyOf, Best;
    var (more, kept, keys') := (events + [e], survivors + [e], keys + [None]);
    assert more[..|events|] == events && kept[..|survivors|] == survivors && keys'[..|keys|] == keys;
    forall i | 0 <= i < |keys'| && keys'[i].Some? ensures Best(more, keys'[i].value, kept[i]) {
      OthersStayBest(events, keys[i].value, survivors[i], e);
    }
  }

  lemma KeepFirst(events: seq<Event>, survivors: seq<Event>, keys: seq<Option<Key>>, e: Event)
    requires Deduplicated(events, survivors, keys) && KeyOf(e).Some? && KeyOf(e) !in keys
    ensures Deduplicated(events + [e], survivors + [e], keys + [KeyOf(e)])
  {
    hide KeyOf, Best;
    var (more, kept, keys') := (events + [e], survivors + [e], keys + [KeyOf(e)]);
    assert more[..|events|] == events && kept[..|survivors|] == survivors && keys'[..|keys|] == keys;
    forall i | 0 <= i < |keys'| && keys'[i].Some? ensures Best(more, keys'[i].value, kept[i]) {
      if i < |keys| {
        assert keys[i] in keys;
        OthersStayBest(events, keys[i].value, survivors[i], e);
      } else {
        AloneIsBest(events, KeyOf(e).value, e);
      }
    }
  }

  lemma {:induction false} ReplaceKeyed(survivors: seq<Event>, keys: seq<Option<Key>>, i: nat, e: Event)
    requires |keys| == |survivors| && i < |keys| && keys[i].Some?
    ensures Unkeyed(survivors[i := e], keys) == Unkeyed(survivors, keys)
  {
    var last := |keys| - 1;
    if i < last {
      ReplaceKeyed(survivors[..last], keys[..last], i, e);
      assert survivors[i := e][..last] == survivors[..last][i := e];
    } else {
      assert survivors[i := e][..last] == survivors[..last];
    }
  }

  lemma KeepMerged(events: seq<Event>, survivors: seq<Event>, keys: seq<Option<Key>>, i: nat, e: Event)
    requires Deduplicated(events, survivors, keys) && KeyOf(e).Some? && i < |keys| && keys[i] == KeyOf(e)
    ensures Deduplicated(events + [e], survivors[i := Merge(survivors[i], e)], keys)
  {
    hide KeyOf, Best, Merge;
    var (more, kept) := (events + [e], survivors[i := Merge(survivors[i], e)]);
    assert more[..|events|] == events;
    forall j | 0 <= j < |keys| && keys[j].Some? ensures Best(more, keys[j].value, kept[j]) {
      if j == i {
        MergeIsBest(events, KeyOf(e).value, survivors[i], e);
      } else {
        assert keys[j] != keys[i];
        OthersStayBest(events, keys[j].value, survivors[j], e);
      }
    }
    ReplaceKeyed(survivors, keys, i, Merge(survivors[i], e));
  }

  // ----- charges -----

  lemma {:induction false} TotalOfReplaced(sizes: Sizes, events: seq<Event>, i: nat, e: Event)
    requires i < |events|
    ensures TotalBytes(sizes, events[i := e])
              == TotalBytes(sizes, events) - RetainedBytes(sizes, events[i]) + RetainedBytes(sizes, e)
    ensures RetainedBytes(sizes, events[i]) <= TotalBytes(sizes, events)
  {
    hide RetainedBytes;
    var last := |events| - 1;
    if i < last {
      TotalOfReplaced(sizes, events[..last], i, e);
      assert events[i := e][..last] == events[..last][i := e];
    } else {
      assert events[i := e][..last] == events[..last];
    }
  }

  lemma TotalOfMore(sizes: Sizes, events: seq<Event>, e: Event)
    ensures TotalBytes(sizes, events + [e]) == TotalBytes(sizes, events) + RetainedBytes(sizes, e)
  {
    assert (events + [e])[..|events|] == events;
  }

  lemma {:induction false} TotalOfConcat(sizes: Sizes, a: seq<Event>, b: seq<Event>)
    ensures TotalBytes(sizes, a + b) == TotalBytes(sizes, a) + TotalBytes(sizes, b)
  {
    hide RetainedBytes;
    if b == [] {
      assert a + b == a;
    } else {
      TotalOfConcat(sizes, a, b[..|b| - 1]);
      assert (a + b)[..|a + b| - 1] == a + b[..|b| - 1];
    }
  }

  lemma KeyTotalOfMore(sizes: Sizes, keys: seq<Option<Key>>, key: Option<Key>)
    ensures KeyTotal(sizes, keys + [key]) == KeyTotal(sizes, keys) + if key.Some? then KeyBytes(sizes, key.value) else 0
  {
    assert (keys + [key])[..|keys|] == keys;
  }

  /** What is charged once the events before `i` are processed, all of them having been charged before. */
  ghost predicate Charged(sizes: Sizes, start: nat, events: seq<Event>, i: nat, survivors: seq<Event>, charged: nat, used: nat) {
    i <= |events| && used == start - TotalBytes(sizes, events[..i]) + TotalBytes(sizes, survivors) + charged
  }

  lemma ChargeMore(sizes: Sizes, start: nat, events: seq<Event>, i: nat, survivors: seq<Event>, charged: nat, used: nat, bytes: nat)
    requires i < |events| && Charged(sizes, start, events, i, survivors, charged, used)
    ensures Charged(sizes, start, events, i + 1, survivors + [events[i]], charged + bytes, used + bytes)
  {
    hide RetainedBytes;
    assert events[..i + 1] == events[..i] + [events[i]];
    TotalOfMore(sizes, events[..i], events[i]);
    TotalOfMore(sizes, survivors, events[i]);
  }

  /** Recharging a merged survivor: the two events were charged, and it takes no more than they did. */
  lemma ChargeMerged(sizes: Sizes, start: nat, events: seq<Event>, i: nat, survivors: seq<Event>, charged: nat, used: nat, at: nat)
    requires i < |events| && at < |survivors| && TotalBytes(sizes, events) <= start
    requires Charged(sizes, start, events, i, survivors, charged, used)
    ensures var (old_, new_) := (survivors[at], Merge(survivors[at], events[i]));
      var freed := RetainedBytes(sizes, old_) + RetainedBytes(sizes, events[i]);
      && freed <= used && RetainedBytes(sizes, new_) <= freed
      && Charged(sizes, start, events, i + 1, survivors[at := new_], charged, used - freed + RetainedBytes(sizes, new_))
  {
    hide RetainedBytes, Merge;
    var e := events[i];
    MergeShrinks(sizes, survivors[at], e);
    assert events[..i + 1] == events[..i] + [e];
    TotalOfMore(sizes, events[..i], e);
    TotalOfReplaced(sizes, survivors, at, Merge(survivors[at], e));
    assert events == events[..i + 1] + events[i + 1..];
    TotalOfConcat(sizes, events[..i + 1], events[i + 1..]);
  }

  ghost predicate Indexed(calls: map<Key, nat>, keys: seq<Option<Key>>) {
    && (forall key :: key in calls ==> calls[key] < |keys| && keys[calls[key]] == Some(key))
    && (forall i :: 0 <= i < |keys| && keys[i].Some? ==> keys[i].value in calls)
  }

  /**
    * The survivors in report order. `partial` lists them in the order they appeared, and `keys` the identity each stands
    * for; when the budget runs out, they are those of the first `consumed` events.
    */
  method DeduplicateEventsWithin(sizes: Sizes, events: seq<Event>, budget: StateBudget)
    returns (result: Option<seq<Event>>, ghost keys: seq<Option<Key>>, ghost partial: seq<Event>, ghost consumed: nat)
    requires budget.Valid()
    modifies budget
    ensures result.Some? ==> consumed == |events| && Sorted(result.value) && multiset(result.value) == multiset(partial)
    ensures consumed <= |events| && Deduplicated(events[..consumed], partial, keys)
    ensures TotalBytes(sizes, events) <= old(budget.used) ==>
              && budget.Valid()
              && budget.used == old(budget.used) - TotalBytes(sizes, events[..consumed]) + TotalBytes(sizes, partial)
    ensures TotalBytes(sizes, events) <= old(budget.used) && result.None? ==>
              && consumed < |events| && KeyOf(events[consumed]).Some? && KeyOf(events[consumed]) !in keys
              && budget.used + KeyTotal(sizes, keys) + KeyBytes(sizes, KeyOf(events[consumed]).value) > budget.limit
  {
    hide Deduplicated, Charged, TotalBytes, RetainedBytes, KeyBytes, KeyTotal, KeyOf, Merge, Sorted, SortEvents;
    var calls: map<Key, nat> := map[];
    var kept: seq<Event> := [];
    var charged: nat := 0;
    keys, consumed := [], 0;
    ghost var start := budget.used;
    ghost var paid := TotalBytes(sizes, events) <= start;
    Begin(sizes, start, events);
    for i := 0 to |events|
      invariant Deduplicated(events[..i], kept, keys) && Indexed(calls, keys) && |kept| == |keys|
      invariant charged == KeyTotal(sizes, keys)
      invariant paid ==> budget.Valid() && Charged(sizes, start, events, i, kept, charged, budget.used)
    {
      consumed := i;
      var event := events[i];
      assert events[..i + 1] == events[..i] + [event];
      var key := KeyOf(event);
      if key.None? {
        KeepLoose(events[..i], kept, keys, event);
        KeyTotalOfMore(sizes, keys, None);
        if paid { ChargeMore(sizes, start, events, i, kept, charged, budget.used, 0); }
        kept, keys := kept + [event], keys + [None];
      } else if key.value in calls {
        var index := calls[key.value];
        var previous := kept[index];
        KeepMerged(events[..i], kept, keys, index, event);
        if paid { ChargeMerged(sizes, start, events, i, kept, charged, budget.used, index); }
        var merged := RetainedBytes(sizes, previous) + RetainedBytes(sizes, event);
        var survivor := Merge(previous, event);
        kept := kept[index := survivor];
        budget.Release(merged);
        var ok := budget.Charge(RetainedBytes(sizes, survivor));
        if !ok {
          budget.Release(charged);
          consumed := i + 1;
          return None, keys, kept, consumed;
        }
      } else {
        var bytes := KeyBytes(sizes, key.value);
        var ok := budget.Charge(bytes);
        if !ok {
          if paid { Leave(sizes, start, events, i, kept, charged, budget.used); }
          budget.Release(charged);
          return None, keys, kept, consumed;
        }
        assert key !in keys;
        KeepFirst(events[..i], kept, keys, event);
        KeyTotalOfMore(sizes, keys, key);
        if paid { ChargeMore(sizes, start, events, i, kept, charged, budget.used - bytes, bytes); }
        charged := charged + bytes;
        calls := calls[key.value := |kept|];
        kept, keys := kept + [event], keys + [key];
      }
    }
    consumed := |events|;
    assert events[..|events|] == events;
    if paid { Leave(sizes, start, events, consumed, kept, charged, budget.used); }
    budget.Release(charged);
    SortedEvents(kept);
    return Some(SortEvents(kept)), keys, kept, consumed;
  }

  lemma Begin(sizes: Sizes, start: nat, events: seq<Event>)
    ensures Deduplicated(events[..0], [], []) && KeyTotal(sizes, []) == 0 && Charged(sizes, start, events, 0, [], 0, start)
  {
    NoneYet();
    assert events[..0] == [];
  }

  /** The keys are released in full. */
  lemma Leave(sizes: Sizes, start: nat, events: seq<Event>, i: nat, survivors: seq<Event>, charged: nat, used: nat)
    requires Charged(sizes, start, events, i, survivors, charged, used) && TotalBytes(sizes, events) <= start
    ensures charged <= used
    ensures used - charged == start - TotalBytes(sizes, events[..i]) + TotalBytes(sizes, survivors)
  {
    assert events == events[..i] + events[i..];
    TotalOfConcat(sizes, events[..i], events[i..]);
  }

  // ----- the survivors do not depend on the order of the input -----

  /** Inputs with the same keyed events leave, for every identity, the same command and the same time. */
  lemma SurvivorsIgnoreOrder(a: seq<Event>, b: seq<Event>, ra: seq<Event>, rb: seq<Event>, ka: seq<Option<Key>>,
                             kb: seq<Option<Key>>, i: nat)
    requires forall e :: KeyOf(e).Some? ==> (e in a <==> e in b)
    requires Deduplicated(a, ra, ka) && Deduplicated(b, rb, kb) && i < |ka| && ka[i].Some?
    ensures exists j :: 0 <= j < |kb| && kb[j] == ka[i] && rb[j].command == ra[i].command && rb[j].timestamp == ra[i].timestamp
  {
    hide KeyOf, CommandLess, LexAtMost, Unkeyed, Loose;
    var key := ka[i].value;
    var e :| InGroup(a, key, e) && ra[i] == e.(timestamp := ra[i].timestamp);
    assert InGroup(b, key, e) && KeyOf(e) in kb;
    var j :| 0 <= j < |kb| && kb[j] == KeyOf(e);
    BestIsUnique(a, b, key, ra[i], rb[j]);
  }

  lemma BestIsUnique(a: seq<Event>, b: seq<Event>, key: Key, s: Event, t: Event)
    requires forall e :: KeyOf(e).Some? ==> (e in a <==> e in b)
    requires Best(a, key, s) && Best(b, key, t)
    ensures s.command == t.command && s.timestamp == t.timestamp
  {
    hide KeyOf, CommandLess, LexAtMost;
    assert forall e :: InGroup(a, key, e) <==> InGroup(b, key, e);
    var e :| InGroup(a, key, e) && s == e.(timestamp := s.timestamp);
    var f :| InGroup(b, key, f) && t == f.(timestamp := t.timestamp);
    CommandsAreOrdered(s.command, t.command, t.command);
    if s.timestamp.Some? {
      var x :| InGroup(a, key, x) && x.timestamp == s.timestamp;
      var y :| InGroup(b, key, y) && y.timestamp == t.timestamp;
      TimesAreOrdered(s.timestamp.value, t.timestamp.value, s.timestamp.value);
    }
  }

  // ----- calls are neither lost nor mixed up -----

  /** Every call is represented by a survivor that is an update of it. */
  lemma CallIsRepresented(events: seq<Event>, survivors: seq<Event>, keys: seq<Option<Key>>, e: Event) returns (i: nat)
    requires Deduplicated(events, survivors, keys) && e in events && KeyOf(e).Some? && IsUnambiguous(e)
    ensures i < |survivors| && keys[i] == KeyOf(e) && SameCall(survivors[i], e)
    ensures |e.command| <= |survivors[i].command|
  {
    hide KeyOf, SameSession, Loose, Unkeyed;
    i :| 0 <= i < |keys| && keys[i] == KeyOf(e);
    var s := survivors[i];
    var key := KeyOf(e).value;
    var x :| InGroup(events, key, x) && s == x.(timestamp := s.timestamp);
    SameKeyIff(x, e);
    SameKeyIff(e, e);
    assert InGroup(events, key, e) && !CommandLess(s.command, e.command);
    HasKeyIff(e);
    if e.callId.None? {
      assert s.timestamp.Some?;
      var y :| InGroup(events, key, y) && y.timestamp == s.timestamp;
      SameKeyIff(y, e);
    }
    SessionOfUpdate(x, s, e);
  }

  lemma SessionOfUpdate(x: Event, s: Event, e: Event)
    requires s == x.(timestamp := s.timestamp)
    ensures SameSession(s, e) <==> SameSession(x, e)
  {}

  /** Updates of two calls leave two survivors; two known sessions always make two calls. */
  lemma CallsStayApart(events: seq<Event>, survivors: seq<Event>, keys: seq<Option<Key>>, e: Event, f: Event)
    returns (i: nat, j: nat)
    requires Deduplicated(events, survivors, keys) && e in events && f in events
    requires KeyOf(e).Some? && KeyOf(f).Some? && IsUnambiguous(e) && IsUnambiguous(f)
    requires !SameCall(e, f) || (e.session.Some? && f.session.Some? && e.session != f.session)
    ensures i < |survivors| && j < |survivors| && i != j && SameCall(survivors[i], e) && SameCall(survivors[j], f)
  {
    hide KeyOf, Deduplicated;
    i := CallIsRepresented(events, survivors, keys, e);
    j := CallIsRepresented(events, survivors, keys, f);
    SameKeyIff(e, f);
  }

  /** Updates of one call leave one survivor. */
  lemma UpdatesAreMerged(events: seq<Event>, survivors: seq<Event>, keys: seq<Option<Key>>, i: nat, j: nat)
    requires Deduplicated(events, survivors, keys) && i < j < |survivors|
    requires keys[i].Some? && keys[j].Some? && forall e :: e in events ==> IsUnambiguous(e)
    ensures !SameCall(survivors[i], survivors[j])
  {
    hide SameSession, Loose, Unkeyed, KeyOf, IsUnambiguous;
    SurvivorHasItsKey(events, keys[i].value, survivors[i]);
    SurvivorHasItsKey(events, keys[j].value, survivors[j]);
    SameKeyIff(survivors[i], survivors[j]);
  }

  lemma SurvivorHasItsKey(events: seq<Event>, key: Key, s: Event)
    requires Best(events, key, s) && forall e :: e in events ==> IsUnambiguous(e)
    ensures KeyOf(s) == Some(key) && IsUnambiguous(s)
  {
    var x :| InGroup(events, key, x) && s == x.(timestamp := s.timestamp);
    if x.callId.None? {
      hide KeyOf, SameSession;
      HasKeyIff(x);
      var y :| InGroup(events, key, y) && y.timestamp == s.timestamp;
      SameKeyIff(x, y);
      assert s == x;
    }
  }

  lemma {:induction false} LooseExactly(events: seq<Event>, e: Event)
    requires KeyOf(e).None?
    ensures multiset(Loose(events))[e] == multiset(events)[e]
  {
    hide KeyOf;
    if events != [] {
      LooseExactly(events[..|events| - 1], e);
      assert events == events[..|events| - 1] + [events[|events| - 1]];
    }
  }

  lemma {:induction false} UnkeyedExactly(survivors: seq<Event>, keys: seq<Option<Key>>, e: Event)
    requires |keys| == |survivors| && forall i :: 0 <= i < |keys| && keys[i].Some? ==> survivors[i] != e
    ensures multiset(Unkeyed(survivors, keys))[e] == multiset(survivors)[e]
  {
    if keys != [] {
      var last := |keys| - 1;
      UnkeyedExactly(survivors[..last], keys[..last], e);
      assert survivors == survivors[..last] + [survivors[last]];
    }
  }

  /** Repetitions of an event of unknown time that is no update of a call are all kept. */
  lemma UnidentifiedAreKept(events: seq<Event>, survivors: seq<Event>, keys: seq<Option<Key>>, e: Event)
    requires Deduplicated(events, survivors, keys) && e.callId.None? && e.timestamp.None?
    ensures multiset(survivors)[e] == multiset(events)[e]
  {
    forall i | 0 <= i < |keys| && keys[i].Some? ensures survivors[i] != e {
      hide KeyOf;
      var x :| InGroup(events, keys[i].value, x) && survivors[i] == x.(timestamp := survivors[i].timestamp);
      HasKeyIff(x);
    }
    LooseExactly(events, e);
    UnkeyedExactly(survivors, keys, e);
  }

  // ----- filtering -----

  datatype EventFilter = EventFilter(since: Option<string>, until: Option<string>, ide: Option<string>, agent: Option<string>,
                                     project: Option<string>, session: Option<string>, category: Option<Category>)

  predicate MatchesField(expected: Option<string>, actual: Option<string>) {
    expected.None? || (actual.Some? && Lower(actual.value) == Lower(expected.value))
  }

  predicate MatchesOthers(f: EventFilter, e: Event) {
    && MatchesField(f.ide, Some(e.ide)) && MatchesField(f.agent, e.agent) && MatchesField(f.project, e.project)
    && MatchesField(f.session, e.session) && (f.category.None? || e.category == f.category.value)
  }

  predicate Passes(f: EventFilter, e: Event) {
    && (f.since.None? || (e.timestamp.Some? && LexAtMost(f.since.value, e.timestamp.value)))
    && (f.until.None? || (e.timestamp.Some? && LexAtMost(e.timestamp.value, f.until.value)))
    && MatchesOthers(f, e)
  }

  function FilterEvents(events: seq<Event>, f: EventFilter): seq<Event> {
    if events == [] then []
    else FilterEvents(events[..|events| - 1], f) + if Passes(f, events[|events| - 1]) then [events[|events| - 1]] else []
  }

  /** Dropping events gives back exactly what they were charged. */
  method FilterEventsWithin(sizes: Sizes, events: seq<Event>, f: EventFilter, budget: StateBudget) returns (kept: seq<Event>)
    requires TotalBytes(sizes, events) <= budget.used
    modifies budget
    ensures kept == FilterEvents(events, f)
    ensures budget.used == old(budget.used) - TotalBytes(sizes, events) + TotalBytes(sizes, kept)
  {
    var before := TotalBytes(sizes, events);
    kept := FilterEvents(events, f);
    FilteredIsLess(sizes, events, f);
    budget.Release(before - TotalBytes(sizes, kept));
  }

  lemma {:induction false} FilteredIsLess(sizes: Sizes, events: seq<Event>, f: EventFilter)
    ensures TotalBytes(sizes, FilterEvents(events, f)) <= TotalBytes(sizes, events)
  {
    hide RetainedBytes, Passes;
    if events != [] {
      FilteredIsLess(sizes, events[..|events| - 1], f);
      assert FilterEvents(events[..|events| - 1], f) + [] == FilterEvents(events[..|events| - 1], f);
      TotalOfMore(sizes, FilterEvents(events[..|events| - 1], f), events[|events| - 1]);
    }
  }

  lemma {:induction false} FilteredArePassed(events: seq<Event>, f: EventFilter, e: Event)
    ensures e in FilterEvents(events, f) <==> e in events && Passes(f, e)
    ensures multiset(FilterEvents(events, f))[e] == if Passes(f, e) then multiset(events)[e] else 0
  {
    hide Passes;
    if events != [] {
      var (init, last) := (events[..|events| - 1], events[|events| - 1]);
      FilteredArePassed(init, f, e);
      assert events == init + [last];
      assert e in events <==> e in init || e == last;
    }
  }

  /** A text is the normalized form of an instant. */
  predicate Denotes(text: string, millis: int) { FormatEpoch(millis) == Some(text) }

  /** Bounds and times being normalized, the text filter keeps exactly the events inside the inclusive interval of instants. */
  lemma FilterKeepsTheInterval(events: seq<Event>, f: EventFilter, e: Event, since: int, until: int, time: int)
    requires f.since.Some? ==> Denotes(f.since.value, since)
    requires f.until.Some? ==> Denotes(f.until.value, until)
    requires e in events && e.timestamp.Some? && Denotes(e.timestamp.value, time)
    ensures e in FilterEvents(events, f) <==>
              (f.since.Some? ==> since <= time) && (f.until.Some? ==> time <= until) && AgreesWith(f, e)
  {
    hide MatchesOthers, AgreesWith, FormatEpoch, LexLess;
    FilteredArePassed(events, f, e);
    AgreesIff(f, e);
    if f.since.Some? { TextOrderIsTimeOrder(since, time); }
    if f.until.Some? { TextOrderIsTimeOrder(time, until); }
  }

  /** Every field asked for has the asked text, whatever its case, or the asked category. */
  predicate AgreesWith(f: EventFilter, e: Event) {
    && (f.ide.Some? ==> SameLetters(e.ide, f.ide.value))
    && (f.agent.Some? ==> e.agent.Some? && SameLetters(e.agent.value, f.agent.value))
    && (f.project.Some? ==> e.project.Some? && SameLetters(e.project.value, f.project.value))
    && (f.session.Some? ==> e.session.Some? && SameLetters(e.session.value, f.session.value))
    && (f.category.Some? ==> f.category.value == e.category)
  }

  lemma AgreesIff(f: EventFilter, e: Event)
    ensures AgreesWith(f, e) <==> MatchesOthers(f, e)
  {
    hide Lower, SameLetters;
    FieldAgreesIff(f.ide, Some(e.ide));
    FieldAgreesIff(f.agent, e.agent);
    FieldAgreesIff(f.project, e.project);
    FieldAgreesIff(f.session, e.session);
  }

  lemma FieldAgreesIff(expected: Option<string>, actual: Option<string>)
    ensures MatchesField(expected, actual) <==>
              (expected.Some? ==> actual.Some? && SameLetters(actual.value, expected.value))
  {
    hide Lower, SameLetters;
    if expected.Some? && actual.Some? { LowerAgreesIff(actual.value, expected.value); }
  }

  /** An event of unknown time is outside of every bounded interval. */
  lemma UntimedIsOutside(events: seq<Event>, f: EventFilter, e: Event)
    requires e.timestamp.None? && (f.since.Some? || f.until.Some?)
    ensures e !in FilterEvents(events, f)
  {
    FilteredArePassed(events, f, e);
  }
}
