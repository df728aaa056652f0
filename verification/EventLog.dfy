/** Logged command events: their charge to the shared budget, merging, and the time filter. */
module EventLog {
  import opened Common
  import opened Text
  import opened Timestamps

  datatype Category = Maven | JarInspection | ClassInspection | PomInspection | ResourceInspection | Shell

  /** `mavenBytes` stands for the parsed Maven command: only its size matters here. */
  datatype Event = Event(timestamp: Option<string>, ide: string, agent: Option<string>, project: Option<string>,
                         session: Option<string>, tool: string, cwd: Option<string>, command: string, category: Category,
                         callId: Option<string>, mavenBytes: nat, provenance: string)

  // ----- charges -----

  const ENTRY_OVERHEAD_BYTES := 48

  /** Sizes of the fixed parts, which depend on the platform. */
  datatype Sizes = Sizes(event: nat, key: nat)

  function OptionalLen(value: Option<string>): nat {
    match value case None => 0 case Some(text) => |text|
  }

  function RetainedBytes(sizes: Sizes, e: Event): nat {
    sizes.event + |e.ide| + |e.tool| + |e.command| + OptionalLen(e.timestamp) + OptionalLen(e.agent)
    + OptionalLen(e.project) + OptionalLen(e.session) + OptionalLen(e.cwd) + OptionalLen(e.callId) + e.mavenBytes
  }

  function TotalBytes(sizes: Sizes, events: seq<Event>): nat {
    if events == [] then 0 else TotalBytes(sizes, events[..|events| - 1]) + RetainedBytes(sizes, events[|events| - 1])
  }

  datatype Identity = Identity(kind: string, text: string)

  datatype Key = Key(ide: string, agent: Option<string>, project: Option<string>, session: string, tool: string,
                     identity: Identity)

  function OrEmpty(value: Option<string>): string {
    match value case None => "" case Some(text) => text
  }

  const NUL: string := [0 as char]

  /** A call id identifies progressive updates; without one, time, directory and command do. */
  function IdentityOf(e: Event): Option<Identity> {
    if e.callId.Some? then Some(Identity("id", e.callId.value))
    else if e.timestamp.Some? then Some(Identity("event", e.timestamp.value + NUL + OrEmpty(e.cwd) + NUL + e.command))
    else None
  }

  function KeyOf(e: Event): Option<Key> {
    match IdentityOf(e)
    case None => None
    case Some(identity) =>
      Some(Key(e.ide, e.agent, e.project, if e.session.Some? then e.session.value else e.provenance, e.tool, identity))
  }

  // ----- which events are updates of one call -----

  /** The session recorded for one stands for both; a source without sessions is told apart by where it was read. */
  predicate SameSession(a: Event, b: Event) {
    match (a.session, b.session)
    case (Some(s), Some(t)) => s == t
    case (Some(s), None) => s == b.provenance
    case (None, Some(t)) => t == a.provenance
    case (None, None) => a.provenance == b.provenance
  }

  predicate NoDirectory(e: Event) { e.cwd == None || e.cwd == Some("") }

  /** Updates of one call: one call id, or no call id and one time, directory and command. */
  predicate SameCall(a: Event, b: Event) {
    && a.ide == b.ide && a.agent == b.agent && a.project == b.project && a.tool == b.tool && SameSession(a, b)
    && a.callId == b.callId
    && (a.callId.None? ==>
          && a.timestamp.Some? && a.timestamp == b.timestamp && a.command == b.command
          && (a.cwd == b.cwd || (NoDirectory(a) && NoDirectory(b))))
  }

  predicate IsPlain(text: Option<string>) { text.Some? ==> 0 as char !in text.value }

  /** Only texts that hold a NUL can be mistaken for other texts joined by NULs. */
  predicate IsUnambiguous(e: Event) {
    e.callId.Some? || (IsPlain(e.timestamp) && IsPlain(e.cwd) && IsPlain(Some(e.command)))
  }

  lemma HasKeyIff(e: Event)
    ensures KeyOf(e).None? <==> e.callId.None? && e.timestamp.None?
  {}

  /** The text before and after its first NUL. */
  function CutAt(text: string): (parts: (string, string))
    requires 0 as char in text
    ensures text == parts.0 + NUL + parts.1
  {
    if text[0] == 0 as char then ("", text[1..])
    else
      var (head, tail) := CutAt(text[1..]);
      ([text[0]] + head, tail)
  }

  lemma {:induction false} CutOfJoined(head: string, tail: string)
    requires 0 as char !in head
    ensures CutAt(head + NUL + tail) == (head, tail)
  {
    var text := head + NUL + tail;
    if head == [] {
      assert text[1..] == tail;
    } else {
      assert head[0] in head && head == [head[0]] + head[1..];
      CutOfJoined(head[1..], tail);
      assert text[1..] == head[1..] + NUL + tail;
    }
  }

  /** Texts without NUL before the last one are told apart by the first two NULs. */
  lemma JoinedTextsAgree(a: string, b: string, c: string, x: string, y: string, z: string)
    requires a + NUL + b + NUL + c == x + NUL + y + NUL + z
    requires 0 as char !in a && 0 as char !in b
    requires 0 as char !in c || (0 as char !in x && 0 as char !in y)
    ensures a == x && b == y && c == z
  {
    if 0 as char !in c {
      assert multiset(a + NUL + b + NUL + c)[0 as char] == 2;
      assert multiset(x + NUL + y + NUL + z)[0 as char] == multiset(x)[0 as char] + multiset(y)[0 as char] + multiset(z)[0 as char] + 2;
    }
    assert a + NUL + b + NUL + c == a + NUL + (b + NUL + c) && x + NUL + y + NUL + z == x + NUL + (y + NUL + z);
    CutOfJoined(a, b + NUL + c);
    CutOfJoined(x, y + NUL + z);
    CutOfJoined(b, c);
    CutOfJoined(y, z);
  }

  /** Two events have one key exactly if they are updates of one call, unless NULs in the texts hide where they end. */
  lemma SameKeyIff(a: Event, b: Event)
    requires KeyOf(a).Some? && (IsUnambiguous(a) || IsUnambiguous(b))
    ensures KeyOf(a) == KeyOf(b) <==> SameCall(a, b)
  {
    if KeyOf(a) == KeyOf(b) && a.callId.None? {
      if IsUnambiguous(a) {
        JoinedTextsAgree(a.timestamp.value, OrEmpty(a.cwd), a.command, b.timestamp.value, OrEmpty(b.cwd), b.command);
      } else {
        JoinedTextsAgree(b.timestamp.value, OrEmpty(b.cwd), b.command, a.timestamp.value, OrEmpty(a.cwd), a.command);
      }
    }
  }

  /** An event that differs from `e` only in where its texts end. */
  function Shifted(e: Event): Event
    requires e.timestamp.Some?
  {
    var cwd := OrEmpty(e.cwd);
    if 0 as char in e.timestamp.value then
      var (head, tail) := CutAt(e.timestamp.value);
      e.(timestamp := Some(head), cwd := Some(tail), command := cwd + NUL + e.command)
    else if 0 as char in cwd then
      var (head, tail) := CutAt(cwd);
      e.(cwd := Some(head), command := tail + NUL + e.command)
    else if 0 as char in e.command then
      var (head, tail) := CutAt(e.command);
      e.(cwd := Some(cwd + NUL + head), command := tail)
    else e
  }

  /** Exactly the events without NULs, or with a call id, are never taken for another call. */
  lemma OnlyItsCallIff(e: Event)
    requires KeyOf(e).Some?
    ensures (forall other :: KeyOf(other) == KeyOf(e) ==> SameCall(e, other)) <==> IsUnambiguous(e)
  {
    if IsUnambiguous(e) {
      forall other | KeyOf(other) == KeyOf(e) ensures SameCall(e, other) { SameKeyIff(e, other); }
    } else {
      ShiftedHasTheKey(e);
    }
  }

  lemma ShiftedHasTheKey(e: Event)
    requires e.timestamp.Some? && !IsUnambiguous(e)
    ensures KeyOf(Shifted(e)) == KeyOf(e) && !SameCall(e, Shifted(e))
  {
    var (t, cwd, command) := (e.timestamp.value, OrEmpty(e.cwd), e.command);
    if 0 as char in t {
      var (head, tail) := CutAt(t);
      assert head + NUL + tail + NUL + (cwd + NUL + command) == t + NUL + cwd + NUL + command;
    } else if 0 as char in cwd {
      var (head, tail) := CutAt(cwd);
      assert t + NUL + head + NUL + (tail + NUL + command) == t + NUL + cwd + NUL + command;
    } else {
      var (head, tail) := CutAt(command);
      assert t + NUL + (cwd + NUL + head) + NUL + tail == t + NUL + cwd + NUL + command;
    }
  }

  function KeyBytes(sizes: Sizes, key: Key): nat {
    sizes.key + ENTRY_OVERHEAD_BYTES + |key.ide| + OptionalLen(key.agent) + OptionalLen(key.project) + |key.session|
    + |key.tool| + |key.identity.text|
  }

  class StateBudget {
    const limit: nat
    var used: nat

    ghost predicate Valid() reads this { used <= limit }

    constructor (limit: nat)
      ensures Valid() && this.limit == limit && used == 0
    {
      this.limit, used := limit, 0;
    }

    method Charge(bytes: nat) returns (ok: bool)
      modifies this
      ensures ok <==> old(used) + bytes <= limit
      ensures used == if ok then old(used) + bytes else old(used)
    {
      ok := used + bytes <= limit;
      if ok { used := used + bytes; }
    }

    method Release(bytes: nat)
      modifies this
      ensures used == if bytes <= old(used) then old(used) - bytes else 0
    {
      used := if bytes <= used then used - bytes else 0;
    }
  }

  // ----- merging -----

  /** The longer command is the more complete one; equally long ones are ordered as text. */
  predicate CommandLess(a: string, b: string) {
    |a| < |b| || (|a| == |b| && LexLess(a, b))
  }

  function Earliest(a: Option<string>, b: Option<string>): Option<string> {
    if a.Some? && b.Some? then (if LexAtMost(a.value, b.value) then a else b)
    else if a.Some? then a else b
  }

  function Merge(previous: Event, e: Event): Event {
    (if CommandLess(previous.command, e.command) then e else previous).(timestamp := Earliest(previous.timestamp, e.timestamp))
  }

  lemma MergeShrinks(sizes: Sizes, previous: Event, e: Event)
    ensures RetainedBytes(sizes, Merge(previous, e)) <= RetainedBytes(sizes, previous) + RetainedBytes(sizes, e)
  {}

  predicate InGroup(events: seq<Event>, key: Key, e: Event) {
    e in events && KeyOf(e) == Some(key)
  }

  /** One of the events of the group, with the longest command of all and the earliest known time of all. */
  ghost predicate Best(events: seq<Event>, key: Key, s: Event) {
    && (exists e :: InGroup(events, key, e) && s == e.(timestamp := s.timestamp))
    && (forall e :: InGroup(events, key, e) ==> !CommandLess(s.command, e.command))
    && (forall e :: InGroup(events, key, e) && e.timestamp.Some? ==>
          s.timestamp.Some? && LexAtMost(s.timestamp.value, e.timestamp.value))
    && (s.timestamp.Some? ==> exists e :: InGroup(events, key, e) && e.timestamp == s.timestamp)
  }

  lemma CommandsAreOrdered(a: string, b: string, c: string)
    ensures CommandLess(a, b) || CommandLess(b, a) || a == b
    ensures CommandLess(a, b) ==> !CommandLess(b, a)
    ensures CommandLess(a, b) && !CommandLess(c, b) ==> CommandLess(a, c)
    ensures !CommandLess(b, a) && !CommandLess(c, b) ==> !CommandLess(c, a)
  {
    LexTotal(a, b);
    LexTotal(b, c);
    LexIrreflexive(a);
    LexIrreflexive(b);
    if |a| == |b| && LexLess(a, b) && LexLess(b, a) { LexTransitive(a, b, a); }
    if |a| == |b| == |c| {
      if LexLess(a, b) && LexLess(b, c) { LexTransitive(a, b, c); }
      if LexLess(c, a) && LexLess(a, b) { LexTransitive(c, a, b); }
      if LexLess(b, c) && LexLess(c, b) { LexTransitive(b, c, b); }
    }
  }

  lemma TimesAreOrdered(a: string, b: string, c: string)
    ensures LexAtMost(a, b) || LexAtMost(b, a)
    ensures LexAtMost(a, b) && LexAtMost(b, c) ==> LexAtMost(a, c)
    ensures LexAtMost(a, b) && LexAtMost(b, a) ==> a == b
  {
    LexTotal(a, b);
    if LexLess(a, b) && LexLess(b, c) { LexTransitive(a, b, c); }
    if LexLess(a, b) && LexLess(b, a) { LexTransitive(a, b, a); LexIrreflexive(a); }
  }

  lemma MergeIsBest(events: seq<Event>, key: Key, s: Event, e: Event)
    requires Best(events, key, s) && KeyOf(e) == Some(key)
    ensures Best(events + [e], key, Merge(s, e))
  {
    hide KeyOf, CommandLess, LexAtMost;
    var (more, m) := (events + [e], Merge(s, e));
    assert forall x :: InGroup(more, key, x) <==> InGroup(events, key, x) || x == e;
    CommandsAreOrdered(s.command, e.command, e.command);
    CommandsAreOrdered(e.command, e.command, e.command);
    if CommandLess(s.command, e.command) {
      assert m == e.(timestamp := m.timestamp);
    } else {
      var x :| InGroup(events, key, x) && s == x.(timestamp := s.timestamp);
      assert m == x.(timestamp := m.timestamp);
    }
    forall x | InGroup(more, key, x) ensures !CommandLess(m.command, x.command) {
      CommandsAreOrdered(s.command, e.command, x.command);
      CommandsAreOrdered(x.command, s.command, e.command);
      CommandsAreOrdered(e.command, x.command, s.command);
    }
    forall x | InGroup(more, key, x) && x.timestamp.Some?
      ensures m.timestamp.Some? && LexAtMost(m.timestamp.value, x.timestamp.value)
    {
      TimesAreOrdered(x.timestamp.value, x.timestamp.value, x.timestamp.value);
      if s.timestamp.Some? && e.timestamp.Some? {
        TimesAreOrdered(s.timestamp.value, e.timestamp.value, x.timestamp.value);
        TimesAreOrdered(e.timestamp.value, s.timestamp.value, x.timestamp.value);
      }
    }
    if m.timestamp.Some? && m.timestamp != e.timestamp {
      var x :| InGroup(events, key, x) && x.timestamp == s.timestamp;
      assert InGroup(more, key, x);
    }
  }

  lemma AloneIsBest(events: seq<Event>, key: Key, e: Event)
    requires KeyOf(e) == Some(key) && forall x :: x in events ==> KeyOf(x) != Some(key)
    ensures Best(events + [e], key, e)
  {
    hide KeyOf;
    assert forall x :: InGroup(events + [e], key, x) <==> x == e;
    CommandsAreOrdered(e.command, e.command, e.command);
    assert InGroup(events + [e], key, e) && e == e.(timestamp := e.timestamp);
  }

  lemma OthersStayBest(events: seq<Event>, key: Key, s: Event, e: Event)
    requires Best(events, key, s) && KeyOf(e) != Some(key)
    ensures Best(events + [e], key, s)
  {
    hide KeyOf, CommandLess, LexAtMost;
    assert forall x :: InGroup(events + [e], key, x) <==> InGroup(events, key, x);
  }

  // ----- the order of a report -----

  predicate OptionLess(a: Option<string>, b: Option<string>) {
    b.Some? && (a.None? || LexLess(a.value, b.value))
  }

  predicate ReportedBefore(a: seq<Option<string>>, b: seq<Option<string>>) {
    a != [] && b != [] && (OptionLess(a[0], b[0]) || (a[0] == b[0] && ReportedBefore(a[1..], b[1..])))
  }

  function SortFields(e: Event): seq<Option<string>> {
    [e.timestamp, Some(e.ide), e.agent, e.project, e.session, Some(e.tool), e.cwd, Some(e.command), e.callId]
  }

  /** The first of the nine fields that differs decides, a missing text coming before every other. */
  lemma ReportOrderIff(a: Event, b: Event)
    ensures ReportedBefore(SortFields(a), SortFields(b)) <==>
              || OptionLess(a.timestamp, b.timestamp) || (a.timestamp == b.timestamp && (
                 || LexLess(a.ide, b.ide) || (a.ide == b.ide && (
                 || OptionLess(a.agent, b.agent) || (a.agent == b.agent && (
                 || OptionLess(a.project, b.project) || (a.project == b.project && (
                 || OptionLess(a.session, b.session) || (a.session == b.session && (
                 || LexLess(a.tool, b.tool) || (a.tool == b.tool && (
                 || OptionLess(a.cwd, b.cwd) || (a.cwd == b.cwd && (
                 || LexLess(a.command, b.command) || (a.command == b.command && OptionLess(a.callId, b.callId))))))))))))))))
  {
    hide OptionLess, LexLess, ReportedBefore;
    var (x, y) := (SortFields(a), SortFields(b));
    TextsAsFields(a, b);
    LaterFields(x, y, 0);
    LaterFields(x, y, 1);
    LaterFields(x, y, 2);
    LaterFields(x, y, 3);
    LaterFields(x, y, 4);
    LastFields(a, b);
    assert x[0..] == x && y[0..] == y;
  }

  /** Events that stay in the order they came in agree in all nine. */
  lemma EqualFieldsIff(a: Event, b: Event)
    ensures SortFields(a) == SortFields(b) <==>
              a == b.(category := a.category, mavenBytes := a.mavenBytes, provenance := a.provenance)
  {
    var (x, y) := (SortFields(a), SortFields(b));
    assert x[0] == a.timestamp && x[1] == Some(a.ide) && x[2] == a.agent && x[3] == a.project && x[4] == a.session
      && x[5] == Some(a.tool) && x[6] == a.cwd && x[7] == Some(a.command) && x[8] == a.callId;
    assert y[0] == b.timestamp && y[1] == Some(b.ide) && y[2] == b.agent && y[3] == b.project && y[4] == b.session
      && y[5] == Some(b.tool) && y[6] == b.cwd && y[7] == Some(b.command) && y[8] == b.callId;
  }

  lemma TextsAsFields(a: Event, b: Event)
    ensures OptionLess(Some(a.ide), Some(b.ide)) <==> LexLess(a.ide, b.ide)
    ensures OptionLess(Some(a.tool), Some(b.tool)) <==> LexLess(a.tool, b.tool)
    ensures OptionLess(Some(a.command), Some(b.command)) <==> LexLess(a.command, b.command)
  {}

  lemma NoFieldsLeft(a: seq<Option<string>>, b: seq<Option<string>>)
    requires a == []
    ensures !ReportedBefore(a, b)
  {}

  lemma LastFields(a: Event, b: Event)
    ensures ReportedBefore(SortFields(a)[5..], SortFields(b)[5..]) <==>
              || LexLess(a.tool, b.tool) || (a.tool == b.tool && (
                 || OptionLess(a.cwd, b.cwd) || (a.cwd == b.cwd && (
                 || LexLess(a.command, b.command) || (a.command == b.command && OptionLess(a.callId, b.callId))))))
  {
    hide OptionLess, LexLess, ReportedBefore;
    var (x, y) := (SortFields(a), SortFields(b));
    TextsAsFields(a, b);
    LaterFields(x, y, 5);
    LaterFields(x, y, 6);
    LaterFields(x, y, 7);
    LaterFields(x, y, 8);
    NoFieldsLeft(x[9..], y[9..]);
  }

  lemma LaterFields(a: seq<Option<string>>, b: seq<Option<string>>, n: nat)
    requires n < |a| == |b|
    ensures ReportedBefore(a[n..], b[n..]) <==> OptionLess(a[n], b[n]) || (a[n] == b[n] && ReportedBefore(a[n + 1..], b[n + 1..]))
  {
    assert a[n..][1..] == a[n + 1..] && b[n..][1..] == b[n + 1..];
  }

  lemma OptionsAreOrdered(a: Option<string>, b: Option<string>, c: Option<string>)
    ensures OptionLess(a, b) || OptionLess(b, a) || a == b
    ensures !(OptionLess(a, b) && OptionLess(b, a))
    ensures OptionLess(a, b) && OptionLess(b, c) ==> OptionLess(a, c)
  {
    if a.Some? && b.Some? {
      LexTotal(a.value, b.value);
      LexIrreflexive(a.value);
      if LexLess(a.value, b.value) && LexLess(b.value, a.value) { LexTransitive(a.value, b.value, a.value); }
      if c.Some? && LexLess(a.value, b.value) && LexLess(b.value, c.value) { LexTransitive(a.value, b.value, c.value); }
    }
  }

  lemma {:induction false} ReportOrderIsTotal(a: seq<Option<string>>, b: seq<Option<string>>, c: seq<Option<string>>)
    requires |a| == |b| == |c|
    ensures ReportedBefore(a, b) || ReportedBefore(b, a) || a == b
    ensures !(ReportedBefore(a, b) && ReportedBefore(b, a))
    ensures ReportedBefore(a, b) && ReportedBefore(b, c) ==> ReportedBefore(a, c)
  {
    hide OptionLess;
    if a != [] {
      OptionsAreOrdered(a[0], b[0], c[0]);
      OptionsAreOrdered(b[0], c[0], a[0]);
      ReportOrderIsTotal(a[1..], b[1..], c[1..]);
      assert a == [a[0]] + a[1..] && b == [b[0]] + b[1..];
    }
  }

  predicate Sorted(events: seq<Event>) {
    forall i, j :: 0 <= i < j < |events| ==> !ReportedBefore(SortFields(events[j]), SortFields(events[i]))
  }

  /** Stable: behind every event that does not come after it. */
  function Insert(events: seq<Event>, e: Event): (inserted: seq<Event>)
    ensures multiset(inserted) == multiset(events) + multiset{e}
  {
    if events == [] then [e]
    else
      var (init, last) := (events[..|events| - 1], events[|events| - 1]);
      assert events == init + [last];
      if ReportedBefore(SortFields(e), SortFields(last)) then Insert(init, e) + [last] else events + [e]
  }

  function SortEvents(events: seq<Event>): (sorted: seq<Event>)
    ensures multiset(sorted) == multiset(events)
  {
    if events == [] then []
    else
      assert events == events[..|events| - 1] + [events[|events| - 1]];
      Insert(SortEvents(events[..|events| - 1]), events[|events| - 1])
  }

  lemma {:induction false} InsertKeepsSorted(events: seq<Event>, e: Event)
    requires Sorted(events)
    ensures Sorted(Insert(events, e))
  {
    hide ReportedBefore, SortFields;
    if events != [] {
      var (init, last) := (events[..|events| - 1], events[|events| - 1]);
      if ReportedBefore(SortFields(e), SortFields(last)) {
        InsertKeepsSorted(init, e);
        var inserted := Insert(init, e);
        forall i | 0 <= i < |inserted| ensures !ReportedBefore(SortFields(last), SortFields(inserted[i])) {
          assert inserted[i] in multiset(inserted);
          assert inserted[i] in init || inserted[i] == e;
          Compare(e, last, e);
        }
      } else {
        forall i | 0 <= i < |events| ensures !ReportedBefore(SortFields(e), SortFields(events[i])) {
          Compare(e, events[i], last);
        }
      }
    }
  }

  lemma Compare(a: Event, b: Event, c: Event)
    ensures ReportedBefore(SortFields(a), SortFields(b)) ==> !ReportedBefore(SortFields(b), SortFields(a))
    ensures ReportedBefore(SortFields(a), SortFields(b)) && !ReportedBefore(SortFields(c), SortFields(b)) ==>
              ReportedBefore(SortFields(a), SortFields(c))
  {
    hide ReportedBefore;
    ReportOrderIsTotal(SortFields(a), SortFields(b), SortFields(c));
    ReportOrderIsTotal(SortFields(b), SortFields(c), SortFields(a));
  }

  /** Sorting orders the events and keeps each as often as it was. */
  lemma {:induction false} SortedEvents(events: seq<Event>)
    ensures Sorted(SortEvents(events)) && multiset(SortEvents(events)) == multiset(events)
  {
    hide ReportedBefore, SortFields, Insert, Sorted;
    if events == [] {
      NothingToSort();
    } else {
      SortedEvents(events[..|events| - 1]);
      InsertKeepsSorted(SortEvents(events[..|events| - 1]), events[|events| - 1]);
    }
  }

  lemma NothingToSort()
    ensures Sorted([])
  {}
}
