/** Records of indexed archives kept across runs, and the index build that reuses them. Encoding a stored record and
    decoding it again is the identity here; an unreadable payload is `None`. */
module Persisted {
  import opened Common
  import opened ClassEntries
  import opened FactStrings
  import opened Preflight
  import opened Text
  import opened ZipArchive

  datatype JarIdentity = JarIdentity(groupId: string, artifactId: string, version: string, classifier: Option<string>,
                                     relativePath: string)

  datatype ProviderKind = TextDescriptor | ModuleUses | ModuleProvides

  datatype Provider = Provider(service: string, provider: Option<string>, kind: ProviderKind, entry: string)

  datatype JarRecord = JarRecord(path: string, identity: JarIdentity, classes: set<string>, entries: seq<string>,
                                 classEntries: map<string, string>, multiRelease: bool, factStrings: seq<string>,
                                 classFacts: seq<ClassFacts<nat>>, providers: seq<Provider>)

  datatype Stamp = Stamp(path: string, size: nat, modified: nat)

  type ArtifactValidity = seq<Stamp>

  /** Limits that shape a record. */
  datatype Limits = Limits(maxEntryBytes: nat, maxJarEntries: nat, maxXmlBytes: nat)

  datatype RecordContext = RecordContext(path: string, identity: JarIdentity, limits: Limits)

  datatype StoredRecord = StoredRecord(context: RecordContext, validity: ArtifactValidity, preflight: PreflightCharge,
                                       multiRelease: bool, entries: seq<string>, factStrings: seq<string>,
                                       classFacts: seq<ClassFacts<nat>>, providers: seq<Provider>)

  const SETTLED_AGE_NS := 2_000_000_000

  predicate IsSettled(validity: ArtifactValidity, now: int) {
    forall i :: 0 <= i < |validity| ==> validity[i].modified + SETTLED_AGE_NS <= now
  }

  predicate ValidIds(factStrings: seq<string>, classFacts: seq<ClassFacts<nat>>) {
    forall i :: 0 <= i < |classFacts| ==> ValidFacts(factStrings, classFacts[i])
  }

  /** What holds of every record read from an archive: nothing in it but what its entries and strings determine. */
  ghost predicate Derived(record: JarRecord) {
    && Effective(record.entries, record.multiRelease, record.classEntries)
    && record.classes == ClassNames(record.classEntries.Keys)
    && ValidIds(record.factStrings, record.classFacts)
  }

  // ----- reading a record -----

  /** What reading an archive's files yields: its entry names, whether its manifest declares several releases, the parsed
      classfiles and the providers. */
  datatype Contents = Contents(entries: seq<string>, multiRelease: bool, parsed: seq<ClassFacts<string>>, providers: seq<Provider>)

  ghost predicate IsReadFrom(record: JarRecord, path: string, identity: JarIdentity, contents: Contents) {
    && record.path == path && record.identity == identity && record.entries == contents.entries
    && record.multiRelease == contents.multiRelease && record.providers == contents.providers
    && Effective(contents.entries, contents.multiRelease, record.classEntries)
    && record.classes == ClassNames(record.classEntries.Keys)
    && NamesAll(record.factStrings, record.classFacts, Kept(contents.parsed)) && Distinct(record.factStrings)
  }

  method LoadRecord(path: string, identity: JarIdentity, contents: Contents) returns (record: JarRecord)
    requires TotalNames(contents.parsed) < MAX_U32
    ensures IsReadFrom(record, path, identity, contents) && Derived(record)
  {
    hide Effective, NamesAll, Derived, ClassNames, Kept;
    var classEntries := EffectiveClassEntries(contents.entries, contents.multiRelease);
    var facts, strings := CollectFacts(contents.parsed);
    record := JarRecord(path, identity, ClassNames(classEntries.Keys), contents.entries, classEntries, contents.multiRelease,
                        strings, facts, contents.providers);
    ReadIsDerived(record, path, identity, contents);
  }

  /** A record read from an archive holds nothing that its entries and strings do not determine, and only valid ids. */
  lemma ReadIsDerived(record: JarRecord, path: string, identity: JarIdentity, contents: Contents)
    requires IsReadFrom(record, path, identity, contents)
    ensures Derived(record)
  {
    hide NamesFacts, ValidFacts, Effective, Kept;
    forall i | 0 <= i < |record.classFacts| ensures ValidFacts(record.factStrings, record.classFacts[i]) {
      NamedIsValid(record.factStrings, record.classFacts[i], Kept(contents.parsed)[i]);
    }
  }

  // ----- storing and restoring -----

  function Persistable(record: JarRecord, validity: ArtifactValidity, preflight: PreflightCharge, limits: Limits, now: int)
    : Option<StoredRecord>
  {
    if !IsSettled(validity, now) then None
    else Some(StoredRecord(RecordContext(record.path, record.identity, limits), validity, preflight, record.multiRelease,
                           record.entries, record.factStrings, record.classFacts, record.providers))
  }

  /** A stored record stands for what would be read now. */
  predicate Usable(payload: Option<StoredRecord>, path: string, identity: JarIdentity, validity: ArtifactValidity, limits: Limits) {
    && payload.Some? && ValidIds(payload.value.factStrings, payload.value.classFacts)
    && payload.value.context == RecordContext(path, identity, limits) && payload.value.validity == validity
  }

  datatype Restored = Miss | Reused(record: JarRecord) | Failed(failure: Failure)

  ghost predicate IsRecordOf(record: JarRecord, stored: StoredRecord, path: string, identity: JarIdentity) {
    && record.path == path && record.identity == identity && Derived(record)
    && record.entries == stored.entries && record.multiRelease == stored.multiRelease
    && record.factStrings == stored.factStrings && record.classFacts == stored.classFacts && record.providers == stored.providers
  }

  method IntoRecord(stored: StoredRecord, path: string, identity: JarIdentity) returns (record: JarRecord)
    requires ValidIds(stored.factStrings, stored.classFacts)
    ensures IsRecordOf(record, stored, path, identity)
  {
    var classEntries := EffectiveClassEntries(stored.entries, stored.multiRelease);
    return JarRecord(path, identity, ClassNames(classEntries.Keys), stored.entries, classEntries, stored.multiRelease,
                     stored.factStrings, stored.classFacts, stored.providers);
  }

  /** A usable record is charged like its preflight was; anything else leaves the budget alone. */
  method Restore(payload: Option<StoredRecord>, path: string, identity: JarIdentity, validity: ArtifactValidity, limits: Limits,
                 budget: ArchiveBudget)
    returns (restored: Restored)
    modifies budget
    ensures !Usable(payload, path, identity, validity, limits) ==> restored == Miss && budget.Left() == old(budget.Left())
    ensures Usable(payload, path, identity, validity, limits) ==>
              var outcome := ChargeOutcome(payload.value.preflight, budget.jarEntries, old(budget.Left()));
              && budget.Left() == outcome.left
              && (outcome.failure.Some? ==> restored == Failed(outcome.failure.value))
              && (outcome.failure.None? ==> restored.Reused? && IsRecordOf(restored.record, payload.value, path, identity))
  {
    if payload.None? || !ValidIds(payload.value.factStrings, payload.value.classFacts) {
      return Miss;
    }
    var stored := payload.value;
    if stored.context != RecordContext(path, identity, limits) || stored.validity != validity {
      return Miss;
    }
    var failure := Charge(stored.preflight, budget);
    if failure.Some? {
      return Failed(failure.value);
    }
    var record := IntoRecord(stored, path, identity);
    return Reused(record);
  }

  /** What was stored of a record that was read from an archive gives back that very record. */
  lemma RestoredIsTheRecord(record: JarRecord, contents: Contents, validity: ArtifactValidity, preflight: PreflightCharge,
                            limits: Limits, now: int, restored: JarRecord)
    requires IsReadFrom(record, record.path, record.identity, contents)
    requires Persistable(record, validity, preflight, limits, now).Some?
    requires IsRecordOf(restored, Persistable(record, validity, preflight, limits, now).value, record.path, record.identity)
    ensures Usable(Persistable(record, validity, preflight, limits, now), record.path, record.identity, validity, limits)
    ensures restored == record
  {
    ReadIsDerived(record, record.path, record.identity, contents);
    EffectiveIsUnique(record.entries, record.multiRelease, record.classEntries, restored.classEntries);
  }

  // ----- why only settled artifacts are stored -----

  /** The modification time that a file system shows which counts time in units of `unit`. */
  function StampAt(time: nat, unit: nat): nat
    requires unit > 0
  {
    time / unit * unit
  }

  /** A settled stamp is never given again, exactly as long as the file system counts in units of two seconds or less. */
  lemma SettledStampsChangeIff(unit: nat)
    requires unit > 0
    ensures (forall stamp: nat, now: nat, time: nat ::
               IsSettled([Stamp("", 0, stamp)], now) && now <= time ==> StampAt(time, unit) != stamp)
            <==> unit <= 2_000_000_000
  {
    if unit <= 2_000_000_000 {
      forall stamp: nat, now: nat, time: nat | IsSettled([Stamp("", 0, stamp)], now) && now <= time
        ensures StampAt(time, unit) != stamp
      {
        assert [Stamp("", 0, stamp)][0].modified + SETTLED_AGE_NS <= now;
        StampIsRecent(time, unit);
      }
    } else {
      assert IsSettled([Stamp("", 0, 0)], 2_000_000_000);
      assert 2_000_000_000 / unit == 0;
      assert StampAt(2_000_000_000, unit) == 0;
    }
  }

  lemma StampIsRecent(time: nat, unit: nat)
    requires unit > 0
    ensures time - unit < StampAt(time, unit) <= time
  {
    assert time == time / unit * unit + time % unit;
  }

  /** A file that is written after its record was stored makes the record useless. */
  lemma RewrittenIsNotReused(record: JarRecord, validity: ArtifactValidity, preflight: PreflightCharge, limits: Limits, now: int,
                             i: nat, time: nat, unit: nat, path: string, identity: JarIdentity, later: ArtifactValidity,
                             laterLimits: Limits)
    requires Persistable(record, validity, preflight, limits, now).Some?
    requires 0 < unit <= 2_000_000_000 && now <= time
    requires i < |validity| && i < |later| && later[i].modified == StampAt(time, unit)
    ensures !Usable(Persistable(record, validity, preflight, limits, now), path, identity, later, laterLimits)
  {
    StampIsRecent(time, unit);
    assert validity[i].modified < later[i].modified;
  }

  // ----- the order of an index -----

  ghost predicate InPathOrder(records: seq<JarRecord>) {
    forall i, j :: 0 <= i < j < |records| ==> !LexLess(records[j].identity.relativePath, records[i].identity.relativePath)
  }

  function Insert(records: seq<JarRecord>, r: JarRecord): (inserted: seq<JarRecord>)
    ensures multiset(inserted) == multiset(records) + multiset{r}
  {
    if records == [] then [r]
    else
      var (init, last) := (records[..|records| - 1], records[|records| - 1]);
      assert records == init + [last];
      if LexLess(r.identity.relativePath, last.identity.relativePath) then Insert(init, r) + [last] else records + [r]
  }

  function SortedByPath(records: seq<JarRecord>): (sorted: seq<JarRecord>)
    ensures multiset(sorted) == multiset(records)
  {
    if records == [] then []
    else
      assert records == records[..|records| - 1] + [records[|records| - 1]];
      Insert(SortedByPath(records[..|records| - 1]), records[|records| - 1])
  }

  lemma PathsAreOrdered(a: string, b: string, c: string)
    ensures LexLess(a, b) ==> !LexLess(b, a)
    ensures LexLess(a, b) && !LexLess(c, b) ==> LexLess(a, c)
  {
    LexIrreflexive(a);
    if LexLess(a, b) && LexLess(b, a) { LexTransitive(a, b, a); }
    LexTotal(b, c);
    if LexLess(a, b) && LexLess(b, c) { LexTransitive(a, b, c); }
  }

  lemma {:induction false} InsertKeepsOrder(records: seq<JarRecord>, r: JarRecord)
    requires InPathOrder(records)
    ensures InPathOrder(Insert(records, r))
  {
    hide LexLess;
    if records != [] {
      var (init, last) := (records[..|records| - 1], records[|records| - 1]);
      var path := r.identity.relativePath;
      PathsAreOrdered(path, last.identity.relativePath, path);
      if LexLess(path, last.identity.relativePath) {
        InsertKeepsOrder(init, r);
        var inserted := Insert(init, r);
        forall i | 0 <= i < |inserted| ensures !LexLess(last.identity.relativePath, inserted[i].identity.relativePath) {
          assert inserted[i] in multiset(inserted);
          assert inserted[i] in init || inserted[i] == r;
        }
      } else {
        forall i | 0 <= i < |records| ensures !LexLess(path, records[i].identity.relativePath) {
          PathsAreOrdered(path, records[i].identity.relativePath, last.identity.relativePath);
        }
      }
    }
  }

  /** The records of an index, in the order of their paths, each as often as it was. */
  lemma {:induction false} RecordsAreOrdered(records: seq<JarRecord>)
    ensures InPathOrder(SortedByPath(records)) && multiset(SortedByPath(records)) == multiset(records)
  {
    hide LexLess, Insert;
    if records != [] {
      RecordsAreOrdered(records[..|records| - 1]);
      InsertKeepsOrder(SortedByPath(records[..|records| - 1]), records[|records| - 1]);
    }
  }

  // ----- building an index -----

  datatype Content = Jar(file: seq<Byte>) | Directory(walk: seq<WalkEntry>)

  /** An artifact to index. `loaded` is what reading it gives, if it can be read; `cut` is what reading it gives once the job is
      cancelled, which may be any record, with any part of the facts missing. */
  datatype Source = Source(path: string, identity: JarIdentity, validity: Option<ArtifactValidity>, content: Content,
                           loaded: Option<JarRecord>, cut: Option<JarRecord>)

  function PreflightOutcome(content: Content, jarEntries: nat, left: Remaining): Outcome {
    match content
    case Jar(file) => FileOutcome(file, jarEntries, left)
    case Directory(walk) => CountFiles(walk, 0, 0, jarEntries, left)
  }

  datatype Built = Built(records: seq<JarRecord>, left: Remaining) | BuildFailed(failure: Failure) | BuildCancelled

  /** How many more checkpoints pass before one sees the job cancelled; nothing when none ever does. */
  type Passes = Option<nat>

  function OneLess(passes: Passes): Passes {
    if passes.Some? && passes.value > 0 then Some(passes.value - 1) else passes
  }

  /** What reading the artifact gives, after a checkpoint that leaves `passes`. */
  function ReadOf(jar: Source, passes: Passes): Option<JarRecord> {
    if passes == Some(0) then jar.cut else jar.loaded
  }

  function Listed(record: Option<JarRecord>): seq<JarRecord> {
    if record.Some? then [record.value] else []
  }

  /** The build without stored records: malformed archives are skipped, an exceeded limit ends it, and so does a checkpoint -
      before each archive and after the last - that sees the job cancelled. */
  function FreshBuild(jars: seq<Source>, jarEntries: nat, left: Remaining, before: seq<JarRecord>, passes: Passes): Built {
    if passes == Some(0) then BuildCancelled
    else if jars == [] then Built(SortedByPath(before), left)
    else
      var outcome := PreflightOutcome(jars[0].content, jarEntries, left);
      match outcome.failure
      case Some(Exceeded(limit)) => BuildFailed(Exceeded(limit))
      case Some(Malformed) => FreshBuild(jars[1..], jarEntries, outcome.left, before, OneLess(passes))
      case None =>
        FreshBuild(jars[1..], jarEntries, outcome.left, before + Listed(ReadOf(jars[0], OneLess(passes))), OneLess(passes))
  }

  /** The artifact at which that build exceeds a limit, and the budget left for it. */
  function FailsAt(jars: seq<Source>, i: nat, jarEntries: nat, left: Remaining, passes: Passes): (at: Option<(nat, Remaining)>)
    requires i <= |jars|
    ensures at.Some? ==> at.value.0 < |jars|
    decreases |jars| - i
  {
    if passes == Some(0) || i == |jars| then None
    else
      var outcome := PreflightOutcome(jars[i].content, jarEntries, left);
      if outcome.failure.Some? && outcome.failure.value.Exceeded? then Some((i, left))
      else FailsAt(jars, i + 1, jarEntries, outcome.left, OneLess(passes))
  }

  /** Counting the artifact exceeds a limit. */
  predicate ExceedsAt(jars: seq<Source>, i: nat, jarEntries: nat, left: Remaining)
    requires i < |jars|
  {
    var failure := PreflightOutcome(jars[i].content, jarEntries, LeftFor(jars, i, jarEntries, left)).failure;
    failure.Some? && failure.value.Exceeded?
  }

  /** The artifact can be counted and read, and gives this record. */
  predicate GivesRecord(jars: seq<Source>, i: nat, jarEntries: nat, left: Remaining, r: JarRecord)
    requires i < |jars|
  {
    PreflightOutcome(jars[i].content, jarEntries, LeftFor(jars, i, jarEntries, left)).failure.None? && jars[i].loaded == Some(r)
  }

  ghost function Giving(jars: seq<Source>, i: nat, jarEntries: nat, left: Remaining, r: JarRecord): set<nat> {
    set j: nat | i <= j < |jars| && GivesRecord(jars, j, jarEntries, left, r)
  }

  /** An index is built exactly if no checkpoint sees the job cancelled and no artifact exceeds a limit. It holds, ordered by
      path, the record of every artifact that can be counted and read, as often as artifacts give it. */
  lemma BuiltIff(jars: seq<Source>, jarEntries: nat, left: Remaining, passes: Passes, r: JarRecord)
    ensures var built := FreshBuild(jars, jarEntries, left, [], passes);
      && (built.Built? <==>
            (passes.None? || passes.value > |jars|) && forall i :: 0 <= i < |jars| ==> !ExceedsAt(jars, i, jarEntries, left))
      && (built.Built? ==>
            && InPathOrder(built.records) && multiset(built.records)[r] == |Giving(jars, 0, jarEntries, left, r)|
            && built.left == LeftFor(jars, |jars|, jarEntries, left))
  {
    hide FreshBuild, PreflightOutcome, SortedByPath, InPathOrder, LeftFor, GivesRecord, ExceedsAt;
    assert jars[0..] == jars;
    assert LeftFor(jars, 0, jarEntries, left) == left by { NothingTaken(jars, jarEntries, left); }
    if passes.None? || passes.value > |jars| {
      RestIsBuiltIff(jars, 0, jarEntries, left, [], passes, r);
    } else {
      CancelledBuildsNothing(jars, jarEntries, left, [], passes);
    }
  }

  lemma NothingTaken(jars: seq<Source>, jarEntries: nat, left: Remaining)
    ensures LeftFor(jars, 0, jarEntries, left) == left
  {}

  lemma GivingNext(jars: seq<Source>, i: nat, jarEntries: nat, left: Remaining, r: JarRecord)
    requires i < |jars|
    ensures |Giving(jars, i, jarEntries, left, r)|
              == |Giving(jars, i + 1, jarEntries, left, r)| + if GivesRecord(jars, i, jarEntries, left, r) then 1 else 0
  {
    hide GivesRecord;
    var (all, rest) := (Giving(jars, i, jarEntries, left, r), Giving(jars, i + 1, jarEntries, left, r));
    assert all == if GivesRecord(jars, i, jarEntries, left, r) then rest + {i} else rest;
  }

  ghost predicate NoneExceeds(jars: seq<Source>, i: nat, jarEntries: nat, left: Remaining) {
    forall j: nat :: i <= j < |jars| ==> !ExceedsAt(jars, j, jarEntries, left)
  }

  /** What the rest of the artifacts makes of the records before. */
  ghost predicate IsRestOf(built: Built, jars: seq<Source>, i: nat, jarEntries: nat, left: Remaining, before: seq<JarRecord>,
                           r: JarRecord) {
    && (built.Built? <==> NoneExceeds(jars, i, jarEntries, left))
    && (built.Built? ==>
          && InPathOrder(built.records)
          && multiset(built.records)[r] == multiset(before)[r] + |Giving(jars, i, jarEntries, left, r)|
          && built.left == LeftFor(jars, |jars|, jarEntries, left))
  }

  lemma {:induction false} RestIsBuiltIff(jars: seq<Source>, i: nat, jarEntries: nat, left: Remaining, before: seq<JarRecord>,
                                          passes: Passes, r: JarRecord)
    requires i <= |jars| && (passes.None? || passes.value > |jars| - i)
    ensures IsRestOf(FreshBuild(jars[i..], jarEntries, LeftFor(jars, i, jarEntries, left), before, passes), jars, i, jarEntries,
                     left, before, r)
    decreases |jars| - i
  {
    hide FreshBuild, PreflightOutcome, IsRestOf;
    if i == |jars| {
      NothingMore(jars, jarEntries, left, before, passes, r);
    } else {
      var here := LeftFor(jars, i, jarEntries, left);
      var failure := PreflightOutcome(jars[i].content, jarEntries, here).failure;
      NextBuild(jars, i, jarEntries, here, before, passes);
      LeftForNext(jars, i, jarEntries, left);
      hide LeftFor;
      var read := if failure.None? then Listed(jars[i].loaded) else [];
      assert before + [] == before;
      if failure.None? || failure.value.Malformed? {
        RestIsBuiltIff(jars, i + 1, jarEntries, left, before + read, OneLess(passes), r);
      }
      RestNext(FreshBuild(jars[i..], jarEntries, here, before, passes), jars, i, jarEntries, left, before, r);
    }
  }

  lemma NothingMore(jars: seq<Source>, jarEntries: nat, left: Remaining, before: seq<JarRecord>, passes: Passes, r: JarRecord)
    requires passes.None? || passes.value > 0
    ensures IsRestOf(FreshBuild(jars[|jars|..], jarEntries, LeftFor(jars, |jars|, jarEntries, left), before, passes), jars, |jars|,
                     jarEntries, left, before, r)
  {
    hide SortedByPath, InPathOrder, LeftFor, ExceedsAt, GivesRecord;
    RecordsAreOrdered(before);
    assert Giving(jars, |jars|, jarEntries, left, r) == {};
  }

  lemma RestNext(built: Built, jars: seq<Source>, i: nat, jarEntries: nat, left: Remaining, before: seq<JarRecord>, r: JarRecord)
    requires i < |jars|
    requires var failure := PreflightOutcome(jars[i].content, jarEntries, LeftFor(jars, i, jarEntries, left)).failure;
      var read := if failure.None? then Listed(jars[i].loaded) else [];
      if failure.Some? && failure.value.Exceeded? then !built.Built?
      else IsRestOf(built, jars, i + 1, jarEntries, left, before + read, r)
    ensures IsRestOf(built, jars, i, jarEntries, left, before, r)
  {
    hide PreflightOutcome, LeftFor, Giving, InPathOrder;
    HereIff(jars, i, jarEntries, left, r);
    GivingNext(jars, i, jarEntries, left, r);
    assert NoneExceeds(jars, i, jarEntries, left) <==> !ExceedsAt(jars, i, jarEntries, left) && NoneExceeds(jars, i + 1, jarEntries, left);
    assert forall records: seq<JarRecord> :: multiset(before + records)[r] == multiset(before)[r] + multiset(records)[r];
  }

  lemma HereIff(jars: seq<Source>, i: nat, jarEntries: nat, left: Remaining, r: JarRecord)
    requires i < |jars|
    ensures var failure := PreflightOutcome(jars[i].content, jarEntries, LeftFor(jars, i, jarEntries, left)).failure;
      && (ExceedsAt(jars, i, jarEntries, left) <==> failure.Some? && failure.value.Exceeded?)
      && (GivesRecord(jars, i, jarEntries, left, r) <==> failure.None? && jars[i].loaded == Some(r))
  {}

  /** The charge is what counting the content takes. */
  predicate ChargesContent(content: Content, charge: PreflightCharge) {
    match content
    case Jar(file) =>
      var declared := Locate(file);
      && declared.Declared? && WellFormed(ArchiveOf(file, declared))
      && charge == PreflightCharge(declared.count, NameBytes(ArchiveOf(file, declared)))
    case Directory(walk) =>
      var files := FileSizes(walk);
      && Unreadable !in walk && charge == PreflightCharge(|files|, Sum(files))
      && forall i :: 0 <= i < |files| ==> files[i] <= MAX_ENTRY_NAME_BYTES
  }

  /** A stored record that passes the checks was made from what is there now. */
  ghost predicate Faithful(stored: StoredRecord, jar: Source, limits: Limits) {
    jar.validity.Some? && Usable(Some(stored), jar.path, jar.identity, jar.validity.value, limits) ==>
      && jar.loaded.Some? && IsRecordOf(jar.loaded.value, stored, jar.path, jar.identity)
      && ChargesContent(jar.content, stored.preflight)
  }

  /** What is loaded for an artifact was read from it. */
  ghost predicate SoundSource(jar: Source) {
    jar.loaded.Some? ==> exists contents :: IsReadFrom(jar.loaded.value, jar.path, jar.identity, contents)
  }

  type Store = map<string, Option<StoredRecord>>

  ghost predicate FaithfulStore(store: Store, jars: seq<Source>, limits: Limits) {
    forall i :: 0 <= i < |jars| ==>
      SoundSource(jars[i]) &&
      (jars[i].path in store && store[jars[i].path].Some? ==> Faithful(store[jars[i].path].value, jars[i], limits))
  }

  /** The record was made from this artifact under these limits. */
  ghost predicate IsStoredOf(stored: StoredRecord, jar: Source, limits: Limits) {
    && stored.context == RecordContext(jar.path, jar.identity, limits) && jar.validity == Some(stored.validity)
    && jar.loaded.Some? && IsRecordOf(jar.loaded.value, stored, jar.path, jar.identity)
    && ChargesContent(jar.content, stored.preflight)
  }

  /** Place, stamps and limits tell whether an artifact reads as it did. */
  ghost predicate StampsTell(jar: Source, limits: Limits, later: Source, laterLimits: Limits) {
    later.path == jar.path && later.identity == jar.identity && later.validity == jar.validity && laterLimits == limits ==>
      later.content == jar.content && later.loaded == jar.loaded
  }

  /** Wherever a stored record is found later, under whatever limits, it is used only for what it was made from. */
  lemma StoredStaysFaithful(stored: StoredRecord, jar: Source, limits: Limits, later: Source, laterLimits: Limits)
    requires IsStoredOf(stored, jar, limits) && StampsTell(jar, limits, later, laterLimits)
    ensures Faithful(stored, later, laterLimits)
  {
    hide IsRecordOf, ChargesContent, ValidIds;
  }

  /** Records that earlier builds stored, from whatever artifacts and under whatever limits, make a store to build from. */
  lemma EarlierBuildsMakeAStore(store: Store, made: map<string, (Source, Limits)>, jars: seq<Source>, limits: Limits)
    requires forall path :: path in store && store[path].Some? ==>
               path in made && IsStoredOf(store[path].value, made[path].0, made[path].1)
    requires forall i, path :: 0 <= i < |jars| && path in made ==> StampsTell(made[path].0, made[path].1, jars[i], limits)
    requires forall i :: 0 <= i < |jars| ==> SoundSource(jars[i])
    ensures FaithfulStore(store, jars, limits)
  {
    hide IsStoredOf, StampsTell, Faithful, SoundSource;
    forall i | 0 <= i < |jars| && jars[i].path in store && store[jars[i].path].Some?
      ensures Faithful(store[jars[i].path].value, jars[i], limits)
    {
      var path := jars[i].path;
      StoredStaysFaithful(store[path].value, made[path].0, made[path].1, jars[i], limits);
    }
  }

  /** What was stored for an artifact is reused for it, as long as its stamps and the limits stay. */
  lemma StoredIsReused(stored: StoredRecord, jar: Source, limits: Limits, store: Store)
    requires IsStoredOf(stored, jar, limits) && Payload(store, jar.path) == Some(stored)
    ensures IsReused(jar, store, limits)
  {
    hide ChargesContent;
  }

  /** The budget left for an artifact by those before it. */
  function LeftFor(jars: seq<Source>, i: nat, jarEntries: nat, left: Remaining): Remaining
    requires i <= |jars|
  {
    if i == 0 then left else PreflightOutcome(jars[i - 1].content, jarEntries, LeftFor(jars, i - 1, jarEntries, left)).left
  }

  /** The artifact is counted and read in this pass, and none of its files was modified within the last two seconds. */
  predicate IsWorthStoring(jars: seq<Source>, i: nat, store: Store, limits: Limits, now: int, jarEntries: nat, left: Remaining)
    requires i < |jars|
  {
    && !IsReused(jars[i], store, limits)
    && PreflightOutcome(jars[i].content, jarEntries, LeftFor(jars, i, jarEntries, left)).failure.None?
    && jars[i].loaded.Some? && jars[i].validity.Some?
    && forall k :: 0 <= k < |jars[i].validity.value| ==> now - jars[i].validity.value[k].modified >= 2_000_000_000
  }

  /** Exactly those of the first `n` artifacts, in their order. */
  ghost predicate StoresExactly(from: seq<nat>, jars: seq<Source>, n: nat, store: Store, limits: Limits, now: int,
                                jarEntries: nat, left: Remaining) {
    && n <= |jars| && (forall k :: 0 <= k < |from| ==> from[k] < n)
    && (forall k, l :: 0 <= k < l < |from| ==> from[k] < from[l])
    && (forall i :: 0 <= i < n ==> (i in from <==> IsWorthStoring(jars, i, store, limits, now, jarEntries, left)))
  }

  lemma StoreNext(from: seq<nat>, jars: seq<Source>, i: nat, store: Store, limits: Limits, now: int, jarEntries: nat, left: Remaining)
    requires StoresExactly(from, jars, i, store, limits, now, jarEntries, left) && i < |jars|
    ensures var next := if IsWorthStoring(jars, i, store, limits, now, jarEntries, left) then from + [i] else from;
      StoresExactly(next, jars, i + 1, store, limits, now, jarEntries, left)
  {
    hide IsWorthStoring;
    assert forall j :: j in from + [i] <==> j in from || j == i;
  }

  function Payload(store: Store, path: string): Option<StoredRecord> {
    if path in store then store[path] else None
  }

  /** Reusing names the limit that counting names: always for an archive, and for a directory in which no other limit is crossed
      before the count that reuse reports. */
  predicate NamesTheSame(content: Content, jarEntries: nat, left: Remaining) {
    content.Directory? ==> CountsFailFirst(FileSizes(content.walk), jarEntries, left)
  }

  /** The same is taken from the budget, or both fail for an exceeded limit - the same one exactly if `same`. */
  predicate ChargedAlike(reuse: Outcome, count: Outcome, same: bool) {
    && (reuse.failure.None? <==> count.failure.None?)
    && (reuse.failure.None? ==> reuse.left == count.left)
    && (reuse.failure.Some? ==> reuse.failure.value.Exceeded? && count.failure.value.Exceeded?)
    && (reuse.failure == count.failure <==> same)
  }

  /** Reuse takes the same from the budget as counting, fails exactly when counting does, and names the same limit exactly
      where `NamesTheSame` holds. */
  lemma ReuseChargesAlike(content: Content, charge: PreflightCharge, jarEntries: nat, left: Remaining)
    requires ChargesContent(content, charge)
    ensures ChargedAlike(ChargeOutcome(charge, jarEntries, left), PreflightOutcome(content, jarEntries, left),
                         NamesTheSame(content, jarEntries, left))
  {
    match content
    case Jar(file) =>
      hide Locate, ArchiveOf, ArchiveOutcome, ChargeOutcome, WellFormed, NameBytes;
      ArchiveChargesAlike(ArchiveOf(file, Locate(file)), jarEntries, left);
      assert ArchiveOf(file, Locate(file)).count == Locate(file).count by { CountIsDeclared(file); }
    case Directory(walk) =>
      hide CountFiles, FileSizes, CountsFailFirst, ChargeOutcome;
      DirectoryChargesAlike(walk, jarEntries, left);
  }

  lemma CountIsDeclared(file: seq<Byte>)
    ensures Locate(file).Declared? ==> ArchiveOf(file, Locate(file)).count == Locate(file).count
  {
    hide Locate;
  }

  lemma ArchiveChargesAlike(a: Archive, jarEntries: nat, left: Remaining)
    requires WellFormed(a)
    ensures ChargedAlike(ChargeOutcome(PreflightCharge(a.count, NameBytes(a)), jarEntries, left),
                         ArchiveOutcome(a, jarEntries, left), true)
  {
    hide Sum, Span, NameSizes, NameBytes, ArchiveOutcome;
    ArchiveFailsIff(a, jarEntries, left);
  }

  lemma DirectoryChargesAlike(walk: seq<WalkEntry>, jarEntries: nat, left: Remaining)
    requires Unreadable !in walk
    requires forall i :: 0 <= i < |FileSizes(walk)| ==> FileSizes(walk)[i] <= MAX_ENTRY_NAME_BYTES
    ensures var files := FileSizes(walk);
      ChargedAlike(ChargeOutcome(PreflightCharge(|files|, Sum(files)), jarEntries, left), CountFiles(walk, 0, 0, jarEntries, left),
                   CountsFailFirst(files, jarEntries, left))
  {
    hide Sum, FileSizes, CountFiles, Fits, CountsFailFirst;
    DirectoryFailsIff(walk, jarEntries, left);
    DirectoryReuseFailsIff(FileSizes(walk), jarEntries, left, CountFiles(walk, 0, 0, jarEntries, left).failure);
    DirectoryReuseFailsAlikeIff(FileSizes(walk), jarEntries, left, CountFiles(walk, 0, 0, jarEntries, left).failure);
  }

  /** What a preflight took is what its record is charged with. */
  lemma ChargeIsTaken(content: Content, jarEntries: nat, left: Remaining)
    requires PreflightOutcome(content, jarEntries, left).failure.None?
    ensures var after := PreflightOutcome(content, jarEntries, left).left;
      && after.entries <= left.entries && after.names <= left.names
      && ChargesContent(content, PreflightCharge(left.entries - after.entries, left.names - after.names))
  {
    match content
    case Jar(file) =>
      hide Locate, ArchiveOutcome;
      ArchiveFailsIff(ArchiveOf(file, Locate(file)), jarEntries, left);
      ArchiveIsWithin(ArchiveOf(file, Locate(file)), jarEntries, left);
    case Directory(walk) =>
      hide Sum, FileSizes, CountFiles;
      DirectoryFailsIff(walk, jarEntries, left);
  }

  lemma ArchiveIsWithin(a: Archive, jarEntries: nat, left: Remaining)
    requires ArchiveOutcome(a, jarEntries, left).failure.None?
    ensures WellFormed(a) && a.count <= left.entries && NameBytes(a) <= left.names
  {
    hide Sum, Span, NameSizes, NameBytes, WellFormed, CountHeaders;
    ArchiveFailsIff(a, jarEntries, left);
  }

  predicate IsReused(jar: Source, store: Store, limits: Limits) {
    jar.validity.Some? && Usable(Payload(store, jar.path), jar.path, jar.identity, jar.validity.value, limits)
  }

  /** Both builds give the same index, or both are cancelled, or both exceed a limit at the same artifact `at` - the same limit
      if and only if that artifact's record is not reused, or reusing it names the limit that counting names. */
  predicate SameBuild(cached: Built, plain: Built, jars: seq<Source>, store: Store, limits: Limits, jarEntries: nat,
                      at: Option<(nat, Remaining)>)
    requires at.Some? ==> at.value.0 < |jars|
  {
    if !plain.BuildFailed? then cached == plain
    else
      && cached.BuildFailed? && at.Some?
      && var (jar, left) := (jars[at.value.0], at.value.1);
      cached == plain <==> (IsReused(jar, store, limits) ==> NamesTheSame(jar.content, jarEntries, left))
  }

  /** One pass over the sorted artifacts: reuse a stored record, or count and read. */
  method BuildFromJars(jars: seq<Source>, store: Store, limits: Limits, now: int, budget: ArchiveBudget, passes: Passes)
    returns (built: Built, persistable: seq<StoredRecord>, ghost from: seq<nat>)
    requires FaithfulStore(store, jars, limits)
    modifies budget
    ensures SameBuild(built, FreshBuild(jars, budget.jarEntries, old(budget.Left()), [], passes), jars, store, limits,
                      budget.jarEntries, FailsAt(jars, 0, budget.jarEntries, old(budget.Left()), passes))
    ensures |from| == |persistable| && (!built.Built? ==> persistable == [])
    ensures forall k :: 0 <= k < |persistable| ==> from[k] < |jars| && IsStoredOf(persistable[k], jars[from[k]], limits)
    ensures built.Built? ==> StoresExactly(from, jars, |jars|, store, limits, now, budget.jarEntries, old(budget.Left()))
  {
    hide FreshBuild, FailsAt, PreflightOutcome, ArchiveOutcome, CountFiles, Derived, Usable, Persistable, IsRecordOf,
         ChargesContent, SameBuild, Faithful, FaithfulStore, SoundSource, ChargeOutcome, SortedByPath, NamesTheSame, IsReused,
         IsStoredOf, StoresExactly, IsWorthStoring, LeftFor;
    ghost var start := budget.Left();
    persistable, from := [], [];
    var records: seq<JarRecord> := [];
    var remaining := passes;
    ghost var whole := FreshBuild(jars, budget.jarEntries, budget.Left(), [], passes);
    ghost var at := FailsAt(jars, 0, budget.jarEntries, budget.Left(), passes);
    assert jars[0..] == jars;
    NothingStored(jars, store, limits, now, budget.jarEntries, start);
    for i := 0 to |jars|
      invariant budget.Left() == LeftFor(jars, i, budget.jarEntries, start)
      invariant whole == FreshBuild(jars[i..], budget.jarEntries, budget.Left(), records, remaining)
      invariant at == FailsAt(jars, i, budget.jarEntries, budget.Left(), remaining)
      invariant |from| == |persistable|
      invariant remaining == Some(0)
        || forall k :: 0 <= k < |persistable| ==> from[k] < |jars| && IsStoredOf(persistable[k], jars[from[k]], limits)
      invariant remaining == Some(0) || StoresExactly(from, jars, i, store, limits, now, budget.jarEntries, start)
    {
      ghost var before := budget.Left();
      LeftForNext(jars, i, budget.jarEntries, start);
      NextBuild(jars, i, budget.jarEntries, before, records, remaining);
      if remaining == Some(0) {
        SameAsItself(BuildCancelled, jars, store, limits, budget.jarEntries, at);
        return BuildCancelled, [], [];
      }
      StoreNext(from, jars, i, store, limits, now, budget.jarEntries, start);
      remaining := OneLess(remaining);
      var jar := jars[i];
      if jar.validity.Some? {
        var payload := Payload(store, jar.path);
        var restored := Restore(payload, jar.path, jar.identity, jar.validity.value, limits, budget);
        ReuseIsFresh(store, jars, i, limits, budget.jarEntries, before, restored);
        match restored {
          case Failed(failure) =>
            FailedAlike(jars, store, limits, budget.jarEntries, i, before, failure, whole);
            return BuildFailed(failure), [], [];
          case Reused(record) =>
            CancelledAnyhow(jars[i + 1..], budget.jarEntries, budget.Left(), records + Listed(ReadOf(jar, remaining)),
                            records + [record], remaining);
            NotWorthStoring(jars, i, store, limits, now, budget.jarEntries, start);
            records := records + [record];
            continue;
          case Miss =>
        }
      }
      var (entries, names) := (budget.entries, budget.names);
      assert budget.Left() == before && !IsReused(jar, store, limits) by { NotReused(jar, store, limits); }
      var failure := PreflightContent(jar.content, budget);
      if failure.Some? {
        if failure.value.Malformed? {
          NotWorthStoring(jars, i, store, limits, now, budget.jarEntries, start);
          continue;
        }
        CountedAlike(jars, store, limits, budget.jarEntries, i, before, failure.value);
        return BuildFailed(failure.value), [], [];
      }
      var loaded := ReadOf(jar, remaining);
      if loaded.None? {
        assert records + [] == records;
        if remaining != Some(0) { NotWorthStoring(jars, i, store, limits, now, budget.jarEntries, start); }
        continue;
      }
      ChargeIsTaken(jar.content, budget.jarEntries, before);
      if remaining != Some(0) {
        var taken := PreflightCharge(entries - budget.entries, names - budget.names);
        WorthStoringIff(jars, i, store, limits, now, budget.jarEntries, start, taken);
      }
      if jar.validity.Some? {
        var charge := PreflightCharge(entries - budget.entries, names - budget.names);
        var stored := Persistable(loaded.value, jar.validity.value, charge, limits, now);
        if stored.Some? {
          if remaining != Some(0) { IsStoredFor(store, jars, i, charge, limits, now); }
          persistable, from := persistable + [stored.value], from + [i];
        }
      }
      records := records + [loaded.value];
    }
    NothingToBuild(jars, budget.jarEntries, budget.Left(), records, remaining, store, limits, at);
    if remaining == Some(0) {
      return BuildCancelled, [], [];
    }
    records := SortedByPath(records);
    return Built(records, Remaining(budget.entries, budget.names)), persistable, from;
  }

  lemma NothingStored(jars: seq<Source>, store: Store, limits: Limits, now: int, jarEntries: nat, left: Remaining)
    ensures StoresExactly([], jars, 0, store, limits, now, jarEntries, left) && LeftFor(jars, 0, jarEntries, left) == left
  {}

  lemma LeftForNext(jars: seq<Source>, i: nat, jarEntries: nat, left: Remaining)
    requires i < |jars|
    ensures LeftFor(jars, i + 1, jarEntries, left)
              == PreflightOutcome(jars[i].content, jarEntries, LeftFor(jars, i, jarEntries, left)).left
  {}

  lemma NotWorthStoring(jars: seq<Source>, i: nat, store: Store, limits: Limits, now: int, jarEntries: nat, left: Remaining)
    requires i < |jars|
    requires IsReused(jars[i], store, limits) || jars[i].loaded.None?
      || PreflightOutcome(jars[i].content, jarEntries, LeftFor(jars, i, jarEntries, left)).failure.Some?
    ensures !IsWorthStoring(jars, i, store, limits, now, jarEntries, left)
  {}

  lemma WorthStoringIff(jars: seq<Source>, i: nat, store: Store, limits: Limits, now: int, jarEntries: nat, left: Remaining,
                        charge: PreflightCharge)
    requires i < |jars| && !IsReused(jars[i], store, limits) && jars[i].loaded.Some?
    requires PreflightOutcome(jars[i].content, jarEntries, LeftFor(jars, i, jarEntries, left)).failure.None?
    ensures IsWorthStoring(jars, i, store, limits, now, jarEntries, left) <==>
              jars[i].validity.Some? && Persistable(jars[i].loaded.value, jars[i].validity.value, charge, limits, now).Some?
  {}

  method PreflightContent(content: Content, budget: ArchiveBudget) returns (failure: Option<Failure>)
    modifies budget
    ensures Outcome(failure, budget.Left()) == PreflightOutcome(content, budget.jarEntries, old(budget.Left()))
  {
    match content {
      case Jar(file) => failure := PreflightArchive(file, budget);
      case Directory(walk) => failure := PreflightDirectory(walk, budget);
    }
  }

  lemma NothingToBuild(jars: seq<Source>, jarEntries: nat, left: Remaining, records: seq<JarRecord>, passes: Passes,
                       store: Store, limits: Limits, at: Option<(nat, Remaining)>)
    requires at.Some? ==> at.value.0 < |jars|
    ensures var built := if passes == Some(0) then BuildCancelled else Built(SortedByPath(records), left);
      && FreshBuild(jars[|jars|..], jarEntries, left, records, passes) == built
      && SameBuild(built, built, jars, store, limits, jarEntries, at)
  {
    hide SortedByPath, NamesTheSame, IsReused;
  }

  /** Once the job is cancelled, it does not matter what was read. */
  lemma CancelledAnyhow(jars: seq<Source>, jarEntries: nat, left: Remaining, some: seq<JarRecord>, others: seq<JarRecord>,
                        passes: Passes)
    ensures passes == Some(0) ==>
              FreshBuild(jars, jarEntries, left, some, passes) == FreshBuild(jars, jarEntries, left, others, passes)
  {}

  /** A build that was cancelled at any of its checkpoints, whatever it read after that, never becomes an index. */
  lemma {:induction false} CancelledBuildsNothing(jars: seq<Source>, jarEntries: nat, left: Remaining, before: seq<JarRecord>,
                                                 passes: Passes)
    requires passes.Some? && passes.value <= |jars|
    ensures !FreshBuild(jars, jarEntries, left, before, passes).Built?
    decreases |jars|
  {
    hide PreflightOutcome, SortedByPath, ReadOf;
    if passes != Some(0) {
      var outcome := PreflightOutcome(jars[0].content, jarEntries, left);
      CancelledBuildsNothing(jars[1..], jarEntries, outcome.left, before, OneLess(passes));
      CancelledBuildsNothing(jars[1..], jarEntries, outcome.left, before + Listed(ReadOf(jars[0], OneLess(passes))),
                             OneLess(passes));
    }
  }

  lemma NextBuild(jars: seq<Source>, i: nat, jarEntries: nat, left: Remaining, records: seq<JarRecord>, passes: Passes)
    requires i < |jars|
    ensures var outcome := PreflightOutcome(jars[i].content, jarEntries, left);
      var (all, less) := (FreshBuild(jars[i..], jarEntries, left, records, passes), OneLess(passes));
      var at := FailsAt(jars, i, jarEntries, left, passes);
      if passes == Some(0) then all == BuildCancelled
      else if outcome.failure.Some? && outcome.failure.value.Exceeded? then
        all == BuildFailed(outcome.failure.value) && at == Some((i, left))
      else
        && at == FailsAt(jars, i + 1, jarEntries, outcome.left, less)
        && (outcome.failure.Some? ==> all == FreshBuild(jars[i + 1..], jarEntries, outcome.left, records, less))
        && (outcome.failure.None? ==>
              all == FreshBuild(jars[i + 1..], jarEntries, outcome.left, records + Listed(ReadOf(jars[i], less)), less))
  {
    hide PreflightOutcome, SortedByPath, ReadOf;
    assert jars[i..][0] == jars[i] && jars[i..][1..] == jars[i + 1..];
  }

  /** Whatever restoring gives agrees with counting and reading. */
  lemma ReuseIsFresh(store: Store, jars: seq<Source>, i: nat, limits: Limits, jarEntries: nat, left: Remaining, restored: Restored)
    requires FaithfulStore(store, jars, limits) && i < |jars| && jars[i].validity.Some?
    requires var (jar, payload) := (jars[i], Payload(store, jars[i].path));
      && (!Usable(payload, jar.path, jar.identity, jar.validity.value, limits) ==> restored == Miss)
      && (Usable(payload, jar.path, jar.identity, jar.validity.value, limits) ==>
            var outcome := ChargeOutcome(payload.value.preflight, jarEntries, left);
            && (outcome.failure.Some? ==> restored == Failed(outcome.failure.value))
            && (outcome.failure.None? ==> restored.Reused? && IsRecordOf(restored.record, payload.value, jar.path, jar.identity)))
    ensures var (jar, outcome) := (jars[i], PreflightOutcome(jars[i].content, jarEntries, left));
      match restored
      case Miss => !IsReused(jar, store, limits)
      case Failed(failure) =>
        && outcome.failure.Some? && outcome.failure.value.Exceeded?
        && IsReused(jar, store, limits)
        && (outcome.failure.value == failure <==> NamesTheSame(jar.content, jarEntries, left))
      case Reused(record) =>
        && IsReused(jar, store, limits) && outcome.failure.None? && jar.loaded == Some(record)
        && outcome.left == ChargeOutcome(Payload(store, jar.path).value.preflight, jarEntries, left).left
  {
    hide PreflightOutcome, ChargeOutcome, ChargesContent, Derived, NamesTheSame;
    var payload := Payload(store, jars[i].path);
    if restored != Miss {
      assert Faithful(payload.value, jars[i], limits);
      ReuseChargesAlike(jars[i].content, payload.value.preflight, jarEntries, left);
      if restored.Reused? { SameRecord(jars[i].loaded.value, restored.record, payload.value, jars[i].path, jars[i].identity); }
    }
  }

  lemma SameRecord(a: JarRecord, b: JarRecord, stored: StoredRecord, path: string, identity: JarIdentity)
    requires IsRecordOf(a, stored, path, identity) && IsRecordOf(b, stored, path, identity)
    ensures a == b
  {
    hide Effective, ClassNames, ValidIds;
    EffectiveIsUnique(a.entries, a.multiRelease, a.classEntries, b.classEntries);
  }

  lemma NotReused(jar: Source, store: Store, limits: Limits)
    ensures jar.validity.None? ==> !IsReused(jar, store, limits)
  {}

  lemma FailedAlike(jars: seq<Source>, store: Store, limits: Limits, jarEntries: nat, i: nat, left: Remaining, failure: Failure,
                    whole: Built)
    requires i < |jars| && whole.BuildFailed? && IsReused(jars[i], store, limits)
    requires whole.failure == failure <==> NamesTheSame(jars[i].content, jarEntries, left)
    ensures SameBuild(BuildFailed(failure), whole, jars, store, limits, jarEntries, Some((i, left)))
  {}

  lemma CountedAlike(jars: seq<Source>, store: Store, limits: Limits, jarEntries: nat, i: nat, left: Remaining, failure: Failure)
    requires i < |jars| && !IsReused(jars[i], store, limits)
    ensures SameBuild(BuildFailed(failure), BuildFailed(failure), jars, store, limits, jarEntries, Some((i, left)))
  {}

  lemma SameAsItself(built: Built, jars: seq<Source>, store: Store, limits: Limits, jarEntries: nat, at: Option<(nat, Remaining)>)
    requires !built.BuildFailed? && (at.Some? ==> at.value.0 < |jars|)
    ensures SameBuild(built, built, jars, store, limits, jarEntries, at)
  {}

  lemma IsStoredFor(store: Store, jars: seq<Source>, i: nat, charge: PreflightCharge, limits: Limits, now: int)
    requires FaithfulStore(store, jars, limits) && i < |jars| && jars[i].loaded.Some? && jars[i].validity.Some?
    requires ChargesContent(jars[i].content, charge)
    requires Persistable(jars[i].loaded.value, jars[i].validity.value, charge, limits, now).Some?
    ensures IsStoredOf(Persistable(jars[i].loaded.value, jars[i].validity.value, charge, limits, now).value, jars[i], limits)
  {
    hide ChargesContent, IsReadFrom;
    assert SoundSource(jars[i]);
    var record := jars[i].loaded.value;
    var contents :| IsReadFrom(record, jars[i].path, jars[i].identity, contents);
    ReadIsDerived(record, jars[i].path, jars[i].identity, contents);
    ReadKeepsPlace(record, jars[i].path, jars[i].identity, contents);
  }

  lemma ReadKeepsPlace(record: JarRecord, path: string, identity: JarIdentity, contents: Contents)
    requires IsReadFrom(record, path, identity, contents)
    ensures record.path == path && record.identity == identity
  {}
}
