/** Reconstructing root-to-node paths from Maven's printed dependency trees. */
module DependencyPaths {
  import opened Common
  import opened Strings
  import opened DependencyLines

  // ----- parsing -----

  datatype Module = Module(artifactId: string, selector: string)

  function ModuleSelector(modules: seq<Module>, artifactId: string): string {
    if modules == [] then "."
    else if modules[0].artifactId == artifactId then modules[0].selector
    else ModuleSelector(modules[1..], artifactId)
  }

  /** The selector of the first module with that artifact id, or the reactor itself when there is none. */
  lemma {:induction false} ModuleSelectorIsFirst(modules: seq<Module>, artifactId: string)
    ensures var selector := ModuleSelector(modules, artifactId);
      || ((forall i :: 0 <= i < |modules| ==> modules[i].artifactId != artifactId) && selector == ".")
      || (exists i :: 0 <= i < |modules| && modules[i].artifactId == artifactId && selector == modules[i].selector
            && forall j :: 0 <= j < i ==> modules[j].artifactId != artifactId)
  {
    if modules != [] && modules[0].artifactId != artifactId {
      ModuleSelectorIsFirst(modules[1..], artifactId);
      assert forall i :: 1 <= i < |modules| ==> modules[i] == modules[1..][i - 1];
      if i :| 0 <= i < |modules[1..]| && modules[1..][i].artifactId == artifactId
              && ModuleSelector(modules, artifactId) == modules[1..][i].selector
              && forall j :: 0 <= j < i ==> modules[1..][j].artifactId != artifactId
      {
        assert modules[i + 1].artifactId == artifactId;
      }
    }
  }

  datatype ResolutionPath = ResolutionPath(module_: string, nodes: seq<string>, requestedVersion: string, status: Status,
                                           notes: seq<string>)

  /** One dependency line: the artifact it is about, its version, whether the project declares it, and the path. */
  datatype Entry = Entry(identity: string, version: string, direct: bool, path: ResolutionPath)

  function EntryOf(d: Dependency, module_: string, nodes: seq<string>): Entry {
    Entry(d.parsed.identity, d.parsed.version, d.depth == 1,
          ResolutionPath(module_, nodes, d.requestedVersion, d.status, d.notes))
  }

  datatype State = State(module_: string, stack: seq<string>, malformed: bool, entries: seq<Entry>)

  const START := State(".", [], false, [])

  /** The state after a message. */
  function Step(modules: seq<Module>, s: State, line: string): State {
    match ModuleArtifact(line)
    case Some(artifact) => s.(module_ := ModuleSelector(modules, artifact), stack := [])
    case None =>
      match Marker(line)
      case None =>
        (match ParseRoot(line)
         case None => s
         case Some((artifact, coordinate)) => s.(module_ := ModuleSelector(modules, artifact), stack := [coordinate]))
      case Some(marker) =>
        match ParseDependency(line, marker)
        case None => s.(malformed := true)
        case Some(d) =>
          var nodes := s.stack[..Min(d.depth, |s.stack|)] + [d.parsed.coordinate];
          s.(stack := nodes, entries := s.entries + [EntryOf(d, s.module_, nodes)])
  }

  function Run(modules: seq<Module>, s: State, lines: seq<string>): State
    decreases |lines|
  {
    if lines == [] then s else Run(modules, Step(modules, s, LogMessage(lines[0])), lines[1..])
  }

  // ----- what is said of one artifact -----

  datatype Reason = DirectDeclaration | NearestDefinition | DependencyManagement | OnlyCandidate

  datatype Builder = Builder(selectedVersion: Option<string>, requestedVersions: set<string>, reasons: set<Reason>,
                             paths: seq<ResolutionPath>)

  const NOTHING_SAID := Builder(None, {}, {}, [])

  function Told(b: Builder, e: Entry): Builder {
    var selected := e.path.status == Selected;
    Builder(if selected then Some(e.version) else b.selectedVersion,
            b.requestedVersions + {e.path.requestedVersion},
            b.reasons + (if selected && e.direct then {DirectDeclaration} else {})
                      + (if IsManaged(e.path.notes) then {DependencyManagement} else {}),
            b.paths + [e.path])
  }

  predicate HasConflict(b: Builder) {
    exists i :: 0 <= i < |b.paths| && b.paths[i].status == ConflictOmitted
  }

  function Mediated(b: Builder): Builder {
    if HasConflict(b) then
      if DirectDeclaration in b.reasons then b else b.(reasons := b.reasons + {NearestDefinition})
    else if |b.requestedVersions| == 1 then b.(reasons := b.reasons + {OnlyCandidate})
    else b
  }

  function EntriesOf(entries: seq<Entry>, identity: string): seq<Entry> {
    if entries == [] then []
    else EntriesOf(entries[..|entries| - 1], identity)
         + if entries[|entries| - 1].identity == identity then [entries[|entries| - 1]] else []
  }

  function Said(entries: seq<Entry>): Builder {
    if entries == [] then NOTHING_SAID else Told(Said(entries[..|entries| - 1]), entries[|entries| - 1])
  }

  /** The last selected entry, if any, decides the selected version. */
  predicate IsLastSelected(entries: seq<Entry>, i: int) {
    0 <= i < |entries| && entries[i].path.status == Selected
    && forall j :: i < j < |entries| ==> entries[j].path.status != Selected
  }

  lemma {:induction false} SaidPaths(entries: seq<Entry>)
    ensures var paths := Said(entries).paths;
      |paths| == |entries| && forall i :: 0 <= i < |entries| ==> paths[i] == entries[i].path
  {
    hide IsManaged;
    if entries != [] { SaidPaths(entries[..|entries| - 1]); }
  }

  predicate Asks(entries: seq<Entry>, version: string) {
    exists i :: 0 <= i < |entries| && entries[i].path.requestedVersion == version
  }

  lemma {:induction false} SaidRequests(entries: seq<Entry>, version: string)
    ensures version in Said(entries).requestedVersions <==> Asks(entries, version)
  {
    hide IsManaged;
    if entries != [] {
      var init := entries[..|entries| - 1];
      SaidRequests(init, version);
      if Asks(init, version) {
        var i :| 0 <= i < |init| && init[i].path.requestedVersion == version;
        assert entries[i].path.requestedVersion == version;
      }
    }
  }

  lemma {:induction false} SaidSelection(entries: seq<Entry>)
    ensures var selected := Said(entries).selectedVersion;
      && (selected.None? ==> forall i :: 0 <= i < |entries| ==> entries[i].path.status != Selected)
      && (selected.Some? ==> exists i :: IsLastSelected(entries, i) && selected.value == entries[i].version)
  {
    hide IsManaged;
    if entries != [] {
      var (init, last) := (entries[..|entries| - 1], entries[|entries| - 1]);
      SaidSelection(init);
      if last.path.status == Selected {
        assert IsLastSelected(entries, |init|);
      } else if Said(init).selectedVersion.Some? {
        var i :| IsLastSelected(init, i) && Said(init).selectedVersion.value == init[i].version;
        assert IsLastSelected(entries, i);
      }
    }
  }

  predicate Declares(entries: seq<Entry>) {
    exists i :: 0 <= i < |entries| && entries[i].path.status == Selected && entries[i].direct
  }

  /** Some note says that a version or scope was managed. */
  predicate Manages(entries: seq<Entry>) {
    exists i :: 0 <= i < |entries| && NotesManage(entries[i].path.notes)
  }

  predicate NotesManage(notes: seq<string>) {
    exists i :: 0 <= i < |notes| && Says(notes[i], "managed")
  }

  lemma NotesAreSaid(notes: seq<string>)
    ensures IsManaged(notes) <==> NotesManage(notes)
  {
    ManagedIsSaid(notes);
    hide IsManaged, Says;
  }

  lemma {:induction false} SaidReasons(entries: seq<Entry>)
    ensures var reasons := Said(entries).reasons;
      && (DirectDeclaration in reasons <==> Declares(entries)) && (DependencyManagement in reasons <==> Manages(entries))
      && NearestDefinition !in reasons && OnlyCandidate !in reasons
  {
    hide IsManaged, NotesManage;
    if entries != [] {
      var init := entries[..|entries| - 1];
      SaidReasons(init);
      assert IsManaged(entries[|entries| - 1].path.notes) <==> NotesManage(entries[|entries| - 1].path.notes) by {
        NotesAreSaid(entries[|entries| - 1].path.notes);
      }
      if Declares(init) {
        var i :| 0 <= i < |init| && init[i].path.status == Selected && init[i].direct;
        assert entries[i].path.status == Selected && entries[i].direct;
      }
      if Manages(init) {
        var i :| 0 <= i < |init| && NotesManage(init[i].path.notes);
        assert NotesManage(entries[i].path.notes);
      }
    }
  }

  predicate Conflicts(entries: seq<Entry>) {
    exists i :: 0 <= i < |entries| && entries[i].path.status == ConflictOmitted
  }

  /** What an explanation says, entry by entry: paths in line order, the versions asked for, the version selected last, and
      why: declared directly, managed, the nearest definition where a conflict was decided for an artifact that is not
      declared directly, the only candidate where one version was asked for and no conflict was seen. */
  lemma ExplanationMeans(entries: seq<Entry>)
    ensures var m := Mediated(Said(entries));
      && |m.paths| == |entries| && (forall i :: 0 <= i < |entries| ==> m.paths[i] == entries[i].path)
      && (forall version :: version in m.requestedVersions <==> Asks(entries, version))
      && (m.selectedVersion.None? ==> forall i :: 0 <= i < |entries| ==> entries[i].path.status != Selected)
      && (m.selectedVersion.Some? ==> exists i :: IsLastSelected(entries, i) && m.selectedVersion.value == entries[i].version)
      && (DirectDeclaration in m.reasons <==> Declares(entries)) && (DependencyManagement in m.reasons <==> Manages(entries))
      && (NearestDefinition in m.reasons <==> Conflicts(entries) && !Declares(entries))
      && (OnlyCandidate in m.reasons <==> !Conflicts(entries) && |m.requestedVersions| == 1)
  {
    hide Said, Declares, Manages, Asks, IsLastSelected;
    SaidPaths(entries);
    SaidSelection(entries);
    SaidReasons(entries);
    forall version ensures version in Said(entries).requestedVersions <==> Asks(entries, version) {
      SaidRequests(entries, version);
    }
    var b := Said(entries);
    assert HasConflict(b) <==> Conflicts(entries) by { ConflictsAreSeen(b, entries); }
  }

  lemma ConflictsAreSeen(b: Builder, entries: seq<Entry>)
    requires |b.paths| == |entries| && forall i :: 0 <= i < |entries| ==> b.paths[i] == entries[i].path
    ensures HasConflict(b) <==> Conflicts(entries)
  {
    if HasConflict(b) {
      var i :| 0 <= i < |b.paths| && b.paths[i].status == ConflictOmitted;
      assert entries[i].path.status == ConflictOmitted;
    }
    if Conflicts(entries) {
      var i :| 0 <= i < |entries| && entries[i].path.status == ConflictOmitted;
      assert b.paths[i].status == ConflictOmitted;
    }
  }

  /** Every artifact with an entry, and what its entries say. */
  ghost predicate Grouped(builders: map<string, Builder>, entries: seq<Entry>) {
    && (forall id :: id in builders <==> EntriesOf(entries, id) != [])
    && (forall id :: id in builders ==> builders[id] == Said(EntriesOf(entries, id)))
  }

  function BuilderOf(builders: map<string, Builder>, id: string): Builder {
    if id in builders then builders[id] else NOTHING_SAID
  }

  lemma GroupNext(builders: map<string, Builder>, entries: seq<Entry>, e: Entry)
    requires Grouped(builders, entries)
    ensures Grouped(builders[e.identity := Told(BuilderOf(builders, e.identity), e)], entries + [e])
  {
    hide Told, Said;
    var next := builders[e.identity := Told(BuilderOf(builders, e.identity), e)];
    forall id ensures id in next <==> EntriesOf(entries + [e], id) != [] {
      EntriesOfMore(entries, e, id);
    }
    forall id | id in next ensures next[id] == Said(EntriesOf(entries + [e], id)) {
      EntriesOfMore(entries, e, id);
      if id == e.identity { SaidOfMore(EntriesOf(entries, id), e); }
    }
  }

  lemma EntriesOfMore(entries: seq<Entry>, e: Entry, id: string)
    ensures EntriesOf(entries + [e], id) == if e.identity == id then EntriesOf(entries, id) + [e] else EntriesOf(entries, id)
  {
    assert (entries + [e])[..|entries|] == entries;
  }

  lemma SaidOfMore(entries: seq<Entry>, e: Entry)
    ensures Said(entries + [e]) == Told(Said(entries), e) && Said([]) == NOTHING_SAID
  {
    assert (entries + [e])[..|entries|] == entries;
  }

  /** Every artifact of the output, with what its lines say and the reason that follows. */
  ghost predicate Explains(explanations: map<string, Builder>, entries: seq<Entry>) {
    && (forall id :: id in explanations <==> EntriesOf(entries, id) != [])
    && (forall id :: id in explanations ==> explanations[id] == Mediated(Said(EntriesOf(entries, id))))
  }

  lemma MediatedExplain(builders: map<string, Builder>, entries: seq<Entry>, explanations: map<string, Builder>)
    requires Grouped(builders, entries) && explanations == map id | id in builders :: Mediated(builders[id])
    ensures Explains(explanations, entries)
  {
    hide EntriesOf, Said, Mediated;
  }

  lemma NothingRead(modules: seq<Module>, s: State)
    ensures Run(modules, s, []) == s && Grouped(map[], [])
  {}

  lemma RunNext(modules: seq<Module>, s: State, output: seq<string>, i: nat)
    requires i < |output|
    ensures Run(modules, s, output[i..]) == Run(modules, Step(modules, s, LogMessage(output[i])), output[i + 1..])
  {
    hide Step, LogMessage;
    assert output[i..][0] == output[i] && output[i..][1..] == output[i + 1..];
  }

  method Tell(before: Builder, d: Dependency, module_: string, nodes: seq<string>) returns (builder: Builder)
    ensures builder == Told(before, EntryOf(d, module_, nodes))
  {
    hide IsManaged;
    builder := before.(requestedVersions := before.requestedVersions + {d.requestedVersion});
    if d.status == Selected {
      builder := builder.(selectedVersion := Some(d.parsed.version));
      if d.depth == 1 {
        builder := builder.(reasons := builder.reasons + {DirectDeclaration});
      }
    }
    if IsManaged(d.notes) {
      builder := builder.(reasons := builder.reasons + {DependencyManagement});
    }
    builder := builder.(paths := builder.paths + [ResolutionPath(module_, nodes, d.requestedVersion, d.status, d.notes)]);
  }

  method ParseDependencyResolution(modules: seq<Module>, output: seq<string>)
    returns (explanations: map<string, Builder>, malformed: bool)
    ensures malformed == Run(modules, START, output).malformed
    ensures Explains(explanations, Run(modules, START, output).entries)
  {
    var builders: map<string, Builder> := map[];
    malformed := false;
    var (pathStack: seq<string>, module_) := ([], ".");
    ghost var entries: seq<Entry> := [];
    hide Grouped, Explains, Run, Mediated, ModuleArtifact, Marker, ParseRoot, ParseDependency, LogMessage, Told, BuilderOf;
    NothingRead(modules, START);
    assert output[0..] == output;
    for i := 0 to |output|
      invariant Run(modules, START, output) == Run(modules, State(module_, pathStack, malformed, entries), output[i..])
      invariant Grouped(builders, entries)
    {
      var line := LogMessage(output[i]);
      RunNext(modules, State(module_, pathStack, malformed, entries), output, i);
      var artifact := ModuleArtifact(line);
      if artifact.Some? {
        module_, pathStack := ModuleSelector(modules, artifact.value), [];
        continue;
      }
      var marker := Marker(line);
      if marker.None? {
        var root := ParseRoot(line);
        if root.Some? {
          module_, pathStack := ModuleSelector(modules, root.value.0), [root.value.1];
        }
        continue;
      }
      var parsed := ParseDependency(line, marker.value);
      if parsed.None? {
        malformed := true;
        continue;
      }
      var dependency := parsed.value;
      var parentCount := Min(dependency.depth, |pathStack|);
      pathStack := pathStack[..parentCount];
      var nodes := pathStack + [dependency.parsed.coordinate];
      pathStack := pathStack + [dependency.parsed.coordinate];
      var identity := dependency.parsed.identity;
      var builder := BuilderOf(builders, identity);
      builder := Tell(builder, dependency, module_, nodes);
      GroupNext(builders, entries, EntryOf(dependency, module_, nodes));
      builders := builders[identity := builder];
      entries := entries + [EntryOf(dependency, module_, nodes)];
    }
    assert output[|output|..] == [];
    NothingRead(modules, State(module_, pathStack, malformed, entries));
    explanations := map id | id in builders :: Mediated(builders[id]);
    MediatedExplain(builders, entries, explanations);
  }

  // ----- printing -----

  datatype Tree = Tree(node: Node, children: seq<Tree>)

  function Cell(last: bool): string { if last then "   " else "|  " }

  /** The lines below one parent, in preorder. */
  function ForestLines(forest: seq<Tree>, prefix: string): seq<string>
    decreases forest
  {
    if forest == [] then []
    else [LineOf(prefix, |forest| == 1, forest[0].node)]
         + ForestLines(forest[0].children, prefix + Cell(|forest| == 1))
         + ForestLines(forest[1..], prefix)
  }

  /** What is said of a dependency that is printed behind the chain `above`: the project declares it itself if only the root is
      above it. */
  ghost function PrintedEntry(node: Node, module_: string, above: seq<string>): Entry {
    Entry(Identity(node.coordinate), node.coordinate.version, |above| == 1,
          ResolutionPath(module_, above + [Resolved(node.coordinate)], PrintedRequest(node), PrintedStatus(node), Notes(node)))
  }

  /** What the lines mean: each dependency with the chain of coordinates that leads to it. */
  ghost function ForestPaths(forest: seq<Tree>, module_: string, above: seq<string>): seq<Entry>
    decreases forest
  {
    if forest == [] then []
    else
      var node := forest[0].node;
      var path := above + [Resolved(node.coordinate)];
      [PrintedEntry(node, module_, above)]
      + ForestPaths(forest[0].children, module_, path)
      + ForestPaths(forest[1..], module_, above)
  }

  predicate PrintableForest(forest: seq<Tree>)
    decreases forest
  {
    forest != [] ==>
      Printable(forest[0].node) && PrintableForest(forest[0].children) && PrintableForest(forest[1..])
  }

  predicate ReadableForest(forest: seq<Tree>)
    decreases forest
  {
    forest != [] ==>
      Readable(forest[0].node) && ReadableForest(forest[0].children) && ReadableForest(forest[1..])
  }

  /** One module's tree, as logged, behind any lines that report no dependency. */
  datatype Report = Report(before: seq<string>, root: Root, forest: seq<Tree>, logged: seq<string>)

  function ReportLines(report: Report): seq<string> {
    [Join(RootParts(report.root), ':')] + ForestLines(report.forest, "")
  }

  /** A line that reports no dependency: a module banner, a root, or any other message. */
  predicate Quiet(raw: string) {
    ModuleArtifact(LogMessage(raw)).Some? || Marker(LogMessage(raw)).None?
  }

  predicate AllQuiet(lines: seq<string>) { forall i :: 0 <= i < |lines| ==> Quiet(lines[i]) }

  predicate AllLogged(raw: seq<string>, lines: seq<string>) {
    |raw| == |lines| && forall i :: 0 <= i < |lines| ==> IsLogged(raw[i], lines[i])
  }

  predicate PrintedReport(report: Report) {
    && AllQuiet(report.before) && ReadableRoot(report.root) && PrintableForest(report.forest)
    && AllLogged(report.logged, ReportLines(report))
  }

  function Output(reports: seq<Report>): seq<string> {
    if reports == [] then [] else reports[0].before + reports[0].logged + Output(reports[1..])
  }

  ghost function Paths(modules: seq<Module>, reports: seq<Report>): seq<Entry> {
    if reports == [] then []
    else ForestPaths(reports[0].forest, ModuleSelector(modules, reports[0].root.artifact), [ResolvedRoot(reports[0].root)])
         + Paths(modules, reports[1..])
  }

  // ----- printed trees are read back -----

  lemma {:induction false} RunConcat(modules: seq<Module>, s: State, a: seq<string>, b: seq<string>)
    ensures Run(modules, s, a + b) == Run(modules, Run(modules, s, a), b)
    decreases |a|
  {
    hide Step, LogMessage;
    if a == [] {
      assert a + b == b;
    } else {
      RunConcat(modules, Step(modules, s, LogMessage(a[0])), a[1..], b);
      assert (a + b)[1..] == a[1..] + b;
    }
  }

  lemma {:induction false} QuietReportsNothing(modules: seq<Module>, s: State, lines: seq<string>)
    requires AllQuiet(lines)
    ensures var t := Run(modules, s, lines); t.malformed == s.malformed && t.entries == s.entries
    decreases |lines|
  {
    hide ModuleArtifact, Marker, ParseRoot, ParseDependency, LogMessage;
    if lines != [] {
      assert Quiet(lines[0]);
      QuietReportsNothing(modules, Step(modules, s, LogMessage(lines[0])), lines[1..]);
    }
  }

  /** A printed line adds the entry it means, if it is readable; otherwise it is malformed or adds another entry. */
  lemma DependencyStep(modules: seq<Module>, s: State, prefix: string, last: bool, node: Node, above: seq<string>, raw: string)
    requires IsIndent(prefix) && Printable(node) && IsLogged(raw, LineOf(prefix, last, node))
    requires above <= s.stack && |prefix| == 3 * (|above| - 1)
    ensures var (t, path) := (Step(modules, s, LogMessage(raw)), above + [Resolved(node.coordinate)]);
      var entry := PrintedEntry(node, s.module_, above);
      && (Readable(node) ==> t == s.(stack := path, entries := s.entries + [entry]))
      && (!Readable(node) ==>
            t.malformed || (|t.entries| == |s.entries| + 1 && s.entries <= t.entries && t.entries[|s.entries|] != entry))
  {
    hide ModuleArtifact, Marker, ParseRoot, ParseDependency, LogMessage, Readable, LineOf, IsLogged, Join, Printable,
         StatusOf, RequestedVersion, PrintedStatus, PrintedRequest, Identity, Resolved;
    var line := LineOf(prefix, last, node);
    LineIsReadIff(prefix, last, node);
    LoggedIsRead(raw, line);
    assert |prefix| / 3 + 1 == |above|;
    assert s.stack[..|above|] == above;
    ReadAtItsDepth(line, |prefix|);
    if !Readable(node) && ParseDependency(line, |prefix|).Some? {
      OtherEntry(ParseDependency(line, |prefix|).value, node, s.module_, above);
    }
  }

  lemma ReadAtItsDepth(line: string, marker: nat)
    requires marker + 3 <= |line|
    ensures ParseDependency(line, marker).Some? ==>
      var d := ParseDependency(line, marker).value; d == ReadAs(marker / 3 + 1, d.parsed, d.notes)
  {}

  /** Lines that mean something else make another entry. */
  lemma OtherEntry(d: Dependency, node: Node, module_: string, above: seq<string>)
    requires d == ReadAs(|above|, d.parsed, d.notes) && d != Meaning(|above|, node)
    ensures EntryOf(d, module_, above + [d.parsed.coordinate])
              != PrintedEntry(node, module_, above)
  {
    hide PrintedStatus, PrintedRequest, StatusOf, RequestedVersion, Identity, Resolved;
    var (nodes, expected) := (above + [d.parsed.coordinate], above + [Resolved(node.coordinate)]);
    assert nodes[|above|] == d.parsed.coordinate && expected[|above|] == Resolved(node.coordinate);
  }

  /** A plugin's banner, as in `--- dependency:3.6.0:tree (default-cli) @ app ---`, names the module of the lines behind it. */
  lemma BannerOpensModule(modules: seq<Module>, s: State, before: string, artifact: string)
    requires '@' !in before && Word(artifact)
    ensures Step(modules, s, before + " @ " + artifact + " ---")
              == s.(module_ := ModuleSelector(modules, artifact), stack := [])
  {
    hide ModuleSelector, Marker, ParseRoot, ParseDependency;
    BannerIsRead(before, artifact);
  }

  // ----- nothing that was read is taken back -----

  /** A malformed line was seen, or some entry is not the expected one. */
  ghost predicate Wrong(t: State, expected: seq<Entry>) {
    t.malformed || exists k :: 0 <= k < |t.entries| && k < |expected| && t.entries[k] != expected[k]
  }

  lemma {:induction false} RunOnlyAdds(modules: seq<Module>, s: State, lines: seq<string>)
    ensures var t := Run(modules, s, lines); s.entries <= t.entries && (s.malformed ==> t.malformed)
    decreases |lines|
  {
    hide ModuleArtifact, Marker, ParseRoot, ParseDependency, LogMessage;
    if lines != [] {
      RunOnlyAdds(modules, Step(modules, s, LogMessage(lines[0])), lines[1..]);
    }
  }

  lemma WrongStays(modules: seq<Module>, s: State, lines: seq<string>, expected: seq<Entry>, more: seq<Entry>)
    requires Wrong(s, expected)
    ensures Wrong(Run(modules, s, lines), expected + more)
  {
    RunOnlyAdds(modules, s, lines);
    var t := Run(modules, s, lines);
    if !t.malformed {
      var k :| 0 <= k < |s.entries| && k < |expected| && s.entries[k] != expected[k];
      assert t.entries[k] != (expected + more)[k];
    }
  }

  // ----- trees -----

  /** The lines below a parent add exactly their paths, whatever is left on the stack beyond the parent, if all are
      readable; otherwise something is wrong with them, and stays so. */
  lemma {:induction false} ForestIsReadIff(modules: seq<Module>, s: State, forest: seq<Tree>, prefix: string, above: seq<string>,
                                           raw: seq<string>)
    requires PrintableForest(forest) && IsIndent(prefix) && AllLogged(raw, ForestLines(forest, prefix))
    requires above <= s.stack && |prefix| == 3 * (|above| - 1)
    ensures var (t, expected) := (Run(modules, s, raw), s.entries + ForestPaths(forest, s.module_, above));
      && (ReadableForest(forest) ==>
            above <= t.stack && t.module_ == s.module_ && t.malformed == s.malformed && t.entries == expected)
      && (!ReadableForest(forest) ==> Wrong(t, expected))
    decreases forest
  {
    hide Step, LogMessage, Readable, Printable, LineOf, Join, Resolved, Identity, Run, AllLogged, IsLogged, ForestPaths,
         ForestLines, PrintedEntry, Wrong;
    if forest == [] {
      NoLines(modules, s, prefix, above, raw);
    } else {
      var (node, last) := (forest[0].node, |forest| == 1);
      var path := above + [Resolved(node.coordinate)];
      var inner := ForestLines(forest[0].children, prefix + Cell(last));
      var rest := ForestLines(forest[1..], prefix);
      LinesUnfold(forest, prefix, raw, inner, rest);
      var (raw1, raw2) := (raw[1..1 + |inner|], raw[1 + |inner|..]);
      DependencyStep(modules, s, prefix, last, node, above, raw[0]);
      PathsUnfold(forest, s.module_, above);
      var here := PrintedEntry(node, s.module_, above);
      var s1 := Step(modules, s, LogMessage(raw[0]));
      var s2 := Run(modules, s1, raw1);
      var (paths1, paths2) := (ForestPaths(forest[0].children, s.module_, path), ForestPaths(forest[1..], s.module_, above));
      RunThrough(modules, s, raw, s1, s2, 1 + |inner|);
      assert s.entries + ForestPaths(forest, s.module_, above) == s.entries + [here] + paths1 + paths2;
      if !Readable(node) {
        FirstIsWrong(s, s1, here);
        WrongStays(modules, s1, raw1, s.entries + [here], paths1);
        WrongStays(modules, s2, raw2, s.entries + [here] + paths1, paths2);
        return;
      }
      ForestIsReadIff(modules, s1, forest[0].children, prefix + Cell(last), path, raw1);
      if !ReadableForest(forest[0].children) {
        WrongStays(modules, s2, raw2, s.entries + [here] + paths1, paths2);
        return;
      }
      ForestIsReadIff(modules, s2, forest[1..], prefix, above, raw2);
    }
  }

  lemma FirstIsWrong(s: State, t: State, expected: Entry)
    requires t.malformed || (|t.entries| == |s.entries| + 1 && s.entries <= t.entries && t.entries[|s.entries|] != expected)
    ensures Wrong(t, s.entries + [expected])
  {
    if !t.malformed { assert (s.entries + [expected])[|s.entries|] == expected; }
  }

  lemma NoLines(modules: seq<Module>, s: State, prefix: string, above: seq<string>, raw: seq<string>)
    requires AllLogged(raw, ForestLines([], prefix))
    ensures Run(modules, s, raw) == s && ForestPaths([], s.module_, above) == [] && ReadableForest([])
  {}

  lemma LinesUnfold(forest: seq<Tree>, prefix: string, raw: seq<string>, inner: seq<string>, rest: seq<string>)
    requires forest != [] && AllLogged(raw, ForestLines(forest, prefix))
    requires inner == ForestLines(forest[0].children, prefix + Cell(|forest| == 1))
    requires rest == ForestLines(forest[1..], prefix)
    ensures |raw| == 1 + |inner| + |rest| && IsLogged(raw[0], LineOf(prefix, |forest| == 1, forest[0].node))
    ensures AllLogged(raw[1..1 + |inner|], inner) && AllLogged(raw[1 + |inner|..], rest)
  {
    hide LineOf, IsLogged;
    var lines := ForestLines(forest, prefix);
    assert lines == [LineOf(prefix, |forest| == 1, forest[0].node)] + inner + rest;
    assert IsLogged(raw[0], lines[0]);
    SplitLogged(raw, lines, 1, 1 + |inner|, inner, rest);
  }

  lemma PathsUnfold(forest: seq<Tree>, module_: string, above: seq<string>)
    requires forest != []
    ensures var (node, path) := (forest[0].node, above + [Resolved(forest[0].node.coordinate)]);
      ForestPaths(forest, module_, above)
        == [PrintedEntry(node, module_, above)]
           + ForestPaths(forest[0].children, module_, path) + ForestPaths(forest[1..], module_, above)
  {}

  lemma RunThrough(modules: seq<Module>, s: State, raw: seq<string>, s1: State, s2: State, to: nat)
    requires 1 <= to <= |raw| && s1 == Step(modules, s, LogMessage(raw[0])) && s2 == Run(modules, s1, raw[1..to])
    ensures Run(modules, s, raw) == Run(modules, s2, raw[to..])
  {
    hide Step, LogMessage;
    RunConcat(modules, s1, raw[1..to], raw[to..]);
    assert raw[1..] == raw[1..to] + raw[to..];
  }

  lemma SplitLogged(raw: seq<string>, lines: seq<string>, from: nat, to: nat, inner: seq<string>, rest: seq<string>)
    requires AllLogged(raw, lines) && from <= to <= |lines|
    requires lines[from..to] == inner && lines[to..] == rest
    ensures AllLogged(raw[from..to], inner) && AllLogged(raw[to..], rest)
  {
    hide IsLogged;
    forall i | 0 <= i < |inner| ensures IsLogged(raw[from..to][i], inner[i]) {
      assert IsLogged(raw[from + i], lines[from + i]);
    }
    forall i | 0 <= i < |rest| ensures IsLogged(raw[to..][i], rest[i]) {
      assert IsLogged(raw[to + i], lines[to + i]);
    }
  }

  lemma ReportIsReadIff(modules: seq<Module>, s: State, report: Report)
    requires PrintedReport(report)
    ensures var t := Run(modules, s, report.before + report.logged);
      var expected := s.entries
           + ForestPaths(report.forest, ModuleSelector(modules, report.root.artifact), [ResolvedRoot(report.root)]);
      && (ReadableForest(report.forest) ==> t.malformed == s.malformed && t.entries == expected)
      && (!ReadableForest(report.forest) ==> Wrong(t, expected))
  {
    hide Quiet, ModuleArtifact, Marker, ParseRoot, ParseDependency, LogMessage, Join, ReadableForest, PrintableForest, IsLogged,
         ResolvedRoot, ReadableRoot, ForestPaths, ForestLines, RootParts, Wrong;
    var lines := ReportLines(report);
    QuietReportsNothing(modules, s, report.before);
    var s1 := Run(modules, s, report.before);
    RunConcat(modules, s, report.before, report.logged);
    assert IsLogged(report.logged[0], lines[0]);
    RootIsRead(report.root);
    LoggedIsRead(report.logged[0], lines[0]);
    var s2 := Step(modules, s1, LogMessage(report.logged[0]));
    SplitLogged(report.logged, lines, 1, |lines|, ForestLines(report.forest, ""), []);
    assert report.logged[1..|lines|] == report.logged[1..];
    ForestIsReadIff(modules, s2, report.forest, "", [ResolvedRoot(report.root)], report.logged[1..]);
  }

  predicate AllReadable(reports: seq<Report>) {
    forall i :: 0 <= i < |reports| ==> ReadableForest(reports[i].forest)
  }

  lemma {:induction false} ReportsAreReadIff(modules: seq<Module>, s: State, reports: seq<Report>, after: seq<string>)
    requires AllQuiet(after) && forall i :: 0 <= i < |reports| ==> PrintedReport(reports[i])
    ensures var (t, expected) := (Run(modules, s, Output(reports) + after), s.entries + Paths(modules, reports));
      && (AllReadable(reports) ==> t.malformed == s.malformed && t.entries == expected)
      && (!AllReadable(reports) ==> Wrong(t, expected))
    decreases |reports|
  {
    hide PrintedReport, ForestPaths, Step, LogMessage, ReadableForest, Wrong;
    if reports == [] {
      assert Output(reports) + after == after;
      QuietReportsNothing(modules, s, after);
    } else {
      var first := reports[0].before + reports[0].logged;
      var rest := Output(reports[1..]) + after;
      assert Output(reports) + after == first + rest;
      ReportIsReadIff(modules, s, reports[0]);
      RunConcat(modules, s, first, rest);
      var here := ForestPaths(reports[0].forest, ModuleSelector(modules, reports[0].root.artifact), [ResolvedRoot(reports[0].root)]);
      assert s.entries + Paths(modules, reports) == s.entries + here + Paths(modules, reports[1..]);
      if !ReadableForest(reports[0].forest) {
        WrongStays(modules, Run(modules, s, first), rest, s.entries + here, Paths(modules, reports[1..]));
      } else {
        ReportsAreReadIff(modules, Run(modules, s, first), reports[1..], after);
        RestReadable(reports);
      }
    }
  }

  lemma RestReadable(reports: seq<Report>)
    requires reports != [] && ReadableForest(reports[0].forest)
    ensures AllReadable(reports) <==> AllReadable(reports[1..])
  {
    hide ReadableForest;
    if AllReadable(reports[1..]) {
      forall i | 0 <= i < |reports| ensures ReadableForest(reports[i].forest) {
        if i > 0 { assert reports[i] == reports[1..][i - 1]; }
      }
    }
  }

  /** Printed trees are read back - each line's path in order, with its versions, status and note, and no line malformed -
      if and only if in every line no part before the scope is a scope word and the note survives. */
  lemma PathsAreReconstructedIff(modules: seq<Module>, reports: seq<Report>, after: seq<string>)
    requires AllQuiet(after) && forall i :: 0 <= i < |reports| ==> PrintedReport(reports[i])
    ensures var t := Run(modules, START, Output(reports) + after);
      (!t.malformed && t.entries == Paths(modules, reports)) <==> AllReadable(reports)
  {
    hide PrintedReport, ReadableForest, Output, Paths, Run, AllReadable;
    ReportsAreReadIff(modules, START, reports, after);
    assert START.entries + Paths(modules, reports) == Paths(modules, reports);
  }
}
