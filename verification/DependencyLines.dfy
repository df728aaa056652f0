/** One line of Maven's dependency output: its message, and the coordinate and note it carries. */
module DependencyLines {
  import opened Common
  import opened Strings
  import opened Text

  // ----- parsing -----

  const LEVELS: seq<string> := ["[INFO]", "[WARNING]", "[WARN]", "[ERROR]"]

  function MessageAfter(line: string, levels: seq<string>): string {
    if levels == [] then line
    else if levels[0] <= line then
      var message := line[|levels[0]|..];
      TrimEnd(if [' '] <= message then message[1..] else message)
    else MessageAfter(line, levels[1..])
  }

  function LogMessage(raw: string): string {
    MessageAfter(TrimEnd(TrimStart(raw)), LEVELS)
  }

  function TrimEndOf(s: string, c: char): string {
    if s != "" && s[|s| - 1] == c then TrimEndOf(s[..|s| - 1], c) else s
  }

  function TrimStartOf(s: string, c: char): string {
    if s != "" && s[0] == c then TrimStartOf(s[1..], c) else s
  }

  function ModuleArtifact(line: string): Option<string> {
    match SplitOnce(line, " @ ")
    case None => None
    case Some((_, remainder)) =>
      var artifact := Trim(TrimEndOf(remainder, '-'));
      if artifact == "" then None else Some(artifact)
  }

  predicate IsScope(part: string) {
    part in ["compile", "provided", "runtime", "test", "system", "import"]
  }

  function ScopeIndex(parts: seq<string>): (index: Option<nat>)
    ensures index.Some? ==> index.value < |parts| && IsScope(parts[index.value])
    ensures index.Some? ==> forall i :: 0 <= i < index.value ==> !IsScope(parts[i])
    ensures index.None? ==> forall i :: 0 <= i < |parts| ==> !IsScope(parts[i])
  {
    if parts == [] then None
    else if IsScope(parts[0]) then Some(0)
    else match ScopeIndex(parts[1..])
      case None => None
      case Some(i) => Some(i + 1)
  }

  datatype Parsed = Parsed(identity: string, coordinate: string, version: string)

  predicate AllPresent(parts: seq<string>) { forall i :: 0 <= i < |parts| ==> parts[i] != "" }

  function ParseCoordinate(parts: seq<string>): Option<Parsed> {
    if (|parts| != 5 && |parts| != 6) || !AllPresent(parts) then None
    else match ScopeIndex(parts)
      case None => None
      case Some(scope) =>
        if scope == |parts| - 1 || scope == |parts| - 2 then
          var version := parts[if scope == |parts| - 1 then |parts| - 2 else |parts| - 1];
          var classifier := if |parts| == 6 then [parts[3]] else [];
          Some(Parsed(Join(parts[..3] + classifier, ':'), Join([parts[0], parts[1], version] + classifier, ':'), version))
        else None
  }

  function ParseRoot(line: string): Option<(string, string)> {
    if !NoSpace(line) || ['('] <= line then None
    else
      var parts := Split(line, ':');
      if !(4 <= |parts| <= 5) || !AllPresent(parts) then None
      else
        var version := parts[|parts| - 1];
        Some((parts[1], Join([parts[0], parts[1], version] + parts[3..|parts| - 1], ':')))
  }

  /** The coordinate text of a value, and the note beside it. */
  function SplitNote(value: string): (string, seq<string>) {
    var trimmed := Trim(value);
    var inner := if ['('] <= trimmed && |trimmed| > 1 && trimmed[|trimmed| - 1] == ')'
                 then SplitOnce(trimmed[1..|trimmed| - 1], " - ") else None;
    match inner
    case Some((coordinate, note)) => (Trim(coordinate), [Trim(note)])
    case None =>
      match RightSplitOnce(trimmed, " (")
      case Some((coordinate, note)) => (Trim(coordinate), [Trim(TrimEndOf(note, ')'))])
      case None => (trimmed, [])
  }

  function TrimParens(s: string): string {
    if s != "" && s[0] in "()" then TrimParens(s[1..])
    else if s != "" && s[|s| - 1] in "()" then TrimParens(s[..|s| - 1])
    else s
  }

  datatype Status = Selected | ConflictOmitted | DuplicateOmitted | Excluded

  const CONFLICT := "omitted for conflict"

  function StatusOf(notes: seq<string>): Status {
    var text := Lower(Join(notes, ' '));
    if Contains(text, "excluded") || Contains(text, "exclusion") then Excluded
    else if Contains(text, CONFLICT) then ConflictOmitted
    else if Contains(text, "omitted for duplicate") then DuplicateOmitted
    else Selected
  }

  predicate IsManaged(notes: seq<string>) {
    exists i :: 0 <= i < |notes| && Contains(Lower(notes[i]), "managed")
  }

  const MANAGED_FROM := "version managed from "

  predicate EndsVersion(c: char) { c in ";, " }

  function UpToEnd(s: string): (version: string)
    ensures version <= s
  {
    if s == "" || EndsVersion(s[0]) then "" else [s[0]] + UpToEnd(s[1..])
  }

  /** The version that management replaced. */
  function ManagedFrom(notes: seq<string>): Option<string> {
    if notes == [] then None
    else
      var version := match Find(Lower(notes[0]), MANAGED_FROM)
                     case None => ""
                     case Some(i) => UpToEnd(notes[0][i + |MANAGED_FROM|..]);
      if version != "" then Some(version) else ManagedFrom(notes[1..])
  }

  function RequestedVersion(notes: seq<string>, version: string): string {
    var managed := ManagedFrom(notes);
    if managed.Some? then managed.value else version
  }

  datatype Dependency = Dependency(depth: nat, parsed: Parsed, notes: seq<string>, status: Status, requestedVersion: string)

  function ReadAs(depth: nat, parsed: Parsed, notes: seq<string>): Dependency {
    Dependency(depth, parsed, notes, StatusOf(notes), RequestedVersion(notes, parsed.version))
  }

  function ParseDependency(line: string, marker: nat): Option<Dependency>
    requires marker + 3 <= |line|
  {
    var (text, notes) := SplitNote(Trim(line[marker + 3..]));
    match ParseCoordinate(Split(TrimParens(text), ':'))
    case None => None
    case Some(parsed) => Some(ReadAs(marker / 3 + 1, parsed, notes))
  }

  function Marker(line: string): (marker: Option<nat>)
    ensures marker.Some? ==> marker.value + 3 <= |line|
  {
    match Find(line, "+- ")
    case Some(i) => Some(i)
    case None => Find(line, "\\- ")
  }

  // ----- printing -----

  /** `group:artifact:kind[:classifier]` and then version and scope, in either order. */
  datatype Coordinate = Coordinate(group: string, artifact: string, kind: string, classifier: Option<string>,
                                   version: string, scope: string, scopeLast: bool)

  function Optional(value: Option<string>): seq<string> {
    match value case None => [] case Some(x) => [x]
  }

  function Parts(c: Coordinate): seq<string> {
    [c.group, c.artifact, c.kind] + Optional(c.classifier)
      + if c.scopeLast then [c.version, c.scope] else [c.scope, c.version]
  }

  /** Maven's own use of a dependency: printed plainly, omitted, or annotated. */
  datatype Node = Plain(coordinate: Coordinate)
                | Omitted(coordinate: Coordinate, note: string)
                | Annotated(coordinate: Coordinate, note: string)

  function Printed(node: Node): string {
    var text := Join(Parts(node.coordinate), ':');
    match node
    case Plain(_) => text
    case Omitted(_, note) => "(" + text + " - " + note + ")"
    case Annotated(_, note) => text + " (" + note + ")"
  }

  predicate Word(part: string) {
    part != "" && NoSpace(part) && forall c :: c in part ==> c !in ":()@"
  }

  /** What no coordinate or note of a printed tree holds. */
  predicate Clean(text: string) { '@' !in text && !Contains(text, "+- ") }

  /** The scopes of Maven. */
  predicate MavenScope(part: string) {
    part in ["compile", "provided", "runtime", "test", "system", "import"]
  }

  lemma ScopesAreMavens()
    ensures forall part :: IsScope(part) <==> MavenScope(part)
  {}

  /** A coordinate whose scope is a scope word. */
  predicate Shaped(c: Coordinate) {
    && MavenScope(c.scope)
    && forall i :: 0 <= i < |Parts(c)| ==> Word(Parts(c)[i])
  }

  /** No part before the scope reads as a scope, as the artifact of `org:test:jar:1:compile` does. */
  predicate ScopeFirst(c: Coordinate) {
    && !MavenScope(c.group) && !MavenScope(c.artifact) && !MavenScope(c.kind)
    && (c.classifier.Some? ==> !MavenScope(c.classifier.value))
    && (c.scopeLast ==> !MavenScope(c.version) || c.version == c.scope)
  }

  function Notes(node: Node): seq<string> {
    if node.Plain? then [] else [node.note]
  }

  /** A note that survives: an annotation is cut at its last opening parenthesis behind a space, so a second one hides
      the coordinate and the rest, and it loses closing parentheses at its end. */
  predicate NoteFits(node: Node) {
    && (!node.Plain? ==> Tight(node.note))
    && (node.Annotated? ==> !Contains(node.note, " (") && (node.note != "" ==> node.note[|node.note| - 1] != ')'))
  }

  /** What Maven prints: words around a scope, and a note that looks like no marker and no module banner. */
  predicate Printable(node: Node) {
    Shaped(node.coordinate) && Clean(Printed(node))
  }

  predicate Readable(node: Node) {
    ScopeFirst(node.coordinate) && NoteFits(node)
  }

  function Identity(c: Coordinate): string {
    Join([c.group, c.artifact, c.kind] + Optional(c.classifier), ':')
  }

  function Resolved(c: Coordinate): string {
    Join([c.group, c.artifact, c.version] + Optional(c.classifier), ':')
  }

  // ----- a printed coordinate is read back -----

  /** Exactly the coordinates without an earlier scope word are read as they are. */
  lemma CoordinateIsReadIff(c: Coordinate)
    requires Shaped(c)
    ensures ParseCoordinate(Parts(c)) == Some(Parsed(Identity(c), Resolved(c), c.version)) <==> ScopeFirst(c)
  {
    ScopesAreMavens();
    hide Join, IsScope, MavenScope;
    var parts := Parts(c);
    var n := |parts|;
    assert forall i :: 0 <= i < n ==> Word(parts[i]);
    assert parts[0] == c.group && parts[1] == c.artifact && parts[2] == c.kind;
    if c.classifier.Some? {
      assert n == 6 && parts[3] == c.classifier.value;
    } else {
      assert n == 5;
    }
    assert parts[n - 2] == (if c.scopeLast then c.version else c.scope);
    assert parts[n - 1] == (if c.scopeLast then c.scope else c.version);
    assert parts[..3] + Optional(c.classifier) == [c.group, c.artifact, c.kind] + Optional(c.classifier);
    assert ScopeIndex(parts).Some? && ScopeIndex(parts).value < n;
  }

  /** An artifact that is called like a scope makes its line unreadable. */
  lemma ScopeWordHidesCoordinate()
    ensures var parts := ["org", "test", "jar", "1", "compile"];
      ParseCoordinate(parts) == None && IsScope(parts[4]) && forall i :: 0 <= i < |parts| ==> Word(parts[i])
  {
    hide Join;
    var parts := ["org", "test", "jar", "1", "compile"];
    assert IsScope(parts[1]);
    assert ScopeIndex(parts).value <= 1;
  }

  lemma WordsStayOut(parts: seq<string>, x: char)
    requires x in "()@" && forall i :: 0 <= i < |parts| ==> Word(parts[i])
    ensures x !in Join(parts, ':')
  {
    hide Join;
    assert x != ':';
    JoinKeepsOut(parts, ':', x);
  }

  /** A coordinate's text is one word without parentheses. */
  lemma TextOfCoordinate(c: Coordinate)
    requires Shaped(c)
    ensures var text := Join(Parts(c), ':');
      && text != "" && NoSpace(text) && '(' !in text && ')' !in text && Split(text, ':') == Parts(c)
  {
    hide Split, IsScope;
    var parts := Parts(c);
    JoinKeepsSpaceFree(parts, ':');
    WordsStayOut(parts, '(');
    WordsStayOut(parts, ')');
    SplitOfJoin(parts, ':');
  }

  lemma NoParensToTrim(s: string)
    requires '(' !in s && ')' !in s
    ensures TrimParens(s) == s
  {}

  lemma {:induction false} OneParenToTrim(note: string)
    requires note != "" ==> note[|note| - 1] != ')'
    ensures TrimEndOf(note + ")", ')') == note
  {
    assert (note + ")")[..|note|] == note;
  }

  lemma {:induction false} ParensOnlyShorten(s: string)
    ensures |TrimEndOf(s, ')')| <= |s|
    ensures s != "" && s[|s| - 1] == ')' ==> |TrimEndOf(s, ')')| < |s|
  {
    if s != "" && s[|s| - 1] == ')' {
      ParensOnlyShorten(s[..|s| - 1]);
    }
  }

  /** The notes read from a printed value are the printed ones exactly if they fit, and then the coordinate is there too. */
  lemma NoteIsReadIff(node: Node)
    requires Shaped(node.coordinate)
    ensures Printed(node) != "" && TrimEnd(Printed(node)) == Printed(node) && Trim(Printed(node)) == Printed(node)
    ensures SplitNote(Printed(node)).1 == Notes(node) <==> NoteFits(node)
    ensures NoteFits(node) ==> SplitNote(Printed(node)).0 == Join(Parts(node.coordinate), ':')
  {
    hide Join, Split, Clean, IsScope, Shaped, ScopeFirst, SplitNote, Contains;
    var text := Join(Parts(node.coordinate), ':');
    TextOfCoordinate(node.coordinate);
    TrimTight(text);
    match node
    case Plain(_) => PlainIsRead(text);
    case Omitted(_, note) => OmittedIsRead(text, note);
    case Annotated(_, note) => AnnotatedIsReadIff(text, note);
  }

  lemma PlainIsRead(text: string)
    requires text != "" && NoSpace(text) && '(' !in text && ')' !in text
    ensures Tight(text) && SplitNote(text) == (text, [])
  {
    TrimTight(text);
    forall i ensures !At(text, " (", i) {
      StartsAt(text, " (", i);
    }
  }

  lemma OmittedIsRead(text: string, note: string)
    requires text != "" && NoSpace(text) && '(' !in text && ')' !in text
    ensures var value := "(" + text + " - " + note + ")";
      && TrimEnd(value) == value == Trim(value)
      && SplitNote(value) == (text, [Trim(note)]) && (Trim(note) == note <==> Tight(note))
  {
    hide FindFrom, FindLast, TrimEndOf, Contains;
    var value := "(" + text + " - " + note + ")";
    var inner := text + " - " + note;
    assert value[0] == '(' && value[|value| - 1] == ')';
    TrimTight(value);
    assert value[1..|value| - 1] == inner;
    FirstAfterWord(text, " - ", note);
    assert inner[..|text|] == text && inner[|text| + 3..] == note;
    TrimTight(text);
    TrimIsTight(note);
  }

  lemma FirstAfterWord(text: string, pat: string, rest: string)
    requires NoSpace(text) && pat != "" && IsSpace(pat[0])
    ensures Find(text + pat + rest, pat) == Some(|text|)
  {
    var s := text + pat + rest;
    forall j | 0 <= j < |text| ensures !At(s, pat, j) {
      StartsAt(s, pat, j);
      assert s[j] == text[j];
    }
    assert s[|text|..|text| + |pat|] == pat;
    FoundFirst(s, pat, |text|);
  }

  lemma AnnotatedIsReadIff(text: string, note: string)
    requires text != "" && NoSpace(text) && '(' !in text && ')' !in text
    ensures var value := text + " (" + note + ")";
      var fits := Tight(note) && !Contains(note, " (") && (note != "" ==> note[|note| - 1] != ')');
      && TrimEnd(value) == value == Trim(value)
      && (SplitNote(value).1 == [note] <==> fits) && (fits ==> SplitNote(value).0 == text)
  {
    hide FindLast, FindFrom, Trim, TrimEndOf, Contains;
    var value := text + " (" + note + ")";
    assert value[0] == text[0] && value[|value| - 1] == ')';
    TrimTight(value);
    var at := LastParen(text, note);
    var tail := value[at + 2..];
    assert tail[|tail| - 1] == ')';
    ParensOnlyShorten(tail);
    TrimOnlyShortens(TrimEndOf(tail, ')'));
    if at == |text| {
      assert value[..|text|] == text && tail == note + ")";
      TrimTight(text);
      if note == "" || note[|note| - 1] != ')' {
        OneParenToTrim(note);
        TrimIsTight(note);
      } else {
        TrailingParens(note);
        TrimOnlyShortens(TrimEndOf(note, ')'));
        ParensOnlyShorten(note);
      }
    }
  }

  lemma TrailingParens(note: string)
    ensures TrimEndOf(note + ")", ')') == TrimEndOf(note, ')')
  {
    assert (note + ")")[..|note|] == note;
  }

  /** The last opening parenthesis behind a space: the annotation's own one, or one inside of its note. */
  lemma LastParen(text: string, note: string) returns (at: nat)
    ensures var value := text + " (" + note + ")";
      && |text| <= at && at + 2 < |value| && FindLast(value, " (", |value| + 1) == Some(at)
      && (at == |text| <==> !Contains(note, " ("))
  {
    var value := text + " (" + note + ")";
    assert value[|text|..|text| + 2] == " (";
    assert At(value, " (", |text|);
    at := FindLast(value, " (", |value| + 1).value;
    PairAt(value, " (", at);
    PairAt(note, " (", at - |text| - 2);
    forall i | 0 <= i <= |note| ensures At(note, " (", i) ==> |text| < at {
      PairAt(note, " (", i);
      PairAt(value, " (", |text| + 2 + i);
    }
  }

  /** Two annotations, as in `g:a:jar:1:compile (version managed from 2) (optional)`, make a line malformed: what is taken
      for the scope holds the first of them. */
  lemma SecondNoteHidesCoordinate(c: Coordinate, first: string, second: string, prefix: string)
    requires Shaped(c) && ScopeFirst(c) && c.scopeLast && !MavenScope(c.version)
    requires first != "" && forall x :: x in first ==> x !in ":()"
    requires '(' !in second
    ensures var value := Join(Parts(c), ':') + " (" + first + ") (" + second + ")";
      ParseDependency(prefix + "+- " + value, |prefix|) == None
  {
    hide Join, Split, SplitNote, ParseCoordinate, Contains, IsScope, ScopeFirst, Shaped;
    var text := Join(Parts(c), ':');
    var head := text + " (" + first + ")";
    var value := head + " (" + second + ")";
    assert value == text + " (" + first + ") (" + second + ")";
    var line := prefix + "+- " + value;
    assert line[|prefix| + 3..] == value;
    TextOfCoordinate(c);
    NoteBehind(head, second);
    NoteIsInScope(c, first);
    TrimFirstParen(text, first);
  }

  lemma NoteBehind(head: string, note: string)
    requires head != "" && !IsSpace(head[0]) && head[0] != '(' && !IsSpace(head[|head| - 1]) && '(' !in note
    ensures var value := head + " (" + note + ")"; Trim(value) == value && SplitNote(value).0 == head
  {
    hide FindLast, FindFrom, TrimEndOf, Contains, Trim;
    var value := head + " (" + note + ")";
    assert value[0] == head[0] && value[|value| - 1] == ')';
    TrimTight(value);
    NoParenIn(note);
    var at := LastParen(head, note);
    assert value[..|head|] == head;
    TrimTight(head);
  }

  lemma NoParenIn(s: string)
    requires '(' !in s
    ensures !Contains(s, " (")
  {
    forall i ensures !At(s, " (", i) { PairAt(s, " (", i); }
  }

  lemma TrimFirstParen(text: string, note: string)
    requires text != "" && '(' !in text && ')' !in text && note != "" && '(' !in note && ')' !in note
    ensures TrimParens(text + " (" + note + ")") == text + " (" + note
  {
    var (whole, rest) := (text + " (" + note + ")", text + " (" + note);
    assert whole[0] == text[0] && whole[..|whole| - 1] == rest;
    assert rest[0] == text[0] && rest[|rest| - 1] == note[|note| - 1];
  }

  lemma NoteIsInScope(c: Coordinate, note: string)
    requires Shaped(c) && ScopeFirst(c) && c.scopeLast && !MavenScope(c.version) && ':' !in note
    ensures ParseCoordinate(Split(Join(Parts(c), ':') + " (" + note, ':')) == None
  {
    ScopesAreMavens();
    hide Join, Split, IsScope, MavenScope;
    var parts := Parts(c);
    var n := |parts|;
    assert forall i :: 0 <= i < n ==> Word(parts[i]);
    assert parts[0] == c.group && parts[1] == c.artifact && parts[2] == c.kind && parts[n - 1] == c.scope;
    assert parts[n - 2] == c.version;
    var tail := " (" + note;
    var longer := parts[..n - 1] + [c.scope + tail];
    JoinLast(parts, ':', tail);
    assert Join(parts, ':') + " (" + note == Join(parts, ':') + tail;
    SplitOfJoin(longer, ':');
    NoSpaceInScope(c.scope + tail, |c.scope|);
    assert n == 5 || (n == 6 && parts[3] == c.classifier.value);
    assert ScopeIndex(longer).None?;
  }

  lemma NoSpaceInScope(part: string, at: nat)
    requires at < |part| && part[at] == ' '
    ensures !IsScope(part)
  {}

  // ----- what notes mean -----

  lemma {:induction false} LowerConcat(a: string, b: string)
    ensures Lower(a + b) == Lower(a) + Lower(b)
  {
    if a == "" {
      assert a + b == b;
    } else {
      LowerConcat(a[1..], b);
      assert (a + b)[1..] == a[1..] + b;
    }
  }

  predicate IsLower(s: string) { forall i :: 0 <= i < |s| ==> !('A' <= s[i] <= 'Z') }

  lemma {:induction false} LowerStays(s: string)
    requires IsLower(s)
    ensures Lower(s) == s
  {
    if s != "" {
      LowerStays(s[1..]);
      assert [s[0]] + s[1..] == s;
    }
  }

  lemma KnownNotesAreLower()
    ensures IsLower(MANAGED_FROM) && IsLower(CONFLICT)
  {}

  /** The requested version is the one that management replaced, when the note names it. */
  lemma ManagedVersionIsRead(requested: string, rest: string, version: string)
    requires requested != "" && forall i :: 0 <= i < |requested| ==> !EndsVersion(requested[i])
    requires rest == "" || EndsVersion(rest[0])
    ensures RequestedVersion([MANAGED_FROM + requested + rest], version) == requested
  {
    KnownNotesAreLower();
    hide UpToEnd, MANAGED_FROM, CONFLICT, FindFrom, IsLower, EndsVersion;
    var note := MANAGED_FROM + requested + rest;
    assert note == MANAGED_FROM + (requested + rest);
    LowerConcat(MANAGED_FROM, requested + rest);
    LowerStays(MANAGED_FROM);
    assert Lower(note)[0..|MANAGED_FROM|] == MANAGED_FROM;
    FoundFirst(Lower(note), MANAGED_FROM, 0);
    assert note[|MANAGED_FROM|..] == requested + rest;
    CutAtEnd(requested, rest);
  }

  lemma {:induction false} CutAtEnd(version: string, rest: string)
    requires (forall i :: 0 <= i < |version| ==> !EndsVersion(version[i])) && (rest == "" || EndsVersion(rest[0]))
    ensures UpToEnd(version + rest) == version
  {
    if version == "" {
      assert version + rest == rest;
    } else {
      CutAtEnd(version[1..], rest);
      assert (version + rest)[1..] == version[1..] + rest;
    }
  }

  /** The words occur there, whatever their case. */
  predicate SaysAt(note: string, words: string, i: int) {
    0 <= i && i + |words| <= |note| && forall k :: 0 <= k < |words| ==> SameLetter(note[i + k], words[k])
  }

  predicate Says(note: string, words: string) {
    exists i :: 0 <= i <= |note| && SaysAt(note, words, i)
  }

  lemma SaidIsFoundAt(note: string, words: string, i: int)
    requires IsLower(words)
    ensures SaysAt(note, words, i) <==> At(Lower(note), words, i)
  {
    if 0 <= i && i + |words| <= |note| {
      forall k | 0 <= k < |words| ensures SameLetter(note[i + k], words[k]) <==> Lower(note)[i + k] == words[k] {
        LowerAt(note, i + k);
      }
      var found := Lower(note)[i..i + |words|];
      assert forall k :: 0 <= k < |words| ==> found[k] == Lower(note)[i + k];
      assert found == words <==> forall k :: 0 <= k < |words| ==> found[k] == words[k];
    }
  }

  lemma SaidIsFound(note: string, words: string)
    requires IsLower(words)
    ensures Says(note, words) <==> Contains(Lower(note), words)
  {
    hide Lower;
    forall i ensures SaysAt(note, words, i) <==> At(Lower(note), words, i) { SaidIsFoundAt(note, words, i); }
    if Says(note, words) {
      var i :| 0 <= i <= |note| && SaysAt(note, words, i);
      assert At(Lower(note), words, i);
    }
  }

  /** The status that a printed dependency has: selected unless its note says otherwise. */
  ghost function PrintedStatus(node: Node): Status {
    if node.Plain? then Selected
    else if Says(node.note, "excluded") || Says(node.note, "exclusion") then Excluded
    else if Says(node.note, "omitted for conflict") then ConflictOmitted
    else if Says(node.note, "omitted for duplicate") then DuplicateOmitted
    else Selected
  }

  /** A line without a note, or with one that says nothing else, is selected; exclusion goes before conflict, conflict before
      duplicate. */
  lemma StatusIsPrinted(node: Node)
    ensures StatusOf(Notes(node)) == PrintedStatus(node)
  {
    hide Says, Contains, Lower;
    if node.Plain? {
      NothingIsSaid();
    } else {
      assert Join([node.note], ' ') == node.note;
      SaidIsFound(node.note, "excluded");
      SaidIsFound(node.note, "exclusion");
      SaidIsFound(node.note, "omitted for conflict");
      SaidIsFound(node.note, "omitted for duplicate");
    }
  }

  lemma NothingIsSaid()
    ensures StatusOf([]) == Selected
  {
    assert Lower(Join([], ' ')) == "";
  }

  lemma ManagedIsSaid(notes: seq<string>)
    ensures IsManaged(notes) <==> exists i :: 0 <= i < |notes| && Says(notes[i], "managed")
  {
    hide Says, Contains, Lower;
    forall i | 0 <= i < |notes| ensures Says(notes[i], "managed") <==> Contains(Lower(notes[i]), "managed") {
      SaidIsFound(notes[i], "managed");
    }
  }

  // ----- the version that was asked for -----

  ghost predicate FirstSaid(note: string, words: string, i: nat) {
    SaysAt(note, words, i) && forall j :: 0 <= j < i ==> !SaysAt(note, words, j)
  }

  /** The version that starts at `from` ends before `to`: at the end of the note, or at a semicolon, comma or space. */
  ghost predicate VersionEnds(note: string, from: nat, to: nat) {
    && from <= to <= |note| && (forall i :: from <= i < to ==> note[i] != ';' && note[i] != ',' && note[i] != ' ')
    && (to == |note| || note[to] == ';' || note[to] == ',' || note[to] == ' ')
  }

  lemma {:induction false} VersionIsCut(note: string, from: nat)
    requires from <= |note|
    ensures VersionEnds(note, from, from + |UpToEnd(note[from..])|)
    ensures UpToEnd(note[from..]) == note[from..from + |UpToEnd(note[from..])|]
    decreases |note| - from
  {
    if from < |note| && !EndsVersion(note[from]) {
      VersionIsCut(note, from + 1);
      assert note[from..][1..] == note[from + 1..];
    }
  }

  /** The version behind the first `version managed from ` of the note, which starts at `i`, ends before `to`. */
  ghost predicate NamesVersion(note: string, i: nat, to: nat) {
    FirstSaid(note, "version managed from ", i) && VersionEnds(note, i + 21, to)
  }

  /** The version a printed dependency asked for: the one that management replaced, if its note names one. */
  ghost predicate IsRequested(node: Node, version: string) {
    if node.Plain? || !Says(node.note, "version managed from ") then version == node.coordinate.version
    else exists i: nat, to: nat ::
      NamesVersion(node.note, i, to) && version == if to > i + 21 then node.note[i + 21..to] else node.coordinate.version
  }

  /** The requested version is the one behind the first mention of management, if a version stands there. */
  lemma RequestIsPrinted(node: Node)
    ensures IsRequested(node, RequestedVersion(Notes(node), node.coordinate.version))
  {
    hide Lower, UpToEnd, Says, FindFrom, VersionEnds, SaysAt;
    KnownNotesAreLower();
    if !node.Plain? {
      var note := node.note;
      SaidIsFound(note, MANAGED_FROM);
      var found := Find(Lower(note), MANAGED_FROM);
      assert ManagedFrom([]) == None;
      assert ManagedFrom([note][1..]) == None;
      if found.Some? {
        forall j | 0 <= j <= found.value ensures SaysAt(note, MANAGED_FROM, j) <==> At(Lower(note), MANAGED_FROM, j) {
          SaidIsFoundAt(note, MANAGED_FROM, j);
        }
        var from := found.value + |MANAGED_FROM|;
        VersionIsCut(note, from);
        var to := from + |UpToEnd(note[from..])|;
        assert NamesVersion(note, found.value, to);
        assert Contains(Lower(note), MANAGED_FROM);
      } else {
        assert !Contains(Lower(note), MANAGED_FROM);
      }
    }
  }

  lemma NamedOnce(note: string, i: nat, to: nat, j: nat, end: nat)
    requires NamesVersion(note, i, to) && NamesVersion(note, j, end)
    ensures i == j && to == end
  {}

  lemma RequestedOnce(node: Node, some: string, other: string)
    requires IsRequested(node, some) && IsRequested(node, other)
    ensures some == other
  {
    hide Says, FirstSaid;
    if !(node.Plain? || !Says(node.note, "version managed from ")) {
      var i: nat, to: nat :| NamesVersion(node.note, i, to)
        && some == if to > i + 21 then node.note[i + 21..to] else node.coordinate.version;
      var j: nat, end: nat :| NamesVersion(node.note, j, end)
        && other == if end > j + 21 then node.note[j + 21..end] else node.coordinate.version;
      NamedOnce(node.note, i, to, j, end);
    }
  }

  ghost function PrintedRequest(node: Node): (version: string)
    ensures IsRequested(node, version)
  {
    RequestIsPrinted(node);
    var version :| IsRequested(node, version);
    version
  }

  /** A dependency that lost a conflict is recognized, whatever version won it. */
  lemma ConflictIsRead(rest: string)
    requires !Contains(Lower(CONFLICT + rest), "excluded") && !Contains(Lower(CONFLICT + rest), "exclusion")
    ensures StatusOf([CONFLICT + rest]) == ConflictOmitted
  {
    KnownNotesAreLower();
    var note := CONFLICT + rest;
    LowerConcat(CONFLICT, rest);
    LowerStays(CONFLICT);
    hide CONFLICT;
    assert Lower(note)[0..|CONFLICT|] == CONFLICT;
    assert At(Lower(note), CONFLICT, 0);
    assert Join([note], ' ') == note;
  }

  // ----- a printed line is read back -----

  predicate IsIndent(prefix: string) { forall i :: 0 <= i < |prefix| ==> prefix[i] in " |" }

  function LineOf(prefix: string, last: bool, node: Node): string {
    prefix + (if last then "\\- " else "+- ") + Printed(node)
  }

  lemma NoModuleLine(line: string)
    requires '@' !in line
    ensures ModuleArtifact(line).None?
  {
    AbsentChar(line, " @ ", 1);
  }

  /** The marker of the line is the first marker in it. */
  lemma MarkerIsFound(prefix: string, last: bool, content: string)
    requires IsIndent(prefix) && !Contains(content, "+- ")
    ensures Marker(prefix + (if last then "\\- " else "+- ") + content) == Some(|prefix|)
  {
    if last { LastMarker(prefix, content); } else { FirstMarker(prefix, "+- ", content); }
  }

  lemma FirstMarker(prefix: string, mark: string, content: string)
    requires IsIndent(prefix) && (mark == "+- " || mark == "\\- ")
    ensures Find(prefix + mark + content, mark) == Some(|prefix|)
  {
    var line := prefix + mark + content;
    assert line[|prefix|..|prefix| + 3] == mark;
    forall j | 0 <= j < |prefix| ensures !At(line, mark, j) {
      StartsAt(line, mark, j);
      assert line[j] == prefix[j];
    }
    FoundFirst(line, mark, |prefix|);
  }

  lemma LastMarker(prefix: string, content: string)
    requires IsIndent(prefix) && !Contains(content, "+- ")
    ensures Marker(prefix + "\\- " + content) == Some(|prefix|)
  {
    var head := prefix + "\\- ";
    FirstMarker(prefix, "\\- ", content);
    forall j: nat ensures !At(head + content, "+- ", j) {
      if j < |head| {
        StartsAt(head + content, "+- ", j);
        assert (head + content)[j] == head[j] != '+';
      } else {
        AtTail(head, content, "+- ", j - |head|);
        assert j - |head| <= |content| ==> !At(content, "+- ", j - |head|);
      }
    }
  }

  /** What a printed line means. */
  ghost function Meaning(depth: nat, node: Node): Dependency {
    Dependency(depth, Parsed(Identity(node.coordinate), Resolved(node.coordinate), node.coordinate.version), Notes(node),
               PrintedStatus(node), PrintedRequest(node))
  }

  lemma MeaningIsRead(depth: nat, node: Node)
    ensures Meaning(depth, node)
              == ReadAs(depth, Parsed(Identity(node.coordinate), Resolved(node.coordinate), node.coordinate.version), Notes(node))
  {
    hide StatusOf, RequestedVersion, PrintedStatus, IsRequested, Identity, Resolved, Notes;
    StatusIsPrinted(node);
    RequestIsPrinted(node);
    RequestedOnce(node, PrintedRequest(node), RequestedVersion(Notes(node), node.coordinate.version));
  }

  /** Every printed line shows its marker, and it is read as what it means exactly if no part before its scope is a scope
      word and its note survives. */
  lemma LineIsReadIff(prefix: string, last: bool, node: Node)
    requires IsIndent(prefix) && Printable(node)
    ensures var line := LineOf(prefix, last, node);
      && TrimEnd(line) == line && ModuleArtifact(line).None? && Marker(line) == Some(|prefix|)
      && (ParseDependency(line, |prefix|) == Some(Meaning(|prefix| / 3 + 1, node)) <==> Readable(node))
  {
    hide Join, Split, IsScope, ScopeFirst, SplitNote, ModuleArtifact, Marker, ScopeIndex, Word, Contains, Printed, TrimParens,
         NoteFits, StatusOf, RequestedVersion, ParseCoordinate, Meaning;
    MeaningIsRead(|prefix| / 3 + 1, node);
    var line := LineOf(prefix, last, node);
    NoteIsReadIff(node);
    LineEnds(prefix + (if last then "\\- " else "+- "), Printed(node));
    MarkerIsFound(prefix, last, Printed(node));
    assert '@' !in line;
    NoModuleLine(line);
    assert line[|prefix| + 3..] == Printed(node);
    var text := Join(Parts(node.coordinate), ':');
    TextOfCoordinate(node.coordinate);
    NoParensToTrim(text);
    CoordinateIsReadIff(node.coordinate);
  }

  lemma LineEnds(head: string, content: string)
    requires content != "" && TrimEnd(content) == content
    ensures TrimEnd(head + content) == head + content
  {}

  // ----- the root line -----

  datatype Root = Root(group: string, artifact: string, kind: string, classifier: Option<string>, version: string)

  function RootParts(root: Root): seq<string> {
    [root.group, root.artifact, root.kind] + Optional(root.classifier) + [root.version]
  }

  predicate ReadableRoot(root: Root) {
    forall i :: 0 <= i < |RootParts(root)| ==> Word(RootParts(root)[i])
  }

  function ResolvedRoot(root: Root): string {
    Join([root.group, root.artifact, root.version] + Optional(root.classifier), ':')
  }

  lemma RootIsRead(root: Root)
    requires ReadableRoot(root)
    ensures var line := Join(RootParts(root), ':');
      && TrimEnd(line) == line && ModuleArtifact(line).None? && Marker(line).None?
      && ParseRoot(line) == Some((root.artifact, ResolvedRoot(root)))
  {
    hide Join, Split;
    var parts := RootParts(root);
    var line := Join(parts, ':');
    JoinKeepsSpaceFree(parts, ':');
    WordsStayOut(parts, '(');
    WordsStayOut(parts, '@');
    SplitOfJoin(parts, ':');
    NoModuleLine(line);
    NoSpaceNoMarker(line);
    assert parts[0] == root.group && parts[1] == root.artifact && parts[2] == root.kind;
    assert parts[3..|parts| - 1] == Optional(root.classifier);
    assert forall i :: 0 <= i < |parts| ==> Word(parts[i]);
  }

  lemma NoSpaceNoMarker(line: string)
    requires NoSpace(line)
    ensures Marker(line).None?
  {
    AbsentChar(line, "+- ", 2);
    AbsentChar(line, "\\- ", 2);
  }

  // ----- banners -----

  lemma BannerIsRead(before: string, artifact: string)
    requires '@' !in before && Word(artifact)
    ensures ModuleArtifact(before + " @ " + artifact + " ---") == Some(artifact)
  {
    var line := before + " @ " + artifact + " ---";
    forall j: nat | j < |before| ensures !At(line, " @ ", j) {
      assert line[j + 1] == if j + 1 < |before| then before[j + 1] else ' ';
      assert line[j..j + 3][1] == line[j + 1];
    }
    assert line[|before|..|before| + 3] == " @ ";
    FoundFirst(line, " @ ", |before|);
    var remainder := artifact + " ---";
    assert line[|before| + 3..] == remainder;
    var dashed := artifact + " ";
    assert remainder == dashed + "---";
    ThreeDashes(dashed);
    assert TrimEndOf(dashed, '-') == dashed;
    OneSpaceToTrim(artifact);
    TrimTight(artifact);
    NothingToTrim(artifact);
    NothingToTrim(dashed);
  }

  lemma OneDash(s: string)
    ensures TrimEndOf(s + "-", '-') == TrimEndOf(s, '-')
  {
    assert (s + "-")[..|s|] == s;
  }

  lemma ThreeDashes(s: string)
    ensures TrimEndOf(s + "---", '-') == TrimEndOf(s, '-')
  {
    OneDash(s);
    OneDash(s + "-");
    OneDash(s + "-" + "-");
    assert s + "---" == s + "-" + "-" + "-";
  }

  // ----- log levels -----

  predicate IsLogged(raw: string, message: string) {
    exists level :: level in ["[INFO]", "[WARNING]", "[WARN]", "[ERROR]"] && raw == level + " " + message
  }

  lemma LoggedIsRead(raw: string, message: string)
    requires IsLogged(raw, message) && TrimEnd(message) == message
    ensures LogMessage(raw) == message
  {
    hide TrimStart, TrimEnd, MessageAfter;
    var level :| level in LEVELS && raw == level + " " + message;
    LevelIsBracketed(level);
    hide LEVELS;
    NothingToTrim(raw);
    if message == "" {
      NothingToTrim(level);
      assert raw == level + " " && level + "" == level;
      OneSpaceToTrim(level);
    } else {
      LastIsKept(message);
      assert raw[|raw| - 1] == message[|message| - 1];
      assert raw == level + (" " + message) && (" " + message)[1..] == message;
    }
    LevelIsCut(level, if message == "" then "" else " " + message);
  }

  lemma LevelIsBracketed(level: string)
    requires level in LEVELS
    ensures |level| > 1 && level[0] == '[' && level[|level| - 1] == ']'
  {
    assert level == LEVELS[0] || level == LEVELS[1] || level == LEVELS[2] || level == LEVELS[3];
  }

  lemma NothingToTrim(s: string)
    requires s != ""
    ensures !IsSpace(s[0]) ==> TrimStart(s) == s
    ensures !IsSpace(s[|s| - 1]) ==> TrimEnd(s) == s
  {}

  lemma LastIsKept(s: string)
    requires s != "" && TrimEnd(s) == s
    ensures !IsSpace(s[|s| - 1])
  {}

  lemma OneSpaceToTrim(s: string)
    ensures TrimEnd(s + " ") == TrimEnd(s)
  {
    assert (s + " ")[..|s|] == s;
  }

  lemma SkipLevel(line: string, levels: seq<string>, k: nat)
    requires levels != [] && k < |levels[0]| && k < |line| && levels[0][k] != line[k]
    ensures MessageAfter(line, levels) == MessageAfter(line, levels[1..])
  {
    hide TrimEnd;
    NotPrefix(levels[0], line, k);
  }

  lemma LevelIsCut(level: string, rest: string)
    requires level in LEVELS
    ensures MessageAfter(level + rest, LEVELS) == TrimEnd(if [' '] <= rest then rest[1..] else rest)
  {
    hide TrimEnd;
    var line := level + rest;
    assert line[|level|..] == rest && level <= line;
    var after := LEVELS[1..];
    assert after == ["[WARNING]", "[WARN]", "[ERROR]"] && after[1..] == ["[WARN]", "[ERROR]"];
    assert after[1..][1..] == ["[ERROR]"];
    if level != LEVELS[0] {
      SkipLevel(line, LEVELS, 1);
      if level != after[0] {
        SkipLevel(line, after, if level == "[WARN]" then 5 else 1);
        if level != after[1] {
          SkipLevel(line, after[1..], 1);
        }
      }
    }
  }
}
