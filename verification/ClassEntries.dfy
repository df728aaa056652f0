/** The one classfile entry an archive provides for each class path, multi-release versions considered. */
module ClassEntries {
  import opened Common
  import opened Strings
  import opened Text
  import Json

  const VERSIONED_ENTRY_PREFIX := "META-INF/versions/"
  const MIN_MULTI_RELEASE_VERSION := 9
  const MAX_VERSION := 4294967295

  predicate EndsWith(s: string, suffix: string) {
    |suffix| <= |s| && s[|s| - |suffix|..] == suffix
  }

  /** A classfile entry competes for a class path with a version; base entries with version 0. */
  datatype Candidate = Candidate(version: nat, logical: string)

  /** A canonical decimal version directory that a runtime would look up. */
  predicate IsVersion(text: string) {
    text != "" && text[0] != '0' && AllDigits(text) && MIN_MULTI_RELEASE_VERSION <= Number(text) <= MAX_VERSION
  }

  function CandidateOf(entry: string, multiRelease: bool): Option<Candidate> {
    if !EndsWith(entry, ".class") then None
    else if VERSIONED_ENTRY_PREFIX <= entry then
      if !multiRelease then None
      else match SplitOnce(entry[|VERSIONED_ENTRY_PREFIX|..], "/")
        case None => None
        case Some((version, logical)) => if IsVersion(version) then Some(Candidate(Number(version), logical)) else None
    else Some(Candidate(0, entry))
  }

  /** What a classfile entry is offered as: under `META-INF/versions/`, only the canonical number of a release from 9 on counts,
      and only if the manifest declares several; any other classfile is a base entry. */
  lemma CandidateIff(entry: string, multiRelease: bool, version: nat, logical: string)
    ensures CandidateOf(entry, multiRelease) == Some(Candidate(version, logical)) <==>
      && EndsWith(logical, ".class")
      && (if "META-INF/versions/" <= entry then
            && multiRelease && 9 <= version < 0x1_0000_0000
            && entry == "META-INF/versions/" + Json.Decimal(version) + "/" + logical
          else version == 0 && entry == logical)
  {
    hide Number, Json.Decimal, SplitOnce, AllDigits;
    if VERSIONED_ENTRY_PREFIX <= entry && multiRelease {
      if 9 <= version <= MAX_VERSION && entry == VERSIONED_ENTRY_PREFIX + Json.Decimal(version) + "/" + logical {
        WrittenIsOffered(version, logical);
      }
      OfferedIsWritten(entry);
    }
  }

  lemma WrittenIsOffered(version: nat, logical: string)
    requires 9 <= version <= MAX_VERSION
    ensures var entry := VERSIONED_ENTRY_PREFIX + Json.Decimal(version) + "/" + logical;
      && SplitOnce(entry[|VERSIONED_ENTRY_PREFIX|..], "/") == Some((Json.Decimal(version), logical))
      && IsVersion(Json.Decimal(version)) && Number(Json.Decimal(version)) == version
      && (EndsWith(logical, ".class") ==> EndsWith(entry, ".class"))
      && (EndsWith(entry, ".class") ==> EndsWith(logical, ".class"))
  {
    hide Number, Json.Decimal, SplitOnce;
    var (digits, entry) := (Json.Decimal(version), VERSIONED_ENTRY_PREFIX + Json.Decimal(version) + "/" + logical);
    assert entry[|VERSIONED_ENTRY_PREFIX|..] == digits + "/" + logical;
    FirstSlash(digits, logical);
    Json.NumberOfDecimal(version);
    Json.DecimalLeads(version);
    SuffixOfTail(VERSIONED_ENTRY_PREFIX + digits + "/", logical);
    ClassAfterSlash(VERSIONED_ENTRY_PREFIX + digits, logical);
  }

  lemma OfferedIsWritten(entry: string)
    requires VERSIONED_ENTRY_PREFIX <= entry
    ensures var split := SplitOnce(entry[|VERSIONED_ENTRY_PREFIX|..], "/");
      split.Some? && IsVersion(split.value.0) ==>
        && split.value.0 == Json.Decimal(Number(split.value.0))
        && entry == VERSIONED_ENTRY_PREFIX + split.value.0 + "/" + split.value.1
        && (EndsWith(entry, ".class") ==> EndsWith(split.value.1, ".class"))
  {
    hide Number, Json.Decimal;
    var rest := entry[|VERSIONED_ENTRY_PREFIX|..];
    var split := SplitOnce(rest, "/");
    if split.Some? && IsVersion(split.value.0) {
      Json.DecimalOfNumber(split.value.0);
      assert rest == split.value.0 + "/" + split.value.1;
      assert entry == VERSIONED_ENTRY_PREFIX + split.value.0 + "/" + split.value.1;
      ClassAfterSlash(VERSIONED_ENTRY_PREFIX + split.value.0, split.value.1);
    }
  }

  lemma FirstSlash(digits: string, logical: string)
    requires AllDigits(digits)
    ensures SplitOnce(digits + "/" + logical, "/") == Some((digits, logical))
  {
    var text := digits + "/" + logical;
    forall j | 0 <= j < |digits| ensures !At(text, "/", j) {
      assert text[j] == digits[j] && text[j..j + 1][0] == text[j];
    }
    assert At(text, "/", |digits|);
    FoundFirst(text, "/", |digits|);
    assert text[..|digits|] == digits && text[|digits| + 1..] == logical;
  }

  lemma SuffixOfTail(head: string, tail: string)
    ensures EndsWith(tail, ".class") ==> EndsWith(head + tail, ".class")
  {
    if EndsWith(tail, ".class") {
      assert (head + tail)[|head + tail| - 6..] == tail[|tail| - 6..];
    }
  }

  lemma ClassAfterSlash(head: string, tail: string)
    ensures EndsWith(head + "/" + tail, ".class") ==> EndsWith(tail, ".class")
  {
    var text := head + "/" + tail;
    if EndsWith(text, ".class") {
      assert forall k :: 0 <= k < 6 ==> ".class"[k] != '/';
      assert forall k :: |text| - 6 <= k < |text| ==> text[k] == text[|text| - 6..][k - (|text| - 6)];
      assert text[|head|] == '/';
      assert text[|text| - 6..] == tail[|tail| - 6..];
    }
  }

  /** The entry at `i` has the highest version of its class path, and is the first that has. */
  predicate Wins(entries: seq<string>, multiRelease: bool, i: nat) {
    i < |entries| && CandidateOf(entries[i], multiRelease).Some? &&
    var c := CandidateOf(entries[i], multiRelease).value;
    forall j :: 0 <= j < |entries| && CandidateOf(entries[j], multiRelease).Some? ==>
      var d := CandidateOf(entries[j], multiRelease).value;
      d.logical == c.logical ==> d.version < c.version || (d.version == c.version && i <= j)
  }

  ghost predicate WonBy(entries: seq<string>, multiRelease: bool, logical: string, entry: string, i: nat) {
    Wins(entries, multiRelease, i) && CandidateOf(entries[i], multiRelease).value.logical == logical && entries[i] == entry
  }

  ghost predicate Competes(entries: seq<string>, multiRelease: bool, logical: string, i: nat) {
    && i < |entries| && CandidateOf(entries[i], multiRelease).Some?
    && CandidateOf(entries[i], multiRelease).value.logical == logical
  }

  /** Exactly the class paths with a candidate, each with the winning entry. */
  ghost predicate Effective(entries: seq<string>, multiRelease: bool, selected: map<string, string>) {
    && (forall logical :: logical in selected ==> exists i: nat :: WonBy(entries, multiRelease, logical, selected[logical], i))
    && (forall logical, i: nat :: Competes(entries, multiRelease, logical, i) ==> logical in selected)
  }

  lemma EffectiveIsUnique(entries: seq<string>, multiRelease: bool, a: map<string, string>, b: map<string, string>)
    requires Effective(entries, multiRelease, a) && Effective(entries, multiRelease, b)
    ensures a == b
  {
    hide CandidateOf;
    SelectsNoMore(entries, multiRelease, a, b);
    SelectsNoMore(entries, multiRelease, b, a);
  }

  lemma SelectsNoMore(entries: seq<string>, multiRelease: bool, a: map<string, string>, b: map<string, string>)
    requires Effective(entries, multiRelease, a) && Effective(entries, multiRelease, b)
    ensures forall logical :: logical in a ==> logical in b && a[logical] == b[logical]
  {
    hide CandidateOf;
    forall logical | logical in a ensures logical in b && a[logical] == b[logical] {
      var i: nat :| WonBy(entries, multiRelease, logical, a[logical], i);
      assert Competes(entries, multiRelease, logical, i);
      var j: nat :| WonBy(entries, multiRelease, logical, b[logical], j);
      assert i <= j && j <= i;
    }
  }

  ghost predicate HasWinner(entries: seq<string>, multiRelease: bool, logical: string, best: (nat, string)) {
    exists i: nat :: WonBy(entries, multiRelease, logical, best.1, i)
                     && CandidateOf(entries[i], multiRelease).value.version == best.0
  }

  /** The best candidate of every class path so far, with its version. */
  ghost predicate BestSoFar(entries: seq<string>, multiRelease: bool, selected: map<string, (nat, string)>) {
    && (forall logical :: logical in selected ==> HasWinner(entries, multiRelease, logical, selected[logical]))
    && (forall logical, i: nat :: Competes(entries, multiRelease, logical, i) ==> logical in selected)
  }

  function Offer(selected: map<string, (nat, string)>, c: Candidate, entry: string): map<string, (nat, string)> {
    if c.logical !in selected || c.version > selected[c.logical].0 then selected[c.logical := (c.version, entry)] else selected
  }

  /** A winner of a shorter list keeps winning unless the new entry beats it. */
  lemma WinsStill(entries: seq<string>, multiRelease: bool, entry: string, i: nat)
    requires Wins(entries, multiRelease, i)
    requires CandidateOf(entry, multiRelease).Some? && CandidateOf(entry, multiRelease).value.logical ==
               CandidateOf(entries[i], multiRelease).value.logical ==>
               CandidateOf(entry, multiRelease).value.version <= CandidateOf(entries[i], multiRelease).value.version
    ensures Wins(entries + [entry], multiRelease, i) && (entries + [entry])[i] == entries[i]
  {
    hide CandidateOf;
  }

  lemma WinsNow(entries: seq<string>, multiRelease: bool, entry: string)
    requires CandidateOf(entry, multiRelease).Some?
    requires forall i: nat :: Competes(entries, multiRelease, CandidateOf(entry, multiRelease).value.logical, i) ==>
               CandidateOf(entries[i], multiRelease).value.version < CandidateOf(entry, multiRelease).value.version
    ensures Wins(entries + [entry], multiRelease, |entries|)
  {
    hide CandidateOf;
    forall j | 0 <= j < |entries| && CandidateOf(entries[j], multiRelease).Some?
      && CandidateOf(entries[j], multiRelease).value.logical == CandidateOf(entry, multiRelease).value.logical
      ensures CandidateOf(entries[j], multiRelease).value.version < CandidateOf(entry, multiRelease).value.version
    {
      assert Competes(entries, multiRelease, CandidateOf(entry, multiRelease).value.logical, j);
    }
  }

  lemma CompetesBefore(entries: seq<string>, multiRelease: bool, entry: string, logical: string, i: nat)
    requires Competes(entries + [entry], multiRelease, logical, i)
    ensures i == |entries| || Competes(entries, multiRelease, logical, i)
  {
    hide CandidateOf;
    if i < |entries| { assert (entries + [entry])[i] == entries[i]; }
  }

  lemma OfferKeepsOthers(entries: seq<string>, multiRelease: bool, selected: map<string, (nat, string)>, entry: string, logical: string)
    requires BestSoFar(entries, multiRelease, selected) && logical in selected
    requires CandidateOf(entry, multiRelease).Some? && CandidateOf(entry, multiRelease).value.logical == logical ==>
               CandidateOf(entry, multiRelease).value.version <= selected[logical].0
    ensures HasWinner(entries + [entry], multiRelease, logical, selected[logical])
  {
    hide CandidateOf;
    var i: nat :| WonBy(entries, multiRelease, logical, selected[logical].1, i)
      && CandidateOf(entries[i], multiRelease).value.version == selected[logical].0;
    WinsStill(entries, multiRelease, entry, i);
    assert WonBy(entries + [entry], multiRelease, logical, selected[logical].1, i);
  }

  lemma OfferKeepsBest(entries: seq<string>, multiRelease: bool, selected: map<string, (nat, string)>, entry: string)
    requires BestSoFar(entries, multiRelease, selected) && CandidateOf(entry, multiRelease).Some?
    ensures BestSoFar(entries + [entry], multiRelease, Offer(selected, CandidateOf(entry, multiRelease).value, entry))
  {
    hide CandidateOf, Wins, Competes, WonBy, HasWinner;
    var c := CandidateOf(entry, multiRelease).value;
    var (more, offered) := (entries + [entry], Offer(selected, c, entry));
    forall logical | logical in offered
      ensures HasWinner(more, multiRelease, logical, offered[logical])
    {
      if logical == c.logical && (c.logical !in selected || c.version > selected[c.logical].0) {
        NewestWins(entries, multiRelease, selected, entry);
      } else {
        OfferKeepsOthers(entries, multiRelease, selected, entry, logical);
      }
    }
    forall logical, i: nat | Competes(more, multiRelease, logical, i) ensures logical in offered {
      CompetesBefore(entries, multiRelease, entry, logical, i);
      CompetesFor(more, multiRelease, logical, i);
    }
  }

  lemma CompetesFor(entries: seq<string>, multiRelease: bool, logical: string, i: nat)
    requires Competes(entries, multiRelease, logical, i)
    ensures i < |entries| && CandidateOf(entries[i], multiRelease).Some?
    ensures CandidateOf(entries[i], multiRelease).value.logical == logical
  {}

  lemma NewestWins(entries: seq<string>, multiRelease: bool, selected: map<string, (nat, string)>, entry: string)
    requires BestSoFar(entries, multiRelease, selected) && CandidateOf(entry, multiRelease).Some?
    requires var c := CandidateOf(entry, multiRelease).value;
      c.logical !in selected || c.version > selected[c.logical].0
    ensures var c := CandidateOf(entry, multiRelease).value;
      HasWinner(entries + [entry], multiRelease, c.logical, (c.version, entry))
  {
    hide CandidateOf;
    var c := CandidateOf(entry, multiRelease).value;
    forall j: nat | Competes(entries, multiRelease, c.logical, j)
      ensures CandidateOf(entries[j], multiRelease).value.version < c.version
    {
      var i: nat :| WonBy(entries, multiRelease, c.logical, selected[c.logical].1, i)
        && CandidateOf(entries[i], multiRelease).value.version == selected[c.logical].0;
    }
    WinsNow(entries, multiRelease, entry);
    assert WonBy(entries + [entry], multiRelease, c.logical, entry, |entries|);
  }

  lemma SkipKeepsBest(entries: seq<string>, multiRelease: bool, selected: map<string, (nat, string)>, entry: string)
    requires BestSoFar(entries, multiRelease, selected) && CandidateOf(entry, multiRelease).None?
    ensures BestSoFar(entries + [entry], multiRelease, selected)
  {
    hide CandidateOf, Wins, WonBy, Competes, HasWinner;
    forall logical | logical in selected
      ensures HasWinner(entries + [entry], multiRelease, logical, selected[logical])
    {
      OfferKeepsOthers(entries, multiRelease, selected, entry, logical);
    }
    forall logical, i: nat | Competes(entries + [entry], multiRelease, logical, i) ensures logical in selected {
      CompetesBefore(entries, multiRelease, entry, logical, i);
      CompetesFor(entries + [entry], multiRelease, logical, i);
    }
  }

  method EffectiveClassEntries(entries: seq<string>, multiRelease: bool) returns (effective: map<string, string>)
    ensures Effective(entries, multiRelease, effective)
  {
    hide CandidateOf, Wins, WonBy, Competes, BestSoFar;
    var selected: map<string, (nat, string)> := map[];
    NothingSelected(multiRelease);
    assert entries[..0] == [];
    for i := 0 to |entries|
      invariant BestSoFar(entries[..i], multiRelease, selected)
    {
      assert entries[..i + 1] == entries[..i] + [entries[i]];
      var candidate := CandidateOf(entries[i], multiRelease);
      if candidate.None? {
        SkipKeepsBest(entries[..i], multiRelease, selected, entries[i]);
        continue;
      }
      OfferKeepsBest(entries[..i], multiRelease, selected, entries[i]);
      var (version, logical) := (candidate.value.version, candidate.value.logical);
      if logical !in selected {
        selected := selected[logical := (version, entries[i])];
      } else if version > selected[logical].0 {
        selected := selected[logical := (version, entries[i])];
      }
    }
    assert entries[..|entries|] == entries;
    effective := map logical | logical in selected :: selected[logical].1;
    BestIsEffective(entries, multiRelease, selected, effective);
  }

  lemma NothingSelected(multiRelease: bool)
    ensures BestSoFar([], multiRelease, map[])
  {}

  lemma BestIsEffective(entries: seq<string>, multiRelease: bool, selected: map<string, (nat, string)>, effective: map<string, string>)
    requires BestSoFar(entries, multiRelease, selected)
    requires effective == map logical | logical in selected :: selected[logical].1
    ensures Effective(entries, multiRelease, effective)
  {
    hide CandidateOf, Wins, WonBy, Competes;
  }

  // ----- class names -----

  function Dotted(name: string): string {
    if name == "" then "" else [if name[0] == '/' then '.' else name[0]] + Dotted(name[1..])
  }

  function ClassName(logical: string): Option<string> {
    if !EndsWith(logical, ".class") then None
    else
      var name := logical[..|logical| - 6];
      if name == "module-info" || EndsWith(name, "/module-info") || EndsWith(name, "package-info") then None
      else Some(Dotted(name))
  }

  function ClassNames(logicals: set<string>): set<string> {
    set logical | logical in logicals && ClassName(logical).Some? :: ClassName(logical).value
  }

  /** Packages are told by dots in a class name, by slashes in its entry. */
  predicate Spells(name: string, path: string) {
    |name| == |path| && forall i :: 0 <= i < |path| ==> name[i] == if path[i] == '/' then '.' else path[i]
  }

  lemma {:induction false} DottedSpells(path: string)
    ensures Spells(Dotted(path), path)
  {
    if path != "" {
      DottedSpells(path[1..]);
      assert Spells(Dotted(path[1..]), path[1..]);
      forall i | 0 < i < |path| ensures Dotted(path)[i] == if path[i] == '/' then '.' else path[i] {
        assert path[i] == path[1..][i - 1] && Dotted(path)[i] == Dotted(path[1..])[i - 1];
      }
    }
  }

  /** Every classfile path spells the name of its class, but for descriptors of modules and packages. */
  lemma ClassNameIff(logical: string, name: string)
    ensures ClassName(logical) == Some(name) <==>
              exists path :: logical == path + ".class" && Spells(name, path)
                && path != "module-info" && !EndsWith(path, "/module-info") && !EndsWith(path, "package-info")
  {
    if EndsWith(logical, ".class") {
      var path := logical[..|logical| - 6];
      assert logical == path + ".class";
      DottedSpells(path);
      if Spells(name, path) { assert name == Dotted(path); }
    }
    forall path | logical == path + ".class" ensures EndsWith(logical, ".class") && path == logical[..|logical| - 6] {
      assert logical[|logical| - 6..] == ".class";
    }
  }
}
