/** The shared strings of one indexed archive: every distinct name is stored once and referred to by its number. */
module FactStrings {
  import opened Common
  import opened Sorting

  const MAX_U32 := 4294967295

  datatype TypeRelation = Extends | Implements

  datatype ReferenceKind = ClassReference | FieldReference | MethodReference | InterfaceMethodReference

  datatype Parent<T> = Parent(parent: T, relation: TypeRelation)

  datatype Reference<T> = Reference(owner: T, name: Option<T>, descriptor: Option<T>, kind: ReferenceKind)

  /** The facts of one class, its names either spelled out or as string ids. */
  datatype ClassFacts<T> = ClassFacts(sourceClass: T, sourceFile: Option<T>, parents: seq<Parent<T>>, references: seq<Reference<T>>)

  // ----- what ids mean -----

  predicate InRange(strings: seq<string>, id: nat) { 1 <= id <= |strings| }

  predicate OptionalInRange(strings: seq<string>, id: Option<nat>) { id.Some? ==> InRange(strings, id.value) }

  predicate ValidFacts(strings: seq<string>, f: ClassFacts<nat>) {
    && InRange(strings, f.sourceClass) && OptionalInRange(strings, f.sourceFile)
    && (forall i :: 0 <= i < |f.parents| ==> InRange(strings, f.parents[i].parent))
    && (forall i :: 0 <= i < |f.references| ==>
          && InRange(strings, f.references[i].owner)
          && OptionalInRange(strings, f.references[i].name) && OptionalInRange(strings, f.references[i].descriptor))
  }

  predicate Names(strings: seq<string>, id: nat, name: string) {
    InRange(strings, id) && strings[id - 1] == name
  }

  predicate NamesOptional(strings: seq<string>, id: Option<nat>, name: Option<string>) {
    if name.None? then id.None? else id.Some? && Names(strings, id.value, name.value)
  }

  predicate NamesParent(strings: seq<string>, id: Parent<nat>, name: Parent<string>) {
    Names(strings, id.parent, name.parent) && id.relation == name.relation
  }

  /** One id behind the other, in the order of the names. */
  predicate NamesParents(strings: seq<string>, ids: seq<Parent<nat>>, names: seq<Parent<string>>) {
    |ids| == |names| && forall i :: 0 <= i < |names| ==> NamesParent(strings, ids[i], names[i])
  }

  predicate NamesReference(strings: seq<string>, id: Reference<nat>, name: Reference<string>) {
    && Names(strings, id.owner, name.owner) && NamesOptional(strings, id.name, name.name)
    && NamesOptional(strings, id.descriptor, name.descriptor) && id.kind == name.kind
  }

  predicate NamesReferences(strings: seq<string>, ids: seq<Reference<nat>>, names: seq<Reference<string>>) {
    |ids| == |names| && forall i :: 0 <= i < |names| ==> NamesReference(strings, ids[i], names[i])
  }

  // ----- the stored order -----

  function OptionRank(id: Option<nat>): nat { match id case None => 0 case Some(n) => n + 1 }

  function RelationRank(r: TypeRelation): nat { if r == Extends then 0 else 1 }

  function KindRank(k: ReferenceKind): nat {
    match k case ClassReference => 0 case FieldReference => 1 case MethodReference => 2 case InterfaceMethodReference => 3
  }

  function ParentRank(p: Parent<nat>): seq<nat> { [p.parent, RelationRank(p.relation)] }

  function ReferenceRank(r: Reference<nat>): seq<nat> {
    [r.owner, OptionRank(r.name), OptionRank(r.descriptor), KindRank(r.kind)]
  }

  lemma RanksIdentify()
    ensures Identifies(ParentRank, 2) && Identifies(ReferenceRank, 4)
  {
    forall p, q | ParentRank(p) == ParentRank(q) ensures p == q {
      assert ParentRank(p)[0] == ParentRank(q)[0] && ParentRank(p)[1] == ParentRank(q)[1];
    }
    forall p, q | ReferenceRank(p) == ReferenceRank(q) ensures p == q {
      assert ReferenceRank(p)[0] == ReferenceRank(q)[0] && ReferenceRank(p)[1] == ReferenceRank(q)[1];
      assert ReferenceRank(p)[2] == ReferenceRank(q)[2] && ReferenceRank(p)[3] == ReferenceRank(q)[3];
    }
  }

  /** The ids name exactly the given names, whatever their order and repetitions. */
  ghost predicate SameParents(strings: seq<string>, ids: seq<Parent<nat>>, names: seq<Parent<string>>) {
    Matched(ids, names, (p, q) => NamesParent(strings, p, q))
  }

  ghost predicate SameReferences(strings: seq<string>, ids: seq<Reference<nat>>, names: seq<Reference<string>>) {
    Matched(ids, names, (p, q) => NamesReference(strings, p, q))
  }

  /** Parents and references are stored in increasing order, each once. */
  ghost predicate NamesFacts(strings: seq<string>, ids: ClassFacts<nat>, names: ClassFacts<string>) {
    && Names(strings, ids.sourceClass, names.sourceClass) && NamesOptional(strings, ids.sourceFile, names.sourceFile)
    && SameParents(strings, ids.parents, names.parents) && Increasing(ids.parents, ParentRank)
    && SameReferences(strings, ids.references, names.references) && Increasing(ids.references, ReferenceRank)
  }

  lemma SortedNameTheSame(strings: seq<string>, ids: seq<Parent<nat>>, names: seq<Parent<string>>)
    requires NamesParents(strings, ids, names)
    ensures SameParents(strings, SortUnique(ids, ParentRank), names) && Increasing(SortUnique(ids, ParentRank), ParentRank)
    ensures SortUnique(ids, ParentRank) == [] <==> names == []
  {
    hide SortUnique, NamesParent, ParentRank, Identifies, Increasing;
    RanksIdentify();
    SortUniqueSorts(ids, ParentRank, 2);
    SortedStayMatched(ids, names, (p, q) => NamesParent(strings, p, q), ParentRank, 2);
  }

  lemma SortedReferToTheSame(strings: seq<string>, ids: seq<Reference<nat>>, names: seq<Reference<string>>)
    requires NamesReferences(strings, ids, names)
    ensures SameReferences(strings, SortUnique(ids, ReferenceRank), names) && Increasing(SortUnique(ids, ReferenceRank), ReferenceRank)
    ensures SortUnique(ids, ReferenceRank) == [] <==> names == []
  {
    hide SortUnique, NamesReference, ReferenceRank, Identifies, Increasing;
    RanksIdentify();
    SortUniqueSorts(ids, ReferenceRank, 4);
    SortedStayMatched(ids, names, (p, q) => NamesReference(strings, p, q), ReferenceRank, 4);
  }

  ghost predicate NamesAll(strings: seq<string>, ids: seq<ClassFacts<nat>>, names: seq<ClassFacts<string>>) {
    |ids| == |names| && forall i :: 0 <= i < |names| ==> NamesFacts(strings, ids[i], names[i])
  }

  lemma ParentIsValid(strings: seq<string>, ids: seq<Parent<nat>>, names: seq<Parent<string>>, p: Parent<nat>)
    requires SameParents(strings, ids, names) && p in ids
    ensures InRange(strings, p.parent)
  {
    hide Matched;
    var q := TakeMatch(ids, names, (p, q) => NamesParent(strings, p, q), p);
  }

  lemma ReferenceIsValid(strings: seq<string>, ids: seq<Reference<nat>>, names: seq<Reference<string>>, p: Reference<nat>)
    requires SameReferences(strings, ids, names) && p in ids
    ensures InRange(strings, p.owner) && OptionalInRange(strings, p.name) && OptionalInRange(strings, p.descriptor)
  {
    hide Matched;
    var q := TakeMatch(ids, names, (p, q) => NamesReference(strings, p, q), p);
  }

  lemma NamedIsValid(strings: seq<string>, ids: ClassFacts<nat>, names: ClassFacts<string>)
    requires NamesFacts(strings, ids, names)
    ensures ValidFacts(strings, ids)
  {
    hide Increasing, SameParents, SameReferences;
    forall i | 0 <= i < |ids.parents| ensures InRange(strings, ids.parents[i].parent) {
      ParentIsValid(strings, ids.parents, names.parents, ids.parents[i]);
    }
    forall i | 0 <= i < |ids.references|
      ensures InRange(strings, ids.references[i].owner)
        && OptionalInRange(strings, ids.references[i].name) && OptionalInRange(strings, ids.references[i].descriptor)
    {
      ReferenceIsValid(strings, ids.references, names.references, ids.references[i]);
    }
  }

  lemma NameKept(strings: seq<string>, more: seq<string>, id: Reference<nat>, name: Reference<string>)
    requires strings <= more && NamesReference(strings, id, name)
    ensures NamesReference(more, id, name)
  {}

  /** Ids keep their names when strings are added. */
  lemma NamesKept(strings: seq<string>, more: seq<string>, ids: ClassFacts<nat>, names: ClassFacts<string>)
    requires strings <= more && NamesFacts(strings, ids, names)
    ensures NamesFacts(more, ids, names)
  {
    SameParentsKept(strings, more, ids.parents, names.parents);
    SameReferencesKept(strings, more, ids.references, names.references);
    hide SameParents, SameReferences, Increasing;
  }

  lemma SameParentsKept(strings: seq<string>, more: seq<string>, ids: seq<Parent<nat>>, names: seq<Parent<string>>)
    requires strings <= more && SameParents(strings, ids, names)
    ensures SameParents(more, ids, names)
  {
    hide Matched;
    MatchedByMore(ids, names, (p, q) => NamesParent(strings, p, q), (p, q) => NamesParent(more, p, q));
  }

  lemma SameReferencesKept(strings: seq<string>, more: seq<string>, ids: seq<Reference<nat>>, names: seq<Reference<string>>)
    requires strings <= more && SameReferences(strings, ids, names)
    ensures SameReferences(more, ids, names)
  {
    hide Matched, NamesReference;
    AllNamesKept(strings, more);
    MatchedByMore(ids, names, (p, q) => NamesReference(strings, p, q), (p, q) => NamesReference(more, p, q));
  }

  lemma AllNamesKept(strings: seq<string>, more: seq<string>)
    requires strings <= more
    ensures forall p, q :: NamesReference(strings, p, q) ==> NamesReference(more, p, q)
  {
    forall p, q | NamesReference(strings, p, q) ensures NamesReference(more, p, q) {
      NameKept(strings, more, p, q);
    }
  }

  lemma ParentsKept(strings: seq<string>, more: seq<string>, ids: seq<Parent<nat>>, names: seq<Parent<string>>)
    requires strings <= more && NamesParents(strings, ids, names)
    ensures NamesParents(more, ids, names)
  {
    forall i | 0 <= i < |names| ensures NamesParent(more, ids[i], names[i]) {
      assert NamesParent(strings, ids[i], names[i]);
    }
  }

  lemma ReferencesKept(strings: seq<string>, more: seq<string>, ids: seq<Reference<nat>>, names: seq<Reference<string>>)
    requires strings <= more && NamesReferences(strings, ids, names)
    ensures NamesReferences(more, ids, names)
  {
    forall i | 0 <= i < |names| ensures NamesReference(more, ids[i], names[i]) {
      NameKept(strings, more, ids[i], names[i]);
    }
  }

  lemma AllKept(strings: seq<string>, more: seq<string>, ids: seq<ClassFacts<nat>>, names: seq<ClassFacts<string>>)
    requires strings <= more && NamesAll(strings, ids, names)
    ensures NamesAll(more, ids, names)
  {
    forall i | 0 <= i < |names| ensures NamesFacts(more, ids[i], names[i]) {
      NamesKept(strings, more, ids[i], names[i]);
    }
  }

  // ----- interning -----

  predicate Distinct(strings: seq<string>) { forall i, j :: 0 <= i < j < |strings| ==> strings[i] != strings[j] }

  class FactStringPool {
    var ids: map<string, nat>
    var values: seq<string>

    ghost predicate Valid() reads this {
      && Distinct(values)
      && (forall i :: 0 <= i < |values| ==> values[i] in ids)
      && (forall v :: v in ids ==> Names(values, ids[v], v))
    }

    constructor ()
      ensures Valid() && values == []
    {
      ids, values := map[], [];
    }

    /** Ids are 32-bit numbers from one on. */
    method Intern(value: string) returns (id: nat)
      requires Valid() && (value !in values ==> |values| < MAX_U32)
      modifies this
      ensures Valid() && Names(values, id, value)
      ensures values == if value in old(values) then old(values) else old(values) + [value]
    {
      if value in ids {
        return ids[value];
      }
      id := |values| + 1;
      ids := ids[value := id];
      values := values + [value];
    }

    method InternOptional(value: Option<string>) returns (id: Option<nat>)
      requires Valid() && |values| < MAX_U32
      modifies this
      ensures Valid() && old(values) <= values && |values| <= |old(values)| + 1 && NamesOptional(values, id, value)
    {
      if value.None? {
        return None;
      }
      var raw := Intern(value.value);
      return Some(raw);
    }

    method InternParents(parents: seq<Parent<string>>) returns (interned: seq<Parent<nat>>)
      requires Valid() && |values| + |parents| < MAX_U32
      modifies this
      ensures Valid() && old(values) <= values && |values| <= |old(values)| + |parents|
      ensures NamesParents(values, interned, parents)
    {
      hide Distinct, Names;
      interned := [];
      for i := 0 to |parents|
        invariant Valid() && old(values) <= values && |values| <= |old(values)| + i
        invariant NamesParents(values, interned, parents[..i])
      {
        ghost var before := values;
        var id := Intern(parents[i].parent);
        ParentsKept(before, values, interned, parents[..i]);
        assert parents[..i + 1] == parents[..i] + [parents[i]];
        interned := interned + [Parent(id, parents[i].relation)];
      }
      assert parents[..|parents|] == parents;
    }

    method InternReference(reference: Reference<string>) returns (interned: Reference<nat>)
      requires Valid() && |values| + 3 < MAX_U32
      modifies this
      ensures Valid() && old(values) <= values && |values| <= |old(values)| + 3
      ensures NamesReference(values, interned, reference)
    {
      hide Distinct;
      var owner := Intern(reference.owner);
      var name := InternOptional(reference.name);
      var descriptor := InternOptional(reference.descriptor);
      return Reference(owner, name, descriptor, reference.kind);
    }

    method InternReferences(references: seq<Reference<string>>) returns (interned: seq<Reference<nat>>)
      requires Valid() && |values| + 3 * |references| < MAX_U32
      modifies this
      ensures Valid() && old(values) <= values && |values| <= |old(values)| + 3 * |references|
      ensures NamesReferences(values, interned, references)
    {
      hide Distinct, Names, NamesReference;
      interned := [];
      for i := 0 to |references|
        invariant Valid() && old(values) <= values && |values| <= |old(values)| + 3 * i
        invariant NamesReferences(values, interned, references[..i])
      {
        ghost var before := values;
        var reference := InternReference(references[i]);
        ReferencesKept(before, values, interned, references[..i]);
        assert references[..i + 1] == references[..i] + [references[i]];
        interned := interned + [reference];
      }
      assert references[..|references|] == references;
    }

    /** The facts of one class, or nothing when the index keeps none; its name is interned either way. */
    method InternClass(parsed: ClassFacts<string>) returns (collected: Option<ClassFacts<nat>>)
      requires Valid() && |values| + NameCount(parsed) < MAX_U32
      modifies this
      ensures Valid() && old(values) <= values && |values| <= |old(values)| + NameCount(parsed)
      ensures collected.Some? <==> IsKept(parsed)
      ensures collected.Some? ==> NamesFacts(values, collected.value, parsed)
    {
      hide Distinct, NamesFacts, NamesReferences, NamesParents, IsKept, SortUnique;
      var source := Intern(parsed.sourceClass);
      if parsed.sourceClass == "module-info" {
        ModulesAreNotKept(parsed);
        return None;
      }
      ghost var named := values;
      var parents := InternParents(parsed.parents);
      ghost var parented := values;
      var references := InternReferences(parsed.references);
      ghost var referenced := values;
      var file := InternOptional(parsed.sourceFile);
      var facts := ClassFacts(source, file, SortUnique(parents, ParentRank), SortUnique(references, ReferenceRank));
      FactsAreNamed(named, parented, referenced, values, parents, references, facts, parsed);
      return if file.Some? || facts.parents != [] || facts.references != [] then Some(facts) else None;
    }
  }

  /** Names a class can add to the pool. */
  function NameCount(f: ClassFacts<string>): nat {
    2 + |f.parents| + 3 * |f.references|
  }

  function TotalNames(parsed: seq<ClassFacts<string>>): nat {
    if parsed == [] then 0 else TotalNames(parsed[..|parsed| - 1]) + NameCount(parsed[|parsed| - 1])
  }

  /** Classes the index keeps facts of: module descriptors and classes without facts are left out. */
  predicate IsKept(f: ClassFacts<string>) {
    f.sourceClass != "module-info" && (f.sourceFile.Some? || f.parents != [] || f.references != [])
  }

  function Kept(parsed: seq<ClassFacts<string>>): seq<ClassFacts<string>> {
    if parsed == [] then []
    else Kept(parsed[..|parsed| - 1]) + if IsKept(parsed[|parsed| - 1]) then [parsed[|parsed| - 1]] else []
  }

  /** Every class that is no module descriptor and says anything is kept as often as it was parsed, and no other. */
  lemma {:induction false} KeptExactly(parsed: seq<ClassFacts<string>>, f: ClassFacts<string>)
    ensures multiset(Kept(parsed))[f] ==
              if f.sourceClass != "module-info" && (f.sourceFile.Some? || f.parents != [] || f.references != [])
              then multiset(parsed)[f] else 0
  {
    if parsed != [] {
      KeptExactly(parsed[..|parsed| - 1], f);
      assert parsed == parsed[..|parsed| - 1] + [parsed[|parsed| - 1]];
    }
  }

  lemma CollectNext(parsed: seq<ClassFacts<string>>, i: nat)
    requires i < |parsed|
    ensures IsKept(parsed[i]) ==> Kept(parsed[..i + 1]) == Kept(parsed[..i]) + [parsed[i]]
    ensures !IsKept(parsed[i]) ==> Kept(parsed[..i + 1]) == Kept(parsed[..i])
    ensures TotalNames(parsed[..i + 1]) == TotalNames(parsed[..i]) + NameCount(parsed[i])
  {
    assert parsed[..i + 1][..i] == parsed[..i];
  }

  lemma {:induction false} TotalOfPrefix(parsed: seq<ClassFacts<string>>, i: nat)
    requires i <= |parsed|
    ensures TotalNames(parsed[..i]) <= TotalNames(parsed)
    decreases |parsed|
  {
    if i < |parsed| {
      TotalOfPrefix(parsed[..|parsed| - 1], i);
      assert parsed[..|parsed| - 1][..i] == parsed[..i];
    } else {
      assert parsed[..i] == parsed;
    }
  }

  /** The stored ids name exactly what the kept classes said, each string stored once. */
  method CollectFacts(parsed: seq<ClassFacts<string>>) returns (facts: seq<ClassFacts<nat>>, strings: seq<string>)
    requires TotalNames(parsed) < MAX_U32
    ensures NamesAll(strings, facts, Kept(parsed)) && Distinct(strings)
  {
    hide Kept, TotalNames, NameCount, NamesFacts, IsKept, Names;
    var pool := new FactStringPool();
    facts := [];
    NothingParsed(parsed);
    for i := 0 to |parsed|
      invariant fresh(pool) && pool.Valid() && |pool.values| <= TotalNames(parsed[..i])
      invariant NamesAll(pool.values, facts, Kept(parsed[..i]))
    {
      ghost var before := pool.values;
      CollectNext(parsed, i);
      TotalOfPrefix(parsed, i + 1);
      var collected := pool.InternClass(parsed[i]);
      AllKept(before, pool.values, facts, Kept(parsed[..i]));
      if collected.Some? {
        facts := facts + [collected.value];
      }
    }
    assert parsed[..|parsed|] == parsed;
    strings := pool.values;
  }

  lemma NothingParsed(parsed: seq<ClassFacts<string>>)
    ensures Kept(parsed[..0]) == []
  {}

  lemma ModulesAreNotKept(f: ClassFacts<string>)
    requires f.sourceClass == "module-info"
    ensures !IsKept(f)
  {}

  lemma FactsAreNamed(named: seq<string>, parented: seq<string>, referenced: seq<string>, strings: seq<string>,
                      parents: seq<Parent<nat>>, references: seq<Reference<nat>>, ids: ClassFacts<nat>, f: ClassFacts<string>)
    requires named <= parented <= referenced <= strings
    requires f.sourceClass != "module-info"
    requires Names(named, ids.sourceClass, f.sourceClass) && NamesParents(parented, parents, f.parents)
    requires NamesReferences(referenced, references, f.references) && NamesOptional(strings, ids.sourceFile, f.sourceFile)
    requires ids.parents == SortUnique(parents, ParentRank) && ids.references == SortUnique(references, ReferenceRank)
    ensures NamesFacts(strings, ids, f)
    ensures IsKept(f) <==> ids.sourceFile.Some? || ids.parents != [] || ids.references != []
  {
    hide NamesParents, NamesReferences, SameParents, SameReferences, Increasing, SortUnique;
    ParentsKept(parented, strings, parents, f.parents);
    ReferencesKept(referenced, strings, references, f.references);
    SortedNameTheSame(strings, parents, f.parents);
    SortedReferToTheSame(strings, references, f.references);
  }
}
