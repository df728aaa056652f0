/** Counting shared objects exactly once: an object is either stored under a key of the cache
    or listed as released, and it counts while somebody still holds it. */
module Ledger {
  type Id = nat

  /** A shared object and the bytes it was charged with. */
  datatype Slot = Slot(id: Id, bytes: nat)

  ghost function SumMap<K, V>(m: map<K, V>, weight: V -> nat): nat
    decreases |m|
  {
    if m == map[] then 0
    else
      var k :| k in m;
      weight(m[k]) + SumMap(m - {k}, weight)
  }

  lemma {:induction false} SumMapRemove<K, V>(m: map<K, V>, weight: V -> nat, key: K)
    requires key in m
    ensures SumMap(m, weight) == weight(m[key]) + SumMap(m - {key}, weight)
    decreases |m|
  {
    var k :| k in m && SumMap(m, weight) == weight(m[k]) + SumMap(m - {k}, weight);
    if k != key {
      SumMapRemove(m - {k}, weight, key);
      SumMapRemove(m - {key}, weight, k);
      assert m - {k} - {key} == m - {key} - {k};
    }
  }

  function SumSeq(slots: seq<Slot>, weight: Slot -> nat): nat {
    if slots == [] then 0 else weight(slots[0]) + SumSeq(slots[1..], weight)
  }

  lemma {:induction false} SumSeqAppend(slots: seq<Slot>, last: Slot, weight: Slot -> nat)
    ensures SumSeq(slots + [last], weight) == SumSeq(slots, weight) + weight(last)
  {
    if slots != [] {
      assert (slots + [last])[1..] == slots[1..] + [last];
      SumSeqAppend(slots[1..], last, weight);
    }
  }

  /** The released objects somebody still holds. */
  function Live(released: seq<Slot>, held: set<Id>): (live: seq<Slot>)
    ensures forall slot :: slot in live <==> slot in released && slot.id in held
  {
    if released == [] then []
    else (if released[0].id in held then [released[0]] else []) + Live(released[1..], held)
  }

  ghost predicate DistinctIds(slots: seq<Slot>) {
    forall i, j :: 0 <= i < j < |slots| ==> slots[i].id != slots[j].id
  }

  lemma {:induction false} LiveStaysDistinct(released: seq<Slot>, held: set<Id>)
    requires DistinctIds(released)
    ensures DistinctIds(Live(released, held))
  {
    if released != [] {
      LiveStaysDistinct(released[1..], held);
    }
  }

  /** Pruning twice with fewer holders is pruning once with the fewer holders. */
  lemma {:induction false} LiveOfLive(released: seq<Slot>, held: set<Id>, fewer: set<Id>)
    requires fewer <= held
    ensures Live(Live(released, held), fewer) == Live(released, fewer)
  {
    if released != [] {
      LiveOfLive(released[1..], held, fewer);
      var head := if released[0].id in held then [released[0]] else [];
      if head == [] {
        assert Live(released, held) == Live(released[1..], held);
      } else {
        assert Live(released, held)[0] == released[0] && Live(released, held)[1..] == Live(released[1..], held);
      }
    }
  }

  lemma {:induction false} LiveAppend(released: seq<Slot>, last: Slot, held: set<Id>)
    ensures Live(released + [last], held) == Live(released, held) + (if last.id in held then [last] else [])
  {
    if released == [] {
      assert [last][1..] == [];
    } else {
      assert (released + [last])[1..] == released[1..] + [last];
      LiveAppend(released[1..], last, held);
    }
  }

  /** Every object ever handed to the cache (`known`) that is still referenced sits in exactly
      one place, with the bytes it was charged with. */
  ghost predicate Exact<K(!new)>(cached: map<K, Slot>, released: seq<Slot>, known: map<Id, Slot>, held: set<Id>) {
    && (forall k :: k in cached ==> cached[k].id in known && known[cached[k].id] == cached[k])
    && (forall k, l :: k in cached && l in cached && k != l ==> cached[k].id != cached[l].id)
    && (forall i :: 0 <= i < |released| ==> released[i].id in known && known[released[i].id] == released[i])
    && DistinctIds(released)
    && (forall i, k :: 0 <= i < |released| && k in cached ==> released[i].id != cached[k].id)
    && (forall id :: id in known && id in held ==>
          id in CachedIds(cached) || Listed(released, id))
  }

  function CachedIds<K>(cached: map<K, Slot>): set<Id> {
    set k | k in cached :: cached[k].id
  }

  /** The objects of `known` that are still in memory. */
  ghost function Referenced<K>(cached: map<K, Slot>, known: map<Id, Slot>, held: set<Id>): map<Id, Slot> {
    map id | id in known && (id in held || id in CachedIds(cached)) :: known[id]
  }

  ghost predicate Listed(slots: seq<Slot>, id: Id) {
    exists i :: 0 <= i < |slots| && slots[i].id == id
  }

  /** `cached` and `live` split the objects of `all` between them. */
  ghost predicate Partition<K(!new)>(cached: map<K, Slot>, live: seq<Slot>, all: map<Id, Slot>) {
    && (forall k :: k in cached ==> cached[k].id in all && all[cached[k].id] == cached[k])
    && (forall k, l :: k in cached && l in cached && k != l ==> cached[k].id != cached[l].id)
    && (forall i :: 0 <= i < |live| ==> live[i].id in all && all[live[i].id] == live[i])
    && DistinctIds(live)
    && (forall i, k :: 0 <= i < |live| && k in cached ==> live[i].id != cached[k].id)
    && (forall id :: id in all ==> id in CachedIds(cached) || Listed(live, id))
  }

  lemma PartitionWithoutKey<K(!new)>(cached: map<K, Slot>, live: seq<Slot>, all: map<Id, Slot>, k: K)
    requires Partition(cached, live, all) && k in cached
    ensures Partition(cached - {k}, live, all - {cached[k].id})
  {
    forall id | id in all - {cached[k].id} && !Listed(live, id) ensures id in CachedIds(cached - {k}) {
      var l :| l in cached && cached[l].id == id;
      assert l in cached - {k} && (cached - {k})[l].id == id;
    }
  }

  lemma PartitionWithoutHead<K(!new)>(cached: map<K, Slot>, live: seq<Slot>, all: map<Id, Slot>)
    requires Partition(cached, live, all) && live != []
    ensures Partition(cached, live[1..], all - {live[0].id})
  {
    forall id | id in all - {live[0].id} && id !in CachedIds(cached) ensures Listed(live[1..], id) {
      var i :| 0 <= i < |live| && live[i].id == id;
      assert live[1..][i - 1].id == id;
    }
  }

  lemma {:induction false} PartitionSum<K(!new)>(cached: map<K, Slot>, live: seq<Slot>, all: map<Id, Slot>, weight: Slot -> nat)
    requires Partition(cached, live, all)
    ensures SumMap(cached, weight) + SumSeq(live, weight) == SumMap(all, weight)
    decreases |cached| + |live|
  {
    if cached != map[] {
      var k :| k in cached;
      SumMapRemove(cached, weight, k);
      SumMapRemove(all, weight, cached[k].id);
      PartitionWithoutKey(cached, live, all, k);
      PartitionSum(cached - {k}, live, all - {cached[k].id}, weight);
    } else if live != [] {
      SumMapRemove(all, weight, live[0].id);
      PartitionWithoutHead(cached, live, all);
      PartitionSum(cached, live[1..], all - {live[0].id}, weight);
    } else {
      assert forall id :: id in all ==> Listed(live, id);
      assert all == map[];
    }
  }

  /** What the cache adds up is exactly what is in memory: nothing twice, nothing forgotten. */
  lemma ExactCountsEachOnce<K(!new)>(cached: map<K, Slot>, released: seq<Slot>, known: map<Id, Slot>, held: set<Id>, weight: Slot -> nat)
    requires Exact(cached, released, known, held)
    ensures SumMap(cached, weight) + SumSeq(Live(released, held), weight) == SumMap(Referenced(cached, known, held), weight)
  {
    var live, all := Live(released, held), Referenced(cached, known, held);
    LiveStaysDistinct(released, held);
    forall i | 0 <= i < |live| ensures live[i] in released && live[i].id in held { assert live[i] in live; }
    forall k | k in cached ensures cached[k].id in all { assert cached[k].id in CachedIds(cached); }
    forall id | id in all && id !in CachedIds(cached) ensures Listed(live, id) {
      var i :| 0 <= i < |released| && released[i].id == id;
      assert released[i] in live;
    }
    PartitionSum(cached, live, all, weight);
  }

  // ----- what keeps the count exact -----

  lemma PruneKeepsExact<K(!new)>(cached: map<K, Slot>, released: seq<Slot>, known: map<Id, Slot>, held: set<Id>)
    requires Exact(cached, released, known, held)
    ensures Exact(cached, Live(released, held + CachedIds(cached)), known, held)
  {
    var live := Live(released, held + CachedIds(cached));
    LiveStaysDistinct(released, held + CachedIds(cached));
    forall i | 0 <= i < |live| ensures live[i] in released { assert live[i] in live; }
    forall id | id in known && id in held && id !in CachedIds(cached) ensures Listed(live, id) {
      var i :| 0 <= i < |released| && released[i].id == id;
      assert released[i] in live;
    }
  }

  lemma ReleaseKeepsExact<K(!new)>(cached: map<K, Slot>, released: seq<Slot>, known: map<Id, Slot>, held: set<Id>, k: K)
    requires Exact(cached, released, known, held) && k in cached
    ensures Exact(cached - {k}, released + [cached[k]], known, held)
  {
    var rest, longer := cached - {k}, released + [cached[k]];
    forall id | id in known && id in held ensures id in CachedIds(rest) || Listed(longer, id) {
      if id in CachedIds(cached) {
        var l :| l in cached && cached[l].id == id;
        if l != k {
          assert rest[l].id == id;
        } else {
          assert longer[|released|].id == id;
        }
      } else {
        var i :| 0 <= i < |released| && released[i].id == id;
        assert longer[i].id == id;
      }
    }
  }

  /** A fresh object stored under a free key. */
  lemma StoreKeepsExact<K(!new)>(cached: map<K, Slot>, released: seq<Slot>, known: map<Id, Slot>, held: set<Id>, k: K, slot: Slot)
    requires Exact(cached, released, known, held) && k !in cached && slot.id !in known
    ensures Exact(cached[k := slot], released, known[slot.id := slot], held)
  {
    var more := cached[k := slot];
    forall id | id in known[slot.id := slot] && id in held && !Listed(released, id) ensures id in CachedIds(more) {
      if id == slot.id {
        assert more[k].id == id;
      } else {
        var l :| l in cached && cached[l].id == id;
        assert more[l].id == id;
      }
    }
  }

  /** A fresh object that is only listed. */
  lemma ListKeepsExact<K(!new)>(cached: map<K, Slot>, released: seq<Slot>, known: map<Id, Slot>, held: set<Id>, slot: Slot)
    requires Exact(cached, released, known, held) && slot.id !in known
    ensures Exact(cached, released + [slot], known[slot.id := slot], held)
  {
    var longer := released + [slot];
    forall id | id in known[slot.id := slot] && id in held && id !in CachedIds(cached) ensures Listed(longer, id) {
      if id == slot.id {
        assert longer[|released|].id == id;
      } else {
        var i :| 0 <= i < |released| && released[i].id == id;
        assert longer[i].id == id;
      }
    }
  }

  /** Holders may drop references, or clone one that the cache or another holder still has. */
  lemma HoldersKeepExact<K(!new)>(cached: map<K, Slot>, released: seq<Slot>, known: map<Id, Slot>, held: set<Id>, now: set<Id>)
    requires Exact(cached, released, known, held)
    requires forall id :: id in now && id in known ==> id in held || id in CachedIds(cached)
    ensures Exact(cached, released, known, now)
  {
  }

  /** A fresh object stored over a cached one, which is then forgotten. */
  lemma OverwriteForgets<K(!new)>(cached: map<K, Slot>, released: seq<Slot>, known: map<Id, Slot>, held: set<Id>, k: K, slot: Slot)
    requires Exact(cached, released, known, held) && k in cached && slot.id !in known
    ensures Exact(cached[k := slot], released, (known - {cached[k].id})[slot.id := slot], held)
  {
    var more := cached[k := slot];
    forall id | id in (known - {cached[k].id})[slot.id := slot] && id in held && !Listed(released, id) ensures id in CachedIds(more) {
      if id == slot.id {
        assert more[k].id == id;
      } else {
        var l :| l in cached && cached[l].id == id;
        assert more[l].id == id;
      }
    }
  }

  /** An object that was forgotten may be remembered exactly if nobody holds it. */
  lemma RememberIsExactIffUnheld<K(!new)>(cached: map<K, Slot>, released: seq<Slot>, known: map<Id, Slot>, held: set<Id>, slot: Slot)
    requires Exact(cached, released, known, held) && slot.id !in known
    ensures Exact(cached, released, known[slot.id := slot], held) <==> slot.id !in held
  {
    assert slot.id !in CachedIds(cached);
    assert !Listed(released, slot.id);
  }

  /** Overwriting a cached object without listing it stays exact exactly if nobody holds it. */
  lemma OverwriteIsExactIffUnheld<K(!new)>(cached: map<K, Slot>, released: seq<Slot>, known: map<Id, Slot>, held: set<Id>, k: K, slot: Slot)
    requires Exact(cached, released, known, held) && k in cached && slot.id !in known
    ensures Exact(cached[k := slot], released, known[slot.id := slot], held) <==> cached[k].id !in held
  {
    OverwriteForgets(cached, released, known, held, k, slot);
    var rest := (known - {cached[k].id})[slot.id := slot];
    RememberIsExactIffUnheld(cached[k := slot], released, rest, held, cached[k]);
    assert rest[cached[k].id := cached[k]] == known[slot.id := slot];
  }

  // ----- sums of parts -----

  lemma WithoutOther(some: map<Id, Slot>, others: map<Id, Slot>, id: Id)
    requires id in others && id !in some
    ensures some + others - {id} == some + (others - {id}) && (some + others)[id] == others[id]
    ensures |others - {id}| < |others|
  {
    assert others.Keys == (others - {id}).Keys + {id};
    assert |others.Keys| == |others| && |(others - {id}).Keys| == |others - {id}|;
  }

  lemma {:induction false} SumOfDisjoint(some: map<Id, Slot>, others: map<Id, Slot>, weight: Slot -> nat)
    requires some.Keys !! others.Keys
    ensures SumMap(some + others, weight) == SumMap(some, weight) + SumMap(others, weight)
    decreases |others|
  {
    if others == map[] {
      assert some + others == some;
    } else {
      hide SumMap;
      var id :| id in others;
      SumMapRemove(others, weight, id);
      SumMapRemove(some + others, weight, id);
      WithoutOther(some, others, id);
      SumOfDisjoint(some, others - {id}, weight);
    }
  }

  lemma {:induction false} SumIsZeroIff(slots: map<Id, Slot>, weight: Slot -> nat)
    ensures SumMap(slots, weight) == 0 <==> forall id :: id in slots ==> weight(slots[id]) == 0
    decreases |slots|
  {
    if slots != map[] {
      var id :| id in slots;
      SumMapRemove(slots, weight, id);
      SumIsZeroIff(slots - {id}, weight);
      assert forall other :: other in slots <==> other == id || other in slots - {id};
    }
  }

  /** Fewer slots weigh no more. */
  lemma SumOfFewer(fewer: map<Id, Slot>, slots: map<Id, Slot>, weight: Slot -> nat)
    requires forall id :: id in fewer ==> id in slots && slots[id] == fewer[id]
    ensures SumMap(fewer, weight) <= SumMap(slots, weight)
  {
    var rest := slots - fewer.Keys;
    SumOfDisjoint(fewer, rest, weight);
    assert slots == fewer + rest;
  }
}
