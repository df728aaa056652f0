/** Keeping the entries of the on-disk index cache within a byte budget. */
module CacheEntries {

  const MAX_I64 := 9223372036854775807

  datatype Entry = Entry(rowid: int, bytes: nat, lastUsed: int)

  predicate UsedBefore(a: Entry, b: Entry) {
    a.lastUsed < b.lastUsed || (a.lastUsed == b.lastUsed && a.rowid < b.rowid)
  }

  predicate OldestFirst(entries: seq<Entry>) {
    forall i, j :: 0 <= i < j < |entries| ==> UsedBefore(entries[i], entries[j])
  }

  function TotalBytes(entries: seq<Entry>): nat {
    if entries == [] then 0 else entries[0].bytes + TotalBytes(entries[1..])
  }

  function Without(entries: seq<Entry>, rowid: int): (rest: seq<Entry>)
    ensures forall e :: e in rest <==> e in entries && e.rowid != rowid
  {
    if entries == [] then []
    else (if entries[0].rowid != rowid then [entries[0]] else []) + Without(entries[1..], rowid)
  }

  predicate DistinctRows(entries: seq<Entry>) {
    forall i, j :: 0 <= i < j < |entries| ==> entries[i].rowid != entries[j].rowid
  }

  lemma {:induction false} WithoutKeepsOrder(entries: seq<Entry>, rowid: int)
    requires OldestFirst(entries) && DistinctRows(entries)
    ensures OldestFirst(Without(entries, rowid)) && DistinctRows(Without(entries, rowid))
    ensures entries != [] && entries[0].rowid == rowid ==> Without(entries, rowid) == entries[1..]
  {
    if entries != [] {
      var (first, rest) := (entries[0], Without(entries[1..], rowid));
      WithoutKeepsOrder(entries[1..], rowid);
      forall i | 0 <= i < |rest| ensures UsedBefore(first, rest[i]) && first.rowid != rest[i].rowid {
        assert rest[i] in rest;
      }
      if first.rowid == rowid { WithoutAbsent(entries[1..], rowid); }
    }
  }

  lemma {:induction false} WithoutAbsent(entries: seq<Entry>, rowid: int)
    requires forall i :: 0 <= i < |entries| ==> entries[i].rowid != rowid
    ensures Without(entries, rowid) == entries
  {
    if entries != [] {
      WithoutAbsent(entries[1..], rowid);
      assert [entries[0]] + entries[1..] == entries;
    }
  }

  /** Rows are addressed by rowid, and listed here as the query orders them. */
  class EntryTable {
    var entries: seq<Entry>

    ghost predicate Valid() reads this {
      OldestFirst(entries) && DistinctRows(entries)
    }

    /** The statement deletes whichever row has the id. */
    method Delete(rowid: int)
      requires Valid()
      modifies this
      ensures Valid() && entries == Without(old(entries), rowid)
    {
      WithoutKeepsOrder(entries, rowid);
      entries := Without(entries, rowid);
    }

    method DeleteAll(victims: seq<int>)
      requires Valid() && |victims| <= |entries| && forall i :: 0 <= i < |victims| ==> victims[i] == entries[i].rowid
      modifies this
      ensures Valid() && entries == old(entries)[|victims|..]
    {
      hide Without, OldestFirst, DistinctRows;
      for i := 0 to |victims|
        invariant Valid() && entries == old(entries)[i..]
      {
        assert entries[0] == old(entries)[i] && entries[1..] == old(entries)[i + 1..];
        WithoutKeepsOrder(entries, victims[i]);
        Delete(victims[i]);
      }
    }

    /** Deletes the least recently used entries, no more of them than the budget needs. */
    method EvictToBudget(maxBytes: nat) returns (evicted: nat)
      requires Valid()
      modifies this
      ensures Valid() && evicted <= |old(entries)| && entries == old(entries)[evicted..]
      ensures var limit := if maxBytes > MAX_I64 then MAX_I64 else maxBytes;
        && TotalBytes(entries) <= limit
        && (evicted > 0 ==> TotalBytes(old(entries)[evicted - 1..]) > limit)
    {
      hide Without, OldestFirst, DistinctRows;
      var limit := if maxBytes > MAX_I64 then MAX_I64 else maxBytes;
      var excess: int := TotalBytes(entries) - limit;
      evicted := 0;
      if excess <= 0 {
        return;
      }
      var victims: seq<int> := [];
      while excess > 0 && |victims| < |entries|
        invariant |victims| <= |entries| && excess == TotalBytes(entries[|victims|..]) - limit
        invariant forall i :: 0 <= i < |victims| ==> victims[i] == entries[i].rowid
        invariant victims != [] ==> TotalBytes(entries[|victims| - 1..]) > limit
      {
        var row := entries[|victims|];
        assert entries[|victims|..][1..] == entries[|victims| + 1..];
        victims := victims + [row.rowid];
        excess := excess - row.bytes;
      }
      evicted := |victims|;
      DeleteAll(victims);
    }
  }
}
