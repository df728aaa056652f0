/** Measuring a serialized value without buffering it, up to a limit. */
module ResponseSize {

  const MAX_USIZE := 18446744073709551615

  /** What the serializer does next: writes some bytes, or gives up on the value. */
  datatype Piece = Bytes(count: nat) | Unserializable

  datatype Measured = Fits(total: nat) | TooLong | SerializationFailed

  function TotalBytes(pieces: seq<Piece>): nat {
    if pieces == [] then 0
    else
      var last := pieces[|pieces| - 1];
      TotalBytes(pieces[..|pieces| - 1]) + if last.Bytes? then last.count else 0
  }

  lemma {:induction false} TotalOfPrefix(pieces: seq<Piece>, k: nat)
    requires k <= |pieces|
    ensures TotalBytes(pieces[..k]) <= TotalBytes(pieces)
    ensures k < |pieces| ==> TotalBytes(pieces[..k + 1]) == TotalBytes(pieces[..k]) + (if pieces[k].Bytes? then pieces[k].count else 0)
    decreases |pieces|
  {
    if k < |pieces| {
      assert pieces[..k + 1][..k] == pieces[..k];
      TotalOfPrefix(pieces[..|pieces| - 1], k);
      assert pieces[..|pieces| - 1][..k] == pieces[..k];
    } else {
      assert pieces[..k] == pieces;
    }
  }

  class ByteCounter {
    var written: nat
    const limit: nat

    constructor (limit: nat)
      ensures written == 0 && this.limit == limit
    {
      written, this.limit := 0, limit;
    }

    /** Saturates like the machine word it counts in. */
    method Write(count: nat) returns (ok: bool)
      modifies this
      ensures written == if old(written) + count > MAX_USIZE then MAX_USIZE else old(written) + count
      ensures ok <==> written <= limit
    {
      written := if written + count > MAX_USIZE then MAX_USIZE else written + count;
      ok := written <= limit;
    }
  }

  function Saturated(total: nat): nat { if total > MAX_USIZE then MAX_USIZE else total }

  /** However the text is cut into writes: its length exactly when that is within the limit. The largest limit is never
      passed, and counts any text, one longer than the machine word as that. */
  method SerializedLenWithin(pieces: seq<Piece>, limit: nat) returns (measured: Measured)
    requires limit <= MAX_USIZE
    ensures Unserializable !in pieces ==>
              measured == if TotalBytes(pieces) <= limit || limit == MAX_USIZE then Fits(Saturated(TotalBytes(pieces))) else TooLong
    ensures measured.Fits? ==> Unserializable !in pieces
    ensures measured.SerializationFailed? ==>
              exists k :: 0 <= k < |pieces| && pieces[k].Unserializable?
                          && (TotalBytes(pieces[..k]) <= limit || limit == MAX_USIZE)
  {
    var counter := new ByteCounter(limit);
    for i := 0 to |pieces|
      invariant counter.limit == limit && counter.written == Saturated(TotalBytes(pieces[..i])) <= limit
      invariant Unserializable !in pieces[..i]
    {
      TotalOfPrefix(pieces, i);
      TotalOfPrefix(pieces, i + 1);
      if pieces[i].Unserializable? {
        return SerializationFailed;
      }
      var ok := counter.Write(pieces[i].count);
      if !ok {
        return TooLong;
      }
    }
    assert pieces[..|pieces|] == pieces;
    return Fits(counter.written);
  }
}
