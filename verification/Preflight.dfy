/** The index-wide budget for archive entries and their names: the count before an archive is read, and the same charge
    for a record reused from an earlier run. */
module Preflight {
  import opened Common

  datatype Limit = JarEntries | IndexEntries | IndexNameBytes | EntryNameBytes | CentralDirectoryBytes

  datatype Failure = Exceeded(limit: Limit) | Malformed

  const MAX_ENTRY_NAME_BYTES := 4096
  const MAX_CENTRAL_DIRECTORY_BYTES := 67108864

  /** What is left of the index-wide budget. */
  datatype Remaining = Remaining(entries: nat, names: nat)

  /** Nothing, or the failure that stopped the counting; the budget is spent up to there either way. */
  datatype Outcome = Outcome(failure: Option<Failure>, left: Remaining)

  function Reserved(left: Remaining, nameBytes: nat): Outcome {
    if left.entries == 0 then Outcome(Some(Exceeded(IndexEntries)), left)
    else if left.names < nameBytes then Outcome(Some(Exceeded(IndexNameBytes)), left.(entries := left.entries - 1))
    else Outcome(None, Remaining(left.entries - 1, left.names - nameBytes))
  }

  class ArchiveBudget {
    const jarEntries: nat
    var entries: nat
    var names: nat

    function Left(): Remaining reads this { Remaining(entries, names) }

    constructor (jarEntries: nat, entries: nat, names: nat)
      ensures this.jarEntries == jarEntries && this.entries == entries && this.names == names
    {
      this.jarEntries, this.entries, this.names := jarEntries, entries, names;
    }

    method Reserve(nameBytes: nat) returns (failure: Option<Failure>)
      modifies this
      ensures Outcome(failure, Left()) == Reserved(old(Left()), nameBytes)
    {
      if entries == 0 {
        return Some(Exceeded(IndexEntries));
      }
      entries := entries - 1;
      if names < nameBytes {
        return Some(Exceeded(IndexNameBytes));
      }
      names := names - nameBytes;
      return None;
    }
  }

  function Sum(sizes: seq<nat>): nat {
    if sizes == [] then 0 else Sum(sizes[..|sizes| - 1]) + sizes[|sizes| - 1]
  }

  lemma {:induction false} SumOfPrefix(sizes: seq<nat>, k: nat)
    requires k <= |sizes|
    ensures Sum(sizes[..k]) <= Sum(sizes)
    ensures k < |sizes| ==> Sum(sizes[..k + 1]) == Sum(sizes[..k]) + sizes[k]
    decreases |sizes|
  {
    if k < |sizes| {
      assert sizes[..k + 1][..k] == sizes[..k];
      SumOfPrefix(sizes[..|sizes| - 1], k);
      assert sizes[..|sizes| - 1][..k] == sizes[..k];
    } else {
      assert sizes[..k] == sizes;
    }
  }

  // ----- archives -----

  /** One central directory header: the lengths of its variable parts. */
  datatype Header = Header(name: nat, extra: nat, comment: nat)

  /** What the end record declares, and the headers found from the start of the central directory on. `ZipArchive` reads both
      from the bytes of a file. */
  datatype Archive = Archive(count: nat, size: nat, headers: seq<Header>)

  function NameSizes(headers: seq<Header>): (sizes: seq<nat>)
    ensures |sizes| == |headers| && forall i :: 0 <= i < |headers| ==> sizes[i] == headers[i].name
  {
    if headers == [] then [] else NameSizes(headers[..|headers| - 1]) + [headers[|headers| - 1].name]
  }

  function Span(headers: seq<Header>): nat {
    if headers == [] then 0
    else
      var h := headers[|headers| - 1];
      Span(headers[..|headers| - 1]) + 46 + h.name + h.extra + h.comment
  }

  lemma {:induction false} SpanGrows(headers: seq<Header>, k: nat)
    requires k < |headers|
    ensures Span(headers[..k]) < Span(headers)
    decreases |headers|
  {
    if k < |headers| - 1 {
      SpanGrows(headers[..|headers| - 1], k);
      assert headers[..|headers| - 1][..k] == headers[..k];
    }
  }

  /** The declared directory is what is there: its headers fill it exactly, with names of bearable length. */
  predicate WellFormed(a: Archive) {
    && a.count <= |a.headers| && Span(a.headers[..a.count]) == a.size && a.size <= MAX_CENTRAL_DIRECTORY_BYTES
    && forall i :: 0 <= i < a.count ==> a.headers[i].name <= MAX_ENTRY_NAME_BYTES
  }

  function NameBytes(a: Archive): nat
    requires a.count <= |a.headers|
  {
    Sum(NameSizes(a.headers[..a.count]))
  }

  /** Which limit a well-formed archive of `n` entries exceeds, counting entries before names. */
  function ChargeFailure(n: nat, bytes: nat, jarEntries: nat, left: Remaining): Option<Failure> {
    if n > jarEntries then Some(Exceeded(JarEntries))
    else if n > left.entries then Some(Exceeded(IndexEntries))
    else if bytes > left.names then Some(Exceeded(IndexNameBytes))
    else None
  }

  lemma {:induction false} SpanFits(headers: seq<Header>, count: nat, k: nat)
    requires count <= |headers| && k <= |headers|
    ensures Span(headers[..k]) == Span(headers[..count]) <==> k == count
    ensures k < count ==> k < |headers| && Span(headers[..k + 1]) <= Span(headers[..count])
    ensures count <= k ==> Span(headers[..count]) <= Span(headers[..k])
  {
    if k < count {
      SpanGrows(headers[..count], k);
      assert headers[..count][..k] == headers[..k];
      if k + 1 < count {
        SpanGrows(headers[..count], k + 1);
        assert headers[..count][..k + 1] == headers[..k + 1];
      }
    } else if count < k {
      SpanGrows(headers[..k], count);
      assert headers[..k][..count] == headers[..count];
    }
  }

  /** The loop of a well-formed archive stays inside the declared directory. */
  lemma Inside(a: Archive, k: nat)
    requires WellFormed(a) && k <= |a.headers| && Span(a.headers[..k]) < a.size
    ensures k < a.count <= |a.headers| && 46 <= a.size - Span(a.headers[..k]) && Span(a.headers[..k + 1]) <= a.size
    ensures a.headers[k].name <= MAX_ENTRY_NAME_BYTES
    ensures Sum(NameSizes(a.headers[..k + 1])) <= NameBytes(a)
  {
    hide Sum, NameSizes;
    SpanFits(a.headers, a.count, k);
    NextHeader(a.headers, k);
    NamesFit(a, k);
  }

  predicate Counted(a: Archive, k: nat) {
    && k <= |a.headers| && Span(a.headers[..k]) <= a.size
    && forall i :: 0 <= i < k ==> a.headers[i].name <= MAX_ENTRY_NAME_BYTES
  }

  /** Counting from header `k` on. */
  function CountHeaders(a: Archive, k: nat, jarEntries: nat, left: Remaining): Outcome
    requires k <= |a.headers|
    decreases |a.headers| - k
  {
    var consumed := Span(a.headers[..k]);
    if consumed >= a.size then Outcome(if k != a.count then Some(Malformed) else None, left)
    else if a.size - consumed < 46 || k == |a.headers| then Outcome(Some(Malformed), left)
    else if k + 1 > jarEntries then Outcome(Some(Exceeded(JarEntries)), left)
    else if a.headers[k].name > MAX_ENTRY_NAME_BYTES then Outcome(Some(Exceeded(EntryNameBytes)), left)
    else
      var reserved := Reserved(left, a.headers[k].name);
      if reserved.failure.Some? then reserved
      else if Span(a.headers[..k + 1]) > a.size then Outcome(Some(Malformed), reserved.left)
      else CountHeaders(a, k + 1, jarEntries, reserved.left)
  }

  function ArchiveOutcome(a: Archive, jarEntries: nat, left: Remaining): Outcome {
    if a.count > jarEntries then Outcome(Some(Exceeded(JarEntries)), left)
    else if a.count > left.entries then Outcome(Some(Exceeded(IndexEntries)), left)
    else if a.size > MAX_CENTRAL_DIRECTORY_BYTES then Outcome(Some(Exceeded(CentralDirectoryBytes)), left)
    else CountHeaders(a, 0, jarEntries, left)
  }

  lemma NothingCounted(a: Archive)
    ensures Counted(a, 0) && Span(a.headers[..0]) == 0 && Sum(NameSizes(a.headers[..0])) == 0
  {}

  lemma Filled(a: Archive, k: nat)
    requires Counted(a, k) && Span(a.headers[..k]) == a.size && a.size <= MAX_CENTRAL_DIRECTORY_BYTES
    ensures WellFormed(a) <==> k == a.count
  {
    if a.count <= |a.headers| { SpanFits(a.headers, a.count, k); }
  }

  lemma {:induction false} CountingFailsIff(a: Archive, k: nat, jarEntries: nat, left: Remaining)
    requires Counted(a, k) && a.size <= MAX_CENTRAL_DIRECTORY_BYTES
    requires a.count <= jarEntries && a.count <= left.entries + k
    ensures var outcome := CountHeaders(a, k, jarEntries, left);
      && (!WellFormed(a) ==> outcome.failure.Some?)
      && (WellFormed(a) ==>
            var spent := Sum(NameSizes(a.headers[..k]));
            && outcome.failure == (if NameBytes(a) - spent > left.names then Some(Exceeded(IndexNameBytes)) else None)
            && (outcome.failure.None? ==>
                  outcome.left == Remaining(left.entries + k - a.count, left.names + spent - NameBytes(a))))
    decreases |a.headers| - k
  {
    hide Sum, Span, NameSizes, WellFormed, NameBytes;
    if Span(a.headers[..k]) >= a.size {
      Filled(a, k);
      if WellFormed(a) { NamesOf(a); }
    } else {
      if WellFormed(a) { Inside(a, k); }
      if k < |a.headers| {
        NextHeader(a.headers, k);
        if a.headers[k].name <= MAX_ENTRY_NAME_BYTES && Reserved(left, a.headers[k].name).failure.None?
           && Span(a.headers[..k + 1]) <= a.size && k + 1 <= jarEntries
        {
          CountingFailsIff(a, k + 1, jarEntries, Reserved(left, a.headers[k].name).left);
        }
      }
    }
  }

  /** A well-formed archive fails exactly for the limit it exceeds, and is charged in full; any other fails. */
  lemma ArchiveFailsIff(a: Archive, jarEntries: nat, left: Remaining)
    ensures !WellFormed(a) ==> ArchiveOutcome(a, jarEntries, left).failure.Some?
    ensures WellFormed(a) ==> ArchiveOutcome(a, jarEntries, left).failure == ChargeFailure(a.count, NameBytes(a), jarEntries, left)
    ensures ArchiveOutcome(a, jarEntries, left).failure.None? ==>
              && WellFormed(a)
              && ArchiveOutcome(a, jarEntries, left).left == Remaining(left.entries - a.count, left.names - NameBytes(a))
  {
    hide Sum, Span, NameSizes, WellFormed, NameBytes, Counted, CountHeaders;
    OnlyBounded(a);
    if a.count <= jarEntries && a.count <= left.entries && a.size <= MAX_CENTRAL_DIRECTORY_BYTES {
      NothingCounted(a);
      CountingFailsIff(a, 0, jarEntries, left);
    }
  }

  lemma OnlyBounded(a: Archive)
    ensures WellFormed(a) ==> a.size <= MAX_CENTRAL_DIRECTORY_BYTES
  {}

  lemma NamesOf(a: Archive)
    requires a.count <= |a.headers|
    ensures NameBytes(a) == Sum(NameSizes(a.headers[..a.count]))
  {}

  lemma NextHeader(headers: seq<Header>, k: nat)
    requires k < |headers|
    ensures Span(headers[..k + 1]) == Span(headers[..k]) + 46 + headers[k].name + headers[k].extra + headers[k].comment
    ensures Sum(NameSizes(headers[..k + 1])) == Sum(NameSizes(headers[..k])) + headers[k].name
  {
    assert headers[..k + 1][..k] == headers[..k];
    var sizes := NameSizes(headers[..k + 1]);
    assert sizes[..k] == NameSizes(headers[..k]);
  }

  lemma NamesFit(a: Archive, k: nat)
    requires WellFormed(a) && k < a.count
    ensures Sum(NameSizes(a.headers[..k + 1])) <= NameBytes(a)
  {
    var sizes := NameSizes(a.headers[..a.count]);
    SumOfPrefix(sizes, k + 1);
    assert sizes[..k + 1] == NameSizes(a.headers[..k + 1]);
  }

  // ----- class directories -----

  datatype WalkEntry = File(nameBytes: nat) | NotFile | Unreadable

  function FileSizes(walk: seq<WalkEntry>): seq<nat> {
    if walk == [] then []
    else
      var last := walk[|walk| - 1];
      FileSizes(walk[..|walk| - 1]) + if last.File? then [last.nameBytes] else []
  }

  /** The first `k` files are within every limit. */
  predicate Fits(files: seq<nat>, k: nat, jarEntries: nat, left: Remaining) {
    && k <= |files| && k <= jarEntries && k <= left.entries && Sum(files[..k]) <= left.names
    && forall i :: 0 <= i < k ==> files[i] <= MAX_ENTRY_NAME_BYTES
  }

  /** What the file after the first `k` exceeds. */
  function FailureAt(files: seq<nat>, k: nat, jarEntries: nat, left: Remaining): Failure
    requires k < |files|
  {
    if k >= jarEntries then Exceeded(JarEntries)
    else if files[k] > MAX_ENTRY_NAME_BYTES then Exceeded(EntryNameBytes)
    else if k >= left.entries then Exceeded(IndexEntries)
    else Exceeded(IndexNameBytes)
  }

  predicate FirstBeyond(files: seq<nat>, k: nat, jarEntries: nat, left: Remaining) {
    k < |files| && Fits(files, k, jarEntries, left) && !Fits(files, k + 1, jarEntries, left)
  }

  /** The first file beyond a limit decides. */
  ghost predicate DirectoryFails(files: seq<nat>, jarEntries: nat, left: Remaining, failure: Option<Failure>) {
    if failure.None? then Fits(files, |files|, jarEntries, left)
    else exists k: nat :: FirstBeyond(files, k, jarEntries, left) && failure.value == FailureAt(files, k, jarEntries, left)
  }

  /** Counting the walk from `i` on, behind `entries` files. */
  function CountFiles(walk: seq<WalkEntry>, i: nat, entries: nat, jarEntries: nat, left: Remaining): Outcome
    requires i <= |walk|
    decreases |walk| - i
  {
    if i == |walk| then Outcome(None, left)
    else match walk[i]
      case Unreadable => Outcome(Some(Malformed), left)
      case NotFile => CountFiles(walk, i + 1, entries, jarEntries, left)
      case File(nameBytes) =>
        if entries + 1 > jarEntries then Outcome(Some(Exceeded(JarEntries)), left)
        else if nameBytes > MAX_ENTRY_NAME_BYTES then Outcome(Some(Exceeded(EntryNameBytes)), left)
        else
          var reserved := Reserved(left, nameBytes);
          if reserved.failure.Some? then reserved else CountFiles(walk, i + 1, entries + 1, jarEntries, reserved.left)
  }

  method PreflightDirectory(walk: seq<WalkEntry>, budget: ArchiveBudget) returns (failure: Option<Failure>)
    modifies budget
    ensures Outcome(failure, budget.Left()) == CountFiles(walk, 0, 0, budget.jarEntries, old(budget.Left()))
  {
    var entries: nat := 0;
    for i := 0 to |walk|
      invariant CountFiles(walk, 0, 0, budget.jarEntries, old(budget.Left()))
                == CountFiles(walk, i, entries, budget.jarEntries, budget.Left())
    {
      if walk[i].Unreadable? {
        return Some(Malformed);
      }
      if !walk[i].File? {
        continue;
      }
      entries := entries + 1;
      if entries > budget.jarEntries {
        return Some(Exceeded(JarEntries));
      }
      if walk[i].nameBytes > MAX_ENTRY_NAME_BYTES {
        return Some(Exceeded(EntryNameBytes));
      }
      failure := budget.Reserve(walk[i].nameBytes);
      if failure.Some? {
        return;
      }
    }
    return None;
  }

  lemma {:induction false} WalkFails(walk: seq<WalkEntry>, i: nat, entries: nat, jarEntries: nat, start: Remaining, left: Remaining)
    requires i <= |walk| && entries == |FileSizes(walk[..i])| && Fits(FileSizes(walk[..i]), entries, jarEntries, start)
    requires left.entries == start.entries - entries && left.names == start.names - Sum(FileSizes(walk[..i]))
    ensures var (outcome, files) := (CountFiles(walk, i, entries, jarEntries, left), FileSizes(walk));
      && (Unreadable !in walk[i..] ==> DirectoryFails(files, jarEntries, start, outcome.failure))
      && (outcome.failure.None? ==>
            Unreadable !in walk[i..] && outcome.left.entries == start.entries - |files| && outcome.left.names == start.names - Sum(files))
    decreases |walk| - i
  {
    hide Sum, FileSizes, Fits;
    if i == |walk| {
      assert walk[..i] == walk;
    } else {
      NextFile(walk, i);
      assert walk[i..] == [walk[i]] + walk[i + 1..];
      if walk[i].NotFile? {
        WalkFails(walk, i + 1, entries, jarEntries, start, left);
      } else if walk[i].File? {
        var files := FileSizes(walk);
        FilesArePrefix(walk, i + 1);
        FitNext(files, entries, jarEntries, start);
        FitPrefix(files, FileSizes(walk[..i]), jarEntries, start);
        FitPrefix(files, FileSizes(walk[..i + 1]), jarEntries, start);
        var reserved := Reserved(left, walk[i].nameBytes);
        if Fits(files, entries + 1, jarEntries, start) {
          WalkFails(walk, i + 1, entries + 1, jarEntries, start, reserved.left);
        } else {
          assert FirstBeyond(files, entries, jarEntries, start);
        }
      }
    }
  }

  /** A readable directory fails at the first file beyond a limit, and otherwise is charged in full. */
  lemma DirectoryFailsIff(walk: seq<WalkEntry>, jarEntries: nat, left: Remaining)
    ensures var (outcome, files) := (CountFiles(walk, 0, 0, jarEntries, left), FileSizes(walk));
      && (Unreadable !in walk ==> DirectoryFails(files, jarEntries, left, outcome.failure))
      && (outcome.failure.None? ==>
            Unreadable !in walk && outcome.left.entries == left.entries - |files| && outcome.left.names == left.names - Sum(files))
  {
    assert walk[..0] == [] && walk[0..] == walk;
    WalkFails(walk, 0, 0, jarEntries, left, left);
  }

  lemma NextFile(walk: seq<WalkEntry>, i: nat)
    requires i < |walk|
    ensures !walk[i].File? ==> FileSizes(walk[..i + 1]) == FileSizes(walk[..i])
    ensures walk[i].File? ==> FileSizes(walk[..i + 1]) == FileSizes(walk[..i]) + [walk[i].nameBytes]
    ensures walk[i].File? ==> Sum(FileSizes(walk[..i + 1])) == Sum(FileSizes(walk[..i])) + walk[i].nameBytes
  {
    assert walk[..i + 1][..i] == walk[..i];
  }

  lemma {:induction false} FilesArePrefix(walk: seq<WalkEntry>, i: nat)
    requires i <= |walk|
    ensures FileSizes(walk[..i]) <= FileSizes(walk)
    decreases |walk|
  {
    if i < |walk| {
      FilesArePrefix(walk[..|walk| - 1], i);
      assert walk[..|walk| - 1][..i] == walk[..i];
    } else {
      assert walk[..i] == walk;
    }
  }

  lemma FitNext(files: seq<nat>, k: nat, jarEntries: nat, left: Remaining)
    requires k < |files|
    ensures Fits(files, k + 1, jarEntries, left) <==>
              && Fits(files, k, jarEntries, left)
              && k < jarEntries && files[k] <= MAX_ENTRY_NAME_BYTES && k < left.entries && Sum(files[..k]) + files[k] <= left.names
  {
    SumOfPrefix(files, k);
  }

  lemma FitPrefix(files: seq<nat>, prefix: seq<nat>, jarEntries: nat, left: Remaining)
    requires prefix <= files
    ensures Fits(files, |prefix|, jarEntries, left) <==> Fits(prefix, |prefix|, jarEntries, left)
    ensures Sum(files[..|prefix|]) == Sum(prefix)
  {
    assert prefix[..|prefix|] == prefix == files[..|prefix|];
    assert forall i :: 0 <= i < |prefix| ==> prefix[i] == files[i];
  }

  // ----- charging a reused record -----

  /** What the preflight of the archive took from the budget. */
  datatype PreflightCharge = PreflightCharge(entries: nat, nameBytes: nat)

  /** Counts first, then names: a failure on the names leaves the entries charged. */
  function ChargeOutcome(charge: PreflightCharge, jarEntries: nat, left: Remaining): Outcome {
    var failure := ChargeFailure(charge.entries, charge.nameBytes, jarEntries, left);
    if charge.entries > jarEntries || charge.entries > left.entries then Outcome(failure, left)
    else Outcome(failure, Remaining(left.entries - charge.entries,
                                    if failure.None? then left.names - charge.nameBytes else left.names))
  }

  method Charge(charge: PreflightCharge, budget: ArchiveBudget) returns (failure: Option<Failure>)
    modifies budget
    ensures Outcome(failure, budget.Left()) == ChargeOutcome(charge, budget.jarEntries, old(budget.Left()))
  {
    if charge.entries > budget.jarEntries {
      return Some(Exceeded(JarEntries));
    }
    if charge.entries > budget.entries {
      return Some(Exceeded(IndexEntries));
    }
    budget.entries := budget.entries - charge.entries;
    if charge.nameBytes > budget.names {
      return Some(Exceeded(IndexNameBytes));
    }
    budget.names := budget.names - charge.nameBytes;
    return None;
  }

  /** Reusing a directory's record succeeds exactly when counting its files would. */
  lemma DirectoryReuseFailsIff(files: seq<nat>, jarEntries: nat, left: Remaining, failure: Option<Failure>)
    requires DirectoryFails(files, jarEntries, left, failure)
    requires forall i :: 0 <= i < |files| ==> files[i] <= MAX_ENTRY_NAME_BYTES
    ensures failure.None? <==> ChargeFailure(|files|, Sum(files), jarEntries, left).None?
  {
    assert files[..|files|] == files;
    if failure.Some? {
      var k: nat :| FirstBeyond(files, k, jarEntries, left);
      SumOfPrefix(files, k + 1);
    }
  }

  /** The files up to the first exceeded count limit have names that fit. */
  predicate CountsFailFirst(files: seq<nat>, jarEntries: nat, left: Remaining) {
    && (|files| > jarEntries ==> jarEntries <= left.entries && Sum(files[..jarEntries]) <= left.names)
    && (left.entries < |files| <= jarEntries ==> Sum(files[..left.entries]) <= left.names)
  }

  /** It names the same limit exactly when no other limit is crossed before the count it reports. */
  lemma DirectoryReuseFailsAlikeIff(files: seq<nat>, jarEntries: nat, left: Remaining, failure: Option<Failure>)
    requires DirectoryFails(files, jarEntries, left, failure)
    requires forall i :: 0 <= i < |files| ==> files[i] <= MAX_ENTRY_NAME_BYTES
    ensures (failure == ChargeFailure(|files|, Sum(files), jarEntries, left))
        <==> CountsFailFirst(files, jarEntries, left)
  {
    hide Sum;
    DirectoryReuseFailsIff(files, jarEntries, left, failure);
    if failure.Some? {
      var k: nat :| FirstBeyond(files, k, jarEntries, left)
        && failure.value == FailureAt(files, k, jarEntries, left);
      FitNext(files, k, jarEntries, left);
      if jarEntries <= |files| { PrefixesGrow(files, k, jarEntries); }
      if left.entries <= |files| { PrefixesGrow(files, k, left.entries); }
    } else {
      assert files[..|files|] == files;
    }
  }

  lemma PrefixesGrow(files: seq<nat>, k: nat, m: nat)
    requires k < |files| && m <= |files|
    ensures m <= k ==> Sum(files[..m]) <= Sum(files[..k])
    ensures k < m ==> Sum(files[..k]) + files[k] <= Sum(files[..m])
  {
    if m <= k {
      SumOfPrefix(files[..k], m);
      assert files[..k][..m] == files[..m];
    } else {
      SumOfPrefix(files, k);
      SumOfPrefix(files[..m], k + 1);
      assert files[..m][..k + 1] == files[..k + 1];
    }
  }

  /** Two files, room for one entry and five name bytes: counting stops at the first name, reuse at the count. */
  lemma ReuseCanNameAnotherLimit()
    ensures DirectoryFails([10, 1], 5, Remaining(1, 5), Some(Exceeded(IndexNameBytes)))
    ensures ChargeFailure(2, Sum([10, 1]), 5, Remaining(1, 5)) == Some(Exceeded(IndexEntries))
  {
    var files: seq<nat> := [10, 1];
    assert files[..1] == [10] && files[..0] == [];
    assert Sum([10]) == Sum([10][..0]) + 10 && [10][..0] == [];
    assert FirstBeyond(files, 0, 5, Remaining(1, 5));
  }
}
