/** Counting the entries of a JAR from its bytes, before anything else reads it: the end record, its ZIP64 form and the
    headers of the central directory. */
module ZipArchive {
  import opened Common
  import opened Preflight

  // ----- little-endian numbers -----

  function Little(bytes: seq<Byte>): nat {
    if bytes == [] then 0 else bytes[0] + 256 * Little(bytes[1..])
  }

  function Beyond(width: nat): nat {
    if width == 0 then 1 else 256 * Beyond(width - 1)
  }

  function Written(n: nat, width: nat): (bytes: seq<Byte>)
    ensures |bytes| == width
  {
    if width == 0 then [] else [n % 256] + Written(n / 256, width - 1)
  }

  lemma {:induction false} WrittenIsRead(n: nat, width: nat)
    requires n < Beyond(width)
    ensures Little(Written(n, width)) == n
  {
    if width > 0 {
      WrittenIsRead(n / 256, width - 1);
      assert Written(n, width)[1..] == Written(n / 256, width - 1);
    }
  }

  function Field(bytes: seq<Byte>, at: nat, width: nat): nat
    requires at + width <= |bytes|
  {
    Little(bytes[at..at + width])
  }

  lemma FieldIsRead(before: seq<Byte>, n: nat, width: nat, after: seq<Byte>)
    requires n < Beyond(width)
    ensures Field(before + Written(n, width) + after, |before|, width) == n
  {
    WrittenIsRead(n, width);
    assert (before + Written(n, width) + after)[|before|..|before| + width] == Written(n, width);
  }

  // ----- the end record -----

  const ENTRY: seq<Byte> := [0x50, 0x4b, 0x01, 0x02]
  const END: seq<Byte> := [0x50, 0x4b, 0x05, 0x06]
  const WIDE_END: seq<Byte> := [0x50, 0x4b, 0x06, 0x06]
  const LOCATOR: seq<Byte> := [0x50, 0x4b, 0x06, 0x07]

  /** An end record with the longest comment it can have. */
  const TAIL_BYTES := 65557

  /** An end record whose comment reaches to the end. */
  predicate EndsAt(tail: seq<Byte>, i: nat) {
    i + 22 <= |tail| && tail[i..i + 4] == END && i + 22 + Field(tail, i + 20, 2) == |tail|
  }

  function LastEnd(tail: seq<Byte>, n: nat): (end: Option<nat>)
    ensures end.Some? ==> end.value < n && EndsAt(tail, end.value)
    ensures forall i: nat :: i < n && EndsAt(tail, i) ==> end.Some? && i <= end.value
  {
    if n == 0 then None else if EndsAt(tail, n - 1) then Some(n - 1) else LastEnd(tail, n - 1)
  }

  function Tail(file: seq<Byte>): seq<Byte> {
    file[|file| - Min(|file|, TAIL_BYTES)..]
  }

  /** What is declared of the central directory, and where it ends. */
  datatype Declared = Declared(count: nat, size: nat, end: nat) | Undeclared(failure: Failure)

  function Locate(file: seq<Byte>): Declared {
    var tail := Tail(file);
    var found := LastEnd(tail, if |tail| < 21 then 0 else |tail| - 21);
    if found.None? then Undeclared(Malformed)
    else
      var at := found.value;
      var end := |file| - |tail| + at;
      if Field(tail, at + 4, 2) != 0 || Field(tail, at + 6, 2) != 0 then Undeclared(Malformed)
      else if Field(tail, at + 10, 2) == 0xFFFF || Field(tail, at + 12, 4) == 0xFFFFFFFF || Field(tail, at + 16, 4) == 0xFFFFFFFF
      then LocateWide(file, end)
      else Declared(Field(tail, at + 10, 2), Field(tail, at + 12, 4), end)
  }

  /** The ZIP64 record that the locator before the end record points to. */
  function LocateWide(file: seq<Byte>, end: nat): Declared
    requires end <= |file|
  {
    if end < 20 || file[end - 20..end - 16] != LOCATOR then Undeclared(Malformed)
    else
      var at := Field(file, end - 12, 8);
      if at + 56 > |file| || file[at..at + 4] != WIDE_END then Undeclared(Malformed)
      else if Field(file, at + 4, 8) > MAX_CENTRAL_DIRECTORY_BYTES then Undeclared(Exceeded(CentralDirectoryBytes))
      else Declared(Field(file, at + 32, 8), Field(file, at + 40, 8), at)
  }

  // ----- headers -----

  predicate StartsEntry(rest: seq<Byte>) {
    |rest| >= 46 && rest[..4] == ENTRY
  }

  function HeaderOf(rest: seq<Byte>): Header
    requires StartsEntry(rest)
  {
    Header(Field(rest, 28, 2), Field(rest, 30, 2), Field(rest, 32, 2))
  }

  /** Seeking beyond the end leaves nothing to read. */
  function From<T>(s: seq<T>, at: nat): seq<T> {
    if at <= |s| then s[at..] else []
  }

  function Headers(rest: seq<Byte>): seq<Header>
    decreases |rest|
  {
    if StartsEntry(rest) then
      var h := HeaderOf(rest);
      [h] + Headers(From(rest, 46 + h.name + h.extra + h.comment))
    else []
  }

  /** A directory that would start before the file has no headers, though it declares some. */
  function ArchiveOf(file: seq<Byte>, declared: Declared): Archive
    requires declared.Declared?
  {
    Archive(declared.count, declared.size,
            if declared.end < declared.size then [] else Headers(From(file, declared.end - declared.size)))
  }

  function FileOutcome(file: seq<Byte>, jarEntries: nat, left: Remaining): Outcome {
    var declared := Locate(file);
    if declared.Undeclared? then Outcome(Some(declared.failure), left)
    else ArchiveOutcome(ArchiveOf(file, declared), jarEntries, left)
  }

  method PreflightArchive(file: seq<Byte>, budget: ArchiveBudget) returns (failure: Option<Failure>)
    modifies budget
    ensures Outcome(failure, budget.Left()) == FileOutcome(file, budget.jarEntries, old(budget.Left()))
  {
    hide Sum, Span, NameSizes, Locate, Headers, StartsEntry, HeaderOf, From;
    var declared := Locate(file);
    if declared.Undeclared? {
      return Some(declared.failure);
    }
    ghost var a := ArchiveOf(file, declared);
    var (count, size) := (declared.count, declared.size);
    if count > budget.jarEntries {
      return Some(Exceeded(JarEntries));
    }
    if count > budget.entries {
      return Some(Exceeded(IndexEntries));
    }
    if size > MAX_CENTRAL_DIRECTORY_BYTES {
      return Some(Exceeded(CentralDirectoryBytes));
    }
    NothingCounted(a);
    if declared.end < size {
      return Some(Malformed);
    }
    var rest := From(file, declared.end - size);
    var consumed, entries: nat := 0, 0;
    while consumed < size
      invariant entries <= |a.headers| && consumed == Span(a.headers[..entries]) <= size
      invariant a.headers[entries..] == Headers(rest)
      invariant CountHeaders(a, 0, budget.jarEntries, old(budget.Left()))
                == CountHeaders(a, entries, budget.jarEntries, budget.Left())
      decreases |rest|
    {
      NextEntry(rest, a.headers, entries);
      if size - consumed < 46 {
        return Some(Malformed);
      }
      if !StartsEntry(rest) {
        return Some(Malformed);
      }
      var header := HeaderOf(rest);
      NextHeader(a.headers, entries);
      entries := entries + 1;
      if entries > budget.jarEntries {
        return Some(Exceeded(JarEntries));
      }
      if header.name > MAX_ENTRY_NAME_BYTES {
        return Some(Exceeded(EntryNameBytes));
      }
      var reserved := budget.Reserve(header.name);
      if reserved.Some? {
        return reserved;
      }
      consumed := consumed + 46 + header.name + header.extra + header.comment;
      if consumed > size {
        return Some(Malformed);
      }
      rest := From(rest, 46 + header.name + header.extra + header.comment);
    }
    return if entries != count then Some(Malformed) else None;
  }

  lemma NextEntry(rest: seq<Byte>, headers: seq<Header>, k: nat)
    requires k <= |headers| && headers[k..] == Headers(rest)
    ensures StartsEntry(rest) <==> k < |headers|
    ensures StartsEntry(rest) ==>
              var after := From(rest, 46 + headers[k].name + headers[k].extra + headers[k].comment);
              headers[k] == HeaderOf(rest) && headers[k + 1..] == Headers(after) && |after| < |rest|
  {
    hide HeaderOf;
    if StartsEntry(rest) {
      assert headers[k] == headers[k..][0] && headers[k + 1..] == headers[k..][1..];
    }
  }

  // ----- archives as they are written -----

  /** An entry of the central directory; `before` and `after` are the fixed fields around the lengths of the others. */
  datatype Entry = Entry(before: seq<Byte>, after: seq<Byte>, name: seq<Byte>, extra: seq<Byte>, comment: seq<Byte>)

  /** The end record. The code does not look at `onDisk`, nor at `offset` unless it is all ones. */
  datatype End = End(onDisk: seq<Byte>, count: nat, size: nat, offset: nat, comment: seq<Byte>)

  /** What is not looked at in a ZIP64 record and its locator. */
  datatype Wide = Wide(middle: seq<Byte>, rest: seq<Byte>, disk: seq<Byte>, disks: seq<Byte>)

  datatype ZipFile = ZipFile(body: seq<Byte>, entries: seq<Entry>, wide: Option<Wide>, end: End)

  function EntryBytes(e: Entry): seq<Byte> {
    ENTRY + e.before + Written(|e.name|, 2) + Written(|e.extra|, 2) + Written(|e.comment|, 2) + e.after
      + e.name + e.extra + e.comment
  }

  function DirectoryBytes(entries: seq<Entry>): seq<Byte> {
    if entries == [] then [] else EntryBytes(entries[0]) + DirectoryBytes(entries[1..])
  }

  function EndBytes(end: End): seq<Byte> {
    END + [0, 0, 0, 0] + end.onDisk + Written(end.count, 2) + Written(end.size, 4) + Written(end.offset, 4)
      + Written(|end.comment|, 2) + end.comment
  }

  function WideBytes(wide: Wide, count: nat, size: nat, at: nat): seq<Byte> {
    WIDE_END + Written(36 + |wide.rest|, 8) + wide.middle + Written(count, 8) + Written(size, 8) + wide.rest
      + (LOCATOR + wide.disk + Written(at, 8) + wide.disks)
  }

  function Trailer(z: ZipFile): seq<Byte> {
    var directory := DirectoryBytes(z.entries);
    (if z.wide.Some? then WideBytes(z.wide.value, |z.entries|, |directory|, |z.body| + |directory|) else []) + EndBytes(z.end)
  }

  function FileBytes(z: ZipFile): seq<Byte> {
    z.body + DirectoryBytes(z.entries) + Trailer(z)
  }

  predicate ValidEntry(e: Entry) {
    && |e.before| == 24 && |e.after| == 12
    && |e.name| <= 0xFFFF && |e.extra| <= 0xFFFF && |e.comment| <= 0xFFFF
  }

  predicate IsWide(end: End) {
    end.count == 0xFFFF || end.size == 0xFFFFFFFF || end.offset == 0xFFFFFFFF
  }

  /** Nothing in the comment passes for an end record that reaches to the end. */
  predicate ValidEnd(end: End) {
    && |end.onDisk| == 2 && end.count <= 0xFFFF && end.size <= 0xFFFFFFFF && end.offset <= 0xFFFFFFFF && |end.comment| <= 0xFFFF
    && forall i :: 0 < i < |EndBytes(end)| ==> !EndsAt(EndBytes(end), i)
  }

  predicate ValidWide(wide: Wide) {
    && |wide.middle| == 20 && |wide.rest| >= 8 && |wide.disk| == 4 && |wide.disks| == 4
    && 36 + |wide.rest| <= MAX_CENTRAL_DIRECTORY_BYTES
  }

  /** Numbers that are not all ones are the real ones, whether ZIP64 records stand beside them or not; without such records,
      all numbers are real. */
  predicate ValidFile(z: ZipFile) {
    && (forall i :: 0 <= i < |z.entries| ==> ValidEntry(z.entries[i]))
    && ValidEnd(z.end)
    && (z.wide.Some? ==> ValidWide(z.wide.value))
    && (z.wide.None? || z.end.count != 0xFFFF ==> z.end.count == |z.entries|)
    && (z.wide.None? || z.end.size != 0xFFFFFFFF ==> z.end.size == |DirectoryBytes(z.entries)|)
    && |FileBytes(z)| < 0x8000_0000_0000_0000
  }

  /** ZIP64 records are there exactly if some number of the end record is all ones. */
  predicate SignalsZip64(z: ZipFile) {
    z.wide.Some? <==> IsWide(z.end)
  }

  lemma BytesOfWidths()
    ensures Beyond(2) == 0x10000 && Beyond(4) == 0x1_0000_0000 && Beyond(8) == 0x1_0000_0000_0000_0000
  {
    assert Beyond(4) == 256 * (256 * Beyond(2));
    assert Beyond(8) == 256 * (256 * (256 * (256 * Beyond(4))));
  }

  // ----- the end record is found -----

  lemma EndsBehind(prefix: seq<Byte>, end: seq<Byte>, i: nat)
    ensures EndsAt(prefix + end, |prefix| + i) <==> EndsAt(end, i)
  {
    if i + 22 <= |end| {
      assert (prefix + end)[|prefix| + i..|prefix| + i + 4] == end[i..i + 4];
      assert (prefix + end)[|prefix| + i + 20..|prefix| + i + 22] == end[i + 20..i + 22];
    }
  }

  lemma NothingWritten()
    ensures Little([0, 0]) == 0
  {
    WrittenIsRead(0, 2);
    assert Written(0, 2) == [0, 0];
  }

  /** The fields of an end record. */
  lemma EndFields(end: End)
    requires ValidEnd(end)
    ensures var b := EndBytes(end);
      && |b| == 22 + |end.comment| && EndsAt(b, 0) && Field(b, 4, 2) == 0 && Field(b, 6, 2) == 0
      && Field(b, 10, 2) == end.count && Field(b, 12, 4) == end.size && Field(b, 16, 4) == end.offset
  {
    hide Written, Little, Beyond;
    BytesOfWidths();
    var b := EndBytes(end);
    WrittenIsRead(end.count, 2);
    WrittenIsRead(end.size, 4);
    WrittenIsRead(end.offset, 4);
    WrittenIsRead(|end.comment|, 2);
    NothingWritten();
    assert b[4..6] == [0, 0] && b[6..8] == [0, 0];
    assert b[10..12] == Written(end.count, 2);
    assert b[12..16] == Written(end.size, 4);
    assert b[16..20] == Written(end.offset, 4);
    assert b[20..22] == Written(|end.comment|, 2);
    assert b[0..4] == END;
  }

  /** The last end record of a file is the one it was written with. */
  lemma LastEndIsFound(prefix: seq<Byte>, end: End)
    requires ValidEnd(end)
    ensures var file := prefix + EndBytes(end);
      var tail := Tail(file);
      && |EndBytes(end)| <= |tail| <= |file| && tail == file[|file| - |tail|..]
      && LastEnd(tail, |tail| - 21) == Some(|tail| - |EndBytes(end)|)
  {
    hide EndBytes, EndsAt;
    EndFields(end);
    var b := EndBytes(end);
    var file := prefix + b;
    var tail := Tail(file);
    var head := tail[..|tail| - |b|];
    assert tail == head + b;
    EndsBehind(head, b, 0);
    forall i: nat | |head| < i < |tail| - 21 ensures !EndsAt(tail, i) {
      EndsBehind(head, b, i - |head|);
    }
  }

  lemma FieldBehind(prefix: seq<Byte>, bytes: seq<Byte>, suffix: seq<Byte>, at: nat, width: nat)
    requires at + width <= |bytes|
    ensures Field(prefix + bytes + suffix, |prefix| + at, width) == Field(bytes, at, width)
  {
    assert (prefix + bytes + suffix)[|prefix| + at..|prefix| + at + width] == bytes[at..at + width];
  }

  /** What the end record says is read off the tail. */
  lemma EndIsRead(prefix: seq<Byte>, end: End)
    requires ValidEnd(end)
    ensures Locate(prefix + EndBytes(end)) ==
            if IsWide(end) then LocateWide(prefix + EndBytes(end), |prefix|) else Declared(end.count, end.size, |prefix|)
  {
    hide Tail, EndBytes, LocateWide, Field;
    var b := EndBytes(end);
    var file := prefix + b;
    var tail := Tail(file);
    LastEndIsFound(prefix, end);
    EndFields(end);
    assert |b| <= |tail| <= |file| && |file| == |prefix| + |b|;
    var head := file[|file| - |tail|..|prefix|];
    assert tail == head + b + [];
    FieldBehind(head, b, [], 4, 2);
    FieldBehind(head, b, [], 6, 2);
    FieldBehind(head, b, [], 10, 2);
    FieldBehind(head, b, [], 12, 4);
    FieldBehind(head, b, [], 16, 4);
  }

  /** The fields of a ZIP64 record and its locator. */
  lemma WideFields(wide: Wide, count: nat, size: nat, at: nat)
    requires ValidWide(wide) && count < Beyond(8) && size < Beyond(8) && at < Beyond(8)
    ensures var b := WideBytes(wide, count, size, at);
      && |b| == 68 + |wide.rest| && b[..4] == WIDE_END && Field(b, 4, 8) == 36 + |wide.rest|
      && Field(b, 32, 8) == count && Field(b, 40, 8) == size
      && b[|b| - 20..|b| - 16] == LOCATOR && Field(b, |b| - 12, 8) == at
  {
    hide Written, Little, Beyond;
    var b := WideBytes(wide, count, size, at);
    var n := |b|;
    BytesOfWidths();
    WrittenIsRead(36 + |wide.rest|, 8);
    WrittenIsRead(count, 8);
    WrittenIsRead(size, 8);
    WrittenIsRead(at, 8);
    assert b[4..12] == Written(36 + |wide.rest|, 8);
    assert b[32..40] == Written(count, 8);
    assert b[40..48] == Written(size, 8);
    assert b[n - 20..n - 16] == LOCATOR;
    assert b[n - 12..n - 4] == Written(at, 8);
  }

  lemma WideIsRead(prefix: seq<Byte>, wide: Wide, count: nat, size: nat, suffix: seq<Byte>)
    requires ValidWide(wide) && count < Beyond(8) && size < Beyond(8) && |prefix| < Beyond(8)
    ensures var b := WideBytes(wide, count, size, |prefix|);
      LocateWide(prefix + b + suffix, |prefix| + |b|) == Declared(count, size, |prefix|)
  {
    hide Field, WideBytes;
    var b := WideBytes(wide, count, size, |prefix|);
    var file := prefix + b + suffix;
    WideFields(wide, count, size, |prefix|);
    assert file[|prefix|..|prefix| + 4] == b[..4];
    assert file[|prefix| + |b| - 20..|prefix| + |b| - 16] == b[|b| - 20..|b| - 16];
    FieldBehind(prefix, b, suffix, 4, 8);
    FieldBehind(prefix, b, suffix, 32, 8);
    FieldBehind(prefix, b, suffix, 40, 8);
    FieldBehind(prefix, b, suffix, |b| - 12, 8);
  }

  /** The directory of a written archive is found where it is, whatever the body is, if and only if the end record signals
      its ZIP64 records. Beside real numbers the records are overlooked, and 65535 entries without records are taken for the
      signal. */
  lemma FileIsLocatedIff(z: ZipFile)
    requires ValidFile(z)
    ensures var directory := DirectoryBytes(z.entries);
      Locate(FileBytes(z)) == Declared(|z.entries|, |directory|, |z.body| + |directory|) <==> SignalsZip64(z)
  {
    hide EndBytes, WideBytes, Locate, LocateWide, DirectoryBytes, ValidEnd, ValidWide;
    var directory := DirectoryBytes(z.entries);
    BytesOfWidths();
    EntriesTakeBytes(z.entries);
    match z.wide
    case None =>
      EndIsRead(z.body + directory, z.end);
      assert FileBytes(z) == z.body + directory + EndBytes(z.end);
      if IsWide(z.end) { EndIsNoWideEnd(z.body + directory, z.end); }
    case Some(wide) =>
      var b := WideBytes(wide, |z.entries|, |directory|, |z.body| + |directory|);
      EndIsRead(z.body + directory + b, z.end);
      WideIsRead(z.body + directory, wide, |z.entries|, |directory|, EndBytes(z.end));
      WideFields(wide, |z.entries|, |directory|, |z.body| + |directory|);
      assert FileBytes(z) == z.body + directory + b + EndBytes(z.end);
  }

  /** Wherever a locator before the end record leads, it is not to the end record itself. */
  lemma EndIsNoWideEnd(prefix: seq<Byte>, end: End)
    requires ValidEnd(end)
    ensures var declared := LocateWide(prefix + EndBytes(end), |prefix|); declared.Declared? ==> declared.end != |prefix|
  {
    hide Field;
    var file := prefix + EndBytes(end);
    assert file[|prefix| + 2] == END[2];
    var declared := LocateWide(file, |prefix|);
    if declared.Declared? { assert file[declared.end..declared.end + 4][2] == file[declared.end + 2]; }
  }

  lemma {:induction false} EntriesTakeBytes(entries: seq<Entry>)
    ensures |entries| <= |DirectoryBytes(entries)|
  {
    if entries != [] { EntriesTakeBytes(entries[1..]); }
  }

  // ----- its headers are read -----

  function Lengths(e: Entry): Header {
    Header(|e.name|, |e.extra|, |e.comment|)
  }

  function AllLengths(entries: seq<Entry>): (headers: seq<Header>)
    ensures |headers| == |entries| && forall i :: 0 <= i < |entries| ==> headers[i] == Lengths(entries[i])
  {
    if entries == [] then [] else [Lengths(entries[0])] + AllLengths(entries[1..])
  }

  lemma EntryIsRead(e: Entry, suffix: seq<Byte>)
    requires ValidEntry(e)
    ensures var rest := EntryBytes(e) + suffix;
      && |EntryBytes(e)| == 46 + |e.name| + |e.extra| + |e.comment|
      && StartsEntry(rest) && HeaderOf(rest) == Lengths(e) && From(rest, |EntryBytes(e)|) == suffix
  {
    hide Field;
    BytesOfWidths();
    var rest := EntryBytes(e) + suffix;
    var (name, extra, comment) := (Written(|e.name|, 2), Written(|e.extra|, 2), Written(|e.comment|, 2));
    var tail := e.after + e.name + e.extra + e.comment + suffix;
    FieldIsRead(ENTRY + e.before, |e.name|, 2, extra + comment + tail);
    assert rest == ENTRY + e.before + name + (extra + comment + tail);
    FieldIsRead(ENTRY + e.before + name, |e.extra|, 2, comment + tail);
    assert rest == ENTRY + e.before + name + extra + (comment + tail);
    FieldIsRead(ENTRY + e.before + name + extra, |e.comment|, 2, tail);
    assert rest == ENTRY + e.before + name + extra + comment + tail;
  }

  lemma {:induction false} DirectoryIsRead(entries: seq<Entry>, suffix: seq<Byte>)
    requires forall i :: 0 <= i < |entries| ==> ValidEntry(entries[i])
    requires !StartsEntry(suffix)
    ensures Headers(DirectoryBytes(entries) + suffix) == AllLengths(entries)
    ensures Span(AllLengths(entries)) == |DirectoryBytes(entries)|
    ensures Sum(NameSizes(AllLengths(entries))) == NameTotal(entries)
  {
    hide StartsEntry, HeaderOf, EntryBytes, From, Span, Sum, NameSizes;
    if entries == [] {
      assert DirectoryBytes(entries) + suffix == suffix;
      NoSpan();
    } else {
      var rest := DirectoryBytes(entries[1..]) + suffix;
      DirectoryIsRead(entries[1..], suffix);
      EntryIsRead(entries[0], rest);
      assert DirectoryBytes(entries) + suffix == EntryBytes(entries[0]) + rest;
      SpanOfFirst(Lengths(entries[0]), AllLengths(entries[1..]));
    }
  }

  function NameTotal(entries: seq<Entry>): nat {
    if entries == [] then 0 else |entries[0].name| + NameTotal(entries[1..])
  }

  lemma NoSpan()
    ensures Span([]) == 0 && Sum(NameSizes([])) == 0
  {}

  lemma {:induction false} SpanOfFirst(h: Header, headers: seq<Header>)
    ensures Span([h] + headers) == 46 + h.name + h.extra + h.comment + Span(headers)
    ensures Sum(NameSizes([h] + headers)) == h.name + Sum(NameSizes(headers))
  {
    hide Span, Sum, NameSizes;
    var all := [h] + headers;
    NoSpan();
    if headers == [] {
      NextHeader(all, 0);
      assert all[..1] == all && all[..0] == [];
    } else {
      var n := |headers| - 1;
      SpanOfFirst(h, headers[..n]);
      NextHeader(all, n + 1);
      NextHeader(headers, n);
      assert all[..n + 1] == [h] + headers[..n];
      assert all[..n + 2] == all && headers[..n + 1] == headers;
    }
  }

  /** Neither end record passes for an entry. */
  lemma TrailerIsNoEntry(z: ZipFile)
    ensures !StartsEntry(Trailer(z))
  {
    var trailer := Trailer(z);
    if z.wide.Some? {
      assert trailer[2] == WIDE_END[2];
    } else {
      assert trailer[2] == END[2];
    }
  }

  /** A directory of bearable size whose names are of bearable length. */
  predicate Bearable(z: ZipFile) {
    && |DirectoryBytes(z.entries)| <= MAX_CENTRAL_DIRECTORY_BYTES
    && forall i :: 0 <= i < |z.entries| ==> |z.entries[i].name| <= MAX_ENTRY_NAME_BYTES
  }

  lemma BehindBody(z: ZipFile)
    ensures From(FileBytes(z), |z.body|) == DirectoryBytes(z.entries) + Trailer(z)
  {
    hide Trailer;
    assert FileBytes(z)[|z.body|..] == DirectoryBytes(z.entries) + Trailer(z);
  }

  /** From the bytes of any archive as it is written, if its end record signals its ZIP64 records: a bearable one fails exactly
      for the limit its entries and names exceed, and is otherwise charged with them; any other fails. */
  lemma WrittenArchiveFailsIff(z: ZipFile, jarEntries: nat, left: Remaining)
    requires ValidFile(z)
    ensures var outcome := FileOutcome(FileBytes(z), jarEntries, left);
      SignalsZip64(z) ==>
        && (Bearable(z) ==> outcome.failure == ChargeFailure(|z.entries|, NameTotal(z.entries), jarEntries, left))
        && (!Bearable(z) ==> outcome.failure.Some?)
        && (outcome.failure.None? ==>
              outcome.left == Remaining(left.entries - |z.entries|, left.names - NameTotal(z.entries)))
  {
    hide ArchiveOutcome, Span, Sum, NameSizes, Locate, Headers, StartsEntry, Trailer, FileBytes, ValidEnd, ValidWide, ValidEntry;
    if SignalsZip64(z) {
      var directory := DirectoryBytes(z.entries);
      var a := Archive(|z.entries|, |directory|, AllLengths(z.entries));
      FileIsLocatedIff(z);
      TrailerIsNoEntry(z);
      DirectoryIsRead(z.entries, Trailer(z));
      BehindBody(z);
      assert ArchiveOf(FileBytes(z), Locate(FileBytes(z))) == a;
      assert a.headers[..a.count] == a.headers;
      ArchiveFailsIff(a, jarEntries, left);
    }
  }

  // ----- ZIP64 records beside real numbers -----

  function WideOf(z: ZipFile): seq<Byte>
    requires z.wide.Some?
  {
    var directory := DirectoryBytes(z.entries);
    WideBytes(z.wide.value, |z.entries|, |directory|, |z.body| + |directory|)
  }

  /** The directory is sought as far behind its place as the records are long. */
  lemma OverlookedRecordsShiftTheDirectory(z: ZipFile)
    requires ValidFile(z) && z.wide.Some? && !IsWide(z.end)
    ensures var directory := DirectoryBytes(z.entries);
      Locate(FileBytes(z)) == Declared(|z.entries|, |directory|, |z.body| + |directory| + |WideOf(z)|)
  {
    hide EndBytes, WideBytes, Locate, LocateWide, DirectoryBytes, ValidEnd, ValidWide;
    var directory := DirectoryBytes(z.entries);
    EndIsRead(z.body + directory + WideOf(z), z.end);
    assert FileBytes(z) == z.body + directory + WideOf(z) + EndBytes(z.end);
  }

  /** Unless the bytes at that place pass for an entry, a bearable archive with entries is reported malformed. */
  lemma OverlookedRecordsAreMalformed(z: ZipFile, jarEntries: nat, left: Remaining)
    requires ValidFile(z) && z.wide.Some? && !IsWide(z.end) && z.entries != [] && Bearable(z)
    requires |z.entries| <= jarEntries && |z.entries| <= left.entries
    requires !StartsEntry(From(FileBytes(z), |z.body| + |WideOf(z)|))
    ensures FileOutcome(FileBytes(z), jarEntries, left) == Outcome(Some(Malformed), left)
  {
    hide Locate, StartsEntry, From, FileBytes, WideOf, EntryBytes, ValidFile, IsWide;
    OverlookedRecordsShiftTheDirectory(z);
    EntriesTakeBytes(z.entries);
    var a := ArchiveOf(FileBytes(z), Locate(FileBytes(z)));
    assert a.headers == [];
    assert a.headers[..0] == [];
    NoSpan();
  }

  function Zeros(n: nat): (bytes: seq<Byte>)
    ensures |bytes| == n && forall i :: 0 <= i < n ==> bytes[i] == 0
  {
    if n == 0 then [] else [0] + Zeros(n - 1)
  }

  /** An archive of one entry, all of its numbers real, with ZIP64 records all the same. */
  function OneEntryWithRecords(): ZipFile {
    ZipFile([], [Entry(Zeros(24), Zeros(12), [97], [], [])],
            Some(Wide(Zeros(20), Zeros(8), Zeros(4), Zeros(4))), End([1, 0], 1, 47, 0, []))
  }

  lemma OneEntryWithRecordsIsMalformed(jarEntries: nat, left: Remaining)
    requires jarEntries >= 1 && left.entries >= 1
    ensures ValidFile(OneEntryWithRecords())
    ensures FileOutcome(FileBytes(OneEntryWithRecords()), jarEntries, left) == Outcome(Some(Malformed), left)
  {
    hide Zeros, Written, Field, FileOutcome, Locate;
    var z := OneEntryWithRecords();
    var file := FileBytes(z);
    var directory := DirectoryBytes(z.entries);
    assert DirectoryBytes(z.entries[1..]) == [];
    assert directory == EntryBytes(z.entries[0]) && |directory| == 47;
    assert |WideOf(z)| == 76 && |EndBytes(z.end)| == 22;
    assert file[76] == WideOf(z)[29] == Zeros(20)[17] == 0;
    assert From(file, 76)[..4][0] == file[76];
    OverlookedRecordsAreMalformed(z, jarEntries, left);
  }
}
