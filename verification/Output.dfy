/** Reading a child's output stream with bounded memory: its head, its tail, and whether anything
    in between was dropped. */
module BoundedReading {
  import opened Common

  datatype BoundedOutput<T> = BoundedOutput(bytes: seq<T>, tail: seq<T>, truncated: bool)

  function Flatten<T>(chunks: seq<seq<T>>): seq<T> {
    if chunks == [] then [] else Flatten(chunks[..|chunks| - 1]) + chunks[|chunks| - 1]
  }

  function Head<T>(s: seq<T>, n: nat): seq<T> {
    if |s| <= n then s else s[..n]
  }

  function Tail<T>(s: seq<T>, n: nat): seq<T> {
    if |s| <= n then s else s[|s| - n..]
  }

  /** What is kept of the stream so far. */
  function Kept<T>(stream: seq<T>, limit: nat): BoundedOutput<T> {
    BoundedOutput(Head(stream, limit), Tail(stream, limit), limit < |stream|)
  }

  lemma TailOfConcat<T>(s: seq<T>, chunk: seq<T>, n: nat)
    ensures n <= |chunk| ==> Tail(s + chunk, n) == chunk[|chunk| - n..]
    ensures |chunk| < n && |s| + |chunk| <= n ==> Tail(s + chunk, n) == s + chunk && Tail(s, n) == s
    ensures |chunk| < n < |s| + |chunk| ==>
              var tail := Tail(s, n); Tail(s + chunk, n) == tail[|tail| + |chunk| - n..] + chunk
  {
  }

  lemma HeadOfConcat<T>(s: seq<T>, chunk: seq<T>, n: nat)
    ensures Head(s + chunk, n) == Head(s, n) + Head(chunk, n - |Head(s, n)|)
  {
  }

  method Absorb<T>(output: BoundedOutput<T>, buffer: seq<T>, limit: nat, ghost before: seq<T>) returns (after: BoundedOutput<T>)
    requires output == Kept(before, limit)
    ensures after == Kept(before + buffer, limit)
  {
    TailOfConcat(before, buffer, limit);
    HeadOfConcat(before, buffer, limit);
    var tail;
    if |buffer| >= limit {
      tail := buffer[|buffer| - limit..];
    } else {
      var excess := if |output.tail| + |buffer| < limit then 0 else |output.tail| + |buffer| - limit;
      tail := output.tail[excess..] + buffer;
    }
    assert tail == Tail(before + buffer, limit);
    var remaining := if limit < |output.bytes| then 0 else limit - |output.bytes|;
    var kept := if |buffer| < remaining then |buffer| else remaining;
    assert buffer[..kept] == Head(buffer, remaining);
    after := BoundedOutput(output.bytes + buffer[..kept], tail, output.truncated || |buffer| > remaining);
  }

  /** `chunks` are the reads of the stream until its end; every read returns at least a byte. A
      missing stream has no output. However the stream is cut into reads, its first and its last
      `limit` bytes are kept, and it counts as truncated exactly if it is longer. */
  method ReadBounded<T>(reader: Option<seq<seq<T>>>, limit: nat) returns (output: BoundedOutput<T>)
    requires reader.Some? ==> forall i :: 0 <= i < |reader.value| ==> reader.value[i] != []
    ensures var stream := if reader.Some? then Flatten(reader.value) else [];
            && output.bytes == Head(stream, limit) && output.tail == Tail(stream, limit)
            && (output.truncated <==> limit < |stream|)
  {
    output := BoundedOutput([], [], false);
    if reader.None? {
      return;
    }
    var chunks := reader.value;
    var i := 0;
    while i < |chunks|
      invariant 0 <= i <= |chunks|
      invariant output == Kept(Flatten(chunks[..i]), limit)
    {
      assert chunks[..i + 1][..i] == chunks[..i];
      output := Absorb(output, chunks[i], limit, Flatten(chunks[..i]));
      i := i + 1;
    }
    assert chunks[..i] == chunks;
  }

  function IntoBytes<T>(output: BoundedOutput<T>, preferTail: bool): seq<T> {
    if preferTail && output.truncated then output.tail else output.bytes
  }

  /** What a caller gets: the whole stream if it fits, else the preferred end of it. */
  lemma BytesOfStream<T>(stream: seq<T>, limit: nat, preferTail: bool)
    ensures var bytes := IntoBytes(Kept(stream, limit), preferTail);
            && |bytes| == (if |stream| <= limit then |stream| else limit)
            && (|stream| <= limit ==> bytes == stream)
            && (preferTail ==> bytes == stream[|stream| - |bytes|..])
            && (!preferTail ==> bytes == stream[..|bytes|])
  {
  }
}

/** Two streams drained concurrently into memory under one shared budget, taken by
    compare-and-exchange. */
module OutputBudget {
  import opened Common

  /** Where a reader is: between reads, with a buffer of `wanted` bytes and a view of the budget,
      with `reserved` bytes granted, or about to report that it dropped some. */
  datatype Phase =
    | Reading
    | Loading(wanted: nat)
    | Exchanging(wanted: nat, remaining: nat)
    | Granted(wanted: nat, reserved: nat)
    | Reporting
    | Finished

  datatype Reader = Reader(stream: seq<Byte>, consumed: nat, stored: seq<Byte>, phase: Phase)

  datatype Which = Stdout | Stderr

  datatype State = State(budget: nat, truncated: bool, stdout: Reader, stderr: Reader)

  function Get(s: State, which: Which): Reader {
    if which == Stdout then s.stdout else s.stderr
  }

  function Put(s: State, which: Which, r: Reader): State {
    if which == Stdout then s.(stdout := r) else s.(stderr := r)
  }

  datatype Step =
    | Read(count: nat)
    | Load
    | Exchange(spurious: bool)
    | Store
    | Report
    | End

  /** One atomic step of one reader. A weak exchange may fail although the budget is unchanged. */
  predicate Takes(s: State, which: Which, step: Step, t: State) {
    var r := Get(s, which);
    match step
    case Read(count) =>
      && r.phase.Reading? && 0 < count <= |r.stream| - r.consumed
      && t == Put(s, which, r.(phase := Loading(count)))
    case Load =>
      && r.phase.Loading?
      && t == Put(s, which, r.(phase := Exchanging(r.phase.wanted, s.budget)))
    case Exchange(spurious) =>
      && r.phase.Exchanging?
      && var reserved := Min(r.phase.remaining, r.phase.wanted);
      if s.budget == r.phase.remaining && !spurious then
        t == Put(s.(budget := s.budget - reserved), which, r.(phase := Granted(r.phase.wanted, reserved)))
      else
        t == Put(s, which, r.(phase := Exchanging(r.phase.wanted, s.budget)))
    case Store =>
      && r.phase.Granted? && r.consumed + r.phase.wanted <= |r.stream| && r.phase.reserved <= r.phase.wanted
      && t == Put(s, which, r.(consumed := r.consumed + r.phase.wanted,
                               stored := r.stored + r.stream[r.consumed..r.consumed + r.phase.reserved],
                               phase := if r.phase.reserved < r.phase.wanted then Reporting else Reading))
    case Report =>
      && r.phase.Reporting?
      && t == Put(s.(truncated := true), which, r.(phase := Reading))
    case End =>
      && r.phase.Reading? && r.consumed == |r.stream|
      && t == Put(s, which, r.(phase := Finished))
  }

  predicate Start(s: State, budget: nat, out: seq<Byte>, err: seq<Byte>) {
    s == State(budget, false, Reader(out, 0, [], Reading), Reader(err, 0, [], Reading))
  }

  ghost predicate IsRun(states: seq<State>, moves: seq<(Which, Step)>, budget: nat, out: seq<Byte>, err: seq<Byte>) {
    && |states| == |moves| + 1 && Start(states[0], budget, out, err)
    && forall i :: 0 <= i < |moves| ==> Takes(states[i], moves[i].0, moves[i].1, states[i + 1])
  }

  function InFlight(r: Reader): nat {
    if r.phase.Granted? then r.phase.reserved else 0
  }

  predicate Dropped(r: Reader) { |r.stored| < r.consumed }

  /** A reader stores a prefix of its stream, and drops bytes only once the budget is used up. */
  predicate ReaderInv(s: State, r: Reader) {
    && r.consumed <= |r.stream|
    && r.stored <= r.stream && |r.stored| <= r.consumed
    && (Dropped(r) ==> s.budget == 0 && (s.truncated || r.phase.Reporting?))
    && (r.phase.Loading? || r.phase.Exchanging? || r.phase.Granted? ==> 0 < r.phase.wanted <= |r.stream| - r.consumed)
    && (r.phase.Granted? ==> r.phase.reserved <= r.phase.wanted)
    && (r.phase.Granted? && r.phase.reserved < r.phase.wanted ==> s.budget == 0)
    && (r.phase.Granted? && Dropped(r) ==> r.phase.reserved == 0)
    && (r.phase.Reporting? ==> Dropped(r))
    && (r.phase.Finished? ==> r.consumed == |r.stream|)
  }

  predicate Inv(s: State, budget: nat) {
    && ReaderInv(s, s.stdout) && ReaderInv(s, s.stderr)
    && s.budget + |s.stdout.stored| + |s.stderr.stored| + InFlight(s.stdout) + InFlight(s.stderr) == budget
    && (s.truncated ==> Dropped(s.stdout) || Dropped(s.stderr))
  }

  lemma OtherReaderUnharmed(s: State, t: State, r: Reader)
    requires ReaderInv(s, r) && t.budget <= s.budget && (s.truncated ==> t.truncated)
    ensures ReaderInv(t, r)
  {
  }

  lemma StoringKeepsPrefix(r: Reader)
    requires r.consumed <= |r.stream| && r.stored <= r.stream && |r.stored| <= r.consumed && r.phase.Granted?
    requires r.phase.reserved <= |r.stream| - r.consumed && (Dropped(r) ==> r.phase.reserved == 0)
    ensures var stored := r.stored + r.stream[r.consumed..r.consumed + r.phase.reserved];
            stored <= r.stream && |stored| == |r.stored| + r.phase.reserved
  {
    if !Dropped(r) {
      assert r.stored == r.stream[..r.consumed];
      assert r.stored + r.stream[r.consumed..r.consumed + r.phase.reserved] == r.stream[..r.consumed + r.phase.reserved];
    }
  }

  lemma OwnReaderKept(s: State, which: Which, step: Step, t: State)
    requires ReaderInv(s, Get(s, which)) && Takes(s, which, step, t)
    ensures ReaderInv(t, Get(t, which))
  {
    var r := Get(s, which);
    if step.Store? {
      StoringKeepsPrefix(r);
    }
  }

  lemma StepKeepsInv(s: State, which: Which, step: Step, t: State, budget: nat)
    requires Inv(s, budget) && Takes(s, which, step, t)
    ensures Inv(t, budget)
    ensures t.stdout.stream == s.stdout.stream && t.stderr.stream == s.stderr.stream
  {
    OwnReaderKept(s, which, step, t);
    var other := if which == Stdout then Stderr else Stdout;
    OtherReaderUnharmed(s, t, Get(s, other));
  }

  lemma {:induction false} RunKeepsInv(states: seq<State>, moves: seq<(Which, Step)>, budget: nat, out: seq<Byte>, err: seq<Byte>, n: nat)
    requires IsRun(states, moves, budget, out, err) && n < |states|
    ensures Inv(states[n], budget) && states[n].stdout.stream == out && states[n].stderr.stream == err
    decreases n
  {
    if n != 0 {
      RunKeepsInv(states, moves, budget, out, err, n - 1);
      StepKeepsInv(states[n - 1], moves[n - 1].0, moves[n - 1].1, states[n], budget);
    }
  }

  /** However the two readers interleave and however often an exchange fails: together they never
      keep more than the budget, each keeps a prefix of its stream, and when both have ended they
      kept exactly the smaller of the bytes read and the budget, and `truncated` is set exactly if
      a byte was dropped. */
  lemma BudgetIsUsedExactly(states: seq<State>, moves: seq<(Which, Step)>, budget: nat, out: seq<Byte>, err: seq<Byte>, n: nat)
    requires IsRun(states, moves, budget, out, err) && n < |states|
    ensures var s := states[n];
            && s.stdout.stored <= out && s.stderr.stored <= err
            && |s.stdout.stored| + |s.stderr.stored| <= budget
            && (s.stdout.phase.Finished? && s.stderr.phase.Finished? ==>
                  && |s.stdout.stored| + |s.stderr.stored| == Min(|out| + |err|, budget)
                  && (s.truncated <==> |out| + |err| > budget))
  {
    RunKeepsInv(states, moves, budget, out, err, n);
  }
}
