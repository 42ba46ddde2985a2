/**
 Capturing a child's stdout and stderr under one byte budget: two reader threads that share the budget
 under a mutex, in every interleaving and chunking, against the deterministic model's `cap`.
 */
module OutputBudget {
  import opened Common

  const CHUNK_BYTES: nat := 4096

  /** One reader thread: what its pipe still holds, the chunk it has read but not yet charged, what it kept. */
  datatype Reader = Reader(rest: Bytes, chunk: Bytes, kept: Bytes, done: bool)

  datatype State = State(out: Reader, err: Reader, left: nat, truncated: bool)

  /** A scheduler decision: some thread's next `read` returns up to `n` bytes, or it charges its chunk. */
  datatype Event = Read(stdout: bool, n: nat) | Charge(stdout: bool)

  function ReadChunk(r: Reader, n: nat): Reader {
    if r.done || r.chunk != [] then r
    else if r.rest == [] then r.(done := true)
    else
      var m := if n == 0 then 1 else Min(Min(n, CHUNK_BYTES), |r.rest|);
      r.(chunk := r.rest[..m], rest := r.rest[m..])
  }

  /** The critical section: what is kept of a chunk when `left` bytes remain. */
  function Kept(chunk: Bytes, left: nat): (kept: Bytes) {
    chunk[..Min(|chunk|, left)]
  }

  function ChargeChunk(r: Reader, left: nat): Reader {
    r.(chunk := [], kept := r.kept + Kept(r.chunk, left))
  }

  function Next(s: State, e: Event): State {
    match e
    case Read(stdout, n) =>
      if stdout then s.(out := ReadChunk(s.out, n)) else s.(err := ReadChunk(s.err, n))
    case Charge(stdout) =>
      var r := if stdout then s.out else s.err;
      var keep := |Kept(r.chunk, s.left)|;
      var s' := s.(left := s.left - keep, truncated := s.truncated || keep < |r.chunk|);
      if stdout then s'.(out := ChargeChunk(r, s.left)) else s'.(err := ChargeChunk(r, s.left))
  }

  function Run(s: State, events: seq<Event>): State {
    if events == [] then s else Next(Run(s, events[..|events| - 1]), events[|events| - 1])
  }

  function Start(stdout: Bytes, stderr: Bytes, max: nat): State {
    State(Reader(stdout, [], [], false), Reader(stderr, [], [], false), max, false)
  }

  predicate Finished(s: State) {
    s.out.done && s.err.done
  }

  // ---------- Every schedule ----------

  /** How much of the stream has been charged so far. */
  function Charged(r: Reader, stream: Bytes): int {
    |stream| - |r.rest| - |r.chunk|
  }

  predicate ReaderOk(r: Reader, stream: Bytes, left: nat) {
    && Charged(r, stream) >= 0
    && stream[Charged(r, stream)..] == r.chunk + r.rest
    && r.kept <= stream
    && |r.kept| <= Charged(r, stream)
    && (left > 0 ==> |r.kept| == Charged(r, stream))
    && (r.done ==> r.rest == [] && r.chunk == [])
  }

  predicate Invariant(s: State, stdout: Bytes, stderr: Bytes, max: nat) {
    && ReaderOk(s.out, stdout, s.left)
    && ReaderOk(s.err, stderr, s.left)
    && |s.out.kept| + |s.err.kept| + s.left == max
    && (s.truncated <==> |s.out.kept| + |s.err.kept| < Charged(s.out, stdout) + Charged(s.err, stderr))
  }

  lemma ReadKeepsReader(r: Reader, stream: Bytes, left: nat, n: nat)
    requires ReaderOk(r, stream, left)
    ensures var r' := ReadChunk(r, n); ReaderOk(r', stream, left) && Charged(r', stream) == Charged(r, stream)
  {
    var r' := ReadChunk(r, n);
    assert r'.chunk + r'.rest == r.chunk + r.rest;
  }

  lemma ChargeKeepsReader(r: Reader, stream: Bytes, left: nat)
    requires ReaderOk(r, stream, left)
    ensures ReaderOk(ChargeChunk(r, left), stream, left - |Kept(r.chunk, left)|)
  {
    var k := Charged(r, stream);
    assert stream[k..][..|r.chunk|] == r.chunk;
    assert stream[k + |r.chunk|..] == stream[k..][|r.chunk|..] == r.rest;
    if left > 0 {
      assert stream == stream[..k] + (r.chunk + r.rest);
    }
  }

  lemma NextKeepsInvariant(s: State, e: Event, stdout: Bytes, stderr: Bytes, max: nat)
    requires Invariant(s, stdout, stderr, max)
    ensures Invariant(Next(s, e), stdout, stderr, max)
  {
    match e
    case Read(isOut, n) =>
      ReadKeepsReader(s.out, stdout, s.left, n);
      ReadKeepsReader(s.err, stderr, s.left, n);
    case Charge(isOut) =>
      if isOut {
        ChargeKeepsReader(s.out, stdout, s.left);
      } else {
        ChargeKeepsReader(s.err, stderr, s.left);
      }
  }

  lemma {:induction false} InvariantHolds(stdout: Bytes, stderr: Bytes, max: nat, events: seq<Event>)
    ensures Invariant(Run(Start(stdout, stderr, max), events), stdout, stderr, max)
  {
    if events == [] {
      assert [] + stdout == stdout && [] + stderr == stderr;
    } else {
      InvariantHolds(stdout, stderr, max, events[..|events| - 1]);
      NextKeepsInvariant(Run(Start(stdout, stderr, max), events[..|events| - 1]), events[|events| - 1],
                         stdout, stderr, max);
    }
  }

  /**
   Whatever the interleaving and the chunking, once both readers reach end of file each has kept a
   prefix of its stream, the kept bytes fill the budget as far as there is output, and the truncation
   flag says whether there was more.
   */
  lemma TotalsDoNotDependOnSchedule(stdout: Bytes, stderr: Bytes, max: nat, events: seq<Event>)
    requires Finished(Run(Start(stdout, stderr, max), events))
    ensures var s := Run(Start(stdout, stderr, max), events);
            && s.out.kept <= stdout && s.err.kept <= stderr
            && |s.out.kept| + |s.err.kept| == Min(|stdout| + |stderr|, max)
            && (s.truncated <==> |stdout| + |stderr| > max)
  {
    InvariantHolds(stdout, stderr, max, events);
  }

  /** A read brings the next octets, one at least and 4096 at most, and finds the end of file when none are left. */
  lemma ReadBringsNext(r: Reader, n: nat)
    ensures var after := ReadChunk(r, n);
            if r.done || r.chunk != [] then after == r
            else if r.rest == [] then after == r.(done := true)
            else && after.chunk + after.rest == r.rest && after.kept == r.kept && !after.done
                 && 1 <= |after.chunk| <= 4096 && (|after.chunk| == 1 || |after.chunk| <= n)
                 && (0 < n <= 4096 && n <= |r.rest| ==> |after.chunk| == n)
                 && (n >= 4096 && |r.rest| >= 4096 ==> |after.chunk| == 4096)
  {
  }

  /** How far a reader is from its end. */
  function Ahead(r: Reader): nat {
    if r.done then 0 else 2 * |r.rest| + (if r.chunk == [] then 1 else 2)
  }

  /** Nothing can get stuck: from every state some schedule lets both readers reach the end of file. */
  lemma {:induction false} EveryRunCanFinish(s: State) returns (more: seq<Event>)
    ensures Finished(Run(s, more))
    decreases Ahead(s.out) + Ahead(s.err)
  {
    if Finished(s) {
      more := [];
    } else {
      var stdout := !s.out.done;
      var r := if stdout then s.out else s.err;
      var e := if r.chunk == [] then Read(stdout, 1) else Charge(stdout);
      ReadBringsNext(r, 1);
      var rest := EveryRunCanFinish(Next(s, e));
      more := [e] + rest;
      RunAppend(s, [e], rest);
      assert Run(s, [e]) == Next(Run(s, []), e) by {
        assert [e][..0] == [];
      }
    }
  }

  // ---------- The deterministic model ----------

  /** The model's outcome: stdout cut to the budget, stderr cut to what is left. */
  function Capped(stdout: Bytes, stderr: Bytes, max: nat): (Bytes, Bytes, bool) {
    var out := stdout[..Min(|stdout|, max)];
    (out, stderr[..Min(|stderr|, max - |out|)], |stdout| + |stderr| > max)
  }

  predicate OnlyStdout(events: seq<Event>) {
    forall k | 0 <= k < |events| :: events[k].stdout
  }

  lemma {:induction false} StderrWaits(s: State, events: seq<Event>)
    requires OnlyStdout(events)
    ensures Run(s, events).err == s.err
  {
    if events != [] {
      assert events[|events| - 1].stdout;
      StderrWaits(s, events[..|events| - 1]);
    }
  }

  lemma {:induction false} RunAppend(s: State, first: seq<Event>, second: seq<Event>)
    ensures Run(s, first + second) == Run(Run(s, first), second)
  {
    if second == [] {
      assert first + second == first;
    } else {
      assert (first + second)[..|first + second| - 1] == first + second[..|second| - 1];
      RunAppend(s, first, second[..|second| - 1]);
    }
  }

  lemma {:induction false} DoneStaysDone(s: State, events: seq<Event>)
    requires s.out.done && s.out.chunk == []
    ensures Run(s, events).out == s.out
  {
    if events != [] {
      DoneStaysDone(s, events[..|events| - 1]);
      assert s.out.kept + [] == s.out.kept;
    }
  }

  /** What stdout-first leaves is determined by the lengths. */
  lemma CappedIs(stdout: Bytes, stderr: Bytes, max: nat, out: Bytes, err: Bytes, truncated: bool)
    requires out <= stdout && err <= stderr && |out| == Min(|stdout|, max)
    requires |out| + |err| == Min(|stdout| + |stderr|, max)
    requires truncated <==> |stdout| + |stderr| > max
    ensures (out, err, truncated) == Capped(stdout, stderr, max)
  {
    assert out == stdout[..|out|] && err == stderr[..|err|];
  }

  /** Before stderr is touched, stdout alone has filled the budget as far as it goes. */
  lemma StdoutAlone(stdout: Bytes, stderr: Bytes, max: nat, first: seq<Event>)
    requires OnlyStdout(first) && Run(Start(stdout, stderr, max), first).out.done
    ensures var out := Run(Start(stdout, stderr, max), first).out;
            |out.kept| == Min(|stdout|, max) && out.chunk == []
  {
    InvariantHolds(stdout, stderr, max, first);
    StderrWaits(Start(stdout, stderr, max), first);
  }

  /** The model is the schedule that reads stdout to its end before stderr is touched, in any chunks. */
  lemma CapIsStdoutFirst(stdout: Bytes, stderr: Bytes, max: nat, first: seq<Event>, second: seq<Event>)
    requires OnlyStdout(first) && Run(Start(stdout, stderr, max), first).out.done
    requires Finished(Run(Start(stdout, stderr, max), first + second))
    ensures var s := Run(Start(stdout, stderr, max), first + second);
            (s.out.kept, s.err.kept, s.truncated) == Capped(stdout, stderr, max)
  {
    StdoutAlone(stdout, stderr, max, first);
    RunAppend(Start(stdout, stderr, max), first, second);
    DoneStaysDone(Run(Start(stdout, stderr, max), first), second);
    TotalsDoNotDependOnSchedule(stdout, stderr, max, first + second);
    var s := Run(Start(stdout, stderr, max), first + second);
    CappedIs(stdout, stderr, max, s.out.kept, s.err.kept, s.truncated);
  }

  /**
   `cap` as written, truncating in place. The total is a saturating machine-word sum, which two vectors are too
   short to saturate.
   */
  method Cap(stdout: Vector, stderr: Vector, budget: usize) returns (out: Bytes, err: Bytes, truncated: bool)
    ensures (out, err, truncated) == Capped(stdout, stderr, budget)
  {
    out, err := stdout, stderr;
    var total := Min(|out| + |err|, USIZE_MAX);
    if |out| > budget {
      out := out[..budget];
    }
    var room := if budget >= |out| then budget - |out| else 0;
    if |err| > room {
      err := err[..room];
    }
    assert stdout[..|stdout|] == stdout && stderr[..|stderr|] == stderr;
    truncated := total > budget;
  }

  class Budget {
    var left: nat
    var truncated: bool

    constructor (max: nat)
      ensures left == max && !truncated
    {
      left, truncated := max, false;
    }

    /** One turn of the critical section. */
    method Take(chunk: Bytes) returns (kept: Bytes)
      modifies this
      ensures kept == Kept(chunk, old(left))
      ensures left == old(left) - |kept|
      ensures truncated == (old(truncated) || |kept| < |chunk|)
    {
      var keep := Min(|chunk|, left);
      kept := chunk[..keep];
      left := left - keep;
      truncated := truncated || keep < |chunk|;
    }
  }

  /** The reader loop of one thread while no other thread takes from the budget. */
  method ReadToEnd(stream: Bytes, sizes: nat -> nat, budget: Budget) returns (result: Bytes)
    modifies budget
    ensures result == Kept(stream, old(budget.left))
    ensures budget.left == old(budget.left) - |result|
    ensures budget.truncated == (old(budget.truncated) || |result| < |stream|)
  {
    result := [];
    var position := 0;
    while position < |stream|
      invariant position <= |stream|
      invariant result == Kept(stream[..position], old(budget.left))
      invariant budget.left == old(budget.left) - |result|
      invariant budget.truncated == (old(budget.truncated) || |result| < position)
    {
      var n := sizes(position);
      var m := if n == 0 then 1 else Min(Min(n, CHUNK_BYTES), |stream| - position);
      var kept := budget.Take(stream[position..position + m]);
      result := result + kept;
      position := position + m;
    }
    assert stream[..position] == stream;
  }

  /** Both streams in turn, stdout first, give exactly what the model gives. */
  method CaptureStdoutFirst(stdout: Bytes, stderr: Bytes, max: nat, sizes: nat -> nat)
    returns (out: Bytes, err: Bytes, truncated: bool)
    ensures (out, err, truncated) == Capped(stdout, stderr, max)
  {
    var budget := new Budget(max);
    out := ReadToEnd(stdout, sizes, budget);
    err := ReadToEnd(stderr, sizes, budget);
    truncated := budget.truncated;
  }
}
