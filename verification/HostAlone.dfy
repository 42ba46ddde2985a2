/** What each operation of the Ubuntu port comes to when nothing fails, nobody cancels it and nobody interferes. */
module HostAlone {
  import opened Common
  import opened Paths
  import opened HostCas
  import opened HostRuns
  import opened HostSteps

  /** A step with no cancellation and no error, in which the first `m` octets have been written. */
  function Quiet(m: nat): Choice {
    Choice(false, false, m, true)
  }

  /** The run of one call in which nobody else acts, no token says yes and no request to the file system fails. */
  predicate IsQuietRun(events: seq<Event>, id: Id, pid: nat, p: Path, op: Op) {
    && events != [] && events[0] == Invoke(id, pid, p, op)
    && forall k | 1 <= k < |events| :: IsQuiet(events[k], id)
  }

  predicate IsQuiet(e: Event, id: Id) {
    e.Act? && e.id == id && e.choice == Quiet(e.choice.written)
  }

  /** The call `c` has come to its end with `answer`, the files are `files`, and no other call has moved. */
  predicate Ends(s: State, after: State, id: Id, c: Call, answer: Answer, files: Files) {
    && after.calls.Keys == s.calls.Keys + {id} && after.files == files
    && after.calls[id].pc == Finished(answer) && SameTarget(after.calls[id], c)
    && forall other | other in s.calls && other != id :: after.calls[other] == s.calls[other]
  }

  lemma MovedToEnd(s: State, after: State, id: Id, c: Call, d: Call, answer: Answer, files: Files)
    requires Moved(s, after, id, d, files) && d.pc == Finished(answer) && SameTarget(d, c)
    ensures Ends(s, after, id, c, answer, files)
  {
  }

  lemma QuietRun(events: seq<Event>, id: Id, pid: nat, p: Path, op: Op, a: nat, m: nat, b: nat)
    requires events == [Invoke(id, pid, p, op)] + Acts(id, a) + [Act(id, Quiet(m))] + Acts(id, b)
    ensures IsQuietRun(events, id, pid, p, op)
  {
    forall k | 1 <= k < |events| ensures IsQuiet(events[k], id) {
      assert events[k] == if k == a + 1 then Act(id, Quiet(m)) else Act(id, Quiet(1));
    }
  }

  lemma PlainQuietRun(events: seq<Event>, id: Id, pid: nat, p: Path, op: Op, a: nat)
    requires events == [Invoke(id, pid, p, op)] + Acts(id, a)
    ensures IsQuietRun(events, id, pid, p, op)
  {
    forall k | 1 <= k < |events| ensures IsQuiet(events[k], id) {
      assert events[k] == Act(id, Quiet(1));
    }
  }

  // ---------- Writing and renaming ----------

  lemma WritesWhole(s: State, id: Id, c: Call, n: nat)
    requires AtWork(s, id, c) && c.pc == Writing(n) && Get(s.files, c.temps[n]) == Some([])
    ensures Moved(s, Next(s, Act(id, Quiet(|NewBytes(c.op)|))), id, c.(pc := Synced(n)),
                  s.files[c.temps[n] := NewBytes(c.op)])
  {
    assert NewBytes(c.op)[..|NewBytes(c.op)|] == NewBytes(c.op);
  }

  lemma FilledRenames(s: State, t: State, id: Id, c: Call, n: nat, files: Files)
    requires AtWork(s, id, c) && c.pc == Writing(n) && c.temps[n] !in files
    requires Moved(s, t, id, c.(pc := Synced(n)), files[c.temps[n] := NewBytes(c.op)])
    ensures Moved(s, Run(t, Acts(id, 2)), id, c.(pc := Applied, applied := true), files[c.path := NewBytes(c.op)])
  {
    var temp, bytes, d, e := c.temps[n], NewBytes(c.op), c.(pc := Synced(n)), c.(pc := Ready(n));
    OneAct(t, id);
    OneMore(t, id, 1);
    Polls(t, id, d, n);
    var u := Next(t, Act(id, GO));
    MovedTwice(s, t, u, id, d, e, t.files, t.files);
    Renames(u, id, e, n, bytes);
    assert (files[temp := bytes] - {temp})[c.path := bytes] == files[c.path := bytes];
    MovedTwice(s, u, Next(u, Act(id, GO)), id, e, c.(pc := Applied, applied := true), u.files, files[c.path := bytes]);
  }

  /** From its empty temporary file on, a call installs its whole new content, whatever its length. */
  lemma WritesAndRenames(s: State, id: Id, c: Call, n: nat, files: Files)
    requires AtWork(s, id, c) && c.pc == Writing(n) && c.temps[n] !in files && s.files == files[c.temps[n] := []]
    ensures Moved(s, Run(s, [Act(id, Quiet(|NewBytes(c.op)|))] + Acts(id, 2)), id, c.(pc := Applied, applied := true),
                  files[c.path := NewBytes(c.op)])
  {
    var e := Act(id, Quiet(|NewBytes(c.op)|));
    RunThen(s, e, Acts(id, 2));
    WritesWhole(s, id, c, n);
    WrittenIs(s, Next(s, e), id, c, n, files);
    FilledRenames(s, Next(s, e), id, c, n, files);
  }

  lemma WrittenIs(s: State, t: State, id: Id, c: Call, n: nat, files: Files)
    requires n < |c.temps| && s.files == files[c.temps[n] := []]
    requires Moved(s, t, id, c.(pc := Synced(n)), s.files[c.temps[n] := NewBytes(c.op)])
    ensures Moved(s, t, id, c.(pc := Synced(n)), files[c.temps[n] := NewBytes(c.op)])
  {
    assert files[c.temps[n] := []][c.temps[n] := NewBytes(c.op)] == files[c.temps[n] := NewBytes(c.op)];
  }

  // ---------- Replace and remove ----------

  lemma ReplaceReturns(s: State, id: Id, c: Call)
    requires id in s.calls && s.calls[id] == c && c.op.Replace? && c.pc.Applied?
    ensures Moved(s, Run(s, Acts(id, 1)), id, c.(pc := Finished(Done)), s.files)
  {
    OneAct(s, id);
  }

  /** Left alone, a replace whose directory has a free temporary name installs exactly its bytes and answers so. */
  lemma ReplaceSucceeds(s: State, id: Id, pid: nat, p: Path, bytes: Bytes, n: nat) returns (events: seq<Event>)
    requires p != [] && id !in s.calls && n < TEMP_ATTEMPTS && TempPath(p, pid, n) !in s.files
    requires forall j | 0 <= j < n :: TempPath(p, pid, j) in s.files
    ensures IsQuietRun(events, id, pid, p, Replace(bytes))
    ensures Ends(s, Run(s, events), id, NewCall(pid, p, Replace(bytes)), Done, s.files[p := bytes])
  {
    var c := NewCall(pid, p, Replace(bytes));
    var begin := [Invoke(id, pid, p, Replace(bytes))] + Acts(id, n + 3);
    var write := [Act(id, Quiet(|bytes|))] + Acts(id, 2);
    events := begin + (write + Acts(id, 1));
    assert events == [Invoke(id, pid, p, Replace(bytes))] + Acts(id, n + 3) + [Act(id, Quiet(|bytes|))] + Acts(id, 3);
    QuietRun(events, id, pid, p, Replace(bytes), n + 3, |bytes|, 3);
    RunAppend(s, begin, write + Acts(id, 1));
    RunAppend(Run(s, begin), write, Acts(id, 1));
    ReplaceCreates(s, id, pid, p, bytes, n);
    var t, d, e := Run(s, begin), c.(pc := Writing(n)), c.(pc := Applied, applied := true);
    WritesAndRenames(t, id, d, n, s.files);
    var u := Run(t, write);
    MovedTwice(s, t, u, id, d, e, t.files, s.files[p := bytes]);
    ReplaceReturns(u, id, e);
    MovedTwice(s, u, Run(u, Acts(id, 1)), id, e, e.(pc := Finished(Done)), u.files, u.files);
    MovedToEnd(s, Run(s, events), id, c, e.(pc := Finished(Done)), Done, s.files[p := bytes]);
  }

  /** A step whose token says yes, and which can remove the temporary file it gives up or cannot. */
  function Yes(removed: bool): Choice {
    Choice(true, false, 1, removed)
  }

  lemma GivesUpSynced(s: State, id: Id, c: Call, n: nat, removed: bool, files: Files)
    requires AtWork(s, id, c) && c.op.Replace? && c.pc == Synced(n) && c.temps[n] !in files
    requires s.files == files[c.temps[n] := NewBytes(c.op)]
    ensures var left := if removed then c.left else Some(c.temps[n]);
            Moved(s, Next(s, Act(id, Yes(removed))), id, c.(pc := Finished(Cancelled), left := left),
                  if removed then files else s.files)
  {
    assert files[c.temps[n] := NewBytes(c.op)] - {c.temps[n]} == files;
  }

  /**
   A replace that is cancelled after its last write leaves nothing behind if its temporary file can be removed, and
   the whole temporary file if it cannot; it answers the same both times.
   */
  lemma CancelledMayLeave(s: State, id: Id, pid: nat, p: Path, bytes: Bytes, n: nat, removed: bool)
    returns (events: seq<Event>)
    requires p != [] && id !in s.calls && n < TEMP_ATTEMPTS && TempPath(p, pid, n) !in s.files
    requires forall j | 0 <= j < n :: TempPath(p, pid, j) in s.files
    ensures events != [] && events[|events| - 1] == Act(id, Yes(removed))
    ensures IsQuietRun(events[..|events| - 1], id, pid, p, Replace(bytes))
    ensures Ends(s, Run(s, events), id, NewCall(pid, p, Replace(bytes)), Cancelled,
                 if removed then s.files else s.files[TempPath(p, pid, n) := bytes])
  {
    var c := NewCall(pid, p, Replace(bytes));
    var begin := [Invoke(id, pid, p, Replace(bytes))] + Acts(id, n + 3);
    var write := begin + [Act(id, Quiet(|bytes|))];
    events := write + [Act(id, Yes(removed))];
    assert write == [Invoke(id, pid, p, Replace(bytes))] + Acts(id, n + 3) + [Act(id, Quiet(|bytes|))] + Acts(id, 0);
    assert events[..|events| - 1] == write && write[..|write| - 1] == begin;
    QuietRun(write, id, pid, p, Replace(bytes), n + 3, |bytes|, 0);
    ReplaceCreates(s, id, pid, p, bytes, n);
    var t, d, e := Run(s, begin), c.(pc := Writing(n)), c.(pc := Synced(n));
    WritesWhole(t, id, d, n);
    var u := Run(s, write);
    WrittenIs(t, u, id, d, n, s.files);
    MovedTwice(s, t, u, id, d, e, t.files, u.files);
    GivesUpSynced(u, id, e, n, removed, s.files);
    var left, files := if removed then e.left else Some(e.temps[n]), if removed then s.files else u.files;
    var f := e.(pc := Finished(Cancelled), left := left);
    MovedTwice(s, u, Run(s, events), id, e, f, u.files, files);
    MovedToEnd(s, Run(s, events), id, c, f, Cancelled, files);
  }

  lemma GivesUpProbing(s: State, id: Id, c: Call)
    requires id in s.calls && s.calls[id] == c && c.op.Replace? && c.pc == Probe(|c.temps|)
    ensures Moved(s, Next(s, Act(id, GO)), id, c.(pc := Finished(Failed)), s.files)
  {
  }

  /** When all sixty-four temporary names are taken a replace fails and changes nothing. */
  lemma ReplaceNeedsAName(s: State, id: Id, pid: nat, p: Path, bytes: Bytes) returns (events: seq<Event>)
    requires p != [] && id !in s.calls && forall j: nat | j < 64 :: TempPath(p, pid, j) in s.files
    ensures IsQuietRun(events, id, pid, p, Replace(bytes))
    ensures Ends(s, Run(s, events), id, NewCall(pid, p, Replace(bytes)), Failed, s.files)
  {
    var c := NewCall(pid, p, Replace(bytes));
    events := [Invoke(id, pid, p, Replace(bytes))] + Acts(id, 67);
    PlainQuietRun(events, id, pid, p, Replace(bytes), 67);
    RunThen(s, Invoke(id, pid, p, Replace(bytes)), Acts(id, 67));
    Enters(s, id, pid, p, Replace(bytes));
    var t := Entered(s, id, c);
    TriesAll(t, id, c, |c.temps|);
    MovedTwice(s, t, Run(t, Acts(id, 67)), id, c, c.(pc := Finished(Failed)), s.files, s.files);
    MovedToEnd(s, Run(s, events), id, c, c.(pc := Finished(Failed)), Failed, s.files);
  }

  lemma TriesAll(s: State, id: Id, c: Call, n: nat)
    requires AtWork(s, id, c) && c.op.Replace? && c.pc.Invoked? && n == |c.temps|
    requires forall j | 0 <= j < n :: c.temps[j] in s.files
    ensures Moved(s, Run(s, Acts(id, n + 3)), id, c.(pc := Finished(Failed)), s.files)
  {
    ActsAppend(s, id, 1, n + 2);
    OneAct(s, id);
    StartsReplace(s, id, c);
    var t, d, e := Next(s, Act(id, GO)), c.(pc := Guard), c.(pc := Probe(n));
    ActsAppend(t, id, n + 1, 1);
    PassesTaken(t, id, d, n);
    var u := Run(t, Acts(id, n + 1));
    MovedTwice(s, t, u, id, d, e, s.files, s.files);
    OneAct(u, id);
    GivesUpProbing(u, id, e);
    MovedTwice(s, u, Next(u, Act(id, GO)), id, e, c.(pc := Finished(Failed)), s.files, s.files);
  }

  /** Left alone, a removal removes the file, or fails because there is none. */
  lemma RemoveRuns(s: State, id: Id, pid: nat, p: Path) returns (events: seq<Event>)
    requires p != [] && id !in s.calls
    ensures IsQuietRun(events, id, pid, p, RemoveFile)
    ensures Ends(s, Run(s, events), id, NewCall(pid, p, RemoveFile), if p in s.files then Done else Failed,
                 s.files - {p})
  {
    var c := NewCall(pid, p, RemoveFile);
    events := [Invoke(id, pid, p, RemoveFile)] + Acts(id, 1);
    PlainQuietRun(events, id, pid, p, RemoveFile, 1);
    RunThen(s, Invoke(id, pid, p, RemoveFile), Acts(id, 1));
    Enters(s, id, pid, p, RemoveFile);
    OneAct(Entered(s, id, c), id);
    RemovesOrFails(Entered(s, id, c), id, c);
    assert p !in s.files ==> s.files - {p} == s.files;
  }

  lemma RemovesOrFails(s: State, id: Id, c: Call)
    requires id in s.calls && s.calls[id] == c && c.op.RemoveFile? && c.pc.Invoked?
    ensures if c.path in s.files
            then Moved(s, Next(s, Act(id, GO)), id, c.(pc := Finished(Done), applied := true), s.files - {c.path})
            else Moved(s, Next(s, Act(id, GO)), id, c.(pc := Finished(Failed)), s.files)
  {
  }

  // ---------- Compare-exchange ----------

  /** The files with this content at `p`. */
  function Put(files: Files, p: Path, content: Option<Bytes>): Files {
    match content
    case Some(bytes) => files[p := bytes]
    case None => files - {p}
  }

  /** The files with the lock file of `p`, which is created when it is missing. */
  function WithLock(files: Files, p: Path): Files {
    if LockPath(p) in files then files else files[LockPath(p) := []]
  }

  lemma PutBack(files: Files, p: Path)
    ensures Put(files, p, Get(files, p)) == files
  {
  }

  /** A call that has read answers at once when there is nothing to exchange or nothing to do. */
  lemma AnswersAtOnce(s: State, id: Id, c: Call)
    requires id in s.calls && s.calls[id] == c && c.op.CompareExchange? && c.pc.Observed?
    requires c.seen != c.op.expected || (c.op.replacement.None? && c.seen.None?)
    ensures var answer := Exchanged(c.seen == c.op.expected, c.seen);
            Moved(s, Run(s, Acts(id, 2)), id, c.(pc := Finished(answer)), s.files)
  {
    var answer := Exchanged(c.seen == c.op.expected, c.seen);
    OneAct(s, id);
    OneMore(s, id, 1);
    var t, d := Next(s, Act(id, GO)), c.(pc := Releasing(answer));
    assert Moved(s, t, id, d, s.files);
    assert Moved(t, Next(t, Act(id, GO)), id, c.(pc := Finished(answer)), s.files);
    MovedTwice(s, t, Next(t, Act(id, GO)), id, d, c.(pc := Finished(answer)), s.files, s.files);
  }

  lemma Unlinks(s: State, id: Id, c: Call)
    requires id in s.calls && s.calls[id] == c && c.op.CompareExchange? && c.pc.Observed? && c.op.replacement.None?
    requires c.seen == c.op.expected && c.seen.Some? && c.path in s.files && !c.applied
    ensures Moved(s, Run(s, Acts(id, 2)), id, c.(pc := Applied, applied := true), s.files - {c.path})
  {
    OneAct(s, id);
    OneMore(s, id, 1);
    var t, d := Next(s, Act(id, GO)), c.(pc := Unlink);
    assert Moved(s, t, id, d, s.files);
    assert Moved(t, Next(t, Act(id, GO)), id, c.(pc := Applied, applied := true), s.files - {c.path});
    MovedTwice(s, t, Next(t, Act(id, GO)), id, d, c.(pc := Applied, applied := true), s.files, s.files - {c.path});
  }

  lemma AnswersTrue(s: State, t: State, id: Id, c: Call, files: Files)
    requires c.op.CompareExchange? && Moved(s, t, id, c.(pc := Applied, applied := true), files)
    ensures Moved(s, Run(t, Acts(id, 2)), id, c.(pc := Finished(Exchanged(true, c.seen)), applied := true), files)
  {
    var d := c.(pc := Applied, applied := true);
    AnswersAndReturns(t, id, d);
    MovedTwice(s, t, Run(t, Acts(id, 2)), id, d, d.(pc := Finished(Exchanged(true, c.seen))), files, files);
  }

  /** The whole run of a call that has read what it expected and replaces it. */
  lemma Exchanges(s: State, id: Id, c: Call, n: nat)
    requires AtRead(s, id, c) && FirstFree(s.files, c, n)
    ensures Moved(s, Run(s, Acts(id, n + 3) + ([Act(id, Quiet(|NewBytes(c.op)|))] + Acts(id, 2) + Acts(id, 2))), id,
                  c.(pc := Finished(Exchanged(true, c.seen)), applied := true), s.files[c.path := NewBytes(c.op)])
  {
    var write := [Act(id, Quiet(|NewBytes(c.op)|))] + Acts(id, 2);
    RunAppend(s, Acts(id, n + 3), write + Acts(id, 2));
    ActsAppend(s, id, 1, n + 2);
    OneAct(s, id);
    Decides(s, id, c);
    ReaderCreates(s, Next(s, Act(id, GO)), id, c, n);
    var t, d := Run(s, Acts(id, n + 3)), c.(pc := Writing(n));
    RunAppend(t, write, Acts(id, 2));
    WritesAndRenames(t, id, d, n, s.files);
    var u, files := Run(t, write), s.files[c.path := NewBytes(c.op)];
    MovedTwice(s, t, u, id, d, c.(pc := Applied, applied := true), t.files, files);
    AnswersTrue(s, u, id, c, files);
  }

  /** What remains of the run after the read. */
  function AfterRead(id: Id, c: Call, n: nat): seq<Event> {
    if !c.op.CompareExchange? || c.seen != c.op.expected || (c.op.replacement.None? && c.seen.None?) then Acts(id, 2)
    else if c.op.replacement.None? then Acts(id, 2) + Acts(id, 2)
    else Acts(id, n + 3) + ([Act(id, Quiet(|NewBytes(c.op)|))] + Acts(id, 2) + Acts(id, 2))
  }

  /** Once it has read, a compare-exchange does and answers what the atomic operation does and answers. */
  lemma GoesOn(s: State, id: Id, c: Call, n: nat)
    requires id in s.calls && s.calls[id] == c && c.op.CompareExchange? && c.pc.Observed? && !c.applied
    requires c.seen == Get(s.files, c.path) && (c.op.replacement.Some? ==> FirstFree(s.files, c, n))
    ensures var (content, answer) := AtomicCas(c.seen, c.op.expected, c.op.replacement);
            Ends(s, Run(s, AfterRead(id, c, n)), id, c, answer, Put(s.files, c.path, content))
  {
    PutBack(s.files, c.path);
    if c.seen != c.op.expected || (c.op.replacement.None? && c.seen.None?) {
      AnswersAtOnce(s, id, c);
    } else if c.op.replacement.None? {
      RunAppend(s, Acts(id, 2), Acts(id, 2));
      Unlinks(s, id, c);
      AnswersTrue(s, Run(s, Acts(id, 2)), id, c, s.files - {c.path});
    } else {
      Exchanges(s, id, c, n);
    }
  }

  lemma AfterReadIsQuiet(id: Id, c: Call, n: nat)
    ensures forall k | 0 <= k < |AfterRead(id, c, n)| :: IsQuiet(AfterRead(id, c, n)[k], id)
  {
    var rest := AfterRead(id, c, n);
    forall k | 0 <= k < |rest| ensures IsQuiet(rest[k], id) {
      assert rest[k] == Act(id, Quiet(1)) || rest[k] == Act(id, Quiet(|NewBytes(c.op)|));
    }
  }

  /** A new compare-exchange, left alone, from its first step to its last. */
  lemma RunsThrough(s: State, id: Id, c: Call, d: Call, n: nat)
    requires id in s.calls && s.calls[id] == c && IsNewExchange(c) && c.lock == LockPath(c.path)
    requires Inode(c.lock, VersionOf(s.versions, c.lock)) !in s.locks
    requires d == Reader(c, VersionOf(s.versions, c.lock), Get(s.files, c.path))
    requires c.op.replacement.Some? ==> FirstFree(WithLock(s.files, c.path), c, n)
    ensures var (content, answer) := AtomicCas(Get(s.files, c.path), c.op.expected, c.op.replacement);
            Ends(s, Run(s, Acts(id, 3) + AfterRead(id, d, n)), id, c, answer,
                 Put(WithLock(s.files, c.path), c.path, content))
  {
    RunAppend(s, Acts(id, 3), AfterRead(id, d, n));
    Reads(s, id, c);
    GoesOnFrom(s, Run(s, Acts(id, 3)), id, c, d, n);
  }

  lemma GoesOnFrom(s: State, t: State, id: Id, c: Call, d: Call, n: nat)
    requires t.calls == s.calls[id := d] && t.files == WithLock(s.files, c.path) && c.path != LockPath(c.path)
    requires c.op.CompareExchange? && !c.applied && d == Reader(c, d.handle.version, Get(s.files, c.path))
    requires c.op.replacement.Some? ==> FirstFree(t.files, c, n)
    ensures var (content, answer) := AtomicCas(Get(s.files, c.path), c.op.expected, c.op.replacement);
            Ends(s, Run(t, AfterRead(id, d, n)), id, c, answer, Put(t.files, c.path, content))
  {
    GoesOn(t, id, d, n);
  }

  lemma ExchangeIsQuiet(events: seq<Event>, id: Id, pid: nat, p: Path, op: Op, d: Call, n: nat)
    requires events == [Invoke(id, pid, p, op)] + (Acts(id, 3) + AfterRead(id, d, n))
    ensures IsQuietRun(events, id, pid, p, op)
  {
    AfterReadIsQuiet(id, d, n);
    forall k | 1 <= k < |events| ensures IsQuiet(events[k], id) {
      assert events[k] == if k < 4 then Act(id, Quiet(1)) else AfterRead(id, d, n)[k - 4];
    }
  }

  /**
   Left alone, a compare-exchange of a leaf whose lock is free does and answers exactly what the atomic operation does
   and answers on the content it finds, and leaves nothing else behind but the lock file.
   */
  lemma ExchangeSucceeds(s: State, id: Id, pid: nat, p: Path, expected: Option<Bytes>, replacement: Option<Bytes>,
                         n: nat)
    returns (events: seq<Event>)
    requires p != [] && p != LockPath(p) && id !in s.calls
    requires Inode(LockPath(p), VersionOf(s.versions, LockPath(p))) !in s.locks
    requires replacement.Some? ==>
               FirstFree(WithLock(s.files, p), NewCall(pid, p, CompareExchange(expected, replacement)), n)
    ensures IsQuietRun(events, id, pid, p, CompareExchange(expected, replacement))
    ensures var (content, answer) := AtomicCas(Get(s.files, p), expected, replacement);
            Ends(s, Run(s, events), id, NewCall(pid, p, CompareExchange(expected, replacement)), answer,
                 Put(WithLock(s.files, p), p, content))
  {
    var op := CompareExchange(expected, replacement);
    var c := NewCall(pid, p, op);
    var d := Reader(c, VersionOf(s.versions, LockPath(p)), Get(s.files, p));
    events := [Invoke(id, pid, p, op)] + (Acts(id, 3) + AfterRead(id, d, n));
    ExchangeIsQuiet(events, id, pid, p, op, d, n);
    RunThen(s, Invoke(id, pid, p, op), Acts(id, 3) + AfterRead(id, d, n));
    Enters(s, id, pid, p, op);
    RunsThrough(Entered(s, id, c), id, c, d, n);
  }
}
