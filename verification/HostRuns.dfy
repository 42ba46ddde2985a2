/** Runs of the host-directory system put together from the steps of single calls. */
module HostRuns {
  import opened Common
  import opened Paths
  import opened HostSteps

  /** A step with no cancellation and no error, in which one more octet is written and a removal succeeds. */
  const GO := Choice(false, false, 1, true)

  function Acts(id: Id, m: nat): seq<Event> {
    seq(m, i => Act(id, GO))
  }

  lemma {:induction false} RunAppend(s: State, first: seq<Event>, second: seq<Event>)
    ensures Run(s, first + second) == Run(Run(s, first), second)
    decreases |second|
  {
    if second == [] {
      assert first + second == first;
    } else {
      assert (first + second)[..|first + second| - 1] == first + second[..|second| - 1];
      RunAppend(s, first, second[..|second| - 1]);
    }
  }

  lemma RunOne(s: State, e: Event)
    ensures Run(s, [e]) == Next(s, e)
  {
    assert [e][..0] == [];
  }

  lemma RunThen(s: State, e: Event, more: seq<Event>)
    ensures Run(s, [e] + more) == Run(Next(s, e), more)
  {
    RunAppend(s, [e], more);
    RunOne(s, e);
  }

  lemma FourParts(s: State, a: seq<Event>, b: seq<Event>, c: seq<Event>, d: seq<Event>)
    ensures Run(s, a + (b + (c + d))) == Run(Run(Run(Run(s, a), b), c), d)
  {
    RunAppend(s, a, b + (c + d));
    RunAppend(Run(s, a), b, c + d);
    RunAppend(Run(Run(s, a), b), c, d);
  }

  lemma OneAct(s: State, id: Id)
    ensures Run(s, Acts(id, 1)) == Next(s, Act(id, GO))
  {
    assert Acts(id, 1) == [Act(id, GO)];
    RunOne(s, Act(id, GO));
  }

  lemma OneMore(s: State, id: Id, m: nat)
    ensures Run(s, Acts(id, m + 1)) == Next(Run(s, Acts(id, m)), Act(id, GO))
  {
    assert Acts(id, m + 1)[..m] == Acts(id, m);
  }

  lemma ActsAppend(s: State, id: Id, a: nat, b: nat)
    ensures Run(s, Acts(id, a + b)) == Run(Run(s, Acts(id, a)), Acts(id, b))
  {
    assert Acts(id, a + b) == Acts(id, a) + Acts(id, b);
    RunAppend(s, Acts(id, a), Acts(id, b));
  }

  /** A call as it is recorded when it is invoked. */
  function NewCall(pid: nat, p: Path, op: Op): Call
    requires p != []
  {
    Call(p, LockPath(p), TempPaths(p, pid), op, Pc.Invoked, Inode(LockPath(p), 0), None, false, None)
  }

  function Entered(s: State, id: Id, c: Call): State {
    s.(calls := s.calls[id := c])
  }

  lemma Enters(s: State, id: Id, pid: nat, p: Path, op: Op)
    requires p != [] && id !in s.calls
    ensures Next(s, Invoke(id, pid, p, op)) == Entered(s, id, NewCall(pid, p, op))
  {
  }

  /** The acting call is now `c` and the files are `files`; no other call has moved. */
  predicate Moved(s: State, after: State, id: Id, c: Call, files: Files) {
    after.calls == s.calls[id := c] && after.files == files
  }

  lemma MovedTwice(s: State, t: State, u: State, id: Id, c: Call, d: Call, files: Files, more: Files)
    requires Moved(s, t, id, c, files) && Moved(t, u, id, d, more)
    ensures Moved(s, u, id, d, more)
  {
    assert s.calls[id := c][id := d] == s.calls[id := d];
  }

  /** The call `c` is at work on its target. */
  predicate AtWork(s: State, id: Id, c: Call) {
    && id in s.calls && s.calls[id] == c && Installs(c.op) && !c.applied
    && (OwnsTemp(c) ==> c.pc.n < |c.temps|)
  }

  lemma Works(s: State, id: Id, c: Call)
    requires AtWork(s, id, c) && InReplace(c.pc)
    ensures Next(s, Act(id, GO)) == Worked(s, id, GO)
  {
  }

  lemma WorkMoves(s: State, id: Id, c: Call, d: Call, files: Files)
    requires AtWork(s, id, c) && InReplace(c.pc) && Work(s.files, c, GO) == (files, d)
    ensures Moved(s, Next(s, Act(id, GO)), id, d, files)
  {
    Works(s, id, c);
  }

  lemma Guards(s: State, id: Id, c: Call)
    requires AtWork(s, id, c) && c.pc.Guard?
    ensures Moved(s, Next(s, Act(id, GO)), id, c.(pc := Probe(0)), s.files)
  {
    WorkMoves(s, id, c, c.(pc := Probe(0)), s.files);
  }

  lemma Passes(s: State, id: Id, c: Call, k: nat)
    requires AtWork(s, id, c) && c.pc == Probe(k) && k < |c.temps| && c.temps[k] in s.files
    ensures Moved(s, Next(s, Act(id, GO)), id, c.(pc := Probe(k + 1)), s.files)
  {
    WorkMoves(s, id, c, c.(pc := Probe(k + 1)), s.files);
  }

  lemma Probes(s: State, id: Id, c: Call, k: nat)
    requires AtWork(s, id, c) && c.pc == Probe(k) && k < |c.temps| && c.temps[k] !in s.files
    ensures Moved(s, Next(s, Act(id, GO)), id, c.(pc := Writing(k)), s.files[c.temps[k] := []])
  {
    WorkMoves(s, id, c, c.(pc := Writing(k)), s.files[c.temps[k] := []]);
  }

  lemma Writes(s: State, id: Id, c: Call, n: nat)
    requires AtWork(s, id, c) && c.pc == Writing(n) && Get(s.files, c.temps[n]) == Some([]) && |NewBytes(c.op)| <= 1
    ensures Moved(s, Next(s, Act(id, GO)), id, c.(pc := Synced(n)), s.files[c.temps[n] := NewBytes(c.op)])
  {
    assert NewBytes(c.op)[..|NewBytes(c.op)|] == NewBytes(c.op);
    WorkMoves(s, id, c, c.(pc := Synced(n)), s.files[c.temps[n] := NewBytes(c.op)]);
  }

  lemma Polls(s: State, id: Id, c: Call, n: nat)
    requires AtWork(s, id, c) && c.pc == Synced(n)
    ensures Moved(s, Next(s, Act(id, GO)), id, c.(pc := Ready(n)), s.files)
  {
    WorkMoves(s, id, c, c.(pc := Ready(n)), s.files);
  }

  lemma Renames(s: State, id: Id, c: Call, n: nat, bytes: Bytes)
    requires AtWork(s, id, c) && c.pc == Ready(n) && Get(s.files, c.temps[n]) == Some(bytes)
    ensures Moved(s, Next(s, Act(id, GO)), id, c.(pc := Applied, applied := true),
                  (s.files - {c.temps[n]})[c.path := bytes])
  {
    WorkMoves(s, id, c, c.(pc := Applied, applied := true), (s.files - {c.temps[n]})[c.path := bytes]);
  }

  /** A writer that passes its guard finds the first `k` temporary names taken, one after another. */
  lemma {:induction false} PassesTaken(s: State, id: Id, c: Call, k: nat)
    requires AtWork(s, id, c) && c.pc.Guard? && k <= |c.temps|
    requires forall j | 0 <= j < k :: c.temps[j] in s.files
    ensures Moved(s, Run(s, Acts(id, k + 1)), id, c.(pc := Probe(k)), s.files)
  {
    OneMore(s, id, k);
    if k == 0 {
      assert Run(s, Acts(id, 0)) == s;
      Guards(s, id, c);
    } else {
      PassesTaken(s, id, c, k - 1);
      var t, d := Run(s, Acts(id, k)), c.(pc := Probe(k - 1));
      Passes(t, id, d, k - 1);
      MovedTwice(s, t, Next(t, Act(id, GO)), id, d, c.(pc := Probe(k)), s.files, s.files);
    }
  }

  /** A writer at its guard creates its first free temporary file, empty. */
  lemma CreatesFirstFree(s: State, id: Id, c: Call, n: nat)
    requires AtWork(s, id, c) && c.pc.Guard? && n < |c.temps| && c.temps[n] !in s.files
    requires forall j | 0 <= j < n :: c.temps[j] in s.files
    ensures Moved(s, Run(s, Acts(id, n + 2)), id, c.(pc := Writing(n)), s.files[c.temps[n] := []])
  {
    PassesTaken(s, id, c, n);
    OneMore(s, id, n + 1);
    var t, d := Run(s, Acts(id, n + 1)), c.(pc := Probe(n));
    Probes(t, id, d, n);
    MovedTwice(s, t, Next(t, Act(id, GO)), id, d, c.(pc := Writing(n)), s.files, s.files[c.temps[n] := []]);
  }

  /** A writer of at most one octet fills its empty temporary file and is ready to rename it. */
  lemma Fills(s: State, id: Id, c: Call, n: nat)
    requires AtWork(s, id, c) && c.pc == Writing(n) && Get(s.files, c.temps[n]) == Some([]) && |NewBytes(c.op)| <= 1
    ensures Moved(s, Run(s, Acts(id, 2)), id, c.(pc := Ready(n)), s.files[c.temps[n] := NewBytes(c.op)])
  {
    OneAct(s, id);
    OneMore(s, id, 1);
    Writes(s, id, c, n);
    var t, d := Next(s, Act(id, GO)), c.(pc := Synced(n));
    Polls(t, id, d, n);
    MovedTwice(s, t, Next(t, Act(id, GO)), id, d, c.(pc := Ready(n)), t.files, t.files);
  }

  // ---------- The steps of a compare-exchange ----------

  /** A compare-exchange that has not taken a step. */
  predicate IsNewExchange(c: Call) {
    c.op.CompareExchange? && c.pc.Invoked? && c.seen.None? && !c.applied && c.lock != c.path
  }

  /** The call after it has opened and locked version `version` of its lock file and found `seen` at its target. */
  function Reader(c: Call, version: nat, seen: Option<Bytes>): Call {
    c.(pc := Observed, handle := Inode(c.lock, version), seen := seen)
  }

  lemma Opens(s: State, id: Id)
    requires id in s.calls && IsNewExchange(s.calls[id])
    ensures Next(s, Act(id, GO)) == Opened(s, id)
  {
  }

  lemma Acquires(s: State, id: Id)
    requires id in s.calls && s.calls[id].op.CompareExchange? && s.calls[id].pc.Waiting?
    requires s.calls[id].handle !in s.locks
    ensures Next(s, Act(id, GO)) == Acquired(s, id)
  {
  }

  lemma Observes(s: State, id: Id)
    requires id in s.calls && s.calls[id].op.CompareExchange? && s.calls[id].pc.Locked?
    ensures Next(s, Act(id, GO)) == Seen(s, id)
  {
  }

  /** The read has found what is there. */
  function Seen(s: State, id: Id): State
    requires id in s.calls
  {
    s.(calls := s.calls[id := s.calls[id].(pc := Observed, seen := Get(s.files, s.calls[id].path))])
  }

  lemma OneMoreIs(s: State, id: Id, m: nat, before: State, after: State)
    requires Run(s, Acts(id, m)) == before && Next(before, Act(id, GO)) == after
    ensures Run(s, Acts(id, m + 1)) == after
  {
    OneMore(s, id, m);
  }

  lemma OpensFirst(s: State, id: Id)
    requires id in s.calls && IsNewExchange(s.calls[id])
    ensures Run(s, Acts(id, 1)) == Opened(s, id)
  {
    Opens(s, id);
    OneMoreIs(s, id, 0, s, Opened(s, id));
  }

  lemma AcquiresNext(s: State, id: Id, m: nat, before: State)
    requires Run(s, Acts(id, m)) == before
    requires id in before.calls && before.calls[id].op.CompareExchange? && before.calls[id].pc.Waiting?
    requires before.calls[id].handle !in before.locks
    ensures Run(s, Acts(id, m + 1)) == Acquired(before, id)
  {
    Acquires(before, id);
    OneMoreIs(s, id, m, before, Acquired(before, id));
  }

  lemma ObservesNext(s: State, id: Id, m: nat, before: State)
    requires Run(s, Acts(id, m)) == before
    requires id in before.calls && before.calls[id].op.CompareExchange? && before.calls[id].pc.Locked?
    ensures Run(s, Acts(id, m + 1)) == Seen(before, id)
  {
    Observes(before, id);
    OneMoreIs(s, id, m, before, Seen(before, id));
  }

  /** The call `c` has opened and locked the lock file as it is now, and has read its target. */
  predicate HasRead(s: State, after: State, id: Id, c: Call) {
    var version := VersionOf(s.versions, c.lock);
    && after.calls == s.calls[id := Reader(c, version, Get(s.files, c.path))]
    && after.files == (if c.lock in s.files then s.files else s.files[c.lock := []])
    && after.versions == s.versions
    && after.locks == s.locks[Inode(c.lock, version) := id]
  }

  lemma ReadOutcome(s: State, id: Id, c: Call)
    requires id in s.calls && s.calls[id] == c && IsNewExchange(c)
    ensures HasRead(s, Seen(Acquired(Opened(s, id), id), id), id, c)
  {
  }

  lemma OpenedWaits(s: State, id: Id, c: Call)
    requires id in s.calls && s.calls[id] == c && IsNewExchange(c)
    requires Inode(c.lock, VersionOf(s.versions, c.lock)) !in s.locks
    ensures var t := Opened(s, id);
            && id in t.calls && t.calls[id].op.CompareExchange? && t.calls[id].pc.Waiting?
            && t.calls[id].handle !in t.locks
  {
  }

  lemma AcquiredIsLocked(s: State, id: Id)
    requires id in s.calls && s.calls[id].op.CompareExchange?
    ensures var t := Acquired(s, id);
            id in t.calls && t.calls[id].op.CompareExchange? && t.calls[id].pc.Locked?
  {
  }

  /** Three steps from the invocation to the answer of the read. */
  lemma Reads(s: State, id: Id, c: Call)
    requires id in s.calls && s.calls[id] == c && IsNewExchange(c)
    requires Inode(c.lock, VersionOf(s.versions, c.lock)) !in s.locks
    ensures HasRead(s, Run(s, Acts(id, 3)), id, c)
  {
    OpensFirst(s, id);
    OpenedWaits(s, id, c);
    AcquiredIsLocked(Opened(s, id), id);
    AcquiresNext(s, id, 1, Opened(s, id));
    ObservesNext(s, id, 2, Acquired(Opened(s, id), id));
    ReadOutcome(s, id, c);
  }

  /** The call has found what it expected and is going to replace it. */
  predicate AtRead(s: State, id: Id, c: Call) {
    id in s.calls && s.calls[id] == c && c.op.CompareExchange? && c.op.replacement.Some? && c.pc.Observed?
    && c.seen == c.op.expected && !c.applied
  }

  /** The `n`th temporary name of a call is the first that is free. */
  predicate FirstFree(files: Files, c: Call, n: nat) {
    n < |c.temps| && c.temps[n] !in files && forall j | 0 <= j < n :: c.temps[j] in files
  }

  lemma Decides(s: State, id: Id, c: Call)
    requires AtRead(s, id, c)
    ensures Moved(s, Next(s, Act(id, GO)), id, c.(pc := Guard), s.files)
  {
  }

  lemma ReaderCreates(s: State, t: State, id: Id, c: Call, n: nat)
    requires AtRead(s, id, c) && FirstFree(s.files, c, n) && Moved(s, t, id, c.(pc := Guard), s.files)
    ensures Moved(s, Run(t, Acts(id, n + 2)), id, c.(pc := Writing(n)), s.files[c.temps[n] := []])
  {
    var d := c.(pc := Guard);
    CreatesFirstFree(t, id, d, n);
    MovedTwice(s, t, Run(t, Acts(id, n + 2)), id, d, c.(pc := Writing(n)), s.files, s.files[c.temps[n] := []]);
  }

  lemma ReaderFills(s: State, t: State, id: Id, c: Call, n: nat)
    requires AtRead(s, id, c) && n < |c.temps| && |NewBytes(c.op)| <= 1
    requires Moved(s, t, id, c.(pc := Writing(n)), s.files[c.temps[n] := []])
    ensures Moved(s, Run(t, Acts(id, 2)), id, c.(pc := Ready(n)), s.files[c.temps[n] := NewBytes(c.op)])
  {
    var d, temp, bytes := c.(pc := Writing(n)), c.temps[n], NewBytes(c.op);
    Fills(t, id, d, n);
    assert s.files[temp := []][temp := bytes] == s.files[temp := bytes];
    MovedTwice(s, t, Run(t, Acts(id, 2)), id, d, c.(pc := Ready(n)), s.files[temp := []], s.files[temp := bytes]);
  }

  /** From the read on, a call with at most one octet comes to the point of renaming its temporary file. */
  lemma ReaderIsReady(s: State, id: Id, c: Call, n: nat)
    requires AtRead(s, id, c) && FirstFree(s.files, c, n) && |NewBytes(c.op)| <= 1
    ensures Moved(s, Run(s, Acts(id, n + 5)), id, c.(pc := Ready(n)), s.files[c.temps[n] := NewBytes(c.op)])
  {
    ActsAppend(s, id, 1, n + 4);
    OneAct(s, id);
    Decides(s, id, c);
    var t := Next(s, Act(id, GO));
    ActsAppend(t, id, n + 2, 2);
    ReaderCreates(s, t, id, c, n);
    ReaderFills(s, Run(t, Acts(id, n + 2)), id, c, n);
  }

  lemma Answers(s: State, id: Id, c: Call)
    requires id in s.calls && s.calls[id] == c && c.op.CompareExchange? && c.pc.Applied?
    ensures Moved(s, Next(s, Act(id, GO)), id, c.(pc := Releasing(Exchanged(true, c.seen))), s.files)
  {
  }

  lemma Returns(s: State, id: Id, c: Call)
    requires id in s.calls && s.calls[id] == c && c.op.CompareExchange? && c.pc == Releasing(Exchanged(true, c.seen))
    ensures Moved(s, Next(s, Act(id, GO)), id, c.(pc := Finished(Exchanged(true, c.seen))), s.files)
  {
  }

  lemma AnswersAndReturns(s: State, id: Id, c: Call)
    requires id in s.calls && s.calls[id] == c && c.op.CompareExchange? && c.pc.Applied?
    ensures Moved(s, Run(s, Acts(id, 2)), id, c.(pc := Finished(Exchanged(true, c.seen))), s.files)
  {
    OneAct(s, id);
    OneMore(s, id, 1);
    Answers(s, id, c);
    var t, d := Next(s, Act(id, GO)), c.(pc := Releasing(Exchanged(true, c.seen)));
    Returns(t, id, d);
    MovedTwice(s, t, Next(t, Act(id, GO)), id, d, c.(pc := Finished(Exchanged(true, c.seen))), s.files, s.files);
  }

  /** What the call renames is whatever its temporary file holds, and it is told that it exchanged. */
  lemma ReaderInstalls(s: State, id: Id, c: Call, n: nat, bytes: Bytes)
    requires AtWork(s, id, c) && c.op.CompareExchange? && c.pc == Ready(n)
    requires Get(s.files, c.temps[n]) == Some(bytes)
    ensures Moved(s, Run(s, Acts(id, 3)), id, c.(pc := Finished(Exchanged(true, c.seen)), applied := true),
                  (s.files - {c.temps[n]})[c.path := bytes])
  {
    ActsAppend(s, id, 1, 2);
    OneAct(s, id);
    Renames(s, id, c, n, bytes);
    var t, d := Next(s, Act(id, GO)), c.(pc := Applied, applied := true);
    var files := (s.files - {c.temps[n]})[c.path := bytes];
    AnswersAndReturns(t, id, d);
    MovedTwice(s, t, Run(t, Acts(id, 2)), id, d, d.(pc := Finished(Exchanged(true, c.seen))), files, files);
  }

  // ---------- Replacing and removing ----------

  lemma StartsReplace(s: State, id: Id, c: Call)
    requires id in s.calls && s.calls[id] == c && c.op.Replace? && c.pc.Invoked?
    ensures Moved(s, Next(s, Act(id, GO)), id, c.(pc := Guard), s.files)
  {
  }

  /** From its invocation a replace comes to own its first free temporary file, empty. */
  lemma ReplaceCreates(s: State, id: Id, pid: nat, p: Path, bytes: Bytes, n: nat)
    requires p != [] && id !in s.calls && n < TEMP_ATTEMPTS && TempPath(p, pid, n) !in s.files
    requires forall j | 0 <= j < n :: TempPath(p, pid, j) in s.files
    ensures Moved(s, Run(s, [Invoke(id, pid, p, Replace(bytes))] + Acts(id, n + 3)), id,
                  NewCall(pid, p, Replace(bytes)).(pc := Writing(n)), s.files[TempPath(p, pid, n) := []])
  {
    var c := NewCall(pid, p, Replace(bytes));
    RunThen(s, Invoke(id, pid, p, Replace(bytes)), Acts(id, n + 3));
    Enters(s, id, pid, p, Replace(bytes));
    ActsAppend(Entered(s, id, c), id, 1, n + 2);
    OneAct(Entered(s, id, c), id);
    StartsReplace(Entered(s, id, c), id, c);
    var t, d := Next(Entered(s, id, c), Act(id, GO)), c.(pc := Guard);
    assert Moved(s, t, id, d, s.files) by {
      MovedTwice(s, Entered(s, id, c), t, id, c, d, s.files, s.files);
    }
    CreatesFirstFree(t, id, d, n);
    MovedTwice(s, t, Run(t, Acts(id, n + 2)), id, d, c.(pc := Writing(n)), s.files, s.files[TempPath(p, pid, n) := []]);
  }

  /** A removal: the file is gone and its name stands for a new file from now on. */
  function Removed(s: State, id: Id, p: Path): State
    requires id in s.calls
  {
    s.(files := s.files - {p}, versions := s.versions[p := VersionOf(s.versions, p) + 1],
       calls := s.calls[id := s.calls[id].(pc := Finished(Done), applied := true)])
  }

  lemma Removes(s: State, id: Id, p: Path)
    requires p != [] && id in s.calls && s.calls[id] == NewCall(0, p, RemoveFile) && p in s.files
    ensures Next(s, Act(id, GO)) == Removed(s, id, p)
  {
  }

  lemma RemovalRuns(s: State, id: Id, p: Path)
    requires p != [] && p in s.files && id !in s.calls
    ensures Run(s, [Invoke(id, 0, p, RemoveFile), Act(id, GO)])
         == Removed(Entered(s, id, NewCall(0, p, RemoveFile)), id, p)
  {
    assert [Invoke(id, 0, p, RemoveFile), Act(id, GO)] == [Invoke(id, 0, p, RemoveFile)] + [Act(id, GO)];
    RunThen(s, Invoke(id, 0, p, RemoveFile), [Act(id, GO)]);
    RunOne(Entered(s, id, NewCall(0, p, RemoveFile)), Act(id, GO));
    Enters(s, id, 0, p, RemoveFile);
    Removes(Entered(s, id, NewCall(0, p, RemoveFile)), id, p);
  }

  // ---------- Removing the temporary file of another call ----------

  /** The directory in which every earlier temporary name is taken already. */
  function Crowded(p: Path, pid: nat, n: nat): Files
    requires p != [] && n < TEMP_ATTEMPTS
  {
    map temp | temp in TempPaths(p, pid)[..n] :: []
  }

  /** In such a directory a writer comes to create just the name that is not taken. */
  lemma CrowdedUpTo(p: Path, pid: nat, n: nat)
    requires p != [] && n < TEMP_ATTEMPTS
    ensures TempPath(p, pid, n) !in Crowded(p, pid, n)
    ensures forall j | 0 <= j < n :: TempPath(p, pid, j) in Crowded(p, pid, n)
  {
    var temps := TempPaths(p, pid);
    forall j | 0 <= j < n ensures temps[j] in temps[..n] && temps[j] != temps[n] {
      assert temps[..n][j] == temps[j];
      TempNamesInjective(pid, j, pid, n);
      assert temps[j][|p| - 1] == TempName(pid, j) && temps[n][|p| - 1] == TempName(pid, n);
    }
  }

  /** The intruder, call 1, has removed the temporary file of call 0. */
  predicate Gone(s: State, c: Call, temp: Path, files: Files) {
    && s.calls.Keys == {0, 1} && s.calls[0] == c && s.calls[1].path == temp && s.calls[1].op.RemoveFile?
    && s.files == files
  }

  lemma FileIsGone(s: State, after: State, c: Call, temp: Path, files: Files)
    requires temp != [] && temp !in files && s.calls == map[0 := c] && s.files == files[temp := [1]]
    requires after == Removed(Entered(s, 1, NewCall(0, temp, RemoveFile)), 1, temp)
    ensures Gone(after, c, temp, files)
  {
    assert files[temp := [1]] - {temp} == files;
  }
}
