/**
 The Ubuntu host-directory port as a system of interleaved atomic steps: any number of callers, each
 taking a per-path file lock, writing a temporary file and renaming it, with every I/O step free to
 fail, every cancellation poll free to answer either way, and every caller free to die between steps.
 Lock files lie in the same tree as the targets, so a caller may also name one of them as its target.
 */
module HostSteps {
  import opened Common
  import opened Paths

  type Id = nat

  datatype Op =
    | Replace(bytes: Bytes)
    | CompareExchange(expected: Option<Bytes>, replacement: Option<Bytes>)
    | RemoveFile

  /** `Lost` is the fate of a call whose process died before it could answer. */
  datatype Answer = Done | Exchanged(exchanged: bool, observed: Option<Bytes>) | Cancelled | Failed | Lost

  /** Where a call stands; `n` is the index of the temporary file it tries or owns. */
  datatype Pc =
    | Invoked
    | Waiting
    | Locked
    | Observed
    | Guard
    | Probe(n: nat)
    | Writing(n: nat)
    | Synced(n: nat)
    | Ready(n: nat)
    | Unlink
    | Applied
    | Releasing(answer: Answer)
    | Finished(answer: Answer)

  /** The file behind a path, told apart from others there by how often the path has been unlinked or replaced. */
  datatype Inode = Inode(path: Path, version: nat)

  /**
   `lock` is the lock file of `path`, `handle` the file the call has opened there, and `temps` the temporary
   files it may try; `applied` records whether its rename or unlink has happened, and `left` the temporary file
   that it gave up but could not remove.
   */
  datatype Call = Call(
    path: Path, lock: Path, temps: seq<Path>, op: Op, pc: Pc, handle: Inode, seen: Option<Bytes>, applied: bool,
    left: Option<Path>)

  /**
   What the environment decides in one step: the cancellation poll, an I/O error, how much was written, and whether
   a temporary file that is given up can be removed, which the program does not look at.
   */
  datatype Choice = Choice(cancelled: bool, ioError: bool, written: nat, removed: bool)

  /** A crash ends one call and frees its lock, as closing its files does; the other callers go on. */
  datatype Event = Invoke(id: Id, pid: nat, path: Path, op: Op) | Act(id: Id, choice: Choice) | Crash(id: Id)

  datatype LogEntry =
    LogEntry(id: Id, path: Path, expected: Option<Bytes>, replacement: Option<Bytes>, answer: Answer, applied: bool)

  type Files = map<Path, Bytes>

  /**
   `locks` says who holds the lock of which file. `order`, `log` and `creators` are history: lock acquisitions
   and lock releases in the order they happened, and who created each temporary file last.
   */
  datatype State = State(
    files: Files,
    versions: map<Path, nat>,
    locks: map<Inode, Id>,
    calls: map<Id, Call>,
    order: seq<(Path, Id)>,
    log: seq<LogEntry>,
    creators: map<Path, Id>)

  function Get(files: Files, path: Path): Option<Bytes> {
    if path in files then Some(files[path]) else None
  }

  /** The bytes a call will install, for the calls that install any. */
  function NewBytes(op: Op): Bytes {
    match op
    case Replace(bytes) => bytes
    case CompareExchange(_, Some(bytes)) => bytes
    case _ => []
  }

  predicate Installs(op: Op) {
    op.Replace? || (op.CompareExchange? && op.replacement.Some?)
  }

  function Stop(c: Call, answer: Answer): Call {
    c.(pc := if c.op.CompareExchange? then Releasing(answer) else Finished(answer))
  }

  /** Gives up the temporary file, whose removal may fail unnoticed, and stops. */
  function GiveUp(files: Files, c: Call, temp: Path, choice: Choice, answer: Answer): (Files, Call) {
    if choice.removed then (files - {temp}, Stop(c, answer))
    else (files, Stop(c, answer).(left := if temp in files then Some(temp) else c.left))
  }

  /** Every step that touches neither the lock nor the history. */
  function Work(files: Files, c: Call, choice: Choice): (Files, Call)
    requires OwnsTemp(c) ==> c.pc.n < |c.temps|
  {
    match c.pc
    case Invoked =>
      if c.op.Replace? then (files, c.(pc := Guard))
      else if choice.ioError || c.path !in files then (files, c.(pc := Finished(Failed)))
      else (files - {c.path}, c.(pc := Finished(Done), applied := true))
    case Waiting => (files, c)
    case Locked =>
      if choice.ioError then (files, Stop(c, Failed))
      else (files, c.(pc := Observed, seen := Get(files, c.path)))
    case Observed =>
      if choice.cancelled then (files, Stop(c, Cancelled))
      else if !c.op.CompareExchange? || c.seen != c.op.expected then (files, Stop(c, Exchanged(false, c.seen)))
      else if c.op.replacement.Some? then (files, c.(pc := Guard))
      else if c.seen.Some? then (files, c.(pc := Unlink))
      else (files, Stop(c, Exchanged(true, c.seen)))
    case Guard =>
      if choice.cancelled then (files, Stop(c, Cancelled))
      else if choice.ioError then (files, Stop(c, Failed))
      else (files, c.(pc := Probe(0)))
    case Probe(n) =>
      if n >= |c.temps| || choice.ioError then (files, Stop(c, Failed))
      else if c.temps[n] in files then (files, c.(pc := Probe(n + 1)))
      else (files[c.temps[n] := []], c.(pc := Writing(n)))
    case Writing(n) =>
      var temp := c.temps[n];
      if choice.ioError || temp !in files then GiveUp(files, c, temp, choice, Failed)
      else
        var bytes := NewBytes(c.op);
        var k := Min(choice.written, |bytes|);
        if k < |files[temp]| then (files, c)
        else (files[temp := bytes[..k]], if k == |bytes| then c.(pc := Synced(n)) else c)
    case Synced(n) =>
      if choice.cancelled then GiveUp(files, c, c.temps[n], choice, Cancelled)
      else (files, c.(pc := Ready(n)))
    case Ready(n) =>
      var temp := c.temps[n];
      if choice.ioError || temp !in files then (files, Stop(c, Failed))
      else ((files - {temp})[c.path := files[temp]], c.(pc := Applied, applied := true))
    case Unlink =>
      if choice.ioError || c.path !in files then (files, Stop(c, Failed))
      else (files - {c.path}, c.(pc := Applied, applied := true))
    case Applied =>
      (files, Stop(c, if choice.ioError then Failed else if c.op.Replace? then Done else Exchanged(true, c.seen)))
    case Releasing(_) => (files, c)
    case Finished(_) => (files, c)
  }

  function VersionOf(versions: map<Path, nat>, p: Path): nat {
    if p in versions then versions[p] else 0
  }

  /** Opens the lock file, creating it when it is missing. */
  function Opened(s: State, id: Id): State
    requires id in s.calls
  {
    var c := s.calls[id];
    s.(files := if c.lock in s.files then s.files else s.files[c.lock := []],
       calls := s.calls[id := c.(pc := Waiting, handle := Inode(c.lock, VersionOf(s.versions, c.lock)))])
  }

  /** Locks the opened file; the caller knows that nobody holds it. */
  function Acquired(s: State, id: Id): State
    requires id in s.calls
  {
    var c := s.calls[id];
    s.(locks := s.locks[c.handle := id], calls := s.calls[id := c.(pc := Locked)], order := s.order + [(c.path, id)])
  }

  /** Unlocks and leaves an entry in the history. */
  function Released(s: State, id: Id, answer: Answer): State
    requires id in s.calls && s.calls[id].op.CompareExchange?
  {
    var c := s.calls[id];
    s.(locks := s.locks - {c.handle},
       calls := s.calls[id := c.(pc := Finished(answer))],
       log := s.log + [LogEntry(id, c.path, c.op.expected, c.op.replacement, answer, c.applied)])
  }

  function Ended(s: State, id: Id, answer: Answer): State
    requires id in s.calls
  {
    s.(calls := s.calls[id := s.calls[id].(pc := Finished(answer))])
  }

  function Worked(s: State, id: Id, choice: Choice): State
    requires id in s.calls && (OwnsTemp(s.calls[id]) ==> s.calls[id].pc.n < |s.calls[id].temps|)
  {
    var c := s.calls[id];
    var (files, after) := Work(s.files, c, choice);
    s.(files := files,
       versions := if after.applied && !c.applied then s.versions[c.path := VersionOf(s.versions, c.path) + 1]
                   else s.versions,
       calls := s.calls[id := after],
       creators := if Creates(c, after) then s.creators[c.temps[c.pc.n] := id] else s.creators)
  }

  predicate Creates(c: Call, after: Call) {
    c.pc.Probe? && after.pc.Writing? && c.pc.n < |c.temps|
  }

  predicate AtLock(c: Call) {
    c.op.CompareExchange? && (c.pc.Invoked? || c.pc.Waiting? || c.pc.Releasing?)
  }

  /** The steps of a compare-exchange on its lock file. */
  function LockStep(s: State, id: Id, choice: Choice): State
    requires id in s.calls && AtLock(s.calls[id])
  {
    var c := s.calls[id];
    if c.pc.Releasing? then Released(s, id, if choice.ioError && c.pc.answer.Exchanged? then Failed else c.pc.answer)
    else if choice.ioError then Ended(s, id, Failed)
    else if c.pc.Invoked? then Opened(s, id)
    else if c.handle in s.locks then s
    else Acquired(s, id)
  }

  /** A new call; its temporary files and its lock file follow from its target. */
  function Invoked(s: State, id: Id, pid: nat, path: Path, op: Op): State {
    if id in s.calls || path == [] then s
    else
      var lock := LockPath(path);
      var c := Call(path, lock, TempPaths(path, pid), op, Pc.Invoked, Inode(lock, 0), None, false, None);
      s.(calls := s.calls[id := c])
  }

  /** The death of one call's process. */
  function Crashed(s: State, id: Id): State {
    if id !in s.calls || s.calls[id].pc.Finished? then s
    else if Holding(s.calls[id]) then Released(s, id, Lost)
    else Ended(s, id, Lost)
  }

  function Next(s: State, e: Event): State {
    match e
    case Invoke(id, pid, path, op) => Invoked(s, id, pid, path, op)
    case Act(id, choice) =>
      if id !in s.calls || (OwnsTemp(s.calls[id]) && s.calls[id].pc.n >= |s.calls[id].temps|) then s
      else if AtLock(s.calls[id]) then LockStep(s, id, choice)
      else Worked(s, id, choice)
    case Crash(id) => Crashed(s, id)
  }

  function Run(s: State, events: seq<Event>): State {
    if events == [] then s else Next(Run(s, events[..|events| - 1]), events[|events| - 1])
  }

  function Start(files: Files): State {
    State(files, map[], map[], map[], [], [], map[])
  }

  // ---------- Invariants of single calls ----------

  predicate InReplace(pc: Pc) {
    pc.Guard? || pc.Probe? || pc.Writing? || pc.Synced? || pc.Ready?
  }

  predicate OwnsTemp(c: Call) {
    c.pc.Writing? || c.pc.Synced? || c.pc.Ready?
  }

  predicate ValidOwner(c: Call) {
    OwnsTemp(c) && c.pc.n < |c.temps|
  }

  function OwnTemp(c: Call): Path
    requires ValidOwner(c)
  {
    c.temps[c.pc.n]
  }

  predicate Holding(c: Call) {
    c.op.CompareExchange? && !c.pc.Invoked? && !c.pc.Waiting? && !c.pc.Finished?
  }

  /** The call has been more than invoked: a compare-exchange has had its lock, or has failed or died before. */
  predicate HasBegun(c: Call) {
    !c.pc.Invoked? && !c.pc.Waiting?
  }

  /** The shape of a call at each program point. */
  predicate CallShape(c: Call) {
    && c.path != []
    && (if c.pc.Applied? || c.pc == Finished(Done) then c.applied
        else c.pc.Releasing? || c.pc.Finished? || !c.applied)
    && (c.pc == Releasing(Cancelled) || c.pc == Finished(Cancelled) ==> !c.applied)
    && (c.op.CompareExchange? ==> c.pc != Releasing(Done) && c.pc != Finished(Done))
    && (c.pc.Waiting? || c.pc.Locked? || c.pc.Observed? || c.pc.Unlink? || c.pc.Releasing? ==> c.op.CompareExchange?)
    && (c.pc.Applied? ==> !c.op.RemoveFile?)
    && (c.left.Some? ==> (c.pc.Releasing? || c.pc.Finished?) && c.left.value in c.temps)
    && (InReplace(c.pc) ==> Installs(c.op))
    && (c.pc.Unlink? ==> c.op.CompareExchange? && c.op.replacement.None?)
    && (OwnsTemp(c) ==> c.pc.n < |c.temps|)
  }

  /** The temporary file that a call owns is there, holds a beginning of its bytes, and all of them once synced. */
  predicate TempOk(files: Files, c: Call) {
    OwnsTemp(c) ==>
      && c.pc.n < |c.temps|
      && OwnTemp(c) in files
      && files[OwnTemp(c)] <= NewBytes(c.op)
      && (!c.pc.Writing? ==> files[OwnTemp(c)] == NewBytes(c.op))
  }

  predicate CallOk(files: Files, c: Call) {
    CallShape(c) && TempOk(files, c)
  }

  /** A working step changes its own target and its own temporary file, and nothing else. */
  lemma WorkFrame(files: Files, c: Call, choice: Choice, p: Path)
    requires CallShape(c) && p != c.path
    requires c.pc.Probe? && c.pc.n < |c.temps| && p == c.temps[c.pc.n] ==> p in files
    requires OwnsTemp(c) ==> p != OwnTemp(c)
    ensures Get(Work(files, c, choice).0, p) == Get(files, p)
  {
  }

  predicate UsesTemp(pc: Pc) {
    pc.Probe? || pc.Writing? || pc.Synced? || pc.Ready?
  }

  lemma WorkKeepsIdentity(files: Files, c: Call, choice: Choice)
    requires CallShape(c) && (c.op.CompareExchange? ==> Holding(c) || c.pc.Finished?)
    ensures var c' := Work(files, c, choice).1;
            && c' == c.(pc := c'.pc, seen := c'.seen, applied := c'.applied, left := c'.left)
            && (Holding(c) <==> Holding(c'))
  {
  }

  lemma TempStepKeepsShape(files: Files, c: Call, choice: Choice)
    requires CallShape(c) && UsesTemp(c.pc)
    ensures CallShape(Work(files, c, choice).1)
  {
  }

  lemma ReadStepKeepsShape(files: Files, c: Call, choice: Choice)
    requires CallShape(c) && (c.pc.Locked? || c.pc.Observed?)
    ensures CallShape(Work(files, c, choice).1)
  {
  }

  lemma PlainStepKeepsShape(files: Files, c: Call, choice: Choice)
    requires CallShape(c) && !UsesTemp(c.pc) && !c.pc.Locked? && !c.pc.Observed?
    requires c.op.CompareExchange? ==> Holding(c) || c.pc.Finished?
    ensures CallShape(Work(files, c, choice).1)
  {
  }

  lemma WorkKeepsShape(files: Files, c: Call, choice: Choice)
    requires CallShape(c) && (c.op.CompareExchange? ==> Holding(c) || c.pc.Finished?)
    ensures CallShape(Work(files, c, choice).1)
  {
    if UsesTemp(c.pc) {
      TempStepKeepsShape(files, c, choice);
    } else if c.pc.Locked? || c.pc.Observed? {
      ReadStepKeepsShape(files, c, choice);
    } else {
      PlainStepKeepsShape(files, c, choice);
    }
  }

  lemma WorkKeepsTempOk(files: Files, c: Call, choice: Choice)
    requires CallOk(files, c) && c.path !in c.temps
    ensures TempOk(Work(files, c, choice).0, Work(files, c, choice).1)
  {
  }

  lemma WorkKeepsCallOk(files: Files, c: Call, choice: Choice)
    requires CallOk(files, c) && (c.op.CompareExchange? ==> Holding(c) || c.pc.Finished?)
    requires c.path !in c.temps
    ensures CallOk(Work(files, c, choice).0, Work(files, c, choice).1)
  {
    WorkKeepsShape(files, c, choice);
    WorkKeepsTempOk(files, c, choice);
  }

  /** What has been written of a temporary file is never taken back while it is being filled. */
  lemma WritesGrow(files: Files, c: Call, choice: Choice)
    requires CallOk(files, c) && c.pc.Writing?
    ensures var (after, d) := Work(files, c, choice);
            OwnsTemp(d) ==> OwnTemp(c) in after && files[OwnTemp(c)] <= after[OwnTemp(c)] <= NewBytes(c.op)
  {
  }

  /** Any call that has not finished may die at any moment: its lock is free then, and all else stays as it is. */
  lemma DeathFreesTheLock(s: State, id: Id)
    requires id in s.calls && !s.calls[id].pc.Finished?
    ensures var after, c := Next(s, Crash(id)), s.calls[id];
            && after.calls == s.calls[id := c.(pc := Finished(Lost))] && after.files == s.files
            && after.locks == if Holding(c) then s.locks - {c.handle} else s.locks
  {
  }

  // ---------- Invariants of the whole system ----------

  predicate AllShapes(s: State) {
    forall id | id in s.calls :: CallShape(s.calls[id])
  }

  /** The temporary files a call may try lie in the directory of its target and in the temporary namespace. */
  ghost predicate TempsNamed(s: State) {
    forall id | id in s.calls ::
      forall temp | temp in s.calls[id].temps :: InTempNamespace(temp) && DirOf(temp) == DirOf(s.calls[id].path)
  }

  /** The lock table lists exactly the callers between acquisition and release, under the file each has opened. */
  predicate LocksOk(s: State) {
    && (forall id | id in s.calls && Holding(s.calls[id]) ::
          s.calls[id].handle in s.locks && s.locks[s.calls[id].handle] == id)
    && (forall inode | inode in s.locks ::
          && s.locks[inode] in s.calls
          && Holding(s.calls[s.locks[inode]])
          && s.calls[s.locks[inode]].handle == inode)
    && (forall id | id in s.calls ::
          s.calls[id].lock == LockPath(s.calls[id].path) && s.calls[id].handle.path == s.calls[id].lock)
  }

  /** What holds whatever the callers name. */
  ghost predicate SystemOk(s: State) {
    AllShapes(s) && TempsNamed(s) && LocksOk(s)
  }

  /** Whether this event is a working step of a known call. */
  predicate IsWork(s: State, e: Event) {
    e.Act? && e.id in s.calls && !AtLock(s.calls[e.id])
  }

  /** Every event that is neither an invocation nor a working step: a step at the lock file, a death, or nothing. */
  function Aside(s: State, e: Event): State
    requires !e.Invoke? && !IsWork(s, e)
  {
    if e.Crash? then Crashed(s, e.id)
    else if e.id in s.calls then LockStep(s, e.id, e.choice)
    else s
  }

  lemma WorkStepIs(s: State, e: Event)
    requires AllShapes(s) && IsWork(s, e)
    ensures CallShape(s.calls[e.id])
    ensures Next(s, e) == Worked(s, e.id, e.choice)
  {
    assert CallShape(s.calls[e.id]);
  }

  lemma AsideIs(s: State, e: Event)
    requires !e.Invoke? && !IsWork(s, e)
    ensures Next(s, e) == Aside(s, e)
  {
  }

  predicate SameTarget(c: Call, d: Call) {
    c.path == d.path && c.lock == d.lock && c.temps == d.temps && c.op == d.op
  }

  /** `after` differs from `s` in no call but that of `actor`, which keeps its target. */
  predicate OneCallMoved(s: State, after: State, actor: Id) {
    && after.calls.Keys == s.calls.Keys
    && (forall id | id in after.calls :: id != actor ==> after.calls[id] == s.calls[id])
    && (actor in after.calls ==> SameTarget(after.calls[actor], s.calls[actor]))
  }

  /** A step aside creates at most a missing lock file and leaves every existing file alone. */
  predicate OnlyLockCreated(s: State, after: State, actor: Id) {
    after.files == s.files ||
    (actor in s.calls && s.calls[actor].lock !in s.files && after.files == s.files[s.calls[actor].lock := []])
  }

  /** The call has the handle it had, or has opened the file that is its lock file now. */
  predicate OpensOrKeeps(s: State, c: Call, after: Call) {
    after.handle == c.handle || after.handle == Inode(c.lock, VersionOf(s.versions, c.lock))
  }

  /** What every step aside keeps. */
  predicate KeepsAside(s: State, after: State, actor: Id) {
    && OneCallMoved(s, after, actor) && OnlyLockCreated(s, after, actor)
    && (actor in s.calls && CallShape(s.calls[actor]) ==> CallShape(after.calls[actor]))
    && (after == s || (actor in s.calls && !OwnsTemp(after.calls[actor]) && after.creators == s.creators))
    && (actor in s.calls ==> after.calls[actor].applied == s.calls[actor].applied)
    && (actor in s.calls ==> after.calls[actor].left == s.calls[actor].left)
    && (actor in s.calls ==> OpensOrKeeps(s, s.calls[actor], after.calls[actor]))
    && after.versions == s.versions && s.order <= after.order
  }

  lemma ReleasedAside(s: State, id: Id, answer: Answer)
    requires id in s.calls && s.calls[id].op.CompareExchange?
    requires answer.Lost? || s.calls[id].pc == Releasing(answer) || (answer.Failed? && s.calls[id].pc.Releasing?)
    ensures KeepsAside(s, Released(s, id, answer), id)
  {
  }

  lemma EndedAside(s: State, id: Id, answer: Answer)
    requires id in s.calls && (answer.Failed? || answer.Lost?)
    ensures KeepsAside(s, Ended(s, id, answer), id)
  {
  }

  lemma OpenedAside(s: State, id: Id)
    requires id in s.calls && s.calls[id].op.CompareExchange? && s.calls[id].pc.Invoked?
    ensures KeepsAside(s, Opened(s, id), id)
  {
  }

  lemma AcquiredAside(s: State, id: Id)
    requires id in s.calls && s.calls[id].op.CompareExchange? && s.calls[id].pc.Waiting?
    ensures KeepsAside(s, Acquired(s, id), id)
  {
  }

  lemma LockStepAside(s: State, id: Id, choice: Choice)
    requires id in s.calls && AtLock(s.calls[id])
    ensures KeepsAside(s, LockStep(s, id, choice), id)
  {
    var c := s.calls[id];
    if c.pc.Releasing? {
      ReleasedAside(s, id, if choice.ioError && c.pc.answer.Exchanged? then Failed else c.pc.answer);
    } else if choice.ioError {
      EndedAside(s, id, Failed);
    } else if c.pc.Invoked? {
      OpenedAside(s, id);
    } else if c.handle !in s.locks {
      AcquiredAside(s, id);
    }
  }

  lemma AsideEffects(s: State, e: Event)
    requires !e.Invoke? && !IsWork(s, e)
    ensures KeepsAside(s, Aside(s, e), e.id)
  {
    if e.id in s.calls {
      if e.Act? {
        LockStepAside(s, e.id, e.choice);
      } else if Holding(s.calls[e.id]) {
        ReleasedAside(s, e.id, Lost);
      } else {
        EndedAside(s, e.id, Lost);
      }
    }
  }

  /** What a step does to the record of the acting call, whichever kind of step it is. */
  lemma NextKeepsIdentity(s: State, e: Event)
    requires AllShapes(s) && !e.Invoke?
    ensures OneCallMoved(s, Next(s, e), e.id)
    ensures e.id in s.calls ==> CallShape(Next(s, e).calls[e.id])
  {
    if IsWork(s, e) {
      WorkStepIs(s, e);
      WorkKeepsIdentity(s.files, s.calls[e.id], e.choice);
      WorkKeepsShape(s.files, s.calls[e.id], e.choice);
    } else {
      AsideIs(s, e);
      AsideEffects(s, e);
      assert e.id in s.calls ==> CallShape(s.calls[e.id]);
    }
  }

  lemma InvokeIsShaped(s: State, e: Event)
    requires AllShapes(s) && e.Invoke?
    ensures AllShapes(Next(s, e))
  {
  }

  lemma InvokeIsNamed(s: State, e: Event)
    requires TempsNamed(s) && e.Invoke?
    ensures TempsNamed(Next(s, e))
  {
    if e.path != [] {
      TempsAreInNamespace(e.path, e.pid);
    }
  }

  lemma MovedKeepsNamed(s: State, after: State, id: Id)
    requires AllShapes(s) && TempsNamed(s) && OneCallMoved(s, after, id)
    requires id in s.calls ==> CallShape(after.calls[id])
    ensures AllShapes(after) && TempsNamed(after)
  {
  }

  /** A call that changes neither its lock nor whether it holds it leaves the table right. */
  lemma LocksUnchanged(s: State, after: State, id: Id, c: Call)
    requires LocksOk(s) && id in s.calls && after.calls == s.calls[id := c] && after.locks == s.locks
    requires SameTarget(c, s.calls[id]) && c.handle.path == c.lock && (Holding(c) <==> Holding(s.calls[id]))
    requires Holding(c) ==> c.handle == s.calls[id].handle
    ensures LocksOk(after)
  {
  }

  lemma LocksAfterTaking(s: State, id: Id)
    requires LocksOk(s) && id in s.calls && s.calls[id].op.CompareExchange? && s.calls[id].handle !in s.locks
    ensures LocksOk(Acquired(s, id))
  {
  }

  lemma LocksAfterRelease(s: State, id: Id, answer: Answer)
    requires LocksOk(s) && id in s.calls && Holding(s.calls[id])
    ensures LocksOk(Released(s, id, answer))
  {
  }

  lemma LocksAfterLockStep(s: State, id: Id, choice: Choice)
    requires LocksOk(s) && id in s.calls && AtLock(s.calls[id])
    ensures LocksOk(LockStep(s, id, choice))
  {
    var c := s.calls[id];
    if c.pc.Releasing? {
      LocksAfterRelease(s, id, if choice.ioError && c.pc.answer.Exchanged? then Failed else c.pc.answer);
    } else if !choice.ioError && c.pc.Waiting? && c.handle !in s.locks {
      LocksAfterTaking(s, id);
    } else if choice.ioError {
      LocksUnchanged(s, Ended(s, id, Failed), id, c.(pc := Finished(Failed)));
    } else if c.pc.Invoked? {
      LocksUnchanged(s, Opened(s, id), id, Opened(s, id).calls[id]);
    }
  }

  lemma LocksAfterCrash(s: State, id: Id)
    requires LocksOk(s)
    ensures LocksOk(Crashed(s, id))
  {
    if id in s.calls && !s.calls[id].pc.Finished? {
      if Holding(s.calls[id]) {
        LocksAfterRelease(s, id, Lost);
      } else {
        LocksUnchanged(s, Ended(s, id, Lost), id, s.calls[id].(pc := Finished(Lost)));
      }
    }
  }

  lemma LocksAfterInvoked(s: State, e: Event)
    requires LocksOk(s) && e.Invoke?
    ensures LocksOk(Next(s, e))
  {
  }

  lemma NextKeepsLocks(s: State, e: Event)
    requires AllShapes(s) && LocksOk(s)
    ensures LocksOk(Next(s, e))
  {
    if IsWork(s, e) {
      WorkStepIs(s, e);
      WorkKeepsIdentity(s.files, s.calls[e.id], e.choice);
      LocksUnchanged(s, Worked(s, e.id, e.choice), e.id, Worked(s, e.id, e.choice).calls[e.id]);
    } else if e.Invoke? {
      LocksAfterInvoked(s, e);
    } else {
      AsideIs(s, e);
      if e.Crash? {
        LocksAfterCrash(s, e.id);
      } else if e.id in s.calls {
        LocksAfterLockStep(s, e.id, e.choice);
      }
    }
  }

  lemma NextKeepsSystem(s: State, e: Event)
    requires SystemOk(s)
    ensures SystemOk(Next(s, e))
  {
    NextKeepsLocks(s, e);
    if e.Invoke? {
      InvokeIsShaped(s, e);
      InvokeIsNamed(s, e);
    } else {
      NextKeepsIdentity(s, e);
      MovedKeepsNamed(s, Next(s, e), e.id);
    }
  }

  /** In every state of every run, whatever the callers name. */
  lemma {:induction false} SystemInvariant(files: Files, events: seq<Event>)
    ensures SystemOk(Run(Start(files), events))
  {
    if events != [] {
      SystemInvariant(files, events[..|events| - 1]);
      NextKeepsSystem(Run(Start(files), events[..|events| - 1]), events[|events| - 1]);
    }
  }

  // ---------- One directory in which nobody names a temporary file ----------

  /** The call works in the directory `dir`; its temporary files lie there too. */
  predicate WorksIn(c: Call, dir: Path) {
    DirOf(c.path) == dir
  }

  /** Whoever works in `dir` targets no temporary file, and has its own temporary file for itself and as it wrote it. */
  ghost predicate Tidy(s: State, dir: Path) {
    && (forall id | id in s.calls && WorksIn(s.calls[id], dir) ::
          !InTempNamespace(s.calls[id].path) && TempOk(s.files, s.calls[id]))
    && TempsDisjoint(s, dir)
  }

  predicate TempsDisjoint(s: State, dir: Path) {
    forall i, j | i in s.calls && j in s.calls && i != j && OwnsIn(s.calls[i], dir) && OwnsIn(s.calls[j], dir) ::
      OwnTemp(s.calls[i]) != OwnTemp(s.calls[j])
  }

  predicate OwnsIn(c: Call, dir: Path) {
    ValidOwner(c) && WorksIn(c, dir)
  }

  /** The event does not name a temporary file of the directory. */
  ghost predicate DisciplinedIn(e: Event, dir: Path) {
    e.Invoke? && DirOf(e.path) == dir ==> !InTempNamespace(e.path)
  }

  ghost predicate AllDisciplined(events: seq<Event>, dir: Path) {
    forall k | 0 <= k < |events| :: DisciplinedIn(events[k], dir)
  }

  /** The record and the temporary file of `other` are as they were. */
  predicate Undisturbed(s: State, after: State, other: Id)
    requires other in s.calls && CallOk(s.files, s.calls[other])
  {
    && other in after.calls && after.calls[other] == s.calls[other]
    && TempOk(after.files, s.calls[other])
    && (OwnsTemp(s.calls[other]) ==> Get(after.files, OwnTemp(s.calls[other])) == Get(s.files, OwnTemp(s.calls[other])))
  }

  lemma SameFile(files: Files, after: Files, c: Call)
    requires CallOk(files, c) && (OwnsTemp(c) ==> Get(after, OwnTemp(c)) == Get(files, OwnTemp(c)))
    ensures TempOk(after, c)
  {
  }

  /** The acting call, wherever it works, keeps away from the temporary file of a call in a tidy directory. */
  lemma KeepsAway(s: State, dir: Path, id: Id, other: Id)
    requires SystemOk(s) && Tidy(s, dir)
    requires id in s.calls && other in s.calls && other != id && OwnsIn(s.calls[other], dir)
    ensures CallShape(s.calls[id]) && OwnTemp(s.calls[other]) in s.files
    ensures OwnTemp(s.calls[other]) != s.calls[id].path
    ensures OwnsTemp(s.calls[id]) ==> OwnTemp(s.calls[other]) != OwnTemp(s.calls[id])
  {
    var c, temp := s.calls[id], OwnTemp(s.calls[other]);
    assert CallShape(c);
    assert temp in s.calls[other].temps && InTempNamespace(temp) && DirOf(temp) == dir;
    if !WorksIn(c, dir) && OwnsTemp(c) {
      assert OwnTemp(c) in c.temps;
    }
  }

  lemma WorkLeavesOthers(s: State, dir: Path, id: Id, choice: Choice, other: Id)
    requires SystemOk(s) && Tidy(s, dir) && id in s.calls && other in s.calls && other != id
    requires WorksIn(s.calls[other], dir)
    ensures CallShape(s.calls[id]) && CallOk(s.files, s.calls[other]) && Undisturbed(s, Worked(s, id, choice), other)
  {
    assert CallShape(s.calls[id]) && CallShape(s.calls[other]);
    if OwnsTemp(s.calls[other]) {
      KeepsAway(s, dir, id, other);
      WorkFrame(s.files, s.calls[id], choice, OwnTemp(s.calls[other]));
    }
    SameFile(s.files, Worked(s, id, choice).files, s.calls[other]);
  }

  lemma AsideLeavesOthers(s: State, after: State, id: Id, other: Id)
    requires KeepsAside(s, after, id) && other in s.calls && other != id && CallOk(s.files, s.calls[other])
    ensures Undisturbed(s, after, other)
  {
    SameFile(s.files, after.files, s.calls[other]);
  }

  /** In a tidy directory no step disturbs a temporary file that another call owns. */
  lemma OthersUndisturbed(s: State, dir: Path, e: Event, other: Id)
    requires SystemOk(s) && Tidy(s, dir) && !e.Invoke?
    requires other in s.calls && other != e.id && WorksIn(s.calls[other], dir)
    ensures CallOk(s.files, s.calls[other]) && Undisturbed(s, Next(s, e), other)
  {
    assert CallShape(s.calls[other]);
    if IsWork(s, e) {
      WorkStepIs(s, e);
      WorkLeavesOthers(s, dir, e.id, e.choice, other);
    } else {
      AsideIs(s, e);
      AsideEffects(s, e);
      AsideLeavesOthers(s, Aside(s, e), e.id, other);
    }
  }

  lemma TargetIsNoTemp(s: State, dir: Path, id: Id)
    requires SystemOk(s) && Tidy(s, dir) && id in s.calls && WorksIn(s.calls[id], dir)
    ensures CallOk(s.files, s.calls[id]) && s.calls[id].path !in s.calls[id].temps
  {
    assert CallShape(s.calls[id]);
  }

  lemma ActorStaysTidy(s: State, dir: Path, e: Event)
    requires SystemOk(s) && Tidy(s, dir) && !e.Invoke? && e.id in s.calls && WorksIn(s.calls[e.id], dir)
    ensures e.id in Next(s, e).calls && TempOk(Next(s, e).files, Next(s, e).calls[e.id])
  {
    TargetIsNoTemp(s, dir, e.id);
    if IsWork(s, e) {
      WorkStepIs(s, e);
      WorkKeepsTempOk(s.files, s.calls[e.id], e.choice);
    } else {
      AsideIs(s, e);
      AsideEffects(s, e);
    }
  }

  /** A temporary file that a call owns after a working step was either its own already or is newly created. */
  lemma OwnedOrCreated(files: Files, c: Call, choice: Choice)
    requires CallShape(c)
    requires ValidOwner(Work(files, c, choice).1)
    ensures var after := Work(files, c, choice).1;
            if Creates(c, after) then OwnTemp(after) !in files && OwnTemp(after) == c.temps[c.pc.n]
            else OwnsTemp(c) && OwnTemp(after) == OwnTemp(c)
  {
  }

  lemma NewOwnerIsAlone(s: State, dir: Path, id: Id, choice: Choice, other: Id)
    requires SystemOk(s) && Tidy(s, dir) && id in s.calls && other in s.calls && other != id
    requires CallShape(s.calls[id]) && ValidOwner(Work(s.files, s.calls[id], choice).1) && OwnsIn(s.calls[other], dir)
    ensures OwnTemp(s.calls[other]) != OwnTemp(Work(s.files, s.calls[id], choice).1)
  {
    OwnedOrCreated(s.files, s.calls[id], choice);
    KeepsAway(s, dir, id, other);
  }

  lemma DisjointUpdate(s: State, after: State, dir: Path, id: Id)
    requires TempsDisjoint(s, dir) && OneCallMoved(s, after, id)
    requires id in s.calls && ValidOwner(after.calls[id]) ==>
               forall other | other in s.calls && other != id && OwnsIn(s.calls[other], dir) ::
                 OwnTemp(s.calls[other]) != OwnTemp(after.calls[id])
    ensures TempsDisjoint(after, dir)
  {
  }

  lemma NextKeepsDisjoint(s: State, dir: Path, e: Event)
    requires SystemOk(s) && Tidy(s, dir) && !e.Invoke?
    ensures TempsDisjoint(Next(s, e), dir)
  {
    NextKeepsIdentity(s, e);
    if IsWork(s, e) {
      WorkStepIs(s, e);
      var c := Work(s.files, s.calls[e.id], e.choice).1;
      if ValidOwner(c) {
        forall other | other in s.calls && other != e.id && OwnsIn(s.calls[other], dir)
          ensures OwnTemp(s.calls[other]) != OwnTemp(c)
        {
          NewOwnerIsAlone(s, dir, e.id, e.choice, other);
        }
      }
      DisjointUpdate(s, Worked(s, e.id, e.choice), dir, e.id);
    } else {
      AsideIs(s, e);
      AsideEffects(s, e);
      if Aside(s, e) != s {
        DisjointUpdate(s, Aside(s, e), dir, e.id);
      }
    }
  }

  lemma InvokeKeepsTidy(s: State, dir: Path, e: Event)
    requires Tidy(s, dir) && e.Invoke? && DisciplinedIn(e, dir)
    ensures Tidy(Next(s, e), dir)
  {
  }

  lemma TidyFromParts(s: State, after: State, dir: Path, id: Id)
    requires Tidy(s, dir) && OneCallMoved(s, after, id) && TempsDisjoint(after, dir)
    requires forall other | other in s.calls && other != id && WorksIn(s.calls[other], dir) ::
               TempOk(after.files, s.calls[other])
    requires id in s.calls && WorksIn(s.calls[id], dir) ==> TempOk(after.files, after.calls[id])
    ensures Tidy(after, dir)
  {
  }

  lemma NextKeepsTidy(s: State, dir: Path, e: Event)
    requires SystemOk(s) && Tidy(s, dir) && DisciplinedIn(e, dir)
    ensures Tidy(Next(s, e), dir)
  {
    if e.Invoke? {
      InvokeKeepsTidy(s, dir, e);
    } else {
      NextKeepsIdentity(s, e);
      NextKeepsDisjoint(s, dir, e);
      forall other | other in s.calls && other != e.id && WorksIn(s.calls[other], dir)
        ensures TempOk(Next(s, e).files, s.calls[other])
      {
        OthersUndisturbed(s, dir, e, other);
      }
      if e.id in s.calls && WorksIn(s.calls[e.id], dir) {
        ActorStaysTidy(s, dir, e);
      }
      TidyFromParts(s, Next(s, e), dir, e.id);
    }
  }

  /** A directory stays tidy as long as nobody names a temporary file of it, whatever happens elsewhere. */
  lemma {:induction false} TidyInvariant(files: Files, events: seq<Event>, dir: Path)
    requires AllDisciplined(events, dir)
    ensures SystemOk(Run(Start(files), events)) && Tidy(Run(Start(files), events), dir)
  {
    SystemInvariant(files, events);
    if events != [] {
      var front := events[..|events| - 1];
      TidyInvariant(files, front, dir);
      NextKeepsTidy(Run(Start(files), front), dir, events[|events| - 1]);
    }
  }
}
