/** When a call of the Ubuntu port must stop: at the polls of its token and at the first error, over every run. */
module HostPolls {
  import opened Common
  import opened Paths
  import opened HostSteps

  /** The points at which a call asks its token: after a read, before creating a temporary file, after its sync. */
  predicate AtPoll(c: Call) {
    c.pc.Observed? || c.pc.Guard? || c.pc.Synced?
  }

  /** The record of a call after the first `k` events of a run. */
  ghost predicate Stands(files: Files, events: seq<Event>, k: nat, id: Id, c: Call) {
    k <= |events| && id in Run(Start(files), events[..k]).calls && Run(Start(files), events[..k]).calls[id] == c
  }

  /** Event `k` is a step of the call `id`, which stood at the record `c`. */
  ghost predicate TakesStep(files: Files, events: seq<Event>, k: nat, id: Id, c: Call) {
    k < |events| && events[k].Act? && events[k].id == id && Stands(files, events, k, id, c)
  }

  /** How one event changes the record of one call. */
  datatype Move = Unmoved | Begun | ByWork | BySide

  function MoveOf(s: State, e: Event, id: Id): Move {
    if id !in s.calls then Begun
    else if e.id != id || e.Invoke? then Unmoved
    else if IsWork(s, e) then ByWork
    else BySide
  }

  /** A step at the lock file, or a death, leads to one of these points only. */
  predicate LeadsAside(c: Call, after: Call) {
    && SameTarget(after, c) && after.applied == c.applied && (after.seen == c.seen || after == c)
    && (|| after == c
        || after.pc == Finished(Lost)
        || (after.pc.Waiting? && c.pc.Invoked?)
        || (after.pc.Locked? && c.pc.Waiting?)
        || (after.pc == Finished(Failed) && (c.pc.Invoked? || c.pc.Waiting?))
        || (c.pc.Releasing? && (after.pc == Finished(c.pc.answer)
                                || (after.pc == Finished(Failed) && c.pc.answer.Exchanged?))))
  }

  lemma ReleaseLeads(s: State, id: Id, answer: Answer)
    requires id in s.calls && s.calls[id].op.CompareExchange?
    requires answer.Lost? || s.calls[id].pc == Releasing(answer)
             || (answer.Failed? && s.calls[id].pc.Releasing? && s.calls[id].pc.answer.Exchanged?)
    ensures id in Released(s, id, answer).calls && LeadsAside(s.calls[id], Released(s, id, answer).calls[id])
  {
  }

  lemma LockStepLeads(s: State, id: Id, choice: Choice)
    requires id in s.calls && AtLock(s.calls[id])
    ensures id in LockStep(s, id, choice).calls && LeadsAside(s.calls[id], LockStep(s, id, choice).calls[id])
  {
    var c := s.calls[id];
    if c.pc.Releasing? {
      ReleaseLeads(s, id, if choice.ioError && c.pc.answer.Exchanged? then Failed else c.pc.answer);
    }
  }

  lemma DeathLeads(s: State, id: Id)
    requires id in s.calls
    ensures id in Crashed(s, id).calls && LeadsAside(s.calls[id], Crashed(s, id).calls[id])
  {
    if Holding(s.calls[id]) {
      ReleaseLeads(s, id, Lost);
    }
  }

  lemma AsideLeads(s: State, e: Event)
    requires !e.Invoke? && !IsWork(s, e) && e.id in s.calls
    ensures e.id in Aside(s, e).calls && LeadsAside(s.calls[e.id], Aside(s, e).calls[e.id])
  {
    if e.Crash? {
      DeathLeads(s, e.id);
    } else {
      LockStepLeads(s, e.id, e.choice);
    }
  }

  lemma InvokeLeads(s: State, e: Event, id: Id)
    requires e.Invoke? && id in Next(s, e).calls
    ensures if id in s.calls then Next(s, e).calls[id] == s.calls[id]
            else Next(s, e).calls[id].pc.Invoked? && !Next(s, e).calls[id].applied
  {
  }

  /** A call has the record it had, or is new, or has worked, or has been at its lock file or died. */
  lemma HowItMoved(s: State, e: Event, id: Id)
    requires AllShapes(s) && id in Next(s, e).calls
    ensures var after := Next(s, e).calls[id];
            match MoveOf(s, e, id)
            case Unmoved => id in s.calls && after == s.calls[id]
            case Begun => id !in s.calls && after.pc.Invoked? && !after.applied
            case ByWork => && CallShape(s.calls[id]) && !AtLock(s.calls[id]) && e.Act? && e.id == id
                           && after == Work(s.files, s.calls[id], e.choice).1
            case BySide => LeadsAside(s.calls[id], after)
  {
    if e.Invoke? {
      InvokeLeads(s, e, id);
    } else {
      NextKeepsIdentity(s, e);
      if id in s.calls && e.id == id {
        if IsWork(s, e) {
          WorkStepIs(s, e);
        } else {
          AsideIs(s, e);
          AsideLeads(s, e);
        }
      }
    }
  }

  // ---------- Cancelled at a poll ----------

  /** The call has given up because of its token and will not touch its target any more; it may have died since. */
  predicate HasStopped(c: Call) {
    !c.applied && (c.pc == Releasing(Cancelled) || c.pc == Finished(Cancelled) || c.pc == Finished(Lost))
  }

  lemma CancelledWorkStops(files: Files, c: Call, choice: Choice)
    requires CallShape(c) && AtPoll(c) && choice.cancelled
    ensures HasStopped(Work(files, c, choice).1)
  {
  }

  lemma StoppedWorkStays(files: Files, c: Call, choice: Choice)
    requires CallShape(c) && HasStopped(c)
    ensures HasStopped(Work(files, c, choice).1)
  {
  }

  lemma StoppedStays(s: State, e: Event, id: Id)
    requires AllShapes(s) && id in s.calls && HasStopped(s.calls[id])
    ensures id in Next(s, e).calls && HasStopped(Next(s, e).calls[id])
  {
    CallsStay(s, e, id);
    HowItMoved(s, e, id);
    if MoveOf(s, e, id).ByWork? {
      StoppedWorkStays(s.files, s.calls[id], e.choice);
    }
  }

  lemma CallsStay(s: State, e: Event, id: Id)
    requires AllShapes(s) && id in s.calls
    ensures id in Next(s, e).calls
  {
    if !e.Invoke? {
      NextKeepsIdentity(s, e);
    }
  }

  lemma PollStops(s: State, e: Event)
    requires AllShapes(s) && e.Act? && e.id in s.calls && AtPoll(s.calls[e.id]) && e.choice.cancelled
    ensures e.id in Next(s, e).calls && HasStopped(Next(s, e).calls[e.id])
  {
    CallsStay(s, e, e.id);
    HowItMoved(s, e, e.id);
    assert CallShape(s.calls[e.id]);
    CancelledWorkStops(s.files, s.calls[e.id], e.choice);
  }

  /**
   If the token says yes at a poll, the call never touches its target afterwards, and it is answered that it was
   cancelled, unless it dies first.
   */
  lemma {:induction false} CancelledPollStops(files: Files, events: seq<Event>, k: nat, id: Id, c: Call)
    requires TakesStep(files, events, k, id, c) && AtPoll(c) && events[k].choice.cancelled
    ensures id in Run(Start(files), events).calls && HasStopped(Run(Start(files), events).calls[id])
    decreases |events|
  {
    var front, e := events[..|events| - 1], events[|events| - 1];
    SystemInvariant(files, front);
    if k == |events| - 1 {
      PollStops(Run(Start(files), front), e);
    } else {
      assert front[..k] == events[..k];
      CancelledPollStops(files, front, k, id, c);
      StoppedStays(Run(Start(files), front), e, id);
    }
  }

  // ---------- Errors ----------

  /** The points at which a step of the call is a request to the file system. */
  predicate DoesIo(c: Call) {
    || (c.pc.Invoked? && !c.op.Replace?) || c.pc.Waiting? || c.pc.Locked? || c.pc.Guard? || c.pc.Probe?
    || c.pc.Writing? || c.pc.Ready? || c.pc.Unlink? || c.pc.Applied? || (c.pc.Releasing? && c.pc.answer.Exchanged?)
  }

  /** The call is going to answer that it failed, or has died. */
  predicate ReportsFailure(c: Call) {
    c.pc == Releasing(Failed) || c.pc == Finished(Failed) || c.pc == Finished(Lost)
  }

  /** The step meets an error, and is not stopped by the token before. */
  predicate MeetsError(c: Call, choice: Choice) {
    DoesIo(c) && choice.ioError && !(AtPoll(c) && choice.cancelled)
  }

  lemma FailedWorkReports(files: Files, c: Call, choice: Choice)
    requires CallShape(c) && MeetsError(c, choice) && !AtLock(c)
    ensures ReportsFailure(Work(files, c, choice).1)
  {
  }

  lemma FailedLockStepReports(s: State, id: Id, choice: Choice)
    requires id in s.calls && AtLock(s.calls[id]) && MeetsError(s.calls[id], choice)
    ensures id in LockStep(s, id, choice).calls && ReportsFailure(LockStep(s, id, choice).calls[id])
  {
  }

  lemma FailedStepReports(s: State, e: Event)
    requires AllShapes(s) && e.Act? && e.id in s.calls && MeetsError(s.calls[e.id], e.choice)
    ensures e.id in Next(s, e).calls && ReportsFailure(Next(s, e).calls[e.id])
  {
    if IsWork(s, e) {
      WorkStepIs(s, e);
      FailedWorkReports(s.files, s.calls[e.id], e.choice);
    } else {
      AsideIs(s, e);
      FailedLockStepReports(s, e.id, e.choice);
    }
  }

  lemma ReportStays(s: State, e: Event, id: Id)
    requires AllShapes(s) && id in s.calls && ReportsFailure(s.calls[id])
    ensures id in Next(s, e).calls && ReportsFailure(Next(s, e).calls[id])
  {
    CallsStay(s, e, id);
    HowItMoved(s, e, id);
  }

  /** An error of the file system is never hidden: the call is answered that it failed, unless it dies first. */
  lemma {:induction false} ErrorsAreReported(files: Files, events: seq<Event>, k: nat, id: Id, c: Call)
    requires TakesStep(files, events, k, id, c) && MeetsError(c, events[k].choice)
    ensures id in Run(Start(files), events).calls && ReportsFailure(Run(Start(files), events).calls[id])
    decreases |events|
  {
    var front, e := events[..|events| - 1], events[|events| - 1];
    SystemInvariant(files, front);
    if k == |events| - 1 {
      FailedStepReports(Run(Start(files), front), e);
    } else {
      assert front[..k] == events[..k];
      ErrorsAreReported(files, front, k, id, c);
      ReportStays(Run(Start(files), front), e, id);
    }
  }

  // ---------- What lies behind an installed file ----------

  /** Event `k` is a poll of the call `id`, which stood at `c`, and the token said no. */
  ghost predicate PollsNo(files: Files, events: seq<Event>, k: nat, id: Id, c: Call) {
    TakesStep(files, events, k, id, c) && AtPoll(c) && !events[k].choice.cancelled
  }

  /** Each point of a replace is reached from the one before it only, past a poll that said no where there is one. */
  predicate Reaches(c: Call, after: Call, choice: Choice, content: Option<Bytes>) {
    && after.op == c.op && after.path == c.path && (after.seen == c.seen || after.pc.Observed?)
    && (match after.pc
        case Ready(n) => c.pc == Synced(n) && !choice.cancelled
        case Synced(n) => c.pc == Writing(n)
        case Writing(n) => c.pc == Probe(n)
        case Probe(_) => c.pc.Probe? || (c.pc.Guard? && !choice.cancelled)
        case Guard => if c.op.CompareExchange? then Decides(c) && !choice.cancelled else c.pc.Invoked?
        case Unlink => Decides(c) && !choice.cancelled
        case Observed => c.pc.Locked? && after.seen == content
        case _ => after.applied && !c.applied ==> c.pc.Ready? || c.pc.Unlink? || c.op.RemoveFile?)
  }

  lemma TempStepReaches(files: Files, c: Call, choice: Choice)
    requires CallShape(c) && UsesTemp(c.pc) && Work(files, c, choice).1 != c
    ensures Reaches(c, Work(files, c, choice).1, choice, Get(files, c.path))
  {
  }

  lemma ReadStepReaches(files: Files, c: Call, choice: Choice)
    requires CallShape(c) && (c.pc.Locked? || c.pc.Observed?)
    ensures Reaches(c, Work(files, c, choice).1, choice, Get(files, c.path))
  {
  }

  lemma PlainStepReaches(files: Files, c: Call, choice: Choice)
    requires CallShape(c) && !AtLock(c) && !UsesTemp(c.pc) && !c.pc.Locked? && !c.pc.Observed?
    requires Work(files, c, choice).1 != c
    ensures Reaches(c, Work(files, c, choice).1, choice, Get(files, c.path))
  {
  }

  lemma WorkReaches(files: Files, c: Call, choice: Choice)
    requires CallShape(c) && !AtLock(c) && Work(files, c, choice).1 != c
    ensures Reaches(c, Work(files, c, choice).1, choice, Get(files, c.path))
  {
    if UsesTemp(c.pc) {
      TempStepReaches(files, c, choice);
    } else if c.pc.Locked? || c.pc.Observed? {
      ReadStepReaches(files, c, choice);
    } else {
      PlainStepReaches(files, c, choice);
    }
  }

  /** A compare-exchange that has found what it expected. */
  predicate Decides(c: Call) {
    c.op.CompareExchange? && c.pc.Observed? && c.seen == c.op.expected
  }

  /** Nothing is installed by a step at the lock file or by a death. */
  predicate InMidst(c: Call) {
    InReplace(c.pc) || c.pc.Unlink? || c.pc.Observed?
  }

  lemma FrontStands(files: Files, events: seq<Event>, k: nat, id: Id, c: Call)
    requires events != [] && k < |events|
    ensures Stands(files, events[..|events| - 1], k, id, c) <==> Stands(files, events, k, id, c)
    ensures k < |events| - 1 ==>
              (TakesStep(files, events[..|events| - 1], k, id, c) <==> TakesStep(files, events, k, id, c))
  {
    assert events[..|events| - 1][..k] == events[..k];
  }

  lemma StepBefore(s: State, e: Event, id: Id)
    requires AllShapes(s) && id in Next(s, e).calls && InMidst(Next(s, e).calls[id])
    ensures id in s.calls
    ensures var before, c := s.calls[id], Next(s, e).calls[id];
            before == c || (e.Act? && e.id == id && Reaches(before, c, e.choice, Get(s.files, before.path)))
  {
    HowItMoved(s, e, id);
    if MoveOf(s, e, id).ByWork? && s.calls[id] != Next(s, e).calls[id] {
      WorkReaches(s.files, s.calls[id], e.choice);
    }
  }

  /** The record of a call, and that of one event before. */
  lemma Earlier(files: Files, events: seq<Event>, id: Id, c: Call) returns (before: Call)
    requires Stands(files, events, |events|, id, c) && InMidst(c)
    ensures events != [] && Stands(files, events, |events| - 1, id, before)
    ensures before == c || (TakesStep(files, events, |events| - 1, id, before)
                            && Reaches(before, c, events[|events| - 1].choice,
                                       Get(Run(Start(files), events[..|events| - 1]).files, before.path)))
  {
    assert events[..|events|] == events;
    var front, e := events[..|events| - 1], events[|events| - 1];
    SystemInvariant(files, front);
    StepBefore(Run(Start(files), front), e, id);
    before := Run(Start(files), front).calls[id];
  }

  /** The record has not changed from event `from` on. */
  ghost predicate StandsFrom(files: Files, events: seq<Event>, from: nat, id: Id, c: Call) {
    forall m | from <= m <= |events| :: Stands(files, events, m, id, c)
  }

  lemma StandsLonger(files: Files, events: seq<Event>, from: nat, id: Id, c: Call)
    requires events != [] && StandsFrom(files, events[..|events| - 1], from, id, c)
    requires Stands(files, events, |events|, id, c)
    ensures StandsFrom(files, events, from, id, c)
  {
    forall m | from <= m <= |events| ensures Stands(files, events, m, id, c) {
      if m < |events| {
        FrontStands(files, events, m, id, c);
      }
    }
  }

  /** The content of the target of a call after `k` events. */
  ghost function ContentAt(files: Files, events: seq<Event>, k: nat, p: Path): Option<Bytes>
    requires k <= |events|
  {
    Get(Run(Start(files), events[..k]).files, p)
  }

  /** The step by which a call came to its present record, in which it has stood ever since. */
  lemma {:induction false} Entered(files: Files, events: seq<Event>, id: Id, c: Call) returns (k: nat, before: Call)
    requires Stands(files, events, |events|, id, c) && InMidst(c)
    ensures TakesStep(files, events, k, id, before) && StandsFrom(files, events, k + 1, id, c)
    ensures Reaches(before, c, events[k].choice, ContentAt(files, events, k, before.path))
    decreases |events|
  {
    before := Earlier(files, events, id, c);
    var front, last := events[..|events| - 1], |events| - 1;
    k := last;
    assert events[..|events|] == events;
    if before == c {
      FrontStands(files, events, last, id, c);
      assert front[..|front|] == events[..last];
      k, before := Entered(files, front, id, c);
      assert front[..k] == events[..k];
      FrontStands(files, events, k, id, before);
      StandsLonger(files, events, k + 1, id, c);
    }
  }

  /** The same for a record that the call had after `n` events of a longer run. */
  lemma EnteredBefore(files: Files, events: seq<Event>, n: nat, id: Id, c: Call) returns (k: nat, before: Call)
    requires Stands(files, events, n, id, c) && InMidst(c)
    ensures k < n && TakesStep(files, events, k, id, before)
    ensures forall m | k < m <= n :: Stands(files, events, m, id, c)
    ensures Reaches(before, c, events[k].choice, ContentAt(files, events, k, before.path))
  {
    var prefix := events[..n];
    assert prefix[..n] == prefix;
    k, before := Entered(files, prefix, id, c);
    assert prefix[..k] == events[..k];
    forall m | k < m <= n ensures Stands(files, events, m, id, c) {
      assert Stands(files, prefix, m, id, c);
      assert prefix[..m] == events[..m];
    }
  }

  /** A call that tries temporary names has passed its first poll. */
  lemma {:induction false} ProbeIsPolled(files: Files, events: seq<Event>, n: nat, id: Id, c: Call)
    returns (first: nat, before: Call)
    requires Stands(files, events, n, id, c) && c.pc.Probe?
    ensures first < n && PollsNo(files, events, first, id, before) && before.pc.Guard?
    ensures before.op == c.op && before.path == c.path && before.seen == c.seen
    decreases n
  {
    first, before := EnteredBefore(files, events, n, id, c);
    if before.pc.Probe? {
      first, before := ProbeIsPolled(files, events, first, id, before);
    }
  }

  // ---------- The step that takes effect ----------

  lemma WorkApplies(files: Files, c: Call, choice: Choice)
    requires CallShape(c) && !AtLock(c) && Work(files, c, choice).1.applied && !c.applied
    ensures c.pc.Ready? || c.pc.Unlink? || c.op.RemoveFile?
    ensures c.pc.Ready? ==> Get(Work(files, c, choice).0, c.path) == Get(files, OwnTemp(c))
    ensures !c.pc.Ready? ==> Get(Work(files, c, choice).0, c.path).None? && Get(files, c.path).Some?
  {
  }

  /** How a call takes effect: it renames its temporary file onto the target, or unlinks the target. */
  predicate RenamesOrUnlinks(c: Call, before: Files, after: Files) {
    if c.pc.Ready? then ValidOwner(c) && Get(after, c.path) == Get(before, OwnTemp(c))
    else (c.pc.Unlink? || c.op.RemoveFile?) && Get(before, c.path).Some? && Get(after, c.path).None?
  }

  lemma AppliedArises(s: State, e: Event, id: Id)
    requires AllShapes(s) && id in Next(s, e).calls && Next(s, e).calls[id].applied
    requires id in s.calls ==> !s.calls[id].applied
    ensures e.Act? && e.id == id && id in s.calls && CallShape(s.calls[id])
    ensures SameTarget(Next(s, e).calls[id], s.calls[id])
    ensures RenamesOrUnlinks(s.calls[id], s.files, Next(s, e).files)
  {
    HowItMoved(s, e, id);
    WorkStepIs(s, e);
    WorkKeepsIdentity(s.files, s.calls[id], e.choice);
    WorkApplies(s.files, s.calls[id], e.choice);
  }

  /** By event `k` the call `id`, which stood at `c`, has taken effect. */
  ghost predicate AppliesAt(files: Files, events: seq<Event>, k: nat, id: Id, c: Call) {
    && TakesStep(files, events, k, id, c) && !c.applied && CallShape(c)
    && RenamesOrUnlinks(c, Run(Start(files), events[..k]).files, Run(Start(files), events[..k + 1]).files)
  }

  lemma LongerApplies(files: Files, events: seq<Event>, k: nat, id: Id, c: Call)
    requires events != [] && AppliesAt(files, events[..|events| - 1], k, id, c)
    ensures AppliesAt(files, events, k, id, c)
  {
    var front := events[..|events| - 1];
    assert front[..k] == events[..k] && front[..k + 1] == events[..k + 1];
    FrontStands(files, events, k, id, c);
  }

  lemma LastApplies(files: Files, events: seq<Event>, s: State, after: State, id: Id)
    requires events != [] && s == Run(Start(files), events[..|events| - 1]) && after == Run(Start(files), events)
    requires events[|events| - 1].Act? && events[|events| - 1].id == id && id in s.calls
    requires !s.calls[id].applied && CallShape(s.calls[id]) && RenamesOrUnlinks(s.calls[id], s.files, after.files)
    ensures AppliesAt(files, events, |events| - 1, id, s.calls[id])
  {
    assert events[..|events| - 1 + 1] == events;
  }

  lemma RunLast(files: Files, events: seq<Event>)
    requires events != []
    ensures Run(Start(files), events) == Next(Run(Start(files), events[..|events| - 1]), events[|events| - 1])
  {
  }

  /** The event at which a call has taken effect, and the record it had before. */
  lemma {:induction false} AppliedAt(files: Files, events: seq<Event>, id: Id) returns (k: nat, c: Call)
    requires id in Run(Start(files), events).calls && Run(Start(files), events).calls[id].applied
    ensures AppliesAt(files, events, k, id, c) && SameTarget(c, Run(Start(files), events).calls[id])
    decreases |events|
  {
    var front := events[..|events| - 1];
    var s := Run(Start(files), front);
    if id in s.calls && s.calls[id].applied {
      k, c := AppliedAt(files, front, id);
      SystemInvariant(files, front);
      TargetStays(s, events[|events| - 1], id);
      LongerApplies(files, events, k, id, c);
    } else {
      SystemInvariant(files, front);
      RunLast(files, events);
      AppliedArises(s, events[|events| - 1], id);
      LastApplies(files, events, s, Run(Start(files), events), id);
      k, c := |events| - 1, s.calls[id];
    }
  }

  lemma TargetStays(s: State, e: Event, id: Id)
    requires AllShapes(s) && id in s.calls
    ensures id in Next(s, e).calls && SameTarget(Next(s, e).calls[id], s.calls[id])
  {
    CallsStay(s, e, id);
    if e.Invoke? {
      InvokeLeads(s, e, id);
    } else {
      NextKeepsIdentity(s, e);
    }
  }

  // ---------- Behind every installed file lie two polls ----------

  /** Event `k` is a step of the call at the point `pc`. */
  ghost predicate StepsAt(files: Files, events: seq<Event>, k: nat, id: Id, pc: Pc) {
    k < |events| && events[k].Act? && events[k].id == id && IsAt(files, events, k, id, pc)
  }

  ghost predicate IsAt(files: Files, events: seq<Event>, k: nat, id: Id, pc: Pc) {
    k <= |events| && id in Run(Start(files), events[..k]).calls && Run(Start(files), events[..k]).calls[id].pc == pc
  }

  /** The stretch of a run from the sync of a temporary file to its rename: one poll, which said no. */
  lemma SyncToRename(files: Files, events: seq<Event>, renamed: nat, id: Id, c: Call)
    returns (written: nat, second: nat, before: Call)
    requires Stands(files, events, renamed, id, c) && c.pc.Ready?
    ensures written < second < renamed
    ensures TakesStep(files, events, written, id, before) && before.pc == Writing(c.pc.n)
    ensures IsAt(files, events, written + 1, id, Synced(c.pc.n))
    ensures StepsAt(files, events, second, id, Synced(c.pc.n)) && !events[second].choice.cancelled
    ensures forall m | written < m <= renamed ::
              IsAt(files, events, m, id, Synced(c.pc.n)) || IsAt(files, events, m, id, Ready(c.pc.n))
    ensures before.op == c.op && before.path == c.path && before.seen == c.seen
  {
    var d;
    second, d := EnteredBefore(files, events, renamed, id, c);
    written, before := EnteredBefore(files, events, second, id, d);
    assert Stands(files, events, written + 1, id, d);
    forall m | written < m <= renamed
      ensures IsAt(files, events, m, id, Synced(c.pc.n)) || IsAt(files, events, m, id, Ready(c.pc.n))
    {
      assert if m <= second then Stands(files, events, m, id, d) else Stands(files, events, m, id, c);
    }
  }

  /** The stretch from the first poll to the creation of the temporary file. */
  lemma PollToCreation(files: Files, events: seq<Event>, written: nat, id: Id, c: Call)
    returns (first: nat, created: nat, before: Call)
    requires Stands(files, events, written, id, c) && c.pc.Writing?
    ensures first < created < written
    ensures PollsNo(files, events, first, id, before) && before.pc.Guard?
    ensures StepsAt(files, events, created, id, Probe(c.pc.n)) && IsAt(files, events, created + 1, id, c.pc)
    ensures before.op == c.op && before.path == c.path && before.seen == c.seen
  {
    var d;
    created, d := EnteredBefore(files, events, written, id, c);
    assert Stands(files, events, created + 1, id, c);
    first, before := ProbeIsPolled(files, events, created, id, d);
  }

  /**
   A call that has installed new content has asked its token before it created its temporary file, and again
   between the last write and the rename, and was told to go on both times; in between nothing was written any more,
   and what the target held after the rename is what the temporary file held before it.
   */
  lemma InstallsArePolled(files: Files, events: seq<Event>, id: Id)
    returns (first: nat, created: nat, written: nat, second: nat, renamed: nat, n: nat)
    requires id in Run(Start(files), events).calls && Run(Start(files), events).calls[id].applied
    requires Installs(Run(Start(files), events).calls[id].op)
    ensures first < created < written < second < renamed < |events|
    ensures StepsAt(files, events, first, id, Guard) && !events[first].choice.cancelled
    ensures StepsAt(files, events, created, id, Probe(n)) && IsAt(files, events, created + 1, id, Writing(n))
    ensures StepsAt(files, events, written, id, Writing(n)) && IsAt(files, events, written + 1, id, Synced(n))
    ensures StepsAt(files, events, second, id, Synced(n)) && !events[second].choice.cancelled
    ensures StepsAt(files, events, renamed, id, Ready(n))
    ensures forall m | written < m <= renamed ::
              IsAt(files, events, m, id, Synced(n)) || IsAt(files, events, m, id, Ready(n))
    ensures RenamesTemp(files, events, renamed, id, n)
  {
    var c, d, f;
    renamed, c := AppliedAt(files, events, id);
    n := c.pc.n;
    written, second, d := SyncToRename(files, events, renamed, id, c);
    first, created, f := PollToCreation(files, events, written, id, d);
  }

  /** After event `k` the target of the call holds what its `n`th temporary file held before. */
  ghost predicate RenamesTemp(files: Files, events: seq<Event>, k: nat, id: Id, n: nat) {
    && k < |events| && id in Run(Start(files), events[..k]).calls
    && var c := Run(Start(files), events[..k]).calls[id];
       n < |c.temps|
       && ContentAt(files, events, k + 1, c.path) == ContentAt(files, events, k, c.temps[n])
  }

  /**
   A compare-exchange that has taken effect found at its read what it expected, asked its token after that, and was
   told to go on before it did anything to its target.
   */
  lemma ExchangesArePolled(files: Files, events: seq<Event>, id: Id) returns (read: nat, decided: nat, applied: nat)
    requires id in Run(Start(files), events).calls && Run(Start(files), events).calls[id].applied
    requires Run(Start(files), events).calls[id].op.CompareExchange?
    ensures read < decided < applied < |events|
    ensures StepsAt(files, events, read, id, Locked) && IsAt(files, events, read + 1, id, Observed)
    ensures var c := Run(Start(files), events).calls[id]; ContentAt(files, events, read, c.path) == c.op.expected
    ensures StepsAt(files, events, decided, id, Observed) && !events[decided].choice.cancelled
    ensures StepsAt(files, events, applied, id, Unlink)
            || exists n :: StepsAt(files, events, applied, id, Ready(n))
  {
    var c, d;
    applied, c := AppliedAt(files, events, id);
    decided, d := DecisionBefore(files, events, applied, id, c);
    read, c := EnteredBefore(files, events, decided, id, d);
    assert Stands(files, events, read + 1, id, d);
  }

  /** The decision of a compare-exchange that is about to rename or unlink. */
  lemma DecisionBefore(files: Files, events: seq<Event>, applied: nat, id: Id, c: Call)
    returns (decided: nat, before: Call)
    requires Stands(files, events, applied, id, c) && (c.pc.Ready? || c.pc.Unlink?) && c.op.CompareExchange?
    ensures decided < applied && PollsNo(files, events, decided, id, before) && Decides(before)
    ensures before.op == c.op && before.path == c.path
  {
    if c.pc.Unlink? {
      decided, before := EnteredBefore(files, events, applied, id, c);
    } else {
      var written, second, d := SyncToRename(files, events, applied, id, c);
      var first, created, f := PollToCreation(files, events, written, id, d);
      decided, before := EnteredBefore(files, events, first, id, f);
    }
  }
}
