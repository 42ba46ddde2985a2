/** Replacing a file is atomic at every step, cleans up after itself, and never harms another writer. */
module HostReplace {
  import opened Common
  import opened Paths
  import opened HostRuns
  import opened HostSteps

  // ---------- Atomic replace ----------

  /** What a finished rename or unlink left at the target. */
  function Outcome(c: Call): Option<Bytes> {
    if Installs(c.op) then Some(NewBytes(c.op)) else None
  }

  /** This event creates `p` as the empty lock file of a compare-exchange. */
  predicate CreatesLock(s: State, e: Event, p: Path) {
    e.Act? && e.id in s.calls && s.calls[e.id].op.CompareExchange? && p == s.calls[e.id].lock && p !in s.files
  }

  /** The acting call has just renamed onto or unlinked its target `p`, whole. */
  predicate TakesEffect(s: State, e: Event, after: State, p: Path) {
    e.Act? && e.id in s.calls && s.calls[e.id].path == p && !s.calls[e.id].applied
    && e.id in after.calls && after.calls[e.id].applied
    && Get(after.files, p) == Outcome(s.calls[e.id])
  }

  /**
   One step either leaves a target alone, or is the single rename or unlink of a call on that target, which
   puts the complete new content there, or creates it as a lock file.
   */
  lemma StepsAreAtomic(s: State, e: Event, p: Path)
    requires SystemOk(s) && Tidy(s, DirOf(p)) && !InTempNamespace(p)
    ensures || Get(Next(s, e).files, p) == Get(s.files, p)
            || TakesEffect(s, e, Next(s, e), p)
            || (CreatesLock(s, e, p) && Get(Next(s, e).files, p) == Some([]))
  {
    if IsWork(s, e) {
      WorkStepIs(s, e);
      WorkIsAtomic(s, e, p);
    } else if !e.Invoke? {
      AsideIs(s, e);
      AsideIsAtomic(s, e, p);
    }
  }

  lemma WorkIsAtomic(s: State, e: Event, p: Path)
    requires SystemOk(s) && Tidy(s, DirOf(p)) && !InTempNamespace(p)
    requires IsWork(s, e) && CallShape(s.calls[e.id])
    ensures var after := Worked(s, e.id, e.choice);
            Get(after.files, p) == Get(s.files, p) || TakesEffect(s, e, after, p)
  {
    var c := s.calls[e.id];
    assert forall temp | temp in c.temps :: InTempNamespace(temp);
    if c.path != p {
      WorkFrame(s.files, c, e.choice, p);
    } else {
      TargetIsNoTemp(s, DirOf(p), e.id);
      OwnTargetStep(s.files, c, e.choice);
    }
  }

  lemma AsideIsAtomic(s: State, e: Event, p: Path)
    requires !e.Invoke? && !IsWork(s, e)
    ensures Get(Aside(s, e).files, p) == Get(s.files, p)
            || (CreatesLock(s, e, p) && Get(Aside(s, e).files, p) == Some([]))
  {
  }

  lemma OwnTargetStep(files: Files, c: Call, choice: Choice)
    requires CallOk(files, c) && c.path !in c.temps
    requires c.op.CompareExchange? ==> !c.pc.Invoked?
    ensures var (files', c') := Work(files, c, choice);
            Get(files', c.path) == Get(files, c.path) || (!c.applied && c'.applied && Get(files', c.path) == Outcome(c))
  {
  }

  /** The content of `p` is the initial one, what some applied call on `p` left there, or that of a new lock file. */
  ghost predicate Provenance(s: State, p: Path, initial: Option<Bytes>) {
    || Get(s.files, p) == initial
    || (exists id :: id in s.calls && s.calls[id].path == p && s.calls[id].applied
                     && Get(s.files, p) == Outcome(s.calls[id]))
    || (Get(s.files, p) == Some([])
        && exists id :: id in s.calls && s.calls[id].op.CompareExchange? && LockPath(s.calls[id].path) == p)
  }

  lemma WorkKeepsApplied(files: Files, c: Call, choice: Choice)
    requires CallShape(c) && c.applied
    ensures Work(files, c, choice).1.applied
  {
  }

  lemma NextKeepsApplied(s: State, e: Event, id: Id)
    requires SystemOk(s) && id in s.calls && s.calls[id].applied
    ensures id in Next(s, e).calls && Next(s, e).calls[id].applied
  {
    if !e.Invoke? {
      NextKeepsIdentity(s, e);
      if IsWork(s, e) {
        WorkStepIs(s, e);
        if e.id == id {
          WorkKeepsApplied(s.files, s.calls[id], e.choice);
        }
      } else if e.id == id {
        AsideIs(s, e);
        AsideEffects(s, e);
      }
    }
  }

  lemma InvokeKeepsCalls(s: State, e: Event, id: Id)
    requires e.Invoke? && id in s.calls
    ensures id in Next(s, e).calls && Next(s, e).calls[id] == s.calls[id]
  {
  }

  lemma CallsSurvive(s: State, e: Event, id: Id)
    requires AllShapes(s) && id in s.calls
    ensures id in Next(s, e).calls && SameTarget(Next(s, e).calls[id], s.calls[id])
  {
    if e.Invoke? {
      InvokeKeepsCalls(s, e, id);
    } else {
      NextKeepsIdentity(s, e);
    }
  }

  lemma NextKeepsProvenance(s: State, e: Event, p: Path, initial: Option<Bytes>)
    requires SystemOk(s) && Tidy(s, DirOf(p)) && !InTempNamespace(p) && Provenance(s, p, initial)
    ensures Provenance(Next(s, e), p, initial)
  {
    StepsAreAtomic(s, e, p);
    if Get(Next(s, e).files, p) != Get(s.files, p) {
      CallsSurvive(s, e, e.id);
    } else if Get(s.files, p) != initial {
      KnownOriginStays(s, e, p, initial);
    }
  }

  lemma KnownOriginStays(s: State, e: Event, p: Path, initial: Option<Bytes>)
    requires SystemOk(s) && Provenance(s, p, initial)
    requires Get(Next(s, e).files, p) == Get(s.files, p) != initial
    ensures Provenance(Next(s, e), p, initial)
  {
    if id :| id in s.calls && s.calls[id].path == p && s.calls[id].applied
             && Get(s.files, p) == Outcome(s.calls[id])
    {
      CallsSurvive(s, e, id);
      NextKeepsApplied(s, e, id);
    } else {
      var id :| id in s.calls && s.calls[id].op.CompareExchange? && LockPath(s.calls[id].path) == p;
      CallsSurvive(s, e, id);
    }
  }

  /**
   In every state of every run in which nobody names a temporary file of its directory, a target holds its initial
   content or the complete content of an applied call.
   */
  lemma {:induction false} TargetsHoldWholeContents(files: Files, events: seq<Event>, p: Path)
    requires !InTempNamespace(p) && AllDisciplined(events, DirOf(p))
    ensures Provenance(Run(Start(files), events), p, Get(files, p))
  {
    if events != [] {
      var front := events[..|events| - 1];
      TidyInvariant(files, front, DirOf(p));
      TargetsHoldWholeContents(files, front, p);
      NextKeepsProvenance(Run(Start(files), front), events[|events| - 1], p, Get(files, p));
    }
  }

  // ---------- Who left which temporary file behind ----------

  predicate HasFailed(c: Call) {
    c.pc == Releasing(Failed) || c.pc == Finished(Failed)
  }

  /**
   The only reasons for which the temporary file `p` of its creator is there: the creator still owns it, has given
   it up but could not remove it, failed to rename the complete file, or died.
   */
  predicate Explains(files: Files, c: Call, p: Path)
    requires p in files
  {
    p in c.temps
    && (|| (ValidOwner(c) && OwnTemp(c) == p)
        || c.left == Some(p)
        || (HasFailed(c) && files[p] == NewBytes(c.op))
        || c.pc == Finished(Lost))
  }

  /** The creator of the file is known and to blame for it. */
  predicate IsExplained(s: State, p: Path) {
    p in s.files && p in s.creators && s.creators[p] in s.calls && Explains(s.files, s.calls[s.creators[p]], p)
  }

  /** A name that some writer may pick for a temporary file in the directory. */
  ghost predicate IsTempIn(p: Path, dir: Path) {
    InTempNamespace(p) && DirOf(p) == dir
  }

  /**
   In one directory, temporary files found at the start are never touched, and every other one is there because
   of the one call that created it. A call that could not remove its temporary file is and stays the one to blame
   for it.
   */
  ghost predicate TempsAccounted(s: State, initial: Files, dir: Path) {
    && (forall p | p in initial && IsTempIn(p, dir) :: p in s.files && s.files[p] == initial[p] && p !in s.creators)
    && (forall id | id in s.calls && OwnsIn(s.calls[id], dir) :: IsCreator(s, id, OwnTemp(s.calls[id])))
    && (forall id | id in s.calls && LeftIn(s.calls[id], dir) ::
          s.calls[id].left.value in s.files && IsCreator(s, id, s.calls[id].left.value))
    && (forall p | p in s.files && IsTempIn(p, dir) && p !in initial ::
          IsExplained(s, p))
  }

  predicate LeftIn(c: Call, dir: Path) {
    c.left.Some? && WorksIn(c, dir)
  }

  predicate IsCreator(s: State, id: Id, p: Path) {
    p in s.creators && s.creators[p] == id
  }

  /** A working step of `c` on a temporary file: what becomes of a file it created or is creating. */
  lemma WorkExplains(files: Files, c: Call, choice: Choice, p: Path)
    requires CallOk(files, c) && c.path != p
    requires p in Work(files, c, choice).0
    requires p in files ==> Explains(files, c, p)
    ensures Explains(Work(files, c, choice).0, Work(files, c, choice).1, p)
    ensures p !in files ==> Creates(c, Work(files, c, choice).1) && c.temps[c.pc.n] == p
  {
  }

  /** A file that is neither the target nor the owned temporary file of `c` is kept by its steps, or created by one. */
  lemma WorkOnOthers(files: Files, c: Call, choice: Choice, p: Path)
    requires CallShape(c) && c.path != p && (OwnsTemp(c) ==> p != OwnTemp(c)) && p in files
    ensures Get(Work(files, c, choice).0, p) == Get(files, p)
    ensures Creates(c, Work(files, c, choice).1) ==> c.temps[c.pc.n] != p
  {
  }

  /** A temporary file of a tidy directory that a call has not created is neither its target nor its own. */
  lemma FileIsApart(s: State, initial: Files, dir: Path, id: Id, p: Path)
    requires SystemOk(s) && Tidy(s, dir) && TempsAccounted(s, initial, dir)
    requires id in s.calls && IsTempIn(p, dir) && !IsCreator(s, id, p)
    ensures CallShape(s.calls[id]) && s.calls[id].path != p && (OwnsTemp(s.calls[id]) ==> p != OwnTemp(s.calls[id]))
  {
    var c := s.calls[id];
    assert CallShape(c);
    if OwnsTemp(c) {
      assert OwnTemp(c) in c.temps;
    }
  }

  lemma WorkKeepsStale(s: State, e: Event, initial: Files, dir: Path, p: Path)
    requires SystemOk(s) && Tidy(s, dir) && TempsAccounted(s, initial, dir) && IsWork(s, e)
    requires p in initial && IsTempIn(p, dir)
    ensures WorkStepFits(s, e)
    ensures var after := Worked(s, e.id, e.choice);
            p in after.files && after.files[p] == initial[p] && p !in after.creators
  {
    WorkStepIs(s, e);
    FileIsApart(s, initial, dir, e.id, p);
    WorkOnOthers(s.files, s.calls[e.id], e.choice, p);
    assert Get(Worked(s, e.id, e.choice).files, p) == Get(s.files, p);
  }

  /** The acting call has the shape that a working step needs. */
  predicate WorkStepFits(s: State, e: Event)
    requires IsWork(s, e)
  {
    CallShape(s.calls[e.id])
  }

  lemma WorkKeepsOwners(s: State, e: Event, initial: Files, dir: Path, id: Id)
    requires SystemOk(s) && Tidy(s, dir) && TempsAccounted(s, initial, dir) && IsWork(s, e) && WorkStepFits(s, e)
    requires id in s.calls && OwnsIn(Worked(s, e.id, e.choice).calls[id], dir)
    ensures IsCreator(Worked(s, e.id, e.choice), id, OwnTemp(Worked(s, e.id, e.choice).calls[id]))
  {
    if id == e.id {
      WorkKeepsIdentity(s.files, s.calls[id], e.choice);
      OwnedOrCreated(s.files, s.calls[id], e.choice);
    } else {
      OtherStaysCreator(s, e, initial, dir, id);
    }
  }

  lemma OtherStaysCreator(s: State, e: Event, initial: Files, dir: Path, id: Id)
    requires SystemOk(s) && Tidy(s, dir) && TempsAccounted(s, initial, dir) && IsWork(s, e) && WorkStepFits(s, e)
    requires id in s.calls && id != e.id && OwnsIn(s.calls[id], dir)
    ensures IsCreator(Worked(s, e.id, e.choice), id, OwnTemp(s.calls[id]))
  {
    var d := s.calls[id];
    assert TempOk(s.files, d) && OwnTemp(d) in d.temps && IsTempIn(OwnTemp(d), dir);
    FileIsApart(s, initial, dir, e.id, OwnTemp(d));
    WorkOnOthers(s.files, s.calls[e.id], e.choice, OwnTemp(d));
  }

  /** What a working step leaves behind for good is its own temporary file, which stays there. */
  lemma WorkLeaves(files: Files, c: Call, choice: Choice)
    requires CallShape(c) && Work(files, c, choice).1.left != c.left
    ensures ValidOwner(c) && Work(files, c, choice).1.left == Some(OwnTemp(c)) && OwnTemp(c) in files
    ensures Work(files, c, choice).0 == files && !Creates(c, Work(files, c, choice).1)
  {
  }

  lemma WorkKeepsLeft(s: State, e: Event, initial: Files, dir: Path, id: Id)
    requires SystemOk(s) && Tidy(s, dir) && TempsAccounted(s, initial, dir) && IsWork(s, e) && WorkStepFits(s, e)
    requires id in s.calls && LeftIn(Worked(s, e.id, e.choice).calls[id], dir)
    ensures var after := Worked(s, e.id, e.choice);
            after.calls[id].left.value in after.files && IsCreator(after, id, after.calls[id].left.value)
  {
    var c := s.calls[e.id];
    WorkKeepsIdentity(s.files, c, e.choice);
    if id == e.id && Worked(s, e.id, e.choice).calls[id].left != c.left {
      WorkLeaves(s.files, c, e.choice);
    } else {
      LeftStays(s, e, initial, dir, id, s.calls[id].left.value);
    }
  }

  lemma LeftStays(s: State, e: Event, initial: Files, dir: Path, id: Id, p: Path)
    requires SystemOk(s) && Tidy(s, dir) && TempsAccounted(s, initial, dir) && IsWork(s, e) && WorkStepFits(s, e)
    requires id in s.calls && LeftIn(s.calls[id], dir) && s.calls[id].left == Some(p)
    ensures p in Worked(s, e.id, e.choice).files && IsCreator(Worked(s, e.id, e.choice), id, p)
  {
    assert CallShape(s.calls[id]);
    assert IsTempIn(p, dir) && IsCreator(s, id, p);
    if id != e.id {
      FileIsApart(s, initial, dir, e.id, p);
    }
    WorkOnOthers(s.files, s.calls[e.id], e.choice, p);
    assert Get(Worked(s, e.id, e.choice).files, p) == Get(s.files, p);
  }

  lemma WorkCreatesOnlyMissing(files: Files, c: Call, choice: Choice, p: Path)
    requires CallShape(c) && p in files
    ensures Creates(c, Work(files, c, choice).1) ==> c.temps[c.pc.n] != p
  {
  }

  /** The creator of a temporary file works in the directory of that file. */
  lemma CreatorWorksThere(s: State, dir: Path, id: Id, p: Path)
    requires SystemOk(s) && Tidy(s, dir) && id in s.calls && IsTempIn(p, dir) && p in s.calls[id].temps
    ensures WorksIn(s.calls[id], dir) && CallOk(s.files, s.calls[id]) && s.calls[id].path != p
  {
    assert CallShape(s.calls[id]);
  }

  /** A file that a working step makes appear is the temporary file that the acting call creates. */
  lemma NewFileIsCreated(s: State, e: Event, dir: Path, p: Path)
    requires SystemOk(s) && Tidy(s, dir) && IsWork(s, e) && WorkStepFits(s, e)
    requires IsTempIn(p, dir) && p !in s.files && p in Worked(s, e.id, e.choice).files
    ensures WorksIn(s.calls[e.id], dir) && CallOk(s.files, s.calls[e.id]) && s.calls[e.id].path != p
  {
    var c := s.calls[e.id];
    assert c.path != p;
    if !WorksIn(c, dir) {
      assert forall temp | temp in c.temps :: temp != p;
      WorkFrame(s.files, c, e.choice, p);
    }
  }

  lemma OwnFileStaysExplained(s: State, e: Event, dir: Path, p: Path)
    requires SystemOk(s) && Tidy(s, dir) && IsWork(s, e) && WorkStepFits(s, e) && IsTempIn(p, dir)
    requires IsExplained(s, p) && s.creators[p] == e.id && p in Worked(s, e.id, e.choice).files
    ensures IsExplained(Worked(s, e.id, e.choice), p)
  {
    CreatorWorksThere(s, dir, e.id, p);
    WorkExplains(s.files, s.calls[e.id], e.choice, p);
    WorkCreatesOnlyMissing(s.files, s.calls[e.id], e.choice, p);
  }

  lemma NewFileIsExplained(s: State, e: Event, dir: Path, p: Path)
    requires SystemOk(s) && Tidy(s, dir) && IsWork(s, e) && WorkStepFits(s, e) && IsTempIn(p, dir)
    requires p !in s.files && p in Worked(s, e.id, e.choice).files
    ensures IsExplained(Worked(s, e.id, e.choice), p)
  {
    NewFileIsCreated(s, e, dir, p);
    WorkExplains(s.files, s.calls[e.id], e.choice, p);
  }

  lemma OthersFileStaysExplained(s: State, e: Event, p: Path)
    requires IsWork(s, e) && WorkStepFits(s, e) && IsExplained(s, p) && s.creators[p] != e.id
    requires s.calls[e.id].path != p && (OwnsTemp(s.calls[e.id]) ==> p != OwnTemp(s.calls[e.id]))
    ensures IsExplained(Worked(s, e.id, e.choice), p)
  {
    WorkOnOthers(s.files, s.calls[e.id], e.choice, p);
    assert Get(Worked(s, e.id, e.choice).files, p) == Get(s.files, p);
  }

  lemma WorkKeepsExplained(s: State, e: Event, initial: Files, dir: Path, p: Path)
    requires SystemOk(s) && Tidy(s, dir) && TempsAccounted(s, initial, dir) && IsWork(s, e) && WorkStepFits(s, e)
    requires p in Worked(s, e.id, e.choice).files && IsTempIn(p, dir) && p !in initial
    ensures IsExplained(Worked(s, e.id, e.choice), p)
  {
    if p !in s.files {
      NewFileIsExplained(s, e, dir, p);
    } else if s.creators[p] == e.id {
      OwnFileStaysExplained(s, e, dir, p);
    } else {
      FileIsApart(s, initial, dir, e.id, p);
      OthersFileStaysExplained(s, e, p);
    }
  }

  lemma WorkKeepsAccounted(s: State, e: Event, initial: Files, dir: Path)
    requires SystemOk(s) && Tidy(s, dir) && TempsAccounted(s, initial, dir) && IsWork(s, e) && WorkStepFits(s, e)
    ensures TempsAccounted(Worked(s, e.id, e.choice), initial, dir)
  {
    var after := Worked(s, e.id, e.choice);
    forall p | p in initial && IsTempIn(p, dir)
      ensures p in after.files && after.files[p] == initial[p] && p !in after.creators
    {
      WorkKeepsStale(s, e, initial, dir, p);
    }
    forall id | id in after.calls && OwnsIn(after.calls[id], dir)
      ensures IsCreator(after, id, OwnTemp(after.calls[id]))
    {
      WorkKeepsOwners(s, e, initial, dir, id);
    }
    forall id | id in after.calls && LeftIn(after.calls[id], dir)
      ensures after.calls[id].left.value in after.files && IsCreator(after, id, after.calls[id].left.value)
    {
      WorkKeepsLeft(s, e, initial, dir, id);
    }
    forall p | p in after.files && IsTempIn(p, dir) && p !in initial
      ensures IsExplained(after, p)
    {
      WorkKeepsExplained(s, e, initial, dir, p);
    }
  }

  lemma ReleasedExplains(s: State, id: Id, answer: Answer, p: Path)
    requires id in s.calls && s.calls[id].op.CompareExchange? && CallOk(s.files, s.calls[id])
    requires answer.Lost? || s.calls[id].pc == Releasing(answer) || (answer.Failed? && !HasFailed(s.calls[id]))
    requires answer.Lost? || s.calls[id].pc.Releasing?
    requires p in s.files && Explains(s.files, s.calls[id], p)
    ensures p in Released(s, id, answer).files
    ensures Explains(Released(s, id, answer).files, Released(s, id, answer).calls[id], p)
  {
  }

  lemma EndedExplains(s: State, id: Id, answer: Answer, p: Path)
    requires id in s.calls && CallOk(s.files, s.calls[id])
    requires answer.Lost? || (answer.Failed? && !HasBegun(s.calls[id]))
    requires p in s.files && Explains(s.files, s.calls[id], p)
    ensures p in Ended(s, id, answer).files && Explains(Ended(s, id, answer).files, Ended(s, id, answer).calls[id], p)
  {
  }

  /** A call that has not begun is to blame for nothing. */
  lemma BeginnersAreInnocent(files: Files, c: Call, p: Path)
    requires CallOk(files, c) && !HasBegun(c) && p in files
    ensures !Explains(files, c, p)
  {
  }

  /** A death or a step at the lock file: the creator of a file is still to blame for it. */
  lemma AsideExplains(s: State, e: Event, p: Path)
    requires !e.Invoke? && !IsWork(s, e) && e.id in s.calls && p in s.files && CallOk(s.files, s.calls[e.id])
    requires Explains(s.files, s.calls[e.id], p)
    ensures p in Aside(s, e).files && Explains(Aside(s, e).files, Aside(s, e).calls[e.id], p)
  {
    var c := s.calls[e.id];
    if e.Crash? {
      if Holding(c) {
        ReleasedExplains(s, e.id, Lost, p);
      } else if !c.pc.Finished? {
        EndedExplains(s, e.id, Lost, p);
      }
    } else if HasBegun(c) {
      ReleasedExplains(s, e.id, if e.choice.ioError && c.pc.answer.Exchanged? then Failed else c.pc.answer, p);
    } else {
      BeginnersAreInnocent(s.files, c, p);
    }
  }

  lemma AsideKeepsAccounted(s: State, e: Event, initial: Files, dir: Path)
    requires SystemOk(s) && Tidy(s, dir) && TempsAccounted(s, initial, dir) && !e.Invoke? && !IsWork(s, e)
    ensures TempsAccounted(Aside(s, e), initial, dir)
  {
    AsideEffects(s, e);
    if Aside(s, e) != s {
      LockPathIsNoTemp(s.calls[e.id].path);
      forall p | p in s.files && IsTempIn(p, dir) && p !in initial && s.creators[p] == e.id
        ensures p in Aside(s, e).files && Explains(Aside(s, e).files, Aside(s, e).calls[e.id], p)
      {
        CreatorWorksThere(s, dir, e.id, p);
        AsideExplains(s, e, p);
      }
      AccountedAside(s, Aside(s, e), e.id, initial, dir);
    }
  }

  lemma AccountedAside(s: State, after: State, id: Id, initial: Files, dir: Path)
    requires TempsAccounted(s, initial, dir) && KeepsAside(s, after, id) && after != s
    requires id in s.calls && !InTempNamespace(s.calls[id].lock)
    requires forall p | p in s.files && IsTempIn(p, dir) && p !in initial && s.creators[p] == id ::
               p in after.files && Explains(after.files, after.calls[id], p)
    ensures TempsAccounted(after, initial, dir)
  {
    forall p | p in after.files && IsTempIn(p, dir) && p !in initial
      ensures IsExplained(after, p)
    {
      assert IsExplained(s, p);
    }
  }

  lemma InvokeKeepsAccounted(s: State, e: Event, initial: Files, dir: Path)
    requires TempsAccounted(s, initial, dir) && e.Invoke?
    ensures TempsAccounted(Next(s, e), initial, dir)
  {
  }

  lemma {:induction false} TempsAreAccountedFor(initial: Files, events: seq<Event>, dir: Path)
    requires AllDisciplined(events, dir)
    ensures TempsAccounted(Run(Start(initial), events), initial, dir)
  {
    if events != [] {
      var front, e := events[..|events| - 1], events[|events| - 1];
      var s := Run(Start(initial), front);
      TidyInvariant(initial, front, dir);
      TempsAreAccountedFor(initial, front, dir);
      if e.Invoke? {
        InvokeKeepsAccounted(s, e, initial, dir);
      } else if IsWork(s, e) {
        WorkStepIs(s, e);
        WorkKeepsAccounted(s, e, initial, dir);
      } else {
        AsideIs(s, e);
        AsideKeepsAccounted(s, e, initial, dir);
      }
    }
  }

  /**
   A call that was cancelled has left no trace but the temporary file it could not remove, if there is one: it did
   not touch its target, and it is the creator of that file and of no other that is there.
   */
  lemma CancelledLeavesNoTrace(initial: Files, events: seq<Event>, id: Id, p: Path)
    requires AllDisciplined(events, DirOf(p))
    requires var s := Run(Start(initial), events); id in s.calls && s.calls[id].pc == Finished(Cancelled)
    ensures !Run(Start(initial), events).calls[id].applied
    ensures InTempNamespace(p) ==> IsLeftExactly(Run(Start(initial), events), id, p)
  {
    SystemInvariant(initial, events);
    TempsAreAccountedFor(initial, events, DirOf(p));
    CancelledIn(Run(Start(initial), events), initial, id, p);
  }

  /** The call created the file `p` that is there if and only if it gave `p` up without being able to remove it. */
  predicate IsLeftExactly(s: State, id: Id, p: Path)
    requires id in s.calls
  {
    (p in s.files && IsCreator(s, id, p)) <==> s.calls[id].left == Some(p)
  }

  lemma CancelledIn(s: State, initial: Files, id: Id, p: Path)
    requires SystemOk(s) && TempsAccounted(s, initial, DirOf(p))
    requires id in s.calls && s.calls[id].pc == Finished(Cancelled)
    ensures !s.calls[id].applied
    ensures InTempNamespace(p) ==> IsLeftExactly(s, id, p)
  {
    assert CallShape(s.calls[id]);
    assert s.calls[id].left == Some(p) ==> LeftIn(s.calls[id], DirOf(p));
  }

  /** While every removal succeeds, no call has left a file. */
  lemma {:induction false} RemovalsLeaveNothing(initial: Files, events: seq<Event>)
    requires forall k | 0 <= k < |events| :: events[k].Act? ==> events[k].choice.removed
    ensures NothingLeft(Run(Start(initial), events))
  {
    if events != [] {
      var front, e := events[..|events| - 1], events[|events| - 1];
      var s := Run(Start(initial), front);
      RemovalsLeaveNothing(initial, front);
      SystemInvariant(initial, front);
      NextLeavesNothing(s, e);
    }
  }

  predicate NothingLeft(s: State) {
    forall id | id in s.calls :: s.calls[id].left.None?
  }

  lemma MovedLeavesNothing(s: State, after: State, id: Id)
    requires NothingLeft(s) && OneCallMoved(s, after, id)
    requires id in s.calls ==> after.calls[id].left == s.calls[id].left
    ensures NothingLeft(after)
  {
  }

  lemma InvokeLeavesNothing(s: State, e: Event)
    requires NothingLeft(s) && e.Invoke?
    ensures NothingLeft(Next(s, e))
  {
  }

  lemma NextLeavesNothing(s: State, e: Event)
    requires SystemOk(s) && NothingLeft(s) && (e.Act? ==> e.choice.removed)
    ensures NothingLeft(Next(s, e))
  {
    if e.Invoke? {
      InvokeLeavesNothing(s, e);
    } else {
      NextKeepsIdentity(s, e);
      if IsWork(s, e) {
        WorkStepIs(s, e);
        RemovedIsNotLeft(s.files, s.calls[e.id], e.choice);
      } else {
        AsideIs(s, e);
        AsideEffects(s, e);
      }
      MovedLeavesNothing(s, Next(s, e), e.id);
    }
  }

  lemma RemovedIsNotLeft(files: Files, c: Call, choice: Choice)
    requires CallShape(c) && choice.removed
    ensures Work(files, c, choice).1.left == c.left
  {
  }

  // ---------- Exactly which targets are replaced atomically ----------

  /** One caller alone replaces `p`. */
  function SoleReplace(p: Path, pid: nat, bytes: Bytes, choices: seq<Choice>): seq<Event> {
    [Invoke(0, pid, p, Replace(bytes))] + seq(|choices|, k requires 0 <= k < |choices| => Act(0, choices[k]))
  }

  /** At every moment of every such run the target holds its complete old or its complete new content. */
  ghost predicate ReplacedAtomically(p: Path) {
    forall files: Files, pid: nat, bytes: Bytes, choices: seq<Choice> ::
      var content := Get(Run(Start(files), SoleReplace(p, pid, bytes, choices)).files, p);
      content == Get(files, p) || content == Some(bytes)
  }

  predicate OnlyCaller(s: State, id: Id, op: Op) {
    forall other | other in s.calls :: other == id && s.calls[other].op == op
  }

  lemma {:induction false} SoleCaller(files: Files, events: seq<Event>)
    requires forall k | 1 <= k < |events| :: events[k].Act?
    requires events != [] && events[0].Invoke?
    ensures OnlyCaller(Run(Start(files), events), events[0].id, events[0].op)
    decreases |events|
  {
    var front, e := events[..|events| - 1], events[|events| - 1];
    SystemInvariant(files, front);
    var before := Run(Start(files), front);
    if front == [] {
      assert before == Start(files);
    } else {
      SoleCaller(files, front);
      assert front[0] == events[0];
      NextKeepsIdentity(before, e);
    }
  }

  /** A target whose name is one of its writer's temporary names is exposed half written. */
  lemma ClashIsExposed(p: Path, pid: nat, n: nat)
    requires p != [] && n < TEMP_ATTEMPTS && TempPath(p, pid, n) == p
    ensures !ReplacedAtomically(p)
  {
    var files, choices := Crowded(p, pid, n), seq(n + 3, i => GO);
    CrowdedUpTo(p, pid, n);
    ReplaceCreates(Start(files), 0, pid, p, [1], n);
    assert SoleReplace(p, pid, [1], choices) == [Invoke(0, pid, p, Replace([1]))] + Acts(0, n + 3);
    assert Get(Run(Start(files), SoleReplace(p, pid, [1], choices)).files, p) == Some([]);
  }

  /** Replacement by one caller alone is atomic exactly when the name of the target is no temporary name. */
  lemma ReplacedAtomicallyIff(p: Path)
    requires p != []
    ensures ReplacedAtomically(p) <==> !InTempNamespace(p)
  {
    if InTempNamespace(p) {
      TempsOfDirectory(p, p);
      var pid: nat, n: nat :| n < TEMP_ATTEMPTS && p == TempPath(p, pid, n);
      ClashIsExposed(p, pid, n);
    } else {
      forall files: Files, pid: nat, bytes: Bytes, choices: seq<Choice>
        ensures var content := Get(Run(Start(files), SoleReplace(p, pid, bytes, choices)).files, p);
                content == Get(files, p) || content == Some(bytes)
      {
        var events := SoleReplace(p, pid, bytes, choices);
        TargetsHoldWholeContents(files, events, p);
        SoleCaller(files, events);
      }
    }
  }

  // ---------- Exactly which names must be left alone ----------

  /** Any number of callers replace `p`, and anything else that anyone does is to use one of `others` in any way. */
  ghost predicate Beside(events: seq<Event>, p: Path, others: iset<Path>) {
    forall k | 0 <= k < |events| && events[k].Invoke? ::
      (events[k].path == p && events[k].op.Replace?) || events[k].path in others
  }

  /** In every state of every such run `p` holds its initial content or a complete one. */
  ghost predicate StaysWhole(p: Path, others: iset<Path>) {
    forall files: Files, events: seq<Event> | Beside(events, p, others) ::
      Provenance(Run(Start(files), events), p, Get(files, p))
  }

  /**
   Replaces of a target by any number of callers are atomic exactly when neither the target itself nor anything
   that is named beside it is a name that a writer of the target may pick for its temporary file.
   */
  lemma StaysWholeIff(p: Path, others: iset<Path>)
    requires p != []
    ensures StaysWhole(p, others) <==> forall q | q in others || q == p :: !IsTempOf(p, q)
  {
    if forall q | q in others || q == p :: !IsTempOf(p, q) {
      forall files: Files, events: seq<Event> | Beside(events, p, others)
        ensures Provenance(Run(Start(files), events), p, Get(files, p))
      {
        TempsOfDirectory(p, p);
        assert IsTempOf(p, p) || !InTempNamespace(p);
        BesideIsDisciplined(events, p, others);
        TargetsHoldWholeContents(files, events, p);
      }
    } else if IsTempOf(p, p) {
      var pid: nat, n: nat :| n < TEMP_ATTEMPTS && p == TempPath(p, pid, n);
      ClashTears(p, pid, n, others);
    } else {
      var q :| q in others && IsTempOf(p, q);
      var pid: nat, n: nat :| n < TEMP_ATTEMPTS && q == TempPath(p, pid, n);
      IntrusionTears(p, pid, n);
      assert Beside(Intruded(p, pid, n), p, others);
    }
  }

  lemma BesideIsDisciplined(events: seq<Event>, p: Path, others: iset<Path>)
    requires p != [] && Beside(events, p, others) && forall q | q in others || q == p :: !IsTempOf(p, q)
    ensures AllDisciplined(events, DirOf(p))
  {
    forall k | 0 <= k < |events| && events[k].Invoke? ensures DisciplinedIn(events[k], DirOf(p)) {
      TempsOfDirectory(p, events[k].path);
      assert !IsTempOf(p, events[k].path);
    }
  }

  /** A writer whose temporary file is its target leaves the target empty for a while. */
  lemma ClashTears(p: Path, pid: nat, n: nat, others: iset<Path>)
    requires p != [] && n < TEMP_ATTEMPTS && TempPath(p, pid, n) == p
    ensures !StaysWhole(p, others)
  {
    var files, events := Crowded(p, pid, n), [Invoke(0, pid, p, Replace([1]))] + Acts(0, n + 3);
    CrowdedUpTo(p, pid, n);
    ReplaceCreates(Start(files), 0, pid, p, [1], n);
    EmptyIsNotWhole(files, Run(Start(files), events), NewCall(pid, p, Replace([1])).(pc := Writing(n)), p);
    OneReplaceIsBeside(events, 0, pid, p, others);
  }

  lemma EmptyIsNotWhole(files: Files, s: State, c: Call, p: Path)
    requires p !in files && !c.applied && !c.op.CompareExchange?
    requires Moved(Start(files), s, 0, c, files[p := []])
    ensures !Provenance(s, p, Get(files, p))
  {
  }

  lemma OneReplaceIsBeside(events: seq<Event>, id: Id, pid: nat, p: Path, others: iset<Path>)
    requires events != [] && events[0] == Invoke(id, pid, p, Replace([1]))
    requires forall k | 1 <= k < |events| :: events[k].Act?
    ensures Beside(events, p, others)
  {
  }

  // ---------- The run in which a removed temporary file tears the target ----------

  /** The target is there, and so is every temporary name but the `n`th. */
  function Whole(p: Path, pid: nat, n: nat): Files
    requires p != [] && n < TEMP_ATTEMPTS
  {
    Crowded(p, pid, n)[p := [7]]
  }

  function Prologue(p: Path, pid: nat, n: nat): seq<Event> {
    [Invoke(0, pid, p, Replace([1]))] + Acts(0, n + 5)
  }

  function Intrusion(q: Path): seq<Event> {
    [Invoke(1, 0, q, RemoveFile), Act(1, GO)]
  }

  function Sequel(p: Path, pid: nat, n: nat): seq<Event> {
    [Invoke(2, pid, p, Replace([2]))] + Acts(2, n + 3)
  }

  /**
   A writer is about to rename its temporary file when someone removes that file; a second writer of the same
   process then creates it anew, and the first one renames the empty file onto the target.
   */
  function Intruded(p: Path, pid: nat, n: nat): seq<Event>
    requires p != []
  {
    Prologue(p, pid, n) + (Intrusion(TempPath(p, pid, n)) + (Sequel(p, pid, n) + [Act(0, GO)]))
  }

  function First(p: Path, pid: nat, n: nat): Call
    requires p != []
  {
    NewCall(pid, p, Replace([1])).(pc := Ready(n))
  }

  function Second(p: Path, pid: nat, n: nat): Call
    requires p != []
  {
    NewCall(pid, p, Replace([2])).(pc := Writing(n))
  }

  lemma FirstIsReady(p: Path, pid: nat, n: nat, files: Files)
    requires p != [] && n < TEMP_ATTEMPTS && TempPath(p, pid, n) !in files
    requires forall j | 0 <= j < n :: TempPath(p, pid, j) in files
    ensures Moved(Start(files), Run(Start(files), Prologue(p, pid, n)), 0, First(p, pid, n),
                  files[TempPath(p, pid, n) := [1]])
  {
    var begin, c, temp := [Invoke(0, pid, p, Replace([1]))], NewCall(pid, p, Replace([1])), TempPath(p, pid, n);
    var created := begin + Acts(0, n + 3);
    assert Prologue(p, pid, n) == created + Acts(0, 2);
    RunAppend(Start(files), created, Acts(0, 2));
    ReplaceCreates(Start(files), 0, pid, p, [1], n);
    var s := Run(Start(files), created);
    Fills(s, 0, c.(pc := Writing(n)), n);
    MovedTwice(Start(files), s, Run(s, Acts(0, 2)), 0, c.(pc := Writing(n)), First(p, pid, n), s.files,
               s.files[temp := [1]]);
    assert files[temp := []][temp := [1]] == files[temp := [1]];
  }

  /** The first writer is ready, the intruder done, and the second writer owns the new temporary file. */
  predicate Torn(s: State, p: Path, pid: nat, n: nat, files: Files)
    requires p != []
  {
    && s.calls.Keys == {0, 1, 2} && s.calls[0] == First(p, pid, n) && s.calls[2] == Second(p, pid, n)
    && s.calls[1].path == TempPath(p, pid, n) && !s.calls[1].op.CompareExchange?
    && s.files == files[TempPath(p, pid, n) := []]
  }

  lemma SecondFollows(s: State, p: Path, pid: nat, n: nat, files: Files)
    requires p != [] && n < TEMP_ATTEMPTS && TempPath(p, pid, n) !in files
    requires forall j | 0 <= j < n :: TempPath(p, pid, j) in files
    requires s.calls == map[0 := First(p, pid, n)] && s.files == files[TempPath(p, pid, n) := [1]]
    ensures Torn(Run(Run(s, Intrusion(TempPath(p, pid, n))), Sequel(p, pid, n)), p, pid, n, files)
  {
    var temp := TempPath(p, pid, n);
    RemovalRuns(s, 1, temp);
    FileIsGone(s, Run(s, Intrusion(temp)), First(p, pid, n), temp, files);
    SecondCreates(Run(s, Intrusion(temp)), p, pid, n, files);
  }

  lemma SecondCreates(s: State, p: Path, pid: nat, n: nat, files: Files)
    requires p != [] && n < TEMP_ATTEMPTS && TempPath(p, pid, n) !in files
    requires forall j | 0 <= j < n :: TempPath(p, pid, j) in files
    requires Gone(s, First(p, pid, n), TempPath(p, pid, n), files)
    ensures Torn(Run(s, Sequel(p, pid, n)), p, pid, n, files)
  {
    ReplaceCreates(s, 2, pid, p, [2], n);
  }

  lemma EmptyIsRenamed(s: State, p: Path, pid: nat, n: nat, files: Files)
    requires p != [] && n < TEMP_ATTEMPTS && TempPath(p, pid, n) != p && Torn(s, p, pid, n, files)
    ensures !Provenance(Next(s, Act(0, GO)), p, Some([7]))
  {
    var c := First(p, pid, n);
    Renames(s, 0, c, n, []);
    NobodyInstalled(s, Next(s, Act(0, GO)), c.(pc := Applied, applied := true), p);
  }

  lemma NobodyInstalled(s: State, after: State, c: Call, p: Path)
    requires s.calls.Keys == {0, 1, 2} && c.op == Replace([1])
    requires s.calls[1].path != p && !s.calls[1].op.CompareExchange?
    requires !s.calls[2].applied && !s.calls[2].op.CompareExchange?
    requires after.calls == s.calls[0 := c] && Get(after.files, p) == Some([])
    ensures !Provenance(after, p, Some([7]))
  {
    assert forall id | id in after.calls :: id == 0 || id == 1 || id == 2;
  }

  /** At the end of that run the target holds neither its initial content nor that of any replace. */
  lemma IntrusionTears(p: Path, pid: nat, n: nat)
    requires p != [] && n < TEMP_ATTEMPTS && TempPath(p, pid, n) != p
    ensures !Provenance(Run(Start(Whole(p, pid, n)), Intruded(p, pid, n)), p, Get(Whole(p, pid, n), p))
  {
    var files, temp := Whole(p, pid, n), TempPath(p, pid, n);
    CrowdedUpTo(p, pid, n);
    FourParts(Start(files), Prologue(p, pid, n), Intrusion(temp), Sequel(p, pid, n), [Act(0, GO)]);
    FirstIsReady(p, pid, n, files);
    var s := Run(Start(files), Prologue(p, pid, n));
    SecondFollows(s, p, pid, n, files);
    var torn := Run(Run(s, Intrusion(temp)), Sequel(p, pid, n));
    RunOne(torn, Act(0, GO));
    EmptyIsRenamed(torn, p, pid, n, files);
  }
}
