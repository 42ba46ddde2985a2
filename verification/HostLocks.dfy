/** Exactly which file must be left alone for the lock of a leaf to exclude others: its own lock file. */
module HostLocks {
  import opened Common
  import opened Paths
  import opened HostCas
  import opened HostRuns
  import opened HostSteps

  /** `leaf` is only claimed, and anything else that anyone does is to use one of `others` in any way. */
  ghost predicate ClaimedBeside(events: seq<Event>, leaf: Path, others: iset<Path>) {
    forall k | 0 <= k < |events| && events[k].Invoke? ::
      (events[k].path == leaf && IsClaim(events[k].op)) || events[k].path in others
  }

  /** Whatever happens to the other files, no two claimers of the absent `leaf` are told that they won. */
  ghost predicate StaysExclusive(leaf: Path, others: iset<Path>) {
    forall files: Files, events: seq<Event> | leaf !in files && ClaimedBeside(events, leaf, others) ::
      OneWinner(Run(Start(files), events), leaf)
  }

  ghost predicate OneWinner(s: State, leaf: Path) {
    forall a, b | HasWon(s, leaf, a) && HasWon(s, leaf, b) :: a == b
  }

  // ---------- What every claimer knows, whatever becomes of its temporary file ----------

  predicate HasWinningAnswer(c: Call) {
    (c.pc.Releasing? || c.pc.Finished?) && Wins(c.pc.answer)
  }

  /** A claimer that has found the leaf absent can rely on that until it renames, and only a rename makes it win. */
  predicate ClaimerOk(c: Call, content: Option<Bytes>) {
    && IsClaim(c.op)
    && (c.applied ==> content.Some?)
    && ((c.pc.Observed? && c.seen.None?) || InReplace(c.pc) ==> content.None?)
    && (HasWinningAnswer(c) ==> c.applied)
  }

  ghost predicate ClaimersOk(s: State, leaf: Path) {
    && (forall id | id in s.calls && s.calls[id].path == leaf :: ClaimerOk(s.calls[id], Get(s.files, leaf)))
    && (forall a, b | HasApplied(s, leaf, a) && HasApplied(s, leaf, b) :: a == b)
  }

  predicate HasApplied(s: State, leaf: Path, id: Id) {
    id in s.calls && s.calls[id].path == leaf && s.calls[id].applied
  }

  /** The content stays as it is unless the claimer creates the leaf, which was absent. */
  predicate CreatesAtMost(c: Call, after: Call, before: Option<Bytes>, content: Option<Bytes>) {
    if after.applied && !c.applied then before.None? && content.Some? else content == before
  }

  lemma WorkKeepsClaimer(files: Files, c: Call, choice: Choice)
    requires CallShape(c) && (Holding(c) || c.pc.Finished?) && c.path !in c.temps
    requires ClaimerOk(c, Get(files, c.path))
    ensures var (files', after) := Work(files, c, choice);
            && ClaimerOk(after, Get(files', c.path))
            && CreatesAtMost(c, after, Get(files, c.path), Get(files', c.path))
  {
  }

  /** While one claimer holds the lock, no other one has read the leaf and not yet answered. */
  lemma OthersAreOutside(s: State, leaf: Path, id: Id, other: Id)
    requires LocksOk(s) && LockKept(s, leaf) && id in s.calls && other in s.calls && id != other
    requires s.calls[id].path == leaf && s.calls[other].path == leaf && Holding(s.calls[id])
    ensures !Holding(s.calls[other])
  {
  }

  /** One claimer has moved and has at most created the leaf, under the lock. */
  predicate OneClaimerMoved(s: State, after: State, leaf: Path, id: Id) {
    && OneCallMoved(s, after, id) && id in s.calls && s.calls[id].path == leaf
    && ClaimerOk(after.calls[id], Get(after.files, leaf))
    && (s.calls[id].applied ==> after.calls[id].applied)
    && CreatesAtMost(s.calls[id], after.calls[id], Get(s.files, leaf), Get(after.files, leaf))
    && (after.calls[id].applied && !s.calls[id].applied ==> Holding(s.calls[id]))
  }

  lemma OtherClaimerStays(s: State, after: State, leaf: Path, id: Id, other: Id)
    requires LocksOk(s) && LockKept(s, leaf) && OneClaimerMoved(s, after, leaf, id)
    requires other in s.calls && other != id && s.calls[other].path == leaf && CallShape(s.calls[other])
    requires ClaimerOk(s.calls[other], Get(s.files, leaf))
    ensures ClaimerOk(after.calls[other], Get(after.files, leaf))
  {
    if after.calls[id].applied && !s.calls[id].applied {
      OthersAreOutside(s, leaf, id, other);
    }
  }

  lemma AppliesAlone(s: State, after: State, leaf: Path, id: Id, a: Id, b: Id)
    requires ClaimersOk(s, leaf) && OneClaimerMoved(s, after, leaf, id)
    requires HasApplied(after, leaf, a) && HasApplied(after, leaf, b)
    ensures a == b
  {
    if after.calls[id].applied && !s.calls[id].applied {
      assert forall other | other != id :: !HasApplied(s, leaf, other);
      assert forall other | HasApplied(after, leaf, other) :: other == id || HasApplied(s, leaf, other);
    } else {
      assert HasApplied(s, leaf, a) && HasApplied(s, leaf, b);
    }
  }

  lemma ClaimersAfterMove(s: State, after: State, leaf: Path, id: Id)
    requires AllShapes(s) && LocksOk(s) && LockKept(s, leaf) && ClaimersOk(s, leaf)
    requires OneClaimerMoved(s, after, leaf, id)
    ensures ClaimersOk(after, leaf)
  {
    forall other | other in after.calls && after.calls[other].path == leaf && other != id
      ensures ClaimerOk(after.calls[other], Get(after.files, leaf))
    {
      assert CallShape(s.calls[other]);
      OtherClaimerStays(s, after, leaf, id, other);
    }
    forall a, b | HasApplied(after, leaf, a) && HasApplied(after, leaf, b) ensures a == b {
      AppliesAlone(s, after, leaf, id, a, b);
    }
  }

  /** A call on another file has moved and has left the leaf alone. */
  lemma ClaimersAfterOthers(s: State, after: State, leaf: Path, id: Id)
    requires ClaimersOk(s, leaf) && OneCallMoved(s, after, id) && Get(after.files, leaf) == Get(s.files, leaf)
    requires id in s.calls ==> s.calls[id].path != leaf
    ensures ClaimersOk(after, leaf)
  {
    assert forall other | HasApplied(after, leaf, other) :: HasApplied(s, leaf, other);
  }

  /** Everything a working step does to a claimer and its leaf. */
  predicate WorksAsClaimer(c: Call, after: Call, before: Option<Bytes>, content: Option<Bytes>) {
    && SameTarget(after, c) && ClaimerOk(after, content) && CreatesAtMost(c, after, before, content)
    && (c.applied ==> after.applied) && (after.applied && !c.applied ==> Holding(c))
  }

  lemma ClaimerWorks(files: Files, c: Call, choice: Choice)
    requires CallShape(c) && (Holding(c) || c.pc.Finished?) && c.path !in c.temps && ClaimerOk(c, Get(files, c.path))
    ensures var (files', after) := Work(files, c, choice);
            WorksAsClaimer(c, after, Get(files, c.path), Get(files', c.path))
  {
    WorkKeepsIdentity(files, c, choice);
    WorkKeepsClaimer(files, c, choice);
    WorkAppliesUnderLock(files, c, choice);
  }

  lemma WorkedIsMove(s: State, after: State, leaf: Path, id: Id, c: Call)
    requires id in s.calls && s.calls[id].path == leaf && after.calls == s.calls[id := c]
    requires WorksAsClaimer(s.calls[id], c, Get(s.files, leaf), Get(after.files, leaf))
    ensures OneClaimerMoved(s, after, leaf, id)
  {
  }

  lemma OtherWorks(s: State, id: Id, choice: Choice, leaf: Path)
    requires LocksOk(s) && id in s.calls && s.calls[id].path != leaf && CallShape(s.calls[id]) && !AtLock(s.calls[id])
    requires leaf !in s.calls[id].temps && ClaimersOk(s, leaf)
    ensures ClaimersOk(Worked(s, id, choice), leaf)
  {
    WorkKeepsIdentity(s.files, s.calls[id], choice);
    WorkFrame(s.files, s.calls[id], choice, leaf);
    ClaimersAfterOthers(s, Worked(s, id, choice), leaf, id);
  }

  lemma ClaimersAfterWork(s: State, e: Event, leaf: Path)
    requires SystemOk(s) && LockKept(s, leaf) && ClaimersOk(s, leaf) && !InTempNamespace(leaf)
    requires IsWork(s, e) && CallShape(s.calls[e.id])
    ensures ClaimersOk(Worked(s, e.id, e.choice), leaf)
  {
    assert forall temp | temp in s.calls[e.id].temps :: InTempNamespace(temp);
    if s.calls[e.id].path == leaf {
      ClaimerWorks(s.files, s.calls[e.id], e.choice);
      WorkedIsMove(s, Worked(s, e.id, e.choice), leaf, e.id, Work(s.files, s.calls[e.id], e.choice).1);
      ClaimersAfterMove(s, Worked(s, e.id, e.choice), leaf, e.id);
    } else {
      OtherWorks(s, e.id, e.choice, leaf);
    }
  }

  lemma WorkAppliesUnderLock(files: Files, c: Call, choice: Choice)
    requires CallShape(c) && c.op.CompareExchange? && (Holding(c) || c.pc.Finished?)
    ensures c.applied ==> Work(files, c, choice).1.applied
    ensures Work(files, c, choice).1.applied && !c.applied ==> Holding(c)
  {
  }

  /** A step at the lock file, or a death, does not make a claimer win. */
  predicate StepsAside(c: Call, after: Call) {
    && after.op == c.op && after.applied == c.applied && !InReplace(after.pc) && !after.pc.Observed?
    && (HasWinningAnswer(after) ==> HasWinningAnswer(c))
  }

  lemma LockStepIsAside(s: State, id: Id, choice: Choice)
    requires id in s.calls && AtLock(s.calls[id])
    ensures var after := LockStep(s, id, choice); after == s || StepsAside(s.calls[id], after.calls[id])
  {
  }

  lemma DeathIsAside(s: State, id: Id)
    requires id in s.calls
    ensures var after := Crashed(s, id); after == s || StepsAside(s.calls[id], after.calls[id])
  {
  }

  /** A claimer that has taken a step at the lock file, or died, knows as much as before. */
  lemma ClaimerStepsAside(s: State, after: State, leaf: Path, id: Id)
    requires KeepsAside(s, after, id) && id in s.calls && s.calls[id].path == leaf && s.calls[id].lock != leaf
    requires StepsAside(s.calls[id], after.calls[id]) && ClaimerOk(s.calls[id], Get(s.files, leaf))
    ensures OneClaimerMoved(s, after, leaf, id)
  {
  }

  lemma ClaimersAfterAside(s: State, e: Event, leaf: Path)
    requires SystemOk(s) && LockKept(s, leaf) && ClaimersOk(s, leaf) && !InLockDir(leaf)
    requires !e.Invoke? && !IsWork(s, e)
    ensures ClaimersOk(Aside(s, e), leaf)
  {
    var after := Aside(s, e);
    AsideEffects(s, e);
    if after != s {
      assert s.calls[e.id].lock != leaf;
      if s.calls[e.id].path == leaf {
        if e.Crash? {
          DeathIsAside(s, e.id);
        } else {
          LockStepIsAside(s, e.id, e.choice);
        }
        ClaimerStepsAside(s, after, leaf, e.id);
        ClaimersAfterMove(s, after, leaf, e.id);
      } else {
        ClaimersAfterOthers(s, after, leaf, e.id);
      }
    }
  }

  lemma ClaimersAfterInvoke(s: State, e: Event, leaf: Path)
    requires ClaimersOk(s, leaf) && e.Invoke? && (e.path == leaf ==> IsClaim(e.op))
    ensures ClaimersOk(Next(s, e), leaf)
  {
    assert forall id | HasApplied(Next(s, e), leaf, id) :: HasApplied(s, leaf, id);
  }

  lemma {:induction false} ClaimersInvariant(files: Files, events: seq<Event>, leaf: Path, others: iset<Path>)
    requires !InLockDir(leaf) && !InTempNamespace(leaf) && leaf !in others && LockPath(leaf) !in others
    requires ClaimedBeside(events, leaf, others)
    ensures var s := Run(Start(files), events); SystemOk(s) && LeafReserved(s, leaf) && ClaimersOk(s, leaf)
  {
    SystemInvariant(files, events);
    if events != [] {
      var front, e := events[..|events| - 1], events[|events| - 1];
      var s := Run(Start(files), front);
      ClaimersInvariant(files, front, leaf, others);
      assert CasEvent(e, leaf);
      NextKeepsReserved(s, e, leaf);
      NextKeepsClaimers(s, e, leaf);
    }
  }

  lemma NextKeepsClaimers(s: State, e: Event, leaf: Path)
    requires SystemOk(s) && LockKept(s, leaf) && ClaimersOk(s, leaf) && !InLockDir(leaf) && !InTempNamespace(leaf)
    requires e.Invoke? && e.path == leaf ==> IsClaim(e.op)
    ensures ClaimersOk(Next(s, e), leaf)
  {
    if e.Invoke? {
      ClaimersAfterInvoke(s, e, leaf);
    } else if IsWork(s, e) {
      WorkStepIs(s, e);
      ClaimersAfterWork(s, e, leaf);
    } else {
      AsideIs(s, e);
      ClaimersAfterAside(s, e, leaf);
    }
  }

  lemma WinnersHaveApplied(s: State, leaf: Path)
    requires ClaimersOk(s, leaf)
    ensures OneWinner(s, leaf)
  {
    assert forall id | HasWon(s, leaf, id) :: HasApplied(s, leaf, id);
  }

  // ---------- The run in which a removed lock file lets two claimers win ----------

  const CLAIM := CompareExchange(None, Some([]))

  function Claimer(leaf: Path): Call
    requires leaf != []
  {
    NewCall(0, leaf, CLAIM)
  }

  /** Eight more steps and the claimer has won. */
  lemma Finishes(s: State, id: Id, c: Call)
    requires AtRead(s, id, c) && c.op == CLAIM && FirstFree(s.files, c, 0) && c.temps[0] != c.path
    ensures Moved(s, Run(s, Acts(id, 8)), id, c.(pc := Finished(Exchanged(true, None)), applied := true),
                  s.files[c.path := []])
  {
    ActsAppend(s, id, 5, 3);
    ReaderIsReady(s, id, c, 0);
    FinishesFrom(s, Run(s, Acts(id, 5)), id, c);
  }

  lemma FinishesFrom(s: State, t: State, id: Id, c: Call)
    requires AtRead(s, id, c) && c.op == CLAIM && FirstFree(s.files, c, 0) && c.temps[0] != c.path
    requires Moved(s, t, id, c.(pc := Ready(0)), s.files[c.temps[0] := []])
    ensures Moved(s, Run(t, Acts(id, 3)), id, c.(pc := Finished(Exchanged(true, None)), applied := true),
                  s.files[c.path := []])
  {
    var d, temp := c.(pc := Ready(0)), c.temps[0];
    ReaderInstalls(t, id, d, 0, []);
    assert (s.files[temp := []] - {temp})[c.path := []] == s.files[c.path := []];
    MovedTwice(s, t, Run(t, Acts(id, 3)), id, d, c.(pc := Finished(Exchanged(true, None)), applied := true),
               t.files, s.files[c.path := []]);
  }

  /** Two claimers that have both found the leaf absent. */
  predicate BothRead(s: State, leaf: Path) {
    && leaf != [] && 0 in s.calls && 2 in s.calls
    && s.calls[0] == Reader(Claimer(leaf), 0, None) && s.calls[2] == Reader(Claimer(leaf), 1, None)
    && TempPath(leaf, 0, 0) !in s.files
  }

  function Prologue(leaf: Path): seq<Event> {
    [Invoke(0, 0, leaf, CLAIM)] + Acts(0, 3)
  }

  function Intrusion(leaf: Path): seq<Event> {
    [Invoke(1, 0, LockPath(leaf), RemoveFile), Act(1, GO)]
  }

  function Sequel(leaf: Path): seq<Event> {
    [Invoke(2, 0, leaf, CLAIM)] + Acts(2, 3)
  }

  lemma FirstReads(leaf: Path)
    requires leaf != [] && leaf != LockPath(leaf)
    ensures var s := Run(Start(map[]), Prologue(leaf));
            && s.calls == map[0 := Reader(Claimer(leaf), 0, None)] && s.files == map[LockPath(leaf) := []]
            && s.versions == map[] && s.locks == map[Inode(LockPath(leaf), 0) := 0]
  {
    var begun := Start(map[]).(calls := map[0 := Claimer(leaf)]);
    RunThen(Start(map[]), Invoke(0, 0, leaf, CLAIM), Acts(0, 3));
    Enters(Start(map[]), 0, 0, leaf, CLAIM);
    Reads(begun, 0, Claimer(leaf));
  }

  /** Someone else has removed the lock file; everything else is as it was. */
  predicate LockGone(s: State, after: State, leaf: Path) {
    && after.files == s.files - {LockPath(leaf)} && after.locks == s.locks
    && after.versions == s.versions[LockPath(leaf) := VersionOf(s.versions, LockPath(leaf)) + 1]
    && after.calls.Keys == s.calls.Keys + {1}
    && forall other | other in s.calls :: after.calls[other] == s.calls[other]
  }

  lemma LockFileGoes(s: State, leaf: Path)
    requires LockPath(leaf) in s.files && 1 !in s.calls
    ensures LockGone(s, Run(s, Intrusion(leaf)), leaf)
  {
    var c := NewCall(0, LockPath(leaf), RemoveFile);
    RemovalRuns(s, 1, LockPath(leaf));
    RemovalIsAll(s, Entered(s, 1, c), c, leaf);
  }

  lemma RemovalIsAll(s: State, begun: State, c: Call, leaf: Path)
    requires 1 !in s.calls && begun == s.(calls := s.calls[1 := c])
    ensures LockGone(s, Removed(begun, 1, LockPath(leaf)), leaf)
  {
  }

  lemma SecondReads(s: State, leaf: Path)
    requires leaf != [] && leaf != LockPath(leaf) && 2 !in s.calls && 0 in s.calls
    requires s.calls[0] == Reader(Claimer(leaf), 0, None)
    requires s.files == map[] && VersionOf(s.versions, LockPath(leaf)) == 1 && Inode(LockPath(leaf), 1) !in s.locks
    requires TempPath(leaf, 0, 0) != LockPath(leaf)
    ensures BothRead(Run(s, Sequel(leaf)), leaf)
  {
    var begun := s.(calls := s.calls[2 := Claimer(leaf)]);
    RunThen(s, Invoke(2, 0, leaf, CLAIM), Acts(2, 3));
    Enters(s, 2, 0, leaf, CLAIM);
    Reads(begun, 2, Claimer(leaf));
  }

  lemma BothWin(s: State, leaf: Path)
    requires BothRead(s, leaf) && TempPath(leaf, 0, 0) != leaf
    ensures var after := Run(s, Acts(0, 8) + Acts(2, 8)); HasWon(after, leaf, 0) && HasWon(after, leaf, 2)
  {
    RunAppend(s, Acts(0, 8), Acts(2, 8));
    Finishes(s, 0, Reader(Claimer(leaf), 0, None));
    Finishes(Run(s, Acts(0, 8)), 2, Reader(Claimer(leaf), 1, None));
  }

  function Intruded(leaf: Path): seq<Event> {
    Prologue(leaf) + (Intrusion(leaf) + (Sequel(leaf) + (Acts(0, 8) + Acts(2, 8))))
  }

  lemma SecondFollows(s: State, gone: State, leaf: Path)
    requires leaf != [] && leaf != LockPath(leaf) && TempPath(leaf, 0, 0) != LockPath(leaf)
    requires s.calls == map[0 := Reader(Claimer(leaf), 0, None)] && s.files == map[LockPath(leaf) := []]
    requires s.versions == map[] && s.locks == map[Inode(LockPath(leaf), 0) := 0] && LockGone(s, gone, leaf)
    ensures BothRead(Run(gone, Sequel(leaf)), leaf)
  {
    SecondReads(gone, leaf);
  }

  lemma IntrusionLetsBothWin(leaf: Path)
    requires leaf != [] && !InLockDir(leaf) && !InTempNamespace(leaf)
    ensures var s := Run(Start(map[]), Intruded(leaf)); HasWon(s, leaf, 0) && HasWon(s, leaf, 2)
  {
    TempsAreInNamespace(leaf, 0);
    LockPathIsNoTemp(leaf);
    assert LockPath(leaf)[0] == LockDir();
    FourParts(Start(map[]), Prologue(leaf), Intrusion(leaf), Sequel(leaf), Acts(0, 8) + Acts(2, 8));
    FirstReads(leaf);
    var s1 := Run(Start(map[]), Prologue(leaf));
    LockFileGoes(s1, leaf);
    SecondFollows(s1, Run(s1, Intrusion(leaf)), leaf);
    BothWin(Run(Run(s1, Intrusion(leaf)), Sequel(leaf)), leaf);
  }

  lemma IntrusionBreaks(leaf: Path, others: iset<Path>)
    requires leaf != [] && !InLockDir(leaf) && !InTempNamespace(leaf) && LockPath(leaf) in others
    ensures !StaysExclusive(leaf, others)
  {
    var none: Files, s := map[], Run(Start(map[]), Intruded(leaf));
    IntrusionLetsBothWin(leaf);
    IntrusionIsBeside(leaf, others);
    assert leaf !in none && !OneWinner(s, leaf) by {
      assert HasWon(s, leaf, 0) && HasWon(s, leaf, 2);
    }
  }

  lemma IntrusionIsBeside(leaf: Path, others: iset<Path>)
    requires LockPath(leaf) in others
    ensures ClaimedBeside(Intruded(leaf), leaf, others)
  {
  }

  /**
   Of all files but the leaf, the one whose use by others can make two claimers of a leaf believe that they won is
   the lock file of that leaf, which lies in the same tree as the leaves. Others may even use the temporary files
   of the claimers.
   */
  lemma StaysExclusiveIff(leaf: Path, others: iset<Path>)
    requires leaf != [] && !InLockDir(leaf) && !InTempNamespace(leaf) && leaf !in others
    ensures StaysExclusive(leaf, others) <==> LockPath(leaf) !in others
  {
    if LockPath(leaf) in others {
      IntrusionBreaks(leaf, others);
    } else {
      forall files: Files, events: seq<Event> | leaf !in files && ClaimedBeside(events, leaf, others)
        ensures OneWinner(Run(Start(files), events), leaf)
      {
        ClaimersInvariant(files, events, leaf, others);
        WinnersHaveApplied(Run(Start(files), events), leaf);
      }
    }
  }
}
