/** Exactly which files must be left alone for compare-exchange on a leaf to be linearizable. */
module HostExact {
  import opened Common
  import opened Paths
  import opened HostCas
  import opened HostLocks
  import opened HostRuns
  import opened HostSteps

  /** `leaf` is only accessed by compare-exchange, and anything else that anyone does is to use one of `others`. */
  ghost predicate ExchangedBeside(events: seq<Event>, leaf: Path, others: iset<Path>) {
    forall k | 0 <= k < |events| && events[k].Invoke? ::
      (events[k].path == leaf && events[k].op.CompareExchange?) || events[k].path in others
  }

  /** Whatever happens to the other files, the compare-exchanges on `leaf` are linearizable. */
  ghost predicate StaysLinearizable(leaf: Path, others: iset<Path>) {
    forall files: Files, events: seq<Event> | ExchangedBeside(events, leaf, others) ::
      IsLinearized(Run(Start(files), events), leaf, Get(files, leaf))
  }

  predicate IsLinearized(s: State, leaf: Path, initial: Option<Bytes>) {
    Linearized(s, leaf, initial, LogOf(s.log, leaf))
  }

  /** Neither the lock file of the leaf nor a temporary name beside it is among the names. */
  ghost predicate Harmless(leaf: Path, others: iset<Path>)
    requires leaf != []
  {
    LockPath(leaf) !in others && forall q | q in others :: !IsTempOf(leaf, q)
  }

  lemma BesideIsFair(events: seq<Event>, leaf: Path, others: iset<Path>)
    requires leaf != [] && !InLockDir(leaf) && !InTempNamespace(leaf) && leaf !in others
    requires Harmless(leaf, others) && ExchangedBeside(events, leaf, others)
    ensures FairPlay(events, leaf)
  {
    forall k | 0 <= k < |events| ensures DisciplinedIn(events[k], DirOf(leaf)) && CasEvent(events[k], leaf) {
      if events[k].Invoke? {
        TempsOfDirectory(leaf, events[k].path);
        assert InLockDir(LockPath(leaf)) && InLockDir(LockPath(events[k].path));
      }
    }
  }

  // ---------- A removed lock file ----------

  lemma {:induction false} OnlyClaims(files: Files, events: seq<Event>, leaf: Path, others: iset<Path>)
    requires ClaimedBeside(events, leaf, others) && leaf !in others
    ensures AllClaim(Run(Start(files), events), leaf)
  {
    if events != [] {
      var front, e := events[..|events| - 1], events[|events| - 1];
      OnlyClaims(files, front, leaf, others);
      SystemInvariant(files, front);
      if !e.Invoke? {
        NextKeepsIdentity(Run(Start(files), front), e);
      }
    }
  }

  /** Two winners are more than the atomic operation has. */
  lemma TwoWinnersShow(s: State, leaf: Path, log: seq<LogEntry>)
    requires AllClaim(s, leaf) && HasWon(s, leaf, 0) && HasWon(s, leaf, 2)
    ensures !Linearized(s, leaf, None, log)
  {
    if Linearized(s, leaf, None, log) {
      WinnersAgree(s, leaf, log, 0, 2);
    }
  }

  lemma LockIntrusionShows(leaf: Path, others: iset<Path>)
    requires leaf != [] && !InLockDir(leaf) && !InTempNamespace(leaf) && leaf !in others && LockPath(leaf) in others
    ensures !StaysLinearizable(leaf, others)
  {
    var none: Files, events := map[], Intruded(leaf);
    IntrusionLetsBothWin(leaf);
    IntrusionIsBeside(leaf, others);
    OnlyClaims(none, events, leaf, others);
    TwoWinnersShow(Run(Start(none), events), leaf, LogOf(Run(Start(none), events).log, leaf));
    NotLinearizable(none, events, leaf, others);
  }

  lemma NotLinearizable(files: Files, events: seq<Event>, leaf: Path, others: iset<Path>)
    requires ExchangedBeside(events, leaf, others) && leaf !in files
    requires !IsLinearized(Run(Start(files), events), leaf, None)
    ensures !StaysLinearizable(leaf, others)
  {
    assert !IsLinearized(Run(Start(files), events), leaf, Get(files, leaf));
  }

  // ---------- A removed temporary file ----------

  const WRITE := CompareExchange(None, Some([1]))

  function Exchanger(leaf: Path, pid: nat): Call
    requires leaf != []
  {
    NewCall(pid, leaf, WRITE)
  }

  /** The claimer of the absent leaf, about to rename its temporary file. */
  function Renaming(leaf: Path, pid: nat, n: nat): Call
    requires leaf != []
  {
    Reader(Exchanger(leaf, pid), 0, None).(pc := Ready(n))
  }

  /** The claimer has been told that it won. */
  function Told(leaf: Path, pid: nat, n: nat): Call
    requires leaf != []
  {
    Renaming(leaf, pid, n).(pc := Finished(Exchanged(true, None)), applied := true)
  }

  function Approach(leaf: Path, pid: nat, n: nat): seq<Event> {
    [Invoke(0, pid, leaf, WRITE)] + Acts(0, n + 8)
  }

  function Removal(q: Path): seq<Event> {
    [Invoke(1, 0, q, RemoveFile), Act(1, GO)]
  }

  /** Someone replaces the removed file; the temporary name it comes to create is that very file. */
  function Recreation(q: Path, pid: nat, n: nat): seq<Event> {
    [Invoke(2, pid, q, Replace([2]))] + Acts(2, n + 3)
  }

  function Disturbed(leaf: Path, pid: nat, n: nat): seq<Event>
    requires leaf != []
  {
    var q := TempPath(leaf, pid, n);
    Approach(leaf, pid, n) + (Removal(q) + (Recreation(q, pid, n) + Acts(0, 3)))
  }

  lemma ReadsFirst(leaf: Path, pid: nat, files: Files)
    requires leaf != [] && leaf != LockPath(leaf) && leaf !in files && LockPath(leaf) !in files
    ensures var s := Run(Next(Start(files), Invoke(0, pid, leaf, WRITE)), Acts(0, 3));
            s.calls == map[0 := Reader(Exchanger(leaf, pid), 0, None)] && s.files == files[LockPath(leaf) := []]
  {
    Enters(Start(files), 0, pid, leaf, WRITE);
    Reads(Entered(Start(files), 0, Exchanger(leaf, pid)), 0, Exchanger(leaf, pid));
  }

  lemma ComesToRename(leaf: Path, pid: nat, n: nat, files: Files)
    requires leaf != [] && leaf != LockPath(leaf) && leaf !in files && LockPath(leaf) !in files
    requires FirstFree(files[LockPath(leaf) := []], Exchanger(leaf, pid), n)
    ensures var s := Run(Start(files), Approach(leaf, pid, n));
            && s.calls == map[0 := Renaming(leaf, pid, n)]
            && s.files == files[LockPath(leaf) := []][TempPath(leaf, pid, n) := [1]]
  {
    RunThen(Start(files), Invoke(0, pid, leaf, WRITE), Acts(0, n + 8));
    var begun := Next(Start(files), Invoke(0, pid, leaf, WRITE));
    ActsAppend(begun, 0, 3, n + 5);
    ReadsFirst(leaf, pid, files);
    ComesFromRead(Run(begun, Acts(0, 3)), leaf, pid, n, files[LockPath(leaf) := []]);
  }

  lemma ComesFromRead(s: State, leaf: Path, pid: nat, n: nat, files: Files)
    requires leaf != [] && s.calls == map[0 := Reader(Exchanger(leaf, pid), 0, None)] && s.files == files
    requires FirstFree(files, Exchanger(leaf, pid), n)
    ensures var t := Run(s, Acts(0, n + 5));
            t.calls == map[0 := Renaming(leaf, pid, n)] && t.files == files[TempPath(leaf, pid, n) := [1]]
  {
    ReaderIsReady(s, 0, Reader(Exchanger(leaf, pid), 0, None), n);
  }

  /** The claimer is about to rename, and its temporary file is now the empty one of a replace of that file. */
  predicate Prepared(s: State, leaf: Path, pid: nat, n: nat)
    requires leaf != []
  {
    && s.calls.Keys == {0, 1, 2} && s.calls[0] == Renaming(leaf, pid, n)
    && s.calls[1].path == s.calls[2].path == TempPath(leaf, pid, n)
    && Get(s.files, TempPath(leaf, pid, n)) == Some([])
  }

  lemma SiblingTemps(leaf: Path, pid: nat, n: nat, j: nat)
    requires leaf != []
    ensures TempPath(TempPath(leaf, pid, n), pid, j) == TempPath(leaf, pid, j)
  {
  }

  lemma IsRecreated(s: State, leaf: Path, pid: nat, n: nat, files: Files)
    requires leaf != [] && n < TEMP_ATTEMPTS && TempPath(leaf, pid, n) !in files
    requires forall j | 0 <= j < n :: TempPath(leaf, pid, j) in files
    requires Gone(s, Renaming(leaf, pid, n), TempPath(leaf, pid, n), files)
    ensures Prepared(Run(s, Recreation(TempPath(leaf, pid, n), pid, n)), leaf, pid, n)
  {
    var q := TempPath(leaf, pid, n);
    forall j: nat ensures TempPath(q, pid, j) == TempPath(leaf, pid, j) {
      SiblingTemps(leaf, pid, n, j);
    }
    ReplaceCreates(s, 2, pid, q, [2], n);
  }

  /** The claimer has returned; it is the only call on the leaf, which holds nothing of what it wrote. */
  predicate Betrayed(s: State, leaf: Path, pid: nat, n: nat)
    requires leaf != []
  {
    && 0 in s.calls && s.calls[0] == Told(leaf, pid, n) && Get(s.files, leaf) == Some([])
    && forall id | id in s.calls && s.calls[id].path == leaf :: id == 0
  }

  lemma IsBetrayed(s: State, leaf: Path, pid: nat, n: nat)
    requires leaf != [] && n < TEMP_ATTEMPTS && TempPath(leaf, pid, n) != leaf && Prepared(s, leaf, pid, n)
    ensures Betrayed(Run(s, Acts(0, 3)), leaf, pid, n)
  {
    ReaderInstalls(s, 0, Renaming(leaf, pid, n), n, []);
  }

  lemma LockIsFree(s: State, leaf: Path, pid: nat, n: nat)
    requires leaf != [] && LocksOk(s) && Betrayed(s, leaf, pid, n)
    ensures LockOf(leaf) !in s.locks
  {
    if LockOf(leaf) in s.locks {
      HolderOfLeaf(s, leaf);
    }
  }

  /** When the only call on an absent leaf has won, the one entry of the history says what it wrote. */
  lemma SoleEntryIsFinal(s: State, leaf: Path, log: seq<LogEntry>)
    requires Linearized(s, leaf, None, log) && HasWon(s, leaf, 0)
    requires s.calls[0].applied && s.calls[0].op == WRITE
    requires forall id | id in s.calls && s.calls[id].path == leaf :: id == 0
    ensures Final(None, log) == Some([1])
  {
    var k := AnsweredIsLogged(s, leaf, log, 0);
    assert forall j | 0 <= j < |log| :: IsAnswered(s, leaf, log[j]) && log[j].id == 0;
    assert |log| == 1;
    assert log[..|log| - 1] == [];
    assert Final(None, log) == After(None, log[0]);
  }

  lemma BetrayedIsNotLinearized(s: State, leaf: Path, pid: nat, n: nat, log: seq<LogEntry>)
    requires leaf != [] && LocksOk(s) && Betrayed(s, leaf, pid, n)
    ensures !Linearized(s, leaf, None, log)
  {
    LockIsFree(s, leaf, pid, n);
    assert HasWon(s, leaf, 0);
    if Linearized(s, leaf, None, log) {
      SoleEntryIsFinal(s, leaf, log);
    }
  }

  lemma DisturbanceRuns(leaf: Path, pid: nat, n: nat)
    requires leaf != [] && !InLockDir(leaf) && !InTempNamespace(leaf) && n < TEMP_ATTEMPTS
    ensures leaf !in Crowded(leaf, pid, n)
    ensures Betrayed(Run(Start(Crowded(leaf, pid, n)), Disturbed(leaf, pid, n)), leaf, pid, n)
  {
    var files, q := Crowded(leaf, pid, n), TempPath(leaf, pid, n);
    TempsAreInNamespace(leaf, pid);
    assert q in TempPaths(leaf, pid);
    LockPathIsNoTemp(leaf);
    assert InLockDir(LockPath(leaf));
    CrowdedUpTo(leaf, pid, n);
    FourParts(Start(files), Approach(leaf, pid, n), Removal(q), Recreation(q, pid, n), Acts(0, 3));
    ComesToRename(leaf, pid, n, files);
    var s := Run(Start(files), Approach(leaf, pid, n));
    RemovalRuns(s, 1, q);
    FileIsGone(s, Run(s, Removal(q)), Renaming(leaf, pid, n), q, files[LockPath(leaf) := []]);
    IsRecreated(Run(s, Removal(q)), leaf, pid, n, files[LockPath(leaf) := []]);
    IsBetrayed(Run(Run(s, Removal(q)), Recreation(q, pid, n)), leaf, pid, n);
  }

  lemma DisturbanceIsBeside(leaf: Path, pid: nat, n: nat, others: iset<Path>)
    requires leaf != [] && TempPath(leaf, pid, n) in others
    ensures ExchangedBeside(Disturbed(leaf, pid, n), leaf, others)
  {
  }

  lemma TempIntrusionShows(leaf: Path, pid: nat, n: nat, others: iset<Path>)
    requires leaf != [] && !InLockDir(leaf) && !InTempNamespace(leaf)
    requires n < TEMP_ATTEMPTS && TempPath(leaf, pid, n) in others
    ensures !StaysLinearizable(leaf, others)
  {
    var files, events := Crowded(leaf, pid, n), Disturbed(leaf, pid, n);
    DisturbanceRuns(leaf, pid, n);
    DisturbanceIsBeside(leaf, pid, n, others);
    SystemInvariant(files, events);
    var s := Run(Start(files), events);
    BetrayedIsNotLinearized(s, leaf, pid, n, LogOf(s.log, leaf));
    NotLinearizable(files, events, leaf, others);
  }

  /**
   Compare-exchange on a leaf is linearizable, whatever else is done to other files, exactly when nobody names its
   lock file or a name that a writer of the leaf may pick for its temporary file.
   */
  lemma StaysLinearizableIff(leaf: Path, others: iset<Path>)
    requires leaf != [] && !InLockDir(leaf) && !InTempNamespace(leaf) && leaf !in others
    ensures StaysLinearizable(leaf, others) <==> Harmless(leaf, others)
  {
    if Harmless(leaf, others) {
      forall files: Files, events: seq<Event> | ExchangedBeside(events, leaf, others)
        ensures IsLinearized(Run(Start(files), events), leaf, Get(files, leaf))
      {
        BesideIsFair(events, leaf, others);
        CompareExchangeIsLinearizable(files, events, leaf);
      }
    } else if LockPath(leaf) in others {
      LockIntrusionShows(leaf, others);
    } else {
      var q :| q in others && IsTempOf(leaf, q);
      var pid: nat, n: nat :| n < TEMP_ATTEMPTS && q == TempPath(leaf, pid, n);
      TempIntrusionShows(leaf, pid, n, others);
    }
  }
}
