/** Compare-exchange through lock, read and rename steps is linearizable, and refines the in-memory port. */
module HostCas {
  import opened Common
  import opened Paths
  import opened HostSteps
  import HostDir

  // ---------- Linearizability of compare-exchange on one leaf ----------

  /** The atomic operation: the new content and the answer. */
  function AtomicCas(content: Option<Bytes>, expected: Option<Bytes>, replacement: Option<Bytes>):
    (Option<Bytes>, Answer)
  {
    if content == expected then (replacement, Exchanged(true, content)) else (content, Exchanged(false, content))
  }

  /** The part of the history that concerns one leaf. */
  function LogOf(log: seq<LogEntry>, leaf: Path): seq<LogEntry> {
    if log == [] then []
    else
      var front, last := log[..|log| - 1], log[|log| - 1];
      LogOf(front, leaf) + if last.path == leaf then [last] else []
  }

  function OrderOf(order: seq<(Path, Id)>, leaf: Path): seq<Id> {
    if order == [] then []
    else
      var front, last := order[..|order| - 1], order[|order| - 1];
      OrderOf(front, leaf) + if last.0 == leaf then [last.1] else []
  }

  function Ids(log: seq<LogEntry>): (ids: seq<Id>)
    ensures |ids| == |log|
    ensures forall k | 0 <= k < |log| :: ids[k] == log[k].id
  {
    seq(|log|, k requires 0 <= k < |log| => log[k].id)
  }

  /** The content after one released call. */
  function After(content: Option<Bytes>, entry: LogEntry): Option<Bytes> {
    if entry.applied then entry.replacement else content
  }

  /** The content after all released calls, run one at a time in lock order. */
  function Final(content: Option<Bytes>, log: seq<LogEntry>): Option<Bytes> {
    if log == [] then content else After(Final(content, log[..|log| - 1]), log[|log| - 1])
  }

  /**
   An answer is right for the content the call found: a completed call did exactly what the atomic
   operation does, a cancelled one changed nothing, and one that met an I/O error or died either did nothing
   or did its whole exchange on the content it expected.
   */
  predicate Justified(content: Option<Bytes>, entry: LogEntry) {
    match entry.answer
    case Exchanged(_, _) =>
      (After(content, entry), entry.answer) == AtomicCas(content, entry.expected, entry.replacement)
    case Cancelled => !entry.applied
    case Done => false
    case _ => entry.applied ==> content == entry.expected
  }

  /** The caller cannot tell from this answer whether its exchange took place. */
  predicate Uncertain(answer: Answer) {
    answer.Failed? || answer.Lost?
  }

  predicate Explained(content: Option<Bytes>, log: seq<LogEntry>) {
    log == [] ||
    (Explained(content, log[..|log| - 1]) && Justified(Final(content, log[..|log| - 1]), log[|log| - 1]))
  }

  /** What is known about the call that holds the lock of its leaf, given the content `before` it came. */
  predicate HolderOk(c: Call, before: Option<Bytes>, content: Option<Bytes>) {
    && c.op.CompareExchange?
    && (c.applied ==> before == c.op.expected && content == c.op.replacement)
    && (!c.applied ==> content == before)
    && (c.pc.Observed? || InReplace(c.pc) || c.pc.Unlink? || c.pc.Applied? ==> c.seen == before)
    && (InReplace(c.pc) || c.pc.Unlink? || c.pc.Applied? ==> before == c.op.expected)
    && (c.pc.Locked? || c.pc.Observed? || InReplace(c.pc) || c.pc.Unlink? ==> !c.applied)
    && (c.pc.Applied? ==> c.applied)
    && (c.pc.Releasing? ==>
          match c.pc.answer
          case Exchanged(_, _) => (content, c.pc.answer) == AtomicCas(before, c.op.expected, c.op.replacement)
          case Cancelled => !c.applied
          case Done => false
          case _ => true)
  }

  lemma WorkKeepsHolderOk(files: Files, c: Call, choice: Choice, before: Option<Bytes>)
    requires CallOk(files, c) && Holding(c) && !c.pc.Releasing? && c.path !in c.temps
    requires HolderOk(c, before, Get(files, c.path))
    ensures var (files', c') := Work(files, c, choice); HolderOk(c', before, Get(files', c.path))
  {
  }

  predicate OnlyCas(s: State, leaf: Path) {
    forall id | id in s.calls && s.calls[id].path == leaf :: s.calls[id].op.CompareExchange?
  }

  /** The lock file of a leaf, as long as nobody unlinks or replaces it. */
  function LockOf(leaf: Path): Inode {
    Inode(LockPath(leaf), 0)
  }

  /** The lock file of the leaf is no call's target, and every caller for the leaf has opened that one file. */
  predicate LockKept(s: State, leaf: Path) {
    && VersionOf(s.versions, LockPath(leaf)) == 0
    && (forall id | id in s.calls :: s.calls[id].path != LockPath(leaf))
    && (forall id | id in s.calls && s.calls[id].op.CompareExchange? :: LockPath(s.calls[id].path) != leaf)
    && (forall id | id in s.calls && s.calls[id].path == leaf :: s.calls[id].handle == LockOf(leaf))
  }

  /** The invariant of one leaf whose writers all use compare-exchange. */
  predicate LeafOk(s: State, leaf: Path, initial: Option<Bytes>) {
    var log, lock := LogOf(s.log, leaf), LockOf(leaf);
    && Explained(initial, log)
    && OrderOf(s.order, leaf) == Ids(log) + (if lock in s.locks then [s.locks[lock]] else [])
    && (if lock in s.locks
        then s.locks[lock] in s.calls && HolderOk(s.calls[s.locks[lock]], Final(initial, log), Get(s.files, leaf))
        else Get(s.files, leaf) == Final(initial, log))
  }

  /** The call has had its lock: it has begun, and if it failed or died it has changed the leaf before. */
  predicate HasCounted(c: Call) {
    HasBegun(c) && (c.applied || (c.pc != Finished(Failed) && c.pc != Finished(Lost)))
  }

  predicate NoRepeats(ids: seq<Id>) {
    forall i, j | 0 <= i < j < |ids| :: ids[i] != ids[j]
  }

  /**
   The order lists each call once, after it has taken the lock, and misses none but those that failed or died
   before and thus changed nothing; each entry of the history is the answer its call has been given.
   */
  predicate HistoryOk(s: State, leaf: Path) {
    && NoRepeats(OrderOf(s.order, leaf))
    && (forall id | id in OrderOf(s.order, leaf) ::
          id in s.calls && s.calls[id].path == leaf && s.calls[id].op.CompareExchange? && HasBegun(s.calls[id]))
    && (forall id | id in s.calls && s.calls[id].path == leaf && HasCounted(s.calls[id]) ::
          id in OrderOf(s.order, leaf))
    && (forall k | 0 <= k < |LogOf(s.log, leaf)| :: IsAnswered(s, leaf, LogOf(s.log, leaf)[k]))
  }

  /** The entry is what its call was, did and has been told. */
  predicate IsAnswered(s: State, leaf: Path, entry: LogEntry) {
    && entry.id in s.calls && s.calls[entry.id].path == leaf
    && s.calls[entry.id].pc == Finished(entry.answer)
    && s.calls[entry.id].applied == entry.applied
    && s.calls[entry.id].op == CompareExchange(entry.expected, entry.replacement)
  }

  lemma LogAppend(log: seq<LogEntry>, entry: LogEntry, leaf: Path)
    ensures LogOf(log + [entry], leaf) == LogOf(log, leaf) + if entry.path == leaf then [entry] else []
  {
    assert (log + [entry])[..|log|] == log;
  }

  lemma OrderAppend(order: seq<(Path, Id)>, path: Path, id: Id, leaf: Path)
    ensures OrderOf(order + [(path, id)], leaf) == OrderOf(order, leaf) + if path == leaf then [id] else []
  {
    assert (order + [(path, id)])[..|order|] == order;
  }

  lemma HolderOfLeaf(s: State, leaf: Path)
    requires LocksOk(s) && LockOf(leaf) in s.locks
    ensures s.calls[s.locks[LockOf(leaf)]].path == leaf
  {
    LockPathsInjective(s.calls[s.locks[LockOf(leaf)]].path, leaf);
  }

  /** Nothing that concerns the leaf has changed. */
  lemma LeafUnaffected(s: State, after: State, leaf: Path, initial: Option<Bytes>)
    requires LeafOk(s, leaf, initial)
    requires Get(after.files, leaf) == Get(s.files, leaf)
    requires LogOf(after.log, leaf) == LogOf(s.log, leaf) && OrderOf(after.order, leaf) == OrderOf(s.order, leaf)
    requires var lock := LockOf(leaf);
             if lock in s.locks
             then && lock in after.locks && after.locks[lock] == s.locks[lock]
                  && s.locks[lock] in after.calls && after.calls[s.locks[lock]] == s.calls[s.locks[lock]]
             else lock !in after.locks
    ensures LeafOk(after, leaf, initial)
  {
  }

  lemma LeafAfterHolderWork(s: State, id: Id, choice: Choice, leaf: Path, initial: Option<Bytes>)
    requires LeafOk(s, leaf, initial) && id in s.calls && CallOk(s.files, s.calls[id]) && !AtLock(s.calls[id])
    requires s.calls[id].path == leaf && leaf !in s.calls[id].temps && Holding(s.calls[id])
    requires LockOf(leaf) in s.locks && s.locks[LockOf(leaf)] == id
    ensures LeafOk(Worked(s, id, choice), leaf, initial)
  {
    WorkKeepsHolderOk(s.files, s.calls[id], choice, Final(initial, LogOf(s.log, leaf)));
  }

  lemma LeafAfterOtherWork(s: State, id: Id, choice: Choice, leaf: Path, initial: Option<Bytes>)
    requires LocksOk(s) && LeafOk(s, leaf, initial) && id in s.calls && CallShape(s.calls[id])
    requires s.calls[id].path != leaf && leaf !in s.calls[id].temps
    ensures LeafOk(Worked(s, id, choice), leaf, initial)
  {
    if LockOf(leaf) in s.locks {
      HolderOfLeaf(s, leaf);
    }
    WorkFrame(s.files, s.calls[id], choice, leaf);
    LeafUnaffected(s, Worked(s, id, choice), leaf, initial);
  }

  lemma LeafAfterWork(s: State, e: Event, leaf: Path, initial: Option<Bytes>)
    requires SystemOk(s) && Tidy(s, DirOf(leaf)) && LeafReserved(s, leaf) && LeafOk(s, leaf, initial)
    requires IsWork(s, e) && CallShape(s.calls[e.id]) && !InTempNamespace(leaf)
    ensures LeafOk(Worked(s, e.id, e.choice), leaf, initial)
  {
    var c := s.calls[e.id];
    assert forall temp | temp in c.temps :: InTempNamespace(temp);
    if c.path != leaf {
      LeafAfterOtherWork(s, e.id, e.choice, leaf, initial);
    } else if Holding(c) {
      TargetIsNoTemp(s, DirOf(leaf), e.id);
      LeafAfterHolderWork(s, e.id, e.choice, leaf, initial);
    } else {
      FinishedStays(s, e.id, e.choice);
    }
  }

  lemma FinishedStays(s: State, id: Id, choice: Choice)
    requires id in s.calls && s.calls[id].pc.Finished?
    ensures Worked(s, id, choice) == s
  {
  }

  lemma LeafAfterTaking(s: State, id: Id, leaf: Path, initial: Option<Bytes>)
    requires LeafOk(s, leaf, initial) && id in s.calls && s.calls[id].op.CompareExchange? && !s.calls[id].applied
    requires s.calls[id].path == leaf && s.calls[id].handle == LockOf(leaf) && LockOf(leaf) !in s.locks
    ensures LeafOk(Acquired(s, id), leaf, initial)
  {
    OrderAppend(s.order, leaf, id, leaf);
    assert Ids(LogOf(s.log, leaf)) + [] == Ids(LogOf(s.log, leaf));
  }

  lemma LeafAfterOpening(s: State, id: Id, choice: Choice, leaf: Path, initial: Option<Bytes>)
    requires LocksOk(s) && LockKept(s, leaf) && LeafOk(s, leaf, initial)
    requires id in s.calls && s.calls[id].op.CompareExchange? && !HasBegun(s.calls[id])
    requires choice.ioError || s.calls[id].pc.Invoked? || s.calls[id].handle in s.locks
    ensures LeafOk(LockStep(s, id, choice), leaf, initial)
  {
    assert LockOf(leaf) in s.locks ==> s.locks[LockOf(leaf)] != id;
    LeafUnaffected(s, LockStep(s, id, choice), leaf, initial);
  }

  lemma LeafAfterOtherTaking(s: State, id: Id, leaf: Path, initial: Option<Bytes>)
    requires LocksOk(s) && LeafOk(s, leaf, initial) && id in s.calls && !Holding(s.calls[id])
    requires s.calls[id].path != leaf && s.calls[id].handle !in s.locks
    ensures LeafOk(Acquired(s, id), leaf, initial)
  {
    LockPathsInjective(s.calls[id].path, leaf);
    OrderAppend(s.order, s.calls[id].path, id, leaf);
    assert LockOf(leaf) in s.locks ==> s.locks[LockOf(leaf)] != id;
    LeafUnaffected(s, Acquired(s, id), leaf, initial);
  }

  /** The entry a release writes is justified by what was known about the holder, also when the holder has died. */
  lemma ReleaseIsJustified(c: Call, id: Id, answer: Answer, before: Option<Bytes>, content: Option<Bytes>)
    requires HolderOk(c, before, content)
    requires answer.Lost? || c.pc == Releasing(answer) || (answer.Failed? && c.pc.Releasing? && c.pc.answer.Exchanged?)
    ensures var entry := LogEntry(id, c.path, c.op.expected, c.op.replacement, answer, c.applied);
            Justified(before, entry) && After(before, entry) == content
  {
  }

  lemma LeafAfterOwnRelease(s: State, id: Id, answer: Answer, leaf: Path, initial: Option<Bytes>)
    requires LeafOk(s, leaf, initial) && id in s.calls && Holding(s.calls[id])
    requires s.calls[id].path == leaf && s.calls[id].handle == LockOf(leaf)
    requires LockOf(leaf) in s.locks && s.locks[LockOf(leaf)] == id
    requires answer.Lost? || s.calls[id].pc == Releasing(answer)
             || (answer.Failed? && s.calls[id].pc.Releasing? && s.calls[id].pc.answer.Exchanged?)
    ensures LeafOk(Released(s, id, answer), leaf, initial)
  {
    var c, after := s.calls[id], Released(s, id, answer);
    var entry := LogEntry(id, c.path, c.op.expected, c.op.replacement, answer, c.applied);
    var before, log := LogOf(s.log, leaf), LogOf(after.log, leaf);
    LogAppend(s.log, entry, leaf);
    assert log[..|log| - 1] == before;
    ReleaseIsJustified(c, id, answer, Final(initial, before), Get(s.files, leaf));
    assert Ids(log) + [] == Ids(before) + [id];
  }

  lemma LeafAfterOtherRelease(s: State, id: Id, answer: Answer, leaf: Path, initial: Option<Bytes>)
    requires LocksOk(s) && LeafOk(s, leaf, initial) && id in s.calls && Holding(s.calls[id])
    requires s.calls[id].path != leaf
    ensures LeafOk(Released(s, id, answer), leaf, initial)
  {
    var after := Released(s, id, answer);
    LockPathsInjective(s.calls[id].path, leaf);
    LogAppend(s.log, after.log[|s.log|], leaf);
    if LockOf(leaf) in s.locks {
      HolderOfLeaf(s, leaf);
    }
    LeafUnaffected(s, after, leaf, initial);
  }

  lemma LeafAfterRelease(s: State, id: Id, answer: Answer, leaf: Path, initial: Option<Bytes>)
    requires LocksOk(s) && LockKept(s, leaf) && LeafOk(s, leaf, initial)
    requires id in s.calls && Holding(s.calls[id])
    requires answer.Lost? || s.calls[id].pc == Releasing(answer)
             || (answer.Failed? && s.calls[id].pc.Releasing? && s.calls[id].pc.answer.Exchanged?)
    ensures LeafOk(Released(s, id, answer), leaf, initial)
  {
    if s.calls[id].path == leaf {
      LeafAfterOwnRelease(s, id, answer, leaf, initial);
    } else {
      LeafAfterOtherRelease(s, id, answer, leaf, initial);
    }
  }

  lemma LeafAfterLockStep(s: State, id: Id, choice: Choice, leaf: Path, initial: Option<Bytes>)
    requires SystemOk(s) && LockKept(s, leaf) && LeafOk(s, leaf, initial)
    requires id in s.calls && AtLock(s.calls[id])
    ensures LeafOk(LockStep(s, id, choice), leaf, initial)
  {
    var c := s.calls[id];
    assert CallShape(c);
    if c.pc.Releasing? {
      LeafAfterRelease(s, id, if choice.ioError && c.pc.answer.Exchanged? then Failed else c.pc.answer, leaf, initial);
    } else if choice.ioError || c.pc.Invoked? || c.handle in s.locks {
      LeafAfterOpening(s, id, choice, leaf, initial);
    } else if c.path == leaf {
      LeafAfterTaking(s, id, leaf, initial);
    } else {
      LeafAfterOtherTaking(s, id, leaf, initial);
    }
  }

  lemma LeafAfterCrash(s: State, id: Id, leaf: Path, initial: Option<Bytes>)
    requires LocksOk(s) && LockKept(s, leaf) && LeafOk(s, leaf, initial)
    ensures LeafOk(Crashed(s, id), leaf, initial)
  {
    if id in s.calls && !s.calls[id].pc.Finished? {
      if Holding(s.calls[id]) {
        LeafAfterRelease(s, id, Lost, leaf, initial);
      } else {
        assert LockOf(leaf) in s.locks ==> s.locks[LockOf(leaf)] != id;
        LeafUnaffected(s, Ended(s, id, Lost), leaf, initial);
      }
    }
  }

  lemma LeafAfterInvoke(s: State, e: Event, leaf: Path, initial: Option<Bytes>)
    requires LeafOk(s, leaf, initial) && e.Invoke?
    ensures LeafOk(Next(s, e), leaf, initial)
  {
    LeafUnaffected(s, Next(s, e), leaf, initial);
  }

  /**
   No caller of this event writes `leaf` other than by compare-exchange, touches its lock file, or uses `leaf`
   as the lock file of another leaf.
   */
  predicate CasEvent(e: Event, leaf: Path) {
    e.Invoke? ==>
      && (e.path == leaf ==> e.op.CompareExchange?)
      && e.path != LockPath(leaf)
      && (e.op.CompareExchange? ==> LockPath(e.path) != leaf)
  }

  predicate LeafReserved(s: State, leaf: Path) {
    OnlyCas(s, leaf) && LockKept(s, leaf)
  }

  lemma InvokeKeepsReserved(s: State, e: Event, leaf: Path)
    requires LeafReserved(s, leaf) && e.Invoke? && CasEvent(e, leaf)
    ensures LeafReserved(Next(s, e), leaf)
  {
  }

  lemma MovedKeepsOnlyCas(s: State, after: State, id: Id, leaf: Path)
    requires OnlyCas(s, leaf) && OneCallMoved(s, after, id)
    ensures OnlyCas(after, leaf)
  {
  }

  lemma MovedKeepsLock(s: State, after: State, id: Id, leaf: Path)
    requires LocksOk(s) && LockKept(s, leaf) && OneCallMoved(s, after, id)
    requires VersionOf(after.versions, LockPath(leaf)) == VersionOf(s.versions, LockPath(leaf))
    requires id in s.calls ==> OpensOrKeeps(s, s.calls[id], after.calls[id])
    ensures LockKept(after, leaf)
  {
  }

  lemma WorkMovesOne(s: State, id: Id, choice: Choice, leaf: Path)
    requires AllShapes(s) && LocksOk(s) && id in s.calls && !AtLock(s.calls[id]) && s.calls[id].path != leaf
    ensures CallShape(s.calls[id]) && OneCallMoved(s, Worked(s, id, choice), id)
    ensures Worked(s, id, choice).calls[id].handle == s.calls[id].handle
    ensures VersionOf(Worked(s, id, choice).versions, leaf) == VersionOf(s.versions, leaf)
  {
    assert CallShape(s.calls[id]);
    WorkKeepsIdentity(s.files, s.calls[id], choice);
  }

  lemma NextKeepsReserved(s: State, e: Event, leaf: Path)
    requires SystemOk(s) && LeafReserved(s, leaf) && CasEvent(e, leaf)
    ensures LeafReserved(Next(s, e), leaf)
  {
    if e.Invoke? {
      InvokeKeepsReserved(s, e, leaf);
    } else {
      if IsWork(s, e) {
        WorkStepIs(s, e);
        WorkMovesOne(s, e.id, e.choice, LockPath(leaf));
      } else {
        AsideIs(s, e);
        AsideEffects(s, e);
      }
      MovedKeepsOnlyCas(s, Next(s, e), e.id, leaf);
      MovedKeepsLock(s, Next(s, e), e.id, leaf);
    }
  }

  lemma NextKeepsLeaf(s: State, e: Event, leaf: Path, initial: Option<Bytes>)
    requires SystemOk(s) && Tidy(s, DirOf(leaf)) && LeafReserved(s, leaf) && LeafOk(s, leaf, initial)
    requires CasEvent(e, leaf) && !InTempNamespace(leaf)
    ensures LeafOk(Next(s, e), leaf, initial)
  {
    if e.Invoke? {
      LeafAfterInvoke(s, e, leaf, initial);
    } else if IsWork(s, e) {
      WorkStepIs(s, e);
      LeafAfterWork(s, e, leaf, initial);
    } else {
      AsideIs(s, e);
      if e.Crash? {
        LeafAfterCrash(s, e.id, leaf, initial);
      } else if e.id in s.calls {
        LeafAfterLockStep(s, e.id, e.choice, leaf, initial);
      }
    }
  }

  /** One call moved on without entering or leaving the order or the history. */
  lemma HistoryUnaffected(s: State, after: State, id: Id, c: Call, leaf: Path)
    requires HistoryOk(s, leaf) && id in s.calls && after.calls == s.calls[id := c]
    requires after.order == s.order && after.log == s.log && SameTarget(c, s.calls[id])
    requires s.calls[id].pc.Finished? ==> c == s.calls[id]
    requires HasBegun(s.calls[id]) ==> HasBegun(c)
    requires HasCounted(c) ==> HasCounted(s.calls[id])
    ensures HistoryOk(after, leaf)
  {
  }

  /** A step under the lock neither begins nor ends a call. */
  lemma WorkKeepsCounted(files: Files, c: Call, choice: Choice)
    requires CallShape(c) && c.op.CompareExchange? && !AtLock(c)
    ensures var after := Work(files, c, choice).1;
            && SameTarget(after, c) && HasBegun(c) && HasBegun(after)
            && (c.pc.Finished? ==> after == c) && (HasCounted(after) ==> HasCounted(c))
  {
  }

  lemma HistoryAfterWork(s: State, e: Event, leaf: Path)
    requires OnlyCas(s, leaf) && HistoryOk(s, leaf) && IsWork(s, e) && CallShape(s.calls[e.id])
    ensures HistoryOk(Worked(s, e.id, e.choice), leaf)
  {
    var c, after := s.calls[e.id], Worked(s, e.id, e.choice);
    if c.op.CompareExchange? {
      WorkKeepsCounted(s.files, c, e.choice);
      HistoryUnaffected(s, after, e.id, after.calls[e.id], leaf);
    } else {
      WorkKeepsIdentity(s.files, c, e.choice);
      HistoryOfOthers(s, after, e.id, leaf);
    }
  }

  lemma HistoryOfOthers(s: State, after: State, id: Id, leaf: Path)
    requires OnlyCas(s, leaf) && HistoryOk(s, leaf) && OneCallMoved(s, after, id)
    requires id in s.calls && !s.calls[id].op.CompareExchange?
    requires after.order == s.order && after.log == s.log
    ensures HistoryOk(after, leaf)
  {
  }

  lemma NoRepeatsSnoc(ids: seq<Id>, id: Id)
    requires NoRepeats(ids) && id !in ids
    ensures NoRepeats(ids + [id])
  {
  }

  /** One call has taken its lock; if it is a call on the leaf it comes last in the order. */
  lemma HistoryGrows(s: State, after: State, id: Id, c: Call, leaf: Path)
    requires HistoryOk(s, leaf) && id in s.calls && !HasBegun(s.calls[id])
    requires after.calls == s.calls[id := c] && SameTarget(c, s.calls[id])
    requires HasBegun(c) && c.op.CompareExchange? && LogOf(after.log, leaf) == LogOf(s.log, leaf)
    requires OrderOf(after.order, leaf) == OrderOf(s.order, leaf) + (if c.path == leaf then [id] else [])
    ensures HistoryOk(after, leaf)
  {
    var ids := OrderOf(s.order, leaf);
    assert id !in ids;
    NoRepeatsSnoc(ids, id);
    assert ids + [] == ids;
    forall k | 0 <= k < |LogOf(s.log, leaf)| ensures IsAnswered(after, leaf, LogOf(s.log, leaf)[k]) {
      assert IsAnswered(s, leaf, LogOf(s.log, leaf)[k]);
    }
  }

  lemma HistoryAfterTaking(s: State, id: Id, leaf: Path)
    requires HistoryOk(s, leaf) && id in s.calls && s.calls[id].pc.Waiting? && s.calls[id].op.CompareExchange?
    ensures HistoryOk(Acquired(s, id), leaf)
  {
    OrderAppend(s.order, s.calls[id].path, id, leaf);
    HistoryGrows(s, Acquired(s, id), id, s.calls[id].(pc := Locked), leaf);
  }

  lemma ReleaseKeepsOrder(s: State, id: Id, c: Call, after: State, leaf: Path, more: seq<LogEntry>)
    requires HistoryOk(s, leaf) && id in s.calls && HasBegun(s.calls[id]) && !s.calls[id].pc.Finished?
    requires HasBegun(c) && SameTarget(c, s.calls[id])
    requires after.calls == s.calls[id := c] && after.order == s.order
    requires LogOf(after.log, leaf) == LogOf(s.log, leaf) + more
    requires forall entry | entry in more :: IsAnswered(after, leaf, entry)
    ensures HistoryOk(after, leaf)
  {
    var log := LogOf(s.log, leaf);
    forall k | 0 <= k < |log| ensures IsAnswered(after, leaf, log[k]) {
      assert IsAnswered(s, leaf, log[k]);
    }
  }

  lemma HistoryAfterRelease(s: State, id: Id, answer: Answer, leaf: Path)
    requires HistoryOk(s, leaf) && id in s.calls && Holding(s.calls[id])
    ensures HistoryOk(Released(s, id, answer), leaf)
  {
    var c, after := s.calls[id], Released(s, id, answer);
    var entry := LogEntry(id, c.path, c.op.expected, c.op.replacement, answer, c.applied);
    LogAppend(s.log, entry, leaf);
    assert c.path == leaf ==> IsAnswered(after, leaf, entry);
    ReleaseKeepsOrder(s, id, after.calls[id], after, leaf, if c.path == leaf then [entry] else []);
  }

  lemma HistoryAfterAside(s: State, e: Event, leaf: Path)
    requires AllShapes(s) && LocksOk(s) && OnlyCas(s, leaf) && HistoryOk(s, leaf) && !e.Invoke? && !IsWork(s, e)
    ensures HistoryOk(Aside(s, e), leaf)
  {
    if e.id in s.calls {
      var c := s.calls[e.id];
      assert CallShape(c);
      if e.Crash? && Holding(c) {
        HistoryAfterRelease(s, e.id, Lost, leaf);
      } else if e.Crash? && !c.pc.Finished? {
        HistoryAfterDeath(s, e.id, leaf);
      } else if e.Act? && c.pc.Releasing? {
        HistoryAfterRelease(s, e.id, if e.choice.ioError && c.pc.answer.Exchanged? then Failed else c.pc.answer, leaf);
      } else if e.Act? && e.choice.ioError {
        HistoryUnaffected(s, Ended(s, e.id, Failed), e.id, c.(pc := Finished(Failed)), leaf);
      } else if e.Act? && c.pc.Invoked? {
        HistoryUnaffected(s, Opened(s, e.id), e.id, Opened(s, e.id).calls[e.id], leaf);
      } else if e.Act? && c.handle !in s.locks {
        HistoryAfterTaking(s, e.id, leaf);
      }
    }
  }

  lemma HistoryAfterDeath(s: State, id: Id, leaf: Path)
    requires OnlyCas(s, leaf) && HistoryOk(s, leaf)
    requires id in s.calls && CallShape(s.calls[id]) && !Holding(s.calls[id]) && !s.calls[id].pc.Finished?
    ensures HistoryOk(Ended(s, id, Lost), leaf)
  {
    if s.calls[id].op.CompareExchange? {
      HistoryUnaffected(s, Ended(s, id, Lost), id, s.calls[id].(pc := Finished(Lost)), leaf);
    } else {
      HistoryOfOthers(s, Ended(s, id, Lost), id, leaf);
    }
  }

  lemma HistoryAfterInvoke(s: State, e: Event, leaf: Path)
    requires HistoryOk(s, leaf) && e.Invoke?
    ensures HistoryOk(Next(s, e), leaf)
  {
    var after := Next(s, e);
    assert after.order == s.order && after.log == s.log;
    assert forall id | id in s.calls :: id in after.calls && after.calls[id] == s.calls[id];
    assert forall id | id in after.calls && id !in s.calls :: after.calls[id].pc.Invoked?;
  }

  lemma NextKeepsHistory(s: State, e: Event, leaf: Path)
    requires SystemOk(s) && OnlyCas(s, leaf) && HistoryOk(s, leaf)
    ensures HistoryOk(Next(s, e), leaf)
  {
    if e.Invoke? {
      HistoryAfterInvoke(s, e, leaf);
    } else if IsWork(s, e) {
      WorkStepIs(s, e);
      HistoryAfterWork(s, e, leaf);
    } else {
      AsideIs(s, e);
      HistoryAfterAside(s, e, leaf);
    }
  }

  /**
   The assumptions on a run under which the answers for `leaf` are claimed to be linearizable; what the callers do
   in other directories is free but for its lock file.
   */
  ghost predicate FairPlay(events: seq<Event>, leaf: Path) {
    && !InTempNamespace(leaf)
    && forall k | 0 <= k < |events| :: DisciplinedIn(events[k], DirOf(leaf)) && CasEvent(events[k], leaf)
  }

  lemma {:induction false} LeafInvariant(files: Files, events: seq<Event>, leaf: Path)
    requires FairPlay(events, leaf)
    ensures var s := Run(Start(files), events);
            SystemOk(s) && LeafReserved(s, leaf) && LeafOk(s, leaf, Get(files, leaf)) && HistoryOk(s, leaf)
  {
    SystemInvariant(files, events);
    if events == [] {
      assert Ids([]) == [];
    } else {
      var front, last := events[..|events| - 1], events[|events| - 1];
      var s := Run(Start(files), front);
      LeafInvariant(files, front, leaf);
      TidyInvariant(files, front, DirOf(leaf));
      NextKeepsReserved(s, last, leaf);
      NextKeepsLeaf(s, last, leaf, Get(files, leaf));
      NextKeepsHistory(s, last, leaf);
    }
  }

  /** The history of `leaf` explains the state, entry by entry. */
  predicate Linearized(s: State, leaf: Path, initial: Option<Bytes>, log: seq<LogEntry>) {
    && Explained(initial, log)
    && NoRepeats(Ids(log)) && NoRepeats(OrderOf(s.order, leaf)) && Ids(log) <= OrderOf(s.order, leaf)
    && (LockOf(leaf) !in s.locks ==> Ids(log) == OrderOf(s.order, leaf) && Get(s.files, leaf) == Final(initial, log))
    && (forall k | 0 <= k < |log| :: IsAnswered(s, leaf, log[k]))
    && (forall id | id in s.calls && s.calls[id].path == leaf && s.calls[id].pc.Finished?
                    && !Uncertain(s.calls[id].pc.answer) :: id in Ids(log))
  }

  /**
   Compare-exchange is linearizable on every leaf that is written by compare-exchange only and whose lock file
   nobody touches. In every state of every run, the released calls, taken in the order in which they acquired
   the lock, each occur once and got exactly the answers of the atomic operation; while the lock is free the
   leaf holds their final content; and every call that was given a certain answer is one of them.
   */
  lemma CompareExchangeIsLinearizable(files: Files, events: seq<Event>, leaf: Path)
    requires FairPlay(events, leaf)
    ensures var s := Run(Start(files), events);
            Linearized(s, leaf, Get(files, leaf), LogOf(s.log, leaf))
  {
    LeafInvariant(files, events, leaf);
    HistoryIsLinearized(Run(Start(files), events), leaf, Get(files, leaf));
  }

  lemma PrefixHasNoRepeats(front: seq<Id>, ids: seq<Id>)
    requires front <= ids && NoRepeats(ids)
    ensures NoRepeats(front)
  {
    assert forall k | 0 <= k < |front| :: front[k] == ids[k];
  }

  lemma FinishedIsLogged(s: State, leaf: Path, initial: Option<Bytes>, id: Id)
    requires LocksOk(s) && LeafOk(s, leaf, initial)
    requires id in OrderOf(s.order, leaf) && id in s.calls && s.calls[id].pc.Finished?
    ensures id in Ids(LogOf(s.log, leaf))
  {
  }

  lemma HistoryIsLinearized(s: State, leaf: Path, initial: Option<Bytes>)
    requires LocksOk(s) && LeafOk(s, leaf, initial) && HistoryOk(s, leaf)
    ensures Linearized(s, leaf, initial, LogOf(s.log, leaf))
  {
    var ids := Ids(LogOf(s.log, leaf));
    assert ids <= OrderOf(s.order, leaf);
    PrefixHasNoRepeats(ids, OrderOf(s.order, leaf));
    assert LockOf(leaf) !in s.locks ==> ids + [] == ids;
    forall id | id in s.calls && s.calls[id].path == leaf
                && s.calls[id].pc.Finished? && !Uncertain(s.calls[id].pc.answer)
      ensures id in ids
    {
      FinishedIsLogged(s, leaf, initial, id);
    }
  }

  // ---------- The order respects real time ----------

  lemma InvokeKeepsOrder(s: State, e: Event)
    requires e.Invoke?
    ensures Next(s, e).order == s.order
  {
  }

  lemma StepExtendsOrder(s: State, e: Event)
    requires AllShapes(s)
    ensures s.order <= Next(s, e).order
  {
    if e.Invoke? {
      InvokeKeepsOrder(s, e);
    } else if IsWork(s, e) {
      WorkStepIs(s, e);
    } else {
      AsideIs(s, e);
      AsideEffects(s, e);
    }
  }

  /** Moments of one run: what has been ordered by the earlier one stays so. */
  lemma {:induction false} OrderGrows(files: Files, events: seq<Event>, k: nat)
    requires k <= |events|
    ensures Run(Start(files), events[..k]).order <= Run(Start(files), events).order
    decreases |events|
  {
    if k == |events| {
      assert events[..k] == events;
    } else {
      var front := events[..|events| - 1];
      OrderGrows(files, front, k);
      assert front[..k] == events[..k];
      SystemInvariant(files, front);
      StepExtendsOrder(Run(Start(files), front), events[|events| - 1]);
    }
  }

  lemma {:induction false} OrderOfPrefix(a: seq<(Path, Id)>, b: seq<(Path, Id)>, leaf: Path)
    requires a <= b
    ensures OrderOf(a, leaf) <= OrderOf(b, leaf)
    decreases |b|
  {
    if a != b {
      OrderOfPrefix(a, b[..|b| - 1], leaf);
    }
  }

  predicate Precedes(ids: seq<Id>, a: Id, b: Id) {
    exists i, j :: 0 <= i < j < |ids| && ids[i] == a && ids[j] == b
  }

  lemma PrefixPrecedes(front: seq<Id>, ids: seq<Id>, a: Id, b: Id)
    requires front <= ids && a in front && b !in front && b in ids
    ensures Precedes(ids, a, b)
  {
    var i :| 0 <= i < |front| && front[i] == a;
    var j :| 0 <= j < |ids| && ids[j] == b;
    assert forall m | 0 <= m < |front| :: ids[m] == front[m] && front[m] in front;
  }

  /** The call has taken effect on its leaf, or has been answered with certainty. */
  predicate HasTakenEffect(c: Call) {
    c.applied || (c.pc.Finished? && !Uncertain(c.pc.answer))
  }

  lemma EarlierIsOrdered(early: State, leaf: Path, order: seq<Id>, a: Id, b: Id)
    requires AllShapes(early) && HistoryOk(early, leaf) && OrderOf(early.order, leaf) <= order
    requires b !in early.calls && a in early.calls && early.calls[a].path == leaf && HasTakenEffect(early.calls[a])
    requires b in order
    ensures Precedes(order, a, b)
  {
    assert CallShape(early.calls[a]);
    PrefixPrecedes(OrderOf(early.order, leaf), order, a, b);
  }

  /**
   A call that has taken effect, whatever its caller is told, or has been answered with certainty, before another
   was even invoked, comes before it.
   */
  lemma RealTimeOrder(files: Files, events: seq<Event>, leaf: Path, k: nat, a: Id, b: Id)
    requires FairPlay(events, leaf) && k <= |events|
    requires var early := Run(Start(files), events[..k]);
             && b !in early.calls && a in early.calls && early.calls[a].path == leaf
             && HasTakenEffect(early.calls[a])
    requires b in OrderOf(Run(Start(files), events).order, leaf)
    ensures Precedes(OrderOf(Run(Start(files), events).order, leaf), a, b)
  {
    LeafInvariant(files, events[..k], leaf);
    OrderGrows(files, events, k);
    OrderOfPrefix(Run(Start(files), events[..k]).order, Run(Start(files), events).order, leaf);
    EarlierIsOrdered(Run(Start(files), events[..k]), leaf, OrderOf(Run(Start(files), events).order, leaf), a, b);
  }

  // ---------- One winner ----------

  predicate Wins(answer: Answer) {
    answer == Exchanged(true, None)
  }

  /** The entry of a caller that wants to create an absent leaf. */
  predicate Claims(entry: LogEntry) {
    entry.expected.None? && entry.replacement.Some?
  }

  lemma {:induction false} AtMostOneEntryWins(log: seq<LogEntry>)
    requires Explained(None, log) && forall k | 0 <= k < |log| :: Claims(log[k])
    ensures Final(None, log).None? ==> forall k | 0 <= k < |log| :: !Wins(log[k].answer)
    ensures forall i, j | 0 <= i < |log| && 0 <= j < |log| && Wins(log[i].answer) && Wins(log[j].answer) :: i == j
  {
    if log != [] {
      var front, last := log[..|log| - 1], log[|log| - 1];
      AtMostOneEntryWins(front);
      assert forall k | 0 <= k < |front| :: front[k] == log[k];
      assert Claims(last) && Justified(Final(None, front), last);
    }
  }

  lemma {:induction false} SomeEntryWins(log: seq<LogEntry>)
    requires Explained(None, log) && forall k | 0 <= k < |log| :: Claims(log[k])
    requires forall k | 0 <= k < |log| :: Uncertain(log[k].answer) ==> !log[k].applied
    ensures Final(None, log).None? ==> forall k | 0 <= k < |log| :: !log[k].answer.Exchanged?
    ensures Final(None, log).Some? ==> exists k :: 0 <= k < |log| && Wins(log[k].answer)
  {
    if log != [] {
      var front, last := log[..|log| - 1], log[|log| - 1];
      SomeEntryWins(front);
      assert forall k | 0 <= k < |front| :: front[k] == log[k];
      assert Claims(last) && Justified(Final(None, front), last);
      if Final(None, front).Some? {
        var k :| 0 <= k < |front| && Wins(front[k].answer);
        assert Wins(log[k].answer);
      } else if last.answer.Exchanged? {
        assert Wins(log[|log| - 1].answer);
      }
    }
  }

  /** An operation that creates a leaf if it is absent. */
  predicate IsClaim(op: Op) {
    op.CompareExchange? && op.expected.None? && op.replacement.Some?
  }

  predicate AllClaim(s: State, leaf: Path) {
    forall id | id in s.calls && s.calls[id].path == leaf :: IsClaim(s.calls[id].op)
  }

  /** A call on the leaf that has returned with an exchange answer, whether or not it won. */
  predicate HasAnswer(s: State, leaf: Path, id: Id) {
    id in s.calls && s.calls[id].path == leaf && s.calls[id].pc.Finished? && s.calls[id].pc.answer.Exchanged?
  }

  predicate HasWon(s: State, leaf: Path, id: Id) {
    HasAnswer(s, leaf, id) && Wins(s.calls[id].pc.answer)
  }

  /** A call on the leaf whose caller cannot know that its exchange took place. */
  predicate HasWonUnawares(s: State, leaf: Path, id: Id) {
    id in s.calls && s.calls[id].path == leaf && s.calls[id].applied
    && s.calls[id].pc.Finished? && Uncertain(s.calls[id].pc.answer)
  }

  lemma AnsweredIsLogged(s: State, leaf: Path, log: seq<LogEntry>, id: Id) returns (k: nat)
    requires Linearized(s, leaf, None, log) && HasAnswer(s, leaf, id)
    ensures k < |log| && log[k].id == id && log[k].answer == s.calls[id].pc.answer
  {
    assert id in Ids(log);
    k :| 0 <= k < |Ids(log)| && Ids(log)[k] == id;
    assert IsAnswered(s, leaf, log[k]);
  }

  lemma WinnersAgree(s: State, leaf: Path, log: seq<LogEntry>, a: Id, b: Id)
    requires Linearized(s, leaf, None, log) && AllClaim(s, leaf)
    requires HasWon(s, leaf, a) && HasWon(s, leaf, b)
    ensures a == b
  {
    assert forall k | 0 <= k < |log| :: IsAnswered(s, leaf, log[k]);
    AtMostOneEntryWins(log);
    var i := AnsweredIsLogged(s, leaf, log, a);
    var j := AnsweredIsLogged(s, leaf, log, b);
    assert i == j;
  }

  lemma SomeoneWins(s: State, leaf: Path, log: seq<LogEntry>, id: Id) returns (winner: Id)
    requires Linearized(s, leaf, None, log) && AllClaim(s, leaf)
    requires HasAnswer(s, leaf, id) && forall other | other in s.calls :: !HasWonUnawares(s, leaf, other)
    ensures HasWon(s, leaf, winner)
  {
    assert forall k | 0 <= k < |log| :: IsAnswered(s, leaf, log[k]);
    assert forall k | 0 <= k < |log| :: !HasWonUnawares(s, leaf, log[k].id);
    SomeEntryWins(log);
    var k := AnsweredIsLogged(s, leaf, log, id);
    var won :| 0 <= won < |log| && Wins(log[won].answer);
    winner := log[won].id;
  }

  /**
   Of any number of callers that claim an absent leaf at most one is ever told that it won. As soon as one has
   been given an exchange answer, someone has been told so, or an I/O error or death hid it from the winner.
   */
  lemma ExactlyOneWinner(files: Files, events: seq<Event>, leaf: Path)
    requires FairPlay(events, leaf) && leaf !in files && AllClaim(Run(Start(files), events), leaf)
    ensures var s := Run(Start(files), events);
            && (forall a, b | HasWon(s, leaf, a) && HasWon(s, leaf, b) :: a == b)
            && (forall id | HasAnswer(s, leaf, id) ::
                  exists winner :: HasWon(s, leaf, winner) || HasWonUnawares(s, leaf, winner))
  {
    CompareExchangeIsLinearizable(files, events, leaf);
    var s := Run(Start(files), events);
    forall a, b | HasWon(s, leaf, a) && HasWon(s, leaf, b) ensures a == b {
      WinnersAgree(s, leaf, LogOf(s.log, leaf), a, b);
    }
    forall id | HasAnswer(s, leaf, id)
      ensures exists winner :: HasWon(s, leaf, winner) || HasWonUnawares(s, leaf, winner)
    {
      if forall other | other in s.calls :: !HasWonUnawares(s, leaf, other) {
        var winner := SomeoneWins(s, leaf, LogOf(s.log, leaf), id);
      }
    }
  }

  // ---------- Refinement of the in-memory port ----------

  /** The in-memory store that holds `content` at `leaf` and nothing else. */
  function StoreOf(leaf: Path, content: Option<Bytes>): HostDir.Store {
    match content
    case Some(bytes) => map[leaf := HostDir.File(bytes)]
    case None => map[]
  }

  /** The call on the in-memory port that does what the entry says; a call without effect is one cancelled late. */
  function RequestOf(entry: LogEntry): HostDir.Request {
    HostDir.CompareExchange(entry.path, entry.expected, entry.replacement, false,
                            entry.answer.Cancelled? || (Uncertain(entry.answer) && !entry.applied))
  }

  function CallsOf(log: seq<LogEntry>): (calls: seq<(Path, HostDir.Request)>)
    ensures |calls| == |log|
  {
    seq(|log|, k requires 0 <= k < |log| => ([], RequestOf(log[k])))
  }

  function ReplyOf(answer: Answer): HostDir.Reply {
    match answer
    case Exchanged(exchanged, observed) => HostDir.Exchanged(exchanged, observed)
    case _ => HostDir.Refused(HostDir.Cancelled)
  }

  lemma OneLeafStore(quota: nat, leaf: Path, content: Option<Bytes>, bytes: Bytes, success: HostDir.Reply)
    requires |bytes| <= quota
    ensures HostDir.Write(quota, StoreOf(leaf, content), leaf, bytes, success) == (StoreOf(leaf, Some(bytes)), success)
  {
    HostDir.UsedInsert(map[], leaf, HostDir.File(bytes));
    assert StoreOf(leaf, content)[leaf := HostDir.File(bytes)] == map[leaf := HostDir.File(bytes)];
  }

  /** The quota has room for what the entry writes. */
  predicate HasRoom(entry: LogEntry, quota: nat) {
    entry.replacement.Some? ==> |entry.replacement.value| <= quota
  }

  predicate Fits(entry: LogEntry, leaf: Path, quota: nat) {
    entry.path == leaf && HasRoom(entry, quota)
  }

  /** One justified entry is one call on the in-memory port; the reply is the answer unless that is uncertain. */
  lemma EntryRefinesCall(quota: nat, leaf: Path, content: Option<Bytes>, entry: LogEntry)
    requires leaf != [] && LegalPath(leaf) && Fits(entry, leaf, quota) && Justified(content, entry)
    ensures var (store, reply) := HostDir.Apply([], quota, StoreOf(leaf, content), RequestOf(entry));
            store == StoreOf(leaf, After(content, entry)) && (Uncertain(entry.answer) || reply == ReplyOf(entry.answer))
  {
    assert [] + leaf == leaf;
    if content == entry.expected {
      match entry.replacement
      case Some(bytes) =>
        OneLeafStore(quota, leaf, content, bytes, HostDir.Exchanged(true, content));
      case None =>
        assert StoreOf(leaf, content) - {leaf} == map[];
    }
  }

  lemma {:induction false} RunSnoc(quota: nat, store: HostDir.Store, calls: seq<(Path, HostDir.Request)>,
                                   call: (Path, HostDir.Request))
    ensures HostDir.Run(quota, store, calls + [call])
         == HostDir.Apply(call.0, quota, HostDir.Run(quota, store, calls), call.1).0
    decreases |calls|
  {
    if calls == [] {
      assert [call][1..] == [];
      assert [] + [call] == [call];
    } else {
      assert (calls + [call])[1..] == calls[1..] + [call];
      RunSnoc(quota, HostDir.Apply(calls[0].0, quota, store, calls[0].1).0, calls[1..], call);
    }
  }

  /** The store after the history has been replayed, call by call, on an in-memory port that held the leaf only. */
  ghost function Replayed(quota: nat, leaf: Path, initial: Option<Bytes>, log: seq<LogEntry>): HostDir.Store {
    HostDir.Run(quota, StoreOf(leaf, initial), CallsOf(log))
  }

  /** Replaying an explained history on the in-memory port leads to the recorded contents, and to the last answer. */
  lemma {:induction false} HistoryRefinesMemoryPort(quota: nat, leaf: Path, initial: Option<Bytes>, log: seq<LogEntry>)
    requires leaf != [] && LegalPath(leaf) && Explained(initial, log)
    requires forall k | 0 <= k < |log| :: Fits(log[k], leaf, quota)
    ensures Replayed(quota, leaf, initial, log) == StoreOf(leaf, Final(initial, log))
    ensures log != [] ==> RepliesAsRecorded(quota, leaf, initial, log, |log| - 1)
  {
    if log != [] {
      var front, last := log[..|log| - 1], log[|log| - 1];
      assert forall k | 0 <= k < |front| :: front[k] == log[k];
      HistoryRefinesMemoryPort(quota, leaf, initial, front);
      assert CallsOf(log) == CallsOf(front) + [([], RequestOf(last))];
      RunSnoc(quota, StoreOf(leaf, initial), CallsOf(front), ([], RequestOf(last)));
      EntryRefinesCall(quota, leaf, Final(initial, front), last);
    }
  }

  /** The in-memory port answers the `k`th call of the replay as its caller was answered, if that is certain. */
  ghost predicate RepliesAsRecorded(quota: nat, leaf: Path, initial: Option<Bytes>, log: seq<LogEntry>, k: nat)
    requires k < |log|
  {
    Uncertain(log[k].answer) ||
    HostDir.Apply([], quota, Replayed(quota, leaf, initial, log[..k]), RequestOf(log[k])).1 == ReplyOf(log[k].answer)
  }

  lemma {:induction false} ExplainedUpTo(content: Option<Bytes>, log: seq<LogEntry>, k: nat)
    requires Explained(content, log) && k <= |log|
    ensures Explained(content, log[..k])
  {
    if k < |log| {
      ExplainedUpTo(content, log[..|log| - 1], k);
      assert log[..|log| - 1][..k] == log[..k];
    } else {
      assert log[..k] == log;
    }
  }

  lemma {:induction false} LogOfLeaf(log: seq<LogEntry>, leaf: Path)
    ensures forall k | 0 <= k < |LogOf(log, leaf)| :: LogOf(log, leaf)[k].path == leaf
  {
    if log != [] {
      LogOfLeaf(log[..|log| - 1], leaf);
    }
  }

  lemma EveryReplyIsRecorded(quota: nat, leaf: Path, initial: Option<Bytes>, log: seq<LogEntry>, k: nat)
    requires leaf != [] && LegalPath(leaf) && Explained(initial, log) && k < |log|
    requires forall j | 0 <= j < |log| :: Fits(log[j], leaf, quota)
    ensures RepliesAsRecorded(quota, leaf, initial, log, k)
  {
    ExplainedUpTo(initial, log, k + 1);
    HistoryRefinesMemoryPort(quota, leaf, initial, log[..k + 1]);
    assert log[..k + 1][..k] == log[..k];
  }

  /** The in-memory port tells the same story as the callers of `leaf`. */
  ghost predicate Refines(quota: nat, s: State, leaf: Path, initial: Option<Bytes>, log: seq<LogEntry>) {
    && (forall k | 0 <= k < |log| :: RepliesAsRecorded(quota, leaf, initial, log, k))
    && (LockOf(leaf) !in s.locks ==> Replayed(quota, leaf, initial, log) == StoreOf(leaf, Get(s.files, leaf)))
  }

  predicate AllHaveRoom(log: seq<LogEntry>, quota: nat) {
    forall k | 0 <= k < |log| :: HasRoom(log[k], quota)
  }

  lemma LinearizedIsReplayed(quota: nat, s: State, leaf: Path, initial: Option<Bytes>, log: seq<LogEntry>)
    requires leaf != [] && LegalPath(leaf) && Linearized(s, leaf, initial, log) && AllHaveRoom(log, quota)
    requires forall k | 0 <= k < |log| :: log[k].path == leaf
    ensures Refines(quota, s, leaf, initial, log)
  {
    HistoryRefinesMemoryPort(quota, leaf, initial, log);
    forall k | 0 <= k < |log| ensures RepliesAsRecorded(quota, leaf, initial, log, k) {
      EveryReplyIsRecorded(quota, leaf, initial, log, k);
    }
  }

  /**
   Compare-exchange through lock, read and rename steps refines the in-memory port. The released calls of any run,
   made one after another on an in-memory port that holds just the leaf, get the answers that their callers got,
   where these are certain, and while the lock is free they leave just the leaf with the content it has, provided
   the quota has room for every replacement.
   */
  lemma CompareExchangeRefinesMemoryPort(files: Files, events: seq<Event>, leaf: Path, quota: nat)
    requires FairPlay(events, leaf) && leaf != [] && LegalPath(leaf)
    requires AllHaveRoom(LogOf(Run(Start(files), events).log, leaf), quota)
    ensures var s := Run(Start(files), events);
            Refines(quota, s, leaf, Get(files, leaf), LogOf(s.log, leaf))
  {
    CompareExchangeIsLinearizable(files, events, leaf);
    var s := Run(Start(files), events);
    LogOfLeaf(s.log, leaf);
    LinearizedIsReplayed(quota, s, leaf, Get(files, leaf), LogOf(s.log, leaf));
  }
}
