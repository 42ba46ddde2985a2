# Verification of the sim-platform state machines, codecs and storage ports

A Dafny model of the parts of `sim-platform` that have behaviour of their own: the host-directory ports and
the file-backed table on top of them, the Halo link codec and reassembler, shared output capture, the
browser and Android capsules, the platform resolver with its digest, and seeded entropy. `dafny verify
dfyconfig.toml` checks the whole project.

## How it is organised

| files | what they model |
|---|---|
| `Common`, `Paths`, `NameOrder` | octets and machine-word types, names and paths, lock-file and temporary-file names, sorted name lists |
| `HostDir` | the in-memory host-directory port: the abstract operation `Apply`, its laws over every run, and the mutable port proved equal to it |
| `HostSteps`, `HostRuns` | the Ubuntu port as interleaved atomic steps of any number of callers: the system, its invariants, and how runs are put together |
| `HostPolls`, `HostAlone` | when a poll of the cancellation token or an error must stop a call; what a call does that is left alone |
| `HostReplace`, `HostCas`, `HostLocks`, `HostExact` | atomic replace and its temporary files; linearizable compare-exchange and its refinement of the in-memory port; exactly which names each guarantee depends on |
| `LeafNames`, `FsTable`, `FsDir` | the key/value table kept as leaf files: naming, the map it refines, and the operations as they run through the port |
| `TextEdit`, `Find` | exact and line-range edits of a text leaf; bounded grep and glob |
| `HaloCodec`, `HaloCapsule` | the fragment wire format; connection, reassembly, replay refusal and the input queue |
| `OutputBudget` | two reader threads on one byte budget, and the deterministic model's `cap` |
| `Browser` | host calls, completions and live handles |
| `AndroidAudio`, `AndroidSpeech`, `AndroidCapsule` | audio sessions and routes; on-device speech; binding, restore and resumption |
| `Resolver`, `Digest` | service resolution; the FNV-1a 64 checksum |
| `Entropy`, `LinuxCapsule`, `SeededPlatform` | the xorshift stream and its two users |

Every component that updates fields in place is a class. Its methods are proved equal to a transition function
on values (`Apply`, `Work`/`Next`, `Receive`, `Dispatch`, ...), and the results about whole runs are lemmas about
that function, quantified over all sequences of events. Histories (lock order, released calls, accepted inputs,
issued calls, resumed turns, drawn entropy) are kept beside the state so that a result can speak about the run
and not only about the last step.

So that such a function cannot be wrong together with the method that is proved equal to it, what every request is
answered is stated a second time, from the requests made so far and the octets, names and numbers of the interface
(`FragmentsAreAnswered`, `CallsAreAnswered`, `RestoreAnswers`, `InputsAreAnswered`, `ExchangedIsSeen`,
`ExchangeSucceeds`, ...).

In the step system of the Ubuntu port a step is one system call or one poll of the cancellation token. Whether a
poll answers yes, whether a call fails, and how much of a write has reached the file are free choices of the
environment, and any caller may die between any two steps, which frees its lock while the others go on; so every
lemma holds for all of these. Lock files are files of the same tree, a lock belongs to the file that was opened and
not to its name, and opening and locking are two steps. Who created which temporary file, who took which lock when,
and who was told what are kept as history.

## Where the code does less than its description suggests

Each of these is modelled as the code behaves; the lemmas named state the exact condition, and where the condition
is not a test on the input alone, another shows a run or a table on which it fails.

* Temporary files lie beside their target under names that callers may use too. A replace is atomic exactly when
  neither the target nor anything that anyone names is such a name in the directory of the target
  (`StaysWholeIff`, `IntrusionTears`). A sole caller needs only that its target is no such name
  (`ReplacedAtomicallyIff`).
* A write that is cancelled removes its temporary file, but ignores a failure to do so. It leaves a file behind exactly
  in that case (`CancelledLeavesNoTrace`, `RemovalsLeaveNothing`; `CancelledMayLeave` has both runs).
* Lock files lie below the root that callers write to, so a caller may remove or replace one, and then two claimers
  can both win. For each leaf its own lock file is the only such file (`StaysExclusiveIff`,
  `IntrusionLetsBothWin`).
* Compare-exchange on a leaf is linearizable exactly when nobody names its lock file or a temporary name in its
  directory (`StaysLinearizableIff`, `DisturbanceRuns`).
* `clear` keeps keys that begin with a dot, because it works through `keys`, which hides them (`ClearEmptiesIff`,
  `DottedKeySurvives`).
* A symbol's namespace never reaches the file system (`NamespacesShareLeaves`).
* `set` writes one format whatever the extension of the existing leaf, `get` decodes by extension
  (`SetThenGetAcrossExtensions`, `SetHidesBinaryLeaf`); the map refinement is therefore stated for `siml` leaves.
* Overlapping occurrences count once. That the uniqueness test means one occurrence is true of exactly the patterns
  that cannot overlap themselves (`UniqueMeansOneOccurrenceIff`, `OverlapsCountOnce`).
* A line-range edit merges lines when the new text is not empty, does not end in a newline and lines follow
  (`ResplitIff`).
* A browser completion refused for want of handle room still uses up its call (`RefusalsChangeNothing`,
  `RefusedCompletionKeepsHandles`, `HandleLimitIsReachable`).
* The Linux entropy budget is not kept at the largest machine word, where the saturating test admits every request
  and the plain addition after it wraps, if the budgeted calls can ask for more than that word in all
  (`EntropyBudgetKeptIff`; the longest answer that the machine can provide is a parameter).
* Compare-exchange on an empty path is refused even through a child port, where the other operations work
  (`ChildIsPrefix`).
* `set` has a loop that removes leaves of other extensions; it can never remove one, because more than one
  candidate has been refused before (`FsDir.Set`).

## Model

| member | source | states |
|---|---|---|
| `HostCas.CompareExchangeIsLinearizable` | crates/sim-table-fs/src/adapters.rs:412-458 | In every state of every interleaved run, deaths of callers included, the released compare-exchanges on a leaf, each once and in the order in which they got the lock, received exactly the answers of the atomic operation; a cancelled one changed nothing, one that met an I/O error or died did nothing or its whole exchange; each entry is what its call was told; no call with a certain answer is missing; while the lock is free the leaf holds the content that order leaves. |
| `HostExact.StaysLinearizableIff` | crates/sim-table-fs/src/adapters.rs:378-458 | For a leaf that is neither a temporary name nor in the directory of lock files: the compare-exchanges of any number of callers on it are linearizable, whatever anyone does with any set of other names, exactly when that set holds neither the lock file of the leaf nor one of the names `.sim-replace-<pid>-<n>` with n below 64 in its directory. |
| `HostExact.DisturbanceRuns` | crates/sim-table-fs/src/adapters.rs:386-405 | The concrete run: a claimer is about to rename its temporary file, another caller removes that file, a third one replaces it and so creates it anew, and the claimer renames the empty file onto the leaf and is told that its exchange took place. |
| `HostCas.ExactlyOneWinner` | crates/sim-table-fs/src/adapters.rs:412-458 | Of any number of callers that claim an absent leaf at most one is ever told that it won; once one has been given an exchange answer, someone was told so, or an I/O error or death hid it from the winner. |
| `HostLocks.StaysExclusiveIff` | crates/sim-table-fs/src/adapters.rs:292-315 | The lock file lies in the same tree as the leaves. Whatever others do with any set of names that does not hold the leaf, its claimers' temporary names included, no two claimers of the leaf win, exactly when that set does not hold the lock file of the leaf. |
| `HostLocks.IntrusionLetsBothWin` | crates/sim-table-fs/src/adapters.rs:412-458 | The concrete run: one claimer has read, another caller removes the lock file, a second claimer locks a new one, and both are told that they won. |
| `HostCas.RealTimeOrder` | crates/sim-table-fs/src/adapters.rs:412-458 | A call that has taken effect, whatever its caller is told later, or has been answered with certainty, before another was invoked precedes it in the order, so the order respects real time. |
| `HostCas.OrderGrows` | crates/sim-table-fs/src/adapters.rs:412-416 | What one moment of a run has ordered, every later moment orders in the same way. |
| `HostCas.CompareExchangeRefinesMemoryPort` | crates/sim-table-fs/src/adapters.rs:412-458 | The released compare-exchanges of any run, made one after another in lock order on an in-memory port that holds just the leaf, get the answers that their callers got wherever these are certain, and leave just the leaf with the content it has whenever the lock is free; the quota must have room for each replacement. |
| `HostCas.EntryRefinesCall` | crates/sim-table-fs/src/adapters.rs:154-207 | One justified answer is one call of the in-memory port: the same content afterwards and the same reply; a call that failed or died without effect is one cancelled at the second poll. |
| `HostCas.LeafInvariant` | crates/sim-table-fs/src/adapters.rs:412-458 | The inductive invariant behind linearizability: the callers for the leaf have opened one lock file, the holder has read the content the history left, its answer fits that content, each call is ordered once, and the leaf holds what holder and history say. |
| `HostCas.WorkKeepsHolderOk` | crates/sim-table-fs/src/adapters.rs:417-453 | Each step taken under the lock (read, poll, replace or remove, answer) keeps what is known about the holder. |
| `HostCas.ReleaseIsJustified` | crates/sim-table-fs/src/adapters.rs:453-457 | The entry a release leaves in the history is what the atomic operation would answer on the content found, also when unlocking fails or the holder has died. |
| `HostReplace.StaysWholeIff` | crates/sim-table-fs/src/adapters.rs:378-411 | Any number of callers replace a target while anyone does anything with any set of other names, deaths included. At every moment of every such run the target holds its initial content, the complete content of some call that took effect on it, or is a new lock file, exactly when neither the target nor any of those names is a name `.sim-replace-<pid>-<n>` with n below 64 in the directory of the target. |
| `HostReplace.IntrusionTears` | crates/sim-table-fs/src/adapters.rs:386-405 | The concrete run with a target outside the temporary namespace: a writer is about to rename, another caller removes its temporary file, a second writer of the same process creates it anew, and the first one renames the empty file onto the target. |
| `HostReplace.ReplacedAtomicallyIff` | crates/sim-table-fs/src/adapters.rs:386-405 | Replaced by a sole caller, a target holds its old or its new content at every moment of every run, for any content, exactly when its own name is not of the form `.sim-replace-<pid>-<n>` with n below 64. |
| `HostReplace.ClashIsExposed` | crates/sim-table-fs/src/adapters.rs:386-405 | For a target with such a name there is a concrete run of a sole caller that shows it empty between the old and the new content. |
| `HostReplace.TargetsHoldWholeContents` | crates/sim-table-fs/src/adapters.rs:378-411 | In every state of every run of callers of all kinds, deaths included, in which nobody names a temporary file in the directory of the target, the target holds its initial content, the complete content some call put there, or is a new empty lock file: a crash between steps leaves no torn file. `StaysWholeIff` shows that the condition cannot be weakened. |
| `HostReplace.StepsAreAtomic` | crates/sim-table-fs/src/adapters.rs:378-411 | In such a directory one step changes a target only by the single rename or unlink of a call on that very target, and then to the complete new content, or creates it as a lock file. |
| `HostReplace.TempsAreAccountedFor` | crates/sim-table-fs/src/adapters.rs:386-409 | In a directory of which nobody names a temporary file: those left over from earlier processes are never touched, and every other one was created by one known call, which still owns it, gave it up but could not remove it, failed to rename the complete file, or died. |
| `HostReplace.CancelledLeavesNoTrace` | crates/sim-table-fs/src/adapters.rs:394-397 | A call that was told that it was cancelled has not touched its target, and it is the creator of a temporary file that is there exactly if it gave that file up and its removal failed, which the code does not look at. When it must be told so is `CancelledPollStops`. |
| `HostReplace.RemovalsLeaveNothing` | crates/sim-table-fs/src/adapters.rs:390-397 | While every removal succeeds no call leaves a temporary file that it gave up. |
| `HostPolls.CancelledPollStops` | crates/sim-table-fs/src/adapters.rs:394-427 | If at some step of a run the token says yes to a call that asks it (a writer before its first and after its last write, a compare-exchange after its read), the call never touches its target at any later moment, and it is answered that it was cancelled unless it dies first. |
| `HostPolls.ErrorsAreReported` | crates/sim-table-fs/src/adapters.rs:378-458 | An I/O error at any step that changes or reads the file system is never hidden: from then on the call can only be answered that it failed, or die. |
| `HostPolls.InstallsArePolled` | crates/sim-table-fs/src/adapters.rs:386-405 | Of every call that has installed content, five events of the run: a poll that said no, the creation of the temporary file, the last write, a second poll that said no, and the rename, in this order; nothing writes in between, and after the rename the target holds what the temporary file held before it. |
| `HostPolls.ExchangesArePolled` | crates/sim-table-fs/src/adapters.rs:412-453 | Of every compare-exchange that has taken effect: a read that found the expected content, then a poll that said no, then the rename or the unlink. |
| `HostAlone.ReplaceSucceeds` | crates/sim-table-fs/src/adapters.rs:378-405 | A replace that is left alone, is not cancelled and meets no error takes the first free temporary name, ends with exactly its bytes in the target and nothing else changed, and answers so. |
| `HostAlone.ReplaceNeedsAName` | crates/sim-table-fs/src/adapters.rs:386-409 | If all sixty-four names are taken it fails and changes nothing. |
| `HostAlone.CancelledMayLeave` | crates/sim-table-fs/src/adapters.rs:394-397 | A replace that is cancelled after its last write answers so, leaves nothing if its temporary file can be removed, and the whole temporary file if it cannot: both runs exist. |
| `HostAlone.RemoveRuns` | crates/sim-table-fs/src/adapters.rs:459-467 | A removal that is left alone removes the file, or fails because there is none. |
| `HostAlone.ExchangeSucceeds` | crates/sim-table-fs/src/adapters.rs:412-458 | A compare-exchange that is left alone while the lock is free does and answers exactly what the atomic operation does and answers on the content found, and leaves nothing behind but the lock file. |
| `HostSteps.OthersUndisturbed` | crates/sim-table-fs/src/adapters.rs:386-405 | In such a directory no step of any call, wherever it works, overwrites, removes or renames the temporary file that a call of this directory owns. |
| `HostSteps.TidyInvariant` | crates/sim-table-fs/src/adapters.rs:386-405 | A directory of which nobody names a temporary file stays tidy, whatever happens elsewhere: each temporary file owned there exists, is a prefix of its owner's bytes (complete once synced), and no two calls own the same one. |
| `HostSteps.SystemInvariant` | crates/sim-table-fs/src/adapters.rs:378-458 | In every reachable state, whatever the callers name, each call has the shape of its program point, its temporary names lie in the directory of its target, and the lock table lists exactly the calls between lock and unlock, each under the file it has opened. |
| `HostSteps.WorkKeepsCallOk` | crates/sim-table-fs/src/adapters.rs:378-458 | Every working step, with any poll answer and any I/O error, keeps the program-point invariant of its call. |
| `HostSteps.WorkFrame` | crates/sim-table-fs/src/adapters.rs:378-458 | A step changes nothing but the call's own target and its own temporary file. |
| `Paths.LegalMeans` | crates/sim-table-fs/src/adapters.rs:20-28 | A legal name is not empty, not `.` or `..`, and has neither separator. |
| `Paths.LegalPathMeans` | crates/sim-table-fs/src/adapters.rs:20-28 | A path is legal exactly if every component is. |
| `Paths.LockNameDecodes` | crates/sim-table-fs/src/adapters.rs:296-308 | Every generated lock-file name decodes to the one full path it was made from. |
| `Paths.GeneratedNames` | crates/sim-table-fs/src/adapters.rs:292-306 | The lock file of `z` and `k/`, and the temporary name of attempt n of a process, written out. |
| `Paths.LockNamesInjective` | crates/sim-table-fs/src/adapters.rs:292-308 | Two full paths share a lock file exactly when they are the same path. |
| `Paths.LockPathsInjective` | crates/sim-table-fs/src/adapters.rs:292-315 | Two leaves have one lock path exactly when they are the same leaf. |
| `Paths.LockPathIsNoTemp` | crates/sim-table-fs/src/adapters.rs:293-308 | No writer ever picks a lock file as its temporary file. |
| `Paths.LockPartStatesLength` | crates/sim-table-fs/src/adapters.rs:302-306 | The number in front of each component's part is the component's length in octets. |
| `Paths.LockNamer.LockFile` | crates/sim-table-fs/src/adapters.rs:292-315 | The loop that builds the name yields the lock name of prefix plus path, so the same full path reached through any chain of child ports uses the same lock. |
| `Paths.LockNamer.Child` | crates/sim-table-fs/src/adapters.rs:468-477 | A child port extends the prefix by one legal name; an illegal name is refused. |
| `Paths.TempNamesInjective` | crates/sim-table-fs/src/adapters.rs:386-387 | Different processes, and different attempts of one process, never try the same temporary name. |
| `Paths.TempsAreInNamespace` | crates/sim-table-fs/src/adapters.rs:386-387 | Every name a writer tries lies in the temporary namespace and in the directory of its target. |
| `Paths.TempsOfDirectory` | crates/sim-table-fs/src/adapters.rs:386-387 | The names that writers of a target may try are exactly the temporary names in its directory. |
| `HostDir.QuotaHoldsOnEveryRun` | crates/sim-table-fs/src/adapters.rs:127-243 | From a store within quota no sequence of calls through any ports ever holds more bytes than the quota. |
| `HostDir.UsedInsert` | crates/sim-table-fs/src/adapters.rs:136-148 | The size of the entry being replaced never exceeds the total, so the unsigned subtraction cannot underflow, and the compared value is exactly the total after the write. |
| `HostDir.CallsAreAtomic` | crates/sim-table-fs/src/adapters.rs:127-243 | A refused call changes nothing; any call leaves every path not at or below the one it names alone. |
| `HostDir.ChildIsPrefix` | crates/sim-table-fs/src/adapters.rs:244-253 | An operation through a child port on a path is the parent's operation on the name followed by that path, except compare-exchange on the empty path, which is refused. |
| `HostDir.ListingMatchesMetadata` | crates/sim-table-fs/src/adapters.rs:72-114 | A row is listed exactly when metadata of that name finds just that row. |
| `HostDir.RunKeepsLegalNames` | crates/sim-table-fs/src/adapters.rs:20-28 | No run ever stores an entry under an illegal component. |
| `HostDir.EntriesAreSeen` | crates/sim-table-fs/src/adapters.rs:97-126 | At a legal path reading and metadata together see exactly one of a file with its content, a directory and nothing, whichever is stored there; at any other path both are refused. |
| `HostDir.ReplacedIsSeen` | crates/sim-table-fs/src/adapters.rs:127-153 | An uncancelled replace of a legal path is accepted exactly when the total afterwards is within the quota; then a later read gives the new content, otherwise nothing has changed. |
| `HostDir.ExchangedIsSeen` | crates/sim-table-fs/src/adapters.rs:154-207 | A compare-exchange answers what a read would have seen, exchanges exactly when that was expected and the quota has room, and then the replacement is seen; a directory is refused. |
| `HostDir.CancelledIsRefused` | crates/sim-table-fs/src/adapters.rs:127-185 | A poll that says yes refuses the write and changes nothing; the second poll of a compare-exchange comes after directories have been refused. |
| `HostDir.RemovedIsAbsent` | crates/sim-table-fs/src/adapters.rs:208-222 | Removing a file succeeds exactly where a file is seen, and afterwards nothing is; otherwise nothing changes and the answer is that of a read. |
| `HostDir.MadeIsSeen` | crates/sim-table-fs/src/adapters.rs:223-231 | Making a directory succeeds at every legal path; a directory is seen where nothing was, and everything else is kept. |
| `HostDir.RemovedTreeIsAbsent` | crates/sim-table-fs/src/adapters.rs:232-243 | Removing a tree succeeds exactly where a directory is seen; afterwards reading and metadata find nothing at any path at or below it, and every other entry is as it was. |
| `HostDir.SharedStore.UsedBytes` | crates/sim-table-fs/src/adapters.rs:136-143 | The summation loop computes the bytes held by all files, in whatever order it visits them. |
| `HostDir.SharedStore.TryInsert` | crates/sim-table-fs/src/adapters.rs:144-152 | The entry is written exactly when the total afterwards stays within quota; otherwise nothing changes. |
| `HostDir.MemoryHostDirPort.List` | crates/sim-table-fs/src/adapters.rs:72-96 | The answer is strictly sorted by name and consists of the direct children of the directory, all of them and nothing else. |
| `HostDir.MemoryHostDirPort.FindMetadata` | crates/sim-table-fs/src/adapters.rs:97-114 | Answers as the abstract store operation does, including the refusal of illegal paths. |
| `HostDir.MemoryHostDirPort.ReadFile` | crates/sim-table-fs/src/adapters.rs:115-126 | Answers as the abstract store operation does: contents, directory or absence. |
| `HostDir.MemoryHostDirPort.ReplaceFile` | crates/sim-table-fs/src/adapters.rs:127-153 | State and answer are those of the abstract operation about which quota, atomicity and prefix laws are proved; cancellation comes before the path. |
| `HostDir.MemoryHostDirPort.CompareExchangeFile` | crates/sim-table-fs/src/adapters.rs:154-207 | State and answer are those of the abstract operation, with both cancellation polls, directories refused and the quota test on replacement. |
| `HostDir.MemoryHostDirPort.RemoveLeaf` | crates/sim-table-fs/src/adapters.rs:208-222 | Removing and putting back a directory has no net effect; a file is removed; absence is reported. |
| `HostDir.MemoryHostDirPort.MakeDir` | crates/sim-table-fs/src/adapters.rs:223-231 | An existing entry of either kind is kept. |
| `HostDir.MemoryHostDirPort.RemoveTree` | crates/sim-table-fs/src/adapters.rs:232-243 | Exactly the entries at and below a directory disappear. |
| `HostDir.MemoryHostDirPort.Child` | crates/sim-table-fs/src/adapters.rs:244-253 | The child works on the same store with the prefix extended by one legal name. |
| `NameOrder.InsertKeepsOrder` | crates/sim-table-fs/src/adapters.rs:78-95 | Inserting into the ordered collection keeps it strictly sorted. |
| `NameOrder.SortedIsUnique` | crates/sim-table-fs/src/adapters.rs:78-95 | A strictly sorted list is determined by its members, so a listing is unique. |
| `FsDirectory.FsDir.ExecuteAll` | crates/sim-table-fs/src/fs_dir.rs:129-296 | On a flat directory of readable `siml` leaves any sequence of get, has, set, del and clear is answered as a finite map answers it; a set is refused for an illegal key, a value without encoding or a full quota and for nothing else; after every single operation the directory represents the map, and only the leaves of the keys concerned have changed. |
| `FsDirectory.FsDir.Execute` | crates/sim-table-fs/src/fs_dir.rs:129-296 | One operation: its exact answer, the map afterwards, and the files it may touch. |
| `FsTable.SetRefinesMap` | crates/sim-table-fs/src/fs_dir.rs:140-172 | A set answers the one reason for which it is refused, if there is one, and then changes nothing; otherwise it is the map update and touches the one file of that key. |
| `FsTable.GetRefinesMap` | crates/sim-table-fs/src/fs_dir.rs:129-138 | Get and has answer from the map, and refuse exactly the illegal keys. |
| `FsTable.DelRefinesMap` | crates/sim-table-fs/src/fs_dir.rs:186-197 | Del answers the old value, removes the key from the map and touches the one file of that key. |
| `FsTable.KeysRefineMap` | crates/sim-table-fs/src/fs_dir.rs:249-270 | The listed keys are exactly the present keys that do not begin with a dot. |
| `FsTable.ClearEmptiesIff` | crates/sim-table-fs/src/fs_dir.rs:288-296 | Clearing the listed keys leaves an empty table exactly when no present key begins with a dot. |
| `FsTable.ClearRefinesMap` | crates/sim-table-fs/src/fs_dir.rs:288-296 | On a flat directory clear succeeds, leaves exactly the keys its listing hides, and touches the leaves of the other keys only. |
| `FsTable.DottedKeySurvives` | crates/sim-table-fs/src/fs_dir.rs:249-296 | The concrete table: one dotted key, an empty list of keys, and clear leaves it as it is. |
| `FsTable.KeyListsAgree` | crates/sim-table-fs/src/fs_dir.rs:249-270 | A directory has only one list of keys. |
| `FsTable.EntriesRefineMap` | crates/sim-table-fs/src/fs_dir.rs:272-286 | On a flat directory entries answers all visible pairs in key order, and len their number. |
| `FsTable.SetThenGetAcrossExtensions` | crates/sim-table-fs/src/fs_dir/leaf_io.rs:82-117 | Reading back a key whose leaf has another extension gives the written value exactly when that extension's codec decodes what the writer wrote: the writer ignores the extension, the reader does not. |
| `FsTable.SetHidesBinaryLeaf` | crates/sim-table-fs/src/fs_dir/leaf_io.rs:82-117 | The concrete table: a `simb` leaf reads back its value, a `set` of the key succeeds, and the key cannot be read any more, with codecs that are faithful for `siml` leaves. |
| `FsTable.NamespacesShareLeaves` | crates/sim-table-fs/src/fs_dir/leaf_io.rs:10-20 | After a set under one symbol the value is read under a symbol exactly if the names agree, whatever the namespaces; under every other name the table reads as before. |
| `FsTable.LeafPresence` | crates/sim-table-fs/src/fs_dir/leaf_io.rs:27-39 | On a represented directory a key has its `siml` leaf and no other candidate exactly when it is present: at most one leaf per key. |
| `FsTable.EntryCount` | crates/sim-table-fs/src/fs_dir.rs:284-286 | The number of entries is the number of visible keys. |
| `FsTable.EntriesOfKeys` | crates/sim-table-fs/src/fs_dir.rs:272-282 | Pairing the key list with its values gives all visible pairs, once each, in key order. |
| `FsTable.KeysAreChecked` | crates/sim-table-fs/src/fs_dir.rs:129-197 | On any directory: no operation takes an illegal key, and where there is a directory of that name has answers true and set refuses. |
| `FsTable.SeveralLeavesAreRefused` | crates/sim-table-fs/src/fs_dir/leaf_io.rs:41-53 | On any directory: a key with leaves of several extensions can be neither read nor written nor deleted nor looked up, and nothing changes. |
| `FsTable.NoLeafIsNil` | crates/sim-table-fs/src/fs_dir.rs:129-197 | On any directory: a key without a leaf reads as nil and is deleted as nil. |
| `FsTable.OneLeafIsUsed` | crates/sim-table-fs/src/fs_dir/leaf_io.rs:41-117 | On any directory: a key with one leaf, of whatever extension, is read, deleted and written exactly there; a directory at the leaf, an undecodable leaf, a value without encoding and a full quota are told apart. |
| `FsTable.OthersAreRemoved` | crates/sim-table-fs/src/fs_dir.rs:153-159 | The removal loop removes exactly the files of other extensions than `siml` and the one in use. |
| `FsTable.NothingElseToRemove` | crates/sim-table-fs/src/fs_dir.rs:153-159 | After the test for several leaves there are none. |
| `FsTable.EntriesTell` | crates/sim-table-fs/src/fs_dir.rs:272-282 | On any directory: entries succeeds exactly when every listed key is legal and a directory or readable, and then lists exactly the readable keys that are no directories with what they read; otherwise it answers the reason for the first key that fails. |
| `FsTable.ClearRemovesLeaves` | crates/sim-table-fs/src/fs_dir.rs:288-296 | On any directory: clear removes nothing but leaf files of the listed keys; when it succeeds none of these keys has a leaf any more. |
| `FsTable.ClearStops` | crates/sim-table-fs/src/fs_dir.rs:288-296 | On any directory: a clear that fails has cleared the keys before the first that is illegal or cannot be deleted, and answers that reason. |
| `FsDirectory.FsDir.Get` | crates/sim-table-fs/src/fs_dir.rs:129-138 | Agrees with the read specification on every directory, including several leaves for one key and undecodable leaves. |
| `FsDirectory.FsDir.Set` | crates/sim-table-fs/src/fs_dir.rs:140-172 | State and answer are those of the write specification on every directory; the removal loop never removes anything, because more than one candidate is refused before it. |
| `FsDirectory.FsDir.RemoveOthers` | crates/sim-table-fs/src/fs_dir.rs:153-159 | Removes, in candidate order, exactly the leaves that are neither the one in use nor `siml`, and stops at the first removal the port refuses. |
| `FsDirectory.FsDir.Has` | crates/sim-table-fs/src/fs_dir.rs:174-184 | True for a directory of that name or exactly one leaf; several leaves are an error. |
| `FsDirectory.FsDir.Del` | crates/sim-table-fs/src/fs_dir.rs:186-197 | State and answer are those of the delete specification: an undecodable leaf is kept. |
| `FsDirectory.FsDir.Keys` | crates/sim-table-fs/src/fs_dir.rs:249-270 | The strictly sorted list of all listed keys: directories by name, leaves by stem, dotted names not at all. |
| `FsDirectory.FsDir.Entries` | crates/sim-table-fs/src/fs_dir.rs:272-282 | On every directory: the pairs of the listed keys that are not directories, in key order, or the first error. |
| `FsDirectory.FsDir.Len` | crates/sim-table-fs/src/fs_dir.rs:284-286 | On every directory: how many pairs entries answers, or its error. |
| `FsDirectory.FsDir.ClearAll` | crates/sim-table-fs/src/fs_dir.rs:288-296 | On every directory: state and answer of deleting the listed keys that are not directories, up to the first failure. |
| `FsDirectory.FsDir.IsDir` | crates/sim-table-fs/src/fs_dir.rs:349-358 | Whether the name is a directory; illegal names are refused. |
| `FsDirectory.FsDir.LeafCandidates` | crates/sim-table-fs/src/fs_dir/leaf_io.rs:27-39 | The loop finds exactly the known extensions, in their order, for which a leaf exists. |
| `FsDirectory.FsDir.LeafPathForRead` | crates/sim-table-fs/src/fs_dir/leaf_io.rs:41-53 | None, the only candidate, or an error when there are several. |
| `FsDirectory.FsDir.ReadLeafPath` | crates/sim-table-fs/src/fs_dir/leaf_io.rs:67-80 | Reads and decodes with the codec of the extension; a missing file, a directory and a codec failure are told apart. |
| `LeafNames.SplitLeafName` | crates/sim-table-fs/src/fs_dir/leaf_io.rs:22-25 | A leaf name determines its key and extension, even when the key contains dots. |
| `LeafNames.LeafNamesInjective` | crates/sim-table-fs/src/fs_dir/leaf_io.rs:22-25 | Two leaves have one name exactly when key and extension agree. |
| `LeafNames.StemOfLeaf` | crates/sim-table-fs/src/fs_dir.rs:261-267 | Stripping the first matching known suffix inverts leaf naming, although one extension begins like another. |
| `LeafNames.StemOnlyOfLeaves` | crates/sim-table-fs/src/fs_dir.rs:261-267 | A key is listed only for a name that is a leaf name of that key. |
| `LeafNames.LeafNamesAreLegal` | crates/sim-table-fs/src/fs_dir/leaf_io.rs:22-25 | The leaf of a legal key is always legal too. |
| `LeafNames.ExtensionsAre` | crates/sim-table-fs/src/roadmap11.rs:26-28 | The extensions by name, in the order in which they are tried. |
| `TextEdit.EditIsSplice` | crates/sim-table-fs/src/dir_edit.rs:62-75 | For the pieces cut at leftmost non-overlapping matches: one piece is not-found, more than two without replace-all is not-unique with the count, and otherwise the result is the pieces joined by the new text, with the length that follows. |
| `TextEdit.CutsAreUnique` | crates/sim-table-fs/src/dir_edit.rs:66-74 | There is only one way to cut a text at leftmost non-overlapping matches. |
| `TextEdit.PiecesAreCuts` | crates/sim-table-fs/src/dir_edit.rs:66-74 | Such a cut exists for every text and joins back to it. |
| `TextEdit.EditLaws` | crates/sim-table-fs/src/dir_edit.rs:62-75 | Not-found means no occurrence anywhere; replacing a pattern by itself gives the text back; where a single edit is accepted both modes agree. |
| `TextEdit.UniqueMeansOneOccurrenceIff` | crates/sim-table-fs/src/dir_edit.rs:62-75 | A single edit accepts exactly the texts in which the pattern occurs at exactly one place, if and only if no proper beginning of the pattern is also an ending of it. |
| `TextEdit.OverlapsCountOnce` | crates/sim-table-fs/src/dir_edit.rs:66-74 | For every pattern that can overlap itself, a text with two occurrences that counts one match. |
| `TextEdit.OverlapsAreOneMatch` | crates/sim-table-fs/src/dir_edit.rs:66-74 | The smallest text on which an accepted single edit had two occurrences to choose from. |
| `TextEdit.FirstMatchIsLeftmost` | crates/sim-table-fs/src/dir_edit.rs:66-74 | The scan finds an occurrence with none before it, or there is none at all. |
| `TextEdit.ApplyEditLines` | crates/sim-table-fs/src/dir_edit.rs:77-104 | The two copying loops give the lines before the range, the new text and the lines after it, with the three refusals in order. |
| `TextEdit.RangesAreChecked` | crates/sim-table-fs/src/dir_edit.rs:77-92 | A range of lines is accepted exactly when 1 <= start <= end <= number of lines; otherwise the first reason is told. |
| `TextEdit.EditIsLocal` | crates/sim-table-fs/src/dir_edit.rs:93-103 | The text before and after the range is kept byte for byte, and putting the old lines back gives the text. |
| `TextEdit.ResplitIff` | crates/sim-table-fs/src/dir_edit.rs:88-103 | Splitting the edited text gives lines before, lines of the new text, lines after, exactly when the new text is empty, ends a line, or the range reached the last line. |
| `TextEdit.EditIsUndoable` | crates/sim-table-fs/src/dir_edit.rs:77-104 | In those cases editing the new range back to the old lines restores the text. |
| `TextEdit.LinesAreLines` | crates/sim-table-fs/src/dir_edit.rs:88 | Inclusive splitting yields single lines, terminated except perhaps the last, that concatenate to the text. |
| `TextEdit.LinesAreUnique` | crates/sim-table-fs/src/dir_edit.rs:88 | No other list of that shape concatenates to the text. |
| `Find.PathList.Walk` | crates/sim-table-fs/src/find.rs:120-133 | The recursive walk over the port's listings appends exactly the visible paths below a directory in strict path order: pre-order, each once, none with a hidden component. |
| `Find.WalkOneMore` | crates/sim-table-fs/src/find.rs:120-133 | One more entry of a sorted listing adds its path and everything below it at the right place. |
| `Find.WalkIsUnique` | crates/sim-table-fs/src/find.rs:120-133 | A directory has only one such list of paths. |
| `Find.FindGrep` | crates/sim-table-fs/src/find.rs:43-96 | Over the visible tree of the directory, in path order: when all reads succeed the first max of all matches, truncated exactly when there are more; a failing read fails the search unless enough was found before it. |
| `Find.GrepFiles` | crates/sim-table-fs/src/find.rs:60-96 | The same for a given list of paths, through the nested loops with their early returns. |
| `Find.GrepLines` | crates/sim-table-fs/src/find.rs:81-94 | The inner loop with its early return answers the bounded prefix of what was found plus the matches of this leaf. |
| `Find.LineMatchesAreTheMatchingLines` | crates/sim-table-fs/src/find.rs:81-93 | A match is reported exactly for a line the pattern matches, with its one-based number (capped at 32 bits) and without its terminator. |
| `Find.StrippedLines` | crates/sim-table-fs/src/find.rs:81 | A newline, or a carriage return and newline, is cut off a line; nothing else is. |
| `Find.AllMatchesMean` | crates/sim-table-fs/src/find.rs:60-96 | All matches are exactly the matching lines of those listed leaves of a known extension whose joined path the glob admits and whose content is a string; a search that fails has met the first leaf that cannot be read. |
| `Find.ReadMeans` | crates/sim-table-fs/src/fs_dir/leaf_io.rs:67-80 | A search reads what a caller of the port reads, and decodes it by its extension. |
| `Find.LeafExtMeans` | crates/sim-table-fs/src/find.rs:64-71 | Searched are the paths whose last component ends in a dot and a known extension. |
| `Find.RelativeInjective` | crates/sim-table-fs/src/find.rs:61 | Different legal paths are reported differently. |
| `Find.RelativeOfLonger` | crates/sim-table-fs/src/find.rs:61 | Each further component follows a slash. |
| `Find.FindGlob` | crates/sim-table-fs/src/find.rs:98-119 | The first max of the matching paths of the visible tree, truncated exactly when there are more. |
| `Find.GlobMatchesAreTheMatchingPaths` | crates/sim-table-fs/src/find.rs:107-115 | A path is reported exactly when it is listed and its slash-joined form matches. |
| `HaloCapsule.ReassemblyIsExact` | crates/sim-platform-halo/src/halo.rs:196-248 | Whatever assembly was held, feeding the fragments of any split of a message in order, with any number of frames refused as out of order, of another version, stale or replayed in between, hands the input decoder exactly the message's kind and payload. |
| `HaloCapsule.EncodedMessagesArrive` | crates/sim-platform-halo/src/halo.rs:196-332 | In particular for the split the encoder makes. |
| `HaloCapsule.MessagesOfTheSessionArrive` | crates/sim-platform-halo/src/halo.rs:168-248 | Over runs: once a connect with a session has succeeded and while that connection is up, every message of that session with a new sequence number, in any split and with harmlessly refused frames in between, comes last among the waiting inputs as what its octets say, while fewer than 32 are waiting. |
| `HaloCapsule.NothingElseArrives` | crates/sim-platform-halo/src/halo.rs:196-248 | The converse: after any run a frame completes an input only if it is the last of the frames of one split of one message of the connected session, all of which were received, in order, and the input is what that message says. |
| `HaloCapsule.OnlyTheSessionIsHeard` | crates/sim-platform-halo/src/halo.rs:196-205 | After any run, frames are looked at exactly while a connection is up and the capsule active; then a well-formed frame is refused as stale exactly if it is of another session than the one connected. |
| `HaloCapsule.FragmentsAreAnswered` | crates/sim-platform-halo/src/halo.rs:205-248 | How each valid fragment of the session with a new sequence number is answered, with all refusals and what each leaves behind. |
| `HaloCapsule.OtherFramesAreRefused` | crates/sim-platform-halo/src/halo.rs:196-212 | Octets that are no frame are refused for their version or as malformed, a used sequence number as replayed, and nothing changes. |
| `HaloCapsule.RunFollowsRequests` | crates/sim-platform-halo/src/halo.rs:148-188 | After any run the capsule has the consent, the lifecycle and the connected session that its requests amount to. |
| `HaloCapsule.ConnectIsAnswered` | crates/sim-platform-halo/src/halo.rs:168-181 | After any run a connect is refused for missing consent, then for inactivity, and otherwise the session asked for is the connected one. |
| `HaloCapsule.InputsAreHandedOut` | crates/sim-platform-halo/src/halo.rs:250-252 | After any run the next input handed out is the oldest accepted one that has not been. |
| `HaloCapsule.FragmentStep` | crates/sim-platform-halo/src/halo.rs:205-248 | One fragment in order extends the partial message; the last one delivers it. |
| `HaloCapsule.HarmlessKeepsState` | crates/sim-platform-halo/src/halo.rs:196-224 | A frame refused as out of order, of another version, stale or replayed leaves the capsule unchanged. |
| `HaloCapsule.EveryRunIsSafe` | crates/sim-platform-halo/src/halo.rs:148-252 | In every reachable state the assembly has next < count <= 16, at most 2048 bytes, the current session and an unseen sequence; at most 32 inputs are pending; a disconnected capsule holds nothing; within a connection no sequence is accepted twice and the accepted inputs are the delivered ones followed by the pending ones. |
| `HaloCapsule.ReceiveOutcome` | crates/sim-platform-halo/src/halo.rs:196-248 | A receive either accepts one input with an unseen sequence at the end of the queue or leaves queue and seen sequences alone. |
| `HaloCapsule.Capsule.ReceiveFragment` | crates/sim-platform-halo/src/halo.rs:196-248 | State and answer are those of the transition the whole-run results are about, through all its early returns. |
| `HaloCapsule.Capsule.Connect` | crates/sim-platform-halo/src/halo.rs:168-181 | Missing consent is reported before inactivity; a new connection starts empty. |
| `HaloCapsule.Capsule.Disconnect` | crates/sim-platform-halo/src/halo.rs:183-188 | Everything the connection held is dropped. |
| `HaloCapsule.Capsule.SetLifecycle` | crates/sim-platform-halo/src/halo.rs:148-153 | Suspension and destruction disconnect; other changes do not. |
| `HaloCapsule.Capsule.SetConsent` | crates/sim-platform-halo/src/halo.rs:155-160 | Withdrawing consent disconnects. |
| `HaloCapsule.Capsule.NextInput` | crates/sim-platform-halo/src/halo.rs:250-252 | Inputs leave the queue oldest first. |
| `HaloCapsule.Capsule.EncodeSurface` | crates/sim-platform-halo/src/halo.rs:260-282 | A blocked capsule is refused, then a display of more than 1024 octets; otherwise the frames decode to fragments of the connected session and the given sequence that together carry a display with exactly these octets, or an empty clear. |
| `HaloCodec.FrameDecodes` | crates/sim-platform-halo/src/halo.rs:302-376 | Decoding inverts framing on every valid fragment. |
| `HaloCodec.AcceptedFramesAreCanonical` | crates/sim-platform-halo/src/halo.rs:334-376 | Whatever the decoder accepts is within bounds and is the one frame of what it decoded to. |
| `HaloCodec.RefusedFrames` | crates/sim-platform-halo/src/halo.rs:334-376 | Exactly the frames of valid fragments are accepted; of the others those of a possible length with the magic and another version are told so, and the rest are malformed. |
| `HaloCodec.FrameOctets` | crates/sim-platform-halo/src/halo.rs:317-331 | The octets of a frame: magic, version, kind code, session, sequence, total, index, count and length, numbers big-endian. |
| `HaloCodec.FramesCarryMessage` | crates/sim-platform-halo/src/halo.rs:302-332 | The frames of any split of a message decode to its fragments, in order, which put together are its payload. |
| `HaloCodec.EncodeMessage` | crates/sim-platform-halo/src/halo.rs:302-332 | A message is refused exactly when it is longer than 2048 bytes; otherwise the loop emits one frame per part of a split of the payload. |
| `HaloCodec.ChunksSplit` | crates/sim-platform-halo/src/halo.rs:306-316 | At most 16 parts of at most 180 bytes that concatenate to the payload, for every payload up to 2048 bytes. |
| `HaloCodec.InputsDecode` | crates/sim-platform-halo/src/halo.rs:378-406 | Every well-formed button, sensor or link input is decoded to itself, negative sensor values included. |
| `HaloCodec.InputsAreWhatTheySay` | crates/sim-platform-halo/src/halo.rs:378-406 | A payload is decoded to an input exactly if its octets say that input, with the bounds on names and the sign of sensor values; every other payload is malformed. |
| `OutputBudget.TotalsDoNotDependOnSchedule` | crates/sim-platform-ubuntu-pc/src/process.rs:257-287 | For every chunking and interleaving run to end of file, each kept output is a prefix of its stream, the kept lengths sum to the smaller of total and budget, and the flag is set exactly when the total exceeds the budget. |
| `OutputBudget.InvariantHolds` | crates/sim-platform-ubuntu-pc/src/process.rs:257-287 | At every moment kept bytes plus budget left are the budget, and a reader has dropped something only if the budget is used up. |
| `OutputBudget.EveryRunCanFinish` | crates/sim-platform-ubuntu-pc/src/process.rs:257-287 | From every state some schedule lets both readers reach the end of file: nothing gets stuck. |
| `OutputBudget.ReadBringsNext` | crates/sim-platform-ubuntu-pc/src/process.rs:262-269 | A read brings the next octets of the stream, at most 4096 of them, or finds its end. |
| `OutputBudget.CapIsStdoutFirst` | crates/sim-platform-model/src/process.rs:131-136 | The deterministic model's outcome is what every schedule gives that reads stdout to its end before stderr. |
| `OutputBudget.Cap` | crates/sim-platform-model/src/process.rs:131-136 | Cutting in place gives the specified outputs, and the flag is right for all vectors: they are too short for the sum to saturate. |
| `OutputBudget.Budget.Take` | crates/sim-platform-ubuntu-pc/src/process.rs:270-276 | One critical section keeps what fits, charges it and remembers a cut. |
| `OutputBudget.ReadToEnd` | crates/sim-platform-ubuntu-pc/src/process.rs:257-287 | One reader alone keeps the longest prefix the budget allows, whatever sizes its reads have. |
| `OutputBudget.CaptureStdoutFirst` | crates/sim-platform-ubuntu-pc/src/process.rs:235-238 | Two readers in turn answer exactly what the model answers. |
| `Browser.EveryRunIsSafe` | crates/sim-platform-browser/src/browser.rs:285-380 | Over every run: ids of issued calls strictly increase, a completion is accepted only for a call issued since the last suspend or stop and not completed before, at most 256 calls are pending and 256 handles live, and the live handles are exactly those that an ok completion of one of the seven storage and websocket operations has handed out since then and no ok completion of a storage or websocket close of that very handle has closed later. |
| `Browser.RunInvariant` | crates/sim-platform-browser/src/browser.rs:285-380 | The invariant behind it, tying each pending entry to the operation that was issued under its id. |
| `Browser.ProtocolAt` | crates/sim-platform-browser/src/browser.rs:318-347 | Of any two steps of a history: a later issued id is larger, and no two completions carry one id. |
| `Browser.IssuedHandlesAreOpen` | crates/sim-platform-browser/src/browser.rs:313-317 | A storage read, write or close or a websocket send or close is issued only for a handle that is open in that sense. |
| `Browser.RefusalsChangeNothing` | crates/sim-platform-browser/src/browser.rs:285-380 | A refused request changes the state exactly when it completes a pending call, with a payload within bounds, by a handle for which the handles left after a successful close leave no room. |
| `Browser.LimitIsRefused` | crates/sim-platform-browser/src/browser.rs:350-366 | The answer that the handle limit is reached is given for exactly those requests. |
| `Browser.CallsAreAnswered` | crates/sim-platform-browser/src/browser.rs:301-340 | After any run a host call is answered as the history determines: refused, in this order, while suspended or stopped, for an operation out of bounds, a service not detected, 256 waiting calls, a handle that is not open, and exhausted ids; otherwise issued under the next id with its own service and operation. |
| `Browser.CompletionsAreAnswered` | crates/sim-platform-browser/src/browser.rs:341-374 | After any run a completion is answered as the history determines, and exactly the handles that then remain open are live. |
| `Browser.RunFollowsRequests` | crates/sim-platform-browser/src/browser.rs:285-380 | After any run lifecycle, services, next id and waiting calls are those that the requests amount to. |
| `Browser.FunctionsAreNamed` | crates/sim-platform-browser/src/browser.rs:285-380 | A request goes to the function it names; the four functions take no other input, and any other name is unknown. |
| `Browser.HandleLimitIsReachable` | crates/sim-platform-browser/src/browser.rs:350-366 | Some run of a new capsule leads there: 256 handles are live, and the next completion is refused and its call used up. |
| `Browser.RefusedCompletionKeepsHandles` | crates/sim-platform-browser/src/browser.rs:350-366 | Such a completion uses up its call but neither opens nor closes a handle. |
| `Browser.Capsule.DispatchInput` | crates/sim-platform-browser/src/browser.rs:285-380 | State and answer are those of the transition the run results are about, including mismatched and unknown functions. |
| `Browser.Capsule.IssueCall` | crates/sim-platform-browser/src/browser.rs:301-340 | All refusals in source order; an accepted call takes the next id and remembers the handle it will close. |
| `Browser.Capsule.AcceptCompletion` | crates/sim-platform-browser/src/browser.rs:341-374 | A successful close takes effect before the handle limit is applied; handles are added only for successful storage or websocket calls. |
| `Resolver.PlatformRequire` | crates/sim-platform-core/src/records.rs:467-509 | Succeeds exactly when every required service has a choice whose last-listed offer meets the minimum evidence; binds, in requirement order, the first such choice; a refusal names the first failing requirement and says weak exactly when some choice was offered. |
| `Resolver.Select` | crates/sim-platform-core/src/records.rs:477-487 | The scan with its early stop finds the first suitable choice and whether any was offered. |
| `Resolver.IndexOffers` | crates/sim-platform-core/src/records.rs:471-474 | Of several offers for one service the last listed counts. |
| `Resolver.BindingsAreUnique` | crates/sim-platform-core/src/records.rs:475-509 | The specification admits only one list of bindings, so it determines the answer. |
| `Resolver.RaisingEvidenceIsSafe` | crates/sim-platform-core/src/records.rs:482-486 | Raising the evidence of any offers never makes a satisfied requirement fail. |
| `Resolver.RequestedBeforeSubstitutes` | crates/sim-platform-core/src/records.rs:475-487 | The service asked for is bound whenever its last offer is good enough, whatever substitutes offer; only otherwise does the first good substitute count. |
| `Resolver.FailureMeans` | crates/sim-platform-core/src/records.rs:488-505 | What a refusal says, in terms of offers and the five levels of evidence by name. |
| `Digest.OneChangeIsDetected` | crates/sim-platform-core/src/records.rs:529-536 | Two byte strings that differ in exactly one position have different digest strings. |
| `Digest.CommonEnding` | crates/sim-platform-core/src/records.rs:529-536 | Inputs with a common ending have the same digest exactly when the hash states before it agree. |
| `Digest.MixIsBijective` | crates/sim-platform-core/src/records.rs:532-534 | One FNV-1a step (IETF draft-eastlake-fnv, section 2) is a bijection of the 64-bit states: the prime has an inverse modulo 2^64. |
| `Digest.MixIsInjective` | crates/sim-platform-core/src/records.rs:532-534 | For every state, different octets give different states. |
| `Digest.AbsorbIsInjective` | crates/sim-platform-core/src/records.rs:532-534 | Absorbing the same bytes never merges two states. |
| `Digest.RenderingIsInjective` | crates/sim-platform-core/src/records.rs:535 | The 16-digit hexadecimal rendering tells all states apart. |
| `Digest.StableDigest` | crates/sim-platform-core/src/records.rs:529-536 | The loop computes the digest function these results are about. |
| `Digest.PublishedValues` | crates/sim-platform-core/src/records.rs:529-536 | The digests of the empty input and of one zero octet are the published FNV-1a 64 values. |
| `Digest.XorBit` | crates/sim-platform-core/src/records.rs:533 | The exclusive or on numbers acts bit by bit. |
| `Digest.HexDigitAt` | crates/sim-platform-core/src/records.rs:535 | Each rendered character is the digit of its four bits, the highest first. |
| `Entropy.StepIsBijective` | crates/sim-platform-linux/src/linux.rs:297-306 | The xorshift step is a bijection of 64-bit words that fixes zero, and no other word goes to zero. |
| `Entropy.UndoInverts` | crates/sim-platform-linux/src/linux.rs:300-302 | Each of the three shift-and-xor operations has a two-sided inverse. |
| `Entropy.XorShiftTwice` | crates/sim-platform-linux/src/linux.rs:300-302 | Doing one twice is doing it once with twice the distance. |
| `Entropy.SeededNeverZero` | crates/sim-platform-model/src/model.rs:198-201 | Whatever the seed, no state of the generator is ever zero. |
| `Entropy.RequestsConcatenate` | crates/sim-platform-linux/src/linux.rs:297-306 | Asking for a and then b octets gives what asking for a + b octets gives. |
| `Entropy.StepOfBit` | crates/sim-platform-linux/src/linux.rs:300-302 | Which bits of the next state one bit of the state reaches: the distances 13, 7 and 17. |
| `Entropy.StepIsLinear` | crates/sim-platform-linux/src/linux.rs:300-302 | The step of an exclusive or is the exclusive or of the steps, so those bits determine it. |
| `Entropy.StreamOctets` | crates/sim-platform-linux/src/linux.rs:297-306 | Octet n of the stream is the lowest eight bits of the state after n + 1 steps. |
| `Entropy.SeedIsKept` | crates/sim-platform-model/src/model.rs:198-201 | Only the seed zero is replaced, and by one. |
| `Entropy.Generator.Draw` | crates/sim-platform-model/src/model.rs:288-297 | The drawing loop yields the next stretch of the stream and leaves the state behind it. |
| `LinuxCapsule.EveryRunIsAccounted` | crates/sim-platform-linux/src/linux.rs:207-260 | Over every run and at every budget the queue is empty between calls, admitted calls stay within budget, all entropy in order is one stretch of the seed's stream, and it stays within an entropy budget below the largest machine word. |
| `LinuxCapsule.EntropyBudgetKeptIff` | crates/sim-platform-linux/src/linux.rs:251-260 | Let no request ask for more octets than some bound, such as the largest allocation. No run then hands out more entropy than budgeted exactly when the budget is below the largest machine word, or the budgeted calls cannot ask for more than that word in all: there the saturating test admits everything and the plain addition wraps. |
| `LinuxCapsule.DrawnPerCall` | crates/sim-platform-linux/src/linux.rs:251-260 | At every budget a run draws at most that bound for each admitted call. |
| `LinuxCapsule.LargestRequestsAreServed` | crates/sim-platform-linux/src/linux.rs:251-260 | At the largest budget any number of requests within the call budget, each for the largest length, is served in full, however much has been drawn. |
| `LinuxCapsule.CancelledStaysCancelled` | crates/sim-platform-linux/src/linux.rs:199-216 | A cancelled or revoked token is refused at every later time, whatever happens in between. |
| `LinuxCapsule.CallsAreAnswered` | crates/sim-platform-linux/src/linux.rs:207-296 | After any run a request is answered as the history determines: refused while suspended, for a token that is gone, and when the budget of calls is used up; otherwise as its kind is. |
| `LinuxCapsule.Capsule.ApplyRequest` | crates/sim-platform-linux/src/linux.rs:207-228 | State and answer are those of the transition the run results are about; a request counts even when its execution is refused. |
| `LinuxCapsule.Capsule.ExecuteRequest` | crates/sim-platform-linux/src/linux.rs:229-296 | Timer, entropy and cancellation as specified, with the entropy counter as a machine word; refused entropy leaves stream and counter alone. |
| `LinuxCapsule.Capsule.SetSuspended` | crates/sim-platform-linux/src/linux.rs:193-198 | Suspending and resuming change nothing else. |
| `LinuxCapsule.Capsule.RevokeToken` | crates/sim-platform-linux/src/linux.rs:199-201 | Revoking adds the token to the cancelled ones and changes nothing else. |
| `SeededPlatform.PlatformsAgree` | crates/sim-platform-model/src/model.rs:220-237 | From one seed, whatever the Linux capsule and the model were asked, what one has handed out is a prefix of what the other has. |
| `SeededPlatform.RunDrawsTheStream` | crates/sim-platform-model/src/model.rs:220-237 | Everything the model hands out in a run, in order, is one stretch of the seed's stream, and every request is counted. |
| `SeededPlatform.EntropyIsAnswered` | crates/sim-platform-model/src/model.rs:220-297 | After any run the entropy fact is answered with the next eight octets of the stream and a request for entropy with as many as it asks for, unless a fault on everything or on entropy refuses them. |
| `SeededPlatform.Model.ApplyRequest` | crates/sim-platform-model/src/model.rs:220-237 | Counts the request first, draws nothing when a fault refuses it. |
| `AndroidCapsule.EveryRunIsSafe` | crates/sim-platform-android/src/android.rs:189-365 | Over every run of one capsule, across suspend, process death, restart and rebinding, no turn is emitted as resumed twice, a held binding covers exactly the required services with providers of its snapshot, session, focus and route are held together, accepted route generations increase, and the speech activity is the one the answers tell of, on a tier known to be local. |
| `AndroidCapsule.ContinueStaysContinuous` | crates/sim-platform-android/src/android.rs:283-317 | Each continuity request keeps the binding valid and the record of resumed turns equal to those emitted. |
| `AndroidCapsule.RestoreAnswers` | crates/sim-platform-android/src/android.rs:294-310 | After any run a restore of a valid plan for the bound snapshot is accepted, takes over the permissions observed, and answers a turn as resumed exactly if it is the pending turn of the plan and has not been resumed before; every other restore is refused with its reason and changes nothing. |
| `AndroidCapsule.RestoredTurnsResumeOnce` | crates/sim-platform-android/src/android.rs:294-310 | Over every run a turn that has been restored at least once has been answered as resumed exactly once, and any other turn never. |
| `AndroidCapsule.RunFollowsRequests` | crates/sim-platform-android/src/android.rs:189-343 | After any run binding, pending turn, lifecycle, permissions, resources and background permission are those that the requests amount to. |
| `AndroidCapsule.OutputsTell` | crates/sim-platform-android/src/android.rs:269-281 | Every accepted request is answered with the lifecycle, the number of resources and the snapshot that all requests amount to. |
| `AndroidCapsule.ActivationAnswers` | crates/sim-platform-android/src/android.rs:204-262 | After any run an activation is accepted exactly if the capsule is neither suspended nor stopped, text and reference being in order, and a notification exactly if its channel is new. |
| `AndroidCapsule.BindAnswers` | crates/sim-platform-android/src/android.rs:346-366 | A plan is bound exactly if it covers the six services by providers of its own snapshot; otherwise the first reason is told and nothing changes. |
| `AndroidCapsule.SubmitAnswers` | crates/sim-platform-android/src/android.rs:311-314 | A turn is submitted exactly if its identity is sixty-four hexadecimal digits. |
| `AndroidCapsule.AudioIsAnswered` | crates/sim-platform-android/src/android.rs:189-281 | After any run an audio input is answered with what the audio events so far, releases included, determine. |
| `AndroidCapsule.SpeechIsAnswered` | crates/sim-platform-android/src/android.rs:189-281 | After any run a speech input is answered with what the speech inputs so far and the activity determine. |
| `AndroidCapsule.ReferencesAreChecked` | crates/sim-platform-android/src/android.rs:425-448 | Which content references an activation may carry. |
| `AndroidCapsule.FunctionsAreNamed` | crates/sim-platform-android/src/android.rs:189-317 | A request goes to the function it names; the five functions take no other input, and any other name is unknown. |
| `AndroidCapsule.AudioMoves` | crates/sim-platform-android/src/android.rs:189-343 | Whatever the capsule does, its audio part only moves by audio inputs and releases, so its generations keep increasing. |
| `AndroidCapsule.SpeechMoves` | crates/sim-platform-android/src/android.rs:189-343 | Suspension, death, memory pressure and the loss of the microphone end the speech activity; nothing else but speech inputs touches it. |
| `AndroidCapsule.TranscriptsNeedAListener` | crates/sim-platform-android/src/android.rs:249-252 | In every reachable state a transcript is accepted exactly if a transcription has been started that nothing has ended since. |
| `AndroidCapsule.DeathUnbinds` | crates/sim-platform-android/src/android.rs:329-335 | After process death audio and speech are over and every restore is refused until a plan is bound again, while resumed turns stay recorded. |
| `AndroidCapsule.RefusalsChangeNothing` | crates/sim-platform-android/src/android.rs:189-317 | A refused request of any kind leaves the capsule unchanged. |
| `AndroidCapsule.Capsule.DispatchInput` | crates/sim-platform-android/src/android.rs:189-281 | State and answer are those of the transition the run results are about, for continuity, audio, speech and the rest. |
| `AndroidCapsule.Capsule.DispatchActivation` | crates/sim-platform-android/src/android.rs:204-268 | Lifecycle, activation, permission, notification and background requests as specified, mismatches and unknown functions refused. |
| `AndroidCapsule.Capsule.DispatchContinuity` | crates/sim-platform-android/src/android.rs:283-317 | Bind, event, restore and submit as specified, with validation before any change. |
| `AndroidCapsule.Capsule.ApplyAndroidEvent` | crates/sim-platform-android/src/android.rs:319-343 | Each event's effect on the whole state, including what it keeps. |
| `AndroidSpeech.DispatchIsConsistent` | crates/sim-platform-android/src/speech.rs:137-187 | Only evidence of a tier that is on the device, installed and without network is kept; an activity starts only on such a tier for one of its languages; a transcript needs a transcription that the answers so far have not ended; a refusal changes nothing. |
| `AndroidSpeech.ReleaseIsConsistent` | crates/sim-platform-android/src/speech.rs:211-214 | A forced release ends the activity. |
| `AndroidSpeech.NormalizedLanguages` | crates/sim-platform-android/src/speech.rs:45-46 | The languages come out in strict tag order, with the same tags, and of several with one tag the first. |
| `AndroidSpeech.DispatchEffects` | crates/sim-platform-android/src/speech.rs:137-214 | What each answer says about the activity and the tiers. |
| `AndroidSpeech.InputsAreAnswered` | crates/sim-platform-android/src/speech.rs:137-204 | What each input is answered, in terms of the evidence last accepted: which evidence proves a tier local, which of its languages count, and how empty, oversized and unsupported inputs are told apart. |
| `AndroidSpeech.SpeechState.DispatchInput` | crates/sim-platform-android/src/speech.rs:137-187 | State and answer are those of the transition the run results are about. |
| `AndroidSpeech.SpeechState.StartActivity` | crates/sim-platform-android/src/speech.rs:189-204 | An unsupported language leaves a running activity alone and names the fallback of its kind. |
| `AndroidSpeech.SpeechState.StopBecause` | crates/sim-platform-android/src/speech.rs:206-209 | Stopping for any reason ends the activity. |
| `AndroidSpeech.SpeechState.ReleaseAll` | crates/sim-platform-android/src/speech.rs:211-214 | Releasing keeps the tiers. |
| `AndroidAudio.EveryRunIncreases` | crates/sim-platform-android/src/audio.rs:162-212 | Accepted route generations strictly increase over every run, across sessions too, because a release keeps the last route. |
| `AndroidAudio.NextIncreases` | crates/sim-platform-android/src/audio.rs:162-212 | One audio input or release keeps that. |
| `AndroidAudio.DispatchIsConsistent` | crates/sim-platform-android/src/audio.rs:135-212 | A session exists exactly while focus is held and exactly while the communication route is held, every armed session was valid, stored routes are canonical, and a refused input changes nothing. |
| `AndroidAudio.ReceiptsTellTheTruth` | crates/sim-platform-android/src/audio.rs:162-188 | A receipt never claims focus or a route that the state no longer holds. |
| `AndroidAudio.InputsAreAnswered` | crates/sim-platform-android/src/audio.rs:136-256 | After any run an input is answered as the events so far determine: the refusals of an unsupported level, contract, admission or identity, and receipts that name the session, the routing contract of its API level, the route as observed, its freshness, and whether private output is paused. |
| `AndroidAudio.RunFollowsEvents` | crates/sim-platform-android/src/audio.rs:136-212 | After any run session, focus and route are those that the events amount to. |
| `AndroidAudio.PrivateOutputNeedsCertainRoute` | crates/sim-platform-android/src/audio.rs:223-256 | Private output is unpaused only on a fresh route with a class in both capture and render. |
| `AndroidAudio.Normalize` | crates/sim-platform-android/src/audio.rs:259-262 | The classes come out sorted, without repetition, and are the same set. |
| `AndroidAudio.CanonicalIsUnique` | crates/sim-platform-android/src/audio.rs:259-262 | There is only one such list. |
| `AndroidAudio.AudioState.DispatchInput` | crates/sim-platform-android/src/audio.rs:135-206 | State and answer are those of the transition the run results are about; a lost route releases the session after the receipt was made. |
| `AndroidAudio.AudioState.ReleaseAll` | crates/sim-platform-android/src/audio.rs:208-212 | Releases session, focus and route claim, and keeps the last route. |

## Left out

Limits of the modelled parts:

- FsTable.SetRefinesMap: stated on flat directories whose leaves are all `siml`; for directories of any other shape `OneLeafIsUsed`, `SeveralLeavesAreRefused`, `EntriesTell` and `ClearRemovesLeaves` say what each operation does, without a map that the directory would represent.
- HostCas.CompareExchangeIsLinearizable: assumes that all writers of the leaf use compare-exchange, since `replace` and `remove_file` take no lock, and that no caller names the lock file of the leaf or a temporary name in its directory; `HostExact.StaysLinearizableIff` shows that the second cannot be dropped. Leaves that are themselves temporary names or lie in the directory of lock files are excluded.
- HostLocks.StaysExclusiveIff: excludes leaves that are themselves temporary names or lie in the directory of lock files.
- HostSteps.WorkFrame: a temporary file is written by its name, while the code writes through the handle it opened. The two can differ only once somebody else has removed or replaced that file; the runs shown for `StaysWholeIff` and `StaysLinearizableIff` interfere after the last write.
- HostCas.CompareExchangeRefinesMemoryPort: requires room in the quota for each replacement, since only the in-memory port has a quota.
- LinuxCapsule.Capsule.ExecuteRequest: the entropy counter wraps, as it does without overflow checks; with them the same requests panic. A request for more than 2^63 - 1 octets, which aborts in allocation, is not part of the model.
- AndroidSpeech.NormalizedLanguages: trimming the name of the implementation is not modelled, since nothing reads it afterwards.
- `remove_dir_all` on the directory of lock files, which would remove them all at once, like every operation on directories in the step system.
- `is_legal_table_segment` is not part of this repository; it is modelled by its documented rule: not empty, not `.` or `..`, and neither separator.
- The sums over file sizes use unbounded numbers: the total size of a store in memory stays below 2^64.
- Mutex poisoning, and durability across an operating-system crash (`sync_all` is a step that may fail, nothing more).
- `resolve`'s canonical-parent and symbolic-link checks, directories and special files in the Ubuntu step system, `replace` on the empty path, and file-name length limits.
- UTF-8 decoding, the white-space test, regular expressions, globs and leaf codecs are parameters of the models.
- Capability checks, message texts, labels and display functions.
- Linux clocks, facts, mounts and the desktop portal are one kind of request whose outcome is a parameter; likewise the seeded model's other requests, lifecycle scripts and receipts.
- Receipt identifiers and the JSON text whose digest a resolution carries; offers keep only the fields the resolver reads.
- Child process start, polling, time limits and process-tree termination around the two readers.

Left out because they would add only easier members, or are calls into code this repository does not hold:

- Table-level compare-exchange, `mkdir`, `opendir` and `rmdir`.
- `compose_bundle` and the support matrix.
- The Amazfit, MIDI, audio-device, macOS, Windows and iOS adapters, whose machines repeat the Halo, browser or Android arguments.
- Frame and JSON codecs, native loaders, Wasm membranes, shells, sockets, SQLite and the construction tools.
