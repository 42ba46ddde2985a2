/** The deterministic in-memory host-directory port: a flat store with a quota and compare-exchange. */
module HostDir {
  import opened Common
  import opened Paths
  import opened NameOrder

  datatype Kind = Escape | Cancelled | QuotaExceeded | SpecialFile | NotFound

  datatype Entry = File(bytes: Bytes) | Dir

  datatype EntryKind = FileKind | DirectoryKind

  datatype HostEntry = HostEntry(name: Name, kind: EntryKind, len: nat)

  type Store = map<Path, Entry>

  /** `early` and `late` are what the two polls of the cancellation token answer. */
  datatype Request =
    | Metadata(path: Path)
    | Read(path: Path)
    | Replace(path: Path, bytes: Bytes, cancelled: bool)
    | CompareExchange(path: Path, expected: Option<Bytes>, replacement: Option<Bytes>, early: bool, late: bool)
    | RemoveFile(path: Path)
    | CreateDir(path: Path)
    | RemoveDirAll(path: Path)

  datatype Reply =
    | Found(entry: Option<HostEntry>)
    | Contents(bytes: Bytes)
    | Done
    | Exchanged(exchanged: bool, observed: Option<Bytes>)
    | Refused(kind: Kind)

  function Size(entry: Entry): nat {
    match entry
    case File(bytes) => |bytes|
    case Dir => 0
  }

  /** The bytes held by all files of the store. */
  ghost function Used(store: Store): nat {
    if store == map[] then 0
    else
      var path :| path in store;
      Size(store[path]) + Used(store - {path})
  }

  function SizeAt(store: Store, path: Path): nat {
    if path in store then Size(store[path]) else 0
  }

  lemma {:induction false} UsedSplit(store: Store, path: Path)
    requires path in store
    ensures Used(store) == Size(store[path]) + Used(store - {path})
    decreases |store|
  {
    var first :| first in store && Used(store) == Size(store[first]) + Used(store - {first});
    if first != path {
      UsedSplit(store - {first}, path);
      UsedSplit(store - {path}, first);
      assert store - {first} - {path} == store - {path} - {first};
    }
  }

  /** What writing one file does to the total; in particular the old size never exceeds the total. */
  lemma UsedInsert(store: Store, path: Path, entry: Entry)
    ensures SizeAt(store, path) <= Used(store)
    ensures Used(store[path := entry]) == Used(store) - SizeAt(store, path) + Size(entry)
  {
    var after := store[path := entry];
    UsedSplit(after, path);
    if path in store {
      UsedSplit(store, path);
      assert after - {path} == store - {path};
    } else {
      assert after - {path} == store;
    }
  }

  lemma {:induction false} UsedShrinks(store: Store, kept: Store)
    requires forall p | p in kept :: p in store && store[p] == kept[p]
    ensures Used(kept) <= Used(store)
    decreases |kept|
  {
    if kept != map[] {
      var p :| p in kept;
      UsedSplit(kept, p);
      UsedSplit(store, p);
      UsedShrinks(store - {p}, kept - {p});
    }
  }

  function RowOf(name: Name, entry: Entry): HostEntry {
    match entry
    case File(bytes) => HostEntry(name, FileKind, |bytes|)
    case Dir => HostEntry(name, DirectoryKind, 0)
  }

  function LastName(full: Path): Name {
    if full == [] then [] else full[|full| - 1]
  }

  /** The state change and answer of one call on a port whose prefix is `prefix`. */
  ghost function Apply(prefix: Path, quota: nat, store: Store, request: Request): (result: (Store, Reply)) {
    var full := prefix + request.path;
    if request.CompareExchange? && request.path == [] then (store, Refused(Escape))
    else if request.Replace? && request.cancelled then (store, Refused(Cancelled))
    else if request.CompareExchange? && request.early then (store, Refused(Cancelled))
    else if !LegalPath(request.path) then (store, Refused(Escape))
    else
      match request
      case Metadata(_) =>
        (store, Found(if full in store then Some(RowOf(LastName(full), store[full])) else None))
      case Read(_) =>
        (store, if full !in store then Refused(NotFound)
                else if store[full].Dir? then Refused(SpecialFile)
                else Contents(store[full].bytes))
      case Replace(_, bytes, _) => Write(quota, store, full, bytes, Done)
      case CompareExchange(_, expected, replacement, _, late) =>
        if full in store && store[full].Dir? then (store, Refused(SpecialFile))
        else if late then (store, Refused(Cancelled))
        else
          var observed := if full in store then Some(store[full].bytes) else None;
          if observed != expected then (store, Exchanged(false, observed))
          else
            (match replacement
             case Some(bytes) => Write(quota, store, full, bytes, Exchanged(true, observed))
             case None => (store - {full}, Exchanged(true, observed)))
      case RemoveFile(_) =>
        if full !in store then (store, Refused(NotFound))
        else if store[full].Dir? then (store, Refused(SpecialFile))
        else (store - {full}, Done)
      case CreateDir(_) => (if full in store then store else store[full := Dir], Done)
      case RemoveDirAll(_) =>
        if full in store && store[full].Dir? then (Outside(store, full), Done)
        else (store, Refused(NotFound))
  }

  /** Stores `bytes` at `full` unless the store would then hold more than `quota` bytes. */
  ghost function Write(quota: nat, store: Store, full: Path, bytes: Bytes, success: Reply): (Store, Reply) {
    var after := store[full := File(bytes)];
    if Used(after) > quota then (store, Refused(QuotaExceeded)) else (after, success)
  }

  /** The entries that are not at or below `full`. */
  function Outside(store: Store, full: Path): Store {
    map p | p in store && !(full <= p) :: store[p]
  }

  // ---------- Properties of every run ----------

  ghost predicate LegalStore(store: Store) {
    forall p | p in store :: LegalPath(p)
  }

  /** A run: calls made one after another through any ports on the same store. */
  ghost function Run(quota: nat, store: Store, calls: seq<(Path, Request)>): Store
    decreases |calls|
  {
    if calls == [] then store
    else Run(quota, Apply(calls[0].0, quota, store, calls[0].1).0, calls[1..])
  }

  lemma ApplyKeepsQuota(prefix: Path, quota: nat, store: Store, request: Request)
    requires Used(store) <= quota
    ensures Used(Apply(prefix, quota, store, request).0) <= quota
  {
    var full := prefix + request.path;
    if request.CreateDir? {
      UsedInsert(store, full, Dir);
    } else if request.RemoveDirAll? {
      UsedShrinks(store, Outside(store, full));
    } else {
      UsedShrinks(store, store - {full});
    }
  }

  /** From an empty store, no sequence of calls ever holds more than the quota. */
  lemma {:induction false} QuotaHoldsOnEveryRun(quota: nat, store: Store, calls: seq<(Path, Request)>)
    requires Used(store) <= quota
    ensures Used(Run(quota, store, calls)) <= quota
    decreases |calls|
  {
    if calls != [] {
      ApplyKeepsQuota(calls[0].0, quota, store, calls[0].1);
      QuotaHoldsOnEveryRun(quota, Apply(calls[0].0, quota, store, calls[0].1).0, calls[1..]);
    }
  }

  /** A refusal of any kind leaves the store as it was, and a call changes no path it does not name or contain. */
  lemma CallsAreAtomic(prefix: Path, quota: nat, store: Store, request: Request)
    ensures var (after, reply) := Apply(prefix, quota, store, request);
            && (reply.Refused? ==> after == store)
            && (forall p | !(prefix + request.path <= p) ::
                  (p in after <==> p in store) && (p in after ==> after[p] == store[p]))
  {
  }

  // ---------- What a later call sees of an earlier one ----------

  /** What reading `path` answers. */
  ghost function ReadReply(prefix: Path, quota: nat, store: Store, path: Path): Reply {
    Apply(prefix, quota, store, Read(path)).1
  }

  ghost function MetadataReply(prefix: Path, quota: nat, store: Store, path: Path): Reply {
    Apply(prefix, quota, store, Metadata(path)).1
  }

  /** Neither a read nor a metadata call finds anything at `path`. */
  ghost predicate SeenAbsent(prefix: Path, quota: nat, store: Store, path: Path) {
    && ReadReply(prefix, quota, store, path) == Refused(NotFound)
    && MetadataReply(prefix, quota, store, path) == Found(None)
  }

  predicate IsRow(reply: Reply, path: Path, kind: EntryKind, len: nat) {
    && reply.Found? && reply.entry.Some? && reply.entry.value.kind == kind && reply.entry.value.len == len
    && (path != [] ==> reply.entry.value.name == path[|path| - 1])
  }

  /** A read finds the file `bytes` at `path`, and metadata tells its last name and length. */
  ghost predicate SeenFile(prefix: Path, quota: nat, store: Store, path: Path, bytes: Bytes) {
    && ReadReply(prefix, quota, store, path) == Contents(bytes)
    && IsRow(MetadataReply(prefix, quota, store, path), path, FileKind, |bytes|)
  }

  ghost predicate SeenDirectory(prefix: Path, quota: nat, store: Store, path: Path) {
    && ReadReply(prefix, quota, store, path) == Refused(SpecialFile)
    && IsRow(MetadataReply(prefix, quota, store, path), path, DirectoryKind, 0)
  }

  /** At a legal path a caller sees exactly one of a file, a directory and nothing; elsewhere both calls are refused. */
  lemma EntriesAreSeen(prefix: Path, quota: nat, store: Store, path: Path)
    ensures LegalPath(path) ==>
              && (SeenAbsent(prefix, quota, store, path) <==> prefix + path !in store)
              && (SeenDirectory(prefix, quota, store, path)
                  <==> prefix + path in store && store[prefix + path] == Dir)
              && (forall bytes :: SeenFile(prefix, quota, store, path, bytes)
                                  <==> prefix + path in store && store[prefix + path] == File(bytes))
    ensures !LegalPath(path) ==>
              && ReadReply(prefix, quota, store, path) == Refused(Escape)
              && MetadataReply(prefix, quota, store, path) == Refused(Escape)
  {
    if LegalPath(path) && path != [] {
      assert (prefix + path)[|prefix + path| - 1] == path[|path| - 1];
    }
    if LegalPath(path) && prefix + path in store && store[prefix + path].File? {
      assert SeenFile(prefix, quota, store, path, store[prefix + path].bytes);
    }
  }

  /** An uncancelled replace of a legal path is stored if the total afterwards is within the quota, and then seen. */
  lemma ReplacedIsSeen(prefix: Path, quota: nat, store: Store, path: Path, bytes: Bytes)
    requires LegalPath(path)
    ensures var (after, reply) := Apply(prefix, quota, store, Replace(path, bytes, false));
            && (reply == Done <==> Used(store) - SizeAt(store, prefix + path) + |bytes| <= quota)
            && (reply == Done ==> SeenFile(prefix, quota, after, path, bytes))
            && (reply != Done ==> reply == Refused(QuotaExceeded) && after == store)
  {
    UsedInsert(store, prefix + path, File(bytes));
    EntriesAreSeen(prefix, quota, Apply(prefix, quota, store, Replace(path, bytes, false)).0, path);
  }

  /** The content a compare-exchange answers as observed. */
  ghost predicate Observes(prefix: Path, quota: nat, store: Store, path: Path, content: Option<Bytes>) {
    match content
    case Some(bytes) => SeenFile(prefix, quota, store, path, bytes)
    case None => SeenAbsent(prefix, quota, store, path)
  }

  /**
   An uncancelled compare-exchange refuses a directory; otherwise it answers what a read would have seen, exchanges
   exactly when that is what was expected, and then the replacement is seen, unless the quota has no room for it.
   */
  lemma ExchangedIsSeen(prefix: Path, quota: nat, store: Store, path: Path, expected: Option<Bytes>,
                        replacement: Option<Bytes>)
    requires LegalPath(path) && path != []
    ensures var request := CompareExchange(path, expected, replacement, false, false);
            var (after, reply) := Apply(prefix, quota, store, request);
            if SeenDirectory(prefix, quota, store, path) then reply == Refused(SpecialFile) && after == store
            else if Observes(prefix, quota, store, path, expected)
            then if replacement.Some?
                    && Used(store) - SizeAt(store, prefix + path) + |replacement.value| > quota
                 then reply == Refused(QuotaExceeded) && after == store
                 else reply == Exchanged(true, expected) && Observes(prefix, quota, after, path, replacement)
            else && reply.Exchanged? && !reply.exchanged && after == store
                 && Observes(prefix, quota, store, path, reply.observed)
  {
    var request := CompareExchange(path, expected, replacement, false, false);
    var (after, reply) := Apply(prefix, quota, store, request);
    EntriesAreSeen(prefix, quota, store, path);
    EntriesAreSeen(prefix, quota, after, path);
    if replacement.Some? {
      UsedInsert(store, prefix + path, File(replacement.value));
    }
  }

  /** A poll that answers yes stops a write, except that the second poll of a compare-exchange comes after the read. */
  lemma CancelledIsRefused(prefix: Path, quota: nat, store: Store, path: Path, bytes: Bytes, expected: Option<Bytes>,
                           replacement: Option<Bytes>, early: bool)
    ensures Apply(prefix, quota, store, Replace(path, bytes, true)) == (store, Refused(Cancelled))
    ensures path != [] ==>
              Apply(prefix, quota, store, CompareExchange(path, expected, replacement, true, early))
              == (store, Refused(Cancelled))
    ensures path != [] && LegalPath(path) ==>
              Apply(prefix, quota, store, CompareExchange(path, expected, replacement, false, true))
              == (store, Refused(if SeenDirectory(prefix, quota, store, path) then SpecialFile else Cancelled))
  {
  }

  /** Removing a file succeeds exactly where a file is seen, and then nothing is. */
  lemma RemovedIsAbsent(prefix: Path, quota: nat, store: Store, path: Path)
    requires LegalPath(path)
    ensures var (after, reply) := Apply(prefix, quota, store, RemoveFile(path));
            && (reply == Done <==> exists bytes :: SeenFile(prefix, quota, store, path, bytes))
            && (reply == Done ==> SeenAbsent(prefix, quota, after, path))
            && (reply != Done ==> after == store && reply == ReadReply(prefix, quota, store, path))
  {
    var (after, reply) := Apply(prefix, quota, store, RemoveFile(path));
    EntriesAreSeen(prefix, quota, store, path);
    EntriesAreSeen(prefix, quota, after, path);
    if reply == Done {
      assert SeenFile(prefix, quota, store, path, store[prefix + path].bytes);
    }
  }

  /** Making a directory always succeeds at a legal path; it is seen where nothing was, and else changes nothing. */
  lemma MadeIsSeen(prefix: Path, quota: nat, store: Store, path: Path)
    requires LegalPath(path)
    ensures var (after, reply) := Apply(prefix, quota, store, CreateDir(path));
            && reply == Done
            && (if SeenAbsent(prefix, quota, store, path) then SeenDirectory(prefix, quota, after, path)
                else after == store)
  {
    EntriesAreSeen(prefix, quota, store, path);
    EntriesAreSeen(prefix, quota, Apply(prefix, quota, store, CreateDir(path)).0, path);
  }

  /**
   Removing a tree succeeds exactly where a directory is seen. Then nothing is seen there or anywhere below, and
   every entry that is neither there nor below is as it was.
   */
  lemma RemovedTreeIsAbsent(prefix: Path, quota: nat, store: Store, path: Path)
    requires LegalPath(path)
    ensures var (after, reply) := Apply(prefix, quota, store, RemoveDirAll(path));
            && (reply == Done <==> SeenDirectory(prefix, quota, store, path))
            && (reply == Done ==>
                  forall below | LegalPath(path + below) :: SeenAbsent(prefix, quota, after, path + below))
            && (forall p | p in store && !(prefix + path <= p) :: p in after && after[p] == store[p])
            && (forall p | p in after :: p in store && (reply == Done ==> !(prefix + path <= p)))
            && (reply != Done ==> after == store && reply == Refused(NotFound))
  {
    var (after, reply) := Apply(prefix, quota, store, RemoveDirAll(path));
    EntriesAreSeen(prefix, quota, store, path);
    forall below | LegalPath(path + below) && reply == Done ensures SeenAbsent(prefix, quota, after, path + below) {
      assert prefix + path <= prefix + (path + below);
      EntriesAreSeen(prefix, quota, after, path + below);
    }
  }

  /** Ports opened with `child` reach the same entries: `child(name)` on `path` is the parent on `name/path`. */
  lemma ChildIsPrefix(prefix: Path, quota: nat, store: Store, name: Name, request: Request)
    requires Legal(name)
    ensures var nested := request.(path := [name] + request.path);
            if request.CompareExchange? && request.path == []
            then Apply(prefix + [name], quota, store, request) == (store, Refused(Escape))
            else Apply(prefix + [name], quota, store, request) == Apply(prefix, quota, store, nested)
  {
    var nested := request.(path := [name] + request.path);
    assert prefix + [name] + request.path == prefix + nested.path;
    assert LegalPath(nested.path) <==> LegalPath(request.path) by {
      if LegalPath(nested.path) {
        forall k | 0 <= k < |request.path| ensures Legal(request.path[k]) {
          assert nested.path[k + 1] == request.path[k];
        }
      }
    }
  }

  lemma {:induction false} RunKeepsLegalNames(quota: nat, store: Store, calls: seq<(Path, Request)>)
    requires LegalStore(store)
    requires forall k | 0 <= k < |calls| :: LegalPath(calls[k].0)
    ensures LegalStore(Run(quota, store, calls))
    decreases |calls|
  {
    if calls != [] {
      assert LegalPath(calls[0].0);
      forall k | 0 <= k < |calls[1..]| ensures LegalPath(calls[1..][k].0) {
        assert calls[1..][k] == calls[k + 1];
      }
      RunKeepsLegalNames(quota, Apply(calls[0].0, quota, store, calls[0].1).0, calls[1..]);
    }
  }

  function Names(rows: seq<HostEntry>): (names: seq<Name>)
    ensures |names| == |rows|
  {
    seq(|rows|, k requires 0 <= k < |rows| => rows[k].name)
  }

  /** `rows` is what listing the directory `base` must answer. */
  ghost predicate IsListing(store: Store, base: Path, rows: seq<HostEntry>) {
    && StrictlySorted(Names(rows))
    && (forall k | 0 <= k < |rows| ::
          base + [rows[k].name] in store && rows[k] == RowOf(rows[k].name, store[base + [rows[k].name]]))
    && (forall name | base + [name] in store :: name in Names(rows))
  }

  /** A listing and `metadata` always tell the same story, and there is only one possible listing. */
  lemma ListingMatchesMetadata(prefix: Path, quota: nat, store: Store, dir: Path, rows: seq<HostEntry>, row: HostEntry)
    requires LegalStore(store) && LegalPath(dir)
    requires IsListing(store, prefix + dir, rows)
    ensures row in rows <==> Apply(prefix, quota, store, Metadata(dir + [row.name])).1 == Found(Some(row))
  {
    var full := prefix + dir + [row.name];
    assert prefix + (dir + [row.name]) == full;
    if full in store {
      assert full[|full| - 1] == row.name;
      assert Legal(row.name);
      assert row.name in Names(rows);
      var k :| 0 <= k < |rows| && Names(rows)[k] == row.name;
      assert rows[k] == RowOf(row.name, store[full]);
      if row in rows {
        var j :| 0 <= j < |rows| && rows[j] == row;
        assert prefix + dir + [rows[j].name] == full;
      }
    }
  }

  // ---------- The mutable port ----------

  /** The state shared by a port and all of its children. */
  class SharedStore {
    var entries: Store
    const quota: nat

    constructor (quota: nat)
      ensures entries == map[] && this.quota == quota
    {
      this.quota := quota;
      entries := map[];
    }

    /** Adds up the file sizes entry by entry. */
    method UsedBytes() returns (used: nat)
      ensures used == Used(entries)
    {
      used := 0;
      var rest := entries;
      while rest != map[]
        invariant used + Used(rest) == Used(entries)
        decreases |rest|
      {
        var path :| path in rest;
        UsedSplit(rest, path);
        used := used + Size(rest[path]);
        rest := rest - {path};
      }
    }

    /** The quota test and insertion common to `replace` and `compare_exchange`. */
    method TryInsert(full: Path, bytes: Bytes) returns (stored: bool)
      modifies this
      ensures var (after, reply) := Write(quota, old(entries), full, bytes, Done);
              entries == after && stored == (reply == Done)
    {
      var used := UsedBytes();
      var size := if full in entries then Size(entries[full]) else 0;
      UsedInsert(entries, full, File(bytes));
      if used - size + |bytes| > quota {
        return false;
      }
      entries := entries[full := File(bytes)];
      return true;
    }
  }

  class MemoryHostDirPort {
    const state: SharedStore
    const prefix: Path

    constructor (state: SharedStore, prefix: Path)
      ensures this.state == state && this.prefix == prefix
    {
      this.state := state;
      this.prefix := prefix;
    }

    method FindMetadata(path: Path) returns (reply: Reply)
      ensures reply == Apply(prefix, state.quota, state.entries, Metadata(path)).1
    {
      if !LegalPath(path) {
        return Refused(Escape);
      }
      var full := prefix + path;
      if full !in state.entries {
        return Found(None);
      }
      return Found(Some(RowOf(LastName(full), state.entries[full])));
    }

    method ReadFile(path: Path) returns (reply: Reply)
      ensures reply == Apply(prefix, state.quota, state.entries, Read(path)).1
    {
      if !LegalPath(path) {
        return Refused(Escape);
      }
      var full := prefix + path;
      if full !in state.entries {
        return Refused(NotFound);
      }
      match state.entries[full]
      case File(bytes) => return Contents(bytes);
      case Dir => return Refused(SpecialFile);
    }

    method ReplaceFile(path: Path, bytes: Bytes, cancelled: bool) returns (reply: Reply)
      modifies state
      ensures (state.entries, reply)
           == Apply(prefix, state.quota, old(state.entries), Replace(path, bytes, cancelled))
    {
      if cancelled {
        return Refused(Cancelled);
      }
      if !LegalPath(path) {
        return Refused(Escape);
      }
      var stored := state.TryInsert(prefix + path, bytes);
      reply := if stored then Done else Refused(QuotaExceeded);
    }

    method CompareExchangeFile(path: Path, expected: Option<Bytes>, replacement: Option<Bytes>, early: bool, late: bool)
      returns (reply: Reply)
      modifies state
      ensures (state.entries, reply) == Apply(prefix, state.quota, old(state.entries),
                                              CompareExchange(path, expected, replacement, early, late))
    {
      if path == [] {
        return Refused(Escape);
      }
      if early {
        return Refused(Cancelled);
      }
      if !LegalPath(path) {
        return Refused(Escape);
      }
      var full := prefix + path;
      var observed: Option<Bytes> := None;
      if full in state.entries {
        match state.entries[full] {
          case Dir => return Refused(SpecialFile);
          case File(bytes) => observed := Some(bytes);
        }
      }
      if late {
        return Refused(Cancelled);
      }
      var exchanged := observed == expected;
      if exchanged {
        match replacement {
          case Some(bytes) =>
            var stored := state.TryInsert(full, bytes);
            if !stored {
              return Refused(QuotaExceeded);
            }
          case None =>
            state.entries := state.entries - {full};
        }
      }
      return Exchanged(exchanged, observed);
    }

    method RemoveLeaf(path: Path) returns (reply: Reply)
      modifies state
      ensures (state.entries, reply) == Apply(prefix, state.quota, old(state.entries), RemoveFile(path))
    {
      if !LegalPath(path) {
        return Refused(Escape);
      }
      var full := prefix + path;
      if full !in state.entries {
        return Refused(NotFound);
      }
      var removed := state.entries[full];
      state.entries := state.entries - {full};
      if removed.Dir? {
        state.entries := state.entries[full := Dir];
        assert state.entries == old(state.entries);
        return Refused(SpecialFile);
      }
      return Done;
    }

    method MakeDir(path: Path) returns (reply: Reply)
      modifies state
      ensures (state.entries, reply) == Apply(prefix, state.quota, old(state.entries), CreateDir(path))
    {
      if !LegalPath(path) {
        return Refused(Escape);
      }
      if prefix + path !in state.entries {
        state.entries := state.entries[prefix + path := Dir];
      }
      return Done;
    }

    method RemoveTree(path: Path) returns (reply: Reply)
      modifies state
      ensures (state.entries, reply) == Apply(prefix, state.quota, old(state.entries), RemoveDirAll(path))
    {
      if !LegalPath(path) {
        return Refused(Escape);
      }
      var full := prefix + path;
      if full !in state.entries || !state.entries[full].Dir? {
        return Refused(NotFound);
      }
      state.entries := Outside(state.entries, full);
      return Done;
    }

    method Child(name: Name) returns (port: Option<MemoryHostDirPort>)
      ensures port.Some? <==> Legal(name)
      ensures port.Some? ==> port.value.state == state && port.value.prefix == prefix + [name]
    {
      if !Legal(name) {
        return None;
      }
      var child := new MemoryHostDirPort(state, prefix + [name]);
      return Some(child);
    }

    /** Collects the direct children into an ordered map and answers its values. */
    method List(dir: Path) returns (listing: Result<seq<HostEntry>, Kind>)
      ensures listing == Err(Escape) <==> !LegalPath(dir)
      ensures listing.Ok? <==> LegalPath(dir)
      ensures listing.Ok? ==> IsListing(state.entries, prefix + dir, listing.value)
    {
      if !LegalPath(dir) {
        return Err(Escape);
      }
      var base := prefix + dir;
      var names: seq<Name> := [];
      var rest := state.entries;
      while rest != map[]
        invariant StrictlySorted(names)
        invariant forall p | p in rest :: p in state.entries && rest[p] == state.entries[p]
        invariant forall name | name in names :: base + [name] in state.entries
        invariant forall name | base + [name] in state.entries :: name in names || base + [name] in rest
        decreases |rest|
      {
        var path :| path in rest;
        if |path| == |base| + 1 && base <= path {
          assert path == base + [LastName(path)];
          InsertKeepsOrder(names, LastName(path));
          names := Insert(names, LastName(path));
        } else {
          assert forall name :: path != base + [name];
        }
        rest := rest - {path};
      }
      var rows: seq<HostEntry> := [];
      for i := 0 to |names|
        invariant |rows| == i
        invariant forall k | 0 <= k < i :: rows[k] == RowOf(names[k], state.entries[base + [names[k]]])
      {
        rows := rows + [RowOf(names[i], state.entries[base + [names[i]]])];
      }
      assert Names(rows) == names;
      return Ok(rows);
    }
  }
}
