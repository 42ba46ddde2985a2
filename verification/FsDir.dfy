/** The file-backed table as the program runs it: every operation works through the storage port. */
module FsDirectory {
  import opened Common
  import opened Paths
  import opened NameOrder
  import opened LeafNames
  import opened HostDir
  import opened FsTable

  datatype Op<Expr> = Get(key: Symbol) | Has(key: Symbol) | Set(key: Symbol, value: Expr) | Del(key: Symbol) | Clear

  datatype Answer<Expr> = Value(value: Expr) | Present(present: bool) | Written | Cleared | Failed(error: TableError)

  /** What a finite map answers to an operation other than a write. */
  function Read<Expr>(nil: Expr, contents: map<Name, Expr>, key: Name): Expr {
    if key in contents then contents[key] else nil
  }

  /**
   One operation on the store `store`, which represents the finite map `before`: its answer, the map afterwards,
   and the files it may touch. A write is refused for an illegal key, a value without encoding or a full quota,
   and for nothing else.
   */
  ghost predicate MapStep<Expr(!new)>(codec: Codec<Expr>, nil: Expr, quota: nat, base: Path, store: Store,
                                      before: map<Name, Expr>, op: Op<Expr>, answer: Answer<Expr>,
                                      after: map<Name, Expr>, next: Store) {
    if !op.Clear? && !Legal(op.key.name) then answer == Failed(IllegalName) && after == before && next == store
    else
      match op
      case Get(key) => answer == Value(Read(nil, before, key.name)) && after == before && next == store
      case Has(key) => answer == Present(key.name in before) && after == before && next == store
      case Set(key, value) =>
        var refusal := SetRefusal(codec, quota, store, base, key.name, value);
        if refusal.Some? then answer == Failed(refusal.value) && after == before && next == store
        else answer == Written && after == before[key.name := value] && OnlyTouches(store, next, base, {key.name})
      case Del(key) =>
        && answer == Value(Read(nil, before, key.name)) && after == before - {key.name}
        && OnlyTouches(store, next, base, {key.name})
      case Clear =>
        answer == Cleared && after == HiddenPart(before) && OnlyTouches(store, next, base, VisibleKeySet(before))
  }

  function CountOf<T>(items: Result<seq<T>, TableError>): Result<nat, TableError> {
    match items
    case Err(e) => Err(e)
    case Ok(values) => Ok(|values|)
  }

  class FsDir<Expr(!new)> {
    const port: MemoryHostDirPort
    const codec: Codec<Expr>
    const nil: Expr

    constructor (port: MemoryHostDirPort, codec: Codec<Expr>, nil: Expr)
      ensures this.port == port && this.codec == codec && this.nil == nil
    {
      this.port, this.codec, this.nil := port, codec, nil;
    }

    /** The table represents `contents`, seen from a moment at which the port held `store`. */
    ghost predicate Held(store: Store, contents: map<Name, Expr>) {
      Represents(codec, store, port.prefix, contents)
    }

    /** Asks the port about one name in this directory. */
    method Lookup(name: Name) returns (entry: Option<EntryKind>)
      requires Legal(name)
      ensures entry.Some? <==> port.prefix + [name] in port.state.entries
      ensures entry.Some? ==> entry.value == KindAt(port.state.entries, port.prefix, name)
    {
      var reply := port.FindMetadata([name]);
      assert LegalPath([name]);
      entry := match reply.entry case None => None case Some(row) => Some(row.kind);
    }

    method LeafCandidates(key: Symbol) returns (r: Result<seq<Name>, TableError>)
      ensures r == if Legal(key.name) then Ok(AllCandidates(port.state.entries, port.prefix, key.name))
                   else Err(IllegalName)
    {
      if !Legal(key.name) {
        return Err(IllegalName);
      }
      var matches: seq<Name> := [];
      for i := 0 to |KNOWN_EXTS|
        invariant matches == Candidates(port.state.entries, port.prefix, key.name, i)
      {
        var ext := KNOWN_EXTS[i];
        LeafNamesAreLegal(key.name, ext);
        var entry := Lookup(LeafName(key.name, ext));
        if entry.Some? {
          matches := matches + [ext];
        }
      }
      return Ok(matches);
    }

    method LeafPathForRead(key: Symbol) returns (r: Result<Option<Name>, TableError>)
      ensures r == LeafFor(port.state.entries, port.prefix, key.name)
    {
      var matches := LeafCandidates(key);
      if matches.Err? {
        return Err(matches.error);
      }
      if |matches.value| == 0 {
        return Ok(None);
      }
      if |matches.value| == 1 {
        return Ok(Some(matches.value[0]));
      }
      return Err(MultipleLeaves);
    }

    /** Reads the leaf at a path that was made for a legal key and a known extension. */
    method ReadLeafPath(name: Name, ext: Name) returns (r: Result<Expr, TableError>)
      requires Legal(name) && ext in KNOWN_EXTS
      ensures r == ReadLeaf(codec, port.state.entries, port.prefix, name, ext)
    {
      LeafNamesAreLegal(name, ext);
      var reply := port.ReadFile([LeafName(name, ext)]);
      if reply.Refused? {
        return Err(PortError(reply.kind));
      }
      match codec.decode(ext, reply.bytes)
      case None => return Err(CodecError);
      case Some(value) => return Ok(value);
    }

    method Get(key: Symbol) returns (r: Result<Expr, TableError>)
      ensures r == GetSpec(codec, nil, port.state.entries, port.prefix, key)
    {
      var leaf := LeafPathForRead(key);
      CandidatesExist(port.state.entries, port.prefix, key.name, |KNOWN_EXTS|);
      if leaf.Err? {
        return Err(leaf.error);
      }
      match leaf.value
      case None => return Ok(nil);
      case Some(ext) => r := ReadLeafPath(key.name, ext);
    }

    /** Removes the leaves of other extensions, sparing the one in use and any `siml` leaf. */
    method RemoveOthers(key: Name, candidates: seq<Name>, existing: Option<Name>) returns (refused: Option<Kind>)
      requires Legal(key) && forall ext | ext in candidates :: ext in KNOWN_EXTS
      modifies port.state
      ensures (port.state.entries, refused)
           == OthersRemoved(old(port.state.entries), port.prefix, key, candidates, existing)
    {
      for i := 0 to |candidates|
        invariant OthersRemoved(old(port.state.entries), port.prefix, key, candidates, existing)
               == OthersRemoved(port.state.entries, port.prefix, key, candidates[i..], existing)
      {
        var ext := candidates[i];
        assert candidates[i..][0] == ext && candidates[i..][1..] == candidates[i + 1..];
        if existing != Some(ext) && ext != SIML {
          LeafNamesAreLegal(key, ext);
          assert port.prefix + [LeafName(key, ext)] == LeafPath(port.prefix, key, ext);
          var removed := port.RemoveLeaf([LeafName(key, ext)]);
          if removed.Refused? {
            return Some(removed.kind);
          }
        }
      }
      return None;
    }

    method Set(key: Symbol, value: Expr) returns (r: Result<(), TableError>)
      modifies port.state
      ensures (port.state.entries, r)
           == SetSpec(codec, port.state.quota, old(port.state.entries), port.prefix, key, value)
    {
      if !Legal(key.name) {
        return Err(IllegalName);
      }
      var base := Lookup(key.name);
      if base == Some(DirectoryKind) {
        return Err(IsDirectory);
      }
      var existing := LeafPathForRead(key);
      if existing.Err? {
        return Err(existing.error);
      }
      CandidatesExist(port.state.entries, port.prefix, key.name, |KNOWN_EXTS|);
      var candidates := LeafCandidates(key);
      var refused := RemoveOthers(key.name, candidates.value, existing.value);
      assert refused.None?;
      var ext := if existing.value.Some? then existing.value.value else SIML;
      var encoded := codec.encode(value);
      if encoded.None? {
        return Err(CodecError);
      }
      LeafNamesAreLegal(key.name, ext);
      assert port.prefix + [LeafName(key.name, ext)] == LeafPath(port.prefix, key.name, ext);
      var reply := port.ReplaceFile([LeafName(key.name, ext)], encoded.value, false);
      if reply.Refused? {
        return Err(PortError(reply.kind));
      }
      return Ok(());
    }

    method Has(key: Symbol) returns (r: Result<bool, TableError>)
      ensures r == HasSpec(port.state.entries, port.prefix, key)
    {
      if !Legal(key.name) {
        return Err(IllegalName);
      }
      var base := Lookup(key.name);
      if base == Some(DirectoryKind) {
        return Ok(true);
      }
      var leaf := LeafPathForRead(key);
      if leaf.Err? {
        return Err(leaf.error);
      }
      return Ok(leaf.value.Some?);
    }

    method Del(key: Symbol) returns (r: Result<Expr, TableError>)
      modifies port.state
      ensures (port.state.entries, r) == DelSpec(codec, nil, old(port.state.entries), port.prefix, key)
    {
      var leaf := LeafPathForRead(key);
      CandidatesExist(port.state.entries, port.prefix, key.name, |KNOWN_EXTS|);
      if leaf.Err? {
        return Err(leaf.error);
      }
      if leaf.value.None? {
        return Ok(nil);
      }
      var ext := leaf.value.value;
      r := ReadLeafPath(key.name, ext);
      if r.Err? {
        return;
      }
      LeafNamesAreLegal(key.name, ext);
      assert port.prefix + [LeafName(key.name, ext)] == LeafPath(port.prefix, key.name, ext);
      var removed := port.RemoveLeaf([LeafName(key.name, ext)]);
    }

    /** The listed keys: directories under their names, leaves under their stems, dotted names not at all. */
    method Keys() returns (keys: seq<Name>)
      ensures IsKeyList(port.state.entries, port.prefix, keys)
    {
      var listing := port.List([]);
      assert port.prefix + [] == port.prefix;
      var rows := listing.value;
      keys := [];
      for i := 0 to |rows|
        invariant StrictlySorted(keys)
        invariant forall k | 0 <= k < i && ListedKey(rows[k].name, rows[k].kind).Some? ::
                    ListedKey(rows[k].name, rows[k].kind).value in keys
        invariant forall key | key in keys ::
                    exists k :: 0 <= k < i && ListedKey(rows[k].name, rows[k].kind) == Some(key)
      {
        var row := rows[i];
        if Hidden(row.name) {
          continue;
        }
        var key := if row.kind.DirectoryKind? then Some(row.name) else Stem(row.name, KNOWN_EXTS);
        if key.None? {
          continue;
        }
        InsertKeepsOrder(keys, key.value);
        keys := Insert(keys, key.value);
      }
      ListedRows(rows, keys);
    }

    lemma ListedRows(rows: seq<HostEntry>, keys: seq<Name>)
      requires IsListing(port.state.entries, port.prefix, rows) && StrictlySorted(keys)
      requires forall k | 0 <= k < |rows| && ListedKey(rows[k].name, rows[k].kind).Some? ::
                 ListedKey(rows[k].name, rows[k].kind).value in keys
      requires forall key | key in keys ::
                 exists k :: 0 <= k < |rows| && ListedKey(rows[k].name, rows[k].kind) == Some(key)
      ensures IsKeyList(port.state.entries, port.prefix, keys)
    {
      var entries, base := port.state.entries, port.prefix;
      assert forall k | 0 <= k < |rows| :: base + [rows[k].name] in entries
                                           && rows[k].kind == KindAt(entries, base, rows[k].name);
      forall name | base + [name] in entries && ListedKey(name, KindAt(entries, base, name)).Some?
        ensures ListedKey(name, KindAt(entries, base, name)).value in keys
      {
        assert name in Names(rows);
        var k :| 0 <= k < |rows| && Names(rows)[k] == name;
        assert rows[k].name == name;
      }
      forall key | key in keys
        ensures exists name :: base + [name] in entries && ListedKey(name, KindAt(entries, base, name)) == Some(key)
      {
        var k :| 0 <= k < |rows| && ListedKey(rows[k].name, rows[k].kind) == Some(key);
        assert base + [rows[k].name] in entries;
      }
    }

    method IsDir(name: Name) returns (r: Result<bool, TableError>)
      ensures r == if Legal(name) then Ok(IsDirAt(port.state.entries, port.prefix, name)) else Err(IllegalName)
    {
      if !Legal(name) {
        return Err(IllegalName);
      }
      var entry := Lookup(name);
      return Ok(entry == Some(DirectoryKind));
    }

    /** Lists the pairs of all listed keys that are not directories. */
    method Entries() returns (r: Result<seq<(Name, Expr)>, TableError>)
      ensures exists keys :: IsKeyList(port.state.entries, port.prefix, keys)
                             && r == EntriesSpec(codec, nil, port.state.entries, port.prefix, keys)
    {
      var keys := Keys();
      var entries: seq<(Name, Expr)> := [];
      for i := 0 to |keys|
        invariant EntriesSpec(codec, nil, port.state.entries, port.prefix, keys[..i]) == Ok(entries)
      {
        assert keys[..i + 1][..i] == keys[..i];
        var isDir := IsDir(keys[i]);
        if isDir.Err? {
          EntriesStop(keys, i + 1, isDir.error);
          return Err(isDir.error);
        }
        if isDir.value {
          continue;
        }
        var value := Get(ListedSymbol(keys[i]));
        if value.Err? {
          EntriesStop(keys, i + 1, value.error);
          return Err(value.error);
        }
        entries := entries + [(keys[i], value.value)];
      }
      assert keys[..|keys|] == keys;
      return Ok(entries);
    }

    /** A failure among the first keys is the answer for all. */
    lemma {:induction false} EntriesStop(keys: seq<Name>, n: nat, error: TableError)
      requires n <= |keys| && EntriesSpec(codec, nil, port.state.entries, port.prefix, keys[..n]) == Err(error)
      ensures EntriesSpec(codec, nil, port.state.entries, port.prefix, keys) == Err(error)
      decreases |keys|
    {
      if n == |keys| {
        assert keys[..n] == keys;
      } else {
        var front := keys[..|keys| - 1];
        assert front[..n] == keys[..n];
        EntriesStop(front, n, error);
      }
    }

    method Len() returns (r: Result<nat, TableError>)
      ensures exists keys :: IsKeyList(port.state.entries, port.prefix, keys)
                             && r == CountOf(EntriesSpec(codec, nil, port.state.entries, port.prefix, keys))
    {
      var entries := Entries();
      return if entries.Ok? then Ok(|entries.value|) else Err(entries.error);
    }

    /** Deletes every listed key that is not a directory. */
    method ClearAll() returns (r: Result<(), TableError>, ghost keys: seq<Name>)
      modifies port.state
      ensures IsKeyList(old(port.state.entries), port.prefix, keys)
      ensures (port.state.entries, r) == ClearSpec(codec, nil, old(port.state.entries), port.prefix, keys)
    {
      var listed := Keys();
      keys := listed;
      for i := 0 to |listed|
        invariant ClearSpec(codec, nil, old(port.state.entries), port.prefix, listed)
               == ClearSpec(codec, nil, port.state.entries, port.prefix, listed[i..])
      {
        assert listed[i..][0] == listed[i] && listed[i..][1..] == listed[i + 1..];
        var isDir := IsDir(listed[i]);
        if isDir.Err? {
          return Err(isDir.error), keys;
        }
        if !isDir.value {
          var deleted := Del(ListedSymbol(listed[i]));
          if deleted.Err? {
            return Err(deleted.error), keys;
          }
        }
      }
      return Ok(()), keys;
    }

    /** One operation of a client. */
    method Execute(op: Op<Expr>, ghost before: map<Name, Expr>)
      returns (answer: Answer<Expr>, ghost after: map<Name, Expr>)
      requires Held(port.state.entries, before) && Faithful(codec)
      modifies port.state
      ensures Held(port.state.entries, after)
      ensures MapStep(codec, nil, port.state.quota, port.prefix, old(port.state.entries), before, op, answer, after,
                      port.state.entries)
    {
      ghost var store, base := port.state.entries, port.prefix;
      after := before;
      match op {
        case Get(key) =>
          GetRefinesMap(codec, nil, store, base, before, key);
          var r := Get(key);
          answer := if r.Ok? then Value(r.value) else Failed(r.error);
        case Has(key) =>
          GetRefinesMap(codec, nil, store, base, before, key);
          var r := Has(key);
          answer := if r.Ok? then Present(r.value) else Failed(r.error);
        case Set(key, value) =>
          SetRefinesMap(codec, port.state.quota, store, base, before, key, value);
          var r := Set(key, value);
          answer := if r.Ok? then Written else Failed(r.error);
          after := if r.Ok? then before[key.name := value] else before;
        case Del(key) =>
          GetRefinesMap(codec, nil, store, base, before, key);
          DelRefinesMap(codec, nil, store, base, before, key);
          var r := Del(key);
          answer := if r.Ok? then Value(r.value) else Failed(r.error);
          after := if r.Ok? then before - {key.name} else before;
        case Clear =>
          var r;
          ghost var keys;
          r, keys := ClearAll();
          answer := if r.Ok? then Cleared else Failed(r.error);
          ClearRefinesMap(codec, nil, store, base, before, keys);
          after := HiddenPart(before);
      }
    }

    /**
     Any sequence of operations is answered as a finite map would answer it; after every one of them the directory
     represents that map, and only the files of the keys concerned have changed.
     */
    method ExecuteAll(ops: seq<Op<Expr>>, ghost initial: map<Name, Expr>)
      returns (answers: seq<Answer<Expr>>, ghost states: seq<map<Name, Expr>>, ghost stores: seq<Store>)
      requires Held(port.state.entries, initial) && Faithful(codec)
      modifies port.state
      ensures |answers| == |ops| && |states| == |stores| == |ops| + 1
      ensures states[0] == initial && stores[0] == old(port.state.entries) && stores[|ops|] == port.state.entries
      ensures forall i | 0 <= i <= |ops| :: Held(stores[i], states[i])
      ensures forall i | 0 <= i < |ops| ::
                MapStep(codec, nil, port.state.quota, port.prefix, stores[i], states[i], ops[i], answers[i],
                        states[i + 1], stores[i + 1])
    {
      answers, states, stores := [], [initial], [port.state.entries];
      for i := 0 to |ops|
        invariant |answers| == i && |states| == |stores| == i + 1
        invariant states[0] == initial && stores[0] == old(port.state.entries) && stores[i] == port.state.entries
        invariant forall k | 0 <= k <= i :: Held(stores[k], states[k])
        invariant forall k | 0 <= k < i ::
                    MapStep(codec, nil, port.state.quota, port.prefix, stores[k], states[k], ops[k], answers[k],
                            states[k + 1], stores[k + 1])
      {
        var answer;
        ghost var after;
        answer, after := Execute(ops[i], states[i]);
        answers, states, stores := answers + [answer], states + [after], stores + [port.state.entries];
      }
    }
  }
}
