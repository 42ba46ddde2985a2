/** A key/value table kept as one leaf file per key on the host-directory port, and the map it refines. */
module FsTable {
  import opened Common
  import opened Paths
  import opened NameOrder
  import opened LeafNames
  import opened HostDir

  datatype TableError = IllegalName | IsDirectory | MultipleLeaves | PortError(kind: Kind) | CodecError

  /** The leaf codecs: values are always written by `encode`, and read back by the codec of the extension. */
  datatype Codec<!Expr> = Codec(encode: Expr -> Option<Bytes>, decode: (Name, Bytes) -> Option<Expr>)

  function LeafPath(base: Path, name: Name, ext: Name): Path {
    base + [LeafName(name, ext)]
  }

  /** The extensions, among the first `n` known ones, for which the key has a leaf. */
  function Candidates(entries: Store, base: Path, name: Name, n: nat): seq<Name>
    requires n <= |KNOWN_EXTS|
  {
    if n == 0 then []
    else
      Candidates(entries, base, name, n - 1)
      + if LeafPath(base, name, KNOWN_EXTS[n - 1]) in entries then [KNOWN_EXTS[n - 1]] else []
  }

  function AllCandidates(entries: Store, base: Path, name: Name): seq<Name> {
    Candidates(entries, base, name, |KNOWN_EXTS|)
  }

  /** The extension of the one leaf a key may have. */
  function LeafFor(entries: Store, base: Path, name: Name): Result<Option<Name>, TableError> {
    var found := AllCandidates(entries, base, name);
    if !Legal(name) then Err(IllegalName)
    else if |found| == 0 then Ok(None)
    else if |found| == 1 then Ok(Some(found[0]))
    else Err(MultipleLeaves)
  }

  predicate IsDirAt(entries: Store, base: Path, name: Name) {
    base + [name] in entries && entries[base + [name]].Dir?
  }

  function ReadLeaf<Expr>(codec: Codec<Expr>, entries: Store, base: Path, name: Name, ext: Name):
    Result<Expr, TableError>
  {
    var leaf := LeafPath(base, name, ext);
    if leaf !in entries then Err(PortError(NotFound))
    else
      match entries[leaf]
      case Dir => Err(PortError(SpecialFile))
      case File(bytes) =>
        match codec.decode(ext, bytes)
        case None => Err(CodecError)
        case Some(value) => Ok(value)
  }

  lemma {:induction false} CandidatesExist(entries: Store, base: Path, name: Name, n: nat)
    requires n <= |KNOWN_EXTS|
    ensures forall ext | ext in Candidates(entries, base, name, n) ::
              ext in KNOWN_EXTS && LeafPath(base, name, ext) in entries
  {
    if n > 0 {
      CandidatesExist(entries, base, name, n - 1);
    }
  }

  /** Reading a key: `nil` when it has no leaf. */
  function GetSpec<Expr>(codec: Codec<Expr>, nil: Expr, entries: Store, base: Path, key: Symbol):
    Result<Expr, TableError>
  {
    match LeafFor(entries, base, key.name)
    case Err(e) => Err(e)
    case Ok(None) => Ok(nil)
    case Ok(Some(ext)) => ReadLeaf(codec, entries, base, key.name, ext)
  }

  /** Writing a key: the existing leaf is replaced under its own extension, a new one is a `siml` leaf. */
  ghost function SetSpec<Expr>(codec: Codec<Expr>, quota: nat, entries: Store, base: Path, key: Symbol, value: Expr):
    (Store, Result<(), TableError>)
  {
    if !Legal(key.name) then (entries, Err(IllegalName))
    else if IsDirAt(entries, base, key.name) then (entries, Err(IsDirectory))
    else
      match LeafFor(entries, base, key.name)
      case Err(e) => (entries, Err(e))
      case Ok(existing) =>
        var ext := if existing.Some? then existing.value else SIML;
        match codec.encode(value)
        case None => (entries, Err(CodecError))
        case Some(bytes) =>
          var (after, reply) := Write(quota, entries, LeafPath(base, key.name, ext), bytes, Done);
          (after, if reply.Done? then Ok(()) else Err(PortError(QuotaExceeded)))
  }

  /**
   What removing the leaves of other extensions does, sparing the one in use and any `siml` leaf; the first
   removal the port refuses ends it.
   */
  function OthersRemoved(entries: Store, base: Path, key: Name, candidates: seq<Name>, existing: Option<Name>):
    (Store, Option<Kind>)
  {
    if candidates == [] then (entries, None)
    else if existing == Some(candidates[0]) || candidates[0] == SIML then
      OthersRemoved(entries, base, key, candidates[1..], existing)
    else
      var leaf := LeafPath(base, key, candidates[0]);
      if leaf !in entries then (entries, Some(NotFound))
      else if entries[leaf].Dir? then (entries, Some(SpecialFile))
      else OthersRemoved(entries - {leaf}, base, key, candidates[1..], existing)
  }

  function HasSpec(entries: Store, base: Path, key: Symbol): Result<bool, TableError> {
    if !Legal(key.name) then Err(IllegalName)
    else if IsDirAt(entries, base, key.name) then Ok(true)
    else
      match LeafFor(entries, base, key.name)
      case Err(e) => Err(e)
      case Ok(existing) => Ok(existing.Some?)
  }

  function DelSpec<Expr>(codec: Codec<Expr>, nil: Expr, entries: Store, base: Path, key: Symbol):
    (Store, Result<Expr, TableError>)
  {
    match LeafFor(entries, base, key.name)
    case Err(e) => (entries, Err(e))
    case Ok(None) => (entries, Ok(nil))
    case Ok(Some(ext)) =>
      var value := ReadLeaf(codec, entries, base, key.name, ext);
      if value.Err? then (entries, value) else (entries - {LeafPath(base, key.name, ext)}, value)
  }

  /** A listed key as a symbol: without a namespace. */
  function ListedSymbol(key: Name): Symbol {
    Symbol(None, key)
  }

  /** The pairs of the listed keys that are not directories, up to the first that cannot be read. */
  function EntriesSpec<Expr>(codec: Codec<Expr>, nil: Expr, entries: Store, base: Path, keys: seq<Name>):
    Result<seq<(Name, Expr)>, TableError>
  {
    if keys == [] then Ok([])
    else
      var front, key := keys[..|keys| - 1], keys[|keys| - 1];
      match EntriesSpec(codec, nil, entries, base, front)
      case Err(e) => Err(e)
      case Ok(pairs) =>
        if !Legal(key) then Err(IllegalName)
        else if IsDirAt(entries, base, key) then Ok(pairs)
        else
          match GetSpec(codec, nil, entries, base, ListedSymbol(key))
          case Err(e) => Err(e)
          case Ok(value) => Ok(pairs + [(key, value)])
  }

  /** Deleting the listed keys that are not directories, up to the first that cannot be deleted. */
  function ClearSpec<Expr>(codec: Codec<Expr>, nil: Expr, entries: Store, base: Path, keys: seq<Name>):
    (Store, Result<(), TableError>)
    decreases |keys|
  {
    if keys == [] then (entries, Ok(()))
    else if !Legal(keys[0]) then (entries, Err(IllegalName))
    else if IsDirAt(entries, base, keys[0]) then ClearSpec(codec, nil, entries, base, keys[1..])
    else
      var (after, r) := DelSpec(codec, nil, entries, base, ListedSymbol(keys[0]));
      if r.Err? then (after, Err(r.error)) else ClearSpec(codec, nil, after, base, keys[1..])
  }

  // ---------- The map behind a flat table of siml leaves ----------

  /**
   The directory `base` holds nothing but one readable `siml` leaf for each key of `contents`. This is
   the part of the state space in which the table is a map.
   */
  ghost predicate Represents<Expr(!new)>(codec: Codec<Expr>, entries: Store, base: Path, contents: map<Name, Expr>) {
    && (forall key | key in contents ::
          && Legal(key)
          && LeafPath(base, key, SIML) in entries
          && ReadLeaf(codec, entries, base, key, SIML) == Ok(contents[key]))
    && (forall name | base + [name] in entries ::
          SplitLastDot(name).Some? && SplitLastDot(name).value.1 == SIML && SplitLastDot(name).value.0 in contents)
  }

  /** What was written can be read back from a `siml` leaf. */
  ghost predicate Faithful<Expr(!new)>(codec: Codec<Expr>) {
    forall value :: codec.encode(value).Some? ==> codec.decode(SIML, codec.encode(value).value) == Some(value)
  }

  lemma NoDirectories<Expr(!new)>(codec: Codec<Expr>, entries: Store, base: Path, contents: map<Name, Expr>, key: Name)
    requires Represents(codec, entries, base, contents)
    ensures !IsDirAt(entries, base, key)
  {
    if base + [key] in entries {
      var stem := SplitLastDot(key).value.0;
      assert LeafPath(base, stem, SIML) == base + [key];
    }
  }

  lemma LeafPresence<Expr(!new)>(codec: Codec<Expr>, entries: Store, base: Path, contents: map<Name, Expr>, key: Name)
    requires Represents(codec, entries, base, contents)
    ensures forall ext | ext in KNOWN_EXTS :: LeafPath(base, key, ext) in entries <==> ext == SIML && key in contents
    ensures !IsDirAt(entries, base, key)
    ensures AllCandidates(entries, base, key) == if key in contents then [SIML] else []
  {
    forall ext | ext in KNOWN_EXTS
      ensures LeafPath(base, key, ext) in entries <==> ext == SIML && key in contents
    {
      SplitLeafName(key, ext);
    }
    NoDirectories(codec, entries, base, contents, key);
    assert Candidates(entries, base, key, 0) == [];
    assert Candidates(entries, base, key, 1) == if key in contents then [SIML] else [];
    assert Candidates(entries, base, key, 2) == Candidates(entries, base, key, 1);
    assert Candidates(entries, base, key, 3) == Candidates(entries, base, key, 2);
    assert Candidates(entries, base, key, 4) == Candidates(entries, base, key, 3);
    assert Candidates(entries, base, key, 5) == Candidates(entries, base, key, 4);
  }

  lemma GetRefinesMap<Expr(!new)>(codec: Codec<Expr>, nil: Expr, entries: Store, base: Path, contents: map<Name, Expr>,
                                  key: Symbol)
    requires Represents(codec, entries, base, contents)
    ensures GetSpec(codec, nil, entries, base, key)
         == if !Legal(key.name) then Err(IllegalName) else Ok(if key.name in contents then contents[key.name] else nil)
    ensures HasSpec(entries, base, key) == if !Legal(key.name) then Err(IllegalName) else Ok(key.name in contents)
  {
    LeafPresence(codec, entries, base, contents, key.name);
  }

  lemma LeafPathsDiffer(base: Path, a: Name, b: Name)
    ensures LeafPath(base, a, SIML) == LeafPath(base, b, SIML) <==> a == b
  {
    LeafNamesInjective(a, SIML, b, SIML);
    assert LeafPath(base, a, SIML)[|base|] == LeafName(a, SIML);
    assert LeafPath(base, b, SIML)[|base|] == LeafName(b, SIML);
  }

  lemma NamesAfterInsert(entries: Store, base: Path, key: Name, bytes: Bytes, name: Name)
    requires base + [name] in entries[LeafPath(base, key, SIML) := File(bytes)]
    ensures base + [name] in entries || name == LeafName(key, SIML)
  {
    assert (base + [name])[|base|] == name && LeafPath(base, key, SIML)[|base|] == LeafName(key, SIML);
  }

  lemma InsertRepresents<Expr(!new)>(codec: Codec<Expr>, entries: Store, base: Path, contents: map<Name, Expr>,
                                     key: Name, value: Expr, bytes: Bytes)
    requires Represents(codec, entries, base, contents) && Legal(key) && codec.decode(SIML, bytes) == Some(value)
    ensures Represents(codec, entries[LeafPath(base, key, SIML) := File(bytes)], base, contents[key := value])
  {
    var leaf := LeafPath(base, key, SIML);
    var after := entries[leaf := File(bytes)];
    forall other | other in contents && other != key ensures LeafPath(base, other, SIML) != leaf {
      LeafPathsDiffer(base, other, key);
    }
    forall name | base + [name] in after
      ensures SplitLastDot(name).Some? && SplitLastDot(name).value.1 == SIML
              && SplitLastDot(name).value.0 in contents[key := value]
    {
      SplitLeafName(key, SIML);
      NamesAfterInsert(entries, base, key, bytes, name);
    }
  }

  /** No path but the `siml` leaves of `keys` has changed. */
  ghost predicate OnlyTouches(before: Store, after: Store, base: Path, keys: set<Name>) {
    forall p | !(exists key :: key in keys && p == LeafPath(base, key, SIML)) ::
      (p in after <==> p in before) && (p in after ==> after[p] == before[p])
  }

  lemma TouchesOne(before: Store, after: Store, base: Path, key: Name)
    requires forall p | p != LeafPath(base, key, SIML) ::
               (p in after <==> p in before) && (p in after ==> after[p] == before[p])
    ensures OnlyTouches(before, after, base, {key})
  {
    assert key in {key};
  }

  /** Why a `set` of a legal key is refused on a flat table, if it is: the value or the quota. */
  ghost function SetRefusal<Expr>(codec: Codec<Expr>, quota: nat, entries: Store, base: Path, key: Name, value: Expr):
    Option<TableError>
  {
    match codec.encode(value)
    case None => Some(CodecError)
    case Some(bytes) =>
      if Used(entries[LeafPath(base, key, SIML) := File(bytes)]) > quota then Some(PortError(QuotaExceeded)) else None
  }

  /** A `set` is the map update and touches one file, or is refused for one of these reasons and changes nothing. */
  lemma SetRefinesMap<Expr(!new)>(codec: Codec<Expr>, quota: nat, entries: Store, base: Path, contents: map<Name, Expr>,
                                  key: Symbol, value: Expr)
    requires Represents(codec, entries, base, contents) && Faithful(codec)
    ensures var (after, r) := SetSpec(codec, quota, entries, base, key, value);
            var refusal := if Legal(key.name) then SetRefusal(codec, quota, entries, base, key.name, value)
                           else Some(IllegalName);
            && r == (if refusal.Some? then Err(refusal.value) else Ok(()))
            && (r.Ok? ==> Represents(codec, after, base, contents[key.name := value]))
            && (r.Err? ==> after == entries)
            && OnlyTouches(entries, after, base, {key.name})
  {
    LeafPresence(codec, entries, base, contents, key.name);
    if Legal(key.name) && codec.encode(value).Some? {
      InsertRepresents(codec, entries, base, contents, key.name, value, codec.encode(value).value);
    }
    TouchesOne(entries, SetSpec(codec, quota, entries, base, key, value).0, base, key.name);
  }

  lemma RemoveRepresents<Expr(!new)>(codec: Codec<Expr>, entries: Store, base: Path, contents: map<Name, Expr>,
                                     key: Name)
    requires Represents(codec, entries, base, contents)
    ensures Represents(codec, entries - {LeafPath(base, key, SIML)}, base, contents - {key})
  {
    var after := entries - {LeafPath(base, key, SIML)};
    forall other | other in contents && other != key
      ensures LeafPath(base, other, SIML) != LeafPath(base, key, SIML)
    {
      LeafPathsDiffer(base, other, key);
    }
    forall name | base + [name] in after
      ensures SplitLastDot(name).Some? && SplitLastDot(name).value.1 == SIML
              && SplitLastDot(name).value.0 in contents - {key}
    {
      assert base + [name] in entries;
    }
  }

  /** A `del` answers the old value, or `nil`, and removes the key and its one file. */
  lemma DelRefinesMap<Expr(!new)>(codec: Codec<Expr>, nil: Expr, entries: Store, base: Path, contents: map<Name, Expr>,
                                  key: Symbol)
    requires Represents(codec, entries, base, contents)
    ensures var (after, r) := DelSpec(codec, nil, entries, base, key);
            && Represents(codec, after, base, contents - {key.name})
            && r == GetSpec(codec, nil, entries, base, key)
            && OnlyTouches(entries, after, base, {key.name})
  {
    LeafPresence(codec, entries, base, contents, key.name);
    if key.name in contents {
      RemoveRepresents(codec, entries, base, contents, key.name);
    } else {
      assert contents - {key.name} == contents;
    }
    TouchesOne(entries, DelSpec(codec, nil, entries, base, key).0, base, key.name);
  }

  /**
   What is set under one symbol is read under exactly the symbols of the same name: the namespace never reaches
   the file system. Under every other name the table reads as before.
   */
  lemma NamespacesShareLeaves<Expr(!new)>(codec: Codec<Expr>, nil: Expr, quota: nat, entries: Store, base: Path,
                                          contents: map<Name, Expr>, written: Symbol, read: Symbol, value: Expr)
    requires Represents(codec, entries, base, contents) && Faithful(codec)
    requires SetSpec(codec, quota, entries, base, written, value).1.Ok?
    requires GetSpec(codec, nil, entries, base, read) != Ok(value)
    ensures var after := SetSpec(codec, quota, entries, base, written, value).0;
            && (GetSpec(codec, nil, after, base, read) == Ok(value) <==> read.name == written.name)
            && (read.name != written.name ==>
                  GetSpec(codec, nil, after, base, read) == GetSpec(codec, nil, entries, base, read))
  {
    var after := SetSpec(codec, quota, entries, base, written, value).0;
    SetRefinesMap(codec, quota, entries, base, contents, written, value);
    GetRefinesMap(codec, nil, entries, base, contents, read);
    GetRefinesMap(codec, nil, after, base, contents[written.name := value], read);
  }

  /** A key that already has a leaf of another extension reads back what was set only if that extension's
      codec decodes what the writer wrote: the writer does not look at the extension. */
  lemma SetThenGetAcrossExtensions<Expr(!new)>(codec: Codec<Expr>, nil: Expr, quota: nat, entries: Store, base: Path,
                                               key: Symbol, ext: Name, value: Expr)
    requires Legal(key.name) && AllCandidates(entries, base, key.name) == [ext]
    requires SetSpec(codec, quota, entries, base, key, value).1.Ok?
    ensures var after := SetSpec(codec, quota, entries, base, key, value).0;
            GetSpec(codec, nil, after, base, key) == Ok(value)
            <==> codec.decode(ext, codec.encode(value).value) == Some(value)
  {
    CandidatesExist(entries, base, key.name, |KNOWN_EXTS|);
    var after := SetSpec(codec, quota, entries, base, key, value).0;
    SameCandidates(entries, after, base, key.name, |KNOWN_EXTS|);
  }

  lemma {:induction false} SameCandidates(entries: Store, after: Store, base: Path, key: Name, n: nat)
    requires n <= |KNOWN_EXTS| && after.Keys == entries.Keys
    ensures Candidates(after, base, key, n) == Candidates(entries, base, key, n)
  {
    if n > 0 {
      SameCandidates(entries, after, base, key, n - 1);
    }
  }

  /** Codecs of two formats: values are written as one octet, and a `simb` leaf has a leading zero besides. */
  function TwoFormats(): Codec<byte> {
    Codec(value => Some([value]),
          (ext, bytes) => if ext == SIML && |bytes| == 1 then Some(bytes[0])
                          else if ext == SIMB && |bytes| == 2 && bytes[0] == 0 then Some(bytes[1])
                          else None)
  }

  /** The only leaf of the table is a `simb` leaf of the key. */
  function BinaryTable(base: Path, key: Name, bytes: Bytes): Store {
    map[LeafPath(base, key, SIMB) := File(bytes)]
  }

  lemma BinaryCandidate(base: Path, key: Name, bytes: Bytes)
    ensures AllCandidates(BinaryTable(base, key, bytes), base, key) == [SIMB]
  {
    var entries := BinaryTable(base, key, bytes);
    forall ext | ext in KNOWN_EXTS ensures LeafPath(base, key, ext) in entries <==> ext == SIMB {
      LeafNamesInjective(key, ext, key, SIMB);
      assert LeafPath(base, key, ext)[|base|] == LeafName(key, ext);
    }
    assert Candidates(entries, base, key, 0) == [];
    assert Candidates(entries, base, key, 1) == [];
    assert Candidates(entries, base, key, 2) == [SIMB];
    assert Candidates(entries, base, key, 3) == [SIMB];
    assert Candidates(entries, base, key, 4) == [SIMB];
    assert Candidates(entries, base, key, 5) == [SIMB];
  }

  /** Such a table reads its key; then a `set` succeeds, and the key cannot be read any more. */
  lemma SetHidesBinaryLeaf(nil: byte, quota: nat, base: Path, key: Symbol, before: byte, value: byte)
    requires Legal(key.name) && quota > 0
    ensures var entries := BinaryTable(base, key.name, [0, before]);
            var (after, r) := SetSpec(TwoFormats(), quota, entries, base, key, value);
            && Faithful(TwoFormats())
            && GetSpec(TwoFormats(), nil, entries, base, key) == Ok(before)
            && r == Ok(()) && after == BinaryTable(base, key.name, [value])
            && GetSpec(TwoFormats(), nil, after, base, key) == Err(CodecError)
  {
    var entries, after := BinaryTable(base, key.name, [0, before]), BinaryTable(base, key.name, [value]);
    var leaf := LeafPath(base, key.name, SIMB);
    BinaryCandidate(base, key.name, [0, before]);
    BinaryCandidate(base, key.name, [value]);
    UsedInsert(map[], leaf, File([value]));
    assert after == entries[leaf := File([value])];
  }

  // ---------- Key listings ----------

  /** The key under which a directory entry is listed, if it is. */
  function ListedKey(name: Name, kind: EntryKind): Option<Name> {
    if Hidden(name) then None
    else if kind.DirectoryKind? then Some(name)
    else Stem(name, KNOWN_EXTS)
  }

  function KindAt(entries: Store, base: Path, name: Name): EntryKind
    requires base + [name] in entries
  {
    if entries[base + [name]].Dir? then DirectoryKind else FileKind
  }

  /** `keys` are the listed keys of the directory, in strict order. */
  ghost predicate IsKeyList(entries: Store, base: Path, keys: seq<Name>) {
    && StrictlySorted(keys)
    && (forall name | base + [name] in entries && ListedKey(name, KindAt(entries, base, name)).Some? ::
          ListedKey(name, KindAt(entries, base, name)).value in keys)
    && (forall key | key in keys ::
          exists name :: base + [name] in entries && ListedKey(name, KindAt(entries, base, name)) == Some(key))
  }

  lemma VisibleKeyIsListed<Expr(!new)>(codec: Codec<Expr>, entries: Store, base: Path, contents: map<Name, Expr>,
                                       keys: seq<Name>, key: Name)
    requires Represents(codec, entries, base, contents) && IsKeyList(entries, base, keys)
    requires key in contents && !Hidden(key)
    ensures key in keys
  {
    var leaf := LeafName(key, SIML);
    StemOfLeaf(key, SIML);
    assert base + [leaf] == LeafPath(base, key, SIML);
    assert ReadLeaf(codec, entries, base, key, SIML).Ok?;
    assert ListedKey(leaf, KindAt(entries, base, leaf)) == Some(key);
  }

  lemma ListedKeyIsVisible<Expr(!new)>(codec: Codec<Expr>, entries: Store, base: Path, contents: map<Name, Expr>,
                                       keys: seq<Name>, key: Name)
    requires Represents(codec, entries, base, contents) && IsKeyList(entries, base, keys)
    requires key in keys
    ensures key in contents && !Hidden(key)
  {
    var name :| base + [name] in entries && ListedKey(name, KindAt(entries, base, name)) == Some(key);
    var stem := SplitLastDot(name).value.0;
    assert LeafPath(base, stem, SIML) == base + [name];
    assert ReadLeaf(codec, entries, base, stem, SIML).Ok?;
    assert ListedKey(name, KindAt(entries, base, name)) == Stem(name, KNOWN_EXTS);
    StemOfLeaf(stem, SIML);
  }

  /** A directory has only one list of keys. */
  lemma KeyListsAgree(entries: Store, base: Path, a: seq<Name>, b: seq<Name>)
    requires IsKeyList(entries, base, a) && IsKeyList(entries, base, b)
    ensures a == b
  {
    SortedIsUnique(a, b);
  }

  /** On a flat table the listed keys are exactly the present keys that do not begin with a dot. */
  lemma KeysRefineMap<Expr(!new)>(codec: Codec<Expr>, entries: Store, base: Path, contents: map<Name, Expr>,
                                  keys: seq<Name>, key: Name)
    requires Represents(codec, entries, base, contents) && IsKeyList(entries, base, keys)
    ensures key in keys <==> key in contents && !Hidden(key)
  {
    if key in keys {
      ListedKeyIsVisible(codec, entries, base, contents, keys, key);
    } else if key in contents && !Hidden(key) {
      VisibleKeyIsListed(codec, entries, base, contents, keys, key);
    }
  }

  /** What `clear` leaves behind: the keys its listing does not show. */
  function HiddenPart<Expr>(contents: map<Name, Expr>): map<Name, Expr> {
    map key | key in contents && Hidden(key) :: contents[key]
  }

  function Without<Expr>(contents: map<Name, Expr>, removed: seq<Name>): map<Name, Expr> {
    map key | key in contents && key !in removed :: contents[key]
  }

  lemma WithoutVisible<Expr>(contents: map<Name, Expr>, keys: seq<Name>)
    requires forall key :: key in keys <==> key in contents && !Hidden(key)
    ensures Without(contents, keys) == HiddenPart(contents)
  {
  }

  /** `pairs` are the visible pairs of the table, in key order. */
  ghost predicate IsEntryList<Expr(!new)>(contents: map<Name, Expr>, pairs: seq<(Name, Expr)>) {
    && (forall i, j | 0 <= i < j < |pairs| :: Less(pairs[i].0, pairs[j].0))
    && (forall pair | pair in pairs :: pair.0 in contents && contents[pair.0] == pair.1 && !Hidden(pair.0))
    && (forall key | key in contents && !Hidden(key) :: (key, contents[key]) in pairs)
  }

  lemma EntryCount<Expr(!new)>(contents: map<Name, Expr>, pairs: seq<(Name, Expr)>)
    requires IsEntryList(contents, pairs)
    ensures |pairs| == |set key | key in contents && !Hidden(key)|
  {
    var keys := seq(|pairs|, k requires 0 <= k < |pairs| => pairs[k].0);
    assert forall k | 0 <= k < |pairs| :: pairs[k] in pairs && keys[k] == pairs[k].0;
    forall key | key in contents && !Hidden(key) ensures key in keys {
      assert (key, contents[key]) in pairs;
      var k :| 0 <= k < |pairs| && pairs[k] == (key, contents[key]);
      assert keys[k] == key;
    }
    SortedCount(keys, set key | key in contents && !Hidden(key));
  }

  lemma PairOneMore<Expr(!new)>(contents: map<Name, Expr>, keys: seq<Name>, pairs: seq<(Name, Expr)>)
    requires StrictlySorted(keys) && keys != [] && keys[|keys| - 1] in contents
    requires PairsOf(contents, keys[..|keys| - 1], pairs)
    ensures PairsOf(contents, keys, pairs + [(keys[|keys| - 1], contents[keys[|keys| - 1]])])
  {
  }

  /** `pairs` are the given keys with their values. */
  ghost predicate PairsOf<Expr>(contents: map<Name, Expr>, keys: seq<Name>, pairs: seq<(Name, Expr)>) {
    |pairs| == |keys| &&
    forall k | 0 <= k < |keys| :: keys[k] in contents && pairs[k] == (keys[k], contents[keys[k]])
  }

  lemma EntriesOfKeys<Expr(!new)>(contents: map<Name, Expr>, keys: seq<Name>, pairs: seq<(Name, Expr)>)
    requires StrictlySorted(keys) && forall key :: key in keys <==> key in contents && !Hidden(key)
    requires PairsOf(contents, keys, pairs)
    ensures IsEntryList(contents, pairs)
  {
    forall key | key in contents && !Hidden(key) ensures (key, contents[key]) in pairs {
      var k :| 0 <= k < |keys| && keys[k] == key;
      assert pairs[k] == (key, contents[key]);
    }
  }

  lemma {:induction false} PairsOfPresent<Expr(!new)>(codec: Codec<Expr>, nil: Expr, entries: Store, base: Path,
                                                      contents: map<Name, Expr>, keys: seq<Name>)
    requires Represents(codec, entries, base, contents) && StrictlySorted(keys)
    requires forall key | key in keys :: key in contents
    ensures EntriesSpec(codec, nil, entries, base, keys).Ok?
    ensures PairsOf(contents, keys, EntriesSpec(codec, nil, entries, base, keys).value)
  {
    if keys != [] {
      var front, key := keys[..|keys| - 1], keys[|keys| - 1];
      PairsOfPresent(codec, nil, entries, base, contents, front);
      assert key in keys && Legal(key);
      NoDirectories(codec, entries, base, contents, key);
      GetRefinesMap(codec, nil, entries, base, contents, ListedSymbol(key));
      PairOneMore(contents, keys, EntriesSpec(codec, nil, entries, base, front).value);
    }
  }

  lemma VisibleKeys<Expr(!new)>(codec: Codec<Expr>, entries: Store, base: Path, contents: map<Name, Expr>,
                                keys: seq<Name>)
    requires Represents(codec, entries, base, contents) && IsKeyList(entries, base, keys)
    ensures forall key :: key in keys <==> key in contents && !Hidden(key)
  {
    forall key ensures key in keys <==> key in contents && !Hidden(key) {
      KeysRefineMap(codec, entries, base, contents, keys, key);
    }
  }

  /** On a flat table `entries` answers the visible pairs in key order, and `len` counts them. */
  lemma EntriesRefineMap<Expr(!new)>(codec: Codec<Expr>, nil: Expr, entries: Store, base: Path,
                                     contents: map<Name, Expr>, keys: seq<Name>)
    requires Represents(codec, entries, base, contents) && IsKeyList(entries, base, keys)
    ensures var r := EntriesSpec(codec, nil, entries, base, keys);
            && r.Ok? && IsEntryList(contents, r.value)
            && |r.value| == |set key | key in contents && !Hidden(key)|
  {
    VisibleKeys(codec, entries, base, contents, keys);
    PairsOfPresent(codec, nil, entries, base, contents, keys);
    var pairs := EntriesSpec(codec, nil, entries, base, keys).value;
    EntriesOfKeys(contents, keys, pairs);
    EntryCount(contents, pairs);
  }

  // ---------- Clearing ----------

  lemma TouchesMore(a: Store, b: Store, c: Store, base: Path, key: Name, keys: set<Name>)
    requires OnlyTouches(a, b, base, {key}) && OnlyTouches(b, c, base, keys)
    ensures OnlyTouches(a, c, base, keys + {key})
  {
    forall p | !(exists other :: other in keys + {key} && p == LeafPath(base, other, SIML))
      ensures (p in c <==> p in a) && (p in c ==> c[p] == a[p])
    {
      assert key in keys + {key};
      assert !(exists other :: other in {key} && p == LeafPath(base, other, SIML));
      assert forall other | other in keys :: other in keys + {key};
    }
  }

  lemma WithoutCons<Expr>(contents: map<Name, Expr>, keys: seq<Name>)
    requires keys != []
    ensures Without(contents - {keys[0]}, keys[1..]) == Without(contents, keys)
  {
    assert keys == [keys[0]] + keys[1..];
  }

  function KeySet(keys: seq<Name>): set<Name> {
    set key | key in keys
  }

  function VisibleKeySet<Expr>(contents: map<Name, Expr>): set<Name> {
    set key | key in contents && !Hidden(key)
  }

  /** Clearing the listed keys one after another has succeeded and left `remaining`. */
  ghost predicate HasCleared<Expr(!new)>(codec: Codec<Expr>, entries: Store, base: Path, keys: set<Name>,
                                         remaining: map<Name, Expr>, result: (Store, Result<(), TableError>)) {
    result.1.Ok? && Represents(codec, result.0, base, remaining) && OnlyTouches(entries, result.0, base, keys)
  }

  lemma ClearOne<Expr(!new)>(codec: Codec<Expr>, nil: Expr, entries: Store, base: Path, contents: map<Name, Expr>,
                             keys: seq<Name>)
    requires Represents(codec, entries, base, contents) && keys != [] && keys[0] in contents
    ensures var (middle, r) := DelSpec(codec, nil, entries, base, ListedSymbol(keys[0]));
            && Represents(codec, middle, base, contents - {keys[0]}) && OnlyTouches(entries, middle, base, {keys[0]})
            && ClearSpec(codec, nil, entries, base, keys) == ClearSpec(codec, nil, middle, base, keys[1..])
  {
    assert Legal(keys[0]);
    NoDirectories(codec, entries, base, contents, keys[0]);
    GetRefinesMap(codec, nil, entries, base, contents, ListedSymbol(keys[0]));
    DelRefinesMap(codec, nil, entries, base, contents, ListedSymbol(keys[0]));
  }

  lemma TailIsPresent<Expr>(contents: map<Name, Expr>, keys: seq<Name>)
    requires StrictlySorted(keys) && keys != [] && forall key | key in keys :: key in contents
    ensures StrictlySorted(keys[1..]) && forall key | key in keys[1..] :: key in contents - {keys[0]}
    ensures KeySet(keys[1..]) + {keys[0]} == KeySet(keys)
  {
    forall other | other in keys[1..] ensures other in contents - {keys[0]} {
      SortedHeadIsFirst(keys, other);
    }
    assert keys == [keys[0]] + keys[1..];
  }

  lemma ClearedMore<Expr(!new)>(codec: Codec<Expr>, entries: Store, middle: Store, base: Path,
                                contents: map<Name, Expr>, keys: seq<Name>, result: (Store, Result<(), TableError>))
    requires keys != [] && KeySet(keys[1..]) + {keys[0]} == KeySet(keys)
    requires OnlyTouches(entries, middle, base, {keys[0]})
    requires HasCleared(codec, middle, base, KeySet(keys[1..]), Without(contents - {keys[0]}, keys[1..]), result)
    ensures HasCleared(codec, entries, base, KeySet(keys), Without(contents, keys), result)
  {
    WithoutCons(contents, keys);
    TouchesMore(entries, middle, result.0, base, keys[0], KeySet(keys[1..]));
  }

  lemma {:induction false} ClearFrom<Expr(!new)>(codec: Codec<Expr>, nil: Expr, entries: Store, base: Path,
                                                 contents: map<Name, Expr>, keys: seq<Name>)
    requires Represents(codec, entries, base, contents) && StrictlySorted(keys)
    requires forall key | key in keys :: key in contents
    ensures HasCleared(codec, entries, base, KeySet(keys), Without(contents, keys),
                       ClearSpec(codec, nil, entries, base, keys))
    decreases |keys|
  {
    if keys == [] {
      assert Without(contents, keys) == contents;
    } else {
      ClearOne(codec, nil, entries, base, contents, keys);
      TailIsPresent(contents, keys);
      var middle := DelSpec(codec, nil, entries, base, ListedSymbol(keys[0])).0;
      ClearFrom(codec, nil, middle, base, contents - {keys[0]}, keys[1..]);
      ClearedMore(codec, entries, middle, base, contents, keys, ClearSpec(codec, nil, middle, base, keys[1..]));
    }
  }

  lemma SortedHeadIsFirst(keys: seq<Name>, other: Name)
    requires StrictlySorted(keys) && keys != [] && other in keys[1..]
    ensures other != keys[0] && other in keys
  {
    LessTrichotomy(keys[0], keys[0]);
    var k :| 0 <= k < |keys[1..]| && keys[1..][k] == other;
    assert keys[k + 1] == other;
  }

  /**
   On a flat table `clear` succeeds, leaves exactly the keys its listing hides, and touches the other keys' leaves
   only.
   */
  lemma ClearRefinesMap<Expr(!new)>(codec: Codec<Expr>, nil: Expr, entries: Store, base: Path,
                                    contents: map<Name, Expr>, keys: seq<Name>)
    requires Represents(codec, entries, base, contents) && IsKeyList(entries, base, keys)
    ensures HasCleared(codec, entries, base, VisibleKeySet(contents), HiddenPart(contents),
                       ClearSpec(codec, nil, entries, base, keys))
  {
    VisiblePart(codec, entries, base, contents, keys);
    ClearFrom(codec, nil, entries, base, contents, keys);
  }

  lemma VisiblePart<Expr(!new)>(codec: Codec<Expr>, entries: Store, base: Path, contents: map<Name, Expr>,
                                keys: seq<Name>)
    requires Represents(codec, entries, base, contents) && IsKeyList(entries, base, keys)
    ensures StrictlySorted(keys) && forall key | key in keys :: key in contents
    ensures KeySet(keys) == VisibleKeySet(contents) && Without(contents, keys) == HiddenPart(contents)
  {
    VisibleKeys(codec, entries, base, contents, keys);
    WithoutVisible(contents, keys);
  }

  lemma RepresentsOne<Expr(!new)>(codec: Codec<Expr>, entries: Store, base: Path, a: map<Name, Expr>,
                                  b: map<Name, Expr>)
    requires Represents(codec, entries, base, a) && Represents(codec, entries, base, b)
    ensures a == b
  {
    forall key | key in a ensures key in b && b[key] == a[key] {
      LeafPresence(codec, entries, base, a, key);
      LeafPresence(codec, entries, base, b, key);
    }
    forall key | key in b ensures key in a {
      LeafPresence(codec, entries, base, a, key);
      LeafPresence(codec, entries, base, b, key);
    }
  }

  /** `clear` empties a table exactly when no key of it begins with a dot. */
  lemma ClearEmptiesIff<Expr(!new)>(codec: Codec<Expr>, nil: Expr, entries: Store, base: Path,
                                    contents: map<Name, Expr>, keys: seq<Name>)
    requires Represents(codec, entries, base, contents) && IsKeyList(entries, base, keys)
    ensures Represents(codec, ClearSpec(codec, nil, entries, base, keys).0, base, map[])
            <==> forall key | key in contents :: !Hidden(key)
  {
    ClearRefinesMap(codec, nil, entries, base, contents, keys);
    var after := ClearSpec(codec, nil, entries, base, keys).0;
    if Represents(codec, after, base, map[]) {
      RepresentsOne(codec, after, base, map[], HiddenPart(contents));
      forall key | key in contents ensures !Hidden(key) {
        assert key !in HiddenPart(contents);
      }
    } else {
      assert HiddenPart(contents) != map[];
      var key :| key in HiddenPart(contents);
    }
  }

  /** A table with one dotted key: its list of keys is empty, and `clear` leaves it as it is. */
  lemma DottedKeySurvives<Expr(!new)>(codec: Codec<Expr>, nil: Expr, base: Path, key: Name, value: Expr, bytes: Bytes)
    requires Legal(key) && Hidden(key) && codec.decode(SIML, bytes) == Some(value)
    ensures var entries: Store := map[LeafPath(base, key, SIML) := File(bytes)];
            && Represents(codec, entries, base, map[key := value])
            && IsKeyList(entries, base, [])
            && ClearSpec(codec, nil, entries, base, []) == (entries, Ok(()))
  {
    var none: Store := map[];
    var entries: Store := map[LeafPath(base, key, SIML) := File(bytes)];
    assert Represents(codec, none, base, map[]);
    InsertRepresents(codec, none, base, map[], key, value, bytes);
    assert none[LeafPath(base, key, SIML) := File(bytes)] == entries;
    forall name | base + [name] in entries ensures ListedKey(name, KindAt(entries, base, name)).None? {
      assert (base + [name])[|base|] == name && LeafPath(base, key, SIML)[|base|] == LeafName(key, SIML);
      assert name[0] == key[0];
    }
  }

  // ---------- Tables of any shape ----------

  /** The file that holds a key under an extension is named by the two with a dot in between. */
  predicate HasLeaf(entries: Store, base: Path, key: Name, ext: Name) {
    base + [key + [0x2E] + ext] in entries
  }

  lemma {:induction false} CandidatesUpTo(entries: Store, base: Path, key: Name, n: nat)
    requires n <= |KNOWN_EXTS|
    ensures forall ext :: ext in Candidates(entries, base, key, n)
                          <==> ext in KNOWN_EXTS[..n] && HasLeaf(entries, base, key, ext)
  {
    if n > 0 {
      CandidatesUpTo(entries, base, key, n - 1);
      assert KNOWN_EXTS[..n] == KNOWN_EXTS[..n - 1] + [KNOWN_EXTS[n - 1]];
    }
  }

  lemma CandidatesAre(entries: Store, base: Path, key: Name)
    ensures forall ext :: ext in AllCandidates(entries, base, key)
                          <==> ext in KNOWN_EXTS && HasLeaf(entries, base, key, ext)
  {
    CandidatesUpTo(entries, base, key, |KNOWN_EXTS|);
    assert KNOWN_EXTS[..|KNOWN_EXTS|] == KNOWN_EXTS;
  }

  /** No operation takes an illegal key, and writing and looking up do not mistake a directory for a leaf. */
  lemma KeysAreChecked<Expr>(codec: Codec<Expr>, nil: Expr, quota: nat, entries: Store, base: Path, key: Symbol,
                             value: Expr)
    ensures !Legal(key.name) ==>
              && GetSpec(codec, nil, entries, base, key) == Err(IllegalName)
              && HasSpec(entries, base, key) == Err(IllegalName)
              && SetSpec(codec, quota, entries, base, key, value) == (entries, Err(IllegalName))
              && DelSpec(codec, nil, entries, base, key) == (entries, Err(IllegalName))
    ensures Legal(key.name) && base + [key.name] in entries && entries[base + [key.name]] == Dir ==>
              && HasSpec(entries, base, key) == Ok(true)
              && SetSpec(codec, quota, entries, base, key, value) == (entries, Err(IsDirectory))
  {
  }

  /** A key with leaves of several extensions can be neither read nor written nor deleted. */
  lemma SeveralLeavesAreRefused<Expr>(codec: Codec<Expr>, nil: Expr, quota: nat, entries: Store, base: Path,
                                      key: Symbol, value: Expr, a: Name, b: Name)
    requires Legal(key.name) && a != b && a in KNOWN_EXTS && b in KNOWN_EXTS
    requires HasLeaf(entries, base, key.name, a) && HasLeaf(entries, base, key.name, b)
    ensures GetSpec(codec, nil, entries, base, key) == Err(MultipleLeaves)
    ensures DelSpec(codec, nil, entries, base, key) == (entries, Err(MultipleLeaves))
    ensures !IsDirAt(entries, base, key.name) ==>
              && HasSpec(entries, base, key) == Err(MultipleLeaves)
              && SetSpec(codec, quota, entries, base, key, value) == (entries, Err(MultipleLeaves))
  {
    CandidatesAre(entries, base, key.name);
    var found := AllCandidates(entries, base, key.name);
    assert a in found && b in found;
  }

  /** Of the known extensions the key has a leaf of this one only, or of none. */
  predicate IsOnlyLeaf(entries: Store, base: Path, key: Name, only: Option<Name>) {
    forall ext | ext in KNOWN_EXTS :: HasLeaf(entries, base, key, ext) <==> only == Some(ext)
  }

  lemma {:induction false} OnlyCandidateUpTo(entries: Store, base: Path, key: Name, only: Option<Name>, n: nat)
    requires IsOnlyLeaf(entries, base, key, only) && n <= |KNOWN_EXTS|
    ensures Candidates(entries, base, key, n)
         == if only.Some? && only.value in KNOWN_EXTS[..n] then [only.value] else []
  {
    if n > 0 {
      OnlyCandidateUpTo(entries, base, key, only, n - 1);
      assert KNOWN_EXTS[..n] == KNOWN_EXTS[..n - 1] + [KNOWN_EXTS[n - 1]];
      assert KNOWN_EXTS[n - 1] !in KNOWN_EXTS[..n - 1];
      assert HasLeaf(entries, base, key, KNOWN_EXTS[n - 1]) <==> only == Some(KNOWN_EXTS[n - 1]);
    }
  }

  lemma OnlyCandidate(entries: Store, base: Path, key: Name, only: Option<Name>)
    requires IsOnlyLeaf(entries, base, key, only) && (only.Some? ==> only.value in KNOWN_EXTS)
    ensures AllCandidates(entries, base, key) == if only.Some? then [only.value] else []
  {
    OnlyCandidateUpTo(entries, base, key, only, |KNOWN_EXTS|);
    assert KNOWN_EXTS[..|KNOWN_EXTS|] == KNOWN_EXTS;
  }

  lemma NoLeafIsNil<Expr>(codec: Codec<Expr>, nil: Expr, entries: Store, base: Path, key: Symbol)
    requires Legal(key.name) && IsOnlyLeaf(entries, base, key.name, None)
    ensures GetSpec(codec, nil, entries, base, key) == Ok(nil)
    ensures DelSpec(codec, nil, entries, base, key) == (entries, Ok(nil))
    ensures !IsDirAt(entries, base, key.name) ==> HasSpec(entries, base, key) == Ok(false)
  {
    OnlyCandidate(entries, base, key.name, None);
  }

  /** What reading, looking up, deleting and writing do to the one leaf of a key. */
  ghost predicate UsesLeaf<Expr>(codec: Codec<Expr>, nil: Expr, quota: nat, entries: Store, base: Path, key: Symbol,
                                 value: Expr, ext: Name)
    requires HasLeaf(entries, base, key.name, ext)
  {
    var leaf := base + [key.name + [0x2E] + ext];
    var get, (deleted, answer) := GetSpec(codec, nil, entries, base, key), DelSpec(codec, nil, entries, base, key);
    && answer == get && deleted == (if get.Ok? then entries - {leaf} else entries)
    && get == (match entries[leaf]
               case Dir => Err(PortError(SpecialFile))
               case File(bytes) =>
                 var read := codec.decode(ext, bytes); if read.Some? then Ok(read.value) else Err(CodecError))
    && (!IsDirAt(entries, base, key.name) ==>
          && HasSpec(entries, base, key) == Ok(true)
          && SetSpec(codec, quota, entries, base, key, value)
             == match codec.encode(value)
                case None => (entries, Err(CodecError))
                case Some(bytes) =>
                  if Used(entries[leaf := File(bytes)]) > quota then (entries, Err(PortError(QuotaExceeded)))
                  else (entries[leaf := File(bytes)], Ok(())))
  }

  /** A key with one leaf, of whatever extension, is read and deleted there, and written there. */
  lemma OneLeafIsUsed<Expr>(codec: Codec<Expr>, nil: Expr, quota: nat, entries: Store, base: Path, key: Symbol,
                            value: Expr, ext: Name)
    requires Legal(key.name) && ext in KNOWN_EXTS && IsOnlyLeaf(entries, base, key.name, Some(ext))
    ensures UsesLeaf(codec, nil, quota, entries, base, key, value, ext)
  {
    OnlyCandidate(entries, base, key.name, Some(ext));
    if codec.encode(value).Some? {
      UsedInsert(entries, base + [key.name + [0x2E] + ext], File(codec.encode(value).value));
    }
  }

  /** The other leaves that a write would remove are none: it is refused before if there is more than one. */
  lemma NothingElseToRemove(entries: Store, base: Path, key: Name, ext: Name)
    requires ext in KNOWN_EXTS && IsOnlyLeaf(entries, base, key, Some(ext))
    ensures OthersRemoved(entries, base, key, AllCandidates(entries, base, key), Some(ext)) == (entries, None)
  {
    OnlyCandidate(entries, base, key, Some(ext));
    assert [ext][1..] == [];
  }

  /** The leaves of the given extensions but for `siml` and the one in use. */
  function OtherLeaves(base: Path, key: Name, exts: seq<Name>, used: Option<Name>): set<Path> {
    set ext | ext in exts && ext != SIML && used != Some(ext) :: LeafPath(base, key, ext)
  }

  lemma OneMoreLeaf(base: Path, key: Name, exts: seq<Name>, used: Option<Name>)
    requires exts != []
    ensures OtherLeaves(base, key, exts, used)
         == OtherLeaves(base, key, exts[1..], used)
            + if exts[0] == SIML || used == Some(exts[0]) then {} else {LeafPath(base, key, exts[0])}
  {
    assert exts == [exts[0]] + exts[1..];
  }

  /** The extensions are known ones, without repetition, and the key has a file under each. */
  predicate AreFiles(entries: Store, base: Path, key: Name, exts: seq<Name>) {
    && (forall i, j | 0 <= i < j < |exts| :: exts[i] != exts[j])
    && (forall i | 0 <= i < |exts| ::
          && exts[i] in KNOWN_EXTS && LeafPath(base, key, exts[i]) in entries
          && entries[LeafPath(base, key, exts[i])].File?)
  }

  lemma FilesStay(entries: Store, base: Path, key: Name, exts: seq<Name>)
    requires AreFiles(entries, base, key, exts) && exts != []
    ensures AreFiles(entries, base, key, exts[1..])
    ensures AreFiles(entries - {LeafPath(base, key, exts[0])}, base, key, exts[1..])
  {
    forall i | 1 <= i < |exts| ensures LeafPath(base, key, exts[i]) != LeafPath(base, key, exts[0]) {
      LeafNamesInjective(key, exts[i], key, exts[0]);
      assert LeafPath(base, key, exts[i])[|base|] == LeafName(key, exts[i]);
      assert LeafPath(base, key, exts[0])[|base|] == LeafName(key, exts[0]);
    }
  }

  /** If every leaf is a file, exactly those of other extensions than `siml` and the one in use are removed. */
  lemma {:induction false} OthersAreRemoved(entries: Store, base: Path, key: Name, exts: seq<Name>, used: Option<Name>)
    requires AreFiles(entries, base, key, exts)
    ensures OthersRemoved(entries, base, key, exts, used) == (entries - OtherLeaves(base, key, exts, used), None)
    decreases |exts|
  {
    if exts == [] {
      assert OtherLeaves(base, key, [], used) == {};
      assert entries - {} == entries;
    } else {
      FilesStay(entries, base, key, exts);
      OneMoreLeaf(base, key, exts, used);
      var leaf := LeafPath(base, key, exts[0]);
      var rest := if exts[0] == SIML || used == Some(exts[0]) then entries else entries - {leaf};
      OthersAreRemoved(rest, base, key, exts[1..], used);
      assert rest - OtherLeaves(base, key, exts[1..], used) == entries - OtherLeaves(base, key, exts, used);
    }
  }

  /** The first leaf that is missing or a directory ends the removal, and is told apart. */
  lemma {:induction false} RemovalStops(entries: Store, base: Path, key: Name, files: seq<Name>, bad: Name,
                                        rest: seq<Name>, used: Option<Name>)
    requires AreFiles(entries, base, key, files) && bad in KNOWN_EXTS && bad !in files
    requires bad != SIML && used != Some(bad)
    requires LeafPath(base, key, bad) in entries ==> entries[LeafPath(base, key, bad)] == Dir
    ensures OthersRemoved(entries, base, key, files + [bad] + rest, used)
         == (entries - OtherLeaves(base, key, files, used),
             Some(if LeafPath(base, key, bad) in entries then SpecialFile else NotFound))
    decreases |files|
  {
    var exts := files + [bad] + rest;
    if files == [] {
      assert exts[0] == bad && OtherLeaves(base, key, [], used) == {};
      assert entries - {} == entries;
    } else {
      FilesStay(entries, base, key, files);
      OneMoreLeaf(base, key, files, used);
      var leaf := LeafPath(base, key, files[0]);
      LeafNamesInjective(key, bad, key, files[0]);
      assert LeafPath(base, key, bad)[|base|] == LeafName(key, bad) && leaf[|base|] == LeafName(key, files[0]);
      assert exts[0] == files[0] && exts[1..] == files[1..] + [bad] + rest;
      var left := if files[0] == SIML || used == Some(files[0]) then entries else entries - {leaf};
      RemovalStops(left, base, key, files[1..], bad, rest, used);
      assert left - OtherLeaves(base, key, files[1..], used) == entries - OtherLeaves(base, key, files, used);
    }
  }

  /** The key is that of a directory, or can be read. */
  predicate Passes<Expr>(codec: Codec<Expr>, nil: Expr, entries: Store, base: Path, key: Name) {
    Legal(key) && (IsDirAt(entries, base, key) || GetSpec(codec, nil, entries, base, ListedSymbol(key)).Ok?)
  }

  /** Key `k` is the first that does not pass, and this is why. */
  predicate StopsAt<Expr>(codec: Codec<Expr>, nil: Expr, entries: Store, base: Path, keys: seq<Name>, k: int,
                          error: TableError) {
    && 0 <= k < |keys| && (forall j | 0 <= j < k :: Passes(codec, nil, entries, base, keys[j]))
    && !Passes(codec, nil, entries, base, keys[k])
    && (if Legal(keys[k]) then GetSpec(codec, nil, entries, base, ListedSymbol(keys[k])) == Err(error)
        else error == IllegalName)
  }

  /** Either every key passes and the pairs are those that can be read, or the first that does not is told. */
  ghost predicate EntriesAre<Expr(!new)>(codec: Codec<Expr>, nil: Expr, entries: Store, base: Path, keys: seq<Name>,
                                         r: Result<seq<(Name, Expr)>, TableError>) {
    match r
    case Err(error) => exists k :: StopsAt(codec, nil, entries, base, keys, k, error)
    case Ok(pairs) =>
      && (forall key | key in keys :: Passes(codec, nil, entries, base, key))
      && (forall key, value :: (key, value) in pairs
                               <==> && key in keys && !IsDirAt(entries, base, key)
                                    && GetSpec(codec, nil, entries, base, ListedSymbol(key)) == Ok(value))
  }

  lemma StillStops<Expr>(codec: Codec<Expr>, nil: Expr, entries: Store, base: Path, front: seq<Name>, last: Name,
                         error: TableError)
    requires exists k :: StopsAt(codec, nil, entries, base, front, k, error)
    ensures exists k :: StopsAt(codec, nil, entries, base, front + [last], k, error)
  {
    var k :| StopsAt(codec, nil, entries, base, front, k, error);
    assert StopsAt(codec, nil, entries, base, front + [last], k, error);
  }

  /** On a directory of any shape: subdirectories are passed over, and one unreadable key fails the whole listing. */
  lemma {:induction false} EntriesTell<Expr(!new)>(codec: Codec<Expr>, nil: Expr, entries: Store, base: Path,
                                                   keys: seq<Name>)
    ensures EntriesAre(codec, nil, entries, base, keys, EntriesSpec(codec, nil, entries, base, keys))
  {
    if keys != [] {
      var front, last := keys[..|keys| - 1], keys[|keys| - 1];
      var before := EntriesSpec(codec, nil, entries, base, front);
      EntriesTell(codec, nil, entries, base, front);
      assert keys == front + [last];
      if before.Err? {
        StillStops(codec, nil, entries, base, front, last, before.error);
      } else if !Passes(codec, nil, entries, base, last) {
        assert forall j | 0 <= j < |front| :: keys[j] in front;
        assert StopsAt(codec, nil, entries, base, keys, |front|,
                       EntriesSpec(codec, nil, entries, base, keys).error);
      }
    }
  }

  /** Nothing was removed but leaf files of `keys`, and nothing was changed. */
  ghost predicate OnlyLeavesGone(before: Store, after: Store, base: Path, keys: seq<Name>) {
    && (forall p | p in after :: p in before && after[p] == before[p])
    && (forall p | p in before && p !in after ::
          before[p].File? && exists key, ext :: key in keys && ext in KNOWN_EXTS && p == LeafPath(base, key, ext))
  }

  lemma DeletedIsLeaf<Expr>(codec: Codec<Expr>, nil: Expr, entries: Store, base: Path, key: Symbol)
    ensures OnlyLeavesGone(entries, DelSpec(codec, nil, entries, base, key).0, base, [key.name])
    ensures DelSpec(codec, nil, entries, base, key).1.Ok? ==>
              forall ext | ext in KNOWN_EXTS :: !HasLeaf(DelSpec(codec, nil, entries, base, key).0, base, key.name, ext)
  {
    var found := AllCandidates(entries, base, key.name);
    CandidatesAre(entries, base, key.name);
    if |found| == 1 {
      assert found[0] in found && key.name in [key.name];
    }
  }

  /**
   On a directory of any shape, `clear` removes leaf files of the listed keys only; if it succeeds, no listed key that
   is not a directory has a leaf any more.
   */
  lemma {:induction false} ClearRemovesLeaves<Expr>(codec: Codec<Expr>, nil: Expr, entries: Store, base: Path,
                                                    keys: seq<Name>)
    ensures var (after, r) := ClearSpec(codec, nil, entries, base, keys);
            && OnlyLeavesGone(entries, after, base, keys)
            && (r.Ok? ==> forall key, ext | key in keys && !IsDirAt(entries, base, key) && ext in KNOWN_EXTS ::
                            !HasLeaf(after, base, key, ext))
    decreases |keys|
  {
    if keys != [] && Legal(keys[0]) {
      var middle := if IsDirAt(entries, base, keys[0]) then entries
                    else DelSpec(codec, nil, entries, base, ListedSymbol(keys[0])).0;
      DeletedIsLeaf(codec, nil, entries, base, ListedSymbol(keys[0]));
      ClearRemovesLeaves(codec, nil, middle, base, keys[1..]);
      assert keys == [keys[0]] + keys[1..];
      assert forall key | key in keys :: IsDirAt(middle, base, key) == IsDirAt(entries, base, key);
    }
  }

  /** A `clear` that fails has cleared the keys before the first illegal or undeletable one, and tells why. */
  lemma {:induction false} ClearStops<Expr>(codec: Codec<Expr>, nil: Expr, entries: Store, base: Path, keys: seq<Name>)
    returns (k: nat)
    requires ClearSpec(codec, nil, entries, base, keys).1.Err?
    ensures k < |keys| && ClearSpec(codec, nil, entries, base, keys[..k]).1.Ok?
    ensures var (after, r) := ClearSpec(codec, nil, entries, base, keys);
            && after == ClearSpec(codec, nil, entries, base, keys[..k]).0
            && (if Legal(keys[k]) then DelSpec(codec, nil, after, base, ListedSymbol(keys[k])) == (after, Err(r.error))
                else r.error == IllegalName)
    decreases |keys|
  {
    k := 0;
    if Legal(keys[0]) {
      var middle := if IsDirAt(entries, base, keys[0]) then entries
                    else DelSpec(codec, nil, entries, base, ListedSymbol(keys[0])).0;
      if ClearSpec(codec, nil, middle, base, keys[1..]).1.Err?
         && (IsDirAt(entries, base, keys[0])
             || DelSpec(codec, nil, entries, base, ListedSymbol(keys[0])).1.Ok?) {
        k := ClearStops(codec, nil, middle, base, keys[1..]);
        assert keys[..k + 1][1..] == keys[1..][..k] && keys[..k + 1][0] == keys[0];
        k := k + 1;
      }
    }
  }
}
