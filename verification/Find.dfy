/** Bounded grep and glob over a directory: an exact prefix of the unbounded answer over its visible tree. */
module Find {
  import opened Common
  import opened Paths
  import opened NameOrder
  import opened LeafNames
  import opened HostDir
  import opened FsTable
  import TextEdit

  // ---------- The visible tree below a directory ----------

  predicate Visible(path: Path) {
    forall k | 0 <= k < |path| :: !Hidden(path[k])
  }

  /** `path` leads from `base` to an entry, through directories. */
  predicate Reached(entries: Store, base: Path, path: Path)
    decreases |path|
  {
    path != [] && base + [path[0]] in entries &&
    (|path| == 1 || (entries[base + [path[0]]].Dir? && Reached(entries, base + [path[0]], path[1..])))
  }

  /** Component-wise order in which a directory comes before everything below it. */
  predicate PathLess(a: Path, b: Path) {
    b != [] && (a == [] || Less(a[0], b[0]) || (a[0] == b[0] && PathLess(a[1..], b[1..])))
  }

  ghost predicate PathsSorted(paths: seq<Path>) {
    forall i, j | 0 <= i < j < |paths| :: PathLess(paths[i], paths[j])
  }

  /** The visible paths below `base` that begin with one of `names`, in strict path order. */
  ghost predicate IsPartialWalk(entries: Store, base: Path, names: seq<Name>, paths: seq<Path>) {
    && PathsSorted(paths)
    && forall p :: p in paths <==> Reached(entries, base, p) && Visible(p) && p[0] in names
  }

  /**
   All visible paths below `base` in strict path order: pre-order, each exactly once, and no path with a hidden
   component.
   */
  ghost predicate IsWalk(entries: Store, base: Path, paths: seq<Path>) {
    && PathsSorted(paths)
    && forall p :: p in paths <==> Reached(entries, base, p) && Visible(p)
  }

  function Under(front: Path, paths: seq<Path>): (r: seq<Path>)
    ensures |r| == |paths|
  {
    seq(|paths|, k requires 0 <= k < |paths| => front + paths[k])
  }

  lemma UnderAppend(front: Path, a: seq<Path>, b: seq<Path>)
    ensures Under(front, a + b) == Under(front, a) + Under(front, b)
  {
  }

  lemma UnderTwice(front: Path, name: Name, paths: seq<Path>)
    ensures Under(front, Under([name], paths)) == Under(front + [name], paths)
  {
    forall k | 0 <= k < |paths| ensures front + ([name] + paths[k]) == front + [name] + paths[k] {
    }
  }

  lemma UnderContains(front: Path, paths: seq<Path>, rest: Path)
    ensures front + rest in Under(front, paths) <==> rest in paths
  {
    if front + rest in Under(front, paths) {
      var k :| 0 <= k < |paths| && Under(front, paths)[k] == front + rest;
      assert (front + paths[k])[|front|..] == paths[k] && (front + rest)[|front|..] == rest;
    }
    if rest in paths {
      var k :| 0 <= k < |paths| && paths[k] == rest;
      assert Under(front, paths)[k] == front + rest;
    }
  }

  /** What one visible entry contributes: itself, then what is below it. */
  function Block(name: Name, below: seq<Path>): seq<Path> {
    [[name]] + Under([name], below)
  }

  lemma BlockIsSorted(name: Name, below: seq<Path>)
    requires PathsSorted(below) && forall p | p in below :: p != []
    ensures PathsSorted(Block(name, below))
    ensures forall p | p in Block(name, below) :: p != [] && p[0] == name
  {
    var block := Block(name, below);
    forall i, j | 0 <= i < j < |block| ensures PathLess(block[i], block[j]) {
      assert block[j] == [name] + below[j - 1];
      assert block[j][1..] == below[j - 1] && below[j - 1] in below;
      if i == 0 {
        assert block[i][1..] == [];
      } else {
        assert block[i] == [name] + below[i - 1];
        assert block[i][1..] == below[i - 1];
      }
    }
  }

  lemma BlockIsComplete(entries: Store, base: Path, name: Name, below: seq<Path>, p: Path)
    requires base + [name] in entries && !Hidden(name)
    requires if entries[base + [name]].Dir? then IsWalk(entries, base + [name], below) else below == []
    ensures p in Block(name, below) <==> Reached(entries, base, p) && Visible(p) && p[0] == name
  {
    if p != [] && p[0] == name {
      var rest := p[1..];
      assert p == [name] + rest;
      assert Visible(p) <==> Visible(rest);
      UnderContains([name], below, rest);
      if rest == [] {
        assert Block(name, below)[0] == p;
      }
    }
  }

  lemma BlocksAppend(front: seq<Path>, block: seq<Path>, names: seq<Name>, name: Name)
    requires PathsSorted(front) && PathsSorted(block)
    requires forall p | p in front :: p != [] && p[0] in names
    requires forall p | p in block :: p != [] && p[0] == name
    requires forall other | other in names :: Less(other, name)
    ensures PathsSorted(front + block)
  {
    forall i, j | 0 <= i < |front| && 0 <= j < |block| ensures PathLess(front[i], block[j]) {
      assert front[i] in front && block[j] in block;
    }
  }

  /** One more entry of a sorted listing. */
  lemma WalkOneMore(entries: Store, base: Path, names: seq<Name>, i: nat, below: seq<Path>, walked: seq<Path>)
    requires StrictlySorted(names) && i < |names| && base + [names[i]] in entries && !Hidden(names[i])
    requires if entries[base + [names[i]]].Dir? then IsWalk(entries, base + [names[i]], below) else below == []
    requires IsPartialWalk(entries, base, names[..i], walked)
    ensures IsPartialWalk(entries, base, names[..i + 1], walked + Block(names[i], below))
  {
    var name, block := names[i], Block(names[i], below);
    assert names[..i + 1] == names[..i] + [name];
    forall p ensures p in block <==> Reached(entries, base, p) && Visible(p) && p[0] == name {
      BlockIsComplete(entries, base, name, below, p);
    }
    BlockIsSorted(name, below);
    BlocksAppend(walked, block, names[..i], name);
  }

  lemma WalkPastHidden(entries: Store, base: Path, names: seq<Name>, i: nat, walked: seq<Path>)
    requires i < |names| && Hidden(names[i]) && IsPartialWalk(entries, base, names[..i], walked)
    ensures IsPartialWalk(entries, base, names[..i + 1], walked)
  {
    assert names[..i + 1] == names[..i] + [names[i]];
  }

  lemma WalkIsWhole(entries: Store, base: Path, names: seq<Name>, walked: seq<Path>)
    requires forall name | base + [name] in entries :: name in names
    requires IsPartialWalk(entries, base, names, walked)
    ensures IsWalk(entries, base, walked)
  {
  }

  // ---------- There is only one walk ----------

  lemma {:induction false} PathLessIsStrict(a: Path, b: Path)
    ensures PathLess(a, b) ==> a != b && !PathLess(b, a)
  {
    if a != [] && b != [] {
      LessTrichotomy(a[0], b[0]);
      PathLessIsStrict(a[1..], b[1..]);
    }
  }

  lemma PathHeadsAgree(a: seq<Path>, b: seq<Path>)
    requires PathsSorted(a) && PathsSorted(b)
    requires a != [] && b != [] && a[0] in b && b[0] in a
    ensures a[0] == b[0]
  {
    PathLessIsStrict(a[0], b[0]);
    PathLessIsStrict(b[0], a[0]);
    var i :| 0 <= i < |b| && b[i] == a[0];
    var j :| 0 <= j < |a| && a[j] == b[0];
  }

  lemma PathTail(a: seq<Path>, p: Path)
    requires PathsSorted(a) && a != []
    ensures p in a[1..] <==> p in a && p != a[0]
  {
    PathLessIsStrict(a[0], p);
    assert a == [a[0]] + a[1..];
    if p in a[1..] {
      var k :| 0 <= k < |a[1..]| && a[1..][k] == p;
      assert PathLess(a[0], a[k + 1]);
    }
  }

  lemma {:induction false} SortedPathsAreUnique(a: seq<Path>, b: seq<Path>)
    requires PathsSorted(a) && PathsSorted(b) && forall p :: p in a <==> p in b
    ensures a == b
    decreases |a|
  {
    assert b != [] ==> b[0] in a;
    assert a != [] ==> a[0] in b;
    if a != [] {
      PathHeadsAgree(a, b);
      forall p ensures p in a[1..] <==> p in b[1..] {
        PathTail(a, p);
        PathTail(b, p);
      }
      SortedPathsAreUnique(a[1..], b[1..]);
      assert a == [a[0]] + a[1..] && b == [b[0]] + b[1..];
    }
  }

  lemma WalkIsUnique(entries: Store, base: Path, a: seq<Path>, b: seq<Path>)
    requires IsWalk(entries, base, a) && IsWalk(entries, base, b)
    ensures a == b
  {
    SortedPathsAreUnique(a, b);
  }

  // ---------- Walking ----------

  /** What recursion into a directory has still before it. */
  function Below(entries: Store, base: Path): set<Path> {
    set p | p in entries && base < p
  }

  lemma BelowShrinks(entries: Store, base: Path, name: Name)
    requires base + [name] in entries
    ensures Below(entries, base + [name]) < Below(entries, base)
  {
    assert base + [name] in Below(entries, base) && base + [name] !in Below(entries, base + [name]);
  }

  lemma LegalRow(entries: Store, base: Path, dir: Path, name: Name)
    requires LegalStore(entries) && LegalPath(dir) && base + [name] in entries
    ensures LegalPath(dir + [name])
  {
    assert (base + [name])[|base|] == name;
  }

  lemma PathsGrow(start: seq<Path>, dir: Path, walked: seq<Path>, name: Name, below: seq<Path>)
    ensures start + Under(dir, walked) + [dir + [name]] + Under(dir + [name], below)
         == start + Under(dir, walked + Block(name, below))
  {
    UnderTwice(dir, name, below);
    UnderAppend(dir, [[name]], Under([name], below));
    UnderAppend(dir, walked, Block(name, below));
    assert Under(dir, [[name]]) == [dir + [name]];
  }

  class PathList {
    var items: seq<Path>

    constructor ()
      ensures items == []
    {
      items := [];
    }

    /**
     Appends the visible paths below `dir`, recursing into directories as it meets them. Listing fails only for an
     illegal name, which no run of a port ever stores.
     */
    method Walk(port: MemoryHostDirPort, dir: Path) returns (r: Result<(), TableError>, ghost walked: seq<Path>)
      modifies this
      ensures r.Ok? ==>
                IsWalk(port.state.entries, port.prefix + dir, walked) && items == old(items) + Under(dir, walked)
      ensures LegalStore(port.state.entries) && LegalPath(dir) ==> r.Ok?
      decreases Below(port.state.entries, port.prefix + dir)
    {
      ghost var start, entries, base := items, port.state.entries, port.prefix + dir;
      walked := [];
      var listing := port.List(dir);
      if listing.Err? {
        return Err(PortError(listing.error)), walked;
      }
      var rows := listing.value;
      ghost var names := Names(rows);
      for i := 0 to |rows|
        invariant items == start + Under(dir, walked)
        invariant IsPartialWalk(entries, base, names[..i], walked)
      {
        var row := rows[i];
        if Hidden(row.name) {
          WalkPastHidden(entries, base, names, i, walked);
          continue;
        }
        var path := dir + [row.name];
        assert port.prefix + path == base + [row.name];
        items := items + [path];
        ghost var below := [];
        if row.kind.DirectoryKind? {
          BelowShrinks(entries, base, row.name);
          if LegalStore(entries) && LegalPath(dir) {
            LegalRow(entries, base, dir, row.name);
          }
          var deeper;
          deeper, below := Walk(port, path);
          if deeper.Err? {
            return deeper, walked;
          }
        }
        WalkOneMore(entries, base, names, i, below, walked);
        PathsGrow(start, dir, walked, row.name, below);
        assert below == [] ==>
            start + Under(dir, walked) + [path] + Under(path, []) == start + Under(dir, walked) + [path];
        walked := walked + Block(row.name, below);
      }
      assert names[..|rows|] == names;
      WalkIsWhole(entries, base, names, walked);
      return Ok(()), walked;
    }
  }

  // ---------- Searching ----------

  datatype FindMatch = FindMatch(path: Bytes, line: nat, text: string)

  /**
   What the search is given: the two pattern matchers, and the codecs, which fail, or answer the text of a leaf that
   holds a string, or answer that it holds another value.
   */
  datatype Query = Query(
    regex: string -> bool,
    glob: Bytes -> bool,
    decode: (Name, Bytes) -> Option<Option<string>>)

  /** Reading one leaf through a port with the given prefix. */
  function ReadText(q: Query, entries: Store, prefix: Path, path: Path, ext: Name): Result<Option<string>, TableError> {
    if !LegalPath(path) then Err(PortError(Escape))
    else if prefix + path !in entries then Err(PortError(NotFound))
    else
      match entries[prefix + path]
      case Dir => Err(PortError(SpecialFile))
      case File(bytes) =>
        match q.decode(ext, bytes)
        case None => Err(CodecError)
        case Some(text) => Ok(text)
  }

  /** `path` with its components joined by slashes. */
  function Relative(path: Path): Bytes {
    if path == [] then []
    else if |path| == 1 then path[0]
    else path[0] + [SLASH] + Relative(path[1..])
  }

  /** A line without its terminator, which is a newline or a carriage return and a newline. */
  function Stripped(line: string): string {
    if line == "" || line[|line| - 1] != '\n' then line
    else
      var cut := line[..|line| - 1];
      if cut == "" || cut[|cut| - 1] != '\r' then cut else cut[..|cut| - 1]
  }

  /** The matches among the first `n` lines of one leaf. */
  function LineMatches(q: Query, rel: Bytes, lines: seq<string>, n: nat): seq<FindMatch>
    requires n <= |lines|
  {
    if n == 0 then []
    else
      LineMatches(q, rel, lines, n - 1)
      + if q.regex(Stripped(lines[n - 1]))
        then [FindMatch(rel, Min(n, 0xFFFF_FFFF), Stripped(lines[n - 1]))] else []
  }

  /** The known extension of a path's last component, if it has one. */
  function LeafExt(path: Path): Option<Name> {
    if path == [] then None
    else
      match SplitLastDot(path[|path| - 1])
      case None => None
      case Some((_, ext)) => if ext in KNOWN_EXTS then Some(ext) else None
  }

  /** All matches of one listed path; a path the search skips has none. */
  function PathMatches(q: Query, entries: Store, prefix: Path, path: Path): Result<seq<FindMatch>, TableError> {
    if !q.glob(Relative(path)) || LeafExt(path).None? then Ok([])
    else
      match ReadText(q, entries, prefix, path, LeafExt(path).value)
      case Err(e) => Err(e)
      case Ok(None) => Ok([])
      case Ok(Some(text)) => Ok(LineMatches(q, Relative(path), TextEdit.Lines(text), |TextEdit.Lines(text)|))
  }

  /** All matches of the first `n` paths, up to the first that cannot be read. */
  function AllMatches(q: Query, entries: Store, prefix: Path, files: seq<Path>, n: nat):
    Result<seq<FindMatch>, TableError>
    requires n <= |files|
  {
    if n == 0 then Ok([])
    else
      match AllMatches(q, entries, prefix, files, n - 1)
      case Err(e) => Err(e)
      case Ok(front) =>
        match PathMatches(q, entries, prefix, files[n - 1])
        case Err(e) => Err(e)
        case Ok(matches) => Ok(front + matches)
  }

  /** Cutting a list of answers at `max`. */
  function Bounded<T>(all: seq<T>, max: nat): (r: (seq<T>, bool))
    ensures r.0 <= all && |r.0| == Min(|all|, max) && (r.1 <==> |all| > max)
  {
    if |all| <= max then (all, false) else (all[..max], true)
  }

  lemma {:induction false} MoreFilesMoreMatches(q: Query, entries: Store, prefix: Path, files: seq<Path>, k: nat,
                                                n: nat)
    requires k <= n <= |files| && AllMatches(q, entries, prefix, files, n).Ok?
    ensures AllMatches(q, entries, prefix, files, k).Ok?
    ensures AllMatches(q, entries, prefix, files, k).value <= AllMatches(q, entries, prefix, files, n).value
  {
    if k < n {
      MoreFilesMoreMatches(q, entries, prefix, files, k, n - 1);
    }
  }

  lemma {:induction false} MoreLinesMoreMatches(q: Query, rel: Bytes, lines: seq<string>, k: nat, n: nat)
    requires k <= n <= |lines|
    ensures LineMatches(q, rel, lines, k) <= LineMatches(q, rel, lines, n)
  {
    if k < n {
      MoreLinesMoreMatches(q, rel, lines, k, n - 1);
    }
  }

  /** The matches of a leaf are its matching lines, with their one-based numbers and without terminators. */
  lemma {:induction false} LineMatchesAreTheMatchingLines(q: Query, rel: Bytes, lines: seq<string>, n: nat,
                                                            found: FindMatch)
    requires n <= |lines|
    ensures found in LineMatches(q, rel, lines, n)
            <==> exists k :: 0 <= k < n && q.regex(Stripped(lines[k]))
                             && found == FindMatch(rel, Min(k + 1, 0xFFFF_FFFF), Stripped(lines[k]))
  {
    if n > 0 {
      LineMatchesAreTheMatchingLines(q, rel, lines, n - 1, found);
    }
  }

  /** Every terminator `Stripped` may cut off is cut off, and nothing else. */
  lemma StrippedLines(content: string)
    requires '\n' !in content
    ensures Stripped(content + "\r\n") == content
    ensures Stripped(content) == content
    ensures (content == "" || content[|content| - 1] != '\r') ==> Stripped(content + "\n") == content
  {
    assert (content + "\r\n")[..|content| + 1] == content + "\r";
    assert (content + "\r")[..|content|] == content;
    assert (content + "\n")[..|content|] == content;
    assert content != "" ==> content[|content| - 1] in content;
  }

  /** A prefix longer than `max` already decides the bounded answer. */
  lemma LongPrefixDecides<T>(front: seq<T>, all: seq<T>, max: nat)
    requires front <= all && |front| > max
    ensures Bounded(all, max) == Bounded(front, max)
  {
    assert front[..max] == all[..max];
  }

  /** Appends the matching lines of one leaf until there is one too many. */
  method GrepLines(q: Query, rel: Bytes, lines: seq<string>, found: seq<FindMatch>, max: nat)
    returns (matches: seq<FindMatch>, truncated: bool)
    requires |found| <= max
    ensures (matches, truncated) == Bounded(found + LineMatches(q, rel, lines, |lines|), max)
  {
    matches := found;
    for line := 0 to |lines|
      invariant matches == found + LineMatches(q, rel, lines, line) && |matches| <= max
    {
      var value := Stripped(lines[line]);
      if q.regex(value) {
        var hit := FindMatch(rel, Min(line + 1, 0xFFFF_FFFF), value);
        assert found + LineMatches(q, rel, lines, line + 1) == matches + [hit];
        if |matches| >= max {
          MoreLinesMoreMatches(q, rel, lines, line + 1, |lines|);
          LongPrefixDecides(matches + [hit], found + LineMatches(q, rel, lines, |lines|), max);
          return matches, true;
        }
        matches := matches + [hit];
      }
    }
    return matches, false;
  }

  /**
   When every read succeeds the answer is exactly the first `max` of all matches, with the flag telling whether
   there are more; a failing read makes the search fail unless enough was found before it.
   */
  ghost predicate GrepAnswer(q: Query, entries: Store, prefix: Path, files: seq<Path>, max: nat,
                             r: Result<(seq<FindMatch>, bool), TableError>) {
    && (AllMatches(q, entries, prefix, files, |files|).Ok? ==>
          r == Ok(Bounded(AllMatches(q, entries, prefix, files, |files|).value, max)))
    && (r.Err? ==> AllMatches(q, entries, prefix, files, |files|) == Err(r.error))
    && (r.Ok? ==> exists k :: 0 <= k <= |files| && AllMatches(q, entries, prefix, files, k).Ok?
                              && r.value == Bounded(AllMatches(q, entries, prefix, files, k).value, max)
                              && (k == |files| || r.value.1))
  }

  method GrepFiles(port: MemoryHostDirPort, q: Query, files: seq<Path>, max: nat)
    returns (r: Result<(seq<FindMatch>, bool), TableError>)
    ensures GrepAnswer(q, port.state.entries, port.prefix, files, max, r)
  {
    ghost var entries, prefix := port.state.entries, port.prefix;
    var matches: seq<FindMatch> := [];
    for i := 0 to |files|
      invariant AllMatches(q, entries, prefix, files, i) == Ok(matches) && |matches| <= max
    {
      var path := files[i];
      var rel := Relative(path);
      assert matches + [] == matches;
      if !q.glob(rel) {
        continue;
      }
      var ext := LeafExt(path);
      if ext.None? {
        continue;
      }
      var content := ReadLeafText(port, q, path, ext.value);
      if content.Err? {
        FailureStays(q, entries, prefix, files, i + 1, |files|);
        return Err(content.error);
      }
      if content.value.None? {
        continue;
      }
      var truncated;
      matches, truncated := GrepLines(q, rel, TextEdit.Lines(content.value.value), matches, max);
      if truncated {
        GrepTruncates(q, entries, prefix, files, i + 1, max);
        return Ok((matches, true));
      }
    }
    return Ok((matches, false));
  }

  method ReadLeafText(port: MemoryHostDirPort, q: Query, path: Path, ext: Name)
    returns (content: Result<Option<string>, TableError>)
    ensures content == ReadText(q, port.state.entries, port.prefix, path, ext)
  {
    var reply := port.ReadFile(path);
    if reply.Refused? {
      return Err(PortError(reply.kind));
    }
    match q.decode(ext, reply.bytes)
    case None => return Err(CodecError);
    case Some(text) => return Ok(text);
  }

  lemma GrepTruncates(q: Query, entries: Store, prefix: Path, files: seq<Path>, k: nat, max: nat)
    requires k <= |files| && AllMatches(q, entries, prefix, files, k).Ok?
    requires |AllMatches(q, entries, prefix, files, k).value| > max
    ensures AllMatches(q, entries, prefix, files, |files|).Ok? ==>
              Bounded(AllMatches(q, entries, prefix, files, |files|).value, max)
              == Bounded(AllMatches(q, entries, prefix, files, k).value, max)
  {
    if AllMatches(q, entries, prefix, files, |files|).Ok? {
      MoreFilesMoreMatches(q, entries, prefix, files, k, |files|);
      LongPrefixDecides(AllMatches(q, entries, prefix, files, k).value,
                        AllMatches(q, entries, prefix, files, |files|).value, max);
    }
  }

  lemma {:induction false} FailureStays(q: Query, entries: Store, prefix: Path, files: seq<Path>, k: nat, n: nat)
    requires k <= n <= |files| && AllMatches(q, entries, prefix, files, k).Err?
    ensures AllMatches(q, entries, prefix, files, n) == AllMatches(q, entries, prefix, files, k)
  {
    if k < n {
      FailureStays(q, entries, prefix, files, k, n - 1);
    }
  }

  lemma UnderRoot(paths: seq<Path>)
    ensures Under([], paths) == paths
  {
    forall k | 0 <= k < |paths| ensures [] + paths[k] == paths[k] {
    }
  }

  /** Walks the directory of the port and returns its visible paths. */
  method ListFiles(port: MemoryHostDirPort) returns (r: Result<seq<Path>, TableError>)
    ensures r.Ok? ==> IsWalk(port.state.entries, port.prefix, r.value)
    ensures LegalStore(port.state.entries) ==> r.Ok?
  {
    var list := new PathList();
    var walk;
    ghost var walked;
    walk, walked := list.Walk(port, []);
    assert port.prefix + [] == port.prefix;
    if walk.Err? {
      return Err(walk.error);
    }
    UnderRoot(walked);
    assert [] + walked == walked;
    return Ok(list.items);
  }

  /** Searches the leaves of a directory: the bounded prefix of all matches in its visible tree, in path order. */
  method FindGrep(port: MemoryHostDirPort, q: Query, max: nat)
    returns (r: Result<(seq<FindMatch>, bool), TableError>)
    ensures LegalStore(port.state.entries) ==>
              exists files :: IsWalk(port.state.entries, port.prefix, files)
                              && GrepAnswer(q, port.state.entries, port.prefix, files, max, r)
  {
    var files := ListFiles(port);
    if files.Err? {
      return Err(files.error);
    }
    r := GrepFiles(port, q, files.value, max);
  }

  function GlobMatches(glob: Bytes -> bool, files: seq<Path>, n: nat): seq<Bytes>
    requires n <= |files|
  {
    if n == 0 then []
    else
      GlobMatches(glob, files, n - 1)
      + if glob(Relative(files[n - 1])) then [Relative(files[n - 1])] else []
  }

  lemma {:induction false} MoreFilesMoreGlobs(glob: Bytes -> bool, files: seq<Path>, k: nat, n: nat)
    requires k <= n <= |files|
    ensures GlobMatches(glob, files, k) <= GlobMatches(glob, files, n)
  {
    if k < n {
      MoreFilesMoreGlobs(glob, files, k, n - 1);
    }
  }

  /** The glob matches are the matching paths, in listing order. */
  lemma {:induction false} GlobMatchesAreTheMatchingPaths(glob: Bytes -> bool, files: seq<Path>, n: nat, rel: Bytes)
    requires n <= |files|
    ensures rel in GlobMatches(glob, files, n)
            <==> glob(rel) && exists k :: 0 <= k < n && rel == Relative(files[k])
  {
    if n > 0 {
      GlobMatchesAreTheMatchingPaths(glob, files, n - 1, rel);
    }
  }

  /** Lists the first `max` matching paths of the visible tree and whether there are more. */
  method FindGlob(port: MemoryHostDirPort, glob: Bytes -> bool, max: nat)
    returns (r: Result<(seq<Bytes>, bool), TableError>)
    ensures LegalStore(port.state.entries) ==>
              exists files :: IsWalk(port.state.entries, port.prefix, files)
                              && r == Ok(Bounded(GlobMatches(glob, files, |files|), max))
  {
    var files := ListFiles(port);
    if files.Err? {
      return Err(files.error);
    }
    var paths, truncated := GlobFiles(glob, files.value, max);
    return Ok((paths, truncated));
  }

  method GlobFiles(glob: Bytes -> bool, files: seq<Path>, max: nat) returns (paths: seq<Bytes>, truncated: bool)
    ensures (paths, truncated) == Bounded(GlobMatches(glob, files, |files|), max)
  {
    paths, truncated := [], false;
    for i := 0 to |files|
      invariant paths == GlobMatches(glob, files, i) && |paths| <= max && !truncated
    {
      var rel := Relative(files[i]);
      if glob(rel) {
        assert GlobMatches(glob, files, i + 1) == paths + [rel];
        if |paths| >= max {
          MoreFilesMoreGlobs(glob, files, i + 1, |files|);
          LongPrefixDecides(paths + [rel], GlobMatches(glob, files, |files|), max);
          truncated := true;
          return;
        }
        paths := paths + [rel];
      }
    }
  }

  // ---------- What is found ----------

  /** Every further component follows a slash. */
  lemma {:induction false} RelativeOfLonger(front: Path, name: Name)
    requires front != []
    ensures Relative(front + [name]) == Relative(front) + [0x2F] + name
  {
    var path := front + [name];
    assert path[0] == front[0] && path[1..] == front[1..] + [name];
    if |front| == 1 {
      assert path[1..] == [name];
    } else {
      RelativeOfLonger(front[1..], name);
    }
  }

  lemma {:induction false} RelativeOfOne(name: Name)
    ensures Relative([]) == [] && Relative([name]) == name
  {
  }

  /** Where a path with more than one component has its first slash, if no component holds one. */
  lemma FirstSlash(path: Path)
    requires path != [] && LegalPath(path)
    ensures path[0] <= Relative(path) && (forall k | 0 <= k < |path[0]| :: Relative(path)[k] != 0x2F)
    ensures if |path| == 1 then Relative(path) == path[0]
            else && |Relative(path)| > |path[0]| && Relative(path)[|path[0]|] == 0x2F
                 && Relative(path)[|path[0]| + 1..] == Relative(path[1..])
  {
    assert forall k | 0 <= k < |path[0]| :: path[0][k] in path[0];
  }

  /** Legal paths that are joined to the same octets are the same: a report names one leaf. */
  lemma {:induction false} RelativeInjective(a: Path, b: Path)
    requires LegalPath(a) && LegalPath(b)
    ensures Relative(a) == Relative(b) <==> a == b
  {
    if Relative(a) == Relative(b) && a != [] && b != [] {
      FirstSlash(a);
      FirstSlash(b);
      assert |a[0]| == |b[0]| && a[0] == b[0];
      if |a| > 1 && |b| > 1 {
        RelativeInjective(a[1..], b[1..]);
        assert a == [a[0]] + a[1..] && b == [b[0]] + b[1..];
      }
    } else if Relative(a) == Relative(b) && (a != [] || b != []) {
      FirstSlash(if a != [] then a else b);
    }
  }

  /** The name ends in a dot and the extension. */
  predicate EndsIn(name: Name, ext: Name) {
    |ext| < |name| && name[|name| - |ext| - 1..] == [0x2E] + ext
  }

  /** Searched are the paths whose last component ends in a known extension. */
  lemma LeafExtMeans(path: Path, ext: Name)
    ensures LeafExt(path) == Some(ext) <==> path != [] && ext in KNOWN_EXTS && EndsIn(path[|path| - 1], ext)
  {
    if path != [] {
      var name := path[|path| - 1];
      if LeafExt(path) == Some(ext) {
        var stem := SplitLastDot(name).value.0;
        assert name == stem + ([DOT] + ext);
      }
      if ext in KNOWN_EXTS && EndsIn(name, ext) {
        var stem := name[..|name| - |ext| - 1];
        assert name == LeafName(stem, ext);
        SplitLeafName(stem, ext);
      }
    }
  }

  /** A search reads what a caller of the port reads, and decodes it by its extension. */
  lemma ReadMeans(q: Query, quota: nat, entries: Store, prefix: Path, path: Path, ext: Name)
    ensures ReadText(q, entries, prefix, path, ext)
         == match ReadReply(prefix, quota, entries, path)
            case Refused(kind) => Err(PortError(kind))
            case Contents(bytes) =>
              (match q.decode(ext, bytes) case None => Err(CodecError) case Some(text) => Ok(text))
            case _ => Err(CodecError)
  {
  }

  /** Line `k` of the text in the leaf at `path` is a match, and this is how it is reported. */
  ghost predicate IsHit(q: Query, entries: Store, prefix: Path, path: Path, ext: Name, text: string, k: int,
                        found: FindMatch) {
    && q.glob(Relative(path))
    && path != [] && ext in KNOWN_EXTS && EndsIn(path[|path| - 1], ext)
    && ReadText(q, entries, prefix, path, ext) == Ok(Some(text))
    && 0 <= k < |TextEdit.Lines(text)| && q.regex(Stripped(TextEdit.Lines(text)[k]))
    && found == FindMatch(Relative(path), Min(k + 1, 0xFFFF_FFFF), Stripped(TextEdit.Lines(text)[k]))
  }

  ghost predicate HasHit(q: Query, entries: Store, prefix: Path, path: Path, found: FindMatch) {
    exists ext, text, k :: IsHit(q, entries, prefix, path, ext, text, k, found)
  }

  /** The path is searched and its leaf cannot be read, for this reason. */
  ghost predicate CannotSearch(q: Query, entries: Store, prefix: Path, path: Path, error: TableError) {
    && q.glob(Relative(path)) && path != []
    && exists ext :: ext in KNOWN_EXTS && EndsIn(path[|path| - 1], ext)
                     && ReadText(q, entries, prefix, path, ext) == Err(error)
  }

  lemma PathMatchesMean(q: Query, entries: Store, prefix: Path, path: Path, found: FindMatch)
    ensures match PathMatches(q, entries, prefix, path)
            case Err(error) => CannotSearch(q, entries, prefix, path, error)
            case Ok(matches) =>
              && (found in matches <==> HasHit(q, entries, prefix, path, found))
              && forall error :: !CannotSearch(q, entries, prefix, path, error)
  {
    forall ext ensures LeafExt(path) == Some(ext)
                       <==> path != [] && ext in KNOWN_EXTS && EndsIn(path[|path| - 1], ext)
    {
      LeafExtMeans(path, ext);
    }
    if q.glob(Relative(path)) && LeafExt(path).Some? {
      var ext := LeafExt(path).value;
      var read := ReadText(q, entries, prefix, path, ext);
      if read.Ok? && read.value.Some? {
        var lines := TextEdit.Lines(read.value.value);
        LineMatchesAreTheMatchingLines(q, Relative(path), lines, |lines|, found);
        if k :| 0 <= k < |lines| && q.regex(Stripped(lines[k]))
                && found == FindMatch(Relative(path), Min(k + 1, 0xFFFF_FFFF), Stripped(lines[k])) {
          assert IsHit(q, entries, prefix, path, ext, read.value.value, k, found);
        }
      }
    }
  }

  /** One of the first `n` paths has this match. */
  ghost predicate SomeHit(q: Query, entries: Store, prefix: Path, files: seq<Path>, n: nat, found: FindMatch)
    requires n <= |files|
  {
    exists k :: 0 <= k < n && HasHit(q, entries, prefix, files[k], found)
  }

  /** One of the first `n` paths cannot be searched, and those before it can. */
  ghost predicate SomeFailure(q: Query, entries: Store, prefix: Path, files: seq<Path>, n: nat, error: TableError)
    requires n <= |files|
  {
    exists k :: 0 <= k < n && AllMatches(q, entries, prefix, files, k).Ok?
                && CannotSearch(q, entries, prefix, files[k], error)
  }

  lemma OneMorePath(q: Query, entries: Store, prefix: Path, files: seq<Path>, n: nat, found: FindMatch)
    requires 0 < n <= |files|
    ensures SomeHit(q, entries, prefix, files, n, found)
            <==> || SomeHit(q, entries, prefix, files, n - 1, found)
                 || HasHit(q, entries, prefix, files[n - 1], found)
  {
  }

  /**
   All matches are exactly the matching lines of the leaves that the glob admits, if all these can be read; otherwise
   the search has met a leaf that it cannot read after leaves all of which it could.
   */
  lemma {:induction false} AllMatchesMean(q: Query, entries: Store, prefix: Path, files: seq<Path>, n: nat,
                                          found: FindMatch)
    requires n <= |files|
    ensures match AllMatches(q, entries, prefix, files, n)
            case Err(error) => SomeFailure(q, entries, prefix, files, n, error)
            case Ok(matches) =>
              && (found in matches <==> SomeHit(q, entries, prefix, files, n, found))
              && forall k, error | 0 <= k < n :: !CannotSearch(q, entries, prefix, files[k], error)
  {
    if n > 0 {
      AllMatchesMean(q, entries, prefix, files, n - 1, found);
      PathMatchesMean(q, entries, prefix, files[n - 1], found);
      OneMorePath(q, entries, prefix, files, n, found);
    }
  }
}
