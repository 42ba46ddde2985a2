/** Names, relative paths and the two generated file-name schemes of the host-directory ports. */
module Paths {
  import opened Common

  /** A path component, as its UTF-8 octets. */
  type Name = Bytes
  type Path = seq<Name>

  const DOT: byte := 0x2E
  const SLASH: byte := 0x2F
  const BACKSLASH: byte := 0x5C

  /** The components a port accepts: not empty, not `.` or `..`, and without either separator. */
  predicate Legal(name: Name) {
    name != [] && name != [DOT] && name != [DOT, DOT] && SLASH !in name && BACKSLASH !in name
  }

  predicate LegalPath(path: Path) {
    forall k :: 0 <= k < |path| ==> Legal(path[k])
  }

  const HEX := "0123456789abcdef"

  /** Decimal digits, most significant first, without leading zeros. */
  function Decimal(n: nat): (digits: string)
    ensures digits != "" && '-' !in digits
  {
    if n < 10 then [HEX[n]] else Decimal(n / 10) + [HEX[n % 10]]
  }

  predicate IsDecimal(s: string) {
    forall k | 0 <= k < |s| :: '0' <= s[k] <= '9'
  }

  function DecimalValue(s: string): nat
    requires IsDecimal(s)
  {
    if s == "" then 0 else 10 * DecimalValue(s[..|s| - 1]) + (s[|s| - 1] as int - '0' as int)
  }

  /** Decimal digits read back as the number they were written for. */
  lemma {:induction false} DecimalRoundTrip(n: nat)
    ensures IsDecimal(Decimal(n)) && DecimalValue(Decimal(n)) == n
  {
    HexDigitValue(n % 10);
    if n < 10 {
      assert Decimal(n)[..0] == "";
    } else {
      DecimalRoundTrip(n / 10);
      assert Decimal(n)[..|Decimal(n)| - 1] == Decimal(n / 10);
    }
  }

  function HexOf(name: Name): (digits: string)
    ensures '-' !in digits
  {
    if name == [] then "" else [HEX[name[0] / 16], HEX[name[0] % 16]] + HexOf(name[1..])
  }

  function LockPart(name: Name): string {
    Decimal(|name|) + "-" + HexOf(name) + "-"
  }

  /** The lock file that guards `full`: `len-hex-` for each component, in order. */
  function LockName(full: Path): string {
    if full == [] then "" else LockPart(full[0]) + LockName(full[1..])
  }

  // ---------- The decoder that makes lock names a prefix code ----------

  /** The text before the first dash, or all of it. */
  function UntilDash(s: string): (head: string)
    ensures |head| <= |s|
  {
    if s == "" || s[0] == '-' then "" else [s[0]] + UntilDash(s[1..])
  }

  lemma {:induction false} UntilDashStops(head: string, rest: string)
    requires '-' !in head
    ensures UntilDash(head + "-" + rest) == head
  {
    var s := head + "-" + rest;
    if head == "" {
      assert s[0] == '-';
    } else {
      assert s[0] == head[0];
      assert s[1..] == head[1..] + "-" + rest;
      UntilDashStops(head[1..], rest);
    }
  }

  function DigitValue(c: char): Option<int> {
    if '0' <= c <= '9' then Some(c as int - '0' as int)
    else if 'a' <= c <= 'f' then Some(c as int - 'a' as int + 10)
    else None
  }

  function ParseHex(s: string): Option<Name> {
    if s == "" then Some([])
    else if |s| == 1 || DigitValue(s[0]).None? || DigitValue(s[1]).None? then None
    else
      match ParseHex(s[2..])
      case None => None
      case Some(rest) => Some([DigitValue(s[0]).value * 16 + DigitValue(s[1]).value] + rest)
  }

  function DecodeLockName(s: string): Option<Path>
    decreases |s|
  {
    if s == "" then Some([])
    else
      var length := UntilDash(s);
      if |length| == |s| then None
      else
        var body := s[|length| + 1..];
        var hex := UntilDash(body);
        if |hex| == |body| || ParseHex(hex).None? then None
        else
          match DecodeLockName(body[|hex| + 1..])
          case None => None
          case Some(rest) => Some([ParseHex(hex).value] + rest)
  }

  lemma HexDigitValue(d: nat)
    requires d < 16
    ensures DigitValue(HEX[d]) == Some(d)
  {
  }

  lemma {:induction false} HexRoundTrip(name: Name)
    ensures ParseHex(HexOf(name)) == Some(name)
  {
    if name != [] {
      var high, low, rest := name[0] / 16, name[0] % 16, HexOf(name[1..]);
      var s := HexOf(name);
      assert s == [HEX[high], HEX[low]] + rest;
      assert s[2..] == rest;
      HexDigitValue(high);
      HexDigitValue(low);
      HexRoundTrip(name[1..]);
      assert name == [name[0]] + name[1..];
    }
  }

  /** Each part begins with the number of octets of its component. */
  lemma LockPartStatesLength(name: Name)
    ensures IsDecimal(UntilDash(LockPart(name))) && DecimalValue(UntilDash(LockPart(name))) == |name|
  {
    UntilDashStops(Decimal(|name|), HexOf(name) + "-");
    assert LockPart(name) == Decimal(|name|) + "-" + (HexOf(name) + "-");
    DecimalRoundTrip(|name|);
  }

  lemma DecodeOnePart(name: Name, rest: string)
    ensures DecodeLockName(LockPart(name) + rest)
         == match DecodeLockName(rest) case None => None case Some(names) => Some([name] + names)
  {
    var length, hex := Decimal(|name|), HexOf(name);
    var body := hex + "-" + rest;
    var s := LockPart(name) + rest;
    assert s == length + "-" + body;
    UntilDashStops(length, body);
    assert s[|length| + 1..] == body;
    UntilDashStops(hex, rest);
    assert body[|hex| + 1..] == rest;
    HexRoundTrip(name);
  }

  lemma DecodeCons(name: Name, rest: Path)
    requires DecodeLockName(LockName(rest)) == Some(rest)
    ensures DecodeLockName(LockPart(name) + LockName(rest)) == Some([name] + rest)
  {
    DecodeOnePart(name, LockName(rest));
  }

  /** Every lock name decodes to the one path it was made from. */
  lemma {:induction false} LockNameDecodes(full: Path)
    ensures DecodeLockName(LockName(full)) == Some(full)
  {
    if full != [] {
      LockNameDecodes(full[1..]);
      DecodeCons(full[0], full[1..]);
      assert full == [full[0]] + full[1..];
    }
  }

  /** Two paths share a lock exactly when they are the same path. */
  lemma LockNamesInjective(a: Path, b: Path)
    ensures LockName(a) == LockName(b) <==> a == b
  {
    LockNameDecodes(a);
    LockNameDecodes(b);
  }

  lemma {:induction false} LockNameAppend(front: Path, last: Name)
    ensures LockName(front + [last]) == LockName(front) + LockPart(last)
  {
    if front == [] {
      assert [last][1..] == [];
    } else {
      assert (front + [last])[1..] == front[1..] + [last];
      LockNameAppend(front[1..], last);
    }
  }

  lemma HexCons(first: byte, rest: Name)
    ensures HexOf([first] + rest) == [HEX[first / 16], HEX[first % 16]] + HexOf(rest)
  {
    assert ([first] + rest)[1..] == rest;
  }

  lemma {:induction false} HexAppend(front: Name, last: byte)
    ensures HexOf(front + [last]) == HexOf(front) + [HEX[last / 16], HEX[last % 16]]
  {
    if front == [] {
      HexCons(last, []);
      assert [] + [last] == [last] + [];
    } else {
      var first, rest := front[0], front[1..];
      HexAppend(rest, last);
      HexCons(first, rest);
      HexCons(first, rest + [last]);
      assert front == [first] + rest && front + [last] == [first] + (rest + [last]);
    }
  }

  /** The part of an Ubuntu port that decides which lock a leaf uses. */
  class LockNamer {
    const prefix: Path

    constructor (prefix: Path)
      ensures this.prefix == prefix
    {
      this.prefix := prefix;
    }

    /** Opens a nested port; an illegal name is refused. */
    method Child(name: Name) returns (port: Option<LockNamer>)
      ensures port.Some? <==> Legal(name)
      ensures port.Some? ==> fresh(port.value) && port.value.prefix == prefix + [name]
    {
      if !Legal(name) {
        return None;
      }
      var child := new LockNamer(prefix + [name]);
      return Some(child);
    }

    /** Builds the lock-file name, appending one component after another to one buffer. */
    method LockFile(path: Path) returns (out: string)
      ensures out == LockName(prefix + path)
    {
      var full := prefix + path;
      out := "";
      for i := 0 to |full|
        invariant out == LockName(full[..i])
      {
        out := WritePart(out, full[i]);
        LockNameAppend(full[..i], full[i]);
        assert full[..i + 1] == full[..i] + [full[i]];
      }
      assert full[..|full|] == full;
    }

    static method WritePart(buffer: string, part: Name) returns (out: string)
      ensures out == buffer + LockPart(part)
    {
      var hex := "";
      for j := 0 to |part|
        invariant hex == HexOf(part[..j])
      {
        HexAppend(part[..j], part[j]);
        assert part[..j + 1] == part[..j] + [part[j]];
        hex := hex + [HEX[part[j] / 16], HEX[part[j] % 16]];
      }
      assert part[..|part|] == part;
      out := buffer + (Decimal(|part|) + "-" + hex + "-");
    }
  }

  // ---------- Temporary files of an atomic replace ----------

  const TEMP_ATTEMPTS: nat := 64
  const TEMP_PREFIX := ".sim-replace-"

  function Ascii(s: string): Name {
    seq(|s|, i requires 0 <= i < |s| => (s[i] as int) % 0x100)
  }

  /** A legal name is not empty, names neither the directory nor its parent, and has no slash of either kind. */
  lemma LegalMeans(name: Name)
    ensures Legal(name)
            <==> && name != Ascii("") && name != Ascii(".") && name != Ascii("..")
                 && forall c | c in name :: [c] != Ascii("/") && [c] != Ascii("\\")
  {
    assert Ascii(".") == [DOT] && Ascii("..") == [DOT, DOT];
    assert Ascii("/") == [SLASH] && Ascii("\\") == [BACKSLASH];
  }

  /** A path is legal if all its components are. */
  lemma LegalPathMeans(path: Path)
    ensures LegalPath(path) <==> forall name | name in path :: Legal(name)
  {
    assert forall k | 0 <= k < |path| :: path[k] in path;
  }

  /** `.sim-replace-<pid>-<n>` */
  function TempName(pid: nat, n: nat): Name {
    Ascii(TEMP_PREFIX + Decimal(pid) + "-" + Decimal(n))
  }

  /** Attempt `n` of process `pid` for `target`, in the directory that holds the target. */
  function TempPath(target: Path, pid: nat, n: nat): (temp: Path)
    requires target != []
    ensures temp != []
  {
    target[..|target| - 1] + [TempName(pid, n)]
  }

  /** The temporary files a writer tries, in order. */
  function TempPaths(target: Path, pid: nat): (temps: seq<Path>)
    requires target != []
    ensures |temps| == TEMP_ATTEMPTS
    ensures forall n | 0 <= n < TEMP_ATTEMPTS :: temps[n] == TempPath(target, pid, n)
  {
    seq(TEMP_ATTEMPTS, n requires 0 <= n < TEMP_ATTEMPTS => TempPath(target, pid, n))
  }

  /** Whether the last component is a name some writer may pick for a temporary file. */
  ghost predicate InTempNamespace(path: Path) {
    path != [] && exists pid: nat, n: nat :: n < TEMP_ATTEMPTS && path[|path| - 1] == TempName(pid, n)
  }

  /** The directory that holds an entry. */
  function DirOf(path: Path): Path {
    if path == [] then [] else path[..|path| - 1]
  }

  /** Some writer of `target` may try `path` as its temporary file. */
  ghost predicate IsTempOf(target: Path, path: Path)
    requires target != []
  {
    exists pid: nat, n: nat :: n < TEMP_ATTEMPTS && path == TempPath(target, pid, n)
  }

  /** The temporary files of a target are the temporary names in its directory. */
  lemma TempsOfDirectory(target: Path, path: Path)
    requires target != []
    ensures IsTempOf(target, path) <==> path != [] && DirOf(path) == DirOf(target) && InTempNamespace(path)
  {
    if path != [] && DirOf(path) == DirOf(target) && InTempNamespace(path) {
      var pid: nat, n: nat :| n < TEMP_ATTEMPTS && path[|path| - 1] == TempName(pid, n);
      assert path == DirOf(path) + [path[|path| - 1]];
      assert path == TempPath(target, pid, n);
    }
    if IsTempOf(target, path) {
      var pid: nat, n: nat :| n < TEMP_ATTEMPTS && path == TempPath(target, pid, n);
      assert path[|path| - 1] == TempName(pid, n);
    }
  }

  lemma TempsAreInNamespace(target: Path, pid: nat)
    requires target != []
    ensures forall temp | temp in TempPaths(target, pid) :: InTempNamespace(temp) && DirOf(temp) == DirOf(target)
  {
    forall temp | temp in TempPaths(target, pid) ensures InTempNamespace(temp) && DirOf(temp) == DirOf(target) {
      var n :| 0 <= n < TEMP_ATTEMPTS && TempPaths(target, pid)[n] == temp;
      assert temp[|temp| - 1] == TempName(pid, n);
    }
  }

  predicate IsAscii(s: string) {
    forall k | 0 <= k < |s| :: s[k] as int < 0x80
  }

  lemma AsciiInjective(s: string, t: string)
    requires IsAscii(s) && IsAscii(t)
    ensures Ascii(s) == Ascii(t) <==> s == t
  {
    if Ascii(s) == Ascii(t) {
      forall k | 0 <= k < |s| ensures s[k] == t[k] {
        assert Ascii(s)[k] == Ascii(t)[k];
      }
    }
  }

  lemma TempTextParts(prefix: string, pid: nat, n: nat)
    ensures var body := (prefix + Decimal(pid) + "-" + Decimal(n))[|prefix|..];
            UntilDash(body) == Decimal(pid) && body[|Decimal(pid)| + 1..] == Decimal(n)
  {
    var digits, rest := Decimal(pid), Decimal(n);
    assert (prefix + digits + "-" + rest)[|prefix|..] == digits + "-" + rest;
    UntilDashStops(digits, rest);
  }

  lemma TempTextIsAscii(prefix: string, pid: nat, n: nat)
    requires IsAscii(prefix)
    ensures IsAscii(prefix + Decimal(pid) + "-" + Decimal(n))
  {
    DecimalRoundTrip(pid);
    DecimalRoundTrip(n);
  }

  /** Two processes, or two attempts of one, never try the same temporary name. */
  lemma TempNamesInjective(pid: nat, n: nat, otherPid: nat, m: nat)
    ensures TempName(pid, n) == TempName(otherPid, m) <==> pid == otherPid && n == m
  {
    assert IsAscii(TEMP_PREFIX);
    TempTextIsAscii(TEMP_PREFIX, pid, n);
    TempTextIsAscii(TEMP_PREFIX, otherPid, m);
    AsciiInjective(TEMP_PREFIX + Decimal(pid) + "-" + Decimal(n), TEMP_PREFIX + Decimal(otherPid) + "-" + Decimal(m));
    TempTextParts(TEMP_PREFIX, pid, n);
    TempTextParts(TEMP_PREFIX, otherPid, m);
    DecimalRoundTrip(pid);
    DecimalRoundTrip(n);
    DecimalRoundTrip(otherPid);
    DecimalRoundTrip(m);
  }

  // ---------- Lock files ----------

  /** The directory of lock files, directly below the root of a port. */
  function LockDir(): Name {
    Ascii(".sim-cas-locks")
  }

  /** The lock file of a leaf lies in the same tree as the leaves. */
  function LockPath(full: Path): Path {
    [LockDir(), Ascii(LockName(full))]
  }

  predicate InLockDir(path: Path) {
    path != [] && path[0] == LockDir()
  }

  lemma {:induction false} HexIsAscii(name: Name)
    ensures IsAscii(HexOf(name))
  {
    if name != [] {
      HexIsAscii(name[1..]);
    }
  }

  lemma {:induction false} LockNameIsAscii(full: Path)
    ensures IsAscii(LockName(full))
    ensures full != [] ==> LockName(full) != "" && '0' <= LockName(full)[0] <= '9'
  {
    if full != [] {
      LockNameIsAscii(full[1..]);
      HexIsAscii(full[0]);
      DecimalRoundTrip(|full[0]|);
    }
  }

  lemma LockPathsInjective(a: Path, b: Path)
    ensures LockPath(a) == LockPath(b) <==> a == b
  {
    LockNameIsAscii(a);
    LockNameIsAscii(b);
    LockNamesInjective(a, b);
    AsciiInjective(LockName(a), LockName(b));
    assert LockPath(a)[1] == Ascii(LockName(a)) && LockPath(b)[1] == Ascii(LockName(b));
  }

  /** No writer ever picks a lock file as its temporary file. */
  lemma LockPathIsNoTemp(full: Path)
    ensures !InTempNamespace(LockPath(full))
  {
    LockNameIsAscii(full);
    forall pid: nat, n: nat ensures Ascii(LockName(full)) != TempName(pid, n) {
      assert TempName(pid, n)[0] == 0x2E;
      assert full != [] ==> Ascii(LockName(full))[0] == LockName(full)[0] as int;
    }
  }

  lemma {:induction false} HexOfTwo(a: byte, b: byte)
    ensures HexOf([a]) == [HEX[a / 16], HEX[a % 16]]
    ensures HexOf([a, b]) == HexOf([a]) + HexOf([b])
  {
    assert [a][1..] == [] && [a, b][1..] == [b];
  }

  lemma PartsWritten()
    ensures LockPart([0x7A]) == "1-7a-" && LockPart([0x6B, 0x2F]) == "2-6b2f-"
  {
    HexOfTwo(0x7A, 0x7A);
    HexOfTwo(0x6B, 0x2F);
    HexOfTwo(0x2F, 0x2F);
  }

  lemma LockNameOfTwo(a: Name, b: Name)
    ensures LockName([a, b]) == LockPart(a) + LockPart(b)
  {
    var full: Path := [a, b];
    assert full[1..] == [b] && full[1..][1..] == [];
    assert LockName(full[1..]) == LockPart(b) + LockName([]);
  }

  lemma DecimalWritten()
    ensures Decimal(407) == "407"
  {
    assert Decimal(4) == "4" && Decimal(40) == "40";
  }

  /** Names of both schemes, written out. */
  lemma GeneratedNames(pid: nat, n: nat)
    ensures LockPath([Ascii("z"), Ascii("k/")]) == [Ascii(".sim-cas-locks"), Ascii("1-7a-2-6b2f-")]
    ensures TempPath([Ascii("z"), Ascii("k")], pid, n)
         == [Ascii("z"), Ascii(".sim-replace-" + Decimal(pid) + "-" + Decimal(n))]
    ensures Decimal(407) == "407"
  {
    assert Ascii("z") == [0x7A] && Ascii("k/") == [0x6B, 0x2F];
    PartsWritten();
    LockNameOfTwo(Ascii("z"), Ascii("k/"));
    assert LockName([Ascii("z"), Ascii("k/")]) == "1-7a-2-6b2f-" by {
      assert "1-7a-" + "2-6b2f-" == "1-7a-2-6b2f-";
    }
    DecimalWritten();
  }
}
