/** How table keys become leaf file names, and how file names become keys again. */
module LeafNames {
  import opened Common
  import opened Paths

  const SIML: Name := [0x73, 0x69, 0x6D, 0x6C]
  const SIMB: Name := [0x73, 0x69, 0x6D, 0x62]
  const SIMB64: Name := [0x73, 0x69, 0x6D, 0x62, 0x36, 0x34]
  const SIMJ: Name := [0x73, 0x69, 0x6D, 0x6A]
  const SIMA: Name := [0x73, 0x69, 0x6D, 0x61]

  /** The leaf extensions of the default build, in the order in which they are tried. */
  const KNOWN_EXTS: seq<Name> := [SIML, SIMB, SIMB64, SIMJ, SIMA]

  lemma ExtensionsAre()
    ensures KNOWN_EXTS == [Ascii("siml"), Ascii("simb"), Ascii("simb64"), Ascii("simj"), Ascii("sima")]
    ensures SIML == Ascii("siml") && LeafName(Ascii("a.b"), SIML) == Ascii("a.b.siml")
  {
    assert SIML == Ascii("siml") && SIMB == Ascii("simb") && SIMB64 == Ascii("simb64");
    assert SIMJ == Ascii("simj") && SIMA == Ascii("sima");
  }

  /** A symbol; only its name reaches the file system. */
  datatype Symbol = Symbol(namespace: Option<Name>, name: Name)

  /** Listings and searches pass over names that begin with a dot. */
  predicate Hidden(name: Name): (r: bool)
    ensures r <==> Ascii(".") <= name
  {
    name != [] && name[0] == DOT
  }

  function LeafName(name: Name, ext: Name): Name {
    name + [DOT] + ext
  }

  /** What stands before and after the last dot. */
  function SplitLastDot(name: Name): (r: Option<(Name, Name)>)
    ensures r.Some? ==> name == LeafName(r.value.0, r.value.1) && DOT !in r.value.1
    ensures r.None? ==> DOT !in name
  {
    if name == [] then None
    else
      match SplitLastDot(name[1..])
      case Some((stem, ext)) => Some(([name[0]] + stem, ext))
      case None => if name[0] == DOT then Some(([], name[1..])) else None
  }

  /** The extension is what follows the last dot, so a leaf name determines its key and its extension. */
  lemma {:induction false} SplitLeafName(name: Name, ext: Name)
    requires DOT !in ext
    ensures SplitLastDot(LeafName(name, ext)) == Some((name, ext))
  {
    var leaf := LeafName(name, ext);
    if name == [] {
      assert leaf[1..] == ext;
      assert SplitLastDot(ext).None?;
    } else {
      assert leaf[1..] == LeafName(name[1..], ext);
      SplitLeafName(name[1..], ext);
      assert [name[0]] + name[1..] == name;
    }
  }

  lemma LeafNamesInjective(a: Name, extA: Name, b: Name, extB: Name)
    requires extA in KNOWN_EXTS && extB in KNOWN_EXTS
    ensures LeafName(a, extA) == LeafName(b, extB) <==> a == b && extA == extB
  {
    SplitLeafName(a, extA);
    SplitLeafName(b, extB);
  }

  predicate HasSuffix(name: Name, suffix: Name) {
    |suffix| <= |name| && name[|name| - |suffix|..] == suffix
  }

  /** The key of a leaf file: the first known extension that is a suffix is cut off. */
  function Stem(name: Name, exts: seq<Name>): Option<Name> {
    if exts == [] then None
    else if HasSuffix(name, [DOT] + exts[0]) then Some(name[..|name| - |exts[0]| - 1])
    else Stem(name, exts[1..])
  }

  lemma {:induction false} StemInverts(name: Name, ext: Name, exts: seq<Name>)
    requires ext in exts && forall e | e in exts :: DOT !in e
    ensures Stem(LeafName(name, ext), exts) == Some(name)
  {
    var leaf := LeafName(name, ext);
    assert leaf[|leaf| - |ext| - 1..] == [DOT] + ext;
    if HasSuffix(leaf, [DOT] + exts[0]) {
      var stem := leaf[..|leaf| - |exts[0]| - 1];
      assert leaf == stem + leaf[|leaf| - |exts[0]| - 1..];
      assert leaf == LeafName(stem, exts[0]);
      SplitLeafName(stem, exts[0]);
      SplitLeafName(name, ext);
    } else {
      StemInverts(name, ext, exts[1..]);
    }
  }

  lemma StemOfLeaf(name: Name, ext: Name)
    requires ext in KNOWN_EXTS
    ensures Stem(LeafName(name, ext), KNOWN_EXTS) == Some(name)
  {
    StemInverts(name, ext, KNOWN_EXTS);
  }

  /** Listing recovers exactly the keys: a stem exists only for leaf names, and it is their key. */
  lemma {:induction false} StemOnlyOfLeaves(name: Name, exts: seq<Name>)
    ensures Stem(name, exts).Some? ==> exists ext :: ext in exts && name == LeafName(Stem(name, exts).value, ext)
  {
    if exts != [] {
      if HasSuffix(name, [DOT] + exts[0]) {
        var stem := name[..|name| - |exts[0]| - 1];
        assert name == stem + name[|name| - |exts[0]| - 1..];
        assert name == LeafName(stem, exts[0]);
      } else {
        StemOnlyOfLeaves(name, exts[1..]);
      }
    }
  }

  /** A leaf of a legal key is legal, and never `.` or `..`. */
  lemma LeafNamesAreLegal(name: Name, ext: Name)
    requires Legal(name) && ext in KNOWN_EXTS
    ensures Legal(LeafName(name, ext))
  {
    assert |LeafName(name, ext)| >= 6;
  }
}
