/** The byte order of names and the strictly sorted lists that ordered sets and maps turn into. */
module NameOrder {
  import opened Common
  import opened Paths

  predicate Less(a: Name, b: Name) {
    b != [] && (a == [] || a[0] < b[0] || (a[0] == b[0] && Less(a[1..], b[1..])))
  }

  lemma {:induction false} LessTrichotomy(a: Name, b: Name)
    ensures a == b || Less(a, b) || Less(b, a)
    ensures !(Less(a, b) && Less(b, a))
    ensures a == b ==> !Less(a, b)
  {
    if a != [] && b != [] {
      LessTrichotomy(a[1..], b[1..]);
      assert a == [a[0]] + a[1..] && b == [b[0]] + b[1..];
    }
  }

  lemma {:induction false} LessTransitive(a: Name, b: Name, c: Name)
    requires Less(a, b) && Less(b, c)
    ensures Less(a, c)
  {
    if a != [] && a[0] == b[0] == c[0] {
      LessTransitive(a[1..], b[1..], c[1..]);
    }
  }

  ghost predicate StrictlySorted(names: seq<Name>) {
    forall i, j :: 0 <= i < j < |names| ==> Less(names[i], names[j])
  }

  /** Adds a name to a sorted list of distinct names; a name already there is not repeated. */
  function Insert(names: seq<Name>, name: Name): (r: seq<Name>)
    ensures forall x :: x in r <==> x == name || x in names
  {
    if names == [] then [name]
    else if name == names[0] then names
    else if Less(name, names[0]) then [name] + names
    else
      var rest := Insert(names[1..], name);
      assert forall x :: x in names <==> x == names[0] || x in names[1..];
      [names[0]] + rest
  }

  lemma {:induction false} InsertKeepsOrder(names: seq<Name>, name: Name)
    requires StrictlySorted(names)
    ensures StrictlySorted(Insert(names, name))
  {
    if names != [] && name != names[0] {
      LessTrichotomy(name, names[0]);
      var r := Insert(names, name);
      if Less(name, names[0]) {
        forall j | 0 < j < |r| ensures Less(name, r[j]) {
          if j > 1 {
            assert r[j] == names[j - 1];
            LessTransitive(name, names[0], names[j - 1]);
          }
        }
      } else {
        var rest := Insert(names[1..], name);
        InsertKeepsOrder(names[1..], name);
        forall j | 0 < j < |r| ensures Less(r[0], r[j]) {
          assert r[j] == rest[j - 1] && rest[j - 1] in rest;
        }
      }
    }
  }

  /** A strictly sorted list is determined by the set of its members. */
  lemma {:induction false} SortedIsUnique(a: seq<Name>, b: seq<Name>)
    requires StrictlySorted(a) && StrictlySorted(b)
    requires forall x :: x in a <==> x in b
    ensures a == b
  {
    assert b != [] ==> b[0] in a;
    assert a != [] ==> a[0] in b;
    if a != [] {
      HeadsAgree(a, b);
      forall x ensures x in a[1..] <==> x in b[1..] {
        LessTrichotomy(a[0], a[0]);
        assert x in a[1..] ==> x in a && x != a[0];
        assert x in b[1..] ==> x in b && x != b[0];
        assert x in a && x != a[0] ==> x in a[1..];
        assert x in b && x != b[0] ==> x in b[1..];
      }
      SortedIsUnique(a[1..], b[1..]);
      assert a == [a[0]] + a[1..] && b == [b[0]] + b[1..];
    }
  }

  lemma HeadsAgree(a: seq<Name>, b: seq<Name>)
    requires StrictlySorted(a) && StrictlySorted(b)
    requires a != [] && b != [] && a[0] in b && b[0] in a
    ensures a[0] == b[0]
  {
    LessTrichotomy(a[0], b[0]);
    var i :| 0 <= i < |b| && b[i] == a[0];
    var j :| 0 <= j < |a| && a[j] == b[0];
  }

  lemma SortedAreDistinct(names: seq<Name>, i: nat)
    requires StrictlySorted(names) && i < |names|
    ensures names[i] !in names[..i]
  {
    LessTrichotomy(names[i], names[i]);
  }

  /** A sorted list is as long as the set of its members is large. */
  lemma {:induction false} SortedCount(names: seq<Name>, members: set<Name>)
    requires StrictlySorted(names) && forall x :: x in names <==> x in members
    ensures |names| == |members|
  {
    if names == [] {
      assert members == {};
    } else {
      var front, last := names[..|names| - 1], names[|names| - 1];
      SortedAreDistinct(names, |names| - 1);
      assert names == front + [last];
      SortedCount(front, members - {last});
    }
  }
}
