/** Exact-pattern and line-range edits of a text leaf. */
module TextEdit {
  import opened Common

  datatype EditError = EmptyPattern | NotFound | NotUnique(matches: nat) | BadStart | BadEnd | BeyondText(lines: nat)

  // ---------- Exact edits ----------

  predicate OccursAt(text: string, pattern: string, k: nat) {
    k + |pattern| <= |text| && text[k..k + |pattern|] == pattern
  }

  /** No occurrence starts before position `n`. */
  predicate NoMatchBefore(text: string, pattern: string, n: nat) {
    forall j | 0 <= j < n :: !OccursAt(text, pattern, j)
  }

  lemma OccursInTail(text: string, pattern: string, j: nat)
    requires text != ""
    ensures OccursAt(text, pattern, j + 1) <==> OccursAt(text[1..], pattern, j)
  {
    if j + 1 + |pattern| <= |text| {
      assert text[j + 1..j + 1 + |pattern|] == text[1..][j..j + |pattern|];
    }
  }

  lemma OccursInFront(front: string, rest: string, pattern: string, j: nat)
    requires j + |pattern| <= |front|
    ensures OccursAt(front + rest, pattern, j) <==> OccursAt(front, pattern, j)
  {
    assert (front + rest)[j..j + |pattern|] == front[j..j + |pattern|];
  }

  /** The leftmost occurrence. */
  function FirstMatch(text: string, pattern: string): Option<nat> {
    if |text| < |pattern| then None
    else if text[..|pattern|] == pattern then Some(0)
    else if text == "" then None
    else
      match FirstMatch(text[1..], pattern)
      case None => None
      case Some(k) => Some(k + 1)
  }

  lemma {:induction false} FirstMatchIsLeftmost(text: string, pattern: string)
    ensures var r := FirstMatch(text, pattern);
            if r.Some? then OccursAt(text, pattern, r.value) && NoMatchBefore(text, pattern, r.value)
            else forall j: nat :: !OccursAt(text, pattern, j)
  {
    if |text| >= |pattern| && text[..|pattern|] != pattern && text != "" {
      FirstMatchIsLeftmost(text[1..], pattern);
      forall j: nat ensures OccursAt(text, pattern, j + 1) <==> OccursAt(text[1..], pattern, j) {
        OccursInTail(text, pattern, j);
      }
      assert forall j: nat | j > 0 && OccursAt(text, pattern, j) :: OccursAt(text[1..], pattern, j - 1);
      assert text[0..0 + |pattern|] == text[..|pattern|];
    }
  }

  /** The leftmost occurrence is the only one with nothing before it. */
  lemma LeftmostIsFirstMatch(text: string, pattern: string, k: nat)
    requires OccursAt(text, pattern, k) && NoMatchBefore(text, pattern, k)
    ensures FirstMatch(text, pattern) == Some(k)
  {
    FirstMatchIsLeftmost(text, pattern);
  }

  /** How many matches a left-to-right scan without overlaps finds. */
  function MatchCount(text: string, pattern: string): nat
    requires pattern != ""
    decreases |text|
  {
    FirstMatchIsLeftmost(text, pattern);
    match FirstMatch(text, pattern)
    case None => 0
    case Some(k) => 1 + MatchCount(text[k + |pattern|..], pattern)
  }

  /** Replaces at most `limit` matches of that scan. */
  function ReplaceUpTo(text: string, pattern: string, replacement: string, limit: nat): string
    requires pattern != ""
    decreases |text|
  {
    if limit == 0 then text
    else
      FirstMatchIsLeftmost(text, pattern);
      match FirstMatch(text, pattern)
      case None => text
      case Some(k) => text[..k] + replacement + ReplaceUpTo(text[k + |pattern|..], pattern, replacement, limit - 1)
  }

  function ApplyEdit(text: string, pattern: string, replacement: string, replaceAll: bool): Result<string, EditError> {
    if pattern == "" then Err(EmptyPattern)
    else
      var matches := MatchCount(text, pattern);
      if matches == 0 then Err(NotFound)
      else if matches > 1 && !replaceAll then Err(NotUnique(matches))
      else if replaceAll then Ok(ReplaceUpTo(text, pattern, replacement, matches))
      else Ok(ReplaceUpTo(text, pattern, replacement, 1))
  }

  lemma EmptyPatternIsRefused(text: string, pattern: string, replacement: string, replaceAll: bool)
    ensures ApplyEdit(text, pattern, replacement, replaceAll) == Err(EmptyPattern) <==> pattern == ""
  {
  }

  function Join(pieces: seq<string>, separator: string): string
    requires pieces != []
  {
    if |pieces| == 1 then pieces[0] else pieces[0] + separator + Join(pieces[1..], separator)
  }

  /** `pieces` cut a text at leftmost, non-overlapping occurrences of `pattern`, and at all of them. */
  predicate CutsAtMatches(pieces: seq<string>, pattern: string) {
    pieces != [] &&
    if |pieces| == 1 then NoMatchBefore(pieces[0], pattern, |pieces[0]| + 1)
    else NoMatchBefore(pieces[0] + pattern, pattern, |pieces[0]|) && CutsAtMatches(pieces[1..], pattern)
  }

  function Pieces(text: string, pattern: string): (pieces: seq<string>)
    requires pattern != ""
    ensures |pieces| == MatchCount(text, pattern) + 1
    decreases |text|
  {
    FirstMatchIsLeftmost(text, pattern);
    match FirstMatch(text, pattern)
    case None => [text]
    case Some(k) => [text[..k]] + Pieces(text[k + |pattern|..], pattern)
  }

  lemma FirstPiece(first: string, pattern: string, rest: string)
    ensures NoMatchBefore(first + pattern + rest, pattern, |first|)
            <==> NoMatchBefore(first + pattern, pattern, |first|)
    ensures OccursAt(first + pattern + rest, pattern, |first|)
  {
    forall j | 0 <= j < |first|
      ensures OccursAt(first + pattern + rest, pattern, j) <==> OccursAt(first + pattern, pattern, j)
    {
      OccursInFront(first + pattern, rest, pattern, j);
    }
    assert (first + pattern + rest)[|first|..|first| + |pattern|] == pattern;
  }

  lemma CutsExtend(text: string, first: string, pattern: string, tail: seq<string>)
    requires CutsAtMatches(tail, pattern)
    requires text == first + pattern + Join(tail, pattern) && NoMatchBefore(text, pattern, |first|)
    ensures CutsAtMatches([first] + tail, pattern)
    ensures Join([first] + tail, pattern) == text
  {
    FirstPiece(first, pattern, Join(tail, pattern));
    assert ([first] + tail)[1..] == tail;
  }

  lemma SplitAt(text: string, pattern: string, k: nat)
    requires OccursAt(text, pattern, k)
    ensures text == text[..k] + pattern + text[k + |pattern|..]
  {
  }

  lemma {:induction false} PiecesAreCuts(text: string, pattern: string)
    requires pattern != ""
    ensures CutsAtMatches(Pieces(text, pattern), pattern)
    ensures Join(Pieces(text, pattern), pattern) == text
    decreases |text|
  {
    FirstMatchIsLeftmost(text, pattern);
    var first := FirstMatch(text, pattern);
    if first.Some? {
      SplitAt(text, pattern, first.value);
      var rest := text[first.value + |pattern|..];
      PiecesAreCuts(rest, pattern);
      CutsExtend(text, text[..first.value], pattern, Pieces(rest, pattern));
    } else {
      assert Pieces(text, pattern) == [text];
    }
  }

  lemma JoinCons(first: string, rest: seq<string>, separator: string)
    requires rest != []
    ensures Join([first] + rest, separator) == first + separator + Join(rest, separator)
  {
    assert ([first] + rest)[1..] == rest;
  }

  lemma PiecesCons(text: string, first: string, pattern: string, rest: string)
    requires pattern != "" && text == first + pattern + rest && NoMatchBefore(first + pattern, pattern, |first|)
    ensures Pieces(text, pattern) == [first] + Pieces(rest, pattern)
  {
    FirstPiece(first, pattern, rest);
    LeftmostIsFirstMatch(text, pattern, |first|);
    assert text[..|first|] == first && text[|first| + |pattern|..] == rest;
  }

  lemma PiecesOfOne(text: string, pattern: string)
    requires pattern != "" && NoMatchBefore(text, pattern, |text| + 1)
    ensures Pieces(text, pattern) == [text]
  {
    FirstMatchIsLeftmost(text, pattern);
  }

  /** There is only one way to cut a text like that. */
  lemma {:induction false} CutsAreUnique(pieces: seq<string>, pattern: string)
    requires pattern != "" && CutsAtMatches(pieces, pattern)
    ensures Pieces(Join(pieces, pattern), pattern) == pieces
  {
    if |pieces| == 1 {
      PiecesOfOne(pieces[0], pattern);
    } else {
      CutsAreUnique(pieces[1..], pattern);
      PiecesCons(Join(pieces, pattern), pieces[0], pattern, Join(pieces[1..], pattern));
      assert pieces == [pieces[0]] + pieces[1..];
    }
  }

  lemma {:induction false} ReplaceAllJoins(text: string, pattern: string, replacement: string, limit: nat)
    requires pattern != "" && limit >= MatchCount(text, pattern)
    ensures ReplaceUpTo(text, pattern, replacement, limit) == Join(Pieces(text, pattern), replacement)
    decreases |text|
  {
    FirstMatchIsLeftmost(text, pattern);
    match FirstMatch(text, pattern)
    case None =>
    case Some(k) =>
      var rest := text[k + |pattern|..];
      FirstReplaced(text, pattern, replacement, limit, k);
      ReplaceAllJoins(rest, pattern, replacement, limit - 1);
      JoinCons(text[..k], Pieces(rest, pattern), replacement);
  }

  lemma FirstReplaced(text: string, pattern: string, replacement: string, limit: nat, k: nat)
    requires pattern != "" && limit > 0 && FirstMatch(text, pattern) == Some(k)
    ensures k + |pattern| <= |text|
    ensures var rest := text[k + |pattern|..];
            && MatchCount(text, pattern) == 1 + MatchCount(rest, pattern)
            && Pieces(text, pattern) == [text[..k]] + Pieces(rest, pattern)
            && ReplaceUpTo(text, pattern, replacement, limit)
            == text[..k] + replacement + ReplaceUpTo(rest, pattern, replacement, limit - 1)
  {
    FirstMatchIsLeftmost(text, pattern);
  }

  lemma {:induction false} JoinLength(pieces: seq<string>, a: string, b: string)
    requires pieces != []
    ensures |Join(pieces, b)| - |Join(pieces, a)| == (|pieces| - 1) * (|b| - |a|)
  {
    if |pieces| > 1 {
      JoinLength(pieces[1..], a, b);
      var n := |pieces| - 2;
      assert (n + 1) * (|b| - |a|) == n * (|b| - |a|) + (|b| - |a|);
    }
  }

  /**
   An accepted edit is the splice at the leftmost matches: the text is the pieces joined by `pattern`, the
   result the same pieces joined by the replacement, cut in the only possible way; and it is accepted exactly when
   there is one match, or more than one and all are to be replaced.
   */
  lemma EditIsSplice(text: string, pattern: string, replacement: string, replaceAll: bool, pieces: seq<string>)
    requires pattern != "" && CutsAtMatches(pieces, pattern) && Join(pieces, pattern) == text
    ensures var r := ApplyEdit(text, pattern, replacement, replaceAll);
            if |pieces| == 1 then r == Err(NotFound)
            else if |pieces| > 2 && !replaceAll then r == Err(NotUnique(|pieces| - 1))
            else && r == Ok(Join(pieces, replacement))
                 && |r.value| == |text| + (|pieces| - 1) * (|replacement| - |pattern|)
  {
    CutsAreUnique(pieces, pattern);
    ReplaceAllJoins(text, pattern, replacement, MatchCount(text, pattern));
    JoinLength(pieces, pattern, replacement);
    if |pieces| == 2 {
      ReplaceAllJoins(text, pattern, replacement, 1);
    }
  }

  /** Such a cut always exists, so the previous lemma speaks about every text. */
  lemma EditLaws(text: string, pattern: string, replacement: string)
    requires pattern != ""
    ensures exists pieces :: CutsAtMatches(pieces, pattern) && Join(pieces, pattern) == text
    ensures ApplyEdit(text, pattern, replacement, true) == Err(NotFound)
            <==> forall k: nat :: !OccursAt(text, pattern, k)
    ensures ApplyEdit(text, pattern, pattern, true).Ok? ==> ApplyEdit(text, pattern, pattern, true).value == text
    ensures ApplyEdit(text, pattern, replacement, false).Ok? ==>
              ApplyEdit(text, pattern, replacement, false) == ApplyEdit(text, pattern, replacement, true)
  {
    var pieces := Pieces(text, pattern);
    PiecesAreCuts(text, pattern);
    FirstMatchIsLeftmost(text, pattern);
    EditIsSplice(text, pattern, replacement, true, pieces);
    EditIsSplice(text, pattern, replacement, false, pieces);
    EditIsSplice(text, pattern, pattern, true, pieces);
  }

  // ---------- For which patterns "one match" means "one occurrence" ----------

  /** No proper beginning of the pattern is also an ending of it, so two occurrences never overlap. */
  predicate Unbordered(pattern: string) {
    forall k | 0 < k < |pattern| :: pattern[k..] != pattern[..|pattern| - k]
  }

  ghost predicate OccursOnce(text: string, pattern: string) {
    exists k: nat :: OccursAt(text, pattern, k) && forall j: nat | OccursAt(text, pattern, j) :: j == k
  }

  /** A single edit is accepted exactly for the texts in which the pattern occurs at exactly one place. */
  ghost predicate AcceptsUniqueOnly(pattern: string) {
    forall text: string, replacement: string ::
      ApplyEdit(text, pattern, replacement, false).Ok? <==> OccursOnce(text, pattern)
  }

  /** Two occurrences that overlap make the end of the pattern its beginning. */
  lemma OverlapIsBorder(text: string, pattern: string, i: nat, j: nat)
    requires OccursAt(text, pattern, i) && OccursAt(text, pattern, j) && i < j < i + |pattern|
    ensures !Unbordered(pattern)
  {
    var k := j - i;
    assert pattern[k..] == text[j..i + |pattern|] == pattern[..|pattern| - k];
  }

  lemma OccursInRest(text: string, pattern: string, n: nat, j: nat)
    requires n <= |text|
    ensures OccursAt(text[n..], pattern, j) <==> OccursAt(text, pattern, n + j)
  {
    if n + j + |pattern| <= |text| {
      assert text[n..][j..j + |pattern|] == text[n + j..n + j + |pattern|];
    }
  }

  lemma NoMatchMeansNone(text: string, pattern: string, j: nat)
    requires pattern != "" && MatchCount(text, pattern) == 0
    ensures !OccursAt(text, pattern, j)
  {
    FirstMatchIsLeftmost(text, pattern);
  }

  /** When the scan finds one match, every occurrence begins within it. */
  lemma NoneInRest(text: string, pattern: string, k: nat, m: nat)
    requires pattern != "" && MatchCount(text, pattern) == 1 && FirstMatch(text, pattern) == Some(k)
    ensures !OccursAt(text, pattern, k + |pattern| + m)
  {
    FirstReplaced(text, pattern, "", 1, k);
    if OccursAt(text, pattern, k + |pattern| + m) {
      OccursInRest(text, pattern, k + |pattern|, m);
      NoMatchMeansNone(text[k + |pattern|..], pattern, m);
    }
  }

  lemma OccursWithinMatch(text: string, pattern: string, k: nat, j: nat)
    requires pattern != "" && MatchCount(text, pattern) == 1 && FirstMatch(text, pattern) == Some(k)
    requires OccursAt(text, pattern, j)
    ensures k <= j < k + |pattern|
  {
    FirstMatchIsLeftmost(text, pattern);
    if j >= k + |pattern| {
      NoneInRest(text, pattern, k, j - k - |pattern|);
    }
  }

  lemma TwoPlaces(text: string, pattern: string, i: nat, j: nat)
    requires OccursAt(text, pattern, i) && OccursAt(text, pattern, j) && i != j
    ensures !OccursOnce(text, pattern)
  {
  }

  lemma FirstMatchOccurs(text: string, pattern: string, k: nat)
    requires FirstMatch(text, pattern) == Some(k)
    ensures OccursAt(text, pattern, k)
  {
    FirstMatchIsLeftmost(text, pattern);
  }

  lemma TwoMatchesFrom(text: string, pattern: string, k: nat, rest: string, m: nat)
    requires pattern != "" && k + |pattern| <= |text| && rest == text[k + |pattern|..]
    requires FirstMatch(text, pattern) == Some(k) && FirstMatch(rest, pattern) == Some(m)
    ensures !OccursOnce(text, pattern)
  {
    FirstMatchOccurs(text, pattern, k);
    FirstMatchOccurs(rest, pattern, m);
    OccursInRest(text, pattern, k + |pattern|, m);
    TwoPlaces(text, pattern, k, k + |pattern| + m);
  }

  lemma TwoMatchesAreTwo(text: string, pattern: string)
    requires pattern != "" && MatchCount(text, pattern) > 1
    ensures !OccursOnce(text, pattern)
  {
    var k := FirstMatch(text, pattern).value;
    FirstMatchOccurs(text, pattern, k);
    var rest := text[k + |pattern|..];
    TwoMatchesFrom(text, pattern, k, rest, FirstMatch(rest, pattern).value);
  }

  lemma OneMatchIsUnique(text: string, pattern: string)
    requires pattern != "" && Unbordered(pattern) && MatchCount(text, pattern) == 1
    ensures OccursOnce(text, pattern)
  {
    FirstMatchIsLeftmost(text, pattern);
    var k := FirstMatch(text, pattern).value;
    forall j: nat | OccursAt(text, pattern, j) ensures j == k {
      OccursWithinMatch(text, pattern, k, j);
      if j != k {
        OverlapIsBorder(text, pattern, k, j);
      }
    }
  }

  lemma AcceptedIsUnique(text: string, pattern: string)
    requires pattern != "" && Unbordered(pattern)
    ensures MatchCount(text, pattern) == 1 <==> OccursOnce(text, pattern)
  {
    if MatchCount(text, pattern) == 1 {
      OneMatchIsUnique(text, pattern);
    } else if MatchCount(text, pattern) > 1 {
      TwoMatchesAreTwo(text, pattern);
    } else {
      forall j: nat ensures !OccursAt(text, pattern, j) {
        NoMatchMeansNone(text, pattern, j);
      }
    }
  }

  /** The text that a bordered pattern makes by overlapping itself: two occurrences, one match. */
  lemma OverlapsCountOnce(pattern: string, k: nat)
    requires 0 < k < |pattern| && pattern[k..] == pattern[..|pattern| - k]
    ensures var text := pattern[..k] + pattern;
            MatchCount(text, pattern) == 1 && !OccursOnce(text, pattern)
  {
    var text := pattern[..k] + pattern;
    assert pattern[..k] + pattern[k..] == pattern;
    assert text[..|pattern|] == pattern;
    assert text[0..0 + |pattern|] == pattern && text[k..k + |pattern|] == pattern;
    assert OccursAt(text, pattern, 0) && OccursAt(text, pattern, k);
    assert FirstMatch(text, pattern) == Some(0);
    assert |text[|pattern|..]| < |pattern|;
  }

  lemma AcceptedIffOneMatch(text: string, pattern: string, replacement: string)
    requires pattern != ""
    ensures ApplyEdit(text, pattern, replacement, false).Ok? <==> MatchCount(text, pattern) == 1
  {
  }

  /**
   Overlapping occurrences count once. So a single edit accepts exactly the texts with one occurrence if and only
   if the pattern cannot overlap itself.
   */
  lemma UniqueMeansOneOccurrenceIff(pattern: string)
    requires pattern != ""
    ensures AcceptsUniqueOnly(pattern) <==> Unbordered(pattern)
  {
    if Unbordered(pattern) {
      forall text: string, replacement: string
        ensures ApplyEdit(text, pattern, replacement, false).Ok? <==> OccursOnce(text, pattern)
      {
        AcceptedIffOneMatch(text, pattern, replacement);
        AcceptedIsUnique(text, pattern);
      }
    } else {
      var k :| 0 < k < |pattern| && pattern[k..] == pattern[..|pattern| - k];
      OverlapRefutes(pattern, k);
    }
  }

  lemma OverlapRefutes(pattern: string, k: nat)
    requires 0 < k < |pattern| && pattern[k..] == pattern[..|pattern| - k]
    ensures !AcceptsUniqueOnly(pattern)
  {
    var text := pattern[..k] + pattern;
    OverlapsCountOnce(pattern, k);
    AcceptedIffOneMatch(text, pattern, "");
    assert ApplyEdit(text, pattern, "", false).Ok?;
  }

  /** The smallest case: this pattern occurs at two places and is still accepted. */
  lemma OverlapsAreOneMatch()
    ensures OccursAt("aaa", "aa", 0) && OccursAt("aaa", "aa", 1)
    ensures ApplyEdit("aaa", "aa", "b", false) == Ok("ba")
  {
    var pieces := ["", "a"];
    assert Join(pieces, "aa") == "aaa" by {
      assert pieces[1..] == ["a"];
    }
    assert Join(pieces, "b") == "ba" by {
      assert pieces[1..] == ["a"];
    }
    EditIsSplice("aaa", "aa", "b", false, pieces);
  }

  // ---------- Line-range edits ----------

  /** The length of the first line including its terminator. */
  function FirstLine(text: string): (n: nat)
    requires text != ""
    ensures 0 < n <= |text|
  {
    if text[0] == '\n' || |text| == 1 then 1 else 1 + FirstLine(text[1..])
  }

  /** Lines with their terminators. */
  function Lines(text: string): (lines: seq<string>)
    decreases |text|
  {
    if text == "" then [] else [text[..FirstLine(text)]] + Lines(text[FirstLine(text)..])
  }

  predicate EndsLine(text: string) {
    text != "" && text[|text| - 1] == '\n'
  }

  predicate IsLine(line: string) {
    line != "" && forall k | 0 <= k < |line| - 1 :: line[k] != '\n'
  }

  /** The shape of every split: single lines, all terminated except perhaps the last. */
  predicate AreLines(lines: seq<string>) {
    lines == [] || (IsLine(lines[0]) && (|lines| > 1 ==> EndsLine(lines[0])) && AreLines(lines[1..]))
  }

  lemma {:induction false} AreLinesAppend(a: seq<string>, b: seq<string>)
    ensures AreLines(a + b)
            <==> AreLines(a) && AreLines(b) && (a != [] && b != [] ==> EndsLine(a[|a| - 1]))
  {
    if a == [] {
      assert a + b == b;
    } else {
      assert (a + b)[1..] == a[1..] + b;
      AreLinesAppend(a[1..], b);
    }
  }

  lemma {:induction false} FirstLineIsLine(text: string)
    requires text != ""
    ensures IsLine(text[..FirstLine(text)])
    ensures FirstLine(text) < |text| ==> EndsLine(text[..FirstLine(text)])
  {
    if text[0] != '\n' && |text| > 1 {
      var n, line := FirstLine(text[1..]), text[..FirstLine(text)];
      FirstLineIsLine(text[1..]);
      assert line == [text[0]] + text[1..][..n];
    }
  }

  lemma AreLinesCons(line: string, rest: seq<string>)
    requires IsLine(line) && AreLines(rest) && (rest != [] ==> EndsLine(line))
    ensures AreLines([line] + rest) && Concat([line] + rest) == line + Concat(rest)
  {
    assert ([line] + rest)[1..] == rest;
  }

  lemma LinesCons(text: string, first: string, rest: string)
    requires text != "" && first == text[..FirstLine(text)] && rest == text[FirstLine(text)..]
    ensures text == first + rest && Lines(text) == [first] + Lines(rest)
  {
  }

  lemma LinesFromRest(text: string, first: string, rest: string)
    requires text != "" && first == text[..FirstLine(text)] && rest == text[FirstLine(text)..]
    requires AreLines(Lines(rest)) && Concat(Lines(rest)) == rest
    ensures AreLines(Lines(text)) && Concat(Lines(text)) == text
  {
    LinesCons(text, first, rest);
    FirstLineIsLine(text);
    AreLinesCons(first, Lines(rest));
  }

  lemma {:induction false} LinesAreLines(text: string)
    ensures AreLines(Lines(text)) && Concat(Lines(text)) == text
    decreases |text|
  {
    if text != "" {
      var rest := text[FirstLine(text)..];
      LinesAreLines(rest);
      LinesFromRest(text, text[..FirstLine(text)], rest);
    }
  }

  lemma {:induction false} FirstLineIs(line: string, rest: string)
    requires IsLine(line) && (EndsLine(line) || rest == "")
    ensures FirstLine(line + rest) == |line|
  {
    var text := line + rest;
    assert text[0] == line[0];
    if |line| > 1 {
      assert text[1..] == line[1..] + rest;
      assert forall k | 0 <= k < |line| - 2 :: line[1..][k] == line[k + 1];
      FirstLineIs(line[1..], rest);
    }
  }

  /** Only the split of a text has that shape. */
  lemma {:induction false} LinesAreUnique(lines: seq<string>)
    requires AreLines(lines)
    ensures Lines(Concat(lines)) == lines
  {
    if lines != [] {
      var rest := Concat(lines[1..]);
      FirstLineIs(lines[0], rest);
      assert (lines[0] + rest)[..|lines[0]|] == lines[0] && (lines[0] + rest)[|lines[0]|..] == rest;
      LinesAreUnique(lines[1..]);
    }
  }

  /** Replaces the 1-based inclusive line range `start..end`. */
  method ApplyEditLines(text: string, start: nat, end: nat, replacement: string) returns (r: Result<string, EditError>)
    ensures r == EditedLines(text, start, end, replacement)
  {
    if start == 0 {
      return Err(BadStart);
    }
    if end < start {
      return Err(BadEnd);
    }
    var lines := Lines(text);
    if end > |lines| {
      return Err(BeyondText(|lines|));
    }
    var edited := "";
    for i := 0 to start - 1
      invariant edited == Concat(lines[..i])
    {
      edited := edited + lines[i];
      ConcatSnoc(lines[..i], lines[i]);
      assert lines[..i + 1] == lines[..i] + [lines[i]];
    }
    edited := edited + replacement;
    ghost var front := edited;
    for i := end to |lines|
      invariant edited == front + Concat(lines[end..i])
    {
      edited := edited + lines[i];
      ConcatSnoc(lines[end..i], lines[i]);
      assert lines[end..i + 1] == lines[end..i] + [lines[i]];
    }
    assert lines[end..|lines|] == lines[end..];
    return Ok(edited);
  }

  /** The lines before the range, the new text, the lines after it. */
  function EditedLines(text: string, start: nat, end: nat, replacement: string): Result<string, EditError> {
    if start == 0 then Err(BadStart)
    else if end < start then Err(BadEnd)
    else
      var lines := Lines(text);
      if end > |lines| then Err(BeyondText(|lines|))
      else Ok(Concat(lines[..start - 1]) + replacement + Concat(lines[end..]))
  }

  /** Lines count from one, and a range of them is refused for its start, its end or the text, in this order. */
  lemma RangesAreChecked(text: string, start: nat, end: nat, replacement: string)
    ensures EditedLines(text, start, end, replacement).Ok? <==> 1 <= start <= end <= |Lines(text)|
    ensures EditedLines(text, start, end, replacement).Err? ==>
              EditedLines(text, start, end, replacement).error
              == if start == 0 then BadStart else if end < start then BadEnd else BeyondText(|Lines(text)|)
  {
  }

  lemma ConcatThree(a: seq<string>, b: seq<string>, c: seq<string>)
    ensures Concat(a + b + c) == Concat(a) + Concat(b) + Concat(c)
  {
    ConcatAppend(a + b, c);
    ConcatAppend(a, b);
  }

  lemma EditedIs(text: string, start: nat, end: nat, replacement: string, before: seq<string>, after: seq<string>)
    requires 1 <= start <= end <= |Lines(text)|
    requires Lines(text)[..start - 1] == before && Lines(text)[end..] == after
    ensures EditedLines(text, start, end, replacement) == Ok(Concat(before) + replacement + Concat(after))
  {
  }

  lemma TextParts(text: string, from: nat, to: nat)
    requires from <= to <= |Lines(text)|
    ensures text == Concat(Lines(text)[..from]) + Concat(Lines(text)[from..to]) + Concat(Lines(text)[to..])
  {
    var lines := Lines(text);
    LinesAreLines(text);
    ConcatThree(lines[..from], lines[from..to], lines[to..]);
    assert lines == lines[..from] + lines[from..to] + lines[to..];
  }

  /** The rest of the text is kept byte for byte. */
  lemma EditIsLocal(text: string, start: nat, end: nat, replacement: string)
    requires EditedLines(text, start, end, replacement).Ok?
    ensures var lines := Lines(text);
            var before, range, after := lines[..start - 1], lines[start - 1..end], lines[end..];
            && text == Concat(before) + Concat(range) + Concat(after)
            && EditedLines(text, start, end, replacement) == Ok(Concat(before) + replacement + Concat(after))
            && EditedLines(text, start, end, Concat(range)) == Ok(text)
  {
    var lines := Lines(text);
    TextParts(text, start - 1, end);
    EditedIs(text, start, end, replacement, lines[..start - 1], lines[end..]);
    EditedIs(text, start, end, Concat(lines[start - 1..end]), lines[..start - 1], lines[end..]);
  }

  /**
   Splitting the edited text again gives the lines before, the lines of the new text and the lines
   after, exactly when the new text is empty, ends a line, or the range reached the last line.
   */
  lemma ResplitIff(text: string, start: nat, end: nat, replacement: string)
    requires EditedLines(text, start, end, replacement).Ok?
    ensures var lines, edited := Lines(text), EditedLines(text, start, end, replacement).value;
            Lines(edited) == lines[..start - 1] + Lines(replacement) + lines[end..]
            <==> replacement == "" || EndsLine(replacement) || end == |lines|
  {
    var lines, edited := Lines(text), EditedLines(text, start, end, replacement).value;
    var before, middle, after := lines[..start - 1], Lines(replacement), lines[end..];
    LinesAreLines(text);
    LinesAreLines(replacement);
    LinesAreLines(edited);
    LastLineEnds(replacement);
    ConcatThree(before, middle, after);
    AreLinesAppend(before + middle, after);
    AreLinesAppend(before, middle);
    RangeOfLines(lines, start - 1, end);
    if AreLines(before + middle + after) {
      LinesAreUnique(before + middle + after);
    }
  }

  /** What is left of a list of lines on either side of a range. */
  lemma RangeOfLines(lines: seq<string>, from: nat, to: nat)
    requires AreLines(lines) && from < to <= |lines|
    ensures AreLines(lines[..from]) && AreLines(lines[to..])
    ensures from > 0 ==> EndsLine(lines[..from][from - 1])
  {
    assert lines == lines[..from] + lines[from..] && lines == lines[..to] + lines[to..];
    AreLinesAppend(lines[..from], lines[from..]);
    AreLinesAppend(lines[..to], lines[to..]);
  }

  lemma EndOfTail(text: string, n: nat)
    requires n < |text|
    ensures EndsLine(text[n..]) <==> EndsLine(text)
  {
    assert text[n..][|text| - n - 1] == text[|text| - 1];
  }

  /** A text ends a line exactly when its last line does. */
  lemma {:induction false} LastLineEnds(text: string)
    ensures text == "" <==> Lines(text) == []
    ensures text != "" ==> (EndsLine(Lines(text)[|Lines(text)| - 1]) <==> EndsLine(text))
    decreases |text|
  {
    if text != "" {
      var n := FirstLine(text);
      var rest := Lines(text[n..]);
      LastLineEnds(text[n..]);
      if n == |text| {
        assert text[..n] == text && Lines(text) == [text];
      } else {
        EndOfTail(text, n);
        assert Lines(text) == [text[..n]] + rest;
      }
    }
  }

  lemma UndoRange(before: seq<string>, middle: seq<string>, after: seq<string>, all: seq<string>)
    requires all == before + middle + after
    ensures all[..|before|] == before && all[|before| + |middle|..] == after
  {
  }

  lemma UndoneBy(text: string, edited: string, before: seq<string>, middle: seq<string>, range: seq<string>,
                 after: seq<string>)
    requires Lines(edited) == before + middle + after && middle != []
    requires text == Concat(before) + Concat(range) + Concat(after)
    ensures EditedLines(edited, |before| + 1, |before| + |middle|, Concat(range)) == Ok(text)
  {
    UndoRange(before, middle, after, Lines(edited));
    EditedIs(edited, |before| + 1, |before| + |middle|, Concat(range), before, after);
  }

  lemma UndoneFrom(text: string, edited: string, start: nat, end: nat, middle: seq<string>)
    requires CanUndo(text, start, end, middle, edited)
    ensures EditedLines(edited, start, start + |middle| - 1, Concat(Lines(text)[start - 1..end])) == Ok(text)
  {
    TextParts(text, start - 1, end);
    UndoneBy(text, edited, Lines(text)[..start - 1], middle, Lines(text)[start - 1..end], Lines(text)[end..]);
  }

  lemma ResplitOf(text: string, start: nat, end: nat, replacement: string, edited: string)
    requires EditedLines(text, start, end, replacement) == Ok(edited) && replacement != ""
    requires EndsLine(replacement) || end == |Lines(text)|
    ensures CanUndo(text, start, end, Lines(replacement), edited)
  {
    ResplitIff(text, start, end, replacement);
    LastLineEnds(replacement);
  }

  /** The edited text is the lines before the range, some new lines, and the lines after it. */
  predicate CanUndo(text: string, start: nat, end: nat, middle: seq<string>, edited: string) {
    1 <= start <= end <= |Lines(text)| && middle != []
    && Lines(edited) == Lines(text)[..start - 1] + middle + Lines(text)[end..]
  }

  /** In those cases editing the new range back to the old lines restores the text. */
  lemma EditIsUndoable(text: string, start: nat, end: nat, replacement: string, edited: string)
    requires EditedLines(text, start, end, replacement) == Ok(edited) && replacement != ""
    requires EndsLine(replacement) || end == |Lines(text)|
    ensures 1 <= start <= end <= |Lines(text)| && Lines(replacement) != []
    ensures EditedLines(edited, start, start + |Lines(replacement)| - 1, Concat(Lines(text)[start - 1..end]))
         == Ok(text)
  {
    ResplitOf(text, start, end, replacement, edited);
    UndoneFrom(text, edited, start, end, Lines(replacement));
  }
}
