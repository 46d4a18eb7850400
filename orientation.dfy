/**
 * The "Standard orientation" strategy for Gaussian log files: find the last
 * case-insensitive "standard<whitespace>orientation:" heading, then read the
 * table after it, whose rows sit between its second and third dashed rule.
 */
module StandardOrientation {
  import opened Strings
  import opened LineParsers

  // ---------------------------------------------------------------------------
  // The heading pattern (?i)standard\s+orientation:

  const Standard: string := "standard"
  const Orientation: string := "orientation:"

  /** Where a match of the heading pattern that starts at `i` ends, if one
      starts there. The greedy \s+ takes the whole whitespace run: giving
      any back cannot help, as "orientation:" does not start with one. */
  function MatchEnd(s: string, i: nat): (r: Option<nat>)
    requires i <= |s|
    ensures r.Some? ==> i + |Standard| + 1 + |Orientation| <= r.value <= |s|
  {
    if !MatchesNoCase(s, Standard, i) then None
    else
      var j := i + |Standard|;
      var w := SpaceRun(s, j);
      if w == 0 || !MatchesNoCase(s, Orientation, j + w) then None
      else Some(j + w + |Orientation|)
  }

  predicate MatchAt(s: string, i: nat) {
    i <= |s| && MatchEnd(s, i).Some?
  }

  /** Only the first letter of the heading is an 's'. */
  lemma NoLaterS()
    ensures forall k :: 1 <= k < |Standard| ==> Standard[k] != 's'
    ensures forall k :: 0 <= k < |Orientation| ==> Orientation[k] != 's'
  {
  }

  /** A character of `s` at `i + k` read through a case-insensitive match. */
  lemma MatchedChar(s: string, pat: string, i: nat, k: nat)
    requires MatchesNoCase(s, pat, i) && k < |pat|
    ensures i + k < |s| && LowerChar(s[i + k]) == pat[k]
  {
  }

  /** Every match begins with an 's' (in either case). */
  lemma MatchStartsWithS(s: string, j: nat)
    ensures MatchAt(s, j) ==> j < |s| && LowerChar(s[j]) == 's'
  {
    if MatchAt(s, j) {
      MatchedChar(s, Standard, j, 0);
    }
  }

  /** No character strictly inside a match is an 's'. */
  lemma NoSInsideMatch(s: string, i: nat, j: nat)
    requires MatchAt(s, i) && i < j < MatchEnd(s, i).value
    ensures LowerChar(s[j]) != 's'
  {
    NoLaterS();
    var o := MatchEnd(s, i).value - |Orientation|;
    if j < i + |Standard| {
      MatchedChar(s, Standard, i, j - i);
    } else if j < o {
      var w := SpaceRun(s, i + |Standard|);
      assert o == i + |Standard| + w;
      SpaceRunSpaces(s, i + |Standard|, j);
    } else {
      MatchedChar(s, Orientation, o, j - o);
    }
  }

  /** Two matches of the heading never overlap: no match starts strictly
      inside another. */
  lemma NoOverlap(s: string, i: nat, j: nat)
    requires MatchAt(s, i) && i < j < MatchEnd(s, i).value
    ensures !MatchAt(s, j)
  {
    NoSInsideMatch(s, i, j);
    MatchStartsWithS(s, j);
  }

  /** The heading-match test as a predicate on positions. */
  function Matches(s: string): nat -> bool {
    (j: nat) => MatchAt(s, j)
  }

  /** re.finditer: the starts of the successive matches, each search
      resuming where the previous match ended. */
  function FindIter(s: string, from: nat): (r: seq<nat>)
    requires from <= |s|
    ensures forall k :: 0 <= k < |r| ==> MatchAt(s, r[k])
    decreases |s| - from
  {
    match FirstWhere(Matches(s), from, |s|)
    case None => []
    case Some(i) => [i] + FindIter(s, MatchEnd(s, i).value)
  }

  /** The start of the last match in `s`. */
  function LastMatch(s: string): (r: Option<nat>)
    ensures r.Some? ==> MatchAt(s, r.value)
  {
    LastWhere(Matches(s), |s|)
  }

  /** The last match re.finditer reports is the match with the greatest
      start, and it reports none exactly when there is none. */
  lemma {:induction false} FindIterLast(s: string, from: nat)
    requires from <= |s|
    ensures FindIter(s, from) == [] <==> forall j :: from <= j <= |s| ==> !MatchAt(s, j)
    ensures FindIter(s, from) != [] ==>
              var m := FindIter(s, from);
              LastMatch(s) == Some(m[|m| - 1])
    decreases |s| - from
  {
    var p := Matches(s);
    match FirstWhere(p, from, |s|)
    case None =>
      forall j | from <= j <= |s| ensures !MatchAt(s, j) {
        assert !p(j);
      }
    case Some(i) =>
      var e := MatchEnd(s, i).value;
      var rest := FindIter(s, e);
      FindIterLast(s, e);
      var m := FindIter(s, from);
      assert m == [i] + rest;
      if rest == [] {
        forall j | i < j <= |s| ensures !p(j) {
          if j < e { NoOverlap(s, i, j); }
        }
        LastWhereIs(p, |s|, i);
      } else {
        assert m[|m| - 1] == rest[|rest| - 1];
      }
  }

  /** With a heading, the result is the table after the end of the last
      match re.finditer reports; nothing before it matters. */
  lemma OrientationUsesLastMatch(content: string)
    requires FindIter(content, 0) != []
    ensures var m := FindIter(content, 0);
            var e := MatchEnd(content, m[|m| - 1]).value;
            OrientationAtoms(content) == SectionAtoms(content[e..])
  {
    FindIterLast(content, 0);
    var m := FindIter(content, 0);
    assert LastMatch(content) == Some(m[|m| - 1]);
  }

  /** No heading, no atoms. */
  lemma OrientationNeedsHeading(content: string)
    ensures FindIter(content, 0) == [] ==> OrientationAtoms(content) == []
  {
    FindIterLast(content, 0);
  }

  // ---------------------------------------------------------------------------
  // The table after the heading

  /** A substantial dashed rule: a stripped line holding "-----" and longer
      than 20 characters. */
  predicate IsDashLine(line: string) {
    Contains(line, "-----") && |line| > 20
  }

  /** The heuristic test for a column-header line. */
  predicate IsHeaderLine(line: string) {
    Contains(line, "Center") || Contains(line, "Number") || Contains(line, "Atomic")
    || Contains(line, "Coordinates") || Contains(line, "Type")
  }

  /** The number of dashed rules among `lines`. */
  function DashCount(lines: seq<string>): nat {
    if lines == [] then 0
    else DashCount(lines[..|lines| - 1]) + (if IsDashLine(Strip(lines[|lines| - 1])) then 1 else 0)
  }

  /** Whether the last of `lines` is a table row: stripped, it is neither a
      rule nor blank, and exactly two rules come before it. */
  predicate IsDataLine(lines: seq<string>)
    requires |lines| > 0
  {
    var line := Strip(lines[|lines| - 1]);
    DashCount(lines[..|lines| - 1]) == 2 && line != [] && !IsDashLine(line)
  }

  /** The table rows among `lines`, stripped, in order. */
  function DataLines(lines: seq<string>): (r: seq<string>)
    ensures |r| <= |lines|
  {
    if lines == [] then []
    else
      DataLines(lines[..|lines| - 1])
      + (if IsDataLine(lines) then [Strip(lines[|lines| - 1])] else [])
  }

  /** What _extract_from_standard_orientation returns: the rows after the
      last heading that parse as table rows. */
  function OrientationAtoms(content: string): (r: seq<AtomCoordinate>)
    ensures forall k :: 0 <= k < |r| ==> HasFloatCoordinates(r[k])
  {
    match LastMatch(content)
    case None => []
    case Some(i) => SectionAtoms(content[MatchEnd(content, i).value..])
  }

  /** The atoms of the table in the text that follows a heading. */
  function SectionAtoms(section: string): (r: seq<AtomCoordinate>)
    ensures forall k :: 0 <= k < |r| ==> HasFloatCoordinates(r[k])
  {
    var rows := DataLines(Split(section, "\n"));
    CollectSomeAll(ParseCoordinateLine, rows, HasFloatCoordinates);
    CollectSome(ParseCoordinateLine, rows)
  }

  lemma DashCountStep(lines: seq<string>, i: nat)
    requires i < |lines|
    ensures DashCount(lines[..i + 1]) == DashCount(lines[..i]) + (if IsDashLine(Strip(lines[i])) then 1 else 0)
    ensures DataLines(lines[..i + 1]) == DataLines(lines[..i]) + (if IsDataLine(lines[..i + 1]) then [Strip(lines[i])] else [])
    ensures IsDataLine(lines[..i + 1]) <==>
              DashCount(lines[..i]) == 2 && Strip(lines[i]) != [] && !IsDashLine(Strip(lines[i]))
  {
    assert lines[..i + 1][..i] == lines[..i];
  }

  lemma {:induction false} DashCountMonotone(lines: seq<string>, i: nat)
    requires i <= |lines|
    ensures DashCount(lines[..i]) <= DashCount(lines)
    decreases |lines|
  {
    if i < |lines| {
      var init := lines[..|lines| - 1];
      assert init[..i] == lines[..i];
      DashCountMonotone(init, i);
    } else {
      assert lines[..i] == lines;
    }
  }

  /** After the third rule nothing else is a table row: the scan may stop. */
  lemma {:induction false} DataLinesFrozen(lines: seq<string>, i: nat)
    requires i <= |lines| && DashCount(lines[..i]) >= 3
    ensures DataLines(lines) == DataLines(lines[..i])
    decreases |lines|
  {
    if i == |lines| {
      assert lines[..i] == lines;
    } else {
      var init := lines[..|lines| - 1];
      assert init[..i] == lines[..i];
      DashCountMonotone(init, i);
      DataLinesFrozen(init, i);
    }
  }

  /** Every table row is a non-blank stripped line that is not a rule. */
  lemma {:induction false} DataLinesShape(lines: seq<string>)
    ensures forall k :: 0 <= k < |DataLines(lines)| ==>
              DataLines(lines)[k] != [] && !IsDashLine(DataLines(lines)[k])
    decreases |lines|
  {
    if lines != [] {
      DataLinesShape(lines[..|lines| - 1]);
    }
  }

  /** _extract_from_standard_orientation. */
  method ExtractFromStandardOrientation(content: string) returns (atoms: seq<AtomCoordinate>)
    ensures atoms == OrientationAtoms(content)
  {
    var last := LastMatch(content);
    if last.None? {
      return [];
    }
    var sectionStart := MatchEnd(content, last.value).value;
    var lines := Split(content[sectionStart..], "\n");
    atoms := ScanOrientationLines(lines);
  }

  /** The dash-counting loop: count the rules, skip blank lines and (after
      the first rule) header lines, parse the lines seen while two rules have
      passed, and stop at the first other line after the third. */
  method ScanOrientationLines(lines: seq<string>) returns (atoms: seq<AtomCoordinate>)
    ensures atoms == CollectSome(ParseCoordinateLine, DataLines(lines))
  {
    atoms := [];
    var dashes := 0;
    var i := 0;
    while i < |lines|
      invariant 0 <= i <= |lines|
      invariant dashes == DashCount(lines[..i])
      invariant atoms == CollectSome(ParseCoordinateLine, DataLines(lines[..i]))
    {
      var line := Strip(lines[i]);
      DashCountStep(lines, i);
      CollectSomeAppend(ParseCoordinateLine, DataLines(lines[..i]),
                        if IsDataLine(lines[..i + 1]) then [line] else []);
      if Contains(line, "-----") && |line| > 20 {
        dashes := dashes + 1;
      } else if line == [] {
        // blank lines are skipped
      } else if dashes == 1 && IsHeaderLine(line) {
        // column headers are skipped
      } else if dashes == 2 {
        var coord := ParseCoordinateLine(line);
        if coord.Some? {
          atoms := atoms + [coord.value];
        }
      } else if dashes >= 3 {
        DataLinesFrozen(lines, i);
        return;
      }
      i := i + 1;
    }
    assert lines[..i] == lines;
  }
}
