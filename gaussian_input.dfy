/**
 * The Gaussian input (.com) strategy: find the first charge/multiplicity
 * line, then read the unbroken run of "Element X Y Z" lines that follows it.
 */
module GaussianInput {
  import opened Strings
  import opened LineParsers

  /** The charge/multiplicity test ^[+-]?\d+\s+[+-]?\d+\s*$ on a stripped
      line: a stripped line has no whitespace at either end, so the pattern
      holds exactly when the line is two integer literals and nothing else. */
  predicate IsChargeMultiplicity(line: string) {
    var ws := Words(line);
    |ws| == 2 && IsIntLiteral(ws[0]) && IsIntLiteral(ws[1])
  }

  /** A line that, stripped, is a charge/multiplicity line. */
  predicate IsChargeLine(line: string) {
    IsChargeMultiplicity(Strip(line))
  }

  /** The index of the first charge/multiplicity line. */
  function ChargeLine(lines: seq<string>): (r: Option<nat>)
    ensures r.Some? ==> r.value < |lines| && IsChargeLine(lines[r.value])
  {
    FirstIndex(IsChargeLine, lines, 0)
  }

  /** A line of the coordinate block: none if it is blank once stripped,
      otherwise its atom if it parses as "Element X Y Z". */
  function AtomOfLine(line: string): Option<AtomCoordinate> {
    var l := Strip(line);
    if l == [] then None else ParseInputCoordinateLine(l)
  }

  /** The atoms of the run of coordinate lines that starts at `from`: each
      line of the run parses, and the run ends at the end of the file or at
      the first line that does not. */
  function AtomRun(lines: seq<string>, from: nat): (r: seq<AtomCoordinate>)
    requires from <= |lines|
    ensures from + |r| <= |lines|
  {
    SomePrefix(AtomOfLine, lines[from..])
  }

  /** What _extract_from_input_file returns for the lines of a file. */
  function InputAtomsOfLines(lines: seq<string>): (r: seq<AtomCoordinate>)
    ensures ChargeLine(lines).Some? ==> |r| <= |lines| - ChargeLine(lines).value - 1
  {
    match ChargeLine(lines)
    case None => []
    case Some(i) => AtomRun(lines, i + 1)
  }

  function InputAtoms(content: string): seq<AtomCoordinate> {
    InputAtomsOfLines(Split(content, "\n"))
  }

  /** The search finds no charge/multiplicity line exactly when the file
      has none, and then the result is empty. */
  lemma NoChargeLineNoAtoms(lines: seq<string>)
    ensures ChargeLine(lines).None? <==> forall j :: 0 <= j < |lines| ==> !IsChargeLine(lines[j])
    ensures ChargeLine(lines).None? ==> InputAtomsOfLines(lines) == []
  {
    FirstIndexSpec(IsChargeLine, lines, 0);
  }

  /** Every atom read has an alphabetic label and float coordinates. */
  lemma InputAtomsWellFormed(lines: seq<string>)
    ensures var r := InputAtomsOfLines(lines);
            forall k :: 0 <= k < |r| ==> WellFormed(r[k])
  {
    if ChargeLine(lines).Some? {
      var i := ChargeLine(lines).value;
      var after := lines[i + 1..];
      var r := SomePrefix(AtomOfLine, after);
      SomePrefixSpec(AtomOfLine, after);
      forall k | 0 <= k < |r| ensures WellFormed(r[k]) {
        assert AtomOfLine(after[k]) == Some(r[k]);
      }
    }
  }

  /** _extract_from_input_file: the search for the charge/multiplicity line,
      then the run of coordinate lines after it. */
  method ExtractFromInputFile(content: string) returns (atoms: seq<AtomCoordinate>)
    ensures atoms == InputAtoms(content)
  {
    var lines := Split(content, "\n");
    var start := FindChargeLine(lines);
    if start == -1 {
      return [];
    }
    atoms := ReadAtomRun(lines, start);
  }

  /** The index after the first charge/multiplicity line, or -1. */
  method FindChargeLine(lines: seq<string>) returns (start: int)
    ensures start == -1 <==> ChargeLine(lines).None?
    ensures start != -1 ==> start == ChargeLine(lines).value + 1
  {
    var i := 0;
    while i < |lines|
      invariant 0 <= i <= |lines|
      invariant forall j :: 0 <= j < i ==> !IsChargeLine(lines[j])
    {
      if IsChargeMultiplicity(Strip(lines[i])) {
        ChargeLineIs(lines, i);
        return i + 1;
      }
      i := i + 1;
    }
    ChargeLineAbsent(lines);
    return -1;
  }

  lemma ChargeLineIs(lines: seq<string>, i: nat)
    requires i < |lines| && IsChargeLine(lines[i])
    requires forall j :: 0 <= j < i ==> !IsChargeLine(lines[j])
    ensures ChargeLine(lines) == Some(i)
  {
    FirstIndexIs(IsChargeLine, lines, 0, i);
  }

  lemma ChargeLineAbsent(lines: seq<string>)
    requires forall j :: 0 <= j < |lines| ==> !IsChargeLine(lines[j])
    ensures ChargeLine(lines) == None
  {
    FirstIndexSpec(IsChargeLine, lines, 0);
  }

  /** The loop that appends the atom of each line after the charge line and
      stops at the first blank line or line that does not parse. */
  method ReadAtomRun(lines: seq<string>, start: nat) returns (atoms: seq<AtomCoordinate>)
    requires start <= |lines|
    ensures atoms == AtomRun(lines, start)
  {
    atoms := ReadRun(AtomOfLine, lines, start);
  }

  // ---------------------------------------------------------------------------
  // Writing an input file and reading it back

  /** One line per atom, followed by a line that is not a coordinate line
      or by nothing, is read back as exactly those atoms. */
  lemma AtomLinesRun(atoms: seq<AtomCoordinate>, rest: seq<string>)
    requires forall t :: 0 <= t < |atoms| ==> WellFormed(atoms[t])
    requires rest != [] ==> AtomOfLine(rest[0]) == None
    ensures SomePrefix(AtomOfLine, AtomLines(atoms) + rest) == atoms
  {
    var after := AtomLines(atoms) + rest;
    forall t | 0 <= t < |atoms| ensures AtomOfLine(after[t]) == Some(atoms[t]) {
      assert after[t] == InputLine(atoms[t], []);
      AtomLineParses(atoms[t]);
    }
    if rest != [] {
      assert after[|atoms|] == rest[0];
    }
    SomePrefixIs(AtomOfLine, after, atoms);
  }

  /** The charge/multiplicity line after a header that has none is the one
      found. */
  lemma ChargeLineAfterHeader(header: seq<string>, chargeLine: string, tail: seq<string>)
    requires forall j :: 0 <= j < |header| ==> !IsChargeLine(header[j])
    requires IsChargeLine(chargeLine)
    ensures ChargeLine(header + [chargeLine] + tail) == Some(|header|)
  {
    var lines := header + [chargeLine] + tail;
    forall j | 0 <= j < |header| ensures !IsChargeLine(lines[j]) {
      assert lines[j] == header[j];
    }
    ChargeLineIs(lines, |header|);
  }

  /** A file made of header lines without a charge/multiplicity line, the
      charge/multiplicity line, one line per atom and then a line that is not
      a coordinate line (typically the blank line before the variables), or
      nothing, reads back as exactly those atoms. */
  lemma InputFileRoundTrip(header: seq<string>, chargeLine: string, atoms: seq<AtomCoordinate>, rest: seq<string>)
    requires forall j :: 0 <= j < |header| ==> !IsChargeLine(header[j])
    requires IsChargeLine(chargeLine)
    requires forall t :: 0 <= t < |atoms| ==> WellFormed(atoms[t])
    requires rest != [] ==> AtomOfLine(rest[0]) == None
    ensures InputAtomsOfLines(header + [chargeLine] + AtomLines(atoms) + rest) == atoms
  {
    AfterMarker(header, chargeLine, AtomLines(atoms), rest);
    ChargeLineAfterHeader(header, chargeLine, AtomLines(atoms) + rest);
    AtomLinesRun(atoms, rest);
  }

  /** Only the first charge/multiplicity line counts: a later one is never
      taken for it. */
  lemma FirstChargeLineWins(lines: seq<string>, i: nat, j: nat)
    requires i < j < |lines|
    requires IsChargeLine(lines[i]) && IsChargeLine(lines[j])
    ensures ChargeLine(lines).Some? && ChargeLine(lines).value <= i < j
    ensures forall k :: 0 <= k < ChargeLine(lines).value ==> !IsChargeLine(lines[k])
  {
    FirstIndexSpec(IsChargeLine, lines, 0);
  }

  /** A charge and a multiplicity written as integers and separated by a
      space make a charge/multiplicity line, such as "0 1" or "-1 2". */
  lemma ChargeMultiplicityLine(charge: int, multiplicity: int)
    ensures IsChargeMultiplicity(Strip(IntToString(charge) + " " + IntToString(multiplicity)))
  {
    var q, m := IntToString(charge), IntToString(multiplicity);
    IntToStringRoundTrip(charge);
    IntToStringRoundTrip(multiplicity);
    IntLiteralIsWord(q);
    IntLiteralIsWord(m);
    var ws := [q, m];
    assert ws[1..] == [m];
    assert Join(ws, " ") == q + " " + m;
    WordsOfUnwords(ws);
    var line := q + " " + m;
    assert line[0] == q[0];
    assert line[|line| - 1] == m[|m| - 1];
    StripUnpadded(line);
  }
}
