/**
 * The two coordinate-line parsers of MolecularFileParser: the six-column
 * "Standard orientation" table row of a Gaussian log, and the
 * "Element X Y Z" line of Gaussian and MOLPRO input files.
 */
module LineParsers {
  import opened Strings
  import opened Elements

  /** One atom: its element label and its three Cartesian coordinates, each
      kept as the token text float() accepted (see IsFloat). */
  datatype AtomCoordinate = AtomCoordinate(element: string, x: string, y: string, z: string)

  /** re.match(r'^[A-Za-z]+$', label) on a whitespace-free token. */
  predicate IsAlphaLabel(s: string) {
    |s| > 0 && forall i :: 0 <= i < |s| ==> IsLetter(s[i])
  }

  predicate HasFloatCoordinates(a: AtomCoordinate) {
    IsFloat(a.x) && IsFloat(a.y) && IsFloat(a.z)
  }

  /** _parse_coordinate_line: "Center AtomicNumber AtomicType X Y Z". Any
      line with fewer than six fields, a non-integer second field or a
      non-float coordinate gives None; extra fields are ignored. */
  function ParseCoordinateLine(line: string): (r: Option<AtomCoordinate>)
    ensures r.Some? ==> |Words(line)| >= 6 && HasFloatCoordinates(r.value)
    ensures r.Some? ==> IsIntLiteral(Words(line)[1])
    ensures r.Some? ==> r.value.element == GetElementSymbol(IntValue(Words(line)[1]))
    ensures r.Some? ==> (r.value.x, r.value.y, r.value.z) == (Words(line)[3], Words(line)[4], Words(line)[5])
  {
    var parts := Words(line);
    if |parts| >= 6 && IsIntLiteral(parts[1])
       && IsFloat(parts[3]) && IsFloat(parts[4]) && IsFloat(parts[5])
    then
      Some(AtomCoordinate(GetElementSymbol(IntValue(parts[1])), parts[3], parts[4], parts[5]))
    else
      None
  }

  /** _parse_input_coordinate_line: "Element X Y Z". The element must be
      purely alphabetic and the next three fields floats; extra fields are
      ignored. */
  function ParseInputCoordinateLine(line: string): (r: Option<AtomCoordinate>)
    ensures r.Some? ==> |Words(line)| >= 4 && IsAlphaLabel(r.value.element)
    ensures r.Some? ==> HasFloatCoordinates(r.value)
    ensures r.Some? ==> (r.value.x, r.value.y, r.value.z) == (Words(line)[1], Words(line)[2], Words(line)[3])
  {
    var parts := Words(line);
    if |parts| >= 4 then
      var element := Strip(parts[0]);
      if !IsAlphaLabel(element) then None
      else if IsFloat(parts[1]) && IsFloat(parts[2]) && IsFloat(parts[3]) then
        Some(AtomCoordinate(element, parts[1], parts[2], parts[3]))
      else None
    else None
  }

  /** A table row is accepted exactly when it has at least six fields, the
      second an integer and the fourth to sixth floats. */
  lemma CoordinateLineAccepted(line: string)
    ensures ParseCoordinateLine(line).Some? <==>
              var ws := Words(line);
              |ws| >= 6 && IsIntLiteral(ws[1]) && IsFloat(ws[3]) && IsFloat(ws[4]) && IsFloat(ws[5])
  {
  }

  /** An input line is accepted exactly when it has at least four fields,
      the first purely alphabetic and the next three floats; the element is
      the first field as it stands. */
  lemma InputLineAccepted(line: string)
    ensures ParseInputCoordinateLine(line).Some? <==>
              var ws := Words(line);
              |ws| >= 4 && IsAlphaLabel(ws[0]) && IsFloat(ws[1]) && IsFloat(ws[2]) && IsFloat(ws[3])
    ensures ParseInputCoordinateLine(line).Some? ==> ParseInputCoordinateLine(line).value.element == Words(line)[0]
  {
    var ws := Words(line);
    if |ws| >= 4 {
      WordsAreWords(line);
      assert IsWord(ws[0]);
      StripNoSpace(ws[0]);
    }
  }

  /** The line an input file holds for an atom, fields separated by single
      spaces, possibly followed by more fields. */
  function InputLine(a: AtomCoordinate, extra: seq<string>): string {
    Join([a.element, a.x, a.y, a.z] + extra, " ")
  }

  lemma AlphaLabelIsWord(s: string)
    requires IsAlphaLabel(s)
    ensures IsWord(s)
  {
  }

  /** Every well-formed atom written as an input line parses back to itself,
      whatever trailing fields follow it. */
  lemma InputLineRoundTrip(a: AtomCoordinate, extra: seq<string>)
    requires IsAlphaLabel(a.element) && HasFloatCoordinates(a)
    requires forall i :: 0 <= i < |extra| ==> IsWord(extra[i])
    ensures ParseInputCoordinateLine(InputLine(a, extra)) == Some(a)
  {
    var ws := [a.element, a.x, a.y, a.z] + extra;
    AtomFieldsAreWords(a, extra);
    WordsOfUnwords(ws);
    var parts := Words(InputLine(a, extra));
    assert parts == ws;
    assert parts[0] == a.element && parts[1] == a.x && parts[2] == a.y && parts[3] == a.z;
    StripNoSpace(a.element);
  }

  lemma AtomFieldsAreWords(a: AtomCoordinate, extra: seq<string>)
    requires IsAlphaLabel(a.element) && HasFloatCoordinates(a)
    requires forall i :: 0 <= i < |extra| ==> IsWord(extra[i])
    ensures forall i :: 0 <= i < 4 + |extra| ==> IsWord(([a.element, a.x, a.y, a.z] + extra)[i])
  {
    AlphaLabelIsWord(a.element);
    FloatIsWord(a.x);
    FloatIsWord(a.y);
    FloatIsWord(a.z);
  }

  /** An input line is rejected outright when its first field is not purely
      alphabetic, whatever follows (dummy atoms "X1", labels "C1"). */
  lemma InputLineNeedsAlphaLabel(line: string)
    requires |Words(line)| >= 4
    requires !IsAlphaLabel(Words(line)[0])
    ensures ParseInputCoordinateLine(line) == None
  {
    WordsAreWords(line);
    StripNoSpace(Words(line)[0]);
  }

  /** An atom as an input line gives it: an alphabetic label and float
      coordinates. */
  predicate WellFormed(a: AtomCoordinate) {
    IsAlphaLabel(a.element) && HasFloatCoordinates(a)
  }

  /** The lines an input file holds for `atoms`. */
  function AtomLines(atoms: seq<AtomCoordinate>): (r: seq<string>)
    ensures |r| == |atoms|
    ensures forall t :: 0 <= t < |atoms| ==> r[t] == InputLine(atoms[t], [])
  {
    seq(|atoms|, t requires 0 <= t < |atoms| => InputLine(atoms[t], []))
  }

  /** An atom's line, fields joined by single spaces. */
  lemma InputLineFields(a: AtomCoordinate)
    ensures InputLine(a, []) == a.element + " " + a.x + " " + a.y + " " + a.z
  {
    var e, x, y, z := a.element, a.x, a.y, a.z;
    assert [e, x, y, z] + [] == [e] + [x, y, z];
    JoinCons(e, [x, y, z], " ");
    assert [x, y, z] == [x] + [y, z];
    JoinCons(x, [y, z], " ");
    assert [y, z] == [y] + [z];
    JoinCons(y, [z], " ");
  }

  /** An atom's line has no whitespace at either end and reads back as the
      atom once stripped. */
  lemma AtomLineParses(a: AtomCoordinate)
    requires WellFormed(a)
    ensures ParseInputCoordinateLine(Strip(InputLine(a, []))) == Some(a)
  {
    InputLineFields(a);
    var line := InputLine(a, []);
    FloatIsWord(a.z);
    assert line[0] == a.element[0];
    assert line[|line| - 1] == a.z[|a.z| - 1];
    StripUnpadded(line);
    InputLineRoundTrip(a, []);
  }

  predicate IsLineChar(c: char) {
    c == ' ' || NumberChar(c)
  }

  /** An atom's line holds letters, digits, signs, points and spaces only. */
  lemma AtomLineChars(a: AtomCoordinate)
    requires WellFormed(a)
    ensures AllChars(IsLineChar, InputLine(a, []))
  {
    InputLineFields(a);
    FloatChars(a.x);
    FloatChars(a.y);
    FloatChars(a.z);
    var sp := " ";
    assert AllChars(IsLineChar, a.element);
    assert AllChars(IsLineChar, sp);
    assert AllChars(IsLineChar, a.x) && AllChars(IsLineChar, a.y) && AllChars(IsLineChar, a.z);
    AllCharsConcat(IsLineChar, a.element, sp);
    AllCharsConcat(IsLineChar, a.element + sp, a.x);
    AllCharsConcat(IsLineChar, a.element + sp + a.x, sp);
    AllCharsConcat(IsLineChar, a.element + sp + a.x + sp, a.y);
    AllCharsConcat(IsLineChar, a.element + sp + a.x + sp + a.y, sp);
    AllCharsConcat(IsLineChar, a.element + sp + a.x + sp + a.y + sp, a.z);
  }

  /** An atom's line has no whitespace at either end. */
  lemma LineEnds(a: AtomCoordinate)
    requires WellFormed(a)
    ensures var line := InputLine(a, []);
            |line| > 0 && !IsSpace(line[0]) && !IsSpace(line[|line| - 1])
  {
    var line := InputLine(a, []);
    InputLineFields(a);
    FloatIsWord(a.z);
    assert line[0] == a.element[0];
    assert line[|line| - 1] == a.z[|a.z| - 1];
  }

  /** No atom line holds a line break. */
  lemma AtomLinesNoNewline(atoms: seq<AtomCoordinate>)
    requires forall t :: 0 <= t < |atoms| ==> WellFormed(atoms[t])
    ensures forall i :: 0 <= i < |AtomLines(atoms)| ==> '\n' !in AtomLines(atoms)[i]
  {
    var lines := AtomLines(atoms);
    forall i | 0 <= i < |lines| ensures '\n' !in lines[i] {
      AtomLineChars(atoms[i]);
      forall k | 0 <= k < |lines[i]| ensures lines[i][k] != '\n' {
        assert IsLineChar(lines[i][k]);
      }
    }
  }

  /** The row a Gaussian "Standard orientation" table holds for an atom. */
  function OrientationRow(center: string, atomicNumber: int, atomicType: string,
                          x: string, y: string, z: string): string
  {
    Join([center, IntToString(atomicNumber), atomicType, x, y, z], " ")
  }

  /** The fields of a table row are the six values it was written from. */
  lemma OrientationRowWords(center: string, n: int, atomicType: string,
                            x: string, y: string, z: string)
    requires IsWord(center) && IsWord(atomicType)
    requires IsFloat(x) && IsFloat(y) && IsFloat(z)
    ensures var ws := Words(OrientationRow(center, n, atomicType, x, y, z));
            |ws| == 6 && ws[0] == center && ws[1] == IntToString(n) && ws[2] == atomicType
    ensures var ws := Words(OrientationRow(center, n, atomicType, x, y, z));
            |ws| == 6 && ws[3] == x && ws[4] == y && ws[5] == z
  {
    var num := IntToString(n);
    IntToStringRoundTrip(n);
    IntLiteralIsWord(num);
    FloatIsWord(x);
    FloatIsWord(y);
    FloatIsWord(z);
    var ws := [center, num, atomicType, x, y, z];
    assert forall i :: 0 <= i < 6 ==> IsWord(ws[i]);
    WordsOfUnwords(ws);
  }

  /** Every table row parses back to the atomic number's symbol (or, past
      the table, the number's own text) and the three coordinates. */
  lemma OrientationRowRoundTrip(center: string, n: int, atomicType: string,
                                x: string, y: string, z: string)
    requires IsWord(center) && IsWord(atomicType)
    requires IsFloat(x) && IsFloat(y) && IsFloat(z)
    ensures ParseCoordinateLine(OrientationRow(center, n, atomicType, x, y, z))
            == Some(AtomCoordinate(GetElementSymbol(n), x, y, z))
  {
    OrientationRowWords(center, n, atomicType, x, y, z);
    IntToStringRoundTrip(n);
  }

  /** A "Standard orientation" row never passes for an input line: its first
      field, the centre number, is not alphabetic. */
  lemma OrientationRowIsNotInputLine(center: nat, n: int, atomicType: string,
                                     x: string, y: string, z: string)
    requires IsWord(atomicType)
    requires IsFloat(x) && IsFloat(y) && IsFloat(z)
    ensures ParseInputCoordinateLine(OrientationRow(NatToString(center), n, atomicType, x, y, z)) == None
  {
    var c := NatToString(center);
    IntLiteralIsWord(c);
    OrientationRowWords(c, n, atomicType, x, y, z);
    assert !IsAlphaLabel(c) by {
      assert IsDigit(c[0]);
    }
    InputLineNeedsAlphaLabel(OrientationRow(c, n, atomicType, x, y, z));
  }

  /** When an input line passes for a table row: only when its second field
      (the atom's x) is an integer literal and at least two further fields
      follow, the first two of them floats. The row then reads as the table
      element numbered x at (z, extra[0], extra[1]). */
  lemma InputLineAsOrientationRow(a: AtomCoordinate, extra: seq<string>)
    requires IsAlphaLabel(a.element) && HasFloatCoordinates(a)
    requires forall i :: 0 <= i < |extra| ==> IsWord(extra[i])
    ensures ParseCoordinateLine(InputLine(a, extra)).Some? <==>
              |extra| >= 2 && IsIntLiteral(a.x) && IsFloat(extra[0]) && IsFloat(extra[1])
    ensures ParseCoordinateLine(InputLine(a, extra)).Some? ==>
              ParseCoordinateLine(InputLine(a, extra)).value
              == AtomCoordinate(GetElementSymbol(IntValue(a.x)), a.z, extra[0], extra[1])
  {
    InputLineWords(a, extra);
    RowOfFields(InputLine(a, extra), a.element, a.x, a.y, a.z, extra);
  }

  /** A line whose fields are e, x, y, z (z a float) and `extra` is a table
      row exactly when x is an integer and two floats follow z. */
  lemma RowOfFields(line: string, e: string, x: string, y: string, z: string, extra: seq<string>)
    requires Words(line) == [e, x, y, z] + extra && IsFloat(z)
    ensures ParseCoordinateLine(line).Some? <==>
              |extra| >= 2 && IsIntLiteral(x) && IsFloat(extra[0]) && IsFloat(extra[1])
    ensures ParseCoordinateLine(line).Some? ==>
              ParseCoordinateLine(line).value == AtomCoordinate(GetElementSymbol(IntValue(x)), z, extra[0], extra[1])
  {
    CoordinateLineAccepted(line);
    FieldPositions(Words(line), e, x, y, z, extra);
  }

  /** Where the fields of [e, x, y, z] + extra sit. */
  lemma FieldPositions(ws: seq<string>, e: string, x: string, y: string, z: string, extra: seq<string>)
    requires ws == [e, x, y, z] + extra
    ensures |ws| >= 6 <==> |extra| >= 2
    ensures ws[1] == x && ws[3] == z
    ensures |extra| >= 2 ==> ws[4] == extra[0] && ws[5] == extra[1]
  {
  }

  /** An input line splits back into the atom's fields and the extra ones. */
  lemma InputLineWords(a: AtomCoordinate, extra: seq<string>)
    requires IsAlphaLabel(a.element) && HasFloatCoordinates(a)
    requires forall i :: 0 <= i < |extra| ==> IsWord(extra[i])
    ensures Words(InputLine(a, extra)) == [a.element, a.x, a.y, a.z] + extra
  {
    AtomFieldsAreWords(a, extra);
    WordsOfUnwords([a.element, a.x, a.y, a.z] + extra);
  }

  /** An input line for a well-formed atom is never taken for a table row
      when its x field is not an integer literal or fewer than two fields
      follow its coordinates. */
  lemma InputLineIsNotOrientationRow(a: AtomCoordinate, extra: seq<string>)
    requires IsAlphaLabel(a.element) && HasFloatCoordinates(a)
    requires forall i :: 0 <= i < |extra| ==> IsWord(extra[i])
    requires |extra| < 2 || !IsIntLiteral(a.x)
    ensures ParseCoordinateLine(InputLine(a, extra)) == None
  {
    InputLineAsOrientationRow(a, extra);
  }

  /** Carbon at (1, 0, 0) with two trailing zero fields, "C 1 0 0 0 0", is
      also a table row: hydrogen, the element numbered 1, at the origin. */
  lemma CarbonLineReadAsHydrogen()
    ensures ParseCoordinateLine(InputLine(AtomCoordinate("C", "1", "0", "0"), ["0", "0"]))
            == Some(AtomCoordinate("H", "0", "0", "0"))
  {
    var a := AtomCoordinate("C", "1", "0", "0");
    assert IsFloat("1") && IsFloat("0");
    assert IsIntLiteral("1") && IntValue("1") == 1;
    InputLineAsOrientationRow(a, ["0", "0"]);
  }
}
