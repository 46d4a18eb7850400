/**
 * The MOLPRO strategy (.in / .out files): find the geometry blocks
 * `geometry={...}` or `geom = { ... }` (keyword in any case), read each
 * block's lines as "Element X Y Z" atoms, and keep the atoms of the first
 * block that yields any.
 */
module Molpro {
  import opened Strings
  import opened LineParsers

  // ---------------------------------------------------------------------------
  // The block pattern (?i)(?:geometry|geom)\s*=\s*\{([^}]*)\}

  const Geometry: string := "geometry"
  const Geom: string := "geom"

  predicate IsCloseBrace(c: char) {
    c == '}'
  }

  /** The rest of a block whose keyword ends at `j`: `\s*=\s*\{`, then the
      body up to the first closing brace. The result is where the body
      starts and where that brace is. */
  function BraceBody(s: string, j: nat): (r: Option<(nat, nat)>)
    requires j <= |s|
    ensures r.Some? ==> j < r.value.0 <= r.value.1 < |s| && s[r.value.1] == '}'
    ensures r.Some? ==> forall k :: r.value.0 <= k < r.value.1 ==> s[k] != '}'
  {
    var e := j + SpaceRun(s, j);
    if e < |s| && s[e] == '=' then
      var o := e + 1 + SpaceRun(s, e + 1);
      if o < |s| && s[o] == '{' then
        FirstIndexSpec(IsCloseBrace, s, o + 1);
        match FirstIndex(IsCloseBrace, s, o + 1)
        case None => None
        case Some(c) => Some((o + 1, c))
      else None
    else None
  }

  /** A block whose keyword starts at `g`. The alternation tries "geometry"
      first and falls back to "geom" when the rest does not follow it. */
  function BlockAt(s: string, g: nat): (r: Option<(nat, nat)>)
    requires g <= |s|
    ensures r.Some? ==> g < r.value.0 <= r.value.1 < |s| && s[r.value.1] == '}'
    ensures r.Some? ==> forall k :: r.value.0 <= k < r.value.1 ==> s[k] != '}'
  {
    var long := if MatchesNoCase(s, Geometry, g) then BraceBody(s, g + |Geometry|) else None;
    if long.Some? then long
    else if MatchesNoCase(s, Geom, g) then BraceBody(s, g + |Geom|)
    else None
  }

  function BlockStarts(s: string): nat -> bool {
    (g: nat) => g <= |s| && BlockAt(s, g).Some?
  }

  /** re.finditer: the bodies of the successive blocks, each search resuming
      after the closing brace of the block before. */
  function Bodies(s: string, from: nat): (r: seq<string>)
    requires from <= |s|
    decreases |s| - from
  {
    match FirstWhere(BlockStarts(s), from, |s|)
    case None => []
    case Some(g) =>
      var b := BlockAt(s, g).value;
      [s[b.0..b.1]] + Bodies(s, b.1 + 1)
  }

  // ---------------------------------------------------------------------------
  // The lines of a block

  predicate IsCommentStart(c: char) {
    c == '#' || c == '!' || c == '*'
  }

  /** A unit or symmetry directive: the whole line is "angstrom", "bohr",
      "au" or "symmetry", in any case. */
  predicate IsDirective(l: string) {
    SpellsNoCase(l, "angstrom") || SpellsNoCase(l, "bohr")
    || SpellsNoCase(l, "au") || SpellsNoCase(l, "symmetry")
  }

  /** The atom one line of a block contributes, if any: a blank line, a
      comment, a directive and a line holding '=' are skipped; any other
      line counts when it parses as "Element X Y Z". */
  function MolproLine(line: string): (r: Option<AtomCoordinate>)
    ensures r.Some? ==> WellFormed(r.value)
  {
    var l := Strip(line);
    if l == [] || IsCommentStart(l[0]) then None
    else if IsDirective(l) || '=' in l then None
    else ParseInputCoordinateLine(l)
  }

  function BlockLines(body: string): seq<string> {
    Split(Strip(body), "\n")
  }

  /** The atoms of one block, in the order of its lines. */
  function BlockAtoms(body: string): seq<AtomCoordinate> {
    CollectSome(MolproLine, BlockLines(body))
  }

  predicate IsProductive(body: string) {
    |BlockAtoms(body)| > 0
  }

  /** The atoms of the first block that yields any, or none. */
  function FirstProductive(bodies: seq<string>): seq<AtomCoordinate> {
    match FirstIndex(IsProductive, bodies, 0)
    case None => []
    case Some(i) => BlockAtoms(bodies[i])
  }

  /** What _extract_from_molpro_file returns. */
  function MolproAtoms(content: string): seq<AtomCoordinate> {
    FirstProductive(Bodies(content, 0))
  }

  // ---------------------------------------------------------------------------
  // Which block is used

  /** The result is empty exactly when no block yields an atom. */
  lemma FirstProductiveEmpty(bodies: seq<string>)
    ensures FirstProductive(bodies) == [] <==>
              forall i :: 0 <= i < |bodies| ==> !IsProductive(bodies[i])
  {
    FirstIndexSpec(IsProductive, bodies, 0);
  }

  /** The first block that yields atoms is the one used, however many blocks
      before it yield none and whatever the blocks after it hold. */
  lemma FirstProductiveIs(bodies: seq<string>, i: nat)
    requires i < |bodies| && IsProductive(bodies[i])
    requires forall j :: 0 <= j < i ==> !IsProductive(bodies[j])
    ensures FirstProductive(bodies) == BlockAtoms(bodies[i])
  {
    FirstIndexIs(IsProductive, bodies, 0, i);
  }

  lemma UnproductiveStep(bodies: seq<string>, b: nat)
    requires b < |bodies| && |BlockAtoms(bodies[b])| == 0
    requires forall j :: 0 <= j < b ==> !IsProductive(bodies[j])
    ensures forall j :: 0 <= j < b + 1 ==> !IsProductive(bodies[j])
  {
  }

  /** Every atom found has an alphabetic label and float coordinates. */
  lemma MolproAtomsWellFormed(content: string)
    ensures forall k :: 0 <= k < |MolproAtoms(content)| ==> WellFormed(MolproAtoms(content)[k])
  {
    var bodies := Bodies(content, 0);
    match FirstIndex(IsProductive, bodies, 0)
    case None =>
    case Some(i) =>
      CollectSomeAll(MolproLine, BlockLines(bodies[i]), WellFormed);
  }

  // ---------------------------------------------------------------------------
  // What the line filters change

  /** A stripped line that starts with anything but a letter is no atom. */
  lemma NonLetterStartIsNoAtom(l: string)
    requires l != [] && !IsSpace(l[0]) && !IsLetter(l[0])
    ensures ParseInputCoordinateLine(l) == None
  {
    WordsHead(l);
    WordsAreWords(l);
    StripNoSpace(Words(l)[0]);
  }

  /** A directive is a single word, too short for an atom line. */
  lemma DirectiveIsNoAtom(l: string)
    requires IsDirective(l)
    ensures ParseInputCoordinateLine(l) == None
  {
    if SpellsNoCase(l, "angstrom") {
      SpelledLetters(l, "angstrom");
    } else if SpellsNoCase(l, "bohr") {
      SpelledLetters(l, "bohr");
    } else if SpellsNoCase(l, "au") {
      SpelledLetters(l, "au");
    } else {
      SpelledLetters(l, "symmetry");
    }
    NumberTokenIsWord(l);
    WordsOfWord(l);
  }

  /** Of the line filters only the '=' test changes what a block yields:
      blank lines, comments and directives would fail to parse anyway. */
  lemma MolproLineCharacterised(line: string)
    ensures MolproLine(line) ==
            if '=' in Strip(line) then None else ParseInputCoordinateLine(Strip(line))
  {
    var l := Strip(line);
    StripEnds(line);
    if l == [] {
      WordsOfBlank(l);
    } else if IsCommentStart(l[0]) {
      NonLetterStartIsNoAtom(l);
    } else if IsDirective(l) {
      DirectiveIsNoAtom(l);
    }
  }

  // ---------------------------------------------------------------------------
  // Writing a block and reading it back

  predicate IsBodyChar(c: char) {
    c == '\n' || IsLineChar(c)
  }

  /** An atom's line is taken as that atom inside a block. */
  lemma AtomLineInBlock(a: AtomCoordinate)
    requires WellFormed(a)
    ensures MolproLine(InputLine(a, [])) == Some(a)
  {
    var line := InputLine(a, []);
    AtomLineParses(a);
    MolproLineCharacterised(line);
    AtomLineChars(a);
    LineEnds(a);
    StripUnpadded(line);
    assert '=' !in line by {
      forall k | 0 <= k < |line| ensures line[k] != '=' {
        assert IsLineChar(line[k]);
      }
    }
  }

  /** The body written for `atoms`: one atom line per line. */
  function BlockBody(atoms: seq<AtomCoordinate>): (r: string)
    ensures atoms == [] ==> r == ""
  {
    Join(AtomLines(atoms), "\n")
  }

  lemma BlockBodyChars(atoms: seq<AtomCoordinate>)
    requires forall t :: 0 <= t < |atoms| ==> WellFormed(atoms[t])
    ensures AllChars(IsBodyChar, BlockBody(atoms))
  {
    var lines := AtomLines(atoms);
    forall i | 0 <= i < |lines| ensures AllChars(IsBodyChar, lines[i]) {
      AtomLineChars(atoms[i]);
    }
    JoinAllChars(IsBodyChar, lines, "\n");
  }

  /** A non-empty block body has no whitespace at either end. */
  lemma BlockBodyUnpadded(atoms: seq<AtomCoordinate>)
    requires |atoms| > 0
    requires forall t :: 0 <= t < |atoms| ==> WellFormed(atoms[t])
    ensures Strip(BlockBody(atoms)) == BlockBody(atoms)
  {
    var lines := AtomLines(atoms);
    var body := BlockBody(atoms);
    var n := |atoms| - 1;
    var first, last := lines[0], lines[n];
    assert first == InputLine(atoms[0], []);
    assert last == InputLine(atoms[n], []);
    LineEnds(atoms[0]);
    LineEnds(atoms[n]);
    JoinFirst(lines, "\n");
    JoinLast(lines, "\n");
    assert body[0] == first[0];
    assert body[|body| - 1] == last[|last| - 1];
    StripUnpadded(body);
  }

  /** A block body made of one line per well-formed atom yields exactly
      those atoms. */
  lemma BlockRoundTrip(atoms: seq<AtomCoordinate>)
    requires forall t :: 0 <= t < |atoms| ==> WellFormed(atoms[t])
    ensures BlockAtoms(BlockBody(atoms)) == atoms
  {
    var lines := AtomLines(atoms);
    var body := BlockBody(atoms);
    if atoms == [] {
      assert Strip(body) == [];
      assert Split([], "\n") == [[]];
      assert MolproLine([]) == None;
    } else {
      BlockBodyUnpadded(atoms);
      AtomLinesNoNewline(atoms);
      SplitJoin(lines, '\n');
      forall t | 0 <= t < |lines| ensures MolproLine(lines[t]) == Some(atoms[t]) {
        AtomLineInBlock(atoms[t]);
      }
      CollectSomeTotal(MolproLine, lines, atoms);
    }
  }

  /** The file text "geometry={" body "}" followed by anything. */
  function GeometryFile(body: string, rest: string): string {
    Geometry + "={" + body + "}" + rest
  }

  /** A file that opens with a geometry block has that block's body first. */
  lemma FirstBlockBody(body: string, rest: string)
    requires forall k :: 0 <= k < |body| ==> body[k] != '}'
    ensures var s := GeometryFile(body, rest);
            |Bodies(s, 0)| > 0 && Bodies(s, 0)[0] == body
  {
    var s := GeometryFile(body, rest);
    var close := 10 + |body|;
    assert MatchesNoCase(s, Geometry, 0) by {
      forall k | 0 <= k < |Geometry| ensures LowerChar(s[k]) == Geometry[k] {
        assert s[k] == Geometry[k];
      }
    }
    assert s[8] == '=' && s[9] == '{' && s[close] == '}';
    assert SpaceRun(s, 8) == 0 && SpaceRun(s, 9) == 0;
    forall j | 10 <= j < close ensures !IsCloseBrace(s[j]) {
      assert s[j] == body[j - 10];
    }
    FirstIndexIs(IsCloseBrace, s, 10, close);
    assert BlockAt(s, 0) == Some((10, close));
    assert BlockStarts(s)(0);
    assert s[10..close] == body;
  }

  /** A file that opens with a geometry block of well-formed atoms yields
      those atoms, whatever follows the block. */
  lemma MolproFileRoundTrip(atoms: seq<AtomCoordinate>, rest: string)
    requires |atoms| > 0
    requires forall t :: 0 <= t < |atoms| ==> WellFormed(atoms[t])
    ensures MolproAtoms(GeometryFile(BlockBody(atoms), rest)) == atoms
  {
    var body := BlockBody(atoms);
    BlockBodyChars(atoms);
    forall k | 0 <= k < |body| ensures body[k] != '}' {
      assert IsBodyChar(body[k]);
    }
    FirstBlockBody(body, rest);
    BlockRoundTrip(atoms);
    FirstProductiveIs(Bodies(GeometryFile(body, rest), 0), 0);
  }

  // ---------------------------------------------------------------------------
  // The extraction loops

  /** The loop over one block's lines. */
  method ScanBlock(body: string) returns (coords: seq<AtomCoordinate>)
    ensures coords == BlockAtoms(body)
  {
    var lines := Split(Strip(body), "\n");
    coords := CollectLoop(MolproLine, lines);
  }

  /** _extract_from_molpro_file: scan the blocks in order and stop at the
      first one that yields atoms. */
  method ExtractFromMolproFile(content: string) returns (atoms: seq<AtomCoordinate>)
    ensures atoms == MolproAtoms(content)
  {
    var bodies := Bodies(content, 0);
    var b := 0;
    while b < |bodies|
      invariant 0 <= b <= |bodies|
      invariant forall j :: 0 <= j < b ==> !IsProductive(bodies[j])
    {
      var coords := ScanBlock(bodies[b]);
      if |coords| > 0 {
        FirstProductiveIs(bodies, b);
        return coords;
      }
      UnproductiveStep(bodies, b);
      b := b + 1;
    }
    FirstProductiveEmpty(bodies);
    return [];
  }
}
