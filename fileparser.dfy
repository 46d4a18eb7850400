/**
 * MolecularFileParser.extract_coordinates: choose the strategy from the
 * file name's extension (and, for a Gaussian log, from whether the run
 * terminated normally) and return what that strategy extracts.
 */
module FileParser {
  import opened Strings
  import opened LineParsers
  import GaussianInput
  import Punch
  import StandardOrientation
  import Molpro

  datatype FileType = InputFile | LogFile | MolproFile | Unsupported

  // ---------------------------------------------------------------------------
  // File type detection

  /** Path.suffix of a file name: the text from its last '.', provided that
      dot is neither the name's first character nor its last. */
  function Suffix(name: string): (r: string)
    ensures r == [] || (|r| >= 2 && |r| < |name| && r == name[|name| - |r|..])
    ensures r == [] || (r[0] == '.' && forall j :: 1 <= j < |r| ==> r[j] != '.')
  {
    var k := AfterLast(name, '.');
    if 2 <= k < |name| then name[k - 1..] else ""
  }

  /** _detect_file_type: the lower-cased suffix decides. */
  function DetectFileType(name: string): FileType {
    TypeOfSuffix(Lower(Suffix(name)))
  }

  /** The strategy a lower-case suffix selects. */
  function TypeOfSuffix(x: string): FileType {
    if x == ".com" then InputFile
    else if x == ".log" then LogFile
    else if x == ".in" || x == ".out" then MolproFile
    else Unsupported
  }

  /** A stem followed by a dot and an extension without dots has that
      extension as its suffix. */
  lemma SuffixOf(stem: string, ext: string)
    requires |stem| > 0 && |ext| > 0 && '.' !in ext
    ensures Suffix(stem + "." + ext) == "." + ext
  {
    var name := stem + "." + ext;
    forall j | |stem| + 1 <= j < |name| ensures name[j] != '.' {
      assert name[j] == ext[j - |stem| - 1];
    }
    AfterLastIs(name, '.', |stem| + 1);
    assert name[|stem|..] == "." + ext;
  }

  /** A dot that starts the name, or ends it, makes no suffix. */
  lemma NoSuffix(ext: string, stem: string)
    requires '.' !in ext
    ensures Suffix("." + ext) == ""
    ensures Suffix(stem + ".") == ""
  {
    var hidden := "." + ext;
    forall j | 1 <= j < |hidden| ensures hidden[j] != '.' {
      assert hidden[j] == ext[j - 1];
    }
    AfterLastIs(hidden, '.', 1);
    AfterLastIs(stem + ".", '.', |stem| + 1);
  }

  /** The type of a name with an extension is that of the extension,
      lower-cased and with its dot. */
  lemma NameType(stem: string, ext: string)
    requires |stem| > 0 && |ext| > 0 && '.' !in ext
    ensures DetectFileType(stem + "." + ext) == TypeOfSuffix("." + Lower(ext))
  {
    SuffixOf(stem, ext);
    assert Lower("." + ext) == "." + Lower(ext);
  }

  /** The extension is read without regard to case. */
  lemma DetectIgnoresCase(stem: string, ext: string)
    requires |stem| > 0 && |ext| > 0 && '.' !in ext
    ensures '.' !in Lower(ext)
    ensures DetectFileType(stem + "." + ext) == DetectFileType(stem + "." + Lower(ext))
  {
    var low := Lower(ext);
    forall j | 0 <= j < |low| ensures low[j] != '.' {
      assert ext[j] != '.';
    }
    NameType(stem, ext);
    NameType(stem, low);
    LowerTwice(ext);
  }

  /** Each recognised extension, in lower case, selects its strategy. */
  lemma SuffixTypes()
    ensures TypeOfSuffix(".com") == InputFile && TypeOfSuffix(".log") == LogFile
    ensures TypeOfSuffix(".in") == MolproFile && TypeOfSuffix(".out") == MolproFile
    ensures TypeOfSuffix(".xyz") == Unsupported
  {
  }

  /** A hidden file named ".log" has no suffix, so it is not read as a log. */
  lemma HiddenLogUnsupported()
    ensures DetectFileType(".log") == Unsupported
  {
    NoSuffix("log", "");
  }

  // ---------------------------------------------------------------------------
  // Normal termination of a Gaussian run

  /** The last line of the stripped text. */
  function LastLine(text: string): (r: string)
    ensures '\n' !in r
  {
    var s := Strip(text);
    SplitLast(s, '\n');
    var lines := Split(s, "\n");
    lines[|lines| - 1]
  }

  /** _check_normal_termination on the tail of the file as read (None when
      reading failed): "Normal termination" in its last line. */
  predicate IsNormalTermination(tail: Option<string>) {
    tail.Some? && Contains(LastLine(tail.value), "Normal termination")
  }

  /** The last line is the text after the last line break of the stripped
      tail: an earlier "Normal termination" line does not count. */
  lemma LastLineIsAfterLastBreak(text: string)
    ensures LastLine(text) == Strip(text)[AfterLast(Strip(text), '\n')..]
  {
    SplitLast(Strip(text), '\n');
  }

  /** A tail that ends with a given line (and optional trailing
      whitespace) is judged by that line alone. */
  lemma TerminationByLastLine(earlier: string, last: string)
    requires '\n' !in last && |last| > 0 && !IsSpace(last[0]) && !IsSpace(last[|last| - 1])
    requires |earlier| > 0 && !IsSpace(earlier[0])
    ensures IsNormalTermination(Some(earlier + "\n" + last)) <==> Contains(last, "Normal termination")
  {
    var t := earlier + "\n" + last;
    StripUnpadded(t);
    forall j | |earlier| + 1 <= j < |t| ensures t[j] != '\n' {
      assert t[j] == last[j - |earlier| - 1];
    }
    AfterLastIs(t, '\n', |earlier| + 1);
    LastLineIsAfterLastBreak(t);
    assert t[|earlier| + 1..] == last;
  }

  // ---------------------------------------------------------------------------
  // Dispatch

  /** The Gaussian log strategy: the punch string after a normal
      termination when it yields atoms, the last orientation table
      otherwise. */
  function LogAtoms(content: string, normal: bool): seq<AtomCoordinate> {
    var punch := Punch.PunchAtoms(content);
    if normal && |punch| > 0 then punch else StandardOrientation.OrientationAtoms(content)
  }

  /** What extract_coordinates returns, given the file's content (None when
      it could not be read), its name and the tail the termination check
      reads. */
  function Coordinates(content: Option<string>, name: string, tail: Option<string>): seq<AtomCoordinate> {
    match content
    case None => []
    case Some(c) =>
      match DetectFileType(name)
      case InputFile => GaussianInput.InputAtoms(c)
      case LogFile => LogAtoms(c, IsNormalTermination(tail))
      case MolproFile => Molpro.MolproAtoms(c)
      case Unsupported => []
  }

  /** extract_coordinates. */
  method ExtractCoordinates(content: Option<string>, name: string, tail: Option<string>)
    returns (atoms: seq<AtomCoordinate>)
    ensures atoms == Coordinates(content, name, tail)
  {
    if content.None? {
      return [];
    }
    var c := content.value;
    var fileType := DetectFileType(name);
    if fileType == InputFile {
      atoms := GaussianInput.ExtractFromInputFile(c);
    } else if fileType == LogFile {
      if IsNormalTermination(tail) {
        atoms := Punch.ExtractFromPunch(c);
        if |atoms| == 0 {
          atoms := StandardOrientation.ExtractFromStandardOrientation(c);
        }
      } else {
        atoms := StandardOrientation.ExtractFromStandardOrientation(c);
      }
    } else if fileType == MolproFile {
      atoms := Molpro.ExtractFromMolproFile(c);
    } else {
      atoms := [];
    }
  }

  /** Whatever the strategy, every atom returned has float coordinates. */
  lemma CoordinatesHaveFloats(content: Option<string>, name: string, tail: Option<string>)
    ensures forall k :: 0 <= k < |Coordinates(content, name, tail)| ==>
              HasFloatCoordinates(Coordinates(content, name, tail)[k])
  {
    if content.Some? {
      var c := content.value;
      var t := DetectFileType(name);
      if t == InputFile {
        InputDispatch(c, name, tail);
        GaussianInput.InputAtomsWellFormed(Split(c, "\n"));
      } else if t == MolproFile {
        MolproDispatch(c, name, tail);
        Molpro.MolproAtomsWellFormed(c);
      } else if t == LogFile {
        LogDispatch(c, name, tail);
        LogAtomsHaveFloats(c, IsNormalTermination(tail));
      }
    }
  }

  lemma LogAtomsHaveFloats(c: string, normal: bool)
    ensures forall k :: 0 <= k < |LogAtoms(c, normal)| ==> HasFloatCoordinates(LogAtoms(c, normal)[k])
  {
  }

  /** A log whose run did not end normally is read from its last
      orientation table, whatever punch string it holds. */
  lemma AbnormalLogUsesOrientation(c: string, name: string, tail: Option<string>)
    requires DetectFileType(name) == LogFile && !IsNormalTermination(tail)
    ensures Coordinates(Some(c), name, tail) == StandardOrientation.OrientationAtoms(c)
  {
  }

  /** A name the dispatch reads as a Gaussian input is read with the
      input-file strategy. */
  lemma InputDispatch(c: string, name: string, tail: Option<string>)
    requires DetectFileType(name) == InputFile
    ensures Coordinates(Some(c), name, tail) == GaussianInput.InputAtoms(c)
  {
  }

  /** A name the dispatch reads as a Gaussian log is read with the log
      strategy. */
  lemma LogDispatch(c: string, name: string, tail: Option<string>)
    requires DetectFileType(name) == LogFile
    ensures Coordinates(Some(c), name, tail) == LogAtoms(c, IsNormalTermination(tail))
  {
  }

  /** A name the dispatch reads as MOLPRO is read with the MOLPRO strategy. */
  lemma MolproDispatch(c: string, name: string, tail: Option<string>)
    requires DetectFileType(name) == MolproFile
    ensures Coordinates(Some(c), name, tail) == Molpro.MolproAtoms(c)
  {
  }

  /** A MOLPRO input that opens with a geometry block of well-formed atoms
      is read back as those atoms. */
  lemma MolproInputEndToEnd(name: string, atoms: seq<AtomCoordinate>, rest: string, tail: Option<string>)
    requires DetectFileType(name) == MolproFile && |atoms| > 0
    requires forall t :: 0 <= t < |atoms| ==> WellFormed(atoms[t])
    ensures Coordinates(Some(Molpro.GeometryFile(Molpro.BlockBody(atoms), rest)), name, tail) == atoms
  {
    MolproDispatch(Molpro.GeometryFile(Molpro.BlockBody(atoms), rest), name, tail);
    Molpro.MolproFileRoundTrip(atoms, rest);
  }

  /** A Gaussian input file written as header lines, the charge/multiplicity
      line, one line per atom and further lines is read back as those atoms. */
  lemma GaussianInputEndToEnd(name: string, header: seq<string>, chargeLine: string,
                              atoms: seq<AtomCoordinate>, rest: seq<string>, tail: Option<string>)
    requires DetectFileType(name) == InputFile
    requires forall j :: 0 <= j < |header| ==> !GaussianInput.IsChargeLine(header[j]) && '\n' !in header[j]
    requires GaussianInput.IsChargeLine(chargeLine) && '\n' !in chargeLine
    requires forall t :: 0 <= t < |atoms| ==> WellFormed(atoms[t])
    requires forall j :: 0 <= j < |rest| ==> '\n' !in rest[j]
    requires rest != [] ==> GaussianInput.AtomOfLine(rest[0]) == None
    ensures var lines := header + [chargeLine] + AtomLines(atoms) + rest;
            Coordinates(Some(Join(lines, "\n")), name, tail) == atoms
  {
    var lines := header + [chargeLine] + AtomLines(atoms) + rest;
    AtomLinesNoNewline(atoms);
    NoNewlineParts(header, chargeLine, AtomLines(atoms), rest);
    SplitJoin(lines, '\n');
    InputDispatch(Join(lines, "\n"), name, tail);
    GaussianInput.InputFileRoundTrip(header, chargeLine, atoms, rest);
  }

  lemma NoNewlineParts(h: seq<string>, c: string, a: seq<string>, r: seq<string>)
    requires forall j :: 0 <= j < |h| ==> '\n' !in h[j]
    requires '\n' !in c
    requires forall j :: 0 <= j < |a| ==> '\n' !in a[j]
    requires forall j :: 0 <= j < |r| ==> '\n' !in r[j]
    ensures forall j :: 0 <= j < |h + [c] + a + r| ==> '\n' !in (h + [c] + a + r)[j]
  {
  }

  /** A normally terminated Gaussian log whose stripped lines before the
      first archive marker end in a block of backslash lines forming an
      archive entry is read back as the atoms of that entry, or, when the
      entry lists none, from the last orientation table. */
  lemma LogArchiveEndToEnd(name: string, content: string, tail: Option<string>, k: nat,
                           before: seq<string>, run: seq<string>, after: seq<string>,
                           head: seq<string>, pre: seq<string>, atoms: seq<AtomCoordinate>, rest: string)
    requires DetectFileType(name) == LogFile && IsNormalTermination(tail)
    requires Punch.ArchivedLog(content, k, before, run, after, head, pre, atoms, rest)
    ensures Coordinates(Some(content), name, tail)
            == if |atoms| > 0 then atoms else StandardOrientation.OrientationAtoms(content)
  {
    Punch.PunchAtomsOfLog(content, k, before, run, after, head, pre, atoms, rest);
    LogDispatch(content, name, tail);
  }
}
