# readgeom: molecular coordinate extraction, modelled in Dafny

`readgeom.py` reads quantum-chemistry files and returns the atoms they describe. Each atom is an element label and three Cartesian coordinates. `MolecularFileParser.extract_coordinates` picks a strategy from the file name's extension:

- **Gaussian input (`.com`).** Find the first charge/multiplicity line: two integers and nothing else. Then read the unbroken run of "Element X Y Z" lines after it.
- **Gaussian log (`.log`).**
  - If the last line of the file's tail reports "Normal termination", read the archive entry ("punch string"). This is the last run of backslash lines before the first "The archive entry for this job was punched." marker. The atoms are the `El,X,Y,Z` entries of its fourth `\\`-separated section.
  - If the run did not terminate normally, or the archive entry yields nothing, read the last "Standard orientation" table instead. Its rows sit between the table's second and third dashed rule. Each row gives an atomic number, which the element table turns into a symbol.
- **MOLPRO (`.in`, `.out`).** Scan the `geometry={...}` / `geom={...}` blocks in order. Use the atoms of the first block that yields any. Blank, comment and directive lines are skipped, as are lines holding `=`.
- **Any other extension.** No atoms.

`MolecularFormulaGenerator.generate_formula` turns a list of atoms into a compact formula:

1. Normalise the case of each symbol.
2. Count the atoms that carry each symbol.
3. Order the symbols C first, H second, then the rest by code point.
4. Write each symbol, followed by its count when the count exceeds one.

## How the model is organised

One module per concern. The models of the source's loops are methods, each proved equal to a specification function. The lemmas state what the source promises about those functions.

| file | module | content |
|---|---|---|
| `strings.dfy` | `Strings` | The Python string built-ins the code relies on, over ASCII: `strip`, `split`, `split()`, `find`, `in`, `lower`/`upper`, `int()`, `float()`, `str()`. Also generic "collect the successes" and "read the leading run" loops with their specifications. |
| `elements.dfy` | `Elements` | `ELEMENT_MAP` and `_get_element_symbol`. |
| `lineparsers.dfy` | `LineParsers` | `AtomCoordinate` and the two coordinate-line parsers. |
| `punch.dfy` | `Punch` | `_find_punch_string` and `_extract_from_punch`. |
| `orientation.dfy` | `StandardOrientation` | `_extract_from_standard_orientation`. |
| `gaussian_input.dfy` | `GaussianInput` | `_extract_from_input_file`. |
| `molpro.dfy` | `Molpro` | `_extract_from_molpro_file`. |
| `fileparser.dfy` | `FileParser` | `_detect_file_type`, the pure part of `_check_normal_termination`, and `extract_coordinates`. |
| `formula.dfy` | `Formula` | `generate_formula`. |

Coordinates stay the token text that `float()` accepted; the code never computes with them. `Strings.IsFloat` recognises exactly the literal syntax `float()` reads: an optional sign, then either a decimal mantissa with an optional exponent, or `inf`, `infinity` or `nan` in any case. Reading a file, and the tail the termination check seeks to, are inputs of the model: `content: Option<string>`, where `None` means the read failed, the file name, and `tail: Option<string>`.

Three behaviours of the code are worth stating outright:

- **MOLPRO blocks.** The comment at readgeom.py:465 and the loop at readgeom.py:466-495 take the first geometry block that yields at least one atom. A block that yields none does not end the search; the loop moves on to the next block. `Molpro.FirstProductiveIs` states this.
- **Punch labels.** The broad test at readgeom.py:374 accepts a letter label optionally followed by a dash and an alphanumeric tag. The strict letters-only test at readgeom.py:378 runs only for labels that already failed the broad test, and every label it accepts passes the broad test, so it never accepts anything. The broad test therefore decides, and tagged labels such as `C-VTZP` are accepted (`Punch.AlphaLabelIsPunchLabel`, `Punch.TaggedLabelAccepted`).
- **Special float values.** The coordinate fields go through `float()` (readgeom.py:213-215, 247-249, 382-384), which accepts `inf`, `infinity` and `nan` in any case as well as decimal literals, so such coordinates are passed through. `Strings.IsFloat` accepts them too.

## Model

| member | source | states |
|---|---|---|
| `Elements.TableWellFormed` | readgeom.py:53-72 | The table covers atomic numbers 1 to 118, and every entry is a chemical symbol: one capital, optionally followed by one lower-case letter. |
| `Elements.GetElementSymbolCases` | readgeom.py:186-195 | The lookup never fails. A number is in the table exactly when it lies in 1..118, and then it gets a chemical symbol. Any other number gets a decimal label that `int()` reads back as that number. |
| `Elements.FallbackLabelsDistinct` | readgeom.py:195 | A fallback label never looks like a chemical symbol, and two different numbers outside the table never share a label. |
| `Elements.ExampleSymbols` | readgeom.py:186-195 | Example lookups: 6 gives C, 1 gives H, 118 gives Og, 119 gives "119" and 0 gives "0". |
| `Strings.IntToStringRoundTrip` | readgeom.py:195 | `int(str(n)) == n` for every integer, negative ones included. |
| `Strings.FloatSyntaxAccepts` | readgeom.py:213-215 | Example literals: `float()` accepts signed decimals and decimals with a missing integer or fraction part, such as `-0.123`, `.5` and `5.`. |
| `Strings.FloatExponentAccepted` | readgeom.py:213-215 | Example literal: `float()` accepts exponent notation as Gaussian writes it, such as `1.5E-05`. |
| `Strings.FloatSyntaxRejects` | readgeom.py:213-215 | Example literals: `float()` rejects a lone point, an exponent without digits, a missing mantissa and a second point. |
| `Strings.FloatNamesAccepted` | readgeom.py:213-215 | Example literals: `float()` accepts `inf`, `infinity` and `nan` in any case and with a sign, and rejects near-misses. |
| `Strings.FloatIsWord` | readgeom.py:207-215 | A token `float()` accepts holds no whitespace, so whitespace splitting keeps it whole. |
| `Strings.SomePrefixSpec` | readgeom.py:424-440 | The run read from a start line: each line of the run parses to the atom collected for it, and the line after the run, if any, does not parse. |
| `Strings.SomePrefixIs` | readgeom.py:424-440 | The run is the only list with that property. |
| `Strings.ReadRun` | readgeom.py:424-440 | The append-and-break loop returns exactly that run. |
| `Strings.CollectSomeAll` | readgeom.py:366-390 | Every value an append-on-success loop collects is one that some element produced. |
| `Strings.CollectLoop` | readgeom.py:473-489 | The append-on-success loop keeps, in order, exactly the elements' successful results. |
| `Strings.FirstIndexSpec` | readgeom.py:466-495 | The first index found satisfies the test and nothing before it does; none is found exactly when no element satisfies it. |
| `LineParsers.ParseCoordinateLine` | readgeom.py:197-223 | A parsed table row has at least six fields, an integer second field and floats in the fourth to sixth. The element is the table symbol of that integer, and the coordinates are those three fields. |
| `LineParsers.CoordinateLineAccepted` | readgeom.py:207-223 | A table row is accepted exactly when those field conditions hold; any other line gives None. |
| `LineParsers.OrientationRowRoundTrip` | readgeom.py:197-223 | Every row written from a centre, an atomic number, a type and three floats parses back to the number's symbol (or its decimal text past the table) and those coordinates. |
| `LineParsers.OrientationRowWords` | readgeom.py:207-215 | The six whitespace-separated fields of a table row are the six values it was written from. |
| `LineParsers.ParseInputCoordinateLine` | readgeom.py:225-255 | A parsed input line has at least four fields, an alphabetic label and float coordinates taken from the second to fourth fields. |
| `LineParsers.InputLineAccepted` | readgeom.py:235-255 | An input line is accepted exactly when it has at least four fields, the first purely alphabetic and the next three floats. The element is the first field unchanged. |
| `LineParsers.InputLineRoundTrip` | readgeom.py:225-255 | Every atom with an alphabetic label and float coordinates, written as a line and followed by any further fields, parses back to itself. |
| `LineParsers.InputLineNeedsAlphaLabel` | readgeom.py:239-244 | A line whose first field is not purely alphabetic, such as `X1` or `C1`, is rejected whatever follows it. |
| `LineParsers.AtomLineParses` | readgeom.py:225-255 | An atom's line, once stripped, parses back to the atom. |
| `LineParsers.OrientationRowIsNotInputLine` | readgeom.py:225-255 | A table row is never taken for an input line, because its first field is a centre number. |
| `LineParsers.RowOfFields` | readgeom.py:207-223 | A line whose fields are e, x, y, z (z a float) and any extra fields is a table row exactly when x is an integer literal and the first two extra fields are floats. The row is then the element numbered x at (z, first extra, second extra). |
| `LineParsers.InputLineAsOrientationRow` | readgeom.py:197-223 | A well-formed atom's input line, with any extra fields, passes for a table row exactly when its x field is an integer literal and at least two float fields follow its coordinates. It then reads as the element numbered x at (z, first extra, second extra). |
| `LineParsers.InputLineIsNotOrientationRow` | readgeom.py:197-223 | An input line whose x field is not an integer literal, or which has fewer than two extra fields, is never taken for a table row. |
| `LineParsers.CarbonLineReadAsHydrogen` | readgeom.py:197-223 | The input line `C 1 0 0 0 0` (carbon at (1, 0, 0) plus two extra fields) is also a table row: hydrogen at the origin. |
| `Punch.LastPunchLine` | readgeom.py:163-178 | Finds the last line before the marker that holds a backslash. None exactly when no such line exists. |
| `Punch.RunStart` | readgeom.py:163-178 | The start of the unbroken run of backslash lines ending at a given line: every line of the run holds a backslash, and the line before it does not. |
| `Punch.PunchBlockShape` | readgeom.py:179-184 | A reconstructed archive entry is never empty: it holds a backslash. |
| `Punch.PunchStringShape` | readgeom.py:149-157 | An archive entry is found only when the marker occurs, and it holds a backslash. |
| `Punch.PunchBlockOf` | readgeom.py:163-184 | Before the marker, take a run of backslash lines, after a line without one (or the start of the text), followed only by lines without one. The entry is that run, concatenated in order. Nothing before the run matters, and the lines between the run and the marker are skipped. |
| `Punch.PunchIgnoresLaterText` | readgeom.py:154-157 | Only the first marker counts: text appended after it changes nothing. |
| `Punch.PunchStringOf` | readgeom.py:139-184 | When the stripped lines before the first marker end in a block of backslash lines followed only by lines without one, the archive entry is that block, concatenated. |
| `Punch.PunchAtomsOfLog` | readgeom.py:139-390 | The archive entry found in such a log reads back as exactly the atoms listed in it. |
| `Punch.FindPunchString` | readgeom.py:139-184 | The method returns exactly the archive entry the specification function describes. |
| `Punch.ScanPunchLines` | readgeom.py:163-184 | The bottom-up scan returns the last run of backslash lines, concatenated in order. It skips lines until the first backslash line, collects while lines hold one, and stops at the first that does not. |
| `Punch.CollectedRun` | readgeom.py:183-184 | Once the run is broken, the lines collected bottom-up, reversed and joined, are the archive entry. |
| `Punch.ParsePunchEntry` | readgeom.py:366-388 | An entry yields an atom only when its label passes the label test and its three coordinates are floats. |
| `Punch.PunchCoordinates` | readgeom.py:343-390 | Every atom read from an archive entry has a valid label and float coordinates. |
| `Punch.ExtractFromPunch` | readgeom.py:326-390 | The method returns exactly the atoms of the archive entry. There are none when no entry is found, when there are fewer than four sections, or when the fourth is empty. |
| `Punch.ParsePunchEntries` | readgeom.py:366-390 | The entry loop keeps, in order, exactly the entries that read as atoms, and skips each malformed one individually. |
| `Punch.AlphaLabelIsPunchLabel` | readgeom.py:374-380 | Every purely alphabetic label passes the broad label test, so the second, strict test never rejects anything. |
| `Punch.TaggedLabel` | readgeom.py:374 | Any alphabetic label followed by a dash and a non-empty alphanumeric tag passes the broad test, and is not alphabetic itself. |
| `Punch.DanglingDash` | readgeom.py:374 | An alphabetic label followed by a dash with no tag is refused. |
| `Punch.LeadingDash` | readgeom.py:374 | A label that starts with a dash is refused, whatever follows. |
| `Punch.TaggedLabelAccepted` | readgeom.py:374 | `C-VTZP` is accepted although it is not alphabetic; `C-` and `-C` are refused. |
| `Punch.PunchEntryRoundTrip` | readgeom.py:366-386 | Every atom with a valid label and float coordinates, written as `El,X,Y,Z`, reads back as itself. |
| `Punch.PunchCoordinatesRoundTrip` | readgeom.py:343-390 | An archive entry reads back as exactly the atoms listed in its fourth section. Each of the first three sections may hold whitespace and single backslashes; with whitespace removed it only has to contain no double backslash and not end in a backslash. The fourth section may open with entries that are skipped, such as the charge and multiplicity. The text after it may be anything. |
| `Punch.ChargeEntrySkipped` | readgeom.py:369-370 | A charge and multiplicity entry such as `0,1` has two comma fields, not four, so it yields no atom. |
| `StandardOrientation.MatchEnd` | readgeom.py:268-269 | A heading match is at least as long as "standard", one whitespace character and "orientation:" together, and ends within the text. |
| `StandardOrientation.NoOverlap` | readgeom.py:268-269 | No heading match starts strictly inside another. |
| `StandardOrientation.FindIter` | readgeom.py:269 | Every position the successive-match search reports is a match. |
| `StandardOrientation.FindIterLast` | readgeom.py:269-280 | The search reports nothing exactly when the text has no match. Otherwise the last match it reports is the match with the greatest start. |
| `StandardOrientation.OrientationUsesLastMatch` | readgeom.py:279-287 | With a heading, the result is the table read from the text after the end of the last match. Nothing before that matters. |
| `StandardOrientation.OrientationNeedsHeading` | readgeom.py:271-273 | No heading, no atoms. |
| `StandardOrientation.DashCountStep` | readgeom.py:290-320 | One line of the scan. A dashed rule (a stripped line holding five dashes and longer than 20 characters) adds one to the count. A line is a table row exactly when two rules precede it and it is neither blank nor a rule. |
| `StandardOrientation.DataLinesFrozen` | readgeom.py:317-319 | Once three rules have passed, nothing more is a table row, so the scan may stop. |
| `StandardOrientation.DataLinesShape` | readgeom.py:294-302 | Every table row is a non-blank stripped line that is not a rule. |
| `StandardOrientation.OrientationAtoms` | readgeom.py:257-324 | Every atom read from the table has float coordinates. |
| `StandardOrientation.ExtractFromStandardOrientation` | readgeom.py:257-324 | The method returns exactly the rows after the last heading that parse as table rows. |
| `StandardOrientation.ScanOrientationLines` | readgeom.py:290-320 | The counting loop returns, in order, the parses of the lines seen while exactly two rules have passed. Header lines, blank lines and unparseable rows are skipped, and the loop stops after the third rule. |
| `GaussianInput.ChargeLine` | readgeom.py:407-414 | The index found is a charge/multiplicity line: once stripped, two integer literals and nothing else. |
| `GaussianInput.NoChargeLineNoAtoms` | readgeom.py:419-421 | No charge/multiplicity line is found exactly when the file has none, and then the result is empty. |
| `GaussianInput.FirstChargeLineWins` | readgeom.py:410-413 | When two lines are charge/multiplicity lines, the one taken is at or before the earlier of them, and no line before it is one: only the first counts. |
| `GaussianInput.ChargeLineAfterHeader` | readgeom.py:407-414 | A charge/multiplicity line after a header without one is the line found. |
| `GaussianInput.ChargeMultiplicityLine` | readgeom.py:410 | A charge and a multiplicity written as integers separated by a space, such as `0 1` or `-1 2`, form a charge/multiplicity line. |
| `GaussianInput.FindChargeLine` | readgeom.py:407-421 | The search loop returns -1 exactly when there is no charge/multiplicity line, and otherwise the index just after the first one. |
| `GaussianInput.AtomRun` | readgeom.py:424-440 | The run of atoms read from a start line never extends past the end of the file. |
| `GaussianInput.ReadAtomRun` | readgeom.py:424-440 | The loop keeps the atom of each line and stops at the first blank or unparseable line. |
| `GaussianInput.AtomLinesRun` | readgeom.py:424-440 | One line per atom, followed by the end of the file or a line that is not a coordinate line, reads back as exactly those atoms. |
| `GaussianInput.InputAtomsOfLines` | readgeom.py:392-443 | The result never has more atoms than there are lines after the charge/multiplicity line. |
| `GaussianInput.InputAtomsWellFormed` | readgeom.py:424-440 | Every atom read has an alphabetic label and float coordinates. |
| `GaussianInput.InputFileRoundTrip` | readgeom.py:392-443 | A file with a header without a charge line, then a charge line, one line per atom, and a non-coordinate line or nothing, reads back as exactly those atoms. |
| `GaussianInput.ExtractFromInputFile` | readgeom.py:392-443 | The method returns exactly the atom run after the first charge/multiplicity line, or nothing when there is none. |
| `Molpro.BraceBody` | readgeom.py:459-462 | The body found after a keyword starts after it and runs to the first closing brace, which it does not contain. |
| `Molpro.BlockAt` | readgeom.py:459-462 | A block whose keyword starts at a position has a body after it that ends at the first closing brace and holds none. |
| `Molpro.MolproLine` | readgeom.py:473-489 | A block line contributes only a well-formed atom. |
| `Molpro.MolproLineCharacterised` | readgeom.py:473-489 | Of the line filters only the `=` test changes what a block yields. Blank lines, comments and unit or symmetry directives would fail to parse anyway. |
| `Molpro.NonLetterStartIsNoAtom` | readgeom.py:476-477 | A stripped line that starts with anything but a letter (a `#`, `!` or `*` comment among them) is no atom. |
| `Molpro.DirectiveIsNoAtom` | readgeom.py:479-481 | A unit or symmetry directive is no atom. |
| `Molpro.AtomLineInBlock` | readgeom.py:473-489 | An atom's line inside a block yields that atom. |
| `Molpro.BlockRoundTrip` | readgeom.py:470-489 | A block body made of one line per well-formed atom yields exactly those atoms, in order. |
| `Molpro.FirstProductiveEmpty` | readgeom.py:492-499 | The result is empty exactly when no block yields an atom. |
| `Molpro.FirstProductiveIs` | readgeom.py:466-495 | The atoms are those of the first block that yields any, however many blocks before it yield none and whatever later blocks hold. |
| `Molpro.MolproAtomsWellFormed` | readgeom.py:445-499 | Every atom found has an alphabetic label and float coordinates. |
| `Molpro.FirstBlockBody` | readgeom.py:459-467 | A file that opens with a geometry block has that block's body as its first body. |
| `Molpro.MolproFileRoundTrip` | readgeom.py:445-499 | A file that opens with a geometry block of well-formed atoms yields exactly those atoms, whatever follows the block. |
| `Molpro.ScanBlock` | readgeom.py:473-489 | The loop over one block's lines returns exactly the block's atoms. |
| `Molpro.ExtractFromMolproFile` | readgeom.py:445-499 | The method returns exactly the atoms of the first productive block. |
| `FileParser.Suffix` | readgeom.py:501-511 | The suffix is empty, or it is a tail of the name: at least two characters, shorter than the name, starting with its only dot. |
| `FileParser.SuffixOf` | readgeom.py:501-511 | A name made of a stem, a dot and a dot-free extension has that dot and extension as its suffix. |
| `FileParser.NoSuffix` | readgeom.py:501-511 | A dot that starts the name (a hidden file) or ends it makes no suffix. |
| `FileParser.NameType` | readgeom.py:513-526 | The type of such a name is the type of its lower-cased extension. |
| `FileParser.DetectIgnoresCase` | readgeom.py:501-526 | The extension is read without regard to case. |
| `FileParser.SuffixTypes` | readgeom.py:513-526 | Example names, one per row of the extension table: `.com` selects Gaussian input, `.log` a Gaussian log, `.in` and `.out` MOLPRO, and any other suffix nothing. |
| `FileParser.HiddenLogUnsupported` | readgeom.py:505-507 | Example name: a file named `.log` has no suffix and is not read as a log. |
| `FileParser.LastLine` | readgeom.py:129-130 | The last line of the stripped tail holds no line break. |
| `FileParser.LastLineIsAfterLastBreak` | readgeom.py:129-130 | The last line is the text after the last line break of the stripped tail. |
| `FileParser.TerminationByLastLine` | readgeom.py:129-133 | A tail made of earlier text, a line break and a final line is judged by that final line alone. An earlier "Normal termination" does not count. |
| `FileParser.ExtractCoordinates` | readgeom.py:528-586 | The method returns exactly what the dispatch function prescribes for the content, the name and the tail. |
| `FileParser.CoordinatesHaveFloats` | readgeom.py:528-586 | Whatever the strategy, every atom returned has float coordinates. |
| `FileParser.AbnormalLogUsesOrientation` | readgeom.py:552-565 | One step of the dispatch: a log whose run did not terminate normally is read from its last orientation table, whatever archive entry it holds. |
| `FileParser.InputDispatch` | readgeom.py:550-551 | One step of the dispatch: a name read as a Gaussian input is handled by the input-file strategy. |
| `FileParser.LogDispatch` | readgeom.py:552-565 | One step of the dispatch: a name read as a Gaussian log is handled by the log strategy. The archive entry is used when the run terminated normally and it yields atoms; otherwise the orientation table is used. |
| `FileParser.MolproDispatch` | readgeom.py:569-570 | One step of the dispatch: a name read as MOLPRO is handled by the MOLPRO strategy. |
| `FileParser.MolproInputEndToEnd` | readgeom.py:528-586 | A MOLPRO file that opens with a geometry block of well-formed atoms is read back as those atoms. |
| `FileParser.GaussianInputEndToEnd` | readgeom.py:528-586 | A `.com` file made of a header, a charge/multiplicity line, one line per atom and further lines is read back as those atoms. |
| `FileParser.LogArchiveEndToEnd` | readgeom.py:528-586 | A normally terminated `.log` file is read back as the atoms of its archive entry, when the stripped lines before the first marker end in a block of backslash lines forming that entry. When the entry lists no atoms, the last orientation table is used instead. |
| `Formula.Normalize` | readgeom.py:612-616 | The normalised symbol has the same length, a first character that is not lower-case, and no upper-case character after it. |
| `Formula.NormalizeOfLower` | readgeom.py:612-616 | The case a symbol was written in does not change its normal form (lower case). |
| `Formula.NormalizeOfUpper` | readgeom.py:612-616 | The case a symbol was written in does not change its normal form (upper case). |
| `Formula.NormalizeIdempotent` | readgeom.py:612-616 | Normalising twice is normalising once. |
| `Formula.Tally` | readgeom.py:609-617 | The count dictionary has a key exactly for each symbol present, and each count is the number of occurrences of that symbol. |
| `Formula.FirstOccurrences` | readgeom.py:609-617 | The dictionary's key order holds each symbol present exactly once, and nothing else. |
| `Formula.TallyStep` | readgeom.py:617 | Counting one more symbol adds one to its count, and appends it to the key order only when it is new. |
| `Formula.BeforeIsOrder` | readgeom.py:621-626 | The sort key (C, then H, then the rest, then code-point order) is a strict total order. |
| `Formula.StrLessTotal` | readgeom.py:625 | Python's string order compares any two different strings. |
| `Formula.HillSortSorted` | readgeom.py:623-626 | Sorting distinct symbols makes them strictly ascending in the sort key. |
| `Formula.HillSortPermutes` | readgeom.py:623-626 | Sorting is a permutation. |
| `Formula.SortedUnique` | readgeom.py:623-626 | Two strictly ascending sequences with the same members are equal, so the order the dictionary met the symbols in does not matter. |
| `Formula.TallyTotal` | readgeom.py:609-617 | The counts of the distinct symbols add up to the number of symbols counted. |
| `Formula.TotalHillSort` | readgeom.py:623-630 | Sorting the keys keeps the sum of their counts. |
| `Formula.CountSymbols` | readgeom.py:609-617 | The counting loop builds exactly the count dictionary and key order of the normalised symbols. |
| `Formula.WriteParts` | readgeom.py:628-632 | The loop writes, for each sorted symbol in order, the symbol followed by its count when that exceeds one. |
| `Formula.GenerateFormula` | readgeom.py:595-633 | The method returns exactly the formula the specification function describes. |
| `Formula.OrderIsHill` | readgeom.py:618-626 | Each normalised symbol occurs exactly once in the formula order, and nothing else does. The order is strictly ascending, C comes first when present, and H comes right after it (or first, without C). |
| `Formula.FormulaDependsOnSymbolCounts` | readgeom.py:608-633 | The formula depends only on how many atoms carry each normalised symbol: not on the atoms' order, their coordinates or the case their symbols were written in. |
| `Formula.FormulaCounts` | readgeom.py:608-633 | Each symbol's count is the number of atoms carrying it, and the counts in the formula add up to the number of atoms. |
| `Formula.PartShape` | readgeom.py:632 | A count of one is left out, and any larger count follows the symbol as decimal digits whose value is the count. |
| `Formula.FormulaEmpty` | readgeom.py:605-633 | With non-empty symbols, the formula is empty exactly when there are no atoms. |
| `Formula.FormulaOfTwoCounts` | readgeom.py:618-633 | Atoms with two symbols, `a` ordered before `b`, and counts `na` and `nb` give the parts of `a` and `b`, in that order. |
| `Formula.EthyleneFormula` | readgeom.py:595-633 | Two carbons and four hydrogens give `C2H4`. |
| `Formula.WaterFormula` | readgeom.py:595-633 | Water listed oxygen first gives `H2O`. |

## Left out

- Reading the file, its encoding and the seek to its last 1000 bytes are left out. The content and the tail are parameters, and `None` stands for a read that failed.
- Debug and warning output to stderr is left out; it never affects a result. This includes the warning for an unsupported file type.
- `CoordinateFormatter`, `create_argument_parser` and `main` are not part of this model: table and CSV printing, the command line, glob expansion and exit codes.
- Coordinates are kept as the text of their tokens, because the code never computes with them. The value `float()` gives a token, and the formatting of that value, are not modelled.
- `Strings.IsFloat` leaves out the underscores `float()` accepts between digits, and `Strings.IsIntLiteral` leaves out those `int()` accepts. Both leave out non-ASCII digits.
- Whitespace, letters, digits and case mapping are ASCII only. Python's Unicode whitespace, Unicode case mapping (`str.lower`, `str.upper`, and case-insensitive regex matching of characters such as the long s) and Unicode `\d` are not modelled.
- The file type is decided on the file name given as a string: its last path component, as `Path.suffix` sees it. Path parsing itself is left out.
- `Molpro.BlockAt`: the optional `angstrom`/`bohr`/`au` and `;` prefix of the block pattern is not modelled. It only moves where a match starts, never the body it captures or where the next search resumes.
- `StandardOrientation.ScanOrientationLines`: the header-keyword test after the first rule is evaluated but cannot change the result. Lines seen while one rule has passed are skipped whether or not they hold a header word, so the model does not distinguish them.
- `FileParser.LogArchiveEndToEnd` describes the log by its stripped lines before the first marker, not by raw text built from lines, a marker and a tail. Stripping the text before the marker and cutting it into lines is taken as given.
- There is no table-level round trip for the orientation table. `LineParsers.OrientationRowRoundTrip` states it for single rows, and `StandardOrientation.DashCountStep` states the scan's state changes.
