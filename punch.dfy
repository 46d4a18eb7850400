/**
 * The Gaussian archive entry ("punch string"): locating it before the
 * archive marker of a log file, and reading the atoms of its fourth
 * section, "El,X,Y,Z" entries separated by single backslashes.
 */
module Punch {
  import opened Strings
  import opened LineParsers

  const Marker: string := "The archive entry for this job was punched."

  /** The separator between the major sections of an archive entry. */
  const SectionSep: string := "\\\\"

  // ---------------------------------------------------------------------------
  // Locating the archive entry

  /** A stripped line that belongs to the archive entry: it holds a
      backslash (and is therefore not blank). */
  predicate IsPunchLine(line: string) {
    HasChar(line, '\\')
  }

  /** The index of the last archive line among lines[..n]. */
  function LastPunchLine(lines: seq<string>, n: nat): (r: Option<nat>)
    requires n <= |lines|
    ensures r.Some? ==> r.value < n && IsPunchLine(lines[r.value])
    ensures r.Some? ==> forall j :: r.value < j < n ==> !IsPunchLine(lines[j])
    ensures r.None? ==> forall j :: 0 <= j < n ==> !IsPunchLine(lines[j])
  {
    if n == 0 then None
    else if IsPunchLine(lines[n - 1]) then Some(n - 1)
    else LastPunchLine(lines, n - 1)
  }

  /** The first line of the unbroken run of archive lines that ends at `last`. */
  function RunStart(lines: seq<string>, last: nat): (start: nat)
    requires last < |lines| && IsPunchLine(lines[last])
    ensures start <= last
    ensures forall j :: start <= j <= last ==> IsPunchLine(lines[j])
    ensures start == 0 || !IsPunchLine(lines[start - 1])
  {
    if last > 0 && IsPunchLine(lines[last - 1]) then RunStart(lines, last - 1) else last
  }

  lemma RunStartIs(lines: seq<string>, last: nat, start: nat)
    requires start <= last < |lines|
    requires forall j :: start <= j <= last ==> IsPunchLine(lines[j])
    requires start == 0 || !IsPunchLine(lines[start - 1])
    ensures RunStart(lines, last) == start
  {
  }

  /** The archive entry among the stripped lines before the marker: the last
      run of consecutive lines holding a backslash, concatenated. */
  function PunchBlock(lines: seq<string>): Option<string> {
    match LastPunchLine(lines, |lines|)
    case None => None
    case Some(last) => Some(Concat(lines[RunStart(lines, last)..last + 1]))
  }

  function StripAll(lines: seq<string>): (r: seq<string>)
    ensures |r| == |lines|
  {
    if lines == [] then [] else StripAll(lines[..|lines| - 1]) + [Strip(lines[|lines| - 1])]
  }

  lemma {:induction false} StripAllAt(lines: seq<string>, i: nat)
    requires i < |lines|
    ensures StripAll(lines)[i] == Strip(lines[i])
    decreases |lines|
  {
    if i < |lines| - 1 {
      StripAllAt(lines[..|lines| - 1], i);
    }
  }

  /** The text before the first marker, stripped, cut into lines. */
  function LinesBeforeMarker(content: string, k: nat): seq<string>
    requires k <= |content|
  {
    Split(Strip(content[..k]), "\n")
  }

  /** What _find_punch_string returns for a log file's content. */
  function PunchString(content: string): Option<string> {
    match Find(content, Marker)
    case None => None
    case Some(k) => PunchBlock(StripAll(LinesBeforeMarker(content, k)))
  }

  lemma ConcatHolds(parts: seq<string>, c: char)
    requires |parts| > 0 && c in parts[0]
    ensures c in Concat(parts)
  {
  }

  /** A found archive entry is never empty: it holds a backslash, and it
      exists only when the marker does. */
  lemma PunchBlockShape(lines: seq<string>)
    ensures PunchBlock(lines).Some? ==> '\\' in PunchBlock(lines).value
  {
    match LastPunchLine(lines, |lines|)
    case None =>
    case Some(last) =>
      var start := RunStart(lines, last);
      HasCharIn(lines[start], '\\');
      ConcatHolds(lines[start..last + 1], '\\');
  }

  lemma PunchStringShape(content: string)
    ensures PunchString(content).Some? ==> Contains(content, Marker)
    ensures PunchString(content).Some? ==> '\\' in PunchString(content).value
  {
    match Find(content, Marker)
    case None =>
    case Some(k) =>
      PunchBlockShape(StripAll(LinesBeforeMarker(content, k)));
  }

  /** The archive entry is the last block of backslash lines: whatever comes
      after it that holds no backslash, and whatever comes before the line
      that breaks the block, does not matter. */
  lemma {:induction false} PunchBlockOf(pre: seq<string>, run: seq<string>, post: seq<string>)
    requires |run| > 0
    requires forall j :: 0 <= j < |run| ==> IsPunchLine(run[j])
    requires pre == [] || !IsPunchLine(pre[|pre| - 1])
    requires forall j :: 0 <= j < |post| ==> !IsPunchLine(post[j])
    ensures PunchBlock(pre + run + post) == Some(Concat(run))
  {
    var lines := pre + run + post;
    var last := |pre| + |run| - 1;
    assert IsPunchLine(lines[last]);
    match LastPunchLine(lines, |lines|)
    case None =>
      assert false;
    case Some(k) =>
      forall j | |pre| <= j <= last ensures IsPunchLine(lines[j]) {
        assert lines[j] == run[j - |pre|];
      }
      if |pre| > 0 {
        assert lines[|pre| - 1] == pre[|pre| - 1];
      }
      RunStartIs(lines, last, |pre|);
      assert lines[|pre|..last + 1] == run;
  }

  /** In a log whose stripped lines before the first marker end in a block
      of backslash lines, that block, concatenated, is the archive entry. */
  lemma PunchStringOf(content: string, k: nat, pre: seq<string>, run: seq<string>, post: seq<string>)
    requires Find(content, Marker) == Some(k)
    requires StripAll(LinesBeforeMarker(content, k)) == pre + run + post
    requires |run| > 0 && forall j :: 0 <= j < |run| ==> IsPunchLine(run[j])
    requires pre == [] || !IsPunchLine(pre[|pre| - 1])
    requires forall j :: 0 <= j < |post| ==> !IsPunchLine(post[j])
    ensures PunchString(content) == Some(Concat(run))
  {
    PunchBlockOf(pre, run, post);
  }

  /** Only the first marker counts, and nothing after it is looked at. */
  lemma PunchIgnoresLaterText(content: string, more: string)
    requires Contains(content, Marker)
    ensures PunchString(content + more) == PunchString(content)
  {
    var k := Find(content, Marker).value;
    FindExtend(content, more, Marker);
    assert (content + more)[..k] == content[..k];
  }

  lemma ReversedRun<T>(punchLines: seq<T>, lines: seq<T>, i: nat, last: nat)
    requires i <= last < |lines| && |punchLines| == last + 1 - i
    requires forall t :: 0 <= t < |punchLines| ==> punchLines[t] == lines[last - t]
    ensures Reverse(punchLines) == lines[i..last + 1]
  {
    var r := Reverse(punchLines);
    var run := lines[i..last + 1];
    assert |r| == |run|;
    forall t | 0 <= t < |r| ensures r[t] == run[t] {
      var u := |punchLines| - 1 - t;
      assert r[t] == punchLines[u] == lines[last - u];
      assert run[t] == lines[i + t];
    }
    assert r == run;
  }

  /** _find_punch_string: cut the text before the first marker into lines
      and scan them for the archive entry. */
  method FindPunchString(content: string) returns (r: Option<string>)
    ensures r == PunchString(content)
  {
    if !Contains(content, Marker) {
      return None;
    }
    var punchEnd := Find(content, Marker).value;
    var lines := LinesBeforeMarker(content, punchEnd);
    r := ScanPunchLines(lines);
  }

  /** The loop of _find_punch_string: walk the lines from the bottom up, skip
      everything until the first line holding a backslash, collect lines
      while they hold one, and stop at the first that does not. */
  method ScanPunchLines(lines: seq<string>) returns (r: Option<string>)
    ensures r == PunchBlock(StripAll(lines))
  {
    ghost var stripped := StripAll(lines);
    var punchLines: seq<string> := [];
    var started := false;
    ghost var last: nat := 0;
    var i := |lines|;
    while i > 0
      invariant 0 <= i <= |lines| == |stripped|
      invariant !started ==> punchLines == [] && Unseen(stripped, i)
      invariant started ==> Collecting(stripped, i, last, punchLines)
    {
      var line := Strip(lines[i - 1]);
      StripAllAt(lines, i - 1);
      HasCharIn(line, '\\');
      if |line| == 0 {
        if started {
          break;
        }
        UnseenStep(stripped, i);
      } else if '\\' in line {
        if started {
          CollectingStep(stripped, i, last, punchLines);
        } else {
          CollectingStart(stripped, i);
          last := i - 1;
        }
        punchLines := punchLines + [line];
        started := true;
      } else if started {
        break;
      } else {
        UnseenStep(stripped, i);
      }
      i := i - 1;
    }
    if !started {
      UnseenAll(stripped);
      return None;
    }
    CollectedRun(stripped, i, last, punchLines);
    punchLines := Reverse(punchLines);
    return Some(Concat(punchLines));
  }

  /** Scan state before the first archive line: the last archive line of the
      whole text, if any, lies among lines[..i]. */
  ghost predicate Unseen(lines: seq<string>, i: nat)
    requires i <= |lines|
  {
    LastPunchLine(lines, |lines|) == LastPunchLine(lines, i)
  }

  /** Scan state inside the run: the last archive line is `last`, lines[i..last]
      all hold a backslash, and `collected` holds them from the bottom up. */
  ghost predicate Collecting(lines: seq<string>, i: nat, last: nat, collected: seq<string>) {
    && i <= last < |lines|
    && LastPunchLine(lines, |lines|) == Some(last)
    && (forall j :: i <= j <= last ==> IsPunchLine(lines[j]))
    && |collected| == last + 1 - i
    && (forall t :: 0 <= t < |collected| ==> collected[t] == lines[last - t])
  }

  lemma UnseenStep(lines: seq<string>, i: nat)
    requires 0 < i <= |lines| && Unseen(lines, i) && !IsPunchLine(lines[i - 1])
    ensures Unseen(lines, i - 1)
  {
  }

  lemma UnseenAll(lines: seq<string>)
    requires Unseen(lines, 0)
    ensures PunchBlock(lines) == None
  {
  }

  lemma CollectingStart(lines: seq<string>, i: nat)
    requires 0 < i <= |lines| && Unseen(lines, i) && IsPunchLine(lines[i - 1])
    ensures Collecting(lines, i - 1, i - 1, [lines[i - 1]])
  {
  }

  lemma CollectingStep(lines: seq<string>, i: nat, last: nat, collected: seq<string>)
    requires 0 < i && Collecting(lines, i, last, collected) && IsPunchLine(lines[i - 1])
    ensures Collecting(lines, i - 1, last, collected + [lines[i - 1]])
  {
  }

  /** Once the run is broken (or the text exhausted), the collected lines,
      put back in order, are the archive entry. */
  lemma CollectedRun(lines: seq<string>, i: nat, last: nat, collected: seq<string>)
    requires Collecting(lines, i, last, collected)
    requires i == 0 || !IsPunchLine(lines[i - 1])
    ensures PunchBlock(lines) == Some(Concat(Reverse(collected)))
  {
    RunStartIs(lines, last, i);
    ReversedRun(collected, lines, i, last);
  }

  // ---------------------------------------------------------------------------
  // Reading the coordinate section

  predicate IsAlnum(c: char) {
    IsLetter(c) || IsDigit(c)
  }

  /** re.match(r'^[A-Za-z]+(?:-[A-Za-z0-9]+)?$', label): letters, optionally
      followed by a dash and a letter-or-digit tag ("C", "C-VTZP"). */
  predicate IsPunchLabel(s: string) {
    match Find(s, "-")
    case None => IsAlphaLabel(s)
    case Some(k) =>
      IsAlphaLabel(s[..k]) && |s| > k + 1 && forall i :: k + 1 <= i < |s| ==> IsAlnum(s[i])
  }

  /** One "El,X,Y,Z" entry of the coordinate section. The entry is skipped
      when empty, when it has other than four comma-separated fields, when
      its label passes neither label test, or when a coordinate is not a
      float. */
  function ParsePunchEntry(entry: string): (r: Option<AtomCoordinate>)
    ensures r.Some? ==> IsPunchLabel(r.value.element) && HasFloatCoordinates(r.value)
  {
    if entry == [] then None
    else
      var parts := Split(entry, ",");
      if |parts| != 4 then None
      else
        var element := Strip(parts[0]);
        if !IsPunchLabel(element) && !IsAlphaLabel(element) then None
        else if IsFloat(parts[1]) && IsFloat(parts[2]) && IsFloat(parts[3]) then
          (AlphaLabelIsPunchLabel(element);
           Some(AtomCoordinate(element, parts[1], parts[2], parts[3])))
        else None
  }

  /** The atoms of an archive entry: whitespace removed, the fourth section
      between double backslashes, its entries between single backslashes. */
  function PunchCoordinates(punch: string): (r: seq<AtomCoordinate>)
    ensures forall i :: 0 <= i < |r| ==> IsPunchLabel(r[i].element) && HasFloatCoordinates(r[i])
  {
    var sections := Split(RemoveSpaces(punch), SectionSep);
    if |sections| < 4 || sections[3] == [] then []
    else
      var entries := Split(sections[3], "\\");
      CollectSomeAll(ParsePunchEntry, entries,
                     (a: AtomCoordinate) => IsPunchLabel(a.element) && HasFloatCoordinates(a));
      CollectSome(ParsePunchEntry, entries)
  }

  /** What _extract_from_punch returns for a log file's content. */
  function PunchAtoms(content: string): seq<AtomCoordinate> {
    match PunchString(content)
    case None => []
    case Some(p) => PunchCoordinates(p)
  }

  /** _extract_from_punch. */
  method ExtractFromPunch(content: string) returns (atoms: seq<AtomCoordinate>)
    ensures atoms == PunchAtoms(content)
  {
    var punch := FindPunchString(content);
    if punch.None? || punch.value == [] {
      PunchStringShape(content);
      return [];
    }
    var sections := Split(RemoveSpaces(punch.value), SectionSep);
    if |sections| < 4 {
      return [];
    }
    var data := sections[3];
    if data == [] {
      return [];
    }
    var entries := Split(data, "\\");
    atoms := ParsePunchEntries(entries);
  }

  /** The loop of _extract_from_punch over the entries of the coordinate
      section: every entry that reads as an atom is kept, in order. */
  method ParsePunchEntries(entries: seq<string>) returns (atoms: seq<AtomCoordinate>)
    ensures atoms == CollectSome(ParsePunchEntry, entries)
  {
    atoms := [];
    var i := 0;
    while i < |entries|
      invariant 0 <= i <= |entries|
      invariant atoms == CollectSome(ParsePunchEntry, entries[..i])
    {
      var entry := entries[i];
      assert entries[..i + 1] == entries[..i] + [entry];
      CollectSomeAppend(ParsePunchEntry, entries[..i], [entry]);
      if entry != [] {
        var parts := Split(entry, ",");
        if |parts| == 4 {
          var element := Strip(parts[0]);
          if !IsPunchLabel(element) && !IsAlphaLabel(element) {
            // invalid label: the entry is skipped
          } else if IsFloat(parts[1]) && IsFloat(parts[2]) && IsFloat(parts[3]) {
            atoms := atoms + [AtomCoordinate(element, parts[1], parts[2], parts[3])];
          }
        }
      }
      i := i + 1;
    }
    assert entries[..|entries|] == entries;
  }

  // ---------------------------------------------------------------------------
  // Properties of the label test and round trips

  /** The second, stricter label test is never decisive: every purely
      alphabetic label already passes the first. */
  lemma AlphaLabelIsPunchLabel(s: string)
    ensures IsAlphaLabel(s) ==> IsPunchLabel(s)
  {
    if IsAlphaLabel(s) {
      forall j | 0 <= j <= |s| ensures !StartsAt(s, "-", j) {
        if j < |s| { assert s[j..j + 1] == [s[j]]; }
      }
    }
  }

  /** A label followed by a dash and a letter-or-digit tag passes the first
      test, though not the second. */
  lemma TaggedLabel(sym: string, tag: string)
    requires IsAlphaLabel(sym) && |tag| > 0 && forall i :: 0 <= i < |tag| ==> IsAlnum(tag[i])
    ensures IsPunchLabel(sym + "-" + tag) && !IsAlphaLabel(sym + "-" + tag)
  {
    var s := sym + "-" + tag;
    assert '-' !in sym;
    FindCharAfterPrefix(sym, '-', tag);
    assert s[..|sym|] == sym;
    assert s[|sym|] == '-';
  }

  /** A dash must be followed by a tag. */
  lemma DanglingDash(sym: string)
    requires IsAlphaLabel(sym)
    ensures !IsPunchLabel(sym + "-")
  {
    assert '-' !in sym;
    FindCharAfterPrefix(sym, '-', []);
    assert sym + "-" + [] == sym + "-";
  }

  /** A dash must follow a label. */
  lemma LeadingDash(tag: string)
    ensures !IsPunchLabel("-" + tag)
  {
    FindCharAfterPrefix([], '-', tag);
    assert [] + "-" + tag == "-" + tag;
  }

  /** The first test accepts tagged labels the second would refuse. */
  lemma TaggedLabelAccepted()
    ensures IsPunchLabel("C-VTZP") && !IsAlphaLabel("C-VTZP")
    ensures !IsPunchLabel("C-") && !IsPunchLabel("-C")
  {
    TaggedLabel("C", "VTZP");
    assert "C" + "-" + "VTZP" == "C-VTZP";
    DanglingDash("C");
    assert "C" + "-" == "C-";
    LeadingDash("C");
    assert "-" + "C" == "-C";
  }

  /** The archive text of one atom. */
  function PunchEntry(a: AtomCoordinate): string {
    Join([a.element, a.x, a.y, a.z], ",")
  }

  predicate LabelChar(c: char) {
    IsAlnum(c) || c == '-'
  }

  lemma PunchLabelChars(s: string)
    requires IsPunchLabel(s)
    ensures |s| > 0 && forall i :: 0 <= i < |s| ==> LabelChar(s[i])
  {
    match Find(s, "-")
    case None =>
    case Some(k) =>
      assert s[k..k + 1] == "-";
      forall i | 0 <= i < |s| ensures LabelChar(s[i]) {
        if i < k { assert s[i] == s[..k][i]; }
      }
  }

  /** A field that can stand in an archive entry: a whitespace-free token
      holding neither of the entry's separators. */
  predicate EntryField(s: string) {
    ',' !in s && '\\' !in s && IsWord(s)
  }

  lemma PunchEntryFields(a: AtomCoordinate)
    requires IsPunchLabel(a.element) && HasFloatCoordinates(a)
    ensures forall i :: 0 <= i < 4 ==> EntryField([a.element, a.x, a.y, a.z][i])
  {
    PunchLabelChars(a.element);
    LabelFree(a.element);
    NumberFree(a.x);
    NumberFree(a.y);
    NumberFree(a.z);
  }

  lemma LabelFree(s: string)
    requires |s| > 0 && forall i :: 0 <= i < |s| ==> LabelChar(s[i])
    ensures EntryField(s)
  {
  }

  lemma NumberFree(s: string)
    requires IsFloat(s)
    ensures EntryField(s)
  {
    FloatChars(s);
  }

  /** Every atom with a valid label and float coordinates, written as an
      archive entry, reads back as itself. */
  lemma PunchEntryRoundTrip(a: AtomCoordinate)
    requires IsPunchLabel(a.element) && HasFloatCoordinates(a)
    ensures ParsePunchEntry(PunchEntry(a)) == Some(a)
  {
    var fields := [a.element, a.x, a.y, a.z];
    PunchEntryFields(a);
    SplitJoin(fields, ',');
    StripNoSpace(a.element);
    assert PunchEntry(a) != [] by {
      assert |PunchEntry(a)| >= |a.element|;
    }
  }

  /** A character that may stand anywhere in a whitespace-free archive
      section: neither whitespace nor a backslash. */
  predicate SectionChar(c: char) {
    !IsSpace(c) && c != '\\'
  }

  lemma EntryFieldChars(s: string)
    requires EntryField(s)
    ensures AllChars(SectionChar, s)
  {
  }

  /** An atom's entry is a non-empty run of section characters. */
  lemma PunchEntryChars(a: AtomCoordinate)
    requires IsPunchLabel(a.element) && HasFloatCoordinates(a)
    ensures |PunchEntry(a)| > 0 && AllChars(SectionChar, PunchEntry(a))
  {
    var fields := [a.element, a.x, a.y, a.z];
    PunchEntryFields(a);
    forall i | 0 <= i < |fields| ensures AllChars(SectionChar, fields[i]) {
      EntryFieldChars(fields[i]);
    }
    JoinAllChars(SectionChar, fields, ",");
    JoinFirst(fields, ",");
  }

  /** The archive entries of `atoms`, one per atom. */
  function PunchEntries(atoms: seq<AtomCoordinate>): (r: seq<string>)
    ensures |r| == |atoms|
    ensures forall t :: 0 <= t < |atoms| ==> r[t] == PunchEntry(atoms[t])
  {
    seq(|atoms|, t requires 0 <= t < |atoms| => PunchEntry(atoms[t]))
  }

  /** A section that the section separator cannot start in: no two
      backslashes in a row, and no backslash at its end. */
  predicate SectionBody(s: string) {
    (forall k :: 0 <= k < |s| - 1 ==> s[k] != '\\' || s[k + 1] != '\\')
    && (|s| > 0 ==> s[|s| - 1] != '\\')
  }

  /** After a section body, the first separator is the one that follows it. */
  lemma SectionBodyEnds(p: string)
    requires SectionBody(p)
    ensures forall k :: 0 <= k < |p| ==> !StartsAt(p + SectionSep, SectionSep, k)
  {
    forall k | 0 <= k < |p| ensures !StartsAt(p + SectionSep, SectionSep, k) {
      var s := p + SectionSep;
      if k < |p| - 1 {
        assert s[k] == p[k] && s[k + 1] == p[k + 1];
      } else {
        assert s[k] == p[|p| - 1];
      }
    }
  }

  /** Non-empty pieces without backslashes, joined by single backslashes,
      form a non-empty section body. */
  lemma {:induction false} SingleSeparators(pieces: seq<string>)
    requires |pieces| >= 1
    requires forall i :: 0 <= i < |pieces| ==> |pieces[i]| > 0 && '\\' !in pieces[i]
    ensures var j := Join(pieces, "\\");
            |j| > 0 && SectionBody(j)
    decreases |pieces|
  {
    if |pieces| > 1 {
      var e, tl := pieces[0], pieces[1..];
      assert pieces == [e] + tl;
      JoinCons(e, tl, "\\");
      SingleSeparators(tl);
      JoinFirst(tl, "\\");
      var t := Join(tl, "\\");
      var j := Join(pieces, "\\");
      assert j == e + "\\" + t;
      forall k | 0 <= k < |j| - 1 ensures j[k] != '\\' || j[k + 1] != '\\' {
        if k < |e| {
          assert j[k] == e[k];
        } else if k == |e| {
          assert j[k + 1] == t[0] == tl[0][0];
        } else {
          assert j[k] == t[k - |e| - 1] && j[k + 1] == t[k - |e|];
        }
      }
      assert j[|j| - 1] == t[|t| - 1];
    }
  }

  /** The entries of an archive's fourth section: entries that are not
      atoms (such as the charge and multiplicity), then one per atom. */
  function ArchiveEntries(pre: seq<string>, atoms: seq<AtomCoordinate>): seq<string> {
    pre + PunchEntries(atoms)
  }

  /** The first three sections of an archive entry, its fourth section
      holding `pre` and the entries of `atoms`, and any further text. */
  function ArchiveText(head: seq<string>, pre: seq<string>, atoms: seq<AtomCoordinate>, rest: string): string
    requires |head| == 3
  {
    head[0] + SectionSep + (head[1] + SectionSep + (head[2] + SectionSep
    + (Join(ArchiveEntries(pre, atoms), "\\") + SectionSep + rest)))
  }

  /** A piece in front that holds no separator shifts every part of a
      split by one. */
  lemma SplitShift(p: string, sep: string, t: string, i: nat)
    requires |sep| > 0
    requires forall k :: 0 <= k < |p| ==> !StartsAt(p + sep, sep, k)
    requires i < |Split(t, sep)|
    ensures i + 1 < |Split(p + sep + t, sep)| && Split(p + sep + t, sep)[i + 1] == Split(t, sep)[i]
  {
    SplitPrefix(p, sep, t);
  }

  /** Three pieces holding no separator in front of `t` make the first
      part of its split the fourth. */
  lemma SplitFourth(p0: string, p1: string, p2: string, t: string, sep: string)
    requires |sep| > 0
    requires forall k :: 0 <= k < |p0| ==> !StartsAt(p0 + sep, sep, k)
    requires forall k :: 0 <= k < |p1| ==> !StartsAt(p1 + sep, sep, k)
    requires forall k :: 0 <= k < |p2| ==> !StartsAt(p2 + sep, sep, k)
    ensures var parts := Split(p0 + sep + (p1 + sep + (p2 + sep + t)), sep);
            |parts| >= 4 && parts[3] == Split(t, sep)[0]
  {
    SplitShift(p2, sep, t, 0);
    SplitShift(p1, sep, p2 + sep + t, 1);
    SplitShift(p0, sep, p1 + sep + (p2 + sep + t), 2);
  }

  lemma NoBackslash(s: string)
    requires AllChars(SectionChar, s)
    ensures '\\' !in s
  {
  }

  /** An entry the extractor skips: non-empty, whitespace- and
      backslash-free, and not read as an atom. */
  predicate SkippedEntry(e: string) {
    |e| > 0 && AllChars(SectionChar, e) && ParsePunchEntry(e).None?
  }

  /** A charge and multiplicity entry has two comma fields, not four, so
      it is skipped. */
  lemma ChargeEntrySkipped(charge: string, mult: string)
    requires ',' !in charge && ',' !in mult
    ensures ParsePunchEntry(charge + "," + mult) == None
  {
    SplitJoin([charge, mult], ',');
    assert Join([charge, mult], ",") == charge + "," + mult;
  }

  /** The fourth section of an archive: whitespace-free, a section body,
      split by single backslashes into its entries, of which exactly the
      atoms are read back. */
  lemma EntriesSection(pre: seq<string>, atoms: seq<AtomCoordinate>)
    requires forall t :: 0 <= t < |pre| ==> SkippedEntry(pre[t])
    requires forall t :: 0 <= t < |atoms| ==> IsPunchLabel(atoms[t].element) && HasFloatCoordinates(atoms[t])
    ensures var data := Join(ArchiveEntries(pre, atoms), "\\");
            AllChars(IsNotSpace, data) && SectionBody(data)
    ensures var data := Join(ArchiveEntries(pre, atoms), "\\");
            |pre| + |atoms| > 0 ==> |data| > 0 && Split(data, "\\") == ArchiveEntries(pre, atoms)
    ensures CollectSome(ParsePunchEntry, ArchiveEntries(pre, atoms)) == atoms
  {
    var written := PunchEntries(atoms);
    var entries := ArchiveEntries(pre, atoms);
    forall t | 0 <= t < |written|
      ensures |written[t]| > 0 && AllChars(SectionChar, written[t])
      ensures ParsePunchEntry(written[t]) == Some(atoms[t])
    {
      PunchEntryChars(atoms[t]);
      PunchEntryRoundTrip(atoms[t]);
    }
    forall t | 0 <= t < |entries|
      ensures |entries[t]| > 0 && AllChars(SectionChar, entries[t])
    {
      if t >= |pre| {
        assert entries[t] == written[t - |pre|];
      }
    }
    forall t | 0 <= t < |entries| ensures AllChars(IsNotSpace, entries[t]) && '\\' !in entries[t] {
      NotSpaceOfSection(entries[t]);
      NoBackslash(entries[t]);
    }
    JoinAllChars(IsNotSpace, entries, "\\");
    if |entries| > 0 {
      SingleSeparators(entries);
      SplitJoin(entries, '\\');
    }
    CollectSomeAppend(ParsePunchEntry, pre, written);
    CollectSomeNone(ParsePunchEntry, pre);
    CollectSomeTotal(ParsePunchEntry, written, atoms);
  }

  /** Removing whitespace leaves the separators between sections alone. */
  lemma RemoveSpacesAroundSep(p: string, t: string)
    ensures RemoveSpaces(p + SectionSep + t) == RemoveSpaces(p) + SectionSep + RemoveSpaces(t)
  {
    RemoveSpacesAppend(p + SectionSep, t);
    RemoveSpacesAppend(p, SectionSep);
    RemoveSpacesNoSpace(SectionSep);
  }

  /** With whitespace removed, an archive keeps its shape: each section
      loses its own whitespace and the entries section is unchanged. */
  lemma ArchiveWithoutSpaces(head: seq<string>, data: string, rest: string)
    requires |head| == 3 && AllChars(IsNotSpace, data)
    ensures RemoveSpaces(head[0] + SectionSep + (head[1] + SectionSep + (head[2] + SectionSep
              + (data + SectionSep + rest))))
            == RemoveSpaces(head[0]) + SectionSep + (RemoveSpaces(head[1]) + SectionSep
              + (RemoveSpaces(head[2]) + SectionSep + (data + SectionSep + RemoveSpaces(rest))))
  {
    var tail3 := data + SectionSep + rest;
    var tail2 := head[2] + SectionSep + tail3;
    var tail1 := head[1] + SectionSep + tail2;
    RemoveSpacesAroundSep(data, rest);
    RemoveSpacesNoSpace(data);
    RemoveSpacesAroundSep(head[2], tail3);
    RemoveSpacesAroundSep(head[1], tail2);
    RemoveSpacesAroundSep(head[0], tail1);
  }

  /** An archive entry reads back as exactly the atoms listed in its fourth
      section. The first three sections may hold single backslashes and
      whitespace, the fourth may open with skipped entries such as the
      charge and multiplicity, and the text after it is arbitrary. */
  lemma PunchCoordinatesRoundTrip(head: seq<string>, pre: seq<string>, atoms: seq<AtomCoordinate>, rest: string)
    requires |head| == 3
    requires forall i :: 0 <= i < 3 ==> SectionBody(RemoveSpaces(head[i]))
    requires forall t :: 0 <= t < |pre| ==> SkippedEntry(pre[t])
    requires forall t :: 0 <= t < |atoms| ==> IsPunchLabel(atoms[t].element) && HasFloatCoordinates(atoms[t])
    ensures PunchCoordinates(ArchiveText(head, pre, atoms, rest)) == atoms
  {
    var data := Join(ArchiveEntries(pre, atoms), "\\");
    var r := RemoveSpaces(rest);
    EntriesSection(pre, atoms);
    ArchiveWithoutSpaces(head, data, rest);
    SectionBodyEnds(RemoveSpaces(head[0]));
    SectionBodyEnds(RemoveSpaces(head[1]));
    SectionBodyEnds(RemoveSpaces(head[2]));
    SplitFourth(RemoveSpaces(head[0]), RemoveSpaces(head[1]), RemoveSpaces(head[2]), data + SectionSep + r, SectionSep);
    SectionBodyEnds(data);
    SplitPrefix(data, SectionSep, r);
  }

  predicate IsNotSpace(c: char) {
    !IsSpace(c)
  }

  lemma NotSpaceOfSection(s: string)
    requires AllChars(SectionChar, s)
    ensures AllChars(IsNotSpace, s)
  {
  }

  /** A log whose stripped lines before the first marker (at `k`) end in a
      block of backslash lines, `run`, followed only by lines without one;
      the block, concatenated, is an archive entry with head sections
      `head`, skipped entries `pre`, the entries of `atoms` and further
      text `rest`. */
  predicate ArchivedLog(content: string, k: nat, before: seq<string>, run: seq<string>, after: seq<string>,
                        head: seq<string>, pre: seq<string>, atoms: seq<AtomCoordinate>, rest: string)
  {
    && Find(content, Marker) == Some(k)
    && StripAll(LinesBeforeMarker(content, k)) == before + run + after
    && |run| > 0 && (forall j :: 0 <= j < |run| ==> IsPunchLine(run[j]))
    && (before == [] || !IsPunchLine(before[|before| - 1]))
    && (forall j :: 0 <= j < |after| ==> !IsPunchLine(after[j]))
    && |head| == 3 && Concat(run) == ArchiveText(head, pre, atoms, rest)
    && (forall i :: 0 <= i < 3 ==> SectionBody(RemoveSpaces(head[i])))
    && (forall t :: 0 <= t < |pre| ==> SkippedEntry(pre[t]))
    && (forall t :: 0 <= t < |atoms| ==> IsPunchLabel(atoms[t].element) && HasFloatCoordinates(atoms[t]))
  }

  /** The archive entry of such a log reads back as exactly its atoms. */
  lemma PunchAtomsOfLog(content: string, k: nat, before: seq<string>, run: seq<string>, after: seq<string>,
                        head: seq<string>, pre: seq<string>, atoms: seq<AtomCoordinate>, rest: string)
    requires ArchivedLog(content, k, before, run, after, head, pre, atoms, rest)
    ensures PunchAtoms(content) == atoms
  {
    PunchStringOf(content, k, before, run, after);
    PunchCoordinatesRoundTrip(head, pre, atoms, rest);
  }
}
