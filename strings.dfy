/**
 * The Python string built-ins the extractor relies on (str.strip, str.split,
 * str.find, `in`, str.lower/upper, int(), float(), str() of an int), over the
 * ASCII range. Whitespace is what Python's str.isspace() accepts below 0x80.
 */
module Strings {

  datatype Option<+T> = None | Some(value: T)

  /** The values of the `Some` results of `f` over `xs`, in order: a loop that
      appends every successful parse and skips the failures. */
  function CollectSome<T, U>(f: T -> Option<U>, xs: seq<T>): (r: seq<U>)
    ensures |r| <= |xs|
  {
    if xs == [] then []
    else
      var k := |xs| - 1;
      CollectSome(f, xs[..k]) + (if f(xs[k]).Some? then [f(xs[k]).value] else [])
  }

  lemma {:induction false} CollectSomeAppend<T, U>(f: T -> Option<U>, xs: seq<T>, ys: seq<T>)
    ensures CollectSome(f, xs + ys) == CollectSome(f, xs) + CollectSome(f, ys)
    decreases |ys|
  {
    if ys == [] {
      assert xs + ys == xs;
    } else {
      var k := |ys| - 1;
      assert (xs + ys)[..|xs + ys| - 1] == xs + ys[..k];
      CollectSomeAppend(f, xs, ys[..k]);
    }
  }

  /** Every collected value is one some element of `xs` produced. */
  lemma {:induction false} CollectSomeAll<T, U>(f: T -> Option<U>, xs: seq<T>, P: U -> bool)
    requires forall i :: 0 <= i < |xs| && f(xs[i]).Some? ==> P(f(xs[i]).value)
    ensures forall i :: 0 <= i < |CollectSome(f, xs)| ==> P(CollectSome(f, xs)[i])
    decreases |xs|
  {
    if xs != [] {
      CollectSomeAll(f, xs[..|xs| - 1], P);
    }
  }

  /** When every element fails, nothing is collected. */
  lemma {:induction false} CollectSomeNone<T, U>(f: T -> Option<U>, xs: seq<T>)
    requires forall i :: 0 <= i < |xs| ==> f(xs[i]).None?
    ensures CollectSome(f, xs) == []
    decreases |xs|
  {
    if xs != [] {
      CollectSomeNone(f, xs[..|xs| - 1]);
    }
  }

  /** When every element succeeds, nothing is skipped. */
  lemma {:induction false} CollectSomeTotal<T, U>(f: T -> Option<U>, xs: seq<T>, ys: seq<U>)
    requires |xs| == |ys|
    requires forall i :: 0 <= i < |xs| ==> f(xs[i]) == Some(ys[i])
    ensures CollectSome(f, xs) == ys
    decreases |xs|
  {
    if xs != [] {
      var k := |xs| - 1;
      CollectSomeTotal(f, xs[..k], ys[..k]);
      assert ys == ys[..k] + [ys[k]];
    }
  }

  /** One more element considered. */
  lemma CollectSomeStep<T, U>(f: T -> Option<U>, xs: seq<T>, i: nat)
    requires i < |xs|
    ensures CollectSome(f, xs[..i + 1]) ==
            CollectSome(f, xs[..i]) + (if f(xs[i]).Some? then [f(xs[i]).value] else [])
  {
    assert xs[..i + 1][..i] == xs[..i];
  }

  /** The loop that appends the value `f` gives each element of `xs` it
      accepts and skips the others. */
  method CollectLoop<T, U>(f: T -> Option<U>, xs: seq<T>) returns (ys: seq<U>)
    ensures ys == CollectSome(f, xs)
  {
    ys := [];
    for i := 0 to |xs|
      invariant ys == CollectSome(f, xs[..i])
    {
      CollectSomeStep(f, xs, i);
      var y := f(xs[i]);
      if y.Some? {
        ys := ys + [y.value];
      }
    }
    assert xs[..|xs|] == xs;
  }

  /** The values of the leading run of `Some` results of `f` over `xs`: a
      loop that appends each success and stops at the first failure. */
  function SomePrefix<T, U>(f: T -> Option<U>, xs: seq<T>): (r: seq<U>)
    ensures |r| <= |xs|
  {
    if xs == [] || f(xs[0]).None? then [] else [f(xs[0]).value] + SomePrefix(f, xs[1..])
  }

  /** Every element of the run succeeds with the value collected for it, and
      the element after the run, if any, fails. */
  lemma {:induction false} SomePrefixSpec<T, U>(f: T -> Option<U>, xs: seq<T>)
    ensures forall t :: 0 <= t < |SomePrefix(f, xs)| ==> f(xs[t]) == Some(SomePrefix(f, xs)[t])
    ensures |SomePrefix(f, xs)| < |xs| ==> f(xs[|SomePrefix(f, xs)|]).None?
    decreases |xs|
  {
    if xs != [] && f(xs[0]).Some? {
      SomePrefixSpec(f, xs[1..]);
      var r := SomePrefix(f, xs);
      var tl := SomePrefix(f, xs[1..]);
      assert r == [f(xs[0]).value] + tl;
      forall t | 0 < t < |r| ensures f(xs[t]) == Some(r[t]) {
        assert xs[t] == xs[1..][t - 1];
        assert r[t] == tl[t - 1];
      }
    }
  }

  /** The run is the only list with that property. */
  lemma SomePrefixIs<T, U>(f: T -> Option<U>, xs: seq<T>, ys: seq<U>)
    requires |ys| <= |xs|
    requires forall t :: 0 <= t < |ys| ==> f(xs[t]) == Some(ys[t])
    requires |ys| < |xs| ==> f(xs[|ys|]).None?
    ensures SomePrefix(f, xs) == ys
  {
    var r := SomePrefix(f, xs);
    SomePrefixSpec(f, xs);
    // A shorter or longer run would meet a failing element inside the other.
    assert |r| == |ys|;
    forall t | 0 <= t < |r| ensures r[t] == ys[t] {
      assert Some(r[t]) == Some(ys[t]);
    }
  }

  /** The index of the first element at or after `from` that satisfies `P`. */
  function FirstIndex<T>(P: T -> bool, xs: seq<T>, from: nat): (r: Option<nat>)
    requires from <= |xs|
    ensures r.Some? ==> from <= r.value < |xs| && P(xs[r.value])
    decreases |xs| - from
  {
    if from == |xs| then None
    else if P(xs[from]) then Some(from)
    else FirstIndex(P, xs, from + 1)
  }

  /** Nothing before the index found satisfies `P`, and none is found
      exactly when no element from `from` on does. */
  lemma {:induction false} FirstIndexSpec<T>(P: T -> bool, xs: seq<T>, from: nat)
    requires from <= |xs|
    ensures FirstIndex(P, xs, from).Some? ==>
              forall j :: from <= j < FirstIndex(P, xs, from).value ==> !P(xs[j])
    ensures FirstIndex(P, xs, from).None? <==> forall j :: from <= j < |xs| ==> !P(xs[j])
    decreases |xs| - from
  {
    if from < |xs| && !P(xs[from]) {
      FirstIndexSpec(P, xs, from + 1);
    }
  }

  lemma {:induction false} FirstIndexIs<T>(P: T -> bool, xs: seq<T>, from: nat, i: nat)
    requires from <= i < |xs| && P(xs[i])
    requires forall j :: from <= j < i ==> !P(xs[j])
    ensures FirstIndex(P, xs, from) == Some(i)
    decreases i - from
  {
    if from < i {
      FirstIndexIs(P, xs, from + 1, i);
    }
  }

  /** `f` maps the elements of `xs` one for one to the values `ys`. */
  predicate MapsTo<T, U(==)>(f: T -> Option<U>, xs: seq<T>, ys: seq<U>) {
    |xs| == |ys| && (xs == [] || (f(xs[0]) == Some(ys[0]) && MapsTo(f, xs[1..], ys[1..])))
  }

  lemma {:induction false} MapsToAppend<T, U>(f: T -> Option<U>, xs: seq<T>, ys: seq<U>, x: T, y: U)
    requires MapsTo(f, xs, ys) && f(x) == Some(y)
    ensures MapsTo(f, xs + [x], ys + [y])
    decreases |xs|
  {
    if xs == [] {
      assert MapsTo(f, [x][1..], [y][1..]);
    } else {
      MapsToAppend(f, xs[1..], ys[1..], x, y);
      assert (xs + [x])[1..] == xs[1..] + [x];
      assert (ys + [y])[1..] == ys[1..] + [y];
    }
  }

  /** One more element of a slice mapped. */
  lemma MapsToExtend<T, U>(f: T -> Option<U>, xs: seq<T>, from: nat, k: nat, ys: seq<U>, y: U)
    requires from <= k < |xs|
    requires MapsTo(f, xs[from..k], ys) && f(xs[k]) == Some(y)
    ensures MapsTo(f, xs[from..k + 1], ys + [y])
  {
    MapsToAppend(f, xs[from..k], ys, xs[k], y);
    assert xs[from..k + 1] == xs[from..k] + [xs[k]];
  }

  /** Elements that all succeed, followed by the end or by one that fails,
      make the run. */
  lemma {:induction false} SomePrefixOfMapsTo<T, U>(f: T -> Option<U>, xs: seq<T>, ys: seq<U>, rest: seq<T>)
    requires MapsTo(f, xs, ys)
    requires rest != [] ==> f(rest[0]).None?
    ensures SomePrefix(f, xs + rest) == ys
    decreases |xs|
  {
    if xs == [] {
      assert xs + rest == rest;
    } else {
      assert (xs + rest)[0] == xs[0];
      assert (xs + rest)[1..] == xs[1..] + rest;
      SomePrefixOfMapsTo(f, xs[1..], ys[1..], rest);
    }
  }

  /** The run of a slice that stops at `k`, at the end or at an element
      that fails. */
  lemma SomePrefixStopsAt<T, U>(f: T -> Option<U>, xs: seq<T>, from: nat, k: nat, ys: seq<U>)
    requires from <= k <= |xs|
    requires MapsTo(f, xs[from..k], ys)
    requires k < |xs| ==> f(xs[k]).None?
    ensures SomePrefix(f, xs[from..]) == ys
  {
    assert xs[from..] == xs[from..k] + xs[k..];
    SomePrefixOfMapsTo(f, xs[from..k], ys, xs[k..]);
  }

  /** The loop that keeps the values `f` gives successive elements of `xs`
      from `from` on, and stops at the first element `f` rejects. */
  method ReadRun<T, U>(f: T -> Option<U>, xs: seq<T>, from: nat) returns (ys: seq<U>)
    requires from <= |xs|
    ensures ys == SomePrefix(f, xs[from..])
  {
    ys := [];
    var k := from;
    while k < |xs|
      invariant from <= k <= |xs|
      invariant MapsTo(f, xs[from..k], ys)
    {
      var y := f(xs[k]);
      if y.None? {
        break;
      }
      MapsToExtend(f, xs, from, k, ys, y.value);
      ys := ys + [y.value];
      k := k + 1;
    }
    SomePrefixStopsAt(f, xs, from, k, ys);
  }

  /** What follows a marker element `c` placed after `h`. */
  lemma AfterMarker<T>(h: seq<T>, c: T, a: seq<T>, r: seq<T>)
    ensures h + [c] + a + r == h + [c] + (a + r)
    ensures (h + [c] + (a + r))[|h| + 1..] == a + r
  {
  }

  // ---------------------------------------------------------------------------
  // Characters

  predicate IsSpace(c: char) {
    c == ' ' || c == '\t' || c == '\n' || c == '\r' || c == '\U{000B}' || c == '\U{000C}'
    || ('\U{001C}' <= c <= '\U{001F}')
  }

  predicate IsDigit(c: char) { '0' <= c <= '9' }

  predicate IsLetter(c: char) { 'A' <= c <= 'Z' || 'a' <= c <= 'z' }

  function LowerChar(c: char): char {
    if 'A' <= c <= 'Z' then (c as int + 32) as char else c
  }

  function UpperChar(c: char): char {
    if 'a' <= c <= 'z' then (c as int - 32) as char else c
  }

  function Lower(s: string): (r: string)
    ensures |r| == |s|
    ensures forall i :: 0 <= i < |s| ==> r[i] == LowerChar(s[i])
  {
    if s == [] then [] else [LowerChar(s[0])] + Lower(s[1..])
  }

  function Upper(s: string): (r: string)
    ensures |r| == |s|
    ensures forall i :: 0 <= i < |s| ==> r[i] == UpperChar(s[i])
  {
    if s == [] then [] else [UpperChar(s[0])] + Upper(s[1..])
  }

  lemma UpperOfLowerChar(c: char)
    ensures UpperChar(LowerChar(c)) == UpperChar(c)
  {
  }

  /** Lower-casing twice is lower-casing once. */
  lemma LowerTwice(s: string)
    ensures Lower(Lower(s)) == Lower(s)
  {
  }

  lemma LowerOfUpper(s: string)
    ensures Lower(Upper(s)) == Lower(s)
  {
  }

  lemma UpperOfLower(s: string)
    ensures Upper(Lower(s)) == Upper(s)
  {
  }

  // ---------------------------------------------------------------------------
  // strip()

  function TrimLeft(s: string): (r: string)
    ensures |r| <= |s| && r == s[|s| - |r|..]
    ensures r == [] || !IsSpace(r[0])
    ensures forall i :: 0 <= i < |s| - |r| ==> IsSpace(s[i])
  {
    if |s| > 0 && IsSpace(s[0]) then TrimLeft(s[1..]) else s
  }

  /** The number of whitespace characters that start `s`. */
  function LeadingSpaces(s: string): (k: nat)
    ensures k <= |s|
  {
    if |s| > 0 && IsSpace(s[0]) then 1 + LeadingSpaces(s[1..]) else 0
  }

  /** The number of whitespace characters that end `s`. */
  function TrailingSpaces(s: string): (k: nat)
    ensures k <= |s|
  {
    if |s| > 0 && IsSpace(s[|s| - 1]) then 1 + TrailingSpaces(s[..|s| - 1]) else 0
  }

  /** str.strip(): the text without its leading and trailing whitespace. */
  function Strip(s: string): (r: string)
    ensures |r| <= |s|
  {
    var t := s[LeadingSpaces(s)..];
    t[..|t| - TrailingSpaces(t)]
  }

  lemma {:induction false} LeadingSpacesStop(s: string)
    ensures forall i :: 0 <= i < LeadingSpaces(s) ==> IsSpace(s[i])
    ensures LeadingSpaces(s) < |s| ==> !IsSpace(s[LeadingSpaces(s)])
    decreases |s|
  {
    if |s| > 0 && IsSpace(s[0]) {
      LeadingSpacesStop(s[1..]);
    }
  }

  lemma {:induction false} TrailingSpacesStop(s: string)
    ensures TrailingSpaces(s) < |s| ==> !IsSpace(s[|s| - TrailingSpaces(s) - 1])
    decreases |s|
  {
    if |s| > 0 && IsSpace(s[|s| - 1]) {
      TrailingSpacesStop(s[..|s| - 1]);
    }
  }

  /** What strip() leaves has no whitespace at either end. */
  lemma StripEnds(s: string)
    ensures Strip(s) != [] ==> !IsSpace(Strip(s)[0]) && !IsSpace(Strip(s)[|Strip(s)| - 1])
  {
    var t := s[LeadingSpaces(s)..];
    LeadingSpacesStop(s);
    TrailingSpacesStop(t);
  }

  /** A string with no whitespace at either end is its own strip. */
  lemma StripUnpadded(s: string)
    requires |s| > 0 && !IsSpace(s[0]) && !IsSpace(s[|s| - 1])
    ensures Strip(s) == s
  {
  }

  lemma StripNoSpace(s: string)
    requires forall i :: 0 <= i < |s| ==> !IsSpace(s[i])
    ensures Strip(s) == s
  {
  }

  // ---------------------------------------------------------------------------
  // Substring search: `pat in s`, s.find(pat)

  predicate StartsAt(s: string, pat: string, i: nat) {
    i + |pat| <= |s| && s[i..i + |pat|] == pat
  }

  /** The first position at or after `i` where `pat` occurs. */
  function FindFrom(s: string, pat: string, i: nat): (r: Option<nat>)
    requires i <= |s|
    ensures r.Some? ==> i <= r.value <= |s| && StartsAt(s, pat, r.value)
    ensures r.Some? ==> forall j :: i <= j < r.value ==> !StartsAt(s, pat, j)
    ensures r.None? ==> forall j :: i <= j <= |s| ==> !StartsAt(s, pat, j)
    decreases |s| - i
  {
    if StartsAt(s, pat, i) then Some(i)
    else if i == |s| then None
    else FindFrom(s, pat, i + 1)
  }

  /** s.find(pat), with None for -1. */
  function Find(s: string, pat: string): (r: Option<nat>)
    ensures r.Some? ==> r.value <= |s| && StartsAt(s, pat, r.value)
    ensures r.Some? ==> forall j :: 0 <= j < r.value ==> !StartsAt(s, pat, j)
    ensures r.None? ==> forall j :: 0 <= j <= |s| ==> !StartsAt(s, pat, j)
  {
    FindFrom(s, pat, 0)
  }

  /** The first occurrence of `pat` in `s` is still the first one once more
      text is appended. */
  lemma FindExtend(s: string, more: string, pat: string)
    requires Find(s, pat).Some?
    ensures Find(s + more, pat) == Find(s, pat)
  {
    var k := Find(s, pat).value;
    var t := s + more;
    assert t[k..k + |pat|] == s[k..k + |pat|];
    forall j | 0 <= j < k ensures !StartsAt(t, pat, j) {
      assert !StartsAt(s, pat, j);
      assert t[j..j + |pat|] == s[j..j + |pat|];
    }
    FindIs(t, pat, k);
  }

  lemma FindIs(s: string, pat: string, k: nat)
    requires StartsAt(s, pat, k)
    requires forall j :: 0 <= j < k ==> !StartsAt(s, pat, j)
    ensures Find(s, pat) == Some(k)
  {
  }

  /** `pat in s` */
  predicate Contains(s: string, pat: string) {
    Find(s, pat).Some?
  }

  lemma ContainsChar(s: string, c: char)
    ensures Contains(s, [c]) <==> c in s
  {
    if c in s {
      var i :| 0 <= i < |s| && s[i] == c;
      assert StartsAt(s, [c], i);
    }
    if Contains(s, [c]) {
      var k := Find(s, [c]).value;
      assert s[k..k + 1] == [c];
      assert s[k] == c;
    }
  }

  /** `c in s`, spelled out from the end so that it unfolds only on demand. */
  predicate HasChar(s: string, c: char) {
    |s| > 0 && (s[|s| - 1] == c || HasChar(s[..|s| - 1], c))
  }

  lemma {:induction false} HasCharIn(s: string, c: char)
    ensures HasChar(s, c) <==> c in s
  {
    if |s| > 0 {
      HasCharIn(s[..|s| - 1], c);
      assert s == s[..|s| - 1] + [s[|s| - 1]];
    }
  }

  // ---------------------------------------------------------------------------
  // s.split(sep) and sep.join(parts)

  /** s.split(sep) for a non-empty separator: the pieces between the
      occurrences found left to right, empty pieces included. */
  function Split(s: string, sep: string): (parts: seq<string>)
    requires |sep| > 0
    ensures |parts| >= 1
    decreases |s|
  {
    match Find(s, sep)
    case None => [s]
    case Some(k) => [s[..k]] + Split(s[k + |sep|..], sep)
  }

  function Join(parts: seq<string>, sep: string): string {
    if |parts| == 0 then ""
    else if |parts| == 1 then parts[0]
    else parts[0] + sep + Join(parts[1..], sep)
  }

  lemma JoinCons(w: string, tl: seq<string>, sep: string)
    requires |tl| >= 1
    ensures Join([w] + tl, sep) == w + sep + Join(tl, sep)
  {
    assert ([w] + tl)[1..] == tl;
  }
  /** Every character of a string satisfies `P`. */
  predicate AllChars(P: char -> bool, s: string) {
    forall k :: 0 <= k < |s| ==> P(s[k])
  }

  lemma AllCharsConcat(P: char -> bool, a: string, b: string)
    requires AllChars(P, a) && AllChars(P, b)
    ensures AllChars(P, a + b)
  {
    forall k | |a| <= k < |a + b| ensures P((a + b)[k]) {
      assert (a + b)[k] == b[k - |a|];
    }
  }

  /** Joining parts and separators whose characters satisfy `P` gives a
      string whose characters do. */
  lemma {:induction false} JoinAllChars(P: char -> bool, parts: seq<string>, sep: string)
    requires forall i :: 0 <= i < |parts| ==> AllChars(P, parts[i])
    requires AllChars(P, sep)
    ensures AllChars(P, Join(parts, sep))
    decreases |parts|
  {
    if |parts| > 1 {
      JoinAllChars(P, parts[1..], sep);
      AllCharsConcat(P, parts[0], sep);
      AllCharsConcat(P, parts[0] + sep, Join(parts[1..], sep));
    }
  }

  lemma JoinFirst(parts: seq<string>, sep: string)
    requires |parts| >= 1 && |parts[0]| > 0
    ensures |Join(parts, sep)| > 0 && Join(parts, sep)[0] == parts[0][0]
  {
  }

  lemma {:induction false} JoinLast(parts: seq<string>, sep: string)
    requires |parts| >= 1 && |parts[|parts| - 1]| > 0
    ensures var j, p := Join(parts, sep), parts[|parts| - 1];
            |j| > 0 && j[|j| - 1] == p[|p| - 1]
    decreases |parts|
  {
    if |parts| > 1 {
      JoinLast(parts[1..], sep);
    }
  }


  /** Splitting a string that starts with a piece followed by the separator,
      when the separator occurs nowhere earlier (not even straddling the
      piece's end), yields that piece first. */
  lemma SplitPrefix(p: string, sep: string, rest: string)
    requires |sep| > 0
    requires forall j :: 0 <= j < |p| ==> !StartsAt(p + sep, sep, j)
    ensures Split(p + sep + rest, sep) == [p] + Split(rest, sep)
  {
    var s := p + sep + rest;
    assert StartsAt(s, sep, |p|) by { assert s[|p|..|p| + |sep|] == sep; }
    forall j | 0 <= j < |p| ensures !StartsAt(s, sep, j) {
      assert !StartsAt(p + sep, sep, j);
      assert j + |sep| <= |p + sep|;
      assert s[j..j + |sep|] == (p + sep)[j..j + |sep|];
    }
    assert Find(s, sep) == Some(|p|);
    assert s[..|p|] == p;
    assert s[|p| + |sep|..] == rest;
  }

  /** A piece without any character of the separator cannot hold or begin
      an occurrence of it. */
  lemma SepFreePrefix(p: string, sep: string)
    requires |sep| > 0 && sep[0] !in p
    ensures forall j :: 0 <= j < |p| ==> !StartsAt(p + sep, sep, j)
  {
    forall j | 0 <= j < |p| ensures !StartsAt(p + sep, sep, j) {
      assert (p + sep)[j] == p[j];
    }
  }

  /** re.sub(r'\s+', '', s): every whitespace character removed. */
  function RemoveSpaces(s: string): (r: string)
    ensures |r| <= |s|
    ensures forall i :: 0 <= i < |r| ==> !IsSpace(r[i])
  {
    if s == [] then []
    else if IsSpace(s[0]) then RemoveSpaces(s[1..])
    else [s[0]] + RemoveSpaces(s[1..])
  }

  lemma {:induction false} RemoveSpacesNoSpace(s: string)
    requires forall i :: 0 <= i < |s| ==> !IsSpace(s[i])
    ensures RemoveSpaces(s) == s
  {
    if s != [] {
      RemoveSpacesNoSpace(s[1..]);
      assert s == [s[0]] + s[1..];
    }
  }

  /** Removing whitespace works piece by piece. */
  lemma {:induction false} RemoveSpacesAppend(a: string, b: string)
    ensures RemoveSpaces(a + b) == RemoveSpaces(a) + RemoveSpaces(b)
    decreases |a|
  {
    if a == [] {
      assert a + b == b;
    } else {
      assert (a + b)[0] == a[0] && (a + b)[1..] == a[1..] + b;
      RemoveSpacesAppend(a[1..], b);
    }
  }

  /** ''.join(parts) */
  function Concat(parts: seq<string>): string {
    if parts == [] then "" else parts[0] + Concat(parts[1..])
  }

  lemma FindCharAfterPrefix(p: string, c: char, rest: string)
    requires c !in p
    ensures Find(p + [c] + rest, [c]) == Some(|p|)
  {
    var s := p + [c] + rest;
    assert StartsAt(s, [c], |p|) by { assert s[|p|..|p| + 1] == [c]; }
    forall j | 0 <= j < |p| ensures !StartsAt(s, [c], j) {
      assert s[j..j + 1] == [p[j]];
    }
  }

  lemma FindCharAbsent(p: string, c: char)
    requires c !in p
    ensures Find(p, [c]) == None
  {
    forall j | 0 <= j < |p| ensures !StartsAt(p, [c], j) {
      assert p[j..j + 1] == [p[j]];
    }
  }

  /** Splitting on a one-character separator undoes joining with it. */
  lemma {:induction false} SplitJoin(parts: seq<string>, c: char)
    requires |parts| >= 1
    requires forall i :: 0 <= i < |parts| ==> c !in parts[i]
    ensures Split(Join(parts, [c]), [c]) == parts
    decreases |parts|
  {
    if |parts| == 1 {
      FindCharAbsent(parts[0], c);
    } else {
      var p, tl := parts[0], parts[1..];
      assert parts == [p] + tl;
      SplitJoin(tl, c);
      var rest := Join(tl, [c]);
      JoinCons(p, tl, [c]);
      FindCharAfterPrefix(p, c, rest);
      var s := p + [c] + rest;
      assert s[..|p|] == p;
      assert s[|p| + 1..] == rest;
    }
  }

  /** The position just after the last `c` in `s`, or 0 when there is none. */
  function AfterLast(s: string, c: char): (k: nat)
    ensures k <= |s|
    ensures k == 0 || s[k - 1] == c
    ensures forall j :: k <= j < |s| ==> s[j] != c
  {
    if s == [] then 0
    else if s[|s| - 1] == c then |s|
    else AfterLast(s[..|s| - 1], c)
  }

  lemma AfterLastIs(s: string, c: char, k: nat)
    requires k <= |s| && (k == 0 || s[k - 1] == c)
    requires forall j :: k <= j < |s| ==> s[j] != c
    ensures AfterLast(s, c) == k
  {
  }

  /** One step of s.split(c): no `c` at all, or the piece before the first. */
  lemma SplitStep(s: string, c: char) returns (k: int)
    ensures k >= -1
    ensures k == -1 ==> Split(s, [c]) == [s] && AfterLast(s, c) == 0
    ensures k >= 0 ==> k < |s| && s[k] == c
    ensures k >= 0 ==> Split(s, [c]) == [s[..k]] + Split(s[k + 1..], [c])
  {
    match Find(s, [c])
    case None =>
      NoSepAfterLast(s, c);
      k := -1;
    case Some(i) =>
      assert s[i..i + 1] == [c];
      k := i;
  }

  /** The last piece of s.split(c) is what follows the last `c`. */
  lemma {:induction false} SplitLast(s: string, c: char)
    ensures var parts := Split(s, [c]); parts[|parts| - 1] == s[AfterLast(s, c)..]
    decreases |s|
  {
    var k := SplitStep(s, c);
    if k >= 0 {
      var tail := s[k + 1..];
      SplitLast(tail, c);
      AfterLastShift(s, c, k);
      LastOfAppend([s[..k]], Split(tail, [c]));
    }
  }

  lemma LastOfAppend<T>(a: seq<T>, b: seq<T>)
    requires |b| > 0
    ensures (a + b)[|a + b| - 1] == b[|b| - 1]
  {
  }

  lemma NoSepAfterLast(s: string, c: char)
    requires Find(s, [c]).None?
    ensures AfterLast(s, c) == 0
  {
    var k := AfterLast(s, c);
    if k > 0 {
      assert s[k - 1..k] == [c];
      assert StartsAt(s, [c], k - 1);
    }
  }

  lemma AfterLastShift(s: string, c: char, k: nat)
    requires k < |s| && s[k] == c
    ensures AfterLast(s, c) == k + 1 + AfterLast(s[k + 1..], c)
    ensures s[k + 1..][AfterLast(s[k + 1..], c)..] == s[AfterLast(s, c)..]
  {
    var tail := s[k + 1..];
    var m := AfterLast(tail, c);
    forall j | k + 1 + m <= j < |s| ensures s[j] != c {
      assert s[j] == tail[j - k - 1];
    }
    if m > 0 {
      assert s[k + 1 + m - 1] == tail[m - 1];
    }
    AfterLastIs(s, c, k + 1 + m);
  }

  // ---------------------------------------------------------------------------
  // str.split() with no argument: the maximal runs of non-whitespace

  predicate IsWord(w: string) {
    |w| > 0 && forall i :: 0 <= i < |w| ==> !IsSpace(w[i])
  }

  /** The first whitespace position at or after `i`, or |s|. */
  function WordEnd(s: string, i: nat): (k: nat)
    requires i <= |s|
    ensures i <= k <= |s|
    ensures forall j :: i <= j < k ==> !IsSpace(s[j])
    ensures k == |s| || IsSpace(s[k])
    decreases |s| - i
  {
    if i == |s| || IsSpace(s[i]) then i else WordEnd(s, i + 1)
  }

  function Words(s: string): (ws: seq<string>)
    decreases |s|
  {
    var t := TrimLeft(s);
    if t == [] then []
    else
      var k := WordEnd(t, 0);
      [t[..k]] + Words(t[k..])
  }

  lemma WordsOfBlank(s: string)
    requires forall i :: 0 <= i < |s| ==> IsSpace(s[i])
    ensures Words(s) == []
  {
    assert |TrimLeft(s)| == 0;
  }

  lemma TrimLeftSpacePrefix(c: char, s: string)
    requires IsSpace(c)
    ensures TrimLeft([c] + s) == TrimLeft(s)
  {
    assert ([c] + s)[1..] == s;
  }

  lemma WordsOfSpaced(w: string, rest: string)
    requires IsWord(w)
    ensures Words(w + " " + rest) == [w] + Words(rest)
  {
    var s := w + " " + rest;
    assert TrimLeft(s) == s;
    assert WordEnd(s, 0) == |w| by {
      assert forall j :: 0 <= j < |w| ==> s[j] == w[j];
      assert s[|w|] == ' ';
      WordEndAt(s, 0, |w|);
    }
    assert s[..|w|] == w;
    assert s[|w|..] == [' '] + rest;
    TrimLeftSpacePrefix(' ', rest);
  }

  lemma {:induction false} WordEndAt(s: string, i: nat, k: nat)
    requires i <= k < |s|
    requires forall j :: i <= j < k ==> !IsSpace(s[j])
    requires IsSpace(s[k])
    ensures WordEnd(s, i) == k
    decreases k - i
  {
    if i < k { WordEndAt(s, i + 1, k); }
  }

  lemma WordsOfWord(w: string)
    requires IsWord(w)
    ensures Words(w) == [w]
  {
    assert TrimLeft(w) == w;
    assert WordEnd(w, 0) == |w|;
    assert w[..|w|] == w;
    assert w[|w|..] == [];
    WordsOfBlank([]);
  }

  /** Splitting at whitespace undoes joining words with single spaces. */
  lemma {:induction false} WordsOfUnwords(ws: seq<string>)
    requires |ws| >= 1
    requires forall i :: 0 <= i < |ws| ==> IsWord(ws[i])
    ensures Words(Join(ws, " ")) == ws
    decreases |ws|
  {
    if |ws| == 1 {
      WordsOfWord(ws[0]);
    } else {
      var w, tl := ws[0], ws[1..];
      assert ws == [w] + tl;
      WordsOfUnwords(tl);
      JoinCons(w, tl, " ");
      WordsOfSpaced(w, Join(tl, " "));
    }
  }

  /** The first word of a line that does not start with whitespace starts
      with the line's first character. */
  lemma WordsHead(s: string)
    requires |s| > 0 && !IsSpace(s[0])
    ensures |Words(s)| > 0 && Words(s)[0][0] == s[0]
  {
    assert TrimLeft(s) == s;
  }

  predicate AllWords(ws: seq<string>) {
    forall i :: 0 <= i < |ws| ==> IsWord(ws[i])
  }

  lemma AllWordsCons(w: string, ws: seq<string>)
    requires IsWord(w) && AllWords(ws)
    ensures AllWords([w] + ws)
  {
    forall i | 0 < i < |[w] + ws| ensures IsWord(([w] + ws)[i]) {
      assert ([w] + ws)[i] == ws[i - 1];
    }
  }

  /** Every field str.split() returns is a non-empty run of non-whitespace. */
  lemma {:induction false} WordsAreWords(s: string)
    ensures AllWords(Words(s))
    decreases |s|
  {
    var t := TrimLeft(s);
    if t != [] {
      var k := WordEnd(t, 0);
      var w := t[..k];
      assert IsWord(w) by {
        assert k > 0;
        forall j | 0 <= j < k ensures !IsSpace(w[j]) {
          assert w[j] == t[j];
        }
      }
      WordsAreWords(t[k..]);
      AllWordsCons(w, Words(t[k..]));
    }
  }

  /** A line with no whitespace at all is a single word. */
  lemma WordsOfUnspaced(s: string)
    requires IsWord(s)
    ensures |Words(s)| == 1
  {
    WordsOfWord(s);
  }

  // ---------------------------------------------------------------------------
  // int(), str() of an int

  predicate AllDigits(s: string) {
    forall i :: 0 <= i < |s| ==> IsDigit(s[i])
  }

  predicate IsDigits(s: string) {
    |s| > 0 && AllDigits(s)
  }

  function DropSign(s: string): (r: string)
    ensures |r| <= |s|
  {
    if |s| > 0 && (s[0] == '+' || s[0] == '-') then s[1..] else s
  }

  /** What int() accepts of a whitespace-free token: an optional sign and
      decimal digits. */
  predicate IsIntLiteral(s: string) {
    IsDigits(DropSign(s))
  }

  function DigitsValue(s: string): nat
    requires AllDigits(s)
  {
    if s == [] then 0
    else DigitsValue(s[..|s| - 1]) * 10 + (s[|s| - 1] as int - '0' as int)
  }

  function IntValue(s: string): int
    requires IsIntLiteral(s)
  {
    var v: int := DigitsValue(DropSign(s));
    if s[0] == '-' then -v else v
  }

  function DigitChar(d: nat): (c: char)
    requires d < 10
    ensures IsDigit(c) && c as int - '0' as int == d
  {
    ('0' as int + d) as char
  }

  /** str(n) for n >= 0: decimal digits, no leading zero. */
  function NatToString(n: nat): (r: string)
    ensures IsDigits(r)
  {
    if n < 10 then [DigitChar(n)] else NatToString(n / 10) + [DigitChar(n % 10)]
  }

  /** str(n) */
  function IntToString(n: int): string {
    if n < 0 then "-" + NatToString(-n) else NatToString(n)
  }

  lemma {:induction false} NatToStringValue(n: nat)
    ensures DigitsValue(NatToString(n)) == n
    decreases n
  {
    if n >= 10 {
      NatToStringValue(n / 10);
      var s := NatToString(n);
      assert s[..|s| - 1] == NatToString(n / 10);
    }
  }

  /** int(str(n)) == n */
  lemma IntToStringRoundTrip(n: int)
    ensures IsIntLiteral(IntToString(n)) && IntValue(IntToString(n)) == n
  {
    var s := IntToString(n);
    if n < 0 {
      var d := NatToString(-n);
      NatToStringValue(-n);
      assert s[0] == '-' && s[1..] == d;
      assert DropSign(s) == d;
    } else {
      var d := NatToString(n);
      NatToStringValue(n);
      assert IsDigit(d[0]);
      assert DropSign(s) == d;
    }
  }

  // ---------------------------------------------------------------------------
  // float()

  /** Where a scan of float() syntax stands: in the digits before the point,
      in those after it (`digits` says whether the mantissa has one yet),
      just after the exponent mark, or in the exponent's digits. */
  datatype FloatState = IntPart(digits: bool) | FracPart(digits: bool) | ExpSign | ExpDigits(digits: bool)

  /** Whether `u[i..]` completes a decimal literal from state `st`: a
      mantissa of digits with at most one point and at least one digit,
      then optionally 'e' or 'E', an optional sign and at least one digit. */
  predicate DecimalFrom(u: string, i: nat, st: FloatState)
    requires i <= |u|
    decreases |u| - i
  {
    if i == |u| then
      match st
      case IntPart(d) => d
      case FracPart(d) => d
      case ExpSign => false
      case ExpDigits(d) => d
    else
      var c := u[i];
      match st
      case IntPart(d) =>
        if IsDigit(c) then DecimalFrom(u, i + 1, IntPart(true))
        else if c == '.' then DecimalFrom(u, i + 1, FracPart(d))
        else d && (c == 'e' || c == 'E') && DecimalFrom(u, i + 1, ExpSign)
      case FracPart(d) =>
        if IsDigit(c) then DecimalFrom(u, i + 1, FracPart(true))
        else d && (c == 'e' || c == 'E') && DecimalFrom(u, i + 1, ExpSign)
      case ExpSign =>
        if c == '+' || c == '-' then DecimalFrom(u, i + 1, ExpDigits(false))
        else IsDigit(c) && DecimalFrom(u, i + 1, ExpDigits(true))
      case ExpDigits(d) =>
        IsDigit(c) && DecimalFrom(u, i + 1, ExpDigits(true))
  }

  /** What float() accepts of a whitespace-free token: an optionally signed
      decimal literal with optional exponent, or inf / infinity / nan in any
      case. */
  predicate IsFloat(s: string) {
    var u := DropSign(s);
    DecimalFrom(u, 0, IntPart(false)) || IsFloatName(u)
  }

  /** `u` spells the lower-case `word` in any mix of cases. */
  predicate SpellsNoCase(u: string, word: string) {
    |u| == |word| && MatchesNoCase(u, word, 0)
  }

  /** The case-insensitive test is s.lower() == word. */
  lemma SpellsNoCaseLower(u: string, word: string)
    ensures SpellsNoCase(u, word) <==> Lower(u) == word
  {
    if Lower(u) == word {
      assert forall k :: 0 <= k < |word| ==> LowerChar(u[k]) == word[k];
    }
  }

  /** The special values float() reads by name. */
  predicate IsFloatName(u: string) {
    SpellsNoCase(u, "inf") || SpellsNoCase(u, "infinity") || SpellsNoCase(u, "nan")
  }

  lemma FloatSyntaxAccepts()
    ensures IsFloat("-0.123") && IsFloat(".5") && IsFloat("5.")
  {
  }

  lemma FloatExponentAccepted()
    ensures IsFloat("1.5E-05")
  {
  }

  lemma FloatSyntaxRejects()
    ensures !IsFloat(".") && !IsFloat("1e") && !IsFloat("e5") && !IsFloat("1.2.3")
  {
  }

  lemma FloatNamesAccepted()
    ensures IsFloat("-Infinity") && IsFloat("NaN") && IsFloat("+inf")
    ensures !IsFloat("in") && !IsFloat("nan0")
  {
  }

  /** The characters a numeric literal is made of. */
  predicate NumberChar(c: char) {
    IsDigit(c) || IsLetter(c) || c == '+' || c == '-' || c == '.'
  }

  predicate IsNumberToken(s: string) {
    |s| > 0 && forall i :: 0 <= i < |s| ==> NumberChar(s[i])
  }

  lemma NumberTokenIsWord(s: string)
    requires IsNumberToken(s)
    ensures IsWord(s)
  {
  }

  lemma SignedToken(s: string)
    requires IsNumberToken(DropSign(s))
    ensures IsNumberToken(s)
  {
    var u := DropSign(s);
    if u != s {
      forall i | 0 <= i < |s| ensures NumberChar(s[i]) {
        if i > 0 { assert s[i] == u[i - 1]; }
      }
    }
  }

  lemma IntLiteralChars(s: string)
    requires IsIntLiteral(s)
    ensures IsNumberToken(s)
  {
    SignedToken(s);
  }

  lemma {:induction false} DecimalChars(u: string, i: nat, st: FloatState)
    requires i <= |u| && DecimalFrom(u, i, st)
    ensures forall j :: i <= j < |u| ==> NumberChar(u[j])
    decreases |u| - i
  {
    if i < |u| {
      match st
      case IntPart(d) =>
        if IsDigit(u[i]) {
          DecimalChars(u, i + 1, IntPart(true));
        } else if u[i] == '.' {
          DecimalChars(u, i + 1, FracPart(d));
        } else {
          DecimalChars(u, i + 1, ExpSign);
        }
      case FracPart(d) =>
        if IsDigit(u[i]) {
          DecimalChars(u, i + 1, FracPart(true));
        } else {
          DecimalChars(u, i + 1, ExpSign);
        }
      case ExpSign =>
        DecimalChars(u, i + 1, ExpDigits(!(u[i] == '+' || u[i] == '-')));
      case ExpDigits(d) =>
        DecimalChars(u, i + 1, ExpDigits(true));
    }
  }

  lemma SpelledLetters(u: string, word: string)
    requires SpellsNoCase(u, word)
    requires forall i :: 0 <= i < |word| ==> IsLetter(word[i])
    ensures IsNumberToken(u) || u == []
  {
    forall i | 0 <= i < |u| ensures IsLetter(u[i]) {
      assert LowerChar(u[i]) == word[i];
    }
  }

  lemma SpecialFloatChars(u: string)
    requires IsFloatName(u)
    ensures IsNumberToken(u)
  {
    if SpellsNoCase(u, "inf") {
      SpelledLetters(u, "inf");
    } else if SpellsNoCase(u, "infinity") {
      SpelledLetters(u, "infinity");
    } else {
      SpelledLetters(u, "nan");
    }
  }

  /** A token float() accepts is made of digits, letters, signs and a point
      only: no whitespace, no comma, no backslash. */
  lemma FloatChars(s: string)
    requires IsFloat(s)
    ensures IsNumberToken(s)
  {
    var u := DropSign(s);
    if DecimalFrom(u, 0, IntPart(false)) {
      DecimalChars(u, 0, IntPart(false));
    } else {
      SpecialFloatChars(u);
    }
    SignedToken(s);
  }

  /** A token float() accepts has no whitespace in it, so str.split() keeps
      it whole. */
  lemma FloatIsWord(s: string)
    requires IsFloat(s)
    ensures IsWord(s)
  {
    FloatChars(s);
  }

  lemma IntLiteralIsWord(s: string)
    requires IsIntLiteral(s)
    ensures IsWord(s)
  {
    IntLiteralChars(s);
  }

  // ---------------------------------------------------------------------------
  // Case-insensitive matching and whitespace runs (for fixed regex patterns)

  /** `pat` (lower case) occurs at `i` of `s`, ignoring ASCII case. */
  predicate MatchesNoCase(s: string, pat: string, i: nat) {
    i + |pat| <= |s| && forall k {:trigger pat[k]} :: 0 <= k < |pat| ==> LowerChar(s[i + k]) == pat[k]
  }

  /** The length of the whitespace run that starts at `j`: what a greedy \s*
      takes there. */
  function SpaceRun(s: string, j: nat): (n: nat)
    requires j <= |s|
    ensures j + n <= |s|
    decreases |s| - j
  {
    if j < |s| && IsSpace(s[j]) then 1 + SpaceRun(s, j + 1) else 0
  }

  /** The run is all whitespace, and is followed by none. */
  lemma {:induction false} SpaceRunSpaces(s: string, j: nat, k: nat)
    requires j <= |s| && j <= k < j + SpaceRun(s, j)
    ensures IsSpace(s[k])
    decreases k - j
  {
    if k > j {
      SpaceRunSpaces(s, j + 1, k);
    }
  }

  // ---------------------------------------------------------------------------
  // Sequences

  function Reverse<T>(s: seq<T>): (r: seq<T>)
    ensures |r| == |s|
    ensures forall i :: 0 <= i < |s| ==> r[i] == s[|s| - 1 - i]
  {
    if s == [] then [] else Reverse(s[1..]) + [s[0]]
  }

  // ---------------------------------------------------------------------------
  // Searching positions

  /** The first position among from..n where `p` holds. */
  function FirstWhere(p: nat -> bool, from: nat, n: nat): (r: Option<nat>)
    requires from <= n
    ensures r.Some? ==> from <= r.value <= n && p(r.value)
    ensures r.Some? ==> forall j :: from <= j < r.value ==> !p(j)
    ensures r.None? ==> forall j :: from <= j <= n ==> !p(j)
    decreases n - from
  {
    if p(from) then Some(from)
    else if from == n then None
    else FirstWhere(p, from + 1, n)
  }

  /** The last position among 0..n where `p` holds. */
  function LastWhere(p: nat -> bool, n: nat): (r: Option<nat>)
    ensures r.Some? ==> r.value <= n && p(r.value)
    ensures r.Some? ==> forall j :: r.value < j <= n ==> !p(j)
    ensures r.None? ==> forall j :: 0 <= j <= n ==> !p(j)
  {
    if p(n) then Some(n)
    else if n == 0 then None
    else LastWhere(p, n - 1)
  }

  lemma LastWhereIs(p: nat -> bool, n: nat, i: nat)
    requires i <= n && p(i)
    requires forall j :: i < j <= n ==> !p(j)
    ensures LastWhere(p, n) == Some(i)
  {
  }
}
