/**
 * MolecularFormulaGenerator.generate_formula: count the case-normalised
 * element symbols of a list of atoms, order the symbols C first, H second
 * and the rest by code point, and write each symbol followed by its count
 * when that count exceeds one.
 */
module Formula {
  import opened Strings
  import opened LineParsers

  // ---------------------------------------------------------------------------
  // Normalising a symbol

  /** A symbol of two or more characters gets an upper-case first character
      and a lower-case rest; a shorter one is upper-cased. Either way the
      result is in canonical case. */
  function Normalize(e: string): (r: string)
    ensures |r| == |e|
    ensures |r| > 0 ==> !('a' <= r[0] <= 'z')
    ensures forall k :: 1 <= k < |r| ==> !('A' <= r[k] <= 'Z')
  {
    if |e| > 1 then [UpperChar(e[0])] + Lower(e[1..]) else Upper(e)
  }

  /** Writing the symbol in lower case does not change it. */
  lemma NormalizeOfLower(e: string)
    ensures Normalize(Lower(e)) == Normalize(e)
  {
    if |e| > 1 {
      var l := Lower(e);
      assert l[0] == LowerChar(e[0]);
      UpperOfLowerChar(e[0]);
      assert l[1..] == Lower(e[1..]);
      LowerTwice(e[1..]);
    } else {
      UpperOfLower(e);
    }
  }

  /** Writing the symbol in upper case does not change it. */
  lemma NormalizeOfUpper(e: string)
    ensures Normalize(Upper(e)) == Normalize(e)
  {
    if |e| > 1 {
      var u := Upper(e);
      assert u[0] == UpperChar(e[0]);
      assert u[1..] == Upper(e[1..]);
      LowerOfUpper(e[1..]);
    } else {
      assert Upper(Upper(e)) == Upper(e);
    }
  }

  /** Normalising twice is normalising once. */
  lemma NormalizeIdempotent(e: string)
    ensures Normalize(Normalize(e)) == Normalize(e)
  {
    var r := Normalize(e);
    if |e| > 1 {
      assert r[1..] == Lower(e[1..]);
      LowerTwice(e[1..]);
    } else {
      assert Upper(Upper(e)) == Upper(e);
    }
  }

  // ---------------------------------------------------------------------------
  // Counting: the atom_count dict and its key order

  /** The count of each value of `xs`, as a dict filled by walking `xs`. */
  function Tally(xs: seq<string>): (m: map<string, nat>)
    ensures forall x :: x in m <==> x in xs
    ensures forall x :: x in m ==> m[x] == multiset(xs)[x]
  {
    if xs == [] then map[]
    else
      var p, x := xs[..|xs| - 1], xs[|xs| - 1];
      assert xs == p + [x];
      Bump(Tally(p), x)
  }

  /** atom_count[x] = atom_count.get(x, 0) + 1 */
  function Bump(m: map<string, nat>, x: string): map<string, nat> {
    m[x := (if x in m then m[x] else 0) + 1]
  }

  /** No value occurs twice. */
  predicate NoDup(s: seq<string>) {
    forall i, j :: 0 <= i < j < |s| ==> s[i] != s[j]
  }

  /** The distinct values of `xs` in order of first occurrence: the key
      order of the dict Tally models. */
  function FirstOccurrences(xs: seq<string>): (r: seq<string>)
    ensures forall x :: x in r <==> x in xs
    ensures NoDup(r)
  {
    if xs == [] then []
    else
      var d, x := FirstOccurrences(xs[..|xs| - 1]), xs[|xs| - 1];
      assert forall y :: y in xs <==> y in xs[..|xs| - 1] || y == x;
      if x in d then d else d + [x]
  }

  /** One more value counted. */
  lemma TallyStep(xs: seq<string>, i: nat)
    requires i < |xs|
    ensures Tally(xs[..i + 1]) == Bump(Tally(xs[..i]), xs[i])
    ensures var d, x := FirstOccurrences(xs[..i]), xs[i];
            FirstOccurrences(xs[..i + 1]) == if x in d then d else d + [x]
  {
    assert xs[..i + 1][..i] == xs[..i];
  }

  // ---------------------------------------------------------------------------
  // The order of the symbols

  /** preferred_order.get(symbol, inf): C, then H, then everything else. */
  function Rank(e: string): nat {
    if e == "C" then 0 else if e == "H" then 1 else 2
  }

  /** Python's `<` on str: code-point lexicographic order, where a proper
      prefix comes first. */
  predicate StrLess(a: string, b: string) {
    if a == [] then b != []
    else if b == [] then false
    else a[0] < b[0] || (a[0] == b[0] && StrLess(a[1..], b[1..]))
  }

  /** The sort key (rank, symbol) of `a` is below that of `b`. */
  predicate Before(a: string, b: string) {
    Rank(a) < Rank(b) || (Rank(a) == Rank(b) && StrLess(a, b))
  }

  lemma {:induction false} StrLessIrreflexive(a: string)
    ensures !StrLess(a, a)
    decreases |a|
  {
    if a != [] {
      StrLessIrreflexive(a[1..]);
    }
  }

  lemma {:induction false} StrLessTransitive(a: string, b: string, c: string)
    requires StrLess(a, b) && StrLess(b, c)
    ensures StrLess(a, c)
    decreases |a|
  {
    if a != [] && a[0] == b[0] && b[0] == c[0] {
      StrLessTransitive(a[1..], b[1..], c[1..]);
    }
  }

  lemma {:induction false} StrLessTotal(a: string, b: string)
    requires a != b
    ensures StrLess(a, b) || StrLess(b, a)
    decreases |a|
  {
    if a != [] && b != [] && a[0] == b[0] {
      assert a == [a[0]] + a[1..] && b == [b[0]] + b[1..];
      StrLessTotal(a[1..], b[1..]);
    }
  }

  /** Before is a strict total order on symbols. */
  lemma BeforeIsOrder(a: string, b: string, c: string)
    ensures !Before(a, a)
    ensures Before(a, b) && Before(b, c) ==> Before(a, c)
    ensures a != b ==> (Before(a, b) <==> !Before(b, a))
  {
    StrLessIrreflexive(a);
    if Before(a, b) && Before(b, c) && Rank(a) == Rank(b) == Rank(c) {
      StrLessTransitive(a, b, c);
    }
    if a != b && Rank(a) == Rank(b) {
      StrLessTotal(a, b);
      if StrLess(a, b) && StrLess(b, a) {
        StrLessTransitive(a, b, a);
      }
    }
  }

  /** Strictly ascending in the sort key. */
  predicate Sorted(s: seq<string>) {
    forall i, j :: 0 <= i < j < |s| ==> Before(s[i], s[j])
  }

  /** One step of an insertion sort. */
  function Insert(x: string, s: seq<string>): (r: seq<string>)
    ensures |r| == |s| + 1
    ensures forall y :: y in r <==> y == x || y in s
  {
    if s == [] then [x]
    else if Before(x, s[0]) then [x] + s
    else
      var t := Insert(x, s[1..]);
      assert forall y :: y in s <==> y == s[0] || y in s[1..];
      [s[0]] + t
  }

  /** sorted() on distinct symbols with the key (rank, symbol). */
  function HillSort(s: seq<string>): (r: seq<string>)
    ensures |r| == |s|
    ensures forall y :: y in r <==> y in s
  {
    if s == [] then []
    else
      var t := HillSort(s[1..]);
      assert forall y :: y in s <==> y == s[0] || y in s[1..];
      Insert(s[0], t)
  }

  /** Everything in a sorted sequence after its head comes after it. */
  lemma HeadIsLeast(s: seq<string>, y: string)
    requires Sorted(s) && |s| > 0 && y in s[1..]
    ensures Before(s[0], y)
  {
    var j :| 0 <= j < |s| - 1 && s[1..][j] == y;
    assert s[j + 1] == y;
  }

  /** A value of `s` other than its head is in its tail. */
  lemma InTail(s: seq<string>, y: string)
    requires y in s && y != s[0]
    ensures y in s[1..]
  {
    var j :| 0 <= j < |s| && s[j] == y;
    assert s[1..][j - 1] == y;
  }

  lemma {:induction false} InsertSorted(x: string, s: seq<string>)
    requires Sorted(s) && x !in s
    ensures Sorted(Insert(x, s))
    decreases |s|
  {
    if s != [] {
      if Before(x, s[0]) {
        forall j | 0 < j < |s| ensures Before(x, s[j]) {
          BeforeIsOrder(x, s[0], s[j]);
        }
      } else {
        InsertTail(x, s);
      }
    }
  }

  /** The case where `x` goes after the head. */
  lemma {:induction false} InsertTail(x: string, s: seq<string>)
    requires Sorted(s) && x !in s && s != [] && !Before(x, s[0])
    ensures Sorted(Insert(x, s))
    decreases |s|, 0
  {
    BeforeIsOrder(x, s[0], x);
    var r := Insert(x, s[1..]);
    assert x !in s[1..];
    InsertSorted(x, s[1..]);
    forall y | y in r ensures Before(s[0], y) {
      if y != x {
        HeadIsLeast(s, y);
      }
    }
    assert Insert(x, s) == [s[0]] + r;
  }

  lemma {:induction false} InsertPermutes(x: string, s: seq<string>)
    ensures multiset(Insert(x, s)) == multiset(s) + multiset{x}
    decreases |s|
  {
    if s != [] && !Before(x, s[0]) {
      InsertPermutes(x, s[1..]);
      assert s == [s[0]] + s[1..];
    }
  }

  /** The sort orders distinct symbols strictly. */
  lemma {:induction false} HillSortSorted(s: seq<string>)
    requires NoDup(s)
    ensures Sorted(HillSort(s))
    decreases |s|
  {
    if s != [] {
      assert NoDup(s[1..]);
      HillSortSorted(s[1..]);
      assert s[0] !in s[1..];
      InsertSorted(s[0], HillSort(s[1..]));
    }
  }

  /** The sort loses and adds nothing: its result is a permutation. */
  lemma {:induction false} HillSortPermutes(s: seq<string>)
    ensures multiset(HillSort(s)) == multiset(s)
    decreases |s|
  {
    if s != [] {
      HillSortPermutes(s[1..]);
      InsertPermutes(s[0], HillSort(s[1..]));
      assert s == [s[0]] + s[1..];
    }
  }

  lemma HeadIsMember(s: seq<string>)
    ensures s != [] ==> s[0] in s
  {
  }

  /** Two strictly ascending sequences with the same elements are equal:
      the order the dict met the symbols in does not matter. */
  lemma {:induction false} SortedUnique(a: seq<string>, b: seq<string>)
    requires Sorted(a) && Sorted(b)
    requires forall x :: x in a <==> x in b
    ensures a == b
    decreases |a|
  {
    HeadIsMember(a);
    HeadIsMember(b);
    if a != [] && b != [] {
      assert a[0] in b && b[0] in a;
      assert a == [a[0]] + a[1..] && b == [b[0]] + b[1..];
      forall y | y in b[1..] ensures Before(b[0], y) {
        HeadIsLeast(b, y);
      }
      forall y | y in a[1..] ensures Before(a[0], y) {
        HeadIsLeast(a, y);
      }
      BeforeIsOrder(a[0], b[0], a[0]);
      BeforeIsOrder(b[0], b[0], b[0]);
      assert a[0] == b[0];
      forall y ensures y in a[1..] <==> y in b[1..] {
        BeforeIsOrder(a[0], y, y);
        if y in a[1..] {
          InTail(b, y);
        }
        if y in b[1..] {
          InTail(a, y);
        }
      }
      SortedUnique(a[1..], b[1..]);
    }
  }

  // ---------------------------------------------------------------------------
  // Totals

  /** The sum of the counts of `keys`. */
  function Total(keys: seq<string>, counts: map<string, nat>): nat
    requires forall k :: k in keys ==> k in counts
  {
    if keys == [] then 0 else counts[keys[0]] + Total(keys[1..], counts)
  }

  lemma {:induction false} TotalAppend(keys: seq<string>, k: string, counts: map<string, nat>)
    requires forall x :: x in keys + [k] ==> x in counts
    ensures Total(keys + [k], counts) == Total(keys, counts) + counts[k]
    decreases |keys|
  {
    if keys != [] {
      assert (keys + [k])[1..] == keys[1..] + [k];
      TotalAppend(keys[1..], k, counts);
    }
  }

  /** Changing the count of a key that is not listed leaves the total. */
  lemma {:induction false} TotalFrame(keys: seq<string>, counts: map<string, nat>, k: string, v: nat)
    requires forall x :: x in keys ==> x in counts
    requires k !in keys
    ensures Total(keys, counts[k := v]) == Total(keys, counts)
    decreases |keys|
  {
    if keys != [] {
      TotalFrame(keys[1..], counts, k, v);
    }
  }

  /** Changing the count of a key listed once changes the total by the
      difference. */
  lemma {:induction false} TotalBump(keys: seq<string>, counts: map<string, nat>, k: string, v: nat)
    requires forall x :: x in keys ==> x in counts
    requires NoDup(keys) && k in keys
    ensures Total(keys, counts[k := v]) == Total(keys, counts) - counts[k] + v
    decreases |keys|
  {
    if keys[0] == k {
      assert k !in keys[1..];
      TotalFrame(keys[1..], counts, k, v);
    } else {
      TotalBump(keys[1..], counts, k, v);
    }
  }

  /** Inserting a key adds its count. */
  lemma {:induction false} TotalInsert(x: string, s: seq<string>, counts: map<string, nat>)
    requires x in counts && forall k :: k in s ==> k in counts
    ensures forall k :: k in Insert(x, s) ==> k in counts
    ensures Total(Insert(x, s), counts) == counts[x] + Total(s, counts)
    decreases |s|
  {
    if s != [] && !Before(x, s[0]) {
      TotalInsert(x, s[1..], counts);
    }
  }

  /** Sorting keeps the total. */
  lemma {:induction false} TotalHillSort(s: seq<string>, counts: map<string, nat>)
    requires forall k :: k in s ==> k in counts
    ensures forall k :: k in HillSort(s) ==> k in counts
    ensures Total(HillSort(s), counts) == Total(s, counts)
    decreases |s|
  {
    if s != [] {
      TotalHillSort(s[1..], counts);
      TotalInsert(s[0], HillSort(s[1..]), counts);
    }
  }

  /** The counts of the distinct values add up to the number of values. */
  lemma {:induction false} TallyTotal(xs: seq<string>)
    ensures Total(FirstOccurrences(xs), Tally(xs)) == |xs|
    decreases |xs|
  {
    if xs != [] {
      var i := |xs| - 1;
      var p, x := xs[..i], xs[i];
      var d, m := FirstOccurrences(p), Tally(p);
      TallyTotal(p);
      TallyStep(xs, i);
      assert xs[..i + 1] == xs;
      var m' := Bump(m, x);
      if x in d {
        TotalBump(d, m, x, m'[x]);
      } else {
        TotalFrame(d, m, x, m'[x]);
        TotalAppend(d, x, m');
      }
    }
  }

  // ---------------------------------------------------------------------------
  // The formula

  /** The normalised symbol of each atom, in input order. */
  function Symbols(atoms: seq<AtomCoordinate>): seq<string> {
    seq(|atoms|, i requires 0 <= i < |atoms| => Normalize(atoms[i].element))
  }

  /** The distinct symbols in formula order. */
  function Order(atoms: seq<AtomCoordinate>): seq<string> {
    HillSort(FirstOccurrences(Symbols(atoms)))
  }

  /** One part: the symbol, then its count when the count exceeds one. */
  function Part(e: string, n: nat): string {
    e + (if n > 1 then NatToString(n) else "")
  }

  /** The part of each key, in order. */
  function Parts(keys: seq<string>, counts: map<string, nat>): seq<string>
    requires forall k :: k in keys ==> k in counts
  {
    seq(|keys|, j requires 0 <= j < |keys| => Part(keys[j], counts[keys[j]]))
  }

  lemma PartsStep(keys: seq<string>, counts: map<string, nat>, j: nat)
    requires j < |keys| && forall k :: k in keys ==> k in counts
    ensures forall k :: k in keys[..j] ==> k in counts
    ensures Parts(keys[..j + 1], counts) == Parts(keys[..j], counts) + [Part(keys[j], counts[keys[j]])]
  {
  }

  /** What generate_formula returns. */
  function FormulaOf(atoms: seq<AtomCoordinate>): string {
    if atoms == [] then ""
    else
      var es := Symbols(atoms);
      var counts := Tally(es);
      Concat(Parts(HillSort(FirstOccurrences(es)), counts))
  }

  /** generate_formula. */
  method GenerateFormula(atoms: seq<AtomCoordinate>) returns (formula: string)
    ensures formula == FormulaOf(atoms)
  {
    if |atoms| == 0 {
      return "";
    }
    var counts, keys := CountSymbols(atoms);
    var sorted := HillSort(keys);
    var parts := WriteParts(sorted, counts);
    formula := Concat(parts);
  }

  /** The counting loop of generate_formula: the atom_count dict, and the
      order its keys were inserted in. */
  method CountSymbols(atoms: seq<AtomCoordinate>) returns (counts: map<string, nat>, keys: seq<string>)
    ensures counts == Tally(Symbols(atoms))
    ensures keys == FirstOccurrences(Symbols(atoms))
  {
    ghost var es := Symbols(atoms);
    counts := map[];
    keys := [];
    for i := 0 to |atoms|
      invariant counts == Tally(es[..i])
      invariant keys == FirstOccurrences(es[..i])
    {
      var e := Normalize(atoms[i].element);
      assert e == es[i];
      TallyStep(es, i);
      if e !in counts {
        keys := keys + [e];
      }
      counts := Bump(counts, e);
    }
    assert es[..|atoms|] == es;
  }

  /** The loop that builds formula_parts. */
  method WriteParts(sorted: seq<string>, counts: map<string, nat>) returns (parts: seq<string>)
    requires forall k :: k in sorted ==> k in counts
    ensures parts == Parts(sorted, counts)
  {
    parts := [];
    for j := 0 to |sorted|
      invariant parts == Parts(sorted[..j], counts)
    {
      PartsStep(sorted, counts, j);
      parts := parts + [Part(sorted[j], counts[sorted[j]])];
    }
    assert sorted[..|sorted|] == sorted;
  }

  // ---------------------------------------------------------------------------
  // What the formula promises

  /** Each normalised symbol occurs in the order exactly once, and nothing
      else does; the order is strictly ascending, so C comes first and H
      next. */
  lemma OrderIsHill(atoms: seq<AtomCoordinate>)
    ensures var ks, es := Order(atoms), Symbols(atoms);
            Sorted(ks) && NoDup(ks) && (forall e :: e in ks <==> e in es)
    ensures var ks, es := Order(atoms), Symbols(atoms);
            "C" in es ==> ks[0] == "C"
    ensures var ks, es := Order(atoms), Symbols(atoms);
            "H" in es ==> ks[if "C" in es then 1 else 0] == "H"
  {
    var ks := Order(atoms);
    HillSortSorted(FirstOccurrences(Symbols(atoms)));
    SortedNoDup(ks);
    SortedHill(ks);
  }

  /** A strictly ascending sequence repeats nothing. */
  lemma SortedNoDup(ks: seq<string>)
    requires Sorted(ks)
    ensures NoDup(ks)
  {
    forall i, j | 0 <= i < j < |ks| ensures ks[i] != ks[j] {
      BeforeIsOrder(ks[i], ks[j], ks[j]);
    }
  }

  /** In a strictly ascending sequence C is first and H follows it. */
  lemma SortedHill(ks: seq<string>)
    requires Sorted(ks)
    ensures "C" in ks ==> ks[0] == "C"
    ensures "H" in ks ==> ks[if "C" in ks then 1 else 0] == "H"
  {
    SortedNoDup(ks);
    OnlyCBeforeH();
    if "H" in ks {
      var i :| 0 <= i < |ks| && ks[i] == "H";
      assert forall j :: 0 <= j < i ==> ks[j] == "C";
    }
  }

  /** Nothing sorts before C, and only C before H. */
  lemma OnlyCBeforeH()
    ensures forall x :: !Before(x, "C")
    ensures forall x :: Before(x, "H") ==> x == "C"
  {
    StrLessIrreflexive("C");
    StrLessIrreflexive("H");
  }

  /** The formula depends only on how many atoms carry each normalised
      symbol: not on the order of the atoms, their coordinates or the case
      their symbols were written in. */
  lemma FormulaDependsOnSymbolCounts(atoms: seq<AtomCoordinate>, other: seq<AtomCoordinate>)
    requires multiset(Symbols(atoms)) == multiset(Symbols(other))
    ensures FormulaOf(atoms) == FormulaOf(other)
  {
    var es, fs := Symbols(atoms), Symbols(other);
    forall e ensures e in es <==> e in fs {
      assert e in es <==> e in multiset(es);
    }
    OrderIsHill(atoms);
    OrderIsHill(other);
    SortedUnique(Order(atoms), Order(other));
    assert Tally(es) == Tally(fs);
  }

  /** Each part carries the number of atoms with that symbol, and the
      counts add up to the number of atoms. */
  lemma FormulaCounts(atoms: seq<AtomCoordinate>)
    ensures var es := Symbols(atoms);
            forall e :: e in es ==> e in Tally(es) && Tally(es)[e] == multiset(es)[e]
    ensures var es := Symbols(atoms);
            forall k :: k in Order(atoms) ==> k in Tally(es)
    ensures Total(Order(atoms), Tally(Symbols(atoms))) == |atoms|
  {
    var es := Symbols(atoms);
    var d := FirstOccurrences(es);
    TallyTotal(es);
    TotalHillSort(d, Tally(es));
  }

  /** A count of one is left out and any larger count is written in
      decimal after the symbol. */
  lemma PartShape(e: string, n: nat)
    requires n >= 1
    ensures Part(e, n) == e <==> n == 1
    ensures n > 1 ==> Part(e, n)[..|e|] == e && DigitsValue(Part(e, n)[|e|..]) == n
  {
    if n > 1 {
      NatToStringValue(n);
      assert Part(e, n)[|e|..] == NatToString(n);
    }
  }

  /** With non-empty symbols, the formula is empty exactly when there are
      no atoms. */
  lemma FormulaEmpty(atoms: seq<AtomCoordinate>)
    requires forall i :: 0 <= i < |atoms| ==> atoms[i].element != []
    ensures FormulaOf(atoms) == "" <==> atoms == []
  {
    if atoms != [] {
      var es := Symbols(atoms);
      OrderIsHill(atoms);
      FormulaCounts(atoms);
      var ks := Order(atoms);
      assert es[0] in ks;
      var ps := Parts(ks, Tally(es));
      assert |ps[0]| >= |ks[0]| > 0;
      assert FormulaOf(atoms) == ps[0] + Concat(ps[1..]);
    }
  }

  /** The formula of a non-empty list is the concatenation of the parts
      of its symbols in formula order. */
  lemma FormulaOfParts(atoms: seq<AtomCoordinate>)
    requires atoms != []
    ensures forall k :: k in Order(atoms) ==> k in Tally(Symbols(atoms))
    ensures FormulaOf(atoms) == Concat(Parts(Order(atoms), Tally(Symbols(atoms))))
  {
  }

  lemma ConcatTwo(a: string, b: string)
    ensures Concat([a, b]) == a + b
  {
    assert [a, b][1..] == [b];
    assert [b][1..] == [];
    assert Concat([b]) == b + Concat([]);
  }

  /** Two distinct symbols, in order. */
  lemma OrderOfTwo(atoms: seq<AtomCoordinate>, a: string, b: string)
    requires Before(a, b)
    requires forall e :: e in Symbols(atoms) <==> e == a || e == b
    ensures Order(atoms) == [a, b]
  {
    OrderIsHill(atoms);
    SortedUnique(Order(atoms), [a, b]);
  }

  /** The formula of a list with two symbols. */
  lemma FormulaOfTwo(atoms: seq<AtomCoordinate>, a: string, b: string)
    requires atoms != [] && Order(atoms) == [a, b]
    ensures a in Tally(Symbols(atoms)) && b in Tally(Symbols(atoms))
    ensures FormulaOf(atoms) == Part(a, Tally(Symbols(atoms))[a]) + Part(b, Tally(Symbols(atoms))[b])
  {
    FormulaOfParts(atoms);
    var c := Tally(Symbols(atoms));
    assert Parts([a, b], c) == [Part(a, c[a]), Part(b, c[b])];
    ConcatTwo(Part(a, c[a]), Part(b, c[b]));
  }

  /** The formula of atoms with two symbols and known counts. */
  lemma FormulaOfTwoCounts(atoms: seq<AtomCoordinate>, a: string, b: string, na: nat, nb: nat)
    requires Before(a, b)
    requires forall e :: e in Symbols(atoms) <==> e == a || e == b
    requires a in Tally(Symbols(atoms)) && Tally(Symbols(atoms))[a] == na
    requires b in Tally(Symbols(atoms)) && Tally(Symbols(atoms))[b] == nb
    ensures FormulaOf(atoms) == Part(a, na) + Part(b, nb)
  {
    assert a in Symbols(atoms);
    OrderOfTwo(atoms, a, b);
    FormulaOfTwo(atoms, a, b);
  }

  /** The parts and the order the two examples below need. */
  lemma ExampleParts()
    ensures Part("C", 2) + Part("H", 4) == "C2H4"
    ensures Part("H", 2) + Part("O", 1) == "H2O"
    ensures Before("C", "H") && Before("H", "O")
  {
    assert NatToString(2) == "2";
    assert NatToString(4) == "4";
    assert Part("C", 2) == "C2" && Part("H", 4) == "H4";
    assert Part("H", 2) == "H2" && Part("O", 1) == "O";
  }

  /** The symbols of ethylene's atoms. */
  lemma EthyleneSymbols(atoms: seq<AtomCoordinate>)
    requires |atoms| == 6
    requires atoms[0].element == "C" && atoms[1].element == "C"
    requires forall i :: 2 <= i < 6 ==> atoms[i].element == "H"
    ensures Symbols(atoms) == ["C", "C", "H", "H", "H", "H"]
  {
    assert Normalize("C") == "C" && Normalize("H") == "H";
  }

  /** Two C and four H. */
  lemma EthyleneTally(es: seq<string>)
    requires es == ["C", "C", "H", "H", "H", "H"]
    ensures forall e :: e in es <==> e == "C" || e == "H"
    ensures "C" in Tally(es) && Tally(es)["C"] == 2
    ensures "H" in Tally(es) && Tally(es)["H"] == 4
  {
    assert multiset(es) == multiset{"C", "C", "H", "H", "H", "H"};
  }

  /** The symbols of the atoms, and how many atoms carry each. */
  lemma EthyleneCounts(atoms: seq<AtomCoordinate>)
    requires |atoms| == 6
    requires atoms[0].element == "C" && atoms[1].element == "C"
    requires forall i :: 2 <= i < 6 ==> atoms[i].element == "H"
    ensures forall e :: e in Symbols(atoms) <==> e == "C" || e == "H"
    ensures "C" in Tally(Symbols(atoms)) && Tally(Symbols(atoms))["C"] == 2
    ensures "H" in Tally(Symbols(atoms)) && Tally(Symbols(atoms))["H"] == 4
  {
    EthyleneSymbols(atoms);
    EthyleneTally(Symbols(atoms));
  }

  /** Ethylene: two carbons and four hydrogens give "C2H4". */
  lemma EthyleneFormula(atoms: seq<AtomCoordinate>)
    requires |atoms| == 6
    requires atoms[0].element == "C" && atoms[1].element == "C"
    requires forall i :: 2 <= i < 6 ==> atoms[i].element == "H"
    ensures FormulaOf(atoms) == "C2H4"
  {
    EthyleneCounts(atoms);
    ExampleParts();
    FormulaOfTwoCounts(atoms, "C", "H", 2, 4);
  }

  /** The symbols of water's atoms. */
  lemma WaterSymbols(atoms: seq<AtomCoordinate>)
    requires |atoms| == 3
    requires atoms[0].element == "O" && atoms[1].element == "H" && atoms[2].element == "H"
    ensures Symbols(atoms) == ["O", "H", "H"]
  {
    assert Normalize("O") == "O" && Normalize("H") == "H";
  }

  /** One O and two H. */
  lemma WaterTally(es: seq<string>)
    requires es == ["O", "H", "H"]
    ensures forall e :: e in es <==> e == "H" || e == "O"
    ensures "H" in Tally(es) && Tally(es)["H"] == 2
    ensures "O" in Tally(es) && Tally(es)["O"] == 1
  {
    assert multiset(es) == multiset{"O", "H", "H"};
  }

  /** The symbols of the atoms, and how many atoms carry each. */
  lemma WaterCounts(atoms: seq<AtomCoordinate>)
    requires |atoms| == 3
    requires atoms[0].element == "O" && atoms[1].element == "H" && atoms[2].element == "H"
    ensures forall e :: e in Symbols(atoms) <==> e == "H" || e == "O"
    ensures "H" in Tally(Symbols(atoms)) && Tally(Symbols(atoms))["H"] == 2
    ensures "O" in Tally(Symbols(atoms)) && Tally(Symbols(atoms))["O"] == 1
  {
    WaterSymbols(atoms);
    WaterTally(Symbols(atoms));
  }

  /** Water written oxygen first: "H2O", H before the other elements. */
  lemma WaterFormula(atoms: seq<AtomCoordinate>)
    requires |atoms| == 3
    requires atoms[0].element == "O" && atoms[1].element == "H" && atoms[2].element == "H"
    ensures FormulaOf(atoms) == "H2O"
  {
    WaterCounts(atoms);
    ExampleParts();
    FormulaOfTwoCounts(atoms, "H", "O", 2, 1);
  }
}
