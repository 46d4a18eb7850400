/**
 * The static atomic-number table of MolecularFileParser (ELEMENT_MAP) and the
 * lookup that falls back to the number's own decimal text.
 */
module Elements {
  import opened Strings

  /** ELEMENT_MAP: the symbol of atomic number n is Symbols[n - 1]. The
      table's keys are exactly 1..118, so a sequence holds it; it is written
      in rows of ten (periods do not matter here) to keep lookups cheap. */
  const Row0: seq<string> := ["H", "He", "Li", "Be", "B", "C", "N", "O", "F", "Ne"]
  const Row1: seq<string> := ["Na", "Mg", "Al", "Si", "P", "S", "Cl", "Ar", "K", "Ca"]
  const Row2: seq<string> := ["Sc", "Ti", "V", "Cr", "Mn", "Fe", "Co", "Ni", "Cu", "Zn"]
  const Row3: seq<string> := ["Ga", "Ge", "As", "Se", "Br", "Kr", "Rb", "Sr", "Y", "Zr"]
  const Row4: seq<string> := ["Nb", "Mo", "Tc", "Ru", "Rh", "Pd", "Ag", "Cd", "In", "Sn"]
  const Row5: seq<string> := ["Sb", "Te", "I", "Xe", "Cs", "Ba", "La", "Ce", "Pr", "Nd"]
  const Row6: seq<string> := ["Pm", "Sm", "Eu", "Gd", "Tb", "Dy", "Ho", "Er", "Tm", "Yb"]
  const Row7: seq<string> := ["Lu", "Hf", "Ta", "W", "Re", "Os", "Ir", "Pt", "Au", "Hg"]
  const Row8: seq<string> := ["Tl", "Pb", "Bi", "Po", "At", "Rn", "Fr", "Ra", "Ac", "Th"]
  const Row9: seq<string> := ["Pa", "U", "Np", "Pu", "Am", "Cm", "Bk", "Cf", "Es", "Fm"]
  const Row10: seq<string> := ["Md", "No", "Lr", "Rf", "Db", "Sg", "Bh", "Hs", "Mt", "Ds"]
  const Row11: seq<string> := ["Rg", "Cn", "Nh", "Fl", "Mc", "Lv", "Ts", "Og"]
  const Symbols: seq<string> :=
    Row0 + Row1 + Row2 + Row3 + Row4 + Row5
    + Row6 + Row7 + Row8 + Row9 + Row10 + Row11

  predicate InTable(n: int) {
    1 <= n <= |Symbols|
  }

  /** _get_element_symbol: ELEMENT_MAP.get(n, str(n)). */
  function GetElementSymbol(n: int): string {
    if InTable(n) then Symbols[n - 1] else IntToString(n)
  }

  /** A chemical symbol: an upper-case letter, optionally followed by one
      lower-case letter. */
  predicate IsChemicalSymbol(s: string) {
    (|s| == 1 || |s| == 2) && 'A' <= s[0] <= 'Z' && (|s| == 2 ==> 'a' <= s[1] <= 'z')
  }

  predicate AllChemical(xs: seq<string>) {
    forall s <- xs :: IsChemicalSymbol(s)
  }

  lemma AllChemicalAppend(xs: seq<string>, ys: seq<string>)
    requires AllChemical(xs) && AllChemical(ys)
    ensures AllChemical(xs + ys)
  {
  }

  // One lemma per row keeps each membership case split small.
  lemma Row0Chemical() ensures AllChemical(Row0) {}
  lemma Row1Chemical() ensures AllChemical(Row1) {}
  lemma Row2Chemical() ensures AllChemical(Row2) {}
  lemma Row3Chemical() ensures AllChemical(Row3) {}
  lemma Row4Chemical() ensures AllChemical(Row4) {}
  lemma Row5Chemical() ensures AllChemical(Row5) {}
  lemma Row6Chemical() ensures AllChemical(Row6) {}
  lemma Row7Chemical() ensures AllChemical(Row7) {}
  lemma Row8Chemical() ensures AllChemical(Row8) {}
  lemma Row9Chemical() ensures AllChemical(Row9) {}
  lemma Row10Chemical() ensures AllChemical(Row10) {}
  lemma Row11Chemical() ensures AllChemical(Row11) {}

  /** The table covers atomic numbers 1..118, each with a chemical symbol. */
  lemma TableWellFormed()
    ensures |Symbols| == 118
    ensures forall i :: 0 <= i < |Symbols| ==> IsChemicalSymbol(Symbols[i])
  {
    Row0Chemical(); Row1Chemical(); Row2Chemical(); Row3Chemical();
    Row4Chemical(); Row5Chemical(); Row6Chemical(); Row7Chemical();
    Row8Chemical(); Row9Chemical(); Row10Chemical(); Row11Chemical();
    var acc := Row0;
    assert AllChemical(acc);
    AllChemicalAppend(acc, Row1); acc := acc + Row1;
    AllChemicalAppend(acc, Row2); acc := acc + Row2;
    AllChemicalAppend(acc, Row3); acc := acc + Row3;
    AllChemicalAppend(acc, Row4); acc := acc + Row4;
    AllChemicalAppend(acc, Row5); acc := acc + Row5;
    AllChemicalAppend(acc, Row6); acc := acc + Row6;
    AllChemicalAppend(acc, Row7); acc := acc + Row7;
    AllChemicalAppend(acc, Row8); acc := acc + Row8;
    AllChemicalAppend(acc, Row9); acc := acc + Row9;
    AllChemicalAppend(acc, Row10); acc := acc + Row10;
    AllChemicalAppend(acc, Row11); acc := acc + Row11;
    assert acc == Symbols;
    forall i | 0 <= i < |Symbols| ensures IsChemicalSymbol(Symbols[i]) {
      assert Symbols[i] in Symbols;
    }
  }

  /** The lookup never fails, and its result says which branch made it: a
      number in the table gets a chemical symbol; any other number gets a
      decimal label that int() reads back as that number. */
  lemma GetElementSymbolCases(n: int)
    ensures InTable(n) <==> 1 <= n <= 118
    ensures InTable(n) ==> IsChemicalSymbol(GetElementSymbol(n))
    ensures !InTable(n) ==> IsIntLiteral(GetElementSymbol(n)) && IntValue(GetElementSymbol(n)) == n
  {
    TableWellFormed();
    if !InTable(n) { IntToStringRoundTrip(n); }
  }

  /** Two different atomic numbers outside the table never share a label,
      and an outside label never looks like a table symbol. */
  lemma FallbackLabelsDistinct(n: int, m: int)
    requires !InTable(n)
    ensures !IsChemicalSymbol(GetElementSymbol(n))
    ensures !InTable(m) && m != n ==> GetElementSymbol(m) != GetElementSymbol(n)
  {
    IntToStringRoundTrip(n);
    IntToStringRoundTrip(m);
    var s := GetElementSymbol(n);
    if n < 0 {
      assert s[0] == '-';
    } else {
      assert s == NatToString(n);
      assert IsDigit(s[0]);
    }
  }

  lemma ExampleSymbols()
    ensures GetElementSymbol(6) == "C" && GetElementSymbol(1) == "H"
    ensures GetElementSymbol(118) == "Og"
    ensures GetElementSymbol(119) == "119" && GetElementSymbol(0) == "0"
  {
  }
}
