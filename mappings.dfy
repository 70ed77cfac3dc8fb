/**
 * The five synonym tables and `_apply_mappings`.
 *
 * Each table is an ordered list of whole-word patterns with their standard
 * term; Python dictionaries keep insertion order, so the entries are tried
 * in the order they are written. The tables are applied one after the other:
 * transmission, power, body, fuel, drive.
 *
 * Line numbers below refer to `app/services/normalization_service.py`.
 */
module Mappings {
  import opened CharClass
  import opened Rewrite
  import Fields

  function Syn(w: Phrase, replacement: string): Rule {
    Synonym(Word(w), replacement)
  }

  function SynSpaced(left: Phrase, right: Phrase, replacement: string): Rule {
    Synonym(Spaced(left, right), replacement)
  }

  const Transmission: seq<Rule> := [
    Syn("MT", "STD"),
    Syn("M/T", "STD"),
    Syn("MANUAL", "STD"),
    Syn("ESTANDAR", "STD"),
    Syn("EST\U{C1}NDAR", "STD"),
    Syn("AT", "AUT"),
    Syn("A/T", "AUT"),
    Syn("AUTO", "AUT"),
    Syn("AUTOMATICO", "AUT"),
    Syn("AUTOM\U{C1}TICO", "AUT"),
    Syn("AUTOMATICA", "AUT"),
    Syn("AUTOM\U{C1}TICA", "AUT")
  ]

  const Power: seq<Rule> := [
    Syn("CV", "CP"),
    Syn("HP", "CP"),
    Syn("BHP", "CP"),
    Syn("CABALLOS", "CP")
  ]

  const Body: seq<Rule> := [
    Syn("SEDAN", "SEDAN"),
    Syn("SED\U{C1}N", "SEDAN"),
    SynSpaced("4", "PUERTAS", "4 PUERTAS"),
    Syn("4P", "4 PUERTAS"),
    Syn("4DR", "4 PUERTAS"),
    SynSpaced("5", "PUERTAS", "5 PUERTAS"),
    Syn("5P", "5 PUERTAS"),
    Syn("5DR", "5 PUERTAS"),
    SynSpaced("2", "PUERTAS", "2 PUERTAS"),
    Syn("2P", "2 PUERTAS"),
    Syn("2DR", "2 PUERTAS"),
    SynSpaced("3", "PUERTAS", "3 PUERTAS"),
    Syn("3P", "3 PUERTAS"),
    Syn("3DR", "3 PUERTAS"),
    Syn("HATCHBACK", "HB"),
    Syn("HATCH", "HB"),
    Syn("PICKUP", "PICKUP"),
    Syn("PICK-UP", "PICKUP"),
    SynSpaced("DOBLE", "CABINA", "DOBLE CABINA"),
    Syn("D/C", "DOBLE CABINA")
  ]

  const Fuel: seq<Rule> := [
    Syn("COMBUSTION", "GASOLINA"),
    Syn("GASOLINA", "GASOLINA"),
    Syn("NAFTA", "GASOLINA"),
    Syn("BENCINA", "GASOLINA"),
    Syn("DIESEL", "DIESEL"),
    Syn("DI\U{C9}SEL", "DIESEL"),
    Syn("TDI", "DIESEL"),
    Syn("HDI", "DIESEL"),
    Syn("CDTI", "DIESEL"),
    Syn("DCI", "DIESEL"),
    Syn("HIBRIDO", "HEV"),
    Syn("H\U{CD}BRIDO", "HEV"),
    Syn("HYBRID", "HEV"),
    Syn("ELECTRICO", "EV"),
    Syn("EL\U{C9}CTRICO", "EV"),
    Syn("BEV", "EV"),
    SynSpaced("100%", "ELECTRICO", "EV"),
    SynSpaced("100%", "EL\U{C9}CTRICO", "EV")
  ]

  const Drive: seq<Rule> := [
    Syn("4WD", "4X4"),
    Syn("AWD", "4X4"),
    Syn("4X4", "4X4")
  ]

  /** The tables in the order `normalize` applies them. */
  const Tables: seq<seq<Rule>> := [Transmission, Power, Body, Fuel, Drive]

  /** Every entry of every table, in application order. */
  const AllSynonyms: seq<Rule> := Transmission + Power + Body + Fuel + Drive

  /** Lines 181-185: one `re.sub` per entry, in table order, each on the result of the previous one. */
  method ApplyMappings(text: string, mappings: seq<Rule>) returns (r: string)
    ensures r == ApplyRules(text, mappings)
  {
    r := text;
    for i := 0 to |mappings|
      invariant r == ApplyRules(text, mappings[..i])
    {
      assert mappings[..i + 1][..i] == mappings[..i];
      r := Sub(r, mappings[i]);
    }
    assert mappings[..|mappings|] == mappings;
  }

  /** Lines 143-147: the five tables, one after the other. */
  function ApplyTables(text: string, tables: seq<seq<Rule>>): string
    decreases |tables|
  {
    if tables == [] then text
    else ApplyTables(ApplyRules(text, tables[0]), tables[1..])
  }

  function Flatten(tables: seq<seq<Rule>>): seq<Rule>
    decreases |tables|
  {
    if tables == [] then [] else tables[0] + Flatten(tables[1..])
  }

  /** Applying the tables one after the other applies all their entries in order. */
  lemma {:induction false} ApplyTablesInOrder(text: string, tables: seq<seq<Rule>>)
    ensures ApplyTables(text, tables) == ApplyRules(text, Flatten(tables))
    decreases |tables|
  {
    if tables != [] {
      ApplyTablesInOrder(ApplyRules(text, tables[0]), tables[1..]);
      ApplyRulesAppend(text, tables[0], Flatten(tables[1..]));
    }
  }

  lemma FlattenTables()
    ensures Flatten(Tables) == AllSynonyms
  {
    var t := Tables;
    assert t[1..][1..][1..][1..][1..] == [];
    assert Flatten(t[1..][1..][1..][1..]) == Drive;
    assert Flatten(t[1..][1..][1..]) == Fuel + Drive;
    assert Flatten(t[1..][1..]) == Body + Fuel + Drive;
    assert Flatten(t[1..]) == Power + Body + Fuel + Drive;
  }

  /** The five tables of `normalize` apply every entry once, transmission first and drive last. */
  lemma ApplyTablesIsAllSynonyms(text: string)
    ensures ApplyTables(text, Tables) == ApplyRules(text, AllSynonyms)
  {
    ApplyTablesInOrder(text, Tables);
    FlattenTables();
  }

  // ---------------------------------------------------------------------
  // Every entry is a whole-word pattern that does not touch commas
  // ---------------------------------------------------------------------

  /** The entry starts and ends with a word character, so `\b...\b` only ever matches whole words. */
  predicate WholeWord(rule: Rule) {
    rule.Synonym? && IsWordChar(rule.pattern.First()) && IsWordChar(rule.pattern.Last())
  }

  predicate WellFormed(rules: seq<Rule>) {
    forall k :: 0 <= k < |rules| ==> WholeWord(rules[k]) && CommaFree(rules[k])
  }

  /** The entries from `lo` up to `hi` are well formed. */
  predicate EntriesOk(rules: seq<Rule>, lo: nat, hi: nat)
    requires lo <= hi <= |rules|
  {
    forall k :: lo <= k < hi ==> WholeWord(rules[k]) && CommaFree(rules[k])
  }

  lemma WellFormedAppend(a: seq<Rule>, b: seq<Rule>)
    requires WellFormed(a) && WellFormed(b)
    ensures WellFormed(a + b)
  {
    assert forall k :: 0 <= k < |a + b| ==> (a + b)[k] == if k < |a| then a[k] else b[k - |a|];
  }

  lemma TransmissionEntries0To4()
    ensures EntriesOk(Transmission, 0, 4)
  {
    forall k | 0 <= k < 4 ensures WholeWord(Transmission[k]) && CommaFree(Transmission[k]) {
      if k == 0 {} else if k == 1 {} else if k == 2 {} else {}
    }
  }

  lemma TransmissionEntries4To8()
    ensures EntriesOk(Transmission, 4, 8)
  {
    forall k | 4 <= k < 8 ensures WholeWord(Transmission[k]) && CommaFree(Transmission[k]) {
      if k == 4 {} else if k == 5 {} else if k == 6 {} else {}
    }
  }

  lemma TransmissionEntries8To12()
    ensures EntriesOk(Transmission, 8, 12)
  {
    forall k | 8 <= k < 12 ensures WholeWord(Transmission[k]) && CommaFree(Transmission[k]) {
      if k == 8 {} else if k == 9 {} else if k == 10 {} else {}
    }
  }

  /** Lines 17-30: every transmission entry is a comma-free whole word. */
  lemma TransmissionWellFormed()
    ensures WellFormed(Transmission)
  {
    TransmissionEntries0To4();
    TransmissionEntries4To8();
    TransmissionEntries8To12();
  }

  /** Lines 33-38: every power entry is a comma-free whole word. */
  lemma PowerWellFormed()
    ensures WellFormed(Power)
  {
    forall k | 0 <= k < |Power| ensures WholeWord(Power[k]) && CommaFree(Power[k]) {
      if k == 0 {} else if k == 1 {} else if k == 2 {} else {}
    }
  }

  lemma BodyEntries0To2()
    ensures EntriesOk(Body, 0, 2)
  {
    forall k | 0 <= k < 2 ensures WholeWord(Body[k]) && CommaFree(Body[k]) {
      if k == 0 {} else {}
    }
  }

  lemma BodyEntries2To4()
    ensures EntriesOk(Body, 2, 4)
  {
    forall k | 2 <= k < 4 ensures WholeWord(Body[k]) && CommaFree(Body[k]) {
      if k == 2 {} else {}
    }
  }

  lemma BodyEntries4To6()
    ensures EntriesOk(Body, 4, 6)
  {
    forall k | 4 <= k < 6 ensures WholeWord(Body[k]) && CommaFree(Body[k]) {
      if k == 4 {} else {}
    }
  }

  lemma BodyEntries6To8()
    ensures EntriesOk(Body, 6, 8)
  {
    forall k | 6 <= k < 8 ensures WholeWord(Body[k]) && CommaFree(Body[k]) {
      if k == 6 {} else {}
    }
  }

  lemma BodyEntries8To10()
    ensures EntriesOk(Body, 8, 10)
  {
    forall k | 8 <= k < 10 ensures WholeWord(Body[k]) && CommaFree(Body[k]) {
      if k == 8 {} else {}
    }
  }

  lemma BodyEntries10To12()
    ensures EntriesOk(Body, 10, 12)
  {
    forall k | 10 <= k < 12 ensures WholeWord(Body[k]) && CommaFree(Body[k]) {
      if k == 10 {} else {}
    }
  }

  lemma BodyEntries12To14()
    ensures EntriesOk(Body, 12, 14)
  {
    forall k | 12 <= k < 14 ensures WholeWord(Body[k]) && CommaFree(Body[k]) {
      if k == 12 {} else {}
    }
  }

  lemma BodyEntries14To16()
    ensures EntriesOk(Body, 14, 16)
  {
    forall k | 14 <= k < 16 ensures WholeWord(Body[k]) && CommaFree(Body[k]) {
      if k == 14 {} else {}
    }
  }

  lemma BodyEntries16To18()
    ensures EntriesOk(Body, 16, 18)
  {
    forall k | 16 <= k < 18 ensures WholeWord(Body[k]) && CommaFree(Body[k]) {
      if k == 16 {} else {}
    }
  }

  lemma BodyEntries18To20()
    ensures EntriesOk(Body, 18, 20)
  {
    forall k | 18 <= k < 20 ensures WholeWord(Body[k]) && CommaFree(Body[k]) {
      if k == 18 {} else {}
    }
  }

  /** Lines 41-62: every body entry is a comma-free whole word or pair of words. */
  lemma BodyWellFormed()
    ensures WellFormed(Body)
  {
    BodyEntries0To2();
    BodyEntries2To4();
    BodyEntries4To6();
    BodyEntries6To8();
    BodyEntries8To10();
    BodyEntries10To12();
    BodyEntries12To14();
    BodyEntries14To16();
    BodyEntries16To18();
    BodyEntries18To20();
  }

  lemma FuelEntries0To2()
    ensures EntriesOk(Fuel, 0, 2)
  {
    forall k | 0 <= k < 2 ensures WholeWord(Fuel[k]) && CommaFree(Fuel[k]) {
      if k == 0 {} else {}
    }
  }

  lemma FuelEntries2To4()
    ensures EntriesOk(Fuel, 2, 4)
  {
    forall k | 2 <= k < 4 ensures WholeWord(Fuel[k]) && CommaFree(Fuel[k]) {
      if k == 2 {} else {}
    }
  }

  lemma FuelEntries4To6()
    ensures EntriesOk(Fuel, 4, 6)
  {
    forall k | 4 <= k < 6 ensures WholeWord(Fuel[k]) && CommaFree(Fuel[k]) {
      if k == 4 {} else {}
    }
  }

  lemma FuelEntries6To8()
    ensures EntriesOk(Fuel, 6, 8)
  {
    forall k | 6 <= k < 8 ensures WholeWord(Fuel[k]) && CommaFree(Fuel[k]) {
      if k == 6 {} else {}
    }
  }

  lemma FuelEntries8To10()
    ensures EntriesOk(Fuel, 8, 10)
  {
    forall k | 8 <= k < 10 ensures WholeWord(Fuel[k]) && CommaFree(Fuel[k]) {
      if k == 8 {} else {}
    }
  }

  lemma FuelEntries10To12()
    ensures EntriesOk(Fuel, 10, 12)
  {
    forall k | 10 <= k < 12 ensures WholeWord(Fuel[k]) && CommaFree(Fuel[k]) {
      if k == 10 {} else {}
    }
  }

  lemma FuelEntries12To14()
    ensures EntriesOk(Fuel, 12, 14)
  {
    forall k | 12 <= k < 14 ensures WholeWord(Fuel[k]) && CommaFree(Fuel[k]) {
      if k == 12 {} else {}
    }
  }

  lemma FuelEntries14To16()
    ensures EntriesOk(Fuel, 14, 16)
  {
    forall k | 14 <= k < 16 ensures WholeWord(Fuel[k]) && CommaFree(Fuel[k]) {
      if k == 14 {} else {}
    }
  }

  lemma FuelEntries16To18()
    ensures EntriesOk(Fuel, 16, 18)
  {
    forall k | 16 <= k < 18 ensures WholeWord(Fuel[k]) && CommaFree(Fuel[k]) {
      if k == 16 {} else {}
    }
  }

  /** Lines 65-84: every fuel entry is a comma-free whole word or pair of words. */
  lemma FuelWellFormed()
    ensures WellFormed(Fuel)
  {
    FuelEntries0To2();
    FuelEntries2To4();
    FuelEntries4To6();
    FuelEntries6To8();
    FuelEntries8To10();
    FuelEntries10To12();
    FuelEntries12To14();
    FuelEntries14To16();
    FuelEntries16To18();
  }

  /** Lines 87-91: every drive entry is a comma-free whole word. */
  lemma DriveWellFormed()
    ensures WellFormed(Drive)
  {
    forall k | 0 <= k < |Drive| ensures WholeWord(Drive[k]) && CommaFree(Drive[k]) {
      if k == 0 {} else if k == 1 {} else {}
    }
  }

  /** Every synonym entry matches whole words only and neither reads nor writes a comma. */
  lemma AllSynonymsWellFormed()
    ensures WellFormed(AllSynonyms)
  {
    TransmissionWellFormed();
    PowerWellFormed();
    BodyWellFormed();
    FuelWellFormed();
    DriveWellFormed();
    WellFormedAppend(Transmission, Power);
    WellFormedAppend(Transmission + Power, Body);
    WellFormedAppend(Transmission + Power + Body, Fuel);
    WellFormedAppend(Transmission + Power + Body + Fuel, Drive);
  }

  /** A pass of any entry of well-formed tables replaces only whole words. */
  lemma SynonymsReplaceWholeWords(rules: seq<Rule>, s: string, i: nat, k: nat)
    requires WellFormed(rules) && i <= |s| && k < |rules|
    requires Match(s, i, rules[k]).Some?
    ensures i < |s| && IsWordChar(s[i]) && !WordAt(s, i - 1)
    ensures var e := Match(s, i, rules[k]).value.end;
      IsWordChar(s[e - 1]) && !WordAt(s, e)
  {
    var rule := rules[k];
    assert WholeWord(rule);
    SynonymMatchIsWholeWord(s, i, rule.pattern, rule.replacement);
  }

  // ---------------------------------------------------------------------
  // Whole words only: MT becomes STD, MTX stays
  // ---------------------------------------------------------------------

  /** Every entry of the table leaves the single word `s` alone. */
  predicate TableFixes(s: string, rules: seq<Rule>) {
    forall k :: 0 <= k < |rules| ==> Fields.Fixes(s, rules[k])
  }

  /** Tables that each leave a single word alone leave it alone together. */
  lemma {:induction false} ApplyTablesFixed(s: string, tables: seq<seq<Rule>>)
    requires Fields.OneWord(s)
    requires forall t :: 0 <= t < |tables| ==> TableFixes(s, tables[t])
    ensures ApplyTables(s, tables) == s
    decreases |tables|
  {
    if tables != [] {
      Fields.ApplyRulesFixed(s, tables[0]);
      ApplyTablesFixed(s, tables[1..]);
    }
  }

  /** The single words used by the examples below. */
  predicate ExampleWord(s: string) {
    s == "STD" || s == "MTX" || s == "SEDAN" || s == "1600CC"
  }

  lemma ExampleWordIsOneWord(s: string)
    requires ExampleWord(s)
    ensures Fields.OneWord(s)
  {
  }

  lemma TransmissionFixes(s: string)
    requires ExampleWord(s)
    ensures TableFixes(s, Transmission)
  {
    forall k | 0 <= k < |Transmission|
      ensures Fields.Fixes(s, Transmission[k])
    {
      var w := Transmission[k].pattern.Letters();
      assert |w| == |s| ==> !SameLetter(s[0], w[0]) || !SameLetter(s[2], w[2]);
    }
  }

  lemma PowerFixes(s: string)
    requires ExampleWord(s)
    ensures TableFixes(s, Power)
  {
    forall k | 0 <= k < |Power|
      ensures Fields.Fixes(s, Power[k])
    {
      var w := Power[k].pattern.Letters();
      assert |w| == |s| ==> !SameLetter(s[0], w[0]);
    }
  }

  /** `SEDAN` is an entry of its own, with itself as the standard term. */
  lemma BodyFixes(s: string)
    requires ExampleWord(s)
    ensures TableFixes(s, Body)
  {
    forall k | 0 <= k < |Body|
      ensures Fields.Fixes(s, Body[k])
    {
      var w := Body[k].pattern.Letters();
      assert |w| == |s| ==> !SameLetter(s[0], w[0]) || !SameLetter(s[2], w[2]) || Body[k].replacement == s;
    }
  }

  lemma FuelFixes(s: string)
    requires ExampleWord(s)
    ensures TableFixes(s, Fuel)
  {
    forall k | 0 <= k < |Fuel|
      ensures Fields.Fixes(s, Fuel[k])
    {
      var w := Fuel[k].pattern.Letters();
      assert |w| == |s| ==> !SameLetter(s[0], w[0]);
    }
  }

  lemma DriveFixes(s: string)
    requires ExampleWord(s)
    ensures TableFixes(s, Drive)
  {
    forall k | 0 <= k < |Drive|
      ensures Fields.Fixes(s, Drive[k])
    {
      var w := Drive[k].pattern.Letters();
      assert |w| == |s| ==> !SameLetter(s[0], w[0]);
    }
  }

  /** No entry of any table rewrites `STD`, `MTX`, `SEDAN` or `1600CC`. */
  lemma TablesFix(s: string)
    requires ExampleWord(s)
    ensures ApplyTables(s, Tables) == s
  {
    ExampleWordIsOneWord(s);
    TransmissionFixes(s);
    PowerFixes(s);
    BodyFixes(s);
    FuelFixes(s);
    DriveFixes(s);
    ApplyTablesFixed(s, Tables);
  }

  /** The first transmission entry turns `MT` into `STD`; the other entries leave `STD` alone. */
  lemma MtInTransmission()
    ensures ApplyRules("MT", Transmission) == "STD"
  {
    var mt, std := "MT", "STD";
    assert Fields.OneWord(mt);
    Fields.SubOnOneWord(mt, Word(mt), std);
    assert Fields.Hits(mt, Word(mt)) by {
      assert SameLetter(mt[0], mt[0]) && SameLetter(mt[1], mt[1]);
    }
    assert Transmission == [Syn(mt, std)] + Transmission[1..];
    ApplyRulesAppend(mt, [Syn(mt, std)], Transmission[1..]);
    assert ApplyRules(mt, [Syn(mt, std)]) == std by {
      assert [Syn(mt, std)][..0] == [];
    }
    TransmissionFixes(std);
    assert TableFixes(std, Transmission[1..]);
    ExampleWordIsOneWord(std);
    Fields.ApplyRulesFixed(std, Transmission[1..]);
  }

  /** `MT` is a whole word of the transmission table, so it becomes `STD` and nothing later changes it. */
  lemma MtBecomesStd()
    ensures ApplyTables("MT", Tables) == "STD"
  {
    var std := "STD";
    MtInTransmission();
    assert ApplyTables("MT", Tables) == ApplyTables(std, Tables[1..]);
    ExampleWordIsOneWord(std);
    PowerFixes(std);
    BodyFixes(std);
    FuelFixes(std);
    DriveFixes(std);
    ApplyTablesFixed(std, Tables[1..]);
  }

  /** `MTX` is not a whole-word hit of `MT` (or of any other entry), so it is left unchanged. */
  lemma MtxUnchanged()
    ensures ApplyTables("MTX", Tables) == "MTX"
  {
    TablesFix("MTX");
  }
}
