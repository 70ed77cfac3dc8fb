/**
 * `NormalizationService.normalize`: upper-case and strip, tidy the commas,
 * then (full mode only) drop repeated fields, fold synonyms table by table
 * and rewrite engine displacement, and finally tidy the whitespace.
 *
 * Line numbers below refer to `app/services/normalization_service.py`.
 */
module Normalize {
  import opened CharClass
  import opened Rewrite
  import opened Cleanup
  import opened Lexemes
  import opened Dedupe
  import Fields
  import Mappings
  import Engine

  /** Lines 131-136: the steps applied in both modes before the optional ones. */
  function Basic(description: string): string {
    TidyCommas(Strip(UpperStr(description)))
  }

  /** Lines 138-150: duplicate fields, the five synonym tables, then displacement. */
  function FullRewrite(text: string): string {
    ApplyRules(Mappings.ApplyTables(RemoveDuplicatesText(text), Mappings.Tables), Engine.EngineRules)
  }

  /**
   * Lines 103-162. The result is tidy in both modes: no whitespace at the
   * ends, only single plain spaces, and a space after every comma but a
   * final one. The final whitespace clean-up keeps every word and every
   * comma of the text before it; in basic mode that text has the upper-cased
   * words of the description, in order, and its commas less those paired up
   * or at an end.
   */
  function Normalize(description: string, full: bool): (r: string)
    ensures description == [] ==> r == []
    ensures WellSpaced(r)
    ensures description != [] ==>
      Lex(r) == Lex(if full then FullRewrite(Basic(description)) else Basic(description))
    ensures !full ==> Lex(r) == TidyLex(UpperLex(Lex(description)))
  {
    if description == [] then ""
    else
      var text := if full then FullRewrite(Basic(description)) else Basic(description);
      TidySpacesWellSpaced(text);
      LexTidySpaces(text);
      LexBasic(description);
      TidySpaces(text)
  }

  /** Lines 131-136 read as words and commas: the words upper-cased, the commas tidied. */
  lemma LexBasic(description: string)
    ensures Lex(Basic(description)) == TidyLex(UpperLex(Lex(description)))
  {
    var u := UpperStr(description);
    LexUpper(description);
    LexStrip(u);
    LexTidyCommas(Strip(u));
  }

  // ---------------------------------------------------------------------
  // Basic mode rewrites no word
  // ---------------------------------------------------------------------

  /**
   * With `full_normalization=False` the words of the result are those of the
   * description, upper-cased, in order: none is dropped, split or merged.
   */
  lemma BasicKeepsWords(description: string)
    ensures Words(Lex(Normalize(description, false))) == Words(UpperLex(Lex(description)))
  {
    TidyLexWords(UpperLex(Lex(description)));
  }

  /** A comma between two words of the description is still there, between the same two words upper-cased. */
  lemma BasicKeepsLoneComma(description: string, p: seq<Lexeme>, a: string, b: string, q: seq<Lexeme>)
    requires Lex(description) == p + [Lexeme.Word(a), Lexeme.Comma, Lexeme.Word(b)] + q
    ensures Lex(Normalize(description, false))
         == DropFirst(PairUp(UpperLex(p))) + [Lexeme.Word(UpperStr(a)), Lexeme.Comma, Lexeme.Word(UpperStr(b))] + DropLast(PairUp(UpperLex(q)))
  {
    UpperLexAround(p, a, b, q);
    TidyLexKeepsLoneComma(UpperLex(p), UpperStr(a), UpperStr(b), UpperLex(q));
  }

  // ---------------------------------------------------------------------
  // The decimal-comma pattern is dead in full mode
  // ---------------------------------------------------------------------

  /**
   * In full mode every comma reaching the engine step is followed by a space
   * (the duplicate pass rejoins the fields with `", "` and no later rule
   * touches a comma), so the `\b(\d),(\d)\b` pass changes nothing.
   */
  lemma DecimalCommaIsDead(text: string)
    ensures FullRewrite(text)
         == Sub(Sub(Mappings.ApplyTables(RemoveDuplicatesText(text), Mappings.Tables), CcToLitres), LitreSuffix)
  {
    var deduped := RemoveDuplicatesText(text);
    var mapped := Mappings.ApplyTables(deduped, Mappings.Tables);
    Mappings.ApplyTablesIsAllSynonyms(deduped);
    Mappings.AllSynonymsWellFormed();
    ApplyRulesKeepsCommasSpaced(deduped, Mappings.AllSynonyms);
    SubFromKeepsCommasSpaced(mapped, CcToLitres, 0);
    DecimalCommaNeverMatches(Sub(mapped, CcToLitres));
    Engine.EngineSteps(mapped);
  }

  /**
   * Lines 138-150: every comma the full-mode rewrite leaves is followed by
   * whitespace, whatever text it is given: the duplicate pass rejoins with
   * `", "` and no synonym or displacement rule touches a comma.
   */
  lemma FullRewriteSpacesCommas(text: string)
    ensures CommasSpaced(FullRewrite(text))
  {
    var deduped := RemoveDuplicatesText(text);
    var mapped := Mappings.ApplyTables(deduped, Mappings.Tables);
    Mappings.ApplyTablesIsAllSynonyms(deduped);
    Mappings.AllSynonymsWellFormed();
    ApplyRulesKeepsCommasSpaced(deduped, Mappings.AllSynonyms);
    Engine.EngineRulesCommaFree();
    ApplyRulesKeepsCommasSpaced(mapped, Engine.EngineRules);
  }

  // ---------------------------------------------------------------------
  // Full mode on a tidy list of fields works field by field
  // ---------------------------------------------------------------------

  /** What the synonym tables and the displacement rules make of one field. */
  function RewriteField(f: string): string {
    ApplyRules(Mappings.ApplyTables(f, Mappings.Tables), Engine.EngineRules)
  }

  function RewriteEach(xs: seq<string>): (r: seq<string>)
    ensures |r| == |xs|
    ensures forall k :: 0 <= k < |xs| ==> r[k] == RewriteField(xs[k])
  {
    seq(|xs|, k requires 0 <= k < |xs| => RewriteField(xs[k]))
  }

  /** Each field passed through the same list of rules. */
  function ApplyEach(xs: seq<string>, rules: seq<Rule>): (r: seq<string>)
    ensures |r| == |xs|
    ensures forall k :: 0 <= k < |xs| ==> r[k] == ApplyRules(xs[k], rules)
  {
    seq(|xs|, k requires 0 <= k < |xs| => ApplyRules(xs[k], rules))
  }

  /** Rules that do not touch commas rewrite the `", "`-joined fields one field at a time. */
  lemma {:induction false} ApplyRulesFields(xs: seq<string>, rules: seq<Rule>)
    requires |xs| >= 1
    requires forall k :: 0 <= k < |rules| ==> CommaFree(rules[k])
    ensures ApplyRules(Join(xs, ", "), rules) == Join(ApplyEach(xs, rules), ", ")
    decreases |xs|
  {
    if |xs| > 1 {
      ApplyRulesFields(xs[1..], rules);
      Fields.ApplyRulesJoin(xs[0], Join(xs[1..], ", "), rules);
      assert ApplyEach(xs, rules)[1..] == ApplyEach(xs[1..], rules);
    }
  }

  /**
   * In full mode, text that is already a `", "`-joined list of plain
   * fields loses its runs of repeated fields, and then each field is
   * rewritten on its own: no synonym or displacement rewrite reaches
   * across a comma.
   */
  lemma FullRewriteOfFields(xs: seq<string>)
    requires |xs| >= 1
    requires forall k :: 0 <= k < |xs| ==> PlainField(xs[k])
    ensures FullRewrite(Join(xs, ", ")) == Join(RewriteEach(Dedup(xs)), ", ")
  {
    FullRewriteDeduped(xs);
    FullRewriteJoined(Join(xs, ", "), Dedup(xs));
  }

  /** Text that full mode reduces to `", "`-joined fields ends as those fields rewritten one by one. */
  lemma FullRewriteJoined(t: string, ys: seq<string>)
    requires |ys| >= 1
    requires FullRewrite(t) == ApplyRules(Mappings.ApplyTables(Join(ys, ", "), Mappings.Tables), Engine.EngineRules)
    ensures FullRewrite(t) == Join(RewriteEach(ys), ", ")
  {
    RewriteJoined(ys);
  }

  /** On `", "`-joined plain fields the tables and the displacement rules see the fields without repeats. */
  lemma FullRewriteDeduped(xs: seq<string>)
    requires |xs| >= 1
    requires forall k :: 0 <= k < |xs| ==> PlainField(xs[k])
    ensures |Dedup(xs)| >= 1
    ensures FullRewrite(Join(xs, ", "))
         == ApplyRules(Mappings.ApplyTables(Join(Dedup(xs), ", "), Mappings.Tables), Engine.EngineRules)
  {
    RemoveDuplicatesOfFields(xs);
  }

  /** The synonym tables and then the displacement rules, on `", "`-joined fields. */
  lemma RewriteJoined(ys: seq<string>)
    requires |ys| >= 1
    ensures ApplyRules(Mappings.ApplyTables(Join(ys, ", "), Mappings.Tables), Engine.EngineRules)
         == Join(RewriteEach(ys), ", ")
  {
    TablesOfFields(ys);
    EngineOfFields(TablesEach(ys, Mappings.Tables));
    RewriteEachInSteps(ys);
  }

  /** The five tables rewrite `", "`-joined fields one field at a time. */
  lemma TablesOfFields(ys: seq<string>)
    requires |ys| >= 1
    ensures Mappings.ApplyTables(Join(ys, ", "), Mappings.Tables) == Join(TablesEach(ys, Mappings.Tables), ", ")
  {
    TablesCommaFree();
    TablesFieldwise(ys, Mappings.Tables);
  }

  /** The displacement rules rewrite `", "`-joined fields one field at a time. */
  lemma EngineOfFields(zs: seq<string>)
    requires |zs| >= 1
    ensures ApplyRules(Join(zs, ", "), Engine.EngineRules) == Join(ApplyEach(zs, Engine.EngineRules), ", ")
  {
    Engine.EngineRulesCommaFree();
    ApplyRulesFields(zs, Engine.EngineRules);
  }

  /** Rewriting each field is the tables on each field, then the displacement rules on each. */
  lemma RewriteEachInSteps(ys: seq<string>)
    ensures ApplyEach(TablesEach(ys, Mappings.Tables), Engine.EngineRules) == RewriteEach(ys)
  {
    var each := ApplyEach(TablesEach(ys, Mappings.Tables), Engine.EngineRules);
    var rewritten := RewriteEach(ys);
    forall k | 0 <= k < |ys|
      ensures each[k] == rewritten[k]
    {
      var f := Mappings.ApplyTables(ys[k], Mappings.Tables);
      assert TablesEach(ys, Mappings.Tables)[k] == f;
      assert each[k] == ApplyRules(f, Engine.EngineRules);
      assert rewritten[k] == RewriteField(ys[k]);
    }
    assert |each| == |rewritten|;
  }

  /** Each field passed through the given tables. */
  function TablesEach(ys: seq<string>, tables: seq<seq<Rule>>): (r: seq<string>)
    ensures |r| == |ys|
    ensures forall k :: 0 <= k < |ys| ==> r[k] == Mappings.ApplyTables(ys[k], tables)
  {
    seq(|ys|, k requires 0 <= k < |ys| => Mappings.ApplyTables(ys[k], tables))
  }

  /** Tables of comma-free entries rewrite the `", "`-joined fields one field at a time. */
  lemma TablesFieldwise(ys: seq<string>, tables: seq<seq<Rule>>)
    requires |ys| >= 1
    requires forall k :: 0 <= k < |Mappings.Flatten(tables)| ==> CommaFree(Mappings.Flatten(tables)[k])
    ensures Mappings.ApplyTables(Join(ys, ", "), tables) == Join(TablesEach(ys, tables), ", ")
  {
    var rules := Mappings.Flatten(tables);
    Mappings.ApplyTablesInOrder(Join(ys, ", "), tables);
    ApplyRulesFields(ys, rules);
    var each := ApplyEach(ys, rules);
    var tabled := TablesEach(ys, tables);
    forall k | 0 <= k < |ys|
      ensures each[k] == tabled[k]
    {
      Mappings.ApplyTablesInOrder(ys[k], tables);
    }
    assert each == tabled;
  }

  /** Every entry of the five tables is comma-free. */
  lemma TablesCommaFree()
    ensures forall k :: 0 <= k < |Mappings.Flatten(Mappings.Tables)| ==> CommaFree(Mappings.Flatten(Mappings.Tables)[k])
  {
    Mappings.FlattenTables();
    Mappings.AllSynonymsWellFormed();
  }

  // ---------------------------------------------------------------------
  // Tidy lists of fields
  // ---------------------------------------------------------------------

  /** A field of upper-case text without whitespace or commas. */
  predicate Token(f: string) {
    f != [] && forall c :: c in f ==> !IsSpace(c) && c != ',' && !HasUpper(c)
  }

  /** Tokens joined with `", "` are upper case and tidy. */
  lemma {:induction false} JoinTokens(xs: seq<string>)
    requires |xs| >= 1
    requires forall k :: 0 <= k < |xs| ==> Token(xs[k])
    ensures Tidy(Join(xs, ", "))
    ensures forall c :: c in Join(xs, ", ") ==> !HasUpper(c)
    decreases |xs|
  {
    if |xs| > 1 {
      JoinTokens(xs[1..]);
      TidyJoin(xs[0], Join(xs[1..], ", "));
    } else {
      assert forall j :: 0 <= j < |xs[0]| ==> xs[0][j] in xs[0];
    }
  }

  /** On tokens joined with `", "` both modes start from the text itself. */
  lemma BasicOfTokens(xs: seq<string>)
    requires |xs| >= 1
    requires forall k :: 0 <= k < |xs| ==> Token(xs[k])
    ensures Join(xs, ", ") != []
    ensures Basic(Join(xs, ", ")) == Join(xs, ", ")
    ensures TidySpaces(Join(xs, ", ")) == Join(xs, ", ")
  {
    var t := Join(xs, ", ");
    JoinTokens(xs);
    UpperStrFixes(t);
    TidyIsFixed(t);
    assert |t| >= |xs[0]| by {
      if |xs| > 1 {
        assert t == xs[0] + ", " + Join(xs[1..], ", ");
      }
    }
  }

  /** A token is a plain field. */
  lemma TokensArePlain(xs: seq<string>)
    requires forall k :: 0 <= k < |xs| ==> Token(xs[k])
    ensures forall k :: 0 <= k < |xs| ==> PlainField(xs[k])
  {
    forall k | 0 <= k < |xs|
      ensures PlainField(xs[k])
    {
      var f := xs[k];
      assert f[0] in f && f[|f| - 1] in f;
    }
  }

  /** Full mode on text that basic mode keeps, and whose rewrite the final spacing keeps. */
  lemma NormalizeFullOf(text: string, r: string)
    requires text != [] && Basic(text) == text
    requires FullRewrite(text) == r && TidySpaces(r) == r
    ensures Normalize(text, true) == r
  {
  }

  /** Fields that are tokens after the rewrite join into text the final spacing keeps. */
  lemma RewrittenTokens(ys: seq<string>)
    requires |ys| >= 1
    requires forall k :: 0 <= k < |ys| ==> Token(RewriteEach(ys)[k])
    ensures TidySpaces(Join(RewriteEach(ys), ", ")) == Join(RewriteEach(ys), ", ")
  {
    BasicOfTokens(RewriteEach(ys));
  }

  /** Full mode on tokens joined with `", "`: drop repeats, rewrite each field, rejoin. */
  lemma NormalizeFullOfTokens(xs: seq<string>)
    requires |xs| >= 1
    requires forall k :: 0 <= k < |xs| ==> Token(xs[k])
    requires forall k :: 0 <= k < |Dedup(xs)| ==> Token(RewriteEach(Dedup(xs))[k])
    ensures Normalize(Join(xs, ", "), true) == Join(RewriteEach(Dedup(xs)), ", ")
  {
    BasicOfTokens(xs);
    TokensArePlain(xs);
    FullRewriteDeduped(xs);
    FullRewriteJoined(Join(xs, ", "), Dedup(xs));
    RewrittenTokens(Dedup(xs));
    NormalizeFullOf(Join(xs, ", "), Join(RewriteEach(Dedup(xs)), ", "));
  }

  // ---------------------------------------------------------------------
  // Examples
  // ---------------------------------------------------------------------

  lemma WordsOfExamples()
    ensures Mappings.ExampleWord("SEDAN") && Mappings.ExampleWord("STD") && Mappings.ExampleWord("1600CC")
    ensures Token("SEDAN") && Token("MT") && Token("STD") && Token("1600CC") && Token("1.6L")
  {
  }

  /** A field of letters only that no table rewrites is kept by full mode. */
  lemma RewriteOfLetters(f: string)
    requires Mappings.ExampleWord(f) && forall k :: 0 <= k < |f| ==> !IsDigit(f[k])
    ensures RewriteField(f) == f
  {
    Mappings.TablesFix(f);
    Engine.EngineWithoutDigits(f);
  }

  lemma RewriteOfMt()
    ensures RewriteField("MT") == "STD"
  {
    var std := "STD";
    Mappings.MtBecomesStd();
    assert forall k :: 0 <= k < |std| ==> !IsDigit(std[k]);
    Engine.EngineWithoutDigits(std);
  }

  lemma RewriteOfCc()
    ensures RewriteField("1600CC") == "1.6L"
  {
    WordsOfExamples();
    Mappings.TablesFix("1600CC");
    Engine.EngineOfCc();
  }

  /** What full mode makes of the single fields of the examples. */
  lemma RewriteOfExampleFields()
    ensures RewriteField("SEDAN") == "SEDAN"
    ensures RewriteField("MT") == "STD"
    ensures RewriteField("STD") == "STD"
    ensures RewriteField("1600CC") == "1.6L"
  {
    var sedan, std := "SEDAN", "STD";
    assert Mappings.ExampleWord(sedan) && forall k :: 0 <= k < |sedan| ==> !IsDigit(sedan[k]);
    assert Mappings.ExampleWord(std) && forall k :: 0 <= k < |std| ==> !IsDigit(std[k]);
    RewriteOfLetters(sedan);
    RewriteOfLetters(std);
    RewriteOfMt();
    RewriteOfCc();
  }

  /** The example text is its five fields joined with `", "`. */
  lemma JoinOfFullExample()
    ensures Join(["SEDAN", "SEDAN", "MT", "MT", "1600CC"], ", ") == "SEDAN, SEDAN, MT, MT, 1600CC"
  {
    var a, b, c := "SEDAN", "MT", "1600CC";
    var xs := [a, a, b, b, c];
    assert Join(xs[1..][1..][1..][1..], ", ") == c;
    assert Join(xs[1..][1..][1..], ", ") == b + ", " + c;
    assert Join(xs[1..][1..], ", ") == b + ", " + b + ", " + c;
    assert Join(xs[1..], ", ") == a + ", " + b + ", " + b + ", " + c;
  }

  /** The fields of `"SEDAN, SEDAN, MT, MT, 1600CC"` without their repeats. */
  lemma FieldsOfFullExample()
    ensures Join(["SEDAN", "SEDAN", "MT", "MT", "1600CC"], ", ") == "SEDAN, SEDAN, MT, MT, 1600CC"
    ensures Dedup(["SEDAN", "SEDAN", "MT", "MT", "1600CC"]) == ["SEDAN", "MT", "1600CC"]
  {
    JoinOfFullExample();
    DedupPairsThen("SEDAN", "MT", "1600CC");
  }


  /** The rewritten fields of the example. */
  lemma RewriteOfFullExample()
    ensures RewriteEach(["SEDAN", "MT", "1600CC"]) == ["SEDAN", "STD", "1.6L"]
  {
    RewriteOfExampleFields();
    RewriteEachOfThree("SEDAN", "MT", "1600CC");
  }

  lemma RewriteEachOfThree(x: string, y: string, z: string)
    ensures RewriteEach([x, y, z]) == [RewriteField(x), RewriteField(y), RewriteField(z)]
  {
    var r := RewriteEach([x, y, z]);
    assert r == [r[0], r[1], r[2]];
  }



  lemma JoinOfRewrittenExample()
    ensures Join(["SEDAN", "STD", "1.6L"], ", ") == "SEDAN, STD, 1.6L"
  {
    var zs := ["SEDAN", "STD", "1.6L"];
    assert zs[1..][1..] == ["1.6L"];
  }

  lemma TokensOfFullExample()
    ensures var xs := ["SEDAN", "SEDAN", "MT", "MT", "1600CC"];
      forall k :: 0 <= k < |xs| ==> Token(xs[k])
    ensures var zs := ["SEDAN", "STD", "1.6L"];
      forall k :: 0 <= k < |zs| ==> Token(zs[k])
  {
    WordsOfExamples();
  }

  /** `"SEDAN, SEDAN, MT, MT, 1600CC"` becomes `"SEDAN, STD, 1.6L"` in full mode. */
  lemma FullExample()
    ensures Normalize("SEDAN, SEDAN, MT, MT, 1600CC", true) == "SEDAN, STD, 1.6L"
  {
    FieldsOfFullExample();
    RewriteOfFullExample();
    JoinOfRewrittenExample();
    TokensOfFullExample();
    NormalizeFullOfTokens(["SEDAN", "SEDAN", "MT", "MT", "1600CC"]);
  }

  /** The fields of the two texts of the idempotence example. */
  lemma FieldsOfRepeatExample()
    ensures Join(["MT", "STD"], ", ") == "MT, STD"
    ensures Join(["STD", "STD"], ", ") == "STD, STD"
    ensures Join(["STD"], ", ") == "STD"
    ensures Dedup(["MT", "STD"]) == ["MT", "STD"]
    ensures Dedup(["STD", "STD"]) == ["STD"]
  {
    JoinsOfRepeatExample();
    DedupOfMtStd();
    DedupOfStdStd();
  }

  lemma JoinsOfRepeatExample()
    ensures Join(["MT", "STD"], ", ") == "MT, STD"
    ensures Join(["STD", "STD"], ", ") == "STD, STD"
    ensures Join(["STD"], ", ") == "STD"
  {
    var mt, std := "MT", "STD";
    assert [mt, std][1..] == [std];
    assert [std, std][1..] == [std];
  }

  lemma DedupOfMtStd()
    ensures Dedup(["MT", "STD"]) == ["MT", "STD"]
  {
    DedupKeepsNonAdjacent(["MT", "STD"]);
  }

  lemma DedupOfStdStd()
    ensures Dedup(["STD", "STD"]) == ["STD"]
  {
    var std := "STD";
    assert [std, std][..1] == [std];
  }


  /** The rewritten fields of the idempotence example. */
  lemma RewriteOfRepeatExample()
    ensures RewriteEach(["MT", "STD"]) == ["STD", "STD"]
    ensures RewriteEach(["STD"]) == ["STD"]
  {
    RewriteOfExampleFields();
  }

  /**
   * Full mode is not idempotent: on `"MT, STD"` the repeat only appears
   * after the synonyms are folded, so a second pass removes it.
   */
  lemma FullNotIdempotent()
    ensures Normalize("MT, STD", true) == "STD, STD"
    ensures Normalize("STD, STD", true) == "STD"
  {
    var xs, twice, once := ["MT", "STD"], ["STD", "STD"], ["STD"];
    FieldsOfRepeatExample();
    RewriteOfRepeatExample();
    WordsOfExamples();
    assert forall k :: 0 <= k < |xs| ==> Token(xs[k]);
    assert forall k :: 0 <= k < |twice| ==> Token(twice[k]);
    assert forall k :: 0 <= k < |once| ==> Token(once[k]);
    NormalizeFullOfTokens(xs);
    NormalizeFullOfTokens(twice);
  }

  /** Basic mode on text that is not empty: the comma clean-up, then the final spacing. */
  lemma NormalizeBasicOf(text: string, r: string)
    requires text != [] && TidySpaces(Basic(text)) == r
    ensures Normalize(text, false) == r
  {
  }

  /**
   * The comma clean-up is one non-overlapping pass: between two words a run
   * of three commas keeps two of them, and the final spacing puts a space
   * between those two, so `"A,,,B"` becomes `"A, , B"`.
   */
  lemma CommaRunLeavesPair(a: string, b: string)
    requires Token(a) && Token(b)
    ensures Normalize(a + ",,," + b, false) == a + ", , " + b
  {
    var s := a + ",,," + b;
    assert forall c :: c in s ==> c in a || c in ",,," || c in b;
    UpperStrFixes(s);
    assert s[0] == a[0] && s[|s| - 1] == b[|b| - 1];
    assert a[0] in a && b[|b| - 1] in b;
    StripUnspaced(s);
    TidyCommasOfRun(a, b);
    TidySpacesOfPair(a, b);
    NormalizeBasicOf(s, a + ", , " + b);
  }

  /**
   * At the end of the text the same pass leaves two commas of three, and
   * only the last of those is dropped as trailing, so `"A,,,"` becomes `"A,"`.
   */
  lemma CommaRunAtEndLeavesComma(a: string)
    requires Token(a)
    ensures Normalize(a + ",,,", false) == a + ","
  {
    var s := a + ",,,";
    assert forall c :: c in s ==> c in a || c in ",,,";
    UpperStrFixes(s);
    assert s[0] == a[0] && s[|s| - 1] == ',';
    assert a[0] in a;
    StripUnspaced(s);
    TidyCommasOfFinalRun(a);
    TidySpacesOfFinalComma(a);
    NormalizeBasicOf(s, a + ",");
  }
}
