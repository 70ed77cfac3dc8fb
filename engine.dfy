/**
 * `ENGINE_PATTERNS` and `_normalize_engine`: the three displacement
 * rewrites, applied in order, each one `re.sub` over the whole text.
 *
 *   1. `\b(\d{3,4})CC\b`  -> `int(group) / 1000` printed with one decimal, then `L`;
 *   2. `\b(\d),(\d)\b`    -> `\1.\2`;
 *   3. `\b(\d\.\d)(?=\s+[A-Z])` -> `\1L`.
 *
 * Line numbers below refer to `app/services/normalization_service.py`.
 */
module Engine {
  import opened CharClass
  import opened Wrappers
  import opened Rewrite
  import Litres

  /** Lines 94-101, in their order. */
  const EngineRules: seq<Rule> := [CcToLitres, DecimalComma, LitreSuffix]

  /** None of the displacement patterns reads or writes a comma next to whitespace. */
  lemma EngineRulesCommaFree()
    ensures forall k :: 0 <= k < |EngineRules| ==> CommaFree(EngineRules[k])
  {
  }

  /** Lines 187-194: each pattern rewrites the result of the one before. */
  method NormalizeEngine(text: string) returns (r: string)
    ensures r == ApplyRules(text, EngineRules)
  {
    r := text;
    for i := 0 to |EngineRules|
      invariant r == ApplyRules(text, EngineRules[..i])
    {
      assert EngineRules[..i + 1][..i] == EngineRules[..i];
      r := Sub(r, EngineRules[i]);
    }
    assert EngineRules[..|EngineRules|] == EngineRules;
  }

  /** The engine step is the three passes, displacement in cubic centimetres first. */
  lemma EngineSteps(s: string)
    ensures ApplyRules(s, EngineRules) == Sub(Sub(Sub(s, CcToLitres), DecimalComma), LitreSuffix)
  {
    var r := EngineRules;
    assert r[..2][..1][..0] == [];
    assert r[..2][..1] == [CcToLitres];
    assert r[..2] == [CcToLitres, DecimalComma];
    assert ApplyRules(s, r[..2][..1]) == Sub(s, CcToLitres);
    assert ApplyRules(s, r[..2]) == Sub(Sub(s, CcToLitres), DecimalComma);
  }

  // ---------------------------------------------------------------------
  // Cubic centimetres to litres
  // ---------------------------------------------------------------------

  lemma DigitValue(c: char)
    requires IsDigit(c)
    ensures Litres.Digit(c as int - '0' as int) == c
  {
  }

  /** `int("AB00")` and `int("B00")`. */
  lemma HundredsValue(x: char, y: char)
    requires IsDigit(x) && IsDigit(y)
    ensures Litres.DigitsValue([x, y, '0', '0']) == 100 * (10 * (x as int - '0' as int) + (y as int - '0' as int))
    ensures Litres.DigitsValue([y, '0', '0']) == 100 * (y as int - '0' as int)
  {
    var a, b := x as int - '0' as int, y as int - '0' as int;
    assert [x][..0] == [];
    assert Litres.DigitsValue([x]) == a;
    assert [x, y][..1] == [x];
    assert Litres.DigitsValue([x, y]) == 10 * a + b;
    assert [x, y, '0'][..2] == [x, y];
    assert Litres.DigitsValue([x, y, '0']) == 10 * (10 * a + b);
    assert [x, y, '0', '0'][..3] == [x, y, '0'];
    assert [y][..0] == [];
    assert Litres.DigitsValue([y]) == b;
    assert [y, '0'][..1] == [y];
    assert Litres.DigitsValue([y, '0']) == 10 * b;
    assert [y, '0', '0'][..2] == [y, '0'];
  }

  /** Whole litres `a` and tenths `b` print as `a.bL`. */
  lemma LitresOfDigits(a: nat, b: nat)
    requires a < 10 && b < 10
    ensures Litres.LitresText(100 * (10 * a + b)) == [Litres.Digit(a), '.', Litres.Digit(b), 'L']
  {
    Litres.LitresOfHundreds(10 * a + b);
    assert (10 * a + b) / 10 == a && (10 * a + b) % 10 == b;
  }

  /** `\b` before the digits and after `CC`, and `CC` itself, for a match that ends at `e`. */
  lemma CcFrame(s: string, i: nat, e: nat)
    requires i < e && 2 <= e <= |s| && IsDigit(s[i]) && !WordAt(s, i - 1) && !WordAt(s, e)
    requires SameLetter(s[e - 2], 'C') && SameLetter(s[e - 1], 'C')
    ensures Boundary(s, i) && Boundary(s, e) && LitAt(s, e - 2, "CC")
  {
    UpperKeepsClass(s[e - 1]);
    UpperKeepsClass('C');
  }

  /** A whole-word `AB00CC` (any case of `CC`) becomes `A.BL`: `1600CC` gives `1.6L`. */
  lemma CcOfFourDigits(s: string, i: nat)
    requires i + 6 <= |s| && !WordAt(s, i - 1) && !WordAt(s, i + 6)
    requires IsDigit(s[i]) && IsDigit(s[i + 1]) && s[i + 2] == '0' && s[i + 3] == '0'
    requires SameLetter(s[i + 4], 'C') && SameLetter(s[i + 5], 'C')
    ensures Match(s, i, CcToLitres) == Some(Found(i + 6, [s[i], '.', s[i + 1], 'L']))
  {
    var a, b := s[i] as int - '0' as int, s[i + 1] as int - '0' as int;
    CcFrame(s, i, i + 6);
    assert DigitsThenCc(s, i, 4);
    assert s[i..i + 4] == [s[i], s[i + 1], '0', '0'];
    HundredsValue(s[i], s[i + 1]);
    LitresOfDigits(a, b);
    DigitValue(s[i]);
    DigitValue(s[i + 1]);
  }

  /** A whole-word `B00CC` becomes `0.BL`: `600CC` gives `0.6L`. */
  lemma CcOfThreeDigits(s: string, i: nat)
    requires i + 5 <= |s| && !WordAt(s, i - 1) && !WordAt(s, i + 5)
    requires IsDigit(s[i]) && s[i + 1] == '0' && s[i + 2] == '0'
    requires SameLetter(s[i + 3], 'C') && SameLetter(s[i + 4], 'C')
    ensures Match(s, i, CcToLitres) == Some(Found(i + 5, ['0', '.', s[i], 'L']))
  {
    var b := s[i] as int - '0' as int;
    CcFrame(s, i, i + 5);
    assert !IsDigit(s[i + 3]);
    assert !DigitsThenCc(s, i, 4);
    assert DigitsThenCc(s, i, 3);
    assert s[i..i + 3] == [s[i], '0', '0'];
    HundredsValue('0', s[i]);
    LitresOfDigits(0, b);
    DigitValue(s[i]);
  }

  // ---------------------------------------------------------------------
  // Text the engine step leaves alone
  // ---------------------------------------------------------------------

  /** Every displacement pattern starts with a digit. */
  lemma EngineMatchStartsWithDigit(s: string, i: nat, rule: Rule)
    requires i <= |s| && rule in EngineRules
    requires Match(s, i, rule).Some?
    ensures i < |s| && IsDigit(s[i])
  {
  }

  /** Without a digit there is nothing to rewrite: each pass copies the text. */
  lemma EngineWithoutDigits(s: string)
    requires forall k :: 0 <= k < |s| ==> !IsDigit(s[k])
    ensures ApplyRules(s, EngineRules) == s
  {
    forall rule, k | rule in EngineRules && 0 <= k < |s|
      ensures Match(s, k, rule).None?
    {
      if Match(s, k, rule).Some? {
        EngineMatchStartsWithDigit(s, k, rule);
      }
    }
    SubFromNoMatch(s, CcToLitres, 0);
    SubFromNoMatch(s, DecimalComma, 0);
    SubFromNoMatch(s, LitreSuffix, 0);
    EngineSteps(s);
  }

  // ---------------------------------------------------------------------
  // The three cases the pattern comments name
  // ---------------------------------------------------------------------

  /** `1600CC` becomes `1.6L`. */
  lemma EngineOfCc()
    ensures ApplyRules("1600CC", EngineRules) == "1.6L"
  {
    var s, t := "1600CC", "1.6L";
    CcOfFourDigits(s, 0);
    assert SubFrom(s, CcToLitres, 6) == [];
    assert Sub(s, CcToLitres) == t;
    forall k | 0 <= k < |t|
      ensures Match(t, k, DecimalComma).None? && Match(t, k, LitreSuffix).None?
    {
    }
    SubFromNoMatch(t, DecimalComma, 0);
    SubFromNoMatch(t, LitreSuffix, 0);
    EngineSteps(s);
  }

  /** `1.6` followed by whitespace and a letter gains the `L`: `1.6 X` becomes `1.6L X`. */
  lemma EngineAddsLitres()
    ensures ApplyRules("1.6 X", EngineRules) == "1.6L X"
  {
    EngineAddsLitresTo('1', '6', " ", "X");
    assert ['1', '.', '6'] + " " + "X" == "1.6 X";
    assert ['1', '.', '6', 'L'] + " " + "X" == "1.6L X";
  }

  /**
   * Any one-decimal figure at the start of a text, followed by whitespace and
   * then a letter, gains the `L`, and nothing else changes as long as no digit
   * follows: `1.6 X` is one instance.
   */
  lemma EngineAddsLitresTo(a: char, b: char, sp: string, w: string)
    requires IsDigit(a) && IsDigit(b)
    requires sp != [] && forall k :: 0 <= k < |sp| ==> IsSpace(sp[k])
    requires w != [] && IsAsciiLetter(w[0]) && forall k :: 0 <= k < |w| ==> !IsDigit(w[k])
    ensures ApplyRules([a, '.', b] + sp + w, EngineRules) == [a, '.', b, 'L'] + sp + w
  {
    var s := [a, '.', b] + sp + w;
    DigitsOnlyInFigure(a, b, sp, w);
    AddsLitresToSkipsFirstTwo(s);
    AddsLitresToSuffix(a, b, sp, w);
    EngineSteps(s);
  }

  /** In the text `EngineAddsLitresTo` speaks of, the digits are the first and the third character. */
  lemma DigitsOnlyInFigure(a: char, b: char, sp: string, w: string)
    requires IsDigit(a) && IsDigit(b)
    requires sp != [] && forall k :: 0 <= k < |sp| ==> IsSpace(sp[k])
    requires w != [] && IsAsciiLetter(w[0]) && forall k :: 0 <= k < |w| ==> !IsDigit(w[k])
    ensures var s := [a, '.', b] + sp + w;
      && |s| >= 5 && s[..3] == [a, '.', b] && s[3..] == sp + w
      && IsSpace(s[3]) && SkipSpaces(s, 3) == 3 + |sp| && s[3 + |sp|] == w[0]
      && forall k :: 0 <= k < |s| && k != 0 && k != 2 ==> !IsDigit(s[k])
  {
    var s := [a, '.', b] + sp + w;
    assert forall k :: 3 <= k < 3 + |sp| ==> s[k] == sp[k - 3];
    assert forall k :: 3 + |sp| <= k < |s| ==> s[k] == w[k - 3 - |sp|];
    SkipSpacesTo(s, 3, 3 + |sp|);
  }

  lemma AddsLitresToSkipsFirstTwo(s: string)
    requires |s| >= 4 && IsDigit(s[0]) && s[1] == '.' && IsDigit(s[2]) && IsSpace(s[3])
    requires forall k :: 0 <= k < |s| && k != 0 && k != 2 ==> !IsDigit(s[k])
    ensures Sub(Sub(s, CcToLitres), DecimalComma) == s
  {
    forall rule, k | (rule == CcToLitres || rule == DecimalComma) && 0 <= k < |s|
      ensures Match(s, k, rule).None?
    {
      if Match(s, k, rule).Some? {
        EngineMatchStartsWithDigit(s, k, rule);
      }
    }
    SubFromNoMatch(s, CcToLitres, 0);
    SubFromNoMatch(s, DecimalComma, 0);
  }

  lemma AddsLitresToSuffix(a: char, b: char, sp: string, w: string)
    requires var s := [a, '.', b] + sp + w;
      && |s| >= 5 && s[..3] == [a, '.', b] && s[3..] == sp + w
      && IsDigit(a) && IsDigit(b) && IsSpace(s[3]) && SkipSpaces(s, 3) == 3 + |sp|
      && w != [] && s[3 + |sp|] == w[0] && IsAsciiLetter(w[0])
      && forall k :: 0 <= k < |s| && k != 0 && k != 2 ==> !IsDigit(s[k])
    ensures Sub([a, '.', b] + sp + w, LitreSuffix) == [a, '.', b, 'L'] + sp + w
  {
    var s := [a, '.', b] + sp + w;
    assert s[0] == a && s[1] == '.' && s[2] == b;
    assert s[0..3] + "L" == [a, '.', b, 'L'];
    assert !WordAt(s, -1) && WordAt(s, 0);
    assert Boundary(s, 0);
    assert Match(s, 0, LitreSuffix) == Some(Found(3, [a, '.', b, 'L']));
    SubFromStep(s, LitreSuffix, 0);
    forall k | 3 <= k < |s|
      ensures Match(s, k, LitreSuffix).None?
    {
      if Match(s, k, LitreSuffix).Some? {
        EngineMatchStartsWithDigit(s, k, LitreSuffix);
      }
    }
    SubFromNoMatch(s, LitreSuffix, 3);
    assert [a, '.', b, 'L'] + (sp + w) == [a, '.', b, 'L'] + sp + w;
  }

  /** A displacement already in litres is left as it is. */
  lemma EngineKeepsLitres()
    ensures ApplyRules("1.6L", EngineRules) == "1.6L"
  {
    var s := "1.6L";
    forall rule, k | rule in EngineRules && 0 <= k < |s|
      ensures Match(s, k, rule).None?
    {
    }
    SubFromNoMatch(s, CcToLitres, 0);
    SubFromNoMatch(s, DecimalComma, 0);
    SubFromNoMatch(s, LitreSuffix, 0);
    EngineSteps(s);
  }
}
