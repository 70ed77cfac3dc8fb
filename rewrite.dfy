/**
 * The regular-expression rewrites of the normaliser, written by hand.
 *
 * Every rewrite is a `re.sub(pattern, replacement, text, flags=re.IGNORECASE)`:
 * the text is scanned from the left; where the pattern matches, the match is
 * replaced and the scan resumes after it; elsewhere one character is copied
 * and the scan moves on by one. `\b` is always judged on the text being
 * scanned, never on the replacements already produced.
 */
module Rewrite {
  import opened CharClass
  import opened Wrappers
  import Litres

  /** Pattern text is never empty, so every match consumes at least one character. */
  type Phrase = s: string | |s| > 0 witness "X"

  /**
   * A whole-word synonym pattern: `\bW\b`, or `\bA\s*B\b` for the entries
   * that allow whitespace inside them (`4\s*PUERTAS`, `DOBLE\s*CABINA`, ...).
   * `\s*` is taken greedily; since `B` never starts with whitespace, giving
   * any of it back could not produce a match.
   */
  datatype Pattern = Word(w: Phrase) | Spaced(left: Phrase, right: Phrase)
  {
    function First(): char {
      match this
      case Word(w) => w[0]
      case Spaced(a, _) => a[0]
    }

    function Last(): char {
      match this
      case Word(w) => w[|w| - 1]
      case Spaced(_, b) => b[|b| - 1]
    }

    /** Every literal character of the pattern. */
    function Letters(): string {
      match this
      case Word(w) => w
      case Spaced(a, b) => a + b
    }
  }

  /** One `re.sub` pass: a synonym entry, or one of the three displacement patterns. */
  datatype Rule =
    | Synonym(pattern: Pattern, replacement: string)
    | CcToLitres     // \b(\d{3,4})CC\b       -> f"{int(g1)/1000:.1f}L"
    | DecimalComma   // \b(\d),(\d)\b         -> \1.\2
    | LitreSuffix    // \b(\d\.\d)(?=\s+[A-Z]) -> \1L

  /** A match found at some position: where it ends and the text that replaces it. */
  datatype Found = Found(end: nat, text: string)

  /** `s` holds `w` at position `i`, compared case-insensitively. */
  predicate LitAt(s: string, i: nat, w: string) {
    i + |w| <= |s| && forall k :: 0 <= k < |w| ==> SameLetter(s[i + k], w[k])
  }

  /** Where the body of a synonym pattern ends when it starts at `i` (the final `\b` aside). */
  function PatternEnd(s: string, i: nat, p: Pattern): (e: Option<nat>)
    requires i <= |s|
    ensures e.Some? ==> i < e.value <= |s|
  {
    match p
    case Word(w) => if LitAt(s, i, w) then Some(i + |w|) else None
    case Spaced(a, b) =>
      if LitAt(s, i, a) then
        var j := SkipSpaces(s, i + |a|);
        if LitAt(s, j, b) then Some(j + |b|) else None
      else None
  }

  /** `(\d{n})CC\b` at position `i`. */
  predicate DigitsThenCc(s: string, i: nat, n: nat) {
    && i + n + 2 <= |s|
    && (forall k :: i <= k < i + n ==> IsDigit(s[k]))
    && LitAt(s, i + n, "CC")
    && Boundary(s, i + n + 2)
  }

  /** The match of `rule` that starts at position `i` of `s`, if there is one. */
  function Match(s: string, i: nat, rule: Rule): (m: Option<Found>)
    requires i <= |s|
    ensures m.Some? ==> i < m.value.end <= |s|
  {
    if !Boundary(s, i) then None
    else match rule
      case Synonym(p, r) =>
        (match PatternEnd(s, i, p)
         case Some(e) => if Boundary(s, e) then Some(Found(e, r)) else None
         case None => None)
      case CcToLitres =>
        // \d{3,4} is greedy: four digits are tried before three
        if DigitsThenCc(s, i, 4) then Some(Found(i + 6, Litres.LitresText(Litres.DigitsValue(s[i..i + 4]))))
        else if DigitsThenCc(s, i, 3) then Some(Found(i + 5, Litres.LitresText(Litres.DigitsValue(s[i..i + 3]))))
        else None
      case DecimalComma =>
        if i + 3 <= |s| && IsDigit(s[i]) && s[i + 1] == ',' && IsDigit(s[i + 2]) && Boundary(s, i + 3)
        then Some(Found(i + 3, [s[i], '.', s[i + 2]]))
        else None
      case LitreSuffix =>
        if && i + 4 <= |s| && IsDigit(s[i]) && s[i + 1] == '.' && IsDigit(s[i + 2])
           && IsSpace(s[i + 3])
           && var j := SkipSpaces(s, i + 3); j < |s| && IsAsciiLetter(s[j])
        then Some(Found(i + 3, s[i..i + 3] + "L"))
        else None
  }

  /** Every match of the table starts before it ends, and ends within the text. */
  predicate Ahead(ms: seq<Option<Found>>) {
    forall i :: 0 <= i < |ms| && ms[i].Some? ==> i < ms[i].value.end <= |ms|
  }

  /** The match of `rule` at every position of `s`, whether or not the scan stops there. */
  function Matches(s: string, rule: Rule): (ms: seq<Option<Found>>)
    ensures |ms| == |s| && Ahead(ms)
    ensures forall i :: 0 <= i < |s| ==> ms[i] == Match(s, i, rule)
  {
    seq(|s|, i requires 0 <= i < |s| => Match(s, i, rule))
  }

  /**
   * The scan of `re.sub` standing at position `i`, given the match found at
   * each position: a match is replaced and the scan resumes at its end;
   * otherwise one character is copied.
   */
  function Scan(s: string, ms: seq<Option<Found>>, i: nat): string
    requires |ms| == |s| && Ahead(ms) && i <= |s|
    decreases |s| - i
  {
    if i == |s| then []
    else match ms[i]
      case Some(f) => f.text + Scan(s, ms, f.end)
      case None => [s[i]] + Scan(s, ms, i + 1)
  }

  /** `re.sub` of `rule` over `s`, with the scan standing at position `i`. */
  function SubFrom(s: string, rule: Rule, i: nat): string
    requires i <= |s|
  {
    Scan(s, Matches(s, rule), i)
  }

  /** `re.sub(pattern, replacement, s, flags=re.IGNORECASE)`. */
  function Sub(s: string, rule: Rule): string {
    SubFrom(s, rule, 0)
  }

  /** `for rule in rules: text = re.sub(rule, text)`, the loop of `_apply_mappings` and `_normalize_engine`. */
  function ApplyRules(s: string, rules: seq<Rule>): string
    decreases |rules|
  {
    if rules == [] then s
    else Sub(ApplyRules(s, rules[..|rules| - 1]), rules[|rules| - 1])
  }

  /** Applying a list of rules in two parts is applying the first part, then the second. */
  lemma {:induction false} ApplyRulesAppend(s: string, a: seq<Rule>, b: seq<Rule>)
    ensures ApplyRules(s, a + b) == ApplyRules(ApplyRules(s, a), b)
    decreases |b|
  {
    if b == [] {
      assert a + b == a;
    } else {
      var b' := b[..|b| - 1];
      assert (a + b)[..|a + b| - 1] == a + b';
      ApplyRulesAppend(s, a, b');
    }
  }

  /** Applying a list of rules that starts with `rule` is `re.sub` of `rule`, then the rest. */
  lemma ApplyRulesCons(s: string, rule: Rule, rest: seq<Rule>)
    ensures ApplyRules(s, [rule] + rest) == ApplyRules(Sub(s, rule), rest)
  {
    ApplyRulesAppend(s, [rule], rest);
    assert [rule][..0] == [];
  }

  /** Where no match starts between `j` and `i`, the scan copies that stretch and carries on at `i`. */
  lemma {:induction false} SubFromCopies(s: string, rule: Rule, j: nat, i: nat)
    requires j <= i <= |s|
    requires forall k :: j <= k < i ==> Match(s, k, rule).None?
    ensures SubFrom(s, rule, j) == s[j..i] + SubFrom(s, rule, i)
    decreases i - j
  {
    if j < i {
      SubFromCopyStep(s, rule, j);
      SubFromCopies(s, rule, j + 1, i);
      assert [s[j]] + s[j + 1..i] == s[j..i];
      AppendAssoc([s[j]], s[j + 1..i], SubFrom(s, rule, i));
    }
  }

  lemma SubFromCopyStep(s: string, rule: Rule, j: nat)
    requires j < |s| && Match(s, j, rule).None?
    ensures SubFrom(s, rule, j) == [s[j]] + SubFrom(s, rule, j + 1)
  {
    SubFromStep(s, rule, j);
  }

  /**
   * `re.sub` copies the text before the leftmost match, puts the replacement
   * in place of the match, and resumes the scan where the match ends.
   */
  lemma SubFirstMatch(s: string, rule: Rule, i: nat)
    requires i < |s| && Match(s, i, rule).Some?
    requires forall k :: 0 <= k < i ==> Match(s, k, rule).None?
    ensures Sub(s, rule) == s[..i] + Match(s, i, rule).value.text + SubFrom(s, rule, Match(s, i, rule).value.end)
  {
    SubFromCopies(s, rule, 0, i);
    SubFromStep(s, rule, i);
    var f := Match(s, i, rule).value;
    assert s[0..i] == s[..i];
    AppendAssoc(s[..i], f.text, SubFrom(s, rule, f.end));
  }

  /** One step of the scan. */
  lemma SubFromStep(s: string, rule: Rule, i: nat)
    requires i < |s|
    ensures SubFrom(s, rule, i) ==
      match Match(s, i, rule)
      case Some(f) => f.text + SubFrom(s, rule, f.end)
      case None => [s[i]] + SubFrom(s, rule, i + 1)
  {
  }

  lemma {:induction false} ScanNoMatch(s: string, ms: seq<Option<Found>>, i: nat)
    requires |ms| == |s| && Ahead(ms) && i <= |s|
    requires forall k :: i <= k < |s| ==> ms[k].None?
    ensures Scan(s, ms, i) == s[i..]
    decreases |s| - i
  {
    if i < |s| {
      ScanNoMatch(s, ms, i + 1);
      assert [s[i]] + s[i + 1..] == s[i..];
    }
  }

  /** Where no match starts, `re.sub` copies the text unchanged. */
  lemma SubFromNoMatch(s: string, rule: Rule, i: nat)
    requires i <= |s|
    requires forall k :: i <= k < |s| ==> Match(s, k, rule).None?
    ensures SubFrom(s, rule, i) == s[i..]
  {
    ScanNoMatch(s, Matches(s, rule), i);
  }

  /** A synonym whose pattern starts and ends with word characters only ever replaces whole words. */
  lemma SynonymMatchIsWholeWord(s: string, i: nat, p: Pattern, r: string)
    requires i <= |s|
    requires IsWordChar(p.First()) && IsWordChar(p.Last())
    requires Match(s, i, Synonym(p, r)).Some?
    ensures i < |s| && IsWordChar(s[i]) && !WordAt(s, i - 1)
    ensures var e := Match(s, i, Synonym(p, r)).value.end;
      IsWordChar(s[e - 1]) && !WordAt(s, e)
  {
    var e := PatternEnd(s, i, p).value;
    UpperKeepsClass(s[i]);
    UpperKeepsClass(p.First());
    UpperKeepsClass(s[e - 1]);
    UpperKeepsClass(p.Last());
    match p
    case Word(w) =>
      assert SameLetter(s[i + |w| - 1], w[|w| - 1]);
    case Spaced(a, b) =>
      var j := SkipSpaces(s, i + |a|);
      assert SameLetter(s[j + |b| - 1], b[|b| - 1]);
  }

  /** Every comma is directly followed by whitespace: what `", ".join(...)` leaves behind. */
  predicate CommasSpaced(s: string) {
    forall j :: 0 <= j < |s| && s[j] == ',' ==> j + 1 < |s| && IsSpace(s[j + 1])
  }

  /**
   * A rule that is safe on text whose commas are all followed by whitespace:
   * a synonym whose pattern starts on a non-space and whose pattern and
   * replacement hold no comma, or one of the displacement rules. The
   * decimal-comma rule qualifies although it reads a literal comma, because
   * it needs a digit right after that comma and so never matches such text
   * (`MatchAvoidsCommas`, `DecimalCommaNeverMatches`).
   */
  predicate CommaFree(rule: Rule) {
    match rule
    case Synonym(p, r) => !IsSpace(p.First()) && ',' !in p.Letters() && ',' !in r
    case _ => true
  }

  /** Text equal to `w` up to case holds a comma only where `w` does. */
  lemma LitAtNoComma(s: string, i: nat, w: string)
    requires LitAt(s, i, w) && ',' !in w
    ensures forall k :: i <= k < i + |w| ==> s[k] != ','
  {
    forall k | i <= k < i + |w|
      ensures s[k] != ','
    {
      assert SameLetter(s[k], w[k - i]) && w[k - i] in w;
      UpperKeepsClass(s[k]);
      UpperKeepsClass(w[k - i]);
    }
  }

  /** A synonym match starts on a non-space and spans no comma. */
  lemma SynonymAvoidsCommas(s: string, i: nat, p: Pattern, r: string)
    requires i <= |s| && CommaFree(Synonym(p, r))
    requires PatternEnd(s, i, p).Some?
    ensures i < |s| && !IsSpace(s[i])
    ensures forall k :: i <= k < PatternEnd(s, i, p).value ==> s[k] != ','
  {
    UpperKeepsClass(s[i]);
    UpperKeepsClass(p.First());
    match p
    case Word(w) =>
      assert SameLetter(s[i], w[0]);
      LitAtNoComma(s, i, w);
    case Spaced(a, b) =>
      assert SameLetter(s[i], a[0]);
      assert ',' !in a && ',' !in b by {
        assert p.Letters() == a + b;
      }
      SpacedAvoidsCommas(s, i, a, b);
  }

  /** Both words of a spaced synonym and the whitespace between them are comma-free. */
  lemma SpacedAvoidsCommas(s: string, i: nat, a: string, b: string)
    requires LitAt(s, i, a) && ',' !in a && ',' !in b
    requires LitAt(s, SkipSpaces(s, i + |a|), b)
    ensures forall k :: i <= k < SkipSpaces(s, i + |a|) + |b| ==> s[k] != ','
  {
    var j := SkipSpaces(s, i + |a|);
    LitAtNoComma(s, i, a);
    LitAtNoComma(s, j, b);
    assert !IsSpace(',');
  }

  /** A cubic-centimetre match is made of digits and `CC`. */
  lemma CcAvoidsCommas(s: string, i: nat)
    requires i <= |s| && Match(s, i, CcToLitres).Some?
    ensures i < |s| && !IsSpace(s[i])
    ensures forall k :: i <= k < Match(s, i, CcToLitres).value.end ==> s[k] != ','
  {
    var n := if DigitsThenCc(s, i, 4) then 4 else 3;
    assert DigitsThenCc(s, i, n);
    assert IsDigit(s[i]);
    LitAtNoComma(s, i + n, "CC");
  }

  /** On text whose commas are spaced, no match starts on whitespace or touches a comma. */
  lemma MatchAvoidsCommas(s: string, i: nat, rule: Rule)
    requires i <= |s| && CommasSpaced(s) && CommaFree(rule)
    requires Match(s, i, rule).Some?
    ensures i < |s| && !IsSpace(s[i])
    ensures forall k :: i <= k < Match(s, i, rule).value.end ==> s[k] != ','
    ensures ',' !in Match(s, i, rule).value.text
  {
    match rule
    case Synonym(p, r) =>
      SynonymAvoidsCommas(s, i, p, r);
    case CcToLitres =>
      CcAvoidsCommas(s, i);
    case DecimalComma =>
      assert false;
    case LitreSuffix =>
  }

  /** Prepending one character keeps commas spaced when a comma is followed by whitespace. */
  lemma ConsCommasSpaced(c: char, t: string)
    requires CommasSpaced(t)
    requires c == ',' ==> t != [] && IsSpace(t[0])
    ensures CommasSpaced([c] + t)
  {
    var u := [c] + t;
    forall j | 0 <= j < |u| && u[j] == ','
      ensures j + 1 < |u| && IsSpace(u[j + 1])
    {
      if j > 0 {
        assert u[j] == t[j - 1];
      }
    }
  }

  /** Prepending comma-free text keeps commas spaced. */
  lemma PrefixCommasSpaced(x: string, t: string)
    requires ',' !in x && CommasSpaced(t)
    ensures CommasSpaced(x + t)
  {
    var u := x + t;
    forall j | 0 <= j < |x|
      ensures u[j] != ','
    {
      assert u[j] == x[j] && x[j] in x;
    }
    forall j | |x| <= j < |u| && u[j] == ','
      ensures j + 1 < |u| && IsSpace(u[j + 1])
    {
      assert u[j] == t[j - |x|];
      assert u[j + 1] == t[j - |x| + 1];
    }
  }

  /** Every match in the table starts on a non-space, spans no comma and writes none. */
  predicate AvoidsCommas(s: string, ms: seq<Option<Found>>)
    requires |ms| == |s| && Ahead(ms)
  {
    forall i :: 0 <= i < |s| && ms[i].Some? ==>
      && !IsSpace(s[i])
      && (forall k :: i <= k < ms[i].value.end ==> s[k] != ',')
      && ',' !in ms[i].value.text
  }

  /** The scan from `i` emits `s[i]` first whenever `s[i]` is whitespace. */
  lemma ScanStartsWithSpace(s: string, ms: seq<Option<Found>>, i: nat)
    requires |ms| == |s| && Ahead(ms) && AvoidsCommas(s, ms)
    requires i < |s| && IsSpace(s[i])
    ensures Scan(s, ms, i) != [] && Scan(s, ms, i)[0] == s[i]
  {
  }

  /** A scan whose matches avoid commas leaves every comma of `s[i..]` followed by whitespace. */
  lemma {:induction false} ScanKeepsCommasSpaced(s: string, ms: seq<Option<Found>>, i: nat)
    requires |ms| == |s| && Ahead(ms) && AvoidsCommas(s, ms)
    requires i <= |s| && CommasSpaced(s)
    ensures CommasSpaced(Scan(s, ms, i))
    decreases |s| - i
  {
    if i < |s| {
      match ms[i]
      case Some(f) =>
        ScanKeepsCommasSpaced(s, ms, f.end);
        PrefixCommasSpaced(f.text, Scan(s, ms, f.end));
      case None =>
        ScanKeepsCommasSpaced(s, ms, i + 1);
        if s[i] == ',' {
          ScanStartsWithSpace(s, ms, i + 1);
        }
        ConsCommasSpaced(s[i], Scan(s, ms, i + 1));
    }
  }

  /** A comma-free rule leaves every comma of `s[i..]` followed by whitespace. */
  lemma SubFromKeepsCommasSpaced(s: string, rule: Rule, i: nat)
    requires i <= |s| && CommasSpaced(s) && CommaFree(rule)
    ensures CommasSpaced(SubFrom(s, rule, i))
  {
    var ms := Matches(s, rule);
    forall k | 0 <= k < |s| && ms[k].Some?
      ensures && !IsSpace(s[k])
              && (forall j :: k <= j < ms[k].value.end ==> s[j] != ',')
              && ',' !in ms[k].value.text
    {
      MatchAvoidsCommas(s, k, rule);
    }
    ScanKeepsCommasSpaced(s, ms, i);
  }

  /** A list of comma-free rules keeps every comma followed by whitespace. */
  lemma {:induction false} ApplyRulesKeepsCommasSpaced(s: string, rules: seq<Rule>)
    requires CommasSpaced(s)
    requires forall k :: 0 <= k < |rules| ==> CommaFree(rules[k])
    ensures CommasSpaced(ApplyRules(s, rules))
    decreases |rules|
  {
    if rules != [] {
      ApplyRulesKeepsCommasSpaced(s, rules[..|rules| - 1]);
      SubFromKeepsCommasSpaced(ApplyRules(s, rules[..|rules| - 1]), rules[|rules| - 1], 0);
    }
  }

  /** When every comma is followed by whitespace, the decimal-comma pattern never matches. */
  lemma DecimalCommaNeverMatches(s: string)
    requires CommasSpaced(s)
    ensures Sub(s, DecimalComma) == s
  {
    forall k | 0 <= k < |s|
      ensures Match(s, k, DecimalComma).None?
    {
    }
    SubFromNoMatch(s, DecimalComma, 0);
  }
}
