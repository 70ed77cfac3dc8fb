/**
 * Rewrites see one comma-separated field at a time.
 *
 * No pattern of the normaliser can match across a `", "` separator, and the
 * `\b` on either side of the separator reads the same as at the ends of a
 * field on its own. So on a `", "`-joined text every `re.sub` pass works
 * field by field, and on a field that is a single word a synonym pass
 * either replaces the whole word or leaves it as it is.
 */
module Fields {
  import opened CharClass
  import opened Wrappers
  import opened Rewrite

  // ---------------------------------------------------------------------
  // Reading past a prefix that ends in a non-word character
  // ---------------------------------------------------------------------

  /** A match found in `b`, moved to where `b` sits inside `p + b`. */
  function Shifted(m: Option<Found>, d: nat): Option<Found> {
    match m
    case Some(f) => Some(Found(f.end + d, f.text))
    case None => None
  }

  predicate EndsOutsideWord(p: string) {
    p == [] || !IsWordChar(p[|p| - 1])
  }

  lemma LitAtShift(p: string, b: string, k: nat, w: string)
    ensures LitAt(p + b, |p| + k, w) <==> LitAt(b, k, w)
  {
    var s := p + b;
    if |p| + k + |w| <= |s| {
      assert forall j :: |p| + k <= j < |p| + k + |w| ==> s[j] == b[j - |p|];
    }
  }

  lemma {:induction false} SkipSpacesShift(p: string, b: string, k: nat)
    requires k <= |b|
    ensures SkipSpaces(p + b, |p| + k) == |p| + SkipSpaces(b, k)
    decreases |b| - k
  {
    if k < |b| {
      assert (p + b)[|p| + k] == b[k];
      if IsSpace(b[k]) {
        SkipSpacesShift(p, b, k + 1);
      }
    }
  }

  lemma BoundaryShift(p: string, b: string, k: nat)
    requires EndsOutsideWord(p)
    ensures Boundary(p + b, |p| + k) == Boundary(b, k)
  {
    var s := p + b;
    if k < |b| {
      assert s[|p| + k] == b[k];
    }
    if k > 0 && k - 1 < |b| {
      assert s[|p| + k - 1] == b[k - 1];
    }
  }

  lemma WordEndShift(p: string, b: string, k: nat, w: Phrase)
    requires k <= |b|
    ensures PatternEnd(p + b, |p| + k, Word(w)) ==
      if LitAt(b, k, w) then Some(|p| + k + |w|) else None
  {
    LitAtShift(p, b, k, w);
  }

  /** After the first literal of a spaced pattern: the whitespace skipped and the second literal. */
  lemma SpacedTailShift(p: string, b: string, i: nat, y: Phrase)
    requires i <= |b|
    ensures SkipSpaces(p + b, |p| + i) == |p| + SkipSpaces(b, i)
    ensures LitAt(p + b, |p| + SkipSpaces(b, i), y) <==> LitAt(b, SkipSpaces(b, i), y)
  {
    SkipSpacesShift(p, b, i);
    LitAtShift(p, b, SkipSpaces(b, i), y);
  }

  lemma SpacedEndShift(p: string, b: string, k: nat, x: Phrase, y: Phrase)
    requires k <= |b|
    ensures PatternEnd(p + b, |p| + k, Spaced(x, y)) ==
      match PatternEnd(b, k, Spaced(x, y))
      case Some(e) => Some(|p| + e)
      case None => None
  {
    LitAtShift(p, b, k, x);
    if LitAt(b, k, x) {
      SpacedTailShift(p, b, k + |x|, y);
    }
    SpacedEndMoved(p + b, |p| + k, b, k, |p|, x, y);
  }

  /**
   * Two texts that agree on both words of a spaced pattern, at positions `d`
   * apart, agree on where it ends.
   */
  lemma SpacedEndMoved(s: string, i: nat, t: string, k: nat, d: nat, x: Phrase, y: Phrase)
    requires i <= |s| && k <= |t|
    requires LitAt(s, i, x) == LitAt(t, k, x)
    requires LitAt(t, k, x) ==>
      && SkipSpaces(s, i + |x|) == SkipSpaces(t, k + |x|) + d
      && LitAt(s, SkipSpaces(s, i + |x|), y) == LitAt(t, SkipSpaces(t, k + |x|), y)
    ensures PatternEnd(s, i, Spaced(x, y)) ==
      match PatternEnd(t, k, Spaced(x, y))
      case Some(e) => Some(e + d)
      case None => None
  {
  }

  lemma PatternEndShift(p: string, b: string, k: nat, pat: Pattern)
    requires k <= |b|
    ensures PatternEnd(p + b, |p| + k, pat) ==
      match PatternEnd(b, k, pat)
      case Some(e) => Some(|p| + e)
      case None => None
  {
    match pat
    case Word(w) => WordEndShift(p, b, k, w);
    case Spaced(x, y) => SpacedEndShift(p, b, k, x, y);
  }

  /** A slice of `b` is the same slice of `p + b`, moved by `|p|`. */
  lemma SliceShift(p: string, b: string, i: nat, j: nat)
    requires i <= j <= |b|
    ensures (p + b)[|p| + i..|p| + j] == b[i..j]
  {
    var s := p + b;
    assert forall m :: i <= m < j ==> s[|p| + m] == b[m];
  }

  lemma DigitsThenCcShift(p: string, b: string, k: nat, n: nat)
    requires EndsOutsideWord(p)
    ensures DigitsThenCc(p + b, |p| + k, n) == DigitsThenCc(b, k, n)
    ensures k + n <= |b| ==> (p + b)[|p| + k..|p| + k + n] == b[k..k + n]
  {
    DigitsThenCcFound(p, b, k, n);
    if k + n <= |b| {
      SliceShift(p, b, k, k + n);
    }
  }

  lemma DigitsThenCcFound(p: string, b: string, k: nat, n: nat)
    requires EndsOutsideWord(p)
    ensures DigitsThenCc(p + b, |p| + k, n) == DigitsThenCc(b, k, n)
  {
    if k + n + 2 <= |b| {
      LitAtShift(p, b, k + n, "CC");
      BoundaryShift(p, b, k + n + 2);
      DigitsShift(p, b, k, n);
      DigitsThenCcMoved(p + b, |p| + k, b, k, n);
    }
  }

  /** Texts that agree on the digits, the `CC` and the boundary after it agree on the match. */
  lemma DigitsThenCcMoved(s: string, i: nat, t: string, k: nat, n: nat)
    requires |s| - i == |t| - k
    requires LitAt(s, i + n, "CC") == LitAt(t, k + n, "CC")
    requires Boundary(s, i + n + 2) == Boundary(t, k + n + 2)
    requires k + n <= |t| ==>
      (forall m :: i <= m < i + n ==> IsDigit(s[m])) == (forall m :: k <= m < k + n ==> IsDigit(t[m]))
    ensures DigitsThenCc(s, i, n) == DigitsThenCc(t, k, n)
  {
  }

  lemma DigitsShift(p: string, b: string, k: nat, n: nat)
    requires k + n <= |b|
    ensures (forall m :: |p| + k <= m < |p| + k + n ==> IsDigit((p + b)[m]))
        <==> (forall m :: k <= m < k + n ==> IsDigit(b[m]))
  {
    var s := p + b;
    assert forall m :: k <= m < k + n ==> s[|p| + m] == b[m];
  }

  lemma DecimalCommaShift(p: string, b: string, k: nat)
    requires k <= |b| && EndsOutsideWord(p)
    ensures Match(p + b, |p| + k, DecimalComma) == Shifted(Match(b, k, DecimalComma), |p|)
  {
    var s := p + b;
    BoundaryShift(p, b, k);
    BoundaryShift(p, b, k + 3);
    if k + 3 <= |b| {
      assert s[|p| + k] == b[k] && s[|p| + k + 1] == b[k + 1] && s[|p| + k + 2] == b[k + 2];
    }
  }

  /** The characters `\b(\d\.\d)(?=\s+[A-Z])` reads, seen from `b` and from `p + b`. */
  lemma LitreSuffixWindowShift(p: string, b: string, k: nat)
    requires k + 4 <= |b|
    ensures var s, i := p + b, |p| + k;
      && s[i] == b[k] && s[i + 1] == b[k + 1] && s[i + 2] == b[k + 2] && s[i + 3] == b[k + 3]
      && s[i..i + 3] == b[k..k + 3]
      && SkipSpaces(s, i + 3) == |p| + SkipSpaces(b, k + 3)
      && (SkipSpaces(b, k + 3) < |b| ==> s[|p| + SkipSpaces(b, k + 3)] == b[SkipSpaces(b, k + 3)])
  {
    var s := p + b;
    SkipSpacesShift(p, b, k + 3);
    var j := SkipSpaces(b, k + 3);
    if j < |b| {
      assert s[|p| + j] == b[j];
    }
    assert s[|p| + k..|p| + k + 3] == b[k..k + 3];
  }

  lemma LitreSuffixShift(p: string, b: string, k: nat)
    requires k <= |b| && EndsOutsideWord(p)
    ensures Match(p + b, |p| + k, LitreSuffix) == Shifted(Match(b, k, LitreSuffix), |p|)
  {
    BoundaryShift(p, b, k);
    if k + 4 <= |b| {
      LitreSuffixWindowShift(p, b, k);
    }
  }

  lemma CcShift(p: string, b: string, k: nat)
    requires k <= |b| && EndsOutsideWord(p)
    ensures Match(p + b, |p| + k, CcToLitres) == Shifted(Match(b, k, CcToLitres), |p|)
  {
    BoundaryShift(p, b, k);
    DigitsThenCcShift(p, b, k, 4);
    DigitsThenCcShift(p, b, k, 3);
    CcMoved(p + b, |p| + k, b, k);
  }

  /** Texts that agree on the boundary, the digits and the `CC` agree on the displacement match. */
  lemma CcMoved(s: string, i: nat, t: string, k: nat)
    requires k <= i <= |s| && |s| - i == |t| - k
    requires Boundary(s, i) == Boundary(t, k)
    requires DigitsThenCc(s, i, 4) == DigitsThenCc(t, k, 4)
    requires DigitsThenCc(s, i, 3) == DigitsThenCc(t, k, 3)
    requires k + 4 <= |t| ==> s[i..i + 4] == t[k..k + 4]
    requires k + 3 <= |t| ==> s[i..i + 3] == t[k..k + 3]
    ensures Match(s, i, CcToLitres) == Shifted(Match(t, k, CcToLitres), i - k)
  {
  }

  lemma SynonymShift(p: string, b: string, k: nat, pat: Pattern, r: string)
    requires k <= |b| && EndsOutsideWord(p)
    ensures Match(p + b, |p| + k, Synonym(pat, r)) == Shifted(Match(b, k, Synonym(pat, r)), |p|)
  {
    BoundaryShift(p, b, k);
    PatternEndShift(p, b, k, pat);
    if PatternEnd(b, k, pat).Some? {
      BoundaryShift(p, b, PatternEnd(b, k, pat).value);
    }
  }

  /** A match in `b` is found at the same place in `p + b`, and nowhere else. */
  lemma MatchShift(p: string, b: string, k: nat, rule: Rule)
    requires k <= |b| && EndsOutsideWord(p)
    ensures Match(p + b, |p| + k, rule) == Shifted(Match(b, k, rule), |p|)
  {
    match rule
    case Synonym(pat, r) => SynonymShift(p, b, k, pat, r);
    case CcToLitres => CcShift(p, b, k);
    case DecimalComma => DecimalCommaShift(p, b, k);
    case LitreSuffix => LitreSuffixShift(p, b, k);
  }

  /** One step of both scans: the same text is emitted and both resume at the same place. */
  lemma ScanShiftStep(s: string, b: string, d: nat, m1: seq<Option<Found>>, m2: seq<Option<Found>>, k: nat)
    returns (n: nat, out: string)
    requires |s| == d + |b| && |m1| == |s| && Ahead(m1) && |m2| == |b| && Ahead(m2) && k < |b|
    requires m1[d + k] == Shifted(m2[k], d) && s[d + k] == b[k]
    ensures k < n <= |b|
    ensures Scan(s, m1, d + k) == out + Scan(s, m1, d + n)
    ensures Scan(b, m2, k) == out + Scan(b, m2, n)
  {
    match m2[k]
    case Some(f) =>
      n, out := f.end, f.text;
    case None =>
      n, out := k + 1, [b[k]];
  }

  /** Two scans whose match tables agree up to the shift `|p|` produce the same text. */
  lemma {:induction false} ScanShift(p: string, b: string, m1: seq<Option<Found>>, m2: seq<Option<Found>>, k: nat)
    requires |m1| == |p + b| && Ahead(m1) && |m2| == |b| && Ahead(m2) && k <= |b|
    requires forall j :: k <= j < |b| ==> m1[|p| + j] == Shifted(m2[j], |p|)
    ensures Scan(p + b, m1, |p| + k) == Scan(b, m2, k)
    decreases |b| - k
  {
    if k < |b| {
      assert (p + b)[|p| + k] == b[k];
      var n, out := ScanShiftStep(p + b, b, |p|, m1, m2, k);
      ScanShift(p, b, m1, m2, n);
    }
  }

  /** After a prefix ending outside a word, `re.sub` carries on exactly as on the rest alone. */
  lemma SubFromShift(p: string, b: string, rule: Rule, k: nat)
    requires k <= |b| && EndsOutsideWord(p)
    ensures SubFrom(p + b, rule, |p| + k) == SubFrom(b, rule, k)
  {
    var m1, m2 := Matches(p + b, rule), Matches(b, rule);
    forall j | k <= j < |b|
      ensures m1[|p| + j] == Shifted(m2[j], |p|)
    {
      MatchShift(p, b, j, rule);
    }
    ScanShift(p, b, m1, m2, k);
  }

  // ---------------------------------------------------------------------
  // Reading up to a `", "` separator
  // ---------------------------------------------------------------------

  /** What follows a field: a comma, then a space. */
  predicate Separated(t: string) {
    |t| >= 2 && t[0] == ',' && t[1] == ' '
  }

  lemma LitAtPrefix(a: string, t: string, i: nat, w: string)
    requires Separated(t) && ',' !in w && i <= |a|
    ensures LitAt(a + t, i, w) <==> LitAt(a, i, w)
  {
    var s := a + t;
    if i + |w| <= |a| {
      assert forall j :: i <= j < i + |w| ==> s[j] == a[j];
    } else if i + |w| <= |s| {
      var m := |a| - i;
      assert w[m] in w;
      UpperKeepsClass(w[m]);
      assert s[i + m] == ',';
    }
  }

  lemma {:induction false} SkipSpacesPrefix(a: string, t: string, i: nat)
    requires Separated(t) && i <= |a|
    ensures SkipSpaces(a + t, i) == SkipSpaces(a, i)
    decreases |a| - i
  {
    if i < |a| {
      assert (a + t)[i] == a[i];
      if IsSpace(a[i]) {
        SkipSpacesPrefix(a, t, i + 1);
      }
    } else {
      assert (a + t)[i] == ',';
    }
  }

  lemma BoundaryPrefix(a: string, t: string, e: nat)
    requires Separated(t) && e <= |a|
    ensures Boundary(a + t, e) == Boundary(a, e)
  {
    var s := a + t;
    if e < |a| {
      assert s[e] == a[e];
    } else {
      assert s[e] == ',';
    }
    if 0 < e {
      assert s[e - 1] == a[e - 1];
    }
  }

  lemma SpacedTailPrefix(a: string, t: string, j: nat, y: Phrase)
    requires Separated(t) && j <= |a| && ',' !in y
    ensures SkipSpaces(a + t, j) == SkipSpaces(a, j)
    ensures LitAt(a + t, SkipSpaces(a, j), y) <==> LitAt(a, SkipSpaces(a, j), y)
  {
    SkipSpacesPrefix(a, t, j);
    LitAtPrefix(a, t, SkipSpaces(a, j), y);
  }

  lemma SpacedEndPrefix(a: string, t: string, i: nat, x: Phrase, y: Phrase)
    requires Separated(t) && i <= |a| && ',' !in x && ',' !in y
    ensures PatternEnd(a + t, i, Spaced(x, y)) == PatternEnd(a, i, Spaced(x, y))
  {
    LitAtPrefix(a, t, i, x);
    if LitAt(a, i, x) {
      SpacedTailPrefix(a, t, i + |x|, y);
    }
    SpacedEndMoved(a + t, i, a, i, 0, x, y);
  }

  lemma PatternEndPrefix(a: string, t: string, i: nat, pat: Pattern)
    requires Separated(t) && i <= |a| && ',' !in pat.Letters()
    ensures PatternEnd(a + t, i, pat) == PatternEnd(a, i, pat)
  {
    match pat
    case Word(w) =>
      LitAtPrefix(a, t, i, w);
    case Spaced(x, y) =>
      assert forall c :: c in x ==> c in x + y;
      assert forall c :: c in y ==> c in x + y;
      SpacedEndPrefix(a, t, i, x, y);
  }

  lemma DigitsThenCcPrefix(a: string, t: string, i: nat, n: nat)
    requires Separated(t) && i < |a|
    ensures DigitsThenCc(a + t, i, n) == DigitsThenCc(a, i, n)
    ensures i + n <= |a| ==> (a + t)[i..i + n] == a[i..i + n]
  {
    var s := a + t;
    if i + n + 2 <= |a| {
      assert forall m :: i <= m < i + n ==> s[m] == a[m];
      LitAtPrefix(a, t, i + n, "CC");
      BoundaryPrefix(a, t, i + n + 2);
    } else if i + n <= |a| {
      LitAtPrefix(a, t, i + n, "CC");
    } else {
      assert !IsDigit(s[|a|]);
    }
  }

  lemma DecimalCommaPrefix(a: string, t: string, i: nat)
    requires Separated(t) && i < |a|
    ensures Match(a + t, i, DecimalComma) == Match(a, i, DecimalComma)
  {
    var s := a + t;
    BoundaryPrefix(a, t, i);
    assert s[i] == a[i];
    if i + 3 <= |a| {
      assert s[i + 1] == a[i + 1] && s[i + 2] == a[i + 2];
      BoundaryPrefix(a, t, i + 3);
    } else if i + 2 == |a| {
      assert s[i + 2] == ',';
    } else {
      assert s[i + 2] == ' ';
    }
  }

  lemma LitreSuffixPrefix(a: string, t: string, i: nat)
    requires Separated(t) && i < |a|
    ensures Match(a + t, i, LitreSuffix) == Match(a, i, LitreSuffix)
  {
    var s := a + t;
    BoundaryPrefix(a, t, i);
    assert s[i] == a[i];
    if i + 4 <= |a| {
      assert s[i + 1] == a[i + 1] && s[i + 2] == a[i + 2] && s[i + 3] == a[i + 3];
      SkipSpacesPrefix(a, t, i + 3);
      var j := SkipSpaces(a, i + 3);
      if j < |a| {
        assert s[j] == a[j];
      } else {
        assert s[j] == ',';
      }
      assert s[i..i + 3] == a[i..i + 3];
    } else {
      assert s[|a|] == ',';
    }
  }

  lemma CcPrefix(a: string, t: string, i: nat)
    requires Separated(t) && i < |a|
    ensures Match(a + t, i, CcToLitres) == Match(a, i, CcToLitres)
  {
    BoundaryPrefix(a, t, i);
    DigitsThenCcPrefix(a, t, i, 4);
    DigitsThenCcPrefix(a, t, i, 3);
  }

  lemma SynonymPrefix(a: string, t: string, i: nat, pat: Pattern, r: string)
    requires Separated(t) && i < |a| && ',' !in pat.Letters()
    ensures Match(a + t, i, Synonym(pat, r)) == Match(a, i, Synonym(pat, r))
  {
    BoundaryPrefix(a, t, i);
    PatternEndPrefix(a, t, i, pat);
    if PatternEnd(a, i, pat).Some? {
      BoundaryPrefix(a, t, PatternEnd(a, i, pat).value);
    }
  }

  /** A match inside a field is found at the same place when the field is followed by `", "`. */
  lemma MatchPrefix(a: string, t: string, i: nat, rule: Rule)
    requires Separated(t) && i < |a| && CommaFree(rule)
    ensures Match(a + t, i, rule) == Match(a, i, rule)
  {
    match rule
    case Synonym(pat, r) => SynonymPrefix(a, t, i, pat, r);
    case CcToLitres => CcPrefix(a, t, i);
    case DecimalComma => DecimalCommaPrefix(a, t, i);
    case LitreSuffix => LitreSuffixPrefix(a, t, i);
  }

  /** One step of both scans over the field: the same text is emitted and both resume at the same place. */
  lemma ScanPrefixStep(a: string, t: string, m1: seq<Option<Found>>, m2: seq<Option<Found>>, i: nat)
    returns (n: nat, out: string)
    requires |m1| == |a + t| && Ahead(m1) && |m2| == |a| && Ahead(m2) && i < |a|
    requires m1[i] == m2[i]
    ensures i < n <= |a|
    ensures Scan(a + t, m1, i) == out + Scan(a + t, m1, n)
    ensures Scan(a, m2, i) == out + Scan(a, m2, n)
  {
    match m2[i]
    case Some(f) =>
      n, out := f.end, f.text;
    case None =>
      n, out := i + 1, [a[i]];
      assert (a + t)[i] == a[i];
  }

  /** A scan over `a + t` whose matches agree with those of `a` before `|a|` first produces the scan of `a`. */
  lemma {:induction false} ScanPrefix(a: string, t: string, m1: seq<Option<Found>>, m2: seq<Option<Found>>, i: nat)
    requires |m1| == |a + t| && Ahead(m1) && |m2| == |a| && Ahead(m2) && i <= |a|
    requires forall j :: i <= j < |a| ==> m1[j] == m2[j]
    ensures Scan(a + t, m1, i) == Scan(a, m2, i) + Scan(a + t, m1, |a|)
    decreases |a| - i
  {
    if i < |a| {
      var n, out := ScanPrefixStep(a, t, m1, m2, i);
      ScanPrefix(a, t, m1, m2, n);
      assert out + (Scan(a, m2, n) + Scan(a + t, m1, |a|)) == (out + Scan(a, m2, n)) + Scan(a + t, m1, |a|);
    }
  }

  /** The scan over a field followed by `", "` first rewrites the field exactly as on its own. */
  lemma SubFromPrefix(a: string, t: string, rule: Rule, i: nat)
    requires Separated(t) && i <= |a| && CommaFree(rule)
    ensures SubFrom(a + t, rule, i) == SubFrom(a, rule, i) + SubFrom(a + t, rule, |a|)
  {
    var m1, m2 := Matches(a + t, rule), Matches(a, rule);
    forall j | i <= j < |a|
      ensures m1[j] == m2[j]
    {
      MatchPrefix(a, t, j, rule);
    }
    ScanPrefix(a, t, m1, m2, i);
  }

  /** No comma-free rule matches at a comma or at a space. */
  lemma MatchAtSeparator(s: string, i: nat, rule: Rule)
    requires i < |s| && (s[i] == ',' || s[i] == ' ') && CommaFree(rule)
    ensures Match(s, i, rule).None?
  {
    if Match(s, i, rule).Some? {
      match rule
      case Synonym(p, r) =>
        SynonymAvoidsCommas(s, i, p, r);
        assert false;
      case CcToLitres =>
        CcAvoidsCommas(s, i);
        assert false;
      case DecimalComma =>
        assert false;
      case LitreSuffix =>
        assert false;
    }
  }

  /** The scan copies a `", "` separator unchanged. */
  lemma SubFromSeparator(s: string, rule: Rule, i: nat)
    requires i + 2 <= |s| && s[i] == ',' && s[i + 1] == ' ' && CommaFree(rule)
    ensures SubFrom(s, rule, i) == ", " + SubFrom(s, rule, i + 2)
  {
    SubFromCopiesAtSeparator(s, rule, i);
    SubFromCopiesAtSeparator(s, rule, i + 1);
  }

  /** Where the text holds a comma or a space, the scan copies that one character. */
  lemma SubFromCopiesAtSeparator(s: string, rule: Rule, i: nat)
    requires i < |s| && (s[i] == ',' || s[i] == ' ') && CommaFree(rule)
    ensures SubFrom(s, rule, i) == [s[i]] + SubFrom(s, rule, i + 1)
  {
    MatchAtSeparator(s, i, rule);
    SubFromStep(s, rule, i);
  }

  /** Every pass rewrites the two sides of a `", "` separately. */
  lemma SubJoin(a: string, b: string, rule: Rule)
    requires CommaFree(rule)
    ensures Sub(a + ", " + b, rule) == Sub(a, rule) + ", " + Sub(b, rule)
  {
    var s := a + ", " + b;
    SubJoinField(a, b, rule);
    SubJoinRest(a, b, rule);
    assert Sub(a, rule) + (", " + Sub(b, rule)) == Sub(a, rule) + ", " + Sub(b, rule);
  }

  /** The scan over `a + ", " + b` first rewrites `a` as on its own. */
  lemma SubJoinField(a: string, b: string, rule: Rule)
    requires CommaFree(rule)
    ensures var s := a + ", " + b; Sub(s, rule) == Sub(a, rule) + SubFrom(s, rule, |a|)
  {
    var t := ", " + b;
    assert a + ", " + b == a + t;
    SubFromPrefix(a, t, rule, 0);
  }

  /** From the separator on, the scan copies `", "` and then rewrites `b` as on its own. */
  lemma SubJoinRest(a: string, b: string, rule: Rule)
    requires CommaFree(rule)
    ensures var s := a + ", " + b; SubFrom(s, rule, |a|) == ", " + Sub(b, rule)
  {
    var s := a + ", " + b;
    var p := a + ", ";
    assert s == p + b && |p| == |a| + 2;
    assert s[|a|] == ',' && s[|a| + 1] == ' ';
    SubFromSeparator(s, rule, |a|);
    SubFromShift(p, b, rule, 0);
  }


  /** A list of passes too rewrites the two sides of a `", "` separately. */
  lemma {:induction false} ApplyRulesJoin(a: string, b: string, rules: seq<Rule>)
    requires forall k :: 0 <= k < |rules| ==> CommaFree(rules[k])
    ensures ApplyRules(a + ", " + b, rules) == ApplyRules(a, rules) + ", " + ApplyRules(b, rules)
    decreases |rules|
  {
    if rules != [] {
      var init := rules[..|rules| - 1];
      ApplyRulesJoin(a, b, init);
      SubJoin(ApplyRules(a, init), ApplyRules(b, init), rules[|rules| - 1]);
    }
  }

  // ---------------------------------------------------------------------
  // A field that is a single word
  // ---------------------------------------------------------------------

  /** A non-empty run of word characters. */
  predicate OneWord(s: string) {
    s != [] && forall k :: 0 <= k < |s| ==> IsWordChar(s[k])
  }

  /** The whole of `s` is the pattern, up to case. */
  predicate Hits(s: string, p: Pattern) {
    |s| == |p.Letters()| && LitAt(s, 0, p.Letters())
  }

  lemma LitAtConcat(s: string, x: string, y: string)
    ensures LitAt(s, 0, x) && LitAt(s, |x|, y) <==> LitAt(s, 0, x + y)
  {
    if LitAt(s, 0, x + y) {
      assert forall k :: 0 <= k < |x| ==> (x + y)[k] == x[k];
      assert forall k :: 0 <= k < |y| ==> (x + y)[|x| + k] == y[k];
    }
  }

  /** Inside a single word `\b` holds only at the two ends. */
  lemma OneWordBoundary(s: string, i: nat)
    requires OneWord(s) && i <= |s|
    ensures Boundary(s, i) <==> i == 0 || i == |s|
  {
  }

  lemma OneWordPatternEnd(s: string, p: Pattern)
    requires OneWord(s)
    ensures PatternEnd(s, 0, p).Some? && PatternEnd(s, 0, p).value == |s| <==> Hits(s, p)
  {
    match p
    case Word(w) =>
    case Spaced(x, y) =>
      if LitAt(s, 0, x) && |x| < |s| {
        assert IsWordChar(s[|x|]);
        assert SkipSpaces(s, |x|) == |x|;
      }
      LitAtConcat(s, x, y);
  }

  /** On a single word a synonym pass yields the replacement when the word is the pattern, and the word otherwise. */
  lemma SubOnOneWord(s: string, p: Pattern, r: string)
    requires OneWord(s)
    ensures Sub(s, Synonym(p, r)) == if Hits(s, p) then r else s
  {
    var rule := Synonym(p, r);
    forall k | 1 <= k < |s|
      ensures Match(s, k, rule).None?
    {
      OneWordBoundary(s, k);
    }
    SubFromNoMatch(s, rule, 1);
    OneWordPatternEnd(s, p);
    OneWordBoundary(s, 0);
    var e := PatternEnd(s, 0, p);
    if e.Some? {
      OneWordBoundary(s, e.value);
    }
    SubFromStep(s, rule, 0);
    if Hits(s, p) {
      assert Match(s, 0, rule) == Some(Found(|s|, r));
      assert SubFrom(s, rule, 0) == r + SubFrom(s, rule, |s|);
    } else {
      assert Match(s, 0, rule).None?;
      assert SubFrom(s, rule, 0) == [s[0]] + SubFrom(s, rule, 1);
      assert [s[0]] + s[1..] == s;
    }
  }

  /** The rule leaves the single word `s` as it is. */
  predicate Fixes(s: string, rule: Rule) {
    rule.Synonym? && (!Hits(s, rule.pattern) || rule.replacement == s)
  }

  /** Passes that each leave a single word alone leave it alone together. */
  lemma {:induction false} ApplyRulesFixed(s: string, rules: seq<Rule>)
    requires OneWord(s)
    requires forall k :: 0 <= k < |rules| ==> Fixes(s, rules[k])
    ensures ApplyRules(s, rules) == s
    decreases |rules|
  {
    if rules != [] {
      ApplyRulesFixed(s, rules[..|rules| - 1]);
      var last := rules[|rules| - 1];
      SubOnOneWord(s, last.pattern, last.replacement);
    }
  }
}
