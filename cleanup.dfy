/**
 * The comma and whitespace passes that `normalize` applies in both modes:
 * the comma clean-up right after upper-casing and the whitespace clean-up at
 * the very end. Each regex is written out as the left-to-right scan `re.sub`
 * performs; none of them needs the text to the left of the scan position.
 *
 * Line numbers below refer to `app/services/normalization_service.py`.
 */
module Cleanup {
  import opened CharClass
  import opened Lexemes

  /** Greedy `\s*` from the start of `s` reaches a comma. */
  predicate CommaAhead(s: string) {
    var j := SkipSpaces(s, 0);
    j < |s| && s[j] == ','
  }

  /** `re.sub(r',\s*,', ',', s)`: one pass, so `",,,"` becomes `",,"`, not `","`. */
  function CollapseCommaPairs(s: string): (r: string)
    ensures s != [] ==> r != [] && r[0] == s[0]
    decreases |s|
  {
    if s == [] then []
    else if s[0] == ',' && CommaAhead(s[1..]) then
      [','] + CollapseCommaPairs(s[1..][SkipSpaces(s[1..], 0) + 1..])
    else [s[0]] + CollapseCommaPairs(s[1..])
  }

  /** `re.sub(r',\s*$', '', s)`: drops the first comma that only whitespace follows, and that whitespace. */
  function DropTrailingComma(s: string): (r: string)
    ensures r != [] ==> s != [] && r[0] == s[0]
    ensures s != [] && s[0] != ',' ==> r != []
  {
    if s == [] then []
    else if s[0] == ',' && SkipSpaces(s, 1) == |s| then []
    else [s[0]] + DropTrailingComma(s[1..])
  }

  /** `re.sub(r'^\s*,', '', s)`: drops a comma that only whitespace precedes, and that whitespace. */
  function DropLeadingComma(s: string): (r: string)
  {
    if CommaAhead(s) then s[SkipSpaces(s, 0) + 1..] else s
  }

  /** `re.sub(r'\s+', ' ', s)`: every run of whitespace becomes one space. */
  function CollapseSpaces(s: string): (r: string)
    ensures s == [] <==> r == []
    ensures s != [] ==> r[0] == if IsSpace(s[0]) then ' ' else s[0]
    decreases |s|
  {
    if s == [] then []
    else if IsSpace(s[0]) then [' '] + CollapseSpaces(s[SkipSpaces(s, 0)..])
    else [s[0]] + CollapseSpaces(s[1..])
  }

  /** `re.sub(r'\s*,\s*', ', ', s)`: each comma, with the whitespace around it, becomes `", "`. */
  function SpaceCommas(s: string): (r: string)
    ensures s == [] <==> r == []
    ensures s != [] ==> r[0] == if CommaAhead(s) then ',' else s[0]
    decreases |s|
  {
    if s == [] then []
    else if CommaAhead(s) then
      var j := SkipSpaces(s, 0);
      ", " + SpaceCommas(s[SkipSpaces(s, j + 1)..])
    else [s[0]] + SpaceCommas(s[1..])
  }

  /** Lines 134-136: the comma clean-up that follows upper-casing and stripping. */
  function TidyCommas(s: string): string {
    DropLeadingComma(DropTrailingComma(CollapseCommaPairs(s)))
  }

  /** Lines 153-155: the whitespace clean-up that ends `normalize`. */
  function TidySpaces(s: string): string {
    Strip(SpaceCommas(CollapseSpaces(s)))
  }

  // ---------------------------------------------------------------------
  // The shape of the final text
  // ---------------------------------------------------------------------

  /**
   * What the final clean-up guarantees: no whitespace at either end, no
   * whitespace but single spaces, every comma except a final one followed
   * by one space, and a space before a comma only as the space of a
   * preceding `", "` (the `", ,"` that an odd run of commas leaves).
   */
  predicate WellSpaced(t: string) {
    && (t != [] ==> !IsSpace(t[0]) && !IsSpace(t[|t| - 1]))
    && (forall j :: 0 <= j < |t| && IsSpace(t[j]) ==> t[j] == ' ')
    && (forall j :: 0 <= j < |t| - 1 && t[j] == ' ' ==> t[j + 1] != ' ')
    && (forall j :: 0 <= j < |t| - 1 && t[j] == ',' ==> t[j + 1] == ' ')
    && (forall j :: 0 < j < |t| && t[j] == ',' && t[j - 1] == ' ' ==> 1 < j && t[j - 2] == ',')
  }

  /** Whitespace only as single spaces, never two in a row. */
  predicate SingleSpaced(t: string) {
    forall j :: 0 <= j < |t| && IsSpace(t[j]) ==> t[j] == ' ' && (j + 1 < |t| ==> !IsSpace(t[j + 1]))
  }

  /** `WellSpaced` without the conditions on the two ends. */
  predicate CommaSpacedInside(t: string) {
    && (forall j :: 0 <= j < |t| && IsSpace(t[j]) ==> t[j] == ' ')
    && (forall j :: 0 <= j < |t| - 1 && t[j] == ' ' ==> t[j + 1] != ' ')
    && (forall j :: 0 <= j < |t| && t[j] == ',' ==> j + 1 < |t| && t[j + 1] == ' ')
    && (forall j :: 0 < j < |t| && t[j] == ',' && t[j - 1] == ' ' ==> 1 < j && t[j - 2] == ',')
  }

  lemma {:induction false} CollapseSpacesSingle(s: string)
    ensures SingleSpaced(CollapseSpaces(s))
    decreases |s|
  {
    if s != [] {
      if IsSpace(s[0]) {
        var k := SkipSpaces(s, 0);
        CollapseSpacesSingle(s[k..]);
        var t := CollapseSpaces(s[k..]);
        assert CollapseSpaces(s) == [' '] + t;
      } else {
        CollapseSpacesSingle(s[1..]);
        assert CollapseSpaces(s) == [s[0]] + CollapseSpaces(s[1..]);
      }
    }
  }

  lemma SingleSpacedSuffix(t: string, k: nat)
    requires SingleSpaced(t) && k <= |t|
    ensures SingleSpaced(t[k..])
  {
    var u := t[k..];
    forall j | 0 <= j < |u| && IsSpace(u[j])
      ensures u[j] == ' ' && (j + 1 < |u| ==> !IsSpace(u[j + 1]))
    {
      assert u[j] == t[k + j];
      if j + 1 < |u| {
        assert u[j + 1] == t[k + j + 1];
      }
    }
  }

  /** Prefixing one character that is neither a comma nor a space before a space or comma. */
  lemma ConsShape(c: char, rest: string)
    requires CommaSpacedInside(rest) && c != ','
    requires IsSpace(c) ==> c == ' ' && (rest != [] ==> !IsSpace(rest[0]) && rest[0] != ',')
    ensures CommaSpacedInside([c] + rest)
  {
    var t := [c] + rest;
    assert forall i :: 0 < i < |t| ==> t[i] == rest[i - 1];
    forall i | 0 <= i < |t| - 1 && t[i] == ' '
      ensures t[i + 1] != ' '
    {
      if i > 0 {
        assert t[i] == rest[i - 1];
      }
    }
    forall i | 0 < i < |t| && t[i] == ',' && t[i - 1] == ' '
      ensures 1 < i && t[i - 2] == ','
    {
      if i > 1 {
        assert t[i - 1] == rest[i - 2];
      }
    }
  }

  /** Prefixing `", "` to text that does not start with whitespace. */
  lemma CommaSpaceShape(rest: string)
    requires CommaSpacedInside(rest)
    requires rest != [] ==> !IsSpace(rest[0])
    ensures CommaSpacedInside(", " + rest)
  {
    var t := ", " + rest;
    assert forall i :: 1 < i < |t| ==> t[i] == rest[i - 2];
    forall i | 0 <= i < |t| - 1 && t[i] == ' '
      ensures t[i + 1] != ' '
    {
      if i > 1 {
        assert t[i] == rest[i - 2];
      }
    }
    forall i | 0 < i < |t| && t[i] == ',' && t[i - 1] == ' '
      ensures 1 < i && t[i - 2] == ','
    {
      if i > 2 {
        assert t[i - 1] == rest[i - 3];
      }
    }
  }

  /** After `\s+` has become one space, `\s*,\s*` leaves single spaces and spaced commas. */
  lemma {:induction false} SpaceCommasShape(u: string)
    requires SingleSpaced(u)
    ensures CommaSpacedInside(SpaceCommas(u))
    decreases |u|
  {
    if u != [] {
      if CommaAhead(u) {
        var j := SkipSpaces(u, 0);
        var k := SkipSpaces(u, j + 1);
        SingleSpacedSuffix(u, k);
        SpaceCommasShape(u[k..]);
        if k < |u| {
          assert u[k..][0] == u[k];
        }
        CommaSpaceShape(SpaceCommas(u[k..]));
      } else {
        SingleSpacedSuffix(u, 1);
        SpaceCommasShape(u[1..]);
        assert u[0] != ',' by {
          assert SkipSpaces(u, 0) == 0 || IsSpace(u[0]);
        }
        if IsSpace(u[0]) && |u| > 1 {
          // the single space is followed by a character that is neither space nor comma
          assert !IsSpace(u[1]);
          assert SkipSpaces(u, 1) == 1;
          assert u[1] != ',';
          assert SkipSpaces(u[1..], 0) == 0;
        }
        ConsShape(u[0], SpaceCommas(u[1..]));
      }
    }
  }

  /** A slice of text with spaced commas that has no whitespace at its ends is `WellSpaced`. */
  lemma SliceWellSpaced(t: string, r: string, a: nat)
    requires CommaSpacedInside(t) && a + |r| <= |t|
    requires forall j :: 0 <= j < |r| ==> r[j] == t[a + j]
    requires r != [] ==> !IsSpace(r[0]) && !IsSpace(r[|r| - 1])
    ensures WellSpaced(r)
  {
    forall j | 0 <= j < |r| - 1 && r[j] == ','
      ensures r[j + 1] == ' '
    {
      assert r[j] == t[a + j] && r[j + 1] == t[a + j + 1];
    }
    forall j | 0 <= j < |r| - 1 && r[j] == ' '
      ensures r[j + 1] != ' '
    {
      assert r[j] == t[a + j] && r[j + 1] == t[a + j + 1];
    }
    forall j | 0 < j < |r| && r[j] == ',' && r[j - 1] == ' '
      ensures 1 < j && r[j - 2] == ','
    {
      assert r[j] == t[a + j] && r[j - 1] == t[a + j - 1];
    }
  }

  /** `Strip(t)` is a slice of `t`. */
  lemma StripIsSlice(t: string) returns (a: nat)
    ensures a + |Strip(t)| <= |t|
    ensures forall j :: 0 <= j < |Strip(t)| ==> Strip(t)[j] == t[a + j]
  {
    a := SkipSpaces(t, 0);
  }

  /** Stripping both ends of text with spaced commas leaves it `WellSpaced`. */
  lemma StripWellSpaced(t: string)
    requires CommaSpacedInside(t)
    ensures WellSpaced(Strip(t))
  {
    var a := StripIsSlice(t);
    SliceWellSpaced(t, Strip(t), a);
  }

  /** The final clean-up always yields well-spaced text. */
  lemma TidySpacesWellSpaced(s: string)
    ensures WellSpaced(TidySpaces(s))
  {
    CollapseSpacesSingle(s);
    SpaceCommasShape(CollapseSpaces(s));
    StripWellSpaced(SpaceCommas(CollapseSpaces(s)));
  }

  // ---------------------------------------------------------------------
  // Text the clean-up passes leave as it is
  // ---------------------------------------------------------------------

  /**
   * Whitespace only as single spaces between two characters that are
   * neither whitespace nor a comma, and every comma followed by a space:
   * the text of fields joined with `", "`. Closed under dropping a prefix.
   */
  predicate Clean(s: string) {
    && (forall j :: 0 <= j < |s| && IsSpace(s[j]) ==> s[j] == ' ' && j + 1 < |s| && !IsSpace(s[j + 1]) && s[j + 1] != ',')
    && (forall j :: 0 <= j < |s| && s[j] == ',' ==> j + 1 < |s| && s[j + 1] == ' ')
  }

  /** Clean text that starts with neither whitespace nor a comma. */
  predicate Tidy(s: string) {
    Clean(s) && (s != [] ==> !IsSpace(s[0]) && s[0] != ',')
  }

  lemma CleanSuffix(s: string, k: nat)
    requires Clean(s) && k <= |s|
    ensures Clean(s[k..])
  {
    assert forall j :: 0 <= j < |s| - k ==> s[k..][j] == s[k + j];
  }

  lemma {:induction false} CleanCollapseCommaPairs(s: string)
    requires Clean(s)
    ensures CollapseCommaPairs(s) == s
    decreases |s|
  {
    if s != [] {
      CleanSuffix(s, 1);
      CleanCollapseCommaPairs(s[1..]);
      CleanCollapseCommaPairsStep(s);
    }
  }

  /** A comma of clean text is followed by a space and a word, so no pair starts there. */
  lemma CleanCollapseCommaPairsStep(s: string)
    requires Clean(s) && s != []
    requires CollapseCommaPairs(s[1..]) == s[1..]
    ensures CollapseCommaPairs(s) == s
  {
    if s[0] == ',' {
      assert s[1..][0] == ' ' && !IsSpace(s[1..][1]);
      assert SkipSpaces(s[1..], 1) == 1;
      assert !CommaAhead(s[1..]);
    }
    assert [s[0]] + s[1..] == s;
  }


  lemma {:induction false} CleanDropTrailingComma(s: string)
    requires Clean(s)
    ensures DropTrailingComma(s) == s
    decreases |s|
  {
    if s != [] {
      CleanSuffix(s, 1);
      CleanDropTrailingComma(s[1..]);
      if s[0] == ',' {
        assert !IsSpace(s[2]);
        assert SkipSpaces(s, 2) == 2;
      }
      assert [s[0]] + s[1..] == s;
    }
  }

  lemma {:induction false} CleanCollapseSpaces(s: string)
    requires Clean(s)
    ensures CollapseSpaces(s) == s
    decreases |s|
  {
    if s != [] {
      CleanSuffix(s, 1);
      CleanCollapseSpaces(s[1..]);
      if IsSpace(s[0]) {
        assert SkipSpaces(s, 1) == 1;
      }
      assert [s[0]] + s[1..] == s;
    }
  }

  /** One step of `SpaceCommas` on clean text: a comma already carries its space. */
  lemma SpaceCommasStepClean(s: string)
    requires Clean(s) && s != []
    ensures s[0] == ',' ==> |s| >= 2 && SpaceCommas(s) == ", " + SpaceCommas(s[2..])
    ensures s[0] != ',' ==> SpaceCommas(s) == [s[0]] + SpaceCommas(s[1..])
  {
    if s[0] == ',' {
      assert SkipSpaces(s, 0) == 0;
      assert s[1] == ' ' && IsSpace(s[1]);
      assert !IsSpace(s[2]);
      assert SkipSpaces(s, 2) == 2;
    } else {
      if IsSpace(s[0]) {
        assert SkipSpaces(s, 1) == 1;
      }
      assert !CommaAhead(s);
    }
  }

  lemma {:induction false} CleanSpaceCommas(s: string)
    requires Clean(s)
    ensures SpaceCommas(s) == s
    decreases |s|
  {
    if s != [] {
      SpaceCommasStepClean(s);
      if s[0] == ',' {
        CleanSuffix(s, 2);
        CleanSpaceCommas(s[2..]);
        assert ", " + s[2..] == s;
      } else {
        CleanSuffix(s, 1);
        CleanSpaceCommas(s[1..]);
        assert [s[0]] + s[1..] == s;
      }
    }
  }

  /** Text with no whitespace at either end is its own strip. */
  lemma StripUnspaced(s: string)
    requires s != [] ==> !IsSpace(s[0]) && !IsSpace(s[|s| - 1])
    ensures Strip(s) == s
  {
    if s != [] {
      assert SkipSpaces(s, 0) == 0;
      assert TrimEnd(s, 0, |s|) == |s|;
    }
  }

  /** Both clean-up stages leave tidy text unchanged. */
  lemma TidyIsFixed(s: string)
    requires Tidy(s)
    ensures Strip(s) == s && TidyCommas(s) == s && TidySpaces(s) == s
  {
    StripUnspaced(s);
    CleanCollapseCommaPairs(s);
    CleanDropTrailingComma(s);
    if s != [] {
      assert SkipSpaces(s, 0) == 0;
    }
    CleanCollapseSpaces(s);
    CleanSpaceCommas(s);
  }

  /** A field of neither whitespace nor commas, `", "`, then tidy text: tidy again. */
  lemma TidyJoin(x: string, r: string)
    requires x != [] && forall c :: c in x ==> !IsSpace(c) && c != ','
    requires Tidy(r) && r != []
    ensures Tidy(x + ", " + r)
  {
    var t := x + ", " + r;
    var n := |x|;
    assert forall j :: 0 <= j < n ==> t[j] == x[j] && t[j] in x;
    assert t[n] == ',' && t[n + 1] == ' ';
    assert forall j :: n + 2 <= j < |t| ==> t[j] == r[j - n - 2];
  }

  // ---------------------------------------------------------------------
  // A run of three commas
  // ---------------------------------------------------------------------

  /** Text of neither whitespace nor commas: every pass copies it. */
  predicate Bare(w: string) {
    forall c :: c in w ==> !IsSpace(c) && c != ','
  }

  lemma BareTail(w: string)
    requires Bare(w) && w != []
    ensures !IsSpace(w[0]) && w[0] != ',' && Bare(w[1..])
  {
    assert w[0] in w;
    assert forall c :: c in w[1..] ==> c in w;
  }

  lemma {:induction false} CollapseCommaPairsBare(w: string, t: string)
    requires Bare(w)
    ensures CollapseCommaPairs(w + t) == w + CollapseCommaPairs(t)
    decreases |w|
  {
    if w != [] {
      BareTail(w);
      var s := w + t;
      assert s[0] == w[0] && s[1..] == w[1..] + t;
      assert CollapseCommaPairs(s) == [w[0]] + CollapseCommaPairs(w[1..] + t);
      CollapseCommaPairsBare(w[1..], t);
      assert [w[0]] + (w[1..] + CollapseCommaPairs(t)) == w + CollapseCommaPairs(t);
    } else {
      assert w + t == t;
    }
  }

  lemma {:induction false} DropTrailingCommaBare(w: string, t: string)
    requires Bare(w)
    ensures DropTrailingComma(w + t) == w + DropTrailingComma(t)
    decreases |w|
  {
    if w != [] {
      BareTail(w);
      var s := w + t;
      assert s[0] == w[0] && s[1..] == w[1..] + t;
      assert DropTrailingComma(s) == [w[0]] + DropTrailingComma(w[1..] + t);
      DropTrailingCommaBare(w[1..], t);
      assert [w[0]] + (w[1..] + DropTrailingComma(t)) == w + DropTrailingComma(t);
    } else {
      assert w + t == t;
    }
  }

  lemma {:induction false} CollapseSpacesBare(w: string, t: string)
    requires Bare(w)
    ensures CollapseSpaces(w + t) == w + CollapseSpaces(t)
    decreases |w|
  {
    if w != [] {
      BareTail(w);
      var s := w + t;
      assert s[0] == w[0] && s[1..] == w[1..] + t;
      assert CollapseSpaces(s) == [w[0]] + CollapseSpaces(w[1..] + t);
      CollapseSpacesBare(w[1..], t);
      assert [w[0]] + (w[1..] + CollapseSpaces(t)) == w + CollapseSpaces(t);
    } else {
      assert w + t == t;
    }
  }

  /** A character that is neither whitespace nor a comma is copied by `SpaceCommas`. */
  lemma SpaceCommasAtBare(w: string, t: string)
    requires Bare(w) && w != []
    ensures Bare(w[1..])
    ensures SpaceCommas(w + t) == [w[0]] + SpaceCommas(w[1..] + t)
    ensures [w[0]] + (w[1..] + SpaceCommas(t)) == w + SpaceCommas(t)
  {
    BareTail(w);
    var s := w + t;
    assert s[0] == w[0] && s[1..] == w[1..] + t;
    assert SkipSpaces(s, 0) == 0;
  }

  lemma {:induction false} SpaceCommasBare(w: string, t: string)
    requires Bare(w)
    ensures SpaceCommas(w + t) == w + SpaceCommas(t)
    decreases |w|
  {
    if w != [] {
      SpaceCommasAtBare(w, t);
      SpaceCommasBare(w[1..], t);
    } else {
      assert w + t == t;
    }
  }


  lemma CollapseCommaRun(b: string)
    requires Bare(b) && b != []
    ensures CollapseCommaPairs(",,," + b) == ",," + b
  {
    BareTail(b);
    var run, one := ",,," + b, "," + b;
    assert run[1..] == ",," + b && run[1..][1..] == one;
    assert SkipSpaces(run[1..], 0) == 0;
    assert one[1..] == b && SkipSpaces(b, 0) == 0;
    CollapseCommaPairsBare(b, []);
    assert b + [] == b;
    assert CollapseCommaPairs(one) == [','] + b;
  }

  lemma DropTrailingCommaOfPair(b: string)
    requires Bare(b) && b != []
    ensures DropTrailingComma(",," + b) == ",," + b
  {
    BareTail(b);
    var pair, one := ",," + b, "," + b;
    assert pair[1..] == one && one[1..] == b;
    assert SkipSpaces(pair, 1) == 1 && SkipSpaces(one, 1) == 1;
    DropTrailingCommaBare(b, []);
    assert b + [] == b;
    assert DropTrailingComma(one) == [','] + b;
  }

  /**
   * The comma clean-up is a single non-overlapping pass: between two bare
   * words, a run of three commas keeps two of them.
   */
  lemma TidyCommasOfRun(a: string, b: string)
    requires Bare(a) && Bare(b) && a != [] && b != []
    ensures TidyCommas(a + ",,," + b) == a + ",," + b
  {
    BareTail(a);
    var run, pair := ",,," + b, ",," + b;
    assert a + ",,," + b == a + run && a + ",," + b == a + pair;
    CollapseCommaRun(b);
    CollapseCommaPairsBare(a, run);
    DropTrailingCommaOfPair(b);
    DropTrailingCommaBare(a, pair);
    assert SkipSpaces(a + pair, 0) == 0;
  }

  lemma CollapseSpacesOfPair(b: string)
    requires Bare(b)
    ensures CollapseSpaces(",," + b) == ",," + b
  {
    var pair, one := ",," + b, "," + b;
    assert pair[1..] == one && one[1..] == b;
    CollapseSpacesBare(b, []);
    assert b + [] == b;
    assert CollapseSpaces(one) == [','] + b;
  }

  /** A comma with no whitespace around it becomes `", "`. */
  lemma SpaceCommasAtComma(t: string)
    requires t == [] || !IsSpace(t[0])
    ensures SpaceCommas("," + t) == ", " + SpaceCommas(t)
  {
    var w := "," + t;
    assert w[1..] == t;
    assert SkipSpaces(w, 0) == 0;
    assert SkipSpaces(w, 1) == 1;
  }

  lemma SpaceCommasOfPair(b: string)
    requires Bare(b) && b != []
    ensures SpaceCommas(",," + b) == ", , " + b
  {
    BareTail(b);
    SpaceCommasAtComma(b);
    SpaceCommasAtComma("," + b);
    SpaceCommasBare(b, []);
    assert b + [] == b;
    PairTexts(b);
  }

  lemma PairTexts(b: string)
    ensures ",," + b == "," + ("," + b)
    ensures ", , " + b == ", " + (", " + b)
  {
    assert ",," == "," + ",";
    assert ", , " == ", " + ", ";
    AppendAssoc(",", ",", b);
    AppendAssoc(", ", ", ", b);
  }

  /** The final spacing puts a space after each of the two commas, so one lands between them. */
  lemma TidySpacesOfPair(a: string, b: string)
    requires Bare(a) && Bare(b) && a != [] && b != []
    ensures TidySpaces(a + ",," + b) == a + ", , " + b
  {
    BareTail(a);
    BareTail(b);
    var pair, spaced := ",," + b, ", , " + b;
    assert a + ",," + b == a + pair && a + ", , " + b == a + spaced;
    CollapseSpacesOfPair(b);
    CollapseSpacesBare(a, pair);
    SpaceCommasOfPair(b);
    SpaceCommasBare(a, pair);
    StripUnspaced(a + spaced);
  }

  /**
   * At the end of the text the same single pass leaves two commas of three,
   * and the trailing-comma pass then drops only the last of those.
   */
  lemma TidyCommasOfFinalRun(a: string)
    requires Bare(a) && a != []
    ensures TidyCommas(a + ",,,") == a + ","
  {
    BareTail(a);
    var run, pair, one: string := ",,,", ",,", ",";
    assert run[1..] == pair && pair[1..] == one && one[1..] == [];
    assert SkipSpaces(pair, 0) == 0 && SkipSpaces(one, 0) == 0;
    assert CollapseCommaPairs(one) == one;
    assert CollapseCommaPairs(run) == pair;
    CollapseCommaPairsBare(a, run);
    assert SkipSpaces(pair, 1) == 1 && SkipSpaces(one, 1) == 1;
    assert DropTrailingComma(one) == [];
    assert DropTrailingComma(pair) == one;
    DropTrailingCommaBare(a, pair);
    assert SkipSpaces(a + one, 0) == 0;
  }

  /** A final comma gets a space after it, which the strip then removes again. */
  lemma TidySpacesOfFinalComma(a: string)
    requires Bare(a) && a != []
    ensures TidySpaces(a + ",") == a + ","
  {
    BareTail(a);
    var one: string := ",";
    assert one[1..] == [];
    assert CollapseSpaces(one) == one;
    CollapseSpacesBare(a, one);
    assert SkipSpaces(one, 0) == 0 && SkipSpaces(one, 1) == 1;
    assert SpaceCommas(one) == ", ";
    SpaceCommasBare(a, one);
    var t := a + ", ";
    assert SkipSpaces(t, 0) == 0;
    assert TrimEnd(t, 0, |t|) == |t| - 1 by {
      assert IsSpace(t[|t| - 1]) && !IsSpace(t[|t| - 2]);
    }
    assert t[..|t| - 1] == a + one;
  }

  // ---------------------------------------------------------------------
  // What each pass does to the words and commas of the text
  // ---------------------------------------------------------------------

  /** `Strip` keeps the middle of `s` between two runs of whitespace. */
  lemma StripSplit(s: string) returns (x: string, y: string)
    ensures s == (x + Strip(s)) + y
    ensures Blank(x) && Blank(y)
  {
    var a := SkipSpaces(s, 0);
    var b := TrimEnd(s, a, |s|);
    x, y := s[0..a], s[b..|s|];
    BlankSlice(s, 0, a);
    BlankSlice(s, b, |s|);
    assert s == (x + s[a..b]) + y;
  }

  lemma BlankSlice(s: string, i: nat, j: nat)
    requires i <= j <= |s|
    requires forall k :: i <= k < j ==> IsSpace(s[k])
    ensures Blank(s[i..j])
  {
    assert forall k :: 0 <= k < j - i ==> s[i..j][k] == s[i + k];
  }

  /** Line 153 keeps every word and every comma: whitespace runs shrink to one space but never vanish. */
  lemma {:induction false} LexCollapseSpaces(s: string)
    ensures Lex(CollapseSpaces(s)) == Lex(s)
    decreases |s|
  {
    if s != [] {
      if IsSpace(s[0]) {
        var j := SkipSpaces(s, 0);
        LexCollapseSpaces(s[j..]);
        LexCons(' ', CollapseSpaces(s[j..]));
        LexSkipSpaces(s, 0);
        assert s[0..] == s;
      } else {
        LexCollapseSpaces(s[1..]);
        LexCollapseSpacesStep(s);
      }
    }
  }

  lemma LexCollapseSpacesStep(s: string)
    requires s != [] && !IsSpace(s[0])
    requires Lex(CollapseSpaces(s[1..])) == Lex(s[1..])
    ensures Lex(CollapseSpaces(s)) == Lex(s)
  {
    var x := s[1..];
    assert s == [s[0]] + x;
    LexCons(s[0], CollapseSpaces(x));
    LexCons(s[0], x);
  }

  /** Line 154 keeps every word and every comma. */
  lemma {:induction false} LexSpaceCommas(s: string)
    ensures Lex(SpaceCommas(s)) == Lex(s)
    decreases |s|
  {
    if s != [] {
      if CommaAhead(s) {
        var k := SkipSpaces(s, SkipSpaces(s, 0) + 1);
        LexSpaceCommas(s[k..]);
        LexSpaceCommasAtComma(s);
      } else {
        LexSpaceCommas(s[1..]);
        LexSpaceCommasStep(s);
      }
    }
  }

  lemma LexSpaceCommasAtComma(s: string)
    requires CommaAhead(s)
    requires var k := SkipSpaces(s, SkipSpaces(s, 0) + 1); Lex(SpaceCommas(s[k..])) == Lex(s[k..])
    ensures Lex(SpaceCommas(s)) == Lex(s)
  {
    var j := SkipSpaces(s, 0);
    var k := SkipSpaces(s, j + 1);
    var t := SpaceCommas(s[k..]);
    SpaceCommasAt(s, j, k);
    LexCommaSpace(t);
    LexAtComma(s);
    LexSkipSpaces(s, j + 1);
  }

  lemma LexCommaSpace(t: string)
    ensures Lex(", " + t) == [Comma] + Lex(t)
  {
    assert ", " + t == [','] + ([' '] + t);
    LexCons(',', [' '] + t);
    LexCons(' ', t);
  }

  lemma LexSpaceCommasStep(s: string)
    requires s != [] && !CommaAhead(s)
    requires Lex(SpaceCommas(s[1..])) == Lex(s[1..])
    ensures Lex(SpaceCommas(s)) == Lex(s)
  {
    var x := s[1..];
    assert s == [s[0]] + x;
    assert s[0] != ',';
    LexCons(s[0], SpaceCommas(x));
    LexCons(s[0], x);
    if x != [] && CommaAhead(x) {
      assert !InWord(x[0]);
    }
  }

  /** `strip` only drops whitespace at the ends. */
  lemma LexStrip(s: string)
    ensures Lex(Strip(s)) == Lex(s)
  {
    var x, y := StripSplit(s);
    LexBlankEnd(x + Strip(s), y);
    LexBlank(x, Strip(s));
  }

  /** Lines 153-155 keep the words and commas exactly: no two words merge and no comma is lost. */
  lemma LexTidySpaces(s: string)
    ensures Lex(TidySpaces(s)) == Lex(s)
  {
    LexCollapseSpaces(s);
    LexSpaceCommas(CollapseSpaces(s));
    LexStrip(SpaceCommas(CollapseSpaces(s)));
  }

  /** Lines 153-155 keep every comma. */
  lemma TidySpacesKeepsCommas(s: string)
    ensures CommaCount(TidySpaces(s)) == CommaCount(s)
  {
    LexTidySpaces(s);
    NumCommasLex(s);
    NumCommasLex(TidySpaces(s));
  }

  /** Line 134 replaces each pair of commas, with only whitespace between, by one comma. */
  lemma {:induction false} LexCollapseCommaPairs(s: string)
    ensures Lex(CollapseCommaPairs(s)) == PairUp(Lex(s))
    decreases |s|
  {
    if s != [] {
      var u := s[1..];
      if s[0] == ',' && CommaAhead(u) {
        LexCollapseCommaPairs(u[SkipSpaces(u, 0) + 1..]);
        LexCollapseCommaPairsAtPair(s);
      } else {
        LexCollapseCommaPairs(u);
        LexCollapseCommaPairsStep(s);
      }
    }
  }

  lemma LexCollapseCommaPairsAtPair(s: string)
    requires s != [] && s[0] == ',' && CommaAhead(s[1..])
    requires var u := s[1..]; var v := u[SkipSpaces(u, 0) + 1..];
      Lex(CollapseCommaPairs(v)) == PairUp(Lex(v))
    ensures Lex(CollapseCommaPairs(s)) == PairUp(Lex(s))
  {
    var u := s[1..];
    var v := u[SkipSpaces(u, 0) + 1..];
    assert s == [','] + u;
    CollapseCommaPairsAtPair(s);
    LexConsComma(u);
    LexAtComma(u);
    LexConsComma(CollapseCommaPairs(v));
    PairUpPair(Lex(v));
  }

  lemma CollapseCommaPairsAtPair(s: string)
    requires s != [] && s[0] == ',' && CommaAhead(s[1..])
    ensures var u := s[1..]; CollapseCommaPairs(s) == [','] + CollapseCommaPairs(u[SkipSpaces(u, 0) + 1..])
  {
  }

  lemma LexCollapseCommaPairsStep(s: string)
    requires s != [] && !(s[0] == ',' && CommaAhead(s[1..]))
    requires Lex(CollapseCommaPairs(s[1..])) == PairUp(Lex(s[1..]))
    ensures Lex(CollapseCommaPairs(s)) == PairUp(Lex(s))
  {
    var u := s[1..];
    assert s == [s[0]] + u;
    LexCons(s[0], u);
    LexCons(s[0], CollapseCommaPairs(u));
    if s[0] == ',' {
      LexNotAtComma(u);
      var l := [Comma] + Lex(u);
      assert l[1..] == Lex(u);
    } else if InWord(s[0]) {
      PairUpGlue(s[0], Lex(u), StartsWord(u));
    }
  }

  /** Line 135 drops a final comma and nothing else. */
  lemma {:induction false} LexDropTrailingComma(s: string)
    ensures Lex(DropTrailingComma(s)) == DropLast(Lex(s))
    decreases |s|
  {
    if s != [] {
      if s[0] == ',' && SkipSpaces(s, 1) == |s| {
        LexSkipSpaces(s, 1);
        assert s == [','] + s[1..];
        LexCons(',', s[1..]);
      } else {
        LexDropTrailingComma(s[1..]);
        LexDropTrailingCommaStep(s);
      }
    }
  }

  lemma LexDropTrailingCommaStep(s: string)
    requires s != [] && !(s[0] == ',' && SkipSpaces(s, 1) == |s|)
    requires Lex(DropTrailingComma(s[1..])) == DropLast(Lex(s[1..]))
    ensures Lex(DropTrailingComma(s)) == DropLast(Lex(s))
  {
    var u := s[1..];
    assert s == [s[0]] + u;
    LexCons(s[0], u);
    LexCons(s[0], DropTrailingComma(u));
    if s[0] == ',' {
      LexNotBlank(s, 1);
      DropLastCons(Comma, Lex(u));
    } else if InWord(s[0]) {
      DropLastGlue(s[0], Lex(u), StartsWord(u));
    }
  }

  /** Line 136 drops a first comma and nothing else. */
  lemma LexDropLeadingComma(s: string)
    ensures Lex(DropLeadingComma(s)) == DropFirst(Lex(s))
  {
    if CommaAhead(s) {
      LexAtComma(s);
      var l := [Comma] + Lex(s[SkipSpaces(s, 0) + 1..]);
      assert l[1..] == Lex(s[SkipSpaces(s, 0) + 1..]);
    } else {
      LexNotAtComma(s);
    }
  }

  /** Lines 134-136, read as words and commas. */
  lemma LexTidyCommas(s: string)
    ensures Lex(TidyCommas(s)) == TidyLex(Lex(s))
  {
    LexCollapseCommaPairs(s);
    LexDropTrailingComma(CollapseCommaPairs(s));
    LexDropLeadingComma(DropTrailingComma(CollapseCommaPairs(s)));
  }

  /** Lines 134-136 keep every word, in order. */
  lemma TidyCommasKeepsWords(s: string)
    ensures Words(Lex(TidyCommas(s))) == Words(Lex(s))
  {
    LexTidyCommas(s);
    TidyLexWords(Lex(s));
  }

  /** Lines 134-136 keep a comma that has a word on each side, and those two words. */
  lemma TidyCommasKeepsLoneComma(s: string, p: seq<Lexeme>, a: string, b: string, q: seq<Lexeme>)
    requires Lex(s) == p + [Word(a), Comma, Word(b)] + q
    ensures Lex(TidyCommas(s)) == DropFirst(PairUp(p)) + [Word(a), Comma, Word(b)] + DropLast(PairUp(q))
  {
    LexTidyCommas(s);
    TidyLexKeepsLoneComma(p, a, b, q);
  }

  // ---------------------------------------------------------------------
  // The exact replacement each whitespace pass makes
  // ---------------------------------------------------------------------

  /** Line 153 works on `a` and `t` separately when `a` does not end in whitespace. */
  lemma {:induction false} CollapseSpacesAppend(a: string, t: string)
    requires a == [] || !IsSpace(a[|a| - 1])
    ensures CollapseSpaces(a + t) == CollapseSpaces(a) + CollapseSpaces(t)
    decreases |a|
  {
    if a == [] {
      assert a + t == t;
    } else if IsSpace(a[0]) {
      var j := SkipSpaces(a, 0);
      SkipSpacesWithin(a, t, 0);
      assert (a + t)[j..] == a[j..] + t;
      CollapseSpacesAppend(a[j..], t);
    } else {
      assert (a + t)[1..] == a[1..] + t;
      CollapseSpacesAppend(a[1..], t);
    }
  }

  /** Line 153 turns a whitespace run between two other characters into exactly one space. */
  lemma CollapseSpacesRun(a: string, w: string, b: string)
    requires a == [] || !IsSpace(a[|a| - 1])
    requires w != [] && Blank(w)
    requires b == [] || !IsSpace(b[0])
    ensures CollapseSpaces(a + w + b) == CollapseSpaces(a) + " " + CollapseSpaces(b)
  {
    AppendAssoc(a, w, b);
    CollapseSpacesAppend(a, w + b);
    CollapseSpacesOfRun(w, b);
    AppendAssoc(CollapseSpaces(a), " ", CollapseSpaces(b));
  }

  lemma CollapseSpacesOfRun(w: string, b: string)
    requires w != [] && Blank(w)
    requires b == [] || !IsSpace(b[0])
    ensures CollapseSpaces(w + b) == " " + CollapseSpaces(b)
  {
    var t := w + b;
    assert forall i :: 0 <= i < |w| ==> t[i] == w[i];
    assert |w| < |t| ==> t[|w|] == b[0];
    SkipSpacesTo(t, 0, |w|);
    assert t[0] == w[0] && t[|w|..] == b;
  }

  /** Line 154 works on `a` and `t` separately when `a` ends inside a word. */
  lemma {:induction false} SpaceCommasAppend(a: string, t: string)
    requires a == [] || InWord(a[|a| - 1])
    ensures SpaceCommas(a + t) == SpaceCommas(a) + SpaceCommas(t)
    decreases |a|, 1
  {
    if a == [] {
      assert a + t == t;
    } else if CommaAhead(a) {
      SpaceCommasAppendAtComma(a, t);
    } else {
      SpaceCommasAppendStep(a, t);
    }
  }

  lemma {:induction false} SpaceCommasAppendAtComma(a: string, t: string)
    requires a != [] && InWord(a[|a| - 1]) && CommaAhead(a)
    ensures SpaceCommas(a + t) == SpaceCommas(a) + SpaceCommas(t)
    decreases |a|, 0
  {
    var k := SpaceCommasShiftAtComma(a, t);
    var u := a[k..];
    SpaceCommasAppend(u, t);
    AppendAssoc(", ", SpaceCommas(u), SpaceCommas(t));
  }

  lemma {:induction false} SpaceCommasAppendStep(a: string, t: string)
    requires a != [] && InWord(a[|a| - 1]) && !CommaAhead(a)
    ensures SpaceCommas(a + t) == SpaceCommas(a) + SpaceCommas(t)
    decreases |a|, 0
  {
    SpaceCommasShiftStep(a, t);
    var u := a[1..];
    SpaceCommasAppend(u, t);
    AppendAssoc([a[0]], SpaceCommas(u), SpaceCommas(t));
  }

  /** Whitespace skipping stops inside a text that ends in a word character. */
  lemma SkipSpacesEndsBefore(a: string, i: nat)
    requires i < |a| && InWord(a[|a| - 1])
    ensures SkipSpaces(a, i) < |a|
  {
  }

  lemma SpaceCommasShiftAtComma(a: string, t: string) returns (k: nat)
    requires a != [] && InWord(a[|a| - 1]) && CommaAhead(a)
    ensures k <= |a| && |a[k..]| < |a|
    ensures a[k..] == [] || InWord(a[|a| - 1])
    ensures SpaceCommas(a + t) == ", " + SpaceCommas(a[k..] + t)
    ensures SpaceCommas(a) == ", " + SpaceCommas(a[k..])
  {
    var j := SkipSpaces(a, 0);
    assert j + 1 < |a|;
    k := SkipSpaces(a, j + 1);
    SkipSpacesEndsBefore(a, j + 1);
    SpaceCommasAt(a, j, k);
    SpaceCommasAtAppended(a, t, j, k);
  }

  lemma SpaceCommasAtAppended(a: string, t: string, j: nat, k: nat)
    requires k < |a| && j < |a| && a[j] == ','
    requires SkipSpaces(a, 0) == j && SkipSpaces(a, j + 1) == k
    ensures SpaceCommas(a + t) == ", " + SpaceCommas(a[k..] + t)
  {
    SkipSpacesWithin(a, t, 0);
    SkipSpacesWithin(a, t, j + 1);
    var s := a + t;
    assert s[j] == ',';
    SpaceCommasAt(s, j, k);
    SliceAppend(a, t, k);
  }

  lemma SliceAppend(a: string, t: string, k: nat)
    requires k <= |a|
    ensures (a + t)[k..] == a[k..] + t
  {
  }

  /** Line 154 at a comma that whitespace from `0` reaches at `j`, followed by whitespace up to `k`. */
  lemma SpaceCommasAt(s: string, j: nat, k: nat)
    requires j < |s| && s[j] == ','
    requires SkipSpaces(s, 0) == j && SkipSpaces(s, j + 1) == k
    ensures SpaceCommas(s) == ", " + SpaceCommas(s[k..])
  {
  }

  lemma SpaceCommasShiftStep(a: string, t: string)
    requires a != [] && InWord(a[|a| - 1]) && !CommaAhead(a)
    ensures SpaceCommas(a + t) == [a[0]] + SpaceCommas(a[1..] + t)
    ensures SpaceCommas(a) == [a[0]] + SpaceCommas(a[1..])
  {
    var j := SkipSpaces(a, 0);
    SkipSpacesEndsBefore(a, 0);
    SkipSpacesWithin(a, t, 0);
    var s := a + t;
    assert s[j] == a[j];
    assert s[0] == a[0] && s[1..] == a[1..] + t;
  }

  /** Line 154 turns a comma after a word, with the whitespace on both sides of it, into exactly `", "`. */
  lemma SpaceCommasAround(a: string, x: string, y: string, b: string)
    requires a == [] || InWord(a[|a| - 1])
    requires Blank(x) && Blank(y)
    requires b == [] || !IsSpace(b[0])
    ensures SpaceCommas(a + x + "," + y + b) == SpaceCommas(a) + ", " + SpaceCommas(b)
  {
    SpaceCommasOfComma(x, y, b);
    SpaceCommasThen(a, x + "," + y + b, x, y, b);
  }

  lemma SpaceCommasThen(a: string, t: string, x: string, y: string, b: string)
    requires a == [] || InWord(a[|a| - 1])
    requires t == x + "," + y + b
    requires SpaceCommas(t) == ", " + SpaceCommas(b)
    ensures SpaceCommas(a + x + "," + y + b) == SpaceCommas(a) + ", " + SpaceCommas(b)
  {
    RegroupComma(a, x, y, b);
    SpaceCommasAppend(a, t);
  }

  lemma RegroupComma(a: string, x: string, y: string, b: string)
    ensures a + x + "," + y + b == a + (x + "," + y + b)
  {
  }

  lemma SpaceCommasOfComma(x: string, y: string, b: string)
    requires Blank(x) && Blank(y)
    requires b == [] || !IsSpace(b[0])
    ensures SpaceCommas(x + "," + y + b) == ", " + SpaceCommas(b)
  {
    var t := x + "," + y + b;
    var j, k := |x|, |x| + 1 + |y|;
    assert forall i :: 0 <= i < j ==> t[i] == x[i];
    assert t[j] == ',';
    assert forall i :: j < i < k ==> t[i] == y[i - j - 1];
    assert k < |t| ==> t[k] == b[0];
    SkipSpacesTo(t, 0, j);
    SkipSpacesTo(t, j + 1, k);
    assert t[k..] == b;
  }
}
