/**
 * Text read as its words and commas. Whitespace only separates words: how
 * much of it there is, and whether it sits next to a comma, is not seen,
 * but two words with whitespace between them stay two words. The clean-up
 * passes of `normalize` are characterised by what they do to this reading.
 */
module Lexemes {
  import opened CharClass

  /** A character of a word: neither whitespace nor a comma. */
  predicate InWord(c: char) {
    !IsSpace(c) && c != ','
  }

  /** Every character of `x` is whitespace. */
  predicate Blank(x: string) {
    forall k :: 0 <= k < |x| ==> IsSpace(x[k])
  }

  /** The text starts with a word character. */
  predicate StartsWord(s: string) {
    s != [] && InWord(s[0])
  }

  datatype Lexeme = Word(letters: string) | Comma

  /** The end of the run of word characters that starts at `i`. */
  function WordEnd(s: string, i: nat): (j: nat)
    requires i <= |s|
    ensures i <= j <= |s|
    ensures i < |s| && InWord(s[i]) ==> i < j
    ensures forall k :: i <= k < j ==> InWord(s[k])
    ensures j < |s| ==> !InWord(s[j])
    decreases |s| - i
  {
    if i < |s| && InWord(s[i]) then WordEnd(s, i + 1) else i
  }

  /** The words and the commas of `s`, in order. */
  function Lex(s: string): seq<Lexeme>
    decreases |s|
  {
    if s == [] then []
    else if IsSpace(s[0]) then Lex(s[1..])
    else if s[0] == ',' then [Comma] + Lex(s[1..])
    else
      var e := WordEnd(s, 0);
      [Word(s[..e])] + Lex(s[e..])
  }

  /** What a word character `c` in front of a text does to its lexemes: it joins the first word or starts its own. */
  function Glue(c: char, l: seq<Lexeme>, joined: bool): seq<Lexeme> {
    if joined && l != [] && l[0].Word? then [Word([c] + l[0].letters)] + l[1..]
    else [Word([c])] + l
  }

  // ---------------------------------------------------------------------
  // Reading text character by character
  // ---------------------------------------------------------------------

  lemma {:induction false} WordEndShift(c: char, x: string, i: nat)
    requires i <= |x|
    ensures WordEnd([c] + x, i + 1) == WordEnd(x, i) + 1
    decreases |x| - i
  {
    var s := [c] + x;
    if i < |x| {
      assert s[i + 1] == x[i];
      if InWord(x[i]) {
        WordEndShift(c, x, i + 1);
      }
    }
  }

  lemma StartsWordLex(x: string)
    requires StartsWord(x)
    ensures Lex(x) != [] && Lex(x)[0].Word?
  {
  }

  /** The lexemes of `[c] + x`, from those of `x`. */
  lemma LexCons(c: char, x: string)
    ensures Lex([c] + x) ==
      if IsSpace(c) then Lex(x)
      else if c == ',' then [Comma] + Lex(x)
      else Glue(c, Lex(x), StartsWord(x))
  {
    var s := [c] + x;
    assert s[0] == c && s[1..] == x;
    if InWord(c) {
      LexConsWord(c, x);
    }
  }

  lemma LexConsComma(x: string)
    ensures Lex([','] + x) == [Comma] + Lex(x)
  {
    LexCons(',', x);
  }

  lemma LexConsWord(c: char, x: string)
    requires InWord(c)
    ensures Lex([c] + x) == Glue(c, Lex(x), StartsWord(x))
  {
    var s := [c] + x;
    var e := WordEnd(x, 0);
    WordEndShift(c, x, 0);
    assert WordEnd(s, 0) == WordEnd(s, 1) == e + 1;
    assert s[e + 1..] == x[e..];
    assert Lex(s) == [Word(s[..e + 1])] + Lex(x[e..]);
    if StartsWord(x) {
      assert s[..e + 1] == [c] + x[..e];
    } else {
      assert e == 0 && s[..1] == [c] && x[0..] == x;
    }
  }

  /** Leading whitespace is not seen. */
  lemma {:induction false} LexBlank(x: string, y: string)
    requires Blank(x)
    ensures Lex(x + y) == Lex(y)
    decreases |x|
  {
    if x != [] {
      assert x + y == [x[0]] + (x[1..] + y);
      LexCons(x[0], x[1..] + y);
      assert Blank(x[1..]) by {
        assert forall k :: 0 <= k < |x| - 1 ==> x[1..][k] == x[k + 1];
      }
      LexBlank(x[1..], y);
    } else {
      assert x + y == y;
    }
  }

  /** Trailing whitespace is not seen either. */
  lemma {:induction false} LexBlankEnd(m: string, y: string)
    requires Blank(y)
    ensures Lex(m + y) == Lex(m)
    decreases |m|
  {
    if m == [] {
      LexBlank(y, []);
      assert m + y == y + [];
    } else {
      assert m + y == [m[0]] + (m[1..] + y);
      LexBlankEnd(m[1..], y);
      LexBlankEndStep(m, y);
    }
  }

  lemma LexBlankEndStep(m: string, y: string)
    requires Blank(y) && m != []
    requires Lex(m[1..] + y) == Lex(m[1..])
    ensures Lex([m[0]] + (m[1..] + y)) == Lex(m)
  {
    LexCons(m[0], m[1..] + y);
    LexCons(m[0], m[1..]);
    assert [m[0]] + m[1..] == m;
    if m[1..] != [] {
      assert (m[1..] + y)[0] == m[1..][0];
    } else {
      assert m[1..] + y == y;
    }
  }

  /** Skipping whitespace skips nothing that is seen. */
  lemma LexSkipSpaces(s: string, i: nat)
    requires i <= |s|
    ensures Lex(s[SkipSpaces(s, i)..]) == Lex(s[i..])
  {
    var j := SkipSpaces(s, i);
    assert s[i..] == s[i..j] + s[j..];
    assert Blank(s[i..j]) by {
      assert forall k :: 0 <= k < j - i ==> s[i..j][k] == s[i + k];
    }
    LexBlank(s[i..j], s[j..]);
  }

  /** A comma that only whitespace precedes is the first lexeme. */
  lemma LexAtComma(s: string)
    requires SkipSpaces(s, 0) < |s| && s[SkipSpaces(s, 0)] == ','
    ensures Lex(s) == [Comma] + Lex(s[SkipSpaces(s, 0) + 1..])
  {
    var j := SkipSpaces(s, 0);
    LexSkipSpaces(s, 0);
    assert s[0..] == s;
    assert s[j..] == [','] + s[j + 1..];
    LexCons(',', s[j + 1..]);
  }

  /** When whitespace leads to anything but a comma, the first lexeme is no comma. */
  lemma LexNotAtComma(s: string)
    requires SkipSpaces(s, 0) == |s| || s[SkipSpaces(s, 0)] != ','
    ensures Lex(s) == [] || Lex(s)[0].Word?
  {
    var j := SkipSpaces(s, 0);
    LexSkipSpaces(s, 0);
    assert s[0..] == s;
  }

  /** Text with a character that is not whitespace at or after `i` has a lexeme there. */
  lemma LexNotBlank(s: string, i: nat)
    requires i <= |s| && SkipSpaces(s, i) < |s|
    ensures Lex(s[i..]) != []
  {
    LexSkipSpaces(s, i);
  }

  // ---------------------------------------------------------------------
  // What the comma passes do, on lexemes
  // ---------------------------------------------------------------------

  /** `re.sub(r',\s*,', ',', …)` on lexemes: two commas in a row become one, left to right, without overlap. */
  function PairUp(l: seq<Lexeme>): (r: seq<Lexeme>)
    decreases |l|
  {
    if l == [] then []
    else if |l| >= 2 && l[0].Comma? && l[1].Comma? then [Comma] + PairUp(l[2..])
    else [l[0]] + PairUp(l[1..])
  }

  /** A pair of commas at the front becomes one. */
  lemma PairUpPair(l: seq<Lexeme>)
    ensures PairUp([Comma] + ([Comma] + l)) == [Comma] + PairUp(l)
  {
    var m := [Comma] + ([Comma] + l);
    assert m[0].Comma? && m[1].Comma? && m[2..] == l;
  }

  /** `re.sub(r',\s*$', '', …)` on lexemes: a final comma is dropped. */
  function DropLast(l: seq<Lexeme>): seq<Lexeme> {
    if l != [] && l[|l| - 1].Comma? then l[..|l| - 1] else l
  }

  /** `re.sub(r'^\s*,', '', …)` on lexemes: a first comma is dropped. */
  function DropFirst(l: seq<Lexeme>): seq<Lexeme> {
    if l != [] && l[0].Comma? then l[1..] else l
  }

  /** The three comma passes, in the order `normalize` applies them. */
  function TidyLex(l: seq<Lexeme>): seq<Lexeme> {
    DropFirst(DropLast(PairUp(l)))
  }

  /** The words, without the commas. */
  function Words(l: seq<Lexeme>): seq<string>
    decreases |l|
  {
    if l == [] then []
    else (if l[0].Word? then [l[0].letters] else []) + Words(l[1..])
  }

  /** The number of commas. */
  function NumCommas(l: seq<Lexeme>): nat
    decreases |l|
  {
    if l == [] then 0
    else (if l[0].Comma? then 1 else 0) + NumCommas(l[1..])
  }

  /** The number of commas in a text. */
  function CommaCount(s: string): nat
    decreases |s|
  {
    if s == [] then 0
    else (if s[0] == ',' then 1 else 0) + CommaCount(s[1..])
  }

  /** Every word upper-cased. */
  function UpperLex(l: seq<Lexeme>): (r: seq<Lexeme>)
    decreases |l|
  {
    if l == [] then []
    else [if l[0].Word? then Word(UpperStr(l[0].letters)) else Comma] + UpperLex(l[1..])
  }

  lemma PairUpHead(l: seq<Lexeme>)
    requires l != []
    ensures PairUp(l) != [] && PairUp(l)[0].Word? == l[0].Word?
  {
  }

  lemma PairUpGlue(c: char, l: seq<Lexeme>, g: bool)
    ensures PairUp(Glue(c, l, g)) == Glue(c, PairUp(l), g)
  {
    if l != [] {
      PairUpHead(l);
    }
    if g && l != [] && l[0].Word? {
      var t := [Word([c] + l[0].letters)] + l[1..];
      assert t[1..] == l[1..];
      assert PairUp(l) == [l[0]] + PairUp(l[1..]);
    } else {
      var t := [Word([c])] + l;
      assert t[1..] == l;
    }
  }

  lemma DropLastGlue(c: char, l: seq<Lexeme>, g: bool)
    ensures DropLast(Glue(c, l, g)) == Glue(c, DropLast(l), g)
  {
    if l != [] && l[|l| - 1].Comma? && |l| >= 2 {
      assert DropLast(l)[0] == l[0];
      assert DropLast(l)[1..] == l[1..][..|l| - 2];
    }
  }

  /** A word breaks every comma pair, so the pass acts on each side of it separately. */
  lemma {:induction false} PairUpWord(p: seq<Lexeme>, a: string, q: seq<Lexeme>)
    ensures PairUp(p + [Word(a)] + q) == PairUp(p) + [Word(a)] + PairUp(q)
    decreases |p|
  {
    var l := p + [Word(a)] + q;
    if p == [] {
      assert l == [Word(a)] + q && l[1..] == q;
    } else if |p| >= 2 && p[0].Comma? && p[1].Comma? {
      assert l[0] == p[0] && l[1] == p[1] && l[2..] == p[2..] + [Word(a)] + q;
      PairUpWord(p[2..], a, q);
    } else {
      assert l[0] == p[0] && l[1..] == p[1..] + [Word(a)] + q;
      if |p| == 1 {
        assert l[1] == Word(a);
      } else {
        assert l[1] == p[1];
      }
      PairUpWord(p[1..], a, q);
    }
  }

  /**
   * A comma between two words survives the comma passes, and so do the
   * two words: only commas next to another comma or at an end go.
   */
  lemma TidyLexKeepsLoneComma(p: seq<Lexeme>, a: string, b: string, q: seq<Lexeme>)
    ensures TidyLex(p + [Word(a), Comma, Word(b)] + q)
         == DropFirst(PairUp(p)) + [Word(a), Comma, Word(b)] + DropLast(PairUp(q))
  {
    var m := [Word(a), Comma, Word(b)];
    var x, y := PairUp(p), PairUp(q);
    PairUpAround(p, a, b, q);
    DropLastAfter(x + m, y);
    DropFirstBefore(x, m + DropLast(y));
    LexemesAssoc(x, m, DropLast(y));
  }

  lemma PairUpAround(p: seq<Lexeme>, a: string, b: string, q: seq<Lexeme>)
    ensures PairUp(p + [Word(a), Comma, Word(b)] + q) == PairUp(p) + [Word(a), Comma, Word(b)] + PairUp(q)
  {
    var r := [Comma, Word(b)] + q;
    Regroup(p, a, b, q);
    PairUpWord(p, a, r);
    PairUpWord([Comma], b, q);
    assert [Comma] + [Word(b)] + q == r;
    assert PairUp([Comma]) == [Comma];
    Regroup(PairUp(p), a, b, PairUp(q));
  }

  lemma LexemesAssoc(x: seq<Lexeme>, y: seq<Lexeme>, z: seq<Lexeme>)
    ensures (x + y) + z == x + (y + z)
  {
  }

  lemma Regroup(p: seq<Lexeme>, a: string, b: string, q: seq<Lexeme>)
    ensures p + [Word(a), Comma, Word(b)] + q == p + [Word(a)] + ([Comma, Word(b)] + q)
    ensures p + [Word(a)] + ([Comma] + [Word(b)] + q) == p + [Word(a), Comma, Word(b)] + q
  {
  }

  lemma DropLastCons(x: Lexeme, l: seq<Lexeme>)
    requires l != []
    ensures DropLast([x] + l) == [x] + DropLast(l)
  {
    if l[|l| - 1].Comma? {
      assert ([x] + l)[..|l|] == [x] + l[..|l| - 1];
    }
  }

  lemma DropLastAfter(x: seq<Lexeme>, y: seq<Lexeme>)
    requires x != [] && x[|x| - 1].Word?
    ensures DropLast(x + y) == x + DropLast(y)
  {
    if y != [] && y[|y| - 1].Comma? {
      assert (x + y)[..|x + y| - 1] == x + y[..|y| - 1];
    }
  }

  lemma DropFirstBefore(x: seq<Lexeme>, y: seq<Lexeme>)
    requires y != [] && y[0].Word?
    ensures DropFirst(x + y) == DropFirst(x) + y
  {
    if x != [] && x[0].Comma? {
      assert (x + y)[1..] == x[1..] + y;
    }
  }

  lemma {:induction false} WordsAppend(x: seq<Lexeme>, y: seq<Lexeme>)
    ensures Words(x + y) == Words(x) + Words(y)
    decreases |x|
  {
    if x != [] {
      assert (x + y)[0] == x[0] && (x + y)[1..] == x[1..] + y;
      WordsAppend(x[1..], y);
    } else {
      assert x + y == y;
    }
  }

  lemma {:induction false} WordsPairUp(l: seq<Lexeme>)
    ensures Words(PairUp(l)) == Words(l)
    decreases |l|
  {
    if l != [] {
      if |l| >= 2 && l[0].Comma? && l[1].Comma? {
        WordsPairUp(l[2..]);
        assert Words(l) == Words(l[1..]) && l[1..][1..] == l[2..];
        WordsAppend([Comma], PairUp(l[2..]));
      } else {
        WordsPairUp(l[1..]);
        WordsAppend([l[0]], PairUp(l[1..]));
      }
    }
  }

  /** The comma passes drop commas only: the words stay, in order. */
  lemma TidyLexWords(l: seq<Lexeme>)
    ensures Words(TidyLex(l)) == Words(l)
  {
    var u := PairUp(l);
    WordsPairUp(l);
    if u != [] && u[|u| - 1].Comma? {
      assert u == u[..|u| - 1] + [Comma];
      WordsAppend(u[..|u| - 1], [Comma]);
    }
    var v := DropLast(u);
    if v != [] && v[0].Comma? {
      assert v == [Comma] + v[1..];
      WordsAppend([Comma], v[1..]);
    }
  }

  lemma {:induction false} NumCommasAppend(x: seq<Lexeme>, y: seq<Lexeme>)
    ensures NumCommas(x + y) == NumCommas(x) + NumCommas(y)
    decreases |x|
  {
    if x != [] {
      assert (x + y)[0] == x[0] && (x + y)[1..] == x[1..] + y;
      NumCommasAppend(x[1..], y);
    } else {
      assert x + y == y;
    }
  }

  lemma {:induction false} CommaCountAppend(x: string, y: string)
    ensures CommaCount(x + y) == CommaCount(x) + CommaCount(y)
    decreases |x|
  {
    if x != [] {
      assert (x + y)[0] == x[0] && (x + y)[1..] == x[1..] + y;
      CommaCountAppend(x[1..], y);
    } else {
      assert x + y == y;
    }
  }

  /** A run of word characters holds no comma. */
  lemma {:induction false} CommaCountOfWord(s: string, e: nat)
    requires e <= |s| && forall k :: 0 <= k < e ==> InWord(s[k])
    ensures CommaCount(s[..e]) == 0
    decreases e
  {
    if e > 0 {
      assert s[..e][1..] == s[1..][..e - 1];
      CommaCountOfWord(s[1..], e - 1);
    }
  }

  /** The lexemes hold every comma of the text. */
  lemma {:induction false} NumCommasLex(s: string)
    ensures NumCommas(Lex(s)) == CommaCount(s)
    decreases |s|
  {
    if s != [] && !InWord(s[0]) {
      NumCommasLex(s[1..]);
      if s[0] == ',' {
        NumCommasAppend([Comma], Lex(s[1..]));
      }
    } else if s != [] {
      var e := WordEnd(s, 0);
      NumCommasLex(s[e..]);
      NumCommasAppend([Word(s[..e])], Lex(s[e..]));
      assert s == s[..e] + s[e..];
      CommaCountAppend(s[..e], s[e..]);
      CommaCountOfWord(s, e);
    }
  }

  lemma UpperLexGlue(c: char, l: seq<Lexeme>, g: bool)
    ensures UpperLex(Glue(c, l, g)) == Glue(Upper(c), UpperLex(l), g)
  {
    UpperStrCons(c, []);
    assert [c] + [] == [c] && UpperStr([]) == [];
    if l != [] {
      assert UpperLex(l)[0].Word? == l[0].Word?;
    }
    if g && l != [] && l[0].Word? {
      UpperStrCons(c, l[0].letters);
      var t := [Word([c] + l[0].letters)] + l[1..];
      assert t[1..] == l[1..];
    } else {
      var t := [Word([c])] + l;
      assert t[1..] == l;
      assert UpperLex(t) == [Word(UpperStr([c]))] + UpperLex(l);
      assert UpperStr([c]) == [Upper(c)];
      assert !(g && UpperLex(l) != [] && UpperLex(l)[0].Word?);
    }
  }

  lemma {:induction false} UpperLexAppend(x: seq<Lexeme>, y: seq<Lexeme>)
    ensures UpperLex(x + y) == UpperLex(x) + UpperLex(y)
    decreases |x|
  {
    if x != [] {
      assert (x + y)[0] == x[0] && (x + y)[1..] == x[1..] + y;
      UpperLexAppend(x[1..], y);
    } else {
      assert x + y == y;
    }
  }

  lemma UpperLexAround(p: seq<Lexeme>, a: string, b: string, q: seq<Lexeme>)
    ensures UpperLex(p + [Word(a), Comma, Word(b)] + q)
         == UpperLex(p) + [Word(UpperStr(a)), Comma, Word(UpperStr(b))] + UpperLex(q)
  {
    var m := [Word(a), Comma, Word(b)];
    UpperLexAppend(p + m, q);
    UpperLexAppend(p, m);
    UpperLexOfLone(a, b);
  }

  lemma UpperLexOfLone(a: string, b: string)
    ensures UpperLex([Word(a), Comma, Word(b)]) == [Word(UpperStr(a)), Comma, Word(UpperStr(b))]
  {
    UpperLexOfCommaWord(b);
    UpperLexOfWordFirst(a, [Comma, Word(b)]);
    assert [Word(UpperStr(a))] + [Comma, Word(UpperStr(b))] == [Word(UpperStr(a)), Comma, Word(UpperStr(b))];
  }

  lemma UpperLexOfWordFirst(a: string, l: seq<Lexeme>)
    ensures UpperLex([Word(a)] + l) == [Word(UpperStr(a))] + UpperLex(l)
  {
    assert ([Word(a)] + l)[0] == Word(a) && ([Word(a)] + l)[1..] == l;
  }

  lemma UpperLexOfCommaWord(b: string)
    ensures UpperLex([Comma, Word(b)]) == [Comma, Word(UpperStr(b))]
  {
    var m := [Comma, Word(b)];
    assert m[1..] == [Word(b)] && m[1..][1..] == [];
    assert UpperLex([Word(b)]) == [Word(UpperStr(b))];
  }

  lemma UpperStrCons(c: char, w: string)
    ensures UpperStr([c] + w) == [Upper(c)] + UpperStr(w)
  {
    var s := [c] + w;
    assert s[1..] == w;
  }

  /** Upper-casing changes the letters of the words and nothing else. */
  lemma {:induction false} LexUpper(s: string)
    ensures Lex(UpperStr(s)) == UpperLex(Lex(s))
    decreases |s|
  {
    if s != [] {
      LexUpper(s[1..]);
      LexUpperStep(s);
    }
  }

  lemma LexUpperStep(s: string)
    requires s != []
    requires Lex(UpperStr(s[1..])) == UpperLex(Lex(s[1..]))
    ensures Lex(UpperStr(s)) == UpperLex(Lex(s))
  {
    var c, x := s[0], s[1..];
    assert s == [c] + x;
    UpperStrCons(c, x);
    UpperKeepsClass(c);
    LexCons(c, x);
    LexCons(Upper(c), UpperStr(x));
    if x != [] {
      UpperKeepsClass(x[0]);
      assert UpperStr(x)[0] == Upper(x[0]);
    }
    if InWord(c) {
      UpperLexGlue(c, Lex(x), StartsWord(x));
    }
  }
}
