/**
 * `_remove_duplicates`: the text is split on every comma, each field is
 * stripped, every run of equal adjacent fields is kept once, and the fields
 * are joined again with `", "`.
 *
 * Line numbers below refer to `app/services/normalization_service.py`.
 */
module Dedupe {
  import opened CharClass
  import Rewrite

  /** `s.split(',')`: the fields between commas; the empty text is one empty field. */
  function Split(s: string): (r: seq<string>)
    ensures |r| >= 1
    ensures forall k :: 0 <= k < |r| ==> ',' !in r[k]
  {
    if s == [] then [[]]
    else if s[0] == ',' then [[]] + Split(s[1..])
    else
      var rest := Split(s[1..]);
      [[s[0]] + rest[0]] + rest[1..]
  }

  /** The number of characters in all the fields together. */
  function TotalLength(xs: seq<string>): nat
  {
    if xs == [] then 0 else |xs[0]| + TotalLength(xs[1..])
  }

  /** `sep.join(xs)`: the fields in order, one separator between each two. */
  function Join(xs: seq<string>, sep: string): (r: string)
    ensures xs == [] ==> r == []
    ensures |xs| >= 1 ==> xs[0] <= r && |r| == TotalLength(xs) + (|xs| - 1) * |sep|
  {
    if xs == [] then []
    else if |xs| == 1 then xs[0]
    else xs[0] + sep + Join(xs[1..], sep)
  }

  /** `[p.strip() for p in parts]`. */
  function StripAll(parts: seq<string>): (r: seq<string>)
    ensures |r| == |parts|
    ensures forall k :: 0 <= k < |r| ==> r[k] == Strip(parts[k])
    ensures forall k :: 0 <= k < |r| && r[k] != [] ==> !IsSpace(r[k][0]) && !IsSpace(r[k][|r[k]| - 1])
  {
    seq(|parts|, k requires 0 <= k < |parts| => Strip(parts[k]))
  }

  /** The fields the loop of `_remove_duplicates` keeps: a field is dropped when it equals the last one kept. */
  function Dedup(xs: seq<string>): (r: seq<string>)
    ensures |r| <= |xs|
    ensures r == [] <==> xs == []
    ensures xs != [] ==> r[|r| - 1] == xs[|xs| - 1]
  {
    if xs == [] then []
    else
      var kept := Dedup(xs[..|xs| - 1]);
      var x := xs[|xs| - 1];
      if kept != [] && x == kept[|kept| - 1] then kept else kept + [x]
  }

  /**
   * What `_remove_duplicates` returns for `text`: every comma of the result
   * is followed by a space, and text without a comma is only stripped.
   */
  function RemoveDuplicatesText(text: string): (r: string)
    ensures Rewrite.CommasSpaced(r)
    ensures ',' !in text ==> r == Strip(text)
  {
    var parts := StripAll(Split(text));
    StripAllFields(text);
    DedupSubset(parts);
    JoinCommasSpaced(Dedup(parts));
    assert ',' !in text ==> parts == [Strip(text)] by {
      if ',' !in text {
        SplitNoComma(text);
      }
    }
    Join(Dedup(parts), ", ")
  }

  /** Lines 164-179 as written: the fields are split and stripped, then deduplicated by a loop and joined. */
  method RemoveDuplicates(text: string) returns (r: string)
    ensures r == RemoveDuplicatesText(text)
  {
    var parts := StripAll(Split(text));
    var result := DropRepeats(parts);
    r := Join(result, ", ");
  }

  /** Lines 173-177: a list built by appending each field unless it repeats the last one appended. */
  method DropRepeats(parts: seq<string>) returns (result: seq<string>)
    ensures result == Dedup(parts)
  {
    result := [];
    for i := 0 to |parts|
      invariant result == Dedup(parts[..i])
    {
      DedupStep(parts, i);
      if result == [] || parts[i] != result[|result| - 1] {
        result := result + [parts[i]];
      }
    }
    assert parts[..|parts|] == parts;
  }

  /** One more field: it is kept unless it equals the last field kept so far. */
  lemma DedupStep(xs: seq<string>, i: nat)
    requires i < |xs|
    ensures var kept := Dedup(xs[..i]);
      Dedup(xs[..i + 1]) == if kept != [] && xs[i] == kept[|kept| - 1] then kept else kept + [xs[i]]
  {
    assert xs[..i + 1][..i] == xs[..i];
  }

  // ---------------------------------------------------------------------
  // Splitting and joining
  // ---------------------------------------------------------------------

  /** Joining the fields with `","` gives the text back. */
  lemma {:induction false} JoinSplit(s: string)
    ensures Join(Split(s), ",") == s
    decreases |s|
  {
    if s != [] {
      JoinSplit(s[1..]);
      if s[0] != ',' {
        var rest := Split(s[1..]);
        if |rest| > 1 {
          assert ([[s[0]] + rest[0]] + rest[1..])[1..] == rest[1..];
        }
      }
    }
  }

  /** Text without a comma is one field. */
  lemma {:induction false} SplitNoComma(a: string)
    requires ',' !in a
    ensures Split(a) == [a]
    decreases |a|
  {
    if a != [] {
      assert a[0] in a;
      assert forall c :: c in a[1..] ==> c in a;
      SplitNoComma(a[1..]);
      assert [a[0]] + a[1..] == a;
    }
  }

  /** A comma-free field followed by a comma splits off as the first field. */
  lemma {:induction false} SplitField(a: string, b: string)
    requires ',' !in a
    ensures Split(a + "," + b) == [a] + Split(b)
    decreases |a|
  {
    if a == [] {
      var s := a + "," + b;
      assert s == [','] + b;
      assert s[0] == ',' && s[1..] == b;
      assert Split(s) == [[]] + Split(b);
    } else {
      assert a[0] in a;
      assert forall c :: c in a[1..] ==> c in a;
      var s := a + "," + b;
      assert s[0] == a[0] && s[1..] == a[1..] + "," + b;
      SplitField(a[1..], b);
      assert [a[0]] + a[1..] == a;
    }
  }

  /** Splitting the comma-joined fields gives the fields back. */
  lemma {:induction false} SplitJoin(xs: seq<string>)
    requires |xs| >= 1
    requires forall k :: 0 <= k < |xs| ==> ',' !in xs[k]
    ensures Split(Join(xs, ",")) == xs
    decreases |xs|
  {
    if |xs| == 1 {
      SplitNoComma(xs[0]);
    } else {
      SplitJoin(xs[1..]);
      SplitField(xs[0], Join(xs[1..], ","));
      assert [xs[0]] + xs[1..] == xs;
    }
  }

  /** A stripped field keeps only characters of the field. */
  lemma StripKeeps(f: string)
    ensures forall c :: c in Strip(f) ==> c in f
  {
    var a := SkipSpaces(f, 0);
    var r := Strip(f);
    assert forall j :: 0 <= j < |r| ==> r[j] == f[a + j];
  }

  /** The stripped fields hold no comma. */
  lemma StripAllFields(s: string)
    ensures forall k :: 0 <= k < |StripAll(Split(s))| ==> ',' !in StripAll(Split(s))[k]
  {
    var parts := Split(s);
    forall k | 0 <= k < |parts|
      ensures ',' !in Strip(parts[k])
    {
      StripKeeps(parts[k]);
    }
  }

  /** Every comma of the `", "`-joined text is followed by a space when the fields hold no comma. */
  lemma {:induction false} JoinCommasSpaced(xs: seq<string>)
    requires forall k :: 0 <= k < |xs| ==> ',' !in xs[k]
    ensures Rewrite.CommasSpaced(Join(xs, ", "))
    decreases |xs|
  {
    if |xs| == 1 {
      Rewrite.PrefixCommasSpaced(xs[0], []);
      assert xs[0] + [] == xs[0];
    } else if |xs| > 1 {
      JoinCommasSpaced(xs[1..]);
      var t := Join(xs[1..], ", ");
      Rewrite.ConsCommasSpaced(' ', t);
      Rewrite.ConsCommasSpaced(',', " " + t);
      assert [','] + (" " + t) == ", " + t;
      Rewrite.PrefixCommasSpaced(xs[0], ", " + t);
      assert xs[0] + ", " + t == xs[0] + (", " + t);
    }
  }

  // ---------------------------------------------------------------------
  // What the duplicate filter keeps
  // ---------------------------------------------------------------------

  predicate NoAdjacentRepeat(xs: seq<string>) {
    forall k :: 0 < k < |xs| ==> xs[k] != xs[k - 1]
  }

  /** The kept fields are fields of the input. */
  lemma {:induction false} DedupSubset(xs: seq<string>)
    ensures forall k :: 0 <= k < |Dedup(xs)| ==> Dedup(xs)[k] in xs
    decreases |xs|
  {
    if xs != [] {
      var init := xs[..|xs| - 1];
      DedupSubset(init);
      assert forall x :: x in init ==> x in xs;
    }
  }

  /** Every field of the input is kept (possibly as a member of its run). */
  lemma {:induction false} DedupKeepsEvery(xs: seq<string>)
    ensures forall k :: 0 <= k < |xs| ==> xs[k] in Dedup(xs)
    decreases |xs|
  {
    if xs != [] {
      var init := xs[..|xs| - 1];
      DedupKeepsEvery(init);
      forall k | 0 <= k < |xs|
        ensures xs[k] in Dedup(xs)
      {
        if k < |xs| - 1 {
          assert xs[k] == init[k];
        }
      }
    }
  }

  /** No two adjacent kept fields are equal. */
  lemma {:induction false} DedupNoAdjacentRepeat(xs: seq<string>)
    ensures NoAdjacentRepeat(Dedup(xs))
    decreases |xs|
  {
    if xs != [] {
      DedupNoAdjacentRepeat(xs[..|xs| - 1]);
    }
  }

  /** Fields with no adjacent repeat are all kept, so non-adjacent repeats survive. */
  lemma {:induction false} DedupKeepsNonAdjacent(xs: seq<string>)
    requires NoAdjacentRepeat(xs)
    ensures Dedup(xs) == xs
    decreases |xs|
  {
    if xs != [] {
      var init := xs[..|xs| - 1];
      DedupKeepsNonAdjacent(init);
      if |xs| > 1 {
        assert xs[|xs| - 1] != xs[|xs| - 2];
      }
      assert init + [xs[|xs| - 1]] == xs;
    }
  }

  /** Dropping one copy of an adjacent repeat anywhere does not change what is kept. */
  lemma {:induction false} DedupDropRepeat(a: seq<string>, x: string, b: seq<string>)
    ensures Dedup(a + [x, x] + b) == Dedup(a + [x] + b)
    decreases |b|
  {
    if b == [] {
      var s := a + [x, x];
      assert s[..|s| - 1] == a + [x];
      assert a + [x, x] + b == s && a + [x] + b == a + [x];
    } else {
      var b' := b[..|b| - 1];
      var s := a + [x, x] + b;
      var t := a + [x] + b;
      assert s[..|s| - 1] == a + [x, x] + b';
      assert t[..|t| - 1] == a + [x] + b';
      assert s[|s| - 1] == t[|t| - 1];
      DedupDropRepeat(a, x, b');
    }
  }

  /** Filtering twice keeps what filtering once kept. */
  lemma DedupIdempotent(xs: seq<string>)
    ensures Dedup(Dedup(xs)) == Dedup(xs)
  {
    DedupNoAdjacentRepeat(xs);
    DedupKeepsNonAdjacent(Dedup(xs));
  }

  /** A field without whitespace at its ends, as the fields of a tidy description are. */
  predicate PlainField(f: string) {
    f != [] && ',' !in f && !IsSpace(f[0]) && !IsSpace(f[|f| - 1])
  }

  /** The space after a comma is stripped away, and a plain field is left as it is. */
  lemma StripPlainField(f: string)
    requires PlainField(f)
    ensures Strip(" " + f) == f && Strip(f) == f
  {
    var g := " " + f;
    assert SkipSpaces(f, 0) == 0 && TrimEnd(f, 0, |f|) == |f|;
    assert SkipSpaces(g, 1) == 1 && SkipSpaces(g, 0) == 1;
    assert TrimEnd(g, 1, |g|) == |g|;
    assert g[1..] == f;
  }

  /** Every field with the space that follows its comma. */
  function PadAll(ys: seq<string>): (r: seq<string>)
    ensures |r| == |ys|
    ensures forall k :: 0 <= k < |ys| ==> r[k] == " " + ys[k]
  {
    seq(|ys|, k requires 0 <= k < |ys| => " " + ys[k])
  }

  lemma {:induction false} JoinPadAll(ys: seq<string>)
    requires |ys| >= 1
    ensures " " + Join(ys, ", ") == Join(PadAll(ys), ",")
    decreases |ys|
  {
    if |ys| > 1 {
      JoinPadAll(ys[1..]);
      assert PadAll(ys)[1..] == PadAll(ys[1..]);
      assert " " + Join(ys, ", ") == (" " + ys[0]) + "," + (" " + Join(ys[1..], ", "));
    }
  }

  lemma CommaThenSpace(a: string, t: string)
    ensures a + ", " + t == a + "," + (" " + t)
  {
  }

  /** Read as `","`-separated text, the `", "`-join has the later fields padded with a space. */
  lemma JoinAsCommaFields(xs: seq<string>)
    requires |xs| >= 1
    ensures Join(xs, ", ") == Join([xs[0]] + PadAll(xs[1..]), ",")
  {
    var rest := PadAll(xs[1..]);
    var ys := [xs[0]] + rest;
    if |xs| > 1 {
      JoinPadAll(xs[1..]);
      assert ys[0] == xs[0] && ys[1..] == rest;
      assert Join(ys, ",") == xs[0] + "," + Join(rest, ",");
      CommaThenSpace(xs[0], Join(xs[1..], ", "));
    } else {
      assert ys == [xs[0]];
    }
  }

  /** The padded fields hold no comma and strip back to the plain fields. */
  lemma StripPadded(xs: seq<string>)
    requires |xs| >= 1
    requires forall k :: 0 <= k < |xs| ==> PlainField(xs[k])
    ensures forall k :: 0 <= k < |xs| ==> ',' !in ([xs[0]] + PadAll(xs[1..]))[k]
    ensures StripAll([xs[0]] + PadAll(xs[1..])) == xs
  {
    var ys := [xs[0]] + PadAll(xs[1..]);
    forall k | 0 <= k < |ys|
      ensures ',' !in ys[k] && Strip(ys[k]) == xs[k]
    {
      StripPlainField(xs[k]);
      if k > 0 {
        assert ys[k] == " " + xs[k];
      }
    }
  }

  /**
   * On plain fields already joined with `", "`, the duplicate pass is the
   * duplicate filter on the fields themselves.
   */
  lemma RemoveDuplicatesOfFields(xs: seq<string>)
    requires |xs| >= 1
    requires forall k :: 0 <= k < |xs| ==> PlainField(xs[k])
    ensures RemoveDuplicatesText(Join(xs, ", ")) == Join(Dedup(xs), ", ")
  {
    var ys := [xs[0]] + PadAll(xs[1..]);
    JoinAsCommaFields(xs);
    StripPadded(xs);
    SplitJoin(ys);
  }

  /** A third field after two pairs is kept when it differs from the second. */
  lemma DedupPairsThen(a: string, b: string, c: string)
    requires a != b && b != c
    ensures Dedup([a, a, b, b, c]) == [a, b, c]
  {
    assert [a, a, b, b, c][..4] == [a, a, b, b];
    DedupPairs(a, b);
    assert [a, b] + [c] == [a, b, c];
  }

  lemma DedupPairs(a: string, b: string)
    requires a != b
    ensures Dedup([a, a, b, b]) == [a, b]
  {
    DedupDropRepeat([], a, [b, b]);
    assert [a, a, b, b] == [] + [a, a] + [b, b];
    DedupDropRepeat([a], b, []);
    assert [] + [a] + [b, b] == [a] + [b, b] + [];
    DedupKeepsNonAdjacent([a, b]);
    assert [a] + [b] + [] == [a, b];
  }

  /** `"A, A, B, B"` becomes `"A, B"` for any two different plain fields `A` and `B`. */
  lemma RemoveDuplicatesOfPairs(a: string, b: string)
    requires PlainField(a) && PlainField(b) && a != b
    ensures RemoveDuplicatesText(a + ", " + a + ", " + b + ", " + b) == a + ", " + b
  {
    var xs := [a, a, b, b];
    assert xs[1..][1..][1..] == [b];
    assert Join(xs[1..][1..], ", ") == b + ", " + b;
    assert Join(xs[1..], ", ") == a + ", " + (b + ", " + b);
    assert Join(xs, ", ") == a + ", " + a + ", " + b + ", " + b;
    RemoveDuplicatesOfFields(xs);
    DedupPairs(a, b);
    JoinPair(a, b);
  }

  lemma JoinPair(a: string, b: string)
    ensures Join([a, b], ", ") == a + ", " + b
  {
    assert [a, b][1..] == [b];
  }

  /** `"SEDAN, SEDAN, MT, MT"` becomes `"SEDAN, MT"`. */
  lemma RemoveDuplicatesExample()
    ensures RemoveDuplicatesText("SEDAN, SEDAN, MT, MT") == "SEDAN, MT"
  {
    var a, b := "SEDAN", "MT";
    assert PlainField(a) && PlainField(b) && a != b;
    RemoveDuplicatesOfPairs(a, b);
    ExampleTexts();
  }

  lemma ExampleTexts()
    ensures "SEDAN" + ", " + "SEDAN" + ", " + "MT" + ", " + "MT" == "SEDAN, SEDAN, MT, MT"
    ensures "SEDAN" + ", " + "MT" == "SEDAN, MT"
  {
  }
}
