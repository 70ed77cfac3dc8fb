# Vehicle homologation: description normaliser and match decision

This project models the two parts of the vehicle homologation service that hold
its decision logic. It proves properties about both.

- **`NormalizationService.normalize`** turns a partner's free-text vehicle
  description into the catalogue's canonical form. Both modes upper-case and
  strip the text, clean up runs of commas, and finally normalise whitespace and
  comma spacing. Full mode also drops consecutive duplicate comma-separated
  fields, folds synonyms with five ordered whole-word tables (transmission,
  power, body, fuel, drive), and rewrites engine displacement (`1600CC` becomes
  `1.6L`).
- **`VehicleService.get_similar_vehicles`** turns a description into one
  catalogue record or none. It runs a vector query on the normalised text and
  splits the hits into a high band and a best-effort band. It then
  short-circuits when nothing qualifies, accepts a single high hit outside
  strict mode, and otherwise looks the candidates up in storage and lets an
  arbitration model choose. The model's choice is accepted only when it names
  one of the resolved records.

Module layout:

- `CharClass` (chars.dfy): `\s`, `\d`, `\w`, `str.upper()` and `str.strip()`.
- `Lexemes` (lexemes.dfy): text read as its words and commas, the view in
  which the clean-up passes are shown to keep every word and comma.
- `Litres` (litres.dfy): the `f"{n/1000:.1f}L"` conversion.
- `Rewrite` (rewrite.dfy): patterns and `re.sub`.
- `Cleanup` (cleanup.dfy): the comma and whitespace clean-up passes.
- `Dedupe` (dedupe.dfy): `_remove_duplicates`.
- `Fields` (fields.dfy): how `re.sub` acts on `", "`-joined fields.
- `Mappings` (mappings.dfy): the five tables and `_apply_mappings`.
- `Engine` (engine.dfy): `ENGINE_PATTERNS` and `_normalize_engine`.
- `Normalize` (normalize.dfy): `normalize` itself.
- `Matching` (matching.dfy): the lookups and `get_similar_vehicles`.
- `Wrappers` (wrappers.dfy): `Option`.

How `re.sub` is modelled:

- A regular expression becomes a `Rule`: a synonym pattern (one literal word, or
  two literal words with `\s*` between them), or one of the three displacement
  patterns.
- `Match(s, i, rule)` is the match that starts at position `i`, if any.
  `\b` and the look-ahead read the original text.
- `Sub` is the non-overlapping left-to-right scan over those matches: a match
  is replaced and the scan resumes after it; elsewhere one character is copied.
- Matching ignores case, as `flags=re.IGNORECASE` does. `\d` is read as the
  ASCII digits and `\w` as the Latin-1 word characters.

The collaborators are parameters:

- The catalogue is a map from `id_crabi` to description. `id_crabi` is a unique
  column.
- The vector store's answer is an optional list of hits.
- The arbitration model's verdict is an arbitrary optional id.

`get_similar_vehicles` returns the record together with the list of
collaborator calls it made, in order. This lets "no lookup" and "no
arbitration" be stated. `normalize` reads only its arguments and the constant
tables, so it is modelled as a function. Equal arguments therefore give equal
results.

Two behaviours of the code a reader may not expect:

- The comma clean-up is a single non-overlapping pass. Between two words `,,,`
  keeps two commas, and the final spacing turns them into `", , "`. A space can
  therefore precede a comma, but only directly after another comma.
- At the end of the text the same pass leaves two commas of `,,,`, and only the
  last of them is dropped as trailing, so `A,,,` becomes `A,`. A final comma
  can therefore survive, with no space after it.
- Full mode is not idempotent.

## Model

| member | source | states |
|---|---|---|
| CharClass.Upper | app/services/normalization_service.py:131 | `upper()` on a character maps exactly the Latin-1 lower-case letters to their capitals (code point minus 32), fixes every other character, and never leaves a lower-case letter |
| CharClass.UpperStr | app/services/normalization_service.py:131 | upper-casing keeps the length and maps every character by `Upper` |
| CharClass.UpperKeepsClass | app/services/normalization_service.py:131 | upper-casing never turns a character into or out of whitespace, a comma, a word character or a digit |
| CharClass.UpperIdempotent | app/services/normalization_service.py:131 | upper-casing twice is upper-casing once |
| CharClass.UpperStrFixes | app/services/normalization_service.py:131 | text without lower-case letters is its own upper-case form |
| Lexemes.LexUpper | app/services/normalization_service.py:131 | upper-casing the text upper-cases the letters of its words and changes no word boundary and no comma |
| CharClass.SkipSpaces | app/services/normalization_service.py:131 | the greedy whitespace run: everything skipped is whitespace and the scan stops on a non-space or at the end |
| CharClass.TrimEnd | app/services/normalization_service.py:131 | the trailing whitespace run before a position: everything dropped is whitespace and what is kept ends on a non-space |
| CharClass.Strip | app/services/normalization_service.py:131 | `strip()` never lengthens the text and leaves no whitespace at either end |
| Cleanup.StripSplit | app/services/normalization_service.py:131 | the text is whitespace, then its strip, then whitespace |
| Cleanup.StripIsSlice | app/services/normalization_service.py:155 | a strip is a contiguous slice of the text |
| Litres.RoundHalfEvenIsNearest | app/services/normalization_service.py:96 | round-half-even division lands within half a divisor of the exact quotient |
| Litres.RoundHalfEvenUnique | app/services/normalization_service.py:96 | any integer strictly nearer than half a divisor is the rounded quotient |
| Litres.RoundedOfHundreds | app/services/normalization_service.py:96 | once a multiple of 100 is scaled to a 53-bit binary64 mantissa, rounding to the mantissa and then to tenths gives back its tenths exactly |
| Litres.TenthsScaledOfHundreds | app/services/normalization_service.py:96 | the binary64 division by 1000 and the one-decimal formatting are exact for multiples of 100 below 10000, at any scaling |
| Litres.TenthsOfHundreds | app/services/normalization_service.py:96 | `n/1000` printed with one decimal gives exactly `n/100` tenths when `n` is a multiple of 100 below 10000 |
| Litres.TenthsScaledNearest | app/services/normalization_service.py:96 | for any `n` below 10000, at any scaling, the binary64 division and one-decimal rounding land within half a tenth of `n / 1000` |
| Litres.TenthsNearest | app/services/normalization_service.py:96 | `n/1000` printed with one decimal is within half a tenth of `n / 1000` for every `n` below 10000 |
| Litres.DecimalText | app/services/normalization_service.py:96 | `str(n)` is a non-empty string of decimal digits that reads back as `n`, with no leading zero unless `n` is 0 |
| Litres.LitresText | app/services/normalization_service.py:96 | the replacement text ends in a tenths digit and `L` after a `.`, and holds only digits, `.` and `L` |
| Litres.LitresOfHundreds | app/services/normalization_service.py:96 | a multiple of 100 prints as its whole litres, `.`, its tenth digit and `L` (1600 gives `1.6L`) |
| Rewrite.PatternEnd | app/services/normalization_service.py:17-91 | a synonym pattern match that starts at a position ends strictly after it and within the text |
| Rewrite.Match | app/services/normalization_service.py:17-101 | every match of a table or displacement pattern is non-empty and lies within the text |
| Rewrite.Matches | app/services/normalization_service.py:184 | the table of matches at every position, each one ahead of its start, which the `re.sub` scan reads |
| Rewrite.SubFromStep | app/services/normalization_service.py:184 | one step of `re.sub`: a match is replaced and the scan jumps past it, otherwise one character is copied |
| Rewrite.SubFromNoMatch | app/services/normalization_service.py:184 | where no match starts, `re.sub` copies the text unchanged |
| Rewrite.SubFromCopies | app/services/normalization_service.py:184 | where no match starts in a stretch, `re.sub` copies that stretch and carries on after it |
| Rewrite.SubFirstMatch | app/services/normalization_service.py:184 | `re.sub` copies the text before the leftmost match, puts the replacement in place of the match, and resumes the scan where the match ends |
| Rewrite.ApplyRulesAppend | app/services/normalization_service.py:183-184 | applying a list of patterns in two parts is applying the first part, then the second |
| Rewrite.ApplyRulesCons | app/services/normalization_service.py:183-184 | the loop applies the first pattern first: the rest of the list then works on its result |
| Rewrite.SynonymMatchIsWholeWord | app/services/normalization_service.py:17-91 | a `\b…\b` pattern that starts and ends with a word character matches only a whole word: a word character with no word character before it, and likewise at its end |
| Rewrite.MatchAvoidsCommas | app/services/normalization_service.py:17-101 | when every comma is followed by whitespace, no match of a comma-free pattern starts on whitespace or touches a comma |
| Rewrite.ScanKeepsCommasSpaced | app/services/normalization_service.py:184 | a scan whose matches avoid commas keeps every comma followed by whitespace |
| Rewrite.ApplyRulesKeepsCommasSpaced | app/services/normalization_service.py:183-184 | a list of comma-free patterns keeps every comma followed by whitespace |
| Rewrite.DecimalCommaNeverMatches | app/services/normalization_service.py:98 | when every comma is followed by whitespace, `\b(\d),(\d)\b` changes nothing |
| Cleanup.CollapseSpacesRun | app/services/normalization_service.py:153 | `\s+` to `' '` turns a whitespace run between two non-space characters into exactly one space and treats the two sides separately |
| Cleanup.LexCollapseSpaces | app/services/normalization_service.py:153 | `\s+` to `' '` keeps every word and every comma, in order: no whitespace run vanishes |
| Cleanup.SpaceCommasAround | app/services/normalization_service.py:154 | a comma after a word, with any whitespace on both sides, becomes exactly `", "`, and the two sides are treated separately |
| Cleanup.LexSpaceCommas | app/services/normalization_service.py:154 | `\s*,\s*` to `', '` keeps every word and every comma, in order |
| Cleanup.SpaceCommasShape | app/services/normalization_service.py:153-154 | on text whose whitespace is single spaces, `\s*,\s*` to `', '` leaves only single spaces and a space after every comma |
| Cleanup.TidySpacesWellSpaced | app/services/normalization_service.py:153-155 | the final clean-up leaves no whitespace at the ends, only single plain spaces, a space after every comma but a final one, and a space before a comma only directly after another comma |
| Cleanup.LexStrip | app/services/normalization_service.py:131 | `strip()` keeps every word and every comma, in order |
| Cleanup.LexTidySpaces | app/services/normalization_service.py:153-155 | the final clean-up keeps the words and commas exactly: no two words merge, no word splits, no comma is lost or added |
| Cleanup.TidySpacesKeepsCommas | app/services/normalization_service.py:153-155 | the final clean-up keeps the number of commas |
| Cleanup.LexCollapseCommaPairs | app/services/normalization_service.py:134 | `,\s*,` to `,` replaces each pair of commas with only whitespace between by one comma, left to right without overlap, and keeps every word |
| Cleanup.LexDropTrailingComma | app/services/normalization_service.py:135 | `,\s*$` to `''` drops a final comma and changes no word or other comma |
| Cleanup.LexDropLeadingComma | app/services/normalization_service.py:136 | `^\s*,` to `''` drops a first comma and changes no word or other comma |
| Cleanup.LexTidyCommas | app/services/normalization_service.py:134-136 | the three comma passes, read as words and commas, are the pairing, then dropping a final comma, then dropping a first one |
| Lexemes.TidyLexWords | app/services/normalization_service.py:134-136 | the comma passes keep every word, in order |
| Cleanup.TidyCommasKeepsWords | app/services/normalization_service.py:134-136 | the comma clean-up keeps every word of the text, in order: none is dropped, split or merged |
| Lexemes.TidyLexKeepsLoneComma | app/services/normalization_service.py:134-136 | a comma with a word on each side survives the comma passes, between the same two words |
| Cleanup.TidyCommasKeepsLoneComma | app/services/normalization_service.py:134-136 | a comma with a word on each side is still there after the comma clean-up, between the same two words, and the text around is tidied on its own |
| Cleanup.TidyIsFixed | app/services/normalization_service.py:131-136 | on tidy text, stripping and both clean-up stages change nothing |
| Cleanup.TidyJoin | app/services/normalization_service.py:179 | a field without whitespace or commas, then `", "`, then tidy text, is again tidy |
| Cleanup.TidyCommasOfRun | app/services/normalization_service.py:134-136 | between two plain words, `,,,` becomes `,,` (one non-overlapping pass) |
| Cleanup.TidySpacesOfPair | app/services/normalization_service.py:153-155 | between two plain words, `,,` becomes `", , "` |
| Dedupe.Split | app/services/normalization_service.py:171 | `split(',')` gives at least one field and no field holds a comma |
| Dedupe.JoinSplit | app/services/normalization_service.py:171 | joining the split fields with `","` gives the text back |
| Dedupe.SplitJoin | app/services/normalization_service.py:171 | splitting comma-free fields joined with `","` gives the fields back |
| Dedupe.StripAll | app/services/normalization_service.py:171 | one stripped field per field, each without whitespace at either end |
| Dedupe.StripAllFields | app/services/normalization_service.py:171 | the stripped fields of the split (`StripAll`) hold no comma |
| Dedupe.DropRepeats | app/services/normalization_service.py:173-177 | the append loop keeps exactly the fields of the duplicate filter `Dedup` |
| Dedupe.RemoveDuplicates | app/services/normalization_service.py:164-179 | the method returns the stripped fields, each run of equal adjacent fields kept once, joined with `", "` |
| Dedupe.RemoveDuplicatesText | app/services/normalization_service.py:164-179 | every comma of the result is followed by a space, and text without a comma is only stripped |
| Dedupe.Join | app/services/normalization_service.py:179 | no fields join to `""`; otherwise the join starts with the first field and is as long as the fields and one separator between each two |
| Dedupe.Dedup | app/services/normalization_service.py:173-177 | the kept list is never longer than the input, is empty only for no fields, and ends with the input's last field |
| Dedupe.DedupStep | app/services/normalization_service.py:176-177 | one more field is kept unless it equals the last field kept |
| Dedupe.DedupSubset | app/services/normalization_service.py:173-177 | every kept field is a field of the input |
| Dedupe.DedupKeepsEvery | app/services/normalization_service.py:173-177 | every field of the input appears among the kept fields |
| Dedupe.DedupNoAdjacentRepeat | app/services/normalization_service.py:173-177 | no two adjacent kept fields are equal |
| Dedupe.DedupKeepsNonAdjacent | app/services/normalization_service.py:173-177 | fields without adjacent repeats are kept as they are, so non-adjacent repeats survive |
| Dedupe.DedupDropRepeat | app/services/normalization_service.py:173-177 | removing one copy of an adjacent repeat anywhere does not change the result |
| Dedupe.DedupIdempotent | app/services/normalization_service.py:173-177 | filtering twice is filtering once |
| Dedupe.JoinCommasSpaced | app/services/normalization_service.py:179 | fields without commas, joined with `", "`, have a space after every comma |
| Dedupe.StripPlainField | app/services/normalization_service.py:171 | a field without whitespace at its ends strips to itself, and with one leading space strips to the field |
| Dedupe.JoinAsCommaFields | app/services/normalization_service.py:171 | read as `","`-separated text, a `", "`-join has each later field padded with one space |
| Dedupe.RemoveDuplicatesOfFields | app/services/normalization_service.py:164-179 | on plain fields joined with `", "`, the duplicate pass is the duplicate filter on the fields, rejoined |
| Dedupe.RemoveDuplicatesOfPairs | app/services/normalization_service.py:164-179 | `"A, A, B, B"` becomes `"A, B"` for any two different plain fields |
| Dedupe.RemoveDuplicatesExample | app/services/normalization_service.py:168 | `"SEDAN, SEDAN, MT, MT"` becomes `"SEDAN, MT"` |
| Fields.MatchShift | app/services/normalization_service.py:184 | after text ending outside a word, a match in the rest is found at the same place, and nowhere else |
| Fields.SubFromShift | app/services/normalization_service.py:184 | after text ending outside a word, `re.sub` proceeds exactly as on the rest alone |
| Fields.MatchPrefix | app/services/normalization_service.py:184 | a match inside a field is unchanged when the field is followed by `", "` |
| Fields.SubFromPrefix | app/services/normalization_service.py:184 | the scan over a field followed by `", "` rewrites the field as on its own, then carries on |
| Fields.SubFromSeparator | app/services/normalization_service.py:184 | no comma-free pattern matches at `", "`, so the scan copies it |
| Fields.SubJoin | app/services/normalization_service.py:184 | a comma-free pattern rewrites the two sides of a `", "` separately |
| Fields.ApplyRulesJoin | app/services/normalization_service.py:183-184 | a list of comma-free patterns rewrites the two sides of a `", "` separately |
| Fields.SubOnOneWord | app/services/normalization_service.py:184 | on a single word, a synonym pattern yields its replacement when the word is the pattern, and the word otherwise |
| Fields.ApplyRulesFixed | app/services/normalization_service.py:183-184 | patterns that each leave a single word alone leave it alone together |
| Mappings.ApplyMappings | app/services/normalization_service.py:181-185 | the loop applies one `re.sub` per table entry, in table order, each to the previous result |
| Mappings.ApplyTablesInOrder | app/services/normalization_service.py:143-147 | applying the tables one after another applies all their entries in order |
| Mappings.ApplyTablesIsAllSynonyms | app/services/normalization_service.py:143-147 | `normalize` applies every entry once: transmission, power, body, fuel, then drive |
| Mappings.TransmissionWellFormed | app/services/normalization_service.py:17-30 | every transmission entry is a comma-free whole-word pattern |
| Mappings.PowerWellFormed | app/services/normalization_service.py:33-38 | every power entry is a comma-free whole-word pattern |
| Mappings.BodyWellFormed | app/services/normalization_service.py:41-62 | every body entry is a comma-free whole-word pattern |
| Mappings.FuelWellFormed | app/services/normalization_service.py:65-84 | every fuel entry is a comma-free whole-word pattern |
| Mappings.DriveWellFormed | app/services/normalization_service.py:87-91 | every drive entry is a comma-free whole-word pattern |
| Mappings.AllSynonymsWellFormed | app/services/normalization_service.py:17-91 | every entry of the five tables matches only whole words and neither reads nor writes a comma |
| Mappings.SynonymsReplaceWholeWords | app/services/normalization_service.py:181-185 | every match of every table entry covers whole words only |
| Mappings.TablesFix | app/services/normalization_service.py:143-147 | no entry rewrites `STD`, `MTX`, `SEDAN` or `1600CC` |
| Mappings.MtInTransmission | app/services/normalization_service.py:18 | the transmission table turns `MT` into `STD` |
| Mappings.MtBecomesStd | app/services/normalization_service.py:143-147 | `MT` becomes `STD` and no later table changes it |
| Mappings.MtxUnchanged | app/services/normalization_service.py:143-147 | `MTX` is not a whole-word hit of any entry, so it stays `MTX` |
| Engine.EngineRulesCommaFree | app/services/normalization_service.py:94-101 | no displacement pattern reads or writes a comma next to whitespace |
| Engine.NormalizeEngine | app/services/normalization_service.py:187-194 | the loop applies the three displacement patterns in order, each to the previous result |
| Engine.EngineSteps | app/services/normalization_service.py:94-101 | the engine step is the CC pass, then the decimal-comma pass, then the litre-suffix pass |
| Engine.CcOfFourDigits | app/services/normalization_service.py:96 | a whole-word `AB00CC`, in any case, matches and becomes `A.BL` |
| Engine.CcOfThreeDigits | app/services/normalization_service.py:96 | a whole-word `B00CC` matches and becomes `0.BL` |
| Engine.EngineWithoutDigits | app/services/normalization_service.py:94-101 | text without a digit passes the engine step unchanged |
| Engine.EngineOfCc | app/services/normalization_service.py:96 | `1600CC` becomes `1.6L` |
| Engine.EngineAddsLitres | app/services/normalization_service.py:100 | `1.6 X` becomes `1.6L X` |
| Engine.EngineAddsLitresTo | app/services/normalization_service.py:100 | for any digits `A` and `B`, whitespace run and following word that starts with a letter and holds no digit, `A.B` gains an `L` and nothing else changes |
| Engine.EngineKeepsLitres | app/services/normalization_service.py:94-101 | `1.6L` is left as it is |
| Normalize.Normalize | app/services/normalization_service.py:103-162 | empty input gives `""`; every result is well spaced as in `TidySpacesWellSpaced`; the final clean-up keeps every word and comma of the text it is given; in basic mode the words and commas of the result are those of the description, upper-cased, with the comma clean-up of lines 134-136 applied |
| Normalize.LexBasic | app/services/normalization_service.py:131-136 | the steps shared by both modes, read as words and commas: the words upper-cased, then the comma passes |
| Normalize.BasicKeepsLoneComma | app/services/normalization_service.py:131-162 | in basic mode a comma between two words of the description is still there, between the same two words upper-cased |
| Normalize.FullRewriteSpacesCommas | app/services/normalization_service.py:138-150 | every comma the full-mode rewrite leaves is followed by whitespace, for any input |
| Normalize.BasicKeepsWords | app/services/normalization_service.py:131-162 | in basic mode the words of the result are the words of the description upper-cased, in order: none is dropped, split or merged |
| Normalize.DecimalCommaIsDead | app/services/normalization_service.py:138-150 | in full mode the decimal-comma pass changes nothing: the rewrite equals the tables followed by only the CC and litre-suffix passes |
| Normalize.ApplyRulesFields | app/services/normalization_service.py:183-184 | comma-free patterns rewrite `", "`-joined fields one field at a time |
| Normalize.FullRewriteOfFields | app/services/normalization_service.py:138-150 | on plain fields joined with `", "`, full mode drops adjacent repeats and rewrites each remaining field on its own |
| Normalize.TablesOfFields | app/services/normalization_service.py:143-147 | the five tables rewrite `", "`-joined fields one field at a time |
| Normalize.EngineOfFields | app/services/normalization_service.py:150 | the displacement patterns rewrite `", "`-joined fields one field at a time |
| Normalize.TablesCommaFree | app/services/normalization_service.py:17-91 | every table entry is comma-free |
| Normalize.JoinTokens | app/services/normalization_service.py:179 | upper-case tokens joined with `", "` are tidy and hold no lower-case letter |
| Normalize.BasicOfTokens | app/services/normalization_service.py:131-136 | on tokens joined with `", "`, both clean-up stages change nothing |
| Normalize.NormalizeFullOfTokens | app/services/normalization_service.py:103-162 | full mode on tokens joined with `", "` drops adjacent repeats, rewrites each field and rejoins |
| Normalize.RewriteOfExampleFields | app/services/normalization_service.py:138-150 | `SEDAN` and `STD` stay, `MT` becomes `STD`, and `1600CC` becomes `1.6L` |
| Normalize.FullExample | app/services/normalization_service.py:138-150 | `"SEDAN, SEDAN, MT, MT, 1600CC"` becomes `"SEDAN, STD, 1.6L"` in full mode |
| Normalize.FullNotIdempotent | app/services/normalization_service.py:138-150 | full mode maps `"MT, STD"` to `"STD, STD"` and that to `"STD"`, so it is not idempotent |
| Normalize.CommaRunLeavesPair | app/services/normalization_service.py:134 | basic mode turns `A,,,B` into `A, , B` for any two tokens |
| Normalize.CommaRunAtEndLeavesComma | app/services/normalization_service.py:134-135 | basic mode turns `A,,,` into `A,` for any token: one comma of the run survives at the end |
| Cleanup.TidyCommasOfFinalRun | app/services/normalization_service.py:134-135 | the comma clean-up turns a bare word followed by `,,,` into the word followed by one comma |
| Cleanup.TidySpacesOfFinalComma | app/services/normalization_service.py:154-155 | the final clean-up leaves a final comma after a bare word as it is: the space added after it is stripped again |
| Matching.GetByCrabiIds | app/repositories/vehicle_repository.py:24-26 | no ids give no records; otherwise exactly the stored records whose id was asked for, each id once |
| Matching.Filter | app/services/vehicle_service.py:72-80 | the filtered hits are exactly the hits that satisfy the condition |
| Matching.FilterAppend | app/services/vehicle_service.py:72-80 | filtering a concatenation filters each part, keeping retrieval order |
| Matching.HighBand | app/services/vehicle_service.py:72-75 | the high band is exactly the hits scoring at least the threshold, a missing score counting as 0 |
| Matching.BestEffortBand | app/services/vehicle_service.py:77-80 | the best-effort band is exactly the hits scoring at least the best-effort threshold and below the threshold, and it shares no hit with the high band |
| Matching.BandsKeepOrder | app/services/vehicle_service.py:72-80 | each band keeps the order the hits were retrieved in |
| Matching.Score | app/services/vehicle_service.py:74-79 | the score of a hit is its value when present and 0 when the key is missing |
| Matching.AllCandidates | app/services/vehicle_service.py:88 | the candidates start with the whole high band and are exactly the retrieved hits scoring at least one of the two thresholds |
| Matching.CandidateScore | app/services/vehicle_service.py:88 | a candidate is a retrieved hit scoring at least one of the two thresholds |
| Matching.CandidateHits | app/services/vehicle_service.py:106-115 | the candidates sent come from the bands, always start with the whole high band, and include the best-effort band in strict mode or with fewer than two high hits; in non-strict mode with two or more high hits they are exactly the high band |
| Matching.OptionsCount | app/services/vehicle_service.py:127-130 | the options built by `OptionsOf` are exactly one per resolved record: as many options as records |
| Matching.FindById | app/services/vehicle_service.py:150-153 | the record found is a resolved record with the selected id; none is found only if no resolved record has that id |
| Matching.Selected | app/services/vehicle_service.py:145-162 | a record is selected exactly when the verdict names an id that was looked up and is stored, and then it is the stored record for that id |
| Matching.Arbitration | app/services/vehicle_service.py:127-162 | the arbitration model is asked once, with the original description and one option per resolved record (`OptionsOf`; through `MatchVehicle`, no options give no selection); a record is returned exactly when the verdict names the id of a resolved record, and then it is that record |
| Matching.Resolve | app/services/vehicle_service.py:117-162 | the bulk lookup comes first and no vector query or single lookup follows; arbitration sees the original description; a returned record is stored and its id is a candidate's |
| Matching.Triage | app/services/vehicle_service.py:72-162 | no vector query is repeated; arbitration sees the original description; a returned record is stored and its id is a candidate's |
| Matching.GetSimilarVehicles | app/services/vehicle_service.py:36-162 | the first call is the vector query on the normalised description, with top-k, and none follows; arbitration sees only the original description; a returned record is stored, and its id belongs to a retrieved hit in one of the bands |
| Matching.EmptyResponse | app/services/vehicle_service.py:67-69 | a missing or empty vector answer gives no record, with no lookup and no arbitration |
| Matching.NoCandidateBelow | app/services/vehicle_service.py:88-89 | hits all below both thresholds leave no candidate |
| Matching.NoCandidates | app/services/vehicle_service.py:88-91 | when no hit reaches either threshold there is no record, no lookup and no arbitration |
| Matching.FastPath | app/services/vehicle_service.py:94-103 | outside strict mode a single high hit gives exactly what `GetVehicleByCrabiId` (lines 29-30) returns for its id, the stored record or none, after a single lookup and no arbitration, whatever the best-effort band holds |
| Matching.ResolveOutcome | app/services/vehicle_service.py:117-162 | the bulk lookup is followed by arbitration only if it found records; arbitration gets the original description and their options; the result is `Selected`: the record named by the verdict when that id was looked up and is stored, and none otherwise |
| Matching.SlowPath | app/services/vehicle_service.py:105-120 | whenever candidates exist and the fast path is not taken, the ids looked up (`Ids`, line 117, in hit order) are those of the high band alone (non-strict, two or more high hits) or of both bands, and the outcome is the bulk resolution of exactly those |
| Matching.StrictReachesOracle | app/services/vehicle_service.py:94-133 | in strict mode a single stored high hit still reaches the arbitration model |
| Matching.ReturnedIdWasRetrieved | app/services/vehicle_service.py:145-162 | with the default thresholds, a returned record is stored, and its id was retrieved with a score of at least 0.70 |
| Matching.SampleBands | app/services/vehicle_service.py:72-80 | scores 0.92, 0.78, 0.50 and a missing score split into one high hit, one best-effort hit and two outside both bands |

## Left out

- Normalize.Normalize: the result does not satisfy "every comma has no space before it". The comma clean-up is one non-overlapping pass, so `,,,` leaves `", , "` (`Normalize.CommaRunLeavesPair`). The contract therefore allows a space before a comma directly after another comma.
- CharClass.Upper: `str.upper()` is modelled for the Latin-1 range only: `a`–`z` and `à`–`þ` without `÷`. Characters whose upper case has a different length, or lies outside Latin-1, are left unchanged.
- `\d`, `\s` and `\w` follow Python's `str` patterns within Latin-1. Other Unicode digits and letters are not modelled.
- Case-insensitive matching is modelled within ASCII and Latin-1 only (`IsAsciiLetter`, `SameLetter`). With `re.IGNORECASE`, Python also lets the `[A-Z]` of the look-ahead at app/services/normalization_service.py:100 and the literal words of the rules match other case variants, such as U+212A KELVIN SIGN for `K` (as in `PICKUP`) or U+017F LONG S for `S`. The model does not accept those characters there.
- Matching.Score: scores and thresholds are exact reals, and `Matching.DefaultConfig` holds the decimals 0.85 and 0.70 (app/core/config.py:29-30). Python compares binary64 doubles, so a score that lies between a threshold's decimal and its nearest double falls in a different band: 0.6999999999999999555910790149937383830547332763671875 is in the best-effort band in Python (it is the double for 0.70) but below both thresholds in the model. NaN scores, which compare false with everything, are not modelled.
- Litres.Tenths: the tenth digit is computed for every input with the binary64 rounding written out. It is proved exact for multiples of 100 below 10000 and within half a tenth for every input below 10000 (`Litres.TenthsNearest`). Which neighbour a tie such as 1250 or 1650 prints is computed but not stated, and inputs of 10000 and more are covered by no lemma.
- The two `100% ELECTRICO` fuel entries never fire, because `ELECTRICO` becomes `EV` earlier in the same table. The tables keep them, but their deadness is not proved.
- Full mode is not idempotent in general, so no idempotence lemma is stated. `Normalize.FullNotIdempotent` gives the counterexample.
- The vector query and the embedding model are a parameter: the ranked hits, or none for a missing answer.
- Matching.Score: a hit whose `score` key is present but null makes the comparison at app/services/vehicle_service.py:74 raise `TypeError`. The model's missing score stands for a missing key only, which counts as 0, so that exception is not modelled.
- Exceptions from the collaborators are not modelled. An HTTP error status from the vector store (`raise_for_status`, app/repositories/vector_repository.py:68) and a failing arbitration call, which `match_vehicle` logs and re-raises (app/services/llm_service.py:245-247), both propagate out of `get_similar_vehicles`. The model's outcomes have no error case for them.
- Every hit is assumed to carry an id. A hit without `id` is not modelled.
- The arbitration model (the Gemini call, its prompt and its structured output) is a parameter: an arbitrary verdict. Only the rule that empty options give no selection is kept. Its confidence and reasoning fields are not modelled.
- The database is a map from `id_crabi` to description. The bulk lookup returns a set, because the `IN` query has no order; the options shown to the arbitration model are therefore a set, not a list. The integer primary key of a record is not modelled.
- `create_vehicle` is a database write outside the decision procedure and is not modelled.
- Logging, `json.dumps` of the vector result, the HTTP routes, the batch endpoint (a loop over the single match) and configuration loading are not modelled. The thresholds and `top_k` are a `Config` parameter, with the configured values as `Matching.DefaultConfig`.
