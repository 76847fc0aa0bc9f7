# LeiaSR display-API migration tool and PLY splat header loader, modelled in Dafny

The repository contains a source-to-source migration tool for C++ programs that use the
LeiaSR `SR::Display` API, and a Gaussian-splat viewer. This project models three parts of it.

- **The rewriter (`CodeTransformer`), in both of its packaged copies.** It reads one C++
  file. It sorts the `transformations` entries of its pattern catalog by priority. It runs
  each recognised rule on the text the previous rules produced:
  - the lazy-binding define;
  - the helper include;
  - the `Display::create` rewrite;
  - the `->` to `.` rewrite;
  - in the runtime-fallback copy only, the `nullptr`-check rewrite.

  It collects one `Transformation` record per edit. It writes the result, after moving the
  original to `<file>.legacy`, only outside a dry run and only when some edit was made. The
  runtime-fallback copy also has a "modern" mode, where only a different form of the create
  rewrite runs. The packaged copy inserts the helper include under `helper_path`
  ("../common" by default). Both copies produce the same diff report.
- **The detector (`CodeAnalyzer`).** It scans a C++ file against the catalog's
  `detection_patterns`. It records each match with its 1-based line, its context lines, its
  named captures and a confidence from `risk_levels`. It answers statistics about
  everything it has recorded.
- **The PLY header reader of `SplatLoader`.** It checks the magic and format lines. It reads
  `element vertex N` and the vertex element's `property <type> <name>` lines up to
  `end_header`, laying the properties out one after the other in the vertex record. It
  rejects unknown types and headers without vertices. `findProperty` looks a property up by
  name.

## Layout

- `wrappers.dfy`: `Option`.
- `text.dfy`: Python string operations.
  - character classes, slicing with Python's index clipping, newline counting;
  - `splitlines`, `strip`, `join`;
  - code-point order, decimal formatting.
- `matching.dfy`: the regular-expression engine.
  - Catalog patterns are opaque: an `Engine` maps a pattern and flags to a compile error or
    a `finditer` function. `Sound` states what `finditer` promises (spans in bounds,
    ascending, non-overlapping, and a `lastindex` that is a group that took part).
  - `Substitute` is the offset-free meaning of "replace every match", against which the
    offset-tracking splice loops are proved.
- `patterns.dfy`: the regular expressions the rewriter hard-codes, as concrete matchers, and
  `re.finditer` / `re.search` over them.
- `sorting.dfy`: Python's stable `sorted` by an integer key, and `sorted(set(...))` of
  strings.
- `edits.dfy`: the `Transformation` record and a rule's result.
- `insert_rules.dfy`: `_add_lazy_binding` and `_add_helper_include`.
- `splice_rules.dfy`: the three match-by-match rewrites:
  - `_replace_display_create`;
  - `_replace_pointer_to_direct`;
  - `_replace_display_create_modern`.
- `null_checks.dfy`: `_replace_nullptr_checks`.
- `pipeline.dfy`: `transform_file`'s priority-ordered dispatch and write decision, for all
  three dispatch modes.
- `report.dfy`: `generate_diff_report`.
- `migrate_transformer.dfy`, `package_transformer.dfy`: the two `CodeTransformer` classes.
- `analyzer.dfy`: `CodeAnalyzer`. Its two copies are identical.
- `splat_loader.dfy`: `SplatLoader` (`load`, `parseHeader`, `findProperty`) and the PLY
  header grammar it accepts.

Methods with loops are proved equal to specification functions. Lemmas then state what those
functions mean.

Some behaviour of the code that is easy to miss, and that the model keeps:
- `analyzer.py:102-104` takes the context before a detection from `line_num - 3` up to the
  line before it, so it holds at most two lines.
- A catalog entry without a key the code reads with `config[...]` raises `KeyError` out of
  the call: `transformer.py:441-442` in the rewriter, `analyzer.py:69-72` and
  `analyzer.py:90` in the detector.
- A catalog pattern that does not compile is skipped by the detector (`analyzer.py:126-127`
  catches `re.error`). In the rewriter it raises out of `transform_file`, whose only `try`
  (`transformer.py:293-298`) covers the read.
- `analyzer.py:81-82` overwrites each record's confidence after matching, so the "medium"
  set at `analyzer.py:121` never survives.

## Model

Files cited below are under `MIGRATION-TOOL/python-source/leiasr_migrate/` (the
runtime-fallback copy), `leiasr-migrate/leiasr_migrate/` (the packaged copy) and
`LeiaSplatViewer/src/`.

| member | source | states |
|---|---|---|
| Text.LineNumberAdvance | MIGRATION-TOOL/python-source/leiasr_migrate/transformer.py:388 | the line number of a later position is that of an earlier one plus the newlines between them |
| Text.SplitLines | MIGRATION-TOOL/python-source/leiasr_migrate/analyzer.py:50 | `splitlines` gives no line for the empty text and no line containing a line boundary |
| Text.SplitLinesJoin | MIGRATION-TOOL/python-source/leiasr_migrate/analyzer.py:50 | when `\n` is the only line boundary in the text, joining its lines with `\n` (plus the final newline, if any) gives back the text |
| Text.Strip | MIGRATION-TOOL/python-source/leiasr_migrate/transformer.py:595 | `strip()` is the part of the text between a blank prefix and a blank suffix, with neither end blank, and is the identity on text without blank ends |
| Text.StripKeeps | MIGRATION-TOOL/python-source/leiasr_migrate/transformer.py:595 | `strip()` keeps every non-blank character |
| Text.StripLine | MIGRATION-TOOL/python-source/leiasr_migrate/transformer.py:426 | stripping a line with its newline gives the line without it |
| Text.Clip | MIGRATION-TOOL/python-source/leiasr_migrate/transformer.py:544 | a slice index is clipped as Python does: it is kept when in range, capped at the length, and counted from the end when negative |
| Text.DecimalRoundTrip | LeiaSplatViewer/src/SplatLoader.cpp:97 | reading back the decimal digits of a number gives the number |
| Text.LexLessTotal | MIGRATION-TOOL/python-source/leiasr_migrate/analyzer.py:230 | string order is total, so `sorted` of distinct paths is well defined |
| Matching.SubstituteLength | MIGRATION-TOOL/python-source/leiasr_migrate/transformer.py:456-461 | replacing all matches changes the length by the sum of the replacements' length changes, the quantity `offset` accumulates |
| Matching.SpliceAdvance | MIGRATION-TOOL/python-source/leiasr_migrate/transformer.py:455-461 | splicing the next replacement at its span shifted by `offset` gives the text with one more match replaced, and the new offset is again its length change |
| Matching.SubstituteKeepsUnmatched | MIGRATION-TOOL/python-source/leiasr_migrate/transformer.py:458 | every character outside the matches survives, shifted by the length change of the matches before it |
| Matching.SubstitutePlacesReplacement | MIGRATION-TOOL/python-source/leiasr_migrate/transformer.py:456-458 | each replacement lands at its match's start shifted by the changes of the earlier matches |
| Matching.SubstituteIdentity | MIGRATION-TOOL/python-source/leiasr_migrate/transformer.py:458 | replacing each match by the text it covers changes nothing |
| Patterns.LazyDefineAt | MIGRATION-TOOL/python-source/leiasr_migrate/transformer.py:375 | a match of `#define\s+SRDISPLAY_LAZYBINDING` starts where asked, is non-empty and has no groups |
| Patterns.IncludeLineAt | MIGRATION-TOOL/python-source/leiasr_migrate/transformer.py:412 | a match of the display.h include with its trailing whitespace ends just after a newline |
| Patterns.AccessDeclAt | MIGRATION-TOOL/python-source/leiasr_migrate/transformer.py:483 | a DisplayAccess declaration match captures one word |
| Patterns.LegacyCreateAt | MIGRATION-TOOL/python-source/leiasr_migrate/transformer.py:588 | a factory-call match captures a word and a non-empty argument |
| Patterns.FindAll | MIGRATION-TOOL/python-source/leiasr_migrate/transformer.py:483 | `re.finditer` yields ascending, non-overlapping matches, each a match of the pattern at its start |
| Patterns.ScanFirst | MIGRATION-TOOL/python-source/leiasr_migrate/transformer.py:496 | no match starts before the first one reported, and none at all when nothing is reported |
| Patterns.ScanGaps | MIGRATION-TOOL/python-source/leiasr_migrate/transformer.py:496 | no match starts between two consecutive reported matches |
| Patterns.ScanLast | MIGRATION-TOOL/python-source/leiasr_migrate/transformer.py:496 | no match starts after the last reported match |
| Patterns.Search | MIGRATION-TOOL/python-source/leiasr_migrate/transformer.py:375-380 | `re.search` gives the leftmost match, or None exactly when nothing matches anywhere |
| Patterns.DeclaredNames | MIGRATION-TOOL/python-source/leiasr_migrate/transformer.py:482-484 | the declared DisplayAccess variables are words |
| Patterns.FirstGroupsMember | MIGRATION-TOOL/python-source/leiasr_migrate/transformer.py:482-484 | the set holds exactly the first groups of the matches |
| Patterns.ArrowMatchMeaning | MIGRATION-TOOL/python-source/leiasr_migrate/transformer.py:494-496 | `(v1\|v2\|...)->` matches at a position exactly when some declared name followed by `->` starts there, and then captures that name |
| Sorting.SortBy | MIGRATION-TOOL/python-source/leiasr_migrate/transformer.py:304-308 | `sorted(key=...)` gives an ordered permutation of its input |
| Sorting.SortByStable | MIGRATION-TOOL/python-source/leiasr_migrate/transformer.py:697 | the sort is stable: the elements of each key keep their input order |
| Sorting.SortedDistinct | MIGRATION-TOOL/python-source/leiasr_migrate/analyzer.py:230 | `sorted(set(...))` is strictly ascending and holds exactly the input's elements |
| Sorting.StrictlySortedUnique | MIGRATION-TOOL/python-source/leiasr_migrate/analyzer.py:230 | a strictly ascending list is determined by its elements, so the result depends only on the set |
| Sorting.DistinctKeysPermuted | MIGRATION-TOOL/python-source/leiasr_migrate/transformer.py:304-308 | rearranging a list with distinct keys keeps them distinct |
| SpliceRules.CreateNamesAsWritten | MIGRATION-TOOL/python-source/leiasr_migrate/transformer.py:448-449 | the code raises exactly when no group took part (`lastindex` is None) or a group that `lastindex` selects is missing |
| SpliceRules.CreateNames | MIGRATION-TOOL/python-source/leiasr_migrate/transformer.py:448-449 | the variable name is group 1 when `lastindex` reaches 1 and that group took part, else "display"; the context name likewise with group 2 and "context" |
| SpliceRules.CreateNamesAgree | MIGRATION-TOOL/python-source/leiasr_migrate/transformer.py:448-449 | whenever the code's choice by `lastindex` does not raise, it gives those names, and it raises only where one of them is a default |
| SpliceRules.CreateNamesWithoutGroups | MIGRATION-TOOL/python-source/leiasr_migrate/transformer.py:448-449 | when no group takes part, the code raises (`None >= 1`) where "display" and "context" were intended |
| SpliceRules.CreateNamesFlat | MIGRATION-TOOL/python-source/leiasr_migrate/transformer.py:448-449 | for a pattern whose last group to close is its highest one taking part (no nested groups), the names are groups 1 and 2 when they took part, else the defaults |
| SpliceRules.CreateNamesNested | MIGRATION-TOOL/python-source/leiasr_migrate/transformer.py:448-449 | with the outer of two nested groups closing last, `lastindex` is 1 and the context name is "context" although group 2 took part |
| SpliceRules.CreateReplacementPlain | MIGRATION-TOOL/python-source/leiasr_migrate/transformer.py:452-453 | a template without `\1` and `\2` is inserted as it stands |
| SpliceRules.CreateOutcome | MIGRATION-TOOL/python-source/leiasr_migrate/transformer.py:436-474 | the rule raises exactly when `pattern` or `replacement` is missing or the pattern does not compile; otherwise it makes one record per match, naming the file, the match's line and the matched text |
| SpliceRules.ReplaceDisplayCreate | MIGRATION-TOOL/python-source/leiasr_migrate/transformer.py:436-474 | a missing `pattern` or `replacement` raises KeyError and a bad pattern raises; otherwise every match is replaced by its filled-in template, with one record per match carrying the match's line in the input |
| SpliceRules.RewriteCreateMatches | MIGRATION-TOOL/python-source/leiasr_migrate/transformer.py:444-472 | the offset-tracking loop computes the replacement of all matches and their records |
| SpliceRules.CollectDeclaredNames | MIGRATION-TOOL/python-source/leiasr_migrate/transformer.py:482-484 | the loop collects exactly the declared DisplayAccess names |
| SpliceRules.AddFirstGroups | MIGRATION-TOOL/python-source/leiasr_migrate/transformer.py:483-484 | the loop adds exactly the first group of each match |
| SpliceRules.ArrowMatches | MIGRATION-TOOL/python-source/leiasr_migrate/transformer.py:494-496 | the matches are ascending and non-overlapping, each an occurrence of a declared name followed by `->` |
| SpliceRules.PointerResult | MIGRATION-TOOL/python-source/leiasr_migrate/transformer.py:476-517 | with no declared DisplayAccess variable the text is unchanged; the text shrinks by one character per record, and each record turns `v->` into `v.` for a declared `v` |
| SpliceRules.ReplacePointerToDirect | MIGRATION-TOOL/python-source/leiasr_migrate/transformer.py:476-517 | with no declared variable the text is returned unchanged; otherwise every `v->` of a declared `v` becomes `v.`, with one record each |
| SpliceRules.RewriteArrowMatches | MIGRATION-TOOL/python-source/leiasr_migrate/transformer.py:490-515 | the offset-tracking loop computes that replacement and its records |
| SpliceRules.ArrowRewriteLength | MIGRATION-TOOL/python-source/leiasr_migrate/transformer.py:498-504 | the pointer rewrite shortens the text by exactly one character per match |
| SpliceRules.ArrowDelta | MIGRATION-TOOL/python-source/leiasr_migrate/transformer.py:504 | every `v->` to `v.` replacement changes the offset by -1 |
| SpliceRules.ModernResult | MIGRATION-TOOL/python-source/leiasr_migrate/transformer.py:582-623 | with no factory call the text is unchanged; otherwise there is one record per call, naming the file, the call's line and its text |
| SpliceRules.ReplaceDisplayCreateModern | MIGRATION-TOOL/python-source/leiasr_migrate/transformer.py:582-623 | every factory call becomes a manager lookup on the stripped argument plus a primary-display query, with one record per match |
| SpliceRules.RewriteModernMatches | MIGRATION-TOOL/python-source/leiasr_migrate/transformer.py:590-621 | the offset-tracking loop computes that replacement and its records |
| InsertRules.AddLazyBinding | MIGRATION-TOOL/python-source/leiasr_migrate/transformer.py:370-401 | with a define already present, or no display.h include, the text is unchanged; otherwise the define line is inserted in front of the first include |
| InsertRules.InsertDefine | MIGRATION-TOOL/python-source/leiasr_migrate/transformer.py:383-397 | the new text is the old one with the define line before the include, and there is exactly one record |
| InsertRules.LazyBindingIdempotent | MIGRATION-TOOL/python-source/leiasr_migrate/transformer.py:374-376 | a second run finds the define and changes nothing |
| InsertRules.LazyBindingShiftsInclude | MIGRATION-TOOL/python-source/leiasr_migrate/transformer.py:386-388 | removing the inserted line gives back the input, and the include moves one line down |
| InsertRules.HelperIncludeStripped | MIGRATION-TOOL/python-source/leiasr_migrate/transformer.py:426-428 | the recorded text is the include line without its newline |
| InsertRules.AddHelperInclude | MIGRATION-TOOL/python-source/leiasr_migrate/transformer.py:403-434 | with `display_helper.h` already mentioned, or no include followed by a newline, the text is unchanged; otherwise the helper include is inserted right after the match |
| InsertRules.IncludeLineFound | MIGRATION-TOOL/python-source/leiasr_migrate/transformer.py:412-417 | the insertion point lies just after a newline |
| InsertRules.HelperIncludeRecord | MIGRATION-TOOL/python-source/leiasr_migrate/transformer.py:421-429 | the record has the include's line plus one, an empty original and the stripped include line |
| InsertRules.HelperIncludeIdempotent | MIGRATION-TOOL/python-source/leiasr_migrate/transformer.py:407-409 | a second run finds `display_helper.h` and changes nothing, with or without `helper_path` |
| InsertRules.HelperIncludeLine | MIGRATION-TOOL/python-source/leiasr_migrate/transformer.py:419-424 | the inserted line lies as many lines below the include as the match has newlines, so the recorded line is right exactly when one newline follows the include |
| NullChecks.ReplaceNullptrChecks | MIGRATION-TOOL/python-source/leiasr_migrate/transformer.py:519-580 | with no declared variable the text is unchanged; otherwise the result is both passes run for each variable in the set's iteration order |
| NullChecks.NullChecksResult | MIGRATION-TOOL/python-source/leiasr_migrate/transformer.py:519-580 | with no variable the text is unchanged; every record names the file and is a `replace_nullptr_check` record |
| NullChecks.PassesTagged | MIGRATION-TOOL/python-source/leiasr_migrate/transformer.py:536-578 | the passes over the variables only add `replace_nullptr_check` records of the file |
| NullChecks.RunVariable | MIGRATION-TOOL/python-source/leiasr_migrate/transformer.py:536-578 | the body of the variable loop runs the `!=` pass, then the `==` pass on the text as it then stands |
| NullChecks.NotNullLoop | MIGRATION-TOOL/python-source/leiasr_migrate/transformer.py:539-557 | the `!=` loop splices at positions shifted by the shared offset |
| NullChecks.RewriteNotNull | MIGRATION-TOOL/python-source/leiasr_migrate/transformer.py:540-557 | one `!=` step splices `v.isDisplayValid()` and advances the offset by the length change |
| NullChecks.IsNullLoop | MIGRATION-TOOL/python-source/leiasr_migrate/transformer.py:561-578 | the `==` loop splices at the match positions with no offset |
| NullChecks.RewriteIsNull | MIGRATION-TOOL/python-source/leiasr_migrate/transformer.py:562-578 | one `==` step splices `!v.isDisplayValid()` and records a line taken from the rule's input |
| NullChecks.NotNullPassExact | MIGRATION-TOOL/python-source/leiasr_migrate/transformer.py:539-546 | the first variable's `!=` pass replaces every comparison at its own span |
| NullChecks.NotNullPassRecords | MIGRATION-TOOL/python-source/leiasr_migrate/transformer.py:548-557 | the `!=` pass records every match in order, with its line in the rule's input |
| NullChecks.IsNullPassExact | MIGRATION-TOOL/python-source/leiasr_migrate/transformer.py:561-567 | an `==` pass replaces every comparison at its span while the earlier replacements keep the length |
| NullChecks.NoComparisonsUnchanged | MIGRATION-TOOL/python-source/leiasr_migrate/transformer.py:536-578 | with no comparison of any declared variable, the text and the records are unchanged |
| NullChecks.EnumeratesOnceSize | MIGRATION-TOOL/python-source/leiasr_migrate/transformer.py:536 | each declared variable gets exactly one pass |
| NullChecks.OneNameOneOrder | MIGRATION-TOOL/python-source/leiasr_migrate/transformer.py:536 | with a single declared variable the result does not depend on the set's order |
| Pipeline.RuleOrder | MIGRATION-TOOL/python-source/leiasr_migrate/transformer.py:304-308 | the rules are the catalog's entries rearranged in ascending `priority`, 999 standing in for a missing one |
| Pipeline.RuleOrderFacts | MIGRATION-TOOL/python-source/leiasr_migrate/transformer.py:304-308 | the rules run in ascending priority, as a permutation of the catalog, with ties kept in catalog order and entries without a priority after every entry below 999 |
| Pipeline.RuleOrderDistinct | MIGRATION-TOOL/python-source/leiasr_migrate/transformer.py:304-308 | sorting keeps the keys distinct |
| Pipeline.Apply | MIGRATION-TOOL/python-source/leiasr_migrate/transformer.py:310-349 | only the create entry raises, outside modern mode, exactly when its `pattern` or `replacement` is missing or the pattern does not compile; modern mode runs only the modern create rewrite; an unknown key changes nothing |
| Pipeline.ApplyRule | MIGRATION-TOOL/python-source/leiasr_migrate/transformer.py:310-349 | each key dispatches to its rule in each mode: modern mode only to the modern create rewrite, the fallback copy runs the null-check pass after the pointer pass, and unknown keys leave the text alone |
| Pipeline.RunStopped | MIGRATION-TOOL/python-source/leiasr_migrate/transformer.py:310-340 | once a rule raises, the later rules do not run |
| Pipeline.RunExtends | MIGRATION-TOOL/python-source/leiasr_migrate/transformer.py:317-340 | the edits of a run extend the earlier ones in order |
| Pipeline.RunOnlyOne | MIGRATION-TOOL/python-source/leiasr_migrate/transformer.py:343-349 | when only one distinct key acts, the run makes exactly that rule's change, or none without that key |
| Pipeline.RunUnknown | MIGRATION-TOOL/python-source/leiasr_migrate/transformer.py:310-340 | a catalog without a recognised key changes nothing, in every mode |
| Pipeline.ModernOnlyCreate | MIGRATION-TOOL/python-source/leiasr_migrate/transformer.py:343-349 | in modern mode the run is the modern create rewrite when that key is present, and no change otherwise |
| Pipeline.Finish | MIGRATION-TOOL/python-source/leiasr_migrate/transformer.py:351-366 | a raised exception propagates; otherwise the edits are returned, and the original is moved to `.legacy` and the new text written exactly when this is not a dry run and there are edits |
| Pipeline.TransformOutcome | MIGRATION-TOOL/python-source/leiasr_migrate/transformer.py:291-366 | a failed read returns no edits and writes nothing, a dry run or an edit-free run writes nothing, and the write moves the original to the file plus `.legacy` |
| Pipeline.ModernTransform | MIGRATION-TOOL/python-source/leiasr_migrate/transformer.py:343-362 | in modern mode `transform_file` makes exactly the modern create rewrite if the catalog has it, and nothing otherwise |
| MigrateTransformer.CodeTransformer.constructor | MIGRATION-TOOL/python-source/leiasr_migrate/transformer.py:281-289 | the catalog and mode are set and the edit log is empty |
| MigrateTransformer.CodeTransformer.Mode | MIGRATION-TOOL/python-source/leiasr_migrate/transformer.py:310 | `legacy_fallback` selects fallback dispatch, and its absence selects modern dispatch |
| MigrateTransformer.CodeTransformer.TransformFile | MIGRATION-TOOL/python-source/leiasr_migrate/transformer.py:291-368 | the result is the mode's priority-ordered run and write decision, the edits are appended to the log, and a raised exception leaves the log unchanged |
| MigrateTransformer.CodeTransformer.RunRules | MIGRATION-TOOL/python-source/leiasr_migrate/transformer.py:300-349 | the dispatch loop threads the text through the sorted rules and collects their edits |
| MigrateTransformer.CodeTransformer.GenerateDiffReport | MIGRATION-TOOL/python-source/leiasr_migrate/transformer.py:671-710 | the report is the joined report lines of the logged edits |
| PackageTransformer.CodeTransformer.constructor | leiasr-migrate/leiasr_migrate/transformer.py:27-35 | the catalog and `helper_path` ("../common" by default) are set and the edit log is empty |
| PackageTransformer.CodeTransformer.TransformFile | leiasr-migrate/leiasr_migrate/transformer.py:37-96 | the result is the four-rule run and write decision, with the helper under `helper_path` and no null-check pass; the edits are appended, and a raised exception leaves the log unchanged |
| PackageTransformer.CodeTransformer.RunRules | leiasr-migrate/leiasr_migrate/transformer.py:46-79 | the dispatch loop threads the text through the sorted rules |
| PackageTransformer.CodeTransformer.GenerateDiffReport | leiasr-migrate/leiasr_migrate/transformer.py:267-306 | the report is the joined report lines of the logged edits |
| Report.Paths | MIGRATION-TOOL/python-source/leiasr_migrate/transformer.py:680-684 | the keys of `by_file` are the distinct paths of the edits |
| Report.OfFile | MIGRATION-TOOL/python-source/leiasr_migrate/transformer.py:680-684 | a file's group holds only its own edits |
| Report.GroupByFile | MIGRATION-TOOL/python-source/leiasr_migrate/transformer.py:679-684 | the grouping loop builds a dict whose keys are those paths and whose values are each file's edits in recording order |
| Report.OfFileNone | MIGRATION-TOOL/python-source/leiasr_migrate/transformer.py:682-683 | a path with no edit has no group |
| Report.GroupsCover | MIGRATION-TOOL/python-source/leiasr_migrate/transformer.py:686-694 | the per-file change counts add up to the total number of edits |
| Text.Repeat | MIGRATION-TOOL/python-source/leiasr_migrate/transformer.py:674 | `"=" * 80` is 80 copies of the character |
| Report.EntriesLines | MIGRATION-TOOL/python-source/leiasr_migrate/transformer.py:697-701 | each edit contributes four lines |
| Report.GenerateDiffReport | MIGRATION-TOOL/python-source/leiasr_migrate/transformer.py:671-703 | the loops build the header followed by one section per file, joined by newlines |
| Report.AppendSection | MIGRATION-TOOL/python-source/leiasr_migrate/transformer.py:691-701 | one file's section is its header followed by its edits sorted by line |
| Report.AppendEntries | MIGRATION-TOOL/python-source/leiasr_migrate/transformer.py:697-701 | the inner loop appends four lines per edit |
| Report.ReportHeader | MIGRATION-TOOL/python-source/leiasr_migrate/transformer.py:686-687 | the header states the number of distinct files and of all edits |
| Report.PathsCount | MIGRATION-TOOL/python-source/leiasr_migrate/transformer.py:686 | `len(by_file)` is the number of distinct paths |
| Report.SectionsOrdered | MIGRATION-TOOL/python-source/leiasr_migrate/transformer.py:691-697 | the sections follow strictly ascending paths covering every edited file, and each lists its edits sorted by line, as a permutation that keeps the recording order within a line |
| Analyzer.GetConfidence | MIGRATION-TOOL/python-source/leiasr_migrate/analyzer.py:131-142 | high exactly when listed high; low exactly when listed for review and in neither other list; medium otherwise |
| Analyzer.ContextWindows | MIGRATION-TOOL/python-source/leiasr_migrate/analyzer.py:102-105 | the context is within the buffer: the lines just above the match line (at most two) and just below it (at most three) |
| Analyzer.CapturesKeys | MIGRATION-TOOL/python-source/leiasr_migrate/analyzer.py:108-112 | a capture name is recorded exactly when one of its slots is within the match's groups |
| Analyzer.CapturesLast | MIGRATION-TOOL/python-source/leiasr_migrate/analyzer.py:110-112 | a repeated capture name holds the group of its last slot |
| Analyzer.ExtractCaptures | MIGRATION-TOOL/python-source/leiasr_migrate/analyzer.py:108-112 | the loop builds that capture dict |
| Analyzer.FlagsOf | MIGRATION-TOOL/python-source/leiasr_migrate/analyzer.py:91-92 | MULTILINE always, and DOTALL exactly for multiline rules |
| Analyzer.DetectRegex | MIGRATION-TOOL/python-source/leiasr_migrate/analyzer.py:87-129 | KeyError exactly when `pattern` is missing, no record for a pattern that does not compile, otherwise one record per match, each of the file, named after the rule and rated medium |
| Analyzer.DetectMatches | MIGRATION-TOOL/python-source/leiasr_migrate/analyzer.py:96-124 | the match loop builds one record per match, in match order |
| Analyzer.DetectRegexLoop | MIGRATION-TOOL/python-source/leiasr_migrate/analyzer.py:87-129 | the match loop computes `_detect_regex`: KeyError without `pattern`, nothing for a pattern that does not compile, else one record per match |
| Analyzer.MakeDetectionReported | MIGRATION-TOOL/python-source/leiasr_migrate/analyzer.py:99-124 | a record names the file and the matched text at the reported line, with that line's context |
| Analyzer.DetectRegexReported | MIGRATION-TOOL/python-source/leiasr_migrate/analyzer.py:96-124 | every record of one rule points at its match, and the line numbers ascend |
| Analyzer.DetectSub | MIGRATION-TOOL/python-source/leiasr_migrate/analyzer.py:69-77 | an alternative raises exactly when the rule has no `description`, and its records are of the file |
| Analyzer.DetectList | MIGRATION-TOOL/python-source/leiasr_migrate/analyzer.py:69-78 | the alternatives raise exactly when there is one and the rule has no `description`; every record is of the file and every exception a KeyError |
| Analyzer.DetectEntry | MIGRATION-TOOL/python-source/leiasr_migrate/analyzer.py:59-78 | an entry's records are of the file, and it raises only a KeyError for a key it reads |
| Analyzer.Scan | MIGRATION-TOOL/python-source/leiasr_migrate/analyzer.py:58-78 | every record of the scan is of the file, and the only exceptions are KeyErrors for missing `pattern`, `description` or `patterns` |
| Analyzer.Rate | MIGRATION-TOOL/python-source/leiasr_migrate/analyzer.py:80-82 | each record gets the confidence of its pattern name and is otherwise unchanged |
| Analyzer.AnalyzeOutcome | MIGRATION-TOOL/python-source/leiasr_migrate/analyzer.py:38-85 | a non-source file, the helper file and an unreadable file yield nothing, and every returned record carries its pattern's confidence |
| Analyzer.ScanAppend | MIGRATION-TOOL/python-source/leiasr_migrate/analyzer.py:58-78 | scanning two runs of rules is scanning one, then the other |
| Analyzer.ScanStopped | MIGRATION-TOOL/python-source/leiasr_migrate/analyzer.py:58-78 | once a rule raises, the later rules do not change the outcome |
| Analyzer.ListStopped | MIGRATION-TOOL/python-source/leiasr_migrate/analyzer.py:69-78 | once an alternative raises, the later alternatives do not change the outcome |
| Analyzer.SkipMalformed | MIGRATION-TOOL/python-source/leiasr_migrate/analyzer.py:126-127 | a rule whose pattern does not compile is skipped and the other rules still run |
| Analyzer.ScanReported | MIGRATION-TOOL/python-source/leiasr_migrate/analyzer.py:58-78 | the records of every rule point at their matches |
| Analyzer.AnalyzeReported | MIGRATION-TOOL/python-source/leiasr_migrate/analyzer.py:38-85 | every record `analyze_file` returns names the file, matched text at its line, and that line's context |
| Analyzer.DetectListNames | MIGRATION-TOOL/python-source/leiasr_migrate/analyzer.py:69-77 | the records of a `regex_list` rule are named after the rule plus the first 20 characters of an alternative |
| Analyzer.ConfidenceCountsSum | MIGRATION-TOOL/python-source/leiasr_migrate/analyzer.py:239-243 | the three confidence counts add up to the number of records |
| Analyzer.Names | MIGRATION-TOOL/python-source/leiasr_migrate/analyzer.py:250-252 | the keys of the count dict are the distinct pattern names of the records |
| Analyzer.PatternCountsSum | MIGRATION-TOOL/python-source/leiasr_migrate/analyzer.py:248-253 | the per-pattern counts add up to the number of records |
| Analyzer.CodeAnalyzer.constructor | MIGRATION-TOOL/python-source/leiasr_migrate/analyzer.py:29-36 | the catalog is set and the record log is empty |
| Analyzer.CodeAnalyzer.AnalyzeFile | MIGRATION-TOOL/python-source/leiasr_migrate/analyzer.py:38-85 | the result is `AnalyzeOutcome`, the records are appended to the log, and a raised exception leaves the log unchanged |
| Analyzer.CodeAnalyzer.ScanCatalog | MIGRATION-TOOL/python-source/leiasr_migrate/analyzer.py:58-78 | the loop over the rules computes the scan |
| Analyzer.CodeAnalyzer.DetectListLoop | MIGRATION-TOOL/python-source/leiasr_migrate/analyzer.py:69-78 | the loop over the alternatives computes the list rule's outcome |
| Analyzer.CodeAnalyzer.FilesToMigrate | MIGRATION-TOOL/python-source/leiasr_migrate/analyzer.py:228-230 | the files are strictly ascending and are exactly the paths of the records |
| Analyzer.CodeAnalyzer.CountByPattern | MIGRATION-TOOL/python-source/leiasr_migrate/analyzer.py:248-253 | each pattern name of the records maps to its number of records, and no other key is present |
| Analyzer.CodeAnalyzer.GetStatistics | MIGRATION-TOOL/python-source/leiasr_migrate/analyzer.py:232-246 | the total is the record count, and the file count is the number of listed files; the confidence counts add up to the total, and so do the per-pattern counts |
| SplatLoading.SizeOf | LeiaSplatViewer/src/SplatLoader.cpp:117-141 | each property type's size is its C type's size (1 to 8 bytes) |
| SplatLoading.Chomp | LeiaSplatViewer/src/SplatLoader.cpp:88 | the line is cut before its first CR or LF |
| SplatLoading.PropertyFields | LeiaSplatViewer/src/SplatLoader.cpp:110 | both words are present and fit their 32- and 64-byte buffers |
| SplatLoading.TypeNamed | LeiaSplatViewer/src/SplatLoader.cpp:117-146 | exactly the five names float, double, uchar, int and uint are known |
| SplatLoading.ReadLine | LeiaSplatViewer/src/SplatLoader.cpp:86-151 | one loop iteration takes the branch of its line's prefix |
| SplatLoading.KindOfPrefixes | LeiaSplatViewer/src/SplatLoader.cpp:88-105 | after the newline is cut, a line takes the branch of the first of `end_header`, `element vertex`, `element` and `property` that begins it |
| SplatLoading.CountField | LeiaSplatViewer/src/SplatLoader.cpp:97 | no count exactly when no digit follows the blanks after `element vertex`; otherwise the count is the value of a run of decimal digits |
| SplatLoading.CountFieldReadsBack | LeiaSplatViewer/src/SplatLoader.cpp:97 | `element vertex N` reads back N |
| SplatLoading.Body | LeiaSplatViewer/src/SplatLoader.cpp:85-152 | the line loop fails only with the unknown-property-type message |
| SplatLoading.HeaderErrors | LeiaSplatViewer/src/SplatLoader.cpp:58-161 | a refused header carries one of the five messages of the code, and an accepted one has at least two lines and a non-zero vertex count |
| SplatLoading.BodyPacked | LeiaSplatViewer/src/SplatLoader.cpp:113-149 | each property's offset is the sum of the sizes before it, and the vertex size is their total |
| SplatLoading.BodyFails | LeiaSplatViewer/src/SplatLoader.cpp:142-146 | the loop fails exactly when a vertex property before `end_header` has an unknown type |
| SplatLoading.BodyTracks | LeiaSplatViewer/src/SplatLoader.cpp:94-151 | on success the loop has recorded exactly the declared vertex properties and the last vertex count read |
| SplatLoading.BodyKeepsPrefix | LeiaSplatViewer/src/SplatLoader.cpp:149 | the loop only appends properties |
| SplatLoading.HeaderMeaning | LeiaSplatViewer/src/SplatLoader.cpp:58-161 | a header is accepted exactly when the magic and format lines are right, no vertex property has an unknown type and the vertex count is non-zero; the properties are then exactly the declared ones, packed |
| SplatLoading.SplatLoader.constructor | LeiaSplatViewer/src/SplatLoader.cpp:11-16 | counts zero, nothing loaded |
| SplatLoading.SplatLoader.Load | LeiaSplatViewer/src/SplatLoader.cpp:22-56 | an unopenable file sets the open error; a refused header leaves no splats and its message; otherwise the splats are all decoded records, or those read before a short read together with its message; loaded holds exactly when the header and all records were read, with a packed layout and a non-zero count |
| SplatLoading.SplatLoader.ParseHeader | LeiaSplatViewer/src/SplatLoader.cpp:58-161 | the fields end as the header parse leaves them, and a failure sets its message |
| SplatLoading.SplatLoader.ReadBody | LeiaSplatViewer/src/SplatLoader.cpp:81-151 | the line loop leaves the fields as the loop specification does from the third line, and a failing line sets its message and stops |
| SplatLoading.SplatLoader.FindProperty | LeiaSplatViewer/src/SplatLoader.cpp:292-300 | the result is the first property with that name, or none when no property has it |

## Left out

- File I/O is not modelled. Each operation takes what it would read as a parameter:
  - opening and reading in `transform_file`, `analyze_file` and `load` is an `Option`
    holding the text (None for a failed read);
  - the move to `.legacy` and the write are returned as a `Write` value.
- Diagnostic `print` output is not modelled.
- Loading the YAML catalog in the constructors is not modelled: each constructor takes the
  loaded catalog.
  - the `transformations` entries become a sequence of `Rule` with a `Key` datatype, and
    their priorities are assumed to be integers;
  - the detector's entries become `Entry` values with a `Kind` datatype.
- Python's `re` engine on catalog patterns is an uninterpreted `Engine`, constrained only by
  `Sound`. Only the tool's hard-coded patterns are concrete matchers, and there `\w` means
  ASCII word characters.
- `re.sub(r'\\1', ...)` is modelled as literal replacement. Escape processing of
  backslashes in the substituted names is left out.
- Python's set iteration order for the null-check pass is a parameter (`order`) that lists
  every declared name once.
- The order of dict keys in the capture map and in `by_pattern` is not modelled: both are
  maps.
- The detector mutates each `Detection`'s confidence in place. This is modelled on values
  (a rated copy), so aliasing of the record objects is not captured.
- Not modelled, because they are batch drivers or file generation:
  - `analyze_directory`, `generate_report`, `transform_directory`, `_create_helper_file`;
  - the embedded `display_helper.h` text;
  - the command-line front end.
- `parseBinaryData` is a `Decoder` parameter of `Load`. It gives all records or a short
  read, and `Load` reports the short read. The decoding of property values, `readProperty`
  and `getBounds` are not modelled, and `SplatVertex` floats are reals.
- `fgets` splitting lines longer than 255 bytes is not modelled: header lines are given as
  `fgets` would return them.
- NUL bytes inside header lines are not modelled.
- SplatLoading.CountField: does not model a leading sign or overflow past 2^64-1 in
  `%zu`, because it reads digits only.
- SplatLoading.SplatLoader.Load: `m_vertexSize` is unbounded, so `size_t` overflow of the
  summed sizes is not modelled.
- SpliceRules.ReplaceDisplayCreate: uses the corrected names of the Findings table (`CreateNames`), so it does not raise where the code does: the TypeError when no group takes part, and the error for a group that `lastindex` selects but that is missing. Otherwise it follows `lastindex` as Python defines it, nested groups included.
- Which group of a catalog pattern closes last is not derived from the pattern: `Sound` only constrains the engine's `lastindex` to be a group that took part, and None exactly when none did.
- Behaviour modelled as written, not as probably intended:
  - `load` does not reset `m_vertexCount`, so a later header without `element vertex`
    reuses the previous count;
  - the arrow and `nullptr` patterns have no word boundary;
  - the null-check pass shares one offset across variables, splices `==` matches without
    an offset, and takes their line numbers from the rule's input;
  - `regex_list` alternatives ignore the rule's `multiline` flag and `capture_groups`;
  - the line number counts only `\n`, while `splitlines` also splits at other boundaries.

## Findings

| source | as written | input that shows it | evidently intended | confidence | as-written member | corrected member |
|---|---|---|---|---|---|---|
| MIGRATION-TOOL/python-source/leiasr_migrate/transformer.py:448-449 | `match.group(1) if match.lastindex >= 1 else 'display'` compares `lastindex` with 1, but `lastindex` is None when no group took part; the packaged copy has the same lines at leiasr-migrate/leiasr_migrate/transformer.py:176-177 | a `replace_display_create` pattern without capturing groups (or whose groups all stay out of the match) that matches once: `None >= 1` raises TypeError and `transform_file` aborts | fall back to "display" and "context" when the groups are missing | not executed | SpliceRules.CreateNamesWithoutGroups | SpliceRules.CreateNamesAgree |
