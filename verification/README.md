# Verified model of PR-Insight's diff, packing and push-trigger core

PR-Insight reads the patches of a pull request, grows their hunks with context, numbers their lines, packs them into
prompts within a token budget, and maps what a language model answers back to lines of the pull request. This project
models that core in Dafny and proves what its parts promise, alone and together. `dafny verify dfyconfig.toml` checks it.

Patches follow the unified format ("Diff -u or -U Output Format" of the `diff` utility in POSIX.1-2017). A patch is a
list of tagged lines, a file a list of texts. A *well-formed patch* from one file to another (`UnifiedDiff.Takes`) has
increasing hunks that stand in both files where their headers say, with the counts their headers say, and equal text
between them. Loops are methods, proved against functions; the properties of those functions are lemmas, each proved by its
own body, with automatic induction switched off.

| modules | what they model |
|---|---|
| `PyText`, `UnifiedDiff`, `PatchText` | Python slices and text operations and what they mean; lines, headers, hunks, what it means to apply a patch; reading lines back from their text |
| `ExtendPatch`, `ExtendedHunks`, `GrownHunks`, `ExtendMeaning`, `ExtendSafety`, `ExtendHeaders` | growing hunks with context; what each hunk is grown to, case by case; exactly when that keeps the meaning of the patch, told from the files and settings alone; the headers it writes |
| `OmitDeletions` | dropping hunks that only delete |
| `DecoupleHunks`, `NumberedText`, `NumbersExact`, `MergedRuns`, `OldSections`, `NewSections`, `ShownText`, `RemoveNumbers` | splitting hunks into numbered sides, which numbers are shown and exactly when they are right, what the sections show, the numbers as they are read off the text, taking them off again |
| `LineWalkers`, `WalkersAgree` | the loops that compute line numbers, and the one number they all follow |
| `RelevantLines`, `RoutesAgree` | selecting a range of lines from a patch or from the file, and that both give the same |
| `CommentClipping` | moving comments into hunks and publishing them |
| `TokenPacking`, `MultiDiffs`, `LanguageSort` | the two packers, the grouping of files before them, and what happens to each file |
| `PushTrigger`, `TimeoutDict`, `ExpiryExact` | the push-trigger protocol on two dictionaries that are meant to time out, and exactly when their timing does harm |
| `WrapText`, `WrapParts` | wrapping text without breaking its code tags, and what each step does to the symbols of the text |

## Model

| member | source | states |
|---|---|---|
| `PyText.ContainsExactly` | pr_insight/algo/patch_utils.py:78 | the containment test holds exactly if the text stands at some place of the other |
| `PyText.FromTheEnd` | pr_insight/algo/git_patch_processing.py:79-81 | negative indices count from the end; one out of reach is no element, or the nearest end of a slice |
| `PyText.LStripExactly` | pr_insight/algo/patch_utils.py:84 | what is left is an end of the text that starts with no white space, with only white space in front of it |
| `PyText.StripExactly` | pr_insight/algo/git_patch_processing.py:197 | what is left is the part of the text between its first and its last character that is not white space |
| `PyText.DigitsRead` | pr_insight/algo/git_patch_processing.py:367-368 | the digits a number is shown by, read from the left, stand for that number, and none is put in front that does not count |
| `PyText.DecRead` | pr_insight/algo/git_patch_processing.py:367-368 | reading the text of any number, below 0 too, gives the number |
| `PyText.TrimExactly` | pr_insight/algo/git_patch_processing.py:366-370 | stripping a list of lines is stripping the text they make up |
| `PatchText.HeaderRead` | pr_insight/algo/git_patch_processing.py:12-13 | the header expression reads from a header that is written, with counts or without, every field as it was |
| `PatchText.LineRead` | pr_insight/algo/git_patch_processing.py:351-392 | so every line of a patch is read back from its text as what it was |
| `UnifiedDiff.FlattenSplit` | pr_insight/algo/git_patch_processing.py:67-77 | every list of patch lines is the lines before its first header followed by its hunks, with no header inside any of them |
| `UnifiedDiff.SplitFlatten` | pr_insight/algo/git_patch_processing.py:73-77 | reading hunks out of the lines they were written to gives the same hunks |
| `UnifiedDiff.TakesApplies` | pr_insight/algo/git_patch_processing.py:12-13 | a well-formed patch, applied to its old file, gives its new file |
| `ExtendPatch.Extend` | pr_insight/algo/git_patch_processing.py:15-35 | the patch comes back untouched without a patch, lines to add or an old file, or for a skipped file type; else extended hunk by hunk |
| `ExtendPatch.ProcessPatchLines` | pr_insight/algo/git_patch_processing.py:60-187 | the one pass with state carried from header to header amounts to extending each hunk by itself, for every list of lines |
| `ExtendPatch.StartHunk` | pr_insight/algo/git_patch_processing.py:83-172 | the header and leading lines written at a header, with the trailing lines written later, make the extended hunk |
| `ExtendPatch.CheckHunk` | pr_insight/algo/git_patch_processing.py:189-213 | a hunk is invalid exactly if it starts with a context line that differs from the old file's line there, white space aside; a line out of reach never makes it invalid |
| `ExtendPatch.FindRange` | pr_insight/algo/git_patch_processing.py:100-128 | the range goes up to the first line that holds the section text if old and new lines agree from there, else to the fixed number of lines, as `ExtendedHunks` spells out |
| `ExtendPatch.Compare` | pr_insight/algo/git_patch_processing.py:130-151 | the leading lines are the longest common ending of old and new lines; with none the hunk keeps its own range and gets none |
| `ExtendPatch.RemainingSection` | pr_insight/algo/git_patch_processing.py:156-161 | outside dynamic mode the section text is dropped exactly if a leading line holds it |
| `ExtendedHunks.EveryHunkExtended` | pr_insight/algo/git_patch_processing.py:79-184 | every hunk of an extended well-formed patch, told from the files, the hunk and the settings: in the dynamic mode, where one of the last lines within reach holds the section text and both files agree from there, it starts at the first such line and shows no section text; otherwise it is given the last lines on which both files agree, or keeps its range; its header counts these and the lines after it, and a fallback counts neither |
| `ExtendedHunks.StartsThere` | pr_insight/algo/git_patch_processing.py:107-120 | where the section text is found at line k in the dynamic mode, the extended hunk starts at line k, equally far up in both files, its first line is that line, and its section text is empty |
| `ExtendedHunks.OffsetExactly` | pr_insight/algo/git_patch_processing.py:107-118 | the search in the two windows finds a line exactly if it is the first within reach that holds the section text, both files have equally many lines within reach, and they agree from it on |
| `ExtendedHunks.OtherwiseFixed` | pr_insight/algo/git_patch_processing.py:121-128 | where it is not found so, the dynamic mode gives the hunk that the fixed mode gives, but leaves the section text as it was |
| `ExtendedHunks.MatchesExactly` | pr_insight/algo/git_patch_processing.py:189-213 | a hunk is taken to match its file unless it starts with a context line and the file has another line there, white space aside |
| `ExtendedHunks.MismatchKept` | pr_insight/algo/git_patch_processing.py:162-172 | a hunk that does not match keeps its header, counts written out, its section text and its body |
| `ExtendMeaning.LimitsGrow` | pr_insight/algo/git_patch_processing.py:88-98 | the range grows both sizes by what it moves the starts plus the lines there are after the hunk, also at the end of the file |
| `ExtendMeaning.LimitsCapped` | pr_insight/algo/git_patch_processing.py:88-98 | for any header: what is asked for is cut where it would reach past the end of the old file, but never below the hunk's own sizes |
| `ExtendMeaning.ProcessedExactly` | pr_insight/algo/git_patch_processing.py:73-187 | lines before the first header stay in front; each hunk follows, extended by itself, after an empty line |
| `ExtendMeaning.AgreedShape` | pr_insight/algo/git_patch_processing.py:130-151 | accepted leading lines are the old file's lines just before the hunk, as many as the start moved, and with a new file the same lines stand there and both starts moved equally |
| `ExtendMeaning.ExtendingPreservesMeaning` | pr_insight/algo/git_patch_processing.py:60-187 | for every well-formed patch and every setting, in the fixed, dynamic, partial-match, fallback and end-of-file branches: the extended patch still turns the old file into the new one if and only if the grown old ranges do not overlap and what is put after each hunk follows it in the old file |
| `ExtendMeaning.ExtendedIsWellFormed` | pr_insight/algo/git_patch_processing.py:60-187 | the extended patch is again well-formed if and only if, in addition, its headers are exact |
| `ExtendMeaning.ExplicitTrailFits` | pr_insight/algo/git_patch_processing.py:79-81 | with counts written out, the trailing lines always are the ones that follow the hunk, cut at the end of the file |
| `ExtendMeaning.OmittedTrailFits` | pr_insight/algo/git_patch_processing.py:215-227 | with the old count left out (read as 0, while the format says 1) the trailing lines start one line early, and fit exactly if that makes no difference |
| `ExtendMeaning.LeadAtMost` | pr_insight/algo/git_patch_processing.py:88-131 | no more lines are put before a hunk than the settings allow |
| `ExtendMeaning.FarApartIsSafe` | pr_insight/algo/git_patch_processing.py:60-187 | hunks with explicit counts, as far apart as the settings can add lines, extend safely in every mode |
| `ExtendSafety.SafeExactly` | pr_insight/algo/git_patch_processing.py:60-187 | in every mode, with or without the new file, with counts written out or not, extension is safe if and only if a condition on the files, the headers and the settings holds: the lines put after each hunk end before those asked for ahead of the next, or there are none and the last lines of the hunk before it differ; and an omitted old count does no harm |
| `ExtendSafety.MeaningKeptExactly` | pr_insight/algo/git_patch_processing.py:60-187 | so the extended patch still turns the old file into the new one if and only if that condition holds |
| `ExtendSafety.SafeWithoutNewFile` | pr_insight/algo/git_patch_processing.py:79-98 | without the new file and with explicit counts: safe if and only if what each hunk takes after it and the next one before it, both cut at the ends of the file, do not meet |
| `ExtendSafety.FarApartExactly` | pr_insight/algo/git_patch_processing.py:130-184 | in the fixed mode with the new file, away from the file starts: safe if and only if consecutive hunks lie further apart than the lines asked for before and after |
| `ExtendSafety.LeadAgainstGap` | pr_insight/algo/git_patch_processing.py:130-151 | the leading lines accepted before a hunk stop short of the previous hunk exactly if fewer than the gap are asked for, or more are and the lines in front of the gap differ |
| `ExtendHeaders.HeaderArithmetic` | pr_insight/algo/git_patch_processing.py:79-98 | the old side of an extended hunk stands in the old file at its start; its counts are exact when leading lines are accepted, and short by exactly the trailing lines after a fallback; without the new file the new count is off by the difference of the two moves |
| `ExtendHeaders.ExactHeader` | pr_insight/algo/git_patch_processing.py:130-184 | an extended header is exact if and only if nothing was appended after a fallback or, without the new file, both starts moved equally |
| `ExtendHeaders.AcceptedInTheOpen` | pr_insight/algo/git_patch_processing.py:130-151 | a hunk that does not touch the one before it and is not near a file start never falls back |
| `ExtendHeaders.StartsWithoutNewFile` | pr_insight/algo/git_patch_processing.py:88-98 | without the new file both starts move independently, each by what its file has before the hunk |
| `ExtendHeaders.ExtendedNewSide` | pr_insight/algo/git_patch_processing.py:130-184 | with the new file, the new side of an extended hunk stands in it where the header says, after a fallback too, if the trailing lines end before the next hunk |
| `ExtendHeaders.NewSideWithoutNewFile` | pr_insight/algo/git_patch_processing.py:88-98 | without the new file the new side stands off from the header by the difference of the two moves |
| `ExtendHeaders.OmittedCountBreaks` | pr_insight/algo/git_patch_processing.py:215-227 | a concrete one-line patch with omitted counts, extended by one line, no longer applies |
| `ExtendHeaders.OverlapBreaks` | pr_insight/algo/git_patch_processing.py:79-81 | two concrete hunks one line apart, extended by one line on both sides, no longer apply |
| `OmitDeletions.OmitDeletionHunks` | pr_insight/algo/git_patch_processing.py:230-264 | the buffering loop keeps everything up to the last hunk that adds a line, lines before the first header and their additions included |
| `OmitDeletions.HandlePatchDeletions` | pr_insight/algo/git_patch_processing.py:267-297 | nothing is left exactly of a deleted file; of a patch without a preamble what is left has the same added lines, is the beginning of the patch, and ends with a hunk that adds |
| `OmitDeletions.WhatIsLeft` | pr_insight/algo/git_patch_processing.py:230-264 | the same of the buffering loop alone |
| `OmitDeletions.OmittedExactly` | pr_insight/algo/git_patch_processing.py:239-264 | with lines before the first header: these and the hunks up to the last that adds a line, or, if only they add one, they and the first hunk |
| `OmitDeletions.OmittedIsPrefix` | pr_insight/algo/git_patch_processing.py:239-264 | exactly the hunks up to the last one with an added line are left |
| `OmitDeletions.AddedLinesKept` | pr_insight/algo/git_patch_processing.py:239-264 | no added line is lost, changed or reordered |
| `OmitDeletions.OmittedTwice` | pr_insight/algo/git_patch_processing.py:239-264 | a second application changes nothing |
| `OmitDeletions.OmittedApplies` | pr_insight/algo/git_patch_processing.py:239-264 | what is left of a well-formed patch applies, and gives the new file up to the last hunk left and the old file after it |
| `OmitDeletions.DeletionHunksGone` | pr_insight/algo/git_patch_processing.py:230-237 | the documented aim, that no deletion-only hunk is left, is met if and only if none comes before a hunk that adds |
| `OmitDeletions.DeletionHunkStays` | pr_insight/algo/git_patch_processing.py:249-253 | a concrete well-formed patch, with its files, whose first hunk only deletes and is kept |
| `DecoupleHunks.Decouple` | pr_insight/algo/git_patch_processing.py:300-410 | the text built line by line and stripped as it grows is the items of each hunk in turn: header, numbered new side, old side; `ShownText` and `NewSections` say how that reads |
| `DecoupleHunks.PutHunks` | pr_insight/algo/git_patch_processing.py:350-408 | the two lists collected over many lines are put out once per hunk; the last hunk only if its new side has lines |
| `DecoupleHunks.PutHunk` | pr_insight/algo/git_patch_processing.py:357-372 | one hunk: the new section if anything was added or deleted, the old section if anything was deleted |
| `DecoupleHunks.TrimShown` | pr_insight/algo/git_patch_processing.py:366-370 | stripping the text is stripping its last items, numbers being left in place |
| `DecoupleHunks.MarkExactly` | pr_insight/algo/git_patch_processing.py:366-370 | a mark is put after the stripped text, on a line of its own, even if there is no text |
| `DecoupleHunks.VisibleExactly` | pr_insight/algo/git_patch_processing.py:350-389 | looked at are the lines not to be skipped, but for empty lines at the end or in front of a header; the very first line is looked at even if empty |
| `ShownText.NumberRead` | pr_insight/algo/git_patch_processing.py:367-368 | the digits a numbered line starts with stand for its number, and after them come a blank and the line, stripped or not |
| `ShownText.DigitLines` | pr_insight/algo/git_patch_processing.py:343-410 | in the decoupled text of any patch the lines that start with a digit are exactly those given a number not below 0 |
| `ShownText.TextIndexesFile` | pr_insight/algo/git_patch_processing.py:343-410 | extending and then decoupling, where neither the new file nor a section text speaks of a missing newline: the number that any line of the text starts with, read from its digits, names the line of the new file that it shows |
| `NewSections.NamesFile` | pr_insight/algo/git_patch_processing.py:335-341 | the text starts with the name of the file, and of a deleted file it says that and no more |
| `NewSections.HunkHasNewSection` | pr_insight/algo/git_patch_processing.py:357-368 | in the decoupled text of any patch a hunk that is put out and changes anything has its header text, the mark and its new side, numbered from its start |
| `NewSections.NewSectionInText` | pr_insight/algo/git_patch_processing.py:343-410 | so the decoupled text of a well-formed patch holds, for a hunk that changes anything, the text of its header, the mark, and then the lines of the new file that the hunk covers, each behind its number in digits |
| `NewSections.LastNotPut` | pr_insight/algo/git_patch_processing.py:392-408 | a last hunk without a new side to show is not put out at all |
| `NumberedText.NumbersShown` | pr_insight/algo/git_patch_processing.py:343-410 | for every patch: the numbers shown are exactly those of the new-side lines of the hunks that change something, consecutive in each from the start in its header; before them, from -1, those of lines ahead of the first header if these add or delete anything; none for a deleted file |
| `NumberedText.NegativeNumber` | pr_insight/algo/git_patch_processing.py:343-348 | with no negative start in a header the only number below 0 is -1, on the first new-side line ahead of the first header |
| `NumberedText.EmittedNumbersIndexFile` | pr_insight/algo/git_patch_processing.py:384-389 | the empty lines that extension puts before headers never become content, and numbers of hunks that stand in the new file name their lines |
| `NumbersExact.LineSpeaks` | pr_insight/algo/git_patch_processing.py:351-352 | whether a line of a file is passed over depends on its text alone, not on its marker |
| `NumbersExact.HeadSpeaks` | pr_insight/algo/git_patch_processing.py:351-352 | whether a header is passed over depends on its section text alone |
| `NumbersExact.ShownNumberTrue` | pr_insight/algo/git_patch_processing.py:367-368 | the number shown beside a line is its place in the new file if and only if no new-side line is passed over before it in its hunk |
| `MergedRuns.ReadFlat` | pr_insight/algo/git_patch_processing.py:343-356 | how any hunks are read: those up to the first header that is not passed over as lines before it, the others in runs, each under the header of its first hunk |
| `MergedRuns.RunTrue` | pr_insight/algo/git_patch_processing.py:384-389 | the numbers of a run are the places of its lines if and only if in each hunk that shows a line the next number is the place of the first one shown, and no line is passed over between two that are shown |
| `MergedRuns.PatchNumbersExactly` | pr_insight/algo/git_patch_processing.py:343-410 | on every well-formed patch all numbers shown are places in the new file if and only if that holds of every run that shows numbers, and the hunks before the first header that is read show none |
| `MergedRuns.ReadNumbersTrue` | pr_insight/algo/git_patch_processing.py:343-410 | the same for any hunks whatever, written out plainly |
| `MergedRuns.EmittedNumbersTrue` | pr_insight/algo/git_patch_processing.py:343-410 | and as extension writes them, with an empty line in front |
| `MergedRuns.ExtendedNumbersExactly` | pr_insight/algo/git_patch_processing.py:343-410 | extending any well-formed patch and then numbering it: the numbers are those the extended headers give under the same condition on the extended hunks |
| `NumbersExact.ExtendedNumbersIndexFile` | pr_insight/algo/git_patch_processing.py:343-410 | extending and then numbering, where neither the new file nor a section text speaks of a missing newline: a line shown as number n shows, after its marker, line n of the new file |
| `MergedRuns.PassedHeader` | pr_insight/algo/git_patch_processing.py:351-352 | on a well-formed patch of two hunks whose second header is passed over for its section text: the numbers are right if and only if none are shown or nothing lies between the two hunks |
| `MergedRuns.SectionPassed` | pr_insight/algo/git_patch_processing.py:351-352 | a concrete well-formed patch of that kind, for every such section text, whose numbers are wrong |
| `NumbersExact.PreambleNumbered` | pr_insight/algo/patch_utils.py:20-24 | a deleted and an added line ahead of the first header, as `difflib` writes them: the second is shown with the number -1 |
| `NumberedText.PassedOverShiftsNumbers` | pr_insight/algo/git_patch_processing.py:351-352 | of the lines of a new side as many are shown as there are, less those that speak of a missing newline and are passed over |
| `NumbersExact.CommentPassed` | pr_insight/algo/git_patch_processing.py:351-352 | for all texts: after a comment that speaks of it the next line of a well-formed patch is shown with the comment's number |
| `NumbersExact.NumberTooSmall` | pr_insight/algo/git_patch_processing.py:351-352 | a concrete well-formed patch of that kind, through the whole decoupling |
| `NumberedText.CommentSaysSo` | pr_insight/algo/git_patch_processing.py:351-352 | an ordinary comment can be such a line |
| `OldSections.OldSectionShowsFile` | pr_insight/algo/git_patch_processing.py:369-372 | a hunk that deletes ends with its old section: after the mark, the old file's lines that the hunk covers, with their markers, in order and unnumbered |
| `OldSections.HunkStays` | pr_insight/algo/git_patch_processing.py:360-410 | in the decoupled text of any patch each hunk that is put out stays as it was put out, but for white space stripped at the end of the text |
| `OldSections.OldSectionInText` | pr_insight/algo/git_patch_processing.py:300-410 | so the decoupled text of a well-formed patch holds, for a hunk that deletes, the mark and after it the old file's lines that the hunk covers |
| `RemoveNumbers.RemoveLineNumbers` | pr_insight/tools/pr_code_suggestions.py:653-663 | every line of the array is overwritten in place with what follows its leading digits and one character |
| `RemoveNumbers.WithoutShownNumber` | pr_insight/tools/pr_code_suggestions.py:655-663 | removing undoes numbering for every number and every text, but a number below 0 stays |
| `RemoveNumbers.NumbersRoundTrip` | pr_insight/tools/pr_code_suggestions.py:648-665 | over the decoupled text of every patch every new-side line comes back (stripped at its end where a section was), one numbered below 0 with its number, and headers, titles and old-side lines stay as they are |
| `LineWalkers.FindByAbsolute` | pr_insight/algo/patch_utils.py:50-63 | the position found is the first line with that number, or none has it; the search raises exactly if a header with an omitted count comes first |
| `LineWalkers.ScanForText` | pr_insight/algo/patch_utils.py:70-81 | one pass finds the first line, not deleted, that holds the text, with its number; or nothing; or raises at an empty line or a header with an omitted count |
| `LineWalkers.SearchDecided` | pr_insight/algo/patch_utils.py:70-81 | the first line that is a header with an omitted count or holds the text and is not deleted decides: the search raises at such a header and at an empty line, else has found the line with its number; without one it finds nothing |
| `LineWalkers.FindByText` | pr_insight/algo/patch_utils.py:65-96 | found is the first line, not deleted, in which the text stands at any place; a single close match that starts with a plus takes the place of the text; a second pass without the leading plus and the white space after it follows exactly if the first finds nothing, counting on from where the first ended |
| `LineWalkers.FindFirst` | pr_insight/git_providers/gitlab_provider.py:788-803 | the loop, for any test: the first line that passes it, whether it deletes or adds, with both numbers one above its line numbers in old and new file, as the callers expect who subtract one |
| `LineWalkers.PlaceDecided` | pr_insight/git_providers/gitlab_provider.py:788-803 | the first line that is no header and passes the test decides: the search fails at an empty line, else has found the line with both numbers; without one it is nowhere |
| `LineWalkers.FindInFile` | pr_insight/git_providers/gitlab_provider.py:780-814 | the same for the test of the code: the text stands at some place of the line, or what is left of it without its leading plus does |
| `WalkersAgree.WalkersDiffer` | pr_insight/algo/patch_utils.py:51-59 | two walks differ at a line by what one counts since the last header and the other does not |
| `WalkersAgree.SearchesAgree` | pr_insight/git_providers/gitlab_provider.py:797-803 | the position search and GitLab's walk agree on a line if and only if no newline marker and no empty line comes up to it in its hunk |
| `WalkersAgree.DecoupledNumberIsLineNo` | pr_insight/algo/git_patch_processing.py:367-368 | the number shown beside a line of a decoupled patch is the number of the walk over its hunk |
| `WalkersAgree.NumbersAreRight` | pr_insight/git_providers/gitlab_provider.py:788-803 | on a well-formed patch the numbers of every line are its places in the new and the old file |
| `WalkersAgree.FirstWithNumber` | pr_insight/algo/patch_utils.py:59-63 | a line is the first with its number if and only if it is the first line or its number is new |
| `WalkersAgree.TakesAscends` | pr_insight/algo/patch_utils.py:51-59 | the numbers of a well-formed patch never go back if and only if the newline markers in each hunk but the last fit into the gap after it |
| `WalkersAgree.NotesAtEndFit` | pr_insight/algo/patch_utils.py:51-59 | so they never do where markers stand in the last hunk only |
| `WalkersAgree.SearchBack` | pr_insight/algo/patch_utils.py:50-97 | searching by the number a text search gave comes back to the same position if and only if that line's number is new; always from a line that is no header |
| `RelevantLines.WalkHunks` | pr_insight/algo/git_patch_processing.py:422-454 | the loop selects from each hunk whose header passes the lines with numbers in the range, and shows those hunks whole |
| `RelevantLines.ExtractHunkLines` | pr_insight/algo/git_patch_processing.py:413-463 | both results as text, under their title, stripped if asked for |
| `RelevantLines.HunkByLineNo` | pr_insight/algo/git_patch_processing.py:441-454 | the lines selected are exactly those whose preceding number, by the position search's count, is one less than a number of the range |
| `RelevantLines.HunkByHunk` | pr_insight/algo/git_patch_processing.py:434-452 | of each hunk, wherever it stands: it is shown whole, and its lines in the range selected, exactly if the range starts in it or on the line after it |
| `RelevantLines.SelectedExactly` | pr_insight/algo/git_patch_processing.py:422-454 | lines before the first header are shown too, and selected as counted from -1 |
| `RelevantLines.ExtractRelevantLines` | pr_insight/algo/markdown_utils.py:219-247 | from the new file its lines of the range, from the patch the selection without deleted lines and markers |
| `RelevantLines.NothingSelected` | pr_insight/algo/markdown_utils.py:226-240 | nothing comes of the patch exactly if every selected line is white space, marker included |
| `RoutesAgree.LaterHunks` | pr_insight/algo/git_patch_processing.py:442 | hunks after the one in which the range starts add nothing to the new side, even if it runs on into them |
| `RoutesAgree.RangeOfHunks` | pr_insight/algo/git_patch_processing.py:422-454 | the new side of what is selected for a range that starts in a hunk is the file's lines of that range up to the end of the hunk |
| `RoutesAgree.StartsOutside` | pr_insight/algo/git_patch_processing.py:442 | a range that starts in no hunk selects nothing of any new side, though the inclusive test at a header may pass |
| `RoutesAgree.TrimmedRoute` | pr_insight/algo/markdown_utils.py:234-237 | taking off markers after stripping the end loses nothing but white space at the end |
| `RoutesAgree.RoutesAgree` | pr_insight/algo/markdown_utils.py:226-240 | for a range that starts in a hunk the route over the patch gives the file's lines up to the end of that hunk, so for a range inside one hunk both routes give the same lines, up to white space at the end |
| `CommentClipping.FindNearest` | pr_insight/git_providers/github_provider_diff.py:292-309 | the range found holds the comment, or is the first at the least distance among those not overrun on both sides; none exactly if all are |
| `CommentClipping.ValidateInFile` | pr_insight/git_providers/github_provider_diff.py:272-340 | a suggestion in its file is left alone or clipped to the nearest range |
| `CommentClipping.ValidateComments` | pr_insight/git_providers/github_provider_diff.py:260-343 | each suggestion goes through all files in turn, independently of the others |
| `CommentClipping.OwnFileOnly` | pr_insight/git_providers/github_provider_diff.py:272-273 | with distinct file names it is changed by its own file only |
| `CommentClipping.Publish` | pr_insight/git_providers/github_provider_comments.py:189-224 | exactly the suggestions with a start and an end not before it are posted, in order |
| `CommentClipping.PostedExactly` | pr_insight/git_providers/github_provider_comments.py:189-224 | each suggestion, wherever it stands, is posted exactly if it has a first line that is not after its last; the post stands at the last line and names the first if it is another |
| `CommentClipping.MovedLittle` | pr_insight/git_providers/github_provider_diff.py:310-317 | a suggestion is unchanged or becomes its intersection with a nearest range, one end moved inwards by at most 9 lines |
| `CommentClipping.MovedExactly` | pr_insight/git_providers/github_provider_diff.py:286-317 | in a file of its name a suggestion is moved if and only if it has both lines and its original, lies inside no range, and overruns some range on one side only and by fewer than 10 lines |
| `CommentClipping.PublishedInsideHunk` | pr_insight/git_providers/github_provider_comments.py:195-207 | a moved suggestion is posted if and only if it shares a line with that range, and then lies wholly inside it |
| `CommentClipping.InsideStays` | pr_insight/git_providers/github_provider_diff.py:298-302 | a suggestion inside any range is never moved |
| `CommentClipping.OmittedCountLosesComment` | pr_insight/git_providers/github_provider_diff.py:282-283 | whatever the other ranges, a comment on the one line of a hunk with an omitted new count is moved and not posted, unless another range holds it |
| `CommentClipping.KeptExactly` | pr_insight/git_providers/github_provider_diff.py:272-317 | on a well-formed patch a comment inside the lines that a hunk really covers is left alone and posted if and only if the hunk's new count is written out, and lost otherwise |
| `TokenPacking.GenerateFullPatch` | pr_insight/algo/pr_processing.py:279-317 | the loop over the dictionary fills one prompt from the files still listed |
| `TokenPacking.CompressedDiff` | pr_insight/algo/pr_processing.py:249-276 | one pass, or for large requests with more than two calls as many as calls but one, each over what the last one left; the first list is kept even if empty, later ones only if not |
| `TokenPacking.PassAccounts` | pr_insight/algo/pr_processing.py:284-317 | each file offered is included, left, stopped or empty, exactly one of them |
| `TokenPacking.PassesAccount` | pr_insight/algo/pr_processing.py:249-317 | over any number of passes: each file is included, stopped or empty in exactly one of them, or left in the end |
| `TokenPacking.FilledExactly` | pr_insight/algo/pr_processing.py:262-276 | the lists hold what the passes include, in order, and no list is empty |
| `TokenPacking.PassTotal` | pr_insight/algo/pr_processing.py:280-313 | the total is the prompt and what the included files are charged, at most the soft budget plus what wrapping adds to a file |
| `TokenPacking.EntryFate` | pr_insight/algo/pr_processing.py:284-317 | each file by what was included before it: nothing is done past the hard threshold, what does not fit under the soft one is left, any other is included if it has a patch |
| `TokenPacking.NothingPlaced` | pr_insight/algo/pr_processing.py:292-305 | a pass that stops and places nothing leaves only files too large for a fresh prompt |
| `TokenPacking.StopsNothing` | pr_insight/algo/pr_processing.py:292-313 | of some files nothing is ever stopped, whatever is offered of them in whatever order, under any limit and any prompt within it, if and only if there is one file at most or wrapping adds to no patch more than the difference of the two thresholds |
| `TokenPacking.StoppedFileIsLost` | pr_insight/algo/pr_processing.py:293-295 | otherwise a file can be lost: neither included nor left for the next pass |
| `TokenPacking.PassFillsOne` | pr_insight/algo/pr_processing.py:279-317 | on ordinary files a pass fills one bin greedily |
| `TokenPacking.Interchange` | pr_insight/algo/pr_processing.py:249-317 | first fit over many bins fills the first from all files and the others from what that leaves |
| `TokenPacking.PassesAreFirstFit` | pr_insight/algo/pr_processing.py:249-317 | the passes, bin by bin, give the same prompts and leftovers as first fit, file by file, for every list of ordinary files and every number of passes |
| `MultiDiffs.Prepare` | pr_insight/algo/pr_processing.py:434-474 | a patch that fits a fresh prompt is used as it is; an oversized one is clipped under the clip policy, exactly if what that gives is not empty and fits, and skipped under any other; nothing is used without a patch, of a deleted file or of an empty text |
| `MultiDiffs.PreparedExactly` | pr_insight/algo/pr_processing.py:434-474 | the same of the function that the packing is proved against |
| `MultiDiffs.SurvivorsInOrder` | pr_insight/algo/pr_processing.py:424-491 | the pieces come in the order of their files |
| `MultiDiffs.PutPatch` | pr_insight/algo/pr_processing.py:476-491 | a patch goes into the open chunk or, if it does not fit, into a new one, which takes a call |
| `MultiDiffs.NextFit` | pr_insight/algo/pr_processing.py:424-500 | no chunk is empty or over budget, none could have taken the next one's first patch, there are at most as many as calls, and they hold all pieces in order or the limit was reached by one that did not fit |
| `MultiDiffs.GetPrMultiDiffs` | pr_insight/algo/pr_processing.py:408-500 | one prompt if everything fits with room to spare, else next fit; either way within budget |
| `MultiDiffs.PairsOver` | pr_insight/algo/pr_processing.py:476-480 | chunks taken in pairs exceed the budget |
| `MultiDiffs.SumReordered` | pr_insight/algo/pr_processing.py:420-422 | tokens do not depend on the order of the files |
| `MultiDiffs.NextFitBound` | pr_insight/algo/pr_processing.py:424-500 | if the same pieces fit into m groups within the budget, in any order, there are at most 2m - 1 chunks |
| `MultiDiffs.GreedyIsPacked` | pr_insight/algo/pr_processing.py:424-500 | there is only one way to fill chunks greedily: it is packing the pieces one after the other with no limit on calls |
| `MultiDiffs.AllPlacedExactly` | pr_insight/algo/pr_processing.py:424-500 | the chunks made under a limit are the first of those made without one, and every piece is placed if and only if the limit is as many calls as these need |
| `MultiDiffs.PackedIsGreedy` | pr_insight/algo/pr_processing.py:424-500 | packing without a limit keeps to the budget, is greedy and places everything |
| `MultiDiffs.NothingDropped` | pr_insight/algo/pr_processing.py:424-500 | the calls needed are at most 2m - 1 if the pieces fit into m groups in any order; so with as many none is dropped |
| `LanguageSort.Filter` | pr_insight/algo/language_handler.py:7-12 | the files whose names are valid, in order |
| `LanguageSort.WhereInOrder` | pr_insight/algo/language_handler.py:7-12 | files that pass a test come each from its place, in order, and none is left out |
| `LanguageSort.LastPartExactly` | pr_insight/algo/language_handler.py:74 | the extension is what follows the last dot, or the whole name without one |
| `LanguageSort.CollectFiles` | pr_insight/algo/language_handler.py:71-79 | one language's files, while the files of no language are collected once each, however many languages there are |
| `LanguageSort.SortFiles` | pr_insight/algo/language_handler.py:37-83 | the groups of all languages that have files, in order, and the rest |
| `LanguageSort.RestComesLast` | pr_insight/algo/language_handler.py:62-83 | the groups of the languages that have files come in the order of the languages, and last of all, as "Other", one file of each name that is of no language |
| `LanguageSort.GroupHolds` | pr_insight/algo/language_handler.py:45-52 | a file is of a language exactly if its extension is one of those known for it, whatever letters the language is written in |
| `LanguageSort.SortedCount` | pr_insight/algo/language_handler.py:71-82 | a file is shown once for each language that claims its extension, and once if none does |
| `LanguageSort.GroupsArePermutation` | pr_insight/algo/language_handler.py:37-83 | the groups hold every kept file exactly once if and only if no kept file's extension is claimed twice |
| `LanguageSort.EveryFileInOneChunk` | pr_insight/algo/pr_processing.py:419-498 | from files to prompts: a kept file whose patch fits is in exactly one chunk with that patch, one whose clipped patch fits with that, and no other in any, all of this if and only if as many calls are allowed as the pieces need in packing order |
| `LanguageSort.NoFileDropped` | pr_insight/algo/pr_processing.py:419-498 | so in particular where the pieces could be put into m groups within the budget and 2m - 1 calls are allowed |
| `PushTrigger.PushTriggers.Enter` | pr_insight/servers/github_app.py:175-187 | a task is counted exactly if fewer are active than may be, through `setdefault` and reads and writes of a dictionary that is meant to time out |
| `PushTrigger.PushTriggers.Admit` | pr_insight/servers/github_app.py:175-194 | the two dictionaries, timed as they are, change as the protocol's arrival step says, for this pull request only |
| `PushTrigger.PushTriggers.Resume` | pr_insight/servers/github_app.py:194-195 | a notified task goes on |
| `PushTrigger.PushTriggers.Release` | pr_insight/servers/github_app.py:202-206 | one waiting task is notified and the counter goes down, for this pull request only |
| `PushTrigger.AlwaysSafe` | pr_insight/servers/github_app.py:175-206 | in every reachable state the counter is the running, notified and waiting tasks, at most two; at most one runs or is notified, at most one waits, and a waiting task has one that will wake it |
| `PushTrigger.NoPushLost` | pr_insight/servers/github_app.py:169-206 | with the backlog, in every run each push, admitted or discarded, is followed by a start at or after its arrival, or a start is still due |
| `PushTrigger.AllPushesStarted` | pr_insight/servers/github_app.py:169-206 | so when the counter is 0 the last start is no earlier than the last push |
| `PushTrigger.StartsWithoutBacklog` | pr_insight/servers/github_app.py:176-187 | without the backlog a push is followed by a start if and only if it finds the counter at 0, or some task finishes after it and another push arrives after that |
| `PushTrigger.PushLostWithoutBacklog` | pr_insight/servers/github_app.py:176-187 | a concrete run without the backlog that loses a push |
| `PushTrigger.StartedOnce` | pr_insight/servers/github_app.py:188-206 | in every run a task is started exactly once if it runs or is done, and never otherwise |
| `PushTrigger.SomeStep` | pr_insight/servers/github_app.py:188-206 | while the counter is positive some task can go on |
| `PushTrigger.WorkFalls` | pr_insight/servers/github_app.py:188-206 | every step but an arrival lessens the work there is |
| `PushTrigger.Drains` | pr_insight/servers/github_app.py:188-206 | runs without arrivals are bounded by the work, and at counter 0 every task is done or discarded |
| `PushTrigger.CanDrain` | pr_insight/servers/github_app.py:188-206 | from every reachable state all tasks can run to their end |
| `PushTrigger.Independent` | pr_insight/servers/github_app.py:175-206 | however the events of several pull requests interleave, each stands where its own events take it |
| `PushTrigger.RunsTogether` | pr_insight/servers/github_app.py:175-206 | events can run together if and only if those of each pull request can run alone |
| `TimeoutDict.TimedDict.Refresh` | pr_insight/servers/utils.py:63-72 | the sweep with its guard as written; KeyError is raised exactly if a key that has expired is not stored, and then the keys deleted so far are gone and the time of that one |
| `TimeoutDict.TimedDict.GetItem` | pr_insight/servers/utils.py:74-78 | reading touches the key, sweeps, and stores the default for a key that is missing; KeyError without one, or if the sweep fails |
| `TimeoutDict.TimedDict.SetItem` | pr_insight/servers/utils.py:80-82 | writing sets value and time |
| `TimeoutDict.SweptExactly` | pr_insight/servers/utils.py:57-72 | in every run something is swept if and only if keys time out and some read comes no later than construction |
| `TimeoutDict.NeverSwept` | pr_insight/servers/utils.py:63-72 | if the clock has moved on since construction at every read, the dictionary is never swept: nothing expires |
| `ExpiryExact.NoSweepFailsExactly` | pr_insight/servers/utils.py:57-78 | over all runs whose clock never goes back, no sweep ever raises KeyError if and only if keys do not time out, or reading does not touch them, or the time to live is not negative and there is a default or no positive interval |
| `ExpiryExact.StoredReadsNeverFail` | pr_insight/servers/utils.py:63-82 | a run that reads only stored keys never meets it, as the push trigger's counters need, which have no default |
| `ExpiryExact.KeyLostExactly` | pr_insight/servers/utils.py:57-82 | over all runs whose clock never goes back and that raise nothing, a stored key is ever lost if and only if keys time out and the time to live is negative or the interval positive |
| `TimeoutDict.KeysStay` | pr_insight/servers/utils.py:63-82 | so a key stored at any point of a run stays to its end, as the push trigger relies on |
| `TimeoutDict.SweptAfterUseAtOnce` | pr_insight/servers/utils.py:57-72 | one use at the very time of construction starts the sweeping, and a key can be lost |
| `WrapText.ReplaceCodeTags` | pr_insight/tools/pr_description.py:877-884 | rewriting every second part in place reads backticks as opening and closing tags in turn, closing one left open |
| `WrapText.TaggedIsNested` | pr_insight/tools/pr_description.py:877-884 | on a text without tags the result has every tag closed, and at no place more than one open |
| `WrapText.ListedKeepsDepth` | pr_insight/tools/pr_description.py:820-829 | turning the markers of a list into list items leaves code tags nested as they were |
| `WrapText.WordsKeepDepth` | pr_insight/tools/pr_description.py:833-839 | splitting into words keeps the nesting of tags |
| `WrapText.WordsExactly` | pr_insight/tools/pr_description.py:833-839 | the words are the only way to take the text apart so that none holds a space, a break stands only at the end of a word and not of the last, and with a space after every word that is neither last nor ended by a break they are the text |
| `WrapText.SplitWords` | pr_insight/tools/pr_description.py:834-839 | the loop over the lines, each split at its spaces and ended by its break, gives these words |
| `WrapText.NestedStep` | pr_insight/tools/pr_description.py:850-867 | code is taken to be open only where it is, so a break put in keeps the nesting |
| `WrapText.WrapWords` | pr_insight/tools/pr_description.py:841-867 | the words come out unchanged and in order; the tags nest as in the words; a break closes and reopens the tag exactly if some word opened code and none closed any since; no run between breaks exceeds x visible characters unless it is one word; no break is put in where the next word still fitted |
| `WrapText.WrapText` | pr_insight/tools/pr_description.py:803-874 | a short text comes back as it is; a longer one, list or not, is taken apart at its spaces and breaks only, wrapped as above and stripped, so that a run longer than x is one word without a space inside; its code tags nest as they did once the backticks were read, and where they all come from backticks every one is closed |
| `WrapParts.WrapKeepsLetters` | pr_insight/tools/pr_description.py:803-874 | whatever is wrapped, the letters come out as they were: none lost, added or reordered |
| `WrapParts.WrapRewrites` | pr_insight/tools/pr_description.py:817-831 | no line break and no backtick is left, and a list has items |
| `WrapParts.PartsExactly` | pr_insight/tools/pr_description.py:881 | splitting at a symbol gives parts without it that, with it between them, are the text |
| `WrapParts.TaggedExactly` | pr_insight/tools/pr_description.py:877-884 | tagging turns backticks into tags and changes nothing else, but for one closing tag if their number is odd |
| `WrapParts.ReplaceExactly` | pr_insight/tools/pr_description.py:827-828 | replacing takes the text apart at the places of what is sought, each time the first one left, and puts the new text there |
| `WrapParts.ListExactly` | pr_insight/tools/pr_description.py:814 | a text is a list exactly if a dash or an asterisk and a space follow its leading white space |
| `WrapParts.ListedStarts` | pr_insight/tools/pr_description.py:822-825 | a list starts with its first item, behind the white space it started with |
| `WrapParts.ListedMarkersGone` | pr_insight/tools/pr_description.py:827-828 | no marker is left at the start of any line |
| `WrapParts.ListedKeepsInner` | pr_insight/tools/pr_description.py:822-828 | making list items loses and reorders nothing but what markers are made of |
| `WrapParts.BrokenExactly` | pr_insight/tools/pr_description.py:831 | every line break becomes a break and nothing else changes |
| `WrapParts.StrippedExactly` | pr_insight/tools/pr_description.py:869 | stripped is exactly the white space at the ends, and no tag |
| `WrapParts.PiecesExactly` | pr_insight/tools/pr_description.py:850-856 | what is written for a word and for a break, in code and outside |
| `WrapParts.RunExactly` | pr_insight/tools/pr_description.py:855-862 | a run is the words since the last break, put in or a list item or break by itself, but for tags that stand alone |
| `WrapParts.VisibleExactly` | pr_insight/tools/pr_description.py:796-800 | what is counted is the length of the text without its tags |
| `WrapParts.LengthExactly` | pr_insight/tools/pr_description.py:858-859 | the length of a run is what can be seen of its words and a space after each |

## Left out

Where the code departs from its documentation or the format, the code is followed: an omitted count is read as 0;
`omit_deletion_hunks` keeps deletion hunks that come before an added line; the dictionary never expires once its clock has
moved past construction; a file met after the hard threshold is dropped for good; lines that happen to contain the words
of the newline marker are passed over when numbering.

- Header text: headers are given as the fields the header expression finds, which `PatchText` reads back from their text; lines that start with `@@` without matching it, and the blank that ends a header with an empty section, are not modelled.
- Text and lines: a text is the list of its lines, none of which holds a line break; joining and splitting are not modelled. White space is Python's, but `lower` and digits are ASCII only.
- Context lines whose leading blank was stripped: an empty line is its own kind of line, and no well-formed patch has one.
- Old-file lines in another encoding: the probe of `check_if_hunk_lines_matches_to_file` answers the same with and without it.
- `difflib` close matches, tokenizer counts, validity of file names, the order of `sorted` by tokens: inputs, the last an arbitrary permutation.
- ExtendHeaders.AcceptedInTheOpen: gives a condition under which no fallback happens; a fallback for a hunk that touches the one before it depends on the text and has no shorter condition than the comparison itself.
- ExtendMeaning.FarApartIsSafe: one direction, as hunks nearer to each other can extend safely where fewer lines are added; `ExtendSafety` has the exact conditions.
- NumbersExact.ExtendedNumbersIndexFile: requires counts written out and trailing lines that end before the next hunk; `ExtendHeaders` shows what each of these costs.
- RoutesAgree.RoutesAgree: for patches read in full and ranges that start in a hunk; `textwrap.dedent` and the code fence are not modelled.
- `side == 'left'` when selecting lines: deleted lines are not supported there by the code itself.
- Searching several files: the loops over file names around the line searches are not modelled, nor what GitLab's callers send.
- CommentClipping.ValidateInFile: the rewritten body of a moved suggestion is a flag; a missing or failing field of a suggestion is not modelled beyond the tests of the code.
- MultiDiffs.Prepare: what handling deletions, numbering and clipping leave of a patch is given with its tokens; `clip_tokens` and `get_max_tokens` are not modelled.
- `get_pr_diff` and the lists of added, modified and deleted files appended to prompts; `pr_generate_extended_diff` beyond its patches and totals.
- PushTrigger.PushTriggers.Admit: the backlog setting is fixed for a run, and every push comes after the instant the dictionaries were made; cancellation and the eligibility check are not modelled, an ineligible push being processed by doing nothing.
- TimeoutDict.TimedDict.Refresh: the keys are taken in any order, and each operation reads the clock once; `del` by hand, which the servers do not use, is not modelled.
- WrapText.WrapText: a tag is one symbol; a tag with a blank inside, which the code splits at the blank, is not modelled.
- Provider calls, webhooks, publishing, prompts, settings and logging.
