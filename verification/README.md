# Semgrep autofix, rule matches and baseline git handling in Dafny

This project models four pieces of the semgrep command-line tool as pure
functions and proves properties about them:

- **Autofix** (`semgrep/semgrep/autofix.py`). A literal fix is spliced into
  the lines of the file. A regex fix is a bounded substitution over the
  spanned lines. Both keep per-file drift state (`FileOffsets`) so that later
  matches in the same file still find their text. `apply_fixes` runs over the
  matches rule by rule, either writing files or, in a dry run, only
  attaching the fixed lines to each match.
- **Rule matches** (`semgrep/semgrep/rule_match.py`). This covers the location
  record and its JSON round trip, the `rstrip` converter of the fix, the line
  window and previous line read from the file, and the baseline-equivalence
  check.
- **Baseline git handling** (`semgrep/semgrep/git.py`). This covers `zsplit`,
  the parse loop over `git diff --name-status -z` output, and the grouping
  and caching of `git status --porcelain -z` entries. It also covers the two
  checks that abort a baseline scan, and `baseline_context` as the sequence
  of git commands it issues and the exception it ends with.
- **Exclusion arguments of the app scan** (`semgrep/semgrep/commands/app_scan.py`),
  i.e. `yield_valid_patterns` and `yield_exclude_args`.

The Python semantics these rely on are written out in helper modules:

- `PySeq`: negative indices, clamped slices, and `IndexError` as `None`.
- `PyStr`: `strip`, `split`, `join`, `splitlines` with every Python line
  boundary, and `int()` on strings.
- `Json`: truthiness, and `isinstance(x, int)`, which also accepts booleans.

The file system, the subprocess results and the regular-expression engine
are parameters:

- A file system is a map from paths to file contents as `Path.read_text`
  returns them. Universal-newline reading has already turned "\r\n" and
  "\r" into "\n", so the model splits lines on "\n" only. A fixed file is
  stored as the "\n"-joined text the code writes back.
- Each git command is an input record of what it printed or whether it
  failed.
- `re.sub` is an arbitrary function that may fail.

The main definitions follow the code as written. Where the code does
something its authors evidently did not intend, a mode parameter selects the
corrected behaviour, and both are proved about:

- `Autofix.OffsetUpdate`: `Overwrite` is the code as written; `Accumulate`
  is the correction.
- `Baseline.Variant`: `AsWritten` or `Intended`.

See "## Findings".

Two points where this model differs from a plain-language description of the
system, following the code:

- After each fix the code assigns the line offset instead of adding to it,
  so the offset is the last edit's line delta rather than the cumulative
  drift.
- The `app_scan` comment above `DEFAULT_EXCLUDE_PATTERNS` says the defaults
  apply unless the user provides a `.semgrepignore`. The code adds them
  exactly when that file exists.

Columns in the concrete scenarios follow semgrep's 1-based start column and
exclusive end column. For example, "foo" at the start of "foo bar" spans
columns 1 to 4.

## Model

| member | source | states |
|---|---|---|
| RuleMatch.ToDict | semgrep/semgrep/rule_match.py:32-37 | the serialised location has exactly the keys line, col and offset |
| RuleMatch.Parse | semgrep/semgrep/rule_match.py:40-50 | parsing succeeds exactly when all three keys are present and each passes `isinstance(_, int)`, booleans included; the fields are those integers |
| RuleMatch.ParseToDict | semgrep/semgrep/rule_match.py:32-50 | parsing a serialised location gives the location back |
| RuleMatch.ToDictParse | semgrep/semgrep/rule_match.py:32-50 | an object with exactly the three integer keys is reproduced by parse and then serialise |
| RuleMatch.RStripFix | semgrep/semgrep/rule_match.py:53-54 | None for None and for the empty fix; otherwise a prefix of the fix that does not end in whitespace, with only whitespace removed |
| RuleMatch.RStripFixIdempotent | semgrep/semgrep/rule_match.py:53-54 | converting twice equals converting once, except when the first conversion yields "", which the second turns into None |
| RuleMatch.RStripFixBlankWitness | semgrep/semgrep/rule_match.py:53-54 | the all-blank fix "  " becomes "" and then None, so the converter is not idempotent |
| RuleMatch.GetLines | semgrep/semgrep/rule_match.py:86-109 | the empty-file marker (both lines 0) gives no lines without reading; otherwise the read succeeds exactly when the file is readable, the start line is at least 1 and the end line is not negative (else `islice` raises); the lines are the window from start line to end line clipped to the file |
| RuleMatch.GetPreviousLine | semgrep/semgrep/rule_match.py:115-139 | "" without reading when the match starts before line 2 or its end line is not positive (the empty-file marker); otherwise it succeeds exactly when the file is readable |
| RuleMatch.PreviousLineIsLineBefore | semgrep/semgrep/rule_match.py:115-139 | the previous line is what `get_lines` gives for the one-line location just before the match, or "" past the end of the file |
| RuleMatch.Make | semgrep/semgrep/rule_match.py:57-113 | a match is built exactly when both file reads succeed; its fix is the right-stripped fix, None when empty; its lines are `get_lines`; its hash is taken over the lines joined with "\n"; its previous line is `get_previous_line` |
| RuleMatch.BaselineEquivalence | semgrep/semgrep/rule_match.py:141-148 | baseline equivalence is reflexive, symmetric and transitive, and implies the same rule, path and lines |
| RuleMatch.BaselineEquivalentOfMade | semgrep/semgrep/rule_match.py:111-148 | for two constructed matches the hash comparison adds nothing: they are equivalent exactly when rule, path and lines agree |
| Json.ToInt | semgrep/semgrep/autofix.py:161-166 | `int(count)` converts integers and booleans, raises TypeError for null, lists and objects, and for strings succeeds exactly when the text parses as an integer |
| AppScan.ValidPatternsAreValid | semgrep/semgrep/commands/app_scan.py:21-30 | every yielded pattern is stripped, non-empty and not a comment |
| AppScan.ValidPatternsAppend | semgrep/semgrep/commands/app_scan.py:21-30 | the filter works element by element: filtering a concatenation concatenates the filtered parts |
| AppScan.ValidPatternsSingle | semgrep/semgrep/commands/app_scan.py:21-30 | a single pattern yields its stripped form exactly when that is non-empty and does not start with "#" |
| AppScan.ValidPatternsMembers | semgrep/semgrep/commands/app_scan.py:21-30 | a string is yielded exactly when some input pattern strips to it and it is kept |
| AppScan.ValidPatternsIdempotent | semgrep/semgrep/commands/app_scan.py:21-30 | filtering the filtered patterns changes nothing |
| AppScan.ExcludePatterns | semgrep/semgrep/commands/app_scan.py:34-36 | the requested valid patterns come first, then the always-excluded ones, then the defaults exactly when a .semgrepignore file exists |
| AppScan.InterleaveShape | semgrep/semgrep/commands/app_scan.py:38-39 | position 2k holds "--exclude" and position 2k + 1 holds the k-th pattern |
| AppScan.ExcludeArgs | semgrep/semgrep/commands/app_scan.py:33-39 | twice as many arguments as patterns: "--exclude" at even positions, and the patterns in order at odd ones |
| AppScan.FlagValuesInterleave | semgrep/semgrep/commands/app_scan.py:38-39 | reading the values of the flags back from the arguments gives the pattern list |
| Autofix.MatchContext | semgrep/semgrep/autofix.py:47-63 | 1-based lines and columns become 0-based, shifted by the stored line and column offsets |
| Autofix.MatchContextTranslates | semgrep/semgrep/autofix.py:47-63 | offsets translate the span without changing its height or width |
| Autofix.SpliceLiteral | semgrep/semgrep/autofix.py:78-83 | the splice fails exactly when the start or end line index is out of range, as Python indexing with negative indices allowed; in range, the middle block is `splitlines` of prefix, fix and suffix, and the new lines are the lines before, the block and the lines after; a non-empty fix never yields an empty block |
| Autofix.BasicFix | semgrep/semgrep/autofix.py:66-90 | fails exactly when the splice fails; the fixed contents are the new lines joined with "\n"; the line offset is overwritten with the new line count minus the old; for a single-line span the column offset becomes the fix's length minus the span's width, otherwise it is kept; the active line is kept |
| Autofix.BasicFixReread | semgrep/semgrep/autofix.py:41-90 | re-reading the written file gives back exactly the spliced lines, so the stored line offset is the change in the file's line count |
| Autofix.SpliceHasNoSeparator | semgrep/semgrep/autofix.py:78-83 | no spliced line contains "\n" when the original lines did not |
| Autofix.SpliceSingleLine | semgrep/semgrep/autofix.py:78-83 | a single-line edit whose result has no line break replaces just that line |
| Autofix.RegexReplace | semgrep/semgrep/autofix.py:93-122 | for an in-range span, succeeds exactly when the substitution on the joined spanned lines succeeds; the fixed lines are `splitlines` of its output; the contents are the lines before, those lines and the lines after, joined; the line offset is overwritten with the block's growth; the column offset and active line are kept |
| Autofix.RegexReplaceOfContext | semgrep/semgrep/autofix.py:108-122 | the outcome of a regex fix is a function of the spanned lines alone |
| Autofix.RegexReplaceOnlySeesSpan | semgrep/semgrep/autofix.py:108-122 | two files that agree on the spanned lines get the same success, replacement block and offsets |
| Autofix.BasicFixCumulative | semgrep/semgrep/autofix.py:85-88 | corrected literal fix: succeeds exactly when the fix as written does, with the same fix, column offset and active line; only the line offset differs |
| Autofix.CumulativeOffsetTracksDrift | semgrep/semgrep/autofix.py:85-88 | for a non-empty fix, if the offset handed in is the file's drift from its original line count, the accumulated offset is the drift of the fixed file |
| Autofix.RegexReplaceCumulative | semgrep/semgrep/autofix.py:119-120 | corrected regex fix: succeeds exactly when the fix as written does, with the same fix, column offset and active line; only the line offset differs |
| Autofix.RegexCumulativeOffsetTracksDrift | semgrep/semgrep/autofix.py:119-120 | for an in-range span with a non-empty result, the accumulated regex offset is the drift of the fixed file |
| Autofix.ReadDirective | semgrep/semgrep/autofix.py:153-166 | rejected with the "values required" error exactly when regex or replacement is missing or falsy; count defaults to 0; a present count is the `int()` of its value; the integer error exactly when `int()` raises ValueError |
| Autofix.ReadDirectiveOutcome | semgrep/semgrep/autofix.py:153-166 | the directive is accepted exactly when regex and replacement are truthy and the count is absent or converts; the uncaught TypeError exactly when they are truthy and the count is null, a list or a dict; no other error is possible |
| Autofix.ReadDirectiveStringCount | semgrep/semgrep/autofix.py:153-166 | a count written as the decimal string of n is accepted as n |
| Autofix.OffsetsFor | semgrep/semgrep/autofix.py:141-147 | an unseen file starts at zero offsets on the match's line; a stored line offset is kept; the column offset is reset when the match starts on a line other than the active one |
| Autofix.Touch | semgrep/semgrep/autofix.py:141-147 | the active-line reset is applied to the stored entry of the match's file, and nothing else changes |
| Autofix.StepLiteral | semgrep/semgrep/autofix.py:141-185 | a literal fix that applies is recorded with the offsets it computed, after the active-line reset |
| AutofixProperties.DryStepOnlyPreviews | semgrep/semgrep/autofix.py:178-185 | a dry-run step on an untouched run changes only the previews, and its preview does not depend on earlier ones |
| AutofixProperties.DryRunIndependent | semgrep/semgrep/autofix.py:129-185 | a dry run writes nothing and stores no drift state; it completes exactly when every match, taken alone against the original tree, succeeds; each preview is the one its match gives alone |
| AutofixProperties.DryRunKeepsTree | semgrep/semgrep/autofix.py:178-185 | in a dry run the tree and the drift state stay untouched |
| AutofixProperties.DryRunStopsIff | semgrep/semgrep/autofix.py:129-185 | a dry run completes exactly when every match succeeds alone |
| AutofixProperties.DryRunPreviews | semgrep/semgrep/autofix.py:182-185 | a completed dry run adds one preview per match, each equal to that match's preview alone |
| AutofixProperties.DryRunWritesNothing | semgrep/semgrep/autofix.py:129-185 | `apply_fixes` in dry-run mode leaves every file, the written set and the drift state empty or unchanged |
| AutofixProperties.SkipLeavesFilesAlone | semgrep/semgrep/autofix.py:141-176 | a match with no fix never fails and writes nothing; its only effect is the active-line update of its file's stored entry |
| AutofixProperties.StepKeepsConsistent | semgrep/semgrep/autofix.py:178-181 | written files and stored drift entries stay the same set of files of the tree, even when a step fails |
| AutofixProperties.ApplyKeepsConsistent | semgrep/semgrep/autofix.py:134-181 | the same for the whole pass |
| AutofixProperties.StepTouchesOnlyItsPath | semgrep/semgrep/autofix.py:141-181 | a step keeps the tree's paths, changes at most the file its match points at, adds at most that path to the written set, and leaves files and written set alone when the match has no fix |
| AutofixProperties.OnlyFixedFilesChange | semgrep/semgrep/autofix.py:129-185 | only files that some match with a fix points at are written; every other file keeps its contents |
| AutofixProperties.StoredOffsetIsLastEditDelta | semgrep/semgrep/autofix.py:85-88 | as written, after a written literal fix the stored line offset is the line-count change of that edit alone, whatever was stored before |
| AutofixProperties.BasicFixOneLine | semgrep/semgrep/autofix.py:66-90 | on undrifted offsets a fix inside one line that leaves one non-empty line replaces exactly that line, keeps the line count (offset 0), and sets the column offset to the fix's length minus the span's width |
| AutofixProperties.TwoLiteralWrites | semgrep/semgrep/autofix.py:129-181 | as written, two literal fixes of one file on different start lines, the first keeping the line count, both run: the second sees zero offsets, and the file holds the second result over the first |
| AutofixProperties.TwoOneLineFixes | semgrep/semgrep/autofix.py:129-185 | as written, for any file and any rule grouping, two one-line fixes on different lines give the file with each of the two lines edited exactly as it would be alone, so the second fix lands on its own text; the stored drift is the second fix's |
| AutofixProperties.TouchTracksDrift | semgrep/semgrep/autofix.py:141-147 | the active-line reset keeps stored offsets equal to each file's drift |
| AutofixProperties.RecordTracksDrift | semgrep/semgrep/autofix.py:178-181 | recording a fix whose offset is the new file's drift keeps every stored offset equal to its file's drift |
| AutofixProperties.StepTracksDrift | semgrep/semgrep/autofix.py:141-185 | with accumulated offsets, a literal or skipped step keeps every stored line offset equal to its file's drift from the original |
| AutofixProperties.ApplyTracksDrift | semgrep/semgrep/autofix.py:129-185 | the same over any sequence of such matches |
| AutofixProperties.ApplyFixesTracksDrift | semgrep/semgrep/autofix.py:129-185 | a whole corrected pass of literal fixes ends with each stored line offset equal to the file's drift from its original line count |
| AutofixScenarios.FirstWrite | semgrep/semgrep/autofix.py:141-181 | the first literal fix of a file writes it, marks it written and stores the computed offsets |
| AutofixScenarios.NextWrite | semgrep/semgrep/autofix.py:141-181 | a later literal fix of the same file replaces its contents and its offsets |
| AutofixScenarios.TwoFixesOnLines | semgrep/semgrep/autofix.py:129-185 | on any file with the lines "foo bar", "baz foo" and "", the two "foo" fixes give "qux bar\nbaz qux\n" |
| AutofixScenarios.TwoSingleLineFixes | semgrep/semgrep/autofix.py:129-185 | "foo bar\nbaz foo\n" with "foo" replaced by "qux" on lines 1 and 2, by two rules, becomes "qux bar\nbaz qux\n" |
| AutofixScenarios.DriftOnLines | semgrep/semgrep/autofix.py:129-185 | as written, on lines "a", "b" and "c", the three fixes "x\ny", "p\nq" and "z" give "x\ny\np\nz\nc" |
| AutofixScenarios.OverwrittenOffsetMisplacesFix | semgrep/semgrep/autofix.py:85-88 | as written, the third fix on "a\nb\nc" overwrites the "q" the second fix wrote and leaves "c" in place, and the stored line offset ends at 0 although the file gained two lines |
| AutofixScenarios.CumulativeOnLines | semgrep/semgrep/autofix.py:129-185 | with accumulated offsets the same three fixes give "x\ny\np\nq\nz" |
| AutofixScenarios.CumulativeOffsetPlacesFix | semgrep/semgrep/autofix.py:85-88 | with accumulated offsets each fix replaces the text it was meant to, and the stored offset, 2, is the number of lines the file gained |
| Git.StripCharsEmpty | semgrep/semgrep/git.py:24-25 | stripping NULs leaves nothing exactly when every character is NUL |
| Git.ZSplit | semgrep/semgrep/git.py:22-28 | no pieces exactly when the text is all NULs; no piece holds a NUL; the pieces joined with NUL are the text with outer NULs stripped |
| Git.ZSplitIgnoresOuterNul | semgrep/semgrep/git.py:22-28 | a leading or trailing NUL does not change the split |
| Git.ZSplitJoin | semgrep/semgrep/git.py:22-28 | NUL-free pieces whose first and last are non-empty are recovered from their NUL join |
| Git.Record | semgrep/semgrep/git.py:158-172 | the codes A, M, D and U put the path in added, modified, removed and unmerged respectively; any other code records nothing |
| Git.Width | semgrep/semgrep/git.py:143-174 | an entry takes three tokens for a rename code and two otherwise |
| Git.HeadRecord | semgrep/semgrep/git.py:158-172 | one entry records at most two paths for the tokens it consumes |
| Git.ParseNameStatus | semgrep/semgrep/git.py:140-174 | when the loop finishes, at most two paths are recorded per three tokens |
| Git.RecordEntry | semgrep/semgrep/git.py:141-174 | one loop iteration appends the entry's record to the four lists and returns the number of tokens to drop |
| Git.GetGitStatus | semgrep/semgrep/git.py:136-179 | the loop computes the same outcome, a status, divergence or an index error, as the recursive definition |
| Git.ParseEncoded | semgrep/semgrep/git.py:140-179 | parsing the tokens of well-formed entries, none of them skipped, gives the status they describe |
| Git.ModifiedByExactCode | semgrep/semgrep/git.py:169-170 | an entry lists a path as modified exactly when its code is "M" for that path |
| Git.ModifiedOnlyFromM | semgrep/semgrep/git.py:140-179 | a path is in the parsed modified list exactly when some entry has code "M" for it |
| Git.ParseSpinsOnSkipped | semgrep/semgrep/git.py:145-156 | as written, the first blank, untracked, ignored or symlinked-directory entry makes the loop spin forever |
| Git.SymlinkDirSpins | semgrep/semgrep/git.py:150-156 | an added symlink to a directory makes the loop spin, while the skipping loop records nothing for it |
| Git.ParseNameStatusSkipping | semgrep/semgrep/git.py:140-174 | corrected loop: it never spins |
| Git.SkippingAgrees | semgrep/semgrep/git.py:140-174 | whenever the loop as written terminates, the corrected loop gives the same outcome |
| Git.SkippingParsesKept | semgrep/semgrep/git.py:140-174 | the corrected loop gives the status of exactly the entries that are not skipped |
| Git.GroupByStatus | semgrep/semgrep/git.py:207-215 | grouping succeeds exactly when no porcelain entry is empty, since `line[0]` raises otherwise |
| Git.GroupBuckets | semgrep/semgrep/git.py:207-215 | a status code is a key exactly when some entry has it, and its list is those entries' paths in order |
| Git.GroupKeysAreChars | semgrep/semgrep/git.py:209 | every key is a single status character |
| Git.DirtyPathsByStatus | semgrep/semgrep/git.py:181-221 | a cached value is returned unchanged; otherwise a successful read stores the grouping of the zsplit output in the cache, and an empty entry gives the index error |
| Git.DirtyPathsCached | semgrep/semgrep/git.py:190-220 | after one successful read, later reads return the same paths whatever `git status` would print |
| Git.PendingIffTrackedEntry | semgrep/semgrep/git.py:223-233 | the pending-changes abort fires exactly when some porcelain entry has a code other than "?" |
| Git.ChangedKeys | semgrep/semgrep/git.py:242-244 | the changed set holds, as Path values only, exactly the added, modified, removed and unmerged paths |
| Git.UntrackedKeys | semgrep/semgrep/git.py:245-250 | the untracked set holds, as str values only, exactly the paths listed under "?" |
| Git.ConflictCheckNeverFires | semgrep/semgrep/git.py:242-253 | as written, the intersection of str and Path sets is always empty, so the untracked-conflict abort never fires |
| Git.OverlappingPaths | semgrep/semgrep/git.py:242-251 | corrected: the overlap is exactly the paths both changed in the diff and untracked |
| Git.UntrackedConflictMissed | semgrep/semgrep/git.py:235-258 | an untracked "a.py" that the base commit adds is caught by the corrected check and missed by the code as written |
| Baseline.Parse | semgrep/semgrep/git.py:140-174 | the variant as written is the spinning loop; the intended variant never spins |
| Baseline.ReadStatus | semgrep/semgrep/git.py:97-179 | the status is read exactly when `git diff` succeeds and the loop parses its zsplit output; divergence is reported exactly when the loop spins |
| Baseline.HandlerInit | semgrep/semgrep/git.py:54-95 | a missing commit fails first; as written, the handler is ready exactly when the status parses, `git status` succeeds, its entries group, and no tracked file is pending; the intended variant also rules out overlapping untracked paths and never diverges |
| Baseline.Reabort | semgrep/semgrep/git.py:277-282 | with cached dirty paths, entering the context passes exactly when nothing is pending and no conflict is found |
| Baseline.Existing | semgrep/semgrep/git.py:343 | the paths handed to `git rm` are exactly the removed paths that still exist |
| Baseline.ExistingAppend | semgrep/semgrep/git.py:343 | the filter keeps input order: filtering a concatenation concatenates the filtered parts |
| Baseline.ExistingSingle | semgrep/semgrep/git.py:343 | one path is kept exactly when it exists |
| Baseline.Setup | semgrep/semgrep/git.py:284-307 | write-tree, one unlink per added path in order, then the base checkout |
| Baseline.Cleanup | semgrep/semgrep/git.py:310-351 | the restore checkout, followed by `git rm` exactly when there is something to remove |
| Baseline.RunContext | semgrep/semgrep/git.py:260-352 | the commands come in the order write-tree, unlinks, checkout, scan, restore, `git rm`, and start with write-tree |
| Baseline.Recorded | semgrep/semgrep/git.py:293-351 | once the tree is recorded the trace is ordered, starts with write-tree, and is at least as long as write-tree, the unlinks, the checkout and the restore together |
| Baseline.RemovedAgain | semgrep/semgrep/git.py:340-351 | `git rm` runs exactly when the restore went through and some removed path still exists, and it gets exactly those paths |
| Baseline.RecordedSetup | semgrep/semgrep/git.py:293-309 | the added paths are unlinked in order before the base checkout, and the scan runs exactly when that checkout succeeded |
| Baseline.RecordedCleanup | semgrep/semgrep/git.py:310-351 | the trace ends with the restore, followed only by the single `git rm` when that runs |
| Baseline.ContextStopsEarly | semgrep/semgrep/git.py:277-292 | a failed re-check runs nothing; a failed write-tree runs nothing else |
| Baseline.ContextSetupAndRestore | semgrep/semgrep/git.py:277-338 | once the tree is recorded: unlinks in order, the base checkout, the scan exactly when the checkout succeeded, and the restore at the end or just before `git rm` |
| Baseline.ContextRemovesExisting | semgrep/semgrep/git.py:340-351 | `git rm` runs exactly when the context got past write-tree, the restore went through and some removed path exists, and only on those paths |
| Baseline.ContextOutcome | semgrep/semgrep/git.py:293-338 | once the tree is recorded, a failed restore wins over a failed checkout, which wins over an exception from the scan |
| Baseline.ReabortPassesAfterInit | semgrep/semgrep/git.py:277-282 | the checks repeated on entry always pass for a handler that initialised |
| Baseline.TotalDeletionTolerated | semgrep/semgrep/git.py:324-331 | git's total-deletion message passes the tolerance test |
| Baseline.TotalDeletionRestore | semgrep/semgrep/git.py:318-338 | as written, a total-deletion restore failure still raises and skips `git rm`; as intended, it behaves as a successful restore |

## Left out

- Line-ending translation: file contents are the text `Path.read_text` returns, with no "\r" line ends; translating on-disk "\r\n" or "\r" is not modelled, nor is a fix that itself inserts "\r" being read back as a line break by a later fix of the same file. Writing uses "\n", as `Path.write_text` does on a platform whose line separator is "\n".
- File I/O, subprocesses, logging and timeouts: file contents and command results are inputs, and writes are updates of a map.
- `re.sub`: a parameter that returns a string or fails; regex syntax and matching are not modelled.
- `hashlib.sha256`: the hash is a parameter. Equal texts give equal hashes, which is all the baseline check relies on.
- `Path` normalisation: paths are strings compared as written. `Path` and `str` are kept apart only where the conflict check compares them.
- `int()` on strings: ASCII digits with an optional sign and surrounding whitespace; underscores, other Unicode digits and floats are not modelled.
- `print_git_log` and the `app_scan` click command. The command is not a self-contained function: it uses `sys`, `exit_code` and `SEMGREPIGNORE_PATH` without defining them. Whether `.semgrepignore` exists is a boolean input to `ExcludePatterns`.
- The wording of exception messages and the re-wrapping of `CalledProcessError` in `BaselineHandler.__init__`: errors are a datatype of causes.
- Unlink errors other than a missing file: every unlink of an added path is recorded as a command and treated as tolerated.
- The exit status of `git rm`: it is not checked by the code, and the model records only that the command was issued.
- AutofixProperties.ApplyFixesTracksDrift: stated for passes of literal fixes and fixless matches only. A regex fix keeps the drift invariant only for in-range spans (Autofix.RegexCumulativeOffsetTracksDrift), and a failing step ends the pass.
- Autofix.RegexReplace: its contract describes the outcome only for spans inside the file; out-of-range spans follow Python's clamped slicing in the definition but are not characterised in the contract.
- Git.ParseNameStatus: its own contract only bounds the recorded paths. Its meaning is given by Git.ParseEncoded, Git.ParseSpinsOnSkipped and Git.GetGitStatus.

## Findings

| source | as written | input that shows it | evidently intended | confidence | as-written member | corrected member |
|---|---|---|---|---|---|---|
| semgrep/semgrep/autofix.py:86 | the line offset is assigned the last edit's line delta | three fixes on "a\nb\nc" replacing "a", "b" and "c" by "x\ny", "p\nq" and "z": the third lands on "q" | the offset accumulates the file's drift, so the third fix replaces "c" | high, not executed | AutofixScenarios.OverwrittenOffsetMisplacesFix | AutofixProperties.ApplyFixesTracksDrift |
| semgrep/semgrep/git.py:318-325 | the restore checkout's stderr is not captured, so `x.stderr.decode()` raises on any failure | a restore that fails with git's total-deletion message | that message is tolerated and `git rm` still runs | high, not executed | Baseline.TotalDeletionRestore | Baseline.TotalDeletionTolerated |
| semgrep/semgrep/git.py:242-251 | a set of `str` is intersected with a set of `Path`, so the overlap is always empty | untracked "a.py" that the base commit adds | untracked files the checkout would overwrite abort the scan | high, not executed | Git.ConflictCheckNeverFires | Git.OverlappingPaths |
| semgrep/semgrep/git.py:145-156 | `continue` without dropping tokens re-reads the same entry forever | a name-status entry for an added symlink to a directory | the skipped entry is dropped and the loop goes on | high, not executed | Git.SymlinkDirSpins | Git.SkippingParsesKept |
