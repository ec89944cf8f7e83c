# LexAI colour migration scripts and page helpers, in Dafny

This project models two parts of the LexAI legal assistant.

**The colour migration scripts.** Ten one-off scripts rewrite Tailwind class names in the
page sources, for example `text-gray-400` becoming `text-muted-foreground`. Six are in
JavaScript (`update-colors.js`, `do-replace.js`, `replace-colors.js`,
`do-replace-scenarios.js`, `replace-colors-scenarios.js`, `replace-scenarios-colors-node.js`)
and four in Python (`apply-colors.py`, `replace-colors.py`, `replace-colors-scenarios.py`,
`replace_scenarios_colors.py`). Each takes an ordered table of (pattern, replacement) rules.
Rule by rule, it counts the matches of the pattern in the current text and then replaces all
of them. The model has these layers:

- One scanner, `Rewrite.Replace` / `Rewrite.Count`. It is leftmost, non-overlapping and resumes
  after each match, which is what a global JavaScript `replace`, Python's `re.sub`/`findall`
  and `str.replace`/`str.count` do with these patterns. It handles three pattern shapes:
  - a literal class name;
  - Python's `text-white(?!\S)`;
  - `bg-white\s+text-black`, with JavaScript's or Python's whitespace set.
- The table fold: `Engine.ApplyRules` / `Engine.Counts`.
- The script loops as methods proved against the fold: `Engine.Apply*`, `UpdateColors.UpdateAll`
  and `ApplyColors.ApplyAll`.
- Each script's table as a constant in the script's own module: `UpdateColors.Rules`, `ApplyColors.Replacements`,
  and `Table` in `DoReplace`, `DoReplaceScenarios`, `ReplaceColorsJs`, `ReplaceColorsPy`, `ReplaceColorsScenariosPy`,
  `ScenariosNode` and `ScenariosPy`. Each one's `TableValid` (or `ReplacementsValid`) row cites its lines.

The main results concern rule order. A rule whose class name contains one that an earlier rule
already rewrote can never match, and this is proved for every input:
- `update-colors.js:62` and `apply-colors.py:63` (`hover:bg-white/10`);
- `do-replace-scenarios.js:17-18`;
- `replace-colors.js:14`.

Rules that do their job before a general rule are proved as well: `hover:ring-dark-primary/20`
and `hover:bg-[#ffffff]/10` in the specific-first scripts. Equal tables in the JavaScript and
Python copies give equivalence lemmas.

**The page helpers.** These are the pure decisions and state changes inside eight React
components:
- the compliance score of `Compliance.jsx`;
- the CourtListener title, URL and result cards, search and summary of `Research.jsx`;
- the filter and upload of `Documents.jsx`;
- the toast list of `Toast.jsx`;
- the sign-up checks of `Signup.jsx`;
- the add-step form and status labels of `ApprovalWorkflow.jsx`;
- the scenario canvas and timeline of `Scenarios.jsx`;
- the history entries, power analysis and tabs of `Negotiation_old_backup.jsx`.

Component state becomes a class whose methods are the event handlers. Network replies, file
contents, clock readings and the user's input enter as parameters.

## Model

| member | source | states |
|---|---|---|
| Strings.ContainsIffOccurs | src/pages/Documents.jsx:67-68 | `includes` is true exactly when the term occurs at some index of the text |
| Strings.ContainsTransitive | do-replace-scenarios.js:14-18 | a text holding a class name holds every part of it, so a text without `p` has no longer name built around `p` |
| Strings.ContainsSuffix | do-replace-scenarios.js:17 | a text ending in a class name contains it |
| Strings.Lower | src/pages/Documents.jsx:67-68 | `toLowerCase` keeps the length and lowers each character |
| Strings.Upper | src/pages/Documents.jsx:118 | `toUpperCase` keeps the length and raises each character |
| Strings.LeadingSpaces | src/components/collaboration/ApprovalWorkflow.jsx:9 | the whitespace run `trim` removes at the front is maximal and all whitespace |
| Strings.TrailingSpaces | src/components/collaboration/ApprovalWorkflow.jsx:9 | the whitespace run `trim` removes at the end is maximal and all whitespace |
| Strings.TrimEmptyIffBlank | src/components/collaboration/ApprovalWorkflow.jsx:9 | `trim() === ''` exactly when every character is whitespace |
| Strings.Split | src/components/collaboration/ApprovalWorkflow.jsx:12 | `split` on a character always yields at least one field |
| Strings.SplitLength | src/components/collaboration/ApprovalWorkflow.jsx:12 | there is one field more than there are separators |
| Strings.SplitJoin | src/components/collaboration/ApprovalWorkflow.jsx:12 | no field holds the separator, and joining the fields restores the text |
| Strings.Prefix | src/pages/Negotiation_old_backup.jsx:78 | `substring(0, n)` has length min(n, length) and starts the text |
| Strings.Utf16Length | src/pages/Signup.jsx:35 | `length` counts UTF-16 code units: between one and two per character, and 0 only for the empty text |
| Rewrite.SpaceRun | update-colors.js:85 | the `\s` run at the front is maximal and all whitespace |
| Rewrite.Replace | do-replace.js:32 | a global `replace`: left to right, each match replaced and the scan resumed after it, other characters copied (meaning stated by `LiteralStep`, `SpaceGapMeaning`, `NoMatchUnchanged`) |
| Rewrite.Count | do-replace.js:30-31 | `match(...).length` with 0 for `null`: the number of matches of that same scan (meaning stated by `CountZeroIffNoMatch`, `LiteralCountBound`) |
| Rewrite.MatchLen | update-colors.js:85 | a match starting at the front is non-empty and fits in the text |
| Rewrite.SpaceGapMeaning | update-colors.js:85 | `left\s+right` matches exactly when some non-empty whitespace gap fits between the names, and the match covers that gap |
| Rewrite.NotBeforeNonSpaceMeaning | apply-colors.py:40 | `text-white(?!\S)` matches exactly when `text-white` is followed by whitespace or the end |
| Rewrite.CountZeroIffNoMatch | update-colors.js:77-81 | a rule counts 0 exactly when its pattern matches nowhere |
| Rewrite.NoMatchUnchanged | update-colors.js:78-81 | a rule that counts 0 leaves the text unchanged |
| Rewrite.LiteralNoMatchIffAbsent | do-replace.js:28-30 | an escaped class name matches nowhere exactly when it does not occur |
| Rewrite.LiteralCountZeroIffAbsent | replace-scenarios-colors-node.js:32-35 | a literal rule counts 0 exactly when its class name is absent |
| Rewrite.LiteralStep | do-replace.js:30-32 | one scan step: a match at the front is replaced and counted and the scan resumes after it; otherwise one character is copied |
| Rewrite.LiteralLength | do-replace.js:32 | each literal match changes the length by the difference of the two names |
| Rewrite.LiteralCountBound | replace_scenarios_colors.py:32 | `count` finds non-overlapping occurrences: count × name length ≤ text length |
| Rewrite.ReplaceBySelf | replace-colors-scenarios.py:26 | replacing a name by itself changes nothing |
| Rewrite.WholeMatch | replace-colors-scenarios.js:9 | a text that is exactly one class name becomes the replacement, counted once |
| Rewrite.SkipPrefix | do-replace.js:30-32 | a prefix where no match starts is copied through and counts nothing |
| Rewrite.MatchAfterPrefix | do-replace.js:30-32 | a name preceded only by characters other than its first is matched once, after that prefix |
| Rewrite.ShortUnchanged | do-replace.js:30-32 | a text shorter than the name is left alone with count 0 |
| Rewrite.MatchAtStart | do-replace.js:30-32 | a name at the front is replaced there and the scan resumes after it |
| Rewrite.GapCollapses | update-colors.js:85-89 | `bg-white`, any whitespace run, `text-black` is one match and becomes the replacement |
| Absence.ScanLeavesNoOccurrence | do-replace-scenarios.js:29 | halfway through a scan, if the output so far is free of `p`, the pattern catches every `p` left and the replacement cannot overlap `p`, then the finished output has no `p` |
| Absence.RuleRemovesItsPattern | do-replace-scenarios.js:29 | a literal rule whose replacement cannot overlap its name leaves none of that name |
| Absence.RuleKeepsAbsent | do-replace-scenarios.js:26-29 | any rule whose replacement cannot overlap `p` keeps a `p`-free text `p`-free |
| Absence.CountZeroAroundAbsent | do-replace-scenarios.js:14-17 | a longer name built around an absent one counts 0 |
| Absence.AbsentByChar | do-replace.js:28-30 | a text lacking some character of a name does not contain the name |
| Absence.NeedsLead | update-colors.js:77-81 | a pattern whose leading class name is absent counts 0 and leaves the text as it is |
| ClassOverlaps.BgFfffffSlash10VsBgMuted | replace-colors.js:13 | no inserted `bg-muted` can be part of a `bg-[#ffffff]/10` |
| ClassOverlaps.TextDarkForegroundVsTextForeground | do-replace-scenarios.js:14 | no inserted `text-foreground` can be part of a `text-dark-foreground` |
| ClassOverlaps.TextDarkForegroundVsPlaceholderTextMutedForeground | do-replace-scenarios.js:14-16 | no inserted `placeholder:text-muted-foreground` can be part of a `text-dark-foreground` |
| ClassOverlaps.TextDarkPrimaryVsTextForeground | do-replace-scenarios.js:15 | no inserted `text-foreground` can be part of a `text-dark-primary` |
| ClassOverlaps.TextDarkPrimaryVsPlaceholderTextMutedForeground | do-replace-scenarios.js:15-16 | no inserted `placeholder:text-muted-foreground` can be part of a `text-dark-primary` |
| ClassOverlaps.TextDarkPrimaryVsHoverTextForeground | do-replace-scenarios.js:15-17 | no inserted `hover:text-foreground` can be part of a `text-dark-primary` |
| ClassOverlaps.HoverRingDarkPrimarySlash20VsHoverRingForegroundSlash20 | do-replace-scenarios.js:19 | no inserted `hover:ring-foreground/20` can be part of a `hover:ring-dark-primary/20` |
| ClassOverlaps.HoverRingDarkPrimarySlash20VsFocusRingForegroundSlash50 | do-replace-scenarios.js:19-20 | no inserted `focus:ring-foreground/50` can be part of a `hover:ring-dark-primary/20` |
| ClassOverlaps.BgWhiteSlash10VsBgMuted | update-colors.js:34 | no inserted `bg-muted` can be part of a `bg-white/10` |
| ClassOverlaps.BgWhiteSlash10VsTextForeground | update-colors.js:37-41 | no inserted `text-foreground` can be part of a `bg-white/10` |
| ClassOverlaps.BgWhiteSlash10VsTextMutedForeground | update-colors.js:43-46 | no inserted `text-muted-foreground` can be part of a `bg-white/10` |
| ClassOverlaps.BgWhiteSlash10VsTextEmerald500 | update-colors.js:48-49 | no inserted `text-emerald-500` can be part of a `bg-white/10` |
| ClassOverlaps.BgWhiteSlash10VsBorderBorder | update-colors.js:52-56 | no inserted `border-border` can be part of a `bg-white/10` |
| ClassOverlaps.BgWhiteSlash10VsBgEmerald600 | update-colors.js:59 | no inserted `bg-emerald-600` can be part of a `bg-white/10` |
| ClassOverlaps.HoverBgFfffffSlash10VsHoverBgMuted | do-replace.js:10 | no inserted `hover:bg-muted` can be part of a `hover:bg-[#ffffff]/10` |
| ClassOverlaps.HoverBgFfffffSlash10VsHoverShadowForegroundSlash10 | do-replace.js:10-11 | no inserted `hover:shadow-foreground/10` can be part of a `hover:bg-[#ffffff]/10` |
| ClassOverlaps.HoverBgFfffffSlash10VsShadowForegroundSlash20 | do-replace.js:10-12 | no inserted `shadow-foreground/20` can be part of a `hover:bg-[#ffffff]/10` |
| ClassOverlaps.HoverBgFfffffSlash10VsBgCard | do-replace.js:10-13 | no inserted `bg-card` can be part of a `hover:bg-[#ffffff]/10` |
| ClassOverlaps.HoverBgFfffffSlash10VsBorderForegroundSlash50 | do-replace.js:10-14 | no inserted `border-foreground/50` can be part of a `hover:bg-[#ffffff]/10` |
| ClassOverlaps.HoverBgFfffffSlash10VsBorderForegroundSlash40 | do-replace.js:10-15 | no inserted `border-foreground/40` can be part of a `hover:bg-[#ffffff]/10` |
| ClassOverlaps.HoverBgFfffffSlash10VsBorderForegroundSlash20 | do-replace.js:10-16 | no inserted `border-foreground/20` can be part of a `hover:bg-[#ffffff]/10` |
| ClassOverlaps.HoverBgFfffffSlash10VsBorderBorder | do-replace.js:10-17 | no inserted `border-border` can be part of a `hover:bg-[#ffffff]/10` |
| RegexEscape.Escape | do-replace.js:28 | the escaped pattern is between one and two times as long as the name |
| RegexEscape.Unescape | replace-colors.py:32 | the text a regex stands for when each backslash escapes a special character (`OnlyLiteral`; escape classes such as `\d` are refused) is no longer than the regex |
| RegexEscape.EscapeRoundTrip | do-replace.js:28-29 | escaping (the JavaScript idiom or `re.escape`) leaves no regex operator, and the pattern matches exactly the original name |
| RegexEscape.EscapedBrackets | apply-colors.py:22 | `bg-\[#0E0E0E\]` has no operator left and matches exactly `bg-[#0E0E0E]`; the instance is taken with the JavaScript set, which is exactly Python `re`'s metacharacter set (`-` and `#` are escaped by `re.escape` but are not operators outside a class or verbose mode) |
| Engine.Counts | do-replace.js:30-31 | one count per rule, each measured on the text that rule sees |
| Engine.ApplyRules | do-replace.js:27-35 | the table run in order, each rule on what the previous ones left (stated by `ApplyRulesStep`, `ApplyRulesConcat`) |
| Engine.Sum | do-replace.js:34 | the running `total +=` over the counts (stated by `SumZeroIffAllZero`, `RunInParts`) |
| Engine.ApplyRulesStep | do-replace.js:27-32 | rule i runs on the text left by rules 0 .. i-1 |
| Engine.CountsPrefix | do-replace.js:27-31 | the counts of the first rules do not depend on the later rules |
| Engine.CountsAt | do-replace.js:30-31 | rule i's count is its number of matches in the text it sees |
| Engine.ApplyRulesConcat | update-colors.js:76-89 | running a table in two parts is the same as running it whole |
| Engine.CountsConcat | update-colors.js:76-89 | the counts of a split table are the first part's, then the second part's on what the first left |
| Engine.RunInParts | update-colors.js:76-89 | splitting the table also splits the total |
| Engine.ZeroCountNoChange | do-replace.js:30-32 | a rule that counted 0 did not change the text |
| Engine.ZeroTotalNoChange | replace-scenarios-colors-node.js:57-60 | a total of 0 means every rule counted 0 and the text is unchanged |
| Engine.SumZeroIffAllZero | replace-scenarios-colors-node.js:57-60 | the total is 0 exactly when every count is 0 |
| Engine.Put | replace-scenarios-colors-node.js:37 | `obj[key] = count`: an existing key keeps its place, a new key goes last, and the pair is present |
| Engine.PositivesKeys | replace-scenarios-colors-node.js:37 | every recorded key is some rule's class name |
| Engine.RecordedIsPositives | replace-scenarios-colors-node.js:35-40 | with distinct keys, the recorded entries are exactly the rules with a positive count, in table order, with their counts |
| Engine.PositivesSum | replace-scenarios-colors-node.js:38 | the recorded counts add up to the total of all counts |
| Engine.PositivesLength | replace-scenarios-colors-node.js:51 | the number of recorded classes is the number of rules with a positive count |
| Engine.ApplyCountingEach | do-replace.js:27-35 | the loop leaves the table's text, every rule's `count` field (zeros included) and a total equal to their sum |
| Engine.ApplyCounting | do-replace-scenarios.js:26-32 | the loop leaves the table's text and the sum of all counts |
| Engine.ApplyRecordingPositive | replace-scenarios-colors-node.js:30-41 | the loop leaves the table's text, the positive-count record and the total |
| Engine.ApplyAll | replace-colors-scenarios.py:25-26 | the loop leaves the table's text |
| Engine.ApplyToFile | update-colors.js:76-82 | replacing only when a rule matched still yields the table's text, and the file count is the sum of the counts |
| FileRuns.TotalConcat | update-colors.js:71-98 | the grand total over two lists of files is the sum of their totals |
| FileRuns.Total | update-colors.js:71-100 | the grand total: each file's contribution added in list order |
| FileRuns.DroppingSilentFile | update-colors.js:93-97 | a file that adds nothing can be dropped without changing the grand total |
| Ordering.RemovedAt | do-replace-scenarios.js:29 | after a literal rule whose replacement cannot overlap its name, that name is gone |
| Ordering.AbsentThrough | do-replace-scenarios.js:26-32 | later rules whose replacements cannot overlap `p` keep the text `p`-free |
| Ordering.NeverFires | do-replace-scenarios.js:14-18 | a rule for a name containing one an earlier rule removed (and nothing in between recreates) always counts 0 |
| Ordering.UntouchedThrough | do-replace.js:30-32 | literal rules whose names are absent change nothing and count 0 |
| Ordering.SkipsAll | do-replace.js:27-32 | rules each needing a character the text lacks pass it through with total 0 |
| Ordering.SkipsAfter | do-replace.js:27-35 | the same after a first part of the table, with the total unchanged |
| ColorTable.TableValid | update-colors.js:16-67 | the table has 35 rules with valid patterns |
| ColorTable.Table | update-colors.js:16-67 | the 35 shared rules, with the `text-white` rule's pattern as the parameter that differs between the two scripts |
| ColorTable.TableFacts | update-colors.js:33-62 | rules 13, 14, 17 and 32 are `bg-white/5`, `bg-white/10`, `text-white` and `hover:bg-white/10` |
| ColorTable.OnlyTextWhiteDiffers | apply-colors.py:19-67 | the JavaScript and Python tables agree everywhere but the `text-white` rule |
| ColorTable.BgWhiteStaysOut | update-colors.js:34-61 | no replacement of rules 14 to 31 can recreate `bg-white/10` |
| ColorTable.HoverHasBgWhite | update-colors.js:62 | `hover:bg-white/10` contains `bg-white/10` |
| ColorTable.HoverBgWhiteNeverFires | update-colors.js:34-62 | in either table, the `hover:bg-white/10` rule counts 0 on every input |
| ColorTable.BgWhiteRuleInsideHover | update-colors.js:34 | the `bg-white/10` rule turns `hover:bg-white/10` into `hover:bg-muted`, not `hover:bg-accent` |
| ColorTable.BgWhite5RuleOnPrefix | update-colors.js:33 | the `bg-white/5` rule turns `bg-white/50` into `bg-muted0` |
| UpdateColors.FullTableValid | update-colors.js:16-90 | the 35 table rules followed by the special case form a valid 36-rule run |
| UpdateColors.UpdateFile | update-colors.js:73-90 | one file: the table then the special case, with the sum of all their counts |
| UpdateColors.Written | update-colors.js:73-92 | a file is written with its new text exactly when it was read and the write does not throw |
| UpdateColors.Contribution | update-colors.js:93-97 | a file adds its count only when it was read and written; a throw skips the `+=` |
| UpdateColors.SpecialRunsLast | update-colors.js:84-90 | the special case runs on what the 35 rules left, and its matches add to theirs |
| UpdateColors.ZeroCountUnchanged | update-colors.js:76-92 | a file with no matches is written back as it was read |
| UpdateColors.UpdateAll | update-colors.js:71-98 | each file gets its new text unless its read or write throws; the grand total sums the files that went through |
| UpdateColors.FailedFileAddsNothing | update-colors.js:93-97 | a file whose read or write throws adds nothing to the grand total |
| UpdateColors.HoverBgWhiteNeverFires | update-colors.js:62 | the `hover:bg-white/10` rule counts 0 on every input |
| UpdateColors.TextWhiteRuleOnPrefix | update-colors.js:39 | `text-white/75` becomes `text-foreground/75` |
| UpdateColors.SpecialCollapsesWhitespace | update-colors.js:85-89 | `bg-white`, any whitespace run, `text-black` becomes `bg-foreground text-background` with one space, counted once |
| ApplyColors.ReplacementsValid | apply-colors.py:17-71 | 36 valid rules: the shared table with the lookahead `text-white` rule, then the special case |
| ApplyColors.SameRulesAsUpdateColors | apply-colors.py:17-71 | the list equals update-colors.js's except for the `text-white` lookahead and Python's `\s` |
| ApplyColors.ApplyFile | apply-colors.py:80-87 | one file's new text and its count |
| ApplyColors.GoesThrough | apply-colors.py:89-96 | a file reaches `total_replacements +=` when it was read and its text is unchanged or written back |
| ApplyColors.Written | apply-colors.py:89-91 | a file is written only when the text changed and the write succeeds |
| ApplyColors.Contribution | apply-colors.py:93-96 | a file adds its count exactly when it goes through |
| ApplyColors.ApplyAll | apply-colors.py:75-96 | a file is written only when its text changed and the write succeeds; the total sums the files that went through |
| ApplyColors.FailedFileAddsNothing | apply-colors.py:89-96 | a file whose read raises, or whose changed text cannot be written, adds nothing |
| ApplyColors.ZeroCountNotWritten | apply-colors.py:89-91 | a file with no matches is unchanged, so no write is attempted |
| ApplyColors.SpecialRunsLast | apply-colors.py:70 | the special case runs on what the other 35 rules left |
| ApplyColors.HoverBgWhiteNeverFires | apply-colors.py:63 | the `hover:bg-white/10` rule counts 0 on every input |
| ApplyColors.TextWhiteKeptBeforeNonSpace | apply-colors.py:40 | `text-white/75` and `text-white"` are left alone |
| ApplyColors.TextWhiteRewrittenBeforeSpaceOrEnd | apply-colors.py:40 | `text-white` at the end or before whitespace is rewritten |
| DoReplace.TableValid | do-replace.js:9-20 | every rule of the table is a valid pattern |
| DoReplace.Run | do-replace.js:26-37 | the new text, every rule's count in table order, and their sum as the total |
| DoReplace.HoverBgStaysOut | do-replace.js:10-17 | no replacement of rules 0 to 7 can recreate `hover:bg-[#ffffff]/10` |
| DoReplace.HoverHandledFirst | do-replace.js:8-18 | the hover rule counts the hover names of the input, and the general rule never sees one |
| DoReplace.SkipsLaterRules | do-replace.js:11-19 | a text without `/` or `#` after rule 0 passes rules 1 to 9 unchanged |
| DoReplace.HoverBgExample | do-replace.js:10 | `hover:bg-[#ffffff]/10` becomes `hover:bg-muted`, counted once by the hover rule |
| DoReplaceScenarios.Run | do-replace-scenarios.js:24-35 | the new text and the sum of the counts |
| DoReplaceScenarios.TableValid | do-replace-scenarios.js:9-22 | every rule of the table is a valid pattern |
| DoReplaceScenarios.TextDarkForegroundStaysOut | do-replace-scenarios.js:14-16 | no replacement of rules 4 to 6 can recreate `text-dark-foreground` |
| DoReplaceScenarios.TextDarkPrimaryStaysOut | do-replace-scenarios.js:15-17 | no replacement of rules 5 to 7 can recreate `text-dark-primary` |
| DoReplaceScenarios.HoverHasTextDarkForeground | do-replace-scenarios.js:17 | `hover:text-dark-foreground` contains `text-dark-foreground` |
| DoReplaceScenarios.HoverTextDarkForegroundNeverFires | do-replace-scenarios.js:14-17 | the `hover:text-dark-foreground` rule counts 0 on every input |
| DoReplaceScenarios.HoverHasTextDarkPrimary | do-replace-scenarios.js:18 | `hover:text-dark-primary` contains `text-dark-primary` |
| DoReplaceScenarios.HoverTextDarkPrimaryNeverFires | do-replace-scenarios.js:15-18 | the `hover:text-dark-primary` rule counts 0 on every input |
| DoReplaceScenarios.HoverRingStaysOut | do-replace-scenarios.js:19-20 | no replacement of rules 9 and 10 can recreate `hover:ring-dark-primary/20` |
| DoReplaceScenarios.HoverRingConsumedFirst | do-replace-scenarios.js:19-21 | the general `ring-dark-primary/20` rule never sees a `hover:ring-dark-primary/20` |
| DoReplaceScenarios.PlaceholderNotATextClass | do-replace-scenarios.js:12-16 | `placeholder-gray-500` does not contain `text-gray-500` |
| DoReplaceScenarios.SkipsTextRules | do-replace-scenarios.js:10-15 | a text without `t` passes rules 0 to 5 unchanged |
| DoReplaceScenarios.SkipsLaterRules | do-replace-scenarios.js:17-21 | a text without `k` after rule 6 passes rules 7 to 11 unchanged |
| DoReplaceScenarios.PlaceholderOwnRule | do-replace-scenarios.js:16 | rule 6 turns `placeholder-gray-500` into `placeholder:text-muted-foreground` |
| DoReplaceScenarios.PlaceholderRewrittenOnlyByItsRule | do-replace-scenarios.js:12-16 | `placeholder-gray-500` is rewritten by its own rule only, and by no other |
| ReplaceColorsJs.TableValid | replace-colors.js:7-18 | every rule of the table is a valid pattern |
| ReplaceColorsJs.Run | replace-colors.js:20-34 | the new text, every rule's `count` field and the reduce total, their sum |
| ReplaceColorsJs.HoverHasBgFfffff | replace-colors.js:14 | `hover:bg-[#ffffff]/10` contains `bg-[#ffffff]/10` |
| ReplaceColorsJs.HoverBgNeverCounts | replace-colors.js:13-14 | the hover rule records 0 on every input |
| ReplaceColorsJs.SkipsFirstRules | replace-colors.js:8-12 | a text without `E` or `d` passes rules 0 to 4 unchanged |
| ReplaceColorsJs.SkipsLastRules | replace-colors.js:14-17 | a text without `/` after rule 5 passes rules 6 to 9 unchanged |
| ReplaceColorsJs.GeneralRuleInsideHover | replace-colors.js:13 | the general rule turns `hover:bg-[#ffffff]/10` into `hover:bg-muted` |
| ReplaceColorsJs.HoverBgThroughGeneralRule | replace-colors.js:8-13 | on `hover:bg-[#ffffff]/10`, rule 5 is the only one of rules 0 to 5 that matches |
| ReplaceColorsJs.HoverBgRewrittenByGeneralRule | replace-colors.js:13-14 | `hover:bg-[#ffffff]/10` ends as `hover:bg-muted`, credited to the general rule |
| ReplaceColorsJs.HoverBgSameEndText | replace-colors.js:13-14 | this order and do-replace.js's leave the same text; only the rule credited differs |
| ReplaceColorsPy.Run | replace-colors.py:30-41 | the new text and the sum of the counts |
| ReplaceColorsPy.SameAsDoReplace | replace-colors.py:14-25 | the list is do-replace.js's, so the text and every count agree |
| ReplaceColorsScenariosJs.Run | replace-colors-scenarios.js:9-20 | the twelve chained replacements compute the Python twin's text |
| ReplaceColorsScenariosJs.HoverTextDarkForegroundLineNeverMatches | replace-colors-scenarios.js:13-16 | the `hover:text-dark-foreground` line can never match |
| ReplaceColorsScenariosPy.Run | replace-colors-scenarios.py:25-26 | the pairs applied in order |
| ReplaceColorsScenariosPy.SameTableAsDoReplaceScenarios | replace-colors-scenarios.py:10-23 | the list is do-replace-scenarios.js's, so the final text is the same |
| ReplaceColorsScenariosPy.HoverPairsAreNoOps | replace-colors-scenarios.py:15-19 | the two `hover:text-dark-*` pairs change nothing |
| ScenariosNode.TableValid | replace-scenarios-colors-node.js:12-23 | every rule of the table is a valid pattern |
| ScenariosNode.TableKeysDistinct | replace-scenarios-colors-node.js:12-23 | no two rules share a class name, so no recorded count is overwritten |
| ScenariosNode.Run | replace-scenarios-colors-node.js:30-61 | the record is exactly the matching rules; the total and the number of classes agree with it; "updated" holds exactly when some rule matched, and otherwise the text is unchanged |
| ScenariosNode.HoverRingStaysOut | replace-scenarios-colors-node.js:16-17 | no replacement of rules 3 and 4 can recreate `hover:ring-dark-primary/20` |
| ScenariosNode.HoverRingConsumedFirst | replace-scenarios-colors-node.js:16-18 | `hover:ring-dark-primary/20` is rewritten by its own rule before the general one |
| ScenariosPy.Run | replace_scenarios_colors.py:31-53 | the same guarantees as the JavaScript version, with the dict of positive counts |
| ScenariosPy.SameAsNode | replace_scenarios_colors.py:14-25 | the list is the JavaScript script's, so the text and the record agree |
| Compliance.ScoreOf | src/pages/Compliance.jsx:210-211 | the score lies in [0, 100] |
| Compliance.Analyze | src/pages/Compliance.jsx:165-211 | the one-pass bucket loop throws exactly on a failed request, a primitive reply or a `null` alert, and otherwise yields the normalised alerts and the score formula's value |
| Compliance.AlertsOf | src/pages/Compliance.jsx:183-198 | the alert list after parsing: the one fallback alert for a non-JSON reply, the list itself, or [] for a non-list `alerts` |
| Compliance.FallbackAlert | src/pages/Compliance.jsx:186-191 | the Medium "Unable to parse AI response" alert carrying the first 200 characters of the reply |
| Compliance.Throws | src/pages/Compliance.jsx:165-206 | the step throws when the request failed (`!response.ok` or a rejected fetch), when the reply is a primitive (`parsed.alerts`) or some alert is `null` (`a.priority`) |
| Compliance.OutcomeOf | src/pages/Compliance.jsx:165-211 | no score for a throwing reply, otherwise the analysis of its alerts |
| Compliance.PrimitiveReplyThrows | src/pages/Compliance.jsx:196-198 | a reply that parses to `null`, a number, a string or a boolean produces no score |
| Compliance.FailedRequestThrows | src/pages/Compliance.jsx:127-169 | a rejected fetch or a response that is not ok produces no score, and the page keeps the analysis it showed before |
| Compliance.NullAlertThrows | src/pages/Compliance.jsx:204-206 | a list of alerts throws exactly when it holds a `null`, whatever the other alerts are |
| Compliance.Deduction | src/pages/Compliance.jsx:210 | `high * 3 + medium * 2 + low` (stated by `DeductionStep`, `DeductionAtLeastCount`) |
| Compliance.BucketsPartition | src/pages/Compliance.jsx:204-208 | high + medium + low is the number of alerts |
| Compliance.DeductionStep | src/pages/Compliance.jsx:210 | an extra alert adds its weight (3, 2 or 1) to the deduction |
| Compliance.DeductionAtLeastCount | src/pages/Compliance.jsx:210 | the deduction lies between the number of alerts and three times it |
| Compliance.FullScoreIffNoAlerts | src/pages/Compliance.jsx:211 | the score is 100 exactly when there are no alerts |
| Compliance.AlertNeverRaisesScore | src/pages/Compliance.jsx:210-211 | an extra alert lowers the score by 5 × its weight, down to 0, and never raises it |
| Compliance.SuppliedScoreOverwritten | src/pages/Compliance.jsx:211 | the score the model supplied plays no part in the result |
| Compliance.NonListAlertsScoreFull | src/pages/Compliance.jsx:196-198 | an object reply with a non-list `alerts` is scored as no alerts: 100 |
| Compliance.FallbackScoresNinety | src/pages/Compliance.jsx:183-191 | a reply that is not JSON ends with one Medium alert and the score 90 |
| Compliance.DisplayedScoreInRange | src/pages/Compliance.jsx:285 | the score shown is 0 before any analysis and stays in [0, 100] after every step, a throwing one included |
| Compliance.DisplayedScore | src/pages/Compliance.jsx:285 | `analysis?.complianceScore ?? 0` |
| Compliance.AnalysisAfter | src/pages/Compliance.jsx:272-278 | a scored step replaces the analysis; a throwing one leaves the previous analysis in place |
| Research.FirstSet | src/pages/Research.jsx:70 | an `a \|\| b \|\| fallback` chain with a non-empty fallback is never empty |
| Research.FirstSetPicksFirst | src/pages/Research.jsx:70 | the chain stops at the first field that is set |
| Research.FirstSetFallback | src/pages/Research.jsx:70 | the fallback is used when no field is set; otherwise the result is a set field |
| Research.ExtractTitle | src/pages/Research.jsx:65-82 | a title is never empty |
| Research.PeopleTitle | src/pages/Research.jsx:66-68 | a person's title is `name`, else "Untitled" |
| Research.CaseTitle | src/pages/Research.jsx:69-71 | a case's title is the first set one of caseName, case_name, name and title |
| Research.CaseTitleUntitled | src/pages/Research.jsx:70 | a case with none of them set is "Untitled Case" |
| Research.Absolute | src/pages/Research.jsx:89-93 | the URL returned starts with "http" |
| Research.UrlFacts | src/pages/Research.jsx:87-102 | null exactly when both fields are empty; otherwise it starts with "http", ends with its field, and `absolute_url` wins |
| Research.ExtractUrl | src/pages/Research.jsx:85-103 | `absolute_url`, else `url`, made absolute, else null (stated by `UrlFacts`) |
| Research.AbsoluteEndsWith | src/pages/Research.jsx:89-93 | the prefix is only added in front, and only when the URL does not start with "http" |
| Research.FormatResults | src/pages/Research.jsx:106-153 | one card per record, in order |
| Research.FormatItem | src/pages/Research.jsx:107-152 | one card: the title, the per-type fields, the URL, and no summary yet (stated by `CardsFollowRecords`) |
| Research.CardsFollowRecords | src/pages/Research.jsx:107-152 | every card carries the requested type, its own record, its title, and is not being summarised |
| Research.MarkSummarizing | src/pages/Research.jsx:192-194 | marking keeps the number of cards |
| Research.SummaryText | src/pages/Research.jsx:203-207 | the stored summary is never empty |
| Research.StoreSummary | src/pages/Research.jsx:202-208 | storing keeps the number of cards |
| Research.SummaryTouchesOneCard | src/pages/Research.jsx:192-208 | a summary round changes only the card at `idx`, and there only its summary; a bad index changes nothing |
| Research.ResearchPage.constructor | src/pages/Research.jsx:16-20 | an empty search of type "search", no results, no error |
| Research.ResearchPage.Search | src/pages/Research.jsx:157-186 | a blank query is refused without fetching; an empty result, a failure and a success set the error and the cards as the handler does |
| Research.ResearchPage.StartSummary | src/pages/Research.jsx:192-194 | the card at `idx` is marked and nothing else changes |
| Research.ResearchPage.FinishSummary | src/pages/Research.jsx:202-208 | the card at `idx` gets its summary and nothing else changes |
| Documents.Filter | src/pages/Documents.jsx:66-73 | the filtered list is no longer than the list |
| Documents.FilterMembership | src/pages/Documents.jsx:66-72 | a document is shown exactly when it is in the list and matches |
| Documents.Matches | src/pages/Documents.jsx:67-71 | the search term occurs, case-insensitively, in the name or the description, and the type and status filters are "All" or equal |
| Documents.FilterConcat | src/pages/Documents.jsx:66 | filtering keeps the order of the documents |
| Documents.EmptySearchShowsAll | src/pages/Documents.jsx:67-71 | an empty search with both filters on "All" shows every document |
| Documents.SearchIgnoresCase | src/pages/Documents.jsx:67-68 | an upper-case spelling of the search finds the same documents |
| Documents.FileTypeHasNoDot | src/pages/Documents.jsx:118 | the file type never holds a dot |
| Documents.SplitLastField | src/pages/Documents.jsx:118 | the last field of `a.b` with a dot-free `b` is `b` |
| Documents.FileTypeOfExtension | src/pages/Documents.jsx:118 | `stem.ext` gets the upper-cased extension as its type |
| Documents.FileType | src/pages/Documents.jsx:118 | `name.split('.').pop().toUpperCase()` (stated by `FileTypeHasNoDot`, `FileTypeOfExtension`) |
| Documents.NewDocs | src/pages/Documents.jsx:109-121 | the i-th file's record has id `documents.length + i + 1` and the placeholder fields |
| Documents.UploadKeepsIdsValid | src/pages/Documents.jsx:110 | after an upload the ids are still 1 .. n without repeats |
| Documents.UploadLoopDone | src/pages/Documents.jsx:104-124 | after the last file the loop's list is the uploaded list |
| Documents.UploadedShape | src/pages/Documents.jsx:104-124 | one record per file, the last file's first, each with the placeholder description, and the old records behind them unchanged |
| Documents.Uploaded | src/pages/Documents.jsx:104-124 | the new records, last file first, in front of the old list (stated by `UploadedShape`, `UploadKeepsIdsValid`) |
| Documents.DocumentsPage.constructor | src/pages/Documents.jsx:11-58 | the page starts with its records, no selection, not uploading, progress 0 |
| Documents.DocumentsPage.Upload | src/pages/Documents.jsx:100-128 | the loop prepends each file's record; after it, the list is the uploaded list, progress is 100 and the selection is cleared |
| Documents.DocumentsPage.SelectFiles | src/pages/Documents.jsx:75-81 | an empty selection changes nothing; otherwise the files are uploaded, with upload ended, progress 100 and the selection cleared |
| Toast.DurationOf | src/components/Toast.jsx:10 | a missing duration is 3000 |
| Toast.KindOf | src/components/Toast.jsx:10 | a missing type is "info" |
| Toast.Without | src/components/Toast.jsx:24 | no toast with the id remains |
| Toast.WithoutMembership | src/components/Toast.jsx:24 | a toast stays exactly when it was there and has another id |
| Toast.WithoutConcat | src/components/Toast.jsx:24 | the toasts that stay keep their order |
| Toast.RemoveAbsentId | src/components/Toast.jsx:24 | removing an id no toast has changes nothing |
| Toast.AddThenRemove | src/components/Toast.jsx:12-24 | adding a toast with a fresh id and removing that id restores the list |
| Toast.SameMillisecondToastsRemovedTogether | src/components/Toast.jsx:11-16 | two toasts made in the same millisecond share an id and go together |
| Toast.UseToast | src/components/Toast.jsx:42-48 | the provider's value, or the error "useToast must be used within ToastProvider" outside one |
| Toast.ToastProvider.constructor | src/components/Toast.jsx:8 | no toasts at first |
| Toast.ToastProvider.AddToast | src/components/Toast.jsx:10-21 | the toast is appended, its id returned, and a timer set exactly when the duration is positive |
| Toast.ToastProvider.RemoveToast | src/components/Toast.jsx:23-25 | every toast with the id goes and the rest stay in order |
| Toast.ToastProvider.Success | src/components/Toast.jsx:28 | appends a "success" toast |
| Toast.ToastProvider.Error | src/components/Toast.jsx:29 | appends an "error" toast |
| Toast.ToastProvider.Warning | src/components/Toast.jsx:30 | appends a "warning" toast |
| Toast.ToastProvider.Info | src/components/Toast.jsx:31 | appends an "info" toast |
| Signup.Validate | src/pages/Signup.jsx:30-38 | no error exactly when the passwords match and are at least 6 UTF-16 code units long; a mismatch is reported first |
| Signup.IndicatorsPredictSubmit | src/pages/Signup.jsx:158-162 | the form goes through exactly when both requirement dots are lit |
| Signup.LengthIndicator | src/pages/Signup.jsx:158 | `password.length >= 6`, in UTF-16 code units |
| Signup.MatchIndicator | src/pages/Signup.jsx:162 | the two fields agree and are not empty |
| Signup.AstralPasswordLongEnough | src/pages/Signup.jsx:35 | a password of three characters outside the Basic Multilingual Plane passes the length check |
| Signup.SignupPage.constructor | src/pages/Signup.jsx:8-12 | empty fields, no error, not loading |
| Signup.SignupPage.Submit | src/pages/Signup.jsx:25-49 | sign-up is called exactly when validation passes; success goes to /dashboard, failure shows its message, and loading ends false |
| ApprovalWorkflow.ApproverList | src/components/collaboration/ApprovalWorkflow.jsx:12 | one trimmed approver per comma-separated field |
| ApprovalWorkflow.ApproversAreCleanFields | src/components/collaboration/ApprovalWorkflow.jsx:12 | one approver more than there are commas, each without a comma or edge whitespace |
| ApprovalWorkflow.CommaOnlyApproversAccepted | src/components/collaboration/ApprovalWorkflow.jsx:9-12 | a lone comma passes the guard and yields two empty approvers |
| ApprovalWorkflow.Rejected | src/components/collaboration/ApprovalWorkflow.jsx:9 | the step is refused when the title or the approvers are blank after `trim` |
| ApprovalWorkflow.StatusText | src/components/collaboration/ApprovalWorkflow.jsx:29-36 | "Pending" exactly for an unknown status; always one of the four labels |
| ApprovalWorkflow.ReplaceFirst | src/components/collaboration/ApprovalWorkflow.jsx:79 | `replace` with a string pattern keeps the length |
| ApprovalWorkflow.ReplaceFirstAbsent | src/components/collaboration/ApprovalWorkflow.jsx:79 | a status without `_` is unchanged |
| ApprovalWorkflow.ReplaceFirstAt | src/components/collaboration/ApprovalWorkflow.jsx:79 | exactly the first `_` becomes a space |
| ApprovalWorkflow.SecondUnderscoreKept | src/components/collaboration/ApprovalWorkflow.jsx:79 | a status with two underscores keeps one in its badge |
| ApprovalWorkflow.InProgressBadge | src/components/collaboration/ApprovalWorkflow.jsx:79 | "in_progress" reads "In Progress" with the badge "IN PROGRESS" |
| ApprovalWorkflow.BadgeLabel | src/components/collaboration/ApprovalWorkflow.jsx:79 | the status with its first `_` made a space, upper-cased (stated by `ReplaceFirstAt`, `SecondUnderscoreKept`) |
| ApprovalWorkflow.ApprovalForm.constructor | src/components/collaboration/ApprovalWorkflow.jsx:4-6 | the form starts closed and empty |
| ApprovalWorkflow.ApprovalForm.AddStep | src/components/collaboration/ApprovalWorkflow.jsx:8-18 | rejected input leaves the form as it is; otherwise the step is produced and the form is reset and closed |
| ApprovalWorkflow.ApprovalForm.Cancel | src/components/collaboration/ApprovalWorkflow.jsx:159-163 | the form closes and both fields are cleared |
| ScenariosPage.RemoveIndexSpec | src/pages/Scenarios.jsx:276 | exactly the element at the index goes and the rest keep their order; any other index removes nothing |
| ScenariosPage.Contents | src/pages/Scenarios.jsx:304 | one content per element, in order |
| ScenariosPage.PromptGrows | src/pages/Scenarios.jsx:304 | the prompt is the first content, then ", " and each further content |
| ScenariosPage.Prompt | src/pages/Scenarios.jsx:304 | the contents joined with ", " (stated by `PromptGrows`) |
| ScenariosPage.AnalyzeDisabled | src/pages/Scenarios.jsx:302 | the analyse button is disabled while the canvas is empty or a request runs |
| ScenariosPage.TimelineLabel | src/pages/Scenarios.jsx:878 | "Start" exactly at index 0; "End" exactly at the last index other than 0 |
| ScenariosPage.OneStartOneEnd | src/pages/Scenarios.jsx:878 | two or more events have one "End"; a single event is "Start" |
| ScenariosPage.DayWord | src/pages/Scenarios.jsx:884 | "days" exactly when the gap is more than one |
| ScenariosPage.GapsTelescope | src/pages/Scenarios.jsx:882-884 | the shown gaps from event i add up to the last day minus day i |
| ScenariosPage.Gap | src/pages/Scenarios.jsx:884 | the days from one event to the next (stated by `GapsTelescope`) |
| ScenariosPage.MaxDay | src/pages/Scenarios.jsx:827 | the duration bounds every day and is one of them |
| ScenariosPage.Canvas.constructor | src/pages/Scenarios.jsx:65-72 | the page starts on "whatif" with an empty canvas |
| ScenariosPage.Canvas.DragStart | src/pages/Scenarios.jsx:141-144 | the item becomes the dragged item |
| ScenariosPage.Canvas.Drop | src/pages/Scenarios.jsx:150-156 | with an item being dragged it is appended and the drag ends; otherwise nothing changes |
| ScenariosPage.Canvas.Remove | src/pages/Scenarios.jsx:276 | the canvas loses the element at the index |
| ScenariosPage.Canvas.Clear | src/pages/Scenarios.jsx:293 | the canvas is emptied |
| ScenariosPage.Canvas.SwitchTab | src/pages/Scenarios.jsx:1099-1102 | the new tab, with the response and the scenario input cleared |
| Negotiation.FindLabel | src/pages/Negotiation_old_backup.jsx:76 | a label is found exactly when some tab has the key, and it is that tab's |
| Negotiation.PrependKeepsIdsValid | src/pages/Negotiation_old_backup.jsx:74-80 | putting the entry numbered length + 1 first keeps the ids 1 .. n without repeats |
| Negotiation.ResponseText | src/pages/Negotiation_old_backup.jsx:68 | the placeholder is shown exactly when the model gave no text (or the placeholder itself) |
| Negotiation.EntryKind | src/pages/Negotiation_old_backup.jsx:76 | a non-empty type label wins |
| Negotiation.EntryKindFromTab | src/pages/Negotiation_old_backup.jsx:76 | without a label the kind is "Unknown" exactly when no tab has the active key |
| Negotiation.EntryDetailsShape | src/pages/Negotiation_old_backup.jsx:78 | the details are the first 50 characters of their source followed by "..." |
| Negotiation.EntryDetails | src/pages/Negotiation_old_backup.jsx:78 | the first 50 characters of the details, else of the clause, then "..." (stated by `EntryDetailsShape`) |
| Negotiation.Fallback | src/pages/Negotiation_old_backup.jsx:131-151 | the fallback puts both sides at 50 with the same reason |
| Negotiation.EmptyReplyHasBraceSpan | src/pages/Negotiation_old_backup.jsx:122-126 | an empty reply is read as "{}", which the brace pattern matches |
| Negotiation.ReplyText | src/pages/Negotiation_old_backup.jsx:122 | `text \|\| '{}'` is never empty |
| Negotiation.HasBraceSpan | src/pages/Negotiation_old_backup.jsx:126 | `/\{[\s\S]*\}/` matches: some `{` comes before some `}` |
| Negotiation.ParseOf | src/pages/Negotiation_old_backup.jsx:127-128 | `JSON.parse` of the span: "{}" gives the empty object, without positions |
| Negotiation.PowerOutcome | src/pages/Negotiation_old_backup.jsx:122-151 | what the handler stores, as written: a fallback, the parsed result, or an object without positions |
| Negotiation.FailureIsEvenOrShapeless | src/pages/Negotiation_old_backup.jsx:124-151 | as written, a failure is shown as 50/50 or stored without positions, the latter exactly when the parse gave an ill-shaped object |
| Negotiation.EmptyReplyStoresShapeless | src/pages/Negotiation_old_backup.jsx:122-129 | as written, a reply with no text stores `{}`: no 50/50 reading, and the render at line 384 throws |
| Negotiation.IntendedOutcome | src/pages/Negotiation_old_backup.jsx:139-143 | an object without positions treated like a parse error |
| Negotiation.IntendedAgreesWithCode | src/pages/Negotiation_old_backup.jsx:126-143 | the intended outcome equals the code's wherever the code shows a result, and is the "Analysis error" fallback elsewhere |
| Negotiation.EveryFailureIsEven | src/pages/Negotiation_old_backup.jsx:124-151 | with the intended outcome, every failure (call, pattern, parse or shape) shows both sides at 50 with one reason |
| Negotiation.NegotiationPage.constructor | src/pages/Negotiation_old_backup.jsx:22-28 | the page starts on "counter" with its history and nothing shown |
| Negotiation.NegotiationPage.CallGemini | src/pages/Negotiation_old_backup.jsx:40-87 | the response or error shown; an entry is prepended exactly for a real answer, with id length + 1, the kind and the details |
| Negotiation.NegotiationPage.AnalyzePower | src/pages/Negotiation_old_backup.jsx:89-154 | nothing for an empty input; otherwise the stored outcome, which is the intended one wherever a result is shown and `{}` for a reply with no text |
| Negotiation.NegotiationPage.SwitchTab | src/pages/Negotiation_old_backup.jsx:583-588 | the new tab, with the response, the clause input and the power analysis cleared |

## Left out

- File and process I/O (reading and writing the page files, exit codes, the `execSync` wrappers): file contents are parameters. A file access is its text, or a failed read, plus whether the write succeeds.
- Console and print output: the counts and totals are modelled, their formatting is not.
- A general regex engine: every rule is a literal class name, `text-white(?!\S)` or `bg-white\s+text-black`. No replacement contains `$`, so JavaScript replacement patterns never apply.
- RegexEscape: `re.escape` is modelled with the character set of Python 3.7 and later.
- RegexEscape.EscapedBrackets: the hand-escaped sources of update-colors.js and apply-colors.py are covered by this lemma for the general `prefix\[body\]` shape; no lemma ties each table entry to its `Literal`, since the tables are written out as class names.
- Concrete runs of the 35-rule tables on long texts: the order facts are proved for all inputs instead.
- The number of rules: `update-colors.js` has 35 table rules plus the special case, not 41, and the model follows the code.
- Zero counts: the node and Python scenario scripts record only positive counts, and the model follows the code.
- Pattern validation: no script validates its patterns. All patterns are non-empty constants, which `Rewrite.ValidPattern` states.
- Network and AI calls: the Gemini, Groq and CourtListener requests and their JSON parsing are parameters (a reply datatype, or `Option` for a parse).
- Firestore, pdf.js and mammoth extraction, and speech APIs.
- Non-string JSON values in search records: a record is a map from field to text, with "" for a missing field.
- Floating point:
  - the intermediate upload progress values and the file size in MB (Documents.jsx:106,119);
  - the financial impact calculator;
  - the score ring geometry.
- Clock, timers and randomness: `Date.now` ids and the ISO date are parameters; the auto-dismiss timer is modelled only as whether it is set; `sleep` and random layouts are left out.
- Case mapping is ASCII only: non-ASCII letters are left as they are by `Strings.Lower` and `Strings.Upper`.
- Strings.Prefix: counts `char`s, not UTF-16 code units, for `substring(0, n)` (the password checks of Signup.jsx use `Strings.Utf16Length`).
- Sample data (the initial documents of Documents.jsx and `MOCK_HISTORY`) is a constructor parameter with ids 1 .. n.
- Documents.DocumentsPage.Upload: the queued `setDocuments(prev => ...)` updates are gathered into one list and assigned once, as React applies them together. Intermediate renders are not modelled.
- Documents.DocumentsPage.Upload: the `setTimeout` that puts the progress back to 0 two seconds later (Documents.jsx:130) is not modelled; the stated state is the one the handler leaves.
- Research.ResearchPage.Search: the transient `loading = true` and the cleared results during the fetch are not stated; only the state after the handler is.
- ScenariosPage: the scenario analysis and timeline-generation requests themselves are not modelled; the canvas, prompt, labels, gaps and duration are.
- Negotiation.ParseOf: what `JSON.parse` makes of a matched span is a parameter, except for the text `{}` (the reading of an empty reply), which parses to the empty object; the span itself is only checked to exist.
- Presentational files and lookup tables (colour maps, layout, configuration) are not part of this model.

## Findings

| source | as written | input that shows it | evidently intended | confidence | as-written member | corrected member |
|---|---|---|---|---|---|---|
| src/pages/Negotiation_old_backup.jsx:122-129 | a reply with no text is read as `'{}'`; the brace pattern matches it, `JSON.parse` gives `{}` without throwing, and that object is stored, so the render at line 384 reads `ourPosition.strength` of an object that has none | a Gemini response whose first candidate has no text | an object without positions is treated like a span that does not parse: the "Analysis error" fallback, both sides at 50 | not executed | Negotiation.EmptyReplyStoresShapeless | Negotiation.EveryFailureIsEven |

`Negotiation.PowerOutcome` and `Negotiation.NegotiationPage.AnalyzePower` keep the code's behaviour, `{}` included. `Negotiation.IntendedOutcome` is the corrected definition. `Negotiation.IntendedAgreesWithCode` shows that the two differ only where the code stores `{}`.
