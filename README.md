# IDN report pipeline, modelled in Dafny

This project models the scanner-report ("IDN report") pipeline of the
client-report service. It has two halves.

**`parseAndExtractIDNReport`** (`src/utils/parse-and-extract-idn-report.ts`) turns the exported text of a scan into a list of conditions and a scan type. It works in two passes.

Pass 1 (module `ParseIdnReport`, method `Reassemble`) rejoins physical lines that the exporter wrapped:
- A line whose trimmed text ends in `,`, `Brain Instruction` or `Brain Instruction Freq.` takes the next line.
- If the result still ends in `,`, it takes one more.

Pass 2 (method `ScanConditions`) walks the logical lines with one open condition:
- Every `Date :` line closes the open condition and opens a new one.
- The open condition is filled from `Scale:`, the `(N%)` before `Scale:`, `Real Instruction Freq.` and the three spellings of `Brain Instruction Freq.`.
- A `Scantype:` line sets the report's scan type.

Each regular expression is an explicit matcher (module `IdnPatterns`): a function that matches at one position, plus a leftmost search. Module `Text` holds the JavaScript string primitives involved: the `trim` whitespace set, `trim`/`trimEnd`, `indexOf`/`includes`, and `split` on a string or a character.

**The head of `generateRichDocument`** (`src/utils/generate-docx.ts`, module `GenerateDocx`) covers four computations:
- The organ-indicator grouping: the first catalog entry whose health areas are all indicated.
- The biological-inflammation collection: the names of all matching groupings, and the deduplicated union of their inflammations.
- The per-report averages: one entry per report that some grouping matches, sorted stably by scan type.
- The loop that lays the leadership dynamics out two per pair of table rows.

The loops that build results step by step are methods whose contracts tie each result to a specification function: the reassembly loop, the scanning loop, the organ-grouping search, the inflammation collection and the leadership loop. The `map`, `filter`, `flatMap` and `reduce` callbacks are functions, because they compute values. So is the catalog search inside the `map` callback (`FirstMatching`). The properties are proved as lemmas about those functions:
- The reference reading of the record boundary (`Blocks`) and the scanner agree on every input.
- Reassembly never loses visible text.
- Every reported condition is well formed.
- Deduplication keeps first-seen order.
- The sort is sorted, a permutation and stable.
- Every leadership dynamic lands in its cell.

Three behaviours of the code at its edges are modelled as written:
- **Reassembly at the end of the input.** The code reads `rawLines[i + 1]` (src/utils/parse-and-extract-idn-report.ts:25) and `rawLines[i + 2]` (line 27) without a bounds check. Two cases make `.trim()` run on `undefined`, which throws a `TypeError`: a continuation marker on the last raw line when a logical line starts there (`TrailingCommaThrows`), or a comma still trailing after the first join of a logical line that starts on the second-to-last raw line (`CommaAfterJoinThrows`). `LogicalLine` returns `None` in exactly these cases. A marker on the last raw line that an earlier join takes in throws nothing: `["a,", "b,", "c,"]` becomes `a,b,c,` (`ChainedJoinExample`).
- **The comma is kept.** `["Foo,", "Bar"]` becomes `Foo,Bar`, and `ReassemblyKeepsComma` proves that result.
- **Which conditions are averaged.** The totals run over every condition of the report and are divided by the report's length (src/utils/generate-docx.ts:98-113), whichever grouping matched. `Averages` does the same.

## Model

| member | source | states |
|---|---|---|
| `Text.IndexOf` | src/utils/parse-and-extract-idn-report.ts:40 | `indexOf`/`includes`: the result is an occurrence with none before it; `None` only when the pattern occurs nowhere |
| `Text.Before` | src/utils/parse-and-extract-idn-report.ts:42 | `split(sep)[0]`: the prefix of the text up to the first occurrence of the separator (none occurs inside it), or the whole text when the separator does not occur |
| `Text.SecondPart` | src/utils/parse-and-extract-idn-report.ts:55-56 | `split(marker)[1]`: the text from right after the first occurrence of the marker up to its second occurrence, or to the end when there is no second one |
| `Text.Split` | src/utils/parse-and-extract-idn-report.ts:16 | `split` on one character: at least one piece, and no piece contains the separator |
| `Text.JoinSplit` | src/utils/parse-and-extract-idn-report.ts:16 | joining the pieces of a split with the separator gives back the content exactly |
| `Text.SplitJoin` | src/utils/parse-and-extract-idn-report.ts:58 | splitting a join of separator-free pieces gives back those pieces |
| `Text.TrimKeepsText` | src/utils/parse-and-extract-idn-report.ts:25 | `trim`/`trimEnd` remove whitespace only: the non-space characters are unchanged |
| `Text.TrimWithin` | src/utils/parse-and-extract-idn-report.ts:58 | a trimmed text has no character the original lacks |
| `Text.TrimStartSpec` | src/utils/parse-and-extract-idn-report.ts:21-23 | `trim` drops the leading whitespace and nothing else: the result is a suffix, every dropped character is whitespace, and the result does not start with whitespace |
| `Text.OccursIffContains` | src/utils/parse-and-extract-idn-report.ts:40 | `Occurs`, the direct reading of `includes` that `IsDateLine` uses, holds exactly when `indexOf` finds the pattern |
| `Text.TrimEndSpec` | src/utils/parse-and-extract-idn-report.ts:25 | `trimEnd` drops the trailing whitespace and nothing else: the result is a prefix, every dropped character is whitespace, and the result does not end with whitespace |
| `IdnPatterns.Leftmost` | src/utils/parse-and-extract-idn-report.ts:45 | `String.match` without `g`, as `ScaleMatch`, `PercentageMatch`, `ScantypeMatch` and `ParenGroup` use it: the match at the first position where the pattern matches, and no match only when it matches nowhere |
| `IdnPatterns.ScaleAt` | src/utils/parse-and-extract-idn-report.ts:45-47 | `/Scale: (\d+)/` matches exactly where `Scale: ` (one space) stands with a digit right after it, and captures the value of the digit run there |
| `IdnPatterns.NumeralLength` | src/utils/parse-and-extract-idn-report.ts:49 | greedy `\d+(\.\d+)?` takes a prefix of the text, and takes something exactly when the text starts with a digit |
| `IdnPatterns.NumeralLengthIsNumeral` | src/utils/parse-and-extract-idn-report.ts:49 | the prefix greedy `\d+(\.\d+)?` takes is a decimal numeral: digits, optionally a point and more digits |
| `IdnPatterns.NumeralLengthIsLongest` | src/utils/parse-and-extract-idn-report.ts:49 | greedy: no longer prefix of the text is a decimal numeral |
| `IdnPatterns.NumeralLengthStops` | src/utils/parse-and-extract-idn-report.ts:49 | a decimal numeral followed by neither a digit nor a point is exactly what the greedy match takes |
| `IdnPatterns.PercentageAt` | src/utils/parse-and-extract-idn-report.ts:49-51 | the capture is the greedy numeral right after a `(`, followed by `%`, and it stands on the line between that `(` and a `)` |
| `IdnPatterns.PercentageAtIsPercent` | src/utils/parse-and-extract-idn-report.ts:49-51 | what the percentage pattern captures is a decimal numeral followed by `%` |
| `IdnPatterns.PercentageAtNeedsScale` | src/utils/parse-and-extract-idn-report.ts:49 | a percentage is captured only where optional whitespace and `Scale:` (any letter case) follow its `)` |
| `IdnPatterns.PercentageAtMatches` | src/utils/parse-and-extract-idn-report.ts:49-51 | conversely, `(`, a decimal numeral, `%)`, optional whitespace and `Scale:` always match, and the capture is the numeral with its `%` |
| `IdnPatterns.ScantypeAt` | src/utils/parse-and-extract-idn-report.ts:83-85 | `/Scantype:\s*(\d+)/` matches exactly where `Scantype:` stands with optional whitespace and then a digit after it, and captures the value of the digit run after the whitespace |
| `IdnPatterns.ScantypeAtMatches` | src/utils/parse-and-extract-idn-report.ts:83-85 | conversely, `Scantype:`, any whitespace run and a digit always match, and the capture is the value of the digit run |
| `IdnPatterns.ParenGroupAt` | src/utils/parse-and-extract-idn-report.ts:56 | `/\(([^)]+)\)/`: a non-empty group free of `)`, between `(` and the next `)` |
| `IdnPatterns.ParenGroupAtMatches` | src/utils/parse-and-extract-idn-report.ts:56 | conversely, `(`, a non-empty run free of `)`, and `)` always match, and the capture is that run |
| `ParseIdnReport.LogicalLine` | src/utils/parse-and-extract-idn-report.ts:19-32 | an unmarked line is kept verbatim; a marked line is `trimEnd` plus the trimmed next line, and one more when that still ends in `,`; the index moves on by 1, 2 or 3; failure exactly when the join reads past the last raw line |
| `ParseIdnReport.NonSpaceOfJoin` | src/utils/parse-and-extract-idn-report.ts:25 | `JoinLines` (`trimEnd` of the line plus the trimmed next line) loses and adds no visible character |
| `ParseIdnReport.ReadLogicalLine` | src/utils/parse-and-extract-idn-report.ts:19-32 | the loop body computes that logical line |
| `ParseIdnReport.Reassemble` | src/utils/parse-and-extract-idn-report.ts:16-34 | the reassembly loop yields the reference reassembly, or fails where the source throws |
| `ParseIdnReport.ReassemblyKeepsText` | src/utils/parse-and-extract-idn-report.ts:18-34 | reassembly loses, adds and reorders no visible character |
| `ParseIdnReport.ReassemblyLength` | src/utils/parse-and-extract-idn-report.ts:26-31 | the output is never longer than the input, and at least a third of it |
| `ParseIdnReport.ReassemblyIdentity` | src/utils/parse-and-extract-idn-report.ts:20-33 | without any continuation marker, the raw lines come out unchanged |
| `ParseIdnReport.ReassemblySucceeds` | src/utils/parse-and-extract-idn-report.ts:25-27 | no marker on the last two raw lines means no out-of-bounds read |
| `ParseIdnReport.ReassembleAppend` | src/utils/parse-and-extract-idn-report.ts:19-33 | raw lines that reassemble on their own keep their logical lines when more raw lines follow, and reassembly then goes on from the first of those |
| `ParseIdnReport.TrailingCommaThrows` | src/utils/parse-and-extract-idn-report.ts:21-25 | after raw lines that reassemble on their own, a last raw line with a continuation marker reads `rawLines[i + 1]` past the end: reassembly fails |
| `ParseIdnReport.CommaAfterJoinThrows` | src/utils/parse-and-extract-idn-report.ts:25-27 | after raw lines that reassemble on their own, a marked line whose join with the last raw line still ends in `,` reads `rawLines[i + 2]` past the end: reassembly fails |
| `ParseIdnReport.MarkedLastLineJoined` | src/utils/parse-and-extract-idn-report.ts:25-29 | a marker on the last raw line throws nothing when the second join of a logical line that starts two lines earlier takes that line in |
| `ParseIdnReport.ChainedJoinExample` | src/utils/parse-and-extract-idn-report.ts:25-29 | `["a,", "b,", "c,"]` becomes the one line `a,b,c,` |
| `ParseIdnReport.ReassemblyKeepsComma` | src/utils/parse-and-extract-idn-report.ts:25 | `["Foo,", "Bar"]` becomes `["Foo,Bar"]`: the comma is kept |
| `ParseIdnReport.ReassemblyPassesThrough` | src/utils/parse-and-extract-idn-report.ts:20-33 | `["Foo", "Bar"]`, with no marker, comes out as the same two lines |
| `ParseIdnReport.SampleLines` | src/utils/parse-and-extract-idn-report.ts:20-27 | `NeedsJoin` holds for `Foo,` but not for `Foo` or `Bar`, and `JoinLines("Foo,", "Bar")` is `Foo,Bar`, which needs no further join |
| `ParseIdnReport.WithScaleSpec` | src/utils/parse-and-extract-idn-report.ts:44-53 | `WithScale`: a `Scale:` line sets `scale` and `percentage` each exactly when its pattern matches, otherwise keeps them, and touches no other field |
| `ParseIdnReport.WithFreqsSpec` | src/utils/parse-and-extract-idn-report.ts:54-81 | `WithFreqs`: a present frequency marker always sets its list (to `[]` when no group follows); when several brain spellings are present, `Brain  Instruction Freq.` takes precedence over `Brain InstructionFreq.`, which takes precedence over `Brain Instruction Freq.`, whatever their positions on the line |
| `ParseIdnReport.FreqListEntries` | src/utils/parse-and-extract-idn-report.ts:55-59 | `FreqList`: every frequency item is free of `,` and `)` |
| `ParseIdnReport.NewConditionSpec` | src/utils/parse-and-extract-idn-report.ts:42 | `NewCondition` opens a condition with only a name, taken from the text before the first double space of the line; the name holds no double space and has no whitespace at either end |
| `ParseIdnReport.OpenOnDateLine` | src/utils/parse-and-extract-idn-report.ts:40-43 | a date line pushes the open condition, if any, and opens one named by its text before the first double space |
| `ParseIdnReport.ReadScale` | src/utils/parse-and-extract-idn-report.ts:44-53 | the scale stage computes the scale update |
| `ParseIdnReport.ReadFrequencies` | src/utils/parse-and-extract-idn-report.ts:54-81 | the frequency stage computes the frequency update |
| `ParseIdnReport.ScanLine` | src/utils/parse-and-extract-idn-report.ts:40-87 | one loop iteration is one step of the scanner |
| `ParseIdnReport.ScanConditions` | src/utils/parse-and-extract-idn-report.ts:36-90 | the scanning loop and the final flush yield the scanner's report |
| `ParseIdnReport.ParseAndExtractIdnReport` | src/utils/parse-and-extract-idn-report.ts:15-90 | the whole function: split, reassemble, scan, or fail where reassembly throws |
| `ParseIdnReport.FirstDate` | src/utils/parse-and-extract-idn-report.ts:40 | the index of the first `Date :` line, with none before it |
| `ParseIdnReport.RunMatchesBlocks` | src/utils/parse-and-extract-idn-report.ts:39-89 | `Run`, the scanner's `Step` over every line: from any state, the report is: the closed conditions, the open one filled up to the first date line, then one block per date line |
| `ParseIdnReport.ScanMatchesBlocks` | src/utils/parse-and-extract-idn-report.ts:39-89 | `Scan`: the report is exactly the reference blocks; each condition takes the fields of the lines from its own date line, that line included, up to the next one |
| `ParseIdnReport.BlocksFollowDateLines` | src/utils/parse-and-extract-idn-report.ts:40-42 | one block per date line, named after it |
| `ParseIdnReport.BlockNames` | src/utils/parse-and-extract-idn-report.ts:40-42 | the blocks' names, in order, are the names the date lines give (`DateName`: the trimmed text before the first double space) |
| `ParseIdnReport.ScanCountsDateLines` | src/utils/parse-and-extract-idn-report.ts:39-43 | the report holds exactly one condition per `Date :` line, in order, the j-th named by the trimmed text before the first double space of the j-th date line |
| `ParseIdnReport.FillKeepsName` | src/utils/parse-and-extract-idn-report.ts:44-81 | no field line changes a condition's name |
| `ParseIdnReport.RunAppend` | src/utils/parse-and-extract-idn-report.ts:39 | scanning a concatenation is scanning one part after the other |
| `ParseIdnReport.ScanIgnoresPreamble` | src/utils/parse-and-extract-idn-report.ts:40-44 | lines before the first date line, `Scantype:` lines included, change nothing |
| `ParseIdnReport.RunOpensOnDate` | src/utils/parse-and-extract-idn-report.ts:36-43 | a condition is open exactly when one was already open or a date line was seen |
| `ParseIdnReport.ScanTypeDefaultsToZero` | src/utils/parse-and-extract-idn-report.ts:37 | without a matching `Scantype:` line the scan type is 0 |
| `ParseIdnReport.ScantypeMatchHasMarker` | src/utils/parse-and-extract-idn-report.ts:82-83 | the `includes` guard never hides a match of the pattern |
| `ParseIdnReport.RunKeepsScanType` | src/utils/parse-and-extract-idn-report.ts:82-87 | lines without a `Scantype:` match leave the scan type as it was, from any state |
| `ParseIdnReport.ScanTypeLastWins` | src/utils/parse-and-extract-idn-report.ts:82-87 | once a date line has been seen, the last matching `Scantype:` line decides the scan type, whatever lines without a match follow it |
| `ParseIdnReport.ScanWellFormed` | src/utils/parse-and-extract-idn-report.ts:42-85 | every reported condition has a name, a non-negative scale, a `N%`/`N.M%` percentage and comma-free items; the scan type is non-negative |
| `GenerateDocx.SelectOrganGrouping` | src/utils/generate-docx.ts:57-67 | the first grouping in catalog order whose health areas are all indicated (`Covers`); `null` exactly when none is (without parsed data only groupings with no health areas qualify) |
| `GenerateDocx.ConditionNames` | src/utils/generate-docx.ts:73 | `report.map(f => f.name)`, position by position |
| `GenerateDocx.MatchingIn` | src/utils/generate-docx.ts:75-83 | `Matches` over the catalog: the recorded groupings of a report are exactly the catalog entries whose inflammations all name some of its conditions |
| `GenerateDocx.FirstIndex` | src/utils/generate-docx.ts:70-71 | the first occurrence of an element, with none before it |
| `GenerateDocx.DedupMembers` | src/utils/generate-docx.ts:70-71 | `Array.from(new Set(xs))` holds exactly the elements of `xs` |
| `GenerateDocx.DedupNoDuplicates` | src/utils/generate-docx.ts:70-71 | `Array.from(new Set(xs))` holds no element twice |
| `GenerateDocx.DedupOrder` | src/utils/generate-docx.ts:70-71 | `Array.from(new Set(xs))` orders its elements by their first occurrence in `xs` |
| `GenerateDocx.DedupSpec` | src/utils/generate-docx.ts:70-71 | `Dedup`, `Array.from(new Set(xs))`, keeps every element once, adds none, and orders them by first occurrence |
| `GenerateDocx.UniqueInOrder` | src/utils/generate-docx.ts:70-71 | the deduplication loop computes that list |
| `GenerateDocx.RecordReportMatches` | src/utils/generate-docx.ts:74-84 | the inner loop records one report's matches, in catalog order |
| `GenerateDocx.CollectInflammations` | src/utils/generate-docx.ts:69-88 | the nested loops give the deduplicated names and inflammations of all matches over all reports; both are empty without reports |
| `GenerateDocx.CollectFromReports` | src/utils/generate-docx.ts:72-84 | the loop over the reports: the group names of all matches in first-recorded order without repeats, and every matched inflammation in order |
| `GenerateDocx.AllMatchesMembers` | src/utils/generate-docx.ts:72-86 | a grouping is recorded exactly when it is in the catalog and matches some report |
| `GenerateDocx.CollectedGroupNames` | src/utils/generate-docx.ts:69-86 | the group-name set holds the name of every grouping that matches any report (every match, not only the first), each once, and nothing else |
| `GenerateDocx.CollectedInflammations` | src/utils/generate-docx.ts:70-88 | the inflammation list is the duplicate-free union of the matching groupings' inflammations, and each names a condition of some report |
| `GenerateDocx.FirstMatching` | src/utils/generate-docx.ts:92-97 | the first catalog grouping that matches the report, none before it, or none at all |
| `GenerateDocx.EntryIffMatch` | src/utils/generate-docx.ts:90-117 | `Entry`, the `map` callback: a report yields an entry exactly when some grouping matches it, and the entry is its own averages |
| `GenerateDocx.EntriesSpec` | src/utils/generate-docx.ts:89-118 | after `filter(Boolean)`: the entries are exactly those of the reports some grouping matches, one per such report, in report order (an increasing list of report indices pairs each entry with its report) |
| `Optional.PresentIndexed` | src/utils/generate-docx.ts:89-118 | `map` followed by `filter(Boolean)` (`Present`) keeps each present result exactly once, at the position of its element, in order: an increasing list of positions pairs every kept result with its element and covers every element whose result is present |
| `GenerateDocx.SortSorted` | src/utils/generate-docx.ts:119-125 | the sort's output is ascending by scan type |
| `GenerateDocx.SortPermutes` | src/utils/generate-docx.ts:119-125 | the sort's output is a permutation of its input |
| `GenerateDocx.SortStable` | src/utils/generate-docx.ts:119-125 | for every scan type, the entries of that type keep their input order |
| `GenerateDocx.SortSpec` | src/utils/generate-docx.ts:119-125 | `SortByScanType`: the sort is ascending by scan type, a permutation, and stable (equal scan types keep their order) |
| `GenerateDocx.ScanTypesSpec` | src/utils/generate-docx.ts:89-125 | `scanTypes` is absent exactly without reports; otherwise it is the contributing entries, sorted and stable |
| `GenerateDocx.RemoveFirstPercent` | src/utils/generate-docx.ts:105 | `replace("%", "")` removes exactly the first `%`, and leaves text without `%` unchanged |
| `GenerateDocx.RemoveTrailingPercent` | src/utils/generate-docx.ts:105 | a `%` after text without one is the `%` that goes |
| `GenerateDocx.NumberValueOfDigits` | src/utils/generate-docx.ts:105 | `Number` of a string of digits (`NumberValue`) is the number they write |
| `GenerateDocx.UnsignedNumber` | src/utils/generate-docx.ts:105 | `Number` of text that starts and ends with a digit and reads as an unsigned decimal is that decimal |
| `GenerateDocx.PercentNumberOfDigits` | src/utils/generate-docx.ts:105 | a whole-number percentage (`PercentNumber`) converts to the number before its `%` |
| `GenerateDocx.TotalScaleAppend` | src/utils/generate-docx.ts:98-101 | the scale reduce (`TotalScale`) over a concatenation is the sum of the totals of its parts |
| `GenerateDocx.SumAppend` | src/utils/generate-docx.ts:102-107 | a `reduce` that adds numbers (`Sum`) over a concatenation is the sum of the parts' sums |
| `GenerateDocx.SumNaN` | src/utils/generate-docx.ts:102-107 | such a sum is `NaN` exactly when one of its terms is |
| `GenerateDocx.TotalPercentageAppend` | src/utils/generate-docx.ts:102-107 | the percentage reduce (`TotalPercentage`) over a concatenation is the sum of the totals of its parts |
| `GenerateDocx.TotalPercentageNaN` | src/utils/generate-docx.ts:102-107 | the percentage total is `NaN` exactly when some condition's percentage converts to `NaN` |
| `GenerateDocx.MeanSpec` | src/utils/generate-docx.ts:110-112 | `Mean` is a number exactly when there is at least one condition and the total is a number, and then it times the count gives the total back |
| `GenerateDocx.AveragesSpec` | src/utils/generate-docx.ts:108-113 | an entry (`Averages`) carries the report's scan type; the scale average is a number exactly for a non-empty report and times the count gives the scale total; the percentage average is a number exactly when the report is non-empty and its percentage total is a number, and times the count it gives that total |
| `GenerateDocx.ParsedPercentIsFinite` | src/utils/generate-docx.ts:105 | a percentage as the parser produces it converts to a finite number |
| `GenerateDocx.TotalPercentageFinite` | src/utils/generate-docx.ts:102-107 | the percentage total of well-formed conditions is finite |
| `GenerateDocx.ParsedAveragesFinite` | src/utils/generate-docx.ts:98-113 | for a non-empty parsed report, both averages are numbers, not `NaN` |
| `GenerateDocx.AveragesExample` | src/utils/generate-docx.ts:98-113 | scales 10 and 20 with 50% and 30% average to 15 and 40 |
| `GenerateDocx.RowsUpTo` | src/utils/generate-docx.ts:1347-1426 | the first n pairs of dynamics give 2n rows |
| `GenerateDocx.LeadershipRows` | src/utils/generate-docx.ts:1347-1426 | the loop that steps by two pushes exactly the reference table: two rows per started pair, in order |
| `GenerateDocx.RowsUpToPair` | src/utils/generate-docx.ts:1350-1423 | rows 2p and 2p + 1 are pair p's heading row and value row, however many pairs follow |
| `GenerateDocx.TableLength` | src/utils/generate-docx.ts:1347-1426 | n dynamics give n + n mod 2 rows: a lone last dynamic still gets two rows |
| `GenerateDocx.LeadershipRowsSpec` | src/utils/generate-docx.ts:1347-1426 | for n dynamics there are n + n mod 2 rows; row 2p holds the heading cells (`title : titleDescription`) of dynamics 2p and 2p + 1, row 2p + 1 their value cells, and the right cells are blank when dynamic 2p + 1 is missing |
| `GenerateDocx.TableTexts` | src/utils/generate-docx.ts:1350-1423 | what the cells show (`CellText` of `HeadingRow` and `ValueRow` cells): dynamic k sits on side k mod 2 of pair k / 2, with `title : titleDescription` in the heading row and the value in the value row; a lone last dynamic leaves both right cells empty |

## Left out

- Reading the file (`fs.readFile`, src/utils/parse-and-extract-idn-report.ts:14) is I/O. The model takes the content string as input.
- The whole docx tree, `Packer.toBuffer`, and the image, directory and file I/O of `generateRichDocument` are left out. They are foreign library calls and filesystem access.
- The reference-data loaders (`ReferenceDataService`) are database calls. The catalogs are parameters. The loader for the inflammation groupings is not part of this model; its shape (`groupName`, `inflammations`) is taken from its use.
- The per-client append-or-replace-by-scan-type merge of stored reports appears in none of the modelled files, so it is not modelled.
- Averages: the means are exact rationals. The model does not compute the `toFixed(1)` rounding, and the totals are exact rather than floating-point sums.
- NumberValue: accepts an optional sign and an unsigned decimal literal, with surrounding whitespace. JavaScript's `Number` also reads exponents, hexadecimal, binary and octal prefixes, and `Infinity`; these come out `NaN` in the model. The parser never produces them (`ScanWellFormed`, `ParsedPercentIsFinite`).
- Mean: an empty report gives `NaN` (`0 / 0`). A non-zero total over zero conditions, which cannot arise, is not distinguished from it.
- DigitsValue: `Number.parseInt` is exact on unbounded integers here. Loss of precision beyond 2^53 is not modelled.
- Strings are sequences of Unicode characters, not UTF-16 code units. Text outside the Basic Multilingual Plane is therefore not split into surrogate halves, and the `/i` flag folds ASCII letters only.
- A leadership table cell is modelled by what it shows (`Cell`: the heading or the value of one dynamic, or blank), and `CellText` gives its text. The `TableCell`/`Paragraph`/`TextRun` tree, fonts, shading and column widths are docx layout and are left out.
- `idnReports` and `parsedData` being `null` are modelled as `Option`. `scanTypes` is `undefined` exactly when the reports are absent.
- `Condition` is a value. The source's mutable `currentCondition` is never touched after it is pushed, so no aliasing is lost.
- Worker threads, PDF and office conversion services, CRUD controllers, authentication, e-mail and seeding scripts are outside the modelled pipeline.
