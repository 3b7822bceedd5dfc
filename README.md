# TaiwanHouse monitor rules in Dafny

This project models the rules the TaiwanHouse scripts apply to text and
tables, and proves what those rules promise. The scripts are:

- `scripts/monitor_transfer_count.py`, the monitor of building transfer counts;
- `scripts/fetch_and_plot.py`, the older script that plots loan default rates.

The browser, network, file, pandas and matplotlib parts become parameters or
are left out. Everything else is modelled over strings and sequences.

| file | models |
|---|---|
| `wrappers.dfy` | `Option` and `Result` |
| `text.dfy` | the Python string operations the scripts rely on: `strip`, ASCII `lower`, `in`, slicing, `splitlines`, `"\n".join`, integer formatting with `,` and `02d`, digit strings |
| `period.dfy` | `parse_period`, and dropping unparsed rows in `build_taiwan_series` |
| `columns.dfy` | `detect_period_column`, `detect_region_column` |
| `download.dfy` | `guess_extension`, the extension dispatch of `read_table_auto`, the link scoring of `find_download_link` |
| `merge.dfy` | `merge_or_replace_source`: replace when the columns differ, otherwise keep the last row per key |
| `readme.dfy` | `update_readme_timestamp`: section lookup, timestamp removal and insertion, collapsing blank lines, splicing and rendering |
| `report.dfy` | `summarize_error`, `calc_change_ratio`, `format_change`, `find_same_period_last_year`, the x-tick stride of `plot_series` |
| `loan.dfy` | `fetch_and_plot.py`: link selection, sample quarters and rows, the column-role loop with index fallback, city normalisation (in place, on an array), the six-city filter and the stop, rate cleaning |

The imperative parts of the source are methods with loops or in-place updates:

- `update_readme_timestamp`'s scans, splice and `previous_blank` loop;
- `find_download_link`'s best-score loop;
- `drop_duplicates(keep="last")`;
- `fetch_and_plot.py`'s column loop, nested sample loops and in-place `replace`.

Each method is proved equal to a specification function. The lemmas then state
the source's promises about those functions.

Modelling decisions:

- `parse_period` returns one of three outcomes:
  - `Parsed(date, label)`;
  - `Unparsed(text)`, which is the source's `(None, text)`;
  - `InvalidDate(text)`, for a pattern that matched with a quarter or month that makes `datetime(...)` raise. `build_taiwan_series` then fails as a whole (`KeepParsed` is `None`).
- `\d` is ASCII `0`-`9`. `lower()` folds ASCII letters only. `strip()` removes Python's `str.isspace` characters. `splitlines()` breaks at Python's line boundaries, with `\r\n` counted as one break.
- `calc_change_ratio` is exact over the rationals.
- `{ratio:.2f}` rounds the exact ratio half to even. It also prints the minus sign of `-0.0` that IEEE division gives for `0 / previous` when `previous < 0`.
- The timestamp of `update_readme_timestamp` is passed in as a `Clock` value (`datetime.now` is not modelled). Only the README's content is passed in, as a string; the result is `None` when the section header is missing and nothing is written.
- In `fetch_and_plot.py`, `html.unescape` is a function parameter, and the random rates are a sequence of strings passed in.

## Model

| member | source | states |
|---|---|---|
| Text.BlankIffStripsEmpty | scripts/monitor_transfer_count.py:676-679 | `s.strip()` is empty exactly when every character of `s` is white space |
| Text.LStripKeeps | scripts/monitor_transfer_count.py:676 | left strip removes a prefix made only of white space and leaves a non-space first character |
| Text.RStripKeeps | scripts/monitor_transfer_count.py:797 | right strip removes a suffix made only of white space and leaves a non-space last character |
| Text.Strip | scripts/monitor_transfer_count.py:676 | a stripped string begins and ends with non-space, and a string already so delimited is its own strip |
| Text.Take | scripts/monitor_transfer_count.py:680 | `s[:n]` is the prefix of length `min(len(s), n)` |
| Text.ContainsWitness | scripts/monitor_transfer_count.py:143 | `n in h` gives a position where `n` occurs in `h` |
| Text.ContainsInfix | scripts/monitor_transfer_count.py:293-304 | a string containing a word also contains every word inside that word |
| Text.NotContainsFirst | scripts/fetch_and_plot.py:123-128 | a string without the first character of `n` does not contain `n` |
| Text.NatToString | scripts/monitor_transfer_count.py:244 | `str(n)` is a digit string of value `n`, with no leading zero |
| Text.Pad2 | scripts/monitor_transfer_count.py:260 | `f"{m:02d}"` for `m < 100` is two digits of value `m` |
| Text.GroupThousands | scripts/monitor_transfer_count.py:605 | `f"{n:,}"` starts with a digit, and with its commas removed reads back as `n` |
| Text.NatLen | scripts/monitor_transfer_count.py:605 | a number below 1000 prints as at most three digits, so it forms a single group |
| Text.ShortDigitsGrouped | scripts/monitor_transfer_count.py:605 | up to three digits need no comma |
| Text.GroupedAppend | scripts/monitor_transfer_count.py:605 | a comma and three more digits after a grouped string leave it grouped |
| Text.GroupThousandsCommas | scripts/monitor_transfer_count.py:605 | `f"{n:,}"` has a comma exactly at every fourth place from the right, so the groups hold three digits with at most three in front, and it starts with `0` only for 0 |
| Text.FormatGrouped | scripts/monitor_transfer_count.py:605 | `f"{n:,}"` of a signed integer starts with `-` exactly when `n < 0`, and with a digit otherwise; the rest, with its commas removed, is all digits and spells `abs(n)` |
| Text.FormatGroupedCommas | scripts/monitor_transfer_count.py:605 | after the minus sign of a negative number, the grouped magnitude has the same comma layout and no leading zero |
| Text.DigitsValueAppend | scripts/monitor_transfer_count.py:239-240 | the value of concatenated digit strings is the first value shifted by the second's length plus the second value |
| Text.SplitLinesHead | scripts/monitor_transfer_count.py:747 | `splitlines()` gives the text up to the first break, followed by the lines after that break (one or two characters wide) |
| Text.LineEndFirst | scripts/monitor_transfer_count.py:747 | no line break lies before the end of a line |
| Period.Classify | scripts/monitor_transfer_count.py:237-267 | a parsed period has a Gregorian year in 1911..9999 and a month in 1..12; an unparsed text is returned whole |
| Period.ParsePeriod | scripts/monitor_transfer_count.py:234-267 | as `Classify`, after stripping and removing spaces; an unparsed result carries that normalised text |
| Period.NormalizeNoSpace | scripts/monitor_transfer_count.py:235 | text without white space is unchanged by normalisation |
| Period.QuarterForm | scripts/monitor_transfer_count.py:237-244 | 2 to 4 digits, then `Q`, `q` or `季`, then one digit, give the quarter result for that year and digit; this match is tried before any month pattern |
| Period.QuarterStartsQuarter | scripts/monitor_transfer_count.py:242 | a parsed quarter label yields month 1, 4, 7 or 10, i.e. `(q - 1) * 3 + 1` |
| Period.SplitForm | scripts/monitor_transfer_count.py:246-260 | 2 to 4 year digits, then `年` with a `月` suffix, `/` or `-`, or `M`/`m`, then 1 or 2 month digits, give the month result for those numbers |
| Period.SplitNotQuarter | scripts/monitor_transfer_count.py:237-249 | such a split label never matches the quarter pattern |
| Period.CompactForm | scripts/monitor_transfer_count.py:250-260 | six digits split 4+2 and five digits split 3+2 into year and month |
| Period.SplitMatchShape | scripts/monitor_transfer_count.py:246-249 | a separated month pattern that matches splits the text into year digits, separator, month digits and suffix |
| Period.ClassifyShapes | scripts/monitor_transfer_count.py:237-267 | conversely, a text that is not left unparsed has the quarter shape, a separated month shape or the 4+2 / 3+2 compact shape |
| Period.DigitsOnlyNoSplit | scripts/monitor_transfer_count.py:247-249 | a plain digit string matches none of the separated month patterns |
| Period.EndsInDigit | scripts/monitor_transfer_count.py:247 | a text ending in a digit does not match the `年…月` pattern |
| Period.MonthlyYearBound | scripts/monitor_transfer_count.py:246-252 | every month pattern yields a year below 10000 |
| Period.MatchQuarter | scripts/monitor_transfer_count.py:237 | definition of `^(\d{2,4})[Qq季](\d)$` with its two groups; `QuarterForm` and `ClassifyShapes` relate it to the label shape |
| Period.MatchSplit | scripts/monitor_transfer_count.py:246-249 | definition of the three separated month patterns with their groups; `SplitForm` and `SplitMatchShape` relate it to `SplitShape` |
| Period.MatchCompact | scripts/monitor_transfer_count.py:250-251 | definition of `^(\d{4})(\d{2})$` and `^(\d{3})(\d{2})$`; `CompactForm` and `ClassifyShapes` relate it to the all-digit shape |
| Period.QuarterLabelParses | scripts/monitor_transfer_count.py:244 | the label `"{year}Q{q}"` parses back to month `(q - 1) * 3 + 1` of that year, with the same label |
| Period.MonthLabelParses | scripts/monitor_transfer_count.py:260 | the label `"{year}-{MM}"` parses back to that year and month, with the same label |
| Period.ParsedLabelForm | scripts/monitor_transfer_count.py:244-260 | every parsed result carries one of the two normalised label forms, `YYYYQn` or `YYYY-MM`, matching its date |
| Period.NormalLabelParses | scripts/monitor_transfer_count.py:244-260 | a result with a normalised label is what that label parses to |
| Period.LabelIsFixedPoint | scripts/monitor_transfer_count.py:234-260 | parsing the label of a parsed period gives the same result again |
| Period.QuarterOf | scripts/monitor_transfer_count.py:242 | each of the months 1, 4, 7 and 10 is `(q - 1) * 3 + 1` for a quarter `q` in 1..4 |
| Period.ParseAll | scripts/monitor_transfer_count.py:474-476 | each row's period is parsed, and its value kept beside it, position by position |
| Period.KeepParsed | scripts/monitor_transfer_count.py:477 | dropping unparsed rows never lengthens the series |
| Period.KeepParsedDefined | scripts/monitor_transfer_count.py:474-477 | the series exists exactly when no row raised on an invalid date |
| Period.KeepParsedSound | scripts/monitor_transfer_count.py:477 | every kept point comes from a parsed row with the same date, label and value |
| Period.KeepParsedComplete | scripts/monitor_transfer_count.py:477 | every parsed row is kept |
| Period.KeepParsedOrder | scripts/monitor_transfer_count.py:477 | dropping unparsed rows distributes over concatenation, so the rows keep their order |
| Columns.FirstWithKeyword | scripts/monitor_transfer_count.py:141-144 | the index of the first column whose lower-cased name contains a keyword, or the length when none does |
| Columns.DetectPeriodColumn | scripts/monitor_transfer_count.py:139-145 | the first column with a period keyword; `columns[0]` when none has one; an error for no columns |
| Columns.DetectRegionColumn | scripts/monitor_transfer_count.py:196-202 | None exactly when no column has a region keyword; otherwise the first column that has one |
| Columns.KeywordCase | scripts/monitor_transfer_count.py:140-142 | the match ignores ASCII case: two column names that differ only in the case of ASCII letters match the same keywords |
| Columns.KeywordLower | scripts/monitor_transfer_count.py:140-142 | lower-casing a column name before the match changes nothing |
| Download.GuessExtension | scripts/monitor_transfer_count.py:148-158 | the result is `.xlsx`, `.xls` or `.csv`; `.xlsx` exactly when a header names xlsx; `.xls` exactly when none does but one names excel or `.xls` |
| Download.XlsxNameWins | scripts/monitor_transfer_count.py:152-155 | a disposition naming `.xlsx` also contains `.xls`, and still gives `.xlsx`, because that test comes first |
| Download.ReaderFor | scripts/monitor_transfer_count.py:112-136 | `.csv` and `.txt` are read as CSV, `.xlsx` and `.xls` as Excel, anything else tries CSV and then Excel |
| Download.GuessedExtensionIsRead | scripts/monitor_transfer_count.py:148-158 | a guessed extension never reaches the fallback reader, and it is read as Excel exactly when it is not `.csv` |
| Download.TargetScore | scripts/monitor_transfer_count.py:292-304 | a haystack with the dataset's name scores at least 175 |
| Download.ScoreAll | scripts/monitor_transfer_count.py:276-310 | each link is skipped when its haystack is blank, and otherwise gets its additive score |
| Download.Haystack | scripts/monitor_transfer_count.py:277-287 | definition: the five stripped fields joined by single spaces |
| Download.Score | scripts/monitor_transfer_count.py:292-310 | definition: the sum of the source weights of the phrases the haystack contains, with `csv` and `.xls` matched after lower-casing; `TargetScore` bounds it for the dataset name |
| Download.FirstBest | scripts/monitor_transfer_count.py:312-317 | a chosen index has the highest score, strictly above every earlier one, and at least the threshold; none is chosen only when every score is below the threshold |
| Download.FindDownloadLink | scripts/monitor_transfer_count.py:270-317 | the link chosen is the first one with the highest score, and only when that score is at least 30; otherwise no link scores 30 |
| Download.TargetLinkQualifies | scripts/monitor_transfer_count.py:287-317 | a link whose haystack names the dataset is a candidate that clears the threshold |
| Download.NonBlankStrip | scripts/monitor_transfer_count.py:288 | a string with a non-space character does not strip to nothing |
| Merge.KeyOf | scripts/monitor_transfer_count.py:378-382 | a row's key has one entry per key column |
| Merge.KeySet | scripts/monitor_transfer_count.py:382 | the set of keys holds exactly the keys of the rows |
| Merge.DropDuplicatesKeepLast | scripts/monitor_transfer_count.py:382 | the loop computes `drop_duplicates(keep="last")` as specified by `KeepLast` |
| Merge.KeepLastUniqueKeys | scripts/monitor_transfer_count.py:382 | no two kept rows share a key |
| Merge.KeepLastKeys | scripts/monitor_transfer_count.py:382 | the kept rows have exactly the keys of the input |
| Merge.KeptKeyOccurs | scripts/monitor_transfer_count.py:382 | every kept key occurs in the input |
| Merge.KeepLastKeepsLast | scripts/monitor_transfer_count.py:382 | every row that is the last with its key is kept |
| Merge.KeepLastKeepsOnlyLast | scripts/monitor_transfer_count.py:382 | every kept row is an input row that is the last with its key |
| Merge.KeepLastOrder | scripts/monitor_transfer_count.py:382 | the kept rows are a subsequence of the input, in order |
| Merge.KeyColumns | scripts/monitor_transfer_count.py:375-380 | the key is the period column, then the region column when one is found; an error for no columns |
| Merge.KeepLast | scripts/monitor_transfer_count.py:382 | definition of `keep="last"`: a row stays when no later row has its key; the `KeepLast…` lemmas characterise it |
| Merge.Merged | scripts/monitor_transfer_count.py:359-382 | definition of the outcome: the new table when nothing is stored or the column sets differ, otherwise the stacked rows under `KeepLast`; `ReplaceOnNewColumns`, `NewRowsWin` and `MergedKeys` state its properties |
| Merge.MergeOrReplace | scripts/monitor_transfer_count.py:359-384 | the method computes `Merged`: the new table when no file is stored or the column sets differ, otherwise the concatenation with the last row per key |
| Merge.ReplaceOnNewColumns | scripts/monitor_transfer_count.py:369-372 | differing column sets give exactly the new table |
| Merge.NewRowsWin | scripts/monitor_transfer_count.py:374-382 | a new row that is the last of the new rows with its key survives the merge |
| Merge.MergedKeys | scripts/monitor_transfer_count.py:369-382 | with equal column sets the merge succeeds; its keys are those of old and new rows together, and each occurs once |
| Readme.FirstWhere | scripts/monitor_transfer_count.py:748-761 | the first index from `from` whose line passes the test, or the length; every line before it fails the test |
| Readme.FirstWhereUnique | scripts/monitor_transfer_count.py:748-752 | any index with those properties is the one found |
| Readme.FindFirst | scripts/monitor_transfer_count.py:749-770 | the scanning loop finds `FirstWhere` |
| Readme.DropLines | scripts/monitor_transfer_count.py:764 | the filtering loop keeps the lines that are not timestamp lines, as `Without` |
| Readme.WithoutCount | scripts/monitor_transfer_count.py:764 | no line that passes the test is left |
| Readme.WithoutKeeps | scripts/monitor_transfer_count.py:764 | every line that fails the test is kept |
| Readme.BeforeTrailingBlanks | scripts/monitor_transfer_count.py:779-781 | the index walked back to has only blank lines after it, and the line before it is not blank |
| Readme.WalkBackBlanks | scripts/monitor_transfer_count.py:779-781 | the `insert_index` loop computes `BeforeTrailingBlanks` |
| Readme.InsertAt | scripts/monitor_transfer_count.py:783-785 | slice assignment `s[i:i] = xs` adds exactly `len(xs)` lines |
| Readme.InsertKeeps | scripts/monitor_transfer_count.py:783-785 | inserting lines keeps every existing line |
| Readme.InsertStamp | scripts/monitor_transfer_count.py:766-785 | the method inserts the timestamp before the image, or with the image before the marker line or before the trailing blanks |
| Readme.StampedSection | scripts/monitor_transfer_count.py:766-786 | definition of where the new lines go: before the image, else with the image before `監控內容：`, else before the trailing blanks; `NewSectionShape` states the result |
| Readme.Collapse | scripts/monitor_transfer_count.py:787-795 | definition of the `previous_blank` loop; `CollapseNoDoubleBlank`, `CollapseKeeps` and `CollapseCount` state its properties |
| Readme.StampedCount | scripts/monitor_transfer_count.py:764-785 | after removing old timestamps, exactly one timestamp line is present once the new one is inserted |
| Readme.CollapseBlankLines | scripts/monitor_transfer_count.py:787-794 | the `previous_blank` loop computes `Collapse` |
| Readme.CollapseNoDoubleBlank | scripts/monitor_transfer_count.py:787-794 | the collapsed lines have no two adjacent blank lines, and none leads when the previous line was blank |
| Readme.CollapseKeeps | scripts/monitor_transfer_count.py:787-794 | every non-blank line survives collapsing |
| Readme.CollapseCount | scripts/monitor_transfer_count.py:787-794 | collapsing keeps the number of lines of any kind that is never blank |
| Readme.CollapseAppend | scripts/monitor_transfer_count.py:787-794 | collapsing a concatenation collapses each part, the second part starting from the blankness of the first part's last line |
| Readme.NewSectionKeeps | scripts/monitor_transfer_count.py:763-794 | every non-blank, non-timestamp line of the old section is in the new section |
| Readme.NewSectionCount | scripts/monitor_transfer_count.py:764-794 | the new section has exactly one timestamp line |
| Readme.NewSectionShape | scripts/monitor_transfer_count.py:763-794 | the new section keeps its header first, has exactly one timestamp line, no two adjacent blank lines, and the timestamp right above a blank line and the image |
| Readme.StampLinesNotBlank | scripts/monitor_transfer_count.py:742 | a timestamp line is never blank |
| Readme.HeaderLine | scripts/monitor_transfer_count.py:740-750 | the header line is not blank, not a timestamp, not the image and not the marker |
| Readme.ImageLineIsImage | scripts/monitor_transfer_count.py:741 | the inserted image line is recognised as the image and is not a timestamp line |
| Readme.FormatStampIsStampLine | scripts/monitor_transfer_count.py:736-742 | every timestamp the clock formats matches the timestamp pattern, so the next run removes it |
| Readme.FormatStamp | scripts/monitor_transfer_count.py:736-738 | definition of `strftime("Update time: %Y-%m-%d %H:%M:%S CST")`; `FormatStampIsStampLine` states that it matches `update_pattern` |
| Readme.PatchNone | scripts/monitor_transfer_count.py:748-755 | nothing is written exactly when no line strips to the section header |
| Readme.PatchFound | scripts/monitor_transfer_count.py:748-763 | with the header found, the patch is the splice of the new section between `start` and the next `### ` line |
| Readme.Patch | scripts/monitor_transfer_count.py:748-796 | definition: None without the header, else the splice of the new section; `PatchNone`, `PatchFound` and `PatchedSection` state its properties |
| Readme.Splice | scripts/monitor_transfer_count.py:796 | `lines[:start] + new + lines[end:]` keeps both outer parts and has `new` in between |
| Readme.SplicedShape | scripts/monitor_transfer_count.py:763-796 | the splice keeps the lines before the header and from the next `### ` line on, and its section has the shape of `NewSectionShape` |
| Readme.PatchedSection | scripts/monitor_transfer_count.py:748-796 | with the header present: the lines before it and from the next `### ` line on are unchanged; the section between keeps its header, has exactly one timestamp line, no two adjacent blank lines, and the timestamp above the image |
| Readme.PatchLines | scripts/monitor_transfer_count.py:747-796 | the method's loops compute `Patch` |
| Readme.Render | scripts/monitor_transfer_count.py:797 | the text ends with one newline after a non-space character, and is the joined lines with only trailing white space removed |
| Readme.UpdateReadmeTimestamp | scripts/monitor_transfer_count.py:731-800 | the method writes `UpdatedReadme` for the formatted timestamp: nothing without the header, else the rendered patch |
| Report.FirstNonBlank | scripts/monitor_transfer_count.py:679 | the first line that does not strip to nothing, every line before it blank |
| Report.NonBlankHasLine | scripts/monitor_transfer_count.py:679 | text with a non-space character has a non-blank line, so the fallback to the whole text is never taken |
| Report.NonBlankLine | scripts/monitor_transfer_count.py:679 | gives the index of such a non-blank line |
| Report.LineBreakIsSpace | scripts/monitor_transfer_count.py:676-679 | every line break is white space for `strip()` |
| Report.SummarizeError | scripts/monitor_transfer_count.py:675-680 | `未知錯誤` for blank text; otherwise the first non-blank line, stripped and cut to 300 characters, which starts with a non-space character |
| Report.ChangeRatio | scripts/monitor_transfer_count.py:590-593 | None exactly when there is no previous count or it is 0; otherwise the ratio times the previous count is `(current - previous) * 100` |
| Report.RatioSign | scripts/monitor_transfer_count.py:590-593 | the ratio is 0 exactly when the counts are equal, and its sign is the sign of the change relative to the previous count's sign |
| Report.RoundHalfEven | scripts/monitor_transfer_count.py:606 | the result is within half a unit of `a / b`, and even on a tie |
| Report.Fixed2 | scripts/monitor_transfer_count.py:606 | `{:.2f}` of `n` hundredths: digits, a point and two digits that read back as `n`; a leading `0` is the whole part by itself, and only below 1.00 |
| Report.CountText | scripts/monitor_transfer_count.py:600-605 | `f"{sign}{delta:,} 棟"` starts with `+` exactly when the difference is not negative, with `-` exactly when it is, and ends with ` 棟`; between sign and unit, with its commas removed, it spells `abs(delta)` in digits |
| Report.CountTextCommas | scripts/monitor_transfer_count.py:605 | between the sign and the unit, the count text has the comma layout of `{delta:,}` and starts with `0` only for a zero difference |
| Report.PercentText | scripts/monitor_transfer_count.py:606 | definition: an optional minus sign, then `Fixed2` of the rounded hundredths of the magnitude; `PercentSign` and `PercentNearest` state its sign and its value |
| Report.FormatChange | scripts/monitor_transfer_count.py:596-606 | `資料不足` without a previous count; otherwise it starts with `+` exactly when the count did not fall, with `-` exactly when it fell, and ends with `)` exactly when a percentage follows; it begins with the count text of `current - previous`, is only that when the previous count is 0, and otherwise continues with ` (`, the difference's `+` (nothing when it is negative), the percentage text and `%)` |
| Report.PercentSign | scripts/monitor_transfer_count.py:600-606 | the percentage shows a minus sign exactly when the ratio is negative, or is zero over a negative previous count |
| Report.PercentNearest | scripts/monitor_transfer_count.py:606 | the printed hundredths are within half a hundredth of the ratio's magnitude |
| Report.NearestFor | scripts/monitor_transfer_count.py:606 | a rounding within half of `a / b` is within half a hundredth of the ratio |
| Report.LastSamePeriod | scripts/monitor_transfer_count.py:613-620 | the last index below `n` with the given month one year earlier; None exactly when there is none |
| Report.FindSamePeriodLastYear | scripts/monitor_transfer_count.py:609-620 | the last row with the latest row's month one year before it; None exactly when no row has it |
| Report.Multiples | scripts/monitor_transfer_count.py:561 | `range(start, n, step)`: entry `j` is `start + j * step`, all below `n`, and none is missing |
| Report.TickStride | scripts/monitor_transfer_count.py:559-560 | the stride is at least 1 |
| Report.TickIndices | scripts/monitor_transfer_count.py:559-563 | definition: the multiples of `max(1, n // 12)` below `n` above 24 points, else every index; `TickPositions`, `TickMembership` and `TickCount` state what they are |
| Report.TickPositions | scripts/monitor_transfer_count.py:559-563 | tick `k` is `k * stride`, every tick is an index of the series, and the first tick is 0 |
| Report.TickMembership | scripts/monitor_transfer_count.py:559-563 | an index is a tick exactly when it is in range and a multiple of the stride |
| Report.TickCount | scripts/monitor_transfer_count.py:559-563 | up to 24 points every index is a tick; above 24 there are 12 to 18 ticks; the ticks reach the end of the series |
| LoanDefault.FindCsvLink | scripts/fetch_and_plot.py:45-58 | the first link whose unescaped title contains the target, with its unescaped href; None exactly when no title contains it |
| LoanDefault.SampleQuarters | scripts/fetch_and_plot.py:87-90 | 24 labels; label `k` is year `108 + k / 4` and quarter `k % 4 + 1`, so `108Q1` to `113Q4`, year-major |
| LoanDefault.SampleRows | scripts/fetch_and_plot.py:94-99 | one row per (quarter, city) pair, quarter-major: row `k` has quarter `k / |cities|`, city `k % |cities|` and the `k`-th drawn rate with `%` |
| LoanDefault.SampleData | scripts/fetch_and_plot.py:87-99 | the script's sample has 144 rows; row `k` has quarter `108 + k / 6 / 4` with quarter number `k / 6 % 4 + 1`, the `k % 6`-th of the six cities, and the `k`-th drawn rate with `%` |
| LoanDefault.SamplePair | scripts/fetch_and_plot.py:94-99 | every (quarter, city) pair has its row |
| LoanDefault.SampleStep | scripts/fetch_and_plot.py:95-99 | appending the next pair keeps the layout of the rows built so far |
| LoanDefault.LastWithRole | scripts/fetch_and_plot.py:122-128 | the last column below `n` with the role; None exactly when none has it |
| LoanDefault.RoleOf | scripts/fetch_and_plot.py:123-128 | definition of the `if`/`elif` tests on one column name; `TimeAt`, `RegionAt` and `RateAt` state the branch order |
| LoanDefault.MappedColumns | scripts/fetch_and_plot.py:118-134 | definition: the last column of each role when all three are found, else columns 0, 1 and 2, else an error; `RolesFound` and `RolesFallback` state its properties |
| LoanDefault.NormalCity | scripts/fetch_and_plot.py:140-144 | definition of `replace(normalized_cities)` on one cell; `NormalCityInSix` states its properties |
| LoanDefault.SixCityRows | scripts/fetch_and_plot.py:145 | a filter never lengthens the table; `SixCityRowsKeeps` and `SixCityOrder` state which rows it keeps |
| LoanDefault.MapColumns | scripts/fetch_and_plot.py:118-134 | the column loop and its fallback compute `MappedColumns` |
| LoanDefault.RolesFound | scripts/fetch_and_plot.py:122-130 | when every role is found, each column has its role, the three are distinct, and each is the last of its role |
| LoanDefault.RolesFallback | scripts/fetch_and_plot.py:130-134 | when a role is missing, the columns are 0, 1 and 2, or an error for fewer than three columns |
| LoanDefault.TimeAt | scripts/fetch_and_plot.py:123-124 | a column with `季` is the time column |
| LoanDefault.RegionAt | scripts/fetch_and_plot.py:123-126 | a column with `縣市` but no time mark is the region column |
| LoanDefault.RateAt | scripts/fetch_and_plot.py:123-128 | a column with `率` but no time or region mark is the rate column |
| LoanDefault.MappedByName | scripts/fetch_and_plot.py:122-130 | three columns of the three roles in order map by name |
| LoanDefault.SampleColumnsMapped | scripts/fetch_and_plot.py:99-130 | the sample's columns map by name, without the fallback |
| LoanDefault.NormalCityInSix | scripts/fetch_and_plot.py:139-145 | a normalised name is one of the six cities exactly when it was one or was an alias; names that are not aliases are unchanged; normalising twice is normalising once |
| LoanDefault.NormalizedRows | scripts/fetch_and_plot.py:144 | each row has its city normalised and nothing else changed |
| LoanDefault.NormalizeRegions | scripts/fetch_and_plot.py:144 | the in-place `replace` leaves the table as `NormalizedRows` of the old one |
| LoanDefault.SixCityRowsKeeps | scripts/fetch_and_plot.py:145 | exactly the rows in one of the six cities are kept, and the result is empty exactly when no row is in one |
| LoanDefault.SixCityOrder | scripts/fetch_and_plot.py:145 | the filter keeps the rows' order |
| LoanDefault.AllSixCities | scripts/fetch_and_plot.py:145 | rows that are all in the six cities pass the filter unchanged |
| LoanDefault.CleanRates | scripts/fetch_and_plot.py:153 | each rate has every `%` removed, and nothing else changes |
| LoanDefault.RemovedCharAbsent | scripts/fetch_and_plot.py:153 | no `%` is left after removing it |
| LoanDefault.PrepareTable | scripts/fetch_and_plot.py:118-153 | the method computes `PreparedTable`, and normalises the table's cities in place exactly when the columns map |
| LoanDefault.StopsWithoutSixCities | scripts/fetch_and_plot.py:144-150 | the script stops exactly when no row's city, after normalisation, is one of the six |
| LoanDefault.ReadyRows | scripts/fetch_and_plot.py:145-153 | rows that reach the plot are not empty, all in the six cities, with rates free of `%` |
| LoanDefault.AllRowsReady | scripts/fetch_and_plot.py:144-153 | rows already in the six cities reach the plot with only their rates cleaned |
| LoanDefault.AsRows | scripts/fetch_and_plot.py:99-101 | each sample row becomes a table row under the sample's three columns |
| LoanDefault.SampleSurvives | scripts/fetch_and_plot.py:80-153 | sample data whose cities are the six never stops the script, and every sample row reaches the plot |

## Left out

- Browser automation is not modelled, because it is driven by an external library with timed polling. This covers `setup_driver`, `is_rejected_page`, `wait_for_download`, `download_csv` and the page access inside `find_download_link`. `find_download_link` is modelled on the link attributes it reads.
- HTTP sessions and `download_direct_export` are not modelled: they are network I/O.
- File reading and writing are not modelled: `read_csv_auto`, the Excel engines, the report and SVG writers, and removing the download. `merge_or_replace_source` takes the stored table as an `Option` ("no file" is `None`). `update_readme_timestamp`'s early return when README.md does not exist is part of this file I/O: the model starts from an existing file's content.
- `detect_value_column` and the value coercion of `build_taiwan_series` are not modelled. They rest on `pd.to_numeric`.
- The nationwide-row selection and the group-by sums of `build_taiwan_series` are not modelled. They are pandas aggregation over float values.
- Period.ParsePeriod: the `pd.to_datetime` fallback is modelled as "no match", because it is opaque library parsing. A text it would parse is `Unparsed` here.
- Period.ParsePeriod: `\d` matches only ASCII digits. Python also matches other Unicode decimal digits.
- Columns.DetectPeriodColumn: `lower()` is modelled on ASCII letters only.
- Report.ChangeRatio: the ratio is exact. The source divides floating-point numbers.
- Report.PercentNearest: stated over the exact ratio equation. Python rounds the nearest double, not the exact rational, so the last digit can differ on inputs at a rounding boundary.
- Report.FormatChange: the digits of the percentage are stated through `PercentText`, `PercentNearest` and `Fixed2`, not as one equation; the count's digits and the layout of the text are stated directly.
- Plotting, the CJK font search and the `latest_text` annotation of `plot_series` are not modelled: they are presentation. Only the tick selection is modelled.
- `write_monitor_report` and `write_unavailable_report` are not modelled: they write files.
- `datetime.now` is not modelled. The timestamp components are a `Clock` parameter.
- In `fetch_and_plot.py`, the random rates are a parameter.
- `urljoin` is not modelled. `FindCsvLink` returns the unescaped href, before it is joined to the base URL.
- The pivot table and plot of `fetch_and_plot.py` are not modelled. Neither is `pd.to_numeric` on the rates, so a cleaned rate stays a string.
- LoanDefault.SampleRows: the 2-decimal rounding of the random rate is not modelled. The drawn rate strings are given.
- `scripts/test_chrome.py` is not modelled: it is an environment diagnostic.
