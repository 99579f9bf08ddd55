# OTRS ticket analysis, modelled in Dafny

This project models the analysis core of `analyze_tickets.py`. That script reads an OTRS ticket export (one spreadsheet row per ticket) and reports on it:

- **Column resolution.** It decides which headers stand for the created date, closed date, state and ticket number. A header matches when its lower-cased text contains the lower-cased text of an alias, and the first matching header wins. When nothing matches, the closed column falls back to the literal `State`.
- **Statistics.** It counts new and closed tickets per day, merges the two on the sorted union of days, counts the open tickets and tallies the states.
- **Empty first responses.** It lists tickets whose first-response cell is NaN or empty, drops those whose state reads closed or resolved, and breaks the rest down by priority in the fixed order `1 very high`, `2 high`, `3 normal`, then the rest.
- **Open tickets.** Tickets whose raw closed cell is empty are counted by priority, and by age in four ranges. The ages come from `parse_age_to_hours`, which reads free text such as `2 h 10 m` or `1 d 12 h` as a number of hours.

How the model is built:

- **Tables.** A table is a `Sheet`: its headers plus a sequence of rows. Each row maps a header to a `Cell`, which is missing, text, a date-time or a number of hours.
- **The DataFrame.** The object the script adds derived columns to (`age_hours`, `created_date`, `closed_date`, `closed_date_temp`) is the class `Table.DataFrame`. Its `SetColumn` is specified by the pure function `Table.WithColumn`.
- **Column scans become methods.** The loops that search the headers are methods proved against functions. `Columns.FindColumn` is the scan that stops at the first matching header. It serves as the inner loop of the resolver (analyze_tickets.py:67-72, `Columns.ResolveColumns`), the first-response scan (analyze_tickets.py:221-224) and the closed-column scan (analyze_tickets.py:394-397, `Columns.FindClosedColumn`). The analysis passes that add columns in place are methods too (`Statistics.AnalyzeTicketStatistics`, `OpenTickets.AnalyzeOpenTicketsByAge`, `Report.PrepareData`, `Report.GenerateOutput`). The loop that builds the day-by-day table (analyze_tickets.py:130-133) only reads, so it is the function `Statistics.MergeDaily`. The loops that print are left out.
- **Pure logic becomes functions.** The duration parser, the counts, the merge and the rank sort are functions with lemmas.
- **Exact arithmetic.** Hours are `real`, so `minutes / 60` is exact.

Modules:

- `text.dfy`: lower-casing and substring search.
- `seqs.dfy`: selections, frequency tables and a stable insertion sort.
- `table.dfy`: cells, rows, the DataFrame, date conversion and `value_counts`.
- `columns.dfy`: the resolver.
- `age.dfy`: the duration parser.
- `statistics.dfy`: `analyze_ticket_statistics` and `analyze_otrs_tickets`.
- `first_response.dfy`: the empty-first-response analysis.
- `open_tickets.dfy`: the open tickets by priority and by age.
- `report.dfy`: `prepare_data`, `generate_output` and the main flow.

## Model

| member | source | states |
|---|---|---|
| Text.Contains | analyze_tickets.py:70 | Python's `needle in hay`: true exactly when the needle occurs at some index; the empty needle always occurs |
| Columns.FirstMatchSpec | analyze_tickets.py:66-72 | a field resolves to nothing exactly when no header contains any alias (case-insensitively); otherwise it resolves to the first header in column order that does |
| Columns.FirstMatchUnique | analyze_tickets.py:68-72 | the header the scan settles on is unique |
| Columns.FindColumn | analyze_tickets.py:68-72 | the scan with `break` returns the first matching header, or none exactly when no header matches |
| Columns.MapFieldsSpec | analyze_tickets.py:66-72 | the map has only field names as keys; a field is a key exactly when some header matches one of its aliases, and then its value is that field's first match |
| Columns.MapFieldsInHeaders | analyze_tickets.py:66-72 | every value of the column map is a header of the table |
| Columns.ColumnMapKeys | analyze_tickets.py:58-63 | the keys of the column map are among `created`, `closed`, `state`, `ticket_number` |
| Columns.ColumnMapSpec | analyze_tickets.py:58-72 | for each of the four fields: present exactly when a header matches one of its aliases, mapped to the first such header |
| Columns.ColumnMapEmpty | analyze_tickets.py:77-81 | the column map is empty exactly when no header matches any alias of any field |
| Columns.ResolveColumns | analyze_tickets.py:66-72 | the nested loops build exactly the column map |
| Columns.FindClosedColumn | analyze_tickets.py:391-402 | the closed-column scan returns the first header matching a closed alias, and `State` when none matches |
| Columns.ClosedColumnAgrees | analyze_tickets.py:66-72 | when a closed header exists, both lookups agree on it; otherwise the column map has no `closed` entry and `prepare_data` falls back to `State` |
| Columns.DerivedNotClosed | analyze_tickets.py:392 | the derived columns `created_date` and `age_hours` never match a closed alias |
| Columns.FirstResponseKeyMatches | analyze_tickets.py:221-223 | a header is the first-response column's candidate exactly when its lower-cased text contains `firstresponse` |
| Age.GreedyMatchIsRegex | analyze_tickets.py:185 | matching digits, then spaces, then the unit letter greedily finds a match at an index exactly when `(\d+)\s*<unit>` matches there, and captures the whole digit run |
| Age.SearchFound | analyze_tickets.py:185 | the search for the leftmost match stops at a position where the pattern matches |
| Age.SearchNotFound | analyze_tickets.py:185 | the search passes over no position where the pattern matches |
| Age.UnitAmountNoMatch | analyze_tickets.py:185-187 | a unit with no match anywhere counts 0 |
| Age.UnitAmountLeftmost | analyze_tickets.py:185-187 | a unit's amount is the decimal value of the digits of its leftmost match |
| Age.UnitAmountAbsent | analyze_tickets.py:191-193 | a unit letter absent from the text counts 0 |
| Age.ParseAgeToHours | analyze_tickets.py:174-175 | the hours are never negative, and a missing age is 0 |
| Age.AgeFromAmounts | analyze_tickets.py:185-204 | given the three unit amounts, the result is `(days*24 + hours) + minutes/60` exactly |
| Age.AgeCaseInsensitive | analyze_tickets.py:178 | texts that lower-case alike parse alike |
| Age.AgeExampleHoursMinutes | analyze_tickets.py:161-204 | `2 h 10 m` is 2 + 10/60 hours |
| Age.AgeExampleDaysHours | analyze_tickets.py:161-204 | `1 d 12 h` is 36 hours |
| Age.AgeExampleDays | analyze_tickets.py:161-204 | `3 d` is 72 hours |
| Age.AgeExampleHours | analyze_tickets.py:161-204 | `2 h` is 2 hours |
| Age.AgeExampleUpperCase | analyze_tickets.py:178 | `2 H` is 2 hours, like `2 h` |
| Age.AgeExampleRepeatedUnit | analyze_tickets.py:191-193 | `1 h 5 h` is 1 hour: a repeated unit keeps its first amount |
| Table.WithColumnSpec | analyze_tickets.py:103 | `df[name] = values` keeps the table well formed and the rows; it writes exactly the given cells under `name` and leaves every other column as it was |
| Table.DataFrame.constructor | analyze_tickets.py:43 | the table object holds the table that was read |
| Table.DataFrame.SetColumn | analyze_tickets.py:103 | the in-place column assignment; the new contents are `WithColumn` of the old |
| Table.ToDatetime | analyze_tickets.py:103 | `to_datetime(errors='coerce')` gives a date-time or NaT; a missing cell stays missing and a date-time passes through |
| Table.DatetimeColumnIdentity | analyze_tickets.py:361-364 | on a column that already holds only date-times and missing cells, converting and copying agree, so both dtype branches give the same `closed_date_temp` |
| Table.PresentAbsentSplit | analyze_tickets.py:116 | every cell is either `notna` or `isna` |
| Table.ValueCountsEntries | analyze_tickets.py:152 | each `value_counts` entry is a non-missing cell of the column with its exact number of occurrences |
| Table.ValueCountsDescending | analyze_tickets.py:152 | `value_counts` lists the most frequent value first |
| Seqs.TallyComplete | analyze_tickets.py:107 | every counted value has an entry |
| Seqs.TallyDistinct | analyze_tickets.py:107 | no value has two entries |
| Seqs.TallyTotal | analyze_tickets.py:107 | the counts add up to the number of values counted |
| Seqs.TallyLookup | analyze_tickets.py:131-132 | `counts.get(x, 0)` is the number of occurrences of `x` |
| Seqs.SortByKey | analyze_tickets.py:273-274 | `sorted` returns a permutation of its input, ordered by the key |
| Seqs.SortByKeyStable | analyze_tickets.py:273-274 | elements with equal keys keep their relative order |
| Statistics.StampDaysCount | analyze_tickets.py:107 | a converted date column has one day per non-missing cell |
| Statistics.DayCountsSpec | analyze_tickets.py:107 | the per-day counts list each day once, in strictly increasing order, each with its exact count, with every day present and a total equal to the number of days |
| Statistics.AnalyzeTicketStatistics | analyze_tickets.py:102-156 | the statistics pass adds `created_date` and `closed_date` in place and returns the daily new counts, the daily closed counts (only when a ticket is closed), the open count and the state tally |
| Statistics.ClosedDateCells | analyze_tickets.py:112 | `closed_date` holds the resolved closed column converted to dates |
| Statistics.DailyNewTotal | analyze_tickets.py:103-107 | the daily new counts add up to the number of creation dates that parse |
| Statistics.OpenPlusClosed | analyze_tickets.py:112-147 | when the closed column is resolved, the open count plus the sum of the daily closed counts is the number of rows |
| Statistics.UnionDaysIncreasing | analyze_tickets.py:128 | the union of days is strictly increasing |
| Statistics.UnionDaysMembers | analyze_tickets.py:128 | a day is in the union exactly when it is a new-ticket day or a closed-ticket day |
| Statistics.MergeDailyLines | analyze_tickets.py:128-133 | each merged line is a day with a ticket created or closed, giving the number created and the number closed that day (0 on a missing side), in strictly increasing day order |
| Statistics.MergeDailyCovers | analyze_tickets.py:128-133 | every day with a ticket created or closed has a line |
| Statistics.DailyTablePresent | analyze_tickets.py:122 | the day-by-day table is printed exactly when there is a created column, a closed column and at least one closed date that parses |
| Statistics.DailyTableLines | analyze_tickets.py:122-133 | when printed, the table of a ticket sheet has one line per day on which a ticket was created or closed, in increasing day order, with that day's created and closed counts |
| Statistics.MergeDailyExample | analyze_tickets.py:128-133 | new counts {1: 2, 2: 1} and closed counts {1: 1} merge to lines (1, 2, 1) and (2, 1, 0) |
| Statistics.AnalysisUnmapped | analyze_tickets.py:77-84 | the raw table comes back, and no statistics are computed, exactly when no header matches any alias |
| Statistics.AnalyzeOtrsTickets | analyze_tickets.py:56-84 | resolves the columns with the nested loops and runs the statistics on a table object of its own |
| FirstResponse.PriorityRank | analyze_tickets.py:272-274 | rank 1, 2 or 3 exactly for the labels `1 very high`, `2 high`, `3 normal` (exact, case-sensitive); 999 for every other value |
| FirstResponse.AnalyzeFirstResponseEmpty | analyze_tickets.py:220-283 | the first-response analysis on the table object, which it leaves unchanged |
| FirstResponse.NoColumnSpec | analyze_tickets.py:221-226 | the analysis lists the headers instead exactly when no header contains `firstresponse`, ignoring case |
| FirstResponse.BlankCount | analyze_tickets.py:230-251 | the blank rows number exactly the NaN cells plus the empty-string cells, both counted over the whole column |
| FirstResponse.KeptRowsSpec | analyze_tickets.py:230-249 | a row is listed exactly when its first-response cell is NaN or empty and, if a `State` column exists, its state does not contain `closed` or `resolved` (ignoring case; a missing state is kept) |
| FirstResponse.ExcludedCount | analyze_tickets.py:237-249 | the excluded count (before minus after) is never negative and equals the number of blank rows whose state reads closed or resolved; without `State` nothing is excluded |
| FirstResponse.DetailColumnsNonEmpty | analyze_tickets.py:255-262 | the detail listing always includes the first-response column, so it always has a column to show |
| FirstResponse.PriorityBreakdownEntries | analyze_tickets.py:265-274 | the breakdown is a permutation of the priority `value_counts`, each line a priority of the listed rows with its exact count |
| FirstResponse.PriorityBreakdownOrdered | analyze_tickets.py:272-274 | the breakdown is ordered `1 very high`, `2 high`, `3 normal`, then every other label |
| FirstResponse.PriorityBreakdownStable | analyze_tickets.py:273-274 | priorities of equal rank keep the order `value_counts` gave them |
| FirstResponse.PriorityBreakdownComplete | analyze_tickets.py:267 | every priority present among the listed rows appears in the breakdown |
| FirstResponse.ClosedOrResolvedIgnoresCase | analyze_tickets.py:239 | the state test ignores case |
| OpenTickets.AnalyzeOpenTicketsByPriority | analyze_tickets.py:303-316 | the open tickets are the rows whose raw closed cell is missing, with their priority `value_counts`; a closed column that is not a header raises `KeyError` |
| OpenTickets.KeyErrorSpec | analyze_tickets.py:303 | the lookup fails exactly when the closed column is not a header |
| OpenTickets.OpenRowsSpec | analyze_tickets.py:303 | a row is open exactly when it is a row whose raw closed cell is missing; there are as many open rows as missing cells |
| OpenTickets.OpenPriorityTotal | analyze_tickets.py:307-312 | the priority counts of the open tickets plus those without a priority add up to the open tickets |
| OpenTickets.BucketsDisjoint | analyze_tickets.py:338-341 | no age falls in two ranges, and every number of hours falls in one |
| OpenTickets.BucketsPartition | analyze_tickets.py:338-341 | the four range counts add up to the number of cells holding hours |
| OpenTickets.OpenAgesBucketed | analyze_tickets.py:334-341 | when every open ticket carries hours, the four range counts add up to the open tickets with an age |
| OpenTickets.AnalyzeOpenTicketsByAge | analyze_tickets.py:332-372 | runs only when `Age` and `age_hours` exist; it returns the four range counts and the tickets created and closed today, and adds `closed_date_temp` in place when `Closed` exists |
| OpenTickets.RawOpenAtMostParsedOpen | analyze_tickets.py:146 | the rows open by the raw closed cell are at most the rows open by the parsed closed date |
| OpenTickets.AbsentConvertedStrict | analyze_tickets.py:112 | a non-missing cell that does not parse widens that gap by one |
| Report.PreparedTableShape | analyze_tickets.py:405-410 | the prepared table keeps the rows and every other column and gains only `age_hours` and `created_date` |
| Report.PreparedAgeHours | analyze_tickets.py:405-406 | `age_hours` holds the parsed hours of each row's `Age` |
| Report.PreparedCreatedDate | analyze_tickets.py:409-410 | `created_date` holds each row's `Created` as a date-time |
| Report.PrepareData | analyze_tickets.py:385-415 | a fresh table object holding the prepared table, the closed column with its fallback, and the statistics |
| Report.GenerateOutput | analyze_tickets.py:431-463 | the summary (only when statistics were computed), the first-response analysis, the open tickets by priority and, unless that raised `KeyError`, by age |
| Report.RunAnalysis | analyze_tickets.py:494-498 | the whole run on a table that was read; nothing when the read failed |
| Report.SummaryBalance | analyze_tickets.py:449-454 | in the summary, the current open count plus the total closed count is the number of tickets |
| Report.NewTodayAgrees | analyze_tickets.py:443-444 | for one reading of the clock shared by both, the summary and the age section count the same tickets as created today |
| Report.AgesAllBucketed | analyze_tickets.py:334-341 | every open ticket with an age is in exactly one age range, because `age_hours` is a number in every row |
| Report.FallbackKeyError | analyze_tickets.py:401-402 | with no closed header and no `State` column, the priority section raises `KeyError` on `State` and the age section never runs |
| Report.ClosedColumnResolved | analyze_tickets.py:391-402 | the map's closed column is the one `prepare_data` picks, a header, and neither derived column |
| Report.StatsOpenIsParsedMissing | analyze_tickets.py:145-147 | the statistics count as open the rows whose closed cell is missing after date conversion |
| Report.PriorityOpenIsRawMissing | analyze_tickets.py:303 | the priority section counts as open the rows whose raw closed cell is missing |
| Report.OpenCountsDisagree | analyze_tickets.py:146 | one closed cell holding text that does not parse makes the priority section's open tickets strictly fewer than the summary's open count |

## Left out

- `install.py`: platform checks, package installation, downloads and file copying are operating-system and network plumbing.
- Reading the spreadsheet (`pd.read_excel`): the table is an input. `Report.RunAnalysis` takes `None` for a file that could not be read.
- The second read of the file inside `prepare_data`: both reads are taken to give the same table.
- Date parsing (`pd.to_datetime`): it is the parameter `parse`, which gives a date-time or rejects the text. A rejected text becomes NaT. How pandas reads dates is not modelled.
- `datetime.now().date()`: it is the parameter `today`. One value serves both the summary and the age section, which the source reads separately.
- Printing, `to_string`, the standard-output redirection, the log file name and the command-line parsing are presentation and I/O.
- Floating point: hours are exact `real` numbers, so rounding in `minutes / 60` is not modelled.
- Cell types: spreadsheet values other than dates are modelled by their text. A numeric cell therefore compares like its text in `value_counts`.
- Non-ASCII text: `str.lower()` is modelled on ASCII letters only, and `\d` on the ASCII digits. `\s` is the full `str.isspace` set.
- Column dtypes: pandas raises on `.str` or `.dt` applied to a column whose dtype is not text or date, for example an all-empty `State` or `Closed` column read as floats. The model treats such cells as text, missing or date-time cell by cell and does not raise.
- `Closed` read by `read_excel` as date-times: the model treats this case like the text case (`Table.DatetimeColumnIdentity` shows the two branches agree on such a column).
- Exceptions inside `prepare_data`: apart from the failed read, they are not modelled.
- The tie order of `value_counts`: equal counts are listed in order of first appearance. pandas does not promise that order.
