# daily-mcp core, modelled in Dafny

This project models the tool logic of daily-mcp. daily-mcp is a Model Context Protocol
server that keeps a personal diary, a daily log, todos, health metrics and
finance records. The model covers the following:

- **Day stores.** The diary and the daily log each keep one JSON file per
  day (`<YYYY-MM-DD>.json`), holding a list of entries. The directory is
  modelled as `map<string, seq<Entry>>` (`DayStore`). Both tools append to
  it, search it by a window of day names, and render reports that group
  results by day (`Diary`, `DailyLog`).
- **Todos.** The `todo` table is a `seq<Row>`. The SQL `WHERE`, `LIKE`,
  `ORDER BY` and `UPDATE` statements are written as explicit functions
  (`Todo`).
- **Health and finance.** Recording a value, unit defaulting, the
  SELECT-only guard on caller-supplied SQL, and the health listing
  (`Health`, `Finance`, `SqlGuard`).
- **Summary sections** of the daily and weekly summary resources
  (`Resources`).
- **Routing.** Tool dispatch, resource URIs, prompt defaults and prompt
  argument checks (`Handlers`).
- **`get_current_time`**, including its "yesterday" rule (`TimeUtils`).

Supporting modules:

- `Calendar` models the parts of Python's `datetime` the tools use:
  - proleptic Gregorian dates;
  - the strict `%Y-%m-%d` and `%Y-%m-%d %H:%M:%S` parsers and formatters;
  - `timedelta(days=n)` arithmetic through day ordinals;
  - weekdays.
- `Text` holds string helpers with Python's meaning:
  - `str.strip` and `str.lower`;
  - substring tests;
  - code-point order of `str`;
  - `str.replace` of a pattern by nothing;
  - integer rendering.
- `Wrappers` holds `Option` and `Result`.

"Now" and "today" are parameters everywhere. So are the rows that a SQL
query the model does not evaluate would return.

Exceptions that escape a tool become `Err(message)`:

- one raised by the standard library carries the exception class name
  (`ValueError`, `OverflowError`);
- one the program raises itself carries `"<class>: <message>"`
  (`Wrappers.Raised`).

Several behaviours are kept exactly as the code has them:

- an entry with no timestamp skips the date-range check;
- on the first of a month, "yesterday" is today;
- a todo line is rebuilt from `line[4:]`, which drops the first digit of
  the id;
- the resource resolver removes every occurrence of the summary prefix;
- both SQL guards test for `select` before they look for the table name,
  and the table test is a substring test.

## Model

| member | source | states |
|---|---|---|
| DayStore.Append | src/daily_mcp/tools/diary.py:69-79 | loading a day, appending one entry and saving adds exactly that entry at the end of that day's list, adds the day to the store, and leaves every other day unchanged |
| DayStore.NameLeAntisymmetric | src/daily_mcp/tools/diary.py:212 | the file-name order used by `sorted(glob(...))` is antisymmetric on day names, so ordering by file name is ordering by day |
| DayStore.GreatestExists | src/daily_mcp/tools/diary.py:212 | every non-empty set of day names has a greatest name in file-name order |
| DayStore.GreatestUnique | src/daily_mcp/tools/diary.py:212 | that greatest name is unique |
| DayStore.DescendingNames | src/daily_mcp/tools/diary.py:212 | `sorted(..., reverse=True)` lists each stored day exactly once, strictly newest-name first |
| DayStore.FilterRange | src/daily_mcp/tools/diary.py:214 | keeping the days with `start <= day <= end` keeps exactly those days and preserves descending order |
| DayStore.DaysToVisit | src/daily_mcp/tools/diary.py:212-214 | the days a search opens are exactly the stored days inside the inclusive string range, in strictly descending order |
| DayStore.DaysToVisitAppend | src/daily_mcp/tools/diary.py:212-214 | after appending to a day, the visited days are the old ones plus that day exactly when it lies in the range |
| DayStore.Gather | src/daily_mcp/tools/diary.py:215-218 | gathering pairs every visited day with each of its stored entries and nothing else |
| DayStore.GatherDescending | src/daily_mcp/tools/diary.py:212-218 | results gathered from strictly descending days come out grouped newest day first |
| DayStore.GatherKeepsDays | src/daily_mcp/tools/diary.py:215-218 | the gathered results of one visited day are that day's stored entries in stored order |
| DayStore.SubsequenceDescending | src/daily_mcp/tools/diary.py:216-218 | dropping results that fail the filter keeps them in descending day order |
| DayStore.EntriesOnAppend | src/daily_mcp/tools/diary.py:218 | the results of one day in a concatenation are that day's results of each part, in order |
| DayStore.Runs | src/daily_mcp/tools/diary.py:155-160 | report rows split into maximal runs of equal days: no run is empty, neighbouring runs have different days, and flattening the runs gives back the rows |
| DayStore.GroupLinesContinue | src/daily_mcp/tools/diary.py:155-173 | continuing the report loop inside a day's run produces the run blocks without the first header |
| DayStore.GroupLinesAreRunBlocks | src/daily_mcp/tools/diary.py:152-173 | the report loop writes one `Date: D` header per run of equal days, followed by that run's lines, with one blank line between runs |
| Diary.EntryTime | src/daily_mcp/tools/diary.py:57-64 | an absent or empty datetime means now; a given one parses only when it reads back exactly as `%Y-%m-%d %H:%M:%S` |
| Diary.NewEntry | src/daily_mcp/tools/diary.py:70-76 | the stored entry keeps the content, stamps the formatted datetime (its first ten characters are the entry's day), and has a `tags` field exactly when non-empty tags were given |
| Diary.AddedMessage | src/daily_mcp/tools/diary.py:82-83 | the confirmation names the entry's datetime, and it has a `[tags: ...]` suffix exactly when tags were given |
| Diary.AddDiary | src/daily_mcp/tools/diary.py:37-83 | an unparsable datetime returns the format error and leaves the store as it was; otherwise exactly one entry is appended to the entry's own day, and every other day is unchanged |
| Diary.RangeStart | src/daily_mcp/tools/diary.py:93-99 | a missing start is now minus 30 days at the same time of day, with an overflow error before the calendar's first day; a given start parses as a datetime or as a date at midnight, and fails only when neither parses |
| Diary.RangeEnd | src/daily_mcp/tools/diary.py:101-109 | a missing end is now; a given end parses as a datetime or as a date at 23:59:59, and fails only when neither parses |
| Diary.ParseRange | src/daily_mcp/tools/diary.py:86-111 | the window succeeds exactly when both ends resolve, and it is the pair of resolved ends |
| Diary.DateOnlyWindow | src/daily_mcp/tools/diary.py:96-109 | with date-only bounds, a moment is in the window exactly when its day lies between the two dates inclusive |
| Diary.DateTimeWindow | src/daily_mcp/tools/diary.py:97-105 | full datetime bounds are taken as given |
| Diary.LeMidnight | src/daily_mcp/tools/diary.py:99-131 | comparing against a midnight start is comparing days |
| Diary.LeLastSecond | src/daily_mcp/tools/diary.py:107-131 | comparing against a 23:59:59 end is comparing days |
| Diary.WindowDays | src/daily_mcp/tools/diary.py:199-214 | a moment inside the window has a day name inside the day-name range that chooses files |
| Diary.EntryMoment | src/daily_mcp/tools/diary.py:124-129 | an empty stamp gives no moment; otherwise the stamp parses as a full datetime or, failing that, joined to the file's day; `ValueError` only when neither parses |
| Diary.LowerAll | src/daily_mcp/tools/diary.py:141 | the tag list is lowered element by element |
| Diary.TagMatches | src/daily_mcp/tools/diary.py:139-142 | the tag filter passes when no tag is given, or when some stored tag equals the given one ignoring case |
| Diary.EntryMatches | src/daily_mcp/tools/diary.py:114-144 | an entry matches exactly when it has no moment or its moment is in the inclusive window, the keyword occurs in its content ignoring case, and the tag filter passes; it fails exactly when the moment fails to parse |
| Diary.NoStampSkipsWindow | src/daily_mcp/tools/diary.py:124-125 | an entry without a timestamp is matched on keyword and tag alone, whatever the window |
| Diary.TimeStampUsesFileDay | src/daily_mcp/tools/diary.py:128-129 | an entry stamped with a bare time is placed on its file's day |
| Diary.UntaggedFailsTagFilter | src/daily_mcp/tools/diary.py:139-142 | an entry without tags never passes a tag filter |
| Diary.Select | src/daily_mcp/tools/diary.py:216-218 | filtering keeps the matching results in their order, each exactly as often as it occurs; it succeeds exactly when every entry's timestamp can be read |
| Diary.SearchResults | src/daily_mcp/tools/diary.py:198-218 | the search succeeds exactly when the window parses and every visited entry's timestamp can be read; the results are then exactly the matching entries of stored days within the day range, each as often as it is stored, newest day first, each day's entries in stored order |
| Diary.NewEntryMatches | src/daily_mcp/tools/diary.py:70-144 | an entry added without tags, inside the window and matching the keyword, passes the filter on its own day |
| Diary.AddThenSearch | src/daily_mcp/tools/diary.py:66-218 | after adding an entry at a moment inside a window to a store whose timestamps are all readable, a search of that window with a keyword the content contains succeeds and finds it |
| Diary.AppendKeepsReadable | src/daily_mcp/tools/diary.py:66-82 | appending an entry whose timestamp reads keeps every stored timestamp readable |
| Diary.GatherReadable | src/daily_mcp/tools/diary.py:204-216 | every entry visited in a store whose timestamps all read has a readable timestamp |
| Diary.Bracketed | src/daily_mcp/tools/diary.py:171 | the head of a stamped line is two spaces, then the shown time in brackets |
| Diary.LineHead | src/daily_mcp/tools/diary.py:169-173 | a line starts with `  [` exactly when the entry has a stamp, and shows only the part after the stamp's last space |
| Diary.EntryLine | src/daily_mcp/tools/diary.py:162-173 | a line is its head, then the tag label (` [a, b]`, or nothing without tags), then a space and the content cut to 100 characters plus `...` |
| Diary.Rows | src/daily_mcp/tools/diary.py:155-173 | each result contributes its day and its rendered line, in order |
| Diary.ReportIsDayBlocks | src/daily_mcp/tools/diary.py:152-173 | the report is the title, a blank line, then one block per run of equal days separated by blank lines |
| Diary.FormatSearchResults | src/daily_mcp/tools/diary.py:147-175 | the reply is exactly `No matching diary entries found` when there are no results; otherwise it is the title, a blank line and one block per run of equal days, joined by newlines |
| Diary.SearchDiary | src/daily_mcp/tools/diary.py:178-221 | the search succeeds exactly when its results can be computed; it replies with the no-results text exactly when there are none, and otherwise with the day blocks of the results |
| DailyLog.LogDay | src/daily_mcp/tools/daily_log.py:63 | the log's day is the given date, or today when none is given |
| DailyLog.LogEntry | src/daily_mcp/tools/daily_log.py:67-73 | a log entry stores its content and the current time as its `time` stamp |
| DailyLog.AddDailyLog | src/daily_mcp/tools/daily_log.py:47-77 | exactly one entry is appended to the chosen day, every other day is unchanged, and the reply names the day |
| DailyLog.LogRange | src/daily_mcp/tools/daily_log.py:101-104 | a missing start is the date 30 days before now, an overflow error before the calendar's first day; a missing end is today; given bounds are used as text |
| DailyLog.Keep | src/daily_mcp/tools/daily_log.py:114-116 | the keyword filter keeps, in order, the entries whose content contains the keyword ignoring case, each exactly as often as it occurs |
| DailyLog.KeepAll | src/daily_mcp/tools/daily_log.py:115 | with no keyword every entry is kept |
| DailyLog.EmptyKeywordMatches | src/daily_mcp/tools/daily_log.py:115 | an empty keyword also matches every entry: the test is `is None`, not truthiness |
| DailyLog.LogResults | src/daily_mcp/tools/daily_log.py:101-116 | the results are exactly the matching entries of stored days within the inclusive range, each as often as it is stored, newest day first, in stored order |
| DailyLog.AddThenSearchLog | src/daily_mcp/tools/daily_log.py:63-116 | an entry logged for a day inside a search range is found by that search |
| DailyLog.LogLine | src/daily_mcp/tools/daily_log.py:131-139 | a line is `  [time] ` when the entry has a time, `  - ` otherwise, then exactly the content cut to 100 characters plus `...` |
| DailyLog.LogRows | src/daily_mcp/tools/daily_log.py:124-139 | each result contributes its day and its rendered line, in order |
| DailyLog.LogReportIsDayBlocks | src/daily_mcp/tools/daily_log.py:121-139 | the report is the title, a blank line, then one block per run of equal days separated by blank lines |
| DailyLog.SearchDailyLog | src/daily_mcp/tools/daily_log.py:80-142 | the search replies `No matching log entries found` exactly when there are no results, and otherwise with the title, a blank line and one block per run of equal days |
| Todo.MaxId | src/daily_mcp/tools/todo.py:36-42 | the largest id in the table (0 when empty) bounds every id |
| Todo.AddTodo | src/daily_mcp/tools/todo.py:16-50 | one pending row with a fresh larger id and the given creation time is appended and the table is otherwise unchanged; the reply mentions topic and due date exactly when they are given |
| Todo.LikePercent | src/daily_mcp/tools/todo.py:88-89 | the SQL pattern `%` matches every content |
| Todo.LikePrefix | src/daily_mcp/tools/todo.py:88-89 | a wildcard-free pattern followed by `%` matches exactly the contents with that prefix, ignoring case |
| Todo.LikeContains | src/daily_mcp/tools/todo.py:88-89 | `%m%` matches exactly the contents that contain `m`, ignoring case |
| Todo.FindPendingId | src/daily_mcp/tools/todo.py:71-74 | the lookup finds the first pending row with the id, or reports that there is none |
| Todo.FindPendingLike | src/daily_mcp/tools/todo.py:87-90 | the lookup finds the first pending row whose content matches `%m%`, or reports that there is none |
| Todo.MarkCompleted | src/daily_mcp/tools/todo.py:78-81 | the update marks completed, with the timestamp, every row with the id, and no other row |
| Todo.CompleteTodo | src/daily_mcp/tools/todo.py:53-101 | a non-zero id is used first; then a non-empty content match; each fails with its own message and leaves the table unchanged; with neither, the usage error is returned |
| Todo.IdTakesPrecedence | src/daily_mcp/tools/todo.py:69-85 | with a non-zero id the content match is ignored |
| Todo.CompleteByContent | src/daily_mcp/tools/todo.py:85-99 | completing by content completes exactly one row, the first pending row whose content contains the keyword, and no other row changes; with no such row nothing changes |
| Todo.CompleteByIdNeedsPending | src/daily_mcp/tools/todo.py:71-76 | an id with no pending row changes nothing |
| Todo.Filter | src/daily_mcp/tools/todo.py:127-135 | the selected rows are exactly those with the status (unless `all`) and the topic (when given) |
| Todo.BeforeTotal | src/daily_mcp/tools/todo.py:142-145 | the listing order compares any two rows |
| Todo.BeforeTransitive | src/daily_mcp/tools/todo.py:142-145 | the listing order is transitive |
| Todo.Insert | src/daily_mcp/tools/todo.py:142-145 | inserting into an ordered listing keeps it ordered and adds exactly the row |
| Todo.Sort | src/daily_mcp/tools/todo.py:142-145 | sorting yields an ordered permutation: dated rows first, earlier due dates first, then newer creations first |
| Todo.Listed | src/daily_mcp/tools/todo.py:124-148 | the listed rows are a sorted permutation of exactly the selected rows |
| Todo.BaseLineTail | src/daily_mcp/tools/todo.py:159-165 | dropping the first four characters of a line drops `  [` and the first character of the id |
| Todo.DueState | src/daily_mcp/tools/todo.py:167-169 | a due date is overdue when it parses and is strictly before today; `ValueError` when it does not parse |
| Todo.RowLine | src/daily_mcp/tools/todo.py:157-175 | a row fails exactly when it is pending with a due date that does not parse; otherwise it counts as overdue exactly when it is pending with a due date before today |
| Todo.RowLineText | src/daily_mcp/tools/todo.py:159-174 | completed rows get `  [x] `, other rows `  [ ] `, followed by the base line minus its first four characters; a pending dated row then gets `OVERDUE(d)` or `(due: d)` |
| Todo.DatedRowLine | src/daily_mcp/tools/todo.py:167-174 | for a pending dated row, the due note follows the whole base line |
| Todo.RowLines | src/daily_mcp/tools/todo.py:157-176 | the loop fails exactly when some row fails; otherwise it gives each row's line in order and counts the overdue rows |
| Todo.Header | src/daily_mcp/tools/todo.py:154-181 | the warning and a blank line follow the title exactly when the reminder is on and some row is overdue |
| Todo.ListTodos | src/daily_mcp/tools/todo.py:104-184 | no listed rows reply `No todos found`; otherwise the reply is the header and one line per listed row, and fails exactly when a listed due date does not parse |
| Todo.CompletedNeverOverdue | src/daily_mcp/tools/todo.py:164-165 | a completed row is never counted as overdue and never carries a due note |
| Todo.SingleDigitIdLost | src/daily_mcp/tools/todo.py:159-165 | for a completed row with a one-digit id, the line no longer shows the id |
| Resources.LastCountAt | src/daily_mcp/resources.py:47-52 | each counter ends with the count of the last row of its kind |
| Resources.LastCountNone | src/daily_mcp/resources.py:44-45 | a counter with no row of its kind stays 0 |
| Resources.TodoSection | src/daily_mcp/resources.py:42-59 | the section shows the completed and pending counters the loop ends with |
| Resources.TodoCountsOfGroups | src/daily_mcp/resources.py:42-59 | for one row per distinct status, the pending count comes from the `pending` row and the completed count from the `completed` row, each 0 when absent |
| Resources.HealthSection | src/daily_mcp/resources.py:62-72 | no rows give the fixed no-records pair; otherwise the title, one line per row in order, and a blank line |
| Resources.HealthLineNamesRow | src/daily_mcp/resources.py:70 | each health line shows the metric type and its value |
| Resources.DisplayTime | src/daily_mcp/resources.py:85-87 | the shown time is the text after the stamp's last space, or the whole stamp when it has no space |
| Resources.PreviewLine | src/daily_mcp/resources.py:83-88 | a preview is the shown time in brackets and the content cut to 50 characters plus `...` |
| Resources.Previews | src/daily_mcp/resources.py:82-88 | one preview per entry, in order |
| Resources.MoreLine | src/daily_mcp/resources.py:90-91 | the `... and N more entries` line appears exactly when there are more than three entries |
| Resources.DiarySection | src/daily_mcp/resources.py:75-93 | a day without entries gives the fixed no-entries line; otherwise the count, the first three previews in stored order, and the more line when there are more than three |
| Resources.DiarySectionAfterAppend | src/daily_mcp/resources.py:75-93 | after one more entry is added to the day, the count rises by one; the new entry is previewed while there were fewer than three before, and otherwise the more line grows |
| Resources.CountPermutation | src/daily_mcp/resources.py:275-279 | the weekly count does not depend on the order `glob` lists the files in |
| Resources.CountChange | src/daily_mcp/resources.py:275-279 | changing one day's entries changes the count only by that day's difference |
| Resources.WeeklyDiary | src/daily_mcp/resources.py:272-281 | the weekly line reports the total number of entries over stored days within the inclusive range, summed over any listing of those days that names each once |
| Resources.CountVisitedDay | src/daily_mcp/resources.py:275-279 | adding a visited day with one more entry raises the count by one |
| Resources.WeeklyCountAfterAppend | src/daily_mcp/resources.py:272-281 | appending an entry raises the weekly count by one exactly when its day lies in the range |
| Handlers.DispatchTool | src/daily_mcp/handlers.py:123-178 | a name runs a handler exactly when it is one of the ten table names; any other name runs nothing and gets `Unknown tool: name` |
| Handlers.DailyLogToolsUnknown | src/daily_mcp/handlers.py:125-178 | the daily-log tools have no entry in the dispatch table, so calling them by name gets the unknown-tool reply |
| Handlers.ResolveResource | src/daily_mcp/handlers.py:210-226 | the today and weekly URIs are matched before the date branch; a prefixed URI names a daily summary when removing the prefix leaves a date; every other URI raises `ValueError("Unknown resource: ...")` |
| Handlers.DateUriResolves | src/daily_mcp/handlers.py:218-222 | the prefix followed by any valid date names that day's summary |
| Handlers.DoubledPrefixResolves | src/daily_mcp/handlers.py:219 | a doubled prefix still resolves, because every occurrence of the prefix is removed |
| Handlers.ForeignUriRejected | src/daily_mcp/handlers.py:218-226 | a URI without the prefix is always unknown |
| Handlers.SetDefault | src/daily_mcp/handlers.py:284-289 | `setdefault` adds the key only when it is missing and never overwrites a value |
| Handlers.ApplyPromptDefaults | src/daily_mcp/handlers.py:279-291 | the result keeps every argument as given and adds each of the prompt's defaults that is missing, and nothing else |
| Handlers.ApplyDefaultsIdempotent | src/daily_mcp/handlers.py:279-291 | applying the defaults twice is applying them once |
| Handlers.NoDefaultsForOtherPrompts | src/daily_mcp/handlers.py:283-291 | a prompt without defaults gets its arguments back unchanged |
| Handlers.FirstMissing | src/daily_mcp/handlers.py:263-266 | the reported key is the first template field, in template order, that has no argument |
| Handlers.GetPrompt | src/daily_mcp/handlers.py:257-266 | an unknown prompt raises `ValueError`; a known one succeeds exactly when every field of its template has an argument once defaults are applied, and otherwise names the first missing field |
| Handlers.OnlyPeriodIsRequired | src/daily_mcp/handlers.py:257-266 | among the four prompts, only `financial-analysis` can fail, exactly when no `period` is given |
| Health.DefaultUnit | src/daily_mcp/tools/health.py:15-57 | the default unit is the table's unit for a known type and empty otherwise |
| Health.MetricName | src/daily_mcp/tools/health.py:24-70 | the display name is the table's name for a known type and the type itself otherwise |
| Health.UnitsAndNamesAgree | src/daily_mcp/tools/health.py:15-31 | both tables know the same metric types |
| Health.RecordHealth | src/daily_mcp/tools/health.py:34-74 | one row is appended, with the unit and date defaulted when missing or empty; the reply names the display name, value and unit, and mentions the note exactly when one is given |
| Health.WeightDefaultsToKilograms | src/daily_mcp/tools/health.py:57-71 | a weight without a unit is stored and reported in kg |
| Health.UnknownTypeHasNoUnit | src/daily_mcp/tools/health.py:57-71 | an unknown type without a unit gets an empty unit and is reported under its raw name |
| Health.ReportLines | src/daily_mcp/tools/health.py:117-135 | the listing is the title, a blank line and one line per row, in row order |
| Health.FormatHealthRows | src/daily_mcp/tools/health.py:108-138 | no rows give `No health records in the last N days`; otherwise the lines are joined by newlines |
| Health.MixedLineNamesType | src/daily_mcp/tools/health.py:131-132 | a line of an untyped listing shows its type's display name in brackets |
| Health.MixedListingNamesTypes | src/daily_mcp/tools/health.py:128-138 | an untyped listing names every row's type in brackets |
| Health.WindowStart | src/daily_mcp/tools/health.py:164 | the window starts `days` days before now; `OverflowError` when that leaves the calendar |
| Health.QueryHealth | src/daily_mcp/tools/health.py:141-187 | a non-empty `sql` goes to the guard and nothing else is looked at; otherwise the listing covers the window's rows |
| Health.SqlOverrides | src/daily_mcp/tools/health.py:159-160 | with a non-empty `sql`, metric type, days and stored rows make no difference |
| SqlGuard.Guard | src/daily_mcp/tools/health.py:82-86 | after strip and lower-casing, anything not starting with `select` is refused as non-SELECT; a SELECT not mentioning the table is refused with the table error; everything else is executed verbatim |
| SqlGuard.GuardIgnoresCase | src/daily_mcp/tools/health.py:82 | the verdict does not depend on letter case |
| SqlGuard.GuardIgnoresSurroundingSpace | src/daily_mcp/tools/health.py:82 | the verdict does not depend on surrounding whitespace |
| SqlGuard.DeleteRefused | src/daily_mcp/tools/finance.py:106-110 | a `DELETE` is refused by the SELECT test, even though it names the table |
| Finance.Timestamp | src/daily_mcp/tools/finance.py:36-74 | a missing or empty datetime defaults to now as `%Y-%m-%d %H:%M:%S` |
| Finance.DefaultTimestampParses | src/daily_mcp/tools/finance.py:36-74 | the default timestamp reads back as now |
| Finance.HeadNamesParty | src/daily_mcp/tools/finance.py:48-86 | the confirmation head names the category or source |
| Finance.ConfirmationParts | src/daily_mcp/tools/finance.py:48-89 | a confirmation names the category or source, and grows a `, note: ...` part exactly when a note is given |
| Finance.RecordExpense | src/daily_mcp/tools/finance.py:16-51 | one expense row is appended and the reply is the expense confirmation |
| Finance.RecordIncome | src/daily_mcp/tools/finance.py:54-89 | one income row is appended and the reply is the income confirmation |
| Finance.QueryFinance | src/daily_mcp/tools/finance.py:92-114 | the SELECT test comes first; then a query without `finance` anywhere is refused; only a SELECT naming the table is executed |
| Finance.QuerySpellingIrrelevant | src/daily_mcp/tools/finance.py:107 | whether a finance query runs does not depend on case or surrounding whitespace |
| Finance.SharedSelectTest | src/daily_mcp/tools/finance.py:107-110 | the finance and health guards refuse exactly the same queries as non-SELECT |
| TimeUtils.Yesterday | src/daily_mcp/tools/time_utils.py:31 | after the first of a month, yesterday is the same month with the day one less; on the first, it is today |
| TimeUtils.YesterdayIsPreviousDay | src/daily_mcp/tools/time_utils.py:31 | after the first of a month, yesterday is the calendar's previous day |
| TimeUtils.FirstOfMonthYesterdayIsToday | src/daily_mcp/tools/time_utils.py:31 | on the first of a month, yesterday's date is today's date and not the previous day |
| TimeUtils.LineInReply | src/daily_mcp/tools/time_utils.py:34-45 | whatever a line of the reply contains, the reply contains |
| TimeUtils.ReplyLabels | src/daily_mcp/tools/time_utils.py:35-37 | the reply has the title and the `Now:` and `Date:` labels |
| TimeUtils.ReplyMoreLabels | src/daily_mcp/tools/time_utils.py:38-39 | the reply has the `Time:` and `Yesterday:` labels |
| TimeUtils.ReplyTimestamp | src/daily_mcp/tools/time_utils.py:36 | the reply contains the full timestamp |
| TimeUtils.ReplyToday | src/daily_mcp/tools/time_utils.py:37 | the reply contains today's date |
| TimeUtils.ReplyExamples | src/daily_mcp/tools/time_utils.py:43-44 | the reply contains yesterday's date followed by ` 15:00:00` and today's date followed by ` 09:00:00` |
| TimeUtils.InfoLines | src/daily_mcp/tools/time_utils.py:34-45 | the reply has ten lines |
| TimeUtils.InfoLinesMoment | src/daily_mcp/tools/time_utils.py:25-39 | the first five lines are the title, `- Now:` with the timestamp, `- Date:` with the date and its weekday name in parentheses, `- Time:` with the time of day, and `- Yesterday:` with yesterday's date |
| TimeUtils.InfoLinesExamples | src/daily_mcp/tools/time_utils.py:40-44 | the last five lines are a blank line, the examples heading, and the three examples ending in the timestamp, yesterday's date at 15:00:00 and today's date at 09:00:00 |
| TimeUtils.CurrentTime | src/daily_mcp/tools/time_utils.py:12-45 | every one of the ten lines occurs in the reply |
| Calendar.AddDays | src/daily_mcp/tools/diary.py:94 | adding days moves the day ordinal by exactly that many and keeps the time of day; it fails exactly when the result leaves years 1 to 9999 |
| Calendar.AddDaysInverse | src/daily_mcp/tools/diary.py:94 | going forward and then back by the same number of days returns the starting moment |
| Calendar.AddDaysBackIsEarlier | src/daily_mcp/tools/diary.py:94 | going back a positive number of days gives a strictly earlier moment |
| Calendar.NextDay | src/daily_mcp/tools/diary.py:94 | the next day is a valid date at the same time of day |
| Calendar.NextDayOrdinal | src/daily_mcp/tools/diary.py:94 | the next day's ordinal is one more |
| Calendar.PrevDay | src/daily_mcp/tools/time_utils.py:31 | the previous day is a valid date at the same time of day |
| Calendar.PrevDayOrdinal | src/daily_mcp/tools/time_utils.py:31 | the previous day's ordinal is one less |
| Calendar.OrdinalInjective | src/daily_mcp/tools/diary.py:94 | different dates have different ordinals |
| Calendar.ParseDate | src/daily_mcp/tools/diary.py:99 | a parsed date is valid, at midnight, and renders back to the parsed text |
| Calendar.ParseDateTime | src/daily_mcp/tools/diary.py:60 | a parsed datetime is valid and renders back to the parsed text |
| Calendar.ParseFormatDate | src/daily_mcp/tools/diary.py:99 | parsing a formatted date gives back the date at midnight |
| Calendar.ParseFormatDateTime | src/daily_mcp/tools/diary.py:60-72 | parsing a formatted datetime gives back the moment |
| Calendar.FormatDateOrder | src/daily_mcp/tools/diary.py:199-214 | string order of formatted dates is date order |
| Calendar.MidnightText | src/daily_mcp/tools/diary.py:99 | a midnight moment renders as its date and `00:00:00` |
| Calendar.LastSecondText | src/daily_mcp/tools/diary.py:107-109 | a 23:59:59 moment renders as its date and `23:59:59` |
| Calendar.Weekday | src/daily_mcp/tools/time_utils.py:28 | the weekday is one of seven, and 0001-01-01 is weekday 0 (Monday) |
| Calendar.WeekdayNext | src/daily_mcp/tools/time_utils.py:28 | the next day's weekday is the following weekday |
| Calendar.WeekdayShift | src/daily_mcp/tools/time_utils.py:28 | two dates' weekdays differ, modulo seven, by the number of days between them; with the anchor this fixes every weekday |
| Calendar.FirstDayIsMonday | src/daily_mcp/tools/time_utils.py:28 | 0001-01-01 is named `Monday` |
| Calendar.WeekdayKnownDates | src/daily_mcp/tools/time_utils.py:28 | 2024-01-01 is named `Monday` and 2026-10-10 `Saturday` |
| Text.Strip | src/daily_mcp/tools/finance.py:107 | the stripped text is a slice of the input with only whitespace around it, and it neither starts nor ends with whitespace |
| Text.StripIgnoresSurroundingSpace | src/daily_mcp/tools/finance.py:107 | extra surrounding whitespace does not change the stripped text |
| Text.StripUnchanged | src/daily_mcp/tools/finance.py:107 | text without surrounding whitespace is left unchanged |
| Text.StripLower | src/daily_mcp/tools/finance.py:107 | stripping and lower-casing commute |
| Text.Lower | src/daily_mcp/tools/diary.py:135 | lower-casing maps each character |
| Text.AfterLastSpace | src/daily_mcp/tools/diary.py:170 | the result is the space-free suffix after the last space |
| Text.Truncate | src/daily_mcp/tools/diary.py:166 | text within the limit is unchanged; longer text is its first n characters and `...` |
| Text.RemoveAllLeading | src/daily_mcp/handlers.py:219 | removing every occurrence of a pattern removes a leading copy |
| Text.RemoveAllShort | src/daily_mcp/handlers.py:219 | text shorter than the pattern is unchanged by the removal |
| Text.LexLeTotal | src/daily_mcp/tools/diary.py:214 | Python's string order is total |
| Text.LexLeTransitive | src/daily_mcp/tools/diary.py:214 | Python's string order is transitive |
| Text.LexLeAntisymmetric | src/daily_mcp/tools/diary.py:214 | Python's string order is antisymmetric |
| Text.NumOfNatToString | src/daily_mcp/tools/todo.py:180 | the decimal rendering of a count reads back as that count |
| Text.PadLexLe | src/daily_mcp/tools/diary.py:199-200 | zero-padded numbers of equal width compare as the numbers do |

## Left out

- File I/O: JSON encoding, `glob`, `mkdir` and the home-directory defaults. The directory is a map from file stem to entry list. Only files named `<stem>.json` exist, and a corrupt or hand-edited file is not modelled.
- The `created_at` field of diary and log entries and of todo rows is a parameter (`now`'s ISO text), not a clock reading. Every tool sees one `now`. The source reads the clock several times, and the model does not cover microseconds.
- Calendar.ParseDate: only the strict `YYYY-MM-DD[ HH:MM:SS]` shape is accepted. Python's `strptime` also takes single-digit fields and surrounding variations; those inputs are treated as unparsable.
- Text.Lower: ASCII letters only; Python's full Unicode case mapping is not modelled.
- Exception messages from the standard library are reduced to the exception's class name (`ValueError`, `OverflowError`).
- The SQL engine: the guarded queries, their execution, their error texts and the result-table formatting. An accepted query is returned as `Execute(sql)`.
- The rows returned by the standard health query and by the summary queries are parameters. Their `WHERE`/`ORDER BY` clauses are not evaluated. Only the todo query is modelled as explicit filter and sort.
- Finance amounts are floats in the source. They are kept as their printed text, so `:.2f` and float `repr` are not modelled.
- `_format_finance_section`, `get_daily_summary`, `get_weekly_summary`, `_build_weekly_finance`, `_build_weekly_todos` and `_build_weekly_health` (src/daily_mcp/resources.py:18-39, 96-269) are left out. They are SQL aggregation plus float formatting. The modelled sections are the diary, todo-count, health and weekly diary ones.
- Prompt template text: only each template's field names, in order, are kept.
- Handlers.DispatchTool: models the dispatch as its authors evidently meant it, not as written. As written, the module cannot load: src/daily_mcp/handlers.py:23-35 imports `AddDiary` and `SearchDiary`, which src/daily_mcp/schemas.py does not define. Even with the import repaired, building the table at src/daily_mcp/handlers.py:125-171 evaluates `DailyTools.ADD_DIARY`, which the enum at src/daily_mcp/schemas.py:15-34 lacks, so every call raises `AttributeError`. The model keys those two entries by the names `add_diary`/`search_diary`.
- Handlers.DailyLogToolsUnknown: states the repaired table's behaviour. As written, every name, including the daily-log tools, fails with `AttributeError` before the lookup runs.
- Finance.RecordExpense: models the insert as meant. As written, src/daily_mcp/tools/finance.py:41-44 names a `datetime` column, but the finance table at src/daily_mcp/db.py:50-59 has `date` instead, so SQLite rejects the statement. The model records the moment in the row's `datetime` field, as if the column existed.
- Finance.RecordIncome: the same as Finance.RecordExpense; the insert at src/daily_mcp/tools/finance.py:79-82 names the missing `datetime` column.
- Other argument wiring: `add_todo` is passed `due_datetime` and `record_health` is passed `datetime_str`. These mismatches are not modelled. Each tool is modelled with its own parameters.
- MCP server setup, tool and resource registration, listing endpoints, logging, and the CLI.
