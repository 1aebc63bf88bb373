# Transaction enrichment pipeline, modelled in Dafny

This project models the core of a small batch pipeline for sales transactions.

- **Loading.** Raw records arrive with a free-form timestamp text and an optional timezone label.
- **Stage 1: normalizing.** Each timestamp is normalized to a UTC instant. The parse is day-first, falling back to the default order. The zone is resolved by an exact lookup, then by the first catalog name that contains the label. A nonexistent wall time is moved one hour forward. Records that fail get `invalid_date_format`, and records with an empty or `nan` timezone get `missing_timezone`.
- **Stage 2: out-of-order scan.** An arrival-order scan tags every record whose instant is earlier than that of the last record with an instant (`out_of_order`).
- **Writing flags.** Each record's tags are written into the frame as the JSON text `{"issues": [...]}`, or `{}` when there are none.
- **Stage 3: insert step.** This step scans the records sorted by instant. It marks the earlier record of each adjacent pair that matches on customer, amount (within 0.01), status and category and lies within 10 seconds. It merges `duplicate_candidate` into the stored tags and builds one database row per record, skipping rows that raise.
- **Reports.** The report helpers compute the first and last day of a `Y-M` period (Gregorian month lengths), the percent change between two figures (none when the first is zero), period totals, the daily overview, and substring counts of the four tags in the stored flag texts.

Files:
- `wrappers.dfy`: `Option`.
- `text.dfy`: the string operations the source relies on: `strip`, `lower`, substring test, `split`, `int()` and `str()` of naturals.
- `date_utils.dfy`: module `DateUtils`, the timestamp normalizer over an abstract parser and time-zone library (`TzLibrary`).
- `flags.dfy`: module `Flags`, the tag spellings, the flag document, its JSON text and its reading back.
- `utils.dfy`: module `Enrich`:
  - the records;
  - the `Frame` class whose columns `CleanAndEnrich` adds in place;
  - the out-of-order and near-duplicate detectors;
  - the rows of the insert step.
- `models.dfy`: module `Reports`, the report helpers.

Instants are integers in microseconds. The date parser, the zone catalog, `pytz.timezone`, `localize`, `astimezone` and `strftime` are fields of `TzLibrary`: total functions the model is parametric in. The properties hold for every library that behaves this way.

`sort_values` is the parameter `order`, constrained by `IsSortedOrder`: a permutation, ascending by instant, with nulls last. The order of equal instants is left open. `float()` on a text amount is the parameter `parseFloat`. The creation time is the parameter `now`.

### Where the code differs from its own comments

- **Ambiguous wall times.** The handler for `AmbiguousTimeError` says it assumes daylight saving time is still on and logs that it uses the first occurrence (date_utils.py:46-47). It does so by repeating the identical `localize` call (date_utils.py:48). A library that reports the time ambiguous once reports it again, and the outer handler returns `None`. `LocalizeNaive` therefore gives `None` for an ambiguous time, and `LocalizeNaiveOutcomes` states this. With pytz itself, `localize(..., is_dst=True)` raises neither `NonExistentTimeError` nor `AmbiguousTimeError` (pytz raises them only for `is_dst=None`), so both handlers matter only for a library that does raise; the model keeps the library abstract and covers both.
- **Empty (NaN) timezone cells.** The test comment at tests/test_date_utils.py:37 says a missing timezone should mean UTC, and the quality report says missing timezones were "assumed UTC" (models.py:200). The code hands `str(value).strip()` to the normalizer (utils.py:20-22). For an empty CSV cell this is the text `nan`: it is tagged `missing_timezone` (utils.py:26-27), but it is not blank. So it is looked up as a zone name and matched by substring, and it never falls back to UTC (`MissingTimezoneCells`). Only an empty or whitespace-only text gets UTC.

Stage 1 recognises a missing timezone only by the exact texts `""`, `nan` and `NaN` after stripping (utils.py:26), and the model does the same.

## Model

| member | source | states |
|---|---|---|
| Text.StripShape | utils.py:19-20 | `strip()` removes only whitespace, from both ends, and leaves no whitespace at either end |
| Text.SplitJoin | models.py:122 | splitting `a-b` on `-` gives back `a` and `b` when neither contains `-` |
| Text.SplitAfter | models.py:122 | a leading piece without `-` comes off the front of the split |
| Text.ParseNatOfString | models.py:122-125 | `int(str(n)) == n` |
| Text.ParseNatOfPad2 | models.py:122-125 | `int(f"{n:02d}") == n` |
| DateUtils.ParseEitherOrder | date_utils.py:16-19 | the day-first reading when it succeeds, else the default-order reading; succeeds iff either does |
| DateUtils.IsValidDatetime | date_utils.py:68-73 | true iff the default-order parse succeeds; a raise gives false |
| DateUtils.ValidDatetimeParses | date_utils.py:68-73 | a text `is_valid_datetime` accepts always parses; after a failed day-first parse the fallback succeeds iff `is_valid_datetime` accepts the text |
| DateUtils.Candidates | date_utils.py:30 | the fallback candidates are catalog names that contain the key case-insensitively, at most as many as the catalog |
| DateUtils.NoCandidates | date_utils.py:30-34 | there is no candidate iff no catalog name contains the key case-insensitively |
| DateUtils.FirstCandidate | date_utils.py:30-34 | when there are candidates, the first is the earliest matching catalog name |
| DateUtils.ResolveZone | date_utils.py:22-34 | blank key → UTC; an exact zone wins; otherwise the first matching catalog name is looked up; no match → unresolvable |
| DateUtils.ResolveZoneFallback | date_utils.py:26-34 | for a non-blank, non-exact key: nothing matches → `None`; the earliest matching catalog position decides the zone |
| DateUtils.LocalizeNaiveOutcomes | date_utils.py:36-48 | a naive time localizes directly, or (only if nonexistent) one hour later, or fails; an ambiguous time fails |
| DateUtils.LocalizeNaive | date_utils.py:37-48 | a naive wall time localizes directly, or, only after a nonexistent time, one hour later; every produced instant is one of those two localizations |
| DateUtils.ParseTimestamp | date_utils.py:10-56 | missing tokens (`""`, `nan`, `none`) give `None`; a result needs a successful parse and a resolved zone |
| DateUtils.AwareValueKeepsInstant | date_utils.py:49-52 | a value with its own offset keeps its instant under any resolvable key, and fails under an unresolvable one |
| DateUtils.NaiveValueLocalized | date_utils.py:10-48 | a naive value under a key that resolves to a zone is localized there by the daylight-saving policy (direct, one hour later after a nonexistent time, failure on an ambiguous one); under a key that resolves to nothing it fails |
| DateUtils.BlankTimezoneMeansUtc | date_utils.py:23-24 | a naive value under a blank key is localized in UTC |
| DateUtils.ConvertUtcToTimezone | date_utils.py:59-66 | the wall-clock text in the named zone, or in UTC when the name is not a zone |
| Flags.Dumps | utils.py:42 | the empty-object document exactly when there are no tags |
| Flags.GetIssuesDumps | utils.py:149 | `.get("issues", [])` of a dumped document gives the dumped tags (`[]` for `{}`) |
| Flags.Loads | utils.py:149 | `{}` decodes to the empty document and nothing else does; any other text that decodes has the `{"issues": [` … `]}` shape |
| Flags.LoadsRender | utils.py:42-149 | `json.loads(json.dumps(doc))` gives the document back; the text is `{}` iff there are no tags |
| Flags.MergeDuplicate | utils.py:157-158 | `duplicate_candidate` is present iff marked or already present; the tags are kept in order, only that tag may be added, and no repeat is introduced |
| Flags.ParseItems | utils.py:149 | reading back the list body of dumped tags without quotes gives exactly those tags |
| Flags.MergedFlagsText | utils.py:147-160 | the text stored after the duplicate merge names a tag iff the loaded tags held it, or it is `duplicate_candidate` and the record was marked |
| Flags.KnownTagInTag | models.py:185-197 | no tag name occurs inside another tag name |
| Flags.ItemsContain | models.py:185-197 | a tag name occurs in the JSON list body iff it is one of the listed tags |
| Flags.RenderContains | models.py:185-197 | the report's substring test on a stored flag text finds a tag iff the record carries it |
| Enrich.StrippedText | utils.py:19-20 | a cell's text as `str(value).strip()`, with NaN as `nan` |
| Enrich.TagRecord | utils.py:17-30 | stage 1 for one record: its instant and its own tags, in check order |
| Enrich.TagAll | utils.py:13-30 | stage 1 over the batch gives every record's instant and own tags |
| Enrich.DetectOutOfOrder | utils.py:82-99 | exactly the positions whose instant is before the last earlier non-null instant, in increasing order |
| Enrich.LastValidNone | utils.py:90-97 | no previous valid instant iff every earlier record is null |
| Enrich.LastValidAt | utils.py:90-97 | the previous valid instant is the one of the latest earlier non-null record |
| Enrich.UnflaggedOrdered | utils.py:82-99 | with no record flagged, every non-null instant is at least every earlier one |
| Enrich.NoneFlaggedIffInOrder | utils.py:82-99 | no record is flagged iff the non-null instants never decrease in arrival order |
| Enrich.FlaggedHasEarlierArrival | utils.py:95-96 | a flagged record is earlier than some record that arrived before it |
| Enrich.ArrivalOrderExample | utils.py:90-97 | 10:00, null, 09:00, 09:30: only 09:00 is flagged; nulls are skipped, and the comparison is with the last valid instant, not the maximum |
| Enrich.BatchTagsMeaning | utils.py:22-41 | each tag is present iff its condition holds; no duplicate tag at this stage; out-of-order never with invalid; all known tags, none repeated |
| Enrich.MissingTimezoneCells | utils.py:19-27 | a whitespace cell is tagged and gets UTC; an empty (NaN) cell is tagged but looked up as `nan`, never UTC |
| Enrich.ThreeRecordBatch | utils.py:12-45 | empty timezone / unparseable / earlier than the first: tags `missing_timezone`, `invalid_date_format`, `out_of_order` respectively |
| Enrich.WriteFlags | utils.py:38-44 | adds `out_of_order` to the scanned positions and writes every record's tags as JSON text |
| Enrich.CleanAndEnrich | utils.py:12-45 | the frame keeps its rows and gains the processed column and the flags column, one cell per record |
| Enrich.ProcessedAt | utils.py:16-32 | each cell of the processed column is its record's normalized instant |
| Enrich.FlagColumnAt | utils.py:38-44 | each record's flags cell is the JSON text of its stage 1 and 2 tags |
| Enrich.DuplicatesBeforeStep | utils.py:59-76 | each loop step adds the earlier member of the pair exactly when it qualifies |
| Enrich.DetectNearDuplicates | utils.py:48-79 | `None` iff some pair raises; otherwise the earlier members of all qualifying adjacent pairs |
| Enrich.SameFields | utils.py:66-71 | raises iff the customers are equal and an amount is text; true iff same customer, amounts within 0.01, same status and same category |
| Enrich.ScanRaisesMeaning | utils.py:63-71 | the scan raises iff some adjacent pair, both with instants, has equal customers and a text amount |
| Enrich.MarkedRecords | utils.py:59-76 | marked records have an instant, and the last record in sorted order is never marked |
| Enrich.NearDuplicateMeaning | utils.py:59-76 | a record is marked iff it matches its sorted successor: same customer, status and category, amounts within 0.01, successor at most 10 s later |
| Enrich.NearDuplicateExample | utils.py:66-76 | identical purchases 5 s apart: the earlier is marked; 15 s apart: neither |
| Enrich.StoredIssues | utils.py:147-155 | reading a flags cell fails only for text that is not a flag document; a cell of any other type gives no tags |
| Enrich.StoredTimezone | utils.py:168 | the stored timezone is NULL iff the cell is empty text or NaN; otherwise it is the cell itself |
| Enrich.BuildRow | utils.py:140-175 | a row is built iff the flags cell reads and the amount converts; it is labelled UTC, has a null timestamp iff the instant is null, and keeps the id and the raw timestamp |
| Enrich.BuildOne | utils.py:140-178 | the loop body builds exactly that row, or skips the record |
| Enrich.Attempts | utils.py:139-178 | one build outcome per record |
| Enrich.SuccessesMeaning | utils.py:162-178 | the kept rows are those of successful attempts, each one kept, none invented |
| Enrich.BuildRows | utils.py:134-178 | the insert loop hands over exactly the successfully built rows in record order |
| Enrich.InsertCleanData | utils.py:103-185 | nothing is inserted iff the duplicate scan raises; otherwise the built rows, with the scan's marks |
| Enrich.RowsBuiltMeaning | utils.py:139-178 | every inserted row comes from a record, every record whose row builds is inserted, and all are labelled UTC |
| Enrich.StoredFlagsReadBack | utils.py:42-149 | a flags cell written by stage 1 reads back as the record's tags |
| Enrich.ReinsertFlagsStable | utils.py:147-160 | re-running the insert step's flag update on its own output changes nothing |
| Enrich.BuiltRowFlags | utils.py:147-160 | a built row's flag text names a tag iff the cell held it, or it is `duplicate_candidate` and the record was marked |
| Enrich.StoredRowFlags | utils.py:12-160 | for an enriched batch, the stored text names a tag iff stages 1–2 gave it, or it is `duplicate_candidate` and the record was marked |
| Enrich.EnrichedRowBuilds | utils.py:140-177 | a record of an enriched batch is skipped only when its amount does not convert to a float |
| Reports.DaysInMonth | models.py:124 | between 28 and 31 days |
| Reports.MonthsFillYear | models.py:124 | the twelve month lengths add to 366 in Gregorian leap years and 365 otherwise |
| Reports.FebruaryExamples | models.py:124 | February 2024 and 2000 have 29 days, 1900 and 2023 have 28; April 30, December 31 |
| Reports.PeriodBounds | models.py:121-126 | only a text with exactly two `-`-separated pieces can give bounds |
| Reports.PeriodBoundsMeaning | models.py:121-126 | accepted bounds are `{Y}-{MM}-01` and `{Y}-{MM}-{last day}` for the two pieces read as integers, with the month in 1..12 |
| Reports.PeriodRoundTrip | models.py:121-126 | `Y-MM` and `Y-M` both give the first and last day of that month |
| Reports.DateTextReadBack | models.py:123-125 | a bound splits into three pieces that read back as year, month and day |
| Reports.PeriodRejects | models.py:122-124 | no `-`, a third piece, or a month outside 1..12 all raise |
| Reports.SumConcat | models.py:148-150 | sums of amounts are additive |
| Reports.Summarize | models.py:145-151 | the total is the sum of the amounts and the count is the row count; no rows give zero totals |
| Reports.SummarizeConcat | models.py:145-151 | totals and counts of two batches add up |
| Reports.PctChange | models.py:157-160 | no value iff the first figure is 0; otherwise the percentage that takes the first figure to the second |
| Reports.GrowthCases | models.py:145-176 | an empty first period gives no growth figures; a period compared with itself gives 0% |
| Reports.DailyOverview | models.py:20-69 | no stored rows give zeros; the total is the sum of the per-day totals; the average times the number of days is the total; the transaction total is the sum of the daily counts |
| Reports.CountFlag | models.py:185-186 | at most the number of records |
| Reports.CountFlagConcat | models.py:185-186 | counts over two batches add up |
| Reports.CountFlagExtremes | models.py:185-186 | zero iff no text contains the keyword; the row total iff every text does |
| Reports.CountFlagCountsTags | models.py:185-197 | over stored flag documents, a tag's count is exactly the number of records carrying it |
| Reports.DataQualityReport | models.py:179-197 | the total is the row count, and each issue count is at most that |
| Reports.EmptyReport | models.py:179-197 | no rows give all-zero figures |

## Left out

- Database, CSV and HTTP work is not modelled: the sqlite connection, `DELETE`, `executemany` and commit, `pd.read_csv`, and the SQL queries of the reports. This is all I/O. Their results appear as inputs.
- Logging and `print` are left out: they have no effect on results.
- The `dateutil` grammar and the `pytz` zone rules are abstract functions (`TzLibrary`). The model proves the policy around them, not the calendars.
- The `pandas` aggregations are not modelled: `groupby` by local date or hour, `tz_convert`, `dt.floor`, `.mean`, and the per-day and per-hour tables. `DailyOverview` takes the per-day table as input.
- `get_hourly_sales_summary` is a pandas pipeline over query results. Its empty branch only returns an empty data list, so it is not modelled.
- `round(…, 2)` and floating-point arithmetic are not modelled: amounts and percentages are exact reals. The `< 0.01` tolerance test is exact.
- `DailyOverview`: when rows are stored but no day falls in the range, the source divides by zero days. Whether that gives NaN or raises is not modelled; the model gives `None`.
- `str.strip`/`str.lower` cover ASCII only: the non-ASCII whitespace Python also strips (such as U+0085 and U+00A0) and Unicode case mapping are not modelled.
- Reports.CountFlag: `str.contains` reads the keyword as a regular expression; the model reads it as literal text. The two agree for the four tag names the report passes, which contain no regular-expression metacharacters.
- Reports.CountFlagConcat: states additivity for a literal keyword only, for the reason given for `CountFlag`.
- Reports.CountFlagExtremes: states its extremes for a literal keyword only, for the reason given for `CountFlag`.
- `int()` is modelled on ASCII digits with optional surrounding whitespace and `+`. Underscore separators and non-ASCII digits are not accepted by `ParseNat`.
- `json.dumps` escaping and `json.loads` of arbitrary JSON are not modelled. `Loads` reads only the two document shapes the pipeline writes; anything else is a decode error.
- Amount cells that are NaN and non-string customer ids are not modelled. An amount is a number or text.
- A list-valued flags cell (`TagList`) is appended to in place by the source (utils.py:153-158), which mutates the frame's cell. So is a dict-valued cell (`DictDoc`): `.get("issues", [])` (utils.py:150-151) returns the dict's own list, and utils.py:158 appends to it. The model builds the row from a copy in both cases, so that aliasing is not captured.
- Enrich.NearDuplicateMeaning: empty status and category cells are not modelled. pandas reads them as NaN, and `NaN == NaN` is false (utils.py:69-70), so two records with an empty status or category are never near-duplicates. The model's fields are plain text, which always equals itself.
- A dict-valued flags cell is modelled as a flag document. `.get` on other JSON shapes is not modelled.
- Record positions stand for the frame's index labels. The source mixes them: utils.py:39-40 compares `enumerate` positions with the labels `detect_out_of_order` collects, and utils.py:76 and 157 use `iterrows` labels. The two agree only for the default `RangeIndex` that `pd.read_csv` gives (utils.py:10), which is the only frame the model describes.
- The order in which `sort_values` places records with equal instants is not fixed by the model: every claim holds for any such order.
- The `resolution_summary` block of the quality report is four constant sentences, so it is not modelled.
- `load_transaction_data` is a bare CSV read, and testing.py, app.py and the tests are outside the modelled core.
