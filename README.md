# SkySaver flight-response converter and preprocessor, modelled in Dafny

SkySaver crawls flight-search results from many countries and turns them into
one table of flights. The table says, for each flight and each journey, from
which country it was cheapest to buy. This project models the two parts of
that pipeline that hold real logic and proves properties about them.

**Converter.** `src/csv_converter.py` and its older copy `csv_converter.py`
take the raw text of one search response.
- The text is split into journeys on the three characters `[\"`, and the
  first and last pieces are dropped.
- `parse_nested_string_v2` scans each journey character by character into a
  table of trimmed tokens per bracket depth (module `BracketParser`).
- `add_key_four_if_missing` patches depth 4.
- `process_flight_data` pops depths -1 and -2. It then runs seven positional
  extractors over depths 0-4 (modules `Extractors` and `KeyOne`) and merges
  their dicts into one twelve-column record (module `Assembler`).

The converter files differ only in `clean_key_1`:
- `src/csv_converter.py` anchors the dates on year tokens 2024/2025;
- `csv_converter.py` looks for four consecutive integers.

`Assembler.Variant` chooses between the two. Each journey is processed twice,
so every record comes out twice. In `Assembler` a journey's table is a
`Journey` object whose field the converter updates in place.

**Preprocessor.** The preprocessor works on the table of query results.
`src/2_data_preprocessor.py` is the current preprocessor and
`src/data_preprocessor.py` the older one. A table is a sequence of rows.
- Date cells are lists of components. They are normalised by
  `clean_fifth_element` and `convert_list_to_datetime`, which model Python's
  `datetime` and its calendar check (module `Dates`). The `try` there catches
  only `TypeError`, so an invalid calendar value raises `ValueError` (and a
  component beyond a C `int` raises `OverflowError`) rather than giving
  `None`.
- Prices are converted to dollars with a rate table that fails hard on an
  unknown currency (module `Currency`).
- `RecordTable` models the table steps of `main`:
  - building `Flight_ID`;
  - converting the date columns;
  - keep-first deduplication followed by the completeness and price filters;
  - price conversion;
  - the filter that keeps flights queried from at least seven countries.
- `JourneyLabels` models the journey identifier and the two
  cheapest-country labels. The flight label has a 1.5 percent threshold and
  a sentinel; the journey label has neither.

Supporting modules:
- `Outcomes`: the Python exceptions the code can raise, as a `Result`.
- `Text`: Python's string operations.
- `RowOps`: pandas' boolean-mask filter and `drop_duplicates`, on sequences.

Python's `int()`, `str.isdigit()`, `str.isnumeric()` and `str.isalnum()` are
modelled by ASCII predicates. `str.strip()` uses Python's exact whitespace
set. Prices are reals.

## Model

| member | source | states |
|---|---|---|
| Text.Strip | src/csv_converter.py:184 | `strip()` leaves a string with no leading or trailing whitespace |
| Text.StripFacts | src/csv_converter.py:184-185 | stripping keeps only characters of the input and leaves nothing exactly when the input is all whitespace (the `if current_str` test) |
| Text.RemoveCharFacts | src/csv_converter.py:9 | `replace(c, '')` keeps exactly the characters other than `c`, and changes nothing when `c` does not occur |
| Text.ReplaceChar | src/csv_converter.py:130-131 | `replace(',', ':')` keeps the length and changes exactly the occurrences of `,` |
| Text.ParseInt | src/2_data_preprocessor.py:42 | `int(s)` of a string whose stripped text is ASCII digits is the decimal value of those digits |
| Text.DecimalRoundTrip | src/2_data_preprocessor.py:89 | `int(str(n)) == n` for the digits `str` prints |
| Text.DecimalInjective | src/2_data_preprocessor.py:89 | distinct natural numbers print differently |
| Text.Pad2 | src/2_data_preprocessor.py:215 | `%d`/`%m` print two digits whose value is the number |
| Text.DecimalFourDigits | src/2_data_preprocessor.py:215 | a year from 1000 to 9999 prints as four characters |
| Text.LexLeTotal | src/2_data_preprocessor.py:273 | Python's string order compares any two strings |
| Text.LexLeTransitive | src/2_data_preprocessor.py:273 | Python's string order is transitive |
| Text.LexLeAntisymmetric | src/2_data_preprocessor.py:273 | two strings each `<=` the other are equal |
| Text.MinString | src/2_data_preprocessor.py:273 | `min` of a non-empty list of strings is one of them and `<=` every one |
| Text.MinStringUnique | src/2_data_preprocessor.py:273 | any element `<=` all elements is the `min` |
| Text.Find | src/csv_converter.py:272 | the first occurrence of the separator, or none |
| Text.Split | src/csv_converter.py:272 | `split` always gives at least one piece; `Text.SplitJoin` and `Text.SplitPiecesFree` state the rest |
| Text.Join | src/2_data_preprocessor.py:89 | a single piece joins to itself, and every character of every piece appears in the join |
| Text.JoinInjective | src/2_data_preprocessor.py:89 | two `'-'.join`s of equally many pieces free of `-` agree only when the pieces do |
| Text.SplitJoin | src/csv_converter.py:272 | joining the pieces of a `split` gives back the text, so splitting loses nothing but the separators |
| Text.SplitPiecesFree | src/csv_converter.py:272-275 | no piece of a `split` contains the separator |
| BracketParser.Store | src/csv_converter.py:186-189 | appending to the list of one depth creates it when new and leaves every other depth unchanged |
| BracketParser.Step | src/csv_converter.py:182-207 | one character moves the depth by +1 on `[`, -1 on `]` and 0 otherwise, and stores nothing unless it is `[`, `]` or `,` |
| BracketParser.Scan | src/csv_converter.py:181-207 | after any prefix the pending buffer holds no `[`, `]` or `,` (`ScanInvariant` adds the depth and the table) |
| BracketParser.Levels | src/csv_converter.py:176-216 | the returned table is well formed: every depth maps to a non-empty list of non-empty, stripped tokens free of `[`, `]` and `,` |
| BracketParser.FlushBuffer | src/csv_converter.py:184-189 | the flush of the buffer, as a method over the level table, computes `Flush` |
| BracketParser.ParseNestedString | src/csv_converter.py:176-216 | the character loop computes `Levels`, the fold of `Step` over the input |
| BracketParser.StepInvariant | src/csv_converter.py:182-207 | each character keeps the buffer free of delimiters and the table well formed, and moves the depth by +1 on `[`, -1 on `]`, 0 otherwise |
| BracketParser.ScanInvariant | src/csv_converter.py:181-207 | after any prefix the depth is the number of `[` minus the number of `]`, and the table is well formed |
| BracketParser.LevelsWellFormed | src/csv_converter.py:181-215 | every stored token is non-empty and stripped, and holds no `[`, `]` or `,`; every depth present maps to a non-empty list |
| BracketParser.DepthIsBalance | src/csv_converter.py:190 | the depth is never clamped, so surplus `]` drives it below 0 |
| BracketParser.ScanText | src/csv_converter.py:206-207 | ordinary characters only extend the buffer |
| BracketParser.RootOpenMerges | src/csv_converter.py:182-190 | a `[` at depth <= 0 flushes nothing, so the pending text merges into the next token |
| BracketParser.GroupKeysPositive | src/csv_converter.py:176-216 | a single bracketed group such as `[a,[b,c],d]` stores nothing at depth 0 or below |
| BracketParser.NestedGroupLevels | src/csv_converter.py:176-216 | for any four letters, `[a,[b,c],d]` gives exactly `{1: [a, d], 2: [b, c]}`: the outer tokens at depth 1, the inner at depth 2, no key 0 |
| BracketParser.NestedGroupExample | src/csv_converter.py:176-216 | `parse_nested_string_v2("[a,[b,c],d]")` is exactly `{1: ["a", "d"], 2: ["b", "c"]}` |
| Extractors.Clean | src/csv_converter.py:9 | the cleaned entry has no `"` and no `,` and is stripped |
| Extractors.QuoteClean | src/csv_converter.py:105 | the quote-cleaned entry has no `"`, is stripped and uses only characters of the input |
| Extractors.CleanKey0 | src/csv_converter.py:7-24 | `IndexError` exactly when an index read is past the end; otherwise three code columns free of `"` and `,` |
| Extractors.CleanKey0Source | src/csv_converter.py:13-18 | the codes come from indices 1-3 when the cleaned index 2 has three characters, and otherwise from indices 18-20 |
| Extractors.CleanKey2 | src/csv_converter.py:69-72 | `First_flight` is the cleaned index 3, `-`, the cleaned index 6; `IndexError` below seven entries |
| Extractors.Filtered | src/csv_converter.py:79-83 | the loop keeps no more entries than it reads, and no kept entry starts with `null` or equals `true` |
| Extractors.FilteredIsFilter | src/csv_converter.py:79-82 | the entries the loop keeps are exactly those that neither start with `null` nor equal `true`, in input order: the mask filter, and a subsequence of the input |
| Extractors.Preprocessed | src/csv_converter.py:74-96 | the result is the longest prefix of the kept entries whose length is a multiple of five |
| Extractors.PreprocessFlightData | src/csv_converter.py:74-96 | the grouping loop computes `Preprocessed`; the leftover test at lines 93-94 never fires |
| Extractors.PreprocessIdempotent | src/csv_converter.py:74-96 | preprocessing twice is preprocessing once |
| Extractors.FirstCode | src/csv_converter.py:104-110 | the first entry that cleans to an alphanumeric, not purely numeric, string |
| Extractors.CleanKey3 | src/csv_converter.py:99-122 | the loop with `break` returns the first qualifying entry followed by the cleaned next entry |
| Extractors.FlightCode | src/csv_converter.py:99-122 | `first_flight_code` holds no `"` and starts with the quote-cleaned first qualifying entry |
| Extractors.FlightCodeAt | src/csv_converter.py:104-118 | the code the loop assembles when it stops at a given index |
| Extractors.FlightCodeEmpty | src/csv_converter.py:100-118 | `first_flight_code` is `""` exactly when no entry qualifies, and otherwise starts with the first qualifying entry |
| Extractors.LastWindowStart | src/csv_converter.py:126 | the last window the range visits starts at a multiple of five and fits in the list |
| Extractors.JourneyTimes | src/csv_converter.py:124-140 | `UnboundLocalError` exactly when there is no complete five-token window |
| Extractors.C2leanKey3 | src/csv_converter.py:124-140 | the window loop computes `JourneyTimes` |
| Extractors.JourneyTimesLastWindow | src/csv_converter.py:125-138 | only the last complete window counts: earlier windows are overwritten and a trailing partial window is ignored |
| Extractors.JourneyTimesNoComma | src/csv_converter.py:130-131 | the times hold no `,` |
| Extractors.CleanKey4 | src/csv_converter.py:144-149 | `last_flight_code` is the two quote-cleaned first entries concatenated; `IndexError` below two entries |
| KeyOne.PySlice | src/csv_converter.py:53-54 | a Python slice `data[a:b]` is empty when `a` is past the end, and otherwise holds `data[a..min(b, len)]` element by element |
| KeyOne.YearFlags | src/csv_converter.py:34-36 | a token counts as a year exactly when it is four ASCII digits of value 2024 or 2025 |
| KeyOne.Positions | src/csv_converter.py:29-41 | the positions are ascending and are exactly the flagged ones |
| KeyOne.YearIndices | src/csv_converter.py:29-41 | the indices are ascending and are exactly those of the year tokens |
| KeyOne.FindYearIndices | src/csv_converter.py:29-41 | the loop of `find_year_indices` computes `YearIndices` |
| KeyOne.CleanKey1Years | src/csv_converter.py:27-65 | a dict result has exactly the four keys of `clean_key_1` |
| KeyOne.CleanKey1YearsEmpty | src/csv_converter.py:45-47 | the tuple `([], [])` comes back exactly when there are fewer than two year tokens |
| KeyOne.CleanKey1YearsSpans | src/csv_converter.py:49-58 | the departure is `data[y0:y1]`, the arrival `data[y1:min(len, 2*y1-y0)]`, the airline the quote-cleaned index 1 and the price the last entry verbatim |
| KeyOne.DepartureHasOneYear | src/csv_converter.py:53 | the departure date starts with a year token and holds no other |
| KeyOne.IntsOf | csv_converter.py:36 | one parse result per entry, each the `int()` of that entry or none when it is not an integer |
| KeyOne.FirstQuadFrom | csv_converter.py:33-43 | the first index with four consecutive integers, or none |
| KeyOne.IntsUntil | csv_converter.py:55-58 | the integers read up to the first entry that is not one |
| KeyOne.ConsecutiveDates | csv_converter.py:33-69 | the departure is the four integers at the first run of four, empty when there is none (and the arrival with it); the entry after them, when an integer unequal to the departure's first, is appended and the arrival is the integers from the next entry, at most five, up to the first non-integer; when equal, the arrival is the integers from that entry, at most four; otherwise nothing is added; so the departure has 0, 4 or 5 integers and the arrival at most 5 |
| KeyOne.ConsecutiveDatesSameYear | csv_converter.py:59-64 | an entry repeating the departure's first integer starts the arrival: `[2024,3,15,10]` then `[2024,3,16,12]` |
| KeyOne.ConsecutiveDatesFifthComponent | csv_converter.py:50-57 | an unequal integer after the four becomes the departure's fifth component, and the arrival is read after it |
| KeyOne.CleanKey1Consecutive | csv_converter.py:27-76 | `UnboundLocalError` for an empty list, `IndexError` for one entry, otherwise a dict with exactly the four keys: the quote-cleaned index 1, the last entry verbatim, and the two date lists of `ConsecutiveDates` over the entries' `int()` values |
| KeyOne.ReadIntRun | csv_converter.py:55-58 | one arrival loop with its `break` computes `IntsUntil` |
| KeyOne.ScanDates | csv_converter.py:33-69 | the search loop and the arrival rule compute `ConsecutiveDates`, or nothing when the loop variable is never bound |
| KeyOne.CleanKey1Scan | csv_converter.py:27-76 | the whole function as loops computes `CleanKey1Consecutive` |
| Assembler.ColumnListComplete | src/csv_converter.py:244-245 | `column_list` names each of the twelve columns exactly once |
| Assembler.WithKeyFour | src/csv_converter.py:218-234 | key 4 present: nothing changes; absent: it becomes the last five tokens of key 3 when key 3 has at least five, else `[]`; no other key changes |
| Assembler.WithKeyFourIdempotent | src/csv_converter.py:218-234 | patching twice is patching once |
| Assembler.Popped | src/csv_converter.py:156-157 | exactly depths -1 and -2 are removed and the rest is untouched |
| Assembler.KeyOneOf | src/csv_converter.py:161 | the chosen converter's `clean_key_1`: the year-anchored result, or the consecutive-integer result with its exceptions |
| Assembler.Get | src/csv_converter.py:160-166 | `raw_data[k]` succeeds exactly when the depth is present and raises `KeyError` otherwise |
| Assembler.Front | src/csv_converter.py:160-165 | the extractors on depths 0-3 succeed only when all four depths are present and depth 3 has at least five tokens; `TypeError` never arises there |
| Assembler.Extract | src/csv_converter.py:160-166 | all extractors succeed only when depths 0-4 are present, and then every extractor produces its own keys |
| Assembler.Assemble | src/csv_converter.py:168 | `{**...}` raises `TypeError` exactly on the tuple from `clean_key_1`, and otherwise has the union of the extractors' keys |
| Assembler.AssembleColumns | src/csv_converter.py:168 | the extractors' keys are disjoint, so the merged record has every column with the value of the extractor that produced it |
| Assembler.FlightRecord | src/csv_converter.py:154-173 | a record that comes out has every column of `column_list`, and the table had depths 0-4 |
| Assembler.TypeErrorFromKeyOne | src/csv_converter.py:160-168 | `TypeError` arises exactly when every extractor ran and the year-anchored `clean_key_1` returned the tuple; never in the other converter |
| Assembler.FlightRecordAfterPop | src/csv_converter.py:156-157 | processing an already popped table gives the same record |
| Assembler.DefaultKeyFourUnreachable | src/csv_converter.py:230-232 | the `[]` default for key 4 never reaches `clean_key_4`: processing then fails before it, whatever key 4 holds |
| Assembler.Journey.constructor | src/csv_converter.py:283 | a journey holds the table it was given |
| Assembler.Journey.AddKeyFourIfMissing | src/csv_converter.py:218-234 | the table is patched in place to `WithKeyFour` of the old table |
| Assembler.Journey.ProcessFlightData | src/csv_converter.py:154-173 | the table is popped in place and the result is the record of the old table |
| Assembler.JourneyPiecesFacts | src/csv_converter.py:272-275 | no journey contains `[\"`, and there are two pieces fewer than the split has, or none |
| Assembler.Prepared | src/csv_converter.py:282-287 | one table per journey piece: the scan of the piece patched at key 4 |
| Assembler.RunOutcomes | src/csv_converter.py:289-291 | one outcome per table, the record of that table |
| Assembler.ProcessAllPopped | csv_converter.py:300-308 | the second processing loop, over the tables the first popped, gives the same result |
| Assembler.Twice | csv_converter.py:300-308 | the output holds the run's records twice in order, and fails exactly when the run fails |
| Assembler.Tables | src/csv_converter.py:279 | the tables the journeys currently hold |
| Assembler.ParseJourneys | src/csv_converter.py:279-284 | one fresh journey per piece, each holding the scan of its piece |
| Assembler.AddKeyFourAll | src/csv_converter.py:286-287 | every journey's table is patched |
| Assembler.ProcessStep | src/csv_converter.py:289-291 | one pass of the loop pops one journey, leaves the others alone, and either ends the run with its exception or extends it with its record |
| Assembler.ProcessJourneys | src/csv_converter.py:289-291 | the loop returns the records of all journeys in order, or the first exception, and pops every table |
| Assembler.ConvertResponse | csv_converter.py:283-308 | one response yields every journey's record twice, or the first exception |
| Outcomes.CollectSuccess | src/csv_converter.py:289-291 | a run succeeds exactly when every call does, and then holds their values in order |
| Outcomes.CollectFirstFailure | src/csv_converter.py:289-291 | a run fails with the exception of its first failing call |
| Dates.DaysInMonth | src/2_data_preprocessor.py:47 | a month has 28 to 31 days; February has 29 exactly in leap years |
| Dates.NewDateTime | src/2_data_preprocessor.py:47 | `datetime(...)` succeeds exactly on a valid calendar date and time; a component beyond a C `int` raises `OverflowError`, any other invalid one `ValueError` |
| Dates.CleanItem | src/2_data_preprocessor.py:21-37 | a list shorter than five gets 0 appended; a longer one keeps its length and every element but index 4, which becomes its `int` value or 0 |
| Dates.CleanFifthElement | src/2_data_preprocessor.py:21-37 | the loop returns one cleaned list per input list |
| Dates.CleanItemIdempotent | src/2_data_preprocessor.py:21-37 | cleaning a list of four or more elements twice is cleaning it once |
| Dates.ElementValue | src/2_data_preprocessor.py:42 | `'null'` is 0, an `int` stays, another string is `int(s)` or `ValueError` |
| Dates.ElementValues | src/2_data_preprocessor.py:42 | the comprehension succeeds exactly when every element converts, and holds their values |
| Dates.ConvertListToDatetime | src/2_data_preprocessor.py:40-56 | five values: `datetime(*values)`; four: minute 0; any other length: `None`; no failure is caught: a non-numeric string or an invalid calendar value raises `ValueError`, a component beyond a C `int` `OverflowError` |
| Dates.HugeYearOverflows | src/2_data_preprocessor.py:47 | a year of 2^31 raises `OverflowError`, not `ValueError` |
| Dates.ItemsOf | src/2_data_preprocessor.py:47 | a `datetime`'s five components |
| Dates.DateTimeRoundTrip | src/2_data_preprocessor.py:21-56 | a valid `datetime` written as its five components comes back unchanged through both steps |
| Dates.ParseIntDecimal | src/2_data_preprocessor.py:42 | `int(str(n)) == n` |
| Dates.YearMonthDayIsMidnight | src/2_data_preprocessor.py:100-108 | a valid `[y, m, d]` becomes midnight of that day |
| Dates.ElementValueDecimal | src/2_data_preprocessor.py:42 | a decimal string converts to its number |
| Dates.YearMonthDayTextIsMidnight | src/2_data_preprocessor.py:100-108 | the same for three decimal strings |
| Dates.MonthThirteenRaises | src/2_data_preprocessor.py:54-56 | month 13 raises `ValueError`, not `None` |
| Dates.ThirtiethFebruaryRaises | src/2_data_preprocessor.py:54-56 | 30 February raises `ValueError` |
| Dates.NonNumericRaises | src/2_data_preprocessor.py:42 | a string neither `'null'` nor an integer raises `ValueError` at any length |
| Dates.LeapDay | src/2_data_preprocessor.py:47 | 29 February exists in 2024 and 2000 but not in 1900 or 2025 |
| Currency.ConversionRatesFacts | src/data_preprocessor.py:59-73 | the table has exactly thirteen currencies, USD at 1.0 and EUR at 1.08, and every rate is positive |
| Currency.RateOf | src/2_data_preprocessor.py:154 | `get` finds a rate exactly when the currency is a string key of the table |
| Currency.ConvertToUsdWith | src/2_data_preprocessor.py:151-159 | `KeyError` exactly when a named column is missing; `ValueError` exactly when the currency has no rate; otherwise the price times the rate |
| Currency.ConvertToUsd | src/data_preprocessor.py:7-20 | `KeyError` exactly when a named column or `ticket_price` is missing; `ValueError` exactly when the currency is not in the table |
| Currency.ConvertToUsdReadsTicketPrice | src/data_preprocessor.py:8-10 | the older function always prices `ticket_price` at the built-in rate, whatever column it is handed |
| Currency.ConvertToUsdIgnoresPriceColumn | src/data_preprocessor.py:8-10 | changing the named price column never changes the result |
| Currency.NoDefaultRate | src/2_data_preprocessor.py:156-157 | an unknown currency always raises `ValueError` |
| Currency.DollarAndEuro | src/data_preprocessor.py:59-73 | a dollar price is unchanged and a euro price is scaled by 1.08 |
| RowOps.Filter | src/2_data_preprocessor.py:148 | every kept row passes the mask |
| RowOps.FilterFacts | src/2_data_preprocessor.py:148 | a row is kept exactly when it is in the table and passes the mask, in order |
| RowOps.DropDuplicates | src/2_data_preprocessor.py:140 | `drop_duplicates(keep='first')` gives a subsequence of the table with distinct keys that still holds every key |
| RowOps.DropDuplicatesFromFacts | src/2_data_preprocessor.py:141 | `drop_duplicates(keep='first')` keeps order, keeps one row per key, the first row of its key, and every key |
| RecordTable.IdValues | src/2_data_preprocessor.py:86-88 | the eleven identifier columns in order, as `astype(str)` prints them (a NaN airport code as `nan`) |
| RecordTable.WithFlightId | src/2_data_preprocessor.py:82-91 | `Flight_ID` is the `-`-join of the eleven columns; the three dropped columns are gone and the rest is kept |
| RecordTable.CreateFlightId | src/2_data_preprocessor.py:82-91 | the step is applied to every row in order |
| RecordTable.FlightIdInjective | src/2_data_preprocessor.py:89 | when no identifier column holds `-`, `Flight_ID` determines all eleven |
| RecordTable.FlightIdCollision | src/2_data_preprocessor.py:89 | since `First_flight` holds a `-`, two rows with different columns can share a `Flight_ID` |
| RecordTable.ConvertDateColumn | src/2_data_preprocessor.py:100-108 | a converted column has one cell per row |
| RecordTable.ConvertDateColumnFacts | src/2_data_preprocessor.py:100-108 | a column converts exactly when every cell does, and each cell holds its own conversion |
| RecordTable.ConvertDateColumns | src/2_data_preprocessor.py:93-110 | the converted table has one row per row |
| RecordTable.ConvertDateColumnsFacts | src/2_data_preprocessor.py:93-110 | the table converts exactly when every date cell does; each row then holds its two dates and is otherwise unchanged |
| RecordTable.DuplicateKey | src/2_data_preprocessor.py:136-137 | the key is NaN exactly when the country or the language is NaN, and otherwise starts with the `Flight_ID` |
| RecordTable.RemoveDuplicatesAndErroneousRows | src/2_data_preprocessor.py:128-149 | the cleaned table has no more rows than the input, and every row in it is complete |
| RecordTable.RemoveDuplicatesKeepsOrder | src/2_data_preprocessor.py:128-149 | the result is a subsequence of the input with only complete rows (currency, price and country present, price >= 10), no two with the same key |
| RecordTable.RemoveDuplicatesKeepsFirst | src/2_data_preprocessor.py:137-141 | each kept row is the first row of the input with its key |
| RecordTable.RemoveDuplicatesKeepsComplete | src/2_data_preprocessor.py:137-148 | the first row of a key is kept when it is complete |
| RecordTable.RemoveDuplicatesIdempotent | src/2_data_preprocessor.py:128-149 | cleaning a cleaned table changes nothing |
| RecordTable.MissingLanguageKeepsOne | src/2_data_preprocessor.py:137-147 | a NaN language makes the key NaN, so at most one row without a language survives |
| RecordTable.IncompleteFirstHidesLater | src/2_data_preprocessor.py:140-148 | when the first row of a key is incomplete, no other row of that key survives |
| RecordTable.ConvertPricesToUsd | src/2_data_preprocessor.py:163-168 | a table with no rows raises `ValueError` (`apply` falls back to the whole table, which cannot fill one column); a priced table has one row per row, each carrying its own row |
| RecordTable.PricesOfCompleteRows | src/2_data_preprocessor.py:163-168 | on complete rows the step succeeds exactly when the table has rows and every currency has a rate, each row then carries its price times that rate, and otherwise it raises `ValueError` |
| RecordTable.FilterByCountryVariance | src/2_data_preprocessor.py:188-211 | no more rows than the input, and every kept row's flight has at least `min_countries` distinct countries in the input |
| RecordTable.CountryVarianceFacts | src/2_data_preprocessor.py:188-211 | a row is kept exactly when its flight has at least `min_countries` distinct countries; a flight's rows go together, order is kept and so are the countries |
| RecordTable.CountryVarianceIdempotent | src/2_data_preprocessor.py:188-211 | filtering a filtered table changes nothing |
| RecordTable.CleanTable | src/2_data_preprocessor.py:372-378 | a raw table with no rows fails, and a cleaned table never has more rows than the raw one |
| RecordTable.CleanTableFacts | src/2_data_preprocessor.py:372-378 | every row of the cleaned table is complete, priced at its currency's rate, and in a flight queried from at least seven countries |
| RecordTable.FilterWellPriced | src/2_data_preprocessor.py:378 | the country filter with seven keeps well-priced rows well priced, each in a flight with seven countries |
| JourneyLabels.ExtractDay | src/2_data_preprocessor.py:214-217 | a day text exists exactly when the date does |
| JourneyLabels.JourneyRoute | src/2_data_preprocessor.py:220 | `Journey_route` is the departure code, `-`, the destination code, and is NaN exactly when either code is NaN |
| JourneyLabels.JourneyId | src/2_data_preprocessor.py:219-222 | `Journey_ID` exists exactly when both airport codes and both dates do |
| JourneyLabels.MissingCodeNoJourneyLabel | src/2_data_preprocessor.py:219-222 | a row with a NaN airport code has no `Journey_route`, no `Journey_ID` and no journey label |
| JourneyLabels.DayTextLength | src/2_data_preprocessor.py:215 | a four-digit-year day prints as ten characters |
| JourneyLabels.Pad2Injective | src/2_data_preprocessor.py:215 | two-digit padding is injective |
| JourneyLabels.DayTextInjective | src/2_data_preprocessor.py:215-216 | distinct calendar days print differently |
| JourneyLabels.JourneyIdIffSameDays | src/2_data_preprocessor.py:214-222 | on one (non-NaN) route, two rows share a `Journey_ID` exactly when they depart on the same day and arrive on the same day, whatever their times |
| JourneyLabels.GroupPricesFacts | src/2_data_preprocessor.py:225 | the group's prices are exactly the non-NaN prices of its rows |
| JourneyLabels.MinReal | src/2_data_preprocessor.py:225 | `min` is one of the prices and no price is below it |
| JourneyLabels.MaxReal | src/2_data_preprocessor.py:225 | `max` is one of the prices and no price is above it |
| JourneyLabels.GroupMinFacts | src/2_data_preprocessor.py:271-272 | a group minimum exists exactly when some row of the group has a price, and `Price_in_USD == min` holds exactly on the cheapest rows |
| JourneyLabels.CountriesAtPriceFacts | src/2_data_preprocessor.py:271-273 | the countries at the minimum are exactly the non-NaN countries of the cheapest rows |
| JourneyLabels.CheapestCountryFacts | src/2_data_preprocessor.py:271-273 | the cheapest country exists exactly when a cheapest row names a country; it is then a cheapest row's country and alphabetically first among them |
| JourneyLabels.SignificantIffSpread | src/2_data_preprocessor.py:276-279 | with positive prices a flight passes the 1.5 threshold exactly when its dearest price is at least 1.5 percent above its cheapest |
| JourneyLabels.SpreadBound | src/2_data_preprocessor.py:228 | `(max - min) / min * 100 >= 1.5` is `max >= min * 1.015` for a positive minimum |
| JourneyLabels.IdentifyCheapestLocationFlight | src/2_data_preprocessor.py:276-296 | one label per row, the left merge keeping the rows |
| JourneyLabels.FlightLabel | src/2_data_preprocessor.py:276-294 | a label other than the sentinel goes only to a flight above the threshold, and it is the country of one of the flight's cheapest rows |
| JourneyLabels.FlightLabelFacts | src/2_data_preprocessor.py:276-296 | a flight below the threshold gets the sentinel; one above it gets the alphabetically first country of its cheapest rows, or the sentinel when none names a country |
| JourneyLabels.FlightLabelPerFlight | src/2_data_preprocessor.py:285-291 | all rows of one flight get the same label |
| JourneyLabels.OnePriceNoLabel | src/2_data_preprocessor.py:278-279 | a flight with a single price is never labelled with a country |
| JourneyLabels.IdentifyCheapestLocationJourney | src/2_data_preprocessor.py:270-274 | one label per row |
| JourneyLabels.JourneyLabel | src/2_data_preprocessor.py:270-274 | a journey label exists only with a `Journey_ID`, and it is the country of one of the journey's cheapest rows |
| JourneyLabels.JourneyLabelFacts | src/2_data_preprocessor.py:270-274 | a journey label exists exactly when the `Journey_ID` does and some cheapest row of the journey names a country; it is then the alphabetically first such country, with no threshold |
| JourneyLabels.CheapestRowExists | src/2_data_preprocessor.py:271-272 | a group in which some row has a price has a cheapest row |
| JourneyLabels.CleanRowsHaveJourneyLabels | src/2_data_preprocessor.py:270-274 | on a table where every row has a price and a country, every row with a `Journey_ID` gets a label |
| JourneyLabels.CleanTableJourneyLabels | src/2_data_preprocessor.py:372-384 | every row of the cleaned table with a `Journey_ID` gets a journey label |

`src/data_preprocessor.py` has its own copies of `clean_fifth_element`
(lines 41-57) and `convert_list_to_datetime` (lines 23-39). They behave like
the ones in `src/2_data_preprocessor.py`, so `Dates.CleanItem`,
`Dates.CleanFifthElement` and `Dates.ConvertListToDatetime` model both.
The converter functions other than `clean_key_1` appear in both converter
files, at shifted lines: `csv_converter.py` lines 7-24, 80-83, 85-107,
110-133, 135-151, 155-160, 165-184, 187-227 and 229-245 hold the same
functions as `src/csv_converter.py` lines 7-24, 69-72, 74-96, 99-122,
124-140, 144-149, 154-173, 176-216 and 218-234.

## Left out

- Reading files, `glob`, the `unicode_escape` decoding, the BeautifulSoup metadata, `pd.concat`, `to_csv` and `pd.to_numeric`: these are I/O. A response is a string, and the output is a sequence of records.
- The `len(df_json) > 0` check and the metadata columns that follow the processing loops: these write the files.
- `ast.literal_eval` is a parameter of `RecordTable.ConvertDateColumn`. `str` of a price in the duplicate key is a parameter of `RecordTable.DuplicateKey`. The rate table of `src/2_data_preprocessor.py` is a parameter too, since it is read from a JSON file.
- `calculate_commute_time`, `set_query_date_and_calculate_days_until_departure` and the statistics after `identify_cheapest_location_JourneyID`: the model leaves out the timedelta arithmetic and floating-point statistics (`trim_mean`, logarithms, medians, means, relative scores).
- `determine_mode_cheapest_location` and `determine_mode_cheapest_location_JourneyID`: these use an unseeded random shuffle.
- Of `calculate_FlightID_price_stats`, only the group maximum and minimum and the relative spread the 1.5 threshold reads are modelled. Prices are reals, not IEEE doubles.
- `int()`, `isdigit()`, `isnumeric()` and `isalnum()` are ASCII approximations. Python also accepts other Unicode digits and letters, underscores and signs in `int()`.
- pandas `merge(how='left')` and the inner merge in `filter_by_country_variance` are taken to keep the left table's row order. The model also assumes that `drop_duplicates` treats all NaN keys as one.
- The model does not capture `.dt.strftime` raising `AttributeError` on a column with no datetimes, nor the narrower year range of pandas timestamps.
- JourneyLabels.JourneyIdIffSameDays: stated only for four-digit years (1000-9999). Shorter years print with fewer digits, and the model does not prove text injectivity for them.
- RecordTable.CleanTable: does not model the commute-time and query-date columns computed between price conversion and the country filter. They add columns only, so they do not change which rows survive.
- Currency.Scale: has no contract of its own. `Currency.ConvertToUsdWith` and `Currency.DollarAndEuro` state what it computes.
- RecordTable.Cells: holds only the five columns `convert_to_usd` can be asked about. A row with other names is not modelled.
- Text.IsInt: has no contract. It is `ParseInt(s).Some?`.
- The `Flight_ID`, `Journey_ID` and label columns are modelled as functions of the table rather than as new columns written in place.
- Text.ParseInt: the contract states only the unsigned case. The body also reads one leading `+` or `-`.
