# GISTEMP configuration loaders and station plotting, in Dafny

This project models two parts of the Clear Climate Code reimplementation of GISTEMP.

**Configuration loaders** (`gsoc/CCCgistemp/code/read_config.py`). Each of these reads one text file into a dictionary:

- `v2_get_sources` reads the three station tables (`input/mcdw.tbl`, `input/ushcn2.tbl` and `input/sumofday.tbl`, in that order). It maps each 12-character record identifier (`id11 + duplicate`) to the name of the last table, in the order mcdw, ushcn2, sumofday, that lists it.
- `step1_adjust` maps a record identifier to its adjustment, a `(year, month, summand)` triple.
- `get_changes_dict` maps a record identifier to the list of omissions named for it in the omission list. Each omission is a year range `first-last` or a single month `year/month`.

**Station plotting** (`tool/stationplot.py`):

- `asdict` selects the runs of v2.mean lines whose record or station identifier was asked for.
- `get_meta` looks up the v2.inv metadata of the selected stations.
- `aplot` cuts a record's monthly values into the runs that are drawn as separate lines. A missing value (`-9999`) or a missing whole year breaks a run.
- `plot` computes the year and temperature extents, places the decade ticks on the horizontal axis and checks that the colour list has a colour for every record.

Modules:

- `Outcomes`: `Option`, `Result`, and `MapAll`, which applies a fallible step to every line and stops at the first error.
- `PyText`: Python 2's `int()`, `str.split(sep)`, slicing and `lower()` on strings.
- `Dicts`: dictionaries built by `d[k] = v` and by `d[k].append(v)`.
- `Itertools`: `itertools.groupby`.
- `ReadConfig`, `StationSelect`, `StationSegments` and `StationPlot`: the operations above.

Loops that fill a dictionary or update running extents are methods with loop invariants. Each is proved equal to, or fully characterised by, a specification of its inputs: a function, or for the extents loop the predicate `Summarises`. The properties the source promises are lemmas about that specification.

Files are given as a map from path to contents. A path missing from the map is a file `open()` cannot open. The loaders see a line as the list of tokens `line.split()` makes of it. A `Result` error stands for each exception the source raises. Nothing raised is caught except the `ValueError` that `get_changes_dict` catches. The first failing line decides the error.

## Model

| member | source | states |
|---|---|---|
| PyText.ParseInt | gsoc/CCCgistemp/code/read_config.py:39 | `int()` of a token accepts exactly an optional sign followed by one or more decimal digits; a negative result comes from a leading `-` |
| PyText.ParseIntValue | gsoc/CCCgistemp/code/read_config.py:39 | `int()` reads any run of zeros followed by the decimal digits of `n` as `n`, with a leading `+` as `n` and with a leading `-` as `-n` (so `0042`, `+5` and `-0` read as 42, 5 and 0) |
| PyText.ParseShowInt | gsoc/CCCgistemp/code/read_config.py:59-62 | every integer written in decimal reads back as itself; the text has a `-` exactly when the integer is negative, and never a `/` |
| PyText.Prefix | tool/stationplot.py:279 | `s[:n]` is the first `n` characters of `s`, or all of `s` when it is shorter |
| PyText.Lower | gsoc/CCCgistemp/code/read_config.py:25 | `source.lower()` has the same length as `source` and contains no capital; each ASCII capital becomes the small letter at the same alphabet position, and every other character is kept |
| PyText.LowerIdempotent | gsoc/CCCgistemp/code/read_config.py:25 | lower-casing an already lower-cased name changes nothing |
| PyText.Slice | tool/stationplot.py:281-283 | `line[i:j]` has length `j - i`, clipped to the end of `line` (empty when `line` is no longer than `i`), and its `k`-th character is `line[i + k]` |
| PyText.Split | gsoc/CCCgistemp/code/read_config.py:59 | `str.split(sep)` gives at least one piece, no piece contains the separator, and joining the pieces with it gives back the text |
| PyText.SplitJoin | gsoc/CCCgistemp/code/read_config.py:59 | splitting pieces that were joined by a separator they do not contain gives back the same pieces |
| Outcomes.MapAllMeaning | gsoc/CCCgistemp/code/read_config.py:59 | Python 2's eager `map(f, xs)` succeeds exactly when `f` succeeds on every element, then gives `f` of each element in order; otherwise it raises the error of the first element `f` fails on |
| Dicts.AssignLastWins | gsoc/CCCgistemp/code/read_config.py:39 | every key of a dictionary built by `d[k] = v` comes from some pair and holds that pair's value; every pair's key is present; a key's last pair gives its value |
| Dicts.AssignConcat | gsoc/CCCgistemp/code/read_config.py:24-27 | assigning two lists of pairs in turn is the merge of their dictionaries, the second taking precedence |
| Dicts.AccumulateKeepsAll | gsoc/CCCgistemp/code/read_config.py:64-65 | a dictionary built by `d[k] = d.get(k, []); d[k].append(v)` has exactly the keys of the pairs, and each holds that key's values in order |
| Itertools.GroupBy | tool/stationplot.py:331 | `groupby` cuts the input into maximal runs of elements with equal keys; laid end to end, the runs are the input |
| Itertools.GroupByUnique | tool/stationplot.py:103 | the maximal runs of equal keys that cover the input are unique, so any such split is the `groupby` result |
| ReadConfig.TablePaths | gsoc/CCCgistemp/code/read_config.py:24-25 | the three table paths are `input/mcdw.tbl`, `input/ushcn2.tbl` and `input/sumofday.tbl`, in that reading order |
| ReadConfig.V2GetSources | gsoc/CCCgistemp/code/read_config.py:16-28 | the loop over the three tables and their lines returns exactly `SourceMap`: the first missing table or first line without exactly three fields is the error, otherwise the dictionary of all assignments in reading order |
| ReadConfig.SourceErrorSticks | gsoc/CCCgistemp/code/read_config.py:24-27 | once a table fails, reading the later tables cannot change the error |
| ReadConfig.TableParse | gsoc/CCCgistemp/code/read_config.py:26 | a table reads without error exactly when every one of its lines has three fields |
| ReadConfig.TableAssignments | gsoc/CCCgistemp/code/read_config.py:26-27 | a well-formed table assigns, line by line, `id11 + duplicate` to its label |
| ReadConfig.EntriesMap | gsoc/CCCgistemp/code/read_config.py:26-27 | assigning each line's `id11 + duplicate` to one label gives that label to exactly the identifiers the table lists |
| ReadConfig.SourceAssignmentsOk | gsoc/CCCgistemp/code/read_config.py:23-27 | reading the first k tables succeeds exactly when they are all present and every line has three fields |
| ReadConfig.SourceAssignmentsMerged | gsoc/CCCgistemp/code/read_config.py:23-27 | when reading the first k tables succeeds, its assignments give the merge of the tables' maps, later tables taking precedence |
| ReadConfig.SourceAssignmentsMeaning | gsoc/CCCgistemp/code/read_config.py:23-27 | reading the first k tables succeeds exactly when they are all present and well formed, and then yields the merge of their maps, later tables taking precedence |
| ReadConfig.SourceMapOk | gsoc/CCCgistemp/code/read_config.py:16-28 | `v2_get_sources` succeeds exactly when all three tables exist and every line has three fields |
| ReadConfig.MergedKeys | gsoc/CCCgistemp/code/read_config.py:27 | the merged map's keys are the identifiers any of the merged tables lists, and every value is one of the three labels |
| ReadConfig.MergedLastWins | gsoc/CCCgistemp/code/read_config.py:24-27 | an identifier holds the label of the last merged table that lists it |
| ReadConfig.SourceMapKeys | gsoc/CCCgistemp/code/read_config.py:16-28 | the result's keys are exactly the `id11 + duplicate` of the lines of the three tables; every value is `MCDW`, `USHCN2` or `SUMOFDAY` |
| ReadConfig.SourceMapLastTableWins | gsoc/CCCgistemp/code/read_config.py:24-27 | an identifier listed by several tables maps to the last of them in reading order |
| ReadConfig.SourceAssignmentsIds | gsoc/CCCgistemp/code/read_config.py:25-27 | well-formed tables make one assignment per line, in reading order, each of that line's identifier |
| ReadConfig.SourceMapSize | gsoc/CCCgistemp/code/read_config.py:16-28 | when no identifier is listed twice, the dictionary has one entry per table line |
| ReadConfig.Step1Adjust | gsoc/CCCgistemp/code/read_config.py:31-40 | the loop returns exactly `AdjustMap`: a missing file, a line without five fields, a year or month that is not an integer, or a summand `float()` rejects is the error, checked in that order, the first bad line winning; otherwise every line's assignment in order |
| ReadConfig.AdjustMapOk | gsoc/CCCgistemp/code/read_config.py:37-39 | `step1_adjust` succeeds exactly when the file exists and every line has five fields, integer third and fourth fields and a float fifth |
| ReadConfig.AdjustEntries | gsoc/CCCgistemp/code/read_config.py:38-39 | each well-formed line contributes its first field mapped to (`int` of the third field, `int` of the fourth field, the fifth field) |
| ReadConfig.AdjustMapLastWins | gsoc/CCCgistemp/code/read_config.py:37-40 | the keys are exactly the first fields of the lines, and each key holds the triple of the last line with that identifier |
| ReadConfig.AdjustTwoLines | gsoc/CCCgistemp/code/read_config.py:37-40 | of two well-formed lines for the same record, whatever their contents, the second replaces the first |
| ReadConfig.IntPairMeaning | gsoc/CCCgistemp/code/read_config.py:59 | `a, b = map(int, text.split(sep))` succeeds exactly when there are two pieces, both integers; a non-integer piece gives the `int()` error before any unpack error |
| ReadConfig.ParseDirectiveCases | gsoc/CCCgistemp/code/read_config.py:58-63 | the last field reads as a year range exactly when its hyphen split is two integers; as a month exactly when that fails and its slash split is two integers; otherwise it is an error |
| ReadConfig.SlashNeverYears | gsoc/CCCgistemp/code/read_config.py:58-63 | a field containing `/` is never read as a year range |
| ReadConfig.YearsForm | gsoc/CCCgistemp/code/read_config.py:59-60 | two hyphen-free integer texts joined by `-` read as that year range |
| ReadConfig.MonthForm | gsoc/CCCgistemp/code/read_config.py:62-63 | two slash-free integer texts joined by `/` read as that month |
| ReadConfig.YearsRoundTrip | gsoc/CCCgistemp/code/read_config.py:44-51 | a range `xxxx-yyyy` of non-negative years written in decimal reads back as that range, including start year 0 and end year 9999 |
| ReadConfig.MonthRoundTrip | gsoc/CCCgistemp/code/read_config.py:44-51 | every `yyyy/mm` written in decimal reads back as that month |
| ReadConfig.NegativeStartRejected | gsoc/CCCgistemp/code/read_config.py:59-62 | `-5-10` is an error: the hyphen split gives three pieces, and the slash form does not apply |
| ReadConfig.YearsExample | gsoc/CCCgistemp/code/read_config.py:48 | `1920-1930` reads as the years 1920 to 1930 |
| ReadConfig.YearZeroExample | gsoc/CCCgistemp/code/read_config.py:49 | `0-1954` reads as a range starting at year 0 |
| ReadConfig.ParseExamples | gsoc/CCCgistemp/code/read_config.py:62 | `int('1914')` is 1914 and `int('07')` is 7 |
| ReadConfig.MonthExample | gsoc/CCCgistemp/code/read_config.py:47-48 | `1914/07` reads as July 1914 |
| ReadConfig.ReadDirective | gsoc/CCCgistemp/code/read_config.py:58-63 | the `try`/`except ValueError` returns exactly `ParseDirective` of the last field |
| ReadConfig.ChangesStopAt | gsoc/CCCgistemp/code/read_config.py:55-63 | the first failing line decides the error of the whole file |
| ReadConfig.GetChangesDict | gsoc/CCCgistemp/code/read_config.py:43-66 | the loop returns exactly `ChangesMap`: a missing file, a blank line or a last field of neither form is the error, the first bad line winning; otherwise every line's directive is appended to its identifier's list |
| ReadConfig.ChangesMapOk | gsoc/CCCgistemp/code/read_config.py:55-63 | `get_changes_dict` succeeds exactly when the file exists and every line has a first field and a last field of one of the two forms |
| ReadConfig.ValuesForLines | gsoc/CCCgistemp/code/read_config.py:64-65 | the values appended for an identifier are the directives of the lines that name it, in file order |
| ReadConfig.ChangesMapKeys | gsoc/CCCgistemp/code/read_config.py:55-65 | on success every line has a first field and a readable last field, and the keys are exactly the first fields |
| ReadConfig.ChangesMapValues | gsoc/CCCgistemp/code/read_config.py:64-65 | on success each key holds the directives of its lines, in file order |
| ReadConfig.ChangesMapPerStation | gsoc/CCCgistemp/code/read_config.py:54-66 | the keys are exactly the first fields of the lines, and each key holds the directives of all its lines, in file order; none is lost |
| ReadConfig.ChangesTwoLines | gsoc/CCCgistemp/code/read_config.py:64-65 | two lines for one station give a one-entry dictionary holding both directives in order |
| ReadConfig.ChangesExample | gsoc/CCCgistemp/code/read_config.py:44-51 | a month line and a year-range line for one station give both omissions, in file order |
| StationSelect.AsDict | tool/stationplot.py:315-335 | the loop over `groupby(inp, id12)` returns exactly `Records(arg, inp)` |
| StationSelect.TableKeys | tool/stationplot.py:331-334 | a key is present exactly when some run has it and it, or its first 11 characters, was asked for |
| StationSelect.TableValues | tool/stationplot.py:334 | every value is the line list of a run with that key |
| StationSelect.TableLastWins | tool/stationplot.py:331-334 | a kept key holds the lines of the last run with that key |
| StationSelect.TableSelect | tool/stationplot.py:331-334 | for any sequence of runs, a key is present exactly when some run has it and it was asked for, and holds the lines of the last run with that key |
| StationSelect.RecordsSelect | tool/stationplot.py:330-334 | the result's keys are exactly the 12-character prefixes of runs whose prefix or 11-character station prefix is in `arg`; each holds the maximal run of consecutive lines, the last such run for a repeated prefix |
| StationSelect.RecordsLines | tool/stationplot.py:331-334 | each value is a non-empty list of input lines, each starting with its key |
| StationSelect.LaterRunReplaces | tool/stationplot.py:331-334 | lines `a, b, c` where `a` and `c` share an identifier `b` does not have: the later run `[c]` replaces `[a]` |
| StationSelect.Strip | tool/stationplot.py:281 | `str.strip()` leaves no whitespace at either end of its result |
| StationSelect.StripSlice | tool/stationplot.py:281 | what `str.strip()` returns is a contiguous slice of its input, and only whitespace lies before and after that slice |
| StationSelect.StripUnique | tool/stationplot.py:281 | any slice with only whitespace around it and no whitespace at its ends is what `str.strip()` returns, so the two properties above determine it |
| StationSelect.GetMeta | tool/stationplot.py:270-290 | the two loops of `get_meta` return exactly `Meta(l, meta)` |
| StationSelect.ReadMeta | tool/stationplot.py:277-284 | the first loop returns exactly `FullMeta`: the first line whose latitude, then longitude, `float()` rejects is the error; otherwise every line's entry, later lines replacing earlier |
| StationSelect.Restrict | tool/stationplot.py:285-289 | the second loop keeps exactly the requested stations that `full` has, with `full`'s entry |
| StationSelect.MetaStopAt | tool/stationplot.py:278-284 | the first failing metadata line decides the error |
| StationSelect.MetaOk | tool/stationplot.py:278-284 | `get_meta` fails exactly when some metadata line has a latitude or longitude that `float()` rejects |
| StationSelect.MetaEntries | tool/stationplot.py:279-283 | each metadata line contributes its 11-character prefix mapped to its stripped name and its latitude and longitude fields |
| StationSelect.FullMetaKeys | tool/stationplot.py:277-284 | the keys of `full` are exactly the 11-character prefixes of the metadata lines |
| StationSelect.MetaKeySet | tool/stationplot.py:277-290 | the keys are exactly the 11-character prefixes of requested identifiers that some metadata line starts with |
| StationSelect.MetaValues | tool/stationplot.py:277-290 | each kept station holds the stripped name, latitude and longitude of the last metadata line for it |
| StationSegments.StreamFromStep | tool/stationplot.py:92-102 | each row contributes the break marker for a missing year, then its points, and its year passes the check against the previous one |
| StationSegments.GoodConcat | tool/stationplot.py:103-106 | dropping the `BAD` points of a concatenation drops them from each part |
| StationSegments.GoodAll | tool/stationplot.py:103-106 | a run that is all `BAD` loses every point; a run with none loses nothing |
| StationSegments.GoodRunsClean | tool/stationplot.py:103-106 | every yielded run is non-empty, holds no `BAD` point and is one of the `groupby` blocks whose key was false |
| StationSegments.GoodRunsConcat | tool/stationplot.py:103-106 | laid end to end, the yielded runs are the non-`BAD` points of the grouped stream, in order |
| StationSegments.ConcatAppend | tool/stationplot.py:106 | laying out runs end to end distributes over joining lists of runs |
| StationSegments.StreamGood | tool/stationplot.py:89-102 | the break markers are the only points the stream adds: its non-`BAD` points are those of the rows |
| StationSegments.AplotSegments | tool/stationplot.py:72-106 | with the check after every row (the corrected `Aplot`), every segment is non-empty and has no `BAD` datum, and the segments laid end to end are exactly the non-`BAD` values of the rows, row by row and month by month |
| StationSegments.AplotAsWrittenSegments | tool/stationplot.py:72-106 | `aplot` as written too yields only non-empty segments without a `BAD` datum, which laid end to end are exactly the non-`BAD` values of the rows, in order |
| StationSegments.AllPointsIndex | tool/stationplot.py:101-102 | with twelve values per row, point `12 * r + m` of the stream is month `m` of row `r` |
| StationSegments.StreamFromOk | tool/stationplot.py:94-95 | the stream after a previous year succeeds exactly when row years strictly increase and the first exceeds the previous year |
| StationSegments.AplotOk | tool/stationplot.py:94-95 | with the check after every row (the corrected `Aplot`), `aplot` fails exactly when some row's year is not greater than the year of the row before it |
| StationSegments.StepsConcat | tool/stationplot.py:89-102 | the month-by-month property of two streams survives joining them when the joint is a month step or a `BAD` point |
| StationSegments.StreamSteps | tool/stationplot.py:94-102 | in the stream, each two neighbouring valid points are consecutive months: a year gap always has a `BAD` point between them |
| StationSegments.AplotContiguous | tool/stationplot.py:94-106 | with the check after every row (the corrected `Aplot`) and twelve values per row, consecutive points of a segment are consecutive months, so rows separated by a missing year never share a segment |
| StationSegments.StreamAgrees | tool/stationplot.py:94 | when no year is 0, testing `if prev:` and testing for a previous row give the same stream |
| StationSegments.AplotAgrees | tool/stationplot.py:94-99 | when no row has year 0, `aplot` as written and with the check after every row agree |
| StationSegments.OneSegment | tool/stationplot.py:103-106 | a non-empty stream without `BAD` points is one segment |
| StationSegments.TwoSegments | tool/stationplot.py:103-106 | two valid runs around one `BAD` point are two segments |
| StationSegments.YearZeroJoinsGap | tool/stationplot.py:94-99 | rows for year 0 and year 5 give one segment as written, two with the check after every row |
| StationSegments.YearZeroSkipsCheck | tool/stationplot.py:94-95 | rows for year 0 then year -3 pass as written, but fail the year check when it follows every row |
| StationPlot.YearInEmpty | tool/stationplot.py:135-136 | a record without rows adds no year |
| StationPlot.DatumInEmpty | tool/stationplot.py:135-136 | a record without rows adds no value |
| StationPlot.YearInSnoc | tool/stationplot.py:136-139 | one more row adds exactly its year |
| StationPlot.DatumInSnoc | tool/stationplot.py:140-145 | one more row adds exactly its non-`BAD` values |
| StationPlot.EmptyRecord | tool/stationplot.py:135-136 | starting a record leaves the extents describing the records so far |
| StationPlot.YearStep | tool/stationplot.py:137-139 | `min`/`max` with a row's year keep the year extents exact |
| StationPlot.DatumStep | tool/stationplot.py:141-145 | skipping `BAD` and taking `max`/`min` with other values keep the temperature extents exact |
| StationPlot.ScanRecord | tool/stationplot.py:136-145 | the loop over one record's rows and values leaves the extents of everything visited, that record included |
| StationPlot.VisitedStep | tool/stationplot.py:135 | visiting one more key adds that record to those already visited |
| StationPlot.VisitedAll | tool/stationplot.py:135 | once no key is left, every record has been visited |
| StationPlot.ScanTable | tool/stationplot.py:131-145 | in any key order, the loop leaves the least and greatest of 9999, -9999 and all years, and the greatest and least of -9999, 9999 and all non-`BAD` values |
| StationPlot.FindExtents | tool/stationplot.py:119-150 | an empty table is the no-data error; otherwise the first assertion fails exactly when no valid value exceeds -9999, and when that one passes the second fails exactly when no valid value is below 9999; it succeeds exactly when the table is non-empty and has valid values above -9999 and below 9999, and it returns no other error; on success the extents are those of `ScanTable`, and the highest and lowest values occur in the data |
| StationPlot.RangeMeaning | tool/stationplot.py:216 | `range(start, stop, step)` holds `start + i * step` at index `i` and every such value below `stop` |
| StationPlot.TicksMeaning | tool/stationplot.py:211-216 | every tick `x` has `0 <= x <= w` and `(minyear + x) % 10 == 0`; consecutive ticks are 10 apart; every such `x` in `0..w` is a tick |
| StationPlot.RecordColours | tool/stationplot.py:188-189 | the colour assertion passes exactly when there are at most 19 records, and otherwise reports their number |
| StationPlot.ColoursDistinct | tool/stationplot.py:50-70 | each record keeps its identifier and no two records get the same colour, as the 19 colours are all different |

## Left out

- `generate_deafults` in `read_config.py`. It writes default configuration files and is not part of this model.
- File I/O. Files are a map from path to tokenised lines, and the whitespace `line.split()` of `read_config.py` is assumed already done.
- `float()`. It is a parameter `isFloat` saying whether a text parses. The summand of `step1_adjust` and the latitude and longitude of `get_meta` are kept as their text.
- Decoding of v2.mean rows. The year slice `row[12:16]` and `struct.unpack('5s'*12, row[16:-1])` are not modelled. `aplot` and the extents loop take rows already decoded as a year and its monthly values, so `float()`/`int()` failures on those fields are not modelled.
- `int()` on tokens with surrounding whitespace. It cannot arise, since the tokens come from `split()`.
- The fractional x coordinate `year + (month + 0.5) / 12.0` of `point`. A point is kept as (year, month index, value), from which it is computed.
- The rest of `plot`:
  - the `/ 10.0` scaling, `floor`/`ceil` of `ybottom`/`ytop` and the vertical-axis ticks derived from them (floating point);
  - the title formatting;
  - all SVG output, and `aspath`.
- Dictionary iteration order. The extents loop is proved for every key order. `StationPlot.RecordColours` takes the identifiers in whatever order the dictionary yields them.
- `GetMeta` iterates the requested set in an arbitrary order; the result does not depend on it.
- Generators. `aplot` is modelled as the list it would produce. When the year assertion fails, the model returns only the error, not the segments yielded before it.
- `main`: option parsing, standard input and output, and the foreign `open_or_uncompress`.

## Findings

| source | as written | input that shows it | evidently intended | confidence | as-written member | corrected member |
|---|---|---|---|---|---|---|
| tool/stationplot.py:94-99 | `if prev:` skips the year check and the missing-year break whenever the previous row's year is 0, not only for the first row | rows for years 0 and 5: no break is inserted and the two years share one segment; rows for years 0 and -3 pass the `year > prev` assertion | apply the check after every row but the first (`if prev is not None:`) | not executed | StationSegments.AplotAsWritten (shown by StationSegments.YearZeroJoinsGap, StationSegments.YearZeroSkipsCheck) | StationSegments.Aplot (StationSegments.AplotOk, StationSegments.AplotContiguous) |
