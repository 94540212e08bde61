# sb6183_exporter collector, modelled in Dafny

`sb6183_exporter` is a Prometheus exporter for the Arris SB6183 cable modem. On each
scrape its `Collector` fetches the modem's status page and goes through the page's
tables one by one, dispatching on the text of each table's `<th>` caption:

- The "Startup Procedure" table is folded into one global state dict. Its keys are
  `headerify(procedure) + "_" + field`, and a later row overwrites an earlier one.
- The "Downstream Bonded Channels" and "Upstream Bonded Channels" tables are handed to
  the field classifier `make_table_metrics`, which works record by record:
  - the id fields (`channel`, `frequency`) become labels;
  - a field whose value matches `^-?[0-9\.]+( .*)?` and whose name is not discrete
    becomes a counter or gauge named `prefix + field`, read from the token before the
    first space;
  - every other field goes into a per-record state bag, emitted as one
    `prefix + "state"` gauge of value 1.
- Any other caption fails the scrape.
- Finally, one `sb6183_state` gauge carries the global state, if the global state is
  not empty.

The project models that core:

- `headerify`, `parse_table`, `make_metric` and `make_table_metrics`;
- the dispatch and global-state logic of `collect`;
- the ruleset constants.

The modules are:

- `Outcomes`: `Option`, `Result`, the four ways a scrape fails, and `Flatten` (running steps that each yield a list, where the first failure ends the run).
- `Dicts`: a Python `dict` as its keys in insertion order plus the map. It covers `d[k] = v`, `d.update(e)`, and the `row[h] = t` loop over `zip(headers, texts)`.
- `Text`: trimming by a character set, `str.strip()` as that trim over Python's whitespace set, `str.lower()` on ASCII, and `headerify`.
- `Numbers`:
  - the regular expression as `re.match` applies it (a prefix match);
  - `v.split(" ")[0]`;
  - the decimal literal syntax Python's `float()` accepts on the tokens the pattern lets through, and the narrower whitespace it ignores around a literal.
- `TableParser`: `parse_table`, as a specification function and as the method with its loops.
- `Metrics`: the metric datatype and `make_metric`.
- `TableMetrics`: `make_table_metrics`, as specification functions and as methods with loops.
- `Collector`: the table loop of `collect`, the startup fold, and the final `sb6183_state` gauge.

Each imperative part of the source is proved in two steps:

- A method reproduces the source's loops, rebinding sequence and dict values where the source updates its lists and dicts. Its `ensures` equates the result to a specification function.
- Lemmas state the source's promises about that function.

A Python `set` yields its members in an unspecified order. So the id set `{"channel", "frequency"}` is passed as a parameter `ids` holding one of its two orders (`Collector.IsIdOrder`). Properties about id labels speak of their contents and of name/value alignment, not of their order.

Failures are values (`Result`):

- an HTTP failure gives `FetchFailed`;
- an unknown caption (`assert False, title`) gives `UnknownCaption(title)`;
- a missing id field or a missing `procedure` field (`KeyError`) gives `MissingField`;
- `float()` rejecting a token the pattern let through (`ValueError`) gives `NotAFloat`.

## Model

| member | source | states |
|---|---|---|
| Text.Headerify | sb6183_exporter/collector.py:23-24 | the header name is no longer than the text, has no leading or trailing whitespace, no space and no ASCII upper-case letter |
| Text.HeaderifyFixedPoints | sb6183_exporter/collector.py:23-24 | headerify leaves a string unchanged exactly when it is already such a header name |
| Text.HeaderifyIdempotent | sb6183_exporter/collector.py:23-24 | applying headerify twice gives the same name as applying it once |
| Text.TrimBy | sb6183_exporter/collector.py:24 | `Text.Strip` (`str.strip()`) and `Numbers.FloatTrim` (the trimming inside float()) are this trim, each with its own whitespace set: the result is the text from its first character outside the set on, with only characters of the set cut from its end; it neither starts nor ends with such a character, and a text that does not is left as it is |
| Text.LeadingRun | sb6183_exporter/collector.py:24 | counts the characters of the set a text starts with: all of them in the set, followed by the end or by a character outside it |
| Text.TrailingRun | sb6183_exporter/collector.py:24 | counts the characters of the set a text ends with: all of them in the set, preceded by the start or by a character outside it |
| TableParser.CellRowsAppend | sb6183_exporter/collector.py:29-32 | the rows that have cells are found row by row: those of two runs of rows are those of the first run followed by those of the second |
| TableParser.CellRowsKeep | sb6183_exporter/collector.py:30-32 | every row that has at least one cell is kept among the rows with cells |
| TableParser.ParsedRowsShape | sb6183_exporter/collector.py:26-41 | rows without cells are skipped and the header row is not emitted: one record per row with cells after the first, in table order, each zipping the header names with that row's stripped cell texts, and each a valid dict |
| TableParser.ParseRowsCells | sb6183_exporter/collector.py:26-41 | after the loop the headers are the headerified cells of the first row with cells (none if there is none), and the records are the later rows with cells zipped against them |
| TableParser.ParseTable | sb6183_exporter/collector.py:26-41 | the loop over the `<tr>`s returns exactly the records of the specification ParsedRows |
| TableParser.HeaderRow | sb6183_exporter/collector.py:33-35 | the header list is the headerified text of each cell, in cell order |
| TableParser.ZipCells | sb6183_exporter/collector.py:37-39 | the record is the dict that zipping the headers with the stripped cell texts gives |
| Dicts.ZipValid | sb6183_exporter/collector.py:37-39 | a zipped record is a valid dict whose keys are exactly the headers that have a cell beside them; `zip` stops at the shorter sequence |
| Dicts.ZipGet | sb6183_exporter/collector.py:37-39 | column i's header maps to column i's text unless a later column repeats the header |
| Dicts.ZipKeyOrder | sb6183_exporter/collector.py:37-39 | with distinct headers the record lists its keys in column order |
| Dicts.ZipPrefix | sb6183_exporter/collector.py:38 | zipping looks only at the first min(headers, cells) columns |
| Dicts.PutValid | sb6183_exporter/collector.py:68 | `d[k] = v` keeps a dict valid, gives k the value v and leaves every other key's presence and value alone |
| Dicts.PutAllValid | sb6183_exporter/collector.py:69-70 | putting several keys keeps a dict valid; a put key holds the given value, and any other key keeps its value |
| Dicts.UpdateValid | sb6183_exporter/collector.py:69-70 | `state.update(labels)` gives a dict holding both dicts' keys; the label keys hold the label values, and the others keep the state values |
| Dicts.UpdateDisjoint | sb6183_exporter/collector.py:69-70 | when the two share no key, the updated dict lists the state keys and then the label keys |
| Metrics.MakeMetric | sb6183_exporter/collector.py:43-53 | a counter exactly when `_is_counter`; the given name; "No Documentation" when the documentation is missing or empty; label names are the label dict's keys in order; exactly one sample with the given value, whose i-th label value is the value of the i-th label name |
| Metrics.MakeMetricLabels | sb6183_exporter/collector.py:49-52 | label names and values come from the same key order, so reading the sample's labels back gives exactly the label dict passed in |
| Metrics.LabelValues | sb6183_exporter/collector.py:52 | one value per label name, the i-th being the value of the i-th name |
| Numbers.MatchesNumericIsPrefixMatch | sb6183_exporter/collector.py:63 | the pattern test passes exactly when some non-empty prefix of the value matches `-?[0-9\.]+` in full |
| Numbers.FirstToken | sb6183_exporter/collector.py:64 | the token is the prefix of the value before its first space: it holds no space and is followed by a space or by the end |
| Numbers.FirstTokenDropsUnit | sb6183_exporter/collector.py:64 | "602000000 Hz" is read from the token "602000000": the unit is dropped |
| Numbers.FirstTokenOfWords | sb6183_exporter/collector.py:64 | a word without spaces, followed by a space and anything else, has the word as its first token |
| Numbers.FirstTokenNoSpace | sb6183_exporter/collector.py:64 | a value without a space is its own token |
| Numbers.SeparatorIsNotFloatSpace | sb6183_exporter/collector.py:63-64 | float() trims `str.isspace()` characters except the separators U+001C..U+001F: U+001C is whitespace to `str.strip()` but not to float(), so "5\U{1C} dBmV" passes the pattern and its token is rejected by float() |
| Numbers.FloatAcceptsUnpadded | sb6183_exporter/collector.py:64 | float() ignores surrounding float() whitespace, so on a token the pattern lets through that neither starts nor ends with any, it accepts exactly the decimal literals |
| Numbers.PatternTokenStartsNumeric | sb6183_exporter/collector.py:63-64 | the token of a value that passes the pattern is not empty, does not start with float() whitespace, and after an optional sign starts with a digit or a point, so it is never "inf", "infinity" or "nan" |
| Numbers.PatternAdmitsTrailingLetters | sb6183_exporter/collector.py:63-64 | "12abc" passes the pattern and is rejected by float() |
| Numbers.PatternAdmitsTwoPoints | sb6183_exporter/collector.py:63-64 | "1.2.3" passes the pattern and is rejected by float() |
| Numbers.NegativeDecimalConverts | sb6183_exporter/collector.py:63-64 | a negative decimal reading such as "-2.1" is accepted by float() |
| TableMetrics.IdLabels | sb6183_exporter/collector.py:59 | when the id fields are all present, the label dict is a valid dict |
| TableMetrics.IdLabelsSucceeds | sb6183_exporter/collector.py:59 | the label dict exists exactly when the record has every id field |
| TableMetrics.IdLabelsContents | sb6183_exporter/collector.py:59 | the label dict lists exactly the id fields, in the order taken, each with the record's value |
| TableMetrics.IdLabelsMissing | sb6183_exporter/collector.py:59 | otherwise the KeyError names the first id field, in the order taken, that the record lacks |
| TableMetrics.FieldMetric | sb6183_exporter/collector.py:63-66 | a numeric field k gives a metric named prefix + k, a counter exactly when k is in the counter set, labelled with the id labels, whose one sample reads the field's first token |
| TableMetrics.FieldsOutcome | sb6183_exporter/collector.py:60-68 | the state bag built by the loop over the record's fields is a valid dict |
| TableMetrics.RowFields | sb6183_exporter/collector.py:60-68 | the loop over `row.items()` returns exactly what FieldsOutcome specifies: the emitted metrics and the state bag, or the first float() failure |
| TableMetrics.MakeRowMetrics | sb6183_exporter/collector.py:58-72 | the body of the record loop returns exactly the record's metrics as RowMetrics specifies them |
| TableMetrics.MakeTableMetrics | sb6183_exporter/collector.py:55-73 | the loop over the records returns exactly TableMetrics: every record's metrics in record order, or the first failure |
| TableMetrics.FieldsFailureSticks | sb6183_exporter/collector.py:64 | a float() failure on a field aborts the rest of the loop over the record |
| TableMetrics.NumericKeys | sb6183_exporter/collector.py:63 | every key listed as numeric is a field of the record |
| TableMetrics.ClassifiedKeys | sb6183_exporter/collector.py:60-68 | a field is listed as numeric exactly when it is neither an id field nor discrete and its value passes the pattern, and it goes into the state bag exactly when it is neither an id field nor numeric |
| TableMetrics.FieldsOutcomeSucceeds | sb6183_exporter/collector.py:63-64 | the loop over the fields succeeds exactly when float() accepts the first token of every numeric field |
| TableMetrics.AllConvertEach | sb6183_exporter/collector.py:64 | "every numeric field converts" holds exactly when float() accepts the first token of each of them |
| TableMetrics.FieldsOutcomeMetrics | sb6183_exporter/collector.py:63-66 | the loop emits one metric per numeric field, in field order |
| TableMetrics.FieldsOutcomeState | sb6183_exporter/collector.py:67-68 | the state bag lists exactly the state fields, in field order, each with its value |
| TableMetrics.RowOutcomes | sb6183_exporter/collector.py:57-72 | one outcome per record, in record order, each the record's own metrics |
| TableMetrics.RowMetricsSucceeds | sb6183_exporter/collector.py:58-72 | a record yields metrics exactly when it has every id field and float() accepts the first token of each numeric field |
| TableMetrics.RowMetricsParts | sb6183_exporter/collector.py:58-72 | a record's metrics are the numeric fields' metrics, then the state gauge when the bag is not empty |
| TableMetrics.RowNumericMetric | sb6183_exporter/collector.py:59-66 | the j-th numeric field k of a record, which is no id field and not discrete, gives the j-th metric: named prefix + k, a counter exactly when k is a counter field, reading k's first token, with exactly the id fields as labels and the record's values for them |
| TableMetrics.RowStateMetric | sb6183_exporter/collector.py:67-72 | a record has as many metrics as numeric fields, plus one exactly when it has a state field; that last one is the prefix + "state" gauge of value 1, labelled with the state fields in field order and then the id fields |
| TableMetrics.RowStateLabels | sb6183_exporter/collector.py:69-72 | each label of the state gauge carries the record's value for that field |
| TableMetrics.TableMetricsSucceeds | sb6183_exporter/collector.py:56-73 | a table yields metrics exactly when every one of its records does |
| TableMetrics.TableMetricsFailure | sb6183_exporter/collector.py:56-73 | otherwise the failure is that of the first failing record, all records before it succeeding |
| TableMetrics.TableMetricsAppend | sb6183_exporter/collector.py:56-73 | the metrics of two runs of records are those of the first run followed by those of the second |
| TableMetrics.RowMetricsFromTable | sb6183_exporter/collector.py:60-72 | every metric of a record is named prefix + k: either the state gauge, or a metric for a field k that is neither an id field nor discrete, a counter exactly when k is a counter field |
| TableMetrics.TableMetricsFromTable | sb6183_exporter/collector.py:55-73 | every metric of a table has that shape |
| Outcomes.FlattenSucceeds | sb6183_exporter/collector.py:56-73 | a run of steps succeeds exactly when every step does |
| Outcomes.FlattenFailure | sb6183_exporter/collector.py:56-73 | a failed run reports the failure of its first failing step |
| Outcomes.FlattenAppend | sb6183_exporter/collector.py:56-73 | running two batches: the first batch's failure ends the run; otherwise the run succeeds exactly when both do, with the lists of both in order |
| Outcomes.FlattenAll | sb6183_exporter/collector.py:56-73 | whatever holds of every item of every step holds of every item of the joined list |
| Collector.ProcedureFields | sb6183_exporter/collector.py:94-97 | copying a startup row's fields keeps the global state a valid dict |
| Collector.ProcedureFieldsGet | sb6183_exporter/collector.py:94-97 | a key the row writes (its prefix, then a field other than "procedure") holds that field's value; any other key keeps what it held |
| Collector.StartupState | sb6183_exporter/collector.py:91-97 | the startup fold yields a valid global state, or fails with the missing "procedure" field |
| Collector.StartupSucceeds | sb6183_exporter/collector.py:91-93 | the startup table fails exactly when one of its rows has no "procedure" field |
| Collector.StartupFailureSticks | sb6183_exporter/collector.py:93 | a row without "procedure" aborts the rest of the startup table |
| Collector.LastWriter | sb6183_exporter/collector.py:92-97 | finds the last startup row that writes a key: it writes the key and no later row does |
| Collector.StartupGet | sb6183_exporter/collector.py:91-97 | after the startup table each key holds the field of the last row that writes it, so a later row overwrites an earlier one; a key no row writes keeps its earlier value |
| Collector.StartupRow | sb6183_exporter/collector.py:94-97 | the loop over one startup row's fields computes exactly ProcedureFields |
| Collector.StartupProcedure | sb6183_exporter/collector.py:91-97 | the loop over the startup rows computes exactly StartupState |
| Collector.TableStep | sb6183_exporter/collector.py:87-111 | handling one table keeps the global state a valid dict |
| Collector.Scan | sb6183_exporter/collector.py:86-111 | the table loop keeps the global state a valid dict |
| Collector.HandleTable | sb6183_exporter/collector.py:87-111 | the body of the table loop computes exactly TableStep |
| Collector.ScanTables | sb6183_exporter/collector.py:84-111 | the table loop, updating the metric list and global state in place, computes exactly Scan |
| Collector.CollectMetrics | sb6183_exporter/collector.py:75-115 | `collect()` returns exactly Collect |
| Collector.IdOrderDistinct | sb6183_exporter/collector.py:101 | either order of the id set lists two different fields |
| Collector.ScanAppend | sb6183_exporter/collector.py:86-111 | tables are handled in document order: a failure ends the scrape, otherwise the later tables continue from the state the earlier ones left |
| Collector.ScanPrefixErr | sb6183_exporter/collector.py:86-111 | once a table has failed, the scrape fails with that table's error |
| Collector.CaptionlessTableSkipped | sb6183_exporter/collector.py:87-88 | a table without a `th` changes nothing, wherever it sits on the page |
| Collector.UnknownCaptionFails | sb6183_exporter/collector.py:110-111 | a table whose stripped caption is none of the three known titles makes the scrape fail, and with that caption when every earlier table was handled |
| Collector.UnknownStep | sb6183_exporter/collector.py:110-111 | a table with an unknown caption fails with that caption |
| Collector.ChannelTableMetrics | sb6183_exporter/collector.py:98-109 | the downstream and upstream tables, with their own discrete and counter sets, only add channel metrics |
| Collector.ScanChannelMetrics | sb6183_exporter/collector.py:86-111 | the table loop collects nothing but channel metrics |
| Collector.CollectShape | sb6183_exporter/collector.py:112-115 | the result is the channel metrics; when the global state is not empty they are followed by one last metric: the `sb6183_state` gauge with one sample of value 1, labelled with exactly the global state |
| Collector.GlobalStateGaugePresent | sb6183_exporter/collector.py:112-114 | a metric named `sb6183_state` is in the result exactly when the global state is not empty; it is then the last metric, and no metric before the last carries that name |
| Collector.CountersAreDownstreamErrors | sb6183_exporter/collector.py:14-17 | every counter in the result is `sb6183_downstream_corrected` or `sb6183_downstream_uncorrectables` |
| Collector.NoDiscreteOrIdMetrics | sb6183_exporter/collector.py:14-17 | no metric is named after a table's channel or frequency column, or after the upstream symbol rate |

## Left out

- The HTTP fetch (`urlunparse`, `requests.get`, `raise_for_status`, collector.py:78-81) is network I/O. The page is an input: either its tables or `HttpFailure`, which becomes `FetchFailed`.
- BeautifulSoup's HTML parsing and traversal (`find_all("table")`, `table.th`, `find_all("tr")`, `find_all("td")`, `.text`) come from a foreign library. A table is given as the text of its first `th`, if any, and, for each `tr`, the texts of its `td` cells. Nested tables and how `.text` joins the text nodes are not modelled.
- `prometheus_client`'s metric families are modelled as a plain `Metric` datatype. Left out with them:
  - the `_total` suffix handling of counters;
  - the validation of metric and label names;
  - the registry.
- Metrics.MakeMetric: a label named after one of `make_metric`'s own parameters (`self`, `_is_counter`, `_name`, `_documentation`, `_value`) would make the `**labels` call raise `TypeError`. The model accepts any label names.
- Numbers.FloatAccepts: the grammar leaves out float()'s special values "inf", "infinity" and "nan" (any case, any sign), which it rejects. A token that passes the numeric pattern never is one of them (Numbers.PatternTokenStartsNumeric).
- TableMetrics.FieldMetric: the sample keeps the token that `float()` reads, not the IEEE double it produces. Floating point is left out. Acceptance by `float()` is modelled syntactically over ASCII digits; Unicode digits are not covered.
- Text.Lower: `str.lower()` is modelled on ASCII letters only. Other characters are left unchanged.
- Collector.Collect: the order in which the id `set` yields "channel" and "frequency" is a parameter (either order is allowed), because Python does not fix it.
- Collector.UnknownCaptionFails: an unknown caption is modelled as a failure, as the `assert` raises by default. Under `python -O` the assertion is removed and such a table would be skipped.
- `sb6183_exporter/exporter.py` (command-line parsing, registry registration, the HTTP server loop) and `setup.py` (packaging) are not part of this model.
