/** `Collector.collect`: one scrape of the modem's status page, dispatched table by
    table on the table's caption. */
module Collector {
  import opened Outcomes
  import opened Dicts
  import Text
  import opened TableParser
  import opened Metrics
  import opened TableMetrics

  const Prefix := "sb6183_"
  const StartupTitle := "Startup Procedure"
  const DownstreamTitle := "Downstream Bonded Channels"
  const UpstreamTitle := "Upstream Bonded Channels"
  const DownstreamPrefix := Prefix + "downstream_"
  const UpstreamPrefix := Prefix + "upstream_"
  const GlobalStateName := Prefix + "state"

  const DownstreamDiscrete: set<string> := {"frequency"}
  const DownstreamCounter: set<string> := {"corrected", "uncorrectables"}
  const UpstreamDiscrete: set<string> := {"frequency", "symbol_rate"}
  const UpstreamCounter: set<string> := {}

  /** The order in which the set `{"channel", "frequency"}` yields its two members;
      Python does not fix it, so both are allowed. */
  predicate IsIdOrder(ids: seq<string>)
  {
    ids == ["channel", "frequency"] || ids == ["frequency", "channel"]
  }

  /** What fetching the status page brings back: the page's tables, in document
      order, or the failure of `requests.get` or `raise_for_status`. */
  datatype Page = Page(tables: seq<Table>) | HttpFailure

  /** The metrics collected so far, and `global_state`. */
  datatype Progress = Progress(metrics: seq<Metric>, globalState: Dict)

  const Start := Progress([], Empty)

  /** `headerify(row["procedure"]) + "_"`: what the keys a startup row contributes
      start with. */
  function RowPrefix(row: Dict): string
    requires "procedure" in row.values
  {
    Text.Headerify(row.values["procedure"]) + "_"
  }

  /** `global_state[rowPrefix + k] = v` for each field k among ks other than
      "procedure", in field order. */
  function ProcedureFields(ks: seq<string>, row: map<string, string>, rowPrefix: string, g: Dict): (r: Dict)
    requires forall i :: 0 <= i < |ks| ==> ks[i] in row
    requires g.Valid()
    ensures r.Valid()
    decreases |ks|
  {
    if |ks| == 0 then g
    else
      var k := ks[|ks| - 1];
      var prev := ProcedureFields(ks[..|ks| - 1], row, rowPrefix, g);
      if k == "procedure" then prev
      else
        PutValid(prev, rowPrefix + k, row[k]);
        Put(prev, rowPrefix + k, row[k])
  }

  /** The loop over the rows of the "Startup Procedure" table, starting from the
      global state g; a row without a "procedure" field raises `KeyError`. */
  function StartupState(rows: seq<Dict>, g: Dict): (r: Result<Dict>)
    requires forall i :: 0 <= i < |rows| ==> rows[i].Valid()
    requires g.Valid()
    ensures r.Ok? ==> r.value.Valid()
    ensures r.Err? ==> r.error == MissingField("procedure")
    decreases |rows|
  {
    if |rows| == 0 then Ok(g)
    else
      match StartupState(rows[..|rows| - 1], g)
      case Err(e) => Err(e)
      case Ok(g') =>
        var row := rows[|rows| - 1];
        if "procedure" !in row.values then Err(MissingField("procedure"))
        else
          KeysHaveValues(row);
          Ok(ProcedureFields(row.keys, row.values, RowPrefix(row), g'))
  }

  /** One table of the page: skipped without a `th`, otherwise parsed and handled
      according to its stripped caption; any other caption is an assertion
      failure. */
  function TableStep(t: Table, s: Progress, ids: seq<string>): (r: Result<Progress>)
    requires s.globalState.Valid()
    requires IsIdOrder(ids)
    ensures r.Ok? ==> r.value.globalState.Valid()
  {
    if t.th.None? then Ok(s)
    else
      var rows := ParsedRows(t.rows);
      var title := Text.Strip(t.th.value);
      ParsedRowsShape(t.rows);
      IdOrderDistinct(ids);
      if title == StartupTitle then
        match StartupState(rows, s.globalState)
        case Err(e) => Err(e)
        case Ok(g) => Ok(Progress(s.metrics, g))
      else if title == DownstreamTitle then
        match TableMetrics.TableMetrics(rows, DownstreamPrefix, ids, DownstreamDiscrete, DownstreamCounter)
        case Err(e) => Err(e)
        case Ok(more) => Ok(Progress(s.metrics + more, s.globalState))
      else if title == UpstreamTitle then
        match TableMetrics.TableMetrics(rows, UpstreamPrefix, ids, UpstreamDiscrete, UpstreamCounter)
        case Err(e) => Err(e)
        case Ok(more) => Ok(Progress(s.metrics + more, s.globalState))
      else Err(UnknownCaption(title))
  }

  /** The loop over the page's tables, in document order, from the progress init;
      the first failure ends the scrape. */
  function Scan(tables: seq<Table>, ids: seq<string>, init: Progress): (r: Result<Progress>)
    requires init.globalState.Valid()
    requires IsIdOrder(ids)
    ensures r.Ok? ==> r.value.globalState.Valid()
    decreases |tables|
  {
    if |tables| == 0 then Ok(init)
    else
      match Scan(tables[..|tables| - 1], ids, init)
      case Err(e) => Err(e)
      case Ok(s) => TableStep(tables[|tables| - 1], s, ids)
  }

  /** `collect()`: the channel metrics in table order, then, if any startup field
      was seen, one `sb6183_state` gauge of value 1 labelled with the global state. */
  function Collect(page: Page, ids: seq<string>): Result<seq<Metric>>
    requires IsIdOrder(ids)
  {
    match page
    case HttpFailure => Err(FetchFailed)
    case Page(tables) =>
      match Scan(tables, ids, Start)
      case Err(e) => Err(e)
      case Ok(s) => Ok(Finish(s))
  }

  /** The end of `collect()`: the metrics of the table loop, and the `sb6183_state`
      gauge when the global state is not empty. */
  function Finish(s: Progress): seq<Metric>
    requires s.globalState.Valid()
  {
    if |s.globalState.keys| == 0 then s.metrics
    else s.metrics + [MakeMetric(false, GlobalStateName, None, One, s.globalState)]
  }

  /** `collect()` as the source runs it. */
  method CollectMetrics(page: Page, ids: seq<string>) returns (r: Result<seq<Metric>>)
    requires IsIdOrder(ids)
    ensures r == Collect(page, ids)
  {
    if page.HttpFailure? {
      return Err(FetchFailed);
    }
    var scanned := ScanTables(page.tables, ids);
    if scanned.Err? {
      return Err(scanned.error);
    }
    var metrics, globalState := scanned.value.metrics, scanned.value.globalState;
    if |globalState.keys| > 0 {
      metrics := metrics + [MakeMetric(false, GlobalStateName, None, One, globalState)];
    }
    return Ok(metrics);
  }

  /** `collect()`'s loop over the page's tables, which updates the metric list and
      the global state in place. */
  method ScanTables(tables: seq<Table>, ids: seq<string>) returns (r: Result<Progress>)
    requires IsIdOrder(ids)
    ensures r == Scan(tables, ids, Start)
  {
    var metrics: seq<Metric> := [];
    var globalState := Empty;
    for n := 0 to |tables|
      invariant Scan(tables[..n], ids, Start) == Ok(Progress(metrics, globalState))
    {
      assert tables[..n + 1][..n] == tables[..n];
      var step := HandleTable(tables[n], Progress(metrics, globalState), ids);
      if step.Err? {
        ScanPrefixErr(tables, n + 1, ids, Start);
        return Err(step.error);
      }
      metrics, globalState := step.value.metrics, step.value.globalState;
    }
    assert tables[..|tables|] == tables;
    return Ok(Progress(metrics, globalState));
  }

  /** The body of `collect()`'s loop for one table. */
  method HandleTable(t: Table, s: Progress, ids: seq<string>) returns (r: Result<Progress>)
    requires s.globalState.Valid()
    requires IsIdOrder(ids)
    ensures r == TableStep(t, s, ids)
  {
    if t.th.None? {
      return Ok(s);
    }
    var rows := ParseTable(t.rows);
    ParsedRowsShape(t.rows);
    IdOrderDistinct(ids);
    var title := Text.Strip(t.th.value);
    if title == StartupTitle {
      var g := StartupProcedure(rows, s.globalState);
      r := if g.Err? then Err(g.error) else Ok(Progress(s.metrics, g.value));
    } else if title == DownstreamTitle {
      var more := MakeTableMetrics(rows, DownstreamPrefix, ids, DownstreamDiscrete, DownstreamCounter);
      r := if more.Err? then Err(more.error) else Ok(Progress(s.metrics + more.value, s.globalState));
    } else if title == UpstreamTitle {
      var more := MakeTableMetrics(rows, UpstreamPrefix, ids, UpstreamDiscrete, UpstreamCounter);
      r := if more.Err? then Err(more.error) else Ok(Progress(s.metrics + more.value, s.globalState));
    } else {
      r := Err(UnknownCaption(title));
    }
  }

  /** The "Startup Procedure" branch of `collect()`: row by row into the global
      state. */
  method StartupProcedure(rows: seq<Dict>, g: Dict) returns (r: Result<Dict>)
    requires forall i :: 0 <= i < |rows| ==> rows[i].Valid()
    requires g.Valid()
    ensures r == StartupState(rows, g)
  {
    var globalState := g;
    for n := 0 to |rows|
      invariant StartupState(rows[..n], g) == Ok(globalState)
    {
      assert rows[..n + 1][..n] == rows[..n];
      var row := rows[n];
      if "procedure" !in row.values {
        StartupFailureSticks(rows, g, n + 1);
        return Err(MissingField("procedure"));
      }
      var rowPrefix := RowPrefix(row);
      KeysHaveValues(row);
      globalState := StartupRow(row, rowPrefix, globalState);
    }
    assert rows[..|rows|] == rows;
    return Ok(globalState);
  }

  /** One startup row: every field but "procedure" is copied into the global state
      under the row's prefix. */
  method StartupRow(row: Dict, rowPrefix: string, g: Dict) returns (g': Dict)
    requires forall i :: 0 <= i < |row.keys| ==> row.keys[i] in row.values
    requires g.Valid()
    ensures g' == ProcedureFields(row.keys, row.values, rowPrefix, g)
  {
    g' := g;
    for j := 0 to |row.keys|
      invariant g' == ProcedureFields(row.keys[..j], row.values, rowPrefix, g)
    {
      assert row.keys[..j + 1][..j] == row.keys[..j];
      var k := row.keys[j];
      if k == "procedure" {
        continue;
      }
      g' := Put(g', rowPrefix + k, row.values[k]);
    }
    assert row.keys[..|row.keys|] == row.keys;
  }

  /** Either order of the id set lists two different fields. */
  lemma IdOrderDistinct(ids: seq<string>)
    requires IsIdOrder(ids)
    ensures forall i, j :: 0 <= i < j < |ids| ==> ids[i] != ids[j]
  {
  }

  /** A row without "procedure" aborts the rest of the startup table. */
  lemma {:induction false} StartupFailureSticks(rows: seq<Dict>, g: Dict, n: nat)
    requires forall i :: 0 <= i < |rows| ==> rows[i].Valid()
    requires g.Valid()
    requires n <= |rows|
    requires StartupState(rows[..n], g).Err?
    ensures StartupState(rows, g) == StartupState(rows[..n], g)
    decreases |rows|
  {
    if n == |rows| {
      assert rows[..n] == rows;
    } else {
      assert rows[..|rows| - 1][..n] == rows[..n];
      StartupFailureSticks(rows[..|rows| - 1], g, n);
    }
  }

  /** Scanning two runs of tables is scanning the second from where the first left
      off; a failure in the first ends the scrape. */
  lemma {:induction false} ScanAppend(a: seq<Table>, b: seq<Table>, ids: seq<string>, init: Progress)
    requires init.globalState.Valid()
    requires IsIdOrder(ids)
    ensures Scan(a, ids, init).Err? ==> Scan(a + b, ids, init) == Scan(a, ids, init)
    ensures Scan(a, ids, init).Ok? ==> Scan(a + b, ids, init) == Scan(b, ids, Scan(a, ids, init).value)
    decreases |b|
  {
    if |b| == 0 {
      assert a + b == a;
    } else {
      var b' := b[..|b| - 1];
      assert (a + b)[..|a + b| - 1] == a + b';
      assert (a + b)[|a + b| - 1] == b[|b| - 1];
      ScanAppend(a, b', ids, init);
    }
  }

  /** Scanning a single table is that table's step. */
  lemma ScanOne(t: Table, ids: seq<string>, init: Progress)
    requires init.globalState.Valid()
    requires IsIdOrder(ids)
    ensures Scan([t], ids, init) == TableStep(t, init, ids)
  {
    assert [t][..0] == [];
  }

  /** A table without a `th` changes nothing, wherever it sits on the page. */
  lemma CaptionlessTableSkipped(a: seq<Table>, t: Table, b: seq<Table>, ids: seq<string>)
    requires t.th.None?
    requires IsIdOrder(ids)
    ensures Collect(Page(a + [t] + b), ids) == Collect(Page(a + b), ids)
  {
    ScanAppend(a + [t], b, ids, Start);
    ScanAppend(a, [t], ids, Start);
    ScanAppend(a, b, ids, Start);
    if Scan(a, ids, Start).Ok? {
      ScanOne(t, ids, Scan(a, ids, Start).value);
    }
  }

  /** A captioned table whose caption is none of the three known ones makes the
      scrape fail; when every table before it was handled, it fails with that
      caption. */
  lemma UnknownCaptionFails(tables: seq<Table>, ids: seq<string>, i: nat)
    requires IsIdOrder(ids)
    requires i < |tables| && tables[i].th.Some?
    requires Text.Strip(tables[i].th.value) != StartupTitle
    requires Text.Strip(tables[i].th.value) != DownstreamTitle
    requires Text.Strip(tables[i].th.value) != UpstreamTitle
    ensures Collect(Page(tables), ids).Err?
    ensures Scan(tables[..i], ids, Start).Ok? ==>
              Collect(Page(tables), ids) == Err(UnknownCaption(Text.Strip(tables[i].th.value)))
  {
    ScanStepAt(tables, i, ids, Start);
    if Scan(tables[..i], ids, Start).Ok? {
      UnknownStep(tables[i], Scan(tables[..i], ids, Start).value, ids);
    }
    ScanPrefixErr(tables, i + 1, ids, Start);
  }

  /** The scan of the first i + 1 tables is the scan of the first i followed by
      table i. */
  lemma ScanStepAt(tables: seq<Table>, i: nat, ids: seq<string>, init: Progress)
    requires init.globalState.Valid()
    requires IsIdOrder(ids)
    requires i < |tables|
    ensures Scan(tables[..i], ids, init).Err? ==> Scan(tables[..i + 1], ids, init) == Scan(tables[..i], ids, init)
    ensures Scan(tables[..i], ids, init).Ok? ==>
              Scan(tables[..i + 1], ids, init) == TableStep(tables[i], Scan(tables[..i], ids, init).value, ids)
  {
    assert tables[..i + 1][..i] == tables[..i];
  }

  /** Once the scan of the first n tables has failed, the scrape fails with the
      same error. */
  lemma ScanPrefixErr(tables: seq<Table>, n: nat, ids: seq<string>, init: Progress)
    requires init.globalState.Valid()
    requires IsIdOrder(ids)
    requires n <= |tables|
    requires Scan(tables[..n], ids, init).Err?
    ensures Scan(tables, ids, init) == Scan(tables[..n], ids, init)
  {
    ScanAppend(tables[..n], tables[n..], ids, init);
    assert tables[..n] + tables[n..] == tables;
  }

  /** A table with an unknown caption fails with that caption. */
  lemma UnknownStep(t: Table, s: Progress, ids: seq<string>)
    requires s.globalState.Valid()
    requires IsIdOrder(ids)
    requires t.th.Some?
    requires Text.Strip(t.th.value) != StartupTitle
    requires Text.Strip(t.th.value) != DownstreamTitle
    requires Text.Strip(t.th.value) != UpstreamTitle
    ensures TableStep(t, s, ids) == Err(UnknownCaption(Text.Strip(t.th.value)))
  {
  }

  /** The startup table fails exactly when one of its rows has no "procedure" field. */
  lemma StartupSucceeds(rows: seq<Dict>, g: Dict)
    requires forall i :: 0 <= i < |rows| ==> rows[i].Valid()
    requires g.Valid()
    ensures StartupState(rows, g).Ok? <==> forall i :: 0 <= i < |rows| ==> "procedure" in rows[i].values
  {
    if forall i :: 0 <= i < |rows| ==> "procedure" in rows[i].values {
      StartupAllNamed(rows, g);
    } else {
      var i :| 0 <= i < |rows| && "procedure" !in rows[i].values;
      StartupUnnamed(rows, g, i);
    }
  }

  lemma {:induction false} StartupAllNamed(rows: seq<Dict>, g: Dict)
    requires forall i :: 0 <= i < |rows| ==> rows[i].Valid()
    requires g.Valid()
    requires forall i :: 0 <= i < |rows| ==> "procedure" in rows[i].values
    ensures StartupState(rows, g).Ok?
    decreases |rows|
  {
    if |rows| > 0 {
      var rows' := rows[..|rows| - 1];
      assert forall i :: 0 <= i < |rows'| ==> rows'[i] == rows[i];
      StartupAllNamed(rows', g);
      StartupStep(rows, g);
    }
  }

  lemma StartupUnnamed(rows: seq<Dict>, g: Dict, i: nat)
    requires forall i :: 0 <= i < |rows| ==> rows[i].Valid()
    requires g.Valid()
    requires i < |rows| && "procedure" !in rows[i].values
    ensures StartupState(rows, g).Err?
  {
    var rows' := rows[..i + 1];
    assert rows'[..|rows'| - 1] == rows[..i];
    StartupStep(rows', g);
    StartupFailureSticks(rows, g, i + 1);
  }

  /** One more startup row, in terms of the global state before it. */
  lemma StartupStep(rows: seq<Dict>, g: Dict)
    requires forall i :: 0 <= i < |rows| ==> rows[i].Valid()
    requires g.Valid()
    requires |rows| > 0
    ensures var prev, r := StartupState(rows[..|rows| - 1], g), StartupState(rows, g);
            && (prev.Err? ==> r.Err?)
            && (prev.Ok? ==> (r.Ok? <==> "procedure" in rows[|rows| - 1].values))
  {
  }

  /** The fields among ks that a row with prefix rowPrefix stores in the global state
      are stored under rowPrefix + k, so key is written exactly when it starts with
      rowPrefix and the rest names such a field. */
  predicate WritesKey(ks: seq<string>, rowPrefix: string, key: string)
  {
    && |rowPrefix| <= |key|
    && key[..|rowPrefix|] == rowPrefix
    && key[|rowPrefix|..] in ks
    && key[|rowPrefix|..] != "procedure"
  }

  /** Copying a row's fields: a key written by the row holds that field's value, any
      other key keeps what it held. */
  lemma {:induction false} ProcedureFieldsGet(ks: seq<string>, row: map<string, string>, rowPrefix: string,
                                              g: Dict, key: string)
    requires forall i :: 0 <= i < |ks| ==> ks[i] in row
    requires g.Valid()
    ensures var r := ProcedureFields(ks, row, rowPrefix, g);
            && (key in r.values <==> key in g.values || WritesKey(ks, rowPrefix, key))
            && (WritesKey(ks, rowPrefix, key) ==> r.values[key] == row[key[|rowPrefix|..]])
            && (!WritesKey(ks, rowPrefix, key) && key in g.values ==> r.values[key] == g.values[key])
    decreases |ks|
  {
    if |ks| > 0 {
      var ks', k := ks[..|ks| - 1], ks[|ks| - 1];
      ProcedureFieldsGet(ks', row, rowPrefix, g, key);
      var prev := ProcedureFields(ks', row, rowPrefix, g);
      assert ks == ks' + [k];
      Text.PrefixSplit(rowPrefix, k, key);
      if k != "procedure" {
        PutValid(prev, rowPrefix + k, row[k]);
      }
    }
  }

  /** A startup row stores one of its fields under key. */
  predicate RowWrites(row: Dict, key: string)
  {
    "procedure" in row.values && WritesKey(row.keys, RowPrefix(row), key)
  }

  /** The last row that stores a field under key, or -1 when none does. */
  function LastWriter(rows: seq<Dict>, key: string): (i: int)
    ensures -1 <= i < |rows|
    ensures 0 <= i ==> RowWrites(rows[i], key)
    ensures forall j :: i < j < |rows| ==> !RowWrites(rows[j], key)
    decreases |rows|
  {
    if |rows| == 0 then -1
    else if RowWrites(rows[|rows| - 1], key) then |rows| - 1
    else
      var i := LastWriter(rows[..|rows| - 1], key);
      assert forall j :: i < j < |rows| - 1 ==> rows[..|rows| - 1][j] == rows[j];
      i
  }

  /** After the startup table, each key holds the field of the last row that writes
      it (a later row overwrites an earlier one), and a key no row writes keeps what
      the global state held before. */
  lemma {:induction false} StartupGet(rows: seq<Dict>, g: Dict, key: string)
    requires forall i :: 0 <= i < |rows| ==> rows[i].Valid()
    requires g.Valid()
    ensures var r, i := StartupState(rows, g), LastWriter(rows, key);
            r.Ok? ==>
              && (0 <= i ==> "procedure" in rows[i].values
                             && key[|RowPrefix(rows[i])|..] in rows[i].values
                             && key in r.value.values
                             && r.value.values[key] == rows[i].values[key[|RowPrefix(rows[i])|..]])
              && (i < 0 ==> (key in r.value.values <==> key in g.values)
                            && (key in g.values ==> r.value.values[key] == g.values[key]))
    decreases |rows|
  {
    if |rows| > 0 {
      var rows', row := rows[..|rows| - 1], rows[|rows| - 1];
      StartupGet(rows', g, key);
      var prev := StartupState(rows', g);
      if prev.Ok? && "procedure" in row.values {
        KeysHaveValues(row);
        ProcedureFieldsGet(row.keys, row.values, RowPrefix(row), prev.value, key);
        var i := LastWriter(rows, key);
        if !RowWrites(row, key) && 0 <= i {
          assert rows'[i] == rows[i];
        }
      }
    }
  }

  /** Any metric a channel table can yield. */
  predicate ChannelMetric(m: Metric, ids: seq<string>)
  {
    || FromTable(m, DownstreamPrefix, ids, DownstreamDiscrete, DownstreamCounter)
    || FromTable(m, UpstreamPrefix, ids, UpstreamDiscrete, UpstreamCounter)
  }

  /** Every metric of ms is a channel metric. */
  predicate AllChannel(ms: seq<Metric>, ids: seq<string>)
  {
    forall j :: 0 <= j < |ms| ==> ChannelMetric(ms[j], ids)
  }

  /** Handling a table only ever adds channel metrics. */
  lemma TableStepChannelMetrics(t: Table, s: Progress, ids: seq<string>)
    requires s.globalState.Valid()
    requires IsIdOrder(ids)
    requires AllChannel(s.metrics, ids)
    ensures var r := TableStep(t, s, ids);
            r.Ok? ==> AllChannel(r.value.metrics, ids)
  {
    if t.th.Some? {
      var rows := ParsedRows(t.rows);
      var title := Text.Strip(t.th.value);
      ParsedRowsShape(t.rows);
      IdOrderDistinct(ids);
      if title == DownstreamTitle {
        ChannelTableMetrics(rows, s.metrics, ids, DownstreamPrefix, DownstreamDiscrete, DownstreamCounter);
      } else if title == UpstreamTitle {
        ChannelTableMetrics(rows, s.metrics, ids, UpstreamPrefix, UpstreamDiscrete, UpstreamCounter);
      }
    }
  }

  lemma ChannelTableMetrics(rows: seq<Dict>, metrics: seq<Metric>, ids: seq<string>, prefix: string,
                            discrete: set<string>, counter: set<string>)
    requires forall i :: 0 <= i < |rows| ==> rows[i].Valid()
    requires forall i, j :: 0 <= i < j < |ids| ==> ids[i] != ids[j]
    requires || (prefix == DownstreamPrefix && discrete == DownstreamDiscrete && counter == DownstreamCounter)
             || (prefix == UpstreamPrefix && discrete == UpstreamDiscrete && counter == UpstreamCounter)
    requires AllChannel(metrics, ids)
    ensures var more := TableMetrics.TableMetrics(rows, prefix, ids, discrete, counter);
            more.Ok? ==> AllChannel(metrics + more.value, ids)
  {
    var more := TableMetrics.TableMetrics(rows, prefix, ids, discrete, counter);
    TableMetricsFromTable(rows, prefix, ids, discrete, counter);
    if more.Ok? {
      AppendChannelMetrics(metrics, more.value, ids);
    }
  }

  lemma AppendChannelMetrics(xs: seq<Metric>, ys: seq<Metric>, ids: seq<string>)
    requires AllChannel(xs, ids)
    requires forall j :: 0 <= j < |ys| ==> ChannelMetric(ys[j], ids)
    ensures AllChannel(xs + ys, ids)
  {
  }

  /** The table loop collects nothing but channel metrics. */
  lemma {:induction false} ScanChannelMetrics(tables: seq<Table>, ids: seq<string>)
    requires IsIdOrder(ids)
    ensures var r := Scan(tables, ids, Start);
            r.Ok? ==> AllChannel(r.value.metrics, ids)
    decreases |tables|
  {
    if |tables| > 0 {
      var n := |tables| - 1;
      ScanChannelMetrics(tables[..n], ids);
      ScanStepAt(tables, n, ids, Start);
      assert tables[..n + 1] == tables;
      var prev := Scan(tables[..n], ids, Start);
      if prev.Ok? {
        TableStepChannelMetrics(tables[n], prev.value, ids);
      }
    }
  }

  /** The `sb6183_state` name is too short to carry either channel prefix. */
  lemma GlobalStateNotChannel(m: Metric, ids: seq<string>)
    requires m.name == GlobalStateName
    ensures !ChannelMetric(m, ids)
  {
  }

  /** What `collect()` returns: the channel metrics, and after them the
      `sb6183_state` gauge of value 1, which is there exactly when the global state
      is not empty and whose labels are the global state. */
  lemma CollectShape(tables: seq<Table>, ids: seq<string>, ms: seq<Metric>)
    requires IsIdOrder(ids)
    requires Collect(Page(tables), ids) == Ok(ms)
    ensures Scan(tables, ids, Start).Ok?
    ensures var g := Scan(tables, ids, Start).value.globalState;
            && (|g.keys| == 0 ==> forall j :: 0 <= j < |ms| ==> ChannelMetric(ms[j], ids))
            && (|g.keys| > 0 ==>
                  && |ms| > 0
                  && (forall j :: 0 <= j < |ms| - 1 ==> ChannelMetric(ms[j], ids))
                  && ms[|ms| - 1].name == GlobalStateName
                  && ms[|ms| - 1].kind == Gauge
                  && |ms[|ms| - 1].samples| == 1
                  && ms[|ms| - 1].samples[0].value == One
                  && SampleLabels(ms[|ms| - 1]) == g)
  {
    ScanChannelMetrics(tables, ids);
    FinishShape(Scan(tables, ids, Start).value, ids);
  }

  lemma FinishShape(s: Progress, ids: seq<string>)
    requires s.globalState.Valid()
    requires AllChannel(s.metrics, ids)
    ensures var g, ms := s.globalState, Finish(s);
            && (|g.keys| == 0 ==> AllChannel(ms, ids))
            && (|g.keys| > 0 ==>
                  && |ms| > 0
                  && AllChannel(ms[..|ms| - 1], ids)
                  && ms[|ms| - 1].name == GlobalStateName
                  && ms[|ms| - 1].kind == Gauge
                  && |ms[|ms| - 1].samples| == 1
                  && ms[|ms| - 1].samples[0].value == One
                  && SampleLabels(ms[|ms| - 1]) == g)
  {
    if |s.globalState.keys| > 0 {
      MakeMetricLabels(false, GlobalStateName, None, One, s.globalState);
      assert Finish(s)[..|Finish(s)| - 1] == s.metrics;
    }
  }

  /** The `sb6183_state` gauge is in the result exactly when the global state is not
      empty; it is then the last metric, and no other metric carries its name. */
  lemma GlobalStateGaugePresent(tables: seq<Table>, ids: seq<string>, ms: seq<Metric>)
    requires IsIdOrder(ids)
    requires Collect(Page(tables), ids) == Ok(ms)
    ensures Scan(tables, ids, Start).Ok?
    ensures (exists j :: 0 <= j < |ms| && ms[j].name == GlobalStateName)
            <==> |Scan(tables, ids, Start).value.globalState.keys| > 0
    ensures |Scan(tables, ids, Start).value.globalState.keys| > 0 ==>
              |ms| > 0 && ms[|ms| - 1].name == GlobalStateName
    ensures forall j :: 0 <= j < |ms| - 1 ==> ms[j].name != GlobalStateName
  {
    CollectShape(tables, ids, ms);
    if j :| 0 <= j < |ms| && ms[j].name == GlobalStateName {
      GlobalStateNotChannel(ms[j], ids);
    }
    forall j | 0 <= j < |ms| - 1
      ensures ms[j].name != GlobalStateName
    {
      if ms[j].name == GlobalStateName {
        GlobalStateNotChannel(ms[j], ids);
      }
    }
  }

  /** Counters come only from the downstream error columns: every counter `collect()`
      returns is `sb6183_downstream_corrected` or `sb6183_downstream_uncorrectables`. */
  lemma CountersAreDownstreamErrors(tables: seq<Table>, ids: seq<string>, ms: seq<Metric>)
    requires IsIdOrder(ids)
    requires Collect(Page(tables), ids) == Ok(ms)
    ensures forall j :: 0 <= j < |ms| && ms[j].kind == Counter ==>
              ms[j].name == DownstreamPrefix + "corrected" || ms[j].name == DownstreamPrefix + "uncorrectables"
  {
    CollectShape(tables, ids, ms);
    forall j | 0 <= j < |ms| && ms[j].kind == Counter
      ensures ms[j].name == DownstreamPrefix + "corrected" || ms[j].name == DownstreamPrefix + "uncorrectables"
    {
      ChannelCounter(ms[j], ids);
    }
  }

  lemma ChannelCounter(m: Metric, ids: seq<string>)
    requires ChannelMetric(m, ids) && m.kind == Counter
    ensures m.name == DownstreamPrefix + "corrected" || m.name == DownstreamPrefix + "uncorrectables"
  {
    Text.PrefixSplit(DownstreamPrefix, m.name[|DownstreamPrefix|..], m.name);
  }

  /** Discrete and id columns never become metrics of their own: no metric is named
      after either table's channel or frequency column, or the upstream symbol rate. */
  lemma NoDiscreteOrIdMetrics(tables: seq<Table>, ids: seq<string>, ms: seq<Metric>)
    requires IsIdOrder(ids)
    requires Collect(Page(tables), ids) == Ok(ms)
    ensures forall j :: 0 <= j < |ms| ==>
              ms[j].name !in {DownstreamPrefix + "channel", DownstreamPrefix + "frequency",
                              UpstreamPrefix + "channel", UpstreamPrefix + "frequency",
                              UpstreamPrefix + "symbol_rate"}
  {
    CollectShape(tables, ids, ms);
    forall j | 0 <= j < |ms|
      ensures ms[j].name !in {DownstreamPrefix + "channel", DownstreamPrefix + "frequency",
                              UpstreamPrefix + "channel", UpstreamPrefix + "frequency",
                              UpstreamPrefix + "symbol_rate"}
    {
      if ChannelMetric(ms[j], ids) {
        ChannelNotExcluded(ms[j], ids, DownstreamPrefix, DownstreamDiscrete, "channel");
        ChannelNotExcluded(ms[j], ids, DownstreamPrefix, DownstreamDiscrete, "frequency");
        ChannelNotExcluded(ms[j], ids, UpstreamPrefix, UpstreamDiscrete, "channel");
        ChannelNotExcluded(ms[j], ids, UpstreamPrefix, UpstreamDiscrete, "frequency");
        ChannelNotExcluded(ms[j], ids, UpstreamPrefix, UpstreamDiscrete, "symbol_rate");
      }
    }
  }

  /** A channel metric is never named after an id or discrete field of its table. */
  lemma ChannelNotExcluded(m: Metric, ids: seq<string>, prefix: string, discrete: set<string>, k: string)
    requires IsIdOrder(ids)
    requires ChannelMetric(m, ids)
    requires || (prefix == DownstreamPrefix && discrete == DownstreamDiscrete)
             || (prefix == UpstreamPrefix && discrete == UpstreamDiscrete)
    requires k in ids || k in discrete
    ensures m.name != prefix + k
  {
    if m.name == prefix + k {
      Text.PrefixSplit(prefix, k, m.name);
      ChannelPrefixesDiffer(m.name);
    }
  }

  /** No name carries both channel prefixes. */
  lemma ChannelPrefixesDiffer(name: string)
    ensures !(&& |DownstreamPrefix| <= |name| && name[..|DownstreamPrefix|] == DownstreamPrefix
              && |UpstreamPrefix| <= |name| && name[..|UpstreamPrefix|] == UpstreamPrefix)
  {
    CharOfPrefix(name, DownstreamPrefix, 7);
    CharOfPrefix(name, UpstreamPrefix, 7);
  }

  lemma CharOfPrefix(s: string, p: string, i: nat)
    requires i < |p|
    ensures |p| <= |s| && s[..|p|] == p ==> s[i] == p[i]
  {
    if |p| <= |s| && s[..|p|] == p {
      assert s[..|p|][i] == s[i];
    }
  }
}
