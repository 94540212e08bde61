/** `Collector.make_table_metrics`: the field classifier that turns the records of a
    channel table into metrics. */
module TableMetrics {
  import opened Outcomes
  import opened Dicts
  import Numbers
  import Text
  import opened Metrics

  /** `{k: row[k] for k in id}`, taking the id fields in the order the `id` set
      yields them; the first one the row lacks raises `KeyError`. */
  function IdLabels(row: Dict, ids: seq<string>): (r: Result<Dict>)
    requires row.Valid()
    requires forall i, j :: 0 <= i < j < |ids| ==> ids[i] != ids[j]
    ensures r.Ok? ==> r.value.Valid()
    decreases |ids|
  {
    if |ids| == 0 then Ok(Empty)
    else
      var k := ids[|ids| - 1];
      match IdLabels(row, ids[..|ids| - 1])
      case Err(e) => Err(e)
      case Ok(labels) =>
        if k in row.values then
          PutValid(labels, k, row.values[k]);
          Ok(Put(labels, k, row.values[k]))
        else Err(MissingField(k))
  }

  /** A field that becomes a metric of its own: not an id field, a value that the
      pattern `^-?[0-9\.]+( .*)?` matches, and a name outside the discrete set. */
  predicate IsNumericField(k: string, v: string, ids: seq<string>, discrete: set<string>)
  {
    k !in ids && Numbers.MatchesNumeric(v) && k !in discrete
  }

  /** A field that goes into the row's state bag: neither an id field nor numeric. */
  predicate IsStateField(k: string, v: string, ids: seq<string>, discrete: set<string>)
  {
    k !in ids && !IsNumericField(k, v, ids, discrete)
  }

  /** `make_metric(k in counter, prefix + k, None, float(v.split(" ")[0]), **labels)`
      for a numeric field k of value v. */
  function FieldMetric(k: string, v: string, prefix: string, counter: set<string>, labels: Dict): (m: Metric)
    requires labels.Valid()
    ensures m.name == prefix + k
    ensures m.kind == Counter <==> k in counter
    ensures m.labelNames == labels.keys
    ensures |m.samples| == 1 && m.samples[0].value == Reading(Numbers.FirstToken(v))
    ensures |m.samples[0].labelValues| == |m.labelNames|
    ensures forall i :: 0 <= i < |m.labelNames| ==>
              m.labelNames[i] in labels.values && m.samples[0].labelValues[i] == labels.values[m.labelNames[i]]
  {
    MakeMetric(k in counter, prefix + k, None, Reading(Numbers.FirstToken(v)), labels)
  }

  /** The loop over `row.items()` for the keys ks: the metrics emitted so far and the
      state bag, or the failure of `float` on a numeric field's first token. */
  function FieldsOutcome(ks: seq<string>, row: map<string, string>, prefix: string,
                         ids: seq<string>, discrete: set<string>, counter: set<string>,
                         labels: Dict): (r: Result<(seq<Metric>, Dict)>)
    requires forall i :: 0 <= i < |ks| ==> ks[i] in row
    requires labels.Valid()
    ensures r.Ok? ==> r.value.1.Valid()
    decreases |ks|
  {
    if |ks| == 0 then Ok(([], Empty))
    else
      var k := ks[|ks| - 1];
      var v := row[k];
      match FieldsOutcome(ks[..|ks| - 1], row, prefix, ids, discrete, counter, labels)
      case Err(e) => Err(e)
      case Ok((metrics, state)) =>
        if k in ids then Ok((metrics, state))
        else if Numbers.MatchesNumeric(v) && k !in discrete then
          var token := Numbers.FirstToken(v);
          if Numbers.FloatAccepts(token) then
            Ok((metrics + [FieldMetric(k, v, prefix, counter, labels)], state))
          else Err(NotAFloat(token))
        else
          PutValid(state, k, v);
          Ok((metrics, Put(state, k, v)))
  }

  /** The metrics of one record: one per numeric field, in field order, labelled
      with the id fields; then, if the state bag is not empty, one `prefix + "state"`
      gauge of value 1 labelled with the bag and the id fields. */
  function RowMetrics(row: Dict, prefix: string, ids: seq<string>, discrete: set<string>,
                      counter: set<string>): (r: Result<seq<Metric>>)
    requires row.Valid()
    requires forall i, j :: 0 <= i < j < |ids| ==> ids[i] != ids[j]
  {
    assert forall i :: 0 <= i < |row.keys| ==> row.keys[i] in row.values;
    match IdLabels(row, ids)
    case Err(e) => Err(e)
    case Ok(labels) =>
      match FieldsOutcome(row.keys, row.values, prefix, ids, discrete, counter, labels)
      case Err(e) => Err(e)
      case Ok((metrics, state)) =>
        if |state.keys| == 0 then Ok(metrics)
        else Ok(metrics + [StateMetric(prefix, state, labels)])
  }

  /** `make_metric(False, prefix + "state", None, 1, **state)` after
      `state.update(labels)`. */
  function StateMetric(prefix: string, state: Dict, labels: Dict): Metric
    requires state.Valid() && labels.Valid()
  {
    UpdateValid(state, labels, "");
    MakeMetric(false, prefix + "state", None, One, Update(state, labels))
  }

  /** What each record, on its own, yields. */
  function RowOutcomes(rows: seq<Dict>, prefix: string, ids: seq<string>, discrete: set<string>,
                       counter: set<string>): (outs: seq<Result<seq<Metric>>>)
    requires forall i :: 0 <= i < |rows| ==> rows[i].Valid()
    requires forall i, j :: 0 <= i < j < |ids| ==> ids[i] != ids[j]
    ensures |outs| == |rows|
    ensures forall i :: 0 <= i < |rows| ==> outs[i] == RowMetrics(rows[i], prefix, ids, discrete, counter)
  {
    seq(|rows|, i requires 0 <= i < |rows| => RowMetrics(rows[i], prefix, ids, discrete, counter))
  }

  /** `make_table_metrics(rows, prefix, id, discrete, counter)`: every record's
      metrics, in record order; the first failure aborts the whole call. */
  function TableMetrics(rows: seq<Dict>, prefix: string, ids: seq<string>, discrete: set<string>,
                        counter: set<string>): Result<seq<Metric>>
    requires forall i :: 0 <= i < |rows| ==> rows[i].Valid()
    requires forall i, j :: 0 <= i < j < |ids| ==> ids[i] != ids[j]
  {
    Flatten(RowOutcomes(rows, prefix, ids, discrete, counter))
  }

  /** `make_table_metrics`, record by record as the source loops. */
  method MakeTableMetrics(rows: seq<Dict>, prefix: string, ids: seq<string>, discrete: set<string>,
                          counter: set<string>) returns (r: Result<seq<Metric>>)
    requires forall i :: 0 <= i < |rows| ==> rows[i].Valid()
    requires forall i, j :: 0 <= i < j < |ids| ==> ids[i] != ids[j]
    ensures r == TableMetrics(rows, prefix, ids, discrete, counter)
  {
    ghost var outs := RowOutcomes(rows, prefix, ids, discrete, counter);
    var metrics: seq<Metric> := [];
    for n := 0 to |rows|
      invariant Flatten(outs[..n]) == Ok(metrics)
    {
      var more := MakeRowMetrics(rows[n], prefix, ids, discrete, counter);
      FlattenStepAt(outs, n);
      if more.Err? {
        FlattenPrefixErr(outs, n + 1);
        return Err(more.error);
      }
      metrics := metrics + more.value;
    }
    assert outs[..|rows|] == outs;
    return Ok(metrics);
  }

  /** The body of make_table_metrics' loop for one record: the label dict, then the
      loop over `row.items()` that fills the state bag in place. */
  method MakeRowMetrics(row: Dict, prefix: string, ids: seq<string>, discrete: set<string>,
                        counter: set<string>) returns (r: Result<seq<Metric>>)
    requires row.Valid()
    requires forall i, j :: 0 <= i < j < |ids| ==> ids[i] != ids[j]
    ensures r == RowMetrics(row, prefix, ids, discrete, counter)
  {
    var labelsOutcome := IdLabels(row, ids);
    if labelsOutcome.Err? {
      return Err(labelsOutcome.error);
    }
    var labels := labelsOutcome.value;
    KeysHaveValues(row);
    var fields := RowFields(row.keys, row.values, prefix, ids, discrete, counter, labels);
    if fields.Err? {
      return Err(fields.error);
    }
    var metrics, state := fields.value.0, fields.value.1;
    if |state.keys| > 0 {
      metrics := metrics + [StateMetric(prefix, state, labels)];
    }
    return Ok(metrics);
  }

  /** make_table_metrics' loop over `row.items()` for the keys ks: numeric fields
      become metrics, the others other than id fields are put into the state bag. */
  method RowFields(ks: seq<string>, row: map<string, string>, prefix: string,
                   ids: seq<string>, discrete: set<string>, counter: set<string>,
                   labels: Dict) returns (r: Result<(seq<Metric>, Dict)>)
    requires forall i :: 0 <= i < |ks| ==> ks[i] in row
    requires labels.Valid()
    ensures r == FieldsOutcome(ks, row, prefix, ids, discrete, counter, labels)
  {
    var metrics: seq<Metric> := [];
    var state := Empty;
    for j := 0 to |ks|
      invariant FieldsOutcome(ks[..j], row, prefix, ids, discrete, counter, labels) == Ok((metrics, state))
    {
      FieldsStep(ks[..j + 1], row, prefix, ids, discrete, counter, labels);
      assert ks[..j + 1][..j] == ks[..j];
      var k := ks[j];
      var v := row[k];
      if k in ids {
        continue;
      }
      if Numbers.MatchesNumeric(v) && k !in discrete {
        var token := Numbers.FirstToken(v);
        if !Numbers.FloatAccepts(token) {
          FieldsFailureSticks(ks, row, prefix, ids, discrete, counter, labels, j + 1);
          return Err(NotAFloat(token));
        }
        metrics := metrics + [FieldMetric(k, v, prefix, counter, labels)];
      } else {
        state := Put(state, k, v);
      }
    }
    assert ks[..|ks|] == ks;
    return Ok((metrics, state));
  }

  /** A failure on a field aborts the rest of the loop over the record's fields. */
  lemma {:induction false} FieldsFailureSticks(ks: seq<string>, row: map<string, string>, prefix: string,
                                               ids: seq<string>, discrete: set<string>, counter: set<string>,
                                               labels: Dict, n: nat)
    requires forall i :: 0 <= i < |ks| ==> ks[i] in row
    requires labels.Valid()
    requires n <= |ks|
    requires FieldsOutcome(ks[..n], row, prefix, ids, discrete, counter, labels).Err?
    ensures FieldsOutcome(ks, row, prefix, ids, discrete, counter, labels)
            == FieldsOutcome(ks[..n], row, prefix, ids, discrete, counter, labels)
    decreases |ks|
  {
    if n == |ks| {
      assert ks[..n] == ks;
    } else {
      assert ks[..|ks| - 1][..n] == ks[..n];
      FieldsFailureSticks(ks[..|ks| - 1], row, prefix, ids, discrete, counter, labels, n);
    }
  }

  /** The keys among ks of the fields that become metrics of their own, in order. */
  function NumericKeys(ks: seq<string>, row: map<string, string>, ids: seq<string>,
                       discrete: set<string>): (nk: seq<string>)
    requires forall i :: 0 <= i < |ks| ==> ks[i] in row
    ensures forall j :: 0 <= j < |nk| ==> nk[j] in row
    decreases |ks|
  {
    if |ks| == 0 then []
    else
      var k := ks[|ks| - 1];
      NumericKeys(ks[..|ks| - 1], row, ids, discrete)
        + (if IsNumericField(k, row[k], ids, discrete) then [k] else [])
  }

  /** The keys among ks of the fields that go into the state bag, in order. */
  function StateKeys(ks: seq<string>, row: map<string, string>, ids: seq<string>,
                     discrete: set<string>): (sk: seq<string>)
    requires forall i :: 0 <= i < |ks| ==> ks[i] in row
    decreases |ks|
  {
    if |ks| == 0 then []
    else
      var k := ks[|ks| - 1];
      StateKeys(ks[..|ks| - 1], row, ids, discrete)
        + (if IsStateField(k, row[k], ids, discrete) then [k] else [])
  }

  /** A key is listed as numeric exactly when it is one of ks and its field is
      numeric; likewise for the state bag. */
  lemma {:induction false} ClassifiedKeys(ks: seq<string>, row: map<string, string>, ids: seq<string>,
                                          discrete: set<string>, k: string)
    requires forall i :: 0 <= i < |ks| ==> ks[i] in row
    ensures k in NumericKeys(ks, row, ids, discrete) <==> k in ks && IsNumericField(k, row[k], ids, discrete)
    ensures k in StateKeys(ks, row, ids, discrete) <==> k in ks && IsStateField(k, row[k], ids, discrete)
    decreases |ks|
  {
    if |ks| > 0 {
      ClassifiedKeys(ks[..|ks| - 1], row, ids, discrete, k);
      assert ks == ks[..|ks| - 1] + [ks[|ks| - 1]];
    }
  }

  /** One more field, in terms of the outcome before it. */
  lemma FieldsStep(ks: seq<string>, row: map<string, string>, prefix: string,
                   ids: seq<string>, discrete: set<string>, counter: set<string>, labels: Dict)
    requires forall i :: 0 <= i < |ks| ==> ks[i] in row
    requires labels.Valid()
    requires |ks| > 0
    ensures var k := ks[|ks| - 1];
            var prev := FieldsOutcome(ks[..|ks| - 1], row, prefix, ids, discrete, counter, labels);
            var r := FieldsOutcome(ks, row, prefix, ids, discrete, counter, labels);
            && (prev.Err? ==> r == prev)
            && (prev.Ok? && !IsNumericField(k, row[k], ids, discrete) ==> r.Ok? && r.value.0 == prev.value.0)
            && (prev.Ok? && IsNumericField(k, row[k], ids, discrete) ==>
                  (r.Ok? <==> Converts(row[k]))
                  && (r.Ok? ==> r.value == (prev.value.0 + [FieldMetric(k, row[k], prefix, counter, labels)], prev.value.1)))
            && (prev.Ok? && IsStateField(k, row[k], ids, discrete) ==> r.value.1 == Put(prev.value.1, k, row[k]))
            && (prev.Ok? && k in ids ==> r == prev)
  {
  }

  /** The metrics part of FieldsStep: a successful step adds the field's metric
      exactly when the field is numeric. */
  lemma FieldsStepMetrics(ks: seq<string>, row: map<string, string>, prefix: string,
                          ids: seq<string>, discrete: set<string>, counter: set<string>, labels: Dict)
    requires forall i :: 0 <= i < |ks| ==> ks[i] in row
    requires labels.Valid()
    requires |ks| > 0
    ensures var k := ks[|ks| - 1];
            var prev := FieldsOutcome(ks[..|ks| - 1], row, prefix, ids, discrete, counter, labels);
            var r := FieldsOutcome(ks, row, prefix, ids, discrete, counter, labels);
            r.Ok? ==> prev.Ok? && r.value.0 == prev.value.0 +
                        (if IsNumericField(k, row[k], ids, discrete)
                         then [FieldMetric(k, row[k], prefix, counter, labels)] else [])
  {
    FieldsStep(ks, row, prefix, ids, discrete, counter, labels);
  }

  /** `float(v.split(" ")[0])` returns instead of raising ValueError. */
  predicate Converts(v: string)
  {
    Numbers.FloatAccepts(Numbers.FirstToken(v))
  }

  /** float() accepts the first token of each of the fields nk. */
  predicate AllConvert(nk: seq<string>, row: map<string, string>)
    requires forall j :: 0 <= j < |nk| ==> nk[j] in row
    decreases |nk|
  {
    |nk| == 0
    || (AllConvert(nk[..|nk| - 1], row) && Converts(row[nk[|nk| - 1]]))
  }

  /** The loop over a record's fields succeeds exactly when float() accepts the first
      token of every numeric field. */
  lemma {:induction false} FieldsOutcomeSucceeds(ks: seq<string>, row: map<string, string>, prefix: string,
                                                 ids: seq<string>, discrete: set<string>, counter: set<string>,
                                                 labels: Dict)
    requires forall i :: 0 <= i < |ks| ==> ks[i] in row
    requires labels.Valid()
    ensures FieldsOutcome(ks, row, prefix, ids, discrete, counter, labels).Ok?
            <==> AllConvert(NumericKeys(ks, row, ids, discrete), row)
    decreases |ks|
  {
    if |ks| > 0 {
      var ks', k := ks[..|ks| - 1], ks[|ks| - 1];
      var nk, nk' := NumericKeys(ks, row, ids, discrete), NumericKeys(ks', row, ids, discrete);
      FieldsOutcomeSucceeds(ks', row, prefix, ids, discrete, counter, labels);
      FieldsStep(ks, row, prefix, ids, discrete, counter, labels);
      if IsNumericField(k, row[k], ids, discrete) {
        assert nk == nk' + [k];
        assert nk[..|nk| - 1] == nk';
      } else {
        assert nk == nk';
      }
    }
  }

  /** AllConvert is the statement "for every field of nk, float() accepts its first
      token". */
  lemma AllConvertEach(nk: seq<string>, row: map<string, string>)
    requires forall j :: 0 <= j < |nk| ==> nk[j] in row
    ensures AllConvert(nk, row) <==> forall j :: 0 <= j < |nk| ==> Converts(row[nk[j]])
  {
    if AllConvert(nk, row) {
      forall j | 0 <= j < |nk| ensures Converts(row[nk[j]]) {
        AllConvertAt(nk, row, j);
      }
    } else if forall j :: 0 <= j < |nk| ==> Converts(row[nk[j]]) {
      AllConvertFromEach(nk, row);
    }
  }

  lemma {:induction false} AllConvertAt(nk: seq<string>, row: map<string, string>, j: nat)
    requires forall j :: 0 <= j < |nk| ==> nk[j] in row
    requires AllConvert(nk, row) && j < |nk|
    ensures Converts(row[nk[j]])
    decreases |nk|
  {
    if j < |nk| - 1 {
      var nk' := nk[..|nk| - 1];
      assert nk'[j] == nk[j];
      AllConvertAt(nk', row, j);
    }
  }

  lemma {:induction false} AllConvertFromEach(nk: seq<string>, row: map<string, string>)
    requires forall j :: 0 <= j < |nk| ==> nk[j] in row
    requires forall j :: 0 <= j < |nk| ==> Converts(row[nk[j]])
    ensures AllConvert(nk, row)
    decreases |nk|
  {
    if |nk| > 0 {
      var nk' := nk[..|nk| - 1];
      forall j | 0 <= j < |nk'| ensures Converts(row[nk'[j]]) {
        assert nk'[j] == nk[j];
      }
      AllConvertFromEach(nk', row);
    }
  }

  /** When it succeeds, the loop emits one metric per numeric field, in field order. */
  lemma {:induction false} FieldsOutcomeMetrics(ks: seq<string>, row: map<string, string>, prefix: string,
                                                ids: seq<string>, discrete: set<string>, counter: set<string>,
                                                labels: Dict)
    requires forall i :: 0 <= i < |ks| ==> ks[i] in row
    requires labels.Valid()
    ensures var nk := NumericKeys(ks, row, ids, discrete);
            var r := FieldsOutcome(ks, row, prefix, ids, discrete, counter, labels);
            r.Ok? ==> |r.value.0| == |nk|
                      && forall j :: 0 <= j < |nk| ==> r.value.0[j] == FieldMetric(nk[j], row[nk[j]], prefix, counter, labels)
    decreases |ks|
  {
    if |ks| > 0 {
      var ks', k := ks[..|ks| - 1], ks[|ks| - 1];
      var nk, nk' := NumericKeys(ks, row, ids, discrete), NumericKeys(ks', row, ids, discrete);
      FieldsOutcomeMetrics(ks', row, prefix, ids, discrete, counter, labels);
      FieldsStepMetrics(ks, row, prefix, ids, discrete, counter, labels);
      if IsNumericField(k, row[k], ids, discrete) {
        assert nk == nk' + [k];
      } else {
        assert nk == nk';
      }
    }
  }

  /** When it succeeds, the loop leaves in the state bag exactly the state fields,
      in field order, with their values. */
  lemma {:induction false} FieldsOutcomeState(ks: seq<string>, row: map<string, string>, prefix: string,
                                              ids: seq<string>, discrete: set<string>, counter: set<string>,
                                              labels: Dict, k: string)
    requires forall i :: 0 <= i < |ks| ==> ks[i] in row
    requires forall i, j :: 0 <= i < j < |ks| ==> ks[i] != ks[j]
    requires labels.Valid()
    ensures var r := FieldsOutcome(ks, row, prefix, ids, discrete, counter, labels);
            r.Ok? ==> r.value.1.keys == StateKeys(ks, row, ids, discrete)
                      && (k in r.value.1.values ==> k in row && r.value.1.values[k] == row[k])
    decreases |ks|
  {
    if |ks| > 0 {
      var ks', last := ks[..|ks| - 1], ks[|ks| - 1];
      FieldsOutcomeState(ks', row, prefix, ids, discrete, counter, labels, k);
      FieldsStep(ks, row, prefix, ids, discrete, counter, labels);
      var prev := FieldsOutcome(ks', row, prefix, ids, discrete, counter, labels);
      if prev.Ok? && IsStateField(last, row[last], ids, discrete) {
        ClassifiedKeys(ks', row, ids, discrete, last);
        assert last !in ks';
      }
    }
  }

  /** The label dict exists exactly when the record has every id field. */
  lemma {:induction false} IdLabelsSucceeds(row: Dict, ids: seq<string>)
    requires row.Valid()
    requires forall i, j :: 0 <= i < j < |ids| ==> ids[i] != ids[j]
    ensures IdLabels(row, ids).Ok? <==> forall i :: 0 <= i < |ids| ==> ids[i] in row.values
    decreases |ids|
  {
    if |ids| > 0 {
      var ids' := ids[..|ids| - 1];
      IdLabelsSucceeds(row, ids');
      assert forall i :: 0 <= i < |ids'| ==> ids'[i] == ids[i];
    }
  }

  /** It then lists the id fields, in the order taken, with the record's values. */
  lemma IdLabelsContents(row: Dict, ids: seq<string>, k: string)
    requires row.Valid()
    requires forall i, j :: 0 <= i < j < |ids| ==> ids[i] != ids[j]
    ensures var r := IdLabels(row, ids);
            r.Ok? ==> r.value.keys == ids
                      && (k in r.value.values <==> k in ids)
                      && (k in ids ==> k in row.values && r.value.values[k] == row.values[k])
  {
    IdLabelsKeys(row, ids);
    IdLabelsValue(row, ids, k);
  }

  lemma {:induction false} IdLabelsKeys(row: Dict, ids: seq<string>)
    requires row.Valid()
    requires forall i, j :: 0 <= i < j < |ids| ==> ids[i] != ids[j]
    ensures IdLabels(row, ids).Ok? ==> IdLabels(row, ids).value.keys == ids
    decreases |ids|
  {
    if |ids| > 0 {
      var ids', last := ids[..|ids| - 1], ids[|ids| - 1];
      IdLabelsKeys(row, ids');
      IdLabelsStep(row, ids);
      assert last !in ids';
      assert ids == ids' + [last];
    }
  }

  lemma {:induction false} IdLabelsValue(row: Dict, ids: seq<string>, k: string)
    requires row.Valid()
    requires forall i, j :: 0 <= i < j < |ids| ==> ids[i] != ids[j]
    ensures var r := IdLabels(row, ids);
            r.Ok? && k in ids ==> k in row.values && k in r.value.values && r.value.values[k] == row.values[k]
    decreases |ids|
  {
    if |ids| > 0 {
      var ids', last := ids[..|ids| - 1], ids[|ids| - 1];
      IdLabelsValue(row, ids', k);
      IdLabelsStep(row, ids);
      var prev := IdLabels(row, ids');
      if prev.Ok? && last in row.values {
        PutValid(prev.value, last, row.values[last]);
        assert k in ids <==> k in ids' || k == last;
      }
    }
  }

  /** Otherwise the `KeyError` names the first id field, in the order taken, that the
      record lacks. */
  lemma {:induction false} IdLabelsMissing(row: Dict, ids: seq<string>)
    requires row.Valid()
    requires forall i, j :: 0 <= i < j < |ids| ==> ids[i] != ids[j]
    ensures var r := IdLabels(row, ids);
            r.Err? ==> exists i :: 0 <= i < |ids| && r.error == MissingField(ids[i]) && ids[i] !in row.values
                                   && forall j :: 0 <= j < i ==> ids[j] in row.values
    decreases |ids|
  {
    if |ids| > 0 {
      var ids' := ids[..|ids| - 1];
      IdLabelsMissing(row, ids');
      IdLabelsStep(row, ids);
      var prev := IdLabels(row, ids');
      if prev.Err? {
        var i :| 0 <= i < |ids'| && prev.error == MissingField(ids'[i]) && ids'[i] !in row.values
                 && forall j :: 0 <= j < i ==> ids'[j] in row.values;
        assert ids[i] == ids'[i];
        assert forall j :: 0 <= j < i ==> ids[j] == ids'[j];
      } else {
        IdLabelsSucceeds(row, ids');
        assert forall j :: 0 <= j < |ids| - 1 ==> ids[j] == ids'[j];
      }
    }
  }

  /** One more id field, in terms of the label dict before it. */
  lemma IdLabelsStep(row: Dict, ids: seq<string>)
    requires row.Valid()
    requires forall i, j :: 0 <= i < j < |ids| ==> ids[i] != ids[j]
    requires |ids| > 0
    ensures var k, prev, r := ids[|ids| - 1], IdLabels(row, ids[..|ids| - 1]), IdLabels(row, ids);
            && (prev.Err? ==> r == prev)
            && (prev.Ok? && k !in row.values ==> r == Err(MissingField(k)))
            && (prev.Ok? && k in row.values ==> r == Ok(Put(prev.value, k, row.values[k])))
  {
  }

  /** A record yields metrics exactly when it has every id field and float() accepts
      the first token of each of its numeric fields. */
  lemma RowMetricsSucceeds(row: Dict, prefix: string, ids: seq<string>, discrete: set<string>,
                           counter: set<string>)
    requires row.Valid()
    requires forall i, j :: 0 <= i < j < |ids| ==> ids[i] != ids[j]
    ensures forall i :: 0 <= i < |row.keys| ==> row.keys[i] in row.values
    ensures RowMetrics(row, prefix, ids, discrete, counter).Ok?
            <==> (forall i :: 0 <= i < |ids| ==> ids[i] in row.values)
                 && AllConvert(NumericKeys(row.keys, row.values, ids, discrete), row.values)
  {
    assert forall i :: 0 <= i < |row.keys| ==> row.keys[i] in row.values;
    IdLabelsSucceeds(row, ids);
    var labels := IdLabels(row, ids);
    if labels.Ok? {
      FieldsOutcomeSucceeds(row.keys, row.values, prefix, ids, discrete, counter, labels.value);
    }
  }

  /** How RowMetrics is made of the label dict and the loop over the fields. */
  lemma RowMetricsParts(row: Dict, prefix: string, ids: seq<string>, discrete: set<string>,
                        counter: set<string>, ms: seq<Metric>)
    requires row.Valid()
    requires forall i, j :: 0 <= i < j < |ids| ==> ids[i] != ids[j]
    requires RowMetrics(row, prefix, ids, discrete, counter) == Ok(ms)
    ensures forall i :: 0 <= i < |row.keys| ==> row.keys[i] in row.values
    ensures IdLabels(row, ids).Ok?
    ensures var labels := IdLabels(row, ids).value;
            var r := FieldsOutcome(row.keys, row.values, prefix, ids, discrete, counter, labels);
            && r.Ok?
            && ms == if |r.value.1.keys| == 0 then r.value.0 else r.value.0 + [StateMetric(prefix, r.value.1, labels)]
  {
    assert forall i :: 0 <= i < |row.keys| ==> row.keys[i] in row.values;
  }

  /** The record's j-th numeric field k yields the j-th metric: named prefix + k, a
      counter exactly when k is in the counter set, reading k's first token, and
      labelled with the id fields and the record's values for them. */
  lemma RowNumericMetric(row: Dict, prefix: string, ids: seq<string>, discrete: set<string>,
                         counter: set<string>, ms: seq<Metric>, j: nat)
    requires row.Valid()
    requires forall i, j :: 0 <= i < j < |ids| ==> ids[i] != ids[j]
    requires RowMetrics(row, prefix, ids, discrete, counter) == Ok(ms)
    requires forall i :: 0 <= i < |row.keys| ==> row.keys[i] in row.values
    requires j < |NumericKeys(row.keys, row.values, ids, discrete)|
    ensures var k := NumericKeys(row.keys, row.values, ids, discrete)[j];
            && j < |ms|
            && k in row.keys && k !in ids && k !in discrete
            && ms[j].name == prefix + k
            && (ms[j].kind == Counter <==> k in counter)
            && |ms[j].samples| == 1
            && ms[j].samples[0].value == Reading(Numbers.FirstToken(row.values[k]))
            && ms[j].labelNames == ids
            && |ms[j].samples[0].labelValues| == |ids|
            && forall i :: 0 <= i < |ids| ==>
                 ids[i] in row.values && ms[j].samples[0].labelValues[i] == row.values[ids[i]]
  {
    var nk := NumericKeys(row.keys, row.values, ids, discrete);
    RowMetricsParts(row, prefix, ids, discrete, counter, ms);
    var labels := IdLabels(row, ids).value;
    FieldsOutcomeMetrics(row.keys, row.values, prefix, ids, discrete, counter, labels);
    IdLabelsContents(row, ids, "");
    ClassifiedKeys(row.keys, row.values, ids, discrete, nk[j]);
    var m := FieldMetric(nk[j], row.values[nk[j]], prefix, counter, labels);
    assert ms[j] == m;
    forall i | 0 <= i < |ids|
      ensures ids[i] in row.values && m.samples[0].labelValues[i] == row.values[ids[i]]
    {
      IdLabelsContents(row, ids, ids[i]);
    }
  }

  /** After the numeric metrics comes at most one more: the `prefix + "state"` gauge of
      value 1, present exactly when the record has a state field, labelled with the
      state fields in field order and then the id fields. */
  lemma RowStateMetric(row: Dict, prefix: string, ids: seq<string>, discrete: set<string>,
                       counter: set<string>, ms: seq<Metric>)
    requires row.Valid()
    requires forall i, j :: 0 <= i < j < |ids| ==> ids[i] != ids[j]
    requires RowMetrics(row, prefix, ids, discrete, counter) == Ok(ms)
    requires forall i :: 0 <= i < |row.keys| ==> row.keys[i] in row.values
    ensures var nk, sk := NumericKeys(row.keys, row.values, ids, discrete), StateKeys(row.keys, row.values, ids, discrete);
            && |ms| == |nk| + (if |sk| == 0 then 0 else 1)
            && (|sk| > 0 ==>
                  && ms[|ms| - 1].name == prefix + "state"
                  && ms[|ms| - 1].kind == Gauge
                  && |ms[|ms| - 1].samples| == 1
                  && ms[|ms| - 1].samples[0].value == One
                  && ms[|ms| - 1].labelNames == sk + ids)
  {
    RowMetricsParts(row, prefix, ids, discrete, counter, ms);
    var labels := IdLabels(row, ids).value;
    var r := FieldsOutcome(row.keys, row.values, prefix, ids, discrete, counter, labels);
    FieldsOutcomeMetrics(row.keys, row.values, prefix, ids, discrete, counter, labels);
    FieldsOutcomeState(row.keys, row.values, prefix, ids, discrete, counter, labels, "");
    var sk := StateKeys(row.keys, row.values, ids, discrete);
    if |sk| > 0 {
      var state := r.value.1;
      IdLabelsContents(row, ids, "");
      forall i | 0 <= i < |labels.keys| ensures labels.keys[i] !in state.keys {
        ClassifiedKeys(row.keys, row.values, ids, discrete, labels.keys[i]);
      }
      UpdateDisjoint(state, labels);
    }
  }

  /** Each label of the state gauge carries the record's value for that field. */
  lemma RowStateLabels(row: Dict, prefix: string, ids: seq<string>, discrete: set<string>,
                       counter: set<string>, ms: seq<Metric>)
    requires row.Valid()
    requires forall i, j :: 0 <= i < j < |ids| ==> ids[i] != ids[j]
    requires RowMetrics(row, prefix, ids, discrete, counter) == Ok(ms)
    requires forall i :: 0 <= i < |row.keys| ==> row.keys[i] in row.values
    requires |StateKeys(row.keys, row.values, ids, discrete)| > 0
    ensures |ms| > 0 && |ms[|ms| - 1].samples| == 1
    ensures var m := ms[|ms| - 1];
            && |m.samples[0].labelValues| == |m.labelNames|
            && forall i :: 0 <= i < |m.labelNames| ==>
                 m.labelNames[i] in row.values && m.samples[0].labelValues[i] == row.values[m.labelNames[i]]
  {
    RowStateMetric(row, prefix, ids, discrete, counter, ms);
    RowMetricsParts(row, prefix, ids, discrete, counter, ms);
    var labels := IdLabels(row, ids).value;
    var state := FieldsOutcome(row.keys, row.values, prefix, ids, discrete, counter, labels).value.1;
    FieldsOutcomeState(row.keys, row.values, prefix, ids, discrete, counter, labels, "");
    UpdateValid(state, labels, "");
    var u := Update(state, labels);
    var m := ms[|ms| - 1];
    assert m == MakeMetric(false, prefix + "state", None, One, u);
    forall i | 0 <= i < |m.labelNames|
      ensures m.labelNames[i] in row.values && m.samples[0].labelValues[i] == row.values[m.labelNames[i]]
    {
      var k := m.labelNames[i];
      UpdateValid(state, labels, k);
      IdLabelsContents(row, ids, k);
      FieldsOutcomeState(row.keys, row.values, prefix, ids, discrete, counter, labels, k);
    }
  }

  /** A table yields metrics exactly when every one of its records does. */
  lemma TableMetricsSucceeds(rows: seq<Dict>, prefix: string, ids: seq<string>,
                             discrete: set<string>, counter: set<string>)
    requires forall i :: 0 <= i < |rows| ==> rows[i].Valid()
    requires forall i, j :: 0 <= i < j < |ids| ==> ids[i] != ids[j]
    ensures TableMetrics(rows, prefix, ids, discrete, counter).Ok?
            <==> forall i :: 0 <= i < |rows| ==> RowMetrics(rows[i], prefix, ids, discrete, counter).Ok?
  {
    FlattenSucceeds(RowOutcomes(rows, prefix, ids, discrete, counter));
  }

  /** Otherwise the failure is that of the first record that fails. */
  lemma TableMetricsFailure(rows: seq<Dict>, prefix: string, ids: seq<string>,
                            discrete: set<string>, counter: set<string>)
    requires forall i :: 0 <= i < |rows| ==> rows[i].Valid()
    requires forall i, j :: 0 <= i < j < |ids| ==> ids[i] != ids[j]
    ensures var r := TableMetrics(rows, prefix, ids, discrete, counter);
            r.Err? ==> exists i :: 0 <= i < |rows|
                                   && RowMetrics(rows[i], prefix, ids, discrete, counter) == Err(r.error)
                                   && forall j :: 0 <= j < i ==> RowMetrics(rows[j], prefix, ids, discrete, counter).Ok?
  {
    FlattenFailure(RowOutcomes(rows, prefix, ids, discrete, counter));
  }

  /** The metrics of two runs of records are those of the first followed by those
      of the second: records keep their order. */
  lemma TableMetricsAppend(a: seq<Dict>, b: seq<Dict>, prefix: string, ids: seq<string>,
                           discrete: set<string>, counter: set<string>)
    requires forall i :: 0 <= i < |a| ==> a[i].Valid()
    requires forall i :: 0 <= i < |b| ==> b[i].Valid()
    requires forall i, j :: 0 <= i < j < |ids| ==> ids[i] != ids[j]
    ensures var ra, rb := TableMetrics(a, prefix, ids, discrete, counter), TableMetrics(b, prefix, ids, discrete, counter);
            var r := TableMetrics(a + b, prefix, ids, discrete, counter);
            (r.Ok? <==> ra.Ok? && rb.Ok?) && (r.Ok? ==> r.value == ra.value + rb.value)
  {
    var oa, ob := RowOutcomes(a, prefix, ids, discrete, counter), RowOutcomes(b, prefix, ids, discrete, counter);
    assert RowOutcomes(a + b, prefix, ids, discrete, counter) == oa + ob;
    FlattenAppend(oa, ob);
  }

  /** What any metric of a channel table looks like: its name is the table's prefix
      followed by a field name, and it is either the state gauge or the metric of a
      field that is neither an id field nor discrete, a counter exactly when that
      field is in the counter set. */
  predicate FromTable(m: Metric, prefix: string, ids: seq<string>, discrete: set<string>, counter: set<string>)
  {
    && |prefix| <= |m.name|
    && m.name[..|prefix|] == prefix
    && var k := m.name[|prefix|..];
       || (k == "state" && m.kind == Gauge)
       || (k !in ids && k !in discrete && (m.kind == Counter <==> k in counter))
  }

  /** Every metric of a record has that shape. */
  lemma RowMetricsFromTable(row: Dict, prefix: string, ids: seq<string>, discrete: set<string>,
                            counter: set<string>, ms: seq<Metric>)
    requires row.Valid()
    requires forall i, j :: 0 <= i < j < |ids| ==> ids[i] != ids[j]
    requires RowMetrics(row, prefix, ids, discrete, counter) == Ok(ms)
    ensures forall j :: 0 <= j < |ms| ==> FromTable(ms[j], prefix, ids, discrete, counter)
  {
    forall j | 0 <= j < |ms| ensures FromTable(ms[j], prefix, ids, discrete, counter) {
      RowMetricFromTable(row, prefix, ids, discrete, counter, ms, j);
    }
  }

  lemma RowMetricFromTable(row: Dict, prefix: string, ids: seq<string>, discrete: set<string>,
                           counter: set<string>, ms: seq<Metric>, j: nat)
    requires row.Valid()
    requires forall i, j :: 0 <= i < j < |ids| ==> ids[i] != ids[j]
    requires RowMetrics(row, prefix, ids, discrete, counter) == Ok(ms)
    requires j < |ms|
    ensures FromTable(ms[j], prefix, ids, discrete, counter)
  {
    KeysHaveValues(row);
    if j < |NumericKeys(row.keys, row.values, ids, discrete)| {
      NumericMetricFromTable(row, prefix, ids, discrete, counter, ms, j);
    } else {
      RowStateMetric(row, prefix, ids, discrete, counter, ms);
      LastMetricFromTable(ms, |NumericKeys(row.keys, row.values, ids, discrete)|,
                          |StateKeys(row.keys, row.values, ids, discrete)| > 0, j, prefix, ids, discrete, counter);
    }
  }

  lemma LastMetricFromTable(ms: seq<Metric>, numeric: nat, hasState: bool, j: nat, prefix: string,
                            ids: seq<string>, discrete: set<string>, counter: set<string>)
    requires |ms| == numeric + (if hasState then 1 else 0)
    requires hasState ==> ms[|ms| - 1].name == prefix + "state" && ms[|ms| - 1].kind == Gauge
    requires numeric <= j < |ms|
    ensures FromTable(ms[j], prefix, ids, discrete, counter)
  {
    StateGaugeFromTable(ms[j], prefix, ids, discrete, counter);
  }

  lemma StateGaugeFromTable(m: Metric, prefix: string, ids: seq<string>, discrete: set<string>,
                            counter: set<string>)
    requires m.name == prefix + "state" && m.kind == Gauge
    ensures FromTable(m, prefix, ids, discrete, counter)
  {
    Text.PrefixSplit(prefix, "state", prefix + "state");
  }

  lemma NumericMetricFromTable(row: Dict, prefix: string, ids: seq<string>, discrete: set<string>,
                               counter: set<string>, ms: seq<Metric>, j: nat)
    requires row.Valid()
    requires forall i, j :: 0 <= i < j < |ids| ==> ids[i] != ids[j]
    requires RowMetrics(row, prefix, ids, discrete, counter) == Ok(ms)
    requires forall i :: 0 <= i < |row.keys| ==> row.keys[i] in row.values
    requires j < |NumericKeys(row.keys, row.values, ids, discrete)|
    ensures j < |ms| && FromTable(ms[j], prefix, ids, discrete, counter)
  {
    RowNumericMetric(row, prefix, ids, discrete, counter, ms, j);
    var k := NumericKeys(row.keys, row.values, ids, discrete)[j];
    Text.PrefixSplit(prefix, k, prefix + k);
  }

  /** Every metric of a table has that shape. */
  lemma TableMetricsFromTable(rows: seq<Dict>, prefix: string, ids: seq<string>,
                              discrete: set<string>, counter: set<string>)
    requires forall i :: 0 <= i < |rows| ==> rows[i].Valid()
    requires forall i, j :: 0 <= i < j < |ids| ==> ids[i] != ids[j]
    ensures var r := TableMetrics(rows, prefix, ids, discrete, counter);
            r.Ok? ==> forall j :: 0 <= j < |r.value| ==> FromTable(r.value[j], prefix, ids, discrete, counter)
  {
    var outs := RowOutcomes(rows, prefix, ids, discrete, counter);
    forall i | 0 <= i < |outs| && outs[i].Ok?
      ensures forall j :: 0 <= j < |outs[i].value| ==> FromTable(outs[i].value[j], prefix, ids, discrete, counter)
    {
      RowMetricsFromTable(rows[i], prefix, ids, discrete, counter, outs[i].value);
    }
    FlattenAll(outs, m => FromTable(m, prefix, ids, discrete, counter));
  }
}
