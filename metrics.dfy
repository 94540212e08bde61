/** `Collector.make_metric`: one metric family holding one labelled sample. */
module Metrics {
  import opened Outcomes
  import opened Dicts

  /** `CounterMetricFamily` or `GaugeMetricFamily`. */
  datatype Kind = Counter | Gauge

  /** A sample's value: the number Python's `float` reads from a token, kept as the
      token itself, or the constant 1 of a state metric. */
  datatype Value = Reading(token: string) | One

  /** What `add_metric(labels, value)` records. */
  datatype Sample = Sample(labelValues: seq<string>, value: Value)

  datatype Metric = Metric(kind: Kind, name: string, documentation: string,
                           labelNames: seq<string>, samples: seq<Sample>)

  const NoDocumentation := "No Documentation"

  /** `[str(labels[k]) for k in names]`; `str` of a `str` is the string itself. */
  function LabelValues(names: seq<string>, labels: map<string, string>): (vs: seq<string>)
    requires forall i :: 0 <= i < |names| ==> names[i] in labels
    ensures |vs| == |names|
    ensures forall i :: 0 <= i < |names| ==> vs[i] == labels[names[i]]
  {
    if |names| == 0 then [] else [labels[names[0]]] + LabelValues(names[1..], labels)
  }

  /** `make_metric(is_counter, name, documentation, value, **labels)`. */
  function MakeMetric(isCounter: bool, name: string, documentation: Option<string>,
                      value: Value, labels: Dict): (m: Metric)
    requires labels.Valid()
    ensures m.kind == Counter <==> isCounter
    ensures m.name == name
    ensures documentation.None? || documentation.value == "" ==> m.documentation == NoDocumentation
    ensures documentation.Some? && documentation.value != "" ==> m.documentation == documentation.value
    ensures m.labelNames == labels.keys
    ensures |m.samples| == 1 && m.samples[0].value == value
    ensures |m.samples[0].labelValues| == |m.labelNames|
    ensures forall i :: 0 <= i < |m.labelNames| ==>
              m.labelNames[i] in labels.values && m.samples[0].labelValues[i] == labels.values[m.labelNames[i]]
  {
    assert forall i :: 0 <= i < |labels.keys| ==> labels.keys[i] in labels.values;
    var doc := if documentation.Some? && documentation.value != "" then documentation.value
               else NoDocumentation;
    Metric(if isCounter then Counter else Gauge, name, doc, labels.keys,
           [Sample(LabelValues(labels.keys, labels.values), value)])
  }

  /** The label set a metric's sample carries, read back as a dict. */
  function SampleLabels(m: Metric): Dict
    requires |m.samples| == 1
  {
    Zip(m.labelNames, m.samples[0].labelValues)
  }

  /** Label names and values come from the same key order, so the sample carries
      exactly the labels that were passed in. */
  lemma MakeMetricLabels(isCounter: bool, name: string, documentation: Option<string>,
                         value: Value, labels: Dict)
    requires labels.Valid()
    ensures SampleLabels(MakeMetric(isCounter, name, documentation, value, labels)) == labels
  {
    assert forall i :: 0 <= i < |labels.keys| ==> labels.keys[i] in labels.values;
    ZipLabelValues(labels);
  }

  /** Zipping a dict's keys with their values gives the dict back. */
  lemma ZipLabelValues(labels: Dict)
    requires labels.Valid()
    requires forall i :: 0 <= i < |labels.keys| ==> labels.keys[i] in labels.values
    ensures Zip(labels.keys, LabelValues(labels.keys, labels.values)) == labels
  {
    var names, vals := labels.keys, LabelValues(labels.keys, labels.values);
    ZipKeyOrder(names, vals);
    assert names[..Min(|names|, |vals|)] == names;
    ZipLabelMap(labels, names, vals);
  }

  lemma ZipLabelMap(labels: Dict, names: seq<string>, vals: seq<string>)
    requires labels.Valid()
    requires names == labels.keys && |vals| == |names|
    requires forall i :: 0 <= i < |names| ==> names[i] in labels.values && vals[i] == labels.values[names[i]]
    ensures Zip(names, vals).values == labels.values
  {
    var r := Zip(names, vals);
    forall k ensures k in r.values <==> k in labels.values {
      ZipValid(names, vals, k);
      assert names[..Min(|names|, |vals|)] == names;
    }
    forall k | k in labels.values ensures r.values[k] == labels.values[k] {
      var i :| 0 <= i < |names| && names[i] == k;
      ZipGet(names, vals, i);
    }
  }
}
