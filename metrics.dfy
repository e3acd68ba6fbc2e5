/** Metric extraction of telnet-collector.go: the descriptor of each
    configured metric, and the samples one command's output yields for it.
    A sample is a record appended to a sequence instead of a value sent on a
    channel. */
module Metrics {
  import opened GoStrings
  import opened Regexp
  import opened Config

  const TargetLabel: Str := Lit("target")
  const CommandLabel: Str := Lit("command")
  const ValueGroup: Str := Lit("value")

  /** The label value used when a dynamic label names no group of the pattern. */
  const NotFound: Str := Lit("!! match group not found !!")

  /** A Prometheus descriptor: name, help, variable label names and constant labels. */
  datatype Desc = Desc(fqName: Str, help: Str, variableLabels: seq<Str>, constLabels: Labels)

  /** A gauge sample: its descriptor, its variable label values and its value. */
  datatype Sample = Sample(desc: Desc, labelValues: seq<Str>, value: real)

  /** The liveness descriptor created in init (telnet-collector.go:28-30). */
  const UpDesc: Desc := Desc(Lit("telnet_exporter_up"), Lit("1 if an Telnet connection can be established"), [TargetLabel], map[])

  function UpSample(hostName: Str, value: real): Sample
  {
    Sample(UpDesc, [hostName], value)
  }

  /** A nil slice read as an empty one. */
  function OrNil(s: Option<seq<Str>>): seq<Str>
  {
    if s.Some? then s.value else []
  }

  /** The variable label names of a metric's descriptor (telnet-collector.go:45-48). */
  function VariableLabels(m: MetricConfig): seq<Str>
  {
    if m.valueAsLabel != [] then OrNil(m.dynamicLabels) + [m.valueAsLabel] else OrNil(m.dynamicLabels)
  }

  /** The constant labels of a metric's descriptor (telnet-collector.go:38-44):
      `target` and `command` first, then the metric's labels over them. */
  function ConstLabels(hostName: Str, command: Str, own: Option<Labels>): (r: Labels)
    ensures r.Keys == {TargetLabel, CommandLabel} + OrEmpty(own).Keys
    ensures forall k :: k in OrEmpty(own) ==> r[k] == OrEmpty(own)[k]
    ensures TargetLabel !in OrEmpty(own) ==> r[TargetLabel] == hostName
    ensures CommandLabel !in OrEmpty(own) ==> r[CommandLabel] == command
  {
    map[TargetLabel := hostName, CommandLabel := command] + OrEmpty(own)
  }

  /** The descriptor Describe gives metric `name` of `command` on host `hostName`. */
  function DescOf(hostName: Str, command: Str, name: Str, m: MetricConfig): (d: Desc)
    ensures d.fqName == name && d.help == m.help
    ensures d.constLabels.Keys == {TargetLabel, CommandLabel} + OrEmpty(m.labels).Keys
    ensures forall k :: k in OrEmpty(m.labels) ==> d.constLabels[k] == OrEmpty(m.labels)[k]
    ensures TargetLabel !in OrEmpty(m.labels) ==> d.constLabels[TargetLabel] == hostName
    ensures CommandLabel !in OrEmpty(m.labels) ==> d.constLabels[CommandLabel] == command
    ensures |d.variableLabels| == |OrNil(m.dynamicLabels)| + (if m.valueAsLabel != [] then 1 else 0)
    ensures d.variableLabels[..|OrNil(m.dynamicLabels)|] == OrNil(m.dynamicLabels)
    ensures m.valueAsLabel != [] ==> d.variableLabels[|d.variableLabels| - 1] == m.valueAsLabel
  {
    Desc(name, m.help, VariableLabels(m), ConstLabels(hostName, command, m.labels))
  }

  /** No metric descriptor is the liveness descriptor: every metric's constant
      labels hold `target`, the liveness descriptor has none. */
  lemma DescOfIsNotUp(hostName: Str, command: Str, name: Str, m: MetricConfig)
    ensures DescOf(hostName, command, name, m) != UpDesc
  {
    assert TargetLabel in DescOf(hostName, command, name, m).constLabels;
  }

  /** The body of Describe's innermost loop (telnet-collector.go:38-49). */
  method BuildDesc(hostName: Str, command: Str, name: Str, m: MetricConfig) returns (d: Desc)
    ensures d == DescOf(hostName, command, name, m)
  {
    var staticLabels := map[TargetLabel := hostName, CommandLabel := command];
    var own := OrEmpty(m.labels);
    var todo := own.Keys;
    while todo != {}
      invariant todo <= own.Keys
      invariant staticLabels.Keys == {TargetLabel, CommandLabel} + (own.Keys - todo)
      invariant forall k :: k in own && k !in todo ==> staticLabels[k] == own[k]
      invariant forall k :: k in staticLabels && (k !in own || k in todo) ==>
        staticLabels[k] == map[TargetLabel := hostName, CommandLabel := command][k]
      decreases todo
    {
      var labelName :| labelName in todo;
      staticLabels := staticLabels[labelName := own[labelName]];
      todo := todo - {labelName};
    }
    assert staticLabels == ConstLabels(hostName, command, m.labels);
    var dynamicLabels := OrNil(m.dynamicLabels);
    if m.valueAsLabel != [] {
      dynamicLabels := dynamicLabels + [m.valueAsLabel];
    }
    d := Desc(name, m.help, dynamicLabels, staticLabels);
  }

  /** boolToFloat64 (telnet-collector.go:187-193). */
  function BoolToFloat64(b: bool): (r: real)
    ensures r == 1.0 <==> b
    ensures r == 0.0 <==> !b
  {
    if b then 1.0 else 0.0
  }

  /** str2float64 (telnet-collector.go:178-185) over a given float parser:
      text that does not parse gives 0. */
  function Str2Float64(parse: Str -> Option<real>, s: Str): (r: real)
    ensures parse(s).Some? ==> r == parse(s).value
    ensures parse(s).None? ==> r == 0.0
  {
    match parse(s)
    case Some(v) => v
    case None => 0.0
  }

  /** The one-hot samples of an enumerated value: one per entry, in order. */
  function EnumSamples(desc: Desc, dyn: seq<Str>, value: Str, enum: seq<Str>): seq<Sample>
  {
    seq(|enum|, i requires 0 <= i < |enum| => Sample(desc, dyn + [enum[i]], BoolToFloat64(enum[i] == value)))
  }

  /** The samples createMetric sends (telnet-collector.go:132-143). */
  function MetricSamples(desc: Desc, m: MetricConfig, value: Str, dyn: seq<Str>, parse: Str -> Option<real>): (r: seq<Sample>)
    ensures |r| == if m.valueAsLabel != [] && m.valueEnum.Some? then |m.valueEnum.value| else 1
    ensures forall s :: s in r ==>
      && s.desc == desc
      && |s.labelValues| == |dyn| + (if m.valueAsLabel != [] then 1 else 0)
      && s.labelValues[..|dyn|] == dyn
  {
    if m.valueAsLabel == [] then [Sample(desc, dyn, Str2Float64(parse, value))]
    else if m.valueEnum.None? then [Sample(desc, dyn + [value], 1.0)]
    else EnumSamples(desc, dyn, value, m.valueEnum.value)
  }

  /** The three value modes of createMetric. */
  lemma MetricSamplesModes(desc: Desc, m: MetricConfig, value: Str, dyn: seq<Str>, parse: Str -> Option<real>)
    ensures var r := MetricSamples(desc, m, value, dyn, parse);
      && (m.valueAsLabel == [] ==> |r| == 1 && r[0].labelValues == dyn && r[0].value == Str2Float64(parse, value))
      && (m.valueAsLabel != [] && m.valueEnum.None? ==> |r| == 1 && r[0].labelValues == dyn + [value] && r[0].value == 1.0)
      && (m.valueAsLabel != [] && m.valueEnum.Some? ==>
            |r| == |m.valueEnum.value| &&
            forall i :: 0 <= i < |r| ==>
              r[i].labelValues == dyn + [m.valueEnum.value[i]] &&
              (r[i].value == 1.0 <==> m.valueEnum.value[i] == value) &&
              (r[i].value == 0.0 <==> m.valueEnum.value[i] != value))
      && forall i :: 0 <= i < |r| ==> r[i].desc == desc
  {
  }

  /** An enumerated metric with entries "up" and "down" that captured "down"
      yields `up` valued 0 and `down` valued 1. */
  lemma EnumExample(desc: Desc, dyn: seq<Str>)
    ensures EnumSamples(desc, dyn, Lit("down"), [Lit("up"), Lit("down")])
      == [Sample(desc, dyn + [Lit("up")], 0.0), Sample(desc, dyn + [Lit("down")], 1.0)]
  {
    assert Lit("up") != Lit("down") by {
      assert |Lit("up")| != |Lit("down")|;
    }
  }

  /** The number of samples valued 1. */
  function Ones(samples: seq<Sample>): nat
  {
    if samples == [] then 0
    else (if samples[0].value == 1.0 then 1 else 0) + Ones(samples[1..])
  }

  /** Over distinct enum entries, exactly one sample is 1 when the captured
      text is an entry, and none otherwise. */
  lemma {:induction false} EnumOneHot(desc: Desc, dyn: seq<Str>, value: Str, enum: seq<Str>)
    requires forall i, j :: 0 <= i < j < |enum| ==> enum[i] != enum[j]
    ensures Ones(EnumSamples(desc, dyn, value, enum)) == if value in enum then 1 else 0
  {
    if enum != [] {
      var r := EnumSamples(desc, dyn, value, enum);
      assert r[1..] == EnumSamples(desc, dyn, value, enum[1..]);
      EnumOneHot(desc, dyn, value, enum[1..]);
      assert enum == [enum[0]] + enum[1..];
      if enum[0] == value {
        assert value !in enum[1..];
      }
    }
  }

  /** The captured text of the group `name`, or the placeholder when the
      pattern has no such group (telnet-collector.go:112-118). */
  function LabelValue(re: Regex, matches: seq<Str>, name: Str): Str
    requires |matches| == |re.names|
  {
    var index := SubexpIndex(re, name);
    if index < 0 then NotFound else matches[index]
  }

  function DynamicLabelValues(re: Regex, names: seq<Str>, matches: seq<Str>): seq<Str>
    requires |matches| == |re.names|
  {
    seq(|names|, k requires 0 <= k < |names| => LabelValue(re, matches, names[k]))
  }

  /** The loop over DynamicLabels (telnet-collector.go:110-120): one value per
      name, in order, from the named group or the placeholder. */
  method ResolveDynamicLabels(re: Regex, names: seq<Str>, matches: seq<Str>) returns (values: seq<Str>)
    requires |matches| == |re.names|
    ensures values == DynamicLabelValues(re, names, matches)
    ensures forall k :: 0 <= k < |names| ==>
      (values[k] == NotFound && (names[k] == [] || names[k] !in re.names)) ||
      (exists g :: 0 < g < |re.names| && re.names[g] == names[k] && values[k] == matches[g])
  {
    values := [];
    var k := 0;
    while k < |names|
      invariant 0 <= k <= |names|
      invariant values == DynamicLabelValues(re, names[..k], matches)
    {
      var index := SubexpIndex(re, names[k]);
      var value;
      if index < 0 {
        value := NotFound;
      } else {
        value := matches[index];
      }
      values := values + [value];
      k := k + 1;
    }
    assert names[..k] == names;
  }

  /** A metric the collector can extract: its pattern is compiled and, when
      the value comes from group 1, the pattern has a group 1. */
  ghost predicate Extractable(m: MetricConfig)
  {
    m.compiled.Some? && (m.dynamicLabels.None? ==> |m.compiled.value.names| >= 2)
  }

  /** The samples one metric yields from one command output
      (telnet-collector.go:100-128). */
  function SamplesForMetric(hostName: Str, command: Str, name: Str, m: MetricConfig, output: Str, parse: Str -> Option<real>): (r: seq<Sample>)
    requires Extractable(m)
    ensures m.compiled.value.find(output).None? ==> r == []
    ensures forall s :: s in r ==> s.desc == DescOf(hostName, command, name, m)
  {
    var re := m.compiled.value;
    var desc := DescOf(hostName, command, name, m);
    match re.find(output)
    case None => []
    case Some(matches) =>
      if m.dynamicLabels.None? then
        MetricSamples(desc, m, matches[1], [], parse)
      else
        var valueIndex := SubexpIndex(re, ValueGroup);
        if valueIndex < 0 then []
        else MetricSamples(desc, m, matches[valueIndex], DynamicLabelValues(re, m.dynamicLabels.value, matches), parse)
  }

  /** Where a metric's samples come from: none without a match; group 1
      without dynamic labels; otherwise the group named `value`, and none
      when the pattern has no such group. */
  lemma SamplesForMetricSource(hostName: Str, command: Str, name: Str, m: MetricConfig, output: Str, parse: Str -> Option<real>)
    requires Extractable(m)
    ensures var r := SamplesForMetric(hostName, command, name, m, output, parse);
      var re := m.compiled.value;
      var desc := DescOf(hostName, command, name, m);
      && (re.find(output).None? ==> r == [])
      && (re.find(output).Some? && m.dynamicLabels.None? ==>
            r == MetricSamples(desc, m, re.find(output).value[1], [], parse))
      && (re.find(output).Some? && m.dynamicLabels.Some? && ValueGroup !in re.names ==> r == [])
      && (re.find(output).Some? && m.dynamicLabels.Some? && ValueGroup in re.names ==>
            var g := SubexpIndex(re, ValueGroup);
            && 0 < g < |re.names| && re.names[g] == ValueGroup
            && (forall j :: 0 <= j < g ==> re.names[j] != ValueGroup)
            && r == MetricSamples(desc, m, re.find(output).value[g], DynamicLabelValues(re, m.dynamicLabels.value, re.find(output).value), parse))
  {
    assert |ValueGroup| == 5;
  }

  /** Every sample of a metric is labelled per its descriptor: as many label
      values as the descriptor has variable label names. */
  lemma SamplesForMetricArity(hostName: Str, command: Str, name: Str, m: MetricConfig, output: Str, parse: Str -> Option<real>)
    requires Extractable(m)
    ensures forall s :: s in SamplesForMetric(hostName, command, name, m, output, parse) ==>
      s.desc == DescOf(hostName, command, name, m) && |s.labelValues| == |s.desc.variableLabels|
  {
    var re := m.compiled.value;
    var desc := DescOf(hostName, command, name, m);
    match re.find(output)
    case None =>
    case Some(matches) =>
      if m.dynamicLabels.None? {
        MetricSamplesModes(desc, m, matches[1], [], parse);
      } else {
        var valueIndex := SubexpIndex(re, ValueGroup);
        if valueIndex >= 0 {
          MetricSamplesModes(desc, m, matches[valueIndex], DynamicLabelValues(re, m.dynamicLabels.value, matches), parse);
        }
      }
  }

  /** createMetric(ch, metric, value, dynamicLabelValues...) (telnet-collector.go:132-143). */
  method CreateMetric(desc: Desc, m: MetricConfig, value: Str, dyn: seq<Str>, parse: Str -> Option<real>) returns (samples: seq<Sample>)
    ensures samples == MetricSamples(desc, m, value, dyn, parse)
  {
    if m.valueAsLabel == [] {
      return [Sample(desc, dyn, Str2Float64(parse, value))];
    } else if m.valueEnum.None? {
      return [Sample(desc, dyn + [value], 1.0)];
    }
    var enum := m.valueEnum.value;
    samples := [];
    var i := 0;
    while i < |enum|
      invariant 0 <= i <= |enum|
      invariant samples == EnumSamples(desc, dyn, value, enum[..i])
    {
      samples := samples + [Sample(desc, dyn + [enum[i]], BoolToFloat64(enum[i] == value))];
      i := i + 1;
    }
    assert enum[..i] == enum;
  }

  /** `order` lists the keys `keys` once each: one of Go's map orders. */
  ghost predicate Enumerates(order: seq<Str>, keys: set<Str>)
  {
    && (forall i, j :: 0 <= i < j < |order| ==> order[i] != order[j])
    && (forall n :: n in order <==> n in keys)
  }

  ghost predicate CommandExtractable(c: CommandConfig)
  {
    forall n :: n in c.metrics ==> Extractable(c.metrics[n])
  }

  /** The samples of one command's metrics, visited in `order`. */
  function CommandSamples(hostName: Str, c: CommandConfig, output: Str, order: seq<Str>, parse: Str -> Option<real>): (r: seq<Sample>)
    requires CommandExtractable(c)
    requires forall n :: n in order ==> n in c.metrics
    ensures (forall n :: n in order ==> c.metrics[n].compiled.value.find(output).None?) ==> r == []
    ensures forall s :: s in r ==>
      exists k :: 0 <= k < |order| && s.desc == DescOf(hostName, c.command, order[k], c.metrics[order[k]])
  {
    if order == [] then []
    else
      var name := order[|order| - 1];
      CommandSamples(hostName, c, output, order[..|order| - 1], parse)
        + SamplesForMetric(hostName, c.command, name, c.metrics[name], output, parse)
  }

  /** Every sample of a command carries the descriptor of one of its metrics
      and as many label values as that descriptor has variable label names. */
  lemma {:induction false} CommandSamplesWellLabelled(hostName: Str, c: CommandConfig, output: Str, order: seq<Str>, parse: Str -> Option<real>)
    requires CommandExtractable(c)
    requires forall n :: n in order ==> n in c.metrics
    ensures forall s :: s in CommandSamples(hostName, c, output, order, parse) ==>
      |s.labelValues| == |s.desc.variableLabels| &&
      exists n :: n in c.metrics && s.desc == DescOf(hostName, c.command, n, c.metrics[n])
  {
    if order != [] {
      var name := order[|order| - 1];
      CommandSamplesWellLabelled(hostName, c, output, order[..|order| - 1], parse);
      SamplesForMetricArity(hostName, c.command, name, c.metrics[name], output, parse);
    }
  }

  /** The metric loop of collectForCommand (telnet-collector.go:99-129), over
      the metrics in Go's map order, which is returned as `order`. */
  method ExtractSamples(hostName: Str, c: CommandConfig, output: Str, parse: Str -> Option<real>)
    returns (samples: seq<Sample>, ghost order: seq<Str>)
    requires CommandExtractable(c)
    ensures Enumerates(order, c.metrics.Keys)
    ensures samples == CommandSamples(hostName, c, output, order, parse)
  {
    samples, order := [], [];
    var todo := c.metrics.Keys;
    while todo != {}
      invariant todo <= c.metrics.Keys
      invariant forall i, j :: 0 <= i < j < |order| ==> order[i] != order[j]
      invariant forall n :: n in order <==> n in c.metrics && n !in todo
      invariant samples == CommandSamples(hostName, c, output, order, parse)
      decreases todo
    {
      var name :| name in todo;
      var metric := c.metrics[name];
      order, todo := order + [name], todo - {name};
      var re := metric.compiled.value;
      var desc := DescOf(hostName, c.command, name, metric);
      var matches := re.find(output);
      if matches.None? {
        continue;
      }
      if metric.dynamicLabels.None? {
        var created := CreateMetric(desc, metric, matches.value[1], [], parse);
        samples := samples + created;
        continue;
      }
      var dynamicLabelValues := ResolveDynamicLabels(re, metric.dynamicLabels.value, matches.value);
      var valueIndex := SubexpIndex(re, ValueGroup);
      if valueIndex < 0 {
        continue;
      }
      var created := CreateMetric(desc, metric, matches.value[valueIndex], dynamicLabelValues, parse);
      samples := samples + created;
    }
  }
}
