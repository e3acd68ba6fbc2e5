/** The configuration of config.go and the post-processing that
    ParseConfigurationFile applies after the YAML document has been decoded:
    host names from the map keys, defaults, compiled patterns and merged
    labels. A Go nil map or nil slice is `None`; an empty one is `Some`. */
module Config {
  import opened GoStrings
  import opened Regexp

  const DefaultConnectTimeout: int := 5
  const DefaultCommandTimeout: int := 20
  const DefaultPort: int := 23
  const DefaultPrompt: Str := Lit("#")

  type Labels = map<Str, Str>

  /** MetricConfig: what to extract from one command's output. `compiled` is
      RegexCompiled, absent until the configuration is parsed. */
  datatype MetricConfig = MetricConfig(
    regex: Str,
    compiled: Option<Regex>,
    help: Str,
    labels: Option<Labels>,
    dynamicLabels: Option<seq<Str>>,
    valueAsLabel: Str,
    valueEnum: Option<seq<Str>>)

  /** CommandConfig: a command line and the metrics read from its output, by name. */
  datatype CommandConfig = CommandConfig(command: Str, metrics: map<Str, MetricConfig>)

  /** HostConfig: one target and the commands run on it, in order. */
  datatype HostConfig = HostConfig(
    hostName: Str,
    port: int,
    username: Str,
    password: Str,
    connectTimeout: int,
    commandTimeout: int,
    commands: seq<CommandConfig>,
    labels: Option<Labels>,
    prompt: Str)

  /** The error ParseConfigurationFile returns for a pattern that does not
      compile; it names the host, the command and the metric. */
  datatype LoadError = LoadError(host: Str, command: Str, metric: Str, regex: Str)

  /** A nil map read as an empty one (ranging over nil visits nothing). */
  function OrEmpty(m: Option<Labels>): (r: Labels)
    ensures m.Some? ==> r == m.value
    ensures m.None? ==> r == map[]
  {
    if m.Some? then m.value else map[]
  }

  /** The host fields that ParseConfigurationFile fills in (config.go:74-87). */
  function WithDefaults(name: Str, h: HostConfig): (r: HostConfig)
    ensures r.hostName == name
    ensures h.connectTimeout == 0 ==> r.connectTimeout == DefaultConnectTimeout
    ensures h.commandTimeout == 0 ==> r.commandTimeout == DefaultCommandTimeout
    ensures h.port == 0 ==> r.port == DefaultPort
    ensures h.prompt == [] ==> r.prompt == DefaultPrompt
    ensures h.connectTimeout != 0 ==> r.connectTimeout == h.connectTimeout
    ensures h.commandTimeout != 0 ==> r.commandTimeout == h.commandTimeout
    ensures h.port != 0 ==> r.port == h.port
    ensures h.prompt != [] ==> r.prompt == h.prompt
    ensures r.username == h.username && r.password == h.password
    ensures r.commands == h.commands && r.labels == h.labels
  {
    h.(hostName := name,
       connectTimeout := if h.connectTimeout == 0 then DefaultConnectTimeout else h.connectTimeout,
       commandTimeout := if h.commandTimeout == 0 then DefaultCommandTimeout else h.commandTimeout,
       port := if h.port == 0 then DefaultPort else h.port,
       prompt := if h.prompt == [] then DefaultPrompt else h.prompt)
  }

  /** Defaulting is idempotent. */
  lemma WithDefaultsIdempotent(name: Str, h: HostConfig)
    ensures WithDefaults(name, WithDefaults(name, h)) == WithDefaults(name, h)
  {
  }

  /** The labels a metric ends up with (config.go:96-100): the host's labels
      when it has none of its own, otherwise its own labels with the host's
      copied over them, so that the host wins on a shared key. */
  function MergeLabels(own: Option<Labels>, host: Option<Labels>): (r: Option<Labels>)
    ensures own.None? ==> r == host
    ensures own.Some? ==> r.Some? && r.value.Keys == own.value.Keys + OrEmpty(host).Keys
    ensures own.Some? ==> forall k :: k in OrEmpty(host) ==> r.value[k] == OrEmpty(host)[k]
    ensures own.Some? ==> forall k :: k in own.value && k !in OrEmpty(host) ==> r.value[k] == own.value[k]
  {
    if own.None? then host else Some(own.value + OrEmpty(host))
  }

  /** A metric with labels {a:1} under a host with labels {a:2, b:3}
      ends up with {a:2, b:3}. */
  lemma MergeLabelsHostWins(a: Str, b: Str, one: Str, two: Str, three: Str)
    requires a != b
    ensures MergeLabels(Some(map[a := one]), Some(map[a := two, b := three])) == Some(map[a := two, b := three])
  {
    var host := map[a := two, b := three];
    var merged := map[a := one] + host;
    assert merged.Keys == host.Keys;
    assert forall k :: k in merged ==> merged[k] == host[k];
    assert merged == host;
  }

  /** Whether the pattern of every metric of `c` compiles. */
  ghost predicate CommandCompiles(c: CommandConfig, compile: Str -> Option<Regex>)
  {
    forall n :: n in c.metrics ==> compile(c.metrics[n].regex).Some?
  }

  ghost predicate HostCompiles(h: HostConfig, compile: Str -> Option<Regex>)
  {
    forall i :: 0 <= i < |h.commands| ==> CommandCompiles(h.commands[i], compile)
  }

  ghost predicate AllCompile(hosts: map<Str, HostConfig>, compile: Str -> Option<Regex>)
  {
    forall name :: name in hosts ==> HostCompiles(hosts[name], compile)
  }

  /** A metric after parsing: its pattern compiled and its labels merged. */
  function ParsedMetric(m: MetricConfig, hostLabels: Option<Labels>, re: Regex): MetricConfig
  {
    m.(compiled := Some(re), labels := MergeLabels(m.labels, hostLabels))
  }

  function ParsedMetrics(metrics: map<Str, MetricConfig>, hostLabels: Option<Labels>, compile: Str -> Option<Regex>): map<Str, MetricConfig>
    requires forall n :: n in metrics ==> compile(metrics[n].regex).Some?
  {
    map n | n in metrics :: ParsedMetric(metrics[n], hostLabels, compile(metrics[n].regex).value)
  }

  function ParsedCommand(c: CommandConfig, hostLabels: Option<Labels>, compile: Str -> Option<Regex>): CommandConfig
    requires CommandCompiles(c, compile)
  {
    c.(metrics := ParsedMetrics(c.metrics, hostLabels, compile))
  }

  /** A host after parsing: named by its key, defaulted, and every metric
      parsed against the host's own labels. */
  function ParsedHost(name: Str, h: HostConfig, compile: Str -> Option<Regex>): (r: HostConfig)
    requires HostCompiles(h, compile)
    ensures r.(commands := h.commands) == WithDefaults(name, h)
    ensures |r.commands| == |h.commands|
    ensures forall i :: 0 <= i < |h.commands| ==>
      r.commands[i].command == h.commands[i].command && r.commands[i].metrics.Keys == h.commands[i].metrics.Keys
    ensures forall i, n :: 0 <= i < |h.commands| && n in h.commands[i].metrics ==>
      r.commands[i].metrics[n] == h.commands[i].metrics[n].(compiled := compile(h.commands[i].metrics[n].regex),
                                                            labels := MergeLabels(h.commands[i].metrics[n].labels, h.labels))
  {
    WithDefaults(name, h).(commands := seq(|h.commands|, i requires 0 <= i < |h.commands| => ParsedCommand(h.commands[i], h.labels, compile)))
  }

  /** Whether `e` names a metric of `hosts` whose pattern does not compile. */
  ghost predicate NamesBadPattern(hosts: map<Str, HostConfig>, compile: Str -> Option<Regex>, e: LoadError)
  {
    && e.host in hosts
    && exists i :: 0 <= i < |hosts[e.host].commands| && BadPatternIn(hosts[e.host].commands[i], compile, e)
  }

  ghost predicate BadPatternIn(c: CommandConfig, compile: Str -> Option<Regex>, e: LoadError)
  {
    && c.command == e.command
    && e.metric in c.metrics
    && c.metrics[e.metric].regex == e.regex
    && compile(e.regex).None?
  }

  /** The inner loop of ParseConfigurationFile over one command's metrics
      (config.go:90-101), Go's map order being any order. */
  method ParseMetrics(hostName: Str, command: CommandConfig, hostLabels: Option<Labels>, compile: Str -> Option<Regex>)
    returns (r: Result<map<Str, MetricConfig>, LoadError>)
    ensures r.Success? <==> CommandCompiles(command, compile)
    ensures r.Success? ==> CommandCompiles(command, compile) && r.value == ParsedMetrics(command.metrics, hostLabels, compile)
    ensures r.Failure? ==> r.error.host == hostName && BadPatternIn(command, compile, r.error)
  {
    var metrics := command.metrics;
    var todo := metrics.Keys;
    while todo != {}
      invariant todo <= command.metrics.Keys == metrics.Keys
      invariant forall n :: n in todo ==> metrics[n] == command.metrics[n]
      invariant forall n :: n in command.metrics && n !in todo ==>
        compile(command.metrics[n].regex).Some? &&
        metrics[n] == ParsedMetric(command.metrics[n], hostLabels, compile(command.metrics[n].regex).value)
      decreases todo
    {
      var name :| name in todo;
      var metric := metrics[name];
      var expr := compile(metric.regex);
      if expr.None? {
        return Failure(LoadError(hostName, command.command, name, metric.regex));
      }
      metric := metric.(compiled := expr);
      if metric.labels.None? {
        metric := metric.(labels := hostLabels);
      } else {
        metric := metric.(labels := Some(metric.labels.value + OrEmpty(hostLabels)));
      }
      metrics := metrics[name := metric];
      todo := todo - {name};
    }
    return Success(metrics);
  }

  /** The body of ParseConfigurationFile's loop for one host (config.go:75-102). */
  method ParseHost(name: Str, host: HostConfig, compile: Str -> Option<Regex>)
    returns (r: Result<HostConfig, LoadError>)
    ensures r.Success? <==> HostCompiles(host, compile)
    ensures r.Success? ==> HostCompiles(host, compile) && r.value == ParsedHost(name, host, compile)
    ensures r.Failure? ==> r.error.host == name && exists i :: 0 <= i < |host.commands| && BadPatternIn(host.commands[i], compile, r.error)
  {
    var h := host.(hostName := name);
    if h.connectTimeout == 0 {
      h := h.(connectTimeout := DefaultConnectTimeout);
    }
    if h.commandTimeout == 0 {
      h := h.(commandTimeout := DefaultCommandTimeout);
    }
    if h.port == 0 {
      h := h.(port := DefaultPort);
    }
    if h.prompt == [] {
      h := h.(prompt := DefaultPrompt);
    }
    assert h == WithDefaults(name, host);
    var i := 0;
    while i < |h.commands|
      invariant 0 <= i <= |h.commands| == |host.commands|
      invariant h.(commands := host.commands) == WithDefaults(name, host)
      invariant forall j :: i <= j < |h.commands| ==> h.commands[j] == host.commands[j]
      invariant forall j :: 0 <= j < i ==>
        CommandCompiles(host.commands[j], compile) && h.commands[j] == ParsedCommand(host.commands[j], host.labels, compile)
    {
      var command := h.commands[i];
      var metrics := ParseMetrics(name, command, h.labels, compile);
      if metrics.Failure? {
        return Failure(metrics.error);
      }
      h := h.(commands := h.commands[i := command.(metrics := metrics.value)]);
      i := i + 1;
    }
    return Success(h);
  }

  /** ParseConfigurationFile after the YAML decoding (config.go:74-104): every
      host is processed, in Go's map order; the first pattern that does not
      compile ends the parse with an error and no configuration. */
  method ParseConfiguration(hosts: map<Str, HostConfig>, compile: Str -> Option<Regex>)
    returns (r: Result<map<Str, HostConfig>, LoadError>)
    ensures r.Success? <==> AllCompile(hosts, compile)
    ensures r.Success? ==> AllCompile(hosts, compile) && r.value.Keys == hosts.Keys
    ensures r.Success? ==> forall name :: name in hosts ==> HostCompiles(hosts[name], compile) && r.value[name] == ParsedHost(name, hosts[name], compile)
    ensures r.Failure? ==> NamesBadPattern(hosts, compile, r.error)
  {
    var parsed := hosts;
    var todo := hosts.Keys;
    while todo != {}
      invariant todo <= hosts.Keys == parsed.Keys
      invariant forall n :: n in todo ==> parsed[n] == hosts[n]
      invariant forall n :: n in hosts && n !in todo ==>
        HostCompiles(hosts[n], compile) && parsed[n] == ParsedHost(n, hosts[n], compile)
      decreases todo
    {
      var name :| name in todo;
      var host := ParseHost(name, parsed[name], compile);
      if host.Failure? {
        return Failure(host.error);
      }
      parsed := parsed[name := host.value];
      todo := todo - {name};
    }
    return Success(parsed);
  }
}
