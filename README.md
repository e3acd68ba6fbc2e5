# telnet-exporter core, modelled in Dafny

telnet-exporter is a Prometheus exporter. When scraped, it opens a Telnet
session to every configured host. If the host shows a login or password
prompt, the exporter sends the configured credentials. It then runs each
configured command in order and turns the command's output into gauge
samples, using regular expressions with capture groups.

This project models three parts of the exporter:

- the Telnet transport (`telnet.go`): reading byte by byte until a stop
  word appears, while refusing every option the server offers, and sending
  a command;
- the collector (`telnet-collector.go`): connecting, the per-host cycle
  with its liveness sample, extracting metrics from command output, the
  three value modes of `createMetric`, and the descriptors `Describe`
  announces;
- loading the configuration (`config.go`) once it has been decoded:
  filling in defaults, compiling patterns, and merging labels.

Modules, one file each:

| file | module | contents |
|---|---|---|
| `gostrings.dfy` | `GoStrings` | Go strings as byte sequences, `strings.Contains`, `Option`/`Result` |
| `regexp.dfy` | `Regexp` | A compiled pattern, seen through its group names and `FindStringSubmatch`; `SubexpIndex` |
| `telnet.dfy` | `Telnet` | The negotiation and scan specification; the `Conn` class with `ReadUntil` and `SendCommand` |
| `config.dfy` | `Config` | The configuration records, defaults, label merging, and `ParseConfiguration` |
| `metrics.dfy` | `Metrics` | Descriptors, `createMetric`, and extraction of one command's samples |
| `collector.dfy` | `Collector` | `connect`, `collectForHost`, `Collect` and `Describe` |

How the model represents the Go program:

- **Connection.** The connection is a `Conn` object. Its input is a fixed
  array that a read position walks through. The bytes it writes are kept
  as a log.
- **End of input.** When the input runs out, a read fails. This stands for
  the read deadline expiring or the peer closing the connection.
- **Dial failure.** A host whose dial failed gets a `null` connection.
- **Map order.** Go visits map entries in a random order. The model's loops
  take keys in an unspecified order (`:|`) and return that order as a ghost
  value. The properties are proved for every order.
- **Regular expressions and numbers.** Compiling a regular expression and
  `strconv.ParseFloat` are function parameters. The value `None` stands for
  "does not compile" or "does not parse".

## Model

| member | source | states |
|---|---|---|
| GoStrings.Contains | telnet-collector.go:164 | strings.Contains holds exactly when `sub` occurs at some offset of `s` |
| GoStrings.ContainsAny | telnet.go:64-68 | the stop-word test holds exactly when some stop word is a substring of the text |
| Regexp.SubexpIndex | telnet-collector.go:112 | -1 for the empty name or a name no group has; otherwise the first group carrying that name |
| Telnet.ScanFrom | telnet.go:47-69 | the scan never moves backwards and ends within the input; it fails only at the end of the input; its text extends what was accumulated before |
| Telnet.ScanText | telnet.go:53-62 | the returned text is exactly the data bytes consumed, in order, with every IAC command triple removed |
| Telnet.ScanReplies | telnet.go:53-58 | the bytes written while reading are exactly the refusals that the consumed negotiation requests, in order |
| Telnet.ScanFindsStop | telnet.go:62-67 | a read that returns without error holds a stop word in its text |
| Telnet.ScanStopsAtFirst | telnet.go:62-68 | the text of a successful read holds no stop word in any shorter prefix it accumulated |
| Telnet.ScanEndsOnStopByte | telnet.go:53-67 | a successful read ends on the data byte that completes the stop word: that byte is the last one consumed, and the text is the data before it followed by that byte, so nothing after it is read or answered |
| Telnet.StopBeforeNegotiationExample | telnet.go:62-67 | reading `# IAC DO 1` until "#" consumes only the '#' and writes no refusal |
| Telnet.ScanFailsWithoutStop | telnet.go:47-69 | a read that fails never held a stop word: no text it accumulated contained one, so it read on to the end of the input |
| Telnet.Refusal | telnet.go:28-36 | a reply is written exactly for DO and WILL; it is IAC, then WONT for DO or DONT for WILL, then the option byte |
| Telnet.RepliesRefuse | telnet.go:28-36 | every reply is a three-byte IAC WONT/DONT refusal, so the transport never accepts an option |
| Telnet.ScanRefusesDo | telnet.go:30-31 | IAC DO o is answered with exactly IAC WONT o, and reading carries on after the option byte |
| Telnet.ScanRefusesWill | telnet.go:32-33 | IAC WILL o is answered with exactly IAC DONT o |
| Telnet.ScanIgnoresOtherCommands | telnet.go:34-35 | any other command after IAC consumes one option byte and writes nothing |
| Telnet.RefuseDoExample | telnet.go:22-39 | for input 255 253 10 the only bytes written are 255 252 10, and the read then fails |
| Telnet.ReadUntilStep | telnet.go:42-70 | a read leaves the connection valid and the input unchanged; the position is not moved back, and the bytes written so far are only extended |
| Telnet.SendCommandStep | telnet.go:73-87 | sending a command leaves the connection valid; the position is not moved back, and the bytes written so far are only extended |
| Telnet.SendCommandWritesFirst | telnet.go:74 | a command goes out first, exactly as its bytes followed by a newline |
| Telnet.SendCommandEmptyPrompt | telnet.go:81-83 | with an empty prompt nothing is read, and "" is returned without error |
| Telnet.Conn.ReadByte | telnet.go:48 | the next input byte, or an error exactly at the end of input; nothing is written |
| Telnet.Conn.Write | telnet.go:37 | the bytes are appended to the log, or the write fails and logs nothing |
| Telnet.Conn.HandleNegotiation | telnet.go:22-39 | reads the option byte and writes the refusal; an error exactly when the input ended or a refusal could not be written |
| Telnet.Conn.ReadUntil | telnet.go:42-70 | the new connection state, the text and the error are those of the scan specification ReadUntilStep |
| Telnet.Conn.SendCommand | telnet.go:73-87 | the new connection state, the text and the error are those of SendCommandStep |
| Config.WithDefaults | config.go:75-87 | the host is named by its key; port 23, connect timeout 5, command timeout 20 and prompt "#" replace zero or empty values; everything else is kept |
| Config.WithDefaultsIdempotent | config.go:76-87 | applying the defaults twice changes nothing |
| Config.MergeLabels | config.go:96-100 | a metric without labels takes the host's labels; otherwise it gets the union of both, with the host's value on a shared key |
| Config.MergeLabelsHostWins | config.go:96-100 | a metric {a:1} under a host {a:2, b:3} ends up with {a:2, b:3} |
| Config.ParsedHost | config.go:75-101 | a parsed host is the defaulted host named by its key, with the same commands in order and the same metric names; every metric keeps its own fields but carries its compiled pattern and its labels merged with the host's |
| Config.ParseMetrics | config.go:90-101 | succeeds exactly when every pattern of the command compiles, giving the parsed metrics; otherwise the error names a metric whose pattern does not compile |
| Config.ParseHost | config.go:75-102 | succeeds exactly when every pattern of the host compiles, giving the defaulted and parsed host; otherwise the error names the host and a bad pattern |
| Config.ParseConfiguration | config.go:74-104 | succeeds exactly when every pattern compiles, with the same host keys and every host parsed; otherwise the error names a host, command and metric whose pattern does not compile |
| Metrics.ConstLabels | telnet-collector.go:38-44 | the constant labels are target, command and the metric's own labels; a metric label overrides target or command |
| Metrics.DescOfIsNotUp | telnet-collector.go:38-50 | no metric descriptor equals the liveness descriptor |
| Metrics.DescOf | telnet-collector.go:38-49 | a metric's descriptor is named by the metric's key and carries its help; its constant labels are target, command and the metric's own labels, an own label overriding target or command; its variable label names are the dynamic labels, then the value-as-label name when one is set |
| Metrics.BuildDesc | telnet-collector.go:38-49 | building the labels in any map order gives exactly the descriptor DescOf defines |
| Metrics.Str2Float64 | telnet-collector.go:178-185 | the parsed value when the text parses as a number, and 0 when it does not |
| Metrics.MetricSamples | telnet-collector.go:132-143 | one sample, or one per enum entry in the enumerated mode; every sample carries the given descriptor, and its label values are the dynamic ones followed by the value label when the metric has one |
| Metrics.SamplesForMetric | telnet-collector.go:99-128 | no samples when the pattern does not match the output; every sample carries the metric's own descriptor |
| Metrics.BoolToFloat64 | telnet-collector.go:187-193 | 1 exactly for true, 0 exactly for false |
| Metrics.MetricSamplesModes | telnet-collector.go:132-143 | value mode: one sample with the parsed value; value-as-label without an enum: one sample valued 1 with the value as its last label; with an enum: one sample per entry, valued 1 exactly on the matching entry |
| Metrics.EnumExample | telnet-collector.go:139-141 | enum ["up","down"] with captured "down" gives up=0 and down=1 |
| Metrics.EnumOneHot | telnet-collector.go:139-141 | over distinct enum entries, exactly one sample is 1 when the captured text is an entry, and none otherwise |
| Metrics.ResolveDynamicLabels | telnet-collector.go:110-120 | one value per dynamic label, in order: the text of the group of that name, or the not-found placeholder when no group has it |
| Metrics.SamplesForMetricSource | telnet-collector.go:100-128 | no samples without a match; group 1 gives the value when there are no dynamic labels; otherwise the value comes from the leftmost group named value, and a pattern without one gives no samples |
| Metrics.SamplesForMetricArity | telnet-collector.go:100-143 | every sample of a metric carries that metric's descriptor and one label value per label name |
| Metrics.CreateMetric | telnet-collector.go:132-143 | the samples are exactly those of the three value modes |
| Metrics.CommandSamples | telnet-collector.go:99-129 | a command whose output none of its metrics' patterns matches yields no samples; every sample carries the descriptor of a metric visited in the given order |
| Metrics.CommandSamplesWellLabelled | telnet-collector.go:99-129 | every sample of a command carries the descriptor of one of its metrics and as many label values as label names |
| Metrics.ExtractSamples | telnet-collector.go:99-129 | visits every metric once, in some order, and yields the samples of each metric in that order |
| Collector.ConnectFailsOnlyOnGreeting | telnet-collector.go:155-175 | connect fails exactly when the initial read fails; errors during the login exchange are ignored |
| Collector.ConnectSendsCredentialsOnlyOnPrompt | telnet-collector.go:164-173 | without "login" or "Password" in the greeting, no credentials are written |
| Collector.ConnectStep | telnet-collector.go:151-175 | connect after the dial: the connection stays valid, with the same input and writability; input is only consumed forward, and written bytes are only appended |
| Collector.ConnectSendsCredentials | telnet-collector.go:164-173 | on a "login" or "Password" prompt, the username and a newline are the first bytes written after the greeting, and the password and a newline are the first bytes after the username exchange |
| Collector.Connect | telnet-collector.go:145-176 | a null connection fails; otherwise the state and the outcome are those of ConnectStep |
| Collector.Session | telnet-collector.go:83-95 | the commands run in order on one connection, and the later commands are still attempted after one fails; there is one outcome per command, and the connection stays valid, with input only consumed forward and written bytes only appended |
| Collector.CommandsSamples | telnet-collector.go:83-95 | when every command failed there are no samples; every sample comes from a command that returned output, as CommandSamples gives it for that output |
| Collector.CommandsSamplesWellLabelled | telnet-collector.go:83-85 | every command sample is not a liveness sample, comes from a metric of a command run, and is fully labelled |
| Collector.HostCycle | telnet-collector.go:69-88 | a host's samples start with its liveness sample, labelled with the host name; a failed dial gives exactly liveness 0 |
| Collector.HostCycleDown | telnet-collector.go:73-77 | a host that cannot be connected yields exactly one sample: liveness 0 |
| Collector.HostCycleWellFormed | telnet-collector.go:69-88 | the liveness sample comes first, labelled with the host name; it is 1 exactly when connect succeeded and 0 otherwise; it is the host's only liveness sample; every sample is fully labelled |
| Collector.RunCommands | telnet-collector.go:83-95 | the commands run in order, a failed one contributing no samples; the state and samples are those of Session and CommandsSamples |
| Collector.HostFinal | telnet-collector.go:73-85 | the connection after a host's cycle stays valid, with its input and writability unchanged; the cycle only consumes input forward and only appends to the bytes written |
| Collector.CollectForHost | telnet-collector.go:69-88 | the samples are those of HostCycle for the connection as it was dialled, and the connection ends in HostFinal's state: after connect when it failed, after the command session otherwise |
| Collector.DescribeCommand | telnet-collector.go:38-51 | one descriptor per metric of the command, so that a descriptor is announced exactly when some metric has it |
| Collector.DescsCoverMetrics | telnet-collector.go:37-51 | descriptors listed in an order that enumerates a command's metrics are exactly the descriptors of its metrics |
| Collector.Describe | telnet-collector.go:33-54 | the liveness descriptor first; a descriptor is announced exactly when it is the liveness one or that of some metric of some command of some host |
| Collector.HostCycleAnnounced | telnet-collector.go:33-88 | every descriptor a host's cycle uses is one that Describe announces |
| Collector.UpCountAppend | telnet-collector.go:57-67 | liveness samples of two sample streams add up |
| Collector.CollectUpCount | telnet-collector.go:57-67 | hosts' sample streams, each led by its only liveness sample, hold one liveness sample per host together |
| Collector.Collect | telnet-collector.go:57-67 | the samples are the hosts' cycles one after the other, each as HostCycle states, and every dialled connection ends in HostFinal's state for its host |
| Collector.CollectOneUpPerHost | telnet-collector.go:57-81 | a collection holds exactly one liveness sample per host |

## Left out

- Concurrency. `Collect` runs one goroutine per host and locks each host's mutex. The model collects the hosts one after the other. Samples from different hosts do not interleave in the model as they can on the channel.
- Timeouts and clocks: the dial timeout, read deadlines, the 5-second and 3-second read bounds, and the half-second pause after a command. A deadline expiring is modelled as the end of the input.
- Collector.Session: a read that fails has reached the end of the input, so after one command fails on a non-empty prompt, every later command fails too. In the program each `readUntil` sets a fresh deadline (telnet.go:43, 86). A later command can then still succeed after an earlier one timed out. The model therefore does not show that one command's timeout leaves the next commands unaffected.
- Telnet.Conn.Write: a connection either accepts every write or fails every write (`writable`). A connection whose writes start failing partway through a session is not modelled.
- The configured `ConnectTimeout` and `CommandTimeout` are never read by the collector, which uses the default constants (telnet-collector.go:146, 152). The model keeps both fields, filled in as config.go does, and gives them no effect.
- bufio buffering. `readUntil` creates a new `bufio.Reader` on each call, so bytes it read ahead past a stop word are lost to the next call. The model continues from the byte after the stop word.
- Metrics.Str2Float64: sample values are reals, and float64 rounding is not modelled. For text such as "NaN", "Inf" or "Infinity", `strconv.ParseFloat` returns NaN or an infinity without error, and the program emits that value. A real cannot hold these values. The `parse` parameter can only map such text to `None`, which gives 0, or to a finite number, so for such text the model's sample value differs from the program's.
- Dialling, `Close`, logging, and the scrape timestamps.
- The regular-expression engine and `strconv.ParseFloat` are taken as parameters. The model does not define them.
- YAML decoding and reading the configuration file (config.go:62-72).
- Prometheus's checks inside `MustNewConstMetric`: label-count checks, and the panics on invalid names. The model instead proves that every sample has one label value per label name.
- Descriptors. The code re-creates `metric.Desc` on every `Describe`; it does not create it once at load. The model follows the code. It computes each descriptor as a value, so every creation yields the same descriptor.
- The label merge. `metric.Labels = host.Labels` makes the metric share the host's map. The model copies values. No later write reaches that shared map, so nothing observable differs.
- Metrics.ExtractSamples: requires each metric's pattern to be compiled and, when a metric has no dynamic labels, to have a group 1. The code indexes `matches[1]` without checking (telnet-collector.go:106) and panics when such a pattern matches.
- main.go (command line, HTTP handler, host selection) and logger.go are not part of this model.
