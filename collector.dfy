/** The collection cycle of telnet-collector.go: connect (with the optional
    login handshake), the commands of a host run in order, the liveness sample
    first, and the descriptors Describe announces. Hosts are collected one at
    a time; the goroutines, the WaitGroup and the per-host mutex are not
    modelled. A connection that could not be dialled is `null`. */
module Collector {
  import opened GoStrings
  import opened Regexp
  import opened Config
  import opened Telnet
  import opened Metrics

  const LoginMarker: Str := Lit("login")
  const PasswordMarker: Str := Lit("Password")
  const ShellPrompt: Str := Lit("#")

  /** The stop words of the initial read in connect (telnet-collector.go:155). */
  const InitialMarkers: seq<Str> := [Lit(">"), Lit("$"), ShellPrompt, LoginMarker, PasswordMarker]

  /** connect once the dial has succeeded (telnet-collector.go:151-175): read
      the greeting; on a login or password prompt send the username and the
      password, ignoring what those exchanges return. */
  function ConnectStep(s: Stream, host: HostConfig): (st: Step)
    requires s.Valid()
    ensures st.after.Valid() && st.after.input == s.input && st.after.writable == s.writable
    ensures s.pos <= st.after.pos && s.written <= st.after.written
  {
    var greeting := ReadUntilStep(s, InitialMarkers);
    if greeting.failed then
      greeting
    else if Contains(greeting.text, LoginMarker) || Contains(greeting.text, PasswordMarker) then
      var user := SendCommandStep(greeting.after, host.username, PasswordMarker);
      var pass := SendCommandStep(user.after, host.password, ShellPrompt);
      Step(pass.after, greeting.text, false)
    else
      greeting
  }

  /** connect fails exactly when the greeting is never completed: the
      handshake's own errors are ignored. */
  lemma ConnectFailsOnlyOnGreeting(s: Stream, host: HostConfig)
    requires s.Valid()
    ensures ConnectStep(s, host).failed <==> ScanFrom(s.input, s.pos, [], InitialMarkers).failed
  {
  }

  /** Without a login or password prompt in the greeting nothing but the
      negotiation replies is written: no credentials are sent. */
  lemma ConnectSendsCredentialsOnlyOnPrompt(s: Stream, host: HostConfig)
    requires s.Valid()
    ensures var greeting := ReadUntilStep(s, InitialMarkers);
      !greeting.failed && !Contains(greeting.text, LoginMarker) && !Contains(greeting.text, PasswordMarker)
      ==> ConnectStep(s, host).after == greeting.after
  {
  }

  /** On a login or password prompt the username and a newline are the first
      bytes connect writes after the greeting's negotiation replies, and the
      password and a newline the first bytes written after the username
      exchange. */
  lemma ConnectSendsCredentials(s: Stream, host: HostConfig)
    requires s.Valid() && s.writable
    ensures var greeting := ReadUntilStep(s, InitialMarkers);
      var w := greeting.after.written;
      var u := SendCommandStep(greeting.after, host.username, PasswordMarker).after.written;
      var final := ConnectStep(s, host).after.written;
      !greeting.failed && (Contains(greeting.text, LoginMarker) || Contains(greeting.text, PasswordMarker)) ==>
        && |w| + |host.username| + 1 <= |u| && u[..|w| + |host.username| + 1] == w + host.username + [LF]
        && |u| + |host.password| + 1 <= |final| && final[..|u| + |host.password| + 1] == u + host.password + [LF]
  {
    var greeting := ReadUntilStep(s, InitialMarkers);
    if !greeting.failed && (Contains(greeting.text, LoginMarker) || Contains(greeting.text, PasswordMarker)) {
      var user := SendCommandStep(greeting.after, host.username, PasswordMarker);
      SendCommandWritesFirst(greeting.after, host.username, PasswordMarker);
      SendCommandWritesFirst(user.after, host.password, ShellPrompt);
    }
  }

  /** connect(host) (telnet-collector.go:145-176). */
  method Connect(conn: Conn?, host: HostConfig) returns (ok: bool)
    requires conn != null ==> conn.Valid()
    modifies conn
    ensures conn == null ==> !ok
    ensures conn != null ==> conn.Valid()
    ensures conn != null ==>
      var st := ConnectStep(old(conn.State()), host);
      conn.State() == st.after && ok == !st.failed
  {
    if conn == null {
      return false;
    }
    var output, err := conn.ReadUntil(InitialMarkers);
    if err {
      return false;
    }
    if Contains(output, LoginMarker) || Contains(output, PasswordMarker) {
      var _, _ := conn.SendCommand(host.username, PasswordMarker);
      var _, _ := conn.SendCommand(host.password, ShellPrompt);
    }
    return true;
  }

  /** The outcome of running commands: the connection afterwards, and per
      command its output, or None when sendCommand returned an error. */
  datatype Run = Run(after: Stream, outputs: seq<Option<Str>>)

  /** The commands run in order on one connection; a failing command does not
      stop the ones after it. */
  function Session(s: Stream, commands: seq<CommandConfig>, prompt: Str): (r: Run)
    requires s.Valid()
    ensures r.after.Valid() && r.after.input == s.input && r.after.writable == s.writable
    ensures s.pos <= r.after.pos && s.written <= r.after.written
    ensures |r.outputs| == |commands|
  {
    if commands == [] then
      Run(s, [])
    else
      var before := Session(s, commands[..|commands| - 1], prompt);
      var st := SendCommandStep(before.after, commands[|commands| - 1].command, prompt);
      Run(st.after, before.outputs + [if st.failed then None else Some(st.text)])
  }

  ghost predicate HostExtractable(host: HostConfig)
  {
    forall i :: 0 <= i < |host.commands| ==> CommandExtractable(host.commands[i])
  }

  /** `orders[i]` is the map order in which the metrics of command i are visited. */
  ghost predicate OrdersFor(orders: seq<seq<Str>>, commands: seq<CommandConfig>)
  {
    |orders| <= |commands| && forall i :: 0 <= i < |orders| ==> Enumerates(orders[i], commands[i].metrics.Keys)
  }

  /** Some order of a finite set of keys. */
  ghost function AnOrder(keys: set<Str>): (o: seq<Str>)
    ensures Enumerates(o, keys)
    decreases keys
  {
    if keys == {} then []
    else
      var k :| k in keys;
      AnOrder(keys - {k}) + [k]
  }

  /** The samples of the first |outputs| commands of `host`, a failed command
      contributing none. */
  function CommandsSamples(host: HostConfig, outputs: seq<Option<Str>>, orders: seq<seq<Str>>, parse: Str -> Option<real>): (r: seq<Sample>)
    requires HostExtractable(host)
    requires |outputs| == |orders| && OrdersFor(orders, host.commands)
    ensures (forall j :: 0 <= j < |outputs| ==> outputs[j].None?) ==> r == []
    ensures forall s :: s in r ==>
      exists j :: 0 <= j < |outputs| && outputs[j].Some? && s in CommandSamples(host.hostName, host.commands[j], outputs[j].value, orders[j], parse)
  {
    if outputs == [] then []
    else
      var n := |outputs| - 1;
      CommandsSamples(host, outputs[..n], orders[..n], parse) +
        match outputs[n]
        case None => []
        case Some(output) => CommandSamples(host.hostName, host.commands[n], output, orders[n], parse)
  }

  /** Every command sample carries a metric descriptor, never the liveness
      one, and as many label values as its descriptor has label names. */
  lemma {:induction false} CommandsSamplesWellLabelled(host: HostConfig, outputs: seq<Option<Str>>, orders: seq<seq<Str>>, parse: Str -> Option<real>)
    requires HostExtractable(host)
    requires |outputs| == |orders| && OrdersFor(orders, host.commands)
    ensures forall s :: s in CommandsSamples(host, outputs, orders, parse) ==>
      && s.desc != UpDesc && |s.labelValues| == |s.desc.variableLabels|
      && exists j, n :: 0 <= j < |outputs| && n in host.commands[j].metrics &&
           s.desc == DescOf(host.hostName, host.commands[j].command, n, host.commands[j].metrics[n])
  {
    if outputs != [] {
      var last := |outputs| - 1;
      CommandsSamplesWellLabelled(host, outputs[..last], orders[..last], parse);
      if outputs[last].Some? {
        var c := host.commands[last];
        CommandSamplesWellLabelled(host.hostName, c, outputs[last].value, orders[last], parse);
        forall s | s in CommandSamples(host.hostName, c, outputs[last].value, orders[last], parse)
          ensures s.desc != UpDesc
        {
          var name :| name in c.metrics && s.desc == DescOf(host.hostName, c.command, name, c.metrics[name]);
          DescOfIsNotUp(host.hostName, c.command, name, c.metrics[name]);
        }
      }
    }
  }

  /** One host's cycle (telnet-collector.go:69-88): `conn` is the dialled
      connection's state, None when the dial failed. */
  function HostCycle(host: HostConfig, conn: Option<Stream>, orders: seq<seq<Str>>, parse: Str -> Option<real>): (r: seq<Sample>)
    requires HostExtractable(host)
    requires conn.Some? ==> conn.value.Valid()
    requires |orders| == |host.commands| && OrdersFor(orders, host.commands)
    ensures |r| >= 1 && r[0].desc == UpDesc && r[0].labelValues == [host.hostName]
    ensures conn.None? ==> r == [UpSample(host.hostName, 0.0)]
  {
    if conn.None? then
      [UpSample(host.hostName, 0.0)]
    else
      var connected := ConnectStep(conn.value, host);
      if connected.failed then
        [UpSample(host.hostName, 0.0)]
      else
        var run := Session(connected.after, host.commands, host.prompt);
        [UpSample(host.hostName, 1.0)] + CommandsSamples(host, run.outputs, orders, parse)
  }

  /** A host that cannot be reached yields exactly one sample, liveness 0. */
  lemma HostCycleDown(host: HostConfig, conn: Option<Stream>, orders: seq<seq<Str>>, parse: Str -> Option<real>)
    requires HostExtractable(host)
    requires conn.Some? ==> conn.value.Valid()
    requires |orders| == |host.commands| && OrdersFor(orders, host.commands)
    requires conn.None? || ConnectStep(conn.value, host).failed
    ensures HostCycle(host, conn, orders, parse) == [UpSample(host.hostName, 0.0)]
  {
  }

  /** The liveness sample comes first, labelled with the host name and valued
      1 exactly when the connection was made; it is the host's only liveness
      sample; and every sample has as many label values as label names. */
  lemma HostCycleWellFormed(host: HostConfig, conn: Option<Stream>, orders: seq<seq<Str>>, parse: Str -> Option<real>)
    requires HostExtractable(host)
    requires conn.Some? ==> conn.value.Valid()
    requires |orders| == |host.commands| && OrdersFor(orders, host.commands)
    ensures var r := HostCycle(host, conn, orders, parse);
      && |r| >= 1
      && r[0].desc == UpDesc && r[0].labelValues == [host.hostName]
      && (r[0].value == 1.0 <==> conn.Some? && !ConnectStep(conn.value, host).failed)
      && (r[0].value == 0.0 <==> !(conn.Some? && !ConnectStep(conn.value, host).failed))
      && (forall j :: 0 < j < |r| ==> r[j].desc != UpDesc)
      && (forall j :: 0 <= j < |r| ==> |r[j].labelValues| == |r[j].desc.variableLabels|)
      && UpFirst(r)
  {
    var r := HostCycle(host, conn, orders, parse);
    if conn.Some? && !ConnectStep(conn.value, host).failed {
      var run := Session(ConnectStep(conn.value, host).after, host.commands, host.prompt);
      var rest := CommandsSamples(host, run.outputs, orders, parse);
      CommandsSamplesWellLabelled(host, run.outputs, orders, parse);
      assert forall j :: 0 < j < |r| ==> r[j] == rest[j - 1];
    }
  }

  /** One more command of a session. */
  lemma SessionStep(s: Stream, commands: seq<CommandConfig>, i: nat, prompt: Str)
    requires s.Valid() && i < |commands|
    ensures var before := Session(s, commands[..i], prompt);
      var st := SendCommandStep(before.after, commands[i].command, prompt);
      Session(s, commands[..i + 1], prompt) == Run(st.after, before.outputs + [if st.failed then None else Some(st.text)])
  {
    assert commands[..i + 1][..i] == commands[..i];
  }

  /** One more command's samples. */
  lemma CommandsSamplesStep(host: HostConfig, outputs: seq<Option<Str>>, orders: seq<seq<Str>>, output: Option<Str>, order: seq<Str>, parse: Str -> Option<real>)
    requires HostExtractable(host)
    requires |outputs| == |orders| < |host.commands| && OrdersFor(orders, host.commands)
    requires Enumerates(order, host.commands[|orders|].metrics.Keys)
    ensures OrdersFor(orders + [order], host.commands)
    ensures CommandsSamples(host, outputs + [output], orders + [order], parse)
      == CommandsSamples(host, outputs, orders, parse) +
         match output
         case None => []
         case Some(out) => CommandSamples(host.hostName, host.commands[|orders|], out, order, parse)
  {
    assert (outputs + [output])[..|outputs|] == outputs;
    assert (orders + [order])[..|orders|] == orders;
  }

  /** The commands loop of collectForHost (telnet-collector.go:82-87) with
      collectForCommand's sendCommand (telnet-collector.go:90-95): each command
      in order; a failed command is logged and skipped. */
  method RunCommands(host: HostConfig, conn: Conn, parse: Str -> Option<real>)
    returns (samples: seq<Sample>, ghost orders: seq<seq<Str>>)
    requires HostExtractable(host)
    requires conn.Valid()
    modifies conn
    ensures conn.Valid()
    ensures |orders| == |host.commands| && OrdersFor(orders, host.commands)
    ensures var run := Session(old(conn.State()), host.commands, host.prompt);
      conn.State() == run.after && samples == CommandsSamples(host, run.outputs, orders, parse)
  {
    ghost var connected := conn.State();
    samples := [];
    ghost var outputs: seq<Option<Str>> := [];
    orders := [];
    var i := 0;
    while i < |host.commands|
      invariant conn.Valid()
      invariant 0 <= i <= |host.commands|
      invariant |outputs| == |orders| == i && OrdersFor(orders, host.commands)
      invariant Session(connected, host.commands[..i], host.prompt) == Run(conn.State(), outputs)
      invariant samples == CommandsSamples(host, outputs, orders, parse)
    {
      var command := host.commands[i];
      SessionStep(connected, host.commands, i, host.prompt);
      var output, err := conn.SendCommand(command.command, host.prompt);
      ghost var order := AnOrder(command.metrics.Keys);
      if !err {
        var extracted;
        extracted, order := ExtractSamples(host.hostName, command, output, parse);
        samples := samples + extracted;
      }
      ghost var result := if err then None else Some(output);
      CommandsSamplesStep(host, outputs, orders, result, order, parse);
      outputs := outputs + [result];
      orders := orders + [order];
      i := i + 1;
    }
    assert host.commands[..i] == host.commands;
  }

  /** The connection after one host's cycle: after connect, and after the
      commands when connect succeeded. */
  function HostFinal(host: HostConfig, s: Stream): (r: Stream)
    requires s.Valid()
    ensures r.Valid() && r.input == s.input && r.writable == s.writable
    ensures s.pos <= r.pos && s.written <= r.written
  {
    var connected := ConnectStep(s, host);
    if connected.failed then connected.after else Session(connected.after, host.commands, host.prompt).after
  }

  /** collectForHost (telnet-collector.go:69-88): the liveness sample, then
      the samples of the commands when the connection was made. */
  method CollectForHost(host: HostConfig, conn: Conn?, parse: Str -> Option<real>)
    returns (samples: seq<Sample>, ghost orders: seq<seq<Str>>)
    requires HostExtractable(host)
    requires conn != null ==> conn.Valid()
    modifies conn
    ensures conn != null ==> conn.Valid()
    ensures |orders| == |host.commands| && OrdersFor(orders, host.commands)
    ensures samples == HostCycle(host, if conn == null then None else Some(old(conn.State())), orders, parse)
    ensures conn != null ==> conn.State() == HostFinal(host, old(conn.State()))
  {
    var ok := Connect(conn, host);
    if !ok {
      orders := seq(|host.commands|, i requires 0 <= i < |host.commands| => AnOrder(host.commands[i].metrics.Keys));
      return [UpSample(host.hostName, 0.0)], orders;
    }
    var commandSamples;
    commandSamples, orders := RunCommands(host, conn, parse);
    samples := [UpSample(host.hostName, 1.0)] + commandSamples;
  }

  /** `d` is announced by Describe for `hosts`: the liveness descriptor or the
      descriptor of a metric of a command of a host. */
  ghost predicate Announced(hosts: seq<HostConfig>, d: Desc)
  {
    AnnouncedBefore(hosts, |hosts|, 0, d)
  }

  /** `d` is the liveness descriptor or that of a metric of a command before
      command `j` of host `i`, or of any command of the hosts before `i`. */
  ghost predicate AnnouncedBefore(hosts: seq<HostConfig>, i: nat, j: nat, d: Desc)
  {
    || d == UpDesc
    || exists h, k, n :: 0 <= h < |hosts| && 0 <= k < |hosts[h].commands| && (h < i || (h == i && k < j)) &&
         n in hosts[h].commands[k].metrics &&
         d == DescOf(hosts[h].hostName, hosts[h].commands[k].command, n, hosts[h].commands[k].metrics[n])
  }

  /** The descriptors of one command's metrics (telnet-collector.go:38-51),
      in Go's map order, which is returned as `order`. */
  method DescribeCommand(hostName: Str, c: CommandConfig) returns (descs: seq<Desc>, ghost order: seq<Str>)
    ensures Enumerates(order, c.metrics.Keys)
    ensures |descs| == |order|
    ensures forall k :: 0 <= k < |order| ==> descs[k] == DescOf(hostName, c.command, order[k], c.metrics[order[k]])
    ensures forall d :: d in descs <==> exists n :: n in c.metrics && d == DescOf(hostName, c.command, n, c.metrics[n])
  {
    descs, order := [], [];
    var todo := c.metrics.Keys;
    while todo != {}
      invariant todo <= c.metrics.Keys
      invariant forall i, j :: 0 <= i < j < |order| ==> order[i] != order[j]
      invariant forall n :: n in order <==> n in c.metrics && n !in todo
      invariant |descs| == |order|
      invariant forall k :: 0 <= k < |order| ==> descs[k] == DescOf(hostName, c.command, order[k], c.metrics[order[k]])
      decreases todo
    {
      var name :| name in todo;
      var desc := BuildDesc(hostName, c.command, name, c.metrics[name]);
      descs, order, todo := descs + [desc], order + [name], todo - {name};
    }
    DescsCoverMetrics(hostName, c, order, descs);
  }

  /** Descriptors listed in an order enumerating a command's metrics are
      exactly the descriptors of its metrics. */
  lemma DescsCoverMetrics(hostName: Str, c: CommandConfig, order: seq<Str>, descs: seq<Desc>)
    requires forall n :: n in order <==> n in c.metrics
    requires |descs| == |order|
    requires forall k :: 0 <= k < |order| ==> descs[k] == DescOf(hostName, c.command, order[k], c.metrics[order[k]])
    ensures forall d :: d in descs <==> exists n :: n in c.metrics && d == DescOf(hostName, c.command, n, c.metrics[n])
  {
    forall d | exists n :: n in c.metrics && d == DescOf(hostName, c.command, n, c.metrics[n])
      ensures d in descs
    {
      var n :| n in c.metrics && d == DescOf(hostName, c.command, n, c.metrics[n]);
      var k :| 0 <= k < |order| && order[k] == n;
      assert descs[k] == d;
    }
    forall d | d in descs
      ensures exists n :: n in c.metrics && d == DescOf(hostName, c.command, n, c.metrics[n])
    {
      var k :| 0 <= k < |descs| && descs[k] == d;
      assert order[k] in c.metrics;
    }
  }

  /** Describe (telnet-collector.go:33-54): the liveness descriptor first,
      then that of every metric of every command of every host. */
  method Describe(hosts: seq<HostConfig>) returns (descs: seq<Desc>)
    ensures |descs| >= 1 && descs[0] == UpDesc
    ensures forall d :: d in descs <==> Announced(hosts, d)
  {
    descs := [UpDesc];
    var i := 0;
    while i < |hosts|
      invariant 0 <= i <= |hosts|
      invariant |descs| >= 1 && descs[0] == UpDesc
      invariant forall d :: d in descs <==> AnnouncedBefore(hosts, i, 0, d)
    {
      var host := hosts[i];
      var j := 0;
      while j < |host.commands|
        invariant 0 <= j <= |host.commands|
        invariant |descs| >= 1 && descs[0] == UpDesc
        invariant forall d :: d in descs <==> AnnouncedBefore(hosts, i, j, d)
      {
        var commandDescs, _ := DescribeCommand(host.hostName, host.commands[j]);
        AnnouncedStep(hosts, i, j);
        descs := descs + commandDescs;
        j := j + 1;
      }
      AnnouncedNextHost(hosts, i);
      i := i + 1;
    }
  }

  /** Announcing command `j` of host `i` adds exactly its metrics' descriptors. */
  lemma AnnouncedStep(hosts: seq<HostConfig>, i: nat, j: nat)
    requires i < |hosts| && j < |hosts[i].commands|
    ensures var c := hosts[i].commands[j];
      forall d :: AnnouncedBefore(hosts, i, j + 1, d) <==>
        AnnouncedBefore(hosts, i, j, d) || exists n :: n in c.metrics && d == DescOf(hosts[i].hostName, c.command, n, c.metrics[n])
  {
  }

  /** Past the last command of host `i` come the commands of host `i + 1`. */
  lemma AnnouncedNextHost(hosts: seq<HostConfig>, i: nat)
    requires i < |hosts|
    ensures forall d :: AnnouncedBefore(hosts, i, |hosts[i].commands|, d) <==> AnnouncedBefore(hosts, i + 1, 0, d)
  {
  }

  /** Every descriptor a host's cycle emits is one Describe announces. */
  lemma HostCycleAnnounced(hosts: seq<HostConfig>, i: nat, conn: Option<Stream>, orders: seq<seq<Str>>, parse: Str -> Option<real>)
    requires i < |hosts| && HostExtractable(hosts[i])
    requires conn.Some? ==> conn.value.Valid()
    requires |orders| == |hosts[i].commands| && OrdersFor(orders, hosts[i].commands)
    ensures forall s :: s in HostCycle(hosts[i], conn, orders, parse) ==> Announced(hosts, s.desc)
  {
    var host := hosts[i];
    if conn.Some? && !ConnectStep(conn.value, host).failed {
      var run := Session(ConnectStep(conn.value, host).after, host.commands, host.prompt);
      CommandsSamplesWellLabelled(host, run.outputs, orders, parse);
      forall s | s in CommandsSamples(host, run.outputs, orders, parse)
        ensures Announced(hosts, s.desc)
      {
        var j, n :| 0 <= j < |run.outputs| && n in host.commands[j].metrics &&
          s.desc == DescOf(host.hostName, host.commands[j].command, n, host.commands[j].metrics[n]);
        assert AnnouncedBefore(hosts, |hosts|, 0, s.desc) by {
          assert 0 <= i < |hosts| && 0 <= j < |hosts[i].commands| && i < |hosts|;
        }
      }
    }
  }

  function Flatten<T>(parts: seq<seq<T>>): seq<T>
  {
    if parts == [] then [] else Flatten(parts[..|parts| - 1]) + parts[|parts| - 1]
  }

  /** The number of liveness samples. */
  function UpCount(samples: seq<Sample>): nat
  {
    if samples == [] then 0
    else UpCount(samples[..|samples| - 1]) + (if samples[|samples| - 1].desc == UpDesc then 1 else 0)
  }

  lemma {:induction false} UpCountAppend(a: seq<Sample>, b: seq<Sample>)
    ensures UpCount(a + b) == UpCount(a) + UpCount(b)
    decreases |b|
  {
    if b == [] {
      assert a + b == a;
    } else {
      assert (a + b)[..|a + b| - 1] == a + b[..|b| - 1];
      UpCountAppend(a, b[..|b| - 1]);
    }
  }

  /** A sequence whose first sample, and only that one, is a liveness sample. */
  ghost predicate UpFirst(part: seq<Sample>)
  {
    |part| >= 1 && part[0].desc == UpDesc && forall j :: 0 < j < |part| ==> part[j].desc != UpDesc
  }

  lemma {:induction false} UpFirstCount(part: seq<Sample>)
    requires UpFirst(part)
    ensures UpCount(part) == 1
    decreases |part|
  {
    if |part| > 1 {
      UpFirstCount(part[..|part| - 1]);
    }
  }

  /** Collected host after host, the output holds exactly one liveness sample per host. */
  lemma {:induction false} CollectUpCount(parts: seq<seq<Sample>>)
    requires forall i :: 0 <= i < |parts| ==> UpFirst(parts[i])
    ensures UpCount(Flatten(parts)) == |parts|
  {
    if parts != [] {
      var n := |parts| - 1;
      CollectUpCount(parts[..n]);
      UpFirstCount(parts[n]);
      UpCountAppend(Flatten(parts[..n]), parts[n]);
    }
  }

  /** `part` is the cycle of `host` on the connection state `conn`, its maps
      visited in `orders`. */
  ghost predicate CycleOf(host: HostConfig, conn: Option<Stream>, orders: seq<seq<Str>>, parse: Str -> Option<real>, part: seq<Sample>)
  {
    && HostExtractable(host)
    && (conn.Some? ==> conn.value.Valid())
    && |orders| == |host.commands| && OrdersFor(orders, host.commands)
    && part == HostCycle(host, conn, orders, parse)
  }

  /** A host's cycle holds its liveness sample first and no other. */
  lemma CycleUpFirst(host: HostConfig, conn: Option<Stream>, orders: seq<seq<Str>>, parse: Str -> Option<real>, part: seq<Sample>)
    requires CycleOf(host, conn, orders, parse, part)
    ensures UpFirst(part)
  {
    HostCycleWellFormed(host, conn, orders, parse);
  }

  /** The state a dialled connection had on entry, None for a failed dial. */
  ghost function Dialled(conn: Conn?): Option<Stream>
    reads conn, if conn == null then {} else {conn.input}
    requires conn != null ==> conn.Valid()
  {
    if conn == null then None else Some(conn.State())
  }

  /** The connection `conn` has been through the cycle of `host` from the
      state `entry` it was dialled in. */
  ghost predicate Finished(host: HostConfig, conn: Conn?, entry: Option<Stream>)
    reads conn, if conn == null then {} else {conn.input}
  {
    conn != null ==> conn.Valid() && entry.Some? && entry.value.Valid() && conn.State() == HostFinal(host, entry.value)
  }

  /** `conn` still holds the state `entry` it was dialled in. */
  ghost predicate Untouched(conn: Conn?, entry: Option<Stream>)
    reads conn, if conn == null then {} else {conn.input}
  {
    if conn == null then entry == None else conn.Valid() && entry == Some(conn.State())
  }

  /** One host of Collect: CollectForHost, its contract restated through
      CycleOf and Finished. */
  method CollectHost(host: HostConfig, conn: Conn?, parse: Str -> Option<real>)
    returns (samples: seq<Sample>, ghost orders: seq<seq<Str>>, ghost entry: Option<Stream>)
    requires HostExtractable(host)
    requires conn != null ==> conn.Valid()
    modifies conn
    ensures entry == old(Dialled(conn))
    ensures CycleOf(host, entry, orders, parse, samples)
    ensures Finished(host, conn, entry)
  {
    entry := Dialled(conn);
    samples, orders := CollectForHost(host, conn, parse);
  }

  /** Collect (telnet-collector.go:57-67) with the hosts collected one after
      the other instead of concurrently; `conns[i]` is the connection dialled
      to `hosts[i]`. */
  method Collect(hosts: seq<HostConfig>, conns: seq<Conn?>, parse: Str -> Option<real>)
    returns (samples: seq<Sample>, ghost perHost: seq<seq<Sample>>, ghost orders: seq<seq<seq<Str>>>)
    requires |conns| == |hosts|
    requires forall i :: 0 <= i < |hosts| ==> HostExtractable(hosts[i])
    requires forall i :: 0 <= i < |conns| && conns[i] != null ==> conns[i].Valid()
    requires forall i, j :: 0 <= i < j < |conns| && conns[i] != null ==> conns[i] != conns[j]
    modifies set i | 0 <= i < |conns| && conns[i] != null :: conns[i]
    ensures |perHost| == |orders| == |hosts| && samples == Flatten(perHost)
    ensures forall i :: 0 <= i < |hosts| ==> CycleOf(hosts[i], old(Dialled(conns[i])), orders[i], parse, perHost[i])
    ensures forall i :: 0 <= i < |conns| ==> Finished(hosts[i], conns[i], old(Dialled(conns[i])))
  {
    ghost var entries := seq(|conns|, j requires 0 <= j < |conns| && (conns[j] != null ==> conns[j].Valid())
                                         reads if 0 <= j < |conns| && conns[j] != null then {conns[j], conns[j].input} else {}
                                         => Dialled(conns[j]));
    samples, perHost, orders := [], [], [];
    var i := 0;
    while i < |hosts|
      invariant 0 <= i <= |hosts|
      invariant |perHost| == |orders| == i && samples == Flatten(perHost)
      invariant forall j :: 0 <= j < |conns| ==> entries[j] == old(Dialled(conns[j]))
      invariant forall j :: i <= j < |conns| ==> Untouched(conns[j], entries[j])
      invariant forall j :: 0 <= j < i ==> CycleOf(hosts[j], entries[j], orders[j], parse, perHost[j])
      invariant forall j :: 0 <= j < i ==> Finished(hosts[j], conns[j], entries[j])
    {
      var hostSamples;
      ghost var hostOrders, entry;
      assert Dialled(conns[i]) == entries[i];
      label BeforeHost:
      hostSamples, hostOrders, entry := CollectHost(hosts[i], conns[i], parse);
      forall j | 0 <= j < |conns| && j != i
        ensures Untouched(conns[j], entries[j]) == old@BeforeHost(Untouched(conns[j], entries[j]))
        ensures Finished(hosts[j], conns[j], entries[j]) == old@BeforeHost(Finished(hosts[j], conns[j], entries[j]))
      {
        assert conns[j] == null || conns[j] != conns[i];
      }
      samples := samples + hostSamples;
      perHost := perHost + [hostSamples];
      orders := orders + [hostOrders];
      assert perHost[..i] == perHost[..|perHost| - 1];
      i := i + 1;
    }
  }

  /** Every host collected contributes exactly one liveness sample. */
  lemma CollectOneUpPerHost(hosts: seq<HostConfig>, conns: seq<Option<Stream>>, orders: seq<seq<seq<Str>>>, perHost: seq<seq<Sample>>, parse: Str -> Option<real>)
    requires |conns| == |hosts| == |orders| == |perHost|
    requires forall i :: 0 <= i < |hosts| ==> CycleOf(hosts[i], conns[i], orders[i], parse, perHost[i])
    ensures UpCount(Flatten(perHost)) == |hosts|
  {
    forall i | 0 <= i < |hosts|
      ensures UpFirst(perHost[i])
    {
      CycleUpFirst(hosts[i], conns[i], orders[i], parse, perHost[i]);
    }
    CollectUpCount(perHost);
  }
}
