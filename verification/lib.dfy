/** The library entry points: building the configuration from the command
    line arguments, and `run`, which validates it and starts the capture. */
module Lib {
  import opened Results
  import opened Os
  import opened RustStr
  import Dx12

  /** Where the captured screen would be served. */
  datatype Config = Config(host: string, port: string)

  const HostNotProvided: string := "Host not provided"
  const PortNotProvided: string := "Port not provided"
  const NonLocalHost: string := "Non-local hosts are not allowed"
  const BadPort: string := "Port is not a number or is too short"

  /** The shortest port, in bytes, that `run` accepts. */
  const MinPortLen: nat := 4

  /** `Iterator::next` on the remaining arguments: the first one and the
      rest, or nothing once they are used up. */
  function Next(args: seq<string>): (r: Option<(string, seq<string>)>)
    ensures r.None? <==> |args| == 0
    ensures r.Some? ==> [r.value.0] + r.value.1 == args
  {
    if |args| == 0 then None else Some((args[0], args[1..]))
  }

  /** `Config::build`: the first argument is the host and the second the
      port, whatever their text; the rest are never read. */
  function Build(args: seq<string>): (r: Result<Config, string>)
    ensures r == Err(HostNotProvided) <==> |args| == 0
    ensures r == Err(PortNotProvided) <==> |args| == 1
    ensures r.Ok? <==> |args| >= 2
    ensures r.Ok? ==> r.value.host == args[0] && r.value.port == args[1]
  {
    match Next(args)
    case None => Err(HostNotProvided)
    case Some((host, afterHost)) =>
      match Next(afterHost)
      case None => Err(PortNotProvided)
      case Some((port, _)) =>
        assert afterHost[0] == port;
        Ok(Config(host, port))
  }

  /** The hosts the `non-local` feature still admits. */
  predicate IsLocalHost(host: string)
  {
    host == "localhost" || host == "127.0.0.1"
  }

  /** The port check of `run`: `parse::<u16>` succeeds and `len()`, a byte
      count, is at least `MinPortLen`. */
  predicate PortPasses(port: string)
    ensures PortPasses(port) ==> Utf8Len(port) == |port| >= MinPortLen
  {
    if ParseU16(port).Some? then
      ParseU16Spec(port);
      U16LiteralLen(port);
      Utf8Len(port) >= MinPortLen
    else false
  }

  /** `run`, with the `non-local` feature given as `nonLocal` and the OS
      answers of the capture as `os`. A rejected configuration returns its
      error before anything is printed or captured; an accepted one prints
      host and port, runs `dx12()`, prints its error if any, and succeeds. */
  function Run(config: Config, nonLocal: bool, os: Dx12.OsScript): (r: Traced<Result<(), string>>)
    ensures r.value.Err? ==> r.trace == [] && (r.value.error == NonLocalHost || r.value.error == BadPort)
    ensures r.value == Err(NonLocalHost) <==> nonLocal && !IsLocalHost(config.host)
    ensures r.value.Ok? ==> ParseU16(config.port).Some? && |config.port| >= MinPortLen
  {
    if nonLocal && !IsLocalHost(config.host) then Traced(Err(NonLocalHost), [])
    else if !PortPasses(config.port) then Traced(Err(BadPort), [])
    else
      var capture := Dx12.Capture(os);
      Traced(Ok(()), [Log(HostAndPort(config.host, config.port))] + capture.trace + Reported(capture.value))
  }

  /** The line `run` prints for the outcome of `dx12()`: its error, if any. */
  function Reported(outcome: Result<(), Error>): (t: seq<Event>)
    ensures Calls(t) == []
    ensures Logs(t) == if outcome.Err? then [CaptureFailed(outcome.error)] else []
  {
    if outcome.Err? then
      ProjectOne(Log(CaptureFailed(outcome.error)));
      [Log(CaptureFailed(outcome.error))]
    else []
  }

  /** Reference definition of an acceptable configuration: a local host when
      `non-local` is on, and a port that is a `u16` literal of at least
      `MinPortLen` characters. */
  predicate Acceptable(config: Config, nonLocal: bool)
  {
    && (nonLocal ==> IsLocalHost(config.host))
    && IsU16Literal(config.port)
    && |config.port| >= MinPortLen
  }

  /** The port check accepts exactly the `u16` literals of at least
      `MinPortLen` characters. */
  lemma PortPassesSpec(port: string)
    ensures PortPasses(port) <==> IsU16Literal(port) && |port| >= MinPortLen
  {
    ParseU16Spec(port);
    if IsU16Literal(port) {
      U16LiteralLen(port);
    }
  }

  /** `run` succeeds exactly on acceptable configurations, whatever the
      capture does. */
  lemma RunAccepts(config: Config, nonLocal: bool, os: Dx12.OsScript)
    ensures Run(config, nonLocal, os).value.Ok? <==> Acceptable(config, nonLocal)
  {
    PortPassesSpec(config.port);
  }

  /** A rejected configuration does nothing observable. The host check
      comes first: a non-local host is reported as such even when the port
      is bad too. */
  lemma RunRejects(config: Config, nonLocal: bool, os: Dx12.OsScript)
    requires !Acceptable(config, nonLocal)
    ensures Run(config, nonLocal, os).trace == []
    ensures Run(config, nonLocal, os).value
         == Err(if nonLocal && !IsLocalHost(config.host) then NonLocalHost else BadPort)
  {
    PortPassesSpec(config.port);
  }

  /** An accepted configuration makes `run` succeed: it prints host and port,
      makes exactly the calls of `dx12()`, and prints the error of `dx12()`
      as its last line when there is one. */
  lemma RunSwallowsCaptureError(config: Config, nonLocal: bool, os: Dx12.OsScript)
    requires Acceptable(config, nonLocal)
    ensures Run(config, nonLocal, os).value == Ok(())
    ensures Calls(Run(config, nonLocal, os).trace) == Calls(Dx12.Capture(os).trace)
    ensures Logs(Run(config, nonLocal, os).trace)
         == [HostAndPort(config.host, config.port)] + Logs(Dx12.Capture(os).trace)
            + (if Dx12.Capture(os).value.Err? then [CaptureFailed(Dx12.Capture(os).value.error)] else [])
  {
    PortPassesSpec(config.port);
    var capture := Dx12.Capture(os);
    var shown := Log(HostAndPort(config.host, config.port));
    assert Run(config, nonLocal, os).trace == [shown] + capture.trace + Reported(capture.value);
    ProjectAround(shown, capture.trace, Reported(capture.value));
    assert [] + Calls(capture.trace) + [] == Calls(capture.trace);
  }

  /** An accepted configuration prints host and port first, then runs
      `dx12()` with every one of its events kept in order, and ends with
      the report of its outcome. */
  lemma RunOrder(config: Config, nonLocal: bool, os: Dx12.OsScript)
    requires Acceptable(config, nonLocal)
    ensures var t, capture := Run(config, nonLocal, os).trace, Dx12.Capture(os);
      && |t| == 1 + |capture.trace| + |Reported(capture.value)|
      && t[0] == Log(HostAndPort(config.host, config.port))
      && t[1..1 + |capture.trace|] == capture.trace
      && t[1 + |capture.trace|..] == Reported(capture.value)
  {
    PortPassesSpec(config.port);
    var capture := Dx12.Capture(os);
    var shown := Log(HostAndPort(config.host, config.port));
    var t := Run(config, nonLocal, os).trace;
    assert t == [shown] + capture.trace + Reported(capture.value);
    assert t[1..1 + |capture.trace|] == capture.trace;
  }

  /** The port check on sample ports: too short, too large, signed, empty
      and lone-sign ports fail; leading zeros and a leading `+` count
      towards the length, and 65535 is the largest value that passes. */
  lemma SamplePorts()
    ensures !PortPasses("80") && !PortPasses("65536") && !PortPasses("-123")
    ensures !PortPasses("") && !PortPasses("+")
    ensures PortPasses("0080") && PortPasses("+123") && PortPasses("65535") && PortPasses("8080")
  {
    ParseU16Samples();
    PortPassesSpec("80");
    PortPassesSpec("0080");
    PortPassesSpec("+123");
    PortPassesSpec("65535");
    PortPassesSpec("8080");
  }

  /** `run` on sample configurations: the port rule for a local host, and a
      remote host refused only when `non-local` is on, before its port is
      looked at. */
  lemma SampleRuns(os: Dx12.OsScript)
    ensures Run(Config("localhost", "80"), true, os).value == Err(BadPort)
    ensures Run(Config("localhost", "65536"), true, os).value == Err(BadPort)
    ensures Run(Config("localhost", "0080"), true, os).value == Ok(())
    ensures Run(Config("127.0.0.1", "+123"), true, os).value == Ok(())
    ensures Run(Config("example.org", "8080"), true, os).value == Err(NonLocalHost)
    ensures Run(Config("example.org", "80"), true, os).value == Err(NonLocalHost)
    ensures Run(Config("example.org", "8080"), false, os).value == Ok(())
  {
    SamplePorts();
  }
}
