/** Validation of the telemetry section, the one part of the configuration it also completes. */
module Telemetry {
  import opened Basics

  /** A float64 read from YAML. */
  datatype Float = NaN | Infinite | Finite(r: real)

  /** Library parsing: time.ParseDuration in nanoseconds, net.SplitHostPort, strconv.Atoi. */
  datatype Library = Library(
    parseDuration: string -> Option<int>, splitHostPort: string -> Option<(string, string)>, atoi: string -> Option<int>)

  datatype Settings = Settings(
    ServiceName: string, Resource: map<string, string>,
    Endpoint: string, Protocol: string, Headers: map<string, string>,
    TracesEnabled: bool, SampleRatio: Option<Float>,
    MetricsEnabled: bool, ExportInterval: string)

  predicate HeaderNameChar(c: char) {
    'a' <= c <= 'z' || '0' <= c <= '9' || c == '-' || c == '_' || c == '.'
  }

  /** Upper-case names need no separate test: their letters are not header name characters. */
  predicate HeaderOk(key: string, value: string) {
    && key != "" && (forall i :: 0 <= i < |key| ==> HeaderNameChar(key[i]))
    && (forall i :: 0 <= i < |value| ==> ' ' <= value[i] <= '~')
  }

  predicate EndpointOk(lib: Library, endpoint: string) {
    match lib.splitHostPort(endpoint)
    case None => false
    case Some((host, port)) =>
      && lib.atoi(port).Some? && 1 <= lib.atoi(port).value <= 65535
      && host != ""
      && forall i :: 0 <= i < |host| ==> host[i] !in {'/', '@', '?', '#', ' ', '\r', '\n', '\t'}
  }

  predicate RatioOk(ratio: Float) {
    ratio.Finite? && 0.0 <= ratio.r <= 1.0
  }

  predicate IntervalOk(lib: Library, interval: string) {
    lib.parseDuration(interval).Some? && lib.parseDuration(interval).value > 0
  }

  function OrDefault(s: string, default: string): string {
    if s == "" then default else s
  }

  /** Settings with every default filled in. */
  function Completed(t: Settings): Settings {
    t.(
      ServiceName := OrDefault(t.ServiceName, "dockauthz"),
      SampleRatio := if t.SampleRatio.None? then Some(Finite(1.0)) else t.SampleRatio,
      ExportInterval := OrDefault(t.ExportInterval, "30s"))
  }

  predicate TransportOk(lib: Library, t: Settings) {
    && t.Protocol in {"", "grpc", "http"}
    && (t.TracesEnabled || t.MetricsEnabled ==> t.Endpoint != "" && t.Protocol != "")
    && (t.Endpoint != "" ==> EndpointOk(lib, t.Endpoint))
    && (forall k :: k in t.Headers ==> HeaderOk(k, t.Headers[k]))
  }

  predicate Acceptable(lib: Library, t: Settings) {
    && "service.name" !in t.Resource
    && "service.version" !in t.Resource
    && t.SampleRatio.Some? && RatioOk(t.SampleRatio.value)
    && IntervalOk(lib, t.ExportInterval)
    && TransportOk(lib, t)
  }

  /** The settings Validate leaves behind: defaults are written as it goes, so a rejection keeps
      the ones already written. */
  function Written(t: Settings): Settings {
    var named := t.(ServiceName := OrDefault(t.ServiceName, "dockauthz"));
    if "service.name" in t.Resource || "service.version" in t.Resource then named
    else
      var sampled := named.(SampleRatio := Completed(t).SampleRatio);
      if !RatioOk(sampled.SampleRatio.value) then sampled else Completed(t)
  }

  class Section {
    var ServiceName: string
    var SampleRatio: Option<Float>
    var ExportInterval: string
    const Resource: map<string, string>
    const Endpoint: string
    const Protocol: string
    const Headers: map<string, string>
    const TracesEnabled: bool
    const MetricsEnabled: bool

    constructor (t: Settings)
      ensures View() == t
    {
      ServiceName, SampleRatio, ExportInterval := t.ServiceName, t.SampleRatio, t.ExportInterval;
      Resource, Endpoint, Protocol, Headers := t.Resource, t.Endpoint, t.Protocol, t.Headers;
      TracesEnabled, MetricsEnabled := t.TracesEnabled, t.MetricsEnabled;
    }

    function View(): Settings
      reads this
    {
      Settings(ServiceName, Resource, Endpoint, Protocol, Headers, TracesEnabled, SampleRatio, MetricsEnabled, ExportInterval)
    }

    /** Telemetry.Validate: the verdict is that of the completed settings, whatever the iteration
        order of the headers. */
    method Validate(lib: Library) returns (ok: bool)
      modifies this
      ensures ok <==> Acceptable(lib, Completed(old(View())))
      ensures View() == Written(old(View()))
      ensures ok ==> View() == Completed(old(View()))
    {
      hide TransportOk;
      if ServiceName == "" {
        ServiceName := "dockauthz";
      }
      if "service.name" in Resource {
        return false;
      }
      if "service.version" in Resource {
        return false;
      }
      if SampleRatio == None {
        SampleRatio := Some(Finite(1.0));
      }
      if SampleRatio.value.NaN? || SampleRatio.value.Infinite? || SampleRatio.value.r < 0.0 || SampleRatio.value.r > 1.0 {
        return false;
      }
      if ExportInterval == "" {
        ExportInterval := "30s";
      }
      var interval := lib.parseDuration(ExportInterval);
      if interval == None || interval.value <= 0 {
        return false;
      }
      ok := CheckTransport(lib);
    }

    method CheckTransport(lib: Library) returns (ok: bool)
      ensures ok <==> TransportOk(lib, View())
    {
      hide EndpointOk, HeaderOk;
      if Protocol != "" && Protocol != "grpc" && Protocol != "http" {
        return false;
      }
      if TracesEnabled || MetricsEnabled {
        if Endpoint == "" || Protocol == "" {
          return false;
        }
      }
      if Endpoint != "" {
        if !EndpointOk(lib, Endpoint) {
          return false;
        }
      }
      var rest := Headers.Keys;
      while rest != {}
        invariant rest <= Headers.Keys
        invariant forall k :: k in Headers && k !in rest ==> HeaderOk(k, Headers[k])
        decreases rest
      {
        var key :| key in rest;
        if !HeaderOk(key, Headers[key]) {
          return false;
        }
        rest := rest - {key};
      }
      return true;
    }
  }

  /** A second validation repeats the verdict of the first and writes nothing. */
  lemma ValidateTwice(lib: Library, t: Settings)
    ensures Acceptable(lib, Completed(Written(t))) <==> Acceptable(lib, Completed(t))
    ensures Written(Written(t)) == Written(t)
  {
    assert OrDefault(OrDefault(t.ServiceName, "dockauthz"), "dockauthz") == OrDefault(t.ServiceName, "dockauthz");
    assert OrDefault(OrDefault(t.ExportInterval, "30s"), "30s") == OrDefault(t.ExportInterval, "30s");
  }
}
