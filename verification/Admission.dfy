/** The Pod admission injector of `handler.go`. */
module Admission {
  import opened Bytes
  import opened Decimals
  import opened JsonPatch

  type Fields = map<string, Json>

  const INJECT_LABEL: string := "elven.observability/inject"
  const CONTAINER: string := "elven.observability/container-name"
  const MARKER: string := "elven.observability/injected"
  const PLATFORM: string := "elven.observability/python-platform"
  const SERVICE: string := "elven.observability/service-name"
  const OTEL_PREFIX: string := "instrumentation.opentelemetry.io/"
  const SDK_VOLUME: string := "elven-instrumentation"
  const TLS_VOLUME: string := "elven-instrumentation-tls"
  const INIT_NAME: string := "elven-instrumentation-init"
  const SDK_MOUNT: string := "/elven-auto"
  const TLS_MOUNT: string := "/var/run/elven/tls"

  /** Markers of other instrumentation injectors. */
  const FOREIGN: seq<string> := [
    "admission.datadoghq.com/enabled", "oneagent.dynatrace.com/inject", "oneagent.dynatrace.com/injected",
    "newrelic.io/inject", "newrelic.com/inject", "newrelic.com/instrumentation",
    "newrelic-k8s-agents-operator-version", "newrelic-k8s-agents-operator-txid"]

  datatype Config = Config(
    namespaces: seq<string>, endpoint: string, tlsSecretName: string, images: map<string, string>,
    samplingRatio: string, sdkVolumeSizeMiB: nat)

  datatype GroupVersion = GroupVersion(group: string, version: string, name: string)

  /** `document` is the parsed Pod document, if it parses. */
  datatype Request = Request(
    kind: GroupVersion, resource: GroupVersion, subResource: string, namespace: string, operation: string,
    document: Option<Json>)

  /** One constructor for each message with which a Pod is denied. */
  datatype Reason =
    | BadPod | BadField | BadCollection | BadRuntimeLabel | UnknownRuntime | NamespaceMismatch | AlreadyInjected
    | OtherInstrumentation | ForeignMarker | NotLinux | NotLinuxNode | NoContainers | TargetRequired | BadContainer
    | ReservedContainer | AmbiguousTarget | TargetMissing | Unnamed | EnvFromPresent | BadEnvEntry | EnvNames
    | EnvReserved | BadArguments | AgentArguments | BadVolume | VolumeExists | BadInitializer | InitializerExists
    | AgentInitializer | BadMount | MountReserved | BadPlatform | BadService

  datatype Result<+T> = Ok(value: T) | Deny(reason: Reason) {
    predicate IsFailure() { Deny? }

    function PropagateFailure<U>(): Result<U>
      requires Deny?
    {
      Deny(reason)
    }

    function Extract(): T
      requires Ok?
    {
      value
    }
  }

  datatype Done = Done

  datatype Check = Pass | Fail(reason: Reason) {
    predicate IsFailure() { Fail? }

    function PropagateFailure<U>(): Result<U>
      requires Fail?
    {
      Deny(reason)
    }
  }

  function Need(holds: bool, reason: Reason): Check { if holds then Pass else Fail(reason) }

  function Unless(fault: Option<Reason>): Check { if fault.None? then Pass else Fail(fault.value) }

  // ---------- reading fields ----------

  /** An absent or null field reads as an empty object. */
  function MapField(o: Fields, key: string): Result<Fields> {
    if key !in o || o[key].Null? then Ok(map[])
    else if o[key].Obj? then Ok(o[key].fields)
    else Deny(BadField)
  }

  function SliceField(o: Fields, key: string): Result<seq<Json>> {
    if key !in o || o[key].Null? then Ok([])
    else if o[key].Arr? then Ok(o[key].items)
    else Deny(BadCollection)
  }

  function TextField(o: Fields, key: string): string {
    if key in o && o[key].Str? then o[key].text else ""
  }

  function NameOf(x: Json): string { if x.Obj? then TextField(x.fields, "name") else "" }

  /** The field is there and is not the given text. */
  predicate Differs(o: Fields, key: string, text: string) { key in o && o[key] != Str(text) }

  predicate Contains(s: string, t: string) { exists i: nat :: i <= |s| && At(s, i, t) }

  function TrimSlash(s: string): string {
    if s != "" && s[|s| - 1] == '/' then s[..|s| - 1] else s
  }

  // ---------- checks on one element ----------

  /** `mountOverlap`. */
  predicate MountOverlap(mount: string, reserved: string) {
    if mount == "/" then true
    else
      var m := TrimSlash(mount);
      m == reserved || reserved + "/" <= m || m + "/" <= reserved
  }

  /** Environment names that configure a loader or an instrumentation. */
  predicate LoaderName(name: string) {
    "OTEL_" <= name || "NEW_RELIC_" <= name || "NEWRELIC_" <= name || name == "JAVA_TOOL_OPTIONS"
    || name == "JDK_JAVA_OPTIONS" || name == "_JAVA_OPTIONS" || name == "NODE_OPTIONS" || name == "PYTHONPATH"
    || name == "PYTHONHOME" || name == "PYTHONSTARTUP" || name == "LD_PRELOAD" || name == "LD_AUDIT"
    || name == "CORECLR_ENABLE_PROFILING" || "ELVEN_" <= name
  }

  function EnvFault(env: seq<Json>, i: nat): Option<Reason>
    requires i < |env|
  {
    var name := NameOf(env[i]);
    if !env[i].Obj? then Some(BadEnvEntry)
    else if name == "" || exists j: nat :: j < i && NameOf(env[j]) == name then Some(EnvNames)
    else if LoaderName(name) then Some(EnvReserved)
    else None
  }

  function EnvFaultFrom(env: seq<Json>, i: nat): (r: Option<Reason>)
    requires i <= |env|
    ensures r.None? <==> forall k: nat :: i <= k < |env| ==> EnvFault(env, k).None?
    decreases |env| - i
  {
    if i == |env| then None
    else if EnvFault(env, i).Some? then EnvFault(env, i)
    else EnvFaultFrom(env, i + 1)
  }

  function ArgumentFault(x: Json): Option<Reason> {
    if !x.Str? then Some(BadArguments)
    else
      var lower := Lower(x.text);
      if Contains(lower, "javaagent") || Contains(lower, "opentelemetry") || Contains(lower, "autoinstrumentation")
         || Contains(lower, "dd-trace") || Contains(lower, "newrelic") || Contains(lower, "elastic-apm")
      then Some(AgentArguments) else None
  }

  function VolumeFault(x: Json): Option<Reason> {
    var name := NameOf(x);
    if !x.Obj? then Some(BadVolume)
    else if name == SDK_VOLUME || name == TLS_VOLUME || "opentelemetry-auto-instrumentation" <= name
            || "otel-auto-instrumentation" <= name
    then Some(VolumeExists) else None
  }

  function InitializerFault(x: Json): Option<Reason> {
    var name := NameOf(x);
    if !x.Obj? then Some(BadInitializer)
    else if name == INIT_NAME || Contains(name, "auto-instrumentation") || Contains(name, "autoinstrumentation")
    then Some(InitializerExists)
    else
      var image := Lower(TextField(x.fields, "image"));
      if "newrelic/" <= image || "docker.io/newrelic/" <= image || "ghcr.io/newrelic/" <= image
      then Some(AgentInitializer) else None
  }

  function MountFault(x: Json): Option<Reason> {
    if !x.Obj? then Some(BadMount)
    else
      var path := TextField(x.fields, "mountPath");
      if MountOverlap(path, SDK_MOUNT) || MountOverlap(path, TLS_MOUNT) then Some(MountReserved) else None
  }

  /** The fault of the first faulty element from `i` on. */
  function FaultFrom(xs: seq<Json>, fault: Json -> Option<Reason>, i: nat): (r: Option<Reason>)
    requires i <= |xs|
    ensures r.None? <==> forall k: nat :: i <= k < |xs| ==> fault(xs[k]).None?
    decreases |xs| - i
  {
    if i == |xs| then None
    else if fault(xs[i]).Some? then fault(xs[i])
    else FaultFrom(xs, fault, i + 1)
  }

  method CheckEach(xs: seq<Json>, fault: Json -> Option<Reason>) returns (r: Option<Reason>)
    ensures r == FaultFrom(xs, fault, 0)
  {
    for i := 0 to |xs|
      invariant FaultFrom(xs, fault, 0) == FaultFrom(xs, fault, i)
    {
      if fault(xs[i]).Some? { return fault(xs[i]); }
    }
    return None;
  }

  // ---------- whether and what to inject ----------

  predicate ActiveOtel(annotations: Fields) {
    exists key :: key in annotations && OTEL_PREFIX <= key && annotations[key] != Str("false")
  }

  predicate ForeignActive(markers: Fields) {
    exists k: nat :: k < |FOREIGN| && Differs(markers, FOREIGN[k], "false")
  }

  datatype Chosen = Chosen(pod: Fields, metadata: Fields, labels: Fields, annotations: Fields, runtime: string)

  predicate Concerns(config: Config, request: Request) {
    && request.namespace in config.namespaces && request.operation == "CREATE" && request.subResource == ""
    && request.kind == GroupVersion("", "v1", "Pod") && request.resource == GroupVersion("", "v1", "pods")
  }

  /** Nothing to do, a Pod to inject into, or a denial. */
  function Choose(config: Config, request: Request): Result<Option<Chosen>> {
    if !Concerns(config, request) then Ok(None)
    else if request.document.None? || !request.document.value.Obj? then Deny(BadPod)
    else
      var pod := request.document.value.fields;
      var metadata :- MapField(pod, "metadata");
      var labels :- MapField(metadata, "labels");
      if INJECT_LABEL !in labels then Ok(None)
      else
        var runtime := TextField(labels, INJECT_LABEL);
        if runtime == "" then Deny(BadRuntimeLabel)
        else if runtime == "false" then Ok(None)
        else
          :- Need(runtime in config.images, UnknownRuntime);
          var namespace := TextField(metadata, "namespace");
          :- Need(namespace == "" || namespace == request.namespace, NamespaceMismatch);
          var annotations :- MapField(metadata, "annotations");
          :- Need(TextField(annotations, MARKER) == "", AlreadyInjected);
          :- Need(!ActiveOtel(annotations), OtherInstrumentation);
          :- Need(!ForeignActive(labels) && !ForeignActive(annotations), ForeignMarker);
          Ok(Some(Chosen(pod, metadata, labels, annotations, runtime)))
  }

  method SeeksOtel(annotations: Fields) returns (active: bool)
    ensures active == ActiveOtel(annotations)
  {
    var keys := annotations.Keys;
    while keys != {}
      invariant keys <= annotations.Keys
      invariant forall key :: key in annotations && key !in keys ==>
                  !(OTEL_PREFIX <= key && annotations[key] != Str("false"))
    {
      var key :| key in keys;
      if OTEL_PREFIX <= key && annotations[key] != Str("false") { return true; }
      keys := keys - {key};
    }
    return false;
  }

  method SeeksForeign(markers: Fields) returns (active: bool)
    ensures active == ForeignActive(markers)
  {
    for k := 0 to |FOREIGN|
      invariant forall j: nat :: j < k ==> !Differs(markers, FOREIGN[j], "false")
    {
      if Differs(markers, FOREIGN[k], "false") { return true; }
    }
    return false;
  }

  method ChoosePod(config: Config, request: Request) returns (r: Result<Option<Chosen>>)
    ensures r == Choose(config, request)
  {
    var allowedNamespace := false;
    for i := 0 to |config.namespaces|
      invariant !allowedNamespace && request.namespace !in config.namespaces[..i]
    {
      if request.namespace == config.namespaces[i] {
        allowedNamespace := true;
        break;
      }
    }
    if !allowedNamespace || request.operation != "CREATE" || request.subResource != "" { return Ok(None); }
    if request.kind != GroupVersion("", "v1", "Pod") || request.resource != GroupVersion("", "v1", "pods") {
      return Ok(None);
    }
    if request.document.None? || !request.document.value.Obj? { return Deny(BadPod); }
    var pod := request.document.value.fields;
    var metadata :- MapField(pod, "metadata");
    var labels :- MapField(metadata, "labels");
    if INJECT_LABEL !in labels { return Ok(None); }
    var runtime := TextField(labels, INJECT_LABEL);
    if runtime == "" { return Deny(BadRuntimeLabel); }
    if runtime == "false" { return Ok(None); }
    :- Need(runtime in config.images, UnknownRuntime);
    var namespace := TextField(metadata, "namespace");
    :- Need(namespace == "" || namespace == request.namespace, NamespaceMismatch);
    var annotations :- MapField(metadata, "annotations");
    :- Need(TextField(annotations, MARKER) == "", AlreadyInjected);
    var active := SeeksOtel(annotations);
    :- Need(!active, OtherInstrumentation);
    var inLabels := SeeksForeign(labels);
    var inAnnotations := SeeksForeign(annotations);
    :- Need(!inLabels && !inAnnotations, ForeignMarker);
    return Ok(Some(Chosen(pod, metadata, labels, annotations, runtime)));
  }

  // ---------- the target container ----------

  datatype Placement = Placement(spec: Fields, containers: seq<Json>, index: nat, container: Fields)

  predicate Selected(containers: seq<Json>, target: string, i: nat)
    requires i < |containers|
  {
    (target == "" && |containers| == 1) || NameOf(containers[i]) == target
  }

  /** The container loop from `i` on, with the target found so far. */
  function FindTarget(containers: seq<Json>, target: string, i: nat, found: Option<nat>): Result<nat>
    requires i <= |containers|
    decreases |containers| - i
  {
    if i == |containers| then if found.Some? then Ok(found.value) else Deny(TargetMissing)
    else if !containers[i].Obj? then Deny(BadContainer)
    else if NameOf(containers[i]) == INIT_NAME then Deny(ReservedContainer)
    else if !Selected(containers, target, i) then FindTarget(containers, target, i + 1, found)
    else if found.Some? then Deny(AmbiguousTarget)
    else FindTarget(containers, target, i + 1, Some(i))
  }

  predicate AllNamed(containers: seq<Json>, i: nat) {
    forall k: nat :: i <= k < |containers| ==> containers[k].Obj? && NameOf(containers[k]) != INIT_NAME
  }

  /** The target is the one selected container, and every container is an object without the reserved name. */
  lemma {:induction false} TargetExact(containers: seq<Json>, target: string, i: nat, found: Option<nat>, t: nat)
    requires i <= |containers|
    ensures FindTarget(containers, target, i, found) == Ok(t)
            <==> && AllNamed(containers, i)
                 && (if found.Some? then
                       t == found.value && forall k: nat :: i <= k < |containers| ==> !Selected(containers, target, k)
                     else i <= t < |containers| && Selected(containers, target, t)
                          && forall k: nat :: i <= k < |containers| && k != t ==> !Selected(containers, target, k))
    decreases |containers| - i
  {
    if i < |containers| && containers[i].Obj? {
      TargetExact(containers, target, i + 1, if Selected(containers, target, i) then Some(i) else found, t);
    }
  }

  /** `instrumentationConflict`. */
  function Conflict(container: Fields): Result<Done> {
    var sources :- SliceField(container, "envFrom");
    :- Need(|sources| == 0, EnvFromPresent);
    var env :- SliceField(container, "env");
    :- Unless(EnvFaultFrom(env, 0));
    var command :- SliceField(container, "command");
    :- Unless(FaultFrom(command, ArgumentFault, 0));
    var args :- SliceField(container, "args");
    :- Unless(FaultFrom(args, ArgumentFault, 0));
    Ok(Done)
  }

  function Locate(c: Chosen): Result<Placement> {
    var spec :- MapField(c.pod, "spec");
    var os :- MapField(spec, "os");
    :- Need(!Differs(os, "name", "linux"), NotLinux);
    var nodeSelector :- MapField(spec, "nodeSelector");
    :- Need(!Differs(nodeSelector, "kubernetes.io/os", "linux"), NotLinuxNode);
    var containers := SliceField(spec, "containers");
    if containers.Deny? || containers.value == [] then Deny(NoContainers)
    else
      var target := TextField(c.annotations, CONTAINER);
      :- Need(|containers.value| <= 1 || target != "", TargetRequired);
      var index :- FindTarget(containers.value, target, 0, None);
      :- Need(TextField(c.metadata, "generateName") != "" || TextField(c.metadata, "name") != "", Unnamed);
      var container := if index < |containers.value| && containers.value[index].Obj?
                       then containers.value[index].fields else map[];
      var done :- Conflict(container);
      Ok(Placement(spec, containers.value, index, container))
  }

  method InstrumentationConflict(container: Fields) returns (r: Result<Done>)
    ensures r == Conflict(container)
  {
    var sources :- SliceField(container, "envFrom");
    :- Need(|sources| == 0, EnvFromPresent);
    var env :- SliceField(container, "env");
    var seen: set<string> := {};
    for i := 0 to |env|
      invariant EnvFaultFrom(env, 0) == EnvFaultFrom(env, i)
      invariant seen == set j: nat | j < i :: NameOf(env[j])
    {
      if !env[i].Obj? { return Deny(BadEnvEntry); }
      var name := TextField(env[i].fields, "name");
      if name == "" || name in seen { return Deny(EnvNames); }
      seen := seen + {name};
      if LoaderName(name) { return Deny(EnvReserved); }
    }
    var command :- SliceField(container, "command");
    var fault := CheckEach(command, ArgumentFault);
    :- Unless(fault);
    var args :- SliceField(container, "args");
    fault := CheckEach(args, ArgumentFault);
    :- Unless(fault);
    return Ok(Done);
  }

  method LocateTarget(c: Chosen) returns (r: Result<Placement>)
    ensures r == Locate(c)
  {
    var spec :- MapField(c.pod, "spec");
    var os :- MapField(spec, "os");
    :- Need(!Differs(os, "name", "linux"), NotLinux);
    var nodeSelector :- MapField(spec, "nodeSelector");
    :- Need(!Differs(nodeSelector, "kubernetes.io/os", "linux"), NotLinuxNode);
    var collection := SliceField(spec, "containers");
    if collection.Deny? || collection.value == [] { return Deny(NoContainers); }
    var containers := collection.value;
    var target := TextField(c.annotations, CONTAINER);
    :- Need(|containers| <= 1 || target != "", TargetRequired);
    var found: Option<nat> := None;
    for i := 0 to |containers|
      invariant FindTarget(containers, target, 0, None) == FindTarget(containers, target, i, found)
      invariant found.Some? ==> found.value < i && containers[found.value].Obj?
    {
      if !containers[i].Obj? { return Deny(BadContainer); }
      var name := TextField(containers[i].fields, "name");
      if name == INIT_NAME { return Deny(ReservedContainer); }
      if (target == "" && |containers| == 1) || name == target {
        if found.Some? { return Deny(AmbiguousTarget); }
        found := Some(i);
      }
    }
    if found.None? { return Deny(TargetMissing); }
    var container := containers[found.value].fields;
    :- Need(TextField(c.metadata, "generateName") != "" || TextField(c.metadata, "name") != "", Unnamed);
    var done :- InstrumentationConflict(container);
    return Ok(Placement(spec, containers, found.value, container));
  }

  // ---------- what is already there ----------

  datatype Stock = Stock(volumes: seq<Json>, initializers: seq<Json>, mounts: seq<Json>, platform: string,
          service: string)

  predicate IsServiceName(s: string) {
    1 <= |s| <= 128 && (IsLetter(s[0]) || IsDigit(s[0]))
    && forall i :: 1 <= i < |s| ==> IsIdentContinue(s[i]) || s[i] == '.' || s[i] == '/' || s[i] == '-'
  }

  function ServiceName(c: Chosen, container: Fields): string {
    var annotated := TextField(c.annotations, SERVICE);
    var labelled := TextField(c.labels, "app.kubernetes.io/name");
    if annotated != "" then annotated else if labelled != "" then labelled else TextField(container, "name")
  }

  function Survey(c: Chosen, p: Placement): Result<Stock> {
    var volumes :- SliceField(p.spec, "volumes");
    :- Unless(FaultFrom(volumes, VolumeFault, 0));
    var initializers :- SliceField(p.spec, "initContainers");
    :- Unless(FaultFrom(initializers, InitializerFault, 0));
    var mounts :- SliceField(p.container, "volumeMounts");
    :- Unless(FaultFrom(mounts, MountFault, 0));
    var platform := TextField(c.annotations, PLATFORM);
    :- Need(platform == "" || (c.runtime == "python" && (platform == "glibc" || platform == "musl")), BadPlatform);
    var service := ServiceName(c, p.container);
    :- Need(IsServiceName(service), BadService);
    Ok(Stock(volumes, initializers, mounts, platform, service))
  }

  method SurveyPod(c: Chosen, p: Placement) returns (r: Result<Stock>)
    ensures r == Survey(c, p)
  {
    var volumes :- SliceField(p.spec, "volumes");
    var fault := CheckEach(volumes, VolumeFault);
    :- Unless(fault);
    var initializers :- SliceField(p.spec, "initContainers");
    fault := CheckEach(initializers, InitializerFault);
    :- Unless(fault);
    var mounts :- SliceField(p.container, "volumeMounts");
    fault := CheckEach(mounts, MountFault);
    :- Unless(fault);
    var platform := TextField(c.annotations, PLATFORM);
    :- Need(platform == "" || (c.runtime == "python" && (platform == "glibc" || platform == "musl")), BadPlatform);
    var service := TextField(c.annotations, SERVICE);
    if service == "" { service := TextField(c.labels, "app.kubernetes.io/name"); }
    if service == "" { service := TextField(p.container, "name"); }
    :- Need(IsServiceName(service), BadService);
    return Ok(Stock(volumes, initializers, mounts, platform, service));
  }

  // ---------- what is added ----------

  function Otel(suffix: string, value: string): (r: (string, string))
    ensures "OTEL_" <= r.0
  {
    ("OTEL_" + suffix, value)
  }

  function ExporterSettings(endpoint: string): seq<(string, string)> {
    [Otel("EXPORTER_OTLP_ENDPOINT", TrimSlash(endpoint)),
     Otel("EXPORTER_OTLP_PROTOCOL", "http/protobuf"),
     Otel("EXPORTER_OTLP_CERTIFICATE", TLS_MOUNT + "/ca.crt"),
     Otel("EXPORTER_OTLP_CLIENT_CERTIFICATE", TLS_MOUNT + "/client.crt"),
     Otel("EXPORTER_OTLP_CLIENT_KEY", TLS_MOUNT + "/client.key"),
     Otel("EXPORTER_OTLP_TIMEOUT", "10000"),
     Otel("TRACES_EXPORTER", "otlp"),
     Otel("METRICS_EXPORTER", "otlp"),
     Otel("LOGS_EXPORTER", "otlp")]
  }

  function TraceSettings(ratio: string): seq<(string, string)> {
    [Otel("PROPAGATORS", "tracecontext"),
     Otel("TRACES_SAMPLER", "parentbased_traceidratio"),
     Otel("TRACES_SAMPLER_ARG", ratio),
     Otel("ATTRIBUTE_VALUE_LENGTH_LIMIT", "2048"),
     Otel("ATTRIBUTE_COUNT_LIMIT", "64"),
     Otel("SPAN_EVENT_COUNT_LIMIT", "64"),
     Otel("SPAN_LINK_COUNT_LIMIT", "16")]
  }

  function BatchSettings(): seq<(string, string)> {
    [Otel("BSP_MAX_QUEUE_SIZE", "2048"),
     Otel("BSP_MAX_EXPORT_BATCH_SIZE", "512"),
     Otel("BSP_SCHEDULE_DELAY", "5000"),
     Otel("BLRP_MAX_QUEUE_SIZE", "2048"),
     Otel("BLRP_MAX_EXPORT_BATCH_SIZE", "512")]
  }

  function IdentitySettings(namespace: string, service: string): seq<(string, string)> {
    [Otel("SERVICE_NAME", service),
     Otel("RESOURCE_ATTRIBUTES", "service.namespace=" + namespace + ",k8s.namespace.name=" + namespace),
     Otel("INSTRUMENTATION_HTTP_CAPTURE_HEADERS_SERVER_REQUEST", ""),
     Otel("INSTRUMENTATION_HTTP_CAPTURE_HEADERS_SERVER_RESPONSE", ""),
     Otel("INSTRUMENTATION_HTTP_CAPTURE_HEADERS_CLIENT_REQUEST", ""),
     Otel("INSTRUMENTATION_HTTP_CAPTURE_HEADERS_CLIENT_RESPONSE", "")]
  }

  /** The 27 settings of every runtime. */
  function BaseSettings(endpoint: string, namespace: string, service: string, ratio: string): seq<(string, string)> {
    ExporterSettings(endpoint) + TraceSettings(ratio) + BatchSettings() + IdentitySettings(namespace, service)
  }

  function JavaSettings(): seq<(string, string)> {
    [("JAVA_TOOL_OPTIONS", "-javaagent:" + SDK_MOUNT + "/javaagent.jar"),
     Otel("INSTRUMENTATION_COMMON_DB_QUERY_SANITIZATION_ENABLED", "true")]
  }

  function NodeSettings(): seq<(string, string)> {
    [("NODE_OPTIONS", "--require=" + SDK_MOUNT + "/autoinstrumentation.js"),
     Otel("NODE_RESOURCE_DETECTORS", "env")]
  }

  function PythonSettings(): seq<(string, string)> {
    [("PYTHONPATH", SDK_MOUNT + "/opentelemetry/instrumentation/auto_instrumentation:" + SDK_MOUNT),
     Otel("PYTHON_LOGGING_AUTO_INSTRUMENTATION_ENABLED", "true")]
  }

  function RuntimeSettings(runtime: string): seq<(string, string)> {
    if runtime == "java" then JavaSettings()
    else if runtime == "nodejs" || runtime == "nodejs20" then NodeSettings()
    else if runtime == "python" then PythonSettings()
    else []
  }

  function EnvEntry(setting: (string, string)): Json { Obj(map["name" := Str(setting.0), "value" := Str(setting.1)]) }

  function EnvEntries(settings: seq<(string, string)>): seq<Json> {
    seq(|settings|, i requires 0 <= i < |settings| => EnvEntry(settings[i]))
  }

  /** `runtimeEnvironment`. */
  function RuntimeEnvironment(runtime: string, endpoint: string, namespace: string, service: string, ratio: string)
      : seq<Json>
  {
    EnvEntries(BaseSettings(endpoint, namespace, service, ratio) + RuntimeSettings(runtime))
  }

  function Strings(texts: seq<string>): Json {
    Arr(seq(|texts|, i requires 0 <= i < |texts| => Str(texts[i])))
  }

  function Command(runtime: string, platform: string): seq<string> {
    if runtime == "python" && platform == "musl" then ["cp", "-R", "/autoinstrumentation-musl/.", SDK_MOUNT + "/"]
    else if runtime == "java" then ["cp", "/javaagent.jar", SDK_MOUNT + "/javaagent.jar"]
    else ["cp", "-R", "/autoinstrumentation/.", SDK_MOUNT + "/"]
  }

  function Initializer(image: string, command: seq<string>): Json {
    Obj(map[
      "name" := Str(INIT_NAME), "image" := Str(image), "imagePullPolicy" := Str("IfNotPresent"),
      "command" := Strings(command),
      "resources" := Obj(map[
        "requests" := Obj(map["cpu" := Str("50m"), "memory" := Str("32Mi")]),
        "limits" := Obj(map["cpu" := Str("500m"), "memory" := Str("128Mi")])]),
      "securityContext" := Obj(map[
        "runAsNonRoot" := Bool(true), "runAsUser" := Num("10001"), "runAsGroup" := Num("10001"),
        "allowPrivilegeEscalation" := Bool(false), "readOnlyRootFilesystem" := Bool(true),
        "capabilities" := Obj(map["drop" := Strings(["ALL"])]),
        "seccompProfile" := Obj(map["type" := Str("RuntimeDefault")])]),
      "volumeMounts" := Arr([Obj(map["name" := Str(SDK_VOLUME), "mountPath" := Str(SDK_MOUNT)])])])
  }

  function KeyPath(file: string): Json { Obj(map["key" := Str(file), "path" := Str(file)]) }

  function NewVolumes(config: Config): seq<Json> {
    [Obj(map["name" := Str(SDK_VOLUME),
             "emptyDir" := Obj(map["sizeLimit" := Str(Dec(config.sdkVolumeSizeMiB) + "Mi")])]),
     Obj(map["name" := Str(TLS_VOLUME),
             "secret" := Obj(map["secretName" := Str(config.tlsSecretName), "defaultMode" := Num("292"),
                                 "items" := Arr([KeyPath("ca.crt"), KeyPath("client.crt"), KeyPath("client.key")])])])]
  }

  function NewMount(name: string, path: string): Json {
    Obj(map["name" := Str(name), "mountPath" := Str(path), "readOnly" := Bool(true)])
  }

  function NewMounts(): seq<Json> { [NewMount(SDK_VOLUME, SDK_MOUNT), NewMount(TLS_VOLUME, TLS_MOUNT)] }

  /** Everything that one injection adds. */
  datatype Additions = Additions(volumes: seq<Json>, initializer: Json, mounts: seq<Json>, env: seq<Json>,
          runtime: string)

  function AdditionsFor(config: Config, request: Request, c: Chosen, s: Stock): Additions {
    var image := if c.runtime in config.images then config.images[c.runtime] else "";
    Additions(NewVolumes(config), Initializer(image, Command(c.runtime, s.platform)), NewMounts(),
              RuntimeEnvironment(c.runtime, config.endpoint, request.namespace, s.service, config.samplingRatio),
              c.runtime)
  }

  // ---------- the patch ----------

  function ContainerPath(index: nat, field: string): string { "/spec/containers/" + Dec(index) + "/" + field }

  predicate Present(o: Fields, key: string) { key in o && !o[key].Null? }

  function EnvOps(p: Placement, env: seq<Json>): seq<Add> {
    if Present(p.container, "env")
    then seq(|env|, i requires 0 <= i < |env| => Add(ContainerPath(p.index, "env/-"), env[i]))
    else [Add(ContainerPath(p.index, "env"), Arr(env))]
  }

  function MarkerOp(metadata: Fields, runtime: string): Add {
    if Present(metadata, "annotations") then Add("/metadata/annotations/" + PointerEscape(MARKER), Str(runtime))
    else Add("/metadata/annotations", Obj(map[MARKER := Str(runtime)]))
  }

  function Patch(c: Chosen, p: Placement, s: Stock, a: Additions): seq<Add> {
    [Add("/spec/volumes", Arr(s.volumes + a.volumes)),
     Add("/spec/initContainers", Arr(s.initializers + [a.initializer])),
     Add(ContainerPath(p.index, "volumeMounts"), Arr(s.mounts + a.mounts))]
    + EnvOps(p, a.env) + [MarkerOp(c.metadata, a.runtime)]
  }

  /** `admit`: no operations when the Pod is left alone. */
  function Admit(config: Config, request: Request): Result<seq<Add>> {
    var chosen :- Choose(config, request);
    if chosen.None? then Ok([])
    else
      var p :- Locate(chosen.value);
      var s :- Survey(chosen.value, p);
      Ok(Patch(chosen.value, p, s, AdditionsFor(config, request, chosen.value, s)))
  }

  method MakeEnvironment(runtime: string, endpoint: string, namespace: string, service: string, ratio: string)
    returns (result: seq<Json>)
    ensures result == RuntimeEnvironment(runtime, endpoint, namespace, service, ratio)
  {
    hide BaseSettings, RuntimeSettings;
    var values := BaseSettings(endpoint, namespace, service, ratio);
    values := values + RuntimeSettings(runtime);
    result := [];
    for i := 0 to |values|
      invariant result == EnvEntries(values)[..i]
    {
      result := result + [EnvEntry(values[i])];
    }
  }

  method AdmitPod(config: Config, request: Request) returns (r: Result<seq<Add>>)
    ensures r == Admit(config, request)
  {
    hide Choose, Locate, Survey, NewVolumes, Initializer, NewMounts, RuntimeEnvironment, ContainerPath, MarkerOp;
    var chosen :- ChoosePod(config, request);
    if chosen.None? { return Ok([]); }
    var c := chosen.value;
    var p :- LocateTarget(c);
    var s :- SurveyPod(c, p);
    var env := MakeEnvironment(c.runtime, config.endpoint, request.namespace, s.service, config.samplingRatio);
    var image := if c.runtime in config.images then config.images[c.runtime] else "";
    var patch := [
      Add("/spec/volumes", Arr(s.volumes + NewVolumes(config))),
      Add("/spec/initContainers", Arr(s.initializers + [Initializer(image, Command(c.runtime, s.platform))])),
      Add(ContainerPath(p.index, "volumeMounts"), Arr(s.mounts + NewMounts()))];
    if Present(p.container, "env") {
      ghost var first := patch;
      for i := 0 to |env|
        invariant patch == first + EnvOps(p, env)[..i]
      {
        patch := patch + [Add(ContainerPath(p.index, "env/-"), env[i])];
      }
      assert EnvOps(p, env)[..|env|] == EnvOps(p, env);
    } else {
      patch := patch + [Add(ContainerPath(p.index, "env"), Arr(env))];
    }
    patch := patch + [MarkerOp(c.metadata, c.runtime)];
    return Ok(patch);
  }
}
