/** How the parts of an injected Pod fit together: looked up by name and path in the patched Pod itself. */
module AdmissionCoherence {
  import opened Bytes
  import opened Decimals
  import opened JsonPatch
  import opened Admission
  import opened AdmissionLaws
  import opened AdmissionCollisions

  /** Where the target finds the agent, and its certificates. */
  const AGENT: string := "/elven-auto"

  const CERTIFICATES: string := "/var/run/elven/tls"

  function PythonPath(): string { AGENT + "/opentelemetry/instrumentation/auto_instrumentation:" + AGENT }

  // ---------- looking things up ----------

  /** The first object of that name. */
  function Find(xs: seq<Json>, name: string): Option<Fields> {
    if xs == [] then None
    else if xs[0].Obj? && NameOf(xs[0]) == name then Some(xs[0].fields)
    else Find(xs[1..], name)
  }

  /** The first mount at that path. */
  function MountedAt(mounts: seq<Json>, path: string): Option<Fields> {
    if mounts == [] then None
    else if mounts[0].Obj? && TextField(mounts[0].fields, "mountPath") == path then Some(mounts[0].fields)
    else MountedAt(mounts[1..], path)
  }

  /** The value of an environment variable. */
  function Setting(env: seq<Json>, name: string): Option<string> {
    match Find(env, name)
    case None => None
    case Some(entry) => Some(TextField(entry, "value"))
  }

  lemma {:induction false} FindLater(xs: seq<Json>, ys: seq<Json>, name: string)
    requires forall k: nat :: k < |xs| ==> NameOf(xs[k]) != name
    ensures Find(xs + ys, name) == Find(ys, name)
    decreases |xs|
  {
    if xs == [] {
      assert xs + ys == ys;
    } else {
      assert (xs + ys)[1..] == xs[1..] + ys;
      FindLater(xs[1..], ys, name);
    }
  }

  lemma {:induction false} MountedLater(xs: seq<Json>, ys: seq<Json>, path: string)
    requires forall k: nat :: k < |xs| ==> !(xs[k].Obj? && TextField(xs[k].fields, "mountPath") == path)
    ensures MountedAt(xs + ys, path) == MountedAt(ys, path)
    decreases |xs|
  {
    if xs == [] {
      assert xs + ys == ys;
    } else {
      assert (xs + ys)[1..] == xs[1..] + ys;
      MountedLater(xs[1..], ys, path);
    }
  }

  // ---------- how the parts fit ----------

  /** The program that fills the agent's directory for a runtime and a platform. */
  function CopyCommand(runtime: string, platform: string): Json {
    if runtime == "java" then Arr([Str("cp"), Str("/javaagent.jar"), Str(AGENT + "/javaagent.jar")])
    else if runtime == "python" && platform == "musl"
    then Arr([Str("cp"), Str("-R"), Str("/autoinstrumentation-musl/."), Str(AGENT + "/")])
    else Arr([Str("cp"), Str("-R"), Str("/autoinstrumentation/."), Str(AGENT + "/")])
  }

  /** The agent's directory in the target is an empty volume, read-only there; the init container mounts the same volume
      at the same place, may write to it, and copies the agent of the chosen runtime and platform into it. */
  ghost predicate AgentFits(config: Config, spec: Fields, container: Fields, runtime: string, platform: string) {
    var mount := MountedAt(ListOf(container, "volumeMounts"), AGENT);
    var init := Find(ListOf(spec, "initContainers"), "elven-instrumentation-init");
    mount.Some? && init.Some? &&
    var volume := Find(ListOf(spec, "volumes"), TextField(mount.value, "name"));
    && Has(mount.value, "readOnly", Bool(true))
    && volume.Some? && Has(volume.value, "emptyDir", Obj(map["sizeLimit" := Str(Dec(config.sdkVolumeSizeMiB) + "Mi")]))
    && ListOf(init.value, "volumeMounts")
       == [Obj(map["name" := Str(TextField(mount.value, "name")), "mountPath" := Str(AGENT)])]
    && runtime in config.images && TextField(init.value, "image") == config.images[runtime]
    && Has(init.value, "command", CopyCommand(runtime, platform))
  }

  predicate Has(o: Fields, key: string, value: Json) { key in o && o[key] == value }

  /** The init container runs without privileges. */
  ghost predicate Unprivileged(spec: Fields) {
    var init := Find(ListOf(spec, "initContainers"), "elven-instrumentation-init");
    init.Some? &&
    var context := Under(init.value, "securityContext");
    && Has(context, "runAsNonRoot", Bool(true)) && Has(context, "allowPrivilegeEscalation", Bool(false))
    && Has(context, "readOnlyRootFilesystem", Bool(true))
    && Has(context, "runAsUser", Num("10001")) && Has(context, "runAsGroup", Num("10001"))
    && ListOf(Under(context, "capabilities"), "drop") == [Str("ALL")]
    && TextField(Under(context, "seccompProfile"), "type") == "RuntimeDefault"
  }

  /** And within bounds: what it asks for, and what it may use. */
  ghost predicate Bounded(spec: Fields) {
    var init := Find(ListOf(spec, "initContainers"), "elven-instrumentation-init");
    init.Some? && TextField(init.value, "imagePullPolicy") == "IfNotPresent" &&
    var resources := Under(init.value, "resources");
    && Under(resources, "requests") == map["cpu" := Str("50m"), "memory" := Str("32Mi")]
    && Under(resources, "limits") == map["cpu" := Str("500m"), "memory" := Str("128Mi")]
  }

  /** The certificate directory in the target is the configured secret, read-only, with the three files by key. */
  ghost predicate CertificatesFit(config: Config, spec: Fields, container: Fields) {
    var mount := MountedAt(ListOf(container, "volumeMounts"), CERTIFICATES);
    mount.Some? &&
    var volume := Find(ListOf(spec, "volumes"), TextField(mount.value, "name"));
    volume.Some? &&
    var secret := Under(volume.value, "secret");
    && Has(mount.value, "readOnly", Bool(true)) && TextField(secret, "secretName") == config.tlsSecretName
    && Has(secret, "defaultMode", Num("292"))
    && ListOf(secret, "items")
       == [Obj(map["key" := Str("ca.crt"), "path" := Str("ca.crt")]),
           Obj(map["key" := Str("client.crt"), "path" := Str("client.crt")]),
           Obj(map["key" := Str("client.key"), "path" := Str("client.key")])]
  }

  /** The exporter finds its three files in the certificate directory. */
  predicate CertificateSettings(env: seq<Json>) {
    && Setting(env, "OTEL_" + "EXPORTER_OTLP_CERTIFICATE") == Some(CERTIFICATES + "/ca.crt")
    && Setting(env, "OTEL_" + "EXPORTER_OTLP_CLIENT_CERTIFICATE") == Some(CERTIFICATES + "/client.crt")
    && Setting(env, "OTEL_" + "EXPORTER_OTLP_CLIENT_KEY") == Some(CERTIFICATES + "/client.key")
  }

  /** The runtime loads its agent from the agent's directory. */
  predicate AgentSettings(env: seq<Json>, runtime: string) {
    && (runtime == "java" ==> Setting(env, "JAVA_TOOL_OPTIONS") == Some("-javaagent:" + AGENT + "/javaagent.jar"))
    && (runtime == "nodejs" || runtime == "nodejs20" ==>
          Setting(env, "NODE_OPTIONS") == Some("--require=" + AGENT + "/autoinstrumentation.js"))
    && (runtime == "python" ==> Setting(env, "PYTHONPATH") == Some(PythonPath()))
  }

  /** The settings that carry the configuration and the Pod's identity, and the headers that are never captured. */
  predicate IdentityFits(env: seq<Json>, config: Config, namespace: string, service: string) {
    && Setting(env, "OTEL_" + "EXPORTER_OTLP_ENDPOINT") == Some(TrimSlash(config.endpoint))
    && Setting(env, "OTEL_" + "SERVICE_NAME") == Some(service)
    && Setting(env, "OTEL_" + "RESOURCE_ATTRIBUTES")
       == Some("service.namespace=" + namespace + ",k8s.namespace.name=" + namespace)
    && Setting(env, "OTEL_" + "TRACES_SAMPLER") == Some("parentbased_traceidratio")
    && Setting(env, "OTEL_" + "TRACES_SAMPLER_ARG") == Some(config.samplingRatio)
    && Setting(env, "OTEL_" + "INSTRUMENTATION_HTTP_CAPTURE_HEADERS_SERVER_REQUEST") == Some("")
    && Setting(env, "OTEL_" + "INSTRUMENTATION_HTTP_CAPTURE_HEADERS_SERVER_RESPONSE") == Some("")
    && Setting(env, "OTEL_" + "INSTRUMENTATION_HTTP_CAPTURE_HEADERS_CLIENT_REQUEST") == Some("")
    && Setting(env, "OTEL_" + "INSTRUMENTATION_HTTP_CAPTURE_HEADERS_CLIENT_RESPONSE") == Some("")
  }

  /** All signals go out as OTLP over HTTP, with trace context only, and within these limits. */
  predicate ExportFits(env: seq<Json>, runtime: string) {
    && Setting(env, "OTEL_" + "EXPORTER_OTLP_PROTOCOL") == Some("http/protobuf")
    && Setting(env, "OTEL_" + "EXPORTER_OTLP_TIMEOUT") == Some("10000")
    && Setting(env, "OTEL_" + "TRACES_EXPORTER") == Some("otlp")
    && Setting(env, "OTEL_" + "METRICS_EXPORTER") == Some("otlp")
    && Setting(env, "OTEL_" + "LOGS_EXPORTER") == Some("otlp")
    && LimitsFit(env) && BatchesFit(env) && RuntimeFits(env, runtime)
  }

  predicate LimitsFit(env: seq<Json>) {
    && Setting(env, "OTEL_" + "PROPAGATORS") == Some("tracecontext")
    && Setting(env, "OTEL_" + "ATTRIBUTE_VALUE_LENGTH_LIMIT") == Some("2048")
    && Setting(env, "OTEL_" + "ATTRIBUTE_COUNT_LIMIT") == Some("64")
    && Setting(env, "OTEL_" + "SPAN_EVENT_COUNT_LIMIT") == Some("64")
    && Setting(env, "OTEL_" + "SPAN_LINK_COUNT_LIMIT") == Some("16")
  }

  predicate BatchesFit(env: seq<Json>) {
    && Setting(env, "OTEL_" + "BSP_MAX_QUEUE_SIZE") == Some("2048")
    && Setting(env, "OTEL_" + "BSP_MAX_EXPORT_BATCH_SIZE") == Some("512")
    && Setting(env, "OTEL_" + "BSP_SCHEDULE_DELAY") == Some("5000")
    && Setting(env, "OTEL_" + "BLRP_MAX_QUEUE_SIZE") == Some("2048")
    && Setting(env, "OTEL_" + "BLRP_MAX_EXPORT_BATCH_SIZE") == Some("512")
  }

  /** What one runtime has and the others do not. */
  predicate RuntimeFits(env: seq<Json>, runtime: string) {
    && (runtime == "java" ==>
          Setting(env, "OTEL_" + "INSTRUMENTATION_COMMON_DB_QUERY_SANITIZATION_ENABLED") == Some("true"))
    && (runtime == "nodejs" || runtime == "nodejs20" ==>
          Setting(env, "OTEL_" + "NODE_RESOURCE_DETECTORS") == Some("env"))
    && (runtime == "python" ==>
          Setting(env, "OTEL_" + "PYTHON_LOGGING_AUTO_INSTRUMENTATION_ENABLED") == Some("true"))
  }

  /** The service is named by the annotation, else by the label, else by the container. */
  function NamedService(pod: Fields, container: Fields): string {
    var metadata := Under(pod, "metadata");
    var annotated := TextField(Under(metadata, "annotations"), "elven.observability/service-name");
    var labelled := TextField(Under(metadata, "labels"), "app.kubernetes.io/name");
    if annotated != "" then annotated else if labelled != "" then labelled else TextField(container, "name")
  }

  /** All of it, read off the patched Pod and the container that was chosen in it. */
  ghost predicate Coherent(config: Config, namespace: string, pod: Fields, index: nat) {
    var spec := Under(pod, "spec");
    var containers := ListOf(spec, "containers");
    index < |containers| && containers[index].Obj? &&
    var container, metadata := containers[index].fields, Under(pod, "metadata");
    var env, runtime := ListOf(container, "env"), TextField(Under(metadata, "labels"), "elven.observability/inject");
    var platform := TextField(Under(metadata, "annotations"), "elven.observability/python-platform");
    && AgentFits(config, spec, container, runtime, platform) && Unprivileged(spec)
    && Bounded(spec) && CertificatesFit(config, spec, container) && ExportFits(env, runtime)
    && CertificateSettings(env) && AgentSettings(env, runtime)
    && IdentityFits(env, config, namespace, NamedService(pod, container))
    && TextField(Under(metadata, "annotations"), "elven.observability/injected") == runtime
  }

  // ---------- the generated settings ----------

  lemma SettingAt(old_: seq<Json>, settings: seq<(string, string)>, j: nat)
    requires DistinctNames(old_ + EnvEntries(settings)) && j < |settings|
    ensures Setting(old_ + EnvEntries(settings), settings[j].0) == Some(settings[j].1)
  {
    var env := old_ + EnvEntries(settings);
    var before, name := env[..|old_| + j], settings[j].0;
    assert env[|old_| + j] == EnvEntry(settings[j]) && NameOf(EnvEntry(settings[j])) == name;
    assert env == before + env[|old_| + j..];
    FindLater(before, env[|old_| + j..], name);
  }

  lemma SettingListed(old_: seq<Json>, settings: seq<(string, string)>, name: string, value: string)
    requires DistinctNames(old_ + EnvEntries(settings)) && (name, value) in settings
    ensures Setting(old_ + EnvEntries(settings), name) == Some(value)
  {
    hide EnvEntries, DistinctNames, Setting;
    var j :| 0 <= j < |settings| && settings[j] == (name, value);
    SettingAt(old_, settings, j);
  }

  lemma ExporterListed(endpoint: string)
    ensures var r := ExporterSettings(endpoint);
            && ("OTEL_" + "EXPORTER_OTLP_ENDPOINT", TrimSlash(endpoint)) in r
            && ("OTEL_" + "EXPORTER_OTLP_CERTIFICATE", CERTIFICATES + "/ca.crt") in r
            && ("OTEL_" + "EXPORTER_OTLP_CLIENT_CERTIFICATE", CERTIFICATES + "/client.crt") in r
            && ("OTEL_" + "EXPORTER_OTLP_CLIENT_KEY", CERTIFICATES + "/client.key") in r
  {
    hide TrimSlash;
    var r := ExporterSettings(endpoint);
    assert r[0] == ("OTEL_" + "EXPORTER_OTLP_ENDPOINT", TrimSlash(endpoint));
    assert r[2] == ("OTEL_" + "EXPORTER_OTLP_CERTIFICATE", CERTIFICATES + "/ca.crt");
    assert r[3] == ("OTEL_" + "EXPORTER_OTLP_CLIENT_CERTIFICATE", CERTIFICATES + "/client.crt");
    assert r[4] == ("OTEL_" + "EXPORTER_OTLP_CLIENT_KEY", CERTIFICATES + "/client.key");
  }

  lemma SignalsListed(endpoint: string)
    ensures var r := ExporterSettings(endpoint);
            && ("OTEL_" + "EXPORTER_OTLP_PROTOCOL", "http/protobuf") in r
            && ("OTEL_" + "EXPORTER_OTLP_TIMEOUT", "10000") in r && ("OTEL_" + "TRACES_EXPORTER", "otlp") in r
            && ("OTEL_" + "METRICS_EXPORTER", "otlp") in r && ("OTEL_" + "LOGS_EXPORTER", "otlp") in r
  {
    hide TrimSlash;
    var r := ExporterSettings(endpoint);
    assert r[1] == ("OTEL_" + "EXPORTER_OTLP_PROTOCOL", "http/protobuf");
    assert r[5] == ("OTEL_" + "EXPORTER_OTLP_TIMEOUT", "10000");
    assert r[6] == ("OTEL_" + "TRACES_EXPORTER", "otlp");
    assert r[7] == ("OTEL_" + "METRICS_EXPORTER", "otlp");
    assert r[8] == ("OTEL_" + "LOGS_EXPORTER", "otlp");
  }

  lemma LimitsListed(ratio: string)
    ensures var r := TraceSettings(ratio);
            && ("OTEL_" + "PROPAGATORS", "tracecontext") in r
            && ("OTEL_" + "ATTRIBUTE_VALUE_LENGTH_LIMIT", "2048") in r
            && ("OTEL_" + "ATTRIBUTE_COUNT_LIMIT", "64") in r
            && ("OTEL_" + "SPAN_EVENT_COUNT_LIMIT", "64") in r && ("OTEL_" + "SPAN_LINK_COUNT_LIMIT", "16") in r
  {
    var r := TraceSettings(ratio);
    assert r[0] == ("OTEL_" + "PROPAGATORS", "tracecontext");
    assert r[3] == ("OTEL_" + "ATTRIBUTE_VALUE_LENGTH_LIMIT", "2048");
    assert r[4] == ("OTEL_" + "ATTRIBUTE_COUNT_LIMIT", "64");
    assert r[5] == ("OTEL_" + "SPAN_EVENT_COUNT_LIMIT", "64");
    assert r[6] == ("OTEL_" + "SPAN_LINK_COUNT_LIMIT", "16");
  }

  lemma BatchListed()
    ensures var r := BatchSettings();
            && ("OTEL_" + "BSP_MAX_QUEUE_SIZE", "2048") in r && ("OTEL_" + "BSP_MAX_EXPORT_BATCH_SIZE", "512") in r
            && ("OTEL_" + "BSP_SCHEDULE_DELAY", "5000") in r && ("OTEL_" + "BLRP_MAX_QUEUE_SIZE", "2048") in r
            && ("OTEL_" + "BLRP_MAX_EXPORT_BATCH_SIZE", "512") in r
  {
    var r := BatchSettings();
    assert r[0] == ("OTEL_" + "BSP_MAX_QUEUE_SIZE", "2048");
    assert r[1] == ("OTEL_" + "BSP_MAX_EXPORT_BATCH_SIZE", "512");
    assert r[2] == ("OTEL_" + "BSP_SCHEDULE_DELAY", "5000");
    assert r[3] == ("OTEL_" + "BLRP_MAX_QUEUE_SIZE", "2048");
    assert r[4] == ("OTEL_" + "BLRP_MAX_EXPORT_BATCH_SIZE", "512");
  }

  lemma TraceListed(ratio: string)
    ensures var r := TraceSettings(ratio);
            && ("OTEL_" + "TRACES_SAMPLER", "parentbased_traceidratio") in r
            && ("OTEL_" + "TRACES_SAMPLER_ARG", ratio) in r
  {
    var r := TraceSettings(ratio);
    assert r[1] == ("OTEL_" + "TRACES_SAMPLER", "parentbased_traceidratio");
    assert r[2] == ("OTEL_" + "TRACES_SAMPLER_ARG", ratio);
  }

  lemma IdentityListed(namespace: string, service: string)
    ensures var r := IdentitySettings(namespace, service);
            && ("OTEL_" + "SERVICE_NAME", service) in r
            && ("OTEL_" + "RESOURCE_ATTRIBUTES",
                "service.namespace=" + namespace + ",k8s.namespace.name=" + namespace) in r
  {
    var r := IdentitySettings(namespace, service);
    assert r[0] == ("OTEL_" + "SERVICE_NAME", service);
    assert r[1]
        == ("OTEL_" + "RESOURCE_ATTRIBUTES", "service.namespace=" + namespace + ",k8s.namespace.name=" + namespace);
  }

  lemma HeadersListed(namespace: string, service: string)
    ensures var r := IdentitySettings(namespace, service);
            && ("OTEL_" + "INSTRUMENTATION_HTTP_CAPTURE_HEADERS_SERVER_REQUEST", "") in r
            && ("OTEL_" + "INSTRUMENTATION_HTTP_CAPTURE_HEADERS_SERVER_RESPONSE", "") in r
            && ("OTEL_" + "INSTRUMENTATION_HTTP_CAPTURE_HEADERS_CLIENT_REQUEST", "") in r
            && ("OTEL_" + "INSTRUMENTATION_HTTP_CAPTURE_HEADERS_CLIENT_RESPONSE", "") in r
  {
    var r := IdentitySettings(namespace, service);
    assert r[2] == ("OTEL_" + "INSTRUMENTATION_HTTP_CAPTURE_HEADERS_SERVER_REQUEST", "");
    assert r[3] == ("OTEL_" + "INSTRUMENTATION_HTTP_CAPTURE_HEADERS_SERVER_RESPONSE", "");
    assert r[4] == ("OTEL_" + "INSTRUMENTATION_HTTP_CAPTURE_HEADERS_CLIENT_REQUEST", "");
    assert r[5] == ("OTEL_" + "INSTRUMENTATION_HTTP_CAPTURE_HEADERS_CLIENT_RESPONSE", "");
  }

  lemma RuntimeListed(runtime: string)
    ensures var r := RuntimeSettings(runtime);
            && (runtime == "java" ==> ("JAVA_TOOL_OPTIONS", "-javaagent:" + AGENT + "/javaagent.jar") in r)
            && (runtime == "nodejs" || runtime == "nodejs20" ==>
                  ("NODE_OPTIONS", "--require=" + AGENT + "/autoinstrumentation.js") in r)
            && (runtime == "python" ==> ("PYTHONPATH", PythonPath()) in r)
    ensures var r := RuntimeSettings(runtime);
            && (runtime == "java" ==>
                  ("OTEL_" + "INSTRUMENTATION_COMMON_DB_QUERY_SANITIZATION_ENABLED", "true") in r)
            && (runtime == "nodejs" || runtime == "nodejs20" ==> ("OTEL_" + "NODE_RESOURCE_DETECTORS", "env") in r)
            && (runtime == "python" ==> ("OTEL_" + "PYTHON_LOGGING_AUTO_INSTRUMENTATION_ENABLED", "true") in r)
  {
    JavaListed();
    NodeListed();
    PythonListed();
    hide JavaSettings, NodeSettings, PythonSettings;
  }

  lemma JavaListed()
    ensures ("JAVA_TOOL_OPTIONS", "-javaagent:" + AGENT + "/javaagent.jar") in JavaSettings()
    ensures ("OTEL_" + "INSTRUMENTATION_COMMON_DB_QUERY_SANITIZATION_ENABLED", "true") in JavaSettings()
  {
    assert JavaSettings()[1] == ("OTEL_" + "INSTRUMENTATION_COMMON_DB_QUERY_SANITIZATION_ENABLED", "true");
    assert JavaSettings()[0] == ("JAVA_TOOL_OPTIONS", "-javaagent:" + AGENT + "/javaagent.jar");
  }

  lemma NodeListed()
    ensures ("NODE_OPTIONS", "--require=" + AGENT + "/autoinstrumentation.js") in NodeSettings()
    ensures ("OTEL_" + "NODE_RESOURCE_DETECTORS", "env") in NodeSettings()
  {
    assert NodeSettings()[1] == ("OTEL_" + "NODE_RESOURCE_DETECTORS", "env");
    assert NodeSettings()[0] == ("NODE_OPTIONS", "--require=" + AGENT + "/autoinstrumentation.js");
  }

  lemma PythonListed()
    ensures ("PYTHONPATH", PythonPath()) in PythonSettings()
    ensures ("OTEL_" + "PYTHON_LOGGING_AUTO_INSTRUMENTATION_ENABLED", "true") in PythonSettings()
  {
    assert PythonSettings()[1] == ("OTEL_" + "PYTHON_LOGGING_AUTO_INSTRUMENTATION_ENABLED", "true");
    assert PythonSettings()[0] == ("PYTHONPATH", PythonPath());
  }

  // ---------- the patched Pod ----------

  lemma ChosenReads(config: Config, request: Request, c: Chosen)
    requires Choose(config, request) == Ok(Some(c))
    ensures MapField(c.metadata, "labels") == Ok(c.labels) && TextField(c.labels, INJECT_LABEL) == c.runtime
  {
    hide ActiveOtel, ForeignActive;
  }

  lemma StockReads(c: Chosen, p: Placement, s: Stock)
    requires Survey(c, p) == Ok(s)
    ensures s.platform == TextField(c.annotations, PLATFORM) && s.service == ServiceName(c, p.container)
  {
    hide FaultFrom, IsServiceName, ServiceName;
  }

  /** Where the parts of the patched Pod are. */
  lemma PatchedSpec(c: Chosen, p: Placement, s: Stock, a: Additions)
    requires p.index < |p.containers|
    ensures var spec := Under(InjectedPod(c, p, s, a), "spec");
            && ListOf(spec, "volumes") == s.volumes + a.volumes
            && ListOf(spec, "initContainers") == s.initializers + [a.initializer]
            && ListOf(spec, "containers") == p.containers[p.index := Obj(InjectedContainer(p, s, a))]
    ensures var container := InjectedContainer(p, s, a);
            && ListOf(container, "volumeMounts") == s.mounts + a.mounts
            && ListOf(container, "env") == EnvOf(p.container) + a.env
            && TextField(container, "name") == TextField(p.container, "name")
  {}

  lemma PatchedMetadata(config: Config, request: Request, c: Chosen, p: Placement, s: Stock, a: Additions)
    requires Choose(config, request) == Ok(Some(c)) && p.index < |p.containers|
    ensures var metadata := Under(InjectedPod(c, p, s, a), "metadata");
            && Under(metadata, "labels") == c.labels
            && Under(metadata, "annotations") == c.annotations[MARKER := Str(a.runtime)]
  {
    ChosenReads(config, request, c);
    hide Choose, InjectedSpec, InjectedContainer;
  }

  lemma OtherAnnotations(annotations: Fields, runtime: string)
    ensures var marked := annotations[MARKER := Str(runtime)];
            && TextField(marked, MARKER) == runtime
            && TextField(marked, PLATFORM) == TextField(annotations, PLATFORM)
            && TextField(marked, SERVICE) == TextField(annotations, SERVICE)
  {
    assert |MARKER| == 28 && |PLATFORM| == 35 && |SERVICE| == 32;
  }

  // ---------- volumes and mounts ----------

  /** The volumes and mounts that existed have none of the new names and paths. */
  predicate Room(s: Stock) {
    && NoneNamed(s.volumes, SDK_VOLUME) && NoneNamed(s.volumes, TLS_VOLUME) && NoneNamed(s.initializers, INIT_NAME)
    && forall k: nat :: k < |s.mounts| ==>
         s.mounts[k].Obj? && TextField(s.mounts[k].fields, "mountPath") != AGENT
         && TextField(s.mounts[k].fields, "mountPath") != CERTIFICATES
  }

  lemma NotReserved(mount: Json)
    requires MountFault(mount).None?
    ensures mount.Obj? && TextField(mount.fields, "mountPath") != AGENT
    ensures TextField(mount.fields, "mountPath") != CERTIFICATES
  {
    assert TrimSlash(AGENT) == AGENT && TrimSlash(CERTIFICATES) == CERTIFICATES;
  }

  lemma StockHasRoom(config: Config, request: Request, c: Chosen, p: Placement, s: Stock)
    requires Accepts(config, request, c, p, s)
    ensures Room(s)
  {
    hide Choose, Locate, Survey, DistinctNames, AdditionsFor, AllApart, FaultFrom, MountFault;
    NothingCollides(config, request, c, p, s);
    StockFacts(c, p, s);
    forall k: nat | k < |s.mounts|
      ensures s.mounts[k].Obj? && TextField(s.mounts[k].fields, "mountPath") != AGENT
              && TextField(s.mounts[k].fields, "mountPath") != CERTIFICATES
    {
      assert MountFault(s.mounts[k]).None?;
      NotReserved(s.mounts[k]);
    }
  }

  lemma NewMountsFound(mounts: seq<Json>)
    requires forall k: nat :: k < |mounts| ==>
               mounts[k].Obj? && TextField(mounts[k].fields, "mountPath") != AGENT
               && TextField(mounts[k].fields, "mountPath") != CERTIFICATES
    ensures MountedAt(mounts + NewMounts(), AGENT) == Some(NewMount(SDK_VOLUME, SDK_MOUNT).fields)
    ensures MountedAt(mounts + NewMounts(), CERTIFICATES) == Some(NewMount(TLS_VOLUME, TLS_MOUNT).fields)
  {
    MountedLater(mounts, NewMounts(), AGENT);
    MountedLater(mounts, NewMounts(), CERTIFICATES);
    var n := NewMounts();
    assert |AGENT| == 11 && |CERTIFICATES| == 18;
    assert n[1..] == [NewMount(TLS_VOLUME, TLS_MOUNT)];
    assert MountedAt(n, CERTIFICATES) == MountedAt(n[1..], CERTIFICATES);
  }

  lemma NewVolumesFound(volumes: seq<Json>, config: Config)
    requires NoneNamed(volumes, SDK_VOLUME) && NoneNamed(volumes, TLS_VOLUME)
    ensures Find(volumes + NewVolumes(config), SDK_VOLUME) == Some(NewVolumes(config)[0].fields)
    ensures Find(volumes + NewVolumes(config), TLS_VOLUME) == Some(NewVolumes(config)[1].fields)
  {
    hide Dec;
    FindLater(volumes, NewVolumes(config), SDK_VOLUME);
    FindLater(volumes, NewVolumes(config), TLS_VOLUME);
    var n := NewVolumes(config);
    assert |SDK_VOLUME| == 21 && |TLS_VOLUME| == 25;
    assert n[1..] == [n[1]];
    assert Find(n, TLS_VOLUME) == Find(n[1..], TLS_VOLUME);
  }

  lemma InitializerFound(initializers: seq<Json>, a: Json)
    requires NoneNamed(initializers, INIT_NAME) && a.Obj? && NameOf(a) == INIT_NAME
    ensures Find(initializers + [a], INIT_NAME) == Some(a.fields)
  {
    FindLater(initializers, [a], INIT_NAME);
  }

  lemma CommandIs(runtime: string, platform: string)
    ensures Strings(Command(runtime, platform)) == CopyCommand(runtime, platform)
  {}

  /** The parts of the new init container. */
  lemma InitializerParts(image: string, command: seq<string>)
    ensures var init := Initializer(image, command);
            && init.Obj? && NameOf(init) == INIT_NAME && TextField(init.fields, "image") == image
            && Has(init.fields, "command", Strings(command))
            && ListOf(init.fields, "volumeMounts")
               == [Obj(map["name" := Str(SDK_VOLUME), "mountPath" := Str(SDK_MOUNT)])]
    ensures var context := Under(Initializer(image, command).fields, "securityContext");
            && Has(context, "runAsNonRoot", Bool(true)) && Has(context, "allowPrivilegeEscalation", Bool(false))
            && Has(context, "readOnlyRootFilesystem", Bool(true))
            && Has(context, "runAsUser", Num("10001")) && Has(context, "runAsGroup", Num("10001"))
            && ListOf(Under(context, "capabilities"), "drop") == [Str("ALL")]
            && TextField(Under(context, "seccompProfile"), "type") == "RuntimeDefault"
  {}

  lemma InitializerBounds(image: string, command: seq<string>)
    ensures var init := Initializer(image, command);
            && init.Obj? && TextField(init.fields, "imagePullPolicy") == "IfNotPresent"
            && Under(Under(init.fields, "resources"), "requests") == map["cpu" := Str("50m"), "memory" := Str("32Mi")]
            && Under(Under(init.fields, "resources"), "limits") == map["cpu" := Str("500m"), "memory" := Str("128Mi")]
  {
    hide Strings;
  }

  lemma MountParts()
    ensures forall name, path ::
              && NewMount(name, path).Obj? && TextField(NewMount(name, path).fields, "name") == name
              && Has(NewMount(name, path).fields, "readOnly", Bool(true))
  {}

  lemma VolumeParts(config: Config)
    ensures var v := NewVolumes(config);
            && |v| == 2 && v[0].Obj? && v[1].Obj?
            && Has(v[0].fields, "emptyDir", Obj(map["sizeLimit" := Str(Dec(config.sdkVolumeSizeMiB) + "Mi")]))
            && TextField(Under(v[1].fields, "secret"), "secretName") == config.tlsSecretName
            && Has(Under(v[1].fields, "secret"), "defaultMode", Num("292"))
            && ListOf(Under(v[1].fields, "secret"), "items")
               == [Obj(map["key" := Str("ca.crt"), "path" := Str("ca.crt")]),
                   Obj(map["key" := Str("client.crt"), "path" := Str("client.crt")]),
                   Obj(map["key" := Str("client.key"), "path" := Str("client.key")])]
  {
    hide Dec;
  }

  // ---------- all together ----------

  lemma AgentIsThere(config: Config, request: Request, c: Chosen, p: Placement, s: Stock)
    requires Room(s) && c.runtime in config.images && p.index < |p.containers|
    ensures var a := AdditionsFor(config, request, c, s);
            AgentFits(config, Under(InjectedPod(c, p, s, a), "spec"), InjectedContainer(p, s, a), c.runtime, s.platform)
  {
    hide InjectedContainer, InjectedPod, Initializer, NewMounts, Strings, Command, CopyCommand, RuntimeEnvironment,
         Find, MountedAt, Unprivileged, NewMount;
    var a := AdditionsFor(config, request, c, s);
    PatchedSpec(c, p, s, a);
    NewMountsFound(s.mounts);
    MountParts();
    NewVolumesFound(s.volumes, config);
    VolumeParts(config);
    hide NewVolumes;
    InitializerParts(config.images[c.runtime], Command(c.runtime, s.platform));
    InitializerFound(s.initializers, a.initializer);
    CommandIs(c.runtime, s.platform);
  }

  lemma InitializerIsUnprivileged(config: Config, request: Request, c: Chosen, p: Placement, s: Stock)
    requires Room(s) && c.runtime in config.images && p.index < |p.containers|
    ensures var spec := Under(InjectedPod(c, p, s, AdditionsFor(config, request, c, s)), "spec");
            Unprivileged(spec) && Bounded(spec)
  {
    hide InjectedContainer, InjectedPod, Initializer, NewMounts, Strings, Command, RuntimeEnvironment, Find, NewVolumes,
         Under, ListOf, TextField, Has, NameOf;
    var a := AdditionsFor(config, request, c, s);
    PatchedSpec(c, p, s, a);
    InitializerBounds(config.images[c.runtime], Command(c.runtime, s.platform));
    InitializerParts(config.images[c.runtime], Command(c.runtime, s.platform));
    InitializerFound(s.initializers, a.initializer);
  }

  lemma CertificatesAreThere(config: Config, request: Request, c: Chosen, p: Placement, s: Stock)
    requires Room(s) && p.index < |p.containers|
    ensures var a := AdditionsFor(config, request, c, s);
            CertificatesFit(config, Under(InjectedPod(c, p, s, a), "spec"), InjectedContainer(p, s, a))
  {
    hide InjectedContainer, InjectedPod, Initializer, NewMounts, Strings, Command, RuntimeEnvironment, Find, MountedAt,
         Under, ListOf, NameOf, Dec, NewMount;
    var a := AdditionsFor(config, request, c, s);
    PatchedSpec(c, p, s, a);
    NewMountsFound(s.mounts);
    MountParts();
    NewVolumesFound(s.volumes, config);
    VolumeParts(config);
    hide NewVolumes;
  }

  lemma SettingsAreThere(config: Config, old_: seq<Json>, runtime: string, namespace: string, service: string)
    requires DistinctNames(
               old_ + RuntimeEnvironment(runtime, config.endpoint, namespace, service, config.samplingRatio))
    ensures var env := old_ + RuntimeEnvironment(runtime, config.endpoint, namespace, service, config.samplingRatio);
            && CertificateSettings(env) && AgentSettings(env, runtime) && ExportFits(env, runtime)
            && IdentityFits(env, config, namespace, service)
  {
    hide ExporterSettings, TraceSettings, BatchSettings, IdentitySettings, RuntimeSettings, EnvEntries, DistinctNames,
         Setting, TrimSlash, CertificateSettings, AgentSettings, IdentityFits, BaseSettings, ExportFits;
    var all := BaseSettings(config.endpoint, namespace, service, config.samplingRatio) + RuntimeSettings(runtime);
    forall name: string, value: string | (name, value) in all
      ensures Setting(old_ + EnvEntries(all), name) == Some(value)
    {
      SettingListed(old_, all, name, value);
    }
    CertificatesSet(config, old_, runtime, namespace, service);
    AgentSet(config, old_, runtime, namespace, service);
    IdentitySet(config, old_, runtime, namespace, service);
    ExportSet(config, old_, runtime, namespace, service);
  }

  /** Every generated setting can be looked up. */
  ghost predicate AllSet(config: Config, old_: seq<Json>, runtime: string, namespace: string, service: string) {
    var all := BaseSettings(config.endpoint, namespace, service, config.samplingRatio) + RuntimeSettings(runtime);
    forall name: string, value: string :: (name, value) in all ==> Setting(old_ + EnvEntries(all), name) == Some(value)
  }

  lemma CertificatesSet(config: Config, old_: seq<Json>, runtime: string, namespace: string, service: string)
    requires AllSet(config, old_, runtime, namespace, service)
    ensures CertificateSettings(
              old_ + RuntimeEnvironment(runtime, config.endpoint, namespace, service, config.samplingRatio))
  {
    hide ExporterSettings, TraceSettings, BatchSettings, IdentitySettings, RuntimeSettings, EnvEntries, Setting,
         TrimSlash;
    ExporterListed(config.endpoint);
  }

  lemma AgentSet(config: Config, old_: seq<Json>, runtime: string, namespace: string, service: string)
    requires AllSet(config, old_, runtime, namespace, service)
    ensures AgentSettings(
              old_ + RuntimeEnvironment(runtime, config.endpoint, namespace, service, config.samplingRatio), runtime)
  {
    hide BaseSettings, RuntimeSettings, EnvEntries, Setting;
    RuntimeListed(runtime);
  }

  lemma ExportSet(config: Config, old_: seq<Json>, runtime: string, namespace: string, service: string)
    requires AllSet(config, old_, runtime, namespace, service)
    ensures ExportFits(old_ + RuntimeEnvironment(runtime, config.endpoint, namespace, service, config.samplingRatio),
                       runtime)
  {
    hide ExporterSettings, TraceSettings, BatchSettings, IdentitySettings, RuntimeSettings, EnvEntries, Setting,
         TrimSlash, LimitsFit, BatchesFit, RuntimeFits;
    SignalsListed(config.endpoint);
    LimitsSet(config, old_, runtime, namespace, service);
    BatchesSet(config, old_, runtime, namespace, service);
    RuntimeSet(config, old_, runtime, namespace, service);
  }

  lemma LimitsSet(config: Config, old_: seq<Json>, runtime: string, namespace: string, service: string)
    requires AllSet(config, old_, runtime, namespace, service)
    ensures LimitsFit(old_ + RuntimeEnvironment(runtime, config.endpoint, namespace, service, config.samplingRatio))
  {
    hide ExporterSettings, TraceSettings, BatchSettings, IdentitySettings, RuntimeSettings, EnvEntries, Setting;
    LimitsListed(config.samplingRatio);
  }

  lemma BatchesSet(config: Config, old_: seq<Json>, runtime: string, namespace: string, service: string)
    requires AllSet(config, old_, runtime, namespace, service)
    ensures BatchesFit(old_ + RuntimeEnvironment(runtime, config.endpoint, namespace, service, config.samplingRatio))
  {
    hide ExporterSettings, TraceSettings, BatchSettings, IdentitySettings, RuntimeSettings, EnvEntries, Setting;
    BatchListed();
  }

  lemma RuntimeSet(config: Config, old_: seq<Json>, runtime: string, namespace: string, service: string)
    requires AllSet(config, old_, runtime, namespace, service)
    ensures RuntimeFits(old_ + RuntimeEnvironment(runtime, config.endpoint, namespace, service, config.samplingRatio),
                        runtime)
  {
    hide BaseSettings, RuntimeSettings, EnvEntries, Setting;
    RuntimeListed(runtime);
  }

  lemma IdentitySet(config: Config, old_: seq<Json>, runtime: string, namespace: string, service: string)
    requires AllSet(config, old_, runtime, namespace, service)
    ensures IdentityFits(old_ + RuntimeEnvironment(runtime, config.endpoint, namespace, service, config.samplingRatio),
                         config, namespace, service)
  {
    hide ExporterSettings, TraceSettings, BatchSettings, IdentitySettings, RuntimeSettings, EnvEntries, Setting,
         TrimSlash;
    ExporterListed(config.endpoint);
    TraceListed(config.samplingRatio);
    IdentityListed(namespace, service);
    HeadersListed(namespace, service);
  }

  /** The parts of every injected Pod fit together. */
  lemma InjectionCoheres(config: Config, request: Request, c: Chosen, p: Placement, s: Stock)
    requires Accepts(config, request, c, p, s)
    ensures request.document.Some? && Admit(config, request).Ok?
    ensures var r := ApplyAll(request.document.value, Admit(config, request).value);
            r.Some? && r.value.Obj? && Coherent(config, request.namespace, r.value.fields, p.index)
  {
    hide *;
    var a := AdditionsFor(config, request, c, s);
    PatchApplies(config, request, c, p, s);
    AcceptedParts(config, request, c, p, s);
    StockHasRoom(config, request, c, p, s);
    AgentIsThere(config, request, c, p, s);
    InitializerIsUnprivileged(config, request, c, p, s);
    CertificatesAreThere(config, request, c, p, s);
    SettingsAreThere(config, EnvOf(p.container), c.runtime, request.namespace, s.service);
    PatchedSpec(c, p, s, a);
    PatchedMetadata(config, request, c, p, s, a);
    OtherAnnotations(c.annotations, c.runtime);
    CoherentSo(config, request.namespace, c, p, s, a);
  }

  /** What acceptance says about the parts. */
  lemma AcceptedParts(config: Config, request: Request, c: Chosen, p: Placement, s: Stock)
    requires Accepts(config, request, c, p, s)
    ensures Choose(config, request) == Ok(Some(c)) && c.runtime in config.images && p.index < |p.containers|
    ensures TextField(c.labels, INJECT_LABEL) == c.runtime && s.platform == TextField(c.annotations, PLATFORM)
    ensures s.service == ServiceName(c, p.container)
    ensures var a := AdditionsFor(config, request, c, s);
            && a.runtime == c.runtime && DistinctNames(EnvOf(p.container) + a.env)
            && a.env
            == RuntimeEnvironment(c.runtime, config.endpoint, request.namespace, s.service, config.samplingRatio)
  {
    hide Choose, Locate, Survey, DistinctNames, RuntimeEnvironment, NewVolumes, Initializer, NewMounts, ServiceName;
    NothingCollides(config, request, c, p, s);
    ChosenFacts(config, request, c);
    ChosenReads(config, request, c);
    StockReads(c, p, s);
    PlacementFacts(c, p);
  }

  lemma CoherentSo(config: Config, namespace: string, c: Chosen, p: Placement, s: Stock, a: Additions)
    requires p.index < |p.containers| && TextField(c.labels, INJECT_LABEL) == c.runtime == a.runtime
    requires s.platform == TextField(c.annotations, PLATFORM) && s.service == ServiceName(c, p.container)
    requires var pod, container := InjectedPod(c, p, s, a), InjectedContainer(p, s, a);
             var spec, metadata := Under(pod, "spec"), Under(pod, "metadata");
             && ListOf(spec, "containers") == p.containers[p.index := Obj(container)]
             && ListOf(container, "env") == EnvOf(p.container) + a.env
             && TextField(container, "name") == TextField(p.container, "name")
             && Under(metadata, "labels") == c.labels
             && Under(metadata, "annotations") == c.annotations[MARKER := Str(a.runtime)]
             && AgentFits(config, spec, container, c.runtime, s.platform) && Unprivileged(spec)
             && Bounded(spec) && CertificatesFit(config, spec, container)
    requires var marked := c.annotations[MARKER := Str(a.runtime)];
             && TextField(marked, MARKER) == a.runtime
             && TextField(marked, PLATFORM) == TextField(c.annotations, PLATFORM)
             && TextField(marked, SERVICE) == TextField(c.annotations, SERVICE)
    requires var env := EnvOf(p.container) + a.env;
             && CertificateSettings(env) && AgentSettings(env, c.runtime) && ExportFits(env, c.runtime)
             && IdentityFits(env, config, namespace, s.service)
    ensures Coherent(config, namespace, InjectedPod(c, p, s, a), p.index)
  {
    hide InjectedPod, InjectedContainer, Under, ListOf, TextField, AgentFits, CertificatesFit, CertificateSettings,
         AgentSettings, IdentityFits, Unprivileged, Bounded, ExportFits;
  }
}
