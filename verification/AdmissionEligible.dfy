/** Which Pods are injected, read off the Pod's own fields. */
module AdmissionEligible {
  import opened Bytes
  import opened JsonPatch
  import opened Admission
  import opened AdmissionLaws
  import opened MountPaths

  /** Under each key there is nothing, null or an object. */
  predicate HoldsMaps(o: Fields, keys: set<string>) {
    forall k :: k in keys && k in o ==> o[k].Null? || o[k].Obj?
  }

  /** Under each key there is nothing, null or a list. */
  predicate HoldsLists(o: Fields, keys: set<string>) {
    forall k :: k in keys && k in o ==> o[k].Null? || o[k].Arr?
  }

  // ---------- what belongs to loaders, agents and other injectors ----------

  const LOADER_PREFIXES: set<string> := {"OTEL_", "NEW_RELIC_", "NEWRELIC_", "ELVEN_"}

  const LOADER_NAMES: set<string> := {
    "JAVA_TOOL_OPTIONS", "JDK_JAVA_OPTIONS", "_JAVA_OPTIONS", "NODE_OPTIONS", "PYTHONPATH", "PYTHONHOME",
    "PYTHONSTARTUP", "LD_PRELOAD", "LD_AUDIT", "CORECLR_ENABLE_PROFILING"}

  const AGENT_WORDS: set<string> := {
    "javaagent", "opentelemetry", "autoinstrumentation", "dd-trace", "newrelic", "elastic-apm"}

  const VOLUME_PREFIXES: set<string> := {"opentelemetry-auto-instrumentation", "otel-auto-instrumentation"}

  const INITIALIZER_WORDS: set<string> := {"auto-instrumentation", "autoinstrumentation"}

  const AGENT_IMAGES: set<string> := {"newrelic/", "docker.io/newrelic/", "ghcr.io/newrelic/"}

  const INJECTOR_MARKERS: set<string> := {
    "admission.datadoghq.com/enabled", "oneagent.dynatrace.com/inject", "oneagent.dynatrace.com/injected",
    "newrelic.io/inject", "newrelic.com/inject", "newrelic.com/instrumentation",
    "newrelic-k8s-agents-operator-version", "newrelic-k8s-agents-operator-txid"}

  predicate StartsAmong(s: string, prefixes: set<string>) { exists p :: p in prefixes && p <= s }

  predicate HoldsAmong(s: string, words: set<string>) { exists w :: w in words && Contains(s, w) }

  /** A name that configures a loader or an instrumentation. */
  predicate IsLoaderSetting(name: string) { name in LOADER_NAMES || StartsAmong(name, LOADER_PREFIXES) }

  /** A word of a command line that names no agent. */
  predicate IsPlainWord(x: Json) { x.Str? && !HoldsAmong(Lower(x.text), AGENT_WORDS) }

  predicate IsOtherVolume(x: Json) {
    && x.Obj? && NameOf(x) !in {"elven-instrumentation", "elven-instrumentation-tls"}
    && !StartsAmong(NameOf(x), VOLUME_PREFIXES)
  }

  predicate IsOtherInitializer(x: Json) {
    && x.Obj? && NameOf(x) != "elven-instrumentation-init" && !HoldsAmong(NameOf(x), INITIALIZER_WORDS)
    && !StartsAmong(Lower(TextField(x.fields, "image")), AGENT_IMAGES)
  }

  /** A mount whose path is, segment by segment, neither above nor below nor one of the reserved ones. */
  predicate IsOtherMount(x: Json) {
    && x.Obj?
    && var path := TrimSlash(TextField(x.fields, "mountPath"));
       !Related(path, "/elven-auto") && !Related(path, "/var/run/elven/tls")
  }

  /** One to 128 letters, digits and `.`, `_`, `/`, `-`, the first of them a letter or a digit. */
  predicate IsService(s: string) {
    && 1 <= |s| <= 128 && s[0] !in {'.', '_', '/', '-'}
    && forall i :: 0 <= i < |s| ==>
         'a' <= s[i] <= 'z' || 'A' <= s[i] <= 'Z' || '0' <= s[i] <= '9' || s[i] in {'.', '_', '/', '-'}
  }

  // ---------- the Pods that are injected ----------

  /** A request to create a Pod in one of the configured namespaces. */
  predicate CreatesPod(config: Config, request: Request) {
    && request.operation == "CREATE" && request.subResource == "" && request.namespace in config.namespaces
    && request.kind.group == "" && request.kind.version == "v1" && request.kind.name == "Pod"
    && request.resource.group == "" && request.resource.version == "v1" && request.resource.name == "pods"
    && request.document.Some? && request.document.value.Obj?
  }

  /** The value under the key, if there is one, is this text. */
  predicate IsOnly(o: Fields, key: string, text: string) { key in o ==> o[key] == Str(text) }

  /** The Pod asks for a configured runtime and shows no sign of another injection. */
  predicate OptsIn(config: Config, namespace: string, pod: Fields) {
    && HoldsMaps(pod, {"metadata"})
    && var metadata := Under(pod, "metadata");
    && HoldsMaps(metadata, {"labels", "annotations"})
    && var labels, annotations := Under(metadata, "labels"), Under(metadata, "annotations");
    && var runtime := TextField(labels, "elven.observability/inject");
    && runtime !in {"", "false"} && runtime in config.images
    && TextField(metadata, "namespace") in {"", namespace}
    && TextField(annotations, "elven.observability/injected") == ""
    && (forall key :: key in annotations && "instrumentation.opentelemetry.io/" <= key ==>
          annotations[key] == Str("false"))
    && forall key :: key in INJECTOR_MARKERS ==> IsOnly(labels, key, "false") && IsOnly(annotations, key, "false")
  }

  /** Nothing in the container's environment or command line belongs to a loader or an agent. */
  predicate IsUninstrumented(container: Fields) {
    && HoldsLists(container, {"envFrom", "env", "command", "args"})
    && ListOf(container, "envFrom") == []
    && (forall k: nat :: k < |ListOf(container, "env")| ==>
          var env := ListOf(container, "env");
          && env[k].Obj? && NameOf(env[k]) != "" && !IsLoaderSetting(NameOf(env[k]))
          && forall j: nat :: j < k ==> NameOf(env[j]) != NameOf(env[k]))
    && forall x :: x in ListOf(container, "command") + ListOf(container, "args") ==> IsPlainWord(x)
  }

  /** Every container is an object without the reserved name, and `index` is the only one that is called `target`, or,
      without a target, the only one. */
  predicate SelectsOne(containers: seq<Json>, target: string, index: nat): (b: bool)
    ensures b ==> index < |containers| && containers[index].Obj?
  {
    && (forall k: nat :: k < |containers| ==>
          containers[k].Obj? && NameOf(containers[k]) != "elven-instrumentation-init")
    && index < |containers|
    && ((target == "" && |containers| == 1)
        || forall k: nat :: k < |containers| ==> (NameOf(containers[k]) == target <==> k == index))
  }

  /** The Pod is a named Linux Pod, and container `index` is the one that is selected. */
  predicate Targets(pod: Fields, index: nat) {
    && HoldsMaps(pod, {"spec"})
    && var spec, metadata := Under(pod, "spec"), Under(pod, "metadata");
    && HoldsMaps(spec, {"os", "nodeSelector"}) && HoldsLists(spec, {"containers"})
    && IsOnly(Under(spec, "os"), "name", "linux")
    && IsOnly(Under(spec, "nodeSelector"), "kubernetes.io/os", "linux")
    && var containers := ListOf(spec, "containers");
    && var target := TextField(Under(metadata, "annotations"), "elven.observability/container-name");
    && (|containers| <= 1 || target != "")
    && SelectsOne(containers, target, index)
    && (TextField(metadata, "generateName") != "" || TextField(metadata, "name") != "")
    && IsUninstrumented(containers[index].fields)
  }

  /** Volumes, init containers and mounts leave room, and platform and service name are usable. */
  predicate LeavesRoom(pod: Fields, index: nat) {
    && var spec, metadata := Under(pod, "spec"), Under(pod, "metadata");
    && var labels, annotations := Under(metadata, "labels"), Under(metadata, "annotations");
    && index < |ListOf(spec, "containers")| && ListOf(spec, "containers")[index].Obj?
    && var container := ListOf(spec, "containers")[index].fields;
    && HoldsLists(spec, {"volumes", "initContainers"}) && HoldsLists(container, {"volumeMounts"})
    && (forall x :: x in ListOf(spec, "volumes") ==> IsOtherVolume(x))
    && (forall x :: x in ListOf(spec, "initContainers") ==> IsOtherInitializer(x))
    && (forall x :: x in ListOf(container, "volumeMounts") ==> IsOtherMount(x))
    && (var platform := TextField(annotations, "elven.observability/python-platform");
        platform == ""
        || (platform in {"glibc", "musl"} && TextField(labels, "elven.observability/inject") == "python"))
    && var annotated := TextField(annotations, "elven.observability/service-name");
       var labelled := TextField(labels, "app.kubernetes.io/name");
       IsService(if annotated != "" then annotated
                 else if labelled != "" then labelled else TextField(container, "name"))
  }

  predicate Eligible(config: Config, request: Request, index: nat) {
    && CreatesPod(config, request)
    && var pod := request.document.value.fields;
    && OptsIn(config, request.namespace, pod) && Targets(pod, index) && LeavesRoom(pod, index)
  }

  // ---------- the tests of single values ----------

  lemma LoaderExactly(name: string)
    ensures LoaderName(name) <==> IsLoaderSetting(name)
  {
    var prefixes := LOADER_PREFIXES;
    assert "OTEL_" in prefixes && "NEW_RELIC_" in prefixes && "NEWRELIC_" in prefixes && "ELVEN_" in prefixes;
  }

  lemma WordExactly(x: Json)
    ensures ArgumentFault(x).None? <==> IsPlainWord(x)
  {
    hide Contains, Lower;
    var words := AGENT_WORDS;
    assert "javaagent" in words && "opentelemetry" in words && "autoinstrumentation" in words;
    assert "dd-trace" in words && "newrelic" in words && "elastic-apm" in words;
  }

  lemma VolumeExactly(x: Json)
    ensures VolumeFault(x).None? <==> IsOtherVolume(x)
  {
    hide NameOf;
    var prefixes := VOLUME_PREFIXES;
    assert "opentelemetry-auto-instrumentation" in prefixes && "otel-auto-instrumentation" in prefixes;
  }

  lemma InitializerExactly(x: Json)
    ensures InitializerFault(x).None? <==> IsOtherInitializer(x)
  {
    hide NameOf, Contains, Lower, TextField;
    var words, images := INITIALIZER_WORDS, AGENT_IMAGES;
    assert "auto-instrumentation" in words && "autoinstrumentation" in words;
    assert "newrelic/" in images && "docker.io/newrelic/" in images && "ghcr.io/newrelic/" in images;
  }

  lemma MountExactly(x: Json)
    ensures MountFault(x).None? <==> IsOtherMount(x)
  {
    hide TextField, MountOverlap, Related, TrimSlash;
    if x.Obj? {
      MountOverlapExact(TextField(x.fields, "mountPath"), "/elven-auto");
      MountOverlapExact(TextField(x.fields, "mountPath"), "/var/run/elven/tls");
    }
  }

  lemma ServiceExactly(s: string)
    ensures IsServiceName(s) <==> IsService(s)
  {}

  lemma OnlyExactly(o: Fields, key: string, text: string)
    ensures IsOnly(o, key, text) <==> !Differs(o, key, text)
  {}

  lemma MarkersExactly(markers: Fields)
    ensures ForeignActive(markers) <==> exists key :: key in INJECTOR_MARKERS && !IsOnly(markers, key, "false")
  {
    hide Differs, IsOnly;
    forall k: nat | k < |FOREIGN| ensures FOREIGN[k] in INJECTOR_MARKERS {}
    forall k: nat | k < |FOREIGN|
      ensures IsOnly(markers, FOREIGN[k], "false") <==> !Differs(markers, FOREIGN[k], "false")
    {
      OnlyExactly(markers, FOREIGN[k], "false");
    }
    forall key | key in INJECTOR_MARKERS ensures exists k: nat :: k < |FOREIGN| && FOREIGN[k] == key {
      MarkerListed(key);
    }
  }

  lemma MarkerListed(key: string)
    requires key in INJECTOR_MARKERS
    ensures exists k: nat :: k < |FOREIGN| && FOREIGN[k] == key
  {
    assert key in {FOREIGN[0], FOREIGN[1], FOREIGN[2], FOREIGN[3], FOREIGN[4], FOREIGN[5], FOREIGN[6], FOREIGN[7]};
  }

  // ---------- the three stages ----------

  function ChosenOf(pod: Fields): Chosen {
    var metadata := Under(pod, "metadata");
    var labels := Under(metadata, "labels");
    Chosen(pod, metadata, labels, Under(metadata, "annotations"), TextField(labels, INJECT_LABEL))
  }

  lemma MapsRead(o: Fields, key: string)
    ensures HoldsMaps(o, {key}) <==> MapField(o, key) == Ok(Under(o, key))
    ensures MapField(o, key).Ok? ==> MapField(o, key) == Ok(Under(o, key))
  {}

  lemma ListsRead(o: Fields, key: string)
    ensures HoldsLists(o, {key}) <==> SliceField(o, key) == Ok(ListOf(o, key))
    ensures SliceField(o, key).Ok? ==> SliceField(o, key) == Ok(ListOf(o, key))
  {}

  lemma TwoMaps(o: Fields, a: string, b: string)
    ensures HoldsMaps(o, {a, b}) <==> HoldsMaps(o, {a}) && HoldsMaps(o, {b})
  {}

  lemma TwoLists(o: Fields, a: string, b: string)
    ensures HoldsLists(o, {a, b}) <==> HoldsLists(o, {a}) && HoldsLists(o, {b})
  {}

  lemma ChooseExactly(config: Config, request: Request, c: Chosen)
    ensures Choose(config, request) == Ok(Some(c)) <==>
              && CreatesPod(config, request) && OptsIn(config, request.namespace, request.document.value.fields)
              && c == ChosenOf(request.document.value.fields)
  {
    CreatesExactly(config, request);
    hide Concerns, CreatesPod, ActiveOtel, ForeignActive;
    if request.document.Some? && request.document.value.Obj? {
      var pod := request.document.value.fields;
      MapsRead(pod, "metadata");
      var metadata := Under(pod, "metadata");
      MapsRead(metadata, "labels");
      MapsRead(metadata, "annotations");
      TwoMaps(metadata, "labels", "annotations");
      OthersExactly(Under(metadata, "labels"), Under(metadata, "annotations"));
      hide HoldsMaps, MapField, Under, IsOnly;
    }
  }

  lemma CreatesExactly(config: Config, request: Request)
    ensures CreatesPod(config, request) <==>
              Concerns(config, request) && request.document.Some? && request.document.value.Obj?
  {}

  lemma OthersExactly(labels: Fields, annotations: Fields)
    ensures ActiveOtel(annotations) <==>
              exists key :: key in annotations && "instrumentation.opentelemetry.io/" <= key
                            && annotations[key] != Str("false")
    ensures (!ForeignActive(labels) && !ForeignActive(annotations)) <==>
              forall key :: key in INJECTOR_MARKERS ==>
                IsOnly(labels, key, "false") && IsOnly(annotations, key, "false")
  {
    MarkersExactly(labels);
    MarkersExactly(annotations);
    hide IsOnly, ForeignActive;
  }

  lemma ConflictExactly(container: Fields)
    ensures Conflict(container).Ok? <==> IsUninstrumented(container)
  {
    ListsRead(container, "envFrom");
    ListsRead(container, "env");
    ListsRead(container, "command");
    ListsRead(container, "args");
    assert HoldsLists(container, {"envFrom", "env", "command", "args"})
      <==> HoldsLists(container, {"envFrom"}) && HoldsLists(container, {"env"})
           && HoldsLists(container, {"command"}) && HoldsLists(container, {"args"});
    EnvExactly(ListOf(container, "env"));
    WordsExactly(ListOf(container, "command"));
    WordsExactly(ListOf(container, "args"));
    hide HoldsLists, SliceField, ListOf, ArgumentFault, IsLoaderSetting, EnvFaultFrom, FaultFrom, IsPlainWord;
  }

  lemma EnvExactly(env: seq<Json>)
    ensures EnvFaultFrom(env, 0).None? <==>
              forall k: nat :: k < |env| ==>
                && env[k].Obj? && NameOf(env[k]) != "" && !IsLoaderSetting(NameOf(env[k]))
                && forall j: nat :: j < k ==> NameOf(env[j]) != NameOf(env[k])
  {
    hide LoaderName, IsLoaderSetting;
    forall k: nat | k < |env|
      ensures EnvFault(env, k).None? <==>
                && env[k].Obj? && NameOf(env[k]) != "" && !IsLoaderSetting(NameOf(env[k]))
                && forall j: nat :: j < k ==> NameOf(env[j]) != NameOf(env[k])
    {
      LoaderExactly(NameOf(env[k]));
    }
    hide EnvFault, NameOf;
  }

  lemma FaultsExactly(xs: seq<Json>, fault: Json -> Option<Reason>)
    ensures FaultFrom(xs, fault, 0).None? <==> forall x :: x in xs ==> fault(x).None?
  {
    if FaultFrom(xs, fault, 0).None? {
      forall x | x in xs ensures fault(x).None? {
        var k: nat :| k < |xs| && xs[k] == x;
      }
    }
  }

  lemma WordsExactly(xs: seq<Json>)
    ensures FaultFrom(xs, ArgumentFault, 0).None? <==> forall x :: x in xs ==> IsPlainWord(x)
  {
    FaultsExactly(xs, ArgumentFault);
    hide ArgumentFault, IsPlainWord, FaultFrom;
    forall x ensures ArgumentFault(x).None? <==> IsPlainWord(x) { WordExactly(x); }
  }

  /** The checks of the lists that an injection extends. */
  lemma RoomExactly(volumes: seq<Json>, initializers: seq<Json>, mounts: seq<Json>)
    ensures FaultFrom(volumes, VolumeFault, 0).None? <==> forall x :: x in volumes ==> IsOtherVolume(x)
    ensures FaultFrom(initializers, InitializerFault, 0).None? <==>
              forall x :: x in initializers ==> IsOtherInitializer(x)
    ensures FaultFrom(mounts, MountFault, 0).None? <==> forall x :: x in mounts ==> IsOtherMount(x)
  {
    FaultsExactly(volumes, VolumeFault);
    FaultsExactly(initializers, InitializerFault);
    FaultsExactly(mounts, MountFault);
    hide VolumeFault, InitializerFault, MountFault, IsOtherVolume, IsOtherInitializer, IsOtherMount, FaultFrom;
    forall x ensures VolumeFault(x).None? <==> IsOtherVolume(x) { VolumeExactly(x); }
    forall x ensures InitializerFault(x).None? <==> IsOtherInitializer(x) { InitializerExactly(x); }
    forall x ensures MountFault(x).None? <==> IsOtherMount(x) { MountExactly(x); }
  }

  function PlacementOf(pod: Fields, index: nat): Placement {
    var spec := Under(pod, "spec");
    var containers := ListOf(spec, "containers");
    Placement(spec, containers, index,
              if index < |containers| && containers[index].Obj? then containers[index].fields else map[])
  }

  lemma FindExactly(containers: seq<Json>, target: string, index: nat)
    ensures FindTarget(containers, target, 0, None) == Ok(index) <==> SelectsOne(containers, target, index)
  {
    TargetExact(containers, target, 0, None, index);
    hide FindTarget, NameOf;
    var alone := target == "" && |containers| == 1;
    forall k: nat | k < |containers|
      ensures Selected(containers, target, k) <==> alone || NameOf(containers[k]) == target
    {}
    if index < |containers| && SelectsOne(containers, target, index) {
      forall k: nat | k < |containers| && k != index ensures !Selected(containers, target, k) {}
    }
  }

  lemma LocateExactly(pod: Fields, p: Placement)
    ensures Locate(ChosenOf(pod)) == Ok(p) <==> Targets(pod, p.index) && p == PlacementOf(pod, p.index)
  {
    var spec := Under(pod, "spec");
    OnlyExactly(Under(spec, "os"), "name", "linux");
    OnlyExactly(Under(spec, "nodeSelector"), "kubernetes.io/os", "linux");
    hide HoldsMaps, HoldsLists, MapField, SliceField, Under, ListOf, Differs, Conflict, IsUninstrumented, FindTarget,
      TextField, SelectsOne, IsOnly;
    MapsRead(pod, "spec");
    MapsRead(spec, "os");
    MapsRead(spec, "nodeSelector");
    ListsRead(spec, "containers");
    TwoMaps(spec, "os", "nodeSelector");
    var containers := ListOf(spec, "containers");
    var target := TextField(ChosenOf(pod).annotations, CONTAINER);
    FindExactly(containers, target, p.index);
    if FindTarget(containers, target, 0, None).Ok? {
      FindExactly(containers, target, FindTarget(containers, target, 0, None).value);
    }
    ConflictExactly(PlacementOf(pod, p.index).container);
  }

  lemma SurveyExactly(pod: Fields, index: nat)
    requires Targets(pod, index)
    ensures Survey(ChosenOf(pod), PlacementOf(pod, index)).Ok? <==> LeavesRoom(pod, index)
  {
    hide HoldsLists, SliceField, Under, ListOf, TextField, FaultFrom, VolumeFault, InitializerFault, MountFault,
      IsServiceName, IsService, IsUninstrumented, SelectsOne, IsOnly, IsOtherVolume, IsOtherInitializer, IsOtherMount;
    var spec := Under(pod, "spec");
    var container := PlacementOf(pod, index).container;
    ListsRead(spec, "volumes");
    ListsRead(spec, "initContainers");
    ListsRead(container, "volumeMounts");
    TwoLists(spec, "volumes", "initContainers");
    RoomExactly(ListOf(spec, "volumes"), ListOf(spec, "initContainers"), ListOf(container, "volumeMounts"));
    ServiceExactly(ServiceName(ChosenOf(pod), container));
  }

  /** A patch is produced exactly for the eligible Pods, for the container that is selected. */
  lemma InjectsExactly(config: Config, request: Request)
    ensures Injects(config, request) <==> exists index: nat :: Eligible(config, request, index)
  {
    hide Choose, Locate, Survey, OptsIn, Targets, LeavesRoom, Injects, PlacementOf, ChosenOf;
    AcceptedExactly(config, request);
    if Injects(config, request) {
      var c, p, s :| Accepts(config, request, c, p, s);
      ChooseExactly(config, request, c);
      var pod := request.document.value.fields;
      LocateExactly(pod, p);
      SurveyExactly(pod, p.index);
      assert Eligible(config, request, p.index);
    }
    if index: nat :| Eligible(config, request, index) {
      var pod := request.document.value.fields;
      var c, p := ChosenOf(pod), PlacementOf(pod, index);
      ChooseExactly(config, request, c);
      assert p.index == index by { IndexOf(pod, index); }
      LocateExactly(pod, p);
      SurveyExactly(pod, index);
      assert Accepts(config, request, c, p, Survey(c, p).value);
    }
  }

  lemma IndexOf(pod: Fields, index: nat)
    ensures PlacementOf(pod, index).index == index
  {}
}
