/** What the injector adds never meets what the Pod already had. */
module AdmissionCollisions {
  import opened JsonPatch
  import opened Admission
  import opened AdmissionLaws
  import opened MountPaths

  // ---------- environment names ----------

  /** The place of a generated name: its length and one character tell it apart. */
  function Slot(n: string): nat {
    match |n|
    case 27 => if n[25] == 'N' then 0 else if n[25] == 'O' then 1 else 14
    case 30 => if n[28] == 'T' then 2 else 17
    case 37 => 3
    case 29 => 4
    case 26 => if n[5] == 'E' then 5 else if n[5] == 'A' then 13 else 15
    case 20 => 6
    case 21 => 7
    case 18 => 8
    case 16 => 9
    case 19 => 10
    case 23 => if n[21] == 'R' then 11 else if n[21] == 'Z' then 16 else 18
    case 33 => 12
    case 24 => if n[22] == 'Z' then 19 else 22
    case 31 => 20
    case 17 => if n[0] == 'O' then 21 else 27
    case 56 => if n[42] == 'S' then 23 else 25
    case 57 => if n[42] == 'S' then 24 else if n[42] == 'C' then 26 else 28
    case 12 => 27
    case 10 => 27
    case 28 => 28
    case 48 => 28
    case _ => 29
  }

  /** The settings have loader names and stand in the slots from `first` on. */
  predicate InSlots(settings: seq<(string, string)>, first: nat) {
    forall k: nat :: k < |settings| ==> Slot(settings[k].0) == first + k && LoaderName(settings[k].0)
  }

  lemma SlotsJoin(a: seq<(string, string)>, b: seq<(string, string)>, first: nat)
    requires InSlots(a, first) && InSlots(b, first + |a|)
    ensures InSlots(a + b, first)
  {
    hide Slot, LoaderName;
  }

  lemma OtelIsLoader(name: string)
    requires "OTEL_" <= name
    ensures LoaderName(name)
  {}

  lemma ExporterSlots(endpoint: string)
    ensures |ExporterSettings(endpoint)| == 9 && InSlots(ExporterSettings(endpoint), 0)
  {
    hide LoaderName, TrimSlash;
    var b := ExporterSettings(endpoint);
    assert Slot(b[0].0) == 0 && Slot(b[1].0) == 1 && Slot(b[2].0) == 2 && Slot(b[3].0) == 3;
    assert Slot(b[4].0) == 4 && Slot(b[5].0) == 5 && Slot(b[6].0) == 6 && Slot(b[7].0) == 7;
    assert Slot(b[8].0) == 8;
    forall k: nat | k < |b| ensures LoaderName(b[k].0) { OtelIsLoader(b[k].0); }
  }

  lemma TraceSlots(ratio: string)
    ensures |TraceSettings(ratio)| == 7 && InSlots(TraceSettings(ratio), 9)
  {
    hide LoaderName, TrimSlash;
    var b := TraceSettings(ratio);
    assert Slot(b[0].0) == 9 && Slot(b[1].0) == 10 && Slot(b[2].0) == 11 && Slot(b[3].0) == 12;
    assert Slot(b[4].0) == 13 && Slot(b[5].0) == 14 && Slot(b[6].0) == 15;
    forall k: nat | k < |b| ensures LoaderName(b[k].0) { OtelIsLoader(b[k].0); }
  }

  lemma BatchSlots()
    ensures |BatchSettings()| == 5 && InSlots(BatchSettings(), 16)
  {
    hide LoaderName, TrimSlash;
    var b := BatchSettings();
    assert Slot(b[0].0) == 16 && Slot(b[1].0) == 17 && Slot(b[2].0) == 18 && Slot(b[3].0) == 19;
    assert Slot(b[4].0) == 20;
    forall k: nat | k < |b| ensures LoaderName(b[k].0) { OtelIsLoader(b[k].0); }
  }

  lemma IdentitySlots(namespace: string, service: string)
    ensures |IdentitySettings(namespace, service)| == 6 && InSlots(IdentitySettings(namespace, service), 21)
  {
    hide LoaderName, TrimSlash;
    var b := IdentitySettings(namespace, service);
    assert Slot(b[0].0) == 21 && Slot(b[1].0) == 22 && Slot(b[2].0) == 23 && Slot(b[3].0) == 24;
    assert Slot(b[4].0) == 25 && Slot(b[5].0) == 26;
    forall k: nat | k < |b| ensures LoaderName(b[k].0) { OtelIsLoader(b[k].0); }
  }

  lemma JavaSlots()
    ensures InSlots(JavaSettings(), 27)
  {
    var r := JavaSettings();
    assert Slot(r[0].0) == 27 && LoaderName(r[0].0);
    assert Slot(r[1].0) == 28 by { hide LoaderName; }
    OtelIsLoader(r[1].0);
  }

  lemma NodeSlots()
    ensures InSlots(NodeSettings(), 27)
  {
    var r := NodeSettings();
    assert Slot(r[0].0) == 27 && LoaderName(r[0].0);
    assert Slot(r[1].0) == 28 by { hide LoaderName; }
    OtelIsLoader(r[1].0);
  }

  lemma PythonSlots()
    ensures InSlots(PythonSettings(), 27)
  {
    var r := PythonSettings();
    assert Slot(r[0].0) == 27 && LoaderName(r[0].0);
    assert Slot(r[1].0) == 28 by { hide LoaderName; }
    OtelIsLoader(r[1].0);
  }

  lemma RuntimeSlots(runtime: string)
    ensures InSlots(RuntimeSettings(runtime), 27)
  {
    hide JavaSettings, NodeSettings, PythonSettings, LoaderName, Slot;
    JavaSlots();
    NodeSlots();
    PythonSlots();
  }

  lemma AllSlots(runtime: string, endpoint: string, namespace: string, service: string, ratio: string)
    ensures InSlots(BaseSettings(endpoint, namespace, service, ratio) + RuntimeSettings(runtime), 0)
  {
    hide InSlots, ExporterSettings, TraceSettings, BatchSettings, IdentitySettings, RuntimeSettings;
    ExporterSlots(endpoint);
    TraceSlots(ratio);
    BatchSlots();
    IdentitySlots(namespace, service);
    RuntimeSlots(runtime);
    SlotsJoin(ExporterSettings(endpoint), TraceSettings(ratio), 0);
    SlotsJoin(ExporterSettings(endpoint) + TraceSettings(ratio), BatchSettings(), 0);
    SlotsJoin(ExporterSettings(endpoint) + TraceSettings(ratio) + BatchSettings(),
              IdentitySettings(namespace, service), 0);
    SlotsJoin(BaseSettings(endpoint, namespace, service, ratio), RuntimeSettings(runtime), 0);
  }

  /** Every name is given, and no two are the same. */
  predicate DistinctNames(env: seq<Json>) {
    (forall k: nat :: k < |env| ==> NameOf(env[k]) != "")
    && forall j: nat, k: nat :: j < k < |env| ==> NameOf(env[j]) != NameOf(env[k])
  }

  lemma GeneratedNames(runtime: string, endpoint: string, namespace: string, service: string, ratio: string)
    ensures var env := RuntimeEnvironment(runtime, endpoint, namespace, service, ratio);
            DistinctNames(env) && forall k: nat :: k < |env| ==> LoaderName(NameOf(env[k]))
  {
    hide BaseSettings, RuntimeSettings, Slot, LoaderName;
    var env := RuntimeEnvironment(runtime, endpoint, namespace, service, ratio);
    var settings := BaseSettings(endpoint, namespace, service, ratio) + RuntimeSettings(runtime);
    AllSlots(runtime, endpoint, namespace, service, ratio);
    forall k: nat | k < |env|
      ensures NameOf(env[k]) == settings[k].0 != "" && Slot(NameOf(env[k])) == k && LoaderName(NameOf(env[k]))
    {
      LoaderNotEmpty(settings[k].0);
    }
  }

  lemma LoaderNotEmpty(name: string)
    requires LoaderName(name)
    ensures name != ""
  {}

  /** An environment without faults: objects with distinct names, none of them a loader's. */
  lemma CleanNames(env: seq<Json>)
    requires EnvFaultFrom(env, 0).None?
    ensures DistinctNames(env) && forall k: nat :: k < |env| ==> !LoaderName(NameOf(env[k]))
  {
    hide LoaderName;
    forall k: nat | k < |env|
      ensures NameOf(env[k]) != "" && !LoaderName(NameOf(env[k]))
      ensures forall j: nat :: j < k ==> NameOf(env[j]) != NameOf(env[k])
    {
      assert EnvFault(env, k).None?;
    }
  }

  lemma NamesJoin(old_: seq<Json>, new_: seq<Json>)
    requires DistinctNames(old_) && DistinctNames(new_)
    requires forall k: nat :: k < |old_| ==> !LoaderName(NameOf(old_[k]))
    requires forall k: nat :: k < |new_| ==> LoaderName(NameOf(new_[k]))
    ensures DistinctNames(old_ + new_)
  {
    hide LoaderName;
  }

  // ---------- all together ----------

  predicate NoneNamed(xs: seq<Json>, name: string) { forall k: nat :: k < |xs| ==> NameOf(xs[k]) != name }

  /** The mount is an object whose path has nothing to do with the reserved one. */
  predicate Apart(mount: Json, reserved: string) {
    mount.Obj? && !Related(TrimSlash(TextField(mount.fields, "mountPath")), reserved)
  }

  /** A mount path without `..`, written plainly as far as the reserved one goes, leads nowhere near that directory. */
  predicate Elsewhere(mount: Json, reserved: string) {
    mount.Obj? &&
    var path := TextField(mount.fields, "mountPath");
    var segments := Split(TrimSlash(path), '/');
    ".." !in segments && PlainFor(segments, |Split(reserved, '/')| - 1) ==>
      !EitherPrefix(Resolved(path), Resolved(reserved))
  }

  predicate AllApart(mounts: seq<Json>, reserved: string) {
    forall k: nat :: k < |mounts| ==> Apart(mounts[k], reserved) && Elsewhere(mounts[k], reserved)
  }

  /** In an accepted Pod, environment names stay distinct, and the new volumes, init container and mounts are new. */
  lemma NothingCollides(config: Config, request: Request, c: Chosen, p: Placement, s: Stock)
    requires Accepts(config, request, c, p, s)
    ensures var a := AdditionsFor(config, request, c, s);
            && DistinctNames(ListOf(p.container, "env") + a.env)
            && NoneNamed(s.volumes, SDK_VOLUME) && NoneNamed(s.volumes, TLS_VOLUME)
            && NoneNamed(s.initializers, INIT_NAME) && NoneNamed(p.containers, INIT_NAME)
            && AllApart(s.mounts, SDK_MOUNT) && AllApart(s.mounts, TLS_MOUNT)
  {
    hide Choose, Locate, Survey, RuntimeEnvironment, MountOverlap, Related, EnvFault, LoaderName, DistinctNames,
         Elsewhere, Apart;
    PlacementFacts(c, p);
    ConflictFacts(p.container);
    StockFacts(c, p, s);
    var a := AdditionsFor(config, request, c, s);
    CleanNames(ListOf(p.container, "env"));
    GeneratedNames(c.runtime, config.endpoint, request.namespace, s.service, config.samplingRatio);
    NamesJoin(ListOf(p.container, "env"), a.env);
    forall k: nat | k < |s.volumes| ensures NameOf(s.volumes[k]) != SDK_VOLUME && NameOf(s.volumes[k]) != TLS_VOLUME {
      assert VolumeFault(s.volumes[k]).None?;
    }
    forall k: nat | k < |s.initializers| ensures NameOf(s.initializers[k]) != INIT_NAME {
      assert InitializerFault(s.initializers[k]).None?;
    }
    forall k: nat | k < |s.mounts|
      ensures Apart(s.mounts[k], SDK_MOUNT) && Apart(s.mounts[k], TLS_MOUNT)
      ensures Elsewhere(s.mounts[k], SDK_MOUNT) && Elsewhere(s.mounts[k], TLS_MOUNT)
    {
      MountApart(s.mounts[k]);
    }
  }

  lemma MountApart(mount: Json)
    requires MountFault(mount).None?
    ensures Apart(mount, SDK_MOUNT) && Apart(mount, TLS_MOUNT)
    ensures Elsewhere(mount, SDK_MOUNT) && Elsewhere(mount, TLS_MOUNT)
  {
    hide MountOverlap, Apart, Elsewhere;
    SdkMountIsPlain();
    TlsMountIsPlain();
    NoOverlap(mount, SDK_MOUNT);
    NoOverlap(mount, TLS_MOUNT);
  }

  lemma NoOverlap(mount: Json, reserved: string)
    requires mount.Obj? && !MountOverlap(TextField(mount.fields, "mountPath"), reserved)
    requires IsPlainPath(reserved) && reserved != ""
    ensures Apart(mount, reserved) && Elsewhere(mount, reserved)
  {
    hide MountOverlap, Related, IsPlainPath, Resolved, PlainFor, EitherPrefix, Split, TrimSlash;
    var path := TextField(mount.fields, "mountPath");
    StartsWithSlash(reserved);
    MountOverlapExact(path, reserved);
    if ".." !in Split(TrimSlash(path), '/') { MountOverlapResolved(path, reserved); }
  }
}
