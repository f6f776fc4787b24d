/** What an injection changes, what it never collides with, and that it happens at most once. */
module AdmissionLaws {
  import opened Bytes
  import opened JsonPatch
  import opened Admission
  import opened AdmissionPatch

  // ---------- what acceptance means ----------

  /** The injector chose this Pod, this container and these existing lists. */
  predicate Accepts(config: Config, request: Request, c: Chosen, p: Placement, s: Stock) {
    Choose(config, request) == Ok(Some(c)) && Locate(c) == Ok(p) && Survey(c, p) == Ok(s)
  }

  predicate Injects(config: Config, request: Request) {
    Admit(config, request).Ok? && Admit(config, request).value != []
  }

  lemma PatchNotEmpty(c: Chosen, p: Placement, s: Stock, a: Additions)
    ensures Patch(c, p, s, a) != []
  {
    hide EnvOps, MarkerOp, ContainerPath;
  }

  /** A patch is produced exactly for the accepted Pods. */
  lemma AcceptedExactly(config: Config, request: Request)
    ensures Injects(config, request) <==> exists c, p, s :: Accepts(config, request, c, p, s)
  {
    hide Choose, Locate, Survey, Patch, AdditionsFor;
    var chosen := Choose(config, request);
    if chosen.Ok? && chosen.value.Some? {
      var c := chosen.value.value;
      var p := Locate(c);
      if p.Ok? {
        var s := Survey(c, p.value);
        if s.Ok? {
          assert Accepts(config, request, c, p.value, s.value);
          PatchNotEmpty(c, p.value, s.value, AdditionsFor(config, request, c, s.value));
        }
      }
    }
  }

  lemma ChosenFacts(config: Config, request: Request, c: Chosen)
    requires Choose(config, request) == Ok(Some(c))
    ensures request.document == Some(Obj(c.pod))
    ensures "metadata" in c.pod && c.pod["metadata"] == Obj(c.metadata)
    ensures MapField(c.metadata, "annotations") == Ok(c.annotations)
    ensures c.runtime != "" && c.runtime in config.images && TextField(c.annotations, MARKER) == ""
  {}

  lemma PlacementFacts(c: Chosen, p: Placement)
    requires Locate(c) == Ok(p)
    ensures "spec" in c.pod && c.pod["spec"] == Obj(p.spec)
    ensures "containers" in p.spec && p.spec["containers"] == Arr(p.containers)
    ensures p.index < |p.containers| && p.containers[p.index] == Obj(p.container)
    ensures Conflict(p.container).Ok?
    ensures forall k: nat :: k < |p.containers| ==> NameOf(p.containers[k]) != INIT_NAME
  {
    hide Conflict, Differs;
    var containers := SliceField(p.spec, "containers").value;
    TargetExact(containers, TextField(c.annotations, CONTAINER), 0, None, p.index);
  }

  lemma ConflictFacts(container: Fields)
    requires Conflict(container).Ok?
    ensures SliceField(container, "env").Ok? && EnvFaultFrom(SliceField(container, "env").value, 0).None?
  {
    hide EnvFaultFrom, FaultFrom;
  }

  lemma StockFacts(c: Chosen, p: Placement, s: Stock)
    requires Survey(c, p) == Ok(s)
    ensures SliceField(p.spec, "volumes") == Ok(s.volumes) && SliceField(p.spec, "initContainers") == Ok(s.initializers)
    ensures SliceField(p.container, "volumeMounts") == Ok(s.mounts)
    ensures FaultFrom(s.volumes, VolumeFault, 0).None? && FaultFrom(s.initializers, InitializerFault, 0).None?
    ensures FaultFrom(s.mounts, MountFault, 0).None?
  {
    hide FaultFrom, ServiceName, IsServiceName;
  }

  // ---------- the patched Pod ----------

  function EnvOf(container: Fields): seq<Json> {
    var env := SliceField(container, "env");
    if env.Ok? then env.value else []
  }

  function InjectedSpec(p: Placement, s: Stock, a: Additions): Fields {
    p.spec["volumes" := Arr(s.volumes + a.volumes)]["initContainers" := Arr(s.initializers + [a.initializer])]
  }

  function InjectedContainer(p: Placement, s: Stock, a: Additions): Fields {
    p.container["volumeMounts" := Arr(s.mounts + a.mounts)]["env" := Arr(EnvOf(p.container) + a.env)]
  }

  function InjectedMetadata(c: Chosen, a: Additions): Fields {
    c.metadata["annotations" := Obj(c.annotations[MARKER := Str(a.runtime)])]
  }

  function InjectedPod(c: Chosen, p: Placement, s: Stock, a: Additions): Fields
    requires p.index < |p.containers|
  {
    var staged := Stage(c.pod, InjectedSpec(p, s, a), p.containers, p.index, InjectedContainer(p, s, a));
    staged["metadata" := Obj(InjectedMetadata(c, a))]
  }

  lemma StageStart(c: Chosen, p: Placement)
    requires Locate(c) == Ok(p)
    ensures p.index < |p.containers| && c.pod == Stage(c.pod, p.spec, p.containers, p.index, p.container)
  {
    hide Locate;
    PlacementFacts(c, p);
    assert p.containers[p.index := Obj(p.container)] == p.containers;
    assert p.spec["containers" := Arr(p.containers)] == p.spec;
  }

  /** The first three operations: volumes, init containers, volume mounts. */
  lemma ListsAdded(c: Chosen, p: Placement, s: Stock, a: Additions)
    requires Locate(c) == Ok(p)
    ensures p.index < |p.containers|
    ensures ApplyAll(Obj(c.pod), Patch(c, p, s, a)[..3])
            == Some(Obj(Stage(c.pod, InjectedSpec(p, s, a), p.containers, p.index,
                              p.container["volumeMounts" := Arr(s.mounts + a.mounts)])))
  {
    hide Locate, Apply, Stage, EnvOps, MarkerOp, ContainerPath;
    StageStart(c, p);
    var v, i, m := Arr(s.volumes + a.volumes), Arr(s.initializers + [a.initializer]), Arr(s.mounts + a.mounts);
    AddToSpec(c.pod, p.spec, p.containers, p.index, p.container, "volumes", v);
    AddToSpec(c.pod, p.spec["volumes" := v], p.containers, p.index, p.container, "initContainers", i);
    AddToContainer(c.pod, InjectedSpec(p, s, a), p.containers, p.index, p.container, "volumeMounts", m);
    assert "/spec/" + "volumes" == "/spec/volumes" && "/spec/" + "initContainers" == "/spec/initContainers";
    var ops := Patch(c, p, s, a)[..3];
    assert ops == [Add("/spec/volumes", v), Add("/spec/initContainers", i),
                   Add(ContainerPath(p.index, "volumeMounts"), m)];
    ApplyThree(Obj(c.pod), ops[0], ops[1], ops[2]);
  }

  lemma ApplyOne(doc: Json, op: Add)
    ensures ApplyAll(doc, [op]) == Apply(doc, op)
  {}

  lemma ApplyThree(doc: Json, x: Add, y: Add, z: Add)
    requires Apply(doc, x).Some? && Apply(Apply(doc, x).value, y).Some?
    ensures ApplyAll(doc, [x, y, z]) == Apply(Apply(Apply(doc, x).value, y).value, z)
  {
    hide Apply;
    assert [x, y, z][1..] == [y, z] && [y, z][1..] == [z];
    ApplyOne(Apply(Apply(doc, x).value, y).value, z);
  }

  /** Environment entries are appended to a present list, or become the list. */
  lemma EnvAdded(c: Chosen, p: Placement, s: Stock, a: Additions)
    requires p.index < |p.containers| && SliceField(p.container, "env").Ok?
    ensures ApplyAll(Obj(Stage(c.pod, InjectedSpec(p, s, a), p.containers, p.index,
                               p.container["volumeMounts" := Arr(s.mounts + a.mounts)])), EnvOps(p, a.env))
            == Some(Obj(Stage(c.pod, InjectedSpec(p, s, a), p.containers, p.index, InjectedContainer(p, s, a))))
  {
    hide Stage, Apply, ContainerPath, InjectedSpec;
    var mounted := p.container["volumeMounts" := Arr(s.mounts + a.mounts)];
    var old_ := EnvOf(p.container);
    if Present(p.container, "env") {
      assert mounted["env"] == Arr(old_) && old_ + a.env[..0] == old_;
      AppendAll(c.pod, p.(spec := InjectedSpec(p, s, a)), mounted, old_, a.env, 0);
      assert EnvOps(p.(spec := InjectedSpec(p, s, a)), a.env)[0..] == EnvOps(p, a.env);
    } else {
      AddToContainer(c.pod, InjectedSpec(p, s, a), p.containers, p.index, mounted, "env", Arr(a.env));
      ApplyOne(Obj(Stage(c.pod, InjectedSpec(p, s, a), p.containers, p.index, mounted)),
               Add(ContainerPath(p.index, "env"), Arr(a.env)));
      assert old_ + a.env == a.env;
    }
  }

  lemma MarkerAdded(c: Chosen, pod: Fields, runtime: string)
    requires "metadata" in pod && pod["metadata"] == Obj(c.metadata)
    requires MapField(c.metadata, "annotations") == Ok(c.annotations)
    ensures Apply(Obj(pod), MarkerOp(c.metadata, runtime))
            == var marked := c.metadata["annotations" := Obj(c.annotations[MARKER := Str(runtime)])];
               Some(Obj(pod["metadata" := Obj(marked)]))
  {
    hide AddAt, Pointer, PointerEscape, MARKER;
    MarkerPointer();
    if Present(c.metadata, "annotations") {
      AddLeaf(c.annotations, MARKER, Str(runtime));
      AddIn(c.metadata, "annotations", [MARKER], Str(runtime));
      assert ["annotations"] + [MARKER] == ["annotations", MARKER];
      AddIn(pod, "metadata", ["annotations", MARKER], Str(runtime));
      assert ["metadata"] + ["annotations", MARKER] == ["metadata", "annotations", MARKER];
    } else {
      AddLeaf(c.metadata, "annotations", Obj(map[MARKER := Str(runtime)]));
      AddIn(pod, "metadata", ["annotations"], Obj(map[MARKER := Str(runtime)]));
      assert ["metadata"] + ["annotations"] == ["metadata", "annotations"];
      assert c.annotations[MARKER := Str(runtime)] == map[MARKER := Str(runtime)];
    }
  }

  /** Every patch of the injector applies to its Pod, with exactly this result. */
  lemma PatchApplies(config: Config, request: Request, c: Chosen, p: Placement, s: Stock)
    requires Accepts(config, request, c, p, s)
    ensures p.index < |p.containers| && request.document == Some(Obj(c.pod)) && Admit(config, request).Ok?
    ensures ApplyAll(request.document.value, Admit(config, request).value)
            == Some(Obj(InjectedPod(c, p, s, AdditionsFor(config, request, c, s))))
  {
    hide Choose, Locate, Survey, Apply, AdditionsFor, InjectedSpec, InjectedContainer, MarkerOp;
    var a := AdditionsFor(config, request, c, s);
    ChosenFacts(config, request, c);
    PlacementFacts(c, p);
    ConflictFacts(p.container);
    ListsAdded(c, p, s, a);
    EnvAdded(c, p, s, a);
    PatchInThree(c, p, s, a);
    var staged := Stage(c.pod, InjectedSpec(p, s, a), p.containers, p.index, InjectedContainer(p, s, a));
    MarkerAdded(c, staged, a.runtime);
    ApplyOne(Obj(staged), MarkerOp(c.metadata, a.runtime));
    ApplyConcat(Obj(c.pod), Patch(c, p, s, a)[..3], EnvOps(p, a.env));
    ApplyConcat(Obj(c.pod), Patch(c, p, s, a)[..3] + EnvOps(p, a.env), [MarkerOp(c.metadata, a.runtime)]);
  }

  lemma PatchInThree(c: Chosen, p: Placement, s: Stock, a: Additions)
    ensures Patch(c, p, s, a) == Patch(c, p, s, a)[..3] + EnvOps(p, a.env) + [MarkerOp(c.metadata, a.runtime)]
  {
    hide EnvOps, MarkerOp, ContainerPath;
  }

  // ---------- what is unchanged ----------

  predicate SameBut(m: Fields, n: Fields, keys: set<string>) {
    m.Keys - keys == n.Keys - keys && forall k :: k in m && k in n && k !in keys ==> n[k] == m[k]
  }

  /** The object under `key`; an absent or null one is empty. */
  function Under(o: Fields, key: string): Fields {
    if MapField(o, key).Ok? then MapField(o, key).value else map[]
  }

  function ListOf(o: Fields, key: string): seq<Json> {
    if SliceField(o, key).Ok? then SliceField(o, key).value else []
  }

  /** The lists of a container grow at their ends; nothing else in it changes. */
  predicate ContainerGrows(before: Json, after: Json, a: Additions) {
    before.Obj? && after.Obj? && SameBut(before.fields, after.fields, {"volumeMounts", "env"})
    && after.fields.Keys >= {"volumeMounts", "env"}
    && after.fields["volumeMounts"] == Arr(ListOf(before.fields, "volumeMounts") + a.mounts)
    && after.fields["env"] == Arr(ListOf(before.fields, "env") + a.env)
  }

  predicate SpecGrows(before: Fields, after: Fields, target: nat, a: Additions) {
    SameBut(before, after, {"volumes", "initContainers", "containers"})
    && after.Keys >= {"volumes", "initContainers", "containers"}
    && after["volumes"] == Arr(ListOf(before, "volumes") + a.volumes)
    && after["initContainers"] == Arr(ListOf(before, "initContainers") + [a.initializer])
    && after["containers"].Arr?
    && var old_, new_ := ListOf(before, "containers"), after["containers"].items;
       |new_| == |old_| && target < |old_| && ContainerGrows(old_[target], new_[target], a)
       && forall k: nat :: k < |old_| && k != target ==> new_[k] == old_[k]
  }

  /** The annotations gain the marker and nothing else. */
  predicate MetadataGrows(before: Fields, after: Fields, a: Additions) {
    SameBut(before, after, {"annotations"}) && "annotations" in after
    && after["annotations"] == Obj(Under(before, "annotations")[MARKER := Str(a.runtime)])
  }

  predicate Grows(before: Json, after: Json, target: nat, a: Additions) {
    before.Obj? && after.Obj? && SameBut(before.fields, after.fields, {"spec", "metadata"})
    && after.fields.Keys >= {"spec", "metadata"} && after.fields["spec"].Obj? && after.fields["metadata"].Obj?
    && SpecGrows(Under(before.fields, "spec"), after.fields["spec"].fields, target, a)
    && MetadataGrows(Under(before.fields, "metadata"), after.fields["metadata"].fields, a)
  }

  lemma SpecGrown(p: Placement, s: Stock, a: Additions)
    requires p.index < |p.containers| && p.containers[p.index] == Obj(p.container)
    requires "containers" in p.spec && p.spec["containers"] == Arr(p.containers) && SliceField(p.container, "env").Ok?
    requires SliceField(p.spec, "volumes") == Ok(s.volumes)
    requires SliceField(p.spec, "initContainers") == Ok(s.initializers)
    requires SliceField(p.container, "volumeMounts") == Ok(s.mounts)
    ensures var containers := p.containers[p.index := Obj(InjectedContainer(p, s, a))];
            SpecGrows(p.spec, InjectedSpec(p, s, a)["containers" := Arr(containers)], p.index, a)
  {
    assert ContainerGrows(p.containers[p.index], Obj(InjectedContainer(p, s, a)), a);
    hide ContainerGrows, InjectedContainer;
  }

  /** An accepted patch applies; the Pod's lists grow by the generated entries, and nothing else changes. */
  lemma InjectionGrows(config: Config, request: Request, c: Chosen, p: Placement, s: Stock)
    requires Accepts(config, request, c, p, s)
    ensures request.document.Some? && Admit(config, request).Ok?
    ensures var r := ApplyAll(request.document.value, Admit(config, request).value);
            r.Some? && Grows(request.document.value, r.value, p.index, AdditionsFor(config, request, c, s))
  {
    hide Choose, Locate, Survey, Admit, ApplyAll, AdditionsFor, SpecGrows, InjectedSpec, InjectedContainer;
    var a := AdditionsFor(config, request, c, s);
    PatchApplies(config, request, c, p, s);
    ChosenFacts(config, request, c);
    PlacementFacts(c, p);
    ConflictFacts(p.container);
    StockFacts(c, p, s);
    SpecGrown(p, s, a);
  }

  // ---------- no second injection ----------

  /** The Pod carries a non-empty marker. */
  predicate Marked(doc: Json) {
    doc.Obj? && TextField(Under(Under(doc.fields, "metadata"), "annotations"), MARKER) != ""
  }

  lemma MarkedIsNotChosen(config: Config, request: Request, c: Chosen)
    requires request.document.Some? && Choose(config, request) == Ok(Some(c))
    ensures !Marked(request.document.value)
  {
    hide Choose;
    ChosenFacts(config, request, c);
  }

  lemma MarkedIsLeftAlone(config: Config, request: Request)
    requires request.document.Some? && Marked(request.document.value)
    ensures !Injects(config, request)
  {
    hide Choose, Locate, Survey, Marked, Injects;
    AcceptedExactly(config, request);
    if Injects(config, request) {
      var c, p, s :| Accepts(config, request, c, p, s);
      MarkedIsNotChosen(config, request, c);
    }
  }

  lemma InjectionMarks(config: Config, request: Request)
    requires Injects(config, request)
    ensures request.document.Some?
    ensures var r := ApplyAll(request.document.value, Admit(config, request).value); r.Some? && Marked(r.value)
  {
    hide Choose, Locate, Survey, Admit, ApplyAll, Injects, Accepts, AdditionsFor, SpecGrows;
    AcceptedExactly(config, request);
    var c, p, s :| Accepts(config, request, c, p, s);
    InjectionGrows(config, request, c, p, s);
    RuntimeNamed(config, request, c, p, s);
  }

  lemma RuntimeNamed(config: Config, request: Request, c: Chosen, p: Placement, s: Stock)
    requires Accepts(config, request, c, p, s)
    ensures AdditionsFor(config, request, c, s).runtime == c.runtime != ""
  {
    hide Choose, Locate, Survey;
    ChosenFacts(config, request, c);
  }

  /** Admissions of one Pod, each under its own configuration; an accepted patch is applied before the next. */
  datatype Round = Round(config: Config, request: Request)

  function Ask(doc: Json, r: Round): Request { r.request.(document := Some(doc)) }

  function NextPod(doc: Json, r: Round): Json {
    var ops := Admit(r.config, Ask(doc, r));
    if ops.Deny? then doc
    else
      var next := ApplyAll(doc, ops.value);
      if next.None? then doc else next.value
  }

  function Injections(doc: Json, rounds: seq<Round>): nat
    decreases |rounds|
  {
    if rounds == [] then 0
    else (if Injects(rounds[0].config, Ask(doc, rounds[0])) then 1 else 0)
         + Injections(NextPod(doc, rounds[0]), rounds[1..])
  }

  lemma {:induction false} MarkedStays(doc: Json, rounds: seq<Round>)
    requires Marked(doc)
    ensures Injections(doc, rounds) == 0
    decreases |rounds|
  {
    hide Marked, Admit;
    if rounds != [] {
      MarkedIsLeftAlone(rounds[0].config, Ask(doc, rounds[0]));
      assert NextPod(doc, rounds[0]) == doc;
      MarkedStays(doc, rounds[1..]);
    }
  }

  /** Whatever the configurations and requests, a Pod is injected at most once. */
  lemma {:induction false} AtMostOneInjection(doc: Json, rounds: seq<Round>)
    ensures Injections(doc, rounds) <= 1
    decreases |rounds|
  {
    hide Marked, Admit, Injects;
    if rounds != [] {
      var next := NextPod(doc, rounds[0]);
      if Injects(rounds[0].config, Ask(doc, rounds[0])) {
        InjectionMarks(rounds[0].config, Ask(doc, rounds[0]));
        InjectsOk(rounds[0].config, Ask(doc, rounds[0]));
        MarkedStays(next, rounds[1..]);
      } else {
        AtMostOneInjection(next, rounds[1..]);
      }
    }
  }

  lemma InjectsOk(config: Config, request: Request)
    requires Injects(config, request)
    ensures Admit(config, request).Ok?
  {
    hide Admit;
  }
}
