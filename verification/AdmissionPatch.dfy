/** Applying the injector's patch to the Pod it was made for. */
module AdmissionPatch {
  import opened Bytes
  import opened Decimals
  import opened JsonPatch
  import opened Admission

  // ---------- pointers the injector writes ----------

  predicate IsPlain(s: string) { forall i :: 0 <= i < |s| ==> s[i] != '~' && s[i] != '/' }

  lemma {:induction false} Further(tokens: seq<string>, t: string)
    ensures PointerText(tokens + [t]) == PointerText(tokens) + "/" + PointerEscape(t)
  {
    hide PointerEscape;
    if tokens == [] {
      assert (tokens + [t])[1..] == [];
    } else {
      assert (tokens + [t])[1..] == tokens[1..] + [t];
      Further(tokens[1..], t);
    }
  }

  /** A pointer text extended by one token without `~` and `/`. */
  lemma FurtherPlain(text: string, tokens: seq<string>, t: string)
    requires IsPlain(t) && text == PointerText(tokens)
    ensures PointerText(tokens + [t]) == text + "/" + t
  {
    hide PointerEscape, PointerText;
    EscapePlain(t);
    Further(tokens, t);
  }

  lemma SpecText()
    ensures PointerText(["spec"]) == "/spec"
  {
    hide PointerEscape;
    FurtherPlain("", [], "spec");
    assert [] + ["spec"] == ["spec"] && "" + "/" + "spec" == "/spec";
  }

  lemma SpecPointer(field: string)
    requires IsPlain(field)
    ensures Pointer("/spec/" + field) == Some(["spec", field])
  {
    hide PointerText, Pointer;
    SpecText();
    FurtherPlain("/spec", ["spec"], field);
    assert ["spec"] + [field] == ["spec", field] && "/spec" + "/" + field == "/spec/" + field;
    PointerRoundTrip(["spec", field]);
  }

  lemma ItemText(i: nat)
    ensures PointerText(["spec", "containers", Dec(i)]) == "/spec/containers/" + Dec(i)
  {
    hide PointerText, Dec;
    SpecText();
    FurtherPlain("/spec", ["spec"], "containers");
    assert ["spec"] + ["containers"] == ["spec", "containers"] && "/spec" + "/" + "containers" == "/spec/containers";
    DecPlain(i);
    FurtherPlain("/spec/containers", ["spec", "containers"], Dec(i));
    assert ["spec", "containers"] + [Dec(i)] == ["spec", "containers", Dec(i)];
    assert "/spec/containers" + "/" + Dec(i) == "/spec/containers/" + Dec(i);
  }

  lemma DecPlain(m: nat)
    ensures IsPlain(Dec(m))
  {}

  lemma ContainerPointer(i: nat, field: string)
    requires IsPlain(field)
    ensures Pointer(ContainerPath(i, field)) == Some(["spec", "containers", Dec(i), field])
    ensures PointerText(["spec", "containers", Dec(i), field]) == ContainerPath(i, field)
  {
    hide PointerText, Pointer, Dec;
    var tokens := ["spec", "containers", Dec(i), field];
    ItemText(i);
    FurtherPlain("/spec/containers/" + Dec(i), ["spec", "containers", Dec(i)], field);
    assert ["spec", "containers", Dec(i)] + [field] == tokens;
    PointerRoundTrip(tokens);
  }

  lemma EnvEndPointer(i: nat)
    ensures Pointer(ContainerPath(i, "env/-")) == Some(["spec", "containers", Dec(i), "env", "-"])
  {
    hide PointerText, Pointer, Dec;
    var tokens := ["spec", "containers", Dec(i), "env", "-"];
    ContainerPointer(i, "env");
    FurtherPlain(ContainerPath(i, "env"), ["spec", "containers", Dec(i), "env"], "-");
    assert ["spec", "containers", Dec(i), "env"] + ["-"] == tokens;
    assert "env" + "/" + "-" == "env/-" && ContainerPath(i, "env") + "/" + "-" == ContainerPath(i, "env/-");
    PointerRoundTrip(tokens);
  }

  lemma MarkerPointer()
    ensures Pointer("/metadata/annotations/" + PointerEscape(MARKER)) == Some(["metadata", "annotations", MARKER])
    ensures Pointer("/metadata/annotations") == Some(["metadata", "annotations"])
  {
    hide PointerText, Pointer, PointerEscape, MARKER;
    assert PointerText([]) == "" by { NoTokens(); }
    FurtherPlain("", [], "metadata");
    assert [] + ["metadata"] == ["metadata"] && "" + "/" + "metadata" == "/metadata";
    FurtherPlain("/metadata", ["metadata"], "annotations");
    assert ["metadata"] + ["annotations"] == ["metadata", "annotations"];
    assert "/metadata" + "/" + "annotations" == "/metadata/annotations";
    Further(["metadata", "annotations"], MARKER);
    assert ["metadata", "annotations"] + [MARKER] == ["metadata", "annotations", MARKER];
    assert "/metadata/annotations" + "/" + PointerEscape(MARKER) == "/metadata/annotations/" + PointerEscape(MARKER);
    PointerRoundTrip(["metadata", "annotations"]);
    PointerRoundTrip(["metadata", "annotations", MARKER]);
  }

  lemma NoTokens()
    ensures PointerText([]) == ""
  {}

  // ---------- one addition ----------

  lemma AddIn(fields: Fields, t: string, tokens: seq<string>, value: Json)
    requires t in fields && tokens != [] && AddAt(fields[t], tokens, value).Some?
    ensures AddAt(Obj(fields), [t] + tokens, value) == Some(Obj(fields[t := AddAt(fields[t], tokens, value).value]))
  {
    assert ([t] + tokens)[1..] == tokens;
  }

  lemma AddLeaf(fields: Fields, t: string, value: Json)
    ensures AddAt(Obj(fields), [t], value) == Some(Obj(fields[t := value]))
  {}

  lemma AddIndex(items: seq<Json>, i: nat, tokens: seq<string>, value: Json)
    requires i < |items| && tokens != [] && AddAt(items[i], tokens, value).Some?
    ensures AddAt(Arr(items), [Dec(i)] + tokens, value) == Some(Arr(items[i := AddAt(items[i], tokens, value).value]))
  {
    DecIsIndex(i);
    assert ([Dec(i)] + tokens)[1..] == tokens;
  }

  /** The Pod with other contents in its specification and in container `i`. */
  function Stage(pod: Fields, spec: Fields, containers: seq<Json>, i: nat, container: Fields): Fields
    requires i < |containers|
  {
    pod["spec" := Obj(spec["containers" := Arr(containers[i := Obj(container)])])]
  }

  lemma AddToSpec(pod: Fields, spec: Fields, containers: seq<Json>, i: nat, container: Fields, field: string,
          value: Json)
    requires i < |containers| && IsPlain(field) && field != "containers"
    ensures Apply(Obj(Stage(pod, spec, containers, i, container)), Add("/spec/" + field, value))
            == Some(Obj(Stage(pod, spec[field := value], containers, i, container)))
  {
    hide AddAt, Pointer, PointerText;
    var doc := Stage(pod, spec, containers, i, container);
    var list := Arr(containers[i := Obj(container)]);
    SpecPointer(field);
    AddLeaf(spec["containers" := list], field, value);
    AddIn(doc, "spec", [field], value);
    assert ["spec"] + [field] == ["spec", field];
    assert spec["containers" := list][field := value] == spec[field := value]["containers" := list];
    assert doc["spec" := Obj(spec[field := value]["containers" := list])]
           == Stage(pod, spec[field := value], containers, i, container);
  }

  lemma AddInContainer(pod: Fields, spec: Fields, containers: seq<Json>, i: nat, container: Fields,
                       tokens: seq<string>, value: Json, next: Fields)
    requires i < |containers| && tokens != [] && AddAt(Obj(container), tokens, value) == Some(Obj(next))
    ensures AddAt(Obj(Stage(pod, spec, containers, i, container)), ["spec", "containers", Dec(i)] + tokens, value)
            == Some(Obj(Stage(pod, spec, containers, i, next)))
  {
    hide AddAt;
    var doc := Stage(pod, spec, containers, i, container);
    var list := containers[i := Obj(container)];
    var inner := spec["containers" := Arr(list)];
    AddIndex(list, i, tokens, value);
    AddIn(inner, "containers", [Dec(i)] + tokens, value);
    AddIn(doc, "spec", ["containers"] + ([Dec(i)] + tokens), value);
    assert ["spec"] + (["containers"] + ([Dec(i)] + tokens)) == ["spec", "containers", Dec(i)] + tokens;
    assert list[i := Obj(next)] == containers[i := Obj(next)];
    assert inner["containers" := Arr(list[i := Obj(next)])] == spec["containers" := Arr(containers[i := Obj(next)])];
    assert doc["spec" := Obj(spec["containers" := Arr(containers[i := Obj(next)])])]
           == Stage(pod, spec, containers, i, next);
  }

  lemma AddToContainer(pod: Fields, spec: Fields, containers: seq<Json>, i: nat, container: Fields, field: string,
          value: Json)
    requires i < |containers| && IsPlain(field)
    ensures Apply(Obj(Stage(pod, spec, containers, i, container)), Add(ContainerPath(i, field), value))
            == Some(Obj(Stage(pod, spec, containers, i, container[field := value])))
  {
    hide AddAt, Pointer, PointerText, Stage, ContainerPath, Dec;
    ContainerPointer(i, field);
    AddLeaf(container, field, value);
    AddInContainer(pod, spec, containers, i, container, [field], value, container[field := value]);
    assert ["spec", "containers", Dec(i)] + [field] == ["spec", "containers", Dec(i), field];
  }

  lemma AppendEnv(pod: Fields, spec: Fields, containers: seq<Json>, i: nat, container: Fields, env: seq<Json>,
          value: Json)
    requires i < |containers| && "env" in container && container["env"] == Arr(env)
    ensures Apply(Obj(Stage(pod, spec, containers, i, container)), Add(ContainerPath(i, "env/-"), value))
            == Some(Obj(Stage(pod, spec, containers, i, container["env" := Arr(env + [value])])))
  {
    EnvEndPointer(i);
    assert AddAt(Arr(env), ["-"], value) == Some(Arr(env + [value]));
    AddIn(container, "env", ["-"], value);
    assert ["env"] + ["-"] == ["env", "-"];
    AddInContainer(pod, spec, containers, i, container, ["env", "-"], value, container["env" := Arr(env + [value])]);
    assert ["spec", "containers", Dec(i)] + ["env", "-"] == ["spec", "containers", Dec(i), "env", "-"];
  }

  /** The appending operations from entry `k` on. */
  lemma {:induction false} AppendAll(pod: Fields, p: Placement, container: Fields, old_: seq<Json>, env: seq<Json>,
          k: nat)
    requires p.index < |p.containers| && k <= |env| && Present(p.container, "env")
    requires "env" in container && container["env"] == Arr(old_ + env[..k])
    ensures ApplyAll(Obj(Stage(pod, p.spec, p.containers, p.index, container)), EnvOps(p, env)[k..])
            == Some(Obj(Stage(pod, p.spec, p.containers, p.index, container["env" := Arr(old_ + env)])))
    decreases |env| - k
  {
    hide Stage, Apply;
    var ops := EnvOps(p, env);
    if k == |env| {
      assert env[..k] == env;
      assert container["env" := Arr(old_ + env)] == container;
    } else {
      AppendEnv(pod, p.spec, p.containers, p.index, container, old_ + env[..k], env[k]);
      assert old_ + env[..k] + [env[k]] == old_ + env[..k + 1];
      var next := container["env" := Arr(old_ + env[..k + 1])];
      AppendAll(pod, p, next, old_, env, k + 1);
      assert next["env" := Arr(old_ + env)] == container["env" := Arr(old_ + env)];
      assert ops[k..][1..] == ops[k + 1..] && ops[k..][0] == ops[k];
    }
  }
}
