/** Publication of a release in `images-release.py`: immutable tags over runs that may stop at any step. */
module Publication {
  import opened Bytes

  datatype Image = Image(tag: string, digest: string, verified: bool)

  datatype Manifest = Manifest(images: seq<Image>, verified: bool)

  /** What outlives a run: the registry's tags, and `release.json`, which a torn write leaves unreadable. */
  datatype World = World(registry: map<string, string>, disk: Option<Manifest>)

  // ---------- looking a tag up ----------

  /** A digest lookup as the script sees it: its output, and which patterns its diagnostics match. */
  datatype Lookup = Lookup(ok: bool, digest: string, failure: bool, unknownManifest: bool, notFound: bool)

  datatype TagState = Existing | Missing | Refused

  /** `remote_tag_state`. */
  function RemoteTagState(expected: string, r: Lookup): TagState {
    if !IsDigest(expected) then Refused
    else if r.ok then if IsDigest(r.digest) && r.digest == expected then Existing else Refused
    else if !r.failure && (r.unknownManifest || r.notFound) then Missing
    else Refused
  }

  /** The lookup does not lie: a digest it prints is the tag's, and an explicit absence is an absence. */
  predicate Truthful(registry: map<string, string>, tag: string, r: Lookup) {
    && (r.ok ==> tag in registry && registry[tag] == r.digest)
    && (!r.ok && !r.failure && (r.unknownManifest || r.notFound) ==> tag !in registry)
  }

  // ---------- one run ----------

  /** How an external step ends: it works, it fails before its effect, or it fails after (part of) its effect. */
  datatype Fate = Works | FailsBefore | FailsAfter

  /** Everything a run meets: the gates before publication, the preflight lookups, the fate of each later step. */
  datatype Course = Course(gates: bool, lookups: seq<Lookup>, fate: nat -> Fate)

  /** The images already published, or nothing when any tag is in conflict or unknown. */
  function Preflight(images: seq<Image>, lookups: seq<Lookup>): (r: Option<set<nat>>)
    requires |lookups| == |images|
  {
    if exists i :: 0 <= i < |images| && RemoteTagState(images[i].digest, lookups[i]).Refused? then None
    else Some(set i: nat | i < |images| && RemoteTagState(images[i].digest, lookups[i]).Existing?)
  }

  function Bind(w: World, image: Image): World { w.(registry := w.registry[image.tag := image.digest]) }

  function Mark(m: Manifest, i: nat): Manifest
    requires i < |m.images|
  {
    m.(images := m.images[i := m.images[i].(verified := true)])
  }

  /** Writing `release.json`: the new world and whether the run goes on. */
  function Write(w: World, m: Manifest, fate: Fate): (World, bool) {
    match fate
    case Works => (w.(disk := Some(m)), true)
    case FailsBefore => (w, false)
    case FailsAfter => (w.(disk := None), false)
  }

  /** The publishing loop from image `i` and step `k` on, with the manifest `m` in memory. */
  function PublishFrom(w: World, m: Manifest, existing: set<nat>, i: nat, fate: nat -> Fate, k: nat): (World, bool)
    requires i <= |m.images|
    decreases |m.images| - i
  {
    if i == |m.images| then Write(w, m.(verified := true), fate(k))
    else
      var image := m.images[i];
      var pushed := i in existing || fate(k).Works?;
      var w1 := if i !in existing && !fate(k).FailsBefore? then Bind(w, image) else w;
      if !pushed then (w1, false)
      else if !fate(k + 1).Works? then (w1, false)  // reading the digest back
      else if image.tag !in w1.registry || w1.registry[image.tag] != image.digest then (w1, false)
      else if !fate(k + 2).Works? then (w1, false)  // validating, signing, attesting, verifying
      else
        var marked := Mark(m, i);
        var r := Write(w1, marked, fate(k + 3));
        if r.1 then PublishFrom(r.0, marked, existing, i + 1, fate, k + 4) else r
  }

  /** `publish`: the world after the run, and whether it ran to its end. */
  function Run(w: World, c: Course): (World, bool) {
    if w.disk.None? || !c.gates || |c.lookups| != |w.disk.value.images| then (w, false)
    else match Preflight(w.disk.value.images, c.lookups)
      case None => (w, false)
      case Some(existing) => PublishFrom(w, w.disk.value, existing, 0, c.fate, 0)
  }

  // ---------- the script ----------

  class Publisher {
    var registry: map<string, string>
    var disk: Option<Manifest>

    function State(): World
      reads this
    {
      World(registry, disk)
    }

    constructor (w: World)
      ensures State() == w
    {
      registry, disk := w.registry, w.disk;
    }

    /** `preflight_remote_tags`: every tag is looked up before the verdict. */
    method PreflightRemoteTags(images: seq<Image>, lookups: seq<Lookup>) returns (existing: set<nat>, ok: bool)
      requires |lookups| == |images|
      ensures Preflight(images, lookups) == if ok then Some(existing) else None
    {
      existing := {};
      var errors := 0;
      for i := 0 to |images|
        invariant errors >= 0
        invariant errors == 0 <==> forall j :: 0 <= j < i ==> !RemoteTagState(images[j].digest, lookups[j]).Refused?
        invariant existing == set j: nat | j < i && RemoteTagState(images[j].digest, lookups[j]).Existing?
      {
        var state := RemoteTagState(images[i].digest, lookups[i]);
        if state.Existing? { existing := existing + {i}; }
        if state.Refused? { errors := errors + 1; }
      }
      return existing, errors == 0;
    }

    method WriteManifest(m: Manifest, fate: Fate) returns (ok: bool)
      modifies this
      ensures (State(), ok) == Write(old(State()), m, fate)
    {
      match fate {
        case Works => disk := Some(m); return true;
        case FailsBefore => return false;
        case FailsAfter => disk := None; return false;
      }
    }

    /** `publish`. */
    method Publish(c: Course) returns (ok: bool)
      modifies this
      ensures (State(), ok) == Run(old(State()), c)
    {
      if disk.None? || !c.gates || |c.lookups| != |disk.value.images| { return false; }
      var manifest := disk.value;
      var existing, passed := PreflightRemoteTags(manifest.images, c.lookups);
      if !passed { return false; }
      var k := 0;
      for i := 0 to |manifest.images|
        invariant |manifest.images| == |old(disk).value.images| && k >= 0
        invariant Run(old(State()), c) == PublishFrom(State(), manifest, existing, i, c.fate, k)
      {
        var image := manifest.images[i];
        if i !in existing {
          if c.fate(k).FailsBefore? { return false; }
          registry := registry[image.tag := image.digest];
          if c.fate(k).FailsAfter? { return false; }
        }
        if !c.fate(k + 1).Works? { return false; }
        if image.tag !in registry || registry[image.tag] != image.digest { return false; }
        if !c.fate(k + 2).Works? { return false; }
        manifest := Mark(manifest, i);
        ok := WriteManifest(manifest, c.fate(k + 3));
        if !ok { return; }
        k := k + 4;
      }
      manifest := manifest.(verified := true);
      ok := WriteManifest(manifest, c.fate(k));
    }
  }
}
