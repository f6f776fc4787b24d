/** Safety and progress of publication over any sequence of runs. */
module PublicationSafety {
  import opened Bytes
  import opened Publication

  // ---------- what every run keeps ----------

  predicate Distinct(images: seq<Image>) {
    forall i, j :: 0 <= i < j < |images| ==> images[i].tag != images[j].tag
  }

  /** The manifests differ at most in what is marked verified. */
  predicate SameRelease(m: Manifest, n: Manifest) {
    |m.images| == |n.images|
    && forall i :: 0 <= i < |m.images| ==>
         m.images[i].tag == n.images[i].tag && m.images[i].digest == n.images[i].digest
  }

  predicate Published(registry: map<string, string>, image: Image) {
    image.tag in registry && registry[image.tag] == image.digest
  }

  /** A verified image is published; a verified manifest has only verified images. */
  predicate Justified(registry: map<string, string>, m: Manifest) {
    && (forall i :: 0 <= i < |m.images| && m.images[i].verified ==> Published(registry, m.images[i]))
    && (m.verified ==> forall i :: 0 <= i < |m.images| ==> m.images[i].verified)
  }

  predicate Inv(w: World, release: Manifest) {
    Distinct(release.images)
    && (w.disk.Some? ==> SameRelease(w.disk.value, release) && Justified(w.registry, w.disk.value))
  }

  /** Bound tags stay bound to the same digest, and new ones are the release's own. */
  predicate Extends(old_: map<string, string>, new_: map<string, string>, release: Manifest) {
    && (forall t :: t in old_ ==> t in new_ && new_[t] == old_[t])
    && (forall t :: t in new_ && t !in old_ ==> exists i :: 0 <= i < |release.images| && release.images[i].tag == t
                                                           && release.images[i].digest == new_[t])
  }

  /** The run's lookups are truthful about the registry it starts from. */
  predicate Honest(w: World, c: Course) {
    w.disk.Some? && |c.lookups| == |w.disk.value.images| ==>
      forall i :: 0 <= i < |c.lookups| ==> Truthful(w.registry, w.disk.value.images[i].tag, c.lookups[i])
  }

  /** Tags of images from `i` on that were not found are still unbound. */
  predicate StillMissing(registry: map<string, string>, m: Manifest, existing: set<nat>, i: nat) {
    forall j: nat :: i <= j < |m.images| && j !in existing ==> m.images[j].tag !in registry
  }

  lemma ExtendsRefl(r: map<string, string>, release: Manifest)
    ensures Extends(r, r, release)
  {}

  lemma ExtendsTrans(a: map<string, string>, b: map<string, string>, c: map<string, string>, release: Manifest)
    requires Extends(a, b, release) && Extends(b, c, release)
    ensures Extends(a, c, release)
  {
    forall t | t in c && t !in a
      ensures exists i :: 0 <= i < |release.images| && release.images[i].tag == t && release.images[i].digest == c[t]
    {
      if t in b { assert c[t] == b[t]; }
    }
  }

  lemma BindExtends(w: World, m: Manifest, release: Manifest, existing: set<nat>, i: nat)
    requires Inv(w, release) && SameRelease(m, release) && i < |m.images| && i !in existing
    requires StillMissing(w.registry, m, existing, i) && Justified(w.registry, m)
    ensures var w1 := Bind(w, m.images[i]);
            && Extends(w.registry, w1.registry, release) && Inv(w1, release) && Justified(w1.registry, m)
            && StillMissing(w1.registry, m, existing, i + 1) && Published(w1.registry, m.images[i])
  {
    var w1 := Bind(w, m.images[i]);
    assert release.images[i].tag == m.images[i].tag && release.images[i].digest == m.images[i].digest;
  }

  /** Images before `i` are marked in memory. */
  predicate Marked(m: Manifest, i: nat) {
    forall j :: 0 <= j < i && j < |m.images| ==> m.images[j].verified
  }

  lemma MarkJustified(registry: map<string, string>, m: Manifest, release: Manifest, existing: set<nat>, i: nat)
    requires SameRelease(m, release) && i < |m.images| && Justified(registry, m) && Published(registry, m.images[i])
    requires Marked(m, i) && StillMissing(registry, m, existing, i + 1)
    ensures SameRelease(Mark(m, i), release) && Justified(registry, Mark(m, i))
    ensures Marked(Mark(m, i), i + 1) && StillMissing(registry, Mark(m, i), existing, i + 1)
  {}

  lemma VerifiedJustified(registry: map<string, string>, m: Manifest, release: Manifest)
    requires SameRelease(m, release) && Justified(registry, m) && Marked(m, |m.images|)
    ensures SameRelease(m.(verified := true), release) && Justified(registry, m.(verified := true))
  {}

  lemma {:induction false} PublishSafe(w: World, m: Manifest, release: Manifest, existing: set<nat>, i: nat,
                                       fate: nat -> Fate, k: nat)
    requires Inv(w, release) && SameRelease(m, release) && i <= |m.images| && Justified(w.registry, m)
    requires StillMissing(w.registry, m, existing, i) && Marked(m, i)
    ensures var r := PublishFrom(w, m, existing, i, fate, k);
            && Inv(r.0, release) && Extends(w.registry, r.0.registry, release)
            && (r.1 ==> r.0.disk.Some? && r.0.disk.value.verified)
    decreases |m.images| - i
  {
    hide Extends, Justified, SameRelease, Distinct, Marked;
    ExtendsRefl(w.registry, release);
    if i == |m.images| {
      VerifiedJustified(w.registry, m, release);
    } else {
      var image := m.images[i];
      var w1 := if i !in existing && !fate(k).FailsBefore? then Bind(w, image) else w;
      if i !in existing && !fate(k).FailsBefore? { BindExtends(w, m, release, existing, i); }
      if Published(w1.registry, image) && (i in existing || fate(k).Works?) {
        MarkJustified(w1.registry, m, release, existing, i);
        var marked := Mark(m, i);
        var r := Write(w1, marked, fate(k + 3));
        if r.1 {
          PublishSafe(r.0, marked, release, existing, i + 1, fate, k + 4);
          var next := PublishFrom(r.0, marked, existing, i + 1, fate, k + 4).0;
          ExtendsTrans(w.registry, w1.registry, next.registry, release);
        }
      }
    }
  }

  // ---------- one run ----------

  /** What a truthful lookup proves: a match, an absence, and never a conflict mistaken for either. */
  lemma StateSound(registry: map<string, string>, image: Image, r: Lookup)
    requires Truthful(registry, image.tag, r)
    ensures RemoteTagState(image.digest, r).Existing? ==> Published(registry, image)
    ensures RemoteTagState(image.digest, r).Missing? ==> image.tag !in registry
    ensures image.tag in registry && registry[image.tag] != image.digest ==> RemoteTagState(image.digest, r).Refused?
  {}

  lemma PreflightSound(w: World, c: Course)
    requires w.disk.Some? && |c.lookups| == |w.disk.value.images| && Honest(w, c)
    requires Preflight(w.disk.value.images, c.lookups).Some?
    ensures var existing := Preflight(w.disk.value.images, c.lookups).value;
            && StillMissing(w.registry, w.disk.value, existing, 0)
            && forall j: nat :: j in existing ==> j < |c.lookups| && Published(w.registry, w.disk.value.images[j])
  {
    var images := w.disk.value.images;
    forall j: nat | j < |images|
      ensures RemoteTagState(images[j].digest, c.lookups[j]).Existing? ==> Published(w.registry, images[j])
      ensures RemoteTagState(images[j].digest, c.lookups[j]).Missing? ==> images[j].tag !in w.registry
    {
      StateSound(w.registry, images[j], c.lookups[j]);
    }
  }

  lemma RunSafe(w: World, release: Manifest, c: Course)
    requires Inv(w, release) && Honest(w, c)
    ensures Inv(Run(w, c).0, release) && Extends(w.registry, Run(w, c).0.registry, release)
    ensures Run(w, c).1 ==> Run(w, c).0.disk.Some? && Run(w, c).0.disk.value.verified
  {
    hide Extends, Justified, SameRelease, Distinct, StillMissing, Honest, PublishFrom, Preflight;
    ExtendsRefl(w.registry, release);
    if w.disk.Some? && c.gates && |c.lookups| == |w.disk.value.images| {
      var existing := Preflight(w.disk.value.images, c.lookups);
      if existing.Some? {
        PreflightSound(w, c);
        PublishSafe(w, w.disk.value, release, existing.value, 0, c.fate, 0);
      }
    }
  }

  /** Some tag of the release holds another digest, or its lookup proves neither a match nor an absence. */
  predicate Blocked(w: World, c: Course) {
    w.disk.Some? && |c.lookups| == |w.disk.value.images| && exists i: nat :: i < |c.lookups| && BlockedAt(w, c, i)
  }

  predicate BlockedAt(w: World, c: Course, i: nat)
    requires w.disk.Some? && |c.lookups| == |w.disk.value.images| && i < |c.lookups|
  {
    var image := w.disk.value.images[i];
    || RemoteTagState(image.digest, c.lookups[i]).Refused?
    || (image.tag in w.registry && w.registry[image.tag] != image.digest)
  }

  /** One such tag anywhere in the release, and the run changes nothing at all. */
  lemma BlockedRunPushesNothing(w: World, c: Course)
    requires Honest(w, c) && Blocked(w, c)
    ensures Run(w, c) == (w, false)
  {
    var i: nat :| i < |c.lookups| && BlockedAt(w, c, i);
    StateSound(w.registry, w.disk.value.images[i], c.lookups[i]);
  }

  // ---------- any sequence of runs ----------

  /** A run, or the operator putting back a manifest of the same release in which nothing is marked. */
  datatype Event = Attempt(course: Course) | Restored(manifest: Manifest)

  function Step(w: World, e: Event): World {
    match e
    case Attempt(c) => Run(w, c).0
    case Restored(m) => w.(disk := Some(m))
  }

  function After(w: World, events: seq<Event>): World
    decreases |events|
  {
    if events == [] then w else After(Step(w, events[0]), events[1..])
  }

  predicate Unmarked(m: Manifest) { !m.verified && forall i :: 0 <= i < |m.images| ==> !m.images[i].verified }

  predicate Fair(w: World, release: Manifest, e: Event) {
    match e
    case Attempt(c) => Honest(w, c)
    case Restored(m) => SameRelease(m, release) && Unmarked(m)
  }

  predicate AllFair(w: World, release: Manifest, events: seq<Event>)
    decreases |events|
  {
    events == [] || (Fair(w, release, events[0]) && AllFair(Step(w, events[0]), release, events[1..]))
  }

  lemma {:induction false} HistoryKeeps(w: World, release: Manifest, events: seq<Event>)
    requires Inv(w, release) && AllFair(w, release, events)
    ensures Inv(After(w, events), release) && Extends(w.registry, After(w, events).registry, release)
    decreases |events|
  {
    hide Extends, Run, Honest;
    ExtendsRefl(w.registry, release);
    if events != [] {
      var next := Step(w, events[0]);
      if events[0].Attempt? { RunSafe(w, release, events[0].course); }
      HistoryKeeps(next, release, events[1..]);
      ExtendsTrans(w.registry, next.registry, After(w, events).registry, release);
    }
  }

  lemma {:induction false} AfterOneMore(w: World, events: seq<Event>, k: nat)
    requires k < |events|
    ensures After(w, events[..k + 1]) == Step(After(w, events[..k]), events[k])
    decreases k
  {
    hide Step;
    if k == 0 {
      assert events[..1][1..] == [];
    } else {
      AfterOneMore(Step(w, events[0]), events[1..], k - 1);
      assert events[..k + 1][1..] == events[1..][..k] && events[..k][1..] == events[1..][..k - 1];
    }
  }

  lemma {:induction false} FairThen(w: World, release: Manifest, events: seq<Event>, k: nat)
    requires AllFair(w, release, events) && k < |events|
    ensures Fair(After(w, events[..k]), release, events[k])
    decreases k
  {
    hide Step, Fair;
    if k > 0 {
      FairThen(Step(w, events[0]), release, events[1..], k - 1);
      assert events[..k][1..] == events[1..][..k - 1];
    }
  }

  /** After any history a bound tag keeps its digest, only the release's own tags have appeared, a blocked run has
      changed nothing, and a manifest that says `verified` has every image marked and every tag at its digest. */
  lemma HistorySafe(w: World, release: Manifest, events: seq<Event>)
    requires Inv(w, release) && AllFair(w, release, events)
    ensures var z := After(w, events);
            && (forall t :: t in w.registry ==> t in z.registry && z.registry[t] == w.registry[t])
            && (forall t :: t in z.registry && t !in w.registry ==>
                  exists i :: 0 <= i < |release.images| && release.images[i].tag == t
                              && release.images[i].digest == z.registry[t])
            && (z.disk.Some? && z.disk.value.verified ==>
                  && |z.disk.value.images| == |release.images|
                  && forall i :: 0 <= i < |release.images| ==>
                       z.disk.value.images[i].verified && Published(z.registry, release.images[i]))
    ensures forall k: nat :: k < |events| && events[k].Attempt? && Blocked(After(w, events[..k]), events[k].course) ==>
              After(w, events[..k + 1]) == After(w, events[..k])
  {
    hide After, AllFair, Blocked, Honest, Run;
    HistoryKeeps(w, release, events);
    forall k: nat | k < |events| && events[k].Attempt? && Blocked(After(w, events[..k]), events[k].course)
      ensures After(w, events[..k + 1]) == After(w, events[..k])
    {
      AfterOneMore(w, events, k);
      FairThen(w, release, events, k);
      BlockedRunPushesNothing(After(w, events[..k]), events[k].course);
    }
  }

  // ---------- progress ----------

  /** The lookup is conclusive: a digest, or an explicit absence. */
  predicate Definite(r: Lookup) {
    if r.ok then IsDigest(r.digest) else !r.failure && (r.unknownManifest || r.notFound)
  }

  predicate Available(registry: map<string, string>, m: Manifest) {
    forall i :: 0 <= i < |m.images| ==> m.images[i].tag !in registry || Published(registry, m.images[i])
  }

  /** The tags found before the run, and those handled so far, are at their digests. */
  predicate Held(registry: map<string, string>, m: Manifest, existing: set<nat>, i: nat) {
    forall j: nat :: j < |m.images| && (j < i || j in existing) ==> Published(registry, m.images[j])
  }

  lemma HeldStep(w: World, m: Manifest, existing: set<nat>, i: nat)
    requires i < |m.images| && Distinct(m.images) && Held(w.registry, m, existing, i)
    ensures var w1 := if i in existing then w else Bind(w, m.images[i]);
            && Published(w1.registry, m.images[i]) && Held(w1.registry, Mark(m, i), existing, i + 1)
            && Distinct(Mark(m, i).images)
  {}

  lemma {:induction false} PublishCompletes(w: World, m: Manifest, existing: set<nat>, i: nat, fate: nat -> Fate,
                                            k: nat)
    requires i <= |m.images| && Distinct(m.images) && Held(w.registry, m, existing, i)
    requires forall s :: fate(s).Works?
    ensures var r := PublishFrom(w, m, existing, i, fate, k);
            r.1 && r.0.disk.Some? && r.0.disk.value.verified
    decreases |m.images| - i
  {
    hide Held, Distinct;
    if i < |m.images| {
      var w1 := if i in existing then w else Bind(w, m.images[i]);
      HeldStep(w, m, existing, i);
      PublishCompletes(Write(w1, Mark(m, i), fate(k + 3)).0, Mark(m, i), existing, i + 1, fate, k + 4);
    }
  }

  /** With gates open, conclusive honest lookups and no failing step, a run completes exactly when every tag of the
      release is unbound or already at its recorded digest; it then leaves a verified manifest. */
  lemma RunCompletes(w: World, release: Manifest, c: Course)
    requires Inv(w, release) && Honest(w, c) && w.disk.Some? && c.gates
    requires |c.lookups| == |release.images| && forall i :: 0 <= i < |c.lookups| ==> Definite(c.lookups[i])
    requires forall i :: 0 <= i < |release.images| ==> IsDigest(release.images[i].digest)
    requires forall s :: c.fate(s).Works?
    ensures Run(w, c).1 <==> Available(w.registry, release)
    ensures Run(w, c).1 ==> Run(w, c).0.disk.Some? && Run(w, c).0.disk.value.verified
  {
    hide PublishFrom, IsDigest;
    var m := w.disk.value;
    forall i: nat | i < |m.images|
      ensures RemoteTagState(m.images[i].digest, c.lookups[i]).Refused?
              <==> !(m.images[i].tag !in w.registry || Published(w.registry, m.images[i]))
    {
      assert m.images[i].digest == release.images[i].digest;
    }
    var existing := Preflight(m.images, c.lookups);
    if existing.Some? {
      PreflightSound(w, c);
      PublishCompletes(w, m, existing.value, 0, c.fate, 0);
    }
  }
}
