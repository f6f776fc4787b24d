/** What one run of publication leaves behind, in closed form, and what it takes to mark an image verified. */
module PublicationOutcome {
  import opened Bytes
  import opened Publication
  import opened PublicationSafety

  // ---------- the steps of a run ----------

  /** The lookup found the tag of image `i` at its digest. */
  predicate Found(m: Manifest, c: Course, i: nat)
    requires i < |m.images| == |c.lookups|
  {
    IsDigest(m.images[i].digest) && c.lookups[i].ok && c.lookups[i].digest == m.images[i].digest
  }

  /** The lookup proved that the tag is not there: an explicit absence, without any sign of a failure. */
  predicate Absent(m: Manifest, c: Course, i: nat)
    requires i < |m.images| == |c.lookups|
  {
    && IsDigest(m.images[i].digest) && !c.lookups[i].ok && !c.lookups[i].failure
    && (c.lookups[i].unknownManifest || c.lookups[i].notFound)
  }

  /** Everything before the manifest is written worked for image `i`: the push unless its tag was found, the digest read
      back, which for a tag that was found is the registry's, and the signing, attesting and verifying. */
  predicate Verifies(w: World, m: Manifest, c: Course, i: nat)
    requires i < |m.images| == |c.lookups|
  {
    && (if Found(m, c, i) then Published(w.registry, m.images[i]) else c.fate(4 * i).Works?)
    && c.fate(4 * i + 1).Works? && c.fate(4 * i + 2).Works?
  }

  predicate Succeeds(w: World, m: Manifest, c: Course, i: nat)
    requires i < |m.images| == |c.lookups|
  {
    Verifies(w, m, c, i) && c.fate(4 * i + 3).Works?
  }

  /** The run gets past its gates and its preflight. */
  predicate Starts(w: World, c: Course) {
    && w.disk.Some? && c.gates && |c.lookups| == |w.disk.value.images|
    && forall i: nat :: i < |c.lookups| ==> Found(w.disk.value, c, i) || Absent(w.disk.value, c, i)
  }

  /** The first `d` images succeed, and no more. */
  predicate Stops(w: World, c: Course, d: nat)
    requires w.disk.Some? && |c.lookups| == |w.disk.value.images|
  {
    && d <= |c.lookups| && (forall i: nat :: i < d ==> Succeeds(w, w.disk.value, c, i))
    && (d < |c.lookups| ==> !Succeeds(w, w.disk.value, c, d))
  }

  // ---------- what a run leaves ----------

  /** The registry with the first `n` images published. */
  function Pushed(registry: map<string, string>, images: seq<Image>, n: nat): map<string, string>
    requires n <= |images|
  {
    if n == 0 then registry else Pushed(registry, images, n - 1)[images[n - 1].tag := images[n - 1].digest]
  }

  /** The manifest with the first `n` images marked. */
  function MarkedUpTo(m: Manifest, n: nat): Manifest {
    m.(images := seq(|m.images|, j requires 0 <= j < |m.images| =>
                   m.images[j].(verified := m.images[j].verified || j < n)))
  }

  /** The tags that are bound when image `d` is the first not to succeed. */
  function PushedTo(m: Manifest, c: Course, d: nat): (n: nat)
    requires d <= |m.images| == |c.lookups|
    ensures n <= |m.images|
  {
    if d < |m.images| && !Found(m, c, d) && !c.fate(4 * d).FailsBefore? then d + 1 else d
  }

  /** The manifest on disk then: the marks written so far, or nothing after a torn write. */
  function Left(w: World, m: Manifest, c: Course, d: nat): Option<Manifest>
    requires d <= |m.images| == |c.lookups|
  {
    var n := |m.images|;
    var torn := if d == n then c.fate(4 * n).FailsAfter? else Verifies(w, m, c, d) && c.fate(4 * d + 3).FailsAfter?;
    if d == n && c.fate(4 * n).Works? then Some(MarkedUpTo(m, n).(verified := true))
    else if torn then None
    else if d == 0 then w.disk
    else Some(MarkedUpTo(m, d))
  }

  lemma {:induction false} PushedReads(registry: map<string, string>, images: seq<Image>, n: nat, j: nat)
    requires n <= |images| && j < |images| && Distinct(images)
    ensures var r := Pushed(registry, images, n);
            if j < n then images[j].tag in r && r[images[j].tag] == images[j].digest
            else (images[j].tag in r <==> images[j].tag in registry)
                 && (images[j].tag in r ==> r[images[j].tag] == registry[images[j].tag])
    decreases n
  {
    if n > 0 { PushedReads(registry, images, n - 1, j); }
  }

  /** The loop has come to image `i`. */
  predicate Reached(w: World, c: Course, i: nat, now: World, m: Manifest)
    requires w.disk.Some? && i <= |w.disk.value.images|
  {
    && m == MarkedUpTo(w.disk.value, i) && now.registry == Pushed(w.registry, w.disk.value.images, i)
    && now.disk == if i == 0 then w.disk else Some(m)
  }

  lemma MarkNext(m: Manifest, i: nat)
    requires i < |m.images|
    ensures i < |MarkedUpTo(m, i).images| && Mark(MarkedUpTo(m, i), i) == MarkedUpTo(m, i + 1)
    ensures MarkedUpTo(m, i).images[i].tag == m.images[i].tag && MarkedUpTo(m, i).images[i].digest == m.images[i].digest
  {
    assert Mark(MarkedUpTo(m, i), i).images == MarkedUpTo(m, i + 1).images;
  }

  lemma MarkNone(m: Manifest)
    ensures MarkedUpTo(m, 0) == m
  {
    assert MarkedUpTo(m, 0).images == m.images;
  }

  lemma BindNext(registry: map<string, string>, images: seq<Image>, i: nat, tag: string)
    requires i < |images| && tag in Pushed(registry, images, i) && tag == images[i].tag
    requires Pushed(registry, images, i)[tag] == images[i].digest
    ensures Pushed(registry, images, i + 1) == Pushed(registry, images, i)
  {}

  /** The set of the preflight. */
  predicate IsFound(w: World, c: Course, existing: set<nat>)
    requires w.disk.Some? && |c.lookups| == |w.disk.value.images|
  {
    forall j: nat :: j < |c.lookups| ==> (j in existing <==> Found(w.disk.value, c, j))
  }

  /** A turn of the loop whose steps all work. */
  lemma TurnWorks(now: World, m: Manifest, existing: set<nat>, i: nat, fate: nat -> Fate, k: nat) returns (w1: World)
    requires i < |m.images| && (i in existing || fate(k).Works?)
    requires fate(k + 1).Works? && fate(k + 2).Works? && fate(k + 3).Works?
    requires i in existing ==> Published(now.registry, m.images[i])
    ensures w1 == if i in existing then now else Bind(now, m.images[i])
    ensures PublishFrom(now, m, existing, i, fate, k)
         == PublishFrom(World(w1.registry, Some(Mark(m, i))), Mark(m, i), existing, i + 1, fate, k + 4)
  {
    w1 := if i in existing then now else Bind(now, m.images[i]);
    assert Published(w1.registry, m.images[i]);
    hide Mark, Bind;
  }

  /** A turn of the loop for an image that succeeds. */
  lemma LoopStep(w: World, c: Course, existing: set<nat>, i: nat, now: World, m: Manifest) returns (next: World)
    requires w.disk.Some? && Distinct(w.disk.value.images) && i < |c.lookups| == |w.disk.value.images|
    requires Succeeds(w, w.disk.value, c, i) && Reached(w, c, i, now, m) && IsFound(w, c, existing)
    ensures Reached(w, c, i + 1, next, MarkedUpTo(w.disk.value, i + 1)) && i < |m.images|
    ensures PublishFrom(now, m, existing, i, c.fate, 4 * i)
         == PublishFrom(next, MarkedUpTo(w.disk.value, i + 1), existing, i + 1, c.fate, 4 * (i + 1))
  {
    hide PublishFrom, Pushed, MarkedUpTo, Mark, Found, Distinct;
    var release := w.disk.value;
    MarkNext(release, i);
    PushedReads(w.registry, release.images, i, i);
    assert Found(release, c, i) <==> i in existing;
    var w1 := TurnWorks(now, m, existing, i, c.fate, 4 * i);
    next := World(w1.registry, Some(Mark(m, i)));
    PushNext(w.registry, release.images, i);
    if i in existing { BindNext(w.registry, release.images, i, release.images[i].tag); }
  }

  lemma PushNext(registry: map<string, string>, images: seq<Image>, i: nat)
    requires i < |images|
    ensures Pushed(registry, images, i + 1) == Pushed(registry, images, i)[images[i].tag := images[i].digest]
  {}

  /** The turn for the first image that does not succeed. */
  lemma LoopStop(w: World, c: Course, existing: set<nat>, d: nat, now: World, m: Manifest)
    requires w.disk.Some? && Distinct(w.disk.value.images) && d < |c.lookups| == |w.disk.value.images|
    requires !Succeeds(w, w.disk.value, c, d) && Reached(w, c, d, now, m) && IsFound(w, c, existing)
    ensures d < |m.images| && PublishFrom(now, m, existing, d, c.fate, 4 * d)
         == (World(Pushed(w.registry, w.disk.value.images, PushedTo(w.disk.value, c, d)), Left(w, w.disk.value, c, d)),
             false)
  {
    var release := w.disk.value;
    MarkNext(release, d);
    PushedReads(w.registry, release.images, d, d);
    PushedReads(w.registry, release.images, d + 1, d);
    PushNext(w.registry, release.images, d);
    assert Found(release, c, d) <==> d in existing;
    hide Pushed, MarkedUpTo, Distinct, IsFound;
  }

  lemma LoopEnd(w: World, c: Course, existing: set<nat>, now: World, m: Manifest)
    requires w.disk.Some? && |c.lookups| == |w.disk.value.images| && Reached(w, c, |c.lookups|, now, m)
    ensures |m.images| == |c.lookups|
    ensures PublishFrom(now, m, existing, |c.lookups|, c.fate, 4 * |c.lookups|)
         == (World(Pushed(w.registry, w.disk.value.images, PushedTo(w.disk.value, c, |c.lookups|)),
                   Left(w, w.disk.value, c, |c.lookups|)),
             c.fate(4 * |c.lookups|).Works?)
  {
    hide Pushed;
  }

  /** From image `i` on the loop does what the closed form says. */
  lemma {:induction false} LoopOutcome(w: World, c: Course, existing: set<nat>, i: nat, d: nat, now: World, m: Manifest)
    requires w.disk.Some? && Distinct(w.disk.value.images) && |c.lookups| == |w.disk.value.images|
    requires i <= d && Stops(w, c, d) && Reached(w, c, i, now, m) && IsFound(w, c, existing)
    ensures i <= |m.images| && PublishFrom(now, m, existing, i, c.fate, 4 * i)
         == (World(Pushed(w.registry, w.disk.value.images, PushedTo(w.disk.value, c, d)), Left(w, w.disk.value, c, d)),
             d == |c.lookups| && c.fate(4 * d).Works?)
    decreases d - i
  {
    hide PublishFrom, Pushed, PushedTo, Left, Reached, IsFound, Distinct, Succeeds;
    if i < d {
      var next := LoopStep(w, c, existing, i, now, m);
      LoopOutcome(w, c, existing, i + 1, d, next, MarkedUpTo(w.disk.value, i + 1));
    } else if d < |c.lookups| {
      LoopStop(w, c, existing, d, now, m);
    } else {
      LoopEnd(w, c, existing, now, m);
    }
  }

  /** What a run leaves, whatever its steps do, and when it ends. */
  lemma RunLeaves(w: World, c: Course, d: nat)
    requires w.disk.Some? && Distinct(w.disk.value.images) && Starts(w, c) && Stops(w, c, d)
    ensures Run(w, c)
         == (World(Pushed(w.registry, w.disk.value.images, PushedTo(w.disk.value, c, d)), Left(w, w.disk.value, c, d)),
             d == |c.lookups| && c.fate(4 * d).Works?)
  {
    hide PublishFrom, IsDigest;
    MarkNone(w.disk.value);
    LookupsRead(w.disk.value, c);
    LoopOutcome(w, c, Preflight(w.disk.value.images, c.lookups).value, 0, d, w, w.disk.value);
  }

  lemma {:induction false} StopsSomewhere(w: World, c: Course, i: nat) returns (d: nat)
    requires w.disk.Some? && |c.lookups| == |w.disk.value.images| && i <= |c.lookups|
    requires forall j: nat :: j < i ==> Succeeds(w, w.disk.value, c, j)
    ensures Stops(w, c, d)
    decreases |c.lookups| - i
  {
    hide Succeeds;
    if i < |c.lookups| && Succeeds(w, w.disk.value, c, i) {
      d := StopsSomewhere(w, c, i + 1);
    } else {
      d := i;
    }
  }

  lemma NeverStarts(w: World, c: Course)
    requires !Starts(w, c)
    ensures Run(w, c) == (w, false)
  {
    hide PublishFrom, IsDigest;
    if w.disk.Some? && |c.lookups| == |w.disk.value.images| { LookupsRead(w.disk.value, c); }
  }

  lemma LookupsRead(m: Manifest, c: Course)
    requires |c.lookups| == |m.images|
    ensures forall i: nat :: i < |c.lookups| ==>
              && (RemoteTagState(m.images[i].digest, c.lookups[i]).Existing? <==> Found(m, c, i))
              && (RemoteTagState(m.images[i].digest, c.lookups[i]).Missing? <==> Absent(m, c, i))
  {
    hide IsDigest;
  }

  /** Whatever its steps do, a run ends exactly when it starts, every image succeeds and the last write works. */
  lemma RunEndsExactly(w: World, c: Course)
    requires w.disk.Some? ==> Distinct(w.disk.value.images)
    ensures Run(w, c).1 <==>
              && Starts(w, c) && (forall i: nat :: i < |c.lookups| ==> Succeeds(w, w.disk.value, c, i))
              && c.fate(4 * |c.lookups|).Works?
  {
    hide Run, Succeeds, Left, PushedTo;
    if Starts(w, c) {
      var d := StopsSomewhere(w, c, 0);
      RunLeaves(w, c, d);
    } else {
      NeverStarts(w, c);
    }
  }

  // ---------- who marks an image ----------

  predicate MarkedOnDisk(w: World, i: nat) {
    w.disk.Some? && i < |w.disk.value.images| && w.disk.value.images[i].verified
  }

  predicate ReleasedOnDisk(w: World) { w.disk.Some? && w.disk.value.verified }

  /** A run marks an image only when everything worked for it, the writing of the manifest included. */
  lemma RunMarks(w: World, c: Course, i: nat)
    requires w.disk.Some? ==> Distinct(w.disk.value.images)
    requires MarkedOnDisk(Run(w, c).0, i) && !MarkedOnDisk(w, i)
    ensures Starts(w, c) && i < |c.lookups| && Succeeds(w, w.disk.value, c, i)
  {
    hide Run, Succeeds;
    if Starts(w, c) {
      var d := StopsSomewhere(w, c, 0);
      RunLeaves(w, c, d);
    } else {
      NeverStarts(w, c);
    }
  }

  /** It marks the release only when that holds for all images and the last write works. */
  lemma RunReleases(w: World, c: Course)
    requires w.disk.Some? ==> Distinct(w.disk.value.images)
    requires ReleasedOnDisk(Run(w, c).0) && !ReleasedOnDisk(w)
    ensures Starts(w, c) && (forall i: nat :: i < |c.lookups| ==> Succeeds(w, w.disk.value, c, i))
    ensures c.fate(4 * |c.lookups|).Works?
  {
    hide Run, Succeeds;
    if Starts(w, c) {
      var d := StopsSomewhere(w, c, 0);
      RunLeaves(w, c, d);
    } else {
      NeverStarts(w, c);
    }
  }

  /** At attempt `k` of the history everything worked for image `i`. */
  predicate MarkedBy(w: World, events: seq<Event>, k: nat, i: nat)
    requires k < |events|
  {
    && events[k].Attempt?
    && var now, c := After(w, events[..k]), events[k].course;
       Starts(now, c) && i < |c.lookups| && Succeeds(now, now.disk.value, c, i)
  }

  /** At attempt `k` everything worked for every image, and the release was marked. */
  predicate ReleasedBy(w: World, events: seq<Event>, k: nat)
    requires k < |events|
  {
    && events[k].Attempt?
    && var now, c := After(w, events[..k]), events[k].course;
       Starts(now, c) && (forall i: nat :: i < |c.lookups| ==> Succeeds(now, now.disk.value, c, i))
       && c.fate(4 * |c.lookups|).Works?
  }

  lemma DistinctThen(w: World, release: Manifest, events: seq<Event>, n: nat)
    requires Inv(w, release) && AllFair(w, release, events) && n <= |events|
    ensures var z := After(w, events[..n]); z.disk.Some? ==> Distinct(z.disk.value.images)
    ensures n < |events| && events[n].Restored? ==> Unmarked(events[n].manifest)
  {
    FairPrefix(w, release, events, n);
    HistoryKeeps(w, release, events[..n]);
    if n < |events| { FairThen(w, release, events, n); }
  }

  lemma {:induction false} FairPrefix(w: World, release: Manifest, events: seq<Event>, n: nat)
    requires AllFair(w, release, events) && n <= |events|
    ensures AllFair(w, release, events[..n])
    decreases n
  {
    hide Step, Fair;
    if n > 0 {
      FairPrefix(Step(w, events[0]), release, events[1..], n - 1);
      assert events[..n][1..] == events[1..][..n - 1];
    }
  }

  /** In every history, an image that is marked on disk now and was not at the start was marked by a run for which its
      read-back, its signing and verifying and the writing of the manifest all worked; and the same of the release, for
      all images. */
  lemma {:induction false} MarksAreEarned(w: World, release: Manifest, events: seq<Event>, n: nat, i: nat)
    requires Inv(w, release) && AllFair(w, release, events) && n <= |events|
    ensures MarkedOnDisk(After(w, events[..n]), i) && !MarkedOnDisk(w, i) ==>
              exists k: nat :: k < n && MarkedBy(w, events, k, i)
    ensures ReleasedOnDisk(After(w, events[..n])) && !ReleasedOnDisk(w) ==>
              exists k: nat :: k < n && ReleasedBy(w, events, k)
    decreases n
  {
    hide Run, Succeeds, AllFair, Inv;
    if n == 0 {
      assert events[..0] == [];
    } else {
      MarksAreEarned(w, release, events, n - 1, i);
      DistinctThen(w, release, events, n - 1);
      AfterOneMore(w, events, n - 1);
      hide After;
      var now := After(w, events[..n - 1]);
      if events[n - 1].Attempt? {
        var c := events[n - 1].course;
        if MarkedOnDisk(Run(now, c).0, i) && !MarkedOnDisk(now, i) {
          RunMarks(now, c, i);
          assert MarkedBy(w, events, n - 1, i);
        }
        if ReleasedOnDisk(Run(now, c).0) && !ReleasedOnDisk(now) {
          RunReleases(now, c);
          assert ReleasedBy(w, events, n - 1);
        }
      }
    }
  }
}
