/** What the injector's comparison of mount paths decides: of the paths as written, and of the directories. */
module MountPaths {
  import opened Bytes
  import opened JsonPatch
  import opened Admission

  // ---------- paths as they are written ----------

  /** The path is the other one or one of its ancestors, segment by segment. */
  predicate Reaches(a: string, b: string) { Split(a, '/') <= Split(b, '/') }

  predicate Related(a: string, b: string) { Reaches(a, b) || Reaches(b, a) }

  lemma SplitStep(x: string, y: string)
    requires forall i :: 0 <= i < |x| ==> x[i] != '/'
    ensures Split(x + ['/'] + y, '/') == [x] + Split(y, '/')
  {
    var path := x + ['/'] + y;
    CutAt(x, '/', y);
    assert path[..|x|] == x && path[|x| + 1..] == y;
  }

  lemma SplitLast(x: string)
    requires forall i :: 0 <= i < |x| ==> x[i] != '/'
    ensures Split(x, '/') == [x]
  {
    CutAt(x, '/', "");
  }

  /** A string is its last segment, or a first segment, a slash and the rest. */
  lemma FirstSegment(x: string) returns (h: string, t: string)
    requires Cut(x, '/') < |x|
    ensures x == h + ['/'] + t && (forall i :: 0 <= i < |h| ==> h[i] != '/') && |t| < |x|
    ensures Split(x, '/') == [h] + Split(t, '/')
  {
    hide Split;
    var k := Cut(x, '/');
    h, t := x[..k], x[k + 1..];
    assert x == h + ['/'] + t;
    SplitStep(h, t);
  }

  lemma OneSegment(x: string)
    requires Cut(x, '/') == |x|
    ensures Split(x, '/') == [x] && forall i :: 0 <= i < |x| ==> x[i] != '/'
  {}

  /** Prefixes of segment lists are string prefixes that end at a slash. */
  lemma {:induction false} ReachesExact(a: string, b: string)
    ensures Reaches(a, b) <==> a == b || a + "/" <= b
    decreases |a|
  {
    hide Split;
    if Cut(a, '/') < |a| && Cut(b, '/') < |b| {
      var h, t := FirstSegment(a);
      var g, r := FirstSegment(b);
      hide Cut;
      if h == g {
        ReachesExact(t, r);
        TailsReach([h], Split(t, '/'), Split(r, '/'));
        PrefixAfter(h + ['/'], t, r);
      } else {
        if a == b || a + "/" <= b { SameHead(h, t, g, r, b); }
        assert ([h] + Split(t, '/'))[0] == h && ([g] + Split(r, '/'))[0] == g;
      }
    } else if Cut(a, '/') < |a| {
      var h, t := FirstSegment(a);
      OneSegment(b);
      assert |h| < |b| ==> b[|h|] != '/';
      assert a[|h|] == '/' && (a + "/")[|h|] == '/';
    } else {
      OneSegment(a);
      if Cut(b, '/') < |b| {
        var g, r := FirstSegment(b);
        LastReaches(a, g, r, b);
      } else {
        OneSegment(b);
        assert |a| < |b| ==> b[|a|] != '/';
        assert (a + "/")[|a|] == '/';
        assert [a][0] == a && [b][0] == b;
      }
    }
  }

  lemma TailsReach(head: seq<string>, x: seq<string>, y: seq<string>)
    ensures head + x <= head + y <==> x <= y
  {
    if head + x <= head + y {
      assert x == (head + x)[|head|..] && (head + y)[..|head + x|][|head|..] == y[..|x|];
    }
  }

  /** The head is what stands before the first slash. */
  lemma SameHead(h: string, t: string, g: string, r: string, b: string)
    requires b == g + ['/'] + r && h + ['/'] <= b
    requires (forall i :: 0 <= i < |h| ==> h[i] != '/') && forall i :: 0 <= i < |g| ==> g[i] != '/'
    ensures h == g
  {
    var tail := b[|h| + 1..];
    assert b == h + ['/'] + tail;
    CutAt(h, '/', tail);
    CutAt(g, '/', r);
    hide Cut;
    assert h == b[..|h|] && g == b[..|g|];
  }

  lemma LastReaches(a: string, g: string, r: string, b: string)
    requires b == g + ['/'] + r && Split(a, '/') == [a] && Split(b, '/') == [g] + Split(r, '/')
    requires (forall i :: 0 <= i < |a| ==> a[i] != '/') && forall i :: 0 <= i < |g| ==> g[i] != '/'
    ensures Reaches(a, b) <==> a == b || a + "/" <= b
  {
    hide Split;
    assert b[|g|] == '/';
    if a + "/" <= b { SameHead(a, "", g, r, b); }
    assert ([g] + Split(r, '/'))[0] == g;
  }

  lemma HeadsAgree(x: seq<string>, y: seq<string>)
    requires x != [] && y != [] && x[0] == y[0]
    ensures x <= y <==> x[1..] <= y[1..]
  {
    if x[1..] <= y[1..] {
      assert x == [x[0]] + x[1..] && y == [y[0]] + y[1..];
    }
  }

  lemma PrefixAfter(head: string, rest: string, tail: string)
    ensures head + rest == head + tail <==> rest == tail
    ensures head + rest + "/" <= head + tail <==> rest + "/" <= tail
  {
    assert (head + rest)[|head|..] == rest && (head + tail)[|head|..] == tail;
    assert head + rest + "/" == head + (rest + "/");
    if head + rest + "/" <= head + tail {
      assert (head + tail)[..|head| + |rest + "/"|] == head + (rest + "/");
      assert (head + tail)[..|head| + |rest + "/"|][|head|..] == tail[..|rest + "/"|];
    }
  }

  /** For an absolute reserved path, `mountOverlap` is the segment-wise relation of the path without a final slash. */
  lemma MountOverlapExact(mount: string, reserved: string)
    requires reserved != "" && reserved[0] == '/'
    ensures MountOverlap(mount, reserved) <==> Related(TrimSlash(mount), reserved)
  {
    ReachesExact(TrimSlash(mount), reserved);
    ReachesExact(reserved, TrimSlash(mount));
    if mount == "/" { assert TrimSlash(mount) + "/" <= reserved; }
  }

  // ---------- paths as the system resolves them ----------

  /** The directory that the segments lead to from `done`: empty and `.` segments stay, `..` goes up. */
  function Resolve(segments: seq<string>, done: seq<string>): seq<string> {
    if segments == [] then done
    else if segments[0] == "" || segments[0] == "." then Resolve(segments[1..], done)
    else if segments[0] == ".." then Resolve(segments[1..], if done == [] then [] else done[..|done| - 1])
    else Resolve(segments[1..], done + [segments[0]])
  }

  function Resolved(path: string): seq<string> { Resolve(Split(path, '/'), []) }

  predicate IsName(segment: string) { segment != "" && segment != "." && segment != ".." }

  predicate AreNames(x: seq<string>) { forall i :: 0 <= i < |x| ==> IsName(x[i]) }

  /** Absolute or empty, and every further segment is a name. */
  predicate IsPlainPath(path: string) {
    var segments := Split(path, '/');
    segments[0] == "" && forall i :: 1 <= i < |segments| ==> IsName(segments[i])
  }

  lemma {:induction false} ResolveNames(segments: seq<string>, done: seq<string>)
    requires AreNames(segments)
    ensures Resolve(segments, done) == done + segments
    decreases |segments|
  {
    if segments != [] {
      ResolveNames(segments[1..], done + [segments[0]]);
      assert done + [segments[0]] + segments[1..] == done + segments;
    } else {
      assert done + [] == done;
    }
  }

  lemma PlainResolves(path: string)
    requires IsPlainPath(path)
    ensures Resolved(path) == Split(path, '/')[1..]
  {
    var segments := Split(path, '/');
    ResolveNames(segments[1..], []);
    assert [] + segments[1..] == segments[1..];
  }

  lemma {:induction false} SplitFinalSlash(path: string)
    ensures Split(path + "/", '/') == Split(path, '/') + [""]
    decreases |path|
  {
    hide Split;
    var k := Cut(path, '/');
    if k < |path| {
      var h, t := path[..k], path[k + 1..];
      assert path == h + ['/'] + t && path + "/" == h + ['/'] + (t + "/");
      SplitStep(h, t);
      SplitStep(h, t + "/");
      SplitFinalSlash(t);
    } else {
      SplitLast(path);
      SplitLast("");
      SplitStep(path, "");
      assert path + ['/'] + "" == path + "/";
    }
  }

  lemma {:induction false} ResolveFinalEmpty(segments: seq<string>, done: seq<string>)
    ensures Resolve(segments + [""], done) == Resolve(segments, done)
    decreases |segments|
  {
    if segments == [] {
      assert [] + [""] == [""] && [""][1..] == [];
    } else {
      assert (segments + [""])[1..] == segments[1..] + [""];
      ResolveFinalEmpty(segments[1..], done);
      ResolveFinalEmpty(segments[1..], if done == [] then [] else done[..|done| - 1]);
      ResolveFinalEmpty(segments[1..], done + [segments[0]]);
    }
  }

  lemma TrimResolves(path: string)
    ensures Resolved(TrimSlash(path)) == Resolved(path)
  {
    if path != "" && path[|path| - 1] == '/' {
      var t := TrimSlash(path);
      assert path == t + "/";
      SplitFinalSlash(t);
      ResolveFinalEmpty(Split(t, '/'), []);
    }
  }

  /** Up to segment `n` the path is written plainly: it starts with a slash, and each further segment is a name. */
  predicate PlainFor(segments: seq<string>, n: nat) {
    segments != [] && segments[0] == "" && forall i :: 1 <= i <= n && i < |segments| ==> IsName(segments[i])
  }

  /** The segments that are names. */
  function Names(segments: seq<string>): seq<string> {
    if segments == [] then []
    else (if IsName(segments[0]) then [segments[0]] else []) + Names(segments[1..])
  }

  /** Without `..`, resolving only drops the segments that are not names. */
  lemma {:induction false} ResolveKeepsNames(segments: seq<string>, done: seq<string>)
    requires ".." !in segments
    ensures Resolve(segments, done) == done + Names(segments)
    decreases |segments|
  {
    if segments == [] {
      assert done + [] == done;
    } else if IsName(segments[0]) {
      ResolveKeepsNames(segments[1..], done + [segments[0]]);
      assert done + [segments[0]] + Names(segments[1..]) == done + ([segments[0]] + Names(segments[1..]));
    } else {
      ResolveKeepsNames(segments[1..], done);
      assert [] + Names(segments[1..]) == Names(segments[1..]);
    }
  }

  lemma {:induction false} NamesSplit(x: seq<string>, y: seq<string>)
    requires AreNames(x)
    ensures Names(x + y) == x + Names(y)
    decreases |x|
  {
    if x == [] {
      assert [] + y == y && [] + Names(y) == Names(y);
    } else {
      assert (x + y)[1..] == x[1..] + y;
      NamesSplit(x[1..], y);
      assert [x[0]] + (x[1..] + Names(y)) == x + Names(y);
    }
  }

  /** What a path written plainly up to segment `n` resolves to: those segments, then the names of the rest. */
  lemma PlainForNames(s: seq<string>, n: nat)
    requires PlainFor(s, n)
    ensures n + 1 < |s| ==> Names(s) == s[1..n + 1] + Names(s[n + 1..])
    ensures |s| <= n + 1 ==> Names(s) == s[1..]
  {
    if n + 1 < |s| {
      PlainThenRest(s, n);
    } else {
      EmptyIsNoName(s);
      PlainNames(s, n);
      hide Names, PlainFor, AreNames;
      AllNames(s[1..]);
    }
  }

  lemma PlainThenRest(s: seq<string>, n: nat)
    requires PlainFor(s, n) && n + 1 < |s|
    ensures Names(s) == s[1..n + 1] + Names(s[n + 1..])
  {
    EmptyIsNoName(s);
    PlainNames(s, n);
    hide Names, PlainFor, AreNames;
    var x, y := s[1..n + 1], s[n + 1..];
    assert x + y == s[1..];
    NamesSplit(x, y);
  }

  lemma PlainNames(s: seq<string>, n: nat)
    requires PlainFor(s, n)
    ensures n + 1 < |s| ==> AreNames(s[1..n + 1])
    ensures |s| <= n + 1 ==> AreNames(s[1..])
  {
    hide IsName;
  }

  lemma EmptyIsNoName(s: seq<string>)
    requires s != [] && s[0] == ""
    ensures Names(s) == Names(s[1..])
  {
    assert [] + Names(s[1..]) == Names(s[1..]);
  }

  lemma AllNames(s: seq<string>)
    requires AreNames(s)
    ensures Names(s) == s
  {
    var none: seq<string> := [];
    NamesSplit(s, none);
    assert s + none == s && Names(none) == none;
  }

  predicate EitherPrefix(x: seq<string>, y: seq<string>) { x <= y || y <= x }

  /** Segments that agree as written agree as names, and plain ones the other way round. */
  lemma PrefixOfNames(s: seq<string>, r: seq<string>)
    requires s != [] && r != [] && PlainFor(r, |r| - 1)
    ensures EitherPrefix(s, r) <==> PlainFor(s, |r| - 1) && EitherPrefix(Names(s), r[1..])
  {
    var n := |r| - 1;
    assert s <= r ==> forall i :: 0 <= i < |s| ==> s[i] == r[i];
    assert r <= s ==> forall i :: 0 <= i < |r| ==> s[i] == r[i];
    if PlainFor(s, n) {
      hide Names;
      PlainForNames(s, n);
      if n + 1 < |s| {
        FirstNames(s, r, Names(s[n + 1..]));
      } else {
        HeadsAgree(s, r);
        HeadsAgree(r, s);
      }
    }
  }

  lemma FirstNames(s: seq<string>, r: seq<string>, more: seq<string>)
    requires |s| > |r| > 0 && s[0] == r[0]
    ensures EitherPrefix(s, r) <==> EitherPrefix(s[1..|r|] + more, r[1..])
  {
    assert EitherPrefix(s, r) <==> s[..|r|] == r;
    assert |s[1..|r|]| == |r[1..]|;
    if EitherPrefix(s[1..|r|] + more, r[1..]) {
      assert (s[1..|r|] + more)[..|r| - 1] == s[1..|r|];
      assert s[1..|r|] == r[1..];
      assert s[..|r|] == [s[0]] + s[1..|r|] && r == [r[0]] + r[1..];
    }
    if s[..|r|] == r {
      assert s[1..|r|] == s[..|r|][1..] == r[1..];
    }
  }

  /** For a mount path without `..` the test is exact: it holds when the directories are related and the path is written
      plainly as far as the reserved one goes. */
  lemma MountOverlapResolved(mount: string, reserved: string)
    requires IsPlainPath(reserved) && reserved != "" && ".." !in Split(TrimSlash(mount), '/')
    ensures MountOverlap(mount, reserved) <==>
              PlainFor(Split(TrimSlash(mount), '/'), |Split(reserved, '/')| - 1)
              && EitherPrefix(Resolved(mount), Resolved(reserved))
  {
    hide *;
    StartsWithSlash(reserved);
    MountOverlapExact(mount, reserved);
    RelatedSegments(TrimSlash(mount), reserved);
    ResolvedNames(TrimSlash(mount));
    PlainResolves(reserved);
    TrimResolves(mount);
    PlainIsPlainFor(reserved);
    PrefixOfNames(Split(TrimSlash(mount), '/'), Split(reserved, '/'));
  }

  lemma RelatedSegments(a: string, b: string)
    ensures Related(a, b) <==> EitherPrefix(Split(a, '/'), Split(b, '/'))
  {
    hide Split;
  }

  lemma ResolvedNames(path: string)
    requires ".." !in Split(path, '/')
    ensures Resolved(path) == Names(Split(path, '/'))
  {
    hide Split, Resolve, Names;
    var s := Split(path, '/');
    ResolveKeepsNames(s, []);
    assert [] + Names(s) == Names(s);
  }

  lemma PlainIsPlainFor(path: string)
    requires IsPlainPath(path)
    ensures PlainFor(Split(path, '/'), |Split(path, '/')| - 1)
  {
    hide Split;
  }

  lemma StartsWithSlash(path: string)
    requires IsPlainPath(path) && path != ""
    ensures path[0] == '/'
  {
    assert Split(path, '/')[0] == path[..Cut(path, '/')];
  }

  lemma SdkMountIsPlain()
    ensures IsPlainPath(SDK_MOUNT)
  {
    hide Split;
    SplitLast("elven-auto");
    SplitStep("", "elven-auto");
    assert "" + ['/'] + "elven-auto" == SDK_MOUNT;
  }

  lemma TlsTail()
    ensures Split("run/elven/tls", '/') == ["run"] + (["elven"] + ["tls"])
  {
    hide Split;
    SplitLast("tls");
    SplitStep("elven", "tls");
    assert "elven" + ['/'] + "tls" == "elven/tls";
    SplitStep("run", "elven/tls");
    assert "run" + ['/'] + "elven/tls" == "run/elven/tls";
  }

  lemma TlsMountIsPlain()
    ensures IsPlainPath(TLS_MOUNT)
  {
    hide Split;
    TlsTail();
    SplitStep("var", "run/elven/tls");
    assert "var" + ['/'] + "run/elven/tls" == "var/run/elven/tls";
    SplitStep("", "var/run/elven/tls");
    assert "" + ['/'] + "var/run/elven/tls" == TLS_MOUNT;
  }

  /** The comparison is of the path as written: this one leads to a reserved directory and is not refused. */
  lemma DoubledSlashIsNotSeen(mount: string)
    requires mount == "//elven-auto"
    ensures Resolved(mount) == Resolved(SDK_MOUNT) && !MountOverlap(mount, SDK_MOUNT)
  {
    hide Split;
    SplitLast("elven-auto");
    SplitStep("", "elven-auto");
    SplitStep("", "/elven-auto");
    assert "" + ['/'] + "elven-auto" == SDK_MOUNT && "" + ['/'] + "/elven-auto" == mount;
    var s := [""] + ([""] + ["elven-auto"]);
    assert Split(mount, '/') == s && s[1..] == [""] + ["elven-auto"];
    assert TrimSlash(mount) == mount && s[1] == "" && |Split(SDK_MOUNT, '/')| == 2;
    SameNames(s, [""] + ["elven-auto"]);
    SdkMountIsPlain();
    MountOverlapResolved(mount, SDK_MOUNT);
  }

  lemma SameNames(s: seq<string>, r: seq<string>)
    requires s == [""] + r
    ensures Resolve(s, []) == Resolve(r, [])
  {
    assert s[1..] == r;
  }

  /** With `..` the test errs both ways: the first path leads to a reserved directory and is not refused, the second
      leads away from it and is. */
  lemma ParentsAreNotFollowed(missed: string, refused: string)
    requires missed == "/x/../elven-auto" && refused == "/elven-auto/../x"
    ensures Resolved(missed) == Resolved(SDK_MOUNT) && !MountOverlap(missed, SDK_MOUNT)
    ensures !EitherPrefix(Resolved(refused), Resolved(SDK_MOUNT)) && MountOverlap(refused, SDK_MOUNT)
  {
    hide MountOverlap, Resolved;
    ParentsResolved();
    assert ["x"][0] != ["elven-auto"][0];
    MissedIsApart(missed);
    RefusedOverlaps(refused);
  }

  lemma ParentsResolved()
    ensures Resolved(SDK_MOUNT) == ["elven-auto"] == Resolved("/x/../elven-auto")
    ensures Resolved("/elven-auto/../x") == ["x"]
  {
    hide Split, Resolve;
    ParentSegments();
    ResolveSlash(["elven-auto"], []);
    ResolveLast("elven-auto");
    ResolveAside("x", "elven-auto");
    ResolveAside("elven-auto", "x");
  }

  lemma ParentSegments()
    ensures Split(SDK_MOUNT, '/') == [""] + ["elven-auto"]
    ensures Split("/x/../elven-auto", '/') == [""] + (["x"] + ([".."] + ["elven-auto"]))
    ensures Split("/elven-auto/../x", '/') == [""] + (["elven-auto"] + ([".."] + ["x"]))
  {
    hide Split;
    SplitLast("elven-auto");
    SplitLast("x");
    SplitStep("", "elven-auto");
    SplitStep("..", "elven-auto");
    SplitStep("..", "x");
    SplitStep("x", "../elven-auto");
    SplitStep("elven-auto", "../x");
    SplitStep("", "x/../elven-auto");
    SplitStep("", "elven-auto/../x");
    assert "" + ['/'] + "elven-auto" == SDK_MOUNT;
    assert ".." + ['/'] + "elven-auto" == "../elven-auto" && ".." + ['/'] + "x" == "../x";
    assert "x" + ['/'] + "../elven-auto" == "x/../elven-auto";
    assert "elven-auto" + ['/'] + "../x" == "elven-auto/../x";
    assert "" + ['/'] + "x/../elven-auto" == "/x/../elven-auto";
    assert "" + ['/'] + "elven-auto/../x" == "/elven-auto/../x";
  }

  lemma ResolveSlash(rest: seq<string>, done: seq<string>)
    ensures Resolve([""] + rest, done) == Resolve(rest, done)
  {
    assert ([""] + rest)[1..] == rest;
  }

  lemma ResolveDown(x: string, rest: seq<string>, done: seq<string>)
    requires IsName(x)
    ensures Resolve([x] + rest, done) == Resolve(rest, done + [x])
  {
    assert ([x] + rest)[1..] == rest;
  }

  lemma ResolveUp(x: string, rest: seq<string>)
    ensures Resolve([".."] + rest, [x]) == Resolve(rest, [])
  {
    assert ([".."] + rest)[1..] == rest && [x][..0] == [];
  }

  lemma ResolveLast(x: string)
    requires IsName(x)
    ensures Resolve([x], []) == [x]
  {
    ResolveNames([x], []);
    assert [] + [x] == [x];
  }

  lemma ResolveAside(x: string, y: string)
    requires IsName(x) && IsName(y)
    ensures Resolve([""] + ([x] + ([".."] + [y])), []) == [y]
  {
    hide Resolve;
    ResolveSlash([x] + ([".."] + [y]), []);
    ResolveDown(x, [".."] + [y], []);
    assert [] + [x] == [x];
    ResolveUp(x, [y]);
    ResolveLast(y);
  }

  lemma MissedIsApart(mount: string)
    requires mount == "/x/../elven-auto"
    ensures !MountOverlap(mount, SDK_MOUNT)
  {
    assert mount[1] != SDK_MOUNT[1];
    assert TrimSlash(mount) == mount;
    assert (SDK_MOUNT + "/")[1] == 'e' && (mount + "/")[1] == 'x';
  }

  lemma RefusedOverlaps(mount: string)
    requires mount == "/elven-auto/../x"
    ensures MountOverlap(mount, SDK_MOUNT)
  {
    assert TrimSlash(mount) == mount;
    assert mount[..12] == SDK_MOUNT + "/";
  }
}
