/** The limits of the canonical hash, on the places of a document: how deep they are, what stands there, how many there
    are. */
module CanonicalLimits {
  import opened KeyOrder
  import opened Decimals
  import opened Canonical
  import opened CanonicalUnique
  import opened CanonicalEncoder

  // ---------- places ----------

  /** One level down: to an item, to the value of a key, or to the key itself. */
  datatype Move = ToItem(i: nat) | ToValue(key: Text) | ToKey(key: Text)

  type Path = seq<Move>

  datatype Found = Nothing | Value(v: Json) | Key(text: Text)

  /** What stands at a place of `v`. */
  function Lookup(v: Json, path: Path): Found
    decreases |path|
  {
    if path == [] then Value(v)
    else match path[0]
      case ToItem(i) => if v.List? && i < |v.items| then Lookup(v.items[i], path[1..]) else Nothing
      case ToValue(key) => if v.Object? && key in v.members then Lookup(v.members[key], path[1..]) else Nothing
      case ToKey(key) => if v.Object? && key in v.members && |path| == 1 then Key(key) else Nothing
  }

  /** What may stand somewhere: texts of scalar values, and numbers of at most 1024 digits whose first digit stands at
      most 4096 places from the point. */
  predicate MayStand(f: Found) {
    match f
    case Nothing => true
    case Key(t) => IsText(t)
    case Value(v) =>
      match v
      case Str(t) => IsText(t)
      case Num(d) =>
        NumDigits(d.coeff) <= 1024 && -4096 <= d.exp + NumDigits(d.coeff) - 1 <= 4096
      case _ => true
  }

  /** Every place is at most `room` levels down, and what stands there may. */
  ghost predicate AllMayStand(v: Json, room: int) {
    forall path: Path :: Lookup(v, path) != Nothing ==> |path| <= room && MayStand(Lookup(v, path))
  }

  lemma {:induction false} WithinExactly(v: Json, depth: nat)
    requires depth <= 65
    ensures Within(v, depth) <==> AllMayStand(v, 64 - depth)
    decreases v
  {
    if depth <= 64 {
      match v {
        case List(items) =>
          forall i: nat | i < |items| ensures Within(items[i], depth + 1) <==> AllMayStand(items[i], 63 - depth) {
            WithinExactly(items[i], depth + 1);
          }
          ListPlaces(v, 64 - depth);
        case Object(m) =>
          forall k | k in m ensures Within(m[k], depth + 1) <==> AllMayStand(m[k], 63 - depth) {
            WithinExactly(m[k], depth + 1);
          }
          ObjectPlaces(v, 64 - depth);
        case _ => LeafPlaces(v, 64 - depth);
      }
    } else {
      assert Lookup(v, []) == Value(v);
    }
  }

  lemma LeafPlaces(v: Json, room: int)
    requires !v.List? && !v.Object? && room >= 0
    ensures AllMayStand(v, room) <==> MayStand(Value(v))
  {
    assert Lookup(v, []) == Value(v);
  }

  lemma MayStandAt(v: Json, room: int, path: Path)
    requires AllMayStand(v, room) && Lookup(v, path) != Nothing
    ensures |path| <= room && MayStand(Lookup(v, path))
  {}

  lemma LongerPath(v: Json, w: Json, m: Move, path: Path)
    requires || (v.List? && m.ToItem? && m.i < |v.items| && w == v.items[m.i])
             || (v.Object? && m.ToValue? && m.key in v.members && w == v.members[m.key])
    ensures Lookup(v, [m] + path) == Lookup(w, path) && |[m] + path| == |path| + 1
  {
    assert ([m] + path)[1..] == path;
  }

  lemma ListPlaces(v: Json, room: int)
    requires v.List? && room >= 0
    ensures AllMayStand(v, room) <==> forall i: nat :: i < |v.items| ==> AllMayStand(v.items[i], room - 1)
  {
    assert MayStand(Value(v)) && Lookup(v, []) == Value(v);
    if AllMayStand(v, room) {
      forall i: nat | i < |v.items| ensures AllMayStand(v.items[i], room - 1) {
        BelowMayStand(v, room, ToItem(i), v.items[i]);
      }
    }
    if forall i: nat :: i < |v.items| ==> AllMayStand(v.items[i], room - 1) {
      hide MayStand;
      forall path: Path | Lookup(v, path) != Nothing ensures |path| <= room && MayStand(Lookup(v, path)) {
        if path != [] { MayStandAt(v.items[path[0].i], room - 1, path[1..]); }
      }
    }
  }

  lemma BelowMayStand(v: Json, room: int, m: Move, w: Json)
    requires AllMayStand(v, room)
    requires || (v.List? && m.ToItem? && m.i < |v.items| && w == v.items[m.i])
             || (v.Object? && m.ToValue? && m.key in v.members && w == v.members[m.key])
    ensures AllMayStand(w, room - 1)
  {
    hide MayStand, Lookup;
    forall path: Path | Lookup(w, path) != Nothing ensures |path| <= room - 1 && MayStand(Lookup(w, path)) {
      LongerPath(v, w, m, path);
      MayStandAt(v, room, [m] + path);
    }
  }

  lemma ObjectPlaces(v: Json, room: int)
    requires v.Object? && room >= 0
    ensures AllMayStand(v, room) <==>
              forall k :: k in v.members ==> room >= 1 && IsText(k) && AllMayStand(v.members[k], room - 1)
  {
    hide AllMayStand, IsText, MayStand, Lookup;
    if AllMayStand(v, room) {
      forall k | k in v.members ensures room >= 1 && IsText(k) && AllMayStand(v.members[k], room - 1) {
        BelowMayStand(v, room, ToValue(k), v.members[k]);
        KeyMayStand(v, room, k);
      }
    }
    if forall k :: k in v.members ==> room >= 1 && IsText(k) && AllMayStand(v.members[k], room - 1) {
      MembersMayStand(v, room);
    }
  }

  lemma KeyMayStand(v: Json, room: int, k: Text)
    requires v.Object? && k in v.members && AllMayStand(v, room)
    ensures room >= 1 && IsText(k)
  {
    assert Lookup(v, [ToKey(k)]) == Key(k);
    MayStandAt(v, room, [ToKey(k)]);
  }

  lemma MembersMayStand(v: Json, room: int)
    requires v.Object? && room >= 0
    requires forall k :: k in v.members ==> room >= 1 && IsText(k) && AllMayStand(v.members[k], room - 1)
    ensures AllMayStand(v, room)
  {
    hide IsText;
    forall path: Path | Lookup(v, path) != Nothing ensures |path| <= room && MayStand(Lookup(v, path)) {
      if path != [] && path[0].ToValue? { MayStandAt(v.members[path[0].key], room - 1, path[1..]); }
    }
  }

  // ---------- how many places there are ----------

  /** `places` are the places of `v`. */
  ghost predicate ArePlaces(v: Json, places: set<Path>) {
    forall path: Path :: path in places <==> Lookup(v, path) != Nothing
  }

  ghost function Below(m: Move, places: set<Path>): set<Path> { set path | path in places :: [m] + path }

  lemma {:induction false} BelowCount(m: Move, places: set<Path>)
    ensures |Below(m, places)| == |places|
    decreases places
  {
    if places != {} {
      var path :| path in places;
      BelowCount(m, places - {path});
      assert Below(m, places) == Below(m, places - {path}) + {[m] + path};
      assert [m] + path !in Below(m, places - {path}) by {
        forall other | other in places - {path} ensures [m] + other != [m] + path {
          assert ([m] + other)[1..] == other && ([m] + path)[1..] == path;
        }
      }
    }
  }

  lemma BelowIs(m: Move, places: set<Path>, path: Path)
    ensures path in Below(m, places) <==> path != [] && path[0] == m && path[1..] in places
  {
    if path in Below(m, places) {
      var rest :| rest in places && path == [m] + rest;
      assert path[1..] == rest;
    }
    if path != [] && path[0] == m && path[1..] in places { assert path == [m] + path[1..]; }
  }

  /** The places below the items from `k` on. */
  lemma {:induction false} ItemPlaces(v: Json, k: nat) returns (places: set<Path>)
    requires v.List? && k <= |v.items|
    ensures |places| == NodesOfItems(v, k)
    ensures forall path: Path :: path in places <==>
              path != [] && path[0].ToItem? && k <= path[0].i && Lookup(v, path) != Nothing
    decreases v, |v.items| - k
  {
    hide Nodes;
    if k == |v.items| {
      places := {};
    } else {
      var mine := CountPlaces(v.items[k]);
      var later := ItemPlaces(v, k + 1);
      var here := Below(ToItem(k), mine);
      BelowCount(ToItem(k), mine);
      places := here + later;
      forall path: Path ensures path in here <==> path != [] && path[0] == ToItem(k) && path[1..] in mine {
        BelowIs(ToItem(k), mine, path);
      }
      assert here * later == {};
    }
  }

  /** The places of the keys from `k` on, and below their values. */
  lemma {:induction false} MemberPlaces(v: Json, keys: seq<Text>, k: nat) returns (places: set<Path>)
    requires KeysOf(v, keys) && IsSorted(keys) && k <= |keys|
    ensures |places| == NodesOfMembers(v, keys, k)
    ensures forall path: Path :: path in places <==>
              path != [] && !path[0].ToItem? && path[0].key in keys[k..] && Lookup(v, path) != Nothing
    decreases v, |keys| - k
  {
    hide Nodes, Less, Lookup, Below;
    if k == |keys| {
      places := {};
    } else {
      var key := keys[k];
      var mine := CountPlaces(v.members[key]);
      var later := MemberPlaces(v, keys, k + 1);
      var here := Below(ToValue(key), mine);
      BelowCount(ToValue(key), mine);
      forall path: Path ensures path in here <==> path != [] && path[0] == ToValue(key) && path[1..] in mine {
        BelowIs(ToValue(key), mine, path);
      }
      KeyOnce(keys, k);
      assert keys[k..] == [key] + keys[k + 1..];
      places := {[ToKey(key)]} + here + later;
      MemberCount(v, key, keys[k + 1..], here, later);
      forall path: Path
        ensures path in places <==>
                  path != [] && !path[0].ToItem? && path[0].key in keys[k..] && Lookup(v, path) != Nothing
      {
        KeyPlace(v, key, path);
      }
    }
  }

  lemma MemberCount(v: Json, key: Text, rest: seq<Text>, here: set<Path>, later: set<Path>)
    requires forall path: Path :: path in here ==> path != [] && path[0] == ToValue(key)
    requires forall path: Path :: path in later ==> path != [] && !path[0].ToItem? && path[0].key in rest
    requires key !in rest
    ensures |{[ToKey(key)]} + here + later| == 1 + |here| + |later|
  {
    var self: set<Path> := {[ToKey(key)]};
    assert self * here == {} && (self + here) * later == {};
  }

  /** What starts with a key is the key itself, when it stands for anything. */
  lemma KeyPlace(v: Json, key: Text, path: Path)
    requires v.Object? && key in v.members
    ensures path != [] && path[0] == ToKey(key) ==> (Lookup(v, path) != Nothing <==> path == [ToKey(key)])
    ensures path != [] && path[0] == ToValue(key) ==> Lookup(v, path) == Lookup(v.members[key], path[1..])
  {
    if path != [] && path[0] == ToKey(key) && |path| == 1 { assert path == [ToKey(key)]; }
  }

  lemma KeyOnce(keys: seq<Text>, k: nat)
    requires IsSorted(keys) && k < |keys|
    ensures keys[k] !in keys[k + 1..]
  {
    forall j | k < j < |keys| ensures keys[j] != keys[k] { LessIrreflexive(keys[k]); }
  }

  /** A document has as many places as encoding it charges. */
  lemma {:induction false} CountPlaces(v: Json) returns (places: set<Path>)
    ensures ArePlaces(v, places) && |places| == Nodes(v)
    decreases v
  {
    hide ArePlaces, IsSorted;
    match v {
      case List(_) =>
        var below := ItemPlaces(v, 0);
        ListRoot(v, below);
        places := {[]} + below;
      case Object(m) =>
        var keys := Sorted(m.Keys);
        var below := MemberPlaces(v, keys, 0);
        assert keys[0..] == keys;
        ObjectRoot(v, keys, below);
        places := {[]} + below;
      case _ =>
        LeafRoot(v);
        places := {[]};
    }
  }

  lemma LeafRoot(v: Json)
    requires !v.List? && !v.Object?
    ensures ArePlaces(v, {[]})
  {}

  lemma ListRoot(v: Json, below: set<Path>)
    requires v.List?
    requires forall path: Path :: path in below <==> path != [] && path[0].ToItem? && Lookup(v, path) != Nothing
    ensures ArePlaces(v, {[]} + below) && |{[]} + below| == 1 + |below|
  {}

  lemma ObjectRoot(v: Json, keys: seq<Text>, below: set<Path>)
    requires v.Object? && forall k :: k in keys <==> k in v.members
    requires forall path: Path :: path in below <==>
               path != [] && !path[0].ToItem? && path[0].key in keys && Lookup(v, path) != Nothing
    ensures ArePlaces(v, {[]} + below) && |{[]} + below| == 1 + |below|
  {}

  /** A document has a canonical hash exactly when its places are at most 64 levels deep and at most a million, what
      stands there may, and its text has at most 64 MiB. */
  lemma HashableExactly(v: Json)
    ensures Hashable(v) <==>
              && AllMayStand(v, 64) && (exists places :: ArePlaces(v, places) && |places| <= 1000000)
              && IsEncodable(v) && |Enc(v)| <= 67108864
  {
    hide Within, Nodes, Enc, AllMayStand, ArePlaces;
    WithinExactly(v, 0);
    var places := CountPlaces(v);
    forall other | ArePlaces(v, other) ensures other == places { SamePlaces(v, places, other); }
  }

  lemma SamePlaces(v: Json, a: set<Path>, b: set<Path>)
    requires ArePlaces(v, a) && ArePlaces(v, b)
    ensures a == b
  {
    hide Lookup;
  }
}
