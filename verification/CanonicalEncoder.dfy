/** `encode` as it runs in `images-attestations.py`: recursion with one shared budget cell. */
module CanonicalEncoder {
  import opened Bytes
  import opened KeyOrder
  import opened Numbers
  import opened Canonical
  import opened CanonicalUnique

  const MAX_NODES := 1_000_000
  const MAX_DEPTH := 64
  const MAX_BYTES := 64 * 1024 * 1024

  class Budget {
    var left: int

    constructor ()
      ensures left == MAX_NODES
    {
      left := MAX_NODES;
    }
  }

  /** Depth, texts and numbers of `v` are within the limits when it stands at `depth`. */
  predicate Within(v: Json, depth: nat) {
    depth <= MAX_DEPTH &&
    match v
    case Str(t) => IsText(t)
    case Num(d) => InRange(d)
    case List(items) => forall i :: 0 <= i < |items| ==> Within(items[i], depth + 1)
    case Object(m) => forall k :: k in m ==> depth < MAX_DEPTH && IsText(k) && Within(m[k], depth + 1)
    case _ => true
  }

  /** Number of values and keys in `v`: what encoding it takes from the budget. */
  ghost function Nodes(v: Json): (n: nat)
    ensures n > 0
    decreases v
  {
    match v
    case List(_) => 1 + NodesOfItems(v, 0)
    case Object(m) => 1 + NodesOfMembers(v, Sorted(m.Keys), 0)
    case _ => 1
  }

  ghost function NodesOfItems(v: Json, k: nat): nat
    requires v.List? && k <= |v.items|
    decreases v, |v.items| - k
  {
    if k == |v.items| then 0 else Nodes(v.items[k]) + NodesOfItems(v, k + 1)
  }

  ghost function NodesOfMembers(v: Json, keys: seq<Text>, k: nat): nat
    requires KeysOf(v, keys) && k <= |keys|
    decreases v, |keys| - k
  {
    if k == |keys| then 0 else 1 + Nodes(v.members[keys[k]]) + NodesOfMembers(v, keys, k + 1)
  }

  lemma {:induction false} WithinIsEncodable(v: Json, depth: nat)
    requires Within(v, depth)
    ensures IsEncodable(v)
    decreases v
  {
    match v {
      case List(items) =>
        forall i | 0 <= i < |items| ensures IsEncodable(items[i]) { WithinIsEncodable(items[i], depth + 1); }
      case Object(m) =>
        forall k | k in m ensures IsText(k) && IsEncodable(m[k]) { WithinIsEncodable(m[k], depth + 1); }
      case _ =>
    }
  }

  function JoinComma(parts: seq<string>, k: nat): string
    requires k <= |parts|
    decreases |parts| - k
  {
    if k == |parts| then "" else Separator(k) + (parts[k] + JoinComma(parts, k + 1))
  }

  lemma {:induction false} JoinItems(v: Json, parts: seq<string>, k: nat)
    requires v.List? && IsEncodable(v) && |parts| == |v.items| && k <= |parts|
    requires forall j :: 0 <= j < |parts| ==> parts[j] == Enc(v.items[j])
    ensures JoinComma(parts, k) == EncItems(v, k)
    decreases |parts| - k
  {
    hide Enc;
    if k < |parts| { JoinItems(v, parts, k + 1); }
  }

  lemma {:induction false} JoinMembers(v: Json, keys: seq<Text>, parts: seq<string>, k: nat)
    requires KeysOf(v, keys) && IsEncodable(v) && |parts| == |keys| && k <= |parts|
    requires forall j :: 0 <= j < |parts| ==> parts[j] == Quote(keys[j]) + (":" + Enc(v.members[keys[j]]))
    ensures JoinComma(parts, k) == EncMembers(v, keys, k)
    decreases |parts| - k
  {
    hide Enc, Quote;
    if k < |parts| {
      JoinMembers(v, keys, parts, k + 1);
      MemberGroups(Quote(keys[k]), Enc(v.members[keys[k]]), EncMembers(v, keys, k + 1));
    }
  }

  lemma MemberGroups(quoted: string, value: string, rest: string)
    ensures quoted + (":" + value) + rest == quoted + (":" + (value + rest))
  {}

  /** A text, as a value or as a key. */
  method EncodeText(budget: Budget, t: Text, depth: nat) returns (r: Option<string>)
    modifies budget
    ensures budget.left == old(budget.left) - 1
    ensures r == if depth <= MAX_DEPTH && 1 <= old(budget.left) && IsText(t) then Some(Quote(t)) else None
  {
    budget.left := budget.left - 1;
    if depth > MAX_DEPTH || budget.left < 0 || !IsText(t) { return None; }
    return Some(Quote(t));
  }

  method EncodeList(budget: Budget, v: Json, depth: nat) returns (r: Option<string>)
    requires v.List? && depth <= MAX_DEPTH && budget.left >= 0
    modifies budget
    ensures r.Some? <==> Within(v, depth) && NodesOfItems(v, 0) <= old(budget.left)
    ensures r.Some? ==> budget.left == old(budget.left) - NodesOfItems(v, 0)
    ensures r.Some? ==> IsEncodable(v) && r.value == Enc(v)
    decreases v, 0
  {
    hide Enc, IsEncodable, Nodes;
    var parts: seq<string> := [];
    for k := 0 to |v.items|
      invariant budget.left >= 0
      invariant |parts| == k
      invariant budget.left - NodesOfItems(v, k) == old(budget.left) - NodesOfItems(v, 0)
      invariant forall j :: 0 <= j < k ==> Within(v.items[j], depth + 1)
      invariant forall j :: 0 <= j < k ==> IsEncodable(v.items[j]) && parts[j] == Enc(v.items[j])
    {
      var part := EncodeItem(budget, v.items[k], depth + 1);
      if part.None? { return None; }
      parts := parts + [part.value];
    }
    WithinIsEncodable(v, depth);
    EncodableItems(v);
    JoinItems(v, parts, 0);
    ListText(v);
    return Some("[" + (JoinComma(parts, 0) + "]"));
  }

  lemma ListText(v: Json)
    requires v.List? && IsEncodable(v)
    ensures Enc(v) == "[" + (EncItems(v, 0) + "]")
  {}

  lemma ObjectText(v: Json)
    requires v.Object? && IsEncodable(v)
    ensures Enc(v) == "{" + (EncMembers(v, Sorted(v.members.Keys), 0) + "}")
  {}

  method EncodeObject(budget: Budget, v: Json, depth: nat) returns (r: Option<string>)
    requires v.Object? && depth <= MAX_DEPTH && budget.left >= 0
    modifies budget
    ensures r.Some? <==> Within(v, depth) && NodesOfMembers(v, Sorted(v.members.Keys), 0) <= old(budget.left)
    ensures r.Some? ==> budget.left == old(budget.left) - NodesOfMembers(v, Sorted(v.members.Keys), 0)
    ensures r.Some? ==> IsEncodable(v) && r.value == Enc(v)
    decreases v, 0
  {
    hide Enc, IsEncodable, Nodes, Quote, IsText, Within, Lists;
    var keys := Sort(v.members.Keys);
    ListsUnique(keys, Sorted(v.members.Keys), v.members.Keys);
    assert KeysOf(v, keys) by {
      forall i | 0 <= i < |keys| ensures keys[i] in v.members { ListedIn(keys, v.members.Keys, i); }
    }
    var parts: seq<string> := [];
    for k := 0 to |keys|
      invariant budget.left >= 0
      invariant |parts| == k
      invariant budget.left - NodesOfMembers(v, keys, k) == old(budget.left) - NodesOfMembers(v, keys, 0)
      invariant forall j :: 0 <= j < k ==> depth < MAX_DEPTH && IsText(keys[j]) && Within(v.members[keys[j]], depth + 1)
      invariant forall j :: 0 <= j < k ==> IsEncodable(v.members[keys[j]])
                                           && parts[j] == Quote(keys[j]) + (":" + Enc(v.members[keys[j]]))
    {
      ListedIn(keys, v.members.Keys, k);
      if Within(v, depth) { MemberLimits(v, keys[k], depth); }
      var name := EncodeText(budget, keys[k], depth + 1);
      if name.None? { return None; }
      var value := EncodeItem(budget, v.members[keys[k]], depth + 1);
      if value.None? { return None; }
      parts := parts + [name.value + (":" + value.value)];
    }
    AllMembersWithin(v, keys, depth);
    WithinIsEncodable(v, depth);
    JoinMembers(v, keys, parts, 0);
    ObjectText(v);
    return Some("{" + (JoinComma(parts, 0) + "}"));
  }

  lemma ListedIn(keys: seq<Text>, ks: set<Text>, k: nat)
    requires Lists(keys, ks) && k < |keys|
    ensures keys[k] in ks
  {}

  lemma MemberLimits(v: Json, k: Text, depth: nat)
    requires v.Object? && k in v.members && Within(v, depth)
    ensures depth < MAX_DEPTH && IsText(k) && Within(v.members[k], depth + 1)
  {}

  lemma AllMembersWithin(v: Json, keys: seq<Text>, depth: nat)
    requires v.Object? && Lists(keys, v.members.Keys) && depth <= MAX_DEPTH
    requires forall j :: 0 <= j < |keys| ==>
               depth < MAX_DEPTH && IsText(keys[j]) && Within(v.members[keys[j]], depth + 1)
    ensures Within(v, depth)
  {
    forall k | k in v.members ensures depth < MAX_DEPTH && IsText(k) && Within(v.members[k], depth + 1) {
      assert k in keys;
    }
  }

  /** `encode`: it fails exactly outside the limits, and otherwise charges one unit per value and key. */
  method EncodeItem(budget: Budget, item: Json, depth: nat) returns (r: Option<string>)
    modifies budget
    ensures r.Some? <==> Within(item, depth) && Nodes(item) <= old(budget.left)
    ensures r.Some? ==> budget.left == old(budget.left) - Nodes(item)
    ensures r.Some? ==> IsEncodable(item) && r.value == Enc(item)
    decreases item
  {
    if item.Str? {
      r := EncodeText(budget, item.text, depth);
      return;
    }
    budget.left := budget.left - 1;
    if depth > MAX_DEPTH || budget.left < 0 { return None; }
    match item {
      case Null => return Some("null");
      case Bool(b) => return Some(if b then "true" else "false");
      case Num(d) => return if InRange(d) then Some(Render(d)) else None;
      case List(_) => r := EncodeList(budget, item, depth);
      case Object(_) => r := EncodeObject(budget, item, depth);
    }
  }

  /** The documents that have a canonical hash. */
  ghost predicate Hashable(v: Json) {
    Within(v, 0) && Nodes(v) <= MAX_NODES && IsEncodable(v) && |Enc(v)| <= MAX_BYTES
  }

  /** `canonical_hash`, over a given hash function. */
  method CanonicalHash<D>(v: Json, hash: string -> D) returns (r: Option<D>)
    ensures r.Some? <==> Hashable(v)
    ensures r.Some? ==> r.value == hash(Enc(v))
  {
    var budget := new Budget();
    var text := EncodeItem(budget, v, 0);
    if text.None? || |text.value| > MAX_BYTES { return None; }
    return Some(hash(text.value));
  }

  /** No two texts have the same hash. */
  ghost predicate Injective<D(!new)>(hash: string -> D) { forall x, y :: hash(x) == hash(y) ==> x == y }

  /** Hashable documents have the same canonical hash exactly when they are equal as JSON. */
  lemma HashIdentifies<D(!new)>(v: Json, w: Json, hash: string -> D)
    requires Hashable(v) && Hashable(w) && Injective(hash)
    ensures hash(Enc(v)) == hash(Enc(w)) <==> Same(v, w)
  {
    hide Enc, Same;
    EncUnambiguous(v, w);
  }
}
