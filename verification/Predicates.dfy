/** Binding verified predicates to the approved evidence, in `images-attestations.py`. */
module Predicates {
  import opened Bytes
  import opened Canonical
  import opened CanonicalEncoder

  const SPDX_TYPE := "https://spdx.dev/Document"
  const CANONICALIZATION := "elven-json-v1"
  const AMD64 := "linux/amd64"
  const ARM64 := "linux/arm64"
  const MAX_STATEMENTS := 64

  /** A hash function to hexadecimal digests. */
  type Hash = string -> string

  // ---------- the policy ----------

  datatype Policy =
    | NoPolicy
    | Policy(schemaVersion: int, canonicalization: string, subjectDigest: string,
             spdx: map<string, string>, buildType: string, buildHash: string)

  /** `validate_policy`: the approved hashes by predicate type, or nothing. */
  function ValidatePolicy(p: Policy, subject: string, buildType: string): (r: Option<map<string, set<string>>>)
    ensures r.Some? ==> SPDX_TYPE in r.value && buildType in r.value
  {
    if p.NoPolicy? || p.schemaVersion != 1 || p.canonicalization != CANONICALIZATION
       || !IsDigest(subject) || p.subjectDigest != subject then None
    else if p.spdx.Keys != {AMD64, ARM64} || !IsDigest(p.spdx[AMD64]) || !IsDigest(p.spdx[ARM64])
            || p.spdx[AMD64] == p.spdx[ARM64] || p.buildType != buildType || !IsDigest(p.buildHash) then None
    else Some(map[SPDX_TYPE := {p.spdx[AMD64], p.spdx[ARM64]}, buildType := {p.buildHash}])
  }

  // ---------- envelopes ----------

  datatype Statement =
    | NoStatement
    | Statement(kind: string, predicateType: string, subjects: seq<map<string, string>>, predicate_: Json)

  /** A decoded envelope; each signature says whether it decodes to something. */
  datatype Envelope = NoEnvelope | Envelope(payloadType: string, signatures: seq<bool>, payload: Statement)

  /** One element of the verifier's output stream: an envelope, or an array of envelopes. */
  datatype Element = One(envelope: Envelope) | Many(envelopes: seq<Envelope>)

  function Envelopes(stream: seq<Element>): seq<Envelope> {
    if stream == [] then []
    else
      var last := stream[|stream| - 1];
      Envelopes(stream[..|stream| - 1]) + match last case One(e) => [e] case Many(es) => es
  }

  function HexOf(digest: string): string
  {
    if |digest| >= 7 && digest[..7] == "sha256:" then digest[7..] else digest
  }

  /** Everything the loop body checks before it hashes the predicate. */
  predicate WellFormed(e: Envelope, subject: string, predicateType: string) {
    && e.Envelope?
    && e.payloadType == "application/vnd.in-toto+json"
    && e.signatures != [] && (forall i :: 0 <= i < |e.signatures| ==> e.signatures[i])
    && e.payload.Statement?
    && (e.payload.kind == "https://in-toto.io/Statement/v0.1" || e.payload.kind == "https://in-toto.io/Statement/v1")
    && e.payload.predicateType == predicateType
    && |e.payload.subjects| == 1 && e.payload.subjects[0] == map["sha256" := HexOf(subject)]
    && e.payload.predicate_.Object?
  }

  /** Every envelope is well formed and its predicate has a canonical hash. */
  ghost predicate Usable(e: Envelope, subject: string, predicateType: string) {
    WellFormed(e, subject, predicateType) && Hashable(e.payload.predicate_)
  }

  ghost function HashOf(e: Envelope, hash: Hash): string
    requires e.Envelope? && e.payload.Statement? && Hashable(e.payload.predicate_)
  {
    hash(Enc(e.payload.predicate_))
  }

  /** Some usable envelope's predicate has the hash `h`. */
  ghost predicate Hits(es: seq<Envelope>, subject: string, predicateType: string, hash: Hash, h: string) {
    exists i :: 0 <= i < |es| && Usable(es[i], subject, predicateType) && HashOf(es[i], hash) == h
  }

  /** `hashes` is exactly the set of predicate hashes of `es`. */
  ghost predicate AreHashes(hashes: set<string>, es: seq<Envelope>, subject: string, predicateType: string,
          hash: Hash) {
    && (forall i :: 0 <= i < |es| ==> Usable(es[i], subject, predicateType) && HashOf(es[i], hash) in hashes)
    && (forall h :: h in hashes ==> Hits(es, subject, predicateType, hash, h))
  }

  ghost predicate Accepts(stream: seq<Element>, p: Policy, subject: string, predicateType: string, buildType: string,
          hash: Hash) {
    var approved := ValidatePolicy(p, subject, buildType);
    && approved.Some? && predicateType in approved.value
    && |Envelopes(stream)| <= MAX_STATEMENTS
    && AreHashes(approved.value[predicateType], Envelopes(stream), subject, predicateType, hash)
  }

  /** Collecting the stream, with the bound checked after every element. */
  method Collect(stream: seq<Element>) returns (es: seq<Envelope>, ok: bool)
    ensures ok <==> |Envelopes(stream)| <= MAX_STATEMENTS
    ensures ok ==> es == Envelopes(stream)
  {
    es := [];
    for k := 0 to |stream|
      invariant es == Envelopes(stream[..k]) && |es| <= MAX_STATEMENTS
    {
      assert stream[..k + 1][..k] == stream[..k];
      es := es + match stream[k] case One(e) => [e] case Many(more) => more;
      if |es| > MAX_STATEMENTS {
        EnvelopesGrow(stream, k + 1);
        return es, false;
      }
    }
    assert stream[..|stream|] == stream;
    return es, true;
  }

  lemma {:induction false} EnvelopesGrow(stream: seq<Element>, k: nat)
    requires k <= |stream|
    ensures |Envelopes(stream[..k])| <= |Envelopes(stream)|
    decreases |stream|
  {
    if k < |stream| {
      EnvelopesGrow(stream[..|stream| - 1], k);
      assert stream[..|stream| - 1][..k] == stream[..k];
    } else {
      assert stream[..k] == stream;
    }
  }

  /** `verify_predicates`: the verified hashes, or nothing. */
  method VerifyPredicates(stream: seq<Element>, p: Policy, subject: string, predicateType: string, buildType: string,
                          hash: Hash)
      returns (r: Option<set<string>>)
    ensures r.Some? <==> Accepts(stream, p, subject, predicateType, buildType, hash)
    ensures r.Some? ==> AreHashes(r.value, Envelopes(stream), subject, predicateType, hash)
  {
    hide Hashable, Enc, WellFormed;
    var approved := ValidatePolicy(p, subject, buildType);
    if approved.None? || predicateType !in approved.value { return None; }
    var es, ok := Collect(stream);
    if !ok { return None; }
    var actual: set<string> := {};
    for i := 0 to |es|
      invariant AreHashes(actual, es[..i], subject, predicateType, hash)
    {
      if !WellFormed(es[i], subject, predicateType) { return None; }
      WellFormedParts(es[i], subject, predicateType);
      var h := CanonicalHash(es[i].payload.predicate_, hash);
      if h.None? { return None; }
      AddHash(actual, es[..i], es[i], subject, predicateType, hash);
      assert es[..i + 1] == es[..i] + [es[i]];
      actual := actual + {h.value};
    }
    assert es[..|es|] == es;
    HashesUnique(actual, approved.value[predicateType], es, subject, predicateType, hash);
    return if actual == approved.value[predicateType] then Some(actual) else None;
  }

  lemma WellFormedParts(e: Envelope, subject: string, predicateType: string)
    requires WellFormed(e, subject, predicateType)
    ensures e.Envelope? && e.payload.Statement? && e.payload.predicateType == predicateType
  {}

  lemma AddHash(hashes: set<string>, es: seq<Envelope>, e: Envelope, subject: string, predicateType: string, hash: Hash)
    requires AreHashes(hashes, es, subject, predicateType, hash) && Usable(e, subject, predicateType)
    ensures AreHashes(hashes + {HashOf(e, hash)}, es + [e], subject, predicateType, hash)
  {
    hide Hashable, Enc;
    var more, all := es + [e], hashes + {HashOf(e, hash)};
    forall h | h in all
      ensures Hits(more, subject, predicateType, hash, h)
    {
      if h in hashes {
        var i :| 0 <= i < |es| && Usable(es[i], subject, predicateType) && HashOf(es[i], hash) == h;
        assert more[i] == es[i];
      } else {
        assert more[|es|] == e;
      }
    }
  }

  lemma HashesUnique(a: set<string>, b: set<string>, es: seq<Envelope>, subject: string, predicateType: string,
          hash: Hash)
    requires AreHashes(a, es, subject, predicateType, hash)
    ensures AreHashes(b, es, subject, predicateType, hash) <==> a == b
  {
    hide Hashable, Enc, WellFormed;
    if AreHashes(b, es, subject, predicateType, hash) {
      assert a <= b && b <= a;
    }
  }

  // ---------- what acceptance means ----------

  ghost predicate SameEnvelopes(a: seq<Envelope>, b: seq<Envelope>) { forall e :: e in a <==> e in b }

  lemma HashesOfSet(hashes: set<string>, a: seq<Envelope>, b: seq<Envelope>, subject: string, predicateType: string,
          hash: Hash)
    requires SameEnvelopes(a, b) && AreHashes(hashes, a, subject, predicateType, hash)
    ensures AreHashes(hashes, b, subject, predicateType, hash)
  {
    hide Hashable, Enc;
    forall i | 0 <= i < |b| ensures Usable(b[i], subject, predicateType) && HashOf(b[i], hash) in hashes {
      assert b[i] in a;
    }
    forall h | h in hashes
      ensures Hits(b, subject, predicateType, hash, h)
    {
      var i :| 0 <= i < |a| && Usable(a[i], subject, predicateType) && HashOf(a[i], hash) == h;
      assert a[i] in b;
    }
  }

  /** Within the bound the verdict depends only on which envelopes occur: not on their order, on repetitions,
      or on how the stream groups them into arrays. */
  lemma VerdictIgnoresArrangement(s: seq<Element>, t: seq<Element>, p: Policy, subject: string, predicateType: string,
                                  buildType: string, hash: Hash)
    requires |Envelopes(s)| <= MAX_STATEMENTS && |Envelopes(t)| <= MAX_STATEMENTS
    requires SameEnvelopes(Envelopes(s), Envelopes(t))
    ensures Accepts(s, p, subject, predicateType, buildType, hash)
       <==> Accepts(t, p, subject, predicateType, buildType, hash)
  {
    hide AreHashes, SameEnvelopes, Envelopes;
    var approved := ValidatePolicy(p, subject, buildType);
    if approved.Some? && predicateType in approved.value {
      var hashes := approved.value[predicateType];
      if AreHashes(hashes, Envelopes(s), subject, predicateType, hash) {
        HashesOfSet(hashes, Envelopes(s), Envelopes(t), subject, predicateType, hash);
      }
      if AreHashes(hashes, Envelopes(t), subject, predicateType, hash) {
        SameSymmetric(Envelopes(s), Envelopes(t));
        HashesOfSet(hashes, Envelopes(t), Envelopes(s), subject, predicateType, hash);
      }
    }
  }

  lemma SameSymmetric(a: seq<Envelope>, b: seq<Envelope>)
    requires SameEnvelopes(a, b)
    ensures SameEnvelopes(b, a)
  {}

  /** A policy made from the approved documents themselves. */
  ghost predicate PolicyFor(p: Policy, amd: Json, arm: Json, build: Json, hash: Hash) {
    && p.Policy? && Hashable(amd) && Hashable(arm) && Hashable(build)
    && p.spdx == map[AMD64 := hash(Enc(amd)), ARM64 := hash(Enc(arm))]
    && p.buildHash == hash(Enc(build))
  }

  /** Some envelope carries a document equal to `v`. */
  ghost predicate Carries(es: seq<Envelope>, v: Json) {
    exists i :: 0 <= i < |es| && es[i].Envelope? && es[i].payload.Statement? && Same(es[i].payload.predicate_, v)
  }

  lemma HashNames(e: Envelope, v: Json, hash: Hash)
    requires e.Envelope? && e.payload.Statement? && Hashable(e.payload.predicate_) && Hashable(v) && Injective(hash)
    ensures HashOf(e, hash) == hash(Enc(v)) <==> Same(e.payload.predicate_, v)
  {
    hide Enc, Same;
    HashIdentifies(e.payload.predicate_, v, hash);
  }

  lemma HashesName(es: seq<Envelope>, subject: string, predicateType: string, hash: Hash, v: Json)
    requires Hashable(v) && Injective(hash) && forall i :: 0 <= i < |es| ==> Usable(es[i], subject, predicateType)
    ensures forall i :: 0 <= i < |es| ==>
              es[i].Envelope? && es[i].payload.Statement? && Hashable(es[i].payload.predicate_)
              && (HashOf(es[i], hash) == hash(Enc(v)) <==> Same(es[i].payload.predicate_, v))
  {
    var x := hash(Enc(v));
    hide Hashable, Enc, Same, WellFormed;
    forall i | 0 <= i < |es|
      ensures es[i].Envelope? && es[i].payload.Statement? && Hashable(es[i].payload.predicate_)
      ensures HashOf(es[i], hash) == x <==> Same(es[i].payload.predicate_, v)
    {
      WellFormedParts(es[i], subject, predicateType);
      HashNames(es[i], v, hash);
    }
  }

  lemma HitsCarries(es: seq<Envelope>, subject: string, predicateType: string, hash: Hash, v: Json)
    requires Hashable(v) && Injective(hash) && forall i :: 0 <= i < |es| ==> Usable(es[i], subject, predicateType)
    ensures Hits(es, subject, predicateType, hash, hash(Enc(v))) <==> Carries(es, v)
  {
    HashesName(es, subject, predicateType, hash, v);
    hide Hashable, Enc, Same, WellFormed, HashOf;
  }

  /** The envelope carries a document equal to `v` or to `w`. */
  predicate OneOf(e: Envelope, v: Json, w: Json) {
    e.Envelope? && e.payload.Statement? && (Same(e.payload.predicate_, v) || Same(e.payload.predicate_, w))
  }

  lemma OneOfHashes(e: Envelope, subject: string, predicateType: string, hash: Hash, v: Json, w: Json)
    requires Hashable(v) && Hashable(w) && Injective(hash) && Usable(e, subject, predicateType)
    ensures HashOf(e, hash) in {hash(Enc(v)), hash(Enc(w))} <==> OneOf(e, v, w)
  {
    HashNames(e, v, hash);
    HashNames(e, w, hash);
    hide Hashable, Enc, Same, HashOf;
  }

  ghost predicate AllUsable(es: seq<Envelope>, subject: string, predicateType: string) {
    forall i :: 0 <= i < |es| ==> Usable(es[i], subject, predicateType)
  }

  ghost predicate AllOneOf(es: seq<Envelope>, v: Json, w: Json) { forall i :: 0 <= i < |es| ==> OneOf(es[i], v, w) }

  ghost predicate AllIn(hashes: set<string>, es: seq<Envelope>, subject: string, predicateType: string, hash: Hash) {
    forall i :: 0 <= i < |es| ==> Usable(es[i], subject, predicateType) && HashOf(es[i], hash) in hashes
  }

  lemma AllInOneOf(es: seq<Envelope>, subject: string, predicateType: string, hash: Hash, v: Json, w: Json)
    requires Hashable(v) && Hashable(w) && Injective(hash)
    ensures AllIn({hash(Enc(v)), hash(Enc(w))}, es, subject, predicateType, hash)
       <==> AllUsable(es, subject, predicateType) && AllOneOf(es, v, w)
  {
    var both := {hash(Enc(v)), hash(Enc(w))};
    if AllUsable(es, subject, predicateType) {
      forall i | 0 <= i < |es| ensures HashOf(es[i], hash) in both <==> OneOf(es[i], v, w) {
        OneOfHashes(es[i], subject, predicateType, hash, v, w);
      }
    }
    hide Hashable, Enc, Same, WellFormed, OneOf, HashOf, Injective;
  }

  lemma PairHits(es: seq<Envelope>, subject: string, predicateType: string, hash: Hash, x: string, y: string)
    ensures AreHashes({x, y}, es, subject, predicateType, hash) <==>
              AllIn({x, y}, es, subject, predicateType, hash)
              && Hits(es, subject, predicateType, hash, x) && Hits(es, subject, predicateType, hash, y)
  {
    hide Usable, Hits, HashOf;
  }

  lemma PairNames(es: seq<Envelope>, subject: string, predicateType: string, hash: Hash, v: Json, w: Json)
    requires Hashable(v) && Hashable(w) && Injective(hash)
    ensures AreHashes({hash(Enc(v)), hash(Enc(w))}, es, subject, predicateType, hash) <==>
              && AllUsable(es, subject, predicateType) && AllOneOf(es, v, w) && Carries(es, v) && Carries(es, w)
  {
    PairHits(es, subject, predicateType, hash, hash(Enc(v)), hash(Enc(w)));
    AllInOneOf(es, subject, predicateType, hash, v, w);
    if AllUsable(es, subject, predicateType) {
      HitsCarries(es, subject, predicateType, hash, v);
      HitsCarries(es, subject, predicateType, hash, w);
    }
    hide Hashable, Enc, AreHashes, AllIn, AllUsable, AllOneOf, Hits, Carries, Injective;
  }

  /** The only approved SPDX hashes are those of the two documents, and they differ. */
  lemma ApprovedPair(stream: seq<Element>, p: Policy, subject: string, buildType: string, hash: Hash, x: string,
          y: string)
    requires ValidatePolicy(p, subject, buildType).Some? && buildType != SPDX_TYPE
    requires p.spdx == map[AMD64 := x, ARM64 := y] && |Envelopes(stream)| <= MAX_STATEMENTS
    ensures x != y
    ensures Accepts(stream, p, subject, SPDX_TYPE, buildType, hash)
       <==> AreHashes({x, y}, Envelopes(stream), subject, SPDX_TYPE, hash)
  {
    hide AreHashes, Envelopes, IsDigest;
    assert ValidatePolicy(p, subject, buildType).value[SPDX_TYPE] == {x, y};
  }

  /** An accepted SPDX stream holds only the two approved documents, and both of them: copies of one
      platform's document never stand in for the other's. */
  lemma BothPlatformsNeeded(stream: seq<Element>, p: Policy, subject: string, buildType: string, hash: Hash,
                            amd: Json, arm: Json, build: Json)
    requires PolicyFor(p, amd, arm, build, hash) && Injective(hash) && buildType != SPDX_TYPE
    requires ValidatePolicy(p, subject, buildType).Some? && |Envelopes(stream)| <= MAX_STATEMENTS
    ensures !Same(amd, arm)
    ensures var es := Envelopes(stream);
            Accepts(stream, p, subject, SPDX_TYPE, buildType, hash) <==>
              && AllUsable(es, subject, SPDX_TYPE) && AllOneOf(es, amd, arm)
              && Carries(es, amd) && Carries(es, arm)
  {
    HashIdentifies(amd, arm, hash);
    ApprovedPair(stream, p, subject, buildType, hash, hash(Enc(amd)), hash(Enc(arm)));
    hide Hashable, Enc, Same, WellFormed, Envelopes, AreHashes, Carries, ValidatePolicy, Accepts, AllUsable, AllOneOf;
    PairNames(Envelopes(stream), subject, SPDX_TYPE, hash, amd, arm);
  }
}
