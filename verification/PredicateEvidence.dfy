/** What an accepted policy and an accepted stream of attestations look like, member by member. */
module PredicateEvidence {
  import opened Bytes
  import opened Canonical
  import opened CanonicalEncoder
  import opened Predicates

  // ---------- the stream ----------

  /** The envelopes of a stream, in order: a single one stands for itself, and an array for its elements. */
  lemma {:induction false} StreamReads(a: seq<Element>, b: seq<Element>, e: Envelope, es: seq<Envelope>)
    ensures Envelopes([]) == [] && Envelopes([One(e)]) == [e] && Envelopes([Many(es)]) == es
    ensures Envelopes(a + b) == Envelopes(a) + Envelopes(b)
    decreases |b|
  {
    if b == [] {
      assert a + b == a;
    } else {
      assert (a + b)[..|a + b| - 1] == a + b[..|b| - 1];
      StreamReads(a, b[..|b| - 1], e, es);
    }
  }

  // ---------- the policy ----------

  /** The text of a hash: 64 hexadecimal digits in lower case. */
  predicate IsHex(t: string) { |t| == 64 && forall i :: 0 <= i < 64 ==> '0' <= t[i] <= '9' || 'a' <= t[i] <= 'f' }

  lemma DigestIs(s: string)
    ensures IsDigest(s) <==> |s| >= 7 && s == "sha256:" + s[7..] && IsHex(s[7..])
  {
    if IsDigest(s) {
      assert s == s[..7] + s[7..];
    } else if |s| >= 7 && s == "sha256:" + s[7..] && IsHex(s[7..]) {
      forall i | 7 <= i < |s| ensures IsLowerHex(s[i]) { assert s[i] == s[7..][i - 7]; }
    }
  }

  lemma DigestOf(t: string)
    ensures IsDigest("sha256:" + t) <==> IsHex(t)
    ensures HexOf("sha256:" + t) == t
  {
    assert ("sha256:" + t)[7..] == t;
    DigestIs("sha256:" + t);
  }

  /** The policy that approves the documents with these hashes for the image with this one: `amd` and `arm`, which
      differ, for the two platforms, and `build` under the build type. */
  ghost predicate Approves(p: Policy, image: string, buildType: string, amd: string, arm: string, build: string) {
    && IsHex(image) && IsHex(amd) && IsHex(arm) && IsHex(build) && amd != arm
    && p == Policy(1, "elven-json-v1", "sha256:" + image,
                   map["linux/amd64" := "sha256:" + amd, "linux/arm64" := "sha256:" + arm],
                   buildType, "sha256:" + build)
  }

  /** What a policy approves under a predicate type. */
  function ApprovedUnder(predicateType: string, buildType: string, amd: string, arm: string, build: string): set<string>
  {
    if predicateType == buildType then {"sha256:" + build}
    else if predicateType == "https://spdx.dev/Document" then {"sha256:" + amd, "sha256:" + arm}
    else {}
  }

  lemma PolicyRead(p: Policy, image: string, buildType: string, amd: string, arm: string, build: string)
    requires Approves(p, image, buildType, amd, arm, build)
    ensures var r := ValidatePolicy(p, "sha256:" + image, buildType);
            && r.Some? && r.value.Keys == {"https://spdx.dev/Document", buildType}
            && forall t :: t in r.value ==> r.value[t] == ApprovedUnder(t, buildType, amd, arm, build)
  {
    hide IsDigest;
    DigestOf(image);
    DigestOf(amd);
    DigestOf(arm);
    DigestOf(build);
    assert ("sha256:" + amd)[7..] == amd && ("sha256:" + arm)[7..] == arm;
  }

  lemma PolicyFound(p: Policy, image: string, buildType: string) returns (amd: string, arm: string, build: string)
    requires ValidatePolicy(p, "sha256:" + image, buildType).Some?
    ensures Approves(p, image, buildType, amd, arm, build)
  {
    DigestIs(p.spdx["linux/amd64"]);
    DigestIs(p.spdx["linux/arm64"]);
    DigestIs(p.buildHash);
    hide IsDigest;
    amd, arm, build := p.spdx["linux/amd64"][7..], p.spdx["linux/arm64"][7..], p.buildHash[7..];
    DigestOf(image);
    assert p.spdx == map["linux/amd64" := "sha256:" + amd, "linux/arm64" := "sha256:" + arm];
  }

  // ---------- the attestations ----------

  /** A signed attestation of the object `v` about the image, under the predicate type, and about nothing else. */
  ghost predicate Attests(e: Envelope, image: string, predicateType: string, v: Json) {
    && v.Object?
    && exists signatures: seq<bool>, kind ::
         && signatures != [] && false !in signatures
         && kind in {"https://in-toto.io/Statement/v0.1", "https://in-toto.io/Statement/v1"}
         && e == Envelope("application/vnd.in-toto+json", signatures,
                          Statement(kind, predicateType, [map["sha256" := image]], v))
  }

  lemma WellFormedExactly(e: Envelope, image: string, predicateType: string)
    ensures WellFormed(e, "sha256:" + image, predicateType) <==>
              e.Envelope? && e.payload.Statement? && Attests(e, image, predicateType, e.payload.predicate_)
  {
    DigestOf(image);
    var subject := "sha256:" + image;
    if WellFormed(e, subject, predicateType) {
      assert e.payload.subjects == [map["sha256" := image]];
      assert false !in e.signatures;
      assert e == Envelope("application/vnd.in-toto+json", e.signatures,
                           Statement(e.payload.kind, predicateType, [map["sha256" := image]], e.payload.predicate_));
    }
  }

  /** Every envelope attests its document, which has a canonical text, and `hashes` are the hashes of these texts. */
  ghost predicate AttestAll(es: seq<Envelope>, image: string, predicateType: string, docs: seq<Json>, hash: Hash,
                            hashes: set<string>)
  {
    && |docs| == |es|
    && (forall i :: 0 <= i < |es| ==> Attests(es[i], image, predicateType, docs[i]) && IsText(docs[i], hash, hashes))
    && forall h :: h in hashes ==> IsHashOfSome(docs, hash, h)
  }

  ghost predicate IsHashOfSome(docs: seq<Json>, hash: Hash, h: string) {
    exists i :: 0 <= i < |docs| && IsText(docs[i], hash, {h})
  }

  /** The document has a canonical text, with its hash among these. */
  ghost predicate IsText(v: Json, hash: Hash, hashes: set<string>) { Hashable(v) && hash(Enc(v)) in hashes }

  function DocumentOf(e: Envelope): Json { if e.Envelope? && e.payload.Statement? then e.payload.predicate_ else Null }

  ghost predicate Counts(e: Envelope, subject: string, predicateType: string, hash: Hash, hashes: set<string>) {
    Usable(e, subject, predicateType) && HashOf(e, hash) in hashes
  }

  lemma CountsExactly(e: Envelope, image: string, predicateType: string, v: Json, hash: Hash, hashes: set<string>)
    ensures Attests(e, image, predicateType, v) && IsText(v, hash, hashes) <==>
              Counts(e, "sha256:" + image, predicateType, hash, hashes) && DocumentOf(e) == v
  {
    hide Hashable, Enc, WellFormed;
    WellFormedExactly(e, image, predicateType);
  }

  lemma HitsCounts(es: seq<Envelope>, subject: string, predicateType: string, hash: Hash, h: string)
    ensures Hits(es, subject, predicateType, hash, h) <==>
              exists i :: 0 <= i < |es| && Counts(es[i], subject, predicateType, hash, {h})
  {
    hide Hashable, Enc;
    if Hits(es, subject, predicateType, hash, h) {
      var i :| 0 <= i < |es| && Usable(es[i], subject, predicateType) && HashOf(es[i], hash) == h;
      assert Counts(es[i], subject, predicateType, hash, {h});
    }
  }

  lemma HitsAttested(es: seq<Envelope>, image: string, predicateType: string, docs: seq<Json>, hash: Hash, h: string)
    requires |docs| == |es| && forall i :: 0 <= i < |es| ==> DocumentOf(es[i]) == docs[i]
    requires forall i :: 0 <= i < |es| ==> Attests(es[i], image, predicateType, docs[i])
    ensures Hits(es, "sha256:" + image, predicateType, hash, h) <==> IsHashOfSome(docs, hash, h)
  {
    HitsCounts(es, "sha256:" + image, predicateType, hash, h);
    hide Hits, Counts, Attests, IsText, DocumentOf;
    forall i | 0 <= i < |es|
      ensures Counts(es[i], "sha256:" + image, predicateType, hash, {h}) <==> IsText(docs[i], hash, {h})
    {
      CountsExactly(es[i], image, predicateType, docs[i], hash, {h});
    }
  }

  lemma HashesExactly(hashes: set<string>, es: seq<Envelope>, image: string, predicateType: string, hash: Hash)
    ensures AreHashes(hashes, es, "sha256:" + image, predicateType, hash) <==>
              exists docs :: AttestAll(es, image, predicateType, docs, hash, hashes)
  {
    hide AreHashes, AttestAll;
    if AreHashes(hashes, es, "sha256:" + image, predicateType, hash) {
      var docs := DocsOf(hashes, es, image, predicateType, hash);
    }
    if docs :| AttestAll(es, image, predicateType, docs, hash, hashes) {
      HashesOfDocs(hashes, es, image, predicateType, docs, hash);
    }
  }

  lemma DocsOf(hashes: set<string>, es: seq<Envelope>, image: string, predicateType: string, hash: Hash)
      returns (docs: seq<Json>)
    requires AreHashes(hashes, es, "sha256:" + image, predicateType, hash)
    ensures AttestAll(es, image, predicateType, docs, hash, hashes)
  {
    docs := seq(|es|, i requires 0 <= i < |es| => DocumentOf(es[i]));
    forall i | 0 <= i < |es| ensures Counts(es[i], "sha256:" + image, predicateType, hash, hashes) {
      assert Usable(es[i], "sha256:" + image, predicateType);
    }
    hide Counts, Usable, Hits, HashOf, Attests, IsText, DocumentOf, IsHashOfSome;
    forall i | 0 <= i < |es| ensures Attests(es[i], image, predicateType, docs[i]) && IsText(docs[i], hash, hashes) {
      CountsExactly(es[i], image, predicateType, docs[i], hash, hashes);
    }
    forall h | h in hashes ensures IsHashOfSome(docs, hash, h) {
      HitsAttested(es, image, predicateType, docs, hash, h);
    }
  }

  lemma HashesOfDocs(hashes: set<string>, es: seq<Envelope>, image: string, predicateType: string, docs: seq<Json>,
                     hash: Hash)
    requires AttestAll(es, image, predicateType, docs, hash, hashes)
    ensures AreHashes(hashes, es, "sha256:" + image, predicateType, hash)
  {
    hide Hits, Hashable, Enc, WellFormed, Attests, IsText, DocumentOf, IsHashOfSome;
    forall i | 0 <= i < |es| ensures Counts(es[i], "sha256:" + image, predicateType, hash, hashes) {
      CountsExactly(es[i], image, predicateType, docs[i], hash, hashes);
    }
    forall i | 0 <= i < |es| ensures DocumentOf(es[i]) == docs[i] {
      CountsExactly(es[i], image, predicateType, docs[i], hash, hashes);
    }
    forall h | h in hashes ensures Hits(es, "sha256:" + image, predicateType, hash, h) {
      HitsAttested(es, image, predicateType, docs, hash, h);
    }
  }

  // ---------- acceptance ----------

  /** A stream is accepted exactly when the policy approves three documents by their hashes, one for each platform and
      one for the build, the predicate type is one of the two, and the stream holds at most 64 envelopes, each of which
      attests an object about the image, with just the hashes approved for that type. */
  lemma AcceptsExactly(stream: seq<Element>, p: Policy, image: string, predicateType: string, buildType: string,
                       hash: Hash)
    ensures Accepts(stream, p, "sha256:" + image, predicateType, buildType, hash) <==>
              && |Envelopes(stream)| <= 64 && predicateType in {"https://spdx.dev/Document", buildType}
              && exists amd, arm, build :: Approves(p, image, buildType, amd, arm, build)
                   && exists docs ::
                        AttestAll(Envelopes(stream), image, predicateType, docs, hash,
                                  ApprovedUnder(predicateType, buildType, amd, arm, build))
  {
    hide ValidatePolicy, Envelopes, AreHashes, AttestAll, ApprovedUnder, Approves;
    var subject := "sha256:" + image;
    var approved := ValidatePolicy(p, subject, buildType);
    if approved.Some? {
      var amd, arm, build := PolicyFound(p, image, buildType);
      PolicyRead(p, image, buildType, amd, arm, build);
      HashesExactly(ApprovedUnder(predicateType, buildType, amd, arm, build), Envelopes(stream), image, predicateType,
                    hash);
      forall x, y, z | Approves(p, image, buildType, x, y, z) ensures x == amd && y == arm && z == build {
        OneReading(p, image, buildType, amd, arm, build, x, y, z);
      }
    } else {
      forall x, y, z ensures !Approves(p, image, buildType, x, y, z) {
        if Approves(p, image, buildType, x, y, z) { PolicyRead(p, image, buildType, x, y, z); }
      }
    }
  }

  lemma OneReading(p: Policy, image: string, buildType: string, amd: string, arm: string, build: string,
                   amd': string, arm': string, build': string)
    requires Approves(p, image, buildType, amd, arm, build) && Approves(p, image, buildType, amd', arm', build')
    ensures amd == amd' && arm == arm' && build == build'
  {
    assert p.spdx["linux/amd64"][7..] == amd && p.spdx["linux/amd64"][7..] == amd';
    assert p.spdx["linux/arm64"][7..] == arm && p.spdx["linux/arm64"][7..] == arm';
    assert p.buildHash[7..] == build && p.buildHash[7..] == build';
  }
}
