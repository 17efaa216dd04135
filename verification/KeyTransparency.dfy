/** What a client concludes from a bundle's inclusion proof: the log's proofs and the server's keys together. */
module KeyTransparency {
  import opened ByteStrings
  import opened MerkleLog
  import opened SignedMessages
  import KeyRing

  datatype InclusionProof = InclusionProof(
    leafIndex: u64, treeSize: u64, rootHash: Bytes, proofHashes: seq<Bytes>, treeHeadSignature: Bytes)

  datatype SignedTreeHead = SignedTreeHead(treeSize: u64, rootHash: Bytes, kid: Bytes, signature: Bytes)

  datatype KtVerdict = Verified | Unavailable | MalformedProof | InclusionProofInvalid | SignatureInvalid

  /** The pinned roots, the admitted delegations, and the Ed25519 keys from before delegations. */
  datatype ServerTrust = ServerTrust(legacyKeys: seq<Bytes>, roots: seq<Bytes>, keys: seq<Delegation>)

  /** `ed25519` is key, message, signature; `hybridRequired` is the source's build constant. */
  datatype Suite = Suite(ring: KeyRing.Suite, ed25519: (Bytes, Bytes, Bytes) -> bool, hybridRequired: bool)

  function TreeHeadSignable(treeSize: u64, root: Digest): Bytes {
    Ascii("ConstructKT-v1") + Be(treeSize, 8) + root
  }

  predicate AllDigests(hashes: seq<Bytes>) {
    forall i :: 0 <= i < |hashes| ==> |hashes[i]| == 32
  }

  function AsProof(hashes: seq<Bytes>): (p: Proof)
    requires AllDigests(hashes)
    ensures |p| == |hashes| && forall i :: 0 <= i < |p| ==> p[i] == hashes[i]
  {
    seq(|hashes|, i requires 0 <= i < |hashes| => hashes[i])
  }

  predicate LegacySigned(suite: Suite, legacyKeys: seq<Bytes>, message: Bytes, signature: Bytes) {
    |signature| == 64 && exists k :: k in legacyKeys && |k| == 32 && suite.ed25519(k, message, signature)
  }

  function VerifyProof(suite: Suite, domain: u8, deviceId: Bytes, key: Bytes, proof: InclusionProof, head: Option<SignedTreeHead>,
                       trust: ServerTrust, now: i64): KtVerdict
  {
    if |proof.rootHash| != 32 || !AllDigests(proof.proofHashes) then MalformedProof
    else if proof.treeSize == 0 || proof.leafIndex >= proof.treeSize then MalformedProof
    else
      var root: Digest := proof.rootHash;
      var sha := suite.ring.sha;
      if !VerifyInclusion(sha, LeafHash(sha, domain, deviceId, key), AsProof(proof.proofHashes), proof.leafIndex, proof.treeSize, root)
      then InclusionProofInvalid
      else if trust.roots != [] && head.Some? then
        var h := head.value;
        if h.treeSize != proof.treeSize || h.rootHash != proof.rootHash then InclusionProofInvalid
        else if |h.kid| != KID_LEN then MalformedProof
        else
          match KeyRing.Verify(suite.ring, trust.keys, KeyRing.Request(KtHead, h.kid, KtHeadBody(h.treeSize, root), h.signature, now, now))
          case None => Verified
          case Some(UnknownKey) => Unavailable
          case Some(_) => SignatureInvalid
      else if trust.roots != [] && suite.hybridRequired then SignatureInvalid
      else if trust.legacyKeys == [] then Unavailable
      else if LegacySigned(suite, trust.legacyKeys, TreeHeadSignable(proof.treeSize, root), proof.treeHeadSignature) then Verified
      else SignatureInvalid
  }

  /** The head a well-formed proof is relative to. */
  function HeadOf(proof: InclusionProof): (h: Option<Head>) {
    if |proof.rootHash| == 32 then Some(Head(proof.treeSize, proof.rootHash)) else None
  }

  function HeadRequest(proof: InclusionProof, h: SignedTreeHead, now: i64): KeyRing.Request
    requires |proof.rootHash| == 32 && |h.kid| == KID_LEN
  {
    KeyRing.Request(KtHead, h.kid, KtHeadBody(proof.treeSize, proof.rootHash), h.signature, now, now)
  }

  /** The first key held under the head's kid signed the head, and a window for tree heads under that kid is open now. */
  ghost predicate HeadSigned(suite: Suite, proof: InclusionProof, h: SignedTreeHead, trust: ServerTrust, now: i64)
    requires |proof.rootHash| == 32 && |h.kid| == KID_LEN
  {
    var q := HeadRequest(proof, h, now);
    var held := KeyRing.Held(suite.ring, trust.keys, q);
    && held != [] && KeyRing.Signed(suite.ring, held[0].publicKey, q)
    && exists g :: g in KeyRing.Candidates(suite.ring, KeyRing.Grants(trust.keys), KtHead, h.kid) && g.notBefore <= now <= g.notAfter
  }

  /** The delegated head decides alone where roots are pinned; only without one may an Ed25519 head stand in. */
  ghost predicate HeadVouched(suite: Suite, proof: InclusionProof, head: Option<SignedTreeHead>, trust: ServerTrust, now: i64)
    requires |proof.rootHash| == 32
  {
    if trust.roots != [] && head.Some? then
      var h := head.value;
      && h.treeSize == proof.treeSize && h.rootHash == proof.rootHash && |h.kid| == KID_LEN
      && HeadSigned(suite, proof, h, trust, now)
    else
      && (trust.roots != [] ==> !suite.hybridRequired)
      && LegacySigned(suite, trust.legacyKeys, TreeHeadSignable(proof.treeSize, proof.rootHash), proof.treeHeadSignature)
  }

  /** A tree head has no grace: the ring accepts it exactly while a window for it is open. */
  lemma HeadSignedIff(suite: Suite, proof: InclusionProof, h: SignedTreeHead, trust: ServerTrust, now: i64)
    requires |proof.rootHash| == 32 && |h.kid| == KID_LEN
    ensures KeyRing.Verify(suite.ring, trust.keys, HeadRequest(proof, h, now)).None? <==> HeadSigned(suite, proof, h, trust, now)
  {
    hide KeyRing.Verify;
    hide KeyRing.Signed;
    hide KeyRing.Held;
    var q := HeadRequest(proof, h, now);
    KeyRing.OkIffFirstKey(suite.ring, trust.keys, q);
    assert forall g: KeyRing.Grant :: KeyRing.Dated(g, q.signedAt) ==> KeyRing.InGrace(g.notAfter, q);
  }

  /** Verified is exactly: the key's leaf is proved under the head, and the head is vouched for, by grants, dates and signatures. */
  lemma VerifiedIff(suite: Suite, domain: u8, deviceId: Bytes, key: Bytes, proof: InclusionProof, head: Option<SignedTreeHead>,
                    trust: ServerTrust, now: i64)
    ensures VerifyProof(suite, domain, deviceId, key, proof, head, trust, now).Verified?
       <==> && HeadOf(proof).Some? && AllDigests(proof.proofHashes)
            && Included(suite.ring.sha, LeafHash(suite.ring.sha, domain, deviceId, key), AsProof(proof.proofHashes),
                        proof.leafIndex, HeadOf(proof).value)
            && HeadVouched(suite, proof, head, trust, now)
  {
    hide KeyRing.Verify;
    hide InclusionReconstruct;
    hide HeadSigned;
    if |proof.rootHash| == 32 && head.Some? && |head.value.kid| == KID_LEN {
      HeadSignedIff(suite, proof, head.value, trust, now);
    }
  }

  /** Where one key is held under its kid, a delegated head is vouched for exactly by one open grant whose key signed it. */
  lemma HeadSignedByGrant(suite: Suite, proof: InclusionProof, h: SignedTreeHead, trust: ServerTrust, now: i64)
    requires |proof.rootHash| == 32 && |h.kid| == KID_LEN
    requires KeyRing.NoClash(suite.ring, KeyRing.Grants(trust.keys), h.kid)
    ensures HeadSigned(suite, proof, h, trust, now)
       <==> exists g :: && g in KeyRing.Candidates(suite.ring, KeyRing.Grants(trust.keys), KtHead, h.kid)
                        && g.notBefore <= now <= g.notAfter && KeyRing.Signed(suite.ring, g.publicKey, HeadRequest(proof, h, now))
  {
    hide KeyRing.Verify;
    hide KeyRing.Signed;
    hide HeadSigned;
    hide KeyRing.NoClash;
    var q := HeadRequest(proof, h, now);
    HeadSignedIff(suite, proof, h, trust, now);
    KeyRing.OkIffSomeGrant(suite.ring, trust.keys, q);
    assert forall g: KeyRing.Grant :: KeyRing.Dated(g, q.signedAt) ==> KeyRing.InGrace(g.notAfter, q);
  }

  /** Unavailable is no evidence: the leaf is proved, but no key is held to judge the head with. */
  lemma UnavailableIff(suite: Suite, domain: u8, deviceId: Bytes, key: Bytes, proof: InclusionProof, head: Option<SignedTreeHead>,
                       trust: ServerTrust, now: i64)
    ensures VerifyProof(suite, domain, deviceId, key, proof, head, trust, now).Unavailable?
       <==> && HeadOf(proof).Some? && AllDigests(proof.proofHashes)
            && Included(suite.ring.sha, LeafHash(suite.ring.sha, domain, deviceId, key), AsProof(proof.proofHashes),
                        proof.leafIndex, HeadOf(proof).value)
            && if trust.roots != [] && head.Some? then
                 && head.value.treeSize == proof.treeSize && head.value.rootHash == proof.rootHash && |head.value.kid| == KID_LEN
                 && forall d :: d in trust.keys ==> KidOf(suite.ring.sha, d.publicKey) != head.value.kid
               else
                 (trust.roots != [] ==> !suite.hybridRequired) && trust.legacyKeys == []
  {
    hide InclusionReconstruct;
    hide KidOf;
    hide KeyRing.Signed;
    hide KeyRing.InGrace;
    hide KeyRing.LatestClose;
    hide KeyRing.ForPurpose;
    if head.Some? && |head.value.kid| == KID_LEN {
      var named := KeyRing.Named(suite.ring, trust.keys, head.value.kid);
      assert named == [] <==> forall d :: d in trust.keys ==> KidOf(suite.ring.sha, d.publicKey) != head.value.kid by {
        if named != [] { assert named[0] in named; }
      }
    }
  }

  /** The legacy branch in plain terms: some 32-byte Ed25519 key signed the labelled size and root, with 64 bytes. */
  lemma LegacyIff(suite: Suite, trust: ServerTrust, proof: InclusionProof)
    requires |proof.rootHash| == 32
    ensures LegacySigned(suite, trust.legacyKeys, TreeHeadSignable(proof.treeSize, proof.rootHash), proof.treeHeadSignature)
       <==> && |proof.treeHeadSignature| == 64
            && exists k :: k in trust.legacyKeys && |k| == 32
                           && suite.ed25519(k, Ascii("ConstructKT-v1") + Be(proof.treeSize, 8) + proof.rootHash, proof.treeHeadSignature)
  {
    hide Be;
  }

  /** The delegated branch in plain terms: the request put to the ring is for this tree's size and root, signed and judged now. */
  lemma HeadRequestIs(proof: InclusionProof, h: SignedTreeHead, now: i64)
    requires |proof.rootHash| == 32 && |h.kid| == 16
    ensures HeadRequest(proof, h, now)
         == KeyRing.Request(KtHead, h.kid, Be(proof.treeSize, 8) + proof.rootHash, h.signature, now, now)
  {
  }

  /** The remaining verdicts: what is malformed, what proves nothing, and that all else is a signature refused. */
  lemma RefusedIff(suite: Suite, domain: u8, deviceId: Bytes, key: Bytes, proof: InclusionProof, head: Option<SignedTreeHead>,
                   trust: ServerTrust, now: i64)
    ensures var v := VerifyProof(suite, domain, deviceId, key, proof, head, trust, now);
            var shaped := && |proof.rootHash| == 32 && (forall i :: 0 <= i < |proof.proofHashes| ==> |proof.proofHashes[i]| == 32)
                          && proof.leafIndex < proof.treeSize;
            var included := shaped && Included(suite.ring.sha, LeafHash(suite.ring.sha, domain, deviceId, key), AsProof(proof.proofHashes),
                                               proof.leafIndex, Head(proof.treeSize, proof.rootHash));
            var delegated := trust.roots != [] && head.Some?;
            var sameTree := delegated && head.value.treeSize == proof.treeSize && head.value.rootHash == proof.rootHash;
            && (v == MalformedProof <==> !shaped || (included && sameTree && |head.value.kid| != 16))
            && (v == InclusionProofInvalid <==> shaped && (!included || (delegated && !sameTree)))
  {
    hide InclusionReconstruct;
    hide KeyRing.Verify;
    hide LegacySigned;
  }

  /** A proof a client holds verified, with the key it proved. */
  datatype Evidence = Evidence(domain: u8, deviceId: Bytes, key: Bytes, proof: InclusionProof, head: Option<SignedTreeHead>, now: i64)

  predicate Accepted(suite: Suite, trust: ServerTrust, e: Evidence) {
    VerifyProof(suite, e.domain, e.deviceId, e.key, e.proof, e.head, trust, e.now).Verified?
  }

  /**
   End to end: two keys verified at one index under heads `s` and `t` of one accepted history, for
   device ids of one length, are the same key of the same device, or a collision is computed. What
   the client trusts may have grown or changed between the two.
   */
  function OneKeyPerIndex(suite: Suite, trust: ServerTrust, trust': ServerTrust, heads: seq<Head>, proofs: seq<Proof>, s: nat, t: nat,
                          a: Evidence, b: Evidence): (r: Outcome<()>)
    requires AcceptedHistory(suite.ring.sha, heads, proofs) && s <= t < |heads|
    requires Accepted(suite, trust, a) && HeadOf(a.proof) == Some(heads[s])
    requires Accepted(suite, trust', b) && HeadOf(b.proof) == Some(heads[t])
    requires a.proof.leafIndex == b.proof.leafIndex && |a.deviceId| == |b.deviceId|
    ensures r.Holds? ==> a.domain == b.domain && a.deviceId == b.deviceId && a.key == b.key
    ensures Genuine(suite.ring.sha, r)
  {
    hide KeyRing.Verify;
    hide InclusionReconstruct;
    var sha := suite.ring.sha;
    VerifiedIff(suite, a.domain, a.deviceId, a.key, a.proof, a.head, trust, a.now);
    VerifiedIff(suite, b.domain, b.deviceId, b.key, b.proof, b.head, trust', b.now);
    var la := LeafInput(a.domain, a.deviceId, a.key);
    var lb := LeafInput(b.domain, b.deviceId, b.key);
    var same := HistorySafe(sha, heads, proofs, s, t, sha(la), AsProof(a.proof.proofHashes), sha(lb), AsProof(b.proof.proofHashes),
                            a.proof.leafIndex);
    if same.Clash? then same
    else if la != lb then Clash(la, lb)
    else
      LeafInputBinds(a.domain, a.deviceId, a.key, b.domain, b.deviceId, b.key);
      Holds(())
  }
}
