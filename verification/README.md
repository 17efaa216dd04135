# Construct core, verified model

A Dafny model of the trust and wire core of Construct, an end-to-end encrypted messenger, with
proofs of what that core promises. Everything is one project: `dafny verify dfyconfig.toml`.

| module | what it models |
|---|---|
| `MerkleLog` | the key-transparency log: tree hash, proof generators, inclusion and consistency verifiers (sections 2.1, 2.1.1 and 2.1.2 of RFC 6962) |
| `KeyTransparency` | the verdict on a bundle's proof: log proof and server keys together |
| `DeviceTrust` | device certificates and `judge`, the closure of trust over the devices a server lists |
| `SignedMessages`, `KeyRing` | the messages the roots and the server sign, and the ring of delegated server keys |
| `WireErrors`, `Leb128`, `WirePayload` | the wire payload: packing and strict unpacking |
| `KeyLimits` | the retention of rotated-out prekeys, one for both kinds |
| `KyberPrekeys` | the store of ML-KEM prekeys: two-phase rotation, retention, ids, snapshots |
| `ResponderInit` | opening a session as responder, the one-time prekey pool, signed-prekey rotation |
| `Padme`, `Media` | padded media blobs |
| `Knst` | framing and chunking of message bodies |
| `Calendar` | civil dates from second counts |
| `ByteStrings`, `Bits` | byte strings, fixed-width integers, hex, powers of two |

Conventions of the model:

- SHA-256, hybrid and Ed25519 verification, the AEAD and the responder handshake are
  function-valued parameters: every result holds for any such functions, save that the AEAD must
  open what it sealed. Randomness, generated keys and the clock are parameters too.
- No hash is taken to be collision free. A result that rests on a hash is a function that
  returns `Holds`, with the conclusion proved, or `Clash(x, y)`, with `x != y` and equal hashes
  proved. The collision is computed from the proofs at hand; it is not merely said to exist.
- Fixed-width integers are ranges of `int`, and each place where the source wraps, saturates or
  checks is written out. `usize` is 64 bits. Bit masks are written as arithmetic
  (`Padme.PadmeOnWords`, `MerkleLog.SplitOnWords`, `WirePayload.FlagsOnBits` and
  `WirePayload.WithFlagsOnBits` tie it to the operations on bits).
- What the source updates in place is a class, or a method with a loop, proved against a function on
  values. What is proved over runs is proved about that function.
- Snapshots (`to_cfe`, `from_cfe`) are records; their MessagePack bytes are not modelled.

Where the code and its comments differ, the model follows the code, and a lemma says exactly when
the comment holds:

- `src/crypto/keys.rs:28-32` says a first flight opens while its age plus its wait is at most the
  retention. The code prunes at exactly the retention, so the sum must be strictly less; with both
  at their limits of seven days the prekey can be gone (`KyberPrekeys.FirstFlightOpensIff`).
- The Kyber store's restore is said never to reuse an id. A signed id that the restored store holds
  is reused exactly when the record holds the id 2^32 - 1, whose successor wraps to zero, and an id
  in the signed range that survives the pruning and that the record's own counter has fallen behind
  (`KyberPrekeys.RestoreReissuesIff`, `KyberPrekeys.DamagedRecordReissues`). No record that the store
  writes is like that. One-time ids are never reused (`KyberPrekeys.RestoreKeepsOneTime`).
- Burning a one-time prekey is said to make it unusable for good. One operation brings a spent id
  back exactly when it generates round the end of the counter, when an imported or restored pool
  lists the id, or when the counter is left behind it: by a listed 2^32 - 1 that wraps it, unless a
  later entry is at or above the id, or by a restored counter that had not got there
  (`ResponderInit.SpentIff`, `ResponderInit.ImportReopens`).
- Rotation is said to keep every outgoing signed prekey for its window. At the end of the id range
  it files two of them under one id and loses the first (`ResponderInit.RotateRetainsIff`,
  `ResponderInit.FullRangeLoses`).
- `verify` takes the kid for the key. Where two keys share the kid of a request, the first one
  admitted alone is asked. Two rings asked for the same delegations agree exactly when those first
  keys do (`KeyRing.AdmissionOrderIff`, `KeyRing.OkIffFirstKey`, `KeyRing.ClashFollowsOrder`).
- `judge` settles the k-th bundle under an id by the k-th trusted device of that id. The order of the
  offers is free exactly when no two bundles that hold together share an id; bundles that do not hold
  together may repeat any id (`DeviceTrust.OrderFreeIff`, `DeviceTrust.JudgeReordered`,
  `DeviceTrust.JudgeFollowsOrder`).
- From an old tree of size zero, the consistency verifier accepts any pair of roots with the empty
  proof (`MerkleLog.EmptyOldTreeBindsNothing`); consistency is therefore stated for a non-empty old tree.
- A leaf input has no length prefix; it binds id and key exactly when ids have one length, as device
  ids do (`MerkleLog.LeafInputBinds`, `MerkleLog.LeafBoundarySlides`).
- A KEM ciphertext without the handshake flag is read but packs to other bytes
  (`WirePayload.RepackIff`, `WirePayload.UnflaggedCiphertextIsRead`).
- A responder init that fails has already dropped the session it was to replace
  (`ResponderInit.FailureBurnsNothing`).
- Comments in `src/crypto/key_transparency.rs` number the proof sections 2.1.3 and 2.1.4. Those are
  the numbers of RFC 9162.

## Model

| member | source | states |
|---|---|---|
| `MerkleLog.HistorySafe` | src/crypto/key_transparency.rs:81-235 | Over any accepted chain of heads, two leaves accepted at one index under any two of the heads are equal, or a collision is computed; no tree is assumed behind any head |
| `MerkleLog.HistoryOfTree` | src/crypto/key_transparency.rs:81-235 | If the last head is the root of a known leaf list, a leaf accepted under any earlier head is the one in that list, or a collision is computed |
| `MerkleLog.CarryThrough` | src/crypto/key_transparency.rs:81-235 | An inclusion proof under a later head turns into one under any earlier head of an accepted history |
| `MerkleLog.CarryBack` | src/crypto/key_transparency.rs:101-235 | One consistency proof turns an inclusion proof under the new root into one under the old root, or gives a collision |
| `MerkleLog.ConsistencySound` | src/crypto/key_transparency.rs:140-235 | For 0 < m <= n, an old root accepted against the root of n leaves is the root of the first m of them, by the generated proof, or a collision is computed |
| `MerkleLog.ConsistencyBinding` | src/crypto/key_transparency.rs:175-235 | Two consistency proofs between the same sizes with one new root are the same proof of the same old root, or a collision is computed |
| `MerkleLog.ConsistencyComplete` | src/crypto/key_transparency.rs:140-164 | The generated consistency proof of every non-empty prefix is accepted, and is within the length cap |
| `MerkleLog.SubproofReconstructs` | src/crypto/key_transparency.rs:403-430 | The reconstruction undoes the generator: both roots come out of the generated subproof |
| `MerkleLog.SubproofLength` | src/crypto/key_transparency.rs:403-430 | A generated consistency proof is at most one longer than the depth of the tree |
| `MerkleLog.EmptyOldTreeBindsNothing` | src/crypto/key_transparency.rs:140-164 | From an empty old tree a proof is accepted exactly when it is empty, whatever the two roots |
| `MerkleLog.PrefixHash` | src/crypto/key_transparency.rs:57-68 | The tree hash of a prefix reaching into the right half splits where the whole tree does |
| `MerkleLog.InclusionSound` | src/crypto/key_transparency.rs:81-131 | What is accepted at an index against the root of a leaf list is the leaf there, by the generated proof, or a collision is computed |
| `MerkleLog.InclusionBinding` | src/crypto/key_transparency.rs:101-131 | Two proofs for one position and root are the same proof of the same leaf, or a collision is computed |
| `MerkleLog.InclusionComplete` | src/crypto/key_transparency.rs:81-96 | The generated proof of every leaf of every tree with a 64-bit size is accepted, within the cap |
| `MerkleLog.GeneratedReconstructs` | src/crypto/key_transparency.rs:385-400 | The reconstruction undoes the inclusion-proof generator |
| `MerkleLog.ReconstructLength` | src/crypto/key_transparency.rs:101-131 | A proof reconstructs some root exactly when it has the one length its index and size allow |
| `MerkleLog.PathWithinCap` | src/crypto/key_transparency.rs:36-39 | The cap of 64 refuses no proof that a 64-bit tree size can need |
| `MerkleLog.SplitOnWords` | src/crypto/key_transparency.rs:46-51 | The shift of one by the bit position of n - 1, on 64-bit words, is the split of the recursive definition |
| `MerkleLog.SplitIsLargest` | src/crypto/key_transparency.rs:41-51 | The split is a power of two strictly below n, and every power of two below n is at most it |
| `MerkleLog.SplitStable` | src/crypto/key_transparency.rs:46-51 | A prefix that reaches past the split of the whole splits at the same place |
| `MerkleLog.SameNode` | src/crypto/key_transparency.rs:25-30 | Equal node hashes have equal children, or their two inputs are the collision |
| `MerkleLog.LeafInputBinds` | src/crypto/key_transparency.rs:246-253 | Equal leaf inputs have one domain, and name one id and key exactly when the ids have one length |
| `MerkleLog.LeafBoundarySlides` | src/crypto/key_transparency.rs:246-253 | For any id and non-empty key there is another pair with the same leaf input |
| `MerkleLog.LeafIsNoNode` | src/crypto/key_transparency.rs:19-30 | No leaf input of either domain is the input of an inner node |
| `MerkleLog.NodeBytes` | src/crypto/key_transparency.rs:25-30 | An inner node is the hash of the byte 1, the left hash and the right hash |
| `MerkleLog.LeafBytes` | src/crypto/key_transparency.rs:241-253 | A leaf is the hash of its kind, 0 for an identity key and 2 for a hybrid key, the device id and the key |
| `MerkleLog.SmallRoots` | src/crypto/key_transparency.rs:57-68 | The roots of the trees of up to three leaves, written out |
| `KeyTransparency.VerifiedIff` | src/crypto/key_transparency.rs:301-377 | Verified exactly when the key's own leaf is proved under the head and the head is vouched for: where roots are pinned and a delegated head is given, by the first key held under its kid and a window for tree heads open now; else by a legacy key where that is still allowed |
| `KeyTransparency.HeadSignedIff` | src/crypto/key_transparency.rs:330-352 | The ring accepts a delegated head exactly while some window for tree heads under its kid is open: a head has no grace |
| `KeyTransparency.HeadSignedByGrant` | src/crypto/key_transparency.rs:330-352 | Where one key is held under its kid, a delegated head is vouched for exactly by one grant open now whose key signed it |
| `KeyTransparency.UnavailableIff` | src/crypto/key_transparency.rs:301-377 | Unavailable exactly when the leaf is proved but no key is held to judge the head with; a bad proof is never reported as it |
| `KeyTransparency.RefusedIff` | src/crypto/key_transparency.rs:301-377 | The remaining verdicts, exactly: what is malformed, what proves nothing, and that all else is a signature refused |
| `KeyTransparency.LegacyIff` | src/crypto/key_transparency.rs:359-377 | The legacy branch: some 32-byte Ed25519 key signed the label, the eight-byte size and the root, with 64 bytes |
| `KeyTransparency.HeadRequestIs` | src/crypto/key_transparency.rs:330-352 | The delegated branch asks the ring about this very size and root, signed and judged now |
| `KeyTransparency.OneKeyPerIndex` | src/crypto/key_transparency.rs:241-377 | Two keys verified at one index under two heads of one accepted history, each by whatever was trusted then, for ids of one length, are one key of one device and domain, or a collision is computed |
| `DeviceTrust.Judge` | src/crypto/device_certificate.rs:328-394 | For any lists: Invalid is exactly a bundle with a key of the wrong length, a hybrid key its Ed25519 key did not bind, or an id that is not the hex of the first 16 bytes of the hash of its identity key; a pinned device has a trusted device of its id whose pin agrees and a changed one has one whose pin does not, the k-th bundle of an id answering to the k-th trusted device of it; a vouched device ends a chain of certificates from a trusted key, by its named signer. Where trusted ids, and ids of bundles that hold together, are distinct, every verdict is the declarative one |
| `DeviceTrust.VouchedIff` | src/crypto/device_certificate.rs:328-394 | A device new to an account with trusted devices is vouched for exactly when its certificate speaks for an anchored key or for the key of a device itself vouched for, and the verdict names that signer; it is unvouched otherwise, and first of its account where none is trusted |
| `DeviceTrust.BaseIff` | src/crypto/device_certificate.rs:333-360 | The anchored keys, exactly: the key a trusted device shows if its pin agrees or it has none, and the pin of one that shows none |
| `DeviceTrust.HoldsTogetherIff` | src/crypto/device_certificate.rs:245-259 | What a bundle must satisfy, in lengths, bytes and labels |
| `DeviceTrust.Spread` | src/crypto/device_certificate.rs:369-388 | The closure loop ends, decides only reached devices, and leaves none undecided that its anchors vouch for |
| `DeviceTrust.FixpointReached` | src/crypto/device_certificate.rs:369-388 | Where the loop stops without overwriting an anchor, the undecided devices are reached by no chain of certificates |
| `DeviceTrust.PinTrusted` | src/crypto/device_certificate.rs:333-360 | For any lists, the k-th bundle shown under an id is pinned or changed by the k-th trusted device of it, and no other is settled; where trusted ids, and ids of bundles that hold together, are distinct, the anchors are exactly the base of the closure |
| `DeviceTrust.SettlingStep` | src/crypto/device_certificate.rs:340-360 | One more trusted device settles the next unsettled bundle of its id and no other |
| `DeviceTrust.FoundIsNext` | src/crypto/device_certificate.rs:341-344 | The offer the search finds is the one whose place among the bundles of the id is the place of the trusted device |
| `DeviceTrust.FindOffered` | src/crypto/device_certificate.rs:341-344 | The first undecided offer under an id, or none exists |
| `DeviceTrust.JudgeReordered` | src/crypto/device_certificate.rs:328-394 | Where trusted ids, and ids of bundles that hold together, are distinct, no reordering of either list changes a device's verdict or signer |
| `DeviceTrust.JudgeFollowsOrder` | src/crypto/device_certificate.rs:340-360 | Whenever two bundles that hold together share an id, with that id trusted a swap of the first with another pins the one bundle instead of the other |
| `DeviceTrust.OrderFreeIff` | src/crypto/device_certificate.rs:333-360 | Whoever is trusted, no reordering of the offers changes what is settled of a device, if and only if no two bundles that hold together share an id |
| `DeviceTrust.JudgeFollowsTrustedOrder` | src/crypto/device_certificate.rs:340-360 | Two trusted entries of one id that judge a bundle differently decide it by their order |
| `DeviceTrust.SettledBySets` | src/crypto/device_certificate.rs:333-360 | Under distinct ids, what is settled of a device depends on the set of trusted devices and on the device alone |
| `DeviceTrust.TwoBundlesOneId` | src/crypto/device_certificate.rs:245-259 | Two bundles that hold together can share an id: one identity key, two hybrid keys |
| `DeviceTrust.IslandUnvouched` | src/crypto/device_certificate.rs:362-393 | Whatever a server lists twice: devices under no trusted id that certify only each other, cycles included, are all unvouched |
| `DeviceTrust.ChainClosed` | src/crypto/device_certificate.rs:369-388 | Reachability is least: any set of anchors holding the base and closed under certificates holds all that is reached |
| `DeviceTrust.ReachStep` | src/crypto/device_certificate.rs:369-388 | Reachability is closed: a certificate from a base anchor or a reached device reaches its subject |
| `DeviceTrust.ReachedFrom` | src/crypto/device_certificate.rs:369-388 | And in no other way: what a reached device's certificate speaks for is a base anchor or a reached device |
| `DeviceTrust.VouchGrounded` | src/crypto/device_certificate.rs:375-383 | Anchoring one more vouched device keeps every anchor grounded in a chain |
| `DeviceTrust.VouchKept` | src/crypto/device_certificate.rs:375-383 | With ids listed once, vouching overwrites no anchor |
| `DeviceTrust.VouchingSigner` | src/crypto/device_certificate.rs:397-419 | A signer is named exactly when the device's certificate claims it, under another id, with the very key it is anchored with |
| `DeviceTrust.ClaimIsSigned` | src/crypto/device_certificate.rs:397-419 | Behind a claim stands the signer's hybrid signature over this device's own id and keys |
| `DeviceTrust.ClaimIff` | src/crypto/device_certificate.rs:397-419 | A claim exists exactly where a well-formed certificate, under another id, carries the signer's hybrid signature over this device's 16-byte id and keys; it is the signer's id with the hash of its hybrid key |
| `DeviceTrust.CertificateRoundTrip` | src/crypto/device_certificate.rs:154-186 | Decoding accepts exactly the encodings of well-formed certificates, each as the one encoded |
| `DeviceTrust.CertificateMessageInjective` | src/crypto/device_certificate.rs:188-213 | Equal signed messages have one signer, one subject, one set of keys and one time |
| `DeviceTrust.CertificateLayout` | src/crypto/device_certificate.rs:154-165 | The certificate on the wire, field by field at its offset |
| `DeviceTrust.CertificateMessageLayout` | src/crypto/device_certificate.rs:188-213 | The signed message, field by field at its offset, label included |
| `KeyRing.VerifyIsJudgement` | src/crypto/server_trust.rs:194-231 | With one key under the kid, the verdict is a function of the set of grants, error cases in order |
| `KeyRing.VerifyByFirstKey` | src/crypto/server_trust.rs:194-231 | For any ring, the verdict is that of the set of grants, the signature judged by the first key held |
| `KeyRing.OkIffFirstKey` | src/crypto/server_trust.rs:194-231 | For any ring, Ok exactly when the first held key of the kid for the purpose signed and some held window holds the date of signing and is honoured now: to eight days past its close for a certificate, to its close for a tree head, always for a manifest |
| `KeyRing.VerdictIs` | src/crypto/server_trust.rs:194-231 | For any ring and every request some held delegation answers, the verdict in plain terms: the first one admitted alone must have signed label, kid and body; some window must hold the date of signing; and now must be within eight days of the close of such a window for a certificate, at or before it for a tree head, anywhen for a manifest |
| `KeyRing.UnansweredIs` | src/crypto/server_trust.rs:194-231 | The verdict where no held delegation answers: wrong purpose exactly when the kid is known, else unknown key |
| `KeyRing.HonouredIff` | server-trust/src/lib.rs:101-107 | The graces in seconds: 691200 for a certificate, none for a tree head, no end for a manifest; the saturating sum loses nothing |
| `KeyRing.EveryKeyLapses` | src/crypto/server_trust.rs:194-231 | Eight days past the last close a ring knows, it accepts no certificate and no tree head |
| `KeyRing.ManifestsIgnoreTheClock` | src/crypto/server_trust.rs:194-231 | The verdict on a manifest is the same at every time |
| `KeyRing.SameVerdictIff` | src/crypto/server_trust.rs:194-231 | Rings that hold the same windows under the same kids agree on a signature exactly when the first keys they ask do |
| `KeyRing.ClashFollowsOrder` | src/crypto/server_trust.rs:173-231 | Of two root-signed keys under one kid, one of which signed, the order of admission decides between Ok and BadSignature |
| `KeyRing.OkIffSomeGrant` | src/crypto/server_trust.rs:194-231 | With one key under the kid, Ok exactly when one held grant of the kid for the purpose signed the body, was open at the date of signing and is within its grace now |
| `KeyRing.LatestDecides` | src/crypto/server_trust.rs:211-231 | Looking only at the latest close among the windows that hold the date decides whether any is in grace |
| `KeyRing.LatestClose` | src/crypto/server_trust.rs:211-231 | The maximum close among the windows that hold the date, or none does |
| `KeyRing.RingInvariant` | src/crypto/server_trust.rs:173-186 | In every reachable ring each delegation is well formed, signed by a pinned root and held once |
| `KeyRing.AdmitsIff` | src/crypto/server_trust.rs:173-186 | Every answer of an admission and the ring after it: malformed, no root, not rooted, or the kid, the delegation appended exactly when none of its kid, purpose and window is held |
| `KeyRing.AdmittedSlots` | src/crypto/server_trust.rs:173-186 | A ring holds exactly the windows, by kid and purpose, that root-signed delegations asked for, each filled by a grant one of them asked for |
| `KeyRing.AdmittedGrants` | src/crypto/server_trust.rs:173-186 | Where no kid is shared, the grants held are exactly those asked for: dropping repeats loses nothing |
| `KeyRing.AdmissionOrderIrrelevant` | src/crypto/server_trust.rs:173-231 | Where one key was asked for under the kid of a request, rings asked for the same delegations, in any order and number, judge it alike |
| `KeyRing.AdmissionOrderIff` | src/crypto/server_trust.rs:173-231 | Rings asked for the same delegations, in any order and number and whatever clashes, agree on a signature exactly when the first keys they ask do |
| `KeyRing.LaterAdmissionsKeepOk` | src/crypto/server_trust.rs:194-231 | No later admission, clashing or not, turns an accepted signature into a refused one |
| `KeyRing.VerifyRooted` | src/crypto/server_trust.rs:110-123 | The search accepts exactly what some pinned root signed, and tells having no root from no root having signed |
| `KeyRing.FindGrant` | src/crypto/server_trust.rs:177-182 | The search finds exactly a delegation of the same kid, purpose and window |
| `KeyRing.ServerKeyRing.constructor` | src/crypto/server_trust.rs:145-150 | A new ring holds the given roots and no key |
| `KeyRing.ServerKeyRing.Admit` | src/crypto/server_trust.rs:173-186 | The answer and the new ring are those of the specification, and the ring invariant is kept |
| `SignedMessages.MessagesSeparate` | server-trust/src/lib.rs:82-253 | Across delegations, the three server purposes, recovery setup and recovery claim, two messages built to the same bytes are of one kind with equal fields |
| `SignedMessages.LabelsPrefixFree` | server-trust/src/lib.rs:82-98 | No kind's label is a prefix of another kind's message |
| `SignedMessages.DelegationRoundTrip` | server-trust/src/lib.rs:150-181 | Decoding accepts exactly the encodings of delegations with a proper window, each as the one encoded |
| `SignedMessages.DelegationLayout` | server-trust/src/lib.rs:150-159 | The delegation on the wire, field by field at its offset |
| `SignedMessages.DelegationValidIff` | server-trust/src/lib.rs:161-181 | Which delegations are well formed: hybrid lengths, and a window that opens before it closes |
| `SignedMessages.SignableLayout` | server-trust/src/lib.rs:184-198 | What a root signs, field by field at its offset |
| `SignedMessages.ServerSignableLayout` | server-trust/src/lib.rs:201-207 | What a server key signs for each purpose: label, kid, body |
| `SignedMessages.LpSplit` | server-trust/src/lib.rs:210-215 | A length-prefixed field cannot slide into what follows it |
| `SignedMessages.PutLp` | server-trust/src/lib.rs:210-215 | Appends the field behind its length, or refuses one too long for the prefix and appends nothing |
| `SignedMessages.SenderCertBody` | server-trust/src/lib.rs:218-236 | Builds the body of the certificate message in the catalogue, or fails where it has none |
| `SignedMessages.SetupSignable` | server-trust/src/recovery.rs:35-49 | Builds the setup message of the catalogue, or fails where it has none |
| `SignedMessages.ClaimSignable` | server-trust/src/recovery.rs:52-78 | Builds the claim message of the catalogue, or fails where it has none |
| `SignedMessages.BuildersAgree` | server-trust/src/lib.rs:184-253 | The delegation, tree-head and manifest builders produce the catalogue's messages |
| `SignedMessages.CertificateBytes` | server-trust/src/lib.rs:218-236 | The sender certificate: kid, four prefixed fields and two dates at their offsets |
| `SignedMessages.TreeHeadBytes` | server-trust/src/lib.rs:239-244 | The tree head: kid, eight-byte size and root at their offsets |
| `SignedMessages.ManifestBytes` | server-trust/src/lib.rs:247-253 | The manifest is built exactly up to 2^32 - 1 bytes: kid, four-byte length and text at their offsets |
| `SignedMessages.SetupBytes` | server-trust/src/recovery.rs:35-49 | The recovery setup is built exactly for an account id that fits and a whole key, fields at their offsets |
| `SignedMessages.ClaimBytes` | server-trust/src/recovery.rs:52-78 | The recovery claim, fields at their offsets |
| `SignedMessages.BuildableIff` | server-trust/src/lib.rs:210-236 | Certificates and claims are built exactly when every field fits its prefix and the recovery key has its length |
| `WirePayload.UnpackIff` | src/wire_payload.rs:275-461 | Bytes unpack to a message exactly when the message is well formed and the bytes are its layout |
| `WirePayload.WellFormedIff` | src/wire_payload.rs:275-461 | Which messages unpack, every condition in numbers |
| `WirePayload.HeaderLayout` | src/wire_payload.rs:169-272 | The header: little-endian numbers at fixed offsets around the ratchet key, then the ciphertext; the suite field gives suite and flags under its masks |
| `WirePayload.SectionsLayout` | src/wire_payload.rs:169-272 | After the ciphertext the two optional objects at their offsets, the section of suite 4 and the sealed box |
| `WirePayload.PqLayout` | src/wire_payload.rs:221-250 | The ratchet section: epoch, index, and the exchange field by its type byte |
| `WirePayload.UnpackRefusesAs` | src/wire_payload.rs:275-461 | Which error the header alone causes |
| `WirePayload.PartsRefusedAs` | src/wire_payload.rs:275-461 | Which error each part behind the header causes |
| `WirePayload.PackRoundTrip` | src/wire_payload.rs:169-461 | What packs reads back as its normalised message, flags from presence and ratchet fields zeroed off suite 4, exactly when it has a live suite, no index without an epoch and a sealed box; otherwise it is refused, never misread |
| `WirePayload.PackedSays` | src/wire_payload.rs:169-461 | What a packed message says once read, field by field against what was given |
| `WirePayload.PacksIff` | src/wire_payload.rs:169-272 | What is packed, every condition in numbers |
| `WirePayload.PackRefusesAs` | src/wire_payload.rs:169-272 | The error of what is not packed, in the order of the checks |
| `WirePayload.RepackIff` | src/wire_payload.rs:169-461 | A received message packs again, and to its own bytes exactly when the handshake flag agrees with the presence of a KEM ciphertext |
| `WirePayload.UnpackInjective` | src/wire_payload.rs:275-461 | No two byte strings unpack to one message |
| `WirePayload.UnflaggedCiphertextIsRead` | src/wire_payload.rs:275-461 | The exception of the repacking law occurs: such bytes unpack and pack to other bytes |
| `WirePayload.LayoutIsUnpacked` | src/wire_payload.rs:275-461 | Every message whose lengths fit reads back as itself if readable and is refused if not |
| `WirePayload.UnpackedIsLayout` | src/wire_payload.rs:275-461 | What unpacks is well formed, and the bytes are its layout |
| `WirePayload.FlagsAreRead` | src/wire_payload.rs:275-461 | Suite and flags share the suite field without loss |
| `WirePayload.FlagsOnBits` | src/wire_payload.rs:318-326 | The flags and the suite are what the bitwise and with each flag and with the complement of all gives |
| `WirePayload.WithFlagsOnBits` | src/wire_payload.rs:206-219 | The suite field is what setting each flag in turn by bitwise or gives |
| `WirePayload.PackSection` | src/wire_payload.rs:221-250 | The ratchet section grown step by step is the section of the layout, or the length error of a field too long for its prefix |
| `WirePayload.PackMessage` | src/wire_payload.rs:169-272 | The grown buffer is the layout of the normalised message, or the error of the first field that does not fit |
| `WirePayload.ReadObjectAt` | src/wire_payload.rs:275-461 | One KEM-identity object at the cursor: what the specification reads, with the cursor past exactly its bytes |
| `WirePayload.ReadFieldAt` | src/wire_payload.rs:275-461 | The exchange field at the cursor: as specified, with the cursor past exactly its bytes |
| `WirePayload.ReadPqAt` | src/wire_payload.rs:275-461 | The ratchet section at the cursor: as specified, with the cursor past exactly its bytes |
| `WirePayload.UnpackMessage` | src/wire_payload.rs:275-461 | The cursor-moving reader computes the specification, errors included |
| `Leb128.ReadLebIff` | src/wire_payload.rs:467-502 | The reader accepts exactly the writer's image of the 32-bit numbers, each as its number |
| `Leb128.LebGroups` | src/wire_payload.rs:467-477 | The bytes: seven bits each, low group first, the high bit on all but the last, no last zero group unless alone |
| `Leb128.WriteLeb128` | src/wire_payload.rs:467-477 | Appends the one encoding of the value |
| `Leb128.ReadLeb128` | src/wire_payload.rs:482-502 | Value, end and error are those of the recursive reading, groups shifted into place |
| `KyberPrekeys.RunSound` | src/crypto/kyber_prekeys.rs:141-292 | In every state of every run, restores of the latest snapshot included: signed ids below 1000000, one-time ids at or above it, held ids distinct and below their counters, counters never back |
| `KyberPrekeys.IdsAreFresh` | src/crypto/kyber_prekeys.rs:141-197 | Over any run, a later generation's ids are larger: none, signed or one-time, is handed out twice |
| `KyberPrekeys.FindIsUnambiguous` | src/crypto/kyber_prekeys.rs:221-230 | Lookup by id finds the one held key of that id, wherever it is held |
| `KyberPrekeys.FindIff` | src/crypto/kyber_prekeys.rs:221-230 | Lookup, exactly: from 1000000 the one-time pool, below it the signed keys held |
| `KyberPrekeys.BurnedForGood` | src/crypto/kyber_prekeys.rs:184-292 | Over any run, once a held one-time prekey is removed no later state holds or finds its id, reloads of the latest snapshot included |
| `KyberPrekeys.RemoveForgets` | src/crypto/kyber_prekeys.rs:212-230 | A removed one-time prekey is not found; every other id is found as before |
| `KyberPrekeys.RestoreIsPrune` | src/crypto/kyber_prekeys.rs:234-292 | Restoring the snapshot of a sound store is that store with its expired retirees pruned |
| `KyberPrekeys.RestoredIs` | src/crypto/kyber_prekeys.rs:254-292 | What comes back of any record: current, pending and one-time entries with a 64-byte seed, retirees that also are inside their fourteen days, nothing else |
| `KyberPrekeys.LastEntryCounts` | src/crypto/kyber_prekeys.rs:268-273 | Of several whole entries of one id, the last comes back |
| `KyberPrekeys.RestoredCounters` | src/crypto/kyber_prekeys.rs:254-292 | The counters come back at the least place at or past the record's own, the start of the range and, for one-time ids, past every id held |
| `KyberPrekeys.RestoreReissuesIff` | src/crypto/kyber_prekeys.rs:254-292 | The store restored from any record hands out again, however many rotations later, a signed id it holds, exactly when the record holds 2^32 - 1 and an id in the signed range that survives the pruning and that its counter has fallen behind |
| `KyberPrekeys.RestoreKeepsOneTime` | src/crypto/kyber_prekeys.rs:184-292 | The store restored from any record never hands out or overwrites a one-time id it holds |
| `KyberPrekeys.NeverOverwritten` | src/crypto/kyber_prekeys.rs:184-197 | Where the one-time counter is past every id or at its end, no generation, failing or not, touches an id held, and it stays so |
| `KyberPrekeys.IssuedIff` | src/crypto/kyber_prekeys.rs:141-173 | Rotations begun and given up hand out exactly the ids from the counter to the end of the signed range |
| `KyberPrekeys.DamagedRecordReissues` | src/crypto/kyber_prekeys.rs:254-292 | A record after which the very next rotation hands out the id of the current prekey |
| `KyberPrekeys.StaleSnapshotReissues` | src/crypto/kyber_prekeys.rs:184-292 | From a snapshot that is not the latest, the next one-time id is handed out again |
| `KyberPrekeys.TwoPhases` | src/crypto/kyber_prekeys.rs:141-173 | A begun rotation gives the same key however often it is begun; commit makes that key current; until then it is found; rollback forgets it |
| `KyberPrekeys.BeginIs` | src/crypto/kyber_prekeys.rs:141-152 | Each answer of a begun rotation: the pending key, the end of the signed range at 1000000, a failed generation, or the next id with the fresh seed dated now |
| `KyberPrekeys.CommitIs` | src/crypto/kyber_prekeys.rs:156-168 | A commit makes the pending key current, retires the one before it now, drops exactly what retired fourteen days ago, and leaves pool and counters alone |
| `KyberPrekeys.PruneAndRollbackAre` | src/crypto/kyber_prekeys.rs:171-179 | Pruning drops exactly what retired fourteen days ago or before; a rollback drops the pending key alone |
| `KyberPrekeys.KeptInOrder` | src/crypto/kyber_prekeys.rs:176-179 | What pruning keeps stays in its order |
| `KyberPrekeys.PruneBelowIff` | src/crypto/kyber_prekeys.rs:205-209 | Pruning the pool keeps exactly the ids at or above the bound, with their keys |
| `KyberPrekeys.CurrentIsRetained` | src/crypto/kyber_prekeys.rs:156-230 | A signed prekey current at t is found through any operations up to d seconds later, for every d below the retention |
| `KyberPrekeys.PendingIsRetained` | src/crypto/kyber_prekeys.rs:141-230 | So is a pending one, unless its rotation is rolled back |
| `KyberPrekeys.AlwaysFoundIff` | src/crypto/kyber_prekeys.rs:156-230 | The guarantee over all runs holds for d seconds exactly when d is below the retention |
| `KyberPrekeys.FirstFlightOpensIff` | src/crypto/keys.rs:18-39 | A first flight within both limits always finds its prekey exactly when it is not at both limits |
| `KyberPrekeys.RotatedAndPruned` | src/crypto/kyber_prekeys.rs:156-179 | The run that loses a key at its retention: rotated out at once, pruned d seconds later |
| `KyberPrekeys.StepSound` | src/crypto/kyber_prekeys.rs:141-292 | Every operation keeps the store's invariant and moves no counter back |
| `KyberPrekeys.CommitSound` | src/crypto/kyber_prekeys.rs:156-168 | Committing keeps every signed id distinct while one key retires and another becomes current |
| `KyberPrekeys.GenerateSound` | src/crypto/kyber_prekeys.rs:184-197 | The keys handed out for upload have consecutive ids from the counter and are the very keys kept; the pool gains exactly them, and a failed generation keeps those made before it |
| `KyberPrekeys.GenerateHandsOut` | src/crypto/kyber_prekeys.rs:184-197 | The keys handed out for upload are the very keys kept, by consecutive ids |
| `KyberPrekeys.GenerateOkIff` | src/crypto/kyber_prekeys.rs:184-197 | A generation succeeds exactly when every seed is there and the range has room for all |
| `KyberPrekeys.GenerateIs` | src/crypto/kyber_prekeys.rs:184-197 | The i-th key made carries the i-th seed, the i-th id from the counter, and the time of its making |
| `KyberPrekeys.GenerateStops` | src/crypto/kyber_prekeys.rs:184-197 | Where and with which error a generation stops, its counter past what it made |
| `KyberPrekeys.KeptOf` | src/crypto/kyber_prekeys.rs:176-179 | Pruning keeps exactly the retirees inside their window |
| `KyberPrekeys.ListById` | src/crypto/kyber_prekeys.rs:234-250 | The pool listed by rising id, each key once |
| `KyberPrekeys.KyberPrekeyStore.constructor` | src/crypto/kyber_prekeys.rs:119-133 | A new store is empty and sound, counters at 1 and 1000000 |
| `KyberPrekeys.KyberPrekeyStore.FromCfe` | src/crypto/kyber_prekeys.rs:254-292 | Filtering, collecting, raising both counters and pruning in place gives the specified store, for any record |
| `KyberPrekeys.WholeRetired` | src/crypto/kyber_prekeys.rs:258-267 | The retirees with a whole seed, in order |
| `KyberPrekeys.WholeOneTime` | src/crypto/kyber_prekeys.rs:268-273 | The one-time entries with a whole seed, a later one replacing an earlier one of its id |
| `KyberPrekeys.FindHighest` | src/crypto/kyber_prekeys.rs:277-283 | The highest id among the signed prekeys |
| `KyberPrekeys.KyberPrekeyStore.RaiseCounters` | src/crypto/kyber_prekeys.rs:279-289 | Each counter goes past the highest id held, wrapping for signed ids and saturating for one-time ids |
| `KyberPrekeys.KyberPrekeyStore.BeginSpkRotation` | src/crypto/kyber_prekeys.rs:141-152 | Answer and new store as specified, the invariant kept |
| `KyberPrekeys.KyberPrekeyStore.CommitSpkRotation` | src/crypto/kyber_prekeys.rs:156-168 | Answer and new store as specified, the invariant kept |
| `KyberPrekeys.KyberPrekeyStore.RollbackSpkRotation` | src/crypto/kyber_prekeys.rs:171-173 | New store as specified, the invariant kept |
| `KyberPrekeys.KyberPrekeyStore.PruneRetired` | src/crypto/kyber_prekeys.rs:176-179 | New store as specified, the invariant kept |
| `KyberPrekeys.KyberPrekeyStore.GenerateOtpks` | src/crypto/kyber_prekeys.rs:184-197 | The loop's answer and store as specified, the invariant kept |
| `KyberPrekeys.KyberPrekeyStore.PruneOtpksBelow` | src/crypto/kyber_prekeys.rs:205-209 | Count and new store as specified, the invariant kept |
| `KyberPrekeys.KyberPrekeyStore.RemoveOtpk` | src/crypto/kyber_prekeys.rs:212-214 | The key burned, if held, and the pool without it |
| `KyberPrekeys.KyberPrekeyStore.ToCfe` | src/crypto/kyber_prekeys.rs:234-250 | The record is a snapshot of the store, which is unchanged |
| `ResponderInit.OneSessionPerOtpk` | src/crypto/client_api.rs:605-744 | Over any run, imports and restarts included, a one-time prekey below the counter when it opens a session opens no other, unless an operation in between brings the burned id back |
| `ResponderInit.OneSessionWithoutWrap` | src/crypto/client_api.rs:605-744 | In a run whose counter has not wrapped, that holds of every session opened |
| `ResponderInit.SpentStaysSpent` | src/crypto/keys.rs:806-928 | An id spent once is spent in every later state, unless an operation in between brings it back |
| `ResponderInit.SpentIff` | src/crypto/keys.rs:806-928 | One operation, exactly: a spent id stays spent if and only if no generation goes round the end of the counter, no imported or restored pool lists it, and none leaves the counter behind it |
| `ResponderInit.BelowIff` | src/crypto/keys.rs:806-928 | The pool stays below its counter if and only if the operation does not wrap the counter: no generation past the end, no listed id 2^32 - 1 |
| `ResponderInit.ImportSpentIff` | src/crypto/keys.rs:883-912 | A spent id survives an import exactly when it is not listed and, if 2^32 - 1 is, an entry at or above the id follows the last such entry |
| `ResponderInit.RestartSpentIff` | src/orchestration/orchestrator.rs:2376-2396 | After a restart from any pool an id is spent exactly when the pool does not list it and the restored counter goes past it |
| `ResponderInit.ImportCounter` | src/crypto/keys.rs:883-912 | The counter after any import is past an id exactly when an entry put it there, or it was before and no entry wrapped it |
| `ResponderInit.GenerateUnspends` | src/crypto/keys.rs:806-819 | A generation past the end of the counter fills the range from zero: no id is spent after it |
| `ResponderInit.GeneratedAt` | src/crypto/keys.rs:806-819 | Each secret made is filed under its own id, up to one whole round of the range |
| `ResponderInit.GeneratedOthers` | src/crypto/keys.rs:806-819 | No id outside the stretch handed out is touched |
| `ResponderInit.GeneratedCounter` | src/crypto/keys.rs:806-819 | The counter moves by the number made, modulo 2^32 |
| `ResponderInit.ImportedLast` | src/crypto/keys.rs:883-912 | Of several entries of one id the last one's secret is held |
| `ResponderInit.ImportedOthers` | src/crypto/keys.rs:883-912 | An id no entry lists keeps what it had |
| `ResponderInit.CheckedIff` | src/crypto/keys.rs:883-912 | An entry is imported exactly when its public half is the one derived from its private half |
| `ResponderInit.PrunedIff` | src/crypto/keys.rs:924-928 | Pruning keeps exactly the ids at or above the bound, with their secrets |
| `ResponderInit.LatestExportIsSafe` | src/orchestration/orchestrator.rs:2354-2396 | A restart from the latest export gives back the very pool, wraps no counter and brings no spent id back |
| `ResponderInit.FailureBurnsNothing` | src/crypto/client_api.rs:605-744 | A failed init, over any number of candidates, changes no key and files no envelope; it drops only the contact's session |
| `ResponderInit.SuccessBurnsOne` | src/crypto/client_api.rs:605-744 | A success had the one-time prekey it names and removes exactly that one |
| `ResponderInit.SuccessReplacesSession` | src/crypto/client_api.rs:605-744 | Every success answers the session id and plaintext of the earliest candidate that closes and leaves that candidate's session as the one with the contact, every other session as it was |
| `ResponderInit.OpensIff` | src/crypto/client_api.rs:605-744 | An init succeeds exactly when its keys are held and some candidate prekey closes the handshake |
| `ResponderInit.OpensWithEarliest` | src/crypto/client_api.rs:605-744 | What a success answers and files: the session id and plaintext of the earliest candidate that closes with the pool's own one-time secret, its session under the contact, and its envelope keys there exactly when it has some and none is filed for that session |
| `ResponderInit.RefusedAs` | src/crypto/client_api.rs:605-744 | Why an init fails, in order; after every candidate the answer counts them and gives the last one's reason |
| `ResponderInit.CurrentTriedFirst` | src/crypto/keys.rs:935-947 | The current prekey is candidate 0 where there is one, then the old ones and nothing else |
| `ResponderInit.EarliestCandidateWins` | src/crypto/client_api.rs:605-744 | The outcome is that of the first candidate that closes |
| `ResponderInit.FirstSuccessIff` | src/crypto/client_api.rs:605-744 | The candidate loop succeeds exactly when some candidate does |
| `ResponderInit.NewestFirstIff` | src/crypto/keys.rs:935-947 | The old prekeys and nothing else are candidates |
| `ResponderInit.NewerTriedFirst` | src/crypto/keys.rs:941-946 | Of two old prekeys the one rotated out later, by key id, is tried first |
| `ResponderInit.Falling` | src/crypto/keys.rs:942-944 | The same ids, sorted strictly falling |
| `ResponderInit.ImportReopens` | src/crypto/keys.rs:883-912 | Importing a pool that still lists a burned prekey lets its carrier open again |
| `ResponderInit.CounterWrapReissues` | src/crypto/keys.rs:806-867 | Past the counter's end, any id can be handed out again |
| `ResponderInit.CurrentStaysCandidate` | src/crypto/keys.rs:327-387 | A signed prekey current at t is still a candidate after any operations, rotations that overwrite no other prekey and restarts from the latest record included, before t plus the retention |
| `ResponderInit.CurrentStaysCandidateFrom` | src/crypto/keys.rs:327-387 | From ids that stand apart, as a new client's do, the same follows for any run that rotates below the end of the id range: no rotation overwrites a prekey |
| `ResponderInit.RotateRetainsIff` | src/crypto/keys.rs:327-387 | A rotation keeps a prekey retained within the window exactly when it is the outgoing one or is not filed under the outgoing one's id |
| `ResponderInit.RotateIs` | src/crypto/keys.rs:327-387 | The new secret is current under the next id; the old ones after a rotation are exactly the outgoing one, retired under its own id, and the others, less those retired fourteen days ago |
| `ResponderInit.CleanupIff` | src/crypto/keys.rs:381-387 | Cleaning up keeps exactly the prekeys retired less than fourteen days ago, as they were |
| `ResponderInit.FullRangeLoses` | src/crypto/keys.rs:327-369 | At the end of the id range a second rotation loses a prekey retired a moment before |
| `ResponderInit.StepApart` | src/crypto/keys.rs:327-387 | While the id range has room, ids stay apart through every operation, and then every rotation has room |
| `ResponderInit.RestartRetains` | src/crypto/client_api.rs:1032-1111 | A restart from the latest key record keeps every prekey retained within the window |
| `ResponderInit.RestoredIff` | src/crypto/keys.rs:767-798 | A recorded old prekey comes back exactly when it is inside its window, with its own date; one without a date always does, with a window from now |
| `ResponderInit.RestartIs` | src/crypto/client_api.rs:1085-1111 | A record gives back its identity and current prekey, no one-time prekey, and the one-time counter at 1000000 |
| `ResponderInit.LoginComesFirst` | src/crypto/client_api.rs:934-949 | A restarted client has no session and opens none until it is told its user id, which changes nothing else |
| `ResponderInit.AddedCounter` | src/crypto/keys.rs:767-798 | The signed counter ends past every id that came back or at the end of the range, and moved only to the successor of a recorded id |
| `ResponderInit.ToRecordIs` | src/crypto/client_api.rs:1032-1082 | A record is written exactly with an identity and a current prekey; it holds both and every old prekey with its own secret and date, by rising id |
| `ResponderInit.Client.constructor` | src/crypto/client_api.rs:184-199 | A new client has no session and an empty pool, its first signed prekey under id 1, ids apart and counters in their first places |
| `ResponderInit.Client.FromPrivateKeysCfe` | src/crypto/client_api.rs:1085-1111 | Fails exactly when the identity, the current secret or an old one still in its window has no public half; else adding the recorded prekeys one by one gives the specified client, sessions and pool empty |
| `ResponderInit.Client.InitReceivingSession` | src/crypto/client_api.rs:605-744 | The in-place candidate loop answers and leaves the client as the specification does |
| `ResponderInit.Client.GenerateOneTimePrekeys` | src/crypto/keys.rs:806-819 | Ids consecutive from the counter, modulo 2^32; fails exactly when a generation fails, keeping those made before |
| `ResponderInit.Client.ImportOneTimePrekeys` | src/crypto/keys.rs:883-912 | Exactly the entries whose public half derives from the private half are imported, in order |
| `ResponderInit.Client.PruneOneTimePrekeysBelow` | src/crypto/keys.rs:924-928 | Counts exactly the ids below the bound, keeps the rest and the counter |
| `ResponderInit.Client.RotateSignedPrekey` | src/crypto/keys.rs:327-387 | Fails exactly without a signing key, a generated pair or its signature, and then changes nothing; else the outgoing prekey is retired, the new one takes the next id and expired ones go, by two readings of the clock |
| `Padme.NeverShrinks` | src/media.rs:79-87 | A padded length is at least the length |
| `Padme.Monotone` | src/media.rs:79-87 | Longer files have no shorter paddings |
| `Padme.Idempotent` | src/media.rs:79-87 | A padded length is its own padding |
| `Padme.AtMostTwelvePercent` | src/media.rs:79-87 | The padding is at most twelve percent, for every length |
| `Padme.FitsIff` | src/media.rs:79-87 | The 64-bit sum inside does not overflow exactly up to 2^64 - 2^57 |
| `Padme.FewBuckets` | src/media.rs:79-87 | The 2^e lengths of an octave have at most 2^s + 1 paddings, s the bits kept |
| `Padme.PadmeOctave` | src/media.rs:79-87 | Padding never leaves its octave |
| `Padme.RoundUpIsLeast` | src/media.rs:79-87 | The padding is the least multiple of its step not below the length |
| `Padme.PadmeOnWords` | src/media.rs:79-87 | The exponent and kept bits from leading zeros, then the sum with the mask and the bitwise clearing of it, compute the padding without overflow |
| `Bits.AndClears` | src/media.rs:85-86 | In a word, clearing the low k bits leaves the multiple of 2^k below |
| `Media.BlobLenFits` | src/media.rs:90-96 | Every accepted file fits its blob with the overhead, within 4096 and 100000000 bytes, sizes in order |
| `Media.FewBlobSizes` | src/media.rs:79-96 | The files of an octave, overhead counted, have at most 2^s + 1 blob sizes, s one more than the base-2 logarithm of the octave |
| `Media.BlobOverhead` | src/media.rs:79-96 | Above the floor of 4096 bytes a blob is at most twelve percent longer than the file with its overhead |
| `Media.BlobLenIff` | src/media.rs:74-96 | Exactly the files that with 36 bytes of overhead are over 100000000 bytes are refused, with their length |
| `Media.UnpadIff` | src/media.rs:168-186 | A plaintext unpads to a file exactly when it is that file, padded with zeros |
| `Media.OpensIff` | src/media.rs:137-186 | What opens to a file, exactly: the text under the labelled data is length, file and zeros, or nothing authenticates so and the text under no label is the file |
| `Media.RefusedAs` | src/media.rs:137-186 | Which error anything else gives |
| `Media.Unpad` | src/media.rs:168-186 | The in-place truncation computes the specified file or error |
| `Media.SealWith` | src/media.rs:108-134 | The grown buffer is the nonce, then the eight-byte length, file and zeros sealed under the label, then the tag, of exactly the blob length; or the size error |
| `Media.SealThenOpen` | src/media.rs:108-164 | Opening what was sealed gives back every file that fits, trailing zeros included; a larger file is refused |
| `Media.LegacyOpens` | src/media.rs:137-164 | A blob of the older, unpadded format opens to its file unless it authenticates as a padded one |
| `Knst.ParseIff` | src/knst.rs:58-121 | Bytes parse to a frame exactly when they are that frame's bytes |
| `Knst.FrameLayout` | src/knst.rs:103-121 | A frame on the wire, field by field at its offset |
| `Knst.ControlBodyIff` | src/knst.rs:76-81 | A control body is read exactly from an unsplit frame whose payload is long enough, and is its stated length |
| `Knst.WholeIff` | src/knst.rs:125-128 | Exactly the bodies of at most 2^32 - 1 bytes are framed whole |
| `Knst.WholeReadsBack` | src/knst.rs:76-128 | A body framed whole reads back as a control frame with that body |
| `Knst.ChunksParse` | src/knst.rs:132-155 | A body is split exactly when 256 frames of 3770 bytes hold it; each frame parses as its chunk, with distinct indices and the whole length |
| `Knst.ChunkFrames` | src/knst.rs:132-155 | The i-th frame parses to the i-th 3770 bytes of the body, or what is left, with index, total and whole length |
| `Knst.ChunkCountIsLeast` | src/knst.rs:132-155 | No fewer frames would do |
| `Knst.ChunksReassemble` | src/knst.rs:132-155 | However the frames arrive, in any order and with repeats, joining payloads by index gives the body |
| `Calendar.CivilIsDate` | src/bin/konstruct-root.rs:317-334 | The result is a date of the Gregorian calendar whose day number, by a plain leap-year count, is the input |
| `Calendar.CivilInverts` | src/bin/konstruct-root.rs:317-334 | Conversion and day count are inverse over all dates and all days |
| `Calendar.DayNumberInjective` | src/bin/konstruct-root.rs:317-334 | Different dates have different day numbers |
| `Calendar.CivilSteps` | src/bin/konstruct-root.rs:317-334 | Consecutive days are consecutive dates |
| `Calendar.UtcIsCorrect` | src/bin/konstruct-root.rs:317-334 | Every 64-bit second count gives the date of its day and its hour and minute |
| `Calendar.YearOfEraHolds` | src/bin/konstruct-root.rs:317-334 | The chain of divisions picks the one year that holds the day |

## Left out

- DeviceTrust.Judge: with two bundles that hold together under one id, which undecided devices get vouched is stated one way only, that a vouched one is reached; a second bundle can overwrite an anchor, and whom that cuts off depends on the passes.
- DeviceTrust.JudgeReordered: needs distinct ids of bundles that hold together, as it must by `DeviceTrust.OrderFreeIff`, and distinct trusted ids, which is not shown to be necessary where the repeated entries are alike.
- KeyRing.VerifyIsJudgement: needs one key under the kid; `KeyRing.VerifyByFirstKey` is the law for any ring.
- KeyRing.AdmissionOrderIrrelevant: needs the same; `KeyRing.AdmissionOrderIff` is the law for any ring.
- KeyRing.AdmittedGrants: needs no kid shared at all; `KeyRing.AdmittedSlots` is the law for any ring.
- ResponderInit.Client.FromPrivateKeysCfe: the signing and hybrid secrets of the record, and their own failures, are not modelled.
- ResponderInit.CurrentStaysCandidate: takes the retention at its default, which a configuration can change; the persisted sessions, restored on their own after a restart, are not modelled.
- Media.LegacyOpens: that a blob of the older format does not authenticate as a padded one is a property of the AEAD and is assumed.
- Media.OpensIff: takes the AEAD to decrypt in place, giving a text as long as its ciphertext, and the blob to be shorter than 2^64 bytes.
- Media.SealThenOpen: assumes that the AEAD opens what it sealed; the hash returned beside a blob is not modelled.
- Short builders that only append (certificates, frames, delegations) are written as concatenations; update in place is modelled where there is a loop, a cursor or a long-lived object.
- The public halves, signatures and hybrid key of the key record: they are copied and play no part in what is proved.
- `issue`, `check_evidence` and link proofs of device certificates; `issue_delegation`, `sign_as_server` and root words: calls into primitives and word lists.
- The Double Ratchet, X3DH, the orchestrator, Shamir sharing and the history stream: the handshake is a parameter.
- The cryptographic primitives themselves, and randomness.
- Foreign-language bindings, local storage and the MLS group store.
- The CFE envelope, intake, proof of work, device ids, suite ids and freshness of recovery requests: short properties that would only add easy members.
- The `konstruct-root` commands other than the date, and the textual form of the date.
- Targets whose `usize` is 32 bits.
