/**
 The bytes the offline root, the server and an account's recovery key sign. Every message starts
 with a label of its kind and every variable field is length-prefixed, so that no two messages,
 of one kind or of two, are built from different fields to the same bytes.
 */
module SignedMessages {
  import opened ByteStrings

  const HYBRID_PUBLIC_KEY_LEN: nat := 32 + 1952
  const HYBRID_SIGNATURE_LEN: nat := 64 + 3309
  const DELEGATION_VERSION: u8 := 1
  const KID_LEN: nat := 16
  const DELEGATION_LEN: nat := 1 + 1 + 8 + 8 + HYBRID_PUBLIC_KEY_LEN + HYBRID_SIGNATURE_LEN

  type Kid = b: Bytes | |b| == KID_LEN witness seq(16, _ => 0)

  datatype Purpose = SenderCert | KtHead | StickerManifest {
    function AsByte(): u8 {
      match this
      case SenderCert => 1
      case KtHead => 2
      case StickerManifest => 3
    }

    function Label(): Bytes {
      match this
      case SenderCert => Ascii("konstruct/v1/sender-cert")
      case KtHead => Ascii("konstruct/v1/kt-head")
      case StickerManifest => Ascii("konstruct/v1/sticker-manifest")
    }

    /** How long after its key's window closes a signature is still accepted; `None` is for ever. */
    function GraceSecs(): Option<i64> {
      match this
      case SenderCert => Some(86_400 + 7 * 86_400)
      case KtHead => Some(0)
      case StickerManifest => None
    }
  }

  function PurposeOf(b: u8): (p: Option<Purpose>)
    ensures p.Some? <==> 1 <= b <= 3
    ensures p.Some? ==> p.value.AsByte() == b
  {
    if b == 1 then Some(SenderCert) else if b == 2 then Some(KtHead) else if b == 3 then Some(StickerManifest) else None
  }

  function KidOf(sha: Sha, publicKey: Bytes): Kid {
    sha(Ascii("konstruct/v1/kid") + publicKey)[..KID_LEN]
  }

  // ----- delegations -----

  datatype Delegation = Delegation(purpose: Purpose, notBefore: i64, notAfter: i64, publicKey: Bytes, rootSignature: Bytes) {
    predicate Valid() {
      |publicKey| == HYBRID_PUBLIC_KEY_LEN && |rootSignature| == HYBRID_SIGNATURE_LEN && notBefore < notAfter
    }

    function Encode(): Bytes {
      [DELEGATION_VERSION] + [purpose.AsByte()] + I64Be(notBefore) + I64Be(notAfter) + publicKey + rootSignature
    }

    function Signable(): Bytes {
      DelegationSignable(purpose, notBefore, notAfter, publicKey)
    }
  }

  function DecodeDelegation(bytes: Bytes): (r: Option<Delegation>) {
    if |bytes| != DELEGATION_LEN || bytes[0] != DELEGATION_VERSION then None
    else
      match PurposeOf(bytes[1])
      case None => None
      case Some(purpose) =>
        var d := Delegation(purpose, FromI64Be(bytes[2..10]), FromI64Be(bytes[10..18]), bytes[18..2002], bytes[2002..]);
        if d.notBefore >= d.notAfter then None else Some(d)
  }

  /** `decode` accepts exactly the encodings of well-formed delegations, each as the one it encodes. */
  lemma DelegationRoundTrip(bytes: Bytes, d: Delegation)
    ensures DecodeDelegation(bytes) == Some(d) <==> d.Valid() && bytes == d.Encode()
  {
    hide I64Be;
    hide FromI64Be;
    if d.Valid() && bytes == d.Encode() {
      I64RoundTrip(d.notBefore);
      I64RoundTrip(d.notAfter);
      assert bytes[2..10] == I64Be(d.notBefore);
      assert bytes[10..18] == I64Be(d.notAfter);
      assert bytes[18..2002] == d.publicKey;
      assert bytes[2002..] == d.rootSignature;
    }
    if DecodeDelegation(bytes) == Some(d) {
      FromI64RoundTrip(bytes[2..10]);
      FromI64RoundTrip(bytes[10..18]);
      Extend(bytes, 1, 2);
      Extend(bytes, 2, 10);
      Extend(bytes, 10, 18);
      Extend(bytes, 18, 2002);
      Extend(bytes, 2002, |bytes|);
    }
  }

  function DelegationLabel(): Bytes {
    Ascii("konstruct/v1/delegation")
  }

  function DelegationSignable(purpose: Purpose, notBefore: i64, notAfter: i64, publicKey: Bytes): Bytes {
    DelegationLabel() + [DELEGATION_VERSION] + [purpose.AsByte()] + I64Be(notBefore) + I64Be(notAfter) + publicKey
  }

  /** What a server key signs. */
  function ServerSignable(purpose: Purpose, kid: Kid, body: Bytes): Bytes {
    purpose.Label() + kid + body
  }

  // ----- the messages, by kind -----

  /** A message some key of the system signs, by its fields. */
  datatype Message =
    | Delegated(purpose: Purpose, notBefore: i64, notAfter: i64, delegatedKey: Bytes)
    | Certificate(kid: Kid, userId: Bytes, domain: Bytes, identityKey: Bytes, deviceId: Bytes, issuedAt: i64, expiresAt: i64)
    | TreeHead(kid: Kid, treeSize: u64, rootHash: Digest)
    | Manifest(kid: Kid, canonical: Bytes)
    | RecoverySetup(accountId: Bytes, timestamp: i64, recoveryKey: Bytes)
    | RecoveryClaim(recoveryKey: Bytes, timestamp: i64, deviceId: Bytes, verifyingKey: Bytes, identityPublic: Bytes)

  function SetupLabel(): Bytes {
    Ascii("konstruct/v1/recovery-setup")
  }

  function ClaimLabel(): Bytes {
    Ascii("konstruct/v1/recovery-claim")
  }

  function LabelOf(m: Message): Bytes {
    match m
    case Delegated(_, _, _, _) => DelegationLabel()
    case Certificate(_, _, _, _, _, _, _) => SenderCert.Label()
    case TreeHead(_, _, _) => KtHead.Label()
    case Manifest(_, _) => StickerManifest.Label()
    case RecoverySetup(_, _, _) => SetupLabel()
    case RecoveryClaim(_, _, _, _, _) => ClaimLabel()
  }

  /** Length-prefixed: two big-endian bytes of length, then the field. */
  function Lp(field: Bytes): Bytes {
    Be(|field|, 2) + field
  }

  predicate Fits(field: Bytes) {
    |field| <= 0xFFFF
  }

  /** Whether the source builds the message at all, or answers `Malformed`. */
  predicate Buildable(m: Message) {
    match m
    case Delegated(_, _, _, _) => true
    case Certificate(_, u, d, i, v, _, _) => Fits(u) && Fits(d) && Fits(i) && Fits(v)
    case TreeHead(_, _, _) => true
    case Manifest(_, c) => |c| <= 0xFFFF_FFFF
    case RecoverySetup(a, _, k) => Fits(a) && |k| == HYBRID_PUBLIC_KEY_LEN
    case RecoveryClaim(k, _, d, v, i) => Fits(d) && Fits(v) && Fits(i) && |k| == HYBRID_PUBLIC_KEY_LEN
  }

  /** What follows the label. */
  function BodyOf(m: Message): Bytes {
    match m
    case Delegated(p, nb, na, k) => [DELEGATION_VERSION] + ([p.AsByte()] + (I64Be(nb) + (I64Be(na) + k)))
    case Certificate(kid, u, d, i, v, t, e) => kid + (Lp(u) + (Lp(d) + (Lp(i) + (Lp(v) + (I64Be(t) + I64Be(e))))))
    case TreeHead(kid, n, h) => kid + (Be(n, 8) + h)
    case Manifest(kid, c) => kid + (Be(|c|, 4) + c)
    case RecoverySetup(a, t, k) => Lp(a) + (I64Be(t) + k)
    case RecoveryClaim(k, t, d, v, i) => k + (I64Be(t) + (Lp(d) + (Lp(v) + Lp(i))))
  }

  function Build(m: Message): (r: Option<Bytes>) {
    if Buildable(m) then Some(LabelOf(m) + BodyOf(m)) else None
  }

  // ----- the builders -----

  /** `put_lp`: appends a length-prefixed field, or fails on one too long for its prefix. */
  method PutLp(buffer: Bytes, field: Bytes) returns (r: Option<Bytes>)
    ensures r == if Fits(field) then Some(buffer + Lp(field)) else None
  {
    if |field| > 0xFFFF {
      return None;
    }
    var m := buffer + Be(|field|, 2);
    m := m + field;
    assert m == buffer + Lp(field);
    return Some(m);
  }

  method SenderCertBody(userId: Bytes, domain: Bytes, identityKey: Bytes, deviceId: Bytes, issuedAt: i64, expiresAt: i64)
    returns (r: Option<Bytes>)
    ensures forall kid: Kid ::
              var m := Certificate(kid, userId, domain, identityKey, deviceId, issuedAt, expiresAt);
              Build(m) == if r.Some? then Some(ServerSignable(SenderCert, kid, r.value)) else None
  {
    var b := PutLp([], userId);
    if b.Some? { b := PutLp(b.value, domain); }
    if b.Some? { b := PutLp(b.value, identityKey); }
    if b.Some? { b := PutLp(b.value, deviceId); }
    if b.None? {
      return None;
    }
    r := Some(b.value + I64Be(issuedAt) + I64Be(expiresAt));
    assert r.value == Lp(userId) + (Lp(domain) + (Lp(identityKey) + (Lp(deviceId) + (I64Be(issuedAt) + I64Be(expiresAt)))));
    forall kid: Kid ensures
      var m := Certificate(kid, userId, domain, identityKey, deviceId, issuedAt, expiresAt);
      Build(m) == Some(ServerSignable(SenderCert, kid, r.value))
    {
      Associate3(SenderCert.Label(), kid, r.value);
    }
  }

  method SetupSignable(accountId: Bytes, timestamp: i64, publicKey: Bytes) returns (r: Option<Bytes>)
    ensures r == Build(RecoverySetup(accountId, timestamp, publicKey))
  {
    if |publicKey| != HYBRID_PUBLIC_KEY_LEN {
      return None;
    }
    var m := PutLp(SetupLabel(), accountId);
    if m.None? {
      return None;
    }
    r := Some(m.value + I64Be(timestamp) + publicKey);
    assert r.value == SetupLabel() + (Lp(accountId) + (I64Be(timestamp) + publicKey));
  }

  method ClaimSignable(publicKey: Bytes, timestamp: i64, deviceId: Bytes, verifyingKey: Bytes, identityPublic: Bytes)
    returns (r: Option<Bytes>)
    ensures r == Build(RecoveryClaim(publicKey, timestamp, deviceId, verifyingKey, identityPublic))
  {
    if |publicKey| != HYBRID_PUBLIC_KEY_LEN {
      return None;
    }
    var m := Some(ClaimLabel() + publicKey + I64Be(timestamp));
    m := PutLp(m.value, deviceId);
    if m.Some? { m := PutLp(m.value, verifyingKey); }
    if m.Some? { m := PutLp(m.value, identityPublic); }
    if m.Some? {
      assert m.value == ClaimLabel() + (publicKey + (I64Be(timestamp) + (Lp(deviceId) + (Lp(verifyingKey) + Lp(identityPublic)))));
    }
    return m;
  }

  lemma Associate3(a: Bytes, b: Bytes, c: Bytes)
    ensures a + (b + c) == a + b + c
  {
  }

  function KtHeadBody(treeSize: u64, rootHash: Digest): Bytes {
    Be(treeSize, 8) + rootHash
  }

  function StickerManifestBody(canonical: Bytes): Option<Bytes> {
    if |canonical| > 0xFFFF_FFFF then None else Some(Be(|canonical|, 4) + canonical)
  }

  /** The remaining builders produce the same catalogue of messages. */
  lemma BuildersAgree(d: Delegation, kid: Kid, n: u64, h: Digest, c: Bytes)
    ensures Build(Delegated(d.purpose, d.notBefore, d.notAfter, d.publicKey)) == Some(d.Signable())
    ensures Build(TreeHead(kid, n, h)) == Some(ServerSignable(KtHead, kid, KtHeadBody(n, h)))
    ensures Build(Manifest(kid, c))
         == if StickerManifestBody(c).Some? then Some(ServerSignable(StickerManifest, kid, StickerManifestBody(c).value)) else None
  {
    assert d.Signable() == DelegationLabel()
      + ([DELEGATION_VERSION] + ([d.purpose.AsByte()] + (I64Be(d.notBefore) + (I64Be(d.notAfter) + d.publicKey))));
    Associate3(KtHead.Label(), kid, KtHeadBody(n, h));
    Associate3(StickerManifest.Label(), kid, Be(|c|, 4) + c);
  }

  // ----- separation -----

  /** The bytes that tell the labels apart: after the common stem, and at the end of the two recovery labels. */
  lemma LabelMarks(m: Message)
    ensures var l := LabelOf(m);
            && |l| >= 20
            && (l[13], l[14]) == (match m
                                  case Delegated(_, _, _, _) => ('d' as int, 'e' as int)
                                  case Certificate(_, _, _, _, _, _, _) => ('s' as int, 'e' as int)
                                  case TreeHead(_, _, _) => ('k' as int, 't' as int)
                                  case Manifest(_, _) => ('s' as int, 't' as int)
                                  case RecoverySetup(_, _, _) => ('r' as int, 'e' as int)
                                  case RecoveryClaim(_, _, _, _, _) => ('r' as int, 'e' as int))
            && (m.RecoverySetup? || m.RecoveryClaim? ==> |l| == 27 && l[22] == if m.RecoverySetup? then 's' as int else 'c' as int)
  {
  }

  /** Whether two messages are of one kind. */
  predicate SameKind(a: Message, b: Message) {
    && a.Delegated? == b.Delegated? && a.Certificate? == b.Certificate? && a.TreeHead? == b.TreeHead?
    && a.Manifest? == b.Manifest? && a.RecoverySetup? == b.RecoverySetup? && a.RecoveryClaim? == b.RecoveryClaim?
  }

  lemma SameKindSameLabel(a: Message, b: Message)
    requires SameKind(a, b)
    ensures LabelOf(a) == LabelOf(b)
  {
    hide Ascii;
  }

  /** No label is a prefix of another kind's message. */
  lemma LabelsPrefixFree(a: Message, b: Message, x: Bytes, y: Bytes)
    requires LabelOf(a) + x == LabelOf(b) + y
    ensures SameKind(a, b) && x == y
  {
    hide LabelOf;
    var s, t := LabelOf(a) + x, LabelOf(b) + y;
    LabelMarks(a);
    LabelMarks(b);
    assert s[13] == LabelOf(a)[13] && s[14] == LabelOf(a)[14];
    assert t[13] == LabelOf(b)[13] && t[14] == LabelOf(b)[14];
    if LabelOf(a)[13] == 'r' as int {
      assert s[22] == LabelOf(a)[22] && t[22] == LabelOf(b)[22];
    }
    SameKindSameLabel(a, b);
    SplitAt(LabelOf(a), x, LabelOf(b), y);
  }

  /** A length-prefixed field ends where its prefix says. */
  lemma LpSplit(f: Bytes, x: Bytes, g: Bytes, y: Bytes)
    requires Fits(f) && Fits(g) && Lp(f) + x == Lp(g) + y
    ensures f == g && x == y
  {
    Associate3(Be(|f|, 2), f, x);
    Associate3(Be(|g|, 2), g, y);
    SplitAt(Be(|f|, 2), f + x, Be(|g|, 2), g + y);
    Widths();
    BeInjective(|f|, |g|, 2);
    SplitAt(f, x, g, y);
  }

  lemma I64Injective(v: i64, w: i64)
    requires I64Be(v) == I64Be(w)
    ensures v == w
  {
    I64RoundTrip(v);
    I64RoundTrip(w);
  }

  lemma DelegatedInjective(a: Message, b: Message)
    requires a.Delegated? && b.Delegated? && BodyOf(a) == BodyOf(b)
    ensures a == b
  {
    var ta, tb := I64Be(a.notAfter) + a.delegatedKey, I64Be(b.notAfter) + b.delegatedKey;
    var ua, ub := I64Be(a.notBefore) + ta, I64Be(b.notBefore) + tb;
    SplitAt([DELEGATION_VERSION], [a.purpose.AsByte()] + ua, [DELEGATION_VERSION], [b.purpose.AsByte()] + ub);
    SplitAt([a.purpose.AsByte()], ua, [b.purpose.AsByte()], ub);
    SplitAt(I64Be(a.notBefore), ta, I64Be(b.notBefore), tb);
    SplitAt(I64Be(a.notAfter), a.delegatedKey, I64Be(b.notAfter), b.delegatedKey);
    I64Injective(a.notBefore, b.notBefore);
    I64Injective(a.notAfter, b.notAfter);
    assert [a.purpose.AsByte()][0] == [b.purpose.AsByte()][0];
  }

  lemma CertificateInjective(a: Message, b: Message)
    requires a.Certificate? && b.Certificate? && Buildable(a) && Buildable(b) && BodyOf(a) == BodyOf(b)
    ensures a == b
  {
    var wa, wb := I64Be(a.issuedAt) + I64Be(a.expiresAt), I64Be(b.issuedAt) + I64Be(b.expiresAt);
    var va, vb := Lp(a.deviceId) + wa, Lp(b.deviceId) + wb;
    var ua, ub := Lp(a.identityKey) + va, Lp(b.identityKey) + vb;
    var ta, tb := Lp(a.domain) + ua, Lp(b.domain) + ub;
    SplitAt(a.kid, Lp(a.userId) + ta, b.kid, Lp(b.userId) + tb);
    LpSplit(a.userId, ta, b.userId, tb);
    LpSplit(a.domain, ua, b.domain, ub);
    LpSplit(a.identityKey, va, b.identityKey, vb);
    LpSplit(a.deviceId, wa, b.deviceId, wb);
    SplitAt(I64Be(a.issuedAt), I64Be(a.expiresAt), I64Be(b.issuedAt), I64Be(b.expiresAt));
    I64Injective(a.issuedAt, b.issuedAt);
    I64Injective(a.expiresAt, b.expiresAt);
  }

  lemma TreeHeadInjective(a: Message, b: Message)
    requires a.TreeHead? && b.TreeHead? && BodyOf(a) == BodyOf(b)
    ensures a == b
  {
    SplitAt(a.kid, Be(a.treeSize, 8) + a.rootHash, b.kid, Be(b.treeSize, 8) + b.rootHash);
    SplitAt(Be(a.treeSize, 8), a.rootHash, Be(b.treeSize, 8), b.rootHash);
    Widths();
    BeInjective(a.treeSize, b.treeSize, 8);
  }

  lemma ManifestInjective(a: Message, b: Message)
    requires a.Manifest? && b.Manifest? && BodyOf(a) == BodyOf(b)
    ensures a == b
  {
    SplitAt(a.kid, Be(|a.canonical|, 4) + a.canonical, b.kid, Be(|b.canonical|, 4) + b.canonical);
    SplitAt(Be(|a.canonical|, 4), a.canonical, Be(|b.canonical|, 4), b.canonical);
  }

  lemma SetupInjective(a: Message, b: Message)
    requires a.RecoverySetup? && b.RecoverySetup? && Buildable(a) && Buildable(b) && BodyOf(a) == BodyOf(b)
    ensures a == b
  {
    LpSplit(a.accountId, I64Be(a.timestamp) + a.recoveryKey, b.accountId, I64Be(b.timestamp) + b.recoveryKey);
    SplitAt(I64Be(a.timestamp), a.recoveryKey, I64Be(b.timestamp), b.recoveryKey);
    I64Injective(a.timestamp, b.timestamp);
  }

  lemma ClaimInjective(a: Message, b: Message)
    requires a.RecoveryClaim? && b.RecoveryClaim? && Buildable(a) && Buildable(b) && BodyOf(a) == BodyOf(b)
    ensures a == b
  {
    var va, vb := Lp(a.identityPublic), Lp(b.identityPublic);
    var ua, ub := Lp(a.verifyingKey) + va, Lp(b.verifyingKey) + vb;
    var ta, tb := Lp(a.deviceId) + ua, Lp(b.deviceId) + ub;
    SplitAt(a.recoveryKey, I64Be(a.timestamp) + ta, b.recoveryKey, I64Be(b.timestamp) + tb);
    SplitAt(I64Be(a.timestamp), ta, I64Be(b.timestamp), tb);
    I64Injective(a.timestamp, b.timestamp);
    LpSplit(a.deviceId, ua, b.deviceId, ub);
    LpSplit(a.verifyingKey, va, b.verifyingKey, vb);
    assert va == va + [] && vb == vb + [];
    LpSplit(a.identityPublic, [], b.identityPublic, []);
  }

  /** Separation: two messages of the system built to the same bytes are one message, kind and fields. */
  lemma MessagesSeparate(a: Message, b: Message)
    requires Build(a).Some? && Build(a) == Build(b)
    ensures a == b
  {
    hide LabelOf;
    hide BodyOf;
    hide Buildable;
    LabelsPrefixFree(a, b, BodyOf(a), BodyOf(b));
    match a {
      case Delegated(_, _, _, _) => DelegatedInjective(a, b);
      case Certificate(_, _, _, _, _, _, _) => CertificateInjective(a, b);
      case TreeHead(_, _, _) => TreeHeadInjective(a, b);
      case Manifest(_, _) => ManifestInjective(a, b);
      case RecoverySetup(_, _, _) => SetupInjective(a, b);
      case RecoveryClaim(_, _, _, _, _) => ClaimInjective(a, b);
    }
  }

  // ----- the formats, byte for byte -----

  function PurposeByte(p: Purpose): u8 {
    if p == SenderCert then 1 else if p == KtHead then 2 else 3
  }

  /** A delegation as it travels: version, purpose, window, key, and the root's signature, at fixed places. */
  lemma DelegationLayout(d: Delegation)
    requires |d.publicKey| == 1984 && |d.rootSignature| == 3373
    ensures var b := d.Encode();
            && |b| == 5375 && Slice(b, 0, 2) == [1, PurposeByte(d.purpose)]
            && Slice(b, 2, 10) == I64Be(d.notBefore) && Slice(b, 10, 18) == I64Be(d.notAfter)
            && Slice(b, 18, 2002) == d.publicKey && Slice(b, 2002, 5375) == d.rootSignature
  {
    hide I64Be;
    var b := d.Encode();
    assert b[2..10] == I64Be(d.notBefore);
    assert b[10..18] == I64Be(d.notAfter);
    assert b[18..2002] == d.publicKey;
    assert b[2002..5375] == d.rootSignature;
  }

  /** Which delegations are well formed: the lengths of the two hybrid parts, and a window that opens before it closes. */
  lemma DelegationValidIff(d: Delegation)
    ensures d.Valid() <==> |d.publicKey| == 1984 && |d.rootSignature| == 3373 && d.notBefore < d.notAfter
  {
  }

  /** What a root signs: the label, then what it delegates. */
  lemma SignableLayout(d: Delegation)
    ensures var b := d.Signable();
            && |b| == 41 + |d.publicKey| && Slice(b, 0, 23) == Ascii("konstruct/v1/delegation")
            && Slice(b, 23, 25) == [1, PurposeByte(d.purpose)]
            && Slice(b, 25, 33) == I64Be(d.notBefore) && Slice(b, 33, 41) == I64Be(d.notAfter) && Slice(b, 41, |b|) == d.publicKey
  {
    hide I64Be;
    var b := d.Signable();
    assert b[0..23] == Ascii("konstruct/v1/delegation");
    assert b[25..33] == I64Be(d.notBefore);
    assert b[33..41] == I64Be(d.notAfter);
    assert b[41..|b|] == d.publicKey;
  }

  /** What a server key signs: the label of its purpose, its own kid, and the body. */
  lemma ServerSignableLayout(kid: Kid, body: Bytes)
    ensures ServerSignable(SenderCert, kid, body) == Ascii("konstruct/v1/sender-cert") + kid + body
    ensures ServerSignable(KtHead, kid, body) == Ascii("konstruct/v1/kt-head") + kid + body
    ensures ServerSignable(StickerManifest, kid, body) == Ascii("konstruct/v1/sticker-manifest") + kid + body
  {
  }

  /** A length-prefixed field where it stands: two bytes of length, then the field. */
  predicate FieldAt(b: Bytes, at: nat, f: Bytes) {
    Slice(b, at, at + 2) == Be(|f|, 2) && Slice(b, at + 2, at + 2 + |f|) == f
  }

  lemma LpAt(b: Bytes, at: nat, f: Bytes, rest: Bytes)
    requires EndsWith(b, at, Lp(f) + rest)
    ensures FieldAt(b, at, f) && EndsWith(b, at + 2 + |f|, rest)
  {
    hide Be;
    hide Slice;
    hide EndsWith;
    assert Lp(f) + rest == Be(|f|, 2) + (f + rest);
    PieceAt(b, at, Be(|f|, 2), f + rest);
    PieceAt(b, at + 2, f, rest);
  }

  lemma Starts(b: Bytes, mark: Bytes, rest: Bytes)
    requires b == mark + rest
    ensures Slice(b, 0, |mark|) == mark && EndsWith(b, |mark|, rest)
  {
    Whole(b, mark + rest);
    PieceAt(b, 0, mark, rest);
  }

  lemma Parts(mark: Bytes, kid: Bytes, x: Bytes, rest: Bytes)
    ensures var b, k := mark + (kid + (x + rest)), |mark| + |kid|;
            && |b| == k + |x| + |rest| && Slice(b, 0, |mark|) == mark && Slice(b, |mark|, k) == kid
            && Slice(b, k, k + |x|) == x && Slice(b, k + |x|, |b|) == rest
  {
    hide Slice;
    hide EndsWith;
    var b := mark + (kid + (x + rest));
    Starts(b, mark, kid + (x + rest));
    PieceAt(b, |mark|, kid, x + rest);
    PieceAt(b, |mark| + |kid|, x, rest);
    LastPiece(b, |mark| + |kid| + |x|, rest);
  }

  lemma DatesAt(b: Bytes, at: nat, s: i64, rest: Bytes)
    requires EndsWith(b, at, I64Be(s) + rest)
    ensures Slice(b, at, at + 8) == I64Be(s) && EndsWith(b, at + 8, rest)
  {
    PieceAt(b, at, I64Be(s), rest);
  }

  /** The sender certificate: kid, four prefixed fields and two dates, in this order. */
  lemma CertificateBytes(m: Message)
    requires m.Certificate? && Build(m).Some?
    ensures var b := Build(m).value;
            var u := 42 + |m.userId|;
            var d := u + 2 + |m.domain|;
            var k := d + 2 + |m.identityKey|;
            var v := k + 2 + |m.deviceId|;
            && Slice(b, 0, 24) == Ascii("konstruct/v1/sender-cert") && Slice(b, 24, 40) == m.kid
            && FieldAt(b, 40, m.userId) && FieldAt(b, u, m.domain) && FieldAt(b, d, m.identityKey) && FieldAt(b, k, m.deviceId)
            && Slice(b, v, v + 8) == I64Be(m.issuedAt) && Slice(b, v + 8, |b|) == I64Be(m.expiresAt) && |b| == v + 16
  {
    hide I64Be;
    hide Lp;
    hide Slice;
    hide EndsWith;
    hide FieldAt;
    var b := Build(m).value;
    var dates := I64Be(m.issuedAt) + I64Be(m.expiresAt);
    var r3 := Lp(m.deviceId) + dates;
    var r2 := Lp(m.identityKey) + r3;
    var r1 := Lp(m.domain) + r2;
    var r0 := Lp(m.userId) + r1;
    Starts(b, Ascii("konstruct/v1/sender-cert"), m.kid + r0);
    PieceAt(b, 24, m.kid, r0);
    LpAt(b, 40, m.userId, r1);
    var u := 42 + |m.userId|;
    LpAt(b, u, m.domain, r2);
    var d := u + 2 + |m.domain|;
    LpAt(b, d, m.identityKey, r3);
    var k := d + 2 + |m.identityKey|;
    LpAt(b, k, m.deviceId, dates);
    var v := k + 2 + |m.deviceId|;
    DatesAt(b, v, m.issuedAt, I64Be(m.expiresAt));
    LastPiece(b, v + 8, I64Be(m.expiresAt));
  }

  /** The tree head: kid, an eight-byte size and the root. */
  lemma TreeHeadBytes(kid: Kid, n: u64, h: Digest)
    ensures Build(TreeHead(kid, n, h)).Some?
    ensures var b := Build(TreeHead(kid, n, h)).value;
            && |b| == 76 && Slice(b, 0, 20) == Ascii("konstruct/v1/kt-head") && Slice(b, 20, 36) == kid
            && Slice(b, 36, 44) == Be(n, 8) && Slice(b, 44, 76) == h
  {
    hide Be;
    hide Ascii;
    hide Slice;
    Parts(Ascii("konstruct/v1/kt-head"), kid, Be(n, 8), h);
  }

  /** The manifest: kid, a four-byte length and the text. */
  lemma ManifestBytes(kid: Kid, c: Bytes)
    ensures Build(Manifest(kid, c)).Some? <==> |c| <= 0xFFFF_FFFF
    ensures Build(Manifest(kid, c)).Some? ==>
              var b := Build(Manifest(kid, c)).value;
              && |b| == 49 + |c| && Slice(b, 0, 29) == Ascii("konstruct/v1/sticker-manifest") && Slice(b, 29, 45) == kid
              && Slice(b, 45, 49) == Be(|c|, 4) && Slice(b, 49, |b|) == c
  {
    hide Be;
    hide Ascii;
    hide Slice;
    Parts(Ascii("konstruct/v1/sticker-manifest"), kid, Be(|c|, 4), c);
  }

  /** The recovery setup: the account, the time, and the recovery key. */
  lemma SetupBytes(m: Message)
    requires m.RecoverySetup?
    ensures Build(m).Some? <==> |m.accountId| <= 0xFFFF && |m.recoveryKey| == 1984
    ensures Build(m).Some? ==>
              var b := Build(m).value;
              var a := 29 + |m.accountId|;
              && |b| == a + 8 + 1984 && Slice(b, 0, 27) == Ascii("konstruct/v1/recovery-setup") && FieldAt(b, 27, m.accountId)
              && Slice(b, a, a + 8) == I64Be(m.timestamp) && Slice(b, a + 8, |b|) == m.recoveryKey
  {
    hide I64Be;
    hide Lp;
    hide Slice;
    hide EndsWith;
    hide FieldAt;
    if Build(m).Some? {
      var b := Build(m).value;
      var r0 := I64Be(m.timestamp) + m.recoveryKey;
      Starts(b, Ascii("konstruct/v1/recovery-setup"), Lp(m.accountId) + r0);
      LpAt(b, 27, m.accountId, r0);
      DatesAt(b, 29 + |m.accountId|, m.timestamp, m.recoveryKey);
      LastPiece(b, 37 + |m.accountId|, m.recoveryKey);
    }
  }

  /** The recovery claim: the recovery key, the time, and the new device's three fields. */
  lemma ClaimBytes(m: Message)
    requires m.RecoveryClaim? && Build(m).Some?
    ensures var b := Build(m).value;
            var d := 2021 + |m.deviceId|;
            var v := d + 2 + |m.verifyingKey|;
            && |b| == v + 2 + |m.identityPublic| && Slice(b, 0, 27) == Ascii("konstruct/v1/recovery-claim")
            && Slice(b, 27, 2011) == m.recoveryKey && Slice(b, 2011, 2019) == I64Be(m.timestamp)
            && FieldAt(b, 2019, m.deviceId) && FieldAt(b, d, m.verifyingKey) && FieldAt(b, v, m.identityPublic)
  {
    hide I64Be;
    hide Lp;
    hide Slice;
    hide EndsWith;
    hide FieldAt;
    var b := Build(m).value;
    var r2 := Lp(m.identityPublic);
    var r1 := Lp(m.verifyingKey) + r2;
    var r0 := Lp(m.deviceId) + r1;
    Starts(b, Ascii("konstruct/v1/recovery-claim"), m.recoveryKey + (I64Be(m.timestamp) + r0));
    PieceAt(b, 27, m.recoveryKey, I64Be(m.timestamp) + r0);
    DatesAt(b, 2011, m.timestamp, r0);
    LpAt(b, 2019, m.deviceId, r1);
    var d := 2021 + |m.deviceId|;
    LpAt(b, d, m.verifyingKey, r2);
    var v := d + 2 + |m.verifyingKey|;
    assert r2 == Lp(m.identityPublic) + [];
    LpAt(b, v, m.identityPublic, []);
    LastPiece(b, v + 2 + |m.identityPublic|, []);
  }

  /** Which certificates and claims are built: those whose fields fit their prefixes and whose keys have their length. */
  lemma BuildableIff(c: Message, r: Message)
    requires c.Certificate? && r.RecoveryClaim?
    ensures Build(c).Some? <==> |c.userId| <= 0xFFFF && |c.domain| <= 0xFFFF && |c.identityKey| <= 0xFFFF && |c.deviceId| <= 0xFFFF
    ensures Build(r).Some? <==> && |r.deviceId| <= 0xFFFF && |r.verifyingKey| <= 0xFFFF && |r.identityPublic| <= 0xFFFF
                                && |r.recoveryKey| == 1984
  {
  }
}
