/**
 Devices of one account vouch for each other. `Judge` spreads trust from the devices a client
 already trusts through device certificates, and is proved to compute a declarative reachability
 relation over the *sets* of trusted and offered devices where no two bundles that hold together
 share an id. There the order the server lists them in cannot matter, and only there.
 */
module DeviceTrust {
  import opened ByteStrings

  const DEVICE_CERT_VERSION: u8 := 1
  const DEVICE_ID_LEN: nat := 16
  const X25519_LEN: nat := 32
  const ED25519_LEN: nat := 32
  const HYBRID_PUBLIC_LEN: nat := 1984
  const HYBRID_SIGNATURE_LEN: nat := 3373
  const CERT_LEN: nat := 1 + DEVICE_ID_LEN + 8 + HYBRID_PUBLIC_LEN + HYBRID_SIGNATURE_LEN

  /** The foreign primitives: SHA-256, Ed25519 verification and hybrid verification (key, message, signature). */
  datatype Suite = Suite(sha: Sha, ed25519: (Bytes, Bytes, Bytes) -> bool, hybrid: (Bytes, Bytes, Bytes) -> bool)

  datatype DeviceKeys = DeviceKeys(identityPublic: Bytes, verifyingKey: Bytes, hybridPublic: Bytes, hybridBinding: Bytes)

  datatype CertError = KeysMalformed | BindingInvalid

  datatype DeviceVerdict = Pinned | FirstOfAccount | Vouched(signer: string) | Unvouched | KeyChanged | Invalid

  datatype TrustedDevice = TrustedDevice(deviceId: string, hybridPin: Option<Digest>)

  datatype OfferedDevice = OfferedDevice(deviceId: string, keys: DeviceKeys, certificate: Option<Bytes>)

  datatype DeviceCertificate = DeviceCertificate(
    signerDeviceId: Bytes, issuedAt: u64, signerHybridPublic: Bytes, signature: Bytes)
  {
    predicate Valid() {
      |signerDeviceId| == DEVICE_ID_LEN && |signerHybridPublic| == HYBRID_PUBLIC_LEN
      && |signature| == HYBRID_SIGNATURE_LEN
    }

    function Encode(): Bytes {
      [DEVICE_CERT_VERSION] + signerDeviceId + Be(issuedAt, 8) + signerHybridPublic + signature
    }
  }

  /** Decodes version 1 at its one length, and nothing else. */
  function DecodeCertificate(bytes: Bytes): (r: Option<DeviceCertificate>) {
    if |bytes| != CERT_LEN || bytes[0] != DEVICE_CERT_VERSION then None
    else
      FromBeRoundTrip(bytes[17..25]);
      Widths();
      Some(DeviceCertificate(bytes[1..17], FromBe(bytes[17..25]), bytes[25..2009], bytes[2009..]))
  }

  /** Decoding is exactly the inverse of encoding on well-formed certificates. */
  lemma CertificateRoundTrip(bytes: Bytes, c: DeviceCertificate)
    ensures DecodeCertificate(bytes) == Some(c) <==> c.Valid() && bytes == c.Encode()
  {
    hide Be;
    hide FromBe;
    Widths();
    if c.Valid() && bytes == c.Encode() {
      BeRoundTrip(c.issuedAt, 8);
      assert bytes[1..17] == c.signerDeviceId;
      assert bytes[17..25] == Be(c.issuedAt, 8);
      assert bytes[25..2009] == c.signerHybridPublic;
      assert bytes[2009..] == c.signature;
    }
    if DecodeCertificate(bytes) == Some(c) {
      FromBeRoundTrip(bytes[17..25]);
      Extend(bytes, 1, 17);
      Extend(bytes, 17, 25);
      Extend(bytes, 25, 2009);
      Extend(bytes, 2009, |bytes|);
    }
  }

  /** A certificate as it travels, byte for byte. */
  lemma CertificateLayout(c: DeviceCertificate)
    requires |c.signerDeviceId| == 16 && |c.signerHybridPublic| == 1984 && |c.signature| == 3373
    ensures var b := c.Encode();
            && |b| == 5382 && Slice(b, 0, 1) == [1] && Slice(b, 1, 17) == c.signerDeviceId && Slice(b, 17, 25) == Be(c.issuedAt, 8)
            && Slice(b, 25, 2009) == c.signerHybridPublic && Slice(b, 2009, 5382) == c.signature
  {
    hide Be;
    var b := c.Encode();
    assert b[1..17] == c.signerDeviceId;
    assert b[17..25] == Be(c.issuedAt, 8);
    assert b[25..2009] == c.signerHybridPublic;
    assert b[2009..5382] == c.signature;
  }

  lemma CertificateValidIff(c: DeviceCertificate)
    ensures c.Valid() <==> |c.signerDeviceId| == 16 && |c.signerHybridPublic| == 1984 && |c.signature| == 3373
  {
  }

  const CERT_PROLOGUE: string := "KonstruktDeviceCert-v1"
  const HYBRID_BIND_PROLOGUE: string := "KonstruktHybridId-v1"

  /** The bytes a certificate signs. */
  function CertificateMessage(signer: Bytes, subject: Bytes, keys: DeviceKeys, issuedAt: u64): Bytes {
    Ascii(CERT_PROLOGUE) + [0] + signer + subject + keys.identityPublic + keys.verifyingKey + keys.hybridPublic
    + Be(issuedAt, 8)
  }

  /** What a signer signs, byte for byte: who signs, for whom, that device's three keys, and when. */
  lemma CertificateMessageLayout(signer: Bytes, subject: Bytes, keys: DeviceKeys, issuedAt: u64)
    requires |signer| == 16 && |subject| == 16
    requires |keys.identityPublic| == 32 && |keys.verifyingKey| == 32 && |keys.hybridPublic| == 1984
    ensures var b := CertificateMessage(signer, subject, keys, issuedAt);
            && |b| == 2111 && Slice(b, 0, 22) == Ascii("KonstruktDeviceCert-v1") && Slice(b, 22, 23) == [0]
            && Slice(b, 23, 39) == signer && Slice(b, 39, 55) == subject
            && Slice(b, 55, 87) == keys.identityPublic && Slice(b, 87, 119) == keys.verifyingKey
            && Slice(b, 119, 2103) == keys.hybridPublic && Slice(b, 2103, 2111) == Be(issuedAt, 8)
  {
    hide Be;
    var b := CertificateMessage(signer, subject, keys, issuedAt);
    assert b[0..22] == Ascii("KonstruktDeviceCert-v1");
    assert b[23..39] == signer;
    assert b[39..55] == subject;
    assert b[55..87] == keys.identityPublic;
    assert b[87..119] == keys.verifyingKey;
    assert b[119..2103] == keys.hybridPublic;
    assert b[2103..2111] == Be(issuedAt, 8);
  }

  predicate KeyLengths(keys: DeviceKeys) {
    |keys.identityPublic| == X25519_LEN && |keys.verifyingKey| == ED25519_LEN && |keys.hybridPublic| == HYBRID_PUBLIC_LEN
  }

  /** A signed message names one signer, one subject with one set of keys, and one time. */
  lemma CertificateMessageInjective(s: Bytes, d: Bytes, k: DeviceKeys, t: u64, s': Bytes, d': Bytes, k': DeviceKeys, t': u64)
    requires |s| == |s'| == |d| == |d'| == DEVICE_ID_LEN && KeyLengths(k) && KeyLengths(k')
    requires CertificateMessage(s, d, k, t) == CertificateMessage(s', d', k', t')
    ensures s == s' && d == d' && t == t'
    ensures k.identityPublic == k'.identityPublic && k.verifyingKey == k'.verifyingKey && k.hybridPublic == k'.hybridPublic
  {
    var p := Ascii(CERT_PROLOGUE) + [0];
    var q1, q1' := p + s, p + s';
    var q2, q2' := q1 + d, q1' + d';
    var q3, q3' := q2 + k.identityPublic, q2' + k'.identityPublic;
    var q4, q4' := q3 + k.verifyingKey, q3' + k'.verifyingKey;
    SplitAt(q4 + k.hybridPublic, Be(t, 8), q4' + k'.hybridPublic, Be(t', 8));
    SplitAt(q4, k.hybridPublic, q4', k'.hybridPublic);
    SplitAt(q3, k.verifyingKey, q3', k'.verifyingKey);
    SplitAt(q2, k.identityPublic, q2', k'.identityPublic);
    SplitAt(q1, d, q1', d');
    SplitAt(p, s, p, s');
    Widths();
    BeInjective(t, t', 8);
  }

  // ----- one device -----

  function DeriveDeviceId(suite: Suite, identityPublic: Bytes): (id: Bytes)
    ensures |id| == DEVICE_ID_LEN
  {
    suite.sha(identityPublic)[..DEVICE_ID_LEN]
  }

  /** Whether a bundle's keys hold together, and the device id they make. */
  function CheckKeys(suite: Suite, keys: DeviceKeys): Result<Bytes, CertError> {
    if !KeyLengths(keys) then Err(KeysMalformed)
    else if !suite.ed25519(keys.verifyingKey, Ascii(HYBRID_BIND_PROLOGUE) + keys.hybridPublic, keys.hybridBinding) then
      Err(BindingInvalid)
    else Ok(DeriveDeviceId(suite, keys.identityPublic))
  }

  predicate HoldsTogether(suite: Suite, d: OfferedDevice) {
    var r := CheckKeys(suite, d.keys);
    r.Ok? && HexEncode(r.value) == d.deviceId
  }

  /** A bundle holds together exactly when its keys have their lengths, its hybrid key is bound and its id is derived. */
  lemma HoldsTogetherIff(suite: Suite, d: OfferedDevice)
    ensures HoldsTogether(suite, d)
       <==> && |d.keys.identityPublic| == 32 && |d.keys.verifyingKey| == 32 && |d.keys.hybridPublic| == 1984
            && suite.ed25519(d.keys.verifyingKey, Ascii("KonstruktHybridId-v1") + d.keys.hybridPublic, d.keys.hybridBinding)
            && d.deviceId == HexEncode(suite.sha(d.keys.identityPublic)[..16])
  {
  }

  function Pin(suite: Suite, d: OfferedDevice): Digest {
    suite.sha(d.keys.hybridPublic)
  }

  /** The signer id and pin a device's certificate speaks for, if the certificate itself checks out. */
  function Claim(suite: Suite, d: OfferedDevice): (r: Option<(string, Digest)>) {
    if d.certificate.None? then None
    else
      match DecodeCertificate(d.certificate.value)
      case None => None
      case Some(cert) =>
        var signer := HexEncode(cert.signerDeviceId);
        if signer == d.deviceId then None
        else
          match HexDecode(d.deviceId)
          case None => None
          case Some(subject) =>
            if |subject| == DEVICE_ID_LEN
               && suite.hybrid(cert.signerHybridPublic,
                               CertificateMessage(cert.signerDeviceId, subject, d.keys, cert.issuedAt), cert.signature)
            then Some((signer, suite.sha(cert.signerHybridPublic)))
            else None
  }

  /** `vouching_signer`, in the source's order of checks. */
  function VouchingSigner(suite: Suite, d: OfferedDevice, anchors: map<string, Digest>): (r: Option<string>)
    ensures r.Some? <==> Claim(suite, d).Some? && Claim(suite, d).value in Items(anchors)
    ensures r.Some? ==> r.value == Claim(suite, d).value.0
  {
    if d.certificate.None? then None
    else
      match DecodeCertificate(d.certificate.value)
      case None => None
      case Some(cert) =>
        var signer := HexEncode(cert.signerDeviceId);
        if signer == d.deviceId then None
        else if signer !in anchors then None
        else if suite.sha(cert.signerHybridPublic) != anchors[signer] then None
        else
          match HexDecode(d.deviceId)
          case None => None
          case Some(subject) =>
            if |subject| != DEVICE_ID_LEN then None
            else if !suite.hybrid(cert.signerHybridPublic,
                                  CertificateMessage(cert.signerDeviceId, subject, d.keys, cert.issuedAt), cert.signature)
            then None
            else Some(signer)
  }

  /** `c` is another device's certificate on `d`, and the hybrid key in it signed the id and keys of `d`. */
  predicate Certifies(suite: Suite, d: OfferedDevice, c: DeviceCertificate, subject: Bytes) {
    && |c.signerDeviceId| == 16 && |c.signerHybridPublic| == 1984 && |c.signature| == 3373
    && d.certificate == Some(c.Encode()) && HexEncode(c.signerDeviceId) != d.deviceId
    && HexDecode(d.deviceId) == Some(subject) && |subject| == 16
    && suite.hybrid(c.signerHybridPublic, CertificateMessage(c.signerDeviceId, subject, d.keys, c.issuedAt), c.signature)
  }

  lemma ClaimFrom(suite: Suite, d: OfferedDevice, c: DeviceCertificate, subject: Bytes)
    requires Certifies(suite, d, c, subject)
    ensures Claim(suite, d) == Some((HexEncode(c.signerDeviceId), suite.sha(c.signerHybridPublic)))
  {
    hide CertificateMessage;
    hide HexEncode;
    hide HexDecode;
    hide DecodeCertificate;
    CertificateRoundTrip(d.certificate.value, c);
  }

  lemma ClaimGives(suite: Suite, d: OfferedDevice) returns (c: DeviceCertificate, subject: Bytes)
    requires Claim(suite, d).Some?
    ensures Certifies(suite, d, c, subject)
    ensures Claim(suite, d).value == (HexEncode(c.signerDeviceId), suite.sha(c.signerHybridPublic))
  {
    hide CertificateMessage;
    hide HexEncode;
    hide HexDecode;
    hide DecodeCertificate;
    c, subject := DecodeCertificate(d.certificate.value).value, HexDecode(d.deviceId).value;
    CertificateRoundTrip(d.certificate.value, c);
  }

  /** A claim, exactly: the signer's id and the hash of its hybrid key, from a certificate that certifies the device. */
  lemma ClaimIff(suite: Suite, d: OfferedDevice, signer: string, pin: Digest)
    ensures Claim(suite, d) == Some((signer, pin))
       <==> exists c: DeviceCertificate, subject: Bytes ::
              Certifies(suite, d, c, subject) && signer == HexEncode(c.signerDeviceId) && pin == suite.sha(c.signerHybridPublic)
  {
    hide Claim;
    hide Certifies;
    hide HexEncode;
    if Claim(suite, d) == Some((signer, pin)) {
      var c, subject := ClaimGives(suite, d);
    }
    forall c: DeviceCertificate, subject: Bytes | Certifies(suite, d, c, subject)
      ensures Claim(suite, d) == Some((HexEncode(c.signerDeviceId), suite.sha(c.signerHybridPublic)))
    {
      ClaimFrom(suite, d, c, subject);
    }
  }

  /** In a bundle that holds together the id decodes to what the identity key derives. */
  lemma ClaimIsSigned(suite: Suite, d: OfferedDevice)
    requires HoldsTogether(suite, d) && Claim(suite, d).Some?
    ensures exists c: DeviceCertificate ::
              && c.Valid() && d.certificate == Some(c.Encode())
              && Claim(suite, d).value == (HexEncode(c.signerDeviceId), suite.sha(c.signerHybridPublic))
              && suite.hybrid(c.signerHybridPublic,
                              CertificateMessage(c.signerDeviceId, DeriveDeviceId(suite, d.keys.identityPublic), d.keys, c.issuedAt),
                              c.signature)
  {
    var c := DecodeCertificate(d.certificate.value).value;
    CertificateRoundTrip(d.certificate.value, c);
    HexRoundTrip(DeriveDeviceId(suite, d.keys.identityPublic));
  }

  // ----- the declarative meaning -----

  type Anchor = (string, Digest)

  function Mark(suite: Suite, d: OfferedDevice): Anchor {
    (d.deviceId, Pin(suite, d))
  }

  /** A chain of certificates from a base anchor: each device's certificate speaks for the one before it. */
  ghost predicate Chain(suite: Suite, base: iset<Anchor>, open: set<OfferedDevice>, c: seq<OfferedDevice>) {
    && |c| > 0
    && (forall i :: 0 <= i < |c| ==> c[i] in open && Claim(suite, c[i]).Some?)
    && Claim(suite, c[0]).value in base
    && (forall i :: 0 < i < |c| ==> Claim(suite, c[i]).value == Mark(suite, c[i - 1]))
  }

  ghost predicate Reached(suite: Suite, base: iset<Anchor>, open: set<OfferedDevice>, d: OfferedDevice)
    ensures Reached(suite, base, open, d) ==> d in open && Claim(suite, d).Some?
  {
    exists c :: Chain(suite, base, open, c) && c[|c| - 1] == d
  }

  ghost predicate Known(trusted: set<TrustedDevice>, id: string) {
    exists t :: t in trusted && t.deviceId == id
  }

  /** Whether an offered bundle shows the id of `t`. */
  ghost predicate Shown(suite: Suite, offered: set<OfferedDevice>, t: TrustedDevice, d: OfferedDevice) {
    d in offered && HoldsTogether(suite, d) && d.deviceId == t.deviceId
  }

  predicate PinAgrees(suite: Suite, t: TrustedDevice, d: OfferedDevice) {
    t.hybridPin.None? || t.hybridPin.value == Pin(suite, d)
  }

  /** What a trusted device anchors: the key it shows, if its pin agrees; its pin, if it shows none. */
  ghost predicate Anchors(suite: Suite, offered: set<OfferedDevice>, t: TrustedDevice, a: Anchor) {
    && t.deviceId == a.0
    && if exists d :: Shown(suite, offered, t, d)
       then exists d :: Shown(suite, offered, t, d) && PinAgrees(suite, t, d) && a.1 == Pin(suite, d)
       else t.hybridPin == Some(a.1)
  }

  ghost predicate IsBase(suite: Suite, trusted: set<TrustedDevice>, offered: set<OfferedDevice>, a: Anchor) {
    exists t :: t in trusted && Anchors(suite, offered, t, a)
  }

  ghost function Base(suite: Suite, trusted: set<TrustedDevice>, offered: set<OfferedDevice>): iset<Anchor> {
    iset a: Anchor | IsBase(suite, trusted, offered, a)
  }

  ghost function Open(suite: Suite, trusted: set<TrustedDevice>, offered: set<OfferedDevice>): set<OfferedDevice> {
    set d | d in offered && HoldsTogether(suite, d) && !Known(trusted, d.deviceId)
  }

  /** What the validity check and the trusted devices say of `d` before any certificate is read. */
  ghost function Settled(suite: Suite, trusted: set<TrustedDevice>, d: OfferedDevice): Option<DeviceVerdict> {
    if !HoldsTogether(suite, d) then Some(Invalid)
    else if Known(trusted, d.deviceId) then
      Some(if exists t :: t in trusted && t.deviceId == d.deviceId && !PinAgrees(suite, t, d) then KeyChanged else Pinned)
    else None
  }

  /** The verdict on one device, as a function of the two sets alone. */
  ghost function Verdict(suite: Suite, trusted: set<TrustedDevice>, offered: set<OfferedDevice>, d: OfferedDevice): DeviceVerdict {
    if Settled(suite, trusted, d).Some? then Settled(suite, trusted, d).value
    else if trusted == {} then FirstOfAccount
    else if Reached(suite, Base(suite, trusted, offered), Open(suite, trusted, offered), d) then Vouched(Claim(suite, d).value.0)
    else Unvouched
  }

  /** No id is shown by two bundles that hold together; what the rest claim does not matter. */
  predicate DistinctOffered(suite: Suite, s: seq<OfferedDevice>) {
    forall i, j :: 0 <= i < j < |s| && HoldsTogether(suite, s[i]) && HoldsTogether(suite, s[j]) ==> s[i].deviceId != s[j].deviceId
  }

  predicate DistinctTrusted(s: seq<TrustedDevice>) {
    forall i, j :: 0 <= i < j < |s| ==> s[i].deviceId != s[j].deviceId
  }

  ghost function Elements<T>(s: seq<T>): set<T> {
    set x | x in s
  }

  // ----- chains -----

  /** A device whose certificate speaks for a base anchor or a reached device is reached. */
  lemma ReachStep(suite: Suite, base: iset<Anchor>, open: set<OfferedDevice>, d: OfferedDevice)
    requires d in open && Claim(suite, d).Some?
    requires var a := Claim(suite, d).value;
             a in base || exists e :: Reached(suite, base, open, e) && Mark(suite, e) == a
    ensures Reached(suite, base, open, d)
  {
    hide Claim;
    hide VouchingSigner;
    hide Pin;
    var a := Claim(suite, d).value;
    if a in base {
      assert Chain(suite, base, open, [d]);
    } else {
      var e :| Reached(suite, base, open, e) && Mark(suite, e) == a;
      var c: seq<OfferedDevice> :| Chain(suite, base, open, c) && c[|c| - 1] == e;
      var c' := c + [d];
      assert forall i :: 0 <= i < |c| ==> c'[i] == c[i];
      assert Chain(suite, base, open, c') && c'[|c'| - 1] == d;
    }
  }

  /** And no other way: what its certificate speaks for is a base anchor or a reached device. */
  lemma ReachedFrom(suite: Suite, base: iset<Anchor>, open: set<OfferedDevice>, d: OfferedDevice)
    requires Reached(suite, base, open, d)
    ensures var a := Claim(suite, d).value; a in base || exists e :: Reached(suite, base, open, e) && Mark(suite, e) == a
  {
    hide Claim;
    hide VouchingSigner;
    hide Pin;
    var c: seq<OfferedDevice> :| Chain(suite, base, open, c) && c[|c| - 1] == d;
    var n := |c| - 1;
    if n > 0 {
      assert Chain(suite, base, open, c[..n]) && c[..n][n - 1] == c[n - 1];
      assert Reached(suite, base, open, c[n - 1]) && Mark(suite, c[n - 1]) == Claim(suite, d).value;
    }
  }

  /**
   A device new to an account with trusted devices is vouched for exactly when its certificate speaks
   for a key the trusted devices anchor or for the key of a device itself vouched for; the verdict
   names that signer.
   */
  lemma VouchedIff(suite: Suite, trusted: set<TrustedDevice>, offered: set<OfferedDevice>, d: OfferedDevice)
    requires d in offered && HoldsTogether(suite, d) && forall t :: t in trusted ==> t.deviceId != d.deviceId
    ensures trusted == {} ==> Verdict(suite, trusted, offered, d) == FirstOfAccount
    ensures trusted != {} ==>
              var v := Verdict(suite, trusted, offered, d);
              if && Claim(suite, d).Some?
                 && var a := Claim(suite, d).value;
                    || a in Base(suite, trusted, offered)
                    || exists e :: && e in offered && e.deviceId == a.0 && suite.sha(e.keys.hybridPublic) == a.1
                                   && Verdict(suite, trusted, offered, e).Vouched?
              then v == Vouched(Claim(suite, d).value.0)
              else v == Unvouched
  {
    hide Claim;
    hide VouchingSigner;
    hide HoldsTogether;
    hide Reached;
    hide Base;
    var base, open := Base(suite, trusted, offered), Open(suite, trusted, offered);
    if trusted != {} {
      forall e ensures e in offered && Verdict(suite, trusted, offered, e).Vouched? <==> Reached(suite, base, open, e) {
        if Reached(suite, base, open, e) {
          assert e in open;
        }
      }
      if Reached(suite, base, open, d) {
        ReachedFrom(suite, base, open, d);
      } else if Claim(suite, d).Some? {
        var a := Claim(suite, d).value;
        if a in base || exists e :: Reached(suite, base, open, e) && Mark(suite, e) == a {
          ReachStep(suite, base, open, d);
        }
      }
    }
  }

  /** What the trusted devices anchor: the key one shows if its pin agrees or it has none, and the pin of one that shows none. */
  lemma BaseIff(suite: Suite, trusted: set<TrustedDevice>, offered: set<OfferedDevice>, id: string, pin: Digest)
    ensures (id, pin) in Base(suite, trusted, offered)
       <==> exists t :: && t in trusted && t.deviceId == id
                        && if exists d :: d in offered && HoldsTogether(suite, d) && d.deviceId == id
                           then && (t.hybridPin == None || t.hybridPin == Some(pin))
                                && exists d :: d in offered && HoldsTogether(suite, d) && d.deviceId == id && suite.sha(d.keys.hybridPublic) == pin
                           else t.hybridPin == Some(pin)
  {
    hide HoldsTogether;
    forall t | t in trusted && t.deviceId == id
      ensures Anchors(suite, offered, t, (id, pin))
         <==> if exists d :: d in offered && HoldsTogether(suite, d) && d.deviceId == id
              then && (t.hybridPin == None || t.hybridPin == Some(pin))
                   && exists d :: d in offered && HoldsTogether(suite, d) && d.deviceId == id && suite.sha(d.keys.hybridPublic) == pin
              else t.hybridPin == Some(pin)
    {
      assert forall d :: Shown(suite, offered, t, d) <==> d in offered && HoldsTogether(suite, d) && d.deviceId == id;
    }
  }

  /** A set of anchors that holds the base and is closed under certificates holds every reached device. */
  lemma {:induction false} ChainClosed(suite: Suite, base: iset<Anchor>, open: set<OfferedDevice>, closed: iset<Anchor>,
                                       c: seq<OfferedDevice>)
    requires base <= closed
    requires forall d :: d in open && Claim(suite, d).Some? && Claim(suite, d).value in closed ==> Mark(suite, d) in closed
    requires Chain(suite, base, open, c)
    ensures Claim(suite, c[|c| - 1]).value in closed && Mark(suite, c[|c| - 1]) in closed
    decreases |c|
  {
    hide Claim;
    hide VouchingSigner;
    hide Pin;
    var n := |c| - 1;
    if n > 0 {
      assert Chain(suite, base, open, c[..n]);
      ChainClosed(suite, base, open, closed, c[..n]);
      assert Claim(suite, c[n]).value == Mark(suite, c[n - 1]);
    }
    assert c[n] in open;
  }

  /**
   Islands: a set of devices whose certificates only ever name ids of the set, none of which a
   base anchor carries, is unreached as a whole, whatever cycles it contains.
   */
  lemma IslandUnreached(suite: Suite, base: iset<Anchor>, open: set<OfferedDevice>, island: set<string>, d: OfferedDevice)
    requires forall a: Anchor :: a in base ==> a.0 !in island
    requires forall e :: e in open && e.deviceId in island && Claim(suite, e).Some? ==> Claim(suite, e).value.0 in island
    requires d.deviceId in island
    ensures !Reached(suite, base, open, d)
  {
    hide Claim;
    hide VouchingSigner;
    hide Pin;
    if Reached(suite, base, open, d) {
      var c: seq<OfferedDevice> :| Chain(suite, base, open, c) && c[|c| - 1] == d;
      var n := |c| - 1;
      while n > 0
        invariant 0 <= n < |c| && c[n].deviceId in island
      {
        assert c[n] in open && Claim(suite, c[n]).value == Mark(suite, c[n - 1]);
        n := n - 1;
      }
    }
  }

  // ----- the algorithm -----

  /** Verdicts so far, `None` while undecided, and the anchors: device id to the pin it is trusted with. */
  type Verdicts = seq<Option<DeviceVerdict>>

  ghost function Undecided(offered: seq<OfferedDevice>, verdicts: Verdicts): set<OfferedDevice>
    requires |verdicts| == |offered|
  {
    set i | 0 <= i < |offered| && verdicts[i].None? :: offered[i]
  }

  ghost function Items(anchors: map<string, Digest>): iset<Anchor> {
    iset id, pin | id in anchors && anchors[id] == pin :: (id, pin)
  }

  ghost function Slots(verdicts: Verdicts): set<int> {
    set i | 0 <= i < |verdicts| && verdicts[i].None?
  }

  /** Every anchor is a base anchor or the mark of a reached device. */
  ghost predicate Grounded(suite: Suite, base: iset<Anchor>, open: set<OfferedDevice>, anchors: map<string, Digest>) {
    forall a: Anchor :: a in Items(anchors) ==>
      a in base || exists e :: Reached(suite, base, open, e) && Mark(suite, e) == a
  }

  /** What has been decided since `before`: only reached devices, each vouched for by its own certificate. */
  ghost predicate Progress(suite: Suite, base: iset<Anchor>, offered: seq<OfferedDevice>, before: Verdicts, verdicts: Verdicts)
    requires |before| == |verdicts| == |offered|
  {
    forall i :: 0 <= i < |offered| ==>
      if before[i].Some? then verdicts[i] == before[i]
      else verdicts[i].Some? ==>
        && Reached(suite, base, Undecided(offered, before), offered[i])
        && verdicts[i].value == Vouched(Claim(suite, offered[i]).value.0)
  }

  /** Nothing trusted was overwritten: the base is still anchored, and so is each device decided since `before`. */
  ghost predicate Kept(suite: Suite, base: iset<Anchor>, offered: seq<OfferedDevice>, before: Verdicts, verdicts: Verdicts,
                       anchors: map<string, Digest>)
    requires |before| == |verdicts| == |offered|
  {
    && base <= Items(anchors)
    && (forall i :: 0 <= i < |offered| && before[i].None? && verdicts[i].Some? ==> Mark(suite, offered[i]) in Items(anchors))
  }

  /** The condition under which no insertion overwrites an anchor: fresh, pairwise distinct undecided ids. */
  ghost predicate Fresh(base: iset<Anchor>, offered: seq<OfferedDevice>, before: Verdicts)
    requires |before| == |offered|
  {
    && (forall i, j :: 0 <= i < j < |offered| && before[i].None? && before[j].None? ==> offered[i].deviceId != offered[j].deviceId)
    && (forall i, a: Anchor :: 0 <= i < |offered| && before[i].None? && a in base ==> a.0 != offered[i].deviceId)
  }

  /** Vouching for one more device keeps everything grounded. */
  lemma VouchGrounded(suite: Suite, base: iset<Anchor>, offered: seq<OfferedDevice>, before: Verdicts, verdicts: Verdicts,
                      anchors: map<string, Digest>, i: nat)
    requires |before| == |verdicts| == |offered| && i < |offered|
    requires Grounded(suite, base, Undecided(offered, before), anchors)
    requires Progress(suite, base, offered, before, verdicts)
    requires verdicts[i].None? && VouchingSigner(suite, offered[i], anchors).Some?
    ensures Grounded(suite, base, Undecided(offered, before), anchors[offered[i].deviceId := Pin(suite, offered[i])])
    ensures Progress(suite, base, offered, before,
                     verdicts[i := Some(Vouched(VouchingSigner(suite, offered[i], anchors).value))])
  {
    hide Claim;
    hide VouchingSigner;
    hide Pin;
    hide Chain;
    var d, open := offered[i], Undecided(offered, before);
    var anchors' := anchors[d.deviceId := Pin(suite, d)];
    assert d in open;
    assert Claim(suite, d).value in Items(anchors);
    assert Reached(suite, base, open, d) by {
      ReachStep(suite, base, open, d);
    }
    forall a: Anchor | a in Items(anchors')
      ensures a in base || exists e :: Reached(suite, base, open, e) && Mark(suite, e) == a
    {
      if a.0 == d.deviceId {
        assert Mark(suite, d) == a;
      } else {
        assert a in Items(anchors);
      }
    }
  }

  /** ... and, when ids are fresh, overwrites no anchor. */
  lemma VouchKept(suite: Suite, base: iset<Anchor>, offered: seq<OfferedDevice>, before: Verdicts, verdicts: Verdicts,
                  anchors: map<string, Digest>, i: nat, v: DeviceVerdict)
    requires |before| == |verdicts| == |offered| && i < |offered|
    requires before[i].None? && verdicts[i].None?
    requires Fresh(base, offered, before) && Kept(suite, base, offered, before, verdicts, anchors)
    ensures Kept(suite, base, offered, before, verdicts[i := Some(v)], anchors[offered[i].deviceId := Pin(suite, offered[i])])
  {
    hide Pin;
  }

  /** At a fixpoint that kept its anchors, an undecided device is unreached. */
  lemma FixpointReached(suite: Suite, base: iset<Anchor>, offered: seq<OfferedDevice>, before: Verdicts, verdicts: Verdicts,
                        anchors: map<string, Digest>, i: nat)
    requires |before| == |verdicts| == |offered| && i < |offered|
    requires Kept(suite, base, offered, before, verdicts, anchors)
    requires forall j :: 0 <= j < |offered| && verdicts[j].None? ==> VouchingSigner(suite, offered[j], anchors).None?
    requires verdicts[i].None?
    ensures !Reached(suite, base, Undecided(offered, before), offered[i])
  {
    hide Claim;
    hide VouchingSigner;
    hide Pin;
    var open := Undecided(offered, before);
    if Reached(suite, base, open, offered[i]) {
      var c: seq<OfferedDevice> :| Chain(suite, base, open, c) && c[|c| - 1] == offered[i];
      forall d | d in open && Claim(suite, d).Some? && Claim(suite, d).value in Items(anchors)
        ensures Mark(suite, d) in Items(anchors)
      {
        var j :| 0 <= j < |offered| && before[j].None? && offered[j] == d;
        assert VouchingSigner(suite, d, anchors).Some?;
      }
      ChainClosed(suite, base, open, Items(anchors), c);
      assert false;
    }
  }

  /** The closure loop: passes over the offered devices until one adds nobody. */
  method Spread(suite: Suite, offered: seq<OfferedDevice>, before: Verdicts, start: map<string, Digest>)
    returns (verdicts: Verdicts)
    requires |before| == |offered|
    ensures |verdicts| == |offered|
    ensures Progress(suite, Items(start), offered, before, verdicts)
    ensures Fresh(Items(start), offered, before) ==>
              forall i :: 0 <= i < |offered| && verdicts[i].None? ==>
                !Reached(suite, Items(start), Undecided(offered, before), offered[i])
  {
    hide Claim;
    hide VouchingSigner;
    hide Pin;
    hide Chain;
    hide Reached;
    ghost var base, open := Items(start), Undecided(offered, before);
    var anchors: map<string, Digest> := start;
    verdicts := before;
    var progressed := true;
    while progressed
      invariant |verdicts| == |offered|
      invariant Grounded(suite, base, open, anchors)
      invariant Progress(suite, base, offered, before, verdicts)
      invariant Fresh(base, offered, before) ==> Kept(suite, base, offered, before, verdicts, anchors)
      invariant !progressed ==> forall i :: 0 <= i < |offered| && verdicts[i].None? ==>
                                  VouchingSigner(suite, offered[i], anchors).None?
      decreases Slots(verdicts), progressed
    {
      progressed := false;
      ghost var slots := Slots(verdicts);
      for i := 0 to |offered|
        invariant |verdicts| == |offered|
        invariant Grounded(suite, base, open, anchors)
        invariant Progress(suite, base, offered, before, verdicts)
        invariant Fresh(base, offered, before) ==> Kept(suite, base, offered, before, verdicts, anchors)
        invariant if progressed then Slots(verdicts) < slots else Slots(verdicts) == slots
        invariant !progressed ==> forall j :: 0 <= j < i && verdicts[j].None? ==>
                                    VouchingSigner(suite, offered[j], anchors).None?
      {
        if verdicts[i].None? {
          var signer := VouchingSigner(suite, offered[i], anchors);
          if signer.Some? {
            VouchGrounded(suite, base, offered, before, verdicts, anchors, i);
            if Fresh(base, offered, before) {
              VouchKept(suite, base, offered, before, verdicts, anchors, i, Vouched(signer.value));
            }
            ghost var was := Slots(verdicts);
            anchors := anchors[offered[i].deviceId := Pin(suite, offered[i])];
            verdicts := verdicts[i := Some(Vouched(signer.value))];
            assert Slots(verdicts) == was - {i} && i in was;
            progressed := true;
          }
        }
      }
    }
    if Fresh(base, offered, before) {
      forall i | 0 <= i < |offered| && verdicts[i].None? ensures !Reached(suite, base, open, offered[i]) {
        FixpointReached(suite, base, offered, before, verdicts, anchors, i);
      }
    }
  }

  // ----- what the trusted devices settle -----

  /** An anchor some trusted device accounts for, ids repeated or not. */
  ghost predicate Accounted(suite: Suite, trusted: set<TrustedDevice>, offered: set<OfferedDevice>, a: Anchor) {
    exists t :: t in trusted && t.deviceId == a.0
                && (t.hybridPin == Some(a.1) || exists d :: Shown(suite, offered, t, d) && PinAgrees(suite, t, d) && a.1 == Pin(suite, d))
  }

  ghost function AccountedBase(suite: Suite, trusted: set<TrustedDevice>, offered: set<OfferedDevice>): iset<Anchor> {
    iset a: Anchor | Accounted(suite, trusted, offered, a)
  }

  /** The offered devices whose bundles hold together. */
  ghost function Coherent(suite: Suite, offered: set<OfferedDevice>): set<OfferedDevice> {
    set d | d in offered && HoldsTogether(suite, d)
  }

  /** The first undecided offer under an id. */
  method FindOffered(offered: seq<OfferedDevice>, verdicts: Verdicts, id: string) returns (r: Option<nat>)
    requires |verdicts| == |offered|
    ensures r.Some? ==> r.value < |offered| && verdicts[r.value].None? && offered[r.value].deviceId == id
    ensures forall j :: 0 <= j < (if r.Some? then r.value else |offered|) ==> verdicts[j].Some? || offered[j].deviceId != id
  {
    for i := 0 to |offered|
      invariant forall j :: 0 <= j < i ==> verdicts[j].Some? || offered[j].deviceId != id
    {
      if verdicts[i].None? && offered[i].deviceId == id {
        return Some(i);
      }
    }
    return None;
  }

  /** One more trusted device, in a trusted list of distinct ids: what it settles and what it anchors. */
  lemma TrustedStep(suite: Suite, trusted: set<TrustedDevice>, offered: seq<OfferedDevice>, t: TrustedDevice,
                    verdicts: Verdicts, anchors: map<string, Digest>, found: Option<nat>, verdicts': Verdicts, anchors': map<string, Digest>)
    requires |verdicts| == |offered| && DistinctOffered(suite, offered) && !Known(trusted, t.deviceId)
    requires forall i :: 0 <= i < |offered| ==> verdicts[i] == Settled(suite, trusted, offered[i])
    requires Items(anchors) == Base(suite, trusted, Elements(offered))
    requires found.Some? ==> found.value < |offered| && verdicts[found.value].None? && offered[found.value].deviceId == t.deviceId
    requires found.None? ==> forall j :: 0 <= j < |offered| ==> verdicts[j].Some? || offered[j].deviceId != t.deviceId
    requires (verdicts', anchors') == Pinning(suite, offered, t, verdicts, anchors, found)
    ensures forall i :: 0 <= i < |offered| ==> verdicts'[i] == Settled(suite, trusted + {t}, offered[i])
    ensures Items(anchors') == Base(suite, trusted + {t}, Elements(offered))
  {
    hide HoldsTogether;
    hide Pin;
    var o, all := Elements(offered), trusted + {t};
    forall i | 0 <= i < |offered| ensures verdicts'[i] == Settled(suite, all, offered[i]) {
      SettledStep(suite, trusted, t, offered[i]);
      if offered[i].deviceId == t.deviceId {
        if HoldsTogether(suite, offered[i]) {
          assert verdicts[i].None?;
          assert found.Some? ==> !(i < found.value) && !(found.value < i);
        }
      }
    }
    forall a: Anchor ensures a in Items(anchors') <==> IsBase(suite, all, o, a) {
      BaseStep(suite, trusted, o, t, a);
      if a.0 == t.deviceId {
        assert a !in Items(anchors);
        if found.Some? {
          var d := offered[found.value];
          assert Shown(suite, o, t, d);
          assert forall e :: Shown(suite, o, t, e) ==> e == d;
          assert Anchors(suite, o, t, a) <==> PinAgrees(suite, t, d) && a.1 == Pin(suite, d);
          assert a in Items(anchors') <==> PinAgrees(suite, t, d) && a.1 == Pin(suite, d);
        } else {
          assert Anchors(suite, o, t, a) <==> t.hybridPin == Some(a.1);
          assert a in Items(anchors') <==> t.hybridPin == Some(a.1);
        }
      } else {
        assert a in Items(anchors) <==> a in Items(anchors');
        assert a in Items(anchors) <==> IsBase(suite, trusted, o, a);
      }
    }
  }

  lemma SettledStep(suite: Suite, trusted: set<TrustedDevice>, t: TrustedDevice, d: OfferedDevice)
    requires !Known(trusted, t.deviceId)
    ensures Settled(suite, trusted + {t}, d)
         == if HoldsTogether(suite, d) && d.deviceId == t.deviceId then Some(if PinAgrees(suite, t, d) then Pinned else KeyChanged)
            else Settled(suite, trusted, d)
  {
    hide HoldsTogether;
    hide PinAgrees;
    assert t in trusted + {t};
    if d.deviceId == t.deviceId {
      assert Known(trusted + {t}, d.deviceId);
    } else {
      assert Known(trusted + {t}, d.deviceId) <==> Known(trusted, d.deviceId);
    }
  }

  lemma BaseStep(suite: Suite, trusted: set<TrustedDevice>, offered: set<OfferedDevice>, t: TrustedDevice, a: Anchor)
    requires !Known(trusted, t.deviceId)
    ensures IsBase(suite, trusted + {t}, offered, a)
       <==> if a.0 == t.deviceId then Anchors(suite, offered, t, a) else IsBase(suite, trusted, offered, a)
    ensures a.0 == t.deviceId ==> !IsBase(suite, trusted, offered, a)
  {
    assert t in trusted + {t};
  }

  /** The body of the loop over the trusted devices. */
  function Pinning(suite: Suite, offered: seq<OfferedDevice>, t: TrustedDevice, verdicts: Verdicts, anchors: map<string, Digest>,
                   found: Option<nat>): (r: (Verdicts, map<string, Digest>))
    requires |verdicts| == |offered| && (found.Some? ==> found.value < |offered|)
    ensures |r.0| == |offered|
  {
    match found
    case Some(i) =>
      var presented := Pin(suite, offered[i]);
      if t.hybridPin.Some? && t.hybridPin.value != presented then (verdicts[i := Some(KeyChanged)], anchors)
      else (verdicts[i := Some(Pinned)], anchors[t.deviceId := presented])
    case None =>
      if t.hybridPin.Some? then (verdicts, anchors[t.deviceId := t.hybridPin.value]) else (verdicts, anchors)
  }

  // ----- lists with repeated ids -----

  /** How many of the first `n` offers are bundles that hold together under `id`. */
  function Before(suite: Suite, offered: seq<OfferedDevice>, id: string, n: nat): nat
    requires n <= |offered|
  {
    if n == 0 then 0
    else Before(suite, offered, id, n - 1) + if HoldsTogether(suite, offered[n - 1]) && offered[n - 1].deviceId == id then 1 else 0
  }

  function Count(trusted: seq<TrustedDevice>, id: string): nat {
    if trusted == [] then 0
    else
      var n := |trusted| - 1;
      Count(trusted[..n], id) + if trusted[n].deviceId == id then 1 else 0
  }

  /** The `k`-th trusted device of an id. */
  function Nth(trusted: seq<TrustedDevice>, id: string, k: nat): (r: Option<TrustedDevice>)
    ensures r.Some? <==> k < Count(trusted, id)
    ensures r.Some? ==> r.value in trusted && r.value.deviceId == id
  {
    if trusted == [] then None
    else
      var n := |trusted| - 1;
      if k < Count(trusted[..n], id) then Nth(trusted[..n], id, k)
      else if k == Count(trusted[..n], id) && trusted[n].deviceId == id then Some(trusted[n])
      else None
  }

  function PinVerdict(suite: Suite, t: TrustedDevice, d: OfferedDevice): DeviceVerdict {
    if PinAgrees(suite, t, d) then Pinned else KeyChanged
  }

  /** What is settled of offer `i` for any lists: the k-th bundle shown under an id answers to the k-th trusted device of that id. */
  function SettledAt(suite: Suite, trusted: seq<TrustedDevice>, offered: seq<OfferedDevice>, i: nat): (r: Option<DeviceVerdict>)
    requires i < |offered|
    ensures r == Some(Pinned) ==> exists t :: t in trusted && t.deviceId == offered[i].deviceId && PinAgrees(suite, t, offered[i])
    ensures r == Some(KeyChanged) ==> exists t :: t in trusted && t.deviceId == offered[i].deviceId && !PinAgrees(suite, t, offered[i])
  {
    if !HoldsTogether(suite, offered[i]) then Some(Invalid)
    else
      match Nth(trusted, offered[i].deviceId, Before(suite, offered, offered[i].deviceId, i))
      case None => None
      case Some(t) => Some(PinVerdict(suite, t, offered[i]))
  }

  lemma {:induction false} BeforeGrows(suite: Suite, offered: seq<OfferedDevice>, id: string, i: nat, j: nat)
    requires i <= j <= |offered|
    ensures Before(suite, offered, id, i) <= Before(suite, offered, id, j)
    decreases j
  {
    if i < j {
      BeforeGrows(suite, offered, id, i, j - 1);
    }
  }

  lemma {:induction false} BeforeHits(suite: Suite, offered: seq<OfferedDevice>, id: string, n: nat, k: nat) returns (j: nat)
    requires n <= |offered| && k < Before(suite, offered, id, n)
    ensures j < n && HoldsTogether(suite, offered[j]) && offered[j].deviceId == id && Before(suite, offered, id, j) == k
    decreases n
  {
    if k < Before(suite, offered, id, n - 1) {
      j := BeforeHits(suite, offered, id, n - 1, k);
    } else {
      j := n - 1;
    }
  }

  lemma NthStep(front: seq<TrustedDevice>, t: TrustedDevice, id: string, k: nat)
    ensures Count(front + [t], id) == Count(front, id) + if t.deviceId == id then 1 else 0
    ensures Nth(front + [t], id, k) == if k == Count(front, id) && t.deviceId == id then Some(t) else Nth(front, id, k)
  {
    assert (front + [t])[..|front|] == front;
  }

  lemma BeforeNext(suite: Suite, offered: seq<OfferedDevice>, id: string, i: nat)
    requires i < |offered| && HoldsTogether(suite, offered[i]) && offered[i].deviceId == id
    ensures Before(suite, offered, id, i + 1) == Before(suite, offered, id, i) + 1
  {
  }

  lemma SettledIff(suite: Suite, trusted: seq<TrustedDevice>, offered: seq<OfferedDevice>, i: nat)
    requires i < |offered|
    ensures SettledAt(suite, trusted, offered, i).None?
       <==> && HoldsTogether(suite, offered[i])
            && Count(trusted, offered[i].deviceId) <= Before(suite, offered, offered[i].deviceId, i)
  {
  }

  /** The offer found for one more trusted device is the next one of its id. */
  lemma FoundIsNext(suite: Suite, front: seq<TrustedDevice>, t: TrustedDevice, offered: seq<OfferedDevice>, verdicts: Verdicts,
                    found: Option<nat>, i: nat)
    requires |verdicts| == |offered| && i < |offered| && HoldsTogether(suite, offered[i]) && offered[i].deviceId == t.deviceId
    requires forall j :: 0 <= j < |offered| ==> verdicts[j] == SettledAt(suite, front, offered, j)
    requires found.Some? ==> found.value < |offered| && verdicts[found.value].None? && offered[found.value].deviceId == t.deviceId
    requires forall j :: 0 <= j < (if found.Some? then found.value else |offered|) ==> verdicts[j].Some? || offered[j].deviceId != t.deviceId
    ensures found == Some(i) <==> Before(suite, offered, t.deviceId, i) == Count(front, t.deviceId)
  {
    hide HoldsTogether;
    hide SettledAt;
    hide Count;
    hide Before;
    var id := t.deviceId;
    var c, r := Count(front, id), Before(suite, offered, id, i);
    SettledIff(suite, front, offered, i);
    if r > c {
      var j := BeforeHits(suite, offered, id, i, c);
      SettledIff(suite, front, offered, j);
    } else if r == c {
      var f := found.value;
      SettledIff(suite, front, offered, f);
      if f < i {
        BeforeNext(suite, offered, id, f);
        BeforeGrows(suite, offered, id, f + 1, i);
      }
    }
  }

  lemma SettlingStep(suite: Suite, front: seq<TrustedDevice>, t: TrustedDevice, offered: seq<OfferedDevice>, verdicts: Verdicts,
                     anchors: map<string, Digest>, found: Option<nat>)
    requires |verdicts| == |offered|
    requires forall j :: 0 <= j < |offered| ==> verdicts[j] == SettledAt(suite, front, offered, j)
    requires found.Some? ==> found.value < |offered| && verdicts[found.value].None? && offered[found.value].deviceId == t.deviceId
    requires forall j :: 0 <= j < (if found.Some? then found.value else |offered|) ==> verdicts[j].Some? || offered[j].deviceId != t.deviceId
    ensures forall j :: 0 <= j < |offered| ==>
              Pinning(suite, offered, t, verdicts, anchors, found).0[j] == SettledAt(suite, front + [t], offered, j)
  {
    hide HoldsTogether;
    hide Nth;
    hide Pin;
    var after := Pinning(suite, offered, t, verdicts, anchors, found).0;
    forall j | 0 <= j < |offered| ensures after[j] == SettledAt(suite, front + [t], offered, j) {
      if HoldsTogether(suite, offered[j]) {
        NthStep(front, t, offered[j].deviceId, Before(suite, offered, offered[j].deviceId, j));
        if offered[j].deviceId == t.deviceId {
          FoundIsNext(suite, front, t, offered, verdicts, found, j);
        }
      }
    }
  }

  lemma NothingTrusted(suite: Suite, offered: seq<OfferedDevice>, i: nat)
    requires i < |offered|
    ensures SettledAt(suite, [], offered, i) == if HoldsTogether(suite, offered[i]) then None else Some(Invalid)
    ensures Settled(suite, {}, offered[i]) == SettledAt(suite, [], offered, i)
  {
  }

  lemma AccountedStep(suite: Suite, trusted: set<TrustedDevice>, offered: seq<OfferedDevice>, t: TrustedDevice, verdicts: Verdicts,
                      anchors: map<string, Digest>, found: Option<nat>)
    requires |verdicts| == |offered| && t in trusted
    requires found.Some? ==> found.value < |offered| && HoldsTogether(suite, offered[found.value]) && offered[found.value].deviceId == t.deviceId
    requires Items(anchors) <= AccountedBase(suite, trusted, Elements(offered))
    ensures Items(Pinning(suite, offered, t, verdicts, anchors, found).1) <= AccountedBase(suite, trusted, Elements(offered))
  {
    hide HoldsTogether;
    hide Pin;
    if found.Some? {
      assert Shown(suite, Elements(offered), t, offered[found.value]);
    }
  }

  /** The first two passes: bundles that do not hold together, then the devices already trusted. */
  method PinTrusted(suite: Suite, trusted: seq<TrustedDevice>, offered: seq<OfferedDevice>)
    returns (verdicts: Verdicts, anchors: map<string, Digest>)
    ensures |verdicts| == |offered|
    ensures forall i :: 0 <= i < |offered| ==> verdicts[i] == SettledAt(suite, trusted, offered, i)
    ensures Items(anchors) <= AccountedBase(suite, Elements(trusted), Elements(offered))
    ensures DistinctTrusted(trusted) && DistinctOffered(suite, offered) ==>
              && (forall i :: 0 <= i < |offered| ==> verdicts[i] == Settled(suite, Elements(trusted), offered[i]))
              && Items(anchors) == Base(suite, Elements(trusted), Elements(offered))
  {
    hide HoldsTogether;
    hide Pin;
    hide SettledAt;
    hide Settled;
    hide AccountedBase;
    hide Pinning;
    verdicts := seq(|offered|, _ => None);
    anchors := map[];
    for i := 0 to |offered|
      invariant |verdicts| == |offered|
      invariant forall j :: 0 <= j < |offered| ==>
                  verdicts[j] == if j < i && !HoldsTogether(suite, offered[j]) then Some(Invalid) else None
    {
      if !HoldsTogether(suite, offered[i]) {
        verdicts := verdicts[i := Some(Invalid)];
      }
    }
    forall i | 0 <= i < |offered| ensures verdicts[i] == SettledAt(suite, [], offered, i) == Settled(suite, {}, offered[i]) {
      NothingTrusted(suite, offered, i);
    }
    assert trusted[..0] == [] && Elements(trusted[..0]) == {};
    ghost var distinct := DistinctTrusted(trusted) && DistinctOffered(suite, offered);
    for n := 0 to |trusted|
      invariant |verdicts| == |offered|
      invariant forall i :: 0 <= i < |offered| ==> verdicts[i] == SettledAt(suite, trusted[..n], offered, i)
      invariant Items(anchors) <= AccountedBase(suite, Elements(trusted), Elements(offered))
      invariant distinct ==>
                  && (forall i :: 0 <= i < |offered| ==> verdicts[i] == Settled(suite, Elements(trusted[..n]), offered[i]))
                  && Items(anchors) == Base(suite, Elements(trusted[..n]), Elements(offered))
    {
      var t := trusted[n];
      var found := FindOffered(offered, verdicts, t.deviceId);
      ghost var verdicts0, anchors0 := verdicts, anchors;
      assert t in Elements(trusted);
      assert trusted[..n + 1] == trusted[..n] + [t];
      if found.Some? {
        SettledIff(suite, trusted[..n], offered, found.value);
      }
      AccountedStep(suite, Elements(trusted), offered, t, verdicts, anchors, found);
      SettlingStep(suite, trusted[..n], t, offered, verdicts, anchors, found);
      var step := Pinning(suite, offered, t, verdicts, anchors, found);
      verdicts, anchors := step.0, step.1;
      if distinct {
        assert Elements(trusted[..n + 1]) == Elements(trusted[..n]) + {t};
        TrustedStep(suite, Elements(trusted[..n]), offered, t, verdicts0, anchors0, found, verdicts, anchors);
      }
    }
    assert trusted[..|trusted|] == trusted;
  }

  /** Reachability grows with its base and its devices. */
  lemma ReachedMonotone(suite: Suite, base: iset<Anchor>, open: set<OfferedDevice>, base': iset<Anchor>, open': set<OfferedDevice>,
                        d: OfferedDevice)
    requires base <= base' && open <= open' && Reached(suite, base, open, d)
    ensures Reached(suite, base', open', d)
  {
    hide Claim;
    var c: seq<OfferedDevice> :| Chain(suite, base, open, c) && c[|c| - 1] == d;
    assert Chain(suite, base', open', c);
  }

  /** The passes of `judge`, one after the other. */
  method Decide(suite: Suite, trusted: seq<TrustedDevice>, offered: seq<OfferedDevice>) returns (verdicts: seq<DeviceVerdict>)
    ensures |verdicts| == |offered|
    ensures forall i :: 0 <= i < |offered| ==>
              match SettledAt(suite, trusted, offered, i)
              case Some(v) => verdicts[i] == v
              case None => if trusted == [] then verdicts[i] == FirstOfAccount else verdicts[i].Vouched? || verdicts[i] == Unvouched
    ensures forall i :: 0 <= i < |offered| && verdicts[i].Vouched? ==>
              && Reached(suite, AccountedBase(suite, Elements(trusted), Elements(offered)), Coherent(suite, Elements(offered)), offered[i])
              && verdicts[i].signer == Claim(suite, offered[i]).value.0
    ensures DistinctTrusted(trusted) && DistinctOffered(suite, offered) ==>
              forall i :: 0 <= i < |offered| ==>
                verdicts[i] == Verdict(suite, Elements(trusted), Elements(offered), offered[i])
  {
    hide HoldsTogether;
    hide Claim;
    hide Reached;
    hide Anchors;
    hide Nth;
    hide Before;
    hide PinAgrees;
    var settled, anchors := PinTrusted(suite, trusted, offered);
    ghost var t, o := Elements(trusted), Elements(offered);
    if trusted == [] {
      return seq(|offered|, i requires 0 <= i < |offered| => if settled[i].Some? then settled[i].value else FirstOfAccount);
    }
    assert trusted[0] in t;
    var decided := Spread(suite, offered, settled, anchors);
    verdicts := seq(|offered|, i requires 0 <= i < |offered| => if decided[i].Some? then decided[i].value else Unvouched);
    assert Undecided(offered, settled) <= Coherent(suite, o);
    forall i | 0 <= i < |offered| && verdicts[i].Vouched?
      ensures Reached(suite, AccountedBase(suite, t, o), Coherent(suite, o), offered[i])
    {
      ReachedMonotone(suite, Items(anchors), Undecided(offered, settled), AccountedBase(suite, t, o), Coherent(suite, o), offered[i]);
    }
    if DistinctTrusted(trusted) && DistinctOffered(suite, offered) {
      assert Undecided(offered, settled) == Open(suite, t, o);
      BaseKnown(suite, t, o);
      assert Fresh(Items(anchors), offered, settled);
    }
  }

  /**
   `judge`, one verdict per offer.

   Whatever the two lists repeat, a pinned device has a trusted device of its id whose pin agrees,
   a changed one has one whose pin does not, and a vouched device is at the end of a chain of valid
   certificates from a key some trusted device accounts for. With ids listed once each, every
   verdict is the declarative one.
   */
  method Judge(suite: Suite, trusted: seq<TrustedDevice>, offered: seq<OfferedDevice>) returns (verdicts: seq<DeviceVerdict>)
    ensures |verdicts| == |offered|
    ensures forall i :: 0 <= i < |offered| ==>
              var d := offered[i];
              (verdicts[i] == Invalid <==>
               || |d.keys.identityPublic| != 32 || |d.keys.verifyingKey| != 32 || |d.keys.hybridPublic| != 1984
               || !suite.ed25519(d.keys.verifyingKey, Ascii("KonstruktHybridId-v1") + d.keys.hybridPublic, d.keys.hybridBinding)
               || d.deviceId != HexEncode(suite.sha(d.keys.identityPublic)[..16]))
    ensures forall i :: 0 <= i < |offered| ==> (verdicts[i] == Invalid <==> !HoldsTogether(suite, offered[i]))
    ensures forall i :: 0 <= i < |offered| && verdicts[i] == Pinned ==>
              exists t :: t in trusted && t.deviceId == offered[i].deviceId
                          && (t.hybridPin == None || t.hybridPin == Some(suite.sha(offered[i].keys.hybridPublic)))
    ensures forall i :: 0 <= i < |offered| && verdicts[i] == KeyChanged ==>
              exists t :: t in trusted && t.deviceId == offered[i].deviceId
                          && t.hybridPin.Some? && t.hybridPin != Some(suite.sha(offered[i].keys.hybridPublic))
    ensures forall i :: 0 <= i < |offered| ==>
              match SettledAt(suite, trusted, offered, i)
              case Some(v) => verdicts[i] == v
              case None => if trusted == [] then verdicts[i] == FirstOfAccount else verdicts[i].Vouched? || verdicts[i] == Unvouched
    ensures forall i :: 0 <= i < |offered| && verdicts[i].Vouched? ==>
              && Reached(suite, AccountedBase(suite, Elements(trusted), Elements(offered)), Coherent(suite, Elements(offered)), offered[i])
              && verdicts[i].signer == Claim(suite, offered[i]).value.0
    ensures DistinctTrusted(trusted) && DistinctOffered(suite, offered) ==>
              forall i :: 0 <= i < |offered| ==>
                verdicts[i] == Verdict(suite, Elements(trusted), Elements(offered), offered[i])
  {
    hide SettledAt;
    hide HoldsTogether;
    hide Reached;
    hide Claim;
    hide Verdict;
    hide HexEncode;
    verdicts := Decide(suite, trusted, offered);
    forall i | 0 <= i < |offered|
      ensures var d := offered[i];
              (verdicts[i] == Invalid <==>
               || |d.keys.identityPublic| != 32 || |d.keys.verifyingKey| != 32 || |d.keys.hybridPublic| != 1984
               || !suite.ed25519(d.keys.verifyingKey, Ascii("KonstruktHybridId-v1") + d.keys.hybridPublic, d.keys.hybridBinding)
               || d.deviceId != HexEncode(suite.sha(d.keys.identityPublic)[..16]))
      ensures verdicts[i] == Invalid <==> !HoldsTogether(suite, offered[i])
    {
      HoldsTogetherIff(suite, offered[i]);
      SettledPlainly(suite, trusted, offered, i);
    }
    forall i | 0 <= i < |offered|
      ensures verdicts[i] == Pinned ==>
                exists t :: t in trusted && t.deviceId == offered[i].deviceId
                            && (t.hybridPin == None || t.hybridPin == Some(suite.sha(offered[i].keys.hybridPublic)))
      ensures verdicts[i] == KeyChanged ==>
                exists t :: t in trusted && t.deviceId == offered[i].deviceId
                            && t.hybridPin.Some? && t.hybridPin != Some(suite.sha(offered[i].keys.hybridPublic))
    {
      SettledPlainly(suite, trusted, offered, i);
    }
  }

  lemma SettledPlainly(suite: Suite, trusted: seq<TrustedDevice>, offered: seq<OfferedDevice>, i: nat)
    requires i < |offered|
    ensures SettledAt(suite, trusted, offered, i) == Some(Invalid) <==> !HoldsTogether(suite, offered[i])
    ensures SettledAt(suite, trusted, offered, i) in {None, Some(Invalid), Some(Pinned), Some(KeyChanged)}
    ensures SettledAt(suite, trusted, offered, i) == Some(Pinned) ==>
              exists t :: t in trusted && t.deviceId == offered[i].deviceId
                          && (t.hybridPin == None || t.hybridPin == Some(suite.sha(offered[i].keys.hybridPublic)))
    ensures SettledAt(suite, trusted, offered, i) == Some(KeyChanged) ==>
              exists t :: t in trusted && t.deviceId == offered[i].deviceId
                          && t.hybridPin.Some? && t.hybridPin != Some(suite.sha(offered[i].keys.hybridPublic))
  {
    hide HoldsTogether;
  }

  lemma BaseKnown(suite: Suite, trusted: set<TrustedDevice>, offered: set<OfferedDevice>)
    ensures forall a: Anchor :: a in Base(suite, trusted, offered) ==> Known(trusted, a.0)
  {
  }

  lemma {:induction false} TwiceInMultiset<T>(s: seq<T>, i: nat, j: nat)
    requires i < j < |s| && s[i] == s[j]
    ensures multiset(s)[s[i]] >= 2
  {
    assert s == s[..j] + [s[j]] + s[j + 1..];
    assert s[i] in s[..j];
  }

  lemma {:induction false} OnceInMultiset<T>(s: seq<T>, x: T)
    requires forall i, j :: 0 <= i < j < |s| ==> !(s[i] == x && s[j] == x)
    ensures multiset(s)[x] <= 1
  {
    if s != [] {
      var n := |s| - 1;
      OnceInMultiset(s[..n], x);
      assert s == s[..n] + [s[n]];
      if s[n] == x {
        assert x !in s[..n];
      }
    }
  }

  /** Distinct ids, of the elements that count, stay distinct in any other order. */
  lemma PermutedDistinct<T(!new)>(s: seq<T>, s': seq<T>, counts: T -> bool, id: T -> string)
    requires forall i, j :: 0 <= i < j < |s| && counts(s[i]) && counts(s[j]) ==> id(s[i]) != id(s[j])
    requires multiset(s) == multiset(s')
    ensures forall i, j :: 0 <= i < j < |s'| && counts(s'[i]) && counts(s'[j]) ==> id(s'[i]) != id(s'[j])
  {
    forall i, j | 0 <= i < j < |s'| && counts(s'[i]) && counts(s'[j]) ensures id(s'[i]) != id(s'[j]) {
      assert s'[i] in multiset(s) && s'[j] in multiset(s);
      var k :| 0 <= k < |s| && s[k] == s'[i];
      var l :| 0 <= l < |s| && s[l] == s'[j];
      if s'[i] == s'[j] {
        TwiceInMultiset(s', i, j);
        OnceInMultiset(s, s'[i]);
      } else {
        assert k < l || l < k;
      }
    }
  }

  lemma SameElements<T>(s: seq<T>, s': seq<T>)
    requires multiset(s) == multiset(s')
    ensures Elements(s) == Elements(s')
  {
    forall x ensures x in s <==> x in s' {
      assert x in s <==> x in multiset(s);
      assert x in s' <==> x in multiset(s');
    }
  }

  /** Listing the trusted or the offered devices in another order changes no device's verdict, signer included. */
  method JudgeReordered(suite: Suite, trusted: seq<TrustedDevice>, offered: seq<OfferedDevice>,
                        trusted': seq<TrustedDevice>, offered': seq<OfferedDevice>)
    returns (verdicts: seq<DeviceVerdict>, verdicts': seq<DeviceVerdict>)
    requires DistinctTrusted(trusted) && DistinctOffered(suite, offered)
    requires multiset(trusted) == multiset(trusted') && multiset(offered) == multiset(offered')
    ensures |verdicts| == |offered| && |verdicts'| == |offered'|
    ensures forall i, j :: 0 <= i < |offered| && 0 <= j < |offered'| && offered[i] == offered'[j] ==> verdicts[i] == verdicts'[j]
  {
    hide Verdict;
    hide HoldsTogether;
    verdicts := Judge(suite, trusted, offered);
    verdicts' := Judge(suite, trusted', offered');
    PermutedDistinct(trusted, trusted', (_: TrustedDevice) => true, (t: TrustedDevice) => t.deviceId);
    PermutedDistinct(offered, offered', (d: OfferedDevice) => HoldsTogether(suite, d), (d: OfferedDevice) => d.deviceId);
    SameElements(trusted, trusted');
    SameElements(offered, offered');
  }

  // ----- where the order decides -----

  lemma {:induction false} SamePrefix(suite: Suite, offered: seq<OfferedDevice>, offered': seq<OfferedDevice>, id: string, n: nat)
    requires n <= |offered| && n <= |offered'| && forall i :: 0 <= i < n ==> offered[i] == offered'[i]
    ensures Before(suite, offered, id, n) == Before(suite, offered', id, n)
  {
    if n > 0 {
      SamePrefix(suite, offered, offered', id, n - 1);
    }
  }

  /** With one trusted device, the first bundle of its id answers to it and no later one is settled. */
  lemma FirstAnswers(suite: Suite, t: TrustedDevice, offered: seq<OfferedDevice>, p: nat, q: nat)
    requires p < q < |offered| && HoldsTogether(suite, offered[p]) && HoldsTogether(suite, offered[q])
    requires offered[p].deviceId == offered[q].deviceId == t.deviceId && Before(suite, offered, t.deviceId, p) == 0
    ensures SettledAt(suite, [t], offered, p) == Some(PinVerdict(suite, t, offered[p])) && SettledAt(suite, [t], offered, q) == None
  {
    hide HoldsTogether;
    hide PinVerdict;
    BeforeNext(suite, offered, t.deviceId, p);
    BeforeGrows(suite, offered, t.deviceId, p + 1, q);
    NthStep([], t, t.deviceId, 0);
    assert [] + [t] == [t];
    SettledIff(suite, [t], offered, q);
  }

  function Swapped<T>(s: seq<T>, p: nat, q: nat): (r: seq<T>)
    requires p < q < |s|
    ensures |r| == |s| && multiset(r) == multiset(s)
  {
    s[p := s[q]][q := s[p]]
  }

  /**
   Whenever two bundles that hold together share an id, the order decides: with that id trusted, a
   swap pins the one bundle instead of the other.
   */
  method JudgeFollowsOrder(suite: Suite, offered: seq<OfferedDevice>, p: nat, q: nat)
    returns (verdicts: seq<DeviceVerdict>, verdicts': seq<DeviceVerdict>)
    requires p < q < |offered| && HoldsTogether(suite, offered[p]) && HoldsTogether(suite, offered[q])
    requires offered[p].deviceId == offered[q].deviceId && Before(suite, offered, offered[p].deviceId, p) == 0
    ensures |verdicts| == |offered| && |verdicts'| == |Swapped(offered, p, q)| && Swapped(offered, p, q)[p] == offered[q]
    ensures verdicts[q] != Pinned && verdicts'[p] == Pinned  // the verdicts on offered[q]
    ensures verdicts[p] == Pinned && verdicts'[q] != Pinned  // the verdicts on offered[p]
  {
    hide HoldsTogether;
    hide SettledAt;
    var t := TrustedDevice(offered[p].deviceId, None);
    verdicts := Judge(suite, [t], offered);
    verdicts' := Judge(suite, [t], Swapped(offered, p, q));
    FirstAnswers(suite, t, offered, p, q);
    SamePrefix(suite, offered, Swapped(offered, p, q), t.deviceId, p);
    FirstAnswers(suite, t, Swapped(offered, p, q), p, q);
  }

  lemma {:induction false} NthAt(trusted: seq<TrustedDevice>, p: nat)
    requires p < |trusted|
    ensures Nth(trusted, trusted[p].deviceId, Count(trusted[..p], trusted[p].deviceId)) == Some(trusted[p])
    decreases |trusted|
  {
    var n := |trusted| - 1;
    if p < n {
      NthAt(trusted[..n], p);
      assert trusted[..n][..p] == trusted[..p];
    }
  }

  /** The same of the trusted list: two entries of one id that judge a bundle differently decide by their order. */
  method JudgeFollowsTrustedOrder(suite: Suite, trusted: seq<TrustedDevice>, d: OfferedDevice, p: nat, q: nat)
    returns (verdicts: seq<DeviceVerdict>, verdicts': seq<DeviceVerdict>)
    requires p < q < |trusted| && trusted[p].deviceId == trusted[q].deviceId == d.deviceId && HoldsTogether(suite, d)
    requires Count(trusted[..p], d.deviceId) == 0 && PinVerdict(suite, trusted[p], d) != PinVerdict(suite, trusted[q], d)
    ensures |verdicts| == |verdicts'| == 1 && verdicts[0] != verdicts'[0]
  {
    hide HoldsTogether;
    hide PinVerdict;
    hide Nth;
    var trusted' := Swapped(trusted, p, q);
    verdicts := Judge(suite, trusted, [d]);
    verdicts' := Judge(suite, trusted', [d]);
    NthAt(trusted, p);
    assert trusted'[..p] == trusted[..p];
    NthAt(trusted', p);
    assert Before(suite, [d], d.deviceId, 0) == 0;
    assert SettledAt(suite, trusted, [d], 0) == Some(PinVerdict(suite, trusted[p], d));
    assert SettledAt(suite, trusted', [d], 0) == Some(PinVerdict(suite, trusted[q], d));
  }

  lemma {:induction false} FirstOfId(suite: Suite, offered: seq<OfferedDevice>, id: string, n: nat)
    requires n <= |offered| && forall j :: 0 <= j < n && HoldsTogether(suite, offered[j]) ==> offered[j].deviceId != id
    ensures Before(suite, offered, id, n) == 0
  {
    if n > 0 {
      FirstOfId(suite, offered, id, n - 1);
    }
  }

  lemma {:induction false} CountedIn(trusted: seq<TrustedDevice>, t: TrustedDevice)
    requires t in trusted
    ensures Count(trusted, t.deviceId) > 0
  {
    var n := |trusted| - 1;
    if trusted[n].deviceId != t.deviceId {
      assert t in trusted[..n];
      CountedIn(trusted[..n], t);
    }
  }

  /** Where ids are distinct, what is settled of a device is a function of the trusted set and the device. */
  lemma SettledBySets(suite: Suite, trusted: seq<TrustedDevice>, offered: seq<OfferedDevice>, i: nat)
    requires i < |offered| && DistinctTrusted(trusted) && DistinctOffered(suite, offered)
    ensures SettledAt(suite, trusted, offered, i) == Settled(suite, Elements(trusted), offered[i])
  {
    hide HoldsTogether;
    hide PinAgrees;
    hide Nth;
    hide Count;
    var d := offered[i];
    if HoldsTogether(suite, d) {
      FirstOfId(suite, offered, d.deviceId, i);
      var r := Nth(trusted, d.deviceId, 0);
      if r.Some? {
        assert r.value in Elements(trusted);
        assert forall t :: t in trusted && t.deviceId == d.deviceId ==> t == r.value;
      } else {
        forall t | t in trusted ensures t.deviceId != d.deviceId {
          CountedIn(trusted, t);
        }
      }
    }
  }

  /** No reordering of the offers changes what is settled of a device, whoever is trusted. */
  ghost predicate OrderFree(suite: Suite, offered: seq<OfferedDevice>) {
    forall trusted: seq<TrustedDevice>, offered': seq<OfferedDevice>, i, j ::
      DistinctTrusted(trusted) && multiset(offered) == multiset(offered')
      && 0 <= i < |offered| && 0 <= j < |offered'| && offered[i] == offered'[j]
      ==> SettledAt(suite, trusted, offered, i) == SettledAt(suite, trusted, offered', j)
  }

  /** Exactly when: the order of the offers is free if and only if no two bundles that hold together share an id. */
  lemma OrderFreeIff(suite: Suite, offered: seq<OfferedDevice>)
    ensures OrderFree(suite, offered) <==> DistinctOffered(suite, offered)
  {
    hide HoldsTogether;
    hide SettledAt;
    hide Settled;
    if DistinctOffered(suite, offered) {
      forall trusted: seq<TrustedDevice>, offered': seq<OfferedDevice>, i, j |
        DistinctTrusted(trusted) && multiset(offered) == multiset(offered')
        && 0 <= i < |offered| && 0 <= j < |offered'| && offered[i] == offered'[j]
        ensures SettledAt(suite, trusted, offered, i) == SettledAt(suite, trusted, offered', j)
      {
        PermutedDistinct(offered, offered', (d: OfferedDevice) => HoldsTogether(suite, d), (d: OfferedDevice) => d.deviceId);
        SettledBySets(suite, trusted, offered, i);
        SettledBySets(suite, trusted, offered', j);
      }
    } else {
      var p, q := FirstShared(suite, offered);
      var t := TrustedDevice(offered[p].deviceId, None);
      FirstAnswers(suite, t, offered, p, q);
      SamePrefix(suite, offered, Swapped(offered, p, q), t.deviceId, p);
      FirstAnswers(suite, t, Swapped(offered, p, q), p, q);
      assert Swapped(offered, p, q)[p] == offered[q];
      assert DistinctTrusted([t]);
      assert SettledAt(suite, [t], Swapped(offered, p, q), p) != SettledAt(suite, [t], offered, q);
    }
  }

  lemma FirstShared(suite: Suite, offered: seq<OfferedDevice>) returns (p: nat, q: nat)
    requires !DistinctOffered(suite, offered)
    ensures p < q < |offered| && HoldsTogether(suite, offered[p]) && HoldsTogether(suite, offered[q])
    ensures offered[p].deviceId == offered[q].deviceId && Before(suite, offered, offered[p].deviceId, p) == 0
  {
    hide HoldsTogether;
    var i, j :| 0 <= i < j < |offered| && HoldsTogether(suite, offered[i]) && HoldsTogether(suite, offered[j])
                && offered[i].deviceId == offered[j].deviceId;
    var id := offered[i].deviceId;
    p, q := i, j;
    if Before(suite, offered, id, i) > 0 {
      p := BeforeHits(suite, offered, id, i, 0);
    }
  }

  /** Such bundles exist: two hybrid keys bound to one identity key. */
  lemma TwoBundlesOneId() returns (suite: Suite, t: TrustedDevice, d: OfferedDevice, e: OfferedDevice)
    ensures HoldsTogether(suite, d) && HoldsTogether(suite, e) && d.deviceId == e.deviceId == t.deviceId
    ensures t.hybridPin == Some(Pin(suite, d)) && Pin(suite, e) != Pin(suite, d)
  {
    suite := Suite((b: Bytes) => seq(32, _ => if b == [] then 0 else b[0]), (_, _, _) => true, (_, _, _) => true);
    var identity, verifying: Bytes := seq(X25519_LEN, _ => 0), seq(ED25519_LEN, _ => 0);
    var k := DeviceKeys(identity, verifying, seq(HYBRID_PUBLIC_LEN, _ => 0), []);
    var l := DeviceKeys(identity, verifying, seq(HYBRID_PUBLIC_LEN, _ => 1), []);
    var id := HexEncode(DeriveDeviceId(suite, identity));
    d, e := OfferedDevice(id, k, None), OfferedDevice(id, l, None);
    t := TrustedDevice(id, Some(Pin(suite, d)));
    assert Pin(suite, d)[0] == 0 && Pin(suite, e)[0] == 1;
  }

  lemma AccountedKnown(suite: Suite, trusted: seq<TrustedDevice>, offered: set<OfferedDevice>, a: Anchor)
    requires a in AccountedBase(suite, Elements(trusted), offered)
    ensures exists t :: t in trusted && t.deviceId == a.0
  {
  }

  /**
   A server's own devices stay out, whatever it lists twice: ids that no trusted device has, whose
   certificates name only ids among themselves, are all unvouched, cycles included.
   */
  method IslandUnvouched(suite: Suite, trusted: seq<TrustedDevice>, offered: seq<OfferedDevice>, island: set<string>)
    returns (verdicts: seq<DeviceVerdict>)
    requires trusted != []
    requires forall t :: t in trusted ==> t.deviceId !in island
    requires forall e :: e in offered && e.deviceId in island && Claim(suite, e).Some? ==> Claim(suite, e).value.0 in island
    ensures |verdicts| == |offered|
    ensures forall i :: 0 <= i < |offered| && offered[i].deviceId in island && HoldsTogether(suite, offered[i]) ==> verdicts[i] == Unvouched
  {
    hide Claim;
    hide HoldsTogether;
    hide Reached;
    hide PinVerdict;
    hide Nth;
    hide AccountedBase;
    verdicts := Judge(suite, trusted, offered);
    ghost var base := AccountedBase(suite, Elements(trusted), Elements(offered));
    forall a: Anchor | a in base ensures a.0 !in island {
      AccountedKnown(suite, trusted, Elements(offered), a);
    }
    forall i | 0 <= i < |offered| && offered[i].deviceId in island && HoldsTogether(suite, offered[i]) ensures verdicts[i] == Unvouched {
      IslandUnreached(suite, base, Coherent(suite, Elements(offered)), island, offered[i]);
      assert Nth(trusted, offered[i].deviceId, Before(suite, offered, offered[i].deviceId, i)) == None;
      assert SettledAt(suite, trusted, offered, i) == None;
    }
  }
}
