/**
 The wire payload of an encrypted message. `Layout` says which bytes a message is; `Unpack` is
 proved to accept exactly the layouts of well-formed messages, each as that message, and
 `PackMessage` to write the layout of its normalised arguments.
 */
module WirePayload {
  import opened ByteStrings
  import opened Leb128
  import opened WireErrors
  import Bits

  const DH_KEY_SIZE: nat := 32
  const HEADER_SIZE: nat := 52
  const OBJECT_SIZE: nat := 1568
  const PQ_RATCHET_SUITE: u16 := 4
  const RETIRED_SUITE: u16 := 3
  const AD_VERSION_LEGACY: u8 := 3
  const AD_VERSION_HEADER: u8 := 4

  type Hash8 = b: Bytes | |b| == 8 witness seq(8, _ => 0)

  datatype PqField = PublicKey(epoch: u32, key: Bytes) | Ciphertext(epoch: u32, ekHash: Hash8, ct: Bytes)

  /** The PQ-ratchet section: the epoch and index that keyed the message, and an exchange field. */
  datatype Pq = Pq(epoch: u32, index: u32, field: Option<PqField>)

  const NO_PQ: Pq := Pq(0, 0, None)

  datatype Payload = Payload(
    messageNumber: u32, dhPublicKey: Bytes, oneTimePrekeyId: u32, kyberOtpkId: u32, previousChainLength: u32, suiteId: u16,
    kemCiphertext: Option<Bytes>, pqxdhV2: bool, kemIdentity: Option<Bytes>, identityProof: Option<Bytes>,
    sealedBox: Bytes, pq: Pq, adVersion: u8)

  // ----- flags -----

  /** The flag bits of a wire suite id, bits 8 to 11, as a number below 16. */
  function FlagBits(wireSuite: u16): (f: nat)
    ensures f < 16
  {
    wireSuite / 0x100 % 0x10
  }

  predicate PqxdhFlag(w: u16) { FlagBits(w) % 2 == 1 }        // 0x0100
  predicate IdentityFlag(w: u16) { FlagBits(w) / 2 % 2 == 1 } // 0x0200
  predicate ProofFlag(w: u16) { FlagBits(w) / 4 % 2 == 1 }    // 0x0400
  predicate AdV4Flag(w: u16) { FlagBits(w) / 8 == 1 }         // 0x0800

  /** The suite with every wire flag cleared. */
  function StripFlags(wireSuite: u16): u16 {
    wireSuite - 0x100 * FlagBits(wireSuite)
  }

  function WithFlags(suite: u16, pqxdh: bool, identity: bool, proof: bool, v4: bool): u16
    requires FlagBits(suite) == 0
  {
    suite + 0x100 * ((if pqxdh then 1 else 0) + (if identity then 2 else 0) + (if proof then 4 else 0) + (if v4 then 8 else 0))
  }

  lemma AddFlags(suite: u16, flags: nat)
    requires FlagBits(suite) == 0 && flags < 16
    ensures suite + 0x100 * flags < 0x1_0000 && FlagBits(suite + 0x100 * flags) == flags
  {
    var hi := suite / 0x1000;
    assert suite / 0x100 == 16 * hi;
    assert (suite + 0x100 * flags) / 0x100 == 16 * hi + flags;
  }

  /** Flags and suite are read back exactly. */
  lemma FlagsAreRead(suite: u16, pqxdh: bool, identity: bool, proof: bool, v4: bool)
    requires FlagBits(suite) == 0
    ensures var w := WithFlags(suite, pqxdh, identity, proof, v4);
            && StripFlags(w) == suite
            && PqxdhFlag(w) == pqxdh && IdentityFlag(w) == identity && ProofFlag(w) == proof && AdV4Flag(w) == v4
  {
    hide FlagBits;
    AddFlags(suite, (if pqxdh then 1 else 0) + (if identity then 2 else 0) + (if proof then 4 else 0) + (if v4 then 8 else 0));
  }

  /** Every wire value is its suite with its flags. */
  lemma FlagsAreWritten(w: u16)
    ensures FlagBits(StripFlags(w)) == 0
    ensures WithFlags(StripFlags(w), PqxdhFlag(w), IdentityFlag(w), ProofFlag(w), AdV4Flag(w)) == w
  {
    var hi, lo := w / 0x1000, w % 0x100;
    assert w / 0x100 == 16 * hi + FlagBits(w);
    assert StripFlags(w) == 0x1000 * hi + lo;
    assert StripFlags(w) / 0x100 == 16 * hi;
  }

  /** Reading the suite field with `&`: the four flags, and the suite under the mask of the rest. */
  lemma FlagsOnBits(w: u16)
    ensures PqxdhFlag(w) <==> Bits.And(w, 0x100) != 0
    ensures IdentityFlag(w) <==> Bits.And(w, 0x200) != 0
    ensures ProofFlag(w) <==> Bits.And(w, 0x400) != 0
    ensures AdV4Flag(w) <==> Bits.And(w, 0x800) != 0
    ensures Bits.And(w, 0xFFFF - 0xF00) == StripFlags(w)
  {
    hide Bits.And;
    hide Bits.Pow2;
    var hi, m, lo := w / 0x1000, FlagBits(w), w % 0x100;
    assert w == 0x100 * (16 * hi + m) + lo by {
      assert w / 0x100 == 16 * hi + m;
    }
    FlagBit(hi, m, lo, 1);
    FlagBit(hi, m, lo, 2);
    FlagBit(hi, m, lo, 4);
    FlagBit(hi, m, lo, 8);
    OneBit(m);
    MaskedBits(hi, m, lo);
  }

  lemma ByteWidths()
    ensures Bits.Pow2(4) == 16 && Bits.Pow2(8) == 0x100
  {
  }

  lemma FlagBit(hi: nat, m: nat, lo: nat, f: nat)
    requires m < 16 && f < 16 && lo < 0x100
    ensures Bits.And(0x100 * (16 * hi + m) + lo, 0x100 * f) == 0x100 * Bits.And(m, f)
  {
    hide Bits.Pow2;
    hide Bits.And;
    ByteWidths();
    Bits.AndSplit(16 * hi + m, lo, f, 0, 8);
    Bits.AndSplit(hi, m, 0, f, 4);
    Bits.AndZero(hi);
    Bits.AndZero(lo);
  }

  lemma MaskedBits(hi: nat, m: nat, lo: nat)
    requires hi < 16 && m < 16 && lo < 0x100
    ensures Bits.And(0x100 * (16 * hi + m) + lo, 0xF0FF) == 0x1000 * hi + lo
  {
    hide Bits.Pow2;
    hide Bits.And;
    ByteWidths();
    Bits.AndSplit(16 * hi + m, lo, 0xF0, 0xFF, 8);
    Bits.AndSplit(hi, m, 15, 0, 4);
    Bits.AndZero(m);
    Bits.AndOnes(hi, 4);
    Bits.AndOnes(lo, 8);
  }

  lemma OneBit(m: nat)
    requires m < 16
    ensures Bits.And(m, 1) == m % 2 && Bits.And(m, 2) == 2 * (m / 2 % 2)
    ensures Bits.And(m, 4) == 4 * (m / 4 % 2) && Bits.And(m, 8) == 8 * (m / 8)
  {
    hide Bits.And;
    Bits.AndBit(m);
    Bits.AndBit(m / 2);
    Bits.AndBit(m / 4);
    Bits.AndBit(m / 8);
    Bits.AndEven(m, 1);
    Bits.AndEven(m, 2);
    Bits.AndEven(m / 2, 1);
    Bits.AndEven(m, 4);
    Bits.AndEven(m / 2, 2);
    Bits.AndEven(m / 4, 1);
    assert m / 2 / 2 == m / 4 && m / 4 / 2 == m / 8;
  }

  function FlagIf(on: bool, flag: nat): nat {
    if on then flag else 0
  }

  /** Writing it with `|=`, flag by flag as the source does. */
  lemma WithFlagsOnBits(suite: u16, pqxdh: bool, identity: bool, proof: bool, v4: bool)
    requires FlagBits(suite) == 0
    ensures var w1 := Bits.Or(suite, FlagIf(v4, 0x800));
            var w2 := Bits.Or(w1, FlagIf(pqxdh, 0x100));
            var w3 := Bits.Or(w2, FlagIf(identity, 0x200));
            WithFlags(suite, pqxdh, identity, proof, v4) == Bits.Or(w3, FlagIf(proof, 0x400))
  {
    hide Bits.And;
    hide Bits.Or;
    hide Bits.Pow2;
    var hi, lo := suite / 0x1000, suite % 0x100;
    assert suite == 0x100 * (16 * hi + 0) + lo by {
      assert suite / 0x100 == 16 * hi;
    }
    var m1 := FlagIf(v4, 8);
    var m2 := m1 + FlagIf(pqxdh, 1);
    var m3 := m2 + FlagIf(identity, 2);
    SetFlag(hi, 0, lo, m1);
    SetFlag(hi, m1, lo, FlagIf(pqxdh, 1));
    SetFlag(hi, m2, lo, FlagIf(identity, 2));
    SetFlag(hi, m3, lo, FlagIf(proof, 4));
  }

  lemma SetFlag(hi: nat, m: nat, lo: nat, f: nat)
    requires lo < 0x100 && m < 16 && (f == 0 || (f == 1 && m % 2 == 0) || (f == 2 && m / 2 % 2 == 0) || (f == 4 && m / 4 % 2 == 0) || (f == 8 && m / 8 == 0))
    ensures Bits.Or(0x100 * (16 * hi + m) + lo, 0x100 * f) == 0x100 * (16 * hi + (m + f)) + lo
  {
    hide Bits.And;
    hide Bits.Or;
    var x := 0x100 * (16 * hi + m) + lo;
    if f == 0 {
      Bits.AndZero(x);
    } else {
      FlagBit(hi, m, lo, f);
      OneBit(m);
    }
    Bits.OrDisjoint(x, 0x100 * f);
  }

  // ----- the fixed header -----

  datatype Header = Header(messageNumber: u32, dhPublicKey: Bytes, oneTimePrekeyId: u32, kyberOtpkId: u32, kemLen: u16,
                           previousChainLength: u32, wireSuite: u16)

  function HeaderBytes(h: Header): Bytes {
    Le(h.messageNumber, 4) + h.dhPublicKey + Le(h.oneTimePrekeyId, 4) + Le(h.kyberOtpkId, 4) + Le(h.kemLen, 2)
    + Le(h.previousChainLength, 4) + Le(h.wireSuite, 2)
  }

  function U32At(data: Bytes, at: nat): u32
    requires at + 4 <= |data|
  {
    FromLeRoundTrip(data[at..at + 4]);
    Widths();
    FromLe(data[at..at + 4])
  }

  function U16At(data: Bytes, at: nat): u16
    requires at + 2 <= |data|
  {
    FromLeRoundTrip(data[at..at + 2]);
    Widths();
    FromLe(data[at..at + 2])
  }

  function ReadHeader(data: Bytes): Header
    requires |data| >= HEADER_SIZE
  {
    Header(U32At(data, 0), data[4..36], U32At(data, 36), U32At(data, 40), U16At(data, 44), U32At(data, 46), U16At(data, 50))
  }

  /** Sixteen- and thirty-two-bit little-endian fields are read back as written. */
  lemma LeFields(v: u32, w: u16)
    ensures FromLe(Le(v, 4)) == v && FromLe(Le(w, 2)) == w
  {
    Widths();
    LeRoundTrip(v, 4);
    LeRoundTrip(w, 2);
  }

  lemma HeaderIsRead(h: Header, rest: Bytes)
    requires |h.dhPublicKey| == DH_KEY_SIZE
    ensures |HeaderBytes(h)| == HEADER_SIZE && ReadHeader(HeaderBytes(h) + rest) == h
  {
    var d := HeaderBytes(h) + rest;
    assert d[0..4] == Le(h.messageNumber, 4);
    assert d[4..36] == h.dhPublicKey;
    assert d[36..40] == Le(h.oneTimePrekeyId, 4);
    assert d[40..44] == Le(h.kyberOtpkId, 4);
    assert d[44..46] == Le(h.kemLen, 2);
    assert d[46..50] == Le(h.previousChainLength, 4);
    assert d[50..52] == Le(h.wireSuite, 2);
    LeFields(h.messageNumber, h.kemLen);
    LeFields(h.oneTimePrekeyId, h.wireSuite);
    LeFields(h.kyberOtpkId, 0);
    LeFields(h.previousChainLength, 0);
  }

  lemma HeaderIsWritten(data: Bytes)
    requires |data| >= HEADER_SIZE
    ensures HeaderBytes(ReadHeader(data)) == data[..HEADER_SIZE]
  {
    hide Le;
    hide FromLe;
    FromLeRoundTrip(data[0..4]);
    FromLeRoundTrip(data[36..40]);
    FromLeRoundTrip(data[40..44]);
    FromLeRoundTrip(data[44..46]);
    FromLeRoundTrip(data[46..50]);
    FromLeRoundTrip(data[50..52]);
    Extend(data, 4, 36);
    Extend(data, 36, 40);
    Extend(data, 40, 44);
    Extend(data, 44, 46);
    Extend(data, 46, 50);
    Extend(data, 50, 52);
  }

  // ----- optional KEM identity objects -----

  function ObjectBytes(o: Option<Bytes>): Bytes {
    match o
    case None => []
    case Some(b) => Le(|b|, 2) + b
  }

  predicate ObjectFits(o: Option<Bytes>) {
    o.Some? ==> |o.value| == OBJECT_SIZE
  }

  /** Reads an object if its flag says one follows; `total` is the payload's length, for the error. */
  function ReadObject(total: nat, rest: Bytes, present: bool): (r: Result<(Option<Bytes>, Bytes), WireError>) {
    if !present then Ok((None, rest))
    else if |rest| < 2 then Err(TooShort(total))
    else
      var len := U16At(rest, 0);
      if len != OBJECT_SIZE then Err(KemIdentityObjectSize(len))
      else if |rest| < 2 + len then Err(TooShort(total))
      else Ok((Some(rest[2..2 + len]), rest[2 + len..]))
  }

  lemma ReadObjectIff(total: nat, rest: Bytes, present: bool, o: Option<Bytes>, tail: Bytes)
    ensures ReadObject(total, rest, present) == Ok((o, tail))
       <==> o.Some? == present && ObjectFits(o) && rest == ObjectBytes(o) + tail
  {
    LeFields(0, OBJECT_SIZE);
    if o.Some? && ObjectFits(o) && rest == ObjectBytes(o) + tail {
      assert rest[0..2] == Le(OBJECT_SIZE, 2);
      assert rest[2..2 + OBJECT_SIZE] == o.value;
      assert rest[2 + OBJECT_SIZE..] == tail;
    }
    if present && ReadObject(total, rest, present).Ok? {
      FromLeRoundTrip(rest[0..2]);
      assert rest == rest[0..2] + rest[2..2 + OBJECT_SIZE] + rest[2 + OBJECT_SIZE..];
    }
    if o.None? {
      assert ObjectBytes(o) + tail == tail;
    }
  }

  // ----- the PQ-ratchet section -----

  function FieldBytes(f: Option<PqField>): Bytes {
    match f
    case None => [0]
    case Some(PublicKey(epoch, key)) => [1] + Le(epoch, 4) + Le(|key|, 2) + key
    case Some(Ciphertext(epoch, ekHash, ct)) => [2] + Le(epoch, 4) + ekHash + Le(|ct|, 2) + ct
  }

  predicate FieldFits(f: Option<PqField>) {
    match f
    case None => true
    case Some(PublicKey(_, key)) => |key| <= 0xFFFF
    case Some(Ciphertext(_, _, ct)) => |ct| <= 0xFFFF
  }

  function ReadField(total: nat, rest: Bytes): (r: Result<(Option<PqField>, Bytes), WireError>) {
    if |rest| < 1 then Err(TooShort(total))
    else if rest[0] == 0 then Ok((None, rest[1..]))
    else if rest[0] == 1 then
      if |rest| < 7 then Err(TooShort(total))
      else
        var len := U16At(rest, 5);
        if |rest| < 7 + len then Err(TooShort(total))
        else Ok((Some(PublicKey(U32At(rest, 1), rest[7..7 + len])), rest[7 + len..]))
    else if rest[0] == 2 then
      if |rest| < 15 then Err(TooShort(total))
      else
        var len := U16At(rest, 13);
        if |rest| < 15 + len then Err(TooShort(total))
        else Ok((Some(Ciphertext(U32At(rest, 1), rest[5..13], rest[15..15 + len])), rest[15 + len..]))
    else Err(InvalidPqFieldType(rest[0]))
  }

  lemma KeyFieldIsRead(total: nat, epoch: u32, key: Bytes, tail: Bytes)
    requires |key| <= 0xFFFF
    ensures var f := Some(PublicKey(epoch, key)); ReadField(total, FieldBytes(f) + tail) == Ok((f, tail))
  {
    hide Le;
    hide FromLe;
    var rest := FieldBytes(Some(PublicKey(epoch, key))) + tail;
    LeFields(epoch, |key|);
    assert rest[1..5] == Le(epoch, 4);
    assert rest[5..7] == Le(|key|, 2);
    assert rest[7..7 + |key|] == key;
    assert rest[7 + |key|..] == tail;
  }

  lemma CiphertextFieldIsRead(total: nat, epoch: u32, ekHash: Hash8, ct: Bytes, tail: Bytes)
    requires |ct| <= 0xFFFF
    ensures var f := Some(Ciphertext(epoch, ekHash, ct)); ReadField(total, FieldBytes(f) + tail) == Ok((f, tail))
  {
    hide Le;
    hide FromLe;
    var rest := FieldBytes(Some(Ciphertext(epoch, ekHash, ct))) + tail;
    LeFields(epoch, |ct|);
    assert rest[1..5] == Le(epoch, 4);
    assert rest[5..13] == ekHash;
    assert rest[13..15] == Le(|ct|, 2);
    assert rest[15..15 + |ct|] == ct;
    assert rest[15 + |ct|..] == tail;
  }

  lemma FieldIsRead(total: nat, f: Option<PqField>, tail: Bytes)
    requires FieldFits(f)
    ensures ReadField(total, FieldBytes(f) + tail) == Ok((f, tail))
  {
    match f {
      case None => assert (FieldBytes(f) + tail)[1..] == tail;
      case Some(PublicKey(epoch, key)) =>
        hide ReadField;
        KeyFieldIsRead(total, epoch, key, tail);
      case Some(Ciphertext(epoch, ekHash, ct)) =>
        hide ReadField;
        CiphertextFieldIsRead(total, epoch, ekHash, ct, tail);
    }
  }

  lemma FieldIsWritten(total: nat, rest: Bytes)
    requires ReadField(total, rest).Ok?
    ensures var (f, tail) := ReadField(total, rest).value;
            FieldFits(f) && rest == FieldBytes(f) + tail
  {
    hide Le;
    hide FromLe;
    if rest[0] == 1 {
      var len: nat := U16At(rest, 5);
      FromLeRoundTrip(rest[1..5]);
      FromLeRoundTrip(rest[5..7]);
      Extend(rest, 1, 5);
      Extend(rest, 5, 7);
      Extend(rest, 7, 7 + len);
      Extend(rest, 7 + len, |rest|);
      assert rest[..1] == [1];
    } else if rest[0] == 2 {
      var len: nat := U16At(rest, 13);
      FromLeRoundTrip(rest[1..5]);
      FromLeRoundTrip(rest[13..15]);
      Extend(rest, 1, 5);
      Extend(rest, 5, 13);
      Extend(rest, 13, 15);
      Extend(rest, 15, 15 + len);
      Extend(rest, 15 + len, |rest|);
      assert rest[..1] == [2];
    } else {
      assert rest == [rest[0]] + rest[1..];
    }
  }

  function PqBytes(pq: Pq): Bytes {
    Le(pq.epoch, 4) + (Leb(pq.index) + FieldBytes(pq.field))
  }

  predicate PqFits(pq: Pq) {
    FieldFits(pq.field) && (pq.epoch == 0 ==> pq.index == 0)
  }

  function ReadPq(total: nat, rest: Bytes): (r: Result<(Pq, Bytes), WireError>) {
    if |rest| < 4 then Err(TooShort(total))
    else
      var epoch := U32At(rest, 0);
      match ReadFrom(total, rest[4..], 0)
      case Err(e) => Err(e)
      case Ok((index, rest')) =>
        ReadLebIff(total, rest[4..], index, rest');
        if epoch == 0 && index != 0 then Err(PqKeyIndexWithoutEpoch(index))
        else
          match ReadField(total, rest')
          case Err(e) => Err(e)
          case Ok((field, tail)) => Ok((Pq(epoch, index, field), tail))
  }

  lemma PqIsRead(total: nat, pq: Pq, tail: Bytes)
    requires FieldFits(pq.field)
    ensures ReadPq(total, PqBytes(pq) + tail)
         == if pq.epoch == 0 && pq.index != 0 then Err(PqKeyIndexWithoutEpoch(pq.index)) else Ok((pq, tail))
  {
    hide ReadField;
    hide ReadFrom;
    hide Le;
    hide FromLe;
    hide Leb;
    hide FieldBytes;
    hide FieldFits;
    var rest := PqBytes(pq) + tail;
    var after := FieldBytes(pq.field) + tail;
    LeFields(pq.epoch, 0);
    assert rest[0..4] == Le(pq.epoch, 4);
    assert rest[4..] == Leb(pq.index) + after;
    ReadLebIff(total, rest[4..], pq.index, after);
    FieldIsRead(total, pq.field, tail);
  }

  lemma PqIsWritten(total: nat, rest: Bytes)
    requires ReadPq(total, rest).Ok?
    ensures var (pq, tail) := ReadPq(total, rest).value;
            PqFits(pq) && rest == PqBytes(pq) + tail
  {
    hide ReadField;
    hide ReadFrom;
    FromLeRoundTrip(rest[0..4]);
    var (index, rest') := ReadFrom(total, rest[4..], 0).value;
    ReadLebIff(total, rest[4..], index, rest');
    FieldIsWritten(total, rest');
    assert rest == rest[0..4] + rest[4..];
  }

  // ----- the whole payload -----

  /** What any message packed by this code looks like, whether or not it can be read back. */
  predicate Shaped(m: Payload) {
    && |m.dhPublicKey| == DH_KEY_SIZE && FlagBits(m.suiteId) == 0
    && (m.kemCiphertext.Some? ==> 0 < |m.kemCiphertext.value| <= 0xFFFF)
    && (m.pqxdhV2 ==> m.kemCiphertext.Some?)
    && (m.kemIdentity.Some? ==> m.pqxdhV2)
    && ObjectFits(m.kemIdentity) && ObjectFits(m.identityProof)
    && (if m.suiteId == PQ_RATCHET_SUITE then FieldFits(m.pq.field) else m.pq == NO_PQ)
    && (m.adVersion == AD_VERSION_LEGACY || m.adVersion == AD_VERSION_HEADER)
  }

  /** ... and what a reader demands besides: no retired suite, no key index without an epoch, a sealed box. */
  predicate Readable(m: Payload) {
    m.suiteId != RETIRED_SUITE && (m.pq.epoch == 0 ==> m.pq.index == 0) && m.sealedBox != []
  }

  predicate WellFormed(m: Payload) {
    Shaped(m) && Readable(m)
  }

  function HeaderOf(m: Payload): Header
    requires Shaped(m)
  {
    Header(m.messageNumber, m.dhPublicKey, m.oneTimePrekeyId, m.kyberOtpkId,
           if m.kemCiphertext.Some? then |m.kemCiphertext.value| else 0, m.previousChainLength,
           WithFlags(m.suiteId, m.pqxdhV2, m.kemIdentity.Some?, m.identityProof.Some?, m.adVersion == AD_VERSION_HEADER))
  }

  function KemBytes(kem: Option<Bytes>): Bytes {
    if kem.Some? then kem.value else []
  }

  function PqSection(suite: u16, pq: Pq): Bytes {
    if suite == PQ_RATCHET_SUITE then PqBytes(pq) else []
  }

  /** The bytes of a message. */
  function Layout(m: Payload): Bytes
    requires Shaped(m)
  {
    HeaderBytes(HeaderOf(m))
    + (KemBytes(m.kemCiphertext)
       + (ObjectBytes(m.kemIdentity) + (ObjectBytes(m.identityProof) + (PqSection(m.suiteId, m.pq) + m.sealedBox))))
  }

  // ----- unpack -----

  /** What follows the objects: the PQ section, on its suite, and the sealed box. */
  function ReadTail(total: nat, rest: Bytes, suite: u16): (r: Result<(Pq, Bytes), WireError>) {
    if suite == RETIRED_SUITE then Err(RetiredSuite(suite))
    else
      match (if suite == PQ_RATCHET_SUITE then ReadPq(total, rest) else Ok((NO_PQ, rest)))
      case Err(e) => Err(e)
      case Ok((pq, box)) => if box == [] then Err(TooShort(total)) else Ok((pq, box))
  }

  /** What follows the header and the KEM ciphertext. */
  function ReadBody(total: nat, rest: Bytes, h: Header, kem: Option<Bytes>): (r: Result<Payload, WireError>) {
    match ReadObject(total, rest, IdentityFlag(h.wireSuite))
    case Err(e) => Err(e)
    case Ok((identity, rest1)) =>
      match ReadObject(total, rest1, ProofFlag(h.wireSuite))
      case Err(e) => Err(e)
      case Ok((proof, rest2)) =>
        var suite := StripFlags(h.wireSuite);
        match ReadTail(total, rest2, suite)
        case Err(e) => Err(e)
        case Ok((pq, box)) =>
          Ok(Payload(h.messageNumber, h.dhPublicKey, h.oneTimePrekeyId, h.kyberOtpkId, h.previousChainLength, suite,
                     kem, PqxdhFlag(h.wireSuite), identity, proof, box, pq,
                     if AdV4Flag(h.wireSuite) then AD_VERSION_HEADER else AD_VERSION_LEGACY))
  }

  function Unpack(data: Bytes): (r: Result<Payload, WireError>) {
    if |data| <= HEADER_SIZE then Err(TooShort(|data|))
    else
      var h := ReadHeader(data);
      if PqxdhFlag(h.wireSuite) && h.kemLen == 0 then Err(PqxdhFlagWithoutCiphertext)
      else if IdentityFlag(h.wireSuite) && !PqxdhFlag(h.wireSuite) then Err(KemIdentityWithoutHandshake)
      else if |data| <= HEADER_SIZE + h.kemLen then Err(TooShort(|data|))
      else
        var kem := if h.kemLen > 0 then Some(data[HEADER_SIZE..HEADER_SIZE + h.kemLen]) else None;
        ReadBody(|data|, data[HEADER_SIZE + h.kemLen..], h, kem)
  }

  lemma TailIsRead(total: nat, suite: u16, pq: Pq, box: Bytes)
    requires if suite == PQ_RATCHET_SUITE then FieldFits(pq.field) else pq == NO_PQ
    ensures var r := ReadTail(total, PqSection(suite, pq) + box, suite);
            if suite != RETIRED_SUITE && (pq.epoch == 0 ==> pq.index == 0) && box != [] then r == Ok((pq, box)) else r.Err?
  {
    hide ReadPq;
    if suite == PQ_RATCHET_SUITE {
      PqIsRead(total, pq, box);
    } else {
      assert PqSection(suite, pq) + box == box;
    }
  }

  lemma TailIsWritten(total: nat, rest: Bytes, suite: u16)
    requires ReadTail(total, rest, suite).Ok?
    ensures var (pq, box) := ReadTail(total, rest, suite).value;
            && rest == PqSection(suite, pq) + box && box != [] && suite != RETIRED_SUITE
            && (pq.epoch == 0 ==> pq.index == 0)
            && if suite == PQ_RATCHET_SUITE then FieldFits(pq.field) else pq == NO_PQ
  {
    hide ReadPq;
    if suite == PQ_RATCHET_SUITE {
      PqIsWritten(total, rest);
    } else {
      assert PqSection(suite, NO_PQ) + rest == rest;
    }
  }

  lemma BodyIsRead(total: nat, m: Payload)
    requires Shaped(m)
    ensures var rest := ObjectBytes(m.kemIdentity) + (ObjectBytes(m.identityProof) + (PqSection(m.suiteId, m.pq) + m.sealedBox));
            var r := ReadBody(total, rest, HeaderOf(m), m.kemCiphertext);
            if Readable(m) then r == Ok(m) else r.Err?
  {
    hide ReadObject;
    hide ReadTail;
    hide FlagBits;
    var tail := PqSection(m.suiteId, m.pq) + m.sealedBox;
    var rest1 := ObjectBytes(m.identityProof) + tail;
    FlagsAreRead(m.suiteId, m.pqxdhV2, m.kemIdentity.Some?, m.identityProof.Some?, m.adVersion == AD_VERSION_HEADER);
    ReadObjectIff(total, ObjectBytes(m.kemIdentity) + rest1, m.kemIdentity.Some?, m.kemIdentity, rest1);
    ReadObjectIff(total, rest1, m.identityProof.Some?, m.identityProof, tail);
    TailIsRead(total, m.suiteId, m.pq, m.sealedBox);
  }

  lemma BodyIsWritten(total: nat, rest: Bytes, h: Header, kem: Option<Bytes>)
    requires |h.dhPublicKey| == DH_KEY_SIZE
    requires PqxdhFlag(h.wireSuite) ==> kem.Some?
    requires IdentityFlag(h.wireSuite) ==> PqxdhFlag(h.wireSuite)
    requires kem.Some? ==> 0 < |kem.value| == h.kemLen
    requires kem.None? ==> h.kemLen == 0
    requires ReadBody(total, rest, h, kem).Ok?
    ensures var m := ReadBody(total, rest, h, kem).value;
            && WellFormed(m) && HeaderOf(m) == h && m.kemCiphertext == kem
            && rest == ObjectBytes(m.kemIdentity) + (ObjectBytes(m.identityProof) + (PqSection(m.suiteId, m.pq) + m.sealedBox))
  {
    hide ReadObject;
    hide ReadTail;
    hide FlagBits;
    FlagsAreWritten(h.wireSuite);
    var (identity, rest1) := ReadObject(total, rest, IdentityFlag(h.wireSuite)).value;
    ReadObjectIff(total, rest, IdentityFlag(h.wireSuite), identity, rest1);
    var (proof, rest2) := ReadObject(total, rest1, ProofFlag(h.wireSuite)).value;
    ReadObjectIff(total, rest1, ProofFlag(h.wireSuite), proof, rest2);
    TailIsWritten(total, rest2, StripFlags(h.wireSuite));
  }

  /** Every shaped message reads back as itself, if readable, and is refused, never misread, if not. */
  lemma LayoutIsUnpacked(m: Payload)
    requires Shaped(m)
    ensures if Readable(m) then Unpack(Layout(m)) == Ok(m) else Unpack(Layout(m)).Err?
  {
    hide ReadBody;
    hide ReadHeader;
    hide HeaderBytes;
    hide FlagBits;
    hide ObjectBytes;
    hide PqSection;
    var h := HeaderOf(m);
    var kem := KemBytes(m.kemCiphertext);
    var rest := ObjectBytes(m.kemIdentity) + (ObjectBytes(m.identityProof) + (PqSection(m.suiteId, m.pq) + m.sealedBox));
    var data := Layout(m);
    HeaderIsRead(h, kem + rest);
    FlagsAreRead(m.suiteId, m.pqxdhV2, m.kemIdentity.Some?, m.identityProof.Some?, m.adVersion == AD_VERSION_HEADER);
    assert data[HEADER_SIZE..HEADER_SIZE + h.kemLen] == kem;
    assert data[HEADER_SIZE + h.kemLen..] == rest;
    BodyIsRead(|data|, m);
  }

  /** What unpacks is well formed and is the layout of what it unpacked to. */
  lemma UnpackedIsLayout(data: Bytes)
    requires Unpack(data).Ok?
    ensures WellFormed(Unpack(data).value) && data == Layout(Unpack(data).value)
  {
    hide ReadBody;
    hide ReadHeader;
    hide HeaderBytes;
    hide FlagBits;
    hide ObjectBytes;
    hide PqSection;
    var h := ReadHeader(data);
    var kem := if h.kemLen > 0 then Some(data[HEADER_SIZE..HEADER_SIZE + h.kemLen]) else None;
    HeaderIsWritten(data);
    HeaderKeyLength(data);
    BodyIsWritten(|data|, data[HEADER_SIZE + h.kemLen..], h, kem);
    assert data == data[..HEADER_SIZE] + (data[HEADER_SIZE..HEADER_SIZE + h.kemLen] + data[HEADER_SIZE + h.kemLen..]);
  }

  lemma HeaderKeyLength(data: Bytes)
    requires |data| >= HEADER_SIZE
    ensures |ReadHeader(data).dhPublicKey| == DH_KEY_SIZE
  {
  }

  /** `unpack` is exactly the inverse of the layout on well-formed messages. */
  lemma UnpackIff(data: Bytes, m: Payload)
    ensures Unpack(data) == Ok(m) <==> WellFormed(m) && data == Layout(m)
  {
    hide Unpack;
    hide Layout;
    if Unpack(data) == Ok(m) {
      UnpackedIsLayout(data);
    }
    if WellFormed(m) && data == Layout(m) {
      LayoutIsUnpacked(m);
    }
  }

  // ----- pack -----

  /** The arguments of `pack_message`; the flags are not among them. */
  datatype Draft = Draft(
    adVersion: u8, dhPublicKey: Bytes, messageNumber: u32, oneTimePrekeyId: u32, kyberOtpkId: u32, previousChainLength: u32,
    suiteId: u16, kemCiphertext: Option<Bytes>, kemIdentity: Option<Bytes>, identityProof: Option<Bytes>, sealedBox: Bytes, pq: Pq)

  function KemLen(t: Draft): nat {
    |KemBytes(t.kemCiphertext)|
  }

  /** Why a draft is refused, in the order the source checks; `None` if it is not. */
  function Refusal(t: Draft): Option<WireError> {
    if |t.dhPublicKey| != DH_KEY_SIZE then Some(InvalidDhPublicKey(|t.dhPublicKey|))
    else if KemLen(t) > 0xFFFF then Some(KemTooLarge(KemLen(t)))
    else if t.kemIdentity.Some? && KemLen(t) == 0 then Some(KemIdentityWithoutHandshake)
    else if !ObjectFits(t.kemIdentity) then Some(KemIdentityObjectSize(|t.kemIdentity.value|))
    else if !ObjectFits(t.identityProof) then Some(KemIdentityObjectSize(|t.identityProof.value|))
    else if StripFlags(t.suiteId) == PQ_RATCHET_SUITE && !FieldFits(t.pq.field) then Some(PqFieldTooLarge(FieldLen(t.pq.field)))
    else None
  }

  function FieldLen(f: Option<PqField>): nat {
    match f
    case None => 0
    case Some(PublicKey(_, key)) => |key|
    case Some(Ciphertext(_, _, ct)) => |ct|
  }

  /** The message a draft stands for: flags from what is present, the PQ section only on its suite. */
  function Normalised(t: Draft): (m: Payload) {
    var suite := StripFlags(t.suiteId);
    var kem := if KemLen(t) > 0 then t.kemCiphertext else None;
    Payload(t.messageNumber, t.dhPublicKey, t.oneTimePrekeyId, t.kyberOtpkId, t.previousChainLength, suite,
            kem, kem.Some?, t.kemIdentity, t.identityProof, t.sealedBox,
            if suite == PQ_RATCHET_SUITE then t.pq else NO_PQ,
            if t.adVersion >= AD_VERSION_HEADER then AD_VERSION_HEADER else AD_VERSION_LEGACY)
  }

  lemma NormalisedIsShaped(t: Draft)
    requires Refusal(t).None?
    ensures Shaped(Normalised(t))
  {
    hide FlagBits;
    FlagsAreWritten(t.suiteId);
  }

  /** What `pack_message` answers. */
  function Pack(t: Draft): (r: Result<Bytes, WireError>) {
    if Refusal(t).Some? then Err(Refusal(t).value)
    else
      NormalisedIsShaped(t);
      Ok(Layout(Normalised(t)))
  }

  /** The draft that says what a received message says. */
  function DraftOf(m: Payload): Draft {
    Draft(m.adVersion, m.dhPublicKey, m.messageNumber, m.oneTimePrekeyId, m.kyberOtpkId, m.previousChainLength, m.suiteId,
          m.kemCiphertext, m.kemIdentity, m.identityProof, m.sealedBox, m.pq)
  }

  /**
   Round trip: of the drafts that pack, exactly those with a live suite, no key index without an
   epoch and a sealed box read back, as their normalised message; the rest are refused.
   */
  lemma PackRoundTrip(t: Draft)
    requires Pack(t).Ok?
    ensures if Readable(Normalised(t)) then Unpack(Pack(t).value) == Ok(Normalised(t)) else Unpack(Pack(t).value).Err?
  {
    hide Unpack;
    hide Layout;
    hide Readable;
    hide Shaped;
    NormalisedIsShaped(t);
    LayoutIsUnpacked(Normalised(t));
  }

  /**
   Canonicity: a received message packs again, and to the very bytes it came in exactly when the
   handshake flag agrees with the presence of a KEM ciphertext.
   */
  lemma RepackIff(data: Bytes)
    requires Unpack(data).Ok?
    ensures var m := Unpack(data).value;
            Pack(DraftOf(m)).Ok? && (Pack(DraftOf(m)) == Ok(data) <==> m.pqxdhV2 == m.kemCiphertext.Some?)
  {
    hide Unpack;
    hide Layout;
    hide FlagBits;
    UnpackedIsLayout(data);
    var m := Unpack(data).value;
    var n := Normalised(DraftOf(m));
    StripsNothing(m.suiteId);
    assert n == m.(pqxdhV2 := m.kemCiphertext.Some?);
    NormalisedIsShaped(DraftOf(m));
    assert Readable(n);
    UnpackIff(Layout(n), n);
  }

  lemma StripsNothing(suite: u16)
    requires FlagBits(suite) == 0
    ensures StripFlags(suite) == suite
  {
  }

  /** No two byte strings unpack alike: a relay cannot alter a payload and leave its message. */
  lemma UnpackInjective(x: Bytes, y: Bytes)
    requires Unpack(x).Ok? && Unpack(x) == Unpack(y)
    ensures x == y
  {
    hide Unpack;
    hide Layout;
    UnpackedIsLayout(x);
    UnpackedIsLayout(y);
  }

  /** The exception of `RepackIff` is inhabited: a ciphertext without the handshake flag is read, and packs to other bytes. */
  lemma UnflaggedCiphertextIsRead(m: Payload)
    requires WellFormed(m) && m.kemCiphertext.Some? && m.kemIdentity.None?
    ensures var bare := m.(pqxdhV2 := false);
            && Unpack(Layout(bare)) == Ok(bare)
            && Pack(DraftOf(bare)) == Ok(Layout(m.(pqxdhV2 := true)))
            && Layout(bare) != Layout(m.(pqxdhV2 := true))
  {
    hide Unpack;
    hide Layout;
    hide FlagBits;
    var bare := m.(pqxdhV2 := false);
    var flagged := m.(pqxdhV2 := true);
    UnpackIff(Layout(bare), bare);
    UnpackIff(Layout(flagged), flagged);
    StripsNothing(m.suiteId);
    assert Normalised(DraftOf(bare)) == flagged;
  }

  // ----- the code -----

  /** The PQ-ratchet section of `pack_message`: its bytes, or the length of a field too long for its prefix. */
  method PackSection(pq: Pq) returns (r: Result<Bytes, WireError>)
    ensures r == if FieldLen(pq.field) > 0xFFFF then Err(PqFieldTooLarge(FieldLen(pq.field))) else Ok(PqBytes(pq))
  {
    var b := Le(pq.epoch, 4);
    b := WriteLeb128(b, pq.index);
    match pq.field {
      case None => b := b + [0];
      case Some(PublicKey(epoch, key)) =>
        if |key| > 0xFFFF {
          return Err(PqFieldTooLarge(|key|));
        }
        b := b + [1];
        b := b + Le(epoch, 4);
        b := b + Le(|key|, 2);
        b := b + key;
      case Some(Ciphertext(epoch, ekHash, ct)) =>
        if |ct| > 0xFFFF {
          return Err(PqFieldTooLarge(|ct|));
        }
        b := b + [2];
        b := b + Le(epoch, 4);
        b := b + ekHash;
        b := b + Le(|ct|, 2);
        b := b + ct;
    }
    assert b == Le(pq.epoch, 4) + (Leb(pq.index) + FieldBytes(pq.field));
    return Ok(b);
  }

  /** `pack_message`: grows the payload section by section. */
  method PackMessage(t: Draft) returns (r: Result<Bytes, WireError>)
    ensures r == Pack(t)
  {
    hide FlagBits;
    hide Le;
    hide ObjectBytes;
    hide PqBytes;
    hide StripFlags;
    hide WithFlags;
    if |t.dhPublicKey| != DH_KEY_SIZE {
      return Err(InvalidDhPublicKey(|t.dhPublicKey|));
    }
    var kemLen := if t.kemCiphertext.Some? then |t.kemCiphertext.value| else 0;
    if kemLen > 0xFFFF {
      return Err(KemTooLarge(kemLen));
    }
    if t.kemIdentity.Some? && kemLen == 0 {
      return Err(KemIdentityWithoutHandshake);
    }
    if t.kemIdentity.Some? && |t.kemIdentity.value| != OBJECT_SIZE {
      return Err(KemIdentityObjectSize(|t.kemIdentity.value|));
    }
    if t.identityProof.Some? && |t.identityProof.value| != OBJECT_SIZE {
      return Err(KemIdentityObjectSize(|t.identityProof.value|));
    }
    var suite := StripFlags(t.suiteId);
    FlagsAreWritten(t.suiteId);
    var wireSuite := WithFlags(suite, kemLen > 0, t.kemIdentity.Some?, t.identityProof.Some?, t.adVersion >= AD_VERSION_HEADER);

    var section: Bytes := [];
    if suite == PQ_RATCHET_SUITE {
      var packed := PackSection(t.pq);
      if packed.Err? {
        return Err(packed.error);
      }
      section := packed.value;
    }
    ghost var m := Normalised(t);
    NormalisedIsShaped(t);

    var payload := Le(t.messageNumber, 4);
    payload := payload + t.dhPublicKey;
    payload := payload + Le(t.oneTimePrekeyId, 4);
    payload := payload + Le(t.kyberOtpkId, 4);
    payload := payload + Le(kemLen, 2);
    payload := payload + Le(t.previousChainLength, 4);
    payload := payload + Le(wireSuite, 2);
    assert payload == HeaderBytes(HeaderOf(m));
    payload := payload + KemBytes(t.kemCiphertext);
    payload := payload + ObjectBytes(t.kemIdentity);
    payload := payload + ObjectBytes(t.identityProof);
    payload := payload + section;
    payload := payload + t.sealedBox;
    Associate(HeaderBytes(HeaderOf(m)), KemBytes(t.kemCiphertext), ObjectBytes(t.kemIdentity), ObjectBytes(t.identityProof),
              section, t.sealedBox);
    return Ok(payload);
  }

  lemma Associate(a: Bytes, b: Bytes, c: Bytes, d: Bytes, e: Bytes, f: Bytes)
    ensures a + b + c + d + e + f == a + (b + (c + (d + (e + f))))
  {
  }

  lemma FromCursor(data: Bytes, cursor: nat, at: nat, n: nat)
    requires cursor + at + n <= |data|
    ensures data[cursor..][at..at + n] == data[cursor + at..cursor + at + n]
    ensures data[cursor..][at + n..] == data[cursor + at + n..]
  {
  }

  /** The `kem_identity_object` closure of `unpack`: reads at the cursor and moves it. */
  method ReadObjectAt(data: Bytes, cursor: nat, present: bool) returns (r: Result<(Option<Bytes>, nat), WireError>)
    requires cursor <= |data|
    ensures match ReadObject(|data|, data[cursor..], present)
            case Err(e) => r == Err(e)
            case Ok((o, rest)) => r.Ok? && r.value.0 == o && cursor <= r.value.1 <= |data| && rest == data[r.value.1..]
  {
    if !present {
      return Ok((None, cursor));
    }
    if |data| < cursor + 2 {
      return Err(TooShort(|data|));
    }
    FromCursor(data, cursor, 0, 2);
    var len := U16At(data, cursor);
    if len != OBJECT_SIZE {
      return Err(KemIdentityObjectSize(len));
    }
    var at := cursor + 2;
    if |data| < at + len {
      return Err(TooShort(|data|));
    }
    FromCursor(data, cursor, 2, len);
    return Ok((Some(data[at..at + len]), at + len));
  }

  /** The exchange field at the cursor. */
  method ReadFieldAt(data: Bytes, cursor: nat) returns (r: Result<(Option<PqField>, nat), WireError>)
    requires cursor <= |data|
    ensures match ReadField(|data|, data[cursor..])
            case Err(e) => r == Err(e)
            case Ok((f, rest)) => r.Ok? && r.value.0 == f && cursor <= r.value.1 <= |data| && rest == data[r.value.1..]
  {
    if |data| < cursor + 1 {
      return Err(TooShort(|data|));
    }
    var typ := data[cursor];
    var at := cursor + 1;
    if typ == 0 {
      FromCursor(data, cursor, 0, 1);
      return Ok((None, at));
    } else if typ == 1 {
      if |data| < at + 6 {
        return Err(TooShort(|data|));
      }
      FromCursor(data, cursor, 1, 4);
      FromCursor(data, cursor, 5, 2);
      var epoch, len := U32At(data, at), U16At(data, at + 4);
      at := at + 6;
      if |data| < at + len {
        return Err(TooShort(|data|));
      }
      FromCursor(data, cursor, 7, len);
      return Ok((Some(PublicKey(epoch, data[at..at + len])), at + len));
    } else if typ == 2 {
      if |data| < at + 14 {
        return Err(TooShort(|data|));
      }
      FromCursor(data, cursor, 1, 4);
      FromCursor(data, cursor, 5, 8);
      FromCursor(data, cursor, 13, 2);
      var epoch, ekHash, len := U32At(data, at), data[at + 4..at + 12], U16At(data, at + 12);
      at := at + 14;
      if |data| < at + len {
        return Err(TooShort(|data|));
      }
      FromCursor(data, cursor, 15, len);
      return Ok((Some(Ciphertext(epoch, ekHash, data[at..at + len])), at + len));
    } else {
      return Err(InvalidPqFieldType(typ));
    }
  }

  /** The PQ-ratchet section at the cursor. */
  method ReadPqAt(data: Bytes, cursor: nat) returns (r: Result<(Pq, nat), WireError>)
    requires cursor <= |data|
    ensures match ReadPq(|data|, data[cursor..])
            case Err(e) => r == Err(e)
            case Ok((pq, rest)) => r.Ok? && r.value.0 == pq && cursor <= r.value.1 <= |data| && rest == data[r.value.1..]
  {
    hide ReadFrom;
    hide ReadField;
    if |data| < cursor + 4 {
      return Err(TooShort(|data|));
    }
    FromCursor(data, cursor, 0, 4);
    var epoch := U32At(data, cursor);
    var index := ReadLeb128(data, cursor + 4);
    if index.Err? {
      return Err(index.error);
    }
    if epoch == 0 && index.value.0 != 0 {
      return Err(PqKeyIndexWithoutEpoch(index.value.0));
    }
    var field := ReadFieldAt(data, index.value.1);
    if field.Err? {
      return Err(field.error);
    }
    return Ok((Pq(epoch, index.value.0, field.value.0), field.value.1));
  }

  /** `unpack`: reads the header at fixed offsets, then moves a cursor over the optional sections. */
  method UnpackMessage(data: Bytes) returns (r: Result<Payload, WireError>)
    ensures r == Unpack(data)
  {
    hide ReadObject;
    hide ReadPq;
    hide FlagBits;
    if |data| <= HEADER_SIZE {
      return Err(TooShort(|data|));
    }
    var h := ReadHeader(data);
    var suite := StripFlags(h.wireSuite);
    if PqxdhFlag(h.wireSuite) && h.kemLen == 0 {
      return Err(PqxdhFlagWithoutCiphertext);
    }
    if IdentityFlag(h.wireSuite) && !PqxdhFlag(h.wireSuite) {
      return Err(KemIdentityWithoutHandshake);
    }
    if |data| <= HEADER_SIZE + h.kemLen {
      return Err(TooShort(|data|));
    }
    var kem := if h.kemLen > 0 then Some(data[HEADER_SIZE..HEADER_SIZE + h.kemLen]) else None;
    var cursor := HEADER_SIZE + h.kemLen;
    var identity := ReadObjectAt(data, cursor, IdentityFlag(h.wireSuite));
    if identity.Err? {
      return Err(identity.error);
    }
    cursor := identity.value.1;
    var proof := ReadObjectAt(data, cursor, ProofFlag(h.wireSuite));
    if proof.Err? {
      return Err(proof.error);
    }
    cursor := proof.value.1;
    if suite == RETIRED_SUITE {
      return Err(RetiredSuite(suite));
    }
    var pq := NO_PQ;
    if suite == PQ_RATCHET_SUITE {
      var section := ReadPqAt(data, cursor);
      if section.Err? {
        return Err(section.error);
      }
      pq, cursor := section.value.0, section.value.1;
    }
    if |data| <= cursor {
      return Err(TooShort(|data|));
    }
    return Ok(Payload(h.messageNumber, h.dhPublicKey, h.oneTimePrekeyId, h.kyberOtpkId, h.previousChainLength, suite,
                      kem, PqxdhFlag(h.wireSuite), identity.value.0, proof.value.0, data[cursor..], pq,
                      if AdV4Flag(h.wireSuite) then AD_VERSION_HEADER else AD_VERSION_LEGACY));
  }

  // ----- byte for byte -----

  /** The suite field says the suite under the mask of the flags, and the flags by their bits. */
  predicate SuiteFieldSays(w: u16, m: Payload) {
    && Bits.And(w, 0xF0FF) == m.suiteId
    && (Bits.And(w, 0x100) != 0 <==> m.pqxdhV2) && (Bits.And(w, 0x200) != 0 <==> m.kemIdentity.Some?)
    && (Bits.And(w, 0x400) != 0 <==> m.identityProof.Some?) && (Bits.And(w, 0x800) != 0 <==> m.adVersion == 4)
  }

  lemma SuiteFieldIs(m: Payload)
    requires Shaped(m)
    ensures SuiteFieldSays(HeaderOf(m).wireSuite, m)
  {
    hide FlagBits;
    hide Bits.And;
    hide WithFlags;
    FlagsAreRead(m.suiteId, m.pqxdhV2, m.kemIdentity.Some?, m.identityProof.Some?, m.adVersion == AD_VERSION_HEADER);
    FlagsOnBits(HeaderOf(m).wireSuite);
  }

  /** The fixed header: little-endian numbers at fixed places around the ratchet key. */
  lemma HeaderLayout(m: Payload)
    requires Shaped(m)
    ensures var b := Layout(m);
            var kem := if m.kemCiphertext.Some? then m.kemCiphertext.value else [];
            && Slice(b, 0, 4) == Le(m.messageNumber, 4) && Slice(b, 4, 36) == m.dhPublicKey
            && Slice(b, 36, 40) == Le(m.oneTimePrekeyId, 4) && Slice(b, 40, 44) == Le(m.kyberOtpkId, 4)
            && Slice(b, 44, 46) == Le(|kem|, 2) && Slice(b, 46, 50) == Le(m.previousChainLength, 4)
            && (exists w: u16 :: Slice(b, 50, 52) == Le(w, 2) && SuiteFieldSays(w, m))
            && Slice(b, 52, 52 + |kem|) == kem
  {
    hide Le;
    hide Slice;
    hide EndsWith;
    hide SuiteFieldSays;
    hide WithFlags;
    hide ObjectBytes;
    hide PqSection;
    SuiteFieldIs(m);
    var b, h, kem := Layout(m), HeaderOf(m), KemBytes(m.kemCiphertext);
    var rest := ObjectBytes(m.kemIdentity) + (ObjectBytes(m.identityProof) + (PqSection(m.suiteId, m.pq) + m.sealedBox));
    var r6 := kem + rest;
    var r5 := Le(h.wireSuite, 2) + r6;
    var r4 := Le(h.previousChainLength, 4) + r5;
    var r3 := Le(h.kemLen, 2) + r4;
    var r2 := Le(h.kyberOtpkId, 4) + r3;
    var r1 := Le(h.oneTimePrekeyId, 4) + r2;
    var r0 := h.dhPublicKey + r1;
    assert b == Le(h.messageNumber, 4) + r0;
    Whole(b, Le(h.messageNumber, 4) + r0);
    PieceAt(b, 0, Le(h.messageNumber, 4), r0);
    PieceAt(b, 4, h.dhPublicKey, r1);
    PieceAt(b, 36, Le(h.oneTimePrekeyId, 4), r2);
    PieceAt(b, 40, Le(h.kyberOtpkId, 4), r3);
    PieceAt(b, 44, Le(h.kemLen, 2), r4);
    PieceAt(b, 46, Le(h.previousChainLength, 4), r5);
    PieceAt(b, 50, Le(h.wireSuite, 2), r6);
    PieceAt(b, 52, kem, rest);
  }

  /** After the ciphertext: the two optional objects, the section of suite 4, and the sealed box. */
  lemma SectionsLayout(m: Payload)
    requires Shaped(m)
    ensures var b := Layout(m);
            var p0 := 52 + |KemBytes(m.kemCiphertext)|;
            var p1 := p0 + if m.kemIdentity.Some? then 1570 else 0;
            var p2 := p1 + if m.identityProof.Some? then 1570 else 0;
            && (m.kemIdentity.Some? ==> Slice(b, p0, p0 + 2) == Le(1568, 2) && Slice(b, p0 + 2, p1) == m.kemIdentity.value)
            && (m.identityProof.Some? ==> Slice(b, p1, p1 + 2) == Le(1568, 2) && Slice(b, p1 + 2, p2) == m.identityProof.value)
            && EndsWith(b, p2, (if m.suiteId == 4 then PqBytes(m.pq) else []) + m.sealedBox)
  {
    hide Le;
    hide Slice;
    hide EndsWith;
    hide PqBytes;
    hide HeaderBytes;
    hide WithFlags;
    var b, kem := Layout(m), KemBytes(m.kemCiphertext);
    var r2 := PqSection(m.suiteId, m.pq) + m.sealedBox;
    var r1 := ObjectBytes(m.identityProof) + r2;
    var r0 := ObjectBytes(m.kemIdentity) + r1;
    HeaderIs52(HeaderOf(m));
    Whole(b, HeaderBytes(HeaderOf(m)) + (kem + r0));
    PieceAt(b, 0, HeaderBytes(HeaderOf(m)), kem + r0);
    PieceAt(b, 52, kem, r0);
    ObjectAt(b, 52 + |kem|, m.kemIdentity, r1);
    ObjectAt(b, 52 + |kem| + if m.kemIdentity.Some? then 1570 else 0, m.identityProof, r2);
  }

  lemma HeaderIs52(h: Header)
    ensures |HeaderBytes(h)| == 20 + |h.dhPublicKey|
  {
    hide Le;
  }

  lemma ObjectAt(b: Bytes, at: nat, o: Option<Bytes>, rest: Bytes)
    requires EndsWith(b, at, ObjectBytes(o) + rest) && ObjectFits(o)
    ensures o.Some? ==> Slice(b, at, at + 2) == Le(1568, 2) && Slice(b, at + 2, at + 1570) == o.value
    ensures EndsWith(b, at + if o.Some? then 1570 else 0, rest)
  {
    hide Le;
    hide Slice;
    hide EndsWith;
    if o.Some? {
      assert ObjectBytes(o) + rest == Le(1568, 2) + (o.value + rest);
      PieceAt(b, at, Le(1568, 2), o.value + rest);
      PieceAt(b, at + 2, o.value, rest);
    } else {
      assert ObjectBytes(o) + rest == rest;
    }
  }

  /** The ratchet section: epoch, index in its one encoding, and the field by its type. */
  lemma PqLayout(pq: Pq)
    ensures PqBytes(pq) == Le(pq.epoch, 4) + (Leb(pq.index) + match pq.field
                                                             case None => [0]
                                                             case Some(PublicKey(epoch, key)) => [1] + Le(epoch, 4) + Le(|key|, 2) + key
                                                             case Some(Ciphertext(epoch, hash, ct)) =>
                                                               [2] + Le(epoch, 4) + hash + Le(|ct|, 2) + ct)
  {
    hide Le;
    hide Leb;
  }

  /** Which messages unpack: every condition, in numbers. */
  lemma WellFormedIff(m: Payload)
    ensures WellFormed(m)
       <==> && |m.dhPublicKey| == 32 && Bits.And(m.suiteId, 0xF0FF) == m.suiteId && m.suiteId != 3
            && (m.kemCiphertext.Some? ==> 0 < |m.kemCiphertext.value| <= 0xFFFF)
            && (m.pqxdhV2 ==> m.kemCiphertext.Some?) && (m.kemIdentity.Some? ==> m.pqxdhV2)
            && (m.kemIdentity.Some? ==> |m.kemIdentity.value| == 1568) && (m.identityProof.Some? ==> |m.identityProof.value| == 1568)
            && (m.suiteId != 4 ==> m.pq == Pq(0, 0, None)) && (m.pq.epoch == 0 ==> m.pq.index == 0)
            && (m.pq.field.Some? ==> if m.pq.field.value.PublicKey? then |m.pq.field.value.key| <= 0xFFFF else |m.pq.field.value.ct| <= 0xFFFF)
            && m.sealedBox != [] && (m.adVersion == 3 || m.adVersion == 4)
  {
    hide Bits.And;
    FlagsOnBits(m.suiteId);
  }

  /** What a packed message says once it is read: what was given, with flags from presence and ratchet fields on suite 4 only. */
  lemma PackedSays(t: Draft)
    requires Pack(t).Ok? && Unpack(Pack(t).value).Ok?
    ensures var m := Unpack(Pack(t).value).value;
            && m.messageNumber == t.messageNumber && m.dhPublicKey == t.dhPublicKey && m.oneTimePrekeyId == t.oneTimePrekeyId
            && m.kyberOtpkId == t.kyberOtpkId && m.previousChainLength == t.previousChainLength
            && m.suiteId == Bits.And(t.suiteId, 0xF0FF) && m.sealedBox == t.sealedBox
            && m.kemCiphertext == (if t.kemCiphertext == Some([]) then None else t.kemCiphertext) && m.pqxdhV2 == m.kemCiphertext.Some?
            && m.kemIdentity == t.kemIdentity && m.identityProof == t.identityProof
            && m.pq == (if m.suiteId == 4 then t.pq else Pq(0, 0, None)) && m.adVersion == (if t.adVersion >= 4 then 4 else 3)
  {
    hide Unpack;
    hide Pack;
    hide Readable;
    hide Bits.And;
    PackRoundTrip(t);
    FlagsOnBits(t.suiteId);
  }

  /** What is not packed, and why, in the order of the checks. */
  lemma PackRefusesAs(t: Draft)
    requires Pack(t).Err?
    ensures var kem := if t.kemCiphertext.Some? then |t.kemCiphertext.value| else 0;
            Pack(t).error ==
            if |t.dhPublicKey| != 32 then InvalidDhPublicKey(|t.dhPublicKey|)
            else if kem > 0xFFFF then KemTooLarge(kem)
            else if t.kemIdentity.Some? && kem == 0 then KemIdentityWithoutHandshake
            else if t.kemIdentity.Some? && |t.kemIdentity.value| != 1568 then KemIdentityObjectSize(|t.kemIdentity.value|)
            else if t.identityProof.Some? && |t.identityProof.value| != 1568 then KemIdentityObjectSize(|t.identityProof.value|)
            else PqFieldTooLarge(match t.pq.field
                                 case None => 0
                                 case Some(PublicKey(_, key)) => |key|
                                 case Some(Ciphertext(_, _, ct)) => |ct|)
  {
    hide FlagBits;
    hide Layout;
  }

  /** What is packed: fields that fit, a ciphertext with an identity, and on suite 4 an exchange field that fits. */
  lemma PacksIff(t: Draft)
    ensures var kem := if t.kemCiphertext.Some? then |t.kemCiphertext.value| else 0;
            Pack(t).Ok? <==>
            && |t.dhPublicKey| == 32 && kem <= 0xFFFF && (t.kemIdentity.Some? ==> kem > 0)
            && (t.kemIdentity.Some? ==> |t.kemIdentity.value| == 1568) && (t.identityProof.Some? ==> |t.identityProof.value| == 1568)
            && (Bits.And(t.suiteId, 0xF0FF) == 4 && t.pq.field.Some? ==>
                if t.pq.field.value.PublicKey? then |t.pq.field.value.key| <= 0xFFFF else |t.pq.field.value.ct| <= 0xFFFF)
  {
    hide FlagBits;
    hide Layout;
    hide Bits.And;
    FlagsOnBits(t.suiteId);
  }

  /** How `unpack` refuses by the header alone. */
  lemma UnpackRefusesAs(data: Bytes)
    ensures |data| <= 52 ==> Unpack(data) == Err(TooShort(|data|))
    ensures |data| > 52 ==>
              var k, w := U16At(data, 44), U16At(data, 50);
              var pqxdh, identity := Bits.And(w, 0x100) != 0, Bits.And(w, 0x200) != 0;
              && (pqxdh && k == 0 ==> Unpack(data) == Err(PqxdhFlagWithoutCiphertext))
              && (identity && !pqxdh ==> Unpack(data) == Err(KemIdentityWithoutHandshake))
              && (!(pqxdh && k == 0) && !(identity && !pqxdh) && |data| <= 52 + k ==> Unpack(data) == Err(TooShort(|data|)))
              && (!pqxdh && !identity && Bits.And(w, 0x400) == 0 && Bits.And(w, 0xF0FF) == 3 && |data| > 52 + k ==>
                  Unpack(data) == Err(RetiredSuite(3)))
  {
    hide FlagBits;
    hide U16At;
    hide U32At;
    hide Bits.And;
    hide ReadPq;
    if |data| > 52 {
      FlagsOnBits(U16At(data, 50));
    }
  }

  /** How the parts behind the header are refused. */
  lemma PartsRefusedAs(total: nat, rest: Bytes)
    ensures ReadObject(total, rest, true).Err? ==>
              ReadObject(total, rest, true).error == if |rest| >= 2 && U16At(rest, 0) != 1568 then KemIdentityObjectSize(U16At(rest, 0)) else TooShort(total)
    ensures ReadField(total, rest).Err? ==>
              ReadField(total, rest).error == if rest != [] && rest[0] > 2 then InvalidPqFieldType(rest[0]) else TooShort(total)
    ensures ReadTail(total, rest, 3) == Err(RetiredSuite(3))
    ensures |rest| < 4 ==> ReadTail(total, rest, 4) == Err(TooShort(total))
    ensures rest == [] ==> ReadTail(total, rest, 1) == Err(TooShort(total))
  {
    hide U16At;
    hide U32At;
  }
}
