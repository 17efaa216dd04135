/** Media blobs: a file padded to a Padmé length under an AEAD, and the unpadding that undoes exactly that. */
module Media {
  import opened ByteStrings
  import opened Bits
  import Padme

  const KEY_LEN: nat := 32
  const NONCE_LEN: nat := 12
  const TAG_LEN: nat := 16
  const LEN_PREFIX: nat := 8
  const OVERHEAD: nat := NONCE_LEN + TAG_LEN + LEN_PREFIX
  const MAX_BLOB_LEN: nat := 100_000_000
  const MIN_BLOB_LEN: nat := 4096
  const MAX_PLAINTEXT_LEN: nat := MAX_BLOB_LEN - OVERHEAD

  datatype MediaError = TooLarge(len: nat) | InvalidKey(len: nat) | Unauthenticated | MalformedPadding

  /** AES-256-GCM: key, nonce, associated data and text; the tag apart. */
  datatype Aead = Aead(seal: (Bytes, Bytes, Bytes, Bytes) -> (Bytes, Bytes),
                       open: (Bytes, Bytes, Bytes, Bytes, Bytes) -> Option<Bytes>)

  /** What is assumed of the AEAD: it opens what it sealed, and keeps lengths. */
  ghost predicate Correct(a: Aead) {
    forall key, nonce, ad, text ::
      var (ct, tag) := a.seal(key, nonce, ad, text);
      |ct| == |text| && |tag| == TAG_LEN && a.open(key, nonce, ad, ct, tag) == Some(text)
  }

  /** Decryption is in place: it keeps the length. */
  ghost predicate InPlace(a: Aead) {
    forall key, nonce, ad, ct, tag :: a.open(key, nonce, ad, ct, tag).Some? ==> |a.open(key, nonce, ad, ct, tag).value| == |ct|
  }

  function V1Ad(): Bytes {
    Ascii("konstruct-media-v1")
  }

  /** The size the server sees for a file. */
  function BlobLen(plaintextLen: nat): Result<nat, MediaError> {
    if plaintextLen > MAX_PLAINTEXT_LEN then Err(TooLarge(plaintextLen))
    else
      var p := Padme.Padme(plaintextLen + OVERHEAD);
      Ok(if p < MIN_BLOB_LEN then MIN_BLOB_LEN else if p > MAX_BLOB_LEN then MAX_BLOB_LEN else p)
  }

  /** Every accepted file fits its blob with the overhead, the blob is within bounds, and sizes keep their order. */
  lemma BlobLenFits(a: nat, b: nat)
    requires a <= b <= MAX_PLAINTEXT_LEN
    ensures 4096 <= BlobLen(a).value <= BlobLen(b).value <= 100_000_000
    ensures a + 36 <= BlobLen(a).value
    ensures BlobLen(0).value == 4096
  {
    hide Padme.Padme;
    Padme.NeverShrinks(a + OVERHEAD);
    Padme.Monotone(a + OVERHEAD, b + OVERHEAD);
    Padme.AtMostTwelvePercent(OVERHEAD);
  }

  /** The blob lengths of all files whose raw length, file and overhead, lies in [2^e, 2^(e+1)). */
  ghost function BlobSizes(e: nat): set<nat> {
    set len: nat | len <= MAX_PLAINTEXT_LEN && Pow2(e) <= len + 36 < Pow2(e + 1) :: BlobLen(len).value
  }

  function Clamp(p: nat): nat {
    if p < MIN_BLOB_LEN then MIN_BLOB_LEN else if p > MAX_BLOB_LEN then MAX_BLOB_LEN else p
  }

  /** The server sees few sizes: of the 2^e raw lengths of an octave at most 2^s + 1 remain, s being one more than log2 of e. */
  lemma FewBlobSizes(e: nat, s: nat)
    requires s >= 1 && Pow2(s - 1) <= e < Pow2(s)
    ensures |BlobSizes(e)| <= Pow2(s) + 1
  {
    hide Pow2;
    hide Padme.Padme;
    hide Padme.Octave;
    BitLengthUnique(e, s);
    PositivePow(s - 1);
    var image := set p | p in Padme.Octave(e) :: Clamp(p);
    forall b | b in BlobSizes(e) ensures b in image {
      var len: nat :| len <= MAX_PLAINTEXT_LEN && Pow2(e) <= len + 36 < Pow2(e + 1) && BlobLen(len).value == b;
      InOctave(e, len + 36);
    }
    ImageSize(Padme.Octave(e), image);
    Padme.SubsetSize(BlobSizes(e), image);
    Padme.FewBuckets(e);
  }

  lemma PositivePow(n: nat)
    ensures Pow2(n) >= 1
  {
  }

  lemma InOctave(e: nat, raw: nat)
    requires Pow2(e) <= raw < Pow2(e + 1)
    ensures Padme.Padme(raw) in Padme.Octave(e)
  {
    hide Padme.Padme;
    hide Pow2;
  }

  lemma {:induction false} ImageSize(from: set<nat>, image: set<nat>)
    requires image == set p | p in from :: Clamp(p)
    ensures |image| <= |from|
    decreases from
  {
    if from != {} {
      var x :| x in from;
      var rest := from - {x};
      var restImage := set p | p in rest :: Clamp(p);
      ImageSize(rest, restImage);
      assert image == restImage + {Clamp(x)};
    }
  }

  /** Above the floor, a blob is at most twelve percent longer than the file with its overhead. */
  lemma BlobOverhead(len: nat)
    requires len <= MAX_PLAINTEXT_LEN && BlobLen(len).value > 4096
    ensures 100 * (BlobLen(len).value - (len + 36)) <= 12 * (len + 36)
  {
    hide Padme.Padme;
    Padme.AtMostTwelvePercent(len + 36);
  }

  /** Which files are refused: those that with their overhead of 36 bytes are over a hundred million bytes. */
  lemma BlobLenIff(len: nat)
    ensures BlobLen(len).Err? <==> len + 36 > 100_000_000
    ensures BlobLen(len).Err? ==> BlobLen(len).error == TooLarge(len)
  {
    hide Padme.Padme;
  }

  function Zeros(n: nat): (z: Bytes)
    ensures |z| == n && forall i :: 0 <= i < n ==> z[i] == 0
  {
    seq(n, _ => 0)
  }

  /** The padded plaintext of `total` bytes. */
  function Padded(file: Bytes, total: nat): (p: Bytes)
    requires LEN_PREFIX + |file| <= total
    ensures |p| == total
  {
    Be(|file|, 8) + file + Zeros(total - LEN_PREFIX - |file|)
  }

  predicate AllZero(b: Bytes) {
    forall i :: 0 <= i < |b| ==> b[i] == 0
  }

  /** What `unpad` answers. */
  function Unpadded(p: Bytes): (r: Result<Bytes, MediaError>) {
    if |p| < LEN_PREFIX then Err(MalformedPadding)
    else
      var end := FromBe(p[..LEN_PREFIX]) + LEN_PREFIX;
      if end > |p| || !AllZero(p[end..]) then Err(MalformedPadding) else Ok(p[LEN_PREFIX..end])
  }

  /** One encoding of each file: a plaintext unpads to a file exactly when it is that file, padded. */
  lemma UnpadIff(p: Bytes, file: Bytes)
    requires |p| <= 0xFFFF_FFFF_FFFF_FFFF
    ensures Unpadded(p) == Ok(file) <==> LEN_PREFIX + |file| <= |p| && p == Padded(file, |p|)
  {
    Widths();
    if Unpadded(p) == Ok(file) {
      var end := LEN_PREFIX + |file|;
      FromBeRoundTrip(p[..LEN_PREFIX]);
      assert p[end..] == Zeros(|p| - end);
      assert p == p[..LEN_PREFIX] + p[LEN_PREFIX..end] + p[end..];
    }
    if LEN_PREFIX + |file| <= |p| && p == Padded(file, |p|) {
      var end := LEN_PREFIX + |file|;
      BeRoundTrip(|file|, 8);
      assert p[..LEN_PREFIX] == Be(|file|, 8);
      assert p[LEN_PREFIX..end] == file;
      assert p[end..] == Zeros(|p| - end);
    }
  }

  /** `unpad`: checks, then truncates and drains the buffer. */
  method Unpad(p: Bytes) returns (r: Result<Bytes, MediaError>)
    ensures r == Unpadded(p)
  {
    if |p| < LEN_PREFIX {
      return Err(MalformedPadding);
    }
    var end := FromBe(p[..LEN_PREFIX]) + LEN_PREFIX;
    if end > |p| {
      return Err(MalformedPadding);
    }
    var i := end;
    while i < |p|
      invariant end <= i <= |p|
      invariant forall j :: end <= j < i ==> p[j] == 0
    {
      if p[i] != 0 {
        assert p[end..][i - end] != 0;
        return Err(MalformedPadding);
      }
      i := i + 1;
    }
    var buffer := p[..end];
    buffer := buffer[LEN_PREFIX..];
    return Ok(buffer);
  }

  /** `seal_with`: the blob grows from nonce, length and file, is zero-filled to size, sealed and tagged. */
  method SealWith(a: Aead, key: Bytes, nonce: Bytes, plaintext: Bytes) returns (r: Result<Bytes, MediaError>)
    requires |key| == KEY_LEN && |nonce| == NONCE_LEN
    requires Correct(a)
    ensures match BlobLen(|plaintext|)
            case Err(e) => r == Err(e)
            case Ok(total) =>
              && r.Ok? && |r.value| == total && 36 + |plaintext| <= total
              && var (ct, tag) := a.seal(key, nonce, Ascii("konstruct-media-v1"),
                                         Be(|plaintext|, 8) + plaintext + Zeros(total - 36 - |plaintext|));
                 r.value == nonce + ct + tag
  {
    hide Padme.Padme;
    hide V1Ad;
    var size := BlobLen(|plaintext|);
    if size.Err? {
      return Err(size.error);
    }
    var total := size.value;
    BlobLenFits(|plaintext|, |plaintext|);
    var blob := nonce;
    blob := blob + Be(|plaintext|, 8);
    blob := blob + plaintext;
    blob := blob + Zeros(total - TAG_LEN - |blob|);
    assert blob[NONCE_LEN..] == Be(|plaintext|, 8) + plaintext + Zeros(total - 36 - |plaintext|);
    assert V1Ad() == Ascii("konstruct-media-v1") by { AdIs(); }
    var (ct, tag) := a.seal(key, nonce, V1Ad(), blob[NONCE_LEN..]);
    blob := blob[..NONCE_LEN] + ct;
    blob := blob + tag;
    return Ok(blob);
  }

  /** What `open_media` answers: the v1 reading if it authenticates, else the legacy one. */
  function Opened(a: Aead, key: Bytes, blob: Bytes): Result<Bytes, MediaError> {
    if |key| != KEY_LEN then Err(InvalidKey(|key|))
    else if |blob| < NONCE_LEN + TAG_LEN then Err(Unauthenticated)
    else
      var nonce, body, tag := blob[..NONCE_LEN], blob[NONCE_LEN..|blob| - TAG_LEN], blob[|blob| - TAG_LEN..];
      var v1 := a.open(key, nonce, V1Ad(), body, tag);
      if v1.Some? then Unpadded(v1.value)
      else
        match a.open(key, nonce, [], body, tag)
        case None => Err(Unauthenticated)
        case Some(file) => Ok(file)
  }

  lemma AdIs()
    ensures V1Ad() == Ascii("konstruct-media-v1")
  {
  }

  /**
   What opens, exactly: with a 32-byte key, the twelve bytes of nonce, the text and the sixteen of tag
   authenticate under the label as a length, that file and zeros, or fail to and authenticate
   under no label as the file itself.
   */
  lemma OpensIff(a: Aead, key: Bytes, blob: Bytes, file: Bytes)
    requires InPlace(a) && |blob| <= 0xFFFF_FFFF_FFFF_FFFF
    ensures Opened(a, key, blob) == Ok(file)
       <==> && |key| == 32 && |blob| >= 28
            && var v1 := a.open(key, blob[..12], Ascii("konstruct-media-v1"), blob[12..|blob| - 16], blob[|blob| - 16..]);
               if v1.Some?
               then 8 + |file| <= |v1.value| && v1.value == Be(|file|, 8) + file + Zeros(|v1.value| - 8 - |file|)
               else a.open(key, blob[..12], [], blob[12..|blob| - 16], blob[|blob| - 16..]) == Some(file)
  {
    hide V1Ad;
    hide Unpadded;
    hide Be;
    hide Ascii;
    hide Zeros;
    AdIs();
    if |key| == 32 && |blob| >= 28 {
      var v1 := a.open(key, blob[..12], Ascii("konstruct-media-v1"), blob[12..|blob| - 16], blob[|blob| - 16..]);
      if v1.Some? {
        UnpadIff(v1.value, file);
      }
    }
  }

  /** And how the rest is refused. */
  lemma RefusedAs(a: Aead, key: Bytes, blob: Bytes)
    requires Opened(a, key, blob).Err?
    ensures Opened(a, key, blob).error
         == if |key| != 32 then InvalidKey(|key|)
            else if |blob| >= 28 && a.open(key, blob[..12], Ascii("konstruct-media-v1"), blob[12..|blob| - 16], blob[|blob| - 16..]).Some?
            then MalformedPadding
            else Unauthenticated
  {
    hide V1Ad;
    AdIs();
  }

  /** Blobs from before padding still open, as the file itself, where they do not authenticate as padded ones. */
  lemma LegacyOpens(a: Aead, key: Bytes, nonce: Bytes, file: Bytes)
    requires |key| == KEY_LEN && |nonce| == NONCE_LEN && Correct(a)
    requires var (ct, tag) := a.seal(key, nonce, [], file); a.open(key, nonce, V1Ad(), ct, tag).None?
    ensures var (ct, tag) := a.seal(key, nonce, [], file); Opened(a, key, nonce + ct + tag) == Ok(file)
  {
    hide V1Ad;
    var (ct, tag) := a.seal(key, nonce, [], file);
    var blob := nonce + ct + tag;
    assert blob[..NONCE_LEN] == nonce;
    assert blob[NONCE_LEN..|blob| - TAG_LEN] == ct;
    assert blob[|blob| - TAG_LEN..] == tag;
  }

  /** Sealing then opening gives back every file that fits, trailing zeros included, and refuses the rest. */
  method SealThenOpen(a: Aead, key: Bytes, nonce: Bytes, file: Bytes) returns (r: Result<Bytes, MediaError>)
    requires |key| == KEY_LEN && |nonce| == NONCE_LEN
    requires Correct(a)
    ensures r == if |file| <= MAX_PLAINTEXT_LEN then Ok(file) else Err(TooLarge(|file|))
  {
    hide Padme.Padme;
    hide V1Ad;
    var sealed := SealWith(a, key, nonce, file);
    if sealed.Err? {
      return Err(sealed.error);
    }
    BlobLenFits(|file|, |file|);
    var blob := sealed.value;
    AdIs();
    ghost var text := Padded(file, |blob| - NONCE_LEN - TAG_LEN);
    ghost var (ct, tag) := a.seal(key, nonce, V1Ad(), text);
    assert blob[..NONCE_LEN] == nonce;
    assert blob[NONCE_LEN..|blob| - TAG_LEN] == ct;
    assert blob[|blob| - TAG_LEN..] == tag;
    UnpadIff(text, file);
    r := Opened(a, key, blob);
  }
}
