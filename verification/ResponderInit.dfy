/**
 Opening a session as responder: the loop over candidate signed prekeys, and the one-time prekey
 that is read for the attempt and burned only when a handshake has been built on it.
 */
module ResponderInit {
  import opened ByteStrings
  import opened KeyLimits

  const OTPK_ID_START: u32 := 1_000_000

  datatype SignedPrekey = SignedPrekey(keyId: u32, secret: Bytes)

  datatype OldPrekey = OldPrekey(secret: Bytes, retiredAt: int)

  /** The parts of the key manager a responder init reads and changes. */
  datatype Keys = Keys(identity: Option<Bytes>, current: Option<SignedPrekey>, previous: map<u32, OldPrekey>, otpks: map<u32, Bytes>,
                       nextPrekeyId: u32, nextOtpkId: u32)

  /** A first flight: whom it claims to be from, its opaque content, and the one-time prekey it names (0 for none). */
  datatype Carrier = Carrier(contact: string, content: Bytes, otpkId: u32)

  datatype Opened = Opened(sessionId: string, session: Bytes, plaintext: Bytes, envelopeKeys: Option<Bytes>)

  /** `Session::init_as_responder`: identity, signed prekey, one-time prekey, carrier. */
  type Handshake = (Bytes, Bytes, Option<Bytes>, Carrier) -> Result<Opened, string>

  datatype InitError = UserIdUnset | OtpkMissing(id: u32) | NoIdentity | NoPrekeys | AllFailed(tried: nat, last: string)

  datatype Entry = Entry(contact: string, sessionId: string, keys: Bytes)

  datatype State = State(userIdSet: bool, keys: Keys, sessions: map<string, Bytes>, envelopes: seq<Entry>)

  // ----- candidates -----

  /** The ids of a set, falling. */
  function Falling(ids: set<u32>): (r: seq<u32>)
    ensures forall id :: id in ids <==> id in r
    ensures forall i, j :: 0 <= i < j < |r| ==> r[i] > r[j]
    decreases |ids|
  {
    if ids == {} then []
    else
      var id := HighestId(ids);
      var tail := Falling(ids - {id});
      assert forall x :: x in tail ==> x in ids && x != id;
      [id] + tail
  }

  /** Old prekeys by falling key id: the most recently rotated out first. */
  function NewestFirst(previous: map<u32, OldPrekey>): (r: seq<Bytes>)
    ensures forall id :: id in previous ==> previous[id].secret in r
  {
    var ids := Falling(previous.Keys);
    assert forall i :: 0 <= i < |ids| ==> ids[i] in previous;
    var r := seq(|ids|, i requires 0 <= i < |ids| => previous[ids[i]].secret);
    assert forall i :: 0 <= i < |ids| ==> r[i] == previous[ids[i]].secret && r[i] in r;
    r
  }

  /** The old prekeys and nothing else are listed. */
  lemma NewestFirstIff(previous: map<u32, OldPrekey>, secret: Bytes)
    ensures secret in NewestFirst(previous) <==> exists id :: id in previous && previous[id].secret == secret
  {
    var r := NewestFirst(previous);
    if secret in r {
      var i :| 0 <= i < |r| && r[i] == secret;
      assert Falling(previous.Keys)[i] in previous;
    }
  }

  /** Of two candidates that are old prekeys, the one with the higher key id is tried first. */
  lemma NewerTriedFirst(previous: map<u32, OldPrekey>, i: nat, j: nat)
    requires i < j < |NewestFirst(previous)|
    ensures exists a, b :: a in previous && b in previous && a > b
                           && NewestFirst(previous)[i] == previous[a].secret && NewestFirst(previous)[j] == previous[b].secret
  {
    var ids := Falling(previous.Keys);
    assert ids[i] in previous && ids[j] in previous && ids[i] > ids[j];
  }

  function Candidates(keys: Keys): seq<Bytes> {
    (if keys.current.Some? then [keys.current.value.secret] else []) + NewestFirst(keys.previous)
  }

  /** The first candidate the handshake closes with, or the last error. */
  function FirstSuccess(open: Handshake, identity: Bytes, candidates: seq<Bytes>, otpk: Option<Bytes>, c: Carrier, last: string)
    : (r: Result<Opened, string>)
  {
    if candidates == [] then Err(last)
    else
      match open(identity, candidates[0], otpk, c)
      case Ok(o) => Ok(o)
      case Err(e) => FirstSuccess(open, identity, candidates[1..], otpk, c, e)
  }

  /** A session already filed keeps its pair. */
  function Register(envelopes: seq<Entry>, contact: string, o: Opened): seq<Entry> {
    if o.envelopeKeys.None? || exists e :: e in envelopes && e.sessionId == o.sessionId then envelopes
    else [Entry(contact, o.sessionId, o.envelopeKeys.value)] + envelopes
  }

  /** What one responder init answers, and the client after it. */
  function Receive(open: Handshake, s: State, c: Carrier): (r: (Result<(string, Bytes), InitError>, State)) {
    if !s.userIdSet then (Err(UserIdUnset), s)
    else
      // An existing session with the contact goes first, whatever comes of the attempt.
      var s1 := s.(sessions := s.sessions - {c.contact});
      if c.otpkId != 0 && c.otpkId !in s.keys.otpks then (Err(OtpkMissing(c.otpkId)), s1)
      else if s.keys.identity.None? then (Err(NoIdentity), s1)
      else
        var candidates := Candidates(s.keys);
        var otpk := if c.otpkId != 0 then Some(s.keys.otpks[c.otpkId]) else None;
        if candidates == [] then (Err(NoPrekeys), s1)
        else
          match FirstSuccess(open, s.keys.identity.value, candidates, otpk, c, "No prekeys tried")
          case Err(e) => (Err(AllFailed(|candidates|, e)), s1)
          case Ok(o) =>
            var burned := if c.otpkId != 0 then s.keys.otpks - {c.otpkId} else s.keys.otpks;
            (Ok((o.sessionId, o.plaintext)),
             State(true, s.keys.(otpks := burned), s1.sessions[c.contact := o.session], Register(s.envelopes, c.contact, o)))
  }

  /** A failed attempt, after any number of candidates, changes no key; it does drop a session the contact had. */
  lemma FailureBurnsNothing(open: Handshake, s: State, c: Carrier)
    requires Receive(open, s, c).0.Err?
    ensures var s' := Receive(open, s, c).1;
            s'.keys == s.keys && s'.envelopes == s.envelopes
            && s'.sessions == if s.userIdSet then s.sessions - {c.contact} else s.sessions
  {
  }

  /** A success burns exactly the one-time prekey it names, and had it to burn. */
  lemma SuccessBurnsOne(open: Handshake, s: State, c: Carrier)
    requires Receive(open, s, c).0.Ok?
    ensures var k := Receive(open, s, c).1.keys;
            if c.otpkId == 0 then k == s.keys
            else c.otpkId in s.keys.otpks && k == s.keys.(otpks := k.otpks) && k.otpks.Keys == s.keys.otpks.Keys - {c.otpkId}
                 && forall id :: id in k.otpks ==> k.otpks[id] == s.keys.otpks[id]
  {
    hide FirstSuccess;
    hide Candidates;
    hide Register;
  }

  /** It succeeds exactly when its keys are there and some candidate closes the handshake. */
  lemma OpensIff(open: Handshake, s: State, c: Carrier)
    ensures Receive(open, s, c).0.Ok?
       <==> && s.userIdSet && s.keys.identity.Some? && (c.otpkId != 0 ==> c.otpkId in s.keys.otpks)
            && var otpk := if c.otpkId != 0 then Some(s.keys.otpks[c.otpkId]) else None;
               exists p :: p in Candidates(s.keys) && open(s.keys.identity.value, p, otpk, c).Ok?
  {
    if s.userIdSet && s.keys.identity.Some? && (c.otpkId != 0 ==> c.otpkId in s.keys.otpks) {
      var otpk := if c.otpkId != 0 then Some(s.keys.otpks[c.otpkId]) else None;
      FirstSuccessIff(open, s.keys.identity.value, Candidates(s.keys), otpk, c, "No prekeys tried");
    }
  }

  lemma {:induction false} FirstSuccessIff(open: Handshake, identity: Bytes, candidates: seq<Bytes>, otpk: Option<Bytes>, c: Carrier, last: string)
    ensures FirstSuccess(open, identity, candidates, otpk, c, last).Ok?
       <==> exists p :: p in candidates && open(identity, p, otpk, c).Ok?
    decreases |candidates|
  {
    if candidates != [] {
      assert forall p :: p in candidates <==> p == candidates[0] || p in candidates[1..];
      var r := open(identity, candidates[0], otpk, c);
      if r.Err? {
        FirstSuccessIff(open, identity, candidates[1..], otpk, c, r.error);
      }
    }
  }

  /** The session is the one of the earliest candidate that closes: the current prekey before any older one. */
  lemma {:induction false} EarliestCandidateWins(open: Handshake, identity: Bytes, candidates: seq<Bytes>, otpk: Option<Bytes>, c: Carrier,
                                                 last: string, i: nat)
    requires i < |candidates| && open(identity, candidates[i], otpk, c).Ok?
    requires forall j :: 0 <= j < i ==> open(identity, candidates[j], otpk, c).Err?
    ensures FirstSuccess(open, identity, candidates, otpk, c, last) == open(identity, candidates[i], otpk, c)
    decreases i
  {
    if i > 0 {
      var e := open(identity, candidates[0], otpk, c).error;
      assert forall j :: 0 <= j < i - 1 ==> candidates[1..][j] == candidates[j + 1];
      EarliestCandidateWins(open, identity, candidates[1..], otpk, c, e, i - 1);
    }
  }

  /** The current prekey is tried first, then the old ones by falling id, and nothing else. */
  lemma CurrentTriedFirst(k: Keys)
    ensures var rest := NewestFirst(k.previous);
            if k.current.None? then Candidates(k) == rest
            else |Candidates(k)| == 1 + |rest| && Candidates(k)[0] == k.current.value.secret && Candidates(k)[1..] == rest
  {
    hide NewestFirst;
    assert [] + NewestFirst(k.previous) == NewestFirst(k.previous);
  }

  /** The one-time secret an attempt is made with: the pool's own under the id named, none for id 0. */
  function Named(k: Keys, c: Carrier): Option<Bytes> {
    if c.otpkId != 0 && c.otpkId in k.otpks then Some(k.otpks[c.otpkId]) else None
  }

  /**
   What a success answers and files. If candidate `i` is the earliest the handshake closes with, its
   outcome is the one answered; the session goes under the contact, and the envelope keys go there
   exactly when there are some and no entry for that session yet.
   */
  lemma OpensWithEarliest(open: Handshake, s: State, c: Carrier, i: nat, o: Opened)
    requires s.userIdSet && s.keys.identity.Some? && (c.otpkId != 0 ==> c.otpkId in s.keys.otpks)
    requires i < |Candidates(s.keys)| && open(s.keys.identity.value, Candidates(s.keys)[i], Named(s.keys, c), c) == Ok(o)
    requires forall j :: 0 <= j < i ==> open(s.keys.identity.value, Candidates(s.keys)[j], Named(s.keys, c), c).Err?
    ensures var (r, s') := Receive(open, s, c);
            && r == Ok((o.sessionId, o.plaintext))
            && s'.sessions == s.sessions[c.contact := o.session]
            && s'.userIdSet
            && s'.envelopes == if o.envelopeKeys.Some? && (forall e :: e in s.envelopes ==> e.sessionId != o.sessionId)
                               then [Entry(c.contact, o.sessionId, o.envelopeKeys.value)] + s.envelopes
                               else s.envelopes
  {
    hide FirstSuccess;
    hide Candidates;
    EarliestCandidateWins(open, s.keys.identity.value, Candidates(s.keys), Named(s.keys, c), c, "No prekeys tried", i);
  }

  lemma {:induction false} EarliestOf(open: Handshake, identity: Bytes, candidates: seq<Bytes>, otpk: Option<Bytes>, c: Carrier, last: string)
    returns (i: nat)
    requires FirstSuccess(open, identity, candidates, otpk, c, last).Ok?
    ensures i < |candidates| && open(identity, candidates[i], otpk, c).Ok?
    ensures forall j :: 0 <= j < i ==> open(identity, candidates[j], otpk, c).Err?
    decreases |candidates|
  {
    var first := open(identity, candidates[0], otpk, c);
    if first.Ok? {
      i := 0;
    } else {
      var k := EarliestOf(open, identity, candidates[1..], otpk, c, first.error);
      i := k + 1;
      assert forall j :: 0 < j < i ==> candidates[j] == candidates[1..][j - 1];
    }
  }

  /**
   A success answers with the outcome of the earliest candidate that closes, leaves its session as the
   one with the contact, and the others as they were.
   */
  lemma SuccessReplacesSession(open: Handshake, s: State, c: Carrier) returns (i: nat, o: Opened)
    requires Receive(open, s, c).0.Ok?
    ensures s.keys.identity.Some? && i < |Candidates(s.keys)|
    ensures open(s.keys.identity.value, Candidates(s.keys)[i], Named(s.keys, c), c) == Ok(o)
    ensures forall j :: 0 <= j < i ==> open(s.keys.identity.value, Candidates(s.keys)[j], Named(s.keys, c), c).Err?
    ensures Receive(open, s, c).0 == Ok((o.sessionId, o.plaintext))
    ensures var after := Receive(open, s, c).1.sessions;
            c.contact in after && after[c.contact] == o.session && after - {c.contact} == s.sessions - {c.contact}
  {
    hide FirstSuccess;
    hide Candidates;
    i := EarliestOf(open, s.keys.identity.value, Candidates(s.keys), Named(s.keys, c), c, "No prekeys tried");
    o := open(s.keys.identity.value, Candidates(s.keys)[i], Named(s.keys, c), c).value;
    OpensWithEarliest(open, s, c, i, o);
    var after := Receive(open, s, c).1.sessions;
    assert (after - {c.contact}).Keys == (s.sessions - {c.contact}).Keys;
  }

  lemma {:induction false} LastErrorKept(open: Handshake, identity: Bytes, candidates: seq<Bytes>, otpk: Option<Bytes>, c: Carrier, last: string)
    requires candidates != [] && forall j :: 0 <= j < |candidates| ==> open(identity, candidates[j], otpk, c).Err?
    ensures FirstSuccess(open, identity, candidates, otpk, c, last) == Err(open(identity, candidates[|candidates| - 1], otpk, c).error)
    decreases |candidates|
  {
    if |candidates| > 1 {
      assert forall j :: 0 <= j < |candidates| - 1 ==> candidates[1..][j] == candidates[j + 1];
      LastErrorKept(open, identity, candidates[1..], otpk, c, open(identity, candidates[0], otpk, c).error);
    }
  }

  /** Why an attempt fails, in order; after every candidate the answer counts them and gives the last one's reason. */
  lemma RefusedAs(open: Handshake, s: State, c: Carrier)
    requires Receive(open, s, c).0.Err?
    ensures var n := |Candidates(s.keys)|;
            Receive(open, s, c).0 ==
            if !s.userIdSet then Err(UserIdUnset)
            else if c.otpkId != 0 && c.otpkId !in s.keys.otpks then Err(OtpkMissing(c.otpkId))
            else if s.keys.identity.None? then Err(NoIdentity)
            else if n == 0 then Err(NoPrekeys)
            else
              var last := open(s.keys.identity.value, Candidates(s.keys)[n - 1], Named(s.keys, c), c);
              Err(AllFailed(n, if last.Err? then last.error else ""))
  {
    hide FirstSuccess;
    hide Candidates;
    var cs := Candidates(s.keys);
    if s.userIdSet && s.keys.identity.Some? && (c.otpkId != 0 ==> c.otpkId in s.keys.otpks) && cs != [] {
      FirstSuccessIff(open, s.keys.identity.value, cs, Named(s.keys, c), c, "No prekeys tried");
      LastErrorKept(open, s.keys.identity.value, cs, Named(s.keys, c), c, "No prekeys tried");
    }
  }

  // ----- the other operations on the keys -----

  /** 32-bit wrap-around. */
  function Wrap(x: nat): u32 {
    x % 0x1_0000_0000
  }

  lemma WrapSmall(x: u32)
    ensures Wrap(x) == x
  {
  }

  lemma WrapStep(x: nat)
    ensures Wrap(Wrap(x) + 1) == Wrap(x + 1)
  {
  }

  /** One round of `generate_one_time_prekeys` per key pair; a failed generation stops it. Ids wrap at 2^32. */
  function GenerateOtpks(k: Keys, secrets: seq<Option<Bytes>>): (k': Keys)
    decreases |secrets|
  {
    if secrets == [] || secrets[0].None? then k
    else GenerateOtpks(k.(otpks := k.otpks[k.nextOtpkId := secrets[0].value], nextOtpkId := Wrap(k.nextOtpkId + 1)),
                       secrets[1..])
  }

  function PruneOtpksBelow(k: Keys, min: u32): Keys {
    k.(otpks := map id | id in k.otpks && id >= min :: k.otpks[id])
  }

  /** The counter is only ever raised. */
  function SetNextOtpkId(k: Keys, next: u32): Keys {
    if next > k.nextOtpkId then k.(nextOtpkId := next) else k
  }

  function Imported(k: Keys, id: u32, secret: Bytes): Keys {
    k.(otpks := k.otpks[id := secret], nextOtpkId := if id >= k.nextOtpkId then Wrap(id + 1) else k.nextOtpkId)
  }

  /** Pool entries whose key pair checks out, written over what is held. */
  function ImportOtpks(k: Keys, entries: seq<(u32, Bytes)>): (k': Keys)
    decreases |entries|
  {
    if entries == [] then k else ImportOtpks(Imported(k, entries[0].0, entries[0].1), entries[1..])
  }

  /** The entries whose public half is the one derived from the private half. */
  function Checked(derive: Bytes -> Option<Bytes>, entries: seq<(u32, Bytes, Bytes)>): (r: seq<(u32, Bytes)>) {
    if entries == [] then []
    else
      var (id, secret, public) := entries[0];
      (if derive(secret) == Some(public) then [(id, secret)] else []) + Checked(derive, entries[1..])
  }

  lemma CheckedStep(derive: Bytes -> Option<Bytes>, k: Keys, entries: seq<(u32, Bytes, Bytes)>)
    requires entries != []
    ensures var (id, secret, public) := entries[0];
            ImportOtpks(k, Checked(derive, entries)) ==
            ImportOtpks(if derive(secret) == Some(public) then Imported(k, id, secret) else k, Checked(derive, entries[1..]))
  {
    hide Imported;
    var (id, secret, public) := entries[0];
    var rest := Checked(derive, entries[1..]);
    if derive(secret) == Some(public) {
      assert ([(id, secret)] + rest)[1..] == rest;
    } else {
      assert [] + rest == rest;
    }
  }

  lemma NothingChecked(derive: Bytes -> Option<Bytes>, k: Keys)
    ensures ImportOtpks(k, Checked(derive, [])) == k
  {
  }

  predicate KeptOld(p: OldPrekey, now: int) {
    now - p.retiredAt < RETENTION
  }

  function Cleanup(k: Keys, now: int): Keys {
    k.(previous := map id | id in k.previous && KeptOld(k.previous[id], now) :: k.previous[id])
  }

  /** The next key id, at the end of the range the last one again. */
  function Succ(id: u32): u32 {
    if id == U32_MAX then U32_MAX else id + 1
  }

  /** Cleaning up keeps exactly the prekeys retired less than fourteen days ago, as they were. */
  lemma CleanupIff(k: Keys, now: int, id: u32)
    ensures var k' := Cleanup(k, now);
            && (id in k'.previous <==> id in k.previous && now - k.previous[id].retiredAt < 1_209_600)
            && (id in k'.previous ==> k'.previous[id] == k.previous[id])
            && k'.(previous := k.previous) == k
  {
  }

  /** `rotate_signed_prekey`, once the new pair is generated and signed; it reads the clock to retire and again to clean up. */
  function Rotate(k: Keys, retiredAt: int, now: int, secret: Bytes): Keys {
    var previous := if k.current.Some? then k.previous[k.current.value.keyId := OldPrekey(k.current.value.secret, retiredAt)]
                    else k.previous;
    Cleanup(k.(current := Some(SignedPrekey(k.nextPrekeyId, secret)), previous := previous, nextPrekeyId := Succ(k.nextPrekeyId)), now)
  }

  /** A rotation: the new secret is current under the next id, the outgoing one is retired under its own, and the expired ones go. */
  lemma RotateIs(k: Keys, retiredAt: int, now: int, secret: Bytes, id: u32, p: OldPrekey)
    ensures var k' := Rotate(k, retiredAt, now, secret);
            && k'.current == Some(SignedPrekey(k.nextPrekeyId, secret))
            && k'.nextPrekeyId == (if k.nextPrekeyId < 0xFFFF_FFFF then k.nextPrekeyId + 1 else 0xFFFF_FFFF)
            && k'.identity == k.identity
            && (id in k'.previous && k'.previous[id] == p
                <==> && now - p.retiredAt < 1_209_600
                     && if k.current.Some? && k.current.value.keyId == id then p == OldPrekey(k.current.value.secret, retiredAt)
                        else id in k.previous && k.previous[id] == p)
  {
  }

  /** Every key made is filed under its own id, up to one whole round of the range. */
  lemma {:induction false} GeneratedAt(k: Keys, secrets: seq<Option<Bytes>>, i: nat)
    requires i < |secrets| <= 0x1_0000_0000 && forall j :: 0 <= j <= i ==> secrets[j].Some?
    ensures var id := (k.nextOtpkId + i) % 0x1_0000_0000;
            id in GenerateOtpks(k, secrets).otpks && GenerateOtpks(k, secrets).otpks[id] == secrets[i].value
    decreases |secrets|
  {
    var k1, rest := k.(otpks := k.otpks[k.nextOtpkId := secrets[0].value], nextOtpkId := Wrap(k.nextOtpkId + 1)), secrets[1..];
    if i == 0 {
      GeneratedOthers(k1, rest, k.nextOtpkId);
    } else {
      assert forall j :: 0 <= j < |rest| ==> rest[j] == secrets[j + 1];
      WrapShift(k.nextOtpkId, i);
      GeneratedAt(k1, rest, i - 1);
    }
  }

  lemma WrapShift(x: u32, i: nat)
    requires i > 0
    ensures (Wrap(x + 1) + (i - 1)) % 0x1_0000_0000 == (x + i) % 0x1_0000_0000
  {
  }

  /** How far `id` lies ahead of `start`, round the range. */
  function Ahead(start: u32, id: u32): nat {
    if id >= start then id - start else 0x1_0000_0000 - (start - id)
  }

  /** A generation touches no id outside the stretch it hands out. */
  lemma {:induction false} GeneratedOthers(k: Keys, secrets: seq<Option<Bytes>>, id: u32)
    requires |secrets| <= Ahead(k.nextOtpkId, id)
    ensures var k' := GenerateOtpks(k, secrets);
            (id in k'.otpks <==> id in k.otpks) && (id in k.otpks ==> k'.otpks[id] == k.otpks[id])
    decreases |secrets|
  {
    if secrets != [] && secrets[0].Some? {
      GeneratedOthers(k.(otpks := k.otpks[k.nextOtpkId := secrets[0].value], nextOtpkId := Wrap(k.nextOtpkId + 1)), secrets[1..], id);
    }
  }

  /** The id counter moves by what was made, round the range. */
  lemma {:induction false} GeneratedCounter(k: Keys, secrets: seq<Option<Bytes>>)
    ensures GenerateOtpks(k, secrets).nextOtpkId == (k.nextOtpkId + Made(secrets)) % 0x1_0000_0000
    decreases |secrets|
  {
    if secrets != [] && secrets[0].Some? {
      WrapShift(k.nextOtpkId, Made(secrets));
      GeneratedCounter(k.(otpks := k.otpks[k.nextOtpkId := secrets[0].value], nextOtpkId := Wrap(k.nextOtpkId + 1)), secrets[1..]);
    } else {
      WrapSmall(k.nextOtpkId);
    }
  }

  /** Pruning keeps exactly the ids at or above the bound. */
  lemma PrunedIff(k: Keys, min: u32, id: u32)
    ensures var k' := PruneOtpksBelow(k, min);
            && (id in k'.otpks <==> id in k.otpks && id >= min) && (id in k'.otpks ==> k'.otpks[id] == k.otpks[id])
            && k'.(otpks := k.otpks) == k
  {
  }

  /** An id no entry lists keeps what it had. */
  lemma {:induction false} ImportedOthers(k: Keys, entries: seq<(u32, Bytes)>, id: u32)
    requires forall e :: e in entries ==> e.0 != id
    ensures var after := ImportOtpks(k, entries).otpks;
            (id in after <==> id in k.otpks) && (id in k.otpks ==> after[id] == k.otpks[id])
    decreases |entries|
  {
    hide Wrap;
    if entries != [] {
      assert forall e :: e in entries[1..] ==> e in entries;
      ImportedOthers(Imported(k, entries[0].0, entries[0].1), entries[1..], id);
    }
  }

  /** Of several entries of an id the last one counts. */
  lemma {:induction false} ImportedLast(k: Keys, before: seq<(u32, Bytes)>, e: (u32, Bytes), after: seq<(u32, Bytes)>)
    requires forall x :: x in after ==> x.0 != e.0
    ensures var pool := ImportOtpks(k, before + [e] + after).otpks; e.0 in pool && pool[e.0] == e.1
    decreases |before|
  {
    hide Imported;
    var entries := before + [e] + after;
    if before == [] {
      assert entries[0] == e && entries[1..] == after;
      var k1 := Imported(k, e.0, e.1);
      assert e.0 in k1.otpks && k1.otpks[e.0] == e.1 by { ImportedHolds(k, e.0, e.1); }
      ImportedOthers(k1, after, e.0);
    } else {
      assert entries[0] == before[0] && entries[1..] == before[1..] + [e] + after;
      ImportedLast(Imported(k, before[0].0, before[0].1), before[1..], e, after);
    }
  }

  lemma ImportedHolds(k: Keys, id: u32, secret: Bytes)
    ensures id in Imported(k, id, secret).otpks && Imported(k, id, secret).otpks[id] == secret
  {
  }

  /** The entries imported are exactly those whose public half is derived from the private half. */
  lemma {:induction false} CheckedIff(derive: Bytes -> Option<Bytes>, entries: seq<(u32, Bytes, Bytes)>, id: u32, secret: Bytes)
    ensures (id, secret) in Checked(derive, entries)
       <==> exists i :: 0 <= i < |entries| && entries[i].0 == id && entries[i].1 == secret && derive(secret) == Some(entries[i].2)
    decreases |entries|
  {
    if entries != [] {
      var rest := entries[1..];
      assert forall i :: 0 <= i < |rest| ==> rest[i] == entries[i + 1];
      CheckedIff(derive, rest, id, secret);
      if i :| 0 <= i < |entries| && entries[i].0 == id && entries[i].1 == secret && derive(secret) == Some(entries[i].2) {
        if i > 0 {
          assert rest[i - 1] == entries[i];
        }
      }
    }
  }

  // ----- the persisted keys -----

  /** An old prekey as persisted; records from before retirement was recorded have no date. */
  datatype OldRecord = OldRecord(keyId: u32, secret: Bytes, retiredAt: Option<int>)

  datatype KeyRecord = KeyRecord(identity: Bytes, secret: Bytes, keyId: u32, previous: seq<OldRecord>)

  /** `to_private_keys_cfe`: nothing to write without an identity and a signed prekey; old prekeys by rising id. */
  function ToRecord(k: Keys): (r: Option<KeyRecord>)
    ensures r.Some? ==> |r.value.previous| == |Falling(k.previous.Keys)|
  {
    if k.identity.None? || k.current.None? then None
    else
      var ids := Falling(k.previous.Keys);
      var previous := seq(|ids|, i requires 0 <= i < |ids| => Recorded(k, ids[|ids| - 1 - i]));
      Some(KeyRecord(k.identity.value, k.current.value.secret, k.current.value.keyId, previous))
  }

  function Recorded(k: Keys, id: u32): OldRecord
    requires id in k.previous
  {
    OldRecord(id, k.previous[id].secret, Some(k.previous[id].retiredAt))
  }

  function RetiredAt(e: OldRecord, now: int): int {
    if e.retiredAt.Some? then e.retiredAt.value else now
  }

  /** `add_old_prekey`. */
  function AddOldPrekey(k: Keys, e: OldRecord, now: int): Keys {
    var p := OldPrekey(e.secret, RetiredAt(e, now));
    if !KeptOld(p, now) then k
    else k.(previous := k.previous[e.keyId := p], nextPrekeyId := if e.keyId >= k.nextPrekeyId then Succ(e.keyId) else k.nextPrekeyId)
  }

  function AddOldPrekeys(k: Keys, entries: seq<OldRecord>, now: int): Keys
    decreases |entries|
  {
    if entries == [] then k else AddOldPrekeys(AddOldPrekey(k, entries[0], now), entries[1..], now)
  }

  /** A key manager that holds the identity and the current signed prekey alone. */
  function FreshKeys(identity: Bytes, keyId: u32, secret: Bytes): Keys {
    Keys(Some(identity), Some(SignedPrekey(keyId, secret)), map[], map[], if keyId >= 1 then Succ(keyId) else 1, OTPK_ID_START)
  }

  /** `from_private_keys_cfe`. */
  function FromRecord(r: KeyRecord, now: int): Keys {
    AddOldPrekeys(FreshKeys(r.identity, r.keyId, r.secret), r.previous, now)
  }

  /** An expired old prekey is skipped before its secret is looked at. */
  predicate Restorable(derive: Bytes -> Option<Bytes>, e: OldRecord, now: int) {
    KeptOld(OldPrekey(e.secret, RetiredAt(e, now)), now) ==> derive(e.secret).Some?
  }

  predicate Derivable(derive: Bytes -> Option<Bytes>, r: KeyRecord, now: int) {
    && derive(r.identity).Some? && derive(r.secret).Some?
    && forall i :: 0 <= i < |r.previous| ==> Restorable(derive, r.previous[i], now)
  }

  predicate DistinctRecords(entries: seq<OldRecord>) {
    forall i, j :: 0 <= i < j < |entries| ==> entries[i].keyId != entries[j].keyId
  }

  lemma {:induction false} AddingKeeps(k: Keys, entries: seq<OldRecord>, now: int)
    ensures var k' := AddOldPrekeys(k, entries, now);
            k'.(previous := k.previous, nextPrekeyId := k.nextPrekeyId) == k
    decreases |entries|
  {
    if entries != [] {
      AddingKeeps(AddOldPrekey(k, entries[0], now), entries[1..], now);
    }
  }

  lemma {:induction false} AddingOthers(k: Keys, entries: seq<OldRecord>, now: int, id: u32)
    requires forall i :: 0 <= i < |entries| ==> entries[i].keyId != id
    ensures var k' := AddOldPrekeys(k, entries, now);
            (id in k'.previous <==> id in k.previous) && (id in k.previous ==> k'.previous[id] == k.previous[id])
    decreases |entries|
  {
    if entries != [] {
      assert forall i :: 0 <= i < |entries| - 1 ==> entries[1..][i] == entries[i + 1];
      AddingOthers(AddOldPrekey(k, entries[0], now), entries[1..], now, id);
    }
  }

  /** A recorded old prekey comes back exactly when it is inside its window; one without a date is given a window from now. */
  lemma {:induction false} RestoredIff(k: Keys, entries: seq<OldRecord>, now: int, i: nat)
    requires i < |entries| && DistinctRecords(entries) && entries[i].keyId !in k.previous
    ensures var e, after := entries[i], AddOldPrekeys(k, entries, now).previous;
            && (e.keyId in after <==> e.retiredAt.None? || now < e.retiredAt.value + RETENTION)
            && (e.keyId in after ==> after[e.keyId] == OldPrekey(e.secret, RetiredAt(e, now)))
    decreases |entries|
  {
    var k1, rest := AddOldPrekey(k, entries[0], now), entries[1..];
    assert forall j :: 0 <= j < |rest| ==> rest[j] == entries[j + 1];
    if i == 0 {
      AddingOthers(k1, rest, now, entries[0].keyId);
    } else {
      RestoredIff(k1, rest, now, i - 1);
    }
  }

  /** A record gives back the identity and the current prekey, no one-time prekey, and a counter past the ids that came back. */
  lemma RestartIs(r: KeyRecord, now: int)
    ensures var k := FromRecord(r, now);
            && k.identity == Some(r.identity) && k.current == Some(SignedPrekey(r.keyId, r.secret))
            && k.otpks == map[] && k.nextOtpkId == 1_000_000
  {
    hide AddOldPrekeys;
    AddingKeeps(FreshKeys(r.identity, r.keyId, r.secret), r.previous, now);
  }

  /** The signed prekey counter is past every id that came back, or at the end of the range, and no further than that. */
  lemma {:induction false} AddedCounter(k: Keys, entries: seq<OldRecord>, now: int)
    ensures var k' := AddOldPrekeys(k, entries, now);
            && k.nextPrekeyId <= k'.nextPrekeyId
            && (forall i :: 0 <= i < |entries| && KeptOld(OldPrekey(entries[i].secret, RetiredAt(entries[i], now)), now)
                  ==> entries[i].keyId < k'.nextPrekeyId || k'.nextPrekeyId == 0xFFFF_FFFF)
            && (k'.nextPrekeyId == k.nextPrekeyId || exists i :: && 0 <= i < |entries| && k'.nextPrekeyId == Succ(entries[i].keyId))
    decreases |entries|
  {
    if entries != [] {
      var rest := entries[1..];
      var k1 := AddOldPrekey(k, entries[0], now);
      AddedCounter(k1, rest, now);
      assert forall i :: 0 <= i < |rest| ==> rest[i] == entries[i + 1];
      if i :| 0 <= i < |rest| && AddOldPrekeys(k1, rest, now).nextPrekeyId == Succ(rest[i].keyId) {
        assert rest[i] == entries[i + 1];
      }
    }
  }

  /** What a record holds: the identity, the current prekey, and every old one with its own secret and date, by rising id. */
  lemma ToRecordIs(k: Keys, e: OldRecord)
    ensures ToRecord(k).Some? <==> k.identity.Some? && k.current.Some?
    ensures ToRecord(k).Some? ==>
              var r := ToRecord(k).value;
              && Some(r.identity) == k.identity && k.current == Some(SignedPrekey(r.keyId, r.secret))
              && (e in r.previous <==> e.keyId in k.previous && k.previous[e.keyId].secret == e.secret && e.retiredAt == Some(k.previous[e.keyId].retiredAt))
              && forall i, j :: 0 <= i < j < |r.previous| ==> r.previous[i].keyId < r.previous[j].keyId
  {
    if ToRecord(k).Some? {
      var ids, l := Falling(k.previous.Keys), ToRecord(k).value.previous;
      hide Falling;
      forall i | 0 <= i < |l| ensures ids[|ids| - 1 - i] in k.previous && l[i] == Recorded(k, ids[|ids| - 1 - i]) {
        assert ids[|ids| - 1 - i] in k.previous;
      }
      if e.keyId in k.previous {
        var j :| 0 <= j < |ids| && ids[j] == e.keyId;
        assert l[|ids| - 1 - j] == Recorded(k, e.keyId);
      }
    }
  }

  // ----- runs -----

  datatype Op =
    | ReceiveOp(carrier: Carrier)
    | GenerateOp(secrets: seq<Option<Bytes>>)
    | PruneOp(min: u32)
    | SetNextOp(next: u32)
    | RotateOp(retiredAt: int, now: int, secret: Bytes)
    | ImportOp(entries: seq<(u32, Bytes)>)
    | RestartOp(record: KeyRecord, pool: seq<(u32, Bytes)>, nextId: u32, now: int)
    | LoginOp

  /** `RestartOp` builds a new client from a key record and a persisted pool with its counter. */
  function Next(open: Handshake, s: State, op: Op): State {
    match op
    case ReceiveOp(c) => Receive(open, s, c).1
    case GenerateOp(secrets) => s.(keys := GenerateOtpks(s.keys, secrets))
    case PruneOp(min) => s.(keys := PruneOtpksBelow(s.keys, min))
    case SetNextOp(next) => s.(keys := SetNextOtpkId(s.keys, next))
    case RotateOp(retiredAt, now, secret) => s.(keys := Rotate(s.keys, retiredAt, now, secret))
    case ImportOp(entries) => s.(keys := ImportOtpks(s.keys, entries))
    case RestartOp(record, pool, nextId, now) => State(false, SetNextOtpkId(ImportOtpks(FromRecord(record, now), pool), nextId), map[], [])
    case LoginOp => s.(userIdSet := true)
  }

  ghost predicate IsRun(open: Handshake, states: seq<State>, ops: seq<Op>) {
    && |states| == |ops| + 1
    && states[0].keys.otpks == map[]
    && forall i :: 0 <= i < |ops| ==> states[i + 1] == Next(open, states[i], ops[i])
  }

  /** A restarted client has no session and opens none until it is told its user id, which changes nothing else. */
  lemma LoginComesFirst(open: Handshake, s: State, op: Op, c: Carrier)
    requires op.RestartOp?
    ensures var s' := Next(open, s, op); s'.sessions == map[] && s'.envelopes == [] && Receive(open, s', c) == (Err(UserIdUnset), s')
    ensures var s' := Next(open, s, LoginOp); s'.userIdSet && s'.(userIdSet := s.userIdSet) == s
  {
  }

  /** Whether an operation opens a session on one-time prekey `id`. */
  predicate OpensWith(open: Handshake, s: State, op: Op, id: u32) {
    id != 0 && op.ReceiveOp? && op.carrier.otpkId == id && Receive(open, s, op.carrier).0.Ok?
  }

  predicate PoolBelowCounter(k: Keys) {
    forall id :: id in k.otpks ==> id < k.nextOtpkId
  }

  /** `id` is spent: it was handed out, and is not held. */
  predicate Spent(k: Keys, id: u32) {
    id !in k.otpks && id < k.nextOtpkId
  }

  /** How many keys a generation makes: those before its first failure. */
  function Made(secrets: seq<Option<Bytes>>): nat {
    if secrets == [] || secrets[0].None? then 0 else 1 + Made(secrets[1..])
  }

  predicate Lists(entries: seq<(u32, Bytes)>, id: u32) {
    exists i :: 0 <= i < |entries| && entries[i].0 == id
  }

  /** The entries leave the counter past `id`: one at or above it follows the last entry that wraps the counter to zero. */
  predicate Past(entries: seq<(u32, Bytes)>, id: u32) {
    exists i :: 0 <= i < |entries| && PastAt(entries, id, i)
  }

  predicate PastAt(entries: seq<(u32, Bytes)>, id: u32, i: int) {
    0 <= i < |entries| && id <= entries[i].0 && !Lists(entries[i..], U32_MAX)
  }

  /** The counter of a pool restored into a new client goes past `id`. */
  predicate Reaches(pool: seq<(u32, Bytes)>, nextId: u32, id: u32) {
    id < nextId || (id < OTPK_ID_START && !Lists(pool, U32_MAX)) || Past(pool, id)
  }

  /** The operation does not take the id counter past its end. */
  predicate NoWrap(s: State, op: Op) {
    match op
    case GenerateOp(secrets) => s.keys.nextOtpkId + Made(secrets) <= U32_MAX
    case ImportOp(entries) => !Lists(entries, U32_MAX)
    case RestartOp(_, pool, _, _) => !Lists(pool, U32_MAX)
    case _ => true
  }

  /**
   The operation brings the spent `id` back: a generation goes round the whole range, a pool lists
   the id, or the counter is left behind it.
   */
  predicate Revives(s: State, op: Op, id: u32) {
    match op
    case GenerateOp(secrets) => s.keys.nextOtpkId + Made(secrets) > U32_MAX
    case ImportOp(entries) => Lists(entries, id) || (Lists(entries, U32_MAX) && !Past(entries, id))
    case RestartOp(_, pool, nextId, _) => Lists(pool, id) || !Reaches(pool, nextId, id)
    case _ => false
  }

  lemma {:induction false} GenerateKeepsSpent(k: Keys, secrets: seq<Option<Bytes>>, id: u32)
    requires k.nextOtpkId + Made(secrets) <= U32_MAX
    ensures PoolBelowCounter(k) ==> PoolBelowCounter(GenerateOtpks(k, secrets))
    ensures Spent(k, id) ==> Spent(GenerateOtpks(k, secrets), id)
    decreases |secrets|
  {
    if secrets != [] && secrets[0].Some? {
      GenerateKeepsSpent(k.(otpks := k.otpks[k.nextOtpkId := secrets[0].value], nextOtpkId := k.nextOtpkId + 1), secrets[1..], id);
    }
  }

  lemma {:induction false} GenerateKeepsHeld(k: Keys, secrets: seq<Option<Bytes>>, id: u32)
    requires id in k.otpks
    ensures id in GenerateOtpks(k, secrets).otpks
    decreases |secrets|
  {
    if secrets != [] && secrets[0].Some? {
      GenerateKeepsHeld(k.(otpks := k.otpks[k.nextOtpkId := secrets[0].value], nextOtpkId := Wrap(k.nextOtpkId + 1)), secrets[1..], id);
    }
  }

  /** A generation past the end of the counter leaves the last id in the pool, above any counter. */
  lemma {:induction false} GenerateWraps(k: Keys, secrets: seq<Option<Bytes>>)
    requires k.nextOtpkId + Made(secrets) > U32_MAX
    ensures U32_MAX in GenerateOtpks(k, secrets).otpks
    decreases |secrets|
  {
    var k1 := k.(otpks := k.otpks[k.nextOtpkId := secrets[0].value], nextOtpkId := Wrap(k.nextOtpkId + 1));
    if k.nextOtpkId == U32_MAX {
      GenerateKeepsHeld(k1, secrets[1..], U32_MAX);
    } else {
      GenerateWraps(k1, secrets[1..]);
    }
  }

  /** Every id below the counter is held. */
  ghost predicate AllHeld(k: Keys) {
    forall id: u32 :: id < k.nextOtpkId ==> id in k.otpks
  }

  lemma {:induction false} GenerateKeepsAllHeld(k: Keys, secrets: seq<Option<Bytes>>)
    requires AllHeld(k)
    ensures AllHeld(GenerateOtpks(k, secrets))
    decreases |secrets|
  {
    if secrets != [] && secrets[0].Some? {
      GenerateKeepsAllHeld(k.(otpks := k.otpks[k.nextOtpkId := secrets[0].value], nextOtpkId := Wrap(k.nextOtpkId + 1)), secrets[1..]);
    }
  }

  /** A generation past the end of the counter fills the range from zero: no id is spent after it. */
  lemma {:induction false} GenerateUnspends(k: Keys, secrets: seq<Option<Bytes>>, id: u32)
    requires k.nextOtpkId + Made(secrets) > U32_MAX
    ensures !Spent(GenerateOtpks(k, secrets), id)
    decreases |secrets|
  {
    var k1 := k.(otpks := k.otpks[k.nextOtpkId := secrets[0].value], nextOtpkId := Wrap(k.nextOtpkId + 1));
    if k.nextOtpkId == U32_MAX {
      GenerateKeepsAllHeld(k1, secrets[1..]);
    } else {
      GenerateUnspends(k1, secrets[1..], id);
    }
  }

  lemma ListsStep(entries: seq<(u32, Bytes)>, id: u32)
    requires entries != []
    ensures Lists(entries, id) <==> entries[0].0 == id || Lists(entries[1..], id)
  {
    var rest := entries[1..];
    if Lists(entries, id) && entries[0].0 != id {
      var i :| 0 <= i < |entries| && entries[i].0 == id;
      assert rest[i - 1] == entries[i];
    }
    if Lists(rest, id) {
      var i :| 0 <= i < |rest| && rest[i].0 == id;
      assert entries[i + 1] == rest[i];
    }
  }

  lemma {:induction false} ImportedIds(k: Keys, entries: seq<(u32, Bytes)>, id: u32)
    ensures id in ImportOtpks(k, entries).otpks <==> id in k.otpks || Lists(entries, id)
    decreases |entries|
  {
    if entries != [] {
      ListsStep(entries, id);
      ImportedIds(Imported(k, entries[0].0, entries[0].1), entries[1..], id);
    }
  }

  lemma PastAtShift(entries: seq<(u32, Bytes)>, id: u32, i: int)
    requires entries != [] && i > 0
    ensures PastAt(entries, id, i) <==> PastAt(entries[1..], id, i - 1)
  {
    hide Lists;
    if i < |entries| {
      assert entries[1..][i - 1] == entries[i] && entries[1..][i - 1..] == entries[i..];
    }
  }

  lemma PastStep(entries: seq<(u32, Bytes)>, id: u32)
    requires entries != []
    ensures Past(entries, id) <==> Past(entries[1..], id) || (id <= entries[0].0 && !Lists(entries, U32_MAX))
  {
    hide Lists;
    assert PastAt(entries, id, 0) <==> id <= entries[0].0 && !Lists(entries, U32_MAX) by {
      assert entries[0..] == entries;
    }
    if i :| i != 0 && PastAt(entries, id, i) {
      PastAtShift(entries, id, i);
    }
    if i :| PastAt(entries[1..], id, i) {
      PastAtShift(entries, id, i + 1);
    }
  }

  /** The counter after any import, exactly: past an id if an entry put it there, or if it was and no entry wrapped it. */
  lemma {:induction false} ImportCounter(k: Keys, entries: seq<(u32, Bytes)>, id: u32)
    ensures id < ImportOtpks(k, entries).nextOtpkId <==> (id < k.nextOtpkId && !Lists(entries, U32_MAX)) || Past(entries, id)
    decreases |entries|
  {
    if entries != [] {
      ListsStep(entries, U32_MAX);
      PastStep(entries, id);
      ImportCounter(Imported(k, entries[0].0, entries[0].1), entries[1..], id);
    }
  }

  /** One import, exactly: a spent id stays spent when it is not listed and no wrap leaves the counter behind it. */
  lemma ImportSpentIff(k: Keys, entries: seq<(u32, Bytes)>, id: u32)
    requires Spent(k, id)
    ensures Spent(ImportOtpks(k, entries), id) <==> !Lists(entries, id) && (Lists(entries, U32_MAX) ==> Past(entries, id))
  {
    hide ImportOtpks;
    hide Lists;
    hide Past;
    ImportedIds(k, entries, id);
    ImportCounter(k, entries, id);
  }

  /** One restart, exactly: an id is spent afterwards when the pool does not list it and its counter goes past it. */
  lemma RestartSpentIff(k: Keys, pool: seq<(u32, Bytes)>, nextId: u32, id: u32)
    requires k.otpks == map[] && k.nextOtpkId == OTPK_ID_START
    ensures Spent(SetNextOtpkId(ImportOtpks(k, pool), nextId), id) <==> !Lists(pool, id) && Reaches(pool, nextId, id)
  {
    hide ImportOtpks;
    hide Lists;
    hide Past;
    ImportedIds(k, pool, id);
    ImportCounter(k, pool, id);
  }

  lemma RecordHasNoPool(r: KeyRecord, now: int)
    ensures FromRecord(r, now).otpks == map[] && FromRecord(r, now).nextOtpkId == OTPK_ID_START
  {
    hide AddOldPrekeys;
    AddingKeeps(FreshKeys(r.identity, r.keyId, r.secret), r.previous, now);
  }

  /** One operation, exactly: a spent id stays spent unless the operation brings it back, and only then. */
  lemma SpentIff(open: Handshake, s: State, op: Op, id: u32)
    requires Spent(s.keys, id)
    ensures Spent(Next(open, s, op).keys, id) <==> !Revives(s, op, id)
  {
    hide Receive;
    hide GenerateOtpks;
    hide ImportOtpks;
    hide FromRecord;
    hide Rotate;
    hide Lists;
    hide Past;
    hide Reaches;
    match op {
      case ReceiveOp(c) => ReceiveKeepsSpent(open, s, c, id);
      case GenerateOp(secrets) =>
        if NoWrap(s, op) { GenerateKeepsSpent(s.keys, secrets, id); } else { GenerateUnspends(s.keys, secrets, id); }
      case ImportOp(entries) => ImportSpentIff(s.keys, entries, id);
      case RestartOp(record, pool, nextId, now) =>
        RecordHasNoPool(record, now);
        RestartSpentIff(FromRecord(record, now), pool, nextId, id);
      case RotateOp(retiredAt, now, secret) => RotateKeepsPool(s.keys, retiredAt, now, secret);
      case _ =>
    }
  }

  lemma ReceiveKeepsSpent(open: Handshake, s: State, c: Carrier, id: u32)
    ensures var k := Receive(open, s, c).1.keys;
            (PoolBelowCounter(s.keys) ==> PoolBelowCounter(k)) && (Spent(s.keys, id) ==> Spent(k, id))
  {
    hide Receive;
    if Receive(open, s, c).0.Ok? {
      SuccessBurnsOne(open, s, c);
    } else {
      FailureBurnsNothing(open, s, c);
    }
  }

  lemma RotateKeepsPool(k: Keys, retiredAt: int, now: int, secret: Bytes)
    ensures var k' := Rotate(k, retiredAt, now, secret); k'.otpks == k.otpks && k'.nextOtpkId == k.nextOtpkId
  {
  }

  lemma ListedIsPast(entries: seq<(u32, Bytes)>, id: u32)
    requires Lists(entries, id) && !Lists(entries, U32_MAX)
    ensures Past(entries, id)
  {
    var i :| 0 <= i < |entries| && entries[i].0 == id;
    assert forall j :: 0 <= j < |entries[i..]| ==> entries[i..][j] == entries[i + j];
    assert PastAt(entries, id, i);
  }

  lemma ImportBelowIff(k: Keys, entries: seq<(u32, Bytes)>)
    requires PoolBelowCounter(k)
    ensures PoolBelowCounter(ImportOtpks(k, entries)) <==> !Lists(entries, U32_MAX)
  {
    hide ImportOtpks;
    var k' := ImportOtpks(k, entries);
    if Lists(entries, U32_MAX) {
      ImportedIds(k, entries, U32_MAX);
    } else {
      forall id | id in k'.otpks ensures id < k'.nextOtpkId {
        ImportedIds(k, entries, id);
        ImportCounter(k, entries, id);
        if Lists(entries, id) { ListedIsPast(entries, id); }
      }
    }
  }

  /** The pool stays below the counter exactly while the counter does not wrap. */
  lemma BelowIff(open: Handshake, s: State, op: Op)
    requires PoolBelowCounter(s.keys)
    ensures PoolBelowCounter(Next(open, s, op).keys) <==> NoWrap(s, op)
  {
    hide Receive;
    hide GenerateOtpks;
    hide ImportOtpks;
    hide FromRecord;
    hide Rotate;
    hide Lists;
    match op {
      case ReceiveOp(c) => ReceiveKeepsSpent(open, s, c, 0);
      case GenerateOp(secrets) =>
        if NoWrap(s, op) { GenerateKeepsSpent(s.keys, secrets, 0); } else { GenerateWraps(s.keys, secrets); }
      case ImportOp(entries) => ImportBelowIff(s.keys, entries);
      case RestartOp(record, pool, nextId, now) =>
        RecordHasNoPool(record, now);
        ImportBelowIff(FromRecord(record, now), pool);
        if Lists(pool, U32_MAX) { ImportedIds(FromRecord(record, now), pool, U32_MAX); }
      case RotateOp(retiredAt, now, secret) => RotateKeepsPool(s.keys, retiredAt, now, secret);
      case _ =>
    }
  }

  lemma {:induction false} PoolStaysBelow(open: Handshake, states: seq<State>, ops: seq<Op>, j: nat)
    requires IsRun(open, states, ops) && j < |states|
    requires forall l :: 0 <= l < j ==> NoWrap(states[l], ops[l])
    ensures PoolBelowCounter(states[j].keys)
  {
    hide Next;
    hide NoWrap;
    if j > 0 {
      PoolStaysBelow(open, states, ops, j - 1);
      BelowIff(open, states[j - 1], ops[j - 1]);
    }
  }

  /** Spent for good: no operation between brings the id back, so it is still spent. */
  lemma {:induction false} SpentStaysSpent(open: Handshake, states: seq<State>, ops: seq<Op>, i: nat, j: nat, id: u32)
    requires IsRun(open, states, ops) && i <= j < |states|
    requires forall l :: i <= l < j ==> !Revives(states[l], ops[l], id)
    requires Spent(states[i].keys, id)
    ensures Spent(states[j].keys, id)
    decreases j
  {
    hide Next;
    hide Revives;
    if i < j {
      SpentStaysSpent(open, states, ops, i, j - 1, id);
      SpentIff(open, states[j - 1], ops[j - 1], id);
    }
  }

  lemma OpeningSpends(open: Handshake, s: State, op: Op, id: u32)
    requires OpensWith(open, s, op, id)
    ensures id in s.keys.otpks
    ensures id < s.keys.nextOtpkId ==> Spent(Next(open, s, op).keys, id)
  {
    hide Receive;
    SuccessBurnsOne(open, s, op.carrier);
  }

  /**
   Linearity: over any run, imports and restarts included, a one-time prekey below the counter when
   it opens a session opens no other, unless an operation in between brings the burned id back.
   */
  lemma OneSessionPerOtpk(open: Handshake, states: seq<State>, ops: seq<Op>, i: nat, j: nat, id: u32)
    requires IsRun(open, states, ops) && i < j < |ops|
    requires OpensWith(open, states[i], ops[i], id) && id < states[i].keys.nextOtpkId
    requires forall l :: i < l < j ==> !Revives(states[l], ops[l], id)
    ensures !OpensWith(open, states[j], ops[j], id)
  {
    hide Next;
    hide Revives;
    hide OpensWith;
    OpeningSpends(open, states[i], ops[i], id);
    SpentStaysSpent(open, states, ops, i + 1, j, id);
    if OpensWith(open, states[j], ops[j], id) {
      OpeningSpends(open, states[j], ops[j], id);
    }
  }

  /** The counter is above every key of a run that has not wrapped it, so there every session's key is used once. */
  lemma OneSessionWithoutWrap(open: Handshake, states: seq<State>, ops: seq<Op>, i: nat, j: nat, id: u32)
    requires IsRun(open, states, ops) && i < j < |ops|
    requires forall l :: 0 <= l < i ==> NoWrap(states[l], ops[l])
    requires OpensWith(open, states[i], ops[i], id)
    requires forall l :: i < l < j ==> !Revives(states[l], ops[l], id)
    ensures !OpensWith(open, states[j], ops[j], id)
  {
    hide Next;
    hide NoWrap;
    hide Revives;
    hide OpensWith;
    PoolStaysBelow(open, states, ops, i);
    OpeningSpends(open, states[i], ops[i], id);
    OneSessionPerOtpk(open, states, ops, i, j, id);
  }

  /** A pool as it is exported: every key held once, in no set order. */
  ghost predicate ListsPool(pool: seq<(u32, Bytes)>, otpks: map<u32, Bytes>) {
    && (forall i :: 0 <= i < |pool| ==> pool[i].0 in otpks && otpks[pool[i].0] == pool[i].1)
    && (forall id :: id in otpks ==> Lists(pool, id))
  }

  lemma {:induction false} ImportedValues(k: Keys, entries: seq<(u32, Bytes)>, otpks: map<u32, Bytes>)
    requires forall i :: 0 <= i < |entries| ==> entries[i].0 in otpks && otpks[entries[i].0] == entries[i].1
    requires forall id :: id in k.otpks ==> id in otpks && k.otpks[id] == otpks[id]
    ensures forall id :: id in ImportOtpks(k, entries).otpks ==> id in otpks && ImportOtpks(k, entries).otpks[id] == otpks[id]
    decreases |entries|
  {
    if entries != [] {
      assert forall i :: 0 <= i < |entries| - 1 ==> entries[1..][i] == entries[i + 1];
      ImportedValues(Imported(k, entries[0].0, entries[0].1), entries[1..], otpks);
    }
  }

  /** A restart from the latest export gives back the pool, wraps no counter and brings no spent id back. */
  lemma LatestExportIsSafe(open: Handshake, s: State, record: KeyRecord, pool: seq<(u32, Bytes)>, now: int)
    requires PoolBelowCounter(s.keys) && ListsPool(pool, s.keys.otpks)
    ensures var op := RestartOp(record, pool, s.keys.nextOtpkId, now);
            && NoWrap(s, op) && Next(open, s, op).keys.otpks == s.keys.otpks
            && forall id :: Spent(s.keys, id) ==> !Revives(s, op, id)
  {
    hide ImportOtpks;
    hide FromRecord;
    var k := FromRecord(record, now);
    var after := ImportOtpks(k, pool).otpks;
    RecordHasNoPool(record, now);
    ImportedValues(k, pool, s.keys.otpks);
    forall id ensures id in after <==> id in s.keys.otpks {
      ImportedIds(k, pool, id);
    }
    assert after.Keys == s.keys.otpks.Keys;
  }

  /** Why a listed id must not be spent: restoring a pool that still lists a burned key lets the same carrier open again. */
  lemma ImportReopens(open: Handshake, s: State, c: Carrier)
    requires c.otpkId != 0 && Receive(open, s, c).0.Ok?
    ensures var s1 := Receive(open, s, c).1;
            var s2 := Next(open, s1, ImportOp([(c.otpkId, s.keys.otpks[c.otpkId])]));
            Receive(open, s2, c).0.Ok?
  {
    hide ImportOtpks;
    hide FirstSuccess;
    hide NewestFirst;
    hide Register;
    hide Wrap;
    var s1 := Receive(open, s, c).1;
    ImportOne(s1.keys, c.otpkId, s.keys.otpks[c.otpkId]);
    var s2 := Next(open, s1, ImportOp([(c.otpkId, s.keys.otpks[c.otpkId])]));
    SuccessBurnsOne(open, s, c);
    OpensIff(open, s, c);
    assert s1.userIdSet;
    assert Candidates(s2.keys) == Candidates(s.keys);
    OpensIff(open, s2, c);
  }

  lemma ImportOne(k: Keys, id: u32, secret: Bytes)
    ensures ImportOtpks(k, [(id, secret)]) == Imported(k, id, secret)
  {
    var entries: seq<(u32, Bytes)> := [(id, secret)];
    assert entries[1..] == [];
  }

  /** Why the counter must not wrap: past its end it restarts at zero, and a raised counter hands a spent id out again. */
  lemma CounterWrapReissues(open: Handshake, s: State, id: u32, x: Bytes, y: Bytes)
    requires s.keys.nextOtpkId == U32_MAX && 0 < id
    ensures var s1 := Next(open, s, GenerateOp([Some(x)]));
            var s2 := Next(open, s1, SetNextOp(id));
            var s3 := Next(open, s2, GenerateOp([Some(y)]));
            id in s3.keys.otpks && s3.keys.otpks[id] == y
  {
    GenerateOne(s.keys, x);
    var k := SetNextOtpkId(GenerateOtpks(s.keys, [Some(x)]), id);
    GenerateOne(k, y);
  }

  lemma GenerateOne(k: Keys, x: Bytes)
    ensures GenerateOtpks(k, [Some(x)])
         == k.(otpks := k.otpks[k.nextOtpkId := x], nextOtpkId := Wrap(k.nextOtpkId + 1))
  {
    var secrets: seq<Option<Bytes>> := [Some(x)];
    assert secrets[1..] == [];
  }

  // ----- retention of the classic signed prekey -----

  /** Rotation keeps ids apart while the counter has room. */
  predicate IdsApart(k: Keys) {
    && (forall id :: id in k.previous ==> id < k.nextPrekeyId && (k.current.Some? ==> id != k.current.value.keyId))
    && (k.current.Some? ==> k.current.value.keyId < k.nextPrekeyId)
  }

  predicate Retained(k: Keys, secret: Bytes, t: int) {
    (k.current.Some? && k.current.value.secret == secret)
    || exists id :: id in k.previous && k.previous[id].secret == secret && k.previous[id].retiredAt >= t
  }

  /** Retiring the current prekey overwrites no other. */
  predicate Room(k: Keys) {
    k.current.Some? ==> k.current.value.keyId !in k.previous
  }

  /** Rotations with room, restarts from the latest record, and clocks that stand before the end of `t`'s window. */
  predicate Timely(s: State, op: Op, t: int) {
    && (op.RotateOp? ==> t <= op.retiredAt && op.now < t + RETENTION && Room(s.keys))
    && (op.RestartOp? ==> ToRecord(s.keys) == Some(op.record) && op.now < t + RETENTION)
  }

  /** A rotation keeps a retained prekey exactly when it is the outgoing one or is not filed under the outgoing one's id. */
  lemma RotateRetainsIff(k: Keys, retiredAt: int, now: int, replacement: Bytes, secret: Bytes, t: int)
    requires Retained(k, secret, t) && t <= retiredAt && now < t + RETENTION && replacement != secret
    ensures Retained(Rotate(k, retiredAt, now, replacement), secret, t)
       <==> || (k.current.Some? && k.current.value.secret == secret)
            || exists id :: && id in k.previous && k.previous[id].secret == secret && k.previous[id].retiredAt >= t
                            && !(k.current.Some? && k.current.value.keyId == id)
  {
    var k' := Rotate(k, retiredAt, now, replacement);
    if k.current.Some? && k.current.value.secret == secret {
      var id := k.current.value.keyId;
      assert id in k'.previous && k'.previous[id] == OldPrekey(secret, retiredAt);
    } else {
      forall id ensures && id in k'.previous && k'.previous[id].secret == secret && k'.previous[id].retiredAt >= t
                   <==> && id in k.previous && k.previous[id].secret == secret && k.previous[id].retiredAt >= t
                        && !(k.current.Some? && k.current.value.keyId == id)
      {
      }
    }
  }

  lemma RotateRetains(k: Keys, retiredAt: int, now: int, replacement: Bytes, secret: Bytes, t: int)
    requires Retained(k, secret, t) && t <= retiredAt && now < t + RETENTION && Room(k)
    ensures Retained(Rotate(k, retiredAt, now, replacement), secret, t)
  {
    if replacement != secret {
      hide Rotate;
      RotateRetainsIff(k, retiredAt, now, replacement, secret, t);
    }
  }

  /** Without room, at the end of the id range, a second rotation loses a prekey retired a moment ago. */
  lemma FullRangeLoses(k: Keys, t: int, a: Bytes, b: Bytes, c: Bytes)
    requires k.current == Some(SignedPrekey(U32_MAX, a)) && k.previous == map[] && k.nextPrekeyId == U32_MAX && a != b && a != c
    ensures !Retained(Rotate(Rotate(k, t, t, b), t, t, c), a, t)
  {
  }

  /** Restarting from the latest record keeps what is retained. */
  lemma RestartRetains(k: Keys, now: int, secret: Bytes, t: int)
    requires ToRecord(k).Some? && Retained(k, secret, t) && now < t + RETENTION
    ensures Retained(FromRecord(ToRecord(k).value, now), secret, t)
  {
    hide AddOldPrekeys;
    var r := ToRecord(k).value;
    var start := FreshKeys(r.identity, r.keyId, r.secret);
    AddingKeeps(start, r.previous, now);
    if k.current.value.secret != secret {
      var id :| id in k.previous && k.previous[id].secret == secret && k.previous[id].retiredAt >= t;
      var i := RecordedAt(k, id);
      RestoredIff(start, r.previous, now, i);
    }
  }

  lemma RecordedAt(k: Keys, id: u32) returns (i: nat)
    requires ToRecord(k).Some? && id in k.previous
    ensures var l := ToRecord(k).value.previous; i < |l| && l[i] == Recorded(k, id) && DistinctRecords(l)
  {
    var ids := Falling(k.previous.Keys);
    var j :| 0 <= j < |ids| && ids[j] == id;
    i := |ids| - 1 - j;
    RecordsDistinct(k);
  }

  lemma RecordsDistinct(k: Keys)
    requires ToRecord(k).Some?
    ensures DistinctRecords(ToRecord(k).value.previous)
    ensures forall e :: e in ToRecord(k).value.previous ==> e.keyId in k.previous
  {
    hide Falling;
    var ids, l := Falling(k.previous.Keys), ToRecord(k).value.previous;
    forall i | 0 <= i < |l| ensures l[i].keyId == ids[|ids| - 1 - i] && l[i].keyId in k.previous {
      assert ids[|ids| - 1 - i] in k.previous;
      assert l[i] == Recorded(k, ids[|ids| - 1 - i]);
    }
  }

  // Ids stay apart while the range has room, and then rotations have room.

  lemma {:induction false} AddingApart(k: Keys, entries: seq<OldRecord>, now: int)
    requires IdsApart(k) && k.current.Some?
    requires forall e :: e in entries ==> e.keyId != U32_MAX && e.keyId != k.current.value.keyId
    ensures IdsApart(AddOldPrekeys(k, entries, now))
    decreases |entries|
  {
    if entries != [] {
      assert forall e :: e in entries[1..] ==> e in entries;
      AddingApart(AddOldPrekey(k, entries[0], now), entries[1..], now);
    }
  }

  lemma StepApart(open: Handshake, s: State, op: Op)
    requires IdsApart(s.keys)
    requires op.RotateOp? ==> s.keys.nextPrekeyId < U32_MAX
    requires op.RestartOp? ==> ToRecord(s.keys) == Some(op.record)
    ensures Room(s.keys) && IdsApart(Next(open, s, op).keys)
  {
    hide Receive;
    hide GenerateOtpks;
    hide ImportOtpks;
    hide AddOldPrekeys;
    match op {
      case ReceiveOp(c) =>
        if Receive(open, s, c).0.Ok? { SuccessBurnsOne(open, s, c); } else { FailureBurnsNothing(open, s, c); }
      case GenerateOp(secrets) => GenerateKeepsSigned(s.keys, secrets);
      case ImportOp(entries) => ImportKeepsSigned(s.keys, entries);
      case RestartOp(record, pool, nextId, now) =>
        RecordsDistinct(s.keys);
        AddingApart(FreshKeys(record.identity, record.keyId, record.secret), record.previous, now);
        ImportKeepsSigned(FromRecord(record, now), pool);
      case _ =>
    }
  }

  lemma {:induction false} GenerateKeepsSigned(k: Keys, secrets: seq<Option<Bytes>>)
    ensures GenerateOtpks(k, secrets).(otpks := k.otpks, nextOtpkId := k.nextOtpkId) == k
    decreases |secrets|
  {
    if secrets != [] && secrets[0].Some? {
      GenerateKeepsSigned(k.(otpks := k.otpks[k.nextOtpkId := secrets[0].value], nextOtpkId := Wrap(k.nextOtpkId + 1)), secrets[1..]);
    }
  }

  lemma {:induction false} ImportKeepsSigned(k: Keys, entries: seq<(u32, Bytes)>)
    ensures ImportOtpks(k, entries).(otpks := k.otpks, nextOtpkId := k.nextOtpkId) == k
    decreases |entries|
  {
    if entries != [] {
      ImportKeepsSigned(Imported(k, entries[0].0, entries[0].1), entries[1..]);
    }
  }

  lemma StepRetains(open: Handshake, s: State, op: Op, secret: Bytes, t: int)
    requires Retained(s.keys, secret, t) && Timely(s, op, t)
    ensures Retained(Next(open, s, op).keys, secret, t)
  {
    hide Receive;
    hide GenerateOtpks;
    hide ImportOtpks;
    hide Rotate;
    hide FromRecord;
    match op {
      case ReceiveOp(c) =>
        if Receive(open, s, c).0.Ok? { SuccessBurnsOne(open, s, c); } else { FailureBurnsNothing(open, s, c); }
      case GenerateOp(secrets) => GenerateKeepsSigned(s.keys, secrets);
      case ImportOp(entries) => ImportKeepsSigned(s.keys, entries);
      case RotateOp(retiredAt, now, replacement) => RotateRetains(s.keys, retiredAt, now, replacement, secret, t);
      case RestartOp(record, pool, nextId, now) =>
        RestartRetains(s.keys, now, secret, t);
        ImportKeepsSigned(FromRecord(record, now), pool);
      case _ =>
    }
  }

  lemma RetainedIsCandidate(k: Keys, secret: Bytes, t: int)
    requires Retained(k, secret, t)
    ensures secret in Candidates(k)
  {
    hide NewestFirst;
  }

  /** A signed prekey current at `t` is tried on every first flight before `t` plus the retention, through rotations and restarts. */
  lemma {:induction false} CurrentStaysCandidate(open: Handshake, states: seq<State>, ops: seq<Op>, i: nat, j: nat, t: int)
    requires IsRun(open, states, ops) && i <= j < |states|
    requires states[i].keys.current.Some?
    requires forall l :: i <= l < j ==> Timely(states[l], ops[l], t)
    ensures Retained(states[j].keys, states[i].keys.current.value.secret, t)
    ensures states[i].keys.current.value.secret in Candidates(states[j].keys)
    decreases j
  {
    hide Next;
    hide Candidates;
    hide Timely;
    var secret := states[i].keys.current.value.secret;
    if i < j {
      CurrentStaysCandidate(open, states, ops, i, j - 1, t);
      StepRetains(open, states[j - 1], ops[j - 1], secret, t);
    }
    RetainedIsCandidate(states[j].keys, secret, t);
  }

  /** What a run must do for its rotations and restarts to keep a prekey: clocks before the end of the window, and ids left. */
  predicate InTime(s: State, op: Op, t: int) {
    && (op.RotateOp? ==> t <= op.retiredAt && op.now < t + RETENTION && s.keys.nextPrekeyId < U32_MAX)
    && (op.RestartOp? ==> ToRecord(s.keys) == Some(op.record) && op.now < t + RETENTION)
  }

  /** From ids that stand apart, as a new client's do, room for every rotation follows from ids being left. */
  lemma {:induction false} CurrentStaysCandidateFrom(open: Handshake, states: seq<State>, ops: seq<Op>, i: nat, j: nat, t: int)
    requires IsRun(open, states, ops) && i <= j < |states|
    requires IdsApart(states[i].keys) && states[i].keys.current.Some?
    requires forall l :: i <= l < j ==> InTime(states[l], ops[l], t)
    ensures IdsApart(states[j].keys) && (forall l :: i <= l < j ==> Timely(states[l], ops[l], t))
    ensures states[i].keys.current.value.secret in Candidates(states[j].keys)
    decreases j
  {
    hide Next;
    hide Candidates;
    hide IdsApart;
    hide Room;
    if i < j {
      CurrentStaysCandidateFrom(open, states, ops, i, j - 1, t);
      StepApart(open, states[j - 1], ops[j - 1]);
    }
    CurrentStaysCandidate(open, states, ops, i, j, t);
  }

  lemma PrunedCount(k: Keys, min: u32)
    ensures |k.otpks| == |PruneOtpksBelow(k, min).otpks| + |set id | id in k.otpks && id < min|
  {
    var kept, gone := PruneOtpksBelow(k, min).otpks, set id | id in k.otpks && id < min;
    assert k.otpks.Keys == gone + kept.Keys && gone !! kept.Keys;
    assert |k.otpks| == |k.otpks.Keys| && |kept| == |kept.Keys|;
  }

  // ----- the client as code -----

  class Client {
    var userIdSet: bool
    var keys: Keys
    var sessions: map<string, Bytes>
    var envelopes: seq<Entry>

    function View(): State
      reads this
    {
      State(userIdSet, keys, sessions, envelopes)
    }

    /** `Client::new`, once its keys are generated: no session, an empty pool, and ids in their first places. */
    constructor (identity: Bytes, secret: Bytes, now: int)
      ensures View() == State(false, Keys(Some(identity), Some(SignedPrekey(1, secret)), map[], map[], 2, 1_000_000), map[], [])
      ensures IdsApart(keys) && PoolBelowCounter(keys)
    {
      userIdSet, sessions, envelopes := false, map[], [];
      keys := Keys(Some(identity), None, map[], map[], 1, OTPK_ID_START);
      new;
      var _ := RotateSignedPrekey(true, Some(secret), true, now, now);
    }

    /** Holds the identity and current signed prekey of a record, and nothing else yet. */
    constructor Restored(record: KeyRecord)
      ensures View() == State(false, FreshKeys(record.identity, record.keyId, record.secret), map[], [])
    {
      userIdSet, sessions, envelopes := false, map[], [];
      keys := FreshKeys(record.identity, record.keyId, record.secret);
    }

    /**
     `from_private_keys_cfe`: the current prekey, then each old one in turn. `derive` is the public
     half of a secret; a secret without one, among those that are kept, ends the restore.
     */
    static method FromPrivateKeysCfe(derive: Bytes -> Option<Bytes>, record: KeyRecord, now: int) returns (r: Option<Client>)
      ensures r.Some? <==> Derivable(derive, record, now)
      ensures r.Some? ==> fresh(r.value) && r.value.View() == State(false, FromRecord(record, now), map[], [])
    {
      if derive(record.identity).None? || derive(record.secret).None? {
        return None;
      }
      var c := new Client.Restored(record);
      ghost var spec := FromRecord(record, now);
      assert record.previous[0..] == record.previous;
      for i := 0 to |record.previous|
        invariant fresh(c) && c.View() == State(false, c.keys, map[], [])
        invariant spec == AddOldPrekeys(c.keys, record.previous[i..], now)
        invariant forall j :: 0 <= j < i ==> Restorable(derive, record.previous[j], now)
      {
        assert record.previous[i..][1..] == record.previous[i + 1..];
        var e := record.previous[i];
        var retiredAt := if e.retiredAt.Some? then e.retiredAt.value else now;
        if now - retiredAt < RETENTION {
          if derive(e.secret).None? {
            assert !Restorable(derive, record.previous[i], now);
            return None;
          }
          c.AddKept(e, retiredAt);
        }
      }
      return Some(c);
    }

    /** `add_old_prekey`, past its checks. */
    method AddKept(e: OldRecord, retiredAt: int)
      modifies this`keys
      ensures keys == old(keys).(previous := old(keys).previous[e.keyId := OldPrekey(e.secret, retiredAt)], nextPrekeyId :=
                if e.keyId >= old(keys).nextPrekeyId then Succ(e.keyId) else old(keys).nextPrekeyId)
    {
      keys := keys.(previous := keys.previous[e.keyId := OldPrekey(e.secret, retiredAt)]);
      if e.keyId >= keys.nextPrekeyId {
        keys := keys.(nextPrekeyId := Succ(e.keyId));
      }
    }

    /** `init_receiving_session_with_ephemeral`. */
    method InitReceivingSession(open: Handshake, c: Carrier) returns (r: Result<(string, Bytes), InitError>)
      modifies this
      ensures (r, View()) == Receive(open, old(View()), c)
    {
      hide NewestFirst;
      hide Candidates;
      hide Register;
      if !userIdSet {
        return Err(UserIdUnset);
      }
      sessions := sessions - {c.contact};
      var otpk: Option<Bytes> := None;
      if c.otpkId != 0 {
        if c.otpkId !in keys.otpks {
          return Err(OtpkMissing(c.otpkId));
        }
        otpk := Some(keys.otpks[c.otpkId]);
      }
      if keys.identity.None? {
        return Err(NoIdentity);
      }
      var identity := keys.identity.value;
      var candidates := Candidates(keys);
      if candidates == [] {
        return Err(NoPrekeys);
      }
      var lastErr := "No prekeys tried";
      ghost var spec := FirstSuccess(open, identity, candidates, otpk, c, lastErr);
      for i := 0 to |candidates|
        invariant unchanged(`userIdSet) && unchanged(`keys) && unchanged(`envelopes)
        invariant sessions == old(sessions) - {c.contact}
        invariant spec == FirstSuccess(open, identity, candidates[i..], otpk, c, lastErr)
      {
        assert candidates[i..][1..] == candidates[i + 1..];
        var attempt := open(identity, candidates[i], otpk, c);
        if attempt.Ok? {
          var o := attempt.value;
          envelopes := Register(envelopes, c.contact, o);
          sessions := sessions[c.contact := o.session];
          if c.otpkId != 0 {
            keys := keys.(otpks := keys.otpks - {c.otpkId});
          }
          return Ok((o.sessionId, o.plaintext));
        }
        lastErr := attempt.error;
      }
      return Err(AllFailed(|candidates|, lastErr));
    }

    /** `generate_one_time_prekeys`; `None` is a failed generation. */
    method GenerateOneTimePrekeys(secrets: seq<Option<Bytes>>) returns (ids: Option<seq<u32>>)
      modifies this`keys
      ensures View() == Next((_, _, _, _) => Err(""), old(View()), GenerateOp(secrets))
      ensures ids.Some? ==> |ids.value| == |secrets| && forall i :: 0 <= i < |secrets| ==>
                ids.value[i] == Wrap(old(keys.nextOtpkId) + i)
      ensures ids.None? <==> None in secrets
    {
      hide Wrap;
      ghost var spec := GenerateOtpks(keys, secrets);
      WrapSmall(keys.nextOtpkId);
      var made: seq<u32> := [];
      assert secrets[0..] == secrets;
      for i := 0 to |secrets|
        invariant unchanged(`userIdSet) && unchanged(`sessions) && unchanged(`envelopes)
        invariant spec == GenerateOtpks(keys, secrets[i..])
        invariant None !in secrets[..i] && |made| == i
        invariant keys.nextOtpkId == Wrap(old(keys.nextOtpkId) + i)
        invariant forall j :: 0 <= j < i ==> made[j] == Wrap(old(keys.nextOtpkId) + j)
      {
        assert secrets[i..][1..] == secrets[i + 1..];
        if secrets[i].None? {
          return None;
        }
        var id := keys.nextOtpkId;
        WrapStep(old(keys.nextOtpkId) + i);
        keys := keys.(otpks := keys.otpks[id := secrets[i].value], nextOtpkId := Wrap(id as nat + 1));
        made := made + [id];
      }
      return Some(made);
    }

    /** `import_one_time_prekeys`: entries that fail the check of their pair are dropped. */
    method ImportOneTimePrekeys(derive: Bytes -> Option<Bytes>, entries: seq<(u32, Bytes, Bytes)>)
      modifies this`keys
      ensures View() == Next((_, _, _, _) => Err(""), old(View()), ImportOp(Checked(derive, entries)))
    {
      hide Wrap;
      hide ImportOtpks;
      hide Checked;
      ghost var spec := ImportOtpks(keys, Checked(derive, entries));
      assert entries[0..] == entries;
      for i := 0 to |entries|
        invariant unchanged(`userIdSet) && unchanged(`sessions) && unchanged(`envelopes)
        invariant spec == ImportOtpks(keys, Checked(derive, entries[i..]))
      {
        assert entries[i..][1..] == entries[i + 1..];
        CheckedStep(derive, keys, entries[i..]);
        var (id, secret, public) := entries[i];
        if derive(secret) == Some(public) {
          keys := keys.(otpks := keys.otpks[id := secret]);
          if id >= keys.nextOtpkId {
            keys := keys.(nextOtpkId := Wrap(id as nat + 1));
          }
        }
      }
      NothingChecked(derive, keys);
    }

    /** `prune_one_time_prekeys_below`: the count is what left the pool. */
    method PruneOneTimePrekeysBelow(min: u32) returns (pruned: nat)
      modifies this`keys
      ensures View() == Next((_, _, _, _) => Err(""), old(View()), PruneOp(min))
      ensures pruned == |set id | id in old(keys.otpks) && id < min|
    {
      hide Receive;
      hide GenerateOtpks;
      hide ImportOtpks;
      hide FromRecord;
      hide Rotate;
      var before := |keys.otpks|;
      PrunedCount(keys, min);
      keys := keys.(otpks := map id | id in keys.otpks && id >= min :: keys.otpks[id]);
      pruned := before - |keys.otpks|;
    }

    /**
     `rotate_signed_prekey`: the outgoing prekey is retired, then the expired ones go. Without a
     signing key, a generated pair or its signature nothing changes.
     */
    method RotateSignedPrekey(hasSigningKey: bool, generated: Option<Bytes>, signed: bool, retiredAt: int, now: int) returns (ok: bool)
      modifies this`keys
      ensures ok <==> hasSigningKey && generated.Some? && signed
      ensures View() == if ok then Next((_, _, _, _) => Err(""), old(View()), RotateOp(retiredAt, now, generated.value)) else old(View())
    {
      if !hasSigningKey || generated.None? || !signed {
        return false;
      }
      var id := keys.nextPrekeyId;
      keys := keys.(nextPrekeyId := Succ(id));
      if keys.current.Some? {
        var outgoing := keys.current.value;
        keys := keys.(previous := keys.previous[outgoing.keyId := OldPrekey(outgoing.secret, retiredAt)]);
      }
      keys := keys.(current := Some(SignedPrekey(id, generated.value)));
      keys := keys.(previous := map i | i in keys.previous && KeptOld(keys.previous[i], now) :: keys.previous[i]);
      return true;
    }
  }
}
