/**
 The server keys a client accepts: pinned roots, and the delegations admitted under them. The ring
 is a small state machine; its verdict on a server signature is proved equal to a statement about
 the set of admitted windows and the first key held under the kid. Nothing else about the order of
 admission can change it, and that only where two keys share the kid.
 */
module KeyRing {
  import opened ByteStrings
  import opened SignedMessages

  datatype Suite = Suite(sha: Sha, hybrid: (Bytes, Bytes, Bytes) -> bool)

  datatype TrustError = Malformed | NoRoot | NotRooted | UnknownKey | WrongPurpose | OutsideWindow | Expired | BadSignature

  const I64_MAX: i64 := 0x7FFF_FFFF_FFFF_FFFF

  function SaturatingAdd(a: i64, b: i64): i64
    requires b >= 0
  {
    if a + b > I64_MAX then I64_MAX else a + b
  }

  predicate RootSigned(suite: Suite, roots: seq<Bytes>, d: Delegation) {
    exists root :: root in roots && suite.hybrid(root, d.Signable(), d.rootSignature)
  }

  /** `verify_rooted`: a search for a root that signed. */
  method VerifyRooted(suite: Suite, d: Delegation, roots: seq<Bytes>) returns (r: Option<TrustError>)
    ensures r.None? <==> RootSigned(suite, roots, d)
    ensures r.Some? ==> r.value == if roots == [] then NoRoot else NotRooted
  {
    if roots == [] {
      return Some(NoRoot);
    }
    var message := d.Signable();
    for i := 0 to |roots|
      invariant forall j :: 0 <= j < i ==> !suite.hybrid(roots[j], message, d.rootSignature)
    {
      if suite.hybrid(roots[i], message, d.rootSignature) {
        return None;
      }
    }
    return Some(NotRooted);
  }

  function KeyId(suite: Suite, d: Delegation): Kid {
    KidOf(suite.sha, d.publicKey)
  }

  /** The same key, purpose and window: what makes a delegation already admitted. */
  predicate SameGrant(suite: Suite, a: Delegation, b: Delegation) {
    KeyId(suite, a) == KeyId(suite, b) && a.purpose == b.purpose && a.notBefore == b.notBefore && a.notAfter == b.notAfter
  }

  predicate Holds(suite: Suite, keys: seq<Delegation>, d: Delegation) {
    exists i :: 0 <= i < |keys| && SameGrant(suite, keys[i], d)
  }

  /** What admitting `encoded` answers, and the keys held after it. */
  function Admitting(suite: Suite, roots: seq<Bytes>, keys: seq<Delegation>, encoded: Bytes)
    : (r: (Result<Kid, TrustError>, seq<Delegation>))
    ensures keys <= r.1
  {
    match DecodeDelegation(encoded)
    case None => (Err(Malformed), keys)
    case Some(d) =>
      if !RootSigned(suite, roots, d) then (Err(if roots == [] then NoRoot else NotRooted), keys)
      else (Ok(KeyId(suite, d)), if Holds(suite, keys, d) then keys else keys + [d])
  }

  // ----- verification -----

  /** The held delegations of `kid`, in admission order. */
  function Named(suite: Suite, keys: seq<Delegation>, kid: Kid): (r: seq<Delegation>)
    ensures forall d :: d in r <==> d in keys && KeyId(suite, d) == kid
  {
    if keys == [] then [] else
      var last := keys[|keys| - 1];
      var before := Named(suite, keys[..|keys| - 1], kid);
      assert forall d :: d in keys <==> d in keys[..|keys| - 1] || d == last;
      if KeyId(suite, last) == kid then before + [last] else before
  }

  function ForPurpose(keys: seq<Delegation>, purpose: Purpose): (r: seq<Delegation>)
    ensures forall d :: d in r <==> d in keys && d.purpose == purpose
  {
    if keys == [] then [] else
      var last := keys[|keys| - 1];
      var before := ForPurpose(keys[..|keys| - 1], purpose);
      assert forall d :: d in keys <==> d in keys[..|keys| - 1] || d == last;
      if last.purpose == purpose then before + [last] else before
  }

  /** What a held delegation grants; the root's signature on it is no longer part of it. */
  datatype Grant = Grant(publicKey: Bytes, purpose: Purpose, notBefore: i64, notAfter: i64)

  function GrantOf(d: Delegation): Grant {
    Grant(d.publicKey, d.purpose, d.notBefore, d.notAfter)
  }

  /** A window that holds the date `t`. */
  predicate Dated(g: Grant, t: i64) {
    g.notBefore <= t <= g.notAfter
  }

  /** The latest close among the windows that hold `t`. */
  function LatestClose(keys: seq<Delegation>, t: i64): (r: Option<i64>)
    ensures r.None? <==> forall d :: d in keys ==> !Dated(GrantOf(d), t)
    ensures r.Some? ==> exists d :: d in keys && Dated(GrantOf(d), t) && d.notAfter == r.value
    ensures r.Some? ==> forall d :: d in keys && Dated(GrantOf(d), t) ==> d.notAfter <= r.value
  {
    if keys == [] then None else
      var last := keys[|keys| - 1];
      var before := LatestClose(keys[..|keys| - 1], t);
      assert forall d :: d in keys <==> d in keys[..|keys| - 1] || d == last;
      if !Dated(GrantOf(last), t) then before
      else if before.Some? && before.value > last.notAfter then before
      else Some(last.notAfter)
  }

  // ----- the declarative verdict -----

  ghost function Grants(keys: seq<Delegation>): set<Grant> {
    set d | d in keys :: GrantOf(d)
  }

  /** One key under `kid` at most. */
  ghost predicate NoClash(suite: Suite, grants: set<Grant>, kid: Kid) {
    forall g, h :: g in grants && h in grants && KidOf(suite.sha, g.publicKey) == KidOf(suite.sha, h.publicKey) == kid
      ==> g.publicKey == h.publicKey
  }

  /** A window and whom it is for, by kid: what a repeat is recognised by. */
  datatype Slot = Slot(kid: Kid, purpose: Purpose, notBefore: i64, notAfter: i64)

  function SlotOf(suite: Suite, g: Grant): Slot {
    Slot(KidOf(suite.sha, g.publicKey), g.purpose, g.notBefore, g.notAfter)
  }

  ghost function Slots(suite: Suite, grants: set<Grant>): set<Slot> {
    set g | g in grants :: SlotOf(suite, g)
  }

  /** The grants of one key for one purpose. */
  ghost function Candidates(suite: Suite, grants: set<Grant>, purpose: Purpose, kid: Kid): set<Grant> {
    set g | g in grants && KidOf(suite.sha, g.publicKey) == kid && g.purpose == purpose
  }

  datatype Request = Request(purpose: Purpose, kid: Kid, body: Bytes, signature: Bytes, signedAt: i64, now: i64)

  predicate Signed(suite: Suite, publicKey: Bytes, q: Request) {
    suite.hybrid(publicKey, ServerSignable(q.purpose, q.kid, q.body), q.signature)
  }

  predicate InGrace(notAfter: i64, q: Request) {
    q.purpose.GraceSecs().Some? ==> q.now <= SaturatingAdd(notAfter, q.purpose.GraceSecs().value)
  }

  ghost predicate SignedBySome(suite: Suite, grants: set<Grant>, q: Request) {
    exists g :: g in Candidates(suite, grants, q.purpose, q.kid) && Signed(suite, g.publicKey, q)
  }

  ghost predicate Names(suite: Suite, grants: set<Grant>, kid: Kid) {
    exists g :: g in grants && KidOf(suite.sha, g.publicKey) == kid
  }

  ghost predicate SomeDated(suite: Suite, grants: set<Grant>, q: Request) {
    exists g :: g in Candidates(suite, grants, q.purpose, q.kid) && Dated(g, q.signedAt)
  }

  ghost predicate SomeInGrace(suite: Suite, grants: set<Grant>, q: Request) {
    exists g :: g in Candidates(suite, grants, q.purpose, q.kid) && Dated(g, q.signedAt) && InGrace(g.notAfter, q)
  }

  /** The verdict as a statement about a set of grants and whether the signature holds; `None` is Ok. */
  ghost function Judgement(suite: Suite, grants: set<Grant>, q: Request, signed: bool): Option<TrustError> {
    if !Names(suite, grants, q.kid) then Some(UnknownKey)
    else if Candidates(suite, grants, q.purpose, q.kid) == {} then Some(WrongPurpose)
    else if !signed then Some(BadSignature)
    else if !SomeDated(suite, grants, q) then Some(OutsideWindow)
    else if !SomeInGrace(suite, grants, q) then Some(Expired)
    else None
  }

  /** `verify`: `None` is Ok. The signature is judged before the window, the window before the age. */
  function Verify(suite: Suite, keys: seq<Delegation>, q: Request): Option<TrustError> {
    var named := Named(suite, keys, q.kid);
    if named == [] then Some(UnknownKey)
    else
      var held := ForPurpose(named, q.purpose);
      if held == [] then Some(WrongPurpose)
      else if !Signed(suite, held[0].publicKey, q) then Some(BadSignature)
      else
        var close := LatestClose(held, q.signedAt);
        if close.None? then Some(OutsideWindow)
        else if !InGrace(close.value, q) then Some(Expired)
        else None
  }

  lemma InGraceMonotone(a: i64, b: i64, q: Request)
    requires a <= b && InGrace(a, q)
    ensures InGrace(b, q)
  {
  }

  lemma HeldGrants(suite: Suite, keys: seq<Delegation>, q: Request)
    ensures Candidates(suite, Grants(keys), q.purpose, q.kid) == Grants(ForPurpose(Named(suite, keys, q.kid), q.purpose))
    ensures Named(suite, keys, q.kid) == [] <==> forall g :: g in Grants(keys) ==> KidOf(suite.sha, g.publicKey) != q.kid
  {
    hide KidOf;
    hide Named;
    hide ForPurpose;
    var named := Named(suite, keys, q.kid);
    if named != [] {
      assert GrantOf(named[0]) in Grants(keys);
    } else {
      assert forall d :: d in keys ==> KeyId(suite, d) != q.kid;
    }
    var held := ForPurpose(named, q.purpose);
    assert forall d :: d in held <==> d in keys && KeyId(suite, d) == q.kid && d.purpose == q.purpose;
  }

  /** The latest close decides: some dated grant is in grace exactly when the latest dated one is. */
  lemma LatestDecides(held: seq<Delegation>, q: Request)
    ensures var close := LatestClose(held, q.signedAt);
            && (close.None? <==> forall g :: g in Grants(held) ==> !Dated(g, q.signedAt))
            && (close.Some? ==> (InGrace(close.value, q) <==> exists g :: g in Grants(held) && Dated(g, q.signedAt) && InGrace(g.notAfter, q)))
  {
    hide InGrace;
    hide LatestClose;
    var close := LatestClose(held, q.signedAt);
    assert forall d :: d in held ==> GrantOf(d) in Grants(held);
    if close.Some? {
      var d :| d in held && Dated(GrantOf(d), q.signedAt) && d.notAfter == close.value;
      assert GrantOf(d) in Grants(held);
      forall g | g in Grants(held) && Dated(g, q.signedAt) && InGrace(g.notAfter, q) ensures InGrace(close.value, q) {
        InGraceMonotone(g.notAfter, close.value, q);
      }
    }
  }

  /** The delegations `verify` looks at, in admission order. */
  function Held(suite: Suite, keys: seq<Delegation>, q: Request): seq<Delegation> {
    ForPurpose(Named(suite, keys, q.kid), q.purpose)
  }

  /** For any ring: the verdict is that of the set of grants, the signature being judged by the first key held. */
  lemma VerifyByFirstKey(suite: Suite, keys: seq<Delegation>, q: Request)
    ensures var held := Held(suite, keys, q);
            Verify(suite, keys, q) == Judgement(suite, Grants(keys), q, held != [] && Signed(suite, held[0].publicKey, q))
  {
    hide KidOf;
    hide Signed;
    hide InGrace;
    hide Dated;
    hide Named;
    hide ForPurpose;
    hide LatestClose;
    HeldGrants(suite, keys, q);
    var held := Held(suite, keys, q);
    LatestDecides(held, q);
    if held != [] {
      assert GrantOf(held[0]) in Grants(held);
    }
  }

  /** For any ring: Ok exactly when the first held key of the kid for the purpose signed, and some held window is dated and in grace. */
  lemma OkIffFirstKey(suite: Suite, keys: seq<Delegation>, q: Request)
    ensures var held := Held(suite, keys, q);
            Verify(suite, keys, q).None? <==>
            && held != [] && Signed(suite, held[0].publicKey, q)
            && exists g :: g in Candidates(suite, Grants(keys), q.purpose, q.kid) && g.notBefore <= q.signedAt <= g.notAfter && Honoured(q, g.notAfter)
  {
    hide KidOf;
    hide Signed;
    hide InGrace;
    hide Honoured;
    hide Verify;
    hide Held;
    VerifyByFirstKey(suite, keys, q);
    forall notAfter: i64 ensures InGrace(notAfter, q) <==> Honoured(q, notAfter) {
      HonouredIff(q, notAfter);
    }
  }

  ghost predicate Covers(suite: Suite, grants: set<Grant>, grants': set<Grant>) {
    forall g :: g in grants ==> exists h :: h in grants' && SlotOf(suite, h) == SlotOf(suite, g)
  }

  lemma Carries(suite: Suite, grants: set<Grant>, grants': set<Grant>, q: Request)
    requires Covers(suite, grants, grants')
    ensures Names(suite, grants, q.kid) ==> Names(suite, grants', q.kid)
    ensures Candidates(suite, grants, q.purpose, q.kid) != {} ==> Candidates(suite, grants', q.purpose, q.kid) != {}
    ensures SomeDated(suite, grants, q) ==> SomeDated(suite, grants', q)
    ensures SomeInGrace(suite, grants, q) ==> SomeInGrace(suite, grants', q)
  {
    hide KidOf;
    hide InGrace;
    forall g | g in Candidates(suite, grants, q.purpose, q.kid)
      ensures exists h :: h in Candidates(suite, grants', q.purpose, q.kid) && h.notBefore == g.notBefore && h.notAfter == g.notAfter
    {
      var h :| h in grants' && SlotOf(suite, h) == SlotOf(suite, g);
      assert h in Candidates(suite, grants', q.purpose, q.kid);
    }
  }

  lemma SameSlotsCover(suite: Suite, grants: set<Grant>, grants': set<Grant>)
    requires Slots(suite, grants) == Slots(suite, grants')
    ensures Covers(suite, grants, grants')
  {
    hide SlotOf;
    forall g | g in grants ensures exists h :: h in grants' && SlotOf(suite, h) == SlotOf(suite, g) {
      assert SlotOf(suite, g) in Slots(suite, grants');
    }
  }

  /** The judgement looks at a grant's key through its kid alone. */
  lemma JudgedBySlots(suite: Suite, grants: set<Grant>, grants': set<Grant>, q: Request, signed: bool)
    requires Slots(suite, grants) == Slots(suite, grants')
    ensures Judgement(suite, grants, q, signed) == Judgement(suite, grants', q, signed)
    ensures Candidates(suite, grants, q.purpose, q.kid) == {} <==> Candidates(suite, grants', q.purpose, q.kid) == {}
  {
    hide Slots;
    hide Covers;
    hide Names;
    hide Candidates;
    hide SomeDated;
    hide SomeInGrace;
    SameSlotsCover(suite, grants, grants');
    SameSlotsCover(suite, grants', grants);
    Carries(suite, grants, grants', q);
    Carries(suite, grants', grants, q);
  }

  /** Rings with the same windows agree on a signature exactly when the first keys they ask do. */
  lemma SameVerdictIff(suite: Suite, keys: seq<Delegation>, keys': seq<Delegation>, q: Request)
    requires Slots(suite, Grants(keys)) == Slots(suite, Grants(keys'))
    ensures var held, held' := Held(suite, keys, q), Held(suite, keys', q);
            && (held == [] <==> held' == [])
            && (Verify(suite, keys, q) == Verify(suite, keys', q) <==>
                (held != [] && held' != [] ==> Signed(suite, held[0].publicKey, q) == Signed(suite, held'[0].publicKey, q)))
  {
    hide KidOf;
    hide Signed;
    hide InGrace;
    hide Verify;
    hide Held;
    hide Slots;
    VerifyByFirstKey(suite, keys, q);
    VerifyByFirstKey(suite, keys', q);
    HeldIff(suite, keys, q);
    HeldIff(suite, keys', q);
    JudgedBySlots(suite, Grants(keys), Grants(keys'), q, true);
    JudgedBySlots(suite, Grants(keys), Grants(keys'), q, false);
  }

  lemma HeldIff(suite: Suite, keys: seq<Delegation>, q: Request)
    ensures Held(suite, keys, q) == [] <==> Candidates(suite, Grants(keys), q.purpose, q.kid) == {}
    ensures Held(suite, keys, q) != [] ==> GrantOf(Held(suite, keys, q)[0]) in Candidates(suite, Grants(keys), q.purpose, q.kid)
  {
    hide KidOf;
    hide Named;
    hide ForPurpose;
    HeldGrants(suite, keys, q);
    var held := Held(suite, keys, q);
    if held != [] {
      assert GrantOf(held[0]) in Grants(held);
    }
  }

  lemma FirstKeyAgrees(suite: Suite, keys: seq<Delegation>, q: Request)
    requires NoClash(suite, Grants(keys), q.kid) && Held(suite, keys, q) != []
    ensures forall g :: g in Candidates(suite, Grants(keys), q.purpose, q.kid) ==> g.publicKey == Held(suite, keys, q)[0].publicKey
    ensures Candidates(suite, Grants(keys), q.purpose, q.kid) != {}
  {
    hide KidOf;
    hide Held;
    HeldIff(suite, keys, q);
  }

  /** With one key under the kid, the verdict is a function of the set of grants. */
  lemma VerifyIsJudgement(suite: Suite, keys: seq<Delegation>, q: Request)
    requires NoClash(suite, Grants(keys), q.kid)
    ensures Verify(suite, keys, q) == Judgement(suite, Grants(keys), q, SignedBySome(suite, Grants(keys), q))
  {
    hide KidOf;
    hide Signed;
    hide InGrace;
    hide Verify;
    hide Held;
    hide NoClash;
    VerifyByFirstKey(suite, keys, q);
    if Held(suite, keys, q) != [] {
      FirstKeyAgrees(suite, keys, q);
    } else {
      HeldIff(suite, keys, q);
    }
  }

  /** Ok exactly when one held grant of the key for the purpose was signed with, dated and in grace. */
  lemma OkIffSomeGrant(suite: Suite, keys: seq<Delegation>, q: Request)
    requires NoClash(suite, Grants(keys), q.kid)
    ensures Verify(suite, keys, q).None?
       <==> exists g :: g in Candidates(suite, Grants(keys), q.purpose, q.kid)
                        && Signed(suite, g.publicKey, q) && g.notBefore <= q.signedAt <= g.notAfter && Honoured(q, g.notAfter)
  {
    hide KidOf;
    hide Signed;
    hide Honoured;
    hide Verify;
    hide Held;
    hide NoClash;
    OkIffFirstKey(suite, keys, q);
    if Held(suite, keys, q) != [] {
      FirstKeyAgrees(suite, keys, q);
    } else {
      HeldIff(suite, keys, q);
    }
  }

  // ----- runs of admissions -----

  /** The keys held after admitting `log` in order, starting from none. */
  function Admitted(suite: Suite, roots: seq<Bytes>, log: seq<Bytes>): seq<Delegation> {
    if log == [] then []
    else Admitting(suite, roots, Admitted(suite, roots, log[..|log| - 1]), log[|log| - 1]).1
  }

  predicate HeldOnce(suite: Suite, keys: seq<Delegation>) {
    forall i, j :: 0 <= i < j < |keys| ==> !SameGrant(suite, keys[i], keys[j])
  }

  /** In every reachable ring each delegation is well formed, root-signed and held once. */
  lemma {:induction false} RingInvariant(suite: Suite, roots: seq<Bytes>, log: seq<Bytes>)
    ensures forall d :: d in Admitted(suite, roots, log) ==> d.Valid() && RootSigned(suite, roots, d)
    ensures HeldOnce(suite, Admitted(suite, roots, log))
  {
    hide SameGrant;
    hide DecodeDelegation;
    if log != [] {
      var n := |log| - 1;
      RingInvariant(suite, roots, log[..n]);
      var d := DecodeDelegation(log[n]);
      if d.Some? {
        DelegationRoundTrip(log[n], d.value);
      }
    }
  }

  /** The grants `log` asks for and a root signed. */
  ghost function RootedGrants(suite: Suite, roots: seq<Bytes>, log: seq<Bytes>): set<Grant> {
    set e | e in log && DecodeDelegation(e).Some? && RootSigned(suite, roots, DecodeDelegation(e).value)
          :: GrantOf(DecodeDelegation(e).value)
  }

  lemma RootedStep(suite: Suite, roots: seq<Bytes>, log: seq<Bytes>, e: Bytes)
    ensures RootedGrants(suite, roots, log + [e])
         == RootedGrants(suite, roots, log)
            + (if DecodeDelegation(e).Some? && RootSigned(suite, roots, DecodeDelegation(e).value)
               then {GrantOf(DecodeDelegation(e).value)} else {})
  {
    hide DecodeDelegation;
    hide RootSigned;
    assert forall x :: x in log + [e] <==> x in log || x == e;
  }

  /** One admission: the windows held are those held before and the one asked for, whichever key fills it. */
  lemma AdmittingSlots(suite: Suite, keys: seq<Delegation>, d: Delegation)
    ensures var keys' := if Holds(suite, keys, d) then keys else keys + [d];
            && Slots(suite, Grants(keys')) == Slots(suite, Grants(keys)) + {SlotOf(suite, GrantOf(d))}
            && Grants(keys) <= Grants(keys') <= Grants(keys) + {GrantOf(d)}
  {
    hide KidOf;
    if Holds(suite, keys, d) {
      var i :| 0 <= i < |keys| && SameGrant(suite, keys[i], d);
      assert GrantOf(keys[i]) in Grants(keys);
      assert SlotOf(suite, GrantOf(keys[i])) == SlotOf(suite, GrantOf(d));
    } else {
      assert forall x :: x in keys + [d] <==> x in keys || x == d;
      assert Grants(keys + [d]) == Grants(keys) + {GrantOf(d)};
    }
  }

  lemma SlotsOfUnion(suite: Suite, grants: set<Grant>, g: Grant)
    ensures Slots(suite, grants + {g}) == Slots(suite, grants) + {SlotOf(suite, g)}
  {
  }

  /** What a ring holds: the windows that root-signed delegations asked for, filled by grants they asked for. */
  lemma {:induction false} AdmittedSlots(suite: Suite, roots: seq<Bytes>, log: seq<Bytes>)
    ensures Slots(suite, Grants(Admitted(suite, roots, log))) == Slots(suite, RootedGrants(suite, roots, log))
    ensures Grants(Admitted(suite, roots, log)) <= RootedGrants(suite, roots, log)
  {
    hide DecodeDelegation;
    hide KidOf;
    hide SlotOf;
    hide RootSigned;
    if log != [] {
      var n := |log| - 1;
      assert log == log[..n] + [log[n]];
      RootedStep(suite, roots, log[..n], log[n]);
      AdmittedSlots(suite, roots, log[..n]);
      var d := DecodeDelegation(log[n]);
      if d.Some? && RootSigned(suite, roots, d.value) {
        AdmittingSlots(suite, Admitted(suite, roots, log[..n]), d.value);
        SlotsOfUnion(suite, RootedGrants(suite, roots, log[..n]), GrantOf(d.value));
      }
    }
  }

  /** Where no kid is shared, the grants themselves are those asked for: dedup drops only repeats. */
  lemma AdmittedGrants(suite: Suite, roots: seq<Bytes>, log: seq<Bytes>)
    requires forall kid :: NoClash(suite, RootedGrants(suite, roots, log), kid)
    ensures Grants(Admitted(suite, roots, log)) == RootedGrants(suite, roots, log)
  {
    hide DecodeDelegation;
    hide KidOf;
    hide RootedGrants;
    hide Admitted;
    AdmittedSlots(suite, roots, log);
    var held, asked := Grants(Admitted(suite, roots, log)), RootedGrants(suite, roots, log);
    forall g | g in asked ensures g in held {
      assert SlotOf(suite, g) in Slots(suite, held);
      var h :| h in held && SlotOf(suite, h) == SlotOf(suite, g);
      assert NoClash(suite, asked, KidOf(suite.sha, g.publicKey));
    }
  }

  /** Rings asked for the same delegations, in any order and number, agree exactly when the first keys they ask do. */
  lemma AdmissionOrderIff(suite: Suite, roots: seq<Bytes>, log: seq<Bytes>, log': seq<Bytes>, q: Request)
    requires forall e :: e in log <==> e in log'
    ensures var keys, keys' := Admitted(suite, roots, log), Admitted(suite, roots, log');
            var held, held' := Held(suite, keys, q), Held(suite, keys', q);
            && (held == [] <==> held' == [])
            && (Verify(suite, keys, q) == Verify(suite, keys', q) <==>
                (held != [] && held' != [] ==> Signed(suite, held[0].publicKey, q) == Signed(suite, held'[0].publicKey, q)))
  {
    hide DecodeDelegation;
    hide RootSigned;
    hide Verify;
    hide Held;
    hide Signed;
    hide Slots;
    assert RootedGrants(suite, roots, log) == RootedGrants(suite, roots, log');
    AdmittedSlots(suite, roots, log);
    AdmittedSlots(suite, roots, log');
    SameVerdictIff(suite, Admitted(suite, roots, log), Admitted(suite, roots, log'), q);
  }

  /** So where one key was asked for under the kid of the request, they judge it alike. */
  lemma AdmissionOrderIrrelevant(suite: Suite, roots: seq<Bytes>, log: seq<Bytes>, log': seq<Bytes>, q: Request)
    requires forall e :: e in log <==> e in log'
    requires NoClash(suite, RootedGrants(suite, roots, log), q.kid)
    ensures Verify(suite, Admitted(suite, roots, log), q) == Verify(suite, Admitted(suite, roots, log'), q)
  {
    hide DecodeDelegation;
    hide RootSigned;
    hide Verify;
    hide Held;
    hide Signed;
    hide KidOf;
    hide Slots;
    var keys, keys' := Admitted(suite, roots, log), Admitted(suite, roots, log');
    assert RootedGrants(suite, roots, log) == RootedGrants(suite, roots, log');
    AdmissionOrderIff(suite, roots, log, log', q);
    AdmittedSlots(suite, roots, log);
    AdmittedSlots(suite, roots, log');
    HeldIff(suite, keys, q);
    HeldIff(suite, keys', q);
  }

  lemma AdmitsBoth(suite: Suite, roots: seq<Bytes>, a: Delegation, b: Delegation)
    requires a.Valid() && b.Valid() && RootSigned(suite, roots, a) && RootSigned(suite, roots, b)
    ensures Admitted(suite, roots, [a.Encode(), b.Encode()]) == if SameGrant(suite, a, b) then [a] else [a, b]
  {
    hide KidOf;
    hide RootSigned;
    hide DecodeDelegation;
    DelegationRoundTrip(a.Encode(), a);
    DelegationRoundTrip(b.Encode(), b);
    var log := [a.Encode(), b.Encode()];
    assert log[..1] == [a.Encode()] && [a.Encode()][..0] == [];
    assert Admitted(suite, roots, []) == [];
    assert Admitted(suite, roots, [a.Encode()]) == [a];
    var one := [a];
    assert one[0] == a;
    assert Holds(suite, one, b) <==> SameGrant(suite, a, b);
    assert [a] + [b] == [a, b];
  }

  lemma FirstOfTwo(suite: Suite, a: Delegation, b: Delegation, q: Request)
    requires KeyId(suite, a) == KeyId(suite, b) == q.kid && a.purpose == b.purpose == q.purpose
    ensures Held(suite, [a], q) == [a] && Held(suite, [a, b], q) == [a, b]
  {
    hide KeyId;
    assert [a][..0] == [] && [a, b][..1] == [a];
    assert Named(suite, [a], q.kid) == [a] && Named(suite, [a, b], q.kid) == [a, b];
    assert ForPurpose([a], q.purpose) == [a] && ForPurpose([a, b], q.purpose) == [a, b];
  }

  /**
   Why a clash must be ruled out: of two root-signed keys under one kid, only one of which signed,
   the order of admission decides between Ok and BadSignature.
   */
  lemma ClashFollowsOrder(suite: Suite, roots: seq<Bytes>, a: Delegation, b: Delegation, q: Request)
    requires a.Valid() && b.Valid() && RootSigned(suite, roots, a) && RootSigned(suite, roots, b)
    requires KeyId(suite, a) == KeyId(suite, b) == q.kid && a.purpose == b.purpose == q.purpose
    requires Signed(suite, a.publicKey, q) && !Signed(suite, b.publicKey, q)
    requires Dated(GrantOf(a), q.signedAt) && InGrace(a.notAfter, q)
    ensures Verify(suite, Admitted(suite, roots, [a.Encode(), b.Encode()]), q) == None
    ensures Verify(suite, Admitted(suite, roots, [b.Encode(), a.Encode()]), q) == Some(BadSignature)
  {
    hide KidOf;
    hide Signed;
    hide InGrace;
    hide RootSigned;
    hide Named;
    hide ForPurpose;
    hide LatestClose;
    AdmitsBoth(suite, roots, a, b);
    AdmitsBoth(suite, roots, b, a);
    FirstOfTwo(suite, a, b, q);
    FirstOfTwo(suite, b, a, q);
    var keys := Admitted(suite, roots, [a.Encode(), b.Encode()]);
    assert a in keys && keys[0] == a;
    var held := Held(suite, keys, q);
    assert held == keys;
    var close := LatestClose(held, q.signedAt);
    InGraceMonotone(a.notAfter, close.value, q);
  }

  lemma {:induction false} FilterPrefix(suite: Suite, keys: seq<Delegation>, more: seq<Delegation>, q: Request)
    ensures Named(suite, keys, q.kid) <= Named(suite, keys + more, q.kid)
    ensures ForPurpose(Named(suite, keys, q.kid), q.purpose) <= ForPurpose(Named(suite, keys + more, q.kid), q.purpose)
    decreases |more|
  {
    hide KeyId;
    if more == [] {
      assert keys + more == keys;
    } else {
      var n := |more| - 1;
      var all := keys + more;
      assert all[..|all| - 1] == keys + more[..n];
      FilterPrefix(suite, keys, more[..n], q);
      var was, now := Named(suite, keys + more[..n], q.kid), Named(suite, all, q.kid);
      assert now == was || (|now| == |was| + 1 && now[..|was|] == was);
    }
  }

  /** Later admissions never turn an accepted signature into a refused one, whatever they are. */
  lemma LaterAdmissionsKeepOk(suite: Suite, keys: seq<Delegation>, more: seq<Delegation>, q: Request)
    requires Verify(suite, keys, q).None?
    ensures Verify(suite, keys + more, q).None?
  {
    hide Named;
    hide ForPurpose;
    hide LatestClose;
    hide InGrace;
    hide Signed;
    FilterPrefix(suite, keys, more, q);
    var held := ForPurpose(Named(suite, keys, q.kid), q.purpose);
    var held' := ForPurpose(Named(suite, keys + more, q.kid), q.purpose);
    assert held'[0] == held[0];
    var close := LatestClose(held, q.signedAt).value;
    var d :| d in held && Dated(GrantOf(d), q.signedAt) && d.notAfter == close;
    assert d in held';
    InGraceMonotone(close, LatestClose(held', q.signedAt).value, q);
  }

  // ----- the verdict in plain numbers and bytes -----

  /** The kid of a key: the first half of the hash of the labelled key. */
  function Fingerprint(suite: Suite, d: Delegation): Bytes {
    suite.sha(Ascii("konstruct/v1/kid") + d.publicKey)[..16]
  }

  /** Held delegation `i` is of the key and the purpose a request names. */
  predicate HeldAt(suite: Suite, keys: seq<Delegation>, q: Request, i: int) {
    0 <= i < |keys| && Fingerprint(suite, keys[i]) == q.kid && keys[i].purpose == q.purpose
  }

  /** What the named key must have signed. */
  function SignedText(q: Request): Bytes {
    (match q.purpose
     case SenderCert => Ascii("konstruct/v1/sender-cert")
     case KtHead => Ascii("konstruct/v1/kt-head")
     case StickerManifest => Ascii("konstruct/v1/sticker-manifest")) + q.kid + q.body
  }

  /** How long a window that closed at `notAfter` is still honoured: eight days for certificates, not at all for heads, for ever for manifests. */
  predicate Honoured(q: Request, notAfter: i64) {
    match q.purpose
    case SenderCert => q.now <= notAfter + 691_200
    case KtHead => q.now <= notAfter
    case StickerManifest => true
  }

  /** The addition saturates at the largest date, which no clock is past. */
  lemma HonouredIff(q: Request, notAfter: i64)
    ensures InGrace(notAfter, q) <==> Honoured(q, notAfter)
  {
  }

  lemma TextIsSignable(q: Request)
    ensures ServerSignable(q.purpose, q.kid, q.body) == SignedText(q)
  {
  }

  lemma HeldInGrants(suite: Suite, keys: seq<Delegation>, q: Request, g: Grant)
    ensures g in Candidates(suite, Grants(keys), q.purpose, q.kid) <==> exists i :: HeldAt(suite, keys, q, i) && GrantOf(keys[i]) == g
  {
    if g in Candidates(suite, Grants(keys), q.purpose, q.kid) {
      var d :| d in keys && GrantOf(d) == g;
      var i :| 0 <= i < |keys| && keys[i] == d;
      assert HeldAt(suite, keys, q, i);
    }
    forall i | HeldAt(suite, keys, q, i) ensures GrantOf(keys[i]) in Candidates(suite, Grants(keys), q.purpose, q.kid) {
      assert keys[i] in keys;
    }
  }

  lemma NoneHeld(suite: Suite, keys: seq<Delegation>, q: Request)
    requires forall j :: 0 <= j < |keys| ==> !HeldAt(suite, keys, q, j)
    ensures Held(suite, keys, q) == []
  {
    hide Held;
    hide HeldAt;
    hide Candidates;
    HeldIff(suite, keys, q);
    if Held(suite, keys, q) != [] {
      HeldInGrants(suite, keys, q, GrantOf(Held(suite, keys, q)[0]));
      var j :| HeldAt(suite, keys, q, j);
      HeldWithin(suite, keys, q, j);
    }
  }

  lemma HeldWithin(suite: Suite, keys: seq<Delegation>, q: Request, i: int)
    requires HeldAt(suite, keys, q, i)
    ensures 0 <= i < |keys| && KeyId(suite, keys[i]) == q.kid && keys[i].purpose == q.purpose
  {
  }

  /** `verify` asks the first delegation admitted under the kid for the purpose. */
  lemma FirstHeld(suite: Suite, keys: seq<Delegation>, q: Request, i: nat)
    requires HeldAt(suite, keys, q, i) && forall j :: 0 <= j < i ==> !HeldAt(suite, keys, q, j)
    ensures Held(suite, keys, q) != [] && Held(suite, keys, q)[0] == keys[i]
  {
    hide KeyId;
    hide Fingerprint;
    hide Named;
    hide ForPurpose;
    HeldWithin(suite, keys, q, i);
    var before, rest := keys[..i], keys[i + 1..];
    assert keys == (before + [keys[i]]) + rest;
    forall j | 0 <= j < |before| ensures !HeldAt(suite, before, q, j) {
      assert !HeldAt(suite, keys, q, j);
    }
    NoneHeld(suite, before, q);
    OneMoreHeld(suite, before, keys[i], q);
    FilterPrefix(suite, before + [keys[i]], rest, q);
  }

  lemma OneMoreHeld(suite: Suite, keys: seq<Delegation>, d: Delegation, q: Request)
    requires KeyId(suite, d) == q.kid && d.purpose == q.purpose
    ensures Held(suite, keys + [d], q) == Held(suite, keys, q) + [d]
  {
    hide KeyId;
    assert (keys + [d])[..|keys|] == keys;
    var named := Named(suite, keys, q.kid);
    assert (named + [d])[..|named|] == named;
  }

  /** Every verdict of `verify`, for any ring, in the order of its checks. */
  lemma VerdictIs(suite: Suite, keys: seq<Delegation>, q: Request, i: nat)
    requires HeldAt(suite, keys, q, i) && forall j :: 0 <= j < i ==> !HeldAt(suite, keys, q, j)
    ensures Verify(suite, keys, q) ==
            if !suite.hybrid(keys[i].publicKey, SignedText(q), q.signature) then Some(BadSignature)
            else if forall j :: HeldAt(suite, keys, q, j) ==> !(keys[j].notBefore <= q.signedAt <= keys[j].notAfter) then Some(OutsideWindow)
            else if forall j :: HeldAt(suite, keys, q, j) && keys[j].notBefore <= q.signedAt <= keys[j].notAfter
                               ==> !Honoured(q, keys[j].notAfter)
            then Some(Expired)
            else None
  {
    hide Verify;
    hide Held;
    hide InGrace;
    hide Honoured;
    hide Candidates;
    hide HeldAt;
    FirstHeld(suite, keys, q, i);
    TextIsSignable(q);
    VerifyByFirstKey(suite, keys, q);
    HeldIff(suite, keys, q);
    SomeByIndex(suite, keys, q);
    NamesByIndex(suite, keys, q);
    assert exists j :: HeldAt(suite, keys, q, j);
  }

  lemma SomeByIndex(suite: Suite, keys: seq<Delegation>, q: Request)
    ensures SomeDated(suite, Grants(keys), q)
       <==> exists j :: HeldAt(suite, keys, q, j) && keys[j].notBefore <= q.signedAt <= keys[j].notAfter
    ensures SomeInGrace(suite, Grants(keys), q)
       <==> exists j :: HeldAt(suite, keys, q, j) && keys[j].notBefore <= q.signedAt <= keys[j].notAfter && Honoured(q, keys[j].notAfter)
  {
    hide Candidates;
    hide HeldAt;
    hide InGrace;
    hide Honoured;
    forall j | HeldAt(suite, keys, q, j)
      ensures 0 <= j < |keys| && GrantOf(keys[j]) in Candidates(suite, Grants(keys), q.purpose, q.kid)
      ensures InGrace(keys[j].notAfter, q) <==> Honoured(q, keys[j].notAfter)
    {
      HeldWithin(suite, keys, q, j);
      HeldInGrants(suite, keys, q, GrantOf(keys[j]));
      HonouredIff(q, keys[j].notAfter);
    }
    forall g | g in Candidates(suite, Grants(keys), q.purpose, q.kid)
      ensures exists j :: HeldAt(suite, keys, q, j) && GrantOf(keys[j]) == g
    {
      HeldInGrants(suite, keys, q, g);
    }
  }

  lemma NamesByIndex(suite: Suite, keys: seq<Delegation>, q: Request)
    ensures Names(suite, Grants(keys), q.kid) <==> exists i :: 0 <= i < |keys| && Fingerprint(suite, keys[i]) == q.kid
    ensures (exists i :: HeldAt(suite, keys, q, i)) ==> Names(suite, Grants(keys), q.kid)
  {
    if Names(suite, Grants(keys), q.kid) {
      var g :| g in Grants(keys) && KidOf(suite.sha, g.publicKey) == q.kid;
      var d :| d in keys && GrantOf(d) == g;
      var i :| 0 <= i < |keys| && keys[i] == d;
      assert Fingerprint(suite, keys[i]) == q.kid;
    }
    forall i | 0 <= i < |keys| && Fingerprint(suite, keys[i]) == q.kid ensures Names(suite, Grants(keys), q.kid) {
      assert GrantOf(keys[i]) in Grants(keys);
    }
  }

  /** The two verdicts on a request no held delegation answers. */
  lemma UnansweredIs(suite: Suite, keys: seq<Delegation>, q: Request)
    requires forall i :: 0 <= i < |keys| ==> !HeldAt(suite, keys, q, i)
    ensures Verify(suite, keys, q)
         == if exists i :: 0 <= i < |keys| && Fingerprint(suite, keys[i]) == q.kid then Some(WrongPurpose) else Some(UnknownKey)
  {
    hide Verify;
    hide Held;
    hide HeldAt;
    hide Candidates;
    hide Fingerprint;
    VerifyByFirstKey(suite, keys, q);
    NamesByIndex(suite, keys, q);
    NoneHeld(suite, keys, q);
    HeldIff(suite, keys, q);
  }

  /** Every certificate and head lapses: eight days past the last close a ring knows, nothing it signed is accepted. */
  lemma EveryKeyLapses(suite: Suite, keys: seq<Delegation>, q: Request, lastClose: int)
    requires q.purpose != StickerManifest && q.now > lastClose + 691_200
    requires forall d :: d in keys ==> d.notAfter <= lastClose
    ensures Verify(suite, keys, q) != None
  {
    hide Verify;
    hide Held;
    hide Signed;
    hide KidOf;
    OkIffFirstKey(suite, keys, q);
    forall na: i64 ensures InGrace(na, q) <==> Honoured(q, na) {
      HonouredIff(q, na);
    }
  }

  /** A manifest is judged without the clock. */
  lemma ManifestsIgnoreTheClock(suite: Suite, keys: seq<Delegation>, q: Request, now: i64)
    requires q.purpose == StickerManifest
    ensures Verify(suite, keys, q) == Verify(suite, keys, q.(now := now))
  {
  }

  // ----- admission in plain terms -----

  /** What `admit` answers and keeps: malformed unless some well-formed delegation is encoded, refused unless a root signed it, else its kid. */
  lemma AdmitsIff(suite: Suite, roots: seq<Bytes>, keys: seq<Delegation>, encoded: Bytes)
    ensures (forall d: Delegation :: !(d.Valid() && encoded == d.Encode())) ==> Admitting(suite, roots, keys, encoded) == (Err(Malformed), keys)
    ensures forall d: Delegation :: d.Valid() && encoded == d.Encode() ==>
              Admitting(suite, roots, keys, encoded) ==
              if roots == [] then (Err(NoRoot), keys)
              else if forall root :: root in roots ==> !suite.hybrid(root, d.Signable(), d.rootSignature) then (Err(NotRooted), keys)
              else (Ok(Fingerprint(suite, d)),
                    if exists i :: && 0 <= i < |keys| && Fingerprint(suite, keys[i]) == Fingerprint(suite, d) && keys[i].purpose == d.purpose
                                   && keys[i].notBefore == d.notBefore && keys[i].notAfter == d.notAfter
                    then keys else keys + [d])
  {
    hide DecodeDelegation;
    hide Fingerprint;
    var r := DecodeDelegation(encoded);
    if r.Some? {
      DelegationRoundTrip(encoded, r.value);
    }
    forall d: Delegation | d.Valid() && encoded == d.Encode()
      ensures Admitting(suite, roots, keys, encoded) ==
              if roots == [] then (Err(NoRoot), keys)
              else if forall root :: root in roots ==> !suite.hybrid(root, d.Signable(), d.rootSignature) then (Err(NotRooted), keys)
              else (Ok(Fingerprint(suite, d)),
                    if exists i :: && 0 <= i < |keys| && Fingerprint(suite, keys[i]) == Fingerprint(suite, d) && keys[i].purpose == d.purpose
                                   && keys[i].notBefore == d.notBefore && keys[i].notAfter == d.notAfter
                    then keys else keys + [d])
    {
      DelegationRoundTrip(encoded, d);
      HoldsIff(suite, keys, d);
      FingerprintIs(suite, d);
    }
  }

  lemma FingerprintIs(suite: Suite, d: Delegation)
    ensures KeyId(suite, d) == Fingerprint(suite, d)
  {
  }

  lemma HoldsIff(suite: Suite, keys: seq<Delegation>, d: Delegation)
    ensures Holds(suite, keys, d)
       <==> exists i :: && 0 <= i < |keys| && Fingerprint(suite, keys[i]) == Fingerprint(suite, d) && keys[i].purpose == d.purpose
                        && keys[i].notBefore == d.notBefore && keys[i].notAfter == d.notAfter
  {
    hide KidOf;
    hide Fingerprint;
    hide KeyId;
    forall i | 0 <= i < |keys| ensures KeyId(suite, keys[i]) == Fingerprint(suite, keys[i]) {
      FingerprintIs(suite, keys[i]);
    }
    FingerprintIs(suite, d);
  }

  /** The ring a client keeps; `log` records every admission asked of it. */
  class ServerKeyRing {
    const suite: Suite
    const roots: seq<Bytes>
    var keys: seq<Delegation>
    ghost var log: seq<Bytes>

    ghost predicate Valid()
      reads this
    {
      keys == Admitted(suite, roots, log)
    }

    constructor (suite: Suite, roots: seq<Bytes>)
      ensures Valid() && log == []
      ensures this.suite == suite && this.roots == roots
    {
      this.suite := suite;
      this.roots := roots;
      keys := [];
      log := [];
    }

    /** Admits a delegation a pinned root signed; one already admitted is kept once, a renewal beside the first. */
    method Admit(encoded: Bytes) returns (r: Result<Kid, TrustError>)
      requires Valid()
      modifies this
      ensures Valid() && log == old(log) + [encoded]
      ensures (r, keys) == Admitting(suite, roots, old(keys), encoded)
      ensures HeldOnce(suite, keys) && forall d :: d in keys ==> RootSigned(suite, roots, d)
    {
      hide DecodeDelegation;
      hide RootSigned;
      hide Holds;
      hide KidOf;
      hide Admitted;
      hide HeldOnce;
      AdmittedStep(suite, roots, log, encoded);
      var d := DecodeDelegation(encoded);
      if d.None? {
        r := Err(Malformed);
      } else {
        var refused := VerifyRooted(suite, d.value, roots);
        if refused.Some? {
          r := Err(refused.value);
        } else {
          r := Ok(KeyId(suite, d.value));
          var held := FindGrant(suite, keys, d.value);
          if !held {
            keys := keys + [d.value];
          }
        }
      }
      log := log + [encoded];
      RingInvariant(suite, roots, log);
    }
  }

  /** The search of `admit` for a delegation already admitted. */
  method FindGrant(suite: Suite, keys: seq<Delegation>, d: Delegation) returns (held: bool)
    ensures held <==> Holds(suite, keys, d)
  {
    hide SameGrant;
    for i := 0 to |keys|
      invariant forall j :: 0 <= j < i ==> !SameGrant(suite, keys[j], d)
    {
      if SameGrant(suite, keys[i], d) {
        return true;
      }
    }
    return false;
  }

  lemma AdmittedStep(suite: Suite, roots: seq<Bytes>, log: seq<Bytes>, encoded: Bytes)
    ensures Admitted(suite, roots, log + [encoded]) == Admitting(suite, roots, Admitted(suite, roots, log), encoded).1
  {
    hide Admitting;
    assert (log + [encoded])[..|log|] == log;
  }
}
