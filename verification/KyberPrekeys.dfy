/**
 The core's Kyber (ML-KEM-1024) prekeys: the signed prekey with its two-phase rotation and its
 retired predecessors, and the one-time pool. The store is a class whose methods are proved against
 functions on its value; runs of those functions are where freshness of ids and retention live.
 */
module KyberPrekeys {
  import opened ByteStrings
  import opened KeyLimits

  const OTPK_ID_START: u32 := 1_000_000
  const SEED_SIZE: nat := 64

  /** A generated seed; `None` stands for a failed generation. */
  type Seed = b: Bytes | |b| == SEED_SIZE witness seq(64, _ => 0)

  datatype Prekey = Prekey(keyId: u32, createdAt: u64, seed: Bytes)

  datatype RetiredSpk = RetiredSpk(prekey: Prekey, retiredAt: u64)

  datatype StoreError = SpkRangeExhausted | OtpkRangeExhausted | GenerationFailed

  datatype Store = Store(spk: Option<Prekey>, pending: Option<Prekey>, retired: seq<RetiredSpk>, otpks: map<u32, Prekey>,
                         nextSpkId: u32, nextOtpkId: u32)

  const EMPTY: Store := Store(None, None, [], map[], 1, OTPK_ID_START)

  // ----- one operation -----

  function Begin(s: Store, now: u64, seed: Option<Seed>): (r: (Result<Prekey, StoreError>, Store)) {
    if s.pending.Some? then (Ok(s.pending.value), s)
    else if s.nextSpkId >= OTPK_ID_START then (Err(SpkRangeExhausted), s)
    else if seed.None? then (Err(GenerationFailed), s)
    else
      var k := Prekey(s.nextSpkId, now, seed.value);
      (Ok(k), s.(pending := Some(k), nextSpkId := s.nextSpkId + 1))
  }

  /** Whether a retired prekey is still inside its window; the difference saturates at zero. */
  predicate Kept(r: RetiredSpk, now: u64) {
    now - r.retiredAt < RETENTION
  }

  function KeptOf(retired: seq<RetiredSpk>, now: u64): (r: seq<RetiredSpk>)
    ensures |r| <= |retired|
    ensures forall x :: x in r <==> x in retired && Kept(x, now)
  {
    if retired == [] then []
    else
      assert forall x :: x in retired <==> x == retired[0] || x in retired[1..];
      (if Kept(retired[0], now) then [retired[0]] else []) + KeptOf(retired[1..], now)
  }

  function Prune(s: Store, now: u64): Store {
    s.(retired := KeptOf(s.retired, now))
  }

  function Commit(s: Store, now: u64): (bool, Store) {
    if s.pending.None? then (false, s)
    else
      var retired := if s.spk.Some? then s.retired + [RetiredSpk(s.spk.value, now)] else s.retired;
      (true, Prune(s.(spk := s.pending, pending := None, retired := retired), now))
  }

  function Rollback(s: Store): Store {
    s.(pending := None)
  }

  /** One round of the generation loop per seed; stops at the first failure, keeping what came before. */
  function Generate(s: Store, now: u64, seeds: seq<Option<Seed>>): (r: (Result<seq<Prekey>, StoreError>, Store))
    decreases |seeds|
  {
    if seeds == [] then (Ok([]), s)
    else if s.nextOtpkId == U32_MAX then (Err(OtpkRangeExhausted), s)
    else if seeds[0].None? then (Err(GenerationFailed), s)
    else
      var k := Prekey(s.nextOtpkId, now, seeds[0].value);
      var (rest, s') := Generate(s.(otpks := s.otpks[k.keyId := k], nextOtpkId := s.nextOtpkId + 1), now, seeds[1..]);
      (if rest.Ok? then Ok([k] + rest.value) else rest, s')
  }

  function PruneBelow(s: Store, min: u32): Store {
    s.(otpks := map id | id in s.otpks && id >= min :: s.otpks[id])
  }

  function Remove(s: Store, id: u32): Store {
    s.(otpks := s.otpks - {id})
  }

  // ----- lookup -----

  function Optional(k: Option<Prekey>): seq<Prekey> {
    if k.Some? then [k.value] else []
  }

  function Prekeys(retired: seq<RetiredSpk>): (r: seq<Prekey>)
    ensures |r| == |retired| && forall i :: 0 <= i < |r| ==> r[i] == retired[i].prekey
  {
    seq(|retired|, i requires 0 <= i < |retired| => retired[i].prekey)
  }

  /** The signed prekeys held, in lookup order: current, pending, retired. */
  function Signed(s: Store): seq<Prekey> {
    Optional(s.spk) + Optional(s.pending) + Prekeys(s.retired)
  }

  function FirstWithId(keys: seq<Prekey>, id: u32): (r: Option<Prekey>)
    ensures r.Some? ==> r.value in keys && r.value.keyId == id
    ensures r.None? ==> forall k :: k in keys ==> k.keyId != id
  {
    if keys == [] then None
    else if keys[0].keyId == id then Some(keys[0])
    else FirstWithId(keys[1..], id)
  }

  function Find(s: Store, id: u32): Option<Prekey> {
    if id >= OTPK_ID_START then if id in s.otpks then Some(s.otpks[id]) else None
    else FirstWithId(Signed(s), id)
  }

  // ----- each operation in plain terms -----

  /** A rotation begins with the pending key if there is one, else with the next id, until a million, and the fresh seed. */
  lemma BeginIs(s: Store, now: u64, seed: Option<Seed>)
    ensures Begin(s, now, seed).0 ==
            if s.pending.Some? then Ok(s.pending.value)
            else if s.nextSpkId >= 1_000_000 then Err(SpkRangeExhausted)
            else if seed.None? then Err(GenerationFailed)
            else Ok(Prekey(s.nextSpkId, now, seed.value))
    ensures var (r, s') := Begin(s, now, seed);
            if s.pending.Some? || r.Err? then s' == s
            else s'.pending == Some(r.value) && s'.nextSpkId == s.nextSpkId + 1 && s'.(pending := None, nextSpkId := s.nextSpkId) == s
  {
  }

  /** A commit makes the pending key current, retires the one before it now, drops what is fourteen days past, and leaves the rest alone. */
  lemma CommitIs(s: Store, now: u64, r: RetiredSpk)
    ensures Commit(s, now).0 <==> s.pending.Some?
    ensures s.pending.None? ==> Commit(s, now).1 == s
    ensures s.pending.Some? ==>
              var s' := Commit(s, now).1;
              && s'.spk == s.pending && s'.pending == None
              && s'.otpks == s.otpks && s'.nextSpkId == s.nextSpkId && s'.nextOtpkId == s.nextOtpkId
              && (r in s'.retired <==> && (r in s.retired || (s.spk == Some(r.prekey) && r.retiredAt == now))
                                       && now < r.retiredAt + 1_209_600)
  {
  }

  /** Pruning drops the signed prekeys retired fourteen days ago or more, and nothing else; a rollback only the pending one. */
  lemma PruneAndRollbackAre(s: Store, now: u64, r: RetiredSpk)
    ensures var s' := Prune(s, now);
            (r in s'.retired <==> r in s.retired && now < r.retiredAt + 1_209_600) && s'.(retired := s.retired) == s
    ensures Rollback(s).pending == None && Rollback(s).(pending := s.pending) == s
  {
  }

  /** What is kept stays in its order. */
  lemma {:induction false} KeptInOrder(a: seq<RetiredSpk>, b: seq<RetiredSpk>, now: u64)
    ensures KeptOf(a + b, now) == KeptOf(a, now) + KeptOf(b, now)
    decreases |a|
  {
    if a == [] {
      assert a + b == b;
    } else {
      assert (a + b)[1..] == a[1..] + b;
      KeptInOrder(a[1..], b, now);
    }
  }

  /** A burned one-time prekey is gone, and no other key is touched. */
  lemma RemoveForgets(s: Store, id: u32, other: u32)
    requires id >= 1_000_000
    ensures Find(Remove(s, id), id) == None
    ensures other != id ==> Find(Remove(s, id), other) == Find(s, other)
    ensures Remove(s, id).(otpks := s.otpks) == s
  {
    hide FirstWithId;
    SameSigned(s, Remove(s, id));
  }

  /** Pruning keeps exactly the ids at or above the bound. */
  lemma PruneBelowIff(s: Store, min: u32, id: u32)
    ensures var s' := PruneBelow(s, min);
            && (id in s'.otpks <==> id in s.otpks && id >= min) && (id in s'.otpks ==> s'.otpks[id] == s.otpks[id])
            && s'.(otpks := s.otpks) == s
  {
  }

  /** A generation succeeds exactly when every seed is there and the range has room for all of them. */
  lemma {:induction false} GenerateOkIff(s: Store, now: u64, seeds: seq<Option<Seed>>)
    ensures Generate(s, now, seeds).0.Ok? <==> None !in seeds && s.nextOtpkId + |seeds| <= U32_MAX
    decreases |seeds|
  {
    if seeds != [] {
      assert None in seeds <==> seeds[0] == None || None in seeds[1..];
      if s.nextOtpkId != U32_MAX && seeds[0].Some? {
        var k := Prekey(s.nextOtpkId, now, seeds[0].value);
        GenerateOkIff(s.(otpks := s.otpks[k.keyId := k], nextOtpkId := s.nextOtpkId + 1), now, seeds[1..]);
      }
    }
  }

  /** Each key carries its own seed, the next id, and the time of its making. */
  lemma {:induction false} GenerateIs(s: Store, now: u64, seeds: seq<Option<Seed>>, i: nat)
    requires Generate(s, now, seeds).0.Ok? && i < |seeds|
    ensures var made := Generate(s, now, seeds).0.value;
            |made| == |seeds| && seeds[i].Some? && made[i].seed == seeds[i].value && made[i].createdAt == now && made[i].keyId == s.nextOtpkId + i
    decreases |seeds|
  {
    var k := Prekey(s.nextOtpkId, now, seeds[0].value);
    var s1 := s.(otpks := s.otpks[k.keyId := k], nextOtpkId := s.nextOtpkId + 1);
    if i > 0 {
      GenerateIs(s1, now, seeds[1..], i - 1);
    } else if |seeds| > 1 {
      GenerateIs(s1, now, seeds[1..], 0);
    }
  }

  /** What stops a generation: at the first seed missing or id past the end, by the end of the range if it is there. */
  lemma {:induction false} GenerateStops(s: Store, now: u64, seeds: seq<Option<Seed>>, i: nat)
    requires i < |seeds| && (forall j :: 0 <= j < i ==> seeds[j].Some?) && s.nextOtpkId + i <= U32_MAX
    requires s.nextOtpkId + i == U32_MAX || seeds[i].None?
    ensures var (r, s') := Generate(s, now, seeds);
            && r == Err(if s.nextOtpkId + i == U32_MAX then OtpkRangeExhausted else GenerationFailed)
            && s'.nextOtpkId == s.nextOtpkId + i
    decreases |seeds|
  {
    if i > 0 {
      var k := Prekey(s.nextOtpkId, now, seeds[0].value);
      GenerateStops(s.(otpks := s.otpks[k.keyId := k], nextOtpkId := s.nextOtpkId + 1), now, seeds[1..], i - 1);
    }
  }

  /** Lookup, exactly: below a million the signed keys, from there the one-time pool. */
  lemma FindIff(s: Store, id: u32, k: Prekey)
    requires Sound(s)
    ensures Find(s, id) == Some(k) <==> if id >= 1_000_000 then id in s.otpks && s.otpks[id] == k else k in Signed(s) && k.keyId == id
  {
    if id < 1_000_000 && k in Signed(s) && k.keyId == id {
      FindIsUnambiguous(s, k);
    }
  }

  // ----- snapshots -----

  /** The persisted record. */
  datatype Record = Record(spk: Option<Prekey>, pending: Option<Prekey>, retired: seq<RetiredSpk>, otpks: seq<Prekey>,
                           nextSpkId: u32, nextOtpkId: u32)

  /** The one-time pool as a record lists it: every value once, by ascending id. */
  ghost predicate Lists(l: seq<Prekey>, m: map<u32, Prekey>) {
    && (forall i, j :: 0 <= i < j < |l| ==> l[i].keyId < l[j].keyId)
    && (forall i :: 0 <= i < |l| ==> l[i].keyId in m && m[l[i].keyId] == l[i])
    && (forall id :: id in m ==> m[id] in l)
  }

  ghost predicate IsSnapshot(s: Store, r: Record) {
    && r.spk == s.spk && r.pending == s.pending && r.retired == s.retired && Lists(r.otpks, s.otpks)
    && r.nextSpkId == s.nextSpkId && r.nextOtpkId == s.nextOtpkId
  }

  function UsableSeed(k: Option<Prekey>): Option<Prekey> {
    if k.Some? && |k.value.seed| == SEED_SIZE then k else None
  }

  function UsableRetired(retired: seq<RetiredSpk>): (r: seq<RetiredSpk>)
    ensures forall x :: x in r <==> x in retired && |x.prekey.seed| == SEED_SIZE
  {
    if retired == [] then []
    else
      assert forall x :: x in retired <==> x == retired[0] || x in retired[1..];
      (if |retired[0].prekey.seed| == SEED_SIZE then [retired[0]] else []) + UsableRetired(retired[1..])
  }

  /** Collecting into a map: a later entry with an id replaces an earlier one. */
  function Collect(l: seq<Prekey>): (m: map<u32, Prekey>)
    ensures forall id :: id in m ==> m[id] in l && m[id].keyId == id && |m[id].seed| == SEED_SIZE
    ensures forall k :: k in l && |k.seed| == SEED_SIZE ==> k.keyId in m
  {
    if l == [] then map[]
    else
      var n := |l| - 1;
      var m := Collect(l[..n]);
      assert forall k :: k in l <==> k in l[..n] || k == l[n];
      if |l[n].seed| == SEED_SIZE then m[l[n].keyId := l[n]] else m
  }

  function Highest(keys: seq<Prekey>): (r: u32)
    ensures forall k :: k in keys ==> k.keyId <= r
    ensures keys != [] ==> exists k :: k in keys && k.keyId == r
  {
    if keys == [] then 0
    else
      var n := |keys| - 1;
      var h := Highest(keys[..n]);
      assert forall k :: k in keys <==> k in keys[..n] || k == keys[n];
      if keys[n].keyId > h || n == 0 then keys[n].keyId else h
  }

  function Max(a: u32, b: u32): u32 {
    if a < b then b else a
  }

  /** The entries of a record that can be used, with counters at least at the start of their ranges. */
  function Usable(r: Record): Store {
    Store(UsableSeed(r.spk), UsableSeed(r.pending), UsableRetired(r.retired), Collect(r.otpks),
          Max(r.nextSpkId, 1), Max(r.nextOtpkId, OTPK_ID_START))
  }

  /** Moves the counters past the ids held; the signed successor wraps, as the release build does. */
  function Advanced(s: Store): Store {
    var signed := Signed(s);
    var spk := if signed == [] then s.nextSpkId else Max(s.nextSpkId, (Highest(signed) + 1) % 0x1_0000_0000);
    var otpk := if s.otpks == map[] then s.nextOtpkId
                else var top := HighestId(s.otpks.Keys); Max(s.nextOtpkId, if top == U32_MAX then U32_MAX else top + 1);
    s.(nextSpkId := spk, nextOtpkId := otpk)
  }

  /** The restored store before its expired retirees are pruned. */
  function Revived(r: Record): Store {
    Advanced(Usable(r))
  }

  function Restore(r: Record, now: u64): Store {
    Prune(Revived(r), now)
  }

  // ----- the invariant -----

  predicate DistinctRetired(retired: seq<RetiredSpk>) {
    forall i, j :: 0 <= i < j < |retired| ==> retired[i].prekey.keyId != retired[j].prekey.keyId
  }

  /** No two signed prekeys held share an id. */
  predicate DistinctSigned(s: Store) {
    && DistinctRetired(s.retired)
    && (forall r :: r in s.retired && s.spk.Some? ==> r.prekey.keyId != s.spk.value.keyId)
    && (forall r :: r in s.retired && s.pending.Some? ==> r.prekey.keyId != s.pending.value.keyId)
    && (s.spk.Some? && s.pending.Some? ==> s.spk.value.keyId != s.pending.value.keyId)
  }

  /** What every reachable store keeps. */
  predicate Sound(s: Store) {
    && 1 <= s.nextSpkId <= OTPK_ID_START <= s.nextOtpkId
    && DistinctSigned(s)
    && (forall k :: k in Signed(s) ==> 1 <= k.keyId < s.nextSpkId && |k.seed| == SEED_SIZE)
    && (forall id :: id in s.otpks ==> OTPK_ID_START <= id < s.nextOtpkId && s.otpks[id].keyId == id && |s.otpks[id].seed| == SEED_SIZE)
  }

  lemma SignedMembers(s: Store, k: Prekey)
    ensures k in Signed(s) <==> s.spk == Some(k) || s.pending == Some(k) || exists r :: r in s.retired && r.prekey == k
  {
    if exists r :: r in s.retired && r.prekey == k {
      var r :| r in s.retired && r.prekey == k;
      var i :| 0 <= i < |s.retired| && s.retired[i] == r;
      assert Prekeys(s.retired)[i] == k;
    }
  }

  lemma SameIdSameKey(s: Store, k: Prekey, l: Prekey)
    requires DistinctSigned(s) && k in Signed(s) && l in Signed(s) && k.keyId == l.keyId
    ensures k == l
  {
    hide Signed;
    SignedMembers(s, k);
    SignedMembers(s, l);
  }

  /** Under the invariant an id names one held key at most, and lookup finds it. */
  lemma FindIsUnambiguous(s: Store, k: Prekey)
    requires Sound(s)
    ensures Find(s, k.keyId) == Some(k) <==> k in Signed(s) || (k.keyId in s.otpks && s.otpks[k.keyId] == k)
  {
    hide Signed;
    hide DistinctSigned;
    if k in Signed(s) {
      var f := FirstWithId(Signed(s), k.keyId);
      assert f.Some?;
      SameIdSameKey(s, k, f.value);
    }
  }

  // ----- every operation keeps the invariant -----

  lemma {:induction false} KeptDistinct(retired: seq<RetiredSpk>, now: u64)
    requires DistinctRetired(retired)
    ensures DistinctRetired(KeptOf(retired, now))
  {
    if retired != [] {
      KeptDistinct(retired[1..], now);
      var tail := KeptOf(retired[1..], now);
      forall i | 0 <= i < |tail| ensures tail[i].prekey.keyId != retired[0].prekey.keyId {
        assert tail[i] in tail;
        var j :| 0 <= j < |retired[1..]| && retired[1..][j] == tail[i];
        assert retired[j + 1] == tail[i];
      }
    }
  }

  lemma PruneSound(s: Store, now: u64)
    requires Sound(s)
    ensures Sound(Prune(s, now))
  {
    var s' := Prune(s, now);
    KeptDistinct(s.retired, now);
    forall k | k in Signed(s') ensures k in Signed(s) {
      SignedMembers(s', k);
      SignedMembers(s, k);
    }
  }

  lemma CommitSound(s: Store, now: u64)
    requires Sound(s)
    ensures Sound(Commit(s, now).1)
  {
    if s.pending.Some? {
      var retired := if s.spk.Some? then s.retired + [RetiredSpk(s.spk.value, now)] else s.retired;
      var s' := s.(spk := s.pending, pending := None, retired := retired);
      assert forall r :: r in retired <==> r in s.retired || (s.spk.Some? && r == RetiredSpk(s.spk.value, now));
      if s.spk.Some? {
        assert forall i :: 0 <= i < |s.retired| ==> s.retired[i] in s.retired;
      }
      forall k | k in Signed(s') ensures k in Signed(s) {
        SignedMembers(s', k);
        SignedMembers(s, k);
      }
      PruneSound(s', now);
    }
  }

  lemma BeginSound(s: Store, now: u64, seed: Option<Seed>)
    requires Sound(s)
    ensures Sound(Begin(s, now, seed).1)
  {
    var s' := Begin(s, now, seed).1;
    if s' != s {
      forall k | k in Signed(s') ensures k in Signed(s) || s'.pending == Some(k) {
        SignedMembers(s', k);
        SignedMembers(s, k);
      }
      forall r | r in s.retired ensures r.prekey in Signed(s) {
        SignedMembers(s, r.prekey);
      }
      if s.spk.Some? {
        SignedMembers(s, s.spk.value);
      }
    }
  }

  lemma RollbackSound(s: Store)
    requires Sound(s)
    ensures Sound(Rollback(s))
  {
    forall k | k in Signed(Rollback(s)) ensures k in Signed(s) {
      SignedMembers(Rollback(s), k);
      SignedMembers(s, k);
    }
  }

  lemma {:induction false} GenerateKeeps(s: Store, now: u64, seeds: seq<Option<Seed>>)
    requires Sound(s)
    ensures var s' := Generate(s, now, seeds).1;
            && Sound(s') && s'.(otpks := s.otpks, nextOtpkId := s.nextOtpkId) == s
            && s.nextOtpkId <= s'.nextOtpkId
            && (forall id :: id in s.otpks ==> id in s'.otpks && s'.otpks[id] == s.otpks[id])
            && (forall id :: id in s'.otpks && id !in s.otpks <==> s.nextOtpkId <= id < s'.nextOtpkId)
    decreases |seeds|
  {
    hide Signed;
    hide DistinctSigned;
    if seeds != [] && s.nextOtpkId != U32_MAX && seeds[0].Some? {
      var k := Prekey(s.nextOtpkId, now, seeds[0].value);
      var s1 := s.(otpks := s.otpks[k.keyId := k], nextOtpkId := s.nextOtpkId + 1);
      SameSigned(s, s1);
      GenerateKeeps(s1, now, seeds[1..]);
    }
  }

  /** What a generation hands out is what it keeps, by consecutive ids. */
  lemma {:induction false} GenerateHandsOut(s: Store, now: u64, seeds: seq<Option<Seed>>)
    requires forall id :: id in s.otpks ==> id < s.nextOtpkId
    ensures var (r, s') := Generate(s, now, seeds);
            && (forall id :: id in s.otpks ==> id in s'.otpks && s'.otpks[id] == s.otpks[id])
            && (r.Ok? ==> |r.value| == |seeds| && s'.nextOtpkId == s.nextOtpkId + |seeds|)
            && (r.Ok? ==> forall i :: 0 <= i < |seeds| ==>
                  && r.value[i].keyId == s.nextOtpkId + i && r.value[i].keyId in s'.otpks
                  && s'.otpks[r.value[i].keyId] == r.value[i])
    decreases |seeds|
  {
    if seeds != [] && s.nextOtpkId != U32_MAX && seeds[0].Some? {
      var k := Prekey(s.nextOtpkId, now, seeds[0].value);
      GenerateHandsOut(s.(otpks := s.otpks[k.keyId := k], nextOtpkId := s.nextOtpkId + 1), now, seeds[1..]);
    }
  }

  lemma GenerateSound(s: Store, now: u64, seeds: seq<Option<Seed>>)
    requires Sound(s)
    ensures var (r, s') := Generate(s, now, seeds);
            && Sound(s') && s'.(otpks := s.otpks, nextOtpkId := s.nextOtpkId) == s
            && s.nextOtpkId <= s'.nextOtpkId
            && (forall id :: id in s.otpks ==> id in s'.otpks && s'.otpks[id] == s.otpks[id])
            && (forall id :: id in s'.otpks && id !in s.otpks <==> s.nextOtpkId <= id < s'.nextOtpkId)
            && (r.Ok? ==> |r.value| == |seeds| && s'.nextOtpkId == s.nextOtpkId + |seeds|)
            && (r.Ok? ==> forall i :: 0 <= i < |seeds| ==>
                  && r.value[i].keyId == s.nextOtpkId + i && r.value[i].keyId in s'.otpks
                  && s'.otpks[r.value[i].keyId] == r.value[i])
  {
    hide Generate;
    hide Signed;
    hide DistinctSigned;
    GenerateKeeps(s, now, seeds);
    GenerateHandsOut(s, now, seeds);
  }

  lemma SameSigned(s: Store, s': Store)
    requires s.spk == s'.spk && s.pending == s'.pending && s.retired == s'.retired
    ensures Signed(s) == Signed(s') && DistinctSigned(s) == DistinctSigned(s')
  {
  }

  // ----- restoring -----

  lemma {:induction false} AllUsable(retired: seq<RetiredSpk>)
    requires forall r :: r in retired ==> |r.prekey.seed| == SEED_SIZE
    ensures UsableRetired(retired) == retired
  {
    if retired != [] {
      AllUsable(retired[1..]);
      assert retired == [retired[0]] + retired[1..];
    }
  }

  lemma CollectLists(l: seq<Prekey>, m: map<u32, Prekey>)
    requires Lists(l, m)
    requires forall id :: id in m ==> m[id].keyId == id && |m[id].seed| == SEED_SIZE
    ensures Collect(l) == m
  {
    hide Collect;
    var c := Collect(l);
    assert forall k :: k in l ==> k.keyId in m && m[k.keyId] == k;
    assert forall id :: id in c ==> c[id] in l && c[id].keyId == id;
    assert forall id :: id in m ==> m[id] in l && |m[id].seed| == SEED_SIZE;
    assert c.Keys == m.Keys;
  }

  lemma AdvancedSound(s: Store)
    requires Sound(s)
    ensures Advanced(s) == s
  {
    hide Signed;
    hide DistinctSigned;
  }

  lemma SnapshotUsable(s: Store, r: Record)
    requires Sound(s) && IsSnapshot(s, r)
    ensures Usable(r) == s
  {
    hide Signed;
    hide DistinctSigned;
    hide Collect;
    hide Lists;
    hide UsableRetired;
    forall k | k in s.retired ensures |k.prekey.seed| == SEED_SIZE {
      SignedMembers(s, k.prekey);
    }
    AllUsable(s.retired);
    CollectLists(r.otpks, s.otpks);
    if s.spk.Some? {
      SignedMembers(s, s.spk.value);
    }
    if s.pending.Some? {
      SignedMembers(s, s.pending.value);
    }
  }

  /** Restoring the snapshot of a reachable store gives that store, less its expired retirees. */
  lemma RestoreIsPrune(s: Store, r: Record, now: u64)
    requires Sound(s) && IsSnapshot(s, r)
    ensures Restore(r, now) == Prune(s, now)
  {
    hide Sound;
    hide IsSnapshot;
    hide Usable;
    hide Advanced;
    SnapshotUsable(s, r);
    AdvancedSound(s);
  }

  // ----- restoring any record, damaged or not -----

  lemma RevivedCounters(r: Record)
    ensures var u, s := Usable(r), Revived(r);
            && Signed(s) == Signed(u)
            && s.nextSpkId == (if Signed(u) == [] then u.nextSpkId else Max(u.nextSpkId, (Highest(Signed(u)) + 1) % 0x1_0000_0000))
            && (forall id :: id in s.otpks ==> id < s.nextOtpkId || s.nextOtpkId == U32_MAX)
  {
    hide Usable;
    hide Signed;
    hide DistinctSigned;
    SameSigned(Usable(r), Revived(r));
  }

  /** The store after `n` rotations begun and given up. */
  function Rounds(s: Store, now: u64, seed: Seed, n: nat): Store {
    if n == 0 then s else Begin(Rollback(Rounds(s, now, seed, n - 1)), now, Some(seed)).1
  }

  /** The id the next begun rotation hands out, after `n` given up. */
  function IssuedAfter(s: Store, now: u64, seed: Seed, n: nat): Option<u32> {
    var r := Begin(Rollback(Rounds(s, now, seed, n)), now, Some(seed)).0;
    if r.Ok? then Some(r.value.keyId) else None
  }

  lemma {:induction false} RoundsCount(s: Store, now: u64, seed: Seed, n: nat)
    ensures Rounds(s, now, seed, n).nextSpkId
         == if s.nextSpkId >= OTPK_ID_START then s.nextSpkId
            else if s.nextSpkId + n <= OTPK_ID_START then s.nextSpkId + n else OTPK_ID_START
  {
    if n > 0 {
      RoundsCount(s, now, seed, n - 1);
    }
  }

  /** A store hands out an id, sooner or later, exactly when it is between the counter and the end of the signed range. */
  lemma IssuedIff(s: Store, now: u64, seed: Seed, id: u32)
    ensures (exists n: nat :: IssuedAfter(s, now, seed, n) == Some(id)) <==> s.nextSpkId <= id < OTPK_ID_START
  {
    if s.nextSpkId <= id < OTPK_ID_START {
      RoundsCount(s, now, seed, id - s.nextSpkId);
      assert IssuedAfter(s, now, seed, id - s.nextSpkId) == Some(id);
    }
    forall n: nat | IssuedAfter(s, now, seed, n) == Some(id) ensures s.nextSpkId <= id < OTPK_ID_START {
      RoundsCount(s, now, seed, n);
    }
  }

  /** Whether a store will hand out again an id that it holds. */
  ghost predicate Reissues(s: Store, now: u64, seed: Seed) {
    exists k, n: nat :: k in Signed(s) && IssuedAfter(s, now, seed, n) == Some(k.keyId)
  }

  predicate Behind(s: Store, k: Prekey) {
    s.nextSpkId <= k.keyId < OTPK_ID_START
  }

  lemma ReissuesBehind(s: Store, now: u64, seed: Seed)
    ensures Reissues(s, now, seed) <==> exists k :: k in Signed(s) && Behind(s, k)
  {
    hide IssuedAfter;
    hide Signed;
    forall k: Prekey ensures (exists n: nat :: IssuedAfter(s, now, seed, n) == Some(k.keyId)) <==> Behind(s, k) {
      IssuedIff(s, now, seed, k.keyId);
    }
  }

  lemma SurvivesIn(s: Store, now: u64, k: Prekey)
    requires k in Signed(Prune(s, now))
    ensures k in Signed(s)
  {
    SignedMembers(Prune(s, now), k);
    SignedMembers(s, k);
  }

  lemma RestoredSigned(r: Record, now: u64)
    ensures Signed(Restore(r, now)) == Signed(Prune(Usable(r), now)) && Restore(r, now).nextSpkId == Revived(r).nextSpkId
  {
    hide Usable;
    hide Signed;
    hide DistinctSigned;
    SameSigned(Restore(r, now), Prune(Usable(r), now));
  }

  lemma RestoredBehindIff(r: Record, now: u64)
    ensures var u, s := Usable(r), Restore(r, now);
            (exists k :: k in Signed(s) && Behind(s, k)) <==>
            (exists k :: k in Signed(u) && k.keyId == U32_MAX) && (exists k :: k in Signed(Prune(u, now)) && Behind(u, k))
  {
    hide Usable;
    hide Signed;
    hide Advanced;
    hide Highest;
    hide Prune;
    RevivedCounters(r);
    RestoredSigned(r, now);
    forall k | k in Signed(Prune(Usable(r), now)) ensures k in Signed(Usable(r)) {
      SurvivesIn(Usable(r), now, k);
    }
  }

  /**
   Restoring a record reuses a signed id that the restored store holds exactly when the record holds
   the last 32-bit id, whose successor wraps to zero, and an id that survives the pruning and that
   the record's own counter had fallen behind.
   */
  lemma RestoreReissuesIff(r: Record, now: u64, seed: Seed)
    ensures Reissues(Restore(r, now), now, seed)
       <==> && (exists k :: k in Signed(Usable(r)) && k.keyId == U32_MAX)
            && (exists k :: k in Signed(Prune(Usable(r), now)) && Behind(Usable(r), k))
  {
    hide Usable;
    hide Signed;
    hide Restore;
    hide Prune;
    RestoredBehindIff(r, now);
    ReissuesBehind(Restore(r, now), now, seed);
  }

  /** What comes back of any record: the entries with a whole seed, the retired ones inside their window. */
  lemma RestoredIs(r: Record, now: u64, x: RetiredSpk, k: Prekey)
    ensures var s := Restore(r, now);
            && s.spk == (if r.spk.Some? && |r.spk.value.seed| == 64 then r.spk else None)
            && s.pending == (if r.pending.Some? && |r.pending.value.seed| == 64 then r.pending else None)
            && (x in s.retired <==> x in r.retired && |x.prekey.seed| == 64 && now < x.retiredAt + 1_209_600)
            && (k in r.otpks && |k.seed| == 64 ==> k.keyId in s.otpks)
            && (forall id :: id in s.otpks ==> s.otpks[id] in r.otpks && s.otpks[id].keyId == id && |s.otpks[id].seed| == 64)
  {
    hide Signed;
  }

  lemma CollectStep(l: seq<Prekey>, k: Prekey)
    ensures Collect(l + [k]) == if |k.seed| == 64 then Collect(l)[k.keyId := k] else Collect(l)
  {
    assert (l + [k])[..|l|] == l;
  }

  /** Of several entries of an id the last one counts. */
  lemma {:induction false} LastEntryCounts(before: seq<Prekey>, k: Prekey, after: seq<Prekey>)
    requires |k.seed| == 64 && forall x :: x in after ==> x.keyId != k.keyId || |x.seed| != 64
    ensures k.keyId in Collect(before + [k] + after) && Collect(before + [k] + after)[k.keyId] == k
    decreases |after|
  {
    hide Collect;
    if after == [] {
      assert before + [k] + after == before + [k];
      CollectStep(before, k);
    } else {
      var n := |after| - 1;
      assert before + [k] + after == before + [k] + after[..n] + [after[n]];
      LastEntryCounts(before, k, after[..n]);
      CollectStep(before + [k] + after[..n], after[n]);
    }
  }

  /** The counters come back at the least place past the record's own, the start of the range, and every id held. */
  lemma RestoredCounters(r: Record, now: u64)
    ensures var s := Restore(r, now);
            && s.nextOtpkId >= 1_000_000 && s.nextOtpkId >= r.nextOtpkId && (forall id :: id in s.otpks ==> id < s.nextOtpkId || s.nextOtpkId == U32_MAX)
            && (s.nextOtpkId == 1_000_000 || s.nextOtpkId == r.nextOtpkId || s.nextOtpkId == U32_MAX || s.nextOtpkId - 1 in s.otpks)
            && s.nextSpkId >= 1 && s.nextSpkId >= r.nextSpkId
            && (s.nextSpkId == 1 || s.nextSpkId == r.nextSpkId || exists k :: k in Signed(Usable(r)) && k.keyId == s.nextSpkId - 1)
  {
    hide Signed;
    hide UsableRetired;
    hide UsableSeed;
    hide Collect;
  }

  /** The one-time counter is past every id held, or at the end, where nothing is issued. */
  predicate OneTimeAhead(s: Store) {
    forall id :: id in s.otpks ==> id < s.nextOtpkId || s.nextOtpkId == U32_MAX
  }

  /** From there no generation, failing or not, hands out or overwrites an id held, and it stays so. */
  lemma {:induction false} NeverOverwritten(s: Store, now: u64, seeds: seq<Option<Seed>>)
    requires OneTimeAhead(s)
    ensures var (r, s') := Generate(s, now, seeds);
            && OneTimeAhead(s')
            && (forall id :: id in s.otpks ==> id in s'.otpks && s'.otpks[id] == s.otpks[id])
            && (r.Ok? ==> forall k :: k in r.value ==> k.keyId !in s.otpks)
    decreases |seeds|
  {
    if seeds != [] && s.nextOtpkId != U32_MAX && seeds[0].Some? {
      var k := Prekey(s.nextOtpkId, now, seeds[0].value);
      NeverOverwritten(s.(otpks := s.otpks[k.keyId := k], nextOtpkId := s.nextOtpkId + 1), now, seeds[1..]);
    }
  }

  /** So a restored store, whatever the record, never hands out a one-time id it holds. */
  lemma RestoreKeepsOneTime(r: Record, now: u64, seeds: seq<Option<Seed>>)
    ensures OneTimeAhead(Restore(r, now))
    ensures var s := Restore(r, now);
            var (made, s') := Generate(s, now, seeds);
            && (forall id :: id in s.otpks ==> id in s'.otpks && s'.otpks[id] == s.otpks[id])
            && (made.Ok? ==> forall k :: k in made.value ==> k.keyId !in s.otpks)
  {
    hide Usable;
    hide Signed;
    hide Advanced;
    hide Generate;
    RevivedCounters(r);
    NeverOverwritten(Restore(r, now), now, seeds);
  }

  /** Such a record: the id of the current prekey is handed out again by the very next rotation. */
  lemma DamagedRecordReissues(now: u64, seed: Seed, other: Seed)
    ensures var current := Prekey(1, now, seed);
            var s := Restore(Record(Some(current), None, [RetiredSpk(Prekey(U32_MAX, now, seed), now)], [], 0, 0), now);
            s.spk == Some(current) && Begin(s, now, Some(other)).0 == Ok(Prekey(1, now, other))
  {
    var current, last := Prekey(1, now, seed), RetiredSpk(Prekey(U32_MAX, now, seed), now);
    var r := Record(Some(current), None, [last], [], 0, 0);
    assert UsableRetired([last]) == [last];
    var u := Usable(r);
    assert Signed(u) == [current, last.prekey];
    assert last.prekey in Signed(u);
    assert Highest(Signed(u)) == U32_MAX;
  }

  // ----- runs -----

  /** What a client asks of the store. `Reload` restores the latest snapshot, as a restart does. */
  datatype Op =
    | BeginOp(now: u64, seed: Option<Seed>)
    | CommitOp(now: u64)
    | RollbackOp
    | PruneOp(now: u64)
    | GenerateOp(now: u64, seeds: seq<Option<Seed>>)
    | PruneBelowOp(min: u32)
    | RemoveOp(id: u32)
    | Reload(now: u64)

  ghost predicate Next(s: Store, op: Op, s': Store) {
    match op
    case BeginOp(now, seed) => s' == Begin(s, now, seed).1
    case CommitOp(now) => s' == Commit(s, now).1
    case RollbackOp => s' == Rollback(s)
    case PruneOp(now) => s' == Prune(s, now)
    case GenerateOp(now, seeds) => s' == Generate(s, now, seeds).1
    case PruneBelowOp(min) => s' == PruneBelow(s, min)
    case RemoveOp(id) => s' == Remove(s, id)
    case Reload(now) => exists r :: IsSnapshot(s, r) && s' == Restore(r, now)
  }

  ghost predicate IsRun(states: seq<Store>, ops: seq<Op>) {
    && |states| == |ops| + 1 && states[0] == EMPTY
    && forall i :: 0 <= i < |ops| ==> Next(states[i], ops[i], states[i + 1])
  }

  lemma StepSound(s: Store, op: Op, s': Store)
    requires Sound(s) && Next(s, op, s')
    ensures Sound(s') && s.nextSpkId <= s'.nextSpkId && s.nextOtpkId <= s'.nextOtpkId
  {
    hide Signed;
    hide DistinctSigned;
    hide Generate;
    hide IsSnapshot;
    hide Restore;
    match op {
      case BeginOp(now, seed) => BeginSound(s, now, seed);
      case CommitOp(now) => CommitSound(s, now);
      case RollbackOp => RollbackSound(s);
      case PruneOp(now) => PruneSound(s, now);
      case GenerateOp(now, seeds) => GenerateSound(s, now, seeds);
      case PruneBelowOp(_) => SameSigned(s, s');
      case RemoveOp(_) => SameSigned(s, s');
      case Reload(now) =>
        var r :| IsSnapshot(s, r) && s' == Restore(r, now);
        RestoreIsPrune(s, r, now);
        PruneSound(s, now);
    }
  }

  /** Every state of every run is sound, and its counters never go back. */
  lemma {:induction false} RunSound(states: seq<Store>, ops: seq<Op>, i: nat, j: nat)
    requires IsRun(states, ops) && i <= j < |states|
    ensures Sound(states[i]) && Sound(states[j])
    ensures states[i].nextSpkId <= states[j].nextSpkId && states[i].nextOtpkId <= states[j].nextOtpkId
    decreases j
  {
    if j == 0 {
      assert Sound(EMPTY);
    } else if i == j {
      RunSound(states, ops, i - 1, j - 1);
      StepSound(states[j - 1], ops[j - 1], states[j]);
    } else {
      RunSound(states, ops, i, j - 1);
      StepSound(states[j - 1], ops[j - 1], states[j]);
    }
  }

  /** The new signed id an operation hands out, if any. */
  function IssuedSigned(s: Store, op: Op): Option<u32> {
    if op.BeginOp? && s.pending.None? && Begin(s, op.now, op.seed).0.Ok? then Some(Begin(s, op.now, op.seed).0.value.keyId) else None
  }

  /** The one-time ids an operation adds. */
  function IssuedOneTime(s: Store, op: Op): set<u32> {
    if op.GenerateOp? then Generate(s, op.now, op.seeds).1.otpks.Keys - s.otpks.Keys else {}
  }

  /** Over any run, later ids are larger: no id, signed or one-time, is ever handed out twice. */
  lemma IdsAreFresh(states: seq<Store>, ops: seq<Op>, i: nat, j: nat)
    requires IsRun(states, ops) && i < j < |ops|
    ensures IssuedSigned(states[i], ops[i]).Some? && IssuedSigned(states[j], ops[j]).Some?
        ==> 1 <= IssuedSigned(states[i], ops[i]).value < IssuedSigned(states[j], ops[j]).value < OTPK_ID_START
    ensures forall a, b :: a in IssuedOneTime(states[i], ops[i]) && b in IssuedOneTime(states[j], ops[j]) ==> OTPK_ID_START <= a < b
  {
    hide Signed;
    hide DistinctSigned;
    hide Generate;
    RunSound(states, ops, i, i);
    RunSound(states, ops, i + 1, j);
    assert Next(states[i], ops[i], states[i + 1]);
    if ops[i].GenerateOp? {
      GenerateSound(states[i], ops[i].now, ops[i].seeds);
    }
    if ops[j].GenerateOp? {
      GenerateSound(states[j], ops[j].now, ops[j].seeds);
    }
  }

  function One(seed: Seed): seq<Option<Seed>> {
    [Some(seed)]
  }

  lemma GenerateOne(s: Store, now: u64, seed: Seed)
    requires s.nextOtpkId < U32_MAX
    ensures Generate(s, now, One(seed)).0 == Ok([Prekey(s.nextOtpkId, now, seed)])
  {
    var k := Prekey(s.nextOtpkId, now, seed);
    var s1 := s.(otpks := s.otpks[k.keyId := k], nextOtpkId := s.nextOtpkId + 1);
    var seeds := One(seed);
    assert seeds[1..] == [];
    assert Generate(s1, now, []) == (Ok([]), s1);
    assert [k] + [] == [k];
  }

  /** Only the latest snapshot is safe to restore: from an older one the next one-time id is handed out again. */
  lemma StaleSnapshotReissues(s: Store, r: Record, now: u64, a: Seed, b: Seed)
    requires Sound(s) && IsSnapshot(s, r) && s.nextOtpkId < U32_MAX
    ensures Generate(s, now, One(a)).0 == Ok([Prekey(s.nextOtpkId, now, a)])
    ensures Generate(Restore(r, now), now, One(b)).0 == Ok([Prekey(s.nextOtpkId, now, b)])
  {
    hide Sound;
    hide IsSnapshot;
    hide Restore;
    hide Generate;
    RestoreIsPrune(s, r, now);
    GenerateOne(s, now, a);
    GenerateOne(Prune(s, now), now, b);
  }

  /** Two phases: a begun rotation hands out one key until it ends, commit makes that key current, rollback forgets it. */
  lemma TwoPhases(s: Store, now: u64, seed: Option<Seed>, later: u64, seed': Option<Seed>)
    requires Sound(s) && Begin(s, now, seed).0.Ok?
    ensures var (r, begun) := Begin(s, now, seed);
            && Begin(begun, later, seed') == (r, begun)
            && Commit(begun, later).0 && Commit(begun, later).1.spk == Some(r.value)
            && Find(begun, r.value.keyId) == Some(r.value)
            && Find(Rollback(begun), r.value.keyId) == None
  {
    var (r, begun) := Begin(s, now, seed);
    BeginSound(s, now, seed);
    RollbackSound(begun);
    SignedMembers(begun, r.value);
    FindIsUnambiguous(begun, r.value);
    var found := FirstWithId(Signed(Rollback(begun)), r.value.keyId);
    if found.Some? {
      SignedMembers(Rollback(begun), found.value);
    }
  }

  predicate Burned(s: Store, id: u32) {
    id !in s.otpks && id < s.nextOtpkId
  }

  lemma StepKeepsBurned(s: Store, op: Op, s': Store, id: u32)
    requires Sound(s) && Next(s, op, s') && Burned(s, id)
    ensures Burned(s', id)
  {
    hide Sound;
    hide KeptOf;
    hide Generate;
    hide IsSnapshot;
    hide Restore;
    match op {
      case GenerateOp(now, seeds) => GenerateSound(s, now, seeds);
      case Reload(now) =>
        var r :| IsSnapshot(s, r) && s' == Restore(r, now);
        RestoreIsPrune(s, r, now);
      case _ =>
    }
  }

  /** Burned for good: once a held one-time prekey is removed, no later state of the run holds its id, reloads included. */
  lemma {:induction false} BurnedForGood(states: seq<Store>, ops: seq<Op>, i: nat, j: nat, id: u32)
    requires IsRun(states, ops) && i < j < |states|
    requires ops[i] == RemoveOp(id) && id in states[i].otpks
    ensures Burned(states[j], id) && (id >= 1_000_000 ==> Find(states[j], id) == None)
    decreases j
  {
    hide Next;
    RunSound(states, ops, i, i);
    if j == i + 1 {
      RemovedIsBurned(states[i], id, states[j]);
    } else {
      BurnedForGood(states, ops, i, j - 1, id);
      RunSound(states, ops, j - 1, j - 1);
      StepKeepsBurned(states[j - 1], ops[j - 1], states[j], id);
    }
  }

  lemma RemovedIsBurned(s: Store, id: u32, s': Store)
    requires Sound(s) && id in s.otpks && Next(s, RemoveOp(id), s')
    ensures Burned(s', id)
  {
  }

  // ----- retention -----

  function TimeOf(op: Op): Option<u64> {
    match op
    case BeginOp(now, _) => Some(now)
    case CommitOp(now) => Some(now)
    case RollbackOp => None
    case PruneOp(now) => Some(now)
    case GenerateOp(now, _) => Some(now)
    case PruneBelowOp(_) => None
    case RemoveOp(_) => None
    case Reload(now) => Some(now)
  }

  /** The clock of `op`, if it reads one, stands between `t` and `t + d`. */
  predicate Timely(op: Op, t: u64, d: nat) {
    TimeOf(op).Some? ==> t <= TimeOf(op).value <= t + d
  }

  /** `k` is the current signed prekey, or was retired no earlier than `t`. */
  predicate Retained(s: Store, k: Prekey, t: u64) {
    s.spk == Some(k) || exists r :: r in s.retired && r.prekey == k && r.retiredAt >= t
  }

  lemma PruneRetains(s: Store, now: u64, k: Prekey, t: u64)
    requires Retained(s, k, t) && now < t + RETENTION
    ensures Retained(Prune(s, now), k, t)
  {
    if s.spk != Some(k) {
      var r :| r in s.retired && r.prekey == k && r.retiredAt >= t;
      assert r in KeptOf(s.retired, now);
    }
  }

  lemma CommitRetains(s: Store, now: u64, k: Prekey, t: u64)
    requires Retained(s, k, t) && t <= now < t + RETENTION
    ensures Retained(Commit(s, now).1, k, t)
  {
    if s.pending.Some? {
      var retired := if s.spk.Some? then s.retired + [RetiredSpk(s.spk.value, now)] else s.retired;
      var s' := s.(spk := s.pending, pending := None, retired := retired);
      if s.spk == Some(k) {
        assert RetiredSpk(k, now) in s'.retired;
      } else {
        var r :| r in s.retired && r.prekey == k && r.retiredAt >= t;
        assert r in s'.retired;
      }
      PruneRetains(s', now, k, t);
    }
  }

  lemma StepRetains(s: Store, op: Op, s': Store, k: Prekey, t: u64, d: nat)
    requires Sound(s) && Next(s, op, s') && Retained(s, k, t) && Timely(op, t, d) && d < RETENTION
    ensures Retained(s', k, t)
  {
    hide Sound;
    hide KeptOf;
    hide Generate;
    hide IsSnapshot;
    hide Restore;
    match op {
      case CommitOp(now) => CommitRetains(s, now, k, t);
      case PruneOp(now) => PruneRetains(s, now, k, t);
      case GenerateOp(now, seeds) => GenerateSound(s, now, seeds);
      case Reload(now) =>
        var r :| IsSnapshot(s, r) && s' == Restore(r, now);
        RestoreIsPrune(s, r, now);
        PruneRetains(s, now, k, t);
      case _ =>
    }
  }

  lemma RetainedIsFound(s: Store, k: Prekey, t: u64)
    requires Sound(s) && Retained(s, k, t)
    ensures Find(s, k.keyId) == Some(k)
  {
    SignedMembers(s, k);
    FindIsUnambiguous(s, k);
  }

  lemma PendingIsFound(s: Store, k: Prekey)
    requires Sound(s) && s.pending == Some(k)
    ensures Find(s, k.keyId) == Some(k)
  {
    SignedMembers(s, k);
    FindIsUnambiguous(s, k);
  }

  /** Retention: a signed prekey current at `t` is found until `t` plus the retention, through any operations. */
  lemma {:induction false} CurrentIsRetained(states: seq<Store>, ops: seq<Op>, i: nat, j: nat, t: u64, d: nat)
    requires IsRun(states, ops) && i <= j < |states| && d < RETENTION
    requires states[i].spk.Some? && forall l :: i <= l < j ==> Timely(ops[l], t, d)
    ensures Retained(states[j], states[i].spk.value, t)
    ensures Find(states[j], states[i].spk.value.keyId) == states[i].spk
    decreases j
  {
    hide Sound;
    hide Next;
    hide Find;
    var k := states[i].spk.value;
    RunSound(states, ops, i, j);
    if i < j {
      CurrentIsRetained(states, ops, i, j - 1, t, d);
      RunSound(states, ops, i, j - 1);
      StepRetains(states[j - 1], ops[j - 1], states[j], k, t, d);
    }
    RetainedIsFound(states[j], k, t);
  }

  /** A pending prekey, already uploaded, is found too, for as long as its rotation is not rolled back. */
  lemma {:induction false} PendingIsRetained(states: seq<Store>, ops: seq<Op>, i: nat, j: nat, t: u64, d: nat)
    requires IsRun(states, ops) && i <= j < |states| && d < RETENTION
    requires states[i].pending.Some? && forall l :: i <= l < j ==> Timely(ops[l], t, d) && !ops[l].RollbackOp?
    ensures states[j].pending == states[i].pending || Retained(states[j], states[i].pending.value, t)
    ensures Find(states[j], states[i].pending.value.keyId) == states[i].pending
    decreases j
  {
    hide Sound;
    hide Next;
    hide Find;
    var k := states[i].pending.value;
    RunSound(states, ops, i, j);
    if i < j {
      PendingIsRetained(states, ops, i, j - 1, t, d);
      RunSound(states, ops, i, j - 1);
      var s, op, s' := states[j - 1], ops[j - 1], states[j];
      assert Next(s, op, s');
      if s.pending == Some(k) {
        PendingStep(s, op, s', k);
      } else {
        StepRetains(s, op, s', k, t, d);
      }
    }
    if states[j].pending == Some(k) {
      PendingIsFound(states[j], k);
    } else {
      RetainedIsFound(states[j], k, t);
    }
  }

  lemma PendingStep(s: Store, op: Op, s': Store, k: Prekey)
    requires Sound(s) && Next(s, op, s') && s.pending == Some(k) && !op.RollbackOp?
    ensures s'.pending == Some(k) || s'.spk == Some(k)
  {
    hide Sound;
    hide KeptOf;
    hide Generate;
    hide IsSnapshot;
    hide Restore;
    match op {
      case GenerateOp(now, seeds) => GenerateSound(s, now, seeds);
      case Reload(now) =>
        var r :| IsSnapshot(s, r) && s' == Restore(r, now);
        RestoreIsPrune(s, r, now);
      case _ =>
    }
  }

  /** Whatever a device does in the `d` seconds after `t`, the signed prekey it had at `t` can still be found. */
  ghost predicate AlwaysFound(t: u64, d: nat) {
    forall states: seq<Store>, ops: seq<Op>, i, j ::
      (&& IsRun(states, ops) && 0 <= i <= j < |states| && states[i].spk.Some?
       && (forall l :: i <= l < j ==> Timely(ops[l], t, d)))
      ==> Find(states[j], states[i].spk.value.keyId) == states[i].spk
  }

  /** The run that loses a key at exactly its retention: rotated out at once, pruned `d` seconds later. */
  lemma RotatedAndPruned(t: u64, d: nat, a: Seed, b: Seed) returns (states: seq<Store>, ops: seq<Op>)
    requires t + d <= 0xFFFF_FFFF_FFFF_FFFF && d >= RETENTION
    ensures IsRun(states, ops) && |ops| == 5 && forall l :: 2 <= l < 5 ==> Timely(ops[l], t, d)
    ensures states[2].spk == Some(Prekey(1, t, a)) && Find(states[5], 1) == None
  {
    var k, l := Prekey(1, t, a), Prekey(2, t, b);
    var s1 := EMPTY.(pending := Some(k), nextSpkId := 2);
    var s2 := s1.(spk := Some(k), pending := None);
    var s3 := s2.(pending := Some(l), nextSpkId := 3);
    var s4 := s3.(spk := Some(l), pending := None, retired := [RetiredSpk(k, t)]);
    var s5 := s4.(retired := []);
    ops := [BeginOp(t, Some(a)), CommitOp(t), BeginOp(t, Some(b)), CommitOp(t), PruneOp(t + d)];
    states := [EMPTY, s1, s2, s3, s4, s5];
    assert [] + [RetiredSpk(k, t)] == [RetiredSpk(k, t)];
    assert KeptOf([RetiredSpk(k, t)], t) == [RetiredSpk(k, t)];
    assert KeptOf([RetiredSpk(k, t)], t + d) == [];
    assert Next(s2, ops[2], s3) && Next(s3, ops[3], s4);
    assert Next(s4, ops[4], s5);
    assert Signed(s5) == [l];
  }

  /** The guarantee holds for strictly less than the retention, and for no longer. */
  lemma AlwaysFoundIff(t: u64, d: nat)
    requires t + d <= 0xFFFF_FFFF_FFFF_FFFF
    ensures AlwaysFound(t, d) <==> d < RETENTION
  {
    if d < RETENTION {
      forall states: seq<Store>, ops: seq<Op>, i, j | IsRun(states, ops) && 0 <= i <= j < |states| && states[i].spk.Some?
          && (forall l :: i <= l < j ==> Timely(ops[l], t, d))
        ensures Find(states[j], states[i].spk.value.keyId) == states[i].spk
      {
        CurrentIsRetained(states, ops, i, j, t, d);
      }
    } else {
      var zero: Seed := seq(64, _ => 0);
      var states, ops := RotatedAndPruned(t, d, zero, zero);
      assert states[2].spk.value.keyId == 1;
    }
  }

  /**
   A first flight written at handshake age `a` that waits `q` in the queue finds its prekey,
   unless both stand at their limits: the two limits sum to the retention itself, not to less.
   */
  lemma FirstFlightOpensIff(t: u64, a: nat, q: nat)
    requires a <= MAX_UNANSWERED_AGE && q <= QUEUE_TTL && t + a + q <= 0xFFFF_FFFF_FFFF_FFFF
    ensures AlwaysFound(t, a + q) <==> a < MAX_UNANSWERED_AGE || q < QUEUE_TTL
    ensures MAX_UNANSWERED_AGE == QUEUE_TTL == 604_800
  {
    AlwaysFoundIff(t, a + q);
  }

  // ----- the store as code -----

  lemma LeastExists(ids: set<u32>)
    requires ids != {}
    ensures exists r :: r in ids && IsLeast(r, ids)
  {
    var r :| r in ids;
    while exists id :: id in ids && id < r
      invariant r in ids
      decreases r
    {
      var id :| id in ids && id < r;
      r := id;
    }
    assert IsLeast(r, ids);
  }

  /** Everything listed comes before everything left. */
  ghost predicate Before(l: seq<Prekey>, left: set<u32>) {
    forall k, id :: k in l && id in left ==> k.keyId < id
  }

  predicate IsLeast(id: u32, ids: set<u32>) {
    id in ids && forall other :: other in ids ==> id <= other
  }

  lemma ListStep(l: seq<Prekey>, m: map<u32, Prekey>, left: set<u32>, id: u32)
    requires left <= m.Keys && IsLeast(id, left) && m[id].keyId == id
    requires Lists(l, m - left) && Before(l, left)
    ensures Lists(l + [m[id]], m - (left - {id})) && Before(l + [m[id]], left - {id})
  {
    var k, shown, shown' := m[id], m - left, m - (left - {id});
    assert shown' == shown[id := k];
    assert forall x :: x in l + [k] <==> x in l || x == k;
    ListAppend(l, shown, k);
  }

  lemma ListAppend(l: seq<Prekey>, m: map<u32, Prekey>, k: Prekey)
    requires Lists(l, m) && k.keyId !in m && forall x :: x in l ==> x.keyId < k.keyId
    ensures Lists(l + [k], m[k.keyId := k])
  {
    var l', m' := l + [k], m[k.keyId := k];
    forall i | 0 <= i < |l| ensures l'[i] == l[i] && l[i].keyId < k.keyId {
      assert l[i] in l;
    }
    forall id | id in m' ensures m'[id] in l' {
      if id == k.keyId {
        assert l'[|l|] == k;
      }
    }
  }

  /** The values of a pool by ascending id. */
  method ListById(m: map<u32, Prekey>) returns (l: seq<Prekey>)
    requires forall id :: id in m ==> m[id].keyId == id
    ensures Lists(l, m)
  {
    hide Lists;
    hide Before;
    hide IsLeast;
    l := [];
    var left := m.Keys;
    NothingListed(m - left, left);
    while left != {}
      invariant left <= m.Keys && Lists(l, m - left) && Before(l, left)
      decreases left
    {
      LeastExists(left);
      var id :| id in left && IsLeast(id, left);
      ListStep(l, m, left, id);
      l := l + [m[id]];
      left := left - {id};
    }
    assert m - {} == m;
  }

  lemma NothingListed(m: map<u32, Prekey>, left: set<u32>)
    requires m == map[]
    ensures Lists([], m) && Before([], left)
  {
  }

  /** The retirees with a whole seed, in order. */
  method WholeRetired(retired: seq<RetiredSpk>) returns (r: seq<RetiredSpk>)
    ensures r == UsableRetired(retired)
  {
    r := [];
    var i := |retired|;
    while i > 0
      invariant 0 <= i <= |retired|
      invariant r == UsableRetired(retired[i..])
    {
      i := i - 1;
      assert retired[i..][1..] == retired[i + 1..];
      if |retired[i].prekey.seed| == SEED_SIZE {
        r := [retired[i]] + r;
      }
    }
    assert retired[0..] == retired;
  }

  /** The one-time entries with a whole seed, a later one replacing an earlier one of its id. */
  method WholeOneTime(entries: seq<Prekey>) returns (m: map<u32, Prekey>)
    ensures m == Collect(entries)
  {
    m := map[];
    for i := 0 to |entries|
      invariant m == Collect(entries[..i])
    {
      assert entries[..i + 1][..i] == entries[..i];
      if |entries[i].seed| == SEED_SIZE {
        m := m[entries[i].keyId := entries[i]];
      }
    }
    assert entries[..|entries|] == entries;
  }

  method FindHighest(keys: seq<Prekey>) returns (highest: u32)
    ensures highest == Highest(keys)
  {
    highest := 0;
    for i := 0 to |keys|
      invariant highest == Highest(keys[..i])
    {
      assert keys[..i + 1][..i] == keys[..i];
      if keys[i].keyId > highest {
        highest := keys[i].keyId;
      }
    }
    assert keys[..|keys|] == keys;
  }

  class KyberPrekeyStore {
    var spk: Option<Prekey>
    var pending: Option<Prekey>
    var retired: seq<RetiredSpk>
    var otpks: map<u32, Prekey>
    var nextSpkId: u32
    var nextOtpkId: u32

    function View(): Store
      reads this
    {
      Store(spk, pending, retired, otpks, nextSpkId, nextOtpkId)
    }

    constructor ()
      ensures View() == Store(None, None, [], map[], 1, 1_000_000) && Sound(View())
    {
      spk, pending, retired, otpks := None, None, [], map[];
      nextSpkId, nextOtpkId := 1, OTPK_ID_START;
    }

    /** `from_cfe`: keeps the entries with a whole seed, raises the counters past the ids held, prunes. */
    constructor FromCfe(record: Record, now: u64)
      ensures View() == Restore(record, now)
    {
      hide Signed;
      hide Sound;
      hide UsableRetired;
      hide UsableSeed;
      hide Collect;
      hide Advanced;
      hide Prune;
      var kept := WholeRetired(record.retired);
      var pool := WholeOneTime(record.otpks);
      spk, pending, retired, otpks := UsableSeed(record.spk), UsableSeed(record.pending), kept, pool;
      nextSpkId := Max(record.nextSpkId, 1);
      nextOtpkId := Max(record.nextOtpkId, OTPK_ID_START);
      new;
      assert View() == Usable(record);
      RaiseCounters();
      PruneRetired(now);
    }

    method RaiseCounters()
      modifies this`nextSpkId, this`nextOtpkId
      ensures View() == Advanced(old(View()))
    {
      hide Signed;
      hide Highest;
      var signed := Signed(View());
      var highest := FindHighest(signed);
      if signed != [] {
        nextSpkId := Max(nextSpkId, (highest as nat + 1) % 0x1_0000_0000);
      }
      if otpks != map[] {
        var top := HighestId(otpks.Keys);
        nextOtpkId := Max(nextOtpkId, if top == U32_MAX then U32_MAX else top + 1);
      }
    }

    method BeginSpkRotation(now: u64, seed: Option<Seed>) returns (r: Result<Prekey, StoreError>)
      modifies this
      ensures (r, View()) == Begin(old(View()), now, seed)
      ensures old(Sound(View())) ==> Sound(View())
    {
      if Sound(View()) {
        BeginSound(View(), now, seed);
      }
      if pending.Some? {
        return Ok(pending.value);
      }
      if nextSpkId >= OTPK_ID_START {
        return Err(SpkRangeExhausted);
      }
      if seed.None? {
        return Err(GenerationFailed);
      }
      var prekey := Prekey(nextSpkId, now, seed.value);
      nextSpkId := nextSpkId + 1;
      pending := Some(prekey);
      return Ok(prekey);
    }

    method CommitSpkRotation(now: u64) returns (r: bool)
      modifies this
      ensures (r, View()) == Commit(old(View()), now)
      ensures old(Sound(View())) ==> Sound(View())
    {
      if Sound(View()) {
        CommitSound(View(), now);
      }
      if pending.None? {
        return false;
      }
      var previous := spk;
      spk, pending := pending, None;
      if previous.Some? {
        retired := retired + [RetiredSpk(previous.value, now)];
      }
      PruneRetired(now);
      return true;
    }

    method RollbackSpkRotation()
      modifies this`pending
      ensures View() == Rollback(old(View()))
      ensures old(Sound(View())) ==> Sound(View())
    {
      if Sound(View()) {
        RollbackSound(View());
      }
      pending := None;
    }

    method PruneRetired(now: u64)
      modifies this`retired
      ensures View() == Prune(old(View()), now)
      ensures old(Sound(View())) ==> Sound(View())
    {
      hide Sound;
      ghost var before := View();
      if Sound(before) {
        PruneSound(before, now);
      }
      var kept: seq<RetiredSpk> := [];
      var i := |retired|;
      while i > 0
        invariant 0 <= i <= |retired|
        invariant kept == KeptOf(retired[i..], now)
      {
        i := i - 1;
        assert retired[i..][1..] == retired[i + 1..];
        if Kept(retired[i], now) {
          kept := [retired[i]] + kept;
        }
      }
      assert retired[0..] == retired;
      retired := kept;
    }

    /** Generates `|seeds|` one-time prekeys; a failure keeps the ones made before it. */
    method GenerateOtpks(now: u64, seeds: seq<Option<Seed>>) returns (r: Result<seq<Prekey>, StoreError>)
      modifies this`otpks, this`nextOtpkId
      ensures (r, View()) == Generate(old(View()), now, seeds)
      ensures old(Sound(View())) ==> Sound(View())
    {
      ghost var spec := Generate(View(), now, seeds);
      if Sound(View()) {
        GenerateSound(View(), now, seeds);
      }
      var made: seq<Prekey> := [];
      assert seeds[0..] == seeds;
      assert spec.0.Ok? ==> [] + spec.0.value == spec.0.value;
      for i := 0 to |seeds|
        invariant var (rest, s) := Generate(View(), now, seeds[i..]);
                  spec == (if rest.Ok? then Ok(made + rest.value) else rest, s)
      {
        assert seeds[i..][1..] == seeds[i + 1..];
        if nextOtpkId == U32_MAX {
          return Err(OtpkRangeExhausted);
        }
        if seeds[i].None? {
          return Err(GenerationFailed);
        }
        var prekey := Prekey(nextOtpkId, now, seeds[i].value);
        ghost var rest := Generate(View().(otpks := otpks[prekey.keyId := prekey], nextOtpkId := nextOtpkId + 1), now, seeds[i + 1..]).0;
        assert rest.Ok? ==> made + ([prekey] + rest.value) == made + [prekey] + rest.value;
        nextOtpkId := nextOtpkId + 1;
        otpks := otpks[prekey.keyId := prekey];
        made := made + [prekey];
      }
      assert made + [] == made;
      return Ok(made);
    }

    method PruneOtpksBelow(min: u32) returns (dropped: int)
      modifies this`otpks
      ensures View() == PruneBelow(old(View()), min) && dropped == |old(otpks)| - |otpks|
      ensures old(Sound(View())) ==> Sound(View())
    {
      var before := |otpks|;
      SameSigned(View(), PruneBelow(View(), min));
      otpks := map id | id in otpks && id >= min :: otpks[id];
      return before - |otpks|;
    }

    /** Burns a one-time prekey. */
    method RemoveOtpk(id: u32) returns (r: Option<Prekey>)
      modifies this`otpks
      ensures View() == Remove(old(View()), id)
      ensures otpks == old(otpks) - {id}
      ensures r == if id in old(otpks) then Some(old(otpks)[id]) else None
      ensures old(Sound(View())) ==> Sound(View())
    {
      SameSigned(View(), Remove(View(), id));
      r := if id in otpks then Some(otpks[id]) else None;
      otpks := otpks - {id};
    }

    /** `to_cfe`: lists the one-time pool by ascending id. */
    method ToCfe() returns (record: Record)
      requires forall id :: id in otpks ==> otpks[id].keyId == id
      ensures IsSnapshot(View(), record)
    {
      hide Signed;
      hide DistinctSigned;
      var listed := ListById(otpks);
      record := Record(spk, pending, retired, listed, nextSpkId, nextOtpkId);
    }
  }
}
