/**
 The Key Transparency log: RFC 6962 Merkle trees, their inclusion and consistency proofs, and the
 verifiers a client runs on proofs the server supplies.

 SHA-256 is a parameter. A 32-byte hash of unbounded input always has collisions somewhere, so
 "or a collision exists" would say nothing: every soundness result here is an executable function
 that, from the accepted proofs alone, either returns `Holds` or computes two distinct
 inputs with the same hash.
 */
module MerkleLog {
  import opened Bits
  import opened ByteStrings

  type Proof = seq<Digest>

  /** What an extractor found: the property, or two inputs that break the hash. */
  datatype Outcome<+T> = Holds(value: T) | Clash(x: Bytes, y: Bytes)

  predicate IsCollision(sha: Sha, x: Bytes, y: Bytes) {
    x != y && sha(x) == sha(y)
  }

  /** A reported clash is a real one. */
  predicate Genuine<T>(sha: Sha, r: Outcome<T>) {
    r.Clash? ==> IsCollision(sha, r.x, r.y)
  }

  const MAX_PROOF_DEPTH: nat := 64

  // ----- the split point -----

  /**
   The left subtree's leaf count: a power of two with n/2 <= k < n; 0 below two leaves. Stated by
   halving; `SplitOnWords` equates it with the closed form the source computes.
   */
  function Split(n: nat): (k: nat)
    ensures n < 2 ==> k == 0
    ensures n >= 2 ==> 0 < k < n <= 2 * k
  {
    if n < 2 then 0 else if n == 2 then 1 else 2 * Split((n + 1) / 2)
  }

  lemma {:induction false} SplitIsPow2(n: nat)
    requires n >= 2
    ensures BitLength(n - 1) > 0 && Split(n) == Pow2(BitLength(n - 1) - 1)
  {
    if n > 2 {
      SplitIsPow2((n + 1) / 2);
      assert (n - 1) / 2 == (n + 1) / 2 - 1;
    }
  }

  /** On a word of `bits` bits, one shifted left by the position of the leading one of n - 1 is `Split`. */
  lemma SplitOnBits(n: nat, bits: nat)
    requires 2 <= n <= Pow2(bits)
    ensures LeadingZeros(n - 1, bits) < bits
    ensures Split(n) == Pow2(bits - 1 - LeadingZeros(n - 1, bits))
  {
    hide BitLength;
    hide Split;
    SplitIsPow2(n);
    LeadingZerosBound(n - 1, bits);
    var z := LeadingZeros(n - 1, bits);
    BitLengthUnique(n - 1, bits - z);
  }

  lemma LeadingZerosBound(x: nat, bits: nat)
    requires 1 <= x < Pow2(bits)
    ensures LeadingZeros(x, bits) < bits
  {
    if LeadingZeros(x, bits) == bits {
      assert false;
    }
  }

  /** The source's closed form, on 64-bit words. */
  lemma SplitOnWords(n: nat)
    requires 2 <= n <= 0xFFFF_FFFF_FFFF_FFFF
    ensures LeadingZeros(n - 1, 64) < 64
    ensures Split(n) == Pow2(64 - 1 - LeadingZeros(n - 1, 64))
  {
    hide Split;
    hide LeadingZeros;
    Pow2Word();
    SplitOnBits(n, 64);
  }

  /** `Split(n)` is the largest power of two strictly below `n`. */
  lemma SplitIsLargest(n: nat, j: nat)
    requires n >= 2 && Pow2(j) < n
    ensures exists e: nat :: Split(n) == Pow2(e)
    ensures Pow2(j) <= Split(n) < n
  {
    hide Split;
    hide BitLength;
    SplitIsPow2(n);
    var e := BitLength(n - 1) - 1;
    if e < j {
      Pow2Monotone(e, j);
    } else {
      Pow2Monotone(j, e);
    }
  }

  /** A tree cut inside its right half splits where the whole tree does. */
  lemma SplitStable(m: nat, n: nat)
    requires 2 <= n && Split(n) < m <= n
    ensures Split(m) == Split(n)
  {
    hide Split;
    hide BitLength;
    SplitIsPow2(m);
    SplitIsPow2(n);
    SplitIsLargest(m, BitLength(n - 1) - 1);
    SplitIsLargest(n, BitLength(m - 1) - 1);
  }

  /** Both halves of a tree of at most 2^d leaves have at most 2^(d-1). */
  lemma SplitHalves(n: nat, d: nat)
    requires 2 <= n <= Pow2(d)
    ensures d > 0 && Split(n) <= Pow2(d - 1) && n - Split(n) <= Pow2(d - 1)
  {
    hide Split;
    hide BitLength;
    SplitIsPow2(n);
    var e := BitLength(n - 1) - 1;
    if d <= e { Pow2Monotone(d, e); } else { Pow2Monotone(e, d - 1); }
  }

  // ----- hashing -----

  function NodeInput(left: Digest, right: Digest): (b: Bytes) {
    [1] + left + right
  }

  function NodeHash(sha: Sha, left: Digest, right: Digest): Digest {
    sha(NodeInput(left, right))
  }

  lemma NodeInputInjective(a: Digest, b: Digest, c: Digest, d: Digest)
    ensures NodeInput(a, b) == NodeInput(c, d) <==> a == c && b == d
  {
    if NodeInput(a, b) == NodeInput(c, d) {
      SplitAt([1] + a, b, [1] + c, d);
      SplitAt([1], a, [1], c);
    }
  }

  /** Equal node hashes have equal children, or their inputs collide. */
  function SameNode(sha: Sha, a: Digest, b: Digest, c: Digest, d: Digest): (r: Outcome<()>)
    requires NodeHash(sha, a, b) == NodeHash(sha, c, d)
    ensures r.Holds? ==> a == c && b == d
    ensures Genuine(sha, r)
  {
    NodeInputInjective(a, b, c, d);
    if a == c && b == d then Holds(()) else Clash(NodeInput(a, b), NodeInput(c, d))
  }

  function MerkleTreeHash(sha: Sha, leaves: seq<Digest>): Digest {
    if |leaves| == 0 then sha([])
    else if |leaves| == 1 then leaves[0]
    else
      var k := Split(|leaves|);
      NodeHash(sha, MerkleTreeHash(sha, leaves[..k]), MerkleTreeHash(sha, leaves[k..]))
  }

  lemma TreeNode(sha: Sha, leaves: seq<Digest>)
    requires |leaves| >= 2
    ensures MerkleTreeHash(sha, leaves)
         == NodeHash(sha, MerkleTreeHash(sha, leaves[..Split(|leaves|)]), MerkleTreeHash(sha, leaves[Split(|leaves|)..]))
  {
    hide Split;
    hide NodeHash;
  }

  // ----- inclusion -----

  /** The root an inclusion proof leads to; siblings are consumed from the root side. */
  function InclusionReconstruct(sha: Sha, leaf: Digest, proof: Proof, index: nat, size: nat): (r: Option<Digest>)
    decreases |proof|
  {
    if proof == [] then
      if size == 1 && index == 0 then Some(leaf) else None
    else if size < 2 then None
    else
      var k := Split(size);
      var sibling := proof[|proof| - 1];
      var inner := proof[..|proof| - 1];
      if index < k then
        match InclusionReconstruct(sha, leaf, inner, index, k)
        case None => None
        case Some(left) => Some(NodeHash(sha, left, sibling))
      else
        match InclusionReconstruct(sha, leaf, inner, index - k, size - k)
        case None => None
        case Some(right) => Some(NodeHash(sha, sibling, right))
  }

  /** A right sibling appended to a proof within the left half. */
  lemma InclusionGrowLeft(sha: Sha, leaf: Digest, inner: Proof, s: Digest, index: nat, size: nat)
    requires index < Split(size) && InclusionReconstruct(sha, leaf, inner, index, Split(size)).Some?
    ensures InclusionReconstruct(sha, leaf, inner + [s], index, size)
         == Some(NodeHash(sha, InclusionReconstruct(sha, leaf, inner, index, Split(size)).value, s))
  {
    hide Split;
    hide NodeHash;
    assert (inner + [s])[..|inner|] == inner;
  }

  /** A left sibling appended to a proof within the right half. */
  lemma InclusionGrowRight(sha: Sha, leaf: Digest, inner: Proof, s: Digest, index: nat, size: nat)
    requires 2 <= size && Split(size) <= index < size
    requires InclusionReconstruct(sha, leaf, inner, index - Split(size), size - Split(size)).Some?
    ensures InclusionReconstruct(sha, leaf, inner + [s], index, size)
         == Some(NodeHash(sha, s, InclusionReconstruct(sha, leaf, inner, index - Split(size), size - Split(size)).value))
  {
    hide Split;
    hide NodeHash;
    assert (inner + [s])[..|inner|] == inner;
  }

  predicate VerifyInclusion(sha: Sha, leaf: Digest, proof: Proof, index: u64, size: u64, root: Digest) {
    size != 0 && index < size && |proof| <= MAX_PROOF_DEPTH
    && InclusionReconstruct(sha, leaf, proof, index, size) == Some(root)
  }

  function GenerateInclusion(sha: Sha, leaves: seq<Digest>, index: nat): (p: Proof)
    requires index < |leaves|
    decreases |leaves|
  {
    if |leaves| == 1 then []
    else
      var k := Split(|leaves|);
      if index < k then
        GenerateInclusion(sha, leaves[..k], index) + [MerkleTreeHash(sha, leaves[k..])]
      else
        GenerateInclusion(sha, leaves[k..], index - k) + [MerkleTreeHash(sha, leaves[..k])]
  }

  /** The number of siblings on the path of leaf `index` in a tree of `size` leaves. */
  function PathLength(index: nat, size: nat): (d: nat)
    requires index < size
    decreases size
  {
    if size == 1 then 0
    else
      var k := Split(size);
      if index < k then 1 + PathLength(index, k) else 1 + PathLength(index - k, size - k)
  }

  /** A proof reconstructs some root exactly when it has the one length its position allows. */
  lemma {:induction false} ReconstructLength(sha: Sha, leaf: Digest, proof: Proof, index: nat, size: nat)
    requires index < size
    ensures InclusionReconstruct(sha, leaf, proof, index, size).Some? <==> |proof| == PathLength(index, size)
    decreases |proof|
  {
    if proof != [] && size >= 2 {
      var k := Split(size);
      var inner := proof[..|proof| - 1];
      if index < k {
        ReconstructLength(sha, leaf, inner, index, k);
      } else {
        ReconstructLength(sha, leaf, inner, index - k, size - k);
      }
    }
  }

  lemma {:induction false} PathLengthBound(index: nat, size: nat, d: nat)
    requires index < size <= Pow2(d)
    ensures PathLength(index, size) <= d
    decreases d
  {
    if size >= 2 {
      var k := Split(size);
      SplitHalves(size, d);
      if index < k {
        PathLengthBound(index, k, d - 1);
      } else {
        PathLengthBound(index - k, size - k, d - 1);
      }
    }
  }

  /** No tree a 64-bit size can name needs a longer proof than the cap allows. */
  lemma PathWithinCap(index: nat, size: nat)
    requires index < size <= 0xFFFF_FFFF_FFFF_FFFF
    ensures PathLength(index, size) <= MAX_PROOF_DEPTH
  {
    Pow2Word();
    PathLengthBound(index, size, 64);
  }

  lemma {:induction false} GeneratedReconstructs(sha: Sha, leaves: seq<Digest>, index: nat)
    requires index < |leaves|
    ensures InclusionReconstruct(sha, leaves[index], GenerateInclusion(sha, leaves, index), index, |leaves|)
         == Some(MerkleTreeHash(sha, leaves))
    decreases |leaves|
  {
    if |leaves| >= 2 {
      var k := Split(|leaves|);
      var p := GenerateInclusion(sha, leaves, index);
      if index < k {
        GeneratedReconstructs(sha, leaves[..k], index);
        assert p[..|p| - 1] == GenerateInclusion(sha, leaves[..k], index);
      } else {
        GeneratedReconstructs(sha, leaves[k..], index - k);
        assert p[..|p| - 1] == GenerateInclusion(sha, leaves[k..], index - k);
      }
    }
  }

  /** Completeness: the generated proof of every leaf is accepted, within the cap. */
  lemma InclusionComplete(sha: Sha, leaves: seq<Digest>, index: nat)
    requires index < |leaves| <= 0xFFFF_FFFF_FFFF_FFFF
    ensures VerifyInclusion(sha, leaves[index], GenerateInclusion(sha, leaves, index), index, |leaves|,
                            MerkleTreeHash(sha, leaves))
  {
    GeneratedReconstructs(sha, leaves, index);
    ReconstructLength(sha, leaves[index], GenerateInclusion(sha, leaves, index), index, |leaves|);
    PathWithinCap(index, |leaves|);
  }

  /** Binding: two proofs for one position that lead to one root are the same proof of the same leaf. */
  function InclusionBinding(sha: Sha, a: Digest, p: Proof, b: Digest, q: Proof, index: nat, size: nat): (r: Outcome<()>)
    requires InclusionReconstruct(sha, a, p, index, size).Some?
    requires InclusionReconstruct(sha, a, p, index, size) == InclusionReconstruct(sha, b, q, index, size)
    ensures r.Holds? ==> a == b && p == q
    ensures Genuine(sha, r)
    decreases |p|
  {
    if p == [] then Holds(())
    else
      var k := Split(size);
      var (s, t) := (p[|p| - 1], q[|q| - 1]);
      var (p', q') := (p[..|p| - 1], q[..|q| - 1]);
      assert p == p' + [s] && q == q' + [t];
      if index < k then
        var here := SameNode(sha, InclusionReconstruct(sha, a, p', index, k).value, s,
                             InclusionReconstruct(sha, b, q', index, k).value, t);
        if here.Clash? then here else InclusionBinding(sha, a, p', b, q', index, k)
      else
        var here := SameNode(sha, s, InclusionReconstruct(sha, a, p', index - k, size - k).value,
                             t, InclusionReconstruct(sha, b, q', index - k, size - k).value);
        if here.Clash? then here else InclusionBinding(sha, a, p', b, q', index - k, size - k)
  }

  /** Soundness: what is accepted against the root of `leaves` is the leaf there, by its generated proof. */
  function InclusionSound(sha: Sha, leaf: Digest, proof: Proof, index: u64, leaves: seq<Digest>): (r: Outcome<()>)
    requires |leaves| <= 0xFFFF_FFFF_FFFF_FFFF
    requires VerifyInclusion(sha, leaf, proof, index, |leaves|, MerkleTreeHash(sha, leaves))
    ensures r.Holds? ==> leaf == leaves[index] && proof == GenerateInclusion(sha, leaves, index)
    ensures Genuine(sha, r)
  {
    GeneratedReconstructs(sha, leaves, index);
    InclusionBinding(sha, leaf, proof, leaves[index], GenerateInclusion(sha, leaves, index), index, |leaves|)
  }

  // ----- consistency -----

  /** The (old, new) roots a consistency proof leads to; `hint` is the old root the caller holds. */
  function ConsistencyReconstruct(sha: Sha, hint: Digest, m: nat, n: nat, b: bool, proof: Proof)
    : (r: Option<(Digest, Digest)>)
    decreases |proof|
  {
    if m == n then
      if b then if proof == [] then Some((hint, hint)) else None
      else if |proof| == 1 then Some((proof[0], proof[0])) else None
    else if proof == [] then None
    else
      var k := Split(n);
      var last := proof[|proof| - 1];
      var inner := proof[..|proof| - 1];
      if m <= k then
        if m == k && b then
          if inner == [] then Some((hint, NodeHash(sha, hint, last))) else None
        else
          match ConsistencyReconstruct(sha, hint, m, k, b, inner)
          case None => None
          case Some((oldLeft, newLeft)) => Some((oldLeft, NodeHash(sha, newLeft, last)))
      else
        match ConsistencyReconstruct(sha, hint, m - k, n - k, false, inner)
        case None => None
        case Some((oldRight, newRight)) => Some((NodeHash(sha, last, oldRight), NodeHash(sha, last, newRight)))
  }

  function OldRoot(sha: Sha, hint: Digest, m: nat, n: nat, b: bool, proof: Proof): Option<Digest> {
    var r := ConsistencyReconstruct(sha, hint, m, n, b, proof);
    if r.Some? then Some(r.value.0) else None
  }

  function NewRoot(sha: Sha, hint: Digest, m: nat, n: nat, b: bool, proof: Proof): Option<Digest> {
    var r := ConsistencyReconstruct(sha, hint, m, n, b, proof);
    if r.Some? then Some(r.value.1) else None
  }

  /** `verify_consistency_inner`: an old tree of no leaves is a prefix of anything, whatever its root. */
  predicate VerifyConsistency(sha: Sha, oldRoot: Digest, m: u64, newRoot: Digest, n: u64, proof: Proof) {
    if m > n || |proof| > 2 * MAX_PROOF_DEPTH then false
    else if m == n then oldRoot == newRoot && proof == []
    else if m == 0 then proof == []
    else ConsistencyReconstruct(sha, oldRoot, m, n, true, proof) == Some((oldRoot, newRoot))
  }

  function Subproof(sha: Sha, leaves: seq<Digest>, m: nat, b: bool): (p: Proof)
    requires 0 < m <= |leaves|
    decreases |leaves|
  {
    if m == |leaves| then
      if b then [] else [MerkleTreeHash(sha, leaves)]
    else
      var k := Split(|leaves|);
      if m <= k then
        Subproof(sha, leaves[..k], m, b) + [MerkleTreeHash(sha, leaves[k..])]
      else
        Subproof(sha, leaves[k..], m - k, false) + [MerkleTreeHash(sha, leaves[..k])]
  }

  /** The tree hash of a prefix that reaches into the right half, in terms of the two halves. */
  lemma PrefixHash(sha: Sha, leaves: seq<Digest>, m: nat)
    requires 2 <= |leaves| && Split(|leaves|) < m <= |leaves|
    ensures var k := Split(|leaves|);
            MerkleTreeHash(sha, leaves[..m])
            == NodeHash(sha, MerkleTreeHash(sha, leaves[..k]), MerkleTreeHash(sha, leaves[k..][..m - k]))
  {
    hide Split;
    hide NodeHash;
    hide MerkleTreeHash;
    var k := Split(|leaves|);
    SplitStable(m, |leaves|);
    assert leaves[..m][..k] == leaves[..k];
    assert leaves[..m][k..] == leaves[k..][..m - k];
    TreeNode(sha, leaves[..m]);
  }

  /** The generated proof's step into the left half. */
  lemma SubproofLeft(sha: Sha, leaves: seq<Digest>, m: nat, b: bool, hint: Digest)
    requires 2 <= |leaves| && 0 < m <= Split(|leaves|)
    requires var k := Split(|leaves|);
             ConsistencyReconstruct(sha, hint, m, k, b, Subproof(sha, leaves[..k], m, b))
             == Some((MerkleTreeHash(sha, leaves[..m]), MerkleTreeHash(sha, leaves[..k])))
    ensures ConsistencyReconstruct(sha, hint, m, |leaves|, b, Subproof(sha, leaves, m, b))
         == Some((MerkleTreeHash(sha, leaves[..m]), MerkleTreeHash(sha, leaves)))
  {
    hide Split;
    hide NodeHash;
    hide MerkleTreeHash;
    TreeNode(sha, leaves);
    var k := Split(|leaves|);
    var p := Subproof(sha, leaves, m, b);
    assert p[..|p| - 1] == Subproof(sha, leaves[..k], m, b);
  }

  /** The generated proof's step into the right half. */
  lemma SubproofRight(sha: Sha, leaves: seq<Digest>, m: nat, b: bool, hint: Digest)
    requires 2 <= |leaves| && Split(|leaves|) < m < |leaves|
    requires var k := Split(|leaves|);
             ConsistencyReconstruct(sha, hint, m - k, |leaves| - k, false, Subproof(sha, leaves[k..], m - k, false))
             == Some((MerkleTreeHash(sha, leaves[k..][..m - k]), MerkleTreeHash(sha, leaves[k..])))
    ensures ConsistencyReconstruct(sha, hint, m, |leaves|, b, Subproof(sha, leaves, m, b))
         == Some((MerkleTreeHash(sha, leaves[..m]), MerkleTreeHash(sha, leaves)))
  {
    hide Split;
    hide NodeHash;
    hide MerkleTreeHash;
    TreeNode(sha, leaves);
    PrefixHash(sha, leaves, m);
    var k := Split(|leaves|);
    var p := Subproof(sha, leaves, m, b);
    assert p[..|p| - 1] == Subproof(sha, leaves[k..], m - k, false);
  }

  lemma {:induction false} SubproofReconstructs(sha: Sha, leaves: seq<Digest>, m: nat, b: bool, hint: Digest)
    requires 0 < m <= |leaves|
    requires b ==> hint == MerkleTreeHash(sha, leaves[..m])
    ensures ConsistencyReconstruct(sha, hint, m, |leaves|, b, Subproof(sha, leaves, m, b))
         == Some((MerkleTreeHash(sha, leaves[..m]), MerkleTreeHash(sha, leaves)))
    decreases |leaves|
  {
    hide Split;
    var n := |leaves|;
    if m == n {
      assert leaves[..n] == leaves;
    } else {
      var k := Split(n);
      if m <= k {
        assert leaves[..k][..m] == leaves[..m];
        SubproofReconstructs(sha, leaves[..k], m, b, hint);
        SubproofLeft(sha, leaves, m, b, hint);
      } else {
        SubproofReconstructs(sha, leaves[k..], m - k, false, hint);
        SubproofRight(sha, leaves, m, b, hint);
      }
    }
  }

  lemma {:induction false} SubproofLength(sha: Sha, leaves: seq<Digest>, m: nat, b: bool, d: nat)
    requires 0 < m <= |leaves| <= Pow2(d)
    ensures |Subproof(sha, leaves, m, b)| <= d + 1
    decreases d
  {
    hide Split;
    hide Pow2;
    hide MerkleTreeHash;
    if m < |leaves| {
      var k := Split(|leaves|);
      SplitHalves(|leaves|, d);
      if m <= k {
        SubproofLength(sha, leaves[..k], m, b, d - 1);
      } else {
        SubproofLength(sha, leaves[k..], m - k, false, d - 1);
      }
    }
  }

  /** Completeness: the generated consistency proof of every non-empty prefix is accepted, within the cap. */
  lemma ConsistencyComplete(sha: Sha, leaves: seq<Digest>, m: nat)
    requires 0 < m <= |leaves| <= 0xFFFF_FFFF_FFFF_FFFF
    ensures |Subproof(sha, leaves, m, true)| <= 65
    ensures VerifyConsistency(sha, MerkleTreeHash(sha, leaves[..m]), m, MerkleTreeHash(sha, leaves), |leaves|,
                              Subproof(sha, leaves, m, true))
  {
    Pow2Word();
    SubproofLength(sha, leaves, m, true, 64);
    SubproofReconstructs(sha, leaves, m, true, MerkleTreeHash(sha, leaves[..m]));
    assert leaves[..|leaves|] == leaves;
  }

  /** Binding: two consistency proofs between the same sizes that lead to one new root are the same proof. */
  function ConsistencyBinding(sha: Sha, h: Digest, p: Proof, h': Digest, q: Proof, m: nat, n: nat, b: bool): (r: Outcome<()>)
    requires 0 < m <= n
    requires NewRoot(sha, h, m, n, b, p).Some? && NewRoot(sha, h, m, n, b, p) == NewRoot(sha, h', m, n, b, q)
    ensures r.Holds? ==> p == q && OldRoot(sha, h, m, n, b, p) == OldRoot(sha, h', m, n, b, q)
    ensures Genuine(sha, r)
    decreases |p|
  {
    hide Split;
    hide NodeHash;
    if m == n then Holds(())
    else
      var k := Split(n);
      var (s, t) := (p[|p| - 1], q[|q| - 1]);
      var (p', q') := (p[..|p| - 1], q[..|q| - 1]);
      assert p == p' + [s] && q == q' + [t];
      if m == k && b then SameNode(sha, h, s, h', t)
      else if m <= k then
        var here := SameNode(sha, ConsistencyReconstruct(sha, h, m, k, b, p').value.1, s,
                             ConsistencyReconstruct(sha, h', m, k, b, q').value.1, t);
        if here.Clash? then here else ConsistencyBinding(sha, h, p', h', q', m, k, b)
      else
        var here := SameNode(sha, s, ConsistencyReconstruct(sha, h, m - k, n - k, false, p').value.1,
                             t, ConsistencyReconstruct(sha, h', m - k, n - k, false, q').value.1);
        if here.Clash? then here else ConsistencyBinding(sha, h, p', h', q', m - k, n - k, false)
  }

  /** Soundness: an accepted old root is the root of the first `m` leaves, by the generated proof. */
  function ConsistencySound(sha: Sha, oldRoot: Digest, m: u64, proof: Proof, leaves: seq<Digest>): (r: Outcome<()>)
    requires 0 < m && |leaves| <= 0xFFFF_FFFF_FFFF_FFFF
    requires VerifyConsistency(sha, oldRoot, m, MerkleTreeHash(sha, leaves), |leaves|, proof)
    ensures r.Holds? ==> oldRoot == MerkleTreeHash(sha, leaves[..m]) && proof == Subproof(sha, leaves, m, true)
    ensures Genuine(sha, r)
  {
    hide Split;
    var prefixRoot := MerkleTreeHash(sha, leaves[..m]);
    if m == |leaves| then
      assert leaves[..m] == leaves;
      Holds(())
    else
      SubproofReconstructs(sha, leaves, m, true, prefixRoot);
      ConsistencyBinding(sha, oldRoot, proof, prefixRoot, Subproof(sha, leaves, m, true), m, |leaves|, true)
  }

  /** Why `0 < m` is needed: from an empty old tree, exactly the empty proof is accepted, for any two roots. */
  lemma EmptyOldTreeBindsNothing(sha: Sha, oldRoot: Digest, newRoot: Digest, n: u64, proof: Proof)
    requires 0 < n
    ensures VerifyConsistency(sha, oldRoot, 0, newRoot, n, proof) <==> proof == []
  {
  }

  // ----- one leaf under two heads -----

  /** The last step of an inclusion proof within the left half, and within the right. */
  lemma InclusionLastLeft(sha: Sha, leaf: Digest, incl: Proof, index: nat, n: nat)
    requires index < Split(n) && InclusionReconstruct(sha, leaf, incl, index, n).Some?
    ensures |incl| > 0
    ensures var inner := InclusionReconstruct(sha, leaf, incl[..|incl| - 1], index, Split(n));
            inner.Some? && InclusionReconstruct(sha, leaf, incl, index, n) == Some(NodeHash(sha, inner.value, incl[|incl| - 1]))
  {
    hide Split;
    hide NodeHash;
  }

  lemma InclusionLastRight(sha: Sha, leaf: Digest, incl: Proof, index: nat, n: nat)
    requires 2 <= n && Split(n) <= index < n && InclusionReconstruct(sha, leaf, incl, index, n).Some?
    ensures |incl| > 0
    ensures var inner := InclusionReconstruct(sha, leaf, incl[..|incl| - 1], index - Split(n), n - Split(n));
            inner.Some? && InclusionReconstruct(sha, leaf, incl, index, n) == Some(NodeHash(sha, incl[|incl| - 1], inner.value))
  {
    hide Split;
    hide NodeHash;
  }

  /** The last step of a consistency proof into the left half, and into the right. */
  lemma ConsistencyLastLeft(sha: Sha, hint: Digest, m: nat, n: nat, b: bool, cons: Proof)
    requires 0 < m < n && m <= Split(n) && ConsistencyReconstruct(sha, hint, m, n, b, cons).Some?
    ensures |cons| > 0
    ensures var whole := ConsistencyReconstruct(sha, hint, m, n, b, cons).value;
            if m == Split(n) && b then whole == (hint, NodeHash(sha, hint, cons[|cons| - 1]))
            else
              var inner := ConsistencyReconstruct(sha, hint, m, Split(n), b, cons[..|cons| - 1]);
              inner.Some? && whole == (inner.value.0, NodeHash(sha, inner.value.1, cons[|cons| - 1]))
  {
    hide Split;
    hide NodeHash;
  }

  lemma ConsistencyLastRight(sha: Sha, hint: Digest, m: nat, n: nat, b: bool, cons: Proof)
    requires Split(n) < m < n && ConsistencyReconstruct(sha, hint, m, n, b, cons).Some?
    ensures |cons| > 0
    ensures var last := cons[|cons| - 1];
            var inner := ConsistencyReconstruct(sha, hint, m - Split(n), n - Split(n), false, cons[..|cons| - 1]);
            && inner.Some?
            && ConsistencyReconstruct(sha, hint, m, n, b, cons).value
               == (NodeHash(sha, last, inner.value.0), NodeHash(sha, last, inner.value.1))
  {
    hide Split;
    hide NodeHash;
  }

  /**
   Carries an inclusion proof back in time: from a leaf included under the new root and a
   consistency proof between the roots, the inclusion proof of that leaf under the old root.
   No tree is assumed to exist behind either root.
   */
  function CarryBack(sha: Sha, hint: Digest, m: nat, n: nat, b: bool, cons: Proof, leaf: Digest, incl: Proof, index: nat)
    : (r: Outcome<Proof>)
    requires index < m <= n
    requires NewRoot(sha, hint, m, n, b, cons).Some?
    requires InclusionReconstruct(sha, leaf, incl, index, n) == NewRoot(sha, hint, m, n, b, cons)
    ensures r.Holds? ==> InclusionReconstruct(sha, leaf, r.value, index, m) == OldRoot(sha, hint, m, n, b, cons)
    ensures Genuine(sha, r)
    decreases |cons|, 1
  {
    if m == n then
      EqualSizes(sha, hint, m, b, cons);
      Found(sha, incl)
    else if m <= Split(n) then CarryLeft(sha, hint, m, n, b, cons, leaf, incl, index)
    else if index < Split(n) then CarryAcross(sha, hint, m, n, b, cons, leaf, incl, index)
    else CarryRight(sha, hint, m, n, b, cons, leaf, incl, index)
  }

  /** `CarryBack` where the old tree ends within the left half of the new one. */
  function CarryLeft(sha: Sha, hint: Digest, m: nat, n: nat, b: bool, cons: Proof, leaf: Digest, incl: Proof, index: nat)
    : (r: Outcome<Proof>)
    requires index < m < n && m <= Split(n)
    requires NewRoot(sha, hint, m, n, b, cons).Some?
    requires InclusionReconstruct(sha, leaf, incl, index, n) == NewRoot(sha, hint, m, n, b, cons)
    ensures r.Holds? ==> InclusionReconstruct(sha, leaf, r.value, index, m) == OldRoot(sha, hint, m, n, b, cons)
    ensures Genuine(sha, r)
    decreases |cons|, 0
  {
    InclusionLastLeft(sha, leaf, incl, index, n);
    ConsistencyLastLeft(sha, hint, m, n, b, cons);
    var k := Split(n);
    var (last, cons') := (cons[|cons| - 1], cons[..|cons| - 1]);
    var (s, incl') := (incl[|incl| - 1], incl[..|incl| - 1]);
    var newLeft := if m == k && b then hint else ConsistencyReconstruct(sha, hint, m, k, b, cons').value.1;
    var here := SameNode(sha, InclusionReconstruct(sha, leaf, incl', index, k).value, s, newLeft, last);
    if here.Clash? then Collided(sha, here)
    else if m == k && b then Found(sha, incl')
    else CarryBack(sha, hint, m, k, b, cons', leaf, incl', index)
  }

  /** `CarryBack` where the old tree reaches into the right half, and so splits where the new one does: a leaf of the left half. */
  function CarryAcross(sha: Sha, hint: Digest, m: nat, n: nat, b: bool, cons: Proof, leaf: Digest, incl: Proof, index: nat)
    : (r: Outcome<Proof>)
    requires index < Split(n) < m < n
    requires NewRoot(sha, hint, m, n, b, cons).Some?
    requires InclusionReconstruct(sha, leaf, incl, index, n) == NewRoot(sha, hint, m, n, b, cons)
    ensures r.Holds? ==> InclusionReconstruct(sha, leaf, r.value, index, m) == OldRoot(sha, hint, m, n, b, cons)
    ensures Genuine(sha, r)
  {
    InclusionLastLeft(sha, leaf, incl, index, n);
    ConsistencyLastRight(sha, hint, m, n, b, cons);
    SplitStable(m, n);
    var (last, cons') := (cons[|cons| - 1], cons[..|cons| - 1]);
    var (s, incl') := (incl[|incl| - 1], incl[..|incl| - 1]);
    var roots := ConsistencyReconstruct(sha, hint, m - Split(n), n - Split(n), false, cons').value;
    var here := SameNode(sha, InclusionReconstruct(sha, leaf, incl', index, Split(n)).value, s, last, roots.1);
    if here.Clash? then Collided(sha, here)
    else
      InclusionGrowLeft(sha, leaf, incl', roots.0, index, m);
      Found(sha, incl' + [roots.0])
  }

  /** Both proofs step into the right half, and what they leave meets under one node. */
  lemma RightParts(sha: Sha, hint: Digest, m: nat, n: nat, b: bool, cons: Proof, leaf: Digest, incl: Proof, index: nat)
    requires Split(n) <= index < m < n && Split(n) < m
    requires NewRoot(sha, hint, m, n, b, cons).Some?
    requires InclusionReconstruct(sha, leaf, incl, index, n) == NewRoot(sha, hint, m, n, b, cons)
    ensures |cons| > 0 && |incl| > 0
    ensures var (last, s) := (cons[|cons| - 1], incl[|incl| - 1]);
            var inner := InclusionReconstruct(sha, leaf, incl[..|incl| - 1], index - Split(n), n - Split(n));
            var newRight := NewRoot(sha, hint, m - Split(n), n - Split(n), false, cons[..|cons| - 1]);
            var oldRight := OldRoot(sha, hint, m - Split(n), n - Split(n), false, cons[..|cons| - 1]);
            && inner.Some? && newRight.Some? && oldRight.Some?
            && NodeHash(sha, s, inner.value) == NodeHash(sha, last, newRight.value)
            && OldRoot(sha, hint, m, n, b, cons) == Some(NodeHash(sha, last, oldRight.value))
  {
    hide Split;
    hide NodeHash;
    hide InclusionReconstruct;
    hide ConsistencyReconstruct;
    InclusionLastRight(sha, leaf, incl, index, n);
    ConsistencyLastRight(sha, hint, m, n, b, cons);
  }

  /** The same for a leaf of the right half. */
  function CarryRight(sha: Sha, hint: Digest, m: nat, n: nat, b: bool, cons: Proof, leaf: Digest, incl: Proof, index: nat)
    : (r: Outcome<Proof>)
    requires Split(n) <= index < m < n && Split(n) < m
    requires NewRoot(sha, hint, m, n, b, cons).Some?
    requires InclusionReconstruct(sha, leaf, incl, index, n) == NewRoot(sha, hint, m, n, b, cons)
    ensures r.Holds? ==> InclusionReconstruct(sha, leaf, r.value, index, m) == OldRoot(sha, hint, m, n, b, cons)
    ensures Genuine(sha, r)
    decreases |cons|, 0
  {
    RightParts(sha, hint, m, n, b, cons, leaf, incl, index);
    SplitStable(m, n);
    var (k, last, cons', incl') := (Split(n), cons[|cons| - 1], cons[..|cons| - 1], incl[..|incl| - 1]);
    var newRight := NewRoot(sha, hint, m - k, n - k, false, cons').value;
    var oldRight := OldRoot(sha, hint, m - k, n - k, false, cons').value;
    var here := SameNode(sha, incl[|incl| - 1], InclusionReconstruct(sha, leaf, incl', index - k, n - k).value, last, newRight);
    if here.Clash? then Collided(sha, here)
    else Grown(sha, leaf, CarryBack(sha, hint, m - k, n - k, false, cons', leaf, incl', index - k), last, index, m, k, oldRight)
  }

  /** An outcome within the right half, with the left sibling put on it. */
  function Grown(sha: Sha, leaf: Digest, rest: Outcome<Proof>, sibling: Digest, index: nat, m: nat, k: nat, right: Digest)
    : (r: Outcome<Proof>)
    requires 2 <= m && k == Split(m) && k <= index < m && Genuine(sha, rest)
    requires rest.Holds? ==> InclusionReconstruct(sha, leaf, rest.value, index - k, m - k) == Some(right)
    ensures r.Holds? ==> InclusionReconstruct(sha, leaf, r.value, index, m) == Some(NodeHash(sha, sibling, right))
    ensures Genuine(sha, r)
  {
    if rest.Clash? then rest
    else
      InclusionGrowRight(sha, leaf, rest.value, sibling, index, m);
      Found(sha, rest.value + [sibling])
  }

  lemma EqualSizes(sha: Sha, hint: Digest, m: nat, b: bool, cons: Proof)
    ensures NewRoot(sha, hint, m, m, b, cons) == OldRoot(sha, hint, m, m, b, cons)
  {
  }

  function Found(sha: Sha, p: Proof): (r: Outcome<Proof>)
    ensures r == Holds(p) && Genuine(sha, r)
  {
    Holds(p)
  }

  /** The collision behind one outcome stands behind any other. */
  function Collided(sha: Sha, here: Outcome<()>): (r: Outcome<Proof>)
    requires here.Clash? && Genuine(sha, here)
    ensures r.Clash? && Genuine(sha, r)
  {
    Clash(here.x, here.y)
  }

  // ----- whole histories -----

  datatype Head = Head(size: u64, root: Digest)

  /** Heads a client accepted in turn, with the consistency proof between each and the next. */
  predicate AcceptedHistory(sha: Sha, heads: seq<Head>, proofs: seq<Proof>) {
    && |heads| == |proofs| + 1
    && (forall j :: 0 <= j < |heads| ==> 0 < heads[j].size)
    && (forall j :: 0 <= j < |proofs| ==>
          VerifyConsistency(sha, heads[j].root, heads[j].size, heads[j + 1].root, heads[j + 1].size, proofs[j]))
  }

  predicate Included(sha: Sha, leaf: Digest, proof: Proof, index: u64, head: Head) {
    VerifyInclusion(sha, leaf, proof, index, head.size, head.root)
  }

  lemma {:induction false} SizesGrow(sha: Sha, heads: seq<Head>, proofs: seq<Proof>, s: nat, t: nat)
    requires AcceptedHistory(sha, heads, proofs) && s <= t < |heads|
    ensures heads[s].size <= heads[t].size
    decreases t - s
  {
    if s < t {
      SizesGrow(sha, heads, proofs, s, t - 1);
      assert VerifyConsistency(sha, heads[t - 1].root, heads[t - 1].size, heads[t].root, heads[t].size, proofs[t - 1]);
    }
  }

  /** `CarryBack` along a whole accepted history, from head `t` to head `s`. */
  function CarryThrough(sha: Sha, heads: seq<Head>, proofs: seq<Proof>, s: nat, t: nat, leaf: Digest, incl: Proof, index: u64)
    : (r: Outcome<Proof>)
    requires AcceptedHistory(sha, heads, proofs) && s <= t < |heads|
    requires index < heads[s].size && Included(sha, leaf, incl, index, heads[t])
    ensures r.Holds? ==> Included(sha, leaf, r.value, index, heads[s])
    ensures Genuine(sha, r)
    decreases t
  {
    hide Split;
    if s == t then Holds(incl)
    else
      SizesGrow(sha, heads, proofs, s, t - 1);
      var (before, after, cons) := (heads[t - 1], heads[t], proofs[t - 1]);
      assert VerifyConsistency(sha, before.root, before.size, after.root, after.size, cons);
      var step := if before.size == after.size then Holds(incl)
                  else CarryBack(sha, before.root, before.size, after.size, true, cons, leaf, incl, index);
      if step.Clash? then step
      else
        ReconstructLength(sha, leaf, step.value, index, before.size);
        PathWithinCap(index, before.size);
        CarryThrough(sha, heads, proofs, s, t - 1, leaf, step.value, index)
  }

  /**
   Log safety over a whole history: whatever the server sends, two leaves a client accepts at one
   index under any two heads of its history are the same leaf, or the proofs give a collision.
   */
  function HistorySafe(sha: Sha, heads: seq<Head>, proofs: seq<Proof>, s: nat, t: nat,
                       a: Digest, p: Proof, b: Digest, q: Proof, index: u64): (r: Outcome<()>)
    requires AcceptedHistory(sha, heads, proofs) && s <= t < |heads|
    requires Included(sha, a, p, index, heads[s]) && Included(sha, b, q, index, heads[t])
    ensures r.Holds? ==> a == b
    ensures Genuine(sha, r)
  {
    var back := CarryThrough(sha, heads, proofs, s, t, b, q, index);
    if back.Clash? then Clash(back.x, back.y)
    else InclusionBinding(sha, a, p, b, back.value, index, heads[s].size)
  }

  /** With the last head known to be the root of `leaves`, a leaf accepted under any head is the one in `leaves`. */
  function HistoryOfTree(sha: Sha, heads: seq<Head>, proofs: seq<Proof>, s: nat, a: Digest, p: Proof, index: u64,
                         leaves: seq<Digest>): (r: Outcome<()>)
    requires AcceptedHistory(sha, heads, proofs) && s < |heads|
    requires Included(sha, a, p, index, heads[s])
    requires var last := heads[|heads| - 1]; |leaves| == last.size && last.root == MerkleTreeHash(sha, leaves)
    ensures r.Holds? ==> index < |leaves| && a == leaves[index]
    ensures Genuine(sha, r)
  {
    var t := |heads| - 1;
    SizesGrow(sha, heads, proofs, s, t);
    InclusionComplete(sha, leaves, index);
    HistorySafe(sha, heads, proofs, s, t, a, p, leaves[index], GenerateInclusion(sha, leaves, index), index)
  }

  // ----- leaves -----

  const LEAF_IDENTITY: u8 := 0x00
  const LEAF_HYBRID: u8 := 0x02

  function LeafInput(domain: u8, deviceId: Bytes, key: Bytes): (b: Bytes) {
    [domain] + deviceId + key
  }

  function LeafHash(sha: Sha, domain: u8, deviceId: Bytes, key: Bytes): Digest {
    sha(LeafInput(domain, deviceId, key))
  }

  /**
   The leaf input carries no length: equal inputs name one device and key exactly when the two ids
   have one length (device ids are 32 hex characters, so in the log they always do).
   */
  lemma LeafInputBinds(d: u8, id: Bytes, key: Bytes, d': u8, id': Bytes, key': Bytes)
    requires LeafInput(d, id, key) == LeafInput(d', id', key')
    ensures d == d'
    ensures id == id' && key == key' <==> |id| == |id'|
  {
    assert LeafInput(d, id, key) == [d] + (id + key) && LeafInput(d', id', key') == [d'] + (id' + key');
    SplitAt([d], id + key, [d'], id' + key');
    if |id| == |id'| {
      SplitAt(id, key, id', key');
    }
  }

  /** The failing family is inhabited: one byte moves from the key to the id and the leaf is unchanged. */
  lemma LeafBoundarySlides(sha: Sha, d: u8, id: Bytes, x: u8, key: Bytes)
    ensures LeafHash(sha, d, id, [x] + key) == LeafHash(sha, d, id + [x], key)
  {
    assert LeafInput(d, id, [x] + key) == LeafInput(d, id + [x], key);
  }

  /** A leaf is never the input of an inner node: an identity or hybrid leaf accepted as a node clashes. */
  lemma LeafIsNoNode(domain: u8, deviceId: Bytes, key: Bytes, left: Digest, right: Digest)
    requires domain == LEAF_IDENTITY || domain == LEAF_HYBRID
    ensures LeafInput(domain, deviceId, key) != NodeInput(left, right)
  {
    assert LeafInput(domain, deviceId, key)[0] == domain;
    assert NodeInput(left, right)[0] == 1;
  }

  // ----- byte for byte -----

  /** An inner node is the hash of the byte 1, the left hash and the right hash. */
  lemma NodeBytes(sha: Sha, left: Digest, right: Digest)
    ensures NodeHash(sha, left, right) == sha([1] + left + right)
  {
  }

  /** A leaf is the hash of its kind, 0 for an identity key and 2 for a hybrid key, the device id and the key. */
  lemma LeafBytes(sha: Sha, deviceId: Bytes, key: Bytes)
    ensures LeafHash(sha, LEAF_IDENTITY, deviceId, key) == sha([0] + deviceId + key)
    ensures LeafHash(sha, LEAF_HYBRID, deviceId, key) == sha([2] + deviceId + key)
    ensures forall domain: u8 :: LeafHash(sha, domain, deviceId, key) == sha([domain] + deviceId + key)
  {
  }

  /** The roots of the smallest trees, by section 2.1 of RFC 6962 with leaves already hashed. */
  lemma SmallRoots(sha: Sha, a: Digest, b: Digest, c: Digest)
    ensures MerkleTreeHash(sha, []) == sha([])
    ensures MerkleTreeHash(sha, [a]) == a
    ensures MerkleTreeHash(sha, [a, b]) == sha([1] + a + b)
    ensures MerkleTreeHash(sha, [a, b, c]) == sha([1] + sha([1] + a + b) + c)
  {
    var two, three := [a, b], [a, b, c];
    assert two[..1] == [a] && two[1..] == [b];
    assert three[..2] == two && three[2..] == [c];
    assert Split(2) == 1 && Split(3) == 2;
    NodeBytes(sha, a, b);
    NodeBytes(sha, sha([1] + a + b), c);
  }
}
