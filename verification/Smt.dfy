/** The sparse Merkle tree of height 256.

    The reference is the full binary tree over all 2^256 keys, whose leaf at an absent key
    is zero.  The sparse computation, the proofs and the updates are proved to agree with
    it, and any accepted proof that disagrees with it is turned into a hash collision on
    two named paths. */
module Smt {
  import opened Modular
  import opened Bytes

  /** The order of the BN254 scalar field. */
  const P: pos := 0x30644e72_e131a029_b85045b6_8181585d_2833e848_79b97091_43e1f593_f0000001

  type Fr = x: nat | x < P

  /** `poseidon2`. */
  type Hash = (Fr, Fr) -> Fr

  type TreeHeight = n: nat | n == 256 witness 256

  /** 256; a typed constant rather than a literal, which the solver would unroll. */
  const HEIGHT: TreeHeight

  function ToFr(w: nat): Fr {
    w % P
  }

  /** The order of the curve from the parameter of its family. */
  lemma FieldOrder(u: nat)
    requires u == 0x44e992b44a6909f1
    ensures P == 36 * (u * u * u * u) + 36 * (u * u * u) + 18 * (u * u) + 6 * u + 1
  {
  }

  lemma FrOfWord(x: Fr)
    ensures ToFr(x) == x && x < TWO256
  {
  }

  /** The path bit at a depth, most significant first. */
  function Bit(key: Bytes32, depth: nat): nat
    requires depth < HEIGHT
  {
    Prefix(key, depth + 1) % 2
  }

  /** The first `depth` bits of the key, as a number. */
  function Prefix(key: Bytes32, depth: nat): nat
    requires depth <= HEIGHT
  {
    Quotient(key, Pow2(HEIGHT - depth))
  }

  function Quotient(v: nat, d: pos): nat {
    v / d
  }

  lemma PrefixStep(key: Bytes32, depth: nat)
    requires depth < HEIGHT
    ensures Prefix(key, depth + 1) == 2 * Prefix(key, depth) + Bit(key, depth)
    ensures Bit(key, depth) == 0 || Bit(key, depth) == 1
  {
    var d := Pow2(HEIGHT - depth - 1);
    assert Pow2(HEIGHT - depth) == 2 * d;
    HalveAfter(key, d);
  }

  lemma HalveAfter(v: nat, d: pos)
    ensures v / d == 2 * (v / (2 * d)) + (v / d) % 2
  {
    var q, r := v / (2 * d), v % (2 * d);
    assert v == q * (2 * d) + r;
    if r < d {
      assert v == (2 * q) * d + r;
      DivUnique(v, d, 2 * q, r);
    } else {
      assert v == (2 * q + 1) * d + (r - d);
      DivUnique(v, d, 2 * q + 1, r - d);
    }
  }

  lemma WholePrefix(key: Bytes32)
    ensures Prefix(key, HEIGHT) == key && Prefix(key, 0) == 0
  {
    Pow2Of256();
    assert Pow2(0) == 1;
    DivUnique(key, TWO256, 0, key);
  }

  lemma Pow2Of64()
    ensures Pow2(64) == 0x1_00000000_00000000
  {
    assert Pow2(8) == 256;
    hide Pow2;
    Pow2Add(8, 8);
    Pow2Add(16, 16);
    Pow2Add(32, 32);
  }

  lemma Pow2Of256()
    ensures Pow2(256) == TWO256
  {
    hide Pow2;
    Pow2Of64();
    Pow2Add(64, 64);
    Pow2Add(128, 128);
  }

  // -------------------------------------------------------------- the full tree

  type Leaves = map<Bytes32, Fr>

  function LeafAt(m: Leaves, key: nat): Fr {
    if key < TWO256 && key in m then m[key] else 0
  }

  /** The node over all keys whose first `depth` bits spell `prefix`. */
  function FullNode(h: Hash, m: Leaves, depth: nat, prefix: nat): Fr
    requires depth <= HEIGHT
    decreases HEIGHT - depth, m, h(0, 0)
  {
    if depth == HEIGHT then LeafAt(m, prefix)
    else h(FullNode(h, m, depth + 1, 2 * prefix), FullNode(h, m, depth + 1, 2 * prefix + 1))
  }

  function RootOf(h: Hash, m: Leaves): Fr {
    FullNode(h, m, 0, 0)
  }

  /** The root of an empty subtree of a height. */
  function Empty(h: Hash, height: nat): Fr {
    if height == 0 then 0 else h(Empty(h, height - 1), Empty(h, height - 1))
  }

  lemma {:induction false} EmptyNode(h: Hash, m: Leaves, depth: nat, prefix: nat)
    requires depth <= HEIGHT
    requires forall k :: k in m ==> Prefix(k, depth) != prefix
    ensures FullNode(h, m, depth, prefix) == Empty(h, HEIGHT - depth)
    decreases HEIGHT - depth
  {
    hide Prefix, Bit;
    if depth == HEIGHT {
      if prefix < TWO256 { WholePrefix(prefix); }
    } else {
      forall k | k in m
        ensures Prefix(k, depth + 1) != 2 * prefix && Prefix(k, depth + 1) != 2 * prefix + 1
      {
        PrefixStep(k, depth);
      }
      EmptyNode(h, m, depth + 1, 2 * prefix);
      EmptyNode(h, m, depth + 1, 2 * prefix + 1);
    }
  }

  /** A node depends only on the leaves below it. */
  lemma {:induction false} NodeFrame(h: Hash, m: Leaves, m': Leaves, depth: nat, prefix: nat)
    requires depth <= HEIGHT
    requires forall k: Bytes32 :: Prefix(k, depth) == prefix ==> LeafAt(m, k) == LeafAt(m', k)
    ensures FullNode(h, m, depth, prefix) == FullNode(h, m', depth, prefix)
    decreases HEIGHT - depth
  {
    hide Prefix, Bit, LeafAt;
    if depth == HEIGHT {
      if prefix < TWO256 {
        WholePrefix(prefix);
      } else {
        assert LeafAt(m, prefix) == LeafAt(m', prefix) by { NoLeaf(m, prefix); NoLeaf(m', prefix); }
      }
    } else {
      forall k: Bytes32 | Prefix(k, depth + 1) == 2 * prefix || Prefix(k, depth + 1) == 2 * prefix + 1
        ensures LeafAt(m, k) == LeafAt(m', k)
      {
        PrefixStep(k, depth);
      }
      NodeFrame(h, m, m', depth + 1, 2 * prefix);
      NodeFrame(h, m, m', depth + 1, 2 * prefix + 1);
    }
  }

  lemma NoLeaf(m: Leaves, key: nat)
    requires key >= TWO256
    ensures LeafAt(m, key) == 0
  {
  }

  // --------------------------------------------------------------- paths and folds

  /** The prefix of the sibling at a depth. */
  function SiblingPrefix(key: Bytes32, depth: nat): nat
    requires depth < HEIGHT
  {
    if Bit(key, depth) == 0 then 2 * Prefix(key, depth) + 1 else 2 * Prefix(key, depth)
  }

  function Sibling(h: Hash, m: Leaves, key: Bytes32, depth: nat): Fr
    requires depth < HEIGHT
  {
    FullNode(h, m, depth + 1, SiblingPrefix(key, depth))
  }

  type Proof = seq<Bytes32>

  /** The two inputs of a node on the path, in tree order. */
  function Ordered(bit: nat, cur: Fr, sib: Fr): (Fr, Fr) {
    if bit == 0 then (cur, sib) else (sib, cur)
  }

  /** The fold of a leaf through the proof, from the bottom up to a depth. */
  function FoldTo(h: Hash, key: Bytes32, leaf: Fr, proof: Proof, depth: nat): Fr
    requires depth <= HEIGHT == |proof|
    decreases HEIGHT - depth, proof, 1
  {
    if depth == HEIGHT then leaf else
    var (l, r) := FoldPair(h, key, leaf, proof, depth);
    h(l, r)
  }

  /** What the fold hashes at a depth. */
  function FoldPair(h: Hash, key: Bytes32, leaf: Fr, proof: Proof, depth: nat): (Fr, Fr)
    requires depth < HEIGHT == |proof|
    decreases HEIGHT - depth, proof, 0
  {
    Ordered(Bit(key, depth), FoldTo(h, key, leaf, proof, depth + 1), ToFr(proof[depth]))
  }

  method FoldToRoot(h: Hash, key: Bytes32, leaf: Fr, proof: Proof) returns (r: Fr)
    requires |proof| == HEIGHT
    ensures r == FoldTo(h, key, leaf, proof, 0)
  {
    hide Bit, ToFr;
    var cur := leaf;
    for depth := HEIGHT downto 0
      invariant cur == FoldTo(h, key, leaf, proof, depth)
    {
      var sib := ToFr(proof[depth]);
      cur := if Bit(key, depth) == 0 then h(cur, sib) else h(sib, cur);
    }
    r := cur;
  }

  /** The proof holds the siblings of the path in a tree. */
  ghost predicate Proves(h: Hash, m: Leaves, key: Bytes32, proof: Proof) {
    |proof| == HEIGHT && forall d :: 0 <= d < HEIGHT ==> proof[d] == Sibling(h, m, key, d)
  }

  lemma ProvesAt(h: Hash, m: Leaves, key: Bytes32, proof: Proof, d: nat)
    requires Proves(h, m, key, proof) && d < HEIGHT
    ensures |proof| == HEIGHT && ToFr(proof[d]) == Sibling(h, m, key, d)
  {
    FrOfWord(Sibling(h, m, key, d));
    hide Sibling, ToFr;
  }

  lemma SiblingUntouched(h: Hash, m: Leaves, key: Bytes32, leaf: Fr, d: nat)
    requires d < HEIGHT
    ensures Sibling(h, m[key := leaf], key, d) == Sibling(h, m, key, d)
  {
    PrefixStep(key, d);
    var sp := SiblingPrefix(key, d);
    assert Prefix(key, d + 1) != sp;
    hide Prefix, Bit, FullNode, SiblingPrefix;
    forall k: Bytes32 | Prefix(k, d + 1) == sp
      ensures LeafAt(m[key := leaf], k) == LeafAt(m, k)
    {
      assert k != key;
    }
    NodeFrame(h, m[key := leaf], m, d + 1, sp);
  }

  lemma NodeOnPath(h: Hash, m: Leaves, key: Bytes32, d: nat)
    requires d < HEIGHT
    ensures var (l, r) := TreePair(h, m, key, d);
      FullNode(h, m, d, Prefix(key, d)) == h(l, r)
  {
    PrefixStep(key, d);
    hide Prefix, Bit;
  }

  /** What the tree hashes on the path at a depth. */
  function TreePair(h: Hash, m: Leaves, key: Bytes32, depth: nat): (Fr, Fr)
    requires depth < HEIGHT
  {
    Ordered(Bit(key, depth), FullNode(h, m, depth + 1, Prefix(key, depth + 1)), Sibling(h, m, key, depth))
  }

  /** Folding any leaf through a tree's own proof gives the node of the tree with that
      leaf put in place. */
  lemma {:induction false} FoldIsUpdate(h: Hash, m: Leaves, key: Bytes32, leaf: Fr, proof: Proof, depth: nat)
    requires depth <= HEIGHT && Proves(h, m, key, proof)
    ensures |proof| == HEIGHT
    ensures FoldTo(h, key, leaf, proof, depth) == FullNode(h, m[key := leaf], depth, Prefix(key, depth))
    decreases HEIGHT - depth
  {
    var m' := m[key := leaf];
    assert |proof| == HEIGHT by { hide Sibling; }
    if depth == HEIGHT {
      WholePrefix(key);
    } else {
      hide Prefix, Bit, Sibling, FullNode, ToFr, Proves;
      FoldIsUpdate(h, m, key, leaf, proof, depth + 1);
      ProvesAt(h, m, key, proof, depth);
      SiblingUntouched(h, m, key, leaf, depth);
      NodeOnPath(h, m', key, depth);
    }
  }

  // ------------------------------------------------------------ values and leaves

  /** `hash_bytes` of a 32-byte string: a 31-byte limb and a 1-byte limb. */
  function HashWord(h: Hash, w: Bytes32): Fr {
    h(h(0, ToFr(w / 256)), ToFr(w % 256))
  }

  function LeafHash(h: Hash, key: Bytes32, value: Bytes32): Fr {
    h(HashWord(h, key), HashWord(h, value))
  }

  type Values = map<Bytes32, Bytes32>

  function LeavesOf(h: Hash, vs: Values): Leaves {
    map k | k in vs :: LeafHash(h, k, vs[k])
  }

  function TreeRoot(h: Hash, vs: Values): Bytes32 {
    FrOfWord(RootOf(h, LeavesOf(h, vs)));
    RootOf(h, LeavesOf(h, vs))
  }

  predicate VerifyInclusion(h: Hash, root: Bytes32, key: Bytes32, value: Bytes32, proof: Proof) {
    |proof| == HEIGHT && FoldTo(h, key, LeafHash(h, key, value), proof, 0) == root
  }

  predicate VerifyExclusion(h: Hash, root: Bytes32, key: Bytes32, proof: Proof) {
    |proof| == HEIGHT && FoldTo(h, key, 0, proof, 0) == root
  }

  function RootAfterUpdate(h: Hash, key: Bytes32, value: Bytes32, proof: Proof): Bytes32
    requires |proof| == HEIGHT
  {
    FrOfWord(FoldTo(h, key, LeafHash(h, key, value), proof, 0));
    FoldTo(h, key, LeafHash(h, key, value), proof, 0)
  }

  lemma LeavesUpdate(h: Hash, vs: Values, key: Bytes32, value: Bytes32)
    ensures LeavesOf(h, vs[key := value]) == LeavesOf(h, vs)[key := LeafHash(h, key, value)]
  {
    hide LeafHash;
  }

  lemma RootAgain(h: Hash, m: Leaves, m': Leaves)
    requires forall k: Bytes32 :: LeafAt(m, k) == LeafAt(m', k)
    ensures RootOf(h, m) == RootOf(h, m')
  {
    hide LeafAt, Prefix;
    NodeFrame(h, m, m', 0, 0);
  }

  /** Completeness: a tree's own proof shows a stored value, or the absence of a key. */
  lemma OwnProofVerifies(h: Hash, vs: Values, key: Bytes32, proof: Proof)
    requires Proves(h, LeavesOf(h, vs), key, proof)
    ensures key in vs ==> VerifyInclusion(h, TreeRoot(h, vs), key, vs[key], proof)
    ensures key !in vs ==> VerifyExclusion(h, TreeRoot(h, vs), key, proof)
  {
    hide FoldTo, LeafHash, FullNode, Prefix, Proves;
    var m := LeavesOf(h, vs);
    var leaf := if key in vs then LeafHash(h, key, vs[key]) else 0;
    FoldIsUpdate(h, m, key, leaf, proof, 0);
    WholePrefix(key);
    if key in vs {
      assert m[key := leaf] == m;
    } else {
      RootAgain(h, m[key := 0], m);
    }
  }

  /** Update: the root computed from a tree's own proof is the root after the insert. */
  lemma UpdateIsInsert(h: Hash, vs: Values, key: Bytes32, value: Bytes32, proof: Proof)
    requires Proves(h, LeavesOf(h, vs), key, proof)
    ensures |proof| == HEIGHT
    ensures RootAfterUpdate(h, key, value, proof) == TreeRoot(h, vs[key := value])
  {
    hide FoldTo, LeafHash, FullNode, Prefix, Proves, LeavesOf;
    FoldIsUpdate(h, LeavesOf(h, vs), key, LeafHash(h, key, value), proof, 0);
    WholePrefix(key);
    LeavesUpdate(h, vs, key, value);
  }

  // ------------------------------------------------------------------- soundness

  predicate Collides(h: Hash, a: (Fr, Fr), b: (Fr, Fr)) {
    a != b && h(a.0, a.1) == h(b.0, b.1)
  }

  /** The fold and the tree hash different pairs to one node somewhere on the path. */
  ghost predicate PathCollision(h: Hash, m: Leaves, key: Bytes32, leaf: Fr, proof: Proof)
    requires |proof| == HEIGHT
  {
    exists d :: 0 <= d < HEIGHT && Collides(h, FoldPair(h, key, leaf, proof, d), TreePair(h, m, key, d))
  }

  lemma OrderedInjective(bit: nat, c: Fr, s: Fr, c': Fr, s': Fr)
    requires Ordered(bit, c, s) == Ordered(bit, c', s')
    ensures c == c' && s == s'
  {
  }

  /** A fold that reaches the tree's node carries the tree's leaf, or collides. */
  lemma {:induction false} FoldSound(h: Hash, m: Leaves, key: Bytes32, leaf: Fr, proof: Proof, depth: nat)
    requires depth <= HEIGHT == |proof|
    requires FoldTo(h, key, leaf, proof, depth) == FullNode(h, m, depth, Prefix(key, depth))
    ensures leaf == LeafAt(m, key) || PathCollision(h, m, key, leaf, proof)
    decreases HEIGHT - depth
  {
    if depth == HEIGHT {
      WholePrefix(key);
    } else {
      NodeOnPath(h, m, key, depth);
      var f, t := FoldPair(h, key, leaf, proof, depth), TreePair(h, m, key, depth);
      hide Prefix, Bit, FullNode, ToFr, Sibling, Ordered;
      if f == t {
        OrderedInjective(Bit(key, depth), FoldTo(h, key, leaf, proof, depth + 1), ToFr(proof[depth]),
                         FullNode(h, m, depth + 1, Prefix(key, depth + 1)), Sibling(h, m, key, depth));
        FoldSound(h, m, key, leaf, proof, depth + 1);
      } else {
        assert Collides(h, f, t);
      }
    }
  }

  lemma LimbsDetermine(v: Bytes32, w: Bytes32)
    requires ToFr(v / 256) == ToFr(w / 256) && ToFr(v % 256) == ToFr(w % 256)
    ensures v == w
  {
    FrOfWord(v / 256);
    FrOfWord(w / 256);
    FrOfWord(v % 256);
    FrOfWord(w % 256);
  }

  /** The inputs of the two hashes that make up `HashWord`. */
  function WordPair(h: Hash, w: Bytes32): (Fr, Fr) {
    (h(0, ToFr(w / 256)), ToFr(w % 256))
  }

  predicate WordCollision(h: Hash, v: Bytes32, w: Bytes32) {
    Collides(h, WordPair(h, v), WordPair(h, w)) || Collides(h, (0, ToFr(v / 256)), (0, ToFr(w / 256)))
  }

  lemma WordSound(h: Hash, v: Bytes32, w: Bytes32)
    requires HashWord(h, v) == HashWord(h, w)
    ensures v == w || WordCollision(h, v, w)
  {
    hide ToFr;
    if WordPair(h, v) == WordPair(h, w) && (0 as Fr, ToFr(v / 256)) == (0, ToFr(w / 256)) {
      LimbsDetermine(v, w);
    }
  }

  predicate LeafCollision(h: Hash, key: Bytes32, v: Bytes32, w: Bytes32) {
    || Collides(h, (HashWord(h, key), HashWord(h, v)), (HashWord(h, key), HashWord(h, w)))
    || WordCollision(h, v, w)
  }

  lemma LeafSound(h: Hash, key: Bytes32, v: Bytes32, w: Bytes32)
    requires LeafHash(h, key, v) == LeafHash(h, key, w)
    ensures v == w || LeafCollision(h, key, v, w)
  {
    hide HashWord, WordCollision;
    if HashWord(h, v) == HashWord(h, w) { WordSound(h, v, w); }
  }

  /** Soundness of inclusion, for any proof whatsoever: the tree stores the value at the
      key, or the accepted proof and the tree exhibit a collision on the path, a collision
      between the two values' leaves, or a leaf that hashes to zero. */
  lemma InclusionSound(h: Hash, vs: Values, key: Bytes32, value: Bytes32, proof: Proof)
    requires VerifyInclusion(h, TreeRoot(h, vs), key, value, proof)
    ensures
      || (key in vs && vs[key] == value)
      || PathCollision(h, LeavesOf(h, vs), key, LeafHash(h, key, value), proof)
      || (key in vs && LeafCollision(h, key, value, vs[key]))
      || (key !in vs && LeafHash(h, key, value) == 0)
  {
    hide FoldTo, LeafHash, FullNode, Prefix, PathCollision, LeafCollision;
    WholePrefix(key);
    FoldSound(h, LeavesOf(h, vs), key, LeafHash(h, key, value), proof, 0);
    if key in vs && LeafHash(h, key, value) == LeafHash(h, key, vs[key]) {
      LeafSound(h, key, value, vs[key]);
    }
  }

  /** Soundness of exclusion: the key is absent, or there is a collision on the path or a
      stored leaf that hashes to zero. */
  lemma ExclusionSound(h: Hash, vs: Values, key: Bytes32, proof: Proof)
    requires VerifyExclusion(h, TreeRoot(h, vs), key, proof)
    ensures
      || key !in vs
      || PathCollision(h, LeavesOf(h, vs), key, 0, proof)
      || (key in vs && LeafHash(h, key, vs[key]) == 0)
  {
    hide FoldTo, LeafHash, FullNode, Prefix, PathCollision;
    WholePrefix(key);
    FoldSound(h, LeavesOf(h, vs), key, 0, proof, 0);
  }
}
