/** The in-memory sparse Merkle tree, which never builds the full tree. */
module SparseTree {
  import opened Modular
  import opened Bytes
  import opened Smt

  type Entry = (Bytes32, Fr)

  // ------------------------------------------------------- the entries, in key order

  lemma MinExists(s: set<Bytes32>) returns (k: Bytes32)
    requires s != {}
    ensures k in s && forall j :: j in s ==> k <= j
    decreases s
  {
    k :| k in s;
    var rest := s - {k};
    if rest != {} {
      var k' := MinExists(rest);
      assert s == rest + {k};
      if k' < k { k := k'; }
    } else {
      assert s == {k};
    }
  }

  function SortedKeys(s: set<Bytes32>): (r: seq<Bytes32>)
    ensures forall k :: k in r <==> k in s
  {
    if s == {} then [] else
    assert exists k :: k in s && forall j :: j in s ==> k <= j by { var k := MinExists(s); }
    var k :| k in s && forall j :: j in s ==> k <= j;
    [k] + SortedKeys(s - {k})
  }

  function EntriesOf(m: Leaves, keys: seq<Bytes32>): (r: seq<Entry>)
    requires forall k :: k in keys ==> k in m
    ensures |r| == |keys| && forall i :: 0 <= i < |r| ==> r[i] == (keys[i], m[keys[i]])
  {
    seq<Entry>(|keys|, i requires 0 <= i < |keys| => (keys[i], m[keys[i]]))
  }

  /** All entries of the map, as its iterator yields them. */
  function Entries(m: Leaves): seq<Entry> {
    EntriesOf(m, SortedKeys(m.Keys))
  }

  /** The entries are exactly the leaves below a node. */
  ghost predicate Lists(es: seq<Entry>, m: Leaves, depth: nat, prefix: nat)
    requires depth <= HEIGHT
  {
    && (forall e :: e in es ==> e.0 in m && m[e.0] == e.1 && Prefix(e.0, depth) == prefix)
    && (forall k :: k in m && Prefix(k, depth) == prefix ==> (k, m[k]) in es)
  }

  lemma EntriesListAll(m: Leaves)
    ensures Lists(Entries(m), m, 0, 0)
  {
    var es := Entries(m);
    var keys := SortedKeys(m.Keys);
    hide Prefix, SortedKeys;
    forall e | e in es
      ensures e.0 in m && m[e.0] == e.1 && Prefix(e.0, 0) == 0
    {
      WholePrefix(e.0);
      var i :| 0 <= i < |es| && es[i] == e;
      assert keys[i] in m.Keys;
    }
    forall k | k in m
      ensures (k, m[k]) in es
    {
      assert k in keys;
      var i :| 0 <= i < |keys| && keys[i] == k;
      assert es[i] == (k, m[k]);
    }
  }

  /** The entries with a given bit, in order. */
  function Side(es: seq<Entry>, depth: nat, bit: nat): seq<Entry>
    requires depth < HEIGHT
  {
    if |es| == 0 then [] else
    var before := Side(es[..|es| - 1], depth, bit);
    if Bit(es[|es| - 1].0, depth) == bit then before + [es[|es| - 1]] else before
  }

  lemma {:induction false} SideMember(es: seq<Entry>, depth: nat, bit: nat, e: Entry)
    requires depth < HEIGHT
    ensures e in Side(es, depth, bit) <==> e in es && Bit(e.0, depth) == bit
  {
    hide Bit;
    if |es| > 0 {
      SideMember(es[..|es| - 1], depth, bit, e);
      assert es == es[..|es| - 1] + [es[|es| - 1]];
    }
  }

  method Partition(es: seq<Entry>, depth: nat) returns (left: seq<Entry>, right: seq<Entry>)
    requires depth < HEIGHT
    ensures left == Side(es, depth, 0) && right == Side(es, depth, 1)
  {
    left, right := [], [];
    for i := 0 to |es|
      invariant left == Side(es[..i], depth, 0) && right == Side(es[..i], depth, 1)
    {
      assert es[..i + 1][..i] == es[..i];
      PrefixStep(es[i].0, depth);
      if Bit(es[i].0, depth) == 0 {
        left := left + [es[i]];
      } else {
        right := right + [es[i]];
      }
    }
    assert es[..|es|] == es;
  }

  /** Partitioning splits the leaves below a node between its two children. */
  lemma SideLists(es: seq<Entry>, m: Leaves, depth: nat, prefix: nat, bit: nat)
    requires depth < HEIGHT && bit < 2 && Lists(es, m, depth, prefix)
    ensures Lists(Side(es, depth, bit), m, depth + 1, 2 * prefix + bit)
  {
    hide Prefix, Bit, Side;
    var s := Side(es, depth, bit);
    forall e | e in s
      ensures e.0 in m && m[e.0] == e.1 && Prefix(e.0, depth + 1) == 2 * prefix + bit
    {
      SideMember(es, depth, bit, e);
      PrefixStep(e.0, depth);
    }
    forall k | k in m && Prefix(k, depth + 1) == 2 * prefix + bit
      ensures (k, m[k]) in s
    {
      PrefixStep(k, depth);
      SideMember(es, depth, bit, (k, m[k]));
    }
  }

  lemma NoEntries(h: Hash, m: Leaves, depth: nat, prefix: nat)
    requires depth <= HEIGHT && Lists([], m, depth, prefix)
    ensures FullNode(h, m, depth, prefix) == Empty(h, HEIGHT - depth)
  {
    hide FullNode, Empty, Prefix;
    assert forall k :: k in m && Prefix(k, depth) == prefix ==> (k, m[k]) in [];
    EmptyNode(h, m, depth, prefix);
  }

  lemma OneEntry(h: Hash, es: seq<Entry>, m: Leaves, prefix: nat)
    requires |es| > 0 && Lists(es, m, HEIGHT, prefix)
    ensures FullNode(h, m, HEIGHT, prefix) == es[0].1
  {
    assert es[0] in es;
    WholePrefix(es[0].0);
  }

  // --------------------------------------------------------------------- the tree

  class SparseMerkleTree {
    const h: Hash
    var leaves: Leaves
    var empty: seq<Fr>
    ghost var values: Values

    /** The stored leaf hashes are those of the values that were inserted. */
    ghost predicate Valid()
      reads this
    {
      && leaves == LeavesOf(h, values)
      && |empty| == HEIGHT + 1 && forall i :: 0 <= i <= HEIGHT ==> empty[i] == Empty(h, i)
    }

    constructor (h: Hash)
      ensures this.h == h && values == map[] && Valid()
    {
      this.h := h;
      leaves := map[];
      values := map[];
      var e: seq<Fr> := [0];
      for i := 1 to HEIGHT + 1
        invariant |e| == i && forall j :: 0 <= j < i ==> e[j] == Empty(h, j)
      {
        e := e + [h(e[i - 1], e[i - 1])];
      }
      empty := e;
    }

    predicate Contains(key: Bytes32)
      reads this
      requires Valid()
      ensures Contains(key) <==> key in values
    {
      key in leaves
    }

    /** Inserts or overwrites; says whether the key was occupied. */
    method Insert(key: Bytes32, value: Bytes32) returns (was: bool)
      requires Valid()
      modifies this
      ensures Valid() && empty == old(empty)
      ensures values == old(values)[key := value] && was == (key in old(values))
    {
      was := key in leaves;
      LeavesUpdate(h, values, key, value);
      leaves := leaves[key := LeafHash(h, key, value)];
      values := values[key := value];
    }

    method Root() returns (r: Bytes32)
      requires Valid()
      ensures r == TreeRoot(h, values)
    {
      hide Lists, Entries, LeavesOf, FullNode, Prefix;
      EntriesListAll(leaves);
      r := Subtree(0, Entries(leaves), 0);
    }

    /** The node over the listed entries, without visiting empty subtrees. */
    method Subtree(depth: nat, es: seq<Entry>, ghost prefix: nat) returns (r: Fr)
      requires Valid() && depth <= HEIGHT && Lists(es, leaves, depth, prefix)
      ensures r == FullNode(h, leaves, depth, prefix)
      decreases HEIGHT - depth
    {
      hide Lists, Side, LeavesOf;
      if |es| == 0 {
        NoEntries(h, leaves, depth, prefix);
        return empty[HEIGHT - depth];
      }
      if depth == HEIGHT {
        OneEntry(h, es, leaves, prefix);
        return es[0].1;
      }
      var left, right := Partition(es, depth);
      SideLists(es, leaves, depth, prefix, 0);
      SideLists(es, leaves, depth, prefix, 1);
      var l := Subtree(depth + 1, left, 2 * prefix);
      var r' := Subtree(depth + 1, right, 2 * prefix + 1);
      r := h(l, r');
    }

    /** The siblings of the path, by depth. */
    method Prove(key: Bytes32) returns (r: Proof)
      requires Valid()
      ensures Proves(h, LeavesOf(h, values), key, r)
    {
      EntriesListAll(leaves);
      WholePrefix(key);
      var siblings := new Bytes32[HEIGHT](_ => 0);
      CollectSiblings(0, key, Entries(leaves), siblings);
      r := siblings[..];
    }

    method CollectSiblings(depth: nat, key: Bytes32, es: seq<Entry>, out: array<Bytes32>)
      requires Valid() && depth <= HEIGHT == out.Length && Lists(es, leaves, depth, Prefix(key, depth))
      modifies out
      ensures forall d :: 0 <= d < depth ==> out[d] == old(out[d])
      ensures forall d :: depth <= d < HEIGHT ==> out[d] == Sibling(h, leaves, key, d)
      decreases HEIGHT - depth
    {
      hide Lists, Side, FullNode, LeavesOf, Prefix, Bit;
      if depth == HEIGHT { return; }
      var left, right := Partition(es, depth);
      SideLists(es, leaves, depth, Prefix(key, depth), 0);
      SideLists(es, leaves, depth, Prefix(key, depth), 1);
      PrefixStep(key, depth);
      var node;
      if Bit(key, depth) == 0 {
        node := Subtree(depth + 1, right, 2 * Prefix(key, depth) + 1);
      } else {
        node := Subtree(depth + 1, left, 2 * Prefix(key, depth));
      }
      FrOfWord(node);
      out[depth] := node;
      assert out[depth] == Sibling(h, leaves, key, depth);
      CollectSiblings(depth + 1, key, if Bit(key, depth) == 0 then left else right, out);
    }
  }

  /** Insert, prove, verify: what a caller of the tree sees. */
  method ProveInserted(t: SparseMerkleTree, key: Bytes32, value: Bytes32)
      returns (before: Proof, root: Bytes32, after: Proof)
    requires t.Valid()
    modifies t
    ensures t.Valid() && t.values == old(t.values)[key := value]
    ensures |before| == HEIGHT && root == TreeRoot(t.h, t.values) == RootAfterUpdate(t.h, key, value, before)
    ensures VerifyInclusion(t.h, root, key, value, after)
  {
    hide LeavesOf, FullNode, FoldTo, LeafHash, Prefix, Proves;
    before := t.Prove(key);
    UpdateIsInsert(t.h, t.values, key, value, before);
    var _ := t.Insert(key, value);
    root := t.Root();
    after := t.Prove(key);
    OwnProofVerifies(t.h, t.values, key, after);
  }

  // ---------------------------------------------------------------- bytes and limbs

  /** The limbs of `hash_bytes`: 31 bytes each, the last one shorter. */
  function HashLimbs(h: Hash, acc: Fr, input: bytes): Fr
    decreases |input|
  {
    if |input| == 0 then acc
    else if |input| <= 31 then h(acc, ToFr(BE(input)))
    else HashLimbs(h, h(acc, ToFr(BE(input[..31]))), input[31..])
  }

  method HashBytes(h: Hash, input: bytes) returns (r: Fr)
    ensures r == HashLimbs(h, 0, input)
  {
    hide BE, ToFr;
    r := 0;
    var i := 0;
    while i < |input|
      invariant i <= |input|
      invariant HashLimbs(h, r, input[i..]) == HashLimbs(h, 0, input)
    {
      var end := if i + 31 <= |input| then i + 31 else |input|;
      LimbStep(h, r, input, i, end);
      r := h(r, ToFr(BE(input[i..end])));
      i := end;
    }
  }

  lemma LimbStep(h: Hash, acc: Fr, input: bytes, i: nat, end: nat)
    requires i < |input| && end == if i + 31 <= |input| then i + 31 else |input|
    ensures HashLimbs(h, acc, input[i..]) == HashLimbs(h, h(acc, ToFr(BE(input[i..end]))), input[end..])
  {
    hide BE, ToFr;
    var rest := input[i..];
    if |rest| <= 31 {
      assert rest == input[i..end];
    } else {
      assert rest[..31] == input[i..end] && rest[31..] == input[end..];
    }
  }

  /** On the 32 bytes of a key or value the limbs are all but the last byte and the last
      byte: what `HashWord` hashes. */
  lemma HashOfWord(h: Hash, bs: bytes)
    requires |bs| == 32
    ensures BE(bs) < TWO256 && HashLimbs(h, 0, bs) == HashWord(h, BE(bs))
  {
    WordBound(bs);
    var head, last := bs[..31], bs[31..];
    assert bs[..|bs| - 1] == head;
    SingleByte(last);
    assert BE(bs) == 256 * BE(head) + bs[31];
    hide BE, ToFr;
    LastLimb(h, h(0, ToFr(BE(head))), last);
    assert HashLimbs(h, 0, bs) == HashLimbs(h, h(0, ToFr(BE(head))), last);
  }

  /** An occupied leaf hashes the limbs of the key together with those of the value. */
  lemma LeafOfBytes(h: Hash, key: bytes, value: bytes)
    requires |key| == |value| == 32
    ensures BE(key) < TWO256 && BE(value) < TWO256
    ensures LeafHash(h, BE(key), BE(value)) == h(HashLimbs(h, 0, key), HashLimbs(h, 0, value))
    ensures LeavesOf(h, map[BE(key) := BE(value)]) == map[BE(key) := h(HashLimbs(h, 0, key), HashLimbs(h, 0, value))]
  {
    HashOfWord(h, key);
    HashOfWord(h, value);
    hide HashLimbs, HashWord, BE;
  }

  lemma LastLimb(h: Hash, acc: Fr, b: bytes)
    requires |b| == 1
    ensures HashLimbs(h, acc, b) == h(acc, ToFr(BE(b)))
  {
    hide BE, ToFr;
  }

  lemma SingleByte(b: bytes)
    requires |b| == 1
    ensures BE(b) == b[0]
  {
    assert BE(b[..0]) == 0;
  }

  /** The path bit, as the code takes it from the bytes of the key. */
  lemma BitOfBytes(bs: bytes, depth: nat)
    requires |bs| == 32 && depth < HEIGHT
    ensures BE(bs) < TWO256
    ensures Bit(BE(bs), depth) == (bs[depth / 8] / Pow2(7 - depth % 8)) % 2
  {
    WordBound(bs);
    var i, s := depth / 8, Pow2(7 - depth % 8);
    var low := Pow256(31 - i);
    ByteAt(bs, i);
    assert HEIGHT - (depth + 1) == 8 * (31 - i) + (7 - depth % 8);
    Pow2OfBytes(31 - i);
    Pow2Add(8 * (31 - i), 7 - depth % 8);
    assert Prefix(BE(bs), depth + 1) == Smt.Quotient(BE(bs), low * s);
    BitInside(BE(bs), low, s, bs[i], BE(bs[..i]), depth % 8);
  }

  lemma {:induction false} Pow2OfBytes(k: nat)
    ensures Pow2(8 * k) == Pow256(k)
  {
    if k > 0 {
      Pow2OfBytes(k - 1);
      assert Pow2(8) == 256;
      hide Pow2;
      Pow2Add(8, 8 * (k - 1));
    }
  }

  /** The byte at `i`, from the value. */
  lemma ByteAt(bs: bytes, i: nat)
    requires i < |bs|
    ensures BE(bs) / Pow256(|bs| - 1 - i) == 256 * BE(bs[..i]) + bs[i]
  {
    var high, low := bs[..i + 1], bs[i + 1..];
    assert bs == high + low;
    BEConcat(high, low);
    BEBound(low);
    assert high[..i] == bs[..i];
    DivUnique(BE(bs), Pow256(|low|), BE(high), BE(low));
  }

  lemma BitInside(v: nat, low: pos, s: pos, b: Byte, high: nat, j: nat)
    requires v / low == 256 * high + b && j < 8 && s == Pow2(7 - j)
    ensures (v / (low * s)) % 2 == (b / s) % 2
  {
    DivDiv(v, low, s);
    Pow2Add(7 - j, j);
    Pow2Add(1, j);
    var t := Pow2(j);
    assert s * t == 128 by { assert Pow2(7) == 128; }
    SplitByte(high, b, s, t);
  }

  lemma SplitByte(high: nat, b: nat, s: pos, t: pos)
    requires s * t == 128
    ensures ((256 * high + b) / s) % 2 == (b / s) % 2
  {
    var q, r, k := b / s, b % s, t * high;
    assert b == q * s + r;
    ByteMultiple(high, s, t);
    Collect(k, q, r, s);
    DivUnique(256 * high + b, s, 2 * k + q, r);
    EvenPart(k, q);
  }

  lemma Collect(k: int, q: int, r: int, s: int)
    ensures (2 * k + q) * s + r == 2 * k * s + (q * s + r)
  {
  }

  lemma EvenPart(k: int, q: int)
    ensures (2 * k + q) % 2 == q % 2
  {
  }

  lemma ByteMultiple(high: nat, s: pos, t: pos)
    requires s * t == 128
    ensures 256 * high == 2 * (t * high) * s
  {
    assert (t * high) * s == (s * t) * high;
  }
}
