/** Bitcoin Merkle branches: the operator's extraction of a branch from the transaction ids
    of a block, and the state machine's fold of a leaf up a branch. */
module MerkleBranch {
  import opened Options
  import opened Modular
  import opened Bytes

  /** The double SHA-256 of two concatenated 32-byte strings. */
  type PairHash = (Bytes32, Bytes32) -> Bytes32

  /** A layer with its last node doubled when its length is odd. */
  function Padded(layer: seq<Bytes32>): (r: seq<Bytes32>)
    ensures layer <= r && |r| % 2 == 0 && |r| == 2 * ((|layer| + 1) / 2)
  {
    if |layer| % 2 == 1 then layer + [layer[|layer| - 1]] else layer
  }

  /** The hashes of neighbouring pairs. */
  function Joins(h: PairHash, p: seq<Bytes32>): (r: seq<Bytes32>)
    requires |p| % 2 == 0
    ensures |r| == |p| / 2
  {
    seq<Bytes32>(|p| / 2, i requires 0 <= i < |p| / 2 => h(p[2 * i], p[2 * i + 1]))
  }

  function Parents(h: PairHash, layer: seq<Bytes32>): (r: seq<Bytes32>)
    ensures |r| == (|layer| + 1) / 2
  {
    Joins(h, Padded(layer))
  }

  function Root(h: PairHash, layer: seq<Bytes32>): Bytes32
    requires |layer| > 0
    decreases |layer|
  {
    if |layer| == 1 then layer[0] else Root(h, Parents(h, layer))
  }

  /** The other child of the same parent: `index ^ 1`. */
  function Partner(index: nat): nat {
    if index % 2 == 0 then index + 1 else index - 1
  }

  /** The branch for an index; `None` where the source's indexing panics. */
  function BranchOf(h: PairHash, layer: seq<Bytes32>, index: nat): Option<seq<Bytes32>>
    decreases |layer|
  {
    if |layer| <= 1 then Some([])
    else if Partner(index) >= |Padded(layer)| then None
    else After([Padded(layer)[Partner(index)]], BranchOf(h, Parents(h, layer), index / 2))
  }

  function After(branch: seq<Bytes32>, rest: Option<seq<Bytes32>>): Option<seq<Bytes32>> {
    if rest.Some? then Some(branch + rest.value) else None
  }

  lemma BranchStep(h: PairHash, branch: seq<Bytes32>, layer: seq<Bytes32>, index: nat)
    ensures |layer| <= 1 ==> After(branch, BranchOf(h, layer, index)) == Some(branch)
    ensures |layer| > 1 && Partner(index) >= |Padded(layer)| ==> After(branch, BranchOf(h, layer, index)) == None
    ensures |layer| > 1 && Partner(index) < |Padded(layer)| ==>
      After(branch, BranchOf(h, layer, index)) ==
        After(branch + [Padded(layer)[Partner(index)]], BranchOf(h, Parents(h, layer), index / 2))
  {
    assert branch + [] == branch;
    if |layer| > 1 && Partner(index) < |Padded(layer)| {
      var rest := BranchOf(h, Parents(h, layer), index / 2);
      if rest.Some? {
        assert branch + ([Padded(layer)[Partner(index)]] + rest.value) ==
          branch + [Padded(layer)[Partner(index)]] + rest.value;
      }
    }
    hide Parents, Partner;
  }

  method NextLayer(h: PairHash, layer: seq<Bytes32>) returns (next: seq<Bytes32>)
    requires |layer| % 2 == 0
    ensures next == Joins(h, layer)
  {
    next := [];
    for i := 0 to |layer| / 2
      invariant |next| == i && forall k :: 0 <= k < i ==> next[k] == h(layer[2 * k], layer[2 * k + 1])
    {
      next := next + [h(layer[2 * i], layer[2 * i + 1])];
    }
  }

  /** Rewrites layer, index and branch until one node is left. */
  method Branch(h: PairHash, txids: seq<Bytes32>, position: nat) returns (r: Option<seq<Bytes32>>)
    ensures r == BranchOf(h, txids, position)
  {
    hide BranchOf, Partner, After;
    var layer, index, branch := txids, position, [];
    BranchStart(h, txids, position);
    while |layer| > 1
      invariant BranchOf(h, txids, position) == After(branch, BranchOf(h, layer, index))
      decreases |layer|
    {
      BranchStep(h, branch, layer, index);
      ghost var before := layer;
      if |layer| % 2 == 1 { layer := layer + [layer[|layer| - 1]]; }
      if Partner(index) >= |layer| { return None; }
      branch := branch + [layer[Partner(index)]];
      layer := NextLayer(h, layer);
      assert layer == Parents(h, before);
      index := index / 2;
    }
    BranchStep(h, branch, layer, index);
    r := Some(branch);
  }

  lemma BranchStart(h: PairHash, layer: seq<Bytes32>, index: nat)
    ensures BranchOf(h, layer, index) == After([], BranchOf(h, layer, index))
  {
    hide BranchOf;
    var b := BranchOf(h, layer, index);
    if b.Some? { assert [] + b.value == b.value; }
  }

  /** One step of the fold, with the direction taken from the index's low bit. */
  function Paired(node: Bytes32, index: nat, sibling: Bytes32): (Bytes32, Bytes32) {
    if index % 2 == 0 then (node, sibling) else (sibling, node)
  }

  function Join(h: PairHash, pair: (Bytes32, Bytes32)): Bytes32 {
    h(pair.0, pair.1)
  }

  function FoldUp(h: PairHash, leaf: Bytes32, index: nat, branch: seq<Bytes32>): Bytes32
    decreases |branch|
  {
    if |branch| == 0 then leaf else FoldUp(h, Join(h, Paired(leaf, index, branch[0])), index / 2, branch[1..])
  }

  method RootFromProof(h: PairHash, leaf: Bytes32, position: u32, branch: seq<Bytes32>) returns (node: Bytes32)
    ensures node == FoldUp(h, leaf, position, branch)
  {
    var index: nat := position;
    node := leaf;
    for i := 0 to |branch|
      invariant FoldUp(h, node, index, branch[i..]) == FoldUp(h, leaf, position, branch)
    {
      assert branch[i..][1..] == branch[i + 1..];
      node := if index % 2 == 0 then h(node, branch[i]) else h(branch[i], node);
      index := index / 2;
    }
  }

  // ------------------------------------------------------------------ properties

  lemma ParentAt(h: PairHash, layer: seq<Bytes32>, index: nat)
    requires index < |Padded(layer)|
    ensures Partner(index) < |Padded(layer)| && index / 2 < |Parents(h, layer)|
    ensures Parents(h, layer)[index / 2] == Join(h, Paired(Padded(layer)[index], index, Padded(layer)[Partner(index)]))
  {
  }

  /** The extraction panics exactly for an index outside the (padded) first layer. */
  lemma {:induction false} BranchExistsIff(h: PairHash, layer: seq<Bytes32>, index: nat)
    ensures BranchOf(h, layer, index).Some? <==> |layer| <= 1 || index < |layer| + |layer| % 2
    decreases |layer|
  {
    if |layer| > 1 {
      PartnerInside(h, layer, index);
      hide Parents, Padded, Partner;
      BranchExistsIff(h, Parents(h, layer), index / 2);
    }
  }

  lemma PartnerInside(h: PairHash, layer: seq<Bytes32>, index: nat)
    ensures index < |Padded(layer)| <==> Partner(index) < |Padded(layer)|
    ensures index < |Padded(layer)| ==> index / 2 < |Parents(h, layer)| <= |Padded(Parents(h, layer))|
    ensures |layer| > 1 ==> |Parents(h, layer)| < |layer|
  {
  }

  /** Folding the leaf at the index up the extracted branch gives the root. */
  lemma {:induction false} BranchFolds(h: PairHash, layer: seq<Bytes32>, index: nat)
    requires index < |layer|
    ensures BranchOf(h, layer, index).Some?
    ensures FoldUp(h, layer[index], index, BranchOf(h, layer, index).value) == Root(h, layer)
    decreases |layer|
  {
    if |layer| > 1 {
      ParentAt(h, layer, index);
      hide Parents, Paired, Partner, Join;
      BranchFolds(h, Parents(h, layer), index / 2);
      assert BranchOf(h, layer, index).value[1..] == BranchOf(h, Parents(h, layer), index / 2).value;
    }
  }

  /** The branch has as many entries as the tree has layers above the leaves: the least `d`
      with at least as many leaves in a full tree of height `d`. */
  lemma {:induction false} BranchHeight(h: PairHash, layer: seq<Bytes32>, index: nat)
    requires index < |layer|
    ensures BranchOf(h, layer, index).Some?
    ensures var d := |BranchOf(h, layer, index).value|; |layer| <= Pow2(d) && (d > 0 ==> Pow2(d - 1) < |layer|)
    decreases |layer|
  {
    if |layer| > 1 {
      hide Parents;
      ParentIndex(h, layer, index);
      BranchHeight(h, Parents(h, layer), index / 2);
    }
  }

  lemma ParentIndex(h: PairHash, layer: seq<Bytes32>, index: nat)
    requires index < |layer|
    ensures index / 2 < |Parents(h, layer)| == (|layer| + 1) / 2 && Partner(index) < |Padded(layer)|
  {
  }

  predicate Collides(h: PairHash, a: (Bytes32, Bytes32), b: (Bytes32, Bytes32)) {
    a != b && Join(h, a) == Join(h, b)
  }

  /** On the way up, the fold and the tree hash different pairs to one node. */
  predicate PathCollides(h: PairHash, leaf: Bytes32, index: nat, branch: seq<Bytes32>, layer: seq<Bytes32>)
    requires index < |layer|
    decreases |layer|
  {
    if |layer| == 1 || |branch| == 0 then false else
    ParentIndex(h, layer, index);
    var fold, tree := Paired(leaf, index, branch[0]), Paired(layer[index], index, Padded(layer)[Partner(index)]);
    Collides(h, fold, tree) || PathCollides(h, Join(h, fold), index / 2, branch[1..], Parents(h, layer))
  }

  /** Soundness of the fold, for any branch of the tree's height: it starts from the
      transaction id at that index, or there is a collision on the path. */
  lemma {:induction false} FoldBinds(h: PairHash, leaf: Bytes32, index: nat, branch: seq<Bytes32>, layer: seq<Bytes32>)
    requires index < |layer| && BranchOf(h, layer, index).Some? && |branch| == |BranchOf(h, layer, index).value|
    requires FoldUp(h, leaf, index, branch) == Root(h, layer)
    ensures leaf == layer[index] || PathCollides(h, leaf, index, branch, layer)
    decreases |layer|
  {
    if |layer| > 1 {
      ParentIndex(h, layer, index);
      ParentAt(h, layer, index);
      hide Parents, Partner, Join;
      FoldBinds(h, Join(h, Paired(leaf, index, branch[0])), index / 2, branch[1..], Parents(h, layer));
    }
  }

  // ------------------------------------------------------------- Bitcoin's tree

  /** A single id is its own root and needs no branch. */
  lemma SingleLeaf(h: PairHash, x: Bytes32, index: nat)
    ensures Root(h, [x]) == x && BranchOf(h, [x], index) == Some([])
  {
  }

  /** A layer of even length: neighbours pair up in order, a position's sibling is its
      neighbour, and both continue with the layer of the pairs' hashes. */
  lemma EvenLayer(h: PairHash, layer: seq<Bytes32>, next: seq<Bytes32>, i: nat)
    requires 0 < |layer| == 2 * |next| && i < |next|
    requires forall j :: 0 <= j < |next| ==> next[j] == h(layer[2 * j], layer[2 * j + 1])
    ensures Root(h, layer) == Root(h, next)
    ensures var rest := BranchOf(h, next, i);
      && BranchOf(h, layer, 2 * i) == (if rest.None? then None else Some([layer[2 * i + 1]] + rest.value))
      && BranchOf(h, layer, 2 * i + 1) == (if rest.None? then None else Some([layer[2 * i]] + rest.value))
  {
    hide *;
    PairsOf(h, layer, next);
    Neighbours(i);
    RootUnfold(h, layer);
    BranchUnfold(h, layer, 2 * i);
    BranchUnfold(h, layer, 2 * i + 1);
    AfterIs(layer[2 * i + 1], BranchOf(h, next, i));
    AfterIs(layer[2 * i], BranchOf(h, next, i));
  }

  lemma PairsOf(h: PairHash, layer: seq<Bytes32>, next: seq<Bytes32>)
    requires |layer| == 2 * |next|
    requires forall j :: 0 <= j < |next| ==> next[j] == h(layer[2 * j], layer[2 * j + 1])
    ensures Padded(layer) == layer && Parents(h, layer) == next
  {
  }

  lemma Neighbours(i: nat)
    ensures Partner(2 * i) == 2 * i + 1 && Partner(2 * i + 1) == 2 * i
    ensures 2 * i / 2 == i && (2 * i + 1) / 2 == i
  {
  }

  lemma AfterIs(x: Bytes32, rest: Option<seq<Bytes32>>)
    ensures After([x], rest) == if rest.None? then None else Some([x] + rest.value)
  {
  }

  lemma RootUnfold(h: PairHash, layer: seq<Bytes32>)
    requires |layer| > 1
    ensures Root(h, layer) == Root(h, Parents(h, layer))
  {
    hide Parents;
  }

  lemma BranchUnfold(h: PairHash, layer: seq<Bytes32>, index: nat)
    requires |layer| > 1
    ensures BranchOf(h, layer, index) ==
      if Partner(index) >= |Padded(layer)| then None
      else After([Padded(layer)[Partner(index)]], BranchOf(h, Parents(h, layer), index / 2))
  {
    hide Parents, Partner, Padded, After;
  }

  /** A layer of odd length is its own completion with a second copy of its last id, which
      is also the sibling of that id. */
  lemma OddLayer(h: PairHash, layer: seq<Bytes32>, index: nat)
    requires |layer| % 2 == 1 && |layer| > 1
    ensures Root(h, layer) == Root(h, layer + [layer[|layer| - 1]])
    ensures BranchOf(h, layer, index) == BranchOf(h, layer + [layer[|layer| - 1]], index)
    ensures BranchOf(h, layer, |layer| - 1).Some? && |BranchOf(h, layer, |layer| - 1).value| > 0
    ensures BranchOf(h, layer, |layer| - 1).value[0] == layer[|layer| - 1]
  {
    assert Parents(h, layer) == Parents(h, layer + [layer[|layer| - 1]]);
    BranchExistsIff(h, layer, |layer| - 1);
    hide Parents;
  }
}
