/** The books over every run of the public transitions from genesis. */
module LedgerRuns {
  import opened Bytes
  import opened Smt
  import opened StateTypes
  import opened Claim
  import opened NodeModel
  import opened NodeInvariant
  import opened NodeRuns
  import opened Ledger

  /** The money balances over every run: nothing is assumed of the hashes. */
  lemma {:induction false} RunBalances(c: Crypto, family: Bytes32, oracleSetHash: Bytes32, epoch: u64, price: u64,
                                       ops: seq<NodeOp>)
    requires SwapsAllowed(c, Genesis(c, family, oracleSetHash, epoch, price), ops)
    ensures var start := Genesis(c, family, oracleSetHash, epoch, price);
      Balanced(NodeRun(c, start, ops).state, BooksRun(c, start, ops))
  {
    hide NodeStep, NodeInv, Genesis, SwapAllowed, BooksStep, Balanced;
    var start := Genesis(c, family, oracleSetHash, epoch, price);
    if |ops| == 0 {
      GenesisBooks(c, family, oracleSetHash, epoch, price);
    } else {
      var init := ops[..|ops| - 1];
      RunBalances(c, family, oracleSetHash, epoch, price, init);
      RunKeeps(c, family, oracleSetHash, epoch, price, init);
      StepBalances(c, NodeRun(c, start, init), BooksRun(c, start, init), ops[|ops| - 1]);
    }
  }

  lemma GenesisBooks(c: Crypto, family: Bytes32, oracleSetHash: Bytes32, epoch: u64, price: u64)
    ensures var start := Genesis(c, family, oracleSetHash, epoch, price);
      Balanced(start.state, OPENING) && Settled(c, start, OPENING)
  {
    hide TreeRoot;
  }

  /** The documented condition on swapping custody: no claim is pending. */
  ghost predicate SwapsDocumented(c: Crypto, s: NodeState, ops: seq<NodeOp>) {
    |ops| > 0 ==>
      var init := ops[..|ops| - 1];
      SwapsDocumented(c, s, init) && (ops[|ops| - 1].UseMultisig? ==> NoPending(NodeRun(c, s, init).claims))
  }

  lemma DocumentedAllowed(c: Crypto, s: NodeState, g: Books, op: NodeOp)
    requires Settled(c, s, g) && (op.UseMultisig? ==> NoPending(s.claims))
    ensures SwapAllowed(s, op)
  {
    hide Settled, NoPending;
    if op.UseMultisig? { NothingReserved(c, s, g); }
  }

  /** Over every run that swaps custody only as documented: the node is in step with its
      state root, the money balances, and the accounts of issuers, claims and locks are
      settled, or some step of the run exhibits a collision. */
  lemma {:induction false} RunSettles(c: Crypto, family: Bytes32, oracleSetHash: Bytes32, epoch: u64, price: u64,
                                      ops: seq<NodeOp>)
    requires SwapsDocumented(c, Genesis(c, family, oracleSetHash, epoch, price), ops)
    ensures var start := Genesis(c, family, oracleSetHash, epoch, price);
      var s, g := NodeRun(c, start, ops), BooksRun(c, start, ops);
      RunCollides(c, start, ops) || (NodeInv(c, s) && Balanced(s.state, g) && Settled(c, s, g))
  {
    hide NodeStep, NodeInv, Genesis, BooksStep, Balanced, Settled, StepCollides, NoPending, SwapAllowed;
    var start := Genesis(c, family, oracleSetHash, epoch, price);
    if |ops| == 0 {
      GenesisBooks(c, family, oracleSetHash, epoch, price);
      GenesisInv(c, family, oracleSetHash, epoch, price);
    } else {
      var init, op := ops[..|ops| - 1], ops[|ops| - 1];
      RunSettles(c, family, oracleSetHash, epoch, price, init);
      if !RunCollides(c, start, init) {
        var s, g := NodeRun(c, start, init), BooksRun(c, start, init);
        DocumentedAllowed(c, s, g, op);
        StepKeeps(c, s, op);
        StepBalances(c, s, g, op);
        StepSettles(c, s, g, op);
      }
    }
  }

  /** Locks, consumptions, refunds and nullifiers are never forgotten. */
  lemma {:induction false} RunGrows(c: Crypto, family: Bytes32, oracleSetHash: Bytes32, epoch: u64, price: u64,
                                    ops: seq<NodeOp>, k: nat)
    requires SwapsAllowed(c, Genesis(c, family, oracleSetHash, epoch, price), ops) && k <= |ops|
    ensures var start := Genesis(c, family, oracleSetHash, epoch, price);
      Grew(NodeRun(c, start, ops[..k]), NodeRun(c, start, ops))
    decreases |ops|
  {
    hide NodeStep, NodeInv, Genesis, SwapAllowed;
    var start := Genesis(c, family, oracleSetHash, epoch, price);
    if k == |ops| {
      assert ops[..k] == ops;
    } else {
      var init := ops[..|ops| - 1];
      assert init[..k] == ops[..k];
      RunGrows(c, family, oracleSetHash, epoch, price, init, k);
      RunKeeps(c, family, oracleSetHash, epoch, price, init);
      StepGrows(c, NodeRun(c, start, init), ops[|ops| - 1]);
    }
  }

  // ------------------------------------------------------- what settled books mean

  /** An issuer has a mint outstanding exactly when it has atoms pending. */
  lemma OutstandingIff(c: Crypto, s: NodeState, g: Books, id: Bytes32)
    requires Settled(c, s, g) && id in s.issuers
    ensures s.issuers[id].pendingMint == 0 <==> s.issuers[id].pendingCommitment.None?
  {
    SettledParts(c, s, g);
    hide Settled, ClaimsSettled, LocksSettled, LogAmount;
    assert IssuerSettled(c, s.issuers[id], g.requests);
  }

  /** No output is redeemed twice, in one batch or over the whole run, even through two
      different lock records: two redemptions differ in outpoint, script key or intent. */
  lemma NoDoubleRedemption(c: Crypto, s: NodeState, g: Books, i: nat, j: nat)
    requires Settled(c, s, g) && i < j < |g.log|
    ensures var a, b := g.log[i].lock, g.log[j].lock;
      a != b && (a.outpoint, a.scriptKey, a.intentHash) != (b.outpoint, b.scriptKey, b.intentHash)
  {
    SettledLog(c, s, g);
    hide Settled, LogOf;
    FreshNullifier(c, g.log, s.consumedTree.Keys, s.nullifierTree.Keys, i, j);
  }

  lemma FreshNullifier(c: Crypto, log: seq<Entry>, consumed: set<Bytes32>, nullified: set<Bytes32>, i: nat, j: nat)
    requires LogOf(c, log, consumed, nullified) && i < j < |log|
    ensures NullifierOf(c, log[i].lock) != NullifierOf(c, log[j].lock)
  {
    hide LogOf, NullifierOf;
    LogEntry(c, log, consumed, nullified, i);
    LogEntry(c, log, consumed, nullified, j);
    LogDistinct(c, log, consumed, nullified, i, j);
  }

  lemma SettledLog(c: Crypto, s: NodeState, g: Books)
    requires Settled(c, s, g)
    ensures LogOf(c, g.log, s.consumedTree.Keys, s.nullifierTree.Keys)
    ensures s.consumedTree.Keys <= s.lockTree.Keys && s.refundTree.Keys <= s.lockTree.Keys
      && s.consumedTree.Keys !! s.refundTree.Keys
  {
    hide LogOf, IssuersSettled, ClaimsSettled, LogAmount;
  }

  /** Every recorded lock is open, redeemed by exactly one entry of the log, or refunded. */
  lemma LockFate(c: Crypto, s: NodeState, g: Books, id: Bytes32)
    requires Settled(c, s, g)
    ensures id in s.consumedTree <==> exists i :: 0 <= i < |g.log| && g.log[i].lockHash == id
    ensures forall i, j :: 0 <= i < j < |g.log| ==> !(g.log[i].lockHash == id && g.log[j].lockHash == id)
    ensures id in s.consumedTree ==> id in s.lockTree && id !in s.refundTree
    ensures id in s.refundTree ==> id in s.lockTree && id !in s.consumedTree
  {
    SettledLog(c, s, g);
    hide Settled, NullifierOf, LogOf;
    var consumed, nullified := s.consumedTree.Keys, s.nullifierTree.Keys;
    if id in consumed {
      var i := LogCovers(c, g.log, consumed, nullified, id);
    }
    forall i | 0 <= i < |g.log|
      ensures g.log[i].lockHash in consumed
    {
      LogEntry(c, g.log, consumed, nullified, i);
    }
    forall i, j | 0 <= i < j < |g.log|
      ensures g.log[i].lockHash != g.log[j].lockHash
    {
      LogDistinct(c, g.log, consumed, nullified, i, j);
    }
  }
}
