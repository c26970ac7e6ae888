/** What each successful transition does to the node. */
module NodeEffects {
  import opened Options
  import opened Modular
  import opened Bytes
  import opened Smt
  import opened StateTypes
  import opened Aggregate
  import opened Transitions
  import opened Claim
  import opened Reserve
  import opened NodeModel
  import opened NodeInvariant
  import opened NodeClaim

  predicate SameLocks(s: NodeState, s': NodeState) {
    s'.lockTree == s.lockTree && s'.consumedTree == s.consumedTree && s'.refundTree == s.refundTree
      && s'.nullifierTree == s.nullifierTree
  }

  predicate SameClaims(s: NodeState, s': NodeState) {
    s'.claims == s.claims && s'.pendingTree == s.pendingTree && s'.state.reservedPending == s.state.reservedPending
  }

  predicate SameMoney(s: NodeState, s': NodeState) {
    s'.state.reserve == s.state.reserve && s'.state.supply == s.state.supply
  }

  lemma RegisterEffect(c: Crypto, s: NodeState, p: IssuerPosition)
    requires NodeInv(c, s) && DoIssuerRegister(c, s, p).1.Ok?
    ensures var s' := DoIssuerRegister(c, s, p).0;
      && SameLocks(s, s') && SameClaims(s, s') && SameMoney(s, s') && s'.issuers == s.issuers[p.issuerId := p]
      && p.minted == p.pendingMint == p.reserveDeposits == 0 && p.pendingCommitment.None?
      && VerifyExclusion(c.poseidon2, TreeRoot(c.poseidon2, s.issuerTree), p.issuerId,
                         OwnProof(c.poseidon2, s.issuerTree, p.issuerId))
  {
    InvRoots(c, s);
    hide RegisterIssuer, NodeInv, TreeRoot, OwnProof, RootAfterUpdate, VerifyExclusion, Wrap64;
    RegisterIssuerMeans(c, s.state, p, OwnProof(c.poseidon2, s.issuerTree, p.issuerId));
  }

  lemma InvRoots(c: Crypto, s: NodeState)
    requires NodeInv(c, s)
    ensures RootsMatch(c, s, s.state)
  {
    hide RootsMatch, IssuersMatch, OperatorsMatch, ClaimsMatch, BooksMatch, SetsOnly, ReserveConsistent;
  }

  lemma OperatorEffect(c: Crypto, s: NodeState, p: OperatorPosition)
    requires DoOperatorRegister(c, s, p).1.Ok?
    ensures var s' := DoOperatorRegister(c, s, p).0;
      SameLocks(s, s') && SameClaims(s, s') && SameMoney(s, s') && s'.issuers == s.issuers
  {
    hide RegisterOperator, TreeRoot, OwnProof, RootAfterUpdate, VerifyExclusion, Wrap64;
    RegisterOperatorMeans(c, s.state, p, OwnProof(c.poseidon2, s.operatorTree, p.operatorId));
  }

  lemma MintCommitEffect(c: Crypto, s: NodeState, id: Bytes32, w: MintCommitWitness)
    requires NodeInv(c, s) && DoMintCommit(c, s, id, w).1.Ok?
    ensures var s' := DoMintCommit(c, s, id, w).0;
      && id in s.issuers && IssuerAfterCommit(c, s.issuers[id], w).Ok? && s.issuers[id].pendingCommitment.None?
      && w.request.atoms > 0
      && SameLocks(s, s') && SameClaims(s, s')
      && s'.issuers == s.issuers[id := IssuerAfterCommit(c, s.issuers[id], w).value]
      && s'.state.supply == s.state.supply && s'.state.reserve == s.state.reserve + w.depositSats
  {
    var p, proof := s.issuers[id], OwnProof(c.poseidon2, s.issuerTree, id);
    hide CommitMint, TreeRoot, OwnProof, RootAfterUpdate, IssuerAfterCommit, CreditCustody, ViewOf, NodeInv;
    CommitMintMeans(c, s.state, p, proof, w);
  }

  lemma MintFinalizeEffect(c: Crypto, s: NodeState, id: Bytes32, w: MintFinalizeWitness)
    requires NodeInv(c, s) && DoMintFinalize(c, s, id, w).1.Ok?
    ensures var s' := DoMintFinalize(c, s, id, w).0;
      && id in s.issuers && IssuerAfterFinalize(s.issuers[id], w.request.atoms).Ok?
      && s.issuers[id].pendingCommitment == Some(c.mintCommitment(w.request))
      && SameLocks(s, s') && SameClaims(s, s')
      && s'.issuers == s.issuers[id := IssuerAfterFinalize(s.issuers[id], w.request.atoms).value]
      && s'.state.supply == s.state.supply + w.request.atoms && s'.state.reserve == s.state.reserve
  {
    var p, proof := s.issuers[id], OwnProof(c.poseidon2, s.issuerTree, id);
    hide FinalizeMint, TreeRoot, OwnProof, RootAfterUpdate, IssuerAfterFinalize, NodeInv;
    FinalizeMintMeans(c, s.state, p, proof, w);
  }

  /** What the two steps of a mint do to the issuer's record. */
  lemma MintRecords(c: Crypto, p: IssuerPosition, w: MintCommitWitness, atoms: u64)
    ensures IssuerAfterCommit(c, p, w).Ok? ==>
      IssuerAfterCommit(c, p, w).value == p.(
        reserveDeposits := p.reserveDeposits + w.depositSats, pendingMint := p.pendingMint + w.request.atoms,
        lastDeposit := Some(w.request.depositTxid), pendingCommitment := Some(c.mintCommitment(w.request)))
    ensures IssuerAfterFinalize(p, atoms).Ok? ==>
      IssuerAfterFinalize(p, atoms).value ==
        p.(minted := p.minted + atoms, pendingMint := p.pendingMint - atoms, pendingCommitment := None)
  {
  }

  lemma LockEffect(c: Crypto, s: NodeState, w: LockWitness)
    requires DoRedeemLock(c, s, w).1.Ok?
    ensures var s' := DoRedeemLock(c, s, w).0;
      && SameClaims(s, s') && SameMoney(s, s') && s'.issuers == s.issuers
      && s'.lockTree == s.lockTree[c.lockHash(w.lock) := SET_MEMBER]
      && s'.consumedTree == s.consumedTree && s'.refundTree == s.refundTree && s'.nullifierTree == s.nullifierTree
  {
    hide ApplyLock, TreeRoot, OwnProof, RootAfterUpdate, Wrap64;
    ApplyLockMeans(c, s.state, w, OwnProof(c.poseidon2, s.lockTree, c.lockHash(w.lock)));
  }

  lemma RefundEffect(c: Crypto, s: NodeState, w: RefundWitness)
    requires NodeInv(c, s) && DoLockRefund(c, s, w).1.Ok?
    ensures var s' := DoLockRefund(c, s, w).0;
      var id := c.lockHash(w.lock);
      && SameClaims(s, s') && SameMoney(s, s') && s'.issuers == s.issuers
      && s'.refundTree == s.refundTree[id := SET_MEMBER]
      && s'.lockTree == s.lockTree && s'.consumedTree == s.consumedTree && s'.nullifierTree == s.nullifierTree
      && VerifyInclusion(c.poseidon2, TreeRoot(c.poseidon2, s.lockTree), id, SET_MEMBER,
                         OwnProof(c.poseidon2, s.lockTree, id))
      && VerifyExclusion(c.poseidon2, TreeRoot(c.poseidon2, s.consumedTree), id,
                         OwnProof(c.poseidon2, s.consumedTree, id))
  {
    InvRoots(c, s);
    var id := c.lockHash(w.lock);
    hide ApplyRefund, TreeRoot, OwnProof, RootAfterUpdate, VerifyInclusion, VerifyExclusion, NodeInv, Wrap64;
    ApplyRefundMeans(c, s.state, w, OwnProof(c.poseidon2, s.lockTree, id), OwnProof(c.poseidon2, s.consumedTree, id),
                     OwnProof(c.poseidon2, s.refundTree, id));
  }

  lemma ReclaimMeans(c: Crypto, prev: StateRoot, p: PendingClaim, proof: Proof, height: u32)
    requires |proof| == HEIGHT && ReclaimStale(c, prev, p, proof, height).Ok?
    ensures var next := ReclaimStale(c, prev, p, proof, height).value;
      && p.reserved <= prev.reservedPending && next.reservedPending == prev.reservedPending - p.reserved
      && next.reserve == prev.reserve && next.supply == prev.supply
      && (p.status.Pending? || p.status.Challenged?) && height > p.expiryHeight
  {
    hide VerifyInclusion, RootAfterUpdate, Wrap64;
  }

  lemma ReclaimEffect(c: Crypto, s: NodeState, id: Bytes32, height: u32)
    requires DoReclaim(c, s, id, height).1.Ok?
    ensures var s' := DoReclaim(c, s, id, height).0;
      && id in s.claims && s.claims[id].reserved <= s.state.reservedPending
      && (s.claims[id].status.Pending? || s.claims[id].status.Challenged?)
      && SameLocks(s, s') && SameMoney(s, s') && s'.issuers == s.issuers
      && s'.claims == s.claims[id := s.claims[id].(status := Reclaimed)]
      && s'.state.reservedPending == s.state.reservedPending - s.claims[id].reserved
  {
    hide ReclaimStale, TreeRoot, OwnProof, ReclaimCustody, ViewOf;
    ReclaimMeans(c, s.state, s.claims[id], OwnProof(c.poseidon2, s.pendingTree, id), height);
  }

  lemma FinalizeEffect(c: Crypto, s: NodeState, id: Bytes32, committee: Committee, approvals: seq<MultisigSig>,
                       height: u32)
    requires DoFinalize(c, s, id, committee, approvals, height).1.Ok?
    ensures var s' := DoFinalize(c, s, id, committee, approvals, height).0;
      && id in s.claims && s.claims[id].status.Pending?
      && s.claims[id].reserved <= s.state.reservedPending && s.claims[id].reserved <= s.state.reserve
      && SameLocks(s, s') && s'.issuers == s.issuers && s'.state.supply == s.state.supply
      && s'.claims == s.claims[id := s.claims[id].(status := Finalized)]
      && s'.state.reservedPending == s.state.reservedPending - s.claims[id].reserved
      && s'.state.reserve == s.state.reserve - s.claims[id].reserved
  {
    hide FinalizeClaim, TreeRoot, OwnProof, FinalizeCustody, ApproveCustody, ViewOf, RootAfterUpdate;
    FinalizeMeans(c, s.state, s.claims[id], OwnProof(c.poseidon2, s.pendingTree, id), committee, approvals, height);
  }

  // ---------------------------------------------------------------- submissions

  function AmountSum(rs: seq<Redemption>): nat {
    if |rs| == 0 then 0 else AmountSum(rs[..|rs| - 1]) + rs[|rs| - 1].intent.amount
  }

  /** The sets after the first `k` redemptions of a batch. */
  function ConsumedAfter(c: Crypto, vs: Values, rs: seq<Redemption>, k: nat): Values
    requires k <= |rs|
  {
    if k == 0 then vs else ConsumedAfter(c, vs, rs, k - 1)[c.lockHash(rs[k - 1].lock) := SET_MEMBER]
  }

  function NullifiedAfter(c: Crypto, vs: Values, rs: seq<Redemption>, k: nat): Values
    requires k <= |rs|
  {
    if k == 0 then vs else NullifiedAfter(c, vs, rs, k - 1)[NullifierOf(c, rs[k - 1].lock) := SET_MEMBER]
  }

  lemma {:induction false} FillSets(c: Crypto, s: NodeState, price: pos, rs: seq<Redemption>, k: nat)
    requires k <= |rs|
    ensures Fill(c, s, price, rs, k).consumed == ConsumedAfter(c, s.consumedTree, rs, k)
    ensures Fill(c, s, price, rs, k).nullifier == NullifiedAfter(c, s.nullifierTree, rs, k)
  {
    hide OwnProof, Gross, NullifierOf, Wrap64;
    if k > 0 { FillSets(c, s, price, rs, k - 1); }
  }

  /** The four tree checks of redemption `k`, on the node's own trees. */
  ghost predicate LockChecked(c: Crypto, s: NodeState, rs: seq<Redemption>, k: nat)
    requires k < |rs|
  {
    var h, id, nf := c.poseidon2, c.lockHash(rs[k].lock), NullifierOf(c, rs[k].lock);
    var consumed, nullified := ConsumedAfter(c, s.consumedTree, rs, k), NullifiedAfter(c, s.nullifierTree, rs, k);
    && VerifyInclusion(h, TreeRoot(h, s.lockTree), id, SET_MEMBER, OwnProof(h, s.lockTree, id))
    && VerifyExclusion(h, TreeRoot(h, consumed), id, OwnProof(h, consumed, id))
    && VerifyExclusion(h, TreeRoot(h, s.refundTree), id, OwnProof(h, s.refundTree, id))
    && VerifyExclusion(h, TreeRoot(h, nullified), nf, OwnProof(h, nullified, nf))
    && rs[k].lock.amount == rs[k].intent.amount
  }

  lemma CheckedMeans(c: Crypto, prev: StateRoot, operatorId: Bytes32, price: u64, tip: u32, r: BatchRedemption,
                     run: Running)
    requires CheckRedemption(c, prev, operatorId, price, tip, r, run).None?
    ensures var id := c.lockHash(r.data.lock);
      && VerifyInclusion(c.poseidon2, prev.lockRoot, id, SET_MEMBER, r.member)
      && VerifyExclusion(c.poseidon2, run.consumedRoot, id, r.unconsumed)
      && VerifyExclusion(c.poseidon2, prev.refundRoot, id, r.unrefunded)
      && VerifyExclusion(c.poseidon2, run.nullifierRoot, NullifierOf(c, r.data.lock), r.unused)
      && r.data.lock.amount == r.data.intent.amount
  {
    hide VerifyInclusion, VerifyExclusion, NullifierOf, CheckPayout;
  }

  lemma {:induction false} BatchPrefix(c: Crypto, prev: StateRoot, operatorId: Bytes32, price: u64, tip: u32,
                                       rs: seq<BatchRedemption>, k: nat, n: nat)
    requires k <= n <= |rs| && RunBatch(c, prev, operatorId, price, tip, rs, n).Ok?
    ensures RunBatch(c, prev, operatorId, price, tip, rs, k).Ok?
  {
    hide *;
    if k < n {
      RunUnfold(c, prev, operatorId, price, tip, rs, n);
      BatchPrefix(c, prev, operatorId, price, tip, rs, k, n - 1);
    }
  }

  lemma LockRoots(c: Crypto, s: NodeState)
    requires RootsMatch(c, s, s.state)
    ensures s.state.lockRoot == TreeRoot(c.poseidon2, s.lockTree)
      && s.state.refundRoot == TreeRoot(c.poseidon2, s.refundTree)
  {
    hide TreeRoot;
  }

  lemma MirroredRoots(c: Crypto, b: Built, run: Running)
    requires Mirrors(c, b, run)
    ensures run.consumedRoot == TreeRoot(c.poseidon2, b.consumed)
      && run.nullifierRoot == TreeRoot(c.poseidon2, b.nullifier)
  {
    hide TreeRoot;
  }

  lemma LockCheckedIs(c: Crypto, s: NodeState, rs: seq<Redemption>, k: nat)
    requires k < |rs|
    ensures var h, id, nf := c.poseidon2, c.lockHash(rs[k].lock), NullifierOf(c, rs[k].lock);
      var consumed, nullified := ConsumedAfter(c, s.consumedTree, rs, k), NullifiedAfter(c, s.nullifierTree, rs, k);
      LockChecked(c, s, rs, k) <==>
        && VerifyInclusion(h, TreeRoot(h, s.lockTree), id, SET_MEMBER, OwnProof(h, s.lockTree, id))
        && VerifyExclusion(h, TreeRoot(h, consumed), id, OwnProof(h, consumed, id))
        && VerifyExclusion(h, TreeRoot(h, s.refundTree), id, OwnProof(h, s.refundTree, id))
        && VerifyExclusion(h, TreeRoot(h, nullified), nf, OwnProof(h, nullified, nf))
        && rs[k].lock.amount == rs[k].intent.amount
  {
    hide TreeRoot, OwnProof, VerifyInclusion, VerifyExclusion, NullifierOf, ConsumedAfter, NullifiedAfter;
  }

  lemma BatchChecked(c: Crypto, s: NodeState, operatorId: Bytes32, price: pos, tip: u32, rs: seq<Redemption>, k: nat)
    requires RootsMatch(c, s, s.state) && price < TWO64 && k < |rs|
    requires RunBatch(c, s.state, operatorId, price, tip, Fill(c, s, price, rs, |rs|).filled, |rs|).Ok?
    ensures LockChecked(c, s, rs, k)
  {
    hide *;
    var filled := Fill(c, s, price, rs, |rs|).filled;
    LockRoots(c, s);
    BatchPrefix(c, s.state, operatorId, price, tip, filled, k + 1, |rs|);
    RunUnfold(c, s.state, operatorId, price, tip, filled, k + 1);
    var run := RunBatch(c, s.state, operatorId, price, tip, filled, k).value;
    BuilderMirrorsVerifier(c, s, operatorId, price, tip, rs, k);
    MirroredRoots(c, Fill(c, s, price, rs, k), run);
    FilledAt(c, s, price, rs, |rs|, k);
    FillSets(c, s, price, rs, k);
    CheckedMeans(c, s.state, operatorId, price, tip, filled[k], run);
    LockCheckedIs(c, s, rs, k);
  }

  lemma {:induction false} BatchAmount(c: Crypto, s: NodeState, operatorId: Bytes32, price: pos, tip: u32,
                                       rs: seq<Redemption>, k: nat)
    requires RootsMatch(c, s, s.state) && price < TWO64 && k <= |rs|
    requires RunBatch(c, s.state, operatorId, price, tip, Fill(c, s, price, rs, |rs|).filled, k).Ok?
    ensures RunBatch(c, s.state, operatorId, price, tip, Fill(c, s, price, rs, |rs|).filled, k).value.amount ==
      AmountSum(rs[..k])
    decreases k
  {
    hide *;
    var filled := Fill(c, s, price, rs, |rs|).filled;
    if k == 0 {
      StartAmount(c, s.state, operatorId, price, tip, filled, rs);
    } else {
      RunUnfold(c, s.state, operatorId, price, tip, filled, k);
      BatchAmount(c, s, operatorId, price, tip, rs, k - 1);
      FilledAt(c, s, price, rs, |rs|, k - 1);
      AdvanceAmount(c, price, filled[k - 1], RunBatch(c, s.state, operatorId, price, tip, filled, k - 1).value);
      AmountStep(rs, k);
    }
  }

  lemma StartAmount(c: Crypto, prev: StateRoot, operatorId: Bytes32, price: u64, tip: u32,
                    filled: seq<BatchRedemption>, rs: seq<Redemption>)
    ensures RunBatch(c, prev, operatorId, price, tip, filled, 0).Ok?
    ensures RunBatch(c, prev, operatorId, price, tip, filled, 0).value.amount == AmountSum(rs[..0])
  {
  }

  lemma AdvanceAmount(c: Crypto, price: pos, r: BatchRedemption, run: Running)
    requires |r.unconsumed| == |r.unused| == HEIGHT
    ensures Advance(c, price, r, run).amount == run.amount + r.data.intent.amount
  {
    hide RootAfterUpdate, Gross, NullifierOf;
  }

  lemma AmountStep(rs: seq<Redemption>, k: nat)
    requires 0 < k <= |rs|
    ensures AmountSum(rs[..k]) == AmountSum(rs[..k - 1]) + rs[k - 1].intent.amount
  {
    assert rs[..k][..k - 1] == rs[..k - 1];
  }

  /** An accepted submission: exact sums, checked locks, an unused claim id. */
  ghost predicate Submitted(c: Crypto, s: NodeState, rs: seq<Redemption>, s': NodeState, gross: u64,
                            claim: PendingClaim) {
    var n := |rs|;
    && n > 0 && (forall k :: 0 <= k < n ==> LockChecked(c, s, rs, k))
    && s'.consumedTree == ConsumedAfter(c, s.consumedTree, rs, n)
    && s'.nullifierTree == NullifiedAfter(c, s.nullifierTree, rs, n)
    && s'.lockTree == s.lockTree && s'.refundTree == s.refundTree && s'.issuers == s.issuers
    && AmountSum(rs) <= s.state.supply && s'.state.supply == s.state.supply - AmountSum(rs)
    && s'.state.reserve == s.state.reserve
    && s'.state.reservedPending == s.state.reservedPending + gross
    && claim.status.Pending? && claim.reserved == gross && s'.claims == s.claims[claim.claimId := claim]
    && VerifyExclusion(c.poseidon2, TreeRoot(c.poseidon2, s.pendingTree), claim.claimId,
                       OwnProof(c.poseidon2, s.pendingTree, claim.claimId))
  }

  lemma AcceptedLocks(c: Crypto, s: NodeState, q: Submission, price: pos, b: Built, inputs: ClaimInputs, id: Bytes32,
                      next: StateRoot)
    requires RootsMatch(c, s, s.state) && Building(c, s, q, price, b, inputs, id, next) && price < TWO64
      && Exact(c, s, q, price, b, inputs, id)
    ensures forall k :: 0 <= k < |q.redemptions| ==> LockChecked(c, s, q.redemptions, k)
    ensures b.amount == AmountSum(q.redemptions)
  {
    BuildingFill(c, s, q, price, b, inputs, id, next);
    assert RunBatch(c, s.state, inputs.operatorId, price, q.tip, b.filled, |b.filled|).Ok?
      && b.amount == RunBatch(c, s.state, inputs.operatorId, price, q.tip, b.filled, |b.filled|).value.amount by {
        hide RunBatch, Fill;
      }
    hide *;
    var rs := q.redemptions;
    forall k | 0 <= k < |rs|
      ensures LockChecked(c, s, rs, k)
    {
      BatchChecked(c, s, inputs.operatorId, price, q.tip, rs, k);
    }
    BatchAmount(c, s, inputs.operatorId, price, q.tip, rs, |rs|);
    assert rs[..|rs|] == rs;
  }

  lemma BuildingFill(c: Crypto, s: NodeState, q: Submission, price: pos, b: Built, inputs: ClaimInputs, id: Bytes32,
                     next: StateRoot)
    requires Building(c, s, q, price, b, inputs, id, next)
    ensures b == Fill(c, s, price, q.redemptions, |q.redemptions|) && |b.filled| == |q.redemptions| > 0 && price < TWO64
    ensures inputs.reimbursement == b.gross && Proposed(c, s, price, inputs, id, b) == Some(next)
  {
    hide Fill, Proposed, QuorumPrice;
  }

  lemma ExactMeans(c: Crypto, s: NodeState, q: Submission, price: pos, b: Built, inputs: ClaimInputs, id: Bytes32)
    requires RootsMatch(c, s, s.state) && price < TWO64 && Exact(c, s, q, price, b, inputs, id)
    ensures b.amount <= s.state.supply && s.state.reservedPending + b.gross < TWO64
    ensures VerifyExclusion(c.poseidon2, TreeRoot(c.poseidon2, s.pendingTree), id,
                            OwnProof(c.poseidon2, s.pendingTree, id))
  {
    hide TreeRoot, OwnProof, RunBatch, VerifyExclusion;
  }

  lemma AcceptedEffect(c: Crypto, s: NodeState, q: Submission, price: pos, b: Built, inputs: ClaimInputs, id: Bytes32,
                       next: StateRoot, custody: Custody)
    requires RootsMatch(c, s, s.state) && Building(c, s, q, price, b, inputs, id, next) && price < TWO64
      && Exact(c, s, q, price, b, inputs, id)
    ensures Submitted(c, s, q.redemptions, AfterClaim(c, s, inputs, id, b).(state := next, reserve := custody),
                      b.gross, OpenedClaim(id, inputs))
  {
    hide TreeRoot, OwnProof, RunBatch, Fill, Proposed, VerifyExclusion, LockChecked, Wrap64, ConsumedAfter,
      NullifiedAfter, AmountSum, Building, RootsMatch, Exact;
    AcceptedLocks(c, s, q, price, b, inputs, id, next);
    BuildingFill(c, s, q, price, b, inputs, id, next);
    FillSets(c, s, price, q.redemptions, |q.redemptions|);
    ProposedLinks(c, s, price, inputs, id, b);
    ExactMeans(c, s, q, price, b, inputs, id);
    WrapExact(s.state.supply - AmountSum(q.redemptions));
    WrapExact(s.state.reservedPending + b.gross);
  }

  lemma SubmitEffect(c: Crypto, s: NodeState, q: Submission) returns (gross: u64, claim: PendingClaim)
    requires NodeInv(c, s) && DoSubmitClaim(c, s, q).1.Ok?
    ensures Submitted(c, s, q.redemptions, DoSubmitClaim(c, s, q).0, gross, claim)
    ensures DoSubmitClaim(c, s, q).1.value == claim.claimId && claim.expiryHeight == q.expiryHeight
  {
    InvRoots(c, s);
    hide NodeInv, DoSubmitClaim, AfterClaim, TreeRoot, VerifyClaim, WitnessFor, Exact, Building, Submitted,
      SubmitCustody, ViewOf, RootsMatch, InputsFor;
    var price, b, inputs, id, next := SubmitCases(c, s, q);
    BuildingPrice(c, s, q, price, b, inputs, id, next);
    BuilderAgrees(c, s, q, price, b, inputs, id, next);
    gross := b.gross;
    claim := OpenedClaim(id, inputs);
    BuildingExpiry(c, s, q, price, b, inputs, id, next);
    AcceptedEffect(c, s, q, price, b, inputs, id, next, DoSubmitClaim(c, s, q).0.reserve);
  }

  lemma BuildingExpiry(c: Crypto, s: NodeState, q: Submission, price: pos, b: Built, inputs: ClaimInputs, id: Bytes32,
                       next: StateRoot)
    requires Building(c, s, q, price, b, inputs, id, next)
    ensures inputs.expiryHeight == q.expiryHeight
  {
    hide Fill, Proposed, QuorumPrice;
  }
}
