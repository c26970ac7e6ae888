/** When a batched claim is accepted: the exact conditions on the submission, in terms of the
    node's own sets, with proofs, running roots and the verifier out of the picture. */
module NodeSubmits {
  import opened Options
  import opened Modular
  import opened Bytes
  import opened Smt
  import opened StateTypes
  import opened Transitions
  import opened Claim
  import opened NodeModel
  import opened NodeInvariant
  import opened NodeClaim
  import opened NodeEffects
  import opened NodeAccepts
  import opened Ledger

  /** The checks of one redemption that look at no tree. */
  predicate Settleable(c: Crypto, family: Bytes32, operatorId: Bytes32, price: u64, tip: u32, d: Redemption) {
    && Bound(c, d.intent, d.lock, family) && d.intent.operatorId == Some(operatorId)
    && c.sha256(d.finalize.preimage) == d.intent.paymentHash && d.payout.revealedPreimage == d.finalize.preimage
    && c.payoutSpv(d.payout, d.intent.paymentHash, 6, tip).None?
    && d.finalize.sinkScriptKey == c.sinkScriptKey(family) && d.finalize.burnInternalKey == c.burnInternalKey(family)
    && c.burn(d.burnProof, d.finalize, family, d.intent.network).None?
    && d.finalize.amount == d.lock.amount && d.finalize.operatorId == operatorId
    && CheckPayout(d, price).None?
  }

  lemma CheckRedemptionIff(c: Crypto, prev: StateRoot, operatorId: Bytes32, price: u64, tip: u32, r: BatchRedemption,
                           run: Running)
    ensures CheckRedemption(c, prev, operatorId, price, tip, r, run).None? <==>
      && Settleable(c, prev.assetFamilyId, operatorId, price, tip, r.data)
      && c.lockHash(r.data.lock) !in run.leaves
      && VerifyInclusion(c.poseidon2, prev.lockRoot, c.lockHash(r.data.lock), SET_MEMBER, r.member)
      && VerifyExclusion(c.poseidon2, run.consumedRoot, c.lockHash(r.data.lock), r.unconsumed)
      && VerifyExclusion(c.poseidon2, prev.refundRoot, c.lockHash(r.data.lock), r.unrefunded)
      && VerifyExclusion(c.poseidon2, run.nullifierRoot, NullifierOf(c, r.data.lock), r.unused)
  {
    BindingIff(c, r.data.intent, r.data.lock, prev.assetFamilyId);
    hide VerifyInclusion, VerifyExclusion, NullifierOf, CheckPayout, CheckBinding, Bound;
  }

  /** The lock hashes of the first `k` redemptions. */
  function LockHashes(c: Crypto, rs: seq<Redemption>, k: nat): seq<Bytes32>
    requires k <= |rs|
  {
    if k == 0 then [] else LockHashes(c, rs, k - 1) + [c.lockHash(rs[k - 1].lock)]
  }

  lemma {:induction false} FillLeaves(c: Crypto, s: NodeState, price: pos, rs: seq<Redemption>, k: nat)
    requires k <= |rs|
    ensures Fill(c, s, price, rs, k).leaves == LockHashes(c, rs, k)
  {
    hide OwnProof, Gross, NullifierOf, Wrap64;
    if k > 0 { FillLeaves(c, s, price, rs, k - 1); }
  }

  /** Redemption `k`'s lock is recorded, neither refunded nor consumed, also not by an earlier
      redemption of the batch, and its nullifier is fresh. */
  predicate Open(c: Crypto, s: NodeState, rs: seq<Redemption>, k: nat)
    requires k < |rs|
  {
    var id := c.lockHash(rs[k].lock);
    && id !in LockHashes(c, rs, k) && id in s.lockTree && id !in ConsumedAfter(c, s.consumedTree, rs, k)
    && id !in s.refundTree
    && NullifierOf(c, rs[k].lock) !in NullifiedAfter(c, s.nullifierTree, rs, k)
  }

  lemma OpenProofs(c: Crypto, s: NodeState, rs: seq<Redemption>, k: nat)
    requires k < |rs| && Open(c, s, rs, k) && OnlySetMembers(s.lockTree)
    ensures var h, id, nf := c.poseidon2, c.lockHash(rs[k].lock), NullifierOf(c, rs[k].lock);
      var consumed, nullified := ConsumedAfter(c, s.consumedTree, rs, k), NullifiedAfter(c, s.nullifierTree, rs, k);
      && VerifyInclusion(h, TreeRoot(h, s.lockTree), id, SET_MEMBER, OwnProof(h, s.lockTree, id))
      && VerifyExclusion(h, TreeRoot(h, consumed), id, OwnProof(h, consumed, id))
      && VerifyExclusion(h, TreeRoot(h, s.refundTree), id, OwnProof(h, s.refundTree, id))
      && VerifyExclusion(h, TreeRoot(h, nullified), nf, OwnProof(h, nullified, nf))
  {
    var h, id, nf := c.poseidon2, c.lockHash(rs[k].lock), NullifierOf(c, rs[k].lock);
    hide TreeRoot, OwnProof, VerifyInclusion, VerifyExclusion, NullifierOf, RootAfterUpdate, ConsumedAfter,
      NullifiedAfter, LockHashes;
    Own(h, s.lockTree, id);
    Own(h, ConsumedAfter(c, s.consumedTree, rs, k), id);
    Own(h, s.refundTree, id);
    Own(h, NullifiedAfter(c, s.nullifierTree, rs, k), nf);
  }

  lemma MirroredLeaves(c: Crypto, b: Built, run: Running)
    requires Mirrors(c, b, run)
    ensures run.leaves == b.leaves
  {
    hide TreeRoot;
  }

  /** The verifier's check of redemption `k`, when it gets that far. */
  lemma RedemptionIff(c: Crypto, s: NodeState, operatorId: Bytes32, price: pos, tip: u32, rs: seq<Redemption>, k: nat)
    requires RootsMatch(c, s, s.state) && OnlySetMembers(s.lockTree) && price < TWO64 && k < |rs|
    requires RunBatch(c, s.state, operatorId, price, tip, Fill(c, s, price, rs, |rs|).filled, k).Ok?
    ensures var filled := Fill(c, s, price, rs, |rs|).filled;
      var run := RunBatch(c, s.state, operatorId, price, tip, filled, k).value;
      && (Settleable(c, s.state.assetFamilyId, operatorId, price, tip, rs[k]) && Open(c, s, rs, k) ==>
            CheckRedemption(c, s.state, operatorId, price, tip, filled[k], run).None?)
      && (CheckRedemption(c, s.state, operatorId, price, tip, filled[k], run).None? ==>
            Settleable(c, s.state.assetFamilyId, operatorId, price, tip, rs[k])
              && (Open(c, s, rs, k) || RedemptionCollides(c, s, rs, k)))
  {
    hide *;
    var filled := Fill(c, s, price, rs, |rs|).filled;
    var run := RunBatch(c, s.state, operatorId, price, tip, filled, k).value;
    LockRoots(c, s);
    BuilderMirrorsVerifier(c, s, operatorId, price, tip, rs, k);
    MirroredRoots(c, Fill(c, s, price, rs, k), run);
    MirroredLeaves(c, Fill(c, s, price, rs, k), run);
    FilledAt(c, s, price, rs, |rs|, k);
    FillSets(c, s, price, rs, k);
    FillLeaves(c, s, price, rs, k);
    CheckRedemptionIff(c, s.state, operatorId, price, tip, filled[k], run);
    if Open(c, s, rs, k) {
      OpenProofs(c, s, rs, k);
      OpenIs(c, s, rs, k);
    }
    if CheckRedemption(c, s.state, operatorId, price, tip, filled[k], run).None? {
      CheckedMeans(c, s.state, operatorId, price, tip, filled[k], run);
      LockCheckedIs(c, s, rs, k);
      CheckedOr(c, s, rs, k);
      OpenIs(c, s, rs, k);
    }
  }

  lemma OpenIs(c: Crypto, s: NodeState, rs: seq<Redemption>, k: nat)
    requires k < |rs|
    ensures var id := c.lockHash(rs[k].lock);
      Open(c, s, rs, k) <==>
        && id !in LockHashes(c, rs, k) && id in s.lockTree && id !in ConsumedAfter(c, s.consumedTree, rs, k)
        && id !in s.refundTree
        && NullifierOf(c, rs[k].lock) !in NullifiedAfter(c, s.nullifierTree, rs, k)
  {
    hide LockHashes, ConsumedAfter, NullifiedAfter, NullifierOf;
  }

  // ------------------------------------------------------------------- the batch

  lemma RunExtends(c: Crypto, prev: StateRoot, operatorId: Bytes32, price: u64, tip: u32, rs: seq<BatchRedemption>,
                   k: nat)
    requires 0 < k <= |rs| && RunBatch(c, prev, operatorId, price, tip, rs, k - 1).Ok?
    ensures RunBatch(c, prev, operatorId, price, tip, rs, k).Ok? <==>
      CheckRedemption(c, prev, operatorId, price, tip, rs[k - 1],
                      RunBatch(c, prev, operatorId, price, tip, rs, k - 1).value).None?
  {
    hide CheckRedemption, Advance;
  }

  lemma {:induction false} RunAccepts(c: Crypto, s: NodeState, operatorId: Bytes32, price: pos, tip: u32,
                                      rs: seq<Redemption>, k: nat)
    requires RootsMatch(c, s, s.state) && OnlySetMembers(s.lockTree) && price < TWO64 && k <= |rs|
    requires forall j :: 0 <= j < k ==>
      Settleable(c, s.state.assetFamilyId, operatorId, price, tip, rs[j]) && Open(c, s, rs, j)
    ensures RunBatch(c, s.state, operatorId, price, tip, Fill(c, s, price, rs, |rs|).filled, k).Ok?
    decreases k
  {
    hide *;
    var filled := Fill(c, s, price, rs, |rs|).filled;
    if k == 0 {
      RunStarts(c, s.state, operatorId, price, tip, filled);
    } else {
      RunAccepts(c, s, operatorId, price, tip, rs, k - 1);
      RedemptionIff(c, s, operatorId, price, tip, rs, k - 1);
      RunExtends(c, s.state, operatorId, price, tip, filled, k);
    }
  }

  lemma RunStarts(c: Crypto, prev: StateRoot, operatorId: Bytes32, price: u64, tip: u32, rs: seq<BatchRedemption>)
    ensures RunBatch(c, prev, operatorId, price, tip, rs, 0).Ok?
  {
  }

  lemma RunAccepted(c: Crypto, s: NodeState, operatorId: Bytes32, price: pos, tip: u32, rs: seq<Redemption>, k: nat)
    requires RootsMatch(c, s, s.state) && OnlySetMembers(s.lockTree) && price < TWO64 && k < |rs|
    requires RunBatch(c, s.state, operatorId, price, tip, Fill(c, s, price, rs, |rs|).filled, |rs|).Ok?
    ensures Settleable(c, s.state.assetFamilyId, operatorId, price, tip, rs[k])
      && (Open(c, s, rs, k) || RedemptionCollides(c, s, rs, k))
  {
    hide *;
    var filled := Fill(c, s, price, rs, |rs|).filled;
    BatchPrefix(c, s.state, operatorId, price, tip, filled, k + 1, |rs|);
    RunUnfold(c, s.state, operatorId, price, tip, filled, k + 1);
    RedemptionIff(c, s, operatorId, price, tip, rs, k);
  }

  /** What a batch costs the reserve at a price. */
  function GrossSum(rs: seq<Redemption>, price: pos): nat {
    if |rs| == 0 then 0 else GrossSum(rs[..|rs| - 1], price) + Gross(rs[|rs| - 1].lock.amount, price)
  }

  lemma GrossStep(rs: seq<Redemption>, price: pos, k: nat)
    requires 0 < k <= |rs|
    ensures GrossSum(rs[..k], price) == GrossSum(rs[..k - 1], price) + Gross(rs[k - 1].lock.amount, price)
  {
    assert rs[..k][..k - 1] == rs[..k - 1];
    hide Gross;
  }

  lemma StartGross(c: Crypto, prev: StateRoot, operatorId: Bytes32, price: pos, tip: u32, filled: seq<BatchRedemption>,
                   rs: seq<Redemption>)
    requires price < TWO64
    ensures RunBatch(c, prev, operatorId, price, tip, filled, 0).Ok?
    ensures RunBatch(c, prev, operatorId, price, tip, filled, 0).value.gross == GrossSum(rs[..0], price)
  {
  }

  lemma AdvanceGross(c: Crypto, price: pos, r: BatchRedemption, run: Running)
    requires |r.unconsumed| == |r.unused| == HEIGHT
    ensures Advance(c, price, r, run).gross == run.gross + Gross(r.data.lock.amount, price)
  {
    hide RootAfterUpdate, Gross, NullifierOf;
  }

  lemma {:induction false} BatchGross(c: Crypto, s: NodeState, operatorId: Bytes32, price: pos, tip: u32,
                                      rs: seq<Redemption>, k: nat)
    requires price < TWO64 && k <= |rs|
    requires RunBatch(c, s.state, operatorId, price, tip, Fill(c, s, price, rs, |rs|).filled, k).Ok?
    ensures RunBatch(c, s.state, operatorId, price, tip, Fill(c, s, price, rs, |rs|).filled, k).value.gross ==
      GrossSum(rs[..k], price)
    decreases k
  {
    hide *;
    var filled := Fill(c, s, price, rs, |rs|).filled;
    if k == 0 {
      StartGross(c, s.state, operatorId, price, tip, filled, rs);
    } else {
      RunUnfold(c, s.state, operatorId, price, tip, filled, k);
      BatchGross(c, s, operatorId, price, tip, rs, k - 1);
      FilledAt(c, s, price, rs, |rs|, k - 1);
      AdvanceGross(c, price, filled[k - 1], RunBatch(c, s.state, operatorId, price, tip, filled, k - 1).value);
      GrossStep(rs, price, k);
    }
  }

  // -------------------------------------------------------------- the submission

  function OperatorOf(q: Submission): Bytes32
    requires |q.redemptions| > 0
  {
    var operatorId := q.redemptions[0].intent.operatorId;
    if operatorId.Some? then operatorId.value else 0
  }

  /** The claim id that the builder comes to. */
  function ClaimIdOf(c: Crypto, s: NodeState, q: Submission, price: pos): Bytes32
    requires |q.redemptions| > 0
  {
    c.claimId(InputsFor(c, s, q, Fill(c, s, price, q.redemptions, |q.redemptions|)))
  }

  /** The conditions on a submission as a whole. */
  predicate Quoted(c: Crypto, s: NodeState, q: Submission, price: u64) {
    var chainTime := s.state.anchorMtp + 3600;
    && 0 < price && chainTime < TWO64 && q.anchor.chainTime == chainTime && q.anchor.selectedPrice == price
    && QuorumPrice(c, s.state, chainTime, q.anchor, q.messages, q.signerSet) == Ok(price)
    && |q.redemptions| > 0 && AmountSum(q.redemptions) <= s.state.supply
    && s.state.reservedPending + GrossSum(q.redemptions, price) < TWO64
    && Computable(s.state.reserve, s.state.supply - AmountSum(q.redemptions), price)
  }

  /** Everything that a submission needs. */
  predicate Submittable(c: Crypto, s: NodeState, q: Submission, price: u64) {
    && Quoted(c, s, q, price)
    && (forall k :: 0 <= k < |q.redemptions| ==>
         Settleable(c, s.state.assetFamilyId, OperatorOf(q), price, q.tip, q.redemptions[k])
           && Open(c, s, q.redemptions, k))
    && ClaimIdOf(c, s, q, price) !in s.claims
  }

  lemma DoSubmitIs(c: Crypto, s: NodeState, q: Submission, price: pos, b: Built, inputs: ClaimInputs, id: Bytes32,
                   next: StateRoot)
    requires Building(c, s, q, price, b, inputs, id, next)
    ensures var refused := VerifyClaim(c, s.state, next, WitnessFor(c, s, q, b, inputs, id, next));
      DoSubmitClaim(c, s, q) == if refused.Some? then (s, Err(ClaimErr(refused.value)))
        else DoAccept(c, s, inputs, id, b, next)
  {
    hide TreeRoot, OwnProof, Wrap64, Proposed, Fill, QuorumPrice, VerifyClaim, RootsMatch, InputsFor, WitnessFor,
      DoAccept;
  }

  lemma ProposedIff(c: Crypto, s: NodeState, price: u64, inputs: ClaimInputs, id: Bytes32, b: Built)
    ensures Proposed(c, s, price, inputs, id, b).Some?
      <==> Computable(s.state.reserve, Wrap64(s.state.supply - b.amount), price)
  {
    Own(c.poseidon2, s.pendingTree, id);
    hide TreeRoot, OwnProof, RootAfterUpdate, CollateralRatio, Wrap64;
  }

  /** The verifier past its first checks. */
  lemma VerifyExact(c: Crypto, prev: StateRoot, next: StateRoot, w: ClaimWitness, price: u64)
    requires next.transitionType == REDEEM_FAST_FINALIZE && next.stateEpoch == Wrap64(prev.stateEpoch + 1)
    requires next.prevStateRoot == c.stateHash(prev) == w.claim.inputs.prevStateRoot
      && w.claim.newStateRoot == c.stateHash(next)
    requires w.claim.inputs.transitionType == REDEEM_FAST_FINALIZE && |w.redemptions| > 0
    requires prev.anchorMtp + MTP_LAG_OFFSET < TWO64
    requires QuorumPrice(c, prev, prev.anchorMtp + MTP_LAG_OFFSET, w.claim.inputs.anchor, w.messages, w.signerSet) ==
      Ok(price)
    ensures var r := VerifyClaim(c, prev, next, w);
      var run := RunBatch(c, prev, w.claim.inputs.operatorId, price, w.tip, w.redemptions, |w.redemptions|);
      if w.claim.inputs.anchor.chainTime != prev.anchorMtp + MTP_LAG_OFFSET then r == Some(ChainTimeInconsistent)
      else if w.claim.inputs.anchor.selectedPrice != price then r == Some(OraclePriceMismatch)
      else if run.Err? then r == Some(run.error)
      else r == CheckTotals(c, prev, next, w, price, run.value)
  {
    hide QuorumPrice, RunBatch, CheckTotals, Wrap64;
  }

  /** The refusals of the totals that are no internal mismatch. */
  lemma TotalsKinds(c: Crypto, prev: StateRoot, next: StateRoot, w: ClaimWitness, price: u64, run: Running)
    requires run.amount <= prev.supply && prev.reservedPending + run.gross < TWO64
    requires VerifyExclusion(c.poseidon2, prev.pendingRoot, w.claim.claimId, w.exclusion)
    ensures var refused := CheckTotals(c, prev, next, w, price, run); refused.Some? ==> Internal(refused.value)
  {
    hide VerifyExclusion, Expected, DataOf;
  }

  /** The pieces of a claim under construction, once its sums are exact. */
  lemma BuildingLinks(c: Crypto, s: NodeState, q: Submission, price: pos, b: Built, inputs: ClaimInputs, id: Bytes32,
                      next: StateRoot)
    requires Building(c, s, q, price, b, inputs, id, next)
    ensures price < TWO64
    ensures var w := WitnessFor(c, s, q, b, inputs, id, next);
      && next.transitionType == REDEEM_FAST_FINALIZE && next.stateEpoch == Wrap64(s.state.stateEpoch + 1)
      && next.prevStateRoot == c.stateHash(s.state) == w.claim.inputs.prevStateRoot
      && w.claim.newStateRoot == c.stateHash(next)
      && w.claim.inputs.transitionType == REDEEM_FAST_FINALIZE && w.redemptions == b.filled
      && |b.filled| == |q.redemptions| > 0
      && w.claim.inputs.operatorId == OperatorOf(q) == inputs.operatorId && w.claim.inputs.anchor == q.anchor
      && w.messages == q.messages
      && w.signerSet == q.signerSet && w.tip == q.tip && w.claim.claimId == id
      && w.exclusion == OwnProof(c.poseidon2, s.pendingTree, id)
      && b == Fill(c, s, price, q.redemptions, |q.redemptions|) && id == ClaimIdOf(c, s, q, price)
  {
    hide QuorumPrice, Fill, Proposed, OwnProof, TreeRoot, Wrap64;
    ProposedLinks(c, s, price, inputs, id, b);
  }

  lemma WholeBatch(c: Crypto, s: NodeState, q: Submission, price: pos, run: Running)
    requires price < TWO64 && |q.redemptions| > 0 && RootsMatch(c, s, s.state)
    requires RunBatch(c, s.state, OperatorOf(q), price, q.tip,
                      Fill(c, s, price, q.redemptions, |q.redemptions|).filled, |q.redemptions|) == Ok(run)
    ensures run.amount == AmountSum(q.redemptions) && run.gross == GrossSum(q.redemptions, price)
    ensures Mirrors(c, Fill(c, s, price, q.redemptions, |q.redemptions|), run)
  {
    hide *;
    var rs := q.redemptions;
    BatchAmount(c, s, OperatorOf(q), price, q.tip, rs, |rs|);
    BatchGross(c, s, OperatorOf(q), price, q.tip, rs, |rs|);
    BuilderMirrorsVerifier(c, s, OperatorOf(q), price, q.tip, rs, |rs|);
    assert rs[..|rs|] == rs;
  }

  lemma PendingRootIs(c: Crypto, s: NodeState)
    requires RootsMatch(c, s, s.state)
    ensures s.state.pendingRoot == TreeRoot(c.poseidon2, s.pendingTree)
  {
    hide TreeRoot;
  }

  /** Once the batch ran and its sums fit, the verifier accepts. */
  lemma RunSuffices(c: Crypto, s: NodeState, q: Submission, price: pos, b: Built, inputs: ClaimInputs, id: Bytes32,
                    next: StateRoot, run: Running)
    requires RootsMatch(c, s, s.state) && Building(c, s, q, price, b, inputs, id, next) && price < TWO64
      && Quoted(c, s, q, price)
    requires RunBatch(c, s.state, OperatorOf(q), price, q.tip, b.filled, |b.filled|) == Ok(run)
    requires id !in s.pendingTree
    ensures VerifyClaim(c, s.state, next, WitnessFor(c, s, q, b, inputs, id, next)).None?
  {
    hide *;
    QuotedIs(c, s, q, price);
    var w := WitnessFor(c, s, q, b, inputs, id, next);
    BuildingLinks(c, s, q, price, b, inputs, id, next);
    VerifyExact(c, s.state, next, w, price);
    WholeBatch(c, s, q, price, run);
    TotalsNotInternal(c, s, q, price, b, inputs, id, next, run);
    PendingRootIs(c, s);
    Own(c.poseidon2, s.pendingTree, id);
    TotalsKinds(c, s.state, next, w, price, run);
  }

  lemma QuotedIs(c: Crypto, s: NodeState, q: Submission, price: u64)
    requires Quoted(c, s, q, price)
    ensures s.state.anchorMtp + MTP_LAG_OFFSET < TWO64 && q.anchor.chainTime == s.state.anchorMtp + MTP_LAG_OFFSET
      && q.anchor.selectedPrice == price > 0
    ensures QuorumPrice(c, s.state, s.state.anchorMtp + MTP_LAG_OFFSET, q.anchor, q.messages, q.signerSet) == Ok(price)
    ensures |q.redemptions| > 0 && AmountSum(q.redemptions) <= s.state.supply
      && s.state.reservedPending + GrossSum(q.redemptions, price) < TWO64
    ensures Computable(s.state.reserve, s.state.supply - AmountSum(q.redemptions), price)
  {
    hide QuorumPrice, AmountSum, GrossSum, Computable;
  }

  lemma SubmitAccepts(c: Crypto, s: NodeState, q: Submission, price: u64)
    requires NodeInv(c, s) && Submittable(c, s, q, price)
    ensures DoSubmitClaim(c, s, q).1.Ok?
  {
    hide *;
    SubmittableIs(c, s, q, price);
    QuotedIs(c, s, q, price);
    InvRoots(c, s);
    IssuerKeys(c, s);
    var rs := q.redemptions;
    var b := Fill(c, s, price, rs, |rs|);
    var inputs := InputsFor(c, s, q, b);
    var id := c.claimId(inputs);
    ClaimIdIs(c, s, q, price);
    InputsOperator(c, s, q, b);
    RunAccepts(c, s, OperatorOf(q), price, q.tip, rs, |rs|);
    var run := RunBatch(c, s.state, OperatorOf(q), price, q.tip, b.filled, |rs|).value;
    WholeBatch(c, s, q, price, run);
    MirroredSums(c, b, run);
    WrapExact(run.amount);
    WrapExact(s.state.supply - run.amount);
    WrapExact(s.state.anchorMtp + MTP_LAG_OFFSET);
    ProposedIff(c, s, price, inputs, id, b);
    var next := Proposed(c, s, price, inputs, id, b).value;
    BuildingIs(c, s, q, price, b, inputs, id, next);
    RunSuffices(c, s, q, price, b, inputs, id, next, run);
    DoSubmitIs(c, s, q, price, b, inputs, id, next);
    AcceptKinds(c, s, inputs, id, b, next);
    SubmitKeeps(c, s, q);
  }

  lemma SubmittableIs(c: Crypto, s: NodeState, q: Submission, price: u64)
    requires Submittable(c, s, q, price)
    ensures Quoted(c, s, q, price) && |q.redemptions| > 0 && price > 0
    ensures forall k :: 0 <= k < |q.redemptions| ==>
      Settleable(c, s.state.assetFamilyId, OperatorOf(q), price, q.tip, q.redemptions[k])
        && Open(c, s, q.redemptions, k)
    ensures ClaimIdOf(c, s, q, price) !in s.claims
  {
    hide Settleable, Open, ClaimIdOf, QuorumPrice, AmountSum, GrossSum, Computable;
  }

  lemma ClaimIdIs(c: Crypto, s: NodeState, q: Submission, price: pos)
    requires |q.redemptions| > 0
    ensures ClaimIdOf(c, s, q, price) ==
      c.claimId(InputsFor(c, s, q, Fill(c, s, price, q.redemptions, |q.redemptions|)))
  {
    hide Fill, InputsFor;
  }

  lemma InputsOperator(c: Crypto, s: NodeState, q: Submission, b: Built)
    requires |q.redemptions| > 0
    ensures InputsFor(c, s, q, b).operatorId == OperatorOf(q)
  {
  }

  lemma MirroredSums(c: Crypto, b: Built, run: Running)
    requires Mirrors(c, b, run)
    ensures b.amount == Wrap64(run.amount) && b.gross == Wrap64(run.gross)
  {
    hide TreeRoot, Wrap64;
  }

  lemma BuildingIs(c: Crypto, s: NodeState, q: Submission, price: pos, b: Built, inputs: ClaimInputs, id: Bytes32,
                   next: StateRoot)
    requires price < TWO64 && |q.redemptions| > 0
    requires QuorumPrice(c, s.state, Wrap64(s.state.anchorMtp + MTP_LAG_OFFSET), q.anchor, q.messages, q.signerSet) ==
      Ok(price)
    requires b == Fill(c, s, price, q.redemptions, |q.redemptions|) && inputs == InputsFor(c, s, q, b)
      && id == c.claimId(inputs)
    requires Proposed(c, s, price, inputs, id, b) == Some(next)
    ensures Building(c, s, q, price, b, inputs, id, next)
  {
    hide QuorumPrice, Fill, InputsFor, Proposed, Wrap64;
  }

  lemma AcceptKinds(c: Crypto, s: NodeState, inputs: ClaimInputs, id: Bytes32, b: Built, next: StateRoot)
    ensures var r := DoAccept(c, s, inputs, id, b, next).1; r.Ok? || r == Err(InvariantViolation)
  {
    hide RootsMatch, ReserveConsistent, AfterClaim, SubmitCustody;
  }

  /** What an accepted submission met: the quorum's price, and each condition or a collision. */
  lemma SubmitMet(c: Crypto, s: NodeState, q: Submission) returns (quote: u64)
    requires NodeInv(c, s) && DoSubmitClaim(c, s, q).1.Ok?
    ensures SubmittedAt(c, s, q, quote)
  {
    hide *;
    InvRoots(c, s);
    IssuerKeys(c, s);
    var price, b, inputs, id, next := SubmitCases(c, s, q);
    BuildingLinks(c, s, q, price, b, inputs, id, next);
    BuilderAgrees(c, s, q, price, b, inputs, id, next);
    ExactMeans(c, s, q, price, b, inputs, id);
    ExactRun(c, s, q, price, b, inputs, id);
    var rs := q.redemptions;
    forall k | 0 <= k < |rs|
      ensures Settleable(c, s.state.assetFamilyId, OperatorOf(q), price, q.tip, rs[k])
      ensures Open(c, s, rs, k) || RedemptionCollides(c, s, rs, k)
    {
      RunAccepted(c, s, OperatorOf(q), price, q.tip, rs, k);
    }
    AbsentOr(c.poseidon2, s.pendingTree, id);
    WholeBatch(c, s, q, price, RunBatch(c, s.state, OperatorOf(q), price, q.tip, b.filled, |rs|).value);
    WrapExact(s.state.supply - b.amount);
    ProposedIff(c, s, price, inputs, id, b);
    BuildingQuote(c, s, q, price, b, inputs, id, next);
    VerifiedQuote(c, s, q, price, b, inputs, id, next);
    QuotedFrom(c, s, q, price);
    SubmittedIs(c, s, q, price);
    quote := price;
  }

  lemma ExactRun(c: Crypto, s: NodeState, q: Submission, price: pos, b: Built, inputs: ClaimInputs, id: Bytes32)
    requires price < TWO64 && Exact(c, s, q, price, b, inputs, id)
    ensures RunBatch(c, s.state, inputs.operatorId, price, q.tip, b.filled, |b.filled|).Ok?
    ensures var run := RunBatch(c, s.state, inputs.operatorId, price, q.tip, b.filled, |b.filled|).value;
      run.amount <= s.state.supply && s.state.reservedPending + run.gross < TWO64 && b.amount == run.amount
  {
    hide RunBatch, VerifyExclusion, OwnProof;
  }

  lemma BuildingQuote(c: Crypto, s: NodeState, q: Submission, price: pos, b: Built, inputs: ClaimInputs, id: Bytes32,
                      next: StateRoot)
    requires Building(c, s, q, price, b, inputs, id, next)
    ensures QuorumPrice(c, s.state, Wrap64(s.state.anchorMtp + MTP_LAG_OFFSET), q.anchor, q.messages, q.signerSet) ==
      Ok(price)
    ensures Proposed(c, s, price, inputs, id, b).Some?
  {
    hide QuorumPrice, Fill, InputsFor, Proposed, Wrap64;
  }

  /** The verifier's first checks, seen from an acceptance. */
  lemma VerifiedQuote(c: Crypto, s: NodeState, q: Submission, price: pos, b: Built, inputs: ClaimInputs, id: Bytes32,
                      next: StateRoot)
    requires Building(c, s, q, price, b, inputs, id, next)
    requires VerifyClaim(c, s.state, next, WitnessFor(c, s, q, b, inputs, id, next)).None?
    ensures s.state.anchorMtp + MTP_LAG_OFFSET < TWO64
    ensures q.anchor.chainTime == s.state.anchorMtp + MTP_LAG_OFFSET && q.anchor.selectedPrice == price
  {
    hide *;
    BuildingLinks(c, s, q, price, b, inputs, id, next);
    BuildingQuote(c, s, q, price, b, inputs, id, next);
    var w := WitnessFor(c, s, q, b, inputs, id, next);
    ClockChecked(c, s.state, next, w);
    WrapExact(s.state.anchorMtp + MTP_LAG_OFFSET);
    VerifyExact(c, s.state, next, w, price);
  }

  lemma ClockChecked(c: Crypto, prev: StateRoot, next: StateRoot, w: ClaimWitness)
    requires VerifyClaim(c, prev, next, w).None?
    ensures prev.anchorMtp + MTP_LAG_OFFSET < TWO64
  {
    hide QuorumPrice, RunBatch, CheckTotals, Wrap64;
  }

  lemma QuotedFrom(c: Crypto, s: NodeState, q: Submission, price: pos)
    requires s.state.anchorMtp + MTP_LAG_OFFSET < TWO64 && q.anchor.chainTime == s.state.anchorMtp + MTP_LAG_OFFSET
      && q.anchor.selectedPrice == price
    requires QuorumPrice(c, s.state, Wrap64(s.state.anchorMtp + MTP_LAG_OFFSET), q.anchor, q.messages, q.signerSet) ==
      Ok(price)
    requires |q.redemptions| > 0 && AmountSum(q.redemptions) <= s.state.supply
      && s.state.reservedPending + GrossSum(q.redemptions, price) < TWO64
    requires Computable(s.state.reserve, s.state.supply - AmountSum(q.redemptions), price)
    ensures Quoted(c, s, q, price)
  {
    hide QuorumPrice, AmountSum, GrossSum, Computable;
  }

  /** What the claim commits to, from the submission and the state before it. */
  function ClaimFor(c: Crypto, s: NodeState, q: Submission, price: pos): ClaimInputs
    requires |q.redemptions| > 0 && GrossSum(q.redemptions, price) < TWO64
  {
    ClaimInputs(0x11, OperatorOf(q), c.stateHash(s.state), c.batchRoot(LockHashes(c, q.redemptions, |q.redemptions|)),
                [0, 0, 0, 0, 0, 0, 0], c.liveDaRoot(q.redemptions, q.messages), s.state.archivalDaRoot, q.anchor,
                q.shardId, GrossSum(q.redemptions, price), 0, q.expiryHeight)
  }

  lemma InputsAre(c: Crypto, s: NodeState, q: Submission, price: pos, b: Built)
    requires |q.redemptions| > 0 && GrossSum(q.redemptions, price) < TWO64
    requires b.leaves == LockHashes(c, q.redemptions, |q.redemptions|) && b.gross == GrossSum(q.redemptions, price)
    ensures InputsFor(c, s, q, b) == ClaimFor(c, s, q, price)
  {
    hide LockHashes, GrossSum;
    assert seq<Bytes32>(7, _ => 0) == [0, 0, 0, 0, 0, 0, 0];
  }

  /** An accepted claim reserves exactly the batch's cost at the quorum's price, for the
      batch's operator and until its expiry, under the name of what it commits to. */
  lemma SubmitReserves(c: Crypto, s: NodeState, q: Submission) returns (claim: PendingClaim, quote: pos)
    requires NodeInv(c, s) && DoSubmitClaim(c, s, q).1.Ok?
    ensures quote < TWO64 && Quoted(c, s, q, quote) && s.state.reservedPending + GrossSum(q.redemptions, quote) < TWO64
    ensures Submitted(c, s, q.redemptions, DoSubmitClaim(c, s, q).0, GrossSum(q.redemptions, quote), claim)
    ensures |q.redemptions| > 0 && GrossSum(q.redemptions, quote) < TWO64
    ensures claim.claimId == DoSubmitClaim(c, s, q).1.value == c.claimId(ClaimFor(c, s, q, quote))
    ensures claim == PendingClaim(claim.claimId, OperatorOf(q), GrossSum(q.redemptions, quote), q.anchor.height,
                                  q.expiryHeight, Pending)
    ensures DoSubmitClaim(c, s, q).0.reserve ==
      SubmitCustody(s.reserve, claim.claimId, claim.operatorId, claim.reserved)
  {
    hide *;
    InvRoots(c, s);
    var met := SubmitMet(c, s, q);
    var price, b, inputs, id, next := SubmitCases(c, s, q);
    SubmittedQuote(c, s, q, met);
    BuildingLinks(c, s, q, price, b, inputs, id, next);
    BuildingQuote(c, s, q, price, b, inputs, id, next);
    QuotedIs(c, s, q, met);
    WrapExact(s.state.anchorMtp + MTP_LAG_OFFSET);
    BuilderAgrees(c, s, q, price, b, inputs, id, next);
    ExactRun(c, s, q, price, b, inputs, id);
    var run := RunBatch(c, s.state, OperatorOf(q), price, q.tip, b.filled, |b.filled|).value;
    WholeBatch(c, s, q, price, run);
    MirroredSums(c, b, run);
    WrapExact(run.gross);
    claim, quote := OpenedClaim(id, inputs), price;
    BuildingExpiry(c, s, q, price, b, inputs, id, next);
    OpenedIs(id, inputs);
    BuildingFill(c, s, q, price, b, inputs, id, next);
    FillLeaves(c, s, price, q.redemptions, |q.redemptions|);
    BuildingName(c, s, q, price, b, inputs, id, next);
    InputsAre(c, s, q, price, b);
    ClaimForFields(c, s, q, price);
    AcceptedEffect(c, s, q, price, b, inputs, id, next, DoSubmitClaim(c, s, q).0.reserve);
    AcceptedView(c, s, inputs, id, b, next);
    SubmitKeeps(c, s, q);
  }

  lemma SubmittedQuote(c: Crypto, s: NodeState, q: Submission, price: u64)
    requires SubmittedAt(c, s, q, price)
    ensures Quoted(c, s, q, price)
  {
    hide Quoted, Settleable, Open, RedemptionCollides, ClaimIdOf, FalseAbsence;
  }

  lemma BuildingName(c: Crypto, s: NodeState, q: Submission, price: pos, b: Built, inputs: ClaimInputs, id: Bytes32,
                     next: StateRoot)
    requires Building(c, s, q, price, b, inputs, id, next)
    ensures |q.redemptions| > 0 && inputs == InputsFor(c, s, q, b) && id == c.claimId(inputs)
  {
    hide Fill, Proposed, QuorumPrice, InputsFor;
  }

  lemma ClaimForFields(c: Crypto, s: NodeState, q: Submission, price: pos)
    requires |q.redemptions| > 0 && GrossSum(q.redemptions, price) < TWO64
    ensures var inputs := ClaimFor(c, s, q, price);
      && inputs.operatorId == OperatorOf(q) && inputs.reimbursement == GrossSum(q.redemptions, price)
      && inputs.anchor == q.anchor && inputs.expiryHeight == q.expiryHeight
  {
    hide LockHashes, GrossSum, OperatorOf;
  }

  lemma OpenedIs(id: Bytes32, inputs: ClaimInputs)
    ensures OpenedClaim(id, inputs).claimId == id && OpenedClaim(id, inputs).expiryHeight == inputs.expiryHeight
    ensures OpenedClaim(id, inputs).operatorId == inputs.operatorId
      && OpenedClaim(id, inputs).reserved == inputs.reimbursement
    ensures OpenedClaim(id, inputs) ==
      PendingClaim(id, inputs.operatorId, inputs.reimbursement, inputs.anchor.height, inputs.expiryHeight, Pending)
  {
  }

  lemma AcceptedView(c: Crypto, s: NodeState, inputs: ClaimInputs, id: Bytes32, b: Built, next: StateRoot)
    requires DoAccept(c, s, inputs, id, b, next).1.Ok?
    ensures var t := DoAccept(c, s, inputs, id, b, next).0;
      && t == AfterClaim(c, s, inputs, id, b).(state := next, reserve := t.reserve)
      && DoAccept(c, s, inputs, id, b, next).1.value == id
      && t.reserve == SubmitCustody(s.reserve, id, inputs.operatorId, inputs.reimbursement)
  {
    hide RootsMatch, ReserveConsistent, SubmitCustody;
  }

  /** A batched claim is accepted exactly when it is quoted, each redemption can be settled on
      an open lock, and the claim id is new, up to a collision in a tree that says otherwise. */
  lemma SubmitIff(c: Crypto, s: NodeState, q: Submission)
    requires NodeInv(c, s)
    ensures forall price: u64 :: Submittable(c, s, q, price) ==> DoSubmitClaim(c, s, q).1.Ok?
    ensures DoSubmitClaim(c, s, q).1.Ok? ==> exists price: u64 :: SubmittedAt(c, s, q, price)
  {
    hide *;
    forall price: u64 | Submittable(c, s, q, price)
      ensures DoSubmitClaim(c, s, q).1.Ok?
    {
      SubmitAccepts(c, s, q, price);
    }
    if DoSubmitClaim(c, s, q).1.Ok? {
      var price := SubmitMet(c, s, q);
    }
  }

  ghost predicate SubmittedAt(c: Crypto, s: NodeState, q: Submission, price: u64) {
    && Quoted(c, s, q, price)
    && (forall k :: 0 <= k < |q.redemptions| ==>
         && Settleable(c, s.state.assetFamilyId, OperatorOf(q), price, q.tip, q.redemptions[k])
         && (Open(c, s, q.redemptions, k) || RedemptionCollides(c, s, q.redemptions, k)))
    && (ClaimIdOf(c, s, q, price) !in s.claims || FalseAbsence(c.poseidon2, s.pendingTree, ClaimIdOf(c, s, q, price)))
  }

  lemma SubmittedIs(c: Crypto, s: NodeState, q: Submission, price: u64)
    requires Quoted(c, s, q, price)
    requires |q.redemptions| > 0 && price > 0
    requires forall k :: 0 <= k < |q.redemptions| ==>
      && Settleable(c, s.state.assetFamilyId, OperatorOf(q), price, q.tip, q.redemptions[k])
      && (Open(c, s, q.redemptions, k) || RedemptionCollides(c, s, q.redemptions, k))
    requires ClaimIdOf(c, s, q, price) !in s.claims
      || FalseAbsence(c.poseidon2, s.pendingTree, ClaimIdOf(c, s, q, price))
    ensures SubmittedAt(c, s, q, price)
  {
    hide Quoted, Settleable, Open, RedemptionCollides, ClaimIdOf, FalseAbsence;
  }
}
