/** The claim builder against the claim verifier: the batch the node builds is the batch
    the verifier recomputes. */
module NodeClaim {
  import opened Options
  import opened Modular
  import opened Bytes
  import opened Smt
  import opened StateTypes
  import opened Aggregate
  import opened Claim
  import opened Reserve
  import opened NodeModel
  import opened NodeInvariant

  lemma FillUnfold(c: Crypto, s: NodeState, price: pos, rs: seq<Redemption>, k: nat)
    requires 0 < k <= |rs|
    ensures Fill(c, s, price, rs, k) == FillOne(c, s, price, rs[k - 1], Fill(c, s, price, rs, k - 1))
  {
    hide FillOne;
  }

  /** The proofs that redemption `k` was given. */
  lemma {:induction false} FilledAt(c: Crypto, s: NodeState, price: pos, rs: seq<Redemption>, n: nat, k: nat)
    requires k < n <= |rs|
    ensures var b := Fill(c, s, price, rs, k);
      var id := c.lockHash(rs[k].lock);
      Fill(c, s, price, rs, n).filled[k] == BatchRedemption(rs[k],
        OwnProof(c.poseidon2, s.lockTree, id), OwnProof(c.poseidon2, b.consumed, id),
        OwnProof(c.poseidon2, s.refundTree, id), OwnProof(c.poseidon2, b.nullifier, NullifierOf(c, rs[k].lock)))
  {
    hide OwnProof, Gross, NullifierOf, Wrap64;
    if k < n - 1 { FilledAt(c, s, price, rs, n - 1, k); }
  }

  lemma FilledData(c: Crypto, s: NodeState, price: pos, rs: seq<Redemption>)
    ensures DataOf(Fill(c, s, price, rs, |rs|).filled) == rs
  {
    var filled := Fill(c, s, price, rs, |rs|).filled;
    hide Fill, OwnProof;
    forall k | 0 <= k < |rs|
      ensures filled[k].data == rs[k]
    {
      FilledAt(c, s, price, rs, |rs|, k);
    }
  }

  /** The builder's accumulators stand for the verifier's. */
  ghost predicate Mirrors(c: Crypto, b: Built, run: Running) {
    && run.consumedRoot == TreeRoot(c.poseidon2, b.consumed)
    && run.nullifierRoot == TreeRoot(c.poseidon2, b.nullifier)
    && run.leaves == b.leaves
    && b.amount == Wrap64(run.amount) && b.gross == Wrap64(run.gross)
  }

  lemma WrapSum(a: int, b: int)
    ensures Wrap64(Wrap64(a) + b) == Wrap64(a + b)
    ensures Wrap64(Wrap64(a) + Wrap64(b)) == Wrap64(a + b)
  {
  }

  lemma AdvanceMirrors(c: Crypto, s: NodeState, price: pos, d: Redemption, b: Built, run: Running, r: BatchRedemption)
    requires Mirrors(c, b, run)
    requires r.data == d && r.unconsumed == OwnProof(c.poseidon2, b.consumed, c.lockHash(d.lock))
    requires r.unused == OwnProof(c.poseidon2, b.nullifier, NullifierOf(c, d.lock))
    ensures |r.unconsumed| == |r.unused| == HEIGHT
    ensures Mirrors(c, FillOne(c, s, price, d, b), Advance(c, price, r, run))
  {
    Own(c.poseidon2, b.consumed, c.lockHash(d.lock));
    Own(c.poseidon2, b.nullifier, NullifierOf(c, d.lock));
    WrapSum(run.amount, d.intent.amount);
    WrapSum(run.gross, Gross(d.lock.amount, price));
    hide TreeRoot, OwnProof, RootAfterUpdate, NullifierOf, Gross, Wrap64;
  }

  lemma StartMirrors(c: Crypto, s: NodeState, operatorId: Bytes32, price: pos, tip: u32, rs: seq<Redemption>,
                     filled: seq<BatchRedemption>)
    requires RootsMatch(c, s, s.state) && price < TWO64
    ensures RunBatch(c, s.state, operatorId, price, tip, filled, 0).Ok?
    ensures Mirrors(c, Fill(c, s, price, rs, 0), RunBatch(c, s.state, operatorId, price, tip, filled, 0).value)
  {
    hide TreeRoot;
  }

  lemma RunUnfold(c: Crypto, prev: StateRoot, operatorId: Bytes32, price: u64, tip: u32, rs: seq<BatchRedemption>,
                  k: nat)
    requires 0 < k <= |rs| && RunBatch(c, prev, operatorId, price, tip, rs, k).Ok?
    ensures RunBatch(c, prev, operatorId, price, tip, rs, k - 1).Ok? && price > 0
    ensures var run := RunBatch(c, prev, operatorId, price, tip, rs, k - 1).value;
      && CheckRedemption(c, prev, operatorId, price, tip, rs[k - 1], run).None?
      && |rs[k - 1].unconsumed| == |rs[k - 1].unused| == HEIGHT
      && RunBatch(c, prev, operatorId, price, tip, rs, k).value == Advance(c, price, rs[k - 1], run)
  {
    var run := RunBatch(c, prev, operatorId, price, tip, rs, k - 1);
    if run.Ok? && CheckRedemption(c, prev, operatorId, price, tip, rs[k - 1], run.value).None? {
      CheckedProofs(c, prev, operatorId, price, tip, rs[k - 1], run.value);
    }
    hide CheckRedemption, Advance;
  }

  /** Step for step the verifier's running roots are the roots of the builder's trees. */
  lemma {:induction false} BuilderMirrorsVerifier(c: Crypto, s: NodeState, operatorId: Bytes32, price: pos, tip: u32,
                                                  rs: seq<Redemption>, k: nat)
    requires RootsMatch(c, s, s.state) && price < TWO64 && k <= |rs|
    requires RunBatch(c, s.state, operatorId, price, tip, Fill(c, s, price, rs, |rs|).filled, k).Ok?
    ensures Mirrors(c, Fill(c, s, price, rs, k),
                    RunBatch(c, s.state, operatorId, price, tip, Fill(c, s, price, rs, |rs|).filled, k).value)
    decreases k
  {
    hide *;
    var filled := Fill(c, s, price, rs, |rs|).filled;
    if k == 0 {
      StartMirrors(c, s, operatorId, price, tip, rs, filled);
    } else {
      RunUnfold(c, s.state, operatorId, price, tip, filled, k);
      BuilderMirrorsVerifier(c, s, operatorId, price, tip, rs, k - 1);
      FilledAt(c, s, price, rs, |rs|, k - 1);
      FillUnfold(c, s, price, rs, k);
      AdvanceMirrors(c, s, price, rs[k - 1], Fill(c, s, price, rs, k - 1),
                     RunBatch(c, s.state, operatorId, price, tip, filled, k - 1).value, filled[k - 1]);
    }
  }

  // ------------------------------------------------------- unreachable refusals

  /** The refusals that would mean that the builder and the verifier disagree. */
  predicate Internal(e: ClaimReject) {
    || e.WrongTransitionType? || e.BadStateLinkage? || e.ClaimLinkageMismatch? || e.ClaimOracle? || e.EmptyBatch?
    || e.ReimbursementMismatch? || e.RedemptionBatchRootMismatch? || e.LiveDaRootMismatch? || e.ClaimIdMismatch?
    || e.PostStateMismatch? || e.ClaimPanicked?
  }

  lemma RedemptionNotInternal(c: Crypto, prev: StateRoot, operatorId: Bytes32, price: u64, tip: u32,
                              r: BatchRedemption, run: Running)
    requires price > 0 && CheckRedemption(c, prev, operatorId, price, tip, r, run).Some?
    ensures !Internal(CheckRedemption(c, prev, operatorId, price, tip, r, run).value)
  {
    hide VerifyInclusion, VerifyExclusion, NullifierOf, Gross, Times;
  }

  lemma {:induction false} BatchNotInternal(c: Crypto, prev: StateRoot, operatorId: Bytes32, price: u64, tip: u32,
                                            rs: seq<BatchRedemption>, k: nat)
    requires price > 0 && k <= |rs| && RunBatch(c, prev, operatorId, price, tip, rs, k).Err?
    ensures !Internal(RunBatch(c, prev, operatorId, price, tip, rs, k).error)
  {
    hide CheckRedemption, Advance, Internal;
    if k > 0 {
      if RunBatch(c, prev, operatorId, price, tip, rs, k - 1).Err? {
        BatchNotInternal(c, prev, operatorId, price, tip, rs, k - 1);
      } else {
        var run := RunBatch(c, prev, operatorId, price, tip, rs, k - 1).value;
        if CheckRedemption(c, prev, operatorId, price, tip, rs[k - 1], run).Some? {
          RedemptionNotInternal(c, prev, operatorId, price, tip, rs[k - 1], run);
        }
      }
    }
  }

  /** Everything `DoSubmitClaim` has in hand when it calls the verifier. */
  ghost predicate Building(c: Crypto, s: NodeState, q: Submission, price: pos, b: Built, inputs: ClaimInputs,
                           id: Bytes32, next: StateRoot) {
    && price < TWO64 && |q.redemptions| > 0
    && QuorumPrice(c, s.state, Wrap64(s.state.anchorMtp + MTP_LAG_OFFSET), q.anchor, q.messages, q.signerSet) ==
      Ok(price)
    && b == Fill(c, s, price, q.redemptions, |q.redemptions|)
    && inputs == InputsFor(c, s, q, b) && id == c.claimId(inputs)
    && Proposed(c, s, price, inputs, id, b) == Some(next)
  }

  lemma ExpectedIsProposed(c: Crypto, s: NodeState, price: u64, inputs: ClaimInputs, id: Bytes32, b: Built,
                           w: ClaimWitness, run: Running)
    requires Mirrors(c, b, run) && run.amount < TWO64 && run.gross < TWO64
    requires run.amount <= s.state.supply && s.state.reservedPending + run.gross < TWO64
    requires w.claim.inputs == inputs && w.claim.claimId == id
      && w.exclusion == OwnProof(c.poseidon2, s.pendingTree, id)
    ensures |w.exclusion| == HEIGHT
    ensures Expected(c, s.state, w, price, run) == Proposed(c, s, price, inputs, id, b)
  {
    hide TreeRoot, OwnProof, RootAfterUpdate, WithTier, Wrap64;
    WrapExact(run.amount);
    WrapExact(run.gross);
    WrapExact(s.state.supply - run.amount);
    WrapExact(s.state.reservedPending + run.gross);
    Own(c.poseidon2, s.pendingTree, id);
  }

  lemma TotalsNotInternal(c: Crypto, s: NodeState, q: Submission, price: pos, b: Built, inputs: ClaimInputs,
                          id: Bytes32, next: StateRoot, run: Running)
    requires Building(c, s, q, price, b, inputs, id, next) && Mirrors(c, b, run)
    requires run.gross >= 0
    ensures var refused := CheckTotals(c, s.state, next, WitnessFor(c, s, q, b, inputs, id, next), price, run);
      && (refused.Some? ==> !Internal(refused.value))
      && (refused.None? ==> && run.amount <= s.state.supply && s.state.reservedPending + run.gross < TWO64
                            && b.amount == run.amount && b.gross == run.gross)
  {
    var w := WitnessFor(c, s, q, b, inputs, id, next);
    FilledData(c, s, price, q.redemptions);
    if run.amount < TWO64 && run.gross < TWO64 {
      WrapExact(run.amount);
      WrapExact(run.gross);
      if run.amount <= s.state.supply && s.state.reservedPending + run.gross < TWO64 {
        ExpectedIsProposed(c, s, price, inputs, id, b, w, run);
      }
    }
    hide TreeRoot, OwnProof, RootAfterUpdate, WithTier, Wrap64, Expected, Proposed, Fill, QuorumPrice, VerifyExclusion,
      DataOf;
  }

  lemma ProposedLinks(c: Crypto, s: NodeState, price: u64, inputs: ClaimInputs, id: Bytes32, b: Built)
    requires Proposed(c, s, price, inputs, id, b).Some?
    ensures var next := Proposed(c, s, price, inputs, id, b).value;
      && next.transitionType == REDEEM_FAST_FINALIZE && next.stateEpoch == Wrap64(s.state.stateEpoch + 1)
      && next.prevStateRoot == c.stateHash(s.state)
      && next.consumedRoot == TreeRoot(c.poseidon2, b.consumed)
      && next.nullifierRoot == TreeRoot(c.poseidon2, b.nullifier)
      && next.pendingRoot ==
        RootAfterUpdate(c.poseidon2, id, c.pendingHash(OpenedClaim(id, inputs)),
                        OwnProof(c.poseidon2, s.pendingTree, id))
      && next.supply == Wrap64(s.state.supply - b.amount)
      && next.reservedPending == Wrap64(s.state.reservedPending + b.gross)
      && next.reserve == s.state.reserve && next.issuerRoot == s.state.issuerRoot
      && next.operatorRoot == s.state.operatorRoot
      && next.lockRoot == s.state.lockRoot && next.refundRoot == s.state.refundRoot
  {
    Own(c.poseidon2, s.pendingTree, id);
    hide TreeRoot, OwnProof, RootAfterUpdate, CollateralRatio, Wrap64;
  }

  /** The verifier once all links hold: three facts about the submission, the batch, and
      the totals. */
  lemma VerifyReduces(c: Crypto, prev: StateRoot, next: StateRoot, w: ClaimWitness, price: u64)
    requires next.transitionType == REDEEM_FAST_FINALIZE && next.stateEpoch == Wrap64(prev.stateEpoch + 1)
    requires next.prevStateRoot == c.stateHash(prev) == w.claim.inputs.prevStateRoot
      && w.claim.newStateRoot == c.stateHash(next)
    requires w.claim.inputs.transitionType == REDEEM_FAST_FINALIZE && |w.redemptions| > 0
    requires prev.anchorMtp + MTP_LAG_OFFSET < TWO64 ==>
      QuorumPrice(c, prev, prev.anchorMtp + MTP_LAG_OFFSET, w.claim.inputs.anchor, w.messages, w.signerSet) == Ok(price)
    ensures var r := VerifyClaim(c, prev, next, w);
      var run := RunBatch(c, prev, w.claim.inputs.operatorId, price, w.tip, w.redemptions, |w.redemptions|);
      || r == Some(ClaimOverflow) || r == Some(ChainTimeInconsistent) || r == Some(OraclePriceMismatch)
      || (run.Err? && r == Some(run.error)) || (run.Ok? && r == CheckTotals(c, prev, next, w, price, run.value))
  {
    hide QuorumPrice, RunBatch, CheckTotals, Wrap64;
  }

  lemma BuildingVerified(c: Crypto, s: NodeState, q: Submission, price: pos, b: Built, inputs: ClaimInputs,
                         id: Bytes32, next: StateRoot)
    requires Building(c, s, q, price, b, inputs, id, next)
    ensures var w := WitnessFor(c, s, q, b, inputs, id, next);
      var r := VerifyClaim(c, s.state, next, w);
      var run := RunBatch(c, s.state, inputs.operatorId, price, q.tip, b.filled, |b.filled|);
      || r == Some(ClaimOverflow) || r == Some(ChainTimeInconsistent) || r == Some(OraclePriceMismatch)
      || (run.Err? && r == Some(run.error)) || (run.Ok? && r == CheckTotals(c, s.state, next, w, price, run.value))
  {
    hide QuorumPrice, RunBatch, CheckTotals, Wrap64, Proposed, OwnProof, TreeRoot, VerifyClaim, FillOne;
    ProposedLinks(c, s, price, inputs, id, b);
    if s.state.anchorMtp + MTP_LAG_OFFSET < TWO64 { WrapExact(s.state.anchorMtp + MTP_LAG_OFFSET); }
    VerifyReduces(c, s.state, next, WitnessFor(c, s, q, b, inputs, id, next), price);
  }

  lemma BuildingRun(c: Crypto, s: NodeState, q: Submission, price: pos, b: Built, inputs: ClaimInputs, id: Bytes32,
                    next: StateRoot)
    requires RootsMatch(c, s, s.state) && Building(c, s, q, price, b, inputs, id, next)
    ensures |b.filled| == |q.redemptions|
    ensures var run := RunBatch(c, s.state, inputs.operatorId, price, q.tip, b.filled, |b.filled|);
      && (run.Err? ==> !Internal(run.error))
      && (run.Ok? ==> Mirrors(c, b, run.value))
  {
    hide QuorumPrice, RunBatch, Wrap64, Proposed, OwnProof, TreeRoot, Internal, RootsMatch, FillOne, Mirrors;
    var run := RunBatch(c, s.state, inputs.operatorId, price, q.tip, b.filled, |b.filled|);
    if run.Ok? {
      BuilderMirrorsVerifier(c, s, inputs.operatorId, price, q.tip, q.redemptions, |q.redemptions|);
    } else {
      BatchNotInternal(c, s.state, inputs.operatorId, price, q.tip, b.filled, |b.filled|);
    }
  }

  /** What an accepted submission guarantees: exact totals and an unused claim id. */
  ghost predicate Exact(c: Crypto, s: NodeState, q: Submission, price: pos, b: Built, inputs: ClaimInputs, id: Bytes32)
    requires price < TWO64
  {
    && RunBatch(c, s.state, inputs.operatorId, price, q.tip, b.filled, |b.filled|).Ok?
    && var run := RunBatch(c, s.state, inputs.operatorId, price, q.tip, b.filled, |b.filled|).value;
    && run.amount <= s.state.supply && s.state.reservedPending + run.gross < TWO64
    && b.amount == run.amount && b.gross == run.gross
    && VerifyExclusion(c.poseidon2, s.state.pendingRoot, id, OwnProof(c.poseidon2, s.pendingTree, id))
  }

  /** The verifier never catches the builder out: whatever it refuses is a fact about the
      submission.  When it accepts, the totals are exact and the claim id was checked. */
  lemma BuilderAgrees(c: Crypto, s: NodeState, q: Submission, price: pos, b: Built, inputs: ClaimInputs, id: Bytes32,
                      next: StateRoot)
    requires RootsMatch(c, s, s.state) && Building(c, s, q, price, b, inputs, id, next)
    ensures var refused := VerifyClaim(c, s.state, next, WitnessFor(c, s, q, b, inputs, id, next));
      && (refused.Some? ==> !Internal(refused.value))
      && (refused.None? ==> Exact(c, s, q, price, b, inputs, id))
  {
    hide QuorumPrice, RunBatch, Wrap64, Proposed, OwnProof, TreeRoot, RootsMatch, Fill, Mirrors, CheckTotals,
      VerifyClaim, VerifyExclusion, Building;
    var w := WitnessFor(c, s, q, b, inputs, id, next);
    BuildingPrice(c, s, q, price, b, inputs, id, next);
    BuildingVerified(c, s, q, price, b, inputs, id, next);
    BuildingRun(c, s, q, price, b, inputs, id, next);
    var run := RunBatch(c, s.state, inputs.operatorId, price, q.tip, b.filled, |b.filled|);
    if run.Ok? {
      TotalsNotInternal(c, s, q, price, b, inputs, id, next, run.value);
      TotalsCheckExclusion(c, s.state, next, w, price, run.value);
    }
  }

  lemma BuildingPrice(c: Crypto, s: NodeState, q: Submission, price: pos, b: Built, inputs: ClaimInputs, id: Bytes32,
                      next: StateRoot)
    requires Building(c, s, q, price, b, inputs, id, next)
    ensures price < TWO64
  {
    hide Fill, Proposed, InputsFor, QuorumPrice;
  }

  lemma TotalsCheckExclusion(c: Crypto, prev: StateRoot, next: StateRoot, w: ClaimWitness, price: u64, run: Running)
    ensures CheckTotals(c, prev, next, w, price, run).None? ==>
      VerifyExclusion(c.poseidon2, prev.pendingRoot, w.claim.claimId, w.exclusion)
  {
    hide VerifyExclusion, Expected, DataOf;
  }

  // ------------------------------------------------------------ the transition

  lemma {:induction false} FillOnlySets(c: Crypto, s: NodeState, price: pos, rs: seq<Redemption>, k: nat)
    requires k <= |rs| && OnlySetMembers(s.consumedTree) && OnlySetMembers(s.nullifierTree)
    ensures OnlySetMembers(Fill(c, s, price, rs, k).consumed) && OnlySetMembers(Fill(c, s, price, rs, k).nullifier)
  {
    hide OnlySetMembers, OwnProof, Gross, NullifierOf;
    if k > 0 {
      FillOnlySets(c, s, price, rs, k - 1);
      SetInsert(Fill(c, s, price, rs, k - 1).consumed, c.lockHash(rs[k - 1].lock));
      SetInsert(Fill(c, s, price, rs, k - 1).nullifier, NullifierOf(c, rs[k - 1].lock));
    }
  }

  lemma SubmitBooks(b: Custody, claims: map<Bytes32, PendingClaim>, p: PendingClaim)
    requires BooksMatch(b, claims) && p.status.Pending?
    ensures BooksMatch(SubmitCustody(b, p.claimId, p.operatorId, p.reserved), claims[p.claimId := p])
    ensures ViewOf(SubmitCustody(b, p.claimId, p.operatorId, p.reserved)) ==
      ReserveView(ViewOf(b).total, Wrap64(ViewOf(b).reserved + p.reserved))
  {
    hide Wrap64;
  }

  lemma AcceptedKeeps(c: Crypto, s: NodeState, q: Submission, price: pos, b: Built, inputs: ClaimInputs, id: Bytes32,
                      next: StateRoot)
    requires NodeInv(c, s) && Building(c, s, q, price, b, inputs, id, next)
    requires price < TWO64 && Exact(c, s, q, price, b, inputs, id)
    ensures RootsMatch(c, AfterClaim(c, s, inputs, id, b), next)
    ensures var custody := SubmitCustody(s.reserve, id, inputs.operatorId, inputs.reimbursement);
      var s' := AfterClaim(c, s, inputs, id, b).(state := next, reserve := custody);
      NodeInv(c, s')
  {
    hide TreeRoot, OwnProof, RootAfterUpdate, Wrap64, Proposed, FillOne, QuorumPrice, VerifyExclusion, RunBatch,
      IssuersMatch, OperatorsMatch, ClaimsMatch, BooksMatch, OnlySetMembers, SubmitCustody, ViewOf;
    ProposedLinks(c, s, price, inputs, id, b);
    FillOnlySets(c, s, price, q.redemptions, |q.redemptions|);
    Own(c.poseidon2, s.pendingTree, id);
    ClaimsInsert(c, s.pendingTree, s.claims, OpenedClaim(id, inputs));
    SubmitBooks(s.reserve, s.claims, OpenedClaim(id, inputs));
    WrapExact(s.state.reservedPending + b.gross);
  }

  /** The three ways a submission can go: refused, or built and refused, or accepted. */
  lemma SubmitCases(c: Crypto, s: NodeState, q: Submission)
      returns (price: pos, b: Built, inputs: ClaimInputs, id: Bytes32, next: StateRoot)
    ensures var (s', r) := DoSubmitClaim(c, s, q);
      || (s' == s && r.Err? && (r.error.OracleErr? || r.error.Panicked?))
      || (Building(c, s, q, price, b, inputs, id, next)
          && var refused := VerifyClaim(c, s.state, next, WitnessFor(c, s, q, b, inputs, id, next));
             if refused.Some? then s' == s && r == Err(ClaimErr(refused.value))
               else (s', r) == DoAccept(c, s, inputs, id, b, next))
  {
    hide TreeRoot, OwnProof, Wrap64, Proposed, Fill, QuorumPrice, VerifyClaim, RootsMatch, InputsFor, WitnessFor,
      DoAccept;
    var p := QuorumPrice(c, s.state, Wrap64(s.state.anchorMtp + MTP_LAG_OFFSET), q.anchor, q.messages, q.signerSet);
    var quoted: u64 := if p.Ok? && p.value > 0 then p.value else 1;
    price := quoted;
    b := Fill(c, s, price, q.redemptions, |q.redemptions|);
    next := s.state;
    if |q.redemptions| > 0 {
      inputs := InputsFor(c, s, q, b);
      id := c.claimId(inputs);
      var n := Proposed(c, s, quoted, inputs, id, b);
      if n.Some? { next := n.value; }
    } else {
      inputs := ClaimInputs(0, 0, 0, 0, [], 0, 0, q.anchor, 0, 0, 0, 0);
      id := 0;
    }
  }

  lemma SubmitKeeps(c: Crypto, s: NodeState, q: Submission)
    requires NodeInv(c, s)
    ensures var (s', r) := DoSubmitClaim(c, s, q);
      && NodeInv(c, s') && r != Err(InvariantViolation) && (r.Err? ==> s' == s)
      && (r.Err? && r.error.ClaimErr? ==> !Internal(r.error.claim))
  {
    hide DoSubmitClaim, Building, VerifyClaim, WitnessFor, Exact, AfterClaim, SubmitCustody, Internal, TreeRoot, ViewOf,
      IssuersMatch, OperatorsMatch, ClaimsMatch, BooksMatch, SetsOnly;
    var price, b, inputs, id, next := SubmitCases(c, s, q);
    if Building(c, s, q, price, b, inputs, id, next) {
      BuildingPrice(c, s, q, price, b, inputs, id, next);
      BuilderAgrees(c, s, q, price, b, inputs, id, next);
      if VerifyClaim(c, s.state, next, WitnessFor(c, s, q, b, inputs, id, next)).None? {
        AcceptedKeeps(c, s, q, price, b, inputs, id, next);
        AfterClaimReserve(c, s, inputs, id, b);
      }
    }
  }

  lemma AfterClaimReserve(c: Crypto, s: NodeState, inputs: ClaimInputs, id: Bytes32, b: Built)
    ensures AfterClaim(c, s, inputs, id, b).reserve == s.reserve
  {
  }
}
