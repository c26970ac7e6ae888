/** The state root from one step to the next: every accepted transition follows the state
    before it, leaves the settings alone, and stores the ratio and tier of its own books. */
module NodeStates {
  import opened Options
  import opened Modular
  import opened Bytes
  import opened Smt
  import opened StateTypes
  import opened Transitions
  import opened Claim
  import opened Reserve
  import opened NodeModel
  import opened NodeInvariant
  import opened NodeClaim
  import opened NodeRuns

  /** The transitions that write a new state root, and the byte each one signs it with. */
  function Code(op: NodeOp): nat {
    match op
    case MintCommit(_, _) => 0x01
    case MintFinalize(_, _) => 0x02
    case RedeemLock(_) => 0x10
    case SubmitClaim(_) => 0x11
    case LockRefund(_) => 0x12
    case OperatorRegister(_) => 0x20
    case IssuerRegister(_) => 0x21
    case ReclaimClaim(_, _) => 0x30
    case FinalizeOp(_, _, _, _) => 0x31
    case _ => 0
  }

  /** The next state counts on, and commits to the whole state before it. */
  predicate Follows(c: Crypto, t: StateRoot, t': StateRoot, code: nat) {
    && t'.stateEpoch == (t.stateEpoch + 1) % 0x1_0000_0000_0000_0000
    && t'.prevStateRoot == c.stateHash(t) && t'.transitionType == code
  }

  predicate SameSettings(t: StateRoot, t': StateRoot) {
    && t'.protocolVersion == t.protocolVersion && t'.assetFamilyId == t.assetFamilyId
    && t'.oracleSetHash == t.oracleSetHash && t'.oracleSetEpoch == t.oracleSetEpoch
    && t'.latestOracleEpochSeen == t.latestOracleEpochSeen
    && t'.reserveCommitteeHash == t.reserveCommitteeHash && t'.archivalDaRoot == t.archivalDaRoot
    && t'.anchorHash == t.anchorHash && t'.anchorHeight == t.anchorHeight
    && t'.anchorMtp == t.anchorMtp && t'.anchorChainTime == t.anchorChainTime
  }

  /** The books that ratio and tier are about did not move, and neither did they. */
  predicate SamePricing(t: StateRoot, t': StateRoot) {
    && t'.supply == t.supply && t'.reserve == t.reserve && t'.latestPrice == t.latestPrice
    && t'.collateralRatioPpm == t.collateralRatioPpm && t'.emergencyTier == t.emergencyTier
  }

  lemma StillTiered(t: StateRoot, t': StateRoot)
    requires SamePricing(t, t')
    ensures Tiered(t) ==> Tiered(t')
  {
  }

  /** A step that stores ratio and tier, or leaves them and their books alone. */
  predicate Proceeds(c: Crypto, t: StateRoot, t': StateRoot, code: nat) {
    Follows(c, t, t', code) && SameSettings(t, t') && (SamePricing(t, t') || Tiered(t'))
  }

  // ---------------------------------------------------------------- the executors

  lemma RegisterIssuerState(c: Crypto, prev: StateRoot, p: IssuerPosition, proof: Proof)
    requires |proof| == HEIGHT && RegisterIssuer(c, prev, p, proof).Ok?
    ensures var next := RegisterIssuer(c, prev, p, proof).value;
      Follows(c, prev, next, 0x21) && SameSettings(prev, next) && SamePricing(prev, next)
      && next.liveDaRoot == prev.liveDaRoot
  {
    hide VerifyExclusion, RootAfterUpdate, DistinctKeys;
  }

  lemma RegisterOperatorState(c: Crypto, prev: StateRoot, p: OperatorPosition, proof: Proof)
    requires |proof| == HEIGHT && RegisterOperator(c, prev, p, proof).Ok?
    ensures var next := RegisterOperator(c, prev, p, proof).value;
      Follows(c, prev, next, 0x20) && SameSettings(prev, next) && SamePricing(prev, next)
      && next.liveDaRoot == prev.liveDaRoot
  {
    hide VerifyExclusion, RootAfterUpdate;
  }

  lemma ApplyLockState(c: Crypto, prev: StateRoot, w: LockWitness, proof: Proof)
    requires |proof| == HEIGHT && ApplyLock(c, prev, w, proof).Ok?
    ensures var next := ApplyLock(c, prev, w, proof).value;
      Follows(c, prev, next, 0x10) && SameSettings(prev, next) && SamePricing(prev, next)
      && next.liveDaRoot == prev.liveDaRoot
  {
    hide VerifyExclusion, RootAfterUpdate, CheckBinding;
  }

  lemma ApplyRefundState(c: Crypto, prev: StateRoot, w: RefundWitness, member: Proof, unconsumed: Proof,
                         unrefunded: Proof)
    requires |unrefunded| == HEIGHT && ApplyRefund(c, prev, w, member, unconsumed, unrefunded).Ok?
    ensures var next := ApplyRefund(c, prev, w, member, unconsumed, unrefunded).value;
      Follows(c, prev, next, 0x12) && SameSettings(prev, next) && SamePricing(prev, next)
      && next.liveDaRoot == prev.liveDaRoot
  {
    hide VerifyExclusion, VerifyInclusion, RootAfterUpdate, CheckBinding;
  }

  lemma ReclaimStaleState(c: Crypto, prev: StateRoot, p: PendingClaim, proof: Proof, height: u32)
    requires |proof| == HEIGHT && ReclaimStale(c, prev, p, proof, height).Ok?
    ensures var next := ReclaimStale(c, prev, p, proof, height).value;
      Follows(c, prev, next, 0x30) && SameSettings(prev, next) && SamePricing(prev, next)
      && next.liveDaRoot == prev.liveDaRoot
  {
    hide VerifyInclusion, RootAfterUpdate;
  }

  /** Recomputing ratio and tier keeps everything else. */
  lemma Recomputed(c: Crypto, prev: StateRoot, s: StateRoot, code: nat)
    requires Follows(c, prev, s, code) && SameSettings(prev, s) && WithTier(s, s.latestPrice).Some?
    ensures var next := WithTier(s, s.latestPrice).value;
      && Follows(c, prev, next, code) && SameSettings(prev, next) && Tiered(next)
      && next.latestPrice == s.latestPrice && next.liveDaRoot == s.liveDaRoot
  {
    hide WithTier, Tiered;
    WithTierIs(s, s.latestPrice);
  }

  lemma SameTier(s: StateRoot, s': StateRoot)
    requires SamePricing(s, s') && Tiered(s)
    ensures Tiered(s')
  {
  }

  lemma WithIssuerState(c: Crypto, prev: StateRoot, s: StateRoot, code: nat, price: u64, p: IssuerPosition,
                        proof: Proof)
    requires |proof| == HEIGHT && WithIssuer(c, s, price, p, proof).Ok?
    requires Follows(c, prev, s, code) && SameSettings(prev, s)
    ensures var next := WithIssuer(c, s, price, p, proof).value;
      && Follows(c, prev, next, code) && SameSettings(prev, next) && Tiered(next)
      && next.latestPrice == price && next.liveDaRoot == s.liveDaRoot
  {
    Recomputed(c, prev, s.(latestPrice := price), code);
    hide WithTier, Tiered, RootAfterUpdate;
    SameTier(WithTier(s.(latestPrice := price), price).value, WithIssuer(c, s, price, p, proof).value);
  }

  lemma CommitMintState(c: Crypto, prev: StateRoot, p: IssuerPosition, proof: Proof, w: MintCommitWitness)
    requires |proof| == HEIGHT && CommitMint(c, prev, p, proof, w).Ok?
    ensures var next := CommitMint(c, prev, p, proof, w).value;
      && Follows(c, prev, next, 0x01) && SameSettings(prev, next) && Tiered(next)
      && next.latestPrice == w.price && next.liveDaRoot == prev.liveDaRoot
  {
    hide CollateralRatio, VerifyInclusion, SignersOf, CommitteeHash, WithIssuer, IssuerAfterCommit, Tiered;
    var s := NextState(c, prev, MINT_COMMIT).(reserve := prev.reserve + w.depositSats);
    WithIssuerState(c, prev, s, 0x01, w.price, IssuerAfterCommit(c, p, w).value, proof);
  }

  lemma FinalizeMintState(c: Crypto, prev: StateRoot, p: IssuerPosition, proof: Proof, w: MintFinalizeWitness)
    requires |proof| == HEIGHT && FinalizeMint(c, prev, p, proof, w).Ok?
    ensures var next := FinalizeMint(c, prev, p, proof, w).value;
      && Follows(c, prev, next, 0x02) && SameSettings(prev, next) && Tiered(next)
      && next.latestPrice == w.price && next.liveDaRoot == prev.liveDaRoot
  {
    hide CollateralRatio, VerifyInclusion, WithIssuer, IssuerAfterFinalize, Tiered;
    var s := NextState(c, prev, MINT_FINALIZE).(supply := prev.supply + w.request.atoms);
    WithIssuerState(c, prev, s, 0x02, w.price, IssuerAfterFinalize(p, w.request.atoms).value, proof);
  }

  lemma FinalizeClaimState(c: Crypto, prev: StateRoot, p: PendingClaim, proof: Proof, committee: Committee,
                           approvals: seq<MultisigSig>, height: u32)
    requires |proof| == HEIGHT && FinalizeClaim(c, prev, p, proof, committee, approvals, height).Ok?
    ensures var next := FinalizeClaim(c, prev, p, proof, committee, approvals, height).value;
      && Follows(c, prev, next, 0x31) && SameSettings(prev, next) && Tiered(next)
      && next.latestPrice == prev.latestPrice && next.liveDaRoot == prev.liveDaRoot
  {
    hide WithTier, VerifyInclusion, SignersOf, CommitteeHash, RootAfterUpdate, Tiered;
    var paid := NextState(c, prev, FINALIZE_CLAIM).(
      reservedPending := prev.reservedPending - p.reserved,
      reserve := prev.reserve - p.reserved,
      pendingRoot := RootAfterUpdate(c.poseidon2, p.claimId, c.pendingHash(p.(status := Finalized)), proof));
    Recomputed(c, prev, paid, 0x31);
  }

  lemma ProposedState(c: Crypto, s: NodeState, price: u64, inputs: ClaimInputs, id: Bytes32, b: Built)
    requires Proposed(c, s, price, inputs, id, b).Some?
    ensures var next := Proposed(c, s, price, inputs, id, b).value;
      && Follows(c, s.state, next, 0x11) && SameSettings(s.state, next) && Tiered(next)
      && next.latestPrice == price && next.liveDaRoot == inputs.liveDaRoot
  {
    hide WithTier, TreeRoot, OwnProof, RootAfterUpdate, Tiered;
    var t := NextState(c, s.state, REDEEM_FAST_FINALIZE).(
      supply := Wrap64(s.state.supply - b.amount),
      reservedPending := Wrap64(s.state.reservedPending + b.gross),
      latestPrice := price,
      consumedRoot := TreeRoot(c.poseidon2, b.consumed),
      nullifierRoot := TreeRoot(c.poseidon2, b.nullifier),
      liveDaRoot := inputs.liveDaRoot,
      pendingRoot :=
        RootAfterUpdate(c.poseidon2, id, c.pendingHash(OpenedClaim(id, inputs)),
                        OwnProof(c.poseidon2, s.pendingTree, id)));
    Recomputed(c, s.state, t, 0x11);
  }

  // --------------------------------------------------------------------- the node

  /** The price that a transition writes down. */
  predicate Prices(c: Crypto, s: NodeState, op: NodeOp, t': StateRoot) {
    match op
    case MintCommit(_, w) => t'.latestPrice == w.price && t'.liveDaRoot == s.state.liveDaRoot
    case MintFinalize(_, w) => t'.latestPrice == w.price && t'.liveDaRoot == s.state.liveDaRoot
    case SubmitClaim(q) =>
      && QuorumPrice(c, s.state, (s.state.anchorMtp + 3600) % 0x1_0000_0000_0000_0000, q.anchor, q.messages,
                     q.signerSet) == Ok(t'.latestPrice)
      && t'.liveDaRoot == c.liveDaRoot(q.redemptions, q.messages)
    case _ => t'.latestPrice == s.state.latestPrice && t'.liveDaRoot == s.state.liveDaRoot
  }

  lemma CommitState(c: Crypto, s: NodeState, next: StateRoot)
    requires Commit(c, s, next).1.Ok?
    ensures Commit(c, s, next).0.state == next
  {
    hide RootsMatch;
  }

  lemma RegistrationsProceed(c: Crypto, s: NodeState, op: NodeOp)
    requires (op.IssuerRegister? || op.OperatorRegister?) && NodeStep(c, s, op).1.Ok?
    ensures var t' := NodeStep(c, s, op).0.state; Proceeds(c, s.state, t', Code(op)) && Prices(c, s, op, t')
  {
    hide RegisterIssuer, RegisterOperator, OwnProof, RootsMatch, QuorumPrice, Tiered;
    match op {
      case IssuerRegister(p) =>
        RegisterIssuerState(c, s.state, p, OwnProof(c.poseidon2, s.issuerTree, p.issuerId));
      case OperatorRegister(p) =>
        RegisterOperatorState(c, s.state, p, OwnProof(c.poseidon2, s.operatorTree, p.operatorId));
    }
  }

  lemma MintsProceed(c: Crypto, s: NodeState, op: NodeOp)
    requires (op.MintCommit? || op.MintFinalize?) && NodeStep(c, s, op).1.Ok?
    ensures var t' := NodeStep(c, s, op).0.state; Proceeds(c, s.state, t', Code(op)) && Prices(c, s, op, t')
  {
    hide CommitMint, FinalizeMint, OwnProof, RootsMatch, QuorumPrice, Tiered, IssuerAfterCommit, IssuerAfterFinalize,
      ReserveConsistent, CreditCustody;
    match op {
      case MintCommit(id, w) =>
        CommitMintState(c, s.state, s.issuers[id], OwnProof(c.poseidon2, s.issuerTree, id), w);
      case MintFinalize(id, w) =>
        FinalizeMintState(c, s.state, s.issuers[id], OwnProof(c.poseidon2, s.issuerTree, id), w);
    }
  }

  lemma LocksProceed(c: Crypto, s: NodeState, op: NodeOp)
    requires (op.RedeemLock? || op.LockRefund?) && NodeStep(c, s, op).1.Ok?
    ensures var t' := NodeStep(c, s, op).0.state; Proceeds(c, s.state, t', Code(op)) && Prices(c, s, op, t')
  {
    hide ApplyLock, ApplyRefund, OwnProof, RootsMatch, QuorumPrice, Tiered;
    match op {
      case RedeemLock(w) =>
        ApplyLockState(c, s.state, w, OwnProof(c.poseidon2, s.lockTree, c.lockHash(w.lock)));
      case LockRefund(w) =>
        var id := c.lockHash(w.lock);
        ApplyRefundState(c, s.state, w, OwnProof(c.poseidon2, s.lockTree, id),
                         OwnProof(c.poseidon2, s.consumedTree, id),
                         OwnProof(c.poseidon2, s.refundTree, id));
    }
  }

  lemma ReclaimProceeds(c: Crypto, s: NodeState, op: NodeOp)
    requires op.ReclaimClaim? && NodeStep(c, s, op).1.Ok?
    ensures var t' := NodeStep(c, s, op).0.state; Proceeds(c, s.state, t', Code(op)) && Prices(c, s, op, t')
  {
    hide ReclaimStale, OwnProof, RootsMatch, QuorumPrice, Tiered, ReclaimCustody, ReserveConsistent;
    ReclaimStaleState(c, s.state, s.claims[op.claimId], OwnProof(c.poseidon2, s.pendingTree, op.claimId), op.height);
  }

  lemma FinalizeProceeds(c: Crypto, s: NodeState, op: NodeOp)
    requires op.FinalizeOp? && NodeStep(c, s, op).1.Ok?
    ensures var t' := NodeStep(c, s, op).0.state; Proceeds(c, s.state, t', Code(op)) && Prices(c, s, op, t')
  {
    hide FinalizeClaim, OwnProof, RootsMatch, QuorumPrice, Tiered, ApproveCustody, FinalizeCustody, ReserveConsistent;
    FinalizeClaimState(c, s.state, s.claims[op.claimId], OwnProof(c.poseidon2, s.pendingTree, op.claimId),
                       op.committee, op.approvals, op.height);
  }

  lemma AcceptState(c: Crypto, s: NodeState, inputs: ClaimInputs, id: Bytes32, b: Built, next: StateRoot)
    requires DoAccept(c, s, inputs, id, b, next).1.Ok?
    ensures DoAccept(c, s, inputs, id, b, next).0.state == next
  {
    hide RootsMatch, ReserveConsistent, SubmitCustody;
  }

  lemma BuildingInputs(c: Crypto, s: NodeState, q: Submission, price: pos, b: Built, inputs: ClaimInputs, id: Bytes32,
                       next: StateRoot)
    requires Building(c, s, q, price, b, inputs, id, next)
    ensures price < TWO64 && Proposed(c, s, price, inputs, id, b) == Some(next)
    ensures inputs.liveDaRoot == c.liveDaRoot(q.redemptions, q.messages)
    ensures QuorumPrice(c, s.state, (s.state.anchorMtp + 3600) % 0x1_0000_0000_0000_0000, q.anchor, q.messages,
                        q.signerSet) == Ok(price)
  {
    hide Fill, Proposed, QuorumPrice;
  }

  lemma SubmitProceeds(c: Crypto, s: NodeState, q: Submission)
    requires DoSubmitClaim(c, s, q).1.Ok?
    ensures var t' := DoSubmitClaim(c, s, q).0.state;
      && Follows(c, s.state, t', 0x11) && SameSettings(s.state, t') && Tiered(t')
      && QuorumPrice(c, s.state, (s.state.anchorMtp + 3600) % 0x1_0000_0000_0000_0000, q.anchor, q.messages,
                     q.signerSet) == Ok(t'.latestPrice)
      && t'.liveDaRoot == c.liveDaRoot(q.redemptions, q.messages)
  {
    hide *;
    var price, b, inputs, id, next := SubmitCases(c, s, q);
    BuildingInputs(c, s, q, price, b, inputs, id, next);
    ProposedState(c, s, price, inputs, id, b);
    AcceptState(c, s, inputs, id, b, next);
  }

  lemma SubmitIsProceeding(c: Crypto, s: NodeState, op: NodeOp, t': StateRoot)
    requires op.SubmitClaim? && Follows(c, s.state, t', 0x11) && SameSettings(s.state, t') && Tiered(t')
    requires QuorumPrice(c, s.state, (s.state.anchorMtp + 3600) % 0x1_0000_0000_0000_0000, op.submission.anchor,
                         op.submission.messages, op.submission.signerSet) == Ok(t'.latestPrice)
    requires t'.liveDaRoot == c.liveDaRoot(op.submission.redemptions, op.submission.messages)
    ensures Proceeds(c, s.state, t', Code(op)) && Prices(c, s, op, t')
  {
    hide Follows, SameSettings, Tiered, QuorumPrice;
  }

  lemma SubmitStep(c: Crypto, s: NodeState, op: NodeOp)
    requires op.SubmitClaim?
    ensures NodeStep(c, s, op) == DoSubmitClaim(c, s, op.submission)
  {
    hide DoSubmitClaim;
  }

  /** Every accepted transition proceeds from the state before it, and writes down the price
      that it was given. */
  lemma StepProceeds(c: Crypto, s: NodeState, op: NodeOp)
    requires Code(op) != 0 && NodeStep(c, s, op).1.Ok?
    ensures var t' := NodeStep(c, s, op).0.state; Proceeds(c, s.state, t', Code(op)) && Prices(c, s, op, t')
  {
    hide NodeStep, Proceeds, Prices;
    match op {
      case IssuerRegister(_) => RegistrationsProceed(c, s, op);
      case OperatorRegister(_) => RegistrationsProceed(c, s, op);
      case MintCommit(_, _) => MintsProceed(c, s, op);
      case MintFinalize(_, _) => MintsProceed(c, s, op);
      case RedeemLock(_) => LocksProceed(c, s, op);
      case LockRefund(_) => LocksProceed(c, s, op);
      case ReclaimClaim(_, _) => ReclaimProceeds(c, s, op);
      case FinalizeOp(_, _, _, _) => FinalizeProceeds(c, s, op);
      case SubmitClaim(q) =>
        SubmitStep(c, s, op);
        SubmitProceeds(c, s, q);
        SubmitIsProceeding(c, s, op, NodeStep(c, s, op).0.state);
    }
  }

  /** A call that changes the configuration moves only the anchor and the committee. */
  lemma ConfigState(c: Crypto, s: NodeState, op: NodeOp)
    requires Code(op) == 0
    ensures var t, t' := s.state, NodeStep(c, s, op).0.state;
      match op
      case SetAnchor(height, hash, mtp) =>
        t' == t.(anchorHeight := height, anchorHash := hash, anchorMtp := mtp,
                 anchorChainTime := (mtp + 3600) % 0x1_0000_0000_0000_0000)
      case SetCommittee(hash) => t' == t.(reserveCommitteeHash := hash)
      case UseMultisig(m) => t' == t.(reserveCommitteeHash := c.committeeHash(m.threshold, multiset(m.keys)))
      case RotateCommittee(m) => t' == t.(reserveCommitteeHash := c.committeeHash(m.threshold, multiset(m.keys)))
      case _ => t' == t
  {
    hide VetoCustody, Rotated;
  }

  lemma ConfigPricing(c: Crypto, s: NodeState, op: NodeOp)
    requires Code(op) == 0
    ensures SamePricing(s.state, NodeStep(c, s, op).0.state)
    ensures NodeStep(c, s, op).0.state.stateEpoch == s.state.stateEpoch
  {
    hide NodeStep;
    ConfigState(c, s, op);
  }

  // ------------------------------------------------------------- what a call returns

  lemma TransitionReturns(c: Crypto, s: NodeState, op: NodeOp)
    requires Code(op) != 0 && !op.SubmitClaim? && NodeStep(c, s, op).1.Ok?
    ensures NodeStep(c, s, op).1.value == c.stateHash(NodeStep(c, s, op).0.state)
  {
    hide RootsMatch, ReserveConsistent, RegisterIssuer, RegisterOperator, CommitMint, FinalizeMint, ApplyLock,
      ApplyRefund,
      ReclaimStale, FinalizeClaim, ReclaimCustody, ApproveCustody, FinalizeCustody, CreditCustody, IssuerAfterCommit,
      IssuerAfterFinalize, OwnProof;
  }

  /** What a configuration call answers: only a veto can be refused, for a claim that the
      committee custody does not hold. */
  lemma ConfigReturns(c: Crypto, s: NodeState, op: NodeOp)
    requires Code(op) == 0
    ensures NodeStep(c, s, op).1.Err? <==>
      op.VetoClaim? && s.reserve.MultisigCustody? && op.claimId !in s.reserve.multisig.pending
    ensures NodeStep(c, s, op).1.Err? ==> NodeStep(c, s, op).1.error == ReserveRefused(UnknownClaim)
  {
    hide Rotated, CommitteeHash;
  }

  /** The members of a committee custody that no configuration call may touch, or only so. */
  predicate SameMoney(a: MultisigState, b: MultisigState) {
    && b.total == a.total && b.reserved == a.reserved && b.pending.Keys == a.pending.Keys
    && forall id :: id in a.pending ==>
      && b.pending[id].operatorId == a.pending[id].operatorId && b.pending[id].amount == a.pending[id].amount
      && b.pending[id].finalized == a.pending[id].finalized
  }

  /** What a configuration call does to a committee custody. */
  lemma ConfigCustody(c: Crypto, s: NodeState, op: NodeOp, m: MultisigState)
    requires Code(op) == 0 && !op.UseMultisig? && s.reserve == MultisigCustody(m)
    ensures NodeStep(c, s, op).0.reserve.MultisigCustody?
    ensures var m' := NodeStep(c, s, op).0.reserve.multisig;
      && SameMoney(m, m')
      && m'.committee == (if op.RotateCommittee? then op.committee else m.committee)
      && m'.paused == (if op.PauseReserve? then Some(op.reason) else if op.ResumeReserve? then None else m.paused)
      && forall id :: id in m.pending ==>
        && m'.pending[id].approvals == (if op.RotateCommittee? then [] else m.pending[id].approvals)
        && m'.pending[id].vetoed == (m.pending[id].vetoed || (op.VetoClaim? && op.claimId == id))
  {
    hide CommitteeHash;
  }

  /** A swap starts an empty committee custody on the recorded reserve; nothing else touches a
      plain one. */
  lemma PlainCustody(c: Crypto, s: NodeState, op: NodeOp)
    requires Code(op) == 0
    ensures op.UseMultisig? ==>
      NodeStep(c, s, op).0.reserve == MultisigCustody(MultisigState(s.state.reserve, 0, op.committee, None, map[]))
    ensures !op.UseMultisig? && s.reserve.MockCustody? ==> NodeStep(c, s, op).0.reserve == s.reserve
  {
    hide CommitteeHash;
  }

  // ------------------------------------------------------------------- whole runs

  /** How many transitions of a run were accepted. */
  function Accepted(c: Crypto, s: NodeState, ops: seq<NodeOp>): nat {
    if |ops| == 0 then 0 else
    var before, op := ops[..|ops| - 1], ops[|ops| - 1];
    Accepted(c, s, before) + if Code(op) != 0 && NodeStep(c, NodeRun(c, s, before), op).1.Ok? then 1 else 0
  }

  lemma StepCounts(c: Crypto, s: NodeState, op: NodeOp)
    requires NodeInv(c, s) && SwapAllowed(s, op)
    ensures var (s', r) := NodeStep(c, s, op);
      && s'.state.stateEpoch == (s.state.stateEpoch + if Code(op) != 0 && r.Ok? then 1 else 0) % 0x1_0000_0000_0000_0000
      && (Tiered(s.state) ==> Tiered(s'.state))
  {
    hide NodeStep, NodeInv, SwapAllowed, Tiered;
    StepKeeps(c, s, op);
    if Code(op) == 0 {
      ConfigPricing(c, s, op);
      StillTiered(s.state, NodeStep(c, s, op).0.state);
    } else if NodeStep(c, s, op).1.Ok? {
      StepProceeds(c, s, op);
      if SamePricing(s.state, NodeStep(c, s, op).0.state) { StillTiered(s.state, NodeStep(c, s, op).0.state); }
    }
  }

  lemma GenesisTiered(c: Crypto, family: Bytes32, oracleSetHash: Bytes32, epoch: u64, price: u64)
    ensures Tiered(Genesis(c, family, oracleSetHash, epoch, price).state)
    ensures Genesis(c, family, oracleSetHash, epoch, price).state.stateEpoch == 0
  {
    hide TreeRoot;
  }

  lemma CountOn(a: nat, b: nat)
    ensures (a % 0x1_0000_0000_0000_0000 + b) % 0x1_0000_0000_0000_0000 == (a + b) % 0x1_0000_0000_0000_0000
  {
  }

  /** Over every run that swaps custody as documented: the epoch is the number of accepted
      transitions, modulo 2^64, and the stored ratio and tier are always those of the stored
      reserve, supply and price. */
  lemma {:induction false} RunProceeds(c: Crypto, family: Bytes32, oracleSetHash: Bytes32, epoch: u64, price: u64,
                                       ops: seq<NodeOp>)
    requires SwapsAllowed(c, Genesis(c, family, oracleSetHash, epoch, price), ops)
    ensures var g := Genesis(c, family, oracleSetHash, epoch, price);
      && NodeRun(c, g, ops).state.stateEpoch == Accepted(c, g, ops) % 0x1_0000_0000_0000_0000
      && Tiered(NodeRun(c, g, ops).state)
  {
    hide NodeStep, NodeInv, Genesis, SwapAllowed, Tiered, Code;
    var g := Genesis(c, family, oracleSetHash, epoch, price);
    if |ops| == 0 {
      GenesisTiered(c, family, oracleSetHash, epoch, price);
    } else {
      var before, op := ops[..|ops| - 1], ops[|ops| - 1];
      RunProceeds(c, family, oracleSetHash, epoch, price, before);
      RunKeeps(c, family, oracleSetHash, epoch, price, before);
      var s := NodeRun(c, g, before);
      StepCounts(c, s, op);
      CountOn(Accepted(c, g, before), if Code(op) != 0 && NodeStep(c, s, op).1.Ok? then 1 else 0);
    }
  }

  /** The anchor that was set last, with the chain time an hour after its median time past. */
  function LastAnchor(ops: seq<NodeOp>): (u32, Bytes32, u64, u64) {
    if |ops| == 0 then (0, 0, 0, 0) else
    match ops[|ops| - 1]
    case SetAnchor(height, hash, mtp) => (height, hash, mtp, (mtp + 3600) % 0x1_0000_0000_0000_0000)
    case _ => LastAnchor(ops[..|ops| - 1])
  }

  /** The reserve committee that was committed to last. */
  function LastCommittee(c: Crypto, ops: seq<NodeOp>): Bytes32 {
    if |ops| == 0 then 0 else
    match ops[|ops| - 1]
    case SetCommittee(hash) => hash
    case UseMultisig(m) => c.committeeHash(m.threshold, multiset(m.keys))
    case RotateCommittee(m) => c.committeeHash(m.threshold, multiset(m.keys))
    case _ => LastCommittee(c, ops[..|ops| - 1])
  }

  predicate Configured(c: Crypto, family: Bytes32, oracleSetHash: Bytes32, epoch: u64, ops: seq<NodeOp>, t: StateRoot) {
    && t.protocolVersion == 1 && t.assetFamilyId == family && t.oracleSetHash == oracleSetHash
    && t.oracleSetEpoch == epoch == t.latestOracleEpochSeen && t.archivalDaRoot == TreeRoot(c.poseidon2, map[])
    && (t.anchorHeight, t.anchorHash, t.anchorMtp, t.anchorChainTime) == LastAnchor(ops)
    && t.reserveCommitteeHash == LastCommittee(c, ops)
  }

  lemma GenesisConfigured(c: Crypto, family: Bytes32, oracleSetHash: Bytes32, epoch: u64, price: u64)
    ensures var t := Genesis(c, family, oracleSetHash, epoch, price).state;
      && Configured(c, family, oracleSetHash, epoch, [], t)
      && t.prevStateRoot == 0 && t.transitionType == 0 && t.latestPrice == price
      && t.liveDaRoot == TreeRoot(c.poseidon2, map[])
  {
    hide TreeRoot;
  }

  /** What a call does to the two. */
  lemma LastOf(c: Crypto, before: seq<NodeOp>, op: NodeOp)
    ensures LastAnchor(before + [op]) == match op
      case SetAnchor(height, hash, mtp) => (height, hash, mtp, (mtp + 3600) % 0x1_0000_0000_0000_0000)
      case _ => LastAnchor(before)
    ensures LastCommittee(c, before + [op]) == match op
      case SetCommittee(hash) => hash
      case UseMultisig(m) => c.committeeHash(m.threshold, multiset(m.keys))
      case RotateCommittee(m) => c.committeeHash(m.threshold, multiset(m.keys))
      case _ => LastCommittee(c, before)
  {
    var ops := before + [op];
    assert ops[|ops| - 1] == op && ops[..|ops| - 1] == before;
  }

  lemma SettingsStay(c: Crypto, family: Bytes32, oracleSetHash: Bytes32, epoch: u64, before: seq<NodeOp>,
                     op: NodeOp, t: StateRoot, t': StateRoot)
    requires Configured(c, family, oracleSetHash, epoch, before, t) && SameSettings(t, t') && Code(op) != 0
    ensures Configured(c, family, oracleSetHash, epoch, before + [op], t')
  {
    hide TreeRoot, LastAnchor, LastCommittee;
    LastOf(c, before, op);
  }

  lemma SettingsChange(c: Crypto, family: Bytes32, oracleSetHash: Bytes32, epoch: u64, s: NodeState,
                       before: seq<NodeOp>, op: NodeOp)
    requires Configured(c, family, oracleSetHash, epoch, before, s.state) && Code(op) == 0
    ensures Configured(c, family, oracleSetHash, epoch, before + [op], NodeStep(c, s, op).0.state)
  {
    hide TreeRoot, LastAnchor, LastCommittee, NodeStep;
    LastOf(c, before, op);
    ConfigState(c, s, op);
  }

  lemma ProceedsKeeps(c: Crypto, t: StateRoot, t': StateRoot, code: nat)
    requires Proceeds(c, t, t', code)
    ensures SameSettings(t, t')
  {
  }

  lemma UntouchedState(s: NodeState, s': NodeState)
    requires Untouched(s, s')
    ensures SameSettings(s.state, s'.state)
  {
  }

  lemma StepConfigured(c: Crypto, family: Bytes32, oracleSetHash: Bytes32, epoch: u64, s: NodeState,
                       before: seq<NodeOp>, op: NodeOp)
    requires NodeInv(c, s) && SwapAllowed(s, op) && Configured(c, family, oracleSetHash, epoch, before, s.state)
    ensures Configured(c, family, oracleSetHash, epoch, before + [op], NodeStep(c, s, op).0.state)
  {
    hide *;
    StepKeeps(c, s, op);
    if Code(op) == 0 {
      SettingsChange(c, family, oracleSetHash, epoch, s, before, op);
    } else {
      var s' := NodeStep(c, s, op).0;
      if NodeStep(c, s, op).1.Ok? {
        StepProceeds(c, s, op);
        ProceedsKeeps(c, s.state, s'.state, Code(op));
      } else {
        UntouchedState(s, s');
      }
      SettingsStay(c, family, oracleSetHash, epoch, before, op, s.state, s'.state);
    }
  }

  /** Over every such run: version, asset family, oracle set and archival root are those of the
      first state, and anchor and committee are the ones set last. */
  lemma {:induction false} RunConfigured(c: Crypto, family: Bytes32, oracleSetHash: Bytes32, epoch: u64, price: u64,
                                         ops: seq<NodeOp>)
    requires SwapsAllowed(c, Genesis(c, family, oracleSetHash, epoch, price), ops)
    ensures Configured(c, family, oracleSetHash, epoch, ops,
                       NodeRun(c, Genesis(c, family, oracleSetHash, epoch, price), ops).state)
  {
    hide NodeStep, NodeInv, Genesis, SwapAllowed, Configured;
    var g := Genesis(c, family, oracleSetHash, epoch, price);
    if |ops| == 0 {
      GenesisConfigured(c, family, oracleSetHash, epoch, price);
    } else {
      var before, op := ops[..|ops| - 1], ops[|ops| - 1];
      RunConfigured(c, family, oracleSetHash, epoch, price, before);
      RunKeeps(c, family, oracleSetHash, epoch, price, before);
      StepConfigured(c, family, oracleSetHash, epoch, NodeRun(c, g, before), before, op);
      assert before + [op] == ops;
    }
  }
}
