/** The committee custody inside the node: what it stores stays valid over every run,
    whatever the node does. */
module NodeCustody {
  import opened Options
  import opened Bytes
  import opened Smt
  import opened StateTypes
  import opened Transitions
  import opened Claim
  import opened Reserve
  import opened NodeModel

  predicate CustodyGood(c: Crypto, b: Custody) {
    b.MultisigCustody? ==> AllGood(c, b.multisig)
  }

  lemma CustodyCallsKeep(c: Crypto, b: Custody, id: Bytes32, operatorId: Bytes32, sats: u64)
    requires CustodyGood(c, b)
    ensures CustodyGood(c, CreditCustody(b, sats)) && CustodyGood(c, SubmitCustody(b, id, operatorId, sats))
    ensures CustodyGood(c, FinalizeCustody(c, b, id).0) && CustodyGood(c, ReclaimCustody(b, id).0)
      && CustodyGood(c, VetoCustody(b, id).0)
  {
    if b.MultisigCustody? {
      StepKeepsGood(c, b.multisig, Op.Credit(sats));
      StepKeepsGood(c, b.multisig, Submit(id, operatorId, sats));
      StepKeepsGood(c, b.multisig, Finalize(id));
      StepKeepsGood(c, b.multisig, Reclaim(id));
      StepKeepsGood(c, b.multisig, Veto(id));
    }
    hide AllGood, SignersOf, MultisigFinalize, MultisigReclaim, MultisigSubmit, VetoedState, Wrap64;
  }

  lemma {:induction false} ApprovalsKeepGood(c: Crypto, b: Custody, id: Bytes32, approvals: seq<MultisigSig>, k: nat)
    requires k <= |approvals| && CustodyGood(c, b)
    ensures CustodyGood(c, ApproveCustody(c, b, id, approvals, k).0)
  {
    hide AllGood, Approved;
    if k > 0 && b.MultisigCustody? {
      ApprovalsKeepGood(c, b, id, approvals, k - 1);
      var before := ApproveCustody(c, b, id, approvals, k - 1).0;
      if before.MultisigCustody? { StepKeepsGood(c, before.multisig, Approve(id, approvals[k - 1])); }
    }
  }

  lemma ReplacedKeepGood(c: Crypto, m: MultisigState, committee: Committee, paused: Option<PauseReason>)
    requires AllGood(c, m)
    ensures AllGood(c, Rotated(m, committee)) && AllGood(c, m.(paused := paused))
  {
    hide ApprovalsGood;
    StepKeepsGood(c, m, Rotate(committee));
    assert forall id :: id in m.pending ==> ApprovalsGood(c, m, id);
    forall id | id in m.pending
      ensures ApprovalsGood(c, m.(paused := paused), id)
    {
      SameApprovals(c, m, paused, id);
    }
  }

  lemma SameApprovals(c: Crypto, m: MultisigState, paused: Option<PauseReason>, id: Bytes32)
    requires id in m.pending && ApprovalsGood(c, m, id)
    ensures ApprovalsGood(c, m.(paused := paused), id)
  {
  }

  /** Where the custody of the next state comes from. */
  lemma CommitCustody(c: Crypto, s: NodeState, id: Bytes32, w: MintCommitWitness)
    ensures DoMintCommit(c, s, id, w).0.reserve == s.reserve
      || DoMintCommit(c, s, id, w).0.reserve == CreditCustody(s.reserve, w.depositSats)
  {
    hide CommitMint, OwnProof, RootsMatch, ReserveConsistent, CreditCustody, IssuerAfterCommit;
  }

  lemma FinalizedCustody(c: Crypto, s: NodeState, id: Bytes32, f: MintFinalizeWitness)
    ensures DoMintFinalize(c, s, id, f).0.reserve == s.reserve
  {
    hide FinalizeMint, OwnProof, RootsMatch, IssuerAfterFinalize;
  }

  lemma CommitSame(c: Crypto, s: NodeState, next: StateRoot, r: Outcome)
    ensures Commit(c, s, next).0.reserve == s.reserve && Checked(s, r).0 == s
  {
    hide RootsMatch, ReserveConsistent;
  }

  lemma WithClaimSame(c: Crypto, s: NodeState, id: Bytes32, p: PendingClaim)
    ensures WithClaim(c, s, id, p).reserve == s.reserve
  {
  }

  lemma ReclaimedCustody(c: Crypto, s: NodeState, id: Bytes32, height: u32)
    ensures DoReclaim(c, s, id, height).0.reserve == s.reserve
      || DoReclaim(c, s, id, height).0.reserve == ReclaimCustody(s.reserve, id).0
  {
    hide ReclaimStale, OwnProof, Commit, Checked, WithClaim, ReclaimCustody;
    if id in s.claims && ReclaimStale(c, s.state, s.claims[id], OwnProof(c.poseidon2, s.pendingTree, id), height).Ok? {
      var next := ReclaimStale(c, s.state, s.claims[id], OwnProof(c.poseidon2, s.pendingTree, id), height).value;
      var t := WithClaim(c, s, id, s.claims[id].(status := Reclaimed));
      WithClaimSame(c, s, id, s.claims[id].(status := Reclaimed));
      var (s', r) := Commit(c, t, next);
      CommitSame(c, t, next, r);
      CommitSame(c, s'.(reserve := ReclaimCustody(s'.reserve, id).0), next, r);
    }
  }

  lemma PaidCustody(c: Crypto, s: NodeState, id: Bytes32, committee: Committee, approvals: seq<MultisigSig>,
                    height: u32)
    ensures var b := DoFinalize(c, s, id, committee, approvals, height).0.reserve;
      var approved := ApproveCustody(c, s.reserve, id, approvals, |approvals|).0;
      b == s.reserve || b == approved || b == FinalizeCustody(c, approved, id).0
  {
    hide FinalizeClaim, OwnProof, Commit, Checked, WithClaim, ApproveCustody, FinalizeCustody;
    if id in s.claims
      && FinalizeClaim(c, s.state, s.claims[id], OwnProof(c.poseidon2, s.pendingTree, id), committee, approvals,
                       height).Ok? {
      var next := FinalizeClaim(c, s.state, s.claims[id], OwnProof(c.poseidon2, s.pendingTree, id), committee,
                                approvals, height).value;
      var b := FinalizeCustody(c, ApproveCustody(c, s.reserve, id, approvals, |approvals|).0, id).0;
      var t := WithClaim(c, s.(reserve := b), id, s.claims[id].(status := Finalized));
      WithClaimSame(c, s.(reserve := b), id, s.claims[id].(status := Finalized));
      var (s', r) := Commit(c, t, next);
      CommitSame(c, t, next, r);
      CommitSame(c, s', next, r);
    }
  }

  lemma AcceptedCustody(c: Crypto, s: NodeState, inputs: ClaimInputs, id: Bytes32, b: Built, next: StateRoot)
    ensures var r := DoAccept(c, s, inputs, id, b, next).0.reserve;
      r == s.reserve || r == SubmitCustody(s.reserve, id, inputs.operatorId, inputs.reimbursement)
  {
    hide RootsMatch, ReserveConsistent, SubmitCustody;
  }

  lemma SubmittedCustody(c: Crypto, s: NodeState, q: Submission)
    ensures var r := DoSubmitClaim(c, s, q).0.reserve;
      r == s.reserve || exists id: Bytes32, operatorId: Bytes32, amount: u64 ::
        r == SubmitCustody(s.reserve, id, operatorId, amount)
  {
    hide QuorumPrice, Fill, InputsFor, Proposed, VerifyClaim, WitnessFor, DoAccept, SubmitCustody, Wrap64;
    var price := QuorumPrice(c, s.state, Wrap64(s.state.anchorMtp + MTP_LAG_OFFSET), q.anchor, q.messages, q.signerSet);
    if price.Ok? && |q.redemptions| > 0 && price.value > 0 {
      var b := Fill(c, s, price.value, q.redemptions, |q.redemptions|);
      var inputs := InputsFor(c, s, q, b);
      var next := Proposed(c, s, price.value, inputs, c.claimId(inputs), b);
      if next.Some? { AcceptedCustody(c, s, inputs, c.claimId(inputs), b, next.value); }
    }
  }

  lemma IssuerCustody(c: Crypto, s: NodeState, p: IssuerPosition)
    ensures DoIssuerRegister(c, s, p).0.reserve == s.reserve
  {
    hide RegisterIssuer, OwnProof, RootsMatch;
  }

  lemma OperatorCustody(c: Crypto, s: NodeState, p: OperatorPosition)
    ensures DoOperatorRegister(c, s, p).0.reserve == s.reserve
  {
    hide RegisterOperator, OwnProof, RootsMatch;
  }

  lemma LockCustody(c: Crypto, s: NodeState, w: LockWitness)
    ensures DoRedeemLock(c, s, w).0.reserve == s.reserve
  {
    hide ApplyLock, OwnProof, RootsMatch;
  }

  lemma RefundCustody(c: Crypto, s: NodeState, w: RefundWitness)
    ensures DoLockRefund(c, s, w).0.reserve == s.reserve
  {
    hide ApplyRefund, OwnProof, RootsMatch;
  }

  lemma SwappedReserve(c: Crypto, s: NodeState, committee: Committee)
    ensures DoUseMultisig(c, s, committee).reserve ==
      MultisigCustody(MultisigState(s.state.reserve, 0, committee, None, map[]))
    ensures DoRotate(c, s, committee).reserve ==
      match s.reserve {
        case MockCustody(m) => s.reserve
        case MultisigCustody(m) => MultisigCustody(Rotated(m, committee))
      }
  {
    hide CommitteeHash, Rotated;
  }

  lemma UsedCustody(c: Crypto, s: NodeState, committee: Committee)
    requires CustodyGood(c, s.reserve)
    ensures CustodyGood(c, DoUseMultisig(c, s, committee).reserve) && CustodyGood(c, DoRotate(c, s, committee).reserve)
  {
    hide AllGood, DoUseMultisig, DoRotate, Rotated;
    SwappedReserve(c, s, committee);
    NothingStored(c, MultisigState(s.state.reserve, 0, committee, None, map[]));
    if s.reserve.MultisigCustody? { ReplacedKeepGood(c, s.reserve.multisig, committee, None); }
  }

  lemma PausedCustody(c: Crypto, s: NodeState, paused: Option<PauseReason>)
    requires CustodyGood(c, s.reserve)
    ensures CustodyGood(c, DoPause(s, paused).reserve)
  {
    hide AllGood, Rotated;
    if s.reserve.MultisigCustody? { ReplacedKeepGood(c, s.reserve.multisig, s.reserve.multisig.committee, paused); }
  }

  lemma AnchoredCustody(s: NodeState, height: u32, hash: Bytes32, mtp: u64)
    ensures DoSetAnchor(s, height, hash, mtp).reserve == s.reserve
  {
  }

  /** One call, accepted or not. */
  lemma StepKeepsCustody(c: Crypto, s: NodeState, op: NodeOp)
    requires CustodyGood(c, s.reserve)
    ensures CustodyGood(c, NodeStep(c, s, op).0.reserve)
  {
    hide CustodyGood, DoIssuerRegister, DoOperatorRegister, DoMintCommit, DoMintFinalize, DoRedeemLock, DoLockRefund,
      DoSubmitClaim, DoReclaim, DoFinalize, CreditCustody, ReclaimCustody, SubmitCustody, FinalizeCustody,
      ApproveCustody, DoUseMultisig, DoRotate, DoPause, DoVeto, DoSetAnchor;
    match op
    case MintCommit(id, w) => CommitCustody(c, s, id, w); CustodyCallsKeep(c, s.reserve, id, 0, w.depositSats);
    case MintFinalize(id, w) => FinalizedCustody(c, s, id, w);
    case ReclaimClaim(id, height) => ReclaimedCustody(c, s, id, height); CustodyCallsKeep(c, s.reserve, id, 0, 0);
    case FinalizeOp(id, committee, approvals, height) =>
      PaidCustody(c, s, id, committee, approvals, height);
      ApprovalsKeepGood(c, s.reserve, id, approvals, |approvals|);
      CustodyCallsKeep(c, ApproveCustody(c, s.reserve, id, approvals, |approvals|).0, id, 0, 0);
    case SubmitClaim(q) =>
      SubmittedCustody(c, s, q);
      forall id: Bytes32, operatorId: Bytes32, amount: u64
        ensures CustodyGood(c, SubmitCustody(s.reserve, id, operatorId, amount))
      {
        CustodyCallsKeep(c, s.reserve, id, operatorId, amount);
      }
    case UseMultisig(committee) => UsedCustody(c, s, committee);
    case RotateCommittee(committee) => UsedCustody(c, s, committee);
    case PauseReserve(reason) => PausedCustody(c, s, Some(reason));
    case ResumeReserve => PausedCustody(c, s, None);
    case VetoClaim(id) => VetoedCustody(s, id); CustodyCallsKeep(c, s.reserve, id, 0, 0);
    case SetAnchor(height, hash, mtp) => AnchoredCustody(s, height, hash, mtp);
    case SetCommittee(_) =>
    case IssuerRegister(p) => IssuerCustody(c, s, p);
    case OperatorRegister(o) => OperatorCustody(c, s, o);
    case RedeemLock(l) => LockCustody(c, s, l);
    case LockRefund(r) => RefundCustody(c, s, r);
  }

  lemma VetoedCustody(s: NodeState, id: Bytes32)
    ensures DoVeto(s, id).0.reserve == VetoCustody(s.reserve, id).0
  {
    hide VetoCustody;
  }

  lemma NothingStored(c: Crypto, m: MultisigState)
    requires m.pending == map[]
    ensures AllGood(c, m)
  {
  }

  /** Over every run from genesis, swaps and rotations included: the approvals that the
      custody stores are valid and from distinct members of its current committee. */
  lemma {:induction false} RunKeepsCustody(c: Crypto, family: Bytes32, oracleSetHash: Bytes32, epoch: u64, price: u64,
                                           ops: seq<NodeOp>)
    ensures CustodyGood(c, NodeRun(c, Genesis(c, family, oracleSetHash, epoch, price), ops).reserve)
  {
    if |ops| == 0 {
      hide TreeRoot;
      assert NodeRun(c, Genesis(c, family, oracleSetHash, epoch, price), ops).reserve.MockCustody?;
    } else {
      hide NodeStep, Genesis, CustodyGood;
      RunKeepsCustody(c, family, oracleSetHash, epoch, price, ops[..|ops| - 1]);
      StepKeepsCustody(c, NodeRun(c, Genesis(c, family, oracleSetHash, epoch, price), ops[..|ops| - 1]),
                       ops[|ops| - 1]);
    }
  }
}
