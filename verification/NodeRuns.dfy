/** The invariant over whole runs, and the one call that can break it. */
module NodeRuns {
  import opened Options
  import opened Bytes
  import opened Smt
  import opened StateTypes
  import opened Transitions
  import opened Reserve
  import opened NodeModel
  import opened NodeInvariant
  import opened NodeClaim

  /** Custody is swapped only when no claim is pending and nothing is reserved. */
  ghost predicate SwapAllowed(s: NodeState, op: NodeOp) {
    op.UseMultisig? ==> NoPending(s.claims) && s.state.reservedPending == 0
  }

  ghost predicate NoPending(claims: map<Bytes32, PendingClaim>) {
    forall id :: id in claims ==> !claims[id].status.Pending?
  }

  lemma BooksWithoutPending(b: Custody, b': Custody, claims: map<Bytes32, PendingClaim>)
    requires BooksMatch(b, claims) && NoPending(claims)
    ensures BooksMatch(b', claims)
  {
    hide HeldFor;
  }

  lemma FreshCustodyHoldsNothing(claims: map<Bytes32, PendingClaim>, m: MultisigState)
    requires m.pending == map[] && BooksMatch(MultisigCustody(m), claims)
    ensures NoPending(claims)
  {
  }

  /** The parts of a state root that the invariant is about. */
  predicate SameBooks(a: StateRoot, b: StateRoot) {
    && a.issuerRoot == b.issuerRoot && a.operatorRoot == b.operatorRoot && a.pendingRoot == b.pendingRoot
    && a.lockRoot == b.lockRoot
    && a.consumedRoot == b.consumedRoot && a.refundRoot == b.refundRoot && a.nullifierRoot == b.nullifierRoot
    && a.reserve == b.reserve && a.reservedPending == b.reservedPending
  }

  /** A change of configuration or custody keeps the invariant exactly when the new custody
      is in step. */
  lemma ConfigFrame(c: Crypto, s: NodeState, state: StateRoot, b: Custody)
    requires NodeInv(c, s) && SameBooks(s.state, state)
    ensures NodeInv(c, s.(state := state, reserve := b)) <==>
      ViewOf(b) == ViewOf(s.reserve) && BooksMatch(b, s.claims)
  {
    hide TreeRoot, IssuersMatch, OperatorsMatch, ClaimsMatch, BooksMatch, OnlySetMembers, ViewOf;
  }

  /** Swapping the custody keeps the invariant exactly under that condition. */
  lemma SwapKeepsIff(c: Crypto, s: NodeState, committee: Committee)
    requires NodeInv(c, s)
    ensures NodeInv(c, DoUseMultisig(c, s, committee)) <==> NoPending(s.claims) && s.state.reservedPending == 0
  {
    var m := MultisigState(s.state.reserve, 0, committee, None, map[]);
    assert ViewOf(s.reserve) == ReserveView(s.state.reserve, s.state.reservedPending) && BooksMatch(s.reserve, s.claims)
      by { hide RootsMatch, IssuersMatch, OperatorsMatch, ClaimsMatch, BooksMatch, SetsOnly, ViewOf; }
    hide NodeInv, BooksMatch, CommitteeHash, NoPending;
    ConfigFrame(c, s, s.state.(reserveCommitteeHash := CommitteeHash(c, committee)), MultisigCustody(m));
    if NoPending(s.claims) {
      BooksWithoutPending(s.reserve, MultisigCustody(m), s.claims);
    }
    if BooksMatch(MultisigCustody(m), s.claims) {
      FreshCustodyHoldsNothing(s.claims, m);
    }
  }

  /** The claim is closed and no longer counted in the state root. */
  predicate Released(s: NodeState, s': NodeState, id: Bytes32) {
    && id in s.claims && id in s'.claims && s'.claims[id].status.Reclaimed?
    && s'.state.reservedPending == s.state.reservedPending - s.claims[id].reserved
  }

  lemma DueReclaim(c: Crypto, prev: StateRoot, p: PendingClaim, proof: Proof, height: u32)
    requires |proof| == HEIGHT && p.status.Pending? && height > p.expiryHeight && p.reserved <= prev.reservedPending
    requires VerifyInclusion(c.poseidon2, prev.pendingRoot, p.claimId, c.pendingHash(p), proof)
    ensures ReclaimStale(c, prev, p, proof, height).Ok?
    ensures ReclaimStale(c, prev, p, proof, height).value ==
      NextState(c, prev, RECLAIM_STALE_CLAIM).(
        reservedPending := prev.reservedPending - p.reserved,
        pendingRoot := RootAfterUpdate(c.poseidon2, p.claimId, c.pendingHash(p.(status := Reclaimed)), proof))
  {
    hide VerifyInclusion, RootAfterUpdate;
  }

  /** A due reclaim of a claim that the custody does not hold. */
  lemma LostReclaim(c: Crypto, s: NodeState, id: Bytes32, height: u32)
    requires RootsMatch(c, s, s.state) && ClaimsMatch(c, s.pendingTree, s.claims)
    requires id in s.claims && s.claims[id].status.Pending? && height > s.claims[id].expiryHeight
    requires s.claims[id].reserved <= s.state.reservedPending && ReclaimCustody(s.reserve, id).1.Err?
    ensures DoReclaim(c, s, id, height).1 == Err(InvariantViolation) && Released(s, DoReclaim(c, s, id, height).0, id)
  {
    Own(c.poseidon2, s.pendingTree, id);
    ClaimsAt(c, s.pendingTree, s.claims, id);
    hide TreeRoot, OwnProof, VerifyInclusion, RootAfterUpdate, ClaimsMatch, Wrap64, ReclaimCustody, ReclaimStale,
      ViewOf;
    DueReclaim(c, s.state, s.claims[id], OwnProof(c.poseidon2, s.pendingTree, id), height);
  }

  lemma SwappedParts(c: Crypto, s: NodeState, committee: Committee, id: Bytes32)
    requires NodeInv(c, s)
    ensures var t := DoUseMultisig(c, s, committee);
      && RootsMatch(c, t, t.state) && ClaimsMatch(c, t.pendingTree, t.claims) && t.claims == s.claims
      && t.state.reservedPending == s.state.reservedPending && ReclaimCustody(t.reserve, id).1.Err?
  {
    hide TreeRoot, IssuersMatch, OperatorsMatch, ClaimsMatch, BooksMatch, OnlySetMembers, CommitteeHash, Wrap64, ViewOf;
  }

  /** How the internal error is reached otherwise: after such a swap a due reclaim reports
      it, when the state root has already moved on. */
  lemma SwapBreaksReclaim(c: Crypto, s: NodeState, committee: Committee, id: Bytes32, height: u32)
    requires NodeInv(c, s) && id in s.claims && s.claims[id].status.Pending? && height > s.claims[id].expiryHeight
    requires s.claims[id].reserved <= s.state.reservedPending
    ensures DoReclaim(c, DoUseMultisig(c, s, committee), id, height).1 == Err(InvariantViolation)
    ensures Released(s, DoReclaim(c, DoUseMultisig(c, s, committee), id, height).0, id)
  {
    hide NodeInv, DoUseMultisig, DoReclaim, RootsMatch, ClaimsMatch, ReclaimCustody;
    SwappedParts(c, s, committee, id);
    LostReclaim(c, DoUseMultisig(c, s, committee), id, height);
  }

  lemma RotateBooks(b: Custody, claims: map<Bytes32, PendingClaim>, m: MultisigState, committee: Committee)
    requires b == MultisigCustody(m) && BooksMatch(b, claims)
    ensures BooksMatch(MultisigCustody(Rotated(m, committee)), claims)
  {
  }

  lemma PauseBooks(m: MultisigState, claims: map<Bytes32, PendingClaim>, paused: Option<PauseReason>)
    requires BooksMatch(MultisigCustody(m), claims)
    ensures BooksMatch(MultisigCustody(m.(paused := paused)), claims)
    ensures ViewOf(MultisigCustody(m.(paused := paused))) == ViewOf(MultisigCustody(m))
  {
  }

  lemma VetoBooks(b: Custody, claims: map<Bytes32, PendingClaim>, id: Bytes32)
    requires BooksMatch(b, claims)
    ensures BooksMatch(VetoCustody(b, id).0, claims) && ViewOf(VetoCustody(b, id).0) == ViewOf(b)
    ensures VetoCustody(b, id).1.Err? ==> VetoCustody(b, id).0 == b
  {
  }

  lemma InvBooks(c: Crypto, s: NodeState)
    requires NodeInv(c, s)
    ensures BooksMatch(s.reserve, s.claims)
  {
    hide RootsMatch, IssuersMatch, OperatorsMatch, ClaimsMatch, BooksMatch, SetsOnly, ReserveConsistent;
  }

  lemma RotateKeeps(c: Crypto, s: NodeState, committee: Committee)
    requires NodeInv(c, s)
    ensures NodeInv(c, DoRotate(c, s, committee))
  {
    InvBooks(c, s);
    hide NodeInv, BooksMatch, CommitteeHash, Rotated;
    var s' := DoRotate(c, s, committee);
    if s.reserve.MultisigCustody? {
      RotateBooks(s.reserve, s.claims, s.reserve.multisig, committee);
      RotatedView(s.reserve.multisig, committee);
    }
    ConfigFrame(c, s, s'.state, s'.reserve);
  }

  lemma PauseKeeps(c: Crypto, s: NodeState, paused: Option<PauseReason>)
    requires NodeInv(c, s)
    ensures NodeInv(c, DoPause(s, paused))
  {
    hide *;
    InvBooks(c, s);
    PauseMeans(s, paused);
    ConfigFrame(c, s, s.state, DoPause(s, paused).reserve);
  }

  lemma PauseMeans(s: NodeState, paused: Option<PauseReason>)
    requires BooksMatch(s.reserve, s.claims)
    ensures var s' := DoPause(s, paused);
      && s' == s.(state := s.state, reserve := s'.reserve) && SameBooks(s.state, s.state)
      && ViewOf(s'.reserve) == ViewOf(s.reserve) && BooksMatch(s'.reserve, s.claims)
  {
    hide BooksMatch, ViewOf;
    if s.reserve.MultisigCustody? { PauseBooks(s.reserve.multisig, s.claims, paused); }
  }

  lemma VetoKeeps(c: Crypto, s: NodeState, id: Bytes32)
    requires NodeInv(c, s)
    ensures NodeInv(c, DoVeto(s, id).0) && DoVeto(s, id).1 != Err(InvariantViolation)
    ensures DoVeto(s, id).1.Err? ==> DoVeto(s, id).0 == s
  {
    InvBooks(c, s);
    hide NodeInv, BooksMatch, VetoCustody;
    VetoBooks(s.reserve, s.claims, id);
    ConfigFrame(c, s, s.state, VetoCustody(s.reserve, id).0);
  }

  lemma ConfigKeeps(c: Crypto, s: NodeState, op: NodeOp)
    requires NodeInv(c, s) && SwapAllowed(s, op)
    requires op.SetAnchor? || op.SetCommittee? || op.UseMultisig? || op.RotateCommittee? || op.PauseReserve?
      || op.ResumeReserve? || op.VetoClaim?
    ensures NodeInv(c, NodeStep(c, s, op).0) && NodeStep(c, s, op).1 != Err(InvariantViolation)
    ensures NodeStep(c, s, op).1.Err? ==> NodeStep(c, s, op).0 == s
  {
    hide NodeInv, BooksMatch, CommitteeHash, Wrap64, DoUseMultisig, DoRotate, DoPause, DoVeto, DoSetAnchor, NoPending,
      ViewOf;
    match op
    case UseMultisig(committee) => SwapKeepsIff(c, s, committee);
    case RotateCommittee(committee) => RotateKeeps(c, s, committee);
    case PauseReserve(reason) => PauseKeeps(c, s, Some(reason));
    case ResumeReserve => PauseKeeps(c, s, None);
    case VetoClaim(id) => VetoKeeps(c, s, id);
    case SetAnchor(height, hash, mtp) => AnchorKeeps(c, s, height, hash, mtp);
    case SetCommittee(hash) => CommitteeKeeps(c, s, hash);
  }

  lemma AnchorKeeps(c: Crypto, s: NodeState, height: u32, hash: Bytes32, mtp: u64)
    requires NodeInv(c, s)
    ensures NodeInv(c, DoSetAnchor(s, height, hash, mtp))
  {
    hide NodeInv, BooksMatch, ViewOf, Wrap64;
    InvBooks(c, s);
    ConfigFrame(c, s, DoSetAnchor(s, height, hash, mtp).state, s.reserve);
  }

  lemma CommitteeKeeps(c: Crypto, s: NodeState, hash: Bytes32)
    requires NodeInv(c, s)
    ensures NodeInv(c, s.(state := s.state.(reserveCommitteeHash := hash)))
  {
    hide NodeInv, BooksMatch, ViewOf;
    InvBooks(c, s);
    ConfigFrame(c, s, s.state.(reserveCommitteeHash := hash), s.reserve);
  }

  lemma RotatedView(m: MultisigState, committee: Committee)
    ensures Rotated(m, committee).total == m.total && Rotated(m, committee).reserved == m.reserved
  {
  }

  /** Every public transition keeps the invariant, never reports the internal error, and
      leaves everything alone when it refuses, except that approvals handed over with a
      claim that the custody then refuses stay with the custody. */
  lemma StepKeeps(c: Crypto, s: NodeState, op: NodeOp)
    requires NodeInv(c, s) && SwapAllowed(s, op)
    ensures var (s', r) := NodeStep(c, s, op);
      && NodeInv(c, s') && r != Err(InvariantViolation)
      && (r.Err? ==> Untouched(s, s'))
      && (r.Err? && !(op.FinalizeOp? && r.error.ReserveRefused?) ==> s' == s)
      && (r.Err? && r.error.ClaimErr? ==> !Internal(r.error.claim))
  {
    hide NodeInv, DoIssuerRegister, DoOperatorRegister, DoMintCommit, DoMintFinalize, DoRedeemLock, DoLockRefund,
      DoSubmitClaim, DoReclaim, DoFinalize, Internal, ViewOf,
      DoUseMultisig, DoRotate, DoPause, DoVeto, DoSetAnchor;
    OnlySubmitVerifies(c, s, op);
    match op
    case IssuerRegister(p) => IssuerRegisterKeeps(c, s, p);
    case OperatorRegister(p) => OperatorRegisterKeeps(c, s, p);
    case MintCommit(id, w) => MintCommitKeeps(c, s, id, w);
    case MintFinalize(id, w) => MintFinalizeKeeps(c, s, id, w);
    case RedeemLock(w) => RedeemLockKeeps(c, s, w);
    case LockRefund(w) => LockRefundKeeps(c, s, w);
    case SubmitClaim(q) => SubmitKeeps(c, s, q);
    case ReclaimClaim(id, height) => ReclaimKeeps(c, s, id, height);
    case FinalizeOp(id, committee, approvals, height) => FinalizeKeeps(c, s, id, committee, approvals, height);
    case _ => ConfigKeeps(c, s, op);
  }

  lemma OnlySubmitVerifies(c: Crypto, s: NodeState, op: NodeOp)
    ensures var r := NodeStep(c, s, op).1; !op.SubmitClaim? && r.Err? ==> !r.error.ClaimErr?
  {
    hide RegisterIssuer, RegisterOperator, CommitMint, FinalizeMint, ApplyLock, ApplyRefund, ReclaimStale,
      FinalizeClaim, RootsMatch, OwnProof, ReserveConsistent,
      ApproveCustody, FinalizeCustody, ReclaimCustody, VetoCustody, DoSubmitClaim, DoPause, DoRotate, DoUseMultisig,
        DoSetAnchor, IssuerAfterCommit, IssuerAfterFinalize;
  }

  /** The custody is swapped only as it should be, all along a run. */
  ghost predicate SwapsAllowed(c: Crypto, s: NodeState, ops: seq<NodeOp>) {
    |ops| == 0 || (SwapsAllowed(c, s, ops[..|ops| - 1]) && SwapAllowed(NodeRun(c, s, ops[..|ops| - 1]), ops[|ops| - 1]))
  }

  /** Over every run from genesis: the trees produce the roots of the state, the maps and
      the custody are in step with it, and no call reports the internal error. */
  lemma {:induction false} RunKeeps(c: Crypto, family: Bytes32, oracleSetHash: Bytes32, epoch: u64, price: u64,
                                    ops: seq<NodeOp>)
    requires SwapsAllowed(c, Genesis(c, family, oracleSetHash, epoch, price), ops)
    ensures NodeInv(c, NodeRun(c, Genesis(c, family, oracleSetHash, epoch, price), ops))
    ensures |ops| > 0 ==>
      NodeStep(c, NodeRun(c, Genesis(c, family, oracleSetHash, epoch, price), ops[..|ops| - 1]),
               ops[|ops| - 1]).1 != Err(InvariantViolation)
  {
    hide NodeStep, NodeInv, Genesis, SwapAllowed;
    if |ops| == 0 {
      GenesisInv(c, family, oracleSetHash, epoch, price);
    } else {
      RunKeeps(c, family, oracleSetHash, epoch, price, ops[..|ops| - 1]);
      StepKeeps(c, NodeRun(c, Genesis(c, family, oracleSetHash, epoch, price), ops[..|ops| - 1]), ops[|ops| - 1]);
    }
  }
}
