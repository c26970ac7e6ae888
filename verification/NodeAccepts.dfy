/** When the node accepts: the exact conditions in terms of its own maps and sets, with the
    tree proofs out of the picture.  Where a condition rests on a tree saying that a key is
    absent or present, acceptance means the condition or a collision. */
module NodeAccepts {
  import opened Options
  import opened Modular
  import opened Bytes
  import opened Smt
  import opened StateTypes
  import opened Transitions
  import opened Reserve
  import opened NodeModel
  import opened NodeInvariant
  import opened NodeEffects
  import opened Totals
  import opened Ledger

  // ---------------------------------------------------------------- registration

  predicate FreshIssuer(p: IssuerPosition) {
    && p.status.IssuerActive? && p.minted == 0 && p.pendingMint == 0 && p.reserveDeposits == 0
    && p.collateralRatioPpm == 0
    && p.pendingCommitment.None? && p.lastDeposit.None? && p.freezeReason.None?
    && 1 <= p.multisigThreshold <= |p.multisigKeys|
    && forall i, j :: 0 <= i < j < |p.multisigKeys| ==> p.multisigKeys[i] != p.multisigKeys[j]
  }

  lemma RegisterIssuerIff(c: Crypto, prev: StateRoot, p: IssuerPosition, proof: Proof)
    requires |proof| == HEIGHT
    ensures RegisterIssuer(c, prev, p, proof).Ok?
      <==> FreshIssuer(p) && VerifyExclusion(c.poseidon2, prev.issuerRoot, p.issuerId, proof)
  {
    hide VerifyExclusion, RootAfterUpdate;
  }

  /** A call that passes its checks is accepted: the only other error is the internal one. */
  lemma IssuerAccepted(c: Crypto, s: NodeState, p: IssuerPosition)
    requires NodeInv(c, s)
    ensures DoIssuerRegister(c, s, p).1.Ok?
      <==> RegisterIssuer(c, s.state, p, OwnProof(c.poseidon2, s.issuerTree, p.issuerId)).Ok?
  {
    hide NodeInv, RegisterIssuer, RootsMatch, OwnProof;
    IssuerRegisterKeeps(c, s, p);
  }

  /** An issuer is registered exactly when the position is fresh and the id is not taken. */
  lemma RegisterIff(c: Crypto, s: NodeState, p: IssuerPosition)
    requires NodeInv(c, s)
    ensures FreshIssuer(p) && p.issuerId !in s.issuers ==> DoIssuerRegister(c, s, p).1.Ok?
    ensures DoIssuerRegister(c, s, p).1.Ok? ==>
      FreshIssuer(p) && (p.issuerId !in s.issuers || FalseAbsence(c.poseidon2, s.issuerTree, p.issuerId))
  {
    InvRoots(c, s);
    IssuerKeys(c, s);
    assert s.state.issuerRoot == TreeRoot(c.poseidon2, s.issuerTree) by { hide TreeRoot; }
    hide *;
    var proof := OwnProof(c.poseidon2, s.issuerTree, p.issuerId);
    IssuerAccepted(c, s, p);
    RegisterIssuerIff(c, s.state, p, proof);
    Own(c.poseidon2, s.issuerTree, p.issuerId);
    if VerifyExclusion(c.poseidon2, s.state.issuerRoot, p.issuerId, proof) {
      AbsentOr(c.poseidon2, s.issuerTree, p.issuerId);
    }
  }

  /** A fresh operator with a bond of twice its largest claim. */
  predicate FreshOperator(p: OperatorPosition) {
    && p.status.OperatorActive? && p.outstanding == 0 && p.slashed == 0
    && p.maxClaim > 0 && 2 * p.maxClaim < TWO64 && p.bond >= 2 * p.maxClaim
  }

  lemma RegisterOperatorIff(c: Crypto, prev: StateRoot, p: OperatorPosition, proof: Proof)
    requires |proof| == HEIGHT
    ensures RegisterOperator(c, prev, p, proof).Ok?
      <==> FreshOperator(p) && VerifyExclusion(c.poseidon2, prev.operatorRoot, p.operatorId, proof)
  {
    hide VerifyExclusion, RootAfterUpdate;
  }

  lemma OperatorAccepted(c: Crypto, s: NodeState, p: OperatorPosition)
    requires NodeInv(c, s)
    ensures DoOperatorRegister(c, s, p).1.Ok?
      <==> RegisterOperator(c, s.state, p, OwnProof(c.poseidon2, s.operatorTree, p.operatorId)).Ok?
  {
    hide NodeInv, RegisterOperator, RootsMatch, OwnProof;
    OperatorRegisterKeeps(c, s, p);
  }

  lemma OperatorKeys(c: Crypto, s: NodeState)
    requires NodeInv(c, s)
    ensures forall id :: id in s.operators <==> id in s.operatorTree
  {
    hide RootsMatch, IssuersMatch, ClaimsMatch, BooksMatch, SetsOnly, ReserveConsistent;
  }

  /** An operator is registered exactly when the position is fresh and bonded and the id is
      not taken. */
  lemma OperatorIff(c: Crypto, s: NodeState, p: OperatorPosition)
    requires NodeInv(c, s)
    ensures FreshOperator(p) && p.operatorId !in s.operators ==> DoOperatorRegister(c, s, p).1.Ok?
    ensures DoOperatorRegister(c, s, p).1.Ok? ==>
      FreshOperator(p) && (p.operatorId !in s.operators || FalseAbsence(c.poseidon2, s.operatorTree, p.operatorId))
  {
    InvRoots(c, s);
    OperatorKeys(c, s);
    assert s.state.operatorRoot == TreeRoot(c.poseidon2, s.operatorTree) by { hide TreeRoot; }
    hide *;
    var proof := OwnProof(c.poseidon2, s.operatorTree, p.operatorId);
    OperatorAccepted(c, s, p);
    RegisterOperatorIff(c, s.state, p, proof);
    Own(c.poseidon2, s.operatorTree, p.operatorId);
    if VerifyExclusion(c.poseidon2, s.state.operatorRoot, p.operatorId, proof) {
      AbsentOr(c.poseidon2, s.operatorTree, p.operatorId);
    }
  }

  // ------------------------------------------------------------------------ locks

  lemma ApplyLockIff(c: Crypto, prev: StateRoot, w: LockWitness, proof: Proof)
    requires |proof| == HEIGHT
    ensures ApplyLock(c, prev, w, proof).Ok? <==>
      && Bound(c, w.intent, w.lock, prev.assetFamilyId)
      && c.lineage(w.lineageProof, w.lock, w.intent.network).None?
      && VerifyExclusion(c.poseidon2, prev.lockRoot, c.lockHash(w.lock), proof)
  {
    BindingIff(c, w.intent, w.lock, prev.assetFamilyId);
    hide VerifyExclusion, RootAfterUpdate, CheckBinding, Bound;
  }

  lemma LockAccepted(c: Crypto, s: NodeState, w: LockWitness)
    requires NodeInv(c, s)
    ensures DoRedeemLock(c, s, w).1.Ok?
      <==> ApplyLock(c, s.state, w, OwnProof(c.poseidon2, s.lockTree, c.lockHash(w.lock))).Ok?
  {
    hide NodeInv, ApplyLock, RootsMatch, OwnProof;
    RedeemLockKeeps(c, s, w);
  }

  lemma LockRootIs(c: Crypto, s: NodeState)
    requires RootsMatch(c, s, s.state)
    ensures s.state.lockRoot == TreeRoot(c.poseidon2, s.lockTree)
      && s.state.consumedRoot == TreeRoot(c.poseidon2, s.consumedTree)
    ensures s.state.refundRoot == TreeRoot(c.poseidon2, s.refundTree)
  {
    hide TreeRoot;
  }

  /** A lock is recorded exactly when it belongs to its intent, its lineage verifies and it
      is not recorded yet. */
  lemma LockIff(c: Crypto, s: NodeState, w: LockWitness)
    requires NodeInv(c, s)
    ensures var bound := Bound(c, w.intent, w.lock, s.state.assetFamilyId)
      && c.lineage(w.lineageProof, w.lock, w.intent.network).None?;
      var id := c.lockHash(w.lock);
      && (bound && id !in s.lockTree ==> DoRedeemLock(c, s, w).1.Ok?)
      && (DoRedeemLock(c, s, w).1.Ok? ==> bound && (id !in s.lockTree || FalseAbsence(c.poseidon2, s.lockTree, id)))
  {
    InvRoots(c, s);
    LockRootIs(c, s);
    hide *;
    var id := c.lockHash(w.lock);
    LockAccepted(c, s, w);
    ApplyLockIff(c, s.state, w, OwnProof(c.poseidon2, s.lockTree, id));
    Own(c.poseidon2, s.lockTree, id);
    if VerifyExclusion(c.poseidon2, s.state.lockRoot, id, OwnProof(c.poseidon2, s.lockTree, id)) {
      AbsentOr(c.poseidon2, s.lockTree, id);
    }
  }

  lemma ApplyRefundIff(c: Crypto, prev: StateRoot, w: RefundWitness, member: Proof, unconsumed: Proof,
                       unrefunded: Proof)
    requires |unrefunded| == HEIGHT
    ensures var id := c.lockHash(w.lock);
      ApplyRefund(c, prev, w, member, unconsumed, unrefunded).Ok? <==>
        && Bound(c, w.intent, w.lock, prev.assetFamilyId) && w.refund.lockHash == id
        && VerifyInclusion(c.poseidon2, prev.lockRoot, id, SET_MEMBER, member)
        && VerifyExclusion(c.poseidon2, prev.consumedRoot, id, unconsumed)
        && VerifyExclusion(c.poseidon2, prev.refundRoot, id, unrefunded)
  {
    BindingIff(c, w.intent, w.lock, prev.assetFamilyId);
    hide VerifyExclusion, VerifyInclusion, RootAfterUpdate, CheckBinding, Bound;
  }

  lemma RefundAccepted(c: Crypto, s: NodeState, w: RefundWitness)
    requires NodeInv(c, s)
    ensures var id := c.lockHash(w.lock);
      DoLockRefund(c, s, w).1.Ok? <==>
        ApplyRefund(c, s.state, w, OwnProof(c.poseidon2, s.lockTree, id), OwnProof(c.poseidon2, s.consumedTree, id),
                    OwnProof(c.poseidon2, s.refundTree, id)).Ok?
  {
    hide NodeInv, ApplyRefund, RootsMatch, OwnProof;
    LockRefundKeeps(c, s, w);
  }

  lemma MemberValue(c: Crypto, s: NodeState, id: Bytes32)
    requires NodeInv(c, s)
    ensures id in s.lockTree ==> s.lockTree[id] == SET_MEMBER
  {
    hide RootsMatch, IssuersMatch, OperatorsMatch, ClaimsMatch, BooksMatch, ReserveConsistent;
  }

  /** One of the three answers about a lock was wrong. */
  ghost predicate RefundCollides(c: Crypto, s: NodeState, id: Bytes32) {
    FalsePresence(c.poseidon2, s.lockTree, id) || FalseAbsence(c.poseidon2, s.consumedTree, id)
      || FalseAbsence(c.poseidon2, s.refundTree, id)
  }

  /** A lock is refunded exactly when it is recorded, not consumed and not refunded yet, and
      the refund names it. */
  lemma RefundIff(c: Crypto, s: NodeState, w: RefundWitness)
    requires NodeInv(c, s)
    ensures var id := c.lockHash(w.lock);
      var bound := Bound(c, w.intent, w.lock, s.state.assetFamilyId) && w.refund.lockHash == id;
      var open := id in s.lockTree && id !in s.consumedTree && id !in s.refundTree;
      && (bound && open ==> DoLockRefund(c, s, w).1.Ok?)
      && (DoLockRefund(c, s, w).1.Ok? ==> bound && (open || RefundCollides(c, s, id)))
  {
    InvRoots(c, s);
    LockRootIs(c, s);
    IssuerKeys(c, s);
    var h, id := c.poseidon2, c.lockHash(w.lock);
    MemberValue(c, s, id);
    hide NodeInv, RootsMatch, DoLockRefund, ApplyRefund, Bound, TreeRoot, OwnProof, VerifyInclusion,
      VerifyExclusion, FalsePresence, FalseAbsence, OnlySetMembers,
      RootAfterUpdate;
    var member, unconsumed, unrefunded := OwnProof(h, s.lockTree, id), OwnProof(h, s.consumedTree, id),
      OwnProof(h, s.refundTree, id);
    RefundAccepted(c, s, w);
    ApplyRefundIff(c, s.state, w, member, unconsumed, unrefunded);
    Own(h, s.lockTree, id);
    Own(h, s.consumedTree, id);
    Own(h, s.refundTree, id);
    if VerifyInclusion(h, s.state.lockRoot, id, SET_MEMBER, member) { PresentOr(h, s.lockTree, id); }
    if VerifyExclusion(h, s.state.consumedRoot, id, unconsumed) { AbsentOr(h, s.consumedTree, id); }
    if VerifyExclusion(h, s.state.refundRoot, id, unrefunded) { AbsentOr(h, s.refundTree, id); }
  }

  // ----------------------------------------------------------------------- claims

  lemma ReservationCovered(claims: map<Bytes32, PendingClaim>, reservedPending: u64, id: Bytes32)
    requires ClaimsSettled(claims, reservedPending) && id in claims && claims[id].status.Pending?
    ensures claims[id].reserved <= reservedPending
  {
    hide Total;
    TotalTake(PendingAmounts(claims), id);
  }

  lemma OwnClaim(c: Crypto, s: NodeState, id: Bytes32)
    requires NodeInv(c, s) && id in s.claims
    ensures s.claims[id].claimId == id && StatusSeen(s.claims[id])
    ensures VerifyInclusion(c.poseidon2, s.state.pendingRoot, id, c.pendingHash(s.claims[id]),
                            OwnProof(c.poseidon2, s.pendingTree, id))
  {
    InvRoots(c, s);
    assert s.state.pendingRoot == TreeRoot(c.poseidon2, s.pendingTree) by { hide TreeRoot; }
    InvParts(c, s);
    hide NodeInv, RootsMatch, ClaimsMatch, BooksMatch, TreeRoot, OwnProof, VerifyInclusion;
    ClaimsAt(c, s.pendingTree, s.claims, id);
    BooksAt(s.reserve, s.claims, id);
    Own(c.poseidon2, s.pendingTree, id);
  }

  lemma ReclaimStaleIff(c: Crypto, prev: StateRoot, p: PendingClaim, proof: Proof, height: u32)
    requires |proof| == HEIGHT && StatusSeen(p)
      && VerifyInclusion(c.poseidon2, prev.pendingRoot, p.claimId, c.pendingHash(p), proof)
    ensures ReclaimStale(c, prev, p, proof, height).Ok?
      <==> p.status.Pending? && height > p.expiryHeight && p.reserved <= prev.reservedPending
  {
    hide VerifyInclusion, RootAfterUpdate;
  }

  lemma ReclaimAccepted(c: Crypto, s: NodeState, id: Bytes32, height: u32)
    requires NodeInv(c, s) && id in s.claims
    ensures DoReclaim(c, s, id, height).1.Ok?
      <==> ReclaimStale(c, s.state, s.claims[id], OwnProof(c.poseidon2, s.pendingTree, id), height).Ok?
  {
    hide NodeInv, ReclaimStale, RootsMatch, OwnProof, ReclaimCustody, ReserveConsistent;
    ReclaimKeeps(c, s, id, height);
  }

  /** With settled books a claim can be reclaimed exactly when it is pending and past its
      expiry: nothing else can stand in the way. */
  lemma ReclaimIff(c: Crypto, s: NodeState, g: Books, id: Bytes32, height: u32)
    requires NodeInv(c, s) && Settled(c, s, g)
    ensures DoReclaim(c, s, id, height).1.Ok?
      <==> id in s.claims && s.claims[id].status.Pending? && height > s.claims[id].expiryHeight
  {
    SettledParts(c, s, g);
    hide NodeInv, Settled, IssuersSettled, ClaimsSettled, LocksSettled, LogAmount, ReclaimStale, RootsMatch, OwnProof,
      VerifyInclusion, Commit, ReclaimCustody, Checked;
    if id in s.claims {
      OwnClaim(c, s, id);
      ReclaimStaleIff(c, s.state, s.claims[id], OwnProof(c.poseidon2, s.pendingTree, id), height);
      ReclaimAccepted(c, s, id, height);
      if s.claims[id].status.Pending? { ReservationCovered(s.claims, s.state.reservedPending, id); }
    }
  }

  /** The collateral ratio can be computed after a change. */
  predicate Computable(reserve: u64, supply: u64, price: u64) {
    !CollateralRatio(reserve, supply, price).Overflows?
  }

  lemma FinalizeClaimIff(c: Crypto, prev: StateRoot, p: PendingClaim, proof: Proof, committee: Committee,
                         approvals: seq<MultisigSig>, height: u32)
    requires |proof| == HEIGHT && VerifyInclusion(c.poseidon2, prev.pendingRoot, p.claimId, c.pendingHash(p), proof)
    ensures FinalizeClaim(c, prev, p, proof, committee, approvals, height).Ok? <==>
      && p.status.Pending? && height <= p.expiryHeight && CommitteeHash(c, committee) == prev.reserveCommitteeHash
      && |SignersOf(c, p.claimId, committee.keys, approvals)| >= committee.threshold
      && p.reserved <= prev.reservedPending && p.reserved <= prev.reserve
      && Computable(prev.reserve - p.reserved, prev.supply, prev.latestPrice)
  {
    hide CollateralRatio, RootAfterUpdate, VerifyInclusion, SignersOf, CommitteeHash, Wrap64;
  }

  /** With the custody in step, what is left to decide is whether it pays. */
  lemma FinalizeSplits(c: Crypto, s: NodeState, id: Bytes32, committee: Committee, approvals: seq<MultisigSig>,
                       height: u32)
    requires NodeInv(c, s) && id in s.claims
    ensures DoFinalize(c, s, id, committee, approvals, height).1.Ok? <==>
      && FinalizeClaim(c, s.state, s.claims[id], OwnProof(c.poseidon2, s.pendingTree, id), committee, approvals,
                       height).Ok?
      && FinalizeCustody(c, ApproveCustody(c, s.reserve, id, approvals, |approvals|).0, id).1.Ok?
  {
    InvParts(c, s);
    hide NodeInv, RootsMatch, ClaimsMatch, BooksMatch, DoFinalize, FinalizeClaim, OwnProof, ApproveCustody,
      FinalizeCustody, ReserveConsistent, ViewOf, WithClaim;
    var p, proof := s.claims[id], OwnProof(c.poseidon2, s.pendingTree, id);
    if FinalizeClaim(c, s.state, p, proof, committee, approvals, height).Ok? {
      FinalizeMeans(c, s.state, p, proof, committee, approvals, height);
      ClaimsAt(c, s.pendingTree, s.claims, id);
      CustodyFinalizes(c, s.reserve, s.claims, id, approvals);
      FinalizeKeeps(c, s, id, committee, approvals, height);
      FinalizeAllowed(c, s, id, committee, approvals, height);
    } else {
      FinalizeRefusedEarly(c, s, id, committee, approvals, height);
    }
  }

  lemma MockFinalizes(c: Crypto, s: NodeState, id: Bytes32, committee: Committee, approvals: seq<MultisigSig>,
                      height: u32)
    requires NodeInv(c, s) && id in s.claims && s.reserve.MockCustody?
    ensures DoFinalize(c, s, id, committee, approvals, height).1.Ok? <==>
      FinalizeClaim(c, s.state, s.claims[id], OwnProof(c.poseidon2, s.pendingTree, id), committee, approvals,
                    height).Ok?
  {
    InvParts(c, s);
    hide NodeInv, RootsMatch, ClaimsMatch, BooksMatch, DoFinalize, FinalizeClaim, OwnProof, ApproveCustody,
      FinalizeCustody, ReserveConsistent, ViewOf, WithClaim;
    FinalizeSplits(c, s, id, committee, approvals, height);
    var p, proof := s.claims[id], OwnProof(c.poseidon2, s.pendingTree, id);
    if FinalizeClaim(c, s.state, p, proof, committee, approvals, height).Ok? {
      FinalizeMeans(c, s.state, p, proof, committee, approvals, height);
      ClaimsAt(c, s.pendingTree, s.claims, id);
      CustodyFinalizes(c, s.reserve, s.claims, id, approvals);
    }
  }

  /** What the state machine asks for: a pending, unexpired claim that the reserve covers,
      approved by a threshold of the committee on record, and a ratio that can be computed
      afterwards. */
  predicate Payable(c: Crypto, s: NodeState, id: Bytes32, committee: Committee, approvals: seq<MultisigSig>,
                    height: u32) {
    && id in s.claims && s.claims[id].status.Pending? && height <= s.claims[id].expiryHeight
    && CommitteeHash(c, committee) == s.state.reserveCommitteeHash
    && |SignersOf(c, id, committee.keys, approvals)| >= committee.threshold
    && s.claims[id].reserved <= s.state.reserve
    && Computable(s.state.reserve - s.claims[id].reserved, s.state.supply, s.state.latestPrice)
  }

  lemma PayableIff(c: Crypto, s: NodeState, g: Books, id: Bytes32, committee: Committee, approvals: seq<MultisigSig>,
                   height: u32)
    requires NodeInv(c, s) && Settled(c, s, g) && id in s.claims
    ensures FinalizeClaim(c, s.state, s.claims[id], OwnProof(c.poseidon2, s.pendingTree, id), committee, approvals,
                          height).Ok? <==>
      Payable(c, s, id, committee, approvals, height)
  {
    SettledParts(c, s, g);
    hide NodeInv, Settled, IssuersSettled, ClaimsSettled, LocksSettled, LogAmount, FinalizeClaim, OwnProof,
      VerifyInclusion, CommitteeHash, SignersOf, Computable;
    OwnClaim(c, s, id);
    FinalizeClaimIff(c, s.state, s.claims[id], OwnProof(c.poseidon2, s.pendingTree, id), committee, approvals, height);
    if s.claims[id].status.Pending? { ReservationCovered(s.claims, s.state.reservedPending, id); }
  }

  lemma UnknownClaimRefused(c: Crypto, s: NodeState, id: Bytes32, committee: Committee, approvals: seq<MultisigSig>,
                            height: u32)
    requires id !in s.claims
    ensures DoFinalize(c, s, id, committee, approvals, height).1.Err?
      && !Payable(c, s, id, committee, approvals, height)
  {
    hide FinalizeClaim, OwnProof, Commit, ApproveCustody, FinalizeCustody;
  }

  /** With settled books and the plain custody a claim is paid exactly when it is payable. */
  lemma FinalizeIff(c: Crypto, s: NodeState, g: Books, id: Bytes32, committee: Committee, approvals: seq<MultisigSig>,
                    height: u32)
    requires NodeInv(c, s) && Settled(c, s, g) && s.reserve.MockCustody?
    ensures DoFinalize(c, s, id, committee, approvals, height).1.Ok?
      <==> Payable(c, s, id, committee, approvals, height)
  {
    hide *;
    if id in s.claims {
      PayableIff(c, s, g, id, committee, approvals, height);
      MockFinalizes(c, s, id, committee, approvals, height);
    } else {
      UnknownClaimRefused(c, s, id, committee, approvals, height);
    }
  }

  /** The members that approved a claim, before and with the approvals handed over. */
  function Approvers(c: Crypto, m: MultisigState, id: Bytes32, approvals: seq<MultisigSig>): set<Key33>
    requires id in m.pending
  {
    SignersOf(c, id, m.committee.keys, m.pending[id].approvals) + SignersOf(c, id, m.committee.keys, approvals)
  }

  lemma StoredApproves(c: Crypto, m: MultisigState, id: Bytes32, a: MultisigSig)
    requires id in m.pending && ApprovalsGood(c, m, id)
    ensures var m' := Approved(c, m, id, a).0;
      && id in m'.pending && ApprovalsGood(c, m', id) && m'.committee == m.committee && m'.paused == m.paused
      && m'.total == m.total
      && m'.pending[id] == m.pending[id].(approvals := m'.pending[id].approvals)
      && SignersOf(c, id, m.committee.keys, m'.pending[id].approvals) == Approvers(c, m, id, [a])
  {
    var keys, old', new' := m.committee.keys, m.pending[id].approvals, Approved(c, m, id, a).0.pending[id].approvals;
    StepKeepsApprovals(c, m, Approve(id, a), id);
    assert forall x :: x in [a] <==> x == a;
    if Authorized(c, m.committee, id, a) {
      if HasSigner(old', a.signer) {
        var i :| 0 <= i < |old'| && old'[i].signer == a.signer;
        assert Authorized(c, m.committee, id, old'[i]) && old'[i] in old';
      }
      assert SignersOf(c, id, keys, [a]) == {a.signer};
      assert SignersOf(c, id, keys, new') == SignersOf(c, id, keys, old') + {a.signer};
    } else {
      assert SignersOf(c, id, keys, [a]) == {};
    }
  }

  lemma {:induction false} AllApprove(c: Crypto, m: MultisigState, id: Bytes32, approvals: seq<MultisigSig>, k: nat)
    requires k <= |approvals| && id in m.pending && ApprovalsGood(c, m, id)
    ensures var (b, r) := ApproveCustody(c, MultisigCustody(m), id, approvals, k);
      && r.Ok? && b.MultisigCustody? && id in b.multisig.pending && ApprovalsGood(c, b.multisig, id)
      && b.multisig.committee == m.committee && b.multisig.paused == m.paused && b.multisig.total == m.total
      && b.multisig.pending[id] == m.pending[id].(approvals := b.multisig.pending[id].approvals)
      && SignersOf(c, id, m.committee.keys, b.multisig.pending[id].approvals) == Approvers(c, m, id, approvals[..k])
  {
    hide SignersOf, ApprovalsGood, Approved;
    if k == 0 {
      NoSigners(c, id, m.committee.keys, approvals[..0]);
    } else {
      AllApprove(c, m, id, approvals, k - 1);
      var before := ApproveCustody(c, MultisigCustody(m), id, approvals, k - 1).0.multisig;
      StoredApproves(c, before, id, approvals[k - 1]);
      ApprovedIff(c, before, id, approvals[k - 1]);
      SignersAppend(c, id, m.committee.keys, approvals[..k - 1], approvals[k - 1]);
      assert approvals[..k] == approvals[..k - 1] + [approvals[k - 1]];
    }
  }

  lemma NoSigners(c: Crypto, id: Bytes32, keys: seq<Key33>, none: seq<MultisigSig>)
    requires |none| == 0
    ensures SignersOf(c, id, keys, none) == {}
  {
  }

  lemma SignersAppend(c: Crypto, id: Bytes32, keys: seq<Key33>, sigs: seq<MultisigSig>, a: MultisigSig)
    ensures SignersOf(c, id, keys, sigs + [a]) == SignersOf(c, id, keys, sigs) + SignersOf(c, id, keys, [a])
  {
  }

  /** What the committee custody asks for beyond the state machine. */
  predicate CommitteeAgrees(c: Crypto, m: MultisigState, id: Bytes32, approvals: seq<MultisigSig>) {
    && id in m.pending && m.paused.None? && !m.pending[id].vetoed && !m.pending[id].finalized
    && |Approvers(c, m, id, approvals)| >= m.committee.threshold && m.pending[id].amount <= m.total
  }

  lemma CommitteePays(c: Crypto, m: MultisigState, id: Bytes32, approvals: seq<MultisigSig>)
    requires id in m.pending && ApprovalsGood(c, m, id)
    ensures FinalizeCustody(c, ApproveCustody(c, MultisigCustody(m), id, approvals, |approvals|).0, id).1.Ok?
      <==> CommitteeAgrees(c, m, id, approvals)
  {
    AllApprove(c, m, id, approvals, |approvals|);
    assert approvals[..|approvals|] == approvals;
    hide SignersOf, ApprovalsGood, ApproveCustody, Wrap64;
  }

  lemma PayableIsPending(c: Crypto, s: NodeState, id: Bytes32, committee: Committee, approvals: seq<MultisigSig>,
                         height: u32)
    requires NodeInv(c, s) && s.reserve.MultisigCustody? && Payable(c, s, id, committee, approvals, height)
    ensures id in s.reserve.multisig.pending
  {
    InvParts(c, s);
    hide NodeInv, BooksMatch, CommitteeHash, SignersOf, Computable;
    BooksAt(s.reserve, s.claims, id);
  }

  lemma GoodAt(c: Crypto, m: MultisigState, id: Bytes32)
    requires AllGood(c, m) && id in m.pending
    ensures ApprovalsGood(c, m, id)
  {
    hide ApprovalsGood;
  }

  /** With settled books and the committee custody a claim is paid exactly when it is payable
      and the custody, counting the stored approvals and the ones handed over, is not paused,
      not vetoed and at its threshold. */
  lemma CommitteeFinalizeIff(c: Crypto, s: NodeState, g: Books, id: Bytes32, committee: Committee,
                             approvals: seq<MultisigSig>, height: u32)
    requires NodeInv(c, s) && Settled(c, s, g) && s.reserve.MultisigCustody? && AllGood(c, s.reserve.multisig)
    ensures DoFinalize(c, s, id, committee, approvals, height).1.Ok? <==>
      Payable(c, s, id, committee, approvals, height) && CommitteeAgrees(c, s.reserve.multisig, id, approvals)
  {
    hide *;
    if id in s.claims {
      PayableIff(c, s, g, id, committee, approvals, height);
      FinalizeSplits(c, s, id, committee, approvals, height);
      if Payable(c, s, id, committee, approvals, height) {
        PayableIsPending(c, s, id, committee, approvals, height);
        GoodAt(c, s.reserve.multisig, id);
        CommitteePays(c, s.reserve.multisig, id, approvals);
        assert s.reserve == MultisigCustody(s.reserve.multisig);
      }
    } else {
      UnknownClaimRefused(c, s, id, committee, approvals, height);
    }
  }

  // ------------------------------------------------------------------------ mints

  /** Reserve value over supply reaches a ratio, in exact arithmetic. */
  predicate Covers(reserve: u64, supply: u64, price: u64, ppm: nat) {
    reserve * price * 1_000_000 >= ppm * (supply * 100_000_000_000_000)
  }

  lemma CommitCovers(c: Crypto, prev: StateRoot, p: IssuerPosition, proof: Proof, w: MintCommitWitness)
    requires |proof| == HEIGHT && CommitMint(c, prev, p, proof, w).Ok?
    ensures prev.reserve + w.depositSats < TWO64 && prev.supply + w.request.atoms < TWO64
    ensures var cr := CollateralRatio(prev.reserve + w.depositSats, prev.supply + w.request.atoms, w.price);
      cr.Ratio? && cr.ppm >= MIN_MINT_CR_PPM
    ensures |SignersOf(c, c.mintSighash(p.issuerId, w.request, w.depositSats), p.multisigKeys,
                       w.signatures)| >= p.multisigThreshold
    ensures p.status.IssuerActive?
  {
    hide CollateralRatio, RootAfterUpdate, VerifyInclusion, SignersOf, CommitteeHash, Wrap64;
  }

  lemma FinalizeCovers(c: Crypto, prev: StateRoot, p: IssuerPosition, proof: Proof, w: MintFinalizeWitness)
    requires |proof| == HEIGHT && FinalizeMint(c, prev, p, proof, w).Ok?
    ensures prev.supply + w.request.atoms < TWO64
    ensures var cr := CollateralRatio(prev.reserve, prev.supply + w.request.atoms, w.price);
      cr.Ratio? && cr.ppm >= MIN_MINT_CR_PPM
    ensures p.status.IssuerActive? && w.anchorConfirmations >= DEPOSIT_MIN_CONFIRMATIONS && w.mintProofOk
  {
    hide CollateralRatio, RootAfterUpdate, VerifyInclusion, Wrap64;
  }

  lemma RatioCovers(reserve: u64, supply: u64, price: u64, ppm: pos)
    requires CollateralRatio(reserve, supply, price).Ratio? && CollateralRatio(reserve, supply, price).ppm >= ppm
    ensures Covers(reserve, supply, price, ppm)
  {
    hide CollateralRatio;
    RatioThreshold(reserve, supply, price, ppm);
  }

  /** No mint goes through undercollateralized: after an accepted commit the reserve is worth
      twice the supply with the requested atoms, and the issuer's own threshold signed this
      request and deposit; after an accepted finalization it is worth twice the supply. */
  lemma MintsAreCovered(c: Crypto, s: NodeState, id: Bytes32, w: MintCommitWitness, f: MintFinalizeWitness)
    requires NodeInv(c, s)
    ensures DoMintCommit(c, s, id, w).1.Ok? ==>
      var t := DoMintCommit(c, s, id, w).0.state;
      && s.state.supply + w.request.atoms < TWO64
      && Covers(t.reserve, s.state.supply + w.request.atoms, w.price, 2_000_000)
      && id in s.issuers
      && |SignersOf(c, c.mintSighash(id, w.request, w.depositSats), s.issuers[id].multisigKeys,
                    w.signatures)| >= s.issuers[id].multisigThreshold
    ensures DoMintFinalize(c, s, id, f).1.Ok? ==>
      var t := DoMintFinalize(c, s, id, f).0.state;
      Covers(t.reserve, t.supply, f.price, 2_000_000)
  {
    if DoMintCommit(c, s, id, w).1.Ok? { CommitIsCovered(c, s, id, w); }
    if DoMintFinalize(c, s, id, f).1.Ok? { FinalizationIsCovered(c, s, id, f); }
    hide DoMintCommit, DoMintFinalize, Covers, SignersOf;
  }

  lemma TwiceIsPositive()
    ensures MIN_MINT_CR_PPM > 0
  {
  }

  lemma CommitChecked(c: Crypto, s: NodeState, id: Bytes32, w: MintCommitWitness)
    requires DoMintCommit(c, s, id, w).1.Ok?
    ensures id in s.issuers && CommitMint(c, s.state, s.issuers[id], OwnProof(c.poseidon2, s.issuerTree, id), w).Ok?
  {
    hide CommitMint, OwnProof, RootsMatch, IssuerAfterCommit, ReserveConsistent, CreditCustody;
  }

  lemma FinalizeChecked(c: Crypto, s: NodeState, id: Bytes32, f: MintFinalizeWitness)
    requires DoMintFinalize(c, s, id, f).1.Ok?
    ensures id in s.issuers && FinalizeMint(c, s.state, s.issuers[id], OwnProof(c.poseidon2, s.issuerTree, id), f).Ok?
  {
    hide FinalizeMint, OwnProof, RootsMatch, IssuerAfterFinalize;
  }

  lemma CommitIsCovered(c: Crypto, s: NodeState, id: Bytes32, w: MintCommitWitness)
    requires NodeInv(c, s) && DoMintCommit(c, s, id, w).1.Ok?
    ensures s.state.supply + w.request.atoms < TWO64
    ensures Covers(DoMintCommit(c, s, id, w).0.state.reserve, s.state.supply + w.request.atoms, w.price,
                   MIN_MINT_CR_PPM)
    ensures id in s.issuers
    ensures |SignersOf(c, c.mintSighash(id, w.request, w.depositSats), s.issuers[id].multisigKeys,
                       w.signatures)| >= s.issuers[id].multisigThreshold
  {
    hide *;
    TwiceIsPositive();
    MintCommitEffect(c, s, id, w);
    IssuerKeys(c, s);
    CommitChecked(c, s, id, w);
    var p, proof := s.issuers[id], OwnProof(c.poseidon2, s.issuerTree, id);
    CommitCovers(c, s.state, p, proof, w);
    RatioCovers(s.state.reserve + w.depositSats, s.state.supply + w.request.atoms, w.price, MIN_MINT_CR_PPM);
  }

  lemma FinalizationIsCovered(c: Crypto, s: NodeState, id: Bytes32, f: MintFinalizeWitness)
    requires NodeInv(c, s) && DoMintFinalize(c, s, id, f).1.Ok?
    ensures Covers(DoMintFinalize(c, s, id, f).0.state.reserve, DoMintFinalize(c, s, id, f).0.state.supply, f.price,
                   MIN_MINT_CR_PPM)
  {
    hide *;
    TwiceIsPositive();
    MintFinalizeEffect(c, s, id, f);
    FinalizeChecked(c, s, id, f);
    var p, proof := s.issuers[id], OwnProof(c.poseidon2, s.issuerTree, id);
    FinalizeCovers(c, s.state, p, proof, f);
    RatioCovers(s.state.reserve, s.state.supply + f.request.atoms, f.price, MIN_MINT_CR_PPM);
  }

  /** The ratio of a nonzero supply reaches a minimum. */
  lemma RatioReachesIff(reserve: u64, supply: u64, price: u64, ppm: pos)
    ensures (CollateralRatio(reserve, supply, price).Ratio? && CollateralRatio(reserve, supply, price).ppm >= ppm) <==>
      supply > 0 && Computable(reserve, supply, price) && Covers(reserve, supply, price, ppm)
  {
    RatioKinds(reserve, supply, price);
    if CollateralRatio(reserve, supply, price).Ratio? { RatioThreshold(reserve, supply, price, ppm); }
    hide CollateralRatio;
  }

  lemma RatioKinds(reserve: u64, supply: u64, price: u64)
    ensures CollateralRatio(reserve, supply, price).NoSupply? <==> supply == 0
  {
  }

  /** When the ratio can be computed: the product fits 128 bits and the quotient 64. */
  lemma ComputableIff(reserve: u64, supply: u64, price: u64)
    ensures Computable(reserve, supply, price) <==>
      supply == 0 || (reserve * price * 1_000_000 < 0x1_0000_0000_0000_0000_0000_0000_0000_0000
                      && reserve * price * 1_000_000 / (supply * 100_000_000_000_000) < TWO64)
  {
    if supply > 0 {
      TimesIs(reserve, price);
      TimesNat(reserve, price);
      DivIs(reserve * price * 1_000_000, supply * 100_000_000_000_000);
    }
  }

  lemma CommitMintIff(c: Crypto, prev: StateRoot, p: IssuerPosition, proof: Proof, w: MintCommitWitness)
    requires |proof| == HEIGHT && VerifyInclusion(c.poseidon2, prev.issuerRoot, p.issuerId, c.issuerHash(p), proof)
    ensures CommitMint(c, prev, p, proof, w).Ok? <==>
      && p.issuerId == w.issuerId && p.status.IssuerActive?
      && CommitteeHash(c, w.committee) == prev.reserveCommitteeHash
      && c.depositSpv(w.deposit, w.request.depositTxid, w.depositSats, w.committee.keys, w.committee.threshold,
                      DEPOSIT_MIN_CONFIRMATIONS).None?
      && |SignersOf(c, c.mintSighash(w.issuerId, w.request, w.depositSats), p.multisigKeys,
                    w.signatures)| >= p.multisigThreshold
      && p.pendingCommitment.None? && w.request.atoms > 0
      && prev.reserve + w.depositSats < TWO64 && prev.supply + w.request.atoms < TWO64
      && (var cr := CollateralRatio(prev.reserve + w.depositSats, prev.supply + w.request.atoms, w.price);
          cr.Ratio? && cr.ppm >= MIN_MINT_CR_PPM)
      && IssuerAfterCommit(c, p, w).Ok? && Computable(prev.reserve + w.depositSats, prev.supply, w.price)
  {
    hide CollateralRatio, RootAfterUpdate, VerifyInclusion, SignersOf, CommitteeHash, Wrap64, IssuerAfterCommit;
  }

  /** Everything that a mint commitment needs. */
  predicate Committable(c: Crypto, s: NodeState, id: Bytes32, w: MintCommitWitness) {
    && id in s.issuers && w.issuerId == id && s.issuers[id].status.IssuerActive?
    && s.issuers[id].pendingCommitment.None?
    && CommitteeHash(c, w.committee) == s.state.reserveCommitteeHash
    && c.depositSpv(w.deposit, w.request.depositTxid, w.depositSats, w.committee.keys, w.committee.threshold,
                    6).None?
    && |SignersOf(c, c.mintSighash(id, w.request, w.depositSats), s.issuers[id].multisigKeys,
                  w.signatures)| >= s.issuers[id].multisigThreshold
    && w.request.atoms > 0 && s.state.reserve + w.depositSats < TWO64 && s.state.supply + w.request.atoms < TWO64
    && s.issuers[id].reserveDeposits + w.depositSats < TWO64 && s.issuers[id].pendingMint + w.request.atoms < TWO64
    && Computable(s.state.reserve + w.depositSats, s.state.supply + w.request.atoms, w.price)
    && Covers(s.state.reserve + w.depositSats, s.state.supply + w.request.atoms, w.price, 2_000_000)
    && Computable(s.state.reserve + w.depositSats, s.state.supply, w.price)
  }

  lemma OwnIssuer(c: Crypto, s: NodeState, id: Bytes32)
    requires NodeInv(c, s) && id in s.issuers
    ensures s.issuers[id].issuerId == id
    ensures VerifyInclusion(c.poseidon2, s.state.issuerRoot, id, c.issuerHash(s.issuers[id]),
                            OwnProof(c.poseidon2, s.issuerTree, id))
  {
    InvRoots(c, s);
    assert s.state.issuerRoot == TreeRoot(c.poseidon2, s.issuerTree) by { hide TreeRoot; }
    InvIssuers(c, s);
    hide *;
    IssuersAt(c, s.issuerTree, s.issuers, id);
    Own(c.poseidon2, s.issuerTree, id);
  }

  lemma InvIssuers(c: Crypto, s: NodeState)
    requires NodeInv(c, s)
    ensures IssuersMatch(c, s.issuerTree, s.issuers)
  {
    hide RootsMatch, OnlySetMembers, IssuersMatch, OperatorsMatch, ClaimsMatch, BooksMatch, ReserveConsistent;
  }

  lemma CommitAccepted(c: Crypto, s: NodeState, id: Bytes32, w: MintCommitWitness)
    requires NodeInv(c, s)
    ensures DoMintCommit(c, s, id, w).1.Ok? <==>
      id in s.issuers && CommitMint(c, s.state, s.issuers[id], OwnProof(c.poseidon2, s.issuerTree, id), w).Ok?
  {
    hide NodeInv, CommitMint, OwnProof, RootsMatch, IssuerAfterCommit, ReserveConsistent, CreditCustody;
    MintCommitKeeps(c, s, id, w);
    if id in s.issuers && CommitMint(c, s.state, s.issuers[id], OwnProof(c.poseidon2, s.issuerTree, id), w).Ok? {
      CommitMintMeans(c, s.state, s.issuers[id], OwnProof(c.poseidon2, s.issuerTree, id), w);
    }
  }

  lemma AfterCommitIff(c: Crypto, p: IssuerPosition, w: MintCommitWitness)
    ensures IssuerAfterCommit(c, p, w).Ok?
      <==> p.reserveDeposits + w.depositSats < TWO64 && p.pendingMint + w.request.atoms < TWO64
  {
  }

  /** A mint commitment is accepted exactly when it is committable. */
  lemma MintCommitIff(c: Crypto, s: NodeState, id: Bytes32, w: MintCommitWitness)
    requires NodeInv(c, s)
    ensures DoMintCommit(c, s, id, w).1.Ok? <==> Committable(c, s, id, w)
  {
    hide NodeInv, DoMintCommit, CommitMint, OwnProof, IssuerAfterCommit, CollateralRatio, Computable, Covers,
      SignersOf, CommitteeHash;
    CommitAccepted(c, s, id, w);
    if id in s.issuers {
      OwnIssuer(c, s, id);
      CommitMintIff(c, s.state, s.issuers[id], OwnProof(c.poseidon2, s.issuerTree, id), w);
      AfterCommitIff(c, s.issuers[id], w);
      if s.state.reserve + w.depositSats < TWO64 && s.state.supply + w.request.atoms < TWO64 {
        RatioReachesIff(s.state.reserve + w.depositSats, s.state.supply + w.request.atoms, w.price, MIN_MINT_CR_PPM);
      }
    }
  }

  lemma FinalizeMintIff(c: Crypto, prev: StateRoot, p: IssuerPosition, proof: Proof, f: MintFinalizeWitness)
    requires |proof| == HEIGHT && VerifyInclusion(c.poseidon2, prev.issuerRoot, p.issuerId, c.issuerHash(p), proof)
    ensures FinalizeMint(c, prev, p, proof, f).Ok? <==>
      && p.issuerId == f.issuerId && p.status.IssuerActive? && p.pendingCommitment == Some(c.mintCommitment(f.request))
      && f.anchorConfirmations >= DEPOSIT_MIN_CONFIRMATIONS && f.mintProofOk && prev.supply + f.request.atoms < TWO64
      && (var cr := CollateralRatio(prev.reserve, prev.supply + f.request.atoms, f.price);
          cr.Ratio? && cr.ppm >= MIN_MINT_CR_PPM)
      && IssuerAfterFinalize(p, f.request.atoms).Ok?
  {
    hide CollateralRatio, RootAfterUpdate, VerifyInclusion, Wrap64, IssuerAfterFinalize;
  }

  /** Everything that a mint finalization needs.  The separate test for a healthy tier is
      weaker than the minimum ratio and never decides. */
  predicate Finalizable(c: Crypto, s: NodeState, id: Bytes32, f: MintFinalizeWitness) {
    && id in s.issuers && f.issuerId == id && s.issuers[id].status.IssuerActive?
    && s.issuers[id].pendingCommitment == Some(c.mintCommitment(f.request))
    && f.anchorConfirmations >= 6 && f.mintProofOk
    && 0 < s.state.supply + f.request.atoms < TWO64
    && s.issuers[id].minted + f.request.atoms < TWO64 && f.request.atoms <= s.issuers[id].pendingMint
    && Computable(s.state.reserve, s.state.supply + f.request.atoms, f.price)
    && Covers(s.state.reserve, s.state.supply + f.request.atoms, f.price, 2_000_000)
  }

  lemma FinalizeAccepted(c: Crypto, s: NodeState, id: Bytes32, f: MintFinalizeWitness)
    requires NodeInv(c, s)
    ensures DoMintFinalize(c, s, id, f).1.Ok? <==>
      id in s.issuers && FinalizeMint(c, s.state, s.issuers[id], OwnProof(c.poseidon2, s.issuerTree, id), f).Ok?
  {
    hide NodeInv, FinalizeMint, OwnProof, RootsMatch, IssuerAfterFinalize;
    MintFinalizeKeeps(c, s, id, f);
    if id in s.issuers && FinalizeMint(c, s.state, s.issuers[id], OwnProof(c.poseidon2, s.issuerTree, id), f).Ok? {
      FinalizeMintMeans(c, s.state, s.issuers[id], OwnProof(c.poseidon2, s.issuerTree, id), f);
    }
  }

  lemma AfterFinalizeIff(p: IssuerPosition, atoms: u64)
    ensures IssuerAfterFinalize(p, atoms).Ok? <==> p.minted + atoms < TWO64 && atoms <= p.pendingMint
  {
  }

  /** A mint finalization is accepted exactly when it is finalizable. */
  lemma MintFinalizeIff(c: Crypto, s: NodeState, id: Bytes32, f: MintFinalizeWitness)
    requires NodeInv(c, s)
    ensures DoMintFinalize(c, s, id, f).1.Ok? <==> Finalizable(c, s, id, f)
  {
    hide NodeInv, DoMintFinalize, FinalizeMint, OwnProof, IssuerAfterFinalize, CollateralRatio, Computable, Covers;
    FinalizeAccepted(c, s, id, f);
    if id in s.issuers {
      OwnIssuer(c, s, id);
      FinalizeMintIff(c, s.state, s.issuers[id], OwnProof(c.poseidon2, s.issuerTree, id), f);
      AfterFinalizeIff(s.issuers[id], f.request.atoms);
      if s.state.supply + f.request.atoms < TWO64 {
        RatioReachesIff(s.state.reserve, s.state.supply + f.request.atoms, f.price, MIN_MINT_CR_PPM);
      }
    }
  }
}
