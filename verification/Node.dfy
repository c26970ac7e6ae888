/** The state node: its fields, and its public transitions as methods that update them in
    the source's order.  Each is proved against the function of the same name on values. */
module Node {
  import opened Options
  import opened Modular
  import opened Bytes
  import opened Smt
  import opened StateTypes
  import opened Aggregate
  import opened Transitions
  import opened Claim
  import opened Reserve
  import opened NodeModel

  class StateNode {
    const c: Crypto
    var state: StateRoot
    var issuerTree: Values
    var issuers: map<Bytes32, IssuerPosition>
    var operatorTree: Values
    var operators: map<Bytes32, OperatorPosition>
    var pendingTree: Values
    var claims: map<Bytes32, PendingClaim>
    var lockTree: Values
    var consumedTree: Values
    var refundTree: Values
    var nullifierTree: Values
    var reserve: Custody

    function View(): NodeState
      reads this
    {
      NodeState(state, issuerTree, issuers, operatorTree, operators, pendingTree, claims, lockTree, consumedTree,
                refundTree, nullifierTree, reserve)
    }

    constructor Genesis(c: Crypto, family: Bytes32, oracleSetHash: Bytes32, epoch: u64, price: u64)
      ensures this.c == c && View() == NodeModel.Genesis(c, family, oracleSetHash, epoch, price)
    {
      var e := TreeRoot(c.poseidon2, map[]);
      this.c := c;
      state := StateRoot(1, 0, 0, 0, family, 0, 0, 0, 0, 0, oracleSetHash, epoch, epoch, price, 0, e, e, e, e, e, e, e,
                         e, e, 0, 0, 0, 0);
      issuerTree, issuers, operatorTree, operators, pendingTree, claims := map[], map[], map[], map[], map[], map[];
      lockTree, consumedTree, refundTree, nullifierTree := map[], map[], map[], map[];
      reserve := MockCustody(MockState(0, 0, map[]));
    }

    method CommitState(next: StateRoot) returns (r: Outcome)
      modifies this
      ensures (View(), r) == Commit(c, old(View()), next)
    {
      hide TreeRoot;
      var ok := RootsMatch(c, View(), next);
      if !ok { return Err(InvariantViolation); }
      state := next;
      r := Ok(c.stateHash(next));
    }

    method RegisterNewIssuer(p: IssuerPosition) returns (r: Outcome)
      modifies this
      ensures (View(), r) == DoIssuerRegister(c, old(View()), p)
    {
      hide RegisterIssuer, OwnProof, Commit;
      var proof := OwnProof(c.poseidon2, issuerTree, p.issuerId);
      var next := RegisterIssuer(c, state, p, proof);
      if next.Err? { return Err(RegistryErr(next.error)); }
      issuerTree := issuerTree[p.issuerId := c.issuerHash(p)];
      issuers := issuers[p.issuerId := p];
      r := CommitState(next.value);
    }

    method RegisterNewOperator(p: OperatorPosition) returns (r: Outcome)
      modifies this
      ensures (View(), r) == DoOperatorRegister(c, old(View()), p)
    {
      hide RegisterOperator, OwnProof, Commit;
      var proof := OwnProof(c.poseidon2, operatorTree, p.operatorId);
      var next := RegisterOperator(c, state, p, proof);
      if next.Err? { return Err(RegistryErr(next.error)); }
      operatorTree := operatorTree[p.operatorId := c.operatorHash(p)];
      operators := operators[p.operatorId := p];
      r := CommitState(next.value);
    }

    method CommitMinting(id: Bytes32, w: MintCommitWitness) returns (r: Outcome)
      modifies this
      ensures (View(), r) == DoMintCommit(c, old(View()), id, w)
    {
      hide CommitMint, IssuerAfterCommit, OwnProof, Commit, CreditCustody, ViewOf;
      if id !in issuers { return Err(UnknownIssuer); }
      var prev := issuers[id];
      var proof := OwnProof(c.poseidon2, issuerTree, id);
      var next := CommitMint(c, state, prev, proof, w);
      if next.Err? { return Err(if next.error.MintPanicked? then Panicked else MintErr(next.error)); }
      var after := IssuerAfterCommit(c, prev, w);
      if after.Err? { return Err(MintErr(after.error)); }
      issuerTree := issuerTree[id := c.issuerHash(after.value)];
      issuers := issuers[id := after.value];
      r := CommitState(next.value);
      if r.Err? { return; }
      reserve := CreditCustody(reserve, w.depositSats);
      if !ReserveConsistent(View()) { r := Err(InvariantViolation); }
    }

    method FinalizeMinting(id: Bytes32, w: MintFinalizeWitness) returns (r: Outcome)
      modifies this
      ensures (View(), r) == DoMintFinalize(c, old(View()), id, w)
    {
      hide FinalizeMint, IssuerAfterFinalize, OwnProof, Commit;
      if id !in issuers { return Err(UnknownIssuer); }
      var prev := issuers[id];
      var proof := OwnProof(c.poseidon2, issuerTree, id);
      var next := FinalizeMint(c, state, prev, proof, w);
      if next.Err? { return Err(if next.error.MintPanicked? then Panicked else MintErr(next.error)); }
      var after := IssuerAfterFinalize(prev, w.request.atoms);
      if after.Err? { return Err(MintErr(after.error)); }
      issuerTree := issuerTree[id := c.issuerHash(after.value)];
      issuers := issuers[id := after.value];
      r := CommitState(next.value);
    }

    method LockForRedemption(w: LockWitness) returns (r: Outcome)
      modifies this
      ensures (View(), r) == DoRedeemLock(c, old(View()), w)
    {
      hide ApplyLock, OwnProof, Commit;
      var id := c.lockHash(w.lock);
      var next := ApplyLock(c, state, w, OwnProof(c.poseidon2, lockTree, id));
      if next.Err? { return Err(RedeemErr(next.error)); }
      lockTree := lockTree[id := SET_MEMBER];
      r := CommitState(next.value);
    }

    method RefundLock(w: RefundWitness) returns (r: Outcome)
      modifies this
      ensures (View(), r) == DoLockRefund(c, old(View()), w)
    {
      hide ApplyRefund, OwnProof, Commit;
      var id := c.lockHash(w.lock);
      var member := OwnProof(c.poseidon2, lockTree, id);
      var unconsumed := OwnProof(c.poseidon2, consumedTree, id);
      var unrefunded := OwnProof(c.poseidon2, refundTree, id);
      var next := ApplyRefund(c, state, w, member, unconsumed, unrefunded);
      if next.Err? { return Err(RedeemErr(next.error)); }
      refundTree := refundTree[id := SET_MEMBER];
      r := CommitState(next.value);
    }

    /** Fills the proofs against running copies of the two sets that grow. */
    method BuildBatch(price: pos, rs: seq<Redemption>) returns (b: Built)
      ensures b == Fill(c, View(), price, rs, |rs|)
    {
      hide OwnProof, NullifierOf, Gross, Wrap64;
      var filled, leaves: seq<Bytes32> := [], [];
      var consumed: Values, nullifier: Values := consumedTree, nullifierTree;
      var totalAmount: u64, totalGross: u64 := 0, 0;
      for i := 0 to |rs|
        invariant Built(filled, consumed, nullifier, totalAmount, totalGross, leaves) == Fill(c, View(), price, rs, i)
      {
        var d := rs[i];
        var id := c.lockHash(d.lock);
        var nf := NullifierOf(c, d.lock);
        filled := filled + [BatchRedemption(d, OwnProof(c.poseidon2, lockTree, id), OwnProof(c.poseidon2, consumed, id),
                                            OwnProof(c.poseidon2, refundTree, id),
                                              OwnProof(c.poseidon2, nullifier, nf))];
        consumed := consumed[id := SET_MEMBER];
        nullifier := nullifier[nf := SET_MEMBER];
        totalAmount := Wrap64(totalAmount + d.intent.amount);
        totalGross := Wrap64(totalGross + Wrap64(Gross(d.lock.amount, price)));
        leaves := leaves + [id];
      }
      b := Built(filled, consumed, nullifier, totalAmount, totalGross, leaves);
    }

    /** Builds the claim, has it verified, and only then touches any field. */
    method SubmitBatch(q: Submission) returns (r: Outcome)
      modifies this
      ensures (View(), r) == DoSubmitClaim(c, old(View()), q)
    {
      hide VerifySignatures, Aggregated, Fill, InputsFor, Proposed, WitnessFor, VerifyClaim, DoAccept, OwnProof, Wrap64;
      var bad := CheckSignatures(c, q.messages);
      if bad.Some? { return Err(OracleErr(bad.value)); }
      var chainTime := Wrap64(state.anchorMtp + MTP_LAG_OFFSET);
      var price := Aggregate.Aggregate(c, q.messages, ParamsFor(state, chainTime, q.anchor, q.signerSet));
      if price.Err? { return Err(OracleErr(price.error)); }
      if |q.redemptions| == 0 || price.value == 0 { return Err(Panicked); }
      var b := BuildBatch(price.value, q.redemptions);
      var inputs := InputsFor(c, View(), q, b);
      var id := c.claimId(inputs);
      var next := Proposed(c, View(), price.value, inputs, id, b);
      if next.None? { return Err(Panicked); }
      var refused := VerifyReserveClaim(c, state, next.value, WitnessFor(c, View(), q, b, inputs, id, next.value));
      if refused.Some? { return Err(ClaimErr(refused.value)); }
      r := AcceptBatch(b, inputs, id, next.value);
    }

    method AcceptBatch(b: Built, inputs: ClaimInputs, id: Bytes32, next: StateRoot) returns (r: Outcome)
      modifies this
      ensures (View(), r) == DoAccept(c, old(View()), inputs, id, b, next)
    {
      hide Commit, SubmitCustody, ViewOf;
      var pending := OpenedClaim(id, inputs);
      consumedTree := b.consumed;
      nullifierTree := b.nullifier;
      pendingTree := pendingTree[id := c.pendingHash(pending)];
      claims := claims[id := pending];
      r := CommitState(next);
      if r.Err? { return; }
      reserve := SubmitCustody(reserve, id, inputs.operatorId, inputs.reimbursement);
      r := if ReserveConsistent(View()) then Ok(id) else Err(InvariantViolation);
    }

    method ReclaimStaleClaim(id: Bytes32, height: u32) returns (r: Outcome)
      modifies this
      ensures (View(), r) == DoReclaim(c, old(View()), id, height)
    {
      hide ReclaimStale, OwnProof, Commit, ReclaimCustody, ViewOf;
      if id !in claims { return Err(ClaimUnknown); }
      var p := claims[id];
      var next := ReclaimStale(c, state, p, OwnProof(c.poseidon2, pendingTree, id), height);
      if next.Err? { return Err(RegistryErr(next.error)); }
      var reclaimed := p.(status := Reclaimed);
      pendingTree := pendingTree[id := c.pendingHash(reclaimed)];
      claims := claims[id := reclaimed];
      r := CommitState(next.value);
      if r.Err? { return; }
      var (b, freed) := ReclaimCustody(reserve, id);
      reserve := b;
      if freed.Err? || !ReserveConsistent(View()) { r := Err(InvariantViolation); }
    }

    /** Consensus first, custody second, and the node's own fields last. */
    method FinalizePending(id: Bytes32, committee: Committee, approvals: seq<MultisigSig>, height: u32)
        returns (r: Outcome)
      modifies this
      ensures (View(), r) == DoFinalize(c, old(View()), id, committee, approvals, height)
    {
      hide FinalizeClaim, OwnProof, Commit, FinalizeCustody, ViewOf, Approved;
      if id !in claims { return Err(ClaimUnknown); }
      var p := claims[id];
      var next := FinalizeClaim(c, state, p, OwnProof(c.poseidon2, pendingTree, id), committee, approvals, height);
      if next.Err? { return Err(if next.error.RegistryPanicked? then Panicked else RegistryErr(next.error)); }
      ghost var start := reserve;
      for i := 0 to |approvals|
        invariant View() == old(View()).(reserve := reserve) && reserve.MockCustody? == start.MockCustody?
        invariant ApproveCustody(c, start, id, approvals, i).0 == reserve
          && ApproveCustody(c, start, id, approvals, i).1.Ok?
      {
        ApproveStep(c, start, id, approvals, i);
        if reserve.MultisigCustody? {
          var (m, added) := Approved(c, reserve.multisig, id, approvals[i]);
          reserve := MultisigCustody(m);
          if added.Err? {
            ApprovalRefused(c, start, id, approvals, i + 1, |approvals|);
            return Err(ReserveRefused(added.error));
          }
        }
      }
      var (b, paid) := FinalizeCustody(c, reserve, id);
      reserve := b;
      if paid.Err? { return Err(ReserveRefused(paid.error)); }
      var finalized := p.(status := Finalized);
      pendingTree := pendingTree[id := c.pendingHash(finalized)];
      claims := claims[id := finalized];
      r := CommitState(next.value);
      if r.Ok? && !ReserveConsistent(View()) { r := Err(InvariantViolation); }
    }

    method SetL1Anchor(height: u32, hash: Bytes32, mtp: u64)
      modifies this
      ensures View() == DoSetAnchor(old(View()), height, hash, mtp)
    {
      state := state.(anchorHeight := height);
      state := state.(anchorHash := hash);
      state := state.(anchorMtp := mtp);
      state := state.(anchorChainTime := Wrap64(mtp + MTP_LAG_OFFSET));
    }

    method SetReserveCommittee(hash: Bytes32)
      modifies this
      ensures View() == old(View()).(state := old(state).(reserveCommitteeHash := hash))
    {
      state := state.(reserveCommitteeHash := hash);
    }

    method UseMultisigReserve(committee: Committee)
      modifies this
      ensures View() == DoUseMultisig(c, old(View()), committee)
    {
      state := state.(reserveCommitteeHash := CommitteeHash(c, committee));
      reserve := MultisigCustody(MultisigState(state.reserve, 0, committee, None, map[]));
    }

    method RotateReserveCommittee(committee: Committee)
      modifies this
      ensures View() == DoRotate(c, old(View()), committee)
    {
      hide Rotated;
      state := state.(reserveCommitteeHash := CommitteeHash(c, committee));
      if reserve.MultisigCustody? { reserve := MultisigCustody(Rotated(reserve.multisig, committee)); }
    }

    method EmergencyPause(reason: PauseReason)
      modifies this
      ensures View() == DoPause(old(View()), Some(reason))
    {
      if reserve.MultisigCustody? { reserve := MultisigCustody(reserve.multisig.(paused := Some(reason))); }
    }

    method ResumeReserve()
      modifies this
      ensures View() == DoPause(old(View()), None)
    {
      if reserve.MultisigCustody? { reserve := MultisigCustody(reserve.multisig.(paused := None)); }
    }

    method VetoPending(id: Bytes32) returns (r: Outcome)
      modifies this
      ensures (View(), r) == DoVeto(old(View()), id)
    {
      var (b, vetoed) := VetoCustody(reserve, id);
      reserve := b;
      r := if vetoed.Err? then Err(ReserveRefused(vetoed.error)) else Ok(0);
    }
  }

  lemma ApproveStep(c: Crypto, b: Custody, id: Bytes32, approvals: seq<MultisigSig>, k: nat)
    requires k < |approvals| && ApproveCustody(c, b, id, approvals, k).1.Ok?
    ensures b.MockCustody? ==>
      ApproveCustody(c, b, id, approvals, k) == ApproveCustody(c, b, id, approvals, k + 1) == (b, Ok(()))
    ensures var b' := ApproveCustody(c, b, id, approvals, k).0;
      b.MultisigCustody? && b'.MultisigCustody? ==>
        var (m, r) := Approved(c, b'.multisig, id, approvals[k]);
        ApproveCustody(c, b, id, approvals, k + 1) == (MultisigCustody(m), r)
  {
    hide Approved;
  }

  lemma {:induction false} ApprovalRefused(c: Crypto, b: Custody, id: Bytes32, approvals: seq<MultisigSig>, k: nat,
                                           n: nat)
    requires k <= n <= |approvals| && ApproveCustody(c, b, id, approvals, k).1.Err?
    ensures ApproveCustody(c, b, id, approvals, n) == ApproveCustody(c, b, id, approvals, k)
  {
    hide Approved;
    if k < n { ApprovalRefused(c, b, id, approvals, k, n - 1); }
  }
}
